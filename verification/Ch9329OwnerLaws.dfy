/** The laws of the ch9329 owner, over every run of requests and everything a line can do. */
module Ch9329OwnerLaws {
  import opened Bytes
  import opened UsKeyboard
  import opened Ch9329Chip
  import opened Ch9329Keys
  import opened Ch9329Typing
  import opened Ch9329Commands
  import opened Ch9329Laws
  import opened Ch9329TypeLaws
  import opened Ch9329CommandLaws
  import opened Ch9329StepLaws
  import opened Ch9329Owner
  import M = Motion

  // -- opening --------------------------------------------------------------------------

  /** Every default rate is probed, each rate once, and the rate of the session before first. */
  lemma ProbesAll(first: Option<nat>)
    ensures var order := ProbeOrder(first);
      && (forall r :: r in order <==> r in {9600, 57600, 115200} || first == Some(r))
      && (first.Some? ==> order[0] == first.value)
      && |order| == (if first.Some? && first.value !in {9600, 57600, 115200} then 4 else 3)
      && (first == None ==> order == [115200, 57600, 9600])
      && forall i, j | 0 <= i < j < |order| :: order[i] != order[j]
  {
    var a, b, c := BAUD_CANDIDATES[0], BAUD_CANDIDATES[1], BAUD_CANDIDATES[2];
    assert BAUD_CANDIDATES[1..] == [b, c] && [b, c][1..] == [c] && [c][1..] == [];
    assert Others([c], first) == if first == Some(c) then [] else [c];
    assert Others([b, c], first) == (if first == Some(b) then [] else [b]) + Others([c], first);
  }

  /** Chips that differ at most in what clearing them again would change. */
  ghost predicate ClearedFrom(before: Chip, after: Chip) {
    && after.kbd.typed == before.kbd.typed && after.pointer == before.pointer && after.mux == before.mux
    && after.stuck == before.stuck && after.baud == before.baud && after.flash == before.flash
    && (after.moves == before.moves || after.moves == before.moves + [(0, 0, 0)])
  }

  /** A session that is fit to go on with: in step where sure, and both ends at its rate. */
  ghost predicate Sound(s: Held, l: Line) {
    Valid(s) && InStepWhereSure(s, l) && l.baud == l.chip.baud == s.baud
  }

  /**
   * Opening, on any line: a session that comes back is in step with the chip at nothing held, at
   * the chip's rate, which was among those probed; the target sees no keystroke and no motion; and
   * it does come back when the chip's rate is probed and all is well.
   */
  lemma {:induction false} OpenLaw(l: Line, rates: seq<nat>)
    ensures var (s, l') := OpenOn(l, rates);
      && (s.Some? ==>
            && s.value == Nothing(l.chip.baud) && l.chip.baud in rates
            && Agrees(s.value, l'.chip) && !l'.keysUnsure && !l'.buttonsUnsure && l'.baud == l'.chip.baud)
      && ClearedFrom(l.chip, l'.chip)
      && (l.WellOnceHeard() && l.chip.baud in rates ==> s.Some? && l'.AllWell())
      && (l.NoBad() ==> l'.NoBad())
    decreases |rates|
  {
    hide HeldReport;
    if rates != [] {
      var probe := l.(baud := rates[0]);
      var probed := probe.Sent(GetInfo);
      ProbeLaw(probe);
      if probe.Reply() != Ack {
        OpenLaw(probed, rates[1..]);
        assert rates == [rates[0]] + rates[1..];
        hide Batch, Line.Sent, Line.Next;
      } else {
        ClearLaw(probed);
        assert rates[0] in rates;
        hide Batch, Line.Sent, Line.Next;
      }
    }
  }

  lemma ProbeLaw(l: Line)
    ensures var l' := l.Sent(GetInfo);
      && l'.chip == l.chip && l'.baud == l.baud
      && (l.Reply() == Ack ==> l.baud == l.chip.baud)
      && (l.WellOnceHeard() ==> l'.WellOnceHeard() && (l.baud == l.chip.baud ==> l.Reply() == Ack))
      && (l.NoBad() ==> l'.NoBad())
  {
    if l.fates != [] {
      assert l.fates[0] in l.fates && forall x <- l.fates[1..] :: x in l.fates;
    }
  }

  lemma ClearLaw(l: Line)
    requires l.baud == l.chip.baud
    ensures var w := Batch(l, [Keyboard(HeldReport(EMPTY)), ButtonFrame({})]);
      && (w.reply == Ack ==> Agrees(Nothing(l.baud), w.line.chip) && !w.line.keysUnsure && !w.line.buttonsUnsure)
      && ClearedFrom(l.chip, w.line.chip) && w.line.baud == l.baud
      && (l.AllWell() ==> w.reply == Ack && w.line.AllWell())
      && (l.NoBad() ==> w.line.NoBad())
  {
    var f, g := Keyboard(HeldReport(EMPTY)), ButtonFrame({});
    TwoFrames(l, f, g);
    NoEdges(l.chip.kbd.kbd, EMPTY);
    assert l.chip.kbd.typed + [] == l.chip.kbd.typed;
    SentWellIf(l, f);
    SentWellIf(l.Sent(f), g);
    SentNoBadIf(l, f);
    SentNoBadIf(l.Sent(f), g);
    hide Batch, HeldReport, Edges, Line.AllWell, Line.NoBad;
  }

  // -- in step over every run -----------------------------------------------------------

  ghost predicate InStep(o: OwnerState) {
    o.session.Some? ==> Sound(o.session.value, o.line)
  }

  /** The chip's rate is among those the owner would probe next. */
  predicate Findable(o: OwnerState) {
    o.line.chip.baud in ProbeOrder(o.lastBaud)
  }

  lemma OpenedInStep(o: OwnerState)
    requires InStep(o)
    ensures var (s, l) := Session0(o);
      && (s.Some? ==> Sound(s.value, l))
      && (s.None? ==> o.session.None?)
      && (o.line.WellOnceHeard() && Findable(o) ==> s.Some? && l.AllWell())
      && (o.line.NoBad() ==> l.NoBad())
      && ClearedFrom(o.line.chip, l.chip)
      && (o.session.None? && s.Some? ==> Agrees(s.value, l.chip) && !l.keysUnsure && !l.buttonsUnsure)
  {
    OpenLaw(o.line, ProbeOrder(o.lastBaud));
    NothingValid();
    hide OpenOn, ProbeOrder, ValidKeys, HeldReport;
  }

  lemma ExecuteSound(c: Command, l: Line, s: Held)
    requires Sound(s, l) && RealCommand(c)
    ensures var r := Execute(c, l, s); Valid(r.held) && (IsTransportError(r.outcome) || Sound(r.held, r.line))
  {
    SureStaysInStep(c, l, s);
    StaysInStep(c, l, s);
    if c.Baud? {
      BaudLaw(l, s, c.rate);
    } else {
      RatesKept(c, l, s);
    }
    hide Execute, ValidKeys, HeldReport, InStepWhereSure, EndsWithKeys, EndsWithButtons, Stores, Resets, Chip.Apply;
  }

  lemma RetrySound(c: Command, l: Line, s: Held)
    requires Sound(s, l) && RealCommand(c)
    ensures var r := ExecuteWithRetry(c, l, s); IsTransportError(r.outcome) || Sound(r.held, r.line)
  {
    var r := Execute(c, l, s);
    ExecuteSound(c, l, s);
    if IsIdempotentQuery(c) {
      QueryLaw(c, l, s);
      QueryLaw(c, r.line, r.held);
    }
    hide Execute, ValidKeys, HeldReport;
  }

  lemma ReleaseSound(l: Line, s: Held)
    requires Sound(s, l)
    ensures var r := ReleaseOn(l, s); Sound(r.held, r.line)
  {
    var f := Keyboard(HeldReport(EMPTY));
    NothingValid();
    OneReportSure(l, HeldReport(EMPTY));
    OneFrame(l, f);
    OneButtonSure(l.Sent(f), {});
    OneFrame(l.Sent(f), ButtonFrame({}));
    SetKeeps(l, f);
    SetKeeps(l.Sent(f), ButtonFrame({}));
    hide HeldReport, ValidKeys, Batch, Line.Sent, Line.Next, Line.Reply;
  }

  lemma SetKeeps(l: Line, f: Frame)
    requires f.Keyboard? || f.MouseRel?
    ensures l.Sent(f).baud == l.baud && l.Sent(f).chip.baud == l.chip.baud
  {
  }

  lemma HandledInStep(o: OwnerState, q: Request)
    requires InStep(o) && (q.Serve? ==> RealCommand(q.command))
    ensures InStep(Handled(o, q))
  {
    OpenedInStep(o);
    var (s, l) := Session0(o);
    if s.Some? {
      if q.Serve? {
        RetrySound(q.command, l, s.value);
      }
      ReleaseSound(l, s.value);
    }
    hide Session0, ExecuteWithRetry, ReleaseOn, Sound;
  }

  /**
   * Over every run of requests, losses, refusals and failed shutdowns: between requests both ends
   * of an open session run at its rate, and it agrees with the chip on modifiers and keys unless
   * the last keyboard report or reset sent was not acknowledged, and on the buttons unless the
   * last report of these was not.
   */
  lemma {:induction false} AllInStep(o: OwnerState, qs: seq<Request>)
    requires InStep(o) && forall q <- qs :: q.Serve? ==> RealCommand(q.command)
    ensures InStep(HandledAll(o, qs))
    decreases |qs|
  {
    if qs != [] {
      assert qs[0] in qs && forall q <- qs[1..] :: q in qs;
      HandledInStep(o, qs[0]);
      hide Handled, InStep;
      AllInStep(Handled(o, qs[0]), qs[1..]);
    }
  }

  // -- agreement without exception ------------------------------------------------------

  ghost predicate OpenAgrees(o: OwnerState) {
    o.session.Some? ==> Agrees(o.session.value, o.line.chip)
  }

  /** A rate change asks for another rate than the session's. */
  predicate Renews(o: OwnerState, q: Request) {
    q.Serve? && q.command.Baud? && Session0(o).0.Some? ==> q.command.rate != Session0(o).0.value.baud
  }

  predicate AllRenew(o: OwnerState, qs: seq<Request>)
    decreases |qs|
  {
    qs == [] || (Renews(o, qs[0]) && AllRenew(Handled(o, qs[0]), qs[1..]))
  }

  lemma RetryAgrees(c: Command, l: Line, s: Held)
    requires Valid(s) && RealCommand(c) && Agrees(s, l.chip) && l.NoBad() && (c.Baud? ==> c.rate != l.chip.baud)
    ensures var r := ExecuteWithRetry(c, l, s);
      r.line.NoBad() && (IsTransportError(r.outcome) || Agrees(r.held, r.line.chip))
  {
    var r := Execute(c, l, s);
    StaysInStep(c, l, s);
    NeverBad(c, l, s);
    if IsIdempotentQuery(c) {
      QueryLaw(c, l, s);
      QueryLaw(c, r.line, r.held);
      NeverBad(c, r.line, r.held);
    }
    hide Execute, ValidKeys, HeldReport;
  }

  lemma HandledAgrees(o: OwnerState, q: Request)
    requires InStep(o) && OpenAgrees(o) && o.line.NoBad() && q.Serve? && RealCommand(q.command) && Renews(o, q)
    ensures OpenAgrees(Handled(o, q)) && Handled(o, q).line.NoBad()
  {
    OpenedInStep(o);
    var (s, l) := Session0(o);
    if s.Some? {
      RetryAgrees(q.command, l, s.value);
    }
    hide Session0, ExecuteWithRetry, HeldReport, ValidKeys, InStepWhereSure;
  }

  /**
   * Without a refusal, an unreadable reply, a shutdown or a rate set to what it was, the agreement
   * has no exception.
   */
  lemma {:induction false} AllAgree(o: OwnerState, qs: seq<Request>)
    requires InStep(o) && OpenAgrees(o) && o.line.NoBad() && AllRenew(o, qs)
    requires forall q <- qs :: q.Serve? && RealCommand(q.command)
    ensures OpenAgrees(HandledAll(o, qs))
    decreases |qs|
  {
    if qs != [] {
      assert qs[0] in qs && forall q <- qs[1..] :: q in qs;
      HandledInStep(o, qs[0]);
      HandledAgrees(o, qs[0]);
      hide Handled, InStep, OpenAgrees, Renews;
      AllAgree(Handled(o, qs[0]), qs[1..]);
    }
  }

  /**
   * One request on a session in step leaves it in step, if it leaves it open, exactly when
   * `KeepsStep` says so of the line it was served on.
   */
  lemma ServedStepExactly(o: OwnerState, c: Command)
    requires InStep(o) && OpenAgrees(o) && RealCommand(c)
    ensures var (s, l) := Session0(o); var o' := Served(o, c).0;
      o'.session.Some? ==> s.Some? && (OpenAgrees(o') <==> KeepsStep(c, l, s.value))
  {
    OpenedInStep(o);
    var (s, l) := Session0(o);
    if s.Some? {
      var r := Execute(c, l, s.value);
      StepExactly(c, l, s.value);
      if IsIdempotentQuery(c) {
        QueryLaw(c, l, s.value);
        QueryLaw(c, r.line, r.held);
      }
    }
    hide Session0, Execute, HeldReport, ValidKeys, InStepWhereSure, KeepsStep, ClearedFrom, Line.Sent, Findable;
  }

  // -- finding the chip -----------------------------------------------------------------

  /**
   * The request by which the owner loses the chip: a rate is stored but the reset is lost, so that
   * the chip goes on at its old rate, which is neither the new one nor a default.
   */
  predicate LosesChip(o: OwnerState, q: Request) {
    q.Serve? && !q.clientGone && q.command.Baud?
    && var (s, l) := Session0(o);
    && s.Some? && Stores(l, q.command.rate) && !Resets(l, q.command.rate)
    && l.chip.baud !in BAUD_CANDIDATES && l.chip.baud != q.command.rate
  }

  lemma ProbedRates(first: Option<nat>, rate: nat)
    ensures rate in ProbeOrder(first) <==> rate in BAUD_CANDIDATES || first == Some(rate)
  {
    ProbesAll(first);
  }

  lemma ServedRate(c: Command, l: Line, s: Held)
    requires s.baud == l.chip.baud
    ensures var r := ExecuteWithRetry(c, l, s);
      (r.line.chip.baud in BAUD_CANDIDATES || r.held.baud == r.line.chip.baud)
      <==> !(c.Baud? && Stores(l, c.rate) && !Resets(l, c.rate) && l.chip.baud !in BAUD_CANDIDATES && l.chip.baud != c.rate)
  {
    if c.Baud? {
      BaudLaw(l, s, c.rate);
    } else {
      RatesKept(c, l, s);
      RatesKept(c, Execute(c, l, s).line, Execute(c, l, s).held);
    }
    hide Execute, Stores;
  }

  /** Every other request leaves the chip where the next probing finds it. */
  lemma FindableExactly(o: OwnerState, q: Request)
    requires InStep(o) && Findable(o)
    ensures Findable(Handled(o, q)) <==> !LosesChip(o, q)
  {
    OpenedInStep(o);
    var (s, l) := Session0(o);
    ProbedRates(o.lastBaud, o.line.chip.baud);
    if s.Some? {
      if q.Serve? {
        ServedRate(q.command, l, s.value);
        var r := ExecuteWithRetry(q.command, l, s.value);
        ProbedRates(Some(r.held.baud), r.line.chip.baud);
      } else {
        ReleaseSound(l, s.value);
        ReleaseKeepsRate(l, s.value);
      }
    }
    hide Session0, ExecuteWithRetry, ReleaseOn, ProbeOrder, Stores, Resets, Valid, InStepWhereSure;
  }

  lemma ReleaseKeepsRate(l: Line, s: Held)
    ensures ReleaseOn(l, s).line.chip.baud == l.chip.baud
  {
    var f := Keyboard(HeldReport(EMPTY));
    SetKeeps(l, f);
    SetKeeps(l.Sent(f), ButtonFrame({}));
    hide HeldReport, Line.Sent, Line.Reply;
  }

  predicate NeverLosesChip(o: OwnerState, qs: seq<Request>)
    decreases |qs|
  {
    qs == [] || (!LosesChip(o, qs[0]) && NeverLosesChip(Handled(o, qs[0]), qs[1..]))
  }

  lemma {:induction false} StaysFindable(o: OwnerState, qs: seq<Request>)
    requires InStep(o) && Findable(o) && NeverLosesChip(o, qs)
    requires forall q <- qs :: q.Serve? ==> RealCommand(q.command)
    ensures Findable(HandledAll(o, qs))
    decreases |qs|
  {
    if qs != [] {
      assert qs[0] in qs && forall q <- qs[1..] :: q in qs;
      HandledInStep(o, qs[0]);
      FindableExactly(o, qs[0]);
      hide Handled, InStep, Findable, LosesChip;
      StaysFindable(Handled(o, qs[0]), qs[1..]);
    }
  }

  /** Once lost the chip is not found again, whatever the line does from then on. */
  lemma LostForGood(o: OwnerState, c: Command)
    requires o.session.None? && !Findable(o)
    ensures var (o', told) := Served(o, c); told == NotOpened && o'.session.None? && !Findable(o')
  {
    hide OpenOn, ProbeOrder, ExecuteWithRetry, HeldReport;
    OpenLaw(o.line, ProbeOrder(o.lastBaud));
    var (s, l) := Session0(o);
    assert s.None? && l.chip.baud == o.line.chip.baud;
  }

  /** It does happen: from 19200 to 14400, with the reset and what follows lost. */
  lemma ChipLost(l: Line)
    requires l.chip.baud == l.baud == 19200
    requires l.fates == [Acked, Acked, FrameLost, FrameLost, FrameLost, FrameLost]
    ensures var o := OwnerState(Some(Nothing(19200)), Some(19200), l); var q := Serve(Baud(14400), false);
      Findable(o) && LosesChip(o, q) && Handled(o, q).session.None?
  {
    var o := OwnerState(Some(Nothing(19200)), Some(19200), l);
    ProbedRates(o.lastBaud, 19200);
    var stored := l.Sent(GetConfig).Sent(SetConfig(14400));
    StoresWhenAcked(l, 14400);
    assert stored.fates[0] == FrameLost;
    BaudLaw(l, Nothing(19200), 14400);
    hide Execute, Batch, ProbeOrder, HeldReport;
  }

  lemma StoresWhenAcked(l: Line, rate: nat)
    requires |l.fates| >= 2 && l.fates[0] == Acked == l.fates[1] && l.baud == l.chip.baud
    ensures var w := Batch(l, [GetConfig, SetConfig(rate)]);
      w.reply == Ack && w.line.fates == l.fates[2..] && w.line.baud == w.line.chip.baud
  {
    TwoFrames(l, GetConfig, SetConfig(rate));
    assert l.fates[1..][1..] == l.fates[2..];
  }

  // -- one request ----------------------------------------------------------------------

  /**
   * A command that is no query is executed exactly once, on the session found or opened; a query
   * whose reply is lost once more, which changes nothing on the target.
   */
  lemma ExecutedOnce(o: OwnerState, c: Command)
    ensures var (s, l) := Session0(o); var (o', told) := Served(o, c);
      if s.None? then told == NotOpened && o'.line == l && o'.session.None?
      else
        var r := Execute(c, l, s.value);
        if IsIdempotentQuery(c) then o'.line.chip == l.chip.(mux := o'.line.chip.mux)
        else told == Told(r.outcome) && o'.line == r.line
             && (o'.session.Some? ==> o'.session.value == r.held)
  {
    var (s, l) := Session0(o);
    if s.Some? && IsIdempotentQuery(c) {
      var r := Execute(c, l, s.value);
      QueryLaw(c, l, s.value);
      QueryLaw(c, r.line, r.held);
    }
    hide Session0, Execute;
  }

  /**
   * `ping` and `info`: a reply that does not come in time is asked for once more, and only then
   * believed; any other first reply decides. `version` needs no reply.
   */
  lemma QueryRetried(o: OwnerState, c: Command)
    requires IsIdempotentQuery(c)
    ensures var (s, l) := Session0(o); var (o', told) := Served(o, c);
      s.Some? ==>
        var once := l.Sent(GetInfo);
        if c.Version? then told == Told(Done) && o'.line == l && o'.session == s
        else
          var retried := l.Reply() == NoReply;
          var last := if retried then once.Reply() else l.Reply();
          && o'.line == (if retried then once.Sent(GetInfo) else once)
          && told == Told(Made(last))
          && o'.session == (if last == Ack || last == BadReply then s else None)
  {
    var (s, l) := Session0(o);
    if s.Some? {
      QueryLaw(c, l, s.value);
      QueryLaw(c, l.Sent(GetInfo), s.value);
    }
    hide Session0, Execute;
  }

  /** A request whose client gave up leaves session, line and remembered rate as they were. */
  lemma GoneClient(o: OwnerState, c: Command)
    ensures Handled(o, Serve(c, true)) == o
  {
  }

  /**
   * A HID command whose first frame is refused, or answered unreadably, is told so and keeps the
   * session; one whose first frame finds no reply, or a broken port, drops it.
   */
  lemma FirstReplyServed(o: OwnerState, c: Command)
    requires IsHid(c)
    ensures var (s, l) := Session0(o); var (o', told) := Served(o, c);
      s.Some? && SendsFrame(c, s.value) && l.Reply() != Ack ==>
        told == Told(Made(l.Reply())) && (o'.session.Some? <==> l.Reply() == BadReply)
  {
    var (s, l) := Session0(o);
    if s.Some? && SendsFrame(c, s.value) && l.Reply() != Ack {
      FirstReplyDecides(c, l, s.value);
    }
    hide Session0, Execute, SendsFrame;
  }

  /**
   * When the chip is where the owner looks for it and every frame it hears is acknowledged, a
   * request opens the session if need be and succeeds, bar the exact refusals.
   */
  lemma ServedWell(o: OwnerState, c: Command)
    requires InStep(o) && Findable(o) && o.line.WellOnceHeard()
    ensures var (s, l) := Session0(o); var (o', told) := Served(o, c);
      && s.Some? && o'.session.Some? && o'.line.AllWell()
      && told == Told(if TurnedDown(c, s.value) then Refused
                      else if c.UsbSet? && l.Sent(UsbSwitch(c.side)).chip.mux != c.side then NotMoved
                      else Done)
  {
    OpenedInStep(o);
    var (s, l) := Session0(o);
    Succeeds(c, l, s.value);
    hide Session0, Execute, TurnedDown, ValidKeys, HeldReport, InStepWhereSure, Findable;
  }

  /** A HID command that lost a frame drops the session, or was told a bad reply. */
  lemma LossDropsSession(o: OwnerState, c: Command)
    requires InStep(o) && RealCommand(c) && IsHid(c)
    ensures var (s, l) := Session0(o); var (o', told) := Served(o, c);
      s.Some? && o'.line.lost != l.lost ==> o'.session.None? || told == Told(Bad)
  {
    OpenedInStep(o);
    var (s, l) := Session0(o);
    if s.Some? {
      StaysInStep(c, l, s.value);
    }
    hide Session0, Execute, ValidKeys, HeldReport, InStepWhereSure;
  }

  // -- at most once ---------------------------------------------------------------------

  /** The chip received the first so many frames of a command, in order and once each. */
  ghost predicate GotFrames(c: Command, s: Held, before: Chip, after: Chip) {
    exists n | 0 <= n <= |FramesOf(c, s)| :: after == ApplyAll(before, FramesOf(c, s)[..n])
  }

  /** What a served command may make of the target. */
  ghost predicate AtMostOnce(c: Command, s: Held, before: Chip, after: Chip)
    requires Valid(s)
  {
    match c
    case Tap(k) => DownOnce(before.kbd, after.kbd, s.report, [k])
    case Combo(chord) => DownOnce(before.kbd, after.kbd, s.report, chord)
    case KeyDown(k) => DownOnce(before.kbd, after.kbd, s.report, [k]) && GotFrames(c, s, before, after)
    case Type(text) =>
      && before.kbd.typed <= after.kbd.typed
      && ShowsInOrder(s.report, Typeable(text), after.kbd.typed[|before.kbd.typed|..])
      && ((forall x <- Typeable(text) :: Fits(s.report, x) && Safe(s.report, x)) ==>
            ReadPrefix(before.kbd.typed, after.kbd.typed, Typeable(text), s.report.mods))
    case Move(dx, dy) =>
      exists n | 0 <= n <= |M.Steps(M.ClampTotal(dx), M.ClampTotal(dy))| ::
        after.moves == before.moves + Moves(M.Steps(M.ClampTotal(dx), M.ClampTotal(dy)))[..n]
    case Scroll(amount) =>
      exists n | 0 <= n <= |M.Steps(M.ClampTotal(amount), 0)| ::
        after.moves == before.moves + Wheel(M.Steps(M.ClampTotal(amount), 0))[..n]
    case Baud(_) => after.kbd.typed == before.kbd.typed && after.moves == before.moves
    case _ => GotFrames(c, s, before, after)
  }

  /** Commands that may press a key. */
  predicate MayType(c: Command) { c.Tap? || c.Combo? || c.KeyDown? || c.Type? }

  lemma ExecuteAtMostOnce(c: Command, l: Line, s: Held)
    requires Valid(s) && RealCommand(c) && !IsQuery(c) && (MayType(c) ==> KeyboardAgrees(s, l.chip))
    ensures AtMostOnce(c, s, l.chip, Execute(c, l, s).line.chip)
  {
    hide ValidKeys, HeldReport, Minus, ChordMods, DownOnce, AtMostOneLoss, KeySet, Usages, Target.Receive, Typeable,
      Edges, M.Steps, M.ClampTotal, Moves, Wheel, Execute, ReadPrefix, Fits, Safe, GotFrames, Stores, Resets, ShowsInOrder;
    match c
    case Tap(k) => TapLaw(l, s, k);
    case Combo(chord) => ComboLaw(l, s, chord);
    case KeyDown(k) =>
      DownAtMostOnce(l, s, k);
      FramesAtMostOnce(c, l, s);
    case Type(text) => TypeAtMostOnce(l, s, text);
    case Move(dx, dy) => var n := MoveLaw(l, s, dx, dy);
    case Scroll(amount) => var n := ScrollLaw(l, s, amount);
    case Baud(rate) => BaudLaw(l, s, rate);
    case _ => FramesAtMostOnce(c, l, s);
  }

  lemma FramesAtMostOnce(c: Command, l: Line, s: Held)
    requires !(c.Tap? || c.Combo? || c.Type? || c.UsbState? || c.UsbSet? || c.Baud?)
    ensures GotFrames(c, s, l.chip, Execute(c, l, s).line.chip)
  {
    hide FramesOf, ApplyAll;
    var n := BatchApplies(l, FramesOf(c, s));
    hide Batch;
  }

  lemma DownAtMostOnce(l: Line, s: Held, k: Key)
    requires KeyboardAgrees(s, l.chip)
    ensures DownOnce(l.chip.kbd, Execute(KeyDown(k), l, s).line.chip.kbd, s.report, [k])
  {
    TapPressesDown(s.report, k);
    OneFrame(l, Keyboard(HeldReport(Down(s.report, k))));
    hide Batch, HeldReport, Down, Edges, DownAll;
  }

  lemma TypeAtMostOnce(l: Line, s: Held, text: string)
    requires Valid(s) && KeyboardAgrees(s, l.chip)
    ensures AtMostOnce(Type(text), s, l.chip, Execute(Type(text), l, s).line.chip)
  {
    hide HeldReport, StrokesOn, Typeable, Fits, Safe, ReadPrefix, ValidKeys, ShowsInOrder, Real;
    TypeableAll(text);
    PrefixOfNone(l.chip.kbd.typed, Typeable(text), s.report.mods);
    NothingShown(s.report, Typeable(text), l.chip.kbd.typed);
    StrokesShow(l, s.report, Typeable(text));
    if forall x <- Typeable(text) :: Fits(s.report, x) && Safe(s.report, x) {
      RealEach(Typeable(text));
      StrokesPrefix(l, s.report, Typeable(text));
    }
  }

  lemma RealEach(ss: seq<Stroke>)
    requires Real(ss)
    ensures forall x <- ss :: x.usage != 0
  {
  }

  lemma NothingShown(h: Report, ss: seq<Stroke>, typed: seq<Stroke>)
    requires ValidKeys(h.keys)
    ensures typed <= typed && ShowsInOrder(h, ss, typed[|typed|..])
  {
  }

  /**
   * Whatever is lost, and even when the session had to be opened first: a served command's keys,
   * characters, steps and clicks reach the target at most once and in order; a command that may
   * press a key, on a session whose keyboard side is sure.
   */
  lemma ServedAtMostOnce(o: OwnerState, c: Command)
    requires InStep(o) && (o.session.Some? && MayType(c) ==> !o.line.keysUnsure) && RealCommand(c)
    ensures var (s, l) := Session0(o); var (o', _) := Served(o, c);
      && ClearedFrom(o.line.chip, l.chip)
      && (s.None? ==> o'.line == l)
      && (s.Some? && !IsQuery(c) ==> Valid(s.value) && AtMostOnce(c, s.value, l.chip, o'.line.chip))
  {
    OpenedInStep(o);
    var (s, l) := Session0(o);
    if s.Some? && !IsQuery(c) {
      ExecuteAtMostOnce(c, l, s.value);
    }
    hide Session0, Execute, AtMostOnce, HeldReport, ValidKeys;
  }

  /**
   * The shutdown request reopens if need be: when it reports success the chip holds no key, no
   * modifier and no button, and it succeeds when the chip can be found and all is well.
   */
  lemma ShutDownReleases(o: OwnerState)
    requires InStep(o)
    ensures var (o', ok) := ShutDown(o);
      && (ok ==> o'.session.Some? && o'.session.value == Nothing(o'.line.baud) && Agrees(o'.session.value, o'.line.chip))
      && (o.line.WellOnceHeard() && Findable(o) ==> ok)
      && (o.session.Some? ==> o'.session.Some?)
      && (Session0(o).0.None? ==> !ok && o' == o.(line := Session0(o).1))
  {
    OpenedInStep(o);
    var (s, l) := Session0(o);
    if s.Some? {
      ReleaseLaw(l, s.value);
      ReleaseSound(l, s.value);
    }
    hide Session0, ReleaseOn, HeldReport, ValidKeys, InStepWhereSure, Findable;
  }
}
