/** The laws of pointing on a ch9329, and the laws that hold for every command. */
module Ch9329CommandLaws {
  import opened Bytes
  import opened UsKeyboard
  import opened Ch9329Chip
  import opened Ch9329Keys
  import opened Ch9329Typing
  import opened Ch9329Commands
  import opened Ch9329Laws
  import opened Ch9329TypeLaws
  import M = Motion

  // -- motion ---------------------------------------------------------------------------

  function Moves(steps: seq<(int, int)>): (r: seq<(int, int, int)>)
    ensures |r| == |steps|
  {
    seq(|steps|, i requires 0 <= i < |steps| => (steps[i].0, steps[i].1, 0))
  }

  function Wheel(steps: seq<(int, int)>): (r: seq<(int, int, int)>)
    ensures |r| == |steps|
  {
    seq(|steps|, i requires 0 <= i < |steps| => (0, 0, steps[i].0))
  }

  function MotionOf(frames: seq<Frame>): (r: seq<(int, int, int)>)
    requires forall f <- frames :: f.MouseRel?
    ensures |r| == |frames|
  {
    seq(|frames|, i requires 0 <= i < |frames| => (frames[i].dx, frames[i].dy, frames[i].wheel))
  }

  /** Relative frames in turn: their motion is received in order, and the last one's buttons stay. */
  lemma {:induction false} RelApplied(chip: Chip, frames: seq<Frame>, b: set<Button>)
    requires forall f <- frames :: f.MouseRel? && f.buttons == b
    ensures var c := ApplyAll(chip, frames);
      && c.moves == chip.moves + MotionOf(frames) && c.kbd == chip.kbd && c.mux == chip.mux
      && c.buttons == if frames == [] then chip.buttons else b
    decreases |frames|
  {
    if frames == [] {
      assert chip.moves + [] == chip.moves;
    } else {
      var f, rest := frames[0], frames[1..];
      assert f in frames && forall x <- rest :: x in frames;
      RelApplied(chip.Apply(f), rest, b);
      assert MotionOf(frames) == [(f.dx, f.dy, f.wheel)] + MotionOf(rest);
    }
  }

  /**
   * `move` on any line: the chip receives the first `n` of the steps that add up to the clamped
   * motion, all of them when acknowledged; nothing else changes.
   */
  lemma MoveLaw(l: Line, s: Held, dx: int, dy: int) returns (n: nat)
    ensures var steps := M.Steps(M.ClampTotal(dx), M.ClampTotal(dy)); var r := Execute(Move(dx, dy), l, s);
      && n <= |steps| && r.line.chip.moves == l.chip.moves + Moves(steps)[..n]
      && (r.outcome == Done ==> n == |steps| && r.line.lost == l.lost)
      && r.outcome in {Done, Lost, Dead, Bad} && r.held == s && r.line.chip.kbd == l.chip.kbd
      && (l.chip.buttons == s.buttons ==> r.line.chip.buttons == s.buttons)
  {
    hide M.Steps, M.ClampTotal;
    var steps := M.Steps(M.ClampTotal(dx), M.ClampTotal(dy));
    var frames := MoveFrames(s.buttons, steps);
    n := BatchApplies(l, frames);
    RelApplied(l.chip, frames[..n], s.buttons);
    assert MotionOf(frames[..n]) == Moves(steps)[..n];
    hide Batch, ApplyAll;
  }

  lemma ScrollLaw(l: Line, s: Held, amount: int) returns (n: nat)
    ensures var steps := M.Steps(M.ClampTotal(amount), 0); var r := Execute(Scroll(amount), l, s);
      && n <= |steps| && r.line.chip.moves == l.chip.moves + Wheel(steps)[..n]
      && (r.outcome == Done ==> n == |steps| && r.line.lost == l.lost)
      && r.outcome in {Done, Lost, Dead, Bad} && r.held == s && r.line.chip.kbd == l.chip.kbd
      && (l.chip.buttons == s.buttons ==> r.line.chip.buttons == s.buttons)
  {
    hide M.Steps, M.ClampTotal;
    var steps := M.Steps(M.ClampTotal(amount), 0);
    var frames := WheelFrames(s.buttons, steps);
    n := BatchApplies(l, frames);
    RelApplied(l.chip, frames[..n], s.buttons);
    assert MotionOf(frames[..n]) == Wheel(steps)[..n];
    hide Batch, ApplyAll;
  }

  lemma TwoFrames(l: Line, f: Frame, g: Frame)
    ensures Batch(l, [f, g]) ==
      if l.Reply() != Ack then Went(l.Sent(f), l.Reply()) else Went(l.Sent(f).Sent(g), l.Sent(f).Reply())
  {
    assert [f, g][1..] == [g];
    OneFrame(l.Sent(f), g);
  }

  /** On the point `t`, or one unit above it, or below it at the top of the screen. */
  predicate AtOrNear(p: (int, int), t: (int, int)) {
    p.0 == t.0 && (p.1 == t.1 || p.1 == if t.1 == 0 then 1 else t.1 - 1)
  }

  /**
   * `moveabs`: the chip ignores a repeated coordinate, so a report one unit off goes first; when
   * acknowledged the pointer is on the target whatever was reported before, and otherwise where it
   * was, on the target, or that unit off.
   */
  lemma MoveAbsLaw(l: Line, s: Held, x: int, y: int)
    ensures var r := Execute(MoveAbs(x, y), l, s);
      && (r.outcome == Done ==>
            && r.line.chip.pointer == (M.ScaleAbs(x), M.ScaleAbs(y))
            && r.line.chip.buttons == s.buttons && r.line.lost == l.lost)
      && (r.line.chip.pointer == l.chip.pointer || AtOrNear(r.line.chip.pointer, (M.ScaleAbs(x), M.ScaleAbs(y))))
      && r.outcome in {Done, Lost, Dead, Bad} && r.held == s && r.line.chip.kbd == l.chip.kbd
      && (l.chip.buttons == s.buttons ==> r.line.chip.buttons == s.buttons)
  {
    hide M.ScaleAbs;
    var f := FramesOf(MoveAbs(x, y), s);
    TwoFrames(l, f[0], f[1]);
    assert f == [f[0], f[1]];
    hide Batch;
  }

  /**
   * A click presses and releases on top of the held buttons. The release is sent only after an
   * acknowledged press: the chip then agrees with the session exactly when the press did not
   * arrive, or was acknowledged and the release arrived, or the button was held anyway.
   */
  lemma ClickLaw(l: Line, s: Held, b: Button)
    requires l.chip.buttons == s.buttons
    ensures var r := Execute(Click(b), l, s); var second := l.Sent(ButtonFrame(s.buttons + {b})).Next();
      && r.held == s && r.line.chip.kbd == l.chip.kbd && r.outcome in {Done, Lost, Dead, Bad}
      && r.line.chip.pointer == l.chip.pointer
      && r.line.chip.moves in {l.chip.moves, l.chip.moves + [(0, 0, 0)], l.chip.moves + [(0, 0, 0)] + [(0, 0, 0)]}
      && (r.outcome == Done ==> r.line.lost == l.lost)
      && (r.line.chip.buttons == s.buttons
          <==> b in s.buttons || !Arrives(l.Next()) || (l.Next() == Acked && Arrives(second)))
  {
    var f := FramesOf(Click(b), s);
    TwoFrames(l, f[0], f[1]);
    assert f == [f[0], f[1]];
    assert b in s.buttons <==> s.buttons + {b} == s.buttons;
    hide Batch;
  }

  /** `mdown` and `mup` count on every outcome; when acknowledged the chip agrees. */
  lemma ButtonLaw(l: Line, s: Held, b: Button, down: bool)
    ensures var r := Execute(if down then MouseDown(b) else MouseUp(b), l, s);
      && r.held == s.(buttons := if down then s.buttons + {b} else s.buttons - {b})
      && r.outcome in {Done, Lost, Dead, Bad} && r.line.chip.kbd == l.chip.kbd
      && (r.outcome == Done ==> r.line.chip.buttons == r.held.buttons && r.line.lost == l.lost)
  {
    OneFrame(l, ButtonFrame(s.buttons + {b}));
    OneFrame(l, ButtonFrame(s.buttons - {b}));
    hide Batch;
  }

  lemma ReleaseAllLaw(l: Line, s: Held)
    ensures var r := Execute(ReleaseAll, l, s);
      && r.held == s.(report := EMPTY) && r.outcome in {Done, Lost, Dead, Bad}
      && r.line.chip == l.chip.(kbd := r.line.chip.kbd)
      && (r.outcome == Done ==> KeyboardAgrees(r.held, r.line.chip) && r.line.lost == l.lost)
  {
    OneFrame(l, Keyboard(HeldReport(EMPTY)));
    hide Batch, HeldReport;
  }

  lemma ReportInjective(h: Report)
    requires ValidKeys(h.keys)
    ensures HeldReport(h) == HeldReport(EMPTY) <==> h == EMPTY
  {
    if h.keys != [] {
      assert Slots(h.keys)[0] == h.keys[0];
      assert h.keys[0] in h.keys;
    }
  }

  /**
   * The shutdown release: success leaves nothing held anywhere. When a frame fails the session
   * counts everything the frame stood for as released, so it then agrees with the chip exactly
   * when that frame arrived after all or there was nothing to release.
   */
  lemma ReleaseLaw(l: Line, s: Held)
    requires Valid(s)
    ensures var r := ReleaseOn(l, s); var second := l.Sent(Keyboard(HeldReport(EMPTY))).Next();
      && Valid(r.held) && r.held.report == EMPTY && r.held.baud == s.baud && r.outcome in {Done, Lost, Dead, Bad}
      && (r.outcome == Done ==> r.held == Nothing(s.baud) && Agrees(r.held, r.line.chip))
      && (r.outcome != Done && Agrees(s, l.chip) ==>
            (Agrees(r.held, r.line.chip) <==>
               if l.Next() == Acked then Arrives(second) || s.buttons == {}
               else Arrives(l.Next()) || s.report == EMPTY))
      && (l.AllWell() ==> r.outcome == Done && r.line.AllWell())
      && (l.NoBad() ==> r.outcome != Bad && r.line.NoBad())
  {
    ReportInjective(s.report);
    var f := Keyboard(HeldReport(EMPTY));
    SentWellIf(l, f);
    SentWellIf(l.Sent(f), ButtonFrame({}));
    SentNoBadIf(l, f);
    SentNoBadIf(l.Sent(f), ButtonFrame({}));
    hide HeldReport, Edges;
  }

  lemma SentNoBadIf(l: Line, f: Frame)
    ensures l.NoBad() ==> l.Reply() != BadReply && l.Sent(f).NoBad()
  {
    if l.NoBad() {
      SentNoBad(l, f);
    }
  }

  /**
   * Queries and mux switches never touch the HID side of the chip, nor what the session holds, and
   * only a switch moves the mux. `ping` and `info` send one frame and succeed only on an answer;
   * `version` sends none.
   */
  lemma QueryLaw(c: Command, l: Line, s: Held)
    requires IsQuery(c)
    ensures var r := Execute(c, l, s);
      && r.held == s && r.line.chip == l.chip.(mux := r.line.chip.mux) && r.line.baud == l.baud
      && r.line.keysUnsure == l.keysUnsure && r.line.buttonsUnsure == l.buttonsUnsure
      && (!c.UsbSet? ==> r.line.chip == l.chip)
      && (c.Ping? || c.Info? ==> r.line == l.Sent(GetInfo) && r.outcome == Made(l.Reply()))
      && (c.Version? ==> r.line == l && r.outcome == Done)
      && (c.UsbState? ==>
            && r.line == l.Sent(UsbSwitch(0x03)) && (r.outcome == Done <==> l.Reply() == Ack)
            && (r.outcome == NoMux <==> l.Reply() == NoReply))
      && (r.outcome == NoMux || r.outcome == NotMoved ==> c.UsbState? || c.UsbSet?)
      && (r.outcome == Lost ==> c.Ping? || c.Info?)
      && r.outcome != Refused
  {
    OneFrame(l, GetInfo);
  }

  /** What a reply means for a command that it decides. */
  function Made(r: Reply): Outcome {
    if r == Ack then Done else if r == BadReply then Bad else if r == NoReply then Lost else Dead
  }

  /**
   * A mux switch reports success exactly when it was acknowledged and the mux is on the side
   * asked for; a reply that does not come in time reads as no mux, and only that: a port that
   * fails is a dead link, and a bad reply is bad.
   */
  lemma MuxLaw(l: Line, s: Held, side: byte)
    requires side <= 1
    ensures var r := Execute(UsbSet(side), l, s);
      && r.line == l.Sent(UsbSwitch(side))
      && (r.outcome == Done <==> l.Reply() == Ack && r.line.chip.mux == side)
      && (r.outcome == NotMoved <==> l.Reply() == Ack && r.line.chip.mux != side)
      && (r.outcome == NoMux <==> l.Reply() == NoReply)
      && (r.outcome == Dead <==> l.Reply() == Failed)
      && (r.outcome == Bad <==> l.Reply() == BadReply)
      && (l.AllWell() ==> (r.outcome == Done <==> !l.chip.stuck || l.chip.mux == side))
  {
    SentWellIf(l, UsbSwitch(side));
  }

  lemma SentWellIf(l: Line, f: Frame)
    requires f != Reset
    ensures l.AllWell() ==> l.Reply() == Ack && l.Sent(f).chip == l.chip.Apply(f) && l.Sent(f).AllWell()
  {
    if l.AllWell() {
      SentWell(l, f);
    }
  }

  // -- a new rate -----------------------------------------------------------------------

  predicate InRange(rate: nat) { BAUD_MIN <= rate <= BAUD_MAX }

  /** The chip acknowledged a new rate for its flash. */
  predicate Stores(l: Line, rate: nat) {
    InRange(rate) && Batch(l, [GetConfig, SetConfig(rate)]).reply == Ack
  }

  /** And the reset that follows arrived. */
  predicate Resets(l: Line, rate: nat) {
    Stores(l, rate) && Arrives(Batch(l, [GetConfig, SetConfig(rate)]).line.Next())
  }

  /** Asking for parameters changes nothing, and an answer means that both ends talk at one rate. */
  lemma {:induction false} AnswersLaw(l: Line, tries: nat)
    ensures var w := Answers(l, tries);
      && w.reply in {Ack, NoReply} && w.line == l.(fates := w.line.fates, lost := w.line.lost)
      && (w.reply == Ack ==> l.baud == l.chip.baud)
      && (l.AllWell() && tries > 0 ==> w.reply == Ack && w.line.AllWell())
      && (l.NoBad() ==> w.line.NoBad())
    decreases tries
  {
    if tries > 0 {
      SentWellIf(l, GetInfo);
      SentNoBadIf(l, GetInfo);
      AnswersLaw(l.Sent(GetInfo), tries - 1);
    }
  }

  lemma StoredShape(l: Line, rate: nat)
    ensures var w := Batch(l, [GetConfig, SetConfig(rate)]);
      && w.line == l.(fates := w.line.fates, lost := w.line.lost, chip := l.chip.(flash := w.line.chip.flash))
      && (w.reply == Ack ==> w.line.chip.flash == rate && w.line.lost == l.lost)
  {
    TwoFrames(l, GetConfig, SetConfig(rate));
    hide Batch;
  }

  lemma StoredLaw(l: Line, rate: nat)
    ensures var w := Batch(l, [GetConfig, SetConfig(rate)]);
      && w.line == l.(fates := w.line.fates, lost := w.line.lost, chip := l.chip.(flash := w.line.chip.flash))
      && (w.reply == Ack ==> w.line.chip.flash == rate && w.line.lost == l.lost)
      && (l.AllWell() ==> w.reply == Ack && w.line.AllWell())
      && (l.NoBad() ==> w.reply != BadReply && w.line.NoBad())
  {
    StoredShape(l, rate);
    TwoFrames(l, GetConfig, SetConfig(rate));
    SentWellIf(l, GetConfig);
    SentWellIf(l.Sent(GetConfig), SetConfig(rate));
    SentNoBadIf(l, GetConfig);
    SentNoBadIf(l.Sent(GetConfig), SetConfig(rate));
    hide Batch, Line.Sent, Line.Reply, Line.AllWell, Line.NoBad;
  }

  lemma ResetLaw(l: Line, rate: nat)
    requires l.chip.flash == rate
    ensures var l' := l.Sent(Reset).(baud := rate);
      && l'.chip == (if Arrives(l.Next()) then l.chip.Apply(Reset) else l.chip)
      && l'.keysUnsure == l'.buttonsUnsure == (l.Next() != Acked)
      && (l.AllWell() ==> l'.AllWell()) && (l.NoBad() ==> l'.NoBad())
  {
    if l.fates != [] {
      assert l.fates[0] in l.fates && forall x <- l.fates[1..] :: x in l.fates;
    }
  }

  /**
   * `baud` on any line: a rate out of range is refused unsent; until the chip has acknowledged the
   * stored rate nothing else changes; from then on the session holds nothing and talks at the new
   * rate, whatever becomes of the reset, and it succeeds only when the chip answers at that rate.
   */
  lemma BaudLaw(l: Line, s: Held, rate: nat)
    ensures var r := Execute(Baud(rate), l, s);
      && (r.outcome == Refused <==> rate < 1200 || rate > 115200)
      && (r.outcome == Refused ==> r.held == s && r.line == l)
      && (!Stores(l, rate) ==>
            && r.held == s && r.outcome in {Lost, Dead, Bad, Refused}
            && r.line == l.(fates := r.line.fates, lost := r.line.lost, chip := l.chip.(flash := r.line.chip.flash)))
      && (Stores(l, rate) ==>
            && r.held == Nothing(rate) && r.line.baud == rate && r.outcome in {Done, Dead}
            && (r.line.keysUnsure || r.line.buttonsUnsure ==> r.line.keysUnsure && r.line.buttonsUnsure)
            && (!r.line.keysUnsure ==> Resets(l, rate))
            && r.line.chip == (var c := l.chip.(flash := rate); if Resets(l, rate) then c.Apply(Reset) else c))
      && (r.outcome == Done ==> r.line.chip.baud == rate)
      && (l.AllWell() && InRange(rate) ==> r.outcome == Done && r.line.AllWell())
      && (l.NoBad() ==> r.outcome != Bad && r.line.NoBad())
  {
    hide Batch, Answers, Chip.Apply, Line.Sent, Line.Next, Line.AllWell, Line.NoBad;
    StoredLaw(l, rate);
    var w := Batch(l, [GetConfig, SetConfig(rate)]);
    if w.reply == Ack {
      ResetLaw(w.line, rate);
      AnswersLaw(w.line.Sent(Reset).(baud := rate), 3);
    }
  }

  lemma ResetAgrees(chip: Chip, baud: nat)
    ensures Agrees(Nothing(baud), chip.Apply(Reset))
  {
    assert HeldReport(EMPTY).keys == NO_KEYS.keys;
  }

  /**
   * After a successful `baud` session and chip agree exactly when the reset arrived or the chip
   * held nothing before; and it did arrive whenever the rate is a new one.
   */
  lemma BaudStepExactly(l: Line, s: Held, rate: nat)
    requires Execute(Baud(rate), l, s).outcome == Done
    ensures var r := Execute(Baud(rate), l, s);
      && (Agrees(r.held, r.line.chip) <==> Resets(l, rate) || Agrees(Nothing(rate), l.chip))
      && (l.chip.baud != rate ==> Resets(l, rate))
  {
    BaudLaw(l, s, rate);
    ResetAgrees(l.chip.(flash := rate), rate);
    hide Execute, HeldReport, Stores, Resets;
  }

  /** `baud` at the rate the chip runs at, with the reset lost: it succeeds, and what is held stays down. */
  lemma LostResetUnnoticed(l: Line, s: Held)
    requires Valid(s) && Agrees(s, l.chip) && s != Nothing(s.baud)
    requires l.fates == [Acked, Acked, FrameLost] && InRange(l.chip.baud) && l.baud == l.chip.baud
    ensures var r := Execute(Baud(l.chip.baud), l, s);
      r.outcome == Done && r.held == Nothing(l.chip.baud) && !Agrees(r.held, r.line.chip)
  {
    var rate := l.chip.baud;
    TwoFrames(l, GetConfig, SetConfig(rate));
    assert l.fates[1..] == [Acked, FrameLost] && [Acked, FrameLost][1..] == [FrameLost];
    var stored := l.Sent(GetConfig).Sent(SetConfig(rate));
    assert stored.fates == [FrameLost] && [FrameLost][1..] == [];
    assert !Resets(l, rate);
    assert Execute(Baud(rate), l, s).outcome == Done;
    BaudStepExactly(l, s, rate);
    ReportInjective(s.report);
    hide HeldReport, Batch, Answers;
  }

  // -- every command --------------------------------------------------------------------

  /** Whether the session turns a command down by itself. */
  ghost predicate TurnedDown(c: Command, s: Held) {
    || (c.Combo? && |KeySet(s.report.keys) + Usages(c.chord)| > KEY_SLOTS)
    || (c.Type? && (|c.text| > MAX_TYPE_CHARS || StrokesFor(c.text).None?))
    || (c.Baud? && !InRange(c.rate))
  }

  /** When every frame is acknowledged a command succeeds, bar the exact refusals. */
  lemma Succeeds(c: Command, l: Line, s: Held)
    requires Valid(s) && l.AllWell()
    ensures Execute(c, l, s).line.AllWell()
    ensures Execute(c, l, s).outcome ==
      if TurnedDown(c, s) then Refused
      else if c.UsbSet? && l.Sent(UsbSwitch(c.side)).chip.mux != c.side then NotMoved
      else Done
  {
    hide StrokesOn, StrokesFor, Typeable, ValidKeys, KeySet, Usages, KeysNeeded, M.Steps, HeldReport, Pressed, Finish;
    match c
    case Tap(k) => ChordWell(l, s.report, [k]);
    case Combo(chord) =>
      KeysNeededCounts(chord, s.report.keys) by {
        assert ValidKeys(s.report.keys);
        NoDuplicatesOf(s.report.keys);
      }
      ChordWell(l, s.report, chord);
    case Type(text) => TypeDone(l, s, text);
    case UsbState => SentWell(l, UsbSwitch(3));
    case UsbSet(side) => SentWell(l, UsbSwitch(side));
    case Baud(rate) => BaudLaw(l, s, rate);
    case _ => BatchWell(l, FramesOf(c, s));
  }

  lemma NoDuplicatesOf(keys: seq<byte>)
    requires ValidKeys(keys)
    ensures NoDuplicates(keys)
  {
  }

  lemma ChordWell(l: Line, h: Report, chord: seq<Key>)
    requires l.AllWell()
    ensures ChordOn(l, h, chord).reply == Ack && ChordOn(l, h, chord).line.AllWell()
  {
    hide Pressed, UpAll, DownAll, HeldReport, Finish;
    SentWell(l, Keyboard(Pressed(h, chord)));
    FinishWell(l.Sent(Keyboard(Pressed(h, chord))), UpAll(DownAll(h, chord), chord));
  }

  lemma ChordNoBad(l: Line, h: Report, chord: seq<Key>)
    requires l.NoBad()
    ensures ChordOn(l, h, chord).reply != BadReply && ChordOn(l, h, chord).line.NoBad()
  {
    hide Pressed, UpAll, DownAll, HeldReport, Finish;
    SentNoBad(l, Keyboard(Pressed(h, chord)));
    FinishNoBad(l.Sent(Keyboard(Pressed(h, chord))), UpAll(DownAll(h, chord), chord), l.Reply());
  }

  /** A bad outcome takes a refused frame or an unreadable reply. */
  lemma NeverBad(c: Command, l: Line, s: Held)
    requires l.NoBad()
    ensures Execute(c, l, s).outcome != Bad && Execute(c, l, s).line.NoBad()
  {
    hide StrokesOn, Typeable, KeysNeeded, M.Steps, HeldReport, Pressed, Finish, ChordOn;
    match c
    case Tap(k) => ChordNoBad(l, s.report, [k]);
    case Combo(chord) => ChordNoBad(l, s.report, chord);
    case Type(text) => StrokesNoBad(l, s.report, Typeable(text));
    case UsbState => SentNoBad(l, UsbSwitch(3));
    case UsbSet(side) => SentNoBad(l, UsbSwitch(side));
    case Baud(rate) => BaudLaw(l, s, rate);
    case _ => BatchNoBad(l, FramesOf(c, s));
  }

  /**
   * Session and chip stay in step over every command that does not report a failed frame, a rate
   * set to what it was aside, and a HID command that lost one reports it. What is held stays valid on every outcome.
   */
  lemma StaysInStep(c: Command, l: Line, s: Held)
    requires Valid(s) && RealCommand(c)
    ensures var r := Execute(c, l, s);
      && Valid(r.held)
      && (Agrees(s, l.chip) && r.outcome in {Done, Refused, NoMux, NotMoved} && (c.Baud? ==> c.rate != l.chip.baud) ==>
            Agrees(r.held, r.line.chip))
      && (IsHid(c) && r.outcome in {Done, Refused} ==> r.line.lost == l.lost)
      && (r.outcome == NoMux || r.outcome == NotMoved ==> IsQuery(c))
  {
    hide Execute, ValidKeys, HeldReport, Minus, ChordMods, Down, Up, Pressed, Released, DownOnce, AtMostOneLoss, KeySet,
      Usages, AfterAll, SeenAll, Typeable, StrokesFor, Edges, M.Steps, M.ClampTotal, M.ScaleAbs, Moves, Wheel;
    if IsQuery(c) {
      QueryLaw(c, l, s);
    } else {
      match c
      case Baud(rate) =>
        BaudLaw(l, s, rate);
        if Execute(c, l, s).outcome == Done {
          BaudStepExactly(l, s, rate);
        }
        NothingValid();
      case Tap(k) => TapLaw(l, s, k);
      case Combo(chord) => ComboLaw(l, s, chord);
      case KeyDown(k) => KeyDownLaw(l, s, k);
      case KeyUp(k) => KeyUpLaw(l, s, k);
      case ReleaseAll =>
        ReleaseAllLaw(l, s);
        NothingValid();
      case Type(text) => TypeLaw(l, s, text);
      case Move(dx, dy) => var n := MoveLaw(l, s, dx, dy);
      case MoveAbs(x, y) => MoveAbsLaw(l, s, x, y);
      case Click(b) =>
        if Agrees(s, l.chip) {
          ClickLaw(l, s, b);
        }
        ClickFrame(l, s, b);
      case MouseDown(b) => ButtonLaw(l, s, b, true);
      case MouseUp(b) => ButtonLaw(l, s, b, false);
      case Scroll(amount) => var n := ScrollLaw(l, s, amount);
    }
  }

  lemma NothingValid()
    ensures ValidKeys([])
  {
  }

  lemma ClickFrame(l: Line, s: Held, b: Button)
    ensures var r := Execute(Click(b), l, s);
      && r.held == s && r.outcome in {Done, Lost, Dead, Bad}
      && (r.outcome == Done ==> r.line.lost == l.lost && r.line.chip.buttons == s.buttons)
  {
    var f := FramesOf(Click(b), s);
    TwoFrames(l, f[0], f[1]);
    assert f == [f[0], f[1]];
    hide Batch;
  }
}
