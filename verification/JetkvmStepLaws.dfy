/**
 * When the JetKVM HID session and the device are in step: exactly when a command keeps them so,
 * and what holds over every run of requests, losses and reconnects (jetkvm/hid.go, jetkvm/owner.go).
 */
module JetkvmStepLaws {
  import opened UsKeyboard
  import opened JetkvmHid
  import opened JetkvmHidLaws
  import M = Motion

  predicate Arrives(f: Fate) { f != Lost }

  predicate ButtonsAgree(s: Held, d: Device) { LastButtons(d.mouse) == s.buttons }

  /** The device holds exactly what the session thinks is held. */
  predicate Agrees(s: Held, d: Device) { KeyboardAgrees(s, d) && ButtonsAgree(s, d) }

  /** What the command parser can produce. */
  predicate RealCommand(c: Command) {
    match c
    case KeyDown(k) => k != Usage(0)
    case Combo(chord) => Usage(0) !in chord
    case _ => true
  }

  // -- exactly when a command keeps session and device in step --------------------------

  /**
   * The press and the restoring report: the latter arrives, or the last report that did, or what
   * was on the device `before`, is the held one already.
   */
  predicate PressKeeps(l: Link, held: Report, press: Report, before: Report) {
    Arrives(l.Sent(Keyboard(press)).Next()) || (if Arrives(l.Next()) then press else before) == held
  }

  predicate StrokeKeeps(l: Link, held: Report, s: Stroke) {
    var clear := ClearReport(held, s);
    if !Fits(held.keys, s) then true
    else if s.usage !in held.keys then PressKeeps(l, held, PressReport(held, s), held)
    else if !l.Ok() then !Arrives(l.Next())
    else PressKeeps(l.Sent(Keyboard(clear)), held, PressReport(held, s), clear)
  }

  /** The first stroke that is not done decides. */
  predicate StrokesKeep(l: Link, held: Report, ss: seq<Stroke>)
    decreases |ss|
  {
    ss == []
    || (var (l', r) := StrokeOn(l, held, ss[0]);
        if r != Done then StrokeKeeps(l, held, ss[0]) else StrokesKeep(l', held, ss[1..]))
  }

  /** What it takes for a command to end in step, in terms of what arrives and what is held. */
  predicate KeepsStep(c: Command, l: Link, s: Held) {
    match c
    case KeyDown(k) =>
      || (k.Usage? && k.usage !in s.report.keys && |s.report.keys| >= KEY_SLOTS)
      || Arrives(l.Next()) || ChordReport(s.report, [k]) == s.report
    case KeyUp(k) => Arrives(l.Next()) || Lifted(s.report, k) == s.report
    case ReleaseAll =>
      && (Arrives(l.Next()) || s.report == Report({}, []))
      && ((l.Ok() && Arrives(l.Sent(Keyboard(Report({}, []))).Next())) || s.buttons == {})
    case Combo(chord) =>
      |ChordKeys(s.report.keys, chord)| > KEY_SLOTS
      || PressKeeps(l, s.report, ChordReport(s.report, chord), s.report)
    case Type(text) =>
      |text| > MAX_TYPE_CHARS || StrokesFor(text).None? || StrokesKeep(l, s.report, StrokesFor(text).value)
    case Click(b) =>
      b in s.buttons || !Arrives(l.Next()) || (l.Ok() && Arrives(l.Sent(RelMouse(0, 0, s.buttons + {b})).Next()))
    case MouseDown(b) => Arrives(l.Next()) || b in s.buttons
    case MouseUp(b) => Arrives(l.Next()) || b !in s.buttons
    case _ => true
  }

  lemma PressStep(l: Link, held: Report, press: Report)
    ensures var (l', ok) := PressOn(l, held, press);
      && (l'.device.target.kbd == held <==> PressKeeps(l, held, press, l.device.target.kbd))
      && l'.device.mouse == l.device.mouse
  {
    hide Edges;
  }

  lemma ClearDiffers(held: Report, s: Stroke)
    ensures s.usage in held.keys ==> ClearReport(held, s) != held
  {
  }

  lemma StrokeStep(l: Link, held: Report, s: Stroke)
    requires ValidKeys(held.keys) && l.device.target.kbd == held
    ensures StrokeOn(l, held, s).0.device.target.kbd == held <==> StrokeKeeps(l, held, s)
  {
    var clear := ClearReport(held, s);
    ClearDiffers(held, s);
    FitsHeld(held, s);
    PressStep(if s.usage in held.keys then l.Sent(Keyboard(clear)) else l, held, PressReport(held, s));
    hide ClearReport, PressReport, Fits, PressOn, Target.Receive;
  }

  lemma {:induction false} StrokesStepExactly(l: Link, held: Report, ss: seq<Stroke>)
    requires ValidKeys(held.keys) && l.device.target.kbd == held && Real(ss)
    ensures StrokesOn(l, held, ss).0.device.target.kbd == held <==> StrokesKeep(l, held, ss)
    decreases |ss|
  {
    hide StrokeOn, StrokeKeeps, ValidKeys, Real, Safe, Under, Fits;
    if ss != [] {
      RealRest(ss);
      StrokeStep(l, held, ss[0]);
      StrokeLaw(l, held, ss[0]);
      var (l', r) := StrokeOn(l, held, ss[0]);
      if r == Done {
        StrokesStepExactly(l', held, ss[1..]);
      }
    }
  }

  lemma ReportStep(l: Link, r: Report)
    ensures var l' := Batch(l, [Keyboard(r)]).0;
      && (l'.device.target.kbd == r <==> Arrives(l.Next()) || l.device.target.kbd == r)
      && l'.device.mouse == l.device.mouse
  {
    OneCall(l, Keyboard(r));
    hide Batch;
  }

  lemma ButtonStep(l: Link, b: set<Button>)
    ensures var l' := Batch(l, [RelMouse(0, 0, b)]).0;
      && (LastButtons(l'.device.mouse) == b <==> Arrives(l.Next()) || LastButtons(l.device.mouse) == b)
      && l'.device.target == l.device.target
  {
    OneCall(l, RelMouse(0, 0, b));
    LastOf(l.device.mouse, RelMouse(0, 0, b));
    hide Batch, LastButtons;
  }

  lemma TypeStep(l: Link, s: Held, text: string)
    requires Valid(s) && Agrees(s, l.device)
    ensures var r := Execute(Type(text), l, s); Agrees(r.held, r.link.device) <==> KeepsStep(Type(text), l, s)
  {
    hide StrokesOn, StrokesFor, StrokesKeep, ValidKeys, LastButtons, Real, Sendable;
    if |text| <= MAX_TYPE_CHARS && StrokesFor(text).Some? {
      StrokesReal(text);
      StrokesWell(l, s.report, StrokesFor(text).value);
      StrokesStepExactly(l, s.report, StrokesFor(text).value);
    }
  }

  lemma ReleaseAllStep(l: Link, s: Held)
    requires Agrees(s, l.device)
    ensures var r := Execute(ReleaseAll, l, s); Agrees(r.held, r.link.device) <==> KeepsStep(ReleaseAll, l, s)
  {
    var c, d := Keyboard(Report({}, [])), RelMouse(0, 0, {});
    TwoCalls(l, c, d);
    LastOf(l.device.mouse, d);
    hide Batch, LastButtons, Target.Receive;
  }

  /** Pointer calls in turn: the buttons the device is told of stay what they were. */
  lemma {:induction false} SameButtons(mouse: seq<Call>, calls: seq<Call>, b: set<Button>)
    requires forall c <- calls :: !c.Keyboard? && (c.RelMouse? || c.AbsMouse? ==> c.buttons == b)
    requires LastButtons(mouse) == b
    ensures LastButtons(mouse + calls) == b
    decreases |calls|
  {
    if calls == [] {
      assert mouse + [] == mouse;
    } else {
      var last := calls[|calls| - 1];
      assert last in calls && forall c <- calls[..|calls| - 1] :: c in calls;
      SameButtons(mouse, calls[..|calls| - 1], b);
      assert (mouse + calls)[..|mouse + calls| - 1] == mouse + calls[..|calls| - 1];
    }
  }

  /** `move`, `moveabs` and `scroll` never put session and device out of step. */
  lemma PointingStep(c: Command, l: Link, s: Held)
    requires c.Move? || c.MoveAbs? || c.Scroll?
    ensures var r := Execute(c, l, s);
      && r.held == s && r.link.device.target == l.device.target
      && (ButtonsAgree(s, l.device) ==> ButtonsAgree(s, r.link.device))
  {
    hide M.Steps, M.ClampTotal, LastButtons, Batch;
    var calls := CallsOf(c, s);
    var n := BatchApplies(l, calls);
    MouseApplied(l.device, calls[..n]);
    if ButtonsAgree(s, l.device) {
      SameButtons(l.device.mouse, calls[..n], s.buttons);
    }
  }

  /**
   * A command that begins with session and device in step ends so, whatever is lost on the way and
   * whatever it reports, exactly when `KeepsStep` holds.
   */
  lemma StepExactly(c: Command, l: Link, s: Held)
    requires Valid(s) && RealCommand(c) && Agrees(s, l.device)
    ensures var r := Execute(c, l, s); Agrees(r.held, r.link.device) <==> KeepsStep(c, l, s)
  {
    hide Batch, LastButtons, ChordReport, ChordKeys, PressOn, PressKeeps, StrokesKeep, ValidKeys, StrokesFor, StrokesOn,
      M.Steps, M.ClampTotal;
    match c
    case KeyDown(k) => ReportStep(l, ChordReport(s.report, [k]));
    case KeyUp(k) => ReportStep(l, Lifted(s.report, k));
    case ReleaseAll => ReleaseAllStep(l, s);
    case Combo(chord) => PressStep(l, s.report, ChordReport(s.report, chord));
    case Type(text) => TypeStep(l, s, text);
    case Click(b) => ClickLaw(l, s, b);
    case MouseDown(b) =>
      ButtonStep(l, s.buttons + {b});
      assert s.buttons + {b} == s.buttons <==> b in s.buttons;
    case MouseUp(b) =>
      ButtonStep(l, s.buttons - {b});
      assert s.buttons - {b} == s.buttons <==> b !in s.buttons;
    case _ => PointingStep(c, l, s);
  }

  // -- what is sure ---------------------------------------------------------------------

  /** Keyboard calls went out, the last of them with `r`. */
  ghost predicate KeysLast(l: Link, l': Link, r: Report) {
    && (!l'.keysUnsure ==> l'.device.target.kbd == r)
    && l'.device.mouse == l.device.mouse && l'.buttonsUnsure == l.buttonsUnsure
  }

  /** Mouse calls went out, the last that names buttons with `b`. */
  ghost predicate ButtonsLast(l: Link, l': Link, b: set<Button>) {
    && (!l'.buttonsUnsure ==> LastButtons(l'.device.mouse) == b)
    && l'.device.target == l.device.target && l'.keysUnsure == l.keysUnsure
  }

  lemma ReportSure(l: Link, r: Report)
    ensures KeysLast(l, l.Sent(Keyboard(r)), r) && l.Sent(Keyboard(r)).keysUnsure == !l.Ok()
  {
    hide Edges;
  }

  lemma ButtonsSure(l: Link, c: Call)
    requires c.RelMouse? || c.AbsMouse?
    ensures ButtonsLast(l, l.Sent(c), c.buttons) && l.Sent(c).buttonsUnsure == !l.Ok()
  {
    assert (l.device.mouse + [c])[|l.device.mouse|] == c;
  }

  lemma PressSure(l: Link, held: Report, press: Report)
    ensures var (l', ok) := PressOn(l, held, press); KeysLast(l, l', held) && (ok ==> !l'.keysUnsure)
  {
    ReportSure(l, press);
    ReportSure(l.Sent(Keyboard(press)), held);
    hide Link.Sent, Link.Ok;
  }

  lemma StrokeSure(l: Link, held: Report, s: Stroke)
    requires ValidKeys(held.keys)
    ensures var (l', r) := StrokeOn(l, held, s);
      if r == TooManyKeys then l' == l else KeysLast(l, l', held) && (r == Done ==> !l'.keysUnsure)
  {
    var clear := ClearReport(held, s);
    FitsHeld(held, s);
    ReportSure(l, clear);
    PressSure(if s.usage in held.keys then l.Sent(Keyboard(clear)) else l, held, PressReport(held, s));
    hide ClearReport, PressReport, PressOn, Link.Sent, Link.Ok, Fits;
  }

  lemma {:induction false} StrokesSure(l: Link, held: Report, ss: seq<Stroke>)
    requires ValidKeys(held.keys)
    ensures var (l', r) := StrokesOn(l, held, ss);
      && (l' == l || KeysLast(l, l', held))
      && (r == Done && ss != [] ==> KeysLast(l, l', held) && !l'.keysUnsure)
    decreases |ss|
  {
    hide StrokeOn;
    if ss != [] {
      StrokeSure(l, held, ss[0]);
      StrokesSure(StrokeOn(l, held, ss[0]).0, held, ss[1..]);
    }
  }

  /** Pointer calls in turn, all with the same buttons, and wheel calls. */
  lemma {:induction false} PointingSure(l: Link, calls: seq<Call>, b: set<Button>)
    requires forall c <- calls :: !c.Keyboard? && (c.RelMouse? || c.AbsMouse? ==> c.buttons == b)
    ensures var (l', ok) := Batch(l, calls);
      && l'.device.target == l.device.target && l'.keysUnsure == l.keysUnsure
      && ((!l.buttonsUnsure ==> LastButtons(l.device.mouse) == b) ==>
            (!l'.buttonsUnsure ==> LastButtons(l'.device.mouse) == b))
      && (ok && calls != [] && (forall c <- calls :: !c.Wheel?) ==>
            !l'.buttonsUnsure && LastButtons(l'.device.mouse) == b)
    decreases |calls|
  {
    if calls != [] {
      var c := calls[0];
      assert c in calls && forall c <- calls[1..] :: c in calls;
      if c.Wheel? {
        assert l.Sent(c).device.mouse == l.device.mouse || l.Sent(c).device.mouse[..|l.device.mouse|] == l.device.mouse;
      } else {
        ButtonsSure(l, c);
      }
      PointingSure(l.Sent(c), calls[1..], b);
    }
  }

  /** A side that is sure holds what the session thinks is held; `astray` is about the buttons. */
  ghost predicate InStepWhereSure(s: Held, l: Link, astray: bool) {
    && (!l.keysUnsure ==> KeyboardAgrees(s, l.device))
    && (!l.buttonsUnsure && !astray ==> ButtonsAgree(s, l.device))
  }

  /** Commands that end with a keyboard report, and those that end with a report of the buttons. */
  predicate EndsWithKeys(c: Command) {
    c.KeyDown? || c.KeyUp? || c.ReleaseAll? || c.Combo? || (c.Type? && c.text != "")
  }

  predicate EndsWithButtons(c: Command) {
    || c.ReleaseAll? || c.MoveAbs? || c.Click? || c.MouseDown? || c.MouseUp?
    || (c.Move? && (c.dx != 0 || c.dy != 0))
  }

  /**
   * `releaseall` forgets the buttons even when its keyboard report fails, and then does not report
   * them: they are astray until a report of theirs succeeds.
   */
  predicate AstrayAfter(c: Command, l: Link, s: Held, astray: bool) {
    if c.ReleaseAll? && !l.Ok() then astray || s.buttons != {}
    else astray && !(Execute(c, l, s).outcome == Done && EndsWithButtons(c))
  }

  /** What `SureStaysInStep` promises of a command that ran. */
  ghost predicate Brings(c: Command, l: Link, s: Held, astray: bool, r: Ran) {
    && (InStepWhereSure(s, l, astray) ==> InStepWhereSure(r.held, r.link, AstrayAfter(c, l, s, astray)))
    && (r.outcome == Done && EndsWithKeys(c) ==> KeyboardAgrees(r.held, r.link.device) && !r.link.keysUnsure)
    && (r.outcome == Done && EndsWithButtons(c) ==> ButtonsAgree(r.held, r.link.device) && !r.link.buttonsUnsure)
  }

  lemma OneKeysSure(l: Link, r: Report)
    ensures var (l', ok) := Batch(l, [Keyboard(r)]); KeysLast(l, l', r) && (ok ==> !l'.keysUnsure)
  {
    OneCall(l, Keyboard(r));
    ReportSure(l, r);
    hide Batch, Link.Sent;
  }

  lemma KeysSure(c: Command, l: Link, s: Held, astray: bool)
    requires Valid(s) && (c.KeyDown? || c.KeyUp? || c.Combo? || c.Type?)
    ensures Brings(c, l, s, astray, Execute(c, l, s))
  {
    hide Batch, LastButtons, ChordReport, ChordKeys, PressOn, ValidKeys, StrokesFor, StrokesOn, Link.Sent, Link.Ok;
    match c
    case KeyDown(k) =>
      OneKeysSure(l, ChordReport(s.report, [k]));
      if k.Usage? && k.usage !in s.report.keys && |s.report.keys| >= KEY_SLOTS {
        assert Execute(c, l, s).link == l;
      }
    case KeyUp(k) => OneKeysSure(l, Lifted(s.report, k));
    case Combo(chord) => PressSure(l, s.report, ChordReport(s.report, chord));
    case Type(text) =>
      if StrokesFor(text).Some? {
        StrokesSure(l, s.report, StrokesFor(text).value);
        StrokesForLength(text);
      }
  }

  lemma ReleaseSure(l: Link, s: Held, astray: bool)
    ensures Brings(ReleaseAll, l, s, astray, Execute(ReleaseAll, l, s))
  {
    var c, d := Keyboard(Report({}, [])), RelMouse(0, 0, {});
    TwoCalls(l, c, d);
    ReportSure(l, Report({}, []));
    ButtonsSure(l.Sent(c), d);
    hide Batch, LastButtons, Link.Sent;
  }

  lemma ClickSure(l: Link, s: Held, b: Button, astray: bool)
    ensures Brings(Click(b), l, s, astray, Execute(Click(b), l, s))
  {
    var c, d := RelMouse(0, 0, s.buttons + {b}), RelMouse(0, 0, s.buttons);
    hide LastButtons, Link.Sent, Link.Ok;
    TwoCalls(l, c, d);
    ButtonsSure(l, c);
    ButtonsSure(l.Sent(c), d);
    assert CallsOf(Click(b), s) == [c, d];
    hide Batch;
  }

  lemma OneButtonSure(l: Link, b: set<Button>)
    ensures var (l', ok) := Batch(l, [RelMouse(0, 0, b)]); ButtonsLast(l, l', b) && (ok ==> !l'.buttonsUnsure)
  {
    OneCall(l, RelMouse(0, 0, b));
    ButtonsSure(l, RelMouse(0, 0, b));
    hide Batch, Link.Sent;
  }

  lemma MotionSure(c: Command, l: Link, s: Held, astray: bool)
    requires c.Move? || c.MoveAbs? || c.Scroll?
    ensures Brings(c, l, s, astray, Execute(c, l, s))
  {
    hide Batch, LastButtons, M.Steps, M.ClampTotal, Link.Sent, Link.Ok;
    PointingSure(l, CallsOf(c, s), s.buttons);
    if c.Move? && (c.dx != 0 || c.dy != 0) {
      MotionSends(c.dx, c.dy);
    }
  }

  lemma MotionSends(dx: int, dy: int)
    requires dx != 0 || dy != 0
    ensures M.Steps(M.ClampTotal(dx), M.ClampTotal(dy)) != []
  {
    M.StepsTurn([], M.ClampTotal(dx), M.ClampTotal(dy));
    hide M.Steps, M.Step;
  }

  /**
   * Whatever a command reports, sides that are sure are in step after it if they were before. And
   * a command that succeeds brings the side that its last report sets into step, in step or not
   * before.
   */
  lemma SureStaysInStep(c: Command, l: Link, s: Held, astray: bool)
    requires Valid(s)
    ensures var r := Execute(c, l, s);
      && (InStepWhereSure(s, l, astray) ==> InStepWhereSure(r.held, r.link, AstrayAfter(c, l, s, astray)))
      && (r.outcome == Done && EndsWithKeys(c) ==> KeyboardAgrees(r.held, r.link.device) && !r.link.keysUnsure)
      && (r.outcome == Done && EndsWithButtons(c) ==> ButtonsAgree(r.held, r.link.device) && !r.link.buttonsUnsure)
  {
    hide Batch, LastButtons, ValidKeys;
    match c
    case ReleaseAll => ReleaseSure(l, s, astray);
    case Click(b) => ClickSure(l, s, b, astray);
    case MouseDown(b) => OneButtonSure(l, s.buttons + {b});
    case MouseUp(b) => OneButtonSure(l, s.buttons - {b});
    case _ =>
      if c.Move? || c.MoveAbs? || c.Scroll? {
        MotionSure(c, l, s, astray);
      } else {
        KeysSure(c, l, s, astray);
      }
  }

  // -- every run ------------------------------------------------------------------------

  /** A queued command, or the release at shutdown, which is sent only over a session that is up. */
  datatype Request = Serve(command: Command, clientGone: bool) | Release(connected: bool)

  datatype Daemon = Daemon(held: Held, link: Link, astray: bool)

  function After(o: Daemon, c: Command): Daemon {
    var r := Execute(c, o.link, o.held);
    Daemon(r.held, r.link, AstrayAfter(c, o.link, o.held, o.astray))
  }

  function Handled(o: Daemon, q: Request): Daemon {
    match q
    case Serve(c, gone) => if gone then o else After(o, c)
    case Release(connected) => if connected then After(o, ReleaseAll) else o
  }

  /**
   * A queued command runs, unless its client gave up: then nothing is sent. The release at shutdown
   * clears session and device if it is sent over a link that answers, and is not sent when none is up.
   */
  lemma HandledLaw(o: Daemon, q: Request)
    ensures q.Serve? && q.clientGone ==> Handled(o, q) == o
    ensures q.Serve? && !q.clientGone ==>
      var (r, o') := (Execute(q.command, o.link, o.held), Handled(o, q)); o'.held == r.held && o'.link == r.link
    ensures q.Release? && !q.connected ==> Handled(o, q) == o
    ensures q.Release? && q.connected ==> Handled(o, q).held == Held(Report({}, []), {})
    ensures q.Release? && q.connected && o.link.AllWell() ==>
      && KeyboardAgrees(Held(Report({}, []), {}), Handled(o, q).link.device)
      && ButtonsAgree(Held(Report({}, []), {}), Handled(o, q).link.device)
  {
    if q.Release? {
      ReleaseAllLaw(o.link, o.held);
    }
    hide AstrayAfter;
  }

  function HandledAll(o: Daemon, qs: seq<Request>): Daemon
    decreases |qs|
  {
    if qs == [] then o else HandledAll(Handled(o, qs[0]), qs[1..])
  }

  ghost predicate InStep(o: Daemon) {
    Valid(o.held) && InStepWhereSure(o.held, o.link, o.astray)
  }

  lemma ExecuteValid(c: Command, l: Link, s: Held)
    requires Valid(s) && RealCommand(c)
    ensures Valid(Execute(c, l, s).held)
  {
    hide Batch, StrokesOn, PressOn, CallsOf, ChordReport;
    match c
    case KeyDown(k) =>
      OneKey(s.report, k);
    case KeyUp(k) =>
      if k.Usage? {
        WithoutValid(s.report.keys, k.usage);
      }
    case _ =>
  }

  lemma HandledInStep(o: Daemon, q: Request)
    requires InStep(o) && (q.Serve? ==> RealCommand(q.command))
    ensures InStep(Handled(o, q))
  {
    var c := if q.Serve? then q.command else ReleaseAll;
    SureStaysInStep(c, o.link, o.held, o.astray);
    ExecuteValid(c, o.link, o.held);
    hide Execute, AstrayAfter, InStepWhereSure, Valid;
  }

  /**
   * Over every run of requests, lost calls and reconnects: between requests the device holds the
   * session's modifiers and keys unless the last keyboard call was not acknowledged, and its
   * buttons unless the last call that names any was not, or a failed `releaseall` forgot them.
   */
  lemma {:induction false} AllInStep(o: Daemon, qs: seq<Request>)
    requires InStep(o) && forall q <- qs :: q.Serve? ==> RealCommand(q.command)
    ensures InStep(HandledAll(o, qs))
    decreases |qs|
  {
    if qs != [] {
      assert qs[0] in qs && forall q <- qs[1..] :: q in qs;
      HandledInStep(o, qs[0]);
      hide Handled, InStep;
      AllInStep(Handled(o, qs[0]), qs[1..]);
    }
  }
}
