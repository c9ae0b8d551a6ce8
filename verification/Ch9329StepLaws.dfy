/**
 * When session and chip are in step, command by command: exactly on which lines a command that
 * begins in step ends in step, and how a side that fell out of step comes back.
 */
module Ch9329StepLaws {
  import opened Bytes
  import opened UsKeyboard
  import opened Ch9329Chip
  import opened Ch9329Keys
  import opened Ch9329Typing
  import opened Ch9329Commands
  import opened Ch9329Laws
  import opened Ch9329TypeLaws
  import opened Ch9329CommandLaws
  import M = Motion

  // -- exactly when a command keeps session and chip in step ----------------------------

  /** Of the releases that `Finish` sends at least one arrives. */
  predicate Restores(l: Line, held: Report, pressed: Reply) {
    || Arrives(l.Next())
    || (pressed == Ack && l.Reply() != Ack && Arrives(l.Sent(Keyboard(HeldReport(held))).Next()))
  }

  /**
   * A release arrives; or the last report that did arrive, the press or what was held before,
   * is what is to be held in the end.
   */
  predicate ChordKeeps(l: Line, h: Report, chord: seq<Key>) {
    var (pressed, after) := (DownAll(h, chord), UpAll(DownAll(h, chord), chord));
    || Restores(l.Sent(Keyboard(HeldReport(pressed))), after, l.Reply())
    || (if Arrives(l.Next()) then pressed else h) == after
  }

  /** The same for the press of a typed stroke. The key's own release may have gone before. */
  predicate PressKeeps(l: Line, h: Report, s: Stroke) {
    || Restores(l.Sent(Keyboard(PressReport(h, s))), After(h, s), l.Reply())
    || (if Arrives(l.Next()) then h.keys == [s.usage] && (s.shift ==> LeftShift in h.mods) else s.usage !in h.keys)
  }

  predicate StrokeKeeps(l: Line, h: Report, s: Stroke) {
    if s.usage !in h.keys then PressKeeps(l, h, s)
    else if l.Reply() != Ack then !Arrives(l.Next()) && After(h, s) == h
    else PressKeeps(l.Sent(Keyboard(ClearReport(h, s))), h, s)
  }

  /** The first stroke that fails decides. */
  predicate StrokesKeep(l: Line, h: Report, ss: seq<Stroke>)
    decreases |ss|
  {
    ss == []
    || (var w := StrokeOn(l, h, ss[0]);
        if w.reply != Ack then StrokeKeeps(l, h, ss[0]) else StrokesKeep(w.line, After(h, ss[0]), ss[1..]))
  }

  /** What it takes for a command to end in step, in terms of what arrives and what is held. */
  predicate KeepsStep(c: Command, l: Line, s: Held) {
    match c
    case Tap(k) => ChordKeeps(l, s.report, [k])
    case Combo(chord) => KeysNeeded(chord, s.report.keys) > KEY_SLOTS || ChordKeeps(l, s.report, chord)
    case KeyDown(k) => Arrives(l.Next()) || Down(s.report, k) == s.report
    case KeyUp(k) => Arrives(l.Next()) || Up(s.report, k) == s.report
    case ReleaseAll => Arrives(l.Next()) || s.report == EMPTY
    case Type(text) => |text| > MAX_TYPE_CHARS || StrokesKeep(l, s.report, Typeable(text))
    case Click(b) =>
      b in s.buttons || !Arrives(l.Next())
      || (l.Reply() == Ack && Arrives(l.Sent(ButtonFrame(s.buttons + {b})).Next()))
    case MouseDown(b) => Arrives(l.Next()) || b in s.buttons
    case MouseUp(b) => Arrives(l.Next()) || b !in s.buttons
    case Baud(rate) => !Stores(l, rate) || Resets(l, rate) || s.(baud := rate) == Nothing(rate)
    case _ => true
  }

  lemma ReportsInjective(a: Report, b: Report)
    requires ValidKeys(a.keys) && ValidKeys(b.keys)
    ensures HeldReport(a) == HeldReport(b) <==> a == b
  {
    if |a.keys| < |b.keys| {
      ShorterDiffers(a.keys, b.keys);
    } else if |b.keys| < |a.keys| {
      ShorterDiffers(b.keys, a.keys);
    } else if HeldReport(a) == HeldReport(b) {
      assert a.keys == Slots(a.keys)[..|a.keys|];
      assert b.keys == Slots(b.keys)[..|a.keys|];
    }
  }

  lemma ShorterDiffers(a: seq<byte>, b: seq<byte>)
    requires ValidKeys(a) && ValidKeys(b) && |a| < |b|
    ensures Slots(a) != Slots(b)
  {
    assert Slots(a)[|a|] == 0;
    assert Slots(b)[|a|] == b[|a|] && b[|a|] in b;
  }

  /** The keyboard after `Finish`: the held report, if a release arrived. */
  lemma FinishLeaves(l: Line, held: Report, pressed: Reply)
    ensures Finish(l, held, pressed).line.chip.kbd.kbd ==
      if Restores(l, held, pressed) then HeldReport(held) else l.chip.kbd.kbd
  {
    hide HeldReport;
  }

  lemma ChordStep(l: Line, h: Report, chord: seq<Key>)
    requires ValidKeys(h.keys) && Usage(0) !in chord && l.chip.kbd.kbd == HeldReport(h)
    ensures ChordOn(l, h, chord).line.chip.kbd.kbd == HeldReport(UpAll(DownAll(h, chord), chord))
       <==> ChordKeeps(l, h, chord)
  {
    var pressed, after := DownAll(h, chord), UpAll(DownAll(h, chord), chord);
    DownAllExtends(h, chord);
    ChordLeavesMinus(h, chord);
    ReportsInjective(pressed, after);
    ReportsInjective(h, after);
    hide DownAll, UpAll, HeldReport, Finish, Restores, ValidKeys, Minus, ChordMods;
    FinishLeaves(l.Sent(Keyboard(Pressed(h, chord))), after, l.Reply());
  }

  /** The press report of a stroke is the held report after it only when nothing else is held. */
  lemma PressIsAfter(h: Report, s: Stroke)
    requires ValidKeys(h.keys) && s.usage != 0
    ensures PressReport(h, s) == HeldReport(After(h, s)) <==> h.keys == [s.usage] && (s.shift ==> LeftShift in h.mods)
  {
    var press, after := PressReport(h, s), HeldReport(After(h, s));
    assert press.keys[0] == s.usage;
    assert press.mods == after.mods <==> (s.shift ==> LeftShift in h.mods) by {
      assert LeftShift in h.mods ==> h.mods + {LeftShift} == h.mods;
      assert LeftShift in h.mods + {LeftShift};
    }
    WithoutValid(h.keys, s.usage);
    if h.keys == [s.usage] {
      OnlyKey(s.usage);
      assert press.keys == after.keys;
    } else {
      FirstSlot(h, s);
    }
  }

  lemma OnlyKey(u: byte)
    ensures Without([u], u) == []
  {
    assert [u][1..] == [];
  }

  lemma FirstSlot(h: Report, s: Stroke)
    requires ValidKeys(h.keys) && s.usage != 0 && h.keys != [s.usage]
    ensures HeldReport(After(h, s)).keys[0] != s.usage
  {
    var a := After(h, s).keys;
    AfterValid(h, s);
    WithoutValid(h.keys, s.usage);
    assert |h.keys| == 1 ==> h.keys == [h.keys[0]];
    if s.usage in h.keys {
      assert Without(h.keys, s.usage) != [];
      assert a[0] == Without(h.keys, s.usage)[0] && a[0] in Without(h.keys, s.usage);
    } else if h.keys != [] {
      assert a[0] in h.keys;
    }
  }

  lemma PressStep(l: Line, h: Report, s: Stroke)
    requires ValidKeys(h.keys) && s.usage != 0
    requires l.chip.kbd.kbd == if s.usage in h.keys then ClearReport(h, s) else HeldReport(h)
    ensures PressStroke(l, h, s).line.chip.kbd.kbd == HeldReport(After(h, s)) <==> PressKeeps(l, h, s)
  {
    PressIsAfter(h, s);
    ClearDiffers(h, s);
    hide PressReport, HeldReport, ClearReport, After, Finish, Restores, ValidKeys;
    FinishLeaves(l.Sent(Keyboard(PressReport(h, s))), After(h, s), l.Reply());
  }

  lemma ClearDiffers(h: Report, s: Stroke)
    requires ValidKeys(h.keys) && s.usage != 0
    ensures s.usage in h.keys ==> ClearReport(h, s) != HeldReport(After(h, s))
    ensures s.usage !in h.keys ==> After(h, s) == h
  {
    ClearHolds(h, s);
    assert s.usage in h.keys ==> s.usage in HeldReport(After(h, s)).keys;
  }

  lemma SentReport(l: Line, r: Report)
    ensures l.Sent(Keyboard(r)).chip.kbd.kbd == if Arrives(l.Next()) then r else l.chip.kbd.kbd
    ensures l.Reply() == Ack ==> Arrives(l.Next())
  {
  }

  lemma StrokeStep(l: Line, h: Report, s: Stroke)
    requires ValidKeys(h.keys) && s.usage != 0 && l.chip.kbd.kbd == HeldReport(h)
    ensures StrokeOn(l, h, s).line.chip.kbd.kbd == HeldReport(After(h, s)) <==> StrokeKeeps(l, h, s)
  {
    ClearDiffers(h, s);
    AfterValid(h, s);
    ReportsInjective(h, After(h, s));
    SentReport(l, ClearReport(h, s));
    hide HeldReport, ClearReport, After, PressStroke, PressKeeps, ValidKeys, Line.Sent, Line.Next, Line.Reply, Arrives;
    if s.usage !in h.keys {
      PressStep(l, h, s);
    } else if l.Reply() == Ack {
      PressStep(l.Sent(Keyboard(ClearReport(h, s))), h, s);
    }
  }

  lemma {:induction false} StrokesStepExactly(l: Line, h: Report, ss: seq<Stroke>)
    requires ValidKeys(h.keys) && l.chip.kbd.kbd == HeldReport(h) && Real(ss)
    ensures var (w, h') := StrokesOn(l, h, ss); w.line.chip.kbd.kbd == HeldReport(h') <==> StrokesKeep(l, h, ss)
    decreases |ss|
  {
    hide StrokeOn, HeldReport, After, StrokeKeeps, ValidKeys, Real, Seen;
    if ss != [] {
      RealRest(ss);
      AfterValid(h, ss[0]);
      StrokeStep(l, h, ss[0]);
      var w := StrokeOn(l, h, ss[0]);
      if w.reply == Ack {
        StrokeDone(l, h, ss[0]);
        StrokesStepExactly(w.line, After(h, ss[0]), ss[1..]);
      }
    }
  }

  lemma ReportStep(l: Line, h: Report, after: Report)
    requires ValidKeys(h.keys) && ValidKeys(after.keys) && l.chip.kbd.kbd == HeldReport(h)
    ensures Batch(l, [Keyboard(HeldReport(after))]).line.chip.kbd.kbd == HeldReport(after)
       <==> Arrives(l.Next()) || after == h
    ensures Batch(l, [Keyboard(HeldReport(after))]).line.chip.buttons == l.chip.buttons
  {
    ReportsInjective(h, after);
    OneFrame(l, Keyboard(HeldReport(after)));
    hide HeldReport, Batch;
  }

  lemma ButtonStep(l: Line, before: set<Button>, after: set<Button>)
    requires l.chip.buttons == before
    ensures Batch(l, [ButtonFrame(after)]).line.chip.buttons == after <==> Arrives(l.Next()) || after == before
    ensures Batch(l, [ButtonFrame(after)]).line.chip.kbd == l.chip.kbd
  {
    OneFrame(l, ButtonFrame(after));
    hide Batch;
  }

  lemma TypeStep(l: Line, s: Held, text: string)
    requires Valid(s) && Agrees(s, l.chip)
    ensures var r := Execute(Type(text), l, s); Agrees(r.held, r.line.chip) <==> KeepsStep(Type(text), l, s)
  {
    hide StrokesOn, HeldReport, Typeable, StrokesKeep, ValidKeys, Real;
    TypeableAll(text);
    StrokesFrame(l, s.report, Typeable(text));
    StrokesStepExactly(l, s.report, Typeable(text));
  }

  lemma BaudStep(l: Line, s: Held, rate: nat)
    requires Valid(s) && Agrees(s, l.chip)
    ensures var r := Execute(Baud(rate), l, s); Agrees(r.held, r.line.chip) <==> KeepsStep(Baud(rate), l, s)
  {
    BaudLaw(l, s, rate);
    ResetAgrees(l.chip.(flash := rate), rate);
    ReportInjective(s.report);
    hide Execute, HeldReport, Stores, Resets, Chip.Apply;
  }

  lemma ChordsStep(l: Line, s: Held, chord: seq<Key>)
    requires Valid(s) && Usage(0) !in chord && Agrees(s, l.chip)
    ensures var r := ExecuteChord(l, s, chord); Agrees(r.held, r.line.chip) <==> ChordKeeps(l, s.report, chord)
  {
    ChordStep(l, s.report, chord);
    ChordLaw(l, s.report, chord);
    hide ChordOn, ChordKeeps, HeldReport, DownAll, UpAll, DownOnce, AtMostOneLoss, Pressed, Released;
  }

  lemma PointingStep(c: Command, l: Line, s: Held)
    requires c.Move? || c.Scroll? || c.MoveAbs? || c.Click?
    requires Agrees(s, l.chip)
    ensures var r := Execute(c, l, s); Agrees(r.held, r.line.chip) <==> KeepsStep(c, l, s)
  {
    hide Execute, HeldReport, M.Steps, M.ClampTotal, M.ScaleAbs, Moves, Wheel, Line.Sent;
    match c
    case Move(dx, dy) => var n := MoveLaw(l, s, dx, dy);
    case Scroll(amount) => var n := ScrollLaw(l, s, amount);
    case MoveAbs(x, y) => MoveAbsLaw(l, s, x, y);
    case Click(b) => ClickLaw(l, s, b);
  }

  /**
   * A command that begins with session and chip in step ends so, whatever is lost, refused or
   * unreadable on the way and whatever it reports, exactly when `KeepsStep` holds.
   */
  lemma StepExactly(c: Command, l: Line, s: Held)
    requires Valid(s) && RealCommand(c) && Agrees(s, l.chip)
    ensures var r := Execute(c, l, s); Agrees(r.held, r.line.chip) <==> KeepsStep(c, l, s)
  {
    hide HeldReport, Batch, ExecuteChord, ChordKeeps, KeysNeeded, Down, Up, ExecuteType, ExecuteBaud, StrokesKeep,
      Stores, Resets, ValidKeys, Typeable;
    match c
    case Tap(k) => ChordsStep(l, s, [k]);
    case Combo(chord) => ChordsStep(l, s, chord);
    case KeyDown(k) =>
      DownExtends(s.report, k);
      ReportStep(l, s.report, Down(s.report, k));
    case KeyUp(k) =>
      UpValid(s.report, k);
      ReportStep(l, s.report, Up(s.report, k));
    case ReleaseAll =>
      NothingValid();
      ReportStep(l, s.report, EMPTY);
    case Type(text) => TypeStep(l, s, text);
    case MouseDown(b) =>
      ButtonStep(l, s.buttons, s.buttons + {b});
      assert s.buttons + {b} == s.buttons <==> b in s.buttons;
    case MouseUp(b) =>
      ButtonStep(l, s.buttons, s.buttons - {b});
      assert s.buttons - {b} == s.buttons <==> b !in s.buttons;
    case Baud(rate) => BaudStep(l, s, rate);
    case _ =>
      if IsQuery(c) {
        QueryLaw(c, l, s);
      } else {
        PointingStep(c, l, s);
      }
  }

  lemma UpValid(h: Report, k: Key)
    requires ValidKeys(h.keys)
    ensures ValidKeys(Up(h, k).keys)
  {
    if k.Usage? {
      WithoutValid(h.keys, k.usage);
    }
  }

  // -- what is sure ---------------------------------------------------------------------

  /** A side of the chip that is not unsure holds what the session thinks is held. */
  ghost predicate InStepWhereSure(s: Held, l: Line) {
    && (!l.keysUnsure ==> KeyboardAgrees(s, l.chip))
    && (!l.buttonsUnsure ==> l.chip.buttons == s.buttons)
  }

  /** Keyboard reports went out, the last of them `r`, unless none did. */
  ghost predicate KeysLast(l: Line, l': Line, r: Report) {
    && (!l'.keysUnsure ==> l'.chip.kbd.kbd == r)
    && l'.chip.buttons == l.chip.buttons && l'.buttonsUnsure == l.buttonsUnsure
  }

  ghost predicate ButtonsLast(l: Line, l': Line, b: set<Button>) {
    && (!l'.buttonsUnsure ==> l'.chip.buttons == b)
    && l'.chip.kbd == l.chip.kbd && l'.keysUnsure == l.keysUnsure
  }

  lemma ReportSure(l: Line, r: Report)
    ensures KeysLast(l, l.Sent(Keyboard(r)), r) && l.Sent(Keyboard(r)).keysUnsure == (l.Reply() != Ack)
  {
  }

  lemma FinishSure(l: Line, held: Report, pressed: Reply)
    ensures var w := Finish(l, held, pressed);
      KeysLast(l, w.line, HeldReport(held)) && (w.reply == Ack ==> !w.line.keysUnsure)
  {
    var r := HeldReport(held);
    ReportSure(l, r);
    ReportSure(l.Sent(Keyboard(r)), r);
    hide HeldReport, Line.Sent, Line.Reply;
  }

  lemma ChordSure(l: Line, h: Report, chord: seq<Key>)
    ensures var w := ChordOn(l, h, chord);
      && KeysLast(l, w.line, HeldReport(UpAll(DownAll(h, chord), chord)))
      && (w.reply == Ack ==> !w.line.keysUnsure)
  {
    ReportSure(l, Pressed(h, chord));
    FinishSure(l.Sent(Keyboard(Pressed(h, chord))), UpAll(DownAll(h, chord), chord), l.Reply());
    hide HeldReport, DownAll, UpAll, Pressed, Finish, Line.Sent, Line.Reply;
  }

  lemma StrokeSure(l: Line, h: Report, s: Stroke)
    ensures var w := StrokeOn(l, h, s);
      KeysLast(l, w.line, HeldReport(After(h, s))) && (w.reply == Ack ==> !w.line.keysUnsure)
  {
    var clear, press := ClearReport(h, s), PressReport(h, s);
    var l1 := if s.usage in h.keys then l.Sent(Keyboard(clear)) else l;
    ReportSure(l, clear);
    ReportSure(l1, press);
    FinishSure(l1.Sent(Keyboard(press)), After(h, s), l1.Reply());
    hide HeldReport, ClearReport, PressReport, After, Finish, Line.Sent, Line.Reply;
  }

  lemma {:induction false} StrokesSure(l: Line, h: Report, ss: seq<Stroke>)
    ensures var (w, h') := StrokesOn(l, h, ss);
      if ss == [] then w.line == l && h' == h
      else KeysLast(l, w.line, HeldReport(h')) && (w.reply == Ack ==> !w.line.keysUnsure)
    decreases |ss|
  {
    hide HeldReport, After, StrokeOn;
    if ss != [] {
      StrokeSure(l, h, ss[0]);
      StrokesSure(StrokeOn(l, h, ss[0]).line, After(h, ss[0]), ss[1..]);
    }
  }

  /** Pointer frames in turn, all with the same buttons. */
  lemma {:induction false} PointingSure(l: Line, frames: seq<Frame>, b: set<Button>)
    requires forall f <- frames :: (f.MouseRel? || f.MouseAbs?) && f.buttons == b
    ensures var w := Batch(l, frames);
      if frames == [] then w.line == l
      else ButtonsLast(l, w.line, b) && (w.reply == Ack ==> !w.line.buttonsUnsure)
    decreases |frames|
  {
    if frames != [] {
      assert frames[0] in frames && forall f <- frames[1..] :: f in frames;
      PointingSure(l.Sent(frames[0]), frames[1..], b);
    }
  }

  lemma ClickSure(l: Line, s: Held, b: Button)
    ensures var r := Execute(Click(b), l, s);
      ButtonsLast(l, r.line, s.buttons) && (r.outcome == Done ==> !r.line.buttonsUnsure)
  {
    var press, release := ButtonFrame(s.buttons + {b}), ButtonFrame(s.buttons);
    TwoFrames(l, press, release);
    assert FramesOf(Click(b), s) == [press, release];
    hide Batch;
  }

  lemma OneReportSure(l: Line, r: Report)
    ensures var w := Batch(l, [Keyboard(r)]); KeysLast(l, w.line, r) && (w.reply == Ack ==> !w.line.keysUnsure)
  {
    OneFrame(l, Keyboard(r));
    hide Batch;
  }

  lemma OneButtonSure(l: Line, b: set<Button>)
    ensures var w := Batch(l, [ButtonFrame(b)]);
      ButtonsLast(l, w.line, b) && (w.reply == Ack ==> !w.line.buttonsUnsure)
  {
    OneFrame(l, ButtonFrame(b));
    hide Batch;
  }

  lemma BaudSure(l: Line, s: Held, rate: nat)
    ensures var r := Execute(Baud(rate), l, s); InStepWhereSure(s, l) ==> InStepWhereSure(r.held, r.line)
  {
    BaudLaw(l, s, rate);
    ResetAgrees(l.chip.(flash := rate), rate);
    hide Execute, HeldReport, Stores, Resets, Chip.Apply;
  }

  /** Commands that end with a keyboard report, and those that end with a report of the buttons. */
  predicate EndsWithKeys(c: Command) {
    c.Tap? || c.Combo? || c.KeyDown? || c.KeyUp? || c.ReleaseAll? || (c.Type? && c.text != "")
  }

  predicate EndsWithButtons(c: Command) {
    || c.MoveAbs? || c.Click? || c.MouseDown? || c.MouseUp?
    || (c.Move? && (c.dx != 0 || c.dy != 0)) || (c.Scroll? && c.amount != 0)
  }

  lemma MotionSends(dx: int, dy: int)
    requires dx != 0 || dy != 0
    ensures M.Steps(M.ClampTotal(dx), M.ClampTotal(dy)) != []
  {
    M.StepsTurn([], M.ClampTotal(dx), M.ClampTotal(dy));
    hide M.Steps, M.Step;
  }

  /** What `SureStaysInStep` promises of a command that ran. */
  ghost predicate Brings(c: Command, l: Line, s: Held, r: Ran) {
    && (InStepWhereSure(s, l) ==> InStepWhereSure(r.held, r.line))
    && (r.outcome == Done && EndsWithKeys(c) ==> KeyboardAgrees(r.held, r.line.chip) && !r.line.keysUnsure)
    && (r.outcome == Done && EndsWithButtons(c) ==> r.line.chip.buttons == r.held.buttons && !r.line.buttonsUnsure)
  }

  lemma MotionSure(c: Command, l: Line, s: Held)
    requires c.Move? || c.Scroll? || c.MoveAbs?
    ensures Brings(c, l, s, Execute(c, l, s))
  {
    hide Batch, HeldReport, M.Steps, M.ClampTotal, M.ScaleAbs, Line.Sent, Line.Next;
    PointingSure(l, FramesOf(c, s), s.buttons);
    match c
    case Move(dx, dy) =>
      if dx != 0 || dy != 0 {
        MotionSends(dx, dy);
      }
    case Scroll(amount) =>
      if amount != 0 {
        MotionSends(amount, 0);
        assert M.ClampTotal(0) == 0 by { NoMotion(); }
      }
    case MoveAbs(_, _) =>
  }

  lemma NoMotion()
    ensures M.ClampTotal(0) == 0
  {
  }

  lemma ButtonsSure(c: Command, l: Line, s: Held)
    requires c.Click? || c.MouseDown? || c.MouseUp?
    ensures Brings(c, l, s, Execute(c, l, s))
  {
    hide Batch, HeldReport, Line.Sent, Line.Next;
    match c
    case Click(b) => ClickSure(l, s, b);
    case MouseDown(b) => OneButtonSure(l, s.buttons + {b});
    case MouseUp(b) => OneButtonSure(l, s.buttons - {b});
  }

  lemma KeysSure(c: Command, l: Line, s: Held)
    requires EndsWithKeys(c) || c.Type?
    ensures Brings(c, l, s, Execute(c, l, s))
  {
    hide HeldReport, Batch, ChordOn, KeysNeeded, Down, Up, DownAll, UpAll, StrokesOn, Typeable, Line.Sent, Line.Next,
      StrokesFor;
    match c
    case Tap(k) => ChordSure(l, s.report, [k]);
    case Combo(chord) => ChordSure(l, s.report, chord);
    case KeyDown(k) => OneReportSure(l, HeldReport(Down(s.report, k)));
    case KeyUp(k) => OneReportSure(l, HeldReport(Up(s.report, k)));
    case ReleaseAll => OneReportSure(l, HeldReport(EMPTY));
    case Type(text) =>
      TypeableAll(text);
      StrokesSure(l, s.report, Typeable(text));
  }

  /**
   * Whatever a command reports, sides that are sure are in step after it if they were before. And
   * a command that succeeds brings the side that its last report sets into step, in step or not
   * before.
   */
  lemma SureStaysInStep(c: Command, l: Line, s: Held)
    ensures var r := Execute(c, l, s);
      && (InStepWhereSure(s, l) ==> InStepWhereSure(r.held, r.line))
      && (r.outcome == Done && EndsWithKeys(c) ==> KeyboardAgrees(r.held, r.line.chip) && !r.line.keysUnsure)
      && (r.outcome == Done && EndsWithButtons(c) ==> r.line.chip.buttons == r.held.buttons && !r.line.buttonsUnsure)
  {
    hide Execute;
    if EndsWithKeys(c) || c.Type? {
      KeysSure(c, l, s);
    } else if c.Baud? {
      BaudSure(l, s, c.rate);
    } else if IsQuery(c) {
      QueryLaw(c, l, s);
    } else if c.Click? || c.MouseDown? || c.MouseUp? {
      ButtonsSure(c, l, s);
    } else {
      MotionSure(c, l, s);
    }
  }

  // -- the first reply --------------------------------------------------------------------

  /** Whether a HID command sends a frame at all. */
  predicate SendsFrame(c: Command, s: Held) {
    match c
    case Combo(chord) => KeysNeeded(chord, s.report.keys) <= KEY_SLOTS
    case Type(text) => |text| <= MAX_TYPE_CHARS && Typeable(text) != []
    case Move(dx, dy) => dx != 0 || dy != 0
    case Scroll(amount) => amount != 0
    case _ => IsHid(c)
  }

  lemma BatchFirst(l: Line, frames: seq<Frame>)
    requires frames != [] && l.Reply() != Ack
    ensures Batch(l, frames).reply == l.Reply()
  {
  }

  lemma StrokesFirst(l: Line, h: Report, ss: seq<Stroke>)
    requires ss != [] && l.Reply() != Ack
    ensures StrokesOn(l, h, ss).0.reply == l.Reply()
  {
    hide ClearReport, PressReport, After, HeldReport, Line.Sent;
  }

  /** A first frame that is not acknowledged decides what the command reports: a refusal is bad, not a dead link. */
  lemma FirstReplyDecides(c: Command, l: Line, s: Held)
    requires IsHid(c) && SendsFrame(c, s) && l.Reply() != Ack
    ensures Execute(c, l, s).outcome == Made(l.Reply())
  {
    hide Batch, StrokesOn, HeldReport, Typeable, KeysNeeded, Pressed, UpAll, DownAll, Line.Sent, M.Steps, M.ClampTotal,
      M.ScaleAbs, MoveFrames, WheelFrames;
    match c
    case Type(text) => StrokesFirst(l, s.report, Typeable(text));
    case Tap(_) =>
    case Combo(_) =>
    case Move(dx, dy) =>
      MotionSends(dx, dy);
      BatchFirst(l, FramesOf(c, s));
    case Scroll(amount) =>
      MotionSends(amount, 0);
      assert M.ClampTotal(0) == 0 by { NoMotion(); }
      BatchFirst(l, FramesOf(c, s));
    case _ => BatchFirst(l, FramesOf(c, s));
  }

  // -- rates ----------------------------------------------------------------------------

  predicate SameRates(l: Line, l': Line) {
    l'.baud == l.baud && l'.chip.baud == l.chip.baud && l'.chip.flash == l.chip.flash
  }

  predicate SetsRate(f: Frame) { f.SetConfig? || f.Reset? }

  lemma {:induction false} BatchKeepsRates(l: Line, frames: seq<Frame>)
    requires forall f <- frames :: !SetsRate(f)
    ensures SameRates(l, Batch(l, frames).line)
    decreases |frames|
  {
    if frames != [] {
      assert frames[0] in frames && forall f <- frames[1..] :: f in frames;
      BatchKeepsRates(l.Sent(frames[0]), frames[1..]);
    }
  }

  lemma ReportKeepsRates(l: Line, r: Report)
    ensures SameRates(l, l.Sent(Keyboard(r)))
  {
  }

  lemma FinishKeepsRates(l: Line, held: Report, pressed: Reply)
    ensures SameRates(l, Finish(l, held, pressed).line)
  {
    hide HeldReport, Line.Sent, Line.Reply;
    ReportKeepsRates(l, HeldReport(held));
    ReportKeepsRates(l.Sent(Keyboard(HeldReport(held))), HeldReport(held));
  }

  lemma ChordKeepsRates(l: Line, h: Report, chord: seq<Key>)
    ensures SameRates(l, ChordOn(l, h, chord).line)
  {
    hide Finish, Line.Sent, Line.Reply, Pressed, DownAll, UpAll;
    ReportKeepsRates(l, Pressed(h, chord));
    FinishKeepsRates(l.Sent(Keyboard(Pressed(h, chord))), UpAll(DownAll(h, chord), chord), l.Reply());
  }

  lemma StrokeKeepsRates(l: Line, h: Report, s: Stroke)
    ensures SameRates(l, StrokeOn(l, h, s).line)
  {
    hide Finish, Line.Sent, Line.Reply, ClearReport, PressReport, After;
    var l1 := if s.usage in h.keys then l.Sent(Keyboard(ClearReport(h, s))) else l;
    ReportKeepsRates(l, ClearReport(h, s));
    ReportKeepsRates(l1, PressReport(h, s));
    FinishKeepsRates(l1.Sent(Keyboard(PressReport(h, s))), After(h, s), l1.Reply());
  }

  lemma {:induction false} StrokesKeepRates(l: Line, h: Report, ss: seq<Stroke>)
    ensures SameRates(l, StrokesOn(l, h, ss).0.line)
    decreases |ss|
  {
    hide StrokeOn, After;
    if ss != [] {
      StrokeKeepsRates(l, h, ss[0]);
      StrokesKeepRates(StrokeOn(l, h, ss[0]).line, After(h, ss[0]), ss[1..]);
    }
  }

  /** Nothing but `baud` changes the rate of either end, or the one stored. */
  lemma RatesKept(c: Command, l: Line, s: Held)
    requires !c.Baud?
    ensures var r := Execute(c, l, s); r.held.baud == s.baud && SameRates(l, r.line)
  {
    hide Batch, ChordOn, StrokesOn, Typeable, KeysNeeded, HeldReport, M.Steps, M.ClampTotal, M.ScaleAbs;
    match c
    case Tap(k) => ChordKeepsRates(l, s.report, [k]);
    case Combo(chord) => ChordKeepsRates(l, s.report, chord);
    case Type(text) => StrokesKeepRates(l, s.report, Typeable(text));
    case UsbState =>
    case UsbSet(_) =>
    case _ => BatchKeepsRates(l, FramesOf(c, s));
  }
}
