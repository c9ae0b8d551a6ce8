/** The laws of typing on a ch9329, over every line. */
module Ch9329TypeLaws {
  import opened Bytes
  import opened UsKeyboard
  import opened Ch9329Chip
  import opened Ch9329Typing
  import opened Ch9329Commands
  import opened Ch9329Laws

  lemma StrokeNoBad(l: Line, h: Report, s: Stroke)
    requires l.NoBad()
    ensures StrokeOn(l, h, s).reply != BadReply && StrokeOn(l, h, s).line.NoBad()
  {
    hide PressReport, ClearReport, After, Finish;
    var clear, press := Keyboard(ClearReport(h, s)), Keyboard(PressReport(h, s));
    SentNoBad(l, clear);
    SentNoBad(l, press);
    SentNoBad(l.Sent(clear), press);
    FinishNoBad(l.Sent(press), After(h, s), l.Reply());
    FinishNoBad(l.Sent(clear).Sent(press), After(h, s), l.Sent(clear).Reply());
  }

  lemma StrokeWell(l: Line, h: Report, s: Stroke)
    requires l.AllWell()
    ensures StrokeOn(l, h, s).reply == Ack && StrokeOn(l, h, s).line.AllWell()
  {
    hide PressReport, ClearReport, After, Finish;
    var clear, press := Keyboard(ClearReport(h, s)), Keyboard(PressReport(h, s));
    SentWell(l, clear);
    SentWell(l, press);
    SentWell(l.Sent(clear), press);
    FinishWell(l.Sent(press), After(h, s));
    FinishWell(l.Sent(clear).Sent(press), After(h, s));
  }

  /** Only the keyboard side of the chip changes, and an acknowledged stroke lost no frame. */
  lemma StrokeFrame(l: Line, h: Report, s: Stroke)
    ensures var w := StrokeOn(l, h, s);
      && w.line.chip == l.chip.(kbd := w.line.chip.kbd)
      && (w.reply == Ack ==> w.line.lost == l.lost)
  {
    hide PressReport, ClearReport, After, Again, Target.Receive, HeldReport;
    var l1 := if s.usage in h.keys then l.Sent(Keyboard(ClearReport(h, s))) else l;
    var n := FinishRuns(l1.Sent(Keyboard(PressReport(h, s))), After(h, s), l1.Reply());
  }

  /** One stroke on any line, on a chip that agrees with the session. */
  lemma StrokeLaw(l: Line, h: Report, s: Stroke)
    requires ValidKeys(h.keys) && s.usage != 0 && l.chip.kbd.kbd == HeldReport(h)
    ensures var w := StrokeOn(l, h, s); Typed(l.chip.kbd, w.line.chip.kbd, h, s, w.reply == Ack)
  {
    var t := l.chip.kbd;
    ClearTyped(t, h, s);
    hide PressReport, ClearReport, After, Again, Target.Receive, HeldReport, Typed, Finish, ValidKeys;
    var l1 := if s.usage in h.keys then l.Sent(Keyboard(ClearReport(h, s))) else l;
    if s.usage in h.keys && l.Reply() != Ack {
      assert StrokeOn(l, h, s) == Went(l1, l.Reply());
      assert l1.chip.kbd == t || l1.chip.kbd == Start(t, h, s);
    } else {
      assert l1.chip.kbd == Start(t, h, s);
      assert StrokeOn(l, h, s) == PressStroke(l1, h, s);
      PressLaw(t, l1, h, s);
    }
  }

  lemma PressLaw(t: Target, l: Line, h: Report, s: Stroke)
    requires ValidKeys(h.keys) && s.usage != 0 && t.kbd == HeldReport(h) && l.chip.kbd == Start(t, h, s)
    ensures var w := PressStroke(l, h, s); Typed(t, w.line.chip.kbd, h, s, w.reply == Ack)
  {
    hide PressReport, After, Again, Target.Receive, HeldReport, Typed, Finish, Start, ValidKeys;
    var l1 := l.Sent(Keyboard(PressReport(h, s)));
    var n := FinishRuns(l1, After(h, s), l.Reply());
    StrokeTyped(t, h, s, Arrives(l.Next()), n, PressStroke(l, h, s).reply == Ack);
  }

  // -- runs of strokes ------------------------------------------------------------------

  lemma {:induction false} StrokesNoBad(l: Line, h: Report, ss: seq<Stroke>)
    requires l.NoBad()
    ensures StrokesOn(l, h, ss).0.reply != BadReply && StrokesOn(l, h, ss).0.line.NoBad()
    decreases |ss|
  {
    hide StrokeOn, After;
    if ss != [] {
      StrokeNoBad(l, h, ss[0]);
      StrokesNoBad(StrokeOn(l, h, ss[0]).line, After(h, ss[0]), ss[1..]);
    }
  }

  lemma {:induction false} StrokesWell(l: Line, h: Report, ss: seq<Stroke>)
    requires l.AllWell()
    ensures StrokesOn(l, h, ss).0.reply == Ack && StrokesOn(l, h, ss).0.line.AllWell()
    decreases |ss|
  {
    hide StrokeOn, After;
    if ss != [] {
      StrokeWell(l, h, ss[0]);
      StrokesWell(StrokeOn(l, h, ss[0]).line, After(h, ss[0]), ss[1..]);
    }
  }

  lemma {:induction false} StrokesFrame(l: Line, h: Report, ss: seq<Stroke>)
    ensures var w := StrokesOn(l, h, ss).0;
      && w.line.chip == l.chip.(kbd := w.line.chip.kbd)
      && (w.reply == Ack ==> w.line.lost == l.lost)
    decreases |ss|
  {
    hide StrokeOn, After;
    if ss != [] {
      StrokeFrame(l, h, ss[0]);
      StrokesFrame(StrokeOn(l, h, ss[0]).line, After(h, ss[0]), ss[1..]);
    }
  }

  /** On every outcome typing permutes the held keys and changes nothing else about what is held. */
  lemma {:induction false} StrokesHold(l: Line, h: Report, ss: seq<Stroke>)
    requires ValidKeys(h.keys)
    ensures var h' := StrokesOn(l, h, ss).1;
      && ValidKeys(h'.keys) && h'.mods == h.mods && |h'.keys| == |h.keys|
      && forall k :: k in h'.keys <==> k in h.keys
    decreases |ss|
  {
    hide StrokeOn;
    if ss != [] {
      AfterValid(h, ss[0]);
      StrokesHold(StrokeOn(l, h, ss[0]).line, After(h, ss[0]), ss[1..]);
    }
  }

  /** A stroke that went through. */
  lemma StrokeDone(l: Line, h: Report, s: Stroke)
    requires ValidKeys(h.keys) && s.usage != 0 && l.chip.kbd.kbd == HeldReport(h) && StrokeOn(l, h, s).reply == Ack
    ensures StrokeOn(l, h, s).line.chip.kbd == Target(HeldReport(After(h, s)), l.chip.kbd.typed + Seen(h, s))
  {
    StrokeLaw(l, h, s);
    hide StrokeOn, HeldReport, After, Seen, Fits, Safe, Under;
  }

  /** Strokes that all went through are seen as `SeenAll`, and leave `AfterAll` held. */
  lemma {:induction false} StrokesSeen(l: Line, h: Report, ss: seq<Stroke>)
    requires ValidKeys(h.keys) && l.chip.kbd.kbd == HeldReport(h) && Real(ss)
    requires StrokesOn(l, h, ss).0.reply == Ack
    ensures StrokesOn(l, h, ss).1 == AfterAll(h, ss)
    ensures StrokesOn(l, h, ss).0.line.chip.kbd == Target(HeldReport(AfterAll(h, ss)), l.chip.kbd.typed + SeenAll(h, ss))
    decreases |ss|
  {
    if ss == [] {
      hide HeldReport;
      assert l.chip.kbd.typed + [] == l.chip.kbd.typed;
    } else {
      hide *;
      RealRest(ss);
      RunSeen(l.chip.kbd.typed, h, ss);
      StrokesStep(l, h, ss);
      StrokeDone(l, h, ss[0]);
      StrokesSeen(StrokeOn(l, h, ss[0]).line, After(h, ss[0]), ss[1..]);
    }
  }

  /** The first stroke of a run decides, or hands over to the rest. */
  lemma StrokesStep(l: Line, h: Report, ss: seq<Stroke>)
    requires ss != []
    ensures var w := StrokeOn(l, h, ss[0]);
      StrokesOn(l, h, ss) ==
        if w.reply != Ack then (w, After(h, ss[0])) else StrokesOn(w.line, After(h, ss[0]), ss[1..])
    ensures StrokesOn(l, h, ss).0.reply == Ack ==> StrokeOn(l, h, ss[0]).reply == Ack
  {
    hide StrokeOn, After;
  }

  lemma RunSeen(typed: seq<Stroke>, h: Report, ss: seq<Stroke>)
    requires ValidKeys(h.keys) && ss != []
    ensures ValidKeys(After(h, ss[0]).keys) && AfterAll(h, ss) == AfterAll(After(h, ss[0]), ss[1..])
    ensures typed + SeenAll(h, ss) == typed + Seen(h, ss[0]) + SeenAll(After(h, ss[0]), ss[1..])
  {
    RunParts(h, ss);
    hide *;
    var a, b := Seen(h, ss[0]), SeenAll(After(h, ss[0]), ss[1..]);
    assert typed + a + b == typed + (a + b);
  }

  // -- at most once ---------------------------------------------------------------------

  /** Each stroke of a run shows at most what it may, once and in order, up to one that fails. */
  predicate ShowsInOrder(h: Report, ss: seq<Stroke>, more: seq<Stroke>)
    requires ValidKeys(h.keys)
    decreases |ss|
  {
    more == []
    || (&& ss != []
        && (AfterValid(h, ss[0]);
            || ShowsAtMost(h, ss[0], more)
            || (Seen(h, ss[0]) <= more && ShowsInOrder(After(h, ss[0]), ss[1..], more[|Seen(h, ss[0])|..]))))
  }

  /** Whatever is lost, no stroke is typed twice, and none after one that failed. */
  lemma {:induction false} StrokesShow(l: Line, h: Report, ss: seq<Stroke>)
    requires ValidKeys(h.keys) && l.chip.kbd.kbd == HeldReport(h) && Real(ss)
    ensures var (before, after) := (l.chip.kbd.typed, StrokesOn(l, h, ss).0.line.chip.kbd.typed);
      before <= after && ShowsInOrder(h, ss, after[|before|..])
    decreases |ss|
  {
    if ss != [] {
      AfterValid(h, ss[0]);
      RealRest(ss);
      StrokesStep(l, h, ss);
      StrokeLaw(l, h, ss[0]);
      hide StrokeOn, StrokesOn, HeldReport, After, Seen, Fits, Safe, Under, ShowsAtMost, ValidKeys, Real;
      var w := StrokeOn(l, h, ss[0]);
      if w.reply == Ack {
        StrokesShow(w.line, After(h, ss[0]), ss[1..]);
        var before, seen, after := l.chip.kbd.typed, Seen(h, ss[0]), StrokesOn(l, h, ss).0.line.chip.kbd.typed;
        assert seen <= after[|before|..] && after[|before|..][|seen|..] == after[|before + seen|..];
      }
    }
  }

  // -- prefixes -------------------------------------------------------------------------

  /** When every stroke fits and is safe, the target has read a prefix whatever became of the frames. */
  lemma {:induction false} StrokesPrefix(l: Line, h: Report, ss: seq<Stroke>)
    requires ValidKeys(h.keys) && l.chip.kbd.kbd == HeldReport(h)
    requires forall s <- ss :: s.usage != 0 && Fits(h, s) && Safe(h, s)
    ensures ReadPrefix(l.chip.kbd.typed, StrokesOn(l, h, ss).0.line.chip.kbd.typed, ss, h.mods)
    decreases |ss|
  {
    var typed := l.chip.kbd.typed;
    PrefixOfNone(typed, ss, h.mods);
    if ss != [] {
      var s, h' := ss[0], After(h, ss[0]);
      assert s in ss && forall x <- ss[1..] :: x in ss;
      AfterValid(h, s);
      StrokeLaw(l, h, s);
      PrefixOfOne(typed, ss, h.mods);
      assert Seen(h, s) == [Under(s, h.mods)];
      assert forall x <- ss[1..] :: Fits(h', x) && Safe(h', x) by {
        assert forall x :: (Fits(h', x) <==> Fits(h, x)) && (Safe(h', x) <==> Safe(h, x));
      }
      hide StrokeOn, After, HeldReport, Seen, Fits, Safe, Under, ReadPrefix;
      var w := StrokeOn(l, h, s);
      if w.reply == Ack {
        StrokesPrefix(w.line, h', ss[1..]);
        PrefixExtends(typed, StrokesOn(l, h, ss).0.line.chip.kbd.typed, ss, h.mods);
      }
    }
  }

  /** A line on which the first stroke that is not safe loses its press. */
  function LosesUnsafe(h: Report, ss: seq<Stroke>): seq<Fate>
    decreases |ss|
  {
    if ss == [] then []
    else if !Safe(h, ss[0]) then [Acked, FrameLost, Acked]
    else (if ss[0].usage in h.keys then [Acked, Acked, Acked] else [Acked, Acked]) + LosesUnsafe(After(h, ss[0]), ss[1..])
  }

  lemma SafeStep(l: Line, fates: seq<Fate>, h: Report, s: Stroke)
    requires l.fates == (if s.usage in h.keys then [Acked, Acked, Acked] else [Acked, Acked]) + fates
    requires l.baud == l.chip.baud
    ensures var w := StrokeOn(l, h, s);
      && w.reply == Ack && w.line.fates == fates && w.line.baud == w.line.chip.baud
  {
    hide PressReport, ClearReport, After, HeldReport, Line.Sent, Line.Reply;
    var a, press, restore := [Acked], PressReport(h, s), HeldReport(After(h, s));
    assert [Acked, Acked] + fates == a + (a + fates) && [Acked, Acked, Acked] + fates == a + (a + (a + fates));
    var l1 := l;
    if s.usage in h.keys {
      AckedFirst(l, ClearReport(h, s), a + (a + fates));
      l1 := l.Sent(Keyboard(ClearReport(h, s)));
    }
    AckedFirst(l1, press, a + fates);
    AckedFirst(l1.Sent(Keyboard(press)), restore, fates);
  }

  lemma AckedFirst(l: Line, r: Report, fates: seq<Fate>)
    requires l.fates == [Acked] + fates && l.baud == l.chip.baud
    ensures var l' := l.Sent(Keyboard(r)); l.Reply() == Ack && l'.fates == fates && l'.baud == l'.chip.baud
  {
    assert l.fates[1..] == fates;
  }

  /** An unsafe stroke whose press is lost: read without its Shift. */
  lemma UnsafeStep(l: Line, h: Report, s: Stroke)
    requires l.fates == [Acked, FrameLost, Acked] && l.baud == l.chip.baud
    requires ValidKeys(h.keys) && s.usage != 0 && l.chip.kbd.kbd == HeldReport(h) && !Safe(h, s)
    ensures var w := StrokeOn(l, h, s);
      && w.reply != Ack && w.line.chip.kbd.typed == l.chip.kbd.typed + [Stroke(s.usage, ShiftDown(h.mods))]
      && Stroke(s.usage, ShiftDown(h.mods)) != Under(s, h.mods)
  {
    SafeStroke(h, s);
    assert s.usage in h.keys;
    LostRuns(l.chip.kbd, h, s, 1);
    AgainOnce(Start(l.chip.kbd, h, s), HeldReport(After(h, s)));
    MiddleLost(l, ClearReport(h, s), PressReport(h, s), HeldReport(After(h, s)));
    hide PressReport, ClearReport, After, HeldReport, Target.Receive, Again, Under, ShiftDown, Line.Sent, Line.Reply, Safe;
  }

  lemma MiddleLost(l: Line, a: Report, b: Report, c: Report)
    requires l.fates == [Acked, FrameLost, Acked] && l.baud == l.chip.baud
    ensures var l1 := l.Sent(Keyboard(a)); var l2 := l1.Sent(Keyboard(b));
      && l.Reply() == Ack && l1.Reply() == NoReply
      && l2.Sent(Keyboard(c)).chip == l.chip.(kbd := l.chip.kbd.Receive(a).Receive(c))
  {
    hide Target.Receive;
    assert l.fates[1..] == [FrameLost, Acked] && [FrameLost, Acked][1..] == [Acked];
  }

  ghost predicate AnyUnsafe(h: Report, ss: seq<Stroke>) {
    exists s <- ss :: !Safe(h, s)
  }

  /** On that line what is read stops being a prefix. */
  lemma {:induction false} UnsafeBreaks(l: Line, h: Report, ss: seq<Stroke>)
    requires l.fates == LosesUnsafe(h, ss) && l.baud == l.chip.baud
    requires ValidKeys(h.keys) && l.chip.kbd.kbd == HeldReport(h)
    requires Real(ss) && AllFit(h, ss) && AnyUnsafe(h, ss)
    ensures var after := StrokesOn(l, h, ss).0.line.chip.kbd.typed;
      l.chip.kbd.typed < after && !ReadPrefix(l.chip.kbd.typed, after, ss, h.mods)
    decreases |ss|
  {
    hide *;
    AnyUnsafeHere(h, ss);
    var h' := After(h, ss[0]);
    StepsOfLine(h, ss);
    if !Safe(h, ss[0]) {
      UnsafeFirst(l, h, ss);
    } else {
      var fates := LosesUnsafe(h', ss[1..]);
      UnsafeLater(h, ss);
      SafeStep(l, fates, h, ss[0]);
      StrokesStep(l, h, ss);
      StrokeDone(l, h, ss[0]);
      var w := StrokeOn(l, h, ss[0]);
      UnsafeBreaks(w.line, h', ss[1..]);
      NoPrefixLater(l.chip.kbd.typed, StrokesOn(l, h, ss).0.line.chip.kbd.typed, ss, h.mods);
    }
  }

  lemma StepsOfLine(h: Report, ss: seq<Stroke>)
    requires ss != []
    ensures LosesUnsafe(h, ss) ==
      if !Safe(h, ss[0]) then [Acked, FrameLost, Acked]
      else (if ss[0].usage in h.keys then [Acked, Acked, Acked] else [Acked, Acked]) + LosesUnsafe(After(h, ss[0]), ss[1..])
  {
    hide Safe, After;
  }

  lemma AnyUnsafeHere(h: Report, ss: seq<Stroke>)
    requires Real(ss) && AnyUnsafe(h, ss)
    ensures ss != [] && ss[0].usage != 0
  {
    hide Safe;
    assert ss[0] in ss;
  }

  lemma UnsafeFirst(l: Line, h: Report, ss: seq<Stroke>)
    requires l.fates == [Acked, FrameLost, Acked] && l.baud == l.chip.baud
    requires ValidKeys(h.keys) && l.chip.kbd.kbd == HeldReport(h)
    requires ss != [] && ss[0].usage != 0 && !Safe(h, ss[0])
    ensures var after := StrokesOn(l, h, ss).0.line.chip.kbd.typed;
      l.chip.kbd.typed < after && !ReadPrefix(l.chip.kbd.typed, after, ss, h.mods)
  {
    hide StrokeOn, HeldReport, Safe, Under, ReadPrefix, After, ShiftDown, ValidKeys;
    UnsafeStep(l, h, ss[0]);
    NoPrefix(l.chip.kbd.typed, ss, h.mods, Stroke(ss[0].usage, ShiftDown(h.mods)));
  }

  lemma UnsafeLater(h: Report, ss: seq<Stroke>)
    requires ValidKeys(h.keys) && ss != [] && Safe(h, ss[0])
    requires Real(ss) && AllFit(h, ss) && AnyUnsafe(h, ss)
    ensures var h' := After(h, ss[0]);
      && ValidKeys(h'.keys) && h'.mods == h.mods && Seen(h, ss[0]) == [Under(ss[0], h.mods)] && ss[0].usage != 0
      && Real(ss[1..]) && AllFit(h', ss[1..]) && AnyUnsafe(h', ss[1..])
  {
    var h' := After(h, ss[0]);
    AfterValid(h, ss[0]);
    assert ss[0] in ss && forall x <- ss[1..] :: x in ss;
    assert forall x :: (Fits(h', x) <==> Fits(h, x)) && (Safe(h', x) <==> Safe(h, x));
    var bad :| bad in ss && !Safe(h, bad);
    assert bad in ss[1..];
  }

  // -- the command ----------------------------------------------------------------------

  lemma {:induction false} TypeableAll(text: string)
    ensures StrokesFor(text).Some? <==> |Typeable(text)| == |text|
    ensures StrokesFor(text).Some? ==> StrokesFor(text).value == Typeable(text)
    ensures Real(Typeable(text))
  {
    if text != "" {
      TypeableAll(text[1..]);
    }
  }

  /**
   * `type` on any line: a text over the limit is refused unsent; on every other outcome the held
   * keys are permuted at most; and when every frame was acknowledged the target has seen exactly
   * the strokes up to the first character that is not on the layout.
   */
  lemma TypeLaw(l: Line, s: Held, text: string)
    requires Valid(s)
    ensures var r := Execute(Type(text), l, s);
      && Valid(r.held) && r.held.buttons == s.buttons && r.held.report.mods == s.report.mods
      && |r.held.report.keys| == |s.report.keys| && KeySet(r.held.report.keys) == KeySet(s.report.keys)
      && r.line.chip == l.chip.(kbd := r.line.chip.kbd) && r.outcome in {Done, Lost, Dead, Bad, Refused}
      && (|text| > 4096 ==> r == Ran(s, l, Refused))
      && (r.outcome == Done ==> |text| <= 4096 && StrokesFor(text).Some?)
      && (r.outcome == Refused ==> |text| > 4096 || StrokesFor(text).None?)
      && (r.outcome in {Done, Refused} ==> r.line.lost == l.lost)
      && (r.outcome in {Done, Refused} && |text| <= MAX_TYPE_CHARS && KeyboardAgrees(s, l.chip) ==>
            && r.held.report == AfterAll(s.report, Typeable(text))
            && r.line.chip.kbd == Target(HeldReport(r.held.report), l.chip.kbd.typed + SeenAll(s.report, Typeable(text))))
  {
    hide StrokesOn, HeldReport, AfterAll, SeenAll, Typeable, ValidKeys, StrokesFor, Real, KeySet, Line.Sent, Line.Next;
    var h, ss := s.report, Typeable(text);
    TypeableAll(text);
    StrokesFrame(l, h, ss);
    StrokesHold(l, h, ss);
    if |text| <= MAX_TYPE_CHARS && KeyboardAgrees(s, l.chip) && StrokesOn(l, h, ss).0.reply == Ack {
      StrokesSeen(l, h, ss);
    }
    SameKeys(h.keys, StrokesOn(l, h, ss).1.keys);
  }

  lemma SameKeys(a: seq<byte>, b: seq<byte>)
    requires forall k :: k in a <==> k in b
    ensures KeySet(a) == KeySet(b)
  {
  }

  /**
   * On a line where every frame is acknowledged a text within the limit and on the layout is
   * typed, and with no Shift held the target reads exactly that text if and only if a slot is
   * free for every character next to what is held.
   */
  lemma TypeReadsBack(l: Line, s: Held, text: string)
    requires Valid(s) && KeyboardAgrees(s, l.chip) && !ShiftDown(s.report.mods) && l.AllWell()
    requires |text| <= MAX_TYPE_CHARS && StrokesFor(text).Some?
    ensures var r := Execute(Type(text), l, s); var before := l.chip.kbd.typed;
      && r.outcome == Done && before <= r.line.chip.kbd.typed
      && (ReadText(r.line.chip.kbd.typed[|before|..]) == Some(text)
          <==> forall x <- StrokesFor(text).value :: Fits(s.report, x))
  {
    hide Execute, HeldReport, AfterAll, SeenAll, Typeable, ValidKeys, StrokesFor, Fits, ReadText, Real, KeySet, ShiftDown;
    var h, ss, before := s.report, Typeable(text), l.chip.kbd.typed;
    TypeableAll(text);
    TypeLaw(l, s, text);
    TypeDone(l, s, text);
    TypedTextReadsBack(h, text);
    assert (before + SeenAll(h, ss))[|before|..] == SeenAll(h, ss);
  }

  lemma TypeDone(l: Line, s: Held, text: string)
    requires l.AllWell()
    ensures Execute(Type(text), l, s).outcome
         == if |text| > MAX_TYPE_CHARS || StrokesFor(text).None? then Refused else Done
    ensures Execute(Type(text), l, s).line.AllWell()
  {
    hide StrokesOn, Typeable, StrokesFor, Real;
    TypeableAll(text);
    StrokesWell(l, s.report, Typeable(text));
  }

  /**
   * Whatever is lost or refused, the target has read a beginning of the strokes, if and only if
   * every stroke has a slot and none that needs Shift is on a held key without it.
   */
  lemma TypePrefixExactly(l: Line, s: Held, text: string)
    requires Valid(s) && KeyboardAgrees(s, l.chip) && l.baud == l.chip.baud && |text| <= MAX_TYPE_CHARS
    ensures (forall fates ::
               ReadPrefix(l.chip.kbd.typed, Execute(Type(text), l.(fates := fates), s).line.chip.kbd.typed,
                          Typeable(text), s.report.mods))
       <==> forall x <- Typeable(text) :: Fits(s.report, x) && Safe(s.report, x)
  {
    var h, ss := s.report, Typeable(text);
    TypeableAll(text);
    hide StrokesOn, ReadPrefix, Typeable, Fits, Safe, HeldReport, Execute, StrokesFor;
    forall fates
      ensures Execute(Type(text), l.(fates := fates), s).line == StrokesOn(l.(fates := fates), h, ss).0.line
    {
      TypeSends(l.(fates := fates), s, text);
    }
    if forall x <- ss :: Fits(h, x) && Safe(h, x) {
      forall fates
        ensures ReadPrefix(l.chip.kbd.typed, StrokesOn(l.(fates := fates), h, ss).0.line.chip.kbd.typed, ss, h.mods)
      {
        StrokesPrefix(l.(fates := fates), h, ss);
      }
    } else {
      var fates := NotPrefix(l, h, ss);
    }
  }

  lemma TypeSends(l: Line, s: Held, text: string)
    requires |text| <= MAX_TYPE_CHARS
    ensures Execute(Type(text), l, s).line == StrokesOn(l, s.report, Typeable(text)).0.line
  {
    hide StrokesOn, Typeable;
  }

  lemma NotPrefix(l0: Line, h: Report, ss: seq<Stroke>) returns (fates: seq<Fate>)
    requires ValidKeys(h.keys) && l0.chip.kbd.kbd == HeldReport(h) && l0.baud == l0.chip.baud && Real(ss)
    requires exists x <- ss :: !(Fits(h, x) && Safe(h, x))
    ensures !ReadPrefix(l0.chip.kbd.typed, StrokesOn(l0.(fates := fates), h, ss).0.line.chip.kbd.typed, ss, h.mods)
  {
    if exists x <- ss :: !Fits(h, x) {
      fates := [];
      var l := l0.(fates := fates);
      StrokesWell(l, h, ss);
      StrokesSeen(l, h, ss);
      SeenAtLeast(h, ss);
      hide StrokesOn, SeenAll, AfterAll, Fits;
    } else {
      fates := LosesUnsafe(h, ss);
      UnsafeBreaks(l0.(fates := fates), h, ss);
    }
  }
}
