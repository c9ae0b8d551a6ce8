/** The laws of the ch9329 commands, over every line: what they keep, and what the target sees of them. */
module Ch9329Laws {
  import opened Bytes
  import opened UsKeyboard
  import opened Ch9329Chip
  import opened Ch9329Keys
  import opened Ch9329Typing
  import opened Ch9329Commands

  // -- batches --------------------------------------------------------------------------

  function ApplyAll(chip: Chip, frames: seq<Frame>): Chip
    decreases |frames|
  {
    if frames == [] then chip else ApplyAll(chip.Apply(frames[0]), frames[1..])
  }

  lemma SentWell(l: Line, f: Frame)
    requires l.AllWell() && f != Reset
    ensures l.Reply() == Ack && l.Sent(f).AllWell() && l.Sent(f).chip == l.chip.Apply(f)
  {
    if l.fates != [] {
      assert l.fates[0] in l.fates && forall x <- l.fates[1..] :: x in l.fates;
    }
  }

  lemma SentNoBad(l: Line, f: Frame)
    requires l.NoBad()
    ensures l.Reply() != BadReply && l.Sent(f).NoBad()
  {
    if l.fates != [] {
      assert l.fates[0] in l.fates && forall x <- l.fates[1..] :: x in l.fates;
    }
  }

  lemma {:induction false} BatchWell(l: Line, frames: seq<Frame>)
    requires l.AllWell() && Reset !in frames
    ensures Batch(l, frames).reply == Ack && Batch(l, frames).line.AllWell()
    decreases |frames|
  {
    if frames != [] {
      assert Reset !in frames[1..];
      SentWell(l, frames[0]);
      BatchWell(l.Sent(frames[0]), frames[1..]);
    }
  }

  lemma {:induction false} BatchNoBad(l: Line, frames: seq<Frame>)
    requires l.NoBad()
    ensures Batch(l, frames).reply != BadReply && Batch(l, frames).line.NoBad()
    decreases |frames|
  {
    if frames != [] {
      SentNoBad(l, frames[0]);
      BatchNoBad(l.Sent(frames[0]), frames[1..]);
    }
  }

  /** Whatever is lost, the chip receives the first `n` frames of a batch, in order and once each. */
  lemma {:induction false} BatchApplies(l: Line, frames: seq<Frame>) returns (n: nat)
    ensures n <= |frames| && Batch(l, frames).line.chip == ApplyAll(l.chip, frames[..n])
    ensures Batch(l, frames).reply == Ack ==> n == |frames| && Batch(l, frames).line.lost == l.lost
    ensures Batch(l, frames).reply != Ack ==> Batch(l, frames).line.lost > l.lost
    decreases |frames|
  {
    if frames == [] {
      n := 0;
    } else if l.Reply() != Ack {
      n := if Arrives(l.Next()) then 1 else 0;
      assert frames[..1] == [frames[0]] && frames[..0] == [] && [frames[0]][1..] == [];
      assert ApplyAll(l.chip.Apply(frames[0]), []) == l.chip.Apply(frames[0]);
    } else {
      var m := BatchApplies(l.Sent(frames[0]), frames[1..]);
      n := m + 1;
      assert frames[..n][1..] == frames[1..][..m];
    }
  }

  // -- releases -------------------------------------------------------------------------

  /** The chip once `n` copies of the held report have arrived. */
  function Restored(chip: Chip, held: Report, n: nat): Chip {
    chip.(kbd := Again(chip.kbd, HeldReport(held), n))
  }

  /** How often the held report arrives, and what `Finish` reports. */
  lemma FinishRuns(l: Line, held: Report, pressed: Reply) returns (n: nat)
    ensures Finish(l, held, pressed).line.chip == Restored(l.chip, held, n)
    ensures Finish(l, held, pressed).reply == if pressed != Ack then pressed else l.Reply()
    ensures n <= 2 && (Finish(l, held, pressed).reply == Ack ==> n == 1 && Finish(l, held, pressed).line.lost == l.lost)
    ensures Arrives(l.Next()) || (pressed == Ack && Arrives(l.Sent(Keyboard(HeldReport(held))).Next())) ==> n > 0
  {
    hide HeldReport, Target.Receive;
    var f := Keyboard(HeldReport(held));
    var l1 := l.Sent(f);
    n := if Arrives(l.Next()) then 1 else 0;
    assert l1.chip == Restored(l.chip, held, n);
    if pressed == Ack && l.Reply() != Ack {
      var m := if Arrives(l1.Next()) then 1 else 0;
      assert l1.Sent(f).chip == Restored(l.chip, held, n + m);
      n := n + m;
    }
  }

  lemma FinishWell(l: Line, held: Report)
    requires l.AllWell()
    ensures Finish(l, held, Ack).reply == Ack && Finish(l, held, Ack).line.AllWell()
  {
    SentWell(l, Keyboard(HeldReport(held)));
  }

  lemma FinishNoBad(l: Line, held: Report, pressed: Reply)
    requires l.NoBad() && pressed != BadReply
    ensures Finish(l, held, pressed).reply != BadReply && Finish(l, held, pressed).line.NoBad()
  {
    hide HeldReport;
    var f := Keyboard(HeldReport(held));
    SentNoBad(l, f);
    SentNoBad(l.Sent(f), f);
  }

  // -- chords ---------------------------------------------------------------------------

  /** Of the next three frames at most one fails. */
  predicate AtMostOneLoss(l: Line) {
    var fates := l.fates;
    && l.baud == l.chip.baud
    && (|| (At(fates, 0) == Acked && At(fates, 1) == Acked)
        || (At(fates, 0) == Acked && At(fates, 2) == Acked)
        || (At(fates, 1) == Acked && At(fates, 2) == Acked))
  }

  function At(fates: seq<Fate>, i: nat): Fate {
    if i < |fates| then fates[i] else Acked
  }

  /** Between two targets a chord went down once or not at all. */
  predicate DownOnce(before: Target, after: Target, h: Report, chord: seq<Key>) {
    || after.typed == before.typed
    || after.typed == before.typed + Edges(HeldReport(h), Pressed(h, chord))
  }

  /**
   * A chord on any line: acknowledged, the target saw it pressed and then released; with at
   * most one frame or acknowledgement lost the chip ends at the released report; and whatever
   * is lost, the chord went down at most once.
   */
  lemma ChordLaw(l: Line, h: Report, chord: seq<Key>)
    requires ValidKeys(h.keys) && Usage(0) !in chord
    ensures var w := ChordOn(l, h, chord); var r := Released(h, chord);
      && w.line.chip == l.chip.(kbd := w.line.chip.kbd)
      && (w.reply == Ack ==>
            && w.line.chip.kbd == l.chip.kbd.Receive(Pressed(h, chord)).Receive(r)
            && w.line.lost == l.lost)
      && (AtMostOneLoss(l) ==> w.line.chip.kbd.kbd == r)
      && (l.chip.kbd.kbd == HeldReport(h) ==> DownOnce(l.chip.kbd, w.line.chip.kbd, h, chord))
  {
    var press, after := Keyboard(Pressed(h, chord)), UpAll(DownAll(h, chord), chord);
    var l1 := l.Sent(press);
    assert Released(h, chord) == HeldReport(after);
    var t := l.chip.kbd;
    hide Pressed, DownAll, UpAll, Edges, Target.Receive, Again, HeldReport, Released;
    var n := FinishRuns(l1, after, l.Reply());
    if t.kbd == HeldReport(h) {
      ChordRuns(t, h, chord, n);
    }
    AgainOnce(l1.chip.kbd, HeldReport(after));
  }

  lemma AgainOnce(t: Target, r: Report)
    ensures Again(t, r, 1) == t.Receive(r)
  {
    assert Again(t, r, 0) == t;
  }

  /** What a tap or chord leaves held is held minus chord, on every outcome. */
  lemma ChordHeld(s: Held, chord: seq<Key>)
    requires Valid(s) && Usage(0) !in chord
    ensures var h := UpAll(DownAll(s.report, chord), chord);
      && h == Report(s.report.mods - ChordMods(chord), Minus(s.report.keys, chord)) && ValidKeys(h.keys)
      && Released(s.report, chord) == HeldReport(h)
  {
    ChordLeavesMinus(s.report, chord);
    hide UpAll, DownAll, Minus, HeldReport, ChordMods;
  }

  lemma TapLaw(l: Line, s: Held, k: Key)
    requires Valid(s) && k != Usage(0)
    ensures var r := Execute(Tap(k), l, s);
      && Valid(r.held)
      && r.held == s.(report := Report(s.report.mods - ChordMods([k]), Minus(s.report.keys, [k])))
      && r.outcome in {Done, Lost, Dead, Bad} && r.line.chip == l.chip.(kbd := r.line.chip.kbd)
      && (r.outcome == Done ==>
            && r.line.chip.kbd == l.chip.kbd.Receive(Pressed(s.report, [k])).Receive(HeldReport(r.held.report))
            && r.line.lost == l.lost)
      && (AtMostOneLoss(l) ==> KeyboardAgrees(r.held, r.line.chip))
      && (KeyboardAgrees(s, l.chip) ==> DownOnce(l.chip.kbd, r.line.chip.kbd, s.report, [k]))
  {
    ChordLaw(l, s.report, [k]);
    ChordHeld(s, [k]);
    hide UpAll, DownAll, Minus, HeldReport, ChordMods, ChordOn, Pressed, Released, DownOnce, AtMostOneLoss, Target.Receive;
  }

  /**
   * A chord is refused, and then touches nothing, exactly when held and chord keys together
   * exceed six; otherwise it obeys the law of a tap.
   */
  lemma ComboLaw(l: Line, s: Held, chord: seq<Key>)
    requires Valid(s) && Usage(0) !in chord
    ensures var r := Execute(Combo(chord), l, s);
      && Valid(r.held)
      && (r.outcome == Refused <==> |KeySet(s.report.keys) + Usages(chord)| > KEY_SLOTS)
      && (r.outcome == Refused ==> r.held == s && r.line == l)
      && (r.outcome != Refused ==>
            r.held == s.(report := Report(s.report.mods - ChordMods(chord), Minus(s.report.keys, chord))))
      && r.outcome in {Done, Lost, Dead, Bad, Refused} && r.line.chip == l.chip.(kbd := r.line.chip.kbd)
      && (r.outcome == Done ==>
            && r.line.chip.kbd == l.chip.kbd.Receive(Pressed(s.report, chord)).Receive(HeldReport(r.held.report))
            && r.line.lost == l.lost)
      && (AtMostOneLoss(l) && r.outcome != Refused ==> KeyboardAgrees(r.held, r.line.chip))
      && (KeyboardAgrees(s, l.chip) ==> DownOnce(l.chip.kbd, r.line.chip.kbd, s.report, chord))
  {
    KeysNeededCounts(chord, s.report.keys);
    ChordLaw(l, s.report, chord);
    ChordHeld(s, chord);
    hide UpAll, DownAll, Minus, HeldReport, ChordMods, ChordOn, Pressed, Released, AtMostOneLoss, Target.Receive,
      KeysNeeded, KeySet, Usages, Edges;
  }

  /** A tap that is acknowledged types its key exactly when the key is up and a slot is free for it. */
  lemma TapTypes(l: Line, s: Held, u: byte)
    requires Valid(s) && u != 0 && KeyboardAgrees(s, l.chip)
    requires Execute(Tap(Usage(u)), l, s).outcome == Done
    ensures Execute(Tap(Usage(u)), l, s).line.chip.kbd.typed == l.chip.kbd.typed
         + if u !in s.report.keys && |s.report.keys| < KEY_SLOTS then [Stroke(u, ShiftDown(s.report.mods))] else []
  {
    TapLaw(l, s, Usage(u));
    ReleaseSeen(s.report, [Usage(u)]);
    ChordHeld(s, [Usage(u)]);
    TapPressesDown(s.report, Usage(u));
    if u !in s.report.keys {
      DownSeenExactly(s.report, u);
    } else {
      NoEdges(HeldReport(s.report), s.report);
    }
    var h := s.report;
    var r := Execute(Tap(Usage(u)), l, s);
    hide UpAll, DownAll, Minus, HeldReport, ChordMods, Execute, Released, AtMostOneLoss, Edges;
    var seen := Edges(HeldReport(h), Pressed(h, [Usage(u)]));
    assert l.chip.kbd.typed + seen + [] == l.chip.kbd.typed + seen;
  }

  /** A chord that is acknowledged types each of its keys that was up exactly once, and nothing else. */
  lemma ComboTypes(l: Line, s: Held, chord: seq<Key>) returns (seen: seq<byte>)
    requires Valid(s) && Usage(0) !in chord && KeyboardAgrees(s, l.chip)
    requires Execute(Combo(chord), l, s).outcome == Done
    ensures NoDuplicates(seen) && KeySet(seen) == Usages(chord) - KeySet(s.report.keys)
    ensures Execute(Combo(chord), l, s).line.chip.kbd.typed
         == l.chip.kbd.typed + WithShift(seen, ShiftDown(s.report.mods + ChordMods(chord)))
  {
    ComboLaw(l, s, chord);
    ReleaseSeen(s.report, chord);
    ChordHeld(s, chord);
    PressSeenOnce(s.report, chord);
    var h := s.report;
    seen := NewKeys(Slots(h.keys), Slots(DownAll(h, chord).keys));
    hide UpAll, DownAll, Minus, HeldReport, ChordMods, Execute, Released, AtMostOneLoss, Edges, KeySet, Usages,
      WithShift, NewKeys, Slots;
    var more := Edges(HeldReport(h), Pressed(h, chord));
    assert l.chip.kbd.typed + more + [] == l.chip.kbd.typed + more;
  }

  // -- down and up ----------------------------------------------------------------------

  /**
   * `down` counts the key as held on every outcome, if it has a slot; when acknowledged the chip
   * agrees, and a key that was up is typed exactly when it has one.
   */
  lemma KeyDownLaw(l: Line, s: Held, k: Key)
    requires Valid(s) && k != Usage(0)
    ensures var r := Execute(KeyDown(k), l, s);
      && Valid(r.held) && r.held == s.(report := Down(s.report, k)) && r.outcome in {Done, Lost, Dead, Bad}
      && (k.Modifier? ==> k.bit in r.held.report.mods)
      && (k.Usage? ==>
            (k.usage in r.held.report.keys <==> k.usage in s.report.keys || |s.report.keys| < KEY_SLOTS))
      && r.line.chip == l.chip.(kbd := r.line.chip.kbd)
      && (r.outcome == Done ==> KeyboardAgrees(r.held, r.line.chip) && r.line.lost == l.lost)
      && (r.outcome == Done && KeyboardAgrees(s, l.chip) && k.Usage? ==>
            r.line.chip.kbd.typed == l.chip.kbd.typed
              + if k.usage !in s.report.keys && |s.report.keys| < KEY_SLOTS
                then [Stroke(k.usage, ShiftDown(s.report.mods))] else [])
  {
    DownExtends(s.report, k);
    if k.Usage? && k.usage !in s.report.keys {
      DownSeenExactly(s.report, k.usage);
    } else if k.Usage? {
      NoEdges(HeldReport(s.report), s.report);
    }
    OneFrame(l, Keyboard(HeldReport(Down(s.report, k))));
    hide HeldReport, Edges, Batch;
  }

  lemma DownExtends(h: Report, k: Key)
    requires ValidKeys(h.keys) && k != Usage(0)
    ensures ValidKeys(Down(h, k).keys)
  {
  }

  lemma OneFrame(l: Line, f: Frame)
    ensures Batch(l, [f]) == Went(l.Sent(f), l.Reply())
  {
    assert [f][1..] == [];
  }

  lemma KeyUpLaw(l: Line, s: Held, k: Key)
    requires Valid(s)
    ensures var r := Execute(KeyUp(k), l, s);
      && Valid(r.held) && r.held == s.(report := Up(s.report, k)) && r.outcome in {Done, Lost, Dead, Bad}
      && r.line.chip == l.chip.(kbd := r.line.chip.kbd)
      && (r.outcome == Done ==> KeyboardAgrees(r.held, r.line.chip) && r.line.lost == l.lost)
      && (KeyboardAgrees(s, l.chip) ==> r.line.chip.kbd.typed == l.chip.kbd.typed)
  {
    if k.Usage? {
      WithoutValid(s.report.keys, k.usage);
    }
    NoEdges(HeldReport(s.report), Up(s.report, k));
    OneFrame(l, Keyboard(HeldReport(Up(s.report, k))));
    hide HeldReport, Edges, Batch;
    assert l.chip.kbd.typed + [] == l.chip.kbd.typed;
  }
}
