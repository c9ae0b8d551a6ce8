/** The laws of the JetKVM HID commands, over every link: what is held, and what the target sees. */
module JetkvmHidLaws {
  import opened Bytes
  import opened UsKeyboard
  import opened JetkvmHid
  import M = Motion

  ghost predicate Valid(s: Held) { ValidKeys(s.report.keys) }

  /** The device's keyboard holds what the session thinks is held. */
  predicate KeyboardAgrees(s: Held, d: Device) { d.target.kbd == s.report }

  // -- calls ----------------------------------------------------------------------------

  function ApplyAll(d: Device, calls: seq<Call>): Device
    decreases |calls|
  {
    if calls == [] then d else ApplyAll(d.Apply(calls[0]), calls[1..])
  }

  lemma SentWell(l: Link, c: Call)
    requires l.AllWell()
    ensures l.Ok() && l.Sent(c).AllWell() && l.Sent(c).device == l.device.Apply(c)
  {
    if l.fates != [] {
      assert l.fates[0] in l.fates && forall x <- l.fates[1..] :: x in l.fates;
    }
  }

  lemma {:induction false} BatchWell(l: Link, calls: seq<Call>)
    requires l.AllWell()
    ensures Batch(l, calls).1 && Batch(l, calls).0.AllWell()
    decreases |calls|
  {
    if calls != [] {
      SentWell(l, calls[0]);
      BatchWell(l.Sent(calls[0]), calls[1..]);
    }
  }

  /** Whatever is lost, the first `n` calls of a batch are done, in order and once each. */
  lemma {:induction false} BatchApplies(l: Link, calls: seq<Call>) returns (n: nat)
    ensures n <= |calls| && Batch(l, calls).0.device == ApplyAll(l.device, calls[..n])
    ensures Batch(l, calls).1 ==> n == |calls|
    decreases |calls|
  {
    if calls == [] {
      n := 0;
    } else if !l.Ok() {
      n := if l.Next() != Lost then 1 else 0;
      assert calls[..1] == [calls[0]] && calls[..0] == [] && [calls[0]][1..] == [];
      assert ApplyAll(l.device.Apply(calls[0]), []) == l.device.Apply(calls[0]);
    } else {
      var m := BatchApplies(l.Sent(calls[0]), calls[1..]);
      n := m + 1;
      assert calls[..n][1..] == calls[1..][..m];
    }
  }

  /** Mouse calls in turn: received in order, the keyboard untouched. */
  lemma {:induction false} MouseApplied(d: Device, calls: seq<Call>)
    requires forall c <- calls :: !c.Keyboard?
    ensures ApplyAll(d, calls) == Device(d.target, d.mouse + calls)
    decreases |calls|
  {
    if calls == [] {
      assert d.mouse + [] == d.mouse;
    } else {
      assert calls[0] in calls && forall c <- calls[1..] :: c in calls;
      MouseApplied(d.Apply(calls[0]), calls[1..]);
      assert d.mouse + [calls[0]] + calls[1..] == d.mouse + calls;
    }
  }

  // -- down and up ----------------------------------------------------------------------

  /**
   * `down` is refused, changing nothing, exactly when a new key finds six held; otherwise the key
   * is held on every outcome, and when acknowledged the device holds the same report and has
   * seen the key go down if it was up.
   */
  lemma KeyDownLaw(l: Link, s: Held, k: Key)
    requires Valid(s) && k != Usage(0)
    ensures var r := Execute(KeyDown(k), l, s);
      && Valid(r.held)
      && (r.outcome == TooManyKeys <==> k.Usage? && k.usage !in s.report.keys && |s.report.keys| == KEY_SLOTS)
      && (r.outcome == TooManyKeys ==> r.held == s && r.link == l)
      && (r.outcome != TooManyKeys ==>
            && (k.Usage? ==> r.held == s.(report := s.report.(keys := AddUsage(s.report.keys, k.usage))))
            && (k.Modifier? ==> r.held == s.(report := s.report.(mods := s.report.mods + {k.bit}))))
      && (r.outcome == Done ==> KeyboardAgrees(r.held, r.link.device))
      && (r.outcome == Done && KeyboardAgrees(s, l.device) ==>
            r.link.device.target.typed == l.device.target.typed
              + if k.Usage? && k.usage !in s.report.keys then [Stroke(k.usage, ShiftDown(s.report.mods))] else [])
      && (l.AllWell() ==> r.outcome in {Done, TooManyKeys})
  {
    var h := s.report;
    OneKey(h, k);
    OneCall(l, Keyboard(ChordReport(h, [k])));
    if k.Usage? && k.usage !in h.keys {
      assert h.keys + [k.usage] == h.keys + [k.usage] + [];
      PressSeen(h, h.(keys := h.keys + [k.usage]), h.keys, k.usage, []);
    } else {
      NothingSeen(h, ChordReport(h, [k]));
    }
    SentWellIf(l, Keyboard(ChordReport(h, [k])));
    hide Batch, ChordReport, Edges;
  }

  lemma SentWellIf(l: Link, c: Call)
    ensures l.AllWell() ==> l.Ok() && l.Sent(c).AllWell()
  {
    if l.AllWell() {
      SentWell(l, c);
    }
  }

  lemma KeyUpLaw(l: Link, s: Held, k: Key)
    requires Valid(s)
    ensures var r := Execute(KeyUp(k), l, s);
      && Valid(r.held) && r.outcome in {Done, Failed}
      && (k.Modifier? ==> r.held == s.(report := s.report.(mods := s.report.mods - {k.bit})))
      && (k.Usage? ==> r.held == s.(report := s.report.(keys := Without(s.report.keys, k.usage))))
      && (r.outcome == Done ==> KeyboardAgrees(r.held, r.link.device))
      && (KeyboardAgrees(s, l.device) ==> r.link.device.target.typed == l.device.target.typed)
  {
    if k.Usage? {
      WithoutValid(s.report.keys, k.usage);
    }
    NothingSeen(s.report, Lifted(s.report, k));
    OneCall(l, Keyboard(Lifted(s.report, k)));
    hide Batch, Edges;
    assert l.device.target.typed + [] == l.device.target.typed;
  }

  lemma ReleaseAllLaw(l: Link, s: Held)
    ensures var r := Execute(ReleaseAll, l, s);
      && r.held == Held(Report({}, []), {}) && r.outcome in {Done, Failed}
      && (r.outcome == Done ==>
            && r.link.device.target.kbd == Report({}, []) && r.link.device.mouse == l.device.mouse + [RelMouse(0, 0, {})])
      && (l.AllWell() ==> r.outcome == Done)
  {
    var c, d := Keyboard(Report({}, [])), RelMouse(0, 0, {});
    TwoCalls(l, c, d);
    SentWellIf(l, c);
    SentWellIf(l.Sent(c), d);
    hide Batch;
  }

  // -- chords ---------------------------------------------------------------------------

  /** A chord's report holds exactly the held keys and the chord's, each once. */
  lemma {:induction false} ChordHoldsUnion(keys: seq<byte>, chord: seq<Key>)
    requires NoDuplicates(keys)
    ensures NoDuplicates(ChordKeys(keys, chord)) && keys <= ChordKeys(keys, chord)
    ensures KeySet(ChordKeys(keys, chord)) == KeySet(keys) + Usages(chord)
    decreases |chord|
  {
    if chord == [] {
      assert Usages(chord) == {};
    } else {
      var keys' := match chord[0] case Usage(u) => AddUsage(keys, u) case Modifier(_) => keys;
      AddedOnce(keys, chord[0]);
      UsagesSplit(chord);
      ChordHoldsUnion(keys', chord[1..]);
    }
  }

  /** The modifier bits of a chord. */
  function Bits(chord: seq<Key>): set<Mod> {
    set k | k in chord && k.Modifier? :: k.bit
  }

  /** Every modifier of a chord is in its report, with those held. */
  lemma {:induction false} ChordModsAre(mods: set<Mod>, chord: seq<Key>)
    ensures ChordMods(mods, chord) == mods + Bits(chord)
    decreases |chord|
  {
    if chord == [] {
      assert Bits(chord) == {};
    } else {
      assert chord == [chord[0]] + chord[1..];
      var first: set<Mod> := if chord[0].Modifier? then {chord[0].bit} else {};
      assert Bits(chord) == first + Bits(chord[1..]);
      ChordModsAre(mods + first, chord[1..]);
      assert chord[0].Usage? ==> mods + first == mods;
    }
  }

  lemma AddedOnce(keys: seq<byte>, k: Key)
    requires NoDuplicates(keys)
    ensures var keys' := match k case Usage(u) => AddUsage(keys, u) case Modifier(_) => keys;
      && NoDuplicates(keys') && keys <= keys'
      && KeySet(keys') == KeySet(keys) + if k.Usage? then {k.usage} else {}
  {
    if k.Usage? && k.usage !in keys {
      assert KeySet(keys + [k.usage]) == KeySet(keys) + {k.usage};
    } else if k.Usage? {
      assert k.usage in KeySet(keys);
    }
  }

  /**
   * A chord is refused, and nothing sent, exactly when held and chord keys together exceed six.
   * Otherwise the press report holds exactly that union, the held keys first, and exactly the
   * modifiers held or in the chord; what is held never changes, the chord goes down at most once
   * whatever is lost, and the device ends at the held report exactly when the restoring call is
   * done, or the press was not, or the chord adds nothing.
   */
  lemma ComboLaw(l: Link, s: Held, chord: seq<Key>)
    requires Valid(s)
    ensures var r := Execute(Combo(chord), l, s);
      var (t, press) := (l.device.target, ChordReport(s.report, chord)); var t' := r.link.device.target;
      && r.held == s && r.outcome in {Done, Failed, TooManyKeys} && r.link.device.mouse == l.device.mouse
      && (r.outcome == TooManyKeys <==> |KeySet(s.report.keys) + Usages(chord)| > KEY_SLOTS)
      && (r.outcome == TooManyKeys ==> r.link == l)
      && press.mods == s.report.mods + Bits(chord)
      && s.report.keys <= press.keys && NoDuplicates(press.keys) && KeySet(press.keys) == KeySet(s.report.keys) + Usages(chord)
      && (r.outcome == Done ==> t' == t.Receive(press).Receive(s.report))
      && (l.AllWell() ==> r.outcome in {Done, TooManyKeys})
      && (KeyboardAgrees(s, l.device) && r.outcome != TooManyKeys ==>
            && (t'.typed == t.typed || t'.typed == t.typed + Edges(s.report, press))
            && (t'.kbd == s.report
                <==> l.Sent(Keyboard(press)).Next() != Lost || l.Next() == Lost || press == s.report))
  {
    var h := s.report;
    var press := ChordReport(h, chord);
    ChordHoldsUnion(h.keys, chord);
    ChordModsAre(h.mods, chord);
    DistinctCount(ChordKeys(h.keys, chord));
    NothingSeen(press, h);
    NothingSeen(h, h);
    SentWellIf(l, Keyboard(press));
    SentWellIf(l.Sent(Keyboard(press)), Keyboard(h));
    hide ChordKeys, ChordMods, Edges, KeySet, Usages, NoDuplicates, Bits;
    var t := l.device.target;
    assert t.typed + [] == t.typed;
    assert t.typed + Edges(h, press) + [] == t.typed + Edges(h, press);
  }

  lemma {:induction false} NewKeysAre(before: seq<byte>, keys: seq<byte>)
    requires NoDuplicates(keys) && 0 !in keys
    ensures NoDuplicates(NewKeys(before, keys)) && KeySet(NewKeys(before, keys)) == KeySet(keys) - KeySet(before)
    ensures forall k <- NewKeys(before, keys) :: k in keys
  {
    if keys != [] {
      NewKeysAre(before, keys[1..]);
      assert keys == [keys[0]] + keys[1..];
      var rest := NewKeys(before, keys[1..]);
      assert KeySet([keys[0]] + rest) == {keys[0]} + KeySet(rest);
      assert KeySet(keys) == {keys[0]} + KeySet(keys[1..]);
    }
  }

  /**
   * A chord that is acknowledged types each of its keys that was up exactly once, under the Shift
   * of held and chord modifiers together, and nothing else.
   */
  lemma ComboTypes(l: Link, s: Held, chord: seq<Key>) returns (seen: seq<byte>)
    requires Valid(s) && Usage(0) !in chord && KeyboardAgrees(s, l.device)
    requires Execute(Combo(chord), l, s).outcome == Done
    ensures NoDuplicates(seen) && KeySet(seen) == Usages(chord) - KeySet(s.report.keys)
    ensures Execute(Combo(chord), l, s).link.device.target
         == Target(s.report, l.device.target.typed + WithShift(seen, ShiftDown(s.report.mods + Bits(chord))))
  {
    var h, t := s.report, l.device.target;
    var press := ChordReport(h, chord);
    ComboLaw(l, s, chord);
    RealChord(h.keys, press.keys, chord);
    NewKeysAre(h.keys, press.keys);
    seen := NewKeys(h.keys, press.keys);
    UnionMinus(KeySet(h.keys), Usages(chord));
    NothingSeen(press, h);
    hide Execute, ChordReport, NewKeys, WithShift, KeySet, Usages, Bits, ShiftDown, NoDuplicates, ValidKeys;
    var typed := t.typed + WithShift(seen, ShiftDown(press.mods));
    assert typed + [] == typed;
  }

  lemma UnionMinus(a: set<byte>, b: set<byte>)
    ensures a + b - a == b - a
  {
  }

  lemma RealChord(held: seq<byte>, keys: seq<byte>, chord: seq<Key>)
    requires 0 !in held && Usage(0) !in chord && KeySet(keys) == KeySet(held) + Usages(chord)
    ensures 0 !in keys
  {
    assert 0 in keys ==> 0 in KeySet(keys);
  }

  // -- one stroke -----------------------------------------------------------------------

  /** The three reports of a stroke, as the target sees them. */
  lemma StrokeSeen(held: Report, s: Stroke)
    requires ValidKeys(held.keys) && s.usage != 0
    ensures s.usage in held.keys ==> Edges(held, ClearReport(held, s)) == []
    ensures Edges(if s.usage in held.keys then ClearReport(held, s) else held, PressReport(held, s))
         == [Under(s, held.mods)]
    ensures Edges(PressReport(held, s), held) == []
  {
    var before := if s.usage in held.keys then ClearReport(held, s) else held;
    var rest := Without(held.keys, s.usage);
    NothingSeen(held, ClearReport(held, s));
    assert PressReport(held, s).keys == rest + [s.usage] + [];
    assert rest + [] == rest;
    PressSeen(before, PressReport(held, s), rest, s.usage, []);
    NothingSeen(PressReport(held, s), held);
  }

  /** A lost press cannot mistype this stroke: its key is up, or it needs no further Shift. */
  predicate Safe(held: Report, s: Stroke) {
    s.usage !in held.keys || !s.shift || ShiftDown(held.mods)
  }

  /**
   * When the key of a stroke is already held, a press that is lost after the release went
   * through makes the restoring report press it again, under the held Shift state. The
   * target then reads the character that was meant exactly when the stroke is safe.
   */
  lemma LostPressOfHeldKey(held: Report, s: Stroke, typed: seq<Stroke>)
    requires ValidKeys(held.keys) && s.usage in held.keys
    ensures var t := Target(held, typed).Receive(ClearReport(held, s)).Receive(held);
      && t.typed == typed + [Stroke(s.usage, ShiftDown(held.mods))]
      && (t.typed == typed + [Under(s, held.mods)] <==> Safe(held, s))
  {
    RePressed(held, s);
    SafeStroke(held, s);
    OneStroke(typed, Stroke(s.usage, ShiftDown(held.mods)), Under(s, held.mods));
    hide Edges, ClearReport, ShiftDown, Under;
    assert typed + [] == typed;
  }

  lemma SafeStroke(held: Report, s: Stroke)
    requires s.usage in held.keys
    ensures Stroke(s.usage, ShiftDown(held.mods)) == Under(s, held.mods) <==> Safe(held, s)
  {
  }

  lemma RePressed(held: Report, s: Stroke)
    requires ValidKeys(held.keys) && s.usage in held.keys
    ensures Edges(held, ClearReport(held, s)) == []
    ensures Edges(ClearReport(held, s), held) == [Stroke(s.usage, ShiftDown(held.mods))]
  {
    hide Edges, ShiftDown;
    var clear := ClearReport(held, s);
    NothingSeen(held, clear);
    var i :| 0 <= i < |held.keys| && held.keys[i] == s.usage;
    assert held.keys == held.keys[..i] + [s.usage] + held.keys[i + 1..];
    PressSeen(clear, held, held.keys[..i], s.usage, held.keys[i + 1..]);
  }

  function Start(t: Target, held: Report, s: Stroke): Target {
    if s.usage in held.keys then t.Receive(ClearReport(held, s)) else t
  }

  /**
   * Every way the reports of a stroke can go, on a target that agrees with the session. A press
   * that never arrived leaves the stroke or nothing read exactly when the stroke is safe.
   */
  lemma StrokeRuns(t: Target, held: Report, s: Stroke)
    requires ValidKeys(held.keys) && s.usage != 0 && t.kbd == held
    ensures var (before, after, start) := (t.typed, t.typed + [Under(s, held.mods)], Start(t, held, s));
      && start.typed == before
      && start.Receive(PressReport(held, s)).typed == after
      && start.Receive(PressReport(held, s)).Receive(held) == Target(held, after)
      && (start.Receive(held).typed == before || start.Receive(held).typed == after <==> Safe(held, s))
      && (!Safe(held, s) ==> start.Receive(held).typed == before + [Stroke(s.usage, ShiftDown(held.mods))])
  {
    StrokeSeen(held, s);
    if s.usage in held.keys {
      LostPressOfHeldKey(held, s, t.typed);
      OneStroke(t.typed, Stroke(s.usage, ShiftDown(held.mods)), Under(s, held.mods));
    } else {
      NothingSeen(held, held);
    }
    hide Edges, ClearReport, PressReport, Under;
    assert t.typed + [] == t.typed;
    var after := t.typed + [Under(s, held.mods)];
    assert after + [] == after;
  }

  /** One stroke on any link, on a device that agrees with the session. */
  lemma StrokeLaw(l: Link, held: Report, s: Stroke)
    requires ValidKeys(held.keys) && s.usage != 0 && l.device.target.kbd == held
    ensures var (l', r) := StrokeOn(l, held, s); var (t, t') := (l.device.target, l'.device.target);
      && r in {Done, Failed, TooManyKeys} && l'.device.mouse == l.device.mouse
      && (r == TooManyKeys <==> !Fits(held.keys, s))
      && (r == TooManyKeys ==> l' == l)
      && (r == Done ==> t' == Target(held, t.typed + [Under(s, held.mods)]))
      && (Safe(held, s) ==> t'.typed == t.typed || t'.typed == t.typed + [Under(s, held.mods)])
      && (l.AllWell() ==> r != Failed && l'.AllWell())
  {
    var t := l.device.target;
    StrokeRuns(t, held, s);
    FitsHeld(held, s);
    var clear := Keyboard(ClearReport(held, s));
    var l1 := if s.usage in held.keys then l.Sent(clear) else l;
    SentWellIf(l, clear);
    hide PressReport, ClearReport, Target.Receive, Under, ValidKeys, Safe, Fits, PressStroke;
    if s.usage in held.keys && !l.Ok() {
      assert StrokeOn(l, held, s) == (l1, Failed);
      assert l1.device.target == t || l1.device.target == Start(t, held, s);
    } else {
      assert l1.device.target == Start(t, held, s) && l1.device.mouse == l.device.mouse;
      assert StrokeOn(l, held, s) == PressStroke(l1, held, s);
      PressLaw(t, l1, held, s);
    }
  }

  /** A stroke finds a slot exactly when its key is held or fewer than six others are. */
  lemma FitsExactly(held: Report, s: Stroke)
    requires ValidKeys(held.keys)
    ensures Fits(held.keys, s) <==> s.usage in held.keys || |held.keys| < 6
  {
    WithoutValid(held.keys, s.usage);
  }

  /** Shift is down before the key is: the report that releases a held key has the modifiers of the press. */
  lemma StrokeReports(held: Report, s: Stroke)
    ensures var clear, press := ClearReport(held, s), PressReport(held, s);
      && (forall m :: m in clear.mods <==> m in held.mods || (s.shift && m == LeftShift))
      && press.mods == clear.mods && press.keys == clear.keys + [s.usage]
      && (forall u :: u in clear.keys <==> u in held.keys && u != s.usage)
  {
  }

  lemma FitsHeld(held: Report, s: Stroke)
    requires ValidKeys(held.keys)
    ensures s.usage in held.keys ==> Fits(held.keys, s)
  {
    WithoutValid(held.keys, s.usage);
  }

  lemma PressLaw(t: Target, l: Link, held: Report, s: Stroke)
    requires ValidKeys(held.keys) && s.usage != 0 && t.kbd == held && l.device.target == Start(t, held, s)
    ensures var (l', r) := PressStroke(l, held, s); var t' := l'.device.target;
      && r in {Done, Failed, TooManyKeys} && l'.device.mouse == l.device.mouse
      && (r == TooManyKeys <==> !Fits(held.keys, s)) && (r == TooManyKeys ==> l' == l)
      && (r == Done ==> t' == Target(held, t.typed + [Under(s, held.mods)]))
      && (Safe(held, s) ==> t'.typed == t.typed || t'.typed == t.typed + [Under(s, held.mods)])
      && (l.AllWell() ==> r != Failed && l'.AllWell())
  {
    StrokeRuns(t, held, s);
    var press := Keyboard(PressReport(held, s));
    SentWellIf(l, press);
    SentWellIf(l.Sent(press), Keyboard(held));
    hide PressReport, Target.Receive, Under, ValidKeys, Safe, Fits, Start;
  }

  // -- runs of strokes ------------------------------------------------------------------

  /** The strokes up to the first that finds no slot. */
  function Sendable(keys: seq<byte>, ss: seq<Stroke>): seq<Stroke> {
    if ss == [] || !Fits(keys, ss[0]) then [] else [ss[0]] + Sendable(keys, ss[1..])
  }

  lemma {:induction false} SendableAll(keys: seq<byte>, ss: seq<Stroke>)
    ensures Sendable(keys, ss) <= ss
    ensures Sendable(keys, ss) == ss <==> forall s <- ss :: Fits(keys, s)
  {
    hide Fits;
    if ss != [] {
      SendableAll(keys, ss[1..]);
      assert ss == [ss[0]] + ss[1..];
      assert (forall s <- ss :: Fits(keys, s)) <==> Fits(keys, ss[0]) && forall s <- ss[1..] :: Fits(keys, s);
    }
  }

  /** The first stroke of a run decides, or hands over to the rest. */
  lemma StrokesStep(l: Link, held: Report, ss: seq<Stroke>)
    requires ss != []
    ensures var (l', r) := StrokeOn(l, held, ss[0]);
      StrokesOn(l, held, ss) == if r != Done then (l', r) else StrokesOn(l', held, ss[1..])
    ensures Sendable(held.keys, ss) ==
      if Fits(held.keys, ss[0]) then [ss[0]] + Sendable(held.keys, ss[1..]) else []
  {
    hide StrokeOn, Fits;
  }

  /** Strokes on any link: only the keyboard changes, and when all is well the outcome is exact. */
  lemma {:induction false} StrokesWell(l: Link, held: Report, ss: seq<Stroke>)
    requires ValidKeys(held.keys) && l.device.target.kbd == held && Real(ss)
    ensures var (l', r) := StrokesOn(l, held, ss);
      && r in {Done, Failed, TooManyKeys} && l'.device.mouse == l.device.mouse
      && (r == TooManyKeys ==> Sendable(held.keys, ss) != ss)
      && (r == Done ==> Sendable(held.keys, ss) == ss
                        && l'.device.target == Target(held, l.device.target.typed + AllUnder(ss, held.mods)))
      && (l.AllWell() ==> r != Failed)
    decreases |ss|
  {
    var typed := l.device.target.typed;
    if ss == [] {
      assert typed + AllUnder([], held.mods) == typed;
    } else {
      hide *;
      RealRest(ss);
      StrokesStep(l, held, ss);
      StrokeLaw(l, held, ss[0]);
      FirstOf(ss, Sendable(held.keys, ss[1..]));
      var (l', r) := StrokeOn(l, held, ss[0]);
      if r == Done {
        StrokesWell(l', held, ss[1..]);
        AfterFirst(typed, ss, held.mods);
      }
    }
  }

  lemma FirstOf(ss: seq<Stroke>, rest: seq<Stroke>)
    requires ss != []
    ensures [ss[0]] + rest == ss <==> rest == ss[1..]
    ensures [ss[0]] + rest != []
  {
    assert ([ss[0]] + rest)[1..] == rest;
    assert [ss[0]] + ss[1..] == ss;
  }

  /** When every stroke that is sent is safe, the target has read a prefix whatever became of the calls. */
  lemma {:induction false} StrokesPrefix(l: Link, held: Report, ss: seq<Stroke>)
    requires ValidKeys(held.keys) && l.device.target.kbd == held && Real(ss)
    requires AllSafe(held, Sendable(held.keys, ss))
    ensures ReadPrefix(l.device.target.typed, StrokesOn(l, held, ss).0.device.target.typed, ss, held.mods)
    decreases |ss|
  {
    hide *;
    var typed := l.device.target.typed;
    PrefixOfNone(typed, ss, held.mods);
    if ss == [] {
      NoStrokes(l, held);
    } else {
      RealRest(ss);
      StrokesStep(l, held, ss);
      StrokeLaw(l, held, ss[0]);
      PrefixOfOne(typed, ss, held.mods);
      var (l', r) := StrokeOn(l, held, ss[0]);
      if r != TooManyKeys {
        SafeParts(held, ss[0], Sendable(held.keys, ss[1..]));
      }
      if r == Done {
        StrokesPrefix(l', held, ss[1..]);
        PrefixExtends(typed, StrokesOn(l, held, ss).0.device.target.typed, ss, held.mods);
      }
    }
  }

  ghost predicate AllSafe(held: Report, ss: seq<Stroke>) {
    forall s <- ss :: Safe(held, s)
  }

  lemma SafeParts(held: Report, s: Stroke, rest: seq<Stroke>)
    ensures AllSafe(held, [s] + rest) <==> Safe(held, s) && AllSafe(held, rest)
  {
    assert s in [s] + rest && forall x <- rest :: x in [s] + rest;
    hide Safe;
  }

  lemma NoStrokes(l: Link, held: Report)
    ensures StrokesOn(l, held, []) == (l, Done)
  {
  }

  /** A link on which the first stroke that is not safe loses its press. */
  function LosesUnsafe(held: Report, ss: seq<Stroke>): seq<Fate> {
    if ss == [] then []
    else if !Safe(held, ss[0]) then [Acked, Lost, Acked]
    else (if ss[0].usage in held.keys then [Acked, Acked, Acked] else [Acked, Acked]) + LosesUnsafe(held, ss[1..])
  }

  lemma StepsOfLink(held: Report, ss: seq<Stroke>)
    requires ss != []
    ensures LosesUnsafe(held, ss) ==
      if !Safe(held, ss[0]) then [Acked, Lost, Acked]
      else (if ss[0].usage in held.keys then [Acked, Acked, Acked] else [Acked, Acked]) + LosesUnsafe(held, ss[1..])
  {
    hide Safe;
  }

  lemma SafeStep(l: Link, fates: seq<Fate>, held: Report, s: Stroke)
    requires Fits(held.keys, s)
    requires l.fates == (if s.usage in held.keys then [Acked, Acked, Acked] else [Acked, Acked]) + fates
    ensures StrokeOn(l, held, s).1 == Done && StrokeOn(l, held, s).0.fates == fates
  {
    hide PressReport, ClearReport, Fits, Target.Receive;
    assert ([Acked, Acked] + fates)[1..] == [Acked] + fates && ([Acked] + fates)[1..] == fates;
    assert ([Acked, Acked, Acked] + fates)[1..] == [Acked, Acked] + fates;
  }

  lemma UnsafeStep(l: Link, held: Report, s: Stroke)
    requires l.fates == [Acked, Lost, Acked]
    requires ValidKeys(held.keys) && s.usage != 0 && l.device.target.kbd == held && !Safe(held, s) && Fits(held.keys, s)
    ensures var (l', r) := StrokeOn(l, held, s);
      && r == Failed && l'.device.target.typed == l.device.target.typed + [Stroke(s.usage, ShiftDown(held.mods))]
      && Stroke(s.usage, ShiftDown(held.mods)) != Under(s, held.mods)
  {
    SafeStroke(held, s);
    var d := l.device;
    StrokeRuns(d.target, held, s);
    hide PressReport, ClearReport, Target.Receive, Under, ShiftDown, Fits;
    var l1 := l.Sent(Keyboard(ClearReport(held, s)));
    assert l.fates[1..] == [Lost, Acked] && [Lost, Acked][1..] == [Acked];
    var l2 := l1.Sent(Keyboard(PressReport(held, s)));
    assert l1.device == d.(target := Start(d.target, held, s)) && l2.device == l1.device;
    assert StrokeOn(l, held, s) == (l2.Sent(Keyboard(held)), Failed);
  }

  /** On that link what is read stops being a prefix. */
  lemma {:induction false} UnsafeBreaks(l: Link, held: Report, ss: seq<Stroke>)
    requires l.fates == LosesUnsafe(held, ss)
    requires ValidKeys(held.keys) && l.device.target.kbd == held && Real(ss)
    requires !AllSafe(held, Sendable(held.keys, ss))
    ensures var (before, after) := (l.device.target.typed, StrokesOn(l, held, ss).0.device.target.typed);
      before < after && !ReadPrefix(before, after, ss, held.mods)
    decreases |ss|
  {
    hide *;
    UnsafeHere(held, ss);
    RealRest(ss);
    StepsOfLink(held, ss);
    var s, d := ss[0], l.device;
    StrokesStep(l, held, ss);
    StrokeLaw(l, held, s);
    if !Safe(held, s) {
      UnsafeStep(l, held, s);
      var wrong := Stroke(s.usage, ShiftDown(held.mods));
      NoPrefix(d.target.typed, ss, held.mods, wrong);
      Longer(d.target.typed, wrong);
    } else {
      SafeStep(l, LosesUnsafe(held, ss[1..]), held, s);
      var (l', r) := StrokeOn(l, held, s);
      UnsafeBreaks(l', held, ss[1..]);
      NoPrefixLater(d.target.typed, StrokesOn(l, held, ss).0.device.target.typed, ss, held.mods);
    }
  }

  lemma UnsafeHere(held: Report, ss: seq<Stroke>)
    requires !AllSafe(held, Sendable(held.keys, ss))
    ensures ss != [] && Fits(held.keys, ss[0])
    ensures Safe(held, ss[0]) ==> !AllSafe(held, Sendable(held.keys, ss[1..]))
  {
    hide Safe, Fits;
    SafeParts(held, ss[0], Sendable(held.keys, ss[1..]));
  }

  lemma Longer(typed: seq<Stroke>, s: Stroke)
    ensures typed < typed + [s]
  {
  }

  // -- the command ----------------------------------------------------------------------

  lemma {:induction false} StrokesReal(text: string)
    requires StrokesFor(text).Some?
    ensures Real(StrokesFor(text).value)
  {
    if text != "" {
      StrokesReal(text[1..]);
    }
  }

  /**
   * `type` on any link: refused unsent exactly when too long or off the layout; what is held
   * never changes; an acknowledged text was typed whole, and with no Shift held the target reads
   * exactly that text; and when all is well it fails exactly for want of a slot.
   */
  lemma TypeLaw(l: Link, s: Held, text: string)
    requires Valid(s) && KeyboardAgrees(s, l.device)
    ensures var r := Execute(Type(text), l, s); var (t, t') := (l.device.target, r.link.device.target);
      && r.held == s && r.link.device.mouse == l.device.mouse
      && (r.outcome == TooLong <==> |text| > 4096)
      && (r.outcome == NotOnLayout <==> |text| <= 4096 && StrokesFor(text).None?)
      && (r.outcome in {TooLong, NotOnLayout} ==> r.link == l)
      && (r.outcome == Done ==> t' == Target(s.report, t.typed + AllUnder(StrokesFor(text).value, s.report.mods)))
      && (r.outcome == Done && !ShiftDown(s.report.mods) ==>
            t.typed <= t'.typed && ReadText(t'.typed[|t.typed|..]) == Some(text))
      && (l.AllWell() && r.outcome !in {TooLong, NotOnLayout} ==>
            r.outcome == if forall x <- StrokesFor(text).value :: Fits(s.report.keys, x) then Done else TooManyKeys)
  {
    if |text| <= MAX_TYPE_CHARS && StrokesFor(text).Some? {
      hide StrokesFor, StrokesOn, Fits, ReadText, AllUnder, ValidKeys, ShiftDown, Sendable, Real;
      var ss := StrokesFor(text).value;
      StrokesReal(text);
      StrokesWell(l, s.report, ss);
      SendableAll(s.report.keys, ss);
      ReadTextInverts(text);
      PlainUnder(ss, s.report.mods);
      var seen := AllUnder(ss, s.report.mods);
      assert (l.device.target.typed + seen)[|l.device.target.typed|..] == seen;
    }
  }

  lemma PlainUnder(ss: seq<Stroke>, mods: set<Mod>)
    ensures !ShiftDown(mods) ==> AllUnder(ss, mods) == ss
  {
  }

  /**
   * Whatever is lost, the target has read a beginning of the text's strokes, if and only if none
   * of the strokes that find a slot needs Shift on a held key without it.
   */
  lemma TypePrefixExactly(l: Link, s: Held, text: string)
    requires Valid(s) && KeyboardAgrees(s, l.device) && |text| <= MAX_TYPE_CHARS && StrokesFor(text).Some?
    ensures (forall fates ::
               ReadPrefix(l.device.target.typed, Execute(Type(text), l.(fates := fates), s).link.device.target.typed,
                          StrokesFor(text).value, s.report.mods))
       <==> AllSafe(s.report, Sendable(s.report.keys, StrokesFor(text).value))
  {
    var ss := StrokesFor(text).value;
    StrokesReal(text);
    hide StrokesOn, ReadPrefix, StrokesFor, AllSafe, Sendable, Execute, ValidKeys, Real;
    forall fates
      ensures Execute(Type(text), l.(fates := fates), s).link == StrokesOn(l.(fates := fates), s.report, ss).0
    {
      TypeSends(l.(fates := fates), s, text);
    }
    if AllSafe(s.report, Sendable(s.report.keys, ss)) {
      forall fates
        ensures ReadPrefix(l.device.target.typed, StrokesOn(l.(fates := fates), s.report, ss).0.device.target.typed, ss, s.report.mods)
      {
        StrokesPrefix(l.(fates := fates), s.report, ss);
      }
    } else {
      var fates := LosesUnsafe(s.report, ss);
      UnsafeBreaks(l.(fates := fates), s.report, ss);
      assert Execute(Type(text), l.(fates := fates), s).link == StrokesOn(l.(fates := fates), s.report, ss).0;
    }
  }

  lemma TypeSends(l: Link, s: Held, text: string)
    requires |text| <= MAX_TYPE_CHARS && StrokesFor(text).Some?
    ensures Execute(Type(text), l, s).link == StrokesOn(l, s.report, StrokesFor(text).value).0
  {
    hide StrokesOn, StrokesFor;
  }

  // -- motion ---------------------------------------------------------------------------

  /**
   * `move` on any link: the device receives the first `n` of the steps that add up to the clamped
   * motion, all of them when acknowledged; nothing else changes.
   */
  lemma MoveLaw(l: Link, s: Held, dx: int, dy: int) returns (n: nat)
    ensures var calls := MoveCalls(s.buttons, M.Steps(M.ClampTotal(dx), M.ClampTotal(dy)));
      var r := Execute(Move(dx, dy), l, s);
      && n <= |calls| && r.link.device == Device(l.device.target, l.device.mouse + calls[..n])
      && r.held == s && r.outcome in {Done, Failed}
      && (r.outcome == Done ==> n == |calls|) && (l.AllWell() ==> r.outcome == Done)
  {
    hide M.Steps, M.ClampTotal;
    var calls := MoveCalls(s.buttons, M.Steps(M.ClampTotal(dx), M.ClampTotal(dy)));
    n := BatchApplies(l, calls);
    MouseApplied(l.device, calls[..n]);
    if l.AllWell() {
      BatchWell(l, calls);
    }
    hide Batch, ApplyAll, MoveCalls;
  }

  lemma ScrollLaw(l: Link, s: Held, amount: int) returns (n: nat)
    ensures var calls := WheelCalls(M.Steps(M.ClampTotal(amount), 0)); var r := Execute(Scroll(amount), l, s);
      && n <= |calls| && r.link.device == Device(l.device.target, l.device.mouse + calls[..n])
      && r.held == s && r.outcome in {Done, Failed}
      && (r.outcome == Done ==> n == |calls|) && (l.AllWell() ==> r.outcome == Done)
  {
    hide M.Steps, M.ClampTotal;
    var calls := WheelCalls(M.Steps(M.ClampTotal(amount), 0));
    n := BatchApplies(l, calls);
    MouseApplied(l.device, calls[..n]);
    if l.AllWell() {
      BatchWell(l, calls);
    }
    hide Batch, ApplyAll, WheelCalls;
  }

  /** The buttons the device was last told of. */
  function LastButtons(mouse: seq<Call>): set<Button> {
    if mouse == [] then {}
    else
      match mouse[|mouse| - 1]
      case RelMouse(_, _, b) => b
      case AbsMouse(_, _, b) => b
      case _ => LastButtons(mouse[..|mouse| - 1])
  }

  /**
   * A click leaves the session's buttons as they were on every outcome. The release is sent only
   * after an acknowledged press: the device then agrees exactly when the press was not done, or
   * was acknowledged and the release done, or the button was held anyway.
   */
  lemma ClickLaw(l: Link, s: Held, b: Button)
    requires LastButtons(l.device.mouse) == s.buttons
    ensures var r := Execute(Click(b), l, s); var second := l.Sent(RelMouse(0, 0, s.buttons + {b})).Next();
      && r.held == s && r.link.device.target == l.device.target
      && (LastButtons(r.link.device.mouse) == s.buttons
          <==> b in s.buttons || l.Next() == Lost || (l.Next() == Acked && second != Lost))
      && (l.AllWell() ==> r.outcome == Done)
  {
    var c, d := RelMouse(0, 0, s.buttons + {b}), RelMouse(0, 0, s.buttons);
    hide LastButtons, Link.AllWell;
    TwoCalls(l, c, d);
    SentWellIf(l, c);
    SentWellIf(l.Sent(c), d);
    assert b in s.buttons <==> s.buttons + {b} == s.buttons;
    LastOf(l.device.mouse, c);
    LastOf(l.device.mouse, d);
    LastOf(l.device.mouse + [c], d);
    assert CallsOf(Click(b), s) == [c, d];
    hide Batch;
  }

  /** A click moves nothing: it makes at most its two calls, in order, and both make no motion. */
  lemma ClickCalls(l: Link, s: Held, b: Button)
    ensures var (m, press, release) := (l.device.mouse, RelMouse(0, 0, s.buttons + {b}), RelMouse(0, 0, s.buttons));
      var r := Execute(Click(b), l, s);
      && r.link.device.mouse in {m, m + [press], m + [press] + [release]}
      && (r.outcome == Done ==> r.link.device.mouse == m + [press] + [release])
  {
    var c, d := RelMouse(0, 0, s.buttons + {b}), RelMouse(0, 0, s.buttons);
    TwoCalls(l, c, d);
    assert CallsOf(Click(b), s) == [c, d];
    hide Batch;
  }

  /** `mdown` and `mup` count on every outcome; the one call tells the device of all buttons then held. */
  lemma ButtonLaw(l: Link, s: Held, b: Button, down: bool)
    ensures var r := Execute(if down then MouseDown(b) else MouseUp(b), l, s);
      var after := if down then s.buttons + {b} else s.buttons - {b};
      && r.held == s.(buttons := after) && r.outcome == Of(l.Ok())
      && r.link.device.target == l.device.target
      && r.link.device.mouse == l.device.mouse + if l.Next() != Lost then [RelMouse(0, 0, after)] else []
  {
    OneCall(l, RelMouse(0, 0, s.buttons + {b}));
    OneCall(l, RelMouse(0, 0, s.buttons - {b}));
    hide Batch;
    assert l.device.mouse + [] == l.device.mouse;
  }

  /** `v` moved into the range of the device's absolute coordinates. */
  ghost predicate Clamped(v: int, c: int) {
    0 <= c <= 32767 && (0 <= v <= 32767 ==> c == v) && (v < 0 ==> c == 0) && (v > 32767 ==> c == 32767)
  }

  /** `moveabs` tells the device, once, of the point asked for, moved into range, and of the held buttons. */
  lemma MoveAbsLaw(l: Link, s: Held, x: int, y: int) returns (cx: int, cy: int)
    ensures var r := Execute(MoveAbs(x, y), l, s);
      && Clamped(x, cx) && Clamped(y, cy) && r.held == s && r.outcome == Of(l.Ok())
      && r.link.device.target == l.device.target
      && r.link.device.mouse == l.device.mouse + if l.Next() != Lost then [AbsMouse(cx, cy, s.buttons)] else []
  {
    cx, cy := ClampAbs(x), ClampAbs(y);
    OneCall(l, AbsMouse(cx, cy, s.buttons));
    hide Batch;
    assert l.device.mouse + [] == l.device.mouse;
  }

  lemma LastOf(mouse: seq<Call>, c: Call)
    requires c.RelMouse?
    ensures LastButtons(mouse + [c]) == c.buttons
  {
  }
}
