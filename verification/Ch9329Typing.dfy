/** The reports of ch9329/src/session.rs as the target sees them: chords and typed text. */
module Ch9329Typing {
  import opened Bytes
  import opened UsKeyboard
  import opened Ch9329Keys

  function Padding(n: nat): (r: seq<byte>)
    ensures |r| == n && forall k <- r :: k == 0
  {
    seq(n, _ => 0)
  }

  /** The six slots of a report. */
  function Slots(keys: seq<byte>): (r: seq<byte>)
    ensures |keys| <= KEY_SLOTS ==> |r| == KEY_SLOTS
    ensures forall k :: k != 0 ==> (k in r <==> k in keys)
  {
    if |keys| <= KEY_SLOTS then keys + Padding(KEY_SLOTS - |keys|) else keys
  }

  /** The report for a held state. */
  function HeldReport(h: Report): Report {
    Report(h.mods, Slots(h.keys))
  }

  lemma NoEdges(a: Report, b: Report)
    requires forall k <- b.keys :: k == 0 || k in a.keys
    ensures Edges(a, HeldReport(b)) == []
  {
    NothingSeen(a, HeldReport(b));
  }

  // -- chords ---------------------------------------------------------------------------

  function Pressed(h: Report, chord: seq<Key>): Report { HeldReport(DownAll(h, chord)) }

  function Released(h: Report, chord: seq<Key>): Report { HeldReport(UpAll(DownAll(h, chord), chord)) }

  /** Releasing a chord presses nothing, whether or not the press arrived. */
  lemma ReleaseSeen(h: Report, chord: seq<Key>)
    requires ValidKeys(h.keys) && Usage(0) !in chord
    ensures Edges(HeldReport(h), Released(h, chord)) == []
    ensures Edges(Pressed(h, chord), Released(h, chord)) == []
    ensures Edges(Released(h, chord), Released(h, chord)) == []
  {
    ChordLeavesMinus(h, chord);
    DownAllExtends(h, chord);
    var r := UpAll(DownAll(h, chord), chord);
    hide DownAll, UpAll, Minus, Edges, Slots;
    assert forall k <- r.keys :: k in h.keys && k in DownAll(h, chord).keys;
    NoEdges(HeldReport(h), r);
    NoEdges(Pressed(h, chord), r);
    NoEdges(Released(h, chord), r);
  }

  /** The same report, `n` times in a row. */
  function Again(t: Target, r: Report, n: nat): (t': Target)
    ensures n > 0 ==> t'.kbd == r
    ensures n == 0 ==> t' == t
  {
    if n == 0 then t else Again(t, r, n - 1).Receive(r)
  }

  /** A report that presses nothing new may be repeated at will. */
  lemma {:induction false} AgainSeen(t: Target, r: Report, n: nat)
    requires Edges(r, r) == []
    ensures n > 0 ==> Again(t, r, n) == Target(r, t.typed + Edges(t.kbd, r))
  {
    if n > 0 {
      AgainSeen(t, r, n - 1);
      var one := t.typed + Edges(t.kbd, r);
      assert one + [] == one;
    }
  }

  /** Every way the reports of a chord can go, on a target that agrees with the session. */
  lemma ChordRuns(t: Target, h: Report, chord: seq<Key>, n: nat)
    requires ValidKeys(h.keys) && Usage(0) !in chord && t.kbd == HeldReport(h)
    ensures var p, r := Pressed(h, chord), Released(h, chord);
      && t.Receive(p).typed == t.typed + Edges(HeldReport(h), p)
      && Again(t, r, n).typed == t.typed
      && Again(t.Receive(p), r, n).typed == t.Receive(p).typed
  {
    ReleaseSeen(h, chord);
    var p, r := Pressed(h, chord), Released(h, chord);
    hide Edges, Pressed, Released, HeldReport;
    AgainSeen(t, r, n);
    AgainSeen(t.Receive(p), r, n);
    var one := t.typed + Edges(HeldReport(h), p);
    assert t.typed + [] == t.typed && one + [] == one;
  }

  lemma {:induction false} NewKeysAre(before: seq<byte>, keys: seq<byte>)
    requires NoDuplicates(keys)
    ensures NoDuplicates(NewKeys(before, keys))
    ensures forall k :: k in NewKeys(before, keys) <==> k in keys && k != 0 && k !in before
  {
    if keys != [] {
      NewKeysAre(before, keys[1..]);
    }
  }

  /**
   * A chord's press is seen as each of its keys that was up going down, exactly once, and no
   * other key: the target's strokes are the chord's new usages without repetition.
   */
  lemma PressSeenOnce(h: Report, chord: seq<Key>)
    requires ValidKeys(h.keys) && Usage(0) !in chord
    requires |KeySet(h.keys) + Usages(chord)| <= KEY_SLOTS
    ensures var seen := NewKeys(Slots(h.keys), Slots(DownAll(h, chord).keys));
      && Edges(HeldReport(h), Pressed(h, chord)) == WithShift(seen, ShiftDown(h.mods + ChordMods(chord)))
      && NoDuplicates(seen) && KeySet(seen) == Usages(chord) - KeySet(h.keys)
  {
    DownAllHoldsUnion(h, chord);
    DownAllMods(h, chord);
    var keys := DownAll(h, chord).keys;
    NewKeysConcat(Slots(h.keys), keys, Padding(KEY_SLOTS - |keys|));
    NoNewKeys(Slots(h.keys), Padding(KEY_SLOTS - |keys|));
    var seen := NewKeys(Slots(h.keys), keys);
    assert seen + [] == seen;
    NewKeysAre(Slots(h.keys), keys);
    UnionMinus(h.keys, keys, Usages(chord));
    forall k
      ensures k in seen <==> k in Usages(chord) - KeySet(h.keys)
    {
    }
    assert KeySet(seen) == Usages(chord) - KeySet(h.keys);
  }

  lemma UnionMinus(held: seq<byte>, keys: seq<byte>, added: set<byte>)
    requires KeySet(keys) == KeySet(held) + added
    ensures forall k :: k in keys && k !in held <==> k in added - KeySet(held)
  {
    assert forall k :: k in keys <==> k in KeySet(keys);
    assert forall k :: k in held <==> k in KeySet(held);
  }

  /**
   * A key that is not held is seen going down, and is held from then on, exactly when a slot is
   * free for it; with six others held, pressing it changes and shows nothing at all.
   */
  lemma DownSeenExactly(h: Report, u: byte)
    requires ValidKeys(h.keys) && u != 0 && u !in h.keys
    ensures Edges(HeldReport(h), HeldReport(Down(h, Usage(u)))) == [Stroke(u, ShiftDown(h.mods))]
       <==> |h.keys| < KEY_SLOTS
    ensures u in Down(h, Usage(u)).keys <==> |h.keys| < KEY_SLOTS
    ensures |h.keys| == KEY_SLOTS ==>
              Down(h, Usage(u)) == h && Edges(HeldReport(h), HeldReport(Down(h, Usage(u)))) == []
  {
    var d := Down(h, Usage(u));
    if |h.keys| < KEY_SLOTS {
      var rest := Padding(KEY_SLOTS - |h.keys| - 1);
      assert HeldReport(d).keys == h.keys + [u] + rest;
      PressSeen(HeldReport(h), HeldReport(d), h.keys, u, rest);
    } else {
      NoEdges(HeldReport(h), h);
    }
  }

  /** The press report of a tap is that of a `down`. */
  lemma TapPressesDown(h: Report, k: Key)
    ensures Pressed(h, [k]) == HeldReport(Down(h, k))
  {
    assert [k][1..] == [];
    assert DownAll(Down(h, k), []) == Down(h, k);
  }

  // -- typing ---------------------------------------------------------------------------

  /** A slot is free for the key next to those held, or its own is. */
  predicate Fits(h: Report, s: Stroke) {
    |h.keys| < KEY_SLOTS || s.usage in h.keys
  }

  function ClearReport(h: Report, s: Stroke): Report {
    HeldReport(h.(keys := Without(h.keys, s.usage)))
  }

  /** The held keys that find a slot next to the typed one. */
  function Kept(h: Report, s: Stroke): (r: seq<byte>)
    ensures |r| < KEY_SLOTS && r <= Without(h.keys, s.usage)
  {
    var others := Without(h.keys, s.usage);
    if |others| < KEY_SLOTS then others else others[..KEY_SLOTS - 1]
  }

  /** The typed key in the first slot, the held keys behind it. */
  function PressReport(h: Report, s: Stroke): Report {
    Report(if s.shift then h.mods + {LeftShift} else h.mods, Slots([s.usage] + Kept(h, s)))
  }

  /** The held state after a stroke: a key that was held has moved to the last slot. */
  function After(h: Report, s: Stroke): (r: Report)
    ensures r.mods == h.mods && forall k :: k in r.keys <==> k in h.keys
  {
    if s.usage in h.keys then h.(keys := Without(h.keys, s.usage) + [s.usage]) else h
  }

  lemma AfterValid(h: Report, s: Stroke)
    requires ValidKeys(h.keys)
    ensures ValidKeys(After(h, s).keys) && |After(h, s).keys| == |h.keys|
  {
    WithoutValid(h.keys, s.usage);
  }

  /** The strokes seen for one typed stroke: a key that lost its slot comes back as another. */
  function Seen(h: Report, s: Stroke): seq<Stroke>
    requires |h.keys| <= KEY_SLOTS
  {
    [Under(s, h.mods)] + if Fits(h, s) then [] else [Stroke(h.keys[KEY_SLOTS - 1], ShiftDown(h.mods))]
  }

  function SeenAll(h: Report, ss: seq<Stroke>): seq<Stroke>
    requires ValidKeys(h.keys)
    decreases |ss|
  {
    if ss == [] then []
    else
      AfterValid(h, ss[0]);
      Seen(h, ss[0]) + SeenAll(After(h, ss[0]), ss[1..])
  }

  function AfterAll(h: Report, ss: seq<Stroke>): (r: Report)
    requires ValidKeys(h.keys)
    ensures ValidKeys(r.keys)
    decreases |ss|
  {
    if ss == [] then h
    else
      AfterValid(h, ss[0]);
      AfterAll(After(h, ss[0]), ss[1..])
  }

  /** Typing permutes the held keys and changes nothing else about what is held. */
  lemma {:induction false} AfterAllHolds(h: Report, ss: seq<Stroke>)
    requires ValidKeys(h.keys)
    ensures AfterAll(h, ss).mods == h.mods && |AfterAll(h, ss).keys| == |h.keys|
    ensures forall k :: k in AfterAll(h, ss).keys <==> k in h.keys
    decreases |ss|
  {
    if ss != [] {
      AfterValid(h, ss[0]);
      AfterAllHolds(After(h, ss[0]), ss[1..]);
    }
  }

  lemma {:induction false} SeenAtLeast(h: Report, ss: seq<Stroke>)
    requires ValidKeys(h.keys)
    ensures |SeenAll(h, ss)| >= |ss|
    ensures (exists s <- ss :: !Fits(h, s)) ==> |SeenAll(h, ss)| > |ss|
    decreases |ss|
  {
    if ss != [] {
      AfterValid(h, ss[0]);
      var h' := After(h, ss[0]);
      SeenAtLeast(h', ss[1..]);
      assert forall s :: Fits(h', s) <==> Fits(h, s);
      assert ss == [ss[0]] + ss[1..];
    }
  }

  ghost predicate AllFit(h: Report, ss: seq<Stroke>) {
    forall s <- ss :: Fits(h, s)
  }

  lemma FitStep(h: Report, ss: seq<Stroke>)
    requires ValidKeys(h.keys) && ss != [] && AllFit(h, ss)
    ensures var h' := After(h, ss[0]);
      && ValidKeys(h'.keys) && h'.mods == h.mods && AllFit(h', ss[1..])
      && Seen(h, ss[0]) == [Under(ss[0], h.mods)]
  {
    AfterValid(h, ss[0]);
    assert ss[0] in ss && forall s <- ss[1..] :: s in ss;
    hide Under;
  }

  /** The first stroke of a run, and the rest of it. */
  lemma RunParts(h: Report, ss: seq<Stroke>)
    requires ValidKeys(h.keys) && ss != []
    ensures ValidKeys(After(h, ss[0]).keys) && AfterAll(h, ss) == AfterAll(After(h, ss[0]), ss[1..])
    ensures SeenAll(h, ss) == Seen(h, ss[0]) + SeenAll(After(h, ss[0]), ss[1..])
  {
    AfterValid(h, ss[0]);
    hide After, Seen;
  }

  lemma {:induction false} SeenWhenFits(h: Report, ss: seq<Stroke>)
    requires ValidKeys(h.keys) && AllFit(h, ss)
    ensures SeenAll(h, ss) == AllUnder(ss, h.mods)
    decreases |ss|
  {
    if ss != [] {
      FitStep(h, ss);
      RunParts(h, ss);
      AllUnderParts(ss, h.mods);
      hide *;
      SeenWhenFits(After(h, ss[0]), ss[1..]);
    }
  }

  /**
   * The target sees exactly the typed strokes if and only if every character finds a slot:
   * fewer than six keys are held, or the character's own key is one of them.
   */
  lemma TypedExactly(h: Report, ss: seq<Stroke>)
    requires ValidKeys(h.keys)
    ensures SeenAll(h, ss) == AllUnder(ss, h.mods) <==> forall s <- ss :: Fits(h, s)
  {
    SeenAtLeast(h, ss);
    if forall s <- ss :: Fits(h, s) {
      SeenWhenFits(h, ss);
    }
  }

  /** With no Shift held, the text comes back exactly under the same condition. */
  lemma TypedTextReadsBack(h: Report, text: string)
    requires ValidKeys(h.keys) && !ShiftDown(h.mods) && StrokesFor(text).Some?
    ensures (forall s <- StrokesFor(text).value :: Fits(h, s)) ==>
              ReadText(SeenAll(h, StrokesFor(text).value)) == Some(text)
    ensures !(forall s <- StrokesFor(text).value :: Fits(h, s)) ==>
              ReadText(SeenAll(h, StrokesFor(text).value)) != Some(text)
  {
    var ss := StrokesFor(text).value;
    TypedExactly(h, ss);
    ReadTextInverts(text);
    StrokesForLength(text);
    SeenAtLeast(h, ss);
    ReadTextLength(SeenAll(h, ss));
  }

  lemma {:induction false} ReadTextLength(ss: seq<Stroke>)
    ensures ReadText(ss).Some? ==> |ReadText(ss).value| == |ss|
  {
    if ss != [] {
      ReadTextLength(ss[1..]);
    }
  }

  // -- one stroke on the wire -----------------------------------------------------------

  /** A lost press cannot mistype this stroke: its key is up, or it needs no further Shift. */
  predicate Safe(h: Report, s: Stroke) {
    s.usage !in h.keys || !s.shift || ShiftDown(h.mods)
  }

  /** The target after the release that precedes a held key's press, if there is one. */
  function Start(t: Target, h: Report, s: Stroke): Target {
    if s.usage in h.keys then t.Receive(ClearReport(h, s)) else t
  }

  lemma SlotsCons(u: byte, kept: seq<byte>)
    requires |kept| < KEY_SLOTS
    ensures Slots([u] + kept) == [] + [u] + (kept + Padding(KEY_SLOTS - |kept| - 1))
  {
  }

  lemma ClearHolds(h: Report, s: Stroke)
    ensures forall k :: k != 0 ==> (k in ClearReport(h, s).keys <==> k in h.keys && k != s.usage)
  {
  }

  lemma PressEdges(h: Report, s: Stroke)
    requires ValidKeys(h.keys) && s.usage != 0
    ensures s.usage in h.keys ==> Edges(HeldReport(h), ClearReport(h, s)) == []
    ensures Edges(if s.usage in h.keys then ClearReport(h, s) else HeldReport(h), PressReport(h, s))
         == [Under(s, h.mods)]
  {
    var kept := Kept(h, s);
    var rest := kept + Padding(KEY_SLOTS - |kept| - 1);
    SlotsCons(s.usage, kept);
    ClearHolds(h, s);
    assert forall k <- [] + rest :: k == 0 || k in Without(h.keys, s.usage);
    var before := if s.usage in h.keys then ClearReport(h, s) else HeldReport(h);
    hide Edges, ClearReport, Padding, Slots, Without, Kept;
    NothingSeen(HeldReport(h), ClearReport(h, s));
    PressSeen(before, PressReport(h, s), [], s.usage, rest);
  }

  /** With six other keys held, the last of them has no slot in the press report. */
  lemma DroppedKey(h: Report, s: Stroke)
    requires ValidKeys(h.keys) && !Fits(h, s) && s.usage != 0
    ensures var kept, last := h.keys[..KEY_SLOTS - 1], h.keys[KEY_SLOTS - 1];
      && After(h, s) == h && HeldReport(h).keys == kept + [last] + []
      && last != 0 && last !in PressReport(h, s).keys
      && forall k <- kept + [] :: k in PressReport(h, s).keys
  {
    var kept, last := h.keys[..KEY_SLOTS - 1], h.keys[KEY_SLOTS - 1];
    assert Kept(h, s) == kept;
    hide Without, Kept;
    assert last in h.keys && last !in [s.usage] + kept;
    assert forall k <- kept :: k in h.keys && k in [s.usage] + kept;
    assert Slots(h.keys) == h.keys + [];
    hide Slots;
  }

  lemma RestoreEdges(h: Report, s: Stroke)
    requires ValidKeys(h.keys) && s.usage != 0
    ensures Edges(PressReport(h, s), HeldReport(After(h, s)))
         == if Fits(h, s) then [] else [Stroke(h.keys[KEY_SLOTS - 1], ShiftDown(h.mods))]
    ensures Edges(HeldReport(After(h, s)), HeldReport(After(h, s))) == []
  {
    var a := After(h, s);
    NoEdges(HeldReport(a), a);
    if Fits(h, s) {
      WithoutValid(h.keys, s.usage);
      NoEdges(PressReport(h, s), a);
    } else {
      DroppedKey(h, s);
      hide Edges, PressReport, Without, ShiftDown, Slots;
      PressSeen(PressReport(h, s), HeldReport(a), h.keys[..KEY_SLOTS - 1], h.keys[KEY_SLOTS - 1], []);
    }
  }

  /** When the press never arrives, restoring the held state is seen as nothing, or as re-pressing. */
  lemma LostPressEdges(h: Report, s: Stroke)
    requires ValidKeys(h.keys) && s.usage != 0
    ensures Edges(if s.usage in h.keys then ClearReport(h, s) else HeldReport(h), HeldReport(After(h, s)))
         == if s.usage in h.keys then [Stroke(s.usage, ShiftDown(h.mods))] else []
  {
    var a := After(h, s);
    AfterValid(h, s);
    WithoutValid(h.keys, s.usage);
    if s.usage in h.keys {
      var others := Without(h.keys, s.usage);
      assert HeldReport(a).keys == others + [s.usage] + Padding(KEY_SLOTS - |a.keys|);
      assert forall k <- others :: k in ClearReport(h, s).keys || k == 0;
      PressSeen(ClearReport(h, s), HeldReport(a), others, s.usage, Padding(KEY_SLOTS - |a.keys|));
    } else {
      NoEdges(HeldReport(h), a);
    }
  }

  lemma StartSeen(t: Target, h: Report, s: Stroke)
    requires ValidKeys(h.keys) && s.usage != 0 && t.kbd == HeldReport(h)
    ensures var start := Start(t, h, s);
      && start.typed == t.typed
      && start.kbd == (if s.usage in h.keys then ClearReport(h, s) else HeldReport(h))
      && start.Receive(PressReport(h, s)).typed == t.typed + [Under(s, h.mods)]
  {
    PressEdges(h, s);
    hide Edges, ClearReport, PressReport, HeldReport;
    assert t.typed + [] == t.typed;
  }

  lemma SeenParts(typed: seq<Stroke>, h: Report, s: Stroke)
    requires |h.keys| <= KEY_SLOTS
    ensures typed + Seen(h, s)
         == (typed + [Under(s, h.mods)]) + if Fits(h, s) then [] else [Stroke(h.keys[KEY_SLOTS - 1], ShiftDown(h.mods))]
  {
  }

  lemma PressedRuns(t: Target, h: Report, s: Stroke, n: nat)
    requires ValidKeys(h.keys) && s.usage != 0 && t.kbd == HeldReport(h)
    ensures var pressed := Start(t, h, s).Receive(PressReport(h, s));
      Again(pressed, HeldReport(After(h, s)), n).typed
        == t.typed + (if n == 0 then [Under(s, h.mods)] else Seen(h, s))
  {
    StartSeen(t, h, s);
    RestoreEdges(h, s);
    var a, pressed := HeldReport(After(h, s)), Start(t, h, s).Receive(PressReport(h, s));
    AgainSeen(pressed, a, n);
    SeenParts(t.typed, h, s);
    hide Edges, PressReport, HeldReport, After, Again, Under, Start, Fits, Seen;
  }

  lemma SafeStroke(h: Report, s: Stroke)
    requires s.usage in h.keys
    ensures Stroke(s.usage, ShiftDown(h.mods)) == Under(s, h.mods) <==> Safe(h, s)
  {
  }

  /** The restoring report after a press that never arrived. */
  lemma LostRuns(t: Target, h: Report, s: Stroke, n: nat)
    requires ValidKeys(h.keys) && s.usage != 0 && t.kbd == HeldReport(h)
    ensures Again(Start(t, h, s), HeldReport(After(h, s)), n).typed
         == t.typed + if n > 0 && s.usage in h.keys then [Stroke(s.usage, ShiftDown(h.mods))] else []
  {
    hide *;
    var start, a := Start(t, h, s), HeldReport(After(h, s));
    StartSeen(t, h, s);
    RestoreEdges(h, s);
    LostPressEdges(h, s);
    AgainSeen(start, a, n);
    AgainNone(start, a);
    assert t.typed + [] == t.typed;
  }

  lemma AgainNone(t: Target, r: Report)
    ensures Again(t, r, 0) == t
  {
  }

  /**
   * Every way the reports of a stroke can go, on a target that agrees with the session: the
   * held report follows the press, or what came before it, `n` times. After a press that never
   * arrived the target has read the stroke or nothing exactly when no report followed or the
   * stroke is safe: otherwise it has read the key without its Shift.
   */
  lemma StrokeRuns(t: Target, h: Report, s: Stroke, n: nat)
    requires ValidKeys(h.keys) && s.usage != 0 && t.kbd == HeldReport(h)
    ensures var a, start := HeldReport(After(h, s)), Start(t, h, s);
      && start.typed == t.typed
      && Again(start.Receive(PressReport(h, s)), a, n).typed
           == t.typed + (if n == 0 then [Under(s, h.mods)] else Seen(h, s))
      && (Again(start, a, n).typed == t.typed || Again(start, a, n).typed == t.typed + [Under(s, h.mods)]
          <==> n == 0 || Safe(h, s))
  {
    StartSeen(t, h, s);
    PressedRuns(t, h, s, n);
    LostRuns(t, h, s, n);
    if s.usage in h.keys {
      SafeStroke(h, s);
      OneStroke(t.typed, Stroke(s.usage, ShiftDown(h.mods)), Under(s, h.mods));
    }
    assert s.usage !in h.keys ==> Safe(h, s);
    hide Start, PressReport, HeldReport, After, Seen, Under, Safe, Again;
    assert t.typed + [] == t.typed;
  }

  /**
   * What a stroke may make the target read: nothing, the stroke, all it shows when it goes through,
   * or, of a held key whose press was lost, the key without its Shift.
   */
  predicate ShowsAtMost(h: Report, s: Stroke, more: seq<Stroke>)
    requires |h.keys| <= KEY_SLOTS
  {
    || more == [] || more == [Under(s, h.mods)] || more == Seen(h, s)
    || (s.usage in h.keys && more == [Stroke(s.usage, ShiftDown(h.mods))])
  }

  /**
   * What a typed stroke may make of a target: exactly its strokes when it went through; never
   * more than the stroke itself when a slot is free and no press can be mistyped.
   */
  predicate Typed(before: Target, after: Target, h: Report, s: Stroke, done: bool)
    requires |h.keys| <= KEY_SLOTS
  {
    && before.typed <= after.typed && ShowsAtMost(h, s, after.typed[|before.typed|..])
    && (done ==> after == Target(HeldReport(After(h, s)), before.typed + Seen(h, s)))
    && (Fits(h, s) && Safe(h, s) ==>
          after.typed == before.typed || after.typed == before.typed + [Under(s, h.mods)])
  }

  lemma StrokeTyped(t: Target, h: Report, s: Stroke, arrived: bool, n: nat, done: bool)
    requires ValidKeys(h.keys) && s.usage != 0 && t.kbd == HeldReport(h)
    requires done ==> arrived && n == 1
    ensures var start := Start(t, h, s);
      Typed(t, Again(if arrived then start.Receive(PressReport(h, s)) else start, HeldReport(After(h, s)), n), h, s, done)
  {
    StrokeRuns(t, h, s, n);
    LostRuns(t, h, s, n);
    assert Fits(h, s) ==> Seen(h, s) == [Under(s, h.mods)];
    ShownAfter(t.typed, h, s);
    hide Start, PressReport, HeldReport, After, Seen, Under, Safe, Fits, Again, ShiftDown, ShowsAtMost, Target.Receive;
  }

  lemma ShownAfter(typed: seq<Stroke>, h: Report, s: Stroke)
    requires |h.keys| <= KEY_SLOTS
    ensures ShowsAtMost(h, s, (typed + [])[|typed|..]) && typed + [] == typed
    ensures ShowsAtMost(h, s, (typed + [Under(s, h.mods)])[|typed|..])
    ensures ShowsAtMost(h, s, (typed + Seen(h, s))[|typed|..])
    ensures s.usage in h.keys ==> ShowsAtMost(h, s, (typed + [Stroke(s.usage, ShiftDown(h.mods))])[|typed|..])
  {
    hide Under, Seen, ShiftDown;
    assert forall more: seq<Stroke> :: (typed + more)[|typed|..] == more;
  }

  /** The release in front of a stroke is not seen, delivered or not. */
  lemma ClearTyped(t: Target, h: Report, s: Stroke)
    requires ValidKeys(h.keys) && s.usage != 0 && t.kbd == HeldReport(h)
    ensures Typed(t, t, h, s, false) && Typed(t, Start(t, h, s), h, s, false)
  {
    StartSeen(t, h, s);
    ShownAfter(t.typed, h, s);
    hide ShowsAtMost;
  }
}
