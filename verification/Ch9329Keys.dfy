/**
 * The held keyboard state of ch9329/src/session.rs and the reports made from it, as
 * functions: pressing and releasing chords, and the reports of `type`.
 */
module Ch9329Keys {
  import opened Bytes
  import opened UsKeyboard

  // -- held state -----------------------------------------------------------------------

  /** A held state is a report without its empty slots. */
  function Down(h: Report, k: Key): Report {
    match k
    case Modifier(bit) => h.(mods := h.mods + {bit})
    case Usage(u) => if u !in h.keys && |h.keys| < KEY_SLOTS then h.(keys := h.keys + [u]) else h
  }

  function Up(h: Report, k: Key): Report {
    match k
    case Modifier(bit) => h.(mods := h.mods - {bit})
    case Usage(u) => h.(keys := Without(h.keys, u))
  }

  function DownAll(h: Report, chord: seq<Key>): Report
    decreases |chord|
  {
    if chord == [] then h else DownAll(Down(h, chord[0]), chord[1..])
  }

  function UpAll(h: Report, chord: seq<Key>): Report
    decreases |chord|
  {
    if chord == [] then h else UpAll(Up(h, chord[0]), chord[1..])
  }

  /** The usages of a chord that take a slot of their own, each once. */
  function NewUsages(chord: seq<Key>, held: seq<byte>, found: seq<byte>): seq<byte>
    decreases |chord|
  {
    if chord == [] then found
    else
      NewUsages(chord[1..], held,
                if chord[0].Usage? && chord[0].usage !in found && chord[0].usage !in held
                then found + [chord[0].usage] else found)
  }

  function KeysNeeded(chord: seq<Key>, held: seq<byte>): nat {
    |held| + |NewUsages(chord, held, [])|
  }

  lemma {:induction false} NewUsagesSound(chord: seq<Key>, held: seq<byte>, found: seq<byte>)
    requires NoDuplicates(held + found)
    ensures var all := held + NewUsages(chord, held, found);
      NoDuplicates(all) && KeySet(all) == KeySet(held + found) + Usages(chord)
    decreases |chord|
  {
    if chord == [] {
      assert Usages(chord) == {};
    } else {
      UsagesSplit(chord);
      var k := chord[0];
      var found' := if k.Usage? && k.usage !in found && k.usage !in held then found + [k.usage] else found;
      if found' != found {
        assert held + found' == (held + found) + [k.usage];
        assert KeySet(held + found') == KeySet(held + found) + {k.usage};
      } else if k.Usage? {
        assert k.usage in held + found;
      }
      NewUsagesSound(chord[1..], held, found');
    }
  }

  /** The slot count of a chord is the size of the union of held and chord keys. */
  lemma KeysNeededCounts(chord: seq<Key>, held: seq<byte>)
    requires NoDuplicates(held)
    ensures KeysNeeded(chord, held) == |KeySet(held) + Usages(chord)|
  {
    assert held + [] == held;
    NewUsagesSound(chord, held, []);
    DistinctCount(held + NewUsages(chord, held, []));
  }

  /** One key of a chord that fits. */
  lemma DownOne(h: Report, k: Key, all: set<byte>)
    requires ValidKeys(h.keys) && k != Usage(0)
    requires KeySet(h.keys) + (if k.Usage? then {k.usage} else {}) <= all && |all| <= KEY_SLOTS
    ensures ValidKeys(Down(h, k).keys)
    ensures KeySet(Down(h, k).keys) == KeySet(h.keys) + if k.Usage? then {k.usage} else {}
  {
    if k.Usage? {
      DistinctCount(h.keys);
      SubsetSize(KeySet(h.keys) + {k.usage}, all);
      if k.usage in h.keys {
        assert k.usage in KeySet(h.keys);
      } else {
        assert k.usage !in KeySet(h.keys);
      }
    }
  }

  lemma Regroup(a: set<byte>, b: set<byte>, c: set<byte>)
    ensures a + (b + c) == (a + b) + c && a + b <= a + (b + c)
  {
  }

  /** Six slots suffice: pressing the chord leaves exactly the union down. */
  lemma {:induction false} DownAllHoldsUnion(h: Report, chord: seq<Key>)
    requires ValidKeys(h.keys) && Usage(0) !in chord
    requires |KeySet(h.keys) + Usages(chord)| <= KEY_SLOTS
    ensures ValidKeys(DownAll(h, chord).keys)
    ensures KeySet(DownAll(h, chord).keys) == KeySet(h.keys) + Usages(chord)
    decreases |chord|
  {
    if chord == [] {
      assert Usages(chord) == {};
    } else {
      UsagesSplit(chord);
      var h' := Down(h, chord[0]);
      hide KeySet, Usages, Down, ValidKeys;
      Regroup(KeySet(h.keys), if chord[0].Usage? then {chord[0].usage} else {}, Usages(chord[1..]));
      DownOne(h, chord[0], KeySet(h.keys) + Usages(chord));
      DownAllHoldsUnion(h', chord[1..]);
    }
  }

  /** Whatever the chord, pressing keeps the held keys in front, and takes no slot twice. */
  lemma {:induction false} DownAllExtends(h: Report, chord: seq<Key>)
    requires ValidKeys(h.keys) && Usage(0) !in chord
    ensures ValidKeys(DownAll(h, chord).keys) && h.keys <= DownAll(h, chord).keys
    ensures forall u :: u in DownAll(h, chord).keys ==> u in h.keys || Usage(u) in chord
    decreases |chord|
  {
    if chord != [] {
      DownAllExtends(Down(h, chord[0]), chord[1..]);
    }
  }

  /** `keys` without those of a chord. */
  function Minus(keys: seq<byte>, chord: seq<Key>): seq<byte>
    decreases |chord|
  {
    if chord == [] then keys
    else Minus(match chord[0] case Usage(u) => Without(keys, u) case Modifier(_) => keys, chord[1..])
  }

  /** The modifier bits of a chord. */
  function ChordMods(chord: seq<Key>): set<Mod> {
    set k | k in chord && k.Modifier? :: k.bit
  }

  lemma ChordModsSplit(chord: seq<Key>)
    requires chord != []
    ensures ChordMods(chord) == (if chord[0].Modifier? then {chord[0].bit} else {}) + ChordMods(chord[1..])
  {
    assert chord == [chord[0]] + chord[1..];
  }

  lemma {:induction false} WithoutConcat(a: seq<byte>, b: seq<byte>, u: byte)
    ensures Without(a + b, u) == Without(a, u) + Without(b, u)
  {
    hide Without;
    if a == [] {
      assert a + b == b;
    } else {
      WithoutConcat(a[1..], b, u);
      assert (a + b)[1..] == a[1..] + b;
      WithoutFirst(a, u);
      WithoutFirst(a + b, u);
    }
  }

  lemma {:induction false} UpAllIsMinus(h: Report, chord: seq<Key>)
    ensures UpAll(h, chord) == Report(h.mods - ChordMods(chord), Minus(h.keys, chord))
    decreases |chord|
  {
    if chord == [] {
      assert ChordMods(chord) == {};
    } else {
      ChordModsSplit(chord);
      UpAllIsMinus(Up(h, chord[0]), chord[1..]);
    }
  }

  lemma {:induction false} MinusConcat(a: seq<byte>, b: seq<byte>, chord: seq<Key>)
    ensures Minus(a + b, chord) == Minus(a, chord) + Minus(b, chord)
    decreases |chord|
  {
    if chord != [] {
      match chord[0]
      case Usage(u) =>
        WithoutConcat(a, b, u);
        MinusConcat(Without(a, u), Without(b, u), chord[1..]);
      case Modifier(_) =>
        MinusConcat(a, b, chord[1..]);
    }
  }

  lemma {:induction false} MinusMember(keys: seq<byte>, chord: seq<Key>)
    ensures forall k :: k in Minus(keys, chord) <==> k in keys && Usage(k) !in chord
    decreases |chord|
  {
    if chord != [] {
      var keys' := match chord[0] case Usage(u) => Without(keys, u) case Modifier(_) => keys;
      MinusMember(keys', chord[1..]);
    }
  }

  lemma {:induction false} MinusValid(keys: seq<byte>, chord: seq<Key>)
    requires ValidKeys(keys)
    ensures ValidKeys(Minus(keys, chord))
    decreases |chord|
  {
    if chord != [] {
      match chord[0]
      case Usage(u) =>
        WithoutValid(keys, u);
        MinusValid(Without(keys, u), chord[1..]);
      case Modifier(_) =>
        MinusValid(keys, chord[1..]);
    }
  }

  /**
   * Pressing a chord and releasing it leaves the held state minus the chord: a key or
   * modifier of the chord that was held before is dropped, every other keeps its slot order.
   */
  lemma ChordLeavesMinus(h: Report, chord: seq<Key>)
    requires ValidKeys(h.keys) && Usage(0) !in chord
    ensures UpAll(DownAll(h, chord), chord) == Report(h.mods - ChordMods(chord), Minus(h.keys, chord))
    ensures ValidKeys(Minus(h.keys, chord))
    ensures forall k :: k in Minus(h.keys, chord) <==> k in h.keys && Usage(k) !in chord
    ensures (forall u <- h.keys :: Usage(u) !in chord) ==> Minus(h.keys, chord) == h.keys
  {
    UpAllIsMinus(DownAll(h, chord), chord);
    DownAllMods(h, chord);
    PressedGone(h, chord);
    MinusMember(h.keys, chord);
    MinusValid(h.keys, chord);
    if forall u <- h.keys :: Usage(u) !in chord {
      MinusNothing(h.keys, chord);
    }
  }

  /** Every key a chord added goes with it. */
  lemma PressedGone(h: Report, chord: seq<Key>)
    requires ValidKeys(h.keys) && Usage(0) !in chord
    ensures Minus(DownAll(h, chord).keys, chord) == Minus(h.keys, chord)
  {
    var p := DownAll(h, chord);
    DownAllExtends(h, chord);
    var extra := p.keys[|h.keys|..];
    assert p.keys == h.keys + extra;
    MinusConcat(h.keys, extra, chord);
    forall u | u in extra
      ensures Usage(u) in chord
    {
      var i :| 0 <= i < |extra| && extra[i] == u;
      assert p.keys[|h.keys| + i] == u && u in p.keys;
      assert u !in h.keys;
    }
    MinusMember(extra, chord);
    MinusValid(extra, chord);
    assert KeySet(Minus(extra, chord)) == {};
    DistinctCount(Minus(extra, chord));
  }

  lemma {:induction false} MinusNothing(keys: seq<byte>, chord: seq<Key>)
    requires forall u <- keys :: Usage(u) !in chord
    ensures Minus(keys, chord) == keys
    decreases |chord|
  {
    hide Without;
    if chord != [] {
      match chord[0]
      case Usage(u) =>
        assert u !in keys;
        MinusNothing(keys, chord[1..]);
      case Modifier(_) =>
        MinusNothing(keys, chord[1..]);
    }
  }

  lemma {:induction false} DownAllMods(h: Report, chord: seq<Key>)
    ensures DownAll(h, chord).mods == h.mods + ChordMods(chord)
    decreases |chord|
  {
    if chord == [] {
      assert ChordMods(chord) == {};
    } else {
      ChordModsSplit(chord);
      DownAllMods(Down(h, chord[0]), chord[1..]);
    }
  }
}
