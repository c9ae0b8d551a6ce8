/**
 * The US keyboard map shared by jetkvm/keys.go and ch9329/src/keys.rs, and the target's side
 * of the keyboard: what it makes of the reports it receives.
 */
module UsKeyboard {
  import opened Bytes

  /** One keystroke: a HID usage, and whether Shift is down with it. */
  datatype Stroke = Stroke(usage: byte, shift: bool)

  /** The bits of a report's modifier byte; a modifier byte is the set of its bits. */
  datatype Mod = LeftControl | LeftShift | LeftAlt | LeftGui | RightControl | RightShift | RightAlt | RightGui

  /** The bits of a mouse report's button byte. */
  datatype Button = Left | Right | Middle

  /** A resolved key name: a modifier bit, or a usage that takes a key slot. */
  datatype Key = Modifier(bit: Mod) | Usage(usage: byte)

  const KEY_SLOTS: nat := 6
  const MAX_TYPE_CHARS: nat := 4096

  function PlainPunct(c: char): Option<byte> {
    match c
    case '-' => Some(0x2D) case '=' => Some(0x2E) case '[' => Some(0x2F) case ']' => Some(0x30)
    case '\\' => Some(0x31) case ';' => Some(0x33) case '\'' => Some(0x34) case '`' => Some(0x35)
    case ',' => Some(0x36) case '.' => Some(0x37) case '/' => Some(0x38)
    case _ => None
  }

  function ShiftedDigitRow(c: char): Option<byte> {
    match c
    case '!' => Some(0x1E) case '@' => Some(0x1F) case '#' => Some(0x20) case '$' => Some(0x21)
    case '%' => Some(0x22) case '^' => Some(0x23) case '&' => Some(0x24) case '*' => Some(0x25)
    case '(' => Some(0x26) case ')' => Some(0x27)
    case _ => None
  }

  function ShiftedPunct(c: char): Option<byte> {
    match c
    case '_' => Some(0x2D) case '+' => Some(0x2E) case '{' => Some(0x2F) case '}' => Some(0x30)
    case '|' => Some(0x31) case ':' => Some(0x33) case '"' => Some(0x34) case '~' => Some(0x35)
    case '<' => Some(0x36) case '>' => Some(0x37) case '?' => Some(0x38)
    case _ => None
  }

  /** The stroke that types `c`, if the layout has one. */
  function CharToUsage(c: char): Option<Stroke> {
    if c == '\n' then Some(Stroke(0x28, false))
    else if c == '\t' then Some(Stroke(0x2B, false))
    else if c == ' ' then Some(Stroke(0x2C, false))
    else if 'a' <= c <= 'z' then Some(Stroke(0x04 + (c as int - 'a' as int), false))
    else if 'A' <= c <= 'Z' then Some(Stroke(0x04 + (c as int - 'A' as int), true))
    else if '1' <= c <= '9' then Some(Stroke(0x1E + (c as int - '1' as int), false))
    else if c == '0' then Some(Stroke(0x27, false))
    else if PlainPunct(c).Some? then Some(Stroke(PlainPunct(c).value, false))
    else if ShiftedDigitRow(c).Some? then Some(Stroke(ShiftedDigitRow(c).value, true))
    else if ShiftedPunct(c).Some? then Some(Stroke(ShiftedPunct(c).value, true))
    else None
  }

  /** The character a US target reads from a stroke, row by row of the keyboard. */
  function CharOf(s: Stroke): Option<char> {
    var Stroke(u, shift) := s;
    if 0x04 <= u <= 0x1D then
      Some(((if shift then 'A' else 'a') as int + u - 0x04) as char)
    else if 0x1E <= u <= 0x27 then
      Some((if shift then "!@#$%^&*()" else "1234567890")[u - 0x1E])
    else if 0x2D <= u <= 0x31 then
      Some((if shift then "_+{}|" else "-=[]\\")[u - 0x2D])
    else if 0x33 <= u <= 0x38 then
      Some((if shift then ":\"~<>?" else ";'`,./")[u - 0x33])
    else if shift then None
    else if u == 0x28 then Some('\n')
    else if u == 0x2B then Some('\t')
    else if u == 0x2C then Some(' ')
    else None
  }

  lemma PlainPunctThenLayout(c: char)
    ensures PlainPunct(c).Some? ==> CharOf(Stroke(PlainPunct(c).value, false)) == Some(c)
  {
  }

  lemma ShiftedDigitsThenLayout(c: char)
    ensures ShiftedDigitRow(c).Some? ==> CharOf(Stroke(ShiftedDigitRow(c).value, true)) == Some(c)
  {
  }

  lemma ShiftedPunctThenLayout(c: char)
    ensures ShiftedPunct(c).Some? ==> CharOf(Stroke(ShiftedPunct(c).value, true)) == Some(c)
  {
  }

  lemma MapThenLayout(c: char)
    ensures CharToUsage(c).Some? ==> CharOf(CharToUsage(c).value) == Some(c)
  {
    PlainPunctThenLayout(c);
    ShiftedDigitsThenLayout(c);
    ShiftedPunctThenLayout(c);
    hide PlainPunct, ShiftedDigitRow, ShiftedPunct;
  }

  lemma DigitRow(u: byte, shift: bool)
    requires 0x1E <= u <= 0x27
    ensures CharToUsage(CharOf(Stroke(u, shift)).value) == Some(Stroke(u, shift))
  {
    if shift {
      assert "!@#$%^&*()"[u - 0x1E] in "!@#$%^&*()";
    }
  }

  lemma BracketRow(u: byte, shift: bool)
    requires 0x2D <= u <= 0x31
    ensures CharToUsage(CharOf(Stroke(u, shift)).value) == Some(Stroke(u, shift))
  {
    assert "_+{}|"[u - 0x2D] in "_+{}|";
  }

  lemma CommaRow(u: byte, shift: bool)
    requires 0x33 <= u <= 0x38
    ensures CharToUsage(CharOf(Stroke(u, shift)).value) == Some(Stroke(u, shift))
  {
    assert ":\"~<>?"[u - 0x33] in ":\"~<>?";
  }

  lemma LayoutThenMap(s: Stroke)
    ensures CharOf(s).Some? ==> CharToUsage(CharOf(s).value) == Some(s)
  {
    var u := s.usage;
    if 0x1E <= u <= 0x27 {
      DigitRow(u, s.shift);
    } else if 0x2D <= u <= 0x31 {
      BracketRow(u, s.shift);
    } else if 0x33 <= u <= 0x38 {
      CommaRow(u, s.shift);
    }
  }

  /** The map and the layout agree in both directions; in particular the map is injective. */
  lemma KeymapInverse(c: char, s: Stroke)
    ensures CharToUsage(c) == Some(s) <==> CharOf(s) == Some(c)
  {
    MapThenLayout(c);
    LayoutThenMap(s);
    hide CharToUsage, CharOf;
  }

  // -- text -----------------------------------------------------------------------------

  /** The strokes of a text, or None when a character is not on the layout. */
  function StrokesFor(text: string): Option<seq<Stroke>> {
    if text == "" then Some([])
    else
      match (CharToUsage(text[0]), StrokesFor(text[1..]))
      case (Some(s), Some(rest)) => Some([s] + rest)
      case _ => None
  }

  function ReadText(strokes: seq<Stroke>): Option<string> {
    if strokes == [] then Some("")
    else
      match (CharOf(strokes[0]), ReadText(strokes[1..]))
      case (Some(c), Some(rest)) => Some([c] + rest)
      case _ => None
  }

  /** What the target reads from the strokes of a text is that text. */
  lemma {:induction false} ReadTextInverts(text: string)
    requires StrokesFor(text).Some?
    ensures ReadText(StrokesFor(text).value) == Some(text)
  {
    hide CharToUsage, CharOf;
    if text != "" {
      ReadTextInverts(text[1..]);
      var s := CharToUsage(text[0]).value;
      KeymapInverse(text[0], s);
      assert StrokesFor(text).value == [s] + StrokesFor(text[1..]).value;
      assert StrokesFor(text).value[1..] == StrokesFor(text[1..]).value;
      assert text == [text[0]] + text[1..];
    }
  }

  lemma {:induction false} StrokesForLength(text: string)
    ensures StrokesFor(text).Some? ==> |StrokesFor(text).value| == |text|
  {
    if text != "" {
      StrokesForLength(text[1..]);
    }
  }

  // -- the target -----------------------------------------------------------------------

  /** A keyboard report. A zero in `keys` is an empty slot. */
  datatype Report = Report(mods: set<Mod>, keys: seq<byte>)

  /** The keys of `keys` that were not down before, in slot order. */
  function NewKeys(before: seq<byte>, keys: seq<byte>): seq<byte> {
    if keys == [] then []
    else (if keys[0] == 0 || keys[0] in before then [] else [keys[0]]) + NewKeys(before, keys[1..])
  }

  function WithShift(keys: seq<byte>, shift: bool): (r: seq<Stroke>)
    ensures |r| == |keys|
  {
    seq(|keys|, i requires 0 <= i < |keys| => Stroke(keys[i], shift))
  }

  predicate ShiftDown(mods: set<Mod>) { LeftShift in mods || RightShift in mods }

  /** The strokes the target sees when `next` replaces `prev`: one per newly pressed key. */
  function Edges(prev: Report, next: Report): seq<Stroke> {
    WithShift(NewKeys(prev.keys, next.keys), ShiftDown(next.mods))
  }

  /** A target: the report it holds, and every stroke it has seen. */
  datatype Target = Target(kbd: Report, typed: seq<Stroke>) {
    function Receive(r: Report): Target {
      Target(r, typed + Edges(kbd, r))
    }
  }

  lemma {:induction false} NoNewKeys(before: seq<byte>, keys: seq<byte>)
    requires forall k <- keys :: k == 0 || k in before
    ensures NewKeys(before, keys) == []
  {
    if keys != [] {
      assert keys[0] in keys;
      assert forall k <- keys[1..] :: k in keys;
      NoNewKeys(before, keys[1..]);
    }
  }

  lemma {:induction false} NewKeysConcat(before: seq<byte>, a: seq<byte>, b: seq<byte>)
    ensures NewKeys(before, a + b) == NewKeys(before, a) + NewKeys(before, b)
  {
    if a == [] {
      assert a + b == b;
    } else {
      var first := if a[0] == 0 || a[0] in before then [] else [a[0]];
      NewKeysConcat(before, a[1..], b);
      assert (a + b)[1..] == a[1..] + b;
      assert NewKeys(before, a) == first + NewKeys(before, a[1..]);
      assert NewKeys(before, a + b) == first + NewKeys(before, a[1..] + b);
    }
  }

  // -- held keys ------------------------------------------------------------------------

  ghost predicate NoDuplicates(keys: seq<byte>) {
    forall i, j | 0 <= i < j < |keys| :: keys[i] != keys[j]
  }

  /** What a session may hold: at most six distinct, real keys. */
  ghost predicate ValidKeys(keys: seq<byte>) {
    |keys| <= KEY_SLOTS && 0 !in keys && NoDuplicates(keys)
  }

  function KeySet(keys: seq<byte>): set<byte> { set k | k in keys }

  lemma {:induction false} DistinctCount(keys: seq<byte>)
    requires NoDuplicates(keys)
    ensures |KeySet(keys)| == |keys|
  {
    if keys != [] {
      DistinctCount(keys[1..]);
      assert KeySet(keys) == {keys[0]} + KeySet(keys[1..]);
      assert keys[0] !in KeySet(keys[1..]);
    }
  }

  /** The usages among the keys of a chord. */
  function Usages(chord: seq<Key>): set<byte> {
    set k | k in chord && k.Usage? :: k.usage
  }

  lemma UsagesSplit(chord: seq<Key>)
    requires chord != []
    ensures Usages(chord) == (if chord[0].Usage? then {chord[0].usage} else {}) + Usages(chord[1..])
  {
    assert chord == [chord[0]] + chord[1..];
  }

  function Without(keys: seq<byte>, u: byte): (r: seq<byte>)
    ensures forall k :: k in r <==> k in keys && k != u
    ensures u !in keys ==> r == keys
  {
    if keys == [] then []
    else (if keys[0] == u then [] else [keys[0]]) + Without(keys[1..], u)
  }

  lemma WithoutFirst(keys: seq<byte>, u: byte)
    requires keys != []
    ensures Without(keys, u) == (if keys[0] == u then [] else [keys[0]]) + Without(keys[1..], u)
  {
  }

  lemma {:induction false} WithoutValid(keys: seq<byte>, u: byte)
    requires NoDuplicates(keys)
    ensures NoDuplicates(Without(keys, u))
    ensures |Without(keys, u)| == if u in keys then |keys| - 1 else |keys|
  {
    if keys != [] {
      var rest := keys[1..];
      assert keys[0] !in rest;
      WithoutValid(rest, u);
      if keys[0] == u {
        assert Without(keys, u) == rest;
      } else {
        assert Without(keys, u) == [keys[0]] + Without(rest, u);
        assert keys[0] !in Without(rest, u);
        assert u in keys <==> u in rest;
      }
    }
  }

  /** A stroke as the target sees it, with Shift held or not. */
  function Under(s: Stroke, mods: set<Mod>): Stroke {
    Stroke(s.usage, s.shift || ShiftDown(mods))
  }

  function AllUnder(ss: seq<Stroke>, mods: set<Mod>): (r: seq<Stroke>)
    ensures |r| == |ss|
    ensures !ShiftDown(mods) ==> r == ss
  {
    seq(|ss|, i requires 0 <= i < |ss| => Under(ss[i], mods))
  }

  /** Pressing one more key on top of what is down is seen as exactly that stroke. */
  lemma PressSeen(prev: Report, next: Report, a: seq<byte>, u: byte, b: seq<byte>)
    requires u != 0 && u !in prev.keys
    requires next.keys == a + [u] + b && forall k <- a + b :: k == 0 || k in prev.keys
    ensures Edges(prev, next) == [Stroke(u, ShiftDown(next.mods))]
  {
    assert forall k <- a :: k in a + b;
    assert forall k <- b :: k in a + b;
    NewKeysConcat(prev.keys, a + [u], b);
    NewKeysConcat(prev.keys, a, [u]);
    NoNewKeys(prev.keys, a);
    NoNewKeys(prev.keys, b);
    assert [u][1..] == [];
    assert NewKeys(prev.keys, [u]) == [u];
  }

  /** A report that presses nothing new is seen as no stroke. */
  lemma NothingSeen(prev: Report, next: Report)
    requires forall k <- next.keys :: k == 0 || k in prev.keys
    ensures Edges(prev, next) == []
  {
    NoNewKeys(prev.keys, next.keys);
  }

  ghost predicate Real(ss: seq<Stroke>) {
    forall s <- ss :: s.usage != 0
  }

  lemma RealRest(ss: seq<Stroke>)
    requires Real(ss) && ss != []
    ensures ss[0].usage != 0 && Real(ss[1..])
  {
    assert ss[0] in ss && forall s <- ss[1..] :: s in ss;
  }

  lemma OneStroke(typed: seq<Stroke>, a: Stroke, b: Stroke)
    ensures typed + [a] == typed + [b] <==> a == b
    ensures typed + [a] != typed
  {
    assert (typed + [a])[|typed|] == a && (typed + [b])[|typed|] == b;
  }

  lemma AllUnderParts(ss: seq<Stroke>, mods: set<Mod>)
    requires ss != []
    ensures AllUnder(ss, mods) == [Under(ss[0], mods)] + AllUnder(ss[1..], mods)
  {
    hide Under;
  }

  lemma AfterFirst(typed: seq<Stroke>, ss: seq<Stroke>, mods: set<Mod>)
    requires ss != []
    ensures typed + [Under(ss[0], mods)] + AllUnder(ss[1..], mods) == typed + AllUnder(ss, mods)
  {
    AllUnderParts(ss, mods);
    hide *;
    var a, b := [Under(ss[0], mods)], AllUnder(ss[1..], mods);
    assert typed + a + b == typed + (a + b);
  }

  // -- prefixes -------------------------------------------------------------------------

  /** What was read since `before` is a beginning of the strokes: none twice, none out of order. */
  ghost predicate ReadPrefix(before: seq<Stroke>, after: seq<Stroke>, ss: seq<Stroke>, mods: set<Mod>) {
    exists n | 0 <= n <= |ss| :: after == before + AllUnder(ss, mods)[..n]
  }

  lemma PrefixOfNone(before: seq<Stroke>, ss: seq<Stroke>, mods: set<Mod>)
    ensures ReadPrefix(before, before, ss, mods)
  {
    assert before + AllUnder(ss, mods)[..0] == before;
  }

  lemma PrefixExtends(before: seq<Stroke>, after: seq<Stroke>, ss: seq<Stroke>, mods: set<Mod>)
    requires ss != [] && ReadPrefix(before + [Under(ss[0], mods)], after, ss[1..], mods)
    ensures ReadPrefix(before, after, ss, mods)
  {
    hide Under;
    var one := [Under(ss[0], mods)];
    var n :| 0 <= n <= |ss[1..]| && after == before + one + AllUnder(ss[1..], mods)[..n];
    assert AllUnder(ss, mods)[..n + 1] == one + AllUnder(ss[1..], mods)[..n];
    assert after == before + AllUnder(ss, mods)[..n + 1];
  }

  lemma PrefixOfOne(before: seq<Stroke>, ss: seq<Stroke>, mods: set<Mod>)
    requires ss != []
    ensures ReadPrefix(before, before + [Under(ss[0], mods)], ss, mods)
  {
    PrefixOfNone(before + [Under(ss[0], mods)], ss[1..], mods);
    PrefixExtends(before, before + [Under(ss[0], mods)], ss, mods);
  }

  lemma NoPrefix(before: seq<Stroke>, ss: seq<Stroke>, mods: set<Mod>, wrong: Stroke)
    requires ss != [] && wrong != Under(ss[0], mods)
    ensures !ReadPrefix(before, before + [wrong], ss, mods)
  {
    var after := before + [wrong];
    forall n | 0 <= n <= |ss|
      ensures after != before + AllUnder(ss, mods)[..n]
    {
      if n > 0 {
        assert (before + AllUnder(ss, mods)[..n])[|before|] == Under(ss[0], mods);
      }
    }
  }

  lemma NoPrefixLater(before: seq<Stroke>, after: seq<Stroke>, ss: seq<Stroke>, mods: set<Mod>)
    requires ss != [] && before + [Under(ss[0], mods)] < after
    requires !ReadPrefix(before + [Under(ss[0], mods)], after, ss[1..], mods)
    ensures !ReadPrefix(before, after, ss, mods)
  {
    hide Under;
    var one := [Under(ss[0], mods)];
    forall n | 0 <= n <= |ss|
      ensures after != before + AllUnder(ss, mods)[..n]
    {
      if n > 0 {
        assert AllUnder(ss, mods)[..n] == one + AllUnder(ss[1..], mods)[..n - 1];
        assert before + AllUnder(ss, mods)[..n] == before + one + AllUnder(ss[1..], mods)[..n - 1];
      }
    }
  }
}
