/**
 * splitAnnexB of jetkvm/video.go: the NAL units of an H.264 byte stream (Annex B.1). The
 * inverse of joining units with start codes.
 */
module AnnexB {
  import opened Bytes
  import H264Sps

  // -- what the splitter returns --------------------------------------------------------

  function TrimZeros(b: seq<byte>): (r: seq<byte>)
    ensures r <= b && (r != [] ==> r[|r| - 1] != 0)
    ensures forall i :: |r| <= i < |b| ==> b[i] == 0
  {
    if b != [] && b[|b| - 1] == 0 then TrimZeros(b[..|b| - 1]) else b
  }

  /** A three-byte start code 00 00 01 at `i`. */
  predicate CodeAt(b: seq<byte>, i: nat) {
    i + 2 < |b| && b[i] == 0 && b[i + 1] == 0 && b[i + 2] == 1
  }

  /** One unit if it is not empty. */
  function Unit(b: seq<byte>): seq<seq<byte>> {
    if TrimZeros(b) == [] then [] else [TrimZeros(b)]
  }

  /** The units from position `i` on, the current one having begun at `start`. */
  function UnitsFrom(b: seq<byte>, start: nat, i: nat): seq<seq<byte>>
    requires start <= i <= |b|
    decreases |b| - i
  {
    if i + 2 >= |b| then Unit(b[start..])
    else if CodeAt(b, i) then Unit(b[start..i]) + UnitsFrom(b, i + 3, i + 3)
    else UnitsFrom(b, start, i + 1)
  }

  /** The units of `b`, what precedes the first start code being skipped. */
  function Units(b: seq<byte>, i: nat): seq<seq<byte>>
    requires i <= |b|
    decreases |b| - i
  {
    if i + 2 >= |b| then []
    else if CodeAt(b, i) then UnitsFrom(b, i + 3, i + 3)
    else Units(b, i + 1)
  }

  function NonEmpty(units: seq<seq<byte>>): seq<seq<byte>> {
    if units == [] then []
    else (if units[0] == [] then [] else [units[0]]) + NonEmpty(units[1..])
  }

  lemma {:induction false} NonEmptyConcat(a: seq<seq<byte>>, b: seq<seq<byte>>)
    ensures NonEmpty(a + b) == NonEmpty(a) + NonEmpty(b)
  {
    if a == [] {
      assert a + b == b;
    } else {
      assert (a + b)[1..] == a[1..] + b;
      NonEmptyConcat(a[1..], b);
    }
  }

  lemma NonEmptyOne(a: seq<seq<byte>>, u: seq<byte>)
    ensures NonEmpty(a + [TrimZeros(u)]) == NonEmpty(a) + Unit(u)
  {
    NonEmptyConcat(a, [TrimZeros(u)]);
    assert [TrimZeros(u)][1..] == [];
  }

  // -- the splitter ---------------------------------------------------------------------

  method Trim(b: seq<byte>) returns (r: seq<byte>)
    ensures r == TrimZeros(b)
  {
    r := b;
    while |r| > 0 && r[|r| - 1] == 0
      invariant TrimZeros(r) == TrimZeros(b)
    {
      r := r[..|r| - 1];
    }
  }

  lemma CodeFound(b: seq<byte>, start: nat, i: nat, out: seq<seq<byte>>)
    requires start <= i && CodeAt(b, i)
    ensures NonEmpty(out) + UnitsFrom(b, start, i) ==
      NonEmpty(out + [TrimZeros(b[start..i])]) + UnitsFrom(b, i + 3, i + 3)
  {
    NonEmptyOne(out, b[start..i]);
    hide NonEmpty, TrimZeros, Unit;
  }

  lemma CodeFoundFirst(b: seq<byte>, i: nat)
    requires CodeAt(b, i)
    ensures Units(b, i) == UnitsFrom(b, i + 3, i + 3)
  {
  }

  lemma NoCode(b: seq<byte>, start: nat, i: nat)
    requires start <= i && i + 2 < |b| && !CodeAt(b, i)
    ensures UnitsFrom(b, start, i) == UnitsFrom(b, start, i + 1)
  {
    hide Unit, TrimZeros;
  }

  lemma NoCodeFirst(b: seq<byte>, i: nat)
    requires i + 2 < |b| && !CodeAt(b, i)
    ensures Units(b, i) == Units(b, i + 1)
  {
  }

  lemma LastUnit(b: seq<byte>, start: nat, i: nat, out: seq<seq<byte>>)
    requires start <= i <= |b| <= i + 2
    ensures NonEmpty(out) + UnitsFrom(b, start, i) == NonEmpty(out + [TrimZeros(b[start..])])
    ensures start == |b| ==> NonEmpty(out + [TrimZeros(b[start..])]) == NonEmpty(out)
  {
    NonEmptyOne(out, b[start..]);
    hide NonEmpty;
  }

  method SplitAnnexB(b: seq<byte>) returns (res: seq<seq<byte>>)
    ensures res == Units(b, 0)
  {
    var out: seq<seq<byte>> := [];
    assert NonEmpty(out) == [];
    hide NonEmpty, TrimZeros, Unit, UnitsFrom, Units;
    var start, i := -1, 0;
    while i + 2 < |b|
      invariant -1 <= start <= i <= |b| && 0 <= i
      invariant start < 0 ==> out == [] && Units(b, 0) == Units(b, i)
      invariant start >= 0 ==> Units(b, 0) == NonEmpty(out) + UnitsFrom(b, start, i)
    {
      if b[i] == 0 && b[i + 1] == 0 && b[i + 2] == 1 {
        if start >= 0 {
          CodeFound(b, start, i, out);
          var unit := Trim(b[start..i]);
          out := out + [unit];
        } else {
          CodeFoundFirst(b, i);
          assert NonEmpty(out) + UnitsFrom(b, i + 3, i + 3) == UnitsFrom(b, i + 3, i + 3);
        }
        start := i + 3;
        i := i + 2;
      } else if start >= 0 {
        NoCode(b, start, i);
      } else {
        NoCodeFirst(b, i);
      }
      i := i + 1;
    }
    if start >= 0 {
      LastUnit(b, start, i, out);
    } else {
      NoUnit(b, i);
    }
    if start >= 0 && start < |b| {
      var unit := Trim(b[start..]);
      out := out + [unit];
    }
    res := KeepNonEmpty(out);
  }

  lemma NoUnit(b: seq<byte>, i: nat)
    requires i <= |b| <= i + 2
    ensures Units(b, i) == []
  {
  }

  method KeepNonEmpty(out: seq<seq<byte>>) returns (res: seq<seq<byte>>)
    ensures res == NonEmpty(out)
  {
    res := [];
    for k := 0 to |out|
      invariant res + NonEmpty(out[k..]) == NonEmpty(out)
    {
      assert out[k..][1..] == out[k + 1..];
      assert NonEmpty(out[k..]) == (if out[k] == [] then [] else [out[k]]) + NonEmpty(out[k + 1..]);
      if |out[k]| > 0 {
        res := res + [out[k]];
      }
    }
  }

  // -- joining, and the round trip ------------------------------------------------------

  /** One unit of a stream: `zeros` zero bytes, a one, and the unit. */
  datatype Part = Part(zeros: nat, nal: seq<byte>)

  function Join(parts: seq<Part>, trailing: nat): seq<byte> {
    if parts == [] then Repeat<byte>(0, trailing)
    else Repeat<byte>(0, parts[0].zeros) + [1] + parts[0].nal + Join(parts[1..], trailing)
  }

  /** What Annex B.1 and section 7.4.1 require of a unit: no start code inside, no zero at the end. */
  ghost predicate IsNal(n: seq<byte>) {
    n != [] && n[|n| - 1] != 0 && forall i | 0 <= i :: !CodeAt(n, i)
  }

  ghost predicate IsPart(p: Part) { p.zeros >= 2 && IsNal(p.nal) }

  function Nals(parts: seq<Part>): seq<seq<byte>> {
    seq(|parts|, i requires 0 <= i < |parts| => parts[i].nal)
  }

  /** Scanning past positions that hold no start code. */
  lemma {:induction false} SkipTo(b: seq<byte>, start: nat, i: nat, j: nat)
    requires start <= i <= j <= |b|
    requires forall k :: i <= k < j ==> !CodeAt(b, k)
    requires j + 2 < |b| || j == |b|
    ensures UnitsFrom(b, start, i) == if j == |b| then Unit(b[start..]) else UnitsFrom(b, start, j)
    decreases j - i
  {
    if i < j && i + 2 < |b| {
      SkipTo(b, start, i + 1, j);
    }
  }

  lemma TrimmedUnit(n: seq<byte>, zeros: nat)
    requires IsNal(n)
    ensures Unit(n + Repeat<byte>(0, zeros)) == [n]
  {
    var t := TrimZeros(n + Repeat<byte>(0, zeros));
    assert (n + Repeat<byte>(0, zeros))[|n| - 1] == n[|n| - 1];
    assert |t| >= |n|;
    assert t == (n + Repeat<byte>(0, zeros))[..|n|] == n;
  }

  /** No start code begins inside a unit or in the zeros behind it before the last two. */
  lemma NoCodeInside(b: seq<byte>, start: nat, n: seq<byte>, zeros: nat, k: nat)
    requires IsNal(n) && start + |n| + zeros <= |b| && b[start..start + |n| + zeros] == n + Repeat<byte>(0, zeros)
    requires start <= k && k + 2 < start + |n| + zeros
    ensures !CodeAt(b, k)
  {
    var s := n + Repeat<byte>(0, zeros);
    assert b[k] == s[k - start] && b[k + 1] == s[k + 1 - start] && b[k + 2] == s[k + 2 - start];
    if k + 2 < start + |n| {
      assert !CodeAt(n, k - start);
    }
  }

  /** The last unit of a stream, with the zeros behind it. */
  lemma SplitsLast(b: seq<byte>, start: nat, n: seq<byte>, zeros: nat)
    requires start <= |b| && IsNal(n) && b[start..] == n + Repeat<byte>(0, zeros)
    ensures UnitsFrom(b, start, start) == [n]
  {
    forall k | start <= k < |b|
      ensures !CodeAt(b, k)
    {
      if k + 2 < |b| {
        NoCodeInside(b, start, n, zeros, k);
      }
    }
    SkipTo(b, start, start, |b|);
    TrimmedUnit(n, zeros);
  }

  /** Where the pieces of `n`, its zeros and the start code's one lie in `b`. */
  lemma Layout(b: seq<byte>, start: nat, n: seq<byte>, zeros: nat, tail: seq<byte>)
    requires start <= |b| && zeros >= 2 && b[start..] == n + Repeat<byte>(0, zeros) + [1] + tail
    ensures var stop := start + |n| + zeros - 2;
      && stop + 3 <= |b| && CodeAt(b, stop) && b[stop + 3..] == tail
      && b[start..stop + 2] == n + Repeat<byte>(0, zeros) && b[start..stop] == n + Repeat<byte>(0, zeros - 2)
  {
    var whole := n + Repeat<byte>(0, zeros) + [1] + tail;
    var m := |n| + zeros;
    assert b[start + m - 2] == whole[m - 2] && b[start + m - 1] == whole[m - 1] && b[start + m] == whole[m];
    assert whole[..m] == n + Repeat<byte>(0, zeros);
    assert whole[..m - 2] == n + Repeat<byte>(0, zeros - 2);
    assert whole[m + 1..] == tail;
    assert b[start..][..m] == b[start..start + m] && b[start..][..m - 2] == b[start..start + m - 2];
    assert b[start..][m + 1..] == b[start + m + 1..];
  }

  /** A unit with a start code behind it: the last two zeros belong to the code. */
  lemma SplitsOne(b: seq<byte>, start: nat, n: seq<byte>, zeros: nat, tail: seq<byte>)
    requires start <= |b| && IsNal(n) && zeros >= 2 && b[start..] == n + Repeat<byte>(0, zeros) + [1] + tail
    ensures var next := start + |n| + zeros + 1;
      next <= |b| && b[next..] == tail && UnitsFrom(b, start, start) == [n] + UnitsFrom(b, next, next)
  {
    hide IsNal, Repeat, Unit;
    Layout(b, start, n, zeros, tail);
    var stop := start + |n| + zeros - 2;
    forall k | start <= k < stop
      ensures !CodeAt(b, k)
    {
      NoCodeInside(b, start, n, zeros, k);
    }
    SkipTo(b, start, start, stop);
    TrimmedUnit(n, zeros - 2);
  }

  /** The units of the rest of a stream, read from just after a start code. */
  lemma {:induction false} SplitsRest(b: seq<byte>, start: nat, parts: seq<Part>, trailing: nat)
    requires parts != [] && forall p <- parts :: IsPart(p)
    requires start <= |b| && b[start..] == parts[0].nal + Join(parts[1..], trailing)
    ensures UnitsFrom(b, start, start) == Nals(parts)
    decreases |parts|
  {
    hide UnitsFrom, IsNal;
    assert IsPart(parts[0]);
    var n, rest := parts[0].nal, parts[1..];
    if rest == [] {
      SplitsLast(b, start, n, trailing);
      assert Nals(parts) == [n];
    } else {
      assert rest[0] == parts[1] && IsPart(parts[1]);
      var tail := rest[0].nal + Join(rest[1..], trailing);
      assert b[start..] == n + Repeat<byte>(0, rest[0].zeros) + [1] + tail;
      SplitsOne(b, start, n, rest[0].zeros, tail);
      SplitsRest(b, start + |n| + rest[0].zeros + 1, rest, trailing);
      assert Nals(parts) == [n] + Nals(rest);
    }
  }

  /** Scanning the zeros in front of the first unit. */
  lemma {:induction false} SkipLeading(b: seq<byte>, i: nat, j: nat)
    requires i <= j && j + 2 < |b| && forall k :: i <= k < j ==> !CodeAt(b, k)
    ensures Units(b, i) == Units(b, j)
    decreases j - i
  {
    if i < j {
      SkipLeading(b, i + 1, j);
    }
  }

  lemma {:induction false} OnlyZeros(b: seq<byte>, i: nat)
    requires i <= |b| && forall k :: 0 <= k < |b| ==> b[k] == 0
    ensures Units(b, i) == []
    decreases |b| - i
  {
    if i + 2 < |b| {
      OnlyZeros(b, i + 1);
    }
  }

  /**
   * Splitting undoes joining: whatever the lengths of the start codes and the trailing
   * zeros, the units come back exactly.
   */
  lemma SplitInvertsJoin(parts: seq<Part>, trailing: nat)
    requires forall p <- parts :: IsPart(p)
    ensures Units(Join(parts, trailing), 0) == Nals(parts)
  {
    var b := Join(parts, trailing);
    if parts == [] {
      OnlyZeros(b, 0);
    } else {
      assert IsPart(parts[0]);
      var zeros := parts[0].zeros;
      assert forall k :: 0 <= k < zeros ==> b[k] == Repeat<byte>(0, zeros)[k];
      assert b[zeros] == 1;
      SkipLeading(b, 0, zeros - 2);
      assert b[zeros + 1..] == parts[0].nal + Join(parts[1..], trailing);
      SplitsRest(b, zeros + 1, parts, trailing);
    }
  }

  // -- any input ------------------------------------------------------------------------

  lemma UnitIsNal(b: seq<byte>)
    requires forall k | 0 <= k :: !CodeAt(b, k)
    ensures forall u <- Unit(b) :: IsNal(u)
  {
    var t := TrimZeros(b);
    forall k | 0 <= k
      ensures !CodeAt(t, k)
    {
      if CodeAt(t, k) {
        assert CodeAt(b, k);
      }
    }
  }

  lemma {:induction false} UnitsFromAreNals(b: seq<byte>, start: nat, i: nat)
    requires start <= i <= |b|
    requires forall k :: start <= k < i ==> !CodeAt(b, k)
    ensures forall u <- UnitsFrom(b, start, i) :: IsNal(u)
    decreases |b| - i
  {
    var stop := if i + 2 >= |b| then |b| else i;
    forall k | 0 <= k
      ensures !CodeAt(b[start..stop], k)
    {
      if CodeAt(b[start..stop], k) {
        assert CodeAt(b, start + k);
      }
    }
    UnitIsNal(b[start..stop]);
    if i + 2 >= |b| {
      assert b[start..stop] == b[start..];
    } else if CodeAt(b, i) {
      UnitsFromAreNals(b, i + 3, i + 3);
    } else {
      UnitsFromAreNals(b, start, i + 1);
    }
  }

  /**
   * On every input the units are non-empty, hold no start code and end in no zero, so the
   * first byte of a unit, which is looked at without a check, always exists.
   */
  lemma {:induction false} UnitsAreNals(b: seq<byte>, i: nat)
    requires i <= |b|
    ensures forall u <- Units(b, i) :: IsNal(u)
    decreases |b| - i
  {
    if i + 2 < |b| {
      if CodeAt(b, i) {
        UnitsFromAreNals(b, i + 3, i + 3);
      } else {
        UnitsAreNals(b, i + 1);
      }
    }
  }

  /** Each unit behind the four-byte start code the decoder is fed with. */
  function WithStartCodes(units: seq<seq<byte>>): seq<Part> {
    seq(|units|, i requires 0 <= i < |units| => Part(3, units[i]))
  }

  /** Writing the units back with start codes and splitting again changes nothing. */
  lemma SplitIsStable(b: seq<byte>)
    ensures Units(Join(WithStartCodes(Units(b, 0)), 0), 0) == Units(b, 0)
  {
    var parts := WithStartCodes(Units(b, 0));
    UnitsAreNals(b, 0);
    assert forall p <- parts :: IsPart(p);
    SplitInvertsJoin(parts, 0);
    assert Nals(parts) == Units(b, 0);
  }

  // -- a parameter set inside a stream --------------------------------------------------

  /** Emulation prevention keeps start codes out, after any run of zeros. */
  lemma {:induction false} EscapeHasNoCode(rbsp: seq<byte>, zeros: nat)
    requires zeros <= 2
    ensures var e := H264Sps.Escape(rbsp, zeros);
      && (forall k | 0 <= k :: !CodeAt(e, k))
      && (zeros == 2 && e != [] ==> e[0] > 2)
      && (zeros == 1 && |e| >= 2 ==> !(e[0] == 0 && e[1] == 1))
      && (rbsp != [] ==> e != [] && e[|e| - 1] == rbsp[|rbsp| - 1])
  {
    if rbsp != [] {
      var e, c, rest := H264Sps.Escape(rbsp, zeros), rbsp[0], rbsp[1..];
      var coded: seq<byte> := if zeros >= 2 && c <= 3 then [3, c] else [c];
      var after := if c != 0 then 0 else if zeros >= 2 then 1 else zeros + 1;
      EscapeHasNoCode(rest, after);
      var tail := H264Sps.Escape(rest, after);
      assert e == coded + tail;
      forall k | 0 <= k
        ensures !CodeAt(e, k)
      {
        if k >= |coded| && CodeAt(e, k) {
          assert CodeAt(tail, k - |coded|);
        }
      }
    }
  }

  lemma EscapedIsNal(header: byte, rbsp: seq<byte>)
    requires header != 0 && rbsp != [] && rbsp[|rbsp| - 1] != 0
    ensures IsNal([header] + H264Sps.Escape(rbsp, 0))
  {
    EscapeHasNoCode(rbsp, 0);
    var e := H264Sps.Escape(rbsp, 0);
    var nal := [header] + e;
    forall i | 0 <= i
      ensures !CodeAt(nal, i)
    {
      if i > 0 && CodeAt(nal, i) {
        assert CodeAt(e, i - 1);
      }
    }
  }

  /**
   * An access unit that holds a well-formed SPS among its units yields that SPS, whole, and
   * the parser reads the right picture size from it.
   */
  lemma SpsFoundInStream(parts: seq<Part>, trailing: nat, k: nat, header: byte, s: H264Sps.Sps)
    requires k < |parts| && forall p <- parts :: p.zeros >= 2 && (IsNal(p.nal) || p == parts[k])
    requires header % 32 == 7 && H264Sps.WellFormed(s)
    requires parts[k].nal == H264Sps.Nal(header, s)
    requires var rbsp := Pack(H264Sps.SpsBits(s)); rbsp != [] && rbsp[|rbsp| - 1] != 0
    ensures var units := Units(Join(parts, trailing), 0);
      |units| == |parts| && units[k] == parts[k].nal && H264Sps.Parse(units[k]) == H264Sps.Outcome(s)
  {
    hide H264Sps.SpsBits, H264Sps.Parse, H264Sps.Outcome, H264Sps.Escape, IsNal, Units, Join;
    H264Sps.ParseInverts(header, s);
    EscapedIsNal(header, Pack(H264Sps.SpsBits(s)));
    forall p | p in parts
      ensures IsPart(p)
    {
    }
    SplitInvertsJoin(parts, trailing);
    assert Nals(parts)[k] == parts[k].nal;
  }
}
