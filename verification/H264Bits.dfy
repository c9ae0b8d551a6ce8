/**
 * The bit reader of the SPS parser, and the codes it reads: fixed-width fields and the
 * Exp-Golomb codes of section 9.1 of H.264.
 */
module H264Bits {
  import opened Bytes

  /** Where a reader stands: the next bit, and whether every read so far was within bounds. */
  datatype Cursor = Cursor(pos: nat, ok: bool)

  /** The longest run of leading zeros a code may have before it is refused. */
  const MAX_ZEROS: nat := 32

  // -- what each read yields ------------------------------------------------------------

  function ReadBit(bs: seq<bit>, c: Cursor): (bit, Cursor) {
    if c.pos >= |bs| then (0, c.(ok := false)) else (bs[c.pos], c.(pos := c.pos + 1))
  }

  function ReadBits(bs: seq<bit>, c: Cursor, n: nat): (nat, Cursor) {
    if n == 0 then (0, c)
    else
      var (high, c1) := ReadBits(bs, c, n - 1);
      var (low, c2) := ReadBit(bs, c1);
      (2 * high + low, c2)
  }

  /** Counts zeros up to a one bit; `MAX_ZEROS + 1` means the code was refused. */
  function ReadZeros(bs: seq<bit>, c: Cursor, zeros: nat): (r: (nat, Cursor))
    requires zeros <= MAX_ZEROS
    ensures r.0 <= MAX_ZEROS + 1
    decreases MAX_ZEROS - zeros
  {
    var (b, c1) := ReadBit(bs, c);
    if b == 0 && c1.ok then
      if zeros == MAX_ZEROS then (MAX_ZEROS + 1, c1.(ok := false)) else ReadZeros(bs, c1, zeros + 1)
    else
      (zeros, c1)
  }

  function ReadUe(bs: seq<bit>, c: Cursor): (nat, Cursor) {
    var (zeros, c1) := ReadZeros(bs, c, 0);
    if zeros > MAX_ZEROS then (0, c1)
    else
      var (low, c2) := ReadBits(bs, c1, zeros);
      (Pow2(zeros) - 1 + low, c2)
  }

  /** The signed number a code number stands for: 0, 1, -1, 2, -2, ... */
  function Signed(k: nat): int {
    if k % 2 == 1 then (k + 1) / 2 else -(k / 2)
  }

  function ReadSe(bs: seq<bit>, c: Cursor): (int, Cursor) {
    var (k, c1) := ReadUe(bs, c);
    (Signed(k), c1)
  }

  // -- the reader itself ----------------------------------------------------------------

  class BitReader {
    const b: seq<byte>
    var pos: nat
    var ok: bool

    ghost function Cur(): Cursor
      reads this
    {
      Cursor(pos, ok)
    }

    ghost const Stream: seq<bit> := Bits(b)

    constructor (b: seq<byte>)
      ensures this.b == b && Cur() == Cursor(0, true)
    {
      this.b := b;
      pos, ok := 0, true;
    }

    method Bit() returns (v: bit)
      modifies this
      ensures (v, Cur()) == ReadBit(Stream, old(Cur()))
    {
      if pos / 8 >= |b| {
        ok := false;
        return 0;
      }
      v := BitOfByte(b[pos / 8], pos % 8);
      pos := pos + 1;
    }

    method ReadN(n: nat) returns (v: nat)
      modifies this
      ensures (v, Cur()) == ReadBits(Stream, old(Cur()), n)
    {
      v := 0;
      for i := 0 to n
        invariant (v, Cur()) == ReadBits(Stream, old(Cur()), i)
      {
        var low := Bit();
        v := 2 * v + low;
      }
    }

    /** The counting loop of `Ue`. */
    method LeadingZeros() returns (zeros: nat)
      modifies this
      ensures (zeros, Cur()) == ReadZeros(Stream, old(Cur()), 0)
    {
      zeros := 0;
      var low := Bit();
      while low == 0 && ok
        invariant zeros <= MAX_ZEROS
        invariant !(low == 0 && ok) ==> ReadZeros(Stream, old(Cur()), 0) == (zeros, Cur())
        invariant low == 0 && ok && zeros == MAX_ZEROS ==>
                    ReadZeros(Stream, old(Cur()), 0) == (MAX_ZEROS + 1, Cur().(ok := false))
        invariant low == 0 && ok && zeros < MAX_ZEROS ==>
                    ReadZeros(Stream, old(Cur()), 0) == ReadZeros(Stream, Cur(), zeros + 1)
        decreases MAX_ZEROS - zeros
      {
        if zeros == MAX_ZEROS {
          ok := false;
          return MAX_ZEROS + 1;
        }
        zeros := zeros + 1;
        low := Bit();
      }
    }

    method Ue() returns (v: nat)
      modifies this
      ensures (v, Cur()) == ReadUe(Stream, old(Cur()))
    {
      hide ReadZeros, ReadBits, Pow2;
      var zeros := LeadingZeros();
      if zeros > MAX_ZEROS {
        return 0;
      }
      var low := ReadN(zeros);
      v := Pow2(zeros) - 1 + low;
    }

    method Se() returns (v: int)
      modifies this
      ensures (v, Cur()) == ReadSe(Stream, old(Cur()))
    {
      var k: int := Ue();
      v := if k % 2 == 1 then (k + 1) / 2 else -(k / 2);
    }
  }

  // -- the codes, as the standard defines them ------------------------------------------

  function Log2(n: nat): (r: nat)
    requires n > 0
    ensures Pow2(r) <= n < Pow2(r + 1)
  {
    if n == 1 then 0 else 1 + Log2(n / 2)
  }

  function Ue(v: nat): seq<bit> {
    var n := Log2(v + 1);
    Repeat<bit>(0, n) + ([1] + BitsOf(v + 1 - Pow2(n), n))
  }

  function CodeNumber(v: int): nat {
    if v > 0 then 2 * v - 1 else -2 * v
  }

  lemma SignedOfCodeNumber(v: int)
    ensures Signed(CodeNumber(v)) == v
  {
  }

  function Se(v: int): seq<bit> {
    Ue(CodeNumber(v))
  }

  /** `code` is the next thing in the stream at `pos`. */
  ghost predicate At(bs: seq<bit>, pos: nat, code: seq<bit>) {
    pos + |code| <= |bs| && bs[pos..pos + |code|] == code
  }

  lemma AtConcat(bs: seq<bit>, pos: nat, first: seq<bit>, rest: seq<bit>)
    requires At(bs, pos, first + rest)
    ensures At(bs, pos, first) && At(bs, pos + |first|, rest)
  {
    var all := bs[pos..pos + |first + rest|];
    assert all[..|first|] == bs[pos..pos + |first|];
    assert all[|first|..] == bs[pos + |first|..pos + |first| + |rest|];
  }

  // -- reading inverts writing, at any bit offset ---------------------------------------

  lemma {:induction false} ReadBitsInverts(bs: seq<bit>, c: Cursor, code: seq<bit>)
    requires At(bs, c.pos, code)
    ensures ReadBits(bs, c, |code|) == (ValueOf(code), c.(pos := c.pos + |code|))
  {
    if code != [] {
      var n := |code| - 1;
      assert code == code[..n] + [code[n]];
      AtConcat(bs, c.pos, code[..n], [code[n]]);
      ReadBitsInverts(bs, c, code[..n]);
    }
  }

  lemma {:induction false} ReadZerosCounts(bs: seq<bit>, c: Cursor, zeros: nat, n: nat)
    requires c.ok && zeros + n <= MAX_ZEROS
    requires c.pos + n < |bs| && bs[c.pos + n] == 1
    requires forall i :: c.pos <= i < c.pos + n ==> bs[i] == 0
    ensures ReadZeros(bs, c, zeros) == (zeros + n, c.(pos := c.pos + n + 1))
    decreases n
  {
    if n > 0 {
      ReadZerosCounts(bs, c.(pos := c.pos + 1), zeros + 1, n - 1);
    }
  }

  lemma {:induction false} ReadZerosRefuses(bs: seq<bit>, c: Cursor, zeros: nat)
    requires c.ok && zeros <= MAX_ZEROS
    requires c.pos + MAX_ZEROS - zeros < |bs|
    requires forall i :: c.pos <= i <= c.pos + MAX_ZEROS - zeros ==> bs[i] == 0
    ensures ReadZeros(bs, c, zeros).0 == MAX_ZEROS + 1 && !ReadZeros(bs, c, zeros).1.ok
    decreases MAX_ZEROS - zeros
  {
    if zeros < MAX_ZEROS {
      ReadZerosRefuses(bs, c.(pos := c.pos + 1), zeros + 1);
    }
  }

  lemma {:induction false} Pow2Monotone(a: nat, b: nat)
    requires a <= b
    ensures Pow2(a) <= Pow2(b)
    decreases b - a
  {
    if a < b {
      Pow2Monotone(a + 1, b);
    }
  }

  /** The parts of a code: a run of zeros, a one, and as many low bits. */
  lemma UeParts(bs: seq<bit>, pos: nat, v: nat)
    requires At(bs, pos, Ue(v))
    ensures var n := Log2(v + 1);
      && |Ue(v)| == 2 * n + 1 && pos + n < |bs| && bs[pos + n] == 1
      && (forall i :: pos <= i < pos + n ==> bs[i] == 0)
      && At(bs, pos + n + 1, BitsOf(v + 1 - Pow2(n), n))
  {
    var n := Log2(v + 1);
    var low := BitsOf(v + 1 - Pow2(n), n);
    AtConcat(bs, pos, Repeat<bit>(0, n), [1] + low);
    AtConcat(bs, pos + n, [1], low);
    assert forall i :: pos <= i < pos + n ==> bs[i] == bs[pos..pos + n][i - pos];
    assert bs[pos + n] == bs[pos + n..pos + n + 1][0];
  }

  /** 2^33 - 1, the first number whose code has too many leading zeros. */
  const UE_LIMIT: nat := 0x1_FFFF_FFFF

  lemma CodeLength(v: nat)
    ensures v < UE_LIMIT <==> Log2(v + 1) <= MAX_ZEROS
  {
    assert Pow2(8) == 0x100;
    assert Pow2(16) == 0x1_0000;
    assert Pow2(24) == 0x100_0000;
    assert Pow2(33) == 0x2_0000_0000;
    if Log2(v + 1) <= MAX_ZEROS {
      Pow2Monotone(Log2(v + 1) + 1, 33);
    } else {
      Pow2Monotone(33, Log2(v + 1));
    }
  }

  lemma UeLowBits(bs: seq<bit>, c: Cursor, v: nat, n: nat)
    requires At(bs, c.pos, Ue(v)) && n == Log2(v + 1)
    ensures ReadBits(bs, c.(pos := c.pos + n + 1), n) == (v + 1 - Pow2(n), c.(pos := c.pos + |Ue(v)|))
  {
    UeParts(bs, c.pos, v);
    var low := BitsOf(v + 1 - Pow2(n), n);
    ReadBitsInverts(bs, c.(pos := c.pos + n + 1), low);
    ValueOfBits(v + 1 - Pow2(n), n);
  }

  lemma UeZeros(bs: seq<bit>, c: Cursor, v: nat, n: nat)
    requires c.ok && At(bs, c.pos, Ue(v)) && n == Log2(v + 1) && n <= MAX_ZEROS
    ensures ReadZeros(bs, c, 0) == (n, c.(pos := c.pos + n + 1))
  {
    UeParts(bs, c.pos, v);
    ReadZerosCounts(bs, c, 0, n);
  }

  lemma UeFromParts(bs: seq<bit>, c: Cursor, zeros: nat, low: nat, v: nat, end: Cursor)
    requires zeros <= MAX_ZEROS && v == Pow2(zeros) - 1 + low
    requires ReadZeros(bs, c, 0) == (zeros, c.(pos := c.pos + zeros + 1))
    requires ReadBits(bs, c.(pos := c.pos + zeros + 1), zeros) == (low, end)
    ensures ReadUe(bs, c) == (v, end)
  {
  }

  lemma UeReadsBack(bs: seq<bit>, c: Cursor, v: nat)
    requires c.ok && At(bs, c.pos, Ue(v)) && v < UE_LIMIT
    ensures ReadUe(bs, c) == (v, c.(pos := c.pos + |Ue(v)|))
  {
    hide ReadUe, ReadZeros, ReadBits, Ue, At, Pow2;
    var n := Log2(v + 1);
    assert n <= MAX_ZEROS by {
      CodeLength(v);
    }
    UeZeros(bs, c, v, n);
    UeLowBits(bs, c, v, n);
    UeFromParts(bs, c, n, v + 1 - Pow2(n), v, c.(pos := c.pos + |Ue(v)|));
  }

  lemma UeRefused(bs: seq<bit>, c: Cursor, v: nat)
    requires c.ok && At(bs, c.pos, Ue(v)) && v >= UE_LIMIT
    ensures !ReadUe(bs, c).1.ok
  {
    var n := Log2(v + 1);
    UeParts(bs, c.pos, v);
    CodeLength(v);
    ReadZerosRefuses(bs, c, 0);
  }

  /**
   * An Exp-Golomb code reads back as the number it encodes exactly when the number is below
   * 2^33 - 1, which covers every value the standard allows (up to 2^32 - 2); a larger one is
   * refused.
   */
  lemma UeRoundTrip(bs: seq<bit>, c: Cursor, v: nat)
    requires c.ok && At(bs, c.pos, Ue(v))
    ensures v < UE_LIMIT <==> ReadUe(bs, c) == (v, c.(pos := c.pos + |Ue(v)|))
    ensures v >= UE_LIMIT <==> !ReadUe(bs, c).1.ok
  {
    if v < UE_LIMIT {
      UeReadsBack(bs, c, v);
    } else {
      UeRefused(bs, c, v);
    }
  }

  /** The values the standard lets an unsigned and a signed code carry. */
  predicate IsUe(v: nat) { v <= 0xFFFF_FFFE }

  predicate IsSe(v: int) { -0x7FFF_FFFF <= v <= 0x7FFF_FFFF }

  /** One step of a parse: an unsigned code followed by the rest of the stream. */
  lemma UeThen(bs: seq<bit>, c: Cursor, v: nat, rest: seq<bit>)
    requires c.ok && IsUe(v) && At(bs, c.pos, Ue(v) + rest)
    ensures ReadUe(bs, c) == (v, c.(pos := c.pos + |Ue(v)|))
    ensures At(bs, c.pos + |Ue(v)|, rest)
  {
    AtConcat(bs, c.pos, Ue(v), rest);
    UeReadsBack(bs, c, v);
  }

  lemma SeThen(bs: seq<bit>, c: Cursor, v: int, rest: seq<bit>)
    requires c.ok && IsSe(v) && At(bs, c.pos, Se(v) + rest)
    ensures ReadSe(bs, c) == (v, c.(pos := c.pos + |Se(v)|))
    ensures At(bs, c.pos + |Se(v)|, rest)
  {
    SignedOfCodeNumber(v);
    UeThen(bs, c, CodeNumber(v), rest);
  }

  lemma BitThen(bs: seq<bit>, c: Cursor, v: bit, rest: seq<bit>)
    requires At(bs, c.pos, [v] + rest)
    ensures ReadBit(bs, c) == (v, c.(pos := c.pos + 1))
    ensures At(bs, c.pos + 1, rest)
  {
    AtConcat(bs, c.pos, [v], rest);
    assert bs[c.pos] == bs[c.pos..c.pos + 1][0];
  }

  lemma BitsThen(bs: seq<bit>, c: Cursor, v: nat, n: nat, rest: seq<bit>)
    requires v < Pow2(n) && At(bs, c.pos, BitsOf(v, n) + rest)
    ensures ReadBits(bs, c, n) == (v, c.(pos := c.pos + n))
    ensures At(bs, c.pos + n, rest)
  {
    AtConcat(bs, c.pos, BitsOf(v, n), rest);
    ReadBitsInverts(bs, c, BitsOf(v, n));
    ValueOfBits(v, n);
  }

  // -- reading a part of the bits --------------------------------------------------------

  /** A read that ended well began well, and stayed within the first `n` bits. */
  predicate Inside(c: Cursor, n: nat, d: Cursor) { d.ok ==> c.ok && d.pos <= n }

  lemma BitInside(bs: seq<bit>, n: nat, c: Cursor)
    requires n <= |bs| && (c.ok ==> c.pos <= n)
    ensures var r := ReadBit(bs[..n], c); Inside(c, n, r.1) && (r.1.ok ==> ReadBit(bs, c) == r)
  {
  }

  lemma {:induction false} BitsInside(bs: seq<bit>, n: nat, c: Cursor, k: nat)
    requires n <= |bs| && (c.ok ==> c.pos <= n)
    ensures var r := ReadBits(bs[..n], c, k); Inside(c, n, r.1) && (r.1.ok ==> ReadBits(bs, c, k) == r)
  {
    hide ReadBit;
    if k > 0 {
      BitsInside(bs, n, c, k - 1);
      BitInside(bs, n, ReadBits(bs[..n], c, k - 1).1);
    }
  }

  lemma {:induction false} ZerosInside(bs: seq<bit>, n: nat, c: Cursor, zeros: nat)
    requires n <= |bs| && (c.ok ==> c.pos <= n) && zeros <= MAX_ZEROS
    ensures var r := ReadZeros(bs[..n], c, zeros); Inside(c, n, r.1) && (r.1.ok ==> ReadZeros(bs, c, zeros) == r)
    decreases MAX_ZEROS - zeros
  {
    hide ReadBit;
    BitInside(bs, n, c);
    var (b, c1) := ReadBit(bs[..n], c);
    if b == 0 && c1.ok && zeros < MAX_ZEROS {
      ZerosInside(bs, n, c1, zeros + 1);
    }
  }

  lemma UeInside(bs: seq<bit>, n: nat, c: Cursor)
    requires n <= |bs| && (c.ok ==> c.pos <= n)
    ensures var r := ReadUe(bs[..n], c); Inside(c, n, r.1) && (r.1.ok ==> ReadUe(bs, c) == r)
  {
    hide ReadZeros, ReadBits;
    ZerosInside(bs, n, c, 0);
    var (zeros, c1) := ReadZeros(bs[..n], c, 0);
    BitsInside(bs, n, c1, zeros);
  }

  lemma SeInside(bs: seq<bit>, n: nat, c: Cursor)
    requires n <= |bs| && (c.ok ==> c.pos <= n)
    ensures var r := ReadSe(bs[..n], c); Inside(c, n, r.1) && (r.1.ok ==> ReadSe(bs, c) == r)
  {
    hide ReadUe;
    UeInside(bs, n, c);
  }
}
