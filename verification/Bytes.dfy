/** Bytes, bits and big-endian integers shared by the wire-format modules. */
module Bytes {
  type byte = x: int | 0 <= x < 256
  type bit = x: int | 0 <= x < 2

  /** What one read of a stream returns. */
  type chunk = s: seq<byte> | s != [] witness [0]

  datatype Option<+T> = None | Some(value: T)

  function Concat<T>(parts: seq<seq<T>>): seq<T> {
    if parts == [] then [] else parts[0] + Concat(parts[1..])
  }

  function Repeat<T>(x: T, n: nat): (r: seq<T>)
    ensures |r| == n && forall i :: 0 <= i < n ==> r[i] == x
  {
    seq(n, _ => x)
  }

  function Pow2(n: nat): (r: nat)
    ensures r > 0
  {
    if n == 0 then 1 else 2 * Pow2(n - 1)
  }

  /** The `n` low bits of `x`, most significant first. */
  function BitsOf(x: nat, n: nat): (r: seq<bit>)
    ensures |r| == n
  {
    if n == 0 then [] else BitsOf(x / 2, n - 1) + [x % 2]
  }

  /** The number written by `s`, most significant bit first. */
  function ValueOf(s: seq<bit>): nat {
    if s == [] then 0 else 2 * ValueOf(s[..|s| - 1]) + s[|s| - 1]
  }

  lemma {:induction false} ValueOfBits(x: nat, n: nat)
    requires x < Pow2(n)
    ensures ValueOf(BitsOf(x, n)) == x
  {
    if n > 0 {
      ValueOfBits(x / 2, n - 1);
      assert BitsOf(x, n)[..n - 1] == BitsOf(x / 2, n - 1);
    }
  }

  /** Bit `i` of a byte, counted from the most significant. */
  function BitOfByte(c: byte, i: nat): bit
    requires i < 8
  {
    match i
    case 0 => c / 128
    case 1 => c / 64 % 2
    case 2 => c / 32 % 2
    case 3 => c / 16 % 2
    case 4 => c / 8 % 2
    case 5 => c / 4 % 2
    case 6 => c / 2 % 2
    case _ => c % 2
  }

  /** All bits of `b`, most significant bit of each byte first. */
  function Bits(b: seq<byte>): (r: seq<bit>)
    ensures |r| == 8 * |b|
  {
    seq(8 * |b|, i requires 0 <= i < 8 * |b| => BitOfByte(b[i / 8], i % 8))
  }

  function Nibble(a: bit, b: bit, c: bit, d: bit): (r: nat)
    ensures r < 16
    ensures r / 8 == a && r / 4 % 2 == b && r / 2 % 2 == c && r % 2 == d
  {
    (if a == 1 then 8 else 0) + (if b == 1 then 4 else 0) + (if c == 1 then 2 else 0) + d
  }

  function ByteOf(s: seq<bit>): (c: byte)
    requires |s| == 8
  {
    16 * Nibble(s[0], s[1], s[2], s[3]) + Nibble(s[4], s[5], s[6], s[7])
  }

  /** Packs a whole number of bytes. */
  function Pack(s: seq<bit>): (r: seq<byte>)
    requires |s| % 8 == 0
    ensures |r| == |s| / 8
  {
    if s == [] then [] else [ByteOf(s[..8])] + Pack(s[8..])
  }

  lemma HighShifts(hi: nat, lo: nat)
    requires hi < 16 && lo < 16
    ensures var c := 16 * hi + lo; c / 128 == hi / 8 && c / 64 == hi / 4 && c / 32 == hi / 2 && c / 16 == hi
  {
  }

  lemma LowShifts(hi: nat, lo: nat)
    requires hi < 16 && lo < 16
    ensures var c := 16 * hi + lo;
      c / 8 == 2 * hi + lo / 8 && c / 4 == 4 * hi + lo / 4 && c / 2 == 8 * hi + lo / 2
  {
  }

  lemma BitOfByteOf(s: seq<bit>, i: nat)
    requires |s| == 8 && i < 8
    ensures BitOfByte(ByteOf(s), i) == s[i]
  {
    hide Nibble;
    var hi, lo := Nibble(s[0], s[1], s[2], s[3]), Nibble(s[4], s[5], s[6], s[7]);
    if i < 4 {
      HighShifts(hi, lo);
    } else {
      LowShifts(hi, lo);
    }
  }

  /** Unpacking undoes packing. */
  lemma {:induction false} BitsOfPack(s: seq<bit>)
    requires |s| % 8 == 0
    ensures Bits(Pack(s)) == s
  {
    hide BitOfByte, ByteOf;
    if s != [] {
      BitsOfPack(s[8..]);
      forall i | 0 <= i < |s|
        ensures Bits(Pack(s))[i] == s[i]
      {
        if i < 8 {
          BitOfByteOf(s[..8], i);
        } else {
          assert Pack(s)[i / 8] == Pack(s[8..])[(i - 8) / 8];
          assert Bits(Pack(s[8..]))[i - 8] == s[8..][i - 8];
        }
      }
    }
  }

  /** Unsigned big-endian integers of 2 and 4 bytes; a larger value wraps, as in Go's conversions. */
  function Be16(v: nat): (r: seq<byte>)
    ensures |r| == 2
  {
    [v / 0x100 % 0x100, v % 0x100]
  }

  function Be32(v: nat): (r: seq<byte>)
    ensures |r| == 4
  {
    Be16(v / 0x1_0000) + Be16(v)
  }

  function U16(s: seq<byte>): (v: nat)
    requires |s| == 2
    ensures v < 0x1_0000
  {
    0x100 * (s[0] as int) + s[1] as int
  }

  function U32(s: seq<byte>): (v: nat)
    requires |s| == 4
    ensures v < 0x1_0000_0000
  {
    0x1_0000 * U16(s[..2]) + U16(s[2..])
  }

  lemma U16OfBe16(v: nat)
    ensures U16(Be16(v)) == v % 0x1_0000
  {
    var q, r := v / 0x1_0000, v % 0x1_0000;
    assert v / 0x100 == 0x100 * q + r / 0x100;
  }

  lemma SplitAt16(v: nat)
    ensures 0x1_0000 * (v / 0x1_0000 % 0x1_0000) + v % 0x1_0000 == v % 0x1_0000_0000
  {
    var q, r := v / 0x1_0000_0000, v % 0x1_0000_0000;
    assert v / 0x1_0000 == 0x1_0000 * q + r / 0x1_0000;
  }

  lemma U32OfBe32(v: nat)
    ensures U32(Be32(v)) == v % 0x1_0000_0000
  {
    U16OfBe16(v);
    U16OfBe16(v / 0x1_0000);
    assert Be32(v)[..2] == Be16(v / 0x1_0000) && Be32(v)[2..] == Be16(v);
    SplitAt16(v);
  }

  lemma {:induction false} SubsetSize<T>(a: set<T>, b: set<T>)
    requires a <= b
    ensures |a| <= |b| && (|a| == |b| ==> a == b)
  {
    if x :| x in b {
      if x in a {
        SubsetSize(a - {x}, b - {x});
      } else {
        SubsetSize(a, b - {x});
      }
    }
  }
}
