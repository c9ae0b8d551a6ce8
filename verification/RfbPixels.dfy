/**
 * Pixel formats in jetkvm/rfb.go: the 16-byte PIXEL_FORMAT of section 7.4 of RFC 6143, and
 * the conversion of decoded bgr0 pixels to whatever 32-bit true-colour format a client asked
 * for.
 */
module RfbPixels {
  import opened Bytes

  datatype PixelFormat = PixelFormat(bpp: byte, depth: byte, bigEndian: bool, trueColor: bool,
                                     rMax: nat, gMax: nat, bMax: nat, rShift: byte, gShift: byte, bShift: byte)

  const NATIVE := PixelFormat(32, 24, false, true, 255, 255, 255, 16, 8, 0)

  function Marshal(p: PixelFormat): (b: seq<byte>)
    ensures |b| == 16
  {
    [p.bpp, p.depth, if p.bigEndian then 1 else 0, if p.trueColor then 1 else 0]
    + Be16(p.rMax) + Be16(p.gMax) + Be16(p.bMax) + [p.rShift, p.gShift, p.bShift, 0, 0, 0]
  }

  function Parse(b: seq<byte>): (p: PixelFormat)
    requires |b| == 16
  {
    PixelFormat(b[0], b[1], b[2] != 0, b[3] != 0, U16(b[4..6]), U16(b[6..8]), U16(b[8..10]), b[10], b[11], b[12])
  }

  lemma ParseMarshal(p: PixelFormat)
    requires p.rMax < 0x1_0000 && p.gMax < 0x1_0000 && p.bMax < 0x1_0000
    ensures Parse(Marshal(p)) == p
  {
    var b := Marshal(p);
    U16OfBe16(p.rMax);
    U16OfBe16(p.gMax);
    U16OfBe16(p.bMax);
    assert b[4..6] == Be16(p.rMax) && b[6..8] == Be16(p.gMax) && b[8..10] == Be16(p.bMax);
  }

  /** The layout of section 7.4: flags are one or zero, and the last three bytes are padding. */
  lemma MarshalLayout(p: PixelFormat)
    requires p.rMax < 0x1_0000 && p.gMax < 0x1_0000 && p.bMax < 0x1_0000
    ensures var b := Marshal(p);
      && b[0] == p.bpp && b[1] == p.depth && b[2] == (if p.bigEndian then 1 else 0) && b[3] == (if p.trueColor then 1 else 0)
      && U16(b[4..6]) == p.rMax && U16(b[6..8]) == p.gMax && U16(b[8..10]) == p.bMax
      && b[10..] == [p.rShift, p.gShift, p.bShift, 0, 0, 0]
  {
    ParseMarshal(p);
    hide Be16, U16;
  }

  /** The format the server announces: 32 bits, 24 of them colour, little-endian, blue lowest. */
  lemma NativeLayout()
    ensures Marshal(NATIVE) == [32, 24, 0, 1, 0, 255, 0, 255, 0, 255, 16, 8, 0, 0, 0, 0]
  {
    assert Be16(255) == [0, 255];
  }

  /** What a client may ask for, bar which the session ends. */
  predicate Supported(p: PixelFormat) {
    p.bpp == 32 && p.trueColor && p.depth <= 32 && p.rShift <= 31 && p.gShift <= 31 && p.bShift <= 31
  }

  /**
   * Every true-colour format of 32 bits whose channels lie within them is supported; a format of
   * another size, with a colour map, or with a channel that begins outside is not.
   */
  lemma SupportedFormats(p: PixelFormat, rk: nat, gk: nat, bk: nat)
    ensures p.bpp == 32 && p.trueColor && p.depth <= 32 && WellFormed(p, rk, gk, bk) && rk > 0 && gk > 0 && bk > 0 ==>
      Supported(p)
    ensures p.bpp != 32 || !p.trueColor || p.depth > 32 || p.rShift >= 32 || p.gShift >= 32 || p.bShift >= 32 ==>
      !Supported(p)
  {
  }

  // -- bitwise or on the low n bits -----------------------------------------------------

  function Or(a: nat, b: nat, n: nat): (r: nat)
  {
    if n == 0 then 0 else (if a % 2 == 1 || b % 2 == 1 then 1 else 0) + 2 * Or(a / 2, b / 2, n - 1)
  }

  /** `k` bits of `v` from bit `s` up. */
  function Field(v: nat, s: nat, k: nat): nat
    decreases s
  {
    if s > 0 then Field(v / 2, s - 1, k) else Low(v, k)
  }

  function Low(v: nat, k: nat): nat {
    if k == 0 then 0 else v % 2 + 2 * Low(v / 2, k - 1)
  }

  lemma {:induction false} LowOfOr(a: nat, b: nat, n: nat, k: nat)
    requires k <= n
    ensures Low(Or(a, b, n), k) == Or(Low(a, k), Low(b, k), k)
    decreases k
  {
    if k > 0 {
      LowOfOr(a / 2, b / 2, n - 1, k - 1);
      var x, y := Low(a, k), Low(b, k);
      assert x / 2 == Low(a / 2, k - 1) && y / 2 == Low(b / 2, k - 1);
      assert Or(a, b, n) / 2 == Or(a / 2, b / 2, n - 1);
    }
  }

  lemma {:induction false} FieldOfOr(a: nat, b: nat, n: nat, s: nat, k: nat)
    requires s + k <= n
    ensures Field(Or(a, b, n), s, k) == Or(Field(a, s, k), Field(b, s, k), k)
    decreases s
  {
    if s > 0 {
      assert Or(a, b, n) / 2 == Or(a / 2, b / 2, n - 1);
      FieldOfOr(a / 2, b / 2, n - 1, s - 1, k);
    } else {
      LowOfOr(a, b, n, k);
    }
  }

  lemma {:induction false} OrZero(a: nat, k: nat)
    ensures Or(a, 0, k) == Low(a, k) && Or(0, a, k) == Low(a, k)
  {
    if k > 0 {
      OrZero(a / 2, k - 1);
    }
  }

  lemma {:induction false} LowWhole(v: nat, k: nat)
    requires v < Pow2(k)
    ensures Low(v, k) == v
  {
    if k > 0 {
      LowWhole(v / 2, k - 1);
    }
  }

  lemma {:induction false} LowBound(v: nat, k: nat)
    ensures Low(v, k) < Pow2(k)
  {
    if k > 0 {
      LowBound(v / 2, k - 1);
    }
  }

  /** `x` shifted left by `t`. */
  function Shl(x: nat, t: nat): nat { if t == 0 then x else 2 * Shl(x, t - 1) }

  /** A shifted field read back from where it was put. */
  lemma {:induction false} FieldOfShl(x: nat, s: nat, k: nat)
    requires x < Pow2(k)
    ensures Field(Shl(x, s), s, k) == x
  {
    if s > 0 {
      FieldOfShl(x, s - 1, k);
    } else {
      LowWhole(x, k);
    }
  }

  lemma {:induction false} LowOfShl(x: nat, t: nat, k: nat)
    requires k <= t
    ensures Low(Shl(x, t), k) == 0
  {
    if k > 0 {
      LowOfShl(x, t - 1, k - 1);
    }
  }

  lemma {:induction false} FieldOfZero(s: nat, k: nat)
    ensures Field(0, s, k) == 0 && Low(0, k) == 0
    decreases s + k
  {
    if s > 0 {
      FieldOfZero(s - 1, k);
    } else if k > 0 {
      FieldOfZero(0, k - 1);
    }
  }

  lemma {:induction false} FieldBeyond(x: nat, j: nat, s: nat, k: nat)
    requires x < Pow2(j) && j <= s
    ensures Field(x, s, k) == 0
    decreases s
  {
    if j > 0 {
      FieldBeyond(x / 2, j - 1, s - 1, k);
    } else {
      FieldOfZero(s, k);
    }
  }

  /** A field put elsewhere leaves these bits zero. */
  lemma {:induction false} FieldOfOther(x: nat, j: nat, t: nat, s: nat, k: nat)
    requires x < Pow2(j) && (t + j <= s || s + k <= t)
    ensures Field(Shl(x, t), s, k) == 0
    decreases s
  {
    if t > 0 && s > 0 {
      FieldOfOther(x, j, t - 1, s - 1, k);
    } else if s == 0 {
      if s + k <= t {
        LowOfShl(x, t, k);
      } else {
        FieldOfZero(0, k);
      }
    } else {
      FieldBeyond(x, j, s, k);
    }
  }

  // -- converting a pixel ---------------------------------------------------------------

  function Scaled(c: byte, max: nat): nat { c * max / 255 }

  function PixelValue(b: byte, g: byte, r: byte, p: PixelFormat): nat {
    Or(Or(Shl(Scaled(r, p.rMax), p.rShift), Shl(Scaled(g, p.gMax), p.gShift), 32), Shl(Scaled(b, p.bMax), p.bShift), 32)
  }

  function Byte(v: nat, i: nat): (b: byte) {
    var f := Field(v, 8 * i, 8);
    FieldIsByte(v, i);
    f
  }

  lemma {:induction false} FieldBound(v: nat, s: nat, k: nat)
    ensures Field(v, s, k) < Pow2(k)
    decreases s
  {
    if s > 0 {
      FieldBound(v / 2, s - 1, k);
    } else {
      LowBound(v, k);
    }
  }

  lemma FieldIsByte(v: nat, i: nat)
    ensures Field(v, 8 * i, 8) < 256
  {
    FieldBound(v, 8 * i, 8);
    assert Pow2(8) == 256;
  }

  function PixelBytes(v: nat, bigEndian: bool): (r: seq<byte>)
    ensures |r| == 4
  {
    if bigEndian then [Byte(v, 3), Byte(v, 2), Byte(v, 1), Byte(v, 0)]
    else [Byte(v, 0), Byte(v, 1), Byte(v, 2), Byte(v, 3)]
  }

  /** A format whose maxima are of the form 2^k - 1, in places that do not overlap. */
  ghost predicate WellFormed(p: PixelFormat, rk: nat, gk: nat, bk: nat) {
    && p.rMax == Pow2(rk) - 1 && p.gMax == Pow2(gk) - 1 && p.bMax == Pow2(bk) - 1
    && p.rShift + rk <= 32 && p.gShift + gk <= 32 && p.bShift + bk <= 32
    && (p.rShift + rk <= p.gShift || p.gShift + gk <= p.rShift)
    && (p.rShift + rk <= p.bShift || p.bShift + bk <= p.rShift)
    && (p.gShift + gk <= p.bShift || p.bShift + bk <= p.gShift)
  }

  lemma ScaledFits(c: byte, max: nat)
    ensures Scaled(c, max) <= max
  {
    assert c * max <= 255 * max;
  }

  lemma {:induction false} OrOfZeroes(a: nat, k: nat)
    requires a < Pow2(k)
    ensures Or(a, 0, k) == a && Or(0, a, k) == a
  {
    OrZero(a, k);
    LowWhole(a, k);
  }

  /** The bits of one of three shifted values, when the others are elsewhere. */
  lemma FieldOfThree(x: nat, y: nat, z: nat, s: nat, k: nat)
    requires s + k <= 32
    ensures Field(Or(Or(x, y, 32), z, 32), s, k) == Or(Or(Field(x, s, k), Field(y, s, k), k), Field(z, s, k), k)
  {
    FieldOfOr(Or(x, y, 32), z, 32, s, k);
    FieldOfOr(x, y, 32, s, k);
  }

  /** A client that reads a pixel in its own format finds each colour scaled to its own range. */
  lemma ChannelsRecovered(b: byte, g: byte, r: byte, p: PixelFormat, rk: nat, gk: nat, bk: nat)
    requires WellFormed(p, rk, gk, bk)
    ensures var v := PixelValue(b, g, r, p);
      && Field(v, p.rShift, rk) == Scaled(r, p.rMax)
      && Field(v, p.gShift, gk) == Scaled(g, p.gMax)
      && Field(v, p.bShift, bk) == Scaled(b, p.bMax)
  {
    var R, G, B := Scaled(r, p.rMax), Scaled(g, p.gMax), Scaled(b, p.bMax);
    ScaledFits(r, p.rMax);
    ScaledFits(g, p.gMax);
    ScaledFits(b, p.bMax);
    hide Scaled, Shl, Or, Field;
    ChannelRecovered(R, rk, p.rShift, G, gk, p.gShift, B, bk, p.bShift);
    FieldOfThree(Shl(R, p.rShift), Shl(G, p.gShift), Shl(B, p.bShift), p.rShift, rk);
    FieldOfThree(Shl(R, p.rShift), Shl(G, p.gShift), Shl(B, p.bShift), p.gShift, gk);
    FieldOfThree(Shl(R, p.rShift), Shl(G, p.gShift), Shl(B, p.bShift), p.bShift, bk);
    ChannelRecovered(G, gk, p.gShift, R, rk, p.rShift, B, bk, p.bShift);
    ChannelRecovered(B, bk, p.bShift, R, rk, p.rShift, G, gk, p.gShift);
    OrOfZeroes(R, rk);
    OrOfZeroes(G, gk);
    OrOfZeroes(B, bk);
    OrOfZeroes(0, bk);
  }

  lemma ChannelRecovered(x: nat, k: nat, s: nat, y: nat, j: nat, t: nat, z: nat, i: nat, u: nat)
    requires x < Pow2(k) && y < Pow2(j) && z < Pow2(i)
    requires (t + j <= s || s + k <= t) && (u + i <= s || s + k <= u)
    ensures Field(Shl(x, s), s, k) == x && Field(Shl(y, t), s, k) == 0 && Field(Shl(z, u), s, k) == 0
  {
    FieldOfShl(x, s, k);
    FieldOfOther(y, j, t, s, k);
    FieldOfOther(z, i, u, s, k);
  }

  lemma NativeTopByte(b: byte, g: byte, r: byte)
    ensures Field(PixelValue(b, g, r, NATIVE), 24, 8) == 0
  {
    assert Pow2(8) == 256;
    assert Scaled(r, 255) == r && Scaled(g, 255) == g && Scaled(b, 255) == b;
    hide Shl, Or, Field, Scaled;
    FieldOfThree(Shl(r, 16), Shl(g, 8), Shl(b, 0), 24, 8);
    FieldOfOther(r, 8, 16, 24, 8);
    FieldOfOther(g, 8, 8, 24, 8);
    FieldOfOther(b, 8, 0, 24, 8);
    OrOfZeroes(0, 8);
  }

  /** The fast path: copying a bgr0 pixel is converting it to the native format. */
  lemma NativeIsCopy(b: byte, g: byte, r: byte)
    ensures PixelBytes(PixelValue(b, g, r, NATIVE), NATIVE.bigEndian) == [b, g, r, 0]
  {
    assert Pow2(8) == 256;
    assert WellFormed(NATIVE, 8, 8, 8);
    ChannelsRecovered(b, g, r, NATIVE, 8, 8, 8);
    NativeTopByte(b, g, r);
    hide Field, PixelValue, Pow2;
  }

  // -- rows -----------------------------------------------------------------------------

  function Pixel(src: seq<byte>, i: nat, p: PixelFormat): (r: seq<byte>)
    requires 4 * i + 3 < |src|
    ensures |r| == 4
  {
    PixelBytes(PixelValue(src[4 * i], src[4 * i + 1], src[4 * i + 2], p), p.bigEndian)
  }

  /** `n` pixels converted one by one. */
  function Pixels(src: seq<byte>, n: nat, p: PixelFormat): (r: seq<byte>)
    requires 4 * n <= |src|
    ensures |r| == 4 * n
  {
    if n == 0 then [] else Pixels(src, n - 1, p) + Pixel(src, n - 1, p)
  }

  /** A row as it is sent: copied whole in the native format, converted otherwise. */
  function Row(src: seq<byte>, n: nat, p: PixelFormat): (r: seq<byte>)
    requires 4 * n <= |src|
    ensures |r| == 4 * n
  {
    if p == NATIVE then src[..4 * n] else Pixels(src, n, p)
  }

  /** The pad byte of every pixel is zero, as the decoder leaves it. */
  ghost predicate Padded(src: seq<byte>) {
    forall i | 0 <= i :: 4 * i + 3 < |src| ==> src[4 * i + 3] == 0
  }

  /** Copying a row refines converting it, pixel by pixel. */
  lemma {:induction false} NativeRowIsCopy(src: seq<byte>, n: nat)
    requires 4 * n <= |src| && Padded(src)
    ensures Row(src, n, NATIVE) == Pixels(src, n, NATIVE)
  {
    if n > 0 {
      NativeRowIsCopy(src, n - 1);
      var i := n - 1;
      NativeIsCopy(src[4 * i], src[4 * i + 1], src[4 * i + 2]);
      hide PixelBytes, PixelValue;
      assert Pixel(src, i, NATIVE) == src[4 * i..4 * n];
      assert src[..4 * n] == src[..4 * i] + src[4 * i..4 * n];
    }
  }

  method PutPixel(dst: array<byte>, i: nat, px: seq<byte>)
    requires |px| == 4 && 4 * i + 3 < dst.Length
    modifies dst
    ensures dst[4 * i..4 * i + 4] == px
    ensures dst[..4 * i] == old(dst[..4 * i]) && dst[4 * i + 4..] == old(dst[4 * i + 4..])
  {
    dst[4 * i] := px[0];
    dst[4 * i + 1] := px[1];
    dst[4 * i + 2] := px[2];
    dst[4 * i + 3] := px[3];
  }

  /** Converts `n` pixels into `dst`, in place; what lies behind them stays. */
  method ConvertRow(dst: array<byte>, src: seq<byte>, n: nat, p: PixelFormat)
    requires 4 * n <= |src| && 4 * n <= dst.Length
    modifies dst
    ensures dst[..4 * n] == Row(src, n, p) && dst[4 * n..] == old(dst[4 * n..])
  {
    if p == NATIVE {
      forall k | 0 <= k < 4 * n {
        dst[k] := src[k];
      }
      return;
    }
    for i := 0 to n
      invariant dst[..4 * i] == Pixels(src, i, p) && dst[4 * n..] == old(dst[4 * n..])
    {
      hide Pixels;
      ghost var before := dst[..];
      PutPixel(dst, i, Pixel(src, i, p));
      assert dst[..4 * i + 4] == dst[..4 * i] + dst[4 * i..4 * i + 4];
      assert dst[4 * n..] == dst[4 * i + 4..][4 * (n - i - 1)..];
      assert before[4 * n..] == before[4 * i + 4..][4 * (n - i - 1)..];
      PixelsStep(src, i, p);
    }
  }

  lemma PixelsStep(src: seq<byte>, i: nat, p: PixelFormat)
    requires 4 * i + 4 <= |src|
    ensures Pixels(src, i + 1, p) == Pixels(src, i, p) + Pixel(src, i, p)
  {
  }

  // -- what a client sees ---------------------------------------------------------------

  /** Four bytes as the client takes them, in the byte order it asked for. */
  function ClientValue(px: seq<byte>, bigEndian: bool): nat
    requires |px| == 4
  {
    if bigEndian then FromBytes(px[3], px[2], px[1], px[0]) else FromBytes(px[0], px[1], px[2], px[3])
  }

  function FromBytes(a: nat, b: nat, c: nat, d: nat): nat {
    a + 0x100 * b + 0x1_0000 * c + 0x100_0000 * d
  }

  /** The `k` bits of a value from bit `s` up. */
  function Bits32(v: nat, s: nat, k: nat): nat { v / Pow2(s) % Pow2(k) }

  /** Each colour of the four bytes is that of the source pixel, scaled to the client's range. */
  ghost predicate Shows(px: seq<byte>, p: PixelFormat, rk: nat, gk: nat, bk: nat, b: byte, g: byte, r: byte)
    requires |px| == 4
  {
    var v := ClientValue(px, p.bigEndian);
    && Bits32(v, p.rShift, rk) == r * p.rMax / 255
    && Bits32(v, p.gShift, gk) == g * p.gMax / 255
    && Bits32(v, p.bShift, bk) == b * p.bMax / 255
  }

  lemma HalfOfDiv(v: nat, d: nat)
    requires d > 0
    ensures v / 2 / d == v / (2 * d) && v % 2 + 2 * (v / 2 % d) == v % (2 * d)
  {
    var q, r := v / 2 / d, v / 2 % d;
    assert v / 2 == q * d + r;
    assert v == q * (2 * d) + (2 * r + v % 2) && 2 * r + v % 2 < 2 * d;
    QuotientIs(v, 2 * d, q, 2 * r + v % 2);
  }

  lemma QuotientIs(v: nat, d: nat, q: nat, r: nat)
    requires d > 0 && v == q * d + r && r < d
    ensures v / d == q && v % d == r
  {
    var e: int, d': int := v / d - q, d;
    assert e * d' == r - v % d;
    assert e >= 1 ==> e * d' >= d';
    assert e <= -1 ==> e * d' <= -d';
  }

  lemma {:induction false} LowIsMod(v: nat, k: nat)
    ensures Low(v, k) == v % Pow2(k)
  {
    if k > 0 {
      LowIsMod(v / 2, k - 1);
      HalfOfDiv(v, Pow2(k - 1));
    }
  }

  lemma {:induction false} FieldIsBits(v: nat, s: nat, k: nat)
    ensures Field(v, s, k) == Bits32(v, s, k)
    decreases s
  {
    if s > 0 {
      FieldIsBits(v / 2, s - 1, k);
      HalfOfDiv(v, Pow2(s - 1));
    } else {
      LowIsMod(v, k);
    }
  }

  lemma {:induction false} OrBound(a: nat, b: nat, n: nat)
    ensures Or(a, b, n) < Pow2(n)
  {
    if n > 0 {
      OrBound(a / 2, b / 2, n - 1);
    }
  }

  lemma PowersOf256()
    ensures Pow2(0) == 1 && Pow2(8) == 0x100 && Pow2(16) == 0x1_0000 && Pow2(24) == 0x100_0000 && Pow2(32) == 0x1_0000_0000
  {
    assert Pow2(12) == 0x1000;
    assert Pow2(20) == 0x10_0000;
    assert Pow2(28) == 0x1000_0000;
  }

  lemma BytesOf(v: nat, bigEndian: bool)
    requires v < 0x1_0000_0000
    ensures ClientValue(PixelBytes(v, bigEndian), bigEndian) == v
  {
    ByteIs(v);
    FourBytes(v);
    hide Byte;
  }

  lemma ByteIs(v: nat)
    ensures Byte(v, 0) == v % 0x100 && Byte(v, 1) == v / 0x100 % 0x100
    ensures Byte(v, 2) == v / 0x1_0000 % 0x100 && Byte(v, 3) == v / 0x100_0000 % 0x100
  {
    FieldIsBits(v, 0, 8);
    FieldIsBits(v, 8, 8);
    FieldIsBits(v, 16, 8);
    FieldIsBits(v, 24, 8);
    BitsAre(v);
    hide Field, Bits32, Pow2;
  }

  lemma BitsAre(v: nat)
    ensures Bits32(v, 0, 8) == v % 0x100 && Bits32(v, 8, 8) == v / 0x100 % 0x100
    ensures Bits32(v, 16, 8) == v / 0x1_0000 % 0x100 && Bits32(v, 24, 8) == v / 0x100_0000 % 0x100
  {
    PowersOf256();
    hide Pow2;
  }

  lemma FourBytes(v: nat)
    requires v < 0x1_0000_0000
    ensures FromBytes(v % 0x100, v / 0x100 % 0x100, v / 0x1_0000 % 0x100, v / 0x100_0000 % 0x100) == v
  {
    var a, x: nat := v % 0x100, v / 0x100;
    var b, y: nat := x % 0x100, x / 0x100;
    var c, d: nat := y % 0x100, y / 0x100;
    QuotientIs(v, 0x1_0000, y, a + 0x100 * b);
    QuotientIs(v, 0x100_0000, d, a + 0x100 * b + 0x1_0000 * c);
  }

  /** The four bytes of a pixel, in either byte order, are the value they stand for. */
  lemma PixelReadBack(b: byte, g: byte, r: byte, p: PixelFormat)
    ensures ClientValue(PixelBytes(PixelValue(b, g, r, p), p.bigEndian), p.bigEndian) == PixelValue(b, g, r, p)
  {
    var x := Or(Shl(Scaled(r, p.rMax), p.rShift), Shl(Scaled(g, p.gMax), p.gShift), 32);
    OrBound(x, Shl(Scaled(b, p.bMax), p.bShift), 32);
    PowersOf256();
    hide Or, Shl, Scaled, PixelBytes, ClientValue;
    BytesOf(PixelValue(b, g, r, p), p.bigEndian);
  }

  lemma PixelShows(b: byte, g: byte, r: byte, p: PixelFormat, rk: nat, gk: nat, bk: nat)
    requires WellFormed(p, rk, gk, bk)
    ensures Shows(PixelBytes(PixelValue(b, g, r, p), p.bigEndian), p, rk, gk, bk, b, g, r)
  {
    PixelReadBack(b, g, r, p);
    ChannelsRecovered(b, g, r, p, rk, gk, bk);
    var v := PixelValue(b, g, r, p);
    FieldIsBits(v, p.rShift, rk);
    FieldIsBits(v, p.gShift, gk);
    FieldIsBits(v, p.bShift, bk);
    hide PixelValue, PixelBytes, ClientValue, Field, Bits32;
  }

  lemma {:induction false} Pow2Injective(a: nat, b: nat)
    requires Pow2(a) == Pow2(b)
    ensures a == b
  {
    if a > 0 && b > 0 {
      Pow2Injective(a - 1, b - 1);
    }
  }

  /** A copied pixel shows its colours whatever its pad byte is. */
  lemma CopyShows(px: seq<byte>, rk: nat, gk: nat, bk: nat)
    requires |px| == 4 && WellFormed(NATIVE, rk, gk, bk)
    ensures Shows(px, NATIVE, rk, gk, bk, px[0], px[1], px[2])
  {
    PowersOf256();
    Pow2Injective(rk, 8);
    Pow2Injective(gk, 8);
    Pow2Injective(bk, 8);
    var v := FromBytes(px[0], px[1], px[2], px[3]);
    BitsAre(v);
    SplitBytes(px[0], px[1], px[2], px[3]);
    hide Pow2, Bits32, FromBytes;
  }

  lemma SplitBytes(a: byte, b: byte, c: byte, d: byte)
    ensures var v := FromBytes(a, b, c, d); v % 0x100 == a && v / 0x100 % 0x100 == b && v / 0x1_0000 % 0x100 == c
  {
    var v, x, y := FromBytes(a, b, c, d), b + 0x100 * (c + 0x100 * d), c + 0x100 * d;
    QuotientIs(v, 0x100, x, a);
    QuotientIs(x, 0x100, y, b);
    QuotientIs(v, 0x1_0000, y, a + 0x100 * b);
    QuotientIs(y, 0x100, d, c);
  }

  lemma {:induction false} PixelsAt(src: seq<byte>, n: nat, p: PixelFormat, x: nat)
    requires 4 * n <= |src| && x < n
    ensures Pixels(src, n, p)[4 * x..4 * x + 4] == Pixel(src, x, p)
  {
    hide Pixel;
    if x < n - 1 {
      PixelsAt(src, n - 1, p, x);
      assert Pixels(src, n, p)[..4 * (n - 1)] == Pixels(src, n - 1, p);
    }
  }

  /** Every pixel of a row as it is sent shows the source pixel in its place. */
  lemma RowShows(src: seq<byte>, n: nat, p: PixelFormat, rk: nat, gk: nat, bk: nat, x: nat)
    requires 4 * n <= |src| && x < n && WellFormed(p, rk, gk, bk)
    ensures Shows(Row(src, n, p)[4 * x..4 * x + 4], p, rk, gk, bk, src[4 * x], src[4 * x + 1], src[4 * x + 2])
  {
    if p == NATIVE {
      CopyShows(src[4 * x..4 * x + 4], rk, gk, bk);
      assert src[..4 * n][4 * x..4 * x + 4] == src[4 * x..4 * x + 4];
      hide Shows;
    } else {
      PixelsAt(src, n, p, x);
      PixelShows(src[4 * x], src[4 * x + 1], src[4 * x + 2], p, rk, gk, bk);
      hide Shows, Pixels, PixelBytes, PixelValue, WellFormed;
    }
  }
}
