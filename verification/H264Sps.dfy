/**
 * The SPS parser of jetkvm/video.go: the size of the picture an H.264 sequence parameter
 * set describes. The syntax it must undo is that of section 7.3.2.1.1 of H.264, inside the
 * emulation prevention of section 7.4.1.
 */
module H264Sps {
  import opened Bytes
  import opened H264Bits

  // -- emulation prevention -------------------------------------------------------------

  /** What the standard's encoder writes: 03 after two zeros whenever 00..03 would follow. */
  function Escape(rbsp: seq<byte>, zeros: nat): seq<byte> {
    if rbsp == [] then []
    else if zeros >= 2 && rbsp[0] <= 3 then
      [3, rbsp[0]] + Escape(rbsp[1..], if rbsp[0] == 0 then 1 else 0)
    else
      [rbsp[0]] + Escape(rbsp[1..], if rbsp[0] == 0 then zeros + 1 else 0)
  }

  /** What the parser keeps: everything but a 03 after two or more zeros. */
  function Unescape(nal: seq<byte>, zeros: nat): seq<byte> {
    if nal == [] then []
    else if zeros >= 2 && nal[0] == 3 then Unescape(nal[1..], 0)
    else [nal[0]] + Unescape(nal[1..], if nal[0] == 0 then zeros + 1 else 0)
  }

  /** Removing the emulation prevention bytes undoes inserting them, for every payload. */
  lemma {:induction false} UnescapeEscape(rbsp: seq<byte>, zeros: nat)
    requires zeros <= 2
    ensures Unescape(Escape(rbsp, zeros), zeros) == rbsp
  {
    if rbsp != [] {
      var c, rest := rbsp[0], rbsp[1..];
      if zeros >= 2 && c <= 3 {
        var after := if c == 0 then 1 else 0;
        UnescapeEscape(rest, after);
        var coded := Escape(rbsp, zeros);
        assert coded[1..] == [c] + Escape(rest, after);
        assert coded[1..][1..] == Escape(rest, after);
      } else {
        var after := if c == 0 then zeros + 1 else 0;
        UnescapeEscape(rest, after);
        assert Escape(rbsp, zeros)[1..] == Escape(rest, after);
      }
    }
  }

  lemma {:induction false} EscapeLength(rbsp: seq<byte>, zeros: nat)
    ensures |Escape(rbsp, zeros)| >= |rbsp|
  {
    if rbsp != [] {
      EscapeLength(rbsp[1..], if rbsp[0] == 0 then if zeros >= 2 then 1 else zeros + 1 else 0);
    }
  }

  method RemoveEmulation(nal: seq<byte>) returns (rbsp: seq<byte>)
    ensures rbsp == Unescape(nal, 0)
  {
    rbsp := [];
    var zeros := 0;
    for i := 0 to |nal|
      invariant rbsp + Unescape(nal[i..], zeros) == Unescape(nal, 0)
    {
      var c := nal[i];
      assert nal[i..][1..] == nal[i + 1..];
      if zeros >= 2 && c == 3 {
        zeros := 0;
        continue;
      }
      AppendOne(rbsp, c, Unescape(nal[i + 1..], if c == 0 then zeros + 1 else 0));
      zeros := if c == 0 then zeros + 1 else 0;
      rbsp := rbsp + [c];
    }
  }

  lemma AppendOne(a: seq<byte>, c: byte, b: seq<byte>)
    ensures a + ([c] + b) == (a + [c]) + b
  {
  }

  // -- what the parser reads ------------------------------------------------------------

  /** The profiles whose SPS carries the chroma format and scaling lists. */
  const HIGH_PROFILES: set<int> := {100, 110, 122, 244, 44, 83, 86, 118, 128, 138, 139, 134, 135}

  /** Go's remainder: the sign of the dividend. */
  function GoMod(a: int, n: int): int
    requires n > 0
  {
    if a >= 0 then a % n else -(-a % n)
  }

  function ListSize(i: nat): nat { if i >= 6 then 64 else 16 }

  function ListCount(chroma: nat): nat { if chroma == 3 then 12 else 8 }

  function SkipList(bs: seq<bit>, c: Cursor, size: nat, j: nat, last: int, next: int): Cursor
    requires j <= size
    decreases size - j
  {
    if j == size || !c.ok then c
    else
      var (delta, c1) := if next != 0 then ReadSe(bs, c) else (0, c);
      var next' := if next != 0 then GoMod(last + delta + 256, 256) else 0;
      SkipList(bs, c1, size, j + 1, if next' != 0 then next' else last, next')
  }

  function SkipLists(bs: seq<bit>, c: Cursor, count: nat, i: nat): Cursor
    requires i <= count
    decreases count - i
  {
    if i == count then c
    else
      var (present, c1) := ReadBit(bs, c);
      SkipLists(bs, if present == 1 then SkipList(bs, c1, ListSize(i), 0, 8, 8) else c1, count, i + 1)
  }

  function SkipSes(bs: seq<bit>, c: Cursor, n: nat, i: nat): Cursor
    requires i <= n
    decreases n - i
  {
    if i == n || !c.ok then c else SkipSes(bs, ReadSe(bs, c).1, n, i + 1)
  }

  /** The part only the high profiles carry; yields the chroma format. */
  function ReadHigh(bs: seq<bit>, c: Cursor, profile: nat): (nat, Cursor) {
    if profile !in HIGH_PROFILES then (1, c)
    else
      var (chroma, c1) := ReadUe(bs, c);
      var c2 := if chroma == 3 then ReadBit(bs, c1).1 else c1;
      var c3 := ReadUe(bs, ReadUe(bs, c2).1).1;
      var (lists, c4) := ReadBit(bs, ReadBit(bs, c3).1);
      (chroma, if lists == 1 then SkipLists(bs, c4, ListCount(chroma), 0) else c4)
  }

  /** The frame number and picture order count fields, and the reference frame count. */
  function ReadOrder(bs: seq<bit>, c: Cursor): Cursor {
    var (kind, c1) := ReadUe(bs, ReadUe(bs, c).1);
    var c2 :=
      if kind == 0 then ReadUe(bs, c1).1
      else if kind == 1 then
        var c3 := ReadSe(bs, ReadSe(bs, ReadBit(bs, c1).1).1).1;
        var (n, c4) := ReadUe(bs, c3);
        SkipSes(bs, c4, n, 0)
      else c1;
    ReadBit(bs, ReadUe(bs, c2).1).1
  }

  /** The size in macroblocks: width, height in map units, and frame_mbs_only_flag. */
  function ReadSize(bs: seq<bit>, c: Cursor): ((nat, nat, bit), Cursor) {
    var (w, c1) := ReadUe(bs, c);
    var (h, c2) := ReadUe(bs, c1);
    var (frameOnly, c3) := ReadBit(bs, c2);
    var c4 := if frameOnly == 0 then ReadBit(bs, c3).1 else c3;
    ((w + 1, h + 1, frameOnly), ReadBit(bs, c4).1)
  }

  datatype Crop = Crop(left: nat, right: nat, top: nat, bottom: nat)

  function ReadCrop(bs: seq<bit>, c: Cursor): (Crop, Cursor) {
    var (present, c1) := ReadBit(bs, c);
    if present == 0 then (Crop(0, 0, 0, 0), c1)
    else
      var (l, c2) := ReadUe(bs, c1);
      var (r, c3) := ReadUe(bs, c2);
      var (t, c4) := ReadUe(bs, c3);
      var (b, c5) := ReadUe(bs, c4);
      (Crop(l, r, t, b), c5)
  }

  /** The cropping unit the parser uses. */
  function CropUnit(chroma: nat, frameOnly: bit): (int, int) {
    var frames := 2 - frameOnly as int;
    if chroma == 0 || chroma == 3 then (1, frames) else (2, if chroma == 2 then frames else 2 * frames)
  }

  datatype SpsResult = Size(w: int, h: int) | NotSps | Truncated | Implausible

  function SizeOf(chroma: nat, mbs: (nat, nat, bit), crop: Crop): (int, int) {
    var (cux, cuy) := CropUnit(chroma, mbs.2);
    (16 * mbs.0 - cux * (crop.left + crop.right),
     16 * (2 - mbs.2 as int) * mbs.1 - cuy * (crop.top + crop.bottom))
  }

  function ParseBits(bs: seq<bit>): SpsResult {
    var (profile, c1) := ReadBits(bs, Cursor(0, true), 8);
    var c2 := ReadBits(bs, ReadBits(bs, c1, 8).1, 8).1;
    var (chroma, c3) := ReadHigh(bs, ReadUe(bs, c2).1, profile);
    var (mbs, c4) := ReadSize(bs, ReadOrder(bs, c3));
    var (crop, c5) := ReadCrop(bs, c4);
    var (w, h) := SizeOf(chroma, mbs, crop);
    if !c5.ok then Truncated else if w <= 0 || h <= 0 then Implausible else Size(w, h)
  }

  function Parse(nal: seq<byte>): SpsResult {
    if |nal| < 4 || nal[0] % 32 != 7 then NotSps else ParseBits(Bits(Unescape(nal[1..], 0)))
  }

  // -- the parser -----------------------------------------------------------------------

  method SkipScalingList(r: BitReader, size: nat)
    modifies r
    ensures r.Cur() == SkipList(r.Stream, old(r.Cur()), size, 0, 8, 8)
  {
    hide ReadSe, GoMod;
    var last, next, j := 8, 8, 0;
    while j < size && r.ok
      invariant j <= size
      invariant SkipList(r.Stream, old(r.Cur()), size, 0, 8, 8) == SkipList(r.Stream, r.Cur(), size, j, last, next)
    {
      if next != 0 {
        var delta := r.Se();
        next := GoMod(last + delta + 256, 256);
      }
      if next != 0 {
        last := next;
      }
      j := j + 1;
    }
  }

  method SkipHigh(r: BitReader, profile: nat) returns (chroma: nat)
    modifies r
    ensures (chroma, r.Cur()) == ReadHigh(r.Stream, old(r.Cur()), profile)
  {
    hide ReadUe, ReadBit, SkipList;
    chroma := 1;
    if profile in HIGH_PROFILES {
      chroma := r.Ue();
      if chroma == 3 {
        var _ := r.Bit();
      }
      var _ := r.Ue();
      var _ := r.Ue();
      var _ := r.Bit();
      var present := r.Bit();
      if present == 1 {
        var lists := if chroma == 3 then 12 else 8;
        ghost var start := r.Cur();
        for i := 0 to lists
          invariant SkipLists(r.Stream, start, lists, 0) == SkipLists(r.Stream, r.Cur(), lists, i)
        {
          var flag := r.Bit();
          if flag == 1 {
            SkipScalingList(r, if i >= 6 then 64 else 16);
          }
        }
      }
    }
  }

  method SkipOrder(r: BitReader)
    modifies r
    ensures r.Cur() == ReadOrder(r.Stream, old(r.Cur()))
  {
    hide ReadUe, ReadSe, ReadBit;
    var _ := r.Ue();
    var kind := r.Ue();
    if kind == 0 {
      var _ := r.Ue();
    } else if kind == 1 {
      var _ := r.Bit();
      var _ := r.Se();
      var _ := r.Se();
      var n := r.Ue();
      ghost var start := r.Cur();
      var i := 0;
      while i < n && r.ok
        invariant i <= n
        invariant SkipSes(r.Stream, start, n, 0) == SkipSes(r.Stream, r.Cur(), n, i)
      {
        var _ := r.Se();
        i := i + 1;
      }
    }
    var _ := r.Ue();
    var _ := r.Bit();
  }

  method CropOf(r: BitReader) returns (crop: Crop)
    modifies r
    ensures (crop, r.Cur()) == ReadCrop(r.Stream, old(r.Cur()))
  {
    hide ReadUe, ReadBit;
    crop := Crop(0, 0, 0, 0);
    var present := r.Bit();
    if present == 1 {
      var left := r.Ue();
      var right := r.Ue();
      var top := r.Ue();
      var bottom := r.Ue();
      crop := Crop(left, right, top, bottom);
    }
  }

  method MacroblockSize(r: BitReader) returns (mbW: nat, mapH: nat, frameMbsOnly: bit)
    modifies r
    ensures ((mbW, mapH, frameMbsOnly), r.Cur()) == ReadSize(r.Stream, old(r.Cur()))
  {
    hide ReadUe, ReadBit;
    var w := r.Ue();
    var h := r.Ue();
    mbW, mapH := w + 1, h + 1;
    frameMbsOnly := r.Bit();
    if frameMbsOnly == 0 {
      var _ := r.Bit();
    }
    var _ := r.Bit();
  }

  method ParseSps(nal: seq<byte>) returns (res: SpsResult)
    ensures res == Parse(nal)
  {
    hide Unescape, ReadBits, ReadUe, ReadHigh, ReadOrder, ReadSize, ReadCrop;
    if |nal| < 4 || nal[0] % 32 != 7 {
      return NotSps;
    }
    var rbsp := RemoveEmulation(nal[1..]);
    var r := new BitReader(rbsp);
    var profile := r.ReadN(8);
    var _ := r.ReadN(8);
    var _ := r.ReadN(8);
    var _ := r.Ue();
    var chroma := SkipHigh(r, profile);
    SkipOrder(r);
    var mbW, mapH, frameMbsOnly := MacroblockSize(r);
    var w: int, h: int := mbW * 16, (2 - frameMbsOnly as int) * mapH * 16;
    var crop := CropOf(r);
    var cux, cuy := CropUnit(chroma, frameMbsOnly).0, CropUnit(chroma, frameMbsOnly).1;
    w := w - (crop.left + crop.right) * cux;
    h := h - (crop.top + crop.bottom) * cuy;
    if !r.ok {
      return Truncated;
    }
    if w <= 0 || h <= 0 {
      return Implausible;
    }
    return Size(w, h);
  }

  // -- the syntax of the standard -------------------------------------------------------

  /** The chroma and scaling fields of a high-profile SPS; the `None` lists are absent. */
  datatype High = High(chromaFormat: nat, separatePlanes: bit, lumaDepth: nat, chromaDepth: nat,
                       bypass: bit, scaling: Option<seq<Option<seq<int>>>>)

  datatype Poc =
    | Poc0(log2MaxLsb: nat)
    | Poc1(deltaZero: bit, nonRef: int, topToBottom: int, refs: seq<int>)
    | Poc2

  /** `tail` is everything after the cropping fields: the VUI and the trailing bits. */
  datatype Sps = Sps(profile: byte, constraints: byte, level: byte, id: nat, high: High,
                     log2MaxFrameNum: nat, poc: Poc, refFrames: nat, gaps: bit,
                     widthMinus1: nat, heightMinus1: nat, frameMbsOnly: bit, adaptive: bit,
                     direct8x8: bit, crop: Option<Crop>, tail: seq<bit>)

  function ListBits(deltas: seq<int>, j: nat, last: int, next: int): seq<bit>
    requires j <= |deltas|
    decreases |deltas| - j
  {
    if j == |deltas| then []
    else if next != 0 then
      var next' := GoMod(last + deltas[j] + 256, 256);
      Se(deltas[j]) + ListBits(deltas, j + 1, if next' != 0 then next' else last, next')
    else ListBits(deltas, j + 1, last, 0)
  }

  function ListsBits(lists: seq<Option<seq<int>>>, i: nat): seq<bit>
    requires i <= |lists|
    decreases |lists| - i
  {
    if i == |lists| then []
    else
      (match lists[i] case None => [0] case Some(deltas) => [1] + ListBits(deltas, 0, 8, 8))
      + ListsBits(lists, i + 1)
  }

  function SesBits(vs: seq<int>, i: nat): seq<bit>
    requires i <= |vs|
    decreases |vs| - i
  {
    if i == |vs| then [] else Se(vs[i]) + SesBits(vs, i + 1)
  }

  /** The profiles for which section 7.3.2.1.1 has the chroma and scaling fields. */
  predicate HasChroma(profile: byte) {
    profile == 100 || profile == 110 || profile == 122 || profile == 244 || profile == 44 || profile == 83
    || profile == 86 || profile == 118 || profile == 128 || profile == 138 || profile == 139 || profile == 134
    || profile == 135
  }

  function HighBits(s: Sps): seq<bit> {
    if !HasChroma(s.profile) then []
    else
      var h := s.high;
      Ue(h.chromaFormat) + ((if h.chromaFormat == 3 then [h.separatePlanes] else [])
      + (Ue(h.lumaDepth) + (Ue(h.chromaDepth) + ([h.bypass]
      + (match h.scaling case None => [0] case Some(lists) => [1] + ListsBits(lists, 0))))))
  }

  function PocBits(p: Poc): seq<bit> {
    match p
    case Poc0(log2MaxLsb) => Ue(0) + Ue(log2MaxLsb)
    case Poc1(deltaZero, nonRef, topToBottom, refs) =>
      Ue(1) + ([deltaZero] + (Se(nonRef) + (Se(topToBottom) + (Ue(|refs|) + SesBits(refs, 0)))))
    case Poc2 => Ue(2)
  }

  function OrderBits(s: Sps): seq<bit> {
    Ue(s.log2MaxFrameNum) + (PocBits(s.poc) + (Ue(s.refFrames) + [s.gaps]))
  }

  function SizeBits(s: Sps): seq<bit> {
    Ue(s.widthMinus1) + (Ue(s.heightMinus1) + ([s.frameMbsOnly]
    + ((if s.frameMbsOnly == 0 then [s.adaptive] else []) + [s.direct8x8])))
  }

  function CropBits(s: Sps): seq<bit> {
    match s.crop
    case None => [0]
    case Some(c) => [1] + (Ue(c.left) + (Ue(c.right) + (Ue(c.top) + Ue(c.bottom))))
  }

  function SpsBits(s: Sps): seq<bit> {
    BitsOf(s.profile, 8) + (BitsOf(s.constraints, 8) + (BitsOf(s.level, 8) + (Ue(s.id)
    + (HighBits(s) + (OrderBits(s) + (SizeBits(s) + (CropBits(s) + s.tail)))))))
  }

  /** The NAL unit that carries `s`, with header byte `header`. */
  function Nal(header: byte, s: Sps): seq<byte>
    requires |SpsBits(s)| % 8 == 0
  {
    [header] + Escape(Pack(SpsBits(s)), 0)
  }

  predicate ListOk(deltas: seq<int>, i: nat) {
    |deltas| == (if i < 6 then 16 else 64) && forall d <- deltas :: IsSe(d)
  }

  predicate HighOk(h: High) {
    && h.chromaFormat <= 3 && IsUe(h.lumaDepth) && IsUe(h.chromaDepth)
    && (h.scaling.Some? ==>
          && |h.scaling.value| == (if h.chromaFormat == 3 then 12 else 8)
          && forall i | 0 <= i < |h.scaling.value| && h.scaling.value[i].Some? ::
               ListOk(h.scaling.value[i].value, i))
  }

  predicate PocOk(p: Poc) {
    match p
    case Poc0(log2MaxLsb) => IsUe(log2MaxLsb)
    case Poc1(_, nonRef, topToBottom, refs) =>
      IsSe(nonRef) && IsSe(topToBottom) && IsUe(|refs|) && forall v <- refs :: IsSe(v)
    case Poc2 => true
  }

  /** Every field within the range its code allows, and a whole number of bytes. */
  ghost predicate WellFormed(s: Sps) {
    && IsUe(s.id) && HighOk(s.high) && IsUe(s.log2MaxFrameNum) && PocOk(s.poc) && IsUe(s.refFrames)
    && IsUe(s.widthMinus1) && IsUe(s.heightMinus1)
    && (s.crop.Some? ==>
          && IsUe(s.crop.value.left) && IsUe(s.crop.value.right)
          && IsUe(s.crop.value.top) && IsUe(s.crop.value.bottom))
    && |SpsBits(s)| % 8 == 0
  }

  // -- the picture size, as the standard derives it (section 7.4.2.1.1) ------------------

  function ChromaFormat(s: Sps): nat {
    if HasChroma(s.profile) then s.high.chromaFormat else 1
  }

  /** ChromaArrayType: 0 when the colour planes are coded separately. */
  function ChromaArrayType(s: Sps): nat {
    if ChromaFormat(s) == 3 && s.high.separatePlanes == 1 then 0 else ChromaFormat(s)
  }

  function SubWidthC(chroma: nat): int { if chroma == 3 then 1 else 2 }

  function SubHeightC(chroma: nat): int { if chroma == 1 then 2 else 1 }

  function PictureSize(s: Sps): (int, int) {
    var frames := 2 - s.frameMbsOnly as int;
    var cat := ChromaArrayType(s);
    var cux := if cat == 0 then 1 else SubWidthC(ChromaFormat(s));
    var cuy := if cat == 0 then frames else SubHeightC(ChromaFormat(s)) * frames;
    var crop := CropOrNone(s.crop);
    (16 * (s.widthMinus1 + 1) - cux * (crop.left + crop.right),
     16 * frames * (s.heightMinus1 + 1) - cuy * (crop.top + crop.bottom))
  }

  // -- the parser inverts the encoder ---------------------------------------------------

  lemma {:induction false} SkipsList(bs: seq<bit>, c: Cursor, deltas: seq<int>, j: nat, last: int, next: int)
    requires c.ok && j <= |deltas| && (forall d <- deltas :: IsSe(d))
    requires At(bs, c.pos, ListBits(deltas, j, last, next))
    ensures SkipList(bs, c, |deltas|, j, last, next)
         == c.(pos := c.pos + |ListBits(deltas, j, last, next)|)
    decreases |deltas| - j
  {
    hide ReadSe, Se, At;
    if j < |deltas| {
      if next != 0 {
        var next' := GoMod(last + deltas[j] + 256, 256);
        var last' := if next' != 0 then next' else last;
        SeThen(bs, c, deltas[j], ListBits(deltas, j + 1, last', next'));
        SkipsList(bs, c.(pos := c.pos + |Se(deltas[j])|), deltas, j + 1, last', next');
      } else {
        SkipsList(bs, c, deltas, j + 1, last, 0);
      }
    }
  }

  lemma {:induction false} SkipsLists(bs: seq<bit>, c: Cursor, lists: seq<Option<seq<int>>>, i: nat)
    requires c.ok && i <= |lists|
    requires forall k | 0 <= k < |lists| && lists[k].Some? :: ListOk(lists[k].value, k)
    requires At(bs, c.pos, ListsBits(lists, i))
    ensures SkipLists(bs, c, |lists|, i) == c.(pos := c.pos + |ListsBits(lists, i)|)
    decreases |lists| - i
  {
    hide ReadBit, At, ListBits, SkipList;
    if i < |lists| {
      var rest := ListsBits(lists, i + 1);
      match lists[i]
      case None =>
        BitThen(bs, c, 0, rest);
        SkipsLists(bs, c.(pos := c.pos + 1), lists, i + 1);
      case Some(deltas) =>
        var code := ListBits(deltas, 0, 8, 8);
        assert ListsBits(lists, i) == [1] + (code + rest);
        BitThen(bs, c, 1, code + rest);
        AtConcat(bs, c.pos + 1, code, rest);
        SkipsList(bs, c.(pos := c.pos + 1), deltas, 0, 8, 8);
        SkipsLists(bs, c.(pos := c.pos + 1 + |code|), lists, i + 1);
    }
  }

  lemma {:induction false} SkipsSes(bs: seq<bit>, c: Cursor, vs: seq<int>, i: nat)
    requires c.ok && i <= |vs| && (forall v <- vs :: IsSe(v))
    requires At(bs, c.pos, SesBits(vs, i))
    ensures SkipSes(bs, c, |vs|, i) == c.(pos := c.pos + |SesBits(vs, i)|)
    decreases |vs| - i
  {
    hide ReadSe, Se, At;
    if i < |vs| {
      SeThen(bs, c, vs[i], SesBits(vs, i + 1));
      SkipsSes(bs, c.(pos := c.pos + |Se(vs[i])|), vs, i + 1);
    }
  }

  lemma ReadsHigh(bs: seq<bit>, c: Cursor, s: Sps)
    requires c.ok && HighOk(s.high) && At(bs, c.pos, HighBits(s))
    ensures ReadHigh(bs, c, s.profile) == (ChromaFormat(s), c.(pos := c.pos + |HighBits(s)|))
  {
    hide ReadUe, ReadBit, Ue, At, ListsBits, SkipLists;
    if HasChroma(s.profile) {
      var h := s.high;
      var r6 := match h.scaling case None => [0] case Some(lists) => [1] + ListsBits(lists, 0);
      var r5 := [h.bypass] + r6;
      var r4 := Ue(h.chromaDepth) + r5;
      var r3 := Ue(h.lumaDepth) + r4;
      var planes: seq<bit> := if h.chromaFormat == 3 then [h.separatePlanes] else [];
      UeThen(bs, c, h.chromaFormat, planes + r3);
      var c1 := c.(pos := c.pos + |Ue(h.chromaFormat)|);
      if h.chromaFormat == 3 {
        BitThen(bs, c1, h.separatePlanes, r3);
      } else {
        assert planes + r3 == r3;
      }
      var c2 := c1.(pos := c1.pos + |planes|);
      UeThen(bs, c2, h.lumaDepth, r4);
      var c3 := c2.(pos := c2.pos + |Ue(h.lumaDepth)|);
      UeThen(bs, c3, h.chromaDepth, r5);
      var c4 := c3.(pos := c3.pos + |Ue(h.chromaDepth)|);
      BitThen(bs, c4, h.bypass, r6);
      var c5 := c4.(pos := c4.pos + 1);
      ReadsScaling(bs, c5, h);
    }
  }

  lemma ReadsScaling(bs: seq<bit>, c: Cursor, h: High)
    requires c.ok && HighOk(h)
    requires At(bs, c.pos, match h.scaling case None => [0] case Some(lists) => [1] + ListsBits(lists, 0))
    ensures ReadBit(bs, c) == (if h.scaling.Some? then 1 else 0, c.(pos := c.pos + 1))
    ensures h.scaling.Some? ==>
              SkipLists(bs, c.(pos := c.pos + 1), ListCount(h.chromaFormat), 0)
                == c.(pos := c.pos + 1 + |ListsBits(h.scaling.value, 0)|)
  {
    hide ReadBit, At, ListsBits, SkipLists;
    match h.scaling
    case None =>
      assert [0] + [] == [0 as bit];
      BitThen(bs, c, 0, []);
    case Some(lists) =>
      BitThen(bs, c, 1, ListsBits(lists, 0));
      SkipsLists(bs, c.(pos := c.pos + 1), lists, 0);
  }

  lemma ReadsPoc(bs: seq<bit>, c: Cursor, p: Poc, rest: seq<bit>)
    requires c.ok && PocOk(p) && At(bs, c.pos, PocBits(p) + rest)
    ensures At(bs, c.pos + |PocBits(p)|, rest)
    ensures var (kind, c1) := ReadUe(bs, c);
      kind == (match p case Poc0(_) => 0 case Poc1(_, _, _, _) => 1 case Poc2 => 2) &&
      (if kind == 0 then ReadUe(bs, c1).1
       else if kind == 1 then
         var c3 := ReadSe(bs, ReadSe(bs, ReadBit(bs, c1).1).1).1;
         var (n, c4) := ReadUe(bs, c3);
         SkipSes(bs, c4, n, 0)
       else c1) == c.(pos := c.pos + |PocBits(p)|)
  {
    hide ReadUe, ReadSe, ReadBit, Ue, Se, At, SesBits, SkipSes;
    AtConcat(bs, c.pos, PocBits(p), rest);
    match p
    case Poc0(log2MaxLsb) =>
      UeThen(bs, c, 0, Ue(log2MaxLsb));
      assert Ue(log2MaxLsb) + [] == Ue(log2MaxLsb);
      UeThen(bs, c.(pos := c.pos + |Ue(0)|), log2MaxLsb, []);
    case Poc1(deltaZero, nonRef, topToBottom, refs) =>
      var r4 := SesBits(refs, 0);
      var r3 := Ue(|refs|) + r4;
      var r2 := Se(topToBottom) + r3;
      var r1 := Se(nonRef) + r2;
      UeThen(bs, c, 1, [deltaZero] + r1);
      var c1 := c.(pos := c.pos + |Ue(1)|);
      BitThen(bs, c1, deltaZero, r1);
      var c2 := c1.(pos := c1.pos + 1);
      SeThen(bs, c2, nonRef, r2);
      var c3 := c2.(pos := c2.pos + |Se(nonRef)|);
      SeThen(bs, c3, topToBottom, r3);
      var c4 := c3.(pos := c3.pos + |Se(topToBottom)|);
      UeThen(bs, c4, |refs|, r4);
      SkipsSes(bs, c4.(pos := c4.pos + |Ue(|refs|)|), refs, 0);
    case Poc2 =>
      assert Ue(2) + [] == Ue(2);
      UeThen(bs, c, 2, []);
  }

  lemma ReadsOrder(bs: seq<bit>, c: Cursor, s: Sps)
    requires c.ok && IsUe(s.log2MaxFrameNum) && PocOk(s.poc) && IsUe(s.refFrames)
    requires At(bs, c.pos, OrderBits(s))
    ensures ReadOrder(bs, c) == c.(pos := c.pos + |OrderBits(s)|)
  {
    hide ReadUe, ReadSe, ReadBit, Ue, Se, At, PocBits, SkipSes;
    var r1 := Ue(s.refFrames) + [s.gaps];
    UeThen(bs, c, s.log2MaxFrameNum, PocBits(s.poc) + r1);
    var c1 := c.(pos := c.pos + |Ue(s.log2MaxFrameNum)|);
    ReadsPoc(bs, c1, s.poc, r1);
    var c2 := c1.(pos := c1.pos + |PocBits(s.poc)|);
    UeThen(bs, c2, s.refFrames, [s.gaps]);
    assert [s.gaps] + [] == [s.gaps];
    BitThen(bs, c2.(pos := c2.pos + |Ue(s.refFrames)|), s.gaps, []);
  }

  lemma ReadsSize(bs: seq<bit>, c: Cursor, s: Sps)
    requires c.ok && IsUe(s.widthMinus1) && IsUe(s.heightMinus1) && At(bs, c.pos, SizeBits(s))
    ensures ReadSize(bs, c)
         == ((s.widthMinus1 + 1, s.heightMinus1 + 1, s.frameMbsOnly), c.(pos := c.pos + |SizeBits(s)|))
  {
    hide ReadUe, ReadBit, Ue, At;
    var adaptive: seq<bit> := if s.frameMbsOnly == 0 then [s.adaptive] else [];
    var r2 := adaptive + [s.direct8x8];
    var r1 := [s.frameMbsOnly] + r2;
    UeThen(bs, c, s.widthMinus1, Ue(s.heightMinus1) + r1);
    var c1 := c.(pos := c.pos + |Ue(s.widthMinus1)|);
    UeThen(bs, c1, s.heightMinus1, r1);
    var c2 := c1.(pos := c1.pos + |Ue(s.heightMinus1)|);
    BitThen(bs, c2, s.frameMbsOnly, r2);
    var c3 := c2.(pos := c2.pos + 1);
    if s.frameMbsOnly == 0 {
      BitThen(bs, c3, s.adaptive, [s.direct8x8]);
    } else {
      assert r2 == [s.direct8x8];
    }
    assert [s.direct8x8] + [] == [s.direct8x8];
    BitThen(bs, c3.(pos := c3.pos + |adaptive|), s.direct8x8, []);
  }

  function CropOrNone(crop: Option<Crop>): Crop {
    match crop case None => Crop(0, 0, 0, 0) case Some(c) => c
  }

  lemma ReadsCrop(bs: seq<bit>, c: Cursor, s: Sps)
    requires c.ok && At(bs, c.pos, CropBits(s))
    requires s.crop.Some? ==>
               && IsUe(s.crop.value.left) && IsUe(s.crop.value.right)
               && IsUe(s.crop.value.top) && IsUe(s.crop.value.bottom)
    ensures ReadCrop(bs, c) == (CropOrNone(s.crop), c.(pos := c.pos + |CropBits(s)|))
  {
    hide ReadUe, ReadBit, Ue, At;
    match s.crop
    case None =>
      assert [0] + [] == [0 as bit];
      BitThen(bs, c, 0, []);
    case Some(k) =>
      var r2 := Ue(k.top) + Ue(k.bottom);
      var r1 := Ue(k.right) + r2;
      BitThen(bs, c, 1, Ue(k.left) + r1);
      var c1 := c.(pos := c.pos + 1);
      UeThen(bs, c1, k.left, r1);
      var c2 := c1.(pos := c1.pos + |Ue(k.left)|);
      UeThen(bs, c2, k.right, r2);
      var c3 := c2.(pos := c2.pos + |Ue(k.right)|);
      UeThen(bs, c3, k.top, Ue(k.bottom));
      assert Ue(k.bottom) + [] == Ue(k.bottom);
      UeThen(bs, c3.(pos := c3.pos + |Ue(k.top)|), k.bottom, []);
  }

  /** The header bytes and identifier in front of the chroma fields. */
  lemma ReadsHead(bs: seq<bit>, s: Sps, rest: seq<bit>)
    requires IsUe(s.id)
    requires At(bs, 0, BitsOf(s.profile, 8) + (BitsOf(s.constraints, 8) + (BitsOf(s.level, 8) + (Ue(s.id) + rest))))
    ensures var (profile, c1) := ReadBits(bs, Cursor(0, true), 8);
      && profile == s.profile
      && ReadUe(bs, ReadBits(bs, ReadBits(bs, c1, 8).1, 8).1).1 == Cursor(24 + |Ue(s.id)|, true)
    ensures At(bs, 24 + |Ue(s.id)|, rest)
  {
    hide ReadUe, ReadBits, BitsOf, Ue, At;
    assert Pow2(8) == 0x100;
    var r2 := Ue(s.id) + rest;
    var r1 := BitsOf(s.level, 8) + r2;
    BitsThen(bs, Cursor(0, true), s.profile, 8, BitsOf(s.constraints, 8) + r1);
    BitsThen(bs, Cursor(8, true), s.constraints, 8, r1);
    BitsThen(bs, Cursor(16, true), s.level, 8, r2);
    UeThen(bs, Cursor(24, true), s.id, rest);
  }

  /** What the size fields make of a picture: its size, unless cropping leaves nothing. */
  function Outcome(s: Sps): SpsResult {
    var (w, h) := PictureSize(s);
    if w <= 0 || h <= 0 then Implausible else Size(w, h)
  }

  lemma CropUnitsAgree(s: Sps)
    requires s.high.chromaFormat <= 3
    ensures SizeOf(ChromaFormat(s), (s.widthMinus1 + 1, s.heightMinus1 + 1, s.frameMbsOnly), CropOrNone(s.crop))
         == PictureSize(s)
  {
  }

  /** Where the reading of the fields ends. */
  function EndOf(bs: seq<bit>): Cursor {
    var (profile, c1) := ReadBits(bs, Cursor(0, true), 8);
    var c2 := ReadUe(bs, ReadBits(bs, ReadBits(bs, c1, 8).1, 8).1).1;
    ReadCrop(bs, ReadSize(bs, ReadOrder(bs, ReadHigh(bs, c2, profile).1)).1).1
  }

  /** On the payload bits of any well-formed SPS, whatever follows the cropping fields. */
  lemma ParsesBits(s: Sps)
    requires WellFormed(s)
    ensures ParseBits(SpsBits(s)) == Outcome(s) && EndOf(SpsBits(s)).pos == |SpsBits(s)| - |s.tail|
  {
    hide ReadBits, ReadUe, ReadHigh, ReadOrder, ReadSize, ReadCrop, HighBits, OrderBits, SizeBits, CropBits, At, Ue,
      BitsOf, SizeOf, PictureSize;
    var bs := SpsBits(s);
    assert At(bs, 0, bs) by {
      WholeAt(bs);
    }
    var r3 := CropBits(s) + s.tail;
    var r2 := SizeBits(s) + r3;
    var r1 := OrderBits(s) + r2;
    ReadsHead(bs, s, HighBits(s) + r1);
    var c := Cursor(24 + |Ue(s.id)|, true);
    AtConcat(bs, c.pos, HighBits(s), r1);
    ReadsHigh(bs, c, s);
    var c1 := c.(pos := c.pos + |HighBits(s)|);
    AtConcat(bs, c1.pos, OrderBits(s), r2);
    ReadsOrder(bs, c1, s);
    var c2 := c1.(pos := c1.pos + |OrderBits(s)|);
    AtConcat(bs, c2.pos, SizeBits(s), r3);
    ReadsSize(bs, c2, s);
    var c3 := c2.(pos := c2.pos + |SizeBits(s)|);
    AtConcat(bs, c3.pos, CropBits(s), s.tail);
    ReadsCrop(bs, c3, s);
    CropUnitsAgree(s);
  }

  lemma WholeAt(bs: seq<bit>)
    ensures At(bs, 0, bs)
  {
    assert bs[0..|bs|] == bs;
  }

  /**
   * Parsing a NAL unit that carries a well-formed SPS yields the coded size minus the
   * cropping rectangle, for every profile, picture order count type and scaling list.
   */
  lemma ParseInverts(header: byte, s: Sps)
    requires header % 32 == 7 && WellFormed(s)
    ensures Parse(Nal(header, s)) == Outcome(s)
  {
    hide ParseBits, Outcome, Unescape;
    var rbsp := Pack(SpsBits(s));
    assert |SpsBits(s)| >= 24 by {
      hide HighBits, OrderBits, SizeBits, CropBits, Ue, BitsOf;
    }
    EscapeLength(rbsp, 0);
    assert Nal(header, s)[1..] == Escape(rbsp, 0);
    UnescapeEscape(rbsp, 0);
    BitsOfPack(SpsBits(s));
    ParsesBits(s);
  }

  /** A unit is refused as no parameter set exactly for its length or its header byte. */
  lemma NotSpsExactly(nal: seq<byte>)
    ensures Parse(nal) == NotSps <==> |nal| < 4 || nal[0] % 32 != 7
  {
    hide ReadBits, ReadHigh, ReadOrder, ReadSize, ReadCrop, Unescape;
  }

  /** Go's remainder by 256 is the dividend less a multiple of it, of the dividend's sign. */
  lemma GoModLaw(a: int)
    ensures var r := GoMod(a, 256);
      (r - a) % 256 == 0 && -256 < r < 256 && (a >= 0 ==> r >= 0) && (a <= 0 ==> r <= 0)
  {
  }

  // -- what the parser makes of a part of its input --------------------------------------

  lemma {:induction false} ListInside(bs: seq<bit>, n: nat, c: Cursor, size: nat, j: nat, last: int, next: int)
    requires n <= |bs| && (c.ok ==> c.pos <= n) && j <= size
    ensures var d := SkipList(bs[..n], c, size, j, last, next); Inside(c, n, d) && (d.ok ==> SkipList(bs, c, size, j, last, next) == d)
    decreases size - j
  {
    hide ReadSe, GoMod;
    if j < size && c.ok {
      if next != 0 {
        SeInside(bs, n, c);
        var (delta, c1) := ReadSe(bs[..n], c);
        var next' := GoMod(last + delta + 256, 256);
        ListInside(bs, n, c1, size, j + 1, if next' != 0 then next' else last, next');
      } else {
        ListInside(bs, n, c, size, j + 1, last, 0);
      }
    }
  }

  lemma {:induction false} ListsInside(bs: seq<bit>, n: nat, c: Cursor, count: nat, i: nat)
    requires n <= |bs| && (c.ok ==> c.pos <= n) && i <= count
    ensures var d := SkipLists(bs[..n], c, count, i); Inside(c, n, d) && (d.ok ==> SkipLists(bs, c, count, i) == d)
    decreases count - i
  {
    hide ReadBit, SkipList, ListSize;
    if i < count {
      BitInside(bs, n, c);
      var (present, c1) := ReadBit(bs[..n], c);
      if present == 1 {
        ListInside(bs, n, c1, ListSize(i), 0, 8, 8);
        ListsInside(bs, n, SkipList(bs[..n], c1, ListSize(i), 0, 8, 8), count, i + 1);
      } else {
        ListsInside(bs, n, c1, count, i + 1);
      }
    }
  }

  lemma {:induction false} SesInside(bs: seq<bit>, n: nat, c: Cursor, count: nat, i: nat)
    requires n <= |bs| && (c.ok ==> c.pos <= n) && i <= count
    ensures var d := SkipSes(bs[..n], c, count, i); Inside(c, n, d) && (d.ok ==> SkipSes(bs, c, count, i) == d)
    decreases count - i
  {
    hide ReadSe;
    if i < count && c.ok {
      SeInside(bs, n, c);
      SesInside(bs, n, ReadSe(bs[..n], c).1, count, i + 1);
    }
  }

  lemma HighInside(bs: seq<bit>, n: nat, c: Cursor, profile: nat)
    requires n <= |bs| && (c.ok ==> c.pos <= n)
    ensures var r := ReadHigh(bs[..n], c, profile); Inside(c, n, r.1) && (r.1.ok ==> ReadHigh(bs, c, profile) == r)
  {
    hide ReadUe, ReadBit, SkipLists, ListCount;
    var part := bs[..n];
    UeInside(bs, n, c);
    var (chroma, c1) := ReadUe(part, c);
    BitInside(bs, n, c1);
    var c2 := if chroma == 3 then ReadBit(part, c1).1 else c1;
    UeInside(bs, n, c2);
    UeInside(bs, n, ReadUe(part, c2).1);
    var c3 := ReadUe(part, ReadUe(part, c2).1).1;
    BitInside(bs, n, c3);
    BitInside(bs, n, ReadBit(part, c3).1);
    var (lists, c4) := ReadBit(part, ReadBit(part, c3).1);
    ListsInside(bs, n, c4, ListCount(chroma), 0);
  }

  lemma OrderInside(bs: seq<bit>, n: nat, c: Cursor)
    requires n <= |bs| && (c.ok ==> c.pos <= n)
    ensures var d := ReadOrder(bs[..n], c); Inside(c, n, d) && (d.ok ==> ReadOrder(bs, c) == d)
  {
    hide ReadUe, ReadSe, ReadBit, SkipSes;
    var part := bs[..n];
    UeInside(bs, n, c);
    UeInside(bs, n, ReadUe(part, c).1);
    var (kind, c1) := ReadUe(part, ReadUe(part, c).1);
    if kind == 0 {
      UeInside(bs, n, c1);
      OrderEndInside(bs, n, ReadUe(part, c1).1);
    } else if kind == 1 {
      BitInside(bs, n, c1);
      var d1 := ReadBit(part, c1).1;
      SeInside(bs, n, d1);
      var d2 := ReadSe(part, d1).1;
      SeInside(bs, n, d2);
      var d3 := ReadSe(part, d2).1;
      UeInside(bs, n, d3);
      var (count, d4) := ReadUe(part, d3);
      SesInside(bs, n, d4, count, 0);
      OrderEndInside(bs, n, SkipSes(part, d4, count, 0));
    } else {
      OrderEndInside(bs, n, c1);
    }
  }

  lemma OrderEndInside(bs: seq<bit>, n: nat, c: Cursor)
    requires n <= |bs| && (c.ok ==> c.pos <= n)
    ensures var d := ReadBit(bs[..n], ReadUe(bs[..n], c).1).1;
      Inside(c, n, d) && (d.ok ==> ReadBit(bs, ReadUe(bs, c).1).1 == d)
  {
    hide ReadUe, ReadBit;
    UeInside(bs, n, c);
    BitInside(bs, n, ReadUe(bs[..n], c).1);
  }

  lemma SizeInside(bs: seq<bit>, n: nat, c: Cursor)
    requires n <= |bs| && (c.ok ==> c.pos <= n)
    ensures var r := ReadSize(bs[..n], c); Inside(c, n, r.1) && (r.1.ok ==> ReadSize(bs, c) == r)
  {
    hide ReadUe, ReadBit;
    var part := bs[..n];
    UeInside(bs, n, c);
    var (w, c1) := ReadUe(part, c);
    UeInside(bs, n, c1);
    var (h, c2) := ReadUe(part, c1);
    BitInside(bs, n, c2);
    var (frameOnly, c3) := ReadBit(part, c2);
    BitInside(bs, n, c3);
    BitInside(bs, n, if frameOnly == 0 then ReadBit(part, c3).1 else c3);
  }

  lemma CropInside(bs: seq<bit>, n: nat, c: Cursor)
    requires n <= |bs| && (c.ok ==> c.pos <= n)
    ensures var r := ReadCrop(bs[..n], c); Inside(c, n, r.1) && (r.1.ok ==> ReadCrop(bs, c) == r)
  {
    hide ReadUe, ReadBit;
    var part := bs[..n];
    BitInside(bs, n, c);
    var c1 := ReadBit(part, c).1;
    UeInside(bs, n, c1);
    var c2 := ReadUe(part, c1).1;
    UeInside(bs, n, c2);
    var c3 := ReadUe(part, c2).1;
    UeInside(bs, n, c3);
    UeInside(bs, n, ReadUe(part, c3).1);
  }

  lemma HeadInside(bs: seq<bit>, n: nat)
    requires n <= |bs|
    ensures var (c0, part) := (Cursor(0, true), bs[..n]); var (profile, c1) := ReadBits(part, c0, 8);
      var d := ReadUe(part, ReadBits(part, ReadBits(part, c1, 8).1, 8).1).1;
      && Inside(c0, n, d)
      && (d.ok ==> ReadBits(bs, c0, 8) == (profile, c1) && ReadUe(bs, ReadBits(bs, ReadBits(bs, c1, 8).1, 8).1).1 == d)
  {
    hide ReadUe, ReadBits;
    var part := bs[..n];
    BitsInside(bs, n, Cursor(0, true), 8);
    var c1 := ReadBits(part, Cursor(0, true), 8).1;
    BitsInside(bs, n, c1, 8);
    var c2 := ReadBits(part, c1, 8).1;
    BitsInside(bs, n, c2, 8);
    UeInside(bs, n, ReadBits(part, c2, 8).1);
  }

  /** Any part of the input, from its beginning, is truncated or has all that is looked at. */
  lemma PartOfBits(bs: seq<bit>, n: nat)
    requires n <= |bs|
    ensures ParseBits(bs[..n]) == Truncated || (EndOf(bs).pos <= n && ParseBits(bs[..n]) == ParseBits(bs))
  {
    hide ReadUe, ReadBits, ReadHigh, ReadOrder, ReadSize, ReadCrop, SizeOf;
    var part := bs[..n];
    HeadInside(bs, n);
    var (profile, c1) := ReadBits(part, Cursor(0, true), 8);
    var c2 := ReadUe(part, ReadBits(part, ReadBits(part, c1, 8).1, 8).1).1;
    HighInside(bs, n, c2, profile);
    var c3 := ReadHigh(part, c2, profile).1;
    OrderInside(bs, n, c3);
    var c4 := ReadOrder(part, c3);
    SizeInside(bs, n, c4);
    CropInside(bs, n, ReadSize(part, c4).1);
  }

  /** The bits of a well-formed SPS cut anywhere before the end of its cropping fields are refused as truncated. */
  lemma CutIsTruncated(s: Sps, n: nat)
    requires WellFormed(s) && n < |SpsBits(s)| - |s.tail|
    ensures ParseBits(SpsBits(s)[..n]) == Truncated
  {
    hide ParseBits, EndOf, HighBits, OrderBits, SizeBits, CropBits, BitsOf, Ue;
    PartOfBits(SpsBits(s), n);
    ParsesBits(s);
  }

  lemma {:induction false} UnescapePart(b: seq<byte>, k: nat, zeros: nat)
    requires k <= |b|
    ensures Unescape(b[..k], zeros) <= Unescape(b, zeros)
  {
    if k > 0 {
      assert b[..k][1..] == b[1..][..k - 1];
      UnescapePart(b[1..], k - 1, if zeros >= 2 && b[0] == 3 then 0 else if b[0] == 0 then zeros + 1 else 0);
    }
  }

  lemma BitsPart(b: seq<byte>, k: nat)
    requires k <= |b|
    ensures Bits(b[..k]) == Bits(b)[..8 * k]
  {
  }

  /** A unit cut short is refused, or its parameter set was not cut and it parses as the whole does. */
  lemma PartOfUnit(nal: seq<byte>, k: nat)
    requires k <= |nal|
    ensures Parse(nal[..k]) in {Parse(nal), Truncated} || (k < 4 && Parse(nal[..k]) == NotSps)
  {
    hide ParseBits, Unescape, Bits, EndOf;
    if k >= 4 {
      assert nal[..k][0] == nal[0];
      assert nal[..k][1..] == nal[1..][..k - 1];
      UnescapePart(nal[1..], k - 1, 0);
      var (part, all) := (Unescape(nal[..k][1..], 0), Unescape(nal[1..], 0));
      assert part == all[..|part|];
      BitsPart(all, |part|);
      PartOfBits(Bits(all), 8 * |part|);
    }
  }
}
