/**
 * What jetkvm/rfb.go's sendFrame writes, and what a client of RFC 6143 reads from it: the
 * FramebufferUpdate message (section 7.6.1) with Raw rectangles (section 7.7.1) and the
 * DesktopSize pseudo-rectangle (section 7.8.2).
 */
module RfbStream {
  import opened Bytes
  import P = RfbPixels

  datatype Frame = Frame(seqNo: nat, w: nat, h: nat, pix: seq<byte>)

  /** As the decoder and the black frame make them: four bytes a pixel. */
  predicate IsFrame(f: Frame) { |f.pix| == 4 * f.w * f.h }

  const RAW: nat := 0
  /** -223 as an unsigned 32-bit number. */
  const DESKTOP_SIZE: nat := 0xFFFF_FF21

  // -- the bytes of one reply -----------------------------------------------------------

  function RectHeader(w: nat, h: nat, enc: nat): (r: seq<byte>)
    ensures |r| == 12
  {
    [0, 0, 0, 0] + Be16(w) + Be16(h) + Be32(enc)
  }

  lemma RowInside(f: Frame, y: nat)
    requires IsFrame(f) && y < f.h
    ensures (y + 1) * (4 * f.w) <= |f.pix|
  {
    assert (y + 1) * (4 * f.w) <= f.h * (4 * f.w);
  }

  function FrameRow(f: Frame, pf: P.PixelFormat, y: nat): (r: seq<byte>)
    requires IsFrame(f) && y < f.h
    ensures |r| == 4 * f.w
  {
    RowInside(f, y);
    P.Row(f.pix[y * (4 * f.w)..], f.w, pf)
  }

  /** The first `n` rows, converted. */
  function Rows(f: Frame, pf: P.PixelFormat, n: nat): (r: seq<byte>)
    requires IsFrame(f) && n <= f.h
    ensures |r| == n * (4 * f.w)
  {
    if n == 0 then [] else Rows(f, pf, n - 1) + FrameRow(f, pf, n - 1)
  }

  /** The reply to one request, or None when the client cannot take the new size. */
  function Reply(f: Frame, pf: P.PixelFormat, desktopSize: bool, cw: nat, ch: nat): Option<seq<byte>>
    requires IsFrame(f)
  {
    var resize := f.w != cw || f.h != ch;
    if resize && !desktopSize then None
    else
      Some([0, 0, 0, if resize then 2 else 1]
           + ((if resize then RectHeader(f.w, f.h, DESKTOP_SIZE) else [])
           + (RectHeader(f.w, f.h, RAW) + Rows(f, pf, f.h))))
  }

  // -- the server -----------------------------------------------------------------------

  class RfbSession {
    var pf: P.PixelFormat
    var desktopSize: bool
    /** The size the client believes the framebuffer has. */
    var cw: nat
    var ch: nat
    var lastSeq: nat
    /** Everything written to the connection. */
    var out: seq<byte>

    constructor (w: nat, h: nat)
      ensures pf == P.NATIVE && !desktopSize && cw == w && ch == h && lastSeq == 0 && out == []
    {
      pf, desktopSize, cw, ch, lastSeq, out := P.NATIVE, false, w, h, 0, [];
    }

    /** SetPixelFormat: a format that is not supported ends the session. */
    method SetPixelFormat(p: P.PixelFormat) returns (ok: bool)
      modifies this`pf
      ensures ok == P.Supported(p) && pf == if ok then p else old(pf)
    {
      ok := P.Supported(p);
      if ok {
        pf := p;
      }
    }

    /** SetEncodings: whether DesktopSize is among them. */
    method SetEncodings(encodings: seq<nat>)
      modifies this`desktopSize
      ensures desktopSize <==> DESKTOP_SIZE in encodings
    {
      desktopSize := false;
      for i := 0 to |encodings|
        invariant desktopSize <==> DESKTOP_SIZE in encodings[..i]
      {
        assert encodings[..i + 1] == encodings[..i] + [encodings[i]];
        if encodings[i] == DESKTOP_SIZE {
          desktopSize := true;
        }
      }
      assert encodings[..|encodings|] == encodings;
    }

    /**
     * The replies of a session, each in the format and with the flag the client had set by
     * then, up to one the client cannot take.
     */
    method Serve(sends: seq<Send>)
      requires forall x <- sends :: IsFrame(x.frame)
      modifies this
      ensures out == old(out) + Stream(sends, old(cw), old(ch))
    {
      hide Reply, IsFrame;
      ghost var all := old(out) + Stream(sends, cw, ch);
      assert sends[0..] == sends;
      for i := 0 to |sends|
        invariant forall x <- sends[i..] :: IsFrame(x.frame)
        invariant out + Stream(sends[i..], cw, ch) == all
      {
        ghost var rest := sends[i..];
        assert rest[0] == sends[i] && rest[1..] == sends[i + 1..] && sends[i] in rest;
        NextSend(out, rest, cw, ch);
        pf, desktopSize := sends[i].pf, sends[i].desktopSize;
        var ok := SendFrame(sends[i].frame);
        if !ok {
          assert out + [] == out;
          return;
        }
      }
      assert out + [] == out;
    }

    /**
     * Writes one reply. A size the client cannot take ends the session before any byte of
     * the reply is written.
     */
    method SendFrame(f: Frame) returns (ok: bool)
      requires IsFrame(f)
      modifies this`cw, this`ch, this`lastSeq, this`out
      ensures ok == Reply(f, pf, desktopSize, old(cw), old(ch)).Some?
      ensures ok ==> out == old(out) + Reply(f, pf, desktopSize, old(cw), old(ch)).value
      ensures ok ==> cw == f.w && ch == f.h && lastSeq == f.seqNo
      ensures !ok ==> out == old(out) && cw == old(cw) && ch == old(ch) && lastSeq == old(lastSeq)
    {
      hide RectHeader, Rows;
      var rects := 1;
      var resize := f.w != cw || f.h != ch;
      if resize {
        if !desktopSize {
          return false;
        }
        rects := 2;
      }
      ghost var before := out;
      out := out + [0, 0, 0, rects];
      if resize {
        out := out + RectHeader(f.w, f.h, DESKTOP_SIZE);
        cw, ch := f.w, f.h;
      }
      out := out + RectHeader(f.w, f.h, RAW);
      WriteRows(f);
      lastSeq := f.seqNo;
      Associate(before, [0, 0, 0, rects], if resize then RectHeader(f.w, f.h, DESKTOP_SIZE) else [],
                RectHeader(f.w, f.h, RAW), Rows(f, pf, f.h), out, resize);
      ok := true;
    }

    /** The row loop: each row is converted into the same buffer and written. */
    method WriteRows(f: Frame)
      requires IsFrame(f)
      modifies this`out
      ensures out == old(out) + Rows(f, pf, f.h)
    {
      var row := new byte[4 * f.w];
      for y := 0 to f.h
        invariant out == old(out) + Rows(f, pf, y)
      {
        WriteRow(f, row, y);
        RowsStep(old(out), f, pf, y);
        hide Rows, FrameRow, IsFrame;
      }
    }

    method WriteRow(f: Frame, row: array<byte>, y: nat)
      requires IsFrame(f) && y < f.h && row.Length == 4 * f.w
      modifies this`out, row
      ensures out == old(out) + FrameRow(f, pf, y)
    {
      RowInside(f, y);
      hide P.Row;
      P.ConvertRow(row, f.pix[y * (4 * f.w)..], f.w, pf);
      assert row[..] == row[..4 * f.w];
      out := out + row[..];
    }
  }

  lemma NextSend(before: seq<byte>, sends: seq<Send>, cw: nat, ch: nat)
    requires sends != [] && forall x <- sends :: IsFrame(x.frame)
    ensures var x := sends[0]; var r := Reply(x.frame, x.pf, x.desktopSize, cw, ch);
      before + Stream(sends, cw, ch) ==
        if r.None? then before else before + r.value + Stream(sends[1..], x.frame.w, x.frame.h)
  {
    hide Reply, IsFrame;
    assert before + [] == before;
  }

  lemma RowsStep(before: seq<byte>, f: Frame, pf: P.PixelFormat, y: nat)
    requires IsFrame(f) && y < f.h
    ensures before + Rows(f, pf, y) + FrameRow(f, pf, y) == before + Rows(f, pf, y + 1)
  {
  }

  lemma Associate(before: seq<byte>, a: seq<byte>, b: seq<byte>, c: seq<byte>, d: seq<byte>, out: seq<byte>, resize: bool)
    requires resize ==> out == before + a + b + c + d
    requires !resize ==> b == [] && out == before + a + c + d
    ensures out == before + (a + (b + (c + d)))
  {
  }

  // -- a client of RFC 6143 -------------------------------------------------------------

  datatype Rect = Raw(w: nat, h: nat, data: seq<byte>) | DesktopSize(w: nat, h: nat)

  type Update = seq<Rect>

  /** One rectangle at the origin; its position must be zero here. */
  function ReadRect(s: seq<byte>): Option<(Rect, seq<byte>)> {
    if |s| < 12 || s[..4] != [0, 0, 0, 0] then None
    else
      var w, h, enc := U16(s[4..6]), U16(s[6..8]), U32(s[8..12]);
      var rest := s[12..];
      if enc == 0xFFFF_FF21 then Some((DesktopSize(w, h), rest))
      else if enc == 0 && h * (4 * w) <= |rest| then
        Some((Raw(w, h, rest[..h * (4 * w)]), rest[h * (4 * w)..]))
      else None
  }

  function ReadRects(s: seq<byte>, n: nat): Option<(Update, seq<byte>)> {
    if n == 0 then Some(([], s))
    else
      match ReadRect(s)
      case None => None
      case Some((r, rest)) =>
        match ReadRects(rest, n - 1)
        case None => None
        case Some((rs, rest')) => Some(([r] + rs, rest'))
  }

  /** A FramebufferUpdate message: type 0, padding, a rectangle count, the rectangles. */
  function ReadUpdate(s: seq<byte>): Option<(Update, seq<byte>)> {
    if |s| < 4 || s[0] != 0 then None else ReadRects(s[4..], U16(s[2..4]))
  }

  lemma {:induction false} ReadRectsConsumes(s: seq<byte>, n: nat)
    ensures ReadRects(s, n).Some? ==> |ReadRects(s, n).value.1| <= |s|
  {
    if n > 0 && ReadRect(s).Some? {
      ReadRectsConsumes(ReadRect(s).value.1, n - 1);
    }
  }

  /** Every message of a stream. */
  function ReadStream(s: seq<byte>): Option<seq<Update>>
    decreases |s|
  {
    if s == [] then Some([])
    else
      match ReadUpdate(s)
      case None => None
      case Some((u, rest)) =>
        ReadRectsConsumes(s[4..], U16(s[2..4]));
        match ReadStream(rest)
        case None => None
        case Some(us) => Some([u] + us)
  }

  /** The framebuffer size after an update, or None when a Raw rectangle does not cover it exactly. */
  function SizeAfter(size: (nat, nat), u: Update): Option<(nat, nat)>
    decreases |u|
  {
    if u == [] then Some(size)
    else
      match u[0]
      case DesktopSize(w, h) => SizeAfter((w, h), u[1..])
      case Raw(w, h, _) => if (w, h) == size then SizeAfter(size, u[1..]) else None
  }

  // -- the stream parses ----------------------------------------------------------------

  /** What the client should read from the reply to `f`. */
  function Expected(f: Frame, pf: P.PixelFormat, cw: nat, ch: nat): Update
    requires IsFrame(f)
  {
    (if f.w != cw || f.h != ch then [DesktopSize(f.w, f.h)] else []) + [Raw(f.w, f.h, Rows(f, pf, f.h))]
  }

  lemma HeaderParts(w: nat, h: nat, enc: nat, rest: seq<byte>)
    requires enc <= 0xFFFF_FFFF
    ensures var s := RectHeader(w, h, enc) + rest;
      && s[..4] == [0, 0, 0, 0] && s[12..] == rest
      && U16(s[4..6]) == w % 0x1_0000 && U16(s[6..8]) == h % 0x1_0000 && U32(s[8..12]) == enc
  {
    var s := RectHeader(w, h, enc) + rest;
    U16OfBe16(w);
    U16OfBe16(h);
    U32OfBe32(enc);
    assert s[4..6] == Be16(w) && s[6..8] == Be16(h) && s[8..12] == Be32(enc);
    hide Be16, Be32, U16, U32;
  }

  lemma ReadsRaw(f: Frame, pf: P.PixelFormat, rest: seq<byte>)
    requires IsFrame(f) && f.w < 0x1_0000 && f.h < 0x1_0000
    ensures ReadRect(RectHeader(f.w, f.h, RAW) + (Rows(f, pf, f.h) + rest))
         == Some((Raw(f.w, f.h, Rows(f, pf, f.h)), rest))
  {
    var data := Rows(f, pf, f.h);
    HeaderParts(f.w, f.h, RAW, data + rest);
    SplitAt(data, rest);
    hide RectHeader, Rows, U16, U32, IsFrame, ReadRect;
    ReadRectIs(RectHeader(f.w, f.h, RAW) + (data + rest), f.w, f.h, data + rest);
  }

  lemma ReadRectIs(s: seq<byte>, w: nat, h: nat, rest: seq<byte>)
    requires |s| >= 12 && s[..4] == [0, 0, 0, 0] && s[12..] == rest && h * (4 * w) <= |rest|
    requires U16(s[4..6]) == w && U16(s[6..8]) == h && U32(s[8..12]) == RAW
    ensures ReadRect(s) == Some((Raw(w, h, rest[..h * (4 * w)]), rest[h * (4 * w)..]))
  {
    hide U16, U32;
  }

  lemma SplitAt(a: seq<byte>, b: seq<byte>)
    ensures (a + b)[..|a|] == a && (a + b)[|a|..] == b
  {
  }

  lemma ReadsDesktopSize(w: nat, h: nat, rest: seq<byte>)
    requires w < 0x1_0000 && h < 0x1_0000
    ensures ReadRect(RectHeader(w, h, DESKTOP_SIZE) + rest) == Some((DesktopSize(w, h), rest))
  {
    HeaderParts(w, h, DESKTOP_SIZE, rest);
    hide RectHeader, U16, U32;
  }

  /** One reply is one message: the count is right and nothing is left over or missing. */
  lemma ReadsReply(f: Frame, pf: P.PixelFormat, ds: bool, cw: nat, ch: nat, rest: seq<byte>)
    requires IsFrame(f) && f.w < 0x1_0000 && f.h < 0x1_0000 && Reply(f, pf, ds, cw, ch).Some?
    ensures ReadUpdate(Reply(f, pf, ds, cw, ch).value + rest) == Some((Expected(f, pf, cw, ch), rest))
    ensures SizeAfter((cw, ch), Expected(f, pf, cw, ch)) == Some((f.w, f.h))
  {
    if f.w != cw || f.h != ch {
      ReadsResize(f, pf, cw, ch, rest);
    } else {
      ReadsPlain(f, pf, rest);
    }
  }

  /** Where the parts of a reply lie. */
  lemma ReplyParts(count: byte, pre: seq<byte>, header: seq<byte>, rows: seq<byte>, rest: seq<byte>)
    ensures var s := [0, 0, 0, count] + (pre + (header + rows)) + rest;
      && |s| >= 4 && s[0] == 0 && s[2..4] == [0, count] && s[4..] == pre + (header + (rows + rest))
    ensures [] + (header + (rows + rest)) == header + (rows + rest)
  {
    var s := [0, 0, 0, count] + (pre + (header + rows)) + rest;
    assert s[4..] == pre + (header + rows) + rest;
    assert pre + (header + rows) + rest == pre + (header + (rows + rest));
  }

  lemma ReadsPlain(f: Frame, pf: P.PixelFormat, rest: seq<byte>)
    requires IsFrame(f) && f.w < 0x1_0000 && f.h < 0x1_0000
    ensures ReadUpdate(Reply(f, pf, false, f.w, f.h).value + rest) == Some((Expected(f, pf, f.w, f.h), rest))
    ensures SizeAfter((f.w, f.h), Expected(f, pf, f.w, f.h)) == Some((f.w, f.h))
    ensures forall ds :: Reply(f, pf, ds, f.w, f.h) == Reply(f, pf, false, f.w, f.h)
  {
    OneRaw(f, pf, rest);
    var s := Reply(f, pf, false, f.w, f.h).value + rest;
    ReplyParts(1, [], RectHeader(f.w, f.h, RAW), Rows(f, pf, f.h), rest);
    assert Expected(f, pf, f.w, f.h) == [Raw(f.w, f.h, Rows(f, pf, f.h))];
    hide RectHeader, Rows, ReadRect, ReadRects, SizeAfter, IsFrame, Expected;
    assert s == [0, 0, 0, 1] + ([] + (RectHeader(f.w, f.h, RAW) + Rows(f, pf, f.h))) + rest;
  }

  lemma OneRaw(f: Frame, pf: P.PixelFormat, rest: seq<byte>)
    requires IsFrame(f) && f.w < 0x1_0000 && f.h < 0x1_0000
    ensures var data := Rows(f, pf, f.h);
      && ReadRects(RectHeader(f.w, f.h, RAW) + (data + rest), 1) == Some(([Raw(f.w, f.h, data)], rest))
      && SizeAfter((f.w, f.h), [Raw(f.w, f.h, data)]) == Some((f.w, f.h))
  {
    ReadsRaw(f, pf, rest);
    var data := Rows(f, pf, f.h);
    assert [Raw(f.w, f.h, data)][1..] == [];
    hide RectHeader, Rows, ReadRect;
    assert ReadRects(rest, 0) == Some(([], rest));
    assert [Raw(f.w, f.h, data)] + [] == [Raw(f.w, f.h, data)];
  }

  lemma ReadsResize(f: Frame, pf: P.PixelFormat, cw: nat, ch: nat, rest: seq<byte>)
    requires IsFrame(f) && f.w < 0x1_0000 && f.h < 0x1_0000 && (f.w != cw || f.h != ch)
    ensures ReadUpdate(Reply(f, pf, true, cw, ch).value + rest) == Some((Expected(f, pf, cw, ch), rest))
    ensures SizeAfter((cw, ch), Expected(f, pf, cw, ch)) == Some((f.w, f.h))
  {
    OneRaw(f, pf, rest);
    var raw := RectHeader(f.w, f.h, RAW) + (Rows(f, pf, f.h) + rest);
    ReadsDesktopSize(f.w, f.h, raw);
    var s := Reply(f, pf, true, cw, ch).value + rest;
    var one := [Raw(f.w, f.h, Rows(f, pf, f.h))];
    ReplyParts(2, RectHeader(f.w, f.h, DESKTOP_SIZE), RectHeader(f.w, f.h, RAW), Rows(f, pf, f.h), rest);
    assert Expected(f, pf, cw, ch)[1..] == one;
    hide RectHeader, Rows, ReadRect, IsFrame;
    assert s == [0, 0, 0, 2] + (RectHeader(f.w, f.h, DESKTOP_SIZE) + (RectHeader(f.w, f.h, RAW) + Rows(f, pf, f.h))) + rest;
    assert ReadRects(s[4..], 2) == Some(([DesktopSize(f.w, f.h)] + one, rest));
  }

  /** What is to be sent: a frame, in the format and with the flag the client had set by then. */
  datatype Send = Send(frame: Frame, pf: P.PixelFormat, desktopSize: bool)

  /** The bytes of a session that sends `sends` in turn, up to one the client cannot take. */
  function Stream(sends: seq<Send>, cw: nat, ch: nat): seq<byte>
    requires forall x <- sends :: IsFrame(x.frame)
    decreases |sends|
  {
    if sends == [] then []
    else
      match Reply(sends[0].frame, sends[0].pf, sends[0].desktopSize, cw, ch)
      case None => []
      case Some(b) => b + Stream(sends[1..], sends[0].frame.w, sends[0].frame.h)
  }

  function Updates(sends: seq<Send>, cw: nat, ch: nat): seq<Update>
    requires forall x <- sends :: IsFrame(x.frame)
    decreases |sends|
  {
    if sends == [] then []
    else
      match Reply(sends[0].frame, sends[0].pf, sends[0].desktopSize, cw, ch)
      case None => []
      case Some(_) =>
        [Expected(sends[0].frame, sends[0].pf, cw, ch)] + Updates(sends[1..], sends[0].frame.w, sends[0].frame.h)
  }

  /** The size after all updates, if every Raw rectangle covered the framebuffer of its time. */
  function SizeAfterAll(size: (nat, nat), us: seq<Update>): Option<(nat, nat)>
    decreases |us|
  {
    if us == [] then Some(size)
    else
      match SizeAfter(size, us[0])
      case None => None
      case Some(size') => SizeAfterAll(size', us[1..])
  }

  /**
   * For every sequence of frames whose sides fit in 16 bits, in whatever formats and with
   * whatever resizes, the whole stream parses into one update per frame sent, and every Raw
   * rectangle covers exactly the framebuffer the client has by then.
   */
  lemma {:induction false} StreamParses(sends: seq<Send>, cw: nat, ch: nat)
    requires forall x <- sends :: IsFrame(x.frame) && x.frame.w < 0x1_0000 && x.frame.h < 0x1_0000
    ensures ReadStream(Stream(sends, cw, ch)) == Some(Updates(sends, cw, ch))
    ensures SizeAfterAll((cw, ch), Updates(sends, cw, ch)).Some?
    decreases |sends|
  {
    if sends != [] {
      var x := sends[0];
      assert x in sends && forall y <- sends[1..] :: y in sends;
      match Reply(x.frame, x.pf, x.desktopSize, cw, ch)
      case None =>
      case Some(b) =>
        var rest := Stream(sends[1..], x.frame.w, x.frame.h);
        StreamParses(sends[1..], x.frame.w, x.frame.h);
        ReadsReply(x.frame, x.pf, x.desktopSize, cw, ch, rest);
        assert b + rest != [] && |b| > 0;
        hide Reply, ReadUpdate, SizeAfter, Expected;
        var us := [Expected(x.frame, x.pf, cw, ch)] + Updates(sends[1..], x.frame.w, x.frame.h);
        assert us[1..] == Updates(sends[1..], x.frame.w, x.frame.h);
    }
  }

  /** Sixteen bits are all a side has: a reply reads back as its frame exactly when both sides fit. */
  lemma SidesMustFit(f: Frame, pf: P.PixelFormat, ds: bool, cw: nat, ch: nat)
    requires IsFrame(f) && Reply(f, pf, ds, cw, ch).Some?
    ensures ReadUpdate(Reply(f, pf, ds, cw, ch).value) == Some((Expected(f, pf, cw, ch), []))
       <==> f.w < 0x1_0000 && f.h < 0x1_0000
  {
    var s := Reply(f, pf, ds, cw, ch).value;
    if f.w < 0x1_0000 && f.h < 0x1_0000 {
      assert s + [] == s;
      ReadsReply(f, pf, ds, cw, ch, []);
    } else {
      var resize := f.w != cw || f.h != ch;
      var enc := if resize then DESKTOP_SIZE else RAW;
      var tail := if resize then RectHeader(f.w, f.h, RAW) + Rows(f, pf, f.h) else Rows(f, pf, f.h);
      hide Rows;
      assert s[4..] == RectHeader(f.w, f.h, enc) + tail;
      WrongSides(f.w, f.h, enc, tail);
      hide RectHeader, ReadRect, U16, IsFrame;
      FirstRect(s[4..], U16(s[2..4]));
    }
  }

  lemma WrongSides(w: nat, h: nat, enc: nat, tail: seq<byte>)
    requires enc <= 0xFFFF_FFFF && (w >= 0x1_0000 || h >= 0x1_0000)
    ensures var r := ReadRect(RectHeader(w, h, enc) + tail);
      r.Some? ==> r.value.0.w != w || r.value.0.h != h
  {
    HeaderParts(w, h, enc, tail);
    hide RectHeader, U16, U32;
  }

  lemma FirstRect(s: seq<byte>, n: nat)
    ensures n > 0 && ReadRects(s, n).Some? ==>
              ReadRect(s).Some? && ReadRects(s, n).value.0 != [] && ReadRects(s, n).value.0[0] == ReadRect(s).value.0
  {
  }

  // -- the picture arrives --------------------------------------------------------------

  lemma {:induction false} RowsAt(f: Frame, pf: P.PixelFormat, n: nat, y: nat)
    requires IsFrame(f) && y < n <= f.h
    ensures var at := y * (4 * f.w);
      at + 4 * f.w <= n * (4 * f.w) && Rows(f, pf, n)[at..at + 4 * f.w] == FrameRow(f, pf, y)
  {
    hide FrameRow, IsFrame;
    if y < n - 1 {
      RowsAt(f, pf, n - 1, y);
      assert Rows(f, pf, n)[..(n - 1) * (4 * f.w)] == Rows(f, pf, n - 1);
    }
  }

  /** Where pixel (x, y) lies. */
  function PixelAt(f: Frame, x: nat, y: nat): nat { 4 * (y * f.w + x) }

  lemma PixelInside(f: Frame, x: nat, y: nat)
    requires IsFrame(f) && x < f.w && y < f.h
    ensures PixelAt(f, x, y) == y * (4 * f.w) + 4 * x && PixelAt(f, x, y) + 4 <= 4 * f.w * f.h == f.h * (4 * f.w)
  {
    RowInside(f, y);
    assert y * (4 * f.w) == 4 * (y * f.w);
  }

  lemma SliceOfSlice(s: seq<byte>, at: nat, n: nat, k: nat)
    requires at + n <= |s| && k + 4 <= n
    ensures s[at..at + n][k..k + 4] == s[at + k..at + k + 4]
    ensures s[at..][k] == s[at + k] && s[at..][k + 1] == s[at + k + 1] && s[at..][k + 2] == s[at + k + 2]
  {
    var a, b := s[at..at + n][k..k + 4], s[at + k..at + k + 4];
    assert |a| == |b| && forall i :: 0 <= i < |a| ==> a[i] == b[i];
  }

  lemma PixelOfRow(f: Frame, pf: P.PixelFormat, rk: nat, gk: nat, bk: nat, at: nat, x: nat)
    requires at + 4 * f.w <= |f.pix| && x < f.w && P.WellFormed(pf, rk, gk, bk)
    ensures var row, i := P.Row(f.pix[at..], f.w, pf), at + 4 * x;
      P.Shows(row[4 * x..4 * x + 4], pf, rk, gk, bk, f.pix[i], f.pix[i + 1], f.pix[i + 2])
  {
    P.RowShows(f.pix[at..], f.w, pf, rk, gk, bk, x);
    SliceOfSlice(f.pix, at, 4 * f.w, 4 * x);
    hide P.Shows, P.Row, P.WellFormed;
  }

  lemma PixelOfRows(f: Frame, pf: P.PixelFormat, rk: nat, gk: nat, bk: nat, x: nat, y: nat)
    requires IsFrame(f) && x < f.w && y < f.h && P.WellFormed(pf, rk, gk, bk)
    ensures var i := PixelAt(f, x, y);
      && i + 4 <= |Rows(f, pf, f.h)| == |f.pix|
      && P.Shows(Rows(f, pf, f.h)[i..i + 4], pf, rk, gk, bk, f.pix[i], f.pix[i + 1], f.pix[i + 2])
  {
    hide Rows, P.Shows, P.Row, P.WellFormed, PixelAt, IsFrame;
    var at := y * (4 * f.w);
    RowInside(f, y);
    PixelInside(f, x, y);
    RowsAt(f, pf, f.h, y);
    PixelOfRow(f, pf, rk, gk, bk, at, x);
    SizeOf(f);
    SliceOfSlice(Rows(f, pf, f.h), at, 4 * f.w, 4 * x);
  }

  lemma SizeOf(f: Frame)
    requires IsFrame(f)
    ensures |f.pix| == f.h * (4 * f.w)
  {
  }

  lemma ReadsLast(f: Frame, pf: P.PixelFormat, ds: bool, cw: nat, ch: nat, rest: seq<byte>)
    requires IsFrame(f) && f.w < 0x1_0000 && f.h < 0x1_0000 && Reply(f, pf, ds, cw, ch).Some?
    ensures var read := ReadUpdate(Reply(f, pf, ds, cw, ch).value + rest);
      && read.Some? && read.value.0 != []
      && read.value.0[|read.value.0| - 1] == Raw(f.w, f.h, Rows(f, pf, f.h))
  {
    hide Rows, ReadUpdate, Reply, IsFrame;
    ReadsReply(f, pf, ds, cw, ch, rest);
  }

  /**
   * The picture a client sees is the frame: the last rectangle it reads from a reply is as large as
   * the frame, and the four bytes of each pixel, in the byte order and format the client asked for,
   * show the colours of the frame's pixel in the same place, scaled to the client's ranges.
   */
  lemma PictureArrives(f: Frame, pf: P.PixelFormat, ds: bool, cw: nat, ch: nat, rest: seq<byte>,
        rk: nat, gk: nat, bk: nat, x: nat, y: nat)
    requires IsFrame(f) && f.w < 0x1_0000 && f.h < 0x1_0000 && Reply(f, pf, ds, cw, ch).Some?
    requires P.WellFormed(pf, rk, gk, bk) && x < f.w && y < f.h
    ensures var read := ReadUpdate(Reply(f, pf, ds, cw, ch).value + rest);
      && read.Some? && read.value.0 != []
      && var rect, i := read.value.0[|read.value.0| - 1], PixelAt(f, x, y);
      && rect.Raw? && rect.w == f.w && rect.h == f.h && i + 4 <= |rect.data| == |f.pix|
      && P.Shows(rect.data[i..i + 4], pf, rk, gk, bk, f.pix[i], f.pix[i + 1], f.pix[i + 2])
  {
    hide *;
    ReadsLast(f, pf, ds, cw, ch, rest);
    PixelOfRows(f, pf, rk, gk, bk, x, y);
  }
}
