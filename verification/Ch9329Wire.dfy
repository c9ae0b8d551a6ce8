/**
 * The CH9329 serial protocol as ch9329/src/session.rs speaks it: framing, the reading of a
 * reply off a port that delivers it in pieces, and which failures count as a dead link.
 */
module Ch9329Wire {
  import opened Bytes

  const HEAD: seq<byte> := [0x57, 0xAB]
  const ADDR: byte := 0x00

  /** The command codes, all below 0x40, so that or-ing 0x80 or 0xC0 into one adds it. */
  type cmd = c: int | 0 <= c < 0x40

  const GET_INFO: cmd := 0x01
  const KB_GENERAL: cmd := 0x02
  const GET_PARA_CFG: cmd := 0x08
  const USB_SWITCH: cmd := 0x17

  datatype WireError =
    | Closed
    | TimedOut
    | ReadFailed
    | BadHeader
    | BadChecksum
    | WrongAddress
    | Rejected(status: byte)
    | UnexpectedReply
    | StatusError(status: byte)

  datatype Reply = Payload(data: seq<byte>) | Failed(error: WireError)

  /** How a port that has nothing more to give answers a read. */
  type quiet = e: WireError | e in {Closed, TimedOut, ReadFailed} witness Closed

  /** What the owner takes for a dead link (`is_transport_error`, for the errors of a reply). */
  predicate IsTransport(e: WireError) {
    e.Closed? || e.TimedOut? || e.ReadFailed?
  }

  function Sum(s: seq<byte>): nat {
    if s == [] then 0 else Sum(s[..|s| - 1]) + s[|s| - 1] as int
  }

  /** `frame`: the length byte is the length modulo 256, as in the source's cast. */
  function Frame(addr: byte, code: byte, data: seq<byte>): (r: seq<byte>)
    ensures |r| == |data| + 6
  {
    var body := HEAD + [addr, code, |data| % 256] + data;
    body + [Sum(body) % 256]
  }

  predicate PayloadIsData(c: cmd) {
    c == GET_INFO || c == GET_PARA_CFG || c == USB_SWITCH
  }

  /** What a well-framed answer means. */
  function Meaning(c: cmd, addr: byte, code: byte, payload: seq<byte>): Reply {
    if addr != ADDR then Failed(WrongAddress)
    else if code == c + 0xC0 then Failed(Rejected(if payload == [] then 0xFF else payload[0]))
    else if code != c + 0x80 then Failed(UnexpectedReply)
    else if !PayloadIsData(c) && payload != [] && payload[0] != 0 then Failed(StatusError(payload[0]))
    else Payload(payload)
  }

  /** The reply that the bytes `s`, followed by silence of the kind `end`, are to the command `c`. */
  function ReplyOf(c: cmd, s: seq<byte>, end: quiet): Reply {
    if |s| < 2 then Failed(end)
    else if s[..2] != HEAD then Failed(BadHeader)
    else if |s| < 5 || |s| < 6 + s[4] as int then Failed(end)
    else
      var n := s[4] as int;
      if s[5 + n] as int != Sum(s[..5 + n]) % 256 then Failed(BadChecksum)
      else Meaning(c, s[2], s[3], s[5..5 + n])
  }

  /** The receiving half of the port. */
  class Port {
    var pieces: seq<chunk>
    const end: quiet

    constructor (pieces: seq<chunk>, end: quiet)
      ensures this.pieces == pieces && this.end == end
    {
      this.pieces, this.end := pieces, end;
    }

    ghost function Stream(): seq<byte>
      reads this
    {
      Concat(pieces)
    }

    /** One `read` into the buffer from index `at`: at most what it holds, at least one byte, or `end`. */
    method Read(buf: array<byte>, at: nat) returns (k: nat)
      requires at < buf.Length
      modifies this`pieces, buf
      ensures at + k <= buf.Length && buf[..at] == old(buf[..at])
      ensures old(Stream()) == buf[at..at + k] + Stream()
      ensures k == 0 <==> old(Stream()) == []
    {
      if pieces == [] {
        return 0;
      }
      hide Concat;
      ghost var before := buf[..at];
      ghost var was := pieces;
      var piece: seq<byte> := pieces[0];
      k := if |piece| <= buf.Length - at then |piece| else buf.Length - at;
      Copy(piece[..k], buf, at);
      pieces := if k == |piece| then pieces[1..] else [piece[k..]] + pieces[1..];
      Taken(was, k);
    }

    /** Copies `from` into the buffer at `at`. */
    static method Copy(from: seq<byte>, buf: array<byte>, at: nat)
      requires at + |from| <= buf.Length
      modifies buf
      ensures buf[..at] == old(buf[..at]) && buf[at..at + |from|] == from
    {
      for i := 0 to |from|
        invariant buf[..at] == old(buf[..at])
        invariant buf[at..at + i] == from[..i]
      {
        buf[at + i] := from[i];
        assert buf[at..at + i + 1] == buf[at..at + i] + [from[i]];
      }
    }

    /** `read_exact`: `n` bytes, however they arrive, or the port's silence. */
    method ReadExact(n: nat) returns (r: Reply)
      modifies this`pieces
      ensures if n <= |old(Stream())|
        then r == Payload(old(Stream())[..n]) && Stream() == old(Stream())[n..]
        else r == Failed(end)
    {
      hide Stream;
      var buf := new byte[n];
      var filled := 0;
      ghost var all := Stream();
      while filled < n
        modifies this`pieces, buf
        invariant filled <= n
        invariant all == buf[..filled] + Stream()
        decreases n - filled
      {
        ghost var before, left := buf[..filled], Stream();
        var k := Read(buf, filled);
        if k == 0 {
          return Failed(end);
        }
        Longer(all, before, left, buf[filled..filled + k], Stream());
        assert buf[..filled + k] == before + buf[filled..filled + k];
        filled := filled + k;
      }
      assert buf[..filled] == buf[..n];
      return Payload(buf[..n]);
    }

    /** `read_reply`. */
    method ReadReply(c: cmd) returns (r: Reply)
      modifies this`pieces
      ensures r == ReplyOf(c, old(Stream()), end)
    {
      ghost var s := Stream();
      var head := ReadExact(2);
      if head.Failed? {
        return head;
      }
      if head.data != HEAD {
        return Failed(BadHeader);
      }
      var rest := ReadExact(3);
      if rest.Failed? {
        return rest;
      }
      var n: nat := rest.data[2];
      var payload := ReadExact(n);
      if payload.Failed? {
        return payload;
      }
      var sum := ReadExact(1);
      if sum.Failed? {
        return sum;
      }
      var body := HEAD + rest.data + payload.data;
      BodyIs(s, rest.data, payload.data);
      if sum.data[0] as int != Sum(body) % 256 {
        return Failed(BadChecksum);
      }
      return Meaning(c, rest.data[0], rest.data[1], payload.data);
    }
  }

  lemma Taken(pieces: seq<chunk>, k: nat)
    requires pieces != [] && k <= |pieces[0]|
    ensures var rest: seq<chunk> := if k == |pieces[0]| then pieces[1..] else [pieces[0][k..]] + pieces[1..];
      Concat<byte>(pieces) == pieces[0][..k] + Concat(rest)
    ensures Concat<byte>(pieces) != []
  {
    var first: seq<byte> := pieces[0];
    var tail: seq<byte> := Concat(pieces[1..]);
    assert Concat<byte>(pieces) == first + tail;
    assert first == first[..k] + first[k..];
    if k < |first| {
      var rest: seq<chunk> := [first[k..]] + pieces[1..];
      assert rest[1..] == pieces[1..];
      assert Concat<byte>(rest) == first[k..] + tail;
    }
  }

  lemma Longer(all: seq<byte>, a: seq<byte>, left: seq<byte>, b: seq<byte>, rest: seq<byte>)
    requires all == a + left && left == b + rest
    ensures all == (a + b) + rest
  {
  }

  lemma BodyIs(s: seq<byte>, rest: seq<byte>, payload: seq<byte>)
    requires |s| >= 5 + |payload| && s[..2] == HEAD && rest == s[2..5] && payload == s[5..5 + |payload|]
    ensures HEAD + rest + payload == s[..5 + |payload|]
  {
  }

  // ---- What the protocol promises ----

  /** The chip's answer, whatever arrives after it: taken as what it means. */
  lemma ReplyReadBack(c: cmd, addr: byte, code: byte, payload: seq<byte>, more: seq<byte>, end: quiet)
    requires |payload| < 256
    ensures ReplyOf(c, Frame(addr, code, payload) + more, end) == Meaning(c, addr, code, payload)
  {
    hide Sum;
    var body := HEAD + [addr, code, |payload| % 256] + payload;
    var s := Frame(addr, code, payload) + more;
    assert s == body + [Sum(body) % 256] + more;
    assert s[..5 + |payload|] == body && s[5..5 + |payload|] == payload && s[..2] == HEAD;
  }

  /**
   * What the chip's answers mean, by the two top bits of their code: 10 is an answer to the command, with
   * its data or with a status that must be zero, and 11 is a refusal.
   */
  lemma AnswersMean(c: cmd, addr: byte, code: byte, payload: seq<byte>, more: seq<byte>, end: quiet)
    requires |payload| < 256
    ensures
      var r := ReplyOf(c, Frame(addr, code, payload) + more, end);
      var ours, kind := addr == 0x00 && code as int % 64 == c, code as int / 64;
      var data := c in {0x01, 0x08, 0x17};
      && (r == Payload(payload) <==> ours && kind == 2 && (data || payload == [] || payload[0] == 0))
      && (ours && kind == 2 && !data && payload != [] && payload[0] != 0 ==> r == Failed(StatusError(payload[0])))
      && (ours && kind == 3 ==> r == Failed(Rejected(if payload == [] then 0xFF else payload[0])))
      && (r == Failed(UnexpectedReply) <==> addr == 0x00 && !(ours && kind in {2, 3}))
      && (r == Failed(WrongAddress) <==> addr != 0x00)
  {
    ReplyReadBack(c, addr, code, payload, more, end);
    hide ReplyOf, Frame;
  }

  /** Anything but the two head bytes is refused at once, whether or not more comes. */
  lemma BadHeaderExactly(c: cmd, s: seq<byte>, end: quiet)
    ensures ReplyOf(c, s, end) == Failed(BadHeader) <==> |s| >= 2 && (s[0] != 0x57 || s[1] != 0xAB)
  {
    hide Sum;
    if |s| >= 2 {
      assert s[..2] == [s[0], s[1]];
    }
  }

  /** A chip that reads frames the same way finds a command and its data again exactly when the length fits. */
  lemma CommandReadBack(code: byte, data: seq<byte>, more: seq<byte>)
    ensures ParseFrame(Frame(ADDR, code, data) + more) == Some((code, data, more)) <==> |data| < 256
  {
    hide Sum;
    var body := HEAD + [ADDR, code, |data| % 256] + data;
    var s := Frame(ADDR, code, data) + more;
    assert s == body + [Sum(body) % 256] + more && s[4] == |data| % 256;
    if |data| < 256 {
      assert s[..5 + |data|] == body && s[5..5 + |data|] == data && s[..2] == HEAD && s[6 + |data|..] == more;
    }
  }

  function ParseFrame(s: seq<byte>): (r: Option<(byte, seq<byte>, seq<byte>)>)
    ensures r.Some? ==> |s| > 4 && |r.value.1| == s[4] as int
  {
    if |s| < 6 || s[..2] != HEAD || s[2] != ADDR || |s| < 6 + s[4] as int then None
    else
      var n := s[4] as int;
      if s[5 + n] as int == Sum(s[..5 + n]) % 256 then Some((s[3], s[5..5 + n], s[6 + n..])) else None
  }

  lemma {:induction false} SumChanges(s: seq<byte>, i: nat, b: byte)
    requires i < |s|
    ensures Sum(s[i := b]) == Sum(s) - s[i] as int + b as int
  {
    var t := s[i := b];
    if i == |s| - 1 {
      assert t[..i] == s[..i];
    } else {
      SumChanges(s[..|s| - 1], i, b);
      assert t[..|s| - 1] == s[..|s| - 1][i := b];
    }
  }

  lemma ChecksumDiffers(s: seq<byte>, i: nat, b: byte)
    requires i < |s| && b != s[i]
    ensures Sum(s[i := b]) % 256 != Sum(s) % 256
  {
    SumChanges(s, i, b);
    hide Sum;
  }

  /** One changed byte outside the length byte: the reply is refused, as a bad header or a bad checksum. */
  lemma ChangedByteRefused(c: cmd, addr: byte, code: byte, payload: seq<byte>, i: nat, b: byte, end: quiet)
    requires |payload| < 256 && i < |payload| + 6 && i != 4
    requires b != Frame(addr, code, payload)[i]
    ensures ReplyOf(c, Frame(addr, code, payload)[i := b], end) == Failed(if i < 2 then BadHeader else BadChecksum)
  {
    hide Sum;
    var s := Frame(addr, code, payload);
    var n := |payload|;
    var body := HEAD + [addr, code, n % 256] + payload;
    assert s[..5 + n] == body;
    var t := s[i := b];
    if i < 2 {
      assert t[..2][i] != HEAD[i];
    } else {
      assert t[..2] == HEAD && t[4] == n;
      if i < 5 + n {
        ChecksumDiffers(body, i, b);
        assert t[..5 + n] == body[i := b];
      } else {
        assert t[..5 + n] == body;
      }
    }
  }

  /** A reply cut short anywhere is a dead link: the owner drops the session. */
  lemma CutReplyIsTransport(c: cmd, addr: byte, code: byte, payload: seq<byte>, n: nat, end: quiet)
    requires |payload| < 256 && n < |payload| + 6
    ensures ReplyOf(c, Frame(addr, code, payload)[..n], end) == Failed(end) && IsTransport(end)
  {
    hide Sum;
    var s := Frame(addr, code, payload);
    var t := s[..n];
    if n >= 2 {
      assert t[..2] == HEAD;
    }
    if n >= 5 {
      assert t[4] == s[4] == |payload|;
    }
  }

  /** The sum of the frame that a reply seems to be when its length byte is changed to `b`. */
  function ShortSum(addr: byte, code: byte, b: byte, payload: seq<byte>): nat
    requires b as int <= |payload|
  {
    Sum(HEAD + [addr, code, b] + payload[..b])
  }

  /** A changed length byte is refused exactly when it asks for more than came, or when the payload byte in
      the checksum's place is not the checksum of the shorter frame. */
  lemma ChangedLengthRefused(c: cmd, addr: byte, code: byte, payload: seq<byte>, b: byte, end: quiet)
    requires |payload| < 256 && b as int != |payload|
    ensures var r := ReplyOf(c, Frame(addr, code, payload)[4 := b], end);
      var passes := (b as int) < |payload| && payload[b] as int == ShortSum(addr, code, b, payload) % 256;
      r == if b as int > |payload| then Failed(end)
           else if passes then Meaning(c, addr, code, payload[..b])
           else Failed(BadChecksum)
  {
    hide Sum;
    var t := Frame(addr, code, payload)[4 := b];
    assert t[..2] == HEAD;
    if (b as int) < |payload| {
      assert t[..5 + b as int] == HEAD + [addr, code, b] + payload[..b];
      assert t[5 + b as int] == payload[b] && t[5..5 + b as int] == payload[..b];
    }
  }

  /** It can pass: a keyboard report that the chip refused, its length byte cleared, reads as done. */
  lemma ChangedLengthAccepted() returns (reply: seq<byte>)
    ensures ReplyOf(KB_GENERAL, reply, TimedOut) == Failed(StatusError(0x84))
    ensures |reply| > 4 && ReplyOf(KB_GENERAL, reply[4 := 0], TimedOut) == Payload([])
  {
    var body: seq<byte> := [0x57, 0xAB, 0x00, 0x82, 0x01, 0x84];
    reply := body + [0x09];
    var short: seq<byte> := [0x57, 0xAB, 0x00, 0x82, 0x00];
    SumOfSix(0x57, 0xAB, 0x00, 0x82, 0x01, 0x84);
    SumOfFive(0x57, 0xAB, 0x00, 0x82, 0x00);
    assert reply[..6] == body && reply[4 := 0][..5] == short;
    hide Sum;
    assert reply[..2] == HEAD && reply[4 := 0][..2] == HEAD && reply[5..6] == [0x84];
    assert reply[4 := 0][5..5] == [];
  }

  lemma SumOfFive(a: byte, b: byte, c: byte, d: byte, e: byte)
    ensures Sum([a, b, c, d, e]) == a as int + b as int + c as int + d as int + e as int
  {
    var s := [a, b, c, d, e];
    assert s[..4] == [a, b, c, d] && s[..4][..3] == [a, b, c] && s[..4][..3][..2] == [a, b];
    assert [a, b][..1] == [a] && [a][..0] == [];
    assert Sum([a]) == a as int && Sum([a, b]) == a as int + b as int;
    assert Sum([a, b, c]) == a as int + b as int + c as int;
  }

  lemma SumOfSix(a: byte, b: byte, c: byte, d: byte, e: byte, f: byte)
    ensures Sum([a, b, c, d, e, f]) == a as int + b as int + c as int + d as int + e as int + f as int
  {
    SumOfFive(a, b, c, d, e);
    assert [a, b, c, d, e, f][..5] == [a, b, c, d, e];
  }
}
