/**
 * The line collector of the Cambrionix hub helper (cambrionix/src/proto.rs): it reads a serial
 * stream in chunks of any size, and its answer depends only on the bytes, not on the chunks.
 */
module HubResponse {
  import opened Bytes
  import opened Strings

  const NL: byte := 0x0A

  /** How reading stops, once no chunk is left: the deadline, a read timeout, end of file, an error. */
  datatype End = DeadlinePassed | TimedOut | Eof | ReadFailed

  datatype Response =
    | Output(text: string)
    | HubError(line: string)
    | CapReached
    | Late
    | Broken

  /** `String::from_utf8_lossy`, of which nothing is assumed. */
  type Decoder = seq<byte> -> string

  function TrimNewlines(s: string): (r: string)
    ensures r <= s
  {
    if s != [] && s[|s| - 1] in {'\r', '\n'} then TrimNewlines(s[..|s| - 1]) else s
  }

  predicate IsErrorLine(line: string) {
    var t := TrimStart(line);
    (|t| >= 2 && t[0] == 'E' && '0' <= t[1] <= '9') || Contains(AsciiLower(t), "error")
  }

  predicate IsPrompt(line: string) {
    ">>" <= line
  }

  predicate Decisive(line: string) {
    IsPrompt(line) || IsErrorLine(line)
  }

  /** A line end of any make, carriage returns and line feeds, is dropped, and nothing else of the line. */
  lemma {:induction false} LineEndDropped(body: string, end: string)
    requires body == "" || body[|body| - 1] !in {'\r', '\n'}
    requires forall c <- end :: c in {'\r', '\n'}
    ensures TrimNewlines(body + end) == body
    decreases |end|
  {
    if end == "" {
      assert body + end == body;
    } else {
      var shorter := end[..|end| - 1];
      assert end[|end| - 1] in end && forall c <- shorter :: c in end;
      LineEndDropped(body, shorter);
      assert (body + end)[..|body + end| - 1] == body + shorter;
    }
  }

  /** The letters of `part` stand at `i`, in either case; `part` is in lower case. */
  ghost predicate SpelledAt(s: string, i: nat, part: string) {
    i + |part| <= |s|
    && forall j :: 0 <= j < |part| ==>
         s[i + j] == part[j] || ('A' <= s[i + j] <= 'Z' && s[i + j] as int + 32 == part[j] as int)
  }

  predicate PartAt(s: string, i: nat, part: string) {
    i + |part| <= |s| && s[i..i + |part|] == part
  }

  lemma PartOfRest(s: string, i: nat, part: string)
    requires s != []
    ensures PartAt(s[1..], i, part) <==> PartAt(s, i + 1, part)
  {
    if i + 1 + |part| <= |s| {
      var a, b := s[1..][i..i + |part|], s[i + 1..i + 1 + |part|];
      assert |a| == |b| && forall j :: 0 <= j < |a| ==> a[j] == b[j];
    }
  }

  lemma {:induction false} ContainsMeans(s: string, part: string)
    requires part != ""
    ensures Contains(s, part) <==> exists i: nat :: PartAt(s, i, part)
  {
    if part <= s {
      assert PartAt(s, 0, part);
    } else if s != [] {
      ContainsMeans(s[1..], part);
      forall i: nat { PartOfRest(s, i, part); }
      if i: nat :| PartAt(s, i, part) {
        assert i == 0 ==> part <= s;
        assert PartAt(s[1..], i - 1, part);
      }
    }
  }

  lemma LowerSpells(s: string, i: nat, part: string)
    requires forall c <- part :: 'a' <= c <= 'z'
    ensures PartAt(AsciiLower(s), i, part) <==> SpelledAt(s, i, part)
  {
    var l := AsciiLower(s);
    if i + |part| <= |s| {
      var cut := l[i..i + |part|];
      assert forall j :: 0 <= j < |part| ==> part[j] in part && cut[j] == l[i + j];
    }
  }

  /**
   * The error lines: after leading blanks an E and a digit, or the word `error` anywhere behind them
   * in either case.
   */
  lemma ErrorLinesAre(line: string)
    ensures var t := TrimStart(line);
      IsErrorLine(line) <==>
        || (|t| >= 2 && t[0] == 'E' && t[1] in {'0', '1', '2', '3', '4', '5', '6', '7', '8', '9'})
        || exists i: nat :: SpelledAt(t, i, "error")
  {
    var t := TrimStart(line);
    hide Contains, AsciiLower, SpelledAt, PartAt, TrimStart;
    ContainsMeans(AsciiLower(t), "error");
    forall i: nat
      ensures PartAt(AsciiLower(t), i, "error") <==> SpelledAt(t, i, "error")
    {
      LowerSpells(t, i, "error");
    }
  }

  function TextOf(decode: Decoder, line: seq<byte>): string {
    TrimNewlines(decode(line))
  }

  /** A line that decodes to a body and its line end is taken for the body. */
  lemma TextOfLine(decode: Decoder, line: seq<byte>, body: string, end: string)
    requires decode(line) == body + end && end in {"\n", "\r\n"}
    requires body == "" || body[|body| - 1] !in {'\r', '\n'}
    ensures TextOf(decode, line) == body
  {
    LineEndDropped(body, end);
  }

  // ---- What the bytes alone say ----

  /** The index of the first newline, or `|b|`. */
  function NewlineAt(b: seq<byte>): (k: nat)
    ensures k <= |b| && NL !in b[..k]
    ensures k < |b| ==> b[k] == NL
  {
    if b == [] || b[0] == NL then 0
    else
      var k := 1 + NewlineAt(b[1..]);
      assert b[..k] == [b[0]] + b[1..][..k - 1];
      k
  }

  /** The complete lines of `b`, newlines included. */
  function LinesOf(b: seq<byte>): seq<seq<byte>>
    decreases |b|
  {
    var k := NewlineAt(b);
    if k == |b| then [] else [b[..k + 1]] + LinesOf(b[k + 1..])
  }

  /** The complete lines of `b` as the program sees them: decoded, without their line ends. */
  function TextsOf(decode: Decoder, b: seq<byte>): (r: seq<string>)
    ensures |r| == |LinesOf(b)| && forall i :: 0 <= i < |r| ==> r[i] == TextOf(decode, LinesOf(b)[i])
  {
    seq(|LinesOf(b)|, i requires 0 <= i < |LinesOf(b)| => TextOf(decode, LinesOf(b)[i]))
  }

  /** The lines, each closed with a newline. */
  function Joined(lines: seq<string>): string {
    if lines == [] then "" else lines[0] + "\n" + Joined(lines[1..])
  }

  /** The output reads back as its lines. */
  lemma {:induction false} JoinedReadsBack(lines: seq<string>)
    requires forall line <- lines :: '\n' !in line && Chomp(line) == line
    ensures Lines(Joined(lines)) == lines
  {
    hide Lines, Chomp;
    if lines == [] {
      LastLine("");
    } else {
      assert lines[0] in lines && forall line <- lines[1..] :: line in lines;
      JoinedReadsBack(lines[1..]);
      LinesStart(lines[0], Joined(lines[1..]));
    }
  }

  /** A prompt begins with two `>`. */
  lemma PromptLinesAre(line: string)
    ensures IsPrompt(line) <==> |line| >= 2 && line[0] == '>' && line[1] == '>'
  {
    assert |line| >= 2 ==> line[..2] == [line[0], line[1]];
  }

  /** How many lines come before the first prompt or error. */
  function FirstDecisive(lines: seq<string>): (k: nat)
    ensures k <= |lines|
  {
    if lines == [] || Decisive(lines[0]) then 0 else 1 + FirstDecisive(lines[1..])
  }

  lemma {:induction false} FirstDecisiveIs(lines: seq<string>, k: nat)
    requires k <= |lines| && forall i :: 0 <= i < k ==> !Decisive(lines[i])
    requires k < |lines| ==> Decisive(lines[k])
    ensures FirstDecisive(lines) == k
  {
    hide Decisive;
    if k > 0 {
      FirstDecisiveIs(lines[1..], k - 1);
    }
  }

  /** The answer to the bytes `b` followed by `end`: the first decisive line of the first `cap` bytes
      decides; without one the cap does, when it is reached, and else the way the stream ended. */
  function Answer(decode: Decoder, b: seq<byte>, end: End, cap: nat): Response {
    var lines := TextsOf(decode, Capped(b, cap));
    var k := FirstDecisive(lines);
    var output := Joined(lines[..k]);
    if k < |lines| then (if IsPrompt(lines[k]) then Output(output) else HubError(lines[k]))
    else if b != [] && cap <= |b| then CapReached
    else
      match end
      case DeadlinePassed => Late
      case ReadFailed => Broken
      case _ => Output(output)
  }

  function Capped(b: seq<byte>, cap: nat): (r: seq<byte>)
    ensures r <= b && |r| <= cap
    ensures |b| <= cap ==> r == b
  {
    if |b| <= cap then b else b[..cap]
  }

  // ---- The collector ----

  /** What the lines still to come decide, once `output` has been collected. */
  function Scan(output: string, lines: seq<string>): (string, Option<Response>)
    decreases |lines|
  {
    if lines == [] then (output, None)
    else if IsPrompt(lines[0]) then (output, Some(Output(output)))
    else if IsErrorLine(lines[0]) then (output, Some(HubError(lines[0])))
    else Scan(output + lines[0] + "\n", lines[1..])
  }

  lemma {:induction false} ScanFinds(output: string, lines: seq<string>)
    ensures
      var k := FirstDecisive(lines);
      var text := output + Joined(lines[..k]);
      Scan(output, lines) ==
        if k == |lines| then (text, None)
        else if IsPrompt(lines[k]) then (text, Some(Output(text)))
        else (text, Some(HubError(lines[k])))
    decreases |lines|
  {
    hide IsPrompt, IsErrorLine;
    var k := FirstDecisive(lines);
    if k > 0 {
      var next := output + lines[0] + "\n";
      ScanFinds(next, lines[1..]);
      assert lines[..k][1..] == lines[1..][..k - 1];
      assert next + Joined(lines[1..][..k - 1]) == output + Joined(lines[..k]);
    } else {
      assert output + Joined(lines[..k]) == output;
    }
  }

  lemma VerdictIs(decode: Decoder, b: seq<byte>, end: End, cap: nat)
    ensures
      var (output, decided) := Scan("", TextsOf(decode, Capped(b, cap)));
      Answer(decode, b, end, cap) ==
        if decided.Some? then decided.value
        else if b != [] && cap <= |b| then CapReached
        else if end == DeadlinePassed then Late
        else if end == ReadFailed then Broken
        else Output(output)
  {
    hide IsPrompt, TextsOf, Scan, FirstDecisive, Joined;
    var lines := TextsOf(decode, Capped(b, cap));
    ScanFinds("", lines);
    var k := FirstDecisive(lines);
    assert "" + Joined(lines[..k]) == Joined(lines[..k]);
  }

  /** Taking the first line off the pending bytes. */
  lemma NextLine(decode: Decoder, pending: seq<byte>, rest: seq<byte>, output: string)
    requires NL in pending
    ensures
      var nl := NewlineAt(pending);
      nl < |pending| && Scan(output, TextsOf(decode, pending + rest)) ==
        var line := TextOf(decode, pending[..nl + 1]);
        if IsPrompt(line) then (output, Some(Output(output)))
        else if IsErrorLine(line) then (output, Some(HubError(line)))
        else Scan(output + line + "\n", TextsOf(decode, pending[nl + 1..] + rest))
  {
    hide IsPrompt, IsErrorLine, TextOf, NewlineAt, LinesOf, Scan;
    var nl := NewlineAt(pending);
    assert pending[..|pending|] == pending;
    var b := pending + rest;
    FirstLine(pending, rest);
    assert TextsOf(decode, b) == [TextOf(decode, pending[..nl + 1])] + TextsOf(decode, pending[nl + 1..] + rest);
    ScanFirst(output, TextsOf(decode, b));
  }

  lemma ScanFirst(output: string, lines: seq<string>)
    requires lines != []
    ensures Scan(output, lines) ==
      if IsPrompt(lines[0]) then (output, Some(Output(output)))
      else if IsErrorLine(lines[0]) then (output, Some(HubError(lines[0])))
      else Scan(output + lines[0] + "\n", lines[1..])
  {
    hide IsPrompt, IsErrorLine;
  }

  lemma NewlineIs(b: seq<byte>, k: nat)
    requires k <= |b| && NL !in b[..k] && (k < |b| ==> b[k] == NL)
    ensures NewlineAt(b) == k
  {
    hide NewlineAt;
    var n := NewlineAt(b);
    assert forall i :: 0 <= i < k ==> b[i] == b[..k][i];
    assert forall i :: 0 <= i < n ==> b[i] == b[..n][i];
  }

  lemma FirstLine(pending: seq<byte>, rest: seq<byte>)
    requires NewlineAt(pending) < |pending|
    ensures var nl := NewlineAt(pending);
      LinesOf(pending + rest) == [pending[..nl + 1]] + LinesOf(pending[nl + 1..] + rest)
  {
    hide NewlineAt;
    var nl, b := NewlineAt(pending), pending + rest;
    assert b[..nl] == pending[..nl] && b[nl] == pending[nl];
    NewlineIs(b, nl);
    assert b[..nl + 1] == pending[..nl + 1] && b[nl + 1..] == pending[nl + 1..] + rest;
  }

  lemma NoLines(b: seq<byte>)
    requires NL !in b
    ensures LinesOf(b) == []
  {
    hide NewlineAt;
    assert b[..|b|] == b;
    NewlineIs(b, |b|);
  }

  lemma NoLine(decode: Decoder, b: seq<byte>, output: string)
    requires NL !in b
    ensures Scan(output, TextsOf(decode, b)) == (output, None)
  {
    NoLines(b);
  }

  lemma TakenPart(all: seq<byte>, total: nat, c: seq<byte>, rest: seq<byte>, end: nat, n: nat)
    requires total + n <= end <= |all| && all[total..] == c + rest && n <= |c|
    ensures all[..end][total..total + n] == c[..n]
  {
    assert all[..end][total..total + n] == all[total..][..n];
  }

  /** Reading the chunk `c` off a stream `all` of which `total` bytes are taken. */
  lemma TakeBytes(all: seq<byte>, total: nat, c: seq<byte>, rest: seq<byte>, cap: nat, pending: seq<byte>)
    requires total <= |all| && all[total..] == c + rest && total <= cap && c != []
    ensures
      var seen := Capped(all, cap);
      var n := if |c| <= cap - total then |c| else cap - total;
      && total + n <= |seen|
      && pending + seen[total..] == (pending + c[..n]) + seen[total + n..]
      && (if total + n < cap then all[total + n..] == rest else cap <= |all| && all != [] && total + n == |seen|)
  {
    var seen := Capped(all, cap);
    var n := if |c| <= cap - total then |c| else cap - total;
    assert |all| == total + |c| + |rest|;
    TakenPart(all, total, c, rest, |seen|, n);
    assert seen[total..] == c[..n] + seen[total + n..];
    if total + n < cap {
      assert all[total + n..] == all[total..][|c|..];
    }
  }

  lemma NextChunk(chunks: seq<chunk>, i: nat)
    requires i < |chunks|
    ensures Concat<byte>(chunks[i..]) == chunks[i] + Concat(chunks[i + 1..])
  {
    assert chunks[i..][1..] == chunks[i + 1..];
  }

  lemma NoChunkLeft(chunks: seq<chunk>)
    ensures Concat<byte>(chunks[|chunks|..]) == []
  {
  }

  lemma AtEnd(all: seq<byte>, total: nat, cap: nat, pending: seq<byte>)
    requires total <= |Capped(all, cap)| && all[total..] == []
    ensures pending + Capped(all, cap)[total..] == pending
  {
  }

  /** `collect_response`: `chunks` are what `fill_buf` returns, until `end`. */
  method CollectResponse(decode: Decoder, chunks: seq<chunk>, end: End, cap: nat) returns (r: Response, total: nat)
    ensures r == Answer(decode, Concat(chunks), end, cap)
    ensures total <= cap
  {
    hide IsPrompt, IsErrorLine, TextOf, TextsOf, LinesOf, Scan, NewlineAt, FirstDecisive, Joined, Answer, Concat, Capped;
    ghost var all: seq<byte> := Concat(chunks);
    ghost var seen := Capped(all, cap);
    ghost var verdict := Scan("", TextsOf(decode, seen));
    VerdictIs(decode, all, end, cap);
    var pending: seq<byte> := [];
    var output := "";
    total := 0;
    var i := 0;
    assert pending + seen[total..] == seen && chunks[0..] == chunks && all[0..] == all;
    while true
      invariant i <= |chunks| && total <= |seen|
      invariant all[total..] == Concat(chunks[i..])
      invariant NL !in pending
      invariant i > 0 ==> 0 < total < cap
      invariant Scan(output, TextsOf(decode, pending + seen[total..])) == verdict
      decreases |chunks| - i
    {
      if i == |chunks| {
        NoChunkLeft(chunks);
        AtEnd(all, total, cap, pending);
        NoLine(decode, pending, output);
        if end == DeadlinePassed {
          return Late, total;
        }
        if end == ReadFailed {
          return Broken, total;
        }
        break;
      }
      var c: seq<byte> := chunks[i];
      var n := if |c| <= cap - total then |c| else cap - total;
      NextChunk(chunks, i);
      TakeBytes(all, total, c, Concat(chunks[i + 1..]), cap, pending);
      pending := pending + c[..n];
      total := total + n;
      i := i + 1;
      while NL in pending
        invariant Scan(output, TextsOf(decode, pending + seen[total..])) == verdict
        decreases |pending|
      {
        NextLine(decode, pending, seen[total..], output);
        var nl := NewlineAt(pending);
        var trimmed := TextOf(decode, pending[..nl + 1]);
        pending := pending[nl + 1..];
        if IsPrompt(trimmed) {
          return Output(output), total;
        }
        if IsErrorLine(trimmed) {
          return HubError(trimmed), total;
        }
        output := output + trimmed + "\n";
      }
      if total >= cap {
        assert pending + seen[total..] == pending;
        NoLine(decode, pending, output);
        return CapReached, total;
      }
    }
    return Output(output), total;
  }

  // ---- What the hub sent, line by line ----

  /** One line as sent: its newline is its last byte and its only one. */
  predicate IsLine(l: seq<byte>) {
    l != [] && NewlineAt(l) == |l| - 1
  }

  /** Any bytes are complete lines followed by a partial one. */
  lemma {:induction false} EveryStreamIsLines(b: seq<byte>) returns (tail: seq<byte>)
    ensures b == Concat(LinesOf(b)) + tail && NL !in tail
    ensures forall l :: l in LinesOf(b) ==> IsLine(l)
    decreases |b|
  {
    hide NewlineAt;
    var k := NewlineAt(b);
    if k == |b| {
      tail := b;
      assert b[..k] == b;
    } else {
      tail := EveryStreamIsLines(b[k + 1..]);
      var first := b[..k + 1];
      assert first[..k] == b[..k];
      NewlineIs(first, k);
      assert b == first + b[k + 1..];
      assert LinesOf(b)[1..] == LinesOf(b[k + 1..]);
    }
  }

  lemma LinesOfFirst(first: seq<byte>, rest: seq<byte>)
    requires IsLine(first)
    ensures LinesOf(first + rest) == [first] + LinesOf(rest)
  {
    hide NewlineAt, LinesOf;
    FirstLine(first, rest);
    assert first[..|first|] == first && first[|first|..] + rest == rest;
  }

  lemma {:induction false} LinesAppend(lines: seq<seq<byte>>, tail: seq<byte>)
    requires forall l :: l in lines ==> IsLine(l)
    ensures LinesOf(Concat(lines) + tail) == lines + LinesOf(tail)
  {
    hide NewlineAt, LinesOf;
    if lines == [] {
      assert Concat(lines) + tail == tail;
    } else {
      LinesAppend(lines[1..], tail);
      var first, rest := lines[0], Concat(lines[1..]) + tail;
      assert first in lines;
      assert Concat(lines) + tail == first + rest;
      LinesOfFirst(first, rest);
      assert lines == [first] + lines[1..];
    }
  }

  function Texts(decode: Decoder, lines: seq<seq<byte>>): (r: seq<string>)
    ensures |r| == |lines| && forall i :: 0 <= i < |r| ==> r[i] == TextOf(decode, lines[i])
  {
    seq(|lines|, i requires 0 <= i < |lines| => TextOf(decode, lines[i]))
  }

  /** The first prompt or error the hub sends decides, however the bytes arrive and whatever follows it. */
  lemma DecisiveLineDecides(decode: Decoder, lines: seq<seq<byte>>, last: seq<byte>, rest: seq<byte>, end: End, cap: nat)
    requires forall l :: l in lines ==> IsLine(l) && !Decisive(TextOf(decode, l))
    requires IsLine(last) && Decisive(TextOf(decode, last))
    requires |Concat(lines) + last| <= cap
    ensures Answer(decode, Concat(lines) + last + rest, end, cap) ==
      if IsPrompt(TextOf(decode, last)) then Output(Joined(Texts(decode, lines))) else HubError(TextOf(decode, last))
  {
    hide Decisive, IsPrompt, TextOf, NewlineAt, LinesOf, FirstDecisive, Joined, Concat;
    var b := Concat(lines) + last + rest;
    var seen := Capped(b, cap);
    var more := seen[|Concat(lines) + last|..];
    assert seen == Concat(lines) + (last + more);
    LinesAppend(lines, last + more);
    LinesOfFirst(last, more);
    var texts := TextsOf(decode, seen);
    var k := |lines|;
    assert LinesOf(seen)[k] == last && texts[..k] == Texts(decode, lines);
    FirstDecisiveIs(texts, k) by {
      assert forall i :: 0 <= i < k ==> texts[i] == TextOf(decode, lines[i]) && lines[i] in lines;
    }
  }

  /** Without one, only the cap and the way the stream ended count; the partial last line is dropped. */
  lemma UndecidedStream(decode: Decoder, lines: seq<seq<byte>>, tail: seq<byte>, end: End, cap: nat)
    requires forall l :: l in lines ==> IsLine(l) && !Decisive(TextOf(decode, l))
    requires NL !in tail
    ensures var b := Concat(lines) + tail;
      Answer(decode, b, end, cap) ==
        if b != [] && cap <= |b| then CapReached
        else if end == DeadlinePassed then Late
        else if end == ReadFailed then Broken
        else Output(Joined(Texts(decode, lines)))
  {
    hide Decisive, IsPrompt, TextOf, NewlineAt, LinesOf, FirstDecisive, Joined, Concat;
    var b := Concat(lines) + tail;
    LinesAppend(lines, tail);
    NoLines(tail);
    assert lines + [] == lines;
    var seen := Capped(b, cap);
    var all, texts := TextsOf(decode, b), TextsOf(decode, seen);
    CutLines(b, |seen|);
    assert b[..|seen|] == seen;
    FirstDecisiveIs(texts, |texts|) by {
      assert forall i :: 0 <= i < |texts| ==> LinesOf(seen)[i] == lines[i] && lines[i] in lines;
    }
    if |b| < cap {
      assert texts == Texts(decode, lines) && texts[..|texts|] == texts;
    }
  }

  /** Cutting a stream short keeps a prefix of its complete lines. */
  lemma {:induction false} CutLines(b: seq<byte>, n: nat)
    requires n <= |b|
    ensures LinesOf(b[..n]) <= LinesOf(b)
    decreases |b|
  {
    hide NewlineAt, LinesOf;
    var k := NewlineAt(b);
    var c := b[..n];
    if n <= k {
      assert forall i :: 0 <= i < n ==> c[i] == b[..k][i];
      NoLines(c);
    } else {
      var first, rest := b[..k + 1], b[k + 1..];
      CutLines(rest, n - k - 1);
      assert first[..k] == b[..k];
      NewlineIs(first, k);
      assert b == first + rest && c == first + rest[..n - k - 1];
      LinesOfFirst(first, rest);
      LinesOfFirst(first, rest[..n - k - 1]);
    }
  }
}
