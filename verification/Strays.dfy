/**
 * The stray-helper listing (cli/src/daemons.rs): processes started from a helper directory that
 * neither are a recorded process nor descend from one.
 */
module Strays {
  import opened Bytes
  import opened Strings

  /** One row of the process table. */
  datatype Row = Row(pid: int, ppid: int, args: string)

  // ---- One line of `ps -axo pid=,ppid=,args=` ----

  /** Splits at the first blank. */
  function SplitOnce(s: string): Option<(string, string)> {
    if s == [] then None
    else if s[0] == ' ' then Some(([], s[1..]))
    else
      var r := SplitOnce(s[1..]);
      if r.Some? then Some(([s[0]] + r.value.0, r.value.1)) else None
  }

  predicate AllDigits(s: string) {
    forall i :: 0 <= i < |s| ==> '0' <= s[i] <= '9'
  }

  /** `str::parse::<i32>`. */
  function ParseI32(s: string): (r: Option<int>)
    ensures r.Some? ==> -0x8000_0000 <= r.value < 0x8000_0000
  {
    var signed := s != [] && s[0] in {'+', '-'};
    var digits := if signed then s[1..] else s;
    if digits == [] || !AllDigits(digits) then None
    else
      var v := if signed && s[0] == '-' then -DecimalValue(digits) else DecimalValue(digits);
      if -0x8000_0000 <= v < 0x8000_0000 then Some(v) else None
  }

  /** `parse_ps_row`. */
  function ParseRow(line: string): Option<Row> {
    var first := SplitOnce(TrimStart(line));
    if first.None? then None
    else
      var second := SplitOnce(TrimStart(first.value.1));
      if second.None? then None
      else
        var pid, ppid := ParseI32(first.value.0), ParseI32(second.value.0);
        if pid.None? || ppid.None? then None else Some(Row(pid.value, ppid.value, Trim(second.value.1)))
  }

  /** A number is digits with at most a sign before them, and in range; anything else is none. */
  lemma ParseI32Exactly(d: string)
    ensures d != "" && AllDigits(d) ==>
      var v := DecimalValue(d);
      && ParseI32(d) == ParseI32("+" + d) == (if v <= 0x7FFF_FFFF then Some(v) else None)
      && ParseI32("-" + d) == (if v <= 0x8000_0000 then Some(-v) else None)
    ensures d == "" || !AllDigits(d) ==> ParseI32("+" + d) == None && ParseI32("-" + d) == None
    ensures (d == "" || !AllDigits(d)) && (d != "" ==> d[0] !in {'+', '-'}) ==> ParseI32(d) == None
  {
    hide DecimalValue;
    assert ("+" + d)[1..] == d && ("-" + d)[1..] == d;
    if d != "" && AllDigits(d) {
      assert '0' <= d[0] <= '9';
      DigitsArePositive(d);
    }
  }

  lemma {:induction false} DigitsArePositive(d: string)
    requires AllDigits(d)
    ensures DecimalValue(d) >= 0
    decreases |d|
  {
    if d != "" {
      DigitsArePositive(d[..|d| - 1]);
    }
  }

  predicate Blank(s: string) {
    forall i :: 0 <= i < |s| ==> s[i] == ' '
  }

  lemma {:induction false} SplitsAt(a: string, b: string)
    requires ' ' !in a
    ensures SplitOnce(a + " " + b) == Some((a, b))
  {
    var s := a + " " + b;
    if a == [] {
      assert s[1..] == b;
    } else {
      SplitsAt(a[1..], b);
      assert s[1..] == a[1..] + " " + b && s[0] == a[0] && a[0] in a;
      assert a == [a[0]] + a[1..];
    }
  }

  lemma {:induction false} TrimsBlanks(a: string, b: string)
    requires Blank(a) && b != [] && !IsWhite(b[0])
    ensures TrimStart(a + b) == b
  {
    if a == [] {
      assert a + b == b;
    } else {
      TrimsBlanks(a[1..], b);
      assert (a + b)[1..] == a[1..] + b;
    }
  }

  lemma I32ReadsBack(n: nat)
    requires n < 0x8000_0000
    ensures ParseI32(Decimal(n)) == Some(n) && ' ' !in Decimal(n) && !IsWhite(Decimal(n)[0])
  {
    DecimalReadsBack(n);
    hide Decimal, DecimalValue;
    assert '0' <= Decimal(n)[0] <= '9';
  }

  /** A row as `ps` prints it, its numbers right-aligned, is read back with its command line trimmed. */
  lemma RowReadsBack(a: string, pid: nat, b: string, ppid: nat, args: string)
    requires pid < 0x8000_0000 && ppid < 0x8000_0000 && Blank(a) && Blank(b)
    ensures ParseRow(a + Decimal(pid) + " " + (b + Decimal(ppid) + " " + args)) == Some(Row(pid, ppid, Trim(args)))
  {
    hide Trim, ParseI32, Decimal, SplitOnce, TrimStart;
    I32ReadsBack(pid);
    I32ReadsBack(ppid);
    var second := Decimal(ppid) + " " + args;
    var rest := b + Decimal(ppid) + " " + args;
    var first := Decimal(pid) + " " + rest;
    TrimsBlanks(a, first);
    assert a + Decimal(pid) + " " + rest == a + first;
    SplitsAt(Decimal(pid), rest);
    TrimsBlanks(b, second);
    assert rest == b + second;
    SplitsAt(Decimal(ppid), args);
  }

  // ---- The whole listing ----

  /** The rows of the lines that are rows. */
  function RowsOf(lines: seq<string>): seq<Row> {
    if lines == [] then []
    else (var r := ParseRow(lines[0]); if r.Some? then [r.value] else []) + RowsOf(lines[1..])
  }

  method ParsePs(ps: string) returns (rows: seq<Row>)
    ensures rows == RowsOf(Lines(ps))
  {
    hide ParseRow, Lines;
    var lines := Lines(ps);
    rows := [];
    assert lines[0..] == lines;
    for k := 0 to |lines|
      invariant rows + RowsOf(lines[k..]) == RowsOf(lines)
    {
      assert lines[k..][0] == lines[k] && lines[k..][1..] == lines[k + 1..];
      var r := ParseRow(lines[k]);
      if r.Some? {
        rows := rows + [r.value];
      }
    }
  }

  /** A line of the listing: a row as `ps` aligns it, or anything else that is no row. */
  datatype Printed = Aligned(a: string, pid: nat, b: string, ppid: nat, args: string) | Other(text: string) {
    function Text(): string {
      match this
      case Aligned(a, pid, b, ppid, args) => a + Decimal(pid) + " " + (b + Decimal(ppid) + " " + args)
      case Other(text) => text
    }

    predicate Valid() {
      && '\n' !in Text() && Chomp(Text()) == Text()
      && match this
         case Aligned(a, pid, b, ppid, _) => pid < 0x8000_0000 && ppid < 0x8000_0000 && Blank(a) && Blank(b)
         case Other(text) => ParseRow(text).None?
    }
  }

  function Listing(table: seq<Printed>): string {
    if table == [] then "" else table[0].Text() + "\n" + Listing(table[1..])
  }

  function Rows(table: seq<Printed>): seq<Row> {
    if table == [] then []
    else
      (if table[0].Aligned? then [Row(table[0].pid, table[0].ppid, Trim(table[0].args))] else []) + Rows(table[1..])
  }

  /** The listing reads back: its rows in order, their command lines trimmed, and nothing of the other lines. */
  lemma {:induction false} ListingReadsBack(table: seq<Printed>)
    requires forall p <- table :: p.Valid()
    ensures RowsOf(Lines(Listing(table))) == Rows(table)
  {
    hide ParseRow, LineEnd, Chomp, Decimal, Trim, Blank;
    if table != [] {
      var p, rest := table[0], Listing(table[1..]);
      assert p in table && forall x <- table[1..] :: x in table;
      ListingReadsBack(table[1..]);
      LineEndAt(p.Text(), rest);
      var s := p.Text() + "\n" + rest;
      assert s[..|p.Text()|] == p.Text() && s[|p.Text()| + 1..] == rest;
      if p.Aligned? {
        RowReadsBack(p.a, p.pid, p.b, p.ppid, p.args);
      }
      assert ([p.Text()] + Lines(rest))[1..] == Lines(rest);
    }
  }

  // ---- The process tree ----

  ghost predicate IsParent(rows: seq<Row>, parent: int, child: int) {
    exists k :: 0 <= k < |rows| && rows[k].ppid == parent && rows[k].pid == child
  }

  /** A line of descent: each process is the parent of the next. */
  ghost predicate Line(rows: seq<Row>, line: seq<int>) {
    line != [] && forall i :: 0 < i < |line| ==> Link(rows, line, i)
  }

  ghost predicate Link(rows: seq<Row>, line: seq<int>, i: nat)
    requires 0 < i < |line|
  {
    IsParent(rows, line[i - 1], line[i])
  }

  /** `p` is one of `roots` or descends from one. */
  ghost predicate Descends(rows: seq<Row>, roots: set<int>, p: int) {
    exists line :: Line(rows, line) && line[0] in roots && line[|line| - 1] == p
  }

  ghost predicate Closed(rows: seq<Row>, s: set<int>) {
    forall k :: 0 <= k < |rows| && rows[k].ppid in s ==> rows[k].pid in s
  }

  lemma RootDescends(rows: seq<Row>, roots: set<int>, p: int)
    requires p in roots
    ensures Descends(rows, roots, p)
  {
    assert Line(rows, [p]);
  }

  lemma ChildDescends(rows: seq<Row>, roots: set<int>, k: nat)
    requires k < |rows| && Descends(rows, roots, rows[k].ppid)
    ensures Descends(rows, roots, rows[k].pid)
  {
    var line :| Line(rows, line) && line[0] in roots && line[|line| - 1] == rows[k].ppid;
    var longer := line + [rows[k].pid];
    forall i | 0 < i < |longer|
      ensures Link(rows, longer, i)
    {
      if i < |line| {
        assert Link(rows, line, i);
      } else {
        assert IsParent(rows, rows[k].ppid, rows[k].pid);
      }
    }
    assert Line(rows, longer);
  }

  /** A closed set that holds the roots holds every descendant. */
  lemma {:induction false} ClosedHoldsLine(rows: seq<Row>, s: set<int>, line: seq<int>)
    requires Closed(rows, s) && Line(rows, line) && line[0] in s
    ensures line[|line| - 1] in s
  {
    if |line| > 1 {
      var shorter := line[..|line| - 1];
      forall i | 0 < i < |shorter|
        ensures Link(rows, shorter, i)
      {
        assert Link(rows, line, i);
      }
      ClosedHoldsLine(rows, s, shorter);
      assert Link(rows, line, |line| - 1);
    }
  }

  /** The closure that `strays_in_ps` grows is the descent relation. */
  lemma ClosureIs(rows: seq<Row>, roots: set<int>, s: set<int>)
    requires roots <= s && Closed(rows, s)
    requires forall p :: p in s ==> Descends(rows, roots, p)
    ensures forall p :: p in s <==> Descends(rows, roots, p)
  {
    forall p | Descends(rows, roots, p)
      ensures p in s
    {
      var line :| Line(rows, line) && line[0] in roots && line[|line| - 1] == p;
      ClosedHoldsLine(rows, s, line);
    }
  }

  // ---- The listing ----

  /** A stray: started from a helper directory, not this process, and in no recorded process's family. */
  ghost predicate IsStray(rows: seq<Row>, launched: string -> bool, me: int, roots: set<int>, r: Row) {
    r.pid != me && launched(r.args) && !Descends(rows, roots, r.pid)
  }

  /** The strays among `some`, in order. */
  ghost function StraysAmong(rows: seq<Row>, launched: string -> bool, me: int, roots: set<int>, some: seq<Row>)
    : seq<(int, string)>
  {
    if some == [] then []
    else
      (if IsStray(rows, launched, me, roots, some[0]) then [(some[0].pid, some[0].args)] else [])
      + StraysAmong(rows, launched, me, roots, some[1..])
  }

  function ToSet(s: seq<int>): set<int> {
    set x | x in s
  }

  /** The loop of `strays_in_ps` that closes the excluded set over parent and child. */
  method CloseFamily(rows: seq<Row>, roots: set<int>) returns (excluded: set<int>)
    ensures forall p :: p in excluded <==> Descends(rows, roots, p)
  {
    hide Descends, Closed;
    excluded := roots;
    ghost var all := roots + set r | r in rows :: r.pid;
    forall p | p in roots
      ensures Descends(rows, roots, p)
    {
      RootDescends(rows, roots, p);
    }
    while true
      invariant roots <= excluded <= all
      invariant forall p :: p in excluded ==> Descends(rows, roots, p)
      decreases |all| - |excluded|
    {
      var before := excluded;
      for k := 0 to |rows|
        invariant before <= excluded <= all
        invariant forall p :: p in excluded ==> Descends(rows, roots, p)
        invariant forall i :: 0 <= i < k && rows[i].ppid in before ==> rows[i].pid in excluded
      {
        if rows[k].ppid in excluded {
          ChildDescends(rows, roots, k);
          assert rows[k] in rows;
          excluded := excluded + {rows[k].pid};
        }
      }
      SubsetSize(before, excluded);
      SubsetSize(excluded, all);
      if |excluded| == |before| {
        NothingLeft(rows, excluded);
        ClosureIs(rows, roots, excluded);
        return;
      }
    }
  }

  lemma NothingLeft(rows: seq<Row>, s: set<int>)
    requires forall i :: 0 <= i < |rows| && rows[i].ppid in s ==> rows[i].pid in s
    ensures Closed(rows, s)
  {
  }

  /** `strays_in_ps`; `launched` is `launched_from` for the helper directories. */
  method StraysInPs(ps: string, launched: string -> bool, me: int, exclude: seq<int>)
      returns (strays: seq<(int, string)>)
    ensures var rows := RowsOf(Lines(ps)); strays == StraysAmong(rows, launched, me, ToSet(exclude), rows)
  {
    hide Descends, Lines, RowsOf;
    ghost var roots := ToSet(exclude);
    var rows := ParsePs(ps);
    var excluded := CloseFamily(rows, ToSet(exclude));
    strays := [];
    assert rows[0..] == rows;
    for k := 0 to |rows|
      invariant strays + StraysAmong(rows, launched, me, roots, rows[k..])
        == StraysAmong(rows, launched, me, roots, rows)
    {
      var r := rows[k];
      NextRow(rows, launched, me, roots, k, strays);
      if r.pid != me && r.pid !in excluded && launched(r.args) {
        strays := strays + [(r.pid, r.args)];
      }
    }
  }

  lemma NextRow(rows: seq<Row>, launched: string -> bool, me: int, roots: set<int>, k: nat, before: seq<(int, string)>)
    requires k < |rows|
    ensures before + StraysAmong(rows, launched, me, roots, rows[k..]) ==
      (if IsStray(rows, launched, me, roots, rows[k]) then before + [(rows[k].pid, rows[k].args)] else before)
      + StraysAmong(rows, launched, me, roots, rows[k + 1..])
  {
    hide IsStray;
    assert rows[k..][0] == rows[k] && rows[k..][1..] == rows[k + 1..];
  }

  // ---- What the listing promises ----

  lemma {:induction false} ListedIsStray(rows: seq<Row>, launched: string -> bool, me: int, roots: set<int>,
        some: seq<Row>, entry: (int, string))
    ensures entry in StraysAmong(rows, launched, me, roots, some) <==>
      exists k :: 0 <= k < |some| && entry == (some[k].pid, some[k].args)
        && IsStray(rows, launched, me, roots, some[k])
  {
    hide IsStray;
    if some != [] {
      ListedIsStray(rows, launched, me, roots, some[1..], entry);
      assert forall k :: 0 < k < |some| ==> some[k] == some[1..][k - 1];
      forall k | 0 <= k < |some[1..]|
        ensures some[1..][k] == some[k + 1]
      {
      }
    }
  }

  /**
   * Exactly the rows that are listed: started from a helper directory, not this process, and
   * neither recorded nor below a recorded one.
   */
  lemma ListedExactly(rows: seq<Row>, launched: string -> bool, me: int, roots: set<int>, entry: (int, string))
    ensures entry in StraysAmong(rows, launched, me, roots, rows) <==>
      exists r <- rows ::
        entry == (r.pid, r.args) && r.pid != me && launched(r.args) && !Descends(rows, roots, r.pid)
  {
    hide StraysAmong, Descends;
    ListedIsStray(rows, launched, me, roots, rows, entry);
    assert forall k :: 0 <= k < |rows| ==> rows[k] in rows;
  }

  /** The listing keeps the table's order. */
  lemma {:induction false} ListedInOrder(rows: seq<Row>, launched: string -> bool, me: int, roots: set<int>,
        a: seq<Row>, b: seq<Row>)
    ensures StraysAmong(rows, launched, me, roots, a + b)
         == StraysAmong(rows, launched, me, roots, a) + StraysAmong(rows, launched, me, roots, b)
    decreases |a|
  {
    hide IsStray, StraysAmong;
    if a == [] {
      assert a + b == b;
      NoneAmong(rows, launched, me, roots);
      assert [] + StraysAmong(rows, launched, me, roots, b) == StraysAmong(rows, launched, me, roots, b);
    } else {
      ListedInOrder(rows, launched, me, roots, a[1..], b);
      assert (a + b)[1..] == a[1..] + b && (a + b)[0] == a[0];
      FirstAmong(rows, launched, me, roots, a);
      FirstAmong(rows, launched, me, roots, a + b);
    }
  }

  lemma NoneAmong(rows: seq<Row>, launched: string -> bool, me: int, roots: set<int>)
    ensures StraysAmong(rows, launched, me, roots, []) == []
  {
  }

  lemma FirstAmong(rows: seq<Row>, launched: string -> bool, me: int, roots: set<int>, some: seq<Row>)
    requires some != []
    ensures StraysAmong(rows, launched, me, roots, some)
         == (if IsStray(rows, launched, me, roots, some[0]) then [(some[0].pid, some[0].args)] else [])
            + StraysAmong(rows, launched, me, roots, some[1..])
  {
    hide IsStray;
  }

  /** No process above a stray, at any distance, is a recorded one: the signal meets no tracked helper's child. */
  lemma StrayHasNoRecordedAncestor(rows: seq<Row>, launched: string -> bool, me: int, roots: set<int>, r: Row,
        line: seq<int>)
    requires IsStray(rows, launched, me, roots, r)
    requires Line(rows, line) && line[|line| - 1] == r.pid
    ensures forall i :: 0 <= i < |line| ==> line[i] !in roots
  {
    forall i | 0 <= i < |line|
      ensures line[i] !in roots
    {
      var below := line[i..];
      forall j | 0 < j < |below|
        ensures Link(rows, below, j)
      {
        assert Link(rows, line, i + j);
      }
      assert Line(rows, below) && below[|below| - 1] == r.pid;
    }
  }

  /** The table's order does not matter: only which rows it has. */
  lemma OrderDoesNotMatter(a: seq<Row>, b: seq<Row>, launched: string -> bool, me: int, roots: set<int>, r: Row)
    requires forall x :: x in a <==> x in b
    ensures IsStray(a, launched, me, roots, r) <==> IsStray(b, launched, me, roots, r)
  {
    SameDescent(a, b, roots, r.pid);
    SameDescent(b, a, roots, r.pid);
  }

  lemma SameDescent(a: seq<Row>, b: seq<Row>, roots: set<int>, p: int)
    requires forall x :: x in a ==> x in b
    ensures Descends(a, roots, p) ==> Descends(b, roots, p)
  {
    if Descends(a, roots, p) {
      var line :| Line(a, line) && line[0] in roots && line[|line| - 1] == p;
      forall i | 0 < i < |line|
        ensures Link(b, line, i)
      {
        assert Link(a, line, i);
        var k :| 0 <= k < |a| && a[k].ppid == line[i - 1] && a[k].pid == line[i];
        assert a[k] in b;
      }
      assert Line(b, line);
    }
  }
}
