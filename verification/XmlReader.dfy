/**
 * The hand-written XML reader of the AMT helper (amt/src/rpc.rs), set against documents: on the
 * text of any well-formed document it finds the first element, in document order, that has the
 * wanted local name.
 */
module XmlReader {
  import opened Bytes
  import opened Strings

  /** The index of the first character of `s` that is in `stop`, or `|s|`. */
  function Find(s: string, stop: set<char>): (k: nat)
    ensures k <= |s|
    ensures forall i :: 0 <= i < k ==> s[i] !in stop
    ensures k < |s| ==> s[k] in stop
  {
    if s == [] || s[0] in stop then 0 else 1 + Find(s[1..], stop)
  }

  predicate Free(s: string, stop: set<char>) {
    forall i :: 0 <= i < |s| ==> s[i] !in stop
  }

  lemma FindAt(u: string, v: string, stop: set<char>)
    requires Free(u, stop) && v != [] && v[0] in stop
    ensures Find(u + v, stop) == |u|
  {
    hide Find;
    var s := u + v;
    FirstIs(s, |u|, stop) by {
      assert s[|u|] == v[0];
      assert forall i :: 0 <= i < |u| ==> s[i] == u[i];
    }
  }

  lemma FirstIs(s: string, k: nat, stop: set<char>)
    requires k <= |s| && Free(s[..k], stop) && (k < |s| ==> s[k] in stop)
    ensures Find(s, stop) == k
  {
    hide Find;
    var f := Find(s, stop);
    assert forall i :: 0 <= i < k ==> s[i] == s[..k][i];
  }

  const OPEN: set<char> := {'<'}
  const CLOSE: set<char> := {'>'}
  const NAME_END: set<char> := {' ', '\t', '\r', '\n', '>', '/'}
  const NOT_ELEMENT: set<char> := {'/', '?', '!'}

  /** What follows the last colon. */
  function LocalName(q: string): string {
    if q == [] || q[|q| - 1] == ':' then [] else LocalName(q[..|q| - 1]) + [q[|q| - 1]]
  }

  /** One round of the loop, behind a `<`: an answer, or where to look for the next `<`. */
  datatype Round = Answer(text: Option<string>) | Resume(at: nat)

  function AfterOpen(t: string, local: string): (r: Round)
    requires t != []
    ensures r.Resume? ==> r.at <= |t|
    ensures r.Answer? && r.text.Some? ==> Tight(r.text.value) && Free(r.text.value, OPEN)
  {
    if t[0] in NOT_ELEMENT then Resume(0)
    else
      var j := Find(t, NAME_END);
      var g := j + Find(t[j..], CLOSE);
      if g == |t| then Answer(None)
      else if LocalName(t[..j]) == local then Answer(ElementText(if g == 0 then '<' else t[g - 1], t[g + 1..]))
      else Resume(g + 1)
  }

  /** The answer at a matching start tag: the character before its `>`, and what follows it. */
  function ElementText(last: char, after: string): (r: Option<string>)
    ensures r.Some? ==> Tight(r.value) && Free(r.value, OPEN)
  {
    if last == '/' then Some("")
    else
      var e := Find(after, OPEN);
      if e == |after| then None else
      assert forall c :: c in Trim(after[..e]) ==> c !in OPEN;
      Some(Trim(after[..e]))
  }

  /** `xml_text` on what is left of the document. */
  function XmlText(s: string, local: string): (r: Option<string>)
    ensures r.Some? ==> Tight(r.value) && Free(r.value, OPEN)
    decreases |s|
  {
    var a := Find(s, OPEN);
    if |s| <= a + 1 then None
    else
      var r := AfterOpen(s[a + 1..], local);
      if r.Answer? then r.text else XmlText(s[a + 1 + r.at..], local)
  }

  /** The cursor loop of `xml_text`. */
  method ReadText(xml: string, local: string) returns (r: Option<string>)
    ensures r == XmlText(xml, local)
  {
    hide LocalName, ElementText, Find, Trim, XmlText, AfterOpen;
    var i := 0;
    assert xml[0..] == xml;
    while true
      invariant i <= |xml|
      invariant XmlText(xml[i..], local) == XmlText(xml, local)
      decreases |xml| - i
    {
      var off := Find(xml[i..], OPEN);
      var start := i + off + 1;
      NoTagLeft(xml[i..], local);
      if off == |xml[i..]| {
        return None;
      }
      if start >= |xml| {
        return None;
      }
      UnfoldAt(xml, i, start, local);
      assert xml[start - 1] == xml[i..][off];
      AsideIs(xml[start..], local);
      if xml[start] in NOT_ELEMENT {
        i := start;
        continue;
      }
      var j := start;
      while j < |xml| && xml[j] !in NAME_END
        invariant start <= j <= |xml|
        invariant Free(xml[start..j], NAME_END)
      {
        assert xml[start..j + 1] == xml[start..j] + [xml[j]];
        j := j + 1;
      }
      var gt := j + Find(xml[j..], CLOSE);
      RoundIs(xml, start, j, local);
      if gt == |xml| {
        return None;
      }
      if LocalName(xml[start..j]) == local {
        return ElementText(xml[gt - 1], xml[gt + 1..]);
      }
      i := gt + 1;
    }
  }

  lemma AsideIs(t: string, local: string)
    requires t != []
    ensures t[0] in NOT_ELEMENT ==> AfterOpen(t, local) == Resume(0)
  {
  }

  /** One round in the cursor's terms: the `<` is just before `start`, the name ends at `j`. */
  lemma RoundIs(xml: string, start: nat, j: nat, local: string)
    requires 0 < start <= j <= |xml| && start < |xml|
    requires xml[start - 1] == '<' && xml[start] !in NOT_ELEMENT
    requires Free(xml[start..j], NAME_END) && (j < |xml| ==> xml[j] in NAME_END)
    ensures var gt := j + Find(xml[j..], CLOSE);
      AfterOpen(xml[start..], local) ==
        if gt == |xml| then Answer(None)
        else if LocalName(xml[start..j]) == local then Answer(ElementText(xml[gt - 1], xml[gt + 1..]))
        else Resume(gt + 1 - start)
  {
    hide LocalName, ElementText, Find, Trim, XmlText;
    var t := xml[start..];
    assert t[..j - start] == xml[start..j] && t[j - start..] == xml[j..];
    FirstIs(t, j - start, NAME_END);
    var gt := j + Find(xml[j..], CLOSE);
    if gt < |xml| {
      assert t[gt - start + 1..] == xml[gt + 1..];
      assert gt > start ==> t[gt - start - 1] == xml[gt - 1];
    }
  }

  lemma Unfold(s: string, a: nat, local: string)
    requires a == Find(s, OPEN) && a + 1 < |s|
    ensures var r := AfterOpen(s[a + 1..], local);
      XmlText(s, local) == if r.Answer? then r.text else XmlText(s[a + 1 + r.at..], local)
  {
    hide AfterOpen, Find;
  }

  lemma NoTagLeft(s: string, local: string)
    ensures |s| <= Find(s, OPEN) + 1 ==> XmlText(s, local) == None
  {
    hide AfterOpen, Find;
  }

  lemma UnfoldAt(xml: string, i: nat, start: nat, local: string)
    requires i <= |xml| && start == i + Find(xml[i..], OPEN) + 1 && start < |xml|
    ensures var r := AfterOpen(xml[start..], local);
      XmlText(xml[i..], local) == if r.Answer? then r.text else XmlText(xml[start + r.at..], local)
  {
    hide AfterOpen, Find, XmlText;
    var s, a := xml[i..], start - i - 1;
    assert s[a + 1..] == xml[start..];
    Unfold(s, a, local);
    var r := AfterOpen(xml[start..], local);
    if r.Resume? {
      assert s[a + 1 + r.at..] == xml[start + r.at..];
    }
  }

  // ---- Documents ----

  /** An element's name and the rest of its start tag. */
  datatype Tag = Tag(prefix: Option<string>, local: string, attrs: string) {
    function QName(): string {
      if prefix.Some? then prefix.value + ":" + local else local
    }

    /** Names hold no delimiter; attributes follow a blank and hold no `<`. */
    ghost predicate Valid() {
      && QName() != [] && Free(QName(), NAME_END + OPEN) && QName()[0] !in NOT_ELEMENT && ':' !in local
      && Free(attrs, OPEN) && (attrs != [] ==> attrs[0] in NAME_END)
    }

    /** No attribute value holds a `>`, nor do they end in `/`. */
    ghost predicate Plain() {
      Free(attrs, CLOSE) && (attrs != [] ==> attrs[|attrs| - 1] != '/')
    }
  }

  /**
   * A list of nodes. `Aside` is a `<` that begins no element, with what follows it up to the next
   * `<`: a declaration, a processing instruction, a comment or the beginning of one. `Bare` is any
   * other `<` inside a comment or CDATA section, with what follows it up to the next `>`, at the
   * latest the one that ends the comment or section.
   */
  datatype Doc =
    | End
    | Text(text: string, rest: Doc)
    | Aside(aside: string, rest: Doc)
    | Bare(body: string, rest: Doc)
    | Empty(tag: Tag, rest: Doc)
    | Element(tag: Tag, inner: Doc, rest: Doc)

  ghost predicate WellFormed(d: Doc) {
    match d
    case End => true
    case Text(t, r) => Free(t, OPEN) && WellFormed(r)
    case Aside(a, r) => a != [] && a[0] in NOT_ELEMENT && Free(a, OPEN) && WellFormed(r)
    case Bare(b, r) => Free(b, CLOSE) && (b != [] ==> b[0] !in NOT_ELEMENT) && WellFormed(r)
    case Empty(tag, r) => tag.Valid() && WellFormed(r)
    case Element(tag, inner, r) => tag.Valid() && WellFormed(inner) && WellFormed(r)
  }

  /**
   * The elements of this name have plain start tags, and no bare `<` is followed by the name. Other
   * elements may have any attributes.
   */
  ghost predicate PlainFor(d: Doc, local: string) {
    match d
    case End => true
    case Text(_, r) => PlainFor(r, local)
    case Aside(_, r) => PlainFor(r, local)
    case Bare(b, r) => LocalName(b[..Find(b, NAME_END)]) != local && PlainFor(r, local)
    case Empty(tag, r) => (tag.local == local ==> tag.Plain()) && PlainFor(r, local)
    case Element(tag, inner, r) =>
      (tag.local == local ==> tag.Plain()) && PlainFor(inner, local) && PlainFor(r, local)
  }

  function StartTag(tag: Tag): string {
    "<" + tag.QName() + tag.attrs + ">"
  }

  function EndTag(tag: Tag): string {
    "</" + tag.QName() + ">"
  }

  function Print(d: Doc): string {
    match d
    case End => ""
    case Text(t, r) => t + Print(r)
    case Aside(a, r) => "<" + a + Print(r)
    case Bare(b, r) => "<" + b + ">" + Print(r)
    case Empty(tag, r) => "<" + tag.QName() + tag.attrs + "/>" + Print(r)
    case Element(tag, inner, r) => StartTag(tag) + Print(inner) + EndTag(tag) + Print(r)
  }

  /** The text before the first tag of `d`. */
  function Lead(d: Doc): string {
    if d.Text? then d.text + Lead(d.rest) else ""
  }

  /** The text of the first element, in document order, with this local name. */
  function Lookup(d: Doc, local: string): Option<string> {
    match d
    case End => None
    case Text(_, r) => Lookup(r, local)
    case Aside(_, r) => Lookup(r, local)
    case Bare(_, r) => Lookup(r, local)
    case Empty(tag, r) => if tag.local == local then Some("") else Lookup(r, local)
    case Element(tag, inner, r) =>
      if tag.local == local then Some(Trim(Lead(inner)))
      else OrElse(Lookup(inner, local), Lookup(r, local))
  }

  function OrElse<T>(a: Option<T>, b: Option<T>): Option<T> {
    if a.Some? then a else b
  }

  lemma {:induction false} LocalOfUnprefixed(n: string)
    requires ':' !in n
    ensures LocalName(n) == n
  {
    if n != [] {
      LocalOfUnprefixed(n[..|n| - 1]);
    }
  }

  lemma {:induction false} LocalOfPrefixed(p: string, n: string)
    requires ':' !in n
    ensures LocalName(p + ":" + n) == n
  {
    var q := p + ":" + n;
    if n != [] {
      LocalOfPrefixed(p, n[..|n| - 1]);
      assert q[..|q| - 1] == p + ":" + n[..|n| - 1];
    }
  }

  lemma LocalOfTag(tag: Tag)
    requires ':' !in tag.local
    ensures LocalName(tag.QName()) == tag.local
  {
    if tag.prefix.Some? {
      LocalOfPrefixed(tag.prefix.value, tag.local);
    } else {
      LocalOfUnprefixed(tag.local);
    }
  }

  /** Up to and past the next `<`. */
  lemma UnfoldText(u: string, t: string, local: string)
    requires Free(u, OPEN) && t != []
    ensures var r := AfterOpen(t, local);
      XmlText(u + "<" + t, local) == if r.Answer? then r.text else XmlText(t[r.at..], local)
  {
    hide AfterOpen, Find, XmlText;
    var s := u + "<" + t;
    assert s == u + ("<" + t);
    FindAt(u, "<" + t, OPEN);
    Unfold(s, |u|, local);
    assert s[|u| + 1..] == t;
    var r := AfterOpen(t, local);
    if r.Resume? {
      assert s[|u| + 1 + r.at..] == t[r.at..];
    }
  }

  /** Text without a `<` is passed over. */
  lemma SkipsText(u: string, v: string, local: string)
    requires Free(u, OPEN)
    ensures XmlText(u + v, local) == XmlText(v, local)
  {
    hide Find, AfterOpen, XmlText;
    var a := Find(v, OPEN);
    FreeConcat(u, v[..a]);
    if |v| <= a + 1 {
      FirstIs(u + v, |u| + a, OPEN) by {
        assert (u + v)[..|u| + a] == u + v[..a];
        assert a < |v| ==> (u + v)[|u| + a] == v[a];
      }
      NoTagLeft(v, local);
      NoTagLeft(u + v, local);
    } else {
      var t := v[a + 1..];
      UnfoldText(u + v[..a], t, local);
      UnfoldText(v[..a], t, local);
      assert v == v[..a] + "<" + t;
      assert u + v == u + v[..a] + "<" + t;
    }
  }

  lemma FreeConcat(u: string, v: string)
    requires Free(u, OPEN) && Free(v, OPEN)
    ensures Free(u + v, OPEN)
  {
  }

  /** A node that is no start tag is passed over. */
  lemma SkipsAside(a: string, v: string, local: string)
    requires a != [] && a[0] in NOT_ELEMENT && Free(a, OPEN)
    ensures XmlText("<" + a + v, local) == XmlText(v, local)
  {
    hide Find, XmlText;
    var t := a + v;
    UnfoldText("", t, local);
    assert "" + "<" + t == "<" + a + v;
    assert t[0] == a[0] && t[0..] == t;
    SkipsText(a, v, local);
  }

  /** Behind the `<` of a start tag: an answer when its local name matches, else on after the tag. */
  lemma TagRound(tag: Tag, c: string, v: string, local: string)
    requires tag.Valid() && tag.Plain() && c in ["", "/"]
    ensures var t := tag.QName() + (tag.attrs + c + ">" + v);
      AfterOpen(t, local) ==
        if tag.local == local then Answer(ElementText(if c == "" then 'a' else '/', v))
        else Resume(|tag.QName() + tag.attrs + c| + 1)
  {
    hide LocalName, ElementText, Trim, XmlText, Find;
    var q := tag.QName();
    var after := tag.attrs + c + ">" + v;
    var t := q + after;
    assert t[0] == q[0];
    FindAt(q, after, NAME_END) by {
      assert after[0] == if tag.attrs != [] then tag.attrs[0] else (c + ">")[0];
    }
    assert t[..|q|] == q && t[|q|..] == after;
    assert after == (tag.attrs + c) + (">" + v);
    FindAt(tag.attrs + c, ">" + v, CLOSE);
    var g := |q| + |tag.attrs| + |c|;
    assert t[g + 1..] == v;
    LocalOfTag(tag);
    assert t[g - 1] == if c != [] then c[0] else if tag.attrs != [] then tag.attrs[|tag.attrs| - 1] else q[|q| - 1];
    LastDecides(t[g - 1], if c == "" then 'a' else '/', v);
  }

  lemma AtTag(tag: Tag, c: string, v: string, local: string)
    requires tag.Valid() && tag.Plain() && c in ["", "/"]
    ensures XmlText("<" + tag.QName() + tag.attrs + c + ">" + v, local) ==
      if tag.local == local then ElementText(if c == "" then 'a' else '/', v) else XmlText(v, local)
  {
    hide LocalName, ElementText, XmlText, Find, AfterOpen, NAME_END, NOT_ELEMENT;
    var q := tag.QName();
    var t := q + (tag.attrs + c + ">" + v);
    assert "" + "<" + t == "<" + q + tag.attrs + c + ">" + v;
    TagRound(tag, c, v, local);
    UnfoldText("", t, local);
    assert t[|q + tag.attrs + c| + 1..] == v;
  }

  /** A bare `<` is passed over up to the next `>`, unless the name is that of the wanted element. */
  lemma SkipsBare(b: string, v: string, local: string)
    requires Free(b, CLOSE) && (b != [] ==> b[0] !in NOT_ELEMENT) && LocalName(b[..Find(b, NAME_END)]) != local
    ensures XmlText("<" + b + ">" + v, local) == XmlText(v, local)
  {
    hide LocalName, ElementText, XmlText, Find;
    var t, j := b + ">" + v, Find(b, NAME_END);
    assert "" + "<" + t == "<" + b + ">" + v;
    assert t[..j] == b[..j];
    FirstIs(t, j, NAME_END) by {
      assert t[|b|] == '>';
    }
    FirstIs(t[j..], |b| - j, CLOSE) by {
      assert t[j..][..|b| - j] == b[j..] && t[j..][|b| - j] == '>';
    }
    UnfoldText("", t, local);
    assert t[|b| + 1..] == v;
  }

  /** Where a start tag ends for the reader, and the name it finds there. */
  lemma TagCut(tag: Tag, c: string) returns (x: string, y: string)
    requires tag.Valid() && c in ["", "/"]
    ensures tag.attrs + c + ">" == x + ">" + y && Free(x, CLOSE) && Free(y, OPEN)
    ensures x != [] ==> x[0] in NAME_END
  {
    hide Find;
    var rest := tag.attrs + c + ">";
    var g := Find(rest, CLOSE);
    assert rest[|rest| - 1] == '>';
    x, y := rest[..g], rest[g + 1..];
    assert rest == x + ">" + y;
    assert Free(rest, OPEN);
    assert x != [] ==> x[0] == rest[0];
  }

  lemma NameBeforeCut(tag: Tag, x: string)
    requires tag.Valid() && Free(x, CLOSE) && (x != [] ==> x[0] in NAME_END)
    ensures var b := tag.QName() + x;
      Free(b, CLOSE) && b[0] !in NOT_ELEMENT && LocalName(b[..Find(b, NAME_END)]) == tag.local
  {
    hide LocalName, Find;
    var q := tag.QName();
    assert (q + x)[..|q|] == q && (q + x)[0] == q[0];
    FirstIs(q + x, |q|, NAME_END) by {
      assert x != [] ==> (q + x)[|q|] == x[0];
    }
    LocalOfTag(tag);
  }

  /** A start tag of another name is passed over, whatever its attributes hold. */
  lemma PassesTag(tag: Tag, c: string, v: string, local: string)
    requires tag.Valid() && tag.local != local && c in ["", "/"]
    ensures XmlText("<" + tag.QName() + tag.attrs + c + ">" + v, local) == XmlText(v, local)
  {
    hide LocalName, XmlText, Find;
    var q := tag.QName();
    var x, y := TagCut(tag, c);
    NameBeforeCut(tag, x);
    assert "<" + q + tag.attrs + c + ">" + v == "<" + q + (tag.attrs + c + ">") + v;
    assert "<" + q + (x + ">" + y) + v == "<" + (q + x) + ">" + (y + v);
    SkipsBare(q + x, y + v, local);
    SkipsText(y, v, local);
  }

  /**
   * The wanted element's own start tag ends, for the reader, at the first `>`: what an attribute
   * holds behind one is read as the beginning of the text.
   */
  lemma TagEndsEarly(tag: Tag, x: string, y: string, inner: Doc, v: string)
    requires tag.Valid() && WellFormed(inner)
    requires tag.attrs == x + ">" + y && Tag(tag.prefix, tag.local, x).Plain()
    ensures XmlText("<" + tag.QName() + tag.attrs + ">" + (Print(inner) + EndTag(tag) + v), tag.local)
         == Some(Trim(y + ">" + Lead(inner)))
  {
    hide XmlText, ElementText, Trim, LocalName, Print, EndTag, Lead;
    var cut := Tag(tag.prefix, tag.local, x);
    var more := Text(y + ">", inner);
    EarlyTag(tag, x, y);
    AtTag(cut, "", Print(more) + EndTag(cut) + v, tag.local);
    TextOfElement(more, cut, v);
    TextParts(y + ">", inner);
    var w := EndTag(tag) + v;
    EndTagOf(cut, tag);
    assert "<" + tag.QName() + tag.attrs + ">" + (Print(inner) + EndTag(tag) + v)
        == "<" + cut.QName() + cut.attrs + "" + ">" + (Print(more) + EndTag(cut) + v);
  }

  lemma EarlyTag(tag: Tag, x: string, y: string)
    requires tag.Valid() && tag.attrs == x + ">" + y
    ensures Tag(tag.prefix, tag.local, x).Valid() && Free(y + ">", OPEN)
  {
    assert forall i :: 0 <= i < |x| ==> tag.attrs[i] == x[i];
    assert forall i :: 0 <= i < |y| ==> tag.attrs[|x| + 1 + i] == y[i];
  }

  lemma TextParts(t: string, d: Doc)
    ensures Print(Text(t, d)) == t + Print(d) && Lead(Text(t, d)) == t + Lead(d)
    ensures WellFormed(Text(t, d)) <==> Free(t, OPEN) && WellFormed(d)
  {
  }

  lemma EndTagOf(a: Tag, b: Tag)
    requires a.QName() == b.QName()
    ensures EndTag(a) == EndTag(b)
  {
  }

  lemma LastDecides(a: char, b: char, v: string)
    requires a == '/' <==> b == '/'
    ensures ElementText(a, v) == ElementText(b, v)
  {
  }

  lemma {:induction false} LeadEndsAtTag(d: Doc, v: string)
    requires WellFormed(d) && v != [] && v[0] == '<'
    ensures Find(Print(d) + v, OPEN) == |Lead(d)| && Lead(d) <= Print(d)
  {
    hide Find;
    if d.Text? {
      LeadEndsAtTag(d.rest, v);
      var w := Print(d.rest) + v;
      var k := |Lead(d.rest)|;
      FindAt(d.text + w[..k], w[k..], OPEN);
      assert d.text + w[..k] + w[k..] == Print(d) + v;
    } else {
      assert (Print(d) + v)[0] == '<';
      FirstIs(Print(d) + v, 0, OPEN);
    }
  }

  /** The text of an element whose start tag has just been read. */
  lemma TextOfElement(inner: Doc, tag: Tag, v: string)
    requires WellFormed(inner)
    ensures ElementText('a', Print(inner) + EndTag(tag) + v) == Some(Trim(Lead(inner)))
  {
    hide Find, Trim;
    var w := EndTag(tag) + v;
    LeadEndsAtTag(inner, w);
    assert Print(inner) + EndTag(tag) + v == Print(inner) + w;
    assert (Print(inner) + w)[..|Lead(inner)|] == Lead(inner);
  }

  /** `xml_text` on a document's text, whatever follows it: document-order lookup. */
  lemma {:induction false} ReadsDocument(d: Doc, tail: string, local: string)
    requires WellFormed(d) && PlainFor(d, local)
    ensures XmlText(Print(d) + tail, local) == OrElse(Lookup(d, local), XmlText(tail, local))
    decreases d
  {
    hide XmlText, ElementText, Trim, LocalName, Print;
    match d {
      case End =>
        NothingPrinted(tail);
      case Text(t, r) =>
        ReadsDocument(r, tail, local);
        TextPrinted(t, r, tail);
        SkipsText(t, Print(r) + tail, local);
      case Aside(a, r) =>
        ReadsDocument(r, tail, local);
        AsidePrinted(a, r, tail);
        SkipsAside(a, Print(r) + tail, local);
      case Bare(b, r) =>
        ReadsDocument(r, tail, local);
        BarePrinted(b, r, tail);
        SkipsBare(b, Print(r) + tail, local);
      case Empty(tag, r) =>
        ReadsDocument(r, tail, local);
        EmptyPrinted(tag, r, tail);
        if tag.local == local {
          AtTag(tag, "/", Print(r) + tail, local);
          SelfClosed(Print(r) + tail);
        } else {
          PassesTag(tag, "/", Print(r) + tail, local);
        }
      case Element(tag, inner, r) =>
        ReadsElement(tag, inner, r, tail, local);
    }
  }

  lemma SelfClosed(v: string)
    ensures ElementText('/', v) == Some("")
  {
  }

  lemma NothingPrinted(tail: string)
    ensures Print(End) + tail == tail
  {
  }

  lemma TextPrinted(t: string, r: Doc, tail: string)
    ensures Print(Text(t, r)) + tail == t + (Print(r) + tail)
  {
  }

  lemma AsidePrinted(a: string, r: Doc, tail: string)
    ensures Print(Aside(a, r)) + tail == "<" + a + (Print(r) + tail)
  {
  }

  lemma BarePrinted(b: string, r: Doc, tail: string)
    ensures Print(Bare(b, r)) + tail == "<" + b + ">" + (Print(r) + tail)
  {
  }

  lemma EmptyPrinted(tag: Tag, r: Doc, tail: string)
    ensures Print(Empty(tag, r)) + tail == "<" + tag.QName() + tag.attrs + "/" + ">" + (Print(r) + tail)
  {
  }

  lemma ElementPrinted(tag: Tag, inner: Doc, r: Doc, tail: string)
    ensures Print(Element(tag, inner, r)) + tail ==
      "<" + tag.QName() + tag.attrs + "" + ">" + (Print(inner) + EndTag(tag) + (Print(r) + tail))
  {
  }

  lemma {:induction false} ReadsElement(tag: Tag, inner: Doc, r: Doc, tail: string, local: string)
    requires tag.Valid() && WellFormed(inner) && WellFormed(r)
    requires (tag.local == local ==> tag.Plain()) && PlainFor(inner, local) && PlainFor(r, local)
    ensures var d := Element(tag, inner, r);
      XmlText(Print(d) + tail, local) == OrElse(Lookup(d, local), XmlText(tail, local))
    decreases Element(tag, inner, r), 0
  {
    hide XmlText, ElementText, Trim, LocalName, Print, EndTag, Lead;
    var after := Print(r) + tail;
    var inside := Print(inner) + EndTag(tag) + after;
    ElementPrinted(tag, inner, r, tail);
    if tag.local == local {
      AtTag(tag, "", inside, local);
      TextOfElement(inner, tag, after);
    } else {
      PassesTag(tag, "", inside, local);
      assert inside == Print(inner) + (EndTag(tag) + after);
      ReadsDocument(inner, EndTag(tag) + after, local);
      SkipsEndTag(tag, after, local);
      ReadsDocument(r, tail, local);
    }
  }

  lemma SkipsEndTag(tag: Tag, v: string, local: string)
    requires tag.Valid()
    ensures XmlText(EndTag(tag) + v, local) == XmlText(v, local)
  {
    hide XmlText;
    var a := "/" + tag.QName() + ">";
    assert forall i :: 0 <= i < |a| ==> a[i] == if i == 0 then '/' else if i == |a| - 1 then '>' else tag.QName()[i - 1];
    SkipsAside(a, v, local);
    assert "<" + a + v == EndTag(tag) + v;
  }

  /** Comments are not recognised: the elements of one are found like any others. */
  lemma CommentIsRead(d: Doc, v: string, local: string)
    requires WellFormed(d) && PlainFor(d, local)
    ensures XmlText("<!--" + Print(d) + "-->" + v, local) == OrElse(Lookup(d, local), XmlText(v, local))
  {
    hide XmlText, Print;
    var inside := Print(d) + ("-->" + v);
    SkipsAside("!--", inside, local);
    assert "<" + "!--" + inside == "<!--" + Print(d) + "-->" + v;
    ReadsDocument(d, "-->" + v, local);
    SkipsText("-->", v, local);
  }
}
