/**
 * The body of the AMT helper's KVM settings Put (amt/src/rpc.rs): the fields of the last Get,
 * re-printed in the firmware's schema order with four of them replaced.
 */
module KvmPut {
  import opened Bytes
  import opened Strings
  import opened XmlReader

  const KVM_PUT_ORDER: seq<string> := [
    "ElementName", "InstanceID", "EnabledByMEBx", "BackToBackFbMode", "Is5900PortEnabled",
    "OptInPolicy", "OptInPolicyTimeout", "SessionTimeout", "RFBPassword", "DefaultScreen"
  ]
  const REPLACED: set<string> := {"Is5900PortEnabled", "OptInPolicy", "SessionTimeout", "RFBPassword"}
  const CLASS := "IPS_KVMRedirectionSettingData"
  const IPS := "http://intel.com/wbem/wscim/1/ips-schema/1/"

  /** What the helper sets; `sessionTimeout` is a `u16`. */
  datatype Settings = Settings(password: Option<string>, port5900: bool, optIn: bool, sessionTimeout: nat)

  function XmlEscape(s: string): (r: string)
    ensures Free(r, OPEN + CLOSE)
  {
    if s == [] then [] else EscapeChar(s[0]) + XmlEscape(s[1..])
  }

  function EscapeChar(c: char): (r: string)
    ensures r != [] && Free(r, OPEN + CLOSE)
  {
    match c
    case '&' => "&amp;"
    case '<' => "&lt;"
    case '>' => "&gt;"
    case _ => [c]
  }

  /** The entities of XML 1.0, section 4.6, that stand for `&`, `<` and `>`. */
  function Unescape(s: string): string {
    if s == [] then []
    else if "&amp;" <= s then ['&'] + Unescape(s[5..])
    else if "&lt;" <= s then ['<'] + Unescape(s[4..])
    else if "&gt;" <= s then ['>'] + Unescape(s[4..])
    else [s[0]] + Unescape(s[1..])
  }

  /** The loop of `xml_escape`. */
  method Escape(value: string) returns (out: string)
    ensures out == XmlEscape(value)
  {
    out := "";
    assert value[0..] == value;
    for i := 0 to |value|
      invariant out + XmlEscape(value[i..]) == XmlEscape(value)
    {
      hide EscapeChar;
      assert value[i..][1..] == value[i + 1..] && value[i..][0] == value[i];
      assert out + XmlEscape(value[i..]) == out + EscapeChar(value[i]) + XmlEscape(value[i + 1..]);
      out := out + EscapeChar(value[i]);
    }
  }

  predicate Meta(c: char) {
    c == '&' || c == '<' || c == '>'
  }

  lemma UnescapeChar(c: char, v: string)
    ensures Unescape(EscapeChar(c) + v) == [c] + Unescape(v)
  {
    var s := EscapeChar(c) + v;
    match c
    case '&' => assert s[5..] == v;
    case '<' => assert s[4..] == v && s[1] == 'l';
    case '>' => assert s[4..] == v && s[1] == 'g';
    case _ =>
      assert s[1..] == v && s[0] == c;
  }

  lemma {:induction false} UnescapeEscaped(p: string)
    ensures Unescape(XmlEscape(p)) == p
  {
    if p != [] {
      UnescapeChar(p[0], XmlEscape(p[1..]));
      UnescapeEscaped(p[1..]);
    }
  }

  /** Escaping changes exactly the strings that hold a metacharacter. */
  lemma {:induction false} EscapeChanges(p: string)
    ensures |XmlEscape(p)| >= |p|
    ensures XmlEscape(p) == p <==> forall i :: 0 <= i < |p| ==> !Meta(p[i])
    ensures |XmlEscape(p)| == |p| <==> forall i :: 0 <= i < |p| ==> !Meta(p[i])
  {
    if p != [] {
      EscapeChanges(p[1..]);
      assert forall i :: 0 < i < |p| ==> p[i] == p[1..][i - 1];
      assert p == [p[0]] + p[1..];
    }
  }

  /** What was read encoded must not be escaped again: that is harmless exactly without `&`, `<`, `>`. */
  lemma {:induction false} EscapesOnce(p: string)
    ensures XmlEscape(XmlEscape(p)) == XmlEscape(p) <==> forall i :: 0 <= i < |p| ==> !Meta(p[i])
  {
    EscapeChanges(p);
    EscapeChanges(XmlEscape(p));
    if k :| 0 <= k < |p| && Meta(p[k]) {
      KeepsMeta(p, k);
    }
  }

  lemma {:induction false} KeepsMeta(p: string, k: nat)
    requires k < |p| && Meta(p[k])
    ensures exists i :: 0 <= i < |XmlEscape(p)| && Meta(XmlEscape(p)[i])
  {
    var e := XmlEscape(p);
    if k == 0 {
      assert e[0] == EscapeChar(p[0])[0] == '&';
    } else {
      KeepsMeta(p[1..], k - 1);
      var i :| 0 <= i < |XmlEscape(p[1..])| && Meta(XmlEscape(p[1..])[i]);
      assert e[|EscapeChar(p[0])| + i] == XmlEscape(p[1..])[i];
    }
  }

  lemma {:induction false} EscapeOfConcat(a: string, b: string)
    ensures XmlEscape(a + b) == XmlEscape(a) + XmlEscape(b)
  {
    hide EscapeChar;
    if a == [] {
      assert a + b == b;
    } else {
      EscapeOfConcat(a[1..], b);
      assert (a + b)[1..] == a[1..] + b && (a + b)[0] == a[0];
      var x, y, z := EscapeChar(a[0]), XmlEscape(a[1..]), XmlEscape(b);
      assert x + (y + z) == (x + y) + z;
    }
  }

  /** Escaping leaves the blanks at both ends where they are. */
  lemma TrimOfEscaped(p: string)
    ensures Trim(XmlEscape(p)) == XmlEscape(Trim(p))
  {
    StartOfEscaped(p);
    EndOfEscaped(TrimStart(p));
  }

  lemma EscapedEnds(c: char)
    ensures IsWhite(c) ==> EscapeChar(c) == [c]
    ensures !IsWhite(c) ==> var e := EscapeChar(c); !IsWhite(e[0]) && !IsWhite(e[|e| - 1])
  {
  }

  lemma EscapeOfCons(p: string)
    requires p != []
    ensures XmlEscape(p) == EscapeChar(p[0]) + XmlEscape(p[1..])
  {
  }

  lemma EscapeOfSnoc(p: string)
    requires p != []
    ensures XmlEscape(p) == XmlEscape(p[..|p| - 1]) + EscapeChar(p[|p| - 1])
  {
    hide EscapeChar;
    var a, c := p[..|p| - 1], p[|p| - 1];
    assert p == a + [c];
    EscapeOfConcat(a, [c]);
    assert XmlEscape([c]) == EscapeChar(c);
  }

  lemma {:induction false} StartOfEscaped(p: string)
    ensures TrimStart(XmlEscape(p)) == XmlEscape(TrimStart(p))
  {
    hide EscapeChar, IsWhite, XmlEscape, TrimStart;
    if p == [] {
      NothingEscaped();
    } else {
      EscapedEnds(p[0]);
      EscapeOfCons(p);
      if IsWhite(p[0]) {
        StartOfEscaped(p[1..]);
        assert p == [p[0]] + p[1..];
        TrimsFirst(p[0], p[1..]);
        TrimsFirst(p[0], XmlEscape(p[1..]));
      } else {
        TrimsNothing(p);
        TrimsNothing(XmlEscape(p));
      }
    }
  }

  lemma {:induction false} EndOfEscaped(p: string)
    ensures TrimEnd(XmlEscape(p)) == XmlEscape(TrimEnd(p))
  {
    hide EscapeChar, IsWhite, XmlEscape, TrimEnd;
    if p == [] {
      NothingEscaped();
    } else {
      var a, c := p[..|p| - 1], p[|p| - 1];
      EscapedEnds(c);
      EscapeOfSnoc(p);
      if IsWhite(c) {
        EndOfEscaped(a);
        assert p == a + [c];
        TrimsLast(a, c);
        TrimsLast(XmlEscape(a), c);
      } else {
        TrimsNoEnd(p);
        TrimsNoEnd(XmlEscape(p));
      }
    }
  }

  lemma NothingEscaped()
    ensures XmlEscape("") == "" && TrimStart("") == "" && TrimEnd("") == ""
  {
  }

  lemma TrimsFirst(c: char, s: string)
    requires IsWhite(c)
    ensures TrimStart([c] + s) == TrimStart(s)
  {
    assert ([c] + s)[1..] == s;
  }

  lemma TrimsNothing(s: string)
    requires s != [] && !IsWhite(s[0])
    ensures TrimStart(s) == s
  {
  }

  lemma TrimsLast(s: string, c: char)
    requires IsWhite(c)
    ensures TrimEnd(s + [c]) == TrimEnd(s)
  {
    assert (s + [c])[..|s|] == s;
  }

  lemma TrimsNoEnd(s: string)
    requires s != [] && !IsWhite(s[|s| - 1])
    ensures TrimEnd(s) == s
  {
  }

  function BoolText(b: bool): string {
    if b then "true" else "false"
  }

  /** The XML-ready text of a field: the settings' own, or the encoded span the firmware sent. */
  function FieldText(current: string, s: Settings, name: string): (r: Option<string>)
  {
    if name == "Is5900PortEnabled" then Some(BoolText(s.port5900))
    else if name == "OptInPolicy" then Some(BoolText(s.optIn))
    else if name == "SessionTimeout" then Some(Decimal(s.sessionTimeout))
    else if name == "RFBPassword" then (if s.password.Some? then Some(XmlEscape(s.password.value)) else None)
    else XmlText(current, name)
  }

  function FieldTag(name: string): Tag {
    Tag(Some("h"), name, "")
  }

  /** The elements for the fields of `names` that have a text, in that order. */
  function FieldsOf(current: string, s: Settings, names: seq<string>): Doc {
    if names == [] then End
    else
      var rest := FieldsOf(current, s, names[1..]);
      var v := FieldText(current, s, names[0]);
      if v.Some? then Element(FieldTag(names[0]), Text(v.value, End), rest) else rest
  }

  const ROOT: Tag := Tag(Some("h"), CLASS, " xmlns:h=\"" + IPS + CLASS + "\"")

  function Body(current: string, s: Settings): string {
    Print(Element(ROOT, FieldsOf(current, s, KVM_PUT_ORDER), End))
  }

  lemma FieldPrinted(name: string, v: string, rest: Doc)
    ensures Print(Element(FieldTag(name), Text(v, End), rest)) ==
      "<h:" + name + ">" + v + "</h:" + name + ">" + Print(rest)
  {
    var tag := FieldTag(name);
    assert tag.QName() == "h:" + name;
    assert Print(Text(v, End)) == v;
  }

  lemma NextField(current: string, s: Settings, names: seq<string>, i: nat, body: string)
    requires i < |names|
    ensures var v := FieldText(current, s, names[i]);
      body + Print(FieldsOf(current, s, names[i..])) ==
        (if v.Some? then body + "<h:" + names[i] + ">" + v.value + "</h:" + names[i] + ">" else body)
        + Print(FieldsOf(current, s, names[i + 1..]))
  {
    hide FieldText, Print;
    assert names[i..][1..] == names[i + 1..];
    var v := FieldText(current, s, names[i]);
    if v.Some? {
      FieldPrinted(names[i], v.value, FieldsOf(current, s, names[i + 1..]));
    }
  }

  /** `kvm_put_body`. */
  method KvmPutBody(current: string, s: Settings) returns (body: string)
    ensures body == Body(current, s)
  {
    hide FieldText, Print, FieldsOf, StartTag, EndTag, KVM_PUT_ORDER;
    var names := KVM_PUT_ORDER;
    body := StartTag(ROOT);
    ghost var whole := body + Print(FieldsOf(current, s, names));
    assert names[0..] == names;
    for i := 0 to |names|
      invariant body + Print(FieldsOf(current, s, names[i..])) == whole
    {
      NextField(current, s, names, i, body);
      var encoded := FieldText(current, s, names[i]);
      if encoded.Some? {
        body := body + "<h:" + names[i] + ">" + encoded.value + "</h:" + names[i] + ">";
      }
    }
    NothingPrinted(current, s, names);
    body := body + EndTag(ROOT);
    RootPrinted(FieldsOf(current, s, names));
  }

  lemma NothingPrinted(current: string, s: Settings, names: seq<string>)
    ensures Print(FieldsOf(current, s, names[|names|..])) == ""
  {
  }

  lemma RootPrinted(d: Doc)
    ensures Print(Element(ROOT, d, End)) == StartTag(ROOT) + Print(d) + EndTag(ROOT)
  {
    hide StartTag, EndTag;
  }

  // ---- What the firmware, or the next Get, reads from the body ----

  predicate PlainName(n: string) {
    n != [] && Free(n, NAME_END + OPEN) && ':' !in n
  }

  lemma FirstHalfIsPlain(k: nat)
    requires k < 5
    ensures PlainName(KVM_PUT_ORDER[k]) && KVM_PUT_ORDER[k] != CLASS
  {
  }

  lemma SecondHalfIsPlain(k: nat)
    requires 5 <= k < 10
    ensures PlainName(KVM_PUT_ORDER[k]) && KVM_PUT_ORDER[k] != CLASS
  {
  }

  lemma OrderIsPlain(k: nat)
    requires k < |KVM_PUT_ORDER|
    ensures PlainName(KVM_PUT_ORDER[k]) && KVM_PUT_ORDER[k] != CLASS
  {
    if k < 5 {
      FirstHalfIsPlain(k);
    } else {
      SecondHalfIsPlain(k);
    }
  }

  lemma TagIsValid(n: string, attrs: string)
    requires PlainName(n) && Free(attrs, OPEN + CLOSE)
    requires attrs != [] ==> attrs[0] in NAME_END && attrs[|attrs| - 1] != '/'
    ensures Tag(Some("h"), n, attrs).Valid() && Tag(Some("h"), n, attrs).Plain()
  {
    var q := Tag(Some("h"), n, attrs).QName();
    assert q == "h:" + n;
    assert forall i :: 0 <= i < |q| ==> q[i] == if i == 0 then 'h' else if i == 1 then ':' else n[i - 2];
  }

  lemma {:induction false} FieldsWellFormed(current: string, s: Settings, names: seq<string>, m: string)
    requires forall n :: n in names ==> PlainName(n)
    ensures WellFormed(FieldsOf(current, s, names)) && PlainFor(FieldsOf(current, s, names), m)
  {
    hide FieldText;
    if names != [] {
      FieldsWellFormed(current, s, names[1..], m);
      var n, v := names[0], FieldText(current, s, names[0]);
      TagIsValid(n, "");
      if v.Some? {
        FieldTextIsFree(current, s, n);
        assert WellFormed(Text(v.value, End)) && PlainFor(Text(v.value, End), m);
      }
    }
  }

  lemma FieldTextIsFree(current: string, s: Settings, n: string)
    ensures var v := FieldText(current, s, n); v.Some? ==> Free(v.value, OPEN)
  {
    hide XmlText;
  }

  function Trimmed(v: Option<string>): Option<string> {
    if v.Some? then Some(Trim(v.value)) else None
  }

  lemma {:induction false} LookupField(current: string, s: Settings, names: seq<string>, m: string)
    ensures Lookup(FieldsOf(current, s, names), m) ==
      if m in names then Trimmed(FieldText(current, s, m)) else None
  {
    hide FieldText, Trim;
    if names != [] {
      LookupField(current, s, names[1..], m);
      var v := FieldText(current, s, names[0]);
      if v.Some? {
        assert Lookup(Text(v.value, End), m) == None && Lead(Text(v.value, End)) == v.value + "" == v.value;
      }
      assert m in names <==> m == names[0] || m in names[1..];
    }
  }

  lemma ClassIsPlain()
    ensures PlainName(CLASS) && Free(CLASS, OPEN + CLOSE)
  {
  }

  lemma IpsIsFree()
    ensures Free(IPS, OPEN + CLOSE)
  {
  }

  lemma RootIsValid()
    ensures ROOT.Valid() && ROOT.Plain()
  {
    ClassIsPlain();
    IpsIsFree();
    hide CLASS, IPS;
    var open := " xmlns:h=\"";
    var attrs := open + IPS + CLASS + "\"";
    assert Free(open, OPEN + CLOSE);
    assert Free(attrs, OPEN + CLOSE);
    TagIsValid(CLASS, attrs);
  }

  lemma BodyWellFormed(current: string, s: Settings, m: string)
    ensures var d := Element(ROOT, FieldsOf(current, s, KVM_PUT_ORDER), End); WellFormed(d) && PlainFor(d, m)
  {
    hide FieldsOf;
    RootIsValid();
    forall n | n in KVM_PUT_ORDER
      ensures PlainName(n)
    {
      var k :| 0 <= k < |KVM_PUT_ORDER| && KVM_PUT_ORDER[k] == n;
      OrderIsPlain(k);
    }
    FieldsWellFormed(current, s, KVM_PUT_ORDER, m);
  }

  /** Reading any element of the body. */
  lemma ReadsBody(current: string, s: Settings, m: string)
    ensures XmlText(Body(current, s), m) ==
      if m == CLASS then Some("")
      else if m in KVM_PUT_ORDER then Trimmed(FieldText(current, s, m))
      else None
  {
    hide FieldText, Trim, XmlText, Print, WellFormed, PlainFor, FieldsOf;
    var fields := FieldsOf(current, s, KVM_PUT_ORDER);
    var d := Element(ROOT, fields, End);
    BodyWellFormed(current, s, m);
    ReadsDocument(d, "", m);
    assert Print(d) + "" == Print(d);
    LookupField(current, s, KVM_PUT_ORDER, m);
    NoTagLeft("", m);
    NoLead(current, s, KVM_PUT_ORDER);
  }

  lemma NoLead(current: string, s: Settings, names: seq<string>)
    ensures Trim(Lead(FieldsOf(current, s, names))) == ""
  {
    if names != [] && FieldText(current, s, names[0]).None? {
      NoLead(current, s, names[1..]);
    }
  }

  /** A field the helper does not set reads back exactly as it read before, absent ones included. */
  lemma EchoedUnchanged(current: string, s: Settings, m: string)
    requires m in KVM_PUT_ORDER && m !in REPLACED
    ensures XmlText(Body(current, s), m) == XmlText(current, m)
  {
    hide XmlText, Trim;
    ReadsBody(current, s, m);
    NotTheClass(m);
  }

  lemma NotTheClass(m: string)
    requires m in KVM_PUT_ORDER
    ensures m != CLASS
  {
    var k :| 0 <= k < |KVM_PUT_ORDER| && KVM_PUT_ORDER[k] == m;
    OrderIsPlain(k);
  }

  /** The switches and the timeout read back as set; no other element is invented. */
  lemma SettingsReadBack(current: string, s: Settings, m: string)
    ensures XmlText(Body(current, s), "Is5900PortEnabled") == Some(if s.port5900 then "true" else "false")
    ensures XmlText(Body(current, s), "OptInPolicy") == Some(if s.optIn then "true" else "false")
    ensures var t := XmlText(Body(current, s), "SessionTimeout");
      && t.Some? && t.value != "" && (forall c <- t.value :: '0' <= c <= '9')
      && DecimalValue(t.value) == s.sessionTimeout
    ensures m !in KVM_PUT_ORDER && m != CLASS ==> XmlText(Body(current, s), m) == None
  {
    hide XmlText, Trim, Decimal, DecimalValue;
    ReadsBody(current, s, m);
    DecimalReadsBack(s.sessionTimeout);
    ReadsBody(current, s, "Is5900PortEnabled");
    ReadsBody(current, s, "OptInPolicy");
    ReadsBody(current, s, "SessionTimeout");
    assert KVM_PUT_ORDER[4] == "Is5900PortEnabled" && KVM_PUT_ORDER[5] == "OptInPolicy"
      && KVM_PUT_ORDER[7] == "SessionTimeout";
    assert Tight(BoolText(s.port5900)) && Tight(BoolText(s.optIn)) && Tight(Decimal(s.sessionTimeout));
  }

  /** The password element decodes to the password without the blanks around it: to the password itself
      exactly when it has none. */
  lemma PasswordReadsBack(current: string, s: Settings)
    ensures var r := XmlText(Body(current, s), "RFBPassword");
      if s.password.None? then r == None
      else
        && r.Some? && Unescape(r.value) == Trim(s.password.value)
        && (Unescape(r.value) == s.password.value <==> Tight(s.password.value))
  {
    hide XmlText, Trim, Unescape;
    ReadsBody(current, s, "RFBPassword");
    assert KVM_PUT_ORDER[8] == "RFBPassword";
    if s.password.Some? {
      var p := s.password.value;
      TrimOfEscaped(p);
      UnescapeEscaped(Trim(p));
    }
  }

  /** Only the last Put's settings count; in particular the same Put again changes nothing. */
  lemma LastPutWins(current: string, first: Settings, last: Settings)
    ensures Body(Body(current, first), last) == Body(current, last)
  {
    var body := Body(current, first);
    hide XmlText, FieldText;
    forall m | m in KVM_PUT_ORDER
      ensures FieldText(body, last, m) == FieldText(current, last, m)
    {
      SameText(current, first, last, m);
    }
    SameFields(body, current, last, KVM_PUT_ORDER);
  }

  lemma SameText(current: string, first: Settings, last: Settings, m: string)
    requires m in KVM_PUT_ORDER
    ensures FieldText(Body(current, first), last, m) == FieldText(current, last, m)
  {
    hide XmlText, Body;
    if m !in REPLACED {
      EchoedUnchanged(current, first, m);
    }
  }

  lemma {:induction false} SameFields(a: string, b: string, s: Settings, names: seq<string>)
    requires forall m :: m in names ==> FieldText(a, s, m) == FieldText(b, s, m)
    ensures FieldsOf(a, s, names) == FieldsOf(b, s, names)
  {
    hide FieldText;
    if names != [] {
      SameFields(a, b, s, names[1..]);
    }
  }

  /** The element names of `d`'s own level, in document order. */
  function NamesOf(d: Doc): seq<string> {
    match d
    case End => []
    case Text(_, r) => NamesOf(r)
    case Aside(_, r) => NamesOf(r)
    case Bare(_, r) => NamesOf(r)
    case Empty(tag, r) => [tag.local] + NamesOf(r)
    case Element(tag, _, r) => [tag.local] + NamesOf(r)
  }

  predicate Subsequence(a: seq<string>, b: seq<string>) {
    a == [] || (b != [] && (if a[0] == b[0] then Subsequence(a[1..], b[1..]) else Subsequence(a, b[1..])))
  }

  /** The fields come in schema order, each at most once, and exactly those that have a text. */
  lemma {:induction false} SchemaOrder(current: string, s: Settings, names: seq<string>)
    requires forall i, j :: 0 <= i < j < |names| ==> names[i] != names[j]
    ensures var out := NamesOf(FieldsOf(current, s, names));
      Subsequence(out, names) && forall n :: n in out <==> n in names && FieldText(current, s, n).Some?
  {
    hide FieldText;
    if names != [] {
      SchemaOrder(current, s, names[1..]);
      var out := NamesOf(FieldsOf(current, s, names));
      var rest := NamesOf(FieldsOf(current, s, names[1..]));
      assert names == [names[0]] + names[1..];
      if FieldText(current, s, names[0]).Some? {
        assert out == [names[0]] + rest;
        assert out[1..] == rest;
      } else {
        assert out == rest && (out != [] ==> out[0] in rest);
      }
    }
  }

  lemma OrderIsDistinct(i: nat, j: nat)
    requires i < j < |KVM_PUT_ORDER|
    ensures KVM_PUT_ORDER[i] != KVM_PUT_ORDER[j]
  {
  }

  /** The body's own elements: the firmware's order, each at most once, none without a text. */
  lemma BodyInSchemaOrder(current: string, s: Settings)
    ensures var out := NamesOf(FieldsOf(current, s, KVM_PUT_ORDER));
      && Body(current, s) == StartTag(ROOT) + Print(FieldsOf(current, s, KVM_PUT_ORDER)) + EndTag(ROOT)
      && Subsequence(out, KVM_PUT_ORDER)
      && (forall n :: n in out <==> n in KVM_PUT_ORDER && FieldText(current, s, n).Some?)
      && (forall n :: n in out && n !in REPLACED ==> XmlText(current, n).Some?)
      && (forall i, j :: 0 <= i < j < |out| ==> out[i] != out[j])
  {
    hide FieldText, XmlText, FieldsOf, NamesOf, Subsequence, Print, StartTag, EndTag;
    forall i, j | 0 <= i < j < |KVM_PUT_ORDER|
      ensures KVM_PUT_ORDER[i] != KVM_PUT_ORDER[j]
    {
      OrderIsDistinct(i, j);
    }
    var out := NamesOf(FieldsOf(current, s, KVM_PUT_ORDER));
    SchemaOrder(current, s, KVM_PUT_ORDER);
    SubsequenceDistinct(out, KVM_PUT_ORDER);
    RootPrinted(FieldsOf(current, s, KVM_PUT_ORDER));
    forall n | n in out && n !in REPLACED
      ensures XmlText(current, n).Some?
    {
      EchoedText(current, s, n);
    }
  }

  lemma EchoedText(current: string, s: Settings, n: string)
    requires n !in REPLACED
    ensures FieldText(current, s, n) == XmlText(current, n)
  {
    hide XmlText;
  }

  lemma {:induction false} SubsequenceDistinct(a: seq<string>, b: seq<string>)
    requires Subsequence(a, b) && forall i, j :: 0 <= i < j < |b| ==> b[i] != b[j]
    ensures forall n :: n in a ==> n in b
    ensures forall i, j :: 0 <= i < j < |a| ==> a[i] != a[j]
  {
    if a != [] {
      var rest := if a[0] == b[0] then a[1..] else a;
      SubsequenceDistinct(rest, b[1..]);
      assert forall n :: n in b[1..] ==> n in b;
      if a[0] == b[0] {
        assert forall i :: 0 < i < |a| ==> a[i] == rest[i - 1] && a[i] in b[1..];
        assert forall k :: 0 <= k < |b[1..]| ==> b[1..][k] == b[k + 1];
      }
    }
  }
}
