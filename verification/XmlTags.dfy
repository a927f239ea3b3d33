/** Tags as section 3.1 of XML 1.0 writes them, and what the framer's classifier
    (link/xmlframe.go) makes of each. */
module XmlTags {
  import opened Numerals
  import opened XmlFrames

  predicate Blank(s: seq<byte>) { forall i :: 0 <= i < |s| ==> IsSpace(s[i]) }

  /** Free of the tag delimiters, as escaped XML is. */
  predicate Escaped(s: seq<byte>) { forall i :: 0 <= i < |s| ==> s[i] != LT && s[i] != GT }

  // ----- the grammar -----

  const BANG: byte := 33
  const QUERY: byte := 63

  predicate IsQuote(b: byte) { b == 34 || b == 39 }

  /** Space, then name, '=' and quoted value. */
  datatype Attribute = Attribute(gap: seq<byte>, text: seq<byte>)

  predicate ProperAttribute(a: Attribute)
  {
    && Blank(a.gap) && a.gap != []
    && Escaped(a.text) && a.text != [] && IsQuote(a.text[|a.text| - 1])
  }

  function Attributes(attrs: seq<Attribute>): seq<byte>
  {
    if attrs == [] then [] else Attributes(attrs[..|attrs| - 1]) + (attrs[|attrs| - 1].gap + attrs[|attrs| - 1].text)
  }

  /** What stands between '<' and '>', but for space around it: a start tag, an empty-element
      tag with space before its '/', an end tag, or a declaration, comment or processing
      instruction. */
  datatype Markup = Start(name: seq<byte>, attrs: seq<Attribute>)
    | EmptyTag(name: seq<byte>, attrs: seq<Attribute>, gap: seq<byte>)
    | End(name: seq<byte>)
    | Aside(mark: byte, text: seq<byte>)

  function Core(m: Markup): seq<byte>
  {
    match m
    case Start(name, attrs) => name + Attributes(attrs)
    case EmptyTag(name, attrs, gap) => name + (Attributes(attrs) + gap + [SLASH])
    case End(name) => [SLASH] + name
    case Aside(mark, text) => [mark] + text
  }

  /** Markup with the space the framer tolerates on either side. */
  datatype Spaced = Spaced(lead: seq<byte>, m: Markup, trail: seq<byte>)

  function Body(t: Spaced): seq<byte> { t.lead + Core(t.m) + t.trail }

  predicate ProperName(name: seq<byte>)
  {
    && name != [] && Escaped(name) && name[0] != BANG && name[0] != QUERY
    && forall i :: 0 <= i < |name| ==> !IsSpace(name[i]) && name[i] != SLASH
  }

  predicate ProperMarkup(m: Markup)
  {
    match m
    case Start(name, attrs) => ProperName(name) && forall i :: 0 <= i < |attrs| ==> ProperAttribute(attrs[i])
    case EmptyTag(name, attrs, gap) =>
      ProperName(name) && Blank(gap) && forall i :: 0 <= i < |attrs| ==> ProperAttribute(attrs[i])
    case End(name) => ProperName(name)
    case Aside(mark, text) =>
      (mark == BANG || mark == QUERY) && Escaped(text) && (text != [] ==> !IsSpace(text[|text| - 1]))
  }

  predicate Proper(t: Spaced) { Blank(t.lead) && ProperMarkup(t.m) && Blank(t.trail) }

  predicate Opens(m: Markup) { m.Start? && m.name == ISOMSG }
  predicate Closes(m: Markup) { m.End? && m.name == ISOMSG }
  predicate Empties(m: Markup) { m.EmptyTag? && m.name == ISOMSG }

  // ----- the classifier's three scans -----

  lemma {:induction false} TrimmedTo(tag: seq<byte>, e: nat, end: nat)
    requires e <= end <= |tag| && Blank(tag[e..end]) && (e == 0 || !IsSpace(tag[e - 1]))
    ensures TrimEnd(tag, end) == e
    decreases end
  {
    if e < end {
      assert tag[e..end][end - 1 - e] == tag[end - 1];
      assert tag[e..end - 1] == tag[e..end][..end - 1 - e];
      TrimmedTo(tag, e, end - 1);
    }
  }

  lemma {:induction false} SkippedTo(tag: seq<byte>, i: nat, a: nat, end: nat)
    requires i <= a < end <= |tag| && (forall k :: i <= k < a ==> IsSpace(tag[k])) && !IsSpace(tag[a])
    ensures SkipSpace(tag, i, end) == a
    decreases a - i
  {
    if i < a { SkippedTo(tag, i + 1, a, end); }
  }

  lemma {:induction false} NameTo(tag: seq<byte>, i: nat, j: nat, end: nat)
    requires i <= j <= end <= |tag| && (forall k :: i <= k < j ==> !IsSpace(tag[k]) && tag[k] != SLASH)
    requires j == end || IsSpace(tag[j]) || tag[j] == SLASH
    ensures NameEnd(tag, i, end) == j
    decreases j - i
  {
    if i < j { NameTo(tag, i + 1, j, end); }
  }

  /** A proper name, up to space, '/' or the end, is the name read. */
  lemma NameRead(tag: seq<byte>, i: nat, name: seq<byte>, end: nat)
    requires i + |name| <= end <= |tag| && tag[i..i + |name|] == name && ProperName(name)
    requires i + |name| == end || IsSpace(tag[i + |name|]) || tag[i + |name|] == SLASH
    ensures NameAt(tag, i, end) == name
  {
    forall k | i <= k < i + |name| ensures !IsSpace(tag[k]) && tag[k] != SLASH {
      assert tag[i..i + |name|][k - i] == tag[k];
    }
    NameTo(tag, i, i + |name|, end);
  }

  /** A name read from a mark is never isomsg: it begins with the mark. */
  lemma MarkRead(tag: seq<byte>, i: nat, end: nat)
    requires i < end <= |tag| && (tag[i] == BANG || tag[i] == QUERY)
    ensures NameAt(tag, i, end) != ISOMSG
  {
    assert NameEnd(tag, i, end) == NameEnd(tag, i + 1, end);
    assert NameAt(tag, i, end)[0] == tag[i];
  }

  // ----- what each form's octets are -----

  lemma {:induction false} AttributesShape(attrs: seq<Attribute>)
    requires forall i :: 0 <= i < |attrs| ==> ProperAttribute(attrs[i])
    ensures var s := Attributes(attrs); Escaped(s) && (s != [] ==> IsSpace(s[0]) && IsQuote(s[|s| - 1]))
  {
    if attrs != [] {
      var last := attrs[|attrs| - 1];
      assert ProperAttribute(last);
      AttributesShape(attrs[..|attrs| - 1]);
      OneMoreAttribute(Attributes(attrs[..|attrs| - 1]), last);
    }
  }

  lemma OneMoreAttribute(s: seq<byte>, a: Attribute)
    requires Escaped(s) && (s != [] ==> IsSpace(s[0])) && ProperAttribute(a)
    ensures var all := s + (a.gap + a.text); all != [] && Escaped(all) && IsSpace(all[0]) && IsQuote(all[|all| - 1])
  {
    BlankEscaped(a.gap);
    var one := a.gap + a.text;
    assert one[0] == a.gap[0] && one[|one| - 1] == a.text[|a.text| - 1];
    EscapedCat(a.gap, a.text);
    EscapedCat(s, one);
  }

  lemma EscapedCat(a: seq<byte>, b: seq<byte>)
    requires Escaped(a) && Escaped(b)
    ensures Escaped(a + b)
  {
  }

  lemma BlankEscaped(s: seq<byte>)
    requires Blank(s)
    ensures Escaped(s)
  {
  }

  /** c begins with the name, and the name ends there. */
  ghost predicate Leads(c: seq<byte>, name: seq<byte>)
  {
    && |name| <= |c| && c[..|name|] == name && c != [] && c[0] != SLASH
    && (|name| == |c| || IsSpace(c[|name|]) || c[|name|] == SLASH)
  }

  /** What the classifier looks at in the octets of a tag: where the name starts and stops,
      and the last of them. */
  ghost predicate Shaped(c: seq<byte>, m: Markup)
  {
    && Escaped(c) && c != [] && !IsSpace(c[0]) && !IsSpace(c[|c| - 1])
    && (m.Start? || m.EmptyTag? ==> Leads(c, m.name) && (c[|c| - 1] == SLASH <==> m.EmptyTag?))
    && (m.End? ==> c[0] == SLASH && c[1..] == m.name)
    && (m.Aside? ==> c[0] == BANG || c[0] == QUERY)
  }

  lemma StartShaped(name: seq<byte>, attrs: seq<Attribute>)
    requires ProperMarkup(Start(name, attrs))
    ensures Shaped(Core(Start(name, attrs)), Start(name, attrs))
  {
    AttributesShape(attrs);
    var c, s := Core(Start(name, attrs)), Attributes(attrs);
    assert c[..|name|] == name && c[0] == name[0];
    assert if s == [] then c == name else c[|c| - 1] == s[|s| - 1] && c[|name|] == s[0];
  }

  lemma EmptyShaped(name: seq<byte>, attrs: seq<Attribute>, gap: seq<byte>)
    requires ProperMarkup(EmptyTag(name, attrs, gap))
    ensures Shaped(Core(EmptyTag(name, attrs, gap)), EmptyTag(name, attrs, gap))
  {
    AttributesShape(attrs);
    BlankEscaped(gap);
    var c, s := Core(EmptyTag(name, attrs, gap)), Attributes(attrs) + gap + [SLASH];
    assert c[..|name|] == name && c[0] == name[0] && c[|c| - 1] == SLASH;
    assert c[|name|] == s[0];
  }

  lemma CoreShaped(m: Markup)
    requires ProperMarkup(m)
    ensures Shaped(Core(m), m)
  {
    match m
    case Start(name, attrs) => StartShaped(name, attrs);
    case EmptyTag(name, attrs, gap) => EmptyShaped(name, attrs, gap);
    case End(name) => assert Core(m)[1..] == name;
    case Aside(mark, text) =>
  }

  /** The octets c of markup m within a tag, with space on either side. */
  lemma ShapedClassified(tag: seq<byte>, lead: seq<byte>, c: seq<byte>, trail: seq<byte>, m: Markup)
    requires tag == lead + c + trail && Blank(lead) && Blank(trail) && Shaped(c, m) && ProperMarkup(m)
    ensures var k := Classify(tag);
            && (k.isOpen <==> Opens(m) || Empties(m)) && (k.isClose <==> Closes(m))
            && (k.isOpen ==> (k.selfClose <==> Empties(m)))
  {
    var a, e := |lead|, |lead| + |c|;
    assert tag[a..e] == c && tag[e..] == trail && tag[a] == c[0] && tag[e - 1] == c[|c| - 1];
    TrimmedTo(tag, e, |tag|);
    SkippedTo(tag, 0, a, e);
    match m
    case End(name) =>
      assert tag[a + 1..e] == name by { assert c[1..] == name; }
      NameRead(tag, a + 1, name, e);
    case Aside(_, _) => MarkRead(tag, a, e);
    case Start(name, _) => NameInside(tag, a, e, c, name);
    case EmptyTag(name, _, _) => NameInside(tag, a, e, c, name);
  }

  lemma NameInside(tag: seq<byte>, a: nat, e: nat, c: seq<byte>, name: seq<byte>)
    requires a <= e <= |tag| && tag[a..e] == c && ProperName(name) && Leads(c, name)
    ensures NameAt(tag, a, e) == name
  {
    assert tag[a..a + |name|] == c[..|name|];
    assert |name| < |c| ==> tag[a + |name|] == c[|name|];
    NameRead(tag, a, name, e);
  }

  /** A tag opens an isomsg element exactly when it is a start or empty-element tag of that
      name, whatever attributes it has, closes one exactly when it is an end tag of that
      name, and is self-closing when it is the empty form; everything else is ignored. */
  lemma Classified(t: Spaced)
    requires Proper(t)
    ensures Escaped(Body(t))
    ensures var k := Classify(Body(t));
            && (k.isOpen <==> Opens(t.m) || Empties(t.m)) && (k.isClose <==> Closes(t.m))
            && (k.isOpen ==> (k.selfClose <==> Empties(t.m)))
  {
    CoreShaped(t.m);
    BlankEscaped(t.lead);
    BlankEscaped(t.trail);
    ShapedClassified(Body(t), t.lead, Core(t.m), t.trail, t.m);
  }
}
