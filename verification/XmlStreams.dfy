/** Streams of isomsg documents through the XML framer (link/xmlframe.go): successive
    ReadFrame calls return exactly the documents written, at any nesting depth. */
module XmlStreams {
  import opened Wrappers
  import opened Numerals
  import opened XmlFrames
  import opened XmlTags

  // ----- documents -----

  /** Escaped XML as the framer sees it: text, markup that is not isomsg's, and isomsg
      elements, nested or empty. */
  datatype Node = Text(s: seq<byte>) | Tag(t: Spaced) | Empty(t: Spaced)
    | Element(open: Spaced, kids: seq<Node>, close: Spaced)

  /** What may precede the root (declarations, comments and text), and the root. */
  datatype Document = Document(prolog: seq<Node>, root: Node)

  function Tagged(body: seq<byte>): seq<byte> { [LT] + body + [GT] }

  function Rendered(n: Node): seq<byte>
  {
    match n
    case Text(s) => s
    case Tag(t) => Tagged(Body(t))
    case Empty(t) => Tagged(Body(t))
    case Element(open, kids, close) => Tagged(Body(open)) + RenderedAll(kids) + Tagged(Body(close))
  }

  function RenderedAll(ns: seq<Node>): seq<byte>
  {
    if ns == [] then [] else Rendered(ns[0]) + RenderedAll(ns[1..])
  }

  function RenderedDocument(d: Document): seq<byte> { RenderedAll(d.prolog) + Rendered(d.root) }

  predicate Valid(n: Node)
  {
    match n
    case Text(s) => Escaped(s)
    case Tag(t) => Proper(t) && !Opens(t.m) && !Closes(t.m) && !Empties(t.m)
    case Empty(t) => Proper(t) && Empties(t.m)
    case Element(open, kids, close) =>
      && Proper(open) && Opens(open.m) && Proper(close) && Closes(close.m)
      && forall i :: 0 <= i < |kids| ==> Valid(kids[i])
  }

  predicate ValidDocument(d: Document)
  {
    && (forall i :: 0 <= i < |d.prolog| ==> Valid(d.prolog[i]) && (d.prolog[i].Text? || d.prolog[i].Tag?))
    && (d.prolog != [] ==> d.prolog[0].Tag?)
    && Valid(d.root) && (d.root.Element? || d.root.Empty?)
    && |RenderedDocument(d)| <= MAX_FRAME
  }

  // ----- feeding -----

  /** Feed all of s; None if a frame ends, or grows too large, on the way. */
  function FedAll(st: State, s: seq<byte>): Option<State>
    decreases |s|
  {
    if s == [] then Some(st)
    else
      var p := Fed(st, s[0]);
      if p.Going? then FedAll(p.st, s[1..]) else None
  }

  lemma {:induction false} FedConcat(st: State, a: seq<byte>, b: seq<byte>)
    requires FedAll(st, a).Some?
    ensures FedAll(st, a + b) == FedAll(FedAll(st, a).value, b)
    decreases |a|
  {
    if a == [] {
      assert a + b == b;
    } else {
      FedConcat(Fed(st, a[0]).st, a[1..], b);
      assert (a + b)[1..] == a[1..] + b;
    }
  }

  lemma {:induction false} ReadOn(st: State, a: seq<byte>, rest: seq<byte>)
    requires FedAll(st, a).Some?
    ensures ReadFrom(st, a + rest) == Later(ReadFrom(FedAll(st, a).value, rest), |a|)
    decreases |a|
  {
    if a == [] {
      assert a + rest == rest;
    } else {
      ReadOn(Fed(st, a[0]).st, a[1..], rest);
      assert (a + rest)[1..] == a[1..] + rest;
    }
  }

  /** Between tags, not to be dropped as inter-frame space. */
  predicate Between(st: State) { !st.inTag && (st.begun || st.buf != []) }

  /** s has been taken in, and nothing else about the frame has changed. */
  predicate Took(st: State, st': Option<State>, s: seq<byte>)
  {
    st'.Some? && st'.value.buf == st.buf + s && !st'.value.inTag && st'.value.depth == st.depth && st'.value.begun == st.begun
  }

  lemma {:induction false} TextFed(st: State, s: seq<byte>)
    requires Escaped(s) && Between(st) && |st.buf| + |s| <= MAX_FRAME
    ensures Took(st, FedAll(st, s), s)
    decreases |s|
  {
    if s == [] {
      assert st.buf + s == st.buf;
    } else {
      var st' := Fed(st, s[0]).st;
      TextFed(st', s[1..]);
      assert st.buf + s == (st.buf + [s[0]]) + s[1..];
    }
  }

  lemma {:induction false} BodyFed(st: State, s: seq<byte>)
    requires Escaped(s) && st.inTag && |st.buf| + |s| <= MAX_FRAME
    ensures FedAll(st, s) == Some(st.(buf := st.buf + s, tag := st.tag + s))
    decreases |s|
  {
    if s == [] {
      assert st.buf + s == st.buf && st.tag + s == st.tag;
    } else {
      var st' := Fed(st, s[0]).st;
      assert st'.inTag;
      BodyFed(st', s[1..]);
      assert st.buf + s == (st.buf + [s[0]]) + s[1..] && st.tag + s == (st.tag + [s[0]]) + s[1..];
    }
  }

  /** A tag up to its '>'. */
  lemma TagOpened(st: State, body: seq<byte>)
    requires Escaped(body) && !st.inTag && |st.buf| + |body| + 1 <= MAX_FRAME
    ensures FedAll(st, [LT] + body) == Some(st.(buf := st.buf + ([LT] + body), tag := body, inTag := true))
  {
    var st' := Fed(st, LT).st;
    assert ([LT] + body)[1..] == body;
    BodyFed(st', body);
    ConcatAssoc(st.buf, [LT], body);
    assert [] + body == body;
  }

  /** The state a tag leaves. */
  function Passed(st: State, body: seq<byte>): State
  {
    var k := Classify(body);
    State(st.buf + Tagged(body), body, false,
          st.depth + (if k.isOpen && !k.selfClose then 1 else 0) - (if k.isClose then 1 else 0), st.begun || k.isOpen)
  }

  lemma TagFed(st: State, body: seq<byte>)
    requires Escaped(body) && !st.inTag && |st.buf| + |Tagged(body)| <= MAX_FRAME
    ensures var t := Passed(st, body);
            if t.begun && t.depth == 0 then
              FedAll(st, [LT] + body).Some? && Fed(FedAll(st, [LT] + body).value, GT) == Whole(t.buf)
            else FedAll(st, Tagged(body)) == Some(t)
  {
    TagOpened(st, body);
    var st' := FedAll(st, [LT] + body).value;
    ConcatAssoc(st.buf, [LT] + body, [GT]);
    if !(Passed(st, body).begun && Passed(st, body).depth == 0) {
      FedConcat(st, [LT] + body, [GT]);
      assert FedAll(st', [GT]) == FedAll(Fed(st', GT).st, []);
    }
  }

  // ----- nodes inside a frame -----

  lemma NodeFed(st: State, n: Node)
    requires Valid(n) && !st.inTag && st.begun && st.depth >= 1 && |st.buf| + |Rendered(n)| <= MAX_FRAME
    ensures Took(st, FedAll(st, Rendered(n)), Rendered(n))
    decreases n, 3
  {
    match n
    case Text(s) => TextFed(st, s);
    case Tag(t) => Classified(t); FlatTagFed(st, Body(t));
    case Empty(t) => Classified(t); FlatTagFed(st, Body(t));
    case Element(open, kids, close) => ElementFed(st, n);
  }

  /** A tag that neither goes a level down nor up. */
  lemma FlatTagFed(st: State, body: seq<byte>)
    requires Escaped(body) && !Classify(body).isClose && (Classify(body).isOpen ==> Classify(body).selfClose)
    requires !st.inTag && st.begun && st.depth >= 1 && |st.buf| + |Tagged(body)| <= MAX_FRAME
    ensures Took(st, FedAll(st, Tagged(body)), Tagged(body))
  {
    TagFed(st, body);
  }

  lemma ElementFed(st: State, n: Node)
    requires n.Element? && Valid(n) && !st.inTag && st.begun && st.depth >= 1 && |st.buf| + |Rendered(n)| <= MAX_FRAME
    ensures Took(st, FedAll(st, Rendered(n)), Rendered(n))
    decreases n, 2
  {
    var inner := InsideFed(st, n);
    var front, close := Tagged(Body(n.open)) + RenderedAll(n.kids), Body(n.close);
    FedConcat(st, front, Tagged(close));
    Classified(n.close);
    TagFed(inner, close);
    ConcatAssoc(st.buf, front, Tagged(close));
  }

  /** An element up to its closing tag: one level deeper. */
  lemma InsideFed(st: State, n: Node) returns (inner: State)
    requires n.Element? && Valid(n) && !st.inTag && st.depth >= 0 && |st.buf| + |Rendered(n)| <= MAX_FRAME
    ensures var front := Tagged(Body(n.open)) + RenderedAll(n.kids);
            && FedAll(st, front) == Some(inner) && inner.buf == st.buf + front
            && !inner.inTag && inner.begun && inner.depth == st.depth + 1
    decreases n, 1
  {
    var open := Body(n.open);
    Classified(n.open);
    TagFed(st, open);
    var st' := Passed(st, open);
    NodesFed(st', n, n.kids);
    FedConcat(st, Tagged(open), RenderedAll(n.kids));
    ConcatAssoc(st.buf, Tagged(open), RenderedAll(n.kids));
    inner := FedAll(st', RenderedAll(n.kids)).value;
  }

  lemma {:induction false} NodesFed(st: State, parent: Node, ns: seq<Node>)
    requires parent.Element? && (forall i :: 0 <= i < |ns| ==> Valid(ns[i]) && ns[i] < parent)
    requires !st.inTag && st.begun && st.depth >= 1 && |st.buf| + |RenderedAll(ns)| <= MAX_FRAME
    ensures Took(st, FedAll(st, RenderedAll(ns)), RenderedAll(ns))
    decreases parent, 0, |ns|
  {
    if ns == [] {
      assert st.buf + [] == st.buf;
    } else {
      NodeFed(st, ns[0]);
      var st' := FedAll(st, Rendered(ns[0])).value;
      NodesFed(st', parent, ns[1..]);
      FedConcat(st, Rendered(ns[0]), RenderedAll(ns[1..]));
      ConcatAssoc(st.buf, Rendered(ns[0]), RenderedAll(ns[1..]));
    }
  }

  // ----- documents -----

  /** The root ends the frame, exactly on its last '>'. */
  lemma RootEnds(st: State, root: Node, rest: seq<byte>)
    requires Valid(root) && (root.Element? || root.Empty?)
    requires !st.inTag && !st.begun && st.depth == 0 && |st.buf| + |Rendered(root)| <= MAX_FRAME
    ensures ReadFrom(st, Rendered(root) + rest) == Frame(st.buf + Rendered(root), |Rendered(root)|)
  {
    if root.Empty? {
      Classified(root.t);
      TagFed(st, Body(root.t));
      LastByte(st, [LT] + Body(root.t), rest);
    } else {
      var front, close := Tagged(Body(root.open)) + RenderedAll(root.kids), Body(root.close);
      var inner := InsideFed(st, root);
      Classified(root.close);
      TagFed(inner, close);
      FedConcat(st, front, [LT] + close);
      ConcatAssoc(front, [LT] + close, [GT]);
      LastByte(st, front + ([LT] + close), rest);
      ConcatAssoc(st.buf, front, Tagged(close));
    }
  }

  lemma LastByte(st: State, a: seq<byte>, rest: seq<byte>)
    requires FedAll(st, a).Some? && Fed(FedAll(st, a).value, GT).Whole?
    ensures ReadFrom(st, (a + [GT]) + rest) == Frame(Fed(FedAll(st, a).value, GT).frame, |a| + 1)
  {
    ConcatAssoc(a, [GT], rest);
    ReadOn(st, a, [GT] + rest);
    assert ([GT] + rest)[0] == GT;
  }

  lemma PrologNodeFed(st: State, n: Node)
    requires Valid(n) && (n.Tag? || (n.Text? && st.buf != [])) && !st.inTag && !st.begun && st.depth == 0
    requires |st.buf| + |Rendered(n)| <= MAX_FRAME
    ensures Took(st, FedAll(st, Rendered(n)), Rendered(n))
  {
    if n.Text? {
      TextFed(st, n.s);
    } else {
      Classified(n.t);
      TagFed(st, Body(n.t));
    }
  }

  lemma {:induction false} PrologFed(st: State, ns: seq<Node>)
    requires forall i :: 0 <= i < |ns| ==> Valid(ns[i]) && (ns[i].Text? || ns[i].Tag?)
    requires ns == [] || ns[0].Tag? || st.buf != []
    requires !st.inTag && !st.begun && st.depth == 0 && |st.buf| + |RenderedAll(ns)| <= MAX_FRAME
    ensures Took(st, FedAll(st, RenderedAll(ns)), RenderedAll(ns))
    decreases |ns|
  {
    if ns == [] {
      assert st.buf + [] == st.buf;
    } else {
      PrologNodeFed(st, ns[0]);
      var st' := FedAll(st, Rendered(ns[0])).value;
      assert st'.buf != [];
      PrologFed(st', ns[1..]);
      FedConcat(st, Rendered(ns[0]), RenderedAll(ns[1..]));
      ConcatAssoc(st.buf, Rendered(ns[0]), RenderedAll(ns[1..]));
    }
  }

  lemma {:induction false} BlankFed(s: seq<byte>)
    requires Blank(s)
    ensures FedAll(START, s) == Some(START)
    decreases |s|
  {
    if s != [] {
      BlankFed(s[1..]);
    }
  }

  /** One document, whatever space precedes it and whatever follows: the frame is the
      document, and nothing past it is read. */
  lemma DocumentIsFrame(gap: seq<byte>, d: Document, rest: seq<byte>)
    requires Blank(gap) && ValidDocument(d)
    ensures ReadFrom(START, gap + (RenderedDocument(d) + rest)) == Frame(RenderedDocument(d), |gap| + |RenderedDocument(d)|)
  {
    BlankFed(gap);
    ReadOn(START, gap, RenderedDocument(d) + rest);
    var head, root := RenderedAll(d.prolog), Rendered(d.root);
    PrologFed(START, d.prolog);
    var st := FedAll(START, head).value;
    assert [] + head == head;
    ConcatAssoc(head, root, rest);
    ReadOn(START, head, root + rest);
    RootEnds(st, d.root, rest);
  }

  // ----- streams -----

  /** Documents as WriteFrame sends them: each with whatever space trails it and a newline. */
  datatype Sent = Sent(doc: Document, trail: seq<byte>)

  function Stream(gap: seq<byte>, sent: seq<Sent>): seq<byte>
    decreases |sent|
  {
    if sent == [] then gap
    else gap + (RenderedDocument(sent[0].doc) + Stream(sent[0].trail + [NEWLINE], sent[1..]))
  }

  /** Successive ReadFrame calls until the first that returns no frame. */
  function ReadAll(stream: seq<byte>): (seq<seq<byte>>, Read)
    decreases |stream|
  {
    var r := ReadFrom(START, stream);
    if !r.Frame? then ([], r)
    else
      var more := ReadAll(stream[r.used..]);
      ([r.frame] + more.0, more.1)
  }

  function Documents(sent: seq<Sent>): seq<seq<byte>>
  {
    seq(|sent|, i requires 0 <= i < |sent| => RenderedDocument(sent[i].doc))
  }

  lemma NothingLeft(gap: seq<byte>)
    requires Blank(gap)
    ensures ReadAll(gap) == ([], Eof)
  {
    BlankFed(gap);
    ReadOn(START, gap, []);
    assert gap + [] == gap;
  }

  lemma OneThenTheRest(gap: seq<byte>, d: Document, rest: seq<byte>)
    requires Blank(gap) && ValidDocument(d)
    ensures ReadAll(gap + (RenderedDocument(d) + rest)) == ([RenderedDocument(d)] + ReadAll(rest).0, ReadAll(rest).1)
  {
    var doc := RenderedDocument(d);
    DocumentIsFrame(gap, d, rest);
    PastBoth(gap, doc, rest);
    FirstFrame(gap + (doc + rest), doc, |gap| + |doc|, rest);
  }

  lemma PastBoth<T>(a: seq<T>, b: seq<T>, c: seq<T>)
    ensures (a + (b + c))[|a| + |b|..] == c
  {
  }

  lemma FirstFrame(stream: seq<byte>, frame: seq<byte>, used: nat, rest: seq<byte>)
    requires ReadFrom(START, stream) == Frame(frame, used) && stream[used..] == rest
    ensures ReadAll(stream) == ([frame] + ReadAll(rest).0, ReadAll(rest).1)
  {
  }

  lemma DocumentsStep(sent: seq<Sent>)
    requires sent != []
    ensures Documents(sent) == [RenderedDocument(sent[0].doc)] + Documents(sent[1..])
  {
  }

  /** Reading a stream of written documents returns them all, in order, and then the end. */
  lemma {:induction false} StreamIsDocuments(gap: seq<byte>, sent: seq<Sent>)
    requires Blank(gap) && forall i :: 0 <= i < |sent| ==> ValidDocument(sent[i].doc) && Blank(sent[i].trail)
    ensures ReadAll(Stream(gap, sent)) == (Documents(sent), Eof)
    decreases |sent|
  {
    if sent == [] {
      NothingLeft(gap);
      assert Documents(sent) == [];
    } else {
      var gap' := sent[0].trail + [NEWLINE];
      StreamIsDocuments(gap', sent[1..]);
      OneThenTheRest(gap, sent[0].doc, Stream(gap', sent[1..]));
      DocumentsStep(sent);
    }
  }
}
