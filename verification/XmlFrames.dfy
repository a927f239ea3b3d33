/** The isomsg XML framer (link/xmlframe.go): ReadFrame's byte machine, tag classification,
    and the documents it delimits. */
module XmlFrames {
  import opened Wrappers
  import opened Numerals

  const LT: byte := 60
  const GT: byte := 62
  const SLASH: byte := 47
  const NEWLINE: byte := 10
  const ISOMSG: seq<byte> := [105, 115, 111, 109, 115, 103]
  const MAX_FRAME := 0x10_0000

  predicate IsSpace(b: byte) { b == 32 || b == 9 || b == 10 || b == 13 }

  // ----- tags -----

  datatype TagKind = TagKind(isOpen: bool, isClose: bool, selfClose: bool)

  /** Length without trailing space. */
  function TrimEnd(tag: seq<byte>, end: nat): (e: nat)
    requires end <= |tag|
    ensures e <= end
  {
    if end > 0 && IsSpace(tag[end - 1]) then TrimEnd(tag, end - 1) else end
  }

  /** First position from i on, before end, that is not space. */
  function SkipSpace(tag: seq<byte>, i: nat, end: nat): (j: nat)
    requires end <= |tag|
    ensures i <= j && (i <= end ==> j <= end)
    decreases end - i
  {
    if i < end && IsSpace(tag[i]) then SkipSpace(tag, i + 1, end) else i
  }

  function NameEnd(tag: seq<byte>, i: nat, end: nat): (j: nat)
    requires end <= |tag|
    ensures i <= j && (i <= end ==> j <= end)
    decreases end - i
  {
    if i < end && !IsSpace(tag[i]) && tag[i] != SLASH then NameEnd(tag, i + 1, end) else i
  }

  function NameAt(tag: seq<byte>, i: nat, end: nat): seq<byte>
    requires end <= |tag|
  {
    if i <= end then tag[i..NameEnd(tag, i, end)] else []
  }

  function Classify(tag: seq<byte>): TagKind
  {
    var end := TrimEnd(tag, |tag|);
    var i := SkipSpace(tag, 0, end);
    if i < end && tag[i] == SLASH then TagKind(false, NameAt(tag, i + 1, end) == ISOMSG, false)
    else TagKind(NameAt(tag, i, end) == ISOMSG, false, end > 0 && tag[end - 1] == SLASH)
  }

  method ReadName(tag: seq<byte>, start: nat, end: nat) returns (name: seq<byte>)
    requires start <= end <= |tag|
    ensures name == NameAt(tag, start, end)
  {
    var i := start;
    while i < end && !IsSpace(tag[i]) && tag[i] != SLASH
      invariant start <= i <= end && NameEnd(tag, start, end) == NameEnd(tag, i, end)
    {
      i := i + 1;
    }
    name := tag[start..i];
  }

  method ClassifyTag(tag: seq<byte>) returns (k: TagKind)
    ensures k == Classify(tag)
  {
    var end := |tag|;
    while end > 0 && IsSpace(tag[end - 1])
      invariant 0 <= end <= |tag| && TrimEnd(tag, |tag|) == TrimEnd(tag, end)
    {
      end := end - 1;
    }
    var i := 0;
    while i < end && IsSpace(tag[i])
      invariant 0 <= i <= end && SkipSpace(tag, 0, end) == SkipSpace(tag, i, end)
    {
      i := i + 1;
    }
    if i < end && tag[i] == SLASH {
      var name := ReadName(tag, i + 1, end);
      return TagKind(false, name == ISOMSG, false);
    }
    var name := ReadName(tag, i, end);
    return TagKind(name == ISOMSG, false, end > 0 && tag[end - 1] == SLASH);
  }

  // ----- the byte machine -----

  datatype State = State(buf: seq<byte>, tag: seq<byte>, inTag: bool, depth: int, begun: bool)

  const START := State([], [], false, 0, false)

  datatype Progress = Going(st: State) | Whole(frame: seq<byte>) | TooLarge

  /** One byte. */
  function Fed(st: State, b: byte): Progress
  {
    if !st.begun && !st.inTag && st.buf == [] && IsSpace(b) then Going(st)
    else
      var s := st.(buf := st.buf + [b]);
      if |s.buf| > MAX_FRAME then TooLarge
      else if b == LT then Going(s.(inTag := true, tag := []))
      else if b == GT && s.inTag then
        var k := Classify(s.tag);
        var depth := s.depth + (if k.isOpen && !k.selfClose then 1 else 0) - (if k.isClose then 1 else 0);
        var t := s.(inTag := false, begun := s.begun || k.isOpen, depth := depth);
        if t.begun && t.depth == 0 then Whole(t.buf) else Going(t)
      else if s.inTag then Going(s.(tag := s.tag + [b]))
      else Going(s)
  }

  datatype Read = Frame(frame: seq<byte>, used: nat) | Eof | UnexpectedEof | Oversized

  /** The machine run over a stream: the frame and how many bytes it used. */
  function ReadFrom(st: State, stream: seq<byte>): (r: Read)
    ensures r.Frame? ==> 0 < r.used <= |stream|
    decreases |stream|
  {
    if stream == [] then if st.buf == [] then Eof else UnexpectedEof
    else
      var p := Fed(st, stream[0]);
      match p
      case TooLarge => Oversized
      case Whole(frame) => Frame(frame, 1)
      case Going(st') =>
        var r := ReadFrom(st', stream[1..]);
        if r.Frame? then Frame(r.frame, r.used + 1) else r
  }

  /** The loop's body, on the byte just read. */
  method FeedByte(st: State, b: byte) returns (p: Progress)
    ensures p == Fed(st, b)
  {
    var buf, tag, inTag, depth, begun := st.buf, st.tag, st.inTag, st.depth, st.begun;
    if !begun && !inTag && |buf| == 0 && IsSpace(b) { return Going(st); }
    buf := buf + [b];
    if |buf| > MAX_FRAME { return TooLarge; }
    if b == LT {
      inTag, tag := true, [];
    } else if b == GT && inTag {
      inTag := false;
      begun, depth := CloseTag(tag, begun, depth);
      if begun && depth == 0 { return Whole(buf); }
    } else if inTag {
      tag := tag + [b];
    }
    return Going(State(buf, tag, inTag, depth, begun));
  }

  method ReadFrame(stream: seq<byte>) returns (r: Read)
    ensures r == ReadFrom(START, stream)
  {
    var st, pos := START, 0;
    ghost var want := ReadFrom(START, stream);
    assert stream[0..] == stream;
    while pos < |stream|
      invariant 0 <= pos <= |stream| && want == Later(ReadFrom(st, stream[pos..]), pos)
    {
      ByteRead(st, stream, pos);
      var p := FeedByte(st, stream[pos]);
      pos := pos + 1;
      match p
      case TooLarge => return Oversized;
      case Whole(frame) => return Frame(frame, pos);
      case Going(next) => st := next;
    }
    return if |st.buf| == 0 then Eof else UnexpectedEof;
  }

  lemma ByteRead(st: State, stream: seq<byte>, pos: nat)
    requires pos < |stream|
    ensures ReadFrom(st, stream[pos..]) ==
            match Fed(st, stream[pos])
            case TooLarge => Oversized
            case Whole(frame) => Frame(frame, 1)
            case Going(st') => Later(ReadFrom(st', stream[pos + 1..]), 1)
  {
    assert stream[pos..][1..] == stream[pos + 1..];
  }

  /** At the '>' of a tag. */
  method CloseTag(tag: seq<byte>, begun: bool, depth: int) returns (begun': bool, depth': int)
    ensures var k := Classify(tag);
            && begun' == (begun || k.isOpen)
            && depth' == depth + (if k.isOpen && !k.selfClose then 1 else 0) - (if k.isClose then 1 else 0)
  {
    var k := ClassifyTag(tag);
    begun', depth' := begun, depth;
    if k.isOpen {
      begun' := true;
      if !k.selfClose { depth' := depth' + 1; }
    }
    if k.isClose { depth' := depth' - 1; }
  }

  function Later(r: Read, n: nat): Read { if r.Frame? then Frame(r.frame, r.used + n) else r }

  method WriteFrame(msg: seq<byte>) returns (out: Option<seq<byte>>)
    ensures out == if |msg| > MAX_FRAME then None else Some(msg + [NEWLINE])
  {
    if |msg| > MAX_FRAME { return None; }
    return Some(msg + [NEWLINE]);
  }
}
