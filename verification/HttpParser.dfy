/** The incremental parser of the statistics server: one byte at a time, buffer after buffer. */
module HttpParser {
  import opened Common

  const CR: byte := 13
  const LF: byte := 10
  const SP: byte := 32
  const HT: byte := 9
  const COLON: byte := 58
  const DOT: byte := 46
  const SLASH: byte := 47

  datatype Header = Header(name: Bytes, value: Bytes)

  datatype Request = Request(verb: Bytes, uri: Bytes, major: int, minor: int, headers: seq<Header>)

  datatype Verdict = Good | Bad | Indeterminate

  datatype State =
    | MethodStart
    | Method
    | Uri
    | VersionH
    | VersionT1
    | VersionT2
    | VersionP
    | VersionSlash
    | MajorStart
    | Major
    | MinorStart
    | Minor
    | ExpectingNewline1
    | LineStart
    | LineBlanks
    | Name
    | SpaceBeforeValue
    | Value
    | ExpectingNewline2
    | ExpectingNewline3

  // ---- Character classes ----

  predicate IsChar(c: byte) {
    c <= 127
  }

  predicate IsCtl(c: byte) {
    c <= 31 || c == 127
  }

  predicate IsSpecial(c: byte) {
    c in {40, 41, 60, 62, 64, 44, 59, 58, 92, 34, 47, 91, 93, 63, 61, 123, 125, 32, 9}
  }

  predicate IsDigit(c: byte) {
    48 <= c <= 57
  }

  predicate IsToken(c: byte) {
    IsChar(c) && !IsCtl(c) && !IsSpecial(c)
  }

  // ---- One byte ----

  datatype Parser = Parser(state: State, req: Request)

  /** In the middle of a header there is a header. */
  predicate Valid(p: Parser) {
    p.state in {LineBlanks, Name, SpaceBeforeValue, Value} ==> p.req.headers != []
  }

  function WithName(req: Request, s: Bytes): Request
    requires req.headers != []
  {
    var last := req.headers[|req.headers| - 1];
    req.(headers := req.headers[|req.headers| - 1 := last.(name := last.name + s)])
  }

  function WithValue(req: Request, s: Bytes): Request
    requires req.headers != []
  {
    var last := req.headers[|req.headers| - 1];
    req.(headers := req.headers[|req.headers| - 1 := last.(value := last.value + s)])
  }

  function Go(req: Request, state: State): (Parser, Verdict) {
    (Parser(state, req), Indeterminate)
  }

  function GoIf(p: Parser, c: byte, expected: byte, state: State): (Parser, Verdict) {
    if c == expected then Go(p.req, state) else (p, Bad)
  }

  function Consumed(p: Parser, c: byte): (r: (Parser, Verdict))
    requires Valid(p)
    ensures Valid(r.0)
  {
    var req := p.req;
    match p.state
    case MethodStart =>
      if IsToken(c) then Go(req.(verb := req.verb + [c]), Method) else (p, Bad)
    case Method =>
      if c == SP then Go(req, Uri)
      else if IsToken(c) then Go(req.(verb := req.verb + [c]), Method) else (p, Bad)
    case Uri =>
      if c == SP then Go(req, VersionH)
      else if IsCtl(c) then (p, Bad) else Go(req.(uri := req.uri + [c]), Uri)
    case VersionH => GoIf(p, c, 72, VersionT1)
    case VersionT1 => GoIf(p, c, 84, VersionT2)
    case VersionT2 => GoIf(p, c, 84, VersionP)
    case VersionP => GoIf(p, c, 80, VersionSlash)
    case VersionSlash =>
      if c == SLASH then Go(req.(major := 0, minor := 0), MajorStart) else (p, Bad)
    case MajorStart =>
      if IsDigit(c) then Go(req.(major := req.major * 10 + c - 48), Major) else (p, Bad)
    case Major =>
      if c == DOT then Go(req, MinorStart)
      else if IsDigit(c) then Go(req.(major := req.major * 10 + c - 48), Major) else (p, Bad)
    case MinorStart =>
      if IsDigit(c) then Go(req.(minor := req.minor * 10 + c - 48), Minor) else (p, Bad)
    case Minor =>
      if c == CR then Go(req, ExpectingNewline1)
      else if IsDigit(c) then Go(req.(minor := req.minor * 10 + c - 48), Minor) else (p, Bad)
    case ExpectingNewline1 => GoIf(p, c, LF, LineStart)
    case LineStart =>
      if c == CR then Go(req, ExpectingNewline3)
      else if req.headers != [] && (c == SP || c == HT) then Go(req, LineBlanks)
      else if IsToken(c) then Go(req.(headers := req.headers + [Header([c], [])]), Name) else (p, Bad)
    case LineBlanks =>
      if c == CR then Go(req, ExpectingNewline2)
      else if c == SP || c == HT then Go(req, LineBlanks)
      else if IsCtl(c) then (p, Bad) else Go(WithValue(req, [c]), Value)
    case Name =>
      if c == COLON then Go(req, SpaceBeforeValue)
      else if IsToken(c) then Go(WithName(req, [c]), Name) else (p, Bad)
    case SpaceBeforeValue => GoIf(p, c, SP, Value)
    case Value =>
      if c == CR then Go(req, ExpectingNewline2)
      else if IsCtl(c) then (p, Bad) else Go(WithValue(req, [c]), Value)
    case ExpectingNewline2 => GoIf(p, c, LF, LineStart)
    case ExpectingNewline3 => (p, if c == LF then Good else Bad)
  }

  // ---- A buffer, and several ----

  /** Where a parser got with some bytes, and how many of them it consumed. */
  datatype Fed = Fed(parser: Parser, verdict: Verdict, consumed: nat)

  function Feed(p: Parser, b: Bytes): (r: Fed)
    requires Valid(p)
    ensures Valid(r.parser) && r.consumed <= |b|
    decreases |b|
  {
    if b == [] then Fed(p, Indeterminate, 0) else
      var (next, verdict) := Consumed(p, b[0]);
      if verdict != Indeterminate then Fed(next, verdict, 1)
      else Ahead(1, Feed(next, b[1..]))
  }

  function Ahead(n: nat, r: Fed): Fed {
    r.(consumed := r.consumed + n)
  }

  /** Buffers are read until there is a verdict. */
  function FeedAll(p: Parser, buffers: seq<Bytes>): (r: Fed)
    requires Valid(p)
    ensures Valid(r.parser)
    decreases |buffers|
  {
    if buffers == [] then Fed(p, Indeterminate, 0) else
      var first := Feed(p, buffers[0]);
      if first.verdict != Indeterminate then first
      else Ahead(first.consumed, FeedAll(first.parser, buffers[1..]))
  }

  /** The request under construction. */
  class RequestObject {
    var verb: Bytes
    var uri: Bytes
    var major: int
    var minor: int
    var headers: seq<Header>

    /** The version numbers start with whatever value they happen to have. */
    constructor (major: int, minor: int)
      ensures Get() == Request([], [], major, minor, [])
    {
      verb, uri, headers := [], [], [];
      this.major, this.minor := major, minor;
    }

    function Get(): Request
      reads this
    {
      Request(verb, uri, major, minor, headers)
    }
  }

  class RequestParser {
    var state: State

    constructor ()
      ensures state == MethodStart
    {
      state := MethodStart;
    }

    method Reset()
      modifies this
      ensures state == MethodStart
    {
      state := MethodStart;
    }

    method Consume(req: RequestObject, c: byte) returns (verdict: Verdict)
      requires Valid(Parser(state, req.Get()))
      modifies this, req
      ensures (Parser(state, req.Get()), verdict) == Consumed(old(Parser(state, req.Get())), c)
    {
      verdict := Indeterminate;
      match state
      case MethodStart =>
        if !IsToken(c) { return Bad; }
        state := Method;
        req.verb := req.verb + [c];
      case Method =>
        if c == SP {
          state := Uri;
        } else if !IsToken(c) {
          return Bad;
        } else {
          req.verb := req.verb + [c];
        }
      case Uri =>
        if c == SP {
          state := VersionH;
        } else if IsCtl(c) {
          return Bad;
        } else {
          req.uri := req.uri + [c];
        }
      case VersionH =>
        if c != 72 { return Bad; }
        state := VersionT1;
      case VersionT1 =>
        if c != 84 { return Bad; }
        state := VersionT2;
      case VersionT2 =>
        if c != 84 { return Bad; }
        state := VersionP;
      case VersionP =>
        if c != 80 { return Bad; }
        state := VersionSlash;
      case VersionSlash =>
        if c != SLASH { return Bad; }
        req.major, req.minor := 0, 0;
        state := MajorStart;
      case MajorStart =>
        if !IsDigit(c) { return Bad; }
        req.major := req.major * 10 + c - 48;
        state := Major;
      case Major =>
        if c == DOT {
          state := MinorStart;
        } else if IsDigit(c) {
          req.major := req.major * 10 + c - 48;
        } else {
          return Bad;
        }
      case MinorStart =>
        if !IsDigit(c) { return Bad; }
        req.minor := req.minor * 10 + c - 48;
        state := Minor;
      case Minor =>
        if c == CR {
          state := ExpectingNewline1;
        } else if IsDigit(c) {
          req.minor := req.minor * 10 + c - 48;
        } else {
          return Bad;
        }
      case ExpectingNewline1 =>
        if c != LF { return Bad; }
        state := LineStart;
      case LineStart =>
        if c == CR {
          state := ExpectingNewline3;
        } else if req.headers != [] && (c == SP || c == HT) {
          state := LineBlanks;
        } else if !IsToken(c) {
          return Bad;
        } else {
          req.headers := req.headers + [Header([c], [])];
          state := Name;
        }
      case LineBlanks =>
        if c == CR {
          state := ExpectingNewline2;
        } else if c == SP || c == HT {
        } else if IsCtl(c) {
          return Bad;
        } else {
          state := Value;
          PushValue(req, c);
        }
      case Name =>
        if c == COLON {
          state := SpaceBeforeValue;
        } else if !IsToken(c) {
          return Bad;
        } else {
          var last := req.headers[|req.headers| - 1];
          req.headers := req.headers[|req.headers| - 1 := last.(name := last.name + [c])];
        }
      case SpaceBeforeValue =>
        if c != SP { return Bad; }
        state := Value;
      case Value =>
        if c == CR {
          state := ExpectingNewline2;
        } else if IsCtl(c) {
          return Bad;
        } else {
          PushValue(req, c);
        }
      case ExpectingNewline2 =>
        if c != LF { return Bad; }
        state := LineStart;
      case ExpectingNewline3 =>
        return if c == LF then Good else Bad;
    }

    method PushValue(req: RequestObject, c: byte)
      requires req.headers != []
      modifies req
      ensures req.Get() == WithValue(old(req.Get()), [c])
    {
      var last := req.headers[|req.headers| - 1];
      req.headers := req.headers[|req.headers| - 1 := last.(value := last.value + [c])];
    }

    /** Consumes bytes until there is a verdict or the buffer is used up. */
    method Parse(req: RequestObject, buffer: Bytes) returns (verdict: Verdict, begin: nat)
      requires Valid(Parser(state, req.Get()))
      modifies this, req
      ensures Fed(Parser(state, req.Get()), verdict, begin) == Feed(old(Parser(state, req.Get())), buffer)
    {
      begin := 0;
      while begin != |buffer|
        invariant begin <= |buffer| && Valid(Parser(state, req.Get()))
        invariant Ahead(begin, Feed(Parser(state, req.Get()), buffer[begin..])) ==
                  Feed(old(Parser(state, req.Get())), buffer)
        decreases |buffer| - begin
      {
        assert buffer[begin..][1..] == buffer[begin + 1..];
        verdict := Consume(req, buffer[begin]);
        begin := begin + 1;
        if verdict == Good || verdict == Bad {
          return;
        }
      }
      verdict := Indeterminate;
    }
  }

  /** One connection: every read goes to the same parser and request. */
  class Connection {
    const request: RequestObject
    const parser: RequestParser

    constructor (major: int, minor: int)
      ensures Get() == Parser(MethodStart, Request([], [], major, minor, [])) && fresh(request) && fresh(parser)
    {
      request := new RequestObject(major, minor);
      parser := new RequestParser();
    }

    function Get(): Parser
      reads parser, request
    {
      Parser(parser.state, request.Get())
    }

    /** The reads of the connection, up to the one that brings a verdict. */
    method Serve(buffers: seq<Bytes>) returns (verdict: Verdict, ghost consumed: nat)
      requires Valid(Get())
      modifies parser, request
      ensures Fed(Get(), verdict, consumed) == FeedAll(old(Get()), buffers)
    {
      verdict, consumed := Indeterminate, 0;
      var i := 0;
      while verdict == Indeterminate && i < |buffers|
        invariant i <= |buffers| && Valid(Get())
        invariant if verdict == Indeterminate
                  then Ahead(consumed, FeedAll(Get(), buffers[i..])) == FeedAll(old(Get()), buffers)
                  else Fed(Get(), verdict, consumed) == FeedAll(old(Get()), buffers)
        decreases |buffers| - i
      {
        assert buffers[i..][1..] == buffers[i + 1..];
        var begin;
        verdict, begin := parser.Parse(request, buffers[i]);
        consumed := consumed + begin;
        i := i + 1;
      }
    }
  }

  // ---- Buffering ----

  lemma {:induction false} FeedAppend(p: Parser, a: Bytes, b: Bytes)
    requires Valid(p)
    ensures var first := Feed(p, a);
            Feed(p, a + b) == if first.verdict != Indeterminate then first
                              else Ahead(first.consumed, Feed(first.parser, b))
    decreases |a|
  {
    if a == [] {
      assert a + b == b;
    } else {
      assert (a + b)[1..] == a[1..] + b;
      var (next, verdict) := Consumed(p, a[0]);
      if verdict == Indeterminate {
        FeedAppend(next, a[1..], b);
      }
    }
  }

  /** Buffering independence: however the bytes are divided into reads, the verdict, the
      request and the number of bytes consumed are those of one read of everything. */
  lemma {:induction false} BufferingIndependence(p: Parser, buffers: seq<Bytes>)
    requires Valid(p)
    ensures FeedAll(p, buffers) == Feed(p, Concat(buffers))
    decreases |buffers|
  {
    if buffers != [] {
      FeedAppend(p, buffers[0], Concat(buffers[1..]));
      BufferingIndependence(Feed(p, buffers[0]).parser, buffers[1..]);
    }
  }

  /** No proper prefix of what led to a verdict has a verdict, and nothing after it matters. */
  lemma VerdictAtLastByte(p: Parser, b: Bytes, k: nat)
    requires Valid(p) && Feed(p, b).verdict != Indeterminate && k <= |b|
    ensures Feed(p, b[..k]).verdict != Indeterminate <==> Feed(p, b).consumed <= k
    ensures Feed(p, b).consumed <= k ==> Feed(p, b[..k]) == Feed(p, b)
  {
    FeedAppend(p, b[..k], b[k..]);
    assert b[..k] + b[k..] == b;
    ConsumedAll(p, b[..k]);
    if Feed(p, b[..k]).verdict == Indeterminate {
      ConsumedSome(Feed(p, b[..k]).parser, b[k..]);
    }
  }

  lemma {:induction false} ConsumedAll(p: Parser, b: Bytes)
    requires Valid(p)
    ensures Feed(p, b).verdict == Indeterminate ==> Feed(p, b).consumed == |b|
    decreases |b|
  {
    if b != [] {
      var (next, verdict) := Consumed(p, b[0]);
      if verdict == Indeterminate {
        ConsumedAll(next, b[1..]);
      }
    }
  }

  lemma ConsumedSome(p: Parser, b: Bytes)
    requires Valid(p) && Feed(p, b).verdict != Indeterminate
    ensures Feed(p, b).consumed > 0
  {
  }
}
