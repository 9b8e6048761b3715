/**
 The request grammar, as text that can be printed and as the request it denotes, and the
 proof that the parser accepts exactly this grammar.
 */
module HttpGrammar {
  import opened Common
  import opened HttpParser

  // ---- The grammar ----

  /** A header line, or a line that continues the value of the header before it. */
  datatype Line =
    | Field(name: Bytes, value: Bytes)
    | Fold(blanks: Bytes, text: Bytes)

  datatype Message = Message(verb: Bytes, uri: Bytes, major: Bytes, minor: Bytes, lines: seq<Line>)

  datatype Class = Token | UriByte | Digit | ValueByte | Blank

  predicate In(class_: Class, c: byte) {
    match class_
    case Token => IsToken(c)
    case UriByte => c != SP && !IsCtl(c)
    case Digit => IsDigit(c)
    case ValueByte => !IsCtl(c)
    case Blank => c == SP || c == HT
  }

  predicate AllIn(class_: Class, b: Bytes) {
    forall i :: 0 <= i < |b| ==> In(class_, b[i])
  }

  predicate Some1(class_: Class, b: Bytes) {
    b != [] && AllIn(class_, b)
  }

  predicate WellformedLine(line: Line) {
    match line
    case Field(name, value) => Some1(Token, name) && AllIn(ValueByte, value)
    case Fold(blanks, text) => Some1(Blank, blanks) && AllIn(ValueByte, text) && (text != [] ==> text[0] != SP)
  }

  /** Only a header can be continued. */
  predicate WellformedLines(lines: seq<Line>, afterHeader: bool) {
    lines != [] ==>
      && WellformedLine(lines[0])
      && (lines[0].Fold? ==> afterHeader)
      && WellformedLines(lines[1..], true)
  }

  predicate Wellformed(m: Message) {
    && Some1(Token, m.verb)
    && AllIn(UriByte, m.uri)
    && Some1(Digit, m.major)
    && Some1(Digit, m.minor)
    && WellformedLines(m.lines, false)
  }

  const CRLF: Bytes := [CR, LF]
  const HTTP: Bytes := [72, 84, 84, 80, SLASH]

  function PrintLine(line: Line): Bytes {
    match line
    case Field(name, value) => name + ([COLON, SP] + (value + CRLF))
    case Fold(blanks, text) => blanks + (text + CRLF)
  }

  /** The lines and the blank line that ends them. */
  function PrintLines(lines: seq<Line>): Bytes {
    if lines == [] then CRLF else PrintLine(lines[0]) + PrintLines(lines[1..])
  }

  function Print(m: Message): Bytes {
    m.verb + ([SP] + (m.uri + ([SP] + (HTTP + (m.major + ([DOT] + (m.minor + (CRLF + PrintLines(m.lines)))))))))
  }

  /** Decimal digits read on from `n`. */
  function Number(n: int, digits: Bytes): int
    decreases |digits|
  {
    if digits == [] then n else Number(n * 10 + digits[0] - 48, digits[1..])
  }

  function AddLine(headers: seq<Header>, line: Line): seq<Header> {
    match line
    case Field(name, value) => headers + [Header(name, value)]
    case Fold(_, text) =>
      if headers == [] then headers else
        var last := headers[|headers| - 1];
        headers[|headers| - 1 := last.(value := last.value + text)]
  }

  function AddLines(headers: seq<Header>, lines: seq<Line>): seq<Header>
    decreases |lines|
  {
    if lines == [] then headers else AddLines(AddLine(headers, lines[0]), lines[1..])
  }

  /** The request a message denotes. */
  function Denote(m: Message): Request {
    Request(m.verb, m.uri, Number(0, m.major), Number(0, m.minor), AddLines([], m.lines))
  }

  // ---- Stretches of one class ----

  function Span(class_: Class, b: Bytes): (k: nat)
    ensures k <= |b|
    decreases |b|
  {
    if b == [] || !In(class_, b[0]) then 0 else 1 + Span(class_, b[1..])
  }

  lemma {:induction false} SpanSplits(class_: Class, b: Bytes)
    ensures var k := Span(class_, b);
            AllIn(class_, b[..k]) && (k < |b| ==> !In(class_, b[k]))
    decreases |b|
  {
    if b != [] && In(class_, b[0]) {
      SpanSplits(class_, b[1..]);
      var k := Span(class_, b[1..]);
      assert b[..k + 1] == [b[0]] + b[1..][..k];
    }
  }

  lemma {:induction false} SpanOf(class_: Class, s: Bytes, rest: Bytes)
    requires AllIn(class_, s) && (rest != [] ==> !In(class_, rest[0]))
    ensures Span(class_, s + rest) == |s|
    decreases |s|
  {
    if s == [] {
      assert s + rest == rest;
    } else {
      assert (s + rest)[1..] == s[1..] + rest;
      assert forall i :: 0 <= i < |s| - 1 ==> s[1..][i] == s[i + 1];
      SpanOf(class_, s[1..], rest);
    }
  }

  /** The states that stay put while bytes of one class come in. */
  function LoopClass(state: State): Option<Class> {
    match state
    case Method => Some(Token)
    case Uri => Some(UriByte)
    case Major => Some(Digit)
    case Minor => Some(Digit)
    case LineBlanks => Some(Blank)
    case Name => Some(Token)
    case Value => Some(ValueByte)
    case _ => None
  }

  /** What such a state does with a stretch of its class. */
  function Extended(p: Parser, s: Bytes): Request
    requires Valid(p)
  {
    var req := p.req;
    match p.state
    case Method => req.(verb := req.verb + s)
    case Uri => req.(uri := req.uri + s)
    case Major => req.(major := Number(req.major, s))
    case Minor => req.(minor := Number(req.minor, s))
    case Name => WithName(req, s)
    case Value => WithValue(req, s)
    case _ => req
  }

  lemma ExtendedByOne(p: Parser, c: byte)
    requires Valid(p) && LoopClass(p.state).Some? && In(LoopClass(p.state).value, c)
    ensures Consumed(p, c) == (Parser(p.state, Extended(p, [c])), Indeterminate)
  {
    NumberMore(p.req.major, c, []);
    NumberMore(p.req.minor, c, []);
    assert [c] + [] == [c];
  }

  lemma NumberMore(n: int, c: byte, s: Bytes)
    ensures Number(n, [c] + s) == Number(n * 10 + c - 48, s)
    ensures Number(n, []) == n
  {
    assert ([c] + s)[0] == c && ([c] + s)[1..] == s;
  }

  lemma ExtendedByNone(p: Parser)
    requires Valid(p)
    ensures Extended(p, []) == p.req
  {
    assert p.req.verb + [] == p.req.verb && p.req.uri + [] == p.req.uri;
    if p.req.headers != [] {
      var last := p.req.headers[|p.req.headers| - 1];
      assert last.name + [] == last.name && last.value + [] == last.value;
      assert p.req.headers[|p.req.headers| - 1 := last] == p.req.headers;
    }
  }

  lemma ExtendedMore(p: Parser, c: byte, s: Bytes)
    requires Valid(p) && LoopClass(p.state).Some?
    ensures var p' := Parser(p.state, Extended(p, [c]));
            Valid(p') && Extended(p', s) == Extended(p, [c] + s)
  {
    hide Number;
    var all := [c] + s;
    NumberMore(p.req.major, c, s);
    NumberMore(p.req.minor, c, s);
    NumberMore(p.req.major, c, []);
    NumberMore(p.req.minor, c, []);
    NumberMore(p.req.major * 10 + c - 48, c, s);
    NumberMore(p.req.minor * 10 + c - 48, c, s);
    assert [c] + [] == [c];
    AppendAssociates(p.req.verb, [c], s);
    AppendAssociates(p.req.uri, [c], s);
    if p.req.headers != [] {
      var i := |p.req.headers| - 1;
      var last := p.req.headers[i];
      AppendAssociates(last.name, [c], s);
      AppendAssociates(last.value, [c], s);
      assert p.req.headers[i := last.(name := last.name + [c])][i := last.(name := last.name + all)] ==
             p.req.headers[i := last.(name := last.name + all)];
      assert p.req.headers[i := last.(value := last.value + [c])][i := last.(value := last.value + all)] ==
             p.req.headers[i := last.(value := last.value + all)];
    }
  }

  /** In such a state the parser takes the whole stretch of its class. */
  lemma {:induction false} Loop(p: Parser, b: Bytes)
    requires Valid(p) && LoopClass(p.state).Some?
    ensures var k := Span(LoopClass(p.state).value, b);
            var p' := Parser(p.state, Extended(p, b[..k]));
            Valid(p') && Feed(p, b) == Ahead(k, Feed(p', b[k..]))
    decreases |b|
  {
    var class_ := LoopClass(p.state).value;
    var k := Span(class_, b);
    if k == 0 {
      ExtendedByNone(p);
      assert b[..0] == [] && b[0..] == b;
    } else {
      var next := Parser(p.state, Extended(p, [b[0]]));
      ExtendedByOne(p, b[0]);
      ExtendedMore(p, b[0], b[1..][..k - 1]);
      Loop(next, b[1..]);
      assert b[..k] == [b[0]] + b[1..][..k - 1];
      assert b[1..][k - 1..] == b[k..];
    }
  }

  /** One byte that leads on. */
  lemma OneByte(p: Parser, c: byte, rest: Bytes)
    requires Valid(p) && Consumed(p, c).1 == Indeterminate
    ensures Feed(p, [c] + rest) == Ahead(1, Feed(Consumed(p, c).0, rest))
  {
    assert ([c] + rest)[1..] == rest;
  }

  /** A stretch of the state's class and the byte that ends it. */
  lemma Through(p: Parser, s: Bytes, c: byte, rest: Bytes)
    requires Valid(p) && LoopClass(p.state).Some? && AllIn(LoopClass(p.state).value, s)
    requires !In(LoopClass(p.state).value, c)
    requires var q := Parser(p.state, Extended(p, s)); Valid(q) && Consumed(q, c).1 == Indeterminate
    ensures Feed(p, s + ([c] + rest)) ==
            Ahead(|s| + 1, Feed(Consumed(Parser(p.state, Extended(p, s)), c).0, rest))
  {
    hide Consumed, Extended;
    var b := s + ([c] + rest);
    SpanOf(LoopClass(p.state).value, s, [c] + rest);
    Loop(p, b);
    assert b[..|s|] == s && b[|s|..] == [c] + rest;
    OneByte(Parser(p.state, Extended(p, s)), c, rest);
  }

  // The start states behave like the states they lead to.

  lemma StartsLike(p: Parser, q: Parser, b: Bytes)
    requires Valid(p) && Valid(q) && b != []
    requires Consumed(p, b[0]) == Consumed(q, b[0]) && Consumed(p, b[0]).1 == Indeterminate
    ensures Feed(p, b) == Feed(q, b)
  {
  }

  lemma VerbStarts(req: Request, b: Bytes)
    requires b != [] && IsToken(b[0])
    ensures Feed(Parser(MethodStart, req), b) == Feed(Parser(Method, req), b)
  {
    hide Feed;
    StartsLike(Parser(MethodStart, req), Parser(Method, req), b);
  }

  lemma MajorStarts(req: Request, b: Bytes)
    requires b != [] && IsDigit(b[0])
    ensures Feed(Parser(MajorStart, req), b) == Feed(Parser(Major, req), b)
  {
    hide Feed;
    StartsLike(Parser(MajorStart, req), Parser(Major, req), b);
  }

  lemma MinorStarts(req: Request, b: Bytes)
    requires b != [] && IsDigit(b[0])
    ensures Feed(Parser(MinorStart, req), b) == Feed(Parser(Minor, req), b)
  {
    hide Feed;
    StartsLike(Parser(MinorStart, req), Parser(Minor, req), b);
  }

  function WithHeader(req: Request, name: Bytes, value: Bytes): Request {
    req.(headers := req.headers + [Header(name, value)])
  }

  lemma NameStarts(req: Request, b: Bytes)
    requires b != [] && IsToken(b[0])
    ensures Feed(Parser(LineStart, req), b) == Feed(Parser(Name, WithHeader(req, [], [])), b)
  {
    hide Feed;
    var p, q := Parser(LineStart, req), Parser(Name, WithHeader(req, [], []));
    assert [] + [b[0]] == [b[0]];
    assert WithName(q.req, [b[0]]).headers == req.headers + [Header([b[0]], [])];
    StartsLike(p, q, b);
  }

  lemma FoldStarts(req: Request, b: Bytes)
    requires b != [] && In(Blank, b[0]) && req.headers != []
    ensures Feed(Parser(LineStart, req), b) == Feed(Parser(LineBlanks, req), b)
  {
    hide Feed;
    StartsLike(Parser(LineStart, req), Parser(LineBlanks, req), b);
  }

  lemma TextStarts(req: Request, b: Bytes)
    requires b != [] && !In(Blank, b[0]) && (b[0] == CR || !IsCtl(b[0])) && req.headers != []
    ensures Feed(Parser(LineBlanks, req), b) == Feed(Parser(Value, req), b)
  {
    hide Feed;
    StartsLike(Parser(LineBlanks, req), Parser(Value, req), b);
  }

  // ---- Every message of the grammar is accepted ----

  lemma LineEnd(rest: Bytes)
    ensures CRLF + rest == [CR] + ([LF] + rest)
  {
  }

  function AfterEnd(state: State): State {
    if state == Value then ExpectingNewline2 else if state == Major then MinorStart else ExpectingNewline1
  }

  /** Where the classes of bytes that run up to a line end or a dot stop. */
  lemma Ends(p: Parser, s: Bytes)
    requires Valid(p) && p.state in {Value, Major, Minor}
    ensures var q := Parser(p.state, Extended(p, s));
            && Valid(q)
            && Consumed(q, if p.state == Major then DOT else CR) ==
               Go(q.req, AfterEnd(p.state))
  {
    hide Number;
  }

  lemma LineEnds(req: Request, state: State, rest: Bytes)
    requires state in {ExpectingNewline1, ExpectingNewline2}
    ensures Feed(Parser(state, req), [LF] + rest) == Ahead(1, Feed(Parser(LineStart, req), rest))
  {
    hide Feed;
    OneByte(Parser(state, req), LF, rest);
  }

  /** The value of the last header, up to the end of its line. */
  lemma ValueAccepted(req: Request, value: Bytes, rest: Bytes)
    requires req.headers != [] && AllIn(ValueByte, value)
    ensures Feed(Parser(Value, req), value + (CRLF + rest)) ==
            Ahead(|value| + 2, Feed(Parser(LineStart, WithValue(req, value)), rest))
  {
    Ends(Parser(Value, req), value);
    assert Extended(Parser(Value, req), value) == WithValue(req, value);
    hide Feed, Consumed, Extended, WithValue;
    LineEnd(rest);
    Through(Parser(Value, req), value, CR, [LF] + rest);
    LineEnds(WithValue(req, value), ExpectingNewline2, rest);
  }

  lemma FieldAccepted(req: Request, name: Bytes, value: Bytes, rest: Bytes)
    requires Some1(Token, name) && AllIn(ValueByte, value)
    ensures Feed(Parser(LineStart, req), name + ([COLON] + ([SP] + (value + (CRLF + rest))))) ==
            Ahead(|name| + |value| + 4, Feed(Parser(LineStart, WithHeader(req, name, value)), rest))
  {
    hide Feed;
    var tail := value + (CRLF + rest);
    var b := name + ([COLON] + ([SP] + tail));
    var req0, req1 := WithHeader(req, [], []), WithHeader(req, name, []);
    assert b[0] == name[0];
    NameStarts(req, b);
    NamedHeader(req, name);
    Through(Parser(Name, req0), name, COLON, [SP] + tail);
    OneByte(Parser(SpaceBeforeValue, req1), SP, tail);
    ValueAccepted(req1, value, rest);
    ValuedHeader(req, name, value);
  }

  lemma FoldAccepted(req: Request, blanks: Bytes, text: Bytes, rest: Bytes)
    requires Some1(Blank, blanks) && AllIn(ValueByte, text) && (text != [] ==> text[0] != SP) && req.headers != []
    ensures Feed(Parser(LineStart, req), blanks + (text + (CRLF + rest))) ==
            Ahead(|blanks| + |text| + 2, Feed(Parser(LineStart, WithValue(req, text)), rest))
  {
    hide Feed;
    var tail := text + (CRLF + rest);
    var b := blanks + tail;
    assert b[0] == blanks[0];
    FoldStarts(req, b);
    assert tail[0] == if text == [] then CR else text[0];
    assert text != [] ==> In(ValueByte, text[0]);
    SpanOf(Blank, blanks, tail);
    Loop(Parser(LineBlanks, req), b);
    assert b[|blanks|..] == tail;
    TextStarts(req, tail);
    ValueAccepted(req, text, rest);
  }

  lemma LineAccepted(req: Request, line: Line, rest: Bytes)
    requires WellformedLine(line) && (line.Fold? ==> req.headers != [])
    ensures Feed(Parser(LineStart, req), PrintLine(line) + rest) ==
            Ahead(|PrintLine(line)|, Feed(Parser(LineStart, req.(headers := AddLine(req.headers, line))), rest))
  {
    hide Feed;
    match line
    case Field(name, value) =>
      FieldAccepted(req, name, value, rest);
      assert PrintLine(line) + rest == name + ([COLON] + ([SP] + (value + (CRLF + rest))));
    case Fold(blanks, text) =>
      FoldAccepted(req, blanks, text, rest);
      assert PrintLine(line) + rest == blanks + (text + (CRLF + rest));
  }

  lemma {:induction false} LinesAccepted(req: Request, lines: seq<Line>, rest: Bytes)
    requires WellformedLines(lines, req.headers != [])
    ensures Feed(Parser(LineStart, req), PrintLines(lines) + rest) ==
            Fed(Parser(ExpectingNewline3, req.(headers := AddLines(req.headers, lines))), Good, |PrintLines(lines)|)
    decreases |lines|
  {
    if lines == [] {
      assert CRLF + rest == [CR] + ([LF] + rest);
      OneByte(Parser(LineStart, req), CR, [LF] + rest);
      assert ([LF] + rest)[0] == LF;
    } else {
      var req' := req.(headers := AddLine(req.headers, lines[0]));
      var tail := PrintLines(lines[1..]) + rest;
      AppendAssociates(PrintLine(lines[0]), PrintLines(lines[1..]), rest);
      LineAccepted(req, lines[0], tail);
      LinesAccepted(req', lines[1..], rest);
    }
  }

  lemma VersionAccepted(req: Request, rest: Bytes)
    ensures Feed(Parser(VersionH, req), HTTP + rest) ==
            Ahead(5, Feed(Parser(MajorStart, req.(major := 0, minor := 0)), rest))
  {
    hide Feed;
    assert HTTP + rest == [72] + ([84] + ([84] + ([80] + ([SLASH] + rest))));
    OneByte(Parser(VersionH, req), 72, [84] + ([84] + ([80] + ([SLASH] + rest))));
    OneByte(Parser(VersionT1, req), 84, [84] + ([80] + ([SLASH] + rest)));
    OneByte(Parser(VersionT2, req), 84, [80] + ([SLASH] + rest));
    OneByte(Parser(VersionP, req), 80, [SLASH] + rest);
    OneByte(Parser(VersionSlash, req), SLASH, rest);
  }

  lemma FirstDigit(digits: Bytes, rest: Bytes)
    requires Some1(Digit, digits)
    ensures digits + rest != [] && IsDigit((digits + rest)[0])
  {
    assert (digits + rest)[0] == digits[0];
  }

  /** Digits and the byte that ends them. */
  lemma DigitsThrough(p: Parser, digits: Bytes, c: byte, next: Parser, rest: Bytes)
    requires Valid(p) && p.state in {Major, Minor} && Some1(Digit, digits) && !IsDigit(c)
    requires var q := Parser(p.state, Extended(p, digits)); Valid(q) && Consumed(q, c) == (next, Indeterminate)
    ensures Feed(p, digits + ([c] + rest)) == Ahead(|digits| + 1, Feed(next, rest))
  {
    hide Feed, Consumed, Extended;
    Through(p, digits, c, rest);
  }

  lemma MajorEnds(req: Request, major: Bytes)
    ensures var q := Parser(Major, Extended(Parser(Major, req), major));
            && Valid(q)
            && Consumed(q, DOT) == (Parser(MinorStart, req.(major := Number(req.major, major))), Indeterminate)
  {
    Ends(Parser(Major, req), major);
    hide Number;
  }

  lemma MinorEnds(req: Request, minor: Bytes)
    ensures var q := Parser(Minor, Extended(Parser(Minor, req), minor));
            && Valid(q)
            && Consumed(q, CR) == (Parser(ExpectingNewline1, req.(minor := Number(req.minor, minor))), Indeterminate)
  {
    Ends(Parser(Minor, req), minor);
    hide Number;
  }

  lemma MajorAccepted(req: Request, major: Bytes, rest: Bytes)
    requires Some1(Digit, major)
    ensures Feed(Parser(MajorStart, req), major + ([DOT] + rest)) ==
            Ahead(|major| + 1, Feed(Parser(MinorStart, req.(major := Number(req.major, major))), rest))
  {
    assert Valid(Parser(Major, req));
    hide *;
    NoDigits();
    FirstDigit(major, [DOT] + rest);
    MajorStarts(req, major + ([DOT] + rest));
    MajorEnds(req, major);
    DigitsThrough(Parser(Major, req), major, DOT, Parser(MinorStart, req.(major := Number(req.major, major))), rest);
  }

  lemma NoDigits()
    ensures !IsDigit(DOT) && !IsDigit(CR)
  {
  }

  lemma MinorAccepted(req: Request, minor: Bytes, rest: Bytes)
    requires Some1(Digit, minor)
    ensures Feed(Parser(MinorStart, req), minor + (CRLF + rest)) ==
            Ahead(|minor| + 2, Feed(Parser(LineStart, req.(minor := Number(req.minor, minor))), rest))
  {
    assert Valid(Parser(Minor, req));
    hide *;
    NoDigits();
    LineEnd(rest);
    FirstDigit(minor, CRLF + rest);
    MinorStarts(req, minor + (CRLF + rest));
    MinorEnds(req, minor);
    var req' := req.(minor := Number(req.minor, minor));
    DigitsThrough(Parser(Minor, req), minor, CR, Parser(ExpectingNewline1, req'), [LF] + rest);
    LineEnds(req', ExpectingNewline1, rest);
  }

  /** From the digits of the version to the end of the request line. */
  lemma NumbersAccepted(req: Request, major: Bytes, minor: Bytes, rest: Bytes)
    requires Some1(Digit, major) && Some1(Digit, minor)
    ensures Feed(Parser(MajorStart, req), major + ([DOT] + (minor + (CRLF + rest)))) ==
            Ahead(|major| + |minor| + 3,
                  Feed(Parser(LineStart, req.(major := Number(req.major, major), minor := Number(req.minor, minor))),
                       rest))
  {
    hide Feed, Number;
    MajorAccepted(req, major, minor + (CRLF + rest));
    MinorAccepted(req.(major := Number(req.major, major)), minor, rest);
  }

  function Fresh(major: int, minor: int): Parser {
    Parser(MethodStart, Request([], [], major, minor, []))
  }

  /** What follows the verb and the target. */
  lemma AfterTarget(req: Request, m: Message, rest: Bytes)
    requires Wellformed(m) && req.headers == []
    ensures var tail := HTTP + (m.major + ([DOT] + (m.minor + (CRLF + PrintLines(m.lines)))));
            var req' := Request(req.verb, req.uri, Number(0, m.major), Number(0, m.minor), AddLines([], m.lines));
            Feed(Parser(VersionH, req), tail + rest) == Fed(Parser(ExpectingNewline3, req'), Good, |tail|)
  {
    hide Feed, Number, AddLines, PrintLines;
    var lines := PrintLines(m.lines) + rest;
    VersionTail(m.major, m.minor, PrintLines(m.lines), rest);
    VersionAccepted(req, m.major + ([DOT] + (m.minor + (CRLF + lines))));
    NumbersAccepted(req.(major := 0, minor := 0), m.major, m.minor, lines);
    LinesAccepted(req.(major := Number(0, m.major), minor := Number(0, m.minor)), m.lines, rest);
  }

  lemma VersionTail(major: Bytes, minor: Bytes, lines: Bytes, rest: Bytes)
    ensures (HTTP + (major + ([DOT] + (minor + (CRLF + lines))))) + rest ==
            HTTP + (major + ([DOT] + (minor + (CRLF + (lines + rest)))))
  {
    AppendAssociates(CRLF, lines, rest);
    AppendAssociates(minor, CRLF + lines, rest);
    AppendAssociates([DOT], minor + (CRLF + lines), rest);
    AppendAssociates(major, [DOT] + (minor + (CRLF + lines)), rest);
    AppendAssociates(HTTP, major + ([DOT] + (minor + (CRLF + lines))), rest);
  }

  /** Completeness: a fresh parser, whatever its version numbers start as and whatever
      follows, answers `good` at the last byte of every message of the grammar, with the
      request it denotes. */
  lemma MessageAccepted(m: Message, major: int, minor: int, rest: Bytes)
    requires Wellformed(m)
    ensures Feed(Fresh(major, minor), Print(m) + rest) ==
            Fed(Parser(ExpectingNewline3, Denote(m)), Good, |Print(m)|)
  {
    hide Feed, Number, AddLines, PrintLines;
    var tail := HTTP + (m.major + ([DOT] + (m.minor + (CRLF + PrintLines(m.lines)))));
    var b := m.verb + ([SP] + (m.uri + ([SP] + (tail + rest))));
    TargetTail(m.verb, m.uri, tail, rest);
    var req := Request([], [], major, minor, []);
    assert b[0] == m.verb[0];
    VerbStarts(req, b);
    assert [] + m.verb == m.verb && [] + m.uri == m.uri;
    Through(Parser(Method, req), m.verb, SP, m.uri + ([SP] + (tail + rest)));
    var req1 := req.(verb := m.verb);
    Through(Parser(Uri, req1), m.uri, SP, tail + rest);
    AfterTarget(req1.(uri := m.uri), m, rest);
  }

  lemma TargetTail(verb: Bytes, uri: Bytes, tail: Bytes, rest: Bytes)
    ensures (verb + ([SP] + (uri + ([SP] + tail)))) + rest == verb + ([SP] + (uri + ([SP] + (tail + rest))))
  {
    AppendAssociates([SP], tail, rest);
    AppendAssociates(uri, [SP] + tail, rest);
    AppendAssociates([SP], uri + ([SP] + tail), rest);
    AppendAssociates(verb, [SP] + (uri + ([SP] + tail)), rest);
  }

  // ---- Only messages of the grammar are accepted ----

  /** Before the last byte of an accepted message, every byte leads on. */
  lemma GoodLeadsOn(p: Parser, b: Bytes)
    requires Valid(p) && Feed(p, b).verdict == Good && p.state != ExpectingNewline3
    ensures b != [] && Consumed(p, b[0]).1 == Indeterminate
    ensures Feed(p, b) == Ahead(1, Feed(Consumed(p, b[0]).0, b[1..]))
  {
  }

  lemma GoodAtEnd(req: Request, b: Bytes)
    requires Feed(Parser(ExpectingNewline3, req), b).verdict == Good
    ensures b != [] && b[0] == LF
    ensures Feed(Parser(ExpectingNewline3, req), b) == Fed(Parser(ExpectingNewline3, req), Good, 1)
  {
  }

  /** An accepted message goes through the whole stretch of the state's class, and then past
      a byte outside it. */
  lemma GoodThrough(p: Parser, b: Bytes) returns (k: nat)
    requires Valid(p) && LoopClass(p.state).Some? && Feed(p, b).verdict == Good
    ensures k < |b| && AllIn(LoopClass(p.state).value, b[..k]) && !In(LoopClass(p.state).value, b[k])
    ensures var q := Parser(p.state, Extended(p, b[..k]));
            && Valid(q) && Consumed(q, b[k]).1 == Indeterminate
            && Feed(p, b) == Ahead(k + 1, Feed(Consumed(q, b[k]).0, b[k + 1..]))
  {
    hide Feed, Consumed, Extended;
    k := Span(LoopClass(p.state).value, b);
    SpanSplits(LoopClass(p.state).value, b);
    Loop(p, b);
    var q := Parser(p.state, Extended(p, b[..k]));
    GoodLeadsOn(q, b[k..]);
    assert b[k..][1..] == b[k + 1..] && b[k..][0] == b[k];
  }

  lemma TakeMore(b: Bytes, n: nat, m: nat)
    requires n + m <= |b|
    ensures b[..n + m] == b[..n] + b[n..][..m]
  {
  }

  lemma SplitAtByte(b: Bytes, k: nat)
    requires k < |b|
    ensures b[..k + 1] == b[..k] + [b[k]]
  {
  }

  /** The rest of a value and its line end. */
  lemma ValueSound(req: Request, b: Bytes) returns (value: Bytes)
    requires req.headers != [] && Feed(Parser(Value, req), b).verdict == Good
    ensures AllIn(ValueByte, value) && |value| + 2 <= |b| && b[..|value| + 2] == value + CRLF
    ensures Feed(Parser(Value, req), b) ==
            Ahead(|value| + 2, Feed(Parser(LineStart, WithValue(req, value)), b[|value| + 2..]))
  {
    hide Feed;
    var k := GoodThrough(Parser(Value, req), b);
    value := b[..k];
    var p := Parser(ExpectingNewline2, WithValue(req, value));
    GoodLeadsOn(p, b[k + 1..]);
    assert b[k + 1..][1..] == b[k + 2..];
    assert b[..k + 2] == b[..k] + [b[k], b[k + 1]];
  }

  lemma NamedHeader(req: Request, name: Bytes)
    ensures WithName(WithHeader(req, [], []), name) == WithHeader(req, name, [])
  {
    assert [] + name == name;
    assert WithName(WithHeader(req, [], []), name).headers == WithHeader(req, name, []).headers;
  }

  lemma ValuedHeader(req: Request, name: Bytes, value: Bytes)
    ensures WithValue(WithHeader(req, name, []), value) == WithHeader(req, name, value)
  {
    assert [] + value == value;
    assert WithValue(WithHeader(req, name, []), value).headers == WithHeader(req, name, value).headers;
  }

  /** A header name, its colon and the space after it. */
  lemma NameSound(req: Request, b: Bytes) returns (name: Bytes)
    requires Feed(Parser(LineStart, req), b).verdict == Good && b != [] && IsToken(b[0])
    ensures Some1(Token, name) && |name| + 2 <= |b|
    ensures name == b[..|name|] && b[|name|] == COLON && b[|name| + 1] == SP
    ensures Feed(Parser(LineStart, req), b) ==
            Ahead(|name| + 2, Feed(Parser(Value, WithHeader(req, name, [])), b[|name| + 2..]))
  {
    hide Feed, WithName;
    NameStarts(req, b);
    var k := GoodThrough(Parser(Name, WithHeader(req, [], [])), b);
    name := b[..k];
    assert k > 0;
    NamedHeader(req, name);
    GoodLeadsOn(Parser(SpaceBeforeValue, WithHeader(req, name, [])), b[k + 1..]);
    DropTwice(b, k + 1, 1);
  }

  lemma FieldSound(req: Request, b: Bytes) returns (name: Bytes, value: Bytes)
    requires Feed(Parser(LineStart, req), b).verdict == Good && b != [] && IsToken(b[0])
    ensures Some1(Token, name) && AllIn(ValueByte, value)
    ensures var n := |name| + |value| + 4;
            && n <= |b| && b[..n] == PrintLine(Field(name, value))
            && Feed(Parser(LineStart, req), b) ==
               Ahead(n, Feed(Parser(LineStart, WithHeader(req, name, value)), b[n..]))
  {
    hide Feed, WithValue, AllIn, PrintLine;
    name := NameSound(req, b);
    value := ValueSound(WithHeader(req, name, []), b[|name| + 2..]);
    ValuedHeader(req, name, value);
    JoinField(b, |name|, name, value);
  }

  lemma JoinField(b: Bytes, k: nat, name: Bytes, value: Bytes)
    requires k + 2 + |value| + 2 <= |b| && name == b[..k] && b[k] == COLON && b[k + 1] == SP
    requires b[k + 2..][..|value| + 2] == value + CRLF
    ensures b[..k + |value| + 4] == PrintLine(Field(name, value))
    ensures b[k + 2..][|value| + 2..] == b[k + |value| + 4..]
  {
    TakeMore(b, k + 2, |value| + 2);
    assert b[..k + 2] == name + [COLON, SP];
    AppendAssociates(name, [COLON, SP], value + CRLF);
    DropTwice(b, k + 2, |value| + 2);
  }

  lemma FoldSound(req: Request, b: Bytes) returns (blanks: Bytes, text: Bytes)
    requires Feed(Parser(LineStart, req), b).verdict == Good && b != [] && In(Blank, b[0]) && req.headers != []
    ensures WellformedLine(Fold(blanks, text))
    ensures var n := |blanks| + |text| + 2;
            && n <= |b| && b[..n] == PrintLine(Fold(blanks, text))
            && Feed(Parser(LineStart, req), b) == Ahead(n, Feed(Parser(LineStart, WithValue(req, text)), b[n..]))
  {
    hide Feed;
    FoldStarts(req, b);
    var k := GoodThrough(Parser(LineBlanks, req), b);
    blanks := b[..k];
    assert k > 0;
    var tail := b[k..];
    SpanIs(Blank, b, k);
    Loop(Parser(LineBlanks, req), b);
    TextStarts(req, tail);
    text := ValueSound(req, tail);
    if text != [] {
      assert text[0] == (text + CRLF)[0] == tail[..|text| + 2][0] == b[k];
    }
    TakeMore(b, k, |text| + 2);
    DropTwice(b, k, |text| + 2);
  }

  lemma SpanIs(class_: Class, b: Bytes, k: nat)
    requires k < |b| && AllIn(class_, b[..k]) && !In(class_, b[k])
    ensures Span(class_, b) == k
  {
    SpanOf(class_, b[..k], b[k..]);
    assert b[..k] + b[k..] == b;
  }

  lemma LineStartCases(req: Request, c: byte)
    requires Consumed(Parser(LineStart, req), c).1 == Indeterminate && c != CR
    ensures IsToken(c) || (req.headers != [] && In(Blank, c))
  {
  }

  /** The line takes the parser from one line start to the next. */
  predicate ReadsLine(req: Request, b: Bytes, line: Line) {
    && WellformedLine(line) && (line.Fold? ==> req.headers != [])
    && 0 < |PrintLine(line)| <= |b| && b[..|PrintLine(line)|] == PrintLine(line)
    && Feed(Parser(LineStart, req), b) ==
       Ahead(|PrintLine(line)|,
             Feed(Parser(LineStart, req.(headers := AddLine(req.headers, line))), b[|PrintLine(line)|..]))
  }

  lemma FoldLineSound(req: Request, b: Bytes) returns (line: Line)
    requires Feed(Parser(LineStart, req), b).verdict == Good && b != [] && In(Blank, b[0]) && req.headers != []
    ensures ReadsLine(req, b, line)
  {
    hide Feed;
    var blanks, text := FoldSound(req, b);
    line := Fold(blanks, text);
  }

  lemma FieldLineSound(req: Request, b: Bytes) returns (line: Line)
    requires Feed(Parser(LineStart, req), b).verdict == Good && b != [] && IsToken(b[0])
    ensures ReadsLine(req, b, line)
  {
    hide Feed;
    var name, value := FieldSound(req, b);
    line := Field(name, value);
  }

  lemma LineSound(req: Request, b: Bytes) returns (line: Line)
    requires Feed(Parser(LineStart, req), b).verdict == Good && b != [] && b[0] != CR
    ensures ReadsLine(req, b, line)
  {
    hide Feed, ReadsLine;
    GoodLeadsOn(Parser(LineStart, req), b);
    LineStartCases(req, b[0]);
    if req.headers != [] && In(Blank, b[0]) {
      line := FoldLineSound(req, b);
    } else {
      line := FieldLineSound(req, b);
    }
  }

  lemma {:induction false} LinesSound(req: Request, b: Bytes) returns (lines: seq<Line>)
    requires Feed(Parser(LineStart, req), b).verdict == Good
    ensures WellformedLines(lines, req.headers != [])
    ensures var r := Feed(Parser(LineStart, req), b);
            && b[..r.consumed] == PrintLines(lines)
            && r.parser.req == req.(headers := AddLines(req.headers, lines))
    decreases |b|
  {
    GoodLeadsOn(Parser(LineStart, req), b);
    if b[0] == CR {
      lines := [];
      GoodAtEnd(req, b[1..]);
      assert b[..2] == CRLF;
    } else {
      hide Feed;
      var line := LineSound(req, b);
      var n := |PrintLine(line)|;
      var req' := req.(headers := AddLine(req.headers, line));
      var rest := LinesSound(req', b[n..]);
      lines := [line] + rest;
      assert lines[1..] == rest;
      TakeMore(b, n, Feed(Parser(LineStart, req'), b[n..]).consumed);
    }
  }

  /** A state that expects one particular byte. */
  lemma GoodExpected(p: Parser, b: Bytes, c: byte, next: Parser)
    requires p.state in {VersionH, VersionT1, VersionT2, VersionP, VersionSlash}
    requires Feed(p, b).verdict == Good
    requires forall d: byte :: Consumed(p, d).1 == Indeterminate ==> d == c
    requires Consumed(p, c).0 == next
    ensures b != [] && b[0] == c && Feed(p, b) == Ahead(1, Feed(next, b[1..]))
  {
    GoodLeadsOn(p, b);
  }

  lemma VersionSound(req: Request, b: Bytes)
    requires Feed(Parser(VersionH, req), b).verdict == Good
    ensures 5 <= |b| && b[..5] == HTTP
    ensures Feed(Parser(VersionH, req), b) ==
            Ahead(5, Feed(Parser(MajorStart, req.(major := 0, minor := 0)), b[5..]))
  {
    hide Feed;
    GoodExpected(Parser(VersionH, req), b, 72, Parser(VersionT1, req));
    GoodExpected(Parser(VersionT1, req), b[1..], 84, Parser(VersionT2, req));
    DropTwice(b, 1, 1);
    GoodExpected(Parser(VersionT2, req), b[2..], 84, Parser(VersionP, req));
    DropTwice(b, 2, 1);
    GoodExpected(Parser(VersionP, req), b[3..], 80, Parser(VersionSlash, req));
    DropTwice(b, 3, 1);
    GoodExpected(Parser(VersionSlash, req), b[4..], SLASH, Parser(MajorStart, req.(major := 0, minor := 0)));
    DropTwice(b, 4, 1);
    hide Consumed;
    assert b[..5] == [b[0], b[1], b[2], b[3], b[4]];
  }

  lemma MajorSound(req: Request, b: Bytes) returns (major: Bytes)
    requires Feed(Parser(MajorStart, req), b).verdict == Good
    ensures Some1(Digit, major) && |major| + 1 <= |b| && b[..|major| + 1] == major + [DOT]
    ensures Feed(Parser(MajorStart, req), b) ==
            Ahead(|major| + 1, Feed(Parser(MinorStart, req.(major := Number(req.major, major))), b[|major| + 1..]))
  {
    hide Feed, Number;
    GoodLeadsOn(Parser(MajorStart, req), b);
    MajorStarts(req, b);
    var k := GoodThrough(Parser(Major, req), b);
    major := b[..k];
    SplitAtByte(b, k);
  }

  lemma MinorSound(req: Request, b: Bytes) returns (minor: Bytes)
    requires Feed(Parser(MinorStart, req), b).verdict == Good
    ensures Some1(Digit, minor) && |minor| + 2 <= |b| && b[..|minor| + 2] == minor + CRLF
    ensures Feed(Parser(MinorStart, req), b) ==
            Ahead(|minor| + 2, Feed(Parser(LineStart, req.(minor := Number(req.minor, minor))), b[|minor| + 2..]))
  {
    hide Feed, Number;
    GoodLeadsOn(Parser(MinorStart, req), b);
    MinorStarts(req, b);
    var k := GoodThrough(Parser(Minor, req), b);
    minor := b[..k];
    GoodLeadsOn(Parser(ExpectingNewline1, req.(minor := Number(req.minor, minor))), b[k + 1..]);
    assert b[k + 1..][1..] == b[k + 2..];
    assert b[..k + 2] == b[..k] + [b[k], b[k + 1]];
  }

  lemma VerbSound(req: Request, b: Bytes) returns (verb: Bytes)
    requires Feed(Parser(MethodStart, req), b).verdict == Good
    ensures Some1(Token, verb) && |verb| + 1 <= |b| && b[..|verb| + 1] == verb + [SP]
    ensures Feed(Parser(MethodStart, req), b) ==
            Ahead(|verb| + 1, Feed(Parser(Uri, req.(verb := req.verb + verb)), b[|verb| + 1..]))
  {
    hide Feed;
    GoodLeadsOn(Parser(MethodStart, req), b);
    VerbStarts(req, b);
    var k := GoodThrough(Parser(Method, req), b);
    verb := b[..k];
    SplitAtByte(b, k);
  }

  lemma UriSound(req: Request, b: Bytes) returns (uri: Bytes)
    requires Feed(Parser(Uri, req), b).verdict == Good
    ensures AllIn(UriByte, uri) && |uri| + 1 <= |b| && b[..|uri| + 1] == uri + [SP]
    ensures Feed(Parser(Uri, req), b) ==
            Ahead(|uri| + 1, Feed(Parser(VersionH, req.(uri := req.uri + uri)), b[|uri| + 1..]))
  {
    hide Feed;
    var k := GoodThrough(Parser(Uri, req), b);
    uri := b[..k];
    SplitAtByte(b, k);
  }

  /** What follows the verb and the target of an accepted request. */
  lemma AfterTargetSound(req: Request, b: Bytes) returns (major: Bytes, minor: Bytes, lines: seq<Line>)
    requires Feed(Parser(VersionH, req), b).verdict == Good && req.headers == []
    ensures Some1(Digit, major) && Some1(Digit, minor) && WellformedLines(lines, false)
    ensures var r := Feed(Parser(VersionH, req), b);
            && b[..r.consumed] == HTTP + (major + ([DOT] + (minor + (CRLF + PrintLines(lines)))))
            && r.parser.req == Request(req.verb, req.uri, Number(0, major), Number(0, minor), AddLines([], lines))
  {
    hide Feed, Number, AddLines, PrintLines;
    VersionSound(req, b);
    var b1, req1 := b[5..], req.(major := 0, minor := 0);
    major := MajorSound(req1, b1);
    var b2, req2 := b1[|major| + 1..], req1.(major := Number(0, major));
    minor := MinorSound(req2, b2);
    var b3, req3 := b2[|minor| + 2..], req2.(minor := Number(0, minor));
    lines := LinesSound(req3, b3);
    var n := Feed(Parser(LineStart, req3), b3).consumed;
    TakeMore(b2, |minor| + 2, n);
    AppendAssociates(minor, CRLF, PrintLines(lines));
    TakeMore(b1, |major| + 1, |minor| + 2 + n);
    AppendAssociates(major, [DOT], minor + (CRLF + PrintLines(lines)));
    TakeMore(b, 5, |major| + 1 + |minor| + 2 + n);
  }

  /** Soundness: the bytes consumed by a fresh parser up to the answer `good` are a message of
      the grammar, and the request is the one it denotes. */
  lemma AcceptedIsMessage(b: Bytes, major: int, minor: int) returns (m: Message)
    requires Feed(Fresh(major, minor), b).verdict == Good
    ensures var r := Feed(Fresh(major, minor), b);
            Wellformed(m) && b[..r.consumed] == Print(m) && r.parser.req == Denote(m)
  {
    hide Feed, Number, AddLines, PrintLines;
    var req := Request([], [], major, minor, []);
    var verb := VerbSound(req, b);
    assert [] + verb == verb;
    var b1, req1 := b[|verb| + 1..], req.(verb := verb);
    var uri := UriSound(req1, b1);
    assert [] + uri == uri;
    var b2, req2 := b1[|uri| + 1..], req1.(uri := uri);
    var major', minor', lines := AfterTargetSound(req2, b2);
    m := Message(verb, uri, major', minor', lines);
    var n := Feed(Parser(VersionH, req2), b2).consumed;
    var tail := HTTP + (major' + ([DOT] + (minor' + (CRLF + PrintLines(lines)))));
    TakeMore(b1, |uri| + 1, n);
    AppendAssociates(uri, [SP], tail);
    TakeMore(b, |verb| + 1, |uri| + 1 + n);
    AppendAssociates(verb, [SP], uri + ([SP] + tail));
  }

  predicate IsMessage(m: Message, b: Bytes, req: Request) {
    Wellformed(m) && Print(m) == b && Denote(m) == req
  }

  /** The parser accepts exactly the grammar: on any bytes a fresh parser answers `good` after
      `n` of them with the request `req` if and only if these `n` bytes are a message of the
      grammar that denotes `req`. */
  lemma AcceptsExactlyTheGrammar(b: Bytes, n: nat, req: Request, major: int, minor: int)
    requires n <= |b|
    ensures (var r := Feed(Fresh(major, minor), b); r.verdict == Good && r.consumed == n && r.parser.req == req)
       <==> exists m :: IsMessage(m, b[..n], req)
  {
    hide Feed, Denote, Print, Wellformed;
    var r := Feed(Fresh(major, minor), b);
    if r.verdict == Good && r.consumed == n && r.parser.req == req {
      var m := AcceptedIsMessage(b, major, minor);
      assert IsMessage(m, b[..n], req);
    }
    if m :| IsMessage(m, b[..n], req) {
      MessageAccepted(m, major, minor, b[n..]);
      assert b[..n] + b[n..] == b;
    }
  }

  // ---- Printing a request ----

  function Decimal(n: nat): (d: Bytes)
    ensures d != []
  {
    if n < 10 then [48 + n] else Decimal(n / 10) + [48 + n % 10]
  }

  lemma {:induction false} NumberAppend(n: int, a: Bytes, c: byte)
    ensures Number(n, a + [c]) == Number(n, a) * 10 + c - 48
    decreases |a|
  {
    if a == [] {
      NumberMore(n, c, []);
      assert a + [c] == [c] && [c] + [] == [c];
    } else {
      assert (a + [c])[1..] == a[1..] + [c];
      NumberAppend(n * 10 + a[0] - 48, a[1..], c);
    }
  }

  lemma {:induction false} DecimalIsRead(n: nat)
    ensures AllIn(Digit, Decimal(n)) && Number(0, Decimal(n)) == n
  {
    if n < 10 {
      NumberMore(0, 48 + n, []);
      assert [48 + n] + [] == [48 + n];
    } else {
      DecimalIsRead(n / 10);
      NumberAppend(0, Decimal(n / 10), 48 + n % 10);
    }
  }

  function Fields(headers: seq<Header>): seq<Line> {
    if headers == [] then [] else [Field(headers[0].name, headers[0].value)] + Fields(headers[1..])
  }

  /** A request as a client writes it: no folding, plain decimal version numbers. */
  function Written(req: Request): Message
    requires req.major >= 0 && req.minor >= 0
  {
    Message(req.verb, req.uri, Decimal(req.major), Decimal(req.minor), Fields(req.headers))
  }

  predicate WellformedHeaders(headers: seq<Header>) {
    forall i :: 0 <= i < |headers| ==> Some1(Token, headers[i].name) && AllIn(ValueByte, headers[i].value)
  }

  predicate WellformedRequest(req: Request) {
    && Some1(Token, req.verb)
    && AllIn(UriByte, req.uri)
    && req.major >= 0 && req.minor >= 0
    && WellformedHeaders(req.headers)
  }

  lemma FieldsFirst(before: seq<Header>, headers: seq<Header>)
    requires headers != []
    ensures AddLines(before, Fields(headers)) == AddLines(before + [headers[0]], Fields(headers[1..]))
  {
    assert Fields(headers)[1..] == Fields(headers[1..]);
  }

  lemma {:induction false} FieldsAdd(before: seq<Header>, headers: seq<Header>)
    ensures AddLines(before, Fields(headers)) == before + headers
    decreases |headers|
  {
    if headers == [] {
      assert before + [] == before;
    } else {
      var h := headers[0];
      FieldsFirst(before, headers);
      hide AddLines, Fields;
      FieldsAdd(before + [h], headers[1..]);
      AppendAssociates(before, [h], headers[1..]);
      assert [h] + headers[1..] == headers;
    }
  }

  lemma {:induction false} FieldsWellformed(headers: seq<Header>, afterHeader: bool)
    requires WellformedHeaders(headers)
    ensures WellformedLines(Fields(headers), afterHeader)
    decreases |headers|
  {
    if headers != [] {
      assert Fields(headers)[1..] == Fields(headers[1..]);
      assert forall i :: 0 <= i < |headers| - 1 ==> headers[1..][i] == headers[i + 1];
      FieldsWellformed(headers[1..], true);
    }
  }

  /** Whatever lines are read, the headers they make are well formed. */
  lemma {:induction false} ReadHeadersWellformed(before: seq<Header>, lines: seq<Line>)
    requires WellformedHeaders(before) && WellformedLines(lines, before != [])
    ensures WellformedHeaders(AddLines(before, lines))
    decreases |lines|
  {
    if lines != [] {
      ReadHeadersWellformed(AddLine(before, lines[0]), lines[1..]);
    }
  }

  lemma {:induction false} NumberIsNatural(n: int, digits: Bytes)
    requires n >= 0 && AllIn(Digit, digits)
    ensures Number(n, digits) >= 0
    decreases |digits|
  {
    if digits != [] {
      assert In(Digit, digits[0]);
      assert forall i :: 0 <= i < |digits| - 1 ==> digits[1..][i] == digits[i + 1];
      NumberIsNatural(n * 10 + digits[0] - 48, digits[1..]);
    }
  }

  /** Round trip: a request with natural version numbers, written out and read by a fresh
      parser, is accepted at the last byte and comes back with exactly its fields if and only
      if it is well formed. */
  lemma RoundTripIff(req: Request, major: int, minor: int)
    requires req.major >= 0 && req.minor >= 0
    ensures Feed(Fresh(major, minor), Print(Written(req))) ==
            Fed(Parser(ExpectingNewline3, req), Good, |Print(Written(req))|)
       <==> WellformedRequest(req)
  {
    hide Feed, Print, AddLines;
    var b := Print(Written(req));
    if WellformedRequest(req) {
      DecimalIsRead(req.major);
      DecimalIsRead(req.minor);
      FieldsWellformed(req.headers, false);
      FieldsAdd([], req.headers);
      assert [] + req.headers == req.headers;
      MessageAccepted(Written(req), major, minor, []);
      assert b + [] == b;
    }
    if Feed(Fresh(major, minor), b) == Fed(Parser(ExpectingNewline3, req), Good, |b|) {
      var m := AcceptedIsMessage(b, major, minor);
      ReadHeadersWellformed([], m.lines);
      assert WellformedHeaders(req.headers);
    }
  }
}
