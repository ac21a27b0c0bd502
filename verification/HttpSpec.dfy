/** The request parser as functions on the parser's fields and the unread bytes. */
module HttpSpec {
  import opened ByteBuffer

  datatype Method = Invalid | Get | Post | Head | Put | Delete
  datatype Version = Unknown | Http10 | Http11
  datatype Stage = ExpectRequestLine | ExpectHeaders | ExpectBody | GotAll

  datatype Parser = Parser(
    method_: Method,
    version: Version,
    stage: Stage,
    path: Bytes,
    query: Bytes,
    headers: map<Bytes, Bytes>)

  const FRESH := Parser(Invalid, Unknown, ExpectRequestLine, [], [], map[])

  /** clearAllContent(): the path and the query stay. */
  function Cleared(p: Parser): Parser {
    Parser(Invalid, Unknown, ExpectRequestLine, p.path, p.query, map[])
  }

  /** std::find: position of the first c, or the length. */
  function Find(s: Bytes, c: char): (k: nat)
    ensures k <= |s|
    ensures k < |s| ==> s[k] == c
    ensures forall i :: 0 <= i < k ==> s[i] != c
  {
    if s == [] || s[0] == c then 0 else 1 + Find(s[1..], c)
  }

  predicate IsSpace(c: char) {
    c == ' ' || '\t' <= c <= '\r'
  }

  function TrimFront(s: Bytes): Bytes {
    if s != [] && IsSpace(s[0]) then TrimFront(s[1..]) else s
  }

  function TrimBack(s: Bytes): Bytes {
    if s != [] && IsSpace(s[|s| - 1]) then TrimBack(s[..|s| - 1]) else s
  }

  /** The method a token stands for; an unknown token leaves the field as it was. */
  function SetMethod(token: Bytes, before: Method): Method {
    if token == "GET" then Get
    else if token == "POST" then Post
    else if token == "HEAD" then Delete
    else if token == "PUT" then Put
    else if token == "DELETE" then Delete
    else before
  }

  function AddHeader(p: Parser, line: Bytes, colon: nat): Parser
    requires colon < |line|
  {
    p.(headers := p.headers[line[..colon] := TrimBack(TrimFront(line[colon + 1..]))])
  }

  function SetTarget(p: Parser, target: Bytes): Parser {
    var q := Find(target, '?');
    var p1 := if q != |target| then p.(query := target[q..]) else p;
    p1.(path := target[..q])
  }

  /** The version a request line ends with, `Unknown` when it is none. */
  function VersionOf(s: Bytes): Version {
    if |s| == 8 && s[..7] == "HTTP/1." then
      if s[7] == '1' then Http11 else if s[7] == '0' then Http10 else Unknown
    else Unknown
  }

  /** Reads one request line; the fields set before a failure stay set. */
  function ProcessRequestLine(p: Parser, line: Bytes): (Parser, bool) {
    var space := Find(line, ' ');
    if space == |line| then (p, false) else
    var p1 := p.(method_ := SetMethod(line[..space], p.method_));
    if p1.method_ == Invalid then (p1, false) else
    var rest := line[space + 1..];
    var space2 := Find(rest, ' ');
    if space2 == |rest| then (p1, false) else
    var p2 := SetTarget(p1, rest[..space2]);
    var version := VersionOf(rest[space2 + 1..]);
    if version == Unknown then (p2, false) else (p2.(version := version), true)
  }

  /** Parser, unread bytes, success so far, and whether the loop goes on. */
  datatype Progress = Progress(p: Parser, rest: Bytes, ok: bool, more: bool)

  /** One turn of the parse loop. */
  function Turn(p: Parser, b: Bytes): Progress {
    if p.stage.ExpectRequestLine? then
      var crlf := FirstCrlf(b);
      if crlf < 0 then Progress(p, b, true, false) else
      var (p1, ok) := ProcessRequestLine(p, b[..crlf]);
      if ok then Progress(p1.(stage := ExpectHeaders), b[crlf + 2..], true, true)
      else Progress(p1, b, false, false)
    else if p.stage.ExpectHeaders? then
      var crlf := FirstCrlf(b);
      if crlf < 0 then Progress(p, b, true, false) else
      var colon := Find(b[..crlf], ':');
      if colon != crlf then Progress(AddHeader(p, b[..crlf], colon), b[crlf + 2..], true, true)
      else Progress(p.(stage := GotAll), b[crlf + 2..], true, false)
    else Progress(p, b, true, true)
  }

  predicate Parsing(p: Parser) {
    p.stage.ExpectRequestLine? || p.stage.ExpectHeaders?
  }

  /** The whole loop. */
  function Parse(p: Parser, b: Bytes): Progress
    requires Parsing(p)
    decreases |b|
  {
    var t := Turn(p, b);
    if t.more then Parse(t.p, t.rest) else t
  }

  // ---- a connection's worth of calls ----

  /** The parser, its input buffer, and whether the last call failed. */
  datatype Session = Session(p: Parser, unread: Bytes, ok: bool)

  predicate Open(s: Session) {
    s.ok && Parsing(s.p)
  }

  /** Bytes arrive and, unless the request is complete or has failed, are parsed. */
  function Feed(s: Session, chunk: Bytes): Session {
    if !Open(s) then s.(unread := s.unread + chunk)
    else
      var r := Parse(s.p, s.unread + chunk);
      Session(r.p, r.rest, r.ok)
  }

  function FeedAll(s: Session, chunks: seq<Bytes>): Session
    decreases |chunks|
  {
    if chunks == [] then s else FeedAll(Feed(s, chunks[0]), chunks[1..])
  }

  function Joined(chunks: seq<Bytes>): Bytes {
    if chunks == [] then [] else chunks[0] + Joined(chunks[1..])
  }

  // ---- canonical text, after RFC 7230 sections 3.1.1 and 3.2 ----

  datatype Request = Request(method_: Method, path: Bytes, query: Bytes, version: Version, headers: seq<(Bytes, Bytes)>)

  function MethodName(m: Method): Bytes
    requires m != Invalid
  {
    match m
    case Get => "GET"
    case Post => "POST"
    case Head => "HEAD"
    case Put => "PUT"
    case Delete => "DELETE"
  }

  function VersionName(v: Version): Bytes {
    if v == Http11 then "HTTP/1.1" else "HTTP/1.0"
  }

  function RequestLine(r: Request): Bytes
    requires r.method_ != Invalid
  {
    MethodName(r.method_) + " " + (r.path + r.query) + " " + VersionName(r.version)
  }

  function HeaderLine(h: (Bytes, Bytes)): Bytes {
    h.0 + ":" + (" " + h.1)
  }

  function HeaderText(hs: seq<(Bytes, Bytes)>): Bytes {
    if hs == [] then "\r\n" else HeaderLine(hs[0]) + "\r\n" + HeaderText(hs[1..])
  }

  function Text(r: Request): Bytes
    requires r.method_ != Invalid
  {
    RequestLine(r) + "\r\n" + HeaderText(r.headers)
  }

  /** The header map a list of fields builds; later fields replace earlier ones of the same name. */
  function Collected(before: map<Bytes, Bytes>, hs: seq<(Bytes, Bytes)>): map<Bytes, Bytes>
    decreases |hs|
  {
    if hs == [] then before else Collected(before[hs[0].0 := hs[0].1], hs[1..])
  }

  predicate OneLine(s: Bytes) {
    FirstCrlf(s) == -1
  }

  predicate Trimmed(s: Bytes) {
    s == [] || (!IsSpace(s[0]) && !IsSpace(s[|s| - 1]))
  }

  predicate GoodHeader(h: (Bytes, Bytes)) {
    ':' !in h.0 && OneLine(h.0) && OneLine(h.1) && Trimmed(h.1)
  }

  predicate Canonical(r: Request) {
    && r.method_ != Invalid && r.version != Unknown
    && ' ' !in r.path && '?' !in r.path && ' ' !in r.query
    && (r.query == [] || r.query[0] == '?')
    && OneLine(r.path + r.query)
    && forall h <- r.headers :: GoodHeader(h)
  }
}
