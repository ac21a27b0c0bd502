/** The parser's two laws: it does not matter how the bytes are cut into reads, and parsing the
    text of a request gives the request back. */
module HttpProofs {
  import opened ByteBuffer
  import opened HttpSpec

  // ---- independence of chunking ----

  lemma CrlfKept(a: Bytes, b: Bytes)
    requires FirstCrlf(a) >= 0
    ensures FirstCrlf(a + b) == FirstCrlf(a)
  {
    var k := FirstCrlf(a);
    assert CrlfAt(a + b, k);
    var m := FirstCrlf(a + b);
    assert m <= k && CrlfAt(a, m);
  }

  lemma TurnKept(p: Parser, a: Bytes, b: Bytes)
    requires Parsing(p) && FirstCrlf(a) >= 0
    ensures Turn(p, a + b) == Turn(p, a).(rest := Turn(p, a).rest + b)
  {
    CrlfKept(a, b);
    var k := FirstCrlf(a);
    assert (a + b)[..k] == a[..k];
    assert (a + b)[k + 2..] == a[k + 2..] + b;
  }

  /** Parsing what is there and then the rest is parsing everything; once a call has failed or the
      request is complete, further bytes only join the unread ones. */
  lemma {:induction false} ParseExtends(p: Parser, a: Bytes, b: Bytes)
    requires Parsing(p)
    ensures var r := Parse(p, a);
      if r.ok && Parsing(r.p) then Parse(p, a + b) == Parse(r.p, r.rest + b)
      else Parse(p, a + b) == r.(rest := r.rest + b)
    decreases |a|
  {
    if FirstCrlf(a) >= 0 {
      TurnKept(p, a, b);
      var t := Turn(p, a);
      if t.more {
        ParseExtends(t.p, t.rest, b);
      }
    }
  }

  lemma FeedTwice(s: Session, a: Bytes, b: Bytes)
    ensures Feed(Feed(s, a), b) == Feed(s, a + b)
  {
    assert s.unread + a + b == s.unread + (a + b);
    if Open(s) {
      ParseExtends(s.p, s.unread + a, b);
    }
  }

  /** However a byte stream is cut into pieces, a CR LF pair split between two of them included,
      the outcome is that of feeding it whole: fields, unread bytes and failure alike. */
  lemma {:induction false} ChunkingIrrelevant(s: Session, first: Bytes, chunks: seq<Bytes>)
    ensures FeedAll(Feed(s, first), chunks) == Feed(s, first + Joined(chunks))
    decreases |chunks|
  {
    if chunks == [] {
      assert first + [] == first;
    } else {
      FeedTwice(s, first, chunks[0]);
      ChunkingIrrelevant(s, first + chunks[0], chunks[1..]);
      assert first + chunks[0] + Joined(chunks[1..]) == first + (chunks[0] + Joined(chunks[1..]));
    }
  }

  /** The loop after n turns, or after fewer if it has ended. */
  function Turns(p: Parser, b: Bytes, n: nat): Progress
    decreases n
  {
    if n == 0 then Progress(p, b, true, true)
    else
      var t := Turn(p, b);
      if t.more then Turns(t.p, t.rest, n - 1) else t
  }

  lemma TurnThenParse(p: Parser, b: Bytes)
    requires Parsing(p)
    ensures var t := Turn(p, b);
      if t.more then Parsing(t.p) && |t.rest| < |b| && Parse(p, b) == Parse(t.p, t.rest) else Parse(p, b) == t
  {
  }

  lemma TurnsUnfold(p: Parser, b: Bytes, n: nat)
    requires n > 0
    ensures var t := Turn(p, b); Turns(p, b, n) == if t.more then Turns(t.p, t.rest, n - 1) else t
  {
  }

  /** Entered in one of the first two stages it ends, one turn for each unread byte sufficing. */
  lemma {:induction false} TurnsEnd(p: Parser, b: Bytes, n: nat)
    requires Parsing(p) && n > |b|
    ensures Turns(p, b, n) == Parse(p, b) && !Parse(p, b).more
    decreases |b|
  {
    TurnThenParse(p, b);
    TurnsUnfold(p, b, n);
    var t := Turn(p, b);
    if t.more { TurnsEnd(t.p, t.rest, n - 1); }
  }

  lemma {:induction false} TurnsForever(p: Parser, b: Bytes, n: nat)
    requires !Parsing(p)
    ensures Turns(p, b, n) == Progress(p, b, true, true)
    decreases n
  {
    if n > 0 { TurnsForever(p, b, n - 1); }
  }

  /** The loop turns for ever iff it is entered in any other stage. */
  lemma OtherStagesDiverge(p: Parser, b: Bytes)
    ensures (forall n: nat :: Turns(p, b, n).more) <==> !Parsing(p)
  {
    if Parsing(p) {
      TurnsEnd(p, b, |b| + 1);
    } else {
      forall n: nat ensures Turns(p, b, n).more { TurnsForever(p, b, n); }
    }
  }

  // ---- round trip ----

  lemma FindAfter(a: Bytes, c: char, b: Bytes)
    requires c !in a
    ensures Find(a + [c] + b, c) == |a|
  {
    var s := a + [c] + b;
    forall i | 0 <= i < |a| ensures s[i] != c {
      assert s[i] == a[i];
    }
    assert s[|a|] == c;
  }

  lemma FindNone(a: Bytes, c: char)
    requires c !in a
    ensures Find(a, c) == |a|
  {
  }

  /** The line end that follows a line without one is found exactly there. */
  lemma CrlfAfterLine(line: Bytes, rest: Bytes)
    requires OneLine(line)
    ensures FirstCrlf(line + "\r\n" + rest) == |line|
  {
    var s := line + "\r\n" + rest;
    assert CrlfAt(s, |line|);
    forall i | 0 <= i < |line| ensures !CrlfAt(s, i) {
      assert i + 1 < |line| ==> CrlfAt(s, i) == CrlfAt(line, i);
      assert i + 1 == |line| ==> s[i + 1] == '\r';
    }
  }

  /** Joining two lines makes no line end unless one ends in CR and the other begins with LF. */
  lemma OneLineJoin(a: Bytes, b: Bytes)
    requires OneLine(a) && OneLine(b)
    requires a == [] || b == [] || a[|a| - 1] != '\r' || b[0] != '\n'
    ensures OneLine(a + b)
  {
    forall i ensures !CrlfAt(a + b, i) {
      assert i + 1 < |a| ==> CrlfAt(a + b, i) == CrlfAt(a, i);
      assert i >= |a| ==> CrlfAt(a + b, i) == CrlfAt(b, i - |a|);
    }
  }

  lemma TrimKeepsTrimmed(v: Bytes)
    requires Trimmed(v)
    ensures TrimBack(TrimFront(" " + v)) == v
  {
    assert (" " + v)[1..] == v;
    assert TrimFront(v) == v && TrimBack(v) == v;
  }

  lemma HeaderLineParsed(p: Parser, h: (Bytes, Bytes), rest: Bytes)
    requires p.stage == ExpectHeaders && GoodHeader(h)
    ensures Turn(p, HeaderLine(h) + "\r\n" + rest) == Progress(p.(headers := p.headers[h.0 := h.1]), rest, true, true)
  {
    var line := HeaderLine(h);
    OneLineJoin(h.0, ":");
    OneLineJoin(" ", h.1);
    OneLineJoin(h.0 + ":", " " + h.1);
    CrlfAfterLine(line, rest);
    var b := line + "\r\n" + rest;
    assert b[..|line|] == line && b[|line| + 2..] == rest;
    FindAfter(h.0, ':', " " + h.1);
    assert line[..|h.0|] == h.0 && line[|h.0| + 1..] == " " + h.1;
    TrimKeepsTrimmed(h.1);
  }

  lemma {:induction false} HeadersParsed(p: Parser, hs: seq<(Bytes, Bytes)>, tail: Bytes)
    requires p.stage == ExpectHeaders && forall h <- hs :: GoodHeader(h)
    ensures Parse(p, HeaderText(hs) + tail) ==
            Progress(p.(stage := GotAll, headers := Collected(p.headers, hs)), tail, true, false)
    decreases |hs|
  {
    var b := HeaderText(hs) + tail;
    if hs == [] {
      CrlfAfterLine([], tail);
      assert b == [] + "\r\n" + tail;
      assert b[..0] == [] && b[2..] == tail;
    } else {
      var rest := HeaderText(hs[1..]) + tail;
      assert b == HeaderLine(hs[0]) + "\r\n" + rest;
      HeaderLineParsed(p, hs[0], rest);
      HeadersParsed(p.(headers := p.headers[hs[0].0 := hs[0].1]), hs[1..], tail);
    }
  }

  /** The method the parser stores for a method name: HEAD is taken for DELETE. */
  function Stored(m: Method): Method {
    if m == Head then Delete else m
  }

  lemma TargetParsed(p: Parser, path: Bytes, query: Bytes)
    requires '?' !in path && (query == [] || query[0] == '?')
    ensures SetTarget(p, path + query) == p.(path := path, query := if query == [] then p.query else query)
  {
    if query == [] {
      assert path + query == path;
      FindNone(path, '?');
    } else {
      assert path + query == path + ['?'] + query[1..];
      FindAfter(path, '?', query[1..]);
      assert (path + query)[|path|..] == query && (path + query)[..|path|] == path;
    }
  }

  /** A line of three space-free parts is taken apart at its spaces. */
  lemma SplitLine(line: Bytes, name: Bytes, target: Bytes, version: Bytes)
    requires line == name + " " + target + " " + version && ' ' !in name && ' ' !in target
    ensures var k := Find(line, ' ');
      && k == |name| < |line| && line[..k] == name
      && Find(line[k + 1..], ' ') == |target| < |line[k + 1..]|
      && line[k + 1..][..|target|] == target && line[k + 1..][|target| + 1..] == version
  {
    var rest := target + [' '] + version;
    assert line == name + [' '] + rest;
    FindAfter(name, ' ', rest);
    assert line[|name| + 1..] == rest;
    FindAfter(target, ' ', version);
  }

  lemma NameRead(m: Method, before: Method)
    requires m != Invalid
    ensures SetMethod(MethodName(m), before) == Stored(m) && ' ' !in MethodName(m) && OneLine(MethodName(m))
  {
  }

  lemma LineProcessed(p: Parser, line: Bytes, name: Bytes, target: Bytes, version: Bytes)
    requires line == name + " " + target + " " + version && ' ' !in name && ' ' !in target
    requires SetMethod(name, p.method_) != Invalid && VersionOf(version) != Unknown
    ensures ProcessRequestLine(p, line) ==
            (SetTarget(p.(method_ := SetMethod(name, p.method_)), target).(version := VersionOf(version)), true)
  {
    SplitLine(line, name, target, version);
  }

  lemma VersionRead(v: Version)
    requires v != Unknown
    ensures VersionOf(VersionName(v)) == v
  {
    assert VersionName(v)[..7] == "HTTP/1.";
  }

  lemma RequestLineParsed(p: Parser, r: Request)
    requires Canonical(r)
    ensures ProcessRequestLine(p, RequestLine(r)) ==
            (p.(method_ := Stored(r.method_), path := r.path, query := if r.query == [] then p.query else r.query,
                version := r.version), true)
  {
    NameRead(r.method_, p.method_);
    VersionRead(r.version);
    assert ' ' !in r.path + r.query;
    LineProcessed(p, RequestLine(r), MethodName(r.method_), r.path + r.query, VersionName(r.version));
    TargetParsed(p.(method_ := Stored(r.method_)), r.path, r.query);
  }

  lemma RequestLineOneLine(r: Request)
    requires Canonical(r)
    ensures OneLine(RequestLine(r))
  {
    var name, target := MethodName(r.method_), r.path + r.query;
    OneLineJoin(name + " ", target);
    OneLineJoin(name + " " + target, " ");
    OneLineJoin(name + " " + target + " ", VersionName(r.version));
  }

  /** Parsing the text of a request, on a fresh parser or one cleared after other requests, yields
      the request and leaves exactly the bytes behind it unread, with two deviations: HEAD is
      stored as DELETE, and a request without a query keeps the previous one. */
  lemma RoundTrip(old_: Parser, r: Request, tail: Bytes)
    requires Canonical(r)
    ensures Parse(Cleared(old_), Text(r) + tail) ==
            Progress(Parser(Stored(r.method_), r.version, GotAll, r.path,
                            if r.query == [] then old_.query else r.query, Collected(map[], r.headers)),
                     tail, true, false)
  {
    var p := Cleared(old_);
    var line, rest := RequestLine(r), HeaderText(r.headers) + tail;
    var b := Text(r) + tail;
    assert b == line + "\r\n" + rest;
    RequestLineOneLine(r);
    CrlfAfterLine(line, rest);
    assert b[..|line|] == line && b[|line| + 2..] == rest;
    RequestLineParsed(p, r);
    HeadersParsed(Turn(p, b).p, r.headers, tail);
  }

  /** The method comes back iff it is not HEAD, the query iff there is one or none is left over. */
  lemma RoundTripExactIff(old_: Parser, r: Request)
    requires Canonical(r)
    ensures var q := Parse(Cleared(old_), Text(r)).p;
      && (q.method_ == r.method_ <==> r.method_ != Head)
      && (q.query == r.query <==> r.query != [] || old_.query == [])
  {
    RoundTrip(old_, r, []);
    assert Text(r) + [] == Text(r);
  }

  /** With distinct names every field is found again under its name. */
  lemma {:induction false} CollectedDistinct(before: map<Bytes, Bytes>, hs: seq<(Bytes, Bytes)>, i: nat)
    requires i < |hs| && forall j :: i < j < |hs| ==> hs[j].0 != hs[i].0
    ensures hs[i].0 in Collected(before, hs) && Collected(before, hs)[hs[i].0] == hs[i].1
    decreases |hs|
  {
    if i > 0 {
      CollectedDistinct(before[hs[0].0 := hs[0].1], hs[1..], i - 1);
    } else {
      CollectedOthers(before[hs[0].0 := hs[0].1], hs[1..], hs[0].0);
    }
  }

  lemma {:induction false} CollectedOthers(before: map<Bytes, Bytes>, hs: seq<(Bytes, Bytes)>, name: Bytes)
    requires name in before && forall j :: 0 <= j < |hs| ==> hs[j].0 != name
    ensures name in Collected(before, hs) && Collected(before, hs)[name] == before[name]
    decreases |hs|
  {
    if hs != [] {
      CollectedOthers(before[hs[0].0 := hs[0].1], hs[1..], name);
    }
  }

  /** Together: a request that arrives in any pieces on a fresh connection is read back whole. */
  lemma RequestInPieces(r: Request, first: Bytes, chunks: seq<Bytes>)
    requires Canonical(r) && r.method_ != Head && first + Joined(chunks) == Text(r)
    ensures var s := FeedAll(Feed(Session(FRESH, [], true), first), chunks);
      s == Session(Parser(r.method_, r.version, GotAll, r.path, r.query, Collected(map[], r.headers)), [], true)
  {
    ChunkingIrrelevant(Session(FRESH, [], true), first, chunks);
    RoundTrip(FRESH, r, []);
    assert Text(r) + [] == Text(r) && [] + Text(r) == Text(r);
  }
}
