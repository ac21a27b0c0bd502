/** Where the headers end, and when the parser's own assertion holds. */
module HttpLimits {
  import opened ByteBuffer
  import opened HttpSpec
  import opened HttpProofs

  // ---- the end of the headers ----

  /** A header block: its lines, each with its line end, and an empty line. */
  function Lines(ls: seq<Bytes>): Bytes {
    if ls == [] then "\r\n" else ls[0] + "\r\n" + Lines(ls[1..])
  }

  /** What follows the first line without a colon, the empty one at the end at the latest. */
  function Behind(ls: seq<Bytes>, tail: Bytes): Bytes {
    if ls == [] then tail
    else if ':' in ls[0] then Behind(ls[1..], tail)
    else Lines(ls[1..]) + tail
  }

  lemma LineTurn(p: Parser, line: Bytes, rest: Bytes)
    requires p.stage == ExpectHeaders && OneLine(line)
    ensures var t := Turn(p, line + "\r\n" + rest);
      && t.rest == rest && t.ok && (t.more <==> ':' in line)
      && t.p.stage == if ':' in line then ExpectHeaders else GotAll
  {
    CrlfAfterLine(line, rest);
    var b := line + "\r\n" + rest;
    assert b[..|line|] == line && b[|line| + 2..] == rest;
    if ':' !in line { FindNone(line, ':'); }
  }

  /** The headers end at the first line without a colon, and the request counts as complete there. */
  lemma {:induction false} HeadersEnd(p: Parser, ls: seq<Bytes>, tail: Bytes)
    requires p.stage == ExpectHeaders && forall l <- ls :: OneLine(l)
    ensures var r := Parse(p, Lines(ls) + tail);
      r.ok && r.p.stage == GotAll && r.rest == Behind(ls, tail)
    decreases |ls|
  {
    var line, rest := if ls == [] then [] else ls[0], if ls == [] then tail else Lines(ls[1..]) + tail;
    var b := Lines(ls) + tail;
    assert b == line + "\r\n" + rest;
    assert FirstCrlf([]) == -1;
    LineTurn(p, line, rest);
    TurnThenParse(p, b);
    if ':' in line {
      HeadersEnd(Turn(p, b).p, ls[1..], tail);
    }
  }

  lemma {:induction false} BehindIff(ls: seq<Bytes>, tail: Bytes)
    ensures |Behind(ls, tail)| >= |tail|
    ensures Behind(ls, tail) == tail <==> forall l <- ls :: ':' in l
    decreases |ls|
  {
    if ls != [] {
      assert ls == [ls[0]] + ls[1..];
      BehindIff(ls[1..], tail);
      assert |Lines(ls[1..])| >= 2;
    }
  }

  /** A header block is read to its end iff every line of it has a colon, as section 3.2 of RFC 7230
      asks; otherwise the rest of the block stays unread, in front of the next request. */
  lemma HeadersReadIff(p: Parser, ls: seq<Bytes>, tail: Bytes)
    requires p.stage == ExpectHeaders && forall l <- ls :: OneLine(l)
    ensures Parse(p, Lines(ls) + tail).rest == tail <==> forall l <- ls :: ':' in l
  {
    HeadersEnd(p, ls, tail);
    BehindIff(ls, tail);
  }

  /** The same for a whole request: a good request line, then any header lines. */
  lemma RequestReadIff(old_: Parser, r: Request, ls: seq<Bytes>, tail: Bytes)
    requires Canonical(r) && forall l <- ls :: OneLine(l)
    ensures var q := Parse(Cleared(old_), RequestLine(r) + "\r\n" + (Lines(ls) + tail));
      && q.ok && q.p.stage == GotAll && q.rest == Behind(ls, tail)
      && (q.rest == tail <==> forall l <- ls :: ':' in l)
  {
    var p, line, rest := Cleared(old_), RequestLine(r), Lines(ls) + tail;
    var b := line + "\r\n" + rest;
    RequestLineOneLine(r);
    CrlfAfterLine(line, rest);
    assert b[..|line|] == line && b[|line| + 2..] == rest;
    RequestLineParsed(p, r);
    TurnThenParse(p, b);
    HeadersEnd(Turn(p, b).p, ls, tail);
    BehindIff(ls, tail);
  }

  /** A line without a colon hides the header behind it: that is what the next parse begins with. */
  lemma LineHidden(old_: Parser, r: Request, line: Bytes, hidden: Bytes, tail: Bytes)
    requires Canonical(r) && OneLine(line) && OneLine(hidden) && ':' !in line
    ensures var q := Parse(Cleared(old_), RequestLine(r) + "\r\n" + (Lines([line, hidden]) + tail));
      q.ok && q.p.stage == GotAll && q.rest == Lines([hidden]) + tail
  {
    var ls := [line, hidden];
    assert ls[1..] == [hidden];
    RequestReadIff(old_, r, ls, tail);
  }

  const BARE := Request(Get, "/", "", Http11, [])

  lemma Short(s: Bytes)
    requires |s| <= 1
    ensures OneLine(s)
  {
  }

  /** For instance: the request for "/" with the header lines "x" and "y". */
  lemma HeaderLeftUnread()
    ensures Canonical(BARE)
    ensures Parse(FRESH, RequestLine(BARE) + "\r\n" + (Lines(["x", "y"]) + "")).rest == Lines(["y"])
  {
    Short("/");
    Short("x");
    Short("y");
    assert "/" + "" == "/";
    assert Cleared(FRESH) == FRESH;
    LineHidden(FRESH, BARE, "x", "y", "");
    assert Lines(["y"]) + "" == Lines(["y"]);
  }

  // ---- the assertion of setMethod ----

  /** The next turn calls setMethod with a method already set. */
  predicate AssertFails(p: Parser, b: Bytes) {
    && p.stage.ExpectRequestLine? && FirstCrlf(b) >= 0
    && Find(b[..FirstCrlf(b)], ' ') < FirstCrlf(b) && p.method_ != Invalid
  }

  /** A call that has failed leaves the broken line unread; parsing once more would fail the assertion
      iff the line began with a known method and a space. */
  lemma SecondParseAssertsIff(p: Parser, b: Bytes)
    requires p.stage.ExpectRequestLine? && p.method_ == Invalid && !Parse(p, b).ok
    ensures FirstCrlf(b) >= 0 && Parse(p, b).rest == b
    ensures var line := b[..FirstCrlf(b)];
      var space := Find(line, ' ');
      AssertFails(Parse(p, b).p, Parse(p, b).rest) <==>
      space < |line| && HttpSpec.SetMethod(line[..space], Invalid) != Invalid
  {
    TurnThenParse(p, b);
    if Turn(p, b).more { HeadersNeverFail(Turn(p, b).p, Turn(p, b).rest); }
  }

  lemma {:induction false} HeadersNeverFail(p: Parser, b: Bytes)
    requires p.stage == ExpectHeaders
    ensures Parse(p, b).ok
    decreases |b|
  {
    TurnThenParse(p, b);
    if Turn(p, b).more { HeadersNeverFail(Turn(p, b).p, Turn(p, b).rest); }
  }

  /** What a session satisfies while nobody parses after a failure. */
  predicate MethodUnset(s: Session) {
    Open(s) && s.p.stage.ExpectRequestLine? ==> s.p.method_ == Invalid
  }

  lemma FeedKeepsUnset(s: Session, chunk: Bytes)
    requires MethodUnset(s)
    ensures MethodUnset(Feed(s, chunk))
  {
    if Open(s) {
      var b := s.unread + chunk;
      TurnThenParse(s.p, b);
      if Turn(s.p, b).more { StageAfterTurn(s.p, b); }
    }
  }

  lemma StageAfterTurn(p: Parser, b: Bytes)
    requires Parsing(p) && Turn(p, b).more
    ensures Turn(p, b).p.stage == ExpectHeaders && Parse(p, b).p.stage != ExpectRequestLine
  {
    TurnThenParse(p, b);
    HeadersStay(Turn(p, b).p, Turn(p, b).rest);
  }

  lemma {:induction false} HeadersStay(p: Parser, b: Bytes)
    requires p.stage == ExpectHeaders
    ensures Parse(p, b).p.stage != ExpectRequestLine
    decreases |b|
  {
    TurnThenParse(p, b);
    if Turn(p, b).more { HeadersStay(Turn(p, b).p, Turn(p, b).rest); }
  }

  /** As long as nobody parses after a failure the assertion never fails: in a session begun on a fresh
      or cleared parser, whatever arrives in whatever pieces, no call to come fails it. */
  lemma {:induction false} AssertionHolds(s: Session, chunks: seq<Bytes>, more: Bytes)
    requires MethodUnset(s)
    ensures var t := FeedAll(s, chunks);
      MethodUnset(t) && (Open(t) ==> !AssertFails(t.p, t.unread + more))
    decreases |chunks|
  {
    if chunks != [] {
      FeedKeepsUnset(s, chunks[0]);
      AssertionHolds(Feed(s, chunks[0]), chunks[1..], more);
    }
  }
}
