/** Which request lines are accepted, and what of a header line is stored, in terms of the text alone. */
module HttpAccepts {
  import opened ByteBuffer
  import opened HttpSpec
  import opened HttpProofs
  import opened HttpLimits

  // ---- request lines ----

  predicate KnownName(name: Bytes) {
    name == "GET" || name == "POST" || name == "HEAD" || name == "PUT" || name == "DELETE"
  }

  predicate KnownVersion(version: Bytes) {
    version == "HTTP/1.1" || version == "HTTP/1.0"
  }

  predicate Splits(line: Bytes, name: Bytes, target: Bytes, version: Bytes) {
    line == name + " " + target + " " + version && KnownName(name) && ' ' !in target && KnownVersion(version)
  }

  /** A known method, a target without spaces and a known version, one space between them. */
  ghost predicate GoodLine(line: Bytes) {
    exists name, target, version :: Splits(line, name, target, version)
  }

  lemma NameKnownIff(name: Bytes)
    ensures HttpSpec.SetMethod(name, Invalid) != Invalid <==> KnownName(name)
    ensures KnownName(name) ==> ' ' !in name
  {
  }

  lemma VersionKnownIff(version: Bytes)
    ensures VersionOf(version) != Unknown <==> KnownVersion(version)
    ensures VersionOf(version) == Http11 <==> version == "HTTP/1.1"
  {
    if |version| == 8 {
      assert version == version[..7] + [version[7]];
    }
    assert "HTTP/1.1"[..7] == "HTTP/1." && "HTTP/1.0"[..7] == "HTTP/1.";
  }

  lemma Recombine(line: Bytes, space: nat, space2: nat)
    requires space < |line| && line[space] == ' '
    requires space2 < |line[space + 1..]| && line[space + 1..][space2] == ' '
    ensures var rest := line[space + 1..];
      line == line[..space] + " " + rest[..space2] + " " + rest[space2 + 1..]
  {
    var rest := line[space + 1..];
    assert line == line[..space] + " " + rest;
    assert rest == rest[..space2] + " " + rest[space2 + 1..];
  }

  lemma AcceptedIsGood(p: Parser, line: Bytes)
    requires p.method_ == Invalid && HttpSpec.ProcessRequestLine(p, line).1
    ensures GoodLine(line)
  {
    var space := Find(line, ' ');
    var rest := line[space + 1..];
    var space2 := Find(rest, ' ');
    Recombine(line, space, space2);
    NameKnownIff(line[..space]);
    VersionKnownIff(rest[space2 + 1..]);
    assert Splits(line, line[..space], rest[..space2], rest[space2 + 1..]);
  }

  lemma GoodIsAccepted(p: Parser, line: Bytes, name: Bytes, target: Bytes, version: Bytes)
    requires p.method_ == Invalid && Splits(line, name, target, version)
    ensures HttpSpec.ProcessRequestLine(p, line).1
    ensures var q := HttpSpec.ProcessRequestLine(p, line).0;
      && (q.method_ == Get <==> name == "GET") && (q.method_ == Post <==> name == "POST")
      && (q.method_ == Put <==> name == "PUT") && (q.method_ == Delete <==> name == "DELETE" || name == "HEAD")
      && (q.version == Http11 <==> version == "HTTP/1.1") && (q.version == Http10 <==> version == "HTTP/1.0")
  {
    NameKnownIff(name);
    VersionKnownIff(version);
    LineProcessed(p, line, name, target, version);
  }

  /** A call that finds a whole request line accepts it iff the line is good. Otherwise it fails, every byte
      stays unread, and stage, version and headers are as they were. */
  lemma AcceptedIff(p: Parser, line: Bytes, rest: Bytes)
    requires p.stage == ExpectRequestLine && p.method_ == Invalid && OneLine(line)
    ensures var r := Parse(p, line + "\r\n" + rest);
      && (r.ok <==> GoodLine(line))
      && (r.ok ==> r.p.stage != ExpectRequestLine)
      && (!r.ok ==> r.rest == line + "\r\n" + rest && r.p.stage == p.stage
                    && r.p.version == p.version && r.p.headers == p.headers)
  {
    var b := line + "\r\n" + rest;
    CrlfAfterLine(line, rest);
    assert b[..|line|] == line;
    TurnThenParse(p, b);
    if HttpSpec.ProcessRequestLine(p, line).1 {
      AcceptedIsGood(p, line);
      HeadersNeverFail(Turn(p, b).p, Turn(p, b).rest);
      StageAfterTurn(p, b);
    } else if GoodLine(line) {
      var name, target, version :| Splits(line, name, target, version);
      GoodIsAccepted(p, line, name, target, version);
    }
  }

  // ---- header lines ----

  const BLANKS := " \t\n\U{000B}\U{000C}\r"

  predicate Blank(s: Bytes) {
    forall c <- s :: c in BLANKS
  }

  lemma BlankIsSpace(c: char)
    ensures IsSpace(c) <==> c in BLANKS
  {
    assert BLANKS[0] == ' ' && BLANKS[1] == '\t' && BLANKS[2] == '\n' && BLANKS[5] == '\r';
    assert BLANKS[3] == '\U{000B}' && BLANKS[4] == '\U{000C}';
  }

  /** t is raw without the blanks at both ends. */
  ghost predicate Stripped(raw: Bytes, t: Bytes) {
    && (exists front, back :: raw == front + t + back && Blank(front) && Blank(back))
    && (t == [] || (t[0] !in BLANKS && t[|t| - 1] !in BLANKS))
  }

  lemma {:induction false} TrimFrontStrips(s: Bytes) returns (front: Bytes)
    ensures s == front + TrimFront(s) && Blank(front)
    ensures TrimFront(s) == [] || TrimFront(s)[0] !in BLANKS
    decreases |s|
  {
    front := [];
    if s != [] {
      BlankIsSpace(s[0]);
      if IsSpace(s[0]) {
        var more := TrimFrontStrips(s[1..]);
        front := [s[0]] + more;
        assert s == [s[0]] + s[1..];
      }
    }
  }

  lemma {:induction false} TrimBackStrips(s: Bytes) returns (back: Bytes)
    ensures s == TrimBack(s) + back && Blank(back)
    ensures TrimBack(s) == [] || TrimBack(s)[|TrimBack(s)| - 1] !in BLANKS
    ensures TrimBack(s) <= s
    decreases |s|
  {
    back := [];
    if s != [] {
      var last := s[|s| - 1];
      BlankIsSpace(last);
      if IsSpace(last) {
        var more := TrimBackStrips(s[..|s| - 1]);
        back := more + [last];
        assert s == s[..|s| - 1] + [last];
      }
    }
  }

  lemma StripsBoth(raw: Bytes, front: Bytes, t: Bytes, back: Bytes)
    requires raw == front + (t + back) && Blank(front) && Blank(back)
    requires t == [] || (t[0] !in BLANKS && t[|t| - 1] !in BLANKS)
    ensures Stripped(raw, t)
  {
    assert raw == front + t + back;
  }

  lemma TrimStrips(raw: Bytes)
    ensures Stripped(raw, TrimBack(TrimFront(raw)))
  {
    var front := TrimFrontStrips(raw);
    var back := TrimBackStrips(TrimFront(raw));
    StripsBoth(raw, front, TrimBack(TrimFront(raw)), back);
  }

  /** A header line with a colon stores, under the text before its first colon, the text behind it without
      the blanks at both ends. */
  lemma HeaderStored(p: Parser, name: Bytes, raw: Bytes, rest: Bytes)
    requires p.stage == ExpectHeaders && ':' !in name && OneLine(name + ":" + raw)
    ensures var t := Turn(p, name + ":" + raw + "\r\n" + rest);
      && t.ok && t.more && t.rest == rest && name in t.p.headers
      && Stripped(raw, t.p.headers[name]) && t.p == p.(headers := p.headers[name := t.p.headers[name]])
  {
    var line := name + ":" + raw;
    CrlfAfterLine(line, rest);
    var b := line + "\r\n" + rest;
    assert b[..|line|] == line && b[|line| + 2..] == rest;
    FindAfter(name, ':', raw);
    assert line == name + [':'] + raw;
    assert line[..|name|] == name && line[|name| + 1..] == raw;
    TrimStrips(raw);
  }
}
