/** The request parser in place, over the byte buffer. */
module HttpDataImpl {
  import opened ByteBuffer
  import opened HttpSpec
  import opened HttpProofs

  /** std::find over a range of bytes. */
  method FindChar(s: Bytes, c: char) returns (k: nat)
    ensures k == HttpSpec.Find(s, c)
  {
    k := 0;
    while k < |s| && s[k] != c
      invariant k <= |s| && forall i :: 0 <= i < k ==> s[i] != c
    {
      k := k + 1;
    }
  }

  lemma {:induction false} TrimFrontFrom(s: Bytes, n: nat)
    requires n <= |s| && forall i :: 0 <= i < n ==> IsSpace(s[i])
    ensures TrimFront(s) == TrimFront(s[n..])
    decreases n
  {
    if n > 0 {
      TrimFrontFrom(s[1..], n - 1);
      assert s[1..][n - 1..] == s[n..];
    } else {
      assert s[0..] == s;
    }
  }

  class HttpData {
    var method_: Method
    var version_: Version
    var state_: Stage
    var path_: Bytes
    var query_: Bytes
    var requestHeaders_: map<Bytes, Bytes>

    ghost function Model(): Parser
      reads this
    {
      Parser(method_, version_, state_, path_, query_, requestHeaders_)
    }

    constructor ()
      ensures Model() == FRESH
    {
      method_, version_, state_, path_, query_, requestHeaders_ := Invalid, Unknown, ExpectRequestLine, [], [], map[];
    }

    method ClearAllContent()
      modifies this
      ensures Model() == old(Cleared(Model()))
    {
      requestHeaders_ := map[];
      method_ := Invalid;
      version_ := Unknown;
      state_ := ExpectRequestLine;
    }

    method SetMethod(token: Bytes) returns (known: bool)
      modifies this`method_
      ensures method_ == HttpSpec.SetMethod(token, old(method_))
      ensures known <==> method_ != Invalid
    {
      if token == "GET" {
        method_ := Get;
      } else if token == "POST" {
        method_ := Post;
      } else if token == "HEAD" {
        method_ := Delete;
      } else if token == "PUT" {
        method_ := Put;
      } else if token == "DELETE" {
        method_ := Delete;
      }
      known := method_ != Invalid;
    }

    method AddReqHeader(line: Bytes, colon: nat)
      requires colon < |line|
      modifies this`requestHeaders_
      ensures Model() == old(AddHeader(Model(), line, colon))
    {
      var field := line[..colon];
      var start := colon + 1;
      ghost var raw := line[colon + 1..];
      while start < |line| && IsSpace(line[start])
        invariant colon + 1 <= start <= |line|
        invariant forall i :: 0 <= i < start - (colon + 1) ==> IsSpace(raw[i])
      {
        assert raw[start - (colon + 1)] == line[start];
        start := start + 1;
      }
      TrimFrontFrom(raw, start - (colon + 1));
      assert raw[start - (colon + 1)..] == line[start..];
      var value := line[start..];
      assert value == TrimFront(raw);
      while value != [] && IsSpace(value[|value| - 1])
        invariant TrimBack(value) == TrimBack(TrimFront(raw))
      {
        value := value[..|value| - 1];
      }
      requestHeaders_ := requestHeaders_[field := value];
    }

    method SetTarget(target: Bytes)
      modifies this`path_, this`query_
      ensures Model() == old(HttpSpec.SetTarget(Model(), target))
    {
      var queryPos := FindChar(target, '?');
      if queryPos != |target| {
        query_ := target[queryPos..];
      }
      path_ := target[..queryPos];
    }

    method SetVersion(s: Bytes) returns (succeed: bool)
      modifies this`version_
      ensures succeed <==> VersionOf(s) != Unknown
      ensures version_ == if succeed then VersionOf(s) else old(version_)
    {
      succeed := |s| == 8 && s[..|s| - 1] == "HTTP/1.";
      if succeed {
        if s[|s| - 1] == '1' {
          version_ := Http11;
        } else if s[|s| - 1] == '0' {
          version_ := Http10;
        } else {
          succeed := false;
        }
      }
    }

    method ProcessRequestLine(line: Bytes) returns (succeed: bool)
      modifies this`method_, this`path_, this`query_, this`version_
      ensures (Model(), succeed) == old(HttpSpec.ProcessRequestLine(Model(), line))
    {
      succeed := false;
      var space := FindChar(line, ' ');
      if space != |line| {
        var known := SetMethod(line[..space]);
        if known {
          var rest := line[space + 1..];
          var space2 := FindChar(rest, ' ');
          if space2 != |rest| {
            SetTarget(rest[..space2]);
            succeed := SetVersion(rest[space2 + 1..]);
          }
        }
      }
    }

    /** One turn of the loop; the contract is the turn of the specification. */
    method ParseTurn(buf: Buffer) returns (ok: bool, hasMore: bool)
      requires buf.Valid() && Parsing(Model())
      modifies this, buf`readerIndex, buf`writerIndex
      ensures buf.Valid()
      ensures Progress(Model(), buf.Contents(), ok, hasMore) == old(HttpSpec.Turn(Model(), buf.Contents()))
    {
      ok, hasMore := true, true;
      var crlf := buf.FindCRLF();
      if crlf < 0 {
        hasMore := false;
        return;
      }
      var line := buf.buf[buf.readerIndex..buf.readerIndex + crlf];
      assert |line| == crlf && forall i :: 0 <= i < crlf ==> line[i] == buf.Contents()[i];
      assert line == buf.Contents()[..crlf];
      if state_ == ExpectRequestLine {
        ok := ProcessRequestLine(line);
        if ok {
          buf.Retrieve(crlf + 2);
          state_ := ExpectHeaders;
        } else {
          hasMore := false;
        }
      } else {
        var colon := FindChar(line, ':');
        if colon != crlf {
          AddReqHeader(line, colon);
        } else {
          state_ := GotAll;
          hasMore := false;
        }
        buf.Retrieve(crlf + 2);
      }
    }

    /** parseRequest(), which terminates whenever it is entered in one of the first two stages. */
    method ParseRequest(buf: Buffer) returns (ok: bool)
      requires buf.Valid() && Parsing(Model())
      modifies this, buf`readerIndex, buf`writerIndex
      ensures buf.Valid()
      ensures Progress(Model(), buf.Contents(), ok, false) == old(Parse(Model(), buf.Contents()))
    {
      ok := true;
      var hasMore := true;
      while hasMore
        invariant buf.Valid() && (hasMore ==> Parsing(Model()))
        invariant old(Parse(Model(), buf.Contents())) ==
                  if hasMore then Parse(Model(), buf.Contents()) else Progress(Model(), buf.Contents(), ok, false)
        decreases |buf.Contents()|, hasMore
      {
        TurnThenParse(Model(), buf.Contents());
        ok, hasMore := ParseTurn(buf);
      }
    }

    /** A read takes a chunk in and, unless the request is complete or broken, parses. */
    method ReadAndParse(buf: Buffer, chunk: Bytes, ok: bool) returns (still: bool)
      requires buf.Valid() && |chunk| <= buf.Offered()
      modifies this, buf, buf.buf
      ensures buf.Valid() && (buf.buf == old(buf.buf) || fresh(buf.buf))
      ensures Session(Model(), buf.Contents(), still) ==
              old(Feed(Session(Model(), buf.Contents(), ok), Received(chunk, buf.WritableBytes())))
    {
      ghost var before, w := buf.Contents(), buf.WritableBytes();
      buf.ReadFd(chunk, |chunk|);
      assert chunk[..|chunk|] == chunk;
      assert |chunk| > w ==> before + chunk[..w] + Strncpy(chunk[w..]) == before + Received(chunk, w);
      still := ok;
      if ok && (state_ == ExpectRequestLine || state_ == ExpectHeaders) {
        still := ParseRequest(buf);
      }
    }

    /** The next read of a stream, of at most `size` bytes. */
    method ReadSome(buf: Buffer, stream: Bytes, size: nat, ok: bool)
      returns (n: nat, still: bool, ghost got: Bytes, ghost clean: bool)
      requires buf.Valid()
      modifies this, buf, buf.buf
      ensures buf.Valid() && (buf.buf == old(buf.buf) || fresh(buf.buf))
      ensures n <= |stream| && |got| == n
      ensures Session(Model(), buf.Contents(), still) == Feed(old(Session(Model(), buf.Contents(), ok)), got)
      ensures (clean ==> got == stream[..n]) && (NulFree(stream) ==> clean)
    {
      n := Least(size, Least(buf.Offered(), |stream|));
      var chunk := stream[..n];
      got, clean := Received(chunk, buf.WritableBytes()), NulFree(Overflow(chunk, buf.WritableBytes()));
      ReceivedIntact(chunk, buf.WritableBytes());
      still := ReadAndParse(buf, chunk, ok);
    }

    /** A connection reads a stream in reads of any sizes and parses after each: the outcome is that of
        parsing what was received all at once, and that is the stream itself if the parts that went
        through the overflow array hold no NUL, however many there are in the others. */
    method ParseStream(buf: Buffer, stream: Bytes, sizes: seq<nat>)
      returns (ok: bool, ghost read: nat, ghost received: Bytes, ghost intact: bool)
      requires buf.Valid() && Parsing(Model()) && buf.Contents() == []
      modifies this, buf, buf.buf
      ensures buf.Valid() && read <= |stream| && |received| == read
      ensures Session(Model(), buf.Contents(), ok) == Feed(Session(old(Model()), [], true), received)
      ensures (intact ==> received == stream[..read]) && (NulFree(stream) ==> intact)
    {
      ghost var s0 := Session(Model(), [], true);
      var rest := stream;
      ok, read, received, intact := true, 0, [], true;
      FeedNothing(s0);
      for i := 0 to |sizes|
        invariant buf.Valid() && (buf.buf == old(buf.buf) || fresh(buf.buf))
        invariant read <= |stream| && |received| == read && rest == stream[read..]
        invariant Session(Model(), buf.Contents(), ok) == Feed(s0, received)
        invariant (intact ==> received == stream[..read]) && (NulFree(stream) ==> intact)
      {
        ghost var got, clean;
        var n;
        n, ok, got, clean := ReadSome(buf, rest, sizes[i], ok);
        FeedTwice(s0, received, got);
        NextPart(stream, read, n);
        received, intact := received + got, intact && clean;
        rest, read := rest[n..], read + n;
      }
    }
  }

  lemma FeedNothing(s: Session)
    requires Open(s) && s.unread == []
    ensures Feed(s, []) == s
  {
    assert FirstCrlf([]) == -1;
  }

  lemma NextPart(stream: Bytes, read: nat, n: nat)
    requires read + n <= |stream|
    ensures stream[..read] + stream[read..][..n] == stream[..read + n] && stream[read..][n..] == stream[read + n..]
    ensures NulFree(stream) ==> NulFree(stream[read..])
  {
  }

  function Least(a: nat, b: nat): nat {
    if a < b then a else b
  }

  /** What of a chunk goes through the overflow array when w bytes are writable. */
  function Overflow(chunk: Bytes, w: nat): Bytes {
    if |chunk| > w then chunk[w..] else []
  }

  /** What is in the buffer of a chunk that has been read. */
  function Received(chunk: Bytes, w: nat): Bytes {
    if |chunk| > w then chunk[..w] + Strncpy(chunk[w..]) else chunk
  }

  lemma ReceivedIntact(chunk: Bytes, w: nat)
    ensures |Received(chunk, w)| == |chunk|
    ensures NulFree(Overflow(chunk, w)) ==> Received(chunk, w) == chunk
    ensures NulFree(chunk) ==> NulFree(Overflow(chunk, w))
  {
    if |chunk| > w {
      StrncpyFaithfulIff(chunk[w..]);
      assert chunk[..w] + chunk[w..] == chunk;
    }
  }
}
