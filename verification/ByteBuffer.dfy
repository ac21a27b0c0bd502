/** The growable byte buffer in place, and the plain byte queue it stands for. One `char` is one
    byte; positions inside the buffer are counted from its first readable byte. */
module ByteBuffer {

  const INITIAL_SIZE: nat := 1024
  const MAX_PREALLOC: nat := 65536
  const EXTRA_SIZE: nat := 65536

  type Bytes = seq<char>

  // ---- searching ----

  predicate CrlfAt(s: Bytes, i: int) {
    0 <= i && i + 1 < |s| && s[i] == '\r' && s[i + 1] == '\n'
  }

  /** Position of the first CR LF pair, or -1. */
  function FirstCrlf(s: Bytes): (k: int)
    ensures k == -1 || CrlfAt(s, k)
    ensures forall i :: CrlfAt(s, i) ==> 0 <= k <= i
  {
    if CrlfAt(s, 0) then 0
    else if |s| < 2 then -1
    else
      var k := FirstCrlf(s[1..]);
      assert forall i :: CrlfAt(s, i) ==> CrlfAt(s[1..], i - 1);
      if k < 0 then -1 else k + 1
  }

  // ---- strncpy ----

  function Zeros(n: nat): Bytes {
    seq(n, _ => '\0')
  }

  /** What strncpy leaves of |data| bytes: everything from the first NUL on becomes NUL. */
  function Strncpy(data: Bytes): (r: Bytes)
    ensures |r| == |data|
  {
    if data == [] then []
    else if data[0] == '\0' then Zeros(|data|)
    else [data[0]] + Strncpy(data[1..])
  }

  ghost predicate NulFree(data: Bytes) {
    forall i :: 0 <= i < |data| ==> data[i] != '\0'
  }

  ghost predicate NulsLast(data: Bytes) {
    forall i, j :: 0 <= i < j < |data| && data[i] == '\0' ==> data[j] == '\0'
  }

  lemma NulsLastTail(data: Bytes)
    requires data != [] && data[0] != '\0'
    ensures NulsLast(data) <==> NulsLast(data[1..])
  {
    var rest := data[1..];
    if NulsLast(rest) {
      forall i, j | 0 <= i < j < |data| && data[i] == '\0' ensures data[j] == '\0' {
        assert rest[i - 1] == '\0' && rest[j - 1] == data[j];
      }
    }
  }

  /** Exactly the data without a byte after a NUL, other than NULs, survive the copy. */
  lemma {:induction false} StrncpyFaithfulIff(data: Bytes)
    ensures Strncpy(data) == data <==> NulsLast(data)
    ensures NulFree(data) ==> Strncpy(data) == data
    decreases |data|
  {
    if data != [] {
      if data[0] == '\0' {
        assert NulsLast(data) ==> data == Zeros(|data|);
      } else {
        NulsLastTail(data);
        StrncpyFaithfulIff(data[1..]);
        assert data == [data[0]] + data[1..];
        assert Strncpy(data)[1..] == Strncpy(data[1..]);
      }
    }
  }

  lemma {:induction false} StrncpyBytes(data: Bytes, n: nat)
    requires n <= |data| && NulFree(data[..n]) && (n == |data| || data[n] == '\0')
    ensures Strncpy(data) == data[..n] + Zeros(|data| - n)
    decreases n
  {
    if n > 0 {
      assert data[..n][0] == data[0];
      assert data[1..][..n - 1] == data[..n][1..];
      StrncpyBytes(data[1..], n - 1);
    }
  }

  class Buffer {
    var buf: array<char>
    var readerIndex: nat
    var writerIndex: nat
    var len: nat
    var free: nat

    ghost predicate Valid()
      reads this
    {
      readerIndex <= writerIndex <= len <= buf.Length
    }

    ghost function Contents(): Bytes
      reads this, buf
      requires Valid()
    {
      buf[readerIndex..writerIndex]
    }

    /** The size given must be the default one, as the constructor's own assertion demands. */
    constructor (initialSize: nat)
      requires initialSize == INITIAL_SIZE
      ensures Valid() && fresh(buf) && Contents() == []
    {
      buf := new char[initialSize];
      readerIndex, writerIndex, len, free := 0, 0, INITIAL_SIZE, 0;
    }

    function ReadableBytes(): nat
      reads this
      requires Valid()
    {
      writerIndex - readerIndex
    }

    function WritableBytes(): nat
      reads this
      requires Valid()
    {
      len - writerIndex
    }

    /** The first CR LF of the contents, or -1. */
    method FindCRLF() returns (crlf: int)
      requires Valid()
      ensures crlf == FirstCrlf(Contents())
    {
      crlf := 0;
      while crlf + 1 < ReadableBytes()
        invariant 0 <= crlf
        invariant forall i :: 0 <= i < crlf ==> !CrlfAt(Contents(), i)
      {
        if buf[readerIndex + crlf] == '\r' && buf[readerIndex + crlf + 1] == '\n' {
          assert CrlfAt(Contents(), crlf);
          return;
        }
        crlf := crlf + 1;
      }
      crlf := -1;
    }

    method RetrieveAll()
      requires Valid()
      modifies this`readerIndex, this`writerIndex
      ensures Valid() && Contents() == []
    {
      readerIndex, writerIndex := 0, 0;
    }

    method Retrieve(n: nat)
      requires Valid() && n <= |Contents()|
      modifies this`readerIndex, this`writerIndex
      ensures Valid() && Contents() == old(Contents())[n..]
    {
      if n < ReadableBytes() {
        readerIndex := readerIndex + n;
      } else {
        RetrieveAll();
      }
    }

    /** Growth keeps the contents and the bytes already consumed; only the capacity changes. */
    method MakeSpace(n: nat)
      requires Valid()
      modifies this`buf, this`len, this`free
      ensures Valid() && fresh(buf) && Contents() == old(Contents())
      ensures WritableBytes() == n && free == buf.Length - len
      ensures len == old(writerIndex) + n && free == if len < 65536 then len else 65536
    {
      var newlen := writerIndex + n;
      len := newlen;
      if newlen < MAX_PREALLOC {
        newlen := newlen * 2;
      } else {
        newlen := newlen + MAX_PREALLOC;
      }
      var a := new char[newlen];
      forall i | 0 <= i < newlen && i < buf.Length {
        a[i] := buf[i];
      }
      buf := a;
      free := newlen - len;
    }

    method EnsureWritableBytes(n: nat)
      requires Valid()
      modifies this`buf, this`len, this`free
      ensures Valid() && Contents() == old(Contents()) && WritableBytes() >= n
      ensures buf == old(buf) || fresh(buf)
    {
      if WritableBytes() < n {
        MakeSpace(n);
      }
    }

    method CopyToNul(data: Bytes) returns (n: nat)
      requires Valid() && |data| <= WritableBytes()
      modifies buf
      ensures n <= |data| && NulFree(data[..n]) && (n == |data| || data[n] == '\0')
      ensures buf[..writerIndex + n] == old(buf[..writerIndex]) + data[..n]
    {
      n := 0;
      while n < |data| && data[n] != '\0'
        invariant 0 <= n <= |data| && NulFree(data[..n])
        invariant buf[..writerIndex + n] == old(buf[..writerIndex]) + data[..n]
      {
        buf[writerIndex + n] := data[n];
        assert buf[..writerIndex + n + 1] == buf[..writerIndex + n] + [data[n]];
        assert data[..n + 1] == data[..n] + [data[n]];
        n := n + 1;
      }
    }

    method ZeroFill(start: nat, end: nat)
      requires start <= end <= buf.Length
      modifies buf
      ensures buf[..end] == old(buf[..start]) + Zeros(end - start)
    {
      var i := start;
      while i < end
        invariant start <= i <= end
        invariant buf[..i] == old(buf[..start]) + Zeros(i - start)
      {
        buf[i] := '\0';
        assert buf[..i + 1] == buf[..i] + ['\0'];
        i := i + 1;
      }
    }

    /** strncpy of all of data behind the contents. */
    method CopyBehind(data: Bytes)
      requires Valid() && |data| <= WritableBytes()
      modifies buf
      ensures buf[..writerIndex + |data|] == old(buf[..writerIndex]) + Strncpy(data)
    {
      var n := CopyToNul(data);
      StrncpyBytes(data, n);
      ZeroFill(writerIndex + n, writerIndex + |data|);
    }

    method Append(data: Bytes)
      requires Valid()
      modifies this, buf
      ensures Valid() && Contents() == old(Contents()) + Strncpy(data)
      ensures readerIndex == old(readerIndex)
      ensures buf == old(buf) || fresh(buf)
    {
      EnsureWritableBytes(|data|);
      CopyBehind(data);
      ghost var w := writerIndex;
      writerIndex := writerIndex + |data|;
      assert Contents() == buf[..writerIndex][readerIndex..];
      assert old(Contents()) == buf[..w][readerIndex..];
    }

    /** How much one readv can take in: the writable tail and, if that is small, the extra array. */
    function Offered(): nat
      reads this
      requires Valid()
    {
      if WritableBytes() < EXTRA_SIZE then WritableBytes() + EXTRA_SIZE else WritableBytes()
    }

    /** The kernel delivers n bytes of the stream, or reports an error (n < 0). The part that fits
        behind the contents arrives as it is, the rest through strncpy. */
    method ReadFd(stream: Bytes, n: int)
      requires Valid() && n <= |stream| && n <= Offered()
      modifies this, buf
      ensures Valid() && (buf == old(buf) || fresh(buf))
      ensures n < 0 ==> Contents() == old(Contents())
      ensures var w := old(WritableBytes());
        && (0 <= n <= w ==> Contents() == old(Contents()) + stream[..n])
        && (n > w ==> Contents() == old(Contents()) + stream[..w] + Strncpy(stream[w..n]))
    {
      if n < 0 {
        return;
      }
      var writable := WritableBytes();
      var direct := if n < writable then n else writable;
      Scatter(stream, direct);
      ghost var before := old(Contents());
      if n <= writable {
        writerIndex := writerIndex + n;
        assert Contents() == before + stream[..n];
      } else {
        writerIndex := len;
        assert Contents() == before + stream[..writable];
        Append(stream[writable..n]);
      }
    }

    /** The first vector element of readv: bytes written straight behind the contents. */
    method Scatter(stream: Bytes, n: nat)
      requires Valid() && n <= |stream| && n <= WritableBytes()
      modifies buf
      ensures forall i :: 0 <= i < writerIndex ==> buf[i] == old(buf[i])
      ensures forall i :: 0 <= i < n ==> buf[writerIndex + i] == stream[i]
    {
      forall i | 0 <= i < n {
        buf[writerIndex + i] := stream[i];
      }
    }
  }

  /** For NUL-free bytes one read is a plain append, wherever the split falls. */
  lemma ReadIsAppend(before: Bytes, stream: Bytes, w: nat, n: nat)
    requires w <= n <= |stream| && NulFree(stream[w..n])
    ensures before + stream[..w] + Strncpy(stream[w..n]) == before + stream[..n]
  {
    StrncpyFaithfulIff(stream[w..n]);
    assert stream[..n] == stream[..w] + stream[w..n];
  }
}
