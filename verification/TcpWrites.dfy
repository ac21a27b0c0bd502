/** How the output queue drains, and what closing by force stops. */
module TcpWrites {
  import opened Outcomes
  import opened ByteBuffer
  import opened TcpSpec
  import opened TcpProofs

  /** How many bytes a write took. */
  function Got(w: Written): nat {
    if w.Took? then w.n else 0
  }

  function Total(ws: seq<Written>): nat {
    if ws == [] then 0 else Got(ws[0]) + Total(ws[1..])
  }

  /** One writable event for each of these results of the write call. */
  function Writes(ws: seq<Written>): seq<Event> {
    if ws == [] then [] else [HandleWrite(ws[0])] + Writes(ws[1..])
  }

  /** What the socket has got and is still to get. */
  function Stream(c: Conn): Bytes {
    OnSocket(c.wire) + c.output
  }

  /** d has n bytes fewer to write than c, and is the same otherwise. */
  ghost predicate Ahead(c: Conn, n: nat, d: Conn) {
    Stream(d) == Stream(c) && |d.output| + n == |c.output| && d.state == c.state && d.asked == c.asked
  }

  /** c after its first n queued bytes have been written. */
  ghost predicate Drained(c: Conn, n: nat, d: Conn)
    requires n <= |c.output|
  {
    && d.output == c.output[n..] && OnSocket(d.wire) == OnSocket(c.wire) + c.output[..n]
    && d.state == c.state && d.asked == c.asked
  }

  lemma Cut(a: Bytes, x: Bytes, b: Bytes, y: Bytes, n: nat)
    requires a + x == b + y && |y| + n == |x|
    ensures b == a + x[..n] && y == x[n..]
  {
    assert b == (b + y)[..|b|] == (a + x)[..|a| + n];
    assert y == (b + y)[|b|..] == (a + x)[|a| + n..];
  }

  lemma AheadIsDrained(c: Conn, n: nat, d: Conn)
    requires Ahead(c, n, d)
    ensures Drained(c, n, d)
  {
    Cut(OnSocket(c.wire), c.output, OnSocket(d.wire), d.output, n);
  }

  lemma WriteReaches(wire: seq<Wire>, output: Bytes, n: nat)
    requires n <= |output|
    ensures var sent := wire + [Sent(output[..n])];
      && OnSocket(sent) + output[n..] == OnSocket(wire) + output
      && OnSocket(sent + [ShutWr]) + output[n..] == OnSocket(wire) + output
  {
    var bytes, rest := output[..n], output[n..];
    OnSocketSnoc(wire, Sent(bytes));
    OnSocketSnoc(wire + [Sent(bytes)], ShutWr);
    assert OnSocket(wire + [Sent(bytes)] + [ShutWr]) == OnSocket(wire + [Sent(bytes)]);
    Reassociate(OnSocket(wire), bytes, rest);
    assert bytes + rest == output;
  }

  lemma WriteShape(c: Conn, n: nat)
    requires 0 < n <= |c.output| && c.writing
    ensures var d, sent := HandleWriteStep(c, Took(n)), c.wire + [Sent(c.output[..n])];
      && (d.wire == sent || d.wire == sent + [ShutWr]) && d.output == c.output[n..]
      && d.state == c.state && d.asked == c.asked
  {
  }

  lemma WriteDrains(c: Conn, w: Written) returns (d: Conn)
    requires ConnInv(c) && Enabled(c, HandleWrite(w))
    ensures Apply(c, HandleWrite(w)) == Fine(d) && ConnInv(d) && Ahead(c, Got(w), d)
  {
    d := HandleWriteStep(c, w);
    StepKeepsConn(c, HandleWrite(w));
    if Got(w) > 0 {
      WriteShape(c, w.n);
      WriteReaches(c.wire, c.output, w.n);
    }
  }

  lemma FirstWrite(c: Conn, ws: seq<Written>, d: Conn)
    requires ws != [] && Enabled(c, HandleWrite(ws[0])) && Apply(c, HandleWrite(ws[0])) == Fine(d)
    requires Legal(d, Writes(ws[1..]))
    ensures Legal(c, Writes(ws)) && Exec(c, Writes(ws)) == Exec(d, Writes(ws[1..]))
  {
    assert Writes(ws)[0] == HandleWrite(ws[0]) && Writes(ws)[1..] == Writes(ws[1..]);
  }

  lemma {:induction false} WritesLead(c: Conn, ws: seq<Written>) returns (e: Conn)
    requires ConnInv(c) && Total(ws) <= |c.output|
    ensures Legal(c, Writes(ws)) && Exec(c, Writes(ws)) == Fine(e)
    ensures ConnInv(e) && Ahead(c, Total(ws), e)
    decreases |ws|
  {
    if ws == [] {
      e := c;
    } else {
      var d := WriteDrains(c, ws[0]);
      e := WritesLead(d, ws[1..]);
      FirstWrite(c, ws, d);
    }
  }

  /** In either active state, whatever the writes of a run of writable events take, failed ones included:
      the socket has grown by exactly those bytes from the front of the queue, and the connection goes
      on watching for writability iff some are left. So writes that add up to the queue empty it. */
  lemma WritesDrain(c: Conn, ws: seq<Written>)
    requires ConnInv(c) && Total(ws) <= |c.output|
    ensures Legal(c, Writes(ws)) && Exec(c, Writes(ws)).Fine?
    ensures var d := Exec(c, Writes(ws)).value;
      && Drained(c, Total(ws), d) && ConnInv(d)
      && (d.writing <==> Total(ws) < |c.output|)
  {
    var d := WritesLead(c, ws);
    AheadIsDrained(c, Total(ws), d);
  }

  /** A message taken over by a write that took part of it is on the socket once the rest is drained. */
  lemma MessageArrives(c: Conn, data: Bytes, n: nat, ws: seq<Written>)
    requires ConnInv(c) && c.state == Connected && c.output == [] && NulFree(data)
    requires n <= |data| && Total(ws) == |data| - n
    ensures var d := SendStep(c, data, Took(n));
      && Legal(d, Writes(ws)) && Exec(d, Writes(ws)).Fine?
      && OnSocket(Exec(d, Writes(ws)).value.wire) == OnSocket(c.wire) + data
      && Exec(d, Writes(ws)).value.output == [] && !Exec(d, Writes(ws)).value.writing
  {
    var d := SendStep(c, data, Took(n));
    StepKeepsConn(c, Send(data, Took(n)));
    SendDelivers(c, data, n);
    DeliveredFaithfulIff(data, n);
    WritesDrain(d, ws);
    assert d.output[|d.output|..] == [] && d.output[..|d.output|] == d.output;
  }

  /** After forceClose() or shutdown() no message is taken over until the connection is used again. */
  lemma {:induction false} ClosedTakesNothing(c: Conn, es: seq<Event>)
    requires ConnInv(c) && c.state != Connected && Legal(c, es) && Open !in es
    ensures Exec(c, es).Fine? && Exec(c, es).value.asked == c.asked && Exec(c, es).value.state != Connected
    decreases |es|
  {
    if es != [] {
      assert es[0] in es;
      StepKeepsConn(c, es[0]);
      ClosedTakesNothing(Apply(c, es[0]).value, es[1..]);
    }
  }

  lemma ForceCloseStops(c: Conn, es: seq<Event>)
    requires ConnInv(c) && Active(c) && Legal(ForceCloseStep(c), es) && Open !in es
    ensures ForceCloseStep(c).state == Disconnecting && ForceCloseStep(c).output == c.output
    ensures Exec(ForceCloseStep(c), es).Fine? && Exec(ForceCloseStep(c), es).value.asked == c.asked
  {
    ClosedTakesNothing(ForceCloseStep(c), es);
  }
}
