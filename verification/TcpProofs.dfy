/** What holds of a connection in every run of its handlers. */
module TcpProofs {
  import opened Outcomes
  import opened ByteBuffer
  import opened TcpSpec

  /** SHUT_WR is the last thing on the wire: it happens at most once and nothing follows it. */
  ghost predicate ShutLast(wire: seq<Wire>) {
    forall i :: 0 <= i < |wire| && wire[i].ShutWr? ==> i == |wire| - 1
  }

  predicate Shut(c: Conn) {
    c.wire != [] && c.wire[|c.wire| - 1].ShutWr?
  }

  ghost predicate ConnInv(c: Conn) {
    && c.state != Disconnected
    && (c.writing <==> c.output != [])
    && (!Active(c) ==> c.output == [])
    && (Shut(c) ==> c.output == [])
  }

  /** SHUT_WR has been issued at most once, nothing has followed it, and nothing will. */
  ghost predicate ShutOnce(c: Conn) {
    ShutLast(c.wire) && (Active(c) && Shut(c) ==> c.state == Disconnecting)
  }

  /** Everything taken over is on the socket or queued, in order. */
  ghost predicate InOrder(c: Conn) {
    Active(c) ==> OnSocket(c.wire) + c.output == c.asked
  }

  lemma OnSocketSnoc(wire: seq<Wire>, w: Wire)
    ensures OnSocket(wire + [w]) == OnSocket(wire) + if w.Sent? then w.bytes else []
  {
    assert (wire + [w])[..|wire|] == wire;
  }

  lemma StepKeepsConn(c: Conn, e: Event)
    requires ConnInv(c) && Enabled(c, e)
    ensures Apply(c, e).Fine? && ConnInv(Apply(c, e).value)
  {
  }

  lemma SameTail(front: Bytes, x: Bytes, y: Bytes)
    ensures front + x == front + y <==> x == y
  {
    assert (front + x)[|front|..] == x && (front + y)[|front|..] == y;
  }

  lemma Reassociate(a: Bytes, b: Bytes, c: Bytes)
    ensures (a + b) + c == a + (b + c)
  {
  }

  /** What a successful direct write adds to the socket and the queue together. */
  function Delivered(data: Bytes, n: nat): Bytes
    requires n <= |data|
  {
    data[..n] + Strncpy(data[n..])
  }

  lemma DeliveredFaithfulIff(data: Bytes, n: nat)
    requires n <= |data|
    ensures Delivered(data, n) == data <==> NulsLast(data[n..])
    ensures NulFree(data) ==> Delivered(data, n) == data
  {
    assert data == data[..n] + data[n..];
    SameTail(data[..n], Strncpy(data[n..]), data[n..]);
    StrncpyFaithfulIff(data[n..]);
  }

  lemma SendDelivers(c: Conn, data: Bytes, n: nat)
    requires ConnInv(c) && c.state == Connected && c.output == [] && n <= |data|
    ensures var d := SendStep(c, data, Took(n));
      d.asked == c.asked + data && OnSocket(d.wire) + d.output == OnSocket(c.wire) + Delivered(data, n)
  {
    OnSocketSnoc(c.wire, Sent(data[..n]));
    Reassociate(OnSocket(c.wire), data[..n], Strncpy(data[n..]));
    if n == |data| { assert Strncpy(data[n..]) == []; }
  }

  lemma SendKeepsOrder(c: Conn, data: Bytes, result: Written)
    requires ConnInv(c) && InOrder(c) && Enabled(c, Send(data, result)) && NulFree(data)
    ensures InOrder(SendStep(c, data, result))
  {
    if c.state == Connected && c.output == [] && result.Took? {
      SendDelivers(c, data, result.n);
      DeliveredFaithfulIff(data, result.n);
    }
  }

  lemma HandleWriteKeepsOrder(c: Conn, result: Written)
    requires InOrder(c) && Enabled(c, HandleWrite(result))
    ensures InOrder(HandleWriteStep(c, result))
  {
    if c.writing && result.Took? && result.n > 0 {
      var n := result.n;
      OnSocketSnoc(c.wire, Sent(c.output[..n]));
      assert c.output == c.output[..n] + c.output[n..];
      OnSocketSnoc(c.wire + [Sent(c.output[..n])], ShutWr);
    }
  }

  lemma StepKeepsOrder(c: Conn, e: Event)
    requires ConnInv(c) && InOrder(c) && Enabled(c, e) && (e.Send? ==> NulFree(e.data))
    ensures Apply(c, e).Fine? && InOrder(Apply(c, e).value)
  {
    OnSocketSnoc(c.wire, ShutWr);
    match e
    case Send(data, result) => SendKeepsOrder(c, data, result);
    case HandleWrite(result) => HandleWriteKeepsOrder(c, result);
    case _ =>
  }

  /** In every run of opens, sends, writes, shutdowns on any thread and closes: interest in
      writability means something is queued, and SHUT_WR is issued with nothing queued. */
  lemma {:induction false} RunKeepsConn(c: Conn, es: seq<Event>)
    requires ConnInv(c) && Legal(c, es)
    ensures Exec(c, es).Fine? && ConnInv(Exec(c, es).value)
    decreases |es|
  {
    if es != [] {
      StepKeepsConn(c, es[0]);
      RunKeepsConn(Apply(c, es[0]).value, es[1..]);
    }
  }

  /** With NUL-free messages the socket and the queue always add up to what was taken over. */
  lemma {:induction false} RunKeepsOrder(c: Conn, es: seq<Event>)
    requires ConnInv(c) && InOrder(c) && Legal(c, es) && forall e <- es :: e.Send? ==> NulFree(e.data)
    ensures Exec(c, es).Fine? && InOrder(Exec(c, es).value)
    decreases |es|
  {
    if es != [] {
      StepKeepsConn(c, es[0]);
      assert es[0] in es;
      StepKeepsOrder(c, es[0]);
      RunKeepsOrder(Apply(c, es[0]).value, es[1..]);
    }
  }

  /** A message is taken over whole iff the connection is open with nothing queued, the direct
      write does not fail, and what the write leaves over survives strncpy. */
  lemma MessageTakenIff(c: Conn, data: Bytes, result: Written)
    requires ConnInv(c) && Active(c) && Enabled(c, Send(data, result)) && data != []
    ensures var d := SendStep(c, data, result);
      OnSocket(d.wire) + d.output == OnSocket(c.wire) + c.output + data
      <==> c.state == Connected && c.output == [] && result.Took? && NulsLast(data[result.n..])
  {
    var before := OnSocket(c.wire) + c.output;
    if c.state == Connected && c.output == [] && result.Took? {
      SendDelivers(c, data, result.n);
      DeliveredFaithfulIff(data, result.n);
      SameTail(before, Delivered(data, result.n), data);
    } else {
      assert |before + data| > |before|;
    }
  }

  /** Late events find a free connection deaf: nothing but Open touches it. */
  lemma FreeIgnores(c: Conn, e: Event)
    requires ConnInv(c) && !Active(c) && Enabled(c, e) && !e.Open?
    ensures Apply(c, e) == Fine(c.(owed := if e.LateShutdown? then c.owed - 1 else c.owed))
  {
  }

  /** SHUT_WR comes exactly when a connection leaving KConnected has nothing queued: at once ... */
  lemma ShutdownShutsIff(c: Conn)
    requires ConnInv(c) && c.state == Connected
    ensures ShutdownStep(c).state == Disconnecting
    ensures Shut(ShutdownStep(c)) <==> c.output == []
  {
  }

  /** ... or with the write that empties the queue. */
  lemma DrainingShutsIff(c: Conn, result: Written)
    requires ConnInv(c) && Active(c) && Enabled(c, HandleWrite(result)) && c.output != []
    ensures Shut(HandleWriteStep(c, result)) <==>
            c.state == Disconnecting && result.Took? && result.n == |c.output|
  {
    if result.Took? && result.n > 0 { assert c.output[|c.output|..] == []; }
  }
}
