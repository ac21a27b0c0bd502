/** When SHUT_WR is issued once and ends the wire, with shutdown() called on any thread. */
module TcpShutdown {
  import opened Outcomes
  import opened ByteBuffer
  import opened TcpSpec
  import opened TcpProofs

  lemma StepKeepsShut(c: Conn, e: Event)
    requires ConnInv(c) && ShutOnce(c) && Enabled(c, e) && !e.LateShutdown?
    ensures Apply(c, e).Fine? && ShutOnce(Apply(c, e).value)
  {
  }

  /** A second half that comes now finds the connection closed, or bytes queued, or itself awaited. */
  predicate Harmless(c: Conn) {
    !Active(c) || c.output != [] || (c.state == Disconnecting && !Shut(c))
  }

  /** In any state, that of a recycled connection included, a second half is safe iff it is harmless. */
  lemma LateShutdownIff(c: Conn)
    requires ConnInv(c) && ShutOnce(c) && c.owed > 0
    ensures ShutOnce(LateShutdownStep(c)) <==> Harmless(c)
  {
    if Active(c) && c.output == [] && Shut(c) {
      assert LateShutdownStep(c).wire[|c.wire| - 1].ShutWr?;
    }
  }

  // ---- whole runs ----

  ghost predicate AlwaysShutOnce(c: Conn, es: seq<Event>)
    requires Legal(c, es)
    decreases |es|
  {
    ShutOnce(c) && (es != [] && Apply(c, es[0]).Fine? ==> AlwaysShutOnce(Apply(c, es[0]).value, es[1..]))
  }

  predicate AllHarmless(c: Conn, es: seq<Event>)
    requires Legal(c, es)
    decreases |es|
  {
    es == [] ||
    ((es[0].LateShutdown? ==> Harmless(c)) &&
     (Apply(c, es[0]).Fine? ==> AllHarmless(Apply(c, es[0]).value, es[1..])))
  }

  /** At every moment of a run SHUT_WR is single and last iff every queued half was harmless when it came. */
  lemma {:induction false} AlwaysShutOnceIff(c: Conn, es: seq<Event>)
    requires ConnInv(c) && ShutOnce(c) && Legal(c, es)
    ensures AlwaysShutOnce(c, es) <==> AllHarmless(c, es)
    decreases |es|
  {
    if es != [] {
      var d := Apply(c, es[0]).value;
      StepKeepsConn(c, es[0]);
      if es[0].LateShutdown? { LateShutdownIff(c); } else { StepKeepsShut(c, es[0]); }
      if ShutOnce(d) {
        AlwaysShutOnceIff(d, es[1..]);
      } else {
        assert !AlwaysShutOnce(d, es[1..]);
      }
    }
  }

  /** So it always is when shutdown() is called on the loop thread only. */
  lemma {:induction false} LoopThreadShutsOnce(c: Conn, es: seq<Event>)
    requires ConnInv(c) && ShutOnce(c) && c.owed == 0 && Legal(c, es) && BeginShutdown !in es
    ensures AlwaysShutOnce(c, es) && Exec(c, es).Fine? && ShutOnce(Exec(c, es).value)
    decreases |es|
  {
    if es != [] {
      assert es[0] in es;
      StepKeepsConn(c, es[0]);
      StepKeepsShut(c, es[0]);
      assert Apply(c, es[0]).value.owed == 0;
      LoopThreadShutsOnce(Apply(c, es[0]).value, es[1..]);
    }
  }

  // ---- one shutdown() on another thread ----

  /** Between the two halves, the connection staying open. */
  predicate Between(e: Event) {
    !e.Open? && !e.HandleClose? && !e.ForceCloseInLoop? && !e.LateShutdown?
  }

  /** What holds between the halves; `queued` says whether bytes were queued at the call. */
  ghost predicate Halfway(queued: bool, d: Conn) {
    && ConnInv(d) && ShutOnce(d) && d.state == Disconnecting && d.owed > 0
    && (Shut(d) <==> queued && d.output == []) && (!queued ==> d.output == [])
  }

  lemma StepKeepsHalfway(queued: bool, d: Conn, e: Event)
    requires Halfway(queued, d) && Enabled(d, e) && Between(e)
    ensures Apply(d, e).Fine? && Halfway(queued, Apply(d, e).value)
  {
    StepKeepsConn(d, e);
    StepKeepsShut(d, e);
  }

  lemma {:induction false} RunKeepsHalfway(queued: bool, d: Conn, es: seq<Event>)
    requires Halfway(queued, d) && Legal(d, es) && forall e <- es :: Between(e)
    ensures Exec(d, es).Fine? && Halfway(queued, Exec(d, es).value)
    decreases |es|
  {
    if es != [] {
      assert es[0] in es;
      StepKeepsHalfway(queued, d, es[0]);
      RunKeepsHalfway(queued, Apply(d, es[0]).value, es[1..]);
    }
  }

  /** Whatever happens between the halves of a shutdown() short of a close, SHUT_WR is issued twice iff
      bytes were queued at the call and have been written when the second half comes. */
  lemma ShutTwiceIff(c: Conn, es: seq<Event>)
    requires ConnInv(c) && ShutOnce(c) && c.state == Connected
    requires Legal(BeginShutdownStep(c), es) && forall e <- es :: Between(e)
    ensures Exec(BeginShutdownStep(c), es).Fine?
    ensures var d := Exec(BeginShutdownStep(c), es).value;
      && d.owed > 0 && ShutOnce(d)
      && (!ShutLast(LateShutdownStep(d).wire) <==> c.output != [] && d.output == [])
      && (ShutOnce(LateShutdownStep(d)) <==> c.output == [] || d.output != [])
  {
    RunKeepsHalfway(c.output != [], BeginShutdownStep(c), es);
    var d := Exec(BeginShutdownStep(c), es).value;
    LateShutdownIff(d);
  }

  // ---- both failures arise ----

  lemma ExecOne(c: Conn, e: Event, es: seq<Event>, d: Conn, end: Conn)
    requires Enabled(c, e) && Apply(c, e) == Fine(d) && Legal(d, es) && Exec(d, es) == Fine(end)
    ensures Legal(c, [e] + es) && Exec(c, [e] + es) == Fine(end)
  {
    assert ([e] + es)[1..] == es;
  }

  const OPENED := Conn(Connected, false, [], 0, [], [])
  const QUEUED := Conn(Connected, true, "y", 0, [Sent("x")], "xy")
  const HALFWAY := Conn(Disconnecting, true, "y", 1, [Sent("x")], "xy")
  const DRAINED := Conn(Disconnecting, false, [], 1, [Sent("x"), Sent("y"), ShutWr], "xy")
  const TWICE := Conn(Disconnecting, false, [], 0, [Sent("x"), Sent("y"), ShutWr, ShutWr], "xy")

  lemma Queues()
    ensures Enabled(OPENED, Send("xy", Took(1))) && Apply(OPENED, Send("xy", Took(1))) == Fine(QUEUED)
  {
    assert "xy"[..1] == "x" && "xy"[1..] == "y" && Strncpy("y") == "y";
    assert OPENED.wire + [Sent("x")] == QUEUED.wire && OPENED.asked + "xy" == QUEUED.asked;
  }

  lemma Drains()
    ensures Enabled(HALFWAY, HandleWrite(Took(1))) && Apply(HALFWAY, HandleWrite(Took(1))) == Fine(DRAINED)
    ensures Apply(DRAINED, LateShutdown) == Fine(TWICE)
  {
    assert "y"[..1] == "y" && "y"[1..] == [];
    assert HALFWAY.wire + [Sent("y")] + [ShutWr] == DRAINED.wire && DRAINED.wire + [ShutWr] == TWICE.wire;
  }

  /** The queue is drained between the halves: SHUT_WR twice. */
  lemma DrainedBetweenHalves()
    ensures var es := [Open, Send("xy", Took(1)), BeginShutdown, HandleWrite(Took(1)), LateShutdown];
      Legal(NEW, es) && Exec(NEW, es) == Fine(TWICE)
  {
    Queues();
    Drains();
    ExecOne(DRAINED, LateShutdown, [], TWICE, TWICE);
    ExecOne(HALFWAY, HandleWrite(Took(1)), [LateShutdown], DRAINED, TWICE);
    ExecOne(QUEUED, BeginShutdown, [HandleWrite(Took(1)), LateShutdown], HALFWAY, TWICE);
    ExecOne(OPENED, Send("xy", Took(1)), [BeginShutdown, HandleWrite(Took(1)), LateShutdown], QUEUED, TWICE);
    ExecOne(NEW, Open, [Send("xy", Took(1)), BeginShutdown, HandleWrite(Took(1)), LateShutdown], OPENED, TWICE);
  }

  /** The connection is closed and taken again between the halves: its new user's bytes follow SHUT_WR. */
  lemma RecycledBetweenHalves()
    ensures var es := [Open, BeginShutdown, HandleClose, Open, LateShutdown, Send("y", Took(1))];
      Legal(NEW, es) && Exec(NEW, es).Fine? && Exec(NEW, es).value.wire == [ShutWr, Sent("y")]
  {
    var b := Conn(Disconnecting, false, [], 1, [], []);
    var c, d := b.(state := Connecting), b.(state := Connected);
    var e, f := d.(owed := 0, wire := [ShutWr]), Conn(Connected, false, [], 0, [ShutWr, Sent("y")], "y");
    RecycledSends(e, f);
    ExecOne(e, Send("y", Took(1)), [], f, f);
    ExecOne(d, LateShutdown, [Send("y", Took(1))], e, f);
    ExecOne(c, Open, [LateShutdown, Send("y", Took(1))], d, f);
    ExecOne(b, HandleClose, [Open, LateShutdown, Send("y", Took(1))], c, f);
    ExecOne(OPENED, BeginShutdown, [HandleClose, Open, LateShutdown, Send("y", Took(1))], b, f);
    ExecOne(NEW, Open, [BeginShutdown, HandleClose, Open, LateShutdown, Send("y", Took(1))], OPENED, f);
  }

  lemma RecycledSends(e: Conn, f: Conn)
    requires e == OPENED.(wire := [ShutWr]) && f == OPENED.(wire := [ShutWr, Sent("y")], asked := "y")
    ensures Enabled(e, Send("y", Took(1))) && Apply(e, Send("y", Took(1))) == Fine(f)
    ensures LateShutdownStep(OPENED.(owed := 1)) == e
  {
    assert "y"[..1] == "y" && [] + "y" == "y";
    assert [] + [ShutWr] == e.wire && e.wire + [Sent("y")] == f.wire;
  }
}
