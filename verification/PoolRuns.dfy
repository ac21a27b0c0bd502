/** The sweep against a full scan, and what whole runs of the pool keep. */
module PoolRuns {
  import opened Outcomes
  import opened ByteBuffer
  import opened TcpSpec
  import opened TcpProofs
  import opened TcpShutdown
  import opened PoolSpec
  import opened PoolProofs

  /** A connected connection that has been silent for longer than idleSeconds. */
  predicate Expired<C>(p: Pool<C>, c: C, now: int)
    requires c in p.nodes
  {
    p.nodes[c].conn.state == Connected && Late(p.idleSeconds, p.nodes[c], now)
  }

  function Swept<C>(p: Pool<C>, c: C, now: int): Node
    requires c in p.nodes
  {
    if Expired(p, c, now) then p.nodes[c].(conn := ShutExpired(p.nodes[c].conn)) else p.nodes[c]
  }

  /** A scan without an early exit over the idle list from position k on. */
  function Scan<C(==)>(p: Pool<C>, k: nat, now: int): Pool<C>
    requires k <= |p.idle|
  {
    p.(nodes := map c | c in p.nodes :: if c in p.idle[k..] then Swept(p, c, now) else p.nodes[c])
  }

  /** A scan of all connections, active or free, for the expired ones. */
  function FullScan<C(==)>(p: Pool<C>, now: int): Pool<C> {
    p.(clock := now, nodes := map c | c in p.nodes :: Swept(p, c, now))
  }

  ghost predicate Ready<C>(p: Pool<C>, now: int) {
    NoDup(p.idle) && Sorted(p) && p.clock <= now && forall c <- p.idle :: !Linked(p.chain, c)
  }

  lemma BreakScansNone<C>(p: Pool<C>, k: nat, now: int)
    requires Ready(p, now) && k < |p.idle| && !Late(p.idleSeconds, p.nodes[p.idle[k]], now)
    ensures Scan(p, k, now) == p
  {
    forall c <- p.idle[k..] ensures !Late(p.idleSeconds, p.nodes[c], now) {
      var i :| 0 <= i < |p.idle[k..]| && p.idle[k..][i] == c;
      assert p.idle[k + i] == c;
    }
  }

  lemma ScanOneMore<C>(p: Pool<C>, k: nat, now: int)
    requires Ready(p, now) && k < |p.idle|
    ensures var c := p.idle[k];
      Scan(p.(nodes := p.nodes[c := Swept(p, c, now)]), k + 1, now).nodes == Scan(p, k, now).nodes
  {
    var c := p.idle[k];
    assert p.idle[k..] == [c] + p.idle[k + 1..];
    assert c !in p.idle[k + 1..];
  }

  /** The early exit skips nothing; the freed branch and the time-jump branch are never taken. */
  lemma {:induction false} SweepFromScans<C>(p: Pool<C>, k: nat, now: int)
    requires Ready(p, now) && k <= |p.idle|
    ensures SweepFrom(p, k, now) == Scan(p, k, now)
    decreases |p.idle| - k
  {
    if k == |p.idle| {
      assert Scan(p, k, now).nodes == p.nodes;
    } else {
      var c := p.idle[k];
      if Late(p.idleSeconds, p.nodes[c], now) {
        var q := p.(nodes := p.nodes[c := Swept(p, c, now)]);
        ScanOneMore(p, k, now);
        SweepFromScans(q, k + 1, now);
        assert p.nodes[c := p.nodes[c]] == p.nodes;
      } else {
        BreakScansNone(p, k, now);
      }
    }
  }

  lemma ReadyToSweep<C>(p: Pool<C>, now: int)
    requires PoolInv(p) && p.idleSeconds > 0 && p.clock <= now
    ensures Ready(p.(clock := now), now)
  {
  }

  lemma OthersNotExpired<C>(p: Pool<C>, now: int)
    requires PoolInv(p) && p.idleSeconds > 0
    ensures forall c <- p.nodes :: c !in p.idle ==> !Expired(p, c, now)
  {
  }

  lemma ScanIsFull<C>(p: Pool<C>, now: int)
    requires forall c <- p.nodes :: c !in p.idle ==> !Expired(p, c, now)
    ensures Scan(p.(clock := now), 0, now) == FullScan(p, now)
  {
    assert p.idle[0..] == p.idle;
    assert Scan(p.(clock := now), 0, now).nodes == FullScan(p, now).nodes;
  }

  /** With a clock that does not run backwards, a sweep is a full scan. */
  lemma SweepIsFullScan<C>(p: Pool<C>, now: int)
    requires PoolInv(p) && p.idleSeconds > 0 && p.clock <= now
    ensures SweepStep(p, now) == FullScan(p, now)
  {
    ReadyToSweep(p, now);
    SweepFromScans(p.(clock := now), 0, now);
    OthersNotExpired(p, now);
    ScanIsFull(p, now);
  }

  /** A sweep takes a connection out of KConnected iff it had been silent too long, closes its
      writing side iff nothing was queued besides, and does nothing to any other. */
  lemma SweepShutsIff<C>(p: Pool<C>, c: C, now: int)
    requires PoolInv(p) && p.idleSeconds > 0 && p.clock <= now && c in p.nodes
    ensures c in SweepStep(p, now).nodes
    ensures var d := SweepStep(p, now).nodes[c];
      && (d == p.nodes[c] <==> !Expired(p, c, now))
      && (Expired(p, c, now) ==> d.conn.state == Disconnecting)
      && (Expired(p, c, now) ==> (Shut(d.conn) <==> d.conn.output == []))
      && d.conn.output == p.nodes[c].conn.output
  {
    SweepIsFullScan(p, now);
    if Expired(p, c, now) { ShutdownShutsIff(p.nodes[c].conn); }
  }

  lemma SweepKeeps<C>(p: Pool<C>, now: int)
    requires PoolInv(p) && EnabledIn(p, Sweep(now))
    ensures PoolInv(SweepStep(p, now)) && SweepStep(p, now).nodes.Keys == p.nodes.Keys
  {
    if p.idleSeconds > 0 {
      SweepIsFullScan(p, now);
      var q := FullScan(p, now);
      assert q.nodes.Keys == p.nodes.Keys;
      assert |q.nodes| == |q.nodes.Keys| && |p.nodes| == |p.nodes.Keys|;
      forall c <- p.nodes
        ensures ConnInv(q.nodes[c].conn) && q.nodes[c].last == p.nodes[c].last
        ensures TcpSpec.Active(q.nodes[c].conn) <==> TcpSpec.Active(p.nodes[c].conn)
      {
        StepKeepsConn(p.nodes[c].conn, Event.Shutdown);
        StepKeepsConn(ShutdownStep(p.nodes[c].conn), Event.ForceClose);
      }
    }
  }

  /** No assertion fails and no connection is looked up where it is not. */
  lemma StepKeepsPool<C>(p: Pool<C>, e: PoolEvent<C>)
    requires PoolInv(p) && EnabledIn(p, e)
    ensures ApplyIn(p, e).Fine? && PoolInv(ApplyIn(p, e).value)
  {
    match e
    case Accept(made, now) => AcceptKeeps(p, made, now);
    case Touch(c, now) => TouchKeeps(p, c, now);
    case Do(c, event) => DoKeeps(p, c, event);
    case Close(c) => CloseKeeps(p, c);
    case LateForceClose(c) => if TcpSpec.Active(p.nodes[c].conn) { CloseKeeps(p, c); }
    case Sweep(now) => SweepKeeps(p, now);
  }

  lemma {:induction false} RunKeepsPool<C>(p: Pool<C>, es: seq<PoolEvent<C>>)
    requires PoolInv(p) && LegalIn(p, es)
    ensures ExecIn(p, es).Fine? && PoolInv(ExecIn(p, es).value)
    decreases |es|
  {
    if es != [] {
      StepKeepsPool(p, es[0]);
      RunKeepsPool(ApplyIn(p, es[0]).value, es[1..]);
    }
  }

  lemma {:induction false} KeysOfDistinct<C>(s: seq<C>, keys: set<C>)
    requires NoDup(s) && (forall c <- s :: c in keys) && (forall c <- keys :: c in s)
    ensures |keys| == |s|
    decreases |s|
  {
    if s != [] {
      KeysOfDistinct(s[1..], keys - {s[0]});
    } else {
      assert keys == {};
    }
  }

  lemma InitialHolds<C>(p: Pool<C>)
    requires Initial(p)
    ensures PoolInv(p)
  {
    KeysOfDistinct(p.chain, p.nodes.Keys);
    assert |p.nodes| == |p.nodes.Keys|;
  }

  /** p is what some run from a pool of free connections leads to. */
  ghost predicate Reached<C>(start: Pool<C>, es: seq<PoolEvent<C>>, p: Pool<C>) {
    Initial(start) && LegalIn(start, es) && ExecIn(start, es) == Fine(p)
  }

  lemma {:induction false} ThenIn<C>(p: Pool<C>, es: seq<PoolEvent<C>>, e: PoolEvent<C>)
    requires LegalIn(p, es) && ExecIn(p, es).Fine? && EnabledIn(ExecIn(p, es).value, e)
    ensures LegalIn(p, es + [e]) && ExecIn(p, es + [e]) == ApplyIn(ExecIn(p, es).value, e)
    decreases |es|
  {
    if es == [] {
      assert (es + [e])[1..] == [];
    } else {
      assert (es + [e])[1..] == es[1..] + [e];
      ThenIn(ApplyIn(p, es[0]).value, es[1..], e);
    }
  }

  lemma ReachedHolds<C>(start: Pool<C>, es: seq<PoolEvent<C>>, p: Pool<C>)
    requires Reached(start, es, p)
    ensures PoolInv(p)
  {
    WholeRun(start, es);
  }

  lemma Extend<C>(start: Pool<C>, es: seq<PoolEvent<C>>, p: Pool<C>, e: PoolEvent<C>)
    requires Reached(start, es, p) && EnabledIn(p, e)
    ensures ApplyIn(p, e).Fine? && Reached(start, es + [e], ApplyIn(p, e).value)
  {
    ReachedHolds(start, es, p);
    StepKeepsPool(p, e);
    ThenIn(start, es, e);
  }

  /** From initConnectionPool on. */
  lemma WholeRun<C>(p: Pool<C>, es: seq<PoolEvent<C>>)
    requires Initial(p) && LegalIn(p, es)
    ensures ExecIn(p, es).Fine? && PoolInv(ExecIn(p, es).value)
  {
    InitialHolds(p);
    RunKeepsPool(p, es);
  }

  /** Everything any active connection took over is on its socket or queued, in order. */
  ghost predicate AllInOrder<C>(p: Pool<C>) {
    forall c <- p.nodes :: InOrder(p.nodes[c].conn)
  }

  lemma AcceptKeepsOrder<C>(p: Pool<C>, made: C, now: int)
    requires PoolInv(p) && AllInOrder(p) && EnabledIn(p, Accept(made, now))
    ensures AllInOrder(AcceptStep(p, made, now))
  {
    AcceptTakesFree(p, made, now);
  }

  lemma CloseKeepsOrder<C>(p: Pool<C>, c: C)
    requires PoolInv(p) && AllInOrder(p) && EnabledIn(p, Close(c))
    ensures CloseStep(p, c).Fine? && AllInOrder(CloseStep(p, c).value)
  {
    CloseTakesActive(p, c);
  }

  lemma SweepKeepsOrder<C>(p: Pool<C>, now: int)
    requires PoolInv(p) && AllInOrder(p) && EnabledIn(p, Sweep(now))
    ensures AllInOrder(SweepStep(p, now))
  {
    if p.idleSeconds > 0 {
      SweepIsFullScan(p, now);
      forall c <- p.nodes ensures InOrder(Swept(p, c, now).conn) {
        StepKeepsConn(p.nodes[c].conn, Event.Shutdown);
        StepKeepsOrder(p.nodes[c].conn, Event.Shutdown);
      }
    }
  }

  lemma StepKeepsAllInOrder<C>(p: Pool<C>, e: PoolEvent<C>)
    requires PoolInv(p) && AllInOrder(p) && EnabledIn(p, e)
    requires e.Do? && e.event.Send? ==> NulFree(e.event.data)
    ensures ApplyIn(p, e).Fine? && AllInOrder(ApplyIn(p, e).value)
  {
    match e
    case Accept(made, now) => AcceptKeepsOrder(p, made, now);
    case Touch(c, now) => TouchKeeps(p, c, now);
    case Do(c, event) => StepKeepsOrder(p.nodes[c].conn, event);
    case Close(c) => CloseKeepsOrder(p, c);
    case LateForceClose(c) => if TcpSpec.Active(p.nodes[c].conn) { CloseKeepsOrder(p, c); }
    case Sweep(now) => SweepKeepsOrder(p, now);
  }

  /** In every run with NUL-free messages, through recycling, each socket gets what was taken over. */
  lemma {:induction false} RunKeepsAllInOrder<C>(p: Pool<C>, es: seq<PoolEvent<C>>)
    requires PoolInv(p) && AllInOrder(p) && LegalIn(p, es)
    requires forall e <- es :: e.Do? && e.event.Send? ==> NulFree(e.event.data)
    ensures ExecIn(p, es).Fine? && AllInOrder(ExecIn(p, es).value)
    decreases |es|
  {
    if es != [] {
      assert es[0] in es;
      StepKeepsPool(p, es[0]);
      StepKeepsAllInOrder(p, es[0]);
      RunKeepsAllInOrder(ApplyIn(p, es[0]).value, es[1..]);
    }
  }

  /** SHUT_WR is single and last on every socket. */
  ghost predicate AllShutOnce<C>(p: Pool<C>) {
    forall c <- p.nodes :: ShutOnce(p.nodes[c].conn)
  }

  /** A second half of shutdown() that comes in this step, if any, is harmless. */
  predicate HarmlessIn<C>(p: Pool<C>, e: PoolEvent<C>) {
    e.Do? && e.event.LateShutdown? && e.conn in p.nodes ==> Harmless(p.nodes[e.conn].conn)
  }

  predicate AllHarmlessIn<C(==)>(p: Pool<C>, es: seq<PoolEvent<C>>)
    requires LegalIn(p, es)
    decreases |es|
  {
    es == [] ||
    (HarmlessIn(p, es[0]) && (ApplyIn(p, es[0]).Fine? ==> AllHarmlessIn(ApplyIn(p, es[0]).value, es[1..])))
  }

  lemma AcceptKeepsShut<C>(p: Pool<C>, made: C, now: int)
    requires PoolInv(p) && AllShutOnce(p) && EnabledIn(p, Accept(made, now))
    ensures AllShutOnce(AcceptStep(p, made, now))
  {
    AcceptTakesFree(p, made, now);
  }

  lemma CloseKeepsShut<C>(p: Pool<C>, c: C)
    requires PoolInv(p) && AllShutOnce(p) && EnabledIn(p, Close(c))
    ensures CloseStep(p, c).Fine? && AllShutOnce(CloseStep(p, c).value)
  {
    CloseTakesActive(p, c);
  }

  lemma SweepKeepsShut<C>(p: Pool<C>, now: int)
    requires PoolInv(p) && AllShutOnce(p) && EnabledIn(p, Sweep(now))
    ensures AllShutOnce(SweepStep(p, now))
  {
    if p.idleSeconds > 0 {
      SweepIsFullScan(p, now);
      forall c <- p.nodes ensures ShutOnce(Swept(p, c, now).conn) {
        StepKeepsConn(p.nodes[c].conn, Event.Shutdown);
        StepKeepsShut(p.nodes[c].conn, Event.Shutdown);
        StepKeepsShut(ShutdownStep(p.nodes[c].conn), Event.ForceClose);
      }
    }
  }

  lemma DoKeepsShut<C>(p: Pool<C>, c: C, event: Event)
    requires PoolInv(p) && AllShutOnce(p) && EnabledIn(p, Do(c, event)) && HarmlessIn(p, Do(c, event))
    ensures ApplyIn(p, Do(c, event)).Fine? && AllShutOnce(ApplyIn(p, Do(c, event)).value)
  {
    if event.LateShutdown? {
      LateShutdownIff(p.nodes[c].conn);
    } else {
      StepKeepsShut(p.nodes[c].conn, event);
    }
  }

  lemma StepKeepsAllShut<C>(p: Pool<C>, e: PoolEvent<C>)
    requires PoolInv(p) && AllShutOnce(p) && EnabledIn(p, e) && HarmlessIn(p, e)
    ensures ApplyIn(p, e).Fine? && AllShutOnce(ApplyIn(p, e).value)
  {
    match e
    case Accept(made, now) => AcceptKeepsShut(p, made, now);
    case Touch(c, now) => TouchKeeps(p, c, now);
    case Do(c, event) => DoKeepsShut(p, c, event);
    case Close(c) => CloseKeepsShut(p, c);
    case LateForceClose(c) => if TcpSpec.Active(p.nodes[c].conn) { CloseKeepsShut(p, c); }
    case Sweep(now) => SweepKeepsShut(p, now);
  }

  /** In every run in which the queued halves of shutdown() were harmless when they came, through
      recycling and sweeps, SHUT_WR is issued at most once per incarnation and no byte follows it. */
  lemma {:induction false} RunKeepsAllShut<C>(p: Pool<C>, es: seq<PoolEvent<C>>)
    requires PoolInv(p) && AllShutOnce(p) && LegalIn(p, es) && AllHarmlessIn(p, es)
    ensures ExecIn(p, es).Fine? && AllShutOnce(ExecIn(p, es).value)
    decreases |es|
  {
    if es != [] {
      StepKeepsPool(p, es[0]);
      StepKeepsAllShut(p, es[0]);
      RunKeepsAllShut(ApplyIn(p, es[0]).value, es[1..]);
    }
  }

  /** The most connections that were active at one time. */
  function Peak<C(==)>(p: Pool<C>, es: seq<PoolEvent<C>>): nat
    requires LegalIn(p, es)
    decreases |es|
  {
    if es == [] || ApplyIn(p, es[0]).Fault? then |p.active|
    else
      var rest := Peak(ApplyIn(p, es[0]).value, es[1..]);
      if rest > |p.active| then rest else |p.active|
  }

  lemma StepGrows<C>(p: Pool<C>, e: PoolEvent<C>)
    requires PoolInv(p) && EnabledIn(p, e)
    ensures ApplyIn(p, e).Fine?
    ensures |ApplyIn(p, e).value.nodes| == if e.Accept? && p.chain == [] then |p.nodes| + 1 else |p.nodes|
  {
    if e.Accept? {
      AcceptSize(p, e.made, e.now);
    } else {
      OthersKeepKeys(p, e);
      SameSize(p, ApplyIn(p, e).value);
    }
  }

  lemma OthersKeepKeys<C>(p: Pool<C>, e: PoolEvent<C>)
    requires PoolInv(p) && EnabledIn(p, e) && !e.Accept?
    ensures ApplyIn(p, e).Fine? && ApplyIn(p, e).value.nodes.Keys == p.nodes.Keys
  {
    match e
    case Touch(c, now) => TouchKeeps(p, c, now);
    case Do(c, event) => StepKeepsConn(p.nodes[c].conn, event);
    case Close(c) => CloseTakesActive(p, c);
    case LateForceClose(c) => if TcpSpec.Active(p.nodes[c].conn) { CloseTakesActive(p, c); }
    case Sweep(now) => SweepKeeps(p, now);
  }

  lemma SameSize<C>(p: Pool<C>, q: Pool<C>)
    requires p.nodes.Keys == q.nodes.Keys
    ensures |p.nodes| == |q.nodes|
  {
    assert |p.nodes| == |p.nodes.Keys| && |q.nodes| == |q.nodes.Keys|;
  }

  /** Connections are recycled: in every run there are as many as there were at first, or as many
      as were ever active at one time. */
  lemma {:induction false} AsManyAsNeeded<C>(p: Pool<C>, es: seq<PoolEvent<C>>)
    requires PoolInv(p) && LegalIn(p, es)
    ensures ExecIn(p, es).Fine?
    ensures |ExecIn(p, es).value.nodes| == if Peak(p, es) > |p.nodes| then Peak(p, es) else |p.nodes|
    decreases |es|
  {
    if es != [] {
      StepKeepsPool(p, es[0]);
      StepGrows(p, es[0]);
      AsManyAsNeeded(ApplyIn(p, es[0]).value, es[1..]);
    }
  }

  /** Whatever the connection carried before, an accepted one starts clean, but for the second halves
      of shutdown() that are still queued for it. */
  lemma AcceptIsClean<C>(p: Pool<C>, made: C, now: int)
    requires PoolInv(p) && EnabledIn(p, Accept(made, now))
    ensures var q := AcceptStep(p, made, now);
      var c := Taken(p, made);
      && c in q.nodes && (c in p.nodes || p.chain == [])
      && q.nodes[c].conn == Conn(Connected, false, [], if c in p.nodes then p.nodes[c].conn.owed else 0, [], [])
  {
  }

  /** A forced close that comes late to a free connection changes nothing. */
  lemma LateForceCloseIff<C>(p: Pool<C>, c: C)
    requires PoolInv(p) && c in p.nodes
    ensures LateForceCloseStep(p, c) == Fine(p) <==> c in p.chain
  {
    if c in p.active { CloseKeeps(p, c); }
  }

  /** A swept connection whose forced close comes is back in the free chain, first in line. */
  lemma SweptGoesBack<C>(p: Pool<C>, c: C, now: int)
    requires PoolInv(p) && p.idleSeconds > 0 && p.clock <= now && c in p.nodes && Expired(p, c, now)
    ensures var q := SweepStep(p, now);
      && c in q.nodes && LateForceCloseStep(q, c).Fine?
      && LateForceCloseStep(q, c).value.chain == [c] + p.chain
      && c !in LateForceCloseStep(q, c).value.active
      && c !in LateForceCloseStep(q, c).value.idle
  {
    SweepKeeps(p, now);
    SweepShutsIff(p, c, now);
    SweepIsFullScan(p, now);
    CloseKeeps(SweepStep(p, now), c);
  }
}
