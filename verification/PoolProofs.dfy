/** In every run of the pool: where each connection is, what the idle list holds, and what a sweep
    shuts down. */
module PoolProofs {
  import opened TcpSpec
  import opened TcpProofs
  import opened PoolSpec

  ghost predicate NoDup<C>(s: seq<C>) {
    forall i, j :: 0 <= i < j < |s| ==> s[i] != s[j]
  }

  ghost predicate Within<C>(s: seq<C>, t: seq<C>) {
    forall c <- s :: c in t
  }

  /** Every connection is in exactly one of the free chain and the active vector, once. */
  ghost predicate Partition<C>(p: Pool<C>) {
    && NoDup(p.chain) && NoDup(p.active)
    && (forall c <- p.chain :: c !in p.active)
    && (forall c <- p.chain + p.active :: c in p.nodes)
    && (forall c <- p.nodes :: c in p.chain || c in p.active)
  }

  /** A connection is active iff its state says so; the free ones hold nothing. */
  ghost predicate States<C>(p: Pool<C>) {
    && (forall c <- p.nodes :: ConnInv(p.nodes[c].conn))
    && (forall c <- p.nodes :: TcpSpec.Active(p.nodes[c].conn) <==> c in p.active)
  }

  ghost predicate Sorted<C>(p: Pool<C>) {
    && (forall c <- p.idle :: c in p.nodes && p.nodes[c].last <= p.clock)
    && (forall i, j :: 0 <= i < j < |p.idle| ==> p.nodes[p.idle[i]].last <= p.nodes[p.idle[j]].last)
  }

  /** The idle list holds exactly the active connections, oldest first. */
  ghost predicate IdleList<C>(p: Pool<C>) {
    if p.idleSeconds <= 0 then p.idle == []
    else NoDup(p.idle) && Within(p.idle, p.active) && Within(p.active, p.idle) && Sorted(p)
  }

  ghost predicate PoolInv<C>(p: Pool<C>) {
    Partition(p) && States(p) && IdleList(p) && |p.nodes| == |p.chain| + |p.active|
  }

  lemma WithoutFacts<C>(s: seq<C>, c: C)
    requires NoDup(s) && c in s
    ensures NoDup(Without(s, c)) && c !in Without(s, c) && Within(Without(s, c), s)
    ensures forall x <- s :: x != c ==> x in Without(s, c)
  {
    var k, r := IndexOf(s, c), Without(s, c);
    forall x <- s | x != c ensures x in r {
      var i :| 0 <= i < |s| && s[i] == x;
      assert r[if i < k then i else i - 1] == x;
    }
  }

  /** Taking one out and putting it behind keeps the order, if it carries the latest time. */
  lemma WithoutSorted<C>(p: Pool<C>, c: C)
    requires Sorted(p) && c in p.idle
    ensures Sorted(p.(idle := Without(p.idle, c)))
  {
  }

  lemma BehindSorted<C>(p: Pool<C>, c: C, now: int)
    requires Sorted(p) && c in p.nodes && c !in p.idle && now >= p.clock
    ensures Sorted(p.(idle := p.idle + [c], nodes := p.nodes[c := p.nodes[c].(last := now)], clock := now))
  {
  }

  lemma SetConnKeeps<C>(p: Pool<C>, c: C, d: Conn)
    requires PoolInv(p) && c in p.nodes && ConnInv(d)
    requires TcpSpec.Active(d) <==> TcpSpec.Active(p.nodes[c].conn)
    ensures PoolInv(SetConn(p, c, d))
  {
    assert SetConn(p, c, d).nodes.Keys == p.nodes.Keys;
  }

  lemma DoKeeps<C>(p: Pool<C>, c: C, event: Event)
    requires PoolInv(p) && EnabledIn(p, Do(c, event))
    ensures ApplyIn(p, Do(c, event)).Fine? && PoolInv(ApplyIn(p, Do(c, event)).value)
  {
    StepKeepsConn(p.nodes[c].conn, event);
    SetConnKeeps(p, c, Apply(p.nodes[c].conn, event).value);
  }

  lemma TouchFinds<C>(p: Pool<C>, c: C)
    requires PoolInv(p) && c in p.nodes && TcpSpec.Active(p.nodes[c].conn) && p.idleSeconds > 0
    ensures c in p.idle
  {
  }

  lemma TouchKeeps<C>(p: Pool<C>, c: C, now: int)
    requires PoolInv(p) && EnabledIn(p, Touch(c, now))
    ensures TouchStep(p, c, now).Fine? && PoolInv(TouchStep(p, c, now).value)
  {
    if p.idleSeconds > 0 {
      TouchFinds(p, c);
      WithoutFacts(p.idle, c);
      WithoutSorted(p, c);
      BehindSorted(p.(idle := Without(p.idle, c)), c, now);
      assert TouchStep(p, c, now).value.nodes.Keys == p.nodes.Keys;
    }
  }

  lemma AcceptTakesFree<C>(p: Pool<C>, made: C, now: int)
    requires PoolInv(p) && EnabledIn(p, Accept(made, now))
    ensures var c := Taken(p, made);
      c !in p.active && c !in p.idle && (p.chain != [] ==> c in p.nodes && c !in p.chain[1..])
    ensures AcceptStep(p, made, now).nodes.Keys == p.nodes.Keys + {Taken(p, made)}
  {
  }

  lemma AcceptDistinct<C>(p: Pool<C>, made: C, now: int)
    requires PoolInv(p) && EnabledIn(p, Accept(made, now))
    ensures var q := AcceptStep(p, made, now);
      NoDup(q.chain) && NoDup(q.active) && forall c <- q.chain :: c !in q.active
  {
    AcceptTakesFree(p, made, now);
  }

  lemma AcceptCovers<C>(p: Pool<C>, made: C, now: int)
    requires PoolInv(p) && EnabledIn(p, Accept(made, now))
    ensures var q := AcceptStep(p, made, now);
      && (forall c <- q.chain + q.active :: c in q.nodes)
      && (forall c <- q.nodes :: c in q.chain || c in q.active)
  {
    AcceptTakesFree(p, made, now);
    var q := AcceptStep(p, made, now);
    forall c <- q.nodes ensures c in q.chain || c in q.active {
      assert c != Taken(p, made) ==> c in p.nodes;
    }
  }

  lemma AcceptPartition<C>(p: Pool<C>, made: C, now: int)
    requires PoolInv(p) && EnabledIn(p, Accept(made, now))
    ensures Partition(AcceptStep(p, made, now))
  {
    AcceptTakesFree(p, made, now);
    AcceptDistinct(p, made, now);
    AcceptCovers(p, made, now);
  }

  lemma AcceptStates<C>(p: Pool<C>, made: C, now: int)
    requires PoolInv(p) && EnabledIn(p, Accept(made, now))
    ensures States(AcceptStep(p, made, now))
  {
    AcceptTakesFree(p, made, now);
    var c, q := Taken(p, made), AcceptStep(p, made, now);
    assert q.active == p.active + [c];
    forall x <- q.nodes
      ensures ConnInv(q.nodes[x].conn) && (TcpSpec.Active(q.nodes[x].conn) <==> x in q.active)
    {
      assert x != c ==> q.nodes[x] == p.nodes[x];
    }
  }

  lemma InsertKeepsIdle<C>(p: Pool<C>, others: seq<C>, c: C, now: int)
    requires p.active == others + [c] && IdleList(p.(active := others))
    requires c in p.nodes && c !in p.idle && now >= p.clock
    ensures IdleList(Insert(p, c, now))
  {
    if p.idleSeconds > 0 { BehindSorted(p, c, now); }
  }

  lemma SetNodeKeepsIdle<C>(p: Pool<C>, chain: seq<C>, c: C, node: Node)
    requires IdleList(p) && c !in p.idle
    ensures IdleList(p.(chain := chain, nodes := p.nodes[c := node]))
  {
  }

  lemma AcceptIdle<C>(p: Pool<C>, made: C, now: int)
    requires PoolInv(p) && EnabledIn(p, Accept(made, now))
    ensures IdleList(AcceptStep(p, made, now))
  {
    AcceptTakesFree(p, made, now);
    var c := Taken(p, made);
    var node := if p.chain != [] then p.nodes[c] else Node(NEW, 0);
    var chain := if p.chain != [] then p.chain[1..] else [];
    var nodes := p.nodes[c := node.(conn := OpenStep(node.conn))];
    SetNodeKeepsIdle(p, chain, c, nodes[c]);
    InsertKeepsIdle(p.(chain := chain, active := p.active + [c], nodes := nodes), p.active, c, now);
  }

  lemma AcceptSize<C>(p: Pool<C>, made: C, now: int)
    requires PoolInv(p) && EnabledIn(p, Accept(made, now))
    ensures var q := AcceptStep(p, made, now);
      |q.nodes| == |q.chain| + |q.active| && |q.nodes| == |p.nodes| + if p.chain == [] then 1 else 0
  {
    AcceptTakesFree(p, made, now);
    var c, q := Taken(p, made), AcceptStep(p, made, now);
    assert |q.nodes| == |q.nodes.Keys| && |p.nodes| == |p.nodes.Keys|;
    assert c in p.nodes ==> p.nodes.Keys + {c} == p.nodes.Keys;
  }

  lemma AcceptKeeps<C>(p: Pool<C>, made: C, now: int)
    requires PoolInv(p) && EnabledIn(p, Accept(made, now))
    ensures PoolInv(AcceptStep(p, made, now))
  {
    AcceptPartition(p, made, now);
    AcceptStates(p, made, now);
    AcceptIdle(p, made, now);
    AcceptSize(p, made, now);
  }

  lemma CloseTakesActive<C>(p: Pool<C>, c: C)
    requires PoolInv(p) && EnabledIn(p, Close(c))
    ensures c in p.active && c !in p.chain && (p.idleSeconds > 0 ==> c in p.idle)
    ensures CloseStep(p, c).Fine? && CloseStep(p, c).value.nodes.Keys == p.nodes.Keys
  {
  }

  lemma ClosePartition<C>(p: Pool<C>, c: C)
    requires PoolInv(p) && EnabledIn(p, Close(c))
    ensures CloseStep(p, c).Fine? && Partition(CloseStep(p, c).value)
  {
    CloseTakesActive(p, c);
    WithoutFacts(p.active, c);
  }

  lemma CloseStates<C>(p: Pool<C>, c: C)
    requires PoolInv(p) && EnabledIn(p, Close(c))
    ensures CloseStep(p, c).Fine? && States(CloseStep(p, c).value)
  {
    CloseTakesActive(p, c);
    WithoutFacts(p.active, c);
    var q := CloseStep(p, c).value;
    forall x <- q.nodes
      ensures ConnInv(q.nodes[x].conn) && (TcpSpec.Active(q.nodes[x].conn) <==> x in q.active)
    {
      assert x != c ==> q.nodes[x] == p.nodes[x];
    }
  }

  lemma CloseIdle<C>(p: Pool<C>, c: C)
    requires PoolInv(p) && EnabledIn(p, Close(c))
    ensures CloseStep(p, c).Fine? && IdleList(CloseStep(p, c).value)
  {
    CloseTakesActive(p, c);
    WithoutFacts(p.active, c);
    if p.idleSeconds > 0 {
      WithoutFacts(p.idle, c);
      WithoutSorted(p, c);
    }
  }

  lemma CloseKeeps<C>(p: Pool<C>, c: C)
    requires PoolInv(p) && EnabledIn(p, Close(c))
    ensures CloseStep(p, c).Fine? && PoolInv(CloseStep(p, c).value)
    ensures |CloseStep(p, c).value.nodes| == |p.nodes|
  {
    CloseTakesActive(p, c);
    ClosePartition(p, c);
    CloseStates(p, c);
    CloseIdle(p, c);
    var q := CloseStep(p, c).value;
    assert |q.nodes| == |q.nodes.Keys| && |p.nodes| == |p.nodes.Keys|;
  }
}
