/** The event loop's connection pool over linked connection objects: a free list behind a sentinel,
    an active vector and an idle list. */
module ConnectionPoolImpl {
  import opened Outcomes
  import opened ByteBuffer
  import opened TcpSpec
  import opened TcpConnectionImpl
  import opened PoolSpec
  import opened PoolProofs
  import opened PoolRuns

  const MAX_CONNECTION_POOL_SIZE := 512

  /** The next pointers from the first of s on spell s and end with null. */
  ghost predicate Spells(s: seq<TcpConnection>)
    requires s != []
    reads s`next
  {
    if |s| == 1 then s[0].next == null else s[0].next == s[1] && Spells(s[1..])
  }

  /** The same up to the last one, whatever that points at. */
  ghost predicate Segment(s: seq<TcpConnection>)
    requires s != []
    reads s[..|s| - 1]`next
  {
    |s| == 1 || (Segment(s[..|s| - 1]) && s[|s| - 2].next == s[|s| - 1])
  }

  lemma {:induction false} SegmentSplit(s: seq<TcpConnection>)
    requires |s| > 1 && Segment(s)
    ensures s[0].next == s[1] && Segment(s[1..])
    decreases |s|
  {
    if |s| > 2 {
      SegmentSplit(s[..|s| - 1]);
      assert s[1..][..|s| - 2] == s[..|s| - 1][1..];
    }
  }

  lemma {:induction false} SegmentSpells(s: seq<TcpConnection>)
    requires s != [] && Segment(s) && s[|s| - 1].next == null
    ensures Spells(s)
    decreases |s|
  {
    if |s| > 1 {
      SegmentSplit(s);
      SegmentSpells(s[1..]);
    }
  }

  /** The free chain hangs off the sentinel. */
  ghost predicate Chained(sentinel: TcpConnection, chain: seq<TcpConnection>)
    reads sentinel`next, chain`next
  {
    && sentinel.next == (if chain == [] then null else chain[0])
    && (chain != [] ==> Spells(chain))
  }

  /** The chain while it is built, tc being the last so far. */
  ghost predicate Building(sentinel: TcpConnection, chain: seq<TcpConnection>, tc: TcpConnection)
    reads sentinel, chain
  {
    && NoDup(chain) && sentinel !in chain
    && (if chain == [] then tc == sentinel else tc == chain[|chain| - 1])
    && (chain != [] ==> sentinel.next == chain[0] && Segment(chain)) && tc.next == null
    && forall c <- chain :: c.Value() == NEW && c.lastReceiveTime == 0
  }

  lemma NoDupSnoc(chain: seq<TcpConnection>, tct: TcpConnection)
    requires NoDup(chain) && tct !in chain
    ensures NoDup(chain + [tct])
  {
  }

  ghost predicate Mirrored(nodes: map<TcpConnection, Node>)
    reads nodes.Keys`state, nodes.Keys`isWriting, nodes.Keys`output, nodes.Keys`owed
    reads nodes.Keys`wire, nodes.Keys`asked, nodes.Keys`lastReceiveTime
  {
    forall c <- nodes :: nodes[c] == Node(c.Value(), c.lastReceiveTime)
  }

  /** None of these connections points anywhere. */
  ghost predicate Unlinked(active: seq<TcpConnection>, known: set<TcpConnection>)
    reads known`next
  {
    forall i :: 0 <= i < |active| ==> active[i] in known && active[i].next == null
  }

  function Rest(chain: seq<TcpConnection>): seq<TcpConnection> {
    if chain == [] then [] else chain[1..]
  }

  ghost predicate HeadOnce(chain: seq<TcpConnection>) {
    chain != [] ==> chain[0] !in chain[1..]
  }

  /** An accept in terms of the node the connection had before. */
  ghost function Accepted(p: Pool<TcpConnection>, tc: TcpConnection, node: Node, now: int): Pool<TcpConnection> {
    var last := if p.idleSeconds > 0 then now else node.last;
    p.(chain := Rest(p.chain), active := p.active + [tc],
       idle := p.idle + (if p.idleSeconds > 0 then [tc] else []),
       nodes := p.nodes[tc := Node(OpenStep(node.conn), last)],
       clock := if p.idleSeconds > 0 then now else p.clock)
  }

  lemma AcceptIs(p: Pool<TcpConnection>, tc: TcpConnection, now: int)
    requires p.chain != [] ==> p.chain[0] in p.nodes && tc == p.chain[0]
    ensures AcceptStep(p, tc, now) == Accepted(p, tc, if p.chain != [] then p.nodes[tc] else Node(NEW, 0), now)
  {
  }

  lemma ReachedFree(start: Pool<TcpConnection>, es: seq<PoolEvent<TcpConnection>>, p: Pool<TcpConnection>)
    requires Reached(start, es, p)
    ensures HeadOnce(p.chain) && forall c <- p.chain :: c in p.nodes
    ensures forall i :: 0 <= i < |p.active| ==> p.active[i] !in p.chain
  {
    ReachedHolds(start, es, p);
  }

  lemma ReachedAccept(start: Pool<TcpConnection>, es: seq<PoolEvent<TcpConnection>>, p: Pool<TcpConnection>,
                      tc: TcpConnection, now: int)
    requires Reached(start, es, p) && EnabledIn(p, Accept(tc, now)) && (p.chain != [] ==> tc == p.chain[0])
    ensures AcceptStep(p, tc, now) == Accepted(p, tc, if p.chain != [] then p.nodes[tc] else Node(NEW, 0), now)
    ensures Reached(start, es + [Accept(tc, now)], AcceptStep(p, tc, now))
  {
    AcceptIs(p, tc, now);
    Extend(start, es, p, Accept(tc, now));
  }

  lemma ReachedActive(start: Pool<TcpConnection>, es: seq<PoolEvent<TcpConnection>>, p: Pool<TcpConnection>,
                      c: TcpConnection)
    requires Reached(start, es, p) && c in p.nodes && TcpSpec.Active(p.nodes[c].conn)
    ensures c in p.active && c !in p.chain && (p.idleSeconds > 0 ==> c in p.idle)
    ensures c !in Without(p.active, c) && forall d <- Without(p.active, c) :: d in p.active
  {
    ReachedHolds(start, es, p);
    WithoutFacts(p.active, c);
  }

  lemma SweepTurn(p: Pool<TcpConnection>, k: nat, now: int)
    requires k < |p.idle| && forall c <- p.idle :: c in p.nodes
    ensures var c := p.idle[k];
      var node := p.nodes[c];
      SweepFrom(p, k, now) ==
      if Linked(p.chain, c) then SweepFrom(p.(idle := p.idle[..k] + p.idle[k + 1..]), k, now)
      else if Late(p.idleSeconds, node, now) then
        var q := if node.conn.state == Connected then SetConn(p, c, PoolSpec.ShutExpired(node.conn)) else p;
        SweepFrom(q, k + 1, now)
      else if now - node.last < 0 then SweepFrom(p.(nodes := p.nodes[c := node.(last := now)]), k + 1, now)
      else p
  {
  }

  lemma ReachedIdle(start: Pool<TcpConnection>, es: seq<PoolEvent<TcpConnection>>, p: Pool<TcpConnection>, now: int)
    requires Reached(start, es, p) && now >= p.clock
    ensures forall c <- p.idle :: c in p.nodes && c in p.active && !Linked(p.chain, c)
    ensures p.idleSeconds > 0 ==> SweepStep(p, now) == FullScan(p, now)
  {
    ReachedHolds(start, es, p);
    if p.idleSeconds > 0 { SweepIsFullScan(p, now); }
  }

  class EventLoop {
    const freeTcpConnection: TcpConnection
    var activeConnections: seq<TcpConnection>
    var connectionTimeList: seq<TcpConnection>
    const idleSeconds: int
    ghost var model: Pool<TcpConnection>
    ghost var start: Pool<TcpConnection>
    ghost var trace: seq<PoolEvent<TcpConnection>>

    /** The objects say what the model says. */
    ghost predicate Faithful()
      reads this`model, this`activeConnections, this`connectionTimeList
      reads freeTcpConnection, model.nodes.Keys, model.chain
    {
      && activeConnections == model.active && connectionTimeList == model.idle && idleSeconds == model.idleSeconds
      && freeTcpConnection !in model.nodes
      && Chained(freeTcpConnection, model.chain) && Mirrored(model.nodes)
      && freeTcpConnection !in model.chain && Unlinked(model.active, model.nodes.Keys)
    }

    /** Reached by a run from the pool that initConnectionPool makes. */
    ghost predicate Valid()
      reads this, freeTcpConnection, model.nodes.Keys, model.chain
    {
      Faithful() && Reached(start, trace, model)
    }

    /** initConnectionPool: the sentinel and 512 connections behind it. */
    constructor (idle: int)
      ensures Valid() && Initial(model) && |model.chain| == MAX_CONNECTION_POOL_SIZE && idleSeconds == idle
      ensures fresh(freeTcpConnection) && fresh(model.nodes.Keys)
    {
      var sentinel := new TcpConnection();
      var tc := sentinel;
      ghost var chain := [];
      for i := 0 to MAX_CONNECTION_POOL_SIZE
        invariant |chain| == i && Building(sentinel, chain, tc)
        invariant fresh(sentinel) && fresh(tc) && forall c <- chain :: fresh(c)
      {
        var tct := AddFree(sentinel, chain, tc);
        chain := chain + [tct];
        tc := tct;
      }
      SegmentSpells(chain);
      idleSeconds := idle;
      freeTcpConnection, activeConnections, connectionTimeList := sentinel, [], [];
      model := PoolOf(chain, idle);
      start, trace := model, [];
    }

    static method AddFree(ghost sentinel: TcpConnection, ghost chain: seq<TcpConnection>, tc: TcpConnection)
      returns (tct: TcpConnection)
      requires Building(sentinel, chain, tc)
      modifies tc`next
      ensures fresh(tct) && Building(sentinel, chain + [tct], tct)
    {
      tct := new TcpConnection();
      assert tct !in chain && (chain != [] ==> tc !in chain[..|chain| - 1]);
      tc.next := tct;
      NoDupSnoc(chain, tct);
      assert chain != [] ==> Segment(chain);
      assert (chain + [tct])[..|chain|] == chain;
    }

    /** Takes the connection behind the sentinel out of the free chain. */
    method UnlinkFree(ghost chain: seq<TcpConnection>) returns (tc: TcpConnection)
      requires Chained(freeTcpConnection, chain) && freeTcpConnection !in chain
      requires chain != [] && chain[0] !in chain[1..]
      modifies freeTcpConnection`next, freeTcpConnection.next`next
      ensures Chained(freeTcpConnection, chain[1..]) && tc == chain[0] && tc.next == null
    {
      tc := freeTcpConnection.next;
      freeTcpConnection.next := tc.next;
      tc.next := null;
    }

    /** Puts a connection first in the free chain. */
    method LinkFree(ghost chain: seq<TcpConnection>, tc: TcpConnection)
      requires Chained(freeTcpConnection, chain) && freeTcpConnection !in chain
      requires tc !in chain && tc != freeTcpConnection
      modifies freeTcpConnection`next, tc`next
      ensures Chained(freeTcpConnection, [tc] + chain)
    {
      tc.next := freeTcpConnection.next;
      freeTcpConnection.next := tc;
      assert ([tc] + chain)[1..] == chain;
    }

    /** A connection just made active goes behind the idle list. */
    method Insert(conn: TcpConnection, now: int)
      modifies this`connectionTimeList, conn`lastReceiveTime
      ensures connectionTimeList == old(connectionTimeList) + if idleSeconds > 0 then [conn] else []
      ensures conn.lastReceiveTime == if idleSeconds > 0 then now else old(conn.lastReceiveTime)
    {
      if idleSeconds > 0 {
        conn.lastReceiveTime := now;
        connectionTimeList := connectionTimeList + [conn];
      }
    }

    method TakeOrMake() returns (tc: TcpConnection)
      requires Faithful() && HeadOnce(model.chain)
      requires forall i :: 0 <= i < |model.active| ==> model.active[i] !in model.chain
      modifies freeTcpConnection`next, model.chain`next
      ensures Chained(freeTcpConnection, Rest(model.chain)) && Mirrored(model.nodes) && tc.next == null
      ensures if model.chain != [] then tc == model.chain[0]
              else fresh(tc) && tc.Value() == NEW && tc.lastReceiveTime == 0
      ensures Unlinked(model.active + [tc], model.nodes.Keys + {tc})
    {
      if freeTcpConnection.next != null {
        tc := UnlinkFree(model.chain);
      } else {
        tc := new TcpConnection();
      }
    }

    method Enlist(tc: TcpConnection, now: int)
      modifies this`activeConnections, this`connectionTimeList
      modifies tc`state, tc`wire, tc`asked, tc`lastReceiveTime
      ensures activeConnections == old(activeConnections) + [tc]
      ensures connectionTimeList == old(connectionTimeList) + if idleSeconds > 0 then [tc] else []
      ensures tc.Value() == OpenStep(old(tc.Value()))
      ensures tc.lastReceiveTime == if idleSeconds > 0 then now else old(tc.lastReceiveTime)
    {
      activeConnections := activeConnections + [tc];
      tc.SetStateKConnected();
      Insert(tc, now);
    }

    /** The same, with what it leaves alone and what it leaves to mirror. */
    method EnlistTaken(ghost q: Pool<TcpConnection>, tc: TcpConnection, now: int)
      requires Chained(freeTcpConnection, q.chain) && Unlinked(q.active, q.nodes.Keys) && Mirrored(model.nodes)
      requires q == Accepted(model, tc, Node(tc.Value(), tc.lastReceiveTime), now)
      requires idleSeconds == model.idleSeconds
      modifies this`activeConnections, this`connectionTimeList
      modifies tc`state, tc`wire, tc`asked, tc`lastReceiveTime
      ensures Chained(freeTcpConnection, q.chain) && Unlinked(q.active, q.nodes.Keys) && Mirrored(q.nodes)
      ensures activeConnections == old(activeConnections) + [tc]
      ensures connectionTimeList == old(connectionTimeList) + if idleSeconds > 0 then [tc] else []
    {
      Enlist(tc, now);
    }

    /** A connection just taken out of the chain, or made, becomes active. */
    method Admit(tc: TcpConnection, now: int)
      requires activeConnections == model.active && connectionTimeList == model.idle
      requires idleSeconds == model.idleSeconds && freeTcpConnection !in model.nodes.Keys + {tc}
      requires freeTcpConnection !in model.chain && Chained(freeTcpConnection, Rest(model.chain))
      requires Unlinked(model.active + [tc], model.nodes.Keys + {tc}) && Mirrored(model.nodes)
      modifies this`activeConnections, this`connectionTimeList, this`model, this`trace
      modifies tc`state, tc`wire, tc`asked, tc`lastReceiveTime
      ensures Faithful() && trace == old(trace) + [Accept(tc, now)]
      ensures model == Accepted(old(model), tc, Node(old(tc.Value()), old(tc.lastReceiveTime)), now)
    {
      ghost var q := Accepted(model, tc, Node(tc.Value(), tc.lastReceiveTime), now);
      assert q.nodes.Keys == model.nodes.Keys + {tc};
      EnlistTaken(q, tc, now);
      model, trace := q, trace + [Accept(tc, now)];
    }

    method Activate(now: int) returns (tc: TcpConnection)
      requires Faithful() && HeadOnce(model.chain)
      requires model.chain != [] ==> model.chain[0] in model.nodes
      requires forall i :: 0 <= i < |model.active| ==> model.active[i] !in model.chain
      modifies this`activeConnections, this`connectionTimeList, this`model, this`trace
      modifies freeTcpConnection`next, model.chain, model.nodes.Keys
      ensures Faithful() && trace == old(trace) + [Accept(tc, now)]
      ensures if old(model).chain != [] then tc == old(model).chain[0] else fresh(tc)
      ensures old(model).chain == [] || tc in old(model).nodes
      ensures var node := if old(model).chain != [] then old(model).nodes[tc] else Node(NEW, 0);
        model == Accepted(old(model), tc, node, now)
    {
      tc := TakeOrMake();
      Admit(tc, now);
    }

    method GetNextFreeConnection(now: int) returns (tc: TcpConnection)
      requires Valid() && now >= model.clock
      modifies this, freeTcpConnection, model.chain, model.nodes.Keys
      ensures Valid() && (old(model).chain == [] ==> fresh(tc))
      ensures EnabledIn(old(model), Accept(tc, now)) && model == AcceptStep(old(model), tc, now)
    {
      ghost var p, es := model, trace;
      ReachedFree(start, es, p);
      tc := Activate(now);
      ReachedAccept(start, es, p, tc, now);
    }

    method Unlist(stc: TcpConnection)
      requires stc in activeConnections && (idleSeconds > 0 ==> stc in connectionTimeList)
      modifies this`activeConnections, this`connectionTimeList
      ensures activeConnections == Without(old(activeConnections), stc)
      ensures idleSeconds > 0 ==> connectionTimeList == Without(old(connectionTimeList), stc)
      ensures idleSeconds <= 0 ==> connectionTimeList == old(connectionTimeList)
    {
      activeConnections := Without(activeConnections, stc);
      if idleSeconds > 0 {
        connectionTimeList := Without(connectionTimeList, stc);
      }
    }

    method ReturnBackConnection(stc: TcpConnection)
      requires Faithful() && stc in model.nodes && stc !in model.chain && stc in model.active
      requires stc !in Without(model.active, stc) && forall d <- Without(model.active, stc) :: d in model.active
      requires idleSeconds > 0 ==> stc in model.idle
      modifies this`activeConnections, this`connectionTimeList, this`model, freeTcpConnection`next, stc`next
      ensures Faithful() && ReturnBack(old(model), stc) == Fine(model)
    {
      LinkFree(model.chain, stc);
      Unlist(stc);
      assert Unlinked(activeConnections, model.nodes.Keys);
      model := ReturnBack(model, stc).value;
    }

    /** What handleClose does to the connection itself. */
    method CloseAndReset(c: TcpConnection)
      requires Faithful() && c in model.nodes && Active(c.Value())
      modifies this`model, this`trace, c`state, c`isWriting, c`output
      ensures Faithful() && trace == old(trace) + [Close(c)] && HandleCloseStep(old(model).nodes[c].conn).Fine?
      ensures model == SetConn(old(model), c, HandleCloseStep(old(model).nodes[c].conn).value)
    {
      c.CloseAndReset();
      model, trace := SetConn(model, c, c.Value()), trace + [Close(c)];
    }

    method CloseAndReturn(c: TcpConnection)
      requires Faithful() && c in model.nodes && c !in model.chain && c in model.active && Active(c.Value())
      requires c !in Without(model.active, c) && forall d <- Without(model.active, c) :: d in model.active
      requires idleSeconds > 0 ==> c in model.idle
      modifies this`activeConnections, this`connectionTimeList, this`model, this`trace, freeTcpConnection`next, c
      ensures Faithful() && trace == old(trace) + [Close(c)] && CloseStep(old(model), c) == Fine(model)
    {
      CloseAndReset(c);
      ReturnBackConnection(c);
    }

    method HandleClose(c: TcpConnection)
      requires Valid() && c in model.nodes && Active(c.Value())
      modifies this, freeTcpConnection, c
      ensures Valid() && CloseStep(old(model), c) == Fine(model)
    {
      ghost var p, es := model, trace;
      ReachedActive(start, es, p, c);
      CloseAndReturn(c);
      Extend(start, es, p, Close(c));
    }

    method ForceCloseInLoop(c: TcpConnection)
      requires Valid() && c in model.nodes
      modifies this, freeTcpConnection, c
      ensures Valid() && LateForceCloseStep(old(model), c) == Fine(model)
    {
      if c.state == Connected || c.state == Disconnecting {
        HandleClose(c);
      }
    }

    method MoveBehind(c: TcpConnection, now: int)
      requires Faithful() && c in model.nodes && (idleSeconds > 0 ==> c in model.idle)
      modifies this`connectionTimeList, this`model, this`trace, c`lastReceiveTime
      ensures Faithful() && trace == old(trace) + [Touch(c, now)] && TouchStep(old(model), c, now) == Fine(model)
      ensures idleSeconds > 0 ==> c.lastReceiveTime == now && connectionTimeList != []
      ensures idleSeconds > 0 ==> connectionTimeList[|connectionTimeList| - 1] == c
    {
      if idleSeconds > 0 {
        SpliceBehind(c, now);
      }
      model, trace := TouchStep(model, c, now).value, trace + [Touch(c, now)];
    }

    method SpliceBehind(c: TcpConnection, now: int)
      requires c in connectionTimeList
      modifies this`connectionTimeList, c`lastReceiveTime
      ensures c.lastReceiveTime == now && connectionTimeList == Without(old(connectionTimeList), c) + [c]
    {
      c.lastReceiveTime := now;
      connectionTimeList := Without(connectionTimeList, c) + [c];
    }

    /** A read on an active connection makes it the youngest. */
    method UpdateIdleTimeList(c: TcpConnection, now: int)
      requires Valid() && c in model.nodes && Active(c.Value()) && now >= model.clock
      modifies this, c`lastReceiveTime
      ensures Valid() && TouchStep(old(model), c, now) == Fine(model)
      ensures idleSeconds > 0 ==> c.lastReceiveTime == now && connectionTimeList != []
      ensures idleSeconds > 0 ==> connectionTimeList[|connectionTimeList| - 1] == c
    {
      ghost var p, es := model, trace;
      ReachedActive(start, es, p, c);
      MoveBehind(c, now);
      Extend(start, es, p, Touch(c, now));
    }

    method SendOn(c: TcpConnection, data: Bytes, result: Written)
      requires Valid() && c in model.nodes && Enabled(model.nodes[c].conn, Send(data, result))
      modifies this, c`isWriting, c`output, c`wire, c`asked
      ensures Valid() && model == SetConn(old(model), c, SendStep(old(model).nodes[c].conn, data, result))
    {
      ghost var p, es := model, trace;
      SendFaithfully(c, data, result);
      Extend(start, es, p, Do(c, Send(data, result)));
    }

    method SendFaithfully(c: TcpConnection, data: Bytes, result: Written)
      requires Faithful() && c in model.nodes && Enabled(model.nodes[c].conn, Send(data, result))
      modifies this`model, this`trace, c`isWriting, c`output, c`wire, c`asked
      ensures Faithful() && trace == old(trace) + [Do(c, Send(data, result))]
      ensures model == SetConn(old(model), c, SendStep(old(model).nodes[c].conn, data, result))
    {
      c.Send(data, result);
      model, trace := SetConn(model, c, c.Value()), trace + [Do(c, Send(data, result))];
    }

    /** A connection's handleRead: n is what read returned, data what the input buffer then holds. */
    method HandleRead(c: TcpConnection, n: int, data: Bytes, result: Written, now: int)
      requires Valid() && c in model.nodes && Active(c.Value()) && now >= model.clock
      requires n > 0 ==> Enabled(c.Value(), Send(data, result))
      modifies this, freeTcpConnection, c
      ensures Valid() && TouchStep(old(model), c, now).Fine?
      ensures var q := TouchStep(old(model), c, now).value;
        && c in q.nodes
        && (n > 0 ==> Enabled(q.nodes[c].conn, Send(data, result))
                      && model == SetConn(q, c, SendStep(q.nodes[c].conn, data, result)))
        && (n == 0 ==> CloseStep(q, c) == Fine(model))
        && (n < 0 ==> model == q)
    {
      UpdateIdleTimeList(c, now);
      if n > 0 {
        SendOn(c, data, result);
      } else if n == 0 {
        HandleClose(c);
      }
    }

    method ShutExpired(conn: TcpConnection)
      requires Faithful() && conn in model.nodes
      modifies this`model, conn`state, conn`owed, conn`wire
      ensures Faithful()
      ensures model == SetConn(old(model), conn, PoolSpec.ShutExpired(old(model).nodes[conn].conn))
    {
      conn.Shutdown(true);
      conn.ForceClose();
      model := SetConn(model, conn, conn.Value());
    }

    method Refresh(conn: TcpConnection, now: int)
      requires Faithful() && conn in model.nodes
      modifies this`model, conn`lastReceiveTime
      ensures Faithful()
      ensures model == old(model).(nodes := old(model).nodes[conn := old(model).nodes[conn].(last := now)])
    {
      conn.lastReceiveTime := now;
      model := model.(nodes := model.nodes[conn := model.nodes[conn].(last := now)]);
    }

    /** The next pointer of a connection in the idle list is set iff one follows it in the chain. */
    ghost predicate Walkable()
      reads this`model, model.nodes.Keys`next
    {
      forall c <- model.idle :: c in model.nodes && (c.next != null <==> Linked(model.chain, c))
    }

    method Drop(k: nat)
      requires Faithful() && k < |model.idle|
      modifies this`connectionTimeList, this`model
      ensures Faithful() && model == old(model).(idle := old(model).idle[..k] + old(model).idle[k + 1..])
    {
      connectionTimeList := connectionTimeList[..k] + connectionTimeList[k + 1..];
      model := model.(idle := connectionTimeList);
    }

    /** One turn of the walk: on the next position, or ends. */
    method SweepOne(k: nat, now: int) returns (next: nat, done: bool)
      requires Faithful() && k < |model.idle| && Walkable()
      modifies this`connectionTimeList, this`model
      modifies model.nodes.Keys`state, model.nodes.Keys`owed, model.nodes.Keys`wire
      modifies model.nodes.Keys`lastReceiveTime
      ensures Faithful() && Walkable() && model.nodes.Keys == old(model).nodes.Keys
      ensures next <= |model.idle| && |model.idle| - next <= |old(model).idle| - k - if done then 0 else 1
      ensures SweepFrom(old(model), k, now) == if done then model else SweepFrom(model, next, now)
    {
      var conn := connectionTimeList[k];
      SweepTurn(model, k, now);
      next, done := k, false;
      if conn.next == null {
        if now - conn.lastReceiveTime > idleSeconds * MICROS_PER_SECOND {
          if conn.state == Connected {
            ShutExpired(conn);
          }
        } else if now - conn.lastReceiveTime < 0 {
          Refresh(conn, now);
        } else {
          done := true;
          return;
        }
        next := k + 1;
      } else {
        Drop(k);
      }
    }

    /** The walk over the idle list, whatever it holds: freed connections are dropped, times ahead
        of the clock set back, and the first connection still fresh ends it. */
    method SweepList(now: int)
      requires Faithful() && Walkable()
      modifies this`connectionTimeList, this`model
      modifies model.nodes.Keys`state, model.nodes.Keys`owed, model.nodes.Keys`wire
      modifies model.nodes.Keys`lastReceiveTime
      ensures Faithful() && model == SweepFrom(old(model), 0, now)
    {
      var k: nat, done := 0, false;
      while !done && k < |connectionTimeList|
        invariant Faithful() && k <= |model.idle| && Walkable()
        invariant model.nodes.Keys == old(model).nodes.Keys
        invariant SweepFrom(old(model), 0, now) == if done then model else SweepFrom(model, k, now)
        decreases |connectionTimeList| - k, !done
      {
        k, done := SweepOne(k, now);
      }
    }

    /** Exactly the connected connections silent for too long are shut down. */
    method RemoveExpiredConnection(now: int)
      requires Valid() && now >= model.clock
      modifies this, model.nodes.Keys
      ensures Valid() && model == if idleSeconds > 0 then FullScan(old(model), now) else old(model)
    {
      if idleSeconds > 0 {
        ghost var p, es := model, trace;
        ReachedIdle(start, es, p, now);
        model, trace := model.(clock := now), trace + [Sweep(now)];
        SweepList(now);
        Extend(start, es, p, Sweep(now));
      }
    }
  }
}
