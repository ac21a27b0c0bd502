/** The event loop's connections: the free chain, the active vector and the idle list, as a state
    machine over accepts, reads, connection events, closes and sweeps. */
module PoolSpec {
  import opened Outcomes
  import opened TcpSpec

  const MICROS_PER_SECOND := 1_000_000

  datatype Node = Node(conn: Conn, last: int)

  /** `chain` is the free list without its sentinel; `clock` is the latest time read. */
  datatype Pool<C(==)> =
    Pool(chain: seq<C>, active: seq<C>, idle: seq<C>, nodes: map<C, Node>, idleSeconds: int, clock: int)

  datatype PoolEvent<C> =
    | Accept(made: C, now: int)
    | Touch(conn: C, now: int)
    | Do(conn: C, event: Event)
    | Close(conn: C)
    | LateForceClose(conn: C)
    | Sweep(now: int)

  function IndexOf<C(==)>(s: seq<C>, c: C): (k: nat)
    requires c in s
    ensures k < |s| && s[k] == c
  {
    if s[0] == c then 0 else 1 + IndexOf(s[1..], c)
  }

  /** s without the first c. */
  function Without<C(==)>(s: seq<C>, c: C): (r: seq<C>)
    requires c in s
    ensures |r| == |s| - 1
  {
    var k := IndexOf(s, c);
    s[..k] + s[k + 1..]
  }

  function SetConn<C(==)>(p: Pool<C>, c: C, d: Conn): Pool<C>
    requires c in p.nodes
  {
    p.(nodes := p.nodes[c := p.nodes[c].(conn := d)])
  }

  function Taken<C(==)>(p: Pool<C>, made: C): C {
    if p.chain != [] then p.chain[0] else made
  }

  /** insert: a connection just made active goes behind the idle list. */
  function Insert<C(==)>(p: Pool<C>, c: C, now: int): Pool<C>
    requires c in p.nodes
  {
    if p.idleSeconds <= 0 then p
    else p.(idle := p.idle + [c], nodes := p.nodes[c := p.nodes[c].(last := now)], clock := now)
  }

  /** The first free connection is used; a new one is made only when there is none. */
  function AcceptStep<C(==)>(p: Pool<C>, made: C, now: int): Pool<C>
    requires p.chain != [] ==> p.chain[0] in p.nodes
  {
    var c := Taken(p, made);
    var node := if p.chain != [] then p.nodes[c] else Node(NEW, 0);
    var q := p.(chain := if p.chain != [] then p.chain[1..] else [], active := p.active + [c],
                nodes := p.nodes[c := node.(conn := OpenStep(node.conn))]);
    Insert(q, c, now)
  }

  /** updateIdleTimeList: the connection moves behind all others. */
  function TouchStep<C(==)>(p: Pool<C>, c: C, now: int): Outcome<Pool<C>>
    requires c in p.nodes
  {
    if p.idleSeconds <= 0 then Fine(p)
    else if c !in p.idle then Fault
    else Fine(p.(idle := Without(p.idle, c) + [c], nodes := p.nodes[c := p.nodes[c].(last := now)], clock := now))
  }

  function ReturnBack<C(==)>(p: Pool<C>, c: C): Outcome<Pool<C>> {
    if c !in p.active then Fault
    else
      var q := p.(chain := [c] + p.chain, active := Without(p.active, c));
      if p.idleSeconds <= 0 then Fine(q)
      else if c !in p.idle then Fault
      else Fine(q.(idle := Without(p.idle, c)))
  }

  function CloseStep<C(==)>(p: Pool<C>, c: C): Outcome<Pool<C>>
    requires c in p.nodes
  {
    var d :- HandleCloseStep(p.nodes[c].conn);
    ReturnBack(SetConn(p, c, d), c)
  }

  function LateForceCloseStep<C(==)>(p: Pool<C>, c: C): Outcome<Pool<C>>
    requires c in p.nodes
  {
    if TcpSpec.Active(p.nodes[c].conn) then CloseStep(p, c) else Fine(p)
  }

  /** Its next pointer is set: some connection follows it in the free chain. */
  predicate Linked<C(==)>(chain: seq<C>, c: C) {
    exists i :: 0 <= i < |chain| - 1 && chain[i] == c
  }

  function ShutExpired(c: Conn): Conn {
    ForceCloseStep(ShutdownStep(c))
  }

  predicate Late(idleSeconds: int, node: Node, now: int) {
    now - node.last > idleSeconds * MICROS_PER_SECOND
  }

  /** The sweep from position k on, with its early exit. */
  function SweepFrom<C(==)>(p: Pool<C>, k: nat, now: int): Pool<C>
    requires k <= |p.idle| && forall c <- p.idle :: c in p.nodes
    decreases |p.idle| - k
  {
    if k == |p.idle| then p
    else
      var c := p.idle[k];
      var node := p.nodes[c];
      if Linked(p.chain, c) then
        SweepFrom(p.(idle := p.idle[..k] + p.idle[k + 1..]), k, now)
      else if Late(p.idleSeconds, node, now) then
        SweepFrom(if node.conn.state == Connected then SetConn(p, c, ShutExpired(node.conn)) else p, k + 1, now)
      else if now - node.last < 0 then
        SweepFrom(p.(nodes := p.nodes[c := node.(last := now)]), k + 1, now)
      else p
  }

  function SweepStep<C(==)>(p: Pool<C>, now: int): Pool<C>
    requires forall c <- p.idle :: c in p.nodes
  {
    if p.idleSeconds <= 0 then p else SweepFrom(p.(clock := now), 0, now)
  }

  /** The event loop delivers reads, writes and closes to active connections only; the rest may
      come at any time, also late. The clock does not run backwards. */
  predicate EnabledIn<C(==)>(p: Pool<C>, e: PoolEvent<C>) {
    match e
    case Accept(made, now) => now >= p.clock && if p.chain != [] then p.chain[0] in p.nodes else made !in p.nodes
    case Touch(c, now) => c in p.nodes && now >= p.clock && TcpSpec.Active(p.nodes[c].conn)
    case Do(c, event) =>
      && c in p.nodes && Enabled(p.nodes[c].conn, event)
      && !event.Open? && !event.HandleClose? && !event.ForceCloseInLoop?
    case Close(c) => c in p.nodes && TcpSpec.Active(p.nodes[c].conn)
    case LateForceClose(c) => c in p.nodes
    case Sweep(now) => now >= p.clock && forall c <- p.idle :: c in p.nodes
  }

  function ApplyIn<C(==)>(p: Pool<C>, e: PoolEvent<C>): Outcome<Pool<C>>
    requires EnabledIn(p, e)
  {
    match e
    case Accept(made, now) => Fine(AcceptStep(p, made, now))
    case Touch(c, now) => TouchStep(p, c, now)
    case Do(c, event) =>
      var d :- Apply(p.nodes[c].conn, event);
      Fine(SetConn(p, c, d))
    case Close(c) => CloseStep(p, c)
    case LateForceClose(c) => LateForceCloseStep(p, c)
    case Sweep(now) => Fine(SweepStep(p, now))
  }

  predicate LegalIn<C(==)>(p: Pool<C>, es: seq<PoolEvent<C>>)
    decreases |es|
  {
    es == [] ||
    (EnabledIn(p, es[0]) && (ApplyIn(p, es[0]).Fine? ==> LegalIn(ApplyIn(p, es[0]).value, es[1..])))
  }

  function ExecIn<C(==)>(p: Pool<C>, es: seq<PoolEvent<C>>): Outcome<Pool<C>>
    requires LegalIn(p, es)
    decreases |es|
  {
    if es == [] then Fine(p) else
    var q :- ApplyIn(p, es[0]);
    ExecIn(q, es[1..])
  }

  /** A pool of connections just made, all free. */
  function PoolOf<C(==)>(chain: seq<C>, idleSeconds: int): Pool<C> {
    Pool(chain, [], [], map c | c in chain :: Node(NEW, 0), idleSeconds, 0)
  }

  /** The pool as initConnectionPool leaves it. */
  predicate Initial<C(==)>(p: Pool<C>) {
    && (forall i, j :: 0 <= i < j < |p.chain| ==> p.chain[i] != p.chain[j])
    && p == PoolOf(p.chain, p.idleSeconds)
  }
}
