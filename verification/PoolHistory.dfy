/** What the idle list and a sweep mean in terms of the events of a run: when each connection was last
    accepted or read, and in which order. */
module PoolHistory {
  import opened Outcomes
  import opened TcpSpec
  import opened TcpProofs
  import opened PoolSpec
  import opened PoolProofs
  import opened PoolRuns

  /** When a connection was last heard, on the clock and by the number of the event. */
  datatype Heard = Heard(now: int, turn: nat)

  /** An accept is heard from the connection it takes, a read from its own. */
  function Note<C(==)>(p: Pool<C>, e: PoolEvent<C>, h: map<C, Heard>, turn: nat): map<C, Heard> {
    match e
    case Accept(made, now) => h[Taken(p, made) := Heard(now, turn)]
    case Touch(c, now) => h[c := Heard(now, turn)]
    case _ => h
  }

  /** Every connection's last accept or read in a run, after what was noted before it. */
  function History<C(==)>(p: Pool<C>, es: seq<PoolEvent<C>>, h: map<C, Heard>, turn: nat): map<C, Heard>
    requires LegalIn(p, es)
    decreases |es|
  {
    if es == [] || ApplyIn(p, es[0]).Fault? then h
    else History(ApplyIn(p, es[0]).value, es[1..], Note(p, es[0], h, turn), turn + 1)
  }

  ghost predicate Timed<C>(p: Pool<C>, h: map<C, Heard>, turn: nat) {
    forall c <- p.idle :: c in h && c in p.nodes && p.nodes[c].last == h[c].now && h[c].turn < turn
  }

  /** The idle list is in the order in which its connections were last heard. */
  ghost predicate InTurn<C>(s: seq<C>, h: map<C, Heard>) {
    forall i, j :: 0 <= i < j < |s| ==> s[i] in h && s[j] in h && h[s[i]].turn < h[s[j]].turn
  }

  ghost predicate Tracks<C>(p: Pool<C>, h: map<C, Heard>, turn: nat) {
    Timed(p, h, turn) && InTurn(p.idle, h)
  }

  /** One connection, which is not in the list, is heard and goes behind it. */
  lemma BehindTracks<C>(p: Pool<C>, q: Pool<C>, c: C, now: int, h: map<C, Heard>, turn: nat)
    requires Tracks(p, h, turn) && c !in p.idle && q.idle == p.idle + [c]
    requires c in q.nodes && q.nodes[c].last == now
    requires forall d <- p.idle :: d in q.nodes && q.nodes[d].last == p.nodes[d].last
    ensures Tracks(q, h[c := Heard(now, turn)], turn + 1)
  {
  }

  /** Taking one out, or changing anything but times, keeps the rest. */
  lemma WithoutTracks<C>(p: Pool<C>, q: Pool<C>, c: C, h: map<C, Heard>, turn: nat)
    requires Tracks(p, h, turn) && c in p.idle && q.idle == Without(p.idle, c)
    requires forall d <- p.idle :: d in q.nodes && q.nodes[d].last == p.nodes[d].last
    ensures Tracks(q, h, turn)
  {
  }

  lemma SameTracks<C>(p: Pool<C>, q: Pool<C>, h: map<C, Heard>, turn: nat)
    requires Tracks(p, h, turn) && q.idle == p.idle
    requires forall d <- p.idle :: d in q.nodes && q.nodes[d].last == p.nodes[d].last
    ensures Tracks(q, h, turn + 1)
  {
  }

  lemma AcceptTracks<C>(p: Pool<C>, made: C, now: int, h: map<C, Heard>, turn: nat)
    requires PoolInv(p) && p.idleSeconds > 0 && EnabledIn(p, Accept(made, now)) && Tracks(p, h, turn)
    ensures Tracks(AcceptStep(p, made, now), h[Taken(p, made) := Heard(now, turn)], turn + 1)
  {
    AcceptTakesFree(p, made, now);
    BehindTracks(p, AcceptStep(p, made, now), Taken(p, made), now, h, turn);
  }

  lemma TouchTracks<C>(p: Pool<C>, c: C, now: int, h: map<C, Heard>, turn: nat)
    requires PoolInv(p) && p.idleSeconds > 0 && EnabledIn(p, Touch(c, now)) && Tracks(p, h, turn)
    ensures TouchStep(p, c, now).Fine?
    ensures Tracks(TouchStep(p, c, now).value, h[c := Heard(now, turn)], turn + 1)
  {
    TouchFinds(p, c);
    WithoutFacts(p.idle, c);
    var q := p.(idle := Without(p.idle, c));
    WithoutTracks(p, q, c, h, turn);
    BehindTracks(q, TouchStep(p, c, now).value, c, now, h, turn);
  }

  lemma CloseTracks<C>(p: Pool<C>, c: C, h: map<C, Heard>, turn: nat)
    requires PoolInv(p) && p.idleSeconds > 0 && EnabledIn(p, Close(c)) && Tracks(p, h, turn)
    ensures CloseStep(p, c).Fine? && Tracks(CloseStep(p, c).value, h, turn + 1)
  {
    CloseTakesActive(p, c);
    var q := CloseStep(p, c).value;
    WithoutTracks(p, q, c, h, turn);
    WithoutFacts(p.idle, c);
    SameTracks(q, q, h, turn);
  }

  lemma SweepTracks<C>(p: Pool<C>, now: int, h: map<C, Heard>, turn: nat)
    requires PoolInv(p) && p.idleSeconds > 0 && EnabledIn(p, Sweep(now)) && Tracks(p, h, turn)
    ensures Tracks(SweepStep(p, now), h, turn + 1)
  {
    SweepIsFullScan(p, now);
    SameTracks(p, FullScan(p, now), h, turn);
  }

  lemma StepTracks<C>(p: Pool<C>, e: PoolEvent<C>, h: map<C, Heard>, turn: nat)
    requires PoolInv(p) && p.idleSeconds > 0 && EnabledIn(p, e) && Tracks(p, h, turn)
    ensures ApplyIn(p, e).Fine? && Tracks(ApplyIn(p, e).value, Note(p, e, h, turn), turn + 1)
  {
    match e
    case Accept(made, now) => AcceptTracks(p, made, now, h, turn);
    case Touch(c, now) => TouchTracks(p, c, now, h, turn);
    case Do(c, event) =>
      DoKeeps(p, c, event);
      SameTracks(p, ApplyIn(p, e).value, h, turn);
    case Close(c) => CloseTracks(p, c, h, turn);
    case LateForceClose(c) =>
      if TcpSpec.Active(p.nodes[c].conn) { CloseTracks(p, c, h, turn); } else { SameTracks(p, p, h, turn); }
    case Sweep(now) => SweepTracks(p, now, h, turn);
  }

  lemma SameIdleSeconds<C>(p: Pool<C>, e: PoolEvent<C>)
    requires PoolInv(p) && EnabledIn(p, e)
    ensures ApplyIn(p, e).Fine? && ApplyIn(p, e).value.idleSeconds == p.idleSeconds
  {
    StepKeepsPool(p, e);
    if e.Sweep? && p.idleSeconds > 0 { SweepIsFullScan(p, e.now); }
  }

  lemma {:induction false} RunTracks<C>(p: Pool<C>, es: seq<PoolEvent<C>>, h: map<C, Heard>, turn: nat)
    requires PoolInv(p) && p.idleSeconds > 0 && LegalIn(p, es) && Tracks(p, h, turn)
    ensures ExecIn(p, es).Fine? && PoolInv(ExecIn(p, es).value)
    ensures ExecIn(p, es).value.idleSeconds == p.idleSeconds
    ensures Tracks(ExecIn(p, es).value, History(p, es, h, turn), turn + |es|)
    decreases |es|
  {
    if es != [] {
      StepKeepsPool(p, es[0]);
      SameIdleSeconds(p, es[0]);
      StepTracks(p, es[0], h, turn);
      RunTracks(ApplyIn(p, es[0]).value, es[1..], Note(p, es[0], h, turn), turn + 1);
    }
  }

  lemma TracksMeans<C>(q: Pool<C>, h: map<C, Heard>, turn: nat)
    requires PoolInv(q) && q.idleSeconds > 0 && Tracks(q, h, turn)
    ensures forall c <- q.active :: c in h && c in q.nodes && c in q.idle && q.nodes[c].last == h[c].now
    ensures forall i, j :: 0 <= i < |q.idle| && 0 <= j < |q.idle| ==>
              q.idle[i] in h && q.idle[j] in h && (i < j <==> h[q.idle[i]].turn < h[q.idle[j]].turn)
  {
    forall i, j | 0 <= i < |q.idle| && 0 <= j < |q.idle|
      ensures q.idle[i] in h && q.idle[j] in h && (i < j <==> h[q.idle[i]].turn < h[q.idle[j]].turn)
    {
      assert q.idle[i] in q.idle && q.idle[j] in q.idle;
    }
  }

  /** In every run: each active connection carries the time of its last accept or read, and stands in the
      idle list behind exactly those heard before it. */
  lemma HeardInOrder<C>(p: Pool<C>, es: seq<PoolEvent<C>>)
    requires Initial(p) && p.idleSeconds > 0 && LegalIn(p, es)
    ensures ExecIn(p, es).Fine?
    ensures var q, h := ExecIn(p, es).value, History(p, es, map[], 0);
      && (forall c <- q.active :: c in h && c in q.nodes && c in q.idle && q.nodes[c].last == h[c].now)
      && (forall i, j :: 0 <= i < |q.idle| && 0 <= j < |q.idle| ==>
            q.idle[i] in h && q.idle[j] in h && (i < j <==> h[q.idle[i]].turn < h[q.idle[j]].turn))
  {
    InitialHolds(p);
    RunTracks(p, es, map[], 0);
    TracksMeans(ExecIn(p, es).value, History(p, es, map[], 0), |es|);
  }

  /** In every run that goes on with a sweep: a connected connection is shut down by it iff more than
      idleSeconds seconds have passed since its last accept or read. */
  lemma SweptIffSilent<C>(p: Pool<C>, es: seq<PoolEvent<C>>, now: int, c: C)
    requires Initial(p) && p.idleSeconds > 0 && LegalIn(p, es)
    requires ExecIn(p, es).Fine? && now >= ExecIn(p, es).value.clock
    requires c in ExecIn(p, es).value.nodes && ExecIn(p, es).value.nodes[c].conn.state == Connected
    ensures forall d <- ExecIn(p, es).value.idle :: d in ExecIn(p, es).value.nodes
    ensures c in History(p, es, map[], 0)
    ensures var t := SweepStep(ExecIn(p, es).value, now);
      c in t.nodes &&
      (t.nodes[c].conn.state != Connected <==>
       now - History(p, es, map[], 0)[c].now > p.idleSeconds * 1_000_000)
  {
    WholeRun(p, es);
    InitialHolds(p);
    RunTracks(p, es, map[], 0);
    HeardInOrder(p, es);
    var q := ExecIn(p, es).value;
    assert c in q.active;
    SweepShutsIff(q, c, now);
  }

  /** With idling off no sweep touches anything. */
  lemma NoIdlingNoSweep<C>(p: Pool<C>, now: int)
    requires PoolInv(p) && p.idleSeconds <= 0
    ensures SweepStep(p, now) == p && p.idle == []
  {
  }
}
