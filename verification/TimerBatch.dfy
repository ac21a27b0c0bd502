/** One complete handleRead: which timers it runs, in which order, and what it leaves behind. */
module TimerBatch {
  import opened TimerSpec
  import opened TimerInvariant
  import opened TimerTheorems

  /** The timers due at the current time, earliest first. */
  function Due(s: State): seq<Entry> {
    s.timers[..ExpiredCount(s, s.clock)]
  }

  ghost function Ids(s: State, es: seq<Entry>): seq<TimerId>
    requires forall e <- es :: e.addr in s.heap
  {
    seq(|es|, i requires 0 <= i < |es| => IdOf(s, es[i].addr))
  }

  /** The batch is cut exactly: every live timer at or before now, each once, in expiration order. */
  lemma DueExactly(s: State)
    requires Inv(s) && s.phase.Idle?
    ensures forall e <- Due(s) :: e.addr in s.heap && s.heap[e.addr].expiration == e.when
    ensures forall i, j :: 0 <= i < j < |Due(s)| ==>
              Due(s)[i].when <= Due(s)[j].when && Ids(s, Due(s))[i] != Ids(s, Due(s))[j]
    ensures forall id :: id in Ids(s, Due(s)) <==> Live(s, id) && s.heap[id.addr].expiration <= s.clock
  {
    var due, k := Due(s), ExpiredCount(s, s.clock);
    ExpiredPrefix(s, {}, s.clock);
    forall e <- due ensures e.addr in s.heap && s.heap[e.addr].expiration == e.when {
      assert e in s.timers;
    }
    var ids := Ids(s, due);
    forall i, j | 0 <= i < j < |due| ensures due[i].when <= due[j].when && ids[i] != ids[j] {
      assert Before(s.timers[i], s.timers[j]);
    }
    forall id ensures id in ids <==> Live(s, id) && s.heap[id.addr].expiration <= s.clock {
      if id in ids {
        var i :| 0 <= i < |ids| && ids[i] == id;
        assert due[i] in due;
      }
      if Live(s, id) && s.heap[id.addr].expiration <= s.clock {
        assert id in s.active;
        assert ActiveAt(s, id);
        var i :| 0 <= i < |s.timers| && s.timers[i] == Entry(s.heap[id.addr].expiration, id.addr);
        assert ids[i] == id;
      }
    }
  }

  /** u is reached from s, inside the batch that s starts. */
  ghost predicate Progress(s: State, u: State) {
    && (forall e <- Due(s) :: e.addr in s.heap && e.addr in u.heap && u.heap[e.addr] == s.heap[e.addr])
    && u.phase.Calling? && u.phase.expired == Due(s) && u.phase.now == s.clock && u.phase.next <= |Due(s)|
    && u.ran == s.ran + Ids(s, Due(s))[..u.phase.next]
    && (forall a <- u.heap :: u.heap[a].sequence <= s.created ==> a in s.heap && u.heap[a] == s.heap[a])
    && s.created <= u.created
  }

  lemma ProgressCancel(s: State, u: State, id: TimerId)
    requires Progress(s, u) && Inv(u)
    ensures CancelInLoop(u, id).Fine? && Progress(s, CancelInLoop(u, id).value)
  {
    CancelKeepsInv(u, id);
    if id in u.active {
      CancelIndexed(u, Limbo(u), id);
      forall e <- Due(s) ensures e.addr != id.addr { assert e.addr in Limbo(u); }
    }
  }

  lemma ProgressAdd(s: State, u: State, e: Event)
    requires Progress(s, u) && Inv(u) && e.Add? && Enabled(u, e)
    ensures Apply(u, e).Fine? && Progress(s, Apply(u, e).value)
  {
    AddIndexed(u, Limbo(u), e.addr, e.when, e.interval);
    forall x <- Due(s) ensures x.addr != e.addr { assert x.addr in Limbo(u); }
  }

  lemma ProgressRunNext(s: State, u: State)
    requires Progress(s, u) && Inv(u) && Enabled(u, RunNext)
    ensures RunOne(u).Fine? && Progress(s, RunOne(u).value)
  {
    RunNextKeepsInv(u);
    var n := u.phase.next;
    assert Due(s)[n] in Due(s);
    assert Ids(s, Due(s))[..n + 1] == Ids(s, Due(s))[..n] + [IdOf(u, Due(s)[n].addr)];
  }

  lemma ProgressStep(s: State, u: State, e: Event)
    requires Progress(s, u) && Inv(u) && Enabled(u, e) && !e.Begin? && !e.End?
    ensures Apply(u, e).Fine? && Progress(s, Apply(u, e).value) && Inv(Apply(u, e).value)
  {
    StepKeepsInv(u, e);
    match e
    case Add(_, _, _) => ProgressAdd(s, u, e);
    case Cancel(id) => ProgressCancel(s, u, id);
    case RunNext => ProgressRunNext(s, u);
    case Tick(_, _) =>
  }

  /** What handleRead started in s has done by the time it returns in t. */
  ghost predicate BatchDone(s: State, t: State) {
    && (forall e <- Due(s) :: e.addr in s.heap)
    && t.phase.Idle? && t.ran == s.ran + Ids(s, Due(s))
    && (forall a <- t.heap :: t.heap[a].sequence <= s.created ==> LeftLater(s, t, a))
  }

  /** A timer that existed at s is still due after t only if it was re-armed with a zero period. */
  ghost predicate LeftLater(s: State, t: State, addr: int)
    requires addr in t.heap
  {
    && addr in s.heap && s.heap[addr].sequence == t.heap[addr].sequence
    && (t.heap[addr].expiration > s.clock <==> !(addr in Addresses(Due(s)) && t.heap[addr].interval == 0))
  }

  lemma ProgressEnd(s: State, u: State)
    requires Inv(s) && s.phase.Idle? && Progress(s, u) && Inv(u) && Enabled(u, End)
    ensures EndBatch(u).Fine? && BatchDone(s, EndBatch(u).value)
  {
    EndDisposes(u);
    var t := EndBatch(u).value;
    ExpiredPrefix(s, {}, s.clock);
    assert Ids(s, Due(s))[..|Due(s)|] == Ids(s, Due(s));
    forall a <- t.heap | t.heap[a].sequence <= s.created ensures LeftLater(s, t, a) {
      if a in Addresses(Due(s)) {
        var x :| x in Due(s) && x.addr == a;
        assert Disposed(u, x.addr, s.clock, t);
      } else {
        assert a !in Limbo(u) && a in u.heap;
        assert IdOf(s, a) in s.active && ActiveAt(s, IdOf(s, a));
        var e := Entry(s.heap[a].expiration, a);
        var i :| 0 <= i < |s.timers| && s.timers[i] == e;
        assert i < |Due(s)| ==> Due(s)[i] in Due(s);
      }
    }
  }

  lemma ProgressLast(s: State, u: State)
    requires Inv(s) && s.phase.Idle? && Progress(s, u) && Inv(u) && Legal(u, [End])
    ensures Exec(u, [End]).Fine? && BatchDone(s, Exec(u, [End]).value)
  {
    assert [End][1..] == [];
    ProgressEnd(s, u);
  }

  lemma {:induction false} ProgressRun(s: State, u: State, mid: seq<Event>)
    requires Inv(s) && s.phase.Idle? && Progress(s, u) && Inv(u)
    requires forall e <- mid :: !e.Begin? && !e.End?
    requires Legal(u, mid + [End])
    ensures Exec(u, mid + [End]).Fine? && BatchDone(s, Exec(u, mid + [End]).value)
    decreases |mid|
  {
    if mid == [] {
      ProgressLast(s, u);
      assert mid + [End] == [End];
    } else {
      var e := mid[0];
      assert (mid + [End])[0] == e && (mid + [End])[1..] == mid[1..] + [End];
      ProgressStep(s, u, e);
      ProgressRun(s, Apply(u, e).value, mid[1..]);
    }
  }

  /** Every complete batch, whatever its callbacks add, cancel or spend: runs exactly the timers
      that were due, once each and in order, and leaves the older ones for later. */
  lemma HandleReadBatch(s: State, mid: seq<Event>)
    requires Inv(s) && s.phase.Idle?
    requires forall e <- mid :: !e.Begin? && !e.End?
    requires Legal(s, [Begin] + mid + [End])
    ensures Exec(s, [Begin] + mid + [End]).Fine?
    ensures BatchDone(s, Exec(s, [Begin] + mid + [End]).value)
  {
    assert ([Begin] + mid + [End])[1..] == mid + [End];
    BeginKeepsInv(s);
    var u := BeginBatch(s).value;
    DueExactly(s);
    assert Ids(s, Due(s))[..0] == [];
    ProgressRun(s, u, mid);
  }

  /** A repeating timer is re-armed strictly later iff its period was at least one second ... */
  lemma RearmedStrictlyLater(sequence: int, when: int, interval: real, now: int)
    requires interval > 0.0
    ensures Restart(NewTimer(sequence, when, interval), now).expiration > now <==> interval >= 1.0
  {
  }

  /** ... and exactly one requested period later iff the period is a whole number of seconds. */
  lemma PeriodKeptIffWhole(sequence: int, when: int, interval: real, now: int)
    requires interval > 0.0
    ensures var period := Restart(NewTimer(sequence, when, interval), now).expiration - now;
      period as real == interval * (MICROS_PER_SECOND as real) <==> interval.Floor as real == interval
  {
    var n := interval.Floor;
    assert (n * MICROS_PER_SECOND) as real == n as real * (MICROS_PER_SECOND as real);
  }

  // ---- the descriptor ----

  function Max(a: int, b: int): int { if a < b then b else a }

  /** The descriptor has fired unread, or will fire by the earliest expiration or 100
      microseconds after it was armed, whichever is later. */
  ghost predicate InTime(s: State)
    requires s.timers != []
  {
    s.fd.Armed? && s.fd.since <= s.clock && s.fd.deadline <= Max(s.timers[0].when, s.fd.since + MIN_DELAY)
  }

  /** Inside a batch only timers added with a non-positive time are covered; the end re-arms. */
  ghost predicate FdOk(s: State) {
    && s.clock > 0 && (s.phase.Calling? ==> s.phase.now > 0)
    && (s.timers != [] && (s.phase.Idle? || s.timers[0].when <= 0) ==> InTime(s))
  }

  lemma FdInsert(s: State, t: State, x: Entry)
    requires Sorted(s.timers) && x !in s.timers && FdOk(s)
    requires t.timers == InsertEntry(s.timers, x) && t.clock == s.clock && t.phase == s.phase
    requires t.fd == if EarliestChanged(s, x.when) then Arm(x.when, s.clock) else s.fd
    ensures FdOk(t)
  {
    InsertKeepsOrder(s.timers, x);
  }

  lemma AddKeepsFd(s: State, e: Event)
    requires Inv(s) && FdOk(s) && e.Add? && Enabled(s, e)
    ensures Apply(s, e).Fine? && FdOk(Apply(s, e).value)
  {
    AddIndexed(s, Limbo(s), e.addr, e.when, e.interval);
    FdInsert(s, Apply(s, e).value, Entry(e.when, e.addr));
  }

  lemma CancelKeepsFd(s: State, id: TimerId)
    requires Inv(s) && FdOk(s)
    ensures CancelInLoop(s, id).Fine? && FdOk(CancelInLoop(s, id).value)
  {
    CancelKeepsInv(s, id);
    var t := CancelInLoop(s, id).value;
    if id in s.active {
      assert ActiveAt(s, id);
      var e := Entry(s.heap[id.addr].expiration, id.addr);
      EraseKeepsOrder(s.timers, e);
      assert t.timers == EraseEntry(s.timers, e);
      assert t.timers != [] ==> t.timers[0] in s.timers;
    }
  }

  lemma BeginKeepsFd(s: State)
    requires Inv(s) && FdOk(s) && s.phase.Idle?
    ensures BeginBatch(s).Fine? && FdOk(BeginBatch(s).value)
  {
    BeginKeepsInv(s);
    ExpiredPrefix(s, {}, s.clock);
  }

  lemma InsertLater(u: State, addr: int)
    requires Sorted(u.timers) && Insert(u, addr).Fine? && u.heap[addr].expiration > 0
    ensures var t := Insert(u, addr).value;
      t.timers != [] && t.timers[0].when <= 0 ==> u.timers != [] && t.timers[0] == u.timers[0]
  {
    InsertKeepsOrder(u.timers, Entry(u.heap[addr].expiration, addr));
  }

  /** Re-armed timers are in the future, so they never cover up one added with a past time. */
  lemma ResetOneFirst(s: State, limbo: set<int>, addr: int, now: nat)
    requires Indexed(s, limbo) && addr in limbo && now > 0
    requires s.timers != [] && s.timers[0].when <= 0 ==> InTime(s)
    ensures ResetOne(s, addr, now).Fine?
    ensures var t := ResetOne(s, addr, now).value; t.timers != [] && t.timers[0].when <= 0 ==> InTime(t)
  {
    ResetOneIndexed(s, limbo, addr, now);
    if Rearmed(s, addr) {
      var u := s.(heap := s.heap[addr := Restart(s.heap[addr], now)]);
      RestartIndexed(s, u, limbo, addr, now);
      InsertLater(u, addr);
    }
  }

  lemma {:induction false} ResetAllFirst(s: State, expired: seq<Entry>, now: nat)
    requires Indexed(s, Addresses(expired)) && Distinct(expired) && now > 0
    requires s.timers != [] && s.timers[0].when <= 0 ==> InTime(s)
    ensures ResetAll(s, expired, now).Fine?
    ensures var t := ResetAll(s, expired, now).value; t.timers != [] && t.timers[0].when <= 0 ==> InTime(t)
    decreases |expired|
  {
    if expired != [] {
      var addr := expired[0].addr;
      assert expired[0] in expired && addr in Addresses(expired);
      ResetOneIndexed(s, Addresses(expired), addr, now);
      ResetOneFirst(s, Addresses(expired), addr, now);
      assert Addresses(expired) - {addr} == Addresses(expired[1..]) by {
        assert expired == [expired[0]] + expired[1..];
        assert forall e <- expired[1..] :: e.addr != addr;
      }
      ResetAllFirst(ResetOne(s, addr, now).value, expired[1..], now);
    }
  }

  lemma EndKeepsFd(s: State)
    requires Inv(s) && FdOk(s) && s.phase.Calling?
    ensures EndBatch(s).Fine? && FdOk(EndBatch(s).value)
  {
    EndKeepsInv(s);
    var u := s.(phase := Idle);
    IndexedFrame(s, u, Limbo(s));
    ResetAllFirst(u, s.phase.expired, s.phase.now);
    ResetAllIndexed(u, s.phase.expired, s.phase.now);
    ResetAllFrame(u, s.phase.expired, s.phase.now);
    var v := ResetAll(u, s.phase.expired, s.phase.now).value;
    assert v.timers != [] ==> v.timers[0] in v.timers;
  }

  lemma StepKeepsFd(s: State, e: Event)
    requires Inv(s) && FdOk(s) && Enabled(s, e)
    ensures Apply(s, e).Fine? && FdOk(Apply(s, e).value)
  {
    match e
    case Add(_, _, _) => AddKeepsFd(s, e);
    case Cancel(id) => CancelKeepsFd(s, id);
    case Begin => BeginKeepsFd(s);
    case RunNext => RunNextKeepsInv(s);
    case End => EndKeepsFd(s);
    case Tick(_, _) =>
  }

  lemma {:induction false} RunKeepsFd(s: State, es: seq<Event>)
    requires Inv(s) && FdOk(s) && Legal(s, es)
    ensures Exec(s, es).Fine? && FdOk(Exec(s, es).value)
    decreases |es|
  {
    if es != [] {
      StepKeepsInv(s, es[0]);
      StepKeepsFd(s, es[0]);
      RunKeepsFd(Apply(s, es[0]).value, es[1..]);
    }
  }

  /** In every run, whenever no batch is being run and a timer waits, the descriptor is armed in
      time; once the clock has passed that deadline it is readable. No sign of the expirations
      is assumed. */
  lemma DescriptorArmedInTime(clock: nat, es: seq<Event>)
    requires clock > 0 && Legal(Initial(clock), es)
    ensures var r := Exec(Initial(clock), es);
      && r.Fine?
      && (r.value.phase.Idle? && r.value.timers != [] ==>
            InTime(r.value)
            && (r.value.clock >= Max(r.value.timers[0].when, r.value.fd.since + MIN_DELAY)
                ==> Readable(r.value.fd, r.value.clock)))
  {
    RunKeepsFd(Initial(clock), es);
  }
}
