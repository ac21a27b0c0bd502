/** What users of the timer queue rely on, over every run: what one batch executes, what a
    cancellation guarantees, that stale handles are harmless, and that the descriptor is armed. */
module TimerTheorems {
  import opened TimerSpec
  import opened TimerInvariant

  // ---- what the end of a batch does to each of its timers ----

  ghost predicate Distinct(es: seq<Entry>) {
    forall i, j :: 0 <= i < j < |es| ==> es[i].addr != es[j].addr
  }

  ghost predicate Rearmed(s: State, addr: int) {
    addr in s.heap && s.heap[addr].repeat && IdOf(s, addr) !in s.canceling
  }

  /** A batch timer survives, restarted, iff it repeats and was not cancelled meanwhile. */
  ghost predicate Disposed(s: State, addr: int, now: int, t: State) {
    && addr in s.heap
    && (addr in t.heap <==> Rearmed(s, addr))
    && (addr in t.heap ==> t.heap[addr] == Restart(s.heap[addr], now))
  }

  lemma {:induction false} ResetAllDisposes(s: State, expired: seq<Entry>, now: int)
    requires Distinct(expired) && ResetAll(s, expired, now).Fine?
    ensures forall e <- expired :: Disposed(s, e.addr, now, ResetAll(s, expired, now).value)
    ensures forall a :: a !in Addresses(expired) ==>
              (a in ResetAll(s, expired, now).value.heap <==> a in s.heap) &&
              (a in s.heap ==> ResetAll(s, expired, now).value.heap[a] == s.heap[a])
    decreases |expired|
  {
    if expired != [] {
      var u := ResetOne(s, expired[0].addr, now).value;
      var t := ResetAll(s, expired, now).value;
      ResetAllDisposes(u, expired[1..], now);
      forall e <- expired ensures Disposed(s, e.addr, now, t) {
        var i :| 0 <= i < |expired| && expired[i] == e;
        if i == 0 {
          forall x <- expired[1..] ensures x.addr != e.addr {}
        } else {
          assert e == expired[1..][i - 1] && expired[0].addr != e.addr;
          assert Disposed(u, e.addr, now, t);
        }
      }
      forall a | a !in Addresses(expired)
        ensures (a in t.heap <==> a in s.heap) && (a in s.heap ==> t.heap[a] == s.heap[a])
      {
        assert a != expired[0].addr by { assert expired[0] in expired; }
        forall x <- expired[1..] ensures x.addr != a { assert x in expired; }
      }
    }
  }

  lemma EndDisposes(s: State)
    requires Inv(s) && s.phase.Calling?
    ensures EndBatch(s).Fine?
    ensures var t := EndBatch(s).value;
      && (forall e <- s.phase.expired :: Disposed(s, e.addr, s.phase.now, t))
      && (forall a :: a !in Limbo(s) ==> (a in t.heap <==> a in s.heap) && (a in s.heap ==> t.heap[a] == s.heap[a]))
      && t.ran == s.ran && t.phase.Idle? && t.created == s.created && t.clock == s.clock
      && t.canceling == s.canceling
  {
    EndKeepsInv(s);
    var u := s.(phase := Idle);
    ResetAllDisposes(u, s.phase.expired, s.phase.now);
    ResetAllFrame(u, s.phase.expired, s.phase.now);
    var v := ResetAll(u, s.phase.expired, s.phase.now).value;
    forall e <- s.phase.expired ensures Disposed(s, e.addr, s.phase.now, v) {
      assert Disposed(u, e.addr, s.phase.now, v);
    }
  }

  // ---- cancellation ----

  function RanCount(ran: seq<TimerId>, sequence: int): nat {
    if ran == [] then 0
    else RanCount(ran[..|ran| - 1], sequence) + if ran[|ran| - 1].sequence == sequence then 1 else 0
  }

  /** The sequence number has been given out and no allocated timer has it. */
  ghost predicate Dead(s: State, sequence: int) {
    1 <= sequence <= s.created && forall a <- s.heap :: s.heap[a].sequence != sequence
  }

  /** A step allocates at most the next sequence number and logs at most a live timer. */
  ghost predicate Descends(s: State, t: State) {
    && s.created <= t.created
    && (forall a <- t.heap ::
          t.heap[a].sequence > s.created || (a in s.heap && s.heap[a].sequence == t.heap[a].sequence))
    && (t.ran == s.ran || exists a <- s.heap :: t.ran == s.ran + [IdOf(s, a)])
  }

  lemma EndDescends(s: State)
    requires Inv(s) && s.phase.Calling?
    ensures EndBatch(s).Fine? && Descends(s, EndBatch(s).value)
  {
    EndDisposes(s);
    var t := EndBatch(s).value;
    forall a <- t.heap ensures a in s.heap && s.heap[a].sequence == t.heap[a].sequence {
      if a in Limbo(s) {
        var x :| x in s.phase.expired && x.addr == a;
        assert Disposed(s, x.addr, s.phase.now, t);
      }
    }
  }

  lemma StepDescends(s: State, e: Event)
    requires Inv(s) && Enabled(s, e)
    ensures Apply(s, e).Fine? && Descends(s, Apply(s, e).value)
  {
    match e
    case Add(addr, when, interval) => AddIndexed(s, Limbo(s), addr, when, interval);
    case Cancel(id) =>
      if id in s.active { CancelIndexed(s, Limbo(s), id); }
    case Begin => BeginKeepsInv(s);
    case RunNext => RunNextKeepsInv(s);
    case End => EndDescends(s);
    case Tick(_, _) =>
  }

  lemma DeadStep(s: State, t: State, sequence: int)
    requires Descends(s, t) && Dead(s, sequence)
    ensures Dead(t, sequence) && RanCount(t.ran, sequence) == RanCount(s.ran, sequence)
  {
    if t.ran != s.ran {
      assert t.ran[..|t.ran| - 1] == s.ran;
    }
  }

  /** A dead timer never runs again, whatever happens. */
  lemma {:induction false} DeadForever(s: State, es: seq<Event>, sequence: int)
    requires Inv(s) && Legal(s, es) && Dead(s, sequence)
    ensures Exec(s, es).Fine? && Dead(Exec(s, es).value, sequence)
    ensures RanCount(Exec(s, es).value.ran, sequence) == RanCount(s.ran, sequence)
    decreases |es|
  {
    if es != [] {
      StepKeepsInv(s, es[0]);
      StepDescends(s, es[0]);
      DeadStep(s, Apply(s, es[0]).value, sequence);
      DeadForever(Apply(s, es[0]).value, es[1..], sequence);
    }
  }

  /** Cancelling an indexed timer, inside a batch or outside one, ends it: it never runs again. */
  lemma CancelledNeverRuns(s: State, id: TimerId, es: seq<Event>)
    requires Inv(s) && id in s.active
    requires Legal(s, [Cancel(id)] + es)
    ensures Exec(s, [Cancel(id)] + es).Fine?
    ensures RanCount(Exec(s, [Cancel(id)] + es).value.ran, id.sequence) == RanCount(s.ran, id.sequence)
  {
    CancelKeepsInv(s, id);
    assert ([Cancel(id)] + es)[1..] == es;
    assert ActiveAt(s, id);
    var t := Apply(s, Cancel(id)).value;
    assert Dead(t, id.sequence);
    DeadForever(t, es, id.sequence);
  }

  /** id is the i-th timer of the batch being run and has been cancelled by a callback. */
  ghost predicate Doomed(s: State, i: nat, id: TimerId) {
    && s.phase.Calling? && i < |s.phase.expired| && s.phase.expired[i].addr == id.addr
    && id.addr in s.heap && IdOf(s, id.addr) == id && id in s.canceling
  }

  ghost function RunsLeft(s: State, i: nat, id: TimerId): nat {
    if Doomed(s, i, id) && s.phase.next <= i then 1 else 0
  }

  lemma DoomedEnd(s: State, i: nat, id: TimerId)
    requires Inv(s) && Enabled(s, End) && Doomed(s, i, id)
    ensures EndBatch(s).Fine? && Dead(EndBatch(s).value, id.sequence)
    ensures EndBatch(s).value.ran == s.ran && EndBatch(s).value.phase.Idle?
  {
    EndDisposes(s);
    var t := EndBatch(s).value;
    assert s.phase.expired[i] in s.phase.expired;
    assert Disposed(s, id.addr, s.phase.now, t);
    forall a <- t.heap ensures t.heap[a].sequence != id.sequence {
      if a in Limbo(s) {
        var x :| x in s.phase.expired && x.addr == a;
        assert Disposed(s, x.addr, s.phase.now, t);
      }
    }
  }

  lemma DoomedRunNext(s: State, i: nat, id: TimerId)
    requires Inv(s) && Enabled(s, RunNext) && Doomed(s, i, id)
    ensures RunOne(s).Fine? && Doomed(RunOne(s).value, i, id)
    ensures RanCount(RunOne(s).value.ran, id.sequence) + RunsLeft(RunOne(s).value, i, id)
         <= RanCount(s.ran, id.sequence) + RunsLeft(s, i, id)
  {
    RunNextKeepsInv(s);
    var t := RunOne(s).value;
    assert t.ran[..|t.ran| - 1] == s.ran;
    if s.phase.next != i {
      var e := s.phase.expired[s.phase.next];
      assert e in s.phase.expired && e.addr != id.addr;
    }
  }

  lemma DoomedCancel(s: State, x: TimerId, i: nat, id: TimerId)
    requires Inv(s) && Doomed(s, i, id)
    ensures CancelInLoop(s, x).Fine? && Doomed(CancelInLoop(s, x).value, i, id)
    ensures CancelInLoop(s, x).value.ran == s.ran && CancelInLoop(s, x).value.phase == s.phase
  {
    CancelKeepsInv(s, x);
    assert s.phase.expired[i] in s.phase.expired;
    if x in s.active {
      CancelIndexed(s, Limbo(s), x);
      assert id.addr in Limbo(s);
    }
  }

  lemma DoomedStep(s: State, e: Event, i: nat, id: TimerId)
    requires Inv(s) && Enabled(s, e) && Doomed(s, i, id)
    ensures Apply(s, e).Fine?
    ensures var t := Apply(s, e).value;
      (Doomed(t, i, id) || Dead(t, id.sequence)) && (t.phase.Idle? ==> Dead(t, id.sequence))
      && RanCount(t.ran, id.sequence) + RunsLeft(t, i, id) <= RanCount(s.ran, id.sequence) + RunsLeft(s, i, id)
  {
    match e
    case Add(addr, when, interval) => AddIndexed(s, Limbo(s), addr, when, interval);
    case Cancel(x) => DoomedCancel(s, x, i, id);
    case RunNext => DoomedRunNext(s, i, id);
    case End => DoomedEnd(s, i, id);
    case Tick(_, _) =>
  }

  lemma {:induction false} DoomedRun(s: State, es: seq<Event>, i: nat, id: TimerId)
    requires Inv(s) && Legal(s, es) && Doomed(s, i, id)
    ensures Exec(s, es).Fine?
    ensures var t := Exec(s, es).value;
      (t.phase.Idle? ==> Dead(t, id.sequence))
      && RanCount(t.ran, id.sequence) <= RanCount(s.ran, id.sequence) + RunsLeft(s, i, id)
    decreases |es|
  {
    if es != [] {
      StepKeepsInv(s, es[0]);
      DoomedStep(s, es[0], i, id);
      var t := Apply(s, es[0]).value;
      if Doomed(t, i, id) {
        DoomedRun(t, es[1..], i, id);
      } else {
        DeadForever(t, es[1..], id.sequence);
      }
    }
  }

  /** A callback cancels the i-th timer of the batch it belongs to: that timer runs at most once
      more (not at all if its turn is over) and is gone once the batch has ended. */
  lemma CancelledInBatch(s: State, i: nat, es: seq<Event>)
    requires Inv(s) && s.phase.Calling? && i < |s.phase.expired| && s.phase.expired[i].addr in s.heap
    requires Legal(s, [Cancel(IdOf(s, s.phase.expired[i].addr))] + es)
    ensures var id := IdOf(s, s.phase.expired[i].addr);
      var r := Exec(s, [Cancel(id)] + es);
      && r.Fine?
      && RanCount(r.value.ran, id.sequence) <= RanCount(s.ran, id.sequence) + (if s.phase.next <= i then 1 else 0)
      && (r.value.phase.Idle? ==> Dead(r.value, id.sequence))
  {
    var id := IdOf(s, s.phase.expired[i].addr);
    CancelKeepsInv(s, id);
    assert ([Cancel(id)] + es)[1..] == es;
    assert s.phase.expired[i] in s.phase.expired;
    assert id.addr in Limbo(s);
    DoomedRun(Apply(s, Cancel(id)).value, es, i, id);
  }

  // ---- stale handles ----

  ghost predicate Live(s: State, id: TimerId) {
    id.addr in s.heap && IdOf(s, id.addr) == id
  }

  /** Equal but for deferred cancellations of timers that do not exist. */
  ghost predicate Similar(s: State, t: State) {
    && t == s.(canceling := t.canceling)
    && forall id :: Live(s, id) && id.addr in Limbo(s) ==> (id in s.canceling <==> id in t.canceling)
  }

  lemma {:induction false} ResetAllSimilar(s: State, t: State, expired: seq<Entry>, now: int)
    requires t == s.(canceling := t.canceling) && Distinct(expired)
    requires forall id :: Live(s, id) && id.addr in Addresses(expired) ==> (id in s.canceling <==> id in t.canceling)
    ensures ResetAll(s, expired, now).Fine? <==> ResetAll(t, expired, now).Fine?
    ensures ResetAll(s, expired, now).Fine? ==>
              ResetAll(t, expired, now).value == ResetAll(s, expired, now).value.(canceling := t.canceling)
    decreases |expired|
  {
    if expired != [] {
      var addr := expired[0].addr;
      assert addr in Addresses(expired) by { assert expired[0] in expired; }
      if addr in s.heap { assert Live(s, IdOf(s, addr)); }
      var r, q := ResetOne(s, addr, now), ResetOne(t, addr, now);
      assert r.Fine? <==> q.Fine?;
      if r.Fine? {
        assert q.value == r.value.(canceling := t.canceling);
        forall id | Live(r.value, id) && id.addr in Addresses(expired[1..])
          ensures id in s.canceling <==> id in t.canceling
        {
          var x :| x in expired[1..] && x.addr == id.addr;
          var i :| 0 <= i < |expired[1..]| && expired[1..][i] == x;
          assert x == expired[i + 1] && x.addr != addr;
          assert Live(s, id) && x in expired;
        }
        ResetAllSimilar(r.value, q.value, expired[1..], now);
      }
    }
  }

  // Apart from the end of a batch, the deferred set is never consulted.

  lemma {:induction false} EraseActiveBlind(s: State, c: set<TimerId>, expired: seq<Entry>)
    ensures var r, q := EraseActive(s, expired), EraseActive(s.(canceling := c), expired);
      (r.Fine? <==> q.Fine?) && (r.Fine? ==> q.value == r.value.(canceling := c))
    decreases |expired|
  {
    if expired != [] && expired[0].addr in s.heap {
      EraseActiveBlind(s.(active := s.active - {IdOf(s, expired[0].addr)}), c, expired[1..]);
    }
  }

  lemma BeginBlind(s: State, c: set<TimerId>)
    ensures BeginBatch(s.(canceling := c)) == BeginBatch(s)
  {
    var u := s.(fd := ReadTimerfd(s.fd, s.clock), timers := s.timers[ExpiredCount(s, s.clock)..]);
    EraseActiveBlind(u, c, s.timers[..ExpiredCount(s, s.clock)]);
  }

  lemma InsertBlind(s: State, c: set<TimerId>, addr: int)
    ensures var r, q := Insert(s, addr), Insert(s.(canceling := c), addr);
      (r.Fine? <==> q.Fine?) && (r.Fine? ==> q.value == r.value.(canceling := c))
  {
  }

  lemma AddBlind(s: State, c: set<TimerId>, addr: int)
    ensures var r, q := AddInLoop(s, addr), AddInLoop(s.(canceling := c), addr);
      (r.Fine? <==> q.Fine?) && (r.Fine? ==> q.value == r.value.(canceling := c))
  {
    InsertBlind(s, c, addr);
  }

  lemma SimilarFrame(s: State, t: State, u: State, v: State)
    requires Similar(s, t) && u.canceling == s.canceling && v == u.(canceling := t.canceling) && Limbo(u) == Limbo(s)
    requires forall a <- Limbo(s) :: a in u.heap ==> a in s.heap && u.heap[a].sequence == s.heap[a].sequence
    ensures Similar(u, v)
  {
    forall id | Live(u, id) && id.addr in Limbo(u) ensures id in u.canceling <==> id in v.canceling {
      assert Live(s, id);
    }
  }

  lemma AddKeepsLimbo(s: State, addr: int, when: int, interval: real)
    requires Indexed(s, Limbo(s)) && 0 < addr < SENTRY_ADDR && addr !in s.heap
    ensures var r := AddInLoop(Alloc(s, addr, when, interval), addr);
      && r.Fine? && r.value.canceling == s.canceling && Limbo(r.value) == Limbo(s)
      && forall a <- Limbo(s) :: a in r.value.heap ==> a in s.heap && r.value.heap[a].sequence == s.heap[a].sequence
  {
    AddIndexed(s, Limbo(s), addr, when, interval);
    assert addr !in Limbo(s);
  }

  lemma SimilarAdd(s: State, t: State, addr: int, when: int, interval: real)
    requires Inv(s) && Similar(s, t) && Enabled(s, Add(addr, when, interval))
    ensures var r, q := Apply(s, Add(addr, when, interval)), Apply(t, Add(addr, when, interval));
      r.Fine? && q.Fine? && Similar(r.value, q.value)
  {
    AddKeepsLimbo(s, addr, when, interval);
    var a := Alloc(s, addr, when, interval);
    AddBlind(a, t.canceling, addr);
    assert Alloc(t, addr, when, interval) == a.(canceling := t.canceling);
    SimilarFrame(s, t, AddInLoop(a, addr).value, AddInLoop(a, addr).value.(canceling := t.canceling));
  }

  lemma SimilarCancel(s: State, t: State, id: TimerId)
    requires Inv(s) && Similar(s, t)
    ensures CancelInLoop(s, id).Fine? && CancelInLoop(t, id).Fine?
    ensures Similar(CancelInLoop(s, id).value, CancelInLoop(t, id).value)
  {
    CancelKeepsInv(s, id);
    var u := CancelInLoop(s, id).value;
    if id in s.active { CancelIndexed(s, Limbo(s), id); }
    forall x | Live(u, x) && x.addr in Limbo(s) ensures Live(s, x) {}
  }

  lemma SimilarEnd(s: State, t: State)
    requires Inv(s) && Similar(s, t) && s.phase.Calling?
    ensures EndBatch(s).Fine? && EndBatch(t).Fine?
    ensures Similar(EndBatch(s).value, EndBatch(t).value)
  {
    EndDisposes(s);
    var u, v := s.(phase := Idle), t.(phase := Idle);
    forall id | Live(u, id) && id.addr in Addresses(s.phase.expired)
      ensures id in u.canceling <==> id in v.canceling
    {
      assert Live(s, id);
    }
    ResetAllSimilar(u, v, s.phase.expired, s.phase.now);
  }

  lemma SimilarStep(s: State, t: State, e: Event)
    requires Inv(s) && Similar(s, t) && Enabled(s, e)
    ensures Enabled(t, e) && Apply(s, e).Fine? && Apply(t, e).Fine?
    ensures Similar(Apply(s, e).value, Apply(t, e).value)
  {
    match e
    case Add(addr, when, interval) => SimilarAdd(s, t, addr, when, interval);
    case Cancel(id) => SimilarCancel(s, t, id);
    case Begin =>
      BeginKeepsInv(s);
      BeginBlind(s, t.canceling);
    case RunNext => RunNextKeepsInv(s);
    case End => SimilarEnd(s, t);
    case Tick(_, _) =>
  }

  lemma {:induction false} SimilarRun(s: State, t: State, es: seq<Event>)
    requires Inv(s) && Similar(s, t) && Legal(s, es)
    ensures Legal(t, es) && Exec(s, es).Fine? && Exec(t, es).Fine?
    ensures Similar(Exec(s, es).value, Exec(t, es).value)
    decreases |es|
  {
    if es != [] {
      StepKeepsInv(s, es[0]);
      SimilarStep(s, t, es[0]);
      SimilarRun(Apply(s, es[0]).value, Apply(t, es[0]).value, es[1..]);
    }
  }

  /** Cancelling through a handle whose timer is gone changes nothing anyone can observe later,
      even when the allocator has given the address to another timer. */
  lemma StaleCancelHarmless(s: State, id: TimerId, es: seq<Event>)
    requires Inv(s) && !Live(s, id) && Legal(s, es)
    ensures Legal(s, [Cancel(id)] + es)
    ensures Exec(s, es).Fine? && Exec(s, [Cancel(id)] + es).Fine?
    ensures var t, u := Exec(s, es).value, Exec(s, [Cancel(id)] + es).value;
      u.ran == t.ran && u.heap == t.heap && u.timers == t.timers && u.active == t.active && u.fd == t.fd
  {
    CancelKeepsInv(s, id);
    assert ([Cancel(id)] + es)[1..] == es;
    assert id in s.active ==> ActiveAt(s, id);
    SimilarRun(s, Apply(s, Cancel(id)).value, es);
  }
}
