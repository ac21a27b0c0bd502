/** The life of one timer, in terms of the time and the interval it was added with. */
module TimerLife {
  import opened Outcomes
  import opened TimerSpec
  import opened TimerInvariant
  import opened TimerTheorems
  import opened TimerBatch

  // ---- what a step does to a live timer ----

  lemma CancelOther(s: State, x: TimerId, id: TimerId)
    requires Inv(s) && Live(s, id) && x != id
    ensures CancelInLoop(s, x).Fine?
    ensures var t := CancelInLoop(s, x).value;
      id.addr in t.heap && t.heap[id.addr] == s.heap[id.addr]
  {
    CancelKeepsInv(s, x);
    if x in s.active {
      assert ActiveAt(s, x);
      CancelIndexed(s, Limbo(s), x);
    }
  }

  lemma EndFate(s: State, id: TimerId)
    requires Inv(s) && s.phase.Calling? && Live(s, id)
    ensures EndBatch(s).Fine?
    ensures var t := EndBatch(s).value;
      if id.addr !in Limbo(s) then id.addr in t.heap && t.heap[id.addr] == s.heap[id.addr]
      else if Rearmed(s, id.addr) then
        id.addr in t.heap && t.heap[id.addr] == Restart(s.heap[id.addr], s.phase.now)
      else Dead(t, id.sequence)
  {
    EndDisposes(s);
    EndDescends(s);
    var t := EndBatch(s).value;
    if id.addr in Limbo(s) {
      var x :| x in s.phase.expired && x.addr == id.addr;
      assert Disposed(s, x.addr, s.phase.now, t);
    }
  }

  /** Only its own cancellation and the end of a batch it is in touch a timer. */
  lemma Untouched(s: State, e: Event, id: TimerId)
    requires Inv(s) && Enabled(s, e) && Live(s, id) && e != Cancel(id) && (e.End? ==> id.addr !in Limbo(s))
    ensures Apply(s, e).Fine? && id.addr in Apply(s, e).value.heap
    ensures Apply(s, e).value.heap[id.addr] == s.heap[id.addr]
  {
    match e
    case Add(addr, when, interval) => AddIndexed(s, Limbo(s), addr, when, interval);
    case Cancel(x) => CancelOther(s, x, id);
    case Begin => BeginKeepsInv(s);
    case RunNext => RunNextKeepsInv(s);
    case End => EndFate(s, id);
    case Tick(_, _) =>
  }

  /** What an addition makes. */
  lemma Added(s: State, addr: int, when: int, interval: real)
    requires Inv(s) && Enabled(s, Add(addr, when, interval))
    ensures var id := TimerId(addr, s.created + 1);
      var r := Apply(s, Add(addr, when, interval));
      && r.Fine? && Inv(r.value) && Live(r.value, id) && addr !in Limbo(r.value)
      && r.value.ran == s.ran && r.value.clock == s.clock && r.value.phase == s.phase
      && r.value.heap[addr].expiration == when
      && (r.value.heap[addr].repeat <==> interval > 0.0)
      && (interval > 0.0 ==> r.value.heap[addr].interval == interval.Floor)
  {
    AddIndexed(s, Limbo(s), addr, when, interval);
    AddKeepsInv(s, addr, when, interval);
    assert addr !in Limbo(s);
  }

  // ---- one-shot timers ----

  ghost predicate Single(s: State, id: TimerId) {
    Dead(s, id.sequence) || (Live(s, id) && !s.heap[id.addr].repeat)
  }

  ghost predicate ToCome(s: State, id: TimerId) {
    s.phase.Calling? && exists j :: s.phase.next <= j < |s.phase.expired| && s.phase.expired[j].addr == id.addr
  }

  /** How often a one-shot timer can still run. */
  ghost function Left(s: State, id: TimerId): nat {
    if Live(s, id) && (id.addr !in Limbo(s) || ToCome(s, id)) then 1 else 0
  }

  lemma SingleRunNext(s: State, id: TimerId)
    requires Inv(s) && Enabled(s, RunNext) && Live(s, id)
    ensures RunOne(s).Fine?
    ensures var t := RunOne(s).value;
      RanCount(t.ran, id.sequence) + Left(t, id) <= RanCount(s.ran, id.sequence) + Left(s, id)
  {
    RunNextKeepsInv(s);
    var t := RunOne(s).value;
    assert t.ran[..|t.ran| - 1] == s.ran;
    var e := s.phase.expired[s.phase.next];
    assert e in s.phase.expired && e.addr in Limbo(s);
  }

  lemma SingleCancel(s: State, id: TimerId)
    requires Inv(s) && Live(s, id)
    ensures CancelInLoop(s, id).Fine?
    ensures var t := CancelInLoop(s, id).value;
      && t.ran == s.ran && t.phase == s.phase
      && (Dead(t, id.sequence) || (Live(t, id) && t.heap[id.addr] == s.heap[id.addr]))
  {
    CancelKeepsInv(s, id);
    if id in s.active { CancelIndexed(s, Limbo(s), id); }
  }

  lemma StepSingle(s: State, e: Event, id: TimerId)
    requires Inv(s) && Enabled(s, e) && Single(s, id)
    ensures Apply(s, e).Fine? && Single(Apply(s, e).value, id)
    ensures var t := Apply(s, e).value;
      RanCount(t.ran, id.sequence) + Left(t, id) <= RanCount(s.ran, id.sequence) + Left(s, id)
  {
    StepDescends(s, e);
    if Dead(s, id.sequence) {
      DeadStep(s, Apply(s, e).value, id.sequence);
    } else if e == Cancel(id) {
      SingleCancel(s, id);
    } else if e.End? {
      EndFate(s, id);
      EndDisposes(s);
    } else {
      SingleOther(s, e, id);
    }
  }

  lemma SingleOther(s: State, e: Event, id: TimerId)
    requires Inv(s) && Enabled(s, e) && Live(s, id) && !s.heap[id.addr].repeat && e != Cancel(id) && !e.End?
    ensures Apply(s, e).Fine? && Single(Apply(s, e).value, id)
    ensures var t := Apply(s, e).value;
      RanCount(t.ran, id.sequence) + Left(t, id) <= RanCount(s.ran, id.sequence) + Left(s, id)
  {
    Untouched(s, e, id);
    match e
    case RunNext => SingleRunNext(s, id);
    case Begin => BeginKeepsInv(s);
    case _ => SameBatch(s, e);
  }

  lemma SameBatch(s: State, e: Event)
    requires Inv(s) && Enabled(s, e) && (e.Add? || e.Cancel? || e.Tick?)
    ensures Apply(s, e).Fine? && Apply(s, e).value.phase == s.phase && Apply(s, e).value.ran == s.ran
  {
    match e
    case Add(addr, when, interval) => AddIndexed(s, Limbo(s), addr, when, interval);
    case Cancel(x) => CancelNames(s, x);
    case Tick(_, _) =>
  }

  lemma {:induction false} RunSingle(s: State, es: seq<Event>, id: TimerId)
    requires Inv(s) && Legal(s, es) && Single(s, id)
    ensures Exec(s, es).Fine?
    ensures var t := Exec(s, es).value;
      RanCount(t.ran, id.sequence) + Left(t, id) <= RanCount(s.ran, id.sequence) + Left(s, id)
    decreases |es|
  {
    if es != [] {
      StepKeepsInv(s, es[0]);
      StepSingle(s, es[0], id);
      RunSingle(Apply(s, es[0]).value, es[1..], id);
    }
  }

  /** A timer added without a positive interval runs at most once, whatever happens. */
  lemma OneShotRunsOnce(s: State, addr: int, when: int, interval: real, es: seq<Event>)
    requires Inv(s) && interval <= 0.0 && Legal(s, [Add(addr, when, interval)] + es)
    ensures Exec(s, [Add(addr, when, interval)] + es).Fine?
    ensures var t := Exec(s, [Add(addr, when, interval)] + es).value;
      RanCount(t.ran, s.created + 1) <= RanCount(s.ran, s.created + 1) + 1
  {
    var e := Add(addr, when, interval);
    assert ([e] + es)[0] == e && ([e] + es)[1..] == es;
    Added(s, addr, when, interval);
    RunSingle(Apply(s, e).value, es, TimerId(addr, s.created + 1));
  }

  ghost predicate RanKnown(s: State) {
    forall id <- s.ran :: id.sequence <= s.created
  }

  lemma {:induction false} RunKeepsRanKnown(s: State, es: seq<Event>)
    requires Inv(s) && RanKnown(s) && Legal(s, es)
    ensures Exec(s, es).Fine? && RanKnown(Exec(s, es).value)
    decreases |es|
  {
    if es != [] {
      StepKeepsInv(s, es[0]);
      StepDescends(s, es[0]);
      RunKeepsRanKnown(Apply(s, es[0]).value, es[1..]);
    }
  }

  lemma {:induction false} RanNone(ran: seq<TimerId>, sequence: int)
    requires forall id <- ran :: id.sequence != sequence
    ensures RanCount(ran, sequence) == 0
    decreases |ran|
  {
    if ran != [] {
      assert ran[|ran| - 1] in ran;
      RanNone(ran[..|ran| - 1], sequence);
    }
  }

  /** In every run from the start a sequence number not given out yet has never run. */
  lemma FreshNeverRan(clock: nat, past: seq<Event>)
    requires Legal(Initial(clock), past)
    ensures Exec(Initial(clock), past).Fine?
    ensures var s := Exec(Initial(clock), past).value; Inv(s) && RanCount(s.ran, s.created + 1) == 0
  {
    NoFaultFromStart(clock, past);
    NoFaultFromStart(clock, []);
    RunKeepsRanKnown(Initial(clock), past);
    var s := Exec(Initial(clock), past).value;
    RanNone(s.ran, s.created + 1);
  }

  // ---- repeating timers ----

  /** It repeats every `period` seconds and is not to be cancelled at the end of this batch. */
  ghost predicate Repeats(s: State, id: TimerId, period: int) {
    && Live(s, id) && s.heap[id.addr].repeat && s.heap[id.addr].interval == period
    && (id.addr in Limbo(s) ==> id !in s.canceling)
  }

  lemma StepRepeats(s: State, e: Event, id: TimerId, period: int)
    requires Inv(s) && Enabled(s, e) && Repeats(s, id, period) && e != Cancel(id)
    ensures Apply(s, e).Fine? && Repeats(Apply(s, e).value, id, period)
  {
    StepKeepsInv(s, e);
    if e.End? {
      EndFate(s, id);
      EndDisposes(s);
    } else {
      Untouched(s, e, id);
      match e
      case Begin => BeginKeepsInv(s);
      case Add(addr, when, interval) => AddIndexed(s, Limbo(s), addr, when, interval);
      case Cancel(x) => CancelNames(s, x);
      case RunNext => RunNextKeepsInv(s);
      case Tick(_, _) =>
    }
  }

  lemma CancelNames(s: State, x: TimerId)
    requires Inv(s)
    ensures CancelInLoop(s, x).Fine?
    ensures var t := CancelInLoop(s, x).value;
      t.phase == s.phase && t.ran == s.ran && t.canceling <= s.canceling + {x}
  {
    CancelKeepsInv(s, x);
    if x in s.active { CancelIndexed(s, Limbo(s), x); }
  }

  lemma {:induction false} RunRepeats(s: State, es: seq<Event>, id: TimerId, period: int)
    requires Inv(s) && Legal(s, es) && Repeats(s, id, period) && Cancel(id) !in es
    ensures Exec(s, es).Fine? && Inv(Exec(s, es).value) && Repeats(Exec(s, es).value, id, period)
    decreases |es|
  {
    if es != [] {
      assert es[0] in es;
      StepKeepsInv(s, es[0]);
      StepRepeats(s, es[0], id, period);
      RunRepeats(Apply(s, es[0]).value, es[1..], id, period);
    }
  }

  /** A timer added with a positive interval and never cancelled is there for ever, indexed whenever no
      batch is being run, and keeps the whole seconds of its interval. */
  lemma RepeatingSurvives(s: State, addr: int, when: int, interval: real, es: seq<Event>)
    requires Inv(s) && interval > 0.0 && Legal(s, [Add(addr, when, interval)] + es)
    requires Cancel(TimerId(addr, s.created + 1)) !in es
    ensures Exec(s, [Add(addr, when, interval)] + es).Fine?
    ensures var t, id := Exec(s, [Add(addr, when, interval)] + es).value, TimerId(addr, s.created + 1);
      && Inv(t) && Repeats(t, id, interval.Floor) && (t.phase.Idle? ==> id in t.active)
  {
    var e := Add(addr, when, interval);
    assert ([e] + es)[0] == e && ([e] + es)[1..] == es;
    Added(s, addr, when, interval);
    RunRepeats(Apply(s, e).value, es, TimerId(addr, s.created + 1), interval.Floor);
  }

  /** In a batch that began at `now`, not cancelled, with the fields it began with. */
  ghost predicate Batched(s: State, id: TimerId, timer: Timer, now: int) {
    && s.phase.Calling? && s.phase.now == now && id.addr in Limbo(s) && id !in s.canceling
    && Live(s, id) && s.heap[id.addr] == timer
  }

  lemma StepBatched(s: State, e: Event, id: TimerId, timer: Timer, now: int)
    requires Inv(s) && Enabled(s, e) && Batched(s, id, timer, now)
    requires e != Cancel(id) && !e.Begin? && !e.End?
    ensures Apply(s, e).Fine? && Batched(Apply(s, e).value, id, timer, now)
  {
    Untouched(s, e, id);
    match e
    case Add(addr, when, interval) => AddIndexed(s, Limbo(s), addr, when, interval);
    case Cancel(x) => CancelNames(s, x);
    case RunNext => RunNextKeepsInv(s);
    case Tick(_, _) =>
  }

  lemma {:induction false} RunBatched(s: State, mid: seq<Event>, id: TimerId, timer: Timer, now: int)
    requires Inv(s) && Batched(s, id, timer, now) && timer.repeat && Legal(s, mid + [End])
    requires Cancel(id) !in mid && forall e <- mid :: !e.Begin? && !e.End?
    ensures Exec(s, mid + [End]).Fine?
    ensures var t := Exec(s, mid + [End]).value;
      && Inv(t) && Live(t, id) && id in t.active && t.phase.Idle?
      && t.heap[id.addr].expiration == now + timer.interval * 1_000_000
    decreases |mid|
  {
    if mid == [] {
      assert mid + [End] == [End] && [End][1..] == [];
      EndFate(s, id);
      EndKeepsInv(s);
      EndDisposes(s);
    } else {
      assert (mid + [End])[0] == mid[0] && (mid + [End])[1..] == mid[1..] + [End];
      assert mid[0] in mid;
      StepKeepsInv(s, mid[0]);
      StepBatched(s, mid[0], id, timer, now);
      RunBatched(Apply(s, mid[0]).value, mid[1..], id, timer, now);
    }
  }

  /** A batch in which it is due re-arms it for the whole seconds of its interval after the batch began. */
  lemma RearmedAfterBatch(u: State, id: TimerId, period: int, mid: seq<Event>)
    requires Inv(u) && u.phase.Idle? && Repeats(u, id, period) && u.heap[id.addr].expiration <= u.clock
    requires Cancel(id) !in mid && forall e <- mid :: !e.Begin? && !e.End?
    requires Legal(u, [Begin] + mid + [End])
    ensures Exec(u, [Begin] + mid + [End]).Fine?
    ensures var t := Exec(u, [Begin] + mid + [End]).value;
      && Live(t, id) && id in t.active && t.heap[id.addr].expiration == u.clock + period * 1_000_000
  {
    assert ([Begin] + mid + [End])[0] == Begin && ([Begin] + mid + [End])[1..] == mid + [End];
    BeginKeepsInv(u);
    DueExactly(u);
    var i :| 0 <= i < |Due(u)| && Ids(u, Due(u))[i] == id;
    assert Due(u)[i] in Due(u);
    RunBatched(BeginBatch(u).value, mid, id, u.heap[id.addr], u.clock);
  }

  // ---- the first run ----

  /** Every batch of the run begins before `when`. */
  predicate NotDue(s: State, es: seq<Event>, when: int)
    requires Legal(s, es)
    decreases |es|
  {
    es == [] ||
    ((es[0].Begin? ==> s.clock < when) && (Apply(s, es[0]).Fine? ==> NotDue(Apply(s, es[0]).value, es[1..], when)))
  }

  ghost predicate Waits(s: State, id: TimerId, when: int) {
    Live(s, id) && s.heap[id.addr].expiration == when && id.addr !in Limbo(s)
  }

  lemma BeginWaits(s: State, id: TimerId, when: int)
    requires Inv(s) && s.phase.Idle? && Waits(s, id, when) && s.clock < when
    ensures BeginBatch(s).Fine? && Waits(BeginBatch(s).value, id, when)
  {
    BeginKeepsInv(s);
    ExpiredPrefix(s, {}, s.clock);
    var t := BeginBatch(s).value;
    forall e <- t.phase.expired ensures e.addr != id.addr {
      assert e in s.timers;
    }
  }

  lemma RunNextWaits(s: State, id: TimerId, when: int)
    requires Inv(s) && Enabled(s, RunNext) && Waits(s, id, when)
    ensures RunOne(s).Fine? && Waits(RunOne(s).value, id, when)
    ensures RanCount(RunOne(s).value.ran, id.sequence) == RanCount(s.ran, id.sequence)
  {
    RunNextKeepsInv(s);
    var t := RunOne(s).value;
    assert t.ran[..|t.ran| - 1] == s.ran;
    var e := s.phase.expired[s.phase.next];
    assert e in s.phase.expired && e.addr in Limbo(s);
  }

  lemma StepWaits(s: State, e: Event, id: TimerId, when: int)
    requires Inv(s) && Enabled(s, e) && Waits(s, id, when) && e != Cancel(id) && (e.Begin? ==> s.clock < when)
    ensures Apply(s, e).Fine? && Waits(Apply(s, e).value, id, when)
    ensures RanCount(Apply(s, e).value.ran, id.sequence) == RanCount(s.ran, id.sequence)
  {
    Untouched(s, e, id);
    match e
    case Begin =>
      BeginWaits(s, id, when);
      BeginKeepsInv(s);
    case RunNext => RunNextWaits(s, id, when);
    case End => EndDisposes(s);
    case Add(addr, w, interval) => AddIndexed(s, Limbo(s), addr, w, interval);
    case Cancel(x) =>
      CancelKeepsInv(s, x);
      if x in s.active { CancelIndexed(s, Limbo(s), x); }
    case Tick(_, _) =>
  }

  lemma {:induction false} RunWaits(s: State, es: seq<Event>, id: TimerId, when: int)
    requires Inv(s) && Legal(s, es) && Waits(s, id, when) && Cancel(id) !in es && NotDue(s, es, when)
    ensures Exec(s, es).Fine? && Inv(Exec(s, es).value) && Waits(Exec(s, es).value, id, when)
    ensures RanCount(Exec(s, es).value.ran, id.sequence) == RanCount(s.ran, id.sequence)
    decreases |es|
  {
    if es != [] {
      assert es[0] in es;
      StepKeepsInv(s, es[0]);
      StepWaits(s, es[0], id, when);
      RunWaits(Apply(s, es[0]).value, es[1..], id, when);
    }
  }

  lemma {:induction false} RanCountJoin(xs: seq<TimerId>, ys: seq<TimerId>, sequence: int)
    ensures RanCount(xs + ys, sequence) == RanCount(xs, sequence) + RanCount(ys, sequence)
    decreases |ys|
  {
    if ys == [] {
      assert xs + ys == xs;
    } else {
      RanCountJoin(xs, ys[..|ys| - 1], sequence);
      assert (xs + ys)[..|xs + ys| - 1] == xs + ys[..|ys| - 1];
    }
  }

  lemma {:induction false} RanCountOnce(xs: seq<TimerId>, id: TimerId)
    requires forall i, j :: 0 <= i < j < |xs| ==> xs[i] != xs[j]
    requires forall x <- xs :: x.sequence == id.sequence ==> x == id
    ensures RanCount(xs, id.sequence) == if id in xs then 1 else 0
    decreases |xs|
  {
    if xs != [] {
      var front, last := xs[..|xs| - 1], xs[|xs| - 1];
      assert xs == front + [last] && last in xs;
      RanCountOnce(front, id);
    }
  }

  lemma DueCount(u: State, id: TimerId)
    requires Inv(u) && u.phase.Idle? && Live(u, id)
    ensures forall e <- Due(u) :: e.addr in u.heap
    ensures RanCount(Ids(u, Due(u)), id.sequence) == if u.heap[id.addr].expiration <= u.clock then 1 else 0
  {
    DueExactly(u);
    var ids := Ids(u, Due(u));
    forall x <- ids | x.sequence == id.sequence ensures x == id {
      assert Live(u, x);
    }
    RanCountOnce(ids, id);
  }

  /** An added timer that is not cancelled waits, unrun, through every batch that begins before its time, and
      runs exactly once in the first complete batch that begins at or after it. */
  lemma RunsWhenDue(s: State, addr: int, when: int, interval: real, es: seq<Event>, mid: seq<Event>)
    requires Inv(s) && Enabled(s, Add(addr, when, interval))
    requires Apply(s, Add(addr, when, interval)).Fine?
    requires var t := Apply(s, Add(addr, when, interval)).value;
      && Legal(t, es) && NotDue(t, es, when) && Cancel(TimerId(addr, s.created + 1)) !in es
      && Exec(t, es).Fine? && Exec(t, es).value.phase.Idle?
      && Legal(Exec(t, es).value, [Begin] + mid + [End])
    requires forall e <- mid :: !e.Begin? && !e.End?
    ensures var u := Exec(Apply(s, Add(addr, when, interval)).value, es).value;
      && RanCount(u.ran, s.created + 1) == RanCount(s.ran, s.created + 1)
      && Exec(u, [Begin] + mid + [End]).Fine?
      && RanCount(Exec(u, [Begin] + mid + [End]).value.ran, s.created + 1) ==
         RanCount(s.ran, s.created + 1) + if when <= u.clock then 1 else 0
  {
    var id := TimerId(addr, s.created + 1);
    Added(s, addr, when, interval);
    var t := Apply(s, Add(addr, when, interval)).value;
    RunWaits(t, es, id, when);
    var u := Exec(t, es).value;
    HandleReadBatch(u, mid);
    DueCount(u, id);
    RanCountJoin(u.ran, Ids(u, Due(u)), id.sequence);
  }
}
