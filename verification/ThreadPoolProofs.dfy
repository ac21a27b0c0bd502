/** Whole-run guarantees of the thread pool: tasks come out in the order they went in, no wakeup
    is lost on either condition, and stopping lets every worker leave. */
module ThreadPoolProofs {
  import opened Outcomes
  import opened TaskRing
  import opened ThreadPoolSpec

  /** A worker may sleep only while every queued task has a woken worker coming for it. */
  ghost predicate NotEmptySignalled(s: State) {
    Sleepers(s.workers) != {} ==> s.ring.size <= |WokenWorkers(s.workers)|
  }

  /** A producer may sleep only while every free slot has a woken producer coming for it. */
  ghost predicate NotFullSignalled(s: State) {
    SleepingProducers(s.producers) != {} ==> |s.ring.slots| - s.ring.size <= |WokenProducers(s.producers)|
  }

  ghost predicate NoneLeft(ws: map<nat, Worker>) {
    forall w <- ws :: !ws[w].Exited?
  }

  ghost predicate Inv(s: State) {
    && RingOk(s.ring) && s.submitted == s.taken + Contents(s.ring)
    && NotEmptySignalled(s) && NotFullSignalled(s)
    && (!s.running ==> Sleepers(s.workers) == {}) && (s.running ==> NoneLeft(s.workers))
    && (s.workers == map[] ==> s.ring.size == 0 && forall p <- s.producers :: s.producers[p].Away?)
  }

  // ---- counting threads ----

  /** Adding and removing elements known to be out or in. */
  lemma Resize(a: set<nat>, b: set<nat>, add: set<nat>, drop: set<nat>)
    requires add !! a && drop <= a && b == a - drop + add
    ensures |b| == |a| - |drop| + |add|
  {
    assert a == (a - drop) + drop && (a - drop) !! drop;
    assert (a - drop) !! add;
  }

  lemma WakeWorkersCounts(ws: map<nat, Worker>, woken: set<nat>)
    requires woken <= Sleepers(ws)
    ensures Sleepers(WakeWorkers(ws, woken)) == Sleepers(ws) - woken
    ensures |WokenWorkers(WakeWorkers(ws, woken))| == |WokenWorkers(ws)| + |woken|
  {
    Resize(WokenWorkers(ws), WokenWorkers(WakeWorkers(ws, woken)), woken, {});
  }

  lemma WakeProducersCounts(ps: map<nat, Producer>, woken: set<nat>)
    requires woken <= SleepingProducers(ps)
    ensures SleepingProducers(WakeProducers(ps, woken)) == SleepingProducers(ps) - woken
    ensures |WokenProducers(WakeProducers(ps, woken))| == |WokenProducers(ps)| + |woken|
  {
    Resize(WokenProducers(ps), WokenProducers(WakeProducers(ps, woken)), woken, {});
  }

  function If(c: bool, w: nat): set<nat> {
    if c then {w} else {}
  }

  /** Sets that differ in x at most. */
  lemma Toggle(a: set<nat>, b: set<nat>, x: nat)
    requires forall y :: y != x ==> (y in a <==> y in b)
    ensures |b| == |a| - |If(x in a, x)| + |If(x in b, x)|
  {
    assert a - {x} == b - {x};
    assert |a - {x}| == |a| - |If(x in a, x)| && |b - {x}| == |b| - |If(x in b, x)|;
  }

  lemma NoLongerAsleep(ws: map<nat, Worker>, w: nat, x: Worker)
    requires w in ws && !x.Asleep?
    ensures Sleepers(ws[w := x]) == Sleepers(ws) - {w}
  {
  }

  lemma NoLongerWaiting(ps: map<nat, Producer>, p: nat, x: Producer)
    requires p in ps && !x.AsleepWith?
    ensures SleepingProducers(ps[p := x]) == SleepingProducers(ps) - {p}
  {
  }

  /** One worker changing its own state moves each set by at most itself. */
  lemma WorkerMoves(ws: map<nat, Worker>, w: nat, x: Worker)
    requires w in ws
    ensures x.Asleep? || Sleepers(ws[w := x]) == Sleepers(ws) - {w}
    ensures |WokenWorkers(ws[w := x])| == |WokenWorkers(ws)| - |If(ws[w].Woken?, w)| + |If(x.Woken?, w)|
  {
    if !x.Asleep? { NoLongerAsleep(ws, w, x); }
    var a, b := WokenWorkers(ws), WokenWorkers(ws[w := x]);
    forall v | v != w ensures v in a <==> v in b {}
    Toggle(a, b, w);
  }

  lemma ProducerMoves(ps: map<nat, Producer>, p: nat, x: Producer)
    requires p in ps
    ensures x.AsleepWith? || SleepingProducers(ps[p := x]) == SleepingProducers(ps) - {p}
    ensures |WokenProducers(ps[p := x])| == |WokenProducers(ps)| - |If(ps[p].WokenWith?, p)| + |If(x.WokenWith?, p)|
  {
    if !x.AsleepWith? { NoLongerWaiting(ps, p, x); }
    var a, b := WokenProducers(ps), WokenProducers(ps[p := x]);
    forall q | q != p ensures q in a <==> q in b {}
    Toggle(a, b, p);
  }

  // ---- steps ----

  lemma WaitForRoomKeepsInv(s: State, p: nat, task: Task)
    requires Inv(s) && s.workers != map[] && p in s.producers && IsFull(s.ring)
    ensures Inv(s.(producers := s.producers[p := AsleepWith(task)]))
  {
    FullEmptyExact(s.ring);
  }

  /** A stored task may wake up a worker; a producer that had been woken uses its slot up. */
  lemma StoreKeepsSignals(s: State, p: nat, task: Task, woken: set<nat>)
    requires Inv(s) && p in s.producers && !s.producers[p].AsleepWith? && !IsFull(s.ring)
    requires Signal(Sleepers(s.workers), woken)
    ensures TryRun(s, p, task, woken).Fine?
    ensures NotEmptySignalled(TryRun(s, p, task, woken).value) && NotFullSignalled(TryRun(s, p, task, woken).value)
  {
    PushAppends(s.ring, task);
    ProducerMoves(s.producers, p, Away);
    WakeWorkersCounts(s.workers, woken);
    if woken != {} {
      var w :| w in woken;
      assert |woken| == |woken - {w}| + 1;
    }
  }

  lemma TryRunKeepsInv(s: State, p: nat, task: Task, woken: set<nat>)
    requires Inv(s) && s.workers != map[] && p in s.producers && !s.producers[p].AsleepWith?
    requires Signal(Sleepers(s.workers), woken)
    ensures TryRun(s, p, task, woken).Fine? && Inv(TryRun(s, p, task, woken).value)
  {
    if IsFull(s.ring) {
      WaitForRoomKeepsInv(s, p, task);
    } else {
      PushAppends(s.ring, task);
      StoreKeepsSignals(s, p, task, woken);
      assert WakeWorkers(s.workers, woken).Keys == s.workers.Keys;
      assert s.taken + Contents(s.ring) + [task] == s.taken + (Contents(s.ring) + [task]);
    }
  }

  lemma WaitForTaskKeepsInv(s: State, w: nat)
    requires Inv(s) && w in s.workers && IsEmpty(s.ring)
    ensures Inv(s.(workers := s.workers[w := if s.running then Asleep else Testing]))
  {
    FullEmptyExact(s.ring);
    if !s.running { WorkerMoves(s.workers, w, Testing); }
  }

  /** A removed task may wake up a producer; a worker that had been woken takes its task away. */
  lemma RemoveKeepsSignals(s: State, w: nat, woken: set<nat>)
    requires Inv(s) && Enabled(s, Take(w, woken)) && !IsEmpty(s.ring)
    ensures TryTake(s, w, woken).Fine?
    ensures NotEmptySignalled(TryTake(s, w, woken).value) && NotFullSignalled(TryTake(s, w, woken).value)
    ensures !s.running ==> Sleepers(TryTake(s, w, woken).value.workers) == {}
  {
    PopTakesFirst(s.ring);
    FullEmptyExact(s.ring);
    WorkerMoves(s.workers, w, Running(Pop(s.ring).value.0));
    WakeProducersCounts(s.producers, woken);
    if woken != {} {
      var p :| p in woken;
      assert |woken| == |woken - {p}| + 1;
    }
  }

  lemma TryTakeKeepsInv(s: State, w: nat, woken: set<nat>)
    requires Inv(s) && Enabled(s, Take(w, woken))
    ensures TryTake(s, w, woken).Fine? && Inv(TryTake(s, w, woken).value)
  {
    if IsEmpty(s.ring) {
      WaitForTaskKeepsInv(s, w);
    } else {
      PopTakesFirst(s.ring);
      RemoveKeepsSignals(s, w, woken);
      var r := Pop(s.ring).value;
      assert s.taken + ([r.0] + Contents(r.1)) == s.taken + [r.0] + Contents(r.1);
    }
  }

  lemma WorkerStepKeepsInv(s: State, w: nat, x: Worker)
    requires Inv(s) && w in s.workers && !s.workers[w].Woken? && !x.Asleep? && (s.running ==> !x.Exited?)
    ensures Inv(s.(workers := s.workers[w := x]))
  {
    WorkerMoves(s.workers, w, x);
  }

  lemma OtherStepsKeepInv(s: State, e: Event)
    requires Inv(s) && Enabled(s, e)
    requires e.LoopTest? || e.Finish? || e.SpuriousWorker? || e.SpuriousProducer? || e.Stop?
    ensures Apply(s, e).Fine? && Inv(Apply(s, e).value)
  {
    match e
    case LoopTest(w) => WorkerStepKeepsInv(s, w, if s.running then Taking else Exited);
    case Finish(w) => WorkerStepKeepsInv(s, w, Testing);
    case SpuriousWorker(w) => WorkerStepKeepsInv(s, w, Woken);
    case SpuriousProducer(p) =>
      WakeProducersCounts(s.producers, {p});
    case Stop =>
      WakeWorkersCounts(s.workers, Sleepers(s.workers));
      assert WakeWorkers(s.workers, Sleepers(s.workers)).Keys == s.workers.Keys;
  }

  lemma StepKeepsInv(s: State, e: Event)
    requires Inv(s) && Enabled(s, e)
    ensures Apply(s, e).Fine? && Inv(Apply(s, e).value)
  {
    match e
    case Submit(p, task, woken) =>
      if s.workers != map[] { TryRunKeepsInv(s, p, task, woken); }
    case Retry(p, woken) => TryRunKeepsInv(s, p, s.producers[p].task, woken);
    case Take(w, woken) => TryTakeKeepsInv(s, w, woken);
    case _ => OtherStepsKeepInv(s, e);
  }

  /** No interleaving faults, loses a wakeup, or loses, repeats or reorders a task. */
  lemma {:induction false} RunKeepsInv(s: State, es: seq<Event>)
    requires Inv(s) && Legal(s, es)
    ensures Exec(s, es).Fine? && Inv(Exec(s, es).value)
    decreases |es|
  {
    if es != [] {
      StepKeepsInv(s, es[0]);
      RunKeepsInv(Apply(s, es[0]).value, es[1..]);
    }
  }

  lemma WholeRun(capacity: nat, workers: set<nat>, producers: set<nat>, es: seq<Event>)
    requires capacity > 0 && Legal(Started(capacity, workers, producers), es)
    ensures Exec(Started(capacity, workers, producers), es).Fine?
    ensures Inv(Exec(Started(capacity, workers, producers), es).value)
  {
    var s := Started(capacity, workers, producers);
    EmptyRing(capacity);
    assert Sleepers(s.workers) == {} && SleepingProducers(s.producers) == {};
    RunKeepsInv(s, es);
  }

  /** Capacity zero is fatal: the first worker that takes faults, ... */
  lemma ZeroCapacityTakeFaults(workers: set<nat>, producers: set<nat>, w: nat)
    requires w in workers
    ensures var s := Started(0, workers, producers);
      Legal(s, [LoopTest(w), Take(w, {})]) && Exec(s, [LoopTest(w), Take(w, {})]).Fault?
  {
    var s := Started(0, workers, producers);
    ZeroCapacity(0);
    assert w in s.workers;
    var t := s.(workers := s.workers[w := Taking]);
    assert SleepingProducers(t.producers) == {};
    assert [LoopTest(w), Take(w, {})][1..] == [Take(w, {})];
    assert Apply(s, LoopTest(w)) == Fine(t) && Apply(t, Take(w, {})).Fault?;
    assert Legal(t, [Take(w, {})]) && Exec(t, [Take(w, {})]).Fault?;
  }

  /** ... and so does the first task that is submitted. */
  lemma ZeroCapacityRunFaults(workers: set<nat>, producers: set<nat>, p: nat, task: Task)
    requires workers != {} && p in producers
    ensures var s := Started(0, workers, producers);
      Legal(s, [Submit(p, task, {})]) && Exec(s, [Submit(p, task, {})]).Fault?
  {
    var s := Started(0, workers, producers);
    ZeroCapacity(task);
    var w :| w in workers;
    assert w in s.workers && p in s.producers && Sleepers(s.workers) == {};
  }

  /** A pool with workers has a run that faults iff its capacity is zero. */
  lemma FaultsIffZeroCapacity(capacity: nat, workers: set<nat>, producers: set<nat>)
    requires workers != {}
    ensures var s := Started(capacity, workers, producers);
      (exists es :: Legal(s, es) && Exec(s, es).Fault?) <==> capacity == 0
  {
    var s := Started(capacity, workers, producers);
    if capacity == 0 {
      var w :| w in workers;
      ZeroCapacityTakeFaults(workers, producers, w);
    } else {
      forall es | Legal(s, es) ensures Exec(s, es).Fine? {
        WholeRun(capacity, workers, producers, es);
      }
    }
  }

  lemma AllAsleep(ws: map<nat, Worker>)
    requires forall w <- ws :: ws[w].Asleep?
    ensures WokenWorkers(ws) == {}
  {
  }

  /** While tasks are queued, some worker is awake to take them, and in a running pool has not left. */
  lemma QueuedTaskHasTaker(s: State)
    requires Inv(s) && s.workers != map[] && Contents(s.ring) != []
    ensures exists w <- s.workers :: !s.workers[w].Asleep? && (s.running ==> !s.workers[w].Exited?)
  {
    if forall w <- s.workers :: s.workers[w].Asleep? {
      var w :| w in s.workers;
      assert w in Sleepers(s.workers);
      AllAsleep(s.workers);
    }
  }

  // ---- stopping ----

  /** Steps a worker can still make before it leaves, once running_ is false. */
  function StepsLeft(x: Worker): nat {
    match x
    case Exited => 0
    case Testing => 1
    case Running(_) => 2
    case _ => 3
  }

  predicate Moves(e: Event, w: nat) {
    (e.LoopTest? || e.Take? || e.Finish?) && e.w == w
  }

  /** After stop() a worker that has not left can move at once, ... */
  lemma StoppedWorkerCanMove(s: State, w: nat)
    requires Inv(s) && !s.running && w in s.workers && !s.workers[w].Exited?
    ensures exists e :: Enabled(s, e) && Moves(e, w)
  {
    assert w !in Sleepers(s.workers);
    match s.workers[w]
    case Testing => assert Enabled(s, LoopTest(w)) && Moves(LoopTest(w), w);
    case Running(_) => assert Enabled(s, Finish(w)) && Moves(Finish(w), w);
    case Taking =>
      var e := Take(w, SleepingProducers(s.producers));
      assert Enabled(s, e) && Moves(e, w);
    case Woken =>
      var e := Take(w, SleepingProducers(s.producers));
      assert Enabled(s, e) && Moves(e, w);
    case Asleep =>
    case Exited =>
  }

  /** ... each of its moves brings it closer to the exit, and no other step sets it back. */
  lemma StoppedWorkerLeaves(s: State, w: nat, e: Event)
    requires Inv(s) && !s.running && w in s.workers && Enabled(s, e)
    ensures Apply(s, e).Fine? && !Apply(s, e).value.running && w in Apply(s, e).value.workers
    ensures Moves(e, w) ==> StepsLeft(Apply(s, e).value.workers[w]) < StepsLeft(s.workers[w])
    ensures !Moves(e, w) ==> StepsLeft(Apply(s, e).value.workers[w]) == StepsLeft(s.workers[w])
  {
    StepKeepsInv(s, e);
    assert w !in Sleepers(s.workers);
  }

  function MoveCount(es: seq<Event>, w: nat): nat {
    if es == [] then 0 else (if Moves(es[0], w) then 1 else 0) + MoveCount(es[1..], w)
  }

  /** So join() returns: in every run after stop() each worker makes at most three moves. */
  lemma {:induction false} AtMostThreeMoves(s: State, es: seq<Event>, w: nat)
    requires Inv(s) && !s.running && w in s.workers && Legal(s, es)
    ensures MoveCount(es, w) <= StepsLeft(s.workers[w]) <= 3
    decreases |es|
  {
    if es != [] {
      StoppedWorkerLeaves(s, w, es[0]);
      StepKeepsInv(s, es[0]);
      AtMostThreeMoves(Apply(s, es[0]).value, es[1..], w);
    }
  }

  // ---- what stopping abandons ----

  /** The workers inside take(). */
  function Takers(s: State): set<nat> {
    set w | w in s.workers && (s.workers[w].Taking? || s.workers[w].Woken?)
  }

  lemma StoppedStepTakes(s: State, e: Event)
    requires Inv(s) && !s.running && Enabled(s, e)
    ensures Apply(s, e).Fine?
    ensures var t := Apply(s, e).value;
      Takers(t) <= Takers(s) && |t.taken| + |Takers(t)| <= |s.taken| + |Takers(s)|
  {
    StepKeepsInv(s, e);
    assert Sleepers(s.workers) == {};
    var t := Apply(s, e).value;
    forall w <- Takers(t) ensures w in Takers(s) {
      assert w in s.workers && w !in Sleepers(s.workers);
    }
    if e.Take? {
      assert e.w in Takers(s) && e.w !in Takers(t) && Takers(t) <= Takers(s) - {e.w};
      SubsetSmaller(Takers(t), Takers(s) - {e.w});
    } else {
      SubsetSmaller(Takers(t), Takers(s));
    }
  }

  lemma {:induction false} SubsetSmaller(a: set<nat>, b: set<nat>)
    requires a <= b
    ensures |a| <= |b|
    decreases |a|
  {
    if a != {} {
      var x :| x in a;
      SubsetSmaller(a - {x}, b - {x});
    }
  }

  /** After stop() no run takes more tasks than there are workers inside take(). */
  lemma {:induction false} StoppedRunTakes(s: State, es: seq<Event>)
    requires Inv(s) && !s.running && Legal(s, es)
    ensures Exec(s, es).Fine? && |Exec(s, es).value.taken| <= |s.taken| + |Takers(s)|
    decreases |es|
  {
    if es != [] {
      StepKeepsInv(s, es[0]);
      StoppedStepTakes(s, es[0]);
      StoppedRunTakes(Apply(s, es[0]).value, es[1..]);
    }
  }

  lemma TakerTakes(s: State, w: nat)
    requires Inv(s) && !s.running && w in Takers(s) && Contents(s.ring) != []
    ensures var e := Take(w, SleepingProducers(s.producers));
      && Enabled(s, e) && Apply(s, e).Fine? && Inv(Apply(s, e).value) && !Apply(s, e).value.running
      && Takers(Apply(s, e).value) == Takers(s) - {w}
      && |Apply(s, e).value.taken| == |s.taken| + 1 && |Contents(Apply(s, e).value.ring)| == |Contents(s.ring)| - 1
  {
    FullEmptyExact(s.ring);
    PopTakesFirst(s.ring);
    StepKeepsInv(s, Take(w, SleepingProducers(s.producers)));
  }

  /** A run that takes as many, while that many are queued. */
  lemma {:induction false} TakersTake(s: State, n: nat) returns (es: seq<Event>)
    requires Inv(s) && !s.running && n <= |Takers(s)| && n <= |Contents(s.ring)|
    ensures Legal(s, es) && Exec(s, es).Fine? && |Exec(s, es).value.taken| == |s.taken| + n
    decreases n
  {
    es := [];
    if n > 0 {
      var w :| w in Takers(s);
      var e := Take(w, SleepingProducers(s.producers));
      TakerTakes(s, w);
      var rest := TakersTake(Apply(s, e).value, n - 1);
      es := [e] + rest;
      assert es[1..] == rest;
    }
  }

  /** So the n-th queued task can still be taken iff n workers are inside take() when the pool is
      stopped; the others are abandoned. */
  lemma StopAbandonsIff(s: State, n: nat)
    requires Inv(s) && !s.running && n <= |Contents(s.ring)|
    ensures (exists es :: Legal(s, es) && Exec(s, es).Fine? && |Exec(s, es).value.taken| >= |s.taken| + n)
            <==> n <= |Takers(s)|
  {
    if n <= |Takers(s)| {
      var es := TakersTake(s, n);
    } else {
      forall es | Legal(s, es) ensures Exec(s, es).Fine? && |Exec(s, es).value.taken| < |s.taken| + n {
        StoppedRunTakes(s, es);
      }
    }
  }

  // stop() does not wake producers: only a worker that is still inside take() can.

  predicate InTake(s: State) {
    Takers(s) != {}
  }

  ghost predicate Stranded(s: State, p: nat) {
    !s.running && !InTake(s) && p in s.producers && s.producers[p].AsleepWith?
  }

  lemma StepKeepsStranded(s: State, e: Event, p: nat)
    requires Inv(s) && Stranded(s, p) && Enabled(s, e) && e != SpuriousProducer(p)
    ensures Apply(s, e).Fine? && Stranded(Apply(s, e).value, p)
  {
    StoppedStepTakes(s, e);
  }

  /** Then no run, barring a spurious wakeup, ever wakes it. */
  lemma {:induction false} StrandedForever(s: State, es: seq<Event>, p: nat)
    requires Inv(s) && Stranded(s, p) && Legal(s, es) && SpuriousProducer(p) !in es
    ensures Exec(s, es).Fine? && Stranded(Exec(s, es).value, p)
    decreases |es|
  {
    if es != [] {
      assert es[0] in es;
      StepKeepsInv(s, es[0]);
      StepKeepsStranded(s, es[0], p);
      StrandedForever(Apply(s, es[0]).value, es[1..], p);
    }
  }

  /** A run without a spurious wakeup of p that ends with p awake. */
  ghost predicate Wakes(s: State, es: seq<Event>, p: nat) {
    && Legal(s, es) && SpuriousProducer(p) !in es
    && Exec(s, es).Fine? && p in Exec(s, es).value.producers && !Exec(s, es).value.producers[p].AsleepWith?
  }

  lemma TakeWakes(s: State, w: nat, p: nat)
    requires Inv(s) && p in s.producers && s.producers[p].AsleepWith? && !IsEmpty(s.ring)
    requires w in s.workers && (s.workers[w].Taking? || s.workers[w].Woken?)
    ensures Wakes(s, [Take(w, {p})], p)
  {
    var e := Take(w, {p});
    assert Signal(SleepingProducers(s.producers), {p});
    PopTakesFirst(s.ring);
    FullEmptyExact(s.ring);
    FullEmptyExact(Pop(s.ring).value.1);
    var t := Apply(s, e).value;
    assert [e][1..] == [] && Legal(t, []) && Exec(t, []) == Fine(t);
  }

  /** With an empty ring a woken producer goes first: there is one for every free slot. */
  lemma RetryThenTakeWakes(s: State, w: nat, p: nat) returns (es: seq<Event>)
    requires Inv(s) && !s.running && p in s.producers && s.producers[p].AsleepWith? && IsEmpty(s.ring)
    requires w in s.workers && (s.workers[w].Taking? || s.workers[w].Woken?)
    ensures Wakes(s, es, p)
  {
    FullEmptyExact(s.ring);
    assert p in SleepingProducers(s.producers);
    assert WokenProducers(s.producers) != {};
    var q :| q in WokenProducers(s.producers);
    var e := Retry(q, {});
    assert Enabled(s, e);
    StepKeepsInv(s, e);
    var task := s.producers[q].task;
    PushAppends(s.ring, task);
    var t := Apply(s, e).value;
    FullEmptyExact(t.ring);
    assert t.workers[w] == s.workers[w];
    TakeWakes(t, w, p);
    es := [e] + [Take(w, {p})];
    assert es[1..] == [Take(w, {p})];
  }

  /** After stop() a producer waiting for room can still be woken iff some worker is inside take(). */
  lemma StrandedIff(s: State, p: nat)
    requires Inv(s) && !s.running && p in s.producers && s.producers[p].AsleepWith?
    ensures (exists es :: Wakes(s, es, p)) <==> InTake(s)
  {
    if InTake(s) {
      var w :| w in Takers(s);
      if IsEmpty(s.ring) {
        var es := RetryThenTakeWakes(s, w, p);
      } else {
        TakeWakes(s, w, p);
      }
    } else {
      forall es ensures !Wakes(s, es, p) {
        if Legal(s, es) && SpuriousProducer(p) !in es {
          StrandedForever(s, es, p);
        }
      }
    }
  }

  /** The situation arises: one worker, room for one task, two submissions and a stop. */
  lemma StopStrandsProducer()
    ensures var s := Started(1, {0}, {0, 1});
      var es := [Submit(0, 7, {}), Submit(1, 8, {}), Stop];
      Legal(s, es) && Exec(s, es).Fine? && Stranded(Exec(s, es).value, 1)
  {
    var s := Started(1, {0}, {0, 1});
    var es := [Submit(0, 7, {}), Submit(1, 8, {}), Stop];
    assert Sleepers(s.workers) == {};
    EmptyRing(1);
    FullEmptyExact(s.ring);
    PushAppends(s.ring, 7);
    assert 0 in s.workers;
    var t := Apply(s, es[0]).value;
    FullEmptyExact(t.ring);
    assert Sleepers(t.workers) == {};
    assert 0 in t.workers;
    var u := Apply(t, es[1]).value;
    assert IsFull(t.ring) && u.producers[1] == AsleepWith(8);
    var v := Apply(u, es[2]).value;
    assert es[1..] == [Submit(1, 8, {}), Stop] && es[1..][1..] == [Stop] && es[1..][1..][1..] == [];
    assert Legal(v, []) && Exec(u, [Stop]) == Fine(v) && Exec(t, es[1..]) == Fine(v);
  }
}
