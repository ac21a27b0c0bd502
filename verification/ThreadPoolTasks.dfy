/** Where submitted tasks go: none is lost or repeated on the way in or out, a running pool gets to each
    of them, and without workers they are executed on the spot. */
module ThreadPoolTasks {
  import opened Outcomes
  import opened TaskRing
  import opened ThreadPoolSpec
  import opened ThreadPoolProofs

  function Count(s: seq<Task>, t: Task): nat {
    if s == [] then 0 else Count(s[..|s| - 1], t) + if s[|s| - 1] == t then 1 else 0
  }

  lemma CountSnoc(s: seq<Task>, x: Task, t: Task)
    ensures Count(s + [x], t) == Count(s, t) + if x == t then 1 else 0
  {
    assert (s + [x])[..|s|] == s;
  }

  // ---- on the way in ----

  /** The tasks that a run's calls of run() bring, in order. */
  function Brought(es: seq<Event>): seq<Task> {
    if es == [] then [] else (if es[0].Submit? then [es[0].task] else []) + Brought(es[1..])
  }

  function Holds(x: Producer): seq<Task> {
    match x
    case Away => []
    case AsleepWith(task) => [task]
    case WokenWith(task) => [task]
  }

  /** The producers that wait with this task. */
  function Holders(ps: map<nat, Producer>, t: Task): set<nat> {
    set p | p in ps && Holds(ps[p]) == [t]
  }

  /** Where a task brought so far can be: executed on the spot, stored, or waiting with its producer. */
  function In(s: State, t: Task): nat {
    Count(s.inlined, t) + Count(s.submitted, t) + |Holders(s.producers, t)|
  }

  lemma HolderMoves(ps: map<nat, Producer>, p: nat, x: Producer, t: Task)
    requires p in ps
    ensures |Holders(ps[p := x], t)| ==
            |Holders(ps, t)| - (if Holds(ps[p]) == [t] then 1 else 0) + (if Holds(x) == [t] then 1 else 0)
  {
    var a, b := Holders(ps, t), Holders(ps[p := x], t);
    forall q | q != p ensures q in a <==> q in b {}
    Toggle(a, b, p);
  }

  lemma WakingHolds(ps: map<nat, Producer>, woken: set<nat>, t: Task)
    ensures Holders(WakeProducers(ps, woken), t) == Holders(ps, t)
  {
    forall p ensures p in Holders(WakeProducers(ps, woken), t) <==> p in Holders(ps, t) {}
  }

  lemma TryRunStores(s: State, p: nat, task: Task, woken: set<nat>, t: Task)
    requires Inv(s) && p in s.producers && !s.producers[p].AsleepWith?
    requires s.producers[p].WokenWith? ==> s.producers[p].task == task
    ensures TryRun(s, p, task, woken).Fine?
    ensures In(TryRun(s, p, task, woken).value, t) ==
            In(s, t) + if s.producers[p].Away? && task == t then 1 else 0
  {
    if IsFull(s.ring) {
      HolderMoves(s.producers, p, AsleepWith(task), t);
    } else {
      PushAppends(s.ring, task);
      HolderMoves(s.producers, p, Away, t);
      CountSnoc(s.submitted, task, t);
    }
  }

  lemma StepBrings(s: State, e: Event, t: Task)
    requires Inv(s) && Enabled(s, e)
    ensures Apply(s, e).Fine?
    ensures In(Apply(s, e).value, t) == In(s, t) + if e.Submit? && e.task == t then 1 else 0
  {
    StepKeepsInv(s, e);
    match e
    case Submit(p, task, woken) =>
      if s.workers == map[] { CountSnoc(s.inlined, task, t); } else { TryRunStores(s, p, task, woken, t); }
    case Retry(p, woken) => TryRunStores(s, p, s.producers[p].task, woken, t);
    case SpuriousProducer(p) => WakingHolds(s.producers, {p}, t);
    case Take(w, woken) => WakingHolds(s.producers, woken, t);
    case _ =>
  }

  lemma {:induction false} CountFront(x: seq<Task>, y: seq<Task>, t: Task)
    ensures Count(x + y, t) == Count(x, t) + Count(y, t)
    decreases |y|
  {
    if y == [] {
      assert x + y == x;
    } else {
      CountFront(x, y[..|y| - 1], t);
      assert (x + y)[..|x + y| - 1] == x + y[..|y| - 1];
    }
  }

  lemma CountOne(x: Task, t: Task)
    ensures Count([x], t) == if x == t then 1 else 0
  {
    CountSnoc([], x, t);
    assert [] + [x] == [x];
  }

  lemma BroughtFirst(es: seq<Event>, t: Task)
    requires es != []
    ensures Count(Brought(es), t) == Count(Brought(es[1..]), t) + if es[0].Submit? && es[0].task == t then 1 else 0
  {
    if es[0].Submit? {
      CountOne(es[0].task, t);
      CountFront([es[0].task], Brought(es[1..]), t);
    } else {
      assert [] + Brought(es[1..]) == Brought(es[1..]);
    }
  }

  lemma {:induction false} RunBrings(s: State, es: seq<Event>, t: Task)
    requires Inv(s) && Legal(s, es)
    ensures Exec(s, es).Fine? && In(Exec(s, es).value, t) == In(s, t) + Count(Brought(es), t)
    decreases |es|
  {
    if es != [] {
      StepKeepsInv(s, es[0]);
      StepBrings(s, es[0], t);
      RunBrings(Apply(s, es[0]).value, es[1..], t);
      BroughtFirst(es, t);
    }
  }

  // ---- on the way out ----

  /** The tasks whose execution has ended in a run, in order. */
  function Ended(s: State, es: seq<Event>): seq<Task>
    requires Legal(s, es)
    decreases |es|
  {
    if es == [] || Apply(s, es[0]).Fault? then []
    else (if es[0].Finish? then [s.workers[es[0].w].task] else []) + Ended(Apply(s, es[0]).value, es[1..])
  }

  /** The workers that execute this task. */
  function Executing(ws: map<nat, Worker>, t: Task): set<nat> {
    set w | w in ws && ws[w] == Running(t)
  }

  lemma ExecutingMoves(ws: map<nat, Worker>, w: nat, x: Worker, t: Task)
    requires w in ws
    ensures |Executing(ws[w := x], t)| ==
            |Executing(ws, t)| - (if ws[w] == Running(t) then 1 else 0) + (if x == Running(t) then 1 else 0)
  {
    var a, b := Executing(ws, t), Executing(ws[w := x], t);
    forall v | v != w ensures v in a <==> v in b {}
    Toggle(a, b, w);
  }

  lemma WakingExecutes(ws: map<nat, Worker>, woken: set<nat>, t: Task)
    requires woken <= Sleepers(ws)
    ensures Executing(WakeWorkers(ws, woken), t) == Executing(ws, t)
  {
    forall w ensures w in Executing(WakeWorkers(ws, woken), t) <==> w in Executing(ws, t) {}
  }

  lemma TakeHandsOver(s: State, w: nat, woken: set<nat>, t: Task)
    requires Inv(s) && Enabled(s, Take(w, woken)) && Apply(s, Take(w, woken)).Fine?
    ensures var u := Apply(s, Take(w, woken)).value;
      Count(u.taken, t) + |Executing(s.workers, t)| == Count(s.taken, t) + |Executing(u.workers, t)|
  {
    FullEmptyExact(s.ring);
    if IsEmpty(s.ring) {
      ExecutingMoves(s.workers, w, if s.running then Asleep else Testing, t);
    } else {
      PopTakesFirst(s.ring);
      var task := Pop(s.ring).value.0;
      ExecutingMoves(s.workers, w, Running(task), t);
      CountSnoc(s.taken, task, t);
    }
  }

  lemma StepEnds(s: State, e: Event, t: Task)
    requires Inv(s) && Enabled(s, e)
    ensures Apply(s, e).Fine?
    ensures var u := Apply(s, e).value;
      Count(u.taken, t) + |Executing(s.workers, t)| ==
      Count(s.taken, t) + |Executing(u.workers, t)| + if e.Finish? && s.workers[e.w].task == t then 1 else 0
  {
    StepKeepsInv(s, e);
    match e
    case Submit(p, task, woken) => WakingExecutes(s.workers, woken, t);
    case Retry(p, woken) => WakingExecutes(s.workers, woken, t);
    case LoopTest(w) => ExecutingMoves(s.workers, w, if s.running then Taking else Exited, t);
    case Take(w, woken) => TakeHandsOver(s, w, woken, t);
    case Finish(w) => ExecutingMoves(s.workers, w, Testing, t);
    case SpuriousWorker(w) => ExecutingMoves(s.workers, w, Woken, t);
    case Stop => WakingExecutes(s.workers, Sleepers(s.workers), t);
    case SpuriousProducer(p) =>
  }

  lemma {:induction false} RunEnds(s: State, es: seq<Event>, t: Task)
    requires Inv(s) && Legal(s, es)
    ensures Exec(s, es).Fine?
    ensures var u := Exec(s, es).value;
      Count(u.taken, t) + |Executing(s.workers, t)| ==
      Count(s.taken, t) + |Executing(u.workers, t)| + Count(Ended(s, es), t)
    decreases |es|
  {
    if es != [] {
      var e := es[0];
      StepKeepsInv(s, e);
      StepEnds(s, e, t);
      RunEnds(Apply(s, e).value, es[1..], t);
      var first := if e.Finish? then [s.workers[e.w].task] else [];
      CountFront(first, Ended(Apply(s, e).value, es[1..]), t);
      if e.Finish? { CountOne(s.workers[e.w].task, t); }
    }
  }

  /** In every run: each task brought has been executed on the spot, waits with its producer, or has been
      stored; what was stored is taken in order and then still queued; and what was taken has been
      executed or is being executed, each as many times as it was brought. */
  lemma EveryTaskAccounted(capacity: nat, workers: set<nat>, producers: set<nat>, es: seq<Event>, t: Task)
    requires capacity > 0 && Legal(Started(capacity, workers, producers), es)
    ensures Exec(Started(capacity, workers, producers), es).Fine?
    ensures var s, u := Started(capacity, workers, producers), Exec(Started(capacity, workers, producers), es).value;
      && RingOk(u.ring) && u.submitted == u.taken + Contents(u.ring)
      && Count(Brought(es), t) == Count(u.inlined, t) + Count(u.submitted, t) + |Holders(u.producers, t)|
      && Count(u.taken, t) == Count(Ended(s, es), t) + |Executing(u.workers, t)|
  {
    var s := Started(capacity, workers, producers);
    WholeRun(capacity, workers, producers, []);
    WholeRun(capacity, workers, producers, es);
    assert Exec(s, []) == Fine(s);
    RunBrings(s, es, t);
    RunEnds(s, es, t);
    assert Holders(s.producers, t) == {} && Executing(s.workers, t) == {};
  }

  lemma Assoc(x: seq<Task>, y: seq<Task>, z: seq<Task>)
    ensures x + y + z == x + (y + z)
  {
  }

  /** Without workers every task is executed on the spot, in order. */
  lemma {:induction false} InlinedInOrder(s: State, es: seq<Event>)
    requires Inv(s) && s.workers == map[] && Legal(s, es)
    ensures Exec(s, es).Fine? && Exec(s, es).value.inlined == s.inlined + Brought(es)
    ensures Exec(s, es).value.submitted == s.submitted
    decreases |es|
  {
    if es != [] {
      StepKeepsInv(s, es[0]);
      NoWorkersStep(s, es[0]);
      InlinedInOrder(Apply(s, es[0]).value, es[1..]);
      Assoc(s.inlined, if es[0].Submit? then [es[0].task] else [], Brought(es[1..]));
    } else {
      assert s.inlined + [] == s.inlined;
    }
  }

  lemma NoWorkersStep(s: State, e: Event)
    requires Inv(s) && s.workers == map[] && Enabled(s, e)
    ensures Apply(s, e).Fine? && Apply(s, e).value.workers == map[] && Apply(s, e).value.submitted == s.submitted
    ensures Apply(s, e).value.inlined == s.inlined + if e.Submit? then [e.task] else []
  {
    if e.Stop? { assert WakeWorkers(s.workers, Sleepers(s.workers)) == map[]; }
  }

  // ---- a running pool ----

  /** running_ is true until the first stop(). */
  lemma {:induction false} RunsUntilStop(s: State, es: seq<Event>)
    requires Inv(s) && Legal(s, es)
    ensures Exec(s, es).Fine? && (Exec(s, es).value.running <==> s.running && Stop !in es)
    decreases |es|
  {
    if es != [] {
      StepKeepsInv(s, es[0]);
      assert Apply(s, es[0]).value.running <==> s.running && !es[0].Stop?;
      RunsUntilStop(Apply(s, es[0]).value, es[1..]);
    }
  }

  /** No worker leaves before stop(). */
  lemma NoneLeavesRunning(capacity: nat, workers: set<nat>, producers: set<nat>, es: seq<Event>)
    requires capacity > 0 && Legal(Started(capacity, workers, producers), es) && Stop !in es
    ensures Exec(Started(capacity, workers, producers), es).Fine?
    ensures var u := Exec(Started(capacity, workers, producers), es).value;
      u.running && NoneLeft(u.workers)
  {
    WholeRun(capacity, workers, producers, []);
    WholeRun(capacity, workers, producers, es);
    assert Exec(Started(capacity, workers, producers), []) == Fine(Started(capacity, workers, producers));
    RunsUntilStop(Started(capacity, workers, producers), es);
  }

  ghost predicate Busy(s: State) {
    Inv(s) && s.running && Contents(s.ring) != []
  }

  /** The worker w takes the oldest task by es. */
  ghost predicate TakesOldest(s: State, es: seq<Event>)
    requires Inv(s)
  {
    && Contents(s.ring) != [] && Legal(s, es) && Exec(s, es).Fine? && Inv(Exec(s, es).value)
    && Exec(s, es).value.running && Exec(s, es).value.workers != map[]
    && Exec(s, es).value.taken == s.taken + [Contents(s.ring)[0]]
    && Contents(Exec(s, es).value.ring) == Contents(s.ring)[1..]
  }

  lemma Ready(s: State, w: nat)
    requires Busy(s) && w in s.workers && (s.workers[w].Taking? || s.workers[w].Woken?)
    ensures TakesOldest(s, [Take(w, SleepingProducers(s.producers))])
  {
    var e := Take(w, SleepingProducers(s.producers));
    StepKeepsInv(s, e);
    FullEmptyExact(s.ring);
    PopTakesFirst(s.ring);
    var t := Apply(s, e).value;
    var r := Pop(s.ring).value;
    assert Contents(s.ring) == [r.0] + Contents(r.1);
    assert [e][1..] == [] && Legal(t, []) && Exec(t, []) == Fine(t);
    assert w in t.workers;
  }

  lemma Before(s: State, e: Event, es: seq<Event>)
    requires Inv(s) && Enabled(s, e) && Apply(s, e).Fine? && Inv(Apply(s, e).value)
    requires Apply(s, e).value.ring == s.ring && Apply(s, e).value.taken == s.taken
    requires TakesOldest(Apply(s, e).value, es)
    ensures TakesOldest(s, [e] + es)
  {
    assert ([e] + es)[1..] == es;
  }

  /** Whatever a worker that is awake is doing, it can come round and take the oldest task. */
  lemma AwakeTakes(s: State, w: nat) returns (es: seq<Event>)
    requires Busy(s) && w in s.workers && !s.workers[w].Asleep?
    ensures TakesOldest(s, es)
    decreases if s.workers[w].Running? then 2 else if s.workers[w].Testing? then 1 else 0
  {
    match s.workers[w]
    case Running(_) =>
      StepKeepsInv(s, Finish(w));
      es := AwakeTakes(Apply(s, Finish(w)).value, w);
      Before(s, Finish(w), es);
      es := [Finish(w)] + es;
    case Testing =>
      StepKeepsInv(s, LoopTest(w));
      es := AwakeTakes(Apply(s, LoopTest(w)).value, w);
      Before(s, LoopTest(w), es);
      es := [LoopTest(w)] + es;
    case _ =>
      Ready(s, w);
      es := [Take(w, SleepingProducers(s.producers))];
  }

  lemma {:induction false} RunsJoin(s: State, xs: seq<Event>, ys: seq<Event>)
    requires Legal(s, xs) && Exec(s, xs).Fine? && Legal(Exec(s, xs).value, ys)
    ensures Legal(s, xs + ys) && Exec(s, xs + ys) == Exec(Exec(s, xs).value, ys)
    decreases |xs|
  {
    if xs == [] {
      assert xs + ys == ys;
    } else {
      assert (xs + ys)[1..] == xs[1..] + ys;
      RunsJoin(Apply(s, xs[0]).value, xs[1..], ys);
    }
  }

  lemma OldestTaken(s: State) returns (es: seq<Event>)
    requires Busy(s) && s.workers != map[]
    ensures TakesOldest(s, es)
  {
    QueuedTaskHasTaker(s);
    var w :| w in s.workers && !s.workers[w].Asleep? && !s.workers[w].Exited?;
    es := AwakeTakes(s, w);
  }

  /** From every reached state of a running pool with workers some run takes every queued task. */
  lemma {:induction false} QueuedAllTaken(s: State) returns (es: seq<Event>)
    requires Inv(s) && s.running && s.workers != map[]
    ensures Legal(s, es) && Exec(s, es).Fine? && Exec(s, es).value.taken == s.taken + Contents(s.ring)
    decreases |Contents(s.ring)|
  {
    if Contents(s.ring) == [] {
      es := [];
      assert s.taken + [] == s.taken;
    } else {
      var first := OldestTaken(s);
      var rest := QueuedAllTaken(Exec(s, first).value);
      RunsJoin(s, first, rest);
      es := first + rest;
      var queued := Contents(s.ring);
      assert queued == [queued[0]] + queued[1..];
      Assoc(s.taken, [queued[0]], queued[1..]);
    }
  }
}
