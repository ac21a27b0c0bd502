/** The thread pool as a state machine over its worker and producer threads. Every critical
    section is one step; waiting on a condition is Mesa style: a sleeping thread becomes woken,
    and a woken thread still has to take the mutex and test its condition again. */
module ThreadPoolSpec {
  import opened Outcomes
  import opened TaskRing

  /** A worker is at the loop test, about to enter take(), waiting in it, or running a task. */
  datatype Worker = Testing | Taking | Asleep | Woken | Running(task: Task) | Exited

  /** A producer is outside run() or waiting in it with its task. */
  datatype Producer = Away | AsleepWith(task: Task) | WokenWith(task: Task)

  datatype State = State(
    ring: Ring,
    running: bool,
    workers: map<nat, Worker>,
    producers: map<nat, Producer>,
    submitted: seq<Task>,
    taken: seq<Task>,
    inlined: seq<Task>)

  /** The set in a step is the threads its notify() unblocks. */
  datatype Event =
    | Submit(p: nat, task: Task, woken: set<nat>)
    | Retry(p: nat, woken: set<nat>)
    | SpuriousProducer(p: nat)
    | LoopTest(w: nat)
    | Take(w: nat, woken: set<nat>)
    | Finish(w: nat)
    | SpuriousWorker(w: nat)
    | Stop

  function Started(capacity: nat, workers: set<nat>, producers: set<nat>): State {
    State(Empty(capacity), true, map w | w in workers :: Testing, map p | p in producers :: Away, [], [], [])
  }

  // ---- waiting threads ----

  function Sleepers(ws: map<nat, Worker>): set<nat> {
    set w | w in ws && ws[w].Asleep?
  }

  function WokenWorkers(ws: map<nat, Worker>): set<nat> {
    set w | w in ws && ws[w].Woken?
  }

  function SleepingProducers(ps: map<nat, Producer>): set<nat> {
    set p | p in ps && ps[p].AsleepWith?
  }

  function WokenProducers(ps: map<nat, Producer>): set<nat> {
    set p | p in ps && ps[p].WokenWith?
  }

  /** pthread_cond_signal unblocks at least one waiting thread, if there is any. */
  predicate Signal(sleepers: set<nat>, woken: set<nat>) {
    woken <= sleepers && (sleepers != {} ==> woken != {})
  }

  function WakeWorkers(ws: map<nat, Worker>, woken: set<nat>): map<nat, Worker> {
    map w | w in ws :: if w in woken then Woken else ws[w]
  }

  function WakeProducers(ps: map<nat, Producer>, woken: set<nat>): map<nat, Producer> {
    map p | p in ps :: if p in woken && ps[p].AsleepWith? then WokenWith(ps[p].task) else ps[p]
  }

  // ---- operations ----

  /** One pass of run() with the mutex held: wait if the queue is full, else store and notify. */
  function TryRun(s: State, p: nat, task: Task, woken: set<nat>): Outcome<State> {
    if IsFull(s.ring) then Fine(s.(producers := s.producers[p := AsleepWith(task)])) else
    var ring :- Push(s.ring, task);
    Fine(s.(ring := ring, submitted := s.submitted + [task],
            producers := s.producers[p := Away], workers := WakeWorkers(s.workers, woken)))
  }

  /** run(): without worker threads a task is executed on the spot. */
  function SubmitStep(s: State, p: nat, task: Task, woken: set<nat>): Outcome<State> {
    if s.workers == map[] then Fine(s.(inlined := s.inlined + [task])) else TryRun(s, p, task, woken)
  }

  /** One pass of take() with the mutex held. */
  function TryTake(s: State, w: nat, woken: set<nat>): Outcome<State> {
    if IsEmpty(s.ring) then
      Fine(s.(workers := s.workers[w := if s.running then Asleep else Testing]))
    else
      var r :- Pop(s.ring);
      Fine(s.(ring := r.1, taken := s.taken + [r.0], workers := s.workers[w := Running(r.0)],
              producers := if |r.1.slots| > r.1.size then WakeProducers(s.producers, woken) else s.producers))
  }

  // ---- runs ----

  predicate Enabled(s: State, e: Event) {
    match e
    case Submit(p, _, woken) => p in s.producers && s.producers[p].Away? && Signal(Sleepers(s.workers), woken)
    case Retry(p, woken) => p in s.producers && s.producers[p].WokenWith? && Signal(Sleepers(s.workers), woken)
    case SpuriousProducer(p) => p in s.producers && s.producers[p].AsleepWith?
    case LoopTest(w) => w in s.workers && s.workers[w].Testing?
    case Take(w, woken) =>
      w in s.workers && (s.workers[w].Taking? || s.workers[w].Woken?) && Signal(SleepingProducers(s.producers), woken)
    case Finish(w) => w in s.workers && s.workers[w].Running?
    case SpuriousWorker(w) => w in s.workers && s.workers[w].Asleep?
    case Stop => true
  }

  function Apply(s: State, e: Event): Outcome<State>
    requires Enabled(s, e)
  {
    match e
    case Submit(p, task, woken) => SubmitStep(s, p, task, woken)
    case Retry(p, woken) => TryRun(s, p, s.producers[p].task, woken)
    case SpuriousProducer(p) => Fine(s.(producers := WakeProducers(s.producers, {p})))
    case LoopTest(w) => Fine(s.(workers := s.workers[w := if s.running then Taking else Exited]))
    case Take(w, woken) => TryTake(s, w, woken)
    case Finish(w) => Fine(s.(workers := s.workers[w := Testing]))
    case SpuriousWorker(w) => Fine(s.(workers := s.workers[w := Woken]))
    case Stop => Fine(s.(running := false, workers := WakeWorkers(s.workers, Sleepers(s.workers))))
  }

  predicate Legal(s: State, es: seq<Event>)
    decreases |es|
  {
    es == [] ||
    (Enabled(s, es[0]) && (Apply(s, es[0]).Fine? ==> Legal(Apply(s, es[0]).value, es[1..])))
  }

  function Exec(s: State, es: seq<Event>): Outcome<State>
    requires Legal(s, es)
    decreases |es|
  {
    if es == [] then Fine(s) else
    var t :- Apply(s, es[0]);
    Exec(t, es[1..])
  }
}
