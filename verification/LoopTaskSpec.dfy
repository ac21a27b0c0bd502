/** The event loop's task queue and wakeup descriptor as a state machine. Another thread's
    queueInLoop and quit are two steps, the change and the wakeup, and any number of other
    threads may be between them. */
module LoopTaskSpec {
  /** A task, and the tasks it queues when it runs. */
  datatype Task = Task(id: nat, spawns: seq<Task>)

  /** Where the loop thread stands; in `Handling`, `readable` says that the wakeup channel is among
      the active channels and has not been handled yet. */
  datatype Phase = Before | Test | Polling | Handling(readable: bool) | Running(batch: seq<Task>) | Done

  const COUNTER_MAX: int := 0xFFFF_FFFF_FFFF_FFFE

  /** `owing` are the threads between their push (or quit) and their wakeup; `selfOwing` says the
      same of the loop thread. `enqueued` and `executed` are history. */
  datatype State = State(
    pending: seq<Task>,
    quit: bool,
    calling: bool,
    eventfd: nat,
    phase: Phase,
    owing: set<nat>,
    selfOwing: bool,
    enqueued: seq<Task>,
    executed: seq<Task>)

  datatype Event =
    | Push(t: nat, task: Task)
    | Quit(t: nat)
    | Wakeup(t: nat)
    | LoopPush(task: Task)
    | LoopWakeup
    | LoopQuit
    | StartLoop
    | TestQuit
    | PollReturn(wake: bool)
    | HandleRead
    | Swap
    | RunTask
    | EndBatch

  const INITIAL := State([], false, false, 0, Before, {}, false, [], [])

  function Batch(s: State): seq<Task> {
    if s.phase.Running? then s.phase.batch else []
  }

  /** Writing one to the counter; at its maximum the non-blocking write fails. */
  function Written(counter: nat): nat {
    if counter < COUNTER_MAX then counter + 1 else counter
  }

  function Enqueue(s: State, task: Task): State {
    s.(pending := s.pending + [task], enqueued := s.enqueued + [task])
  }

  /** The loop thread runs handlers and tasks one at a time and may queue tasks or quit while it
      does; poll returns the wakeup channel only if the counter is nonzero. */
  predicate Enabled(s: State, e: Event) {
    match e
    case Push(t, _) => t !in s.owing
    case Quit(t) => t !in s.owing
    case Wakeup(t) => t in s.owing
    case LoopPush(_) => !s.selfOwing && (s.phase.Before? || s.phase.Handling? || s.phase.Running?)
    case LoopWakeup => s.selfOwing
    case LoopQuit => !s.selfOwing && (s.phase.Before? || s.phase.Handling? || s.phase.Running?)
    case StartLoop => s.phase.Before?
    case TestQuit => s.phase.Test?
    case PollReturn(wake) => s.phase.Polling? && (wake ==> s.eventfd > 0)
    case HandleRead => s.phase.Handling? && s.phase.readable
    case Swap => s.phase.Handling? && !s.phase.readable
    case RunTask => !s.selfOwing && s.phase.Running? && s.phase.batch != []
    case EndBatch => !s.selfOwing && s.phase.Running? && s.phase.batch == []
  }

  function Apply(s: State, e: Event): State
    requires Enabled(s, e)
  {
    match e
    case Push(t, task) => Enqueue(s, task).(owing := s.owing + {t})
    case Quit(t) => s.(quit := true, owing := s.owing + {t})
    case Wakeup(t) => s.(eventfd := Written(s.eventfd), owing := s.owing - {t})
    case LoopPush(task) => Enqueue(s, task).(selfOwing := s.calling)
    case LoopWakeup => s.(eventfd := Written(s.eventfd), selfOwing := false)
    case LoopQuit => s.(quit := true)
    case StartLoop => s.(phase := Test)
    case TestQuit => s.(phase := if s.quit then Done else Polling)
    case PollReturn(wake) => s.(phase := Handling(wake))
    case HandleRead => s.(eventfd := 0, phase := Handling(false))
    case Swap => s.(calling := true, pending := [], phase := Running(s.pending))
    case RunTask => s.(executed := s.executed + [s.phase.batch[0]], phase := Running(s.phase.batch[1..]))
    case EndBatch => s.(calling := false, phase := Test)
  }

  predicate Legal(s: State, es: seq<Event>)
    decreases |es|
  {
    es == [] || (Enabled(s, es[0]) && Legal(Apply(s, es[0]), es[1..]))
  }

  function Exec(s: State, es: seq<Event>): State
    requires Legal(s, es)
    decreases |es|
  {
    if es == [] then s else Exec(Apply(s, es[0]), es[1..])
  }
}
