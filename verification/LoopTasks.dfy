/** The event loop's task queue in its imperative form, as one thread sees it: calls made on the
    loop thread and calls made on another thread, one after the other. */
module LoopTasksImpl {
  import opened LoopTaskSpec
  import opened LoopTaskProofs

  const OTHER: nat := 1  // the thread that calls when it is not the loop thread

  ghost predicate Reached(es: seq<Event>, s: State) {
    Legal(INITIAL, es) && Exec(INITIAL, es) == s
  }

  lemma Extend(es: seq<Event>, s: State, e: Event)
    requires Reached(es, s) && Enabled(s, e)
    ensures Reached(es + [e], Apply(s, e))
  {
    Then(INITIAL, es, e);
  }

  /** What a batch of tasks queues while it runs, in order. */
  function Spawned(batch: seq<Task>): seq<Task> {
    if batch == [] then [] else Spawned(batch[..|batch| - 1]) + batch[|batch| - 1].spawns
  }

  /** A call made from the loop thread or from another one. */
  datatype Call = QueueCall(task: Task, isInLoopThread: bool) | QuitCall(isInLoopThread: bool)

  /** The tasks that calls queue, in order. */
  function Queued(calls: seq<Call>): seq<Task> {
    if calls == [] then []
    else
      var c := calls[|calls| - 1];
      Queued(calls[..|calls| - 1]) + if c.QueueCall? then [c.task] else []
  }

  class EventLoop {
    var pendingFunctors: seq<Task>
    var quit: bool
    var looping: bool
    var callingPendingFunctors: bool
    var wakeupFd: nat
    ghost var phase: Phase
    ghost var owing: set<nat>
    ghost var selfOwing: bool
    ghost var enqueued: seq<Task>
    ghost var executed: seq<Task>
    ghost var trace: seq<Event>

    ghost function Model(): State
      reads this
    {
      State(pendingFunctors, quit, callingPendingFunctors, wakeupFd, phase, owing, selfOwing, enqueued, executed)
    }

    /** Reached by a run, and no call is under way. */
    ghost predicate Valid()
      reads this
    {
      Reached(trace, Model()) && owing == {} && !selfOwing && (callingPendingFunctors <==> phase.Running?)
    }

    constructor ()
      ensures Valid() && phase.Before? && pendingFunctors == [] && !quit && !looping
    {
      pendingFunctors, quit, looping, callingPendingFunctors, wakeupFd := [], false, false, false, 0;
      phase, owing, selfOwing, enqueued, executed, trace := Before, {}, false, [], [], [];
    }

    method Wakeup()
      modifies this`wakeupFd
      ensures wakeupFd == Written(old(wakeupFd)) && wakeupFd > 0
    {
      if wakeupFd < COUNTER_MAX {
        wakeupFd := wakeupFd + 1;
      }
    }

    /** Any task queued from another thread, or by a task, leaves the counter nonzero. */
    method QueueInLoop(cb: Task, isInLoopThread: bool)
      requires Valid()
      requires isInLoopThread ==> phase.Before? || phase.Handling? || phase.Running?
      modifies this
      ensures Valid() && phase == old(phase) && quit == old(quit) && looping == old(looping)
      ensures executed == old(executed)
      ensures pendingFunctors == old(pendingFunctors) + [cb] && enqueued == old(enqueued) + [cb]
      ensures if !isInLoopThread || callingPendingFunctors then wakeupFd > 0 else wakeupFd == old(wakeupFd)
    {
      ghost var e := if isInLoopThread then LoopPush(cb) else Push(OTHER, cb);
      Extend(trace, Model(), e);
      pendingFunctors := pendingFunctors + [cb];
      trace, enqueued := trace + [e], enqueued + [cb];
      if isInLoopThread { selfOwing := callingPendingFunctors; } else { owing := {OTHER}; }
      if !isInLoopThread || callingPendingFunctors {
        ghost var w := if isInLoopThread then LoopWakeup else Event.Wakeup(OTHER);
        Extend(trace, Model(), w);
        Wakeup();
        trace, owing, selfOwing := trace + [w], {}, false;
      }
    }

    method Quit(isInLoopThread: bool)
      requires Valid()
      requires isInLoopThread ==> phase.Before? || phase.Handling? || phase.Running?
      modifies this
      ensures Valid() && quit && looping == old(looping) && phase == old(phase)
      ensures pendingFunctors == old(pendingFunctors) && executed == old(executed)
      ensures !isInLoopThread ==> wakeupFd > 0
    {
      ghost var e := if isInLoopThread then LoopQuit else Event.Quit(OTHER);
      Extend(trace, Model(), e);
      quit := true;
      trace := trace + [e];
      if !isInLoopThread {
        owing := {OTHER};
        Extend(trace, Model(), Event.Wakeup(OTHER));
        Wakeup();
        trace, owing := trace + [Event.Wakeup(OTHER)], {};
      }
    }

    method HandleRead()
      requires Valid() && phase.Handling? && phase.readable
      modifies this`wakeupFd, this`phase, this`trace
      ensures Valid() && phase == Handling(false) && wakeupFd == 0
    {
      Extend(trace, Model(), Event.HandleRead);
      wakeupFd, phase, trace := 0, Handling(false), trace + [Event.HandleRead];
    }

    /** A task runs: it queues what it spawns. */
    method RunFunctor(f: Task)
      requires Valid() && phase.Running? && phase.batch != [] && phase.batch[0] == f
      modifies this
      ensures Valid() && phase == Running(old(phase.batch)[1..]) && looping == old(looping) && quit == old(quit)
      ensures executed == old(executed) + [f]
      ensures pendingFunctors == old(pendingFunctors) + f.spawns
      ensures if f.spawns != [] then wakeupFd > 0 else wakeupFd == old(wakeupFd)
    {
      Extend(trace, Model(), RunTask);
      executed, phase, trace := executed + [f], Running(phase.batch[1..]), trace + [RunTask];
      for i := 0 to |f.spawns|
        invariant Valid() && phase == Running(old(phase.batch)[1..]) && looping == old(looping) && quit == old(quit)
        invariant executed == old(executed) + [f]
        invariant pendingFunctors == old(pendingFunctors) + f.spawns[..i]
        invariant if i > 0 then wakeupFd > 0 else wakeupFd == old(wakeupFd)
      {
        QueueInLoop(f.spawns[i], true);
      }
      assert f.spawns[..|f.spawns|] == f.spawns;
    }

    method RunBatch(functors: seq<Task>)
      requires Valid() && phase == Running(functors) && pendingFunctors == []
      modifies this
      ensures Valid() && phase == Running([]) && looping == old(looping) && quit == old(quit)
      ensures executed == old(executed) + functors
      ensures pendingFunctors == Spawned(functors) && (pendingFunctors != [] ==> wakeupFd > 0)
    {
      for i := 0 to |functors|
        invariant Valid() && phase == Running(functors[i..]) && looping == old(looping) && quit == old(quit)
        invariant executed == old(executed) + functors[..i]
        invariant pendingFunctors == Spawned(functors[..i]) && (pendingFunctors != [] ==> wakeupFd > 0)
      {
        assert functors[..i + 1][..i] == functors[..i];
        assert functors[i..][1..] == functors[i + 1..];
        RunFunctor(functors[i]);
      }
      assert functors[..|functors|] == functors;
    }

    /** Runs exactly the tasks that were pending, in order; what they queue is left pending, with
        a wakeup for the next poll. */
    method DoPendingFunctors()
      requires Valid() && phase == Handling(false)
      modifies this
      ensures Valid() && phase.Test? && looping == old(looping) && quit == old(quit)
      ensures executed == old(executed) + old(pendingFunctors)
      ensures pendingFunctors == Spawned(old(pendingFunctors)) && (pendingFunctors != [] ==> wakeupFd > 0)
    {
      Extend(trace, Model(), Swap);
      callingPendingFunctors := true;
      var functors := pendingFunctors;
      pendingFunctors := [];
      phase, trace := Running(functors), trace + [Swap];
      RunBatch(functors);
      Extend(trace, Model(), EndBatch);
      callingPendingFunctors := false;
      phase, trace := Test, trace + [EndBatch];
    }

    method Receive(c: Call)
      requires Valid() && (phase.Handling? || (phase.Polling? && !c.isInLoopThread))
      modifies this
      ensures Valid() && phase == old(phase) && looping == old(looping) && executed == old(executed)
      ensures pendingFunctors == old(pendingFunctors) + Queued([c]) && quit == (old(quit) || c.QuitCall?)
    {
      assert [c][..0] == [];
      match c {
        case QueueCall(task, isInLoopThread) => QueueInLoop(task, isInLoopThread);
        case QuitCall(isInLoopThread) => Quit(isInLoopThread);
      }
    }

    /** Calls that arrive while the loop polls or handles events. */
    method ReceiveAll(calls: seq<Call>)
      requires Valid() && (phase.Handling? || (phase.Polling? && forall c <- calls :: !c.isInLoopThread))
      modifies this
      ensures Valid() && phase == old(phase) && looping == old(looping) && executed == old(executed)
      ensures pendingFunctors == old(pendingFunctors) + Queued(calls) && (old(quit) ==> quit)
    {
      for i := 0 to |calls|
        invariant Valid() && phase == old(phase) && looping == old(looping) && executed == old(executed)
        invariant pendingFunctors == old(pendingFunctors) + Queued(calls[..i]) && (old(quit) ==> quit)
      {
        assert calls[..i + 1][..i] == calls[..i] && [calls[i]][..0] == [];
        Receive(calls[i]);
      }
      assert calls[..|calls|] == calls;
    }

    /** From the loop test to the active channels. */
    method Poll(whilePolling: seq<Call>) returns (ready: bool)
      requires Valid() && phase.Test? && !quit && forall c <- whilePolling :: !c.isInLoopThread
      modifies this
      ensures Valid() && phase == Handling(ready) && looping == old(looping) && executed == old(executed)
      ensures pendingFunctors == old(pendingFunctors) + Queued(whilePolling)
    {
      Extend(trace, Model(), TestQuit);
      phase, trace := Polling, trace + [TestQuit];
      ReceiveAll(whilePolling);
      ready := wakeupFd > 0;
      Extend(trace, Model(), PollReturn(ready));
      phase, trace := Handling(ready), trace + [PollReturn(ready)];
    }

    /** One turn of the loop, with the calls that arrive while it polls and while it handles events, the
        latter from its own handlers too: whatever is pending by then has been executed. */
    method Turn(whilePolling: seq<Call>, whileHandling: seq<Call>)
      requires Valid() && phase.Test? && !quit && forall c <- whilePolling :: !c.isInLoopThread
      modifies this
      ensures Valid() && phase.Test? && looping == old(looping)
      ensures executed == old(executed) + (old(pendingFunctors) + Queued(whilePolling) + Queued(whileHandling))
      ensures pendingFunctors == Spawned(old(pendingFunctors) + Queued(whilePolling) + Queued(whileHandling))
      ensures pendingFunctors != [] ==> wakeupFd > 0
    {
      var ready := Poll(whilePolling);
      ReceiveAll(whileHandling);
      if ready {
        HandleRead();
      }
      DoPendingFunctors();
    }

    /** loop() with the calls of each turn; another thread quits it after these at the latest. */
    method Loop(calls: seq<(seq<Call>, seq<Call>)>)
      requires Valid() && phase.Before? && !looping
      requires forall t <- calls, c <- t.0 :: !c.isInLoopThread
      modifies this
      ensures Valid() && phase.Done? && quit && !looping
      ensures enqueued == executed + pendingFunctors
    {
      Extend(trace, Model(), StartLoop);
      looping := true;
      phase, trace := Test, trace + [StartLoop];
      var i := 0;
      while !quit
        invariant Valid() && phase.Test? && looping && 0 <= i <= |calls| + 1 && (!quit ==> i <= |calls|)
        decreases |calls| + 1 - i, !quit
      {
        if i == |calls| {
          Quit(false);
        } else {
          assert calls[i] in calls;
          Turn(calls[i].0, calls[i].1);
        }
        i := i + 1;
      }
      Leave();
    }

    method Leave()
      requires Valid() && phase.Test? && quit
      modifies this`phase, this`trace, this`looping
      ensures Valid() && phase.Done? && !looping && enqueued == executed + pendingFunctors
    {
      Extend(trace, Model(), TestQuit);
      phase, trace := Done, trace + [TestQuit];
      looping := false;
      RunKeepsOrder(INITIAL, trace);
    }
  }
}
