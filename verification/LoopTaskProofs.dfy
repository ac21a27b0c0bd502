/** No task is left behind in a poll that nobody ends, tasks run once and in order, and which tasks
    a quit leaves behind. */
module LoopTaskProofs {
  import opened LoopTaskSpec

  /** The counter is nonzero or some thread is about to make it so. */
  ghost predicate WakeupComing(s: State) {
    s.eventfd > 0 || s.owing != {} || s.selfOwing
  }

  /** Executed tasks, the rest of the batch and the pending tasks are the enqueue order. */
  ghost predicate Ordered(s: State) {
    s.enqueued == s.executed + Batch(s) + s.pending
  }

  ghost predicate Inv(s: State) {
    && Ordered(s)
    && (s.calling <==> s.phase.Running?)
    && (s.selfOwing ==> s.phase.Running?)
    && (s.phase.Polling? && s.quit ==> WakeupComing(s))
  }

  /** From here on a task waits in a poll only with its wakeup there or on its way. */
  ghost predicate Wakeful(s: State) {
    && (s.pending != [] && !s.phase.Handling? && !s.phase.Done? ==> WakeupComing(s))
    && (s.phase.Before? ==> WakeupComing(s))
  }

  /** No batch has begun, no other thread has queued a task, and only a quit has caused a wakeup. */
  ghost predicate Untouched(s: State) {
    !s.phase.Running? && s.executed == [] && s.pending == s.enqueued && (WakeupComing(s) ==> s.quit)
  }

  /** Another thread queues a task, or a batch begins. */
  predicate Stirs(e: Event) {
    e.Push? || e.Swap?
  }

  predicate Stirred(es: seq<Event>) {
    exists e <- es :: Stirs(e)
  }

  lemma StepKeepsOrder(s: State, e: Event)
    requires Ordered(s) && Enabled(s, e)
    ensures Ordered(Apply(s, e))
  {
    match e
    case Push(_, task) => assert s.enqueued + [task] == s.executed + Batch(s) + (s.pending + [task]);
    case LoopPush(task) => assert s.enqueued + [task] == s.executed + Batch(s) + (s.pending + [task]);
    case Swap => assert s.executed + [] + s.pending == s.executed + s.pending + [];
    case RunTask =>
      var b := s.phase.batch;
      assert b == [b[0]] + b[1..];
      assert s.executed + b + s.pending == s.executed + [b[0]] + b[1..] + s.pending;
    case _ =>
  }

  lemma StepKeepsInv(s: State, e: Event)
    requires Inv(s) && Enabled(s, e)
    ensures Inv(Apply(s, e))
    ensures Wakeful(s) || (Untouched(s) && Stirs(e)) ==> Wakeful(Apply(s, e))
    ensures Untouched(s) && !Stirs(e) ==> Untouched(Apply(s, e))
  {
    StepKeepsOrder(s, e);
  }

  /** Every run whatsoever executes tasks once each, in the order they were queued. */
  lemma {:induction false} RunKeepsOrder(s: State, es: seq<Event>)
    requires Ordered(s) && Legal(s, es)
    ensures Ordered(Exec(s, es)) && Exec(s, es).executed <= Exec(s, es).enqueued
    decreases |es|
  {
    if es == [] {
      assert s.executed <= s.executed + (Batch(s) + s.pending) == s.enqueued;
    } else {
      StepKeepsOrder(s, es[0]);
      RunKeepsOrder(Apply(s, es[0]), es[1..]);
    }
  }

  lemma {:induction false} RunKeepsInv(s: State, es: seq<Event>)
    requires Inv(s) && Legal(s, es) && (Wakeful(s) || Untouched(s))
    ensures Inv(Exec(s, es))
    ensures Wakeful(s) || Stirred(es) ==> Wakeful(Exec(s, es))
    ensures Untouched(s) && !Stirred(es) ==> Untouched(Exec(s, es))
    decreases |es|
  {
    if es != [] {
      assert es == [es[0]] + es[1..];
      assert Stirred(es) ==> Stirs(es[0]) || Stirred(es[1..]);
      StepKeepsInv(s, es[0]);
      RunKeepsInv(Apply(s, es[0]), es[1..]);
    }
  }

  /** In every interleaving: a loop in poll that has been told to quit, or has work to do and has
      begun a batch or been given a task by another thread at any time before, is about to be woken;
      and what has been executed is a prefix of what was enqueued, in that order. */
  lemma NeverStranded(es: seq<Event>)
    requires Legal(INITIAL, es)
    ensures var s := Exec(INITIAL, es);
      && (s.phase.Polling? && (s.quit || (s.pending != [] && Stirred(es))) ==> s.eventfd > 0 || s.owing != {})
      && s.executed <= s.enqueued && Ordered(s)
  {
    RunKeepsInv(INITIAL, es);
    RunKeepsOrder(INITIAL, es);
  }

  /** The remaining case, in every run: in its first poll, with no task but those queued on the
      loop thread before loop(), the loop is about to be woken iff it has been told to quit. */
  lemma EarlyTaskWaitsIff(es: seq<Event>)
    requires Legal(INITIAL, es) && Exec(INITIAL, es).phase.Polling? && !Stirred(es)
    ensures var s := Exec(INITIAL, es);
      && s.executed == [] && s.pending == s.enqueued
      && (s.eventfd > 0 || s.owing != {} <==> s.quit)
  {
    RunKeepsInv(INITIAL, es);
  }

  /** That case arises. */
  lemma EarlyTaskWaits(task: Task)
    ensures var es := [LoopPush(task), StartLoop, TestQuit];
      && Legal(INITIAL, es) && !Stirred(es)
      && Exec(INITIAL, es).phase.Polling? && Exec(INITIAL, es).pending == [task] && !WakeupComing(Exec(INITIAL, es))
  {
    Then(INITIAL, [], LoopPush(task));
    Then(INITIAL, [LoopPush(task)], StartLoop);
    Then(INITIAL, [LoopPush(task), StartLoop], TestQuit);
    assert [] + [LoopPush(task)] == [LoopPush(task)];
    assert [LoopPush(task)] + [StartLoop] == [LoopPush(task), StartLoop];
    assert [LoopPush(task), StartLoop] + [TestQuit] == [LoopPush(task), StartLoop, TestQuit];
  }

  // ---- from a wakeup to execution ----

  lemma {:induction false} ExecSplit(s: State, xs: seq<Event>, ys: seq<Event>)
    requires Legal(s, xs) && Legal(Exec(s, xs), ys)
    ensures Legal(s, xs + ys) && Exec(s, xs + ys) == Exec(Exec(s, xs), ys)
    decreases |xs|
  {
    if xs == [] {
      assert xs + ys == ys;
    } else {
      assert (xs + ys)[1..] == xs[1..] + ys;
      ExecSplit(Apply(s, xs[0]), xs[1..], ys);
    }
  }

  lemma ExecOne(s: State, e: Event)
    requires Enabled(s, e)
    ensures Legal(s, [e]) && Exec(s, [e]) == Apply(s, e)
  {
    var es := [e];
    assert es[1..] == [];
    assert Legal(Apply(s, e), es[1..]);
  }

  lemma Then(s: State, es: seq<Event>, e: Event)
    requires Legal(s, es) && Enabled(Exec(s, es), e)
    ensures Legal(s, es + [e]) && Exec(s, es + [e]) == Apply(Exec(s, es), e)
  {
    ExecOne(Exec(s, es), e);
    ExecSplit(s, es, [e]);
  }

  lemma {:induction false} BatchRuns(s: State) returns (es: seq<Event>)
    requires s.phase.Running? && !s.selfOwing
    ensures Legal(s, es) && Exec(s, es).executed == s.executed + s.phase.batch
    decreases |Batch(s)|
  {
    if s.phase.batch == [] {
      es := [];
    } else {
      var t := Apply(s, RunTask);
      var rest := BatchRuns(t);
      ExecOne(s, RunTask);
      ExecSplit(s, [RunTask], rest);
      es := [RunTask] + rest;
      assert s.phase.batch == [s.phase.batch[0]] + s.phase.batch[1..];
    }
  }

  /** A wakeup that is there or on its way leads, without a timeout or an outside event, to the
      execution of everything that was pending. */
  lemma PendingWorkRuns(s: State) returns (es: seq<Event>)
    requires Inv(s) && s.phase.Polling? && (s.eventfd > 0 || s.owing != {})
    ensures Legal(s, es) && Exec(s, es).executed == s.executed + s.pending
  {
    es := [];
    if s.eventfd == 0 {
      var t :| t in s.owing;
      Then(s, [], Wakeup(t));
      assert [] + [Wakeup(t)] == [Wakeup(t)];
      es := [Wakeup(t)];
    }
    Then(s, es, PollReturn(true));
    es := es + [PollReturn(true)];
    Then(s, es, HandleRead);
    es := es + [HandleRead];
    Then(s, es, Swap);
    es := es + [Swap];
    var rest := BatchRuns(Exec(s, es));
    ExecSplit(s, es, rest);
    es := es + rest;
  }

  // ---- quitting ----

  /** How many of the enqueued tasks will have been executed when the loop is left, at least. */
  function Bound(s: State): nat {
    |s.executed| + |Batch(s)| + if s.phase.Polling? || s.phase.Handling? then |s.pending| else 0
  }

  lemma {:induction false} ExitCovers(s: State, es: seq<Event>)
    requires Legal(s, es) && Exec(s, es).phase.Done?
    ensures Bound(s) <= |Exec(s, es).executed|
    decreases |es|
  {
    if es != [] {
      assert Bound(s) <= Bound(Apply(s, es[0]));
      ExitCovers(Apply(s, es[0]), es[1..]);
    }
  }

  /** Once quit_ is set and the loop is not between its test and its next batch, nothing but the
      rest of the current batch is ever executed. */
  lemma {:induction false} NoFurtherBatch(s: State, es: seq<Event>)
    requires s.quit && !s.phase.Polling? && !s.phase.Handling? && Legal(s, es)
    ensures Exec(s, es).executed <= s.executed + Batch(s)
    decreases |es|
  {
    if es != [] {
      var t := Apply(s, es[0]);
      assert es[0].RunTask? ==> s.phase.batch == [s.phase.batch[0]] + s.phase.batch[1..];
      assert t.executed + Batch(t) == s.executed + Batch(s);
      NoFurtherBatch(t, es[1..]);
    }
  }

  lemma {:induction false} EnqueuedGrows(s: State, es: seq<Event>)
    requires Legal(s, es)
    ensures s.enqueued <= Exec(s, es).enqueued
    decreases |es|
  {
    if es != [] {
      EnqueuedGrows(Apply(s, es[0]), es[1..]);
    }
  }

  /** However a loop told to quit is left, the tasks pending at a moment have been executed iff it was
      then in poll or handling events; in every other phase nothing that was pending is. */
  lemma QuitAbandonsIff(s: State, es: seq<Event>)
    requires Ordered(s) && s.quit && s.pending != [] && Legal(s, es) && Exec(s, es).phase.Done?
    ensures s.executed + Batch(s) + s.pending <= Exec(s, es).executed <==> s.phase.Polling? || s.phase.Handling?
    ensures !s.phase.Polling? && !s.phase.Handling? ==> Exec(s, es).executed == s.executed + Batch(s)
  {
    var t := Exec(s, es);
    ExitCovers(s, es);
    RunKeepsOrder(s, es);
    EnqueuedGrows(s, es);
    if !s.phase.Polling? && !s.phase.Handling? {
      NoFurtherBatch(s, es);
      assert |t.executed| == |s.executed + Batch(s)|;
    } else {
      assert |s.enqueued| <= |t.executed| && s.enqueued <= t.enqueued && t.executed <= t.enqueued;
      assert s.enqueued == t.enqueued[..|s.enqueued|] == t.executed[..|s.enqueued|];
    }
  }

  /** So a pending task can still run iff the loop is in one of those two phases. */
  lemma PendingCanRunIff(s: State)
    requires Inv(s) && s.quit && s.pending != []
    ensures (exists es :: Legal(s, es) && |Exec(s, es).executed| > |s.executed + Batch(s)|)
            <==> s.phase.Polling? || s.phase.Handling?
  {
    if s.phase.Polling? || s.phase.Handling? {
      var es := NextBatchRuns(s);
      assert Legal(s, es) && |Exec(s, es).executed| > |s.executed + Batch(s)|;
    } else {
      forall es | Legal(s, es) ensures |Exec(s, es).executed| <= |s.executed + Batch(s)| {
        NoFurtherBatch(s, es);
      }
    }
  }

  /** From either phase some run, by a timeout if need be, executes everything that was pending. */
  lemma NextBatchRuns(s: State) returns (es: seq<Event>)
    requires Inv(s) && (s.phase.Polling? || s.phase.Handling?)
    ensures Legal(s, es) && Exec(s, es).executed == s.executed + s.pending
  {
    es := [];
    if s.phase.Polling? {
      Then(s, es, PollReturn(false));
      es := es + [PollReturn(false)];
    } else if s.phase.readable {
      Then(s, es, HandleRead);
      es := es + [HandleRead];
    }
    Then(s, es, Swap);
    es := es + [Swap];
    var rest := BatchRuns(Exec(s, es));
    ExecSplit(s, es, rest);
    es := es + rest;
  }

  /** A run that abandons a task: quit arrives with one already queued. */
  lemma QuitAbandonsTask(task: Task)
    ensures var es := [StartLoop, Push(1, task), Quit(2), TestQuit];
      Legal(INITIAL, es) && Exec(INITIAL, es).phase.Done? && Exec(INITIAL, es).pending == [task]
  {
    Then(INITIAL, [], StartLoop);
    Then(INITIAL, [StartLoop], Push(1, task));
    Then(INITIAL, [StartLoop, Push(1, task)], Quit(2));
    Then(INITIAL, [StartLoop, Push(1, task), Quit(2)], TestQuit);
    assert [] + [StartLoop] == [StartLoop];
    assert [StartLoop] + [Push(1, task)] == [StartLoop, Push(1, task)];
    assert [StartLoop, Push(1, task)] + [Quit(2)] == [StartLoop, Push(1, task), Quit(2)];
    assert [StartLoop, Push(1, task), Quit(2)] + [TestQuit] == [StartLoop, Push(1, task), Quit(2), TestQuit];
  }
}
