/** The asynchronous log in its imperative form. Uniquely owned buffers are values here, as their
    single owner cannot tell the difference; every method is proved against AsyncLogSpec. */
module AsyncLoggingImpl {
  import opened Outcomes
  import opened AsyncLogSpec
  import opened AsyncLogProofs
  import opened AsyncLogExit

  lemma {:induction false} ExecSplit(s: State, xs: seq<Event>, ys: seq<Event>)
    requires Legal(s, xs) && Exec(s, xs).Fine? && Legal(Exec(s, xs).value, ys)
    ensures Legal(s, xs + ys) && Exec(s, xs + ys) == Exec(Exec(s, xs).value, ys)
    decreases |xs|
  {
    if xs == [] {
      assert xs + ys == ys;
    } else {
      assert (xs + ys)[1..] == xs[1..] + ys;
      ExecSplit(Apply(s, xs[0]).value, xs[1..], ys);
    }
  }

  /** s is reached from the start by the events es. */
  ghost predicate Reached(es: seq<Event>, s: State) {
    Legal(Started(0, 1, 2, 3), es) && Exec(Started(0, 1, 2, 3), es) == Fine(s)
  }

  lemma ReachedInv(es: seq<Event>, s: State)
    requires Reached(es, s)
    ensures Inv(s)
  {
    StartedHolds(0, 1, 2, 3);
    RunKeepsInv(Started(0, 1, 2, 3), es);
  }

  lemma ExecOne(s: State, e: Event)
    requires Enabled(s, e) && Apply(s, e).Fine?
    ensures Legal(s, [e]) && Exec(s, [e]) == Apply(s, e)
  {
    var es := [e];
    assert es[0] == e && es[1..] == [];
    assert Legal(Apply(s, e).value, es[1..]);
  }

  lemma Extend(es: seq<Event>, s: State, e: Event)
    requires Reached(es, s) && Enabled(s, e)
    ensures Apply(s, e).Fine? && Reached(es + [e], Apply(s, e).value)
  {
    ReachedInv(es, s);
    StepKeepsInv(s, e);
    ExecOne(s, e);
    ExecSplit(Started(0, 1, 2, 3), es, [e]);
  }

  lemma FlatStep(batch: seq<Buf>, i: nat)
    requires i < |batch|
    ensures Flat(Datas(batch)[..i + 1]) == Flat(Datas(batch)[..i]) + batch[i].data
  {
    FlatSnoc(Datas(batch)[..i], batch[i].data);
    assert Datas(batch)[..i + 1] == Datas(batch)[..i] + [batch[i].data];
  }

  /** What other threads do meanwhile. */
  datatype Arrival = Line(record: Bytes) | StopCall

  // ---- an allocator ----

  function SumIds(bs: seq<Buf>): nat {
    if bs == [] then 0 else SumIds(bs[..|bs| - 1]) + bs[|bs| - 1].id
  }

  function OptId(o: Option<Buf>): nat {
    if o.Some? then o.value.id else 0
  }

  lemma {:induction false} BeyondSum(bs: seq<Buf>, id: nat)
    requires id > SumIds(bs)
    ensures SeqOwners(bs, id) == 0
    decreases |bs|
  {
    if bs != [] { BeyondSum(bs[..|bs| - 1], id); }
  }

  class AsyncLogging {
    var currentBuffer: Option<Buf>
    var nextBuffer: Option<Buf>
    var buffers: seq<Buf>
    var running: bool
    // the file and the locals of the back-end thread
    var output: Bytes
    var newBuffer1: Option<Buf>
    var newBuffer2: Option<Buf>
    var buffersToWrite: seq<Buf>
    // history
    ghost var phase: Phase
    ghost var accepted: Bytes
    ghost var taken: seq<seq<Bytes>>
    ghost var trace: seq<Event>

    ghost function Model(): State
      reads this
      requires currentBuffer.Some?
    {
      State(currentBuffer.value, nextBuffer, buffers, newBuffer1, newBuffer2, running, phase, output, accepted, taken)
    }

    ghost predicate Valid()
      reads this
    {
      currentBuffer.Some? && Reached(trace, Model()) && buffersToWrite == PhaseBufs(phase)
    }

    constructor ()
      ensures Valid() && phase.Top? && running && trace == [] && output == []
    {
      currentBuffer, nextBuffer, buffers, running := Some(Buf(0, [])), Some(Buf(1, [])), [], true;
      newBuffer1, newBuffer2, buffersToWrite, output := Some(Buf(2, [])), Some(Buf(3, [])), [], [];
      phase, accepted, taken, trace := Top, [], [], [];
    }

    /** An address nobody uses. */
    method Allocate() returns (addr: nat)
      requires currentBuffer.Some? && buffersToWrite == PhaseBufs(phase)
      ensures Owners(Model(), addr) == 0
    {
      addr := 1 + currentBuffer.value.id + OptId(nextBuffer) + SumIds(buffers) + OptId(newBuffer1) + OptId(newBuffer2)
              + SumIds(buffersToWrite);
      BeyondSum(buffers, addr);
      BeyondSum(buffersToWrite, addr);
    }

    method AppendLocked(logline: Bytes, addr: nat)
      requires currentBuffer.Some?
      modifies this`currentBuffer, this`nextBuffer, this`buffers, this`accepted
      ensures currentBuffer.Some? && Model() == old(AppendStep(Model(), logline, addr))
    {
      accepted := accepted + if |logline| < LARGE_BUFFER then logline else [];
      if LARGE_BUFFER - |currentBuffer.value.data| > |logline| {
        currentBuffer := Some(BufAppend(currentBuffer.value, logline));
      } else {
        buffers := buffers + [currentBuffer.value];
        currentBuffer := None;
        if nextBuffer.Some? {
          currentBuffer, nextBuffer := nextBuffer, None;
        } else {
          currentBuffer := Some(Buf(addr, []));
        }
        currentBuffer := Some(BufAppend(currentBuffer.value, logline));
      }
    }

    /** Called by any front-end thread; the mutex makes the body one step. */
    method Append(logline: Bytes)
      requires Valid()
      modifies this
      ensures Valid() && phase == old(phase) && running == old(running) && output == old(output) && taken == old(taken)
      ensures Pending(Model()) == old(Pending(Model())) + if |logline| < LARGE_BUFFER then logline else []
      ensures exists addr :: trace == old(trace) + [Event.Append(logline, addr)]
    {
      var addr := Allocate();
      Extend(trace, Model(), Event.Append(logline, addr));
      assert |currentBuffer.value.data| < LARGE_BUFFER && (nextBuffer.Some? ==> nextBuffer.value.data == []) by {
        ReachedInv(trace, Model());
      }
      AppendPending(Model(), logline, addr);
      trace := trace + [Event.Append(logline, addr)];
      AppendLocked(logline, addr);
    }

    method Receive(arrivals: seq<Arrival>)
      requires Valid()
      modifies this
      ensures Valid() && phase == old(phase) && output == old(output) && taken == old(taken)
    {
      for i := 0 to |arrivals|
        invariant Valid() && phase == old(phase) && output == old(output) && taken == old(taken)
      {
        match arrivals[i] {
          case Line(record) => Append(record);
          case StopCall => Stop();
        }
      }
    }

    method Stop()
      requires Valid()
      modifies this
      ensures Valid() && !running && phase == old(phase) && output == old(output) && taken == old(taken)
      ensures trace == old(trace) + [Event.Stop] && Pending(Model()) == old(Pending(Model()))
    {
      Extend(trace, Model(), Event.Stop);
      trace := trace + [Event.Stop];
      running := false;
    }

    /** The critical section of the back end, after the wait if there was one. */
    method TakeBuffers()
      requires currentBuffer.Some? && Take(Model()).Fine? && buffersToWrite == []
      modifies this`currentBuffer, this`nextBuffer, this`buffers, this`newBuffer1, this`newBuffer2,
               this`buffersToWrite, this`phase, this`taken
      ensures currentBuffer.Some? && Fine(Model()) == old(Take(Model()))
      ensures buffersToWrite == PhaseBufs(phase) && phase.Taken?
    {
      buffers := buffers + [currentBuffer.value];
      currentBuffer, newBuffer1 := newBuffer1, None;
      buffersToWrite, buffers := buffers, [];
      if nextBuffer.None? {
        nextBuffer, newBuffer2 := newBuffer2, None;
      }
      phase, taken := Taken(buffersToWrite), taken + [Datas(buffersToWrite)];
    }

    method StartRound()
      requires Valid() && phase.Top? && running
      modifies this`trace, this`phase
      ensures Valid() && phase.Locking?
    {
      Extend(trace, Model(), Loop);
      assert newBuffer1.Some? && newBuffer1.value.data == [];
      assert newBuffer2.Some? && newBuffer2.value.data == [];
      assert buffersToWrite == [];
      trace, phase := trace + [Loop], Locking;
    }

    /** Assertions, lock and wait; `arriving` happens while the wait has released the mutex. */
    method LockAndTake(arriving: seq<Arrival>)
      requires Valid() && phase.Top? && running
      modifies this
      ensures Valid() && phase.Taken? && output == old(output)
    {
      StartRound();
      Extend(trace, Model(), Lock);
      trace := trace + [Lock];
      if buffers == [] {
        phase := Waiting;
        Receive(arriving);
        Extend(trace, Model(), Wake);
        trace := trace + [Wake];
      }
      TakeBuffers();
    }

    method TrimBatch()
      requires Valid() && phase.Taken?
      modifies this`trace, this`phase, this`buffersToWrite
      ensures Valid() && phase == Writing(Kept(old(phase.batch)), 0)
    {
      Extend(trace, Model(), Trim);
      assert buffersToWrite != [];
      trace := trace + [Trim];
      if |buffersToWrite| > 25 {
        buffersToWrite := buffersToWrite[..2];
      }
      phase := Writing(buffersToWrite, 0);
    }

    method WriteOne(i: nat)
      requires Valid() && phase.Writing? && i == phase.written < |phase.batch|
      modifies this`trace, this`phase, this`output
      ensures Valid() && phase == old(phase).(written := i + 1)
      ensures output == old(output) + buffersToWrite[i].data
    {
      Extend(trace, Model(), Write);
      trace := trace + [Write];
      output := output + buffersToWrite[i].data;
      phase := phase.(written := i + 1);
    }

    method ReceiveThenWrite(arriving: seq<Arrival>, i: nat)
      requires Valid() && phase.Writing? && i == phase.written < |phase.batch|
      modifies this
      ensures Valid() && phase == old(phase).(written := i + 1) && taken == old(taken)
      ensures output == old(output) + old(phase).batch[i].data
    {
      Receive(arriving);
      WriteOne(i);
    }

    /** Writes what is left of the batch; `arriving[i]` happens before the i-th write. */
    method WriteBatch(arriving: seq<seq<Arrival>>)
      requires Valid() && phase.Writing? && phase.written == 0
      modifies this
      ensures Valid() && phase == Writing(old(phase.batch), |old(phase.batch)|)
      ensures output == old(output) + Flat(Datas(old(phase.batch))) && taken == old(taken)
    {
      ghost var batch := buffersToWrite;
      assert Datas(batch)[..0] == [];
      for i := 0 to |buffersToWrite|
        invariant Valid() && phase == Writing(batch, i) && taken == old(taken)
        invariant output == old(output) + Flat(Datas(batch)[..i])
      {
        ReceiveThenWrite(if i < |arriving| then arriving[i] else [], i);
        FlatStep(batch, i);
      }
      assert Datas(batch)[..|batch|] == Datas(batch);
    }

    method RefillSpares()
      requires currentBuffer.Some? && phase.Writing? && buffersToWrite == phase.batch && RecycleStep(Model()).Fine?
      modifies this`newBuffer1, this`newBuffer2, this`buffersToWrite, this`phase
      ensures Fine(Model()) == old(RecycleStep(Model()))
      ensures buffersToWrite == []
    {
      if |buffersToWrite| > 2 {
        buffersToWrite := buffersToWrite[..2];
      }
      if newBuffer1.None? {
        assert buffersToWrite != [];
        newBuffer1 := Some(Buf(buffersToWrite[|buffersToWrite| - 1].id, []));
        buffersToWrite := buffersToWrite[..|buffersToWrite| - 1];
      }
      if newBuffer2.None? {
        assert buffersToWrite != [];
        newBuffer2 := Some(Buf(buffersToWrite[|buffersToWrite| - 1].id, []));
        buffersToWrite := buffersToWrite[..|buffersToWrite| - 1];
      }
      buffersToWrite := [];
      phase := Top;
    }

    method RecycleBuffers()
      requires Valid() && phase.Writing? && phase.written == |phase.batch|
      modifies this
      ensures Valid() && phase.Top? && output == old(output) && running == old(running) && taken == old(taken)
      ensures SpareReady(newBuffer1) && SpareReady(newBuffer2)
    {
      Extend(trace, Model(), Recycle);
      trace := trace + [Recycle];
      RefillSpares();
      ReachedInv(trace, Model());
    }

    /** A full round of the back-end thread, with whatever other threads append meanwhile or with their
        stop(): the file grows by what was kept of the batch taken, and both spares are ready again. */
    method Round(whileWaiting: seq<Arrival>, whileWriting: seq<seq<Arrival>>)
      requires Valid() && phase.Top? && running
      modifies this
      ensures Valid() && phase.Top? && SpareReady(newBuffer1) && SpareReady(newBuffer2)
      ensures taken != [] && output == old(output) + Flat(Kept(taken[|taken| - 1]))
    {
      LockAndTake(whileWaiting);
      TrimBatch();
      assert taken != [] && Datas(phase.batch) == Kept(taken[|taken| - 1]) by {
        ReachedInv(trace, Model());
      }
      WriteBatch(whileWriting);
      RecycleBuffers();
    }

    /** The back-end thread from start to exit: one round per script until one of them has called
        stop(), which comes after the last at the latest. The file is complete iff no batch lost
        bytes and none was accepted after the last batch was taken. */
    method ThreadFunc(waiting: seq<seq<Arrival>>, writing: seq<seq<seq<Arrival>>>)
      requires Valid() && phase.Top? && running && |waiting| == |writing| > 0
      modifies this
      ensures Valid() && phase.Finished?
      ensures output == accepted <==> LosesNothing(taken) && NothingSince(Started(0, 1, 2, 3), trace, true)
    {
      var i := 0;
      while running
        invariant Valid() && phase.Top? && 0 <= i <= |waiting| && (running ==> i < |waiting|)
        decreases |waiting| - i, running
      {
        Round(waiting[i], writing[i]);
        i := i + 1;
        if i == |waiting| && running { Stop(); }
      }
      Extend(trace, Model(), Loop);
      trace, phase := trace + [Loop], Finished;
      CompleteAtExitIff(0, 1, 2, 3, trace);
    }
  }
}
