/** When the file is complete once the back-end thread has left. */
module AsyncLogExit {
  import opened Outcomes
  import opened AsyncLogSpec
  import opened AsyncLogProofs

  // ---- what oversized batches lose ----

  /** Bytes of taken batches that the back end discarded. */
  function Dropped(batches: seq<seq<Bytes>>): nat {
    if batches == [] then 0
    else
      var last := batches[|batches| - 1];
      Dropped(batches[..|batches| - 1]) + |Flat(last)| - |FlatOfKept(last)|
  }

  function FlatOfKept(batch: seq<Bytes>): (r: Bytes)
    ensures r <= Flat(batch)
  {
    FlatPrefix(batch, if |batch| > MAX_BATCH then 2 else |batch|);
    assert batch[..|batch|] == batch;
    Flat(Kept(batch))
  }

  lemma {:induction false} DroppedCounts(batches: seq<seq<Bytes>>)
    ensures |AllOf(batches)| == |KeptOf(batches)| + Dropped(batches)
    ensures Dropped(batches) == 0 ==> KeptOf(batches) == AllOf(batches)
    decreases |batches|
  {
    if batches != [] {
      DroppedCounts(batches[..|batches| - 1]);
    }
  }

  /** Every batch of more than 25 buffers had all its bytes in the first two. */
  ghost predicate LosesNothing(batches: seq<seq<Bytes>>) {
    forall b <- batches :: |b| > MAX_BATCH ==> Flat(b) == Flat(b[..2])
  }

  lemma {:induction false} DroppedIff(batches: seq<seq<Bytes>>)
    ensures Dropped(batches) == 0 <==> LosesNothing(batches)
    decreases |batches|
  {
    if batches != [] {
      var front, last := batches[..|batches| - 1], batches[|batches| - 1];
      DroppedIff(front);
      assert batches == front + [last];
      assert |FlatOfKept(last)| == |Flat(last)| <==> FlatOfKept(last) == Flat(last);
    }
  }

  // ---- what arrives after the last batch ----

  predicate TakesBatch(s: State, e: Event) {
    e.Wake? || (e.Lock? && s.buffers != [])
  }

  /** An append that adds at least one byte. */
  predicate Stores(e: Event) {
    e.Append? && 0 < |e.record| < LARGE_BUFFER
  }

  /** In the run of es from s no byte is accepted after the last batch has been taken; `quiet` says so
      of what was before. */
  predicate NothingSince(s: State, es: seq<Event>, quiet: bool)
    requires Legal(s, es)
    decreases |es|
  {
    if es == [] || Apply(s, es[0]).Fault? then quiet
    else NothingSince(Apply(s, es[0]).value, es[1..], TakesBatch(s, es[0]) || (quiet && !Stores(es[0])))
  }

  lemma TakeLeavesNothing(s: State)
    requires Take(s).Fine? && SpareReady(s.spare1)
    ensures Pending(Take(s).value) == []
  {
  }

  lemma OthersLeaveAll(s: State, e: Event)
    requires Enabled(s, e) && Apply(s, e).Fine? && !e.Append? && !TakesBatch(s, e)
    ensures Pending(Apply(s, e).value) == Pending(s)
  {
  }

  lemma PendingStep(s: State, e: Event)
    requires Inv(s) && Enabled(s, e) && Apply(s, e).Fine?
    ensures Pending(Apply(s, e).value) == [] <==> TakesBatch(s, e) || (Pending(s) == [] && !Stores(e))
  {
    if e.Append? {
      AppendPending(s, e.record, e.addr);
    } else if TakesBatch(s, e) {
      assert SpareReady(s.spare1);
      TakeLeavesNothing(s);
    } else {
      OthersLeaveAll(s, e);
    }
  }

  lemma {:induction false} PendingIff(s: State, es: seq<Event>)
    requires Inv(s) && Legal(s, es)
    ensures Exec(s, es).Fine?
    ensures Pending(Exec(s, es).value) == [] <==> NothingSince(s, es, Pending(s) == [])
    decreases |es|
  {
    if es != [] {
      StepKeepsInv(s, es[0]);
      PendingStep(s, es[0]);
      PendingIff(Apply(s, es[0]).value, es[1..]);
    }
  }

  lemma StartedHolds(a: nat, b: nat, c: nat, d: nat)
    requires FourDistinct(a, b, c, d)
    ensures Inv(Started(a, b, c, d)) && Pending(Started(a, b, c, d)) == []
  {
    var s := Started(a, b, c, d);
    forall id ensures Owners(s, id) <= 1 {}
  }

  /** In every run that ends with the back end gone, the file is complete iff the batches of more than
      25 buffers had all their bytes in the first two, and no byte was accepted after the last batch
      was taken: what is pending at the end is never written. */
  lemma CompleteAtExitIff(a: nat, b: nat, c: nat, d: nat, es: seq<Event>)
    requires FourDistinct(a, b, c, d) && Legal(Started(a, b, c, d), es)
    requires Exec(Started(a, b, c, d), es).Fine? && Exec(Started(a, b, c, d), es).value.phase.Finished?
    ensures var s := Exec(Started(a, b, c, d), es).value;
      s.file == s.accepted <==> LosesNothing(s.taken) && NothingSince(Started(a, b, c, d), es, true)
  {
    StartedHolds(a, b, c, d);
    RunKeepsInv(Started(a, b, c, d), es);
    PendingIff(Started(a, b, c, d), es);
    var s := Exec(Started(a, b, c, d), es).value;
    DroppedCounts(s.taken);
    DroppedIff(s.taken);
    assert s.accepted == AllOf(s.taken) + Pending(s);
  }

  // ---- records shorter than a buffer ----

  ghost predicate AllShort(es: seq<Event>) {
    forall e <- es :: e.Append? ==> |e.record| < LARGE_BUFFER
  }

  ghost predicate AllButLastUsed(batch: seq<Bytes>) {
    forall i :: 0 <= i < |batch| - 1 ==> batch[i] != []
  }

  /** A buffer is put aside only when something is in it. */
  ghost predicate Used(s: State) {
    (forall b <- s.buffers :: b.data != []) && (forall t <- s.taken :: AllButLastUsed(t))
  }

  lemma StepKeepsUsed(s: State, e: Event)
    requires Used(s) && Enabled(s, e) && AllShort([e]) && Apply(s, e).Fine?
    ensures Used(Apply(s, e).value)
  {
    assert e in [e];
    if TakesBatch(s, e) {
      var batch := Datas(s.buffers + [s.current]);
      forall i | 0 <= i < |batch| - 1 ensures batch[i] != [] {
        assert s.buffers[i] in s.buffers;
      }
    }
  }

  lemma {:induction false} RunKeepsUsed(s: State, es: seq<Event>)
    requires Used(s) && Legal(s, es) && AllShort(es) && Exec(s, es).Fine?
    ensures Used(Exec(s, es).value)
    decreases |es|
  {
    if es != [] {
      assert es[0] in es;
      StepKeepsUsed(s, es[0]);
      RunKeepsUsed(Apply(s, es[0]).value, es[1..]);
    }
  }

  lemma OversizedLoses(batch: seq<Bytes>)
    requires AllButLastUsed(batch) && |batch| > MAX_BATCH
    ensures Flat(batch) != Flat(batch[..2])
  {
    FlatPrefix(batch, 3);
    assert batch[..3][..2] == batch[..2] && batch[2] != [];
    assert |Flat(batch[..3])| > |Flat(batch[..2])|;
  }

  /** If every record is shorter than a buffer, as all printed ones are, the file is complete iff no
      batch had more than 25 buffers and no byte was accepted after the last batch was taken. */
  lemma ShortCompleteAtExitIff(a: nat, b: nat, c: nat, d: nat, es: seq<Event>)
    requires FourDistinct(a, b, c, d) && Legal(Started(a, b, c, d), es) && AllShort(es)
    requires Exec(Started(a, b, c, d), es).Fine? && Exec(Started(a, b, c, d), es).value.phase.Finished?
    ensures var s := Exec(Started(a, b, c, d), es).value;
      s.file == s.accepted <==> NoOversized(s.taken) && NothingSince(Started(a, b, c, d), es, true)
  {
    CompleteAtExitIff(a, b, c, d, es);
    RunKeepsUsed(Started(a, b, c, d), es);
    var s := Exec(Started(a, b, c, d), es).value;
    forall t <- s.taken ensures |t| > MAX_BATCH ==> Flat(t) != Flat(t[..2]) {
      if |t| > MAX_BATCH { OversizedLoses(t); }
    }
  }

  /** A record appended before stop() that the file never receives: the back end tests running_
      once more after its last round and leaves without taking what has arrived since. */
  lemma StopCanLoseRecords()
    ensures var es := [Append("x", 9), Stop, Loop];
      Legal(Started(0, 1, 2, 3), es) && Exec(Started(0, 1, 2, 3), es).Fine?
      && Exec(Started(0, 1, 2, 3), es).value.phase.Finished?
      && Exec(Started(0, 1, 2, 3), es).value.accepted == "x"
      && Exec(Started(0, 1, 2, 3), es).value.file == ""
  {
    var s := Started(0, 1, 2, 3);
    var es := [Append("x", 9), Stop, Loop];
    var t := Apply(s, es[0]).value;
    var u := Apply(t, es[1]).value;
    var v := Apply(u, es[2]).value;
    assert es[1..] == [Stop, Loop] && es[1..][1..] == [Loop] && es[1..][1..][1..] == [];
    assert Exec(v, []) == Fine(v) && Exec(u, [Loop]) == Fine(v) && Exec(t, [Stop, Loop]) == Fine(v);
  }
}
