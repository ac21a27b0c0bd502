/** Whole-run guarantees of the asynchronous log: nothing is lost, duplicated or reordered on the
    way to the back end, buffers are never shared, and the recycling always finds its buffers. */
module AsyncLogProofs {
  import opened Outcomes
  import opened AsyncLogSpec

  /** No buffer has two owners. */
  ghost predicate NoSharing(s: State) {
    forall id :: Owners(s, id) <= 1
  }

  ghost predicate Small(bs: seq<Buf>) {
    forall b <- bs :: |b.data| < LARGE_BUFFER
  }

  ghost predicate AllSmall(s: State) {
    |s.current.data| < LARGE_BUFFER && Small(s.buffers) && Small(PhaseBufs(s.phase))
  }

  /** The spare buffers: both ready outside a batch; inside one the first is in use, and if the
      second is too, the batch has at least two buffers to give back. */
  ghost predicate SparesOk(s: State) {
    if PhaseBufs(s.phase) == [] then
      !s.phase.Taken? && !s.phase.Writing? && SpareReady(s.spare1) && SpareReady(s.spare2)
    else
      s.spare1.None? && (SpareReady(s.spare2) || (s.spare2.None? && |s.phase.batch| >= 2))
  }

  /** The file holds what was kept of every finished batch and the written part of the last. */
  ghost predicate FileOk(s: State) {
    match s.phase
    case Taken(batch) =>
      s.taken != [] && Datas(batch) == s.taken[|s.taken| - 1] && s.file == KeptOf(s.taken[..|s.taken| - 1])
    case Writing(batch, n) =>
      && s.taken != [] && Datas(batch) == Kept(s.taken[|s.taken| - 1]) && n <= |batch|
      && s.file == KeptOf(s.taken[..|s.taken| - 1]) + Flat(Datas(batch)[..n])
    case _ => s.file == KeptOf(s.taken)
  }

  /** What the front end still holds. */
  function Pending(s: State): Bytes {
    Flat(Datas(s.buffers)) + s.current.data
  }

  /** Everything accepted is, in order: the batches taken, buffers_, currentBuffer_. */
  ghost predicate Conserved(s: State) {
    s.accepted == AllOf(s.taken) + Pending(s)
  }

  ghost predicate Inv(s: State) {
    && NoSharing(s) && AllSmall(s) && SparesOk(s)
    && (s.next.Some? ==> s.next.value.data == []) && (s.next.None? ==> s.buffers != [])
    && FileOk(s) && Conserved(s)
  }

  // ---- concatenation ----

  lemma FlatSnoc(parts: seq<Bytes>, p: Bytes)
    ensures Flat(parts + [p]) == Flat(parts) + p
  {
    assert (parts + [p])[..|parts|] == parts;
  }

  lemma DatasSnoc(bs: seq<Buf>, b: Buf)
    ensures Datas(bs + [b]) == Datas(bs) + [b.data]
  {
  }

  lemma AllOfSnoc(batches: seq<seq<Bytes>>, b: seq<Bytes>)
    ensures AllOf(batches + [b]) == AllOf(batches) + Flat(b)
  {
    assert (batches + [b])[..|batches|] == batches;
  }

  /** An append adds exactly the record behind everything pending, if the record fits a buffer. */
  lemma AppendPending(s: State, record: Bytes, addr: nat)
    requires |s.current.data| < LARGE_BUFFER && (s.next.Some? ==> s.next.value.data == [])
    ensures Pending(AppendStep(s, record, addr)) == Pending(s) + if |record| < LARGE_BUFFER then record else []
  {
    if LARGE_BUFFER - |s.current.data| > |record| {
      Assoc(Flat(Datas(s.buffers)), s.current.data, record);
    } else {
      DatasSnoc(s.buffers, s.current);
      FlatSnoc(Datas(s.buffers), s.current.data);
    }
  }

  lemma Assoc(a: Bytes, b: Bytes, c: Bytes)
    ensures a + b + c == a + (b + c)
  {
  }

  lemma AppendKeepsConserved(s: State, record: Bytes, addr: nat)
    requires Conserved(s) && |s.current.data| < LARGE_BUFFER
    requires s.next.Some? ==> s.next.value.data == []
    ensures Conserved(AppendStep(s, record, addr))
  {
    AppendPending(s, record, addr);
    Assoc(AllOf(s.taken), Pending(s), if |record| < LARGE_BUFFER then record else []);
  }

  lemma OwnersSnoc(bs: seq<Buf>, b: Buf, id: nat)
    ensures SeqOwners(bs + [b], id) == SeqOwners(bs, id) + if b.id == id then 1 else 0
  {
    assert (bs + [b])[..|bs|] == bs;
  }

  lemma {:induction false} OwnersPrefix(bs: seq<Buf>, n: nat, id: nat)
    requires n <= |bs|
    ensures SeqOwners(bs[..n], id) <= SeqOwners(bs, id)
    decreases |bs|
  {
    if n < |bs| {
      OwnersPrefix(bs[..|bs| - 1], n, id);
      assert bs[..|bs| - 1][..n] == bs[..n];
    } else {
      assert bs[..n] == bs;
    }
  }

  lemma AppendKeepsOwnership(s: State, record: Bytes, addr: nat)
    requires NoSharing(s) && Enabled(s, Append(record, addr))
    ensures NoSharing(AppendStep(s, record, addr))
  {
    var t := AppendStep(s, record, addr);
    forall id ensures Owners(t, id) <= 1 {
      OwnersSnoc(s.buffers, s.current, id);
      assert Owners(s, id) <= 1;
    }
  }

  lemma AppendKeepsSmall(s: State, record: Bytes, addr: nat)
    requires AllSmall(s) && (s.next.Some? ==> s.next.value.data == [])
    ensures AllSmall(AppendStep(s, record, addr))
  {
    var t := AppendStep(s, record, addr);
    forall b <- t.buffers ensures |b.data| < LARGE_BUFFER {
      assert b in s.buffers || b == s.current;
    }
  }

  /** A step of a front end leaves everything of the back end alone. */
  lemma FrontEndFrame(s: State, t: State)
    requires Inv(s)
    requires t == s.(current := t.current, next := t.next, buffers := t.buffers, accepted := t.accepted)
    requires NoSharing(t) && AllSmall(t) && Conserved(t)
    requires (t.next.Some? ==> t.next.value.data == []) && (t.next.None? ==> t.buffers != [])
    ensures Inv(t)
  {
  }

  lemma AppendKeepsInv(s: State, record: Bytes, addr: nat)
    requires Inv(s) && Enabled(s, Append(record, addr))
    ensures Inv(AppendStep(s, record, addr))
  {
    AppendKeepsConserved(s, record, addr);
    AppendKeepsOwnership(s, record, addr);
    AppendKeepsSmall(s, record, addr);
    FrontEndFrame(s, AppendStep(s, record, addr));
  }

  // ---- the back end ----

  lemma TakeKeepsOwnership(s: State)
    requires NoSharing(s) && s.spare1.Some? && PhaseBufs(s.phase) == []
    ensures NoSharing(Take(s).value)
  {
    var t := Take(s).value;
    forall id ensures Owners(t, id) <= 1 {
      OwnersSnoc(s.buffers, s.current, id);
      assert Owners(s, id) <= 1;
    }
  }

  lemma TakeKeepsConserved(s: State)
    requires Conserved(s) && s.spare1.Some? && s.spare1.value.data == []
    ensures Conserved(Take(s).value)
  {
    AllOfSnoc(s.taken, Datas(s.buffers + [s.current]));
    DatasSnoc(s.buffers, s.current);
    FlatSnoc(Datas(s.buffers), s.current.data);
  }

  lemma TakeKeepsInv(s: State)
    requires Inv(s) && (s.phase.Waiting? || s.phase.Locking?)
    ensures Take(s).Fine? && Inv(Take(s).value)
  {
    var t := Take(s).value;
    TakeKeepsOwnership(s);
    TakeKeepsConserved(s);
    assert t.taken[..|t.taken| - 1] == s.taken;
  }

  lemma TrimKeepsOwnership(s: State)
    requires NoSharing(s) && s.phase.Taken? && s.phase.batch != []
    ensures NoSharing(TrimStep(s).value)
  {
    forall id ensures Owners(TrimStep(s).value, id) <= 1 {
      if |s.phase.batch| > MAX_BATCH { OwnersPrefix(s.phase.batch, 2, id); }
      assert Owners(s, id) <= 1;
    }
  }

  lemma TrimKeepsInv(s: State)
    requires Inv(s) && s.phase.Taken?
    ensures TrimStep(s).Fine? && Inv(TrimStep(s).value)
  {
    TrimKeepsOwnership(s);
    var batch := s.phase.batch;
    assert Datas(Kept(batch)) == Kept(Datas(batch));
    assert Datas(Kept(batch))[..0] == [];
  }

  lemma WriteKeepsFile(s: State)
    requires FileOk(s) && Enabled(s, Write)
    ensures FileOk(WriteStep(s).value)
  {
    var ds, n := Datas(s.phase.batch), s.phase.written;
    assert ds[..n + 1] == ds[..n] + [ds[n]];
    FlatSnoc(ds[..n], ds[n]);
    var before := KeptOf(s.taken[..|s.taken| - 1]);
    assert before + Flat(ds[..n]) + ds[n] == before + (Flat(ds[..n]) + ds[n]);
  }

  lemma SameOwners(s: State, t: State)
    requires NoSharing(s) && t.current == s.current && t.next == s.next && t.buffers == s.buffers
    requires t.spare1 == s.spare1 && t.spare2 == s.spare2 && PhaseBufs(t.phase) == PhaseBufs(s.phase)
    ensures NoSharing(t)
  {
    forall id ensures Owners(t, id) <= 1 { assert Owners(s, id) <= 1; }
  }

  lemma WriteKeepsInv(s: State)
    requires Inv(s) && Enabled(s, Write)
    ensures WriteStep(s).Fine? && Inv(WriteStep(s).value)
  {
    WriteKeepsFile(s);
    SameOwners(s, WriteStep(s).value);
  }

  lemma RefillOwners(spare: Option<Buf>, pool: seq<Buf>, id: nat)
    requires Refill(spare, pool).Fine?
    ensures var r := Refill(spare, pool).value;
      OptOwners(r.0, id) + SeqOwners(r.1, id) == OptOwners(spare, id) + SeqOwners(pool, id)
  {
  }

  lemma RecycleKeepsOwnership(s: State)
    requires NoSharing(s) && s.phase.Writing? && RecycleStep(s).Fine?
    ensures NoSharing(RecycleStep(s).value)
  {
    var batch := s.phase.batch;
    var pool := if |batch| > 2 then batch[..2] else batch;
    forall id ensures Owners(RecycleStep(s).value, id) <= 1 {
      if |batch| > 2 { OwnersPrefix(batch, 2, id); }
      RefillOwners(s.spare1, pool, id);
      RefillOwners(s.spare2, Refill(s.spare1, pool).value.1, id);
      assert Owners(s, id) <= 1;
    }
  }

  lemma RecycleKeepsInv(s: State)
    requires Inv(s) && Enabled(s, Recycle)
    ensures RecycleStep(s).Fine? && Inv(RecycleStep(s).value)
  {
    RecycleKeepsOwnership(s);
    var ds := Datas(s.phase.batch);
    assert ds[..|ds|] == ds;
  }

  lemma StepKeepsInv(s: State, e: Event)
    requires Inv(s) && Enabled(s, e)
    ensures Apply(s, e).Fine? && Inv(Apply(s, e).value)
  {
    match e
    case Append(record, addr) => AppendKeepsInv(s, record, addr);
    case Stop => SameOwners(s, s.(running := false));
    case Loop => SameOwners(s, LoopStep(s).value);
    case Lock =>
      if s.buffers == [] { SameOwners(s, LockStep(s).value); } else { TakeKeepsInv(s); }
    case Wake => TakeKeepsInv(s);
    case Trim => TrimKeepsInv(s);
    case Write => WriteKeepsInv(s);
    case Recycle => RecycleKeepsInv(s);
  }

  /** No interleaving of front-end appends with back-end steps fails an assertion, uses a moved-from
      buffer or breaks the invariant. */
  lemma {:induction false} RunKeepsInv(s: State, es: seq<Event>)
    requires Inv(s) && Legal(s, es)
    ensures Exec(s, es).Fine? && Inv(Exec(s, es).value)
    decreases |es|
  {
    if es != [] {
      StepKeepsInv(s, es[0]);
      RunKeepsInv(Apply(s, es[0]).value, es[1..]);
    }
  }

  // ---- what this means for the user of the log ----

  /** Every interleaving from the start: what was accepted is still there, in order; the file holds
      what was kept of each batch; no buffer is shared; and a round finds both spares ready. */
  lemma WholeRun(a: nat, b: nat, c: nat, d: nat, es: seq<Event>)
    requires FourDistinct(a, b, c, d) && Legal(Started(a, b, c, d), es)
    ensures var r := Exec(Started(a, b, c, d), es);
      && r.Fine? && Conserved(r.value) && FileOk(r.value) && NoSharing(r.value)
      && (r.value.phase.Top? ==> SpareReady(r.value.spare1) && SpareReady(r.value.spare2))
  {
    var s := Started(a, b, c, d);
    forall id ensures Owners(s, id) <= 1 {}
    assert Inv(s);
    RunKeepsInv(s, es);
  }

  /** A record is stored whole, behind everything pending, iff it is shorter than a buffer. */
  lemma RecordStoredIff(s: State, record: Bytes, addr: nat)
    requires Inv(s)
    ensures Pending(AppendStep(s, record, addr)) == Pending(s) + record <==> |record| < LARGE_BUFFER
  {
    AppendPending(s, record, addr);
    if |record| >= LARGE_BUFFER {
      assert |Pending(s) + record| != |Pending(s)|;
    }
  }

  ghost predicate NoOversized(batches: seq<seq<Bytes>>) {
    forall b <- batches :: |b| <= MAX_BATCH
  }

  lemma {:induction false} KeptAll(batches: seq<seq<Bytes>>)
    requires NoOversized(batches)
    ensures KeptOf(batches) == AllOf(batches)
    decreases |batches|
  {
    if batches != [] {
      var n := |batches| - 1;
      assert batches[n] in batches;
      forall b <- batches[..n] ensures |b| <= MAX_BATCH { assert b in batches; }
      KeptAll(batches[..n]);
    }
  }

  lemma {:induction false} FlatPrefix(parts: seq<Bytes>, n: nat)
    requires n <= |parts|
    ensures Flat(parts[..n]) <= Flat(parts)
    decreases |parts|
  {
    if n < |parts| {
      FlatPrefix(parts[..|parts| - 1], n);
      assert parts[..|parts| - 1][..n] == parts[..n];
    } else {
      assert parts[..n] == parts;
    }
  }

  lemma PrefixOfConcat(a: Bytes, b: Bytes, c: Bytes, d: Bytes)
    requires b <= c
    ensures a + b <= a + c + d
  {
  }

  /** As long as no batch was oversized, the file is a prefix of what was accepted, at every
      moment and not only between batches. */
  lemma FileIsPrefix(s: State)
    requires Inv(s) && NoOversized(s.taken)
    ensures s.file <= s.accepted
  {
    KeptAll(s.taken);
    if s.phase.Taken? || s.phase.Writing? {
      var n := |s.taken| - 1;
      var written := if s.phase.Writing? then s.phase.written else 0;
      assert s.taken[n] in s.taken;
      forall b <- s.taken[..n] ensures |b| <= MAX_BATCH { assert b in s.taken; }
      KeptAll(s.taken[..n]);
      FlatPrefix(s.taken[n], written);
      assert s.file == AllOf(s.taken[..n]) + Flat(s.taken[n][..written]);
      PrefixOfConcat(AllOf(s.taken[..n]), Flat(s.taken[n][..written]), Flat(s.taken[n]), Pending(s));
    }
  }
}
