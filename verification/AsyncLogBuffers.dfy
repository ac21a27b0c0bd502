/** Which buffers the log owns: when it allocates one, and that it loses none but after writing. */
module AsyncLogBuffers {
  import opened Outcomes
  import opened AsyncLogSpec
  import opened AsyncLogProofs

  /** An append gives no buffer up, and allocates one iff the current is full and no spare is left. */
  lemma AppendOwners(s: State, record: Bytes, addr: nat)
    requires Inv(s) && Owners(s, addr) == 0
    ensures var t := AppendStep(s, record, addr);
      && (forall id :: id != addr ==> Owners(t, id) == Owners(s, id))
      && (Owners(t, addr) == 1 <==> |s.current.data| + |record| >= 4_000_000 && s.next.None?)
      && Owners(t, addr) <= 1
  {
    var t := AppendStep(s, record, addr);
    forall id ensures Owners(t, id) == Owners(s, id) +
      if id == addr && |s.current.data| + |record| >= 4_000_000 && s.next.None? then 1 else 0
    {
      OwnersSnoc(s.buffers, s.current, id);
    }
  }

  /** The critical section only moves buffers. */
  lemma TakeOwners(s: State, id: nat)
    requires Inv(s) && (s.phase.Waiting? || s.phase.Locking?)
    ensures Take(s).Fine? && Owners(Take(s).value, id) == Owners(s, id)
  {
    OwnersSnoc(s.buffers, s.current, id);
  }

  /** The back end waits iff no buffer is full, and otherwise takes at once. */
  lemma WaitsIffNoneFull(s: State)
    requires Inv(s) && s.phase.Locking?
    ensures LockStep(s).Fine?
    ensures LockStep(s).value.phase.Waiting? <==> s.buffers == []
    ensures LockStep(s).value.phase.Taken? <==> s.buffers != []
  {
    TakeKeepsInv(s);
  }
}
