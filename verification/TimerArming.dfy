/** When the descriptor does not fire: not before the earliest timer, and not without one. */
module TimerArming {
  import opened Outcomes
  import opened TimerSpec
  import opened TimerInvariant
  import opened TimerTheorems
  import opened TimerBatch

  /** With no batch being run, an armed descriptor fires no earlier than the earliest timer expires. */
  ghost predicate NotEarly(s: State) {
    && (s.fd.Armed? ==> s.fd.deadline > 0)
    && (s.phase.Idle? && s.timers != [] && s.fd.Armed? ==> s.fd.deadline >= s.timers[0].when)
  }

  ghost predicate Positive(s: State) {
    s.fd.Armed? ==> s.fd.deadline > 0
  }

  lemma InsertNotEarly(s: State, t: State, x: Entry)
    requires Sorted(s.timers) && x !in s.timers && NotEarly(s)
    requires t.timers == InsertEntry(s.timers, x) && t.clock == s.clock && t.phase == s.phase
    requires t.fd == if EarliestChanged(s, x.when) then Arm(x.when, s.clock) else s.fd
    ensures NotEarly(t)
  {
    InsertKeepsOrder(s.timers, x);
  }

  lemma AddNotEarly(s: State, e: Event)
    requires Inv(s) && NotEarly(s) && e.Add? && Enabled(s, e)
    ensures Apply(s, e).Fine? && NotEarly(Apply(s, e).value)
  {
    AddIndexed(s, Limbo(s), e.addr, e.when, e.interval);
    InsertNotEarly(s, Apply(s, e).value, Entry(e.when, e.addr));
  }

  lemma CancelKeepsPositive(s: State, id: TimerId)
    requires Inv(s) && Positive(s)
    ensures CancelInLoop(s, id).Fine? && Positive(CancelInLoop(s, id).value)
    ensures CancelInLoop(s, id).value.phase == s.phase
  {
    CancelKeepsInv(s, id);
    if id in s.active { CancelIndexed(s, Limbo(s), id); }
  }

  /** The end of any batch, whatever went before, leaves the descriptor armed for the earliest timer. */
  lemma EndNotEarly(s: State)
    requires Inv(s) && Positive(s) && s.phase.Calling?
    ensures EndBatch(s).Fine? && NotEarly(EndBatch(s).value)
  {
    EndKeepsInv(s);
    var u := s.(phase := Idle);
    ResetAllFrame(u, s.phase.expired, s.phase.now);
    var v := ResetAll(u, s.phase.expired, s.phase.now).value;
    var t := EndBatch(s).value;
    assert t.timers != [] ==> t.timers[0] in t.timers;
  }

  lemma StepNotEarly(s: State, e: Event)
    requires Inv(s) && NotEarly(s) && Enabled(s, e) && (e.Cancel? ==> s.phase.Calling?)
    ensures Apply(s, e).Fine? && NotEarly(Apply(s, e).value)
  {
    match e
    case Add(_, _, _) => AddNotEarly(s, e);
    case Cancel(id) => CancelKeepsPositive(s, id);
    case Begin => BeginKeepsInv(s);
    case RunNext => RunNextKeepsInv(s);
    case End => EndNotEarly(s);
    case Tick(_, _) =>
  }

  /** Timers are cancelled in callbacks only. */
  predicate CancelsInBatches(s: State, es: seq<Event>)
    requires Legal(s, es)
    decreases |es|
  {
    es == [] ||
    ((es[0].Cancel? ==> s.phase.Calling?) &&
     (Apply(s, es[0]).Fine? ==> CancelsInBatches(Apply(s, es[0]).value, es[1..])))
  }

  /** From there on it stays so until a timer is cancelled outside a batch, which leaves the descriptor
      armed for it. */
  lemma {:induction false} RunNotEarly(s: State, es: seq<Event>)
    requires Inv(s) && NotEarly(s) && Legal(s, es) && CancelsInBatches(s, es)
    ensures Exec(s, es).Fine? && NotEarly(Exec(s, es).value)
    decreases |es|
  {
    if es != [] {
      StepKeepsInv(s, es[0]);
      StepNotEarly(s, es[0]);
      RunNotEarly(Apply(s, es[0]).value, es[1..]);
    }
  }

  lemma NeverFiresEarly(clock: nat, es: seq<Event>)
    requires Legal(Initial(clock), es) && CancelsInBatches(Initial(clock), es)
    ensures Exec(Initial(clock), es).Fine?
    ensures var s := Exec(Initial(clock), es).value;
      s.phase.Idle? && s.timers != [] && Readable(s.fd, s.clock) ==> s.timers[0].when <= s.clock
  {
    NoFaultFromStart(clock, []);
    RunNotEarly(Initial(clock), es);
  }

  /** Nothing is added, and no batch begins or ends. */
  predicate Plain(e: Event) {
    !e.Add? && !e.Begin? && !e.End?
  }

  lemma StepKeepsDisarmed(s: State, e: Event)
    requires Inv(s) && Enabled(s, e) && Plain(e) && s.fd.Disarmed?
    ensures Apply(s, e).Fine? && Apply(s, e).value.fd.Disarmed?
  {
    match e
    case Cancel(id) =>
      CancelKeepsInv(s, id);
      if id in s.active { CancelIndexed(s, Limbo(s), id); }
    case RunNext => RunNextKeepsInv(s);
    case Tick(_, _) =>
  }

  lemma {:induction false} RunKeepsDisarmed(s: State, mid: seq<Event>)
    requires Inv(s) && s.phase.Calling? && s.fd.Disarmed? && Legal(s, mid + [End])
    requires forall e <- mid :: Plain(e)
    ensures Exec(s, mid + [End]).Fine?
    ensures var t := Exec(s, mid + [End]).value; t.timers == [] ==> t.fd.Disarmed?
    decreases |mid|
  {
    if mid == [] {
      assert mid + [End] == [End] && [End][1..] == [];
      EndKeepsInv(s);
      ResetAllFrame(s.(phase := Idle), s.phase.expired, s.phase.now);
    } else {
      assert (mid + [End])[0] == mid[0] && (mid + [End])[1..] == mid[1..] + [End];
      assert mid[0] in mid;
      StepKeepsInv(s, mid[0]);
      StepKeepsDisarmed(s, mid[0]);
      RunKeepsDisarmed(Apply(s, mid[0]).value, mid[1..]);
    }
  }

  /** handleRead takes the expiration in: a descriptor that called it and is left without a timer is
      disarmed afterwards, and does not become readable again by itself. */
  lemma QuietAfterLast(u: State, mid: seq<Event>)
    requires Inv(u) && u.phase.Idle? && Readable(u.fd, u.clock) && forall e <- mid :: Plain(e)
    requires Legal(u, [Begin] + mid + [End])
    ensures BeginBatch(u).Fine? && !Readable(BeginBatch(u).value.fd, BeginBatch(u).value.clock)
    ensures Exec(u, [Begin] + mid + [End]).Fine?
    ensures var t := Exec(u, [Begin] + mid + [End]).value; t.timers == [] ==> t.fd.Disarmed?
  {
    assert ([Begin] + mid + [End])[0] == Begin && ([Begin] + mid + [End])[1..] == mid + [End];
    BeginKeepsInv(u);
    RunKeepsDisarmed(BeginBatch(u).value, mid);
  }
}
