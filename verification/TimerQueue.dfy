/** The timer queue in its imperative form. Every method is proved against the state machine of
    TimerSpec, so everything proved there about runs holds of sequences of these calls. */
module TimerQueueImpl {
  import opened Outcomes
  import opened TimerSpec
  import opened TimerInvariant
  import opened TimerBatch

  /** One thing a timer callback does, or that happens meanwhile. */
  datatype Action = AddAction(when: int, interval: real) | CancelAction(id: TimerId) | Spend(micros: nat, others: nat)

  lemma {:induction false} ExecSplit(s: State, xs: seq<Event>, ys: seq<Event>)
    requires Legal(s, xs) && Exec(s, xs).Fine?
    ensures Legal(s, xs + ys) <==> Legal(Exec(s, xs).value, ys)
    ensures Exec(s, xs + ys) == Exec(Exec(s, xs).value, ys)
    decreases |xs|
  {
    if xs == [] {
      assert xs + ys == ys;
    } else {
      assert (xs + ys)[1..] == xs[1..] + ys;
      ExecSplit(Apply(s, xs[0]).value, xs[1..], ys);
    }
  }

  /** A run that has reached s goes on with any enabled event. */
  lemma Extend(clock: nat, es: seq<Event>, s: State, e: Event)
    requires Legal(Initial(clock), es) && Exec(Initial(clock), es) == Fine(s) && Enabled(s, e)
    ensures Apply(s, e).Fine?
    ensures Legal(Initial(clock), es + [e]) && Exec(Initial(clock), es + [e]) == Apply(s, e)
  {
    NoFaultFromStart(clock, es);
    StepKeepsInv(s, e);
    ExecSplit(Initial(clock), es, [e]);
    assert [e][1..] == [];
  }

  lemma ExtendTick(clock: nat, es: seq<Event>, s: State, d: nat, n: nat)
    requires Legal(Initial(clock), es) && Exec(Initial(clock), es) == Fine(s)
    ensures Legal(Initial(clock), es + [Tick(d, n)])
    ensures Exec(Initial(clock), es + [Tick(d, n)]) == Fine(s.(clock := s.clock + d, created := s.created + n))
  {
    Extend(clock, es, s, Tick(d, n));
  }

  lemma CompleteBatch(clock: nat, past: seq<Event>, s: State, mid: seq<Event>, t: State)
    requires Legal(Initial(clock), past) && Exec(Initial(clock), past) == Fine(s) && s.phase.Idle?
    requires Legal(Initial(clock), past + [Begin] + mid + [End])
    requires Exec(Initial(clock), past + [Begin] + mid + [End]) == Fine(t)
    requires forall e <- mid :: !e.Begin? && !e.End?
    ensures BatchDone(s, t)
  {
    assert past + [Begin] + mid + [End] == past + ([Begin] + mid + [End]);
    NoFaultFromStart(clock, past);
    ExecSplit(Initial(clock), past, [Begin] + mid + [End]);
    HandleReadBatch(s, mid);
  }

  class TimerQueue {
    var heap: map<int, Timer>
    var timers: seq<Entry>
    var activeTimers: set<TimerId>
    var cancelingTimers: set<TimerId>
    var callingExpiredTimers: bool
    var numCreated: nat
    var timerfd: TimerFd
    var clock: nat
    ghost var phase: Phase
    ghost var ran: seq<TimerId>
    ghost var start: nat
    ghost var trace: seq<Event>  // everything that has happened since the start

    ghost function Model(): State
      reads this
    {
      State(heap, timers, activeTimers, cancelingTimers, numCreated, timerfd, clock, phase, ran)
    }

    /** The object is the result of a legal run of the state machine. */
    ghost predicate Valid()
      reads this
    {
      && Legal(Initial(start), trace) && Exec(Initial(start), trace) == Fine(Model())
      && (callingExpiredTimers <==> phase.Calling?)
    }

    constructor (now: nat)
      ensures Valid() && Model() == Initial(now) && trace == []
    {
      heap, timers, activeTimers, cancelingTimers := map[], [], {}, {};
      callingExpiredTimers, numCreated, timerfd, clock := false, 0, Disarmed, now;
      phase, ran, start, trace := Idle, [], now, [];
    }

    method ResetTimerfd(expiration: int)
      modifies this`timerfd
      ensures timerfd == Arm(expiration, clock)
    {
      var micros := expiration - clock;
      if micros < MIN_DELAY {
        micros := MIN_DELAY;
      }
      timerfd := Armed(clock + micros, clock);
    }

    method Insert(addr: int) returns (earliestChanged: bool)
      requires TimerSpec.Insert(Model(), addr).Fine?
      modifies this`timers, this`activeTimers
      ensures Model() == old(TimerSpec.Insert(Model(), addr).value)
      ensures earliestChanged == old(EarliestChanged(Model(), heap[addr].expiration))
    {
      assert |timers| == |activeTimers|;
      var when := heap[addr].expiration;
      earliestChanged := timers == [] || when < timers[0].when;
      assert Entry(when, addr) !in timers;
      timers := InsertEntry(timers, Entry(when, addr));
      var id := TimerId(addr, heap[addr].sequence);
      assert id !in activeTimers;
      activeTimers := activeTimers + {id};
    }

    method AddTimerInLoop(addr: int)
      requires TimerSpec.AddInLoop(Model(), addr).Fine?
      modifies this`timers, this`activeTimers, this`timerfd
      ensures Model() == old(TimerSpec.AddInLoop(Model(), addr).value)
    {
      var earliestChanged := Insert(addr);
      if earliestChanged {
        ResetTimerfd(heap[addr].expiration);
      }
    }

    /** The constructor of a timer at an address the allocator has found free. */
    method NewTimerAt(addr: int, when: int, interval: real) returns (id: TimerId)
      modifies this`numCreated, this`heap
      ensures Model() == old(Alloc(Model(), addr, when, interval))
      ensures id == TimerId(addr, numCreated)
    {
      numCreated := numCreated + 1;
      heap := heap[addr := Timer(numCreated, interval > 0.0, Truncate(interval), when)];
      id := TimerId(addr, numCreated);
    }

    method AddTimerAt(addr: int, when: int, interval: real) returns (id: TimerId)
      requires TimerSpec.AddInLoop(Alloc(Model(), addr, when, interval), addr).Fine?
      modifies this`heap, this`numCreated, this`timers, this`activeTimers, this`timerfd
      ensures Model() == old(TimerSpec.AddInLoop(Alloc(Model(), addr, when, interval), addr)).value
      ensures id == TimerId(addr, old(numCreated) + 1)
    {
      id := NewTimerAt(addr, when, interval);
      AddTimerInLoop(addr);
    }

    /** The allocator: any address not in use, or 0 when there is none. */
    method Allocate() returns (addr: int)
      ensures addr == 0 ==> forall a :: 0 < a < SENTRY_ADDR ==> a in heap
      ensures addr != 0 ==> 0 < addr < SENTRY_ADDR && addr !in heap
    {
      if a: int :| 0 < a < SENTRY_ADDR && a !in heap {
        addr := a;
      } else {
        addr := 0;
      }
    }

    /** Allocates a timer wherever the allocator finds room and enters it; the null handle
        means that there was no room. */
    method AddTimer(when: int, interval: real) returns (id: TimerId)
      requires Valid()
      modifies this
      ensures Valid() && phase == old(phase) && start == old(start)
      ensures id.addr == 0 ==>
                && Model() == old(Model()) && trace == old(trace)
                && forall a :: 0 < a < SENTRY_ADDR ==> a in heap
      ensures id.addr != 0 ==>
                && trace == old(trace) + [Add(id.addr, when, interval)]
                && old(Enabled(Model(), Add(id.addr, when, interval)))
                && Fine(Model()) == old(Apply(Model(), Add(id.addr, when, interval)))
                && id.sequence == old(numCreated) + 1
    {
      var addr := Allocate();
      if addr != 0 {
        Extend(start, trace, Model(), Add(addr, when, interval));
        trace := trace + [Add(addr, when, interval)];
        id := AddTimerAt(addr, when, interval);
      } else {
        id := TimerId(0, 0);
      }
    }

    method CancelInLoop(id: TimerId)
      requires Valid()
      modifies this
      ensures Valid() && phase == old(phase) && start == old(start)
      ensures trace == old(trace) + [Cancel(id)] && Fine(Model()) == old(Apply(Model(), Cancel(id)))
    {
      Extend(start, trace, Model(), Cancel(id));
      trace := trace + [Cancel(id)];
      assert |timers| == |activeTimers|;
      if id in activeTimers {
        var e := Entry(heap[id.addr].expiration, id.addr);
        assert e in timers;
        timers := EraseEntry(timers, e);
        heap := heap - {id.addr};
        activeTimers := activeTimers - {id};
      } else if callingExpiredTimers {
        cancelingTimers := cancelingTimers + {id};
      }
    }

    method GetExpired(now: int) returns (expired: seq<Entry>)
      requires TimerSpec.GetExpired(Model(), now).Fine?
      modifies this`timers, this`activeTimers
      ensures expired == old(timers[..ExpiredCount(Model(), now)])
      ensures Model() == old(TimerSpec.GetExpired(Model(), now).value)
    {
      assert |timers| == |activeTimers|;
      var end := LowerBound(timers, Entry(now, SENTRY_ADDR));
      assert end == |timers| || now < timers[end].when;
      expired := timers[..end];
      timers := timers[end..];
      ghost var target := EraseActive(Model(), expired);
      for i := 0 to |expired|
        invariant EraseActive(Model(), expired[i..]) == target
        invariant timers == old(timers)[end..] && Model() == old(Model()).(timers := timers, active := activeTimers)
      {
        assert expired[i..][0] == expired[i] && expired[i..][1..] == expired[i + 1..];
        var id := TimerId(expired[i].addr, heap[expired[i].addr].sequence);
        assert id in activeTimers;
        activeTimers := activeTimers - {id};
      }
    }

    method ResetOne(addr: int, now: int)
      requires TimerSpec.ResetOne(Model(), addr, now).Fine?
      modifies this`heap, this`timers, this`activeTimers
      ensures Model() == old(TimerSpec.ResetOne(Model(), addr, now).value)
    {
      var id := TimerId(addr, heap[addr].sequence);
      if heap[addr].repeat && id !in cancelingTimers {
        heap := heap[addr := heap[addr].(expiration := now + heap[addr].interval * MICROS_PER_SECOND)];
        var _ := Insert(addr);
      } else {
        heap := heap - {addr};
      }
    }

    method Reset(expired: seq<Entry>, now: int)
      requires TimerSpec.ResetAll(Model(), expired, now).Fine?
      requires TimerSpec.Rearm(TimerSpec.ResetAll(Model(), expired, now).value).Fine?
      modifies this`heap, this`timers, this`activeTimers, this`timerfd
      ensures Model() == old(Rearm(ResetAll(Model(), expired, now).value).value)
    {
      ghost var target := ResetAll(Model(), expired, now);
      for i := 0 to |expired|
        invariant ResetAll(Model(), expired[i..], now) == target
      {
        assert expired[i..][0] == expired[i] && expired[i..][1..] == expired[i + 1..];
        ResetOne(expired[i].addr, now);
      }
      if timers != [] {
        var nextExpire := heap[timers[0].addr].expiration;
        if nextExpire > 0 {
          ResetTimerfd(nextExpire);
        }
      }
    }

    /** Time passes, and other loops create timers. */
    method Pass(micros: nat, others: nat)
      requires Valid()
      modifies this`clock, this`numCreated, this`trace
      ensures Valid() && trace == old(trace) + [Tick(micros, others)]
    {
      ExtendTick(start, trace, Model(), micros, others);
      clock, numCreated := clock + micros, numCreated + others;
      trace := trace + [Tick(micros, others)];
    }

    method Perform(action: Action)
      requires Valid()
      modifies this
      ensures Valid() && phase == old(phase) && start == old(start)
      ensures match action
        case AddAction(when, interval) =>
          trace == old(trace) || exists a :: trace == old(trace) + [Add(a, when, interval)]
        case CancelAction(id) => trace == old(trace) + [Cancel(id)]
        case Spend(micros, others) => trace == old(trace) + [Tick(micros, others)]
    {
      match action {
        case AddAction(when, interval) =>
          var _ := AddTimer(when, interval);
        case CancelAction(id) =>
          CancelInLoop(id);
        case Spend(micros, others) =>
          Pass(micros, others);
      }
    }

    /** Runs one callback: any list of actions. */
    method RunCallback(actions: seq<Action>) returns (ghost es: seq<Event>)
      requires Valid()
      modifies this
      ensures Valid() && phase == old(phase) && start == old(start)
      ensures trace == old(trace) + es && forall e <- es :: e.Add? || e.Cancel? || e.Tick?
    {
      es := [];
      for i := 0 to |actions|
        invariant Valid() && phase == old(phase) && start == old(start)
        invariant trace == old(trace) + es && forall e <- es :: e.Add? || e.Cancel? || e.Tick?
      {
        ghost var before := trace;
        Perform(actions[i]);
        es := es + trace[|before|..];
      }
    }

    method ReadTimerfd()
      modifies this`timerfd
      ensures timerfd == old(TimerSpec.ReadTimerfd(timerfd, clock))
    {
      if timerfd.Armed? && timerfd.deadline <= clock {
        timerfd := Disarmed;
      }
    }

    method ExtractBatch(now: int) returns (expired: seq<Entry>)
      requires now == clock && BeginBatch(Model()).Fine?
      modifies this`timers, this`activeTimers, this`timerfd, this`cancelingTimers, this`callingExpiredTimers, this`phase
      ensures Model() == old(BeginBatch(Model())).value
      ensures expired == old(Due(Model())) && phase == Calling(expired, 0, now) && callingExpiredTimers
    {
      ReadTimerfd();
      expired := GetExpired(now);
      callingExpiredTimers := true;
      cancelingTimers := {};
      phase := Calling(expired, 0, now);
    }

    method StartBatch(now: int) returns (expired: seq<Entry>)
      requires Valid() && !callingExpiredTimers && now == clock
      modifies this
      ensures Valid() && expired == old(Due(Model())) && phase == Calling(expired, 0, now)
      ensures start == old(start) && trace == old(trace) + [Begin]
    {
      Extend(start, trace, Model(), Begin);
      trace := trace + [Begin];
      expired := ExtractBatch(now);
    }

    /** The bookkeeping of calling the next expired timer. */
    ghost method StartCallback(addr: int)
      requires Valid() && Enabled(Model(), RunNext) && addr == phase.expired[phase.next].addr
      modifies this`ran, this`phase, this`trace
      ensures Valid() && phase == old(phase).(next := old(phase).next + 1)
      ensures trace == old(trace) + [RunNext]
    {
      Extend(start, trace, Model(), RunNext);
      trace := trace + [RunNext];
      ran := ran + [IdOf(Model(), addr)];
      phase := phase.(next := phase.next + 1);
    }

    method FinishBatch(expired: seq<Entry>, now: int)
      requires Valid() && Enabled(Model(), End) && phase.expired == expired && phase.now == now
      modifies this
      ensures Valid() && !callingExpiredTimers
      ensures start == old(start) && trace == old(trace) + [End]
    {
      Extend(start, trace, Model(), End);
      trace := trace + [End];
      callingExpiredTimers := false;
      phase := Idle;
      Reset(expired, now);
    }

    /** The i-th expired timer's callback performs script[i]; whatever the scripts are, the call
        is one complete batch of the state machine. */
    method HandleRead(script: seq<seq<Action>>) returns (ghost mid: seq<Event>)
      requires Valid() && !callingExpiredTimers
      modifies this
      ensures Valid() && !callingExpiredTimers
      ensures trace == old(trace) + [Begin] + mid + [End] && forall e <- mid :: !e.Begin? && !e.End?
      ensures BatchDone(old(Model()), Model())
    {
      ghost var s := Model();
      var now := clock;
      var expired := StartBatch(now);
      mid := [];
      for i := 0 to |expired|
        invariant Valid() && phase == Calling(expired, i, now) && start == old(start)
        invariant trace == old(trace) + [Begin] + mid && forall e <- mid :: !e.Begin? && !e.End?
      {
        StartCallback(expired[i].addr);
        ghost var es := RunCallback(if i < |script| then script[i] else []);
        mid := mid + [RunNext] + es;
      }
      FinishBatch(expired, now);
      CompleteBatch(start, old(trace), s, mid, Model());
    }
  }
}
