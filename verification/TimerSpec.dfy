/** The timer queue as a state machine.

    Memory is explicit: `heap` maps the address of every allocated timer to its fields, the
    allocator may hand out any address that is not in it (a freed one included), and every
    access through a freed pointer, every failed assertion and every double free is a `Fault`. */
module TimerSpec {
  import opened Outcomes

  /** The pointer part of the sentry used to cut the expired prefix off (UINTPTR_MAX). */
  const SENTRY_ADDR: int := 0xFFFF_FFFF_FFFF_FFFF
  const MICROS_PER_SECOND: int := 1_000_000
  const MIN_DELAY: int := 100

  datatype Timer = Timer(sequence: int, repeat: bool, interval: int, expiration: int)
  datatype Entry = Entry(when: int, addr: int)
  /** Both the handle given to users and the element of the address-ordered index. */
  datatype TimerId = TimerId(addr: int, sequence: int)

  /** A one-shot timer descriptor; `Armed(d, t)` was armed at time t to expire at time d and,
      once d has passed, stays readable until it is read or armed again. */
  datatype TimerFd = Disarmed | Armed(deadline: int, since: int)

  /** `Calling` is the callback loop of handleRead over the extracted batch. */
  datatype Phase = Idle | Calling(expired: seq<Entry>, next: nat, now: nat)

  datatype State = State(
    heap: map<int, Timer>,
    timers: seq<Entry>,
    active: set<TimerId>,
    canceling: set<TimerId>,
    created: nat,
    fd: TimerFd,
    clock: nat,
    phase: Phase,
    ran: seq<TimerId>)

  /** In a tick, time passes and timer queues of other loops take sequence numbers. */
  datatype Event =
    | Add(addr: int, when: int, interval: real)
    | Cancel(id: TimerId)
    | Begin
    | RunNext
    | End
    | Tick(micros: nat, others: nat)

  /** An empty queue at the given time. */
  function Initial(clock: nat): State {
    State(map[], [], {}, {}, 0, Disarmed, clock, Idle, [])
  }

  // ---- the ordered set of entries ----

  predicate Before(a: Entry, b: Entry) {
    a.when < b.when || (a.when == b.when && a.addr < b.addr)
  }

  ghost predicate Sorted(ts: seq<Entry>) {
    forall i, j :: 0 <= i < j < |ts| ==> Before(ts[i], ts[j])
  }

  /** Index of the first entry that is not before the key. */
  function LowerBound(ts: seq<Entry>, key: Entry): (k: nat)
    ensures k <= |ts|
    ensures forall i :: 0 <= i < k ==> Before(ts[i], key)
    ensures k < |ts| ==> !Before(ts[k], key)
  {
    if ts == [] || !Before(ts[0], key) then 0 else 1 + LowerBound(ts[1..], key)
  }

  function InsertEntry(ts: seq<Entry>, e: Entry): seq<Entry> {
    var k := LowerBound(ts, e);
    if k < |ts| && ts[k] == e then ts else ts[..k] + [e] + ts[k..]
  }

  function EraseEntry(ts: seq<Entry>, e: Entry): seq<Entry> {
    var k := LowerBound(ts, e);
    if k < |ts| && ts[k] == e then ts[..k] + ts[k + 1..] else ts
  }

  // ---- timers and the descriptor ----

  /** Conversion of a floating-point value to an integer drops the fraction. */
  function Truncate(x: real): int {
    if x >= 0.0 then x.Floor else -((-x).Floor)
  }

  function NewTimer(sequence: int, when: int, interval: real): Timer {
    Timer(sequence, interval > 0.0, Truncate(interval), when)
  }

  function Restart(t: Timer, now: int): Timer {
    t.(expiration := if t.repeat then now + t.interval * MICROS_PER_SECOND else 0)
  }

  function HowMuchTimeFromNow(when: int, clock: int): int {
    if when - clock < MIN_DELAY then MIN_DELAY else when - clock
  }

  function Arm(when: int, clock: int): TimerFd {
    Armed(clock + HowMuchTimeFromNow(when, clock), clock)
  }

  predicate Readable(fd: TimerFd, clock: int) {
    fd.Armed? && fd.deadline <= clock
  }

  /** Reading an expired descriptor consumes the expiration; otherwise the read fails. */
  function ReadTimerfd(fd: TimerFd, clock: int): TimerFd {
    if Readable(fd, clock) then Disarmed else fd
  }

  // ---- operations ----

  function IdOf(s: State, addr: int): TimerId
    requires addr in s.heap
  {
    TimerId(addr, s.heap[addr].sequence)
  }

  predicate EarliestChanged(s: State, when: int) {
    s.timers == [] || when < s.timers[0].when
  }

  /** Enters the timer at addr into both indexes; both insertions must succeed. */
  function Insert(s: State, addr: int): Outcome<State> {
    if addr !in s.heap || |s.timers| != |s.active| then Fault else
    var e := Entry(s.heap[addr].expiration, addr);
    if e in s.timers || IdOf(s, addr) in s.active then Fault else
    Fine(s.(timers := InsertEntry(s.timers, e), active := s.active + {IdOf(s, addr)}))
  }

  function Free(s: State, addr: int): Outcome<State> {
    if addr in s.heap then Fine(s.(heap := s.heap - {addr})) else Fault
  }

  /** The constructor takes the next sequence number; `addr` is the allocator's answer. */
  function Alloc(s: State, addr: int, when: int, interval: real): State {
    s.(heap := s.heap[addr := NewTimer(s.created + 1, when, interval)], created := s.created + 1)
  }

  function AddInLoop(s: State, addr: int): Outcome<State> {
    var t :- Insert(s, addr);
    var when := s.heap[addr].expiration;
    Fine(if EarliestChanged(s, when) then t.(fd := Arm(when, s.clock)) else t)
  }

  /** Takes an indexed timer out of both indexes; exactly one entry must go. */
  function Unindex(s: State, id: TimerId): Outcome<State> {
    if id.addr !in s.heap then Fault else
    var e := Entry(s.heap[id.addr].expiration, id.addr);
    if e !in s.timers then Fault else
    Fine(s.(timers := EraseEntry(s.timers, e), active := s.active - {id}))
  }

  function CancelInLoop(s: State, id: TimerId): Outcome<State> {
    if |s.timers| != |s.active| then Fault
    else if id in s.active then
      var t :- Unindex(s, id);
      Free(t, id.addr)
    else if s.phase.Calling? then Fine(s.(canceling := s.canceling + {id}))
    else Fine(s)
  }

  /** Erases the batch from the address-ordered index, one element each. */
  function EraseActive(s: State, expired: seq<Entry>): Outcome<State>
    decreases |expired|
  {
    if expired == [] then Fine(s)
    else if expired[0].addr !in s.heap || IdOf(s, expired[0].addr) !in s.active then Fault
    else EraseActive(s.(active := s.active - {IdOf(s, expired[0].addr)}), expired[1..])
  }

  function ExpiredCount(s: State, now: int): (k: nat)
    ensures k <= |s.timers|
  {
    LowerBound(s.timers, Entry(now, SENTRY_ADDR))
  }

  function GetExpired(s: State, now: int): Outcome<State> {
    if |s.timers| != |s.active| then Fault else
    var k := ExpiredCount(s, now);
    if k < |s.timers| && s.timers[k].when <= now then Fault else
    EraseActive(s.(timers := s.timers[k..]), s.timers[..k])
  }

  function BeginBatch(s: State): Outcome<State> {
    var now := s.clock;
    var t :- GetExpired(s.(fd := ReadTimerfd(s.fd, now)), now);
    Fine(t.(canceling := {}, phase := Calling(s.timers[..ExpiredCount(s, now)], 0, now)))
  }

  function RunOne(s: State): Outcome<State> {
    if s.phase.Idle? || s.phase.next >= |s.phase.expired| then Fault else
    var addr := s.phase.expired[s.phase.next].addr;
    if addr !in s.heap then Fault else
    Fine(s.(ran := s.ran + [IdOf(s, addr)], phase := s.phase.(next := s.phase.next + 1)))
  }

  function ResetOne(s: State, addr: int, now: int): Outcome<State> {
    if addr !in s.heap then Fault
    else if s.heap[addr].repeat && IdOf(s, addr) !in s.canceling then
      Insert(s.(heap := s.heap[addr := Restart(s.heap[addr], now)]), addr)
    else Free(s, addr)
  }

  function ResetAll(s: State, expired: seq<Entry>, now: int): Outcome<State>
    decreases |expired|
  {
    if expired == [] then Fine(s) else
    var t :- ResetOne(s, expired[0].addr, now);
    ResetAll(t, expired[1..], now)
  }

  function Rearm(s: State): Outcome<State> {
    if s.timers == [] then Fine(s)
    else if s.timers[0].addr !in s.heap then Fault
    else
      var next := s.heap[s.timers[0].addr].expiration;
      Fine(if next > 0 then s.(fd := Arm(next, s.clock)) else s)
  }

  function EndBatch(s: State): Outcome<State> {
    if s.phase.Idle? then Fault else
    var t :- ResetAll(s.(phase := Idle), s.phase.expired, s.phase.now);
    Rearm(t)
  }

  // ---- runs ----

  /** What the environment may do next: the allocator returns unused addresses, callbacks run
      one after the other, and everything else may happen at any time. */
  predicate Enabled(s: State, e: Event) {
    match e
    case Add(addr, _, _) => 0 < addr < SENTRY_ADDR && addr !in s.heap
    case Begin => s.phase.Idle?
    case RunNext => s.phase.Calling? && s.phase.next < |s.phase.expired|
    case End => s.phase.Calling? && s.phase.next == |s.phase.expired|
    case _ => true
  }

  function Apply(s: State, e: Event): Outcome<State> {
    match e
    case Add(addr, when, interval) => AddInLoop(Alloc(s, addr, when, interval), addr)
    case Cancel(id) => CancelInLoop(s, id)
    case Begin => BeginBatch(s)
    case RunNext => RunOne(s)
    case End => EndBatch(s)
    case Tick(d, n) => Fine(s.(clock := s.clock + d, created := s.created + n))
  }

  function Exec(s: State, es: seq<Event>): Outcome<State>
    decreases |es|
  {
    if es == [] then Fine(s) else
    var t :- Apply(s, es[0]);
    Exec(t, es[1..])
  }

  /** Every event of the run is enabled when its turn comes. */
  predicate Legal(s: State, es: seq<Event>)
    decreases |es|
  {
    es == [] ||
    (Enabled(s, es[0]) && (Apply(s, es[0]).Fine? ==> Legal(Apply(s, es[0]).value, es[1..])))
  }
}
