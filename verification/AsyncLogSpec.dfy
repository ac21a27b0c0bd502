/** The double-buffered log as a state machine: any number of front-end threads append records
    under the mutex while one back-end thread takes, writes and recycles buffers. */
module AsyncLogSpec {
  import opened Outcomes

  const LARGE_BUFFER: int := 4000 * 1000
  const MAX_BATCH: int := 25

  type Bytes = seq<char>

  /** An owned buffer: `id` is its address, `data` what has been copied into it. */
  datatype Buf = Buf(id: nat, data: Bytes)

  /** Where the back-end thread stands. `Waiting` has released the mutex inside the timed wait;
      from `Taken` on the mutex is free and the batch belongs to the thread. */
  datatype Phase =
    | Top
    | Locking
    | Waiting
    | Taken(batch: seq<Buf>)
    | Writing(batch: seq<Buf>, written: nat)
    | Finished

  /** `accepted` is what the front ends handed over so far and `taken` the contents of every
      batch the back end took; both are history. */
  datatype State = State(
    current: Buf,
    next: Option<Buf>,
    buffers: seq<Buf>,
    spare1: Option<Buf>,
    spare2: Option<Buf>,
    running: bool,
    phase: Phase,
    file: Bytes,
    accepted: Bytes,
    taken: seq<seq<Bytes>>)

  /** `Append(r, a)` appends record r; a is the address the allocator would return if asked. */
  datatype Event = Append(record: Bytes, addr: nat) | Stop | Loop | Lock | Wake | Trim | Write | Recycle

  predicate FourDistinct(a: nat, b: nat, c: nat, d: nat) {
    a != b && a != c && a != d && b != c && b != d && c != d
  }

  function Started(a: nat, b: nat, c: nat, d: nat): State {
    State(Buf(a, []), Some(Buf(b, [])), [], Some(Buf(c, [])), Some(Buf(d, [])), true, Top, [], [], [])
  }

  // ---- contents ----

  function Flat(parts: seq<Bytes>): Bytes {
    if parts == [] then [] else Flat(parts[..|parts| - 1]) + parts[|parts| - 1]
  }

  function Datas(bs: seq<Buf>): seq<Bytes> {
    seq(|bs|, i requires 0 <= i < |bs| => bs[i].data)
  }

  /** Everything in a sequence of batches, in order. */
  function AllOf(batches: seq<seq<Bytes>>): Bytes {
    if batches == [] then [] else AllOf(batches[..|batches| - 1]) + Flat(batches[|batches| - 1])
  }

  /** What the back end keeps of a batch it has taken. */
  function Kept<T>(batch: seq<T>): seq<T> {
    if |batch| > MAX_BATCH then batch[..2] else batch
  }

  /** What reaches the file of a sequence of batches. */
  function KeptOf(batches: seq<seq<Bytes>>): Bytes {
    if batches == [] then [] else KeptOf(batches[..|batches| - 1]) + Flat(Kept(batches[|batches| - 1]))
  }

  // ---- ownership ----

  function PhaseBufs(p: Phase): seq<Buf> {
    if p.Taken? || p.Writing? then p.batch else []
  }

  function OptOwners(o: Option<Buf>, id: nat): nat {
    if o.Some? && o.value.id == id then 1 else 0
  }

  function SeqOwners(bs: seq<Buf>, id: nat): nat {
    if bs == [] then 0 else SeqOwners(bs[..|bs| - 1], id) + if bs[|bs| - 1].id == id then 1 else 0
  }

  /** How many pointers own the buffer at this address. */
  function Owners(s: State, id: nat): nat {
    (if s.current.id == id then 1 else 0) + OptOwners(s.next, id) + SeqOwners(s.buffers, id)
    + OptOwners(s.spare1, id) + OptOwners(s.spare2, id) + SeqOwners(PhaseBufs(s.phase), id)
  }

  // ---- operations ----

  /** Copies the record behind the contents, or does nothing when it does not fit. */
  function BufAppend(b: Buf, record: Bytes): Buf {
    if LARGE_BUFFER - |b.data| > |record| then b.(data := b.data + record) else b
  }

  function AppendStep(s: State, record: Bytes, addr: nat): State {
    var t := s.(accepted := s.accepted + if |record| < LARGE_BUFFER then record else []);
    if LARGE_BUFFER - |s.current.data| > |record| then
      t.(current := BufAppend(s.current, record))
    else
      t.(buffers := s.buffers + [s.current],
         current := BufAppend(if s.next.Some? then s.next.value else Buf(addr, []), record),
         next := None)
  }

  /** The critical section of the back end, entered with the mutex held. */
  function Take(s: State): Outcome<State> {
    if s.spare1.None? then Fault else
    var batch := s.buffers + [s.current];
    Fine(s.(current := s.spare1.value, spare1 := None, buffers := [],
            next := if s.next.None? then s.spare2 else s.next,
            spare2 := if s.next.None? then None else s.spare2,
            phase := Taken(batch), taken := s.taken + [Datas(batch)]))
  }

  predicate SpareReady(o: Option<Buf>) {
    o.Some? && o.value.data == []
  }

  /** The loop test and the assertions at the top of a round. */
  function LoopStep(s: State): Outcome<State> {
    if !s.running then Fine(s.(phase := Finished))
    else if SpareReady(s.spare1) && SpareReady(s.spare2) then Fine(s.(phase := Locking))
    else Fault
  }

  function LockStep(s: State): Outcome<State> {
    if s.buffers == [] then Fine(s.(phase := Waiting)) else Take(s)
  }

  function TrimStep(s: State): Outcome<State> {
    if PhaseBufs(s.phase) == [] then Fault else Fine(s.(phase := Writing(Kept(s.phase.batch), 0)))
  }

  function WriteStep(s: State): Outcome<State>
    requires s.phase.Writing? && s.phase.written < |s.phase.batch|
  {
    Fine(s.(file := s.file + s.phase.batch[s.phase.written].data, phase := s.phase.(written := s.phase.written + 1)))
  }

  /** Refills an empty spare from the back of the written buffers. */
  function Refill(spare: Option<Buf>, pool: seq<Buf>): Outcome<(Option<Buf>, seq<Buf>)> {
    if spare.Some? then Fine((spare, pool))
    else if pool == [] then Fault
    else Fine((Some(Buf(pool[|pool| - 1].id, [])), pool[..|pool| - 1]))
  }

  function RecycleStep(s: State): Outcome<State>
    requires s.phase.Writing?
  {
    var pool := if |s.phase.batch| > 2 then s.phase.batch[..2] else s.phase.batch;
    var r1 :- Refill(s.spare1, pool);
    var r2 :- Refill(s.spare2, r1.1);
    Fine(s.(spare1 := r1.0, spare2 := r2.0, phase := Top))
  }

  // ---- runs ----

  predicate Enabled(s: State, e: Event) {
    match e
    case Append(_, addr) => Owners(s, addr) == 0
    case Stop => true
    case Loop => s.phase.Top?
    case Lock => s.phase.Locking?
    case Wake => s.phase.Waiting?
    case Trim => s.phase.Taken?
    case Write => s.phase.Writing? && s.phase.written < |s.phase.batch|
    case Recycle => s.phase.Writing? && s.phase.written == |s.phase.batch|
  }

  function Apply(s: State, e: Event): Outcome<State>
    requires Enabled(s, e)
  {
    match e
    case Append(record, addr) => Fine(AppendStep(s, record, addr))
    case Stop => Fine(s.(running := false))
    case Loop => LoopStep(s)
    case Lock => LockStep(s)
    case Wake => Take(s)
    case Trim => TrimStep(s)
    case Write => WriteStep(s)
    case Recycle => RecycleStep(s)
  }

  /** The run of events es from s, each one enabled when its turn comes, ends in `Exec(s, es)`. */
  predicate Legal(s: State, es: seq<Event>)
    decreases |es|
  {
    es == [] ||
    (Enabled(s, es[0]) && (Apply(s, es[0]).Fine? ==> Legal(Apply(s, es[0]).value, es[1..])))
  }

  function Exec(s: State, es: seq<Event>): Outcome<State>
    requires Legal(s, es)
    decreases |es|
  {
    if es == [] then Fine(s) else
    var t :- Apply(s, es[0]);
    Exec(t, es[1..])
  }
}
