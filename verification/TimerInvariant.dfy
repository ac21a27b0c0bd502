/** What every step of the timer queue keeps: both indexes hold exactly the timers that are
    allocated and not in the batch being run, under their current expirations. */
module TimerInvariant {
  import opened TimerSpec

  // ---- the ordered set ----

  lemma InsertSorted(ts: seq<Entry>, e: Entry)
    requires Sorted(ts) && e !in ts
    ensures Sorted(InsertEntry(ts, e))
  {
    var k, r := LowerBound(ts, e), InsertEntry(ts, e);
    forall i, j | 0 <= i < j < |r| ensures Before(r[i], r[j]) {
      assert r[i] == if i < k then ts[i] else if i == k then e else ts[i - 1];
      assert r[j] == if j < k then ts[j] else if j == k then e else ts[j - 1];
      assert k < |ts| ==> ts[k] != e && Before(e, ts[k]);
    }
  }

  lemma InsertKeepsOrder(ts: seq<Entry>, e: Entry)
    requires Sorted(ts) && e !in ts
    ensures Sorted(InsertEntry(ts, e))
    ensures forall x :: x in InsertEntry(ts, e) <==> x in ts || x == e
    ensures |InsertEntry(ts, e)| == |ts| + 1
    ensures InsertEntry(ts, e)[0] == if ts == [] || Before(e, ts[0]) then e else ts[0]
  {
    InsertSorted(ts, e);
    var k, r := LowerBound(ts, e), InsertEntry(ts, e);
    forall x ensures x in r <==> x in ts || x == e {
      assert ts == ts[..k] + ts[k..];
      assert x in ts <==> x in ts[..k] || x in ts[k..];
    }
  }

  lemma LowerBoundFinds(ts: seq<Entry>, e: Entry)
    requires Sorted(ts) && e in ts
    ensures var k := LowerBound(ts, e); k < |ts| && ts[k] == e
  {
    var n :| 0 <= n < |ts| && ts[n] == e;
    assert n == LowerBound(ts, e);
  }

  lemma DropOneSorted(ts: seq<Entry>, k: nat)
    requires Sorted(ts) && k < |ts|
    ensures Sorted(ts[..k] + ts[k + 1..])
  {
    var r := ts[..k] + ts[k + 1..];
    forall i, j | 0 <= i < j < |r| ensures Before(r[i], r[j]) {
      var a, b := if i < k then i else i + 1, if j < k then j else j + 1;
      assert r[i] == ts[a] && r[j] == ts[b];
    }
  }

  lemma EraseKeepsOrder(ts: seq<Entry>, e: Entry)
    requires Sorted(ts) && e in ts
    ensures Sorted(EraseEntry(ts, e))
    ensures forall x :: x in EraseEntry(ts, e) <==> x in ts && x != e
    ensures |EraseEntry(ts, e)| == |ts| - 1
    ensures |ts| > 1 ==> EraseEntry(ts, e)[0] == if ts[0] == e then ts[1] else ts[0]
  {
    LowerBoundFinds(ts, e);
    var k := LowerBound(ts, e);
    DropOneSorted(ts, k);
    forall x ensures x in EraseEntry(ts, e) <==> x in ts && x != e {
      assert ts == ts[..k] + [e] + ts[k + 1..];
      assert x in ts <==> x in ts[..k] || x == e || x in ts[k + 1..];
    }
  }

  // ---- the two indexes ----

  ghost predicate ActiveAt(s: State, id: TimerId) {
    id.addr in s.heap && IdOf(s, id.addr) == id && Entry(s.heap[id.addr].expiration, id.addr) in s.timers
  }

  ghost predicate SameTimers(s: State) {
    && (forall e <- s.timers :: e.addr in s.heap && s.heap[e.addr].expiration == e.when && IdOf(s, e.addr) in s.active)
    && (forall id <- s.active :: ActiveAt(s, id))
  }

  ghost predicate HeapOk(s: State) {
    && (forall a <- s.heap :: 0 < a < SENTRY_ADDR && 1 <= s.heap[a].sequence <= s.created)
    && (forall a <- s.heap, b <- s.heap :: s.heap[a].sequence == s.heap[b].sequence ==> a == b)
    && (forall a <- s.heap :: s.heap[a].repeat ==> s.heap[a].interval >= 0)
  }

  /** An allocated timer is either indexed (under its current expiration) or in limbo. */
  ghost predicate Indexed(s: State, limbo: set<int>) {
    && Sorted(s.timers) && SameTimers(s) && HeapOk(s)
    && |s.timers| == |s.active|
    && (forall a <- s.heap :: IdOf(s, a) in s.active <==> a !in limbo)
    && limbo <= s.heap.Keys
  }

  ghost function Addresses(es: seq<Entry>): set<int> {
    set e <- es :: e.addr
  }

  ghost predicate BatchOk(s: State) {
    match s.phase
    case Idle => true
    case Calling(expired, next, now) =>
      && next <= |expired| && now <= s.clock && Sorted(expired)
      && (forall i, j :: 0 <= i < j < |expired| ==> expired[i].addr != expired[j].addr)
      && (forall e <- expired :: e.addr in s.heap && s.heap[e.addr].expiration == e.when && e.when <= now)
  }

  ghost function Limbo(s: State): set<int> {
    if s.phase.Idle? then {} else Addresses(s.phase.expired)
  }

  ghost predicate Inv(s: State) {
    Indexed(s, Limbo(s)) && BatchOk(s)
  }

  lemma AllocIndexed(s: State, limbo: set<int>, addr: int, when: int, interval: real)
    requires Indexed(s, limbo) && 0 < addr < SENTRY_ADDR && addr !in s.heap
    ensures Indexed(Alloc(s, addr, when, interval), limbo + {addr})
  {
    var t := Alloc(s, addr, when, interval);
    forall a <- t.heap ensures IdOf(t, a) in t.active <==> a !in limbo + {addr} {
      if a == addr && IdOf(t, a) in s.active { assert false; }
    }
  }

  lemma FreeIndexed(s: State, limbo: set<int>, addr: int)
    requires Indexed(s, limbo) && addr in limbo
    ensures Free(s, addr).Fine? && Indexed(Free(s, addr).value, limbo - {addr})
  {
    var t := Free(s, addr).value;
    assert IdOf(s, addr) !in s.active;
    forall e <- t.timers
      ensures e.addr in t.heap && t.heap[e.addr].expiration == e.when && IdOf(t, e.addr) in t.active
    {
      assert IdOf(s, e.addr) in s.active;
    }
  }

  lemma InsertIndexed(s: State, limbo: set<int>, addr: int)
    requires Indexed(s, limbo) && addr in limbo
    ensures Insert(s, addr).Fine? && Indexed(Insert(s, addr).value, limbo - {addr})
  {
    var e := Entry(s.heap[addr].expiration, addr);
    assert IdOf(s, addr) !in s.active;
    assert e !in s.timers;
    InsertKeepsOrder(s.timers, e);
    var t := Insert(s, addr).value;
    forall a <- t.heap ensures IdOf(t, a) in t.active <==> a !in limbo - {addr} {
      assert IdOf(t, a) == IdOf(s, a);
    }
  }

  lemma UnindexIndexed(s: State, limbo: set<int>, id: TimerId)
    requires Indexed(s, limbo) && id in s.active
    ensures Unindex(s, id).Fine? && Indexed(Unindex(s, id).value, limbo + {id.addr})
  {
    var e := Entry(s.heap[id.addr].expiration, id.addr);
    assert e in s.timers && IdOf(s, id.addr) == id;
    EraseKeepsOrder(s.timers, e);
    var t := Unindex(s, id).value;
    forall x <- t.timers ensures IdOf(t, x.addr) in t.active {
      assert x != e && IdOf(s, x.addr) in s.active;
    }
    forall a <- t.heap ensures IdOf(t, a) in t.active <==> a !in limbo + {id.addr} {
      assert IdOf(t, a) == IdOf(s, a);
    }
  }

  // ---- a batch ----

  /** Erasing a batch from the active index removes exactly its timers. */
  lemma {:induction false} EraseActiveRemoves(s: State, expired: seq<Entry>)
    requires forall e <- expired :: e.addr in s.heap && IdOf(s, e.addr) in s.active
    requires forall i, j :: 0 <= i < j < |expired| ==> expired[i].addr != expired[j].addr
    ensures EraseActive(s, expired).Fine?
    ensures EraseActive(s, expired).value == s.(active := EraseActive(s, expired).value.active)
    ensures forall id :: id in EraseActive(s, expired).value.active <==>
              id in s.active && !exists e <- expired :: IdOf(s, e.addr) == id
    ensures |EraseActive(s, expired).value.active| == |s.active| - |expired|
    decreases |expired|
  {
    if expired != [] {
      var id := IdOf(s, expired[0].addr);
      var t := s.(active := s.active - {id});
      forall e <- expired[1..] ensures e.addr in t.heap && IdOf(t, e.addr) in t.active {
        var i :| 0 <= i < |expired[1..]| && expired[1..][i] == e;
        assert expired[0].addr != expired[i + 1].addr;
      }
      EraseActiveRemoves(t, expired[1..]);
      assert forall e :: e in expired <==> e == expired[0] || e in expired[1..];
    }
  }

  lemma ExpiredPrefix(s: State, limbo: set<int>, now: int)
    requires Indexed(s, limbo)
    ensures forall e <- s.timers[..ExpiredCount(s, now)] :: e.when <= now
    ensures forall i :: ExpiredCount(s, now) <= i < |s.timers| ==> now < s.timers[i].when
    ensures forall i, j :: 0 <= i < j < |s.timers| ==> s.timers[i].addr != s.timers[j].addr
  {
    var k := ExpiredCount(s, now);
    forall i | k <= i < |s.timers| ensures now < s.timers[i].when {
      assert s.timers[i].addr in s.heap;
      assert s.timers[k].addr in s.heap;
    }
    forall i, j | 0 <= i < j < |s.timers| ensures s.timers[i].addr != s.timers[j].addr {
      assert s.timers[i] in s.timers && s.timers[j] in s.timers;
    }
  }

  lemma IndexedFrame(s: State, t: State, limbo: set<int>)
    requires Indexed(s, limbo)
    requires t.heap == s.heap && t.timers == s.timers && t.active == s.active && t.created == s.created
    ensures Indexed(t, limbo)
  {
    forall a <- t.heap ensures IdOf(t, a) == IdOf(s, a) {}
    forall id <- t.active ensures ActiveAt(t, id) { assert ActiveAt(s, id); }
  }

  /** t is s with the first k entries taken out of both indexes. */
  ghost predicate TakesPrefix(s: State, k: nat, t: State) {
    && k <= |s.timers|
    && t == s.(timers := s.timers[k..], active := t.active)
    && (forall id :: id in t.active <==>
          id in s.active && id !in set e <- s.timers[..k] | e.addr in s.heap :: IdOf(s, e.addr))
    && |t.active| == |s.active| - k
  }

  lemma PrefixSameTimers(s: State, k: nat, t: State)
    requires Indexed(s, {}) && TakesPrefix(s, k, t)
    requires forall i, j :: 0 <= i < j < |s.timers| ==> s.timers[i].addr != s.timers[j].addr
    ensures SameTimers(t)
  {
    forall e <- t.timers
      ensures e.addr in t.heap && t.heap[e.addr].expiration == e.when && IdOf(t, e.addr) in t.active
    {
      var j :| 0 <= j < |t.timers| && t.timers[j] == e;
      assert s.timers[k + j] == e && e in s.timers;
    }
    forall id <- t.active ensures ActiveAt(t, id) {
      assert ActiveAt(s, id);
      var e := Entry(s.heap[id.addr].expiration, id.addr);
      assert e !in s.timers[..k];
    }
  }

  /** Taking the first k entries out of both indexes puts their timers in limbo. */
  lemma PrefixIndexed(s: State, k: nat, t: State)
    requires Indexed(s, {}) && TakesPrefix(s, k, t)
    requires forall i, j :: 0 <= i < j < |s.timers| ==> s.timers[i].addr != s.timers[j].addr
    ensures Indexed(t, Addresses(s.timers[..k]))
  {
    PrefixSameTimers(s, k, t);
    forall a <- t.heap ensures IdOf(t, a) in t.active <==> a !in Addresses(s.timers[..k]) {
      assert IdOf(s, a) in s.active;
      if x :| x in s.timers[..k] && x.addr == a {
      } else {
        assert forall x <- s.timers[..k] :: x.addr != a;
      }
    }
    forall a <- Addresses(s.timers[..k]) ensures a in s.heap {
      var x :| x in s.timers[..k] && x.addr == a;
      assert x in s.timers;
    }
  }

  lemma GetExpiredIndexed(s: State, now: int)
    requires Indexed(s, {})
    ensures GetExpired(s, now).Fine?
    ensures var t := GetExpired(s, now).value;
      var k := ExpiredCount(s, now);
      t == s.(timers := s.timers[k..], active := t.active) && Indexed(t, Addresses(s.timers[..k]))
  {
    var k := ExpiredCount(s, now);
    ExpiredPrefix(s, {}, now);
    var u := s.(timers := s.timers[k..]);
    forall e <- s.timers[..k] ensures e.addr in u.heap && IdOf(u, e.addr) in u.active {
      assert e in s.timers;
    }
    EraseActiveRemoves(u, s.timers[..k]);
    var t := GetExpired(s, now).value;
    assert forall e <- s.timers[..k] :: IdOf(s, e.addr) == IdOf(u, e.addr);
    PrefixIndexed(s, k, t);
  }

  lemma RestartIndexed(s: State, t: State, limbo: set<int>, addr: int, now: int)
    requires Indexed(s, limbo) && addr in limbo
    requires t == s.(heap := s.heap[addr := Restart(s.heap[addr], now)])
    ensures Indexed(t, limbo)
  {
    assert IdOf(s, addr) !in s.active;
    forall a <- t.heap ensures IdOf(t, a) == IdOf(s, a) {}
    forall e <- t.timers ensures t.heap[e.addr] == s.heap[e.addr] {
      assert IdOf(s, e.addr) in s.active;
    }
    forall id <- t.active ensures ActiveAt(t, id) {
      assert ActiveAt(s, id);
    }
  }

  lemma ResetOneIndexed(s: State, limbo: set<int>, addr: int, now: int)
    requires Indexed(s, limbo) && addr in limbo
    ensures ResetOne(s, addr, now).Fine? && Indexed(ResetOne(s, addr, now).value, limbo - {addr})
  {
    if s.heap[addr].repeat && IdOf(s, addr) !in s.canceling {
      var t := s.(heap := s.heap[addr := Restart(s.heap[addr], now)]);
      RestartIndexed(s, t, limbo, addr, now);
      InsertIndexed(t, limbo, addr);
    } else {
      FreeIndexed(s, limbo, addr);
    }
  }

  lemma {:induction false} ResetAllIndexed(s: State, expired: seq<Entry>, now: int)
    requires Indexed(s, Addresses(expired))
    requires forall i, j :: 0 <= i < j < |expired| ==> expired[i].addr != expired[j].addr
    ensures ResetAll(s, expired, now).Fine? && Indexed(ResetAll(s, expired, now).value, {})
    decreases |expired|
  {
    if expired == [] {
      assert Addresses(expired) == {};
    } else {
      ResetOneIndexed(s, Addresses(expired), expired[0].addr, now);
      assert Addresses(expired) - {expired[0].addr} == Addresses(expired[1..]) by {
        assert expired == [expired[0]] + expired[1..];
        assert forall e <- expired[1..] :: e.addr != expired[0].addr;
      }
      ResetAllIndexed(ResetOne(s, expired[0].addr, now).value, expired[1..], now);
    }
  }

  // ---- steps and runs ----

  lemma {:induction false} ResetAllFrame(s: State, expired: seq<Entry>, now: int)
    requires ResetAll(s, expired, now).Fine?
    ensures var t := ResetAll(s, expired, now).value;
      t == s.(heap := t.heap, timers := t.timers, active := t.active)
    decreases |expired|
  {
    if expired != [] {
      ResetAllFrame(ResetOne(s, expired[0].addr, now).value, expired[1..], now);
    }
  }

  lemma BatchFrame(s: State, t: State)
    requires BatchOk(s) && t.phase == s.phase && s.clock <= t.clock
    requires forall a <- Limbo(s) :: a in s.heap ==> a in t.heap && t.heap[a] == s.heap[a]
    ensures BatchOk(t)
  {
    if s.phase.Calling? {
      forall e <- s.phase.expired
        ensures e.addr in t.heap && t.heap[e.addr].expiration == e.when && e.when <= s.phase.now
      {
        assert e.addr in Limbo(s);
      }
    }
  }

  lemma CancelIndexed(s: State, limbo: set<int>, id: TimerId)
    requires Indexed(s, limbo) && id in s.active
    ensures var r := CancelInLoop(s, id);
      r.Fine? && Indexed(r.value, limbo)
      && r.value == s.(heap := s.heap - {id.addr}, timers := r.value.timers, active := s.active - {id})
      && id.addr !in limbo
  {
    assert ActiveAt(s, id);
    UnindexIndexed(s, limbo, id);
    FreeIndexed(Unindex(s, id).value, limbo + {id.addr}, id.addr);
    assert limbo + {id.addr} - {id.addr} == limbo;
  }

  lemma CancelKeepsInv(s: State, id: TimerId)
    requires Inv(s)
    ensures CancelInLoop(s, id).Fine? && Inv(CancelInLoop(s, id).value)
  {
    var t := CancelInLoop(s, id).value;
    if id in s.active {
      CancelIndexed(s, Limbo(s), id);
      BatchFrame(s, t);
    } else {
      IndexedFrame(s, t, Limbo(s));
    }
  }

  lemma BeginIndexed(s: State)
    requires Indexed(s, {})
    ensures BeginBatch(s).Fine?
    ensures var t, k := BeginBatch(s).value, ExpiredCount(s, s.clock);
      && Indexed(t, Addresses(s.timers[..k]))
      && t == s.(timers := s.timers[k..], active := t.active, canceling := {},
                 fd := ReadTimerfd(s.fd, s.clock), phase := Calling(s.timers[..k], 0, s.clock))
  {
    var u := s.(fd := ReadTimerfd(s.fd, s.clock));
    IndexedFrame(s, u, {});
    GetExpiredIndexed(u, s.clock);
    IndexedFrame(GetExpired(u, s.clock).value, BeginBatch(s).value, Addresses(s.timers[..ExpiredCount(s, s.clock)]));
  }

  lemma BeginKeepsInv(s: State)
    requires Inv(s) && s.phase.Idle?
    ensures BeginBatch(s).Fine? && Inv(BeginBatch(s).value)
    ensures var t, k := BeginBatch(s).value, ExpiredCount(s, s.clock);
      t == s.(timers := s.timers[k..], active := t.active, canceling := {},
              fd := ReadTimerfd(s.fd, s.clock), phase := Calling(s.timers[..k], 0, s.clock))
  {
    BeginIndexed(s);
    var t, k := BeginBatch(s).value, ExpiredCount(s, s.clock);
    ExpiredPrefix(s, {}, s.clock);
    forall e <- t.phase.expired ensures e.addr in t.heap && t.heap[e.addr].expiration == e.when && e.when <= s.clock {
      assert e in s.timers;
    }
  }

  lemma RunNextKeepsInv(s: State)
    requires Inv(s) && Enabled(s, RunNext)
    ensures RunOne(s).Fine? && Inv(RunOne(s).value)
  {
    assert s.phase.expired[s.phase.next] in s.phase.expired;
    IndexedFrame(s, RunOne(s).value, Limbo(s));
  }

  lemma EndKeepsInv(s: State)
    requires Inv(s) && s.phase.Calling?
    ensures EndBatch(s).Fine? && Inv(EndBatch(s).value)
  {
    var u := s.(phase := Idle);
    assert Indexed(u, Addresses(s.phase.expired));
    ResetAllIndexed(u, s.phase.expired, s.phase.now);
    ResetAllFrame(u, s.phase.expired, s.phase.now);
    var t := ResetAll(u, s.phase.expired, s.phase.now).value;
    if t.timers != [] {
      assert t.timers[0] in t.timers;
    }
  }

  lemma AllocInsertIndexed(s: State, t: State, limbo: set<int>, addr: int, when: int, interval: real)
    requires Indexed(s, limbo) && 0 < addr < SENTRY_ADDR && addr !in s.heap
    requires t == Alloc(s, addr, when, interval)
    ensures Insert(t, addr).Fine? && Indexed(Insert(t, addr).value, limbo)
  {
    AllocIndexed(s, limbo, addr, when, interval);
    InsertIndexed(t, limbo + {addr}, addr);
    assert limbo + {addr} - {addr} == limbo;
  }

  lemma AddFrame(s: State, addr: int)
    requires Insert(s, addr).Fine?
    ensures var r, t := AddInLoop(s, addr), Insert(s, addr).value;
      r.Fine? && r.value == s.(timers := t.timers, active := t.active, fd := r.value.fd)
  {
  }

  lemma AddIndexed(s: State, limbo: set<int>, addr: int, when: int, interval: real)
    requires Indexed(s, limbo) && 0 < addr < SENTRY_ADDR && addr !in s.heap
    ensures var r := AddInLoop(Alloc(s, addr, when, interval), addr);
      r.Fine? && Indexed(r.value, limbo)
      && r.value == s.(heap := s.heap[addr := NewTimer(s.created + 1, when, interval)], created := s.created + 1,
                       timers := r.value.timers, active := r.value.active, fd := r.value.fd)
  {
    var t := Alloc(s, addr, when, interval);
    AllocInsertIndexed(s, t, limbo, addr, when, interval);
    AddFrame(t, addr);
    IndexedFrame(Insert(t, addr).value, AddInLoop(t, addr).value, limbo);
  }

  lemma AddKeepsInv(s: State, addr: int, when: int, interval: real)
    requires Inv(s) && Enabled(s, Add(addr, when, interval))
    ensures Apply(s, Add(addr, when, interval)).Fine? && Inv(Apply(s, Add(addr, when, interval)).value)
  {
    AddIndexed(s, Limbo(s), addr, when, interval);
    BatchFrame(s, AddInLoop(Alloc(s, addr, when, interval), addr).value);
  }

  lemma TickKeepsInv(s: State, d: nat, n: nat)
    requires Inv(s)
    ensures Inv(s.(clock := s.clock + d, created := s.created + n))
  {
    forall id <- s.active ensures ActiveAt(s.(clock := s.clock + d, created := s.created + n), id) {
      assert ActiveAt(s, id);
    }
  }

  lemma BatchStepKeepsInv(s: State, e: Event)
    requires Inv(s) && Enabled(s, e) && (e.Begin? || e.RunNext? || e.End?)
    ensures Apply(s, e).Fine? && Inv(Apply(s, e).value)
  {
    if e.Begin? { BeginKeepsInv(s); } else if e.RunNext? { RunNextKeepsInv(s); } else { EndKeepsInv(s); }
  }

  lemma OtherStepKeepsInv(s: State, e: Event)
    requires Inv(s) && Enabled(s, e) && !e.Begin? && !e.RunNext? && !e.End?
    ensures Apply(s, e).Fine? && Inv(Apply(s, e).value)
  {
    if e.Add? { AddKeepsInv(s, e.addr, e.when, e.interval); }
    else if e.Cancel? { CancelKeepsInv(s, e.id); }
    else { TickKeepsInv(s, e.micros, e.others); }
  }

  /** No step from a consistent state fails an assertion or touches freed memory. */
  lemma StepKeepsInv(s: State, e: Event)
    requires Inv(s) && Enabled(s, e)
    ensures Apply(s, e).Fine?
    ensures Inv(Apply(s, e).value)
  {
    if e.Begin? || e.RunNext? || e.End? { BatchStepKeepsInv(s, e); } else { OtherStepKeepsInv(s, e); }
  }

  /** Every legal run from a consistent state is free of faults and ends consistent. */
  lemma {:induction false} RunKeepsInv(s: State, es: seq<Event>)
    requires Inv(s) && Legal(s, es)
    ensures Exec(s, es).Fine? && Inv(Exec(s, es).value)
    decreases |es|
  {
    if es != [] {
      StepKeepsInv(s, es[0]);
      RunKeepsInv(Apply(s, es[0]).value, es[1..]);
    }
  }

  /** The whole-run theorem, from the empty queue. */
  lemma NoFaultFromStart(clock: nat, es: seq<Event>)
    requires Legal(Initial(clock), es)
    ensures Exec(Initial(clock), es).Fine? && Inv(Exec(Initial(clock), es).value)
  {
    RunKeepsInv(Initial(clock), es);
  }
}
