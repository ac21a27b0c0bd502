/** The thread pool's circular task array, as a value and in place, and the bounded first-in
    first-out queue it stands for. */
module TaskRing {
  import opened Outcomes

  type Task = nat

  /** A slot is `None` when its task has been moved out or was never set. */
  datatype Ring = Ring(slots: seq<Option<Task>>, head: int, tail: int, size: int)

  predicate IsFull(r: Ring) {
    |r.slots| > 0 && r.head == r.tail && r.size == |r.slots|
  }

  predicate IsEmpty(r: Ring) {
    |r.slots| > 0 && r.head == r.tail && r.size == 0
  }

  /** Stores a task at the tail; there must be such a slot. */
  function Push(r: Ring, task: Task): Outcome<Ring> {
    if !(0 <= r.tail < |r.slots|) then Fault else
    Fine(Ring(r.slots[r.tail := Some(task)], r.head, (r.tail + 1) % |r.slots|, r.size + 1))
  }

  /** Moves the head task out; there must be one. */
  function Pop(r: Ring): Outcome<(Task, Ring)> {
    if !(0 <= r.head < |r.slots|) || r.slots[r.head].None? then Fault else
    Fine((r.slots[r.head].value, Ring(r.slots[r.head := None], (r.head + 1) % |r.slots|, r.tail, r.size - 1)))
  }

  function Empty(capacity: nat): Ring {
    Ring(seq(capacity, _ => None), 0, 0, 0)
  }

  // ---- the queue it stands for ----

  /** Index of the i-th queued task. */
  function At(r: Ring, i: int): int
    requires |r.slots| > 0
  {
    (r.head + i) % |r.slots|
  }

  ghost predicate RingOk(r: Ring) {
    && |r.slots| > 0 && 0 <= r.head < |r.slots| && 0 <= r.size <= |r.slots|
    && r.tail == At(r, r.size)
    && forall i :: 0 <= i < r.size ==> r.slots[At(r, i)].Some?
  }

  ghost function Contents(r: Ring): (q: seq<Task>)
    requires RingOk(r)
    ensures |q| == r.size
  {
    seq(r.size, i requires 0 <= i < r.size => r.slots[At(r, i)].value)
  }

  lemma Wrap(x: int, n: int)
    requires 0 < n && 0 <= x < 2 * n
    ensures x % n == if x < n then x else x - n
  {
    if x >= n { assert x == 1 * n + (x - n); }
  }

  lemma AtWraps(r: Ring, i: int)
    requires |r.slots| > 0 && 0 <= r.head < |r.slots| && 0 <= i <= |r.slots|
    ensures At(r, i) == if r.head + i < |r.slots| then r.head + i else r.head + i - |r.slots|
  {
    Wrap(r.head + i, |r.slots|);
  }

  /** The tests on head, tail and the counter are exact. */
  lemma FullEmptyExact(r: Ring)
    requires RingOk(r)
    ensures IsFull(r) <==> |Contents(r)| == |r.slots|
    ensures IsEmpty(r) <==> Contents(r) == []
  {
    AtWraps(r, r.size);
  }

  lemma PushAppends(r: Ring, task: Task)
    requires RingOk(r) && !IsFull(r)
    ensures Push(r, task).Fine? && RingOk(Push(r, task).value)
    ensures |Push(r, task).value.slots| == |r.slots|
    ensures Contents(Push(r, task).value) == Contents(r) + [task]
  {
    FullEmptyExact(r);
    AtWraps(r, r.size);
    var t := Push(r, task).value;
    AtWraps(t, t.size);
    Wrap(r.tail + 1, |r.slots|);
    forall i | 0 <= i < t.size ensures t.slots[At(t, i)] == if i < r.size then r.slots[At(r, i)] else Some(task) {
      AtWraps(t, i);
      AtWraps(r, i);
    }
  }

  lemma PopTakesFirst(r: Ring)
    requires RingOk(r) && !IsEmpty(r)
    ensures Pop(r).Fine? && RingOk(Pop(r).value.1)
    ensures |Pop(r).value.1.slots| == |r.slots|
    ensures [Pop(r).value.0] + Contents(Pop(r).value.1) == Contents(r)
  {
    FullEmptyExact(r);
    AtWraps(r, 0);
    AtWraps(r, r.size);
    var t := Pop(r).value.1;
    Wrap(r.head + 1, |r.slots|);
    AtWraps(t, t.size);
    forall i | 0 <= i < t.size ensures t.slots[At(t, i)] == r.slots[At(r, i + 1)] {
      AtWraps(t, i);
      AtWraps(r, i + 1);
    }
  }

  lemma EmptyRing(capacity: nat)
    ensures RingOk(Empty(capacity)) <==> capacity > 0
    ensures capacity > 0 ==> Contents(Empty(capacity)) == []
  {
  }

  /** With capacity zero neither test ever holds and both accesses are out of range. */
  lemma ZeroCapacity(task: Task)
    ensures var r := Empty(0); !IsFull(r) && !IsEmpty(r) && Push(r, task).Fault? && Pop(r).Fault?
  {
  }

  /** The queue fields of the pool; each method is what one pass through the corresponding wait
      loop does with the mutex held. */
  class TaskQueue {
    const taskQueue: array<Option<Task>>
    var head: int
    var tail: int
    var currentSize: int

    ghost function Model(): Ring
      reads this, taskQueue
    {
      Ring(taskQueue[..], head, tail, currentSize)
    }

    ghost predicate Valid()
      reads this, taskQueue
    {
      RingOk(Model())
    }

    ghost function Queue(): seq<Task>
      reads this, taskQueue
      requires Valid()
    {
      Contents(Model())
    }

    constructor (maxQueueSize: nat)
      requires maxQueueSize > 0
      ensures Valid() && Queue() == [] && taskQueue.Length == maxQueueSize && fresh(taskQueue)
    {
      taskQueue := new Option<Task>[maxQueueSize](_ => None);
      head, tail, currentSize := 0, 0, 0;
    }

    method IsFullWithLock() returns (full: bool)
      requires Valid()
      ensures full <==> |Queue()| == taskQueue.Length
    {
      FullEmptyExact(Model());
      full := taskQueue.Length > 0 && head == tail && currentSize == taskQueue.Length;
    }

    method IsEmptyWithLock() returns (empty: bool)
      requires Valid()
      ensures empty <==> Queue() == []
    {
      FullEmptyExact(Model());
      empty := taskQueue.Length > 0 && head == tail && currentSize == 0;
    }

    /** run(): queues a task unless the array is full, in which case the caller waits. */
    method Put(task: Task) returns (queued: bool)
      requires Valid()
      modifies this, taskQueue
      ensures Valid() && (queued <==> |old(Queue())| < taskQueue.Length)
      ensures Queue() == if queued then old(Queue()) + [task] else old(Queue())
      ensures Fine(Model()) == if queued then old(Push(Model(), task)) else Fine(old(Model()))
    {
      var full := IsFullWithLock();
      queued := !full;
      if queued {
        FullEmptyExact(Model());
        PushAppends(Model(), task);
        taskQueue[tail] := Some(task);
        tail := (tail + 1) % taskQueue.Length;
        currentSize := currentSize + 1;
      }
    }

    /** take(): the oldest task, or none when the array is empty. */
    method Get() returns (task: Option<Task>)
      requires Valid()
      modifies this, taskQueue
      ensures Valid() && (task.None? <==> old(Queue()) == [])
      ensures task.None? ==> Model() == old(Model())
      ensures task.Some? ==> [task.value] + Queue() == old(Queue()) && Fine((task.value, Model())) == old(Pop(Model()))
    {
      task := None;
      var empty := IsEmptyWithLock();
      if !empty {
        FullEmptyExact(Model());
        PopTakesFirst(Model());
        task := taskQueue[head];
        taskQueue[head] := None;
        head := (head + 1) % taskQueue.Length;
        currentSize := currentSize - 1;
      }
    }
  }
}
