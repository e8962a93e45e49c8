/**
 The bounded queue of osi/fixed_queue.c: a list behind a mutex, a semaphore counting free slots and a
 semaphore counting items. Any number of threads interleave the single steps of enqueue, try_enqueue
 and dequeue: semaphore take, lock, list operation, unlock, semaphore give.
 */
module FixedQueue {
  import opened Bytes
  import LinkedList

  /** A pointer stored in the queue. */
  type Item = int

  /** Where a thread stands between two steps. */
  datatype Pc =
    | Idle
    | EnqTaken(x: Item)     // enqueue_sem taken
    | EnqLocked(x: Item)    // lock held
    | EnqAppended           // list_append done, lock held
    | EnqUnlocked           // lock released, dequeue_sem not yet given
    | DeqTaken              // dequeue_sem taken
    | DeqLocked             // lock held
    | DeqPeeked(x: Item)    // list_front read, lock held
    | DeqRemoved(x: Item)   // list_remove done, lock held
    | DeqUnlocked(x: Item)  // lock released, enqueue_sem not yet given

  datatype Queue = Queue(
    capacity: nat,
    list: seq<Item>,
    enqueueSem: nat,
    dequeueSem: nat,
    lock: Option<nat>,
    threads: seq<Pc>,
    crashed: bool,       // list_front was called on an empty list
    appended: seq<Item>, // history
    removed: seq<Item>)

  /** fixed_queue_new, used by `n` threads. */
  function New(capacity: nat, n: nat): Queue {
    Queue(capacity, [], capacity, 0, None, seq(n, _ => Idle), false, [], [])
  }

  /** What an idle thread starts; ignored by a thread in the middle of an operation. */
  datatype Call = Enqueue(x: Item) | TryEnqueue(x: Item) | Dequeue

  /** A give on a full counting semaphore has no effect. */
  function Give(sem: nat, max: nat): nat {
    if sem < max then sem + 1 else sem
  }

  predicate Enabled(q: Queue, t: nat, c: Call) {
    && t < |q.threads|
    && match q.threads[t]
       case Idle =>
         (match c
          case Enqueue(_) => q.enqueueSem > 0
          case TryEnqueue(_) => true
          case Dequeue => q.dequeueSem > 0)
       case EnqTaken(_) => q.lock.None?
       case DeqTaken => q.lock.None?
       case _ => true
  }

  function At(q: Queue, t: nat, pc: Pc): Queue
    requires t < |q.threads|
  {
    q.(threads := q.threads[t := pc])
  }

  function Next(q: Queue, t: nat, c: Call): Queue
    requires Enabled(q, t, c)
  {
    match q.threads[t]
    case Idle =>
      (match c
       case Enqueue(x) => At(q, t, EnqTaken(x)).(enqueueSem := q.enqueueSem - 1)
       case TryEnqueue(x) => if q.enqueueSem == 0 then q else At(q, t, EnqTaken(x)).(enqueueSem := q.enqueueSem - 1)
       case Dequeue => At(q, t, DeqTaken).(dequeueSem := q.dequeueSem - 1))
    case EnqTaken(x) => At(q, t, EnqLocked(x)).(lock := Some(t))
    case EnqLocked(x) => At(q, t, EnqAppended).(list := q.list + [x], appended := q.appended + [x])
    case EnqAppended => At(q, t, EnqUnlocked).(lock := None)
    case EnqUnlocked => At(q, t, Idle).(dequeueSem := Give(q.dequeueSem, q.capacity))
    case DeqTaken => At(q, t, DeqLocked).(lock := Some(t))
    case DeqLocked => if q.list == [] then q.(crashed := true) else At(q, t, DeqPeeked(q.list[0]))
    case DeqPeeked(x) => At(q, t, DeqRemoved(x)).(list := LinkedList.RemoveFirst(q.list, x), removed := q.removed + [x])
    case DeqRemoved(x) => At(q, t, DeqUnlocked(x)).(lock := None)
    case DeqUnlocked(_) => At(q, t, Idle).(enqueueSem := Give(q.enqueueSem, q.capacity))
  }

  ghost predicate Reaches(q: Queue, run: seq<(nat, Call)>, q': Queue)
    decreases |run|
  {
    if run == [] then q' == q
    else Enabled(q, run[0].0, run[0].1) && Reaches(Next(q, run[0].0, run[0].1), run[1..], q')
  }

  // ---------- counting threads ----------

  /** What a thread in the middle of an operation accounts for. */
  datatype Role = Outside | HasSlot | Announcing | Claiming | Returning

  function RoleOf(pc: Pc): Role {
    match pc
    case Idle => Outside
    case EnqTaken(_) => HasSlot
    case EnqLocked(_) => HasSlot
    case EnqAppended => Announcing
    case EnqUnlocked => Announcing
    case DeqTaken => Claiming
    case DeqLocked => Claiming
    case DeqPeeked(_) => Claiming
    case DeqRemoved(_) => Returning
    case DeqUnlocked(_) => Returning
  }

  function Count(ts: seq<Pc>, r: Role): nat {
    if ts == [] then 0 else (if RoleOf(ts[0]) == r then 1 else 0) + Count(ts[1..], r)
  }

  lemma {:induction false} CountUpdate(ts: seq<Pc>, t: nat, pc: Pc, r: Role)
    requires t < |ts|
    ensures Count(ts[t := pc], r) + (if RoleOf(ts[t]) == r then 1 else 0)
            == Count(ts, r) + (if RoleOf(pc) == r then 1 else 0)
  {
    if t == 0 {
      assert ts[t := pc][1..] == ts[1..];
    } else {
      assert ts[t := pc][1..] == ts[1..][t - 1 := pc];
      CountUpdate(ts[1..], t - 1, pc, r);
    }
  }

  lemma {:induction false} CountPositive(ts: seq<Pc>, t: nat)
    requires t < |ts|
    ensures Count(ts, RoleOf(ts[t])) >= 1
  {
    if t > 0 {
      CountPositive(ts[1..], t - 1);
    }
  }

  lemma {:induction false} CountIdle(n: nat, r: Role)
    requires r != Outside
    ensures Count(seq(n, _ => Idle), r) == 0
  {
    if n > 0 {
      assert seq(n, _ => Idle)[1..] == seq(n - 1, _ => Idle);
      CountIdle(n - 1, r);
    }
  }

  // ---------- invariants ----------

  /** Every slot is free, being filled, occupied, or being given back. */
  ghost predicate SlotsOk(q: Queue) {
    q.enqueueSem + Count(q.threads, HasSlot) + |q.list| + Count(q.threads, Returning) == q.capacity
  }

  /** Every item in the list is announced, about to be announced, or already claimed by a dequeuer. */
  ghost predicate ItemsOk(q: Queue) {
    |q.list| == q.dequeueSem + Count(q.threads, Announcing) + Count(q.threads, Claiming)
  }

  predicate Critical(pc: Pc) {
    pc.EnqLocked? || pc.EnqAppended? || pc.DeqLocked? || pc.DeqPeeked? || pc.DeqRemoved?
  }

  ghost predicate AtMostOneCritical(ts: seq<Pc>) {
    forall t, u :: 0 <= t < |ts| && 0 <= u < |ts| && Critical(ts[t]) && Critical(ts[u]) ==> t == u
  }

  ghost predicate LockOk(q: Queue) {
    && (forall t :: 0 <= t < |q.threads| ==> (Critical(q.threads[t]) <==> q.lock == Some(t)))
    && (q.lock.Some? ==> q.lock.value < |q.threads|)
  }

  ghost predicate PeekOk(q: Queue) {
    forall t :: 0 <= t < |q.threads| && q.threads[t].DeqPeeked? ==> q.list != [] && q.list[0] == q.threads[t].x
  }

  ghost predicate FifoOk(q: Queue) {
    q.appended == q.removed + q.list
  }

  ghost predicate Inv(q: Queue) {
    SlotsOk(q) && ItemsOk(q) && LockOk(q) && PeekOk(q) && FifoOk(q) && !q.crashed
  }

  /** The facts that make each step succeed: no give is lost, and no dequeuer meets an empty list. */
  lemma StepIsSafe(q: Queue, t: nat)
    requires Inv(q) && t < |q.threads|
    ensures |q.list| <= q.capacity
    ensures q.threads[t].DeqTaken? || q.threads[t].DeqLocked? || q.threads[t].DeqPeeked? ==> q.list != []
    ensures q.threads[t].EnqUnlocked? ==> q.dequeueSem < q.capacity
    ensures q.threads[t].DeqUnlocked? ==> q.enqueueSem < q.capacity
  {
    CountPositive(q.threads, t);
  }

  lemma KeepsSlots(q: Queue, t: nat, c: Call)
    requires Inv(q) && Enabled(q, t, c)
    ensures SlotsOk(Next(q, t, c))
  {
    StepIsSafe(q, t);
    var q' := Next(q, t, c);
    if q' != q {
      var pc := q'.threads[t];
      CountUpdate(q.threads, t, pc, HasSlot);
      CountUpdate(q.threads, t, pc, Returning);
      assert q'.threads == q.threads[t := pc];
    }
  }

  lemma KeepsItems(q: Queue, t: nat, c: Call)
    requires Inv(q) && Enabled(q, t, c)
    ensures ItemsOk(Next(q, t, c)) && !Next(q, t, c).crashed
  {
    StepIsSafe(q, t);
    var q' := Next(q, t, c);
    if q' != q {
      var pc := q'.threads[t];
      CountUpdate(q.threads, t, pc, Announcing);
      CountUpdate(q.threads, t, pc, Claiming);
      assert q'.threads == q.threads[t := pc];
    }
  }

  lemma KeepsLock(q: Queue, t: nat, c: Call)
    requires LockOk(q) && Enabled(q, t, c)
    ensures LockOk(Next(q, t, c))
  {
  }

  lemma KeepsPeek(q: Queue, t: nat, c: Call)
    requires LockOk(q) && PeekOk(q) && Enabled(q, t, c)
    ensures PeekOk(Next(q, t, c))
  {
    forall u | 0 <= u < |q.threads| && q.threads[u].DeqPeeked? && u != t
      ensures q.lock == Some(u) && !Critical(q.threads[t])
    {
      assert Critical(q.threads[u]);
    }
  }

  lemma KeepsFifo(q: Queue, t: nat, c: Call)
    requires PeekOk(q) && FifoOk(q) && Enabled(q, t, c)
    ensures FifoOk(Next(q, t, c))
  {
    if q.threads[t].DeqPeeked? {
      assert q.removed + q.list == (q.removed + [q.list[0]]) + q.list[1..];
    } else if q.threads[t].EnqLocked? {
      assert (q.removed + q.list) + [q.threads[t].x] == q.removed + (q.list + [q.threads[t].x]);
    }
  }

  lemma {:induction false} RunKeeps(q: Queue, run: seq<(nat, Call)>, q': Queue)
    requires Inv(q) && Reaches(q, run, q')
    ensures Inv(q') && q'.capacity == q.capacity
    decreases |run|
  {
    if run != [] {
      KeepsSlots(q, run[0].0, run[0].1);
      KeepsItems(q, run[0].0, run[0].1);
      KeepsLock(q, run[0].0, run[0].1);
      KeepsPeek(q, run[0].0, run[0].1);
      KeepsFifo(q, run[0].0, run[0].1);
      RunKeeps(Next(q, run[0].0, run[0].1), run[1..], q');
    }
  }

  lemma NewOk(capacity: nat, n: nat)
    ensures Inv(New(capacity, n))
  {
    CountIdle(n, HasSlot);
    CountIdle(n, Announcing);
    CountIdle(n, Claiming);
    CountIdle(n, Returning);
  }

  /**
   For any number of threads and every interleaving: the two counting laws hold, the list never holds
   more than the capacity, no dequeuer finds it empty, at most one thread is in a critical section, and
   items leave in the order they entered.
   */
  lemma EveryInterleaving(capacity: nat, n: nat, run: seq<(nat, Call)>, q: Queue)
    requires Reaches(New(capacity, n), run, q)
    ensures q.enqueueSem + Count(q.threads, HasSlot) + |q.list| + Count(q.threads, Returning) == capacity
    ensures |q.list| == q.dequeueSem + Count(q.threads, Announcing) + Count(q.threads, Claiming)
    ensures |q.list| <= capacity && !q.crashed
    ensures q.appended == q.removed + q.list
    ensures AtMostOneCritical(q.threads)
  {
    NewOk(capacity, n);
    RunKeeps(New(capacity, n), run, q);
  }

  /** No deadlock inside an operation: while some thread is in the middle of one, some such thread can go on. */
  lemma NoDeadlock(capacity: nat, n: nat, run: seq<(nat, Call)>, q: Queue, t: nat)
    requires Reaches(New(capacity, n), run, q)
    requires t < |q.threads| && !q.threads[t].Idle?
    ensures exists u: nat :: u < |q.threads| && !q.threads[u].Idle? && Enabled(q, u, Dequeue)
  {
    NewOk(capacity, n);
    RunKeeps(New(capacity, n), run, q);
    if q.lock.Some? {
      assert Enabled(q, q.lock.value, Dequeue);
    } else {
      assert Enabled(q, t, Dequeue);
    }
  }
}
