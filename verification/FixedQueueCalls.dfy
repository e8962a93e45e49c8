/**
 First in, first out, said of the calls: what enqueue was given, what the list took and gave up, and what
 dequeue returned, read off a run of `FixedQueue` from the outside.
 */
module FixedQueueCalls {
  import opened Bytes
  import opened FixedQueue

  /** Who did it, with which item. */
  type Deed = (nat, Item)

  /** A call that begins here with a slot in hand, with its argument. */
  function BegunAt(q: Queue, t: nat, c: Call): seq<Deed>
    requires Enabled(q, t, c)
  {
    match c
    case Enqueue(x) => if q.threads[t].Idle? then [(t, x)] else []
    case TryEnqueue(x) => if q.threads[t].Idle? && q.enqueueSem > 0 then [(t, x)] else []
    case Dequeue => []
  }

  /** The item at the back of a list that has just grown. */
  function AppendedAt(q: Queue, t: nat, c: Call): seq<Deed>
    requires Enabled(q, t, c)
  {
    var after := Next(q, t, c).list;
    if |after| == |q.list| + 1 then [(t, after[|q.list|])] else []
  }

  /** The item at the front of a list that is about to shrink. */
  function RemovedAt(q: Queue, t: nat, c: Call): seq<Deed>
    requires Enabled(q, t, c)
  {
    if |Next(q, t, c).list| < |q.list| then [(t, q.list[0])] else []
  }

  /** A dequeue that ends here, with the value it returns. */
  function ReturnedAt(q: Queue, t: nat, c: Call): seq<Deed>
    requires Enabled(q, t, c)
  {
    if q.threads[t].DeqUnlocked? && Next(q, t, c).threads[t].Idle? then [(t, q.threads[t].x)] else []
  }

  datatype Trace = Trace(begun: seq<Deed>, appended: seq<Deed>, removed: seq<Deed>, returned: seq<Deed>)

  ghost predicate Runs(q: Queue, run: seq<(nat, Call)>)
    decreases |run|
  {
    run == [] || (Enabled(q, run[0].0, run[0].1) && Runs(Next(q, run[0].0, run[0].1), run[1..]))
  }

  ghost function TraceOf(q: Queue, run: seq<(nat, Call)>): Trace
    requires Runs(q, run)
    decreases |run|
  {
    if run == [] then Trace([], [], [], [])
    else
      var t, c := run[0].0, run[0].1;
      var rest := TraceOf(Next(q, t, c), run[1..]);
      Trace(BegunAt(q, t, c) + rest.begun, AppendedAt(q, t, c) + rest.appended,
            RemovedAt(q, t, c) + rest.removed, ReturnedAt(q, t, c) + rest.returned)
  }

  /** The items of a thread's deeds, in order. */
  function Of(ds: seq<Deed>, t: nat): seq<Item> {
    if ds == [] then [] else if ds[0].0 == t then [ds[0].1] + Of(ds[1..], t) else Of(ds[1..], t)
  }

  function Items(ds: seq<Deed>): seq<Item> {
    seq(|ds|, i requires 0 <= i < |ds| => ds[i].1)
  }

  lemma {:induction false} OfPlus(a: seq<Deed>, b: seq<Deed>, t: nat)
    ensures Of(a + b, t) == Of(a, t) + Of(b, t)
  {
    if a == [] {
      assert a + b == b;
    } else {
      assert (a + b)[1..] == a[1..] + b;
      OfPlus(a[1..], b, t);
    }
  }

  lemma OfOne(d: Deed, t: nat)
    ensures Of([d], t) == if d.0 == t then [d.1] else []
  {
    assert [d][1..] == [];
  }

  /** The argument a thread still carries to the list. */
  function Carried(pc: Pc): seq<Item> {
    if pc.EnqTaken? || pc.EnqLocked? then [pc.x] else []
  }

  /** The item a thread has taken off the list and not yet returned. */
  function Owed(pc: Pc): seq<Item> {
    if pc.DeqRemoved? || pc.DeqUnlocked? then [pc.x] else []
  }

  lemma ListStep(q: Queue, t: nat, c: Call)
    requires Inv(q) && Enabled(q, t, c)
    ensures q.list + Items(AppendedAt(q, t, c)) == Items(RemovedAt(q, t, c)) + Next(q, t, c).list
  {
    StepIsSafe(q, t);
  }

  lemma CarryStep(q: Queue, t: nat, c: Call, u: nat)
    requires Inv(q) && Enabled(q, t, c) && u < |q.threads|
    ensures Carried(q.threads[u]) + Of(BegunAt(q, t, c), u)
            == Of(AppendedAt(q, t, c), u) + Carried(Next(q, t, c).threads[u])
  {
    StepIsSafe(q, t);
    if BegunAt(q, t, c) != [] {
      OfOne(BegunAt(q, t, c)[0], u);
    }
    if AppendedAt(q, t, c) != [] {
      OfOne(AppendedAt(q, t, c)[0], u);
    }
  }

  lemma OweStep(q: Queue, t: nat, c: Call, u: nat)
    requires Inv(q) && Enabled(q, t, c) && u < |q.threads|
    ensures Owed(q.threads[u]) + Of(RemovedAt(q, t, c), u)
            == Of(ReturnedAt(q, t, c), u) + Owed(Next(q, t, c).threads[u])
  {
    StepIsSafe(q, t);
    if RemovedAt(q, t, c) != [] {
      OfOne(RemovedAt(q, t, c)[0], u);
    }
    if ReturnedAt(q, t, c) != [] {
      OfOne(ReturnedAt(q, t, c)[0], u);
    }
  }

  lemma NextInv(q: Queue, t: nat, c: Call)
    requires Inv(q) && Enabled(q, t, c)
    ensures Inv(Next(q, t, c)) && |Next(q, t, c).threads| == |q.threads|
  {
    KeepsSlots(q, t, c);
    KeepsItems(q, t, c);
    KeepsLock(q, t, c);
    KeepsPeek(q, t, c);
    KeepsFifo(q, t, c);
  }

  /** `a` then `b` on one side, `c` then `d` on the other, with `x` in the middle of both. */
  lemma Chain<T>(p: seq<T>, a: seq<T>, b: seq<T>, c: seq<T>, d: seq<T>, m: seq<T>, r: seq<T>)
    requires p + a == c + m && m + b == d + r
    ensures p + (a + b) == (c + d) + r
  {
    assert p + (a + b) == (p + a) + b;
    assert (c + m) + b == c + (m + b);
    assert c + (d + r) == (c + d) + r;
  }

  lemma ItemsPlus(a: seq<Deed>, b: seq<Deed>)
    ensures Items(a + b) == Items(a) + Items(b)
  {
  }

  lemma {:induction false} ListTrace(q: Queue, run: seq<(nat, Call)>, q': Queue)
    requires Inv(q) && Runs(q, run) && Reaches(q, run, q')
    ensures q.list + Items(TraceOf(q, run).appended) == Items(TraceOf(q, run).removed) + q'.list
    decreases |run|
  {
    if run != [] {
      var t, c := run[0].0, run[0].1;
      var q1 := Next(q, t, c);
      var rest := TraceOf(q1, run[1..]);
      NextInv(q, t, c);
      ListTrace(q1, run[1..], q');
      ListStep(q, t, c);
      ItemsPlus(AppendedAt(q, t, c), rest.appended);
      ItemsPlus(RemovedAt(q, t, c), rest.removed);
      Chain(q.list, Items(AppendedAt(q, t, c)), Items(rest.appended), Items(RemovedAt(q, t, c)), Items(rest.removed),
            q1.list, q'.list);
    }
  }

  lemma {:induction false} ThreadTrace(q: Queue, run: seq<(nat, Call)>, q': Queue, u: nat)
    requires Inv(q) && Runs(q, run) && Reaches(q, run, q') && u < |q.threads|
    ensures |q'.threads| == |q.threads|
    ensures var tr := TraceOf(q, run);
            && Carried(q.threads[u]) + Of(tr.begun, u) == Of(tr.appended, u) + Carried(q'.threads[u])
            && Owed(q.threads[u]) + Of(tr.removed, u) == Of(tr.returned, u) + Owed(q'.threads[u])
    decreases |run|
  {
    if run != [] {
      var t, c := run[0].0, run[0].1;
      NextInv(q, t, c);
      ThreadTrace(Next(q, t, c), run[1..], q', u);
      CarryTrace(q, run, q', u);
      OweTrace(q, run, q', u);
    }
  }

  lemma CarryTrace(q: Queue, run: seq<(nat, Call)>, q': Queue, u: nat)
    requires Inv(q) && run != [] && Runs(q, run) && u < |q.threads| == |q'.threads|
    requires var q1, rest := Next(q, run[0].0, run[0].1), TraceOf(Next(q, run[0].0, run[0].1), run[1..]);
             |q1.threads| == |q.threads|
             && Carried(q1.threads[u]) + Of(rest.begun, u) == Of(rest.appended, u) + Carried(q'.threads[u])
    ensures var tr := TraceOf(q, run);
            Carried(q.threads[u]) + Of(tr.begun, u) == Of(tr.appended, u) + Carried(q'.threads[u])
  {
    var t, c := run[0].0, run[0].1;
    var q1 := Next(q, t, c);
    var rest := TraceOf(q1, run[1..]);
    CarryStep(q, t, c, u);
    OfPlus(BegunAt(q, t, c), rest.begun, u);
    OfPlus(AppendedAt(q, t, c), rest.appended, u);
    Chain(Carried(q.threads[u]), Of(BegunAt(q, t, c), u), Of(rest.begun, u), Of(AppendedAt(q, t, c), u),
          Of(rest.appended, u), Carried(q1.threads[u]), Carried(q'.threads[u]));
  }

  lemma OweTrace(q: Queue, run: seq<(nat, Call)>, q': Queue, u: nat)
    requires Inv(q) && run != [] && Runs(q, run) && u < |q.threads| == |q'.threads|
    requires var q1, rest := Next(q, run[0].0, run[0].1), TraceOf(Next(q, run[0].0, run[0].1), run[1..]);
             |q1.threads| == |q.threads|
             && Owed(q1.threads[u]) + Of(rest.removed, u) == Of(rest.returned, u) + Owed(q'.threads[u])
    ensures var tr := TraceOf(q, run);
            Owed(q.threads[u]) + Of(tr.removed, u) == Of(tr.returned, u) + Owed(q'.threads[u])
  {
    var t, c := run[0].0, run[0].1;
    var q1 := Next(q, t, c);
    var rest := TraceOf(q1, run[1..]);
    OweStep(q, t, c, u);
    OfPlus(RemovedAt(q, t, c), rest.removed, u);
    OfPlus(ReturnedAt(q, t, c), rest.returned, u);
    Chain(Owed(q.threads[u]), Of(RemovedAt(q, t, c), u), Of(rest.removed, u), Of(ReturnedAt(q, t, c), u),
          Of(rest.returned, u), Owed(q1.threads[u]), Owed(q'.threads[u]));
  }

  lemma {:induction false} ReachesRuns(q: Queue, run: seq<(nat, Call)>, q': Queue)
    requires Reaches(q, run, q')
    ensures Runs(q, run)
    decreases |run|
  {
    if run != [] {
      ReachesRuns(Next(q, run[0].0, run[0].1), run[1..], q');
    }
  }

  /**
   In every interleaving of any number of threads: what went onto the list is what came off it and then what
   is on it, in order; each thread puts on exactly the arguments of its calls, in the order of the calls, but
   for the one it still carries; and each thread returns exactly what it took off, but for the one it owes.
   */
  lemma EveryCallInOrder(capacity: nat, n: nat, run: seq<(nat, Call)>, q: Queue)
    requires Reaches(New(capacity, n), run, q)
    ensures Runs(New(capacity, n), run) && |q.threads| == n
    ensures var tr := TraceOf(New(capacity, n), run);
            && Items(tr.appended) == Items(tr.removed) + q.list
            && (forall t :: 0 <= t < n ==> Of(tr.begun, t) == Of(tr.appended, t) + Carried(q.threads[t]))
            && (forall t :: 0 <= t < n ==> Of(tr.removed, t) == Of(tr.returned, t) + Owed(q.threads[t]))
  {
    var q0 := New(capacity, n);
    NewOk(capacity, n);
    ReachesRuns(q0, run, q);
    ListTrace(q0, run, q);
    SameThreads(q0, run, q);
    var tr := TraceOf(q0, run);
    assert [] + Items(tr.appended) == Items(tr.appended);
    forall t | 0 <= t < n
      ensures Of(tr.begun, t) == Of(tr.appended, t) + Carried(q.threads[t])
      ensures Of(tr.removed, t) == Of(tr.returned, t) + Owed(q.threads[t])
    {
      ThreadTrace(q0, run, q, t);
      assert [] + Of(tr.begun, t) == Of(tr.begun, t) && [] + Of(tr.removed, t) == Of(tr.removed, t);
    }
  }

  lemma {:induction false} SameThreads(q: Queue, run: seq<(nat, Call)>, q': Queue)
    requires Reaches(q, run, q')
    ensures |q'.threads| == |q.threads|
    decreases |run|
  {
    if run != [] {
      SameThreads(Next(q, run[0].0, run[0].1), run[1..], q');
    }
  }
}
