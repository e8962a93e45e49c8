/**
 The Bluetooth controller's DRAM regions (components/bt/bt.c): which modes still need a region, which
 address ranges have been given to the heap, and the controller's life cycle.
 */
module BtMemory {

  datatype Radio = Ble | Classic

  /** esp_bt_mode_t as a set of bits; idle is the empty set. */
  type Mode = set<Radio>

  datatype Region = Region(mode: Mode, start: int, end: int)

  datatype Range = Range(start: int, end: int)

  predicate In(a: int, r: Region) {
    r.start <= a < r.end
  }

  predicate InRange(a: int, g: Range) {
    g.start <= a < g.end
  }

  /** Ordered and disjoint, as the table in the source is. */
  predicate TableOk(rs: seq<Region>) {
    && rs != []
    && (forall i :: 0 <= i < |rs| ==> rs[i].start < rs[i].end)
    && (forall i, j :: 0 <= i < j < |rs| ==> rs[i].end <= rs[j].start)
  }

  ghost predicate Given(heap: seq<Range>, a: int) {
    exists k :: 0 <= k < |heap| && InRange(a, heap[k])
  }

  /** The ranges given away lie one behind the other: no address twice. */
  ghost predicate Disjoint(heap: seq<Range>) {
    forall i, j :: 0 <= i < j < |heap| ==> heap[i].end <= heap[j].start || heap[j].end <= heap[i].start
  }

  /** A region that releasing `mode` makes idle. */
  predicate Freed(r: Region, mode: Mode) {
    r.mode != {} && r.mode <= mode
  }

  ghost predicate InFreed(rs: seq<Region>, mode: Mode, n: nat, a: int)
    requires n <= |rs|
  {
    exists i :: 0 <= i < n && Freed(rs[i], mode) && In(a, rs[i])
  }

  function Released(rs: seq<Region>, mode: Mode): seq<Region> {
    seq(|rs|, i requires 0 <= i < |rs| => rs[i].(mode := rs[i].mode - mode))
  }

  lemma InFreedStep(rs: seq<Region>, mode: Mode, i: nat, a: int)
    requires i < |rs|
    ensures InFreed(rs, mode, i + 1, a) <==> InFreed(rs, mode, i, a) || (Freed(rs[i], mode) && In(a, rs[i]))
  {
  }

  lemma GivenSnoc(heap: seq<Range>, g: Range, a: int)
    ensures Given(heap + [g], a) <==> Given(heap, a) || InRange(a, g)
  {
    if Given(heap, a) {
      var k :| 0 <= k < |heap| && InRange(a, heap[k]);
      assert (heap + [g])[k] == heap[k];
    }
    if InRange(a, g) {
      assert (heap + [g])[|heap|] == g;
    }
  }

  /** The coalescing loop: which ranges it hands to the heap, and the modes it leaves behind. */
  method ReleaseLoop(rs: seq<Region>, mode: Mode) returns (rs': seq<Region>, given: seq<Range>)
    requires TableOk(rs)
    ensures rs' == Released(rs, mode)
    ensures Disjoint(given)
    ensures forall a :: Given(given, a) <==> InFreed(rs, mode, |rs|, a)
    ensures forall k :: 0 <= k < |given| ==> given[k].start < given[k].end
  {
    rs', given := rs, [];
    var update, memStart, memEnd := true, 0, 0;
    var i := 0;
    while i < |rs|
      invariant 0 <= i <= |rs| && |rs'| == |rs|
      invariant forall j :: 0 <= j < i ==> rs'[j] == rs[j].(mode := rs[j].mode - mode)
      invariant forall j :: i <= j < |rs| ==> rs'[j] == rs[j]
      invariant forall k :: 0 <= k < |given| ==> given[k].start < given[k].end
      invariant Disjoint(given)
      // everything handed over lies before the open range, or before the next region
      invariant update ==> forall k :: 0 <= k < |given| && i > 0 ==> given[k].end <= rs[i - 1].end
      invariant i == 0 ==> update && given == []
      invariant !update ==> i > 0 && i < |rs| && Freed(rs[i], mode) && memStart < memEnd == rs[i - 1].end == rs[i].start
      invariant !update ==> forall k :: 0 <= k < |given| ==> given[k].end <= memStart
      invariant forall a :: (Given(given, a) || (!update && memStart <= a < memEnd)) <==> InFreed(rs, mode, i, a)
    {
      ghost var given0, open0, start0, end0 := given, !update, memStart, memEnd;
      var r := rs'[i];
      rs' := rs'[i := r.(mode := r.mode - mode)];
      if Freed(r, mode) {
        if update {
          memStart, memEnd, update := r.start, r.end, false;
        }
        memEnd := r.end;
        if i < |rs| - 1 && rs'[i + 1].mode != {} && rs'[i + 1].mode <= mode && memEnd == rs'[i + 1].start {
        } else {
          given := given + [Range(memStart, memEnd)];
          update := true;
        }
      }
      forall a ensures (Given(given, a) || (!update && memStart <= a < memEnd)) <==> InFreed(rs, mode, i + 1, a) {
        InFreedStep(rs, mode, i, a);
        assert (Given(given0, a) || (open0 && start0 <= a < end0)) <==> InFreed(rs, mode, i, a);
        GivenSnoc(given0, Range(memStart, memEnd), a);
      }
      i := i + 1;
    }
  }

  // ---------- several releases ----------

  lemma ReleasedTwice(rs: seq<Region>, m: Mode, n: Mode)
    ensures Released(Released(rs, m), n) == Released(rs, m + n)
  {
    assert forall i :: 0 <= i < |rs| ==> rs[i].mode - m - n == rs[i].mode - (m + n);
  }

  /** An address of a region that was needed at first and is needed no more. */
  ghost predicate Abandoned(initial: seq<Region>, released: Mode, a: int) {
    InFreed(initial, released, |initial|, a)
  }

  /** An address of a region still in use has not been abandoned: it lies in no other region. */
  lemma NotAbandonedYet(initial: seq<Region>, released: Mode, i: nat, a: int)
    requires TableOk(initial) && i < |initial| && In(a, initial[i]) && initial[i].mode - released != {}
    ensures !Abandoned(initial, released, a)
  {
    var r :| r in initial[i].mode - released;
    forall j | 0 <= j < |initial| && In(a, initial[j]) ensures j == i && !Freed(initial[j], released) {
    }
  }

  lemma AbandonedStep(initial: seq<Region>, released: Mode, mode: Mode, a: int)
    requires TableOk(initial)
    ensures Abandoned(initial, released + mode, a)
            <==> Abandoned(initial, released, a) || InFreed(Released(initial, released), mode, |initial|, a)
    ensures !(Abandoned(initial, released, a) && InFreed(Released(initial, released), mode, |initial|, a))
  {
    var now := Released(initial, released);
    if Abandoned(initial, released + mode, a) {
      var i :| 0 <= i < |initial| && Freed(initial[i], released + mode) && In(a, initial[i]);
      if initial[i].mode <= released {
        assert Freed(initial[i], released);
      } else {
        var r :| r in initial[i].mode && r !in released;
        assert r in now[i].mode;
        assert Freed(now[i], mode) && In(a, now[i]);
      }
    }
    if InFreed(now, mode, |initial|, a) {
      var i :| 0 <= i < |initial| && Freed(now[i], mode) && In(a, now[i]);
      assert Freed(initial[i], released + mode) && In(a, initial[i]);
      NotAbandonedYet(initial, released, i, a);
    }
    if Abandoned(initial, released, a) {
      var j :| 0 <= j < |initial| && Freed(initial[j], released) && In(a, initial[j]);
      assert Freed(initial[j], released + mode);
    }
  }

  ghost predicate Proper(heap: seq<Range>) {
    forall k :: 0 <= k < |heap| ==> heap[k].start < heap[k].end
  }

  lemma DisjointPlus(a: seq<Range>, b: seq<Range>)
    requires Disjoint(a) && Disjoint(b) && Proper(a) && Proper(b)
    requires forall x :: !(Given(a, x) && Given(b, x))
    ensures Disjoint(a + b) && Proper(a + b)
  {
    forall i, j | 0 <= i < |a| && 0 <= j < |b| ensures a[i].end <= b[j].start || b[j].end <= a[i].start {
      var x := if a[i].start < b[j].start then b[j].start else a[i].start;
      if a[i].end > b[j].start && b[j].end > a[i].start {
        assert InRange(x, a[i]) && InRange(x, b[j]);
        assert Given(a, x) && Given(b, x);
      }
    }
  }

  lemma GivenPlus(a: seq<Range>, b: seq<Range>, x: int)
    ensures Given(a + b, x) <==> Given(a, x) || Given(b, x)
  {
    if Given(a, x) {
      var k :| 0 <= k < |a| && InRange(x, a[k]);
      assert (a + b)[k] == a[k];
    }
    if Given(b, x) {
      var k :| 0 <= k < |b| && InRange(x, b[k]);
      assert (a + b)[|a| + k] == b[k];
    }
  }

  // ---------- the controller ----------

  datatype Status = Idle | Inited | Enabled
  datatype Code = Ok | InvalidState | InvalidArg | NoMem

  const ALL: Mode := {Ble, Classic}

  /** What is available, and what of a mode is not, given what was released. */
  lemma Available(released: Mode, mode: Mode)
    ensures ALL - released == {} <==> released == ALL
    ensures mode - (ALL - released) == {} <==> mode !! released
  {
    forall r: Radio ensures r in ALL {
      match r
      case Ble =>
      case Classic =>
    }
    assert forall r :: r in mode - (ALL - released) <==> r in mode && r in released;
    if ALL - released == {} {
      forall r | r in ALL ensures r in released {
        assert r !in ALL - released;
      }
    }
  }

  class Controller {
    var regions: seq<Region>
    var status: Status
    var heap: seq<Range>
    ghost const initial: seq<Region>
    ghost var released: Mode
    ghost var enabled: Mode

    constructor (table: seq<Region>)
      requires TableOk(table) && table[0].mode == ALL
      ensures Valid() && initial == table && released == {} && status == Idle && heap == []
    {
      regions, status, heap, initial, released, enabled := table, Idle, [], table, {}, {};
      new;
      assert forall i :: 0 <= i < |table| ==> table[i].mode - {} == table[i].mode;
      assert Released(table, {}) == table;
    }

    /**
     Every entry's mode is its initial mode minus all released modes; the ranges given to the heap are
     disjoint and cover exactly the regions that became idle; the enabled mode was not released.
     */
    ghost predicate Valid()
      reads this
    {
      && TableOk(initial) && initial[0].mode == ALL && regions == Released(initial, released)
      && Disjoint(heap) && Proper(heap)
      && (forall a :: Given(heap, a) <==> Abandoned(initial, released, a))
      && (status == Enabled ==> enabled !! released)
    }

    method MemRelease(mode: Mode) returns (code: Code)
      requires Valid()
      modifies this
      ensures Valid() && status == old(status) && enabled == old(enabled)
      ensures code == if old(status) != Idle || mode !! old(regions)[0].mode then InvalidState else Ok
      ensures code != Ok ==> regions == old(regions) && heap == old(heap)
      ensures code == Ok ==> released == old(released) + mode && old(heap) <= heap
    {
      if status != Idle {
        return InvalidState;
      }
      if mode !! regions[0].mode {
        return InvalidState;
      }
      ghost var before := heap;
      ReleasedOk(initial, released);
      var given: seq<Range>;
      regions, given := ReleaseLoop(regions, mode);
      ReleasedTwice(initial, released, mode);
      forall a
        ensures !(Given(heap, a) && Given(given, a))
        ensures Given(heap + given, a) <==> Abandoned(initial, released + mode, a)
      {
        AbandonedStep(initial, released, mode, a);
        GivenPlus(heap, given, a);
      }
      DisjointPlus(heap, given);
      heap := heap + given;
      released := released + mode;
      return Ok;
    }

    method Init(configOk: bool, initFails: bool) returns (code: Code)
      requires Valid()
      modifies this`status
      ensures Valid()
      ensures status == if code == Ok then Inited else old(status)
      ensures code == Ok <==> old(status) == Idle && released != ALL && configOk && !initFails
      ensures code == InvalidState <==> old(status) != Idle || released == ALL
    {
      if status != Idle {
        return InvalidState;
      }
      assert regions[0].mode == ALL - released;
      Available(released, {});
      if regions[0].mode == {} {
        return InvalidState;
      }
      if !configOk {
        return InvalidArg;
      }
      if initFails {
        return NoMem;
      }
      status := Inited;
      return Ok;
    }

    method Deinit(deinitFails: bool) returns (code: Code)
      requires Valid()
      modifies this`status
      ensures Valid() && status == (if code == Ok then Idle else old(status))
      ensures code == Ok <==> old(status) == Inited && !deinitFails
    {
      if status != Inited {
        return InvalidState;
      }
      if deinitFails {
        return NoMem;
      }
      status := Idle;
      return Ok;
    }

    method Enable(mode: Mode, enableFails: bool) returns (code: Code)
      requires Valid()
      modifies this`status, this`enabled
      ensures Valid() && status == (if code == Ok then Enabled else old(status))
      ensures code == Ok <==> old(status) == Inited && mode !! released && !enableFails
      ensures code == Ok ==> enabled == mode
    {
      if status != Inited {
        return InvalidState;
      }
      assert regions[0].mode == ALL - released;
      Available(released, mode);
      if mode - regions[0].mode != {} {
        return InvalidArg;
      }
      if enableFails {
        return InvalidState;
      }
      status, enabled := Enabled, mode;
      return Ok;
    }

    method Disable(ret: int) returns (code: Code)
      requires Valid()
      modifies this`status
      ensures Valid() && (code == Ok <==> old(status) == Enabled && ret >= 0)
      ensures status == if code == Ok && ret == 0 then Inited else old(status)
    {
      if status != Enabled {
        return InvalidState;
      }
      if ret < 0 {
        return InvalidState;
      }
      if ret == 0 {
        status := Inited;
      }
      return Ok;
    }

    /** No byte of a region that the enabled mode needs has been given away. */
    lemma EnabledRegionsKept(i: nat, a: int)
      requires Valid() && status == Enabled && i < |initial| && In(a, initial[i])
      requires initial[i].mode * enabled != {}
      ensures !Given(heap, a) && regions[i].mode != {}
    {
      var r :| r in initial[i].mode && r in enabled;
      assert r !in released;
      assert regions[i] == initial[i].(mode := initial[i].mode - released);
      assert r in regions[i].mode;
    }
  }

  lemma ReleasedOk(rs: seq<Region>, m: Mode)
    requires TableOk(rs)
    ensures TableOk(Released(rs, m))
  {
  }
}
