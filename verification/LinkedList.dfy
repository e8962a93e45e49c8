/** The singly linked list of osi/list.c: head, tail and length kept with the chain of nodes. */
module LinkedList {

  class Node<T> {
    var next: Node?<T>
    const data: T

    constructor (data: T)
      ensures this.data == data && next == null
    {
      this.data := data;
      next := null;
    }
  }

  /** list_remove drops the first node with the data. */
  function RemoveFirst<T(==)>(s: seq<T>, x: T): seq<T> {
    if s == [] then [] else if s[0] == x then s[1..] else [s[0]] + RemoveFirst(s[1..], x)
  }

  lemma {:induction false} RemoveFirstAt<T>(s: seq<T>, x: T, i: nat)
    requires i < |s| && s[i] == x && forall j :: 0 <= j < i ==> s[j] != x
    ensures RemoveFirst(s, x) == s[..i] + s[i + 1..]
  {
    if i > 0 {
      RemoveFirstAt(s[1..], x, i - 1);
      assert s[..i] + s[i + 1..] == [s[0]] + (s[1..][..i - 1] + s[1..][i..]);
    }
  }

  lemma {:induction false} RemoveFirstAbsent<T>(s: seq<T>, x: T)
    requires x !in s
    ensures RemoveFirst(s, x) == s
  {
    if s != [] {
      RemoveFirstAbsent(s[1..], x);
    }
  }

  /** Nodes chained one to the next, no node twice, the last one ending the chain: so the chain is acyclic. */
  ghost predicate Chain<T>(spine: seq<Node<T>>)
    reads spine
  {
    && (forall i, j :: 0 <= i < j < |spine| ==> spine[i] != spine[j])
    && (forall i :: 0 <= i < |spine| - 1 ==> spine[i].next == spine[i + 1])
    && (spine != [] ==> spine[|spine| - 1].next == null)
  }

  function Inserted<T>(s: seq<T>, k: nat, x: T): (r: seq<T>)
    requires k <= |s|
    ensures |r| == |s| + 1
    ensures forall j :: 0 <= j < |r| ==> r[j] == if j < k then s[j] else if j == k then x else s[j - 1]
  {
    s[..k] + [x] + s[k..]
  }

  /** Linking node `n` in behind node `i` leaves a chain. */
  lemma ChainLinks<T>(s: seq<Node<T>>, n: Node<T>, i: nat)
    requires i < |s| && n !in s && s[i].next == n
    requires n.next == if i + 1 < |s| then s[i + 1] else null
    requires forall j, k :: 0 <= j < k < |s| ==> s[j] != s[k]
    requires forall j :: 0 <= j < |s| - 1 && j != i ==> s[j].next == s[j + 1]
    requires i < |s| - 1 ==> s[|s| - 1].next == null
    ensures Chain(Inserted(s, i + 1, n))
  {
  }

  function Without<T>(s: seq<T>, k: nat): (r: seq<T>)
    requires k < |s|
    ensures |r| == |s| - 1
    ensures forall j :: 0 <= j < |r| ==> r[j] == if j < k then s[j] else s[j + 1]
  {
    s[..k] + s[k + 1..]
  }

  /** Linking past node `i` leaves a chain. */
  lemma ChainBypassed<T>(s: seq<Node<T>>, i: nat)
    requires i < |s| && forall j, k :: 0 <= j < k < |s| ==> s[j] != s[k]
    requires forall j :: 0 <= j < |s| - 1 && j + 1 != i ==> s[j].next == s[j + 1]
    requires i > 0 ==> s[i - 1].next == if i + 1 < |s| then s[i + 1] else null
    requires s[|s| - 1].next == null
    ensures Chain(Without(s, i))
  {
  }

  class List<T(==)> {
    var head: Node?<T>
    var tail: Node?<T>
    var length: nat
    ghost var spine: seq<Node<T>>
    ghost var contents: seq<T>
    ghost var repr: set<object>

    /** Head, tail and length agree with the chain, and the chain carries the contents. */
    ghost predicate Valid()
      reads this, repr
    {
      && this in repr && (forall i :: 0 <= i < |spine| ==> spine[i] in repr && spine[i] as object != this)
      && Chain(spine) && length == |spine| == |contents|
      && (forall i :: 0 <= i < |spine| ==> spine[i].data == contents[i])
      && (if spine == [] then head == null && tail == null else head == spine[0] && tail == spine[|spine| - 1])
    }

    constructor ()
      ensures Valid() && contents == [] && fresh(repr)
    {
      head, tail, length, spine, contents := null, null, 0, [], [];
      repr := {this};
    }

    method Front() returns (x: T)
      requires Valid() && contents != []
      ensures x == contents[0]
    {
      x := head.data;
    }

    method Back() returns (x: T)
      requires Valid() && contents != []
      ensures x == contents[|contents| - 1]
    {
      x := tail.data;
    }

    method Append(x: T)
      requires Valid()
      modifies repr
      ensures Valid() && contents == old(contents) + [x] && fresh(repr - old(repr))
    {
      var n := new Node(x);
      if tail == null {
        head, tail := n, n;
      } else {
        tail.next := n;
        tail := n;
      }
      length := length + 1;
      spine, contents, repr := spine + [n], contents + [x], repr + {n};
    }

    method Prepend(x: T)
      requires Valid()
      modifies repr
      ensures Valid() && contents == [x] + old(contents) && fresh(repr - old(repr))
    {
      var n := new Node(x);
      n.next := head;
      head := n;
      if tail == null {
        tail := head;
      }
      length := length + 1;
      spine, contents, repr := [n] + spine, [x] + contents, repr + {n};
    }

    /** A new node behind node `i`. */
    method InsertAfter(prev: Node<T>, x: T, ghost i: nat)
      requires Valid() && i < |spine| && prev == spine[i]
      modifies repr
      ensures Valid() && contents == Inserted(old(contents), i + 1, x) && fresh(repr - old(repr))
    {
      var n := new Node(x);
      Link(prev, n, i);
      spine, contents, repr := Inserted(spine, i + 1, n), Inserted(contents, i + 1, x), repr + {n};
    }

    method Link(prev: Node<T>, n: Node<T>, ghost i: nat)
      requires Valid() && i < |spine| && prev == spine[i] && n !in spine
      modifies this`tail, this`length, prev`next, n`next
      ensures Chain(Inserted(spine, i + 1, n)) && length == old(length) + 1
      ensures tail == if i + 1 == |spine| then n else old(tail)
    {
      n.next := prev.next;
      prev.next := n;
      if tail == prev {
        tail := n;
      }
      length := length + 1;
      ChainLinks(spine, n, i);
    }

    method Contains(x: T) returns (b: bool)
      requires Valid()
      ensures b <==> x in contents
    {
      var n := head;
      ghost var i := 0;
      while n != null
        invariant 0 <= i <= |spine| && n == (if i < |spine| then spine[i] else null)
        invariant forall j :: 0 <= j < i ==> contents[j] != x
        decreases |spine| - i
      {
        if n.data == x {
          assert contents[i] == x;
          return true;
        }
        n := n.next;
        i := i + 1;
      }
      return false;
    }

    /** Unlink node `i`, whose predecessor is `prev` unless it is the head. */
    method Unlink(prev: Node?<T>, node: Node<T>, ghost i: nat)
      requires Valid() && i < |spine| && node == spine[i] && (if i == 0 then prev == null else prev == spine[i - 1])
      modifies repr
      ensures Valid() && repr == old(repr)
      ensures contents == old(contents)[..i] + old(contents)[i + 1..]
    {
      Bypass(prev, node, i);
      spine, contents := Without(spine, i), Without(contents, i);
    }

    /** The pointers around node `i`; the node itself is left as it is. */
    method Bypass(prev: Node?<T>, node: Node<T>, ghost i: nat)
      requires Valid() && i < |spine| && node == spine[i]
      requires if i == 0 then prev == null else prev == spine[i - 1]
      modifies this`head, this`tail, this`length, if prev == null then {} else {prev}
      ensures Chain(Without(spine, i)) && length == old(length) - 1
      ensures var left := Without(spine, i);
              if left == [] then head == null && tail == null else head == left[0] && tail == left[|left| - 1]
    {
      var next := node.next;
      length := length - 1;
      if prev == null {
        if tail == head {
          tail := next;
        }
        head := next;
      } else {
        prev.next := next;
        if tail == node {
          tail := prev;
        }
      }
      ChainBypassed(spine, i);
    }

    method Remove(x: T) returns (removed: bool)
      requires Valid()
      modifies repr
      ensures Valid() && repr == old(repr)
      ensures (removed <==> x in old(contents)) && contents == RemoveFirst(old(contents), x)
    {
      var prev: Node?<T>, n := null, head;
      ghost var i := 0;
      while n != null
        invariant 0 <= i <= |spine| && n == (if i < |spine| then spine[i] else null)
        invariant prev == (if i == 0 then null else spine[i - 1])
        invariant forall j :: 0 <= j < i ==> contents[j] != x
        invariant Valid() && spine == old(spine) && contents == old(contents) && repr == old(repr)
        decreases |spine| - i
      {
        if n.data == x {
          assert contents[i] == x;
          RemoveFirstAt(contents, x, i);
          Unlink(prev, n, i);
          return true;
        }
        prev := n;
        n := n.next;
        i := i + 1;
      }
      RemoveFirstAbsent(contents, x);
      return false;
    }

    method Clear()
      requires Valid()
      modifies this
      ensures Valid() && contents == [] && repr == old(repr)
    {
      var n := head;
      ghost var i := 0;
      while n != null
        invariant 0 <= i <= |spine| && n == (if i < |spine| then spine[i] else null)
        invariant Chain(spine) && length == |spine| - i && spine == old(spine)
        invariant this in repr && repr == old(repr)
        decreases |spine| - i
      {
        n := n.next;
        length := length - 1;
        i := i + 1;
      }
      head, tail, length, spine, contents := null, null, 0, [], [];
    }
  }
}
