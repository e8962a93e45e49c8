/**
 The reference-counted buffers of osi/buffer.c. A root owns its storage; slices and references (also of
 slices) point to the root and each hold one count. Handles are freed once each, in any order.
 */
module BufferRefs {

  const SIZE_MAX: nat := 0xFFFF_FFFF

  class Buffer {
    const root: Buffer
    const length: nat
    const data: array<int>
    var refcount: nat

    constructor Root(size: nat)
      requires size > 0
      ensures root == this && refcount == 1 && length == data.Length == size && fresh(data)
    {
      root, refcount, length := this, 1, size;
      data := new int[size](_ => 0);
    }

    constructor Leaf(root: Buffer, length: nat)
      ensures this.root == root && refcount == SIZE_MAX && this.length == length && fresh(data)
    {
      this.root, refcount, this.length := root, SIZE_MAX, length;
      data := new int[0](_ => 0);
    }
  }

  /** The live handles on a root: its slices and references, and its own while that is not freed. */
  ghost function Holders(root: Buffer, held: set<Buffer>): (r: set<Buffer>)
    ensures r <= held
  {
    set h | h in held && h.root == root
  }

  /** Giving up one handle takes it from its own root's holders and from no other's. */
  lemma HoldersWithout(root: Buffer, held: set<Buffer>, b: Buffer)
    requires b in held
    ensures b.root == root ==> Holders(root, held - {b}) == Holders(root, held) - {b}
    ensures b.root == root ==> |Holders(root, held - {b})| == |Holders(root, held)| - 1
    ensures b.root != root ==> Holders(root, held - {b}) == Holders(root, held)
  {
    if b.root == root {
      assert Holders(root, held - {b}) == Holders(root, held) - {b};
    }
  }

  lemma HoldersWith(root: Buffer, held: set<Buffer>, b: Buffer)
    requires b !in held
    ensures b.root == root ==> Holders(root, held + {b}) == Holders(root, held) + {b}
    ensures b.root == root ==> |Holders(root, held + {b})| == |Holders(root, held)| + 1
    ensures b.root != root ==> Holders(root, held + {b}) == Holders(root, held)
  {
    if b.root == root {
      assert Holders(root, held + {b}) == Holders(root, held) + {b};
    }
  }

  /** A handle points straight at a root, and denotes at most the root's data. */
  ghost predicate Shape(b: Buffer, made: set<Buffer>) {
    && b.root in made && b.root.root == b.root
    && b.root.length == b.root.data.Length
    && 0 < b.length <= b.root.length
  }

  /**
   A root's count is the number of live handles on it and its storage is gone exactly when there are
   none; a slice's storage is gone exactly when the slice is freed.
   */
  ghost predicate Counted(b: Buffer, count: nat, held: set<Buffer>, released: set<Buffer>) {
    if b.root == b then
      && (b in released <==> Holders(b, held) == {})
      && (b !in released ==> count == |Holders(b, held)|)
    else
      b in released <==> b !in held
  }

  /** One more handle keeps the books of every older buffer, its root's count going up by one. */
  lemma CountedWith(x: Buffer, count: nat, held: set<Buffer>, released: set<Buffer>, b: Buffer)
    requires Counted(x, count, held, released) && b !in held && x != b
    requires b.root == x ==> x !in released
    ensures Counted(x, if b.root == x then count + 1 else count, held + {b}, released)
  {
    HoldersWith(x, held, b);
  }

  /** What freeing a handle gives back: a slice itself, and the root once nobody is left. */
  ghost function Given(buf: Buffer, heldAfter: set<Buffer>): set<Buffer> {
    (if buf.root != buf then {buf} else {}) + (if Holders(buf.root, heldAfter) == {} then {buf.root} else {})
  }

  /** One handle less keeps the books of every buffer, its root's count going down by one. */
  lemma CountedWithout(x: Buffer, count: nat, held: set<Buffer>, released: set<Buffer>, b: Buffer)
    requires Counted(x, count, held, released) && b in held && b.root.root == b.root
    requires b.root == x ==> x !in released && count > 0
    ensures Counted(x, if b.root == x then count - 1 else count, held - {b}, released + Given(b, held - {b}))
  {
    HoldersWithout(x, held, b);
    HoldersWithout(b.root, held, b);
  }

  /** The root of a live handle is alive and counts it. */
  lemma RootAlive(b: Buffer, count: nat, held: set<Buffer>, released: set<Buffer>)
    requires b in held && b.root.root == b.root && Counted(b.root, count, held, released)
    ensures b.root !in released && count == |Holders(b.root, held)| > 0
  {
    assert b in Holders(b.root, held);
  }

  lemma NobodyHolds(b: Buffer, held: set<Buffer>, made: set<Buffer>)
    requires b !in made && held <= made && forall x :: x in made ==> Shape(x, made)
    ensures Holders(b, held) == {}
  {
  }

  /** All buffers made, the handles still held, and the storage given back. */
  class Arena {
    ghost var made: set<Buffer>
    ghost var held: set<Buffer>
    ghost var released: set<Buffer>

    constructor ()
      ensures Valid() && made == {} && held == {} && released == {}
    {
      made, held, released := {}, {}, {};
    }

    ghost predicate Valid()
      reads this, made
    {
      && held <= made && released <= made
      && (forall b :: b in made ==> Shape(b, made))
      && (forall b :: b in made ==> Counted(b, b.refcount, held, released))
    }

    method New(size: nat) returns (b: Buffer)
      requires Valid() && size > 0
      modifies this
      ensures Valid() && fresh(b) && b.root == b && b.length == size
      ensures held == old(held) + {b} && made == old(made) + {b} && released == old(released)
    {
      b := new Buffer.Root(size);
      NobodyHolds(b, held, made);
      HoldersWith(b, held, b);
      made, held := made + {b}, held + {b};
      forall x | x in made && x != b ensures Shape(x, made) && Counted(x, x.refcount, held, released) {
        assert old(Shape(x, made) && Counted(x, x.refcount, held, released));
        CountedWith(x, x.refcount, old(held), released, b);
      }
    }

    /** A slice, also of a slice, is one more handle on the same root. */
    method NewSlice(buf: Buffer, sliceSize: nat) returns (s: Buffer)
      requires Valid() && buf in held && 0 < sliceSize <= buf.length
      modifies this, buf.root
      ensures Valid() && fresh(s) && s.root == buf.root && s.length == sliceSize
      ensures held == old(held) + {s} && made == old(made) + {s} && released == old(released)
    {
      var root := buf.root;
      assert Shape(buf, made);
      RootAlive(buf, root.refcount, held, released);
      s := new Buffer.Leaf(root, sliceSize);
      root.refcount := root.refcount + 1;
      made, held := made + {s}, held + {s};
      forall x | x in made && x != s ensures Shape(x, made) && Counted(x, x.refcount, held, released) {
        assert old(Shape(x, made) && Counted(x, x.refcount, held, released));
        CountedWith(x, old(x.refcount), old(held), released, s);
      }
    }

    method NewRef(buf: Buffer) returns (s: Buffer)
      requires Valid() && buf in held
      modifies this, buf.root
      ensures Valid() && fresh(s) && s.root == buf.root && s.length == buf.length
      ensures held == old(held) + {s} && made == old(made) + {s} && released == old(released)
    {
      s := NewSlice(buf, buf.length);
    }

    /** The storage of a root goes exactly with its last handle; a slice's own storage goes at once. */
    method Free(buf: Buffer?)
      requires Valid() && (buf != null ==> buf in held)
      modifies this, if buf == null then {} else {buf.root}
      ensures Valid() && made == old(made)
      ensures buf == null ==> held == old(held) && released == old(released)
      ensures buf != null ==> held == old(held) - {buf} && released == old(released) + Given(buf, held)
    {
      if buf != null {
        ghost var root := buf.root;
        assert Shape(buf, made);
        RootAlive(buf, root.refcount, held, released);
        CountDown(buf);
        assert released == old(released) + Given(buf, held);
        forall x | x in made ensures Counted(x, x.refcount, held, released) {
          assert old(Counted(x, x.refcount, held, released));
          CountedWithout(x, old(x.refcount), old(held), old(released), buf);
        }
      }
    }

    /** The two branches of buffer_free: the last referent deletes the root, and a leaf also itself. */
    method CountDown(buf: Buffer)
      requires buf in held && buf.root.refcount == |Holders(buf.root, held)|
      modifies this`held, this`released, buf.root
      ensures held == old(held) - {buf} && buf.root.refcount == old(buf.root.refcount) - 1
      ensures released == old(released) + Given(buf, held)
    {
      HoldersWithout(buf.root, held, buf);
      held := held - {buf};
      if buf.root != buf {
        buf.root.refcount := buf.root.refcount - 1;
        if buf.root.refcount == 0 {
          released := released + {buf.root};
        }
        released := released + {buf};
      } else {
        buf.refcount := buf.refcount - 1;
        if buf.refcount == 0 {
          released := released + {buf};
        }
      }
    }

    /** buffer_ptr: a live handle denotes the last `length` bytes of its root's data, which is still there. */
    method Pointer(h: Buffer) returns (offset: nat)
      requires Valid() && h in held
      ensures h.root !in released && offset + h.length == h.root.data.Length
    {
      assert Shape(h, made);
      RootAlive(h, h.root.refcount, held, released);
      offset := h.root.length - h.length;
    }
  }
}
