/**
 The chained hash table of osi/hash_map.c over the linked lists of osi/list.c: a finite map, for every
 hash function and every number of buckets.
 */
module HashMap {
  import opened Bytes
  import opened LinkedList

  datatype Entry<K, V> = Entry(key: K, data: V)

  // ---------- one bucket by value ----------

  /** find_bucket_entry_: the first entry with the key. */
  function FindEntry<K(==), V>(es: seq<Entry<K, V>>, key: K): Option<Entry<K, V>> {
    if es == [] then None else if es[0].key == key then Some(es[0]) else FindEntry(es[1..], key)
  }

  function EraseKey<K(==), V>(es: seq<Entry<K, V>>, key: K): seq<Entry<K, V>> {
    if es == [] then [] else if es[0].key == key then es[1..] else [es[0]] + EraseKey(es[1..], key)
  }

  /** No key twice, and every key in the bucket its hash selects. */
  predicate BucketOk<K(==), V>(es: seq<Entry<K, V>>, hash: K -> nat, n: nat, b: nat)
    requires n > 0
  {
    es == [] || (FindEntry(es[1..], es[0].key).None? && hash(es[0].key) % n == b && BucketOk(es[1..], hash, n, b))
  }

  /** Removing the entry that was found is removing the key. */
  lemma {:induction false} RemoveFound<K, V>(es: seq<Entry<K, V>>, key: K)
    ensures FindEntry(es, key).Some? ==> FindEntry(es, key).value.key == key
    ensures FindEntry(es, key).Some? ==> FindEntry(es, key).value in es
    ensures FindEntry(es, key).Some? ==> RemoveFirst(es, FindEntry(es, key).value) == EraseKey(es, key)
    ensures FindEntry(es, key).None? ==> EraseKey(es, key) == es
  {
    if es != [] {
      RemoveFound(es[1..], key);
    }
  }

  lemma {:induction false} FindAfterErase<K, V>(es: seq<Entry<K, V>>, hash: K -> nat, n: nat, b: nat, key: K, k: K)
    requires n > 0 && BucketOk(es, hash, n, b)
    ensures FindEntry(EraseKey(es, key), k) == if k == key then None else FindEntry(es, k)
  {
    if es != [] {
      FindAfterErase(es[1..], hash, n, b, key, k);
      if es[0].key != key {
        assert EraseKey(es, key)[1..] == EraseKey(es[1..], key);
      }
    }
  }

  lemma {:induction false} EraseKeepsBucket<K, V>(es: seq<Entry<K, V>>, hash: K -> nat, n: nat, b: nat, key: K)
    requires n > 0 && BucketOk(es, hash, n, b)
    ensures BucketOk(EraseKey(es, key), hash, n, b)
  {
    if es != [] && es[0].key != key {
      EraseKeepsBucket(es[1..], hash, n, b, key);
      FindAfterErase(es[1..], hash, n, b, key, es[0].key);
      assert EraseKey(es, key)[1..] == EraseKey(es[1..], key);
    }
  }

  lemma {:induction false} FindAfterAppend<K, V>(es: seq<Entry<K, V>>, e: Entry<K, V>, k: K)
    ensures FindEntry(es + [e], k)
            == if FindEntry(es, k).Some? then FindEntry(es, k) else if e.key == k then Some(e) else None
  {
    if es == [] {
      assert (es + [e])[1..] == [];
    } else {
      assert (es + [e])[1..] == es[1..] + [e];
      FindAfterAppend(es[1..], e, k);
    }
  }

  lemma {:induction false} AppendKeepsBucket<K, V>(es: seq<Entry<K, V>>, hash: K -> nat, n: nat, b: nat, e: Entry<K, V>)
    requires n > 0 && BucketOk(es, hash, n, b) && hash(e.key) % n == b && FindEntry(es, e.key).None?
    ensures BucketOk(es + [e], hash, n, b)
  {
    if es == [] {
      assert (es + [e])[1..] == [];
    } else {
      assert (es + [e])[1..] == es[1..] + [e];
      AppendKeepsBucket(es[1..], hash, n, b, e);
      FindAfterAppend(es[1..], e, es[0].key);
    }
  }

  // ---------- the table by value ----------

  function InMap<K(==), V>(m: map<K, V>, k: K): Option<Entry<K, V>> {
    if k in m then Some(Entry(k, m[k])) else None
  }

  /** The buckets hold the finite map `m`: looking any key up in its bucket gives what the map says. */
  ghost predicate Represents<K(!new), V>(view: seq<seq<Entry<K, V>>>, hash: K -> nat, m: map<K, V>) {
    && |view| > 0
    && (forall b :: 0 <= b < |view| ==> BucketOk(view[b], hash, |view|, b))
    && (forall k :: FindEntry(view[hash(k) % |view|], k) == InMap(m, k))
  }

  lemma SetIsUpdate<K(!new), V>(view: seq<seq<Entry<K, V>>>, hash: K -> nat, m: map<K, V>, key: K, data: V)
    requires Represents(view, hash, m)
    ensures var b := hash(key) % |view|;
            Represents(view[b := EraseKey(view[b], key) + [Entry(key, data)]], hash, m[key := data])
  {
    var b, n, e := hash(key) % |view|, |view|, Entry(key, data);
    var kept := EraseKey(view[b], key);
    var v' := view[b := kept + [e]];
    EraseKeepsBucket(view[b], hash, n, b, key);
    FindAfterErase(view[b], hash, n, b, key, key);
    AppendKeepsBucket(kept, hash, n, b, e);
    forall k ensures FindEntry(v'[hash(k) % n], k) == InMap(m[key := data], k) {
      assert FindEntry(view[hash(k) % n], k) == InMap(m, k);
      if hash(k) % n == b {
        FindAfterErase(view[b], hash, n, b, key, k);
        FindAfterAppend(kept, e, k);
      }
    }
  }

  lemma EraseIsRemoval<K(!new), V>(view: seq<seq<Entry<K, V>>>, hash: K -> nat, m: map<K, V>, key: K)
    requires Represents(view, hash, m)
    ensures var b := hash(key) % |view|;
            Represents(view[b := EraseKey(view[b], key)], hash, m - {key})
  {
    var b, n := hash(key) % |view|, |view|;
    var v' := view[b := EraseKey(view[b], key)];
    EraseKeepsBucket(view[b], hash, n, b, key);
    forall k ensures FindEntry(v'[hash(k) % n], k) == InMap(m - {key}, k) {
      assert FindEntry(view[hash(k) % n], k) == InMap(m, k);
      if hash(k) % n == b {
        FindAfterErase(view[b], hash, n, b, key, k);
      }
    }
  }

  // ---------- the table in the heap ----------

  /** find_bucket_entry_ over the nodes of a bucket. */
  method FindInList<K(==), V(==)>(list: List<Entry<K, V>>, key: K) returns (e: Option<Entry<K, V>>)
    requires list.Valid()
    ensures e == FindEntry(list.contents, key)
  {
    var n := list.head;
    ghost var i := 0;
    ghost var all := list.contents;
    assert all[0..] == all;
    while n != null
      invariant 0 <= i <= |list.spine| && n == (if i < |list.spine| then list.spine[i] else null)
      invariant FindEntry(all[i..], key) == FindEntry(all, key)
      decreases |list.spine| - i
    {
      assert all[i..][1..] == all[i + 1..];
      if n.data.key == key {
        return Some(n.data);
      }
      n := n.next;
      i := i + 1;
    }
    return None;
  }

  method ReplaceInList<K(==), V(==)>(list: List<Entry<K, V>>, key: K, data: V) returns (existed: bool)
    requires list.Valid()
    modifies list.repr
    ensures list.Valid() && fresh(list.repr - old(list.repr))
    ensures list.contents == EraseKey(old(list.contents), key) + [Entry(key, data)]
    ensures existed <==> FindEntry(old(list.contents), key).Some?
  {
    existed := RemoveInList(list, key);
    list.Append(Entry(key, data));
  }

  method RemoveEntry<K(==), V(==)>(list: List<Entry<K, V>>, key: K, e: Entry<K, V>)
    requires list.Valid() && FindEntry(list.contents, key) == Some(e)
    modifies list.repr
    ensures list.Valid() && list.repr == old(list.repr) && list.contents == EraseKey(old(list.contents), key)
  {
    RemoveFound(list.contents, key);
    var _ := list.Remove(e);
  }

  /** Take the entry with the key out of a bucket, if it is there. */
  method RemoveInList<K(==), V(==)>(list: List<Entry<K, V>>, key: K) returns (existed: bool)
    requires list.Valid()
    modifies list.repr
    ensures list.Valid() && list.repr == old(list.repr) && list.contents == EraseKey(old(list.contents), key)
    ensures existed <==> FindEntry(old(list.contents), key).Some?
  {
    RemoveFound(list.contents, key);
    var e := FindInList(list, key);
    existed := e.Some?;
    if existed {
      RemoveEntry(list, key, e.value);
    }
  }

  class Table<K(==,!new), V(==)> {
    const hash: K -> nat
    const bucket: array<List?<Entry<K, V>>>
    var hashSize: nat
    ghost var view: seq<seq<Entry<K, V>>>
    ghost var model: map<K, V>
    ghost var repr: set<object>

    constructor (hash: K -> nat, numBucket: nat)
      requires numBucket > 0
      ensures Valid() && model == map[] && fresh(repr)
    {
      this.hash := hash;
      bucket := new List?<Entry<K, V>>[numBucket](_ => null);
      hashSize, model := 0, map[];
      view := seq(numBucket, _ => []);
      repr := {this, bucket};
    }

    /** Bucket `b` is empty, or a sound list with the contents the view gives. */
    ghost predicate BucketHolds(b: nat)
      requires b < bucket.Length == |view|
      reads this, bucket, repr
    {
      var list := bucket[b];
      if list == null then view[b] == []
      else
        && list in repr && list.repr <= repr && this !in list.repr && bucket !in list.repr
        && list.Valid() && list.contents == view[b]
    }

    ghost predicate Apart(b: nat, c: nat)
      requires b < bucket.Length && c < bucket.Length
      reads this, bucket, repr
    {
      bucket[b] != null && bucket[c] != null && bucket[b] in repr && bucket[c] in repr ==>
        bucket[b].repr !! bucket[c].repr
    }

    /** Every bucket is a sound list, and buckets share nothing. */
    ghost predicate Shape()
      reads this, bucket, repr
    {
      && this in repr && bucket in repr && bucket.Length == |view|
      && (forall b :: 0 <= b < bucket.Length ==> BucketHolds(b))
      && (forall b, c :: 0 <= b < bucket.Length && 0 <= c < bucket.Length && b != c ==> Apart(b, c))
    }

    /** Together the buckets hold the map, and the size counts its keys. */
    ghost predicate Valid()
      reads this, bucket, repr
    {
      Shape() && Represents(view, hash, model) && hashSize == |model|
    }

    method Get(key: K) returns (r: Option<V>)
      requires Valid()
      ensures r == if key in model then Some(model[key]) else None
    {
      var b := hash(key) % bucket.Length;
      assert BucketHolds(b) && FindEntry(view[hash(key) % |view|], key) == InMap(model, key);
      if bucket[b] == null {
        return None;
      }
      var e := FindInList(bucket[b], key);
      return if e.Some? then Some(e.value.data) else None;
    }

    method HasKey(key: K) returns (r: bool)
      requires Valid()
      ensures r <==> key in model
    {
      var v := Get(key);
      return v.Some?;
    }

    /** A bucket none of whose objects changed still holds what it held. */
    twostate lemma BucketFrame(c: nat)
      requires c < bucket.Length == |view| == |old(view)| && old(BucketHolds(c))
      requires bucket[c] == old(bucket[c]) && view[c] == old(view)[c] && old(repr) <= repr
      requires bucket[c] != null ==> forall o :: o in old(bucket[c].repr) ==> unchanged(o)
      ensures BucketHolds(c) && (bucket[c] != null ==> bucket[c].repr == old(bucket[c].repr))
    {
    }

    /** A bucket list is made when the first key comes to it. */
    method EnsureBucket(b: nat)
      requires Valid() && b < bucket.Length
      modifies this`repr, bucket
      ensures Valid() && bucket[b] != null && model == old(model) && view == old(view) && hashSize == old(hashSize)
      ensures fresh(repr - old(repr))
    {
      if bucket[b] == null {
        assert BucketHolds(b);
        var list := new List<Entry<K, V>>();
        bucket[b] := list;
        repr := repr + list.repr;
        forall c | 0 <= c < bucket.Length && c != b
          ensures BucketHolds(c) && (bucket[c] != null ==> bucket[c].repr == old(bucket[c].repr))
        {
          assert old(BucketHolds(c));
          BucketFrame(c);
        }
        forall c, d | 0 <= c < bucket.Length && 0 <= d < bucket.Length && c != d ensures Apart(c, d) {
          assert old(Apart(c, d));
        }
      }
    }

    method Set(key: K, data: V)
      requires Valid()
      modifies repr
      ensures Valid() && model == old(model)[key := data] && fresh(repr - old(repr))
    {
      var b := hash(key) % bucket.Length;
      EnsureBucket(b);
      SetInBucket(b, key, data);
    }

    method SetInBucket(b: nat, key: K, data: V)
      requires Valid() && b == hash(key) % bucket.Length && bucket[b] != null
      modifies repr
      ensures Valid() && model == old(model)[key := data] && fresh(repr - old(repr))
    {
      SetIsUpdate(view, hash, model, key, data);
      assert FindEntry(view[hash(key) % |view|], key) == InMap(model, key);
      ReplaceAt(b, key, data);
    }

    /** The heap side of setting a key: one bucket changes, the others keep what they hold. */
    method ReplaceAt(b: nat, key: K, data: V)
      requires Shape() && b < bucket.Length && bucket[b] != null
      modifies repr
      ensures Shape() && fresh(repr - old(repr)) && old(repr) <= repr
      ensures view == old(view)[b := EraseKey(old(view)[b], key) + [Entry(key, data)]]
      ensures hashSize == old(hashSize) + (if FindEntry(old(view)[b], key).Some? then 0 else 1)
      ensures model == old(model)[key := data]
    {
      assert BucketHolds(b);
      var list := bucket[b];
      var existed := ReplaceInList(list, key, data);
      if !existed {
        hashSize := hashSize + 1;
      }
      model := model[key := data];
      view := view[b := EraseKey(view[b], key) + [Entry(key, data)]];
      repr := repr + list.repr;
      assert BucketHolds(b);
      OthersFrame(b);
    }

    /** When only the objects of bucket `b` changed or are new, every other bucket is as it was. */
    twostate lemma OthersFrame(b: nat)
      requires old(Shape()) && b < bucket.Length == |view| && bucket[b] != null && bucket[b] == old(bucket[b])
      requires this in repr && bucket in repr && old(repr) <= repr && BucketHolds(b)
      requires forall c :: 0 <= c < bucket.Length && c != b ==> bucket[c] == old(bucket[c]) && view[c] == old(view)[c]
      requires bucket[b].repr - old(bucket[b].repr) !! old(repr)
      requires forall o :: o in old(repr) && o !in old(bucket[b].repr) && o != this && o != bucket ==> unchanged(o)
      ensures Shape()
    {
      forall c | 0 <= c < bucket.Length && c != b
        ensures BucketHolds(c) && (bucket[c] != null ==> bucket[c].repr == old(bucket[c].repr))
      {
        assert old(BucketHolds(b)) && old(BucketHolds(c)) && old(Apart(b, c));
        if bucket[c] != null {
          forall o | o in old(bucket[c].repr) ensures unchanged(o) {
            assert o in old(repr) && o !in old(bucket[b].repr) && o != this && o != bucket;
          }
        }
        BucketFrame(c);
      }
      forall c, d | 0 <= c < bucket.Length && 0 <= d < bucket.Length && c != d ensures Apart(c, d) {
        assert old(Apart(c, d)) && old(BucketHolds(c)) && old(BucketHolds(d));
      }
    }

    method Erase(key: K) returns (r: bool)
      requires Valid()
      modifies repr
      ensures Valid() && model == old(model) - {key} && (r <==> key in old(model)) && repr == old(repr)
    {
      var b := hash(key) % bucket.Length;
      assert BucketHolds(b) && FindEntry(view[hash(key) % |view|], key) == InMap(model, key);
      if bucket[b] == null {
        assert model - {key} == model;
        return false;
      }
      var e := FindInList(bucket[b], key);
      if e.None? {
        assert model - {key} == model;
        return false;
      }
      EraseFound(b, key, e.value);
      return true;
    }

    method EraseFound(b: nat, key: K, e: Entry<K, V>)
      requires Valid() && b == hash(key) % bucket.Length && bucket[b] != null && key in model
      requires FindEntry(view[b], key) == Some(e)
      modifies repr
      ensures Valid() && model == old(model) - {key} && repr == old(repr)
    {
      EraseIsRemoval(view, hash, model, key);
      assert (model - {key}).Keys == model.Keys - {key};
      assert |model.Keys - {key}| == |model.Keys| - 1;
      RemoveAt(b, key, e);
    }

    /** The heap side of erasing a key. */
    method RemoveAt(b: nat, key: K, e: Entry<K, V>)
      requires Shape() && b < bucket.Length && bucket[b] != null && FindEntry(view[b], key) == Some(e) && hashSize > 0
      modifies repr
      ensures Shape() && repr == old(repr) && view == old(view)[b := EraseKey(old(view)[b], key)]
      ensures hashSize == old(hashSize) - 1 && model == old(model) - {key}
    {
      assert BucketHolds(b);
      var list := bucket[b];
      hashSize := hashSize - 1;
      RemoveEntry(list, key, e);
      view, model := view[b := EraseKey(view[b], key)], model - {key};
      assert BucketHolds(b);
      OthersFrame(b);
    }
  }
}
