/**
 * The embedded ordered key-value store (bbolt) as the core uses it.
 *
 * A bucket holds keys in ascending byte order; each key maps either to a
 * value or to a nested bucket.  The whole store is a map from bucket paths
 * to the sorted items of that bucket; the root (the transaction's top level)
 * is the empty path.  A *bbolt.Bucket handle is a `Handle`: None is Go's nil.
 */
module Bolt {
  import opened Wrappers
  import opened Keys
  import opened Types

  type Path = seq<Key>

  datatype Entry = Val(value: Value) | Sub
  datatype Item = Item(key: Key, entry: Entry)

  type Handle = Option<Path>

  type Buckets = map<Path, seq<Item>>

  // ---------------------------------------------------------------------------
  // Sorted items of one bucket

  ghost predicate Sorted(items: seq<Item>) {
    forall i, j | 0 <= i < j < |items| :: Less(items[i].key, items[j].key)
  }

  ghost function KeySet(items: seq<Item>): set<Key> {
    set i | 0 <= i < |items| :: items[i].key
  }

  lemma KeySetCons(x: Item, items: seq<Item>)
    ensures KeySet([x] + items) == {x.key} + KeySet(items)
  {
    var s := [x] + items;
    forall k | k in KeySet(s) ensures k in {x.key} + KeySet(items) {
      var i :| 0 <= i < |s| && s[i].key == k;
      if i > 0 { assert items[i - 1].key == k; }
    }
    forall k | k in KeySet(items) ensures k in KeySet(s) {
      var i :| 0 <= i < |items| && items[i].key == k;
      assert s[i + 1].key == k;
    }
    assert s[0].key == x.key;
  }

  lemma SortedCons(x: Item, items: seq<Item>)
    requires Sorted(items)
    requires forall k | k in KeySet(items) :: Less(x.key, k)
    ensures Sorted([x] + items)
  {
    var s := [x] + items;
    forall i, j | 0 <= i < j < |s| ensures Less(s[i].key, s[j].key) {
      if i == 0 {
        assert s[j].key == items[j - 1].key;
        assert items[j - 1].key in KeySet(items);
      } else {
        assert s[i] == items[i - 1] && s[j] == items[j - 1];
      }
    }
  }

  lemma SortedTail(items: seq<Item>)
    requires Sorted(items) && items != []
    ensures Sorted(items[1..])
    ensures forall k | k in KeySet(items[1..]) :: Less(items[0].key, k)
  {
    forall k | k in KeySet(items[1..]) ensures Less(items[0].key, k) {
      var i :| 0 <= i < |items[1..]| && items[1..][i].key == k;
      assert items[i + 1].key == k;
    }
  }

  /** bucket.Get over the items: the entry stored under k, if any. */
  function Find(items: seq<Item>, k: Key): (r: Option<Entry>)
    ensures r.Some? ==> Item(k, r.value) in items
    ensures r.None? ==> forall i | 0 <= i < |items| :: items[i].key != k
  {
    if items == [] then None
    else if items[0].key == k then Some(items[0].entry)
    else
      var r := Find(items[1..], k);
      assert r.Some? ==> Item(k, r.value) in items[1..];
      r
  }

  lemma FindKeySet(items: seq<Item>, k: Key)
    ensures Find(items, k).Some? <==> k in KeySet(items)
  {
    if Find(items, k).Some? {
      var i :| 0 <= i < |items| && items[i] == Item(k, Find(items, k).value);
    }
  }

  lemma FindSorted(items: seq<Item>, i: nat)
    requires Sorted(items) && i < |items|
    ensures Find(items, items[i].key) == Some(items[i].entry)
  {
    if i > 0 {
      LessIrreflexive(items[i].key);
      SortedTail(items);
      FindSorted(items[1..], i - 1);
      assert items[1..][i - 1] == items[i];
    }
  }

  /** Insert or replace k in a sorted bucket, as bucket.Put does. */
  function Upsert(items: seq<Item>, k: Key, e: Entry): (r: seq<Item>)
    requires Sorted(items)
    ensures Sorted(r)
    ensures KeySet(r) == KeySet(items) + {k}
    ensures Find(r, k) == Some(e)
    ensures forall k' | k' != k :: Find(r, k') == Find(items, k')
    decreases |items|
  {
    if items == [] then
      KeySetCons(Item(k, e), []);
      [Item(k, e)]
    else
      var head, tail := items[0], items[1..];
      assert items == [head] + tail;
      KeySetCons(head, tail);
      SortedTail(items);
      if head.key == k then
        KeySetCons(Item(k, e), tail);
        SortedCons(Item(k, e), tail);
        [Item(k, e)] + tail
      else if Less(k, head.key) then
        KeySetCons(Item(k, e), items);
        forall k' | k' in KeySet(items) ensures Less(k, k') {
          if k' != head.key { LessTransitive(k, head.key, k'); }
        }
        SortedCons(Item(k, e), items);
        [Item(k, e)] + items
      else
        LessTotal(k, head.key);
        var rest := Upsert(tail, k, e);
        KeySetCons(head, rest);
        SortedCons(head, rest);
        [head] + rest
  }

  /** Put on the first key of a bucket replaces the first item. */
  lemma UpsertAt(items: seq<Item>, e: Entry)
    requires Sorted(items) && items != []
    ensures Upsert(items, items[0].key, e) == [Item(items[0].key, e)] + items[1..]
  {
  }

  /** Put on a key past the first one leaves the first item in front. */
  lemma UpsertAfter(items: seq<Item>, k: Key, e: Entry)
    requires Sorted(items) && items != [] && Less(items[0].key, k)
    ensures Sorted(items[1..])
    ensures Upsert(items, k, e) == [items[0]] + Upsert(items[1..], k, e)
  {
    LessIrreflexive(k);
    LessAsymmetric(k, items[0].key);
    SortedTail(items);
  }

  /** Put on a key the bucket already holds replaces that item where it is. */
  lemma {:induction false} UpsertInPlace(items: seq<Item>, i: nat, e: Entry)
    requires Sorted(items) && i < |items|
    ensures Upsert(items, items[i].key, e) == items[i := Item(items[i].key, e)]
    decreases |items|
  {
    var k := items[i].key;
    if i == 0 {
      UpsertAt(items, e);
      assert items[0 := Item(k, e)] == [Item(k, e)] + items[1..];
    } else {
      UpsertAfter(items, k, e);
      assert items[1..][i - 1] == items[i];
      UpsertInPlace(items[1..], i - 1, e);
      UpdateTail(items, i, Item(k, e));
    }
  }

  /** Updating past the head of a sequence updates its tail. */
  lemma UpdateTail<T>(s: seq<T>, i: nat, x: T)
    requires 0 < i < |s|
    ensures s[i := x] == [s[0]] + s[1..][i - 1 := x]
  {
  }

  /** Remove k from a bucket, as bucket.Delete does (a missing key is no error). */
  function Remove(items: seq<Item>, k: Key): (r: seq<Item>)
    requires Sorted(items)
    ensures Sorted(r)
    ensures KeySet(r) == KeySet(items) - {k}
    ensures Find(r, k) == None
    ensures forall k' | k' != k :: Find(r, k') == Find(items, k')
    ensures |r| <= |items|
    decreases |items|
  {
    if items == [] then []
    else
      var head, tail := items[0], items[1..];
      assert items == [head] + tail;
      KeySetCons(head, tail);
      SortedTail(items);
      var rest := Remove(tail, k);
      if head.key == k then
        rest
      else
        KeySetCons(head, rest);
        SortedCons(head, rest);
        [head] + rest
  }

  /** Removing the smallest key of a sorted bucket leaves its tail. */
  lemma RemoveFirst(items: seq<Item>)
    requires Sorted(items) && items != []
    ensures Remove(items, items[0].key) == items[1..]
  {
    SortedTail(items);
    LessIrreflexive(items[0].key);
    RemoveAbsent(items[1..], items[0].key);
  }

  lemma {:induction false} RemoveAbsent(items: seq<Item>, k: Key)
    requires Sorted(items) && k !in KeySet(items)
    ensures Remove(items, k) == items
    decreases |items|
  {
    if items != [] {
      KeySetCons(items[0], items[1..]);
      assert items == [items[0]] + items[1..];
      SortedTail(items);
      RemoveAbsent(items[1..], k);
    }
  }

  /** cursor.Seek(k): the position of the first key >= k. */
  function Seek(items: seq<Item>, k: Key): (i: nat)
    ensures i <= |items|
    ensures forall j | 0 <= j < i :: Less(items[j].key, k)
    ensures i < |items| ==> !Less(items[i].key, k)
  {
    if items == [] || !Less(items[0].key, k) then 0
    else 1 + Seek(items[1..], k)
  }

  /** In a sorted bucket every key from the Seek position on is >= k. */
  lemma SeekSorted(items: seq<Item>, k: Key, j: nat)
    requires Sorted(items) && Seek(items, k) <= j < |items|
    ensures LessEq(k, items[j].key)
  {
    var i := Seek(items, k);
    NotLessEq(k, items[i].key);
    if i < j {
      NotLessEq(k, items[j].key);
      if Less(items[j].key, k) {
        LessTransitive(items[i].key, items[j].key, k);
      }
    }
  }

  /** k is stored in the bucket as a value (not as a nested bucket). */
  predicate HoldsValue(items: seq<Item>, k: Key) {
    Find(items, k).Some? && Find(items, k).value.Val?
  }

  /** A name that is present and not a nested bucket holds a value. */
  lemma FoundValue(items: seq<Item>, k: Key)
    requires Find(items, k).Some? && Find(items, k) != Some(Sub)
    ensures HoldsValue(items, k)
  {
  }

  // ---------------------------------------------------------------------------
  // The bucket tree

  function Parent(p: Path): Path
    requires p != []
  {
    p[..|p| - 1]
  }

  function Last(p: Path): Key
    requires p != []
  {
    p[|p| - 1]
  }

  lemma ChildPath(p: Path, k: Key)
    ensures p + [k] != [] && Parent(p + [k]) == p && Last(p + [k]) == k
  {
    assert (p + [k])[..|p|] == p;
  }

  /** Growing a prefix of a path by its next name. */
  lemma PrefixStep(path: Path, i: nat)
    requires i < |path|
    ensures path[..i] + [path[i]] == path[..i + 1]
  {
  }

  /** The empty and the full prefix of a path. */
  lemma PrefixEnds(path: Path)
    ensures path[..0] == [] && path[..|path|] == path
  {
  }

  /** A later update of the same bucket hides the earlier one. */
  lemma UpdateTwice(bs: Buckets, p: Path, a: seq<Item>, b: seq<Item>)
    ensures bs[p := a][p := b] == bs[p := b]
  {
  }

  /** A two-name path is its first name's child. */
  lemma PairPath(a: Key, b: Key)
    ensures [a] + [b] == [a, b] && Parent([a, b]) == [a] && Last([a, b]) == b && [a, b][..1] == [a]
  {
  }

  /** A prefix of a path's parent is the prefix of the path. */
  lemma ParentPrefix(path: Path, i: nat)
    requires i < |path|
    ensures Parent(path)[..i] == path[..i] && path[..|path| - 1] == Parent(path)
  {
  }

  /**
   * The invariant of the store: the root exists, every bucket is sorted and
   * every nested-bucket entry has its bucket.  Entries of the map that no
   * path of nested-bucket entries reaches are unobservable.
   */
  ghost predicate WellFormed(bs: Buckets) {
    && [] in bs
    && (forall p | p in bs :: Sorted(bs[p]))
    && (forall p, k | p in bs && Find(bs[p], k) == Some(Sub) :: p + [k] in bs)
  }

  /** The bucket p exists: each name along p is a nested bucket of the one before. */
  predicate Reach(bs: Buckets, p: Path)
    decreases |p|
  {
    p == [] || (Reach(bs, Parent(p)) && Parent(p) in bs && Find(bs[Parent(p)], Last(p)) == Some(Sub))
  }

  lemma {:induction false} ReachIn(bs: Buckets, p: Path)
    requires WellFormed(bs) && Reach(bs, p)
    ensures p in bs
  {
    if p != [] {
      ParentLast(p);
      assert Parent(p) in bs && Find(bs[Parent(p)], Last(p)) == Some(Sub);
    }
  }

  lemma ParentLast(p: Path)
    requires p != []
    ensures Parent(p) + [Last(p)] == p
  {
  }

  lemma ReachChild(bs: Buckets, p: Path, k: Key)
    requires p in bs
    ensures Reach(bs, p + [k]) <==> Reach(bs, p) && Find(bs[p], k) == Some(Sub)
  {
    ChildPath(p, k);
  }

  /** Every prefix of an existing bucket exists. */
  lemma {:induction false} ReachPrefix(bs: Buckets, p: Path, i: nat)
    requires Reach(bs, p) && i <= |p|
    ensures Reach(bs, p[..i])
    decreases |p| - i
  {
    if i < |p| {
      ReachPrefix(bs, Parent(p), i);
      assert Parent(p)[..i] == p[..i];
    } else {
      assert p[..i] == p;
    }
  }

  /** Two stores that agree on the nested-bucket entries of every bucket agree on Reach. */
  ghost predicate SameLinks(bs: Buckets, bs': Buckets) {
    && (forall q | q in bs :: q in bs')
    && (forall q, k | q in bs :: (Find(bs[q], k) == Some(Sub)) == (Find(bs'[q], k) == Some(Sub)))
  }

  lemma {:induction false} ReachSameLinks(bs: Buckets, bs': Buckets, p: Path)
    requires SameLinks(bs, bs') && Reach(bs, p)
    ensures Reach(bs', p)
  {
    if p != [] {
      ReachSameLinks(bs, bs', Parent(p));
    }
  }

  lemma PutPreserves(bs: Buckets, p: Path, k: Key, v: Value)
    requires WellFormed(bs) && p in bs && Find(bs[p], k) != Some(Sub)
    ensures WellFormed(bs[p := Upsert(bs[p], k, Val(v))])
    ensures SameLinks(bs, bs[p := Upsert(bs[p], k, Val(v))])
  {
  }

  lemma RemovePreserves(bs: Buckets, p: Path, k: Key)
    requires WellFormed(bs) && p in bs && Find(bs[p], k) != Some(Sub)
    ensures WellFormed(bs[p := Remove(bs[p], k)])
    ensures SameLinks(bs, bs[p := Remove(bs[p], k)])
  {
  }

  /** The store after CreateBucketIfNotExists(name) succeeds in bucket p. */
  function Ensured(bs: Buckets, p: Path, name: Key): (r: Buckets)
    requires WellFormed(bs) && p in bs && !HoldsValue(bs[p], name)
    ensures WellFormed(r) && p in r && p + [name] in r
    ensures Find(r[p], name) == Some(Sub)
    ensures forall k | k != name :: Find(r[p], k) == Find(bs[p], k)
    ensures forall q | q in bs :: q in r
  {
    if Find(bs[p], name) == Some(Sub) then bs
    else
      var r := bs[p := Upsert(bs[p], name, Sub)][p + [name] := []];
      assert p + [name] != p by { assert |p + [name]| != |p|; }
      r
  }

  /** A bucket that existed before Ensured, other than p, keeps its items. */
  lemma EnsuredKeeps(bs: Buckets, p: Path, name: Key, q: Path)
    requires WellFormed(bs) && p in bs && !HoldsValue(bs[p], name)
    requires q in bs && Reach(bs, q) && q != p
    ensures Ensured(bs, p, name)[q] == bs[q]
  {
    if Find(bs[p], name) != Some(Sub) {
      var c := p + [name];
      assert q != c by {
        ReachChild(bs, p, name);
      }
      var u := bs[p := Upsert(bs[p], name, Sub)];
      assert Ensured(bs, p, name) == u[c := []];
      assert u[c := []][q] == u[q];
      assert u[q] == bs[q];
    }
  }

  /** A bucket that existed before Ensured still exists. */
  lemma {:induction false} EnsuredLinks(bs: Buckets, p: Path, name: Key, q: Path)
    requires WellFormed(bs) && p in bs && !HoldsValue(bs[p], name)
    requires Reach(bs, q)
    ensures Reach(Ensured(bs, p, name), q)
  {
    var r := Ensured(bs, p, name);
    if q != [] && Find(bs[p], name) != Some(Sub) {
      EnsuredLinks(bs, p, name, Parent(q));
      ReachIn(bs, Parent(q));
      if Parent(q) != p {
        EnsuredKeeps(bs, p, name, Parent(q));
      } else {
        assert Last(q) != name;
      }
    }
  }

  /** After Ensured the child exists, and it is empty when it was made here. */
  lemma EnsuredChild(bs: Buckets, p: Path, name: Key)
    requires WellFormed(bs) && p in bs && Reach(bs, p) && !HoldsValue(bs[p], name)
    ensures Reach(Ensured(bs, p, name), p + [name])
    ensures Find(bs[p], name) != Some(Sub) ==> Ensured(bs, p, name)[p + [name]] == []
  {
    EnsuredLinks(bs, p, name, p);
    ReachChild(Ensured(bs, p, name), p, name);
  }

  /** The store after DeleteBucket(name) succeeds in bucket p. */
  function Detached(bs: Buckets, p: Path, name: Key): (r: Buckets)
    requires WellFormed(bs) && p in bs && Find(bs[p], name) == Some(Sub)
    ensures WellFormed(r) && p in r && r[p] == Remove(bs[p], name)
    ensures forall q | q in bs && q != p && q != p + [name] :: q in r && r[q] == bs[q]
  {
    ChildPath(p, name);
    assert p + [name] != p by { assert |p + [name]| != |p|; }
    var r := (bs - {p + [name]})[p := Remove(bs[p], name)];
    forall q, k | q in r && Find(r[q], k) == Some(Sub) ensures q + [k] in r {
      ChildPath(q, k);
    }
    r
  }

  // ---------------------------------------------------------------------------
  // The store object

  class DB {
    var buckets: Buckets

    ghost predicate Valid()
      reads this
    {
      WellFormed(buckets)
    }

    /** A handle of this store: nil or a bucket that exists. */
    ghost predicate Live(h: Handle)
      reads this
    {
      h.Some? ==> h.value in buckets && Reach(buckets, h.value)
    }

    /** An empty store: only the root. */
    constructor ()
      ensures Valid() && buckets == map[[] := []]
    {
      buckets := map[[] := []];
    }

    /** tx.Bucket(name): the top-level bucket, or nil. */
    function RootBucket(name: Key): (h: Handle)
      reads this
      requires Valid()
      ensures Live(h)
      ensures h.Some? <==> Reach(buckets, [name])
      ensures h.Some? ==> h.value == [name]
    {
      ChildPath([], name);
      assert [] + [name] == [name];
      if Find(buckets[[]], name) == Some(Sub) then Some([name]) else None
    }

    /** bucket.Bucket(name): the nested bucket, or nil; on a nil bucket Go panics. */
    function Bucket(h: Handle, name: Key): (r: Result<Handle, Error>)
      reads this
      requires Valid() && Live(h)
      ensures r.Failure? <==> h.None?
      ensures r.Failure? ==> r.error == Panic
      ensures r.Success? ==> Live(r.value)
      ensures r.Success? ==> (r.value.Some? <==> Reach(buckets, h.value + [name]))
      ensures r.Success? && r.value.Some? ==> r.value.value == h.value + [name]
    {
      if h.None? then Failure(Panic)
      else
        ChildPath(h.value, name);
        if Find(buckets[h.value], name) == Some(Sub) then Success(Some(h.value + [name])) else Success(None)
    }

    /** bucket.Get(key): the value, or nil when the key is missing or names a nested bucket. */
    function Get(h: Handle, key: Key): (r: Result<Option<Value>, Error>)
      reads this
      requires Valid() && Live(h)
      ensures r.Failure? <==> h.None?
      ensures r.Failure? ==> r.error == Panic
      ensures r.Success? ==> (r.value.Some? <==> HoldsValue(buckets[h.value], key))
      ensures r.Success? && r.value.Some? ==> Find(buckets[h.value], key) == Some(Val(r.value.value))
    {
      if h.None? then Failure(Panic)
      else
        match Find(buckets[h.value], key)
        case Some(Val(v)) => Success(Some(v))
        case _ => Success(None)
    }

    /** bucket.CreateBucketIfNotExists(name); tx.CreateBucketIfNotExists is the root's. */
    method CreateBucketIfNotExists(p: Path, name: Key) returns (r: Result<Path, Error>)
      requires Valid() && Live(Some(p))
      modifies this
      ensures Valid()
      ensures name == [] ==> r == Failure(ErrBucketNameRequired)
      ensures name != [] && old(HoldsValue(buckets[p], name)) ==> r == Failure(ErrIncompatibleValue)
      ensures r.Failure? ==> buckets == old(buckets)
      ensures r.Success? <==> name != [] && !old(HoldsValue(buckets[p], name))
      ensures r.Success? ==> r.value == p + [name] && buckets == Ensured(old(buckets), p, name)
      ensures r.Success? ==> Live(Some(r.value))
    {
      if name == [] {
        return Failure(ErrBucketNameRequired);
      }
      if HoldsValue(buckets[p], name) {
        return Failure(ErrIncompatibleValue);
      }
      EnsuredChild(buckets, p, name);
      buckets := Ensured(buckets, p, name);
      return Success(p + [name]);
    }

    /** bucket.CreateBucket(name): like CreateBucketIfNotExists, but an existing bucket is an error. */
    method CreateBucket(h: Handle, name: Key) returns (r: Result<Path, Error>)
      requires Valid() && Live(h)
      modifies this
      ensures Valid()
      ensures h.None? ==> r == Failure(Panic)
      ensures h.Some? && name == [] ==> r == Failure(ErrBucketNameRequired)
      ensures h.Some? && name != [] && old(Find(buckets[h.value], name)) == Some(Sub) ==> r == Failure(ErrBucketExists)
      ensures h.Some? && name != [] && old(HoldsValue(buckets[h.value], name)) ==> r == Failure(ErrIncompatibleValue)
      ensures r.Failure? ==> buckets == old(buckets)
      ensures r.Success? <==> h.Some? && name != [] && old(Find(buckets[h.value], name)).None?
      ensures r.Success? ==> r.value == h.value + [name] && buckets == Ensured(old(buckets), h.value, name)
      ensures r.Success? ==> Live(Some(r.value)) && buckets[r.value] == []
    {
      if h.None? {
        return Failure(Panic);
      }
      var p := h.value;
      if name == [] {
        return Failure(ErrBucketNameRequired);
      }
      match Find(buckets[p], name) {
        case Some(Sub) =>
          return Failure(ErrBucketExists);
        case Some(Val(_)) =>
          return Failure(ErrIncompatibleValue);
        case None =>
          EnsuredChild(buckets, p, name);
          buckets := Ensured(buckets, p, name);
          return Success(p + [name]);
      }
    }

    /** bucket.Put(key, value). */
    method Put(h: Handle, key: Key, v: Value) returns (err: Option<Error>)
      requires Valid() && Live(h)
      modifies this
      ensures Valid()
      ensures h.None? ==> err == Some(Panic)
      ensures h.Some? && key == [] ==> err == Some(ErrKeyRequired)
      ensures h.Some? && key != [] && old(Find(buckets[h.value], key)) == Some(Sub) ==> err == Some(ErrIncompatibleValue)
      ensures err.Some? ==> buckets == old(buckets)
      ensures err.None? <==> h.Some? && key != [] && old(Find(buckets[h.value], key)) != Some(Sub)
      ensures err.None? ==> buckets == old(buckets)[h.value := Upsert(old(buckets[h.value]), key, Val(v))]
      ensures err.None? ==> SameLinks(old(buckets), buckets)
    {
      if h.None? {
        return Some(Panic);
      }
      var p := h.value;
      if key == [] {
        return Some(ErrKeyRequired);
      }
      if Find(buckets[p], key) == Some(Sub) {
        return Some(ErrIncompatibleValue);
      }
      PutPreserves(buckets, p, key, v);
      buckets := buckets[p := Upsert(buckets[p], key, Val(v))];
      return None;
    }

    /** bucket.Delete(key): a missing key is no error; a nested bucket is. */
    method Delete(h: Handle, key: Key) returns (err: Option<Error>)
      requires Valid() && Live(h)
      modifies this
      ensures Valid()
      ensures h.None? ==> err == Some(Panic)
      ensures err.Some? ==> buckets == old(buckets)
      ensures err.None? <==> h.Some? && old(Find(buckets[h.value], key)) != Some(Sub)
      ensures h.Some? && err.Some? ==> err == Some(ErrIncompatibleValue)
      ensures err.None? ==> buckets == old(buckets)[h.value := Remove(old(buckets[h.value]), key)]
      ensures err.None? ==> SameLinks(old(buckets), buckets)
    {
      if h.None? {
        return Some(Panic);
      }
      var p := h.value;
      if Find(buckets[p], key) == Some(Sub) {
        return Some(ErrIncompatibleValue);
      }
      RemovePreserves(buckets, p, key);
      buckets := buckets[p := Remove(buckets[p], key)];
      return None;
    }

    /** bucket.DeleteBucket(name): the nested bucket and everything below it disappear. */
    method DeleteBucket(h: Handle, name: Key) returns (err: Option<Error>)
      requires Valid() && Live(h)
      modifies this
      ensures Valid()
      ensures h.None? ==> err == Some(Panic)
      ensures h.Some? && old(Find(buckets[h.value], name)).None? ==> err == Some(ErrBucketNotFound)
      ensures h.Some? && old(HoldsValue(buckets[h.value], name)) ==> err == Some(ErrIncompatibleValue)
      ensures err.Some? ==> buckets == old(buckets)
      ensures err.None? <==> h.Some? && old(Find(buckets[h.value], name)) == Some(Sub)
      ensures err.None? ==> buckets == Detached(old(buckets), h.value, name)
      ensures err.None? ==> !Reach(buckets, h.value + [name])
    {
      if h.None? {
        return Some(Panic);
      }
      var p := h.value;
      match Find(buckets[p], name) {
        case None =>
          return Some(ErrBucketNotFound);
        case Some(Val(_)) =>
          return Some(ErrIncompatibleValue);
        case Some(Sub) =>
          buckets := Detached(buckets, p, name);
          ReachChild(buckets, p, name);
          return None;
      }
    }
  }
}
