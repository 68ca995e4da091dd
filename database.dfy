/**
 * The monitoring store of database.go over the bucket model of Bolt.
 *
 * Every exported operation runs in its own transaction: db.View for readers,
 * db.Update for writers.  A writer that returns an error (or panics) rolls
 * back, which the methods below express by restoring the snapshot taken at
 * the start.  A Go panic (a method called on a nil *bbolt.Bucket, or an index
 * out of range) is the error Panic.
 */
module Database {
  import opened Wrappers
  import opened Keys
  import opened Clock
  import opened Types
  import opened Bolt

  const StatusBucket: Key := "status"
  const HistoryBucket: Key := "history"
  const MonitorsBucket: Key := "monitors"
  const UsersBucket: Key := "users"
  const NotifyBucket: Key := "notify"
  const TypeKey: Key := "type"
  const DataKey: Key := "data"

  /** The value stored under key k, or nil (missing key or nested bucket). */
  function ValueAt(items: seq<Item>, k: Key): (r: Option<Value>)
    ensures r.Some? <==> HoldsValue(items, k)
    ensures r.Some? ==> Find(items, k) == Some(Val(r.value))
  {
    match Find(items, k)
    case Some(Val(v)) => Some(v)
    case _ => None
  }

  // ---------------------------------------------------------------------------
  // getBucket

  /**
   * What getBucket(path) yields: indexing an empty path panics, and so does
   * calling Bucket on the nil that a missing intermediate bucket gives;
   * otherwise the bucket at the path, or nil.
   */
  function BucketAt(bs: Buckets, path: Path): Result<Handle, Error> {
    if path == [] || (|path| >= 2 && !Reach(bs, Parent(path))) then Failure(Panic)
    else if Reach(bs, path) then Success(Some(path))
    else Success(None)
  }

  method GetBucket(db: DB, path: Path) returns (r: Result<Handle, Error>)
    requires db.Valid()
    ensures r == BucketAt(db.buckets, path)
    ensures r.Success? ==> db.Live(r.value)
  {
    if path == [] {
      return Failure(Panic);
    }
    var bucket := db.RootBucket(path[0]);
    PrefixStep(path, 0);
    var i := 1;
    while i < |path|
      invariant 1 <= i <= |path|
      invariant db.Live(bucket)
      invariant bucket == (if Reach(db.buckets, path[..i]) then Some(path[..i]) else None)
      invariant i >= 2 ==> Reach(db.buckets, path[..i - 1])
    {
      var next := db.Bucket(bucket, path[i]);
      PrefixStep(path, i);
      if next.Failure? {
        if Reach(db.buckets, Parent(path)) {
          ParentPrefix(path, i);
          ReachPrefix(db.buckets, Parent(path), i);
        }
        return Failure(Panic);
      }
      bucket := next.value;
      i := i + 1;
    }
    PrefixEnds(path);
    if i >= 2 { ParentPrefix(path, i - 1); }
    return Success(bucket);
  }

  /** getBucket panics exactly when the path is empty or one of its proper prefixes is missing. */
  lemma BucketAtMeaning(bs: Buckets, path: Path)
    ensures BucketAt(bs, path).Failure? <==> path == [] || exists i | 1 <= i < |path| :: !Reach(bs, path[..i])
  {
    if path != [] && BucketAt(bs, path).Failure? {
      ParentPrefix(path, 0);
    } else if path != [] {
      forall i | 1 <= i < |path| ensures Reach(bs, path[..i]) {
        ReachPrefix(bs, Parent(path), i);
        ParentPrefix(path, i);
      }
    }
  }

  // ---------------------------------------------------------------------------
  // createBucket

  /**
   * createBucket's walk: from bucket p = names[..i], CreateBucketIfNotExists
   * each remaining name; the walk stops (nil) at the first error, and buckets
   * made before the error stay in the transaction.
   */
  function EnsurePath(bs: Buckets, p: Path, names: Path, i: nat): (r: (Buckets, Option<Path>))
    requires WellFormed(bs) && p in bs && Reach(bs, p) && i <= |names|
    ensures WellFormed(r.0)
    ensures r.1.Some? ==> r.1.value in r.0 && Reach(r.0, r.1.value)
    decreases |names| - i
  {
    if i == |names| then (bs, Some(p))
    else if names[i] == [] || HoldsValue(bs[p], names[i]) then (bs, None)
    else
      EnsuredChild(bs, p, names[i]);
      EnsurePath(Ensured(bs, p, names[i]), p + [names[i]], names, i + 1)
  }

  /** The walk started at names[..i] ends, when it succeeds, at names. */
  lemma {:induction false} EnsurePathTarget(bs: Buckets, p: Path, names: Path, i: nat)
    requires WellFormed(bs) && p in bs && Reach(bs, p) && i <= |names| && p == names[..i]
    ensures EnsurePath(bs, p, names, i).1.Some? ==> EnsurePath(bs, p, names, i).1.value == names
    decreases |names| - i
  {
    if i == |names| {
      PrefixEnds(names);
    } else if names[i] != [] && !HoldsValue(bs[p], names[i]) {
      EnsuredChild(bs, p, names[i]);
      PrefixStep(names, i);
      EnsurePathTarget(Ensured(bs, p, names[i]), p + [names[i]], names, i + 1);
    }
  }

  /** q is a proper prefix of t. */
  predicate Above(q: Path, t: Path) {
    |q| < |t| && t[..|q|] == q
  }

  /**
   * createBucket only adds: an existing bucket survives, keeps its values, and
   * keeps all its items unless it lies above the target.
   */
  lemma {:induction false} EnsurePathKeeps(bs: Buckets, p: Path, names: Path, i: nat, q: Path)
    requires WellFormed(bs) && p in bs && Reach(bs, p) && i <= |names| && p == names[..i]
    requires q in bs && Reach(bs, q)
    ensures var r := EnsurePath(bs, p, names, i).0;
            && q in r && Reach(r, q)
            && (forall k | HoldsValue(bs[q], k) :: Find(r[q], k) == Find(bs[q], k))
            && (!Above(q, names) ==> r[q] == bs[q])
    decreases |names| - i
  {
    if i < |names| && names[i] != [] && !HoldsValue(bs[p], names[i]) {
      var name := names[i];
      var bs' := Ensured(bs, p, name);
      EnsuredChild(bs, p, name);
      EnsuredLinks(bs, p, name, q);
      if q != p {
        EnsuredKeeps(bs, p, name, q);
      }
      PrefixStep(names, i);
      EnsurePathKeeps(bs', p + [name], names, i + 1, q);
      var r := EnsurePath(bs', p + [name], names, i + 1).0;
      forall k | HoldsValue(bs[q], k)
        ensures Find(r[q], k) == Find(bs[q], k)
      {
        assert Find(bs'[q], k) == Find(bs[q], k);
        assert HoldsValue(bs'[q], k);
      }
    }
  }

  /** A bucket that createBucket makes is empty. */
  lemma {:induction false} EnsurePathFresh(bs: Buckets, p: Path, names: Path, i: nat)
    requires WellFormed(bs) && p in bs && Reach(bs, p) && i <= |names| && p == names[..i]
    requires EnsurePath(bs, p, names, i).1.Some? && !Reach(bs, names)
    ensures names in EnsurePath(bs, p, names, i).0
    ensures EnsurePath(bs, p, names, i).0[names] == []
    decreases |names| - i
  {
    EnsurePathTarget(bs, p, names, i);
    if i == |names| {
      PrefixEnds(names);
      assert false;
    } else {
      var name := names[i];
      var c := p + [name];
      PrefixStep(names, i);
      var bs' := Ensured(bs, p, name);
      EnsuredChild(bs, p, name);
      if Find(bs[p], name) == Some(Sub) {
        EnsurePathFresh(bs, c, names, i + 1);
      } else if i + 1 == |names| {
        PrefixEnds(names);
      } else {
        if Reach(bs', names) {
          PrefixStep(names, i + 1);
          ReachChild(bs', c, names[i + 1]);
          ReachPrefix(bs', names, i + 2);
          assert false;
        }
        EnsurePathFresh(bs', c, names, i + 1);
      }
    }
  }

  /** The store and the bucket after createBucket(path) for a non-empty path. */
  function Prepared(bs: Buckets, path: Path): (r: (Buckets, Option<Path>))
    requires WellFormed(bs)
    ensures WellFormed(r.0)
    ensures r.1.Some? ==> r.1.value == path && path in r.0 && Reach(r.0, path)
  {
    PrefixEnds(path);
    EnsurePathTarget(bs, [], path, 0);
    EnsurePath(bs, [], path, 0)
  }

  /**
   * createBucket(path): nil for a nil path, a panic for an empty one (path[0]),
   * nil when a step fails, otherwise the bucket at the path.
   */
  method CreateBucket(db: DB, path: Option<Path>) returns (r: Result<Handle, Error>)
    requires db.Valid()
    modifies db
    ensures db.Valid()
    ensures path.None? ==> r == Success(None) && db.buckets == old(db.buckets)
    ensures path == Some([]) ==> r == Failure(Panic) && db.buckets == old(db.buckets)
    ensures path.Some? && path.value != [] ==>
              r == Success(Prepared(old(db.buckets), path.value).1) &&
              db.buckets == Prepared(old(db.buckets), path.value).0
    ensures r.Success? ==> db.Live(r.value)
  {
    if path.None? {
      return Success(None);
    }
    var names := path.value;
    if names == [] {
      return Failure(Panic);
    }
    ghost var goal := EnsurePath(db.buckets, [], names, 0);
    var p: Path := [];
    var i := 0;
    while i < |names|
      invariant 0 <= i <= |names|
      invariant db.Valid() && db.Live(Some(p))
      invariant EnsurePath(db.buckets, p, names, i) == goal
    {
      var step := db.CreateBucketIfNotExists(p, names[i]);
      if step.Failure? {
        return Success(None);
      }
      p := step.value;
      i := i + 1;
    }
    return Success(Some(p));
  }

  /**
   * After createBucket succeeds every bucket along the path exists, and every
   * bucket and value that existed before is still there.
   */
  lemma CreateBucketMeaning(bs: Buckets, path: Path)
    requires WellFormed(bs) && Prepared(bs, path).1.Some?
    ensures forall i | 0 <= i <= |path| :: Reach(Prepared(bs, path).0, path[..i])
    ensures forall q | q in bs && Reach(bs, q) :: q in Prepared(bs, path).0 && Reach(Prepared(bs, path).0, q)
    ensures forall q, k | q in bs && Reach(bs, q) && HoldsValue(bs[q], k) :: Find(Prepared(bs, path).0[q], k) == Find(bs[q], k)
  {
    var r := Prepared(bs, path).0;
    PrefixEnds(path);
    forall i | 0 <= i <= |path| ensures Reach(r, path[..i]) {
      ReachPrefix(r, path, i);
    }
    forall q | q in bs && Reach(bs, q) ensures q in r && Reach(r, q) {
      EnsurePathKeeps(bs, [], path, 0, q);
    }
    forall q, k | q in bs && Reach(bs, q) && HoldsValue(bs[q], k) ensures q in r && Find(r[q], k) == Find(bs[q], k) {
      EnsurePathKeeps(bs, [], path, 0, q);
    }
  }

  // ---------------------------------------------------------------------------
  // getKey, keyExists

  /**
   * What getKey(path) yields: the value at the last name in the bucket at the
   * rest of the path; nil for a missing key or nested bucket; an empty
   * non-nil slice (Blob("")) when that bucket is missing.  A path of fewer
   * than two names panics (indexing in getKey or getBucket).
   */
  function KeyAt(bs: Buckets, path: Path): Result<Option<Value>, Error>
    requires WellFormed(bs)
  {
    if |path| < 2 then Failure(Panic)
    else
      match BucketAt(bs, Parent(path))
      case Failure(e) => Failure(e)
      case Success(None) => Success(Some(Blob("")))
      case Success(Some(p)) => ReachIn(bs, p); Success(ValueAt(bs[p], Last(path)))
  }

  method GetKey(db: DB, path: Path) returns (r: Result<Option<Value>, Error>)
    requires db.Valid()
    ensures r == KeyAt(db.buckets, path)
  {
    if |path| == 0 {
      return Failure(Panic);
    }
    var bucket := GetBucket(db, path[..|path| - 1]);
    if bucket.Failure? {
      return Failure(bucket.error);
    }
    if bucket.value.None? {
      return Success(Some(Blob("")));
    }
    var value := db.Get(bucket.value, Last(path));
    return Success(value.value);
  }

  method KeyExists(db: DB, path: Path) returns (r: Result<bool, Error>)
    requires db.Valid()
    ensures KeyAt(db.buckets, path).Failure? <==> r.Failure?
    ensures r.Success? ==> (r.value <==> KeyAt(db.buckets, path).value.Some?)
  {
    var key := GetKey(db, path);
    if key.Failure? {
      return Failure(key.error);
    }
    return Success(key.value.Some?);
  }

  /**
   * keyExists reports true when the parent bucket is missing (getKey's empty
   * slice is not nil), and false exactly when that bucket exists and the
   * last name holds no value there.
   */
  lemma KeyExistsMeaning(bs: Buckets, path: Path)
    requires WellFormed(bs) && |path| >= 2 && KeyAt(bs, path).Success?
    ensures !Reach(bs, Parent(path)) ==> KeyAt(bs, path).value.Some?
    ensures KeyAt(bs, path).value.None? <==>
              Reach(bs, Parent(path)) && Parent(path) in bs && !HoldsValue(bs[Parent(path)], Last(path))
  {
    if Reach(bs, Parent(path)) { ReachIn(bs, Parent(path)); }
  }

  /** getKey on a two-name path: the empty slice without the bucket, else Get. */
  lemma PairKeyAt(bs: Buckets, a: Key, name: Key)
    requires WellFormed(bs)
    ensures !Reach(bs, [a]) ==> KeyAt(bs, [a, name]) == Success(Some(Blob("")))
    ensures Reach(bs, [a]) ==> [a] in bs && KeyAt(bs, [a, name]) == Success(ValueAt(bs[[a]], name))
  {
    PairPath(a, name);
    if Reach(bs, [a]) { ReachIn(bs, [a]); }
  }

  // ---------------------------------------------------------------------------
  // addKey

  /**
   * addKey(name, path, value): createBucket(path) then Put on the bucket it
   * returns (a panic when that is nil), all in one transaction.
   */
  function Added(bs: Buckets, name: Key, path: Option<Path>, v: Value): (r: Result<Buckets, Error>)
    requires WellFormed(bs)
    ensures r.Success? ==> WellFormed(r.value)
  {
    if path.None? || path == Some([]) then Failure(Panic)
    else
      var (mid, bucket) := Prepared(bs, path.value);
      if bucket.None? then Failure(Panic)
      else if name == [] then Failure(ErrKeyRequired)
      else if Find(mid[path.value], name) == Some(Sub) then Failure(ErrIncompatibleValue)
      else
        PutPreserves(mid, path.value, name, v);
        Success(mid[path.value := Upsert(mid[path.value], name, Val(v))])
  }

  method AddKey(db: DB, name: Key, path: Option<Path>, v: Value) returns (err: Option<Error>)
    requires db.Valid()
    modifies db
    ensures db.Valid()
    ensures Added(old(db.buckets), name, path, v) == if err.None? then Success(db.buckets) else Failure(err.value)
    ensures err.Some? ==> db.buckets == old(db.buckets)
  {
    var snapshot := db.buckets;
    var bucket := CreateBucket(db, path);
    if bucket.Failure? {
      db.buckets := snapshot;
      return Some(bucket.error);
    }
    err := db.Put(bucket.value, name, v);
    if err.Some? {
      db.buckets := snapshot;
    }
  }

  /**
   * After a successful addKey the key reads back as the value, and every other
   * key of that bucket reads as before (or as missing, for a new bucket).
   */
  lemma AddKeyReadBack(bs: Buckets, name: Key, path: Path, v: Value)
    requires WellFormed(bs) && path != []
    requires Prepared(bs, path).1.Some? && name != [] && Find(Prepared(bs, path).0[path], name) != Some(Sub)
    ensures var mid := Prepared(bs, path).0;
            var after := mid[path := Upsert(mid[path], name, Val(v))];
            && KeyAt(after, path + [name]) == Success(Some(v))
            && forall k | k != name :: Find(after[path], k) == (if path in bs && Reach(bs, path) then Find(bs[path], k) else None)
  {
    var mid := Prepared(bs, path).0;
    PrefixEnds(path);
    if path in bs && Reach(bs, path) {
      EnsurePathKeeps(bs, [], path, 0, path);
    } else {
      if Reach(bs, path) { ReachIn(bs, path); }
      EnsurePathFresh(bs, [], path, 0);
    }
    PutReads(mid, name, path, v);
  }

  /** A Put into a reachable bucket reads back through getKey. */
  lemma PutReads(mid: Buckets, name: Key, path: Path, v: Value)
    requires WellFormed(mid) && path != [] && path in mid && Reach(mid, path)
    requires name != [] && Find(mid[path], name) != Some(Sub)
    ensures WellFormed(mid[path := Upsert(mid[path], name, Val(v))])
    ensures KeyAt(mid[path := Upsert(mid[path], name, Val(v))], path + [name]) == Success(Some(v))
  {
    var after := mid[path := Upsert(mid[path], name, Val(v))];
    PutPreserves(mid, path, name, v);
    ReachSameLinks(mid, after, path);
    ChildPath(path, name);
    if |path| >= 2 {
      ReachPrefix(after, path, |path| - 1);
      ParentPrefix(path, 0);
    }
  }

  /** After a successful addKey the value reads back through getKey. */
  lemma AddedReadBack(bs: Buckets, name: Key, path: Path, v: Value)
    requires WellFormed(bs) && Added(bs, name, Some(path), v).Success?
    ensures KeyAt(Added(bs, name, Some(path), v).value, path + [name]) == Success(Some(v))
  {
    AddKeyReadBack(bs, name, path, v);
  }

  /** addKey keeps every bucket that existed and every value other than the one it writes. */
  lemma AddedKeeps(bs: Buckets, name: Key, path: Path, v: Value, q: Path, k: Key)
    requires WellFormed(bs) && Added(bs, name, Some(path), v).Success?
    requires q in bs && Reach(bs, q) && HoldsValue(bs[q], k) && (q != path || k != name)
    ensures var r := Added(bs, name, Some(path), v).value;
            q in r && Reach(r, q) && Find(r[q], k) == Find(bs[q], k)
  {
    var mid := Prepared(bs, path).0;
    CreateBucketMeaning(bs, path);
    PutPreserves(mid, path, name, v);
    ReachSameLinks(mid, mid[path := Upsert(mid[path], name, Val(v))], q);
  }

  // ---------------------------------------------------------------------------
  // getStatus

  /**
   * getStatus(name): json.Unmarshal of getKey(["status", name]).  A missing
   * bucket (the empty slice), a missing key (nil) and a record of another
   * shape are all rejected, and the zero Status comes back with the error.
   */
  function StatusOf(bs: Buckets, name: Key): (r: (Status, Option<Error>))
    requires WellFormed(bs)
  {
    match KeyAt(bs, [StatusBucket, name])
    case Success(Some(StatusRecord(s))) => (s, None)
    case _ => (EmptyStatus, Some(ErrJson))
  }

  method GetStatus(db: DB, name: Key) returns (status: Status, err: Option<Error>)
    requires db.Valid()
    ensures (status, err) == StatusOf(db.buckets, name)
  {
    var key := GetKey(db, [StatusBucket, name]);
    status := EmptyStatus;
    err := None;
    if key.Success? && key.value.Some? && key.value.value.StatusRecord? {
      status := key.value.value.status;
    } else {
      err := Some(ErrJson);
    }
  }

  /**
   * getStatus succeeds exactly when the status bucket exists and holds a
   * status record under the name, and then returns that record.
   */
  lemma StatusOfMeaning(bs: Buckets, name: Key)
    requires WellFormed(bs)
    ensures StatusOf(bs, name).1.None? <==>
              Reach(bs, [StatusBucket]) && [StatusBucket] in bs && HoldsValue(bs[[StatusBucket]], name) &&
              ValueAt(bs[[StatusBucket]], name).value.StatusRecord?
    ensures StatusOf(bs, name).1.None? ==>
              Find(bs[[StatusBucket]], name) == Some(Val(StatusRecord(StatusOf(bs, name).0)))
    ensures StatusOf(bs, name).1.Some? ==> StatusOf(bs, name) == (EmptyStatus, Some(ErrJson))
  {
    PairPath(StatusBucket, name);
    if Reach(bs, [StatusBucket]) { ReachIn(bs, [StatusBucket]); }
  }

  /** After addKey(name, ["status"], s) the status reads back through getStatus. */
  lemma StatusWriteReads(bs: Buckets, name: Key, s: Status)
    requires WellFormed(bs) && Added(bs, name, Some([StatusBucket]), StatusRecord(s)).Success?
    ensures StatusOf(Added(bs, name, Some([StatusBucket]), StatusRecord(s)).value, name) == (s, None)
  {
    AddedReadBack(bs, name, [StatusBucket], StatusRecord(s));
    StatusRead(Added(bs, name, Some([StatusBucket]), StatusRecord(s)).value, name, s);
  }

  /** A status record under ["status", name] is what getStatus returns. */
  lemma StatusRead(bs: Buckets, name: Key, s: Status)
    requires WellFormed(bs) && KeyAt(bs, [StatusBucket] + [name]) == Success(Some(StatusRecord(s)))
    ensures StatusOf(bs, name) == (s, None)
  {
    assert [StatusBucket] + [name] == [StatusBucket, name];
  }

  /**
   * addKey(key, ["history", name], s) reads back under the key and leaves
   * what getStatus(name) returns as it was.
   */
  lemma HistoryWriteReads(mid: Buckets, name: Key, key: Key, s: Status)
    requires WellFormed(mid) && StatusOf(mid, name) == (s, None)
    requires Added(mid, key, Some([HistoryBucket, name]), StatusRecord(s)).Success?
    ensures var after := Added(mid, key, Some([HistoryBucket, name]), StatusRecord(s)).value;
            && KeyAt(after, [HistoryBucket, name, key]) == Success(Some(StatusRecord(s)))
            && StatusOf(after, name) == (s, None)
  {
    var rec := StatusRecord(s);
    var after := Added(mid, key, Some([HistoryBucket, name]), rec).value;
    AddedReadBack(mid, key, [HistoryBucket, name], rec);
    assert [HistoryBucket, name] + [key] == [HistoryBucket, name, key];
    StatusOfMeaning(mid, name);
    AddedKeeps(mid, key, [HistoryBucket, name], rec, [StatusBucket], name);
    StatusOfMeaning(after, name);
  }

  // ---------------------------------------------------------------------------
  // Single writes on a top-level bucket

  /**
   * tx.Bucket(root).Put(name, v): a nil bucket panics, an empty name is
   * errKeyRequired, a nested bucket under the name errIncompatibleValue;
   * anything else stores v under the name.
   */
  function KeyPut(bs: Buckets, root: Key, name: Key, v: Value): (r: Result<Buckets, Error>)
    requires WellFormed(bs)
    ensures r.Success? ==> WellFormed(r.value) && SameLinks(bs, r.value)
    ensures r.Success? <==> Reach(bs, [root]) && [root] in bs && name != [] && Find(bs[[root]], name) != Some(Sub)
    ensures r.Success? ==> r.value == bs[[root] := Upsert(bs[[root]], name, Val(v))]
  {
    if !Reach(bs, [root]) then Failure(Panic)
    else
      ReachIn(bs, [root]);
      if name == [] then Failure(ErrKeyRequired)
      else if Find(bs[[root]], name) == Some(Sub) then Failure(ErrIncompatibleValue)
      else
        PutPreserves(bs, [root], name, v);
        Success(bs[[root] := Upsert(bs[[root]], name, Val(v))])
  }

  method PutKey(db: DB, root: Key, name: Key, v: Value) returns (err: Option<Error>)
    requires db.Valid()
    modifies db
    ensures db.Valid()
    ensures KeyPut(old(db.buckets), root, name, v).Failure? ==>
              err == Some(KeyPut(old(db.buckets), root, name, v).error) && db.buckets == old(db.buckets)
    ensures KeyPut(old(db.buckets), root, name, v).Success? ==>
              err == None && db.buckets == KeyPut(old(db.buckets), root, name, v).value
  {
    var bucket := db.RootBucket(root);
    err := db.Put(bucket, name, v);
  }

  /** A stored value reads back under its name; every other name of the bucket is untouched. */
  lemma KeyPutReadBack(bs: Buckets, root: Key, name: Key, v: Value)
    requires WellFormed(bs) && KeyPut(bs, root, name, v).Success?
    ensures KeyAt(KeyPut(bs, root, name, v).value, [root, name]) == Success(Some(v))
    ensures forall k | k != name :: KeyAt(KeyPut(bs, root, name, v).value, [root, k]) == KeyAt(bs, [root, k])
  {
    var r := KeyPut(bs, root, name, v).value;
    ReachSameLinks(bs, r, [root]);
    PairKeyAt(r, root, name);
    forall k | k != name ensures KeyAt(r, [root, k]) == KeyAt(bs, [root, k]) {
      PairKeyAt(r, root, k);
      PairKeyAt(bs, root, k);
    }
  }

  /**
   * tx.Bucket(root).CreateBucket(name): a nil bucket panics, an empty name is
   * errBucketNameRequired, an existing bucket errBucketExists, a plain value
   * errIncompatibleValue; otherwise a new, empty nested bucket.
   */
  function BucketCreated(bs: Buckets, root: Key, name: Key): (r: Result<Buckets, Error>)
    requires WellFormed(bs)
    ensures r.Success? ==> WellFormed(r.value) && [root, name] in r.value && r.value[[root, name]] == []
    ensures r.Success? ==> Reach(r.value, [root, name])
    ensures r.Success? <==> Reach(bs, [root]) && [root] in bs && name != [] && Find(bs[[root]], name).None?
  {
    if !Reach(bs, [root]) then Failure(Panic)
    else
      ReachIn(bs, [root]);
      if name == [] then Failure(ErrBucketNameRequired)
      else
        var found := Find(bs[[root]], name);
        if found == Some(Sub) then Failure(ErrBucketExists)
        else if found.Some? then Failure(ErrIncompatibleValue)
        else
          PairPath(root, name);
          EnsuredChild(bs, [root], name);
          Success(Ensured(bs, [root], name))
  }

  method MakeBucket(db: DB, root: Key, name: Key) returns (r: Result<Path, Error>)
    requires db.Valid()
    modifies db
    ensures db.Valid()
    ensures BucketCreated(old(db.buckets), root, name).Failure? ==>
              r == Failure(BucketCreated(old(db.buckets), root, name).error) && db.buckets == old(db.buckets)
    ensures BucketCreated(old(db.buckets), root, name).Success? ==>
              r == Success([root, name]) && db.buckets == BucketCreated(old(db.buckets), root, name).value
  {
    ghost var outcome := BucketCreated(db.buckets, root, name);
    var bucket := db.RootBucket(root);
    PairPath(root, name);
    if bucket.Some? {
      ReachIn(db.buckets, [root]);
      var found := Find(db.buckets[[root]], name);
      if found.Some? && found != Some(Sub) {
        FoundValue(db.buckets[[root]], name);
      }
      r := db.CreateBucket(bucket, name);
      if name == [] {
        assert outcome == Failure(ErrBucketNameRequired);
      } else if found == Some(Sub) {
        assert outcome == Failure(ErrBucketExists);
      } else if found.Some? {
        assert outcome == Failure(ErrIncompatibleValue);
      } else {
        assert outcome.Success?;
      }
    } else {
      r := db.CreateBucket(bucket, name);
      assert outcome == Failure(Panic);
    }
  }

  // ---------------------------------------------------------------------------
  // Single deletions on a top-level bucket

  /**
   * tx.Bucket(root).Delete(name): a nil bucket panics, a nested bucket under
   * that name is errIncompatibleValue, anything else removes the name.
   */
  function KeyDeleted(bs: Buckets, root: Key, name: Key): (r: Result<Buckets, Error>)
    requires WellFormed(bs)
    ensures r.Success? ==> WellFormed(r.value) && SameLinks(bs, r.value)
    ensures r.Success? <==> Reach(bs, [root]) && [root] in bs && Find(bs[[root]], name) != Some(Sub)
    ensures r.Success? ==> r.value == bs[[root] := Remove(bs[[root]], name)]
  {
    if !Reach(bs, [root]) then Failure(Panic)
    else
      ReachIn(bs, [root]);
      if Find(bs[[root]], name) == Some(Sub) then Failure(ErrIncompatibleValue)
      else
        RemovePreserves(bs, [root], name);
        Success(bs[[root] := Remove(bs[[root]], name)])
  }

  method DeleteKey(db: DB, root: Key, name: Key) returns (err: Option<Error>)
    requires db.Valid()
    modifies db
    ensures db.Valid()
    ensures KeyDeleted(old(db.buckets), root, name).Failure? ==>
              err == Some(KeyDeleted(old(db.buckets), root, name).error) && db.buckets == old(db.buckets)
    ensures KeyDeleted(old(db.buckets), root, name).Success? ==>
              err == None && db.buckets == KeyDeleted(old(db.buckets), root, name).value
  {
    var bucket := db.RootBucket(root);
    err := db.Delete(bucket, name);
  }

  /** After a deletion the name reads as absent; every other name of the bucket is untouched. */
  lemma KeyDeletedGone(bs: Buckets, root: Key, name: Key)
    requires WellFormed(bs) && KeyDeleted(bs, root, name).Success?
    ensures KeyAt(KeyDeleted(bs, root, name).value, [root, name]) == Success(None)
    ensures forall k | k != name :: KeyAt(KeyDeleted(bs, root, name).value, [root, k]) == KeyAt(bs, [root, k])
  {
    var r := KeyDeleted(bs, root, name).value;
    ReachSameLinks(bs, r, [root]);
    PairKeyAt(r, root, name);
    forall k | k != name ensures KeyAt(r, [root, k]) == KeyAt(bs, [root, k]) {
      PairKeyAt(r, root, k);
      PairKeyAt(bs, root, k);
    }
  }

  /**
   * tx.Bucket(root).DeleteBucket(name): a nil bucket panics, a missing name is
   * errBucketNotFound, a plain value errIncompatibleValue; otherwise the nested
   * bucket and everything below it go.
   */
  function BucketDropped(bs: Buckets, root: Key, name: Key): (r: Result<Buckets, Error>)
    requires WellFormed(bs)
    ensures r.Success? ==> WellFormed(r.value)
    ensures r.Success? <==> Reach(bs, [root]) && [root] in bs && Find(bs[[root]], name) == Some(Sub)
    ensures r.Success? ==> forall q | q in bs && q != [root] && q != [root, name] :: q in r.value && r.value[q] == bs[q]
  {
    if !Reach(bs, [root]) then Failure(Panic)
    else
      ReachIn(bs, [root]);
      PairPath(root, name);
      match Find(bs[[root]], name)
      case None => Failure(ErrBucketNotFound)
      case Some(Val(_)) => Failure(ErrIncompatibleValue)
      case Some(Sub) => Success(Detached(bs, [root], name))
  }

  method DropBucket(db: DB, root: Key, name: Key) returns (err: Option<Error>)
    requires db.Valid()
    modifies db
    ensures db.Valid()
    ensures BucketDropped(old(db.buckets), root, name).Failure? ==>
              err == Some(BucketDropped(old(db.buckets), root, name).error) && db.buckets == old(db.buckets)
    ensures BucketDropped(old(db.buckets), root, name).Success? ==>
              err == None && db.buckets == BucketDropped(old(db.buckets), root, name).value
  {
    var bucket := db.RootBucket(root);
    err := db.DeleteBucket(bucket, name);
  }

  /** After a successful DeleteBucket the nested bucket is no longer reachable. */
  lemma BucketDroppedGone(bs: Buckets, root: Key, name: Key)
    requires WellFormed(bs) && BucketDropped(bs, root, name).Success?
    ensures [root] in BucketDropped(bs, root, name).value && Find(BucketDropped(bs, root, name).value[[root]], name) == None
    ensures !Reach(BucketDropped(bs, root, name).value, [root, name])
    ensures forall k | k != name :: Find(BucketDropped(bs, root, name).value[[root]], k) == Find(bs[[root]], k)
  {
    var r := BucketDropped(bs, root, name).value;
    PairPath(root, name);
    ReachChild(r, [root], name);
  }
}
