/**
 * The notifier records of database.go.  Bucket `notify` holds one nested
 * bucket per notifier name, with the provider tag under `type` and the
 * provider's settings under `data`.  Monitors refer to notifiers by name in
 * their Notifiers lists.
 */
module Notify {
  import opened Wrappers
  import opened Keys
  import opened Types
  import opened Bolt
  import opened Database
  import opened Monitors

  /** slices.DeleteFunc(l, n == name): l without every occurrence of name. */
  function Without(l: seq<string>, name: string): (r: seq<string>)
    ensures |r| <= |l|
    ensures name !in r
    ensures forall x | x != name :: (x in r <==> x in l)
  {
    if l == [] then []
    else (if l[0] == name then [] else [l[0]]) + Without(l[1..], name)
  }

  /** Removing a name keeps the other names in their order: it distributes over concatenation. */
  lemma {:induction false} WithoutAppend(a: seq<string>, b: seq<string>, name: string)
    ensures Without(a + b, name) == Without(a, name) + Without(b, name)
    decreases |a|
  {
    if a != [] {
      assert (a + b)[0] == a[0] && (a + b)[1..] == a[1..] + b;
      WithoutAppend(a[1..], b, name);
    } else {
      assert a + b == b;
    }
  }

  /** A list without the name is left as it is. */
  lemma {:induction false} WithoutAbsent(l: seq<string>, name: string)
    requires name !in l
    ensures Without(l, name) == l
    decreases |l|
  {
    if l != [] {
      assert l[0] in l;
      assert forall x | x in l[1..] :: x in l;
      WithoutAbsent(l[1..], name);
      assert l == [l[0]] + l[1..];
    }
  }

  /**
   * Every other name keeps its place: what came before it stays before it,
   * what came after stays after.
   */
  lemma WithoutSplit(l: seq<string>, name: string, i: nat)
    requires i < |l| && l[i] != name
    ensures Without(l, name) == Without(l[..i], name) + [l[i]] + Without(l[i + 1..], name)
  {
    assert l == l[..i] + ([l[i]] + l[i + 1..]);
    WithoutAppend(l[..i], [l[i]] + l[i + 1..], name);
    WithoutAppend([l[i]], l[i + 1..], name);
    assert Without([l[i]], name) == [l[i]] + Without([], name);
  }

  /** The monitor removeNotify writes back: its Notifiers without the name. */
  function Strip(m: Monitor, name: string): (r: Monitor)
    ensures r.notifiers == Without(m.notifiers, name)
    ensures r.(notifiers := m.notifiers) == m
  {
    m.(notifiers := Without(m.notifiers, name))
  }

  // ---------------------------------------------------------------------------
  // The nested bucket of one notifier

  /** The provider tag read back: NotifyType of the stored bytes, anything else is no known kind. */
  function KindOf(v: Option<Value>): (k: NotifyKind)
    ensures v.Some? && v.value.KindRecord? ==> k == v.value.kind
    ensures !(v.Some? && v.value.KindRecord?) ==> k == Unknown
  {
    match v
    case Some(KindRecord(k)) => k
    case _ => Unknown
  }

  /**
   * getNotify(name): a missing `notify` bucket or a missing notifier bucket
   * is ErrBucketNotFound; otherwise the tag and the data (nil when unset).
   */
  function NotifyAt(bs: Buckets, name: Key): (r: Result<(NotifyKind, Option<Value>), Error>)
    requires WellFormed(bs)
    ensures r.Failure? <==> !Reach(bs, [NotifyBucket, name])
    ensures r.Failure? ==> r.error == ErrBucketNotFound
  {
    PairPath(NotifyBucket, name);
    if !Reach(bs, [NotifyBucket]) then Failure(ErrBucketNotFound)
    else if !Reach(bs, [NotifyBucket, name]) then Failure(ErrBucketNotFound)
    else
      ReachIn(bs, [NotifyBucket, name]);
      var items := bs[[NotifyBucket, name]];
      Success((KindOf(ValueAt(items, TypeKey)), ValueAt(items, DataKey)))
  }

  /** An existing notifier reads as the tag and data stored in its bucket. */
  lemma NotifyAtMeaning(bs: Buckets, name: Key)
    requires WellFormed(bs) && Reach(bs, [NotifyBucket, name])
    ensures [NotifyBucket, name] in bs
    ensures NotifyAt(bs, name) ==
            Success((KindOf(ValueAt(bs[[NotifyBucket, name]], TypeKey)), ValueAt(bs[[NotifyBucket, name]], DataKey)))
  {
    PairPath(NotifyBucket, name);
    ReachIn(bs, [NotifyBucket, name]);
  }

  method GetNotify(db: DB, name: Key) returns (kind: NotifyKind, data: Option<Value>, err: Option<Error>)
    requires db.Valid()
    ensures NotifyAt(db.buckets, name).Failure? ==> err == Some(ErrBucketNotFound) && kind == Unknown && data == None
    ensures NotifyAt(db.buckets, name).Success? ==> err == None && (kind, data) == NotifyAt(db.buckets, name).value
  {
    kind, data, err := Unknown, None, None;
    var notifications := db.RootBucket(NotifyBucket);
    if notifications.None? {
      err := Some(ErrBucketNotFound);
      return;
    }
    PairPath(NotifyBucket, name);
    var notify := db.Bucket(notifications, name);
    if notify.value.None? {
      err := Some(ErrBucketNotFound);
      return;
    }
    var tag := db.Get(notify.value, TypeKey);
    kind := KindOf(tag.value);
    var stored := db.Get(notify.value, DataKey);
    data := stored.value;
  }

  // ---------------------------------------------------------------------------
  // createNotify

  /**
   * createNotify(name, kind, data): a missing `notify` bucket is
   * ErrBucketNotFound; CreateBucket(name) fails on an empty name, an existing
   * bucket or a plain value; the new bucket gets `type` and then `data`.
   */
  function CreateNotifyOutcome(bs: Buckets, name: Key, kind: NotifyKind, data: Value): (r: Result<Buckets, Error>)
    requires WellFormed(bs)
    ensures r.Success? ==> WellFormed(r.value)
  {
    if !Reach(bs, [NotifyBucket]) then Failure(ErrBucketNotFound)
    else
      match BucketCreated(bs, NotifyBucket, name)
      case Failure(e) => Failure(e)
      case Success(mid) =>
        FilledPreserves(mid, [NotifyBucket, name], kind, data);
        Success(mid[[NotifyBucket, name] := Filled(kind, data)])
  }

  /** The items of a new notifier bucket: `type` put first, then `data`. */
  function Filled(kind: NotifyKind, data: Value): (items: seq<Item>)
    ensures Sorted(items)
    ensures Find(items, TypeKey) == Some(Val(KindRecord(kind))) && Find(items, DataKey) == Some(Val(data))
  {
    Upsert(Upsert([], TypeKey, Val(KindRecord(kind))), DataKey, Val(data))
  }

  /** Filling an empty bucket with the two items keeps the store well formed and every bucket reachable. */
  lemma FilledPreserves(bs: Buckets, p: Path, kind: NotifyKind, data: Value)
    requires WellFormed(bs) && p in bs && bs[p] == []
    ensures WellFormed(bs[p := Filled(kind, data)]) && SameLinks(bs, bs[p := Filled(kind, data)])
  {
    PutPreserves(bs, p, TypeKey, KindRecord(kind));
    var typed := bs[p := Upsert(bs[p], TypeKey, Val(KindRecord(kind)))];
    PutPreserves(typed, p, DataKey, data);
    UpdateTwice(bs, p, typed[p], Filled(kind, data));
  }

  method CreateNotify(db: DB, name: Key, kind: NotifyKind, data: Value) returns (err: Option<Error>)
    requires db.Valid()
    modifies db
    ensures db.Valid()
    ensures CreateNotifyOutcome(old(db.buckets), name, kind, data).Failure? ==>
              err == Some(CreateNotifyOutcome(old(db.buckets), name, kind, data).error) && db.buckets == old(db.buckets)
    ensures CreateNotifyOutcome(old(db.buckets), name, kind, data).Success? ==>
              err == None && db.buckets == CreateNotifyOutcome(old(db.buckets), name, kind, data).value
  {
    var bucket := db.RootBucket(NotifyBucket);
    if bucket.None? {
      return Some(ErrBucketNotFound);
    }
    var created := MakeBucket(db, NotifyBucket, name);
    if created.Failure? {
      return Some(created.error);
    }
    err := FillNotifier(db, created.value, kind, data);
  }

  /** The two Puts on the fresh, empty bucket: its keys are non-empty and free, so neither fails. */
  method FillNotifier(db: DB, p: Path, kind: NotifyKind, data: Value) returns (err: Option<Error>)
    requires db.Valid() && db.Live(Some(p)) && db.buckets[p] == []
    modifies db
    ensures db.Valid() && err == None && db.buckets == old(db.buckets)[p := Filled(kind, data)]
  {
    ghost var start := db.buckets;
    err := db.Put(Some(p), TypeKey, KindRecord(kind));
    if err.None? {
      ReachSameLinks(start, db.buckets, p);
      ghost var typed := db.buckets;
      err := db.Put(Some(p), DataKey, data);
      UpdateTwice(start, p, typed[p], Filled(kind, data));
    }
  }

  /** A created notifier reads back with its tag and data, and a second create of it is ErrBucketExists. */
  lemma CreateReadBack(bs: Buckets, name: Key, kind: NotifyKind, data: Value, kind': NotifyKind, data': Value)
    requires WellFormed(bs) && CreateNotifyOutcome(bs, name, kind, data).Success?
    ensures NotifyAt(CreateNotifyOutcome(bs, name, kind, data).value, name) == Success((kind, Some(data)))
    ensures CreateNotifyOutcome(CreateNotifyOutcome(bs, name, kind, data).value, name, kind', data') == Failure(ErrBucketExists)
  {
    var p := [NotifyBucket, name];
    var mid := BucketCreated(bs, NotifyBucket, name).value;
    var r := CreateNotifyOutcome(bs, name, kind, data).value;
    FilledPreserves(mid, p, kind, data);
    ReachSameLinks(mid, r, p);
    NotifyAtMeaning(r, name);
    PairPath(NotifyBucket, name);
    ReachIn(r, [NotifyBucket]);
    ReachChild(r, [NotifyBucket], name);
  }

  // ---------------------------------------------------------------------------
  // updateNotify

  /**
   * updateNotify(name, kind, data): a missing `notify` bucket or notifier
   * bucket is ErrBucketNotFound; only `data` is rewritten, the kind argument
   * is not stored.
   */
  function UpdateNotifyOutcome(bs: Buckets, name: Key, kind: NotifyKind, data: Value): (r: Result<Buckets, Error>)
    requires WellFormed(bs)
    ensures r.Success? ==> WellFormed(r.value)
    ensures r == Failure(ErrBucketNotFound) <==> !Reach(bs, [NotifyBucket, name])
    ensures r.Success? ==> [NotifyBucket, name] in bs && SameLinks(bs, r.value)
    ensures r.Success? ==> r.value == bs[[NotifyBucket, name] := Upsert(bs[[NotifyBucket, name]], DataKey, Val(data))]
  {
    PairPath(NotifyBucket, name);
    if !Reach(bs, [NotifyBucket]) then Failure(ErrBucketNotFound)
    else if !Reach(bs, [NotifyBucket, name]) then Failure(ErrBucketNotFound)
    else
      var p := [NotifyBucket, name];
      ReachIn(bs, p);
      if Find(bs[p], DataKey) == Some(Sub) then Failure(ErrIncompatibleValue)
      else
        PutPreserves(bs, p, DataKey, data);
        Success(bs[p := Upsert(bs[p], DataKey, Val(data))])
  }

  method UpdateNotify(db: DB, name: Key, kind: NotifyKind, data: Value) returns (err: Option<Error>)
    requires db.Valid()
    modifies db
    ensures db.Valid()
    ensures UpdateNotifyOutcome(old(db.buckets), name, kind, data).Failure? ==>
              err == Some(UpdateNotifyOutcome(old(db.buckets), name, kind, data).error) && db.buckets == old(db.buckets)
    ensures UpdateNotifyOutcome(old(db.buckets), name, kind, data).Success? ==>
              err == None && db.buckets == UpdateNotifyOutcome(old(db.buckets), name, kind, data).value
  {
    var bucket := db.RootBucket(NotifyBucket);
    if bucket.None? {
      return Some(ErrBucketNotFound);
    }
    PairPath(NotifyBucket, name);
    var notify := db.Bucket(bucket, name);
    if notify.value.None? {
      return Some(ErrBucketNotFound);
    }
    err := db.Put(notify.value, DataKey, data);
  }

  /** An update replaces the data and keeps the stored tag, whatever kind it was given. */
  lemma UpdateKeepsKind(bs: Buckets, name: Key, kind: NotifyKind, data: Value)
    requires WellFormed(bs) && UpdateNotifyOutcome(bs, name, kind, data).Success?
    ensures NotifyAt(bs, name).Success?
    ensures NotifyAt(UpdateNotifyOutcome(bs, name, kind, data).value, name) == Success((NotifyAt(bs, name).value.0, Some(data)))
  {
    var r := UpdateNotifyOutcome(bs, name, kind, data).value;
    NotifyAtMeaning(bs, name);
    ReachSameLinks(bs, r, [NotifyBucket, name]);
    NotifyAtMeaning(r, name);
  }

  // ---------------------------------------------------------------------------
  // removeNotify

  /** A monitor entry with the name stripped from its Notifiers; other entries as they are. */
  function Stripped(e: Entry, name: string): Entry {
    if IsMonitorEntry(e) then Val(MonitorRecord(Strip(e.value.monitor, name))) else e
  }

  /** The monitors bucket once the first i entries of the ForEach are rewritten. */
  function StripUpTo(items: seq<Item>, i: nat, name: string): (r: seq<Item>)
    requires i <= |items|
    ensures |r| == |items|
    ensures forall j | 0 <= j < |r| :: r[j].key == items[j].key
    ensures forall j | 0 <= j < |r| :: r[j].entry == if j < i then Stripped(items[j].entry, name) else items[j].entry
    ensures Sorted(items) ==> Sorted(r)
  {
    seq(|items|, j requires 0 <= j < |items| => Item(items[j].key, if j < i then Stripped(items[j].entry, name) else items[j].entry))
  }

  /**
   * The ForEach of removeNotify from entry i on: each entry must decode as a
   * monitor (ErrJson otherwise) and is Put back stripped; the first failure
   * ends the walk.
   */
  function StripFrom(bs: Buckets, items: seq<Item>, i: nat, name: string): (r: Result<Buckets, Error>)
    requires WellFormed(bs) && i <= |items|
    ensures r.Success? ==> WellFormed(r.value)
    decreases |items| - i
  {
    if i == |items| then Success(bs)
    else if !IsMonitorEntry(items[i].entry) then Failure(ErrJson)
    else
      match KeyPut(bs, MonitorsBucket, items[i].key, MonitorRecord(Strip(items[i].entry.value.monitor, name)))
      case Failure(e) => Failure(e)
      case Success(next) => StripFrom(next, items, i + 1, name)
  }

  /**
   * removeNotify(name): a missing `notify` bucket is ErrBucketNotFound, then
   * DeleteBucket(name) and its errors, then ForEach on the `monitors` bucket
   * (a panic when it is nil); any failure rolls everything back.
   */
  function RemoveNotifyOutcome(bs: Buckets, name: Key): (r: Result<Buckets, Error>)
    requires WellFormed(bs)
    ensures r.Success? ==> WellFormed(r.value)
  {
    if !Reach(bs, [NotifyBucket]) then Failure(ErrBucketNotFound)
    else
      match BucketDropped(bs, NotifyBucket, name)
      case Failure(e) => Failure(e)
      case Success(mid) =>
        if !Reach(mid, [MonitorsBucket]) then Failure(Panic)
        else
          ReachIn(mid, [MonitorsBucket]);
          StripFrom(mid, mid[[MonitorsBucket]], 0, name)
  }

  method RemoveNotify(db: DB, name: Key) returns (err: Option<Error>)
    requires db.Valid()
    modifies db
    ensures db.Valid()
    ensures RemoveNotifyOutcome(old(db.buckets), name).Failure? ==>
              err == Some(RemoveNotifyOutcome(old(db.buckets), name).error) && db.buckets == old(db.buckets)
    ensures RemoveNotifyOutcome(old(db.buckets), name).Success? ==>
              err == None && db.buckets == RemoveNotifyOutcome(old(db.buckets), name).value
  {
    var snapshot := db.buckets;
    var bucket := db.RootBucket(NotifyBucket);
    if bucket.None? {
      return Some(ErrBucketNotFound);
    }
    err := DropBucket(db, NotifyBucket, name);
    if err.Some? {
      return;
    }
    var monitors := db.RootBucket(MonitorsBucket);
    if monitors.None? {
      db.buckets := snapshot;
      return Some(Panic);
    }
    err := StripNotifier(db, name);
    if err.Some? {
      db.buckets := snapshot;
    }
  }

  /** The ForEach over bucket `monitors`, putting every record back stripped of the name. */
  method StripNotifier(db: DB, name: Key) returns (err: Option<Error>)
    requires db.Valid() && Reach(db.buckets, [MonitorsBucket])
    modifies db
    ensures db.Valid()
    ensures [MonitorsBucket] in old(db.buckets)
    ensures StripFrom(old(db.buckets), old(db.buckets)[[MonitorsBucket]], 0, name).Failure? ==>
              err == Some(StripFrom(old(db.buckets), old(db.buckets)[[MonitorsBucket]], 0, name).error)
    ensures StripFrom(old(db.buckets), old(db.buckets)[[MonitorsBucket]], 0, name).Success? ==>
              err == None && db.buckets == StripFrom(old(db.buckets), old(db.buckets)[[MonitorsBucket]], 0, name).value
  {
    ReachIn(db.buckets, [MonitorsBucket]);
    var bucket := db.RootBucket(MonitorsBucket);
    var items := db.buckets[[MonitorsBucket]];
    var i := 0;
    while i < |items|
      invariant i <= |items|
      invariant db.Valid() && Reach(db.buckets, [MonitorsBucket]) && db.Live(bucket) && bucket == Some([MonitorsBucket])
      invariant StripFrom(db.buckets, items, i, name) == StripFrom(old(db.buckets), items, 0, name)
      decreases |items| - i
    {
      var entry := items[i].entry;
      if !IsMonitorEntry(entry) {
        return Some(ErrJson);
      }
      ghost var before := db.buckets;
      err := db.Put(bucket, items[i].key, MonitorRecord(Strip(entry.value.monitor, name)));
      if err.Some? {
        return;
      }
      ReachSameLinks(before, db.buckets, [MonitorsBucket]);
      i := i + 1;
    }
    return None;
  }

  /** One step of the walk: the Put of entry i turns the first i stripped entries into i + 1. */
  lemma StripStep(bs: Buckets, items: seq<Item>, i: nat, name: string)
    requires WellFormed(bs) && Reach(bs, [MonitorsBucket]) && [MonitorsBucket] in bs
    requires Sorted(items) && i < |items| && bs[[MonitorsBucket]] == StripUpTo(items, i, name)
    requires IsMonitorEntry(items[i].entry)
    requires KeyPut(bs, MonitorsBucket, items[i].key, MonitorRecord(Strip(items[i].entry.value.monitor, name))).Success?
    ensures KeyPut(bs, MonitorsBucket, items[i].key, MonitorRecord(Strip(items[i].entry.value.monitor, name))).value ==
            bs[[MonitorsBucket] := StripUpTo(items, i + 1, name)]
  {
    var cur := StripUpTo(items, i, name);
    var e := Val(MonitorRecord(Strip(items[i].entry.value.monitor, name)));
    StripUpToNext(items, i, name);
    UpsertInPlace(cur, i, e);
  }

  /** Rewriting entry i of the walk's bucket gives the bucket after i + 1 entries. */
  lemma StripUpToNext(items: seq<Item>, i: nat, name: string)
    requires i < |items| && IsMonitorEntry(items[i].entry)
    ensures StripUpTo(items, i, name)[i].key == items[i].key
    ensures StripUpTo(items, i, name)[i := Item(items[i].key, Val(MonitorRecord(Strip(items[i].entry.value.monitor, name))))] ==
            StripUpTo(items, i + 1, name)
  {
    var e := Val(MonitorRecord(Strip(items[i].entry.value.monitor, name)));
    assert Stripped(items[i].entry, name) == e;
    assert StripUpTo(items, i, name)[i := Item(items[i].key, e)] == StripUpTo(items, i + 1, name);
  }

  /** The walk from entry i, when it succeeds, leaves bucket `monitors` as every entry stripped. */
  lemma {:induction false} StripFromShape(bs: Buckets, items: seq<Item>, i: nat, name: string)
    requires WellFormed(bs) && Reach(bs, [MonitorsBucket]) && [MonitorsBucket] in bs
    requires Sorted(items) && i <= |items| && bs[[MonitorsBucket]] == StripUpTo(items, i, name)
    requires StripFrom(bs, items, i, name).Success?
    ensures StripFrom(bs, items, i, name).value == bs[[MonitorsBucket] := StripUpTo(items, |items|, name)]
    decreases |items| - i
  {
    var m := [MonitorsBucket];
    if i == |items| {
      assert bs[m := StripUpTo(items, |items|, name)] == bs;
    } else {
      var next := bs[m := StripUpTo(items, i + 1, name)];
      StripStep(bs, items, i, name);
      ReachSameLinks(bs, next, m);
      StripFromShape(next, items, i + 1, name);
      UpdateTwice(bs, m, StripUpTo(items, i + 1, name), StripUpTo(items, |items|, name));
    }
  }

  /** Looking a key up in the stripped bucket finds the stripped entry. */
  lemma FindStripped(items: seq<Item>, name: string, k: Key)
    requires Sorted(items)
    ensures Find(StripUpTo(items, |items|, name), k) ==
            if Find(items, k).Some? then Some(Stripped(Find(items, k).value, name)) else None
  {
    var r := StripUpTo(items, |items|, name);
    if j :| 0 <= j < |items| && items[j].key == k {
      FindSorted(items, j);
      FindSorted(r, j);
    } else {
      assert forall j | 0 <= j < |r| :: r[j].key != k;
    }
  }

  /** A store whose root bucket is unchanged agrees on which top-level buckets exist. */
  lemma SameRoot(bs: Buckets, bs': Buckets, a: Key)
    requires [] in bs && [] in bs' && bs[[]] == bs'[[]]
    ensures Reach(bs, [a]) == Reach(bs', [a])
  {
    ChildPath([], a);
    assert [] + [a] == [a];
  }

  /** The store after removeNotify(name): the notifier dropped, then bucket `monitors` stripped. */
  lemma RemoveNotifyShape(bs: Buckets, name: Key)
    requires WellFormed(bs) && RemoveNotifyOutcome(bs, name).Success?
    ensures BucketDropped(bs, NotifyBucket, name).Success?
    ensures var mid := BucketDropped(bs, NotifyBucket, name).value;
            && [MonitorsBucket] in mid && Reach(mid, [MonitorsBucket])
            && [MonitorsBucket] in bs && Reach(bs, [MonitorsBucket])
            && mid[[]] == bs[[]] && mid[[MonitorsBucket]] == bs[[MonitorsBucket]]
            && RemoveNotifyOutcome(bs, name).value ==
               mid[[MonitorsBucket] := StripUpTo(mid[[MonitorsBucket]], |mid[[MonitorsBucket]]|, name)]
  {
    var mid := BucketDropped(bs, NotifyBucket, name).value;
    var m := [MonitorsBucket];
    ReachIn(mid, m);
    var items := mid[m];
    assert StripUpTo(items, 0, name) == items;
    StripFromShape(mid, items, 0, name);
    ReachIn(bs, [NotifyBucket]);
    PairPath(NotifyBucket, name);
    assert [] != [NotifyBucket] && [] != [NotifyBucket, name];
    assert m != [NotifyBucket] && m != [NotifyBucket, name];
    SameRoot(bs, mid, MonitorsBucket);
    ReachIn(bs, m);
  }

  /** After removeNotify(name) the notifier no longer reads. */
  lemma RemoveNotifyGone(bs: Buckets, name: Key)
    requires WellFormed(bs) && RemoveNotifyOutcome(bs, name).Success?
    ensures NotifyAt(RemoveNotifyOutcome(bs, name).value, name) == Failure(ErrBucketNotFound)
  {
    var r := RemoveNotifyOutcome(bs, name).value;
    var mid := BucketDropped(bs, NotifyBucket, name).value;
    RemoveNotifyShape(bs, name);
    BucketDroppedGone(bs, NotifyBucket, name);
    assert r[[NotifyBucket]] == mid[[NotifyBucket]];
    PairPath(NotifyBucket, name);
    ReachChild(r, [NotifyBucket], name);
  }

  /** One monitor name across the strip: the record read back is the old one stripped. */
  lemma MonitorStripped(bs: Buckets, r: Buckets, name: Key, n: Key)
    requires WellFormed(bs) && WellFormed(r) && [] in bs && [] in r && bs[[]] == r[[]]
    requires [MonitorsBucket] in bs && Reach(bs, [MonitorsBucket])
    requires r == bs[[MonitorsBucket] := StripUpTo(bs[[MonitorsBucket]], |bs[[MonitorsBucket]]|, name)]
    ensures MonitorAt(r, n) == (Strip(MonitorAt(bs, n).0, name), MonitorAt(bs, n).1)
  {
    SameRoot(bs, r, MonitorsBucket);
    FindStripped(bs[[MonitorsBucket]], name, n);
  }

  /**
   * After removeNotify(name) every monitor reads as before with the name
   * removed from its Notifiers, the other names kept in their order.
   */
  lemma RemoveNotifyMonitors(bs: Buckets, name: Key)
    requires WellFormed(bs) && RemoveNotifyOutcome(bs, name).Success?
    ensures forall n :: MonitorAt(RemoveNotifyOutcome(bs, name).value, n) == (Strip(MonitorAt(bs, n).0, name), MonitorAt(bs, n).1)
    ensures forall n :: name !in MonitorAt(RemoveNotifyOutcome(bs, name).value, n).0.notifiers
  {
    var r := RemoveNotifyOutcome(bs, name).value;
    var mid := BucketDropped(bs, NotifyBucket, name).value;
    RemoveNotifyShape(bs, name);
    assert r == mid[[MonitorsBucket] := StripUpTo(mid[[MonitorsBucket]], |mid[[MonitorsBucket]]|, name)];
    forall n ensures MonitorAt(r, n) == (Strip(MonitorAt(bs, n).0, name), MonitorAt(bs, n).1) {
      MonitorStripped(mid, r, name, n);
      SameRoot(bs, mid, MonitorsBucket);
    }
  }
}
