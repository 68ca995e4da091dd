/**
 * The monitor records of database.go: listing, reading, saving and removing
 * monitor definitions, deleting a monitor's history, and the summary the
 * dashboard shows for every monitor.
 *
 * Monitor definitions live in bucket `monitors` under their names.
 */
module Monitors {
  import opened Wrappers
  import opened Keys
  import opened Clock
  import opened Types
  import opened Bolt
  import opened Database
  import opened History

  /** An entry json.Unmarshal accepts as a Monitor (a nested bucket reads as nil). */
  predicate IsMonitorEntry(e: Entry) {
    e.Val? && e.value.MonitorRecord?
  }

  // ---------------------------------------------------------------------------
  // getMonitors

  /**
   * The ForEach of getMonitors from entry i on: the records in key order,
   * stopping with the error at the first entry that does not decode.
   */
  function RecordsFrom(items: seq<Item>, i: nat): (r: (seq<Monitor>, Option<Error>))
    requires i <= |items|
    ensures r.1.None? || r.1 == Some(ErrJson)
    ensures |r.0| <= |items| - i
    ensures forall m | 0 <= m < |r.0| :: items[i + m].entry == Val(MonitorRecord(r.0[m]))
    ensures r.1.None? <==> forall m | i <= m < |items| :: IsMonitorEntry(items[m].entry)
    ensures r.1.None? ==> |r.0| == |items| - i
    ensures r.1.Some? ==> i + |r.0| < |items| && !IsMonitorEntry(items[i + |r.0|].entry)
    decreases |items| - i
  {
    if i == |items| then ([], None)
    else if !IsMonitorEntry(items[i].entry) then ([], Some(ErrJson))
    else
      var rest := RecordsFrom(items, i + 1);
      ([items[i].entry.value.monitor] + rest.0, rest.1)
  }

  /**
   * getMonitors(): ForEach on the nil bucket panics when `monitors` is
   * missing; otherwise every record in name order, or those before the first
   * one that does not decode, with the error.
   */
  function MonitorsAt(bs: Buckets): (r: (seq<Monitor>, Option<Error>))
    requires WellFormed(bs)
  {
    if !Reach(bs, [MonitorsBucket]) then ([], Some(Panic))
    else ReachIn(bs, [MonitorsBucket]); RecordsFrom(bs[[MonitorsBucket]], 0)
  }

  method GetMonitors(db: DB) returns (monitors: seq<Monitor>, err: Option<Error>)
    requires db.Valid()
    ensures (monitors, err) == MonitorsAt(db.buckets)
  {
    var bucket := db.RootBucket(MonitorsBucket);
    if bucket.None? {
      return [], Some(Panic);
    }
    monitors, err := ForEachMonitor(db.buckets[bucket.value]);
  }

  /** The ForEach loop of getMonitors, one fresh record per entry. */
  method ForEachMonitor(items: seq<Item>) returns (monitors: seq<Monitor>, err: Option<Error>)
    ensures (monitors, err) == RecordsFrom(items, 0)
  {
    ghost var goal := RecordsFrom(items, 0);
    monitors := [];
    err := None;
    assert [] + goal.0 == goal.0;
    var i := 0;
    while i < |items|
      invariant i <= |items|
      invariant goal == (monitors + RecordsFrom(items, i).0, RecordsFrom(items, i).1)
    {
      var e := items[i].entry;
      if !(e.Val? && e.value.MonitorRecord?) {
        err := Some(ErrJson);
        break;
      }
      assert monitors + ([e.value.monitor] + RecordsFrom(items, i + 1).0)
          == (monitors + [e.value.monitor]) + RecordsFrom(items, i + 1).0;
      monitors := monitors + [e.value.monitor];
      i := i + 1;
    }
    assert monitors == goal.0;
  }

  /** Without an error getMonitors returns every stored definition, each as stored. */
  lemma MonitorsAtExact(bs: Buckets)
    requires WellFormed(bs) && MonitorsAt(bs).1.None?
    ensures [MonitorsBucket] in bs
    ensures |MonitorsAt(bs).0| == |bs[[MonitorsBucket]]|
    ensures forall j | 0 <= j < |bs[[MonitorsBucket]]| ::
              Find(bs[[MonitorsBucket]], bs[[MonitorsBucket]][j].key) == Some(Val(MonitorRecord(MonitorsAt(bs).0[j])))
  {
    ReachIn(bs, [MonitorsBucket]);
    var items := bs[[MonitorsBucket]];
    forall j | 0 <= j < |items|
      ensures Find(items, items[j].key) == Some(Val(MonitorRecord(MonitorsAt(bs).0[j])))
    {
      FindSorted(items, j);
    }
  }

  // ---------------------------------------------------------------------------
  // getMonitors as written: one `monitor` variable for every record

  /** A Go slice header: backing array, length, capacity. */
  datatype Slice = Slice(backing: nat, len: nat, cap: nat)

  /** The backing arrays, each as long as its capacity. */
  type Heap = seq<seq<string>>

  predicate Fits(heap: Heap, s: Slice) {
    s.backing < |heap| && |heap[s.backing]| == s.cap && s.len <= s.cap
  }

  /** A later heap keeps every array and its capacity. */
  predicate Extends(heap: Heap, heap': Heap) {
    |heap| <= |heap'| && forall a | 0 <= a < |heap| :: |heap'[a]| == |heap[a]|
  }

  /**
   * reflect.Value.Grow(1) at element i = cap: a new array of twice the
   * capacity (at least i + 1) holding the first len elements.  This is
   * Go's growth rule for string slices of up to 512 elements; beyond 256
   * elements Go grows more slowly and rounds up to a size class, so for
   * longer lists the capacities, and which elements are shared, may differ.
   */
  function Grow(heap: Heap, s: Slice): (r: (Heap, Slice))
    requires Fits(heap, s)
    ensures Fits(r.0, r.1) && Extends(heap, r.0) && r.1.len == s.len && r.1.cap > s.cap
  {
    var cap := if s.cap + 1 > 2 * s.cap then s.cap + 1 else 2 * s.cap;
    var arr := heap[s.backing][..s.len] + Blank(cap - s.len);
    (heap + [arr], Slice(|heap|, s.len, cap))
  }

  /** n zero strings: the unused part of a new array. */
  function Blank(n: nat): (r: seq<string>)
    ensures |r| == n
  {
    if n == 0 then [] else [""] + Blank(n - 1)
  }

  /**
   * json.Unmarshal of the list l into the slice s, from element i on: an
   * element below the capacity is written into the current backing array,
   * one at the capacity grows the slice first; an empty list installs a
   * fresh empty slice.
   */
  function DecodeList(heap: Heap, s: Slice, l: seq<string>, i: nat): (r: (Heap, Slice))
    requires Fits(heap, s) && i <= |l| && i <= s.cap && (i > 0 ==> i <= s.len)
    ensures Fits(r.0, r.1) && Extends(heap, r.0) && r.1.len == |l|
    decreases |l| - i
  {
    if i == |l| then
      if i == 0 then (heap + [[]], Slice(|heap|, 0, 0)) else (heap, s.(len := i))
    else
      var grown := if i >= s.cap then Grow(heap, s) else (heap, s);
      var s' := if i >= grown.1.len then grown.1.(len := i + 1) else grown.1;
      var heap' := grown.0[s'.backing := grown.0[s'.backing][i := l[i]]];
      DecodeList(heap', s', l, i + 1)
  }

  /** Decoding every list in turn into the same variable, keeping each slice header. */
  function DecodeAll(heap: Heap, s: Slice, lists: seq<seq<string>>, kept: seq<Slice>): (r: (Heap, seq<Slice>))
    requires Fits(heap, s) && forall k | 0 <= k < |kept| :: Fits(heap, kept[k])
    ensures |r.1| == |kept| + |lists|
    ensures forall k | 0 <= k < |r.1| :: Fits(r.0, r.1[k])
    ensures forall k | 0 <= k < |kept| :: r.1[k] == kept[k]
    decreases |lists|
  {
    if lists == [] then (heap, kept)
    else
      var (heap', s') := DecodeList(heap, s, lists[0], 0);
      ExtendsFits(heap, heap', kept);
      DecodeAll(heap', s', lists[1..], kept + [s'])
  }

  lemma ExtendsFits(heap: Heap, heap': Heap, kept: seq<Slice>)
    requires Extends(heap, heap') && forall k | 0 <= k < |kept| :: Fits(heap, kept[k])
    ensures forall k | 0 <= k < |kept| :: Fits(heap', kept[k])
  {
  }

  /**
   * The Notifiers lists getMonitors returns for records stored with the
   * given lists, for lists of at most 512 names (see Grow): each result
   * shares its backing array with the variable, so decoding a later record
   * overwrites an earlier record's elements.
   */
  function AliasedNotifiers(lists: seq<seq<string>>): (r: seq<seq<string>>)
    ensures |r| == |lists|
    ensures forall k | 0 <= k < |r| :: |r[k]| == |lists[k]|
  {
    var (heap, kept) := DecodeAll([[]], Slice(0, 0, 0), lists, []);
    KeptLengths([[]], Slice(0, 0, 0), lists, []);
    seq(|lists|, k requires 0 <= k < |lists| => heap[kept[k].backing][..kept[k].len])
  }

  lemma {:induction false} KeptLengths(heap: Heap, s: Slice, lists: seq<seq<string>>, kept: seq<Slice>)
    requires Fits(heap, s) && forall k | 0 <= k < |kept| :: Fits(heap, kept[k])
    ensures var got := DecodeAll(heap, s, lists, kept).1;
            forall k | 0 <= k < |lists| :: got[|kept| + k].len == |lists[k]|
    decreases |lists|
  {
    if lists != [] {
      var (heap', s') := DecodeList(heap, s, lists[0], 0);
      KeptLengths(heap', s', lists[1..], kept + [s']);
    }
  }

  /** Two monitors with notifiers ["a", "b"] and ["c"] come back as ["c", "b"] and ["c"]. */
  lemma NotifierAliasing()
    ensures AliasedNotifiers([["a", "b"], ["c"]]) == [["c", "b"], ["c"]]
  {
    var h2: Heap := [[], ["a"], ["c", "b"]];
    DecodeBoth();
    assert h2[2][..2] == ["c", "b"] && h2[2][..1] == ["c"];
  }

  /** Both records decoded in turn: the two kept headers share the third array. */
  lemma DecodeBoth()
    ensures DecodeAll([[]], Slice(0, 0, 0), [["a", "b"], ["c"]], []) ==
            ([[], ["a"], ["c", "b"]], [Slice(2, 2, 2), Slice(2, 1, 2)])
  {
    var h0: Heap := [[]];
    var s0 := Slice(0, 0, 0);
    var h1: Heap := [[], ["a"], ["a", "b"]];
    var s1 := Slice(2, 2, 2);
    var h2: Heap := [[], ["a"], ["c", "b"]];
    var s2 := Slice(2, 1, 2);
    FirstRecord();
    SecondRecord();
    var lists := [["a", "b"], ["c"]];
    assert lists[0] == ["a", "b"] && lists[1..] == [["c"]];
    assert [["c"]][0] == ["c"] && [["c"]][1..] == [];
    assert [s1] + [s2] == [s1, s2] && [] + [s1] == [s1];
    assert DecodeAll(h2, s2, [], [s1, s2]) == (h2, [s1, s2]);
    assert DecodeAll(h1, s1, [["c"]], [s1]) == (h2, [s1, s2]);
  }

  /** Decoding ["a", "b"] into the nil slice: capacity 1, then 2. */
  lemma FirstRecord()
    ensures DecodeList([[]], Slice(0, 0, 0), ["a", "b"], 0) == ([[], ["a"], ["a", "b"]], Slice(2, 2, 2))
  {
    var h0: Heap := [[]];
    var s0 := Slice(0, 0, 0);
    assert Blank(1) == [""] + Blank(0) == [""];
    var g1 := Grow(h0, s0);
    assert g1.0 == h0 + [h0[0][..0] + Blank(1)] && h0[0][..0] + Blank(1) == [""];
    var ha: Heap := [[], ["a"]];
    assert g1.0 == [[], [""]];
    assert [""][0 := "a"] == ["a"];
    assert g1.1 == Slice(1, 0, 1) && g1.0[1 := g1.0[1][0 := "a"]] == ha;
    var g2 := Grow(ha, Slice(1, 1, 1));
    assert g2.0 == ha + [ha[1][..1] + Blank(1)] && ha[1][..1] + Blank(1) == ["a", ""];
    var h1: Heap := [[], ["a"], ["a", "b"]];
    var s1 := Slice(2, 2, 2);
    assert g2.0 == [[], ["a"], ["a", ""]];
    assert ["a", ""][1 := "b"] == ["a", "b"];
    assert g2.1 == Slice(2, 1, 2) && g2.0[2 := g2.0[2][1 := "b"]] == h1;
    assert DecodeList(h1, s1, ["a", "b"], 2) == (h1, s1);
    assert DecodeList(ha, Slice(1, 1, 1), ["a", "b"], 1) == (h1, s1);
  }

  /** Decoding ["c"] into that slice writes over its first element. */
  lemma SecondRecord()
    ensures DecodeList([[], ["a"], ["a", "b"]], Slice(2, 2, 2), ["c"], 0) == ([[], ["a"], ["c", "b"]], Slice(2, 1, 2))
  {
    var h1: Heap := [[], ["a"], ["a", "b"]];
    var s1 := Slice(2, 2, 2);
    var h2: Heap := [[], ["a"], ["c", "b"]];
    var s2 := Slice(2, 1, 2);
    assert ["a", "b"][0 := "c"] == ["c", "b"];
    assert h1[2 := h1[2][0 := "c"]] == h2;
    assert DecodeList(h2, s1, ["c"], 1) == (h2, s2);
  }

  // ---------------------------------------------------------------------------
  // getMonitor

  /**
   * getMonitor(name): Get on the nil bucket panics; a missing key (nil) or a
   * record of another shape fails to decode and Monitor{} comes back.
   */
  function MonitorAt(bs: Buckets, name: Key): (r: (Monitor, Option<Error>))
    requires WellFormed(bs)
    ensures r.1.None? ==> [MonitorsBucket] in bs && Find(bs[[MonitorsBucket]], name) == Some(Val(MonitorRecord(r.0)))
    ensures r.1.Some? ==> r.0 == EmptyMonitor && (r.1 == Some(Panic) <==> !Reach(bs, [MonitorsBucket]))
    ensures r.1.Some? ==> r.1 == Some(Panic) || r.1 == Some(ErrJson)
  {
    if !Reach(bs, [MonitorsBucket]) then (EmptyMonitor, Some(Panic))
    else
      ReachIn(bs, [MonitorsBucket]);
      match Find(bs[[MonitorsBucket]], name)
      case Some(Val(MonitorRecord(m))) => (m, None)
      case _ => (EmptyMonitor, Some(ErrJson))
  }

  method GetMonitor(db: DB, name: Key) returns (monitor: Monitor, err: Option<Error>)
    requires db.Valid()
    ensures (monitor, err) == MonitorAt(db.buckets, name)
  {
    var bucket := db.RootBucket(MonitorsBucket);
    var value := db.Get(bucket, name);
    if value.Failure? {
      return EmptyMonitor, Some(Panic);
    }
    if value.value.Some? && value.value.value.MonitorRecord? {
      return value.value.value.monitor, None;
    }
    return EmptyMonitor, Some(ErrJson);
  }

  // ---------------------------------------------------------------------------
  // saveMonitor

  /**
   * saveMonitor(m, update): keyExists(["monitors", m.Name]) decides; a create
   * over an existing name is errKeyExists, an update of a missing one errNoKey;
   * then the Put on tx.Bucket("monitors").
   */
  function SaveOutcome(bs: Buckets, m: Monitor, update: bool): (r: Result<Buckets, Error>)
    requires WellFormed(bs)
    ensures r.Success? ==> WellFormed(r.value)
  {
    var present := KeyAt(bs, [MonitorsBucket, m.name]).Success? && KeyAt(bs, [MonitorsBucket, m.name]).value.Some?;
    if present && !update then Failure(ErrKeyExists)
    else if !present && update then Failure(ErrNoKey)
    else KeyPut(bs, MonitorsBucket, m.name, MonitorRecord(m))
  }

  method SaveMonitor(db: DB, m: Monitor, update: bool) returns (err: Option<Error>)
    requires db.Valid()
    modifies db
    ensures db.Valid()
    ensures SaveOutcome(old(db.buckets), m, update).Failure? ==>
              err == Some(SaveOutcome(old(db.buckets), m, update).error) && db.buckets == old(db.buckets)
    ensures SaveOutcome(old(db.buckets), m, update).Success? ==>
              err == None && db.buckets == SaveOutcome(old(db.buckets), m, update).value
  {
    PairKeyAt(db.buckets, MonitorsBucket, m.name);
    var present := KeyExists(db, [MonitorsBucket, m.name]);
    if present.value && !update {
      return Some(ErrKeyExists);
    }
    if !present.value && update {
      return Some(ErrNoKey);
    }
    err := PutKey(db, MonitorsBucket, m.name, MonitorRecord(m));
  }

  /**
   * The existence rule: a create fails when the name is stored (or the bucket
   * is missing), an update fails when the name is not stored; both directions.
   */
  lemma SaveRules(bs: Buckets, m: Monitor, update: bool)
    requires WellFormed(bs)
    ensures !update ==>
              (SaveOutcome(bs, m, update) == Failure(ErrKeyExists) <==>
               !Reach(bs, [MonitorsBucket]) || ([MonitorsBucket] in bs && HoldsValue(bs[[MonitorsBucket]], m.name)))
    ensures update ==>
              (SaveOutcome(bs, m, update) == Failure(ErrNoKey) <==>
               Reach(bs, [MonitorsBucket]) && [MonitorsBucket] in bs && !HoldsValue(bs[[MonitorsBucket]], m.name))
  {
    PairKeyAt(bs, MonitorsBucket, m.name);
  }

  /** A successful save reads back through getMonitor without touching the other names. */
  lemma SaveReadBack(bs: Buckets, m: Monitor, update: bool)
    requires WellFormed(bs) && SaveOutcome(bs, m, update).Success?
    ensures MonitorAt(SaveOutcome(bs, m, update).value, m.name) == (m, None)
    ensures forall n | n != m.name :: MonitorAt(SaveOutcome(bs, m, update).value, n) == MonitorAt(bs, n)
  {
    var r := SaveOutcome(bs, m, update).value;
    ReachSameLinks(bs, r, [MonitorsBucket]);
  }

  // ---------------------------------------------------------------------------
  // removeMonitor and deleteHistory

  /** removeMonitor(name): Delete on tx.Bucket("monitors"). */
  function RemoveOutcome(bs: Buckets, name: Key): (r: Result<Buckets, Error>)
    requires WellFormed(bs)
    ensures r.Success? ==> WellFormed(r.value)
  {
    KeyDeleted(bs, MonitorsBucket, name)
  }

  method RemoveMonitor(db: DB, name: Key) returns (err: Option<Error>)
    requires db.Valid()
    modifies db
    ensures db.Valid()
    ensures RemoveOutcome(old(db.buckets), name).Failure? ==>
              err == Some(RemoveOutcome(old(db.buckets), name).error) && db.buckets == old(db.buckets)
    ensures RemoveOutcome(old(db.buckets), name).Success? ==>
              err == None && db.buckets == RemoveOutcome(old(db.buckets), name).value
  {
    err := DeleteKey(db, MonitorsBucket, name);
  }

  /**
   * After removeMonitor the name no longer reads back, so a create of it is
   * allowed again, and every other definition is untouched.
   */
  lemma RemoveThenGone(bs: Buckets, name: Key, m: Monitor)
    requires WellFormed(bs) && RemoveOutcome(bs, name).Success? && m.name == name
    ensures MonitorAt(RemoveOutcome(bs, name).value, name) == (EmptyMonitor, Some(ErrJson))
    ensures forall n | n != name :: MonitorAt(RemoveOutcome(bs, name).value, n) == MonitorAt(bs, n)
    ensures SaveOutcome(RemoveOutcome(bs, name).value, m, false) != Failure(ErrKeyExists)
  {
    var r := RemoveOutcome(bs, name).value;
    ReachSameLinks(bs, r, [MonitorsBucket]);
    PairKeyAt(r, MonitorsBucket, name);
  }

  /**
   * deleteHistory(name): DeleteBucket on tx.Bucket("history"), then Delete on
   * tx.Bucket("status"); either failing, or panicking on a nil bucket, rolls
   * both back.
   */
  function DeleteHistoryOutcome(bs: Buckets, name: Key): (r: Result<Buckets, Error>)
    requires WellFormed(bs)
    ensures r.Success? ==> WellFormed(r.value)
  {
    match BucketDropped(bs, HistoryBucket, name)
    case Failure(e) => Failure(e)
    case Success(mid) => KeyDeleted(mid, StatusBucket, name)
  }

  method DeleteHistory(db: DB, name: Key) returns (err: Option<Error>)
    requires db.Valid()
    modifies db
    ensures db.Valid()
    ensures DeleteHistoryOutcome(old(db.buckets), name).Failure? ==>
              err == Some(DeleteHistoryOutcome(old(db.buckets), name).error) && db.buckets == old(db.buckets)
    ensures DeleteHistoryOutcome(old(db.buckets), name).Success? ==>
              err == None && db.buckets == DeleteHistoryOutcome(old(db.buckets), name).value
  {
    var snapshot := db.buckets;
    err := DropBucket(db, HistoryBucket, name);
    if err.Some? {
      return;
    }
    err := DeleteKey(db, StatusBucket, name);
    if err.Some? {
      db.buckets := snapshot;
    }
  }

  /** After deleteHistory(name) its history bucket is gone and its status no longer reads. */
  lemma DeleteHistoryGone(bs: Buckets, name: Key)
    requires WellFormed(bs) && DeleteHistoryOutcome(bs, name).Success?
    ensures !Reach(DeleteHistoryOutcome(bs, name).value, [HistoryBucket, name])
    ensures StatusOf(DeleteHistoryOutcome(bs, name).value, name) == (EmptyStatus, Some(ErrJson))
  {
    var mid := BucketDropped(bs, HistoryBucket, name).value;
    var r := KeyDeleted(mid, StatusBucket, name).value;
    BucketDroppedGone(bs, HistoryBucket, name);
    KeyDeletedGone(mid, StatusBucket, name);
    PairPath(HistoryBucket, name);
    assert r[[HistoryBucket]] == mid[[HistoryBucket]];
    ReachChild(r, [HistoryBucket], name);
    StatusOfMeaning(r, name);
    PairKeyAt(r, StatusBucket, name);
  }

  // ---------------------------------------------------------------------------
  // getAllMonitorsForDisplay

  /** A dashboard line. */
  datatype Display = Display(name: string, active: bool, status: Status, up: bool, perCent: real)

  /** The number of statuses carrying code ok. */
  function Matching(hist: seq<Status>, ok: int): (n: nat)
    ensures n <= |hist|
    ensures n == |hist| <==> forall i | 0 <= i < |hist| :: hist[i].statusCode == ok
  {
    if hist == [] then 0
    else Matching(hist[..|hist| - 1], ok) + (if hist[|hist| - 1].statusCode == ok then 1 else 0)
  }

  /** good / total * 100, and 0 for no observations. */
  function Percent(good: nat, total: nat): (p: real)
    requires good <= total
    ensures 0.0 <= p <= 100.0
    ensures total > 0 ==> (p == 100.0 <==> good == total)
  {
    if total == 0 then 0.0 else good as real / total as real * 100.0
  }

  /**
   * The loop over one monitor's history (newest first): the monitor is shown
   * up when the newest entry carries the expected code, and the percentage is
   * that of the entries carrying it.
   */
  method Aggregate(hist: seq<Status>, ok: int) returns (up: bool, perCent: real)
    ensures up <==> |hist| > 0 && hist[0].statusCode == ok
    ensures perCent == Percent(Matching(hist, ok), |hist|)
  {
    up := false;
    perCent := 0.0;
    var total, good := 0, 0;
    for i := 0 to |hist|
      invariant total == i && good == Matching(hist[..i], ok)
      invariant up <==> i > 0 && hist[0].statusCode == ok
      invariant perCent == Percent(good, total)
    {
      if i == 0 && hist[i].statusCode == ok {
        up := true;
      }
      assert hist[..i + 1][..i] == hist[..i];
      total := total + 1;
      if hist[i].statusCode == ok {
        good := good + 1;
      }
      perCent := Percent(good, total);
    }
    assert hist[..|hist|] == hist;
  }

  /** One dashboard line: getStatus and the day's getHistory, their errors ignored. */
  function DisplayOf(bs: Buckets, m: Monitor, now: int): (r: Result<Display, Error>)
    requires WellFormed(bs) && Sane(now)
  {
    var hist := HistoryAt(bs, [HistoryBucket, m.name], GetTime(DayFrame, now), TimeKey(now));
    if hist.1 == Some(Panic) then Failure(Panic)
    else
      Success(Display(m.name, m.active, StatusOf(bs, m.name).0,
                      |hist.0| > 0 && hist.0[0].statusCode == m.statusOK,
                      Percent(Matching(hist.0, m.statusOK), |hist.0|)))
  }

  /**
   * getAllMonitorsForDisplay(): one line per monitor getMonitors returns
   * (its error ignored, so a prefix on a decoding error); a panic in any of
   * the reads ends the call.
   */
  function DisplaysAt(bs: Buckets, now: int): (r: Result<seq<Display>, Error>)
    requires WellFormed(bs) && Sane(now)
    ensures r.Success? ==> |r.value| == |MonitorsAt(bs).0|
  {
    if MonitorsAt(bs).1 == Some(Panic) then Failure(Panic)
    else DisplaysOf(bs, MonitorsAt(bs).0, now)
  }

  /** The loop of getAllMonitorsForDisplay over the monitors ms. */
  function DisplaysOf(bs: Buckets, ms: seq<Monitor>, now: int): (r: Result<seq<Display>, Error>)
    requires WellFormed(bs) && Sane(now)
    ensures r.Success? ==> |r.value| == |ms|
  {
    var lines := Lines(bs, ms, now);
    if !AllSucceed(lines) then Failure(Panic) else Success(Values(lines))
  }

  /** The line of each monitor, in order. */
  function Lines(bs: Buckets, ms: seq<Monitor>, now: int): (r: seq<Result<Display, Error>>)
    requires WellFormed(bs) && Sane(now)
    ensures |r| == |ms|
    ensures forall j | 0 <= j < |ms| :: r[j] == DisplayOf(bs, ms[j], now)
  {
    seq(|ms|, j requires 0 <= j < |ms| => DisplayOf(bs, ms[j], now))
  }

  method GetAllMonitorsForDisplay(db: DB, now: int) returns (r: Result<seq<Display>, Error>)
    requires db.Valid() && Sane(now)
    ensures r == DisplaysAt(db.buckets, now)
  {
    var monitors, err := GetMonitors(db);
    if err == Some(Panic) {
      return Failure(Panic);
    }
    r := DisplayLines(db, monitors, now);
  }

  /** The loop of getAllMonitorsForDisplay: a line per monitor, ending at the first panic. */
  method DisplayLines(db: DB, monitors: seq<Monitor>, now: int) returns (r: Result<seq<Display>, Error>)
    requires db.Valid() && Sane(now)
    ensures r == DisplaysOf(db.buckets, monitors, now)
  {
    ghost var lines := Lines(db.buckets, monitors, now);
    var display: seq<Display> := [];
    var i := 0;
    while i < |monitors|
      invariant i <= |monitors| && AllSucceed(lines[..i]) && display == Values(lines[..i])
    {
      var line := DisplayLine(db, monitors, i, now);
      if line.Failure? {
        return Failure(Panic);
      }
      ValuesStep(lines, i);
      display := display + [line.value];
      i := i + 1;
    }
    assert lines[..i] == lines;
    return Success(display);
  }

  /** The body of the loop: one monitor's line. */
  method DisplayLine(db: DB, ms: seq<Monitor>, i: nat, now: int) returns (r: Result<Display, Error>)
    requires db.Valid() && Sane(now) && i < |ms|
    ensures r == Lines(db.buckets, ms, now)[i]
  {
    var m := ms[i];
    var status, _ := GetStatus(db, m.name);
    var history, err := GetHistory(db, [HistoryBucket, m.name], DayFrame, now);
    if err == Some(Panic) {
      return Failure(Panic);
    }
    var up, perCent := Aggregate(history, m.statusOK);
    return Success(Display(m.name, m.active, status, up, perCent));
  }

  /**
   * Without a panic in getMonitors, and with every monitor's line a success,
   * getAllMonitorsForDisplay returns exactly those lines, in order.
   */
  lemma DisplaysExact(bs: Buckets, now: int, display: seq<Display>)
    requires WellFormed(bs) && Sane(now) && MonitorsAt(bs).1 != Some(Panic)
    requires |display| == |MonitorsAt(bs).0|
    requires forall j | 0 <= j < |display| :: DisplayOf(bs, MonitorsAt(bs).0[j], now) == Success(display[j])
    ensures DisplaysAt(bs, now) == Success(display)
  {
    AllValues(Lines(bs, MonitorsAt(bs).0, now), display);
  }

  predicate AllSucceed<T>(rs: seq<Result<T, Error>>) {
    forall j | 0 <= j < |rs| :: rs[j].Success?
  }

  /** The values of results that all succeed. */
  function Values<T>(rs: seq<Result<T, Error>>): (r: seq<T>)
    requires AllSucceed(rs)
    ensures |r| == |rs| && forall j | 0 <= j < |rs| :: rs[j] == Success(r[j])
  {
    seq(|rs|, j requires 0 <= j < |rs| => rs[j].value)
  }

  /** A panic in getMonitors, or in the line of any monitor, ends getAllMonitorsForDisplay. */
  lemma DisplaysPanic(bs: Buckets, now: int, i: nat)
    requires WellFormed(bs) && Sane(now)
    requires MonitorsAt(bs).1 == Some(Panic) ||
             (i < |MonitorsAt(bs).0| && DisplayOf(bs, MonitorsAt(bs).0[i], now).Failure?)
    ensures DisplaysAt(bs, now) == Failure(Panic)
  {
    if MonitorsAt(bs).1 != Some(Panic) {
      assert Lines(bs, MonitorsAt(bs).0, now)[i].Failure?;
    }
  }

  /** One more successful result extends the values by its own. */
  lemma ValuesStep<T>(rs: seq<Result<T, Error>>, i: nat)
    requires i < |rs| && AllSucceed(rs[..i]) && rs[i].Success?
    ensures AllSucceed(rs[..i + 1]) && Values(rs[..i + 1]) == Values(rs[..i]) + [rs[i].value]
  {
    assert rs[..i + 1] == rs[..i] + [rs[i]];
  }

  /** Results that all succeed, with these values, carry exactly these values. */
  lemma AllValues<T>(rs: seq<Result<T, Error>>, vs: seq<T>)
    requires |rs| == |vs| && forall j | 0 <= j < |rs| :: rs[j] == Success(vs[j])
    ensures AllSucceed(rs) && Values(rs) == vs
  {
  }

  /**
   * Every dashboard percentage lies in [0, 100], and it is 100 exactly when
   * every entry of the day carries the expected code.
   */
  lemma DisplayBounds(bs: Buckets, m: Monitor, now: int)
    requires WellFormed(bs) && Sane(now) && DisplayOf(bs, m, now).Success?
    ensures var d := DisplayOf(bs, m, now).value;
            var hist := HistoryAt(bs, [HistoryBucket, m.name], GetTime(DayFrame, now), TimeKey(now)).0;
            && 0.0 <= d.perCent <= 100.0
            && (|hist| > 0 ==> (d.perCent == 100.0 <==> forall i | 0 <= i < |hist| :: hist[i].statusCode == m.statusOK))
            && (d.up ==> |hist| > 0)
  {
  }
}
