/**
 * The history queries of database.go: getTime's lookback windows, the range
 * scans of getHistory and getStats, and the cutoff delete of purgeHistData.
 *
 * History entries of monitor `site` live in bucket history/<site> under the
 * key TimeKey(status.time), so a key range is a time range.
 */
module History {
  import opened Wrappers
  import opened Keys
  import opened Clock
  import opened Types
  import opened Bolt
  import opened Database

  // ---------------------------------------------------------------------------
  // getTime

  /** The instants the clock may read: a year or more after Go's zero time, before year 10000. */
  predicate Sane(now: int) {
    ZeroTime + 365 * Day <= now < MaxInstant
  }

  /**
   * The first instant of a frame ending at now: now minus an hour, a day,
   * 7 days, 30 days or 365 days; the whole history starts at time.Time{}.
   */
  function FrameStart(frame: TimeFrame, now: int): (t: int)
    requires Sane(now)
    ensures Formattable(t) && ZeroTime <= t <= now
    ensures frame.AllFrame? ==> t == ZeroTime
  {
    match frame
    case HourFrame => now - Hour
    case DayFrame => now - 24 * Hour
    case WeekFrame => now - 24 * Hour * 7
    case MonthFrame => now - 24 * Hour * 30
    case YearFrame => now - 24 * Hour * 365
    case AllFrame => ZeroTime
  }

  /** getTime(frame): the start of the frame as a history key. */
  function GetTime(frame: TimeFrame, now: int): (k: Key)
    requires Sane(now)
    ensures LessEq(k, TimeKey(now))
  {
    TimeKeyMonotone(FrameStart(frame, now), now);
    TimeKey(FrameStart(frame, now))
  }

  /** The frames nest: each one reaches back at least as far as the one before. */
  lemma FramesNest(now: int)
    requires Sane(now)
    ensures LessEq(GetTime(DayFrame, now), GetTime(HourFrame, now))
    ensures LessEq(GetTime(WeekFrame, now), GetTime(DayFrame, now))
    ensures LessEq(GetTime(MonthFrame, now), GetTime(WeekFrame, now))
    ensures LessEq(GetTime(YearFrame, now), GetTime(MonthFrame, now))
    ensures LessEq(GetTime(AllFrame, now), GetTime(YearFrame, now))
  {
    TimeKeyMonotone(FrameStart(DayFrame, now), FrameStart(HourFrame, now));
    TimeKeyMonotone(FrameStart(WeekFrame, now), FrameStart(DayFrame, now));
    TimeKeyMonotone(FrameStart(MonthFrame, now), FrameStart(WeekFrame, now));
    TimeKeyMonotone(FrameStart(YearFrame, now), FrameStart(MonthFrame, now));
    TimeKeyMonotone(FrameStart(AllFrame, now), FrameStart(YearFrame, now));
  }

  // ---------------------------------------------------------------------------
  // The cursor window [start, end]

  /** Where `for k := c.Seek(start); k != nil && k <= end; c.Next()` stops, from index i. */
  function WindowEnd(items: seq<Item>, i: nat, end: Key): (j: nat)
    requires i <= |items|
    ensures i <= j <= |items|
    ensures forall m | i <= m < j :: LessEq(items[m].key, end)
    ensures j < |items| ==> !LessEq(items[j].key, end)
    decreases |items| - i
  {
    if i == |items| || !LessEq(items[i].key, end) then i else WindowEnd(items, i + 1, end)
  }

  /** In a sorted bucket the cursor visits exactly the keys k with start <= k <= end. */
  lemma WindowExact(items: seq<Item>, start: Key, end: Key, j: nat)
    requires Sorted(items) && j < |items|
    ensures var lo := Seek(items, start);
            lo <= j < WindowEnd(items, lo, end) <==> LessEq(start, items[j].key) && LessEq(items[j].key, end)
  {
    var lo := Seek(items, start);
    var hi := WindowEnd(items, lo, end);
    if j < lo {
      NotLessEq(start, items[j].key);
    } else if j < hi {
      SeekSorted(items, start, j);
    } else {
      NotLessEq(items[hi].key, end);
      NotLessEq(items[j].key, end);
      if j > hi {
        LessTransitive(end, items[hi].key, items[j].key);
      }
    }
  }

  /** An entry json.Unmarshal accepts as a Status (a nested bucket reads as nil). */
  predicate IsStatusEntry(e: Entry) {
    e.Val? && e.value.StatusRecord?
  }

  /**
   * The statuses of entries i..hi in key order, stopping with the error at the
   * first entry that does not decode.
   */
  function Collect(items: seq<Item>, i: nat, hi: nat): (seq<Status>, Option<Error>)
    requires i <= hi <= |items|
    decreases hi - i
  {
    if i == hi then ([], None)
    else if !IsStatusEntry(items[i].entry) then ([], Some(ErrJson))
    else
      var rest := Collect(items, i + 1, hi);
      ([items[i].entry.value.status] + rest.0, rest.1)
  }

  /**
   * Collect reads the decoded entries in key order; it fails, with
   * ErrJson, exactly when some entry of the range does not decode, and then
   * stops at the first such entry.
   */
  lemma {:induction false} CollectMeaning(items: seq<Item>, i: nat, hi: nat)
    requires i <= hi <= |items|
    ensures var r := Collect(items, i, hi);
            && (r.1.None? || r.1 == Some(ErrJson))
            && |r.0| <= hi - i
            && (forall m | 0 <= m < |r.0| :: items[i + m].entry == Val(StatusRecord(r.0[m])))
            && (r.1.None? <==> forall m | i <= m < hi :: IsStatusEntry(items[m].entry))
            && (r.1.None? ==> |r.0| == hi - i)
            && (r.1.Some? ==> i + |r.0| < hi && !IsStatusEntry(items[i + |r.0|].entry))
    decreases hi - i
  {
    if i < hi && IsStatusEntry(items[i].entry) {
      CollectMeaning(items, i + 1, hi);
      var rest := Collect(items, i + 1, hi);
      var r := Collect(items, i, hi);
      assert r == ([items[i].entry.value.status] + rest.0, rest.1);
      forall m | 0 <= m < |r.0|
        ensures items[i + m].entry == Val(StatusRecord(r.0[m]))
      {
        if m > 0 {
          assert r.0[m] == rest.0[m - 1];
        }
      }
    }
  }

  /** slices.Reverse. */
  function Reversed<T>(s: seq<T>): (r: seq<T>)
    ensures |r| == |s|
    ensures forall i | 0 <= i < |s| :: r[i] == s[|s| - 1 - i]
  {
    if s == [] then [] else Reversed(s[1..]) + [s[0]]
  }

  // ---------------------------------------------------------------------------
  // getHistory

  /** getHistory on one bucket: the window's statuses, newest first. */
  function HistoryOf(items: seq<Item>, start: Key, end: Key): (r: (seq<Status>, Option<Error>))
  {
    var lo := Seek(items, start);
    var found := Collect(items, lo, WindowEnd(items, lo, end));
    (Reversed(found.0), found.1)
  }

  /**
   * Without an error getHistory returns one status per entry of the window,
   * the i-th being the entry i places before the window's end: so with
   * WindowExact, exactly the entries with start <= key <= end, newest first.
   */
  lemma HistoryOfExact(items: seq<Item>, start: Key, end: Key, lo: nat, hi: nat)
    requires lo == Seek(items, start) && hi == WindowEnd(items, lo, end)
    ensures var r := HistoryOf(items, start, end);
            && (r.1.None? <==> forall j | lo <= j < hi :: IsStatusEntry(items[j].entry))
            && (r.1.None? ==> |r.0| == hi - lo)
            && (r.1.None? ==> forall i | 0 <= i < |r.0| :: items[hi - 1 - i].entry == Val(StatusRecord(r.0[i])))
  {
    HistoryOfIs(items, start, end, lo, hi);
    CollectExact(items, lo, hi);
  }

  /**
   * Reversing what Collect read between lo and hi: without an error, one
   * status per entry, the i-th from the entry i places before hi.
   */
  lemma CollectExact(items: seq<Item>, lo: nat, hi: nat)
    requires lo <= hi <= |items|
    ensures var found := Collect(items, lo, hi);
            var r := (Reversed(found.0), found.1);
            && (r.1.None? <==> forall j | lo <= j < hi :: IsStatusEntry(items[j].entry))
            && (r.1.None? ==> |r.0| == hi - lo)
            && (r.1.None? ==> forall i | 0 <= i < |r.0| :: items[hi - 1 - i].entry == Val(StatusRecord(r.0[i])))
  {
    CollectMeaning(items, lo, hi);
    CollectReversed(items, lo, hi);
  }

  /** The index arithmetic of CollectExact. */
  lemma CollectReversed(items: seq<Item>, lo: nat, hi: nat)
    requires lo <= hi <= |items|
    ensures var found := Collect(items, lo, hi);
            found.1.None? ==>
              && |found.0| == hi - lo
              && forall i | 0 <= i < |found.0| :: items[hi - 1 - i].entry == Val(StatusRecord(Reversed(found.0)[i]))
  {
    var found := Collect(items, lo, hi);
    CollectMeaning(items, lo, hi);
    if found.1.None? {
      var r := Reversed(found.0);
      forall i | 0 <= i < |r|
        ensures items[hi - 1 - i].entry == Val(StatusRecord(r[i]))
      {
        assert r[i] == found.0[|found.0| - 1 - i];
      }
    }
  }

  /**
   * A window of a sorted bucket is in strictly increasing key order, so the
   * history HistoryOfExact describes is newest first.
   */
  lemma SortedWindow(items: seq<Item>, lo: nat, hi: nat)
    requires Sorted(items) && lo <= hi <= |items|
    ensures forall j, j' | lo <= j < j' < hi :: Less(items[j].key, items[j'].key)
  {
    forall j, j' | lo <= j < j' < hi
      ensures Less(items[j].key, items[j'].key)
    {
    }
  }

  /**
   * getHistory(path, frame): errPath for a missing bucket, a panic when an
   * intermediate bucket is missing, otherwise the window [getTime(frame), now].
   * On a decoding error the statuses read so far are returned with it.
   */
  function HistoryAt(bs: Buckets, path: Path, start: Key, end: Key): (r: (seq<Status>, Option<Error>))
    requires WellFormed(bs)
  {
    match BucketAt(bs, path)
    case Failure(e) => ([], Some(e))
    case Success(None) => ([], Some(ErrPath))
    case Success(Some(p)) => ReachIn(bs, p); HistoryOf(bs[p], start, end)
  }

  method GetHistory(db: DB, path: Path, frame: TimeFrame, now: int) returns (stats: seq<Status>, err: Option<Error>)
    requires db.Valid() && Sane(now)
    ensures (stats, err) == HistoryAt(db.buckets, path, GetTime(frame, now), TimeKey(now))
  {
    var end := TimeKey(now);
    var start := GetTime(frame, now);
    var bucket := GetBucket(db, path);
    if bucket.Failure? {
      return [], Some(bucket.error);
    }
    if bucket.value.None? {
      return [], Some(ErrPath);
    }
    stats, err := ScanHistory(db.buckets[bucket.value.value], start, end);
  }

  /** getHistory's cursor loop on one bucket, then slices.Reverse. */
  method ScanHistory(items: seq<Item>, start: Key, end: Key) returns (stats: seq<Status>, err: Option<Error>)
    ensures (stats, err) == HistoryOf(items, start, end)
  {
    var lo := Seek(items, start);
    ghost var hi := WindowEnd(items, lo, end);
    ghost var goal := Collect(items, lo, hi);
    HistoryOfIs(items, start, end, lo, hi);
    stats := [];
    err := None;
    assert [] + goal.0 == goal.0;
    var i := lo;
    while i < |items| && LessEq(items[i].key, end)
      invariant lo <= i <= hi
      invariant goal == (stats + Collect(items, i, hi).0, Collect(items, i, hi).1)
      decreases |items| - i
    {
      WindowInside(items, lo, end, i);
      var e := items[i].entry;
      if !(e.Val? && e.value.StatusRecord?) {
        CollectStop(items, i, hi, stats);
        err := Some(ErrJson);
        break;
      }
      CollectStep(items, i, hi, stats);
      stats := stats + [e.value.status];
      i := i + 1;
    }
    if err.None? {
      WindowOutside(items, lo, end, i);
      CollectDone(items, hi, stats);
    }
    stats := Reversed(stats);
  }

  /** HistoryOf unfolded at the window [lo, hi). */
  lemma HistoryOfIs(items: seq<Item>, start: Key, end: Key, lo: nat, hi: nat)
    requires lo == Seek(items, start) && hi == WindowEnd(items, lo, end)
    ensures HistoryOf(items, start, end) == (Reversed(Collect(items, lo, hi).0), Collect(items, lo, hi).1)
  {
  }

  /** Inside the loop the cursor is still in the window. */
  lemma WindowInside(items: seq<Item>, lo: nat, end: Key, i: nat)
    requires lo <= |items| && lo <= i <= WindowEnd(items, lo, end)
    requires i < |items| && LessEq(items[i].key, end)
    ensures i < WindowEnd(items, lo, end)
  {
  }

  /** When the loop condition fails the cursor is at the window's end. */
  lemma WindowOutside(items: seq<Item>, lo: nat, end: Key, i: nat)
    requires lo <= |items| && lo <= i <= WindowEnd(items, lo, end)
    requires !(i < |items| && LessEq(items[i].key, end))
    ensures i == WindowEnd(items, lo, end)
  {
  }

  /** One decoded entry moves from what Collect still has to read to what it has read. */
  lemma CollectStep(items: seq<Item>, i: nat, hi: nat, stats: seq<Status>)
    requires i < hi <= |items| && IsStatusEntry(items[i].entry)
    ensures stats + Collect(items, i, hi).0 == (stats + [items[i].entry.value.status]) + Collect(items, i + 1, hi).0
    ensures Collect(items, i, hi).1 == Collect(items, i + 1, hi).1
  {
    assert stats + ([items[i].entry.value.status] + Collect(items, i + 1, hi).0)
        == (stats + [items[i].entry.value.status]) + Collect(items, i + 1, hi).0;
  }

  /** Collect stops at an entry that does not decode. */
  lemma CollectStop(items: seq<Item>, i: nat, hi: nat, stats: seq<Status>)
    requires i < hi <= |items| && !IsStatusEntry(items[i].entry)
    ensures (stats + Collect(items, i, hi).0, Collect(items, i, hi).1) == (stats, Some(ErrJson))
  {
    assert stats + [] == stats;
  }

  /** Collect reads nothing from an empty window. */
  lemma CollectDone(items: seq<Item>, hi: nat, stats: seq<Status>)
    requires hi <= |items|
    ensures (stats + Collect(items, hi, hi).0, Collect(items, hi, hi).1) == (stats, None)
  {
    assert stats + [] == stats;
  }

  // ---------------------------------------------------------------------------
  // getStats

  /** The counters of getStats' loop. */
  datatype Tally = Tally(total: nat, good: nat, millis: int, err: Option<Error>)

  /** Counting entries i..hi: an undecodable entry discards the counts. */
  function Count(items: seq<Item>, i: nat, hi: nat, ok: int): (t: Tally)
    requires i <= hi <= |items|
    ensures t.good <= t.total
    decreases hi - i
  {
    if i == hi then Tally(0, 0, 0, None)
    else if !IsStatusEntry(items[i].entry) then Tally(0, 0, 0, Some(ErrJson))
    else
      var s := items[i].entry.value.status;
      var rest := Count(items, i + 1, hi, ok);
      if rest.err.Some? then rest
      else Tally(rest.total + 1, rest.good + (if s.statusCode == ok then 1 else 0),
                 rest.millis + Milliseconds(s.responseTime), None)
  }

  /**
   * Count fails exactly when some entry of the range does not decode, and
   * then discards its counters; otherwise it counts every entry, and all of
   * them are good exactly when every status code is the expected one.
   */
  lemma {:induction false} CountMeaning(items: seq<Item>, i: nat, hi: nat, ok: int)
    requires i <= hi <= |items|
    ensures var t := Count(items, i, hi, ok);
            && (t.err.None? <==> forall m | i <= m < hi :: IsStatusEntry(items[m].entry))
            && (t.err.None? ==> t.total == hi - i)
            && (t.err.None? ==> (t.good == t.total <==>
                  forall m | i <= m < hi :: items[m].entry.value.status.statusCode == ok))
            && (t.err.Some? ==> t == Tally(0, 0, 0, Some(ErrJson)))
    decreases hi - i
  {
    if i < hi && IsStatusEntry(items[i].entry) {
      CountMeaning(items, i + 1, hi, ok);
    }
  }

  /** getStats' result: mean latency in milliseconds, uptime percentage, error. */
  datatype Stats = Stats(latency: int, uptime: real, err: Option<Error>)

  /** getStats' result from its counters. */
  function Summary(t: Tally): (r: Stats)
    requires t.good <= t.total
    ensures 0.0 <= r.uptime <= 100.0
    ensures t.err.Some? ==> r == Stats(0, 0.0, t.err)
    ensures t.total == 0 ==> r.latency == 0 && r.uptime == 0.0
    ensures t.err.None? && t.total > 0 ==> (r.uptime == 100.0 <==> t.good == t.total)
    ensures t.err.None? && t.total > 0 ==> r.latency == Quo(t.millis, t.total)
  {
    if t.err.Some? then Stats(0, 0.0, t.err)
    else if t.total == 0 then Stats(0, 0.0, None)
    else
      RatioBounds(t.good, t.total);
      Stats(Quo(t.millis, t.total), t.good as real / t.total as real * 100.0, None)
  }

  /** The share of good checks lies in [0, 1] and is 1 exactly when every check was good. */
  lemma RatioBounds(good: nat, total: nat)
    requires 0 < total && good <= total
    ensures 0.0 <= good as real / total as real <= 1.0
    ensures good as real / total as real == 1.0 <==> good == total
  {
    var n := total as real;
    var q := good as real / n;
    assert q * n == good as real;
    if good < total {
      var d := (total - good) as real;
      assert (1.0 - q) * n == d;
      assert d > 0.0;
    }
  }

  /**
   * getStats(site, frame, ok): both tx.Bucket("history").Bucket(site) and
   * the cursor of a nil bucket panic; otherwise the window of history/<site>.
   */
  function StatsAt(bs: Buckets, site: Key, start: Key, end: Key, ok: int): (r: Stats)
    requires WellFormed(bs)
  {
    if !Reach(bs, [HistoryBucket, site]) then Stats(0, 0.0, Some(Panic))
    else
      ReachIn(bs, [HistoryBucket, site]);
      var items := bs[[HistoryBucket, site]];
      var lo := Seek(items, start);
      Summary(Count(items, lo, WindowEnd(items, lo, end), ok))
  }

  /**
   * Uptime is 100 exactly when every entry of a non-empty window carries the
   * expected code, and no window at all gives (0, 0).
   */
  lemma StatsMeaning(items: seq<Item>, start: Key, end: Key, ok: int)
    ensures var lo := Seek(items, start);
            var hi := WindowEnd(items, lo, end);
            var r := Summary(Count(items, lo, hi, ok));
            && 0.0 <= r.uptime <= 100.0
            && (lo == hi ==> r == Stats(0, 0.0, None))
            && (r.err.None? && lo < hi ==>
                 (r.uptime == 100.0 <==>
                    forall j | lo <= j < hi :: IsStatusEntry(items[j].entry) && items[j].entry.value.status.statusCode == ok))
  {
    var lo := Seek(items, start);
    CountMeaning(items, lo, WindowEnd(items, lo, end), ok);
  }

  method GetStats(db: DB, site: Key, frame: TimeFrame, ok: int, now: int) returns (r: Stats)
    requires db.Valid() && Sane(now)
    ensures r == StatsAt(db.buckets, site, GetTime(frame, now), TimeKey(now), ok)
  {
    var first := GetTime(frame, now);
    var end := TimeKey(now);
    var bucket := db.RootBucket(HistoryBucket);
    var history := db.Bucket(bucket, site);
    PairPath(HistoryBucket, site);
    if history.Failure? || history.value.None? {
      return Stats(0, 0.0, Some(Panic));
    }
    var items := db.buckets[history.value.value];
    var tally := ScanStats(items, Seek(items, first), end, ok);
    r := Summary(tally);
  }

  /** getStats' cursor loop on one bucket, from the Seek position. */
  method ScanStats(items: seq<Item>, lo: nat, end: Key, ok: int) returns (t: Tally)
    requires lo <= |items|
    ensures t == Count(items, lo, WindowEnd(items, lo, end), ok)
  {
    ghost var hi := WindowEnd(items, lo, end);
    ghost var goal := Count(items, lo, hi, ok);
    var total, good, millis := 0, 0, 0;
    var i := lo;
    while i < |items| && LessEq(items[i].key, end)
      invariant lo <= i <= hi
      invariant var rest := Count(items, i, hi, ok);
                goal == if rest.err.Some? then rest else Tally(total + rest.total, good + rest.good, millis + rest.millis, None)
      decreases |items| - i
    {
      WindowInside(items, lo, end, i);
      var e := items[i].entry;
      if !(e.Val? && e.value.StatusRecord?) {
        return Tally(0, 0, 0, Some(ErrJson));
      }
      total := total + 1;
      if e.value.status.statusCode == ok {
        good := good + 1;
      }
      millis := millis + Milliseconds(e.value.status.responseTime);
      i := i + 1;
    }
    WindowOutside(items, lo, end, i);
    return Tally(total, good, millis, None);
  }

  // ---------------------------------------------------------------------------
  // purgeHistData

  /** The bucket after the loop deletes every leading key up to stop. */
  function Purged(items: seq<Item>, stop: Key): (r: seq<Item>)
    ensures |r| <= |items|
  {
    if items != [] && LessEq(items[0].key, stop) then Purged(items[1..], stop) else items
  }

  /** Whether the loop meets a nested bucket, whose Delete fails. */
  predicate PurgeBlocked(items: seq<Item>, stop: Key) {
    items != [] && LessEq(items[0].key, stop) && (items[0].entry == Sub || PurgeBlocked(items[1..], stop))
  }

  /**
   * In a sorted bucket, purging keeps exactly the keys after the cutoff, each
   * with its entry, and fails exactly when a nested bucket lies at or before it.
   */
  lemma {:induction false} PurgedMeaning(items: seq<Item>, stop: Key, k: Key)
    requires Sorted(items)
    ensures Sorted(Purged(items, stop))
    ensures Find(Purged(items, stop), k) == if LessEq(k, stop) then None else Find(items, k)
    ensures PurgeBlocked(items, stop) <==> exists j | 0 <= j < |items| :: LessEq(items[j].key, stop) && items[j].entry == Sub
    decreases |items|
  {
    if items != [] {
      SortedTail(items);
      PurgedMeaning(items[1..], stop, k);
      var head := items[0];
      FindKeySet(items[1..], k);
      FindKeySet(items[1..], head.key);
      LessIrreflexive(head.key);
      if LessEq(head.key, stop) {
        if !LessEq(k, stop) && k == head.key {
          assert false;
        }
      } else {
        // every key from here on is past the cutoff
        assert Find(items, k) == Find(Purged(items, stop), k) by {
          assert Purged(items, stop) == items;
        }
        if LessEq(k, stop) && Find(items, k).Some? {
          if k != head.key {
            assert Less(head.key, k);
            LessEqTransitive(head.key, k, stop);
          }
          assert false;
        }
        forall j | 0 <= j < |items| && LessEq(items[j].key, stop)
          ensures false
        {
          if j > 0 {
            LessEqTransitive(head.key, items[j].key, stop);
          }
        }
      }
      if PurgeBlocked(items, stop) && items[0].entry != Sub {
        var j :| 0 <= j < |items[1..]| && LessEq(items[1..][j].key, stop) && items[1..][j].entry == Sub;
        assert items[j + 1] == items[1..][j];
      }
    }
  }

  /**
   * purgeHistData(site, date): an unparsable date is an error; the history
   * or site bucket missing is a panic; a nested bucket in the range fails the
   * delete, and the transaction rolls back; otherwise the leading range up to
   * the cutoff is deleted.
   */
  function PurgeOutcome(bs: Buckets, site: Key, date: string): (r: Result<Buckets, Error>)
    requires WellFormed(bs)
  {
    match ParseDate(date)
    case None => Failure(ErrParse)
    case Some(t) =>
      var stop := TimeKey(t);
      if !Reach(bs, [HistoryBucket, site]) then Failure(Panic)
      else
        ReachIn(bs, [HistoryBucket, site]);
        var items := bs[[HistoryBucket, site]];
        if PurgeBlocked(items, stop) then Failure(ErrIncompatibleValue)
        else Success(bs[[HistoryBucket, site] := Purged(items, stop)])
  }

  method PurgeHistData(db: DB, site: Key, date: string) returns (err: Option<Error>)
    requires db.Valid()
    modifies db
    ensures db.Valid()
    ensures PurgeOutcome(old(db.buckets), site, date).Failure? ==>
              err == Some(PurgeOutcome(old(db.buckets), site, date).error) && db.buckets == old(db.buckets)
    ensures PurgeOutcome(old(db.buckets), site, date).Success? ==>
              err == None && db.buckets == PurgeOutcome(old(db.buckets), site, date).value
  {
    var date' := ParseDate(date);
    if date'.None? {
      return Some(ErrParse);
    }
    var stop := TimeKey(date'.value);
    var bucket := db.RootBucket(HistoryBucket);
    var history := db.Bucket(bucket, site);
    PairPath(HistoryBucket, site);
    if history.Failure? || history.value.None? {
      return Some(Panic);
    }
    var p := history.value.value;
    var snapshot := db.buckets;
    err := None;
    while true
      invariant db.Valid() && db.Live(Some(p))
      invariant db.buckets == snapshot[p := db.buckets[p]]
      invariant Purged(db.buckets[p], stop) == Purged(snapshot[p], stop)
      invariant PurgeBlocked(db.buckets[p], stop) == PurgeBlocked(snapshot[p], stop)
      decreases |db.buckets[p]|
    {
      var items := db.buckets[p];
      if items == [] || !LessEq(items[0].key, stop) {
        break;
      }
      ghost var before := db.buckets;
      var e := db.Delete(Some(p), items[0].key);
      if e.Some? {
        db.buckets := snapshot;
        return e;
      }
      RemoveFirst(items);
      ReachSameLinks(before, db.buckets, p);
      UpdateTwice(snapshot, p, before[p], db.buckets[p]);
    }
  }
}
