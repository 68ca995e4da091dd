/**
 * The change detector and scheduler rules of monitor.go: which monitors get
 * a task, what one tick of a monitor sends and stores, and the two loops over
 * a monitor's notifiers.
 *
 * A tick is described by the events it causes, in order: a send to a
 * notification provider, or a successful write to the store.  The providers'
 * transports are the oracle `Transport`, which says whether a send fails.
 */
module Detector {
  import opened Wrappers
  import opened Keys
  import opened Clock
  import opened Types
  import opened Bolt
  import opened Database
  import opened Monitors
  import opened Notify
  import opened Probe

  /** What a tick does outside the process, in order. */
  datatype Event =
      /** A status or certificate notice handed to a known provider. */
    | Sent(notifier: string, kind: NotifyKind, cert: bool)
      /** A successful addKey(key, bucket, status). */
    | Stored(bucket: Path, key: Key)

  /** Whether a provider fails to send: its kind, its stored data, the status, a certificate notice. */
  type Transport = (NotifyKind, Option<Value>, Status, bool) -> bool

  /** What getNotify(n) yields: the provider kind and its data, or the error. */
  type Lookup = Result<(NotifyKind, Option<Value>), Error>

  /** getNotify of each name, in order. */
  function Lookups(bs: Buckets, names: seq<string>): (r: seq<Lookup>)
    requires WellFormed(bs)
    ensures |r| == |names|
  {
    seq(|names|, j requires 0 <= j < |names| => NotifyAt(bs, names[j]))
  }

  lemma LookupsAt(bs: Buckets, names: seq<string>, j: nat)
    requires WellFormed(bs) && j < |names|
    ensures Lookups(bs, names)[j] == NotifyAt(bs, names[j])
  {
  }

  /** getNotify(names[i]), as the j-th lookup. */
  method LookupAt(db: DB, names: seq<string>, i: nat) returns (kind: NotifyKind, data: Option<Value>, err: Option<Error>)
    requires db.Valid() && i < |names|
    ensures err.Some? <==> Lookups(db.buckets, names)[i].Failure?
    ensures err.None? ==> Lookups(db.buckets, names)[i] == Success((kind, data))
  {
    kind, data, err := GetNotify(db, names[i]);
    LookupsAt(db.buckets, names, i);
  }

  // ---------------------------------------------------------------------------
  // sendStatusNotification and sendCertExpiryNotification

  /**
   * The notices the loop over `names` hands out from name i on.  A failed
   * getNotify ends either loop.  The status loop (cert false) logs an unknown
   * kind and a failed send and goes on; the certificate loop (cert true)
   * stops at both.
   */
  function NoticesFrom(found: seq<Lookup>, names: seq<string>, i: nat, s: Status, cert: bool, fails: Transport): (r: seq<Event>)
    requires |found| == |names| && i <= |names|
    ensures |r| <= |names| - i
    decreases |names| - i
  {
    if i == |names| then []
    else if found[i].Failure? then []
    else
      var (kind, data) := found[i].value;
      if kind == Unknown then
        if cert then [] else NoticesFrom(found, names, i + 1, s, cert, fails)
      else
        [Sent(names[i], kind, cert)] +
        if cert && fails(kind, data, s, cert) then [] else NoticesFrom(found, names, i + 1, s, cert, fails)
  }

  /** Whether the loop ends at notifier n (after handing it its notice, if any). */
  predicate Halts(lookup: Lookup, s: Status, cert: bool, fails: Transport) {
    lookup.Failure? || (cert && (lookup.value.0 == Unknown || fails(lookup.value.0, lookup.value.1, s, cert)))
  }

  /**
   * Both notifier loops in one: m.sendStatusNotification(status) for cert
   * false, m.sendCertExpiryNotification(status) for cert true.
   */
  method SendNotifications(db: DB, names: seq<string>, s: Status, cert: bool, fails: Transport)
    returns (events: seq<Event>)
    requires db.Valid()
    ensures events == NoticesFrom(Lookups(db.buckets, names), names, 0, s, cert, fails)
  {
    ghost var found := Lookups(db.buckets, names);
    ghost var goal := NoticesFrom(found, names, 0, s, cert, fails);
    events := [];
    var i := 0;
    while i < |names|
      invariant i <= |names|
      invariant events + NoticesFrom(found, names, i, s, cert, fails) == goal
    {
      var out, stop := Visit(db, names, i, s, cert, fails);
      Advance(found, names, i, s, cert, fails, events, out, stop, goal);
      if stop {
        return events + out;
      }
      events := events + out;
      i := i + 1;
    }
    Advance(found, names, i, s, cert, fails, events, [], true, goal);
  }

  /**
   * The notices handed out so far followed by the rest of the loop are the
   * whole loop's notices, one turn further on as well.
   */
  lemma Advance(found: seq<Lookup>, names: seq<string>, i: nat, s: Status, cert: bool, fails: Transport,
                events: seq<Event>, out: seq<Event>, stop: bool, goal: seq<Event>)
    requires |found| == |names| && i <= |names|
    requires events + NoticesFrom(found, names, i, s, cert, fails) == goal
    requires i < |names| ==>
               NoticesFrom(found, names, i, s, cert, fails) ==
               if stop then out else out + NoticesFrom(found, names, i + 1, s, cert, fails)
    requires i == |names| ==> out == [] && stop
    ensures stop ==> events + out == goal
    ensures !stop && i < |names| ==> (events + out) + NoticesFrom(found, names, i + 1, s, cert, fails) == goal
  {
    if i < |names| {
      Regroup(events, out, stop, NoticesFrom(found, names, i, s, cert, fails),
              NoticesFrom(found, names, i + 1, s, cert, fails), goal);
    } else {
      assert events + [] == events;
    }
  }

  /** Advance on plain sequences: `here` is the rest from this turn, `next` from the next one. */
  lemma Regroup<T>(events: seq<T>, out: seq<T>, stop: bool, here: seq<T>, next: seq<T>, goal: seq<T>)
    requires events + here == goal
    requires here == if stop then out else out + next
    ensures stop ==> events + out == goal
    ensures !stop ==> (events + out) + next == goal
  {
    if !stop {
      assert events + (out + next) == (events + out) + next;
    }
  }

  /**
   * One turn of either loop, at names[i]: the notice it hands out, if any,
   * and whether the loop ends there.
   */
  method Visit(db: DB, names: seq<string>, i: nat, s: Status, cert: bool, fails: Transport)
    returns (out: seq<Event>, stop: bool)
    requires db.Valid() && i < |names|
    ensures var found := Lookups(db.buckets, names);
            NoticesFrom(found, names, i, s, cert, fails) ==
            if stop then out else out + NoticesFrom(found, names, i + 1, s, cert, fails)
  {
    var kind, data, err := LookupAt(db, names, i);
    if err.Some? {
      return [], true;
    }
    if kind == Unknown {
      return [], cert;
    }
    out := [Sent(names[i], kind, cert)];
    stop := cert && fails(kind, data, s, cert);
  }

  /** Every event of a notifier loop is a notice of that loop's sort to a known provider. */
  lemma {:induction false} NoticesAreSends(found: seq<Lookup>, names: seq<string>, i: nat, s: Status, cert: bool, fails: Transport)
    requires |found| == |names| && i <= |names|
    ensures forall e | e in NoticesFrom(found, names, i, s, cert, fails) :: e.Sent? && e.cert == cert && e.kind != Unknown
    decreases |names| - i
  {
    if i < |names| {
      NoticesAreSends(found, names, i + 1, s, cert, fails);
    }
  }

  /**
   * The loop ends at the first notifier it halts at: the names after it get
   * nothing, whatever they are.
   */
  lemma {:induction false} HaltsHere(found: seq<Lookup>, names: seq<string>, j: nat, i: nat, s: Status, cert: bool, fails: Transport)
    requires |found| == |names| && j <= i < |names| && Halts(found[i], s, cert, fails)
    ensures NoticesFrom(found, names, j, s, cert, fails) == NoticesFrom(found[..i + 1], names[..i + 1], j, s, cert, fails)
    decreases i - j
  {
    var short := names[..i + 1];
    assert short[j] == names[j] && found[..i + 1][j] == found[j];
    if j < i {
      HaltsHere(found, names, j + 1, i, s, cert, fails);
    } else {
      assert |short| == i + 1;
    }
  }

  /**
   * A send error never ends the status loop: every notifier before the first
   * failed lookup that names a known provider gets its notice, whichever
   * sends fail.
   */
  lemma {:induction false} StatusLoopReachesAll(found: seq<Lookup>, names: seq<string>, i: nat, s: Status, fails: Transport, fails': Transport)
    requires |found| == |names| && i <= |names|
    requires forall j | i <= j < |names| :: found[j].Success?
    ensures NoticesFrom(found, names, i, s, false, fails) == NoticesFrom(found, names, i, s, false, fails')
    ensures forall j | i <= j < |names| && found[j].value.0 != Unknown ::
              Sent(names[j], found[j].value.0, false) in NoticesFrom(found, names, i, s, false, fails)
    decreases |names| - i
  {
    if i < |names| {
      StatusLoopReachesAll(found, names, i + 1, s, fails, fails');
    }
  }

  // ---------------------------------------------------------------------------
  // updateStatus

  /**
   * How a tick ended.  A write that fails with `Panic` is the nil-bucket Put
   * of addKey: nothing recovers it, so the process ends on that tick.
   */
  datatype Step =
    | Suppressed                    // same text within the hour: nothing sent, nothing written
    | StatusWriteFailed(err: Error) // addKey of the current status failed; no history entry
    | HistoryWriteFailed(err: Error)
    | Recorded

  /** The events, the store afterwards and how the tick ended. */
  datatype Tick = Tick(events: seq<Event>, store: Buckets, step: Step)

  /** The new status repeats the stored one within the hour. */
  predicate Quiet(s: Status, prev: Status) {
    s.status == prev.status && Clock.Sub(s.time, prev.time) < Hour
  }

  /** The notices of an unsuppressed tick: on a change the status loop, else the certificate loop when due. */
  function Notices(bs: Buckets, m: Monitor, s: Status, prev: Status, fails: Transport): seq<Event>
    requires WellFormed(bs)
  {
    var found := Lookups(bs, m.notifiers);
    (if s.status != prev.status then NoticesFrom(found, m.notifiers, 0, s, false, fails) else []) +
    (if s.certExpiry < 10 && s.status == prev.status then NoticesFrom(found, m.notifiers, 0, s, true, fails) else [])
  }

  /**
   * The two writes of a tick: addKey(name, ["status"], s) and, only when it
   * succeeded, addKey(time key, ["history", name], s).
   */
  function Persist(bs: Buckets, name: Key, s: Status): (t: Tick)
    requires WellFormed(bs) && Formattable(s.time)
    ensures WellFormed(t.store) && !t.step.Suppressed?
    ensures t.step.StatusWriteFailed? ==> t.store == bs
    ensures t.events == Writes(name, s, t.step)
  {
    var first := Added(bs, name, Some([StatusBucket]), StatusRecord(s));
    if first.Failure? then Tick([], bs, StatusWriteFailed(first.error))
    else
      var second := Added(first.value, TimeKey(s.time), Some([HistoryBucket, name]), StatusRecord(s));
      if second.Failure? then Tick([Stored([StatusBucket], name)], first.value, HistoryWriteFailed(second.error))
      else Tick([Stored([StatusBucket], name), Stored([HistoryBucket, name], TimeKey(s.time))], second.value, Recorded)
  }

  /** The writes a tick has made by the time it ends with `step`. */
  function Writes(name: Key, s: Status, step: Step): seq<Event>
    requires Formattable(s.time)
  {
    match step
    case Suppressed => []
    case StatusWriteFailed(_) => []
    case HistoryWriteFailed(_) => [Stored([StatusBucket], name)]
    case Recorded => [Stored([StatusBucket], name), Stored([HistoryBucket, name], TimeKey(s.time))]
  }

  /** The writes of a tick are all Stored events. */
  lemma WritesStored(name: Key, s: Status, step: Step)
    requires Formattable(s.time)
    ensures forall e | e in Writes(name, s, step) :: e.Stored?
  {
  }

  /**
   * m.updateStatus() once Check has returned s: getStatus (its error only
   * logged, so a missing record compares as the zero Status), the decision,
   * the notices, then the writes.
   */
  function TickOf(bs: Buckets, m: Monitor, s: Status, fails: Transport): (t: Tick)
    requires WellFormed(bs) && Formattable(s.time)
    ensures WellFormed(t.store)
  {
    var prev := StatusOf(bs, m.name).0;
    if Quiet(s, prev) then Tick([], bs, Suppressed)
    else
      var p := Persist(bs, m.name, s);
      Tick(Notices(bs, m, s, prev, fails) + p.events, p.store, p.step)
  }

  /** m.updateStatus() at instant `now`. */
  method UpdateStatus(db: DB, m: Monitor, net: Net, now: int, fails: Transport) returns (events: seq<Event>, step: Step)
    requires db.Valid() && Formattable(now)
    modifies db
    ensures db.Valid()
    ensures Formattable(Checked(net, m, now).time)
    ensures TickOf(old(db.buckets), m, Checked(net, m, now), fails) == Tick(events, db.buckets, step)
  {
    var s := Check(net, m, now);
    var prev, err := GetStatus(db, m.name);
    var same := s.status == prev.status;
    events := [];
    if same {
      if Clock.Sub(s.time, prev.time) < Hour {
        return [], Suppressed;
      }
    } else {
      events := SendNotifications(db, m.notifiers, s, false, fails);
    }
    if s.certExpiry < 10 && same {
      var certs := SendNotifications(db, m.notifiers, s, true, fails);
      events := events + certs;
    }
    assert events == Notices(db.buckets, m, s, prev, fails);
    var writes;
    writes, step := Record(db, m.name, s);
    events := events + writes;
  }

  /** The two addKey calls of updateStatus, in order. */
  method Record(db: DB, name: Key, s: Status) returns (writes: seq<Event>, step: Step)
    requires db.Valid() && Formattable(s.time)
    modifies db
    ensures db.Valid()
    ensures Persist(old(db.buckets), name, s) == Tick(writes, db.buckets, step)
  {
    ghost var start := db.buckets;
    var err := AddKey(db, name, Some([StatusBucket]), StatusRecord(s));
    if err.Some? {
      PersistSteps(start, name, s, start, start);
      return [], StatusWriteFailed(err.value);
    }
    ghost var mid := db.buckets;
    writes := [Stored([StatusBucket], name)];
    err := AddKey(db, TimeKey(s.time), Some([HistoryBucket, name]), StatusRecord(s));
    PersistSteps(start, name, s, mid, db.buckets);
    if err.Some? {
      return writes, HistoryWriteFailed(err.value);
    }
    writes := writes + [Stored([HistoryBucket, name], TimeKey(s.time))];
    step := Recorded;
  }

  /** Persist read off the outcomes of its two writes. */
  lemma PersistSteps(bs: Buckets, name: Key, s: Status, mid: Buckets, after: Buckets)
    requires WellFormed(bs) && Formattable(s.time)
    ensures var first := Added(bs, name, Some([StatusBucket]), StatusRecord(s));
            first.Failure? ==> Persist(bs, name, s) == Tick([], bs, StatusWriteFailed(first.error))
    ensures var first := Added(bs, name, Some([StatusBucket]), StatusRecord(s));
            first == Success(mid) ==>
              var second := Added(mid, TimeKey(s.time), Some([HistoryBucket, name]), StatusRecord(s));
              && (second.Failure? ==> Persist(bs, name, s) == Tick([Stored([StatusBucket], name)], mid, HistoryWriteFailed(second.error)))
              && (second == Success(after) ==>
                    Persist(bs, name, s) == Tick([Stored([StatusBucket], name), Stored([HistoryBucket, name], TimeKey(s.time))], after, Recorded))
  {
  }

  // ---------------------------------------------------------------------------
  // Properties of a tick

  /** A repeated text within the hour is exactly the case that sends and writes nothing. */
  lemma SuppressRule(bs: Buckets, m: Monitor, s: Status, fails: Transport)
    requires WellFormed(bs) && Formattable(s.time)
    ensures TickOf(bs, m, s, fails).step == Suppressed <==> Quiet(s, StatusOf(bs, m.name).0)
    ensures TickOf(bs, m, s, fails).step == Suppressed ==>
              TickOf(bs, m, s, fails).events == [] && TickOf(bs, m, s, fails).store == bs
  {
  }

  /** Every notice of a tick comes before every write. */
  lemma NoticesBeforeWrites(bs: Buckets, m: Monitor, s: Status, fails: Transport)
    requires WellFormed(bs) && Formattable(s.time)
    ensures var ev := TickOf(bs, m, s, fails).events;
            forall i, j | 0 <= i < j < |ev| :: !(ev[i].Stored? && ev[j].Sent?)
  {
    var prev := StatusOf(bs, m.name).0;
    if !Quiet(s, prev) {
      var found := Lookups(bs, m.notifiers);
      NoticesAreSends(found, m.notifiers, 0, s, false, fails);
      NoticesAreSends(found, m.notifiers, 0, s, true, fails);
      var p := Persist(bs, m.name, s);
      WritesStored(m.name, s, p.step);
      SendsThenWrites(Notices(bs, m, s, prev, fails), p.events);
    }
  }

  /** A run of notices followed by a run of writes has no write before a notice. */
  lemma SendsThenWrites(sent: seq<Event>, writes: seq<Event>)
    requires forall e | e in sent :: e.Sent?
    requires forall e | e in writes :: e.Stored?
    ensures forall i, j | 0 <= i < j < |sent + writes| :: !((sent + writes)[i].Stored? && (sent + writes)[j].Sent?)
  {
    var ev := sent + writes;
    forall i, j | 0 <= i < j < |ev| ensures !(ev[i].Stored? && ev[j].Sent?) {
      if i < |sent| {
        assert ev[i] in sent;
      } else {
        assert ev[j] == writes[j - |sent|];
        assert ev[j] in writes;
      }
    }
  }

  /**
   * On a change of text the status loop runs first, and no certificate
   * notice goes out on that tick.
   */
  lemma ChangeNotifies(bs: Buckets, m: Monitor, s: Status, fails: Transport)
    requires WellFormed(bs) && Formattable(s.time)
    requires s.status != StatusOf(bs, m.name).0.status
    ensures var ev := TickOf(bs, m, s, fails).events;
            var n := NoticesFrom(Lookups(bs, m.notifiers), m.notifiers, 0, s, false, fails);
            |n| <= |ev| && ev[..|n|] == n && forall e | e in ev && e.Sent? :: !e.cert
  {
    var prev := StatusOf(bs, m.name).0;
    var n := NoticesFrom(Lookups(bs, m.notifiers), m.notifiers, 0, s, false, fails);
    NoticesAreSends(Lookups(bs, m.notifiers), m.notifiers, 0, s, false, fails);
    var p := Persist(bs, m.name, s);
    assert Notices(bs, m, s, prev, fails) == n;
    var ev := n + p.events;
    assert ev[..|n|] == n;
    WritesStored(m.name, s, Persist(bs, m.name, s).step);
  }

  /**
   * A certificate notice goes out only when the text is unchanged, an hour
   * has passed and the certificate has fewer than ten days left; then the
   * certificate loop runs first, so the first notifier gets the notice when
   * it names a known provider.
   */
  lemma CertRule(bs: Buckets, m: Monitor, s: Status, fails: Transport)
    requires WellFormed(bs) && Formattable(s.time)
    ensures var prev := StatusOf(bs, m.name).0;
            (exists e | e in TickOf(bs, m, s, fails).events :: e.Sent? && e.cert) ==>
              s.status == prev.status && Clock.Sub(s.time, prev.time) >= Hour && s.certExpiry < 10
    ensures var prev := StatusOf(bs, m.name).0;
            s.status == prev.status && Clock.Sub(s.time, prev.time) >= Hour && s.certExpiry < 10 &&
            |m.notifiers| > 0 && NotifyAt(bs, m.notifiers[0]).Success? && NotifyAt(bs, m.notifiers[0]).value.0 != Unknown ==>
              TickOf(bs, m, s, fails).events != [] &&
              TickOf(bs, m, s, fails).events[0] == Sent(m.notifiers[0], NotifyAt(bs, m.notifiers[0]).value.0, true)
  {
    var prev := StatusOf(bs, m.name).0;
    if !Quiet(s, prev) {
      var found := Lookups(bs, m.notifiers);
      NoticesAreSends(found, m.notifiers, 0, s, false, fails);
      WritesStored(m.name, s, Persist(bs, m.name, s).step);
      if |m.notifiers| > 0 {
        LookupsAt(bs, m.notifiers, 0);
      }
    }
  }

  /**
   * The status is written before the history: when that write fails the
   * store is as it was; after it the status reads back through getStatus,
   * and a recorded tick also reads back under its time key.
   */
  lemma PersistOrder(bs: Buckets, name: Key, s: Status)
    requires WellFormed(bs) && Formattable(s.time)
    ensures var t := Persist(bs, name, s);
            t.step.HistoryWriteFailed? || t.step.Recorded? ==> StatusOf(t.store, name) == (s, None)
    ensures var t := Persist(bs, name, s);
            t.step.Recorded? ==> KeyAt(t.store, [HistoryBucket, name, TimeKey(s.time)]) == Success(Some(StatusRecord(s)))
  {
    var rec := StatusRecord(s);
    var first := Added(bs, name, Some([StatusBucket]), rec);
    if first.Failure? {
      PersistSteps(bs, name, s, bs, bs);
    } else {
      var mid := first.value;
      StatusWriteReads(bs, name, s);
      var second := Added(mid, TimeKey(s.time), Some([HistoryBucket, name]), rec);
      if second.Failure? {
        PersistSteps(bs, name, s, mid, mid);
      } else {
        PersistSteps(bs, name, s, mid, second.value);
        HistoryWriteReads(mid, name, TimeKey(s.time), s);
      }
    }
  }

  /** An unsuppressed tick ends with the writes of Persist; a failed status write leaves no entry. */
  lemma TickWrites(bs: Buckets, m: Monitor, s: Status, fails: Transport)
    requires WellFormed(bs) && Formattable(s.time) && !Quiet(s, StatusOf(bs, m.name).0)
    ensures TickOf(bs, m, s, fails).store == Persist(bs, m.name, s).store
    ensures TickOf(bs, m, s, fails).step.StatusWriteFailed? ==>
              TickOf(bs, m, s, fails).store == bs && forall e | e in TickOf(bs, m, s, fails).events :: !e.Stored?
  {
    var prev := StatusOf(bs, m.name).0;
    var found := Lookups(bs, m.notifiers);
    NoticesAreSends(found, m.notifiers, 0, s, false, fails);
    NoticesAreSends(found, m.notifiers, 0, s, true, fails);
    var p := Persist(bs, m.name, s);
    if p.step.StatusWriteFailed? {
      assert TickOf(bs, m, s, fails).events == Notices(bs, m, s, prev, fails);
    }
  }

  // ---------------------------------------------------------------------------
  // startMonitors

  /** The monitors that get a task: the active ones, in order. */
  function ActiveOf(ms: seq<Monitor>): (r: seq<Monitor>)
    ensures |r| <= |ms|
    ensures forall x | x in r :: x.active
  {
    if ms == [] then [] else (if ms[0].active then [ms[0]] else []) + ActiveOf(ms[1..])
  }

  /** Exactly one task per active monitor and none for an inactive one. */
  lemma {:induction false} ActiveExact(ms: seq<Monitor>)
    ensures forall x :: multiset(ActiveOf(ms))[x] == if x.active then multiset(ms)[x] else 0
  {
    if ms != [] {
      ActiveExact(ms[1..]);
      assert ms == [ms[0]] + ms[1..];
    }
  }

  /** One step of the start-up loop. */
  lemma ActiveStep(ms: seq<Monitor>, i: nat)
    requires i < |ms|
    ensures ActiveOf(ms[i..]) == (if ms[i].active then [ms[i]] else []) + ActiveOf(ms[i + 1..])
  {
    assert ms[i..][1..] == ms[i + 1..];
  }

  /**
   * startMonitors(): the monitors a task is started for, and getMonitors'
   * error.  `Some(Panic)` is the nil-bucket ForEach of getMonitors when the
   * store has no `monitors` bucket: nothing recovers it, so the process
   * ends there.  Any other error is only logged, and no task is started.
   */
  method StartMonitors(db: DB) returns (started: seq<Monitor>, err: Option<Error>)
    requires db.Valid()
    ensures err == MonitorsAt(db.buckets).1
    ensures err == Some(Panic) <==> !Reach(db.buckets, [MonitorsBucket])
    ensures err.Some? ==> started == []
    ensures err.None? ==> started == ActiveOf(MonitorsAt(db.buckets).0)
  {
    var monitors;
    monitors, err := GetMonitors(db);
    started := [];
    if err.Some? {
      return;
    }
    started := StartActive(monitors);
  }

  /** The loop of startMonitors: a task for each active monitor, in order. */
  method StartActive(monitors: seq<Monitor>) returns (started: seq<Monitor>)
    ensures started == ActiveOf(monitors)
  {
    started := [];
    var i := 0;
    while i < |monitors|
      invariant i <= |monitors|
      invariant started + ActiveOf(monitors[i..]) == ActiveOf(monitors)
    {
      var m := monitors[i];
      ActiveStep(monitors, i);
      if m.active {
        assert (started + [m]) + ActiveOf(monitors[i + 1..]) == started + ([m] + ActiveOf(monitors[i + 1..]));
        started := started + [m];
      }
      i := i + 1;
    }
  }
}
