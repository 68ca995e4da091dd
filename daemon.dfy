/**
 * The older daemon of uptimed/monitor.go.  Each monitor object keeps the
 * last status it acted on in its own field, which is the baseline of change
 * detection; a tick probes the site, compares with that field, replaces it
 * and then writes the store.
 *
 * The network, the clock, time.ParseDuration and Time.Format are the oracle
 * `World`; whether uptime.OpenDB succeeded on a tick is a parameter of it.
 */
module Daemon {
  import opened Wrappers
  import opened Keys
  import opened Clock
  import opened Types
  import opened Bolt
  import opened Database

  /** uptime.Type, the probe kind as a number: HTTP, PING and TCP in that order. */
  const HttpType: int := 0
  const PingType: int := 1
  const TcpType: int := 2

  /** Type.Name(): MonitorTypeNames[t], the empty string for a number it lacks. */
  function TypeName(t: int): (r: string)
    ensures r != [] <==> t == HttpType || t == PingType || t == TcpType
  {
    if t == HttpType then "http"
    else if t == PingType then "ping"
    else if t == TcpType then "tcp"
    else ""
  }

  /** The world a daemon tick talks to. */
  datatype World = World(
    parse: string -> Option<int>,                       // time.ParseDuration
    get: (string, int, int) -> Result<(string, int), string>, // client.Get(url) with a timeout at an instant: (resp.Status, resp.StatusCode) or err.Error()
    rfc3339: int -> Key                                 // Time.Format(time.RFC3339)
  )

  /** checkHTTP's timeout when the configured one does not parse. */
  const DefaultTimeout: int := 60 * Second

  /** The prefix of the status text of a monitor that is not of the HTTP kind. */
  const WrongType: string := "wrong type for http check"

  /** The checkers getChecker knows: checkHTTP only. */
  datatype Checker = HttpChecker

  /** getChecker(t): checkHTTP for the HTTP kind, nil for any other. */
  function GetChecker(t: int): (c: Option<Checker>)
    ensures c.Some? <==> t == HttpType
  {
    if t == HttpType then Some(HttpChecker) else None
  }

  /** How monitor(ctx, wg, m) starts. */
  datatype Launch =
    | NoChecker          // getChecker returned nil: logged, the goroutine returns
    | BadFrequency       // Freq does not parse: logged, the goroutine returns
    | TickerPanic        // a non-positive frequency: time.NewTicker panics
    | Ticking(period: int)

  /** One wake-up of the select loop, in the order the channels deliver them. */
  datatype Signal =
    | Done                          // ctx.Done(): the loop returns
    | Fire(now: int, dbOpens: bool)  // ticker.C or timer.C at `now`; whether OpenDB succeeds on that tick

  /**
   * How one updateStatus call ended.  A write that fails with `Panic` is
   * the nil-bucket Put of addKey: nothing recovers it, so the process ends
   * on that tick.
   */
  datatype Outcome =
    | Skipped                      // same text within the hour
    | OpenFailed                   // uptime.OpenDB failed
    | StatusWriteFailed(err: Error)
    | HistoryWriteFailed(err: Error)
    | Written
  {
    /** The tick panicked, and the daemon ends with it. */
    predicate Fatal() {
      (StatusWriteFailed? || HistoryWriteFailed?) && err == Panic
    }
  }

  /** The baseline, the store and the outcome after one updateStatus. */
  datatype Update = Update(baseline: Status, store: Buckets, outcome: Outcome)

  /** The new status repeats the baseline within the hour. */
  predicate Repeats(s: Status, baseline: Status) {
    s.status == baseline.status && Clock.Sub(s.time, baseline.time) < Hour
  }

  /** uptime.Monitor as the daemon holds it; the loop only ever replaces Status. */
  class Monitor {
    const kind: int
    const url: string
    const freq: string
    const name: string
    const timeout: string
    const notifiers: seq<string>
    var status: Status

    constructor (kind: int, url: string, freq: string, name: string, timeout: string, status: Status, notifiers: seq<string>)
      ensures this.kind == kind && this.url == url && this.freq == freq && this.name == name
      ensures this.timeout == timeout && this.status == status && this.notifiers == notifiers
    {
      this.kind := kind;
      this.url := url;
      this.freq := freq;
      this.name := name;
      this.timeout := timeout;
      this.status := status;
      this.notifiers := notifiers;
    }

    /** The client timeout: the configured one, sixty seconds when it does not parse. */
    function Timeout(w: World): int {
      w.parse(timeout).GetOr(DefaultTimeout)
    }

    /** checkHTTP(m) at instant `now`. */
    function Probe(w: World, now: int): Status {
      var s := EmptyStatus.(site := name, time := now);
      if kind != HttpType then s.(status := WrongType + TypeName(kind))
      else
        var r := w.get(url, Timeout(w), now);
        if r.Failure? then s.(status := r.error)
        else s.(status := r.value.0, statusCode := r.value.1)
    }

    /** The start-up guards of monitor(ctx, wg, m), in their order. */
    function LaunchOf(w: World): Launch {
      if GetChecker(kind).None? then NoChecker
      else if w.parse(freq).None? then BadFrequency
      else if w.parse(freq).value <= 0 then TickerPanic
      else Ticking(w.parse(freq).value)
    }

    /**
     * updateStatus(m, checkHTTP) once the probe returned s: the comparison
     * with the baseline, the new baseline, OpenDB, then the two addKey calls.
     */
    function Next(w: World, s: Status, baseline: Status, bs: Buckets, dbOpens: bool): (u: Update)
      requires WellFormed(bs)
      ensures WellFormed(u.store)
    {
      if Repeats(s, baseline) then Update(baseline, bs, Skipped)
      else if !dbOpens then Update(s, bs, OpenFailed)
      else
        var first := Added(bs, name, Some([StatusBucket]), StatusRecord(s));
        if first.Failure? then Update(s, bs, StatusWriteFailed(first.error))
        else
          var second := Added(first.value, w.rfc3339(s.time), Some([HistoryBucket, name]), StatusRecord(s));
          if second.Failure? then Update(s, first.value, HistoryWriteFailed(second.error))
          else Update(s, second.value, Written)
    }

    /**
     * The select loop from a baseline and a store: one update per Fire until
     * Done, or until an update panics.
     */
    function Replay(w: World, baseline: Status, bs: Buckets, signals: seq<Signal>): (r: (Status, Buckets, seq<Outcome>))
      requires WellFormed(bs)
      ensures WellFormed(r.1) && |r.2| <= |signals|
      decreases |signals|
    {
      if signals == [] || signals[0].Done? then (baseline, bs, [])
      else
        var u := Next(w, Probe(w, signals[0].now), baseline, bs, signals[0].dbOpens);
        if u.outcome.Fatal() then (u.baseline, u.store, [u.outcome])
        else
          var rest := Replay(w, u.baseline, u.store, signals[1..]);
          (rest.0, rest.1, [u.outcome] + rest.2)
    }

    /** checkHTTP(m): the status of one GET; the URL is left unset. */
    method CheckHTTP(w: World, now: int) returns (s: Status)
      ensures s == Probe(w, now)
    {
      s := EmptyStatus.(site := name, time := now);
      if kind != HttpType {
        s := s.(status := WrongType + TypeName(kind));
        return;
      }
      var limit := DefaultTimeout;
      var parsed := w.parse(timeout);
      if parsed.Some? {
        limit := parsed.value;
      }
      var resp := w.get(url, limit, now);
      if resp.Failure? {
        s := s.(status := resp.error);
        return;
      }
      s := s.(status := resp.value.0, statusCode := resp.value.1);
    }

    /**
     * updateStatus(m, checkHTTP) at instant `now`: m.Status is replaced
     * before the store is opened.
     */
    method UpdateStatus(db: DB, w: World, now: int, dbOpens: bool) returns (outcome: Outcome)
      requires db.Valid()
      modifies this, db
      ensures db.Valid()
      ensures Next(w, Probe(w, now), old(status), old(db.buckets), dbOpens) == Update(status, db.buckets, outcome)
    {
      var s := CheckHTTP(w, now);
      if s.status == status.status {
        if Clock.Sub(s.time, status.time) < Hour {
          return Skipped;
        }
      }
      status := s;
      if !dbOpens {
        return OpenFailed;
      }
      var err := AddKey(db, name, Some([StatusBucket]), StatusRecord(s));
      if err.Some? {
        return StatusWriteFailed(err.value);
      }
      err := AddKey(db, w.rfc3339(s.time), Some([HistoryBucket, name]), StatusRecord(s));
      if err.Some? {
        return HistoryWriteFailed(err.value);
      }
      return Written;
    }

    /**
     * monitor(ctx, wg, m): the guards, then one updateStatus per wake-up of
     * the select loop until the context is done.
     */
    method Run(db: DB, w: World, signals: seq<Signal>) returns (launch: Launch, outcomes: seq<Outcome>)
      requires db.Valid()
      modifies this, db
      ensures db.Valid()
      ensures launch == LaunchOf(w)
      ensures !launch.Ticking? ==> outcomes == [] && status == old(status) && db.buckets == old(db.buckets)
      ensures launch.Ticking? ==> Replay(w, old(status), old(db.buckets), signals) == (status, db.buckets, outcomes)
    {
      outcomes := [];
      var checker := GetChecker(kind);
      if checker.None? {
        return NoChecker, [];
      }
      var frequency := w.parse(freq);
      if frequency.None? {
        return BadFrequency, [];
      }
      if frequency.value <= 0 {
        return TickerPanic, [];
      }
      launch := Ticking(frequency.value);
      outcomes := Serve(db, w, signals);
    }

    /**
     * The select loop of monitor(ctx, wg, m): updateStatus on each wake-up
     * until Done, or until an update panics and ends the process.
     */
    method Serve(db: DB, w: World, signals: seq<Signal>) returns (outcomes: seq<Outcome>)
      requires db.Valid()
      modifies this, db
      ensures db.Valid()
      ensures Replay(w, old(status), old(db.buckets), signals) == (status, db.buckets, outcomes)
    {
      outcomes := [];
      assert signals[0..] == signals;
      assert [] + Replay(w, status, db.buckets, signals).2 == Replay(w, status, db.buckets, signals).2;
      var i := 0;
      while i < |signals|
        invariant i <= |signals| && db.Valid()
        invariant Replay(w, old(status), old(db.buckets), signals) == Then(outcomes, Replay(w, status, db.buckets, signals[i..]))
      {
        if signals[i].Done? {
          assert outcomes + [] == outcomes;
          return;
        }
        ghost var baseline, bs := status, db.buckets;
        var o := UpdateStatus(db, w, signals[i].now, signals[i].dbOpens);
        ReplayStep(this, w, baseline, bs, signals, i);
        if o.Fatal() {
          outcomes := outcomes + [o];
          return;
        }
        ThenAppend(outcomes, o, Replay(w, status, db.buckets, signals[i + 1..]));
        outcomes := outcomes + [o];
        i := i + 1;
      }
      assert outcomes + [] == outcomes;
    }
  }

  /** The outcome of a loop that already produced `done`, then ran on to `r`. */
  function Then(done: seq<Outcome>, r: (Status, Buckets, seq<Outcome>)): (Status, Buckets, seq<Outcome>) {
    (r.0, r.1, done + r.2)
  }

  lemma ThenAppend(done: seq<Outcome>, o: Outcome, r: (Status, Buckets, seq<Outcome>))
    ensures Then(done, (r.0, r.1, [o] + r.2)) == Then(done + [o], r)
  {
    assert done + ([o] + r.2) == (done + [o]) + r.2;
  }

  /** One wake-up of the loop on signals[i..]. */
  lemma ReplayStep(m: Monitor, w: World, baseline: Status, bs: Buckets, signals: seq<Signal>, i: nat)
    requires WellFormed(bs) && i < |signals| && signals[i].Fire?
    ensures var u := m.Next(w, m.Probe(w, signals[i].now), baseline, bs, signals[i].dbOpens);
            u.outcome.Fatal() ==> m.Replay(w, baseline, bs, signals[i..]) == (u.baseline, u.store, [u.outcome])
    ensures var u := m.Next(w, m.Probe(w, signals[i].now), baseline, bs, signals[i].dbOpens);
            var r := m.Replay(w, u.baseline, u.store, signals[i + 1..]);
            !u.outcome.Fatal() ==> m.Replay(w, baseline, bs, signals[i..]) == (r.0, r.1, [u.outcome] + r.2)
  {
    assert signals[i..][1..] == signals[i + 1..];
  }

  // ---------------------------------------------------------------------------
  // Properties of the daemon

  /**
   * The goroutine ticks only for the HTTP kind with a frequency that parses
   * to a positive duration; a nil checker and an unparsable frequency make
   * it return before any tick.
   */
  lemma LaunchRule(m: Monitor, w: World)
    ensures m.LaunchOf(w) == NoChecker <==> m.kind != HttpType
    ensures m.LaunchOf(w) == BadFrequency <==> m.kind == HttpType && w.parse(m.freq).None?
    ensures m.LaunchOf(w).Ticking? <==> m.kind == HttpType && w.parse(m.freq).Some? && w.parse(m.freq).value > 0
    ensures m.LaunchOf(w).Ticking? ==> m.LaunchOf(w).period == w.parse(m.freq).value
  {
  }

  /**
   * A monitor of another kind gets the wrong-type text with the kind's name,
   * whatever the network would have answered; the URL is never set.
   */
  lemma WrongTypeRule(m: Monitor, w: World, w': World, now: int)
    requires m.kind != HttpType
    ensures m.Probe(w, now) == m.Probe(w', now)
    ensures m.Probe(w, now).status == WrongType + TypeName(m.kind)
    ensures m.Probe(w, now).site == m.name && m.Probe(w, now).url == "" && m.Probe(w, now).time == now
  {
  }

  /** An unparsable timeout means sixty seconds; a failed GET reports its error text. */
  lemma DefaultTimeoutRule(m: Monitor, w: World, now: int)
    requires m.kind == HttpType && w.parse(m.timeout).None?
    ensures m.Timeout(w) == DefaultTimeout
    ensures w.get(m.url, DefaultTimeout, now).Failure? ==> m.Probe(w, now).status == w.get(m.url, DefaultTimeout, now).error
    ensures w.get(m.url, DefaultTimeout, now).Success? ==>
              m.Probe(w, now).status == w.get(m.url, DefaultTimeout, now).value.0 &&
              m.Probe(w, now).statusCode == w.get(m.url, DefaultTimeout, now).value.1
  {
  }

  /**
   * A tick is skipped exactly when the text repeats the baseline within the
   * hour, and a skipped tick changes nothing; a changed text is never
   * skipped, however recent the baseline.
   */
  lemma SkipRule(m: Monitor, w: World, s: Status, baseline: Status, bs: Buckets, dbOpens: bool)
    requires WellFormed(bs)
    ensures m.Next(w, s, baseline, bs, dbOpens).outcome == Skipped <==> Repeats(s, baseline)
    ensures s.status != baseline.status ==> m.Next(w, s, baseline, bs, dbOpens).outcome != Skipped
    ensures Repeats(s, baseline) ==> m.Next(w, s, baseline, bs, dbOpens) == Update(baseline, bs, Skipped)
  {
  }

  /**
   * Once not skipped, the baseline becomes the new status whatever happens
   * to the store: also when OpenDB or a write fails.
   */
  lemma BaselineAdvances(m: Monitor, w: World, s: Status, baseline: Status, bs: Buckets, dbOpens: bool)
    requires WellFormed(bs) && !Repeats(s, baseline)
    ensures m.Next(w, s, baseline, bs, dbOpens).baseline == s
    ensures !dbOpens ==> m.Next(w, s, baseline, bs, dbOpens) == Update(s, bs, OpenFailed)
  {
  }

  /**
   * The status is written before the history: a failed open or status write
   * leaves the store as it was; after the status write getStatus returns
   * the new status, and only a written tick has its history entry.
   */
  lemma WriteOrder(m: Monitor, w: World, s: Status, baseline: Status, bs: Buckets, dbOpens: bool)
    requires WellFormed(bs)
    ensures var u := m.Next(w, s, baseline, bs, dbOpens);
            u.outcome.OpenFailed? || u.outcome.StatusWriteFailed? ==> u.store == bs
    ensures var u := m.Next(w, s, baseline, bs, dbOpens);
            u.outcome.HistoryWriteFailed? || u.outcome.Written? ==> StatusOf(u.store, m.name) == (s, None)
    ensures var u := m.Next(w, s, baseline, bs, dbOpens);
            u.outcome.Written? ==> KeyAt(u.store, [HistoryBucket, m.name, w.rfc3339(s.time)]) == Success(Some(StatusRecord(s)))
  {
    if !Repeats(s, baseline) && dbOpens {
      var first := Added(bs, m.name, Some([StatusBucket]), StatusRecord(s));
      if first.Success? {
        StatusWriteReads(bs, m.name, s);
        var second := Added(first.value, w.rfc3339(s.time), Some([HistoryBucket, m.name]), StatusRecord(s));
        if second.Success? {
          HistoryWriteReads(first.value, m.name, w.rfc3339(s.time), s);
        }
      }
    }
  }

  /**
   * The outcomes of a loop given k wake-ups before Done: one per wake-up,
   * unless one panics first; that one is the last, and none before it
   * panicked.
   */
  predicate EndsAtPanic(o: seq<Outcome>, k: nat) {
    |o| <= k &&
    (|o| == k || (o != [] && o[|o| - 1].Fatal())) &&
    forall j | 0 <= j < |o| - 1 :: !o[j].Fatal()
  }

  lemma EndsAtPanicCons(x: Outcome, o: seq<Outcome>, k: nat)
    requires k > 0
    requires x.Fatal() ==> o == []
    requires !x.Fatal() ==> EndsAtPanic(o, k - 1)
    ensures EndsAtPanic([x] + o, k)
  {
    var xo := [x] + o;
    forall j | 0 <= j < |xo| - 1
      ensures !xo[j].Fatal()
    {
      if j > 0 {
        assert xo[j] == o[j - 1];
      }
    }
  }

  /**
   * The loop makes one update per wake-up before the first Done and ignores
   * every signal after it, unless an update panics first: that update is
   * the last, and no earlier one panicked.
   */
  lemma ReplayUntilDone(m: Monitor, w: World, baseline: Status, bs: Buckets, signals: seq<Signal>, k: nat)
    requires WellFormed(bs) && k <= |signals|
    requires forall j | 0 <= j < k :: signals[j].Fire?
    requires k < |signals| ==> signals[k].Done?
    ensures m.Replay(w, baseline, bs, signals) == m.Replay(w, baseline, bs, signals[..k])
    ensures EndsAtPanic(m.Replay(w, baseline, bs, signals).2, k)
  {
    ReplayPrefix(m, w, baseline, bs, signals, k);
    ReplayShape(m, w, baseline, bs, signals, k);
  }

  /** The signals from the first Done on are never read. */
  lemma {:induction false} ReplayPrefix(m: Monitor, w: World, baseline: Status, bs: Buckets, signals: seq<Signal>, k: nat)
    requires WellFormed(bs) && k <= |signals|
    requires forall j | 0 <= j < k :: signals[j].Fire?
    requires k < |signals| ==> signals[k].Done?
    ensures m.Replay(w, baseline, bs, signals) == m.Replay(w, baseline, bs, signals[..k])
    decreases k
  {
    if k > 0 {
      var u := m.Next(w, m.Probe(w, signals[0].now), baseline, bs, signals[0].dbOpens);
      var front := signals[..k];
      assert signals[0..] == signals && front[0..] == front && front[0] == signals[0];
      assert front[1..] == signals[1..][..k - 1];
      ReplayStep(m, w, baseline, bs, signals, 0);
      ReplayStep(m, w, baseline, bs, front, 0);
      if !u.outcome.Fatal() {
        ReplayPrefix(m, w, u.baseline, u.store, signals[1..], k - 1);
      }
    }
  }

  /** One outcome per wake-up before Done, up to the first that panics. */
  lemma {:induction false} ReplayShape(m: Monitor, w: World, baseline: Status, bs: Buckets, signals: seq<Signal>, k: nat)
    requires WellFormed(bs) && k <= |signals|
    requires forall j | 0 <= j < k :: signals[j].Fire?
    requires k < |signals| ==> signals[k].Done?
    ensures EndsAtPanic(m.Replay(w, baseline, bs, signals).2, k)
    decreases k
  {
    if k > 0 {
      var u := m.Next(w, m.Probe(w, signals[0].now), baseline, bs, signals[0].dbOpens);
      assert signals[0..] == signals;
      ReplayStep(m, w, baseline, bs, signals, 0);
      if u.outcome.Fatal() {
        EndsAtPanicCons(u.outcome, [], k);
      } else {
        ReplayShape(m, w, u.baseline, u.store, signals[1..], k - 1);
        EndsAtPanicCons(u.outcome, m.Replay(w, u.baseline, u.store, signals[1..]).2, k);
      }
    }
  }
}
