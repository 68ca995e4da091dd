/**
 * The HTTP probe of monitor.go: Check dispatches on the monitor's kind and
 * checkHTTP issues a GET with up to three attempts.
 *
 * The network, the clock and Go's duration parsing and printing are not
 * modelled; they are the oracle `Net`.  An attempt reports, besides the
 * response or error, the time elapsed since the probe started, which is what
 * time.Since(status.Time) reads.
 */
module Probe {
  import opened Wrappers
  import opened Clock
  import opened Types

  /** What client.Do(req) returned on one attempt. */
  datatype Attempt =
      /**
       * A response.  `tls` is None for a plain connection (resp.TLS is nil);
       * otherwise it lists, for each peer certificate, the time left until
       * its NotAfter.
       */
    | Answered(status: string, code: int, tls: Option<seq<int>>, elapsed: int)
      /** An error; `cause` is the wrapped error's text when it is a *url.Error. */
    | Failed(text: string, cause: Option<string>, elapsed: int)

  /** The world checkHTTP talks to. */
  datatype Net = Net(
    parse: string -> Option<int>,            // time.ParseDuration
    show: int -> string,                     // time.Duration.String
    request: string -> Option<string>,       // http.NewRequestWithContext(GET, url): the error text, if any
    attempt: (string, int, nat) -> Attempt   // client.Do on the URL, with the timeout, attempt number
  )

  /** checkHTTP's timeout when the configured one does not parse. */
  const DefaultTimeout: int := 60 * Second

  /** The number of client.Do attempts checkHTTP allows. */
  const MaxAttempts: nat := 3

  /** The prefix of the status text of a monitor that is not of the HTTP kind. */
  const WrongType: string := "wrong type for http check"

  function Timeout(net: Net, configured: string): int {
    net.parse(configured).GetOr(DefaultTimeout)
  }

  /**
   * The number of attempts the retry loop makes from attempt i on: it stops
   * after the first answer or after the third attempt.
   */
  function TriesFrom(net: Net, url: string, timeout: int, i: nat): (n: nat)
    requires i < MaxAttempts
    ensures i < n <= MaxAttempts
    ensures forall j | i <= j < n - 1 :: net.attempt(url, timeout, j).Failed?
    ensures n < MaxAttempts ==> net.attempt(url, timeout, n - 1).Answered?
    decreases MaxAttempts - i
  {
    if net.attempt(url, timeout, i).Answered? || i + 1 == MaxAttempts then i + 1
    else TriesFrom(net, url, timeout, i + 1)
  }

  /** The attempts of one probe: at most three, every one before the last failed. */
  function Tries(net: Net, url: string, timeout: int): (n: nat)
    ensures 1 <= n <= MaxAttempts
    ensures forall j | 0 <= j < n - 1 :: net.attempt(url, timeout, j).Failed?
    ensures n < MaxAttempts ==> net.attempt(url, timeout, n - 1).Answered?
  {
    TriesFrom(net, url, timeout, 0)
  }

  /** The attempt whose result checkHTTP keeps, None when it makes none. */
  function LastAttempt(net: Net, m: Monitor): Option<Attempt> {
    if m.kind != HTTP || net.request(m.url).Some? then None
    else
      var timeout := Timeout(net, m.timeout);
      Some(net.attempt(m.url, timeout, Tries(net, m.url, timeout) - 1))
  }

  /** int(time.Until(NotAfter).Hours() / 24) for the first peer certificate, 0 without one. */
  function CertDays(tls: Option<seq<int>>): int {
    if tls.Some? && |tls.value| > 0 then Quo(tls.value[0], Day) else 0
  }

  /** The status checkHTTP starts from. */
  function Started(m: Monitor, now: int): Status {
    Status(m.name, m.url, now, 0, "", 0, 0)
  }

  /** The status text of a failed probe: the wrapped error and the timeout for a *url.Error. */
  function FailureText(net: Net, text: string, cause: Option<string>, timeout: int): string {
    if cause.Some? then cause.value + " " + net.show(timeout) else text
  }

  /**
   * checkHTTP(m) at instant `now`, with a plain connection read as one
   * without certificates.
   */
  function Probed(net: Net, m: Monitor, now: int): (s: Status)
    ensures s.site == m.name && s.url == m.url && s.time == now
  {
    var s := Started(m, now);
    if m.kind != HTTP then s.(status := WrongType + m.kind)
    else if net.request(m.url).Some? then s.(status := net.request(m.url).value)
    else
      match LastAttempt(net, m).value
      case Failed(text, cause, elapsed) =>
        s.(status := FailureText(net, text, cause, Timeout(net, m.timeout)), responseTime := elapsed)
      case Answered(status, code, tls, elapsed) =>
        s.(status := status, statusCode := code, certExpiry := CertDays(tls), responseTime := elapsed)
  }

  /** checkHTTP as monitor.go writes it: resp.TLS.PeerCertificates on a plain connection panics. */
  function ProbedAsWritten(net: Net, m: Monitor, now: int): (r: Result<Status, Error>)
    ensures r.Success? ==> r.value == Probed(net, m, now)
  {
    match LastAttempt(net, m)
    case Some(Answered(_, _, None, _)) => Failure(Panic)
    case _ => Success(Probed(net, m, now))
  }

  /**
   * checkHTTP(m): the imperative retry loop.  `tried` is the number of
   * client.Do calls made.
   */
  method CheckHTTP(net: Net, m: Monitor, now: int) returns (status: Status, tried: nat)
    ensures status == Probed(net, m, now)
    ensures tried <= MaxAttempts
    ensures tried == 0 <==> LastAttempt(net, m).None?
    ensures tried > 0 ==> tried == Tries(net, m.url, Timeout(net, m.timeout))
  {
    status := Started(m, now);
    tried := 0;
    if m.kind != HTTP {
      status := status.(status := WrongType + m.kind);
      return;
    }
    var timeout := net.parse(m.timeout).GetOr(DefaultTimeout);
    var failure := net.request(m.url);
    if failure.Some? {
      status := status.(status := failure.value);
      return;
    }
    var last := Failed("", None, 0);
    while tried < MaxAttempts
      invariant tried <= MaxAttempts
      invariant forall j | 0 <= j < tried :: net.attempt(m.url, timeout, j).Failed?
      invariant tried > 0 ==> last == net.attempt(m.url, timeout, tried - 1)
      invariant status == Started(m, now).(responseTime := if tried == 0 then 0 else last.elapsed)
    {
      last := net.attempt(m.url, timeout, tried);
      status := status.(responseTime := last.elapsed);
      tried := tried + 1;
      if last.Answered? {
        break;
      }
    }
    if last.Failed? {
      status := status.(status := FailureText(net, last.text, last.cause, timeout));
      return;
    }
    status := status.(status := last.status, statusCode := last.code, certExpiry := CertDays(last.tls));
  }

  /** Check(m): checkHTTP for the HTTP kind, the zero Status for any other. */
  method Check(net: Net, m: Monitor, now: int) returns (status: Status)
    ensures m.kind == HTTP ==> status == Probed(net, m, now)
    ensures m.kind != HTTP ==> status == EmptyStatus
  {
    if m.kind == HTTP {
      var tried;
      status, tried := CheckHTTP(net, m, now);
    } else {
      status := EmptyStatus;
    }
  }

  /** What Check(m) yields. */
  function Checked(net: Net, m: Monitor, now: int): Status {
    if m.kind == HTTP then Probed(net, m, now) else EmptyStatus
  }

  // ---------------------------------------------------------------------------
  // Properties of the probe

  /**
   * A monitor of another kind gets the wrong-type text without any request,
   * whatever the network would have answered.
   */
  lemma WrongKindNoProbe(net: Net, net': Net, m: Monitor, now: int)
    requires m.kind != HTTP
    ensures Probed(net, m, now) == Probed(net', m, now)
    ensures Probed(net, m, now).status == WrongType + m.kind
    ensures LastAttempt(net, m).None?
    ensures Checked(net, m, now) == EmptyStatus
  {
  }

  /**
   * The retry loop stops at the first answer: when attempt i is the first to
   * answer (i < 3) the probe shows that answer, and when all three fail it
   * shows the third failure.
   */
  lemma FirstAnswerWins(net: Net, m: Monitor, now: int, i: nat)
    requires m.kind == HTTP && net.request(m.url).None? && i < MaxAttempts
    requires forall j | 0 <= j < i :: net.attempt(m.url, Timeout(net, m.timeout), j).Failed?
    requires net.attempt(m.url, Timeout(net, m.timeout), i).Answered? || i == MaxAttempts - 1
    ensures LastAttempt(net, m) == Some(net.attempt(m.url, Timeout(net, m.timeout), i))
    ensures Probed(net, m, now).responseTime == net.attempt(m.url, Timeout(net, m.timeout), i).elapsed
  {
  }

  /**
   * An unparsable timeout means sixty seconds: the client gets that timeout,
   * and a *url.Error is reported with it.
   */
  lemma DefaultTimeoutRule(net: Net, m: Monitor, now: int)
    requires m.kind == HTTP && net.request(m.url).None? && net.parse(m.timeout).None?
    ensures LastAttempt(net, m) == Some(net.attempt(m.url, DefaultTimeout, Tries(net, m.url, DefaultTimeout) - 1))
    ensures LastAttempt(net, m).value.Failed? && LastAttempt(net, m).value.cause.Some? ==>
              Probed(net, m, now).status == LastAttempt(net, m).value.cause.value + " " + net.show(DefaultTimeout)
  {
  }

  /** An answer is reported as its status line and code; plain connections report no expiry. */
  lemma AnswerShown(net: Net, m: Monitor, now: int)
    requires LastAttempt(net, m).Some? && LastAttempt(net, m).value.Answered?
    ensures Probed(net, m, now).status == LastAttempt(net, m).value.status
    ensures Probed(net, m, now).statusCode == LastAttempt(net, m).value.code
    ensures LastAttempt(net, m).value.tls.None? ==> Probed(net, m, now).certExpiry == 0
  {
  }

  /**
   * As written, checkHTTP panics exactly when the attempt it keeps answered
   * over a plain connection; otherwise it agrees with the corrected probe.
   */
  lemma AsWrittenPanics(net: Net, m: Monitor, now: int)
    ensures ProbedAsWritten(net, m, now) == Failure(Panic) <==>
              LastAttempt(net, m).Some? && LastAttempt(net, m).value.Answered? && LastAttempt(net, m).value.tls.None?
    ensures ProbedAsWritten(net, m, now).Failure? || ProbedAsWritten(net, m, now).value == Probed(net, m, now)
  {
  }

  /** A site served over plain http that answers the first request. */
  lemma PlainHttpPanics()
    ensures var net := Net(t => None, d => "1m0s", u => None, (u, d, i) => Answered("200 OK", 200, None, 1000));
            var m := Monitor(HTTP, "http://example.com", "1m", "example", "", 200, true, []);
            ProbedAsWritten(net, m, 0) == Failure(Panic) && Probed(net, m, 0).statusCode == 200
  {
    var net := Net(t => None, d => "1m0s", u => None, (u, d, i) => Answered("200 OK", 200, None, 1000));
    var m := Monitor(HTTP, "http://example.com", "1m", "example", "", 200, true, []);
    assert Tries(net, m.url, Timeout(net, m.timeout)) == 1;
  }
}
