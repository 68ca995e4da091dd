/**
 * The records the monitoring core stores and exchanges: monitors, status
 * observations, users, notifier kinds, time frames and the errors of the
 * store layer.
 */
module Types {
  import opened Clock

  /**
   * The probe kind of a monitor is free text; only the HTTP kind has a
   * checker.  The spelling of the constant is not part of this model.
   */
  const HTTP: string := "http"

  /** One observation of a monitor. */
  datatype Status = Status(
    site: string,
    url: string,
    time: int,          // instant of the probe (Clock)
    statusCode: int,
    status: string,     // the status text compared by change detection
    certExpiry: int,    // whole days until the leaf certificate expires
    responseTime: int   // nanoseconds
  )

  /** Status{}: empty texts, zero numbers and Go's zero time. */
  const EmptyStatus := Status("", "", ZeroTime, 0, "", 0, 0)

  /** A monitor definition as stored under monitors/<Name>. */
  datatype Monitor = Monitor(
    kind: string,
    url: string,
    freq: string,
    name: string,
    timeout: string,
    statusOK: int,
    active: bool,
    notifiers: seq<string>
  )

  /** Monitor{}: the zero record json.Unmarshal failures leave behind. */
  const EmptyMonitor := Monitor("", "", "", "", "", 0, false, [])

  datatype User = User(name: string, pass: string, admin: bool)

  /** The provider tag stored under notify/<name>/type. */
  datatype NotifyKind = Slack | Discord | MailGun | Unknown

  /** A lookback window of the history queries. */
  datatype TimeFrame = HourFrame | DayFrame | WeekFrame | MonthFrame | YearFrame | AllFrame

  /**
   * A stored value.  JSON encoding is not modelled: a value is the record it
   * encodes, and a value of another shape stands for bytes that json.Unmarshal
   * rejects for the record a reader expects.
   */
  datatype Value =
    | StatusRecord(status: Status)
    | MonitorRecord(monitor: Monitor)
    | UserRecord(user: User)
    | KindRecord(kind: NotifyKind)
    | Blob(bytes: string)

  datatype Error =
    | ErrPath              // errPath: the bucket of a history query is missing
    | ErrKeyExists         // errKeyExists
    | ErrNoKey             // errNoKey
    | ErrUser              // errUser
    | ErrNoUser            // errNoUser
    | ErrBucketNotFound    // bbolt ErrBucketNotFound
    | ErrBucketExists      // bbolt ErrBucketExists
    | ErrIncompatibleValue // bbolt ErrIncompatibleValue: a value where a bucket is, or the reverse
    | ErrKeyRequired       // bbolt ErrKeyRequired: empty key
    | ErrBucketNameRequired // bbolt ErrBucketNameRequired: empty bucket name
    | ErrJson              // json.Unmarshal rejected the bytes
    | ErrParse             // time.Parse rejected the text
    | ErrHash              // bcrypt could not hash the password
    | Panic                // a method called on a nil *bbolt.Bucket: the Go runtime panics
}
