# uptime: a verified model of the monitoring core

uptime watches web sites. A monitor names a site, a probe kind and a
frequency. Each tick probes the site and compares the result with the last
stored status. On a change it notifies the monitor's notifiers (Slack,
Discord, MailGun). A persisting certificate problem gets its own notice.
Every observation that is not suppressed is written twice: once as the
site's current status and once as a history entry keyed by its time. The
web front end reads back the current status, history windows, uptime
statistics and the monitor, user and notifier records.

Everything lives in one bbolt store. Its top-level buckets are `status`,
`history/<site>`, `monitors`, `users` and `notify/<name>`.

The model has these modules:

- `Bolt` (bolt.dfy): the store as a class `DB`. Its one field is a map from
  bucket paths to sorted key/entry lists, and its invariant `Valid` says the
  root exists, every bucket is sorted and every nested-bucket entry has its
  bucket. The writing bbolt calls the core makes (`CreateBucket`,
  `CreateBucketIfNotExists`, `Put`, `Delete`, `DeleteBucket`) are methods
  that update that field; `tx.Bucket`, `Bucket`, `Get` and cursor `Seek`
  are functions of it. A nil `*bbolt.Bucket` is a
  `None` handle, and every method on it panics (`Panic`). A failed
  transaction restores the store it started from.
- `Keys`, `Clock`: byte order on keys; instants, durations, `Time.Sub`,
  `time.Parse(DateOnly)` and the fixed-width time keys.
- `Database` (database.go, the helpers): `createBucket`, `getBucket`,
  `getKey`, `keyExists`, `addKey`, `getStatus`.
- `History`: `getTime`, `getHistory`, `getStats`, `purgeHistData`.
- `Monitors`: `getMonitors`, `getMonitor`, `saveMonitor`, `removeMonitor`,
  `deleteHistory`, `getAllMonitorsForDisplay`.
- `Users`: the existence rules of `insertUser`, `modifyUser`, `removeUser`.
- `Notify`: `getNotify`, `createNotify`, `updateNotify`, `removeNotify`.
- `Probe` (monitor.go): `Check` and `checkHTTP` with three attempts and a
  60-second default timeout.
- `Detector` (monitor.go): `updateStatus` (getStatus, the suppression
  decision, both notifier loops, then the two `addKey` writes) and the
  selection of `startMonitors`.
- `Daemon` (uptimed/monitor.go): the older daemon. Its `Monitor` class keeps
  the baseline in its own `status` field. It models `updateStatus`,
  `checkHTTP`, `getChecker` and the start-up guards and select loop of
  `monitor`.

Every database function is a method over `DB` that is proved against a
function of the store before the call (`…Outcome`, `…At`). The properties
are lemmas about those functions. Loops are `while` loops with invariants
where the source loops: the cursor loops, the `ForEach` loops, the retry
loop, the notifier loops and the select loop.

The network, the clock, duration parsing and printing, notifier transports
and `uptime.OpenDB` are parameters: the `Net` and `World` datatypes, a
`Transport` predicate, and a `now` instant or `dbOpens` flag.

A status whose text repeats the stored one within the hour is suppressed
and writes no history entry (Detector.SuppressRule, Daemon.SkipRule). So
the history holds one entry per observation that was not suppressed, not
one per probe.

Two defects of the code are recorded under "## Findings". For each, one
member models the code as written (Probe.ProbedAsWritten,
Monitors.AliasedNotifiers). The rest of the model, including updateStatus
and startMonitors, is built on the corrected behaviour.

## Model

| member | source | states |
|---|---|---|
| Keys.Compare | database.go:127 | bytes.Compare: zero exactly for equal keys, negative exactly when the first sorts before the second |
| Clock.Sub | monitor.go:63 | Time.Sub saturates to the Duration range, and below-an-hour holds exactly when the true difference is below an hour |
| Clock.Quo | monitor.go:137 | division truncating toward zero, as Go's int conversion of a quotient |
| Clock.TimeKey | monitor.go:83 | a history key has a fixed width of twelve characters |
| Clock.TimeKeyOrder | monitor.go:83 | history keys of two instants compare as the instants at second resolution, and are equal exactly when the seconds are equal |
| Clock.TimeKeyMonotone | database.go:160 | a later instant never has a smaller key, so the window end bounds every earlier write |
| Clock.ParseDate | database.go:118 | a parsed YYYY-MM-DD date is a midnight instant within the formattable range, and only ten-character dashed texts parse |
| Clock.DateInstant | database.go:118 | a calendar date maps to a formattable midnight instant |
| Bolt.Find | database.go:83 | bucket.Get: a found entry is in the bucket, a missing key is under no item |
| Bolt.Upsert | database.go:98 | bucket.Put keeps the bucket sorted, adds the key to its key set, stores the entry under it and changes no other key |
| Bolt.UpsertInPlace | database.go:456 | Put on a key already present replaces its item in place |
| Bolt.Remove | database.go:129 | bucket.Delete keeps the bucket sorted, removes the key from its key set and changes no other key |
| Bolt.Seek | database.go:168 | cursor.Seek: every key before the position is smaller than the target, and the key at the position is not |
| Bolt.SeekSorted | database.go:168 | in a sorted bucket every key from the Seek position on is at least the target |
| Bolt.DB.RootBucket | database.go:70 | tx.Bucket(name): a handle exactly when that top-level bucket exists |
| Bolt.DB.Bucket | database.go:72 | Bucket on a nil handle panics; otherwise the nested bucket or nil |
| Bolt.DB.Get | database.go:83 | Get on a nil handle panics; otherwise the value under the key, nil for a nested bucket |
| Bolt.DB.CreateBucketIfNotExists | database.go:55-60 | the nested bucket afterwards exists; an empty name or a value under the name fails with the bbolt error |
| Bolt.DB.CreateBucket | database.go:473 | bbolt's CreateBucket: an existing bucket is ErrBucketExists, a value under the name ErrIncompatibleValue |
| Bolt.DB.Put | database.go:98 | Put on a nil handle panics; an empty key or a nested bucket under the key fails; otherwise the value is stored |
| Bolt.DB.Delete | database.go:129 | Delete on a nil handle panics; a nested bucket under the key is ErrIncompatibleValue; otherwise the key is removed and no bucket link changes |
| Bolt.DB.DeleteBucket | database.go:441 | DeleteBucket on a nil handle panics; a missing name is ErrBucketNotFound, a value ErrIncompatibleValue; otherwise the bucket is detached and unreachable |
| Bolt.Ensured | database.go:55-60 | CreateBucketIfNotExists marks the name as a nested bucket in the parent, creates the child and changes no other key of the parent |
| Bolt.EnsuredKeeps | database.go:55-60 | creating a nested bucket leaves every other reachable bucket as it was |
| Bolt.Detached | database.go:441 | dropping a nested bucket keeps the store invariant, removes its name from the parent and leaves every unrelated bucket as it was |
| Database.GetBucket | database.go:69-75 | getBucket walks the path and computes BucketAt: the bucket at the path, nil for a missing last name, a panic for an empty path or a missing intermediate bucket; a returned handle is live |
| Database.BucketAtMeaning | database.go:69-75 | getBucket panics exactly for an empty path or when a proper prefix of the path is missing |
| Database.EnsurePath | database.go:59-65 | the loop that creates the missing buckets of the path keeps the store invariant, and a bucket it returns exists |
| Database.EnsurePathTarget | database.go:59-65 | createBucket's loop, when it gets through, returns the bucket at the full path |
| Database.EnsurePathKeeps | database.go:59-65 | the loop keeps every existing bucket and every stored value |
| Database.EnsurePathFresh | database.go:59-65 | a bucket that did not exist is created empty |
| Database.Prepared | database.go:51-66 | createBucket's result is the bucket at the path, which exists afterwards |
| Database.CreateBucket | database.go:51-66 | a nil path yields nil with no change; an empty path panics; otherwise the prepared store and bucket |
| Database.CreateBucketMeaning | database.go:51-66 | after createBucket every prefix of the path exists, and every earlier bucket and value is kept |
| Database.GetKey | database.go:78-85 | getKey computes KeyAt of the store (whose cases PairKeyAt and KeyExistsMeaning state) |
| Database.PairKeyAt | database.go:78-85 | on a two-name path: the empty slice without the bucket, else the bucket's Get |
| Database.KeyExists | database.go:88-91 | keyExists is true exactly when getKey returns non-nil, and fails exactly when getKey does |
| Database.KeyExistsMeaning | database.go:88-91 | a missing bucket counts as existing (the empty slice is non-nil); otherwise existence means a value is stored |
| Database.Added | database.go:95-100 | addKey's outcome keeps the store invariant |
| Database.AddKey | database.go:95-100 | addKey computes Added, and a failed transaction leaves the store unchanged |
| Database.AddKeyReadBack | database.go:95-100 | after addKey the key reads back as the value, and every other key of the bucket reads as before |
| Database.AddedReadBack | database.go:95-100 | a successful addKey reads back through getKey |
| Database.AddedKeeps | database.go:95-100 | addKey keeps every bucket and every value except the one it writes |
| Database.GetStatus | database.go:103-114 | getStatus computes StatusOf of the store (whose cases StatusOfMeaning states) |
| Database.StatusOfMeaning | database.go:103-114 | getStatus succeeds exactly when the status bucket holds a status record under the name; on failure it returns the zero Status |
| Database.StatusWriteReads | database.go:95-114 | after addKey(name, ["status"], s) getStatus(name) returns s |
| Database.HistoryWriteReads | database.go:95-114 | a history write reads back under its key and does not change getStatus |
| Database.KeyPut | database.go:270-273 | a Put on a top-level bucket succeeds exactly when the bucket exists, the name is non-empty and no nested bucket is under it |
| Database.PutKey | database.go:270-273 | the Put computes KeyPut, and its failure leaves the store unchanged |
| Database.KeyPutReadBack | database.go:270-273 | the stored value reads back, and every other key of the bucket reads as before |
| Database.BucketCreated | database.go:473-476 | CreateBucket under a top-level bucket succeeds exactly when the parent exists, the name is non-empty and nothing is under it, and then the new bucket is empty |
| Database.MakeBucket | database.go:473-476 | the call computes BucketCreated and returns the new bucket's path |
| Database.KeyDeleted | database.go:279-284 | Delete on a top-level bucket succeeds exactly when the bucket exists and no nested bucket is under the name |
| Database.DeleteKey | database.go:279-284 | the Delete computes KeyDeleted, and its failure leaves the store unchanged |
| Database.KeyDeletedGone | database.go:279-284 | a deleted key reads as nil, and every other key as before |
| Database.BucketDropped | database.go:287-291 | DeleteBucket succeeds exactly when the nested bucket exists, and leaves every unrelated bucket as it was |
| Database.DropBucket | database.go:287-291 | the DeleteBucket computes BucketDropped, and its failure leaves the store unchanged |
| Database.BucketDroppedGone | database.go:287-291 | the dropped bucket is no longer reachable, and its siblings are kept |
| History.FrameStart | database.go:137-154 | the start of every frame is a formattable instant between Go's zero time and now, and the whole history starts at the zero time |
| History.GetTime | database.go:137-154 | the start key of every frame is at most the key of now |
| History.FramesNest | database.go:137-154 | the frames nest: hour within day within week within month within year within all |
| History.WindowEnd | database.go:168 | the cursor loop stops at the first key past the end |
| History.WindowExact | database.go:168 | in a sorted bucket the loop visits exactly the keys between start and end, both included |
| History.CollectMeaning | database.go:168-173 | the loop decodes entries in key order; it fails with a JSON error exactly when some entry of the range is not a status, and stops at the first one, returning what it read |
| History.CollectExact | database.go:168-176 | reversed, what the loop read without an error holds one status per entry of the range, the i-th from the entry i places before its end |
| History.Reversed | database.go:176 | slices.Reverse: the i-th element becomes the (n-1-i)-th |
| History.HistoryOfExact | database.go:157-178 | without an error getHistory returns one status per entry of the window, the i-th from the entry i places before the window's end |
| History.SortedWindow | database.go:167-168 | the window of a sorted bucket is in strictly increasing key order, so the reversed history is newest first |
| History.HistoryOfIs | database.go:167-176 | getHistory on a bucket reverses what the loop read between the Seek position and the window's end |
| History.GetHistory | database.go:157-178 | getHistory computes HistoryAt over the window [getTime(frame), now]: a panic for a missing intermediate bucket, errPath for a missing history bucket, else HistoryOf |
| History.ScanHistory | database.go:167-176 | the cursor loop and the reversal compute HistoryOf |
| History.Count | database.go:205-214 | the good counter never exceeds the total |
| History.CountMeaning | database.go:205-214 | the counters: total counts the entries, good is the total exactly when every code is the expected one; an undecodable entry discards the counts |
| History.RatioBounds | database.go:220 | the share of good checks lies within 0..1 and is 1 exactly when every check was good |
| History.Summary | database.go:216-222 | getStats' result: zero for an empty window, an uptime within 0..100 that is 100 exactly when every entry is good, the mean latency by truncating division |
| History.StatsMeaning | database.go:195-223 | over a window: uptime within 0..100, no entries give (0, 0), and 100 exactly when every entry carries the expected code |
| History.GetStats | database.go:195-223 | getStats computes the statistics of the window of history/site |
| History.ScanStats | database.go:204-215 | the cursor loop computes Count from the Seek position to the window's end |
| History.Purged | database.go:127-131 | the purge never adds items to the bucket |
| History.PurgedMeaning | database.go:127-131 | the purge keeps exactly the keys after the cutoff, with their entries, and fails exactly when a nested bucket lies at or before it |
| History.PurgeHistData | database.go:116-134 | purgeHistData computes PurgeOutcome: an unparsable date is ErrParse, a missing bucket a panic, a nested bucket in the range a rolled-back error, otherwise the bucket becomes Purged; a failure leaves the store unchanged |
| Monitors.RecordsFrom | database.go:231-237 | ForEach decodes every entry into a monitor in key order, stopping at the first that does not decode |
| Monitors.GetMonitors | database.go:226-240 | getMonitors computes MonitorsAt: a panic without the monitors bucket, otherwise the stored records in key order up to the first that does not decode, each with its own notifiers (the corrected decoding; see Findings) |
| Monitors.ForEachMonitor | database.go:231-237 | the ForEach loop, with a fresh record per entry, computes RecordsFrom |
| Monitors.MonitorsAtExact | database.go:226-240 | without an error there is one monitor per entry, and the j-th is the record stored under the j-th key |
| Monitors.Grow | database.go:235 | append beyond capacity moves the elements to a new backing array of doubled capacity, Go's rule for lists of up to 512 names |
| Monitors.DecodeList | database.go:232 | json.Unmarshal of a list into a slice gives a slice of the list's length inside the heap, and every earlier backing array keeps its size |
| Monitors.DecodeAll | database.go:231-237 | decoding a run of records into one variable leaves every earlier slice header as it was appended |
| Monitors.KeptLengths | database.go:231-237 | each appended Notifiers slice keeps the length of its own record |
| Monitors.AliasedNotifiers | database.go:226-240 | the notifier lists getMonitors returns as written: each list keeps its length |
| Monitors.NotifierAliasing | database.go:226-240 | the records [a, b] then [c] come back as [c, b] and [c] |
| Monitors.DecodeBoth | database.go:231-237 | the heap after decoding [a, b] then [c] shares one backing array |
| Monitors.FirstRecord | database.go:232 | decoding [a, b] into an empty slice allocates a new backing array |
| Monitors.SecondRecord | database.go:232 | decoding [c] into the previous slice overwrites its first element in place |
| Monitors.MonitorAt | database.go:243-254 | getMonitor: a missing bucket panics; a missing or undecodable record is a JSON error with the zero Monitor; otherwise the stored record |
| Monitors.GetMonitor | database.go:243-254 | getMonitor computes MonitorAt |
| Monitors.SaveOutcome | database.go:257-276 | saveMonitor's outcome keeps the store invariant |
| Monitors.SaveMonitor | database.go:257-276 | saveMonitor computes SaveOutcome, and its failure leaves the store unchanged |
| Monitors.SaveRules | database.go:263-269 | a create fails with errKeyExists exactly when the record exists or the bucket is missing (the empty slice); an update fails with errNoKey exactly when the bucket exists without the record |
| Monitors.SaveReadBack | database.go:257-276 | a saved monitor reads back through getMonitor, and no other monitor changes |
| Monitors.RemoveOutcome | database.go:279-284 | removeMonitor's outcome keeps the store invariant |
| Monitors.RemoveMonitor | database.go:279-284 | removeMonitor computes RemoveOutcome |
| Monitors.RemoveThenGone | database.go:279-284 | a removed monitor no longer reads, the others do, and it may be created again |
| Monitors.DeleteHistoryOutcome | database.go:287-296 | deleteHistory's outcome keeps the store invariant |
| Monitors.DeleteHistory | database.go:287-296 | deleteHistory computes DeleteHistoryOutcome, and its failure rolls back |
| Monitors.DeleteHistoryGone | database.go:287-296 | afterwards the site has neither history bucket nor current status |
| Monitors.Matching | database.go:571-580 | the count of good entries is at most the total, and equals it exactly when every entry carries the expected code |
| Monitors.Percent | database.go:580 | good / total * 100 lies in 0..100 and is 100 exactly when all are good |
| Monitors.Aggregate | database.go:570-581 | the display status is the newest entry's code check, and the percentage is Percent of the good count |
| Monitors.DisplaysAt | database.go:560-586 | one display line per monitor getMonitors returned |
| Monitors.GetAllMonitorsForDisplay | database.go:560-586 | getAllMonitorsForDisplay computes DisplaysAt: a panic in getMonitors ends it, otherwise the loop over what it returned |
| Monitors.DisplaysOf | database.go:563-584 | the loop yields one display line per monitor it is given |
| Monitors.DisplayLines | database.go:563-585 | the loop over the monitors computes DisplaysOf: the lines in order, or the panic of the first line that fails |
| Monitors.DisplayLine | database.go:563-583 | one turn of the loop computes the display line of monitor i, or the error that ends the loop |
| Monitors.DisplaysExact | database.go:560-586 | the display is exactly the per-monitor lines in order |
| Monitors.DisplaysPanic | database.go:560-586 | a panic in getMonitors, or in the reads of any one monitor, ends the whole call with that panic |
| Monitors.DisplayBounds | database.go:568-582 | the percentage lies in 0..100, is 100 exactly when every entry of the last day is good, and "up" needs a non-empty day |
| Users.Hashed | database.go:319-327 | the stored user keeps its name and admin flag, and carries the hash as its password |
| Users.InsertOutcome | database.go:380-398 | insertUser's outcome keeps the store invariant |
| Users.InsertUser | database.go:380-398 | insertUser computes InsertOutcome, and its failure leaves the store unchanged |
| Users.ModifyOutcome | database.go:401-419 | modifyUser's outcome keeps the store invariant |
| Users.ModifyUser | database.go:401-419 | modifyUser computes ModifyOutcome, and its failure leaves the store unchanged |
| Users.RemoveUserOutcome | database.go:422-431 | removeUser's outcome keeps the store invariant |
| Users.RemoveUser | database.go:422-431 | removeUser computes RemoveUserOutcome, and its failure leaves the store unchanged |
| Users.ExistenceRules | database.go:380-431 | with the users bucket present: insert is errUser exactly when the name is stored; modify and remove are errNoUser exactly when it is not; remove succeeds exactly when it is |
| Users.InsertReadBack | database.go:380-398 | an inserted user reads back hashed, other users are kept, a second insert is errUser and a modify succeeds |
| Users.RemoveUserGone | database.go:422-431 | a removed user reads as nil, others are kept, modify and a second remove are errNoUser, and an insert is no longer errUser |
| Notify.Without | database.go:449-451 | slices.DeleteFunc removes every occurrence of the name and keeps every other notifier |
| Notify.WithoutAppend | database.go:449-451 | the removal distributes over concatenation |
| Notify.WithoutAbsent | database.go:449-451 | a list without the name is left as it is |
| Notify.WithoutSplit | database.go:449-451 | every other notifier keeps its order: the names before it stay before it, those after stay after |
| Notify.Strip | database.go:449-451 | only the notifier list of the monitor changes |
| Notify.KindOf | database.go:517 | the stored type tag, Unknown when it is missing or not a tag |
| Notify.NotifyAt | database.go:505-522 | getNotify fails exactly when notify/<name> is missing, and then with ErrBucketNotFound |
| Notify.NotifyAtMeaning | database.go:505-522 | otherwise it returns the type tag and the data stored in that bucket |
| Notify.GetNotify | database.go:505-522 | getNotify computes NotifyAt; a missing notifier gives ErrBucketNotFound with the zero type and no data |
| Notify.CreateNotifyOutcome | database.go:463-482 | createNotify's outcome keeps the store invariant |
| Notify.Filled | database.go:477-480 | the new bucket holds the type under "type" and the data under "data", and is sorted |
| Notify.FillNotifier | database.go:477-480 | the two Puts into the fresh bucket fill it as Filled |
| Notify.CreateNotify | database.go:463-482 | createNotify computes CreateNotifyOutcome, and its failure rolls back |
| Notify.CreateReadBack | database.go:463-482 | a created notifier reads back through getNotify, and creating it again is ErrBucketExists |
| Notify.UpdateNotifyOutcome | database.go:485-502 | updateNotify fails with ErrBucketNotFound exactly when the notifier is missing, and otherwise rewrites only its data |
| Notify.UpdateNotify | database.go:485-502 | updateNotify computes UpdateNotifyOutcome, and its failure leaves the store unchanged |
| Notify.UpdateKeepsKind | database.go:485-502 | an update keeps the stored kind and replaces the data |
| Notify.StripUpTo | database.go:445-457 | the monitors bucket after i turns of the ForEach: the first i records stripped, the rest as they were, keys and order kept |
| Notify.StripFrom | database.go:445-457 | the rest of the ForEach keeps the store invariant |
| Notify.StripNotifier | database.go:444-458 | the ForEach loop over the monitors computes StripFrom |
| Notify.StripStep | database.go:456 | one Put of a stripped record produces the next loop state |
| Notify.StripFromShape | database.go:445-457 | a completed ForEach strips every monitor record |
| Notify.FindStripped | database.go:445-457 | each key afterwards holds its old entry stripped |
| Notify.RemoveNotifyOutcome | database.go:434-460 | removeNotify's outcome keeps the store invariant |
| Notify.RemoveNotify | database.go:434-460 | removeNotify computes RemoveNotifyOutcome, and its failure rolls back |
| Notify.RemoveNotifyShape | database.go:434-460 | a successful removeNotify is the bucket drop followed by the strip of every monitor |
| Notify.RemoveNotifyGone | database.go:434-460 | the removed notifier no longer reads through getNotify |
| Notify.MonitorStripped | database.go:445-457 | every monitor reads back as its old record with the name stripped |
| Notify.RemoveNotifyMonitors | database.go:434-460 | after removeNotify no monitor lists the name, and each monitor is its old record stripped |
| Probe.TriesFrom | monitor.go:114-122 | the retry loop from attempt i stops after the first answer or the third attempt, and every attempt before the last failed |
| Probe.Tries | monitor.go:114-122 | one to three attempts, every one before the last a failure, and fewer than three only after an answer |
| Probe.Probed | monitor.go:90-140 | the corrected probe keeps the site, URL and time it started with |
| Probe.ProbedAsWritten | monitor.go:132-139 | without a panic the probe as written agrees with the corrected one |
| Probe.CheckHTTP | monitor.go:90-140 | the loop makes at most three attempts, none exactly when no request is made, and returns the corrected probe |
| Probe.Check | monitor.go:143-151 | Check runs checkHTTP for the HTTP kind and returns the zero Status for any other |
| Probe.WrongKindNoProbe | monitor.go:96-99 | another kind gets the wrong-type text without touching the network, and Check returns the zero Status |
| Probe.FirstAnswerWins | monitor.go:114-122 | the first answer, or the third failure, is the attempt shown, with its response time |
| Probe.DefaultTimeoutRule | monitor.go:100-104 | an unparsable timeout means 60 s, and a url.Error is reported with that timeout |
| Probe.AnswerShown | monitor.go:133-138 | an answer shows its status line and code; a plain connection reports no expiry |
| Probe.AsWrittenPanics | monitor.go:135 | as written, checkHTTP panics exactly when the kept attempt answered over a plain connection |
| Probe.PlainHttpPanics | monitor.go:135 | a plain-http site that answers the first request makes the code as written panic |
| Detector.Lookups | monitor.go:155 | one getNotify lookup per notifier |
| Detector.LookupsAt | monitor.go:155 | the j-th lookup is getNotify of the j-th notifier |
| Detector.LookupAt | monitor.go:155-159 | the lookup fails exactly when getNotify does, else yields its kind and data |
| Detector.NoticesFrom | monitor.go:153-200 | the notices of a loop from notifier i: at most one per remaining notifier |
| Detector.SendNotifications | monitor.go:153-200 | both notifier loops compute NoticesFrom from the first notifier |
| Detector.Visit | monitor.go:155-198 | one turn of either loop: its notice, and whether the loop ends there |
| Detector.NoticesAreSends | monitor.go:160-169 | every event of a loop is a notice of that loop's sort to a notifier of a known kind |
| Detector.HaltsHere | monitor.go:177-200 | a notifier at which the loop ends hides every later one |
| Detector.StatusLoopReachesAll | monitor.go:153-175 | when every lookup succeeds, the status loop's notices do not depend on the transports, and every notifier of a known kind gets the status notice |
| Detector.Persist | monitor.go:79-86 | the writes of a tick: no step is a suppression, a failed status write leaves the store, and the events are the writes made |
| Detector.TickOf | monitor.go:54-88 | one tick keeps the store invariant |
| Detector.UpdateStatus | monitor.go:54-88 | updateStatus with the corrected probe's result (Checked) computes TickOf |
| Detector.Record | monitor.go:79-86 | the two addKey calls compute Persist |
| Detector.SuppressRule | monitor.go:61-66 | a tick is suppressed exactly when the text repeats within the hour, and then it sends and writes nothing |
| Detector.NoticesBeforeWrites | monitor.go:67-86 | no write of a tick comes before one of its notices |
| Detector.ChangeNotifies | monitor.go:61-73 | on a change of text the status loop's notices come first, and no certificate notice goes out |
| Detector.CertRule | monitor.go:71-73 | a certificate notice needs the same text, an hour passed and an expiry under ten days; then the first known notifier gets it first |
| Detector.PersistOrder | monitor.go:79-86 | after the status write getStatus returns the new status; a recorded tick also reads back under its time key |
| Detector.TickWrites | monitor.go:79-82 | an unsuppressed tick's store is that of its writes; a failed status write stores nothing |
| Detector.ActiveOf | monitor.go:20-26 | only active monitors get a task |
| Detector.ActiveExact | monitor.go:20-26 | each active monitor gets exactly as many tasks as it occurs, an inactive one none |
| Detector.StartMonitors | monitor.go:14-28 | returns getMonitors' error, which is the panic exactly when the monitors bucket is missing (the process ends); no task on any error, else a task per active monitor in order |
| Detector.StartActive | monitor.go:20-26 | the loop selects ActiveOf of the monitors |
| Daemon.TypeName | types.go:23-45 | a non-empty name exactly for HTTP, PING and TCP |
| Daemon.GetChecker | uptimed/monitor.go:109-116 | a checker exactly for the HTTP kind |
| Daemon.Monitor.constructor | types.go:63-71 | the monitor holds the given fields |
| Daemon.Monitor.Next | uptimed/monitor.go:43-73 | one updateStatus keeps the store invariant |
| Daemon.Monitor.Replay | uptimed/monitor.go:30-40 | the loop keeps the store invariant, makes at most one update per signal, and stops after an update whose write panicked |
| Daemon.Monitor.CheckHTTP | uptimed/monitor.go:75-98 | checkHTTP computes Probe |
| Daemon.Monitor.UpdateStatus | uptimed/monitor.go:43-73 | updateStatus computes Next from the baseline field, and leaves its new baseline in that field |
| Daemon.Monitor.Run | uptimed/monitor.go:14-41 | when a guard fails, monitor returns, or panics in NewTicker for a non-positive frequency, before any tick and changes nothing; otherwise it computes Replay, which ends at the first update that panics |
| Daemon.Monitor.Serve | uptimed/monitor.go:30-40 | the select loop computes Replay, returning at Done or after an update that panicked |
| Daemon.LaunchRule | uptimed/monitor.go:16-27 | no checker exactly for another kind; a bad frequency exactly for HTTP with an unparsable one; ticking exactly for HTTP with a positive frequency, at that period |
| Daemon.WrongTypeRule | uptimed/monitor.go:76-83 | another kind gets the wrong-type text with its name, whatever the network; the URL is never set |
| Daemon.DefaultTimeoutRule | uptimed/monitor.go:84-97 | an unparsable timeout means 60 s; a failed GET shows its error, an answer its status and code |
| Daemon.SkipRule | uptimed/monitor.go:45-50 | a tick is skipped exactly when the text repeats within the hour, a changed text is never skipped, and a skip changes nothing |
| Daemon.BaselineAdvances | uptimed/monitor.go:51-62 | once not skipped the baseline becomes the new status, also when OpenDB fails |
| Daemon.WriteOrder | uptimed/monitor.go:58-71 | a failed open or status write leaves the store; after the status write getStatus returns the new status; a written tick also reads back under its RFC 3339 key |
| Daemon.ReplayUntilDone | uptimed/monitor.go:30-40 | one update per signal before the first Done and nothing after it, unless an update panics first: that one is the last, and none before it panicked |
| Daemon.ReplayPrefix | uptimed/monitor.go:30-40 | the signals from the first Done on are never read |
| Daemon.ReplayShape | uptimed/monitor.go:30-40 | one outcome per wake-up before Done, up to and including the first update that panics |

## Left out

- JSON encoding is not modelled: a value is the record it encodes. json.Marshal failures are left out, because the records always marshal. An undecodable value is one of another shape.
- bcrypt is not modelled: the hash is a parameter (None when hashing fails). validateUser, setPass's hashing, getUsers, getUser, checkAdmin and getAllNotifications are left out; they are not among the modelled operations.
- openDB and getHistoryDetails are left out: the first is file-system work, the second is a wrapper the web front end uses.
- bbolt's transaction I/O, key and value size limits and commit errors are left out. A Put inside ForEach and a Delete during a cursor walk are assumed to behave as a later read would show.
- Logging is left out everywhere. A log-only error path, such as getStatus's error in updateStatus, behaves as the code continues.
- Goroutines, WaitGroups, contexts, sleeps and timers are left out. The root monitor loop (monitor.go:30-52) and its frequency guard are not modelled. The daemon's loop is modelled on an input sequence of wake-ups.
- The clock is an instant parameter. Instants are nanoseconds in UTC, restricted to years 0000 to 9999. Time zones are not modelled. getHistory and getStats read the clock twice; in the model both bounds of a window come from one instant, so the two reads never straddle a second boundary.
- Clock.TimeKey: a history key is a fixed-width count of seconds, not RFC 3339 text. It keeps what the code relies on: one key per second, in chronological order.
- Probe.CertDays: time.Until(NotAfter).Hours() / 24 is taken as the exact quotient, then truncated. Floating-point rounding is not modelled.
- History.Summary, Monitors.Percent, Monitors.Aggregate: the uptime percentage is an exact rational, not a float64.
- Notifier transports are a predicate that says whether a send fails. The Discord status notice's statusOK argument is not passed to it. The texts of the notices are not modelled.
- Monitor kinds are free text in the root package; their spelling is not part of this model. A notifier kind other than Slack, Discord and MailGun is Unknown.
- Daemon: uptime.OpenDB and uptime.AddKey are not part of this model. OpenDB is a flag per tick, and AddKey is Database.AddKey. The RFC 3339 key of a daemon write is a parameter of the world.
- Daemon.Monitor: only the status field is mutable; the loop never changes the others.
- Monitors.GetMonitors, Detector.StartMonitors, Detector.UpdateStatus: built on the corrected decoding and probe of "## Findings". They do not show the shared notifier arrays of getMonitors (Monitors.AliasedNotifiers does) or the panic of checkHTTP on a plain-http answer (Probe.ProbedAsWritten does).
- Monitors.AliasedNotifiers, Monitors.Grow: doubling is Go's growth rule for string slices up to 512 elements; longer notifier lists are not modelled exactly.

## Findings

| source | as written | input that shows it | evidently intended | confidence | as-written member | corrected member |
|---|---|---|---|---|---|---|
| monitor.go:135 | `len(resp.TLS.PeerCertificates)` reads resp.TLS, which is nil for a plain-http response | a monitor of a `http://` URL whose first request is answered | a plain connection reports no certificate expiry | not executed | Probe.PlainHttpPanics | Probe.CheckHTTP |
| database.go:226-240 | one `monitor` variable is decoded into for every record, so json.Unmarshal reuses its Notifiers backing array and an earlier appended record sees a later one's notifiers | records with notifiers [a, b] then [c] come back as [c, b] and [c] | each record keeps its own notifiers | not executed | Monitors.NotifierAliasing | Monitors.ForEachMonitor |
