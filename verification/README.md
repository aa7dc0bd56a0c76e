# Verified models of crashlog, log-watch and lct

This project models eight parts of an Android crash-reporting stack and proves what they
promise over all inputs and all runs: the log-watch event engine and its two threads, the
crash history store, rotated-log capture, the crash directory allocator, the lct attachment
format, ECC counter reporting, crashlogd's configuration files and the crashreport notifier.

`dafny verify dfyconfig.toml` checks everything.

| file | subject |
|---|---|
| `Sequences.dfy`, `Text.dfy`, `Fgets.dfy` | shared vocabulary: suffixes, subsequences, decimal notation, substring search, reading a file in pieces |
| `Time.dfy` | log-watch time stamps |
| `EventEngine.dfy`, `EngineLaws.dfy` | one watcher's worker as functions on values, and the laws of every run |
| `WatchProtocol.dfy` | reader and worker threads as interleaved steps |
| `EventWatch.dfy` | the updating watcher class, proved to take exactly those steps |
| `WatchRuns.dfy` | schedules that reach the bounds: noisy kills, and two events after a lazy kill |
| `CacheFile.dfy`, `History.dfy` | tail cache with its quicksort, and the history ring and file |
| `RotatedLogs.dfy` | logcat rotation and crashlog's circular copy |
| `CrashDirs.dfy` | round-robin crash directories |
| `LctCodec.dfy` | building and walking a packed event |
| `EccCounters.dfy` | memory error counters and their backup file |
| `Notifier.dfy` | the notifier's lock protocol |
| `ConfigFile.dfy` | configuration files |
| `DataFormat.dfy`, `FormatMeaning.dfy` | placeholder substitution, and what a format means |

Regular expressions are function values (any predicate, any captures). Files are sequences of
bytes, characters or lines, directories are maps or sets of names. I/O and allocation succeed
unless a result says otherwise. Clocks and counters read from the system are parameters. Code
that changes fields or arrays in place is a class or an array method whose postcondition equates
the new state with a function of the old one; laws of runs are proved about those functions.

## Findings

- Some schedule kills a watcher as noisy, if and only if the watcher can report at all and
  `max_event_count` gaps do not cover `max_event_interval` (`NoisyExactly`). A gap is a positive
  `event_suspend_interval` plus one microsecond, or nothing when that interval is 0. A watcher can
  report when some line matches its start pattern, its level range is not empty and, if it has a
  validation pattern, records may hold two items and some line matches that pattern and neither of
  the other two. The condition in whole seconds is sufficient (`NeverKilledNoisy`).
- `config_trim` is documented to strip both ends. It does, if and only if the string does not start
  with a blank (`TrimsBothEndsExactly`): the `return` at crashlog/config.c:56 is not guarded, so
  `" a "` comes back unchanged (`LeadingBlankStays`). The model follows the code.
- A configuration file read, dumped and read again gives the same configuration, unless it dangles:
  if and only if the last piece fgets delivers lies behind a section, is unterminated, is shorter
  than 124 characters, starts with a blank and holds '=', a value changes (`ReloadExactly`,
  `DanglingExample`). A configuration in memory survives if and only if its sections and pairs are
  ones the parser can make (`RoundTripExactly`).
- A scan over sections looks each section up by the section's own name string, so the lookup
  trims that name in place (`HasKeyHere`).
- The format loops of log-watch end for all values that hold no placeholder of their own kind
  (`RoundShrinks`); a value that spells its own placeholder makes them run for ever
  (`SelfReference`, `LoopsForever`), as a captured `%0` does (`CaptureLoops`). For values without one
  a loop is a single left-to-right substitution if and only if no placeholder directly follows an
  emitted '%' with a value that starts with a token character (`LoopIsPassExactly`); `"%%a"` is a
  text that can fail (`AdjacentDiffers`).
- The directory index is written and read with `%4u`, so it survives exactly below 10000
  (`ScanSurvives`, `ScanCutsLongIndex`). A limit above MAX_DIRS is only logged
  (crashlog/main.c:955-958), and the directories are those of the last `gmaxfiles` reservations in
  every run if and only if `gmaxfiles` is at most 10000 (`RoundRobinExactly`, `EvictsTooEarly`).
- Every refused notification is followed by a broadcast without any further request, if and only if
  no broadcast may stay in flight for 60 s or longer (`RefusalsCoveredExactly`, `TooManyIsLost`). The
  command is killed after 30 s (crashlog/crashutils.c:995), so no request is lost (`NoRequestIsLost`).
- After a kill the worker emits at most one more event, or two if it held an item when the kill
  was raised, which only a lazy kill can find (`TwoNeedsItem`); two do occur (`TwoAfterLazyKill`).
  What follows a kill is determined by what was processed and in hand by then (`KilledRunIs`).

## Model

| member | source | states |
|---|---|---|
| Time.Plus | log-watch/TimeVal.cpp:63-68 | the sum of two time stamps is normalised and is the sum of their instants in microseconds, carry included |
| Time.Minus | log-watch/TimeVal.cpp:70-75 | the difference is normalised and is the difference of the instants, borrow included |
| Time.Less | log-watch/TimeVal.cpp:77-84 | the comparison by seconds, then microseconds, holds exactly when the first instant is earlier |
| Time.AtMost | log-watch/TimeVal.cpp:47-53 | `<=` is the order of instants, both directions |
| Time.AtLeast | log-watch/TimeVal.cpp:55-57 | `>=` is the order of instants, both directions |
| Time.TimeCell.constructor | log-watch/TimeVal.cpp:25-29 | a new object is normalised and keeps the instant it was given |
| Time.TimeCell.Redist | log-watch/TimeVal.cpp:92-102 | both loops terminate for any sec/usec, the instant is unchanged and usec ends within one second |
| Time.TimeCell.Add | log-watch/TimeVal.cpp:40-45 | adding in place yields the normalised sum |
| EngineLaws.GatherNormal | log-watch/EventWatch.cpp:166-228 | one call of `process` closes at most one record; the groups of items closed and still open are those of the reference, which looks at patterns, sizes and microseconds only; every record is well formed |
| EngineLaws.TakenOk | log-watch/EventWatch.cpp:181-210 | a record that takes an item stays well formed: continuing lines only, an end line only last, validity and captures decided by the last validating line |
| EngineLaws.BooksAdd | log-watch/EventWatch.cpp:151-164 | filing a record keeps the books: accepted records are those of events plus pending ones, suspended ones are the reported plus the current tally, and the newest of them are kept |
| EngineLaws.BooksFlush | log-watch/EventWatch.cpp:338-483 | a flush moves the pending records and the tally into one event, and every event dumped exactly the newest records suspended since the flush before it |
| EngineLaws.FlushLogs | log-watch/EventWatch.cpp:456-459 | after a flush `event_log` holds the newest `max_event_count` + 1 event times, newest first |
| EngineLaws.ProcessKeeps | log-watch/EventWatch.cpp:166-254 | every call keeps shapes, books, event log and spacing; after end-of-file nothing is open, pending or kept |
| EngineLaws.RunKeeps | log-watch/EventWatch.cpp:151-254 | conservation over every run: each valid closed record is in exactly one of an event, the pending list or the tally; %S totals plus tally are all suspended records; before end-of-file `suspend_records` is the last min(tally, max) of them; events have 1 to `max_records` valid, well-formed records; event times are more than the suspend interval apart |
| EngineLaws.RunItemsInOrder | log-watch/EventWatch.cpp:166-228 | over every run the items of all records in closing order are a subsequence of the feed, so order is kept and no item is in two records |
| EngineLaws.RunGroups | log-watch/EventWatch.cpp:166-228 | over every run exactly the lines that open, continue or end a record are taken, grouped and closed as the reference says: at the next start, at an end line, when full, at the flush timeout, at the end of the file |
| EngineLaws.TakenExactly | log-watch/EventWatch.cpp:181-210 | the open record takes a line exactly when it continues or ends it |
| EngineLaws.EventsWhenDue | log-watch/EventWatch.cpp:230-251 | over every run a line brings an event exactly when the list is full, its first record has reached the timeout in microseconds, or the file ended with records pending |
| EngineLaws.RunOpens | log-watch/EventWatch.cpp:171-180 | over every run there are exactly as many records, closed or open, as start matches |
| EngineLaws.RunFates | log-watch/EventWatch.cpp:151-164 | over every run a closed record is dropped exactly if invalid, suspended exactly if valid and not beyond the window of the last event before it was closed, and accepted otherwise |
| EngineLaws.RunOnTime | log-watch/EventWatch.cpp:223-243 | with nondecreasing time stamps no open or pending record is `flush_timeout` or more older than the item just processed |
| EngineLaws.SpacedSpan | log-watch/EventWatch.cpp:230-243 | events k apart are at least k times the suspend interval plus one microsecond apart |
| EngineLaws.LimiterSpan | log-watch/EventWatch.cpp:585-597 | the limiter lets a watcher go on exactly when its last `max_event_count` + 1 events span `max_event_interval`, or there are fewer |
| EngineLaws.CapExactly | log-watch/EventWatch.cpp:585-588 | without an interval the limiter lets a run go on exactly below `max_event_count` events |
| EngineLaws.NeverNoisy | log-watch/EventWatch.cpp:585-597 | with windows that cover the interval the limiter never stops any run |
| EngineLaws.SecondsSuffice | log-watch/EventWatch.cpp:230-243 | interval * count >= `max_event_interval` in whole seconds is enough for that |
| WatchRuns.MuteRun | log-watch/EventWatch.cpp:166-254 | a watcher whose patterns, item limit or levels let no record become valid never emits an event |
| WatchRuns.StoppedRun | log-watch/EventWatch.cpp:585-597 | for any other watcher whose windows do not cover the interval there is a run the limiter stops: a burst of `max_records` + 1 records at every multiple of the gap |
| WatchRuns.Drive | log-watch/EventWatch.cpp:260-292 | any accepted items can be driven through both threads one by one, up to a noisy kill |
| WatchRuns.NoisyExactly | log-watch/EventWatch.cpp:456-483 | no schedule ends with kill reason NOISY exactly when the windows cover the interval or the watcher can never report |
| WatchRuns.TwoAfterLazyKill | log-watch/EventWatch.cpp:275-284 | whatever the mailbox size, a schedule in which two events follow a lazy kill |
| WatchRuns.TwoNeedsItem | log-watch/EventWatch.cpp:275-284 | at most one event follows a kill, two only if the worker held an item when it was raised, and then the kill was lazy |
| WatchRuns.KilledRunIs | log-watch/EventWatch.cpp:496-523 | a killed worker ends with the run over what was processed at the kill, the item in hand and the end-of-file, whatever the schedule |
| WatchRuns.VerdictHolds | log-watch/EventWatch.cpp:456-483 | in every interleaving a noisy kill found too narrow a span, a kill for too many events found exactly `max_event_count` of them, and a watcher past the limiter has neither |
| WatchRuns.AllEventsAllowed | log-watch/EventWatch.cpp:585-588 | without an interval, below `max_event_count` events only a lazy kill stops a watcher |
| WatchRuns.AcceptsExactly | log-watch/EventWatch.cpp:260-267 | an idle watcher accepts exactly the end of the file and the items between its two levels |
| WatchRuns.LazyExactly | log-watch/EventWatch.cpp:275-284 | a feed kills as lazy exactly when more than `mailbox_max` items wait |
| WatchProtocol.StepKeeps | log-watch/EventWatch.cpp:260-292 | every step of either thread keeps the invariant: pipeline faithful to what was accepted, thread states, semaphore and mailbox bounds, engine equal to the run over the processed items |
| WatchProtocol.Safety | log-watch/EventWatch.cpp:496-523 | every interleaving keeps that invariant |
| WatchProtocol.WorkerSeesPrefix | log-watch/EventWatch.cpp:260-292 | in every interleaving the worker processes a prefix of the accepted items, possibly followed by one synthetic end-of-file; the mailbox holds at most `mailbox_max` + 1 items; the semaphore covers it; at most one kill |
| WatchProtocol.EofPending | log-watch/EventWatch.cpp:458-483 | after a kill an end-of-file is alone in the mailbox or in the worker's hands until the worker has seen it |
| WatchProtocol.KilledNotBlocked | log-watch/EventWatch.cpp:503-516 | a killed worker can always take its next step until it is gone |
| WatchProtocol.KilledProgress | log-watch/EventWatch.cpp:503-523 | each worker step after a kill brings the end closer, and no reader step delays or revives the worker |
| WatchProtocol.KilledTerminates | log-watch/EventWatch.cpp:496-523 | from a kill on, any continuation holds at most eight worker steps, and the worker is enabled until it is gone |
| WatchProtocol.RatesHold | log-watch/EventWatch.cpp:456-483 | in every interleaving: alive means the limiter agreed; with no interval at most `max_event_count` + 1 events; after a kill at most one event, and one more if the worker held an item, which a kill in `flush` never finds |
| WatchProtocol.AliveSpan | log-watch/EventWatch.cpp:575-597 | past `max_event_count`, a watcher left alive has its last `max_event_count` + 1 events spanning `max_event_interval` |
| WatchProtocol.NeverKilledNoisy | log-watch/EventWatch.cpp:461-465 | with suspend interval * count >= interval no interleaving ends with kill reason NOISY |
| WatchProtocol.EventCap | log-watch/EventWatch.cpp:585-588 | with `max_event_interval` = 0 a whole run emits at most `max_event_count` + 1 events |
| EventWatch.EventWatch.AddRecord | log-watch/EventWatch.cpp:151-164 | the updating code files a record as the engine function does, changing nothing else |
| EventWatch.EventWatch.CheckBody | log-watch/EventWatch.cpp:196-209 | the loop over body patterns answers whether any matches, or true when there is none |
| EventWatch.EventWatch.Collect | log-watch/EventWatch.cpp:170-221 | the pattern part of `process`, with its flags and early resets, is the engine's Collect |
| EventWatch.EventWatch.ProcessItem | log-watch/EventWatch.cpp:166-254 | a whole call refines the engine step, returns false exactly for end-of-file, and touches the mailbox only through the limiter after a flush |
| EventWatch.EventWatch.Flush | log-watch/EventWatch.cpp:338-483 | the worker's data change as in the engine, and the mailbox is cleared for an end-of-file exactly when the limiter refuses while data are accepted |
| EventWatch.EventWatch.LogEvent | log-watch/EventWatch.cpp:575-583 | the deque ends as the engine's bounded log, untouched without an interval |
| EventWatch.EventWatch.LogContinue | log-watch/EventWatch.cpp:585-597 | the early returns decide as the engine's limiter |
| EventWatch.EventWatch.Handle | log-watch/EventWatch.cpp:513-515 | the worker's turn with an item is the protocol's Work step, then Limit if it flushed |
| EventWatch.EventWatch.TakeItem | log-watch/EventWatch.cpp:503-512 | waking up is Wait then Take, with the head of the mailbox or nothing |
| EventWatch.EventWatch.Feed | log-watch/EventWatch.cpp:260-292 | an uninterrupted call changes the system as `Fed`, and answers false exactly for a stopped or refusing watcher |
| EventWatch.EventWatch.Post | log-watch/EventWatch.cpp:274-289 | the critical section appends and counts the item, or kills a lazy watcher, or does nothing |
| EventWatch.FedIsSchedule | log-watch/EventWatch.cpp:260-292 | an uninterrupted `feed` is a schedule of protocol steps, thread start included |
| EventWatch.WorkThenLimit | log-watch/EventWatch.cpp:456-483 | the worker's uninterrupted turn equals the protocol's two steps |
| CacheFile.Swap | crashlog/fsutils.c:1337-1349 | keys are exchanged and every record stays next to its key |
| CacheFile.Partition | crashlog/fsutils.c:1351-1363 | Lomuto's scheme: smaller keys before the returned place, larger behind it, records in lockstep, nothing outside the range touched |
| CacheFile.SortRange | crashlog/fsutils.c:1365-1372 | the range ends ascending with records in lockstep, for any pivot position found |
| CacheFile.AscendingIsIdentity | crashlog/fsutils.c:1392-1410 | distinct ascending keys that fill their range are the identity |
| CacheFile.Quicksort | crashlog/fsutils.c:1392-1421 | the array is rotated left by the pivot, in place |
| CacheFile.RingStore | crashlog/fsutils.c:1477-1490 | storing a line keeps "the ring holds the newest lines", overwriting the oldest when full |
| CacheFile.FillRing | crashlog/fsutils.c:1475-1493 | the loop leaves the newest lines from the offset in the ring, with the right count and position |
| CacheFile.CacheTail | crashlog/fsutils.c:1429-1511 | the buffer receives the last `maxrecords` lines from `offset`, in file order, then NULLs; returns their number; -EINVAL for a negative offset |
| History.RecordingKeepsSuffix | crashlog/history.c:212-317 | after any run of recordings the file's entries are a suffix of everything recorded |
| History.RecordingLength | crashlog/history.c:256-315 | the number of entries and of full rewrites after any run, as closed forms of the total |
| History.RecordingBounds | crashlog/privconfig.h:43-45 | min(total, MAX_RECORDS) <= entries < MAX_RECORDS_HIST_FILE, and at most one rewrite per 1000 updates |
| History.RingUnrolls | crashlog/history.c:298-313 | reading the ring from `nextline` gives the last min(entries, MAX_RECORDS) entries, oldest first |
| History.RingIsFull | crashlog/history.c:298-313 | when a trim happens no slot is NULL |
| History.HistoryStore.CacheHistoryFile | crashlog/history.c:119-169 | loading creates the file if needed, keeps its entries, and leaves ring, `nextline` and `fileentries` in agreement with it |
| History.HistoryStore.ResetHistoryCache | crashlog/history.c:171-182 | emptying and reloading does the same from any state, also when the test on slot 0 skips the loop |
| History.HistoryStore.UpdateHistoryFile | crashlog/history.c:212-317 | an update records one entry in ring and file alike, and keeps them in agreement through append and trim |
| History.HistoryStore.Trim | crashlog/history.c:271-315 | the rewritten file is the header and the newest MAX_RECORDS entries in order |
| History.HistoryStore.HistoryHasEvent | crashlog/history.c:391-408 | true exactly when one of the newest MAX_RECORDS entries contains the directory name |
| History.ColdEqualsWarm | crashlog/history.c:139-169 | two loaded stores over one file have the same entries and the same `fileentries` |
| History.Restart | crashlog/history.c:119-169 | reloading the file left by a live store shows the live ring's entries |
| History.RecordAll | crashlog/history.c:212-317 | any number of updates on a live store: file entries, `fileentries` and unrolled ring all follow the recording function |
| RotatedLogs.NamesDistinct | logcatext/logcat.cpp:103-115 | no two generations share a file name, whatever the padding |
| RotatedLogs.NameExample | logcatext/logcat.cpp:103-115 | the padded name of one generation |
| RotatedLogs.Logcat.RotateLogs | logcatext/logcat.cpp:90-143 | the descending renames shift every generation by one, drop only the one beyond the limit, and reopen an empty base file |
| RotatedLogs.Logcat.WriteLine | logcatext/logcat.cpp:204-218 | the bytes go to the newest file, and the files are rotated exactly when the bytes since the last rotation reach the rotation size; over any run the files joined oldest first are a suffix of the stream, all of it while places are left |
| RotatedLogs.NewestIsSmall | logcatext/logcat.cpp:212-218 | with rotated files the newest one stays below the rotation size and all others have reached it |
| RotatedLogs.RotationShifts | logcatext/logcat.cpp:106-134 | a rotation moves every generation up by one and opens an empty one |
| RotatedLogs.RotationDrops | logcatext/logcat.cpp:106-132 | a rotation loses bytes only when all places are taken, and then the oldest ones |
| RotatedLogs.CopyTail | crashlog/fsutils.c:1150-1186 | copies exactly the last `limit` bytes, everything for 0, or reports the missing file |
| RotatedLogs.CaptureIsTail | crashlog/fsutils.c:1252-1294 | the pieces taken generation by generation are together the last `limit` bytes of the chain |
| RotatedLogs.CopyCircular | crashlog/fsutils.c:1267-1293 | terminates, stores exactly those pieces, and is negative exactly when the generations run out before the limit |
| RotatedLogs.DoCopyCircular | crashlog/fsutils.c:1252-1294 | the same with the names the function builds, with or without an extension; no two pieces share a name |
| RotatedLogs.CopyNamesExample | crashlog/fsutils.c:1262-1283 | the names read and written for one log with a tag and an extension |
| RotatedLogs.StoredOnly | crashlog/fsutils.c:1252-1294 | no other file of the destination changes |
| RotatedLogs.NamesAgree | crashlog/fsutils.c:1713-1719 | padding to the length of the rotation property gives the names logcat uses |
| RotatedLogs.CaptureEndToEnd | crashlog/fsutils.c:1252-1294 | after any run of the writer a capture is the last min(limit, retained) bytes, a suffix of the stream, and the true last `limit` bytes whenever the rotated files are meant to hold that many |
| RotatedLogs.CaptureLog | crashlog/fsutils.c:1707-1723 | end to end through the names each program builds for itself: every piece is found under its own name, and together they are the last `limit` bytes |
| CrashDirs.ScanOfPrint | crashlog/fsutils.c:92-150 | an index below 10000 is read back as written, in four characters |
| CrashDirs.ScanIs | crashlog/fsutils.c:92-124 | of any text, the at most four digits behind its blanks count, and without a digit 0 |
| CrashDirs.PrintExample | crashlog/fsutils.c:139-139 | an index is printed to the right of four columns |
| CrashDirs.NameExample | crashlog/fsutils.c:698-701 | the name of one directory |
| CrashDirs.ScanSurvives | crashlog/fsutils.c:92-150 | an index is read back as written exactly when it is below 10000 |
| CrashDirs.ScanCutsLongIndex | crashlog/fsutils.c:139-139 | 10000 is read back as 1000 |
| CrashDirs.MatchIsExact | crashlog/fsutils.c:585-588 | the substring match on name, index and underscore hits exactly the directories with that index, for all hex keys |
| CrashDirs.SameSlot | crashlog/fsutils.c:139-139 | reservations at most a round apart share an index exactly when they are a whole round apart |
| CrashDirs.EvictsOldest | crashlog/fsutils.c:551-596 | evicting the next index removes exactly the reservation one round back |
| CrashDirs.Allocator.ReserveFolder | crashlog/fsutils.c:598-651 | hands out the stored index, 0 when the file is missing or holds no number, and writes its successor over the old text |
| CrashDirs.BackInRange | crashlog/fsutils.c:126-150 | an index beyond the limit is brought back into range by the next reservation |
| CrashDirs.Allocator.RemoveMatching | crashlog/fsutils.c:551-596 | removes exactly the names containing the pattern |
| CrashDirs.Allocator.GenerateDir | crashlog/fsutils.c:689-712 | the names with the index handed out are gone, the new directory exists, everything else stays; for any counter file and limit |
| CrashDirs.LiveCount | crashlog/fsutils.c:689-712 | one directory per live reservation, no name shared |
| CrashDirs.RoundRobin | crashlog/fsutils.c:598-712 | for limits up to 10000, after any run the directories are exactly those of the last `gmaxfiles` reservations, min(reservations, gmaxfiles) of them |
| CrashDirs.EvictsTooEarly | crashlog/fsutils.c:92-150 | for any larger limit, a run that evicts index 1000 although there is room |
| CrashDirs.RoundRobinExactly | crashlog/fsutils.c:598-712 | the directories are those of the last `gmaxfiles` reservations in every run exactly when `gmaxfiles` is at most 10000 |
| LctCodec.Align | lct/libsock/inc/kct_stub.h:77-81 | the least multiple of four not below the argument |
| LctCodec.WordRoundTrip | lct/libsock/inc/kct_stub.h:59-63 | a 32-bit header field read back from its four bytes is the value stored |
| LctCodec.LittleEndian | lct/libsock/inc/kct_stub.h:59-63 | the bytes of a field, least significant first |
| LctCodec.EncodesAppend | lct/libsock/liblctsock.c:63-85 | an area of attachments followed by a block encodes one attachment more |
| LctCodec.StoreBlock | lct/libsock/liblctsock.c:73-76 | size, type and data stored into unset memory make a block and change nothing before it |
| LctCodec.EventBuffer.Attach | lct/libsock/liblctsock.c:63-85 | the bytes encode the old attachments and the new one; the size field in the header grows by the aligned length, the rest of the header is kept |
| LctCodec.EventBuffer.Walk | lct/libsock/inc/kct_stub.h:83-91 | visits exactly the attached (type, size, bytes) in order; every header is 4-aligned and lies behind the aligned lengths of those before it; the cursor ends exactly where the size field says |
| LctCodec.AreaIsTotal | lct/libsock/inc/kct_stub.h:65-73 | the size field is the sum of the aligned lengths |
| LctCodec.SizeStored | lct/libsock/liblctsock.c:78-78 | setting the size field changes its four bytes only, and it reads back |
| LctCodec.WalkStep | lct/libsock/inc/kct_stub.h:83-91 | what is read at a header is the next attachment, and the next header starts behind its padding |
| LctCodec.LogAll | lct/libsock/liblctsock.c:107-135 | under each of the types 0 to 5, 7 and 8 the event carries exactly the given string with its zero byte, the file list and the steps, in order of the types, and nothing else |
| LctCodec.LoggedFields | lct/libsock/liblctsock.c:107-135 | the data found under every type, in terms of the arguments |
| EccCounters.CheckEccError | crashlog/intel_specific/intel_ecc_handler.c:184-220 | -1 without a file, else the recursive reading of its first 64 characters |
| EccCounters.CounterRoundTrip | crashlog/intel_specific/intel_ecc_handler.c:208-217 | reading the text sysfs shows gives the counter |
| EccCounters.ReadIs | crashlog/intel_specific/intel_ecc_handler.c:208-217 | leading digits count when they end the text or a line; anything else behind them makes the count 0 |
| EccCounters.GetBackupCount | crashlog/intel_specific/intel_ecc_handler.c:232-292 | -1 without a file, else the count given by the first piece of the text that gives one, else 0 |
| EccCounters.ParseGroup | crashlog/intel_specific/intel_ecc_handler.c:253-286 | one group of a line: a count, a place to go on, or nothing |
| EccCounters.LineRoundTrip | crashlog/intel_specific/intel_ecc_handler.c:357-363 | a written line gives its count to the paths it is a prefix of and nothing to others |
| EccCounters.GroupFound | crashlog/intel_specific/intel_ecc_handler.c:253-286 | in any line, a group for the file with digits that end well gives its count |
| EccCounters.GroupSkipped | crashlog/intel_specific/intel_ecc_handler.c:253-286 | a group for another file is passed over up to its semicolon |
| EccCounters.PrefixServes | crashlog/intel_specific/intel_ecc_handler.c:258-258 | a line also serves files whose path it is only a prefix of |
| EccCounters.ListedExactly | crashlog/intel_specific/intel_ecc_handler.c:357-363 | exactly the counters that are or were nonzero are written |
| EccCounters.CounterPathsApart | crashlog/intel_specific/intel_ecc_handler.c:353-353 | counter paths are prefix-free unless a directory is itself named like a counter |
| EccCounters.ListingRoundTrip | crashlog/intel_specific/intel_ecc_handler.c:347-374 | the lines a pass wrote give every path its value |
| EccCounters.StreamRoundTrip | crashlog/intel_specific/intel_ecc_handler.c:232-292 | so does the text of the file, read back with fgets |
| EccCounters.RaisedOnce | crashlog/intel_specific/intel_ecc_handler.c:517-552 | a pass reports a counter once, exactly when it has grown |
| EccCounters.PassValues | crashlog/intel_specific/intel_ecc_handler.c:517-552 | a pass extends the reported values of a path strictly, ending at the current value |
| EccCounters.EccHandler.RestoreCount | crashlog/intel_specific/intel_ecc_handler.c:347-374 | raises the counters above their backup and rewrites the file with all that are or were nonzero |
| EccCounters.EccHandler.CountHandle | crashlog/intel_specific/intel_ecc_handler.c:517-552 | raises the counters above memory, updates memory, rewrites the file only if something was raised |
| EccCounters.StartDaemon | crashlog/intel_specific/intel_ecc_handler.c:347-374 | after any earlier runs: each counter that has grown is reported once with its value, no value twice, and file, memory and reports agree |
| EccCounters.Pass | crashlog/intel_specific/intel_ecc_handler.c:517-552 | the same for every later pass |
| EccCounters.RunDaemons | crashlog/intel_specific/intel_ecc_handler.c:347-374 | over any readings and any restarts between them, exactly the readings that rise above the one before are reported, on top of what was reported earlier |
| EccCounters.RisesIncrease | crashlog/intel_specific/intel_ecc_handler.c:517-552 | those values strictly increase, so none is repeated |
| EccCounters.RisesComplete | crashlog/intel_specific/intel_ecc_handler.c:517-552 | every value a counter was read at is among them or was reported before, so none is missed |
| Notifier.CrashreportNotifier.Ask | crashlog/crashutils.c:964-988 | the first critical section answers and updates the statics as the protocol step does |
| Notifier.RequestExactly | crashlog/crashutils.c:964-988 | in every run, what a request gets in terms of threads and broadcasts alone: nothing with three threads in flight; sent at once unless a broadcast was sent without a sleep in the last 60 s; else it sleeps, or is refused if a thread already does |
| Notifier.StepCounts | crashlog/crashutils.c:964-999 | `thread_count` counts the threads in flight, at most 3, and `last_chance` says that exactly one sleeps |
| Notifier.StepCovers | crashlog/crashutils.c:971-975 | every request refused as already notified is followed by a commit, or a sleeper will make one |
| Notifier.Safety | crashlog/crashutils.c:945-999 | in every interleaving: counts, spacing of commits and coverage of refusals |
| Notifier.WindowHoldsTwo | crashlog/crashutils.c:945-999 | no half-open window of 60 s holds three commits |
| Notifier.CoveredExactly | crashlog/crashutils.c:964-999 | some continuation without a request, in which no broadcast takes too long, broadcasts again exactly when a thread sleeps |
| Notifier.FullHasSleeper | crashlog/crashutils.c:966-970 | when broadcasts end within 60 s, three threads in flight are never all broadcasting |
| Notifier.RefusalsCoveredExactly | crashlog/crashutils.c:964-999 | over all schedules every refused request is covered exactly when no broadcast may stay in flight for 60 s |
| Notifier.NoRequestIsLost | crashlog/crashutils.c:995-999 | with the 30 s timeout of the broadcast command every refused request of either kind is covered |
| Notifier.Perform | crashlog/crashutils.c:964-999 | the three critical sections of the class are the steps of the protocol |
| Notifier.TooManyIsLost | crashlog/crashutils.c:966-970 | for any longer timeout, a run in which a request is refused for too many threads and nothing broadcasts again |
| ConfigFile.ConfigTrim | crashlog/config.c:45-80 | the loop computes the trimmed string, unchanged if it starts with a blank |
| ConfigFile.TrimEndRemoves | crashlog/config.c:70-79 | what goes is the longest run of blanks at the end |
| ConfigFile.TrimsBothEndsExactly | crashlog/config.c:45-80 | no blank is left at either end exactly when the string does not start with one |
| ConfigFile.LeadingBlankStays | crashlog/config.c:53-57 | a string that keeps both its blanks |
| ConfigFile.ConfigHandle.InitConfigFile | crashlog/config.c:287-315 | reading in pieces of at most 124 characters yields the parsed sections, cursor on the last one; -1 and no sections without a file |
| ConfigFile.PieceRead | crashlog/config.c:121-223 | a bracketed piece adds an empty section, a pair goes to the end of the last section if there is one, everything else is ignored |
| ConfigFile.PairOfUnique | crashlog/config.c:134-142 | a piece has one pair only: key and value are split at its first equals sign |
| Fgets.ChunksAreAll | crashlog/config.c:306-312 | the pieces read are together the whole file |
| ConfigFile.ConfigHandle.DumpConfig | crashlog/config.c:323-346 | the nested loops write the printed form |
| ConfigFile.PrintedSection | crashlog/config.c:334-343 | a section is an empty line, its name in brackets and its pairs |
| ConfigFile.PrintedPair | crashlog/config.c:337-340 | a pair is key, equals sign and value on a line of its own |
| Fgets.ChunksOfJoin | crashlog/config.c:306-312 | lines of at most 124 characters are read back in order, a break that no longer fits as a piece of its own |
| Fgets.ChunksArePieces | crashlog/config.c:306-312 | only the last piece of a file is neither a whole line nor a full buffer |
| ConfigFile.SectionsRead | crashlog/config.c:121-223 | reading printed sections appends exactly those sections |
| ConfigFile.RoundTrip | crashlog/config.c:287-346 | parsing what was printed gives the same sections, keys, values and order, also for lines kept with their leading blank and line break |
| ConfigFile.ParsedOk | crashlog/config.c:121-223 | whatever the parser makes of a file that does not dangle survives printing |
| ConfigFile.RoundTripExactly | crashlog/config.c:287-346 | a configuration survives printing and parsing exactly when its sections and pairs are ones the parser can make |
| ConfigFile.ReloadExactly | crashlog/config.c:287-346 | reading, dumping and reading again changes nothing exactly unless the file dangles |
| ConfigFile.DanglingExample | crashlog/config.c:53-57 | a file on which it changes a value |
| ConfigFile.CmpConfig | crashlog/config.c:354-390 | 0 exactly when both handles exist and their section, key and value sequences are equal |
| ConfigFile.DumpAndReload | crashlog/config.c:287-390 | a dumped and reloaded configuration compares equal exactly when it can survive |
| ConfigFile.LoadDumpReload | crashlog/config.c:287-390 | for a configuration loaded from a file, exactly unless the file dangles |
| ConfigFile.CursorMatters | crashlog/config.c:225-242 | a lookup differs from a fresh search exactly when the cursor stands on a later section of the same name |
| ConfigFile.ConfigHandle.FindSection | crashlog/config.c:225-242 | finds the cursor's section or the first of that name, and leaves the cursor there |
| ConfigFile.ConfigHandle.GetValue | crashlog/config.c:245-263 | the value of the first pair with the key in the section found, or none if no pair has it; with unique names that of a fresh search whatever the cursor was |
| ConfigFile.ConfigHandle.FindBaseSection | crashlog/config.c:426-442 | the next section with the base name from the cursor, or behind it |
| ConfigFile.ConfigHandle.HasKeyHere | crashlog/config.c:276-284 | asking with the section's own name string trims it in place, leaves the cursor on it and finds its own key |
| ConfigFile.BaseSectionsComplete | crashlog/config.c:444-467 | the listed sections are exactly those with the base name, once each, in file order |
| ConfigFile.BaseSectionsAre | crashlog/config.c:431-434 | those are the sections whose name is the base, a blank, a quote and anything |
| ConfigFile.WithKeyIs | crashlog/config_handler.c:212-222 | the scan visits the longest front part of them in which every section has the key |
| ConfigFile.ConfigHandle.LoadByPattern | crashlog/config_handler.c:212-222 | the first/next scan interleaved with lookups visits the matching sections in file order up to the first one without the key |
| ConfigFile.AllWithKey | crashlog/config_handler.c:212-222 | if all have the key, the scan visits every one of them |
| DataFormat.RoundShrinks | log-watch/DataFormat.cpp:55-66 | every round leaves fewer placeholders, or as many with fewer '%' before the first, so the loops terminate for all values without a placeholder of their own |
| DataFormat.Format.FormatMap | log-watch/DataFormat.cpp:47-69 | whenever the loop ends, its result is the text after the last round; looking up missing letters leaves all named values as they were |
| DataFormat.Format.FormatCap | log-watch/DataFormat.cpp:71-93 | the same for captures, with "-?-" for missing ones, `atoi` overflow included |
| DataFormat.CleanEnds | log-watch/DataFormat.cpp:55-66 | values without a placeholder of their own kind make a loop end, with the rewritten text |
| DataFormat.EndedUnique | log-watch/DataFormat.cpp:55-66 | a loop has at most one result |
| DataFormat.NoneLeft | log-watch/DataFormat.cpp:55-66 | no placeholder is left when a loop ends |
| DataFormat.RewritingIsOnePass | log-watch/DataFormat.cpp:47-93 | a loop is one left-to-right substitution if no placeholder follows a '%' and no value ends with one |
| DataFormat.PlainFormats | log-watch/DataFormat.cpp:99-109 | values without '%' and a format without adjacent '%' meet that condition in both passes |
| DataFormat.OnePassExactly | log-watch/DataFormat.cpp:47-93 | a loop is one left-to-right substitution exactly when that leaves no placeholder |
| DataFormat.LoopIsPassExactly | log-watch/DataFormat.cpp:47-93 | exactly when no placeholder behind an emitted '%' has a value that starts with a token character |
| DataFormat.SelfReference | log-watch/DataFormat.cpp:55-66 | a value that spells its own placeholder makes a round reproduce its input |
| DataFormat.LoopsForever | log-watch/DataFormat.cpp:55-66 | and so every number of rounds |
| DataFormat.CaptureLoops | log-watch/DataFormat.cpp:71-93 | formatCap does not end on "%0" when the first capture is "%0" |
| DataFormat.AdjacentDiffers | log-watch/DataFormat.cpp:47-69 | "%%a" is a text on which loop and single pass differ |
| DataFormat.Format.DoFormat | log-watch/DataFormat.cpp:99-109 | whenever both loops end, the result of one after the other, with empty arguments leaving stored ones in place |
| FormatMeaning.FormatMeans | log-watch/DataFormat.cpp:47-109 | a format of texts, letters and numbers yields, for values without '%', the texts unchanged, each letter's non-empty value and the capture of each number, "-?-" for what is missing |
| FormatMeaning.FormatParts | log-watch/DataFormat.cpp:99-109 | so does the object's own method |
| DataFormat.FormattedInTwoPasses | log-watch/DataFormat.cpp:99-109 | for clean values it is that of two single substitutions when neither pass can meet a '%' before a placeholder |

## Left out

- Integer widths: counters, sizes, indices and TimeVal's `long` fields are unbounded; only the 32-bit event size, the ECC counters and `atoi` are modelled with their width.
- LctCodec.EventBuffer.Attach: requires the event to stay below 4 GiB, the range of its 32-bit size field; realloc failure is not modelled.
- LctCodec.LogAll: models everything up to the socket send, with strings as byte sequences.
- Regular expression matching itself, and the text files, attachments and lct_log call that `flush` produces; an event keeps its records, its %S count and the records written to suspend.txt.
- EventWatch.EventWatch.Feed: proved for an uninterrupted call; interleavings are covered by WatchProtocol, whose steps the methods are proved to take.
- The setters of EventWatch, `notifyKill`, output directories and `keep_last`.
- Linked lists and shared pointers (records, sections, the ECC watch list) are sequences; the one aliasing that matters, a section name trimmed through a lookup, is modelled.
- History.HistoryStore.UpdateHistoryFile: takes the formatted line and the header line as parameters; the file has at least its two header lines.
- `update_history_on_cmd_delete`, `history_delete_first_existent_logcrashpath`, `uptime_history` and `reset_uptime_history` edit the file without the ring.
- CacheFile.CacheTail: models tail mode only; lines longer than MAXLINESIZE are not split.
- RotatedLogs.DoCopyCircular: limits beyond an `int` and path truncation at PATHMAX are not modelled.
- RotatedLogs.Logcat.constructor: logcat starts on an empty directory; an existing output file's size is not taken over.
- CrashDirs.RoundRobin: speaks of stores whose counter file, if present, holds four characters and an index within the limit, and that hold no directory of the allocator's own naming yet; a limit of 0, which divides by zero, is excluded.
- Free-space checks, folder creation failures, and the history edit of `generate_crashlog_dir` for a directory that already exists.
- EccCounters.EccHandler.constructor: counters are `int` values, and a counter file or DIMM that disappears between runs is not modelled; nor is the check at a fatal error.
- The notifier's gating by crashlog mode and boot state, and what the broadcast command does; the whole-second clock stands for its 30 s timeout, with 29 s to spare for delays.
- ConfigFile.ConfigHandle.InitConfigFile: NUL characters in a file are not modelled.
- inotify plumbing, the unblocker, backtraces, and the modem, UEFI, DMI, netlink, JNI, ptrace and property wrappers.
