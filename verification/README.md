# Verified model of the beacon back end

A Dafny model of three parts of the program, and proofs about them:

* the decoder of Boomerang's compressed bucket logs (`beacon/decompress.go`),
* the backup pipeline, from batched requests over hour files to day archives with a line index
  (`backup/backup.go`, `backup/archive.go`, `backup/single.go`),
* the event service with its host buffer, and the subscription cache in front of the database
  (`service/service.go`, `service/subscription/caching/caching.go`, `types/owner_hostname.go`).

`dafny verify dfyconfig.toml` checks everything.

## How it is laid out

| file | content |
|---|---|
| `Text.dfy`, `Numerals.dfy` | first index, splitting, lines; numerals in base 10 and 36 with Horner evaluation |
| `BucketLog.dfy` | the log's tokens, lexer, printer, and what a token stream decodes to |
| `BucketLogLaws.dfy` | the decoder's laws, over all byte strings |
| `Format.dfy` | the format byte by byte: what every piece of data decodes to, in each type |
| `Decompress.dfy` | the scanner loop itself, proved against the token semantics |
| `Calendar.dfy` | dates, days and months with Go's normalisation; the three-month trial |
| `Paths.dfy` | file names and why they never collide |
| `Batch.dfy` | grouping a batch by host |
| `Archive.dfy` | day content, line-range index, reading an archive back |
| `Flushing.dfy` | writing a grouped batch; what the index counts in the end |
| `Ledger.dfy` | the multiset of events that a set of files holds |
| `Pipeline.dfy` | the backup directory as a step machine, with writes between the file changes of a compression and compressions that fail; exact conservation over whole runs |
| `Safety.dfy` | what the states of an archive run keep, and exactly which events they hold |
| `Retry.dfy` | archiving a day again after an error |
| `Disks.dfy` | the file operations with every failure, and the states they pass through |
| `Single.dfy` | the batch object on top |
| `Subscriptions.dfy` | trial, lookup and cache as a step machine |
| `Hosts.dfy` | event routing and the host buffer as a step machine |
| `EventLoop.dfy` | both machines together, signal by signal, with registrations and deletions beside the loop; the loop end to end |
| `Service.dfy` | the objects, proved against these machines |

Code that changes state is a class or a method with the program's loop; its contract gives the new
state through a function or step machine, and the laws are lemmas about these.

## What is proved

**Decoder.** Every byte string is exactly one proper token stream (`LexThenPrint`, `PrintThenLex`),
and the loop returns what that stream means (`DecompressBucketLog`), so the laws hold for the loop:
decoding composes behind a complete piece, a mark without a partner is as good as absent,
multiplying out run lengths changes nothing, encoded runs come back, and a crash happens exactly on
percent data that stops inside a pair. `Format.dfy` says the same without tokens, at the bytes
themselves: for each type what one more number, wrapped number, run count or stray mark in front of
any data adds to the output.

**Backup.** With at most one compression started per UTC date, whatever is saved, flushed and written
between its file changes and whatever fails, the pending batch, the unwritten blocks and the files
hold at every point of every run exactly the events saved, and once more the lines that a failed
compression, or the one in progress, has both in an archive and in hour files
(`DailyConservation`). So no event is lost, none is held that was not saved, and none more than
twice as often (`HeldOnceOrTwice`). Nothing is held twice exactly when each such compression
stopped before its archive had a line, or after the last hour with a line was deleted
(`ConservationIff`).
A compression that ends gives back each hour as it was at its start (`CompressArchives`), and its
index counts the events (`IndexCountsEvents`). The steps of the machine are those of the program:
every state of an archive run is a legal change (`ArchiveDay`, `ArchiveRunIsLegal`), and writes to
other days commute with it (`WriteKeepsSurvives`). This needs that closing a written file does not
fail, and that no host has an archive of that day with lines already. A run ends without an error,
every host archived, exactly when none of its file operations failed.

**Service.** The loop runs exactly as the cache machine and the service machine do together, and the
faults of that run are the database calls that failed (`Run`). When none did and the cache was
loaded, cache, buffer and routing are invisible: events and host table are functions of the signals
and of the database's rows at each of them, while hostnames are registered and rows that are not
cached are deleted beside the loop (`LoopIsDirect`, which `Run` promises of its own state). In general the
stored host table under the buffer is the table a direct writer would have, exactly when no last
stamp was dropped by a failed write (`BufferRefinesIff`); every arrival is saved, backed up or
counted as dropped (`EventsAreConserved`). Cached rows were in the database once, in every run
(`CacheIsHonest`); while they are neither removed nor replaced every lookup is answered as by the
database (`CacheRefines`): found for the registered hostname while the trial lasts, expired after
it, and not found otherwise (`LookupIs`). So a registered host's events are saved, with the
factory's fields, for at least 89 days and backed up as expired after 92 (`RegisteredHostIsServed`).

## Properties that fail, and exactly when

* *Large mode, last number without a comma.* Only its first digit is read. It round-trips exactly
  when it has one digit (`LargeTailRoundTrip`).
* *Percent mode.* The two-byte slice is out of range exactly when the tokens end in half a pair
  (`DecodePanicsIff`); without a mark in the data, exactly when a byte is left over
  (`PlainPercentPanicsIff`). The shortest such log is `25` (`HalfAPairPanics`).
* *Archiving a host's day again.* A missing day directory is not an early exit
  (`backup/archive.go:99-106`), so a second run replaces the archive by one of the hours that are
  left, after a complete run by an empty one (`SecondArchiveIsEmpty`, `SecondArchiveLoses`).
  Archiving takes nothing from what the files hold, copies counted, exactly when no archive with
  lines is there yet (`ArchiveKeepsIff`). A retry after an error gives back exactly the events
  of the failed run's start if and only if that run had deleted no hour with a line
  (`RetryKeepsIff`).
* *Index labels.* `Compress` passes yesterday at the clock's hour, so the labels name the file
  hours exactly when that hour is 0 (`LabelsAreHoursIff`, `LabelIsHourIff`); the schedule in `backup/service.go:30-31`
  runs at hour 1. No hour is lost or read twice for any clock hour (`EveryHourOnce`).
* *Cache.* A cached id is answered as by the database, for all hostnames and times, exactly when
  its row is still the cached one (`CacheAgreesIff`).
* *Failed host writes.* The buffer is cleared even when `SaveHost` failed. The table loses nothing
  exactly when each failed host had its stamp stored already (`TickKeepsViewIff`). Over whole runs a
  host's view is the direct one exactly when its last found stamp was not dropped, or was stored
  already (`HostRefinesIff`).
* *A failed compression can leave lines twice*: in the archive and in hour files not yet deleted.
  `ConservationIff` and `DoubledIff` say exactly when; it is never more than twice.
* *Trial end is not monotone in the moment of registration.* A later registration ends earlier
  exactly when the two lie in neighbouring months and the earlier day overruns its target month, to
  a later date or to the same date at a later time of day (`TrialMonotoneIff`). 30 November 2022
  against 1 December 2022 is one case, 29 November at 23:00 against 1 December at 01:00 another
  (`TrialNotMonotone`, in both modules).

The comments in `beacon/decompress.go:154-159` name `_` and `-` the wrong way round; the model
follows the byte values. The documentation of `BRUM_COMPRESSION_TYPE` (`README.md:69`) names the meta file `-parts.meta.txt`; the code writes
`-parts-meta.txt`, and so does the model.

## Assumptions

* `base36.Decode` is a library call. It is Horner evaluation on up to twelve lower-case base-36
  digits, all of which fit a `uint64`; on anything else it is an arbitrary function, a parameter.
* A compression is a pair of functions where decompressing undoes compressing (`Lossless`). Where it
  matters what is read of a file that was not written to its end, a front part of a packed text
  unpacks to a front part of the text (`Streams`); only the upper bounds for failed and running
  compressions use this.
* The clock of `RegisterHostname` is UTC. It is `time.Now()` in the server's zone
  (`service/service.go:92`); in a zone with daylight saving `AddDate` keeps the wall clock, and a
  trial can be an hour longer or shorter than `TrialWindow` and `TrialMonotoneIff` say.
* A host key is not empty and has neither slash nor dot; a JSON value has no raw newline
  (section 7 of RFC 8259).
* An append to an hour file completes. Path and clock are read in the same step as the append.
* `SaveHost` is an upsert.

## Model

| member | source | states |
|---|---|---|
| `Decompress.DecompressBucketLog` | beacon/decompress.go:25-132 | for every byte string the loop ends, stays in range but for the percent pair, and returns the meaning of the string's tokens |
| `Decompress.AppendCopies` | beacon/decompress.go:117-124 | a number is appended max(1, repeat) times: so many elements more, each the number, and nothing before them changed |
| `BucketLog.FitsU64` | beacon/decompress.go:59 | twelve base-36 digits fit 64 bits, so decoding them never wraps |
| `BucketLogLaws.LexThenPrint` | beacon/decompress.go:46-129 | every byte string splits into a proper token stream whose text is the string |
| `BucketLogLaws.PrintThenLex` | beacon/decompress.go:46-129 | a proper token stream is the only reading of its text |
| `BucketLogLaws.LexAppend` | beacon/decompress.go:46-129 | self-delimiting tokens are read the same in front of any bytes |
| `BucketLogLaws.EvalAppend` | beacon/decompress.go:46-129 | decoding a concatenation continues from the carried number and pending count |
| `BucketLogLaws.PreviousNumberUnused` | beacon/decompress.go:80-113 | in the three known types no number depends on the one before |
| `BucketLogLaws.DecodeComposes` | beacon/decompress.go:46-129 | behind a complete piece any bytes decode as they do on their own |
| `BucketLogLaws.LoneMarkIsSkipped` | beacon/decompress.go:54-57 | a `*` or `.` without a later partner adds nothing and keeps a pending repeat count |
| `BucketLogLaws.DecodePanicsIff` | beacon/decompress.go:101-111 | decoding crashes exactly on percent data ending in half a pair, never in the other types |
| `BucketLogLaws.PlainPercentPanicsIff` | beacon/decompress.go:101-111 | percent data without `*` and `.` crashes the decoder exactly when its length is odd |
| `BucketLogLaws.HalfAPairPanics` | beacon/decompress.go:101-111 | the log `25` crashes the decoder |
| `BucketLogLaws.UnrollPreservesEval` | beacon/decompress.go:117-126 | replacing run counts by copies of the token keeps the decoded numbers |
| `BucketLogLaws.FlatDecodesTheSame` | beacon/decompress.go:48-63 | every byte string decodes like its run-free form, in every mode |
| `BucketLogLaws.EvalLength` | beacon/decompress.go:117-126 | the output length is the sum of max(1, repeat) over the number tokens |
| `BucketLogLaws.SymbolTable` | beacon/decompress.go:135-164 | the 64 symbols and 0..63 are in bijection; any other byte reads as 0 |
| `BucketLogLaws.RoundTrip` | beacon/decompress.go:46-129 | in every mode any list of values below 36^12, in any runs, is decoded from its encoding |
| `BucketLogLaws.RoundTripOfTypes` | beacon/decompress.go:13-19 | at the type bytes: `0` reads small numbers, `1` large ones, `2` percentages |
| `Format.Base36Digits` | beacon/decompress.go:59 | a count or wrapped number is read digit by digit in base 36, 0 to 9 and a to z |
| `Format.Symbols` | beacon/decompress.go:145-160 | `0`-`9`, `a`-`z`, `A`-`Z`, `_` and `-` stand for 0 to 63, other bytes for 0 |
| `Format.Pairs` | beacon/decompress.go:101-108 | two digits are a percentage, `__` is 100, a sign is accepted and a negative number wraps, anything else is 0 |
| `Format.SmallNumber` | beacon/decompress.go:80-82 | in type `0` a byte in front of any data adds its number |
| `Format.LargeNumber` | beacon/decompress.go:83-93 | in type `1` a field and its comma in front of any data add the field's number |
| `Format.Percentage` | beacon/decompress.go:101-112 | in type `2` two bytes in front of any data add their number |
| `Format.WrappedNumber` | beacon/decompress.go:65-79 | in each known type a number between two `.` in front of any data adds it |
| `Format.SmallNumbers` | beacon/decompress.go:46-63 | a count between two `*` and a byte in front of any data add the byte's number as often |
| `Format.LargeNumbers` | beacon/decompress.go:46-63 | the same for a field |
| `Format.Percentages` | beacon/decompress.go:46-63 | the same for a percentage |
| `Format.WrappedNumbers` | beacon/decompress.go:46-79 | the same for a wrapped number |
| `Format.CopiesAre` | beacon/decompress.go:117-124 | as often as the count says, and once for a count of 0 |
| `Format.CountReplaced` | beacon/decompress.go:48-63 | of two counts in a row the second counts |
| `Format.CountAtEnd` | beacon/decompress.go:48-63 | a count with nothing behind it adds nothing |
| `Format.NoPartner` | beacon/decompress.go:54-57 | a first mark without a second adds nothing |
| `Format.LastLargeNumber` | beacon/decompress.go:94-100 | of a last large number without a comma the first byte counts |
| `Format.UnknownType` | beacon/decompress.go:80-113 | in any other type a byte repeats the number before it |
| `BucketLogLaws.LargeTailDecodes` | beacon/decompress.go:94-100 | an unterminated last number contributes its first digit |
| `BucketLogLaws.LargeTailRoundTrip` | beacon/decompress.go:83-100 | an unterminated last number comes back exactly when it has one digit |
| `Batch.MakeBackupList` | backup/backup.go:24-30 | the map holds each key of the batch with its lines in batch order |
| `Batch.BackupList.BackupItem` | backup/backup.go:32-39 | one parameter extends its key's text by one line; other types are skipped |
| `Batch.BackupList.AppendLine` | backup/backup.go:61-66 | the entry grows by the value and a newline, a missing entry starting empty |
| `Batch.GroupingAppend` | backup/backup.go:24-66 | the text of a key for two batches in a row is the two texts in a row |
| `Batch.GroupedLines` | backup/backup.go:61-66 | a key's text has exactly its JSON values as lines, in order |
| `Batch.GroupedInOrder` | backup/backup.go:24-66 | the lines of a key's text are the JSON values of exactly its parameters, in batch order |
| `Paths.NameInjective` | backup/backup.go:156-188 | distinct hour, archive and meta files never share a name, under any extension |
| `Paths.NamesAre` | backup/backup.go:156-188 | host, year-month-day and hour in plain decimals with the program's suffixes; only the day file carries the compression's extension |
| `Paths.Decimals` | backup/backup.go:178-188 | numbers are written in decimals without leading zeros |
| `Paths.UnderDayDir` | backup/archive.go:49 | removing a day directory deletes exactly the hour files of that host and day |
| `Archive.EveryHourOnce` | backup/archive.go:142-144 | for every clock hour, each hour file is read by exactly one of the 24 iterations |
| `Archive.LabelsAreHoursIff` | backup/archive.go:61-73 | index labels are file hours exactly when the archive runs at hour 0 |
| `Archive.SummaryParses` | backup/archive.go:73 | the printed index parses back to its entries |
| `Archive.ArchiveRestores` | backup/archive.go:57-80 | day file and printed index give back exactly the non-empty hours read, with their content |
| `Archive.EveryHourRestored` | backup/archive.go:57-80 | each non-empty hour file comes back, whatever the clock's hour |
| `Archive.RangeHoldsHour` | backup/archive.go:61-74 | the lines an index entry names are, counted from 1 in the day's content, the lines of the hour file its iteration read |
| `Archive.IndexLine` | backup/archive.go:73 | an index line is iteration, first and last line, in decimals with commas |
| `Archive.RangesAreContiguous` | backup/archive.go:72-74 | the ranges start at 1, have no gap, and end at the number of lines of the day |
| `Flushing.FlushAddsCount` | backup/backup.go:18-66 | a batch adds as many lines to a host's day as it has parameters of the host |
| `Flushing.FlushedLines` | backup/backup.go:76-100 | a batch puts each host's lines behind those of its current hour file and leaves every other file as it is |
| `Flushing.IndexCountsEvents` | backup/archive.go:72-85 | the last range of a day's index ends at the number of events flushed for the host that day |
| `Archive.ArchiveHostsAt` | backup/archive.go:16-23 | archiving several hosts leaves each with the archive of its own hours, in whatever order they are listed |
| `Ledger.AppendKeeps` | backup/backup.go:90-100 | appending a block adds its lines and nothing else |
| `Ledger.ArchiveKeeps` | backup/archive.go:27-50 | archiving keeps every event but those of an older archive of the same day |
| `Ledger.ArchiveKeepsIff` | backup/archive.go:27-50 | archiving takes no copy of an event from what the files hold exactly when no archive with lines is there |
| `Ledger.SecondArchiveIsEmpty` | backup/archive.go:99-106 | a second archive of a day is empty |
| `Pipeline.FlushKeeps` | backup/backup.go:18-39 | grouping turns a batch into blocks without losing or doubling an event |
| `Pipeline.WritesMatchFlush` | backup/backup.go:76-80 | flushing a batch and writing its blocks, in any order and with the clock moving on before each, gives the files of a grouped flush by those clock readings |
| `Pipeline.StepKeeps` | backup/single.go:44-71 | every step keeps the invariant, and the events but for the run in progress: they grow by what is saved, and by the lines that a failing compression leaves both in an archive and in hour files |
| `Pipeline.FailedCompression` | backup/archive.go:11-50 | in whatever state a compression fails, the files hold what they would without it, and once more the lines then both in an archive and in hour files |
| `Pipeline.Conservation` | backup/single.go:44-71 | in every reachable state, also between the file changes of a compression with writes among them, batch, blocks and files hold exactly the saved events, and once more the lines that failed compressions and the one in progress have both in an archive and in hour files |
| `Pipeline.HeldOnceOrTwice` | backup/single.go:44-71 | in every reachable state each event is held at least as often as it was saved and at most twice as often, so none is held that was not saved |
| `Pipeline.ConservationIff` | backup/archive.go:27-50 | they hold exactly the saved events if and only if no compression stopped, and none is now, with a line in a host's archive and one in its hour files of that day |
| `Pipeline.DailyConservation` | backup/service.go:30-42 | starting at most one compression per UTC date is enough for all of this; while none has failed or is in progress the events are exactly those saved |
| `Pipeline.CompressArchives` | backup/single.go:44-49 | whatever is saved, flushed and written while a compression runs, at its end each host's hours of yesterday come back from the archive as they were at its start, and its hour files are gone |
| `Pipeline.EveryHourComesBack` | backup/single.go:44-49 | in terms of the clock: each non-empty hour file of the day before comes back as ((hour + 24 - clock hour) mod 24, content), and nothing else does |
| `Pipeline.LabelIsHourIff` | backup/single.go:45 | so labels are file hours exactly when the clock's hour is 0 |
| `Pipeline.SavedIsSaved` | backup/single.go:53-66 | the saved events are the parameters of the save steps |
| `Pipeline.StepsArePossible` | backup/single.go:44-71 | when each step may be taken |
| `Pipeline.LaterStartsAreDaily` | backup/service.go:30-42 | a run whose compressions start on later and later dates is daily |
| `Pipeline.ArchiveRunIsLegal` | backup/archive.go:11-50 | every sequence of states that an archive run goes through is a run of the machine |
| `Pipeline.ArchiveIsFinal` | backup/backup.go:156-162 | no later step touches any file of a host day that an archive run has worked on |
| `Pipeline.SecondArchiveLoses` | backup/archive.go:27-50 | archiving a host's day with lines twice loses events |
| `Disks.Disk.CollectHours` | backup/archive.go:57-80 | the loop returns the day's content and index, or nothing exactly after a read error |
| `Disks.Disk.WriteToFile` | backup/backup.go:102-115 | only the target changes, and in every state, on the way or after an error, it is as before, gone, or a front part of the compressed text; exactly without failure it is all of it |
| `Disks.Disk.RemoveAll` | backup/archive.go:49 | only hour files of the day go, in any order; without failure all of them |
| `Disks.Disk.ArchiveHost` | backup/archive.go:27-50 | write before delete: in every state on the way or after an error the hours are intact and the archive files hold nothing but front parts of what is written to them, or the archive is complete |
| `Disks.ArchiveDay` | backup/archive.go:11-25 | in every state of a run with flushed files, error or not, each host has its hours intact or its archive complete, and no event is lost if no host had an archive of the day with lines; exactly without a failed operation every host is archived |
| `Safety.SurvivingKeeps` | backup/archive.go:11-50 | hours intact or archive complete for each host means that no event is lost, but for archives of the day that had lines before |
| `Safety.SurvivingGrows` | backup/archive.go:11-50 | exactly: the files hold what they held before the run, and once more the lines now both in an archive and in an hour file |
| `Safety.DoubledIff` | backup/archive.go:27-50 | nothing of a host is held twice exactly when its archive has no line or no hour with a line is left |
| `Safety.WriteKeepsSurvives` | backup/single.go:44-71 | a write to another day during an archive run leaves a state that a run started after the write can leave |
| `Retry.RetryKeepsIff` | backup/archive.go:27-50 | archiving all hosts again after an error gives back exactly the events of the failed run's start if and only if that run deleted no hour with a line |
| `Retry.RetryOfHost` | backup/archive.go:27-50 | for each host, exactly what its deleted hours held is lost by archiving again |
| `Single.SaveBackupList` | backup/backup.go:76-88 | every host's block is appended to the hour file of the clock as read for it |
| `Single.SingleFileBackup.SaveAsync` | backup/single.go:53-66 | the event joins the batch once, at any place |
| `Single.SingleFileBackup.Flush` | backup/single.go:69-71 | the batch is written, grouped by host, and emptied |
| `Single.SingleFileBackup.Compress` | backup/single.go:44-49 | yesterday is archived for every host, exactly when no operation failed; each non-empty hour file of the day before the clock's comes back as ((hour + 24 - clock hour) mod 24, content); if the files are flushed and no host had an archive of yesterday with lines, no state on the way or after an error has lost an event |
| `Calendar.AddHours` | backup/archive.go:142-144 | the hours add up across midnight |
| `Calendar.PreviousDay` | backup/single.go:45 | the day before, across month and year ends |
| `Calendar.TrialLength` | types/owner_hostname.go:28-34 | three months are 89 to 92 days, from every date |
| `Calendar.TrialSpan` | types/owner_hostname.go:28-34 | a trial lasts exactly as long as the three months from its own |
| `Calendar.LeapFebruary` | types/owner_hostname.go:28-34 | February has 29 days exactly in Gregorian leap years |
| `Calendar.TrialLengthIsTight` | types/owner_hostname.go:28-34 | both bounds are reached in every common year |
| `Calendar.TrialDates` | types/owner_hostname.go:28-34 | when one day is not after another, the trial of the earlier ends later only across a month end its day overruns, and then by how much |
| `Calendar.TrialNotMonotone` | types/owner_hostname.go:28-34 | 30 November 2022 ends after 1 December 2022 |
| `Subscriptions.TrialWindow` | types/owner_hostname.go:28-39 | to the nanosecond, a subscription is live through its 89th day and expired after its 92nd |
| `Subscriptions.TrialMonotoneIff` | types/owner_hostname.go:28-34 | a later registration expires no earlier, except exactly across a month end that the earlier day overruns, to a later date or to a later time of the same date |
| `Subscriptions.TrialNotMonotone` | types/owner_hostname.go:28-34 | registered on 29 November 2022 at 23:00, a trial outlives one of 1 December at 01:00 by 22 hours |
| `Subscriptions.CacheIsHonest` | service/subscription/caching/caching.go:24-49 | in every run each cached entry is a row the database had for that id |
| `Subscriptions.CachedWasThere` | service/subscription/caching/caching.go:24-49 | in terms of the run: a cached row was there for that id at its start, or was inserted for it on the way |
| `Subscriptions.CacheAgreesIff` | service/subscription/caching/caching.go:32-49 | an id is answered as by the database exactly when it is not cached or its cached row is still current |
| `Subscriptions.CacheRefines` | service/subscription/caching/caching.go:24-49 | in every run that leaves cached rows alone each lookup is answered as by the database |
| `Subscriptions.LoadedCacheRefines` | service/subscription/caching/caching.go:24-49 | the same from any state, once a load has succeeded |
| `Subscriptions.LookupIs` | service/subscription/caching/caching.go:32-59 | found if and only if the row is there for that hostname and its trial has not ended; expired if and only if it has; otherwise not found |
| `Subscriptions.CarefulKeepsCoherent` | service/subscription/caching/caching.go:24-49 | the cache stays coherent exactly over the careful steps |
| `Subscriptions.LoadCachesAll` | service/subscription/caching/caching.go:24-28 | after a load every row is answered without the database |
| `Subscriptions.HitIsCached` | service/subscription/caching/caching.go:47-48 | an id once read from the database is answered without it from then on |
| `Subscriptions.RegisteredTrial` | types/owner_hostname.go:28-39 | a registered hostname is found for 89 days, no other is, and it is expired after 92; without its row it is not found |
| `Subscriptions.MissIsNotCached` | service/subscription/caching/caching.go:43-45 | a miss is not remembered, so a later insert is seen |
| `Subscriptions.AnswersAreOrdered` | service/subscription/caching/caching.go:51-59 | between loads an id once expired is expired for every hostname, found and not found never change places, and no two hostnames are found |
| `Hosts.BufferRefines` | service/service.go:126-151 | in every run without a failed host write the stored table under the buffer is the directly written table, at every point |
| `Hosts.BufferRefinesIff` | service/service.go:126-151 | in any run, failed writes included, the stored table under the buffer is the directly written one exactly when every host's last found stamp was kept |
| `Hosts.HostRefinesIff` | service/service.go:126-151 | the same host by host: the view differs exactly when the last stamp was dropped by a failing tick and another was stored |
| `Hosts.TickCatchesUp` | service/service.go:134-139 | after a tick the buffer is empty, and the stored table is the direct one exactly when every host's stamp was kept |
| `Hosts.TickKeepsViewIff` | service/service.go:134-151 | a tick with failed writes loses nothing exactly when the failed stamps were stored before |
| `Hosts.EventsAreRouted` | service/service.go:102-124 | in any run, failures included, each event goes to the one place its lookup and save give it, in arrival order |
| `Hosts.EventsAreConserved` | service/service.go:102-132 | saved, backed-up and dropped events together are the arrivals, dropped meaning a failed lookup or a failed save |
| `Hosts.SavedInOrder` | service/service.go:126-130 | the database receives exactly the records of the found events whose save succeeded, unchanged and in order |
| `Hosts.BackedUpInOrder` | service/service.go:113-118 | each backup receives exactly the events answered expired, or not found, in order |
| `Hosts.LastStamp` | service/service.go:126-151 | without failed host writes a host has the stamp of its last found event |
| `Hosts.NoStamp` | service/service.go:126-151 | and without a found event the one it had |
| `Hosts.BufferedHosts` | service/service.go:131 | the buffer holds the last stamp since the last tick |
| `EventLoop.LoopRunsService` | service/service.go:78-124 | the loop is a run of the service machine on the inputs its signals stand for |
| `EventLoop.AnswersAreDirect` | service/service.go:102-124 | from a loaded cache every event is handled by the database's own answer at that moment, as hostnames are registered and rows that are not cached deleted; only a failing lookup gives none |
| `EventLoop.LoopIsDirect` | service/service.go:78-151 | without failures the records saved, the events backed up and the host table are functions of the signals, the factory's fields and the database's rows at each signal |
| `EventLoop.LoopSavesInOrder` | service/service.go:78-132 | in any run without a failed lookup, the database receives, in order, the event with the factory's three fields for exactly those events whose row is there for their hostname, whose trial has not ended and whose save succeeded |
| `EventLoop.RegisteredHostIsServed` | service/service.go:90-132 | whatever else happens, events of a registered host are saved and its host buffered through day 89, and go to the expired backup after day 92 |
| `EventLoop.RowComesAndGoes` | service/service.go:90-100 | a registration puts its row, a deletion takes it |
| `EventLoop.CarefulSignalIff` | service/service.go:90-100 | the cache stays coherent exactly over the careful signals |
| `Service.SubscriptionService.Load` | service/subscription/caching/caching.go:24-28 | the cache is replaced by what the database returned, also on an error |
| `Service.SubscriptionService.GetSubscription` | service/subscription/caching/caching.go:32-49 | answer and new cache are those of the cache machine; from a coherent cache found, expired and not found are as the database's row says |
| `Service.EventService.ProcessEvent` | service/service.go:102-124 | one event is one step of cache and service machine together; a fault in it is a database call that failed |
| `Service.EventService.ProcessRumEvent` | service/service.go:126-132 | the record is saved as it is, unless that fails, and the host is buffered even then |
| `Service.EventService.ProcessHosts` | service/service.go:134-151 | every buffered host is written with its stamp in any order and the buffer emptied, failures or not |
| `Service.EventService.Run` | service/service.go:78-88 | any sequence of events and ticks, with registrations and deletions between, runs exactly as the two machines do together; if no call failed, the cache was loaded and no cached row was deleted, the result is the direct one |
| `Service.EventService.RegisterHostname` | service/service.go:90-95 | a registration beside the loop adds a row with the hostname that ends 89 to 92 days on, and changes no other; or fails and changes nothing |
| `Service.EventService.DeleteHostname` | service/service.go:97-100 | a deletion beside the loop removes the row, or fails and changes nothing |

## Left out

- Disks.Disk.ArchiveHost: its promises need both files flushed, because a failed `Close` is only logged and the hours are deleted all the same.
- Disks.Disk.AppendToFile: an append is taken to complete, with no short write and no late close from its goroutine.
- Disks.ArchiveDay: the same holds for its hosts.
- Single.SingleFileBackup.Compress: the same holds for its hosts.
- Pipeline.FailedCompression: the same; the failing compressions of the pipeline are those whose files were flushed.
- Pipeline.DailyConservation: one compression is in progress at a time; the schedule starts one a day and would start the next beside one that takes longer.
- Service.EventService.DeleteHostname: the rows of a hostname and its owner are deleted one by one; which these are is a parameter.
- Service.EventService.Run: the endless loop is taken over any finite sequence of signals.
- Database adapters and migrations: the database is a map of rows, a table of hosts and a list of events, and its calls can fail.
- The batcher and cron libraries: a batch is any part of what is pending, and compression is a step of the surroundings (the program builds its cron but does not start it).
- The three backup directories (archive, expired, unknown) run the same code; the model has one.
- Real compression, its levels and its types: an abstract pair of functions with an extension.
- HTTP server, handlers, TLS, configuration and start-up.
- URL parsing, JSON encoding, user-agent and location lookup: their results are parameters. The dot-to-underscore key can join two hostnames, so claims are per key.
- `request_headers`, which `SaveAsync` adds to the parameters: part of the abstract JSON text.
- Subscription identifiers: date and random part are a parameter.
- The registry in `store/store.go`: easy state.
- Memory use of large run counts.
