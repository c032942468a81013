/** The backup pipeline of one directory as a step machine (backup/single.go around
    backup/backup.go and backup/archive.go), and conservation over whole runs. */
module Pipeline {
  import opened Text
  import opened Calendar
  import opened Paths
  import opened Batch
  import opened Archive
  import opened Ledger
  import opened Safety
  import opened Flushing

  /** One host's block of a flushed batch, not yet written. */
  datatype Job = Job(key: string, text: string)

  /** A compression in progress: its hosts, its day, and the directory as it would be without it. */
  datatype Run = Run(hosts: seq<string>, day: Time, base: Files)

  /** `archived` is history: which host days an archive run has worked on, up to the one in
      progress. */
  datatype State = State(
    clock: Time, pending: multiset<Param>, jobs: seq<Job>, files: Files, archived: set<(string, Date)>, run: Option<Run>)

  /** Arrival order before the batch is not fixed, so `Flush` takes any batch of what is
      pending and any order of its hosts. A compression is many steps: it starts, changes files
      and ends or fails; other steps may come between any two, as between the writes of a batch. */
  datatype Step =
    | Save(param: Param)
    | Flush(batch: seq<Param>, order: seq<string>)
    | Write(job: nat)
    | CompressStarts(hosts: seq<string>)
    | CompressChanges(left: Files)
    | CompressEnds
    | CompressFails
    | Tick(now: Time)

  function JobsOf(batch: seq<Param>, order: seq<string>): seq<Job> {
    seq(|order|, i requires 0 <= i < |order| => Job(order[i], TextFor(order[i], batch)))
  }

  /** `order` lists the hosts of the batch. */
  predicate Covers(order: seq<string>, batch: seq<Param>) {
    (set k | k in order) == Keys(batch)
  }

  predicate LegalParam(p: Param) {
    p.Values? && LegalKey(p.key) && LineFree(p.json)
  }

  /** Yesterday at the clock's hour: `time.Now().UTC().AddDate(0, 0, -1)`. */
  function Yesterday(clock: Time): Time
    requires ValidTime(clock) && Ordinal(clock.date) > 1
  {
    Time(PreviousDay(clock.date), clock.hour)
  }

  /** The clock and the day of a run are instants, and the clock's day has a day before it. */
  predicate LegalClock(s: State) {
    ValidTime(s.clock) && Ordinal(s.clock.date) > 1 && (s.run.Some? ==> ValidTime(s.run.value.day))
  }

  /** The files without what the run in progress has done to them. */
  function Base(s: State): Files {
    if s.run.Some? then s.run.value.base else s.files
  }

  /** The steps of the program and its surroundings. A run can bring about any state in which
      each host has its hours or its archive, as every state of `Disks.ArchiveDay` has; it ends
      without an error when all its hosts are archived, and can fail in any state. */
  ghost predicate Possible(codec: Codec, s: State, step: Step)
    requires LegalClock(s)
  {
    match step
    case Save(p) => LegalParam(p)
    case Flush(batch, order) =>
      multiset(batch) <= s.pending && Distinct(order) && Covers(order, batch)
    case Write(i) => i < |s.jobs|
    case CompressStarts(hosts) => s.run.None? && Distinct(hosts)
    case CompressChanges(left) => s.run.Some? && Reaches(codec, s.run.value, left)
    case CompressEnds => s.run.Some? && Completes(codec, s.run.value, s.files)
    case CompressFails => s.run.Some?
    case Tick(now) => ValidTime(now) && NotAfter(s.clock, now)
  }

  /** A state of the files that the run can bring about. */
  ghost predicate Reaches(codec: Codec, run: Run, files: Files)
    requires ValidTime(run.day)
  {
    Survives(files, codec, run.base, run.hosts, run.day)
  }

  predicate Completes(codec: Codec, run: Run, files: Files)
    requires ValidTime(run.day)
  {
    files == ArchiveHosts(codec, run.base, run.hosts, run.day)
  }

  /** The proviso of conservation: no host day is archived a second time. */
  predicate NotTwice(s: State, step: Step)
    requires LegalClock(s)
  {
    step.CompressStarts? ==> forall h :: h in step.hosts ==> (h, Yesterday(s.clock).date) !in s.archived
  }

  ghost predicate Legal(codec: Codec, s: State, step: Step)
    requires LegalClock(s)
  {
    Possible(codec, s, step) && NotTwice(s, step)
  }

  /** A write goes to the directory, and would without the run. */
  function WithWrite(s: State, host: string, text: string): State {
    var p := HourOf(host, s.clock);
    s.(files := Append(s.files, p, text),
       run := if s.run.None? then None else Some(s.run.value.(base := Append(s.run.value.base, p, text))))
  }

  function Next(codec: Codec, s: State, step: Step): (t: State)
    requires LegalClock(s) && Possible(codec, s, step)
  {
    match step
    case Save(p) => s.(pending := s.pending + multiset{p})
    case Flush(batch, order) =>
      s.(pending := s.pending - multiset(batch), jobs := s.jobs + JobsOf(batch, order))
    case Write(i) => WithWrite(s.(jobs := s.jobs[..i] + s.jobs[i + 1..]), s.jobs[i].key, s.jobs[i].text)
    case CompressStarts(hosts) => s.(run := Some(Run(hosts, Yesterday(s.clock), s.files)))
    case CompressChanges(left) => s.(files := left)
    case CompressEnds => Stopped(s)
    case CompressFails => Stopped(s)
    case Tick(now) => s.(clock := now)
  }

  function Stopped(s: State): State
    requires s.run.Some?
  {
    s.(run := None, archived := s.archived + HostDays(s.run.value.hosts, s.run.value.day.date))
  }

  function HostDays(hosts: seq<string>, date: Date): set<(string, Date)> {
    set h | h in hosts :: (h, date)
  }

  /* ---- what holds in every reachable state ---- */

  predicate PendingOk(pending: multiset<Param>) {
    forall p :: p in pending ==> LegalParam(p)
  }

  predicate JobOk(j: Job) {
    LegalKey(j.key) && Terminated(j.text)
  }

  predicate JobsOk(jobs: seq<Job>) {
    forall i :: 0 <= i < |jobs| ==> JobOk(jobs[i])
  }

  /** Hour files are of past or present hours and hold whole lines; archives are of host days
      an archive run has worked on. */
  predicate FileOk(p: Path, content: string, clock: Time, archived: set<(string, Date)>)
    requires ValidTime(clock)
  {
    Valid(p.date) &&
    match p
    case HourFile(_, d, hour) => hour < HOURS && Terminated(content) && Ordinal(d) <= Ordinal(clock.date)
    case DayFile(h, d) => (h, d) in archived
    case MetaFile(h, d) => (h, d) in archived
  }

  predicate FilesOk(files: Files, clock: Time, archived: set<(string, Date)>)
    requires ValidTime(clock)
  {
    forall p :: p in files ==> FileOk(p, files[p], clock, archived)
  }

  /** Archive runs have worked on past days only. */
  predicate ArchivedPast(clock: Time, archived: set<(string, Date)>)
    requires ValidTime(clock)
  {
    forall a :: a in archived ==> Valid(a.1) && Ordinal(a.1) < Ordinal(clock.date)
  }

  /** A run works on days that are over and not archived before, and every host has its hours or
      its archive. */
  ghost predicate RunOk(codec: Codec, run: Run, files: Files, clock: Time, archived: set<(string, Date)>)
    requires ValidTime(clock) && ValidTime(run.day)
  {
    && Ordinal(run.day.date) < Ordinal(clock.date) && Distinct(run.hosts)
    && (forall h :: h in run.hosts ==> (h, run.day.date) !in archived)
    && Reaches(codec, run, files)
  }

  /** What every legal step keeps. */
  ghost predicate Inv(codec: Codec, s: State) {
    && LegalClock(s) && PendingOk(s.pending) && JobsOk(s.jobs)
    && FilesOk(Base(s), s.clock, s.archived) && ArchivedPast(s.clock, s.archived)
    && (s.run.Some? ==> RunOk(codec, s.run.value, s.files, s.clock, s.archived))
  }

  /** An archived host day has its archive and no hour file: never both. */
  predicate Settled(files: Files, archived: set<(string, Date)>) {
    && (forall a :: a in archived ==> DayFile(a.0, a.1) in files)
    && forall p :: p in files && p.HourFile? ==> (p.host, p.date) !in archived
  }

  function JobLines(jobs: seq<Job>): multiset<Param> {
    if jobs == [] then multiset{}
    else Tagged(jobs[0].key, Lines(jobs[0].text)) + JobLines(jobs[1..])
  }

  /** All events: in the pending batch, in a flushed block, or in a file. */
  ghost function Events(codec: Codec, s: State): multiset<Param> {
    s.pending + JobLines(s.jobs) + KeptIn(codec, s.files)
  }

  /** The events as they would be without the run in progress. */
  ghost function Once(codec: Codec, s: State): multiset<Param> {
    s.pending + JobLines(s.jobs) + KeptIn(codec, Base(s))
  }

  /** What the run in progress holds twice: in an archive and in hour files. */
  ghost function Twice(codec: Codec, s: State): multiset<Param> {
    if s.run.Some? then
      AllDoubled(codec, s.files, s.run.value.hosts, s.run.value.day.date)
    else multiset{}
  }

  /* ---- flushing ---- */

  lemma {:induction false} JobLinesAppend(a: seq<Job>, b: seq<Job>)
    ensures JobLines(a + b) == JobLines(a) + JobLines(b)
  {
    hide Tagged, Lines;
    if a == [] {
      assert a + b == b;
    } else {
      AppendCons(a, b);
      assert ([a[0]] + (a[1..] + b))[1..] == a[1..] + b;
      JobLinesAppend(a[1..], b);
    }
  }

  lemma {:induction false} JobsHoldBatch(batch: seq<Param>, order: seq<string>, p: Param)
    requires AllLineFree(batch) && Distinct(order)
    ensures JobLines(JobsOf(batch, order))[p]
         == if p.Values? && p.key in order then multiset(batch)[p] else 0
  {
    hide Tagged, Lines, LinesFor, TextFor;
    if order == [] {
      assert JobsOf(batch, []) == [];
    } else {
      var jobs := JobsOf(batch, order);
      assert jobs[1..] == JobsOf(batch, order[1..]);
      JobsHoldBatch(batch, order[1..], p);
      GroupedLines(order[0], batch);
      TaggedCount(order[0], LinesFor(order[0], batch), p);
      if p.Values? {
        LinesForCount(p.key, batch, p.json);
      }
      assert order == [order[0]] + order[1..];
      assert order[0] !in order[1..] by {
        assert forall j :: 0 <= j < |order[1..]| ==> order[1..][j] == order[j + 1] != order[0];
      }
    }
  }

  /** Grouping moves a batch into blocks without losing or inventing an event. */
  lemma FlushKeeps(batch: seq<Param>, order: seq<string>)
    requires forall i :: 0 <= i < |batch| ==> LegalParam(batch[i])
    requires Distinct(order) && Covers(order, batch)
    ensures JobLines(JobsOf(batch, order)) == multiset(batch)
  {
    hide JobLines, JobsOf, Distinct;
    forall p
      ensures JobLines(JobsOf(batch, order))[p] == multiset(batch)[p]
    {
      JobsHoldBatch(batch, order, p);
      if p in multiset(batch) {
        var i :| 0 <= i < |batch| && batch[i] == p;
        assert p.key in Keys(batch);
        assert p.key in (set k | k in order);
      }
    }
  }

  lemma JobsOfOk(batch: seq<Param>, order: seq<string>)
    requires forall i :: 0 <= i < |batch| ==> LegalParam(batch[i])
    requires Covers(order, batch)
    ensures forall i :: 0 <= i < |JobsOf(batch, order)| ==> JobOk(JobsOf(batch, order)[i])
  {
    hide TextFor, Terminated;
    forall i | 0 <= i < |order|
      ensures JobOk(JobsOf(batch, order)[i])
    {
      assert order[i] in (set k | k in order);
      assert order[i] in Keys(batch);
      var j :| 0 <= j < |batch| && batch[j].Values? && batch[j].key == order[i];
      assert LegalParam(batch[j]);
      GroupedLines(order[i], batch);
    }
  }

  lemma FlushStep(codec: Codec, s: State, batch: seq<Param>, order: seq<string>)
    requires Inv(codec, s) && Legal(codec, s, Flush(batch, order))
    ensures var t := Next(codec, s, Flush(batch, order)); Inv(codec, t) && Once(codec, t) == Once(codec, s)
  {
    hide FilesOk, ArchivedPast, JobLines, JobsOf, LegalParam, JobOk, KeptIn, Valid, RunOk;
    forall i | 0 <= i < |batch|
      ensures LegalParam(batch[i])
    {
      assert batch[i] in multiset(batch);
    }
    FlushKeeps(batch, order);
    JobsOfOk(batch, order);
    JobLinesAppend(s.jobs, JobsOf(batch, order));
  }

  /* ---- writing ---- */

  lemma WriteStep(codec: Codec, s: State, i: nat)
    requires Inv(codec, s) && i < |s.jobs|
    ensures var t := Next(codec, s, Write(i)); Inv(codec, t) && Once(codec, t) == Once(codec, s)
  {
    hide FilesOk, ArchivedPast, PendingOk, JobsOk, JobLines, JobOk, KeptIn, Tagged, Lines, Append, Valid, Terminated, RunOk;
    var job := s.jobs[i];
    RemoveJob(s.jobs, i);
    WriteFilesOk(Base(s), s.clock, s.archived, job);
    AppendKeeps(codec, Base(s), job.key, s.clock, job.text);
    if s.run.Some? {
      WriteKeepsRun(codec, s, job);
    }
  }

  /** A write of today leaves the run as it is. */
  lemma WriteKeepsRun(codec: Codec, s: State, job: Job)
    requires LegalClock(s) && s.run.Some? && RunOk(codec, s.run.value, s.files, s.clock, s.archived)
    ensures var t := WithWrite(s, job.key, job.text);
            RunOk(codec, t.run.value, t.files, t.clock, t.archived)
  {
    hide Append, Valid, Survives, Ordinal, Distinct;
    var run := s.run.value;
    WriteKeepsSurvives(codec, s.files, run.base, run.hosts, run.day, HourOf(job.key, s.clock), job.text);
  }

  lemma RemoveJob(jobs: seq<Job>, i: nat)
    requires i < |jobs| && JobsOk(jobs)
    ensures JobOk(jobs[i]) && JobsOk(jobs[..i] + jobs[i + 1..])
    ensures JobLines(jobs) == JobLines(jobs[..i] + jobs[i + 1..]) + Tagged(jobs[i].key, Lines(jobs[i].text))
  {
    hide JobLines, JobsOk, Tagged, Lines;
    var before, rest := jobs[..i], jobs[i + 1..];
    OthersOk(jobs, i);
    assert jobs == before + ([jobs[i]] + rest);
    JobLinesAppend(before, rest);
    JobLinesAppend(before, [jobs[i]] + rest);
    JobLinesAppend([jobs[i]], rest);
    OneJob(jobs[i]);
    SumSwaps(JobLines(before), JobLines([jobs[i]]), JobLines(rest));
    SumCommutes(JobLines(before + rest), JobLines([jobs[i]]));
  }

  lemma OthersOk(jobs: seq<Job>, i: nat)
    requires i < |jobs| && JobsOk(jobs)
    ensures JobOk(jobs[i]) && JobsOk(jobs[..i] + jobs[i + 1..])
  {
    hide JobOk;
    var others := jobs[..i] + jobs[i + 1..];
    forall j | 0 <= j < |others|
      ensures JobOk(others[j])
    {
      assert others[j] == jobs[if j < i then j else j + 1];
    }
  }

  lemma SumCommutes<T>(a: multiset<T>, b: multiset<T>)
    ensures a + b == b + a
  {
  }

  lemma OneJob(job: Job)
    ensures JobLines([job]) == Tagged(job.key, Lines(job.text))
  {
    assert [job][1..] == [];
    assert JobLines([]) == multiset{};
  }

  lemma WriteFilesOk(files: Files, clock: Time, archived: set<(string, Date)>, job: Job)
    requires ValidTime(clock) && FilesOk(files, clock, archived) && JobOk(job)
    ensures FilesOk(Append(files, HourOf(job.key, clock), job.text), clock, archived)
    ensures Terminated(Content(files, HourOf(job.key, clock)))
  {
    hide Terminated, Ordinal;
    var p := HourOf(job.key, clock);
    assert p in files ==> FileOk(p, files[p], clock, archived);
    EmptyTerminated();
    TerminatedAppend(Content(files, p), job.text);
  }

  /* ---- archiving ---- */

  lemma ArchivedWell(codec: Codec, files: Files, clock: Time, archived: set<(string, Date)>, host: string, day: Time)
    requires ValidTime(clock) && ValidTime(day) && FilesOk(files, clock, archived)
    ensures FilesOk(ArchiveHost(codec, files, host, day), clock, archived + {(host, day.date)})
  {
    hide Valid, DaySummaryOf, Terminated;
    var after := ArchiveHost(codec, files, host, day);
    forall p | p in after
      ensures FileOk(p, after[p], clock, archived + {(host, day.date)})
    {
      assert p in files ==> FileOk(p, files[p], clock, archived);
    }
  }

  lemma HoursTerminated(files: Files, clock: Time, archived: set<(string, Date)>, host: string, day: Time)
    requires ValidTime(clock) && ValidTime(day) && FilesOk(files, clock, archived)
    ensures ClockHours(files) && TerminatedHours(files, host, day)
  {
    hide Valid;
    assert forall p :: p in files ==> FileOk(p, files[p], clock, archived);
  }

  lemma NotArchivedBefore(codec: Codec, files: Files, clock: Time, archived: set<(string, Date)>, host: string, day: Time)
    requires ValidTime(clock) && FilesOk(files, clock, archived) && (host, day.date) !in archived
    ensures ArchivedLines(codec, files, host, day.date) == []
  {
    var d := DayFile(host, day.date);
    assert d in files ==> FileOk(d, files[d], clock, archived);
  }

  lemma RestNotArchived(hosts: seq<string>, date: Date, archived: set<(string, Date)>)
    requires hosts != [] && Distinct(hosts) && forall h :: h in hosts ==> (h, date) !in archived
    ensures forall h :: h in hosts[1..] ==> (h, date) !in archived + {(hosts[0], date)}
    ensures archived + {(hosts[0], date)} + HostDays(hosts[1..], date) == archived + HostDays(hosts, date)
  {
    var rest := hosts[1..];
    assert hosts == [hosts[0]] + rest;
    assert forall j :: 0 <= j < |rest| ==> rest[j] == hosts[j + 1] != hosts[0];
  }

  lemma {:induction false} CompressHosts(codec: Codec, files: Files, clock: Time, archived: set<(string, Date)>,
                                         hosts: seq<string>, day: Time)
    requires Lossless(codec) && Distinct(hosts)
    requires ValidTime(clock) && ValidTime(day) && FilesOk(files, clock, archived)
    requires forall h :: h in hosts ==> (h, day.date) !in archived
    ensures var after := ArchiveHosts(codec, files, hosts, day);
            FilesOk(after, clock, archived + HostDays(hosts, day.date)) && KeptIn(codec, after) == KeptIn(codec, files)
    decreases hosts
  {
    hide Valid, FilesOk, ArchiveHost, KeptIn, Lossless, Lines, ClockHours, TerminatedHours;
    if hosts == [] {
      assert archived + HostDays(hosts, day.date) == archived;
    } else {
      var h := hosts[0];
      ArchivedWell(codec, files, clock, archived, h, day);
      HoursTerminated(files, clock, archived, h, day);
      NotArchivedBefore(codec, files, clock, archived, h, day);
      ArchiveKeepsIff(codec, files, h, day);
      RestNotArchived(hosts, day.date, archived);
      CompressHosts(codec, ArchiveHost(codec, files, h, day), clock, archived + {(h, day.date)}, hosts[1..], day);
    }
  }

  /** What a run needs to lose nothing. */
  lemma RunIsArchivable(codec: Codec, files: Files, clock: Time, archived: set<(string, Date)>, hosts: seq<string>, day: Time)
    requires ValidTime(clock) && ValidTime(day) && FilesOk(files, clock, archived)
    requires forall h :: h in hosts ==> (h, day.date) !in archived
    ensures Archivable(codec, files, hosts, day)
  {
    hide Valid, FilesOk, Lines, ClockHours, TerminatedHours, ArchivedLines;
    HoursTerminated(files, clock, archived, "", day);
    forall h | h in hosts
      ensures TerminatedHours(files, h, day) && ArchivedLines(codec, files, h, day.date) == []
    {
      HoursTerminated(files, clock, archived, h, day);
      NotArchivedBefore(codec, files, clock, archived, h, day);
    }
  }

  /** A compression that stops with an error loses nothing, and invents nothing: the files then
      hold what they would hold without it, and what it left twice. */
  lemma FailedCompression(codec: Codec, s: State)
    requires Inv(codec, s) && s.run.Some?
    ensures FilesOk(s.files, s.clock, Stopped(s).archived)
    ensures KeptIn(codec, Base(s)) <= KeptIn(codec, s.files)
    ensures Streams(codec) ==> KeptIn(codec, s.files) == KeptIn(codec, Base(s)) + Twice(codec, s)
  {
    hide Valid, FilesOk, KeptIn, Survives, Archivable, AllDoubled, Streams;
    var run := s.run.value;
    RunIsArchivable(codec, run.base, s.clock, s.archived, run.hosts, run.day);
    SurvivingKeeps(codec, s.files, run.base, run.hosts, run.day);
    if Streams(codec) {
      SurvivingGrows(codec, s.files, run.base, run.hosts, run.day);
    }
    FailedFilesOk(codec, run.base, s.clock, s.archived, run.hosts, run.day, s.files);
  }

  /** All events are those without the run in progress, and what it holds twice. */
  lemma EventsSplit(codec: Codec, s: State)
    requires Inv(codec, s)
    ensures Once(codec, s) <= Events(codec, s)
    ensures Streams(codec) || s.run.None? ==> Events(codec, s) == Once(codec, s) + Twice(codec, s)
  {
    hide KeptIn, JobLines, AllDoubled, Inv, Streams;
    if s.run.Some? {
      FailedCompression(codec, s);
    }
  }

  lemma FailedFilesOk(codec: Codec, files: Files, clock: Time, archived: set<(string, Date)>,
                      hosts: seq<string>, day: Time, left: Files)
    requires ValidTime(clock) && ValidTime(day) && FilesOk(files, clock, archived)
    requires Survives(left, codec, files, hosts, day)
    ensures FilesOk(left, clock, archived + HostDays(hosts, day.date))
  {
    hide Valid, Terminated, DaySummaryOf, Ordinal;
    forall p | p in left
      ensures FileOk(p, left[p], clock, archived + HostDays(hosts, day.date))
    {
      if OfDay(p, p.host, day.date) && p.host in hosts && !p.HourFile? {
        assert (p.host, day.date) in HostDays(hosts, day.date);
      } else {
        StaysOrGoes(left, codec, files, hosts, day, p);
        assert FileOk(p, files[p], clock, archived);
      }
    }
  }

  /** Apart from the archives it writes, an archive run only deletes. */
  lemma StaysOrGoes(files: Files, codec: Codec, before: Files, hosts: seq<string>, day: Time, p: Path)
    requires ValidTime(day) && Survives(files, codec, before, hosts, day) && p in files
    requires p.host in hosts && p.date == day.date ==> p.HourFile?
    ensures SameAt(files, before, p)
  {
    hide Valid, DaySummaryOf;
    var host := p.host;
    assert if host in hosts then Safe(files, codec, before, host, day) else HostSame(files, before, host);
  }

  /* ---- the machine's writes are the program's flush ---- */

  /** Each host's block is written by the clock as it is then. */
  function WriteSteps(order: seq<string>, now: Clock): seq<Step> {
    if order == [] then [] else [Tick(now(order[0])), Write(0)] + WriteSteps(order[1..], now)
  }

  /** The texts of some hosts. */
  function Part(batch: seq<Param>, order: seq<string>): map<string, string> {
    map k | k in order :: TextFor(k, batch)
  }

  /** The state behind a tick and a write of the first block. */
  function Written(s: State, batch: seq<Param>, order: seq<string>, rest: seq<Job>, now: Clock): State
    requires order != []
  {
    var host := order[0];
    WithWrite(s.(clock := now(host), jobs := JobsOf(batch, order[1..]) + rest), host, TextFor(host, batch))
  }

  lemma TickAndWrite(codec: Codec, s: State, batch: seq<Param>, order: seq<string>, rest: seq<Job>, now: Clock)
    requires order != [] && s.jobs == JobsOf(batch, order) + rest
    requires LegalRun(codec, s, WriteSteps(order, now))
    ensures var t := Written(s, batch, order, rest, now);
            LegalRun(codec, t, WriteSteps(order[1..], now))
            && After(codec, s, WriteSteps(order, now)) == After(codec, t, WriteSteps(order[1..], now))
  {
    hide TextFor, WithWrite, Valid, Ordinal;
    var host, steps := order[0], WriteSteps(order, now);
    var ticked := s.(clock := now(host));
    assert steps[0] == Tick(now(host)) && steps[1..] == [Write(0)] + WriteSteps(order[1..], now);
    assert Next(codec, s, steps[0]) == ticked;
    assert steps[1..][0] == Write(0) && steps[1..][1..] == WriteSteps(order[1..], now);
    assert s.jobs[0] == Job(host, TextFor(host, batch));
    assert s.jobs[..0] + s.jobs[0 + 1..] == JobsOf(batch, order[1..]) + rest;
  }

  lemma {:induction false} WritesMatchPart(codec: Codec, s: State, batch: seq<Param>, order: seq<string>,
                                           rest: seq<Job>, now: Clock)
    requires Distinct(order) && s.jobs == JobsOf(batch, order) + rest
    requires LegalRun(codec, s, WriteSteps(order, now))
    ensures var t := After(codec, s, WriteSteps(order, now));
            && t.files == FlushFiles(s.files, Part(batch, order), now)
            && t.jobs == rest && t.pending == s.pending && t.archived == s.archived
    decreases order
  {
    hide TextFor, FlushFiles, Append, HourOf, Next, Possible, NotTwice, Valid, After, LegalRun, WriteSteps;
    if order == [] {
      NoWrites(codec, s, now);
      assert Part(batch, []) == map[];
      FlushNothing(s.files, now);
      assert JobsOf(batch, []) + rest == rest;
    } else {
      var host, others := order[0], order[1..];
      TickAndWrite(codec, s, batch, order, rest, now);
      WritesMatchPart(codec, Written(s, batch, order, rest, now), batch, others, rest, now);
      PartFirst(batch, order);
      FlushOneFirst(s.files, Part(batch, others), now, host, TextFor(host, batch));
    }
  }

  lemma NoWrites(codec: Codec, s: State, now: Clock)
    ensures WriteSteps([], now) == [] && After(codec, s, []) == s
  {
  }

  lemma PartFirst(batch: seq<Param>, order: seq<string>)
    requires Distinct(order) && order != []
    ensures Distinct(order[1..]) && order[0] !in Part(batch, order[1..])
    ensures Part(batch, order) == Part(batch, order[1..])[order[0] := TextFor(order[0], batch)]
  {
    hide TextFor;
    var others := order[1..];
    DistinctRest(order);
  }

  /** A flush and the writes of its blocks, in any order of the hosts and with the clock moving
      on before each, give the files that `Single.Flush` gives by that clock. */
  lemma WritesMatchFlush(codec: Codec, s: State, batch: seq<Param>, order: seq<string>, now: Clock)
    requires s.jobs == [] && LegalRun(codec, s, [Flush(batch, order)] + WriteSteps(order, now))
    ensures var t := After(codec, s, [Flush(batch, order)] + WriteSteps(order, now));
            && t.files == FlushFiles(s.files, Grouped(batch), now)
            && t.jobs == [] && t.pending == s.pending - multiset(batch)
  {
    hide TextFor, FlushFiles, JobsOf, WriteSteps;
    var steps := [Flush(batch, order)] + WriteSteps(order, now);
    assert steps[1..] == WriteSteps(order, now);
    var flushed := Next(codec, s, Flush(batch, order));
    assert flushed.jobs == JobsOf(batch, order) + [];
    WritesMatchPart(codec, flushed, batch, order, [], now);
    assert Part(batch, order) == Grouped(batch) by {
      assert forall k :: k in order <==> k in (set h | h in order);
    }
  }

  /* ---- every step, every run ---- */

  /** What a step adds from outside. */
  function Added(step: Step): multiset<Param> {
    if step.Save? then multiset{step.param} else multiset{}
  }

  /** What a step leaves twice for good. */
  ghost function Leaves(codec: Codec, s: State, step: Step): multiset<Param> {
    if step.CompressFails? then Twice(codec, s) else multiset{}
  }

  /** Every legal step keeps the invariant, and the events but for the run in progress: they grow
      by what is saved, and by what a failing run leaves twice. */
  lemma StepKeeps(codec: Codec, s: State, step: Step)
    requires Lossless(codec) && Inv(codec, s) && Legal(codec, s, step)
    ensures var t := Next(codec, s, step);
            && Inv(codec, t) && Once(codec, s) + Added(step) <= Once(codec, t)
            && (Streams(codec) || !step.CompressFails? ==>
                Once(codec, t) == Once(codec, s) + Added(step) + Leaves(codec, s, step))
  {
    NothingMore(Once(codec, s));
    hide Inv, Once, Twice, Lossless, Distinct, Covers, Reaches, Completes, LegalParam, Survives, Yesterday, HostDays;
    hide JobsOf, WithWrite, Stopped, NotAfter, Valid, Ordinal, Streams;
    match step
    case Save(p) => SaveStep(codec, s, p);
    case Flush(batch, order) => FlushStep(codec, s, batch, order);
    case Write(i) => WriteStep(codec, s, i);
    case CompressStarts(hosts) => StartStep(codec, s, hosts);
    case CompressChanges(left) => ChangeStep(codec, s, left);
    case CompressEnds => EndStep(codec, s);
    case CompressFails => FailStep(codec, s);
    case Tick(now) => LaterIsOk(codec, s, now);
  }

  lemma NothingMore<T>(a: multiset<T>)
    ensures a + multiset{} == a && forall b :: a + b + multiset{} == a + b && a + multiset{} + b == a + b
  {
  }

  lemma SaveStep(codec: Codec, s: State, p: Param)
    requires Inv(codec, s) && LegalParam(p)
    ensures var t := s.(pending := s.pending + multiset{p});
            Inv(codec, t) && Once(codec, t) == Once(codec, s) + multiset{p}
  {
    hide JobLines, KeptIn, Valid, FilesOk, RunOk, LegalParam, ArchivedPast, JobsOk, Ordinal;
    SumMoves(s.pending, multiset{p}, JobLines(s.jobs), KeptIn(codec, Base(s)));
  }

  lemma SumMoves<T>(a: multiset<T>, p: multiset<T>, b: multiset<T>, c: multiset<T>)
    ensures (a + p) + b + c == (a + b + c) + p
  {
  }

  lemma StartStep(codec: Codec, s: State, hosts: seq<string>)
    requires Inv(codec, s) && Legal(codec, s, CompressStarts(hosts))
    ensures var t := Next(codec, s, CompressStarts(hosts)); Inv(codec, t) && Once(codec, t) == Once(codec, s)
  {
    hide JobLines, KeptIn, Valid, FilesOk, Distinct, Ordinal, Survives;
    ProgressStart(s.files, codec, Yesterday(s.clock));
    ProgressSurvives(s.files, codec, s.files, [], hosts, Yesterday(s.clock));
  }

  lemma ChangeStep(codec: Codec, s: State, left: Files)
    requires Inv(codec, s) && Legal(codec, s, CompressChanges(left))
    ensures var t := Next(codec, s, CompressChanges(left)); Inv(codec, t) && Once(codec, t) == Once(codec, s)
  {
    hide JobLines, KeptIn, Valid, FilesOk, Distinct, Ordinal, Reaches;
  }

  lemma EndStep(codec: Codec, s: State)
    requires Lossless(codec) && Inv(codec, s) && Legal(codec, s, CompressEnds)
    ensures var t := Next(codec, s, CompressEnds); Inv(codec, t) && Once(codec, t) == Once(codec, s)
  {
    hide JobLines, KeptIn, Valid, FilesOk, Distinct, Ordinal, Reaches, Lossless, ArchiveHosts;
    var run := s.run.value;
    CompressHosts(codec, run.base, s.clock, s.archived, run.hosts, run.day);
  }

  lemma FailStep(codec: Codec, s: State)
    requires Inv(codec, s) && s.run.Some?
    ensures Inv(codec, Stopped(s)) && Once(codec, s) <= Once(codec, Stopped(s))
    ensures Streams(codec) ==> Once(codec, Stopped(s)) == Once(codec, s) + Twice(codec, s)
  {
    hide JobLines, KeptIn, Valid, FilesOk, Distinct, Ordinal, Reaches, AllDoubled, Streams;
    FailedCompression(codec, s);
  }

  lemma LaterIsOk(codec: Codec, s: State, now: Time)
    requires Inv(codec, s) && ValidTime(now) && NotAfter(s.clock, now)
    ensures Inv(codec, s.(clock := now)) && Once(codec, s.(clock := now)) == Once(codec, s)
  {
    hide Valid, Ordinal, Terminated, Reaches, Distinct, KeptIn, JobLines;
    forall p | p in Base(s)
      ensures FileOk(p, Base(s)[p], now, s.archived)
    {
      assert FileOk(p, Base(s)[p], s.clock, s.archived);
    }
  }

  /** But for a failing compression, a step leaves archived host days settled. */
  lemma StepSettles(codec: Codec, s: State, step: Step)
    requires Inv(codec, s) && Legal(codec, s, step) && !step.CompressFails? && Settled(Base(s), s.archived)
    ensures Settled(Base(Next(codec, s, step)), Next(codec, s, step).archived)
  {
    hide Valid, Ordinal, FilesOk, PreviousDay, DaySummaryOf, ArchiveHosts, Reaches, JobsOk;
    if step.CompressEnds? {
      var run := s.run.value;
      forall p: Path
        ensures ArchivedAt(codec, run.base, run.hosts, run.day, p) == if p in s.files then Some(s.files[p]) else None
      {
        ArchiveHostsAt(codec, run.base, run.hosts, run.day, p);
      }
    }
  }

  /** The states along a run, if every step is legal where it is taken. */
  ghost predicate LegalRun(codec: Codec, s: State, steps: seq<Step>)
    decreases steps
  {
    steps == [] ||
    (LegalClock(s) && Legal(codec, s, steps[0]) && LegalRun(codec, Next(codec, s, steps[0]), steps[1..]))
  }

  function After(codec: Codec, s: State, steps: seq<Step>): State
    requires LegalRun(codec, s, steps)
    decreases steps
  {
    hide Next;
    if steps == [] then s else After(codec, Next(codec, s, steps[0]), steps[1..])
  }

  function Saved(steps: seq<Step>): multiset<Param> {
    if steps == [] then multiset{} else Added(steps[0]) + Saved(steps[1..])
  }

  /** What the failing compressions of a run leave twice. */
  ghost function Lasting(codec: Codec, s: State, steps: seq<Step>): multiset<Param>
    requires LegalRun(codec, s, steps)
    decreases steps
  {
    hide Next;
    if steps == [] then multiset{}
    else Leaves(codec, s, steps[0]) + Lasting(codec, Next(codec, s, steps[0]), steps[1..])
  }

  /** What was saved are the parameters of the save steps. */
  lemma SavedIsSaved(steps: seq<Step>) returns (at: seq<nat>)
    ensures Increasing(at, |steps|)
    ensures forall i :: 0 <= i < |steps| ==> (i in at <==> steps[i].Save?)
    ensures forall k :: 0 <= k < |at| ==> at[k] < |steps| && steps[at[k]].Save?
    ensures Saved(steps) ==
      multiset(seq(|at|, k requires 0 <= k < |at| && at[k] < |steps| && steps[at[k]].Save? => steps[at[k]].param))
  {
    hide Increasing;
    var params;
    at, params := SavedAt(steps);
    forall k | 0 <= k < |at|
      ensures at[k] < |steps| && steps[at[k]].Save?
    {
      PositionBelow(at, |steps|, k);
    }
    assert seq(|at|, k requires 0 <= k < |at| && at[k] < |steps| && steps[at[k]].Save? => steps[at[k]].param) == params;
  }

  function ParamsOf(steps: seq<Step>): seq<Option<Param>> {
    seq(|steps|, i requires 0 <= i < |steps| => if steps[i].Save? then Some(steps[i].param) else None)
  }

  lemma {:induction false} SavedAt(steps: seq<Step>) returns (at: seq<nat>, params: seq<Param>)
    ensures AllOf(ParamsOf(steps), at) && Appended([], params, ParamsOf(steps), at)
    ensures Saved(steps) == multiset(params)
  {
    hide AllOf, Appended, Saved, Added;
    if steps == [] {
      at, params := [], [];
      NothingSaved();
    } else {
      var n := |steps| - 1;
      var front, last := steps[..n], steps[n];
      at, params := SavedAt(front);
      var all, more := ParamsOf(front), ParamsOf(steps)[n];
      assert steps == front + [last] && ParamsOf(steps) == all + [more];
      SavedSnoc(front, last);
      AllOfMore(all, at, more);
      AppendedMore([], params, all, at, more);
      SaveAdds(last);
      NothingMore(multiset(params));
      if more.Some? {
        at, params := at + [n], params + [more.value];
      }
    }
  }

  lemma NothingSaved()
    ensures AllOf(ParamsOf([]), []) && Appended([], [], ParamsOf([]), []) && Saved([]) == multiset{}
  {
  }

  lemma SaveAdds(step: Step)
    ensures Added(step) == if step.Save? then multiset{step.param} else multiset{}
  {
  }

  lemma {:induction false} SavedSnoc(steps: seq<Step>, last: Step)
    ensures Saved(steps + [last]) == Saved(steps) + Added(last)
  {
    hide Added;
    if steps == [] {
      assert [] + [last] == [last] && [last][1..] == [];
      NothingMore(Added(last));
    } else {
      AppendCons(steps, [last]);
      assert (steps + [last])[0] == steps[0] && (steps + [last])[1..] == steps[1..] + [last];
      SavedSnoc(steps[1..], last);
      SumAssociates(Added(steps[0]), Saved(steps[1..]), Added(last));
    }
  }

  /** What can always happen next. */
  lemma StepsArePossible(codec: Codec, s: State, p: Param, batch: seq<Param>, order: seq<string>, i: nat,
                         hosts: seq<string>, now: Time)
    requires Inv(codec, s)
    ensures p.Values? && p.key != "" && '/' !in p.key && '.' !in p.key && '\n' !in p.json ==> Legal(codec, s, Save(p))
    ensures multiset(batch) <= s.pending && Distinct(order)
        && (forall k :: k in order <==> exists j :: 0 <= j < |batch| && batch[j].Values? && batch[j].key == k)
        ==> Legal(codec, s, Flush(batch, order))
    ensures i < |s.jobs| ==> Legal(codec, s, Write(i))
    ensures s.run.None? && Distinct(hosts) && (forall h :: h in hosts ==> (h, PreviousDay(s.clock.date)) !in s.archived)
        ==> Legal(codec, s, CompressStarts(hosts))
    ensures s.run.Some? ==> Legal(codec, s, CompressFails)
    ensures s.run.Some? && s.files == ArchiveHosts(codec, s.run.value.base, s.run.value.hosts, s.run.value.day)
        ==> Legal(codec, s, CompressEnds)
    ensures ValidTime(now)
        && (Ordinal(s.clock.date) < Ordinal(now.date) || (s.clock.date == now.date && s.clock.hour <= now.hour))
        ==> Legal(codec, s, Tick(now))
  {
    hide FilesOk, RunOk, PendingOk, JobsOk, ArchivedPast, Distinct, Valid, Ordinal, ArchiveHosts, PreviousDay;
    if forall k :: k in order <==> exists j :: 0 <= j < |batch| && batch[j].Values? && batch[j].key == k {
      assert forall k :: k in Keys(batch) <==> exists j :: 0 <= j < |batch| && batch[j].Values? && batch[j].key == k;
      assert (set k | k in order) == Keys(batch);
    }
  }

  lemma RunCons(codec: Codec, s: State, first: Step, rest: seq<Step>)
    requires LegalClock(s) && Legal(codec, s, first) && LegalRun(codec, Next(codec, s, first), rest)
    ensures LegalRun(codec, s, [first] + rest)
    ensures After(codec, s, [first] + rest) == After(codec, Next(codec, s, first), rest)
  {
    hide LegalClock, NotTwice, Possible, Next;
    assert ([first] + rest)[0] == first && ([first] + rest)[1..] == rest;
  }

  /** A legal step continues a legal run. */
  lemma {:induction false} RunContinues(codec: Codec, s: State, steps: seq<Step>, step: Step)
    requires LegalRun(codec, s, steps)
    requires LegalClock(After(codec, s, steps)) && Legal(codec, After(codec, s, steps), step)
    ensures LegalRun(codec, s, steps + [step])
    ensures After(codec, s, steps + [step]) == Next(codec, After(codec, s, steps), step)
    decreases steps
  {
    hide LegalClock, NotTwice, Possible, Next;
    if steps == [] {
      assert [] + [step] == [step] + [];
      RunCons(codec, s, step, []);
    } else {
      var t := FirstStep(codec, s, steps);
      RunContinues(codec, t, steps[1..], step);
      RunCons(codec, s, steps[0], steps[1..] + [step]);
      assert steps + [step] == [steps[0]] + (steps[1..] + [step]);
      hide After, LegalRun;
    }
  }

  /** No compression of the run fails. */
  predicate NoFailures(steps: seq<Step>) {
    forall i :: 0 <= i < |steps| ==> !steps[i].CompressFails?
  }

  lemma {:induction false} RunKeeps(codec: Codec, s: State, steps: seq<Step>)
    requires Lossless(codec) && Inv(codec, s) && LegalRun(codec, s, steps)
    ensures var t := After(codec, s, steps);
            && Inv(codec, t) && Once(codec, s) + Saved(steps) <= Once(codec, t)
            && (Streams(codec) || NoFailures(steps) ==>
                Once(codec, t) == Once(codec, s) + Saved(steps) + Lasting(codec, s, steps))
    decreases steps
  {
    hide Inv, Once, Leaves, Lossless, Streams;
    if steps != [] {
      var t := FirstStep(codec, s, steps);
      hide After, Lasting, Next, Legal, LegalRun;
      StepKeeps(codec, s, steps[0]);
      RunKeeps(codec, t, steps[1..]);
      Regroup(Once(codec, s), Added(steps[0]), Leaves(codec, s, steps[0]), Saved(steps[1..]), Lasting(codec, t, steps[1..]));
      Chain(Once(codec, s), Added(steps[0]), Once(codec, t), Saved(steps[1..]), Once(codec, After(codec, s, steps)));
      hide Added;
    } else {
      NothingMore(Once(codec, s));
    }
  }

  /** A run, its first step apart. */
  lemma FirstStep(codec: Codec, s: State, steps: seq<Step>) returns (t: State)
    requires LegalRun(codec, s, steps) && steps != []
    ensures LegalClock(s) && Legal(codec, s, steps[0]) && t == Next(codec, s, steps[0])
    ensures LegalRun(codec, t, steps[1..]) && After(codec, s, steps) == After(codec, t, steps[1..])
    ensures Lasting(codec, s, steps) == Leaves(codec, s, steps[0]) + Lasting(codec, t, steps[1..])
  {
    hide LegalClock, NotTwice, Leaves;
    t := Next(codec, s, steps[0]);
    hide Possible, Next;
  }

  lemma Regroup<T>(o: multiset<T>, a: multiset<T>, l: multiset<T>, b: multiset<T>, k: multiset<T>)
    ensures (o + a + l) + b + k == o + (a + b) + (l + k)
  {
  }

  lemma Chain<T>(o: multiset<T>, a: multiset<T>, p: multiset<T>, b: multiset<T>, q: multiset<T>)
    requires o + a <= p && p + b <= q
    ensures o + (a + b) <= q
  {
  }

  lemma {:induction false} RunSettles(codec: Codec, s: State, steps: seq<Step>)
    requires Lossless(codec) && Inv(codec, s) && LegalRun(codec, s, steps) && NoFailures(steps)
    requires Settled(Base(s), s.archived)
    ensures var t := After(codec, s, steps);
            Settled(Base(t), t.archived) && Lasting(codec, s, steps) == multiset{}
    decreases steps
  {
    if steps != [] {
      hide Inv, Legal, Next, Lossless, Settled, Base, Twice;
      InvClock(codec, s);
      StepKeeps(codec, s, steps[0]);
      StepSettles(codec, s, steps[0]);
      RunSettles(codec, Next(codec, s, steps[0]), steps[1..]);
    }
  }

  lemma InvClock(codec: Codec, s: State)
    requires Inv(codec, s)
    ensures LegalClock(s)
  {
  }

  function Initial(clock: Time): State {
    State(clock, multiset{}, [], map[], {}, None)
  }

  /** Conservation over whole runs, from an empty directory, whatever is saved, flushed and
      written between the file changes of a compression and whatever compressions fail: batch,
      blocks and files hold every saved event, and once more the lines that failed compressions
      and the one in progress have both in an archive and in hour files; nothing else. While none
      has failed no host day has both an archive and an hour file, but for the compression in
      progress. */
  lemma Conservation(codec: Codec, clock: Time, steps: seq<Step>)
    requires Lossless(codec) && LegalClock(Initial(clock)) && LegalRun(codec, Initial(clock), steps)
    ensures var s, t := Initial(clock), After(codec, Initial(clock), steps);
            && Saved(steps) <= Events(codec, t)
            && (Streams(codec) ==> Events(codec, t) == Saved(steps) + Lasting(codec, s, steps) + Twice(codec, t))
            && (NoFailures(steps) && t.run.None? ==> Events(codec, t) == Saved(steps))
            && (NoFailures(steps) ==> Settled(Base(t), t.archived))
  {
    hide Inv, LegalRun, After, Saved, Lasting, Once, Events, Streams, NoFailures;
    var s, t := Initial(clock), After(codec, Initial(clock), steps);
    InitialIsOk(codec, clock);
    RunKeeps(codec, s, steps);
    EventsSplit(codec, t);
    Collect(Saved(steps), Once(codec, t), Events(codec, t), Lasting(codec, s, steps), Twice(codec, t));
    hide Twice;
    if NoFailures(steps) {
      RunSettles(codec, s, steps);
      NothingMore(Saved(steps));
    }
  }

  lemma Collect<T>(saved: multiset<T>, once: multiset<T>, events: multiset<T>, lasting: multiset<T>, twice: multiset<T>)
    ensures multiset{} + saved <= once <= events ==> saved <= events
    ensures multiset{} + saved + lasting == saved + lasting
    ensures multiset{} + saved + multiset{} + multiset{} == saved
  {
  }

  lemma InitialIsOk(codec: Codec, clock: Time)
    requires LegalClock(Initial(clock))
    ensures Inv(codec, Initial(clock)) && Once(codec, Initial(clock)) == multiset{}
    ensures Settled(Base(Initial(clock)), {})
  {
  }

  /** Of no host of the run in progress there is both a line in the archive and one in an hour
      file. */
  predicate Clean(codec: Codec, s: State) {
    s.run.Some? ==> AllOnceOnly(codec, s.files, s.run.value.hosts, s.run.value.day.date)
  }

  /** Every compression that fails does so in a clean state. */
  ghost predicate FailsClean(codec: Codec, s: State, steps: seq<Step>)
    requires LegalRun(codec, s, steps)
    decreases steps
  {
    hide Next;
    steps == [] ||
    (&& (steps[0].CompressFails? ==> Clean(codec, s))
     && FailsClean(codec, Next(codec, s, steps[0]), steps[1..]))
  }

  lemma TwiceIff(codec: Codec, s: State)
    requires Streams(codec) && Inv(codec, s)
    ensures Twice(codec, s) == multiset{} <==> Clean(codec, s)
  {
    hide AllDoubled, AllOnceOnly, Streams, FilesOk, Survives, Archivable, Valid;
    if s.run.Some? {
      var run := s.run.value;
      RunIsArchivable(codec, run.base, s.clock, s.archived, run.hosts, run.day);
      AllDoubledIff(codec, s.files, run.base, run.hosts, run.day);
    }
  }

  lemma {:induction false} LastingIff(codec: Codec, s: State, steps: seq<Step>)
    requires Lossless(codec) && Streams(codec) && Inv(codec, s) && LegalRun(codec, s, steps)
    ensures Lasting(codec, s, steps) == multiset{} <==> FailsClean(codec, s, steps)
    decreases steps
  {
    if steps != [] {
      hide Next, Legal, Twice, Clean, Inv, Lossless, Streams, Once;
      InvClock(codec, s);
      StepKeeps(codec, s, steps[0]);
      TwiceIff(codec, s);
      LastingIff(codec, Next(codec, s, steps[0]), steps[1..]);
      SumIsEmpty(Leaves(codec, s, steps[0]), Lasting(codec, Next(codec, s, steps[0]), steps[1..]));
    }
  }

  lemma SumIsEmpty<T>(a: multiset<T>, b: multiset<T>)
    ensures a + b == multiset{} <==> a == multiset{} && b == multiset{}
  {
    assert |a + b| == |a| + |b|;
  }

  /** Every event is held exactly as often as it was saved, exactly when no compression failed
      with lines of a host both in its archive and in its hour files, and none is at that point
      now. */
  lemma ConservationIff(codec: Codec, clock: Time, steps: seq<Step>)
    requires Lossless(codec) && Streams(codec)
    requires LegalClock(Initial(clock)) && LegalRun(codec, Initial(clock), steps)
    ensures var t := After(codec, Initial(clock), steps);
            Events(codec, t) == Saved(steps) <==> FailsClean(codec, Initial(clock), steps) && Clean(codec, t)
  {
    hide LegalRun, After, Saved, Lasting, Twice, Events, FailsClean, Clean, Inv, Streams, Once;
    var s, t := Initial(clock), After(codec, Initial(clock), steps);
    InitialIsOk(codec, clock);
    RunKeeps(codec, s, steps);
    Conservation(codec, clock, steps);
    LastingIff(codec, s, steps);
    TwiceIff(codec, t);
    SumIsEmpty(Lasting(codec, s, steps), Twice(codec, t));
    SameSum(Saved(steps), Lasting(codec, s, steps) + Twice(codec, t));
    assert Saved(steps) + Lasting(codec, s, steps) + Twice(codec, t)
        == Saved(steps) + (Lasting(codec, s, steps) + Twice(codec, t));
  }

  lemma SameSum<T>(a: multiset<T>, b: multiset<T>)
    ensures a + b == a <==> b == multiset{}
  {
    assert |a + b| == |a| + |b|;
  }

  /* ---- no event more than twice, none from nowhere ---- */

  /** The files of the host days that archive runs have worked on. */
  function Worked(files: Files, archived: set<(string, Date)>): Files {
    map p | p in files && (p.host, p.date) in archived :: files[p]
  }

  /** What is left twice is held twice by the files of host days that are worked on, and these are
      not touched again. */
  lemma StepWorked(codec: Codec, s: State, step: Step)
    requires Inv(codec, s) && Legal(codec, s, step)
    ensures var t := Next(codec, s, step);
            KeptIn(codec, Worked(Base(s), s.archived)) + (Leaves(codec, s, step) + Leaves(codec, s, step))
            <= KeptIn(codec, Worked(Base(t), t.archived))
  {
    hide Inv, Worked, JobsOf, KeptIn, Twice, Append, Reaches, Completes, Covers, Valid, Ordinal, Distinct;
    NothingMore(KeptIn(codec, Worked(Base(s), s.archived)));
    if step.Write? {
      WriteElsewhereWorked(codec, s, s.jobs[step.job]);
    } else if step.CompressEnds? || step.CompressFails? {
      StopWorked(codec, s);
    }
  }

  lemma WriteElsewhereWorked(codec: Codec, s: State, job: Job)
    requires Inv(codec, s)
    ensures Worked(Append(Base(s), HourOf(job.key, s.clock), job.text), s.archived) == Worked(Base(s), s.archived)
  {
    hide FilesOk, RunOk, PendingOk, JobsOk, Append, Ordinal, Valid;
    var after := Append(Base(s), HourOf(job.key, s.clock), job.text);
    forall p: Path | (p.host, p.date) in s.archived
      ensures SameAt(after, Base(s), p)
    {
      WriteElsewhere(Base(s), HourOf(job.key, s.clock), job.text, p);
    }
  }

  lemma StopWorked(codec: Codec, s: State)
    requires Inv(codec, s) && s.run.Some?
    ensures KeptIn(codec, Worked(s.files, Stopped(s).archived))
         >= KeptIn(codec, Worked(Base(s), s.archived)) + (Twice(codec, s) + Twice(codec, s))
    ensures KeptIn(codec, Worked(s.files, Stopped(s).archived)) >= KeptIn(codec, Worked(Base(s), s.archived))
  {
    hide KeptIn, AllDoubled, FilesOk, PendingOk, JobsOk, ArchivedPast, Reaches, Ordinal, Valid, Worked, OfRun;
    var run := s.run.value;
    DoubledIsTwice(codec, s.files, run.hosts, run.day.date);
    WorkedAtStop(codec, s);
    KeptUnion(codec, Worked(Base(s), s.archived), OfRun(s.files, run.hosts, run.day.date));
  }

  lemma WorkedAtStop(codec: Codec, s: State)
    requires Inv(codec, s) && s.run.Some?
    ensures var run := s.run.value;
            var of := OfRun(s.files, run.hosts, run.day.date);
            && Worked(Base(s), s.archived).Keys !! of.Keys
            && Worked(s.files, Stopped(s).archived) == Worked(Base(s), s.archived) + of
  {
    hide FilesOk, PendingOk, JobsOk, ArchivedPast, Survives, Ordinal, Valid, Distinct;
    var run := s.run.value;
    forall p: Path | (p.host, p.date) in s.archived
      ensures !(p.host in run.hosts && p.date == run.day.date) && SameAt(s.files, Base(s), p)
    {
      FailedElsewhere(codec, run.base, s.files, run.hosts, run.day, p);
    }
    forall p: Path
      ensures (p.host, p.date) in HostDays(run.hosts, run.day.date) <==> p.host in run.hosts && p.date == run.day.date
    {
    }
  }

  lemma {:induction false} RunWorked(codec: Codec, s: State, steps: seq<Step>)
    requires Lossless(codec) && Inv(codec, s) && LegalRun(codec, s, steps)
    ensures var t, twice := After(codec, s, steps), Lasting(codec, s, steps);
            KeptIn(codec, Worked(Base(s), s.archived)) + (twice + twice) <= KeptIn(codec, Worked(Base(t), t.archived))
    decreases steps
  {
    hide Inv, Lossless, KeptIn, Worked, Leaves, Base, Once, Streams, Added;
    if steps != [] {
      var u := FirstStep(codec, s, steps);
      hide After, Lasting, Next, Legal, LegalRun;
      var t, l, k := After(codec, s, steps), Leaves(codec, s, steps[0]), Lasting(codec, u, steps[1..]);
      StepKeeps(codec, s, steps[0]);
      StepWorked(codec, s, steps[0]);
      RunWorked(codec, u, steps[1..]);
      Chain(KeptIn(codec, Worked(Base(s), s.archived)), l + l, KeptIn(codec, Worked(Base(u), u.archived)), k + k,
            KeptIn(codec, Worked(Base(t), t.archived)));
      SumPairs(l, k);
    } else {
      NothingMore(KeptIn(codec, Worked(Base(s), s.archived)));
    }
  }

  lemma SumPairs<T>(a: multiset<T>, b: multiset<T>)
    ensures (a + a) + (b + b) == (a + b) + (a + b)
  {
  }

  lemma WorkedIsPart(codec: Codec, files: Files, archived: set<(string, Date)>)
    ensures KeptIn(codec, Worked(files, archived)) <= KeptIn(codec, files)
  {
    hide KeptIn;
    var rest := files - Worked(files, archived).Keys;
    KeptUnion(codec, Worked(files, archived), rest);
    assert files == Worked(files, archived) + rest;
  }

  /** Twice what is held more than once, in a state with or without a run. */
  lemma SurplusIsHeldTwice(codec: Codec, s: State)
    requires Inv(codec, s)
    ensures KeptIn(codec, Worked(Base(s), s.archived)) + (Twice(codec, s) + Twice(codec, s)) <= KeptIn(codec, s.files)
  {
    hide KeptIn, Worked, Inv, AllDoubled;
    if s.run.Some? {
      StopWorked(codec, s);
      WorkedIsPart(codec, s.files, Stopped(s).archived);
    } else {
      WorkedIsPart(codec, s.files, s.archived);
      NothingMore(KeptIn(codec, Worked(s.files, s.archived)));
    }
  }

  lemma AtMostHalf<T>(events: multiset<T>, saved: multiset<T>, twice: multiset<T>)
    requires events == saved + twice && twice + twice <= events
    ensures events <= saved + saved
  {
    forall e
      ensures events[e] <= (saved + saved)[e]
    {
      assert (twice + twice)[e] <= events[e];
    }
  }

  /** In every reachable state, between the file changes of a compression too and whatever has
      failed, each event is held as often as it was saved, or up to twice as often; so nothing is
      held that was not saved. */
  lemma HeldOnceOrTwice(codec: Codec, clock: Time, steps: seq<Step>)
    requires Lossless(codec) && Streams(codec)
    requires LegalClock(Initial(clock)) && LegalRun(codec, Initial(clock), steps)
    ensures var t := After(codec, Initial(clock), steps);
            Saved(steps) <= Events(codec, t) <= Saved(steps) + Saved(steps)
  {
    hide LegalRun, After, Saved, Lasting, Twice, Inv, Lossless, Streams, Once, KeptIn, Worked, JobLines, NoFailures;
    var s, t := Initial(clock), After(codec, Initial(clock), steps);
    var l, k := Lasting(codec, s, steps), Twice(codec, t);
    InitialIsOk(codec, clock);
    RunKeeps(codec, s, steps);
    Conservation(codec, clock, steps);
    RunWorked(codec, s, steps);
    SurplusIsHeldTwice(codec, t);
    Chain(KeptIn(codec, Worked(Base(s), s.archived)), l + l, KeptIn(codec, Worked(Base(t), t.archived)), k + k,
          KeptIn(codec, t.files));
    SumPairs(l, k);
    Surplus(KeptIn(codec, Worked(Base(s), s.archived)), (l + k) + (l + k), KeptIn(codec, t.files), t.pending + JobLines(t.jobs));
    SumAssociates(Saved(steps), l, k);
    AtMostHalf(Events(codec, t), Saved(steps), l + k);
  }

  lemma Surplus<T>(o: multiset<T>, a: multiset<T>, files: multiset<T>, others: multiset<T>)
    requires o + a <= files
    ensures a <= others + files
  {
  }

  /* ---- a compression among other steps ---- */

  lemma {:induction false} RunAppend(codec: Codec, s: State, a: seq<Step>, b: seq<Step>)
    requires LegalRun(codec, s, a + b)
    ensures LegalRun(codec, s, a) && LegalRun(codec, After(codec, s, a), b)
    ensures After(codec, s, a + b) == After(codec, After(codec, s, a), b)
    decreases a
  {
    if a == [] {
      assert a + b == b;
    } else {
      hide Next, Legal, LegalClock;
      AppendCons(a, b);
      assert (a + b)[0] == a[0] && (a + b)[1..] == a[1..] + b;
      RunAppend(codec, Next(codec, s, a[0]), a[1..], b);
    }
  }

  /** Steps that may come while a compression is in progress. */
  predicate Between(steps: seq<Step>) {
    forall i :: 0 <= i < |steps| ==> !steps[i].CompressEnds? && !steps[i].CompressFails?
  }

  /** Nothing that comes between changes what the run is to archive. */
  lemma {:induction false} RunStays(codec: Codec, s: State, steps: seq<Step>)
    requires Lossless(codec) && Inv(codec, s) && LegalRun(codec, s, steps) && s.run.Some? && Between(steps)
    ensures var t := After(codec, s, steps);
            && t.run.Some? && t.run.value.hosts == s.run.value.hosts && t.run.value.day == s.run.value.day
            && DateSame(t.run.value.base, s.run.value.base, s.run.value.day.date)
    decreases steps
  {
    if steps != [] {
      hide Inv, Legal, Next, Lossless, DateSame;
      InvClock(codec, s);
      StepKeeps(codec, s, steps[0]);
      StepStays(codec, s, steps[0]);
      RunStays(codec, Next(codec, s, steps[0]), steps[1..]);
      var t, u := After(codec, s, steps), Next(codec, s, steps[0]);
      DateSameChain(t.run.value.base, u.run.value.base, s.run.value.base, s.run.value.day.date);
    } else {
      assert DateSame(s.run.value.base, s.run.value.base, s.run.value.day.date);
    }
  }

  ghost predicate DateSame(files: Files, before: Files, date: Date) {
    forall p: Path :: p.date == date ==> SameAt(files, before, p)
  }

  lemma DateSameChain(c: Files, b: Files, a: Files, date: Date)
    requires DateSame(c, b, date) && DateSame(b, a, date)
    ensures DateSame(c, a, date)
  {
    forall p: Path | p.date == date
      ensures SameAt(c, a, p)
    {
      assert SameAt(c, b, p) && SameAt(b, a, p);
    }
  }

  lemma StepStays(codec: Codec, s: State, step: Step)
    requires Inv(codec, s) && Legal(codec, s, step) && s.run.Some? && !step.CompressEnds? && !step.CompressFails?
    ensures var t := Next(codec, s, step);
            && t.run.Some? && t.run.value.hosts == s.run.value.hosts && t.run.value.day == s.run.value.day
            && DateSame(t.run.value.base, s.run.value.base, s.run.value.day.date)
  {
    hide Valid, Ordinal, FilesOk, Reaches, Survives, Distinct, JobsOf, JobsOk, Append;
    if step.Write? {
      var job, run := s.jobs[step.job], s.run.value;
      forall p: Path | p.date == run.day.date
        ensures SameAt(Append(run.base, HourOf(job.key, s.clock), job.text), run.base, p)
      {
        WriteElsewhere(run.base, HourOf(job.key, s.clock), job.text, p);
      }
    }
  }

  /** A compression that ends without an error, with whatever is saved, flushed and written
      meanwhile: for each host an archive from which every hour file of yesterday comes back as
      it was at the start, and no hour file of yesterday. */
  lemma CompressArchives(codec: Codec, s: State, hosts: seq<string>, steps: seq<Step>, host: string)
    requires Lossless(codec) && Inv(codec, s) && host in hosts && Between(steps)
    requires LegalRun(codec, s, [CompressStarts(hosts)] + (steps + [CompressEnds]))
    ensures var day, t := Yesterday(s.clock), After(codec, s, [CompressStarts(hosts)] + (steps + [CompressEnds]));
            var d, m := DayFile(host, day.date), MetaFile(host, day.date);
            && d in t.files && m in t.files
            && Restore(codec.decompress(t.files[d]), t.files[m]) == HoursRead(s.files, host, day, HOURS)
            && forall p :: p in t.files ==> !InDay(p, host, day.date)
  {
    hide Inv, Legal, Lossless, DateSame, Restore, HoursRead, LegalRun, After, Between, Completes, DaySummaryOf, ArchiveHosts;
    var started := StartedAt(codec, s, hosts, steps);
    RunAppend(codec, started, steps, [CompressEnds]);
    RunStays(codec, started, steps);
    RunKeeps(codec, started, steps);
    var e := After(codec, started, steps);
    EndsAt(codec, e);
    InvDistinct(codec, e);
    HoursOk(codec, s, host, Yesterday(s.clock));
    DateSameSummary(e.run.value.base, s.files, host, Yesterday(s.clock));
    RunArchives(codec, e.run.value, e.files, host);
    ArchiveRestores(s.files, host, Yesterday(s.clock));
  }

  /** The files of a completed run. */
  lemma RunArchives(codec: Codec, run: Run, files: Files, host: string)
    requires Lossless(codec) && ValidTime(run.day) && Distinct(run.hosts) && host in run.hosts
    requires Completes(codec, run, files)
    ensures var d, m, s := DayFile(host, run.day.date), MetaFile(host, run.day.date), DaySummaryOf(run.base, host, run.day);
            && d in files && m in files && codec.decompress(files[d]) == s.dayContent && files[m] == s.summary
            && forall p :: p in files ==> !InDay(p, host, run.day.date)
  {
    hide ArchiveHosts, DaySummaryOf, Lossless, Distinct, Valid;
    Unpacked(codec, DaySummaryOf(run.base, host, run.day).dayContent);
    forall p: Path
      ensures ArchivedAt(codec, run.base, run.hosts, run.day, p) == if p in files then Some(files[p]) else None
    {
      ArchiveHostsAt(codec, run.base, run.hosts, run.day, p);
    }
    assert ArchivedAt(codec, run.base, run.hosts, run.day, DayFile(host, run.day.date)).Some?;
    assert ArchivedAt(codec, run.base, run.hosts, run.day, MetaFile(host, run.day.date)).Some?;
  }

  lemma StartedAt(codec: Codec, s: State, hosts: seq<string>, steps: seq<Step>) returns (started: State)
    requires Lossless(codec) && Inv(codec, s)
    requires LegalRun(codec, s, [CompressStarts(hosts)] + (steps + [CompressEnds]))
    ensures LegalClock(s) && s.run.None? && started == s.(run := Some(Run(hosts, Yesterday(s.clock), s.files)))
    ensures Inv(codec, started) && LegalRun(codec, started, steps + [CompressEnds])
    ensures After(codec, s, [CompressStarts(hosts)] + (steps + [CompressEnds]))
         == After(codec, started, steps + [CompressEnds])
  {
    hide Inv, Lossless;
    var all := [CompressStarts(hosts)] + (steps + [CompressEnds]);
    assert all[0] == CompressStarts(hosts) && all[1..] == steps + [CompressEnds];
    StepKeeps(codec, s, CompressStarts(hosts));
    started := Next(codec, s, CompressStarts(hosts));
  }

  lemma EndsAt(codec: Codec, s: State)
    requires LegalRun(codec, s, [CompressEnds])
    ensures LegalClock(s) && s.run.Some? && Completes(codec, s.run.value, s.files)
    ensures After(codec, s, [CompressEnds]).files == s.files
  {
    hide Completes;
    assert [CompressEnds][1..] == [];
    assert After(codec, Stopped(s), []) == Stopped(s);
  }

  lemma HoursOk(codec: Codec, s: State, host: string, day: Time)
    requires Inv(codec, s) && s.run.None? && ValidTime(day)
    ensures TerminatedHours(s.files, host, day)
  {
    hide FilesOk, Valid, TerminatedHours;
    HoursTerminated(s.files, s.clock, s.archived, host, day);
  }

  lemma InvDistinct(codec: Codec, s: State)
    requires Inv(codec, s) && s.run.Some?
    ensures Distinct(s.run.value.hosts)
  {
  }

  lemma DateSameSummary(files: Files, before: Files, host: string, day: Time)
    requires ValidTime(day) && DateSame(files, before, day.date)
    ensures DaySummaryOf(files, host, day) == DaySummaryOf(before, host, day)
  {
    hide DaySummaryOf, Valid;
    assert HoursIntact(files, before, host, day.date);
    HoursIntactSummary(files, before, host, day);
  }

  lemma Unpacked(codec: Codec, text: string)
    requires Lossless(codec)
    ensures codec.decompress(codec.compress(text)) == text
  {
    assert Unpacks(codec, codec.compress(text), text);
  }

  /** An hour that holds something is there with its content, labelled with its distance from the
      clock's hour. */
  predicate HourIn(hours: seq<(nat, string)>, files: Files, host: string, date: Date, clockHour: nat, hour: nat)
    requires clockHour < 24 && hour < 24
  {
    Content(files, HourFile(host, date, hour)) != "" ==>
      ((hour + 24 - clockHour) % 24, Content(files, HourFile(host, date, hour))) in hours
  }

  predicate IsAnHour(h: (nat, string), files: Files, host: string, date: Date, clockHour: nat) {
    h.0 < 24 && h.1 != "" && h.1 == Content(files, HourFile(host, date, (clockHour + h.0) % 24))
  }

  /** Every hour that holds something, and nothing else. */
  predicate HoursByClock(hours: seq<(nat, string)>, files: Files, host: string, date: Date, clockHour: nat)
    requires clockHour < 24
  {
    && (forall hour :: 0 <= hour < 24 ==> HourIn(hours, files, host, date, clockHour, hour))
    && (forall h :: h in hours ==> IsAnHour(h, files, host, date, clockHour))
  }

  /** In terms of the clock: after a complete compression the hours of the day before come back
      from each host's archive, labelled by the clock. */
  lemma EveryHourComesBack(codec: Codec, s: State, hosts: seq<string>, steps: seq<Step>, host: string)
    requires Lossless(codec) && Inv(codec, s) && host in hosts && Between(steps)
    requires LegalRun(codec, s, [CompressStarts(hosts)] + (steps + [CompressEnds]))
    ensures LegalClock(s)
    ensures var t, date := After(codec, s, [CompressStarts(hosts)] + (steps + [CompressEnds])), PreviousDay(s.clock.date);
            var d, m := DayFile(host, date), MetaFile(host, date);
            && d in t.files && m in t.files
            && HoursByClock(Restore(codec.decompress(t.files[d]), t.files[m]), s.files, host, date, s.clock.hour)
  {
    hide Inv, Legal, Lossless, Restore, HoursRead, LegalRun, After, Between, HoursByClock, PreviousDay, Valid, Ordinal;
    InvClock(codec, s);
    CompressArchives(codec, s, hosts, steps, host);
    HoursOfClock(s.files, host, s.clock);
  }

  /** So a label is the hour of its file exactly when the clock's hour is 0. */
  lemma LabelIsHourIff(hour: nat, clockHour: nat)
    requires hour < 24 && clockHour < 24
    ensures (hour + 24 - clockHour) % 24 == hour <==> clockHour == 0
  {
    RoundTheClock(clockHour, hour, hour);
  }

  lemma HoursOfClock(files: Files, host: string, clock: Time)
    requires ValidTime(clock) && Ordinal(clock.date) > 1
    ensures HoursByClock(HoursRead(files, host, Yesterday(clock), HOURS), files, host, PreviousDay(clock.date), clock.hour)
  {
    hide HoursRead, Content, HourText, Valid, Ordinal, PreviousDay, HourIn, IsAnHour;
    var day := Yesterday(clock);
    forall hour | 0 <= hour < 24
      ensures HourIn(HoursRead(files, host, day, HOURS), files, host, day.date, clock.hour, hour)
    {
      HourIsIn(files, host, day, hour);
    }
    forall h | h in HoursRead(files, host, day, HOURS)
      ensures IsAnHour(h, files, host, day.date, clock.hour)
    {
      ReadIsHour(files, host, day, h);
    }
  }

  lemma HourIsIn(files: Files, host: string, day: Time, hour: nat)
    requires ValidTime(day) && hour < 24
    ensures HourIn(HoursRead(files, host, day, HOURS), files, host, day.date, day.hour, hour)
  {
    hide HoursRead, Content, Valid;
    if Content(files, HourFile(host, day.date, hour)) != "" {
      HourIsRead(files, host, day, hour);
    }
  }

  lemma HourIsRead(files: Files, host: string, day: Time, hour: nat)
    requires ValidTime(day) && hour < 24 && Content(files, HourFile(host, day.date, hour)) != ""
    ensures ((hour + 24 - day.hour) % 24, Content(files, HourFile(host, day.date, hour))) in HoursRead(files, host, day, HOURS)
  {
    hide HoursRead, Content, HourText, Valid;
    var k := (hour + 24 - day.hour) % 24;
    RoundTheClock(day.hour, hour, k);
    HourTextAt(files, host, day, k);
    HoursReadComplete(files, host, day, HOURS, k);
  }

  lemma ReadIsHour(files: Files, host: string, day: Time, h: (nat, string))
    requires ValidTime(day) && h in HoursRead(files, host, day, HOURS)
    ensures IsAnHour(h, files, host, day.date, day.hour)
  {
    hide HoursRead, Content, HourText, Valid;
    HoursReadBound(files, host, day, HOURS);
    HourTextAt(files, host, day, h.0);
  }

  predicate WholeLines(files: Files) {
    forall p :: p in files && p.HourFile? ==> Terminated(files[p])
  }

  /** From the archive of the file's host and day the content comes back under the label. */
  predicate ComesBack(codec: Codec, files: Files, p: Path, name: nat, content: string) {
    var d, m := DayFile(p.host, p.date), MetaFile(p.host, p.date);
    d in files && m in files && (name, content) in Restore(codec.decompress(files[d]), files[m])
  }

  /** What a compression at an instant makes of an hour file of the day before. */
  lemma HourIsArchived(codec: Codec, files: Files, after: Files, hosts: seq<string>, clock: Time, p: Path)
    requires Lossless(codec) && ValidTime(clock) && Ordinal(clock.date) > 1 && Distinct(hosts) && WholeLines(files)
    requires after == ArchiveHosts(codec, files, hosts, Yesterday(clock))
    requires p in files && p.host in hosts && p.HourFile? && p.date == PreviousDay(clock.date) && p.hour < 24
    ensures p !in after
    ensures files[p] != "" ==> ComesBack(codec, after, p, (p.hour + 24 - clock.hour) % 24, files[p])
  {
    hide Lossless, Distinct, ArchiveHosts, Restore, HoursRead, WholeLines, TerminatedHours, DaySummaryOf;
    hide Ordinal, PreviousDay, Valid;
    var day := Yesterday(clock);
    WholeHours(files, p.host, day);
    RunArchives(codec, Run(hosts, day, files), after, p.host);
    ArchiveRestores(files, p.host, day);
    if files[p] != "" {
      HourIsRead(files, p.host, day, p.hour);
    }
  }

  lemma WholeHours(files: Files, host: string, day: Time)
    requires ValidTime(day) && WholeLines(files)
    ensures TerminatedHours(files, host, day)
  {
    hide Terminated, Valid, AddHours;
    EmptyTerminated();
  }

  /** The states that an archive run of `Disks.ArchiveDay` goes through, as steps. */
  function Changes(states: seq<Files>): seq<Step> {
    seq(|states|, i requires 0 <= i < |states| => CompressChanges(states[i]))
  }

  /** Every archive run is a compression of the machine: the states it records are legal changes,
      and when it archives all hosts it may end. */
  lemma ArchiveRunIsLegal(codec: Codec, s: State, hosts: seq<string>, states: seq<Files>)
    requires LegalClock(s) && Legal(codec, s, CompressStarts(hosts)) && states != []
    requires AllSurvive(states, codec, s.files, hosts, Yesterday(s.clock))
    ensures LegalRun(codec, s, [CompressStarts(hosts)] + Changes(states))
    ensures var t := After(codec, s, [CompressStarts(hosts)] + Changes(states));
            && LegalClock(t) && t.files == states[|states| - 1]
            && (Legal(codec, t, CompressEnds) <==> t.files == ArchiveHosts(codec, s.files, hosts, Yesterday(s.clock)))
  {
    hide Valid, Ordinal, Survives, ArchiveHosts, Distinct;
    var started := s.(run := Some(Run(hosts, Yesterday(s.clock), s.files)));
    var all := [CompressStarts(hosts)] + Changes(states);
    assert all[0] == CompressStarts(hosts) && all[1..] == Changes(states);
    ChangesAreLegal(codec, started, states);
  }

  lemma {:induction false} ChangesAreLegal(codec: Codec, s: State, states: seq<Files>)
    requires LegalClock(s) && s.run.Some?
    requires forall i :: 0 <= i < |states| ==> Reaches(codec, s.run.value, states[i])
    ensures LegalRun(codec, s, Changes(states))
    ensures After(codec, s, Changes(states)) == if states == [] then s else s.(files := states[|states| - 1])
    decreases states
  {
    hide Valid, Ordinal, Reaches;
    if states != [] {
      var steps := Changes(states);
      assert steps[0] == CompressChanges(states[0]) && steps[1..] == Changes(states[1..]);
      ChangesAreLegal(codec, s.(files := states[0]), states[1..]);
    }
  }

  /* ---- the schedule ---- */

  /** Compression starts at most once per UTC date, as the schedule of backup/service.go has it,
      and is not repeated after an error; `last` is the date of the start before. */
  ghost predicate Daily(codec: Codec, s: State, steps: seq<Step>, last: nat)
    decreases steps
  {
    steps == [] ||
    (&& LegalClock(s) && Possible(codec, s, steps[0])
     && (steps[0].CompressStarts? ==> last < Ordinal(s.clock.date))
     && Daily(codec, Next(codec, s, steps[0]), steps[1..], LastStart(s, steps[0], last)))
  }

  function LastStart(s: State, step: Step, last: nat): nat
    requires LegalClock(s)
  {
    if step.CompressStarts? then Ordinal(s.clock.date) else last
  }

  /** Host days worked on, by the run in progress too, lie before the last start. */
  predicate ArchivedBefore(s: State, last: nat) {
    && (forall a :: a in s.archived ==> Valid(a.1) && Ordinal(a.1) < last)
    && (s.run.Some? ==> Valid(s.run.value.day.date) && Ordinal(s.run.value.day.date) < last)
  }

  lemma {:induction false} DailyIsLegal(codec: Codec, s: State, steps: seq<Step>, last: nat)
    requires Daily(codec, s, steps, last) && ArchivedBefore(s, last)
    ensures LegalRun(codec, s, steps)
    decreases steps
  {
    if steps != [] {
      hide Possible, Next, ArchivedBefore, NotTwice;
      OnceIsNotTwice(codec, s, steps[0], last);
      DailyIsLegal(codec, Next(codec, s, steps[0]), steps[1..], LastStart(s, steps[0], last));
    }
  }

  lemma OnceIsNotTwice(codec: Codec, s: State, step: Step, last: nat)
    requires LegalClock(s) && Possible(codec, s, step) && ArchivedBefore(s, last)
    requires step.CompressStarts? ==> last < Ordinal(s.clock.date)
    ensures NotTwice(s, step)
    ensures ArchivedBefore(Next(codec, s, step), LastStart(s, step, last))
  {
    hide Ordinal, Valid, PreviousDay, Distinct, Completes, Reaches, Append;
  }

  /** A run whose compressions start on later and later dates is daily. */
  lemma {:induction false} LaterStartsAreDaily(codec: Codec, s: State, steps: seq<Step>, last: nat)
    requires LegalRun(codec, s, steps)
    requires forall j :: 0 <= j < |steps| && steps[j].CompressStarts? ==> last < StartDate(codec, s, steps, j)
    requires forall i, j :: 0 <= i < j < |steps| && steps[i].CompressStarts? && steps[j].CompressStarts? ==>
      StartDate(codec, s, steps, i) < StartDate(codec, s, steps, j)
    ensures Daily(codec, s, steps, last)
    decreases steps
  {
    if steps != [] {
      var t := FirstStep(codec, s, steps);
      DateOfFirst(codec, s, steps);
      hide Next, Possible, LegalClock, NotTwice;
      forall j | 0 <= j < |steps| - 1
        ensures StartDate(codec, t, steps[1..], j) == StartDate(codec, s, steps, j + 1)
      {
        DateOfRest(codec, s, steps, j);
      }
      hide StartDate;
      LaterStartsAreDaily(codec, t, steps[1..], LastStart(s, steps[0], last));
    }
  }

  /** The number of the day on which step `j` is taken. */
  function StartDate(codec: Codec, s: State, steps: seq<Step>, j: nat): nat
    requires LegalRun(codec, s, steps) && j < |steps|
  {
    LegalRunAt(codec, s, steps, j);
    Ordinal(After(codec, s, steps[..j]).clock.date)
  }

  lemma LegalRunAt(codec: Codec, s: State, steps: seq<Step>, j: nat)
    requires LegalRun(codec, s, steps) && j < |steps|
    ensures LegalRun(codec, s, steps[..j]) && LegalClock(After(codec, s, steps[..j]))
  {
    hide LegalClock, Legal, Next;
    assert steps == steps[..j] + steps[j..];
    RunAppend(codec, s, steps[..j], steps[j..]);
  }

  lemma DateOfFirst(codec: Codec, s: State, steps: seq<Step>)
    requires LegalRun(codec, s, steps) && steps != []
    ensures LegalClock(s) && StartDate(codec, s, steps, 0) == Ordinal(s.clock.date)
  {
    hide Ordinal, Legal;
    assert steps[..0] == [];
  }

  lemma DateOfRest(codec: Codec, s: State, steps: seq<Step>, j: nat)
    requires LegalRun(codec, s, steps) && j + 1 < |steps|
    ensures LegalClock(s) && Legal(codec, s, steps[0])
    ensures LegalRun(codec, Next(codec, s, steps[0]), steps[1..])
    ensures StartDate(codec, Next(codec, s, steps[0]), steps[1..], j) == StartDate(codec, s, steps, j + 1)
  {
    hide Ordinal, NotTwice, Possible, LegalClock;
    assert steps[..j + 1][0] == steps[0] && steps[..j + 1][1..] == steps[1..][..j];
    LegalRunAt(codec, s, steps, j + 1);
    hide Next;
  }

  /** With at most one compression started per UTC date nothing is ever lost, nothing is held that
      was not saved, and nothing is held more often than it was saved but by compressions that
      failed or are in progress. */
  lemma DailyConservation(codec: Codec, clock: Time, steps: seq<Step>)
    requires Lossless(codec) && LegalClock(Initial(clock)) && Daily(codec, Initial(clock), steps, 0)
    ensures LegalRun(codec, Initial(clock), steps)
    ensures var s, t := Initial(clock), After(codec, Initial(clock), steps);
            && Saved(steps) <= Events(codec, t)
            && (NoFailures(steps) && t.run.None? ==> Events(codec, t) == Saved(steps))
            && (Streams(codec) ==>
                && Events(codec, t) == Saved(steps) + Lasting(codec, s, steps) + Twice(codec, t)
                && Events(codec, t) <= Saved(steps) + Saved(steps))
  {
    hide LegalRun, After, Saved, Lasting, Events, Daily, Twice, Streams, NoFailures;
    DailyIsLegal(codec, Initial(clock), steps, 0);
    Conservation(codec, clock, steps);
    if Streams(codec) {
      HeldOnceOrTwice(codec, clock, steps);
    }
  }

  /** A host day is final once an archive run has worked on it: no later step changes any of its
      files, its archive, its index or an hour file left by an error. */
  lemma {:induction false} ArchiveIsFinal(codec: Codec, s: State, steps: seq<Step>, host: string, date: Date)
    requires Lossless(codec) && Inv(codec, s) && LegalRun(codec, s, steps) && (host, date) in s.archived
    ensures var t := After(codec, s, steps);
            (host, date) in t.archived && DaySame(t.files, s.files, host, date)
    decreases steps
  {
    if steps != [] {
      hide Inv, Legal, Next, Lossless, DaySame;
      InvClock(codec, s);
      StepKeepsArchive(codec, s, steps[0], host, date);
      StepKeeps(codec, s, steps[0]);
      var t := Next(codec, s, steps[0]);
      ArchiveIsFinal(codec, t, steps[1..], host, date);
      DaySameChain(After(codec, t, steps[1..]).files, t.files, s.files, host, date);
    } else {
      NothingChanges(s.files, host, date);
    }
  }

  ghost predicate DaySame(files: Files, before: Files, host: string, date: Date) {
    forall p :: OfDay(p, host, date) ==> SameAt(files, before, p)
  }

  lemma NothingChanges(files: Files, host: string, date: Date)
    ensures DaySame(files, files, host, date)
  {
  }

  lemma DaySameChain(c: Files, b: Files, a: Files, host: string, date: Date)
    requires DaySame(c, b, host, date) && DaySame(b, a, host, date)
    ensures DaySame(c, a, host, date)
  {
    forall p | OfDay(p, host, date)
      ensures SameAt(c, a, p)
    {
      assert SameAt(c, b, p) && SameAt(b, a, p);
    }
  }

  lemma StepKeepsArchive(codec: Codec, s: State, step: Step, host: string, date: Date)
    requires Inv(codec, s) && Legal(codec, s, step) && (host, date) in s.archived
    ensures var t := Next(codec, s, step); (host, date) in t.archived && DaySame(t.files, s.files, host, date)
  {
    hide Inv, DaySame, JobsOf, Append, HostDays, Reaches, Completes, Covers, Valid, Ordinal;
    NothingChanges(s.files, host, date);
    if step.Write? {
      WriteKeepsArchive(codec, s, s.jobs[step.job], host, date);
    } else if step.CompressChanges? {
      ChangeKeepsArchive(codec, s, step.left, host, date);
    }
  }

  lemma WriteKeepsArchive(codec: Codec, s: State, job: Job, host: string, date: Date)
    requires Inv(codec, s) && (host, date) in s.archived
    ensures DaySame(Append(s.files, HourOf(job.key, s.clock), job.text), s.files, host, date)
  {
    hide FilesOk, RunOk, PendingOk, JobsOk, Append, Ordinal, Valid;
    forall p | OfDay(p, host, date)
      ensures SameAt(Append(s.files, HourOf(job.key, s.clock), job.text), s.files, p)
    {
      WriteElsewhere(s.files, HourOf(job.key, s.clock), job.text, p);
    }
  }

  lemma ChangeKeepsArchive(codec: Codec, s: State, left: Files, host: string, date: Date)
    requires Inv(codec, s) && s.run.Some? && Reaches(codec, s.run.value, left) && (host, date) in s.archived
    ensures DaySame(left, s.files, host, date)
  {
    hide FilesOk, PendingOk, JobsOk, ArchivedPast, Survives, Ordinal, Valid, Distinct;
    var run := s.run.value;
    forall p | OfDay(p, host, date)
      ensures SameAt(left, s.files, p)
    {
      FailedElsewhere(codec, run.base, left, run.hosts, run.day, p);
      FailedElsewhere(codec, run.base, s.files, run.hosts, run.day, p);
    }
  }

  lemma FailedElsewhere(codec: Codec, before: Files, files: Files, hosts: seq<string>, day: Time, p: Path)
    requires ValidTime(day) && Survives(files, codec, before, hosts, day)
    requires !(p.host in hosts && p.date == day.date)
    ensures SameAt(files, before, p)
  {
    hide Valid, DaySummaryOf;
    var host := p.host;
    assert if host in hosts then Safe(files, codec, before, host, day) else HostSame(files, before, host);
  }

  /** Without the proviso the law fails: archiving a host's day twice loses the events of the
      first archive. */
  lemma SecondArchiveLoses(codec: Codec, files: Files, host: string, day: Time, again: Time)
    requires Lossless(codec) && ValidTime(day) && ValidTime(again) && again.date == day.date
    requires ClockHours(files) && TerminatedHours(files, host, day) && DayText(files, host, day, HOURS) != ""
    ensures var once := ArchiveHost(codec, files, host, day);
            KeptIn(codec, ArchiveHost(codec, once, host, again)) != KeptIn(codec, once)
  {
    var once, text := ArchiveHost(codec, files, host, day), DayText(files, host, day, HOURS);
    DayLines(files, host, day, HOURS);
    NonEmptyHasLines(text);
    assert Unpacks(codec, codec.compress(text), text);
    hide DayText, Lines, Valid, AddHours, SummaryText, Entries, Lossless;
    assert once[DayFile(host, day.date)] == codec.compress(text);
    assert TerminatedHours(once, host, again) by {
      EmptyTerminated();
    }
    ArchiveKeepsIff(codec, once, host, again);
  }
}
