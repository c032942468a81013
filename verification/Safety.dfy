/** What a crash or an error in an archive run leaves behind, and why no line is lost by it. */
module Safety {
  import opened Text
  import opened Calendar
  import opened Paths
  import opened Batch
  import opened Archive
  import opened Ledger

  ghost predicate SameAt(files: Files, before: Files, p: Path) {
    (p in files <==> p in before) && (p in files ==> files[p] == before[p])
  }

  /** A file in the course of being written: as before, removed, or a front part of the packed
      text. */
  ghost predicate PartWritten(files: Files, before: Files, p: Path, packed: string) {
    SameAt(files, before, p) || p !in files || files[p] <= packed
  }

  /** The files differ from `before` at most at `p`, where `packed` is being written. */
  ghost predicate OnlyAt(files: Files, before: Files, p: Path, packed: string) {
    PartWritten(files, before, p, packed) && forall q :: q != p ==> SameAt(files, before, q)
  }

  ghost predicate AllOnlyAt(states: seq<Files>, before: Files, p: Path, packed: string) {
    forall i :: 0 <= i < |states| ==> OnlyAt(states[i], before, p, packed)
  }

  /** The files are `before` with some hour files of one day deleted. */
  ghost predicate DayDeleted(files: Files, before: Files, host: string, date: Date) {
    forall q :: SameAt(files, before, q) || (InDay(q, host, date) && q !in files)
  }

  ghost predicate AllDayDeleted(states: seq<Files>, before: Files, host: string, date: Date) {
    forall i :: 0 <= i < |states| ==> DayDeleted(states[i], before, host, date)
  }

  predicate OfDay(p: Path, host: string, date: Date) {
    p.host == host && p.date == date
  }

  /** Nothing outside the host's day is touched. */
  ghost predicate OthersSame(files: Files, before: Files, host: string, date: Date) {
    forall p :: !OfDay(p, host, date) ==> SameAt(files, before, p)
  }

  ghost predicate AllOthersSame(states: seq<Files>, before: Files, host: string, date: Date) {
    forall i :: 0 <= i < |states| ==> OthersSame(states[i], before, host, date)
  }

  /** Nothing of the host is touched. */
  ghost predicate HostSame(files: Files, before: Files, host: string) {
    forall p: Path :: p.host == host ==> SameAt(files, before, p)
  }

  /** Nothing of the host's other days is touched. */
  ghost predicate OtherDaysSame(files: Files, before: Files, host: string, date: Date) {
    forall p: Path :: p.host == host && p.date != date ==> SameAt(files, before, p)
  }

  /** The hour files of the day are as they were. */
  ghost predicate HoursIntact(files: Files, before: Files, host: string, date: Date) {
    forall p :: InDay(p, host, date) ==> SameAt(files, before, p)
  }

  /** The hour files of the day are as they were or gone. */
  ghost predicate HoursAtMostGone(files: Files, before: Files, host: string, date: Date) {
    forall p :: InDay(p, host, date) && p in files ==> SameAt(files, before, p)
  }

  /** The day file unpacks to the day's content and the meta file holds its index. */
  ghost predicate Archived(files: Files, codec: Codec, before: Files, host: string, day: Time)
    requires ValidTime(day)
  {
    var s, d, m := DaySummaryOf(before, host, day), DayFile(host, day.date), MetaFile(host, day.date);
    && d in files && codec.decompress(files[d]) == s.dayContent && m in files && files[m] == s.summary
    && HoursAtMostGone(files, before, host, day.date)
  }

  /** The hours are as they were, and the archive is being written: each of its files is as
      before, removed, or a front part of what is written to it. */
  ghost predicate Writing(files: Files, codec: Codec, before: Files, host: string, day: Time)
    requires ValidTime(day)
  {
    var s := DaySummaryOf(before, host, day);
    && HoursIntact(files, before, host, day.date)
    && PartWritten(files, before, DayFile(host, day.date), codec.compress(s.dayContent))
    && PartWritten(files, before, MetaFile(host, day.date), s.summary)
  }

  /** Write before delete: the hour files are intact while the archive is written, or the archive
      is complete; and the host's other days are untouched. */
  ghost predicate Safe(files: Files, codec: Codec, before: Files, host: string, day: Time)
    requires ValidTime(day)
  {
    && OtherDaysSame(files, before, host, day.date)
    && (Writing(files, codec, before, host, day) || Archived(files, codec, before, host, day))
  }

  ghost predicate AllSafe(states: seq<Files>, codec: Codec, before: Files, host: string, day: Time)
    requires ValidTime(day)
  {
    forall i :: 0 <= i < |states| ==> Safe(states[i], codec, before, host, day)
  }

  /* ---- one host ---- */

  lemma NothingWritten(files: Files, p: Path)
    ensures OnlyAt(files, files, p, "") && AllOnlyAt([], files, p, "")
  {
  }

  /** One more state that differs only at `p`. */
  lemma OneMore(states: seq<Files>, files: Files, from: Files, before: Files, p: Path, packed: string)
    requires OnlyAt(from, before, p, packed)
    requires files == from - {p} || (p in files && files[p] <= packed && files == from[p := files[p]])
    ensures OnlyAt(files, before, p, packed)
    ensures AllOnlyAt([files], before, p, packed)
    ensures AllOnlyAt(states, before, p, packed) ==> AllOnlyAt(states + [files], before, p, packed)
  {
    forall q | q != p
      ensures SameAt(files, before, q)
    {
      assert SameAt(from, before, q);
    }
  }

  lemma NothingOrMore(files: Files, states: seq<Files>, before: Files, p: Path, packed: string)
    ensures OnlyAt(files, before, p, "") ==> OnlyAt(files, before, p, packed)
    ensures AllOnlyAt(states, before, p, "") ==> AllOnlyAt(states, before, p, packed)
  {
    assert forall f :: OnlyAt(f, before, p, "") ==> OnlyAt(f, before, p, packed);
  }

  /** What is written to the files of an archive. */
  predicate ArchiveText(codec: Codec, before: Files, host: string, day: Time, p: Path, packed: string)
    requires ValidTime(day)
  {
    var s := DaySummaryOf(before, host, day);
    || (p == DayFile(host, day.date) && packed == codec.compress(s.dayContent))
    || (p == MetaFile(host, day.date) && packed == s.summary)
  }

  /** Writing an archive file touches neither the hours nor other days. */
  lemma WritingIsSafe(files: Files, codec: Codec, from: Files, before: Files, p: Path, packed: string,
                      host: string, day: Time)
    requires ValidTime(day) && OnlyAt(files, from, p, packed) && ArchiveText(codec, before, host, day, p, packed)
    requires Writing(from, codec, before, host, day) && OthersSame(from, before, host, day.date)
    requires SameAt(from, before, p)
    ensures Writing(files, codec, before, host, day) && OthersSame(files, before, host, day.date)
    ensures p.DayFile? && SameAt(from, before, MetaFile(host, day.date)) ==> SameAt(files, before, MetaFile(host, day.date))
  {
    hide DaySummaryOf, Valid;
    forall q | q != p
      ensures SameAt(files, from, q)
      ensures SameAt(from, before, q) ==> SameAt(files, before, q)
    {
    }
    var s, d, m := DaySummaryOf(before, host, day), DayFile(host, day.date), MetaFile(host, day.date);
    assert PartWritten(files, before, d, codec.compress(s.dayContent)) by {
      assert p != d ==> SameAt(files, from, d);
    }
    assert PartWritten(files, before, m, s.summary) by {
      assert p != m ==> SameAt(files, from, m);
    }
    forall q | InDay(q, host, day.date)
      ensures SameAt(files, before, q)
    {
      assert SameAt(from, before, q) && q != p;
    }
  }

  lemma OthersAndOtherDays(files: Files, before: Files, host: string, date: Date)
    requires OthersSame(files, before, host, date)
    ensures OtherDaysSame(files, before, host, date)
  {
  }

  lemma WritesAreSafe(states: seq<Files>, codec: Codec, from: Files, before: Files, p: Path, packed: string,
                      host: string, day: Time)
    requires ValidTime(day) && AllOnlyAt(states, from, p, packed) && ArchiveText(codec, before, host, day, p, packed)
    requires Writing(from, codec, before, host, day) && OthersSame(from, before, host, day.date)
    requires SameAt(from, before, p)
    ensures AllSafe(states, codec, before, host, day) && AllOthersSame(states, before, host, day.date)
  {
    hide OnlyAt, ArchiveText, Writing, OthersSame, OtherDaysSame, Archived, Valid, SameAt;
    forall i | 0 <= i < |states|
      ensures Safe(states[i], codec, before, host, day) && OthersSame(states[i], before, host, day.date)
    {
      WritingIsSafe(states[i], codec, from, before, p, packed, host, day);
      OthersAndOtherDays(states[i], before, host, day.date);
    }
  }

  /** Deleting hour files keeps a complete archive. */
  lemma DeletingIsSafe(files: Files, codec: Codec, from: Files, before: Files, host: string, day: Time)
    requires ValidTime(day) && DayDeleted(files, from, host, day.date)
    requires OthersSame(from, before, host, day.date)
    ensures OthersSame(files, before, host, day.date)
    ensures Archived(from, codec, before, host, day) ==> Archived(files, codec, before, host, day)
  {
    hide DaySummaryOf, Valid;
    assert SameAt(files, from, DayFile(host, day.date));
    assert SameAt(files, from, MetaFile(host, day.date));
    forall q | !OfDay(q, host, day.date)
      ensures SameAt(files, before, q)
    {
      assert SameAt(files, from, q) && SameAt(from, before, q);
    }
    if Archived(from, codec, before, host, day) {
      forall q | InDay(q, host, day.date) && q in files
        ensures SameAt(files, before, q)
      {
        assert SameAt(files, from, q) && SameAt(from, before, q);
      }
    }
  }

  lemma DeletesAreSafe(states: seq<Files>, codec: Codec, from: Files, before: Files, host: string, day: Time)
    requires ValidTime(day) && AllDayDeleted(states, from, host, day.date)
    requires OthersSame(from, before, host, day.date)
    ensures AllOthersSame(states, before, host, day.date)
    ensures Archived(from, codec, before, host, day) ==> AllSafe(states, codec, before, host, day)
  {
    hide DayDeleted, Writing, OthersSame, OtherDaysSame, Archived, Valid;
    forall i | 0 <= i < |states|
      ensures OthersSame(states[i], before, host, day.date)
      ensures Archived(from, codec, before, host, day) ==> Safe(states[i], codec, before, host, day)
    {
      DeletingIsSafe(states[i], codec, from, before, host, day);
      OthersAndOtherDays(states[i], before, host, day.date);
    }
  }

  lemma AllAppend(a: seq<Files>, b: seq<Files>, codec: Codec, before: Files, host: string, day: Time)
    requires ValidTime(day)
    ensures AllSafe(a, codec, before, host, day) && AllSafe(b, codec, before, host, day)
        ==> AllSafe(a + b, codec, before, host, day)
    ensures AllOthersSame(a, before, host, day.date) && AllOthersSame(b, before, host, day.date)
        ==> AllOthersSame(a + b, before, host, day.date)
  {
    hide Safe, OthersSame, Valid;
  }

  lemma NothingDone(files: Files, codec: Codec, host: string, day: Time)
    requires ValidTime(day)
    ensures AllSafe([], codec, files, host, day) && AllOthersSame([], files, host, day.date)
    ensures Writing(files, codec, files, host, day) && OthersSame(files, files, host, day.date)
  {
    hide DaySummaryOf, Valid;
  }

  function BothWritten(codec: Codec, before: Files, host: string, day: Time): Files
    requires ValidTime(day)
  {
    var s := DaySummaryOf(before, host, day);
    before[DayFile(host, day.date) := codec.compress(s.dayContent)][MetaFile(host, day.date) := s.summary]
  }

  lemma WrittenIsArchived(codec: Codec, before: Files, host: string, day: Time)
    requires ValidTime(day) && Lossless(codec)
    ensures Archived(BothWritten(codec, before, host, day), codec, before, host, day)
  {
    hide DaySummaryOf, Valid;
    var s := DaySummaryOf(before, host, day);
    assert Unpacks(codec, codec.compress(s.dayContent), s.dayContent);
  }

  lemma RemovedAfterWriting(codec: Codec, before: Files, host: string, day: Time)
    requires ValidTime(day)
    ensures RemoveDay(BothWritten(codec, before, host, day), host, day.date) == ArchiveHost(codec, before, host, day)
  {
    hide DaySummaryOf, Valid;
  }

  lemma ArchivedByRun(codec: Codec, from: Files, host: string, day: Time)
    requires ValidTime(day) && Lossless(codec)
    ensures Archived(ArchiveHost(codec, from, host, day), codec, from, host, day)
  {
    hide DaySummaryOf, Valid;
    var s := DaySummaryOf(from, host, day);
    assert Unpacks(codec, codec.compress(s.dayContent), s.dayContent);
  }

  /* ---- all hosts ---- */

  /** Every host of the run is safe, and no other host is touched. */
  ghost predicate Survives(files: Files, codec: Codec, before: Files, hosts: seq<string>, day: Time)
    requires ValidTime(day)
  {
    forall host :: if host in hosts then Safe(files, codec, before, host, day) else HostSame(files, before, host)
  }

  ghost predicate AllSurvive(states: seq<Files>, codec: Codec, before: Files, hosts: seq<string>, day: Time)
    requires ValidTime(day)
  {
    forall i :: 0 <= i < |states| ==> Survives(states[i], codec, before, hosts, day)
  }

  /** The hosts in `done` are archived, all others untouched. */
  ghost predicate Progress(files: Files, codec: Codec, before: Files, done: seq<string>, day: Time)
    requires ValidTime(day)
  {
    forall host ::
      if host in done then ArchivedOnly(files, codec, before, host, day) else HostSame(files, before, host)
  }

  ghost predicate ArchivedOnly(files: Files, codec: Codec, before: Files, host: string, day: Time)
    requires ValidTime(day)
  {
    Archived(files, codec, before, host, day) && OtherDaysSame(files, before, host, day.date)
  }

  lemma HoursIntactSummary(files: Files, before: Files, host: string, day: Time)
    requires ValidTime(day) && HoursIntact(files, before, host, day.date)
    ensures DaySummaryOf(files, host, day) == DaySummaryOf(before, host, day)
  {
    hide DaySummaryOf, Valid, AddHours;
    forall k | 0 <= k < HOURS
      ensures HourText(files, host, day, k) == HourText(before, host, day, k)
    {
      assert SameAt(files, before, HourPath(host, day, k));
    }
    SameHoursSameSummary(files, before, host, day);
  }

  /** The host in work: what is safe against the state it started from is safe against the
      start of the run. */
  lemma HostFromStart(files: Files, codec: Codec, from: Files, before: Files, host: string, day: Time)
    requires ValidTime(day) && HostSame(from, before, host) && OthersSame(files, from, host, day.date)
    ensures Safe(files, codec, from, host, day) ==> Safe(files, codec, before, host, day)
    ensures Archived(files, codec, from, host, day) ==> ArchivedOnly(files, codec, before, host, day)
  {
    hide DaySummaryOf, Valid;
    assert HoursIntact(from, before, host, day.date);
    HoursIntactSummary(from, before, host, day);
    forall p: Path | p.host == host
      ensures SameAt(files, from, p) ==> SameAt(files, before, p)
      ensures p.date != day.date ==> SameAt(files, from, p)
    {
      assert SameAt(from, before, p);
    }
  }

  lemma OtherHostKept(files: Files, codec: Codec, from: Files, before: Files, host: string, other: string, day: Time)
    requires ValidTime(day) && host != other && OthersSame(files, from, host, day.date)
    ensures ArchivedOnly(from, codec, before, other, day) ==> ArchivedOnly(files, codec, before, other, day)
    ensures HostSame(from, before, other) ==> HostSame(files, before, other)
  {
    hide DaySummaryOf, Valid;
    assert SameAt(files, from, DayFile(other, day.date)) && SameAt(files, from, MetaFile(other, day.date));
    forall p: Path | p.host == other
      ensures SameAt(files, from, p)
      ensures SameAt(from, before, p) ==> SameAt(files, before, p)
    {
    }
  }

  /** A state while one more host is archived. */
  lemma OneHostInFlight(files: Files, codec: Codec, from: Files, before: Files,
                        done: seq<string>, host: string, hosts: seq<string>, day: Time)
    requires ValidTime(day) && Progress(from, codec, before, done, day) && host !in done
    requires host in hosts && forall h :: h in done ==> h in hosts
    requires OthersSame(files, from, host, day.date)
    ensures Safe(files, codec, from, host, day) ==> Survives(files, codec, before, hosts, day)
    ensures Archived(files, codec, from, host, day) ==> Progress(files, codec, before, done + [host], day)
  {
    hide Archived, HostSame, OthersSame, OtherDaysSame, Writing, Valid;
    HostFromStart(files, codec, from, before, host, day);
    forall h | h != host
      ensures if h in done then ArchivedOnly(files, codec, before, h, day) else HostSame(files, before, h)
    {
      OtherHostKept(files, codec, from, before, host, h, day);
    }
    forall h | h in hosts && HostSame(files, before, h)
      ensures Safe(files, codec, before, h, day)
    {
      HostSameIsSafe(files, codec, before, h, day);
    }
  }

  lemma HostSameIsSafe(files: Files, codec: Codec, before: Files, host: string, day: Time)
    requires ValidTime(day) && HostSame(files, before, host)
    ensures Safe(files, codec, before, host, day)
  {
    hide DaySummaryOf, Valid;
  }

  lemma HostInFlight(states: seq<Files>, codec: Codec, from: Files, before: Files,
                     done: seq<string>, host: string, hosts: seq<string>, day: Time)
    requires ValidTime(day) && Progress(from, codec, before, done, day) && host !in done
    requires host in hosts && forall h :: h in done ==> h in hosts
    requires AllOthersSame(states, from, host, day.date) && AllSafe(states, codec, from, host, day)
    ensures AllSurvive(states, codec, before, hosts, day)
  {
    hide Safe, OthersSame, Progress, Survives, Valid;
    forall i | 0 <= i < |states|
      ensures Survives(states[i], codec, before, hosts, day)
    {
      OneHostInFlight(states[i], codec, from, before, done, host, hosts, day);
    }
  }

  lemma ProgressSurvives(files: Files, codec: Codec, before: Files, done: seq<string>, hosts: seq<string>, day: Time)
    requires ValidTime(day) && Progress(files, codec, before, done, day)
    requires forall h :: h in done ==> h in hosts
    ensures Survives(files, codec, before, hosts, day)
  {
    hide Writing, Archived, HostSame, OtherDaysSame, Valid;
    forall h | h in hosts && HostSame(files, before, h)
      ensures Safe(files, codec, before, h, day)
    {
      HostSameIsSafe(files, codec, before, h, day);
    }
  }

  lemma ProgressStart(files: Files, codec: Codec, day: Time)
    requires ValidTime(day)
    ensures Progress(files, codec, files, [], day)
  {
    hide Archived, Valid;
  }

  lemma AllSurviveAppend(a: seq<Files>, b: seq<Files>, codec: Codec, before: Files, hosts: seq<string>, day: Time)
    requires ValidTime(day)
    ensures AllSurvive([], codec, before, hosts, day)
    ensures AllSurvive(a, codec, before, hosts, day) && AllSurvive(b, codec, before, hosts, day)
        ==> AllSurvive(a + b, codec, before, hosts, day)
  {
    hide Survives, Valid;
  }

  /* ---- no line is lost ---- */

  /** What a run needs to lose nothing: hour files of whole lines, and no archive with lines of
      a host it works on. */
  ghost predicate Archivable(codec: Codec, files: Files, hosts: seq<string>, day: Time)
    requires ValidTime(day)
  {
    && ClockHours(files)
    && forall host :: host in hosts ==>
         TerminatedHours(files, host, day) && ArchivedLines(codec, files, host, day.date) == []
  }

  /** The files of a host but its day and meta file of the day: all its events are there. */
  function WithoutArchive(files: Files, host: string, date: Date): Files {
    OfHost(files, host) - {DayFile(host, date)} - {MetaFile(host, date)}
  }

  lemma ArchiveApart(codec: Codec, files: Files, host: string, date: Date)
    ensures KeptIn(codec, OfHost(files, host))
         == KeptIn(codec, WithoutArchive(files, host, date)) + Tagged(host, ArchivedLines(codec, files, host, date))
  {
    hide KeptIn, Lines, Tagged;
    var a, d, m := OfHost(files, host), DayFile(host, date), MetaFile(host, date);
    KeptSplit(codec, a, d);
    KeptSplit(codec, a - {d}, m);
    TaggedEmpty(host, []);
    assert KeptAt(codec, a - {d}, m) == multiset{};
    assert KeptAt(codec, a, d) == Tagged(host, ArchivedLines(codec, files, host, date));
  }

  /** The hour files of a day that are still there. */
  function HoursLeft(files: Files, host: string, date: Date): Files {
    map p | p in files && InDay(p, host, date) :: files[p]
  }

  /** What is held twice for one host: the lines both in the archive of the day and in its hour
      files. */
  ghost function Doubled(codec: Codec, files: Files, host: string, date: Date): multiset<Param> {
    Tagged(host, ArchivedLines(codec, files, host, date)) * KeptIn(codec, HoursLeft(files, host, date))
  }

  lemma IntactGrows(codec: Codec, files: Files, before: Files, host: string, date: Date)
    requires OtherDaysSame(files, before, host, date) && HoursIntact(files, before, host, date)
    ensures WithoutArchive(files, host, date) == WithoutArchive(before, host, date)
    ensures HoursLeft(files, host, date) == HoursLeft(before, host, date)
  {
    forall p: Path | p.host == host && p != DayFile(host, date) && p != MetaFile(host, date)
      ensures SameAt(files, before, p)
    {
      assert p.date == date ==> InDay(p, host, date);
    }
  }

  /** The hours of a day apart from the rest. */
  lemma HoursApart(codec: Codec, files: Files, host: string, date: Date)
    ensures var a := WithoutArchive(files, host, date);
            KeptIn(codec, a) == KeptIn(codec, HoursLeft(files, host, date)) + KeptIn(codec, RemoveDay(a, host, date))
  {
    hide KeptIn;
    var a := WithoutArchive(files, host, date);
    KeptUnion(codec, HoursLeft(files, host, date), RemoveDay(a, host, date));
    assert a == HoursLeft(files, host, date) + RemoveDay(a, host, date);
  }

  /** The hours of a day as lines of its content. */
  lemma HoursAsContent(codec: Codec, files: Files, host: string, day: Time)
    requires ValidTime(day) && ClockHours(files) && TerminatedHours(files, host, day)
    ensures var a := WithoutArchive(files, host, day.date);
            KeptIn(codec, a) == Tagged(host, Lines(DayText(files, host, day, HOURS)))
                                + KeptIn(codec, RemoveDay(a, host, day.date))
  {
    hide KeptIn, Lines, Tagged, Valid, AddHours, DayText, Entries, Terminated;
    var a := WithoutArchive(files, host, day.date);
    assert HoursIntact(a, files, host, day.date);
    HoursIntactSummary(a, files, host, day);
    forall k | 0 <= k < HOURS
      ensures HourText(a, host, day, k) == HourText(files, host, day, k)
    {
      assert SameAt(a, files, HourPath(host, day, k));
    }
    HoursMoveToDay(codec, a, host, day, HOURS);
    WithoutHoursIsRemoveDay(a, host, day);
  }

  lemma ArchivedGrows(codec: Codec, files: Files, before: Files, host: string, day: Time)
    requires ValidTime(day) && ClockHours(before) && TerminatedHours(before, host, day)
    requires ArchivedOnly(files, codec, before, host, day)
    ensures KeptIn(codec, OfHost(files, host))
         == KeptIn(codec, WithoutArchive(before, host, day.date)) + KeptIn(codec, HoursLeft(files, host, day.date))
  {
    hide KeptIn, Lines, Tagged, Valid, DayText, Entries, TerminatedHours, SummaryText;
    ArchiveApart(codec, files, host, day.date);
    HoursApart(codec, files, host, day.date);
    HoursAsContent(codec, before, host, day);
    OtherDaysRest(files, before, host, day.date);
  }

  lemma OtherDaysRest(files: Files, before: Files, host: string, date: Date)
    requires OtherDaysSame(files, before, host, date)
    ensures RemoveDay(WithoutArchive(files, host, date), host, date)
         == RemoveDay(WithoutArchive(before, host, date), host, date)
  {
    forall p: Path | p.host == host && p.date != date
      ensures SameAt(files, before, p)
    {
    }
  }

  lemma WritingKeeps(codec: Codec, files: Files, before: Files, host: string, day: Time)
    requires ValidTime(day) && ArchivedLines(codec, before, host, day.date) == []
    requires OtherDaysSame(files, before, host, day.date) && Writing(files, codec, before, host, day)
    ensures KeptIn(codec, OfHost(files, host))
         == KeptIn(codec, OfHost(before, host)) + Tagged(host, ArchivedLines(codec, files, host, day.date))
  {
    hide KeptIn, HoursIntact, PartWritten, OtherDaysSame, Valid, Tagged, WithoutArchive, ArchivedLines, DaySummaryOf;
    ArchiveApart(codec, before, host, day.date);
    TaggedEmpty(host, []);
    IntactGrows(codec, files, before, host, day.date);
    ArchiveApart(codec, files, host, day.date);
    NothingAdded(KeptIn(codec, WithoutArchive(before, host, day.date)));
  }

  lemma ArchivedKeeps(codec: Codec, files: Files, before: Files, host: string, day: Time)
    requires ValidTime(day) && ClockHours(before) && TerminatedHours(before, host, day)
    requires ArchivedLines(codec, before, host, day.date) == [] && ArchivedOnly(files, codec, before, host, day)
    ensures KeptIn(codec, OfHost(files, host))
         == KeptIn(codec, OfHost(before, host)) + KeptIn(codec, HoursLeft(files, host, day.date))
  {
    hide KeptIn, ArchivedOnly, TerminatedHours, ClockHours, Valid, Tagged, WithoutArchive, ArchivedLines, HoursLeft;
    ArchiveApart(codec, before, host, day.date);
    TaggedEmpty(host, []);
    ArchivedGrows(codec, files, before, host, day);
    NothingAdded(KeptIn(codec, WithoutArchive(before, host, day.date)));
  }

  lemma HostKeeps(codec: Codec, files: Files, before: Files, host: string, day: Time)
    requires ValidTime(day) && ClockHours(before) && TerminatedHours(before, host, day)
    requires ArchivedLines(codec, before, host, day.date) == [] && Safe(files, codec, before, host, day)
    ensures KeptIn(codec, OfHost(before, host)) <= KeptIn(codec, OfHost(files, host))
    ensures Writing(files, codec, before, host, day) ==>
      KeptIn(codec, OfHost(files, host))
      == KeptIn(codec, OfHost(before, host)) + Tagged(host, ArchivedLines(codec, files, host, day.date))
    ensures Archived(files, codec, before, host, day) ==>
      KeptIn(codec, OfHost(files, host))
      == KeptIn(codec, OfHost(before, host)) + KeptIn(codec, HoursLeft(files, host, day.date))
  {
    hide KeptIn, Writing, Archived, OtherDaysSame, TerminatedHours, Valid, Tagged, ArchivedLines, HoursLeft, ClockHours;
    if Writing(files, codec, before, host, day) {
      WritingKeeps(codec, files, before, host, day);
    }
    if Archived(files, codec, before, host, day) {
      ArchivedKeeps(codec, files, before, host, day);
    }
  }

  lemma CancelSum<T>(a: multiset<T>, b: multiset<T>, c: multiset<T>)
    requires a + c == b + c
    ensures a == b
  {
    assert a == (a + c) - c && b == (b + c) - c;
  }

  /** The lines of the day's content are those of its hour files. */
  lemma HoursAreContent(codec: Codec, files: Files, host: string, day: Time)
    requires ValidTime(day) && ClockHours(files) && TerminatedHours(files, host, day)
    ensures KeptIn(codec, HoursLeft(files, host, day.date)) == Tagged(host, Lines(DaySummaryOf(files, host, day).dayContent))
  {
    hide KeptIn, Lines, Tagged, Valid, DayText, SummaryText, Entries, TerminatedHours;
    HoursApart(codec, files, host, day.date);
    HoursAsContent(codec, files, host, day);
    CancelSum(KeptIn(codec, HoursLeft(files, host, day.date)), Tagged(host, Lines(DayText(files, host, day, HOURS))),
           KeptIn(codec, RemoveDay(WithoutArchive(files, host, day.date), host, day.date)));
  }

  lemma TaggedPrefix(host: string, a: seq<string>, b: seq<string>)
    requires a <= b
    ensures Tagged(host, a) <= Tagged(host, b)
  {
    hide Tagged;
    assert b == a + b[|a|..];
    TaggedAppend(host, a, b[|a|..]);
  }

  /** An archive that is being written holds nothing but first lines of the day's content. */
  lemma ArchivePart(codec: Codec, files: Files, before: Files, host: string, day: Time)
    requires ValidTime(day) && Streams(codec) && Writing(files, codec, before, host, day)
    requires ArchivedLines(codec, before, host, day.date) == []
    ensures ArchivedLines(codec, files, host, day.date) <= Lines(DaySummaryOf(before, host, day).dayContent)
  {
    hide DaySummaryOf, Valid, Lines, HoursIntact;
    var d, content := DayFile(host, day.date), DaySummaryOf(before, host, day).dayContent;
    if d in files && !SameAt(files, before, d) {
      assert UnpacksPart(codec, files[d], content);
      LinesPrefix(codec.decompress(files[d]), content);
    }
  }

  /** The hours deleted so far. */
  function Gone(files: Files, before: Files, host: string, date: Date): Files {
    HoursLeft(before, host, date) - HoursLeft(files, host, date).Keys
  }

  /** The hours that were there are those left and those gone. */
  lemma HoursGone(codec: Codec, files: Files, before: Files, host: string, date: Date)
    requires HoursAtMostGone(files, before, host, date)
    ensures KeptIn(codec, HoursLeft(before, host, date))
         == KeptIn(codec, Gone(files, before, host, date)) + KeptIn(codec, HoursLeft(files, host, date))
  {
    hide KeptIn;
    var left, was := HoursLeft(files, host, date), HoursLeft(before, host, date);
    forall p | p in left
      ensures p in was && was[p] == left[p]
    {
      assert SameAt(files, before, p);
    }
    KeptUnion(codec, was - left.Keys, left);
    assert was == (was - left.Keys) + left;
  }

  /** Which lines are held twice: while the archive is written those it has so far, after that
      those of the hours left. */
  lemma DoubledIs(codec: Codec, files: Files, before: Files, host: string, day: Time)
    requires ValidTime(day) && Streams(codec) && ClockHours(before) && TerminatedHours(before, host, day)
    requires ArchivedLines(codec, before, host, day.date) == []
    ensures Writing(files, codec, before, host, day) ==>
      Doubled(codec, files, host, day.date) == Tagged(host, ArchivedLines(codec, files, host, day.date))
    ensures Archived(files, codec, before, host, day) ==>
      Doubled(codec, files, host, day.date) == KeptIn(codec, HoursLeft(files, host, day.date))
  {
    hide KeptIn, Tagged, Lines, DaySummaryOf, TerminatedHours;
    hide Valid, PartWritten, ClockHours, HoursIntact, HoursAtMostGone, Streams;
    HoursAreContent(codec, before, host, day);
    var a, content := ArchivedLines(codec, files, host, day.date), Lines(DaySummaryOf(before, host, day).dayContent);
    if Writing(files, codec, before, host, day) {
      ArchivePart(codec, files, before, host, day);
      TaggedPrefix(host, a, content);
      IntactHours(files, before, host, day.date);
    }
    if Archived(files, codec, before, host, day) {
      HoursGone(codec, files, before, host, day.date);
    }
  }

  lemma IntactHours(files: Files, before: Files, host: string, date: Date)
    requires HoursIntact(files, before, host, date)
    ensures HoursLeft(files, host, date) == HoursLeft(before, host, date)
  {
    forall p | InDay(p, host, date)
      ensures SameAt(files, before, p)
    {
    }
  }

  /** What a host's files hold in a safe state: every event as often as before, and the doubled
      ones once more. */
  lemma HostGrows(codec: Codec, files: Files, before: Files, host: string, day: Time)
    requires ValidTime(day) && Streams(codec) && ClockHours(before) && TerminatedHours(before, host, day)
    requires ArchivedLines(codec, before, host, day.date) == [] && Safe(files, codec, before, host, day)
    ensures KeptIn(codec, OfHost(files, host))
         == KeptIn(codec, OfHost(before, host)) + Doubled(codec, files, host, day.date)
  {
    hide KeptIn, Writing, Archived, OtherDaysSame, TerminatedHours, Valid, Tagged, ArchivedLines, Doubled, Streams;
    HostKeeps(codec, files, before, host, day);
    DoubledIs(codec, files, before, host, day);
  }

  /** No line is lost: in every state an archive run can leave, on the way or after an error,
      each event is held at least as often as before. */
  lemma SurvivingKeeps(codec: Codec, files: Files, before: Files, hosts: seq<string>, day: Time)
    requires ValidTime(day) && Archivable(codec, before, hosts, day) && Survives(files, codec, before, hosts, day)
    ensures KeptIn(codec, before) <= KeptIn(codec, files)
  {
    hide KeptIn, Safe, TerminatedHours, ArchivedLines, Valid;
    forall e: Param
      ensures KeptIn(codec, before)[e] <= KeptIn(codec, files)[e]
    {
      var host := if e.Values? then e.key else "";
      KeptOfHost(codec, before, host, e);
      KeptOfHost(codec, files, host, e);
      if host in hosts {
        HostKeeps(codec, files, before, host, day);
      } else {
        SameHostFiles(files, before, host);
      }
    }
  }

  lemma SameHostFiles(files: Files, before: Files, host: string)
    requires HostSame(files, before, host)
    ensures OfHost(files, host) == OfHost(before, host)
  {
    forall p: Path | p.host == host
      ensures SameAt(files, before, p)
    {
    }
  }

  ghost predicate AllKeep(codec: Codec, states: seq<Files>, before: Files) {
    forall i :: 0 <= i < |states| ==> KeptIn(codec, before) <= KeptIn(codec, states[i])
  }

  lemma AllSurvivingKeep(codec: Codec, states: seq<Files>, before: Files, hosts: seq<string>, day: Time)
    requires ValidTime(day) && Archivable(codec, before, hosts, day) && AllSurvive(states, codec, before, hosts, day)
    ensures AllKeep(codec, states, before)
  {
    hide KeptIn, Survives, Archivable, Valid;
    forall i | 0 <= i < |states|
      ensures KeptIn(codec, before) <= KeptIn(codec, states[i])
    {
      SurvivingKeeps(codec, states[i], before, hosts, day);
    }
  }

  /* ---- nothing more is held ---- */

  /** What a run holds twice for all its hosts. */
  ghost function AllDoubled(codec: Codec, files: Files, hosts: seq<string>, date: Date): multiset<Param>
    decreases hosts
  {
    if hosts == [] then multiset{}
    else Doubled(codec, files, hosts[0], date) + AllDoubled(codec, files, hosts[1..], date)
  }

  lemma DoubledOfHost(codec: Codec, files: Files, host: string, date: Date, e: Param)
    requires e.Values? ==> e.key != host
    ensures Doubled(codec, files, host, date)[e] == 0
  {
    hide KeptIn, Tagged, Lines;
    TaggedCount(host, ArchivedLines(codec, files, host, date), e);
  }

  lemma {:induction false} AllDoubledAt(codec: Codec, files: Files, hosts: seq<string>, date: Date, e: Param)
    requires Distinct(hosts)
    ensures AllDoubled(codec, files, hosts, date)[e]
         == if e.Values? && e.key in hosts then Doubled(codec, files, e.key, date)[e] else 0
    decreases hosts
  {
    hide Doubled, Distinct;
    if hosts != [] {
      DistinctRest(hosts);
      AllDoubledAt(codec, files, hosts[1..], date, e);
      if !(e.Values? && e.key == hosts[0]) {
        DoubledOfHost(codec, files, hosts[0], date, e);
      }
    }
  }

  /** The exact account of an archive run: in every state it can leave, the files hold what they
      held before, and the doubled events once more. */
  lemma SurvivingGrows(codec: Codec, files: Files, before: Files, hosts: seq<string>, day: Time)
    requires ValidTime(day) && Distinct(hosts) && Streams(codec)
    requires Archivable(codec, before, hosts, day) && Survives(files, codec, before, hosts, day)
    ensures KeptIn(codec, files) == KeptIn(codec, before) + AllDoubled(codec, files, hosts, day.date)
  {
    hide KeptIn, Safe, TerminatedHours, ArchivedLines, Valid, AllDoubled, Doubled, Streams;
    forall e: Param
      ensures KeptIn(codec, files)[e]
           == KeptIn(codec, before)[e] + AllDoubled(codec, files, hosts, day.date)[e]
    {
      var host := if e.Values? then e.key else "";
      KeptOfHost(codec, before, host, e);
      KeptOfHost(codec, files, host, e);
      AllDoubledAt(codec, files, hosts, day.date, e);
      if host in hosts {
        HostGrows(codec, files, before, host, day);
      } else {
        SameHostFiles(files, before, host);
      }
    }
  }

  /** Nothing of the host is held twice: no line is archived, or no hour with a line is left. */
  predicate OnceOnly(codec: Codec, files: Files, host: string, date: Date) {
    || ArchivedLines(codec, files, host, date) == []
    || forall p :: p in files && InDay(p, host, date) ==> Lines(files[p]) == []
  }

  lemma NoHourLinesIff(codec: Codec, files: Files, host: string, date: Date)
    ensures KeptIn(codec, HoursLeft(files, host, date)) == multiset{}
       <==> forall p :: p in files && InDay(p, host, date) ==> Lines(files[p]) == []
  {
    hide KeptIn, Tagged, Lines;
    var left := HoursLeft(files, host, date);
    NothingKeptIff(codec, left);
    forall p | p in left
      ensures Kept(codec, p, left[p]) == multiset{} <==> Lines(left[p]) == []
    {
      TaggedEmpty(host, Lines(left[p]));
    }
    assert forall p :: p in files && InDay(p, host, date) <==> p in left;
  }

  lemma DoubledIff(codec: Codec, files: Files, before: Files, host: string, day: Time)
    requires ValidTime(day) && Streams(codec) && ClockHours(before) && TerminatedHours(before, host, day)
    requires ArchivedLines(codec, before, host, day.date) == [] && Safe(files, codec, before, host, day)
    ensures Doubled(codec, files, host, day.date) == multiset{} <==> OnceOnly(codec, files, host, day.date)
  {
    hide KeptIn, Tagged, Lines, Writing, Archived, OtherDaysSame;
    hide TerminatedHours, Valid, ArchivedLines, Streams, ClockHours, HoursLeft;
    TaggedEmpty(host, ArchivedLines(codec, files, host, day.date));
    NoHourLinesIff(codec, files, host, day.date);
    DoubledIs(codec, files, before, host, day);
  }

  /** Nothing of any host is held twice. */
  predicate AllOnceOnly(codec: Codec, files: Files, hosts: seq<string>, date: Date) {
    forall h :: h in hosts ==> OnceOnly(codec, files, h, date)
  }

  lemma {:induction false} NoneDoubled(codec: Codec, files: Files, hosts: seq<string>, date: Date)
    ensures AllDoubled(codec, files, hosts, date) == multiset{}
       <==> forall h :: h in hosts ==> Doubled(codec, files, h, date) == multiset{}
    decreases hosts
  {
    hide Doubled;
    if hosts != [] {
      NoneDoubled(codec, files, hosts[1..], date);
      assert forall h :: h in hosts <==> h == hosts[0] || h in hosts[1..];
    }
  }

  lemma AllDoubledIff(codec: Codec, files: Files, before: Files, hosts: seq<string>, day: Time)
    requires ValidTime(day) && Streams(codec)
    requires Archivable(codec, before, hosts, day) && Survives(files, codec, before, hosts, day)
    ensures AllDoubled(codec, files, hosts, day.date) == multiset{} <==> AllOnceOnly(codec, files, hosts, day.date)
  {
    hide AllDoubled, Doubled, OnceOnly, Safe, TerminatedHours, ArchivedLines, Valid, Streams;
    NoneDoubled(codec, files, hosts, day.date);
    forall h | h in hosts
      ensures Doubled(codec, files, h, day.date) == multiset{} <==> OnceOnly(codec, files, h, day.date)
    {
      DoubledIff(codec, files, before, h, day);
    }
  }

  /** The files of a run's host days. */
  function OfRun(files: Files, hosts: seq<string>, date: Date): Files {
    map p | p in files && p.host in hosts && p.date == date :: files[p]
  }

  /** What is doubled is held at least twice by the files of the run's host days. */
  lemma DoubledIsTwice(codec: Codec, files: Files, hosts: seq<string>, date: Date)
    requires Distinct(hosts)
    ensures AllDoubled(codec, files, hosts, date) + AllDoubled(codec, files, hosts, date)
         <= KeptIn(codec, OfRun(files, hosts, date))
  {
    hide KeptIn, AllDoubled, Tagged, Lines, OfRun, ArchivedLines, HoursLeft;
    forall e
      ensures 2 * AllDoubled(codec, files, hosts, date)[e] <= KeptIn(codec, OfRun(files, hosts, date))[e]
    {
      AllDoubledAt(codec, files, hosts, date, e);
      if e.Values? && e.key in hosts {
        KeptOfHost(codec, OfRun(files, hosts, date), e.key, e);
        ArchiveApart(codec, OfRun(files, hosts, date), e.key, date);
        RunOfHost(codec, files, hosts, e.key, date);
      }
    }
  }

  lemma RunOfHost(codec: Codec, files: Files, hosts: seq<string>, host: string, date: Date)
    requires host in hosts
    ensures WithoutArchive(OfRun(files, hosts, date), host, date) == HoursLeft(files, host, date)
    ensures ArchivedLines(codec, OfRun(files, hosts, date), host, date) == ArchivedLines(codec, files, host, date)
  {
    hide Lines;
  }

  /* ---- writes beside the run ---- */

  /** A write to another day, during the run: the state it leaves is one the run can leave if it
      had started with that write done. */
  lemma WriteKeepsSurvives(codec: Codec, files: Files, before: Files, hosts: seq<string>, day: Time, p: Path, text: string)
    requires ValidTime(day) && Survives(files, codec, before, hosts, day) && p.date != day.date
    ensures Survives(Append(files, p, text), codec, Append(before, p, text), hosts, day)
  {
    hide Append, Valid, Safe, HostSame;
    forall host
      ensures if host in hosts then Safe(Append(files, p, text), codec, Append(before, p, text), host, day)
              else HostSame(Append(files, p, text), Append(before, p, text), host)
    {
      if host in hosts {
        WriteKeepsSafe(codec, files, before, host, day, p, text);
      } else {
        WriteKeepsHost(files, before, host, p, text);
      }
    }
  }

  lemma WriteKeepsSame(files: Files, before: Files, p: Path, text: string, q: Path)
    requires SameAt(files, before, q)
    ensures SameAt(Append(files, p, text), Append(before, p, text), q)
  {
  }

  lemma WriteElsewhere(files: Files, p: Path, text: string, q: Path)
    requires q != p
    ensures SameAt(Append(files, p, text), files, q)
  {
  }

  lemma WriteKeepsHost(files: Files, before: Files, host: string, p: Path, text: string)
    requires HostSame(files, before, host)
    ensures HostSame(Append(files, p, text), Append(before, p, text), host)
  {
    hide Append;
    forall q: Path | q.host == host
      ensures SameAt(Append(files, p, text), Append(before, p, text), q)
    {
      WriteKeepsSame(files, before, p, text, q);
    }
  }

  lemma WriteKeepsSafe(codec: Codec, files: Files, before: Files, host: string, day: Time, p: Path, text: string)
    requires ValidTime(day) && Safe(files, codec, before, host, day) && p.date != day.date
    ensures Safe(Append(files, p, text), codec, Append(before, p, text), host, day)
  {
    hide Append, Valid, DaySummaryOf;
    var a, b := Append(files, p, text), Append(before, p, text);
    forall q
      ensures SameAt(files, before, q) ==> SameAt(a, b, q)
      ensures q.date == day.date ==> SameAt(a, files, q) && SameAt(b, before, q)
    {
      if SameAt(files, before, q) {
        WriteKeepsSame(files, before, p, text, q);
      }
      if q.date == day.date {
        WriteElsewhere(files, p, text, q);
        WriteElsewhere(before, p, text, q);
      }
    }
    HoursIntactSummary(b, before, host, day);
    assert SameAt(a, files, DayFile(host, day.date)) && SameAt(a, files, MetaFile(host, day.date));
  }
}
