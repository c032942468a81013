/** Archiving again after an error: what a second run over the same day gives back. */
module Retry {
  import opened Text
  import opened Calendar
  import opened Paths
  import opened Batch
  import opened Archive
  import opened Ledger
  import opened Safety

  /** No hour with a line has been deleted. */
  predicate NoLineGone(files: Files, before: Files, host: string, date: Date) {
    forall p :: p in before && p !in files && InDay(p, host, date) ==> Lines(before[p]) == []
  }

  lemma SafeHours(files: Files, codec: Codec, before: Files, host: string, day: Time)
    requires ValidTime(day) && Safe(files, codec, before, host, day)
    ensures HoursAtMostGone(files, before, host, day.date) && OtherDaysSame(files, before, host, day.date)
  {
    hide DaySummaryOf, Valid;
  }

  /** The hours of a state on the way can be archived at any clock hour. */
  lemma HoursStillTerminated(files: Files, before: Files, host: string, day: Time, again: Time)
    requires ValidTime(day) && ValidTime(again) && again.date == day.date
    requires HoursAtMostGone(files, before, host, day.date) && TerminatedHours(before, host, day)
    ensures TerminatedHours(files, host, again)
  {
    hide Valid, AddHours, Terminated;
    EmptyTerminated();
    forall k | 0 <= k < HOURS
      ensures Terminated(HourText(files, host, again, k))
    {
      var p := HourPath(host, again, k);
      EveryHourOnce(day, p.hour);
      assert p == HourPath(host, day, (p.hour + HOURS - day.hour) % HOURS);
      assert Terminated(HourText(before, host, day, (p.hour + HOURS - day.hour) % HOURS));
      assert p in files ==> SameAt(files, before, p);
    }
  }

  /** Archiving a host again: what its deleted hours held is lost with the old archive, and
      nothing else. */
  lemma RetryOfHost(codec: Codec, files: Files, before: Files, host: string, day: Time, again: Time)
    requires Lossless(codec) && ValidTime(day) && ValidTime(again) && again.date == day.date
    requires ClockHours(before) && ClockHours(files) && TerminatedHours(before, host, day)
    requires ArchivedLines(codec, before, host, day.date) == [] && Safe(files, codec, before, host, day)
    ensures KeptIn(codec, OfHost(before, host))
         == KeptIn(codec, OfHost(ArchiveHost(codec, files, host, again), host))
            + KeptIn(codec, Gone(files, before, host, day.date))
  {
    hide KeptIn, Lines, Tagged, Valid, HoursAtMostGone, OtherDaysSame, Safe, TerminatedHours, DaySummaryOf, Lossless;
    hide ClockHours, WithoutArchive, HoursLeft, ArchivedLines, ArchiveHost;
    var date, t := day.date, ArchiveHost(codec, files, host, again);
    SafeHours(files, codec, before, host, day);
    HoursStillTerminated(files, before, host, day, again);
    ArchivedAgain(codec, files, host, again);
    ArchiveApart(codec, t, host, date);
    HoursAreContent(codec, files, host, again);
    ArchiveApart(codec, before, host, date);
    TaggedEmpty(host, []);
    HoursApart(codec, before, host, date);
    OtherDaysRest(files, before, host, date);
    HoursGone(codec, files, before, host, date);
    RetrySum(KeptIn(codec, Gone(files, before, host, date)), KeptIn(codec, HoursLeft(files, host, date)),
             KeptIn(codec, RemoveDay(WithoutArchive(before, host, date), host, date)));
  }

  lemma RetrySum<T>(gone: multiset<T>, left: multiset<T>, rest: multiset<T>)
    ensures (gone + left) + rest == (rest + left) + gone
    ensures (gone + left) + rest + multiset{} == (rest + left) + gone
  {
  }

  lemma ArchivedAgain(codec: Codec, files: Files, host: string, day: Time)
    requires Lossless(codec) && ValidTime(day)
    ensures var t := ArchiveHost(codec, files, host, day);
            && WithoutArchive(t, host, day.date) == RemoveDay(WithoutArchive(files, host, day.date), host, day.date)
            && ArchivedLines(codec, t, host, day.date) == Lines(DaySummaryOf(files, host, day).dayContent)
  {
    hide DaySummaryOf, Valid, Lines;
    var content := DaySummaryOf(files, host, day).dayContent;
    assert Unpacks(codec, codec.compress(content), content);
  }

  lemma SurvivingClockHours(files: Files, codec: Codec, before: Files, hosts: seq<string>, day: Time)
    requires ValidTime(day) && ClockHours(before) && Survives(files, codec, before, hosts, day)
    ensures ClockHours(files)
  {
    hide Safe, Valid;
    forall p | p in files && p.HourFile?
      ensures SameAt(files, before, p)
    {
      var host := p.host;
      assert if host in hosts then Safe(files, codec, before, host, day) else HostSame(files, before, host);
      if host in hosts {
        SafeHours(files, codec, before, host, day);
        assert p.date == day.date ==> InDay(p, host, day.date);
      }
    }
  }

  /** The files of a host after all hosts are archived are those after it alone is. */
  lemma OthersDoNotMatter(codec: Codec, files: Files, hosts: seq<string>, host: string, day: Time)
    requires ValidTime(day) && Distinct(hosts)
    ensures var t := ArchiveHosts(codec, files, hosts, day);
            OfHost(t, host) == if host in hosts then OfHost(ArchiveHost(codec, files, host, day), host) else OfHost(files, host)
  {
    hide DaySummaryOf, Valid, ArchiveHosts, ArchiveHost, Distinct;
    var t, u := ArchiveHosts(codec, files, hosts, day), ArchiveHost(codec, files, host, day);
    forall p: Path | p.host == host
      ensures if host in hosts then SameAt(t, u, p) else SameAt(t, files, p)
    {
      ArchiveHostsAt(codec, files, hosts, day, p);
      ArchiveHostAt(codec, files, host, day, p);
    }
  }

  /** Archiving all hosts again, event by event. */
  lemma RetryAt(codec: Codec, files: Files, before: Files, hosts: seq<string>, day: Time, again: Time, e: Param)
    requires Lossless(codec) && ValidTime(day) && ValidTime(again) && again.date == day.date && Distinct(hosts)
    requires Archivable(codec, before, hosts, day) && Survives(files, codec, before, hosts, day)
    ensures KeptIn(codec, before)[e]
         == KeptIn(codec, ArchiveHosts(codec, files, hosts, again))[e]
            + (if e.Values? && e.key in hosts then KeptIn(codec, Gone(files, before, e.key, day.date))[e] else 0)
  {
    hide KeptIn, Safe, TerminatedHours, ArchivedLines, Valid, Lossless, Distinct, Gone, OfHost, ClockHours;
    hide ArchiveHosts, ArchiveHost;
    var host, t := if e.Values? then e.key else "", ArchiveHosts(codec, files, hosts, again);
    SurvivingClockHours(files, codec, before, hosts, day);
    KeptOfHost(codec, before, host, e);
    KeptOfHost(codec, t, host, e);
    OthersDoNotMatter(codec, files, hosts, host, again);
    if host in hosts {
      RetryOfHost(codec, files, before, host, day, again);
    } else {
      SameHostFiles(files, before, host);
    }
  }

  lemma GoneIff(codec: Codec, files: Files, before: Files, host: string, date: Date)
    ensures KeptIn(codec, Gone(files, before, host, date)) == multiset{} <==> NoLineGone(files, before, host, date)
  {
    hide KeptIn, Tagged, Lines;
    var gone := Gone(files, before, host, date);
    NothingKeptIff(codec, gone);
    forall p | p in gone
      ensures Kept(codec, p, gone[p]) == multiset{} <==> Lines(gone[p]) == []
    {
      TaggedEmpty(host, Lines(gone[p]));
    }
    assert forall p :: p in before && p !in files && InDay(p, host, date) <==> p in gone;
  }

  lemma GoneOfHost(codec: Codec, files: Files, before: Files, host: string, date: Date, e: Param)
    requires e.Values? ==> e.key != host
    ensures KeptIn(codec, Gone(files, before, host, date))[e] == 0
  {
    hide KeptIn;
    var gone := Gone(files, before, host, date);
    if e.Values? {
      KeptOfHost(codec, gone, e.key, e);
      NothingKeptIff(codec, OfHost(gone, e.key));
      assert OfHost(gone, e.key) == map[];
    } else {
      KeptOfHost(codec, gone, host, e);
    }
  }

  /** A retry after an error, at any hour: from whatever state the failed run left, archiving its
      hosts again gives back exactly the events of its start if and only if it had not deleted an
      hour with a line. */
  lemma RetryKeepsIff(codec: Codec, files: Files, before: Files, hosts: seq<string>, day: Time, again: Time)
    requires Lossless(codec) && ValidTime(day) && ValidTime(again) && again.date == day.date && Distinct(hosts)
    requires Archivable(codec, before, hosts, day) && Survives(files, codec, before, hosts, day)
    ensures KeptIn(codec, ArchiveHosts(codec, files, hosts, again)) == KeptIn(codec, before)
       <==> forall h :: h in hosts ==> NoLineGone(files, before, h, day.date)
  {
    hide KeptIn, Survives, Archivable, Valid, Lossless, Distinct, Gone, ArchiveHosts, NoLineGone;
    var t := ArchiveHosts(codec, files, hosts, again);
    forall h | h in hosts
      ensures KeptIn(codec, Gone(files, before, h, day.date)) == multiset{} <==> NoLineGone(files, before, h, day.date)
    {
      GoneIff(codec, files, before, h, day.date);
    }
    if forall h :: h in hosts ==> NoLineGone(files, before, h, day.date) {
      forall e
        ensures KeptIn(codec, t)[e] == KeptIn(codec, before)[e]
      {
        RetryAt(codec, files, before, hosts, day, again, e);
      }
    } else {
      var h :| h in hosts && !NoLineGone(files, before, h, day.date);
      var e :| e in KeptIn(codec, Gone(files, before, h, day.date));
      if !(e.Values? && e.key == h) {
        GoneOfHost(codec, files, before, h, day.date, e);
      }
      RetryAt(codec, files, before, hosts, day, again, e);
    }
  }
}
