/** The file operations of backup/backup.go and backup/archive.go as they run: each step can
    fail, and every state the directory passes through is recorded, so that what a crash or an
    error leaves behind can be stated. */
module Disks {
  import opened Text
  import opened Calendar
  import opened Paths
  import opened Archive
  import opened Ledger
  import opened Safety

  datatype ReadResult = Found(text: string) | NotExist | Failed

  class Disk {
    var files: Files
    ghost var history: seq<Files>
    /** How many operations have failed so far. */
    ghost var errors: nat

    constructor ()
      ensures files == map[] && history == [] && errors == 0
    {
      files := map[];
      history := [];
      errors := 0;
    }

    /** `readAll`. */
    method ReadAll(p: Path) returns (r: ReadResult)
      modifies `errors
      ensures errors == old(errors) + if r.Failed? then 1 else 0
      ensures r.Found? ==> p in files && r.text == files[p]
      ensures r.NotExist? ==> p !in files
    {
      var ok: bool := *;
      if !ok {
        errors := errors + 1;
        return Failed;
      }
      if p !in files {
        return NotExist;
      }
      return Found(files[p]);
    }

    /** A change to one file, recorded. */
    method Put(p: Path, text: string)
      modifies `files, `history
      ensures files == old(files)[p := text]
      ensures history == old(history) + [files]
    {
      files := files[p := text];
      history := history + [files];
    }

    method Remove(p: Path)
      modifies `files, `history
      ensures files == old(files) - {p}
      ensures history == old(history) + [files]
    {
      files := files - {p};
      history := history + [files];
    }

    /** `appendToFile`, taken to complete. */
    method AppendToFile(p: Path, text: string)
      modifies `files, `history
      ensures files == Append(old(files), p, text)
      ensures history == old(history) + [files]
    {
      Put(p, (if p in files then files[p] else "") + text);
    }

    /** The compressed text, or after a failure a front part of it. */
    method Pack(p: Path, text: string, codec: Codec) returns (ok: bool, flushed: bool)
      modifies this
      ensures p in files && files[p] <= codec.compress(text) && files == old(files)[p := files[p]]
      ensures ok && flushed ==> files[p] == codec.compress(text)
      ensures history == old(history) + [files]
      ensures errors == old(errors) + if ok && flushed then 0 else 1
    {
      var packed := codec.compress(text);
      assert packed[..|packed|] == packed;
      ok, flushed := *, *;
      errors := if ok && flushed then errors else errors + 1;
      var n :| 0 <= n <= |packed| && (ok && flushed ==> n == |packed|);
      Put(p, packed[..n]);
    }

    /** `openFile`: the old file is removed and a new one created, with nothing in it. */
    method OpenFile(p: Path) returns (ok: bool)
      modifies this
      ensures OnlyAt(files, old(files), p, "")
      ensures ok ==> files == old(files)[p := ""]
      ensures old(history) <= history
      ensures AllOnlyAt(history[|old(history)|..], old(files), p, "")
      ensures errors == old(errors) + if ok then 0 else 1
    {
      hide OnlyAt, AllOnlyAt;
      ghost var before, h0 := files, history;
      NothingWritten(before, p);
      assert history[|h0|..] == [];
      ok := *;
      if ok && p in files {
        Remove(p);
        OneMore([], files, before, before, p, "");
        assert history[|h0|..] == [] + [files];
        ok := *;
      }
      if !ok {
        errors := errors + 1;
        return;
      }
      ghost var f1, h1 := files, history;
      Put(p, "");
      OneMore(h1[|h0|..], files, f1, before, p, "");
      assert history[|h0|..] == h1[|h0|..] + [files];
    }

    /** `writeToFile`: a new file with the compressed text. Any step can fail; the file is then as
        before, gone, or holds a front part of the compressed text. A failed `Close` is only
        logged: `flushed` says whether the bytes arrived. */
    method WriteToFile(p: Path, text: string, codec: Codec) returns (ok: bool, flushed: bool)
      modifies this
      ensures OnlyAt(files, old(files), p, codec.compress(text))
      ensures ok && flushed ==> files == old(files)[p := codec.compress(text)]
      ensures old(history) <= history
      ensures AllOnlyAt(history[|old(history)|..], old(files), p, codec.compress(text))
      ensures errors >= old(errors) && (ok && flushed <==> errors == old(errors))
    {
      hide OnlyAt, AllOnlyAt;
      ghost var before, h0, packed := files, history, codec.compress(text);
      ok := OpenFile(p);
      NothingOrMore(files, history[|h0|..], before, p, packed);
      if !ok {
        return false, true;
      }
      var able: bool := *;
      if !able {
        errors := errors + 1;
        return false, true;
      }
      ghost var f1, h1 := files, history;
      ok, flushed := Pack(p, text, codec);
      OneMore(h1[|h0|..], files, f1, before, p, packed);
      assert history[|h0|..] == h1[|h0|..] + [files];
    }

    /** `os.RemoveAll` of a day directory: one file after another, in any order; it can stop
        with an error on the way. */
    method RemoveAll(host: string, date: Date) returns (ok: bool)
      modifies this
      ensures ok ==> files == RemoveDay(old(files), host, date)
      ensures DayDeleted(files, old(files), host, date)
      ensures old(history) <= history
      ensures AllDayDeleted(history[|old(history)|..], old(files), host, date)
      ensures errors == old(errors) + if ok then 0 else 1
    {
      var left := set p | p in files && InDay(p, host, date);
      while left != {}
        invariant left == set p | p in files && InDay(p, host, date)
        invariant DayDeleted(files, old(files), host, date)
        invariant old(history) <= history
        invariant AllDayDeleted(history[|old(history)|..], old(files), host, date)
        invariant errors == old(errors)
        decreases left
      {
        var able: bool := *;
        if !able {
          errors := errors + 1;
          return false;
        }
        var p :| p in left;
        Remove(p);
        left := left - {p};
      }
      assert files == RemoveDay(old(files), host, date) by {
        forall q
          ensures q in files <==> q in old(files) && !InDay(q, host, date)
          ensures q in files ==> files[q] == old(files)[q]
        {
          assert !InDay(q, host, date) ==> SameAt(files, old(files), q);
          assert q in files && InDay(q, host, date) ==> q in left;
        }
      }
      return true;
    }

    /** `collectHours`. */
    method CollectHours(host: string, day: Time) returns (r: Option<DaySummary>)
      requires ValidTime(day)
      modifies `errors
      ensures r.Some? ==> r.value == DaySummaryOf(files, host, day)
      ensures errors == old(errors) + if r.Some? then 0 else 1
    {
      hide DayText, Total, Entries, SummaryText, Split, Itoa, Valid, HourText, HoursRead;
      var dayContent, summary := "", "";
      var total := 0;
      ghost var es: seq<Entry> := [];
      SummaryEmpty();
      NoHours(files, host, day);
      for hour := 0 to HOURS
        invariant dayContent == DayText(files, host, day, hour)
        invariant total == Total(files, host, day, hour)
        invariant errors == old(errors)
        invariant es == Entries(files, host, day, hour) && summary == SummaryText(es)
      {
        var read := ReadAll(HourPath(host, day, hour));
        if read.Failed? {
          return None;
        }
        var lines := if read.Found? then read.text else "";
        IsHourText(files, host, day, hour, lines);
        OneHour(files, host, day, hour + 1);
        if lines == "" {
          continue;
        }
        dayContent := dayContent + lines;
        var linesCount := CountLines(lines);
        SummarySnoc(es, Entry(hour, total + 1, total + linesCount));
        summary := summary + Itoa(hour) + "," + Itoa(total + 1) + "," + Itoa(total + linesCount) + "\n";
        es := es + [Entry(hour, total + 1, total + linesCount)];
        total := total + linesCount;
      }
      return Some(DaySummary(dayContent, summary));
    }

    /** `archiveHost`, with every failure it can meet. When both files are flushed, every state
        on the way and at the end, error or not, has the hour files intact or the archive
        complete; a run without an error does exactly what `Archive.ArchiveHost` says. */
    method ArchiveHost(host: string, day: Time, codec: Codec) returns (ok: bool, flushed: bool)
      requires ValidTime(day) && Lossless(codec)
      modifies this
      ensures ok && flushed ==> files == Archive.ArchiveHost(codec, old(files), host, day)
      ensures flushed ==> Safe(files, codec, old(files), host, day)
      ensures old(history) <= history
      ensures flushed ==> AllSafe(history[|old(history)|..], codec, old(files), host, day)
      ensures OthersSame(files, old(files), host, day.date)
      ensures AllOthersSame(history[|old(history)|..], old(files), host, day.date)
      ensures errors >= old(errors) && (ok && flushed <==> errors == old(errors))
    {
      hide DaySummaryOf, Valid, OnlyAt, DayDeleted, Writing, Archived, OthersSame, OtherDaysSame, RemoveDay;
      hide AllOnlyAt, AllDayDeleted, AllSafe, AllOthersSame, Archive.ArchiveHost;
      flushed := true;
      ghost var before, h0 := files, history;
      NothingDone(files, codec, host, day);
      OthersAndOtherDays(files, before, host, day.date);
      assert history[|h0|..] == [];
      var stat: bool := *;
      if !stat {
        errors := errors + 1;
        return false, true;
      }
      var summary := CollectHours(host, day);
      if summary == None {
        return false, true;
      }
      var d, m := DayFile(host, day.date), MetaFile(host, day.date);
      ghost var packed, index := codec.compress(summary.value.dayContent), summary.value.summary;
      ok, flushed := WriteToFile(d, summary.value.dayContent, codec);
      ghost var first, h1 := files, history;
      WritingIsSafe(files, codec, before, before, d, packed, host, day);
      OthersAndOtherDays(files, before, host, day.date);
      WritesAreSafe(history[|h0|..], codec, before, before, d, packed, host, day);
      if !ok {
        return;
      }
      var metaFlushed;
      ok, metaFlushed := WriteToFile(m, summary.value.summary, Codec(s => s, s => s, ""));
      flushed := flushed && metaFlushed;
      ghost var second, h2 := files, history;
      WritingIsSafe(files, codec, first, before, m, index, host, day);
      OthersAndOtherDays(files, before, host, day.date);
      WritesAreSafe(history[|h1|..], codec, first, before, m, index, host, day);
      AllAppend(h1[|h0|..], history[|h1|..], codec, before, host, day);
      assert history[|h0|..] == h1[|h0|..] + history[|h1|..];
      if !ok {
        return;
      }
      if flushed {
        WrittenIsArchived(codec, before, host, day);
      }
      ok := RemoveAll(host, day.date);
      DeletingIsSafe(files, codec, second, before, host, day);
      OthersAndOtherDays(files, before, host, day.date);
      DeletesAreSafe(history[|h2|..], codec, second, before, host, day);
      AllAppend(h2[|h0|..], history[|h2|..], codec, before, host, day);
      assert history[|h0|..] == h2[|h0|..] + history[|h2|..];
      if ok && flushed {
        RemovedAfterWriting(codec, before, host, day);
      }
    }
  }

  /** The directories of the backup directory. */
  function HostsOf(files: Files): set<string> {
    set p | p in files :: p.host
  }

  predicate Lists(hosts: seq<string>, names: set<string>) {
    Distinct(hosts) && (set h | h in hosts) == names
  }

  /** `os.ReadDir`: every directory once; nothing here depends on the order. */
  method ReadDir(files: Files) returns (hosts: seq<string>)
    ensures Lists(hosts, HostsOf(files))
  {
    hosts := [];
    var left := HostsOf(files);
    while left != {}
      invariant Distinct(hosts)
      invariant (set h | h in hosts) + left == HostsOf(files)
      invariant forall h :: h in hosts ==> h !in left
      decreases left
    {
      var host :| host in left;
      hosts := hosts + [host];
      left := left - {host};
      assert (set h | h in hosts) + left == HostsOf(files);
    }
  }

  /** `archiveDay`: every host in turn, until the first error. When all files are flushed, in
      every state on the way and at the end each host has its hour files intact or its archive
      complete, and hosts not listed are untouched. So no event is lost, if no host comes with
      an archive of the day that has lines already. */
  method ArchiveDay(disk: Disk, day: Time, codec: Codec) returns (ok: bool, flushed: bool, hosts: seq<string>)
    requires ValidTime(day) && Lossless(codec)
    modifies disk
    ensures disk.errors >= old(disk.errors) && (ok && flushed <==> disk.errors == old(disk.errors))
    ensures Distinct(hosts) && (ok ==> Lists(hosts, HostsOf(old(disk.files))))
    ensures ok && flushed ==> disk.files == ArchiveHosts(codec, old(disk.files), hosts, day)
    ensures old(disk.history) <= disk.history
    ensures flushed ==> Survives(disk.files, codec, old(disk.files), hosts, day)
    ensures flushed ==> AllSurvive(disk.history[|old(disk.history)|..], codec, old(disk.files), hosts, day)
    ensures flushed && Archivable(codec, old(disk.files), hosts, day) ==>
      && KeptIn(codec, old(disk.files)) <= KeptIn(codec, disk.files)
      && AllKeep(codec, disk.history[|old(disk.history)|..], old(disk.files))
  {
    hide Progress, Survives, AllSurvive, AllSafe, AllOthersSame, OthersSame, Safe, Archived, KeptIn, Archivable, AllKeep;
    hide Archive.ArchiveHost, Lossless, HostsOf, Valid;
    ghost var before, h0 := disk.files, disk.history;
    ok, flushed, hosts := ArchiveHostsInTurn(disk, day, codec);
    if flushed && Archivable(codec, before, hosts, day) {
      SurvivingKeeps(codec, disk.files, before, hosts, day);
      AllSurvivingKeep(codec, disk.history[|h0|..], before, hosts, day);
    }
  }

  method ArchiveHostsInTurn(disk: Disk, day: Time, codec: Codec) returns (ok: bool, flushed: bool, hosts: seq<string>)
    requires ValidTime(day) && Lossless(codec)
    modifies disk
    ensures disk.errors >= old(disk.errors) && (ok && flushed <==> disk.errors == old(disk.errors))
    ensures Distinct(hosts) && (ok ==> Lists(hosts, HostsOf(old(disk.files))))
    ensures ok && flushed ==> disk.files == ArchiveHosts(codec, old(disk.files), hosts, day)
    ensures old(disk.history) <= disk.history
    ensures flushed ==> Survives(disk.files, codec, old(disk.files), hosts, day)
    ensures flushed ==> AllSurvive(disk.history[|old(disk.history)|..], codec, old(disk.files), hosts, day)
  {
    hide Progress, Survives, AllSurvive, AllSafe, AllOthersSame, OthersSame, Safe, Archived;
    hide Archive.ArchiveHost, Lossless, HostsOf, Valid;
    ghost var before, h0 := disk.files, disk.history;
    flushed := true;
    hosts := [];
    ProgressStart(before, codec, day);
    ProgressSurvives(before, codec, before, [], [], day);
    AllSurviveAppend([], [], codec, before, hosts, day);
    assert disk.history[|h0|..] == [];
    var able: bool := *;
    if !able {
      disk.errors := disk.errors + 1;
      return false, true, hosts;
    }
    hosts := ReadDir(disk.files);
    ArchiveNone(codec, before, day);
    AllSurviveAppend([], [], codec, before, hosts, day);
    for i := 0 to |hosts|
      invariant h0 <= disk.history
      invariant disk.errors >= old(disk.errors) && (flushed <==> disk.errors == old(disk.errors))
      invariant flushed ==> Progress(disk.files, codec, before, hosts[..i], day)
      invariant flushed ==> AllSurvive(disk.history[|h0|..], codec, before, hosts, day)
      invariant flushed ==> disk.files == ArchiveHosts(codec, before, hosts[..i], day)
    {
      ghost var from, h1 := disk.files, disk.history;
      var hostFlushed;
      ok, hostFlushed := disk.ArchiveHost(hosts[i], day, codec);
      flushed := flushed && hostFlushed;
      assert hosts[..i + 1] == hosts[..i] + [hosts[i]];
      if flushed {
        HostInFlight(disk.history[|h1|..], codec, from, before, hosts[..i], hosts[i], hosts, day);
        AllSurviveAppend(h1[|h0|..], disk.history[|h1|..], codec, before, hosts, day);
        assert disk.history[|h0|..] == h1[|h0|..] + disk.history[|h1|..];
        OneHostInFlight(disk.files, codec, from, before, hosts[..i], hosts[i], hosts, day);
        ArchivedByRun(codec, from, hosts[i], day);
        ArchiveHostsSnoc(codec, before, hosts[..i], hosts[i], day);
      }
      if !ok {
        return;
      }
    }
    assert hosts[..|hosts|] == hosts;
    if flushed {
      ProgressSurvives(disk.files, codec, before, hosts, hosts, day);
    }
    return true, flushed, hosts;
  }

  lemma ArchiveNone(codec: Codec, files: Files, day: Time)
    requires ValidTime(day)
    ensures ArchiveHosts(codec, files, [], day) == files
  {
  }

  lemma IsHourText(files: Files, host: string, day: Time, hour: nat, lines: string)
    requires ValidTime(day) && hour < HOURS
    requires var p := HourPath(host, day, hour); lines == (if p in files then files[p] else "")
    ensures lines == HourText(files, host, day, hour) && CountLines(lines) == |Lines(lines)|
  {
  }

  lemma SummaryEmpty()
    ensures SummaryText([]) == ""
  {
  }

  lemma SummarySnoc(es: seq<Entry>, e: Entry)
    ensures SummaryText(es + [e])
         == SummaryText(es) + Itoa(e.hour) + "," + Itoa(e.start) + "," + Itoa(e.end) + "\n"
  {
    hide Itoa;
    assert EntryLines(es + [e]) == EntryLines(es) + [EntryLine(e)];
    UnlinesAppend(EntryLines(es), [EntryLine(e)]);
    UnlinesOne(EntryLine(e));
  }
}
