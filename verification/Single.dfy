/** `SingleFileBackup` of backup/single.go: the batch in front of one backup directory. */
module Single {
  import opened Text
  import opened Calendar
  import opened Paths
  import opened Batch
  import opened Archive
  import opened Flushing
  import opened Ledger
  import opened Safety
  import opened Disks
  import opened Pipeline

  /** `saveBackupList`: a block of lines for each host, in any order, the clock read anew for
      each. */
  method SaveBackupList(list: BackupList, disk: Disk, now: Clock)
    modifies disk
    ensures disk.files == FlushFiles(old(disk.files), old(list.lines), now)
    ensures old(disk.history) <= disk.history
  {
    hide FlushFiles;
    var lines := list.lines;
    var left := lines.Keys;
    ghost var done: map<string, string> := map[];
    FlushNothing(disk.files, now);
    while left != {}
      invariant left <= lines.Keys
      invariant done == map h | h in lines && h !in left :: lines[h]
      invariant disk.files == FlushFiles(old(disk.files), done, now)
      invariant old(disk.history) <= disk.history
      decreases left
    {
      var host :| host in left;
      FlushOneMore(old(disk.files), done, now, host, lines[host]);
      disk.AppendToFile(HourOf(host, now(host)), lines[host]);
      done := done[host := lines[host]];
      left := left - {host};
    }
    assert done == lines;
  }

  lemma EveryHostListed(hosts: seq<string>, files: Files)
    requires Lists(hosts, HostsOf(files))
    ensures forall p :: p in files ==> p.host in hosts
  {
    forall p | p in files
      ensures p.host in hosts
    {
      assert p.host in HostsOf(files);
      assert p.host in (set h | h in hosts);
    }
  }

  class SingleFileBackup {
    /** What the batcher has collected. */
    var batch: seq<Param>
    const disk: Disk
    const codec: Codec

    constructor (disk: Disk, codec: Codec)
      ensures this.disk == disk && this.codec == codec && batch == []
    {
      this.disk := disk;
      this.codec := codec;
      batch := [];
    }

    /** `SaveAsync`: each event is delivered by a goroutine of its own, so it can overtake
        others; it is added once. */
    method SaveAsync(event: Param)
      modifies this
      ensures multiset(batch) == multiset(old(batch)) + multiset{event}
    {
      var i :| 0 <= i <= |batch|;
      assert batch == batch[..i] + batch[i..];
      batch := batch[..i] + [event] + batch[i..];
    }

    /** `Flush`, and each turn of the batcher: the batch is grouped and written. */
    method Flush(now: Clock)
      modifies this, disk
      ensures batch == []
      ensures disk.files == FlushFiles(old(disk.files), Grouped(old(batch)), now)
    {
      var list := MakeBackupList(batch);
      SaveBackupList(list, disk, now);
      batch := [];
    }

    /** `Compress`: yesterday at the clock's hour; an error is only logged. Without one, every
        host is archived. With or without, when all files are flushed, no state of the run has
        lost an event, unless a host had an archive of yesterday with lines already. */
    method Compress(clock: Time) returns (ok: bool, flushed: bool, hosts: seq<string>)
      requires ValidTime(clock) && Ordinal(clock.date) > 1 && Lossless(codec)
      modifies disk
      ensures disk.errors >= old(disk.errors) && (ok && flushed <==> disk.errors == old(disk.errors))
      ensures Distinct(hosts) && (ok ==> Lists(hosts, HostsOf(old(disk.files))))
      ensures ok && flushed ==> disk.files == ArchiveHosts(codec, old(disk.files), hosts, Yesterday(clock))
      ensures ok ==> forall p :: p in old(disk.files) ==> p.host in hosts
      ensures ok && flushed && WholeLines(old(disk.files)) ==>
        forall p :: p in old(disk.files) && p.HourFile? && p.date == PreviousDay(clock.date) && p.hour < 24 ==>
          && p !in disk.files
          && (old(disk.files)[p] != "" ==> ComesBack(codec, disk.files, p, (p.hour + 24 - clock.hour) % 24, old(disk.files)[p]))
      ensures flushed ==> Survives(disk.files, codec, old(disk.files), hosts, Yesterday(clock))
      ensures old(disk.history) <= disk.history
      ensures flushed && Archivable(codec, old(disk.files), hosts, Yesterday(clock)) ==>
        && KeptIn(codec, old(disk.files)) <= KeptIn(codec, disk.files)
        && AllKeep(codec, disk.history[|old(disk.history)|..], old(disk.files))
    {
      hide PreviousDay, Survives, AllSurvive, AllKeep, KeptIn, Archivable, Lossless, ArchiveHosts, WholeLines, ComesBack;
      ghost var before := disk.files;
      ok, flushed, hosts := ArchiveDay(disk, Yesterday(clock), codec);
      if ok {
        EveryHostListed(hosts, before);
      }
      hide HostsOf;
      if ok && flushed && WholeLines(before) {
        forall p | p in before && p.HourFile? && p.date == PreviousDay(clock.date) && p.hour < 24
          ensures p !in disk.files
          ensures before[p] != "" ==> ComesBack(codec, disk.files, p, (p.hour + 24 - clock.hour) % 24, before[p])
        {
          HourIsArchived(codec, before, disk.files, hosts, clock, p);
        }
      }
    }
  }
}
