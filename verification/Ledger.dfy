/** The lines a backup directory holds, as a multiset, and what flushing and archiving do to
    it. */
module Ledger {
  import opened Text
  import opened Calendar
  import opened Paths
  import opened Batch
  import opened Archive

  /** Lines of one host as the parameters they came from. */
  function Tagged(host: string, lines: seq<string>): multiset<Param> {
    multiset(seq(|lines|, i requires 0 <= i < |lines| => Values(host, lines[i])))
  }

  lemma TaggedAppend(host: string, a: seq<string>, b: seq<string>)
    ensures Tagged(host, a + b) == Tagged(host, a) + Tagged(host, b)
  {
    var x := seq(|a|, i requires 0 <= i < |a| => Values(host, a[i]));
    var y := seq(|b|, i requires 0 <= i < |b| => Values(host, b[i]));
    assert seq(|a + b|, i requires 0 <= i < |a + b| => Values(host, (a + b)[i])) == x + y;
  }

  lemma TaggedEmpty(host: string, lines: seq<string>)
    ensures Tagged(host, lines) == multiset{} <==> lines == []
  {
    var s := seq(|lines|, i requires 0 <= i < |lines| => Values(host, lines[i]));
    assert lines != [] ==> s[0] in multiset(s);
  }

  lemma TaggedCount(key: string, lines: seq<string>, p: Param)
    ensures Tagged(key, lines)[p] == if p.Values? && p.key == key then multiset(lines)[p.json] else 0
    decreases |lines|
  {
    if lines == [] {
      assert Tagged(key, []) == multiset{};
    } else {
      var rest := lines[1..];
      assert lines == [lines[0]] + rest;
      TaggedAppend(key, [lines[0]], rest);
      assert Tagged(key, [lines[0]]) == multiset{Values(key, lines[0])} by {
        assert seq(1, i requires 0 <= i < 1 => Values(key, [lines[0]][i])) == [Values(key, lines[0])];
      }
      TaggedCount(key, rest, p);
    }
  }

  /** The events a file holds. */
  function Kept(codec: Codec, p: Path, content: string): multiset<Param> {
    match p
    case HourFile(host, _, _) => Tagged(host, Lines(content))
    case DayFile(host, _) => Tagged(host, Lines(codec.decompress(content)))
    case MetaFile(_, _) => multiset{}
  }

  function KeptAt(codec: Codec, files: Files, p: Path): multiset<Param> {
    if p in files then Kept(codec, p, files[p]) else multiset{}
  }

  ghost function Pick(files: Files): Path
    requires files != map[]
    ensures Pick(files) in files
  {
    assert files.Keys == {} ==> files == map[];
    var p :| p in files;
    p
  }

  /** The events of all files. */
  ghost function KeptIn(codec: Codec, files: Files): multiset<Param>
    decreases |files|
  {
    if files == map[] then multiset{}
    else
      var p := Pick(files);
      Smaller(files, p);
      Kept(codec, p, files[p]) + KeptIn(codec, files - {p})
  }

  lemma Smaller(files: Files, p: Path)
    requires p in files
    ensures |files - {p}| == |files| - 1
  {
    assert (files - {p}).Keys == files.Keys - {p};
  }

  lemma KeptFirst(codec: Codec, files: Files)
    requires files != map[]
    ensures var p := Pick(files);
            KeptIn(codec, files) == KeptAt(codec, files, p) + KeptIn(codec, files - {p})
  {
    hide Kept;
  }

  lemma NothingAdded<T>(a: multiset<T>)
    ensures multiset{} + a == a == a + multiset{}
  {
  }

  lemma SumAssociates<T>(a: multiset<T>, b: multiset<T>, c: multiset<T>)
    ensures a + (b + c) == (a + b) + c
  {
  }

  lemma SumSwaps<T>(a: multiset<T>, b: multiset<T>, c: multiset<T>)
    ensures a + (b + c) == b + (a + c)
  {
  }

  /** Two files split off in either order. */
  lemma KeptSecond(codec: Codec, files: Files, q: Path, p: Path)
    requires p != q && KeptIn(codec, files) == KeptAt(codec, files, q) + KeptIn(codec, files - {q})
    requires KeptIn(codec, files - {q}) == KeptAt(codec, files - {q}, p) + KeptIn(codec, files - {q} - {p})
    requires KeptIn(codec, files - {p}) == KeptAt(codec, files - {p}, q) + KeptIn(codec, files - {p} - {q})
    ensures KeptIn(codec, files) == KeptAt(codec, files, p) + KeptIn(codec, files - {p})
  {
    hide Kept, KeptIn;
    assert files - {q} - {p} == files - {p} - {q};
    SumSwaps(KeptAt(codec, files, q), KeptAt(codec, files, p), KeptIn(codec, files - {q} - {p}));
  }

  /** Any one file can be split off. */
  lemma {:induction false} KeptSplit(codec: Codec, files: Files, p: Path)
    ensures KeptIn(codec, files) == KeptAt(codec, files, p) + KeptIn(codec, files - {p})
    decreases |files|
  {
    hide Kept, KeptIn, KeptAt, Pick;
    if p !in files {
      KeptAbsent(codec, files, p);
    } else if p == Pick(files) {
      KeptFirst(codec, files);
    } else {
      var q := Pick(files);
      KeptFirst(codec, files);
      Smaller(files, p);
      Smaller(files, q);
      KeptSplit(codec, files - {q}, p);
      KeptSplit(codec, files - {p}, q);
      KeptSecond(codec, files, q, p);
    }
  }

  lemma KeptAbsent(codec: Codec, files: Files, p: Path)
    requires p !in files
    ensures KeptIn(codec, files) == KeptAt(codec, files, p) + KeptIn(codec, files - {p})
  {
    hide Kept, KeptIn;
    assert files - {p} == files;
    NothingAdded(KeptIn(codec, files));
  }

  lemma KeptUpdate(codec: Codec, files: Files, p: Path, content: string)
    ensures KeptIn(codec, files[p := content]) + KeptAt(codec, files, p)
         == KeptIn(codec, files) + Kept(codec, p, content)
  {
    hide KeptIn, Kept;
    KeptSplit(codec, files, p);
    KeptSplit(codec, files[p := content], p);
    assert files[p := content] - {p} == files - {p};
  }

  /** Files put together hold their events together. */
  lemma {:induction false} KeptUnion(codec: Codec, a: Files, b: Files)
    requires a.Keys !! b.Keys
    ensures KeptIn(codec, a + b) == KeptIn(codec, a) + KeptIn(codec, b)
    decreases |a|
  {
    hide Kept;
    if a == map[] {
      assert a + b == b;
      NothingAdded(KeptIn(codec, b));
    } else {
      var p := Pick(a);
      hide KeptIn, Pick;
      Smaller(a, p);
      KeptUnion(codec, a - {p}, b);
      KeptSplit(codec, a, p);
      KeptSplit(codec, a + b, p);
      UnionWithout(a, b, p);
      SumAssociates(KeptAt(codec, a, p), KeptIn(codec, a - {p}), KeptIn(codec, b));
    }
  }

  lemma UnionWithout(a: Files, b: Files, p: Path)
    requires p in a && p !in b
    ensures (a + b) - {p} == (a - {p}) + b && (a + b)[p] == a[p]
  {
  }

  /** Files hold no event exactly when none of them does. */
  lemma {:induction false} NothingKeptIff(codec: Codec, files: Files)
    ensures KeptIn(codec, files) == multiset{} <==> forall p :: p in files ==> Kept(codec, p, files[p]) == multiset{}
    decreases |files|
  {
    if files != map[] {
      hide Kept;
      var p := Pick(files);
      Smaller(files, p);
      NothingKeptIff(codec, files - {p});
      assert forall q :: q in files <==> q == p || q in files - {p};
    }
  }

  /** The files of one host. */
  function OfHost(files: Files, host: string): Files {
    map p | p in files && p.host == host :: files[p]
  }

  lemma KeptForeign(codec: Codec, p: Path, content: string, e: Param)
    requires e.Values? ==> e.key != p.host
    ensures Kept(codec, p, content)[e] == 0
  {
    match p
    case HourFile(host, _, _) => TaggedCount(host, Lines(content), e);
    case DayFile(host, _) => TaggedCount(host, Lines(codec.decompress(content)), e);
    case MetaFile(_, _) =>
  }

  /** The events of a host are in its own files. */
  lemma {:induction false} KeptOfHost(codec: Codec, files: Files, host: string, e: Param)
    requires e.Values? ==> e.key == host
    ensures e.Values? ==> KeptIn(codec, files)[e] == KeptIn(codec, OfHost(files, host))[e]
    ensures e.Other? ==> KeptIn(codec, files)[e] == 0
    decreases |files|
  {
    hide Kept, OfHost;
    if files != map[] {
      var p := Pick(files);
      KeptFirst(codec, files);
      hide KeptIn, Pick;
      Smaller(files, p);
      KeptOfHost(codec, files - {p}, host, e);
      OfHostWithout(files, host, p);
      if p.host == host && e.Values? {
        KeptSplit(codec, OfHost(files, host), p);
      } else {
        KeptForeign(codec, p, files[p], e);
      }
    } else {
      OfHostNone(host);
    }
  }

  lemma OfHostWithout(files: Files, host: string, p: Path)
    requires p in files
    ensures p.host == host ==> p in OfHost(files, host) && OfHost(files, host)[p] == files[p]
    ensures p.host == host ==> OfHost(files, host) - {p} == OfHost(files - {p}, host)
    ensures p.host != host ==> OfHost(files - {p}, host) == OfHost(files, host)
  {
  }

  lemma OfHostNone(host: string)
    ensures OfHost(map[], host) == map[]
  {
  }

  /* ---- appending ---- */

  /** The hour file of a host at an instant. */
  function HourOf(host: string, t: Time): Path {
    HourFile(host, t.date, t.hour)
  }

  lemma CancelCommon<T>(a: multiset<T>, x: multiset<T>, b: multiset<T>, y: multiset<T>)
    requires a + x == b + (x + y)
    ensures a == b + y
  {
    assert b + (x + y) == (b + y) + x;
    assert a == (a + x) - x;
    assert b + y == ((b + y) + x) - x;
  }

  /** Appending whole lines to an hour file adds exactly these lines. */
  lemma AppendKeeps(codec: Codec, files: Files, host: string, t: Time, text: string)
    requires Terminated(Content(files, HourOf(host, t)))
    ensures KeptIn(codec, Append(files, HourOf(host, t), text))
         == KeptIn(codec, files) + Tagged(host, Lines(text))
  {
    hide KeptIn, Lines, Tagged, Terminated;
    var p := HourOf(host, t);
    KeptUpdate(codec, files, p, Content(files, p) + text);
    LinesAppend(Content(files, p), text);
    TaggedAppend(host, Lines(Content(files, p)), Lines(text));
    LinesEmpty();
    TaggedEmpty(host, []);
    CancelCommon(KeptIn(codec, Append(files, p, text)), KeptAt(codec, files, p),
                 KeptIn(codec, files), Tagged(host, Lines(text)));
  }

  /* ---- archiving ---- */

  /** The files without those the first `n` iterations read. */
  function WithoutHours(files: Files, host: string, day: Time, n: nat): Files
    requires ValidTime(day) && n <= HOURS
  {
    if n == 0 then files else WithoutHours(files, host, day, n - 1) - {HourPath(host, day, n - 1)}
  }

  lemma {:induction false} WithoutHoursHolds(files: Files, host: string, day: Time, n: nat, p: Path)
    requires ValidTime(day) && n <= HOURS
    ensures p in WithoutHours(files, host, day, n)
       <==> p in files && forall k :: 0 <= k < n ==> p != HourPath(host, day, k)
    ensures p in WithoutHours(files, host, day, n) ==> WithoutHours(files, host, day, n)[p] == files[p]
  {
    hide HourPath;
    if n > 0 {
      WithoutHoursHolds(files, host, day, n - 1, p);
    }
  }

  lemma HourPathsDiffer(host: string, day: Time, k: nat, n: nat)
    requires ValidTime(day) && k < n < HOURS
    ensures HourPath(host, day, k) != HourPath(host, day, n)
  {
    hide Valid, AddHours;
    EveryHourOnce(day, AddHours(day, n).hour);
  }

  /** The hour that iteration `n` reads is still there after `n` iterations. */
  lemma KeptAtHour(codec: Codec, files: Files, host: string, day: Time, n: nat)
    requires ValidTime(day) && n < HOURS
    ensures KeptAt(codec, WithoutHours(files, host, day, n), HourPath(host, day, n))
         == Tagged(host, Lines(HourText(files, host, day, n)))
  {
    hide Tagged, Valid, AddHours, WithoutHours;
    var p := HourPath(host, day, n);
    forall k | 0 <= k < n
      ensures HourPath(host, day, k) != p
    {
      HourPathsDiffer(host, day, k, n);
    }
    WithoutHoursHolds(files, host, day, n, p);
    TaggedEmpty(host, []);
  }

  lemma {:induction false} HoursMoveToDay(codec: Codec, files: Files, host: string, day: Time, n: nat)
    requires ValidTime(day) && n <= HOURS && TerminatedHours(files, host, day)
    ensures KeptIn(codec, files)
         == Tagged(host, Lines(DayText(files, host, day, n))) + KeptIn(codec, WithoutHours(files, host, day, n))
  {
    hide KeptIn, KeptAt, Lines, Tagged, DayText, HourText, Terminated, Valid, HourPath;
    if n == 0 {
      NoHours(files, host, day);
      TaggedEmpty(host, []);
    } else {
      HoursMoveToDay(codec, files, host, day, n - 1);
      DayLines(files, host, day, n - 1);
      DayStep(files, host, day, n);
      TaggedAppend(host, Lines(DayText(files, host, day, n - 1)), Lines(HourText(files, host, day, n - 1)));
      KeptSplit(codec, WithoutHours(files, host, day, n - 1), HourPath(host, day, n - 1));
      KeptAtHour(codec, files, host, day, n - 1);
    }
  }

  /** Every hour file is one of a clock hour. */
  predicate ClockHours(files: Files) {
    forall p :: p in files && p.HourFile? ==> p.hour < HOURS
  }

  lemma WithoutHoursIsRemoveDay(files: Files, host: string, day: Time)
    requires ValidTime(day) && ClockHours(files)
    ensures WithoutHours(files, host, day, HOURS) == RemoveDay(files, host, day.date)
  {
    hide WithoutHours, AddHours, Valid;
    var a, b := WithoutHours(files, host, day, HOURS), RemoveDay(files, host, day.date);
    forall p
      ensures p in a <==> p in b
      ensures p in a ==> a[p] == b[p]
    {
      WithoutHoursHolds(files, host, day, HOURS, p);
      if p in files && InDay(p, host, day.date) {
        EveryHourOnce(day, p.hour);
        assert p == HourPath(host, day, (p.hour + HOURS - day.hour) % HOURS);
      }
    }
  }

  /** What archiving does to the events, whatever is there before: the old archive of the day
      is lost, everything else is kept. */
  lemma ArchiveKeeps(codec: Codec, files: Files, host: string, day: Time)
    requires Lossless(codec) && ValidTime(day) && ClockHours(files) && TerminatedHours(files, host, day)
    ensures KeptIn(codec, ArchiveHost(codec, files, host, day)) + KeptAt(codec, files, DayFile(host, day.date))
         == KeptIn(codec, files)
  {
    hide KeptIn, Lines, Tagged, DayText, Entries, SummaryText, Terminated, WithoutHours, Valid;
    var s, d, m := DaySummaryOf(files, host, day), DayFile(host, day.date), MetaFile(host, day.date);
    var rest := RemoveDay(files, host, day.date);
    HoursMoveToDay(codec, files, host, day, HOURS);
    WithoutHoursIsRemoveDay(files, host, day);
    KeptUpdate(codec, rest, d, codec.compress(s.dayContent));
    KeptUpdate(codec, rest[d := codec.compress(s.dayContent)], m, s.summary);
    assert Unpacks(codec, codec.compress(s.dayContent), s.dayContent);
    var lost, moved := KeptAt(codec, files, d), Tagged(host, Lines(s.dayContent));
    var first := rest[d := codec.compress(s.dayContent)];
    assert KeptAt(codec, rest, d) == lost && KeptAt(codec, first, m) == multiset{};
    assert KeptIn(codec, first) + lost == KeptIn(codec, rest) + moved;
    assert ArchiveHost(codec, files, host, day) == first[m := s.summary];
    CancelCommon(KeptIn(codec, first[m := s.summary]), multiset{}, KeptIn(codec, first), multiset{});
    assert KeptIn(codec, first) + multiset{} == KeptIn(codec, first);
    assert KeptIn(codec, files) == moved + KeptIn(codec, WithoutHours(files, host, day, HOURS));
    assert moved + KeptIn(codec, rest) == KeptIn(codec, rest) + moved;
  }

  /** The lines in the archive of a host's day; none without an archive. */
  function ArchivedLines(codec: Codec, files: Files, host: string, date: Date): seq<string> {
    if DayFile(host, date) in files then Lines(codec.decompress(files[DayFile(host, date)])) else []
  }

  /** Archiving a host's day loses nothing exactly when no archive with lines was there. */
  lemma ArchiveKeepsIff(codec: Codec, files: Files, host: string, day: Time)
    requires Lossless(codec) && ValidTime(day) && ClockHours(files) && TerminatedHours(files, host, day)
    ensures KeptIn(codec, ArchiveHost(codec, files, host, day)) == KeptIn(codec, files)
       <==> ArchivedLines(codec, files, host, day.date) == []
  {
    hide KeptIn, Lines, Tagged, ArchiveHost, Valid, Terminated, Lossless;
    ArchiveKeeps(codec, files, host, day);
    var d := DayFile(host, day.date);
    var after, lost := KeptIn(codec, ArchiveHost(codec, files, host, day)), KeptAt(codec, files, d);
    TaggedEmpty(host, ArchivedLines(codec, files, host, day.date));
    assert after == after + lost ==> lost == multiset{} by {
      assert |after + lost| == |after| + |lost|;
    }
  }

  /** A second archive of the same day, with no hour written since, leaves an empty archive. */
  lemma SecondArchiveIsEmpty(codec: Codec, files: Files, host: string, day: Time, again: Time)
    requires Lossless(codec) && ValidTime(day) && ValidTime(again) && again.date == day.date
    ensures var once := ArchiveHost(codec, files, host, day);
            var twice := ArchiveHost(codec, once, host, again);
            codec.decompress(twice[DayFile(host, day.date)]) == ""
  {
    hide AddHours, Valid, Entries, SummaryText;
    var once := ArchiveHost(codec, files, host, day);
    NoText(once, host, again, HOURS);
    assert Unpacks(codec, codec.compress(""), "");
  }

  lemma {:induction false} NoText(files: Files, host: string, day: Time, n: nat)
    requires ValidTime(day) && n <= HOURS
    requires forall p :: p in files ==> !InDay(p, host, day.date)
    ensures DayText(files, host, day, n) == ""
  {
    if n > 0 {
      hide AddHours, Valid;
      NoText(files, host, day, n - 1);
    }
  }
}
