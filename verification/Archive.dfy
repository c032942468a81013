/** The day archive of backup/archive.go as a function of the files: the content of the day in
    the order the hours are read, its line-range index, and what archiving leaves behind. */
module Archive {
  import opened Text
  import opened Numerals
  import opened Calendar
  import opened Paths

  /** The backup directory: each file with its content. */
  type Files = map<Path, string>

  function Content(files: Files, p: Path): string {
    if p in files then files[p] else ""
  }

  function Append(files: Files, p: Path, text: string): Files {
    files[p := Content(files, p) + text]
  }

  /** A compression, which `decompress` undoes. */
  datatype Codec = Codec(compress: string -> string, decompress: string -> string, ext: string)

  predicate Unpacks(codec: Codec, packed: string, text: string) {
    codec.decompress(packed) == text
  }

  ghost predicate Lossless(codec: Codec) {
    forall text :: Unpacks(codec, codec.compress(text), text)
  }

  predicate UnpacksPart(codec: Codec, part: string, text: string) {
    codec.decompress(part) <= text
  }

  /** A front part of a packed text unpacks to a front part of the text: what can be read of a
      file that was not written to its end. */
  ghost predicate Streams(codec: Codec) {
    forall text, part :: part <= codec.compress(text) ==> UnpacksPart(codec, part, text)
  }

  /* ---- the hours of a day ---- */

  const HOURS: nat := 24

  /** The hour file that iteration `k` reads. `day` keeps the clock's hour, so the files are
      read from that hour on, round the clock. */
  function HourPath(host: string, day: Time, k: nat): Path
    requires ValidTime(day) && k < HOURS
  {
    HourFile(host, day.date, AddHours(day, k).hour)
  }

  function HourText(files: Files, host: string, day: Time, k: nat): string
    requires ValidTime(day) && k < HOURS
  {
    Content(files, HourPath(host, day, k))
  }

  /** The hour read by each of the 24 iterations: every hour is read by exactly one of them. */
  lemma EveryHourOnce(day: Time, hour: nat)
    requires ValidTime(day) && hour < HOURS
    ensures var k := (hour + HOURS - day.hour) % HOURS;
            AddHours(day, k).hour == hour && forall l :: 0 <= l < HOURS && AddHours(day, l).hour == hour ==> l == k
  {
    hide Valid, AddHours, HourNumber;
    var k := (hour + HOURS - day.hour) % HOURS;
    RoundTheClock(day.hour, hour, k);
    forall l | 0 <= l < HOURS && AddHours(day, l).hour == hour
      ensures l == k
    {
      RoundTheClock(day.hour, hour, l);
    }
  }

  lemma RoundTheClock(from: nat, hour: nat, k: nat)
    requires from < 24 && hour < 24 && k < 24
    ensures (from + k) % 24 == hour <==> k == (hour + 24 - from) % 24
  {
    assert (from + k) % 24 == if from + k < 24 then from + k else from + k - 24;
    assert (hour + 24 - from) % 24 == if from <= hour then hour - from else hour + 24 - from;
  }

  /** The index label `k` names the file hour it stands for, for all `k`, exactly at midnight. */
  lemma LabelsAreHoursIff(host: string, day: Time)
    requires ValidTime(day)
    ensures (forall k :: 0 <= k < HOURS ==> HourPath(host, day, k) == HourFile(host, day.date, k))
       <==> day.hour == 0
  {
    if day.hour != 0 {
      assert HourPath(host, day, 0).hour != 0;
    }
  }

  /** The day content after `n` iterations. */
  function DayText(files: Files, host: string, day: Time, n: nat): string
    requires ValidTime(day) && n <= HOURS
  {
    if n == 0 then "" else DayText(files, host, day, n - 1) + HourText(files, host, day, n - 1)
  }

  /** `len(strings.Split(lines, "\n")) - 1`. */
  function CountLines(lines: string): nat {
    |Split(lines, '\n')| - 1
  }

  /** One line of the index: the lines `start` to `end`, counted from 1, belong to `hour`. */
  datatype Entry = Entry(hour: nat, start: nat, end: nat)

  /** The lines counted in `n` iterations. */
  function Total(files: Files, host: string, day: Time, n: nat): nat
    requires ValidTime(day) && n <= HOURS
  {
    if n == 0 then 0
    else Total(files, host, day, n - 1) + CountLines(HourText(files, host, day, n - 1))
  }

  function Entries(files: Files, host: string, day: Time, n: nat): seq<Entry>
    requires ValidTime(day) && n <= HOURS
  {
    if n == 0 then []
    else
      var before, text := Entries(files, host, day, n - 1), HourText(files, host, day, n - 1);
      var total := Total(files, host, day, n - 1);
      if text == "" then before
      else before + [Entry(n - 1, total + 1, total + CountLines(text))]
  }

  function EntryLine(e: Entry): string {
    Itoa(e.hour) + ("," + (Itoa(e.start) + ("," + Itoa(e.end))))
  }

  function EntryLines(es: seq<Entry>): seq<string> {
    seq(|es|, i requires 0 <= i < |es| => EntryLine(es[i]))
  }

  /** The meta file. */
  function SummaryText(es: seq<Entry>): string {
    Unlines(EntryLines(es))
  }

  datatype DaySummary = DaySummary(dayContent: string, summary: string)

  function DaySummaryOf(files: Files, host: string, day: Time): DaySummary
    requires ValidTime(day)
  {
    DaySummary(DayText(files, host, day, HOURS), SummaryText(Entries(files, host, day, HOURS)))
  }

  /* ---- reading the archive back ---- */

  function ParseNat(s: string): nat {
    if IsNumeral(s, 10) then Value(s, 10) else 0
  }

  function ParseEntry(line: string): Entry {
    var parts := Split(line, ',');
    if |parts| == 3 then Entry(ParseNat(parts[0]), ParseNat(parts[1]), ParseNat(parts[2]))
    else Entry(0, 0, 0)
  }

  function ParseSummary(summary: string): seq<Entry> {
    var lines := Lines(summary);
    seq(|lines|, i requires 0 <= i < |lines| => ParseEntry(lines[i]))
  }

  /** The lines `start` to `end`, counted from 1. */
  function Slice(lines: seq<string>, e: Entry): string {
    if 1 <= e.start <= e.end <= |lines| then Unlines(lines[e.start - 1..e.end]) else ""
  }

  /** The hours of an archive, from its content and its index alone. */
  function Restore(dayContent: string, summary: string): seq<(nat, string)> {
    Slices(Lines(dayContent), ParseSummary(summary))
  }

  function Slices(lines: seq<string>, es: seq<Entry>): seq<(nat, string)> {
    seq(|es|, i requires 0 <= i < |es| => (es[i].hour, Slice(lines, es[i])))
  }

  /** The non-empty hours in the order they were read, each with its iteration. */
  function HoursRead(files: Files, host: string, day: Time, n: nat): seq<(nat, string)>
    requires ValidTime(day) && n <= HOURS
  {
    if n == 0 then []
    else
      var before, text := HoursRead(files, host, day, n - 1), HourText(files, host, day, n - 1);
      if text == "" then before else before + [(n - 1, text)]
  }

  /* ---- the index is lossless ---- */

  predicate TerminatedHours(files: Files, host: string, day: Time)
    requires ValidTime(day)
  {
    forall k :: 0 <= k < HOURS ==> Terminated(HourText(files, host, day, k))
  }

  lemma DayStep(files: Files, host: string, day: Time, n: nat)
    requires ValidTime(day) && 0 < n <= HOURS && Terminated(DayText(files, host, day, n - 1))
    requires Terminated(HourText(files, host, day, n - 1))
    ensures Terminated(DayText(files, host, day, n))
    ensures
      Lines(DayText(files, host, day, n)) ==
      Lines(DayText(files, host, day, n - 1)) + Lines(HourText(files, host, day, n - 1))
  {
    hide Lines, Terminated, HourText;
    TerminatedAppend(DayText(files, host, day, n - 1), HourText(files, host, day, n - 1));
    LinesAppend(DayText(files, host, day, n - 1), HourText(files, host, day, n - 1));
  }

  /** One iteration of the loop. */
  lemma OneHour(files: Files, host: string, day: Time, n: nat)
    requires ValidTime(day) && 0 < n <= HOURS
    ensures var text, total := HourText(files, host, day, n - 1), Total(files, host, day, n - 1);
            && DayText(files, host, day, n) == DayText(files, host, day, n - 1) + text
            && Total(files, host, day, n) == total + |Lines(text)|
            && Entries(files, host, day, n) == Entries(files, host, day, n - 1)
               + (if text == "" then [] else [Entry(n - 1, total + 1, total + |Lines(text)|)])
            && HoursRead(files, host, day, n) == HoursRead(files, host, day, n - 1)
               + (if text == "" then [] else [(n - 1, text)])
            && (text == "" ==> |Lines(text)| == 0)
  {
    hide HourText, Split;
    var text := HourText(files, host, day, n - 1);
    assert CountLines(text) == |Lines(text)|;
    if text == "" {
      SplitNone(text, '\n');
    }
  }

  lemma NoHours(files: Files, host: string, day: Time)
    requires ValidTime(day)
    ensures Entries(files, host, day, 0) == [] && HoursRead(files, host, day, 0) == []
    ensures DayText(files, host, day, 0) == "" && Lines("") == [] && Terminated("")
    ensures Total(files, host, day, 0) == 0
  {
  }

  lemma {:induction false} DayLines(files: Files, host: string, day: Time, n: nat)
    requires ValidTime(day) && n <= HOURS && TerminatedHours(files, host, day)
    ensures Terminated(DayText(files, host, day, n))
    ensures |Lines(DayText(files, host, day, n))| == Total(files, host, day, n)
  {
    hide Lines, Terminated, HourText, DayText, Total;
    if n == 0 {
      NoHours(files, host, day);
    } else {
      DayLines(files, host, day, n - 1);
      DayStep(files, host, day, n);
      OneHour(files, host, day, n);
    }
  }

  lemma ItoaLine(n: nat)
    ensures LineFree(Itoa(n)) && ',' !in Itoa(n) && ParseNat(Itoa(n)) == n
  {
    ValueOfNumeral(n, 10);
  }

  lemma EntryLineParses(e: Entry)
    ensures LineFree(EntryLine(e)) && ParseEntry(EntryLine(e)) == e
  {
    hide Itoa, ParseNat, Split;
    var a, b, c := Itoa(e.hour), Itoa(e.start), Itoa(e.end);
    ItoaLine(e.hour);
    ItoaLine(e.start);
    ItoaLine(e.end);
    FieldsFree(a, b, c);
    SplitThree(a, b, c, ',');
  }

  lemma FieldsFree(a: string, b: string, c: string)
    requires LineFree(a) && LineFree(b) && LineFree(c)
    ensures LineFree(a + ("," + (b + ("," + c))))
  {
  }

  lemma SplitThree(a: string, b: string, c: string, comma: char)
    requires comma !in a && comma !in b && comma !in c
    ensures Split(a + ([comma] + (b + ([comma] + c))), comma) == [a, b, c]
  {
    hide Split;
    assert a + ([comma] + (b + ([comma] + c))) == a + [comma] + (b + [comma] + c);
    SplitCons(a, comma, b + [comma] + c);
    SplitCons(b, comma, c);
    SplitNone(c, comma);
  }

  /** The printed index parses back to its entries. */
  lemma SummaryParses(es: seq<Entry>)
    ensures ParseSummary(SummaryText(es)) == es
  {
    var lines := EntryLines(es);
    forall i | 0 <= i < |es|
      ensures LineFree(lines[i]) && ParseEntry(lines[i]) == es[i]
    {
      EntryLineParses(es[i]);
    }
    LinesUnlines(lines);
  }

  /** Ranges inside a prefix of the lines do not see what follows. */
  lemma SlicePrefix(lines: seq<string>, more: seq<string>, e: Entry)
    requires 1 <= e.start <= e.end <= |lines|
    ensures Slice(lines + more, e) == Slice(lines, e)
  {
    assert (lines + more)[e.start - 1..e.end] == lines[e.start - 1..e.end];
  }

  lemma NonEmptyHasLines(text: string)
    requires Terminated(text) && text != ""
    ensures |Lines(text)| > 0
  {
    UnlinesLines(text);
  }

  lemma SlicesPrefix(lines: seq<string>, more: seq<string>, es: seq<Entry>)
    requires InRange(es, |lines|)
    ensures Slices(lines + more, es) == Slices(lines, es)
  {
    forall i | 0 <= i < |es|
      ensures Slice(lines + more, es[i]) == Slice(lines, es[i])
    {
      SlicePrefix(lines, more, es[i]);
    }
  }

  lemma SliceNew(lines: seq<string>, text: string, hour: nat)
    requires Terminated(text) && text != ""
    ensures var n := |Lines(text)|;
            n > 0 && Slice(lines + Lines(text), Entry(hour, |lines| + 1, |lines| + n)) == text
  {
    NonEmptyHasLines(text);
    var added := Lines(text);
    assert (lines + added)[|lines|..|lines| + |added|] == added;
    UnlinesLines(text);
  }

  /** All ranges lie in 1..total. */
  predicate InRange(es: seq<Entry>, total: nat) {
    forall i :: 0 <= i < |es| ==> 1 <= es[i].start <= es[i].end <= total
  }

  lemma InRangeSnoc(es: seq<Entry>, total: nat, hour: nat, count: nat)
    requires InRange(es, total)
    ensures InRange(es + [], total + count)
    ensures count > 0 ==> InRange(es + [Entry(hour, total + 1, total + count)], total + count)
  {
  }

  lemma {:induction false} EntriesInRange(files: Files, host: string, day: Time, n: nat)
    requires ValidTime(day) && n <= HOURS && TerminatedHours(files, host, day)
    ensures InRange(Entries(files, host, day, n), Total(files, host, day, n))
  {
    hide Lines, Entries, Total, HourText, HoursRead, DayText, Terminated, Valid, InRange;
    if n == 0 {
      NoHours(files, host, day);
      EmptyInRange(Total(files, host, day, 0));
    } else {
      EntriesInRange(files, host, day, n - 1);
      OneHour(files, host, day, n);
      var text := HourText(files, host, day, n - 1);
      InRangeSnoc(Entries(files, host, day, n - 1), Total(files, host, day, n - 1), n - 1, |Lines(text)|);
      if text != "" {
        NonEmptyHasLines(text);
      }
    }
  }

  lemma EmptyInRange(total: nat)
    ensures InRange([], total)
  {
  }

  lemma {:induction false} SlicesAreHours(files: Files, host: string, day: Time, n: nat)
    requires ValidTime(day) && n <= HOURS && TerminatedHours(files, host, day)
    ensures Slices(Lines(DayText(files, host, day, n)), Entries(files, host, day, n))
         == HoursRead(files, host, day, n)
  {
    hide Lines, Terminated, HourText, Slice, DayText, Entries, Total, HoursRead;
    if n == 0 {
      NoHours(files, host, day);
    } else {
      var lines, text := Lines(DayText(files, host, day, n - 1)), HourText(files, host, day, n - 1);
      var es := Entries(files, host, day, n - 1);
      SlicesAreHours(files, host, day, n - 1);
      EntriesInRange(files, host, day, n - 1);
      DayLines(files, host, day, n - 1);
      DayStep(files, host, day, n);
      OneHour(files, host, day, n);
      SlicesPrefix(lines, Lines(text), es);
      if text != "" {
        SliceNew(lines, text, n - 1);
      }
    }
  }

  /** Lossless archive: from the day file and the printed index alone, every hour that was
      read comes back, with its content. */
  lemma ArchiveRestores(files: Files, host: string, day: Time)
    requires ValidTime(day) && TerminatedHours(files, host, day)
    ensures var s := DaySummaryOf(files, host, day);
            Restore(s.dayContent, s.summary) == HoursRead(files, host, day, HOURS)
  {
    SummaryParses(Entries(files, host, day, HOURS));
    SlicesAreHours(files, host, day, HOURS);
  }

  /** What the restored list holds: exactly the non-empty hours, once each. */
  lemma {:induction false} HoursReadComplete(files: Files, host: string, day: Time, n: nat, k: nat)
    requires ValidTime(day) && k < n <= HOURS
    ensures HourText(files, host, day, k) != "" <==> (k, HourText(files, host, day, k)) in HoursRead(files, host, day, n)
  {
    hide HourText;
    HoursReadBound(files, host, day, n - 1);
    if k < n - 1 {
      HoursReadComplete(files, host, day, n - 1, k);
    }
  }

  lemma {:induction false} HoursReadBound(files: Files, host: string, day: Time, n: nat)
    requires ValidTime(day) && n <= HOURS
    ensures forall h :: h in HoursRead(files, host, day, n) ==> h.0 < n && h.1 != "" && h.1 == HourText(files, host, day, h.0)
  {
    hide HourText;
    if n > 0 {
      HoursReadBound(files, host, day, n - 1);
    }
  }

  /** No hour is lost for any clock hour of the archive run: each non-empty hour file comes
      back, under the label of the iteration that read it. */
  lemma EveryHourRestored(files: Files, host: string, day: Time, hour: nat)
    requires ValidTime(day) && hour < HOURS && TerminatedHours(files, host, day)
    requires Content(files, HourFile(host, day.date, hour)) != ""
    ensures var s := DaySummaryOf(files, host, day);
            ((hour + HOURS - day.hour) % HOURS, Content(files, HourFile(host, day.date, hour)))
            in Restore(s.dayContent, s.summary)
  {
    hide DaySummaryOf, Restore, HoursRead, Terminated;
    EveryHourOnce(day, hour);
    ArchiveRestores(files, host, day);
    HoursReadComplete(files, host, day, HOURS, (hour + HOURS - day.hour) % HOURS);
  }

  /** What an index line says: the lines `start` to `end` of the day, counted from 1, are the
      lines of the hour file read in iteration `hour`. */
  lemma RangeHoldsHour(files: Files, host: string, day: Time, i: nat)
    requires ValidTime(day) && TerminatedHours(files, host, day) && i < |Entries(files, host, day, HOURS)|
    ensures var e, lines := Entries(files, host, day, HOURS)[i], Lines(DaySummaryOf(files, host, day).dayContent);
            && e.hour < HOURS && 1 <= e.start <= e.end <= |lines|
            && lines[e.start - 1..e.end] == Lines(Content(files, HourFile(host, day.date, (day.hour + e.hour) % HOURS)))
  {
    hide DayText, Entries, Lines, Total, HoursRead, Terminated, Valid, AddHours, HourText, SummaryText;
    var es, lines := Entries(files, host, day, HOURS), Lines(DayText(files, host, day, HOURS));
    var e := es[i];
    EntriesInRange(files, host, day, HOURS);
    DayLines(files, host, day, HOURS);
    SliceIsHour(files, host, day, i);
    UnlinesLines(DayText(files, host, day, HOURS));
    SliceLines(lines, e);
    HourTextAt(files, host, day, e.hour);
  }

  lemma SliceIsHour(files: Files, host: string, day: Time, i: nat)
    requires ValidTime(day) && TerminatedHours(files, host, day) && i < |Entries(files, host, day, HOURS)|
    ensures var e := Entries(files, host, day, HOURS)[i];
            e.hour < HOURS && Slice(Lines(DayText(files, host, day, HOURS)), e) == HourText(files, host, day, e.hour)
  {
    hide DayText, Entries, Lines, HoursRead, TerminatedHours, Valid, HourText, Slice;
    var es, lines := Entries(files, host, day, HOURS), Lines(DayText(files, host, day, HOURS));
    SlicesAreHours(files, host, day, HOURS);
    HoursReadBound(files, host, day, HOURS);
    assert Slices(lines, es)[i] == (es[i].hour, Slice(lines, es[i]));
    assert (es[i].hour, Slice(lines, es[i])) in HoursRead(files, host, day, HOURS);
  }

  lemma SliceLines(lines: seq<string>, e: Entry)
    requires 1 <= e.start <= e.end <= |lines| && forall l :: l in lines ==> LineFree(l)
    ensures Lines(Slice(lines, e)) == lines[e.start - 1..e.end]
  {
    hide Lines;
    LinesUnlines(lines[e.start - 1..e.end]);
  }

  lemma HourTextAt(files: Files, host: string, day: Time, k: nat)
    requires ValidTime(day) && k < HOURS
    ensures HourText(files, host, day, k) == Content(files, HourFile(host, day.date, (day.hour + k) % HOURS))
  {
    hide Valid, AddHours, HourNumber;
  }

  /** The index, line by line. */
  lemma IndexLine(e: Entry)
    ensures SummaryText([e]) == Itoa(e.hour) + "," + Itoa(e.start) + "," + Itoa(e.end) + "\n"
  {
    hide Itoa;
    assert EntryLines([e]) == [EntryLine(e)];
    UnlinesOne(EntryLine(e));
  }

  /** The ranges start at 1, follow each other without a gap, and end at the total. */
  predicate Contiguous(es: seq<Entry>, total: nat) {
    && (forall i :: 0 <= i < |es| ==> es[i].start == NextStart(es, i))
    && total == LastEnd(es)
  }

  /** The line after the range in front of `i`. */
  function NextStart(es: seq<Entry>, i: nat): nat
    requires i <= |es|
  {
    if i == 0 then 1 else es[i - 1].end + 1
  }

  function LastEnd(es: seq<Entry>): nat {
    if es == [] then 0 else es[|es| - 1].end
  }

  lemma ContiguousSnoc(es: seq<Entry>, total: nat, hour: nat, count: nat)
    requires Contiguous(es, total)
    ensures Contiguous(es + [Entry(hour, total + 1, total + count)], total + count)
  {
    var more := es + [Entry(hour, total + 1, total + count)];
    forall i | 0 <= i < |more|
      ensures more[i].start == NextStart(more, i)
    {
      if i < |es| {
        assert more[i] == es[i] && NextStart(more, i) == NextStart(es, i);
      }
    }
  }

  lemma {:induction false} RangesAreContiguous(files: Files, host: string, day: Time, n: nat)
    requires ValidTime(day) && n <= HOURS && TerminatedHours(files, host, day)
    ensures Contiguous(Entries(files, host, day, n), Total(files, host, day, n))
    ensures Total(files, host, day, n) == |Lines(DayText(files, host, day, n))|
  {
    hide Lines, Terminated, HourText, DayText, Entries, Total, HoursRead, Valid, NextStart;
    DayLines(files, host, day, n);
    if n == 0 {
      NoHours(files, host, day);
    } else {
      hide Contiguous;
      var before, total := Entries(files, host, day, n - 1), Total(files, host, day, n - 1);
      RangesAreContiguous(files, host, day, n - 1);
      OneHour(files, host, day, n);
      ContiguousSnoc(before, total, n - 1, |Lines(HourText(files, host, day, n - 1))|);
      assert before + [] == before;
    }
  }

  /* ---- archiving ---- */

  predicate InDay(p: Path, host: string, date: Date) {
    p.HourFile? && p.host == host && p.date == date
  }

  /** `os.RemoveAll` of the day directory. */
  function RemoveDay(files: Files, host: string, date: Date): Files {
    map p | p in files && !InDay(p, host, date) :: files[p]
  }

  /** A host's day archived without a failure. A missing day directory is not an exit: the
      archive is then written with no content. */
  function ArchiveHost(codec: Codec, files: Files, host: string, day: Time): Files
    requires ValidTime(day)
  {
    var s := DaySummaryOf(files, host, day);
    RemoveDay(files, host, day.date)
      [DayFile(host, day.date) := codec.compress(s.dayContent)]
      [MetaFile(host, day.date) := s.summary]
  }

  function ArchiveHosts(codec: Codec, files: Files, hosts: seq<string>, day: Time): Files
    requires ValidTime(day)
    decreases hosts
  {
    if hosts == [] then files
    else ArchiveHosts(codec, ArchiveHost(codec, files, hosts[0], day), hosts[1..], day)
  }

  lemma {:induction false} ArchiveHostsSnoc(codec: Codec, files: Files, hosts: seq<string>, host: string, day: Time)
    requires ValidTime(day)
    ensures ArchiveHosts(codec, files, hosts + [host], day)
         == ArchiveHost(codec, ArchiveHosts(codec, files, hosts, day), host, day)
    decreases hosts
  {
    hide ArchiveHost, Valid;
    if hosts == [] {
      assert [] + [host] == [host] && [host][1..] == [];
      assert ArchiveHosts(codec, ArchiveHost(codec, files, host, day), [], day) == ArchiveHost(codec, files, host, day);
    } else {
      AppendCons(hosts, [host]);
      assert (hosts + [host])[1..] == hosts[1..] + [host];
      ArchiveHostsSnoc(codec, ArchiveHost(codec, files, hosts[0], day), hosts[1..], host, day);
    }
  }

  /** What is at a path after the hosts are archived: their day and meta files from the hours as
      they were at the start, their hour files gone, and everything else untouched. */
  function ArchivedAt(codec: Codec, files: Files, hosts: seq<string>, day: Time, p: Path): Option<string>
    requires ValidTime(day)
  {
    if p.host in hosts && p.date == day.date then
      match p
      case HourFile(_, _, _) => None
      case DayFile(host, _) => Some(codec.compress(DaySummaryOf(files, host, day).dayContent))
      case MetaFile(host, _) => Some(DaySummaryOf(files, host, day).summary)
    else if p in files then Some(files[p])
    else None
  }

  lemma ArchiveHostAt(codec: Codec, files: Files, host: string, day: Time, p: Path)
    requires ValidTime(day)
    ensures var t := ArchiveHost(codec, files, host, day);
            ArchivedAt(codec, files, [host], day, p) == if p in t then Some(t[p]) else None
    ensures p.host != host ==> DaySummaryOf(ArchiveHost(codec, files, host, day), p.host, day) == DaySummaryOf(files, p.host, day)
  {
    hide DaySummaryOf, Valid;
    if p.host != host {
      hide AddHours;
      SameHoursSameSummary(ArchiveHost(codec, files, host, day), files, p.host, day);
    }
  }

  /** The hosts do not disturb each other: the result is the same for every order. */
  lemma {:induction false} ArchiveHostsAt(codec: Codec, files: Files, hosts: seq<string>, day: Time, p: Path)
    requires ValidTime(day) && Distinct(hosts)
    ensures var t := ArchiveHosts(codec, files, hosts, day);
            ArchivedAt(codec, files, hosts, day, p) == if p in t then Some(t[p]) else None
    decreases hosts
  {
    hide DaySummaryOf, Valid, ArchiveHost;
    if hosts != [] {
      var host, rest := hosts[0], hosts[1..];
      assert hosts == [host] + rest;
      ArchiveHostAt(codec, files, host, day, p);
      ArchiveHostsAt(codec, ArchiveHost(codec, files, host, day), rest, day, p);
      assert host !in rest by {
        assert forall j :: 0 <= j < |rest| ==> rest[j] == hosts[j + 1] != hosts[0];
      }
    }
  }

  /** A day's summary depends on its hour files only. */
  lemma SameHoursSameSummary(a: Files, b: Files, host: string, day: Time)
    requires ValidTime(day)
    requires forall k :: 0 <= k < HOURS ==> HourText(a, host, day, k) == HourText(b, host, day, k)
    ensures DaySummaryOf(a, host, day) == DaySummaryOf(b, host, day)
  {
    SameHours(a, b, host, day, HOURS);
  }

  lemma {:induction false} SameHours(a: Files, b: Files, host: string, day: Time, n: nat)
    requires ValidTime(day) && n <= HOURS
    requires forall k :: 0 <= k < HOURS ==> HourText(a, host, day, k) == HourText(b, host, day, k)
    ensures DayText(a, host, day, n) == DayText(b, host, day, n)
    ensures Total(a, host, day, n) == Total(b, host, day, n)
    ensures Entries(a, host, day, n) == Entries(b, host, day, n)
  {
    hide HourText, Lines, Valid, DayText, Total, Entries, HoursRead;
    if n == 0 {
      NoHours(a, host, day);
      NoHours(b, host, day);
    } else {
      SameHours(a, b, host, day, n - 1);
      OneHour(a, host, day, n);
      OneHour(b, host, day, n);
    }
  }
}
