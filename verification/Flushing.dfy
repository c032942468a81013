/** Writing a grouped batch to the hour files (backup/backup.go), and what the index of a day
    counts in the end. */
module Flushing {
  import opened Text
  import opened Calendar
  import opened Paths
  import opened Batch
  import opened Archive
  import opened Ledger

  /** The clock as each host's line block is written: it is read again for every host. */
  type Clock = string -> Time

  predicate IsTarget(list: map<string, string>, now: Clock, p: Path) {
    p.host in list && p == HourOf(p.host, now(p.host))
  }

  function Targets(list: map<string, string>, now: Clock): set<Path> {
    set h | h in list :: HourOf(h, now(h))
  }

  /** The files after every block of the list is appended, in whatever order. */
  function FlushFiles(files: Files, list: map<string, string>, now: Clock): Files {
    map p | p in files.Keys + Targets(list, now) ::
      Content(files, p) + (if IsTarget(list, now, p) then list[p.host] else "")
  }

  lemma FlushContent(files: Files, list: map<string, string>, now: Clock, p: Path)
    ensures Content(FlushFiles(files, list, now), p)
         == Content(files, p) + (if IsTarget(list, now, p) then list[p.host] else "")
  {
    assert IsTarget(list, now, p) ==> p in Targets(list, now);
  }

  /** One more host's block. */
  lemma FlushOneMore(files: Files, list: map<string, string>, now: Clock, host: string, text: string)
    requires host !in list
    ensures FlushFiles(files, list[host := text], now)
         == Append(FlushFiles(files, list, now), HourOf(host, now(host)), text)
  {
    hide FlushFiles, Append, Targets, HourOf;
    var a, b := FlushFiles(files, list[host := text], now), Append(FlushFiles(files, list, now), HourOf(host, now(host)), text);
    forall p
      ensures Content(a, p) == Content(b, p)
    {
      FlushOneMoreAt(files, list, now, host, text, p);
    }
    FlushKeys(files, list, now);
    FlushKeys(files, list[host := text], now);
    TargetsOneMore(list, now, host, text);
    AppendContent(FlushFiles(files, list, now), HourOf(host, now(host)), text, HourOf(host, now(host)));
    SameFiles(a, b);
  }

  lemma FlushKeys(files: Files, list: map<string, string>, now: Clock)
    ensures FlushFiles(files, list, now).Keys == files.Keys + Targets(list, now)
  {
  }

  lemma AppendContent(files: Files, p: Path, text: string, q: Path)
    ensures Content(Append(files, p, text), q) == Content(files, q) + (if q == p then text else "")
    ensures Append(files, p, text).Keys == files.Keys + {p}
  {
  }

  lemma FlushOneMoreAt(files: Files, list: map<string, string>, now: Clock, host: string, text: string, p: Path)
    requires host !in list
    ensures Content(FlushFiles(files, list[host := text], now), p)
         == Content(Append(FlushFiles(files, list, now), HourOf(host, now(host)), text), p)
  {
    hide FlushFiles, Append, Content;
    FlushContent(files, list, now, p);
    FlushContent(files, list[host := text], now, p);
    AppendContent(FlushFiles(files, list, now), HourOf(host, now(host)), text, p);
    var c := Content(files, p);
    assert c + "" == c && c + "" + text == c + text;
  }

  /** One host's block first, the others after it. */
  lemma FlushOneFirst(files: Files, list: map<string, string>, now: Clock, host: string, text: string)
    requires host !in list
    ensures FlushFiles(Append(files, HourOf(host, now(host)), text), list, now)
         == FlushFiles(files, list[host := text], now)
  {
    hide FlushFiles, Append, Targets, HourOf;
    var first := Append(files, HourOf(host, now(host)), text);
    forall p
      ensures Content(FlushFiles(first, list, now), p) == Content(FlushFiles(files, list[host := text], now), p)
    {
      FlushOneFirstAt(files, list, now, host, text, p);
    }
    FlushKeys(first, list, now);
    FlushKeys(files, list[host := text], now);
    TargetsOneMore(list, now, host, text);
    AppendContent(files, HourOf(host, now(host)), text, HourOf(host, now(host)));
    SameFiles(FlushFiles(first, list, now), FlushFiles(files, list[host := text], now));
  }

  lemma FlushOneFirstAt(files: Files, list: map<string, string>, now: Clock, host: string, text: string, p: Path)
    requires host !in list
    ensures Content(FlushFiles(Append(files, HourOf(host, now(host)), text), list, now), p)
         == Content(FlushFiles(files, list[host := text], now), p)
  {
    hide FlushFiles, Append, Content;
    FlushContent(Append(files, HourOf(host, now(host)), text), list, now, p);
    FlushContent(files, list[host := text], now, p);
    AppendContent(files, HourOf(host, now(host)), text, p);
    var c := Content(files, p);
    assert c + "" == c && c + text + "" == c + text;
  }

  lemma TargetsOneMore(list: map<string, string>, now: Clock, host: string, text: string)
    ensures Targets(list[host := text], now) == Targets(list, now) + {HourOf(host, now(host))}
  {
  }

  lemma SameFiles(a: Files, b: Files)
    requires a.Keys == b.Keys && forall p :: Content(a, p) == Content(b, p)
    ensures a == b
  {
    forall p | p in a
      ensures a[p] == b[p]
    {
      assert Content(a, p) == Content(b, p);
    }
  }

  lemma FlushNothing(files: Files, now: Clock)
    ensures FlushFiles(files, map[], now) == files
  {
    assert Targets(map[], now) == {};
    forall p
      ensures Content(FlushFiles(files, map[], now), p) == Content(files, p)
    {
      FlushContent(files, map[], now, p);
    }
    SameFiles(FlushFiles(files, map[], now), files);
  }

  /** One batch and the clock it is written by. */
  datatype Written = Written(params: seq<Param>, now: Clock)

  function FlushAll(files: Files, batches: seq<Written>): Files
    decreases batches
  {
    if batches == [] then files
    else FlushAll(FlushFiles(files, Grouped(batches[0].params), batches[0].now), batches[1..])
  }

  /** The number of `url.Values` parameters with a host key. */
  function EventCount(host: string, batches: seq<Written>): nat {
    if batches == [] then 0 else CountOf(host, batches[0].params) + EventCount(host, batches[1..])
  }

  function CountOf(host: string, params: seq<Param>): nat {
    if params == [] then 0
    else (if params[0].Values? && params[0].key == host then 1 else 0) + CountOf(host, params[1..])
  }

  lemma {:induction false} CountIsLength(host: string, params: seq<Param>)
    ensures |LinesFor(host, params)| == CountOf(host, params)
  {
    if params != [] {
      CountIsLength(host, params[1..]);
    }
  }

  /** All of a host's blocks are written on the day `date`. */
  predicate OnDay(batches: seq<Written>, host: string, date: Date) {
    forall i :: 0 <= i < |batches| ==>
      && AllLineFree(batches[i].params)
      && ValidTime(batches[i].now(host)) && batches[i].now(host).date == date
  }

  /** The iteration of the archive loop that reads an hour. */
  function Iteration(day: Time, hour: nat): nat
    requires ValidTime(day) && hour < HOURS
  {
    (hour + HOURS - day.hour) % HOURS
  }

  /** A block of lines appended to one hour adds its lines to the count from the iteration on
      that reads the hour. */
  lemma {:induction false} TotalGrows(before: Files, after: Files, host: string, day: Time, hour: nat, text: string, n: nat)
    requires ValidTime(day) && hour < HOURS && n <= HOURS && TerminatedHours(before, host, day)
    requires forall k :: 0 <= k < HOURS ==>
      HourText(after, host, day, k) == HourText(before, host, day, k) + (if k == Iteration(day, hour) then text else "")
    ensures Total(after, host, day, n)
         == Total(before, host, day, n) + (if Iteration(day, hour) < n then CountLines(text) else 0)
  {
    hide HourText, Terminated, Iteration, CountLines, Total, Valid;
    NoTotal(before, host, day);
    NoTotal(after, host, day);
    if n > 0 {
      TotalGrows(before, after, host, day, hour, text, n - 1);
      var was := HourText(before, host, day, n - 1);
      TotalStep(before, host, day, n);
      TotalStep(after, host, day, n);
      CountAppend(was, text);
      CountAppend(was, "");
    }
  }

  lemma NoTotal(files: Files, host: string, day: Time)
    requires ValidTime(day)
    ensures Total(files, host, day, 0) == 0
  {
  }

  lemma TotalStep(files: Files, host: string, day: Time, n: nat)
    requires ValidTime(day) && 0 < n <= HOURS
    ensures Total(files, host, day, n) == Total(files, host, day, n - 1) + CountLines(HourText(files, host, day, n - 1))
  {
    hide HourText, CountLines, Valid;
  }

  lemma CountAppend(a: string, b: string)
    requires Terminated(a)
    ensures CountLines(a + b) == CountLines(a) + CountLines(b)
    ensures CountLines("") == 0
  {
    LinesAppend(a, b);
  }

  function TextOf(host: string, list: map<string, string>): string {
    if host in list then list[host] else ""
  }

  lemma GroupedText(host: string, params: seq<Param>)
    requires AllLineFree(params)
    ensures var text := TextOf(host, Grouped(params));
            Terminated(text) && CountLines(text) == CountOf(host, params)
  {
    hide CountOf, LinesFor, TextFor, Split;
    CountIsLength(host, params);
    GroupedLines(host, params);
    CountsLines(TextOf(host, Grouped(params)));
    if host !in Grouped(params) {
      NoLines(host, params);
    }
  }

  lemma FlushedHour(files: Files, list: map<string, string>, now: Clock, host: string, day: Time, k: nat)
    requires ValidTime(day) && k < HOURS && ValidTime(now(host)) && now(host).date == day.date
    ensures HourText(FlushFiles(files, list, now), host, day, k)
         == HourText(files, host, day, k) + (if k == Iteration(day, now(host).hour) then TextOf(host, list) else "")
  {
    hide FlushFiles, Valid, AddHours, TextOf, Content;
    FlushContent(files, list, now, HourPath(host, day, k));
    HourIsTarget(list, now, host, day, k);
  }

  lemma HourIsTarget(list: map<string, string>, now: Clock, host: string, day: Time, k: nat)
    requires ValidTime(day) && k < HOURS && ValidTime(now(host)) && now(host).date == day.date
    ensures (if IsTarget(list, now, HourPath(host, day, k)) then list[host] else "")
         == (if k == Iteration(day, now(host).hour) then TextOf(host, list) else "")
  {
    hide Valid, AddHours, HourNumber;
    RoundTheClock(day.hour, now(host).hour, k);
    assert HourPath(host, day, k).hour == now(host).hour <==> k == Iteration(day, now(host).hour);
  }

  /** A batch puts the lines of each of its hosts behind those of the host's current hour, and
      leaves every other file as it is. */
  lemma FlushedLines(files: Files, params: seq<Param>, now: Clock, p: Path)
    requires AllLineFree(params) && Terminated(Content(files, p))
    ensures var after := FlushFiles(files, Grouped(params), now);
            if p.HourFile? && p.date == now(p.host).date && p.hour == now(p.host).hour then
              Lines(Content(after, p)) == Lines(Content(files, p)) + Lines(TextFor(p.host, params))
            else Content(after, p) == Content(files, p)
  {
    hide FlushFiles, Content, TextFor, Lines, Terminated;
    FlushContent(files, Grouped(params), now, p);
    assert Content(files, p) + "" == Content(files, p);
    if p == HourOf(p.host, now(p.host)) {
      if p.host in Keys(params) {
        LinesAppend(Content(files, p), TextFor(p.host, params));
      } else {
        NoLines(p.host, params);
        LinesEmpty();
        assert Lines(Content(files, p)) + [] == Lines(Content(files, p));
      }
    }
  }

  /** One batch adds as many lines to the host's day as it holds parameters of the host. */
  lemma FlushAddsCount(files: Files, b: Written, host: string, day: Time)
    requires ValidTime(day) && TerminatedHours(files, host, day)
    requires AllLineFree(b.params) && ValidTime(b.now(host)) && b.now(host).date == day.date
    ensures var after := FlushFiles(files, Grouped(b.params), b.now);
            && TerminatedHours(after, host, day)
            && Total(after, host, day, HOURS) == Total(files, host, day, HOURS) + CountOf(host, b.params)
  {
    hide FlushFiles, Terminated, CountLines, CountOf, Total, HourText, TextOf, Grouped, Valid, Iteration;
    var after := FlushFiles(files, Grouped(b.params), b.now);
    var text := TextOf(host, Grouped(b.params));
    GroupedText(host, b.params);
    EmptyTerminated();
    forall k | 0 <= k < HOURS
      ensures HourText(after, host, day, k)
           == HourText(files, host, day, k) + (if k == Iteration(day, b.now(host).hour) then text else "")
      ensures Terminated(HourText(after, host, day, k))
    {
      FlushedHour(files, Grouped(b.params), b.now, host, day, k);
      TerminatedAppend(HourText(files, host, day, k), text);
      TerminatedAppend(HourText(files, host, day, k), "");
    }
    IterationInRange(day, b.now(host).hour);
    TotalGrows(files, after, host, day, b.now(host).hour, text, HOURS);
  }

  lemma IterationInRange(day: Time, hour: nat)
    requires ValidTime(day) && hour < HOURS
    ensures Iteration(day, hour) < HOURS
  {
  }

  lemma CountsLines(text: string)
    ensures CountLines(text) == |Lines(text)|
  {
  }

  lemma {:induction false} FlushAllAddsCount(files: Files, batches: seq<Written>, host: string, day: Time)
    requires ValidTime(day) && TerminatedHours(files, host, day) && OnDay(batches, host, day.date)
    ensures var after := FlushAll(files, batches);
            && TerminatedHours(after, host, day)
            && Total(after, host, day, HOURS) == Total(files, host, day, HOURS) + EventCount(host, batches)
    decreases batches
  {
    if batches != [] {
      hide FlushFiles, TerminatedHours, Total, CountOf;
      FlushAddsCount(files, batches[0], host, day);
      FlushAllAddsCount(FlushFiles(files, Grouped(batches[0].params), batches[0].now), batches[1..], host, day);
    }
  }

  predicate NoHoursOf(files: Files, host: string, day: Time)
    requires ValidTime(day)
  {
    forall k :: 0 <= k < HOURS ==> HourText(files, host, day, k) == ""
  }

  lemma {:induction false} NothingCounted(files: Files, host: string, day: Time, n: nat)
    requires ValidTime(day) && n <= HOURS && NoHoursOf(files, host, day)
    ensures Total(files, host, day, n) == 0
  {
    hide Total, HourText, CountLines, Valid;
    NoTotal(files, host, day);
    if n > 0 {
      NothingCounted(files, host, day, n - 1);
      TotalStep(files, host, day, n);
      NoLinesInNothing();
    }
  }

  lemma NoLinesInNothing()
    ensures CountLines("") == 0
  {
  }

  /** The index counts events: over any batches flushed on one UTC day, the last range of the
      host's index ends at the number of parameters with that host key. */
  lemma IndexCountsEvents(files: Files, batches: seq<Written>, host: string, day: Time)
    requires ValidTime(day) && NoHoursOf(files, host, day) && OnDay(batches, host, day.date)
    ensures LastEnd(Entries(FlushAll(files, batches), host, day, HOURS)) == EventCount(host, batches)
  {
    hide FlushAll, Total, Entries;
    NothingCounted(files, host, day, HOURS);
    FlushAllAddsCount(files, batches, host, day);
    RangesAreContiguous(FlushAll(files, batches), host, day, HOURS);
  }
}
