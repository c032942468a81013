/** The files of one backup directory and their names (backup/backup.go, backup/archive.go). */
module Paths {
  import opened Numerals
  import opened Calendar

  /** A file below the backup directory. */
  datatype Path =
    | HourFile(host: string, date: Date, hour: nat)
    | DayFile(host: string, date: Date)
    | MetaFile(host: string, date: Date)

  /** `strconv.Itoa` of a number that is not negative. */
  function Itoa(n: nat): (s: string)
    ensures |s| >= 1 && IsNumeral(s, 10)
  {
    Numeral(n, 10)
  }

  /** The date, in decimals without padding. */
  function DateText(d: Date): string {
    Itoa(d.year) + ("-" + (Itoa(d.month) + ("-" + Itoa(d.day))))
  }

  /** The directory of a host's day. */
  function DayDir(host: string, date: Date): string {
    host + ("/" + DateText(date))
  }

  const LINES_SUFFIX := ".json.lines"
  const META_SUFFIX := "-parts-meta.txt"

  /** The part of a name behind its date; `ext` is the compression's extension. */
  function Suffix(ext: string, p: Path): (s: string)
    ensures |s| > 0 && (s[0] == '/' || s[0] == '.' || s[0] == '-')
  {
    match p
    case HourFile(_, _, hour) => "/" + (Itoa(hour) + LINES_SUFFIX)
    case DayFile(_, _) => LINES_SUFFIX + ext
    case MetaFile(_, _) => META_SUFFIX
  }

  function Name(ext: string, p: Path): string {
    p.host + ("/" + (DateText(p.date) + Suffix(ext, p)))
  }

  /** A host key: not empty, no slash, and no dot, for `makeKeyHostname` replaces dots. */
  predicate LegalKey(host: string) {
    host != "" && '/' !in host && '.' !in host
  }

  /** Decimals without leading zeros. */
  lemma Decimals(n: nat)
    ensures n < 10 ==> Itoa(n) == ['0' + n as char]
    ensures n >= 10 ==> Itoa(n) == Itoa(n / 10) + ['0' + (n % 10) as char]
  {
  }

  /** The names as the program joins them: only the day file carries the compression's extension. */
  lemma NamesAre(ext: string, host: string, d: Date, hour: nat)
    ensures var day := Itoa(d.year) + "-" + Itoa(d.month) + "-" + Itoa(d.day);
            && Name(ext, HourFile(host, d, hour)) == host + "/" + day + "/" + Itoa(hour) + ".json.lines"
            && Name(ext, DayFile(host, d)) == host + "/" + day + ".json.lines" + ext
            && Name(ext, MetaFile(host, d)) == host + "/" + day + "-parts-meta.txt"
  {
    hide Itoa, DateText;
    var day := DateText(d);
    DayTextIs(d);
    Join(host, day, "/", Itoa(hour), ".json.lines");
    Join(host, day, "", ".json.lines", ext);
    Join(host, day, "", "", "-parts-meta.txt");
  }

  lemma DayTextIs(d: Date)
    ensures DateText(d) == Itoa(d.year) + "-" + Itoa(d.month) + "-" + Itoa(d.day)
  {
    hide Itoa;
    var y, m, k := Itoa(d.year), Itoa(d.month), Itoa(d.day);
    assert y + ("-" + (m + ("-" + k))) == y + "-" + m + "-" + k;
  }

  lemma Join(host: string, day: string, a: string, b: string, c: string)
    ensures host + ("/" + (day + (a + (b + c)))) == host + "/" + day + a + b + c
    ensures a == "" ==> a + (b + c) == b + c && host + "/" + day + a == host + "/" + day
    ensures b == "" ==> b + c == c && host + "/" + day + a + b == host + "/" + day + a
  {
  }

  /** How far a text stays inside a class of characters. */
  function Span(inside: char -> bool, s: string): nat {
    if s == "" || !inside(s[0]) then 0 else 1 + Span(inside, s[1..])
  }

  lemma {:induction false} SpanIs(inside: char -> bool, a: string, r: string)
    requires forall c :: c in a ==> inside(c)
    requires r != "" && !inside(r[0])
    ensures Span(inside, a + r) == |a|
  {
    if a == "" {
      assert a + r == r;
    } else {
      assert (a + r)[0] == a[0] && a[0] in a;
      assert (a + r)[1..] == a[1..] + r;
      SpanIs(inside, a[1..], r);
    }
  }

  /** Equal texts whose fronts stop at the first character outside a class have equal fronts. */
  lemma Cancel(inside: char -> bool, a: string, r: string, b: string, s: string)
    requires forall c :: c in a || c in b ==> inside(c)
    requires r != "" && s != "" && !inside(r[0]) && !inside(s[0])
    requires a + r == b + s
    ensures a == b && r == s
  {
    SpanIs(inside, a, r);
    SpanIs(inside, b, s);
    assert (a + r)[..|a|] == a && (b + s)[..|b|] == b;
    assert (a + r)[|a|..] == r && (b + s)[|b|..] == s;
  }

  lemma CancelNumber(m: nat, r: string, n: nat, s: string)
    requires r != "" && s != "" && !IsDigit(r[0], 10) && !IsDigit(s[0], 10)
    requires Itoa(m) + r == Itoa(n) + s
    ensures m == n && r == s
  {
    Cancel(c => IsDigit(c, 10), Itoa(m), r, Itoa(n), s);
    NumeralInjective(m, n, 10);
  }

  lemma DateTextSplit(d: Date, r: string)
    ensures DateText(d) + r == Itoa(d.year) + ("-" + (Itoa(d.month) + ("-" + (Itoa(d.day) + r))))
  {
  }

  lemma CancelDash(a: string, b: string)
    requires "-" + a == "-" + b
    ensures a == b
  {
    assert ("-" + a)[1..] == a && ("-" + b)[1..] == b;
  }

  lemma CancelDate(d: Date, r: string, e: Date, s: string)
    requires r != "" && s != "" && !IsDigit(r[0], 10) && !IsDigit(s[0], 10)
    requires DateText(d) + r == DateText(e) + s
    ensures d == e && r == s
  {
    hide DateText, Itoa;
    DateTextSplit(d, r);
    DateTextSplit(e, s);
    var md, me := Itoa(d.month) + ("-" + (Itoa(d.day) + r)), Itoa(e.month) + ("-" + (Itoa(e.day) + s));
    CancelNumber(d.year, "-" + md, e.year, "-" + me);
    CancelDash(md, me);
    CancelNumber(d.month, "-" + (Itoa(d.day) + r), e.month, "-" + (Itoa(e.day) + s));
    CancelDash(Itoa(d.day) + r, Itoa(e.day) + s);
    CancelNumber(d.day, r, e.day, s);
  }

  lemma CancelHost(h: string, r: string, g: string, s: string)
    requires LegalKey(h) && LegalKey(g)
    requires h + ("/" + r) == g + ("/" + s)
    ensures h == g && r == s
  {
    Cancel(c => c != '/', h, "/" + r, g, "/" + s);
    assert ("/" + r)[1..] == r && ("/" + s)[1..] == s;
  }

  /** Distinct files have distinct names: hour files, archives and meta files of all hosts,
      dates and hours never collide, whatever the extension. */
  lemma NameInjective(ext: string, p: Path, q: Path)
    requires LegalKey(p.host) && LegalKey(q.host)
    requires Name(ext, p) == Name(ext, q)
    ensures p == q
  {
    hide DateText;
    CancelHost(p.host, DateText(p.date) + Suffix(ext, p), q.host, DateText(q.date) + Suffix(ext, q));
    CancelDate(p.date, Suffix(ext, p), q.date, Suffix(ext, q));
    SuffixInjective(ext, p, q);
  }

  lemma SuffixInjective(ext: string, p: Path, q: Path)
    requires p.host == q.host && p.date == q.date && Suffix(ext, p) == Suffix(ext, q)
    ensures p == q
  {
    assert Suffix(ext, p)[0] == Suffix(ext, q)[0];
    if p.HourFile? {
      assert q.HourFile?;
      assert ("/" + (Itoa(p.hour) + LINES_SUFFIX))[1..] == Itoa(p.hour) + LINES_SUFFIX;
      assert ("/" + (Itoa(q.hour) + LINES_SUFFIX))[1..] == Itoa(q.hour) + LINES_SUFFIX;
      CancelNumber(p.hour, LINES_SUFFIX, q.hour, LINES_SUFFIX);
    }
  }

  lemma SlashSuffix(ext: string, p: Path, r: string)
    requires Suffix(ext, p) == "/" + r
    ensures p.HourFile?
  {
    assert Suffix(ext, p)[0] == '/';
  }

  lemma DayDirSplit(host: string, date: Date, r: string)
    ensures DayDir(host, date) + "/" + r == host + ("/" + (DateText(date) + ("/" + r)))
  {
  }

  /** `RemoveAll` of a day directory deletes exactly the hour files of that host and day. */
  lemma UnderDayDir(ext: string, p: Path, host: string, date: Date)
    requires LegalKey(p.host) && LegalKey(host)
    ensures DayDir(host, date) + "/" <= Name(ext, p)
       <==> p.HourFile? && p.host == host && p.date == date
  {
    hide Name, DayDir;
    if DayDir(host, date) + "/" <= Name(ext, p) {
      InDayDir(ext, p, host, date);
    }
    if p.HourFile? && p.host == host && p.date == date {
      HourInDayDir(ext, p);
    }
  }

  lemma InDayDir(ext: string, p: Path, host: string, date: Date)
    requires LegalKey(p.host) && LegalKey(host)
    requires DayDir(host, date) + "/" <= Name(ext, p)
    ensures p.HourFile? && p.host == host && p.date == date
  {
    hide DateText, DayDir, Itoa, Suffix, LegalKey;
    var dir, name := DayDir(host, date) + "/", Name(ext, p);
    var rest := name[|dir|..];
    assert name == dir + rest;
    DayDirSplit(host, date, rest);
    SuffixStarts(ext, p);
    CancelHost(p.host, DateText(p.date) + Suffix(ext, p), host, DateText(date) + ("/" + rest));
    CancelDate(p.date, Suffix(ext, p), date, "/" + rest);
    SlashSuffix(ext, p, rest);
  }

  lemma SuffixStarts(ext: string, p: Path)
    ensures Suffix(ext, p) != "" && !IsDigit(Suffix(ext, p)[0], 10)
  {
  }

  lemma HourInDayDir(ext: string, p: Path)
    requires p.HourFile?
    ensures DayDir(p.host, p.date) + "/" <= Name(ext, p)
  {
    hide DateText, DayDir, Itoa;
    DayDirSplit(p.host, p.date, Itoa(p.hour) + LINES_SUFFIX);
  }
}
