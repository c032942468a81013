/** Strings as the Go code uses them: first index of a byte, splitting at a separator,
    and the whole lines of a text. */
module Text {
  datatype Option<+T> = None | Some(value: T)

  /** `strings.Index` for a one-byte needle. The two clauses fix the result. */
  function Index<T(==)>(s: seq<T>, c: T): (k: Option<nat>)
    ensures k.None? ==> c !in s
    ensures k.Some? ==> k.value < |s| && s[k.value] == c && c !in s[..k.value]
  {
    if s == [] then None
    else if s[0] == c then Some(0)
    else
      match Index(s[1..], c)
      case None => None
      case Some(k) =>
        assert s[..k + 1] == [s[0]] + s[1..][..k];
        Some(k + 1)
  }

  /** The first index of `c` is the one with nothing equal to `c` before it. */
  lemma {:induction false} IndexIs<T>(a: seq<T>, c: T, b: seq<T>)
    requires c !in a
    ensures Index(a + [c] + b, c) == Some(|a|)
  {
    var s := a + [c] + b;
    if a == [] {
      assert s[0] == c;
    } else {
      assert s[0] == a[0];
      assert s[1..] == a[1..] + [c] + b;
      IndexIs(a[1..], c, b);
    }
  }

  predicate Distinct<T(==)>(s: seq<T>) {
    forall i, j :: 0 <= i < j < |s| ==> s[i] != s[j]
  }

  lemma DistinctRest<T>(s: seq<T>)
    requires Distinct(s) && s != []
    ensures Distinct(s[1..]) && s[0] !in s[1..]
    ensures forall x :: x in s <==> x == s[0] || x in s[1..]
  {
    assert forall j :: 0 <= j < |s[1..]| ==> s[1..][j] == s[j + 1];
    assert s == [s[0]] + s[1..];
  }

  /** Positions below `n` in increasing order. */
  predicate Increasing(at: seq<nat>, n: nat) {
    forall k :: 0 <= k < |at| ==> at[k] < n && (k > 0 ==> at[k - 1] < at[k])
  }

  lemma OneMorePosition(at: seq<nat>, n: nat)
    requires Increasing(at, n)
    ensures Increasing(at, n + 1) && Increasing(at + [n], n + 1) && n !in at
    ensures forall i :: i in at + [n] <==> i in at || i == n
  {
  }

  lemma PositionBelow(at: seq<nat>, n: nat, k: nat)
    requires Increasing(at, n) && k < |at|
    ensures at[k] < n && at[k] in at
  {
  }

  /** `now` is `was`, and behind it what `all` has at the positions `at`. */
  predicate Appended<T(==)>(was: seq<T>, now: seq<T>, all: seq<Option<T>>, at: seq<nat>) {
    && |now| == |was| + |at| && was <= now
    && forall k :: 0 <= k < |at| ==> at[k] < |all| && all[at[k]] == Some(now[|was| + k])
  }

  lemma AppendedMore<T>(was: seq<T>, now: seq<T>, all: seq<Option<T>>, at: seq<nat>, more: Option<T>)
    requires Appended(was, now, all, at)
    ensures Appended(was, now, all + [more], at)
    ensures more.Some? ==> Appended(was, now + [more.value], all + [more], at + [|all|])
  {
  }

  /** Exactly the positions where `all` has something. */
  predicate AllOf<T>(all: seq<Option<T>>, at: seq<nat>) {
    Increasing(at, |all|) && forall i :: 0 <= i < |all| ==> (i in at <==> all[i].Some?)
  }

  lemma AllOfMore<T>(all: seq<Option<T>>, at: seq<nat>, more: Option<T>)
    requires AllOf(all, at)
    ensures AllOf(all + [more], if more.Some? then at + [|all|] else at)
  {
    OneMorePosition(at, |all|);
    hide Increasing;
    var longer := all + [more];
    forall i | 0 <= i < |longer|
      ensures i in (if more.Some? then at + [|all|] else at) <==> longer[i].Some?
    {
      assert i < |all| ==> longer[i] == all[i];
    }
  }

  /** `strings.Split` for a one-byte separator. */
  function Split(s: string, c: char): (parts: seq<string>)
    ensures |parts| >= 1
    decreases |s|
  {
    match Index(s, c)
    case None => [s]
    case Some(k) => [s[..k]] + Split(s[k + 1..], c)
  }

  lemma SplitNone(s: string, c: char)
    requires c !in s
    ensures Split(s, c) == [s]
  {
  }

  lemma SplitCons(a: string, c: char, b: string)
    requires c !in a
    ensures Split(a + [c] + b, c) == [a] + Split(b, c)
  {
    IndexIs(a, c, b);
    var s := a + [c] + b;
    assert s[..|a|] == a;
    assert s[|a| + 1..] == b;
  }

  lemma AppendCons<T>(a: seq<T>, b: seq<T>)
    requires a != []
    ensures a + b == [a[0]] + (a[1..] + b)
  {
  }

  /** A text made of whole lines: empty, or ending in a newline. */
  predicate Terminated(s: string) {
    s == [] || s[|s| - 1] == '\n'
  }

  /** The lines of a text, an unterminated rest left out. */
  function Lines(s: string): seq<string> {
    var parts := Split(s, '\n');
    parts[..|parts| - 1]
  }

  /** The text of a sequence of lines. */
  function Unlines(lines: seq<string>): string {
    if lines == [] then "" else lines[0] + "\n" + Unlines(lines[1..])
  }

  lemma UnlinesOne(line: string)
    ensures Unlines([line]) == line + "\n"
  {
    assert [line][1..] == [] && Unlines([]) == "";
    assert line + "\n" + "" == line + "\n";
  }

  predicate LineFree(s: string) {
    '\n' !in s
  }

  lemma LinesCons(a: string, b: string)
    requires LineFree(a)
    ensures Lines(a + "\n" + b) == [a] + Lines(b)
  {
    SplitCons(a, '\n', b);
  }

  lemma LinesEmpty()
    ensures Lines("") == []
  {
  }

  lemma {:induction false} SplitAppend(a: string, c: char, b: string)
    ensures Split(a + [c] + b, c) == Split(a, c) + Split(b, c)
    decreases |a|
  {
    hide Split, Index;
    match Index(a, c)
    case None =>
      SplitNone(a, c);
      SplitCons(a, c, b);
    case Some(k) =>
      var rest := a[k + 1..];
      assert a == a[..k] + [c] + rest;
      assert a + [c] + b == a[..k] + [c] + (rest + [c] + b);
      SplitCons(a[..k], c, rest);
      SplitCons(a[..k], c, rest + [c] + b);
      SplitAppend(rest, c, b);
  }

  lemma LinesAppend(a: string, b: string)
    requires Terminated(a)
    ensures Lines(a + b) == Lines(a) + Lines(b)
  {
    if a == [] {
      assert a + b == b;
    } else {
      var front := a[..|a| - 1];
      assert a == front + "\n" + "";
      assert a + b == front + "\n" + b;
      SplitAppend(front, '\n', "");
      SplitAppend(front, '\n', b);
    }
  }

  /** The lines of a front part are the first lines of the whole. */
  lemma {:induction false} LinesPrefix(a: string, b: string)
    requires a <= b
    ensures Lines(a) <= Lines(b)
    decreases |a|
  {
    hide Lines;
    var rest := b[|a|..];
    assert b == a + rest;
    match Index(a, '\n')
    case None => NoNewline(a);
    case Some(k) =>
      var line, more := a[..k], a[k + 1..];
      assert a == line + "\n" + more && b == line + "\n" + (more + rest);
      LinesCons(line, more);
      LinesCons(line, more + rest);
      LinesPrefix(more, more + rest);
  }

  lemma NoNewline(s: string)
    requires LineFree(s)
    ensures Lines(s) == []
  {
  }

  lemma TerminatedHoldsNewline(s: string)
    ensures Terminated(s) && s != [] ==> '\n' in s
  {
  }

  lemma EmptyTerminated()
    ensures Terminated("")
  {
  }

  lemma TerminatedAppend(a: string, b: string)
    requires Terminated(a) && Terminated(b)
    ensures Terminated(a + b)
  {
  }

  /** Splitting and joining are inverse on texts of whole lines. */
  lemma {:induction false} UnlinesLines(s: string)
    requires Terminated(s)
    ensures Unlines(Lines(s)) == s
    ensures forall l :: l in Lines(s) ==> LineFree(l)
    decreases |s|
  {
    match Index(s, '\n')
    case None =>
      TerminatedHoldsNewline(s);
    case Some(k) =>
      assert s == s[..k] + "\n" + s[k + 1..];
      LinesCons(s[..k], s[k + 1..]);
      UnlinesLines(s[k + 1..]);
  }

  lemma {:induction false} LinesUnlines(lines: seq<string>)
    requires forall l :: l in lines ==> LineFree(l)
    ensures Lines(Unlines(lines)) == lines
    ensures Terminated(Unlines(lines))
  {
    if lines != [] {
      LinesUnlines(lines[1..]);
      LinesCons(lines[0], Unlines(lines[1..]));
    }
  }

  lemma {:induction false} UnlinesAppend(a: seq<string>, b: seq<string>)
    ensures Unlines(a + b) == Unlines(a) + Unlines(b)
  {
    if a == [] {
      assert a + b == b;
    } else {
      assert (a + b)[1..] == a[1..] + b;
      UnlinesAppend(a[1..], b);
    }
  }
}
