/** Grouping a batch of requests by host (backup/backup.go). */
module Batch {
  import opened Text

  /** A batched parameter: `url.Values`, as its host key and its JSON text, or a value of
      another type, which the type assertion skips. */
  datatype Param = Values(key: string, json: string) | Other

  /** The lines of one key, in batch order. */
  function LinesFor(key: string, params: seq<Param>): seq<string> {
    if params == [] then []
    else if params[0].Values? && params[0].key == key then [params[0].json] + LinesFor(key, params[1..])
    else LinesFor(key, params[1..])
  }

  function TextFor(key: string, params: seq<Param>): string {
    Unlines(LinesFor(key, params))
  }

  function Keys(params: seq<Param>): set<string> {
    set i | 0 <= i < |params| && params[i].Values? :: params[i].key
  }

  /** Each key of the batch with its text. */
  function Grouped(params: seq<Param>): map<string, string> {
    map k | k in Keys(params) :: TextFor(k, params)
  }

  /** JSON text has no raw newline (section 7 of RFC 8259). */
  predicate AllLineFree(params: seq<Param>) {
    forall i :: 0 <= i < |params| && params[i].Values? ==> LineFree(params[i].json)
  }

  lemma {:induction false} LinesForAppend(key: string, xs: seq<Param>, ys: seq<Param>)
    ensures LinesFor(key, xs + ys) == LinesFor(key, xs) + LinesFor(key, ys)
  {
    if xs == [] {
      assert xs + ys == ys;
    } else {
      assert (xs + ys)[1..] == xs[1..] + ys;
      LinesForAppend(key, xs[1..], ys);
    }
  }

  /** Grouping is an order-preserving homomorphism, key by key. */
  lemma GroupingAppend(key: string, xs: seq<Param>, ys: seq<Param>)
    ensures TextFor(key, xs + ys) == TextFor(key, xs) + TextFor(key, ys)
  {
    LinesForAppend(key, xs, ys);
    UnlinesAppend(LinesFor(key, xs), LinesFor(key, ys));
  }

  lemma {:induction false} LinesForLineFree(key: string, params: seq<Param>)
    requires AllLineFree(params)
    ensures forall l :: l in LinesFor(key, params) ==> LineFree(l)
  {
    if params != [] {
      LinesForLineFree(key, params[1..]);
    }
  }

  /** The text of a key holds exactly the JSON values of that key, one a line, in order. */
  lemma GroupedLines(key: string, params: seq<Param>)
    requires AllLineFree(params)
    ensures Terminated(TextFor(key, params))
    ensures Lines(TextFor(key, params)) == LinesFor(key, params)
  {
    LinesForLineFree(key, params);
    LinesUnlines(LinesFor(key, params));
  }

  /** The lines of a key are the JSON values of its parameters, each once and in their order. */
  lemma {:induction false} GroupedInOrder(key: string, params: seq<Param>) returns (at: seq<nat>)
    requires AllLineFree(params)
    ensures Increasing(at, |params|)
    ensures forall i :: 0 <= i < |params| ==> (i in at <==> params[i].Values? && params[i].key == key)
    ensures var lines := Lines(TextFor(key, params));
            |lines| == |at| && forall k :: 0 <= k < |at| ==> params[at[k]].Values? && lines[k] == params[at[k]].json
  {
    hide Increasing, LinesFor;
    GroupedLines(key, params);
    at := LinesInOrder(key, params);
    assert forall i :: 0 <= i < |params| ==> (i in at <==> LineOf(key, params)[i].Some?);
  }

  function LineOf(key: string, params: seq<Param>): seq<Option<string>> {
    seq(|params|, i requires 0 <= i < |params| =>
      if params[i].Values? && params[i].key == key then Some(params[i].json) else None)
  }

  lemma {:induction false} LinesInOrder(key: string, params: seq<Param>) returns (at: seq<nat>)
    ensures AllOf(LineOf(key, params), at) && Appended([], LinesFor(key, params), LineOf(key, params), at)
  {
    hide LinesFor, AllOf, Appended;
    if params == [] {
      at := [];
      NoParams(key);
    } else {
      var n := |params| - 1;
      var front, last := params[..n], params[n];
      at := LinesInOrder(key, front);
      assert params == front + [last];
      LinesForAppend(key, front, [last]);
      LinesForOne(key, last);
      var all, more := LineOf(key, front), LineOf(key, params)[n];
      assert LineOf(key, params) == all + [more];
      AllOfMore(all, at, more);
      AppendedMore([], LinesFor(key, front), all, at, more);
      if more.Some? {
        at := at + [n];
      } else {
        assert LinesFor(key, front) + [] == LinesFor(key, front);
      }
    }
  }

  lemma NoParams(key: string)
    ensures LinesFor(key, []) == [] && LineOf(key, []) == []
    ensures AllOf(LineOf(key, []), []) && Appended([], LinesFor(key, []), LineOf(key, []), [])
  {
  }

  /** How often a value occurs among the lines of a key. */
  lemma {:induction false} LinesForCount(key: string, params: seq<Param>, json: string)
    ensures multiset(LinesFor(key, params))[json] == multiset(params)[Values(key, json)]
  {
    if params != [] {
      var p, rest := params[0], params[1..];
      LinesForCount(key, rest, json);
      assert params == [p] + rest;
      if p.Values? && p.key == key {
        assert LinesFor(key, params) == [p.json] + LinesFor(key, rest);
      }
    }
  }

  /** A map with a text added to the end of one entry. */
  function Extended(m: map<string, string>, key: string, text: string): map<string, string> {
    m[key := (if key in m then m[key] else "") + text]
  }

  /** The map that `makeBackupList` builds. */
  class BackupList {
    var lines: map<string, string>

    constructor ()
      ensures lines == map[]
    {
      lines := map[];
    }

    method AppendLine(key: string, value: string)
      modifies this
      ensures lines == Extended(old(lines), key, value + "\n")
    {
      if key !in lines {
        lines := lines[key := ""];
      }
      lines := lines[key := lines[key] + (value + "\n")];
    }

    /** Adding one parameter to the grouping of those before it. */
    method BackupItem(p: Param, ghost before: seq<Param>)
      requires lines == Grouped(before)
      modifies this
      ensures lines == Grouped(before + [p])
    {
      GroupedSnoc(before, p);
      if p.Other? {
        return;
      }
      AppendLine(p.key, p.json);
    }
  }

  lemma GroupedSnoc(params: seq<Param>, p: Param)
    ensures p.Other? ==> Grouped(params + [p]) == Grouped(params)
    ensures p.Values? ==> Grouped(params + [p]) == Extended(Grouped(params), p.key, p.json + "\n")
  {
    hide TextFor, Keys;
    var all := params + [p];
    KeysSnoc(params, p);
    forall k
      ensures TextFor(k, all) == if p.Values? && p.key == k then TextFor(k, params) + (p.json + "\n") else TextFor(k, params)
      ensures k !in Keys(params) ==> TextFor(k, params) == ""
    {
      TextForSnoc(k, params, p);
    }
  }

  lemma KeysSnoc(params: seq<Param>, p: Param)
    ensures Keys(params + [p]) == Keys(params) + (if p.Values? then {p.key} else {})
  {
    var all := params + [p];
    forall k
      ensures k in Keys(all) <==> k in Keys(params) || (p.Values? && k == p.key)
    {
      if k in Keys(params) {
        var i :| 0 <= i < |params| && params[i].Values? && params[i].key == k;
        assert all[i] == params[i];
      }
      assert all[|params|] == p;
    }
  }

  lemma TextForSnoc(k: string, params: seq<Param>, p: Param)
    ensures TextFor(k, params + [p]) ==
            if p.Values? && p.key == k then TextFor(k, params) + (p.json + "\n") else TextFor(k, params)
    ensures k !in Keys(params) ==> TextFor(k, params) == ""
  {
    hide TextFor, Keys;
    GroupingAppend(k, params, [p]);
    TextForOne(k, p);
    if k !in Keys(params) {
      NoLines(k, params);
    }
    assert TextFor(k, params) + "" == TextFor(k, params);
  }

  lemma LinesForOne(k: string, p: Param)
    ensures LinesFor(k, [p]) == if p.Values? && p.key == k then [p.json] else []
  {
    assert [p][1..] == [] && LinesFor(k, []) == [];
  }

  lemma TextForOne(k: string, p: Param)
    ensures TextFor(k, [p]) == if p.Values? && p.key == k then p.json + "\n" else ""
  {
    LinesForOne(k, p);
    if p.Values? && p.key == k {
      UnlinesOne(p.json);
    } else {
      assert LinesFor(k, [p]) == [];
    }
  }

  lemma {:induction false} NoLines(k: string, params: seq<Param>)
    requires k !in Keys(params)
    ensures LinesFor(k, params) == [] && TextFor(k, params) == ""
  {
    if params != [] {
      assert params[0].Values? ==> params[0].key in Keys(params);
      forall j | j in Keys(params[1..])
        ensures j in Keys(params)
      {
        var i :| 0 <= i < |params[1..]| && params[1..][i].Values? && params[1..][i].key == j;
        assert params[i + 1] == params[1..][i];
      }
      NoLines(k, params[1..]);
    }
  }

  method MakeBackupList(params: seq<Param>) returns (list: BackupList)
    ensures fresh(list)
    ensures list.lines == Grouped(params)
  {
    list := new BackupList();
    for i := 0 to |params|
      invariant fresh(list)
      invariant list.lines == Grouped(params[..i])
    {
      assert params[..i + 1] == params[..i] + [params[i]];
      list.BackupItem(params[i], params[..i]);
    }
    assert params[..|params|] == params;
  }
}
