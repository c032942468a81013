/** Laws of the bucket log: lexing and printing are inverse, decoding composes, run lengths
    can be multiplied out, and the encoded form of a list of runs decodes to that list. */
module BucketLogLaws {
  import opened Text
  import opened Numerals
  import opened BucketLog

  /* ---- every byte string is exactly one proper token stream ---- */

  lemma FirstIsProper(m: Mode, s: seq<Byte>)
    requires s != []
    ensures |First(m, s).Text()| <= |s|
    ensures ProperBefore(m, First(m, s), s[|First(m, s).Text()|..])
  {
    FirstIsPrefix(m, s);
    var t := First(m, s);
    match t
    case Lone(_) => assert s[|t.Text()|..] == s[1..];
    case Count(_) =>
    case Wrapped(_) =>
    case Symbol(_) =>
    case Field(body) => assert body != [] ==> body[0] == s[0];
    case Tail(_) => assert s[|s|..] == [];
    case Pair(_, _) =>
    case Torn(_) => assert s[|s|..] == [];
    case Opaque(_) =>
  }

  /** Lexing loses nothing, and yields a proper stream, for every byte string. */
  lemma {:induction false} LexThenPrint(m: Mode, s: seq<Byte>)
    ensures Proper(m, Lex(m, s)) && Print(Lex(m, s)) == s
    decreases |s|
  {
    if s != [] {
      FirstIsPrefix(m, s);
      FirstIsProper(m, s);
      var t := First(m, s);
      var rest := s[|t.Text()|..];
      LexThenPrint(m, rest);
      var ts := Lex(m, s);
      assert ts[0] == t && ts[1..] == Lex(m, rest);
      assert s == s[..|t.Text()|] + rest;
    }
  }

  lemma FirstOfMarked(m: Mode, mark: Byte, body: seq<Byte>, rest: seq<Byte>)
    requires IsMark(mark) && mark !in body
    ensures First(m, [mark] + body + [mark] + rest)
         == if mark == '*' then Count(body) else Wrapped(body)
  {
    var s := [mark] + body + [mark] + rest;
    assert s[1..] == body + [mark] + rest;
    IndexIs(body, mark, rest);
    assert s[1..][..|body|] == body;
  }

  lemma FirstOfField(body: seq<Byte>, rest: seq<Byte>)
    requires ',' !in body && (body == [] || !IsMark(body[0]))
    ensures First(Large, body + [','] + rest) == Field(body)
  {
    var s := body + [','] + rest;
    assert s[0] == if body == [] then ',' else body[0];
    IndexIs(body, ',', rest);
    assert s[..|body|] == body;
  }

  lemma FirstOfText(m: Mode, t: Token, rest: seq<Byte>)
    requires ProperBefore(m, t, rest)
    ensures t.Text() != [] && First(m, t.Text() + rest) == t
  {
    var s := t.Text() + rest;
    match t
    case Lone(_) => assert s[1..] == rest;
    case Count(body) => FirstOfMarked(m, '*', body, rest);
    case Wrapped(body) => FirstOfMarked(m, '.', body, rest);
    case Symbol(_) =>
    case Field(body) => FirstOfField(body, rest);
    case Tail(body) => assert s == body;
    case Pair(_, _) =>
    case Torn(_) =>
    case Opaque(_) =>
  }

  /** Printing a proper stream and lexing it gives the stream back. */
  lemma {:induction false} PrintThenLex(m: Mode, ts: seq<Token>)
    requires Proper(m, ts)
    ensures Lex(m, Print(ts)) == ts
  {
    if ts != [] {
      var rest := Print(ts[1..]);
      FirstOfText(m, ts[0], rest);
      PrintThenLex(m, ts[1..]);
      var s := ts[0].Text() + rest;
      assert s[|ts[0].Text()|..] == rest;
    }
  }

  /* ---- composition ---- */

  predicate AllSelfDelimiting(ts: seq<Token>) {
    forall i :: 0 <= i < |ts| ==> ts[i].SelfDelimiting()
  }

  lemma {:induction false} PrintAppend(ts: seq<Token>, us: seq<Token>)
    ensures Print(ts + us) == Print(ts) + Print(us)
  {
    if ts == [] {
      assert ts + us == us;
    } else {
      assert (ts + us)[1..] == ts[1..] + us;
      PrintAppend(ts[1..], us);
    }
  }

  lemma SelfDelimitingBefore(m: Mode, t: Token, a: seq<Byte>, b: seq<Byte>)
    requires t.SelfDelimiting() && ProperBefore(m, t, a)
    ensures ProperBefore(m, t, b)
  {
  }

  lemma ProperCons(m: Mode, t: Token, ts: seq<Token>)
    requires ProperBefore(m, t, Print(ts)) && Proper(m, ts)
    ensures Proper(m, [t] + ts)
  {
    assert ([t] + ts)[1..] == ts;
  }

  lemma {:induction false} ProperAppend(m: Mode, ts: seq<Token>, us: seq<Token>)
    requires Proper(m, ts) && Proper(m, us) && AllSelfDelimiting(ts)
    ensures Proper(m, ts + us)
  {
    if ts == [] {
      assert ts + us == us;
    } else {
      var rest := ts[1..] + us;
      ProperAppend(m, ts[1..], us);
      SelfDelimitingBefore(m, ts[0], Print(ts[1..]), Print(rest));
      ProperCons(m, ts[0], rest);
      AppendCons(ts, us);
    }
  }

  /** Self-delimiting tokens are read the same in front of any bytes. */
  lemma LexAppend(m: Mode, u: seq<Byte>, v: seq<Byte>)
    requires AllSelfDelimiting(Lex(m, u))
    ensures Lex(m, u + v) == Lex(m, u) + Lex(m, v)
  {
    var ts, us := Lex(m, u), Lex(m, v);
    LexThenPrint(m, u);
    LexThenPrint(m, v);
    ProperAppend(m, ts, us);
    PrintAppend(ts, us);
    PrintThenLex(m, ts + us);
  }

  /** The previous number and the pending repeat count after a stream. */
  function Carry(lib: Base36Library, ts: seq<Token>, num: U64, repeat: U64): (U64, U64) {
    if ts == [] then (num, repeat)
    else
      match ts[0]
      case Lone(_) => Carry(lib, ts[1..], num, repeat)
      case Count(body) => Carry(lib, ts[1..], num, Decode36(lib, body))
      case Torn(_) => (num, repeat)
      case t => Carry(lib, ts[1..], NumberValue(lib, t, num), 1)
  }

  /** What `us` decodes to behind `ts`. */
  function EvalAfter(lib: Base36Library, ts: seq<Token>, us: seq<Token>, num: U64, repeat: U64): Outcome {
    var c := Carry(lib, ts, num, repeat);
    Eval(lib, us, c.0, c.1)
  }

  lemma PrependAppend(xs: seq<U64>, ys: seq<U64>, o: Outcome)
    ensures Prepend(xs, Prepend(ys, o)) == Prepend(xs + ys, o)
  {
    match o
    case Ok(zs) => assert xs + (ys + zs) == (xs + ys) + zs;
    case Panic =>
  }

  /** A stream that does not panic is decoded first, then what follows it, from the carried
      number and count. */
  lemma {:induction false} EvalAppend(lib: Base36Library, ts: seq<Token>, us: seq<Token>, num: U64, repeat: U64)
    requires Eval(lib, ts, num, repeat).Ok?
    ensures Eval(lib, ts + us, num, repeat)
         == Prepend(Eval(lib, ts, num, repeat).out, EvalAfter(lib, ts, us, num, repeat))
  {
    var after := EvalAfter(lib, ts, us, num, repeat);
    if ts == [] {
      assert ts + us == us;
      PrependNothing(after);
    } else {
      var all := ts + us;
      assert all[0] == ts[0] && all[1..] == ts[1..] + us;
      if ts[0].Lone? {
        EvalAppend(lib, ts[1..], us, num, repeat);
      } else if ts[0].Count? {
        EvalAppend(lib, ts[1..], us, num, Decode36(lib, ts[0].body));
      } else {
        var v := NumberValue(lib, ts[0], num);
        EvalAppend(lib, ts[1..], us, v, 1);
        PrependAppend(Copies(v, repeat), Eval(lib, ts[1..], v, 1).out, after);
      }
    }
  }

  lemma PrependNothing(o: Outcome)
    ensures Prepend([], o) == o
  {
    match o
    case Ok(xs) => assert [] + xs == xs;
    case Panic =>
  }

  /** In the three known modes no token looks at the number before it. */
  lemma {:induction false} PreviousNumberUnused(lib: Base36Library, m: Mode, ts: seq<Token>, a: U64, b: U64, repeat: U64)
    requires !m.Unknown? && Proper(m, ts)
    ensures Eval(lib, ts, a, repeat) == Eval(lib, ts, b, repeat)
  {
    if ts != [] {
      match ts[0]
      case Lone(_) => PreviousNumberUnused(lib, m, ts[1..], a, b, repeat);
      case Count(body) => PreviousNumberUnused(lib, m, ts[1..], a, b, Decode36(lib, body));
      case Torn(_) =>
      case _ =>
    }
  }

  lemma {:induction false} SelfDelimitingDecodes(lib: Base36Library, ts: seq<Token>, num: U64, repeat: U64)
    requires AllSelfDelimiting(ts)
    ensures Eval(lib, ts, num, repeat).Ok?
    ensures ts != [] && !ts[|ts| - 1].Count? ==> Carry(lib, ts, num, repeat).1 == 1
  {
    if ts != [] {
      if ts[0].Count? {
        SelfDelimitingDecodes(lib, ts[1..], num, Decode36(lib, ts[0].body));
      } else {
        SelfDelimitingDecodes(lib, ts[1..], NumberValue(lib, ts[0], num), 1);
      }
    }
  }

  /** A complete piece of a log: every wrap closed, every large number ended by its comma,
      every percent pair whole, and no run count left pending. */
  predicate Complete(m: Mode, u: seq<Byte>) {
    var ts := Lex(m, u);
    AllSelfDelimiting(ts) && (ts != [] ==> !ts[|ts| - 1].Count?)
  }

  /** Compositional decoding: behind a complete piece, any bytes decode as on their own. */
  lemma DecodeComposes(lib: Base36Library, t: Byte, u: seq<Byte>, v: seq<Byte>)
    requires !ModeOf(t).Unknown? && Complete(ModeOf(t), u)
    ensures Decode(lib, [t] + u).Ok?
    ensures Decode(lib, [t] + (u + v)) == Prepend(Decode(lib, [t] + u).out, Decode(lib, [t] + v))
  {
    var m := ModeOf(t);
    DecodeOfType(lib, t, u);
    DecodeOfType(lib, t, v);
    DecodeOfType(lib, t, u + v);
    LexAppend(m, u, v);
    LexThenPrint(m, v);
    SelfDelimitingDecodes(lib, Lex(m, u), 0, 1);
    EvalAppend(lib, Lex(m, u), Lex(m, v), 0, 1);
    PreviousNumberUnused(lib, m, Lex(m, v), Carry(lib, Lex(m, u), 0, 1).0, 0, 1);
  }

  lemma DecodeOfType(lib: Base36Library, t: Byte, s: seq<Byte>)
    ensures Decode(lib, [t] + s) == Eval(lib, Lex(ModeOf(t), s), 0, 1)
  {
    assert ([t] + s)[1..] == s;
  }

  /** A '*' or '.' without a later partner adds nothing and keeps a pending repeat count: the
      data decodes as if the mark were not there. */
  lemma LoneMarkIsSkipped(lib: Base36Library, t: Byte, u: seq<Byte>, mark: Byte, v: seq<Byte>)
    requires AllSelfDelimiting(Lex(ModeOf(t), u)) && IsMark(mark) && mark !in v
    ensures Decode(lib, [t] + (u + ([mark] + v))) == Decode(lib, [t] + (u + v))
  {
    var m := ModeOf(t);
    DecodeOfType(lib, t, u + v);
    DecodeOfType(lib, t, u + ([mark] + v));
    LexAppend(m, u, v);
    LexAppend(m, u, [mark] + v);
    FirstOfText(m, Lone(mark), v);
    assert ([mark] + v)[1..] == v;
    SelfDelimitingDecodes(lib, Lex(m, u), 0, 1);
    EvalAppend(lib, Lex(m, u), Lex(m, v), 0, 1);
    EvalAppend(lib, Lex(m, u), Lex(m, [mark] + v), 0, 1);
  }

  /* ---- panics and length ---- */

  /** The one way to crash the decoder: percent data whose last token is half a pair. */
  predicate EndsTorn(ts: seq<Token>) {
    ts != [] && ts[|ts| - 1].Torn?
  }

  lemma {:induction false} EvalPanicsIffTorn(lib: Base36Library, m: Mode, ts: seq<Token>, num: U64, repeat: U64)
    requires Proper(m, ts)
    ensures Eval(lib, ts, num, repeat).Panic? <==> EndsTorn(ts)
  {
    if ts != [] {
      var rest := ts[1..];
      match ts[0]
      case Lone(_) => EvalPanicsIffTorn(lib, m, rest, num, repeat);
      case Count(body) => EvalPanicsIffTorn(lib, m, rest, num, Decode36(lib, body));
      case Torn(c) => NothingPrintsEmpty(m, rest);
      case t => EvalPanicsIffTorn(lib, m, rest, NumberValue(lib, t, num), 1);
    }
  }

  lemma NothingPrintsEmpty(m: Mode, ts: seq<Token>)
    requires Proper(m, ts) && Print(ts) == []
    ensures ts == []
  {
    if ts != [] {
      FirstOfText(m, ts[0], Print(ts[1..]));
      assert false;
    }
  }

  /** Decoding panics exactly on percent data that stops inside a pair, and never in the
      small and large modes. */
  lemma DecodePanicsIff(lib: Base36Library, t: Byte, s: seq<Byte>)
    ensures Decode(lib, [t] + s).Panic? <==> EndsTorn(Lex(ModeOf(t), s))
    ensures Decode(lib, [t] + s).Panic? ==> t == '2'
  {
    var m := ModeOf(t);
    DecodeOfType(lib, t, s);
    LexThenPrint(m, s);
    EvalPanicsIffTorn(lib, m, Lex(m, s), 0, 1);
    if EndsTorn(Lex(m, s)) {
      TornIsPercent(m, Lex(m, s));
    }
  }

  predicate NoMarks(s: seq<Byte>) {
    '*' !in s && '.' !in s
  }

  /** Without marks, percent data is pairs, and a half at the end if its length is odd. */
  lemma {:induction false} PairsAndHalf(s: seq<Byte>)
    requires NoMarks(s)
    ensures EndsTorn(Lex(Percent, s)) <==> |s| % 2 == 1
    decreases |s|
  {
    if |s| == 1 {
      assert First(Percent, s) == Torn(s[0]);
      assert Lex(Percent, s[1..]) == [];
    } else if |s| > 1 {
      assert First(Percent, s) == Pair(s[0], s[1]);
      var rest := s[2..];
      PairsAndHalf(rest);
      var ts := Lex(Percent, rest);
      assert Lex(Percent, s) == [Pair(s[0], s[1])] + ts;
      assert ts != [] ==> ([Pair(s[0], s[1])] + ts)[|ts|] == ts[|ts| - 1];
    }
  }

  /** Percent data without a mark crashes the decoder exactly when a byte is left over. */
  lemma PlainPercentPanicsIff(lib: Base36Library, s: seq<Byte>)
    requires NoMarks(s)
    ensures Decode(lib, ['2'] + s) == Panic <==> |s| % 2 == 1
  {
    DecodePanicsIff(lib, '2', s);
    PairsAndHalf(s);
  }

  /** The shortest such data: one digit of a pair. */
  lemma HalfAPairPanics(lib: Base36Library)
    ensures Decode(lib, "25") == Panic
  {
    PlainPercentPanicsIff(lib, "5");
    assert ['2'] + "5" == "25";
  }

  lemma {:induction false} TornIsPercent(m: Mode, ts: seq<Token>)
    requires Proper(m, ts) && EndsTorn(ts)
    ensures m.Percent?
  {
    if |ts| > 1 {
      assert ts[1..][|ts| - 2] == ts[|ts| - 1];
      TornIsPercent(m, ts[1..]);
    }
  }

  /* ---- multiplying out the run lengths ---- */

  /** `n` copies of a token, at least one. */
  function Repeated(t: Token, n: U64): seq<Token> {
    seq(Times(n), _ => t)
  }

  /** The stream with each run count replaced by copies of its number token: no counts, no
      lone marks, and a comma behind the last large number. */
  function Unroll(lib: Base36Library, ts: seq<Token>, repeat: U64): seq<Token> {
    if ts == [] then []
    else
      match ts[0]
      case Lone(_) => Unroll(lib, ts[1..], repeat)
      case Count(body) => Unroll(lib, ts[1..], Decode36(lib, body))
      case Torn(c) => [ts[0]]
      case Tail(body) =>
        Repeated(Field(if body == [] then [] else Rune(body[0])), repeat) + Unroll(lib, ts[1..], 1)
      case t => Repeated(t, repeat) + Unroll(lib, ts[1..], 1)
  }

  /** The flat form of a log as bytes. */
  function Flat(lib: Base36Library, m: Mode, s: seq<Byte>): seq<Byte> {
    Print(Unroll(lib, Lex(m, s), 1))
  }

  /** Copies of one number token decode to copies of its value. */
  lemma {:induction false} EvalCopies(lib: Base36Library, t: Token, v: U64, ts: seq<Token>, us: seq<Token>, num: U64)
    requires t.IsNumber() && forall i :: 0 <= i < |ts| ==> ts[i] == t
    requires NumberValue(lib, t, num) == v && NumberValue(lib, t, v) == v
    ensures ts != [] ==> Eval(lib, ts + us, num, 1) == Prepend(seq(|ts|, _ => v), Eval(lib, us, v, 1))
  {
    if ts != [] {
      var all := ts + us;
      assert all[0] == t && all[1..] == ts[1..] + us;
      assert Copies(v, 1) == [v];
      if |ts| == 1 {
        assert ts[1..] + us == us;
        assert seq(1, _ => v) == [v];
      } else {
        EvalCopies(lib, t, v, ts[1..], us, v);
        var more := seq(|ts| - 1, _ => v);
        PrependAppend([v], more, Eval(lib, us, v, 1));
        assert [v] + more == seq(|ts|, _ => v);
      }
    }
  }

  lemma EvalRepeated(lib: Base36Library, t: Token, n: U64, us: seq<Token>, num: U64)
    requires t.IsNumber()
    ensures var v := NumberValue(lib, t, num);
            Eval(lib, Repeated(t, n) + us, num, 1) == Prepend(Copies(v, n), Eval(lib, us, v, 1))
  {
    EvalCopies(lib, t, NumberValue(lib, t, num), Repeated(t, n), us, num);
  }

  /** Run-length elimination preserves meaning, on token streams. */
  lemma {:induction false} UnrollPreservesEval(lib: Base36Library, ts: seq<Token>, num: U64, repeat: U64)
    ensures Eval(lib, Unroll(lib, ts, repeat), num, 1) == Eval(lib, ts, num, repeat)
  {
    if ts != [] {
      var rest := ts[1..];
      match ts[0]
      case Lone(_) => UnrollPreservesEval(lib, rest, num, repeat);
      case Count(body) => UnrollPreservesEval(lib, rest, num, Decode36(lib, body));
      case Torn(c) =>
      case Tail(body) =>
        var f := Field(if body == [] then [] else Rune(body[0]));
        assert Decode36(lib, []) == 0;
        EvalRepeated(lib, f, repeat, Unroll(lib, rest, 1), num);
        UnrollPreservesEval(lib, rest, NumberValue(lib, f, num), 1);
      case t =>
        EvalRepeated(lib, t, repeat, Unroll(lib, rest, 1), num);
        UnrollPreservesEval(lib, rest, NumberValue(lib, t, num), 1);
    }
  }

  /** Only number tokens, except that the last may be half a percent pair. */
  predicate IsFlat(ts: seq<Token>) {
    forall i :: 0 <= i < |ts| ==>
      (ts[i].IsNumber() && !ts[i].Tail?) || (ts[i].Torn? && i == |ts| - 1)
  }

  lemma {:induction false} RepeatedIsProper(m: Mode, t: Token, ts: seq<Token>)
    requires t.IsNumber() && !t.Tail? && ProperBefore(m, t, [])
    requires forall i :: 0 <= i < |ts| ==> ts[i] == t
    ensures Proper(m, ts) && AllSelfDelimiting(ts)
  {
    if ts != [] {
      RepeatedIsProper(m, t, ts[1..]);
    }
  }

  /** Copies of a number token in front of a flat stream. */
  lemma RepeatedInFront(m: Mode, t: Token, n: U64, ts: seq<Token>)
    requires t.IsNumber() && !t.Tail? && ProperBefore(m, t, [])
    requires Proper(m, ts) && IsFlat(ts)
    ensures Proper(m, Repeated(t, n) + ts) && IsFlat(Repeated(t, n) + ts)
  {
    hide Proper, ProperBefore;
    RepeatedIsProper(m, t, Repeated(t, n));
    ProperAppend(m, Repeated(t, n), ts);
  }

  lemma TailAsField(b: Byte)
    requires b != ',' && !IsMark(b)
    ensures ProperBefore(Large, Field(Rune(b)), [])
  {
  }

  lemma {:induction false} UnrollIsFlat(lib: Base36Library, m: Mode, ts: seq<Token>, repeat: U64)
    requires Proper(m, ts)
    ensures Proper(m, Unroll(lib, ts, repeat)) && IsFlat(Unroll(lib, ts, repeat))
  {
    hide IsFlat, Print, Rune, Repeated, Decode36;
    if ts == [] {
      FlatEnd(m, '0');
    } else {
      var t, rest := ts[0], ts[1..];
      if t.Lone? {
        UnrollIsFlat(lib, m, rest, repeat);
      } else if t.Count? {
        UnrollIsFlat(lib, m, rest, Decode36(lib, t.body));
      } else if t.Torn? {
        FlatEnd(m, t.c);
      } else if t.Tail? {
        TailAsField(t.body[0]);
        UnrollIsFlat(lib, m, rest, 1);
        RepeatedInFront(m, Field(Rune(t.body[0])), repeat, Unroll(lib, rest, 1));
      } else {
        UnrollIsFlat(lib, m, rest, 1);
        RepeatedInFront(m, t, repeat, Unroll(lib, rest, 1));
      }
    }
  }

  lemma FlatEnd(m: Mode, c: Byte)
    ensures IsFlat([]) && Proper(m, [])
    ensures m.Percent? && !IsMark(c) ==> IsFlat([Torn(c)]) && Proper(m, [Torn(c)])
  {
    assert [Torn(c)][1..] == [];
  }

  /** Run-length elimination on bytes: the flat form has no run counts and decodes the same,
      for every byte string in every mode. */
  lemma FlatDecodesTheSame(lib: Base36Library, t: Byte, s: seq<Byte>)
    ensures IsFlat(Lex(ModeOf(t), Flat(lib, ModeOf(t), s)))
    ensures Decode(lib, [t] + Flat(lib, ModeOf(t), s)) == Decode(lib, [t] + s)
  {
    var m := ModeOf(t);
    var flat := Unroll(lib, Lex(m, s), 1);
    LexThenPrint(m, s);
    UnrollIsFlat(lib, m, Lex(m, s), 1);
    PrintThenLex(m, flat);
    UnrollPreservesEval(lib, Lex(m, s), 0, 1);
    DecodeOfType(lib, t, s);
    DecodeOfType(lib, t, Flat(lib, m, s));
  }

  /** The sum of max(1, repeat) over the number tokens. */
  function NumbersEmitted(lib: Base36Library, ts: seq<Token>, repeat: U64): nat {
    if ts == [] then 0
    else
      match ts[0]
      case Lone(_) => NumbersEmitted(lib, ts[1..], repeat)
      case Count(body) => NumbersEmitted(lib, ts[1..], Decode36(lib, body))
      case Torn(_) => 0
      case _ => (if repeat == 0 then 1 else repeat) + NumbersEmitted(lib, ts[1..], 1)
  }

  /** The output holds max(1, repeat) numbers for each number token. */
  lemma {:induction false} EvalLength(lib: Base36Library, ts: seq<Token>, num: U64, repeat: U64)
    requires Eval(lib, ts, num, repeat).Ok?
    ensures |Eval(lib, ts, num, repeat).out| == NumbersEmitted(lib, ts, repeat) == |Unroll(lib, ts, repeat)|
  {
    if ts != [] {
      if ts[0].Lone? {
        EvalLength(lib, ts[1..], num, repeat);
      } else if ts[0].Count? {
        EvalLength(lib, ts[1..], num, Decode36(lib, ts[0].body));
      } else {
        EvalLength(lib, ts[1..], NumberValue(lib, ts[0], num), 1);
      }
    }
  }

  /* ---- round trips ---- */

  function SymbolOf(v: nat): (c: Byte)
    requires v <= 63
    ensures !IsMark(c)
  {
    if v < 36 then DigitChar(v)
    else if v < 62 then 'A' + (v - 36) as char
    else if v == 62 then '_'
    else '-'
  }

  predicate IsSymbol(c: Byte) {
    '0' <= c <= '9' || 'a' <= c <= 'z' || 'A' <= c <= 'Z' || c == '_' || c == '-'
  }

  /** The table is a bijection between its 64 symbols and 0..63; other bytes read as 0. */
  lemma SymbolTable(v: nat, c: Byte)
    ensures v <= 63 ==> IsSymbol(SymbolOf(v)) && SymbolValue(SymbolOf(v)) == v
    ensures SymbolValue(c) <= 63
    ensures IsSymbol(c) ==> SymbolOf(SymbolValue(c)) == c
    ensures !IsSymbol(c) ==> SymbolValue(c) == 0
  {
  }

  /** One value, written once or with a run count in front. */
  datatype Run = Run(value: nat, count: Option<nat>)

  /** 36^12: the library decodes all numbers below it. */
  const LIMIT: nat := 4738381338321616896

  predicate Fits(n: nat) {
    n < LIMIT
  }

  predicate Encodable(r: Run) {
    Fits(r.value) && (r.count.Some? ==> Fits(r.count.value))
  }

  predicate AllEncodable(runs: seq<Run>) {
    forall i :: 0 <= i < |runs| ==> Encodable(runs[i])
  }

  /** The token a mode uses for a value. */
  function NumberToken(m: Mode, v: nat): Token {
    match m
    case Small => if v <= 63 then Symbol(SymbolOf(v)) else Wrapped(Numeral(v, 36))
    case Large => Field(Numeral(v, 36))
    case Percent =>
      if v == 100 then Pair('_', '_')
      else if v < 100 then Pair(DigitChar(v / 10), DigitChar(v % 10))
      else Wrapped(Numeral(v, 36))
    case Unknown => Wrapped(Numeral(v, 36))
  }

  function RunTokens(m: Mode, r: Run): seq<Token> {
    match r.count
    case None => [NumberToken(m, r.value)]
    case Some(n) => [Count(Numeral(n, 36)), NumberToken(m, r.value)]
  }

  function Encode(m: Mode, runs: seq<Run>): seq<Token> {
    if runs == [] then [] else RunTokens(m, runs[0]) + Encode(m, runs[1..])
  }

  /** The numbers that a list of runs stands for. */
  function Expand(runs: seq<Run>): seq<U64>
    requires AllEncodable(runs)
  {
    if runs == [] then []
    else
      var v: U64 := runs[0].value;
      seq(RunLength(runs[0]), _ => v) + Expand(runs[1..])
  }

  lemma NumeralDecodes(lib: Base36Library, n: nat)
    requires Fits(n)
    ensures Decode36(lib, Numeral(n, 36)) == n
  {
    Power36();
    NumeralLength(n, 36, 12);
    ValueOfNumeral(n, 36);
  }

  /** The digits of a number are no mark and no comma. */
  lemma NumeralIsPlain(n: nat)
    ensures var d := Numeral(n, 36); d != [] && '*' !in d && '.' !in d && ',' !in d && !IsMark(d[0])
  {
    hide Numeral;
    ValueOfNumeral(n, 36);
  }

  /** The two-digit form of a percentage. */
  lemma PairDecodes(v: nat)
    requires v <= 100
    ensures var t := NumberToken(Percent, v); t.Pair? && !IsMark(t.a) && PairValue(t.a, t.b) == v
  {
  }

  lemma NumberTokenDecodes(lib: Base36Library, m: Mode, v: nat, num: U64)
    requires Fits(v)
    ensures var t := NumberToken(m, v);
            t.IsNumber() && t.SelfDelimiting() && ProperBefore(m, t, []) && NumberValue(lib, t, num) == v
  {
    NumeralDecodes(lib, v);
    NumeralIsPlain(v);
    if m.Percent? && v <= 100 {
      PairDecodes(v);
    } else if m.Small? && v <= 63 {
      SymbolTable(v, '0');
    }
    hide Decode36, Numeral, SymbolValue, PairValue, SymbolOf;
  }

  lemma RunIsProper(m: Mode, r: Run)
    requires Encodable(r)
    ensures Proper(m, RunTokens(m, r)) && AllSelfDelimiting(RunTokens(m, r))
  {
    hide NumberToken, NumberValue;
    var t := NumberToken(m, r.value);
    NumberTokenDecodes(_ => 0, m, r.value, 0);
    assert [t][1..] == [];
    if r.count.Some? {
      ProperCons(m, Count(Numeral(r.count.value, 36)), [t]);
    }
  }

  lemma {:induction false} EncodeIsProper(m: Mode, runs: seq<Run>)
    requires AllEncodable(runs)
    ensures Proper(m, Encode(m, runs)) && AllSelfDelimiting(Encode(m, runs))
  {
    if runs != [] {
      hide Proper, RunTokens;
      RunIsProper(m, runs[0]);
      EncodeIsProper(m, runs[1..]);
      ProperAppend(m, RunTokens(m, runs[0]), Encode(m, runs[1..]));
    }
  }

  /** How often a run's value occurs. */
  function RunLength(r: Run): (n: U64)
    requires Encodable(r)
  {
    if r.count.None? || r.count.value == 0 then 1 else r.count.value
  }

  lemma EvalFirst(lib: Base36Library, t: Token, ts: seq<Token>, num: U64, repeat: U64)
    ensures t.Count? ==> Eval(lib, [t] + ts, num, repeat) == Eval(lib, ts, num, Decode36(lib, t.body))
    ensures t.IsNumber() ==>
      var v := NumberValue(lib, t, num);
      Eval(lib, [t] + ts, num, repeat) == Prepend(Copies(v, repeat), Eval(lib, ts, v, 1))
  {
    assert ([t] + ts)[1..] == ts;
  }

  lemma RunEvaluates(lib: Base36Library, m: Mode, r: Run, ts: seq<Token>, num: U64)
    requires Encodable(r)
    ensures Eval(lib, RunTokens(m, r) + ts, num, 1)
         == Prepend(Copies(r.value, RunLength(r)), Eval(lib, ts, r.value, 1))
  {
    hide Eval, NumberToken, NumberValue, Decode36;
    var t := NumberToken(m, r.value);
    NumberTokenDecodes(lib, m, r.value, num);
    if r.count.Some? {
      var c := Count(Numeral(r.count.value, 36));
      NumeralDecodes(lib, r.count.value);
      assert [c, t] + ts == [c] + ([t] + ts);
      EvalFirst(lib, c, [t] + ts, num, 1);
      EvalFirst(lib, t, ts, num, r.count.value);
    } else {
      EvalFirst(lib, t, ts, num, 1);
    }
  }

  lemma {:induction false} EncodeEvaluates(lib: Base36Library, m: Mode, runs: seq<Run>, num: U64)
    requires AllEncodable(runs)
    ensures Eval(lib, Encode(m, runs), num, 1) == Ok(Expand(runs))
  {
    if runs != [] {
      var r := runs[0];
      assert Copies(r.value, RunLength(r)) == seq(RunLength(r), _ => r.value);
      RunEvaluates(lib, m, r, Encode(m, runs[1..]), num);
      EncodeEvaluates(lib, m, runs[1..], runs[0].value);
    }
  }

  /** Round trip, in every mode: any list of values below 36^12, split into runs in any way,
      is decoded from its encoding. */
  lemma RoundTrip(lib: Base36Library, t: Byte, runs: seq<Run>)
    requires AllEncodable(runs)
    ensures Decode(lib, [t] + Print(Encode(ModeOf(t), runs))) == Ok(Expand(runs))
  {
    var m := ModeOf(t);
    EncodeIsProper(m, runs);
    PrintThenLex(m, Encode(m, runs));
    EncodeEvaluates(lib, m, runs, 0);
    DecodeOfType(lib, t, Print(Encode(m, runs)));
  }

  /** The same at the type bytes. */
  lemma RoundTripOfTypes(lib: Base36Library, runs: seq<Run>)
    requires AllEncodable(runs)
    ensures Decode(lib, ['0'] + Print(Encode(Small, runs))) == Ok(Expand(runs))
    ensures Decode(lib, ['1'] + Print(Encode(Large, runs))) == Ok(Expand(runs))
    ensures Decode(lib, ['2'] + Print(Encode(Percent, runs))) == Ok(Expand(runs))
  {
    hide Decode, Print, Encode, Expand;
    RoundTrip(lib, '0', runs);
    RoundTrip(lib, '1', runs);
    RoundTrip(lib, '2', runs);
  }

  /** No run count is pending behind an encoded list. */
  lemma {:induction false} EncodeEndsInNumber(m: Mode, runs: seq<Run>)
    requires AllEncodable(runs) && runs != []
    ensures var ts := Encode(m, runs); ts != [] && ts[|ts| - 1].IsNumber()
  {
    hide NumberToken, NumberValue;
    NumberTokenDecodes(_ => 0, m, runs[0].value, 0);
    if |runs| == 1 {
      assert Encode(m, runs[1..]) == [];
    } else {
      EncodeEndsInNumber(m, runs[1..]);
    }
  }

  lemma CarryOfEncode(lib: Base36Library, m: Mode, runs: seq<Run>)
    requires AllEncodable(runs)
    ensures Carry(lib, Encode(m, runs), 0, 1).1 == 1
  {
    hide Encode, Carry, Eval, Proper, AllSelfDelimiting, AllEncodable;
    if runs == [] {
      NothingCarried(lib, m);
    } else {
      EncodeEndsInNumber(m, runs);
      EncodeIsProper(m, runs);
      SelfDelimitingDecodes(lib, Encode(m, runs), 0, 1);
    }
  }

  lemma NothingCarried(lib: Base36Library, m: Mode)
    ensures Carry(lib, Encode(m, []), 0, 1).1 == 1
  {
  }

  /** A number at the very end of large data: its first digit. */
  lemma TailEvaluates(lib: Base36Library, last: nat, num: U64)
    ensures var d := Numeral(last, 36);
            Lex(Large, d) == [Tail(d)] && Eval(lib, [Tail(d)], num, 1) == Ok([DigitValue(d[0])])
  {
    var d := Numeral(last, 36);
    FirstOfText(Large, Tail(d), []);
    assert d + [] == d && d[|d|..] == [];
    ValueOfDigit(d[0], 36);
    assert [d[0]] == Rune(d[0]);
    var v := DigitValue(d[0]);
    assert Copies(v, 1) == [v];
    assert [v] + [] == [v];
  }

  lemma LargeTailDecodes(lib: Base36Library, runs: seq<Run>, last: nat)
    requires AllEncodable(runs)
    ensures Decode(lib, ['1'] + (Print(Encode(Large, runs)) + Numeral(last, 36)))
         == Ok(Expand(runs) + [DigitValue(Numeral(last, 36)[0])])
  {
    var ts, d := Encode(Large, runs), Numeral(last, 36);
    DecodeOfType(lib, '1', Print(ts) + d);
    EncodeIsProper(Large, runs);
    PrintThenLex(Large, ts);
    LexAppend(Large, Print(ts), d);
    EncodeEvaluates(lib, Large, runs, 0);
    EvalAppend(lib, ts, [Tail(d)], 0, 1);
    CarryOfEncode(lib, Large, runs);
    TailEvaluates(lib, last, Carry(lib, ts, 0, 1).0);
  }

  lemma FirstDigit(n: nat)
    ensures var d := DigitValue(Numeral(n, 36)[0]); d < 36 && (d == n <==> n < 36)
  {
  }

  /** Large mode without the last comma: only the first digit of the last number is read, so
      the number comes back exactly when it has one digit. */
  lemma LargeTailRoundTrip(lib: Base36Library, runs: seq<Run>, last: nat)
    requires AllEncodable(runs) && Fits(last)
    ensures Decode(lib, ['1'] + (Print(Encode(Large, runs)) + Numeral(last, 36))) == Ok(Expand(runs) + [last])
       <==> last < 36
  {
    hide Decode, Numeral, Expand, Print, Encode, DigitValue;
    LargeTailDecodes(lib, runs, last);
    FirstDigit(last);
    var n, d := |Expand(runs)|, DigitValue(Numeral(last, 36)[0]);
    assert (Expand(runs) + [d])[n] == d;
    assert (Expand(runs) + [last])[n] == last;
  }
}
