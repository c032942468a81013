/** The bucket log's format byte by byte: what the decoder makes of each piece of data, at the
    bytes that are written, for any data behind it. Together these laws determine it. */
module Format {
  import opened Text
  import opened Numerals
  import opened BucketLog
  import opened BucketLogLaws

  predicate KnownType(t: Byte) {
    t == '0' || t == '1' || t == '2'
  }

  /* ---- numbers ---- */

  predicate Digit36(c: char) {
    '0' <= c <= '9' || 'a' <= c <= 'z'
  }

  /** Base 36, digit by digit: 0 to 9, then a to z; up to twelve digits. */
  lemma Base36Digits(lib: Base36Library, s: seq<Byte>, c: Byte)
    requires |s| < 12 && Digit36(c) && forall i :: 0 <= i < |s| ==> Digit36(s[i])
    ensures Decode36(lib, []) == 0
    ensures '0' <= c <= '9' ==> Decode36(lib, s + [c]) == 36 * Decode36(lib, s) + (c as nat - '0' as nat)
    ensures 'a' <= c <= 'z' ==> Decode36(lib, s + [c]) == 36 * Decode36(lib, s) + 10 + (c as nat - 'a' as nat)
  {
    ValueSnoc(s, c, 36);
    ValueEmpty(36);
    hide Value;
  }

  /** The symbols of the small-number mode stand for 0 to 63, other bytes for 0. */
  lemma Symbols(c: Byte)
    ensures '0' <= c <= '9' ==> SymbolValue(c) == c as nat - '0' as nat
    ensures 'a' <= c <= 'z' ==> SymbolValue(c) == 10 + (c as nat - 'a' as nat)
    ensures 'A' <= c <= 'Z' ==> SymbolValue(c) == 36 + (c as nat - 'A' as nat)
    ensures SymbolValue('_') == 62 && SymbolValue('-') == 63
    ensures !Digit36(c) && !('A' <= c <= 'Z') && c != '_' && c != '-' ==> SymbolValue(c) == 0
  {
  }

  /** Two digits are a percentage, `__` is 100, a sign is accepted, a negative number wraps, and
      anything else is 0. */
  lemma Pairs(a: Byte, b: Byte)
    ensures '0' <= a <= '9' && '0' <= b <= '9' ==>
      PairValue(a, b) == 10 * (a as nat - '0' as nat) + (b as nat - '0' as nat)
    ensures PairValue('_', '_') == 100
    ensures '0' <= b <= '9' ==> PairValue('+', b) == b as nat - '0' as nat
    ensures '1' <= b <= '9' ==> PairValue('-', b) == 0x1_0000_0000_0000_0000 - (b as nat - '0' as nat)
    ensures PairValue('-', '0') == 0
    ensures !('0' <= b <= '9') && !(a == b == '_') ==> PairValue(a, b) == 0
    ensures !('0' <= a <= '9') && a != '+' && a != '-' && !(a == b == '_') ==> PairValue(a, b) == 0
  {
  }

  /* ---- pieces ---- */

  /** A number, or a run count and a number, in front of any data. */
  lemma Piece(lib: Base36Library, t: Byte, ts: seq<Token>, rest: seq<Byte>)
    requires KnownType(t) && Proper(ModeOf(t), ts) && AllSelfDelimiting(ts)
    requires ts != [] ==> !ts[|ts| - 1].Count?
    ensures Eval(lib, ts, 0, 1).Ok?
    ensures Decode(lib, [t] + (Print(ts) + rest)) == Prepend(Eval(lib, ts, 0, 1).out, Decode(lib, [t] + rest))
  {
    hide Decode, Eval, Prepend, Proper;
    PrintThenLex(ModeOf(t), ts);
    DecodeComposes(lib, t, Print(ts), rest);
    DecodeOfType(lib, t, Print(ts));
  }

  lemma OneNumber(lib: Base36Library, t: Byte, number: Token, rest: seq<Byte>)
    requires KnownType(t) && number.IsNumber() && number.SelfDelimiting() && ProperBefore(ModeOf(t), number, [])
    ensures Decode(lib, [t] + (number.Text() + rest)) == Prepend([NumberValue(lib, number, 0)], Decode(lib, [t] + rest))
  {
    hide Decode, Prepend, Decode36, NumberValue, ProperBefore, Copies;
    var ts, v := [number], NumberValue(lib, number, 0);
    assert ts[1..] == [] && Print([]) == [];
    assert Print(ts) == number.Text() + Print([]) == number.Text();
    ProperOne(ModeOf(t), number);
    Piece(lib, t, ts, rest);
    OneEval(lib, number);
  }

  lemma ProperOne(m: Mode, number: Token)
    requires ProperBefore(m, number, [])
    ensures Proper(m, [number])
  {
    assert [number][1..] == [];
  }

  lemma OneEval(lib: Base36Library, number: Token)
    requires number.IsNumber()
    ensures Eval(lib, [number], 0, 1) == Ok([NumberValue(lib, number, 0)])
  {
    var v := NumberValue(lib, number, 0);
    assert [number][1..] == [] && Copies(v, 1) == [v];
    assert Eval(lib, [], v, 1) == Ok([]) && [v] + [] == [v];
  }

  /** A run count gives its number as often, but once for a count of 0. */
  lemma Counted(lib: Base36Library, t: Byte, count: seq<Byte>, number: Token, rest: seq<Byte>)
    requires KnownType(t) && '*' !in count
    requires number.IsNumber() && number.SelfDelimiting() && ProperBefore(ModeOf(t), number, [])
    ensures var n, v := Decode36(lib, count), NumberValue(lib, number, 0);
            Decode(lib, [t] + (['*'] + count + ['*'] + number.Text() + rest))
            == Prepend(Copies(v, n), Decode(lib, [t] + rest))
  {
    hide Decode, Prepend, Decode36, NumberValue, ProperBefore, Copies;
    var ts := [Count(count), number];
    assert ts[1..] == [number] && [number][1..] == [] && Print([]) == [];
    assert Print([number]) == number.Text() + Print([]) == number.Text();
    CountBefore(ModeOf(t), count, number.Text());
    assert Print(ts) == (['*'] + count + ['*']) + number.Text();
    ProperOne(ModeOf(t), number);
    ProperCons(ModeOf(t), Count(count), [number]);
    assert [Count(count)] + [number] == ts;
    Piece(lib, t, ts, rest);
    CountedEval(lib, count, number);
  }

  lemma CountBefore(m: Mode, count: seq<Byte>, rest: seq<Byte>)
    requires '*' !in count
    ensures ProperBefore(m, Count(count), rest) && Count(count).Text() == ['*'] + count + ['*']
  {
  }

  lemma CountedEval(lib: Base36Library, count: seq<Byte>, number: Token)
    requires number.IsNumber()
    ensures var n, v := Decode36(lib, count), NumberValue(lib, number, 0);
            Eval(lib, [Count(count), number], 0, 1) == Ok(Copies(v, n))
  {
    hide Decode36, Copies;
    var n, v := Decode36(lib, count), NumberValue(lib, number, 0);
    assert [Count(count), number][1..] == [number] && [number][1..] == [];
    assert Copies(v, n) + [] == Copies(v, n);
    assert Eval(lib, [], v, 1) == Ok([]);
  }

  /** A count of `n` means `n` numbers, but one for 0. */
  lemma CopiesAre(v: U64, n: U64)
    ensures |Copies(v, n)| == (if n == 0 then 1 else n) && forall k :: 0 <= k < |Copies(v, n)| ==> Copies(v, n)[k] == v
  {
  }

  /* ---- the laws ---- */

  lemma NoData(lib: Base36Library, t: Byte)
    ensures Decode(lib, []) == Ok([]) && Decode(lib, [t]) == Ok([])
  {
    assert [t][1..] == [];
  }

  /** `.digits.` is a number of any size, in every mode. */
  lemma WrappedNumber(lib: Base36Library, t: Byte, body: seq<Byte>, rest: seq<Byte>)
    requires KnownType(t) && '.' !in body
    ensures Decode(lib, [t] + (['.'] + body + ['.'] + rest)) == Prepend([Decode36(lib, body)], Decode(lib, [t] + rest))
  {
    hide Copies, Decode, Decode36, Prepend, ModeOf;
    WrappedBefore(ModeOf(t), lib, body);
    OneNumber(lib, t, Wrapped(body), rest);
    hide ProperBefore, NumberValue;
  }

  lemma WrappedNumbers(lib: Base36Library, t: Byte, count: seq<Byte>, body: seq<Byte>, rest: seq<Byte>)
    requires KnownType(t) && '.' !in body && '*' !in count
    ensures Decode(lib, [t] + (['*'] + count + ['*'] + (['.'] + body + ['.']) + rest))
         == Prepend(Copies(Decode36(lib, body), Decode36(lib, count)), Decode(lib, [t] + rest))
  {
    hide Copies, Decode, Decode36, Prepend, ModeOf;
    WrappedBefore(ModeOf(t), lib, body);
    Counted(lib, t, count, Wrapped(body), rest);
    hide ProperBefore, NumberValue;
  }

  lemma WrappedBefore(m: Mode, lib: Base36Library, body: seq<Byte>)
    requires '.' !in body
    ensures ProperBefore(m, Wrapped(body), []) && Wrapped(body).Text() == ['.'] + body + ['.']
    ensures NumberValue(lib, Wrapped(body), 0) == Decode36(lib, body)
  {
  }

  /** In type `0` each other byte is a number. */
  lemma SmallNumber(lib: Base36Library, c: Byte, rest: seq<Byte>)
    requires c != '*' && c != '.'
    ensures Decode(lib, ['0'] + ([c] + rest)) == Prepend([SymbolValue(c)], Decode(lib, ['0'] + rest))
  {
    hide Copies, Decode, Decode36, Prepend, SymbolValue;
    OneNumber(lib, '0', Symbol(c), rest);
    assert Symbol(c).Text() == [c];
  }

  lemma SmallNumbers(lib: Base36Library, count: seq<Byte>, c: Byte, rest: seq<Byte>)
    requires c != '*' && c != '.' && '*' !in count
    ensures Decode(lib, ['0'] + (['*'] + count + ['*'] + [c] + rest))
         == Prepend(Copies(SymbolValue(c), Decode36(lib, count)), Decode(lib, ['0'] + rest))
  {
    hide Copies, Decode, Decode36, Prepend, SymbolValue;
    Counted(lib, '0', count, Symbol(c), rest);
    assert Symbol(c).Text() == [c];
  }

  /** In type `1` a number ends in a comma. */
  lemma LargeNumber(lib: Base36Library, body: seq<Byte>, rest: seq<Byte>)
    requires ',' !in body && (body != [] ==> body[0] != '*' && body[0] != '.')
    ensures Decode(lib, ['1'] + (body + [','] + rest)) == Prepend([Decode36(lib, body)], Decode(lib, ['1'] + rest))
  {
    hide Copies, Decode, Decode36, Prepend;
    OneNumber(lib, '1', Field(body), rest);
    assert Field(body).Text() == body + [','];
  }

  lemma LargeNumbers(lib: Base36Library, count: seq<Byte>, body: seq<Byte>, rest: seq<Byte>)
    requires ',' !in body && (body != [] ==> body[0] != '*' && body[0] != '.') && '*' !in count
    ensures Decode(lib, ['1'] + (['*'] + count + ['*'] + (body + [',']) + rest))
         == Prepend(Copies(Decode36(lib, body), Decode36(lib, count)), Decode(lib, ['1'] + rest))
  {
    hide Copies, Decode, Decode36, Prepend;
    Counted(lib, '1', count, Field(body), rest);
    assert Field(body).Text() == body + [','];
  }

  /** In type `2` two bytes are a number. */
  lemma Percentage(lib: Base36Library, a: Byte, b: Byte, rest: seq<Byte>)
    requires a != '*' && a != '.'
    ensures Decode(lib, ['2'] + ([a, b] + rest)) == Prepend([PairValue(a, b)], Decode(lib, ['2'] + rest))
  {
    hide Copies, Decode, Decode36, Prepend, PairValue;
    OneNumber(lib, '2', Pair(a, b), rest);
    assert Pair(a, b).Text() == [a, b];
  }

  lemma Percentages(lib: Base36Library, count: seq<Byte>, a: Byte, b: Byte, rest: seq<Byte>)
    requires a != '*' && a != '.' && '*' !in count
    ensures Decode(lib, ['2'] + (['*'] + count + ['*'] + [a, b] + rest))
         == Prepend(Copies(PairValue(a, b), Decode36(lib, count)), Decode(lib, ['2'] + rest))
  {
    hide Copies, Decode, Decode36, Prepend, PairValue;
    Counted(lib, '2', count, Pair(a, b), rest);
    assert Pair(a, b).Text() == [a, b];
  }

  /** In type `1`, of a last number without a comma the first byte counts, in UTF-8. */
  lemma LastLargeNumber(lib: Base36Library, s: seq<Byte>)
    requires s != [] && s[0] != '*' && s[0] != '.' && ',' !in s
    ensures s[0] < 128 as char ==> Decode(lib, ['1'] + s) == Ok([Decode36(lib, [s[0]])])
    ensures s[0] >= 128 as char ==>
      var n := s[0] as nat;
      Decode(lib, ['1'] + s) == Ok([Decode36(lib, [(192 + n / 64) as char, (128 + n % 64) as char])])
  {
    hide Decode36;
    FirstOfText(Large, Tail(s), []);
    assert s + [] == s && s[|s|..] == [];
    DecodeOfType(lib, '1', s);
    OneEval(lib, Tail(s));
  }

  /** A count replaces the one before it. */
  lemma CountReplaced(lib: Base36Library, t: Byte, a: seq<Byte>, b: seq<Byte>, more: seq<Byte>, rest: seq<Byte>)
    requires '*' !in a && '*' !in b && rest == ['*'] + b + ['*'] + more
    ensures Decode(lib, [t] + (['*'] + a + ['*'] + rest)) == Decode(lib, [t] + rest)
  {
    hide Decode36, Prepend, Eval, Decode;
    CountFirst(lib, t, a, rest);
    CountFirst(lib, t, b, more);
    EvalFirst(lib, Count(b), Lex(ModeOf(t), more), 0, Decode36(lib, a));
  }

  /** A count at the end means nothing. */
  lemma CountAtEnd(lib: Base36Library, t: Byte, a: seq<Byte>)
    requires '*' !in a
    ensures Decode(lib, [t] + (['*'] + a + ['*'])) == Ok([])
  {
    hide Decode36, Prepend, Decode;
    CountFirst(lib, t, a, []);
    assert ['*'] + a + ['*'] + [] == ['*'] + a + ['*'];
    assert Lex(ModeOf(t), []) == [];
  }

  lemma CountFirst(lib: Base36Library, t: Byte, count: seq<Byte>, rest: seq<Byte>)
    requires '*' !in count
    ensures Lex(ModeOf(t), ['*'] + count + ['*'] + rest) == [Count(count)] + Lex(ModeOf(t), rest)
    ensures Decode(lib, [t] + (['*'] + count + ['*'] + rest)) == Eval(lib, Lex(ModeOf(t), rest), 0, Decode36(lib, count))
  {
    hide Decode36, Eval, Decode;
    var s := ['*'] + count + ['*'] + rest;
    FirstOfMarked(ModeOf(t), '*', count, rest);
    assert s[|Count(count).Text()|..] == rest;
    DecodeOfType(lib, t, s);
    EvalFirst(lib, Count(count), Lex(ModeOf(t), rest), 0, 1);
  }

  /** A mark in front that has no partner means nothing. */
  lemma NoPartner(lib: Base36Library, t: Byte, mark: Byte, s: seq<Byte>)
    requires (mark == '*' || mark == '.') && mark !in s
    ensures Decode(lib, [t] + ([mark] + s)) == Decode(lib, [t] + s)
  {
    hide Decode;
    assert [] + ([mark] + s) == [mark] + s && [] + s == s;
    assert Lex(ModeOf(t), []) == [];
    LoneMarkIsSkipped(lib, t, [], mark, s);
  }

  /** In any other type a byte repeats the number before it, 0 at the start. */
  lemma UnknownType(lib: Base36Library, t: Byte, body: seq<Byte>, s: seq<Byte>)
    requires t != '0' && t != '1' && t != '2' && NoMarks(s) && '.' !in body
    ensures Decode(lib, [t] + s) == Ok(seq(|s|, _ => 0))
    ensures Decode(lib, [t] + (['.'] + body + ['.'] + s)) == Ok(seq(|s| + 1, _ => Decode36(lib, body)))
  {
    hide Decode36;
    DecodeOfType(lib, t, s);
    UnknownBytes(lib, s, 0);
    var v, all := Decode36(lib, body), ['.'] + body + ['.'] + s;
    FirstOfMarked(Unknown, '.', body, s);
    assert all[|Wrapped(body).Text()|..] == s;
    DecodeOfType(lib, t, all);
    EvalFirst(lib, Wrapped(body), Lex(Unknown, s), 0, 1);
    UnknownBytes(lib, s, v);
    assert Copies(v, 1) == [v];
    assert [v] + seq(|s|, _ => v) == seq(|s| + 1, _ => v);
  }

  lemma {:induction false} UnknownBytes(lib: Base36Library, s: seq<Byte>, num: U64)
    requires NoMarks(s)
    ensures Eval(lib, Lex(Unknown, s), num, 1) == Ok(seq(|s|, _ => num))
    decreases s
  {
    if s != [] {
      assert First(Unknown, s) == Opaque(s[0]);
      UnknownBytes(lib, s[1..], num);
      EvalFirst(lib, Opaque(s[0]), Lex(Unknown, s[1..]), num, 1);
      assert Copies(num, 1) == [num];
      assert [num] + seq(|s| - 1, _ => num) == seq(|s|, _ => num);
    }
  }
}
