/** The scanner loop of beacon/decompress.go, proved against the token semantics. */
module Decompress {
  import opened Text
  import opened BucketLog
  import opened BucketLogLaws

  const COMPRESS_MODE_SMALL_NUMBERS: Byte := '0'
  const COMPRESS_MODE_LARGE_NUMBERS: Byte := '1'
  const COMPRESS_MODE_PERCENT: Byte := '2'
  const LARGE_NUMBER_WRAP: Byte := '.'

  /** What is left to scan; the index runs one past the end after an unterminated number. */
  function Rest(s: seq<Byte>, i: nat): seq<Byte> {
    if i <= |s| then s[i..] else []
  }

  /** What the scanner still produces from index `i`. */
  function Remaining(lib: Base36Library, m: Mode, s: seq<Byte>, i: nat, num: U64, repeat: U64): Outcome {
    Eval(lib, Lex(m, Rest(s, i)), num, repeat)
  }

  /** A mark with its partner: the body lies between them. */
  lemma MarkedAt(m: Mode, s: seq<Byte>, i: nat)
    requires i < |s| && IsMark(s[i])
    ensures var k := Index(s[i + 1..], s[i]);
            First(m, s[i..]) ==
              if k.None? then Lone(s[i])
              else if s[i] == '*' then Count(s[i + 1..i + 1 + k.value])
              else Wrapped(s[i + 1..i + 1 + k.value])
  {
    assert s[i..][1..] == s[i + 1..];
    var k := Index(s[i + 1..], s[i]);
    assert k.Some? ==> s[i + 1..][..k.value] == s[i + 1..i + 1 + k.value];
  }

  lemma FieldAt(s: seq<Byte>, i: nat)
    requires i < |s| && !IsMark(s[i])
    ensures var k := Index(s[i..], ',');
            First(Large, s[i..]) == if k.None? then Tail(s[i..]) else Field(s[i..i + k.value])
  {
    var k := Index(s[i..], ',');
    assert k.Some? ==> s[i..][..k.value] == s[i..i + k.value];
  }

  /** One step over the token at `i`. */
  lemma Step(lib: Base36Library, m: Mode, s: seq<Byte>, i: nat, num: U64, repeat: U64)
    requires i < |s|
    ensures var t := First(m, s[i..]);
            var next := i + |t.Text()|;
            && i < next <= |s|
            && Remaining(lib, m, s, i, num, repeat) ==
               if t.Lone? then Remaining(lib, m, s, next, num, repeat)
               else if t.Count? then Remaining(lib, m, s, next, num, Decode36(lib, t.body))
               else if t.Torn? then Panic
               else Prepend(Copies(NumberValue(lib, t, num), repeat),
                            Remaining(lib, m, s, next, NumberValue(lib, t, num), 1))
  {
    FirstIsPrefix(m, s[i..]);
    var t := First(m, s[i..]);
    var next := i + |t.Text()|;
    assert s[i..][|t.Text()|..] == s[next..];
    assert Lex(m, s[i..])[1..] == Lex(m, s[next..]);
  }

  /** The scanner has reached `i` with `out` produced. */
  ghost predicate Reached(lib: Base36Library, data: seq<Byte>, i: nat, out: seq<U64>, num: U64, repeat: U64)
    requires data != []
  {
    Decode(lib, data) == Prepend(out, Remaining(lib, ModeOf(data[0]), data[1..], i, num, repeat))
  }

  lemma ReachedStart(lib: Base36Library, data: seq<Byte>)
    requires data != []
    ensures Reached(lib, data, 0, [], 0, 1)
  {
    PrependNothing(Decode(lib, data));
    assert data[1..][0..] == data[1..];
  }

  lemma ReachedEnd(lib: Base36Library, data: seq<Byte>, i: nat, out: seq<U64>, num: U64, repeat: U64)
    requires data != [] && |data| - 1 <= i && Reached(lib, data, i, out, num, repeat)
    ensures Decode(lib, data) == Ok(out)
  {
    assert Rest(data[1..], i) == [];
    assert out + [] == out;
  }

  lemma PastTheEnd(lib: Base36Library, data: seq<Byte>, out: seq<U64>, num: U64, repeat: U64)
    requires data != [] && Reached(lib, data, |data| - 1, out, num, repeat)
    ensures Reached(lib, data, |data|, out, num, repeat)
  {
    var s := data[1..];
    assert Rest(s, |s|) == Rest(s, |s| + 1);
  }

  /** A mark at `i`: either it is skipped, or it opens a run count or a wrapped number. */
  lemma MarkStep(lib: Base36Library, data: seq<Byte>, i: nat, out: seq<U64>, num: U64, repeat: U64)
    requires i + 1 < |data| && IsMark(data[1..][i]) && Reached(lib, data, i, out, num, repeat)
    ensures var s := data[1..];
            var k := Index(s[i + 1..], s[i]);
            if k.None? then Reached(lib, data, i + 1, out, num, repeat)
            else
              var v := Decode36(lib, s[i + 1..i + k.value + 1]);
              if s[i] == '*' then Reached(lib, data, i + k.value + 2, out, num, v)
              else Reached(lib, data, i + k.value + 2, out + Copies(v, repeat), v, 1)
  {
    hide Reached, Decode36, Copies, Index, First;
    var s, m := data[1..], ModeOf(data[0]);
    MarkedAt(m, s, i);
    var k := Index(s[i + 1..], s[i]);
    if k.None? {
      LoneStep(lib, data, i, out, num, repeat, s[i]);
    } else if s[i] == '*' {
      CountStep(lib, data, i, out, num, repeat, s[i + 1..i + 1 + k.value]);
    } else {
      WrappedStep(lib, data, i, out, num, repeat, s[i + 1..i + 1 + k.value]);
    }
  }

  lemma LoneStep(lib: Base36Library, data: seq<Byte>, i: nat, out: seq<U64>, num: U64, repeat: U64, c: Byte)
    requires i + 1 < |data| && First(ModeOf(data[0]), data[1..][i..]) == Lone(c)
    requires Reached(lib, data, i, out, num, repeat)
    ensures Reached(lib, data, i + 1, out, num, repeat)
  {
    hide Reached, Decode36, First, Decode, NumberValue, ModeOf;
    NumberStep(lib, data, i, out, num, repeat);
  }

  lemma CountStep(lib: Base36Library, data: seq<Byte>, i: nat, out: seq<U64>, num: U64, repeat: U64, body: seq<Byte>)
    requires i + 1 < |data| && First(ModeOf(data[0]), data[1..][i..]) == Count(body)
    requires Reached(lib, data, i, out, num, repeat)
    ensures Reached(lib, data, i + |body| + 2, out, num, Decode36(lib, body))
  {
    hide Reached, Decode36, First, Decode, NumberValue, ModeOf;
    NumberStep(lib, data, i, out, num, repeat);
  }

  lemma WrappedStep(lib: Base36Library, data: seq<Byte>, i: nat, out: seq<U64>, num: U64, repeat: U64, body: seq<Byte>)
    requires i + 1 < |data| && First(ModeOf(data[0]), data[1..][i..]) == Wrapped(body)
    requires Reached(lib, data, i, out, num, repeat)
    ensures var v := Decode36(lib, body); Reached(lib, data, i + |body| + 2, out + Copies(v, repeat), v, 1)
  {
    hide Reached, Decode36, First, Decode, ModeOf, Copies;
    NumberStep(lib, data, i, out, num, repeat);
  }

  /** Anything else is a number token, or half a percent pair. */
  lemma NumberStep(lib: Base36Library, data: seq<Byte>, i: nat, out: seq<U64>, num: U64, repeat: U64)
    requires i + 1 < |data| && Reached(lib, data, i, out, num, repeat)
    ensures var t := First(ModeOf(data[0]), data[1..][i..]);
            var next := i + |t.Text()|;
            && (t.Lone? ==> Reached(lib, data, next, out, num, repeat))
            && (t.Count? ==> Reached(lib, data, next, out, num, Decode36(lib, t.body)))
            && (t.Torn? ==> Decode(lib, data) == Panic)
            && (t.IsNumber() ==>
                var v := NumberValue(lib, t, num);
                Reached(lib, data, next, out + Copies(v, repeat), v, 1))
  {
    hide Remaining, Decode36, Copies, First, NumberValue;
    var s, m := data[1..], ModeOf(data[0]);
    Step(lib, m, s, i, num, repeat);
    var t := First(m, s[i..]);
    if t.IsNumber() {
      var v := NumberValue(lib, t, num);
      PrependAppend(out, Copies(v, repeat), Remaining(lib, m, s, i + |t.Text()|, v, 1));
    }
  }

  /** The number a known or unknown mode reads at `i`, and where it goes on. */
  lemma PlainStep(lib: Base36Library, data: seq<Byte>, i: nat, out: seq<U64>, num: U64, repeat: U64)
    requires i + 1 < |data| && !IsMark(data[1..][i]) && Reached(lib, data, i, out, num, repeat)
    ensures var s := data[1..];
            match ModeOf(data[0])
            case Small => Emitted(lib, data, i + 1, out, SymbolValue(s[i]), repeat)
            case Large =>
              (match Index(s[i..], ',')
               case None => Emitted(lib, data, |s| + 1, out, Decode36(lib, Rune(s[i])), repeat)
               case Some(k) => Emitted(lib, data, i + k + 1, out, Decode36(lib, s[i..i + k]), repeat))
            case Percent =>
              if i + 2 > |s| then Decode(lib, data) == Panic
              else Emitted(lib, data, i + 2, out, PairValue(s[i], s[i + 1]), repeat)
            case Unknown => Emitted(lib, data, i + 1, out, num, repeat)
  {
    hide Reached, Decode, Decode36, Copies, Index, Rune, SymbolValue, PairValue;
    var s := data[1..];
    NumberStep(lib, data, i, out, num, repeat);
    FieldAt(s, i);
    if ModeOf(data[0]).Large? && ',' !in s[i..] {
      var v := Decode36(lib, Rune(s[i]));
      PastTheEnd(lib, data, out + Copies(v, repeat), v, 1);
    }
  }

  ghost predicate Emitted(lib: Base36Library, data: seq<Byte>, i: nat, out: seq<U64>, v: U64, repeat: U64)
    requires data != []
  {
    Reached(lib, data, i, out + Copies(v, repeat), v, 1)
  }

  lemma DecodeEmpty(lib: Base36Library)
    ensures Decode(lib, []) == Ok([])
  {
  }

  method AppendCopies(out: seq<U64>, num: U64, repeat: U64) returns (r: seq<U64>)
    ensures |r| == |out| + (if repeat == 0 then 1 else repeat) && out <= r
    ensures forall k :: |out| <= k < |r| ==> r[k] == num
    ensures r == out + Copies(num, repeat)
  {
    r := out + [num];
    var j: U64 := 1;
    while j < repeat
      invariant 1 <= j <= if repeat == 0 then 1 else repeat
      invariant r == out + seq(j, _ => num)
    {
      r := r + [num];
      assert seq(j + 1, _ => num) == seq(j, _ => num) + [num];
      j := j + 1;
    }
  }

  /** Decodes a bucket log. A slice out of range, which panics in Go, is the outcome `Panic`;
      every other index below is in range, and the loop ends, for every input. */
  method DecompressBucketLog(lib: Base36Library, data: seq<Byte>) returns (r: Outcome)
    ensures r == Decode(lib, data)
  {
    hide Reached, Decode, Decode36, Rune, Copies, Index, SymbolValue, PairValue;
    var out: seq<U64> := [];
    if |data| == 0 {
      DecodeEmpty(lib);
      return Ok(out);
    }
    var num: U64 := 0;
    // the first byte is the type
    var logType, logData := data[0], data[1..];
    var repeat: U64 := 1;
    var logDataLen := |logData|;
    var i := 0;
    ReachedStart(lib, data);
    while i < logDataLen
      invariant 0 <= i <= logDataLen + 1
      invariant Reached(lib, data, i, out, num, repeat)
      decreases logDataLen - i
    {
      if IsMark(logData[i]) {
        MarkStep(lib, data, i, out, num, repeat);
      } else {
        PlainStep(lib, data, i, out, num, repeat);
      }
      if logData[i] == '*' {
        // the run count lies between two marks
        var endChar := Index(logData[i + 1..], '*');
        if endChar == None {
          i := i + 1;
          continue;
        }
        repeat := Decode36(lib, logData[i + 1..i + endChar.value + 1]);
        i := i + endChar.value + 2;
        continue;
      } else if logData[i] == LARGE_NUMBER_WRAP {
        // so does a wrapped number
        var endChar := Index(logData[i + 1..], LARGE_NUMBER_WRAP);
        if endChar == None {
          i := i + 1;
          continue;
        }
        num := Decode36(lib, logData[i + 1..i + endChar.value + 1]);
        i := i + endChar.value + 1;
      } else {
        if logType == COMPRESS_MODE_SMALL_NUMBERS {
          num := SymbolValue(logData[i]);
        } else if logType == COMPRESS_MODE_LARGE_NUMBERS {
          // a comma ends the field
          var endChar := Index(logData[i..], ',');
          if endChar != None {
            num := Decode36(lib, logData[i..i + endChar.value]);
            i := i + endChar.value;
          } else {
            // without one, only the first byte counts
            num := Decode36(lib, Rune(logData[i]));
            i := logDataLen;
          }
        } else if logType == COMPRESS_MODE_PERCENT {
          if i + 2 > logDataLen {
            return Panic;
          }
          num := PairValue(logData[i], logData[i + 1]);
          i := i + 1;
        }
      }
      out := AppendCopies(out, num, repeat);
      repeat := 1;
      i := i + 1;
    }
    ReachedEnd(lib, data, i, out, num, repeat);
    return Ok(out);
  }
}
