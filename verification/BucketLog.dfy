/** The compressed bucket log of beacon/decompress.go: its grammar as tokens, the lexer that
    splits any byte string into them, the printer, and what a token stream decodes to. */
module BucketLog {
  import opened Text
  import opened Numerals

  /** A Go byte; `char` gives readable constants. */
  type Byte = c: char | c < 256 as char

  type U64 = n: nat | n < 0x1_0000_0000_0000_0000

  /** What the base-36 library returns outside its documented input. */
  type Base36Library = seq<Byte> -> U64

  datatype Mode = Small | Large | Percent | Unknown

  /** The first byte of the data names the mode. */
  function ModeOf(logType: Byte): Mode {
    if logType == '0' then Small
    else if logType == '1' then Large
    else if logType == '2' then Percent
    else Unknown
  }

  predicate IsMark(c: Byte) {
    c == '*' || c == '.'
  }

  /* ---- numbers ---- */

  /** `base36.Decode`: the value of up to twelve lower-case digits; anything else is up to
      the library. */
  function Decode36(lib: Base36Library, s: seq<Byte>): U64 {
    if |s| <= 12 && IsNumeral(s, 36) then FitsU64(s); Value(s, 36) else lib(s)
  }

  lemma FitsU64(s: string)
    requires |s| <= 12 && IsNumeral(s, 36)
    ensures Value(s, 36) < 0x1_0000_0000_0000_0000
  {
    ValueBound(s, 36);
    PowerMonotone(36, |s|, 12);
    Power36();
  }

  /** The number behind one symbol of the small-number mode. */
  function SymbolValue(c: Byte): U64 {
    if '0' <= c <= '9' then c as nat - 48
    else if 'a' <= c <= 'z' then c as nat - 97 + 10
    else if 'A' <= c <= 'Z' then c as nat - 65 + 36
    else if c == '_' then 62
    else if c == '-' then 63
    else 0
  }

  /** `string(b)` in Go is the UTF-8 form of the code point `b`. */
  function Rune(b: Byte): seq<Byte> {
    if b < 128 as char then [b]
    else [(0xC0 + b as nat / 64) as char, (0x80 + b as nat % 64) as char]
  }

  /** `uint64` of what `strconv.Atoi` returns for two bytes: a sign is accepted, a negative
      number wraps, and an error gives 0. */
  function PairValue(a: Byte, b: Byte): U64 {
    if a == '_' && b == '_' then 100
    else if !IsDigit(b, 10) then 0
    else if IsDigit(a, 10) then 10 * DigitValue(a) + DigitValue(b)
    else if a == '+' then DigitValue(b)
    else if a == '-' && DigitValue(b) > 0 then 0x1_0000_0000_0000_0000 - DigitValue(b)
    else 0
  }

  /* ---- tokens ---- */

  datatype Token =
    | Lone(mark: Byte)          // a '*' or '.' without a partner
    | Count(body: seq<Byte>)    // *body*
    | Wrapped(body: seq<Byte>)  // .body.
    | Symbol(c: Byte)           // small mode: one byte
    | Field(body: seq<Byte>)    // large mode: body,
    | Tail(body: seq<Byte>)     // large mode: the last number without a comma
    | Pair(a: Byte, b: Byte)    // percent mode: two bytes
    | Torn(c: Byte)             // percent mode: a last byte on its own
    | Opaque(c: Byte)           // unknown mode: one byte
  {
    function Text(): seq<Byte> {
      match this
      case Lone(c) => [c]
      case Count(body) => ['*'] + body + ['*']
      case Wrapped(body) => ['.'] + body + ['.']
      case Symbol(c) => [c]
      case Field(body) => body + [',']
      case Tail(body) => body
      case Pair(a, b) => [a, b]
      case Torn(c) => [c]
      case Opaque(c) => [c]
    }

    /** The token stands for a number that is appended to the output. */
    predicate IsNumber() {
      Wrapped? || Symbol? || Field? || Tail? || Pair? || Opaque?
    }

    /** The token reads the same whatever follows it. */
    predicate SelfDelimiting() {
      !Lone? && !Tail? && !Torn?
    }
  }

  function Print(ts: seq<Token>): seq<Byte> {
    if ts == [] then [] else ts[0].Text() + Print(ts[1..])
  }

  /** The token a mode reads at the front of `s`. */
  function First(m: Mode, s: seq<Byte>): Token
    requires s != []
  {
    if s[0] == '*' then
      match Index(s[1..], '*')
      case None => Lone('*')
      case Some(k) => Count(s[1..][..k])
    else if s[0] == '.' then
      match Index(s[1..], '.')
      case None => Lone('.')
      case Some(k) => Wrapped(s[1..][..k])
    else
      match m
      case Small => Symbol(s[0])
      case Large =>
        (match Index(s, ',')
         case None => Tail(s)
         case Some(k) => Field(s[..k]))
      case Percent => if |s| == 1 then Torn(s[0]) else Pair(s[0], s[1])
      case Unknown => Opaque(s[0])
  }

  lemma MarkedPrefix(s: seq<Byte>, k: nat)
    requires k + 1 < |s|
    ensures s[..k + 2] == [s[0]] + s[1..][..k] + [s[k + 1]]
  {
  }

  lemma FirstIsPrefix(m: Mode, s: seq<Byte>)
    requires s != []
    ensures var t := First(m, s).Text(); 0 < |t| <= |s| && s[..|t|] == t
  {
    if IsMark(s[0]) {
      MarkIsPrefix(m, s);
    } else {
      PlainIsPrefix(m, s);
    }
  }

  lemma MarkIsPrefix(m: Mode, s: seq<Byte>)
    requires s != [] && IsMark(s[0])
    ensures var t := First(m, s).Text(); 0 < |t| <= |s| && s[..|t|] == t
  {
    hide Index;
    var k := Index(s[1..], s[0]);
    if k.Some? {
      MarkedPrefix(s, k.value);
    } else {
      assert s[..1] == [s[0]];
    }
  }

  lemma PlainIsPrefix(m: Mode, s: seq<Byte>)
    requires s != [] && !IsMark(s[0])
    ensures var t := First(m, s).Text(); 0 < |t| <= |s| && s[..|t|] == t
  {
    hide Index;
    if m.Large? && Index(s, ',').Some? {
      FieldPrefix(s, Index(s, ',').value);
    }
  }

  lemma FieldPrefix(s: seq<Byte>, k: nat)
    requires k < |s|
    ensures s[..k + 1] == s[..k] + [s[k]]
  {
  }

  /** The tokens of a whole byte string. */
  function Lex(m: Mode, s: seq<Byte>): seq<Token>
    decreases |s|
  {
    if s == [] then []
    else
      FirstIsPrefix(m, s);
      var t := First(m, s);
      [t] + Lex(m, s[|t.Text()|..])
  }

  /** `t` can stand in front of `rest` in a token stream of mode `m`. */
  predicate ProperBefore(m: Mode, t: Token, rest: seq<Byte>) {
    match t
    case Lone(c) => IsMark(c) && c !in rest
    case Count(body) => '*' !in body
    case Wrapped(body) => '.' !in body
    case Symbol(c) => m.Small? && !IsMark(c)
    case Field(body) => m.Large? && ',' !in body && (body == [] || !IsMark(body[0]))
    case Tail(body) => m.Large? && ',' !in body && body != [] && !IsMark(body[0]) && rest == []
    case Pair(a, _) => m.Percent? && !IsMark(a)
    case Torn(c) => m.Percent? && !IsMark(c) && rest == []
    case Opaque(c) => m.Unknown? && !IsMark(c)
  }

  /** The token streams of mode `m`. */
  predicate Proper(m: Mode, ts: seq<Token>) {
    ts == [] || (ProperBefore(m, ts[0], Print(ts[1..])) && Proper(m, ts[1..]))
  }

  /* ---- meaning ---- */

  /** A slice out of range panics in Go. */
  datatype Outcome = Ok(out: seq<U64>) | Panic

  /** A number is appended once, and again while `j < repeat` from 1 on. */
  function Times(repeat: U64): U64 {
    if repeat > 1 then repeat else 1
  }

  function Copies(v: U64, repeat: U64): seq<U64> {
    seq(Times(repeat), _ => v)
  }

  function Prepend(xs: seq<U64>, rest: Outcome): Outcome {
    match rest
    case Ok(ys) => Ok(xs + ys)
    case Panic => Panic
  }

  /** The value of a number token; `num` is the number before it. */
  function NumberValue(lib: Base36Library, t: Token, num: U64): U64
    requires t.IsNumber()
  {
    match t
    case Wrapped(body) => Decode36(lib, body)
    case Symbol(c) => SymbolValue(c)
    case Field(body) => Decode36(lib, body)
    case Tail(body) => if body == [] then 0 else Decode36(lib, Rune(body[0]))
    case Pair(a, b) => PairValue(a, b)
    case Opaque(_) => num
  }

  /** What a token stream decodes to, from a previous number and a pending repeat count. */
  function Eval(lib: Base36Library, ts: seq<Token>, num: U64, repeat: U64): Outcome {
    if ts == [] then Ok([])
    else
      match ts[0]
      case Lone(_) => Eval(lib, ts[1..], num, repeat)
      case Count(body) => Eval(lib, ts[1..], num, Decode36(lib, body))
      case Torn(_) => Panic
      case t =>
        var v := NumberValue(lib, t, num);
        Prepend(Copies(v, repeat), Eval(lib, ts[1..], v, 1))
  }

  /** What `DecompressBucketLog` returns: the meaning of the tokens of the data. */
  function Decode(lib: Base36Library, data: seq<Byte>): Outcome {
    if data == [] then Ok([])
    else Eval(lib, Lex(ModeOf(data[0]), data[1..]), 0, 1)
  }
}
