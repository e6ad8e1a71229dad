/**
 The lexical reference for the SQL lexer: an automaton that reads one rune at a time, with no lookahead
 and no position arithmetic, and the way of cutting a source at the placeholders it finds.

 A source text is a sequence of runes. A byte that is not valid UTF-8 is one `RUNE_ERROR` rune, as is a
 literal U+FFFD: the lexer cannot tell the two apart.
 */
module SqlModes {

  const RUNE_ERROR: char := '\U{FFFD}'

  /** What has been read so far, up to what can still matter. `depth` counts enclosing comments only. */
  datatype Mode =
    | Raw | RawE | RawDash | RawSlash | RawDollar | Digits
    | Single | SingleQuote
    | Double | DoubleQuote
    | Escape | EscapeBackslash | EscapeQuote
    | Line | LineBackslash
    | Block(depth: nat) | BlockSlash(depth: nat) | BlockStar(depth: nat)
    | Stopped

  predicate IsDigit(r: char) {
    '0' <= r <= '9'
  }

  function RawStep(r: char): Mode {
    if r == 'e' || r == 'E' then RawE
    else if r == '\'' then Single
    else if r == '"' then Double
    else if r == '$' then RawDollar
    else if r == '-' then RawDash
    else if r == '/' then RawSlash
    else if r == RUNE_ERROR then Stopped
    else Raw
  }

  function BlockStep(depth: nat, r: char): Mode {
    if r == '/' then BlockSlash(depth)
    else if r == '*' then BlockStar(depth)
    else if r == RUNE_ERROR then Stopped
    else Block(depth)
  }

  function Step(m: Mode, r: char): Mode {
    match m
    case Raw => RawStep(r)
    case RawE => if r == '\'' then Escape else RawStep(r)
    case RawDash => if r == '-' then Line else RawStep(r)
    case RawSlash => if r == '*' then Block(0) else RawStep(r)
    case RawDollar => if IsDigit(r) then Digits else RawStep(r)
    case Digits => if IsDigit(r) then Digits else RawStep(r)
    case Single => if r == '\'' then SingleQuote else if r == RUNE_ERROR then Stopped else Single
    case SingleQuote => if r == '\'' then Single else RawStep(r)
    case Double => if r == '"' then DoubleQuote else if r == RUNE_ERROR then Stopped else Double
    case DoubleQuote => if r == '"' then Double else RawStep(r)
    case Escape =>
      if r == '\\' then EscapeBackslash else if r == '\'' then EscapeQuote
      else if r == RUNE_ERROR then Stopped else Escape
    case EscapeBackslash => Escape
    case EscapeQuote => if r == '\'' then Escape else RawStep(r)
    case Line =>
      if r == '\\' then LineBackslash else if r == '\n' then Raw
      else if r == RUNE_ERROR then Stopped else Line
    case LineBackslash => Line
    case Block(n) => BlockStep(n, r)
    case BlockSlash(n) => if r == '*' then Block(n + 1) else BlockStep(n, r)
    case BlockStar(n) => if r != '/' then BlockStep(n, r) else if n == 0 then Raw else Block(n - 1)
    case Stopped => Stopped
  }

  /** A rune in a comment that does not complete a mark is read as comment text. */
  lemma CommentStep(m: Mode, depth: nat, r: char)
    requires || m == Block(depth) || (m == BlockSlash(depth) && r != '*') || (m == BlockStar(depth) && r != '/')
    ensures Step(m, r) == BlockStep(depth, r)
  {
  }

  /** The mode after reading `s` from mode `m`. */
  function Run(m: Mode, s: string): Mode
    decreases s
  {
    if s == [] then m else Run(Step(m, s[0]), s[1..])
  }

  /** The mode in which rune `i` of a whole source is read. */
  function ModeAt(s: string, i: nat): Mode
    requires i <= |s|
  {
    if i == 0 then Raw else Step(ModeAt(s, i - 1), s[i - 1])
  }

  lemma NextMode(s: string, i: nat)
    requires i < |s|
    ensures ModeAt(s, i + 1) == Step(ModeAt(s, i), s[i])
  {
  }

  lemma DigitMode(s: string, i: nat)
    requires i < |s| && IsDigit(s[i]) && (ModeAt(s, i) == RawDollar || ModeAt(s, i) == Digits)
    ensures ModeAt(s, i + 1) == Digits
  {
    NextMode(s, i);
  }

  /** The modes in which a `$` is read as raw SQL. */
  predicate IsRaw(m: Mode) {
    m.Raw? || m.RawE? || m.RawDash? || m.RawSlash? || m.RawDollar? || m.Digits?
    || m.SingleQuote? || m.DoubleQuote? || m.EscapeQuote?
  }

  /** A placeholder starts at `i`: a `$` read in raw mode, followed by a digit. */
  predicate HolderAt(s: string, i: nat) {
    i + 1 < |s| && s[i] == '$' && IsDigit(s[i + 1]) && IsRaw(ModeAt(s, i))
  }

  /** The end of the longest digit run that starts at `i`. */
  function DigitsEnd(s: string, i: nat): (e: nat)
    requires i <= |s|
    ensures i <= e <= |s|
    decreases |s| - i
  {
    if i == |s| || !IsDigit(s[i]) then i else DigitsEnd(s, i + 1)
  }

  lemma {:induction false} DigitsEndIsMaximal(s: string, i: nat)
    requires i <= |s|
    ensures var e := DigitsEnd(s, i);
            AllDigits(s[i..e]) && (forall k :: i <= k < e ==> IsDigit(s[k])) && (e < |s| ==> !IsDigit(s[e]))
    decreases |s| - i
  {
    if i < |s| && IsDigit(s[i]) {
      DigitsEndIsMaximal(s, i + 1);
    }
  }

  lemma {:induction false} DigitsEndIs(s: string, i: nat, e: nat)
    requires i <= e <= |s| && AllDigits(s[i..e]) && (e < |s| ==> !IsDigit(s[e]))
    ensures DigitsEnd(s, i) == e
    decreases e - i
  {
    if i < e {
      assert s[i..e][0] == s[i] && s[i..e][1..] == s[i + 1..e];
      DigitsEndIs(s, i + 1, e);
    }
  }

  datatype Span = Text(lo: nat, hi: nat) | Holder(lo: nat, hi: nat)

  /**
   The pieces of `s` from `start` on, when nothing in `start..i` is a placeholder. Every placeholder is
   preceded by a text, possibly an empty one; a trailing text is kept only when it is not empty.
   */
  function Split(s: string, start: nat, i: nat): seq<Span>
    requires start <= i <= |s|
    decreases |s| - i
  {
    if i == |s| || ModeAt(s, i).Stopped? then
      if start < i then [Text(start, i)] else []
    else if HolderAt(s, i) then
      var e := DigitsEnd(s, i + 1);
      [Text(start, i), Holder(i, e)] + Split(s, e, e)
    else
      Split(s, start, i + 1)
  }

  const TWO_63: int := 0x8000_0000_0000_0000

  type Int64 = n: int | -TWO_63 <= n < TWO_63

  /** A piece of a parsed query: raw SQL, or the number of an argument. */
  datatype Part = Sql(text: string) | Arg(num: Int64)

  /** The value a 64-bit signed integer keeps of `n`. */
  function Wrap64(n: int): (r: Int64)
    ensures -TWO_63 <= n < TWO_63 ==> r == n
  {
    (n + TWO_63) % (2 * TWO_63) - TWO_63
  }

  function DigitValue(r: char): (v: nat)
    requires IsDigit(r)
    ensures v <= 9
  {
    r as int - '0' as int
  }

  predicate AllDigits(ds: string) {
    forall k :: 0 <= k < |ds| ==> IsDigit(ds[k])
  }

  /** The number the digits denote. */
  function Decimal(ds: string): nat
    requires AllDigits(ds)
  {
    if ds == [] then 0 else 10 * Decimal(ds[..|ds| - 1]) + DigitValue(ds[|ds| - 1])
  }

  /** Digits are read in base ten, the first one the highest. */
  lemma DecimalByDigit()
    ensures Decimal("0") == 0 && Decimal("9") == 9 && Decimal("205") == 205
  {
    assert "0"[..0] == "" && "9"[..0] == "" && "2"[..0] == "" && "20"[..1] == "2" && "205"[..2] == "20";
    assert Decimal("2") == 2 && Decimal("20") == 20;
  }

  /** One step of the lexer's number reading, in 64-bit arithmetic. */
  function AddDigit(num: Int64, r: char): Int64
    requires IsDigit(r)
  {
    Wrap64(Wrap64(num * 10) + DigitValue(r))
  }

  /** The number the lexer makes of a digit run. */
  function Number(ds: string): Int64
    requires AllDigits(ds)
  {
    if ds == [] then 0 else AddDigit(Number(ds[..|ds| - 1]), ds[|ds| - 1])
  }

  /** The digits read so far, and the number they make. */
  predicate Spelled(ds: string, num: Int64) {
    AllDigits(ds) && num == Number(ds)
  }

  lemma SpelledOneMore(s: string, lo: nat, hi: nat, num: Int64)
    requires lo <= hi < |s| && Spelled(s[lo..hi], num) && IsDigit(s[hi])
    ensures Spelled(s[lo..hi + 1], AddDigit(num, s[hi]))
  {
    assert s[lo..hi + 1][..hi - lo] == s[lo..hi];
  }

  /** The lexer's number is the decimal value, up to 64-bit wrap-around. */
  lemma {:induction false} NumberIsDecimal(ds: string)
    requires AllDigits(ds)
    ensures Number(ds) == Wrap64(Decimal(ds))
    ensures Decimal(ds) < TWO_63 ==> Number(ds) == Decimal(ds)
  {
    if ds != [] {
      var init := ds[..|ds| - 1];
      NumberIsDecimal(init);
      WrapShift(Decimal(init), 10, DigitValue(ds[|ds| - 1]));
    }
  }

  lemma WrapShift(d: int, k: int, v: int)
    ensures Wrap64(Wrap64(Wrap64(d) * k) + v) == Wrap64(k * d + v)
  {
    var m := 2 * TWO_63;
    var q := (d + TWO_63) / m;
    var w := Wrap64(d);
    assert w == d - m * q;
    var q2 := (w * k + TWO_63) / m;
    var w2 := Wrap64(w * k);
    assert w2 == w * k - m * q2;
    assert w * k == d * k - m * (q * k);
    assert w2 + v == k * d + v - m * (q * k + q2);
    WrapPeriod(k * d + v, -(q * k + q2));
  }

  lemma WrapPeriod(n: int, k: int)
    ensures Wrap64(n + 2 * TWO_63 * k) == Wrap64(n)
  {
  }

  predicate SpanIn(s: string, sp: Span) {
    sp.lo <= sp.hi <= |s| && (sp.Holder? ==> sp.lo < sp.hi && AllDigits(s[sp.lo + 1..sp.hi]))
  }

  function PartOf(s: string, sp: Span): Part
    requires SpanIn(s, sp)
  {
    match sp
    case Text(lo, hi) => Sql(s[lo..hi])
    case Holder(lo, hi) => Arg(Number(s[lo + 1..hi]))
  }

  predicate SpansIn(s: string, spans: seq<Span>) {
    forall k :: 0 <= k < |spans| ==> SpanIn(s, spans[k])
  }

  function PartsOf(s: string, spans: seq<Span>): (parts: seq<Part>)
    requires SpansIn(s, spans)
    ensures |parts| == |spans|
    ensures forall k :: 0 <= k < |spans| ==> parts[k] == PartOf(s, spans[k])
  {
    seq(|spans|, k requires 0 <= k < |spans| => PartOf(s, spans[k]))
  }

  lemma OneMorePart(s: string, spans: seq<Span>, sp: Span)
    requires SpansIn(s, spans) && SpanIn(s, sp)
    ensures SpansIn(s, spans + [sp]) && PartsOf(s, spans + [sp]) == PartsOf(s, spans) + [PartOf(s, sp)]
  {
  }

  lemma {:induction false} SplitIsIn(s: string, start: nat, i: nat)
    requires start <= i <= |s|
    ensures SpansIn(s, Split(s, start, i))
    decreases |s| - i
  {
    if i == |s| || ModeAt(s, i).Stopped? {
    } else if HolderAt(s, i) {
      var e := DigitsEnd(s, i + 1);
      DigitsEndIsMaximal(s, i + 1);
      SplitIsIn(s, e, e);
    } else {
      SplitIsIn(s, start, i + 1);
    }
  }

  /** The parts of the pieces `Split(s, start, i)`. */
  function PartsFrom(s: string, start: nat, i: nat): seq<Part>
    requires start <= i <= |s|
  {
    SplitIsIn(s, start, i);
    PartsOf(s, Split(s, start, i))
  }

  lemma SplitAtHolder(s: string, start: nat, i: nat)
    requires start <= i && HolderAt(s, i)
    ensures var e := DigitsEnd(s, i + 1); Split(s, start, i) == [Text(start, i), Holder(i, e)] + Split(s, e, e)
    ensures ModeAt(s, i + 1) == RawDollar
  {
    NextMode(s, i);
  }

  /** The same with the pieces before it. */
  lemma OwedAtHolder(s: string, spans: seq<Span>, start: nat, i: nat)
    requires start <= i && HolderAt(s, i)
    ensures var e := DigitsEnd(s, i + 1);
            spans + Split(s, start, i) == spans + [Text(start, i)] + [Holder(i, e)] + Split(s, e, e)
    ensures ModeAt(s, i + 1) == RawDollar
  {
    SplitAtHolder(s, start, i);
    var e := DigitsEnd(s, i + 1);
    assert [Text(start, i), Holder(i, e)] == [Text(start, i)] + [Holder(i, e)];
  }

  lemma {:induction false} PartsAtEnd(s: string, start: nat, i: nat)
    requires start <= i <= |s| && (i == |s| || ModeAt(s, i).Stopped?)
    ensures PartsFrom(s, start, i) == if start < i then [Sql(s[start..i])] else []
  {
  }

  lemma PartsSkip(s: string, start: nat, i: nat)
    requires start <= i < |s| && !ModeAt(s, i).Stopped? && !HolderAt(s, i)
    ensures PartsFrom(s, start, i) == PartsFrom(s, start, i + 1)
  {
  }

  lemma {:induction false} PartsAtHolder(s: string, start: nat, i: nat)
    requires start <= i && HolderAt(s, i)
    ensures var e := DigitsEnd(s, i + 1);
            && AllDigits(s[i + 1..e])
            && PartsFrom(s, start, i) == [Sql(s[start..i]), Arg(Number(s[i + 1..e]))] + PartsFrom(s, e, e)
  {
    SplitIsIn(s, start, i);
    DigitsEndIsMaximal(s, i + 1);
    SplitAtHolder(s, start, i);
  }

  /** The parsed form of a whole source. */
  function Parts(s: string): seq<Part> {
    PartsFrom(s, 0, 0)
  }
}
