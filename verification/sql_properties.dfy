/** What the reference lexer promises of every source. */
module SqlProperties {
  import opened SqlModes

  predicate ErrorFree(s: string) {
    RUNE_ERROR !in s
  }

  lemma {:induction false} RunConcat(m: Mode, a: string, b: string)
    ensures Run(m, a + b) == Run(Run(m, a), b)
    decreases a
  {
    if a == [] {
      assert a + b == b;
    } else {
      assert (a + b)[1..] == a[1..] + b;
      RunConcat(Step(m, a[0]), a[1..], b);
    }
  }

  /** Reading a source from its start and reading it as a whole give the same modes. */
  lemma {:induction false} ModeAtIsRun(s: string, i: nat)
    requires i <= |s|
    ensures ModeAt(s, i) == Run(Raw, s[..i])
  {
    if i > 0 {
      ModeAtIsRun(s, i - 1);
      assert s[..i] == s[..i - 1] + [s[i - 1]];
      RunConcat(Raw, s[..i - 1], [s[i - 1]]);
    }
  }

  /** Only an error rune stops the automaton. */
  lemma {:induction false} RunsToTheEnd(s: string, i: nat)
    requires ErrorFree(s) && i <= |s|
    ensures !ModeAt(s, i).Stopped?
  {
    if i > 0 {
      RunsToTheEnd(s, i - 1);
      assert s[i - 1] in s;
    }
  }

  // ---- losslessness ----

  /** How much of the source the lexer reads: all of it, or up to the error rune that stops it. */
  function Consumed(s: string, i: nat): (n: nat)
    requires i <= |s|
    ensures i <= n <= |s|
    decreases |s| - i
  {
    if i == |s| || ModeAt(s, i).Stopped? then i else Consumed(s, i + 1)
  }

  /** The text of parts, each number written back with the digits `runs` gives for it. */
  function Rejoin(parts: seq<Part>, runs: seq<string>): string
    requires |parts| == |runs|
  {
    if parts == [] then []
    else (match parts[0] case Sql(t) => t case Arg(_) => "$" + runs[0]) + Rejoin(parts[1..], runs[1..])
  }

  /** `ds` is a digit run that the lexer reads as `n`. */
  predicate Spells(ds: string, n: int) {
    ds != [] && AllDigits(ds) && n == Wrap64(Decimal(ds)) && (Decimal(ds) < TWO_63 ==> n == Decimal(ds))
  }

  predicate SpellAll(parts: seq<Part>, runs: seq<string>) {
    |parts| == |runs| && forall k :: 0 <= k < |parts| && parts[k].Arg? ==> Spells(runs[k], parts[k].num)
  }

  lemma {:induction false} DigitsAreRead(s: string, i: nat, j: nat)
    requires HolderAt(s, i) && i + 1 < j <= DigitsEnd(s, i + 1)
    ensures ModeAt(s, j) == Digits
  {
    DigitsEndIsMaximal(s, i + 1);
    if j > i + 2 {
      DigitsAreRead(s, i, j - 1);
    } else {
      assert ModeAt(s, i + 1) == RawDollar;
    }
  }

  lemma ConsumedPastDigits(s: string, i: nat, j: nat)
    requires HolderAt(s, i) && i <= j <= DigitsEnd(s, i + 1)
    ensures Consumed(s, j) == Consumed(s, DigitsEnd(s, i + 1))
    decreases |s| - j
  {
    var e := DigitsEnd(s, i + 1);
    if j < e {
      ConsumedPastDigits(s, i, j + 1);
      if j > i + 1 { DigitsAreRead(s, i, j); }
    }
  }

  lemma {:induction false} RejoinTwo(text: string, num: Int64, parts: seq<Part>, ds: string, runs: seq<string>)
    requires SpellAll(parts, runs) && Spells(ds, num)
    ensures SpellAll([Sql(text), Arg(num)] + parts, [[], ds] + runs)
    ensures Rejoin([Sql(text), Arg(num)] + parts, [[], ds] + runs) == text + ("$" + ds) + Rejoin(parts, runs)
  {
  }

  lemma RejoinHolder(s: string, start: nat, i: nat, rest: seq<string>)
    requires start <= i && HolderAt(s, i)
    requires var e := DigitsEnd(s, i + 1);
             && SpellAll(PartsFrom(s, e, e), rest)
             && Rejoin(PartsFrom(s, e, e), rest) == s[e..Consumed(s, e)]
    ensures var runs := [[], s[i + 1..DigitsEnd(s, i + 1)]] + rest;
            && SpellAll(PartsFrom(s, start, i), runs)
            && Rejoin(PartsFrom(s, start, i), runs) == s[start..Consumed(s, i)]
  {
    var e := DigitsEnd(s, i + 1);
    var ds, tail := s[i + 1..e], PartsFrom(s, e, e);
    PartsAtHolder(s, start, i);
    NumberIsDecimal(ds);
    ConsumedPastDigits(s, i, i);
    RejoinTwo(s[start..i], Number(ds), tail, ds, rest);
    SliceInThree(s, start, i, e, Consumed(s, e));
  }

  lemma SliceInThree(s: string, a: nat, b: nat, c: nat, d: nat)
    requires a <= b < c <= d <= |s|
    ensures s[a..b] + ([s[b]] + s[b + 1..c]) + s[c..d] == s[a..d]
  {
  }

  lemma RejoinFrom(s: string, start: nat, i: nat) returns (runs: seq<string>)
    requires start <= i <= |s|
    ensures SpellAll(PartsFrom(s, start, i), runs)
    ensures Rejoin(PartsFrom(s, start, i), runs) == s[start..Consumed(s, i)]
    decreases |s| - i
  {
    if i == |s| || ModeAt(s, i).Stopped? {
      PartsAtEnd(s, start, i);
      runs := seq(|PartsFrom(s, start, i)|, _ => []);
    } else if HolderAt(s, i) {
      var e := DigitsEnd(s, i + 1);
      var rest := RejoinFrom(s, e, e);
      RejoinHolder(s, start, i, rest);
      runs := [[], s[i + 1..e]] + rest;
    } else {
      PartsSkip(s, start, i);
      runs := RejoinFrom(s, start, i + 1);
    }
  }

  lemma {:induction false} ConsumesAll(s: string, i: nat)
    requires ErrorFree(s) && i <= |s|
    ensures Consumed(s, i) == |s|
    decreases |s| - i
  {
    RunsToTheEnd(s, i);
    if i < |s| {
      ConsumesAll(s, i + 1);
    }
  }

  /**
   Nothing is lost or invented: with each number written back as the digits it was read from, the parts
   join to the text that was read, which is the whole source when it holds no error rune.
   */
  lemma Lossless(s: string) returns (runs: seq<string>)
    ensures SpellAll(Parts(s), runs)
    ensures Rejoin(Parts(s), runs) == s[..Consumed(s, 0)]
    ensures ErrorFree(s) ==> Rejoin(Parts(s), runs) == s
  {
    runs := RejoinFrom(s, 0, 0);
    if ErrorFree(s) {
      ConsumesAll(s, 0);
      assert s[..|s|] == s;
    }
  }

  // ---- placeholders ----

  lemma {:induction false} NoHolderInDigits(s: string, i: nat, j: nat)
    requires HolderAt(s, i) && i < j < DigitsEnd(s, i + 1)
    ensures !HolderAt(s, j)
  {
    DigitsEndIsMaximal(s, i + 1);
  }

  lemma {:induction false} StaysStopped(s: string, i: nat, j: nat)
    requires i <= j <= |s| && ModeAt(s, i).Stopped?
    ensures ModeAt(s, j).Stopped?
  {
    if i < j {
      StaysStopped(s, i, j - 1);
    }
  }

  lemma {:induction false} SplitHolders(s: string, start: nat, i: nat, j: nat)
    requires start <= i <= |s| && i <= j
    ensures HolderAt(s, j) <==> j < |s| && Holder(j, DigitsEnd(s, j + 1)) in Split(s, start, i)
    decreases |s| - i
  {
    if i == |s| {
    } else if ModeAt(s, i).Stopped? {
      if j <= |s| { StaysStopped(s, i, j); }
    } else if HolderAt(s, i) {
      var e := DigitsEnd(s, i + 1);
      assert Split(s, start, i) == [Text(start, i), Holder(i, e)] + Split(s, e, e);
      if j < e {
        SplitLow(s, e, e, j);
        if j > i { NoHolderInDigits(s, i, j); }
      } else {
        SplitHolders(s, e, e, j);
      }
    } else {
      if j > i {
        SplitHolders(s, start, i + 1, j);
      } else {
        SplitLow(s, start, i + 1, j);
      }
    }
  }

  /** The pieces from `i` on hold no placeholder that starts before `i`. */
  lemma {:induction false} SplitLow(s: string, start: nat, i: nat, j: nat)
    requires start <= i <= |s| && j < i
    ensures forall e: nat :: Holder(j, e) !in Split(s, start, i)
    decreases |s| - i
  {
    if i == |s| || ModeAt(s, i).Stopped? {
    } else if HolderAt(s, i) {
      var e := DigitsEnd(s, i + 1);
      SplitLow(s, e, e, j);
    } else {
      SplitLow(s, start, i + 1, j);
    }
  }

  /** A `$` and the digits after it are a placeholder exactly when the automaton reads the `$` in raw mode. */
  lemma HoldersExactly(s: string, i: nat)
    requires i < |s|
    ensures SpansIn(s, Split(s, 0, 0)) && Parts(s) == PartsOf(s, Split(s, 0, 0))
    ensures Holder(i, DigitsEnd(s, i + 1)) in Split(s, 0, 0)
       <==> s[i] == '$' && i + 1 < |s| && IsDigit(s[i + 1]) && IsRaw(ModeAt(s, i))
  {
    SplitIsIn(s, 0, 0);
    SplitHolders(s, 0, 0, i);
  }

  // ---- nested comments ----

  datatype Token = Open | Close | Other(r: char)

  /** The comment marks in a text, found left to right, two runes at a time. */
  function Tokens(s: string): seq<Token> {
    if s == [] then []
    else if |s| >= 2 && s[0] == '/' && s[1] == '*' then [Open] + Tokens(s[2..])
    else if |s| >= 2 && s[0] == '*' && s[1] == '/' then [Close] + Tokens(s[2..])
    else [Other(s[0])] + Tokens(s[1..])
  }

  function PrintTokens(ts: seq<Token>): string {
    if ts == [] then []
    else (match ts[0] case Open => "/*" case Close => "*/" case Other(r) => [r]) + PrintTokens(ts[1..])
  }

  /** The marks and the runes between them are the text. */
  lemma {:induction false} TokensAreText(s: string)
    ensures PrintTokens(Tokens(s)) == s
    decreases |s|
  {
    if s != [] {
      var w := if Tokens(s)[0].Other? then 1 else 2;
      TokensAreText(s[w..]);
      assert Tokens(s)[1..] == Tokens(s[w..]) && s == s[..w] + s[w..];
    }
  }

  /** Opens minus closes. */
  function Excess(ts: seq<Token>): int {
    if ts == [] then 0
    else (match ts[0] case Open => 1 case Close => -1 case Other(_) => 0) + Excess(ts[1..])
  }

  /** No prefix of the marks closes more than it opens and the `d + 1` comments already open allow. */
  ghost predicate StaysOpen(ts: seq<Token>, d: nat) {
    forall k :: 0 <= k <= |ts| ==> Excess(ts[..k]) + d >= 0
  }

  predicate InBlock(m: Mode, d: int) {
    d >= 0 && (m == Block(d) || m == BlockSlash(d) || m == BlockStar(d))
  }

  lemma StaysOpenTail(t: Token, ts: seq<Token>, d: nat, d': int)
    requires StaysOpen([t] + ts, d) && d' == d + Excess([t])
    ensures d' >= 0 && StaysOpen(ts, d')
  {
    forall k | 0 <= k <= |ts|
      ensures Excess(ts[..k]) + d' >= 0
    {
      assert ([t] + ts)[..k + 1] == [t] + ts[..k];
      assert Excess([t] + ts[..k]) + d >= 0;
    }
    assert ts[..0] == [];
  }

  /** Inside a comment the depth is the depth at entry plus the excess of marks read since. */
  lemma {:induction false} CommentDepth(s: string, d: nat)
    requires ErrorFree(s) && StaysOpen(Tokens(s), d)
    ensures InBlock(Run(Block(d), s), d + Excess(Tokens(s)))
    decreases |s|
  {
    if s != [] {
      var t := Tokens(s)[0];
      var w := if t.Other? then 1 else 2;
      var d' := d + Excess([t]);
      assert Tokens(s) == [t] + Tokens(s[w..]);
      StaysOpenTail(t, Tokens(s[w..]), d, d');
      CommentDepth(s[w..], d');
      assert s[0] in s;
      if w == 2 {
        assert s[1..][1..] == s[2..];
      } else if |s| > 1 {
        assert Step(Step(Block(d), s[0]), s[1]) == Step(Block(d), s[1]);
        assert Run(Step(Block(d), s[0]), s[1..]) == Run(Block(d), s[1..]);
      }
    }
  }

  /**
   A comment ends exactly at the first mark that closes more than was opened: up to that mark the text is
   inside the comment, and right after it the lexer reads raw SQL.
   */
  lemma {:induction false} CommentEnds(s: string, d: nat)
    requires ErrorFree(s) && Tokens(s) != [] && var n := |Tokens(s)| - 1;
             StaysOpen(Tokens(s)[..n], d) && Excess(Tokens(s)) + d == -1
    ensures Run(Block(d), s) == Raw
    decreases |s|
  {
    var ts := Tokens(s);
    var t, n := ts[0], |ts| - 1;
    var w := if t.Other? then 1 else 2;
    assert ts == [t] + Tokens(s[w..]);
    assert s[0] in s;
    if w == 2 {
      assert s[1..][1..] == s[2..];
    }
    if Tokens(s[w..]) == [] {
      assert ts == [t] && s[w..] == [];
      assert t == Close && d == 0;
      assert Run(Block(0), s) == Run(BlockStar(0), s[1..]) == Run(Raw, s[1..][1..]);
    } else {
      var rest := Tokens(s[w..]);
      var d' := d + Excess([t]);
      assert ts[..n] == [t] + rest[..n - 1];
      StaysOpenTail(t, rest[..n - 1], d, d');
      CommentEnds(s[w..], d');
      if w == 1 {
        assert Step(Step(Block(d), s[0]), s[1]) == Step(Block(d), s[1]);
      }
    }
  }
}
