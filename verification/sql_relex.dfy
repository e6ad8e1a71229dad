/**
 Lexing the text that `SanitizeSQL` produces. Its quotes, comments and placeholders are read as they were written,
 every argument a literal by itself and the SQL around them in its own modes, exactly when no literal joins the
 text before it, or is joined by the text after it; then it is one raw part, without a placeholder. Its words and
 numbers are those written exactly when, besides, none sticks to another.
 */
module SqlRelex {
  import opened Basics
  import opened SqlModes
  import opened SqlProperties
  import opened SqlPieces
  import opened SqlWords
  import opened Quoting
  import opened Sanitize
  import SqlLexemes
  import SqlLexer

  predicate ErrorFreeArgs(args: seq<Value>) {
    forall k :: 0 <= k < |args| && args[k].Str? ==> ErrorFree(args[k].s)
  }

  // ---- literals ----

  /** The modes in which a literal may leave the automaton. */
  predicate TailMode(m: Mode) {
    m.Raw? || m.RawE? || m.SingleQuote?
  }

  /** Read as raw SQL, `t` holds no placeholder and leaves no quote or comment open. */
  predicate Contained(t: string) {
    t != [] && Quiet(Raw, t) && TailMode(Run(Raw, t)) && ErrorFree(t)
  }

  /** Runes that raw mode reads without leaving it. */
  predicate Plain(t: string) {
    forall k :: 0 <= k < |t| ==> RawStep(t[k]) == Raw
  }

  lemma {:induction false} PlainIsQuiet(m: Mode, t: string)
    requires Plain(t) && (m == Raw || m == RawDash)
    ensures Quiet(m, t) && Run(m, t) == if t == [] then m else Raw
    decreases t
  {
    if t != [] {
      assert Step(m, t[0]) == Raw;
      PlainIsQuiet(Raw, t[1..]);
    }
  }

  lemma {:induction false} InsideQuotes(t: string)
    requires '\'' !in t && ErrorFree(t)
    ensures Quiet(Single, t + "'") && Run(Single, t + "'") == SingleQuote
    decreases t
  {
    var q := t + "'";
    if t == [] {
      assert q == ['\''] && q[1..] == [];
    } else {
      assert q[1..] == t[1..] + "'";
      assert t[0] in t;
      InsideQuotes(t[1..]);
    }
  }

  lemma {:induction false} DoubledIsInside(s: string)
    requires ErrorFree(s)
    ensures var q := Doubled(s, '\'') + "'";
            Quiet(Single, q) && Run(Single, q) == SingleQuote && ErrorFree(q)
  {
    var q := Doubled(s, '\'') + "'";
    if s == [] {
      assert q == ['\''] && q[1..] == [];
    } else {
      var q' := Doubled(s[1..], '\'') + "'";
      assert s[0] in s;
      DoubledIsInside(s[1..]);
      if s[0] == '\'' {
        assert q == ['\'', '\''] + q';
        assert q[1..] == ['\''] + q' && q[1..][1..] == q';
        assert Step(Step(Single, '\''), '\'') == Single;
        assert Run(Single, q) == Run(SingleQuote, q[1..]) == Run(Single, q');
      } else {
        assert q == [s[0]] + q';
        assert q[1..] == q';
      }
    }
  }

  lemma {:induction false} QuotedIsContained(body: string)
    requires Quiet(Single, body + "'") && Run(Single, body + "'") == SingleQuote && ErrorFree(body)
    ensures Contained("'" + body + "'") && Run(Raw, "'" + body + "'") == SingleQuote
  {
    var t := "'" + body + "'";
    assert t[1..] == body + "'";
  }

  lemma {:induction false} HexIsPlain(b: seq<Byte>)
    ensures '\'' !in Hex(b) && ErrorFree(Hex(b))
  {
    if b != [] {
      HexIsPlain(b[1..]);
      HexDigitReadsBack(b[0] / 16);
      HexDigitReadsBack(b[0] % 16);
    }
  }

  lemma {:induction false} SignedIsContained(sign: char, t: string)
    requires Plain(t) && t != [] && ErrorFree(t) && (sign == '-' || RawStep(sign) == Raw)
    requires sign != RUNE_ERROR
    ensures Contained([sign] + t) && Contained(t) && Run(Raw, [sign] + t) == Run(Raw, t) == Raw
  {
    PlainIsQuiet(Raw, t);
    PlainIsQuiet(if sign == '-' then RawDash else Raw, t);
    assert ([sign] + t)[1..] == t;
  }

  lemma {:induction false} DigitsAreContained(ds: string)
    requires AllDigits(ds) && ds != []
    ensures Contained(ds) && Contained("-" + ds) && Run(Raw, ds) == Run(Raw, "-" + ds) == Raw
  {
    SignedIsContained('-', ds);
  }

  lemma {:induction false} FloatIsContained(t: FloatText)
    ensures Contained(t) && Run(Raw, t) == Raw
  {
    var rest := t[1..];
    assert t == [t[0]] + rest;
    assert forall k :: 0 <= k < |rest| ==> rest[k] == t[k + 1];
    if rest == [] {
      assert t == [t[0]] && t[1..] == [];
    } else {
      SignedIsContained(t[0], rest);
    }
  }

  lemma {:induction false} WordIsContained(stem: string)
    requires Plain(stem) && ErrorFree(stem)
    ensures stem != [] ==> Contained(stem) && Contained(stem + "e")
    ensures Run(Raw, stem) == Raw && Run(Raw, stem + "e") == RawE
  {
    PlainIsQuiet(Raw, stem);
    RunConcat(Raw, stem, "e");
    assert "e"[1..] == "";
    QuietConcat(Raw, stem, "e");
  }

  lemma BytesAreContained(b: seq<Byte>)
    ensures Contained(QuoteBytes(b)) && Run(Raw, QuoteBytes(b)) == SingleQuote
  {
    var body := "\\x" + Hex(b);
    HexIsPlain(b);
    InsideQuotes(body);
    QuotedIsContained(body);
    assert QuoteBytes(b) == "'" + body + "'";
  }

  lemma StringIsContained(s: string)
    requires ErrorFree(s)
    ensures Contained(QuoteString(s)) && Run(Raw, QuoteString(s)) == SingleQuote
  {
    DoubledIsInside(s);
    QuotedIsContained(Doubled(s, '\''));
    assert QuoteString(s) == "'" + Doubled(s, '\'') + "'";
  }

  lemma IntIsContained(n: int)
    ensures Contained(IntText(n)) && Run(Raw, IntText(n)) == Raw
  {
    var abs := if n < 0 then -n else n;
    NatTextReadsBack(abs);
    DigitsAreContained(NatText(abs));
  }

  lemma BoolIsContained(b: bool)
    ensures Contained(if b then "true" else "false") && Run(Raw, if b then "true" else "false") == RawE
  {
    WordIsContained(if b then "tru" else "fals");
    assert "true" == "tru" + "e" && "false" == "fals" + "e";
  }

  predicate IsQuoted(v: Value) {
    v.Bytes? || v.Str? || v.Time?
  }

  /** The mode in which a literal leaves the automaton. */
  function LastMode(v: Value): Mode {
    if IsQuoted(v) then SingleQuote else if v.Bool? then RawE else Raw
  }

  /** Every literal keeps to itself, whatever its argument holds. */
  lemma LiteralIsContained(v: Value)
    requires v.Str? ==> ErrorFree(v.s)
    ensures Literal(v).Some? ==> Contained(Literal(v).value) && Run(Raw, Literal(v).value) == LastMode(v)
  {
    match v
    case Null => WordIsContained("null");
    case Bool(b) => BoolIsContained(b);
    case Int(n) => IntIsContained(n);
    case Float(t) => FloatIsContained(t);
    case Bytes(b) => BytesAreContained(b);
    case Str(s) => StringIsContained(s);
    case Time(t) =>
      InsideQuotes(t);
      QuotedIsContained(t);
    case Unsupported =>
  }

  predicate IsNegative(v: Value) {
    (v.Int? && v.n < 0) || (v.Float? && v.text[0] == '-')
  }

  predicate StartsWithDigit(v: Value) {
    (v.Int? && v.n >= 0) || (v.Float? && IsDigit(v.text[0]))
  }

  lemma FirstRuneOf(v: Value)
    requires Literal(v).Some?
    ensures var t := Literal(v).value;
            && t != [] && (t[0] == '\'' <==> IsQuoted(v)) && (t[0] == '-' <==> IsNegative(v))
            && (IsDigit(t[0]) <==> StartsWithDigit(v)) && t[0] != '*' && t[0] != '"'
  {
    if v.Int? {
      var n: int := v.n;
      NatTextReadsBack(if n < 0 then -n else n);
    }
  }

  /** Which literals join what comes before them, and what joins a literal. */
  lemma WhichJoin(v: Value, m: Mode, r: char)
    requires Literal(v).Some? && (v.Str? ==> ErrorFree(v.s))
    ensures Joins(m, Literal(v).value[0]) <==>
              || (IsQuoted(v) && (m == RawE || m == SingleQuote || m == EscapeQuote))
              || (IsNegative(v) && m == RawDash)
              || (StartsWithDigit(v) && (m == RawDollar || m == Digits))
    ensures Joins(Run(Raw, Literal(v).value), r) <==> r == '\'' && (IsQuoted(v) || v.Bool?)
  {
    LiteralIsContained(v);
    FirstRuneOf(v);
  }

  predicate IsSigned(v: Value) {
    IsNegative(v) || (v.Float? && v.text[0] == '+')
  }

  lemma LastRuneOf(v: Value)
    requires Literal(v).Some?
    ensures var t := Literal(v).value; t != [] && (if IsQuoted(v) then t[|t| - 1] == '\'' else WordRune(t[|t| - 1]))
  {
    if v.Int? {
      var n: int := v.n;
      NatTextReadsBack(if n < 0 then -n else n);
    }
  }

  /** Letters and digits do not lead out of a quote or a comment. */
  lemma WordStaysRaw(m: Mode, r: char)
    requires WordRune(r) && IsRaw(Step(m, r))
    ensures IsRaw(m)
  {
  }

  /** A text that ends in raw mode, with a letter or digit, ends in a word; one that ends with a quote does not. */
  lemma {:induction false} EndOfText(t: string)
    requires t != [] && IsRaw(Run(Raw, t))
    ensures WordRune(t[|t| - 1]) ==> Unfinished(Raw, "", t) != ""
    ensures t[|t| - 1] == '\'' ==> Unfinished(Raw, "", t) == ""
  {
    var init, last := t[..|t| - 1], t[|t| - 1];
    UnfinishedLast(Raw, "", t);
    assert t == init + [last] && [last][1..] == [];
    RunConcat(Raw, init, [last]);
    if WordRune(last) {
      WordStaysRaw(Run(Raw, init), last);
    }
  }

  lemma FirstIsWord(v: Value)
    requires Literal(v).Some?
    ensures var t := Literal(v).value; t != [] && (WordRune(t[0]) || t[0] == '\'' <==> !IsSigned(v))
  {
    FirstRuneOf(v);
  }

  /** Which literals stick to a word before them: those without a sign. Which end in a word: those without quotes. */
  lemma WhichStick(v: Value)
    requires Literal(v).Some? && (v.Str? ==> ErrorFree(v.s))
    ensures Sticks(Raw, Literal(v).value[0]) <==> !IsSigned(v)
    ensures Unfinished(Raw, "", Literal(v).value) != "" <==> !IsQuoted(v)
  {
    FirstIsWord(v);
    LiteralIsContained(v);
    LastRuneOf(v);
    EndOfText(Literal(v).value);
  }

  // ---- the pieces of a source ----

  /** Where a text begins: at the start of the source, or after a placeholder. */
  predicate Resumes(s: string, i: nat)
    requires i <= |s|
  {
    i == 0 || (ModeAt(s, i) == Digits && (i < |s| ==> !IsDigit(s[i])))
  }

  lemma {:induction false} ResumesAfter(s: string, n: nat)
    requires HolderAt(s, n)
    ensures Resumes(s, DigitsEnd(s, n + 1))
  {
    DigitsEndIsMaximal(s, n + 1);
    DigitsAreRead(s, n, DigitsEnd(s, n + 1));
  }

  ghost predicate NoHolders(s: string, lo: nat, hi: nat) {
    forall k: nat :: lo <= k < hi ==> !HolderAt(s, k)
  }

  /** A text without placeholders, followed by one if `more`; or a whole placeholder. */
  ghost predicate SpanFits(s: string, sp: Span, more: bool) {
    match sp
    case Text(lo, hi) =>
      lo <= hi <= |s| && Resumes(s, lo) && NoHolders(s, lo, hi) && (more ==> HolderAt(s, hi))
    case Holder(lo, hi) => HolderAt(s, lo) && hi == DigitsEnd(s, lo + 1)
  }

  /** Texts and placeholders by turns, each beginning where the one before it ends. */
  ghost predicate FollowsAt(s: string, spans: seq<Span>, start: nat, k: nat)
    requires k < |spans|
  {
    && SpanFits(s, spans[k], k + 1 < |spans|)
    && if k == 0 then spans[k].Text? && spans[k].lo == start
       else spans[k].Text? != spans[k - 1].Text? && spans[k].lo == spans[k - 1].hi
  }

  ghost predicate Alternate(s: string, spans: seq<Span>, start: nat) {
    forall k: nat :: k < |spans| ==> FollowsAt(s, spans, start, k)
  }

  lemma {:induction false} AlternateTwo(s: string, start: nat, n: nat, rest: seq<Span>)
    requires SpanFits(s, Text(start, n), true) && Alternate(s, rest, DigitsEnd(s, n + 1))
    ensures Alternate(s, [Text(start, n), Holder(n, DigitsEnd(s, n + 1))] + rest, start)
  {
    var spans := [Text(start, n), Holder(n, DigitsEnd(s, n + 1))] + rest;
    forall k: nat | k < |spans|
      ensures FollowsAt(s, spans, start, k)
    {
      if k >= 2 {
        assert spans[k] == rest[k - 2] && FollowsAt(s, rest, DigitsEnd(s, n + 1), k - 2);
        assert k > 2 ==> spans[k - 1] == rest[k - 3];
      }
    }
  }

  lemma {:induction false} SplitAlternates(s: string, start: nat, i: nat)
    requires ErrorFree(s) && start <= i <= |s| && Resumes(s, start) && NoHolders(s, start, i)
    ensures Alternate(s, Split(s, start, i), start)
    decreases |s| - i
  {
    RunsToTheEnd(s, i);
    if i < |s| && HolderAt(s, i) {
      var e := DigitsEnd(s, i + 1);
      ResumesAfter(s, i);
      SplitAlternates(s, e, e);
      AlternateTwo(s, start, i, Split(s, e, e));
    } else if i < |s| {
      SplitAlternates(s, start, i + 1);
    }
  }

  /** The mode from which a piece is read at home: in the source, or alone. */
  function HomeOf(s: string, sp: Span): Mode
    requires SpanIn(s, sp)
  {
    if sp.Text? then ModeAt(s, sp.lo) else Raw
  }

  function Homes(s: string): (hs: seq<Mode>)
    ensures |hs| == |Parts(s)|
  {
    SplitIsIn(s, 0, 0);
    var spans := Split(s, 0, 0);
    seq(|spans|, k requires 0 <= k < |spans| => HomeOf(s, spans[k]))
  }

  lemma {:induction false} RunsOn(s: string, lo: nat, hi: nat)
    requires lo <= hi <= |s|
    ensures Run(ModeAt(s, lo), s[lo..hi]) == ModeAt(s, hi)
  {
    ModeAtIsRun(s, lo);
    ModeAtIsRun(s, hi);
    RunConcat(Raw, s[..lo], s[lo..hi]);
    assert s[..lo] + s[lo..hi] == s[..hi];
  }

  lemma {:induction false} NoHoldersIsQuiet(s: string, lo: nat, hi: nat)
    requires lo <= hi <= |s| && forall k: nat :: lo <= k < hi ==> !HolderAt(s, k)
    ensures Quiet(ModeAt(s, lo), s[lo..hi])
    decreases hi - lo
  {
    if lo < hi {
      var t := s[lo..hi];
      assert t[1..] == s[lo + 1..hi] && t[0] == s[lo] && (|t| > 1 ==> t[1] == s[lo + 1]);
      assert !HolderAt(s, lo);
      NextMode(s, lo);
      NoHoldersIsQuiet(s, lo + 1, hi);
    }
  }

  lemma {:induction false} TextIsWellCut(s: string, lo: nat, hi: nat, more: bool)
    requires SpanFits(s, Text(lo, hi), more)
    ensures WellCut(s[lo..hi], ModeAt(s, lo), more) && Quiet(ModeAt(s, lo), s[lo..hi])
    ensures Run(ModeAt(s, lo), s[lo..hi]) == ModeAt(s, hi)
  {
    RunsOn(s, lo, hi);
    NoHoldersIsQuiet(s, lo, hi);
  }

  ghost predicate AllContained(lits: Literals) {
    forall k :: 0 <= k < |lits| && lits[k].Some? ==> Contained(lits[k].value)
  }

  lemma LiteralsAreContained(args: seq<Value>)
    requires ErrorFreeArgs(args)
    ensures AllContained(LiteralsOf(args))
  {
    forall k | 0 <= k < |args| && Literal(args[k]).Some?
      ensures Contained(Literal(args[k]).value)
    {
      LiteralIsContained(args[k]);
    }
  }

  /** Piece `k` of the output: a text of the source, or a literal. */
  lemma {:induction false} PieceIs(s: string, lits: Literals, k: nat)
    requires ErrorFree(s) && AllContained(lits) && AllResolve(Parts(s), lits) && k < |Parts(s)|
    ensures var t, h := WrittenAll(Parts(s), lits)[k], Homes(s)[k];
            && WellCut(t, h, k + 1 < |Parts(s)|) && Quiet(h, t) && ErrorFree(t) && AtStart(h)
            && match Split(s, 0, 0)[k]
               case Text(lo, hi) => SpanIn(s, Text(lo, hi)) && t == s[lo..hi] && Run(h, t) == ModeAt(s, hi)
               case Holder(_, _) => Contained(t)
  {
    var sp := Split(s, 0, 0)[k];
    SplitIsIn(s, 0, 0);
    SplitAlternates(s, 0, 0);
    assert FollowsAt(s, Split(s, 0, 0), 0, k);
    if sp.Text? {
      TextIsWellCut(s, sp.lo, sp.hi, k + 1 < |Parts(s)|);
    } else {
      assert Parts(s)[k].Arg?;
    }
  }

  lemma AllPieces(s: string, lits: Literals)
    requires ErrorFree(s) && AllContained(lits) && AllResolve(Parts(s), lits)
    ensures AllWellCut(WrittenAll(Parts(s), lits), Homes(s)) && AllAtStart(Homes(s))
    ensures forall k {:trigger Homes(s)[k]} :: 0 <= k < |Parts(s)| ==>
              Quiet(Homes(s)[k], WrittenAll(Parts(s), lits)[k]) && ErrorFree(WrittenAll(Parts(s), lits)[k])
  {
    forall k | 0 <= k < |Parts(s)|
      ensures WellCut(WrittenAll(Parts(s), lits)[k], Homes(s)[k], k + 1 < |Parts(s)|) && AtStart(Homes(s)[k])
      ensures Quiet(Homes(s)[k], WrittenAll(Parts(s), lits)[k]) && ErrorFree(WrittenAll(Parts(s), lits)[k])
    {
      PieceIs(s, lits, k);
    }
  }

  lemma {:induction false} ConcatIsErrorFree(ts: seq<string>)
    requires forall k :: 0 <= k < |ts| ==> ErrorFree(ts[k])
    ensures ErrorFree(Concat(ts))
  {
    if ts != [] {
      ConcatIsErrorFree(ts[..|ts| - 1]);
    }
  }

  /**
   The text made from a source: its quotes, comments and placeholders are read as they were written if and only if
   no two of its pieces join, and then it lexes to itself, without a placeholder. Its words, numbers and tags are
   then those of the pieces if and only if no piece sticks to a word before it.
   */
  lemma SanitizedExactly(s: string, args: seq<Value>)
    requires ErrorFree(s) && ErrorFreeArgs(args) && AllResolve(Parts(s), LiteralsOf(args))
    ensures var ts, hs := WrittenAll(Parts(s), LiteralsOf(args)), Homes(s);
            var out := Flatten(Parts(s), LiteralsOf(args));
            && out == Concat(ts) && (Apart(ts, hs) <==> ReadAsWritten(ts, hs))
            && (Apart(ts, hs) ==> Parts(out) == if out == "" then [] else [Sql(out)])
            && (Apart(ts, hs) && Separate(ts, hs)
                <==> ReadAsWritten(ts, hs) && Words(Raw, "", out) == WordsOf(ts, hs, |ts|))
  {
    var ts, hs := WrittenAll(Parts(s), LiteralsOf(args)), Homes(s);
    LiteralsAreContained(args);
    AllPieces(s, LiteralsOf(args));
    ApartExactly(ts, hs);
    if Apart(ts, hs) {
      SeparateExactly(ts, hs);
      ApartIsQuiet(ts, hs, |ts|);
      assert ts[..|ts|] == ts;
      ConcatIsErrorFree(ts);
      QuietIsOnePart(Concat(ts));
    }
  }

  // ---- a simple condition that is enough, and what happens without it ----

  predicate Border(r: char) {
    || r == ' ' || r == '\t' || r == '\n' || r == '\r' || r == '\U{0B}' || r == '\U{0C}'
    || r == ',' || r == '(' || r == ')'
  }

  ghost predicate BorderedAt(s: string, i: nat)
    requires HolderAt(s, i)
  {
    var e := DigitsEnd(s, i + 1);
    (i == 0 || Border(s[i - 1])) && (e == |s| || Border(s[e]))
  }

  ghost predicate Bordered(s: string) {
    forall i: nat :: HolderAt(s, i) ==> BorderedAt(s, i)
  }

  /** After a border, raw SQL is read in plain raw mode. */
  lemma {:induction false} RawAfterBorder(s: string, i: nat)
    requires 0 < i <= |s| && Border(s[i - 1]) && IsRaw(ModeAt(s, i))
    ensures ModeAt(s, i) == Raw
  {
  }

  lemma BorderJoins(m: Mode, r: char)
    requires Border(r) || m == Raw
    ensures !Joins(m, r)
  {
  }

  lemma {:induction false} RawBefore(s: string, n: nat)
    requires HolderAt(s, n) && BorderedAt(s, n)
    ensures ModeAt(s, n) == Raw
  {
    if n > 0 {
      RawAfterBorder(s, n);
    }
  }

  /** Before a bordered placeholder is a text, which is empty only at the start, and ends in plain raw mode. */
  lemma {:induction false} TextBefore(s: string, spans: seq<Span>, k: nat)
    requires Alternate(s, spans, 0) && Bordered(s) && k < |spans| && spans[k].Holder?
    ensures k > 0 && spans[k - 1].Text? && (k == 1 || spans[k - 1].lo < spans[k - 1].hi)
    ensures spans[k - 1].hi <= |s| && ModeAt(s, spans[k - 1].hi) == Raw
    ensures spans[k - 1].hi > 0 ==> Border(s[spans[k - 1].hi - 1])
  {
    assert FollowsAt(s, spans, 0, k) && FollowsAt(s, spans, 0, k - 1);
    assert BorderedAt(s, spans[k].lo);
    RawBefore(s, spans[k].lo);
    if k > 1 {
      TextAfter(s, spans, k - 1);
    }
  }

  /** After a bordered placeholder is a border. */
  lemma TextAfter(s: string, spans: seq<Span>, k: nat)
    requires Alternate(s, spans, 0) && Bordered(s) && 0 < k < |spans| && spans[k].Text?
    ensures spans[k].lo < |s| ==> Border(s[spans[k].lo])
  {
    assert FollowsAt(s, spans, 0, k) && FollowsAt(s, spans, 0, k - 1);
    assert BorderedAt(s, spans[k - 1].lo);
  }

  lemma {:induction false} LeftOfHolder(s: string, lits: Literals, k: nat)
    requires ErrorFree(s) && Bordered(s) && AllContained(lits) && AllResolve(Parts(s), lits)
    requires k < |Parts(s)| && Split(s, 0, 0)[k].Holder?
    ensures Left(WrittenAll(Parts(s), lits), Homes(s), k) == Raw
  {
    SplitAlternates(s, 0, 0);
    TextBefore(s, Split(s, 0, 0), k);
    PieceIs(s, lits, k - 1);
  }

  lemma BorderedAtPiece(s: string, lits: Literals, k: nat)
    requires ErrorFree(s) && Bordered(s) && AllContained(lits) && AllResolve(Parts(s), lits) && k < |Parts(s)|
    ensures ApartAt(WrittenAll(Parts(s), lits), Homes(s), k)
  {
    var ts, hs := WrittenAll(Parts(s), lits), Homes(s);
    if ts[k] != [] {
      PieceIs(s, lits, k);
      if Split(s, 0, 0)[k].Holder? {
        LeftOfHolder(s, lits, k);
      } else if k > 0 {
        SplitAlternates(s, 0, 0);
        TextAfter(s, Split(s, 0, 0), k);
      }
      BorderJoins(Left(ts, hs, k), ts[k][0]);
    }
  }

  lemma {:induction false} BorderEndsWord(h: Mode, t: string)
    requires t != [] && Border(t[|t| - 1])
    ensures Unfinished(h, "", t) == ""
  {
    UnfinishedLast(h, "", t);
  }

  lemma {:induction false} PieceText(s: string, lits: Literals, k: nat)
    requires AllResolve(Parts(s), lits) && k < |Parts(s)| && Split(s, 0, 0)[k].Text?
    ensures var sp := Split(s, 0, 0)[k]; SpanIn(s, sp) && WrittenAll(Parts(s), lits)[k] == s[sp.lo..sp.hi]
  {
    SplitIsIn(s, 0, 0);
  }

  lemma {:induction false} LastIsBorder(s: string, lits: Literals, k: nat)
    requires ErrorFree(s) && Bordered(s) && AllContained(lits) && AllResolve(Parts(s), lits)
    requires k < |Parts(s)| && Split(s, 0, 0)[k].Holder?
    ensures k > 0
    ensures var t := WrittenAll(Parts(s), lits)[k - 1]; if t == [] then k == 1 else Border(t[|t| - 1])
  {
    SplitAlternates(s, 0, 0);
    TextBefore(s, Split(s, 0, 0), k);
    PieceText(s, lits, k - 1);
  }

  lemma {:induction false} WordBefore(s: string, lits: Literals, k: nat)
    requires ErrorFree(s) && Bordered(s) && AllContained(lits) && AllResolve(Parts(s), lits)
    requires k < |Parts(s)| && Split(s, 0, 0)[k].Holder?
    ensures !EndsInWord(WrittenAll(Parts(s), lits), Homes(s), k)
  {
    LastIsBorder(s, lits, k);
    var ts, hs := WrittenAll(Parts(s), lits), Homes(s);
    if ts[k - 1] != [] {
      BorderEndsWord(hs[k - 1], ts[k - 1]);
    }
  }

  lemma SeparateAtPiece(s: string, lits: Literals, k: nat)
    requires ErrorFree(s) && Bordered(s) && AllContained(lits) && AllResolve(Parts(s), lits) && k < |Parts(s)|
    ensures SeparateAt(WrittenAll(Parts(s), lits), Homes(s), k)
  {
    if Split(s, 0, 0)[k].Holder? {
      WordBefore(s, lits, k);
    } else if k > 0 {
      PieceIs(s, lits, k);
      SplitAlternates(s, 0, 0);
      TextAfter(s, Split(s, 0, 0), k);
    }
  }

  /** With borders around all placeholders, nothing joins and nothing sticks. */
  lemma BordersSuffice(s: string, args: seq<Value>)
    requires ErrorFree(s) && Bordered(s) && ErrorFreeArgs(args) && AllResolve(Parts(s), LiteralsOf(args))
    ensures var ts, hs := WrittenAll(Parts(s), LiteralsOf(args)), Homes(s); Apart(ts, hs) && Separate(ts, hs)
  {
    LiteralsAreContained(args);
    forall k: nat | k < |Parts(s)|
      ensures ApartAt(WrittenAll(Parts(s), LiteralsOf(args)), Homes(s), k)
      ensures SeparateAt(WrittenAll(Parts(s), LiteralsOf(args)), Homes(s), k)
    {
      BorderedAtPiece(s, LiteralsOf(args), k);
      SeparateAtPiece(s, LiteralsOf(args), k);
    }
  }

  /** A source of one rune and a placeholder. */
  lemma PartsAfterOne(r: char)
    requires IsRaw(RawStep(r)) && r != '$'
    ensures Parts([r] + "$1") == [Sql([r]), Arg(1)] && Homes([r] + "$1") == [Raw, Raw]
  {
    var s := [r] + "$1";
    assert ModeAt(s, 0) == Raw && ModeAt(s, 1) == RawStep(r);
    assert HolderAt(s, 1) && DigitsEnd(s, 2) == 3 && s[2..3] == "1" && s[0..1] == [r];
    assert Number("1") == AddDigit(Number(""), '1');
    PartsSkip(s, 0, 0);
    PartsAtHolder(s, 0, 1);
    PartsAtEnd(s, 3, 3);
    SplitAtHolder(s, 0, 1);
  }

  lemma WrittenAfterOne(r: char, v: Value)
    requires IsRaw(RawStep(r)) && r != '$' && Literal(v).Some?
    ensures var s, lits := [r] + "$1", LiteralsOf([v]);
            && AllResolve(Parts(s), lits) && WrittenAll(Parts(s), lits) == [[r], Literal(v).value]
            && Flatten(Parts(s), lits) == [r] + Literal(v).value
  {
    PartsAfterOne(r);
    var a, b := [r], Literal(v).value;
    var ts := WrittenAll(Parts([r] + "$1"), LiteralsOf([v]));
    assert ts == [a, b];
    assert ts[..1] == [a] && Concat([a]) == Concat([]) + a;
  }

  lemma OneDigit(n: int)
    requires 0 <= n < 10
    ensures Literal(Int(n)) == Some([DigitChar(n)])
    ensures n > 0 ==> Literal(Int(-n)) == Some("-" + [DigitChar(n)])
  {
    assert NatText(n) == [DigitChar(n)];
  }

  lemma LeftOfMinus(ts: seq<string>, hs: seq<Mode>)
    requires ts == ["-", "-1"] && hs == [Raw, Raw]
    ensures !Apart(ts, hs)
  {
    assert Run(Raw, "-") == Run(RawDash, "");
    assert !ApartAt(ts, hs, 1);
  }

  lemma CommentOpens()
    ensures ModeAt("--1", 2) == Line
  {
    assert ModeAt("--1", 1) == RawDash;
  }

  /** Without borders a literal can join: a negative number after a minus sign opens a comment. */
  lemma MinusMinus()
    ensures var s, lits := "-$1", LiteralsOf([Int(-1)]);
            && AllResolve(Parts(s), lits) && Flatten(Parts(s), lits) == "--1" && ModeAt("--1", 2) == Line
            && !Apart(WrittenAll(Parts(s), lits), Homes(s))
  {
    var s, lits := "-$1", LiteralsOf([Int(-1)]);
    OneDigit(1);
    PartsAfterOne('-');
    WrittenAfterOne('-', Int(-1));
    assert ['-'] + "$1" == s && "-" + "1" == "-1" && ['-'] + "-1" == "--1";
    var ts := WrittenAll(Parts(s), lits);
    LeftOfMinus(ts, Homes(s));
    CommentOpens();
  }

  lemma RightOfFive(ts: seq<string>, hs: seq<Mode>)
    requires ts == ["5", "3"] && hs == [Raw, Raw]
    ensures Apart(ts, hs) && !Separate(ts, hs)
  {
    assert Run(Raw, "5") == Run(Raw, "") && Unfinished(Raw, "", "5") == Unfinished(Raw, "5", "");
    assert ApartAt(ts, hs, 0) && ApartAt(ts, hs, 1) && !SeparateAt(ts, hs, 1);
  }

  /** A literal can also stick: a number after a digit goes on with the number. */
  lemma FiveThree()
    ensures var s, lits := "5$1", LiteralsOf([Int(3)]);
            && AllResolve(Parts(s), lits) && Flatten(Parts(s), lits) == "53"
            && var ts, hs := WrittenAll(Parts(s), lits), Homes(s); Apart(ts, hs) && !Separate(ts, hs)
  {
    var s, lits := "5$1", LiteralsOf([Int(3)]);
    OneDigit(3);
    PartsAfterOne('5');
    WrittenAfterOne('5', Int(3));
    assert ['5'] + "$1" == s && ['5'] + "3" == "53";
    var ts := WrittenAll(Parts(s), lits);
    RightOfFive(ts, Homes(s));
  }

  /** A placeholder with number zero, which no argument can have, makes the call panic. */
  lemma DollarZero(args: seq<Value>)
    ensures Parts("$0") == [Sql(""), Arg(0)]
    ensures FirstBad(Parts("$0"), LiteralsOf(args), 1) && Fault(Parts("$0")[1], LiteralsOf(args)) == Panic
  {
    var s := "$0";
    assert ModeAt(s, 0) == Raw && HolderAt(s, 0) && DigitsEnd(s, 1) == 2 && s[1..2] == "0" && s[0..0] == "";
    assert Number("0") == AddDigit(Number(""), '0');
    PartsAtHolder(s, 0, 0);
    PartsAtEnd(s, 2, 2);
  }

  /** Parses the SQL and replaces its placeholders. */
  method SanitizeSQL(sql: string, args: seq<Value>) returns (r: Outcome)
    requires |args| < TWO_63
    ensures var parts, lits := Parts(sql), LiteralsOf(args);
            && (r.Ok? <==> AllResolve(parts, lits) && forall i :: 0 <= i < |args| ==> Referenced(parts, i))
            && (r.Ok? ==> r.sql == Flatten(parts, lits)) && Correct(r, parts, args)
    ensures forall ls :: SqlLexemes.Writes(ls, sql) ==> Correct(r, SqlLexemes.Written(ls, sql), args)
    ensures r.Ok? && ErrorFree(sql) && ErrorFreeArgs(args) ==>
              var ts, hs := WrittenAll(Parts(sql), LiteralsOf(args)), Homes(sql);
              && r.sql == Concat(ts) && (Apart(ts, hs) <==> ReadAsWritten(ts, hs))
              && (Apart(ts, hs) && Separate(ts, hs)
                  <==> ReadAsWritten(ts, hs) && Words(Raw, "", r.sql) == WordsOf(ts, hs, |ts|))
              && (Bordered(sql) ==> Apart(ts, hs) && Separate(ts, hs))
              && (Apart(ts, hs) ==> Parts(r.sql) == if r.sql == "" then [] else [Sql(r.sql)])
  {
    var parts := SqlLexer.NewQuery(sql);
    r := SanitizeQuery(parts, args);
    if r.Ok? && ErrorFree(sql) && ErrorFreeArgs(args) {
      SanitizedExactly(sql, args);
      if Bordered(sql) {
        BordersSuffice(sql, args);
      }
    }
  }
}
