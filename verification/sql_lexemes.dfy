/**
 How SQL is written: as a list of lexemes, each printed by itself. The grammar does not look at the automaton's
 modes. `LexesAsWritten` says what the lexer makes of such a text: the placeholders that were written, with their
 numbers, and between them the rest of the text as it is. `EveryTextIsWritten` says that there is no other text.
 */
module SqlLexemes {
  import opened SqlModes
  import opened SqlProperties
  import opened SqlPieces
  import Quoting

  /** A rune inside an escape string or a line comment; one behind a backslash; and a quote written twice. */
  datatype Item = One(r: char) | Hidden(r: char) | Twice

  /** How an escape string or a line comment ends: closed, or with the text, perhaps right after a backslash. */
  datatype End = Closed | Unclosed | Dangling

  /** The last lexeme of a text may be left unclosed. The body of a block comment holds its closing mark. */
  datatype Lexeme =
    | Plain(r: char)
    | Quoted(body: string, closed: bool)
    | Named(body: string, closed: bool)
    | Escaped(e: char, items: seq<Item>, end: End)
    | LineComment(items: seq<Item>, end: End)
    | BlockComment(body: string, closed: bool)
    | Place(digits: string)

  function PrintItem(item: Item): string {
    match item
    case One(r) => [r]
    case Hidden(r) => ['\\', r]
    case Twice => "''"
  }

  function PrintItems(items: seq<Item>): string {
    if items == [] then [] else PrintItem(items[0]) + PrintItems(items[1..])
  }

  function PrintEnd(end: End, q: char): string {
    match end
    case Closed => [q]
    case Unclosed => ""
    case Dangling => "\\"
  }

  function Print(l: Lexeme): (t: string)
    ensures t != []
  {
    match l
    case Plain(r) => [r]
    case Quoted(body, closed) => "'" + (Quoting.Doubled(body, '\'') + if closed then "'" else "")
    case Named(body, closed) => "\"" + (Quoting.Doubled(body, '"') + if closed then "\"" else "")
    case Escaped(e, items, end) => [e] + ("'" + (PrintItems(items) + PrintEnd(end, '\'')))
    case LineComment(items, end) => "-" + ("-" + (PrintItems(items) + PrintEnd(end, '\n')))
    case BlockComment(body, closed) => "/" + ("*" + body)
    case Place(digits) => "$" + digits
  }

  predicate IsClosed(l: Lexeme) {
    match l
    case Plain(_) => true
    case Quoted(_, closed) => closed
    case Named(_, closed) => closed
    case Escaped(_, _, end) => end.Closed?
    case LineComment(_, end) => end.Closed?
    case BlockComment(_, closed) => closed
    case Place(_) => true
  }

  predicate Dangles(l: Lexeme) {
    (l.Escaped? || l.LineComment?) && l.end.Dangling?
  }

  predicate ItemFits(item: Item, end: char) {
    match item
    case One(r) => r != '\\' && r != end && r != RUNE_ERROR
    case Hidden(_) => true
    case Twice => end == '\''
  }

  predicate ItemsFit(items: seq<Item>, end: char) {
    forall k :: 0 <= k < |items| ==> ItemFits(items[k], end)
  }

  /** A comment's text closes the comment with its last mark and not before, or does not close it. */
  ghost predicate CommentFits(body: string, closed: bool) {
    var ts := Tokens(body);
    if closed then ts != [] && StaysOpen(ts[..|ts| - 1], 0) && Excess(ts) == -1 else StaysOpen(ts, 0)
  }

  ghost predicate Fits(l: Lexeme) {
    match l
    case Plain(r) => r != '\'' && r != '"' && r != RUNE_ERROR
    case Quoted(body, _) => ErrorFree(body)
    case Named(body, _) => ErrorFree(body)
    case Escaped(e, items, _) => (e == 'e' || e == 'E') && ItemsFit(items, '\'')
    case LineComment(items, _) => ItemsFit(items, '\n')
    case BlockComment(body, closed) => ErrorFree(body) && CommentFits(body, closed)
    case Place(digits) => digits != [] && AllDigits(digits)
  }

  /** The rune `r`, written after `l`, begins something new. */
  predicate Splits(l: Lexeme, r: char) {
    match l
    case Plain(p) =>
      && !((p == 'e' || p == 'E') && r == '\'') && !(p == '-' && r == '-')
      && !(p == '/' && r == '*') && !(p == '$' && IsDigit(r))
    case Quoted(_, _) => r != '\''
    case Named(_, _) => r != '"'
    case Escaped(_, _, _) => r != '\''
    case LineComment(_, _) => true
    case BlockComment(_, _) => true
    case Place(_) => !IsDigit(r)
  }

  /** Nothing is written after an unclosed lexeme, and no lexeme goes on with the one before it. */
  ghost predicate WellWritten(ls: seq<Lexeme>) {
    ls == [] ||
    (&& Fits(ls[0]) && WellWritten(ls[1..])
     && (|ls| > 1 ==> IsClosed(ls[0]) && Splits(ls[0], Print(ls[1])[0])))
  }

  function PrintAll(ls: seq<Lexeme>): string {
    if ls == [] then [] else Print(ls[0]) + PrintAll(ls[1..])
  }

  /** `ls` is the text `s` up to an error rune, which ends the reading unless a backslash hides it. */
  ghost predicate Writes(ls: seq<Lexeme>, s: string) {
    WellWritten(ls) && PrintAll(ls) <= s && Breaks(ls, s[|PrintAll(ls)|..])
  }

  predicate Breaks(ls: seq<Lexeme>, more: string) {
    more != [] ==> more[0] == RUNE_ERROR && (ls != [] ==> !Dangles(ls[|ls| - 1]))
  }

  /** The parts that were written, after `text` and before `tail`. */
  ghost function Expected(ls: seq<Lexeme>, text: string, tail: string): seq<Part>
    requires WellWritten(ls)
  {
    if ls == [] then if text + tail == [] then [] else [Sql(text + tail)]
    else if ls[0].Place? then [Sql(text), Arg(Wrap64(Decimal(ls[0].digits)))] + Expected(ls[1..], "", tail)
    else Expected(ls[1..], text + Print(ls[0]), tail)
  }

  /** The parts of the text `s` that `ls` writes. An error rune that ends the reading is kept as text. */
  ghost function Written(ls: seq<Lexeme>, s: string): seq<Part>
    requires Writes(ls, s)
  {
    Expected(ls, "", if |PrintAll(ls)| < |s| then [RUNE_ERROR] else "")
  }

  // ---- reading one lexeme ----

  /** Read from mode `m`, `t` does not stop the lexer, and holds no `$` read as raw SQL. */
  predicate Smooth(m: Mode, t: string)
    decreases t
  {
    t == [] || (!m.Stopped? && (t[0] == '$' ==> !IsRaw(m)) && Smooth(Step(m, t[0]), t[1..]))
  }

  lemma {:induction false} SmoothConcat(m: Mode, a: string, b: string)
    requires Smooth(m, a) && Smooth(Run(m, a), b)
    ensures Smooth(m, a + b)
    decreases a
  {
    if a == [] {
      assert a + b == b;
    } else {
      assert (a + b)[1..] == a[1..] + b;
      SmoothConcat(Step(m, a[0]), a[1..], b);
    }
  }

  /** A text that is read from `inside` without leaving it. */
  predicate Stays(inside: Mode, t: string) {
    Smooth(inside, t) && Run(inside, t) == inside
  }

  lemma {:induction false} StaysConcat(inside: Mode, a: string, b: string)
    requires Stays(inside, a) && Smooth(inside, b)
    ensures Smooth(inside, a + b) && Run(inside, a + b) == Run(inside, b)
  {
    SmoothConcat(inside, a, b);
    RunConcat(inside, a, b);
  }

  lemma {:induction false} OneRune(m: Mode, r: char)
    requires !m.Stopped? && (r == '$' ==> !IsRaw(m))
    ensures Smooth(m, [r]) && Run(m, [r]) == Step(m, r)
  {
    assert [r][1..] == [];
  }

  lemma {:induction false} TwoRunes(m: Mode, r: char, q: char)
    requires !m.Stopped? && (r == '$' ==> !IsRaw(m))
    requires !Step(m, r).Stopped? && (q == '$' ==> !IsRaw(Step(m, r)))
    ensures Smooth(m, [r, q]) && Run(m, [r, q]) == Step(Step(m, r), q)
  {
    assert [r, q][1..] == [q];
    OneRune(Step(m, r), q);
  }

  /** Inside quotes, any text with its quotes doubled stays inside. */
  lemma {:induction false} DoubledStays(body: string, q: char, inside: Mode)
    requires ErrorFree(body) && ((q == '\'' && inside == Single) || (q == '"' && inside == Double))
    ensures Stays(inside, Quoting.Doubled(body, q))
    decreases body
  {
    if body != [] {
      assert body[0] in body;
      DoubledStays(body[1..], q, inside);
      if body[0] == q {
        TwoRunes(inside, q, q);
        StaysConcat(inside, [q, q], Quoting.Doubled(body[1..], q));
      } else {
        OneRune(inside, body[0]);
        StaysConcat(inside, [body[0]], Quoting.Doubled(body[1..], q));
      }
    }
  }

  lemma ItemStays(item: Item, end: char, inside: Mode)
    requires ItemFits(item, end) && ((end == '\'' && inside == Escape) || (end == '\n' && inside == Line))
    ensures Stays(inside, PrintItem(item))
  {
    match item
    case One(r) => OneRune(inside, r);
    case Hidden(r) => TwoRunes(inside, '\\', r);
    case Twice => TwoRunes(inside, '\'', '\'');
  }

  /** Inside an escape string or a line comment, a backslash hides any rune. */
  lemma {:induction false} ItemsStay(items: seq<Item>, end: char, inside: Mode)
    requires ItemsFit(items, end) && ((end == '\'' && inside == Escape) || (end == '\n' && inside == Line))
    ensures Stays(inside, PrintItems(items))
    decreases items
  {
    if items != [] {
      ItemStays(items[0], end, inside);
      ItemsStay(items[1..], end, inside);
      StaysConcat(inside, PrintItem(items[0]), PrintItems(items[1..]));
    }
  }

  /** A text inside, and then its closing rune or nothing. */
  lemma {:induction false} Closes(inside: Mode, text: string, q: char, closed: bool)
    requires Stays(inside, text) && !inside.Stopped? && q != '$'
    ensures var t := text + if closed then [q] else "";
            Smooth(inside, t) && Run(inside, t) == if closed then Step(inside, q) else inside
  {
    OneRune(inside, q);
    StaysConcat(inside, text, if closed then [q] else "");
  }

  /** The same, or a backslash. */
  lemma {:induction false} Ends(inside: Mode, text: string, q: char, end: End)
    requires Stays(inside, text) && !inside.Stopped? && q != '$'
    ensures var t := text + PrintEnd(end, q);
            Smooth(inside, t) && (!end.Dangling? ==> Run(inside, t) == if end.Closed? then Step(inside, q) else inside)
  {
    if end.Dangling? {
      Closes(inside, text, '\\', true);
    } else {
      Closes(inside, text, q, end.Closed?);
    }
  }

  lemma {:induction false} SmoothSame(m: Mode, h: Mode, t: string)
    requires Smooth(h, t) && !m.Stopped? && !IsRaw(m) && (t != [] ==> Step(m, t[0]) == Step(h, t[0]))
    ensures Smooth(m, t)
  {
  }

  /** Inside a comment that is closed at its end, if at all. */
  lemma {:induction false} CommentStays(s: string, d: nat)
    requires ErrorFree(s) && (s != [] ==> StaysOpen(Tokens(s)[..|Tokens(s)| - 1], d))
    ensures Smooth(Block(d), s)
    decreases |s|
  {
    if s != [] {
      var ts := Tokens(s);
      var t, n := ts[0], |ts| - 1;
      var w := if t.Other? then 1 else 2;
      var rest := Tokens(s[w..]);
      assert ts == [t] + rest && s[0] in s;
      assert w == 2 ==> s[1..][1..] == s[2..];
      if s[w..] != [] {
        var d' := d + Excess([t]);
        assert ts[..n] == [t] + rest[..n - 1];
        StaysOpenTail(t, rest[..n - 1], d, d');
        CommentStays(s[w..], d');
        if w == 1 {
          SmoothSame(Step(Block(d), s[0]), Block(d), s[1..]);
        }
      }
    }
  }

  lemma PrefixStaysOpen(ts: seq<Token>, d: nat)
    requires StaysOpen(ts, d) && ts != []
    ensures StaysOpen(ts[..|ts| - 1], d)
  {
    var init := ts[..|ts| - 1];
    forall k | 0 <= k <= |init|
      ensures Excess(init[..k]) + d >= 0
    {
      assert init[..k] == ts[..k];
    }
  }

  lemma {:induction false} CommentReads(body: string, closed: bool)
    requires ErrorFree(body) && CommentFits(body, closed)
    ensures Smooth(Block(0), body)
    ensures if closed then Run(Block(0), body) == Raw else InBlock(Run(Block(0), body), Excess(Tokens(body)))
  {
    if closed {
      CommentEnds(body, 0);
    } else {
      CommentDepth(body, 0);
      if body != [] {
        PrefixStaysOpen(Tokens(body), 0);
      }
    }
    CommentStays(body, 0);
  }

  lemma {:induction false} DigitsRead(ds: string)
    requires AllDigits(ds)
    ensures Stays(Digits, ds) && Smooth(RawDollar, ds) && (ds != [] ==> Run(RawDollar, ds) == Digits)
    decreases ds
  {
    if ds != [] {
      DigitsRead(ds[1..]);
    }
  }

  /** The mode after a closed lexeme. */
  function After(l: Lexeme): Mode {
    match l
    case Plain(r) => RawStep(r)
    case Quoted(_, _) => SingleQuote
    case Named(_, _) => DoubleQuote
    case Escaped(_, _, _) => EscapeQuote
    case LineComment(_, _) => Raw
    case BlockComment(_, _) => Raw
    case Place(_) => Digits
  }

  /** A rune that splits is one that does not join. */
  lemma SplitsExactly(l: Lexeme, r: char)
    requires Fits(l)
    ensures IsRaw(After(l)) && (Splits(l, r) <==> !Joins(After(l), r))
  {
  }

  /** Where an error rune stops the lexer. */
  predicate Fragile(m: Mode) {
    !m.Stopped? && Step(m, RUNE_ERROR).Stopped?
  }

  lemma {:induction false} SecondRune(m: Mode, r: char, rest: string)
    requires !m.Stopped? && r != '$' && Smooth(Step(m, r), rest)
    ensures Smooth(m, [r] + rest) && Run(m, [r] + rest) == Run(Step(m, r), rest)
  {
    assert ([r] + rest)[1..] == rest;
  }

  /** What follows the first rune of a lexeme, from the mode after it. */
  predicate RestReads(l: Lexeme, first: char, rest: string) {
    && Smooth(RawStep(first), rest)
    && (IsClosed(l) ==> Run(RawStep(first), rest) == After(l))
    && (!Dangles(l) ==> Fragile(Run(RawStep(first), rest)))
  }

  lemma {:induction false} QuotedReads(body: string, closed: bool)
    requires ErrorFree(body)
    ensures RestReads(Quoted(body, closed), '\'', Quoting.Doubled(body, '\'') + if closed then "'" else "")
  {
    DoubledStays(body, '\'', Single);
    Closes(Single, Quoting.Doubled(body, '\''), '\'', closed);
  }

  lemma {:induction false} NamedReads(body: string, closed: bool)
    requires ErrorFree(body)
    ensures RestReads(Named(body, closed), '"', Quoting.Doubled(body, '"') + if closed then "\"" else "")
  {
    DoubledStays(body, '"', Double);
    Closes(Double, Quoting.Doubled(body, '"'), '"', closed);
  }

  lemma {:induction false} EscapedReads(e: char, items: seq<Item>, end: End)
    requires Fits(Escaped(e, items, end))
    ensures RestReads(Escaped(e, items, end), e, "'" + (PrintItems(items) + PrintEnd(end, '\'')))
  {
    ItemsStay(items, '\'', Escape);
    Ends(Escape, PrintItems(items), '\'', end);
    SecondRune(RawE, '\'', PrintItems(items) + PrintEnd(end, '\''));
  }

  lemma {:induction false} LineCommentReads(items: seq<Item>, end: End)
    requires ItemsFit(items, '\n')
    ensures RestReads(LineComment(items, end), '-', "-" + (PrintItems(items) + PrintEnd(end, '\n')))
  {
    ItemsStay(items, '\n', Line);
    Ends(Line, PrintItems(items), '\n', end);
    SecondRune(RawDash, '-', PrintItems(items) + PrintEnd(end, '\n'));
  }

  lemma BlockCommentReads(body: string, closed: bool)
    requires Fits(BlockComment(body, closed))
    ensures RestReads(BlockComment(body, closed), '/', "*" + body)
  {
    CommentReads(body, closed);
    SecondRune(RawSlash, '*', body);
  }

  lemma PlaceReads(digits: string)
    requires Fits(Place(digits))
    ensures RestReads(Place(digits), '$', digits)
  {
    DigitsRead(digits);
  }

  lemma LexemeRest(l: Lexeme)
    requires Fits(l)
    ensures RestReads(l, Print(l)[0], Print(l)[1..])
  {
    match l
    case Plain(r) => assert Print(l)[1..] == "";
    case Quoted(body, closed) =>
      QuotedReads(body, closed);
      assert Print(l)[1..] == Quoting.Doubled(body, '\'') + if closed then "'" else "";
    case Named(body, closed) =>
      NamedReads(body, closed);
      assert Print(l)[1..] == Quoting.Doubled(body, '"') + if closed then "\"" else "";
    case Escaped(e, items, end) =>
      EscapedReads(e, items, end);
      assert Print(l)[1..] == "'" + (PrintItems(items) + PrintEnd(end, '\''));
    case LineComment(items, end) =>
      LineCommentReads(items, end);
      assert Print(l)[1..] == "-" + (PrintItems(items) + PrintEnd(end, '\n'));
    case BlockComment(body, closed) =>
      BlockCommentReads(body, closed);
      assert Print(l)[1..] == "*" + body;
    case Place(digits) =>
      PlaceReads(digits);
      assert Print(l)[1..] == digits;
  }

  /** Written where it joins nothing, a lexeme is read as raw SQL, then inside, and then as raw SQL again. */
  lemma {:induction false} LexemeReads(m: Mode, l: Lexeme)
    requires Fits(l) && IsRaw(m) && !Joins(m, Print(l)[0])
    ensures Smooth(Step(m, Print(l)[0]), Print(l)[1..])
    ensures (IsClosed(l) ==> Run(m, Print(l)) == After(l)) && (!Dangles(l) ==> Fragile(Run(m, Print(l))))
  {
    JoinsExactly(m, Print(l)[0]);
    LexemeRest(l);
  }

  // ---- reading them all ----

  /** The parts of what is left to read, `s`, in mode `m`, when `text` was read since the last placeholder. */
  function Cut(m: Mode, s: string, text: string): seq<Part>
    decreases s
  {
    if s == [] || m.Stopped? then if text == [] then [] else [Sql(text)]
    else if IsRaw(m) && s[0] == '$' && |s| > 1 && IsDigit(s[1]) then
      var e := DigitsEnd(s, 1);
      DigitsEndIsMaximal(s, 1);
      [Sql(text), Arg(Number(s[1..e]))] + Cut(Digits, s[e..], "")
    else Cut(Step(m, s[0]), s[1..], text + [s[0]])
  }

  lemma DigitsEndFrom(s: string, i: nat, k: nat)
    requires i <= k <= |s|
    ensures DigitsEnd(s[i..], k - i) == DigitsEnd(s, k) - i
    decreases |s| - k
  {
    if k < |s| {
      DigitsEndFrom(s, i, k + 1);
    }
  }

  lemma {:induction false} CutOne(m: Mode, s: string, i: nat, start: nat)
    requires start <= i < |s| && !m.Stopped? && !(IsRaw(m) && s[i] == '$' && i + 1 < |s| && IsDigit(s[i + 1]))
    ensures Cut(m, s[i..], s[start..i]) == Cut(Step(m, s[i]), s[i + 1..], s[start..i + 1])
  {
    assert s[i..][1..] == s[i + 1..] && s[start..i + 1] == s[start..i] + [s[i]];
  }

  lemma SliceOfRest(s: string, i: nat, e: nat)
    requires i < e <= |s|
    ensures s[i..][1..e - i] == s[i + 1..e] && s[i..][e - i..] == s[e..]
  {
  }

  lemma CutHolder(m: Mode, s: string, i: nat, e: nat, text: string)
    requires i + 1 < |s| && IsRaw(m) && s[i] == '$' && IsDigit(s[i + 1])
    requires e == DigitsEnd(s, i + 1) && AllDigits(s[i + 1..e])
    ensures Cut(m, s[i..], text) == [Sql(text), Arg(Number(s[i + 1..e]))] + Cut(Digits, s[e..], "")
  {
    DigitsEndFrom(s, i, i + 1);
    SliceOfRest(s, i, e);
  }

  /** Reading on from `i` gives the parts from there. */
  predicate CutAt(s: string, start: nat, i: nat)
    requires start <= i <= |s|
  {
    PartsFrom(s, start, i) == Cut(ModeAt(s, i), s[i..], s[start..i])
  }

  lemma {:induction false} CutAtEnd(s: string, start: nat, i: nat)
    requires start <= i <= |s| && (i == |s| || ModeAt(s, i).Stopped?)
    ensures CutAt(s, start, i)
  {
    PartsAtEnd(s, start, i);
  }

  lemma CutAtText(s: string, start: nat, i: nat)
    requires start <= i < |s| && !ModeAt(s, i).Stopped? && !HolderAt(s, i) && CutAt(s, start, i + 1)
    ensures CutAt(s, start, i)
  {
    PartsSkip(s, start, i);
    CutOne(ModeAt(s, i), s, i, start);
  }

  lemma {:induction false} CutAtHolder(s: string, start: nat, i: nat, e: nat)
    requires start <= i && HolderAt(s, i) && e == DigitsEnd(s, i + 2) && CutAt(s, e, e)
    ensures CutAt(s, start, i)
  {
    DigitsAreRead(s, i, e);
    PartsAtHolder(s, start, i);
    CutHolder(ModeAt(s, i), s, i, e, s[start..i]);
    assert s[e..e] == "";
  }

  lemma CutIsParts(s: string, start: nat, i: nat)
    requires start <= i <= |s|
    ensures CutAt(s, start, i)
    decreases |s| - i
  {
    if i == |s| || ModeAt(s, i).Stopped? {
      CutAtEnd(s, start, i);
    } else if HolderAt(s, i) {
      var e := DigitsEnd(s, i + 2);
      CutIsParts(s, e, e);
      CutAtHolder(s, start, i, e);
    } else {
      CutIsParts(s, start, i + 1);
      CutAtText(s, start, i);
    }
  }

  lemma {:induction false} CutPast(m: Mode, t: string, more: string, text: string)
    requires Smooth(m, t)
    ensures Cut(m, t + more, text) == Cut(Run(m, t), more, text + t)
    decreases t
  {
    if t == [] {
      assert t + more == more && text + t == text;
    } else {
      assert (t + more)[1..] == t[1..] + more && text + [t[0]] + t[1..] == text + t;
      CutPast(Step(m, t[0]), t[1..], more, text + [t[0]]);
    }
  }

  lemma {:induction false} CutPlace(m: Mode, digits: string, more: string, text: string)
    requires IsRaw(m) && digits != [] && AllDigits(digits) && (more != [] ==> !IsDigit(more[0]))
    ensures Cut(m, "$" + digits + more, text)
         == [Sql(text), Arg(Wrap64(Decimal(digits)))] + Cut(Digits, more, "")
  {
    var s, e := "$" + digits + more, 1 + |digits|;
    assert s[1..e] == digits && s[e..] == more;
    DigitsEndIs(s, 1, e);
    NumberIsDecimal(digits);
  }

  /** A placeholder or a lone dollar sign has no digit after it. */
  predicate DigitsStop(l: Lexeme, more: string) {
    (l == Plain('$') || l.Place?) && more != [] ==> !IsDigit(more[0])
  }

  lemma {:induction false} CutText(m: Mode, l: Lexeme, more: string, text: string)
    requires Fits(l) && !l.Place? && DigitsStop(l, more) && IsRaw(m) && !Joins(m, Print(l)[0])
    ensures Cut(m, Print(l) + more, text) == Cut(Run(m, Print(l)), more, text + Print(l))
  {
    if l == Plain('$') {
      assert ("$" + more)[1..] == more;
    } else {
      LexemeReads(m, l);
      CutPast(m, Print(l), more, text);
    }
  }

  /** What is written next, or the error rune that ends the reading, is read as such in mode `m`. */
  ghost predicate Enters(m: Mode, ls: seq<Lexeme>, more: string) {
    if ls == [] then more != [] ==> Fragile(m) else IsRaw(m) && !Joins(m, Print(ls[0])[0])
  }

  lemma {:induction false} EntersNext(m: Mode, ls: seq<Lexeme>, more: string)
    requires ls != [] && WellWritten(ls) && Enters(m, ls, more) && Breaks(ls, more)
    ensures Enters(Run(m, Print(ls[0])), ls[1..], more) && Breaks(ls[1..], more)
    ensures DigitsStop(ls[0], PrintAll(ls[1..]) + more)
    ensures ls[0].Place? ==> Run(m, Print(ls[0])) == Digits
  {
    LexemeReads(m, ls[0]);
    if |ls| > 1 {
      SplitsExactly(ls[0], Print(ls[1])[0]);
    }
  }

  lemma {:induction false} CutEnd(m: Mode, more: string, text: string)
    requires more != [] ==> more[0] == RUNE_ERROR && Fragile(m)
    ensures Cut(m, more, text) == var all := text + if more == [] then "" else [RUNE_ERROR];
                                  if all == [] then [] else [Sql(all)]
  {
    assert text + "" == text;
  }

  lemma {:induction false} CutLexeme(m: Mode, l: Lexeme, more: string, text: string)
    requires Fits(l) && IsRaw(m) && !Joins(m, Print(l)[0]) && DigitsStop(l, more)
    ensures Cut(m, Print(l) + more, text)
         == if l.Place? then [Sql(text), Arg(Wrap64(Decimal(l.digits)))] + Cut(Digits, more, "")
            else Cut(Run(m, Print(l)), more, text + Print(l))
  {
    if l.Place? {
      CutPlace(m, l.digits, more, text);
    } else {
      CutText(m, l, more, text);
    }
  }

  lemma Regroup(a: string, b: string, c: string)
    ensures a + b + c == a + (b + c)
  {
  }

  lemma {:induction false} CutAll(m: Mode, ls: seq<Lexeme>, more: string, text: string)
    requires WellWritten(ls) && Enters(m, ls, more) && Breaks(ls, more)
    ensures Cut(m, PrintAll(ls) + more, text) == Expected(ls, text, if more == [] then "" else [RUNE_ERROR])
    decreases ls
  {
    if ls == [] {
      assert PrintAll(ls) + more == more;
      CutEnd(m, more, text);
    } else {
      EntersNext(m, ls, more);
      Regroup(Print(ls[0]), PrintAll(ls[1..]), more);
      CutLexeme(m, ls[0], PrintAll(ls[1..]) + more, text);
      CutAll(Run(m, Print(ls[0])), ls[1..], more, if ls[0].Place? then "" else text + Print(ls[0]));
    }
  }

  /** The lexer finds the placeholders that were written, and everything between them as it was written. */
  lemma LexesAsWritten(ls: seq<Lexeme>, s: string)
    requires Writes(ls, s)
    ensures Parts(s) == Written(ls, s)
  {
    PartsAreCut(s);
    CutAll(Raw, ls, s[|PrintAll(ls)|..], "");
    assert s == PrintAll(ls) + s[|PrintAll(ls)|..];
  }

  lemma {:induction false} PartsAreCut(s: string)
    ensures Parts(s) == Cut(Raw, s, "")
  {
    CutIsParts(s, 0, 0);
    assert s[0..] == s && s[0..0] == "";
  }

  // ---- there is no other text ----

  /** The rune `r` by itself. */
  function Begin(r: char): Lexeme {
    if r == '\'' then Quoted("", false) else if r == '"' then Named("", false) else Plain(r)
  }

  function GoOnItems(items: seq<Item>, end: End, q: char, r: char): (seq<Item>, End) {
    match end
    case Closed => (items + [Twice], Unclosed)
    case Dangling => (items + [Hidden(r)], Unclosed)
    case Unclosed =>
      if r == '\\' then (items, Dangling) else if r == q then (items, Closed) else (items + [One(r)], Unclosed)
  }

  /** The lexeme `l` and the rune `r`, which goes on with it. */
  function GoOn(l: Lexeme, r: char): Lexeme {
    match l
    case Plain(p) =>
      if p == '-' then LineComment([], Unclosed) else if p == '/' then BlockComment("", false)
      else if p == '$' then Place([r]) else Escaped(p, [], Unclosed)
    case Quoted(body, closed) =>
      if closed then Quoted(body + [r], false) else if r == '\'' then Quoted(body, true) else Quoted(body + [r], false)
    case Named(body, closed) =>
      if closed then Named(body + [r], false) else if r == '"' then Named(body, true) else Named(body + [r], false)
    case Escaped(e, items, end) => var (more, end') := GoOnItems(items, end, '\'', r); Escaped(e, more, end')
    case LineComment(items, end) => var (more, end') := GoOnItems(items, end, '\n', r); LineComment(more, end')
    case BlockComment(body, _) => BlockComment(body + [r], Excess(Tokens(body + [r])) == -1)
    case Place(digits) => Place(digits + [r])
  }

  lemma {:induction false} DoubledOneMore(body: string, q: char, r: char)
    ensures Quoting.Doubled(body + [r], q) == Quoting.Doubled(body, q) + if r == q then [q, q] else [r]
    decreases body
  {
    if body != [] {
      assert (body + [r])[1..] == body[1..] + [r];
      DoubledOneMore(body[1..], q, r);
    }
  }

  lemma {:induction false} ItemsOneMore(items: seq<Item>, item: Item)
    ensures PrintItems(items + [item]) == PrintItems(items) + PrintItem(item)
    decreases items
  {
    if items == [] {
      assert [item][1..] == [];
    } else {
      assert (items + [item])[1..] == items[1..] + [item];
      ItemsOneMore(items[1..], item);
    }
  }

  lemma {:induction false} ExcessOneMore(ts: seq<Token>, t: Token)
    ensures Excess(ts + [t]) == Excess(ts) + Excess([t])
    decreases ts
  {
    if ts == [] {
      assert [] + [t] == [t];
    } else {
      assert (ts + [t])[1..] == ts[1..] + [t];
      ExcessOneMore(ts[1..], t);
    }
  }

  /** The last mark and the rune after it. */
  function Merge(t: Token, r: char): seq<Token> {
    if t == Other('/') && r == '*' then [Open] else if t == Other('*') && r == '/' then [Close] else [t, Other(r)]
  }

  /** The width of the first mark in a comment's text. */
  function Width(s: string): nat {
    if |s| >= 2 && ((s[0] == '/' && s[1] == '*') || (s[0] == '*' && s[1] == '/')) then 2 else 1
  }

  lemma {:induction false} TokensFirst(s: string)
    requires s != []
    ensures Width(s) <= |s| && Tokens(s) != [] && Tokens(s) == [Tokens(s)[0]] + Tokens(s[Width(s)..])
  {
  }

  lemma {:induction false} TokensOfMark(s: string, r: char)
    requires s != [] && |s| == Width(s)
    ensures |Tokens(s)| == 1 && Tokens(s + [r]) == Merge(Tokens(s)[0], r)
  {
    assert s[|s|..] == [] && (s + [r])[|s|..] == [r] && [r][1..] == [] && (s + [r])[1..][1..] == (s + [r])[2..];
  }

  lemma {:induction false} TokensAfterMark(s: string, r: char)
    requires Width(s) < |s|
    ensures var rest := s[Width(s)..];
            var t := Tokens(s)[0]; Tokens(s) == [t] + Tokens(rest) && Tokens(s + [r]) == [t] + Tokens(rest + [r])
  {
    TokensFirst(s);
    TokensFirst(s + [r]);
    assert (s + [r])[Width(s)..] == s[Width(s)..] + [r];
  }

  lemma {:induction false} TokensOneMore(s: string, r: char)
    requires s != []
    ensures var ts := Tokens(s); ts != [] && Tokens(s + [r]) == ts[..|ts| - 1] + Merge(ts[|ts| - 1], r)
    decreases |s|
  {
    if |s| <= Width(s) {
      TokensOfMark(s, r);
      assert Tokens(s)[..0] == [];
    } else {
      TokensAfterMark(s, r);
      TokensOneMore(s[Width(s)..], r);
    }
  }

  /** The marks stay open, or the last one closes the comment. */
  ghost predicate MarksFit(ts: seq<Token>) {
    if Excess(ts) == -1 then ts != [] && StaysOpen(ts[..|ts| - 1], 0) else StaysOpen(ts, 0)
  }

  lemma OpenOneMore(ts: seq<Token>, t: Token)
    requires StaysOpen(ts, 0)
    ensures MarksFit(ts + [t])
  {
    var all := ts + [t];
    ExcessOneMore(ts, t);
    assert all[..|all| - 1] == ts == ts[..|ts|];
    forall k | 0 <= k <= |all| && Excess(all) != -1
      ensures Excess(all[..k]) >= 0
    {
      if k <= |ts| {
        assert all[..k] == ts[..k];
      } else {
        assert all[..k] == all;
      }
    }
  }

  lemma MergeFits(ts: seq<Token>, r: char)
    requires StaysOpen(ts, 0) && ts != []
    ensures MarksFit(ts[..|ts| - 1] + Merge(ts[|ts| - 1], r))
  {
    var n := |ts| - 1;
    if |Merge(ts[n], r)| == 2 {
      assert ts[..n] + [ts[n], Other(r)] == ts + [Other(r)];
      OpenOneMore(ts, Other(r));
    } else {
      PrefixStaysOpen(ts, 0);
      OpenOneMore(ts[..n], Merge(ts[n], r)[0]);
      assert Merge(ts[n], r) == [Merge(ts[n], r)[0]];
    }
  }

  /** A comment's text stays open, or is closed by its last rune. */
  lemma {:induction false} CommentGoesOn(body: string, r: char)
    requires StaysOpen(Tokens(body), 0)
    ensures MarksFit(Tokens(body + [r]))
  {
    if body == [] {
      assert body + [r] == [r] && [r][1..] == [];
      assert Tokens([r]) == Tokens(body) + [Other(r)];
      OpenOneMore(Tokens(body), Other(r));
    } else {
      TokensOneMore(body, r);
      MergeFits(Tokens(body), r);
    }
  }

  lemma {:induction false} ItemsGoOn(items: seq<Item>, end: End, q: char, r: char)
    requires ItemsFit(items, q) && (q == '\'' || (q == '\n' && !end.Closed?)) && (end.Closed? ==> r == q)
    requires r == RUNE_ERROR ==> end.Dangling?
    ensures var (more, end') := GoOnItems(items, end, q, r);
            ItemsFit(more, q) && PrintItems(more) + PrintEnd(end', q) == PrintItems(items) + PrintEnd(end, q) + [r]
  {
    var (more, end') := GoOnItems(items, end, q, r);
    if more != items {
      ItemsOneMore(items, more[|items|]);
    }
  }

  /** The rune `r` goes on with `l`. */
  predicate Continues(l: Lexeme, r: char) {
    (IsClosed(l) ==> !Splits(l, r)) && (r == RUNE_ERROR ==> Dangles(l))
  }

  /** It makes a lexeme of one more rune. */
  ghost predicate GoesOn(l: Lexeme, r: char) {
    Fits(GoOn(l, r)) && Print(GoOn(l, r)) == Print(l) + [r]
  }

  lemma EscapedGoesOn(l: Lexeme, r: char)
    requires Fits(l) && Continues(l, r) && l.Escaped?
    ensures GoesOn(l, r)
  {
    ItemsGoOn(l.items, l.end, '\'', r);
  }

  lemma LineGoesOn(l: Lexeme, r: char)
    requires Fits(l) && Continues(l, r) && l.LineComment?
    ensures GoesOn(l, r)
  {
    ItemsGoOn(l.items, l.end, '\n', r);
  }

  lemma BlockGoesOn(l: Lexeme, r: char)
    requires Fits(l) && Continues(l, r) && l.BlockComment?
    ensures GoesOn(l, r)
  {
    CommentGoesOn(l.body, r);
  }

  lemma QuotesOneMore(text: string, q: char, r: char)
    ensures [q] + (text + [q]) + [r] == [q] + (text + [q, r] + "")
    ensures [q] + (text + "") + [r] == [q] + (text + [r]) == [q] + (text + [r] + "")
  {
  }

  lemma QuotedGoesOn(l: Lexeme, r: char)
    requires Fits(l) && Continues(l, r) && l.Quoted?
    ensures GoesOn(l, r)
  {
    DoubledOneMore(l.body, '\'', r);
    QuotesOneMore(Quoting.Doubled(l.body, '\''), '\'', r);
  }

  lemma NamedGoesOn(l: Lexeme, r: char)
    requires Fits(l) && Continues(l, r) && l.Named?
    ensures GoesOn(l, r)
  {
    DoubledOneMore(l.body, '"', r);
    QuotesOneMore(Quoting.Doubled(l.body, '"'), '"', r);
  }

  lemma AnyGoesOn(l: Lexeme, r: char)
    requires Fits(l) && Continues(l, r)
    ensures GoesOn(l, r)
  {
    match l
    case Plain(p) => assert PrintItems([]) == "";
    case Quoted(_, _) => QuotedGoesOn(l, r);
    case Named(_, _) => NamedGoesOn(l, r);
    case Escaped(_, _, _) => EscapedGoesOn(l, r);
    case LineComment(_, _) => LineGoesOn(l, r);
    case BlockComment(_, _) => BlockGoesOn(l, r);
    case Place(digits) =>
  }

  /** One more rune. */
  function Grow(ls: seq<Lexeme>, r: char): seq<Lexeme> {
    if ls == [] then [Begin(r)]
    else if |ls| > 1 then [ls[0]] + Grow(ls[1..], r)
    else if Continues(ls[0], r) then [GoOn(ls[0], r)]
    else [ls[0], Begin(r)]
  }

  lemma Begins(l: Lexeme, r: char)
    requires WellWritten([l]) && IsClosed(l) && Splits(l, r) && r != RUNE_ERROR
    ensures WellWritten([l, Begin(r)]) && PrintAll([l, Begin(r)]) == Print(l) + [r]
  {
    BeginsText(r);
    assert [l, Begin(r)][1..] == [Begin(r)];
  }

  lemma BeginsText(r: char)
    requires r != RUNE_ERROR
    ensures Print(Begin(r)) == [r] && Fits(Begin(r)) && WellWritten([Begin(r)]) && PrintAll([Begin(r)]) == [r]
  {
    assert [Begin(r)][1..] == [];
  }

  lemma {:induction false} Grows(ls: seq<Lexeme>, r: char)
    requires WellWritten(ls) && (r == RUNE_ERROR ==> ls != [] && Dangles(ls[|ls| - 1]))
    ensures var more := Grow(ls, r);
            && WellWritten(more) && PrintAll(more) == PrintAll(ls) + [r]
            && (ls != [] ==> Print(more[0])[0] == Print(ls[0])[0] && (|ls| > 1 ==> more[0] == ls[0]))
    decreases ls
  {
    if ls == [] {
      BeginsText(r);
    } else if |ls| > 1 {
      Grows(ls[1..], r);
    } else if Continues(ls[0], r) {
      AnyGoesOn(ls[0], r);
      assert [GoOn(ls[0], r)][1..] == [];
    } else {
      assert ls == [ls[0]];
      Begins(ls[0], r);
    }
  }

  lemma WriteOneMore(ls: seq<Lexeme>, s: string, r: char) returns (more: seq<Lexeme>)
    requires Writes(ls, s)
    ensures Writes(more, s + [r])
  {
    var n := |PrintAll(ls)|;
    if n == |s| && (r == RUNE_ERROR ==> ls != [] && Dangles(ls[|ls| - 1])) {
      Grows(ls, r);
      more := Grow(ls, r);
      assert (s + [r])[n + 1..] == [];
    } else {
      more := ls;
      assert (s + [r])[n..] == s[n..] + [r];
    }
  }

  /** Every text is written in lexemes up to its end, or to an error rune that no backslash hides. */
  lemma EveryTextIsWritten(s: string) returns (ls: seq<Lexeme>)
    ensures Writes(ls, s)
    decreases s
  {
    if s == [] {
      ls := [];
    } else {
      var init, r := s[..|s| - 1], s[|s| - 1];
      assert init + [r] == s;
      ls := EveryTextIsWritten(init);
      ls := WriteOneMore(ls, init, r);
    }
  }
}
