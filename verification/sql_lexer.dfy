/**
 The lexer of sanitize.go: seven state functions over a mutable lexer, each a loop that looks one rune
 ahead. Whatever the source, it produces exactly the parts that the reference automaton cuts, and so the
 placeholders and the texts that were written.
 */
module SqlLexer {
  import opened SqlModes
  import SqlLexemes

  datatype StateFn =
    | RawState | SingleQuoteState | DoubleQuoteState | PlaceholderState
    | EscapeStringState | OneLineCommentState | MultilineCommentState | Nil

  class Lexer {
    const src: string
    var start: nat
    var pos: nat
    var nested: nat
    var parts: seq<Part>
    ghost var mode: Mode  // the mode in which the automaton reads the rune at `pos`
    ghost var spans: seq<Span>  // where in the source the parts come from

    constructor (sql: string)
      ensures src == sql && parts == [] && Ready(RawState)
    {
      src := sql;
      start, pos, nested, parts := 0, 0, 0, [];
      mode, spans := Raw, [];
    }

    ghost predicate Emitted()
      reads `parts, `spans
    {
      SpansIn(src, spans) && parts == PartsOf(src, spans)
    }

    /** Up to `pos`, the pieces emitted and the pieces still owed make up the reference pieces. */
    ghost predicate Owes()
      reads `start, `pos, `mode, `spans
    {
      && start <= pos <= |src|
      && mode == ModeAt(src, pos)
      && spans + Split(src, start, pos) == Split(src, 0, 0)
    }

    /** The next rune, if any, is read in mode `m`. */
    ghost predicate In(m: Mode)
      reads `pos, `mode
    {
      pos < |src| ==> mode == m
    }

    /** The next rune, if any, is read as raw SQL: it does not complete a mark or a doubled quote. */
    ghost predicate InRaw()
      reads `pos, `mode
    {
      pos < |src| ==> IsRaw(mode) && Step(mode, src[pos]) == RawStep(src[pos])
    }

    /** The next rune, if any, is read as comment text: it does not complete a mark. */
    ghost predicate InComment()
      reads `pos, `mode, `nested
    {
      pos < |src| ==>
        || mode == Block(nested)
        || (mode == BlockSlash(nested) && src[pos] != '*')
        || (mode == BlockStar(nested) && src[pos] != '/')
    }

    /** The next rune is the first digit of a placeholder, which is owed next. */
    ghost predicate InPlaceholder()
      reads `start, `pos, `mode, `spans
    {
      && 0 < pos == start < |src| && mode == ModeAt(src, pos) == RawDollar && IsDigit(src[pos])
      && var e := DigitsEnd(src, pos);
         spans + [Holder(pos - 1, e)] + Split(src, e, e) == Split(src, 0, 0)
    }

    /** The placeholder whose digits end at `pos` is owed next. */
    ghost predicate OwesHolder()
      reads `start, `pos, `spans
    {
      0 < start < pos <= |src| && spans + [Holder(start - 1, pos)] + Split(src, pos, pos) == Split(src, 0, 0)
    }

    /** What holds when the lexer is about to run the state function `f`. */
    ghost predicate Ready(f: StateFn)
      reads this
    {
      Emitted() &&
      match f
      case Nil => spans == Split(src, 0, 0)
      case PlaceholderState => nested == 0 && InPlaceholder()
      case MultilineCommentState => Owes() && InComment()
      case RawState => Owes() && nested == 0 && InRaw()
      case SingleQuoteState => Owes() && nested == 0 && In(Single)
      case DoubleQuoteState => Owes() && nested == 0 && In(Double)
      case EscapeStringState => Owes() && nested == 0 && In(Escape)
      case OneLineCommentState => Owes() && nested == 0 && In(Line)
    }

    /** The rune at `p`, as the decoder reports it: an error rune of width zero at the end of the text. */
    function RuneAt(p: nat): char {
      if p < |src| then src[p] else RUNE_ERROR
    }

    function WidthAt(p: nat): nat {
      if p < |src| then 1 else 0
    }

    /** Ends the run, keeping the text read since the last part. */
    method Finish()
      requires Emitted() && Owes()
      requires pos == |src| || mode.Stopped?
      modifies this
      ensures Ready(Nil)
    {
      if pos - start > 0 {
        OneMorePart(src, spans, Text(start, pos));
        parts, spans := parts + [Sql(src[start..pos])], spans + [Text(start, pos)];
        start := pos;
      }
    }

    /** Consumes the rune at `pos`, which starts no placeholder. */
    method Advance()
      requires Owes()
      requires pos < |src| ==> !mode.Stopped? && !(IsRaw(mode) && src[pos] == '$' && IsDigit(RuneAt(pos + 1)))
      modifies this`pos, this`mode
      ensures Owes()
      ensures pos == old(pos) + WidthAt(old(pos))
      ensures mode == if old(pos) < |src| then Step(old(mode), src[old(pos)]) else old(mode)
    {
      if pos < |src| {
        NextMode(src, pos);
        mode := Step(mode, src[pos]);
      }
      pos := pos + WidthAt(pos);
    }

    /** Emits the text before the `$` at `pos`, which starts a placeholder, and consumes the `$`. */
    method StartPlaceholder()
      requires Emitted() && Owes() && nested == 0 && HolderAt(src, pos)
      modifies this
      ensures Emitted() && nested == 0 && InPlaceholder() && pos == old(pos) + 1
    {
      OwedAtHolder(src, spans, start, pos);
      OneMorePart(src, spans, Text(start, pos));
      parts, spans := parts + [Sql(src[start..pos])], spans + [Text(start, pos)];
      mode, pos := RawDollar, pos + 1;
      start := pos;
    }

    /** Emits the number whose digits end at `pos`. */
    method EndPlaceholder(num: Int64)
      requires Emitted() && OwesHolder() && nested == 0 && mode == ModeAt(src, pos) == Digits
      requires (pos < |src| ==> !IsDigit(src[pos])) && Spelled(src[start..pos], num)
      modifies this`parts, this`spans, this`start
      ensures Emitted() && Owes() && nested == 0 && InRaw()
    {
      OneMorePart(src, spans, Holder(start - 1, pos));
      parts, spans := parts + [Arg(num)], spans + [Holder(start - 1, pos)];
      start := pos;
    }

    /** The second rune of an escape string's opening or of a comment mark: consumed if it is there. */
    method SecondRune(r: char) returns (found: bool)
      requires Owes()
      requires (mode == RawE && r == '\'') || (mode == RawDash && r == '-') || (mode == RawSlash && r == '*')
      modifies this`pos, this`mode
      ensures Owes() && pos >= old(pos)
      ensures if found then mode == (if r == '\'' then Escape else if r == '-' then Line else Block(0)) else InRaw()
    {
      found := RuneAt(pos) == r;
      if found {
        Advance();
      }
    }

    method LexRaw() returns (next: StateFn)
      requires Ready(RawState)
      modifies this
      ensures Ready(next) && (next != Nil ==> pos > old(pos))
    {
      while true
        invariant Emitted() && Owes() && nested == 0 && InRaw() && pos >= old(pos)
        decreases |src| - pos
      {
        var r := RuneAt(pos);
        if r == '$' && IsDigit(RuneAt(pos + 1)) {
          StartPlaceholder();
          return PlaceholderState;
        }
        Advance();
        match r
        case 'e' | 'E' =>
          var found := SecondRune('\'');
          if found {
            return EscapeStringState;
          }
        case '\'' => return SingleQuoteState;
        case '"' => return DoubleQuoteState;
        case '-' =>
          var found := SecondRune('-');
          if found {
            return OneLineCommentState;
          }
        case '/' =>
          var found := SecondRune('*');
          if found {
            return MultilineCommentState;
          }
        case _ =>
          if r == RUNE_ERROR {
            Finish();
            return Nil;
          }
      }
    }

    /** After a quote: consumes a second one, if it follows, and stays inside. */
    method DoubledQuote(q: char, inside: Mode) returns (doubled: bool)
      requires Owes()
      requires || (q == '\'' && inside == Single && mode == SingleQuote)
               || (q == '"' && inside == Double && mode == DoubleQuote)
               || (q == '\'' && inside == Escape && mode == EscapeQuote)
      modifies this`pos, this`mode
      ensures Owes() && pos >= old(pos) && if doubled then In(inside) else InRaw()
    {
      doubled := RuneAt(pos) == q;
      if doubled {
        Advance();
      }
    }

    /** After a backslash: consumes any rune, and stays inside. */
    method SkipRune(inside: Mode)
      requires Owes() && ((mode == EscapeBackslash && inside == Escape) || (mode == LineBackslash && inside == Line))
      modifies this`pos, this`mode
      ensures Owes() && pos >= old(pos) && In(inside)
    {
      Advance();
    }

    method LexSingleQuote() returns (next: StateFn)
      requires Ready(SingleQuoteState)
      modifies this
      ensures Ready(next) && (next != Nil ==> pos > old(pos))
    {
      while true
        invariant Emitted() && Owes() && nested == 0 && In(Single) && pos >= old(pos)
        decreases |src| - pos
      {
        var r := RuneAt(pos);
        Advance();
        if r == '\'' {
          var doubled := DoubledQuote('\'', Single);
          if !doubled {
            return RawState;
          }
        } else if r == RUNE_ERROR {
          Finish();
          return Nil;
        }
      }
    }

    method LexDoubleQuote() returns (next: StateFn)
      requires Ready(DoubleQuoteState)
      modifies this
      ensures Ready(next) && (next != Nil ==> pos > old(pos))
    {
      while true
        invariant Emitted() && Owes() && nested == 0 && In(Double) && pos >= old(pos)
        decreases |src| - pos
      {
        var r := RuneAt(pos);
        Advance();
        if r == '"' {
          var doubled := DoubledQuote('"', Double);
          if !doubled {
            return RawState;
          }
        } else if r == RUNE_ERROR {
          Finish();
          return Nil;
        }
      }
    }

    /** Reads the digit run at `pos` in 64-bit arithmetic. */
    method ReadNumber() returns (num: Int64)
      requires pos < |src| && IsDigit(src[pos]) && mode == ModeAt(src, pos) == RawDollar
      modifies this`pos, this`mode
      ensures old(pos) < pos == DigitsEnd(src, old(pos)) <= |src| && mode == ModeAt(src, pos) == Digits
      ensures Spelled(src[old(pos)..pos], num) && (pos < |src| ==> !IsDigit(src[pos]))
    {
      num := 0;
      ghost var first := pos;
      while true
        invariant first <= pos <= |src| && Spelled(src[first..pos], num)
        invariant mode == ModeAt(src, pos) && (mode == Digits || (pos == first && mode == RawDollar))
        decreases |src| - pos
      {
        var r := RuneAt(pos);
        if !IsDigit(r) {
          DigitsEndIs(src, first, pos);
          return;
        }
        SpelledOneMore(src, first, pos, num);
        num := AddDigit(num, r);
        DigitMode(src, pos);
        mode, pos := Digits, pos + 1;
      }
    }

    /** Reads the number of the placeholder that is owed next. */
    method ReadHolder() returns (num: Int64)
      requires InPlaceholder()
      modifies this`pos, this`mode
      ensures OwesHolder() && mode == ModeAt(src, pos) == Digits && (pos < |src| ==> !IsDigit(src[pos]))
      ensures Spelled(src[start..pos], num)
    {
      num := ReadNumber();
    }

    method LexPlaceholder() returns (next: StateFn)
      requires Ready(PlaceholderState)
      modifies this
      ensures Ready(next) && (next != Nil ==> pos > old(pos))
    {
      var num := ReadHolder();
      EndPlaceholder(num);
      return RawState;
    }

    method LexEscapeString() returns (next: StateFn)
      requires Ready(EscapeStringState)
      modifies this
      ensures Ready(next) && (next != Nil ==> pos > old(pos))
    {
      while true
        invariant Emitted() && Owes() && nested == 0 && In(Escape) && pos >= old(pos)
        decreases |src| - pos
      {
        var r := RuneAt(pos);
        Advance();
        if r == '\\' {
          SkipRune(Escape);
        } else if r == '\'' {
          var doubled := DoubledQuote('\'', Escape);
          if !doubled {
            return RawState;
          }
        } else if r == RUNE_ERROR {
          Finish();
          return Nil;
        }
      }
    }

    method LexOneLineComment() returns (next: StateFn)
      requires Ready(OneLineCommentState)
      modifies this
      ensures Ready(next) && (next != Nil ==> pos > old(pos))
    {
      while true
        invariant Emitted() && Owes() && nested == 0 && In(Line) && pos >= old(pos)
        decreases |src| - pos
      {
        var r := RuneAt(pos);
        Advance();
        if r == '\\' {
          SkipRune(Line);
        } else if r == '\n' {
          return RawState;
        } else if r == RUNE_ERROR {
          Finish();
          return Nil;
        }
      }
    }

    /** After a slash in a comment: consumes and counts the star of an opening mark. */
    method OpenMark()
      requires Owes() && mode == BlockSlash(nested)
      modifies this`pos, this`mode, this`nested
      ensures Owes() && InComment() && pos >= old(pos)
    {
      if RuneAt(pos) == '*' {
        Advance();
        nested := nested + 1;
      }
    }

    /** After a star in a comment: consumes and counts the slash of a closing mark. */
    method CloseMark() returns (ended: bool)
      requires Owes() && mode == BlockStar(nested)
      modifies this`pos, this`mode, this`nested
      ensures Owes() && pos >= old(pos) && if ended then nested == 0 && InRaw() else InComment()
    {
      if RuneAt(pos) != '/' {
        return false;
      }
      Advance();
      ended := nested == 0;
      if !ended {
        nested := nested - 1;
      }
    }

    /** Consumes a rune of a comment that does not complete a mark. */
    method CommentRune() returns (r: char)
      requires Owes() && InComment()
      modifies this`pos, this`mode
      ensures Owes() && r == RuneAt(old(pos)) && pos == old(pos) + WidthAt(old(pos))
      ensures if old(pos) < |src| then mode == BlockStep(nested, r) else pos == |src|
    {
      r := RuneAt(pos);
      if pos < |src| {
        CommentStep(mode, nested, r);
      }
      Advance();
    }

    method LexMultilineComment() returns (next: StateFn)
      requires Ready(MultilineCommentState)
      modifies this
      ensures Ready(next) && (next != Nil ==> pos > old(pos))
    {
      while true
        invariant Emitted() && Owes() && InComment() && pos >= old(pos)
        decreases |src| - pos
      {
        var r := CommentRune();
        if r == '/' {
          OpenMark();
        } else if r == '*' {
          var ended := CloseMark();
          if ended {
            return RawState;
          }
        } else if r == RUNE_ERROR {
          Finish();
          return Nil;
        }
      }
    }
  }

  /** Parses a query. It ends on every source, because each state function consumes a rune or stops. */
  method NewQuery(sql: string) returns (parts: seq<Part>)
    ensures parts == Parts(sql)
    ensures exists ls :: SqlLexemes.Writes(ls, sql)
    ensures forall ls :: SqlLexemes.Writes(ls, sql) ==> parts == SqlLexemes.Written(ls, sql)
  {
    var l := new Lexer(sql);
    var stateFn := RawState;
    while stateFn != Nil
      invariant l.src == sql && l.Ready(stateFn)
      invariant stateFn != Nil ==> l.pos <= |sql|
      decreases if stateFn == Nil then 0 else 1 + |sql| - l.pos
    {
      match stateFn
      case RawState => stateFn := l.LexRaw();
      case SingleQuoteState => stateFn := l.LexSingleQuote();
      case DoubleQuoteState => stateFn := l.LexDoubleQuote();
      case PlaceholderState => stateFn := l.LexPlaceholder();
      case EscapeStringState => stateFn := l.LexEscapeString();
      case OneLineCommentState => stateFn := l.LexOneLineComment();
      case MultilineCommentState => stateFn := l.LexMultilineComment();
    }
    parts := l.parts;
    ghost var written := SqlLexemes.EveryTextIsWritten(sql);
    forall ls | SqlLexemes.Writes(ls, sql)
      ensures Parts(sql) == SqlLexemes.Written(ls, sql)
    {
      SqlLexemes.LexesAsWritten(ls, sql);
    }
  }
}
