/**
 Words and numbers in a text put together from pieces. The lexer does not look at them, but the server does: a
 literal written right after a word or a number becomes part of it, and a quoted one takes the word as its tag.
 The words of the whole are those of the pieces exactly when no piece sticks to the word before it.
 */
module SqlWords {
  import opened SqlModes
  import opened SqlProperties
  import opened SqlPieces

  predicate WordRune(r: char) {
    'a' <= r <= 'z' || 'A' <= r <= 'Z' || IsDigit(r) || r == '_' || r == '.' || r >= '\U{0080}'
  }

  predicate InWord(m: Mode, r: char) {
    IsRaw(m) && WordRune(r)
  }

  /** A quote that opens a string, and is not the second of a doubled one. */
  predicate Opens(m: Mode, r: char) {
    IsRaw(m) && r == '\'' && m != SingleQuote && m != EscapeQuote
  }

  /** A rune that goes on with a word before it: as a letter of it, or as the quote that it tags. */
  predicate Sticks(m: Mode, r: char) {
    InWord(m, r) || Opens(m, r)
  }

  function Flush(word: string): seq<string> {
    if word == "" then [] else [word]
  }

  /**
   The words of `s`, read from mode `m` with `word` begun: runs of letters, digits, points and underscores outside
   quotes and comments; and for each string its opening quote, with the word before it as its tag.
   */
  function Words(m: Mode, word: string, s: string): seq<string>
    decreases s
  {
    if s == [] then Flush(word)
    else if InWord(m, s[0]) then Words(Step(m, s[0]), word + [s[0]], s[1..])
    else if Opens(m, s[0]) then [word + "'"] + Words(Step(m, s[0]), "", s[1..])
    else Flush(word) + Words(Step(m, s[0]), "", s[1..])
  }

  /** Those of them that are finished with `s`, and the one that is not. */
  function Finished(m: Mode, word: string, s: string): seq<string>
    decreases s
  {
    if s == [] then []
    else if InWord(m, s[0]) then Finished(Step(m, s[0]), word + [s[0]], s[1..])
    else if Opens(m, s[0]) then [word + "'"] + Finished(Step(m, s[0]), "", s[1..])
    else Flush(word) + Finished(Step(m, s[0]), "", s[1..])
  }

  function Unfinished(m: Mode, word: string, s: string): string
    decreases s
  {
    if s == [] then word
    else Unfinished(Step(m, s[0]), if InWord(m, s[0]) then word + [s[0]] else "", s[1..])
  }

  lemma {:induction false} WordsSplit(m: Mode, word: string, a: string, b: string)
    ensures Words(m, word, a + b) == Finished(m, word, a) + Words(Run(m, a), Unfinished(m, word, a), b)
    decreases a
  {
    if a == [] {
      assert a + b == b;
    } else {
      assert (a + b)[1..] == a[1..] + b && (a + b)[0] == a[0];
      WordsSplit(Step(m, a[0]), if InWord(m, a[0]) then word + [a[0]] else "", a[1..], b);
    }
  }

  lemma {:induction false} UnfinishedSplit(m: Mode, word: string, a: string, b: string)
    ensures Unfinished(m, word, a + b) == Unfinished(Run(m, a), Unfinished(m, word, a), b)
    decreases a
  {
    if a == [] {
      assert a + b == b;
    } else {
      assert (a + b)[1..] == a[1..] + b && (a + b)[0] == a[0];
      UnfinishedSplit(Step(m, a[0]), if InWord(m, a[0]) then word + [a[0]] else "", a[1..], b);
    }
  }

  /** How many words there are does not depend on which word was begun. */
  lemma {:induction false} SameCount(m: Mode, v: string, w: string, s: string)
    requires v != "" && w != ""
    ensures |Words(m, v, s)| == |Words(m, w, s)|
    ensures Unfinished(m, v, s) == "" <==> Unfinished(m, w, s) == ""
    decreases s
  {
    if s != [] && InWord(m, s[0]) {
      SameCount(Step(m, s[0]), v + [s[0]], w + [s[0]], s[1..]);
    }
  }

  /** The mode of a piece at home: plain, or after a placeholder. */
  predicate AtStart(h: Mode) {
    h == Raw || h == Digits
  }

  /** How piece `t` is read after `word`, compared to how it is read at home. */
  lemma {:induction false} WordsAfter(m: Mode, word: string, h: Mode, t: string)
    requires IsRaw(m) && AtStart(h) && t != [] && Step(m, t[0]) == Step(h, t[0]) && !Joins(m, t[0])
    ensures if word != "" && Sticks(h, t[0]) then |Words(m, word, t)| == |Words(h, "", t)|
            else Words(m, word, t) == Flush(word) + Words(h, "", t)
    ensures Unfinished(m, word, t) == "" <==> Unfinished(h, "", t) == ""
  {
    assert Sticks(m, t[0]) == Sticks(h, t[0]) && InWord(m, t[0]) == InWord(h, t[0]);
    if InWord(h, t[0]) {
      SameCount(Step(h, t[0]), word + [t[0]], "" + [t[0]], t[1..]);
      assert word == "" ==> word + [t[0]] == "" + [t[0]];
    }
  }

  lemma {:induction false} WordsUpTo(before: string, t: string)
    ensures var done, word := Finished(Raw, "", before), Unfinished(Raw, "", before);
            && Words(Raw, "", before) == done + Flush(word)
            && Words(Raw, "", before + t) == done + Words(Run(Raw, before), word, t)
            && Unfinished(Raw, "", before + t) == Unfinished(Run(Raw, before), word, t)
  {
    WordsSplit(Raw, "", before, t);
    WordsSplit(Raw, "", before, "");
    assert before + "" == before;
    UnfinishedSplit(Raw, "", before, t);
  }

  lemma Regroup(a: seq<string>, b: seq<string>, c: seq<string>)
    ensures a + (b + c) == (a + b) + c
  {
  }

  lemma {:induction false} OneMorePiece(before: string, h: Mode, t: string)
    requires IsRaw(Run(Raw, before)) && AtStart(h) && t != []
    requires Step(Run(Raw, before), t[0]) == Step(h, t[0]) && !Joins(Run(Raw, before), t[0])
    ensures var was, now := Words(Raw, "", before), Words(Raw, "", before + t);
            if Unfinished(Raw, "", before) != "" && Sticks(h, t[0]) then |now| < |was| + |Words(h, "", t)|
            else now == was + Words(h, "", t)
    ensures Unfinished(Raw, "", before + t) == "" <==> Unfinished(h, "", t) == ""
  {
    var done, word := Finished(Raw, "", before), Unfinished(Raw, "", before);
    WordsUpTo(before, t);
    WordsAfter(Run(Raw, before), word, h, t);
    Regroup(done, Flush(word), Words(h, "", t));
  }

  // ---- pieces ----

  /** The piece before piece `k` ends, at home, inside a word; empty pieces do not count. */
  predicate EndsInWord(ts: seq<string>, hs: seq<Mode>, k: nat)
    requires k <= |ts| == |hs|
  {
    k > 0 && if ts[k - 1] == [] then EndsInWord(ts, hs, k - 1) else Unfinished(hs[k - 1], "", ts[k - 1]) != ""
  }

  predicate SeparateAt(ts: seq<string>, hs: seq<Mode>, k: nat)
    requires k < |ts| == |hs|
  {
    ts[k] != [] && EndsInWord(ts, hs, k) ==> !Sticks(hs[k], ts[k][0])
  }

  predicate SeparateTo(ts: seq<string>, hs: seq<Mode>, k: nat)
    requires k <= |ts| == |hs|
  {
    forall i: nat :: i < k ==> SeparateAt(ts, hs, i)
  }

  /** No piece sticks to a word before it. This looks at the pieces one by one. */
  predicate Separate(ts: seq<string>, hs: seq<Mode>)
    requires |ts| == |hs|
  {
    SeparateTo(ts, hs, |ts|)
  }

  /** The words of the first `k` pieces, each read at home. */
  function WordsOf(ts: seq<string>, hs: seq<Mode>, k: nat): seq<string>
    requires k <= |ts| == |hs|
  {
    if k == 0 then [] else WordsOf(ts, hs, k - 1) + Words(hs[k - 1], "", ts[k - 1])
  }

  ghost predicate AllAtStart(hs: seq<Mode>) {
    forall k :: 0 <= k < |hs| ==> AtStart(hs[k])
  }

  /** The whole text up to piece `k`, compared to the pieces. */
  ghost predicate Counted(ts: seq<string>, hs: seq<Mode>, k: nat)
    requires k <= |ts| == |hs|
  {
    var whole, parts := Words(Raw, "", Concat(ts[..k])), WordsOf(ts, hs, k);
    && (if SeparateTo(ts, hs, k) then whole == parts else |whole| < |parts|)
    && (Unfinished(Raw, "", Concat(ts[..k])) != "" <==> EndsInWord(ts, hs, k))
  }

  lemma SeparateOneMore(ts: seq<string>, hs: seq<Mode>, k: nat)
    requires k < |ts| == |hs|
    ensures SeparateTo(ts, hs, k + 1) <==> SeparateTo(ts, hs, k) && SeparateAt(ts, hs, k)
  {
  }

  lemma CountedOneMore(ts: seq<string>, hs: seq<Mode>, k: nat)
    requires AllWellCut(ts, hs) && Apart(ts, hs) && AllAtStart(hs) && k < |ts| && Counted(ts, hs, k)
    ensures Counted(ts, hs, k + 1)
  {
    ConcatOneMore(ts, k);
    SeparateOneMore(ts, hs, k);
    if ts[k] != [] {
      assert ApartAt(ts, hs, k);
      ApartTakes(ts, hs, k);
      OneMorePiece(Concat(ts[..k]), hs[k], ts[k]);
    } else {
      assert Words(hs[k], "", ts[k]) == [];
    }
  }

  /** Where pieces are apart, the next one is read from a raw mode that it does not join, as at home. */
  lemma ApartTakes(ts: seq<string>, hs: seq<Mode>, k: nat)
    requires AllWellCut(ts, hs) && Apart(ts, hs) && k < |ts| && ts[k] != []
    ensures var m := Run(Raw, Concat(ts[..k]));
            IsRaw(m) && !Joins(m, ts[k][0]) && Step(m, ts[k][0]) == Step(hs[k], ts[k][0])
  {
    assert ApartAt(ts, hs, k) && WellCut(ts[k], hs[k], k + 1 < |ts|);
    LeftIsReached(ts, hs, k);
    LeftIsRaw(ts, hs, k);
    JoinsExactly(Left(ts, hs, k), ts[k][0]);
  }

  lemma CountedAll(ts: seq<string>, hs: seq<Mode>, k: nat)
    requires AllWellCut(ts, hs) && Apart(ts, hs) && AllAtStart(hs) && k <= |ts|
    ensures Counted(ts, hs, k)
  {
    if k > 0 {
      CountedAll(ts, hs, k - 1);
      CountedOneMore(ts, hs, k - 1);
    }
  }

  /** Pieces that are apart keep their words if and only if they are separate. */
  lemma {:induction false} SeparateExactly(ts: seq<string>, hs: seq<Mode>)
    requires AllWellCut(ts, hs) && Apart(ts, hs) && AllAtStart(hs)
    ensures Separate(ts, hs) <==> Words(Raw, "", Concat(ts)) == WordsOf(ts, hs, |ts|)
  {
    CountedAll(ts, hs, |ts|);
    assert ts[..|ts|] == ts;
  }

  // ---- how a text ends ----

  lemma {:induction false} UnfinishedLast(m: Mode, word: string, s: string)
    requires s != []
    ensures var last := |s| - 1;
            Unfinished(m, word, s) != "" <==> InWord(Run(m, s[..last]), s[last])
  {
    var last := |s| - 1;
    assert s == s[..last] + [s[last]];
    UnfinishedSplit(m, word, s[..last], [s[last]]);
    assert [s[last]][1..] == [];
  }
}
