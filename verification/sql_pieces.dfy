/**
 Texts put together from pieces, and how the whole is read. Each piece comes with the mode from which it is
 read at home: the pieces of a source in the source, a literal alone. Put together, the pieces are read as at
 home exactly when none of them goes on with what the piece before it left unfinished.
 */
module SqlPieces {
  import opened SqlModes
  import opened SqlProperties

  /**
   A rune `r` read in raw mode `m` goes on with what came before it: it completes a comment mark, an escape
   string's opening or a placeholder, or doubles a quote.
   */
  predicate Joins(m: Mode, r: char) {
    || (m == RawE && r == '\'')
    || (m == RawDash && r == '-')
    || (m == RawSlash && r == '*')
    || ((m == RawDollar || m == Digits) && IsDigit(r))
    || ((m == SingleQuote || m == EscapeQuote) && r == '\'')
    || (m == DoubleQuote && r == '"')
  }

  /** These are the runes that are not read as in plain raw mode, and doubled quotes, which are. */
  lemma JoinsExactly(m: Mode, r: char)
    requires IsRaw(m)
    ensures Joins(m, r)
       <==> Step(m, r) != RawStep(r) || (m == SingleQuote && r == '\'') || (m == DoubleQuote && r == '"')
  {
  }

  // ---- texts without placeholders ----

  /** Read from mode `m`, `s` holds no placeholder. */
  predicate Quiet(m: Mode, s: string)
    decreases s
  {
    s == [] ||
    (!(IsRaw(m) && s[0] == '$' && |s| > 1 && IsDigit(s[1])) && Quiet(Step(m, s[0]), s[1..]))
  }

  lemma {:induction false} QuietConcat(m: Mode, a: string, b: string)
    requires Quiet(m, a) && Quiet(Run(m, a), b) && (Run(m, a) == RawDollar && b != [] ==> !IsDigit(b[0]))
    ensures Quiet(m, a + b)
    decreases a
  {
    if a == [] {
      assert a + b == b;
    } else {
      assert (a + b)[1..] == a[1..] + b;
      QuietConcat(Step(m, a[0]), a[1..], b);
    }
  }

  /** Only the first rune depends on the mode. */
  lemma {:induction false} QuietFrom(m: Mode, h: Mode, t: string)
    requires IsRaw(m) && IsRaw(h) && t != [] && Step(m, t[0]) == Step(h, t[0])
    ensures Quiet(m, t) <==> Quiet(h, t)
  {
  }

  lemma {:induction false} QuietAt(s: string, i: nat)
    requires Quiet(Raw, s) && i <= |s|
    ensures Quiet(ModeAt(s, i), s[i..])
  {
    if i == 0 {
      assert s[0..] == s;
    } else {
      QuietAt(s, i - 1);
      assert s[i - 1..][1..] == s[i..];
    }
  }

  lemma {:induction false} QuietIsOnePartFrom(s: string, i: nat)
    requires Quiet(Raw, s) && ErrorFree(s) && i <= |s| && s != []
    ensures PartsFrom(s, 0, i) == [Sql(s)]
    decreases |s| - i
  {
    RunsToTheEnd(s, i);
    if i == |s| {
      PartsAtEnd(s, 0, i);
      assert s[0..i] == s;
    } else {
      QuietAt(s, i);
      assert i + 1 < |s| ==> s[i..][1] == s[i + 1];
      PartsSkip(s, 0, i);
      QuietIsOnePartFrom(s, i + 1);
    }
  }

  lemma {:induction false} QuietIsOnePart(s: string)
    requires Quiet(Raw, s) && ErrorFree(s)
    ensures Parts(s) == if s == [] then [] else [Sql(s)]
  {
    if s != [] { QuietIsOnePartFrom(s, 0); }
  }

  // ---- pieces ----

  function Concat(ts: seq<string>): string {
    if ts == [] then [] else Concat(ts[..|ts| - 1]) + ts[|ts| - 1]
  }

  lemma ConcatOneMore(ts: seq<string>, k: nat)
    requires k < |ts|
    ensures Concat(ts[..k + 1]) == Concat(ts[..k]) + ts[k]
    ensures ts[k] == [] ==> Concat(ts[..k + 1]) == Concat(ts[..k])
  {
    assert ts[..k + 1][..k] == ts[..k];
  }

  /** At home, in mode `h`, `t` goes on with nothing; and if there are more pieces, it ends in a raw mode. */
  predicate WellCut(t: string, h: Mode, more: bool) {
    IsRaw(h) && (t != [] ==> Step(h, t[0]) == RawStep(t[0])) && (more ==> IsRaw(Run(h, t)))
  }

  predicate AllWellCut(ts: seq<string>, hs: seq<Mode>) {
    |ts| == |hs| && forall k :: 0 <= k < |ts| ==> WellCut(ts[k], hs[k], k + 1 < |ts|)
  }

  /** The mode in which the piece before piece `k` ends at home; empty pieces do not count. */
  function Left(ts: seq<string>, hs: seq<Mode>, k: nat): Mode
    requires k <= |ts| == |hs|
  {
    if k == 0 then Raw else if ts[k - 1] == [] then Left(ts, hs, k - 1) else Run(hs[k - 1], ts[k - 1])
  }

  /** Piece `k` does not go on with what came before it. This looks at the pieces one by one. */
  predicate ApartAt(ts: seq<string>, hs: seq<Mode>, k: nat)
    requires k < |ts| == |hs|
  {
    ts[k] != [] ==> !Joins(Left(ts, hs, k), ts[k][0])
  }

  predicate ApartTo(ts: seq<string>, hs: seq<Mode>, k: nat)
    requires k <= |ts| == |hs|
  {
    forall i: nat :: i < k ==> ApartAt(ts, hs, i)
  }

  predicate Apart(ts: seq<string>, hs: seq<Mode>)
    requires |ts| == |hs|
  {
    ApartTo(ts, hs, |ts|)
  }

  /** After `before`, `t` goes on with nothing and is read through the modes it has at home. */
  ghost predicate AsAtHome(before: string, t: string, h: Mode) {
    && (t != [] ==> !Joins(Run(Raw, before), t[0]))
    && (forall j {:trigger t[..j]} :: 0 < j <= |t| ==> Run(Raw, before + t[..j]) == Run(h, t[..j]))
  }

  /** Read from its beginning, the whole text goes, piece by piece, through the modes of the pieces. */
  ghost predicate ReadAsWritten(ts: seq<string>, hs: seq<Mode>)
    requires |ts| == |hs|
  {
    forall k {:trigger ts[..k]} :: 0 <= k < |ts| ==> AsAtHome(Concat(ts[..k]), ts[k], hs[k])
  }

  lemma {:induction false} RunFirst(m: Mode, h: Mode, t: string, j: nat)
    requires 0 < j <= |t| && Step(m, t[0]) == Step(h, t[0])
    ensures Run(m, t[..j]) == Run(h, t[..j])
  {
    assert t[..j][0] == t[0];
  }

  lemma {:induction false} ApartIsAsAtHome(before: string, t: string, h: Mode)
    requires IsRaw(Run(Raw, before)) && WellCut(t, h, false) && t != [] && !Joins(Run(Raw, before), t[0])
    ensures AsAtHome(before, t, h) && Run(Raw, before + t) == Run(h, t)
  {
    JoinsExactly(Run(Raw, before), t[0]);
    forall j | 0 < j <= |t|
      ensures Run(Raw, before + t[..j]) == Run(h, t[..j])
    {
      RunConcat(Raw, before, t[..j]);
      RunFirst(Run(Raw, before), h, t, j);
    }
    assert t[..|t|] == t;
  }

  lemma {:induction false} LeftIsRaw(ts: seq<string>, hs: seq<Mode>, k: nat)
    requires AllWellCut(ts, hs) && k < |ts|
    ensures IsRaw(Left(ts, hs, k))
  {
    if k > 0 {
      LeftIsRaw(ts, hs, k - 1);
      assert WellCut(ts[k - 1], hs[k - 1], true);
    }
  }

  /** If the first pieces are apart, the mode after them is the one the last of them ends in at home. */
  lemma {:induction false} LeftIsReached(ts: seq<string>, hs: seq<Mode>, k: nat)
    requires AllWellCut(ts, hs) && k <= |ts|
    requires ApartTo(ts, hs, k)
    ensures Run(Raw, Concat(ts[..k])) == Left(ts, hs, k)
  {
    if k > 0 {
      var i := k - 1;
      LeftIsReached(ts, hs, i);
      LeftIsRaw(ts, hs, i);
      ConcatOneMore(ts, i);
      if ts[i] != [] {
        assert ApartAt(ts, hs, i);
        ApartIsAsAtHome(Concat(ts[..i]), ts[i], hs[i]);
      }
    }
  }

  /** In the whole text, piece `k` does not go on with what came before it. */
  predicate Unjoined(ts: seq<string>, k: nat)
    requires k < |ts|
  {
    ts[k] != [] ==> !Joins(Run(Raw, Concat(ts[..k])), ts[k][0])
  }

  lemma UnjoinedIsApart(ts: seq<string>, hs: seq<Mode>, k: nat)
    requires AllWellCut(ts, hs) && k < |ts| && forall i: nat :: i < |ts| ==> Unjoined(ts, i)
    ensures ApartAt(ts, hs, k)
  {
    forall i: nat | i < k
      ensures ApartAt(ts, hs, i)
    {
      UnjoinedIsApart(ts, hs, i);
    }
    LeftIsReached(ts, hs, k);
    assert Unjoined(ts, k);
  }

  lemma WrittenIsUnjoined(ts: seq<string>, hs: seq<Mode>, k: nat)
    requires |ts| == |hs| && k < |ts| && ReadAsWritten(ts, hs)
    ensures Unjoined(ts, k)
  {
    assert AsAtHome(Concat(ts[..k]), ts[k], hs[k]);
  }

  lemma ApartIsWritten(ts: seq<string>, hs: seq<Mode>, k: nat)
    requires AllWellCut(ts, hs) && Apart(ts, hs) && k < |ts|
    ensures AsAtHome(Concat(ts[..k]), ts[k], hs[k])
  {
    if ts[k] != [] {
      assert ApartAt(ts, hs, k);
      LeftIsReached(ts, hs, k);
      LeftIsRaw(ts, hs, k);
      ApartIsAsAtHome(Concat(ts[..k]), ts[k], hs[k]);
    }
  }

  /** Pieces are read as written if and only if they are apart. */
  lemma ApartExactly(ts: seq<string>, hs: seq<Mode>)
    requires AllWellCut(ts, hs)
    ensures Apart(ts, hs) <==> ReadAsWritten(ts, hs)
  {
    if Apart(ts, hs) {
      forall k | 0 <= k < |ts|
        ensures AsAtHome(Concat(ts[..k]), ts[k], hs[k])
      {
        ApartIsWritten(ts, hs, k);
      }
    }
    if ReadAsWritten(ts, hs) {
      forall k: nat | k < |ts|
        ensures Unjoined(ts, k)
      {
        WrittenIsUnjoined(ts, hs, k);
      }
      forall k: nat | k < |ts|
        ensures ApartAt(ts, hs, k)
      {
        UnjoinedIsApart(ts, hs, k);
      }
    }
  }

  lemma {:induction false} QuietOneMore(a: string, t: string, h: Mode)
    requires Quiet(Raw, a) && IsRaw(Run(Raw, a)) && WellCut(t, h, false) && Quiet(h, t)
    requires t != [] && !Joins(Run(Raw, a), t[0])
    ensures Quiet(Raw, a + t)
  {
    JoinsExactly(Run(Raw, a), t[0]);
    QuietFrom(Run(Raw, a), h, t);
    QuietConcat(Raw, a, t);
  }

  /** Pieces that are apart and hold no placeholder at home hold none together. */
  lemma ApartIsQuiet(ts: seq<string>, hs: seq<Mode>, k: nat)
    requires AllWellCut(ts, hs) && Apart(ts, hs) && k <= |ts|
    requires forall i :: 0 <= i < |ts| ==> Quiet(hs[i], ts[i])
    ensures Quiet(Raw, Concat(ts[..k]))
  {
    if k > 0 {
      var i := k - 1;
      ApartIsQuiet(ts, hs, i);
      ConcatOneMore(ts, i);
      if ts[i] != [] {
        assert ApartAt(ts, hs, i);
        LeftIsReached(ts, hs, i);
        LeftIsRaw(ts, hs, i);
        QuietOneMore(Concat(ts[..i]), ts[i], hs[i]);
      }
    }
  }
}
