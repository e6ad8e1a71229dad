/** Quoting of strings, bytes and identifiers, and the readers that undo it. */
module Quoting {
  import opened Basics

  /** `s` with every `q` written twice. */
  function Doubled(s: string, q: char): string {
    if s == [] then [] else (if s[0] == q then [q, q] else [s[0]]) + Doubled(s[1..], q)
  }

  function Quoted(s: string, q: char): string {
    [q] + Doubled(s, q) + [q]
  }

  function QuoteString(s: string): string {
    Quoted(s, '\'')
  }

  function QuoteIdentifier(s: string): string {
    Quoted(s, '"')
  }

  /** Reads a quoted text up to its closing quote: the text, and what follows the quote. */
  function ReadBody(t: string, q: char): Option<(string, string)> {
    if t == [] then None
    else if t[0] != q then
      match ReadBody(t[1..], q)
      case None => None
      case Some((s, rest)) => Some(([t[0]] + s, rest))
    else if |t| == 1 || t[1] != q then Some(([], t[1..]))
    else
      match ReadBody(t[2..], q)
      case None => None
      case Some((s, rest)) => Some(([q] + s, rest))
  }

  function ReadQuoted(t: string, q: char): Option<(string, string)> {
    if t == [] || t[0] != q then None else ReadBody(t[1..], q)
  }

  lemma {:induction false} BodyReadsBack(s: string, q: char, rest: string)
    requires rest == [] || rest[0] != q
    ensures ReadBody(Doubled(s, q) + [q] + rest, q) == Some((s, rest))
  {
    var t := Doubled(s, q) + [q] + rest;
    if s == [] {
      assert t == [q] + rest;
      assert t[1..] == rest;
    } else {
      BodyReadsBack(s[1..], q, rest);
      var t' := Doubled(s[1..], q) + [q] + rest;
      if s[0] == q {
        assert t == [q, q] + t';
        assert t[2..] == t';
      } else {
        assert t == [s[0]] + t';
        assert t[1..] == t';
      }
      assert [s[0]] + s[1..] == s;
    }
  }

  /** Reading a quoted string gives the string back, whatever it holds and whatever follows it. */
  lemma QuotedReadsBack(s: string, q: char, rest: string)
    requires rest == [] || rest[0] != q
    ensures ReadQuoted(Quoted(s, q) + rest, q) == Some((s, rest))
  {
    BodyReadsBack(s, q, rest);
    assert (Quoted(s, q) + rest)[1..] == Doubled(s, q) + [q] + rest;
  }

  // ---- bytes ----

  function HexDigit(n: int): char
    requires 0 <= n < 16
  {
    "0123456789abcdef"[n]
  }

  function HexValue(c: char): (v: Option<int>)
    ensures v.Some? ==> 0 <= v.value < 16
  {
    if '0' <= c <= '9' then Some(c as int - '0' as int)
    else if 'a' <= c <= 'f' then Some(c as int - 'a' as int + 10)
    else None
  }

  lemma HexDigitReadsBack(n: int)
    requires 0 <= n < 16
    ensures HexValue(HexDigit(n)) == Some(n)
  {
  }

  function Hex(b: seq<Byte>): string {
    if b == [] then [] else [HexDigit(b[0] / 16), HexDigit(b[0] % 16)] + Hex(b[1..])
  }

  function QuoteBytes(b: seq<Byte>): string {
    "'\\x" + Hex(b) + "'"
  }

  function Unhex(s: string): Option<seq<Byte>> {
    if s == [] then Some([])
    else if |s| == 1 then None
    else match (HexValue(s[0]), HexValue(s[1]), Unhex(s[2..]))
      case (Some(h), Some(l), Some(rest)) => Some([(16 * h + l) as Byte] + rest)
      case _ => None
  }

  /** The bytes of a literal in the server's hex format. */
  function ReadBytes(t: string): Option<seq<Byte>> {
    if |t| >= 4 && t[..3] == "'\\x" && t[|t| - 1] == '\'' then Unhex(t[3..|t| - 1]) else None
  }

  lemma {:induction false} UnhexStep(n: Byte, rest: string)
    requires Unhex(rest).Some?
    ensures Unhex([HexDigit(n / 16), HexDigit(n % 16)] + rest) == Some([n] + Unhex(rest).value)
  {
    HexDigitReadsBack(n / 16);
    HexDigitReadsBack(n % 16);
    assert ([HexDigit(n / 16), HexDigit(n % 16)] + rest)[2..] == rest;
  }

  lemma {:induction false} HexReadsBack(b: seq<Byte>)
    ensures Unhex(Hex(b)) == Some(b)
  {
    if b != [] {
      HexReadsBack(b[1..]);
      UnhexStep(b[0], Hex(b[1..]));
      assert [b[0]] + b[1..] == b;
    }
  }

  lemma BytesReadBack(b: seq<Byte>)
    ensures ReadBytes(QuoteBytes(b)) == Some(b)
  {
    HexReadsBack(b);
    var t := QuoteBytes(b);
    assert t[3..|t| - 1] == Hex(b);
  }

  /** Two lower-case hexadecimal digits for each byte, the high one first. */
  lemma BytesByDigit()
    ensures QuoteBytes([0xBE, 0x0A]) == "'\\xbe0a'"
  {
    assert [0xBE, 0x0A][1..] == [0x0A] && [0x0A as Byte][1..] == [];
    assert Hex([0x0A]) == "0a" && Hex([0xBE, 0x0A]) == "be" + Hex([0x0A]);
  }

  // ---- identifiers ----

  const NUL: char := '\0'

  /** `s` without its NUL characters. */
  function DropNul(s: string): string {
    if s == [] then [] else (if s[0] == NUL then [] else [s[0]]) + DropNul(s[1..])
  }

  /** Nothing but NUL characters is dropped, and all of them are. */
  lemma {:induction false} DropNulExactly(s: string)
    ensures '\0' !in DropNul(s) && ('\0' !in s ==> DropNul(s) == s) && DropNul("\0") == ""
    decreases s
  {
    assert "\0"[1..] == "";
    if s != [] {
      DropNulExactly(s[1..]);
      assert s == [s[0]] + s[1..];
    }
  }

  /** Wherever they stand. */
  lemma {:induction false} DropNulConcat(a: string, b: string)
    ensures DropNul(a + b) == DropNul(a) + DropNul(b)
    decreases a
  {
    if a == [] {
      assert a + b == b;
    } else {
      DropNulConcat(a[1..], b);
      var head := if a[0] == NUL then [] else [a[0]];
      assert (a + b)[0] == a[0] && (a + b)[1..] == a[1..] + b;
      assert DropNul(a + b) == head + (DropNul(a[1..]) + DropNul(b));
      assert DropNul(a) + DropNul(b) == head + DropNul(a[1..]) + DropNul(b);
    }
  }

  function Join(parts: seq<string>): string {
    if parts == [] then []
    else if |parts| == 1 then parts[0]
    else parts[0] + "." + Join(parts[1..])
  }

  function QuotedParts(ident: seq<string>): seq<string> {
    seq(|ident|, i requires 0 <= i < |ident| => QuoteIdentifier(DropNul(ident[i])))
  }

  /** A dotted name, as the server reads it. */
  function ReadDotted(t: string): Option<seq<string>>
    decreases |t|
  {
    match ReadQuoted(t, '"')
    case None => None
    case Some((s, rest)) =>
      ReadQuotedShrinks(t, '"');
      if rest == [] then Some([s])
      else if rest[0] != '.' then None
      else match ReadDotted(rest[1..])
        case None => None
        case Some(names) => Some([s] + names)
  }

  lemma {:induction false} ReadBodyShrinks(t: string, q: char)
    ensures ReadBody(t, q).Some? ==> |ReadBody(t, q).value.1| < |t|
  {
    if t != [] {
      if t[0] != q {
        ReadBodyShrinks(t[1..], q);
      } else if |t| > 1 && t[1] == q {
        ReadBodyShrinks(t[2..], q);
      }
    }
  }

  lemma ReadQuotedShrinks(t: string, q: char)
    ensures ReadQuoted(t, q).Some? ==> |ReadQuoted(t, q).value.1| < |t|
  {
    if t != [] { ReadBodyShrinks(t[1..], q); }
  }

  function Dotted(ident: seq<string>): string {
    Join(QuotedParts(ident))
  }

  /** Prints a dotted identifier: each part loses its NULs and is quoted. */
  method SanitizeIdentifier(ident: seq<string>) returns (r: string)
    ensures r == Dotted(ident)
  {
    var parts := new string[|ident|];
    for i := 0 to |ident|
      invariant forall k :: 0 <= k < i ==> parts[k] == QuoteIdentifier(DropNul(ident[k]))
    {
      parts[i] := QuoteIdentifier(DropNul(ident[i]));
    }
    assert parts[..] == QuotedParts(ident);
    r := Join(parts[..]);
  }

  function WithoutNuls(ident: seq<string>): seq<string> {
    seq(|ident|, i requires 0 <= i < |ident| => DropNul(ident[i]))
  }

  /** Reading a printed identifier gives its parts back, without their NULs. */
  lemma IdentifierReadsBack(ident: seq<string>)
    requires ident != []
    ensures ReadDotted(Dotted(ident)) == Some(WithoutNuls(ident))
    decreases ident
  {
    var s := DropNul(ident[0]);
    if |ident| == 1 {
      QuotedReadsBack(s, '"', []);
      assert Quoted(s, '"') + [] == Quoted(s, '"') == Dotted(ident);
      assert WithoutNuls(ident) == [s];
    } else {
      var rest := "." + Dotted(ident[1..]);
      IdentifierReadsBack(ident[1..]);
      QuotedReadsBack(s, '"', rest);
      assert QuotedParts(ident)[1..] == QuotedParts(ident[1..]);
      assert Dotted(ident) == Quoted(s, '"') + rest;
      assert rest[1..] == Dotted(ident[1..]);
      assert WithoutNuls(ident) == [s] + WithoutNuls(ident[1..]);
    }
  }
}
