/** Replacing placeholders by quoted arguments: `Query.Sanitize` and `SanitizeSQL` of sanitize.go. */
module Sanitize {
  import opened Basics
  import opened SqlModes
  import opened SqlProperties
  import opened SqlPieces
  import opened Quoting

  // ---- how the formatting library writes numbers and times ----

  function DigitChar(d: int): (c: char)
    requires 0 <= d < 10
    ensures IsDigit(c) && DigitValue(c) == d
  {
    ('0' as int + d) as char
  }

  function NatText(n: nat): string {
    if n < 10 then [DigitChar(n)] else NatText(n / 10) + [DigitChar(n % 10)]
  }

  function IntText(n: int): string {
    if n < 0 then "-" + NatText(-n) else NatText(n)
  }

  lemma {:induction false} NatTextReadsBack(n: nat)
    ensures var t := NatText(n); t != [] && AllDigits(t) && Decimal(t) == n
  {
    if n >= 10 {
      NatTextReadsBack(n / 10);
      assert NatText(n)[..|NatText(n)| - 1] == NatText(n / 10);
    } else {
      assert NatText(n)[..0] == [];
    }
  }

  predicate FloatRune(r: char) {
    IsDigit(r) || r == '.' || r == 'N' || r == 'a' || r == 'I' || r == 'n' || r == 'f'
  }

  /** A float without exponent: a sign at most in front, then digits and a point, or NaN or Inf. */
  predicate IsFloatText(t: string) {
    && t != [] && (FloatRune(t[0]) || (|t| > 1 && (t[0] == '-' || t[0] == '+')))
    && forall k :: 1 <= k < |t| ==> FloatRune(t[k])
  }

  /** The inside of a formatted time: no quote, no error rune. */
  predicate IsTimeText(t: string) {
    '\'' !in t && ErrorFree(t)
  }

  type FloatText = t: string | IsFloatText(t) witness "0"
  type TimeText = t: string | IsTimeText(t) witness ""

  datatype Value =
    | Null
    | Int(n: Int64)
    | Float(text: FloatText)
    | Bool(b: bool)
    | Bytes(bytes: seq<Byte>)
    | Str(s: string)
    | Time(inside: TimeText)
    | Unsupported

  /** The literal that stands for an argument, if its type has one. */
  function Literal(v: Value): Option<string> {
    match v
    case Null => Some("null")
    case Int(n) => Some(IntText(n))
    case Float(t) => Some(t)
    case Bool(b) => Some(if b then "true" else "false")
    case Bytes(b) => Some(QuoteBytes(b))
    case Str(s) => Some(QuoteString(s))
    case Time(t) => Some("'" + t + "'")
    case Unsupported => None
  }

  function IntValue(t: string): Option<int> {
    if |t| > 1 && t[0] == '-' && AllDigits(t[1..]) then Some(-(Decimal(t[1..]) as int))
    else if t != [] && AllDigits(t) then Some(Decimal(t))
    else None
  }

  /** What the server understands by a literal of the argument's type is the argument. */
  predicate Denotes(t: string, v: Value) {
    match v
    case Null => t == "null"
    case Int(n) => IntValue(t) == Some(n)
    case Float(text) => t == text
    case Bool(b) => if b then t == "true" else t == "false"
    case Bytes(b) => ReadBytes(t) == Some(b)
    case Str(s) => ReadQuoted(t, '\'') == Some((s, ""))
    case Time(inside) => ReadQuoted(t, '\'') == Some((inside, ""))
    case Unsupported => false
  }

  lemma {:induction false} NothingDoubled(s: string, q: char)
    requires q !in s
    ensures Doubled(s, q) == s
  {
    if s != [] {
      NothingDoubled(s[1..], q);
      assert s == [s[0]] + s[1..];
    }
  }

  lemma IntReadsBack(n: int)
    ensures IntValue(IntText(n)) == Some(n)
  {
    var abs := if n < 0 then -n else n;
    NatTextReadsBack(abs);
    assert IntText(n) == if n < 0 then ['-'] + NatText(abs) else NatText(abs);
    assert n < 0 ==> IntText(n)[1..] == NatText(abs);
  }

  lemma QuotedDenotes(s: string)
    ensures ReadQuoted(QuoteString(s), '\'') == Some((s, ""))
  {
    QuotedReadsBack(s, '\'', "");
    assert QuoteString(s) + "" == QuoteString(s);
  }

  /** Every supported argument is written as a literal that denotes it. */
  lemma LiteralDenotes(v: Value)
    ensures Literal(v).None? <==> v.Unsupported?
    ensures Literal(v).Some? ==> Denotes(Literal(v).value, v)
  {
    match v
    case Int(n) => IntReadsBack(n);
    case Bytes(b) => BytesReadBack(b);
    case Str(s) => QuotedDenotes(s);
    case Time(t) =>
      QuotedDenotes(t);
      NothingDoubled(t, '\'');
    case _ =>
  }

  type Literals = seq<Option<string>>

  function LiteralsOf(args: seq<Value>): (lits: Literals)
    ensures |lits| == |args| && forall k :: 0 <= k < |args| ==> lits[k] == Literal(args[k])
  {
    seq(|args|, k requires 0 <= k < |args| => Literal(args[k]))
  }

  // ---- Sanitize ----

  datatype Error = InsufficientArguments | InvalidArgType | UnusedArgument(i: nat)

  /** `Panic` is the runtime error of an index out of range. */
  datatype Outcome = Ok(sql: string) | Err(error: Error) | Panic

  predicate Resolves(p: Part, lits: Literals) {
    p.Arg? ==> 1 <= p.num <= |lits| && lits[p.num - 1].Some?
  }

  predicate AllResolve(parts: seq<Part>, lits: Literals) {
    forall k :: 0 <= k < |parts| ==> Resolves(parts[k], lits)
  }

  predicate Referenced(parts: seq<Part>, i: int) {
    exists k :: 0 <= k < |parts| && parts[k].Arg? && parts[k].num == i + 1
  }

  function Written(p: Part, lits: Literals): string
    requires Resolves(p, lits)
  {
    match p
    case Sql(t) => t
    case Arg(n) => lits[n - 1].value
  }

  function WrittenAll(parts: seq<Part>, lits: Literals): seq<string>
    requires AllResolve(parts, lits)
  {
    seq(|parts|, k requires 0 <= k < |parts| => Written(parts[k], lits))
  }

  /** The parts and the arguments they name, written one after the other. */
  function Flatten(parts: seq<Part>, lits: Literals): string
    requires AllResolve(parts, lits)
  {
    Concat(WrittenAll(parts, lits))
  }

  /** What a part that does not resolve makes of the call. Subtracting one wraps around. */
  function Fault(p: Part, lits: Literals): Outcome
    requires p.Arg?
  {
    if p.num > |lits| || p.num == -TWO_63 then Err(InsufficientArguments)
    else if p.num < 1 then Panic
    else Err(InvalidArgType)
  }

  ghost predicate FirstBad(parts: seq<Part>, lits: Literals, k: nat) {
    k < |parts| && !Resolves(parts[k], lits) && forall j :: 0 <= j < k ==> Resolves(parts[j], lits)
  }

  /** Of `n` arguments, `i` is the first that no part names. */
  ghost predicate FirstUnused(parts: seq<Part>, n: nat, i: nat) {
    i < n && !Referenced(parts, i) && forall j :: 0 <= j < i ==> Referenced(parts, j)
  }

  // ---- what the result is for ----

  /** The part is text, or names an argument that can be written. */
  predicate Takes(p: Part, args: seq<Value>) {
    p.Arg? ==> 1 <= p.num <= |args| && !args[p.num - 1].Unsupported?
  }

  predicate AllTake(parts: seq<Part>, args: seq<Value>) {
    forall k :: 0 <= k < |parts| ==> Takes(parts[k], args)
  }

  ghost predicate FirstRefused(parts: seq<Part>, args: seq<Value>, k: nat) {
    k < |parts| && !Takes(parts[k], args) && forall j :: 0 <= j < k ==> Takes(parts[j], args)
  }

  /** `t` is the text itself, or a literal that denotes the argument of that number. */
  predicate StandsFor(t: string, p: Part, args: seq<Value>)
    requires Takes(p, args)
  {
    match p
    case Sql(text) => t == text
    case Arg(n) => Denotes(t, args[n - 1])
  }

  /** `sql` is a text for each part, one after the other. */
  ghost predicate Renders(sql: string, parts: seq<Part>, args: seq<Value>)
    requires AllTake(parts, args)
  {
    exists ts: seq<string> ::
      |ts| == |parts| && sql == Concat(ts) && forall k :: 0 <= k < |ts| ==> StandsFor(ts[k], parts[k], args)
  }

  /**
   What the call owes its caller. Every case names what it is about, and exactly one of them is the case: the SQL
   with the arguments in their places; the first part that cannot be written, because there is no such argument,
   because its type has no literal, or because its number is below one; or the first argument left over.
   */
  ghost predicate Correct(r: Outcome, parts: seq<Part>, args: seq<Value>) {
    match r
    case Ok(sql) =>
      AllTake(parts, args) && (forall i :: 0 <= i < |args| ==> Referenced(parts, i)) && Renders(sql, parts, args)
    case Err(InsufficientArguments) =>
      exists k: nat :: FirstRefused(parts, args, k) && (parts[k].num > |args| || parts[k].num == -TWO_63)
    case Err(InvalidArgType) =>
      exists k: nat :: FirstRefused(parts, args, k) && 1 <= parts[k].num <= |args|
    case Err(UnusedArgument(i)) => AllTake(parts, args) && FirstUnused(parts, |args|, i)
    case Panic => exists k: nat :: FirstRefused(parts, args, k) && -TWO_63 < parts[k].num < 1
  }

  lemma ResolvesIfTaken(p: Part, args: seq<Value>)
    ensures Resolves(p, LiteralsOf(args)) <==> Takes(p, args)
    ensures Takes(p, args) ==> StandsFor(Written(p, LiteralsOf(args)), p, args)
  {
    if p.Arg? && 1 <= p.num <= |args| {
      LiteralDenotes(args[p.num - 1]);
    }
  }

  lemma AllResolveIfTaken(parts: seq<Part>, args: seq<Value>)
    ensures AllResolve(parts, LiteralsOf(args)) <==> AllTake(parts, args)
    ensures AllTake(parts, args) ==> Renders(Flatten(parts, LiteralsOf(args)), parts, args)
  {
    forall k | 0 <= k < |parts|
      ensures Resolves(parts[k], LiteralsOf(args)) <==> Takes(parts[k], args)
      ensures Takes(parts[k], args) ==> StandsFor(Written(parts[k], LiteralsOf(args)), parts[k], args)
    {
      ResolvesIfTaken(parts[k], args);
    }
    if AllTake(parts, args) {
      var ts := WrittenAll(parts, LiteralsOf(args));
      assert forall k :: 0 <= k < |ts| ==> StandsFor(ts[k], parts[k], args);
    }
  }

  lemma FaultIsCorrect(parts: seq<Part>, args: seq<Value>, k: nat)
    requires FirstBad(parts, LiteralsOf(args), k) && parts[k].Arg?
    ensures Correct(Fault(parts[k], LiteralsOf(args)), parts, args)
  {
    forall j | 0 <= j <= k
      ensures Resolves(parts[j], LiteralsOf(args)) <==> Takes(parts[j], args)
    {
      ResolvesIfTaken(parts[j], args);
    }
    assert FirstRefused(parts, args, k);
  }

  /** Writes one part, and marks the argument it names as used; or says why it cannot. */
  method WritePart(p: Part, args: seq<Value>, argUse: array<bool>) returns (str: string, fault: Option<Outcome>)
    requires |args| < TWO_63 && argUse.Length == |args|
    modifies argUse
    ensures var lits := LiteralsOf(args);
            && (fault.None? <==> Resolves(p, lits))
            && (fault.None? ==> str == Written(p, lits))
            && (fault.Some? ==> p.Arg? && fault.value == Fault(p, lits) && !fault.value.Ok?)
    ensures fault.None? ==>
              forall i :: 0 <= i < |args| ==> argUse[i] == (old(argUse[i]) || (p.Arg? && p.num == i + 1))
  {
    match p
    case Sql(t) => return t, None;
    case Arg(num) =>
      var argIdx := Wrap64(num - 1);
      if argIdx >= |args| {
        return "", Some(Err(InsufficientArguments));
      }
      if argIdx < 0 {
        return "", Some(Panic);
      }
      var literal := Literal(args[argIdx]);
      if literal.None? {
        return "", Some(Err(InvalidArgType));
      }
      argUse[argIdx] := true;
      return literal.value, None;
  }

  /** Writes the parts one after the other, up to the first that cannot be written. */
  method WriteParts(parts: seq<Part>, args: seq<Value>, argUse: array<bool>)
    returns (buf: string, bad: Option<nat>, fault: Outcome)
    requires |args| < TWO_63 && argUse.Length == |args| && forall i :: 0 <= i < |args| ==> !argUse[i]
    modifies argUse
    ensures var lits := LiteralsOf(args);
            if bad.Some? then
              FirstBad(parts, lits, bad.value) && fault == Fault(parts[bad.value], lits) && !fault.Ok?
            else
              && AllResolve(parts, lits) && buf == Flatten(parts, lits)
              && forall i :: 0 <= i < |args| ==> argUse[i] == Referenced(parts, i)
  {
    buf, bad, fault := "", None, Panic;
    ghost var lits := LiteralsOf(args);
    for n := 0 to |parts|
      invariant AllResolve(parts[..n], lits) && buf == Flatten(parts[..n], lits)
      invariant forall i :: 0 <= i < |args| ==> argUse[i] == Referenced(parts[..n], i)
    {
      var str, f := WritePart(parts[n], args, argUse);
      if f.Some? {
        return buf, Some(n), f.value;
      }
      FlattenOne(parts, n, lits);
      ReferencedOne(parts, n);
      buf := buf + str;
    }
    assert parts[..|parts|] == parts;
  }

  /** The first argument that no part uses. */
  method FirstFalse(argUse: array<bool>) returns (unused: Option<nat>)
    ensures if unused.None? then forall i :: 0 <= i < argUse.Length ==> argUse[i]
            else unused.value < argUse.Length && !argUse[unused.value]
                 && forall i :: 0 <= i < unused.value ==> argUse[i]
  {
    for i := 0 to argUse.Length
      invariant forall j :: 0 <= j < i ==> argUse[j]
    {
      if !argUse[i] {
        return Some(i);
      }
    }
    unused := None;
  }

  method SanitizeQuery(parts: seq<Part>, args: seq<Value>) returns (r: Outcome)
    requires |args| < TWO_63
    ensures var lits := LiteralsOf(args);
            && (r.Ok? <==> AllResolve(parts, lits) && forall i :: 0 <= i < |args| ==> Referenced(parts, i))
            && (r.Ok? ==> r.sql == Flatten(parts, lits))
            && (forall k: nat :: FirstBad(parts, lits, k) ==> r == Fault(parts[k], lits))
            && (r.Panic? <==> exists k: nat :: FirstBad(parts, lits, k) && -TWO_63 < parts[k].num < 1)
            && (AllResolve(parts, lits) ==>
                  forall i: nat :: FirstUnused(parts, |args|, i) ==> r == Err(UnusedArgument(i)))
    ensures Correct(r, parts, args)
  {
    var argUse := new bool[|args|](_ => false);
    var buf, bad, fault := WriteParts(parts, args, argUse);
    if bad.Some? {
      FaultIsCorrect(parts, args, bad.value);
      return fault;
    }
    AllResolveIfTaken(parts, args);
    var unused := FirstFalse(argUse);
    assert forall i :: 0 <= i < |args| ==> argUse[i] == Referenced(parts, i);
    if unused.Some? {
      assert !Referenced(parts, unused.value);
      return Err(UnusedArgument(unused.value));
    }
    forall i | 0 <= i < |args|
      ensures Referenced(parts, i)
    {
      assert argUse[i];
    }
    return Ok(buf);
  }

  lemma FlattenOne(parts: seq<Part>, n: nat, lits: Literals)
    requires n < |parts| && AllResolve(parts[..n], lits) && Resolves(parts[n], lits)
    ensures AllResolve(parts[..n + 1], lits)
    ensures Flatten(parts[..n + 1], lits) == Flatten(parts[..n], lits) + Written(parts[n], lits)
  {
    var ts := WrittenAll(parts[..n + 1], lits);
    assert ts[..n] == WrittenAll(parts[..n], lits);
  }

  lemma ReferencedOne(parts: seq<Part>, n: nat)
    requires n < |parts|
    ensures forall i :: Referenced(parts[..n + 1], i)
                   <==> Referenced(parts[..n], i) || (parts[n].Arg? && parts[n].num == i + 1)
  {
    forall i
      ensures Referenced(parts[..n + 1], i)
         <==> Referenced(parts[..n], i) || (parts[n].Arg? && parts[n].num == i + 1)
    {
      var a, b := parts[..n + 1], parts[..n];
      if Referenced(a, i) {
        var k :| 0 <= k < |a| && a[k].Arg? && a[k].num == i + 1;
        assert k < n ==> b[k] == a[k];
      }
      if Referenced(b, i) {
        var k :| 0 <= k < |b| && b[k].Arg? && b[k].num == i + 1;
        assert a[k] == b[k];
      }
      assert a[n] == parts[n];
    }
  }
}
