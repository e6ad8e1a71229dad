/** The COPY writer: framing of arguments, building of chunks, and the loop that feeds the pipe. */
module CopyFrom {
  import opened Basics
  import opened Wire

  /** Errors, so far as they can be told apart: the end-of-file value, those made here, and any other. */
  datatype Error = Eof | CountMismatch | CannotEncode | Custom(id: int)

  datatype Try<T> = Ok(value: T) | Fails(error: Error)

  // ---- arguments ----

  /** An encoder appends to the buffer it is given, or reports NULL or an error. */
  datatype Encoding = EncodeError(error: Error) | EncodesNull | Appends(bytes: seq<Byte>)

  /** A value to encode, as the order of the tests in `encodePreparedStatementArgument` sees it. */
  datatype Arg =
    | NilArg
    | BinaryEncoder(enc: Encoding)
    | TextEncoder(enc: Encoding)
    | Str(bytes: seq<Byte>)
    | NilPointer
    | Pointer(target: Arg)
    | Registered(enc: Encoding)  // the column type takes the value
    | ValuerFails(error: Error)  // the column type refuses it, and so does the value's own conversion
    | Valuer(converted: Arg)  // the column type refuses it, but the value converts itself
    | SetFails(error: Error)
    | Named(underlying: Arg)
    | Unencodable

  function FieldOfEncoding(e: Encoding): Try<Field> {
    match e
    case EncodeError(error) => Fails(error)
    case EncodesNull => Ok(Null)
    case Appends(b) => Ok(Value(b))
  }

  /** The field an argument stands for, or the error of encoding it. */
  function FieldOf(a: Arg): Try<Field> {
    match a
    case NilArg => Ok(Null)
    case BinaryEncoder(e) => FieldOfEncoding(e)
    case TextEncoder(e) => FieldOfEncoding(e)
    case Str(b) => Ok(Value(b))
    case NilPointer => Ok(Null)
    case Pointer(t) => FieldOf(t)
    case Registered(e) => FieldOfEncoding(e)
    case ValuerFails(error) => Fails(error)
    case Valuer(c) => FieldOf(c)
    case SetFails(error) => Fails(error)
    case Named(u) => FieldOf(u)
    case Unencodable => Fails(CannotEncode)
  }

  /** What is encoded in the end: what is behind pointers, conversions and named types. */
  function Core(a: Arg): Arg {
    match a
    case Pointer(t) => Core(t)
    case Valuer(c) => Core(c)
    case Named(u) => Core(u)
    case _ => a
  }

  predicate HasEncoder(a: Arg) {
    a.BinaryEncoder? || a.TextEncoder? || a.Registered?
  }

  /**
   NULL comes from nothing but nil, a nil pointer, or an encoder that says so; a value from nothing but a string or
   an encoder, and it is theirs; and every error is that of the encoder, the conversion or the type.
   */
  lemma {:induction false} FieldExactly(a: Arg)
    ensures var c := Core(a);
            && (FieldOf(a) == Ok(Null) <==> c.NilArg? || c.NilPointer? || (HasEncoder(c) && c.enc.EncodesNull?))
            && (forall b :: FieldOf(a) == Ok(Value(b)) <==> c == Str(b) || (HasEncoder(c) && c.enc == Appends(b)))
            && (forall e :: FieldOf(a) == Fails(e) <==>
                  || (HasEncoder(c) && c.enc == EncodeError(e)) || c == ValuerFails(e) || c == SetFails(e)
                  || (c == Unencodable && e == CannotEncode))
  {
    match a
    case Pointer(t) => FieldExactly(t);
    case Valuer(c) => FieldExactly(c);
    case Named(u) => FieldExactly(u);
    case _ =>
  }

  /** Overwrites four bytes at `at`. */
  function SetInt32(buf: seq<Byte>, at: nat, n: int): (r: seq<Byte>)
    requires at + 4 <= |buf|
    ensures |r| == |buf|
  {
    buf[..at] + Int32(n) + buf[at + 4..]
  }

  /** `r` is `buf` with what `field` stands for appended, or the error. */
  ghost predicate Appended(buf: seq<Byte>, field: Try<Field>, r: Try<seq<Byte>>) {
    r == match field case Ok(f) => Ok(buf + FieldBytes(f)) case Fails(error) => Fails(error)
  }

  /** Appends a length of -1, lets the encoder append, and patches the length in unless the value is NULL. */
  method AppendEncoded(buf0: seq<Byte>, e: Encoding) returns (r: Try<seq<Byte>>)
    ensures Appended(buf0, FieldOfEncoding(e), r)
  {
    var sp := |buf0|;
    var buf := buf0 + Int32(-1);
    match e
    case EncodeError(error) => return Fails(error);
    case EncodesNull => return Ok(buf);
    case Appends(b) =>
      buf := buf + b;
      buf := SetInt32(buf, sp, |buf[sp..]| - 4);
      assert buf == buf0 + (Int32(|b|) + b);
      return Ok(buf);
  }

  method EncodeArgument(buf: seq<Byte>, a: Arg) returns (r: Try<seq<Byte>>)
    ensures Appended(buf, FieldOf(a), r)
    decreases a
  {
    match a
    case NilArg => r := Ok(buf + Int32(-1));
    case BinaryEncoder(e) => r := AppendEncoded(buf, e);
    case TextEncoder(e) => r := AppendEncoded(buf, e);
    case Str(b) =>
      var framed := buf + Int32(|b|);
      framed := framed + b;
      assert framed == buf + (Int32(|b|) + b);
      r := Ok(framed);
    case NilPointer => r := Ok(buf + Int32(-1));
    case Pointer(t) => r := EncodeArgument(buf, t);
    case Registered(e) => r := AppendEncoded(buf, e);
    case ValuerFails(error) => r := Fails(error);
    case Valuer(c) => r := EncodeArgument(buf, c);
    case SetFails(error) => r := Fails(error);
    case Named(u) => r := EncodeArgument(buf, u);
    case Unencodable => r := Fails(CannotEncode);
  }

  // ---- row sources ----

  /** What `Values` gives for one row. */
  datatype RowStep = RowValues(values: seq<Arg>) | RowError(error: Error)

  /** The error that `Err` reports, from the `from`-th call of `Next` on. */
  datatype Report = Report(from: nat, error: Error)

  class RowSource {
    const steps: seq<RowStep>
    const report: Option<Report>
    var nexts: nat

    constructor (steps: seq<RowStep>, report: Option<Report>)
      ensures this.steps == steps && this.report == report && nexts == 0
    {
      this.steps, this.report, nexts := steps, report, 0;
    }

    method Next() returns (more: bool)
      modifies this
      ensures nexts == old(nexts) + 1 && (more <==> nexts <= |steps|)
    {
      nexts := nexts + 1;
      more := nexts <= |steps|;
    }

    function Values(): RowStep
      requires 0 < nexts <= |steps|
      reads this
    {
      steps[nexts - 1]
    }

    function Err(): Option<Error>
      reads this
    {
      Reported(report, nexts)
    }
  }

  /** What `Err` says after so many calls of `Next`. */
  function Reported(report: Option<Report>, nexts: nat): Option<Error> {
    if report.Some? && report.value.from <= nexts then Some(report.value.error) else None
  }

  /** The fields of all values, or the error of the first that cannot be encoded. */
  function FieldsOf(args: seq<Arg>): (r: Try<seq<Field>>)
    ensures r.Ok? ==> |r.value| == |args|
  {
    if args == [] then Ok([])
    else match FieldsOf(args[..|args| - 1])
      case Fails(error) => Fails(error)
      case Ok(fs) =>
        match FieldOf(args[|args| - 1])
        case Fails(error) => Fails(error)
        case Ok(f) => Ok(fs + [f])
  }

  lemma {:induction false} FieldsOfPrefix(args: seq<Arg>, i: nat)
    requires i <= |args| && FieldsOf(args[..i]).Fails?
    ensures FieldsOf(args) == FieldsOf(args[..i])
  {
    if i < |args| {
      assert args[..|args| - 1][..i] == args[..i];
      FieldsOfPrefix(args[..|args| - 1], i);
    } else {
      assert args[..i] == args;
    }
  }

  /** Value `i` is the first that cannot be encoded, for this reason. */
  ghost predicate FailsFirst(args: seq<Arg>, i: nat, e: Error) {
    i < |args| && FieldOf(args[i]) == Fails(e) && forall j :: 0 <= j < i ==> FieldOf(args[j]).Ok?
  }

  /** Field by field, in order; or the error of the first value that cannot be encoded. */
  lemma {:induction false} FieldsExactly(args: seq<Arg>)
    ensures var r := FieldsOf(args);
            if r.Ok? then |r.value| == |args| && forall i :: 0 <= i < |args| ==> FieldOf(args[i]) == Ok(r.value[i])
            else exists i :: FailsFirst(args, i, r.error)
  {
    if args != [] {
      var n: nat := |args| - 1;
      var r := FieldsOf(args[..n]);
      FieldsExactly(args[..n]);
      assert forall i :: 0 <= i < n ==> args[..n][i] == args[i];
      if r.Fails? {
        var i :| FailsFirst(args[..n], i, r.error);
        assert FieldsOf(args) == r && FailsFirst(args, i, r.error);
      } else if FieldOf(args[n]).Fails? {
        var e := FieldOf(args[n]).error;
        assert FieldsOf(args) == Fails(e) && FailsFirst(args, n, e);
      }
    }
  }

  /** The row a source step stands for, if it has the right number of values and all can be encoded. */
  function RowOf(step: RowStep, columns: nat): Try<Row> {
    match step
    case RowError(error) => Fails(error)
    case RowValues(values) => if |values| != columns then Fails(CountMismatch) else FieldsOf(values)
  }

  /** A step gives a row exactly when it has a value for every column and all can be encoded; and it is those fields. */
  lemma RowExactly(step: RowStep, columns: nat)
    ensures RowOf(step, columns).Ok? <==>
              && step.RowValues? && |step.values| == columns
              && forall i :: 0 <= i < columns ==> FieldOf(step.values[i]).Ok?
    ensures RowOf(step, columns).Ok? ==>
              var row := RowOf(step, columns).value;
              |row| == columns && forall i :: 0 <= i < columns ==> FieldOf(step.values[i]) == Ok(row[i])
  {
    if step.RowValues? {
      FieldsExactly(step.values);
    }
  }

  // ---- building chunks ----

  const CHUNK: nat := 65536

  datatype Built = More(k: nat, buf: seq<Byte>) | Last(buf: seq<Byte>) | Broke(error: Error)

  /** From the `k`-th step on, rows are added to `buf` until it holds more than `CHUNK` bytes. */
  function Build(steps: seq<RowStep>, columns: nat, k: nat, buf: seq<Byte>): (b: Built)
    requires k <= |steps|
    ensures b.More? ==> k < b.k <= |steps| && |b.buf| > CHUNK
    decreases |steps| - k
  {
    if k == |steps| then Last(buf)
    else match RowOf(steps[k], columns)
      case Fails(error) => Broke(error)
      case Ok(row) =>
        var buf' := buf + RowBytes(row);
        if |buf'| > CHUNK then More(k + 1, buf') else Build(steps, columns, k + 1, buf')
  }

  lemma OneMoreField(head: seq<Byte>, fs: seq<Field>, f: Field)
    ensures head + FieldsBytes(fs) + FieldBytes(f) == head + FieldsBytes(fs + [f])
  {
    FieldsConcat(fs, [f]);
    FieldsOne(f);
    Reassociate(head, FieldsBytes(fs), FieldBytes(f));
  }

  method AppendFields(values: seq<Arg>, head: seq<Byte>) returns (r: Try<seq<Byte>>)
    ensures r == match FieldsOf(values)
                 case Ok(fs) => Ok(head + FieldsBytes(fs))
                 case Fails(error) => Fails(error)
  {
    var buf := head;
    ghost var fs: seq<Field> := [];
    for i := 0 to |values|
      invariant FieldsOf(values[..i]) == Ok(fs) && buf == head + FieldsBytes(fs)
    {
      var e := EncodeArgument(buf, values[i]);
      assert values[..i + 1][..i] == values[..i];
      if e.Fails? {
        FieldsOfPrefix(values, i + 1);
        return e;
      }
      OneMoreField(head, fs, FieldOf(values[i]).value);
      fs := fs + [FieldOf(values[i]).value];
      buf := e.value;
    }
    assert values[..|values|] == values;
    return Ok(buf);
  }

  method AppendRow(values: seq<Arg>, columns: nat, buf: seq<Byte>) returns (r: Try<seq<Byte>>)
    ensures r == match RowOf(RowValues(values), columns)
                 case Ok(row) => Ok(buf + RowBytes(row))
                 case Fails(error) => Fails(error)
  {
    if |values| != columns {
      return Fails(CountMismatch);
    }
    var head := buf + Int16(columns);
    r := AppendFields(values, head);
    if r.Ok? {
      Reassociate(buf, Int16(columns), FieldsBytes(FieldsOf(values).value));
    }
  }

  method BuildCopyBuf(src: RowSource, columns: nat, buf0: seq<Byte>)
    returns (more: bool, buf: seq<Byte>, err: Option<Error>)
    requires src.nexts <= |src.steps|
    modifies src
    ensures match Build(src.steps, columns, old(src.nexts), buf0)
            case Broke(error) => err == Some(error)
            case More(k, b) => err == None && more && buf == b && src.nexts == k
            case Last(b) => err == None && !more && buf == b && src.nexts == |src.steps| + 1
  {
    buf := buf0;
    while true
      invariant src.nexts <= |src.steps|
      invariant Build(src.steps, columns, old(src.nexts), buf0) == Build(src.steps, columns, src.nexts, buf)
      decreases |src.steps| - src.nexts
    {
      var next := src.Next();
      if !next {
        return false, buf, None;
      }
      var step := src.Values();
      if step.RowError? {
        return false, [], Some(step.error);
      }
      var r := AppendRow(step.values, columns, buf);
      if r.Fails? {
        return false, [], Some(r.error);
      }
      buf := r.value;
      if |buf| > CHUNK {
        return true, buf, None;
      }
    }
  }

  // ---- the producer ----

  /** How the producer closes its end of the pipe: with the error, or with none. */
  type Ending = Option<Error>

  datatype Plan = Plan(chunks: seq<seq<Byte>>, ending: Ending)

  /** What the producer writes when nobody stops it. */
  function Planned(steps: seq<RowStep>, report: Option<Report>, columns: nat, k: nat, buf: seq<Byte>): Plan
    requires k <= |steps|
    decreases |steps| - k
  {
    match Build(steps, columns, k, buf)
    case Broke(error) => Plan([], Some(error))
    case Last(b) =>
      if Reported(report, |steps| + 1).Some? then Plan([], Reported(report, |steps| + 1))
      else Plan(if b == [] then [] else [b], None)
    case More(k', b) =>
      if Reported(report, k').Some? then Plan([], Reported(report, k'))
      else
        var rest := Planned(steps, report, columns, k', []);
        Plan([b] + rest.chunks, rest.ending)
  }

  function CopyPlan(steps: seq<RowStep>, report: Option<Report>, columns: nat): Plan {
    Planned(steps, report, columns, 0, HEADER)
  }

  /** The producer's loop, with every chunk it writes taken by the reader. */
  method Produce(src: RowSource, columns: nat) returns (chunks: seq<seq<Byte>>, ending: Ending)
    requires src.nexts == 0
    modifies src
    ensures Plan(chunks, ending) == CopyPlan(src.steps, src.report, columns)
  {
    var buf := HEADER;
    var moreRows := true;
    chunks := [];
    while moreRows
      invariant moreRows ==> src.nexts <= |src.steps|
      invariant moreRows ==>
                  var p := Planned(src.steps, src.report, columns, src.nexts, buf);
                  CopyPlan(src.steps, src.report, columns) == Plan(chunks + p.chunks, p.ending)
      invariant !moreRows ==> CopyPlan(src.steps, src.report, columns) == Plan(chunks, None)
      decreases moreRows, |src.steps| - src.nexts
    {
      var err;
      ghost var p := Planned(src.steps, src.report, columns, src.nexts, buf);
      moreRows, buf, err := BuildCopyBuf(src, columns, buf);
      if err.Some? {
        return chunks, err;
      }
      if src.Err().Some? {
        return chunks, src.Err();
      }
      if |buf| > 0 {
        assert moreRows ==> chunks + p.chunks == (chunks + [buf]) + p.chunks[1..];
        chunks := chunks + [buf];
      }
      buf := [];
    }
    return chunks, None;
  }

  // ---- which error it meets ----

  /**
   The first error that the producer meets, found row by row: `size` counts the bytes not written yet, and the
   source is asked for its error only when they are written.
   */
  function FirstError(steps: seq<RowStep>, report: Option<Report>, columns: nat, k: nat, size: nat): Option<Error>
    requires k <= |steps|
    decreases |steps| - k
  {
    if k == |steps| then Reported(report, k + 1)
    else match RowOf(steps[k], columns)
      case Fails(error) => Some(error)
      case Ok(row) =>
        var size' := size + |RowBytes(row)|;
        if size' <= CHUNK then FirstError(steps, report, columns, k + 1, size')
        else if Reported(report, k + 1).Some? then Reported(report, k + 1)
        else FirstError(steps, report, columns, k + 1, 0)
  }

  lemma {:induction false} EndsWithFirstError(
    steps: seq<RowStep>, report: Option<Report>, columns: nat, k: nat, buf: seq<Byte>)
    requires k <= |steps|
    ensures Planned(steps, report, columns, k, buf).ending == FirstError(steps, report, columns, k, |buf|)
    decreases |steps| - k
  {
    if k < |steps| && RowOf(steps[k], columns).Ok? {
      var buf' := buf + RowBytes(RowOf(steps[k], columns).value);
      if |buf'| > CHUNK {
        assert Build(steps, columns, k, buf) == More(k + 1, buf');
        EndsWithFirstError(steps, report, columns, k + 1, []);
      } else {
        assert Build(steps, columns, k, buf) == Build(steps, columns, k + 1, buf');
        assert Planned(steps, report, columns, k, buf) == Planned(steps, report, columns, k + 1, buf');
        EndsWithFirstError(steps, report, columns, k + 1, buf');
      }
    }
  }

  // ---- what the chunks hold ----

  ghost predicate Good(steps: seq<RowStep>, columns: nat, lo: nat, hi: nat) {
    lo <= hi <= |steps| && forall k :: lo <= k < hi ==> RowOf(steps[k], columns).Ok?
  }

  /** The rows of the steps from `lo` up to `hi`. */
  ghost function Range(steps: seq<RowStep>, columns: nat, lo: nat, hi: nat): seq<Row>
    requires Good(steps, columns, lo, hi)
  {
    seq(hi - lo, j requires 0 <= j < hi - lo => RowOf(steps[lo + j], columns).value)
  }

  lemma RangeConcat(steps: seq<RowStep>, columns: nat, lo: nat, mid: nat, hi: nat)
    requires Good(steps, columns, lo, mid) && Good(steps, columns, mid, hi)
    ensures Good(steps, columns, lo, hi)
    ensures RowsBytes(Range(steps, columns, lo, hi))
         == RowsBytes(Range(steps, columns, lo, mid)) + RowsBytes(Range(steps, columns, mid, hi))
  {
    var a, b := Range(steps, columns, lo, mid), Range(steps, columns, mid, hi);
    assert Range(steps, columns, lo, hi) == a + b;
    RowsConcat(a, b);
  }

  lemma RangeOne(steps: seq<RowStep>, columns: nat, k: nat)
    requires Good(steps, columns, k, k + 1)
    ensures RowsBytes(Range(steps, columns, k, k + 1)) == RowBytes(RowOf(steps[k], columns).value)
  {
    var row := RowOf(steps[k], columns).value;
    assert Range(steps, columns, k, k + 1) == [row];
    RowsOne(row);
  }

  /** Without its last row, that of the step before `k`, a chunk is not over 65536 bytes. */
  ghost predicate Needed(steps: seq<RowStep>, columns: nat, k: nat, chunk: seq<Byte>) {
    0 < k <= |steps| && RowOf(steps[k - 1], columns).Ok? ==>
      |chunk| - |RowBytes(RowOf(steps[k - 1], columns).value)| <= 65536
  }

  /** A chunk holds what the buffer held, and the next rows, whole; and no more of them than it takes to fill it. */
  ghost predicate BuildIs(steps: seq<RowStep>, columns: nat, k: nat, buf: seq<Byte>, b: Built) {
    && (b.Broke? <==> !Good(steps, columns, k, |steps|) && !b.More?)
    && (!b.Broke? ==>
          var k' := if b.More? then b.k else |steps|;
          && Good(steps, columns, k, k') && b.buf == buf + RowsBytes(Range(steps, columns, k, k'))
          && (|buf| <= CHUNK ==> Needed(steps, columns, k', b.buf)))
  }

  lemma OneRowMore(steps: seq<RowStep>, columns: nat, k: nat, buf: seq<Byte>, b: Built)
    requires k < |steps| && RowOf(steps[k], columns).Ok?
    requires BuildIs(steps, columns, k + 1, buf + RowBytes(RowOf(steps[k], columns).value), b)
    requires |buf + RowBytes(RowOf(steps[k], columns).value)| <= CHUNK
    ensures BuildIs(steps, columns, k, buf, b)
  {
    RangeOne(steps, columns, k);
    if !b.Broke? {
      var k' := if b.More? then b.k else |steps|;
      RangeConcat(steps, columns, k, k + 1, k');
      Reassociate(buf, RowBytes(RowOf(steps[k], columns).value), RowsBytes(Range(steps, columns, k + 1, k')));
    }
  }

  lemma {:induction false} BuildHolds(steps: seq<RowStep>, columns: nat, k: nat, buf: seq<Byte>)
    requires k <= |steps|
    ensures BuildIs(steps, columns, k, buf, Build(steps, columns, k, buf))
    decreases |steps| - k
  {
    if k == |steps| {
      assert Range(steps, columns, k, k) == [];
      assert buf + RowsBytes([]) == buf;
    } else if RowOf(steps[k], columns).Ok? {
      var buf' := buf + RowBytes(RowOf(steps[k], columns).value);
      RangeOne(steps, columns, k);
      if |buf'| <= CHUNK {
        BuildHolds(steps, columns, k + 1, buf');
        OneRowMore(steps, columns, k, buf, Build(steps, columns, k + 1, buf'));
      }
    }
  }

  /** The first `i` chunks are some first rows, whole; each is over 65536 bytes, but the last of a clean stream. */
  ghost predicate Holds(steps: seq<RowStep>, columns: nat, k: nat, buf: seq<Byte>, p: Plan, i: nat, upTo: nat)
    requires k <= |steps| && 0 < i <= |p.chunks|
  {
    && Good(steps, columns, k, upTo)
    && Join(p.chunks[..i]) == buf + RowsBytes(Range(steps, columns, k, upTo))
    && (i < |p.chunks| || p.ending.Some? ==> |p.chunks[i - 1]| > 65536) && Needed(steps, columns, upTo, p.chunks[i - 1])
    && (i == |p.chunks| && p.ending == None ==> upTo == |steps|)
  }

  lemma HoldsFirst(
    steps: seq<RowStep>, columns: nat, k: nat, buf: seq<Byte>, b: seq<Byte>, upTo: nat, rest: Plan)
    requires k <= |steps| && Good(steps, columns, k, upTo)
    requires b == buf + RowsBytes(Range(steps, columns, k, upTo))
    requires (rest.chunks != [] || rest.ending.Some? ==> |b| > CHUNK) && Needed(steps, columns, upTo, b)
    requires rest.chunks == [] && rest.ending == None ==> upTo == |steps|
    ensures Holds(steps, columns, k, buf, Plan([b] + rest.chunks, rest.ending), 1, upTo)
  {
  }

  lemma HoldsNext(
    steps: seq<RowStep>, columns: nat, k: nat, buf: seq<Byte>, k': nat, b: seq<Byte>, rest: Plan, i: nat, upTo: nat)
    requires k <= k' && Good(steps, columns, k, k') && b == buf + RowsBytes(Range(steps, columns, k, k'))
    requires 1 < i <= |rest.chunks| + 1 && Holds(steps, columns, k', [], rest, i - 1, upTo)
    ensures Holds(steps, columns, k, buf, Plan([b] + rest.chunks, rest.ending), i, upTo)
  {
    var p := Plan([b] + rest.chunks, rest.ending);
    assert p.chunks[..i] == [b] + rest.chunks[..i - 1];
    assert p.chunks[i - 1] == rest.chunks[i - 2];
    JoinConcat([b], rest.chunks[..i - 1]);
    JoinOne(b);
    RangeConcat(steps, columns, k, k', upTo);
    Reassociate(buf, RowsBytes(Range(steps, columns, k, k')), RowsBytes(Range(steps, columns, k', upTo)));
  }

  lemma PlanHolds(
    steps: seq<RowStep>, report: Option<Report>, columns: nat, k: nat, buf: seq<Byte>, i: nat)
    returns (upTo: nat)
    requires k <= |steps| && |buf| <= CHUNK && 0 < i <= |Planned(steps, report, columns, k, buf).chunks|
    ensures Holds(steps, columns, k, buf, Planned(steps, report, columns, k, buf), i, upTo)
    decreases |steps| - k
  {
    BuildHolds(steps, columns, k, buf);
    var b := Build(steps, columns, k, buf);
    if b.Last? {
      upTo := |steps|;
      HoldsFirst(steps, columns, k, buf, b.buf, upTo, Plan([], None));
    } else {
      var rest := Planned(steps, report, columns, b.k, []);
      if i == 1 {
        upTo := b.k;
        NoMoreRows(steps, report, columns, b.k);
        HoldsFirst(steps, columns, k, buf, b.buf, upTo, rest);
      } else {
        upTo := PlanHolds(steps, report, columns, b.k, [], i - 1);
        HoldsNext(steps, columns, k, buf, b.k, b.buf, rest, i, upTo);
      }
    }
  }

  /** A clean plan without chunks has no rows left. */
  lemma {:induction false} NoMoreRows(steps: seq<RowStep>, report: Option<Report>, columns: nat, k: nat)
    requires k <= |steps|
    ensures var p := Planned(steps, report, columns, k, []); p.chunks == [] && p.ending == None ==> k == |steps|
  {
    BuildHolds(steps, columns, k, []);
    var b := Build(steps, columns, k, []);
    if b.Last? && k < |steps| {
      RangeConcat(steps, columns, k, k + 1, |steps|);
      RangeOne(steps, columns, k);
    }
  }

  /** The stream ends cleanly exactly when every row can be encoded and the source never reports an error. */
  lemma {:induction false} CleanExactly(
    steps: seq<RowStep>, report: Option<Report>, columns: nat, k: nat, buf: seq<Byte>)
    requires k <= |steps|
    ensures Planned(steps, report, columns, k, buf).ending == None
       <==> Good(steps, columns, k, |steps|) && Reported(report, |steps| + 1).None?
    decreases |steps| - k
  {
    BuildHolds(steps, columns, k, buf);
    var b := Build(steps, columns, k, buf);
    if b.More? {
      CleanExactly(steps, report, columns, b.k, []);
    }
  }

  /**
   The first `i` chunks end between two rows, and chunk `i - 1` is over 65536 bytes unless it is the last of
   a clean stream, and would not be without its last row.
   */
  ghost predicate CutAt(steps: seq<RowStep>, columns: nat, p: Plan, i: nat) {
    0 < i <= |p.chunks| && exists k :: Holds(steps, columns, 0, HEADER, p, i, k)
  }

  /** Whatever the source does, every cut is between rows. */
  lemma EveryCut(steps: seq<RowStep>, report: Option<Report>, columns: nat)
    ensures var p := CopyPlan(steps, report, columns);
            forall i :: 0 < i <= |p.chunks| ==> CutAt(steps, columns, p, i)
  {
    var p := CopyPlan(steps, report, columns);
    forall i | 0 < i <= |p.chunks|
      ensures CutAt(steps, columns, p, i)
    {
      var k := PlanHolds(steps, report, columns, 0, HEADER, i);
    }
  }

  /**
   A source without errors: the chunks are the header and all the rows, wherever they were cut; every cut is
   between rows; every chunk but the last is over 65536 bytes, and none is without its last row; and the server reads
   all the rows back.
   */
  lemma ChunksCarryAllRows(steps: seq<RowStep>, columns: nat)
    requires Good(steps, columns, 0, |steps|)
    ensures var p, rows := CopyPlan(steps, None, columns), Range(steps, columns, 0, |steps|);
            && p.ending == None
            && Join(p.chunks) == HEADER + RowsBytes(rows)
            && (FitsRows(rows) ==> ReadCopy(Join(p.chunks)) == Some(rows))
    ensures var p := CopyPlan(steps, None, columns);
            && (forall i :: 0 < i <= |p.chunks| ==> CutAt(steps, columns, p, i))
            && (forall i :: 0 <= i < |p.chunks| - 1 ==> |p.chunks[i]| > 65536)
  {
    var p, rows := CopyPlan(steps, None, columns), Range(steps, columns, 0, |steps|);
    CleanExactly(steps, None, columns, 0, HEADER);
    EveryCut(steps, None, columns);
    CleanCarriesAll(steps, None, columns);
    forall i | 0 <= i < |p.chunks| - 1
      ensures |p.chunks[i]| > 65536
    {
      assert CutAt(steps, columns, p, i + 1);
    }
    if FitsRows(rows) { CopyReadsBack(rows); }
  }

  /** A clean ending means that the header and every row were written. */
  lemma CleanCarriesAll(steps: seq<RowStep>, report: Option<Report>, columns: nat)
    requires CopyPlan(steps, report, columns).ending == None
    ensures Good(steps, columns, 0, |steps|) && Reported(report, |steps| + 1).None?
    ensures Join(CopyPlan(steps, report, columns).chunks)
         == HEADER + RowsBytes(Range(steps, columns, 0, |steps|))
  {
    var p := CopyPlan(steps, report, columns);
    CleanExactly(steps, report, columns, 0, HEADER);
    BuildHolds(steps, columns, 0, HEADER);
    var k := PlanHolds(steps, report, columns, 0, HEADER, |p.chunks|);
    assert p.chunks[..|p.chunks|] == p.chunks;
  }

  /** No chunk is empty, so every write has something for the reader. */
  lemma {:induction false} ChunksAreFull(
    steps: seq<RowStep>, report: Option<Report>, columns: nat, k: nat, buf: seq<Byte>)
    requires k <= |steps|
    ensures forall c :: c in Planned(steps, report, columns, k, buf).chunks ==> c != []
    decreases |steps| - k
  {
    var b := Build(steps, columns, k, buf);
    if b.More? {
      ChunksAreFull(steps, report, columns, b.k, []);
    }
  }

  /** A source whose second row fails with end-of-file, after a first row that fills a chunk. */
  function EofSource(bytes: seq<Byte>): seq<RowStep> {
    [RowValues([Str(bytes)]), RowError(Eof)]
  }

  lemma EofSourceEnds(bytes: seq<Byte>)
    requires |bytes| > CHUNK
    ensures CopyPlan(EofSource(bytes), None, 1) == Plan([HEADER + RowBytes([Value(bytes)])], Some(Eof))
    ensures FirstError(EofSource(bytes), None, 1, 0, |HEADER|) == Some(Eof)
  {
    var steps, row := EofSource(bytes), [Value(bytes)];
    assert [Str(bytes)][..0] == [] && FieldsOf([Str(bytes)]) == Ok([] + row);
    assert [] + row == row;
    assert RowOf(steps[0], 1) == Ok(row);
    FieldsOne(Value(bytes));
    assert |RowBytes(row)| > CHUNK;
    assert Build(steps, 1, 0, HEADER) == More(1, HEADER + RowBytes(row));
    assert Build(steps, 1, 1, []) == Broke(Eof);
    EndsWithFirstError(steps, None, 1, 0, HEADER);
  }
}
