/** The binary COPY format: big-endian integers, fields, rows, and a reader for them. */
module Wire {
  import opened Basics

  /** The 16 or 32 low bits of a number, most significant byte first. */
  function Int16(n: int): (b: seq<Byte>)
    ensures |b| == 2
  {
    var m := n % 0x1_0000;
    [m / 0x100, m % 0x100]
  }

  function Int32(n: int): (b: seq<Byte>)
    ensures |b| == 4
  {
    var m := n % 0x1_0000_0000;
    [m / 0x100_0000, m / 0x1_0000 % 0x100, m / 0x100 % 0x100, m % 0x100]
  }

  function ReadInt16(b: seq<Byte>): int
    requires |b| >= 2
  {
    var m := 0x100 * (b[0] as int) + b[1];
    if m < 0x8000 then m else m - 0x1_0000
  }

  function ReadInt32(b: seq<Byte>): int
    requires |b| >= 4
  {
    var m := 0x100_0000 * (b[0] as int) + 0x1_0000 * (b[1] as int) + 0x100 * (b[2] as int) + b[3];
    if m < 0x8000_0000 then m else m - 0x1_0000_0000
  }

  /** Most significant byte first, and -1 is all ones. */
  lemma IntsByteByByte()
    ensures Int16(0x0102) == [1, 2] && Int32(0x0102_0304) == [1, 2, 3, 4] && Int32(-1) == [0xFF, 0xFF, 0xFF, 0xFF]
    ensures ReadInt16([1, 2]) == 0x0102 && ReadInt32([1, 2, 3, 4]) == 0x0102_0304
  {
  }

  lemma FourBytes(m: int)
    requires 0 <= m < 0x1_0000_0000
    ensures 0x100_0000 * (m / 0x100_0000) + 0x1_0000 * (m / 0x1_0000 % 0x100) + 0x100 * (m / 0x100 % 0x100)
            + m % 0x100 == m
  {
    assert m / 0x100 / 0x100 == m / 0x1_0000 && m / 0x1_0000 / 0x100 == m / 0x100_0000;
  }

  lemma Int32ReadsBack(n: int, rest: seq<Byte>)
    requires -0x8000_0000 <= n < 0x8000_0000
    ensures ReadInt32(Int32(n) + rest) == n
  {
    var b := Int32(n);
    FourBytes(n % 0x1_0000_0000);
    assert (b + rest)[0] == b[0] && (b + rest)[1] == b[1] && (b + rest)[2] == b[2] && (b + rest)[3] == b[3];
  }

  // ---- fields and rows ----

  datatype Field = Null | Value(bytes: seq<Byte>)

  type Row = seq<Field>

  function FieldBytes(f: Field): seq<Byte> {
    match f
    case Null => Int32(-1)
    case Value(b) => Int32(|b|) + b
  }

  function Join(bs: seq<seq<Byte>>): seq<Byte> {
    if bs == [] then [] else bs[0] + Join(bs[1..])
  }

  lemma {:induction false} JoinConcat(a: seq<seq<Byte>>, b: seq<seq<Byte>>)
    ensures Join(a + b) == Join(a) + Join(b)
  {
    if a == [] {
      assert a + b == b;
    } else {
      JoinConcat(a[1..], b);
      assert (a + b)[0] == a[0] && (a + b)[1..] == a[1..] + b;
      Reassociate(a[0], Join(a[1..]), Join(b));
    }
  }

  lemma JoinOne(b: seq<Byte>)
    ensures Join([b]) == b
  {
    assert Join([b]) == b + Join([]);
  }

  lemma Reassociate(a: seq<Byte>, b: seq<Byte>, c: seq<Byte>)
    ensures (a + b) + c == a + (b + c) && (a + b) + ([] + c) == a + (b + c)
  {
  }

  function EachField(fs: seq<Field>): seq<seq<Byte>> {
    seq(|fs|, k requires 0 <= k < |fs| => FieldBytes(fs[k]))
  }

  function FieldsBytes(fs: seq<Field>): seq<Byte> {
    Join(EachField(fs))
  }

  function RowBytes(row: Row): seq<Byte> {
    Int16(|row|) + FieldsBytes(row)
  }

  function EachRow(rows: seq<Row>): seq<seq<Byte>> {
    seq(|rows|, k requires 0 <= k < |rows| => RowBytes(rows[k]))
  }

  function RowsBytes(rows: seq<Row>): seq<Byte> {
    Join(EachRow(rows))
  }

  lemma FieldsConcat(a: seq<Field>, b: seq<Field>)
    ensures FieldsBytes(a + b) == FieldsBytes(a) + FieldsBytes(b)
  {
    assert EachField(a + b) == EachField(a) + EachField(b);
    JoinConcat(EachField(a), EachField(b));
  }

  lemma FieldsOne(f: Field)
    ensures FieldsBytes([f]) == FieldBytes(f)
  {
    assert EachField([f]) == [FieldBytes(f)];
    JoinOne(FieldBytes(f));
  }

  lemma RowsConcat(a: seq<Row>, b: seq<Row>)
    ensures RowsBytes(a + b) == RowsBytes(a) + RowsBytes(b)
  {
    assert EachRow(a + b) == EachRow(a) + EachRow(b);
    JoinConcat(EachRow(a), EachRow(b));
  }

  lemma RowsOne(row: Row)
    ensures RowsBytes([row]) == RowBytes(row)
  {
    assert EachRow([row]) == [RowBytes(row)];
    JoinOne(RowBytes(row));
  }

  /** The signature, no flags, and no header extension. */
  const HEADER: seq<Byte> :=
    [0x50, 0x47, 0x43, 0x4F, 0x50, 0x59, 0x0A, 0xFF, 0x0D, 0x0A, 0x00] + [0, 0, 0, 0] + [0, 0, 0, 0]

  // ---- the reader ----

  /** One field: its value, and what follows it. A length of -1 is NULL; any other negative length is an error. */
  function ReadField(t: seq<Byte>): (r: Option<(Field, seq<Byte>)>)
    ensures r.Some? ==> |r.value.1| < |t|
  {
    if |t| < 4 then None
    else
      var n := ReadInt32(t);
      if n == -1 then Some((Null, t[4..]))
      else if n < 0 || 4 + n > |t| then None
      else Some((Value(t[4..4 + n]), t[4 + n..]))
  }

  function ReadFields(t: seq<Byte>, count: nat): (r: Option<(seq<Field>, seq<Byte>)>)
    ensures r.Some? ==> |r.value.1| <= |t|
  {
    if count == 0 then Some(([], t))
    else match ReadField(t)
      case None => None
      case Some((f, rest)) =>
        match ReadFields(rest, count - 1)
        case None => None
        case Some((fs, rest')) => Some(([f] + fs, rest'))
  }

  /** Rows up to the end of the stream. */
  function ReadRows(t: seq<Byte>): Option<seq<Row>>
    decreases |t|
  {
    if t == [] then Some([])
    else if |t| < 2 || ReadInt16(t) < 0 then None
    else match ReadFields(t[2..], ReadInt16(t))
      case None => None
      case Some((row, rest)) =>
        match ReadRows(rest)
        case None => None
        case Some(rows) => Some([row] + rows)
  }

  /** A whole stream: eleven bytes of signature, the flags, of which none is known here, an extension, and the rows. */
  function ReadCopy(t: seq<Byte>): Option<seq<Row>> {
    if |t| < 19 || t[..11] != [0x50, 0x47, 0x43, 0x4F, 0x50, 0x59, 0x0A, 0xFF, 0x0D, 0x0A, 0x00] then None
    else if ReadInt32(t[11..]) != 0 then None
    else
      var extension := ReadInt32(t[15..]);
      if extension < 0 || 19 + extension > |t| then None else ReadRows(t[19 + extension..])
  }

  predicate FitsField(f: Field) {
    f.Value? ==> |f.bytes| < 0x8000_0000
  }

  ghost predicate FitsRow(row: Row) {
    |row| < 0x8000 && forall k :: 0 <= k < |row| ==> FitsField(row[k])
  }

  ghost predicate FitsRows(rows: seq<Row>) {
    forall k :: 0 <= k < |rows| ==> FitsRow(rows[k])
  }

  lemma FieldReadsBack(f: Field, rest: seq<Byte>)
    requires FitsField(f)
    ensures ReadField(FieldBytes(f) + rest) == Some((f, rest))
  {
    var t := FieldBytes(f) + rest;
    match f
    case Null =>
      Int32ReadsBack(-1, rest);
      assert t[4..] == rest;
    case Value(b) =>
      Int32ReadsBack(|b|, b + rest);
      assert t == Int32(|b|) + (b + rest);
      assert t[4..4 + |b|] == b && t[4 + |b|..] == rest;
  }

  lemma FieldsCons(fs: seq<Field>, rest: seq<Byte>)
    requires fs != []
    ensures FieldsBytes(fs) + rest == FieldBytes(fs[0]) + (FieldsBytes(fs[1..]) + rest)
  {
    assert [fs[0]] + fs[1..] == fs;
    FieldsConcat([fs[0]], fs[1..]);
    FieldsOne(fs[0]);
  }

  lemma {:induction false} ReadFieldsStep(t: seq<Byte>, f: Field, t': seq<Byte>, fs: seq<Field>, rest: seq<Byte>)
    requires ReadField(t) == Some((f, t')) && ReadFields(t', |fs|) == Some((fs, rest))
    ensures ReadFields(t, |fs| + 1) == Some(([f] + fs, rest))
  {
  }

  lemma {:induction false} FieldsReadBack(fs: seq<Field>, rest: seq<Byte>)
    requires forall k :: 0 <= k < |fs| ==> FitsField(fs[k])
    ensures ReadFields(FieldsBytes(fs) + rest, |fs|) == Some((fs, rest))
    decreases fs
  {
    if fs == [] {
      assert FieldsBytes(fs) + rest == rest;
    } else {
      var tail := FieldsBytes(fs[1..]) + rest;
      FieldsReadBack(fs[1..], rest);
      FieldReadsBack(fs[0], tail);
      FieldsCons(fs, rest);
      ReadFieldsStep(FieldsBytes(fs) + rest, fs[0], tail, fs[1..], rest);
      assert [fs[0]] + fs[1..] == fs;
    }
  }

  lemma RowCountReadsBack(row: Row, tail: seq<Byte>)
    requires |row| < 0x8000
    ensures ReadInt16(RowBytes(row) + tail) == |row|
  {
  }

  lemma DropCount(count: seq<Byte>, fields: seq<Byte>, tail: seq<Byte>)
    requires |count| == 2
    ensures (count + fields + tail)[2..] == fields + tail
  {
  }

  lemma RowsReadBack(rows: seq<Row>)
    requires FitsRows(rows)
    ensures ReadRows(RowsBytes(rows)) == Some(rows)
  {
    if rows != [] {
      var row, rest := rows[0], rows[1..];
      RowsReadBack(rest);
      assert FitsRow(row);
      RowCountReadsBack(row, RowsBytes(rest));
      FieldsReadBack(row, RowsBytes(rest));
      DropCount(Int16(|row|), FieldsBytes(row), RowsBytes(rest));
      assert [row] + rest == rows;
      RowsConcat([row], rest);
      RowsOne(row);
    }
  }

  /** The header is nineteen bytes long, and all that a reader of the format wants before the rows. */
  lemma {:induction false} HeaderIsRead(rest: seq<Byte>)
    ensures |HEADER| == 19 && ReadCopy(HEADER + rest) == ReadRows(rest)
  {
    var t := HEADER + rest;
    assert t[11..][0] == t[11] && t[11..][1] == t[12] && t[11..][2] == t[13] && t[11..][3] == t[14];
    assert t[15..][0] == t[15] && t[15..][1] == t[16] && t[15..][2] == t[17] && t[15..][3] == t[18];
    assert t[..11] == [0x50, 0x47, 0x43, 0x4F, 0x50, 0x59, 0x0A, 0xFF, 0x0D, 0x0A, 0x00];
    assert t[19..] == rest;
  }

  /** The server reads back every field of every row, and tells NULL from an empty value. */
  lemma CopyReadsBack(rows: seq<Row>)
    requires FitsRows(rows)
    ensures ReadCopy(HEADER + RowsBytes(rows)) == Some(rows)
  {
    RowsReadBack(rows);
    HeaderIsRead(RowsBytes(rows));
  }
}
