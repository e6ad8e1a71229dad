/**
 The rows of a query result: read one by one, closed once, with an error that sticks. While the rows are
 open their connection is busy; the pool takes a connection back only when it is not.
 */
module ResultRows {
  import opened Basics

  datatype Error = ReaderError(code: int) | CountMismatch | ScanArgError(column: nat, code: int)
                 | DecodeError(code: int) | RowsClosed | NoRows | QueryError(code: int)

  /** How a call ends. Panics are those of a reader that is not there and of an index out of range. */
  datatype Call<T> = Returned(value: T) | Panicked

  type RawRow = seq<Option<string>>

  /** What the server sends, and what closing its readers reports. There is no reader when the query failed early. */
  datatype Source = Source(
    reader: bool, fields: nat, rows: seq<RawRow>, closeError: Option<Error>, multi: bool, multiError: Option<Error>)

  /** `read` rows were taken from the reader; `closes` and `multiCloses` count the calls that close the readers. */
  datatype State = State(
    closed: bool, err: Option<Error>, rowCount: nat, values: RawRow, read: nat, closes: nat, multiCloses: nat)

  /** As made by `getRows`, before the query is sent. */
  const FRESH := State(false, None, 0, [], 0, 0, 0)

  // ---- the operations, on values ----

  function Or(first: Option<Error>, second: Option<Error>): Option<Error> {
    if first.Some? then first else second
  }

  function Closed(s: State, src: Source): State {
    if s.closed then s
    else
      var e1 := if src.reader then Or(s.err, src.closeError) else s.err;
      var e2 := if src.multi then Or(e1, src.multiError) else e1;
      s.(closed := true, err := e2,
         closes := s.closes + if src.reader then 1 else 0,
         multiCloses := s.multiCloses + if src.multi then 1 else 0)
  }

  function Fatal(s: State, src: Source, err: Option<Error>): State {
    if s.err.Some? then s else Closed(s.(err := err), src)
  }

  function Advanced(s: State, src: Source): (State, Call<bool>) {
    if s.closed then (s, Returned(false))
    else if !src.reader then (s, Panicked)
    else if s.read < |src.rows| then
      (s.(read := s.read + 1, rowCount := s.rowCount + 1, values := src.rows[s.read]), Returned(true))
    else (Closed(s, src), Returned(false))
  }

  /** What scanning into a destination does: nothing for a nil one, else succeed or fail. */
  datatype Dest = Skip | Takes | Refuses(code: int)

  function FirstRefusal(dests: seq<Dest>, i: nat): Option<Error>
    requires i <= |dests|
    decreases |dests| - i
  {
    if i == |dests| then None
    else if dests[i].Refuses? then Some(ScanArgError(i, dests[i].code))
    else FirstRefusal(dests, i + 1)
  }

  function ScanError(s: State, src: Source, dests: seq<Dest>): Option<Error> {
    if src.fields != |s.values| || src.fields != |dests| then Some(CountMismatch) else FirstRefusal(dests, 0)
  }

  function Scanned(s: State, src: Source, dests: seq<Dest>): (State, Call<Option<Error>>) {
    if !src.reader then (s, Panicked)
    else
      var e := ScanError(s, src, dests);
      (if e.Some? then Fatal(s, src, e) else s, Returned(e))
  }

  /**
   Decoding the columns from `i` on; `fails` says which cannot be decoded. NULL needs no decoding. The columns
   are counted by the fields, so a row with fewer values is read beyond its end.
   */
  function Decoded(s: State, src: Source, fails: nat -> Option<int>, i: nat): (State, Call<Option<Error>>)
    requires i <= src.fields
    decreases src.fields - i
  {
    if i == src.fields then (s, Returned(s.err))
    else if i >= |s.values| then (s, Panicked)
    else if s.values[i].Some? && fails(i).Some? then
      var t := Fatal(s, src, Some(DecodeError(fails(i).value)));
      (t, Returned(t.err))
    else Decoded(s, src, fails, i + 1)
  }

  function ValuesOf(s: State, src: Source, fails: nat -> Option<int>): (State, Call<Option<Error>>) {
    if s.closed then (s, Returned(Some(RowsClosed)))
    else if !src.reader then (s, Panicked)
    else Decoded(s, src, fails, 0)
  }

  /** Column `i` has a value that cannot be decoded. */
  predicate BadColumn(s: State, fails: nat -> Option<int>, i: nat)
    requires i < |s.values|
  {
    s.values[i].Some? && fails(i).Some?
  }

  lemma {:induction false} DecodedPanics(s: State, src: Source, fails: nat -> Option<int>, i: nat)
    requires i <= src.fields && i <= |s.values|
    ensures Decoded(s, src, fails, i).1.Panicked?
       <==> |s.values| < src.fields && forall k: nat :: i <= k < |s.values| ==> !BadColumn(s, fails, k)
    decreases src.fields - i
  {
    if i < src.fields && i < |s.values| && !BadColumn(s, fails, i) {
      DecodedPanics(s, src, fails, i + 1);
    }
  }

  /**
   Reading the values of open rows panics exactly when there is no reader, or when the row has fewer values than
   there are fields and all of them can be decoded. Before the first row there are no values at all.
   */
  lemma ValuesPanicExactly(s: State, src: Source, fails: nat -> Option<int>)
    ensures ValuesOf(s, src, fails).1.Panicked?
       <==> && !s.closed
            && (|| !src.reader
                || (|s.values| < src.fields && forall k: nat :: k < |s.values| ==> !BadColumn(s, fails, k)))
  {
    DecodedPanics(s, src, fails, 0);
  }

  /** Values are asked for before the first row: there are none, and the first field is beyond them. */
  lemma ValuesBeforeNext(src: Source, fails: nat -> Option<int>)
    requires src.reader && src.fields > 0
    ensures ValuesOf(FRESH, src, fails) == (FRESH, Panicked)
  {
    ValuesPanicExactly(FRESH, src, fails);
    DecodedKeeps(FRESH, src, fails, 0);
  }

  // ---- any run ----

  datatype Op =
    | Close | Next | Scan(dests: seq<Dest>) | Values(fails: nat -> Option<int>) | Fail(err: Option<Error>)

  /** One call. One that panics leaves the rows as they are. */
  function Step(s: State, src: Source, op: Op): State {
    match op
    case Close => Closed(s, src)
    case Next => Advanced(s, src).0
    case Scan(dests) => Scanned(s, src, dests).0
    case Values(fails) => ValuesOf(s, src, fails).0
    case Fail(err) => Fatal(s, src, err)
  }

  function Run(s: State, src: Source, ops: seq<Op>): State
    decreases ops
  {
    if ops == [] then s else Run(Step(s, src, ops[0]), src, ops[1..])
  }

  predicate Busy(s: State, src: Source) {
    (src.reader && s.closes == 0) || (src.multi && s.multiCloses == 0)
  }

  /**
   An error means closed; the readers are closed once, when the rows are; then the connection is not busy. The values
   are those of the row last read.
   */
  ghost predicate Inv(s: State, src: Source) {
    && (s.err.Some? ==> s.closed)
    && s.closes == (if s.closed && src.reader then 1 else 0)
    && s.multiCloses == (if s.closed && src.multi then 1 else 0)
    && s.read == s.rowCount <= |src.rows|
    && s.values == (if s.rowCount == 0 then [] else src.rows[s.rowCount - 1])
  }

  lemma {:induction false} DecodedKeeps(s: State, src: Source, fails: nat -> Option<int>, i: nat)
    requires Inv(s, src) && !s.closed && i <= src.fields
    ensures var (t, e) := Decoded(s, src, fails, i);
            Inv(t, src) && t.rowCount == s.rowCount && (e.Panicked? ==> t == s) && (e.Returned? ==> e.value == t.err)
    decreases src.fields - i
  {
    if i < src.fields && i < |s.values| && !BadColumn(s, fails, i) {
      DecodedKeeps(s, src, fails, i + 1);
    }
  }

  lemma StepKeeps(s: State, src: Source, op: Op)
    requires Inv(s, src)
    ensures Inv(Step(s, src, op), src)
    ensures s.err.Some? ==> Step(s, src, op).err == s.err
    ensures s.closed ==> Step(s, src, op) == s.(err := Step(s, src, op).err)
    ensures s.closed && !op.Scan? && !op.Fail? ==> Step(s, src, op) == s
  {
    if op.Values? && !s.closed {
      DecodedKeeps(s, src, op.fails, 0);
    }
  }

  /**
   Over any run of calls: an error once reported is never changed, and means that the rows are closed;
   each reader is closed at most once, and is closed as soon as the rows are; rows once closed stay closed,
   yield no more rows, and leave the connection free; and the values are those of the row that was read last.
   */
  lemma {:induction false} RunKeeps(s: State, src: Source, ops: seq<Op>)
    requires Inv(s, src)
    ensures var t := Run(s, src, ops);
            && Inv(t, src)
            && (s.err.Some? ==> t.err == s.err)
            && (s.closed ==> t.closed && t.rowCount == s.rowCount && Advanced(t, src).1 == Returned(false))
            && (t.closed ==> !Busy(t, src))
            && (t.rowCount > 0 ==> t.rowCount <= |src.rows| && t.values == src.rows[t.rowCount - 1])
    decreases ops
  {
    if ops != [] {
      StepKeeps(s, src, ops[0]);
      RunKeeps(Step(s, src, ops[0]), src, ops[1..]);
    }
  }

  // ---- what a call does ----

  /** The error of closing: that of the reader, and else that of the readers around it. */
  function Closing(src: Source): Option<Error> {
    if src.reader && src.closeError.Some? then src.closeError else if src.multi then src.multiError else None
  }

  /** Destination `i` is the first to refuse. */
  ghost predicate RefusesFirst(dests: seq<Dest>, i: nat) {
    i < |dests| && dests[i].Refuses? && forall j :: 0 <= j < i ==> !dests[j].Refuses?
  }

  lemma {:induction false} FirstRefusalExactly(dests: seq<Dest>, k: nat)
    requires k <= |dests| && forall j :: 0 <= j < k ==> !dests[j].Refuses?
    ensures var e := FirstRefusal(dests, k);
            if e.Some? then exists i: nat :: RefusesFirst(dests, i) && e == Some(ScanArgError(i, dests[i].code))
            else forall j :: 0 <= j < |dests| ==> !dests[j].Refuses?
    decreases |dests| - k
  {
    if k < |dests| {
      if dests[k].Refuses? {
        assert RefusesFirst(dests, k);
      } else {
        FirstRefusalExactly(dests, k + 1);
      }
    }
  }

  /** Column `i` is the first that cannot be decoded. */
  ghost predicate FailsFirst(s: State, fails: nat -> Option<int>, i: nat) {
    i < |s.values| && BadColumn(s, fails, i) && forall j :: 0 <= j < i ==> !BadColumn(s, fails, j)
  }

  lemma {:induction false} DecodedExactly(s: State, src: Source, fails: nat -> Option<int>, k: nat)
    requires Inv(s, src) && !s.closed && src.fields == |s.values| && k <= src.fields
    requires forall j :: 0 <= j < k ==> !BadColumn(s, fails, j)
    ensures var (t, e) := Decoded(s, src, fails, k);
            || (t == s && e == Returned(None) && forall j :: 0 <= j < |s.values| ==> !BadColumn(s, fails, j))
            || (exists i: nat :: FailsFirst(s, fails, i) && Ends(s, t, DecodeError(fails(i).value))
                                 && e == Returned(Some(DecodeError(fails(i).value))))
    decreases src.fields - k
  {
    if k < src.fields {
      if BadColumn(s, fails, k) {
        assert FailsFirst(s, fails, k);
      } else {
        DecodedExactly(s, src, fails, k + 1);
      }
    }
  }

  /** The rows are closed with this error, after as many rows as before. */
  predicate Ends(s: State, t: State, e: Error) {
    t.closed && t.err == Some(e) && t.rowCount == s.rowCount && t.values == s.values
  }

  /** The rows are closed, with the error of closing if there is one. */
  predicate JustCloses(s: State, src: Source, t: State) {
    t.closed && t.err == Closing(src) && t.rowCount == s.rowCount && t.values == s.values
  }

  /**
   What a call does to open rows: the first error sticks, whatever closing says; the next row is the next one the
   server sent, and after the last the rows close; scanning fails for a wrong count or at the first refusal; and
   decoding at the first column that cannot be decoded.
   What asking for the values does when their number is not that of the fields is `ValuesPanicExactly`'s subject.
   */
  ghost predicate Does(s: State, src: Source, op: Op, t: State) {
    match op
    case Close => JustCloses(s, src, t)
    case Fail(e) => if e.Some? then Ends(s, t, e.value) else JustCloses(s, src, t)
    case Next =>
      if s.rowCount >= |src.rows| then JustCloses(s, src, t)
      else t == s.(rowCount := s.rowCount + 1, read := s.read + 1, values := src.rows[s.rowCount])
    case Scan(dests) =>
      if |s.values| != src.fields || |dests| != src.fields then Ends(s, t, CountMismatch)
      else || (t == s && forall j :: 0 <= j < |dests| ==> !dests[j].Refuses?)
           || exists i: nat :: RefusesFirst(dests, i) && Ends(s, t, ScanArgError(i, dests[i].code))
    case Values(fails) =>
      |s.values| == src.fields ==>
        || (t == s && forall j :: 0 <= j < |s.values| ==> !BadColumn(s, fails, j))
        || exists i: nat :: FailsFirst(s, fails, i) && Ends(s, t, DecodeError(fails(i).value))
  }

  lemma OpenRowsDo(s: State, src: Source, op: Op)
    requires Inv(s, src) && !s.closed && src.reader
    ensures Does(s, src, op, Step(s, src, op))
    ensures op.Next? ==> Advanced(s, src).1 == Returned(s.rowCount < |src.rows|)
    ensures op.Scan? ==> Scanned(s, src, op.dests).1 == Returned(Step(s, src, op).err)
    ensures op.Values? && |s.values| == src.fields ==>
              ValuesOf(s, src, op.fails).1 == Returned(Step(s, src, op).err)
  {
    match op
    case Close =>
    case Fail(_) =>
    case Next =>
    case Scan(dests) =>
      if |s.values| == src.fields == |dests| {
        FirstRefusalExactly(dests, 0);
      }
    case Values(fails) =>
      if |s.values| == src.fields {
        DecodedExactly(s, src, fails, 0);
      }
  }

  function Nexts(n: nat): seq<Op> {
    if n == 0 then [] else Nexts(n - 1) + [Next]
  }

  lemma {:induction false} RunOneMore(s: State, src: Source, ops: seq<Op>, op: Op)
    ensures Run(s, src, ops + [op]) == Step(Run(s, src, ops), src, op)
    decreases ops
  {
    if ops == [] {
      assert [] + [op] == [op] && [op][1..] == [];
    } else {
      assert (ops + [op])[1..] == ops[1..] + [op];
      RunOneMore(Step(s, src, ops[0]), src, ops[1..], op);
    }
  }

  /** Reading new rows one by one shows every row the server sent, in order, and then closes them. */
  lemma {:induction false} EveryRowInOrder(src: Source, n: nat)
    requires src.reader && n <= |src.rows|
    ensures var t := Run(FRESH, src, Nexts(n));
            && !t.closed && t.err == None && t.rowCount == t.read == n && Inv(t, src)
            && (n > 0 ==> t.values == src.rows[n - 1])
            && (n == |src.rows| ==> Advanced(t, src).1 == Returned(false) && JustCloses(t, src, Advanced(t, src).0))
  {
    if n > 0 {
      EveryRowInOrder(src, n - 1);
      RunOneMore(FRESH, src, Nexts(n - 1), Next);
    }
  }

  // ---- the operations, in place ----

  class ConnRows {
    const src: Source
    var closed: bool
    var err: Option<Error>
    var rowCount: nat
    var values: RawRow
    var read: nat
    var closes: nat
    var multiCloses: nat

    constructor (src: Source)
      ensures this.src == src && View() == FRESH && Inv(View(), src)
    {
      this.src := src;
      closed, err, rowCount, values, read, closes, multiCloses := false, None, 0, [], 0, 0, 0;
    }

    ghost function View(): State
      reads this
    {
      State(closed, err, rowCount, values, read, closes, multiCloses)
    }

    method Close()
      modifies this
      ensures View() == Closed(old(View()), src)
    {
      if closed {
        return;
      }
      closed := true;
      if src.reader {
        closes := closes + 1;
        if err.None? {
          err := src.closeError;
        }
      }
      if src.multi {
        multiCloses := multiCloses + 1;
        if err.None? {
          err := src.multiError;
        }
      }
    }

    method Fail(e: Option<Error>)
      modifies this
      ensures View() == Fatal(old(View()), src, e)
    {
      if err.Some? {
        return;
      }
      err := e;
      Close();
    }

    method Next() returns (more: Call<bool>)
      modifies this
      ensures (View(), more) == Advanced(old(View()), src)
    {
      if closed {
        return Returned(false);
      }
      if !src.reader {
        return Panicked;
      }
      if read < |src.rows| {
        rowCount, values, read := rowCount + 1, src.rows[read], read + 1;
        return Returned(true);
      }
      Close();
      return Returned(false);
    }

    method Scan(dests: seq<Dest>) returns (e: Call<Option<Error>>)
      modifies this
      ensures (View(), e) == Scanned(old(View()), src, dests)
    {
      if !src.reader {
        return Panicked;
      }
      if src.fields != |values| || src.fields != |dests| {
        Fail(Some(CountMismatch));
        return Returned(Some(CountMismatch));
      }
      for i := 0 to |dests|
        invariant View() == old(View()) && FirstRefusal(dests, 0) == FirstRefusal(dests, i)
      {
        if dests[i].Refuses? {
          var refusal := Some(ScanArgError(i, dests[i].code));
          Fail(refusal);
          return Returned(refusal);
        }
      }
      e := Returned(None);
    }

    method ReadValues(fails: nat -> Option<int>) returns (e: Call<Option<Error>>)
      modifies this
      ensures (View(), e) == ValuesOf(old(View()), src, fails)
    {
      if closed {
        return Returned(Some(RowsClosed));
      }
      if !src.reader {
        return Panicked;
      }
      for i := 0 to src.fields
        invariant View() == old(View()) && Decoded(old(View()), src, fails, 0) == Decoded(View(), src, fails, i)
      {
        if i >= |values| {
          return Panicked;
        }
        if values[i].Some? && fails(i).Some? {
          Fail(Some(DecodeError(fails(i).value)));
          return Returned(err);
        }
      }
      e := Returned(err);
    }
  }

  /**
   `connRow.Scan`: one row and no more. It panics exactly when the rows are open without a reader; otherwise the
   rows are closed whatever happens. On new rows it succeeds exactly when the result has a row, the destinations
   take it, and closing reports nothing; a result without rows that closes well is reported as such.
   */
  method ScanRow(rows: ConnRows, dests: seq<Dest>) returns (e: Call<Option<Error>>)
    requires Inv(rows.View(), rows.src)
    modifies rows
    ensures Inv(rows.View(), rows.src)
    ensures e.Panicked? <==> !old(rows.closed) && !rows.src.reader
    ensures if e.Panicked? then rows.View() == old(rows.View()) else rows.closed && !Busy(rows.View(), rows.src)
    ensures old(rows.closed) ==>
              rows.View() == old(rows.View()) && e == Returned(Or(old(rows.err), Some(NoRows)))
    ensures old(rows.View()) == FRESH && rows.src.reader ==>
              var src := rows.src;
              var closing := Or(src.closeError, if src.multi then src.multiError else None);
              && rows.rowCount == (if src.rows == [] then 0 else 1)
              && e == Returned(if src.rows == [] then Or(closing, Some(NoRows))
                               else Or(ScanError(FRESH.(values := src.rows[0]), src, dests), closing))
  {
    if rows.err.Some? {
      return Returned(rows.err);
    }
    var more := rows.Next();
    if more.Panicked? {
      return Panicked;
    }
    if !more.value {
      if rows.err.None? {
        return Returned(Some(NoRows));
      }
      return Returned(rows.err);
    }
    var scanned := rows.Scan(dests);
    if scanned.Panicked? {
      return Panicked;
    }
    rows.Close();
    return Returned(rows.err);
  }
}
