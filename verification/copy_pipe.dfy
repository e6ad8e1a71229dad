/**
 The COPY producer and its reader as concurrent steps over a synchronous pipe. The producer reuses one
 buffer: a write blocks until the reader has taken every byte or has closed its end, and the reader takes
 bytes from the buffer itself, in pieces of any size. The caller may stop reading at any time.
 */
module CopyPipe {
  import opened Basics
  import opened Wire
  import opened CopyFrom

  datatype Producer = Building(i: nat) | Writing(i: nat, off: nat) | Stopped

  /** What the reader has been told of the end. */
  datatype Seen = Nothing | SawEof | SawError(error: Error)

  /** A reader gets the error that the pipe was closed with, and end-of-file if there was none. */
  function Told(ending: Ending): Seen {
    if ending == None || ending == Some(Eof) then SawEof else SawError(ending.value)
  }

  /** The caller of `run`: copying to the server, waiting for the producer with the reader closed, or gone. */
  datatype Caller = Copying | Waiting | Returned

  datatype State = State(
    producer: Producer, buf: seq<Byte>, closedWith: Option<Ending>, got: seq<Byte>, seen: Seen, caller: Caller)

  datatype Step = Build | Read(n: nat) | WriteReturns | WriteFails | SeeEnd | StopReading | Return

  function Init(): State {
    State(Building(0), [], None, [], Nothing, Copying)
  }

  predicate Enabled(s: State, step: Step) {
    match step
    case Build => s.producer.Building?
    case Read(n) =>
      s.caller == Copying && s.producer.Writing? && 0 < n && s.producer.off + n <= |s.buf|
    case WriteReturns => s.producer.Writing? && s.producer.off >= |s.buf|
    case WriteFails => s.producer.Writing? && s.caller != Copying
    case SeeEnd => s.caller == Copying && s.seen == Nothing && s.closedWith.Some?
    case StopReading => s.caller == Copying
    case Return => s.caller == Waiting && s.producer == Stopped
  }

  function Next(s: State, step: Step, plan: Plan): State
    requires Enabled(s, step)
  {
    match step
    case Build =>
      var i := s.producer.i;
      if i < |plan.chunks| then s.(buf := plan.chunks[i], producer := Writing(i, 0))
      else s.(producer := Stopped, closedWith := Some(plan.ending))
    case Read(n) =>
      var Writing(i, off) := s.producer;
      s.(got := s.got + s.buf[off..off + n], producer := Writing(i, off + n))
    case WriteReturns => s.(buf := [], producer := Building(s.producer.i + 1))
    case WriteFails => s.(producer := Stopped, closedWith := Some(None))
    case SeeEnd => s.(seen := Told(s.closedWith.value))
    case StopReading => s.(caller := Waiting)
    case Return => s.(caller := Returned)
  }

  /** `t` is reached from `s` by these steps, each enabled in its turn. */
  ghost predicate Reaches(s: State, steps: seq<Step>, plan: Plan, t: State)
    decreases steps
  {
    if steps == [] then s == t
    else Enabled(s, steps[0]) && Reaches(Next(s, steps[0], plan), steps[1..], plan, t)
  }

  // ---- what every step keeps ----

  ghost predicate Inv(s: State, plan: Plan) {
    && s.got <= Join(plan.chunks)
    && (match s.producer
        case Building(i) => i <= |plan.chunks| && s.got == Join(plan.chunks[..i]) && s.closedWith.None?
        case Writing(i, off) =>
          && i < |plan.chunks| && s.buf == plan.chunks[i] && off <= |s.buf| && s.closedWith.None?
          && s.got == Join(plan.chunks[..i]) + s.buf[..off]
        case Stopped =>
          && s.closedWith.Some?
          && (s.caller == Copying ==> s.closedWith == Some(plan.ending) && s.got == Join(plan.chunks)))
    && (s.seen != Nothing ==>
          s.producer == Stopped && s.seen == Told(plan.ending) && s.got == Join(plan.chunks))
    && (s.caller == Returned ==> s.producer == Stopped)
  }

  lemma {:induction false} JoinPrefix(chunks: seq<seq<Byte>>, i: nat)
    requires i <= |chunks|
    ensures Join(chunks[..i]) <= Join(chunks)
  {
    assert chunks == chunks[..i] + chunks[i..];
    JoinConcat(chunks[..i], chunks[i..]);
  }

  lemma {:induction false} JoinUpTo(chunks: seq<seq<Byte>>, i: nat)
    requires i < |chunks|
    ensures Join(chunks[..i + 1]) == Join(chunks[..i]) + chunks[i]
    ensures Join(chunks[..i]) + chunks[i] <= Join(chunks)
  {
    assert chunks[..i + 1] == chunks[..i] + [chunks[i]];
    JoinConcat(chunks[..i], [chunks[i]]);
    JoinOne(chunks[i]);
    JoinPrefix(chunks, i + 1);
  }

  lemma ReadKeeps(s: State, n: nat, plan: Plan)
    requires Inv(s, plan) && Enabled(s, Read(n))
    ensures Inv(Next(s, Read(n), plan), plan)
  {
    var Writing(i, off) := s.producer;
    JoinUpTo(plan.chunks, i);
    var before := Join(plan.chunks[..i]);
    assert before + s.buf[..off] + s.buf[off..off + n] == before + s.buf[..off + n];
    assert before + s.buf[..off + n] <= before + s.buf;
  }

  lemma StepKeeps(s: State, step: Step, plan: Plan)
    requires Inv(s, plan) && Enabled(s, step)
    ensures Inv(Next(s, step, plan), plan)
  {
    match step
    case Build =>
      var i := s.producer.i;
      if i < |plan.chunks| {
        assert plan.chunks[i][..0] == [];
      } else {
        assert plan.chunks[..i] == plan.chunks;
      }
    case Read(n) => ReadKeeps(s, n, plan);
    case WriteReturns =>
      JoinUpTo(plan.chunks, s.producer.i);
      assert s.buf[..s.producer.off] == s.buf;
    case WriteFails =>
    case SeeEnd =>
    case StopReading =>
    case Return =>
  }

  lemma {:induction false} RunKeeps(s: State, steps: seq<Step>, plan: Plan, t: State)
    requires Inv(s, plan) && Reaches(s, steps, plan, t)
    ensures Inv(t, plan)
    decreases steps
  {
    if steps != [] {
      StepKeeps(s, steps[0], plan);
      RunKeeps(Next(s, steps[0], plan), steps[1..], plan, t);
    }
  }

  // ---- every run ends, with the producer stopped ----

  /** What is left to do. */
  ghost function Left(s: State, plan: Plan): int {
    |Join(plan.chunks)| - |s.got|
    + (match s.producer
       case Building(i) => 2 * (|plan.chunks| - i) + 2
       case Writing(i, _) => 2 * (|plan.chunks| - i) + 1
       case Stopped => 0)
    + (if s.seen == Nothing then 1 else 0)
    + (match s.caller case Copying => 2 case Waiting => 1 case Returned => 0)
  }

  lemma StepProgresses(s: State, step: Step, plan: Plan)
    requires Inv(s, plan) && Enabled(s, step)
    ensures 0 <= Left(Next(s, step, plan), plan) < Left(s, plan)
  {
    StepKeeps(s, step, plan);
  }

  /** No interleaving goes on for ever. */
  lemma {:induction false} RunsAreBounded(s: State, steps: seq<Step>, plan: Plan, t: State)
    requires Inv(s, plan) && Reaches(s, steps, plan, t)
    ensures |steps| <= Left(s, plan) - Left(t, plan)
    decreases steps
  {
    if steps != [] {
      StepProgresses(s, steps[0], plan);
      StepKeeps(s, steps[0], plan);
      RunsAreBounded(Next(s, steps[0], plan), steps[1..], plan, t);
    }
  }

  /** A run that cannot go on has returned: the producer is never left blocked on its write. */
  lemma StuckMeansReturned(s: State, plan: Plan)
    requires Inv(s, plan) && forall step :: !Enabled(s, step)
    ensures s.caller == Returned && s.producer == Stopped
  {
    assert !Enabled(s, StopReading) && !Enabled(s, Build) && !Enabled(s, WriteFails) && !Enabled(s, Return);
  }

  // ---- what the end means ----

  /** The header and every row were read, and the source reported no error. */
  ghost predicate Complete(src: seq<RowStep>, report: Option<Report>, columns: nat, got: seq<Byte>) {
    && Good(src, columns, 0, |src|) && Reported(report, |src| + 1) == None
    && got == HEADER + RowsBytes(Range(src, columns, 0, |src|))
  }

  /** The first error that the producer meets. */
  function MeetsError(src: seq<RowStep>, report: Option<Report>, columns: nat): Option<Error> {
    FirstError(src, report, columns, 0, |HEADER|)
  }

  /**
   In every interleaving, over any source: what was read is a prefix of the planned bytes; an error that is seen
   is the first the producer met; end-of-file is seen only when all was read, unless that error is end-of-file
   itself; the caller returns only after the producer has stopped; and no interleaving goes on for ever.
   */
  lemma {:induction false} StreamIsSafe(
    src: seq<RowStep>, report: Option<Report>, columns: nat, steps: seq<Step>, t: State)
    requires Reaches(Init(), steps, CopyPlan(src, report, columns), t)
    ensures t.got <= Join(CopyPlan(src, report, columns).chunks)
    ensures t.seen.SawError? ==> MeetsError(src, report, columns) == Some(t.seen.error)
    ensures t.seen == SawEof && MeetsError(src, report, columns) != Some(Eof) ==>
              && Complete(src, report, columns, t.got)
              && var rows := Range(src, columns, 0, |src|); (FitsRows(rows) ==> ReadCopy(t.got) == Some(rows))
    ensures t.caller == Returned ==> t.producer == Stopped
    ensures |steps| <= Left(Init(), CopyPlan(src, report, columns))
  {
    var plan := CopyPlan(src, report, columns);
    assert plan.chunks[..0] == [];
    RunKeeps(Init(), steps, plan, t);
    RunsAreBounded(Init(), steps, plan, t);
    EndsWithFirstError(src, report, columns, 0, HEADER);
    if t.seen == SawEof && plan.ending == None {
      CleanCarriesAll(src, report, columns);
      var rows := Range(src, columns, 0, |src|);
      if FitsRows(rows) { CopyReadsBack(rows); }
    }
    LeftIsNat(t, plan);
  }

  lemma {:induction false} OneStep(s: State, step: Step, steps: seq<Step>, plan: Plan, t: State)
    requires Enabled(s, step) && Reaches(Next(s, step, plan), steps, plan, t)
    ensures Reaches(s, [step] + steps, plan, t)
  {
    assert ([step] + steps)[1..] == steps;
  }

  /** Nothing is being written, and the first `i` chunks were read. */
  function Between(plan: Plan, i: nat): State
    requires i <= |plan.chunks|
  {
    State(Building(i), [], None, Join(plan.chunks[..i]), Nothing, Copying)
  }

  /** From there the reader can take all that is left, and see the end. */
  lemma RunsThrough(plan: Plan, i: nat) returns (steps: seq<Step>, t: State)
    requires i <= |plan.chunks| && forall c :: c in plan.chunks ==> c != []
    ensures Reaches(Between(plan, i), steps, plan, t) && t.seen == Told(plan.ending)
    decreases |plan.chunks| - i
  {
    var s := Between(plan, i);
    var s1 := Next(s, Build, plan);
    if i == |plan.chunks| {
      t := Next(s1, SeeEnd, plan);
      OneStep(s1, SeeEnd, [], plan, t);
      OneStep(s, Build, [SeeEnd], plan, t);
      steps := [Build] + [SeeEnd];
    } else {
      var chunk := plan.chunks[i];
      assert chunk in plan.chunks;
      var read := Read(|chunk|);
      var s2 := Next(s1, read, plan);
      JoinUpTo(plan.chunks, i);
      assert chunk[0..|chunk|] == chunk;
      assert Next(s2, WriteReturns, plan) == Between(plan, i + 1);
      var rest;
      rest, t := RunsThrough(plan, i + 1);
      OneStep(s2, WriteReturns, rest, plan, t);
      OneStep(s1, read, [WriteReturns] + rest, plan, t);
      OneStep(s, Build, [read] + ([WriteReturns] + rest), plan, t);
      steps := [Build] + ([read] + ([WriteReturns] + rest));
    }
  }

  /** Whoever sees end-of-file has read everything. */
  ghost predicate EofMeansAll(src: seq<RowStep>, report: Option<Report>, columns: nat) {
    forall steps, t ::
      Reaches(Init(), steps, CopyPlan(src, report, columns), t) && t.seen == SawEof
      ==> Complete(src, report, columns, t.got)
  }

  /** In every interleaving end-of-file means that all was read, exactly if the first error met is not end-of-file. */
  lemma EofExactly(src: seq<RowStep>, report: Option<Report>, columns: nat)
    ensures EofMeansAll(src, report, columns) <==> MeetsError(src, report, columns) != Some(Eof)
  {
    if MeetsError(src, report, columns) != Some(Eof) {
      forall steps, t | Reaches(Init(), steps, CopyPlan(src, report, columns), t) && t.seen == SawEof
        ensures Complete(src, report, columns, t.got)
      {
        StreamIsSafe(src, report, columns, steps, t);
      }
    } else {
      var plan := CopyPlan(src, report, columns);
      EndsWithFirstError(src, report, columns, 0, HEADER);
      ChunksAreFull(src, report, columns, 0, HEADER);
      CleanExactly(src, report, columns, 0, HEADER);
      assert plan.chunks[..0] == [];
      var steps, t := RunsThrough(plan, 0);
      assert Reaches(Init(), steps, plan, t) && !Complete(src, report, columns, t.got);
    }
  }

  /** After one full chunk, a row error that is end-of-file passes for the end of the rows. */
  lemma EofLosesRows(bytes: seq<Byte>)
    requires |bytes| > CHUNK
    ensures !EofMeansAll(EofSource(bytes), None, 1)
  {
    EofSourceEnds(bytes);
    EofExactly(EofSource(bytes), None, 1);
  }

  lemma LeftIsNat(s: State, plan: Plan)
    requires Inv(s, plan)
    ensures Left(s, plan) >= 0
  {
  }
}
