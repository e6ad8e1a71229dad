/**
 The server end of a session: committed and current data, a transaction status, and one flat stack of
 savepoints. The rules are those of the PostgreSQL reference pages for BEGIN, COMMIT, ROLLBACK, SAVEPOINT,
 RELEASE SAVEPOINT and ROLLBACK TO SAVEPOINT.
 */
module Server {
  import opened Basics

  type Db = map<string, string>

  /** What a data statement does to the data it finds: fail, or leave new data and give an answer. */
  datatype Reply = Refused | Done(db: Db, answer: bool)

  datatype Status = Idle | InTx | Failed

  datatype Savepoint = Savepoint(num: int, db: Db)

  datatype Server = Server(status: Status, committed: Db, current: Db, stack: seq<Savepoint>)

  datatype Command =
    | Begin | Commit | Rollback
    | SetSavepoint(num: int) | Release(num: int) | RollbackTo(num: int)
    | Data(effect: Db -> Reply)

  datatype Tag = CommitTag | RollbackTag | OtherTag

  datatype Result = Error | Success(tag: Tag, answer: bool)

  /** The most recent savepoint with this number. */
  function Find(stack: seq<Savepoint>, num: int): (r: Option<nat>)
    ensures r.Some? ==> r.value < |stack| && stack[r.value].num == num
  {
    if stack == [] then None
    else if stack[|stack| - 1].num == num then Some(|stack| - 1)
    else Find(stack[..|stack| - 1], num)
  }

  function Outside(db: Db): Server {
    Server(Idle, db, db, [])
  }

  const OK := Success(OtherTag, false)

  /** One command. `deferred` says whether data pass the checks made at commit. */
  function ServerStep(s: Server, cmd: Command, deferred: Db -> bool): (Server, Result) {
    match cmd
    case Begin =>
      (match s.status
       case Idle => (Server(InTx, s.committed, s.committed, []), OK)
       case InTx => (s, OK)
       case Failed => (s, Error))
    case Commit =>
      (match s.status
       case Idle => (s, Success(CommitTag, false))
       case InTx =>
         if deferred(s.current) then (Outside(s.current), Success(CommitTag, false))
         else (Outside(s.committed), Error)
       case Failed => (Outside(s.committed), Success(RollbackTag, false)))
    case Rollback =>
      if s.status == Idle then (s, Success(RollbackTag, false))
      else (Outside(s.committed), Success(RollbackTag, false))
    case SetSavepoint(num) =>
      if s.status != InTx then (s, Error)
      else (s.(stack := s.stack + [Savepoint(num, s.current)]), OK)
    case Release(num) =>
      if s.status != InTx then (s, Error)
      else (match Find(s.stack, num)
            case None => (s.(status := Failed), Error)
            case Some(i) => (s.(stack := s.stack[..i]), OK))
    case RollbackTo(num) =>
      if s.status == Idle then (s, Error)
      else (match Find(s.stack, num)
            case None => (s.(status := Failed), Error)
            case Some(i) => (s.(status := InTx, current := s.stack[i].db, stack := s.stack[..i + 1]), OK))
    case Data(effect) =>
      (match s.status
       case Idle =>
         (match effect(s.committed)
          case Refused => (s, Error)
          case Done(db, answer) => (s.(committed := db, current := db), Success(OtherTag, answer)))
       case InTx =>
         (match effect(s.current)
          case Refused => (s.(status := Failed), Error)
          case Done(db, answer) => (s.(current := db), Success(OtherTag, answer)))
       case Failed => (s, Error))
  }

  /** Savepoint numbers on the stack strictly increase and do not exceed `num`. */
  ghost predicate Ordered(stack: seq<Savepoint>, num: int) {
    && (forall i, j :: 0 <= i < j < |stack| ==> stack[i].num < stack[j].num)
    && (forall i :: 0 <= i < |stack| ==> stack[i].num <= num)
  }

  /** In an ordered stack a number names at most one savepoint, and `Find` finds it. */
  lemma {:induction false} FindNamesOne(stack: seq<Savepoint>, num: int, top: int, i: nat)
    requires Ordered(stack, top) && i < |stack| && stack[i].num == num
    ensures Find(stack, num) == Some(i)
  {
    var last := |stack| - 1;
    if i < last {
      assert stack[i].num < stack[last].num;
      FindNamesOne(stack[..last], num, top, i);
    }
  }

  /** The client's commands keep the stack ordered, if each savepoint takes a number above the last. */
  lemma StepKeepsOrder(s: Server, cmd: Command, deferred: Db -> bool, num: int)
    requires Ordered(s.stack, num) && (cmd.SetSavepoint? ==> cmd.num > num)
    ensures Ordered(ServerStep(s, cmd, deferred).0.stack, if cmd.SetSavepoint? then cmd.num else num)
  {
  }
}
