/**
 What a transaction means: recursive nested transactions on values, without a server, a stack or a number; and the
 same over a network that may lose any command or break at it.
 */
module TxSem {
  import opened Basics
  import opened Server

  datatype Err = Nil | TxClosed | CommitRollback | ServerError | CallbackError

  /**
   A callback, as the decisions it takes: run a statement or a nested block, and go on according to what
   came back; in the end, return an error or not. It does not end its transaction itself.
   */
  datatype Prog =
    | Return(fails: bool)
    | Exec(effect: Db -> Reply, onTrue: Prog, onFalse: Prog, onError: Prog)
    | Nested(body: Prog, onOk: Prog, onFailed: Prog, onRefused: Prog)  // by the block's error: none, its own, another

  /** The data a transaction sees; or it has failed and sees none; or its connection is gone. */
  datatype View = Alive(db: Db) | Aborted | Gone

  // ---- without a network ----

  /**
   Recursive nested transactions: a block works on a copy of the data, which replaces the original when the
   block commits and is dropped when it fails. Returns whether the callback returned without error.
   */
  function Sem(p: Prog, v: View): (View, bool)
    decreases p, 0
  {
    match p
    case Return(fails) => (v, !fails)
    case Exec(effect, onTrue, onFalse, onError) =>
      if !v.Alive? then Sem(onError, v)
      else (match effect(v.db)
            case Refused => Sem(onError, Aborted)
            case Done(db, answer) => if answer then Sem(onTrue, Alive(db)) else Sem(onFalse, Alive(db)))
    case Nested(body, onOk, onFailed, onRefused) =>
      var (after, err) := Block(body, v);
      if err == Nil then Sem(onOk, after)
      else if err == CallbackError then Sem(onFailed, after)
      else Sem(onRefused, after)
  }

  /** One nested block, and the error it returns. A failed transaction lets no block begin or end well. */
  function Block(body: Prog, v: View): (View, Err)
    decreases body, 1
  {
    if !v.Alive? then (v, ServerError)
    else
      var (after, ok) := Sem(body, v);
      if !ok then (v, CallbackError)
      else (after, if after.Alive? then Nil else ServerError)
  }

  /** A whole transaction on committed data: the data it leaves, and the error it returns. */
  function Whole(p: Prog, db: Db, deferred: Db -> bool): (Db, Err) {
    var (after, ok) := Sem(p, Alive(db));
    if !ok then (db, CallbackError)
    else if !after.Alive? then (db, CommitRollback)
    else if !deferred(after.db) then (db, ServerError)
    else (after.db, Nil)
  }

  // ---- over a network ----

  /** What the network does to one command: nothing, lose it before sending, or break the connection. */
  datatype Fault = NoFault | NotSent | Broken(reached: bool)

  function NextFault(script: seq<Fault>): Fault {
    if script == [] then NoFault else script[0]
  }

  function Rest(script: seq<Fault>): seq<Fault> {
    if script == [] then [] else script[1..]
  }

  /** A statement: what is seen then, the faults still to come, and the answer if there is one. */
  function Ask(v: View, effect: Db -> Reply, script: seq<Fault>): (View, seq<Fault>, Option<bool>) {
    if v.Gone? then (Gone, script, None)
    else match NextFault(script)
      case NotSent => (v, Rest(script), None)
      case Broken(_) => (Gone, Rest(script), None)
      case NoFault =>
        if v.Aborted? then (Aborted, Rest(script), None)
        else match effect(v.db)
          case Refused => (Aborted, Rest(script), None)
          case Done(db, answer) => (Alive(db), Rest(script), Some(answer))
  }

  /** The end of a block that began with `v` and whose callback left `after`, by one command. */
  function EndOver(v: View, after: View, script: seq<Fault>, ok: bool): (View, seq<Fault>, Err) {
    var failed := if ok then ServerError else CallbackError;
    if after.Gone? then (Gone, script, failed)
    else match NextFault(script)
      case NotSent => (after, Rest(script), failed)
      case Broken(_) => (Gone, Rest(script), failed)
      case NoFault =>
        if !ok then (v, Rest(script), failed)
        else (after, Rest(script), if after.Alive? then Nil else failed)
  }

  function SemOver(p: Prog, v: View, script: seq<Fault>): (View, seq<Fault>, bool)
    decreases p, 0
  {
    match p
    case Return(fails) => (v, script, !fails)
    case Exec(effect, onTrue, onFalse, onError) =>
      var (after, rest, answer) := Ask(v, effect, script);
      (match answer
       case None => SemOver(onError, after, rest)
       case Some(yes) => if yes then SemOver(onTrue, after, rest) else SemOver(onFalse, after, rest))
    case Nested(body, onOk, onFailed, onRefused) =>
      var (after, rest, err) := BlockOver(body, v, script);
      if err == Nil then SemOver(onOk, after, rest)
      else if err == CallbackError then SemOver(onFailed, after, rest)
      else SemOver(onRefused, after, rest)
  }

  function BlockOver(body: Prog, v: View, script: seq<Fault>): (View, seq<Fault>, Err)
    decreases body, 1
  {
    if v.Gone? then (Gone, script, ServerError)
    else match NextFault(script)
      case NotSent => (v, Rest(script), ServerError)
      case Broken(_) => (Gone, Rest(script), ServerError)
      case NoFault =>
        if v.Aborted? then (Aborted, Rest(script), ServerError)
        else
          var (after, rest, ok) := SemOver(body, v, Rest(script));
          EndOver(v, after, rest, ok)
  }

  /** What a transaction leaves: the committed data, whether the connection is gone, the faults to come, the error. */
  datatype Outcome = Outcome(db: Db, gone: bool, rest: seq<Fault>, err: Err)

  /**
   The commit of data `after`, on committed data `db`. A reply can be lost after the data were committed. A commit
   that does not get through leaves a transaction open, so the connection is closed.
   */
  function CommitOver(db: Db, after: View, deferred: Db -> bool, script: seq<Fault>): Outcome {
    var passes := after.Alive? && deferred(after.db);
    if after.Gone? then Outcome(db, true, script, ServerError)
    else match NextFault(script)
      case NotSent => Outcome(db, true, Rest(script), ServerError)
      case Broken(reached) => Outcome(if reached && passes then after.db else db, true, Rest(script), ServerError)
      case NoFault =>
        if after.Aborted? then Outcome(db, false, Rest(script), CommitRollback)
        else if passes then Outcome(after.db, false, Rest(script), Nil)
        else Outcome(db, false, Rest(script), ServerError)
  }

  /** The rollback after a failed callback. It commits nothing, and without a reply the connection is closed. */
  function RollbackOver(db: Db, after: View, script: seq<Fault>): Outcome {
    if after.Gone? then Outcome(db, true, script, CallbackError)
    else Outcome(db, NextFault(script) != NoFault, Rest(script), CallbackError)
  }

  /** A whole transaction. One that cannot be begun closes the connection. */
  function WholeOver(p: Prog, db: Db, deferred: Db -> bool, script: seq<Fault>): Outcome {
    if NextFault(script) != NoFault then Outcome(db, true, Rest(script), ServerError)
    else
      var (after, rest, ok) := SemOver(p, Alive(db), Rest(script));
      if ok then CommitOver(db, after, deferred, rest) else RollbackOver(db, after, rest)
  }

  // ---- how the two compare ----

  /** A network without faults adds nothing. */
  lemma {:induction false} SemCalm(p: Prog, v: View)
    ensures SemOver(p, v, []) == (Sem(p, v).0, [], Sem(p, v).1)
    decreases p, 0
  {
    match p
    case Return(_) =>
    case Exec(effect, onTrue, onFalse, onError) =>
      var after := Ask(v, effect, []).0;
      SemCalm(onTrue, after);
      SemCalm(onFalse, after);
      SemCalm(onError, after);
    case Nested(body, onOk, onFailed, onRefused) =>
      BlockCalm(body, v);
      var after := Block(body, v).0;
      SemCalm(onOk, after);
      SemCalm(onFailed, after);
      SemCalm(onRefused, after);
  }

  lemma {:induction false} BlockCalm(body: Prog, v: View)
    ensures BlockOver(body, v, []) == (Block(body, v).0, [], Block(body, v).1)
    decreases body, 1
  {
    if v.Alive? {
      SemCalm(body, v);
      StaysHere(body, v);
    }
  }

  /** Only a network takes the connection away. */
  lemma {:induction false} StaysHere(p: Prog, v: View)
    requires !v.Gone?
    ensures !Sem(p, v).0.Gone?
    decreases p
  {
    match p
    case Return(_) =>
    case Exec(effect, onTrue, onFalse, onError) =>
      if v.Alive? && effect(v.db).Done? {
        StaysHere(onTrue, Alive(effect(v.db).db));
        StaysHere(onFalse, Alive(effect(v.db).db));
      } else {
        StaysHere(onError, Aborted);
      }
    case Nested(body, onOk, onFailed, onRefused) =>
      if v.Alive? {
        StaysHere(body, v);
      }
      var after := Block(body, v).0;
      StaysHere(onOk, after);
      StaysHere(onFailed, after);
      StaysHere(onRefused, after);
  }

  /** A network without faults adds nothing to a whole transaction. */
  lemma WholeCalm(p: Prog, db: Db, deferred: Db -> bool)
    ensures var (left, err) := Whole(p, db, deferred); WholeOver(p, db, deferred, []) == Outcome(left, false, [], err)
  {
    SemCalm(p, Alive(db));
    StaysHere(p, Alive(db));
  }

  // ---- what a failed block leaves ----

  /**
   A block that was entered and whose callback failed leaves what it found, or a connection that is gone, if and
   only if its rollback was sent, or there was nothing left to drop.
   */
  lemma {:induction false} FailedBlockExactly(body: Prog, v: View, script: seq<Fault>)
    requires v.Alive? && NextFault(script) == NoFault && !SemOver(body, v, Rest(script)).2
    ensures BlockOver(body, v, script).2 == CallbackError
    ensures var (after, rest, _) := SemOver(body, v, Rest(script));
            var left := BlockOver(body, v, script).0;
            (left == v || left == Gone <==> after == v || after == Gone || NextFault(rest) != NotSent)
  {
  }

  /** One nested block that runs a statement and fails; the callback around it ignores the error. */
  function Careless(effect: Db -> Reply): Prog {
    Nested(Exec(effect, Return(true), Return(true), Return(true)), Return(false), Return(false), Return(false))
  }

  /** When the rollback of a failed block is not sent, its work is committed with the rest, without an error. */
  lemma FailedBlockStays(effect: Db -> Reply, db: Db, deferred: Db -> bool)
    requires effect(db).Done? && deferred(effect(db).db)
    ensures Whole(Careless(effect), db, deferred).0 == db
    ensures WholeOver(Careless(effect), db, deferred, [NoFault, NoFault, NoFault, NotSent])
         == Outcome(effect(db).db, false, [], Nil)
  {
    var script := [NoFault, NoFault, NoFault, NotSent];
    var body := Exec(effect, Return(true), Return(true), Return(true));
    assert Rest(script) == [NoFault, NoFault, NotSent];
    assert Rest(Rest(script)) == [NoFault, NotSent];
    assert Rest(Rest(Rest(script))) == [NotSent];
    assert Rest(Rest(Rest(Rest(script)))) == [];
    var after := Alive(effect(db).db);
    assert SemOver(body, Alive(db), Rest(Rest(script))) == (after, [NotSent], false);
    assert BlockOver(body, Alive(db), Rest(script)) == (after, [], CallbackError);
    assert SemOver(Careless(effect), Alive(db), Rest(script)) == (after, [], true);
    assert Sem(body, Alive(db)) == (after, false);
    assert Block(body, Alive(db)) == (Alive(db), CallbackError);
    assert Sem(Careless(effect), Alive(db)) == Sem(Return(false), Alive(db));
  }
}
