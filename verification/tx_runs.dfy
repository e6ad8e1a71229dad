/**
 One transaction and all handles made from it, used in any order: callers may begin nested transactions,
 and commit or roll back any handle at any time, in any nesting or none, over a connection that may fail.
 */
module TxRuns {
  import opened Basics
  import opened Server
  import opened TxSem
  import opened Tx

  /**
   `open` holds the savepoint handles not closed yet; `issued` the numbers used, in order of use; `ended` the
   savepoints that a release or a rollback was sent for; and `txEnds` counts commits and rollbacks sent.
   */
  datatype World = World(
    server: Server, connClosed: bool, txClosed: bool, savepointNum: int, open: set<int>,
    issued: seq<int>, ended: seq<int>, txEnds: nat)

  datatype Op =
    | BeginOn(handle: Option<int>)  // on a savepoint's handle; None is the transaction itself
    | CommitSp(num: int) | RollbackSp(num: int)
    | CommitTx | RollbackTx
    | Statement(on: Option<int>, effect: Db -> Reply)  // `Exec`

  datatype Event = Event(op: Op, fault: Fault)

  function Start(db: Db): World {
    World(Server(InTx, db, db, []), false, false, 0, {}, [], [], 0)
  }

  function Send(w: World, cmd: Command, e: Event, deferred: Db -> bool): (World, Result) {
    var (s, closed, r) := Deliver(w.server, w.connClosed, cmd, deferred, e.fault);
    var ended := if cmd.Release? || cmd.RollbackTo? then w.ended + [cmd.num] else w.ended;
    var txEnds := if cmd.Commit? || cmd.Rollback? then w.txEnds + 1 else w.txEnds;
    (w.(server := s, connClosed := closed, ended := ended, txEnds := txEnds), r)
  }

  function Hangup(w: World): World {
    var (s, closed) := HungUp(w.server, w.connClosed);
    w.(server := s, connClosed := closed)
  }

  /** The next savepoint is set, and if that works there is one more handle. */
  function Begun(w: World, e: Event, deferred: Db -> bool): World {
    Opened(NextNumber(w), e, deferred)
  }

  function Opened(w: World, e: Event, deferred: Db -> bool): World {
    var (t, r) := Send(w, SetSavepoint(w.savepointNum), e, deferred);
    if r.Error? then t else t.(open := t.open + {w.savepointNum})
  }

  /** One call, with the checks and the effects of the methods of `DbTx` and `DbSavepoint`. */
  function Step(w: World, e: Event, deferred: Db -> bool): World {
    match e.op
    case BeginOn(h) =>
      if w.txClosed || (h.Some? && h.value !in w.open) then w else Begun(w, e, deferred)
    case CommitSp(num) =>
      if num !in w.open then w
      else var (t, _) := Send(w, Release(num), e, deferred); t.(open := t.open - {num})
    case RollbackSp(num) =>
      if num !in w.open then w
      else var (t, _) := Send(w, RollbackTo(num), e, deferred); t.(open := t.open - {num})
    case CommitTx =>
      if w.txClosed then w
      else
        var (t, r) := Send(w, Commit, e, deferred);
        var u := t.(txClosed := true);
        if r.Error? && t.server.status != Idle then Hangup(u) else u
    case RollbackTx =>
      if w.txClosed then w
      else
        var (t, r) := Send(w, Rollback, e, deferred);
        var u := t.(txClosed := true);
        if r.Error? then Hangup(u) else u
    case Statement(on, effect) =>
      if !OpenFor(w, on) then w else var (t, _) := Send(w, Data(effect), e, deferred); t
  }

  /** `Exec` looks only at its own handle, and on the transaction at nothing. */
  predicate OpenFor(w: World, on: Option<int>) {
    on.Some? ==> on.value in w.open
  }

  function Run(w: World, es: seq<Event>, deferred: Db -> bool): World {
    if es == [] then w else Step(Run(w, es[..|es| - 1], deferred), es[|es| - 1], deferred)
  }

  ghost predicate Increasing(ns: seq<int>) {
    forall i, j :: 0 <= i < j < |ns| ==> ns[i] < ns[j]
  }

  /**
   Numbers are used in increasing order and never twice, even when setting the savepoint failed; the
   savepoints on the server carry increasing numbers; every open handle has a used number; no savepoint is
   ended twice, and the transaction only once; and once it is, the session is outside it or gone, and inside
   or gone until then.
   */
  ghost predicate Invariant(w: World) {
    Numbered(w) && EndedOnce(w) && (w.txClosed ==> Away(w)) && (!w.txClosed ==> Inside(w))
  }

  ghost predicate Numbered(w: World) {
    && 0 <= w.savepointNum && Ordered(w.server.stack, w.savepointNum)
    && Increasing(w.issued) && (forall i :: 0 <= i < |w.issued| ==> 0 < w.issued[i] <= w.savepointNum)
    && (forall n :: n in w.open ==> n in w.issued)
    && AllIssued(w.server.stack, w.issued)
  }

  ghost predicate AllIssued(stack: seq<Savepoint>, issued: seq<int>) {
    forall i :: 0 <= i < |stack| ==> stack[i].num in issued
  }

  ghost predicate EndedOnce(w: World) {
    && (forall i, j :: 0 <= i < j < |w.ended| ==> w.ended[i] != w.ended[j])
    && (forall n :: n in w.ended ==> n !in w.open && n <= w.savepointNum)
    && w.txEnds == (if w.txClosed then 1 else 0)
  }

  predicate Away(w: World) {
    w.connClosed || w.server.status == Idle
  }

  predicate Inside(w: World) {
    w.connClosed || w.server.status != Idle
  }

  lemma StepKeepsIssued(s: Server, cmd: Command, deferred: Db -> bool, issued: seq<int>)
    requires AllIssued(s.stack, issued) && (cmd.SetSavepoint? ==> cmd.num in issued)
    ensures AllIssued(ServerStep(s, cmd, deferred).0.stack, issued)
  {
  }

  lemma SendKeepsNumbers(w: World, cmd: Command, e: Event, deferred: Db -> bool)
    requires Numbered(w)
    requires cmd.SetSavepoint? ==> cmd.num == w.savepointNum && cmd.num in w.issued
    requires cmd.SetSavepoint? ==> Ordered(w.server.stack, cmd.num - 1)
    ensures Numbered(Send(w, cmd, e, deferred).0)
  {
    StepKeepsOrder(w.server, cmd, deferred, if cmd.SetSavepoint? then cmd.num - 1 else w.savepointNum);
    StepKeepsIssued(w.server, cmd, deferred, w.issued);
  }

  /** A session outside a transaction stays outside unless one is begun; ending one gets there or reports an error. */
  lemma SendStaysAway(w: World, cmd: Command, e: Event, deferred: Db -> bool)
    requires !cmd.Begin?
    ensures Away(w) ==> Away(Send(w, cmd, e, deferred).0)
    ensures Inside(w) && !cmd.Commit? && !cmd.Rollback? ==>
              Inside(Send(w, cmd, e, deferred).0) && Send(w, cmd, e, deferred).0.server.committed == w.server.committed
    ensures cmd.Commit? || cmd.Rollback? ==>
              var (t, r) := Send(w, cmd, e, deferred); r.Success? ==> Away(t)
  {
  }

  function NextNumber(w: World): World {
    var num := w.savepointNum + 1;
    w.(savepointNum := num, issued := w.issued + [num])
  }

  /** An open handle is closed by a command that ends its savepoint. */
  lemma EndOneMore(w: World, num: int)
    requires Invariant(w) && num in w.open
    ensures Invariant(w.(ended := w.ended + [num], open := w.open - {num}))
  {
  }

  lemma NextNumberKeeps(w: World)
    requires Invariant(w)
    ensures var t := NextNumber(w);
            && Invariant(t) && t.savepointNum in t.issued && t.savepointNum !in t.ended
            && Ordered(t.server.stack, t.savepointNum - 1)
  {
    var w' := NextNumber(w);
    assert w'.issued[|w.issued|] == w'.savepointNum;
    forall n | n in w.issued ensures n in w'.issued {
      var i :| 0 <= i < |w.issued| && w.issued[i] == n;
      assert w'.issued[i] == n;
    }
  }

  lemma SetKeeps(w: World, e: Event, deferred: Db -> bool)
    requires Invariant(w) && w.savepointNum in w.issued && Ordered(w.server.stack, w.savepointNum - 1)
    ensures var t := Send(w, SetSavepoint(w.savepointNum), e, deferred).0;
            Invariant(t) && t.issued == w.issued && t.ended == w.ended
  {
    SendKeepsNumbers(w, SetSavepoint(w.savepointNum), e, deferred);
    SendStaysAway(w, SetSavepoint(w.savepointNum), e, deferred);
  }

  lemma OpenOneMore(w: World, num: int)
    requires Invariant(w) && num in w.issued && num !in w.ended
    ensures Invariant(w.(open := w.open + {num}))
  {
  }

  lemma OpenedKeeps(w: World, e: Event, deferred: Db -> bool)
    requires Invariant(w) && w.savepointNum in w.issued && w.savepointNum !in w.ended
    requires Ordered(w.server.stack, w.savepointNum - 1)
    ensures Invariant(Opened(w, e, deferred))
  {
    SetKeeps(w, e, deferred);
    OpenOneMore(Send(w, SetSavepoint(w.savepointNum), e, deferred).0, w.savepointNum);
  }

  lemma BegunKeeps(w: World, e: Event, deferred: Db -> bool)
    requires Invariant(w)
    ensures Invariant(Begun(w, e, deferred))
  {
    NextNumberKeeps(w);
    OpenedKeeps(NextNumber(w), e, deferred);
  }

  lemma EndSpKeeps(w: World, e: Event, deferred: Db -> bool)
    requires Invariant(w) && (e.op.CommitSp? || e.op.RollbackSp?)
    ensures Invariant(Step(w, e, deferred))
  {
    var num := e.op.num;
    var cmd := if e.op.CommitSp? then Release(num) else RollbackTo(num);
    if num in w.open {
      EndOneMore(w, num);
      var w' := w.(ended := w.ended + [num], open := w.open - {num});
      var t := Step(w, e, deferred);
      assert t == w'.(server := t.server, connClosed := t.connClosed);
      SendKeepsNumbers(w', cmd, e, deferred);
      SendStaysAway(w, cmd, e, deferred);
    }
  }

  lemma EndTxKeeps(w: World, e: Event, deferred: Db -> bool)
    requires Invariant(w) && (e.op.CommitTx? || e.op.RollbackTx?)
    ensures Invariant(Step(w, e, deferred))
  {
    var cmd := if e.op.CommitTx? then Commit else Rollback;
    SendKeepsNumbers(w, cmd, e, deferred);
    SendStaysAway(w, cmd, e, deferred);
  }

  lemma StepKeeps(w: World, e: Event, deferred: Db -> bool)
    requires Invariant(w)
    ensures Invariant(Step(w, e, deferred))
  {
    match e.op
    case BeginOn(h) => BegunKeeps(w, e, deferred);
    case CommitSp(num) => EndSpKeeps(w, e, deferred);
    case RollbackSp(num) => EndSpKeeps(w, e, deferred);
    case CommitTx => EndTxKeeps(w, e, deferred);
    case RollbackTx => EndTxKeeps(w, e, deferred);
    case Statement(on, effect) =>
      SendKeepsNumbers(w, Data(effect), e, deferred);
      SendStaysAway(w, Data(effect), e, deferred);
  }

  /** Whatever is called, in whatever order, and whatever the network does. */
  lemma {:induction false} RunKeeps(w: World, es: seq<Event>, deferred: Db -> bool)
    requires Invariant(w)
    ensures Invariant(Run(w, es, deferred))
  {
    if es != [] {
      RunKeeps(w, es[..|es| - 1], deferred);
      StepKeeps(Run(w, es[..|es| - 1], deferred), es[|es| - 1], deferred);
    }
  }

  /** In every reachable state a command on a savepoint number has at most one savepoint it can mean. */
  lemma {:induction false} TargetsAreUnique(db: Db, es: seq<Event>, deferred: Db -> bool, num: int, i: nat, j: nat)
    requires var stack := Run(Start(db), es, deferred).server.stack;
             i < |stack| && j < |stack| && stack[i].num == num == stack[j].num
    ensures i == j && Find(Run(Start(db), es, deferred).server.stack, num) == Some(i)
  {
    RunKeeps(Start(db), es, deferred);
    var w := Run(Start(db), es, deferred);
    FindNamesOne(w.server.stack, num, w.savepointNum, i);
    FindNamesOne(w.server.stack, num, w.savepointNum, j);
  }

  // ---- what changes the committed data ----

  /** Until it is closed, a transaction changes no committed data, except by its commit. */
  lemma OpenLeavesCommitted(w: World, e: Event, deferred: Db -> bool)
    requires Invariant(w) && !w.txClosed && !e.op.CommitTx?
    ensures Step(w, e, deferred).server.committed == w.server.committed
  {
    match e.op
    case BeginOn(h) => SendStaysAway(NextNumber(w), SetSavepoint(w.savepointNum + 1), e, deferred);
    case CommitSp(num) => SendStaysAway(w, Release(num), e, deferred);
    case RollbackSp(num) => SendStaysAway(w, RollbackTo(num), e, deferred);
    case RollbackTx =>
    case Statement(on, effect) => SendStaysAway(w, Data(effect), e, deferred);
  }

  /** Over any run that has not closed the transaction, nothing is committed. */
  lemma {:induction false} NothingEarly(db: Db, es: seq<Event>, deferred: Db -> bool)
    requires !Run(Start(db), es, deferred).txClosed
    ensures Run(Start(db), es, deferred).server.committed == db
  {
    if es != [] {
      var init, last := es[..|es| - 1], es[|es| - 1];
      RunKeeps(Start(db), init, deferred);
      NothingEarly(db, init, deferred);
      OpenLeavesCommitted(Run(Start(db), init, deferred), last, deferred);
    }
  }

  /**
   `Exec` does not look whether the transaction is closed, on the transaction or on a savepoint that is open. In
   every reachable state, a statement that the server takes commits its effect at once if and only if the
   transaction is closed.
   */
  lemma {:induction false} ExecAfterClosing(
    db: Db, es: seq<Event>, deferred: Db -> bool, on: Option<int>, effect: Db -> Reply)
    requires var w := Run(Start(db), es, deferred); !w.connClosed && OpenFor(w, on)
    ensures var w := Run(Start(db), es, deferred);
            var after := Step(w, Event(Statement(on, effect), NoFault), deferred).server.committed;
            after == if w.txClosed && effect(w.server.committed).Done? then effect(w.server.committed).db
                     else w.server.committed
  {
    RunKeeps(Start(db), es, deferred);
    var w := Run(Start(db), es, deferred);
    if !w.txClosed {
      OpenLeavesCommitted(w, Event(Statement(on, effect), NoFault), deferred);
    }
  }

  /** No call but `Exec` changes committed data once the transaction is closed. */
  lemma ClosedLeavesCommitted(w: World, e: Event, deferred: Db -> bool)
    requires Invariant(w) && w.txClosed && !e.op.Statement?
    ensures Step(w, e, deferred).server.committed == w.server.committed
  {
  }

  /** A savepoint outlives its transaction: begin a block, commit the transaction, and use the block's handle. */
  lemma SavepointAfterCommit(db: Db, deferred: Db -> bool, effect: Db -> Reply)
    requires deferred(db) && effect(db).Done?
    ensures var es := [Event(BeginOn(None), NoFault), Event(CommitTx, NoFault)];
            var w := Run(Start(db), es, deferred);
            && w.txClosed && OpenFor(w, Some(1)) && w.server.committed == db
            && Step(w, Event(Statement(Some(1), effect), NoFault), deferred).server.committed == effect(db).db
  {
    var begin, commit := Event(BeginOn(None), NoFault), Event(CommitTx, NoFault);
    var w1 := Step(Start(db), begin, deferred);
    assert [begin, commit][..1] == [begin] && [begin][..0] == [];
    assert Run(Start(db), [begin], deferred) == w1;
    assert w1.open == {1} && w1.server.status == InTx && w1.server.current == db;
  }

  // ---- the handles themselves ----

  /** A transaction with every savepoint handle made from it, and what they were used for. */
  class Session {
    const tx: DbTx
    var handles: map<int, DbSavepoint>
    ghost var issued: seq<int>
    ghost var ended: seq<int>
    ghost var txEnds: nat

    constructor (tx: DbTx)
      requires !tx.closed && tx.savepointNum == 0
      ensures Valid() && this.tx == tx && handles == map[]
      ensures View() == World(tx.conn.server, tx.conn.closed, false, 0, {}, [], [], 0)
    {
      this.tx, handles, issued, ended, txEnds := tx, map[], [], [], 0;
    }

    ghost predicate Valid()
      reads this, tx, handles.Values
    {
      forall n :: n in handles ==>
        handles[n].tx == tx && handles[n].savepointNum == n && n <= tx.savepointNum
    }

    ghost function View(): World
      reads this, tx, tx.conn, handles.Values
    {
      World(tx.conn.server, tx.conn.closed, tx.closed, tx.savepointNum,
            (set n | n in handles && !handles[n].closed), issued, ended, txEnds)
    }

    /** One call on one of the handles, with the network doing what the event says. */
    method Do(e: Event)
      requires Valid()
      modifies this, tx, tx.conn, handles.Values
      ensures Valid() && fresh(handles.Values - old(handles.Values))
      ensures View() == Step(old(View()), e, tx.conn.deferred)
      ensures old(Invariant(View())) ==> Invariant(View())
    {
      ghost var before := View();
      if Invariant(before) {
        StepKeeps(before, e, tx.conn.deferred);
      }
      tx.conn.script := [e.fault];
      assert Valid() && View() == before;
      match e.op
      case BeginOn(h) => Begin(h, e);
      case CommitSp(n) => EndSp(n, e);
      case RollbackSp(n) => EndSp(n, e);
      case CommitTx => EndTx(e);
      case RollbackTx => EndTx(e);
      case Statement(on, effect) => Exec(on, effect, e);
    }

    method Exec(on: Option<int>, effect: Db -> Reply, e: Event)
      requires Valid() && tx.conn.script == [e.fault] && e.op == Statement(on, effect)
      modifies tx.conn
      ensures Valid() && View() == Step(old(View()), e, tx.conn.deferred)
    {
      if on.None? {
        var _ := tx.Exec(Data(effect));
      } else {
        var num: int := on.value;
        if num in handles {
          assert handles[num].tx == tx;
          var _ := handles[num].Exec(Data(effect));
        }
      }
    }

    method Begin(h: Option<int>, e: Event)
      requires Valid() && tx.conn.script == [e.fault] && e.op == BeginOn(h)
      modifies this, tx, tx.conn
      ensures Valid() && fresh(handles.Values - old(handles.Values))
      ensures View() == Step(old(View()), e, tx.conn.deferred)
    {
      var sp, err := BeginFrom(h, e);
      if err == TxClosed {
        return;
      }
      issued := issued + [tx.savepointNum];
      if sp != null {
        Keep(sp);
      }
    }

    /** Keeps the handle that was made last. */
    method Keep(sp: DbSavepoint)
      requires Valid() && sp.tx == tx && !sp.closed && sp.savepointNum == tx.savepointNum
      modifies `handles
      ensures Valid() && handles.Values <= old(handles.Values) + {sp}
      ensures View() == old(View()).(open := old(View()).open + {tx.savepointNum})
    {
      handles := handles[tx.savepointNum := sp];
    }

    /** Begins on the transaction or on one of its savepoints: on any that is still open, if the transaction is. */
    method BeginFrom(h: Option<int>, ghost e: Event) returns (sp: DbSavepoint?, err: Err)
      requires Valid() && tx.conn.script == [e.fault]
      modifies tx, tx.conn
      ensures Valid() && (err == TxClosed <==> old(tx.closed) || !OpenFor(old(View()), h))
      ensures err == TxClosed ==> sp == null && View() == old(View())
      ensures err != TxClosed ==>
                var n := NextNumber(old(View()));
                var (t, r) := Send(n, SetSavepoint(n.savepointNum), e, tx.conn.deferred);
                View() == t.(issued := issued) && (r.Error? <==> sp == null)
      ensures sp != null ==> fresh(sp) && sp.tx == tx && sp.savepointNum == tx.savepointNum && !sp.closed
    {
      if h.None? {
        sp, err := tx.Begin();
      } else {
        var num: int := h.value;
        if num !in handles {
          return null, TxClosed;
        }
        assert handles[num].tx == tx;
        sp, err := handles[num].Begin();
      }
      assert forall n :: n in handles ==> handles[n].closed == old(handles[n].closed);
      assert View().open == old(View()).open;
    }

    method EndSp(n: int, e: Event)
      requires Valid() && tx.conn.script == [e.fault] && (e.op == CommitSp(n) || e.op == RollbackSp(n))
      modifies this, tx.conn, handles.Values
      ensures Valid() && handles == old(handles)
      ensures View() == Step(old(View()), e, tx.conn.deferred)
    {
      if n !in handles {
        return;
      }
      var sp := handles[n];
      assert sp.tx == tx;
      if !sp.closed {
        ended := ended + [n];
      }
      if e.op.CommitSp? {
        var _ := sp.Commit();
      } else {
        var _ := sp.Rollback();
      }
      assert forall k :: k in handles && k != n ==> handles[k].closed == old(handles[k].closed);
    }

    method EndTx(e: Event)
      requires Valid() && tx.conn.script == [e.fault] && (e.op == CommitTx || e.op == RollbackTx)
      modifies this, tx, tx.conn
      ensures Valid() && handles == old(handles)
      ensures View() == Step(old(View()), e, tx.conn.deferred)
    {
      if !tx.closed {
        txEnds := txEnds + 1;
      }
      if e.op.CommitTx? {
        var _ := tx.Commit();
      } else {
        var _ := tx.Rollback();
      }
    }
  }
}
