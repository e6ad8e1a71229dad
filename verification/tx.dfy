/**
 Transactions and the pseudo nested transactions of tx.go. All savepoints of a transaction are named by one
 counter, all live on the server's one stack, and a block that fails leaves its savepoint there.
 */
module Tx {
  import opened Basics
  import opened Server
  import opened TxSem

  // ---- the connection ----

  /** One command over the network: what the server is then, whether the connection is gone, and the reply. */
  function Deliver(s: Server, closed: bool, cmd: Command, deferred: Db -> bool, fault: Fault): (Server, bool, Result) {
    if closed then (s, true, Error)
    else match fault
      case NoFault => var (t, r) := ServerStep(s, cmd, deferred); (t, false, r)
      case NotSent => (s, false, Error)
      case Broken(reached) =>
        var t := if reached then ServerStep(s, cmd, deferred).0 else s;
        (Outside(t.committed), true, Error)
  }

  /** Closing drops an open transaction; closing again changes nothing. */
  function HungUp(s: Server, closed: bool): (Server, bool) {
    if closed then (s, true) else (Outside(s.committed), true)
  }

  /** The faults still to come: a closed connection meets none. */
  function Unmet(closed: bool, script: seq<Fault>): seq<Fault> {
    if closed then script else Rest(script)
  }

  class Conn {
    var server: Server
    var closed: bool
    var script: seq<Fault>  // faults to come; none once it is used up
    ghost var sent: seq<Command>  // every command handed to the connection
    ghost var met: Server  // what the server was when the last of them was sent
    const deferred: Db -> bool

    constructor (db: Db, script: seq<Fault>, deferred: Db -> bool)
      ensures server == Outside(db) && !closed && this.script == script && sent == [] && this.deferred == deferred
    {
      server, closed, this.script, sent, met := Outside(db), false, script, [], Outside(db);
      this.deferred := deferred;
    }

    method Close()
      modifies `server, `closed
      ensures (server, closed) == HungUp(old(server), old(closed))
    {
      if !closed {
        closed := true;
        server := Outside(server.committed);
      }
    }

    /** `cmd` was handed to the connection just now, met what the network had in store, and was answered by `r`. */
    twostate predicate Delivered(cmd: Command, r: Result)
      reads this
    {
      && (server, closed, r) == Deliver(old(server), old(closed), cmd, deferred, NextFault(old(script)))
      && script == Unmet(old(closed), old(script)) && sent == old(sent) + [cmd] && met == old(server)
    }

    /** This is how the transaction left the connection, with this error. */
    ghost predicate Left(o: Outcome, err: Err)
      reads this
    {
      server == Outside(o.db) && closed == o.gone && script == o.rest && err == o.err
    }

    method Exec(cmd: Command) returns (r: Result)
      modifies this
      ensures Delivered(cmd, r)
    {
      sent, met := sent + [cmd], server;
      var (s, c, reply) := Deliver(server, closed, cmd, deferred, NextFault(script));
      script := Unmet(closed, script);
      server, closed, r := s, c, reply;
    }
  }

  // ---- what the flat scheme keeps ----

  function ViewOf(s: Server): View {
    if s.status == InTx then Alive(s.current) else Aborted
  }

  /** Inside a transaction whose savepoints are numbered up to `num`. */
  ghost predicate InBlock(s: Server, num: int) {
    s.status != Idle && Ordered(s.stack, num)
  }

  /**
   From `before`, with savepoints numbered up to `from`, the session got to `after`, with numbers up to `to`:
   it shows `v`, and whatever it left on the stack lies above the old savepoints and has newer numbers.
   */
  ghost predicate Reaches(before: Server, from: int, after: Server, to: int, v: View) {
    && from <= to && after.committed == before.committed
    && InBlock(after, to) && ViewOf(after) == v
    && before.stack <= after.stack
    && forall i :: |before.stack| <= i < |after.stack| ==> after.stack[i].num > from
  }

  lemma ReachesTrans(a: Server, m: int, b: Server, n: int, v: View, c: Server, k: int, w: View)
    requires Reaches(a, m, b, n, v) && Reaches(b, n, c, k, w)
    ensures Reaches(a, m, c, k, w)
  {
  }

  function Seen(s: Server, closed: bool): View {
    if closed then Gone else ViewOf(s)
  }

  /** The same for a session whose connection may be closed, before or on the way. */
  ghost predicate Lands(a: Server, aClosed: bool, from: int, b: Server, bClosed: bool, to: int, v: View) {
    from <= to && if bClosed then v == Gone else !aClosed && Reaches(a, from, b, to, v)
  }

  lemma LandsTrans(a: Server, aClosed: bool, m: int, b: Server, bClosed: bool, n: int, v: View,
                   c: Server, cClosed: bool, k: int, w: View)
    requires Lands(a, aClosed, m, b, bClosed, n, v) && Lands(b, bClosed, n, c, cClosed, k, w)
    ensures Lands(a, aClosed, m, c, cClosed, k, w)
  {
    if !cClosed {
      ReachesTrans(a, m, b, n, v, c, k, w);
    }
  }

  /** A block's savepoint was set at `a`, which led to `b`. */
  ghost predicate Entered(a: Server, num: int, b: Server) {
    InBlock(a, num) && a.status == InTx && b == a.(stack := a.stack + [Savepoint(num + 1, a.current)])
  }

  /** A block that was entered at `a` and has run to `c` still finds its own savepoint, and only that one. */
  lemma {:induction false} FindsOwn(a: Server, num: int, b: Server, c: Server, to: int, v: View)
    requires Entered(a, num, b) && Reaches(b, num + 1, c, to, v)
    ensures Find(c.stack, num + 1) == Some(|a.stack|)
    ensures c.stack[|a.stack|] == Savepoint(num + 1, a.current) && c.stack[..|a.stack|] == a.stack
  {
    var i := |a.stack|;
    assert b.stack[i] == Savepoint(num + 1, a.current) && c.stack[i] == b.stack[i];
    FindNamesOne(c.stack, num + 1, to, i);
    assert c.stack[..|b.stack|] == b.stack;
    assert c.stack[..i] == c.stack[..|b.stack|][..i] == b.stack[..i] == a.stack;
  }

  /** What ending the block does: drop its work and keep its savepoint, or keep its work if there is any. */
  lemma EndsBlock(a: Server, num: int, b: Server, c: Server, to: int, v: View, deferred: Db -> bool)
    requires Entered(a, num, b) && Reaches(b, num + 1, c, to, v)
    ensures var (d, r) := ServerStep(c, RollbackTo(num + 1), deferred);
            r == OK && Reaches(a, num, d, to, Alive(a.current)) && d.stack == b.stack
    ensures var (d, r) := ServerStep(c, Release(num + 1), deferred);
            (r == OK <==> v.Alive?) && Reaches(a, num, d, to, v) && (r == OK ==> d.stack == a.stack)
  {
    FindsOwn(a, num, b, c, to, v);
    assert c.stack[..|a.stack| + 1] == a.stack + [c.stack[|a.stack|]];
  }

  /** A statement does to the session what it does to what is seen. */
  lemma AskLands(a: Server, closed: bool, num: int, effect: Db -> Reply, deferred: Db -> bool, script: seq<Fault>)
    requires closed || InBlock(a, num)
    ensures var (b, bClosed, r) := Deliver(a, closed, Data(effect), deferred, NextFault(script));
            var (v, rest, answer) := Ask(Seen(a, closed), effect, script);
            && Lands(a, closed, num, b, bClosed, num, v) && rest == Unmet(closed, script)
            && answer == if r.Error? then None else Some(r.answer)
  {
  }

  /** Setting a block's savepoint: it is entered, or the block is over. */
  lemma {:induction false} SetLands(
    a: Server, closed: bool, num: int, f: Prog, deferred: Db -> bool, script: seq<Fault>)
    requires closed || InBlock(a, num)
    ensures var (b, bClosed, r) := Deliver(a, closed, SetSavepoint(num + 1), deferred, NextFault(script));
            if r.Error? then
              && Lands(a, closed, num, b, bClosed, num + 1, Seen(b, bClosed))
              && BlockOver(f, Seen(a, closed), script) == (Seen(b, bClosed), Unmet(closed, script), ServerError)
            else
              && !bClosed && Entered(a, num, b) && !closed && NextFault(script) == NoFault
  {
  }

  /** So a block whose callback ran from `b` to `c` ends as a block of the recursive semantics does. */
  lemma EndLands(a: Server, num: int, b: Server, c: Server, cClosed: bool, to: int, after: View, ok: bool,
                 deferred: Db -> bool, script: seq<Fault>)
    requires Entered(a, num, b) && Lands(b, false, num + 1, c, cClosed, to, after)
    ensures var cmd := if ok then Release(num + 1) else RollbackTo(num + 1);
            var (d, dClosed, r) := Deliver(c, cClosed, cmd, deferred, NextFault(script));
            var (v, rest, e) := EndOver(Alive(a.current), after, script, ok);
            && Lands(a, false, num, d, dClosed, to, v) && rest == Unmet(cClosed, script)
            && e == if !ok then CallbackError else if r == OK then Nil else ServerError
  {
    if !cClosed {
      EndsBlock(a, num, b, c, to, after, deferred);
      LeavesBlock(a, num, b, c, to, after);
    }
  }

  /** A block that was entered and not ended is on its way all the same. */
  lemma LeavesBlock(a: Server, num: int, b: Server, c: Server, to: int, v: View)
    requires Entered(a, num, b) && Reaches(b, num + 1, c, to, v)
    ensures Reaches(a, num, c, to, v)
  {
    assert b.stack[|a.stack|].num == num + 1 && c.stack[|a.stack|] == b.stack[|a.stack|];
  }

  // ---- what is sent ----

  /** Data statements, and commands on savepoints numbered above `lo` and up to `hi`. */
  ghost predicate Inner(cmds: seq<Command>, lo: int, hi: int) {
    forall i :: 0 <= i < |cmds| ==>
      || cmds[i].Data?
      || ((cmds[i].SetSavepoint? || cmds[i].Release? || cmds[i].RollbackTo?) && lo < cmds[i].num <= hi)
  }

  /**
   One block: its savepoint is set first; if that worked, exactly one command ends it, and that is the
   last one. Everything between concerns newer savepoints.
   */
  ghost predicate Bracketed(cmds: seq<Command>, lo: int, hi: int) {
    && lo < hi && |cmds| > 0 && cmds[0].SetSavepoint? && cmds[0].num == lo + 1
    && (|cmds| > 1 ==>
          var last := cmds[|cmds| - 1];
          && (last.Release? || last.RollbackTo?) && last.num == lo + 1
          && Inner(cmds[1..|cmds| - 1], lo + 1, hi))
  }

  /**
   What a block's error says of the commands it sent: the callback failed if and only if the block was rolled
   back, and only a block that could not begin was not ended.
   */
  ghost predicate BlockError(cmds: seq<Command>, err: Err) {
    && (err == Nil || err == ServerError || err == CallbackError)
    && |cmds| > 0 && (|cmds| == 1 ==> err == ServerError)
    && (err == CallbackError <==> cmds[|cmds| - 1].RollbackTo?)
  }

  /** The commands sent since the log was `old`. */
  ghost function Since(sent: seq<Command>, before: seq<Command>): seq<Command>
    requires before <= sent
  {
    sent[|before|..]
  }

  lemma InnerTrans(a: seq<Command>, b: seq<Command>, c: seq<Command>, lo: int, mid: int, hi: int)
    requires a <= b <= c && lo <= mid <= hi
    requires Inner(Since(b, a), lo, mid) && Inner(Since(c, b), mid, hi)
    ensures Inner(Since(c, a), lo, hi)
  {
  }

  /** A log that grew by one command, then by the middle, then by one command. */
  lemma Sandwich(a: seq<Command>, first: Command, b: seq<Command>, last: Command)
    requires a + [first] <= b
    ensures var cmds := Since(b + [last], a);
            && |cmds| > 1 && cmds[0] == first && cmds[|cmds| - 1] == last
            && cmds[1..|cmds| - 1] == Since(b, a + [first])
  {
    var cmds := Since(b + [last], a);
    assert b[|a|] == (a + [first])[|a|] == first;
    assert cmds == b[|a|..] + [last] && b[|a|..] == [first] + b[|a| + 1..];
  }

  lemma MakesBracket(a: seq<Command>, num: int, b: seq<Command>, last: Command, hi: int)
    requires a + [SetSavepoint(num)] <= b && num <= hi && (last == Release(num) || last == RollbackTo(num))
    requires Inner(Since(b, a + [SetSavepoint(num)]), num, hi)
    ensures a <= b + [last] && Bracketed(Since(b + [last], a), num - 1, hi) && |b + [last]| > |a| + 1
  {
    Sandwich(a, SetSavepoint(num), b, last);
  }

  lemma BracketedIsInner(cmds: seq<Command>, lo: int, hi: int)
    requires Bracketed(cmds, lo, hi)
    ensures Inner(cmds, lo, hi)
  {
    if |cmds| > 1 {
      var mid := cmds[1..|cmds| - 1];
      forall i | 0 < i < |cmds| - 1
        ensures cmds[i] == mid[i - 1]
      {
      }
    }
  }

  // ---- transactions ----

  class DbTx {
    const conn: Conn
    var savepointNum: int
    var closed: bool

    constructor (conn: Conn)
      ensures this.conn == conn && savepointNum == 0 && !closed
    {
      this.conn, savepointNum, closed := conn, 0, false;
    }

    /** What running a callback or a block keeps, whatever the network does. */
    twostate predicate Kept()
      reads this, conn
    {
      && closed == old(closed) && old(savepointNum) <= savepointNum
      && old(conn.sent) <= conn.sent && (old(conn.closed) ==> conn.closed)
      && (old(conn.closed) ==> conn.server == old(conn.server))
      && (!old(conn.closed) && conn.closed ==> conn.server == Outside(conn.server.committed))
      && (old(conn.server.status) != Idle ==>
            (conn.closed || conn.server.status != Idle) && conn.server.committed == old(conn.server.committed))
    }

    /** From where it was, with what it had seen, the session got here and sees `v`. */
    twostate predicate Landed(v: View)
      reads this, conn
    {
      Lands(old(conn.server), old(conn.closed), old(savepointNum), conn.server, conn.closed, savepointNum, v)
    }

    /** The session can run a block: it is inside the transaction, or gone. */
    ghost predicate Ready()
      reads this, conn
    {
      conn.closed || InBlock(conn.server, savepointNum)
    }

    ghost predicate IsSettled()
      reads this, conn
    {
      Settled(conn.server, conn.closed, savepointNum)
    }

    ghost function Sees(): View
      reads conn
    {
      Seen(conn.server, conn.closed)
    }

    method Begin() returns (sp: DbSavepoint?, err: Err)
      modifies this, conn
      ensures Kept() && (err == Nil <==> sp != null)
      ensures old(closed) ==> err == TxClosed && savepointNum == old(savepointNum) && unchanged(conn)
      ensures !old(closed) ==> conn.Delivered(SetSavepoint(savepointNum), if err == Nil then OK else Error)
      ensures !old(closed) ==> savepointNum == old(savepointNum) + 1 && (err == Nil || err == ServerError)
      ensures sp != null ==> fresh(sp) && sp.tx == this && sp.savepointNum == savepointNum && !sp.closed
    {
      if closed {
        return null, TxClosed;
      }
      savepointNum := savepointNum + 1;
      var r := conn.Exec(SetSavepoint(savepointNum));
      if r.Error? {
        return null, ServerError;
      }
      sp := new DbSavepoint(this, savepointNum);
      err := Nil;
    }

    /** Ends a block after its callback: by one command, because the deferred rollback finds the handle closed. */
    method EndBlock(savepoint: DbSavepoint, fErr: Err) returns (err: Err, ghost r: Result)
      requires savepoint.tx == this && !savepoint.closed
      modifies savepoint, conn
      ensures Kept()
      ensures var cmd := if fErr != Nil then RollbackTo(savepoint.savepointNum) else Release(savepoint.savepointNum);
              conn.Delivered(cmd, r)
      ensures if fErr != Nil then err == fErr else err == if r == OK then Nil else ServerError
    {
      if fErr != Nil {
        var ended := savepoint.Rollback();
        r := if ended == Nil then OK else Error;
        err := fErr;
      } else {
        err := savepoint.Commit();
        r := if err == Nil then OK else Error;
      }
      var rollbackErr := savepoint.Rollback();
      assert rollbackErr == TxClosed;
      if rollbackErr != Nil && rollbackErr != TxClosed {
        err := rollbackErr;
      }
    }

    method BeginFunc(f: Prog) returns (err: Err)
      modifies this, conn
      ensures Kept()
      ensures old(closed) ==> err == TxClosed && unchanged(conn)
      ensures !old(closed) ==> Bracketed(Since(conn.sent, old(conn.sent)), old(savepointNum), savepointNum)
      ensures !old(closed) ==> BlockError(Since(conn.sent, old(conn.sent)), err)
      ensures !old(closed) && old(Ready()) ==>
                var (v, rest, e) := BlockOver(f, old(Sees()), old(conn.script));
                Landed(v) && conn.script == rest && err == e
      decreases f, 3
    {
      if closed {
        return TxClosed;
      }
      var savepoint;
      savepoint, err := Begin();
      if old(Ready()) {
        SetLands(old(conn.server), old(conn.closed), old(savepointNum), f, conn.deferred, old(conn.script));
      }
      if err != Nil {
        return;
      }
      ghost var num, mid := savepointNum, conn.sent;
      err, mid := RunBlock(savepoint, f, old(conn.server));
      MakesBracket(old(conn.sent), num, mid, conn.sent[|mid|], savepointNum);
    }

    /** The rest of a block, once its savepoint is set on what was `a`. */
    method RunBlock(savepoint: DbSavepoint, f: Prog, ghost a: Server) returns (err: Err, ghost mid: seq<Command>)
      requires !closed && savepoint.tx == this && !savepoint.closed && savepoint.savepointNum == savepointNum
      modifies this, conn, savepoint
      ensures Kept()
      ensures err == Nil || err == ServerError || err == CallbackError
      ensures var num := savepoint.savepointNum;
              && conn.sent == mid + [if err == CallbackError then RollbackTo(num) else Release(num)]
              && old(conn.sent) <= mid && Inner(Since(mid, old(conn.sent)), old(savepointNum), savepointNum)
      ensures var num := old(savepointNum) - 1;
              !old(conn.closed) && Entered(a, num, old(conn.server)) ==>
                var (after, mid, ok) := SemOver(f, Alive(a.current), old(conn.script));
                var (v, rest, e) := EndOver(Alive(a.current), after, mid, ok);
                && Lands(a, false, num, conn.server, conn.closed, savepointNum, v)
                && conn.script == rest && err == e
      decreases f, 2
    {
      ghost var b, num := conn.server, savepointNum - 1;
      ghost var entered := !conn.closed && Entered(a, num, b);
      assert entered ==> Ready() && Sees() == Alive(a.current);
      var fErr := Callback(savepoint, f);
      ghost var c, cClosed, script := conn.server, conn.closed, conn.script;
      mid := conn.sent;
      if entered {
        EndLands(a, num, b, c, cClosed, savepointNum, SemOver(f, Alive(a.current), old(conn.script)).0, fErr == Nil,
                 conn.deferred, script);
      }
      ghost var r;
      err, r := EndBlock(savepoint, fErr);
    }

    /** Hands a command to the connection, also when the transaction is closed. */
    method Exec(cmd: Command) returns (r: Result)
      modifies conn
      ensures conn.Delivered(cmd, r)
    {
      r := conn.Exec(cmd);
    }

    /** A statement on a handle that is open: a savepoint, or this transaction itself. */
    method Statement(sp: DbSavepoint?, effect: Db -> Reply) returns (r: Result)
      requires sp != null ==> sp.tx == this && !sp.closed
      modifies conn
      ensures Kept() && conn.Delivered(Data(effect), r)
    {
      if sp != null {
        r := sp.Exec(Data(effect));
      } else {
        r := Exec(Data(effect));
      }
    }

    /** A nested block on a handle that is open. */
    method NestedBlock(sp: DbSavepoint?, f: Prog) returns (err: Err)
      requires !closed && (sp != null ==> sp.tx == this && !sp.closed)
      modifies this, conn
      ensures Kept() && Bracketed(Since(conn.sent, old(conn.sent)), old(savepointNum), savepointNum)
      ensures old(Ready()) ==>
                var (v, rest, e) := BlockOver(f, old(Sees()), old(conn.script));
                Landed(v) && conn.script == rest && err == e
      decreases f, 5
    {
      if sp != null {
        err := sp.BeginFunc(f);
      } else {
        err := BeginFunc(f);
      }
    }

    /** Runs a callback on the handle it was given: a savepoint, or this transaction itself. */
    method Callback(sp: DbSavepoint?, p: Prog) returns (err: Err)
      requires !closed && (sp != null ==> sp.tx == this && !sp.closed)
      modifies this, conn
      ensures Kept()
      ensures err == Nil || err == CallbackError
      ensures Inner(Since(conn.sent, old(conn.sent)), old(savepointNum), savepointNum)
      ensures old(Ready()) ==>
                var (v, rest, ok) := SemOver(p, old(Sees()), old(conn.script));
                Landed(v) && conn.script == rest && (err == Nil <==> ok)
      decreases p, 1
    {
      match p
      case Return(fails) =>
        err := if fails then CallbackError else Nil;
      case Exec(_, _, _, _) =>
        err := StatementThen(sp, p);
      case Nested(_, _, _, _) =>
        err := NestedThen(sp, p);
    }

    /** A statement, and what the callback does after it. */
    method StatementThen(sp: DbSavepoint?, p: Prog) returns (err: Err)
      requires !closed && (sp != null ==> sp.tx == this && !sp.closed) && p.Exec?
      modifies this, conn
      ensures Kept()
      ensures err == Nil || err == CallbackError
      ensures Inner(Since(conn.sent, old(conn.sent)), old(savepointNum), savepointNum)
      ensures old(Ready()) ==>
                var (v, rest, ok) := SemOver(p, old(Sees()), old(conn.script));
                Landed(v) && conn.script == rest && (err == Nil <==> ok)
      decreases p, 0
    {
      if Ready() {
        AskLands(conn.server, conn.closed, savepointNum, p.effect, conn.deferred, conn.script);
      }
      var r := Statement(sp, p.effect);
      ghost var mid, server, gone := conn.sent, conn.server, conn.closed;
      if r.Error? {
        err := Callback(sp, p.onError);
      } else if r.answer {
        err := Callback(sp, p.onTrue);
      } else {
        err := Callback(sp, p.onFalse);
      }
      InnerTrans(old(conn.sent), mid, conn.sent, old(savepointNum), old(savepointNum), savepointNum);
      if old(Ready()) {
        LandsTrans(old(conn.server), old(conn.closed), old(savepointNum), server, gone, old(savepointNum),
                   Seen(server, gone), conn.server, conn.closed, savepointNum, Sees());
      }
    }

    /** A nested block, and what the callback does after it. */
    method NestedThen(sp: DbSavepoint?, p: Prog) returns (err: Err)
      requires !closed && (sp != null ==> sp.tx == this && !sp.closed) && p.Nested?
      modifies this, conn
      ensures Kept()
      ensures err == Nil || err == CallbackError
      ensures Inner(Since(conn.sent, old(conn.sent)), old(savepointNum), savepointNum)
      ensures old(Ready()) ==>
                var (v, rest, ok) := SemOver(p, old(Sees()), old(conn.script));
                Landed(v) && conn.script == rest && (err == Nil <==> ok)
      decreases p, 0
    {
      var nested := NestedBlock(sp, p.body);
      ghost var mid, midNum, server, gone := conn.sent, savepointNum, conn.server, conn.closed;
      if nested == Nil {
        err := Callback(sp, p.onOk);
      } else if nested == CallbackError {
        err := Callback(sp, p.onFailed);
      } else {
        err := Callback(sp, p.onRefused);
      }
      BracketedIsInner(Since(mid, old(conn.sent)), old(savepointNum), midNum);
      InnerTrans(old(conn.sent), mid, conn.sent, old(savepointNum), midNum, savepointNum);
      if old(Ready()) {
        LandsTrans(old(conn.server), old(conn.closed), old(savepointNum), server, gone, midNum,
                   Seen(server, gone), conn.server, conn.closed, savepointNum, Sees());
      }
    }

    /** Commits. Afterwards the connection is outside a transaction, or closed. */
    method Commit() returns (err: Err)
      modifies this, conn
      ensures closed && savepointNum == old(savepointNum) && (err == TxClosed <==> old(closed))
      ensures old(closed) ==> unchanged(conn)
      ensures !old(closed) ==> conn.sent == old(conn.sent) + [Command.Commit] && conn.met == old(conn.server)
      ensures !old(closed) ==> conn.script == Unmet(old(conn.closed), old(conn.script))
      ensures !old(closed) ==>
                var fault := NextFault(old(conn.script));
                var (s, c, r) := Deliver(old(conn.server), old(conn.closed), Command.Commit, conn.deferred, fault);
                && (conn.server, conn.closed) == (if r.Error? && s.status != Idle then HungUp(s, c) else (s, c))
                && err == if r.Error? then ServerError else if r.tag == RollbackTag then CommitRollback else Nil
      ensures !old(closed) ==> conn.closed || conn.server.status == Idle
      ensures var s := old(conn.server);
              old(conn.closed) || s.status != Idle ==>
                || conn.server.committed == s.committed
                || (s.status == InTx && conn.deferred(s.current) && conn.server.committed == s.current)
      ensures err == Nil && old(conn.server.status) != Idle ==>
                var s := old(conn.server);
                s.status == InTx && conn.deferred(s.current) && !conn.closed && conn.server == Outside(s.current)
    {
      if closed {
        return TxClosed;
      }
      var r := conn.Exec(Command.Commit);
      closed := true;
      if r.Error? {
        if conn.server.status != Idle {
          conn.Close();
        }
        return ServerError;
      }
      if r.tag == RollbackTag {
        return CommitRollback;
      }
      return Nil;
    }

    /** Rolls back. Afterwards the connection is outside a transaction, or closed, and nothing was committed. */
    method Rollback() returns (err: Err)
      modifies this, conn
      ensures closed && savepointNum == old(savepointNum) && (err == TxClosed <==> old(closed))
      ensures old(closed) ==> unchanged(conn)
      ensures !old(closed) ==> conn.sent == old(conn.sent) + [Command.Rollback]
      ensures !old(closed) ==> conn.script == Unmet(old(conn.closed), old(conn.script))
      ensures !old(closed) ==>
                var fault := NextFault(old(conn.script));
                var (s, c, r) := Deliver(old(conn.server), old(conn.closed), Command.Rollback, conn.deferred, fault);
                && (conn.server, conn.closed) == (if r.Error? then HungUp(s, c) else (s, c))
                && err == if r.Error? then ServerError else Nil
      ensures !old(closed) ==> conn.closed || conn.server.status == Idle
      ensures conn.server.committed == old(conn.server.committed)
    {
      if closed {
        return TxClosed;
      }
      var r := conn.Exec(Command.Rollback);
      closed := true;
      if r.Error? {
        conn.Close();
        return ServerError;
      }
      return Nil;
    }
  }

  class DbSavepoint {
    const tx: DbTx
    const savepointNum: int
    var closed: bool

    constructor (tx: DbTx, num: int)
      ensures this.tx == tx && savepointNum == num && !closed
    {
      this.tx, savepointNum, closed := tx, num, false;
    }

    /** Hands a command to the connection, unless the handle is closed. */
    method Exec(cmd: Command) returns (r: Result)
      modifies tx.conn
      ensures closed ==> r == Error && unchanged(tx.conn)
      ensures !closed ==> tx.conn.Delivered(cmd, r)
    {
      if closed {
        return Error;
      }
      r := tx.Exec(cmd);
    }

    method Begin() returns (sp: DbSavepoint?, err: Err)
      modifies tx, tx.conn
      ensures tx.Kept() && (err == Nil <==> sp != null)
      ensures closed || old(tx.closed) ==>
                err == TxClosed && tx.savepointNum == old(tx.savepointNum) && unchanged(tx.conn)
      ensures !closed && !old(tx.closed) ==>
                && tx.savepointNum == old(tx.savepointNum) + 1 && (err == Nil || err == ServerError)
                && tx.conn.Delivered(SetSavepoint(tx.savepointNum), if err == Nil then OK else Error)
      ensures sp != null ==> fresh(sp) && sp.tx == tx && sp.savepointNum == tx.savepointNum && !sp.closed
    {
      if closed {
        return null, TxClosed;
      }
      sp, err := tx.Begin();
    }

    method BeginFunc(f: Prog) returns (err: Err)
      modifies tx, tx.conn
      ensures tx.Kept()
      ensures closed || old(tx.closed) ==> err == TxClosed && unchanged(tx.conn)
      ensures !closed && !old(tx.closed) ==>
                && Bracketed(Since(tx.conn.sent, old(tx.conn.sent)), old(tx.savepointNum), tx.savepointNum)
                && BlockError(Since(tx.conn.sent, old(tx.conn.sent)), err)
      ensures !closed && !old(tx.closed) && old(tx.Ready()) ==>
                var (v, rest, e) := BlockOver(f, old(tx.Sees()), old(tx.conn.script));
                tx.Landed(v) && tx.conn.script == rest && err == e
      decreases f, 4
    {
      if closed {
        return TxClosed;
      }
      err := tx.BeginFunc(f);
    }

    /** Releases the savepoint. The handle is closed whatever the server says. */
    method Commit() returns (err: Err)
      modifies this, tx.conn
      ensures closed && (err == TxClosed <==> old(closed)) && (err == TxClosed || err == Nil || err == ServerError)
      ensures old(closed) ==> unchanged(tx.conn)
      ensures !old(closed) ==> tx.conn.Delivered(Release(savepointNum), if err == Nil then OK else Error)
    {
      if closed {
        return TxClosed;
      }
      var r := Exec(Release(savepointNum));
      closed := true;
      err := if r.Error? then ServerError else Nil;
    }

    /** Rolls back to the savepoint. The handle is closed whatever the server says. */
    method Rollback() returns (err: Err)
      modifies this, tx.conn
      ensures closed && (err == TxClosed <==> old(closed)) && (err == TxClosed || err == Nil || err == ServerError)
      ensures old(closed) ==> unchanged(tx.conn)
      ensures !old(closed) ==> tx.conn.Delivered(RollbackTo(savepointNum), if err == Nil then OK else Error)
    {
      if closed {
        return TxClosed;
      }
      var r := Exec(RollbackTo(savepointNum));
      closed := true;
      err := if r.Error? then ServerError else Nil;
    }
  }

  /** A whole transaction: begun, then ended by exactly one command, which is the last one sent. */
  ghost predicate WholeTx(cmds: seq<Command>, hi: int) {
    && |cmds| > 0 && cmds[0] == Begin
    && (|cmds| > 1 ==>
          && (cmds[|cmds| - 1] == Commit || cmds[|cmds| - 1] == Rollback)
          && Inner(cmds[1..|cmds| - 1], 0, hi))
  }

  /** Inside a transaction, or gone with nothing left open. */
  ghost predicate Settled(s: Server, closed: bool, num: int) {
    if closed then s == Outside(s.committed) else InBlock(s, num)
  }

  /** Ending the transaction: what is committed then, whether the connection is gone, and with which error. */
  lemma CommitLands(a: Server, closed: bool, num: int, deferred: Db -> bool, script: seq<Fault>)
    requires Settled(a, closed, num)
    ensures var (s, c, r) := Deliver(a, closed, Command.Commit, deferred, NextFault(script));
            var end := if r.Error? && s.status != Idle then HungUp(s, c) else (s, c);
            var err := if r.Error? then ServerError else if r.tag == RollbackTag then CommitRollback else Nil;
            var o := CommitOver(a.committed, Seen(a, closed), deferred, script);
            && end == (Outside(o.db), o.gone) && Unmet(closed, script) == o.rest && err == o.err
            && (err == Nil ==> !closed && a.status == InTx && end == (Outside(a.current), false))
  {
  }

  lemma RollbackLands(a: Server, closed: bool, num: int, deferred: Db -> bool, script: seq<Fault>)
    requires Settled(a, closed, num)
    ensures var (s, c, r) := Deliver(a, closed, Command.Rollback, deferred, NextFault(script));
            var o := RollbackOver(a.committed, Seen(a, closed), script);
            && (if r.Error? then HungUp(s, c) else (s, c)) == (Outside(o.db), o.gone)
            && Unmet(closed, script) == o.rest && o.err == CallbackError
  {
  }

  /** Ends a transaction after its callback: by one command, because the deferred rollback finds it closed. */
  method EndTx(tx: DbTx, fErr: Err) returns (err: Err)
    requires !tx.closed && (fErr == Nil || fErr == CallbackError)
    modifies tx, tx.conn
    ensures tx.savepointNum == old(tx.savepointNum)
    ensures tx.conn.sent == old(tx.conn.sent) + [if fErr != Nil then Rollback else Commit]
    ensures tx.conn.closed || tx.conn.server.status == Idle
    ensures err == CallbackError <==> fErr != Nil
    ensures fErr == Nil ==> tx.conn.met == old(tx.conn.server)
    ensures fErr != Nil ==> tx.conn.server.committed == old(tx.conn.server.committed)
    ensures old(tx.IsSettled()) ==>
              var db, after, script := old(tx.conn.server.committed), old(tx.Sees()), old(tx.conn.script);
              tx.conn.Left(if fErr == Nil then CommitOver(db, after, tx.conn.deferred, script)
                           else RollbackOver(db, after, script), err)
    ensures var s := old(tx.conn.server);
            old(tx.conn.closed) || s.status != Idle ==>
              || tx.conn.server.committed == s.committed
              || (&& fErr == Nil && s.status == InTx && tx.conn.deferred(s.current)
                  && tx.conn.server.committed == s.current)
    ensures err == Nil && (old(tx.conn.closed) || old(tx.conn.server.status) != Idle) ==>
              var s := old(tx.conn.server);
              s.status == InTx && (tx.conn.server, tx.conn.closed) == (Outside(s.current), false)
  {
    if tx.IsSettled() {
      CommitLands(tx.conn.server, tx.conn.closed, tx.savepointNum, tx.conn.deferred, tx.conn.script);
      RollbackLands(tx.conn.server, tx.conn.closed, tx.savepointNum, tx.conn.deferred, tx.conn.script);
    }
    if fErr != Nil {
      var _ := tx.Rollback();
      err := fErr;
    } else {
      err := tx.Commit();
    }
    var rollbackErr := tx.Rollback();
    assert rollbackErr == TxClosed;
    if rollbackErr != Nil && rollbackErr != TxClosed {
      err := rollbackErr;
    }
  }

  /** The rest of a transaction, once it is begun. */
  method RunTx(tx: DbTx, f: Prog) returns (err: Err, ghost mid: seq<Command>)
    requires !tx.closed && tx.savepointNum == 0
    modifies tx, tx.conn
    ensures tx.conn.sent == mid + [if err == CallbackError then Rollback else Commit]
    ensures old(tx.conn.sent) <= mid && Inner(Since(mid, old(tx.conn.sent)), 0, tx.savepointNum)
    ensures tx.conn.closed || tx.conn.server.status == Idle
    ensures old(tx.IsSettled()) ==>
              var db := old(tx.conn.server.committed);
              var (after, rest, ok) := SemOver(f, old(tx.Sees()), old(tx.conn.script));
              tx.conn.Left(if ok then CommitOver(db, after, tx.conn.deferred, rest)
                           else RollbackOver(db, after, rest), err)
    ensures !old(tx.conn.closed) && old(tx.conn.server.status) != Idle ==>
              var c := tx.conn;
              || c.server.committed == old(c.server.committed)
              || (&& c.sent[|c.sent| - 1] == Commit && c.met.status == InTx
                  && c.deferred(c.met.current) && c.server.committed == c.met.current)
    ensures err == Nil && !old(tx.conn.closed) && old(tx.conn.server.status) != Idle ==>
              var c := tx.conn;
              c.sent[|c.sent| - 1] == Commit && c.met.status == InTx
              && (c.server, c.closed) == (Outside(c.met.current), false)
  {
    var fErr := tx.Callback(null, f);
    mid := tx.conn.sent;
    err := EndTx(tx, fErr);
  }

  lemma MakesWhole(a: seq<Command>, b: seq<Command>, last: Command, hi: int)
    requires a + [Begin] <= b && (last == Commit || last == Rollback) && Inner(Since(b, a + [Begin]), 0, hi)
    ensures a <= b + [last] && WholeTx(Since(b + [last], a), hi)
  {
    Sandwich(a, Begin, b, last);
  }

  /**
   `Conn.BeginTxFunc`. On a connection outside a transaction, the committed data and the error are those of the
   whole transaction on values over the same network, and without faults those without a network.
   */
  method BeginTxFunc(conn: Conn, f: Prog) returns (err: Err)
    modifies conn
    ensures old(conn.sent) <= conn.sent
    ensures exists hi :: WholeTx(Since(conn.sent, old(conn.sent)), hi)
    ensures |conn.sent| == |old(conn.sent)| + 1 ==> err == ServerError && conn.closed
    ensures err == CallbackError <==> conn.sent[|conn.sent| - 1] == Rollback
    ensures conn.closed || conn.server.status == Idle
    ensures old(conn.closed) ==> err == ServerError && conn.closed && conn.server == old(conn.server)
    ensures old(conn.server.status) == Idle && !old(conn.closed) ==>
              conn.Left(WholeOver(f, old(conn.server.committed), conn.deferred, old(conn.script)), err)
    ensures old(conn.server.status) == Idle && !old(conn.closed) && old(conn.script) == [] ==>
              var (db, e) := Whole(f, old(conn.server.committed), conn.deferred);
              conn.server == Outside(db) && !conn.closed && err == e
    ensures old(conn.server.status) == Idle ==>
              || conn.server.committed == old(conn.server.committed)
              || (&& conn.sent[|conn.sent| - 1] == Commit && conn.met.status == InTx
                  && conn.deferred(conn.met.current) && conn.server.committed == conn.met.current)
    ensures err == Nil && old(conn.server.status) == Idle ==>
              && conn.sent[|conn.sent| - 1] == Commit && conn.met.status == InTx
              && (conn.server, conn.closed) == (Outside(conn.met.current), false)
  {
    var r := conn.Exec(Begin);
    if r.Error? {
      conn.Close();
      assert WholeTx(Since(conn.sent, old(conn.sent)), 0);
      return ServerError;
    }
    var tx := new DbTx(conn);
    assert old(conn.server.status) == Idle ==>
        tx.Ready() && tx.IsSettled() && tx.Sees() == Alive(old(conn.server.committed));
    ghost var mid;
    err, mid := RunTx(tx, f);
    MakesWhole(old(conn.sent), mid, conn.sent[|mid|], tx.savepointNum);
    if old(conn.script) == [] {
      WholeCalm(f, old(conn.server.committed), conn.deferred);
    }
  }
}
