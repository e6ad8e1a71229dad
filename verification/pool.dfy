/**
 The connection pool as interleaved steps: goroutines that acquire, check, release and reacquire resources,
 after-release hooks that run on their own, and a health checker. The resource pool underneath is a set of
 resources with a status; it gives a resource to one taker at a time, and panics when something is returned
 to it that was not given out.

 Taking all idle resources at once is the same as taking them one by one with nothing in between.
 */
module Pool {
  import opened Basics

  type Res = nat

  /** The address of a handle: a place in a slab of handles. */
  datatype Slot = Slot(slab: nat, idx: nat)

  /** Who can reach a resource: a handle through its `res` field, or a goroutine through a local variable. */
  datatype Holder = ByHandle(slot: Slot) | ByTask(id: nat)

  /** What `Conn.Release` looks at. */
  datatype ConnState = ConnState(closed: bool, busy: bool, idleTx: bool, expired: bool)

  predicate Healthy(c: ConnState) {
    !c.closed && !c.busy && c.idleTx && !c.expired
  }

  /** `acq` numbers acquisitions; `owner` is bookkeeping that no step looks at. */
  datatype Status = Constructing | Idle | Acquired(acq: nat, owner: Holder)

  /** A live resource; its unused handles are places `0..free` of slab `slab`. */
  datatype Resource = Resource(status: Status, conn: ConnState, slab: nat, free: nat)

  /** A goroutine with a resource in hand. */
  datatype Task =
    | Acquiring(res: Res)  // taken, not accepted yet by the before-acquire hook
    | Releasing(res: Res)  // `Release` has cleared its handle and not decided yet
    | Hooking(res: Res, checked: ConnState)  // the after-release goroutine
    | Checking(res: Res)  // the health checker

  /**
   How an acquisition ends. `Conn.Release` gives a connection back with its state when checked and the hook's
   verdict, if there is a hook; the health checker with whether it had expired or idled too long.
   */
  datatype Ending =
    | Released(checked: ConnState, verdict: Option<bool>)
    | ReleasedUnused(expired: bool, idledTooLong: bool)
    | Destroyed

  /** One acquisition: of what, what the before-acquire hook said of it if asked, and every way it was ended. */
  datatype Acquisition = Acquisition(res: Res, verdict: Option<bool>, endings: seq<Ending>)

  /** What holds on to a handle for a caller. Rows, transactions and batches forget it once released; a row does not. */
  datatype Wrapper = Wrapper(slot: Option<Slot>, forgets: bool)

  datatype State = State(
    hook: bool,
    resources: map<Res, Resource>,
    handles: map<Slot, Option<Res>>,
    tasks: map<nat, Task>,
    wrappers: seq<Wrapper>,
    nextRes: nat, nextSlab: nat, nextTask: nat,
    acquisitions: seq<Acquisition>,
    panicked: bool)

  function Init(hook: bool): State {
    State(hook, map[], map[], map[], [], 0, 0, 0, [], false)
  }

  // ---- the resource pool ----

  function WithStatus(s: State, r: Res, st: Status): State
    requires r in s.resources
  {
    s.(resources := s.resources[r := s.resources[r].(status := st)])
  }

  /** Gives `r` to a new goroutine. */
  function Take(s: State, r: Res, task: Task): State
    requires r in s.resources
  {
    var s' := WithStatus(s, r, Acquired(|s.acquisitions|, ByTask(s.nextTask)));
    s'.(tasks := s.tasks[s.nextTask := task], nextTask := s.nextTask + 1,
        acquisitions := s.acquisitions + [Acquisition(r, None, [])])
  }

  /** `Release`, `ReleaseUnused` or `Destroy` on a resource. */
  function End(s: State, r: Res, how: Ending): (t: State)
    ensures t.handles == s.handles && t.wrappers == s.wrappers
  {
    if r !in s.resources || !s.resources[r].status.Acquired? then s.(panicked := true)
    else
      var a := s.resources[r].status.acq;
      var s' :=
        if a < |s.acquisitions| then
          var q := s.acquisitions[a];
          s.(acquisitions := s.acquisitions[a := q.(endings := q.endings + [how])])
        else s;
      if how == Destroyed then s'.(resources := s.resources - {r}) else WithStatus(s', r, Idle)
  }

  // ---- handles ----

  /** A fresh handle for `r`, from its slab, or from a new slab of 128 when that is used up. */
  function GetConn(s: State, r: Res): (State, Slot)
    requires r in s.resources && s.resources[r].status.Acquired?
  {
    var x := s.resources[r];
    var (slab, free, next) :=
      if x.free == 0 then (s.nextSlab, 128, s.nextSlab + 1) else (x.slab, x.free, s.nextSlab);
    var slot := Slot(slab, free - 1);
    var x' := x.(slab := slab, free := free - 1, status := Acquired(x.status.acq, ByHandle(slot)));
    (s.(resources := s.resources[r := x'], handles := s.handles[slot := Some(r)], nextSlab := next), slot)
  }

  // ---- steps ----

  datatype Step =
    | Construct  // a resource begins to be made
    | ConstructFails(res: Res)
    | ConstructIdle(res: Res)
    | ConstructForAcquire(res: Res)
    | TakeIdle(res: Res)  // Acquire or AcquireAllIdle
    | TakeForCheck(res: Res)  // the health checker's AcquireAllIdle
    | BeforeAcquire(task: nat, ok: bool)  // the hook's verdict; without a hook it is always yes
    | Release(slot: Slot)  // Conn.Release, on any handle ever issued
    | Decide(task: nat)
    | HookSays(task: nat, ok: bool)
    | HealthCheck(task: nat, idledTooLong: bool)
    | Wrap(slot: Slot, forgets: bool)
    | EndWrapper(w: nat)
    | Change(res: Res, conn: ConnState)  // the connection is used, or its time passes

  function Drop(s: State, id: nat): State {
    s.(tasks := s.tasks - {id})
  }

  /** Writes down the verdict on the acquisition under which `r` is held. */
  function Judged(s: State, r: Res, ok: bool): State {
    if r in s.resources && s.resources[r].status.Acquired? && s.resources[r].status.acq < |s.acquisitions| then
      var a := s.resources[r].status.acq;
      s.(acquisitions := s.acquisitions[a := s.acquisitions[a].(verdict := Some(ok))])
    else s
  }

  function DoBeforeAcquire(s: State, id: nat, ok: bool): State
    requires id in s.tasks && s.tasks[id].Acquiring?
  {
    var r := s.tasks[id].res;
    var s' := Judged(s, r, ok);
    if !ok then End(Drop(s', id), r, Destroyed)
    else if r in s.resources && s.resources[r].status.Acquired? then Drop(GetConn(s', r).0, id)
    else s
  }

  function DoRelease(s: State, slot: Slot): State {
    if slot !in s.handles || s.handles[slot].None? then s
    else
      var r := s.handles[slot].value;
      var s' := s.(handles := s.handles[slot := None],
                   tasks := s.tasks[s.nextTask := Releasing(r)], nextTask := s.nextTask + 1);
      if r in s.resources && s.resources[r].status.Acquired?
      then WithStatus(s', r, Acquired(s.resources[r].status.acq, ByTask(s.nextTask))) else s'
  }

  function DoDecide(s: State, id: nat): (t: State)
    requires id in s.tasks && s.tasks[id].Releasing?
    ensures t.handles == s.handles && t.wrappers == s.wrappers
  {
    var r := s.tasks[id].res;
    var conn := if r in s.resources then s.resources[r].conn else ConnState(true, false, false, false);
    if !Healthy(conn) then End(Drop(s, id), r, Destroyed)
    else if !s.hook then End(Drop(s, id), r, Released(conn, None))
    else s.(tasks := s.tasks[id := Hooking(r, conn)])
  }

  function DoHook(s: State, id: nat, ok: bool): (t: State)
    requires id in s.tasks && s.tasks[id].Hooking?
    ensures t.handles == s.handles && t.wrappers == s.wrappers
  {
    var t := s.tasks[id];
    if ok then End(Drop(s, id), t.res, Released(t.checked, Some(ok)))
    else End(Drop(s, id), t.res, Destroyed)
  }

  function DoHealthCheck(s: State, id: nat, idledTooLong: bool): (t: State)
    requires id in s.tasks && s.tasks[id].Checking?
    ensures t.handles == s.handles && t.wrappers == s.wrappers
  {
    var r := s.tasks[id].res;
    var expired := r in s.resources && s.resources[r].conn.expired;
    if expired then End(Drop(s, id), r, Destroyed)
    else if idledTooLong then End(Drop(s, id), r, Destroyed)
    else End(Drop(s, id), r, ReleasedUnused(expired, idledTooLong))
  }

  function DoWrapper(s: State, w: nat): State
    requires w < |s.wrappers|
  {
    var x := s.wrappers[w];
    if x.slot.None? then s
    else
      var s' := DoRelease(s, x.slot.value);
      if x.forgets then s'.(wrappers := s.wrappers[w := x.(slot := None)]) else s'
  }

  predicate HasStatus(s: State, r: Res, st: Status) {
    r in s.resources && s.resources[r].status == st
  }

  /** One step; a step that does not apply changes nothing. */
  function Next(s: State, step: Step): State {
    match step
    case Construct =>
      var x := Resource(Constructing, ConnState(false, false, true, false), s.nextSlab, 64);
      s.(resources := s.resources[s.nextRes := x], nextRes := s.nextRes + 1, nextSlab := s.nextSlab + 1)
    case ConstructFails(r) => if HasStatus(s, r, Constructing) then s.(resources := s.resources - {r}) else s
    case ConstructIdle(r) => if HasStatus(s, r, Constructing) then WithStatus(s, r, Idle) else s
    case ConstructForAcquire(r) => if HasStatus(s, r, Constructing) then Take(s, r, Acquiring(r)) else s
    case TakeIdle(r) => if HasStatus(s, r, Idle) then Take(s, r, Acquiring(r)) else s
    case TakeForCheck(r) => if HasStatus(s, r, Idle) then Take(s, r, Checking(r)) else s
    case BeforeAcquire(id, ok) =>
      if id in s.tasks && s.tasks[id].Acquiring? then DoBeforeAcquire(s, id, ok) else s
    case Release(slot) => DoRelease(s, slot)
    case Decide(id) => if id in s.tasks && s.tasks[id].Releasing? then DoDecide(s, id) else s
    case HookSays(id, ok) => if id in s.tasks && s.tasks[id].Hooking? then DoHook(s, id, ok) else s
    case HealthCheck(id, idledTooLong) =>
      if id in s.tasks && s.tasks[id].Checking? then DoHealthCheck(s, id, idledTooLong) else s
    case Wrap(slot, forgets) =>
      if slot in s.handles then s.(wrappers := s.wrappers + [Wrapper(Some(slot), forgets)]) else s
    case EndWrapper(w) => if w < |s.wrappers| then DoWrapper(s, w) else s
    case Change(r, conn) =>
      if r in s.resources then s.(resources := s.resources[r := s.resources[r].(conn := conn)]) else s
  }

  function Run(s: State, steps: seq<Step>): State
    decreases steps
  {
    if steps == [] then s else Run(Next(s, steps[0]), steps[1..])
  }

  // ---- the invariant ----

  predicate Holds(s: State, h: Holder, r: Res) {
    match h
    case ByHandle(slot) => slot in s.handles && s.handles[slot] == Some(r)
    case ByTask(id) => id in s.tasks && s.tasks[id].res == r
  }

  /** The status of a resource that is given out. */
  function Given(s: State, r: Res): Option<Status> {
    if r in s.resources && s.resources[r].status.Acquired? then Some(s.resources[r].status) else None
  }

  predicate OwnedBy(s: State, r: Res, h: Holder) {
    Given(s, r).Some? && Given(s, r).value.owner == h
  }

  ghost predicate Ownership(s: State) {
    forall h, r :: Holds(s, h, r) <==> OwnedBy(s, r, h)
  }

  /** Handles issued so far are never handed out again. */
  ghost predicate Slabs(s: State) {
    && (forall r :: r in s.resources ==> s.resources[r].slab < s.nextSlab)
    && (forall r, q :: r in s.resources && q in s.resources && s.resources[r].slab == s.resources[q].slab ==> r == q)
    && (forall slot :: slot in s.handles ==> slot.slab < s.nextSlab)
    && (forall r, slot :: r in s.resources && slot in s.handles && slot.slab == s.resources[r].slab
          ==> slot.idx >= s.resources[r].free)
  }

  /** Ended once, in a way it had earned; and destroyed if the before-acquire hook refused it. */
  predicate EndedWell(hook: bool, q: Acquisition) {
    |q.endings| == 1 && Earned(hook, q.endings[0]) && (q.verdict == Some(false) ==> q.endings == [Destroyed])
  }

  /** `r` is held under an acquisition that is its own, is not ended, and was not refused by the hook. */
  predicate HeldWell(acquisitions: seq<Acquisition>, r: Res, st: Status)
    requires st.Acquired?
  {
    && st.acq < |acquisitions| && acquisitions[st.acq].res == r && acquisitions[st.acq].endings == []
    && acquisitions[st.acq].verdict != Some(false)
    && (st.owner.ByHandle? ==> acquisitions[st.acq].verdict == Some(true))
  }

  /** Acquisition `a` is not ended, and its resource is held under it. */
  predicate StillHeld(s: State, a: nat)
    requires a < |s.acquisitions|
  {
    var q := s.acquisitions[a];
    q.endings == [] && Given(s, q.res).Some? && Given(s, q.res).value.acq == a
  }

  /** An acquisition is ended exactly once, and only when its resource is no longer held under it. */
  ghost predicate Accounts(s: State) {
    && (forall r :: Given(s, r).Some? ==> HeldWell(s.acquisitions, r, Given(s, r).value))
    && (forall a: nat :: a < |s.acquisitions| ==> EndedWell(s.hook, s.acquisitions[a]) || StillHeld(s, a))
  }

  /** A connection that goes back to the pool has earned it. */
  predicate Earned(hook: bool, how: Ending) {
    match how
    case Released(checked, verdict) => Healthy(checked) && verdict == if hook then Some(true) else None
    case ReleasedUnused(expired, idledTooLong) => !expired && !idledTooLong
    case Destroyed => true
  }

  ghost predicate Fresh(s: State) {
    && (forall r :: r in s.resources ==> r < s.nextRes)
    && (forall id :: id in s.tasks ==> id < s.nextTask)
    && (forall id :: id in s.tasks && s.tasks[id].Hooking? ==> s.hook && Healthy(s.tasks[id].checked))
    && (forall w :: 0 <= w < |s.wrappers| && s.wrappers[w].slot.Some? ==> s.wrappers[w].slot.value in s.handles)
  }

  ghost predicate Inv(s: State) {
    !s.panicked && Ownership(s) && Slabs(s) && Accounts(s) && Fresh(s)
  }

  // ---- what a step leaves alone ----

  /** No resource is new or has other handles left, and no handle was issued. */
  ghost predicate SlabsAlone(s: State, t: State) {
    && t.nextSlab == s.nextSlab && t.handles.Keys == s.handles.Keys
    && forall r :: r in t.resources ==>
         r in s.resources && t.resources[r].slab == s.resources[r].slab && t.resources[r].free == s.resources[r].free
  }

  lemma SlabsStay(s: State, t: State)
    requires Slabs(s) && SlabsAlone(s, t)
    ensures Slabs(t)
  {
  }

  ghost predicate GivenAlone(s: State, t: State) {
    forall r :: Given(t, r) == Given(s, r)
  }

  lemma OwnershipStays(s: State, t: State)
    requires Ownership(s) && GivenAlone(s, t) && forall h, r :: Holds(t, h, r) <==> Holds(s, h, r)
    ensures Ownership(t)
  {
    forall h, r
      ensures Holds(t, h, r) <==> OwnedBy(t, r, h)
    {
      assert Holds(s, h, r) <==> OwnedBy(s, r, h);
      assert Given(t, r) == Given(s, r);
    }
  }

  lemma AccountsStay(s: State, t: State)
    requires Accounts(s) && GivenAlone(s, t) && t.acquisitions == s.acquisitions && t.hook == s.hook
    ensures Accounts(t)
  {
    forall a: nat | a < |t.acquisitions| && StillHeld(s, a)
      ensures StillHeld(t, a)
    {
    }
  }

  /** A step that changes no holder, no account and no slab. */
  lemma InvStays(s: State, t: State)
    requires Inv(s) && !t.panicked && Fresh(t) && SlabsAlone(s, t) && GivenAlone(s, t)
    requires forall h, r :: Holds(t, h, r) <==> Holds(s, h, r)
    requires t.acquisitions == s.acquisitions && t.hook == s.hook
    ensures Inv(t)
  {
    OwnershipStays(s, t);
    AccountsStay(s, t);
    SlabsStay(s, t);
  }

  lemma TaskOwns(s: State, id: nat)
    requires Ownership(s) && id in s.tasks
    ensures OwnedBy(s, s.tasks[id].res, ByTask(id))
  {
    assert Holds(s, ByTask(id), s.tasks[id].res);
  }

  // ---- every step keeps it ----

  lemma TakeKeepsOwnership(s: State, r: Res, task: Task)
    requires Ownership(s) && Fresh(s) && r in s.resources && !s.resources[r].status.Acquired? && task.res == r
    ensures Ownership(Take(s, r, task))
  {
    var t := Take(s, r, task);
    assert forall h :: !OwnedBy(s, r, h);
    forall h, q
      ensures Holds(t, h, q) <==> OwnedBy(t, q, h)
    {
      assert Holds(s, h, q) <==> OwnedBy(s, q, h);
      assert !Holds(s, h, r);
    }
  }

  lemma TakeKeepsAccounts(s: State, r: Res, task: Task)
    requires Accounts(s) && r in s.resources && !s.resources[r].status.Acquired?
    ensures Accounts(Take(s, r, task))
  {
    var t := Take(s, r, task);
    forall q | Given(t, q).Some?
      ensures HeldWell(t.acquisitions, q, Given(t, q).value)
    {
      assert q != r ==> Given(t, q) == Given(s, q);
    }
    forall a: nat | a < |t.acquisitions|
      ensures EndedWell(t.hook, t.acquisitions[a]) || StillHeld(t, a)
    {
      assert a < |s.acquisitions| ==> EndedWell(s.hook, s.acquisitions[a]) || StillHeld(s, a);
    }
  }

  lemma TakeKeeps(s: State, r: Res, task: Task)
    requires Inv(s) && r in s.resources && !s.resources[r].status.Acquired?
    requires task.res == r && !task.Hooking?
    ensures Inv(Take(s, r, task))
  {
    TakeKeepsOwnership(s, r, task);
    TakeKeepsAccounts(s, r, task);
    SlabsStay(s, Take(s, r, task));
  }

  lemma EndKeepsAccounts(s: State, id: nat, how: Ending)
    requires Accounts(s) && Earned(s.hook, how) && id in s.tasks && OwnedBy(s, s.tasks[id].res, ByTask(id))
    ensures Accounts(End(Drop(s, id), s.tasks[id].res, how))
  {
    var r := s.tasks[id].res;
    var t := End(Drop(s, id), r, how);
    assert t.acquisitions[Given(s, r).value.acq].endings == [how];
    forall q | Given(t, q).Some?
      ensures HeldWell(t.acquisitions, q, Given(t, q).value)
    {
      assert q != r ==> Given(t, q) == Given(s, q);
    }
    forall a: nat | a < |t.acquisitions|
      ensures EndedWell(t.hook, t.acquisitions[a]) || StillHeld(t, a)
    {
      assert a < |s.acquisitions| ==> EndedWell(s.hook, s.acquisitions[a]) || StillHeld(s, a);
    }
  }

  lemma EndKeepsOwnership(s: State, id: nat, how: Ending)
    requires Ownership(s) && id in s.tasks && OwnedBy(s, s.tasks[id].res, ByTask(id))
    ensures Ownership(End(Drop(s, id), s.tasks[id].res, how))
  {
    var r := s.tasks[id].res;
    var t := End(Drop(s, id), r, how);
    forall h, q
      ensures Holds(t, h, q) <==> OwnedBy(t, q, h)
    {
      assert Holds(s, h, q) <==> OwnedBy(s, q, h);
      assert Holds(s, h, r) <==> OwnedBy(s, r, h);
    }
  }

  lemma EndKeeps(s: State, id: nat, how: Ending)
    requires Inv(s) && id in s.tasks && Earned(s.hook, how)
    ensures Inv(End(Drop(s, id), s.tasks[id].res, how))
  {
    TaskOwns(s, id);
    EndKeepsAccounts(s, id, how);
    EndKeepsOwnership(s, id, how);
    SlabsStay(s, End(Drop(s, id), s.tasks[id].res, how));
  }

  /** Writing a verdict down, of an acquisition that is held or was destroyed, keeps the accounts. */
  lemma VerdictKeeps(s: State, a: nat, ok: bool)
    requires Inv(s) && a < |s.acquisitions|
    requires ok || s.acquisitions[a].endings == [Destroyed]
    ensures Inv(s.(acquisitions := s.acquisitions[a := s.acquisitions[a].(verdict := Some(ok))]))
  {
    var t := s.(acquisitions := s.acquisitions[a := s.acquisitions[a].(verdict := Some(ok))]);
    OwnershipStays(s, t);
    SlabsStay(s, t);
  }

  /** A new handle is none of those issued before. */
  lemma GetConnIsNew(s: State, r: Res, slot: Slot)
    requires Slabs(s) && r in s.resources && s.resources[r].status.Acquired? && slot in s.handles
    ensures GetConn(s, r).1 != slot
  {
  }

  lemma GetConnKeepsSlabs(s: State, r: Res)
    requires Slabs(s) && r in s.resources && s.resources[r].status.Acquired?
    ensures Slabs(GetConn(s, r).0)
  {
  }

  lemma GetConnKeepsOwnership(s: State, id: nat)
    requires Ownership(s) && id in s.tasks && OwnedBy(s, s.tasks[id].res, ByTask(id))
    requires GetConn(s, s.tasks[id].res).1 !in s.handles
    ensures Ownership(Drop(GetConn(s, s.tasks[id].res).0, id))
  {
    var r := s.tasks[id].res;
    var t := Drop(GetConn(s, r).0, id);
    forall h, q
      ensures Holds(t, h, q) <==> OwnedBy(t, q, h)
    {
      assert Holds(s, h, q) <==> OwnedBy(s, q, h);
      assert Holds(s, h, r) <==> OwnedBy(s, r, h);
    }
  }

  lemma GetConnKeepsAccounts(s: State, id: nat)
    requires Accounts(s) && id in s.tasks && OwnedBy(s, s.tasks[id].res, ByTask(id))
    requires s.acquisitions[s.resources[s.tasks[id].res].status.acq].verdict == Some(true)
    ensures Accounts(Drop(GetConn(s, s.tasks[id].res).0, id))
  {
    var r := s.tasks[id].res;
    var t := Drop(GetConn(s, r).0, id);
    forall q | Given(t, q).Some?
      ensures HeldWell(t.acquisitions, q, Given(t, q).value)
    {
      assert q != r ==> Given(t, q) == Given(s, q);
    }
    forall a: nat | a < |t.acquisitions|
      ensures EndedWell(t.hook, t.acquisitions[a]) || StillHeld(t, a)
    {
      assert a < |s.acquisitions| ==> EndedWell(s.hook, s.acquisitions[a]) || StillHeld(s, a);
    }
  }

  lemma GetConnKeeps(s: State, id: nat)
    requires Inv(s) && id in s.tasks && OwnedBy(s, s.tasks[id].res, ByTask(id))
    requires s.acquisitions[s.resources[s.tasks[id].res].status.acq].verdict == Some(true)
    ensures Inv(Drop(GetConn(s, s.tasks[id].res).0, id))
  {
    var r := s.tasks[id].res;
    forall slot | slot in s.handles
      ensures GetConn(s, r).1 != slot
    {
      GetConnIsNew(s, r, slot);
    }
    GetConnKeepsOwnership(s, id);
    GetConnKeepsAccounts(s, id);
    GetConnKeepsSlabs(s, r);
    SlabsStay(GetConn(s, r).0, Drop(GetConn(s, r).0, id));
  }

  lemma AcceptKeeps(s: State, id: nat)
    requires Inv(s) && id in s.tasks && s.tasks[id].Acquiring?
    ensures Inv(DoBeforeAcquire(s, id, true))
  {
    var r := s.tasks[id].res;
    TaskOwns(s, id);
    VerdictKeeps(s, s.resources[r].status.acq, true);
    GetConnKeeps(Judged(s, r, true), id);
  }

  lemma RejectKeeps(s: State, id: nat)
    requires Inv(s) && id in s.tasks && s.tasks[id].Acquiring?
    ensures Inv(DoBeforeAcquire(s, id, false))
  {
    var r := s.tasks[id].res;
    TaskOwns(s, id);
    var a := s.resources[r].status.acq;
    var t := End(Drop(s, id), r, Destroyed);
    EndKeeps(s, id, Destroyed);
    VerdictKeeps(t, a, false);
    assert DoBeforeAcquire(s, id, false).acquisitions
        == t.acquisitions[a := t.acquisitions[a].(verdict := Some(false))];
  }

  /** The handle has a resource, and `Release` will do something. */
  predicate Live(s: State, slot: Slot) {
    slot in s.handles && s.handles[slot].Some?
  }

  lemma ReleaseKeepsOwnership(s: State, slot: Slot)
    requires Ownership(s) && Fresh(s) && Live(s, slot) && OwnedBy(s, s.handles[slot].value, ByHandle(slot))
    ensures Ownership(DoRelease(s, slot))
  {
    var r := s.handles[slot].value;
    var t := DoRelease(s, slot);
    forall h, q
      ensures Holds(t, h, q) <==> OwnedBy(t, q, h)
    {
      assert Holds(s, h, q) <==> OwnedBy(s, q, h);
      assert Holds(s, h, r) <==> OwnedBy(s, r, h);
    }
  }

  lemma ReleaseKeepsAccounts(s: State, slot: Slot)
    requires Accounts(s) && Live(s, slot) && OwnedBy(s, s.handles[slot].value, ByHandle(slot))
    ensures Accounts(DoRelease(s, slot))
  {
    var r := s.handles[slot].value;
    var t := DoRelease(s, slot);
    forall q | Given(t, q).Some?
      ensures HeldWell(t.acquisitions, q, Given(t, q).value)
    {
      assert q != r ==> Given(t, q) == Given(s, q);
    }
    forall a: nat | a < |t.acquisitions|
      ensures EndedWell(t.hook, t.acquisitions[a]) || StillHeld(t, a)
    {
      assert a < |s.acquisitions| ==> EndedWell(s.hook, s.acquisitions[a]) || StillHeld(s, a);
    }
  }

  lemma ReleaseKeeps(s: State, slot: Slot)
    requires Inv(s)
    ensures Inv(DoRelease(s, slot))
  {
    if Live(s, slot) {
      assert Holds(s, ByHandle(slot), s.handles[slot].value);
      ReleaseKeepsOwnership(s, slot);
      ReleaseKeepsAccounts(s, slot);
      SlabsStay(s, DoRelease(s, slot));
    }
  }

  lemma ConstructKeeps(s: State)
    requires Inv(s)
    ensures Inv(Next(s, Construct))
  {
    OwnershipStays(s, Next(s, Construct));
    AccountsStay(s, Next(s, Construct));
  }

  lemma ConstructFailsKeeps(s: State, r: Res)
    requires Inv(s)
    ensures Inv(Next(s, ConstructFails(r)))
  {
    InvStays(s, Next(s, ConstructFails(r)));
  }

  /** A resource that changes, and is given out as before or not at all. */
  predicate SameSlab(x: Resource, y: Resource) {
    x.slab == y.slab && x.free == y.free && (x.status == y.status || (!x.status.Acquired? && !y.status.Acquired?))
  }

  lemma ReworkLeaves(s: State, r: Res, x: Resource)
    requires r in s.resources && SameSlab(x, s.resources[r])
    ensures SlabsAlone(s, s.(resources := s.resources[r := x])) && GivenAlone(s, s.(resources := s.resources[r := x]))
  {
  }

  lemma ReworkKeepsFresh(s: State, r: Res, x: Resource)
    requires Fresh(s) && r in s.resources
    ensures Fresh(s.(resources := s.resources[r := x]))
  {
  }

  lemma ReworkKeeps(s: State, r: Res, x: Resource)
    requires Inv(s) && r in s.resources && SameSlab(x, s.resources[r])
    ensures Inv(s.(resources := s.resources[r := x]))
  {
    ReworkLeaves(s, r, x);
    ReworkKeepsFresh(s, r, x);
    InvStays(s, s.(resources := s.resources[r := x]));
  }

  lemma ConstructIdleKeeps(s: State, r: Res)
    requires Inv(s)
    ensures Inv(Next(s, ConstructIdle(r)))
  {
    if HasStatus(s, r, Constructing) {
      ReworkKeeps(s, r, s.resources[r].(status := Idle));
    }
  }

  lemma ChangeKeeps(s: State, r: Res, conn: ConnState)
    requires Inv(s)
    ensures Inv(Next(s, Change(r, conn)))
  {
    if r in s.resources {
      ReworkKeeps(s, r, s.resources[r].(conn := conn));
    }
  }

  lemma WrapKeeps(s: State, slot: Slot, forgets: bool)
    requires Inv(s)
    ensures Inv(Next(s, Wrap(slot, forgets)))
  {
    InvStays(s, Next(s, Wrap(slot, forgets)));
  }

  lemma DecideKeeps(s: State, id: nat)
    requires Inv(s) && id in s.tasks && s.tasks[id].Releasing?
    ensures Inv(DoDecide(s, id))
  {
    var r := s.tasks[id].res;
    TaskOwns(s, id);
    var conn := s.resources[r].conn;
    if !Healthy(conn) {
      EndKeeps(s, id, Destroyed);
    } else if !s.hook {
      EndKeeps(s, id, Released(conn, None));
    } else {
      InvStays(s, DoDecide(s, id));
    }
  }

  lemma HookKeeps(s: State, id: nat, ok: bool)
    requires Inv(s) && id in s.tasks && s.tasks[id].Hooking?
    ensures Inv(DoHook(s, id, ok))
  {
    var t := s.tasks[id];
    EndKeeps(s, id, if ok then Released(t.checked, Some(true)) else Destroyed);
  }

  lemma CheckKeeps(s: State, id: nat, idledTooLong: bool)
    requires Inv(s) && id in s.tasks && s.tasks[id].Checking?
    ensures Inv(DoHealthCheck(s, id, idledTooLong))
  {
    var r := s.tasks[id].res;
    var destroyed := (r in s.resources && s.resources[r].conn.expired) || idledTooLong;
    EndKeeps(s, id, if destroyed then Destroyed else ReleasedUnused(false, false));
  }

  lemma WrapperKeeps(s: State, w: nat)
    requires Inv(s) && w < |s.wrappers|
    ensures Inv(DoWrapper(s, w))
  {
    var x := s.wrappers[w];
    if x.slot.Some? {
      ReleaseKeeps(s, x.slot.value);
      InvStays(DoRelease(s, x.slot.value), DoWrapper(s, w));
    }
  }

  lemma BeforeAcquireKeeps(s: State, id: nat, ok: bool)
    requires Inv(s) && id in s.tasks && s.tasks[id].Acquiring?
    ensures Inv(DoBeforeAcquire(s, id, ok))
  {
    if ok { AcceptKeeps(s, id); } else { RejectKeeps(s, id); }
  }

  lemma AcquireStepKeeps(s: State, id: nat, ok: bool)
    requires Inv(s)
    ensures Inv(Next(s, BeforeAcquire(id, ok)))
  {
    if id in s.tasks && s.tasks[id].Acquiring? {
      BeforeAcquireKeeps(s, id, ok);
    }
  }

  lemma DecideStepKeeps(s: State, id: nat)
    requires Inv(s)
    ensures Inv(Next(s, Decide(id)))
  {
    if id in s.tasks && s.tasks[id].Releasing? {
      DecideKeeps(s, id);
    }
  }

  lemma HookStepKeeps(s: State, id: nat, ok: bool)
    requires Inv(s)
    ensures Inv(Next(s, HookSays(id, ok)))
  {
    if id in s.tasks && s.tasks[id].Hooking? {
      HookKeeps(s, id, ok);
    }
  }

  lemma CheckStepKeeps(s: State, id: nat, late: bool)
    requires Inv(s)
    ensures Inv(Next(s, HealthCheck(id, late)))
  {
    if id in s.tasks && s.tasks[id].Checking? {
      CheckKeeps(s, id, late);
    }
  }

  lemma TakeStepKeeps(s: State, step: Step)
    requires Inv(s) && (step.ConstructForAcquire? || step.TakeIdle? || step.TakeForCheck?)
    ensures Inv(Next(s, step))
  {
    var r := step.res;
    if r in s.resources && !s.resources[r].status.Acquired? {
      TakeKeeps(s, r, if step.TakeForCheck? then Checking(r) else Acquiring(r));
    }
  }

  lemma StepKeeps(s: State, step: Step)
    requires Inv(s)
    ensures Inv(Next(s, step))
  {
    match step
    case Construct => ConstructKeeps(s);
    case ConstructFails(r) => ConstructFailsKeeps(s, r);
    case ConstructIdle(r) => ConstructIdleKeeps(s, r);
    case ConstructForAcquire(_) => TakeStepKeeps(s, step);
    case TakeIdle(_) => TakeStepKeeps(s, step);
    case TakeForCheck(_) => TakeStepKeeps(s, step);
    case BeforeAcquire(id, ok) => AcquireStepKeeps(s, id, ok);
    case Release(slot) => ReleaseKeeps(s, slot);
    case Decide(id) => DecideStepKeeps(s, id);
    case HookSays(id, ok) => HookStepKeeps(s, id, ok);
    case HealthCheck(id, late) => CheckStepKeeps(s, id, late);
    case Wrap(slot, forgets) => WrapKeeps(s, slot, forgets);
    case EndWrapper(w) => if w < |s.wrappers| { WrapperKeeps(s, w); }
    case Change(r, conn) => ChangeKeeps(s, r, conn);
  }

  lemma {:induction false} RunKeeps(s: State, steps: seq<Step>)
    requires Inv(s)
    ensures Inv(Run(s, steps))
    decreases steps
  {
    if steps != [] {
      StepKeeps(s, steps[0]);
      RunKeeps(Next(s, steps[0]), steps[1..]);
    }
  }

  // ---- what that means ----

  /** The before-acquire hook let the acquisition pass under which `r` is held. */
  predicate Accepted(s: State, r: Res)
    requires r in s.resources && s.resources[r].status.Acquired?
  {
    var a := s.resources[r].status.acq;
    a < |s.acquisitions| && s.acquisitions[a].verdict == Some(true)
  }

  /**
   In every interleaving: nothing is ever returned to the resource pool that was not given out; a resource
   is held by nobody while it is idle or being made, and by exactly one handle or goroutine while it is given
   out, and by a handle only if the before-acquire hook let it pass; every acquisition has been ended once, or
   not yet and is still held; and every connection that went back to the pool had earned it.
   */
  lemma {:induction false} PoolIsSafe(hook: bool, steps: seq<Step>)
    ensures var s := Run(Init(hook), steps);
            && !s.panicked
            && (forall r, g, h :: Holds(s, g, r) && Holds(s, h, r) ==> g == h)
            && (forall h, r :: Holds(s, h, r) ==> r in s.resources && s.resources[r].status.Acquired?)
            && (forall h, r :: Holds(s, h, r) && h.ByHandle? ==> Accepted(s, r))
            && (forall r :: r in s.resources && s.resources[r].status.Acquired? ==> exists h :: Holds(s, h, r))
            && (forall a :: 0 <= a < |s.acquisitions| ==>
                  var q := s.acquisitions[a];
                  || EndedWell(s.hook, q)
                  || (q.endings == [] && exists h :: Holds(s, h, q.res)))
  {
    RunKeeps(Init(hook), steps);
    var s := Run(Init(hook), steps);
    forall r | r in s.resources && s.resources[r].status.Acquired?
      ensures Holds(s, s.resources[r].status.owner, r)
    {
      assert OwnedBy(s, r, s.resources[r].status.owner);
    }
  }

  predicate Spent(s: State, slot: Slot) {
    slot in s.handles && s.handles[slot].None?
  }

  // ---- what becomes of a connection ----

  /** Between `s` and `t` nothing happened to a resource other than `r`, or to a goroutine other than `id`. */
  predicate OnlyThese(s: State, t: State, r: Res, id: nat) {
    t.hook == s.hook && t.resources - {r} == s.resources - {r} && t.tasks - {id} == s.tasks - {id}
  }

  /**
   Taking a resource that is idle, or was just made for it: a new goroutine has it in hand. One that is not idle, or
   not being made, is not taken.
   */
  predicate Taken(s: State, step: Step, t: State)
    requires step.ConstructForAcquire? || step.TakeIdle? || step.TakeForCheck?
  {
    var r, id, fits := step.res, s.nextTask, if step.ConstructForAcquire? then Constructing else Idle;
    if r in s.resources && s.resources[r].status == fits then
      && id !in s.tasks && OnlyThese(s, t, r, id) && t.handles == s.handles && OwnedBy(t, r, ByTask(id))
      && id in t.tasks && t.tasks[id] == (if step.TakeForCheck? then Checking(r) else Acquiring(r))
      && t.resources[r].(status := fits) == s.resources[r]
    else t == s
  }

  /**
   A goroutine that acquires: if the hook lets the connection pass, a handle that was never issued has it, from the
   slab in use or the end of a new one, and the goroutine is done; if not, the connection is gone.
   */
  ghost predicate Acquires(s: State, id: nat, ok: bool, t: State)
    requires id in s.tasks
  {
    var r := s.tasks[id].res;
    && r in s.resources && OnlyThese(s, t, r, id) && id !in t.tasks
    && if ok then
         exists slot ::
           && slot !in s.handles && t.handles == s.handles[slot := Some(r)] && OwnedBy(t, r, ByHandle(slot))
           && slot.idx == (if s.resources[r].free == 0 then 127 else s.resources[r].free - 1)
           && t.resources[r].conn == s.resources[r].conn
       else r !in t.resources && t.handles == s.handles
  }

  /** Releasing a handle: a new goroutine has its connection in hand, and the handle is spent; or it was spent. */
  predicate Releases(s: State, slot: Slot, t: State) {
    if Live(s, slot) then
      var r, id := s.handles[slot].value, s.nextTask;
      && r in s.resources && id !in s.tasks && OnlyThese(s, t, r, id) && t.handles == s.handles[slot := None]
      && OwnedBy(t, r, ByTask(id)) && id in t.tasks && t.tasks[id] == Releasing(r)
      && t.resources[r].(status := s.resources[r].status) == s.resources[r]
    else t.resources == s.resources && t.tasks == s.tasks && t.handles == s.handles
  }

  /** The resource `r` is idle as it is, or gone; and the goroutine that had it in hand is done. */
  predicate BackOrGone(s: State, r: Res, id: nat, back: bool, t: State) {
    && r in s.resources && OnlyThese(s, t, r, id) && id !in t.tasks && t.handles == s.handles
    && if back then r in t.resources && t.resources[r] == s.resources[r].(status := Idle) else r !in t.resources
  }

  /**
   A connection that is being released goes on, to the idle ones or to the after-release hook if there is one, if and
   only if it is open, not busy, outside a transaction and not expired. Otherwise it is gone.
   */
  predicate Decides(s: State, id: nat, t: State)
    requires id in s.tasks
  {
    var r := s.tasks[id].res;
    && r in s.resources
    && var c := s.resources[r].conn;
       var good := !c.closed && !c.busy && c.idleTx && !c.expired;
       if good && s.hook then t == s.(tasks := s.tasks[id := Hooking(r, c)]) else BackOrGone(s, r, id, good, t)
  }

  /** The health checker puts a connection back if and only if it has neither expired nor been idle too long. */
  predicate Checks(s: State, id: nat, idledTooLong: bool, t: State)
    requires id in s.tasks
  {
    var r := s.tasks[id].res;
    r in s.resources && BackOrGone(s, r, id, !s.resources[r].conn.expired && !idledTooLong, t)
  }

  /** What a step of the pool does. The steps left out are those of the world around it: see `OthersHoldOn`. */
  ghost predicate Does(s: State, step: Step, t: State) {
    match step
    case Construct => OthersHoldOn(s, t) && Made(s, t)
    case ConstructForAcquire(_) => Taken(s, step, t)
    case TakeIdle(_) => Taken(s, step, t)
    case TakeForCheck(_) => Taken(s, step, t)
    case BeforeAcquire(id, ok) => if id in s.tasks && s.tasks[id].Acquiring? then Acquires(s, id, ok, t) else t == s
    case Release(slot) => Releases(s, slot, t)
    case Decide(id) => if id in s.tasks && s.tasks[id].Releasing? then Decides(s, id, t) else t == s
    case HookSays(id, ok) =>
      if id in s.tasks && s.tasks[id].Hooking? then BackOrGone(s, s.tasks[id].res, id, ok, t) else t == s
    case HealthCheck(id, late) => if id in s.tasks && s.tasks[id].Checking? then Checks(s, id, late, t) else t == s
    case EndWrapper(w) =>
      if w < |s.wrappers| && s.wrappers[w].slot.Some? then Releases(s, s.wrappers[w].slot.value, t) else t == s
    case _ => OthersHoldOn(s, t)
  }

  /** Nothing that is given out changes hands, and no goroutine or handle comes or goes. */
  ghost predicate OthersHoldOn(s: State, t: State) {
    (forall r :: Given(t, r) == Given(s, r)) && t.tasks == s.tasks && t.handles == s.handles
  }

  /** There is one resource more, which is being made, with 64 handles. */
  predicate Made(s: State, t: State) {
    var r := s.nextRes;
    && r !in s.resources && t.resources - {r} == s.resources && HasStatus(t, r, Constructing)
    && t.resources[r].free == 64
  }

  lemma TakeOutcome(s: State, step: Step)
    requires Inv(s) && (step.ConstructForAcquire? || step.TakeIdle? || step.TakeForCheck?)
    ensures Taken(s, step, Next(s, step))
  {
  }

  lemma AcquireOutcome(s: State, id: nat, ok: bool)
    requires Inv(s) && id in s.tasks && s.tasks[id].Acquiring?
    ensures Acquires(s, id, ok, DoBeforeAcquire(s, id, ok))
  {
    var r := s.tasks[id].res;
    TaskOwns(s, id);
    if ok {
      var s' := Judged(s, r, true);
      var slot := GetConn(s', r).1;
      if slot in s'.handles {
        GetConnIsNew(s', r, slot);
      }
      assert slot !in s.handles && OwnedBy(DoBeforeAcquire(s, id, true), r, ByHandle(slot));
    }
  }

  lemma ReleaseOutcome(s: State, slot: Slot)
    requires Inv(s)
    ensures Releases(s, slot, DoRelease(s, slot))
  {
    if Live(s, slot) {
      assert Holds(s, ByHandle(slot), s.handles[slot].value);
    }
  }

  lemma EndOutcome(s: State, id: nat, how: Ending)
    requires Inv(s) && id in s.tasks
    ensures BackOrGone(s, s.tasks[id].res, id, how != Destroyed, End(Drop(s, id), s.tasks[id].res, how))
  {
    TaskOwns(s, id);
  }

  lemma DecideOutcome(s: State, id: nat)
    requires Inv(s) && id in s.tasks && s.tasks[id].Releasing?
    ensures Decides(s, id, DoDecide(s, id))
  {
    var r := s.tasks[id].res;
    TaskOwns(s, id);
    EndOutcome(s, id, if Healthy(s.resources[r].conn) then Released(s.resources[r].conn, None) else Destroyed);
  }

  lemma HookOutcome(s: State, id: nat, ok: bool)
    requires Inv(s) && id in s.tasks && s.tasks[id].Hooking?
    ensures BackOrGone(s, s.tasks[id].res, id, ok, DoHook(s, id, ok))
  {
    EndOutcome(s, id, if ok then Released(s.tasks[id].checked, Some(ok)) else Destroyed);
  }

  lemma CheckOutcome(s: State, id: nat, late: bool)
    requires Inv(s) && id in s.tasks && s.tasks[id].Checking?
    ensures Checks(s, id, late, DoHealthCheck(s, id, late))
  {
    var r := s.tasks[id].res;
    TaskOwns(s, id);
    var gone := s.resources[r].conn.expired || late;
    EndOutcome(s, id, if gone then Destroyed else ReleasedUnused(false, false));
  }

  lemma WrapperOutcome(s: State, w: nat)
    requires Inv(s) && w < |s.wrappers| && s.wrappers[w].slot.Some?
    ensures Releases(s, s.wrappers[w].slot.value, DoWrapper(s, w))
  {
    ReleaseOutcome(s, s.wrappers[w].slot.value);
  }

  lemma OthersOutcome(s: State, step: Step)
    requires step.Construct? || step.ConstructFails? || step.ConstructIdle? || step.Wrap? || step.Change?
    requires Inv(s)
    ensures OthersHoldOn(s, Next(s, step)) && (step.Construct? ==> Made(s, Next(s, step)))
  {
  }

  lemma StepOutcome(s: State, step: Step)
    requires Inv(s)
    ensures Does(s, step, Next(s, step))
  {
    match step
    case ConstructForAcquire(_) => TakeOutcome(s, step);
    case TakeIdle(_) => TakeOutcome(s, step);
    case TakeForCheck(_) => TakeOutcome(s, step);
    case BeforeAcquire(id, ok) => if id in s.tasks && s.tasks[id].Acquiring? { AcquireOutcome(s, id, ok); }
    case Release(slot) => ReleaseOutcome(s, slot);
    case Decide(id) => if id in s.tasks && s.tasks[id].Releasing? { DecideOutcome(s, id); }
    case HookSays(id, ok) => if id in s.tasks && s.tasks[id].Hooking? { HookOutcome(s, id, ok); }
    case HealthCheck(id, late) => if id in s.tasks && s.tasks[id].Checking? { CheckOutcome(s, id, late); }
    case EndWrapper(w) => if w < |s.wrappers| && s.wrappers[w].slot.Some? { WrapperOutcome(s, w); }
    case _ => OthersOutcome(s, step);
  }

  /** In every interleaving, every step does exactly this to the connection it is about, and nothing to another. */
  lemma {:induction false} PoolDoes(hook: bool, steps: seq<Step>, step: Step)
    ensures var s := Run(Init(hook), steps); Does(s, step, Next(s, step))
  {
    RunKeeps(Init(hook), steps);
    StepOutcome(Run(Init(hook), steps), step);
  }

  /** Releasing a handle and deciding, and the hook's consent if there is a hook, with nothing in between. */
  function Returned(s: State, slot: Slot): State {
    var id := s.nextTask;
    var t := Next(Next(s, Release(slot)), Decide(id));
    if s.hook then Next(t, HookSays(id, true)) else t
  }

  /** The connection of a handle is idle if it was in good order, and gone if not; and the handle is spent. */
  predicate BackFrom(s: State, slot: Slot, t: State)
    requires Live(s, slot)
  {
    var r := s.handles[slot].value;
    && r in s.resources && Spent(t, slot)
    && var c := s.resources[r].conn;
       if !c.closed && !c.busy && c.idleTx && !c.expired
       then HasStatus(t, r, Idle) && t.resources[r].conn == c else r !in t.resources
  }

  lemma BackInSteps(s: State, slot: Slot, t: State, u: State, v: State)
    requires Live(s, slot) && Releases(s, slot, t) && Decides(t, s.nextTask, u)
    requires if s.hook && s.nextTask in u.tasks
             then BackOrGone(u, u.tasks[s.nextTask].res, s.nextTask, true, v) else v == u
    ensures BackFrom(s, slot, v)
  {
  }

  /**
   A connection comes back: its handle is released and the hook consents, and then it is idle if and only if it was
   open, not busy, outside a transaction and not expired, and gone otherwise.
   */
  lemma ComesBack(s: State, slot: Slot)
    requires Inv(s) && Live(s, slot)
    ensures BackFrom(s, slot, Returned(s, slot))
  {
    var id := s.nextTask;
    var t := Next(s, Release(slot));
    var u := Next(t, Decide(id));
    StepOutcome(s, Release(slot));
    StepKeeps(s, Release(slot));
    StepOutcome(t, Decide(id));
    StepKeeps(t, Decide(id));
    StepOutcome(u, HookSays(id, true));
    BackInSteps(s, slot, t, u, Returned(s, slot));
  }

  lemma BeforeAcquireKeepsSpent(s: State, id: nat, ok: bool, slot: Slot)
    requires Slabs(s) && Spent(s, slot) && id in s.tasks && s.tasks[id].Acquiring?
    ensures Spent(DoBeforeAcquire(s, id, ok), slot)
  {
    var r := s.tasks[id].res;
    if r in s.resources && s.resources[r].status.Acquired? {
      GetConnIsNew(s, r, slot);
    }
  }

  lemma ReleaseKeepsSpent(s: State, used: Slot, slot: Slot)
    requires Spent(s, slot)
    ensures Spent(DoRelease(s, used), slot) && (used in s.handles ==> Spent(DoRelease(s, used), used))
  {
  }

  /** The steps that can change a handle. */
  predicate ChangesHandles(step: Step) {
    step.BeforeAcquire? || step.Release? || step.EndWrapper?
  }

  lemma OthersLeaveHandles(s: State, step: Step)
    requires !ChangesHandles(step)
    ensures Next(s, step).handles == s.handles
  {
  }

  lemma StepKeepsSpent(s: State, step: Step, slot: Slot)
    requires Inv(s) && Spent(s, slot)
    ensures Spent(Next(s, step), slot)
  {
    if !ChangesHandles(step) {
      OthersLeaveHandles(s, step);
    } else {
      match step
      case BeforeAcquire(id, ok) =>
        if id in s.tasks && s.tasks[id].Acquiring? { BeforeAcquireKeepsSpent(s, id, ok, slot); }
      case Release(used) => ReleaseKeepsSpent(s, used, slot);
      case EndWrapper(w) =>
        if w < |s.wrappers| && s.wrappers[w].slot.Some? { ReleaseKeepsSpent(s, s.wrappers[w].slot.value, slot); }
    }
  }

  /**
   A handle that was released stays released for ever, whatever is acquired later: releasing it again, in
   any later state, changes nothing.
   */
  lemma {:induction false} SpentForEver(s: State, steps: seq<Step>, slot: Slot)
    requires Inv(s) && Spent(s, slot)
    ensures Spent(Run(s, steps), slot) && Next(Run(s, steps), Release(slot)) == Run(s, steps)
    decreases steps
  {
    if steps != [] {
      StepKeepsSpent(s, steps[0], slot);
      StepKeeps(s, steps[0]);
      SpentForEver(Next(s, steps[0]), steps[1..], slot);
    }
  }

  /** Releasing a handle spends it, and closing rows, a row, a transaction or a batch a second time does nothing. */
  lemma {:induction false} ClosesOnce(s: State, w: nat, steps: seq<Step>)
    requires Inv(s) && w < |s.wrappers| && s.wrappers[w].slot.Some?
    ensures var t := Run(Next(s, EndWrapper(w)), steps);
            Spent(t, s.wrappers[w].slot.value) && w < |t.wrappers| && Next(t, EndWrapper(w)) == t
  {
    var slot := s.wrappers[w].slot.value;
    var m := Next(s, EndWrapper(w));
    StepKeeps(s, EndWrapper(w));
    EndWrapperSettles(s, w);
    SpentForEver(m, steps, slot);
    RunKeepsSettled(m, steps, w, slot);
    SettledStays(Run(m, steps), w, slot);
  }

  lemma EndWrapperSettles(s: State, w: nat)
    requires Fresh(s) && w < |s.wrappers| && s.wrappers[w].slot.Some?
    ensures var t, slot := Next(s, EndWrapper(w)), s.wrappers[w].slot.value; Spent(t, slot) && Settled(t, w, slot)
  {
  }

  lemma SettledStays(s: State, w: nat, slot: Slot)
    requires Settled(s, w, slot) && Spent(s, slot)
    ensures Next(s, EndWrapper(w)) == s
  {
  }

  /** Closing does nothing more: the wrapper has forgotten its handle, or never does and the handle is spent. */
  predicate Settled(s: State, w: nat, slot: Slot) {
    w < |s.wrappers| && (s.wrappers[w].slot == None || s.wrappers[w] == Wrapper(Some(slot), false))
  }

  lemma OthersLeaveWrappers(s: State, step: Step)
    requires !step.Wrap? && !step.EndWrapper?
    ensures Next(s, step).wrappers == s.wrappers
  {
  }

  lemma StepKeepsSettled(s: State, step: Step, w: nat, slot: Slot)
    requires Settled(s, w, slot)
    ensures Settled(Next(s, step), w, slot)
  {
    if !step.Wrap? && !step.EndWrapper? {
      OthersLeaveWrappers(s, step);
    }
  }

  lemma {:induction false} RunKeepsSettled(s: State, steps: seq<Step>, w: nat, slot: Slot)
    requires Settled(s, w, slot)
    ensures Settled(Run(s, steps), w, slot)
    decreases steps
  {
    if steps != [] {
      StepKeepsSettled(s, steps[0], w, slot);
      RunKeepsSettled(Next(s, steps[0]), steps[1..], w, slot);
    }
  }
}
