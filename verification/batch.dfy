/** `Conn.SendBatch` over the extended protocol, with the statement cache it fills first and relies on after. */
module BatchSend {
  import opened Basics
  import opened Wire
  import opened Builder

  /** A statement as described by the server. A prepared statement has a name; an anonymous one has none. */
  datatype Description = Description(name: string, byOids: seq<int>, fields: seq<int>)

  predicate Expired(left: Option<nat>) {
    left.Some? && left.value == 0
  }

  /** What is left after `n` looks. */
  function After(left: Option<nat>, n: nat): Option<nat> {
    if left.None? then None else if left.value < n then Some(0) else Some(left.value - n)
  }

  lemma AfterOneMore(left: Option<nat>, n: nat)
    ensures After(After(left, n), 1) == After(left, n + 1)
    ensures Expired(After(left, n)) <==> left.Some? && left.value <= n
  {
  }

  /** A context that is done after so many looks at it, or never. */
  class Context {
    var left: Option<nat>

    constructor (left: Option<nat>)
      ensures this.left == left
    {
      this.left := left;
    }

    method IsDone() returns (done: bool)
      modifies this
      ensures done == Expired(old(left)) && left == After(old(left), 1)
    {
      done := Expired(left);
      if left.Some? && left.value > 0 {
        left := Some(left.value - 1);
      }
    }
  }

  // ---- the least recently used order ----

  ghost predicate Distinct(order: seq<string>) {
    forall i, j :: 0 <= i < j < |order| ==> order[i] != order[j]
  }

  function Without(order: seq<string>, sql: string): seq<string> {
    if order == [] then []
    else if order[0] == sql then order[1..]
    else [order[0]] + Without(order[1..], sql)
  }

  /** The order after a hit: `sql` is the most recent. */
  function Touched(order: seq<string>, sql: string): seq<string> {
    [sql] + Without(order, sql)
  }

  /** The order after room was made for one more entry. */
  function Evicted(order: seq<string>, cap: nat): seq<string> {
    if order != [] && |order| >= cap then order[..|order| - 1] else order
  }

  lemma HeadIsOnce(order: seq<string>)
    requires Distinct(order) && order != []
    ensures order[0] !in order[1..] && Distinct(order[1..])
  {
  }

  lemma {:induction false} WithoutIs(order: seq<string>, sql: string)
    requires Distinct(order)
    ensures Distinct(Without(order, sql)) && sql !in Without(order, sql)
    ensures forall q :: q in Without(order, sql) <==> q in order && q != sql
    ensures |Without(order, sql)| == |order| - if sql in order then 1 else 0
  {
    if order != [] {
      HeadIsOnce(order);
      if order[0] != sql {
        WithoutIs(order[1..], sql);
      }
    }
  }

  lemma {:induction false} WithoutKeepsFront(order: seq<string>, sql: string, k: nat)
    requires k <= |order| && sql !in order[..k]
    ensures k <= |Without(order, sql)| && Without(order, sql)[..k] == order[..k]
  {
    if k > 0 {
      assert order[0] in order[..k];
      assert order[1..][..k - 1] == order[..k][1..];
      WithoutKeepsFront(order[1..], sql, k - 1);
    }
  }

  /** A statement that was got, whether the cache had it or not, comes before those got since the start. */
  lemma GetKeepsFront(
    before: seq<string>, got: seq<string>, sql: string, cap: nat, after: seq<string>)
    requires got <= before && sql !in got && |got| < cap && |before| <= cap
    requires after == if sql in before then Touched(before, sql) else [sql] + Evicted(before, cap)
    ensures [sql] + got <= after
  {
    assert before[..|got|] == got;
    if sql in before {
      WithoutKeepsFront(before, sql, |got|);
    }
  }

  // ---- the cache ----

  class Cache {
    const cap: nat
    const describe: string -> Option<Description>  // what the server says of a statement, or an error
    var order: seq<string>  // the cached statements, the most recently used first

    constructor (cap: nat, describe: string -> Option<Description>)
      ensures Valid() && this.cap == cap && this.describe == describe && order == []
    {
      this.cap, this.describe, order := cap, describe, [];
    }

    ghost predicate Valid()
      reads this
    {
      |order| <= cap && Distinct(order) && forall q :: q in order ==> describe(q).Some?
    }

    method Get(ctx: Context, sql: string) returns (d: Option<Description>)
      requires Valid() && cap > 0
      modifies this, ctx
      ensures Valid()
      ensures ctx.left == After(old(ctx.left), 1)
      ensures d.Some? <==> !Expired(old(ctx.left)) && describe(sql).Some?
      ensures d.Some? ==> d == describe(sql)
      ensures order == if Expired(old(ctx.left)) then old(order)
                       else if sql in old(order) then Touched(old(order), sql)
                       else if describe(sql).Some? then [sql] + Evicted(old(order), cap)
                       else Evicted(old(order), cap)
    {
      var done := ctx.IsDone();
      if done {
        return None;
      }
      if sql in order {
        WithoutIs(order, sql);
        order := Touched(order, sql);
        return describe(sql);
      }
      order := Evicted(order, cap);
      d := describe(sql);
      if d.Some? {
        order := [sql] + order;
      }
    }
  }

  // ---- the batch ----

  datatype Item = Item(query: string, args: seq<Arg>)

  /** One statement of the batch as it is sent: by name, or by its text when it has none. */
  datatype Execute = Execute(name: string, sql: string, values: seq<Field>, formats: seq<int>, results: seq<int>)

  /** `Panic` is the panic of a cache that fails on its second use. */
  datatype Sent = Ok(batch: seq<Execute>) | Err | Panic

  function UnpreparedSet(items: seq<Item>, prepared: map<string, Description>): set<string> {
    set it | it in items && it.query !in prepared :: it.query
  }

  /** How many items need the cache. */
  function Lookups(items: seq<Item>, prepared: map<string, Description>): nat {
    if items == [] then 0
    else Lookups(items[..|items| - 1], prepared) + if items[|items| - 1].query in prepared then 0 else 1
  }

  lemma {:induction false} LookupsUpTo(items: seq<Item>, prepared: map<string, Description>, i: nat)
    requires i < |items|
    ensures Lookups(items[..i + 1], prepared)
         == Lookups(items[..i], prepared) + if items[i].query in prepared then 0 else 1
  {
    assert items[..i + 1][..i] == items[..i];
  }

  lemma {:induction false} LookupsGrow(items: seq<Item>, prepared: map<string, Description>, i: nat)
    requires i <= |items|
    ensures Lookups(items[..i], prepared) <= Lookups(items, prepared)
    decreases |items| - i
  {
    if i == |items| {
      assert items[..i] == items;
    } else {
      LookupsUpTo(items, prepared, i);
      LookupsGrow(items, prepared, i + 1);
    }
  }

  function DescriptionOf(q: string, prepared: map<string, Description>, describe: string -> Option<Description>)
    : Option<Description>
  {
    if q in prepared then Some(prepared[q]) else describe(q)
  }

  /** The arguments of an item suit its statement. */
  ghost predicate Fits(item: Item, d: Description) {
    && |item.args| == |d.byOids|
    && forall i :: 0 <= i < |item.args| ==> ValueOf(item.args[i], ChooseFormat(item.args[i], d.byOids[i])).Some?
  }

  ghost predicate Carries(e: Execute, item: Item, d: Description) {
    && e.name == d.name && e.sql == item.query && e.results == d.fields
    && |item.args| == |d.byOids| && AllEncoded(item.args, d.byOids, e.values, e.formats)
  }

  /** The executes carry the first items, one each, in order. */
  ghost predicate InOrder(batch: seq<Execute>, items: seq<Item>, prepared: map<string, Description>,
                          describe: string -> Option<Description>)
  {
    |batch| <= |items| && forall i :: 0 <= i < |batch| ==>
      var d := DescriptionOf(items[i].query, prepared, describe);
      d.Some? && Carries(batch[i], items[i], d.value)
  }

  lemma InOrderOneMore(batch: seq<Execute>, e: Execute, items: seq<Item>,
      prepared: map<string, Description>, describe: string -> Option<Description>)
    requires InOrder(batch, items, prepared, describe) && |batch| < |items|
    requires var d := DescriptionOf(items[|batch|].query, prepared, describe);
             d.Some? && Carries(e, items[|batch|], d.value)
    ensures InOrder(batch + [e], items, prepared, describe)
  {
  }

  /** Every item has its statement prepared or in the cache. */
  ghost predicate Stocked(order: seq<string>, items: seq<Item>, prepared: map<string, Description>) {
    forall i :: 0 <= i < |items| && items[i].query !in prepared ==> items[i].query in order
  }

  /** Item `i` has a statement, which its arguments suit. */
  ghost predicate FitsAt(items: seq<Item>, prepared: map<string, Description>,
                         describe: string -> Option<Description>, i: nat)
    requires i < |items|
  {
    var d := DescriptionOf(items[i].query, prepared, describe);
    d.Some? && Fits(items[i], d.value)
  }

  /** Nothing but the context can stop this batch. */
  ghost predicate AllFine(items: seq<Item>, prepared: map<string, Description>,
                          describe: string -> Option<Description>)
  {
    forall i: nat :: i < |items| ==> FitsAt(items, prepared, describe, i)
  }

  /** On the second pass, with `left` looks left: the context ends at item `i`, and no earlier item ended the pass. */
  ghost predicate DiesAt(left: Option<nat>, items: seq<Item>, prepared: map<string, Description>,
                         describe: string -> Option<Description>, i: nat)
  {
    && i < |items| && items[i].query !in prepared && left == Some(Lookups(items[..i], prepared))
    && forall k: nat :: k < i ==> FitsAt(items, prepared, describe, k)
  }

  /** The first pass gets through. */
  ghost predicate Fills(left: Option<nat>, needed: set<string>, describe: string -> Option<Description>) {
    (left.None? || |needed| <= left.value) && forall q :: q in needed ==> describe(q).Some?
  }

  /** The first pass gets through and the second finds the context ended. */
  ghost predicate Panics(left: Option<nat>, items: seq<Item>, prepared: map<string, Description>,
                         describe: string -> Option<Description>)
  {
    var needed := UnpreparedSet(items, prepared);
    Fills(left, needed, describe) && exists i: nat :: DiesAt(After(left, |needed|), items, prepared, describe, i)
  }

  /** The context outlasted `n` looks. */
  ghost predicate Passed(before: Option<nat>, n: nat, now: Option<nat>) {
    if before.None? then now.None? else now.Some? && before.value == now.value + n
  }

  /** The second pass is at item `i`: the context outlasted the looks so far, and all items so far fit. */
  ghost predicate PassedTo(left: Option<nat>, now: Option<nat>, items: seq<Item>, prepared: map<string, Description>,
                           describe: string -> Option<Description>, i: nat)
  {
    && i <= |items| && Passed(left, Lookups(items[..i], prepared), now)
    && forall k: nat :: k < i ==> FitsAt(items, prepared, describe, k)
  }

  /** What is left after item `i`, if the context did not end there. */
  ghost predicate LooksOnce(now: Option<nat>, next: Option<nat>, items: seq<Item>, prepared: map<string, Description>,
                            i: nat)
    requires i < |items|
  {
    if items[i].query in prepared then next == now else !Expired(now) && next == After(now, 1)
  }

  lemma {:induction false} PassedOneMore(left: Option<nat>, now: Option<nat>, next: Option<nat>, items: seq<Item>,
      prepared: map<string, Description>, i: nat)
    requires i < |items| && Passed(left, Lookups(items[..i], prepared), now) && LooksOnce(now, next, items, prepared, i)
    ensures Passed(left, Lookups(items[..i + 1], prepared), next)
  {
    LookupsUpTo(items, prepared, i);
  }

  /** A context that got past `i` items did not end at an earlier one. */
  lemma {:induction false} NotEarlier(left: Option<nat>, now: Option<nat>, items: seq<Item>,
      prepared: map<string, Description>, describe: string -> Option<Description>, i: nat, j: nat)
    requires j < i <= |items| && Passed(left, Lookups(items[..i], prepared), now)
    ensures !DiesAt(left, items, prepared, describe, j)
  {
    LookupsUpTo(items, prepared, j);
    assert items[..i][..j + 1] == items[..j + 1];
    LookupsGrow(items[..i], prepared, j + 1);
  }

  /** The pass ends at an item that does not fit: not by the context. */
  lemma EndsAtMisfit(left: Option<nat>, now: Option<nat>, next: Option<nat>, items: seq<Item>,
      prepared: map<string, Description>, describe: string -> Option<Description>, i: nat)
    requires i < |items| && PassedTo(left, now, items, prepared, describe, i)
    requires LooksOnce(now, next, items, prepared, i) && !FitsAt(items, prepared, describe, i)
    ensures forall j: nat :: !DiesAt(left, items, prepared, describe, j)
  {
    PassedOneMore(left, now, next, items, prepared, i);
    forall j: nat | j <= i
      ensures !DiesAt(left, items, prepared, describe, j)
    {
      NotEarlier(left, next, items, prepared, describe, i + 1, j);
    }
  }

  /** The pass ends at an item whose look finds the context ended. */
  lemma {:induction false} EndsByContext(left: Option<nat>, now: Option<nat>, items: seq<Item>,
      prepared: map<string, Description>, describe: string -> Option<Description>, i: nat)
    requires i < |items| && PassedTo(left, now, items, prepared, describe, i)
    requires items[i].query !in prepared && Expired(now)
    ensures DiesAt(left, items, prepared, describe, i) && left.value < Lookups(items, prepared)
  {
    LookupsUpTo(items, prepared, i);
    LookupsGrow(items, prepared, i + 1);
  }

  /** The pass gets through. */
  lemma {:induction false} EndsWell(left: Option<nat>, now: Option<nat>, items: seq<Item>,
      prepared: map<string, Description>, describe: string -> Option<Description>)
    requires PassedTo(left, now, items, prepared, describe, |items|)
    ensures AllFine(items, prepared, describe) && (left.None? || Lookups(items, prepared) <= left.value)
    ensures forall j: nat :: !DiesAt(left, items, prepared, describe, j)
  {
    assert items[..|items|] == items;
    forall j: nat | j < |items|
      ensures !DiesAt(left, items, prepared, describe, j)
    {
      NotEarlier(left, now, items, prepared, describe, |items|, j);
    }
  }

  /** The panic needs a context that ends after the cache was filled and before it was last used. */
  lemma {:induction false} PanicsLate(left: Option<nat>, items: seq<Item>, prepared: map<string, Description>,
      describe: string -> Option<Description>)
    requires Panics(left, items, prepared, describe)
    ensures var n := |UnpreparedSet(items, prepared)|;
            left.Some? && n <= left.value < n + Lookups(items, prepared)
  {
    var n := |UnpreparedSet(items, prepared)|;
    var i: nat :| DiesAt(After(left, n), items, prepared, describe, i);
    LookupsUpTo(items, prepared, i);
    LookupsGrow(items, prepared, i + 1);
  }

  /** In a batch that only the context can stop, every statement can be described. */
  lemma FineFills(items: seq<Item>, prepared: map<string, Description>,
      describe: string -> Option<Description>)
    requires AllFine(items, prepared, describe)
    ensures forall q :: q in UnpreparedSet(items, prepared) ==> describe(q).Some?
  {
    forall q | q in UnpreparedSet(items, prepared)
      ensures describe(q).Some?
    {
      var i :| 0 <= i < |items| && items[i].query == q;
      assert FitsAt(items, prepared, describe, i);
    }
  }

  /**
   A batch that only the context can stop panics exactly when the context ends after the first pass and
   before the last look of the second.
   */
  lemma {:induction false} FinePanics(left: Option<nat>, items: seq<Item>, prepared: map<string, Description>,
      describe: string -> Option<Description>)
    requires AllFine(items, prepared, describe)
    ensures var n := |UnpreparedSet(items, prepared)|;
            (Panics(left, items, prepared, describe)
             <==> left.Some? && n <= left.value < n + Lookups(items, prepared))
  {
    var n := |UnpreparedSet(items, prepared)|;
    if Panics(left, items, prepared, describe) {
      PanicsLate(left, items, prepared, describe);
    }
    if left.Some? && n <= left.value < n + Lookups(items, prepared) {
      FineFills(items, prepared, describe);
      var i := LookupNumber(items, prepared, left.value - n);
      assert DiesAt(After(left, n), items, prepared, describe, i);
    }
  }

  /** The item that makes look number `m` of the second pass. */
  lemma LookupNumber(items: seq<Item>, prepared: map<string, Description>, m: nat) returns (i: nat)
    requires m < Lookups(items, prepared)
    ensures i < |items| && items[i].query !in prepared && Lookups(items[..i], prepared) == m
  {
    var last := |items| - 1;
    if m < Lookups(items[..last], prepared) {
      i := LookupNumber(items[..last], prepared, m);
      assert items[..last][..i] == items[..i];
    } else {
      i := last;
    }
  }

  /** The shortest batch that can panic: one statement, and a context that ends after its first look. */
  lemma OneItemPanics(item: Item, describe: string -> Option<Description>)
    requires describe(item.query).Some?
    ensures Panics(Some(1), [item], map[], describe)
  {
    var items, none := [item], map[];
    var needed := UnpreparedSet(items, none);
    assert items[0] in items && needed == {item.query};
    assert After(Some(1), |needed|) == Some(0);
    assert DiesAt(After(Some(1), |needed|), items, none, describe, 0);
  }

  /** The cache that is used: the connection's if it has room for all statements, else one made for this batch. */
  method ChooseCache(own: Cache?, needed: nat, describe: string -> Option<Description>) returns (cache: Cache)
    requires own != null ==> own.Valid()
    ensures cache.Valid() && cache.cap >= needed
    ensures if own != null && own.cap >= needed then cache == own
            else fresh(cache) && cache.describe == describe
  {
    if own != null && own.cap >= needed {
      cache := own;
    } else {
      cache := new Cache(needed, describe);
    }
  }

  /** Gets every statement once, in any order. Afterwards the cache holds them all, or the call has failed. */
  method Prefill(cache: Cache, ctx: Context, needed: set<string>) returns (ok: bool)
    requires cache.Valid() && 0 < |needed| <= cache.cap
    modifies cache, ctx
    ensures cache.Valid()
    ensures ok <==> Fills(old(ctx.left), needed, cache.describe)
    ensures ok ==> forall q :: q in needed ==> q in cache.order
    ensures ok ==> ctx.left == After(old(ctx.left), |needed|)
  {
    var left := needed;
    ghost var got: seq<string> := [];  // the last one first
    while left != {}
      invariant cache.Valid() && got <= cache.order && |got| + |left| == |needed|
      invariant left <= needed && forall q :: q in left ==> q !in got
      invariant forall q :: q in needed ==> q in left || (q in got && cache.describe(q).Some?)
      invariant ctx.left == After(old(ctx.left), |got|) && (old(ctx.left).Some? ==> |got| <= old(ctx.left).value)
      decreases |left|
    {
      var sql :| sql in left;
      ghost var before := cache.order;
      AfterOneMore(old(ctx.left), |got|);
      var d := cache.Get(ctx, sql);
      if d.None? {
        return false;
      }
      GetKeepsFront(before, got, sql, cache.cap, cache.order);
      left, got := left - {sql}, [sql] + got;
    }
    ok := true;
  }

  /** The values of the parameters as they are sent. */
  method Snapshot(eqb: ExtendedQueryBuilder) returns (values: seq<Field>)
    requires eqb.Valid()
    ensures values == eqb.values
  {
    values := [];
    for i := 0 to |eqb.paramValues|
      invariant values == eqb.values[..i]
    {
      assert eqb.Reads(eqb.paramValues[i], eqb.values[i]);
      match eqb.paramValues[i]
      case None => values := values + [Null];
      case Some(s) => values := values + [Value(s.arr[s.lo..s.hi])];
    }
  }

  /** The statement of an item on the second pass: prepared by name, or from the cache that was filled for it. */
  method Lookup(cache: Cache?, ctx: Context, prepared: map<string, Description>, q: string)
    returns (d: Option<Description>)
    requires q !in prepared ==> cache != null
    requires cache != null ==> cache.Valid() && (q !in prepared ==> q in cache.order)
    modifies cache, ctx
    ensures cache != null ==> cache.Valid() && forall p :: p in old(cache.order) ==> p in cache.order
    ensures ctx.left == if q in prepared then old(ctx.left) else After(old(ctx.left), 1)
    ensures q in prepared ==> d == Some(prepared[q])
    ensures q !in prepared ==> d == if Expired(old(ctx.left)) then None else cache.describe(q)
    ensures d.None? <==> q !in prepared && Expired(old(ctx.left))
  {
    if q in prepared {
      return Some(prepared[q]);
    }
    ghost var before := cache.order;
    d := cache.Get(ctx, q);
    WithoutIs(before, q);
  }

  /** Encodes the arguments of an item and copies them out of the builder. */
  method ExecuteFor(eqb: ExtendedQueryBuilder, item: Item, d: Description) returns (e: Option<Execute>)
    requires eqb.Valid()
    modifies eqb, eqb.Repr
    ensures eqb.Valid() && fresh(eqb.Repr - old(eqb.Repr))
    ensures e.Some? <==> Fits(item, d)
    ensures e.Some? ==> Carries(e.value, item, d)
  {
    var ok := PrepareParams(eqb, d.byOids, item.args, d.fields);
    if !ok {
      return None;
    }
    var values := Snapshot(eqb);
    e := Some(Execute(d.name, item.query, values, eqb.paramFormats, eqb.resultFormats));
  }

  /** Whether the cache, if there is one, holds what the items need. */
  ghost predicate Ready(cache: Cache?, items: seq<Item>, prepared: map<string, Description>,
                        describe: string -> Option<Description>)
    reads cache
  {
    if cache == null then Stocked([], items, prepared)
    else cache.Valid() && cache.describe == describe && Stocked(cache.order, items, prepared)
  }

  datatype Outcome = Added(e: Execute) | Misfit | Dead

  /** The next item of the second pass. */
  method AssembleOne(cache: Cache?, ctx: Context, prepared: map<string, Description>, eqb: ExtendedQueryBuilder,
                     items: seq<Item>, i: nat, ghost describe: string -> Option<Description>)
    returns (out: Outcome)
    requires eqb.Valid() && i < |items| && Ready(cache, items, prepared, describe)
    modifies cache, ctx, eqb, eqb.Repr
    ensures eqb.Valid() && fresh(eqb.Repr - old(eqb.Repr)) && Ready(cache, items, prepared, describe)
    ensures ctx.left == if items[i].query in prepared then old(ctx.left) else After(old(ctx.left), 1)
    ensures out.Dead? <==> items[i].query !in prepared && Expired(old(ctx.left))
    ensures !out.Dead? ==> (out.Added? <==> FitsAt(items, prepared, describe, i))
    ensures out.Added? ==>
              var d := DescriptionOf(items[i].query, prepared, describe);
              d.Some? && Carries(out.e, items[i], d.value)
  {
    var d := Lookup(cache, ctx, prepared, items[i].query);
    assert Ready(cache, items, prepared, describe);
    if d.None? {
      return Dead;
    }
    var e := ExecuteFor(eqb, items[i], d.value);
    out := if e.None? then Misfit else Added(e.value);
  }

  /** The second pass: one execute for each item, in order. */
  method Assemble(cache: Cache?, ctx: Context, prepared: map<string, Description>, eqb: ExtendedQueryBuilder,
                  items: seq<Item>, ghost describe: string -> Option<Description>)
    returns (r: Sent)
    requires eqb.Valid() && Ready(cache, items, prepared, describe)
    modifies cache, ctx, eqb, eqb.Repr
    ensures eqb.Valid() && fresh(eqb.Repr - old(eqb.Repr)) && Ready(cache, items, prepared, describe)
    ensures r.Ok? ==> |r.batch| == |items| && InOrder(r.batch, items, prepared, describe)
    ensures r.Ok? <==> AllFine(items, prepared, describe)
                       && (old(ctx.left).None? || Lookups(items, prepared) <= old(ctx.left).value)
    ensures r.Panic? <==> exists i: nat :: DiesAt(old(ctx.left), items, prepared, describe, i)
  {
    var batch := [];
    ghost var left := ctx.left;
    for i := 0 to |items|
      invariant eqb.Valid() && fresh(eqb.Repr - old(eqb.Repr)) && Ready(cache, items, prepared, describe)
      invariant PassedTo(left, ctx.left, items, prepared, describe, i)
      invariant |batch| == i && InOrder(batch, items, prepared, describe)
    {
      ghost var now := ctx.left;
      var out := AssembleOne(cache, ctx, prepared, eqb, items, i, describe);
      match out
      case Dead =>
        EndsByContext(left, now, items, prepared, describe, i);
        return Panic;
      case Misfit =>
        EndsAtMisfit(left, now, ctx.left, items, prepared, describe, i);
        return Err;
      case Added(e) =>
        PassedOneMore(left, now, ctx.left, items, prepared, i);
        InOrderOneMore(batch, e, items, prepared, describe);
        batch := batch + [e];
    }
    EndsWell(left, ctx.left, items, prepared, describe);
    r := Ok(batch);
  }

  /**
   Sends a batch. It is sent if and only if every item has a statement that its arguments suit and the context
   lasts through both passes over the cache; then there is one execute for each item, in order. Filled in
   whatever order, and whatever it held before, the cache never fails on its second use while the context lasts.
   */
  method SendBatch(own: Cache?, describe: string -> Option<Description>, ctx: Context,
                   prepared: map<string, Description>, eqb: ExtendedQueryBuilder, items: seq<Item>)
    returns (r: Sent, ghost used: string -> Option<Description>)
    requires eqb.Valid() && (own != null ==> own.Valid())
    modifies own, ctx, eqb, eqb.Repr
    ensures var n := |UnpreparedSet(items, prepared)|;
            used == if own != null && 0 < n <= own.cap then own.describe else describe
    ensures r.Ok? ==> |r.batch| == |items| && InOrder(r.batch, items, prepared, used)
    ensures r.Ok? <==> AllFine(items, prepared, used)
                       && (old(ctx.left).None?
                           || |UnpreparedSet(items, prepared)| + Lookups(items, prepared) <= old(ctx.left).value)
    ensures r.Panic? <==> Panics(old(ctx.left), items, prepared, used)
    ensures old(ctx.left).None? ==> !r.Panic?
  {
    var distinct := UnpreparedSet(items, prepared);
    used := describe;
    var cache: Cache? := null;
    forall i | 0 <= i < |items| && items[i].query !in prepared
      ensures items[i].query in distinct
    {
      assert items[i] in items;
    }
    if |distinct| > 0 {
      cache := ChooseCache(own, |distinct|, describe);
      used := cache.describe;
      var ok := Prefill(cache, ctx, distinct);
      if !ok {
        if AllFine(items, prepared, used) {
          FineFills(items, prepared, used);
        }
        return Err, used;
      }
    }
    r := Assemble(cache, ctx, prepared, eqb, items, used);
    if r.Ok? {
      eqb.Reset();
    }
  }
}
