/** What holds of every plan a schedule makes, lost elements or not: batches, batch
    numbers and the list of lost elements agree, and what has a number comes after all it
    waits for that has one. */
module Alignment {
  import opened Graph
  import opened Schedule
  import opened Scheduler
  import opened Wrappers

  ghost predicate InBatch(plan: Plan, k: nat, x: Name) {
    k < |plan.batches| && x in plan.batches[k]
  }

  /** Contracts and hooks have batch numbers; what is lost has NaN, what has a number is
      in the batch of that number, and no contract or event is in another. */
  ghost predicate Aligned(g: Module, plan: Plan) {
    && (forall x :: x in plan.batchOf ==> x in g.bindings || x in g.events)
    && (forall x :: x in plan.lost ==> x in plan.batchOf && plan.batchOf[x].NaN?)
    && (forall x :: x in plan.batchOf && plan.batchOf[x].At? ==> InBatch(plan, plan.batchOf[x].n, x))
    && (forall k, x :: InBatch(plan, k, x) && (x in g.bindings || x in g.events) ==>
          x in plan.batchOf && plan.batchOf[x] == At(k))
  }

  /** What `x` is scheduled after: the contracts it takes, or all an after-hook waits for. */
  ghost predicate MustFollow(g: Module, x: Name, n: Name) {
    if x in g.bindings then Contract(n) in g.bindings[x].args
    else x in g.events && IsAfter(g.events[x]) && n in Waits(g.events[x])
  }

  ghost predicate LostOrBefore(batchOf: map<Name, BatchNo>, n: Name, x: Name) {
    n in batchOf && (batchOf[n].NaN? || Before(batchOf, n, x))
  }

  ghost predicate Follows(g: Module, batchOf: map<Name, BatchNo>) {
    forall x, n :: x in batchOf && batchOf[x].At? && MustFollow(g, x, n) ==> LostOrBefore(batchOf, n, x)
  }

  lemma {:induction false} ContractAddsLower(g: Module, order: seq<Name>, plan: Plan, cur: BatchNo, c: Name)
    requires Rankable(g) && c in g.bindings
    ensures var r := HandleContract(g, order, plan, cur, c);
            r.Ok? ==> AddsUpTo(g, plan, r.value, RankOf(g).C(c) + 1)
    decreases RankOf(g).C(c), 1, 0
  {
    if c !in plan.batchOf {
      ArgsAddLower(g, order, plan, cur, c, g.bindings[c].args);
    }
  }

  /** Batch numbers once given stay, and batches grow at their ends. */
  ghost predicate Extends(plan: Plan, plan': Plan) {
    && (forall x :: x in plan.batchOf ==> x in plan'.batchOf && plan'.batchOf[x] == plan.batchOf[x])
    && |plan.batches| <= |plan'.batches|
    && (forall k :: 0 <= k < |plan.batches| ==> plan.batches[k] <= plan'.batches[k])
  }

  /** A step batches only contracts of rank below `bound`, and changes nothing else. */
  ghost predicate AddsUpTo(g: Module, plan: Plan, plan': Plan, bound: nat)
    requires Rankable(g)
  {
    && plan.lost <= plan'.lost && Extends(plan, plan')
    && forall x :: x in plan'.batchOf && x !in plan.batchOf ==> x in g.bindings && RankOf(g).C(x) < bound
  }

  lemma {:induction false} ArgsAddLower(g: Module, order: seq<Name>, plan: Plan, cur: BatchNo, c: Name, args: seq<Arg>)
    requires Rankable(g) && c in g.bindings
    requires forall a :: a in args ==> a in g.bindings[c].args
    ensures var r := HandleArgs(g, order, plan, cur, c, args);
            r.Ok? ==> AddsUpTo(g, plan, r.value.0, RankOf(g).C(c))
    decreases RankOf(g).C(c), 0, |args|
  {
    if args == [] {
    } else {
      if !args[0].Contract? {
        ArgsAddLower(g, order, plan, cur, c, args[1..]);
      } else {
        var n := args[0].name;
        if n in order && n in g.bindings {
          if n in plan.batchOf {
            ArgsAddLower(g, order, plan, Later(cur, plan.batchOf[n]), c, args[1..]);
          } else {
            ArgRanksBelow(g, c, n);
            ContractAddsLower(g, order, plan, cur, n);
            var p1 := HandleContract(g, order, plan, cur, n);
            if p1.Ok? {
              var cur1 := if c in p1.value.batchOf then Next(p1.value.batchOf[c]) else NaN;
              ArgsAddLower(g, order, p1.value, cur1, c, args[1..]);
            }
          }
        }
      }
    }
  }

  /** A contract gets a number only when all its argument contracts were batched before
      it, and then where it started or one past the last of those that are not lost. */
  lemma {:induction false} NumberAfterArgs(g: Module, order: seq<Name>, plan: Plan, cur: BatchNo, c: Name,
                                           args: seq<Arg>)
    requires Rankable(g) && c in g.bindings && c !in plan.batchOf
    requires forall a :: a in args ==> a in g.bindings[c].args
    ensures var r := HandleArgs(g, order, plan, cur, c, args);
            r.Ok? && r.value.1.At? ==>
              && cur.At? && cur.n <= r.value.1.n && r.value.0 == plan && ArgsBelow(plan, args, r.value.1.n)
              && (r.value.1 == cur || ArgAt(plan, args, r.value.1.n - 1))
    decreases |args|
  {
    if args == [] {
    } else {
      assert args == [args[0]] + args[1..];
      if !args[0].Contract? {
        NumberAfterArgs(g, order, plan, cur, c, args[1..]);
      } else {
        var n := args[0].name;
        if n in order && n in g.bindings {
          if n in plan.batchOf {
            NumberAfterArgs(g, order, plan, Later(cur, plan.batchOf[n]), c, args[1..]);
          } else {
            ArgRanksBelow(g, c, n);
            ContractAddsLower(g, order, plan, cur, n);
            var p1 := HandleContract(g, order, plan, cur, n);
            if p1.Ok? { NumberAfterArgs(g, order, p1.value, NaN, c, args[1..]); }
          }
        }
      }
    }
  }

  /** Some contract among the arguments is in batch `k`. */
  ghost predicate ArgAt(plan: Plan, args: seq<Arg>, k: int) {
    exists n :: Contract(n) in args && n in plan.batchOf && plan.batchOf[n].At? && plan.batchOf[n].n == k
  }

  ghost predicate ArgsBelow(plan: Plan, args: seq<Arg>, k: nat) {
    forall n :: Contract(n) in args ==> n in plan.batchOf && (plan.batchOf[n].NaN? || plan.batchOf[n].n < k)
  }

  /** Once the batch number of a contract is not a number it stays so, and it becomes so
      as soon as an argument is found unbatched. */
  lemma UnbatchedArgGivesNaN(g: Module, order: seq<Name>, plan: Plan, cur: BatchNo, c: Name, args: seq<Arg>)
    requires Rankable(g) && c in g.bindings && c !in plan.batchOf
    requires forall a :: a in args ==> a in g.bindings[c].args
    requires cur.NaN? || exists n :: Contract(n) in args && n !in plan.batchOf
    ensures var r := HandleArgs(g, order, plan, cur, c, args); r.Ok? ==> r.value.1.NaN?
  {
    NumberAfterArgs(g, order, plan, cur, c, args);
  }

  /** The batch number of `x` comes after everything `x` waits for, and for an after-hook
      directly after the last of it. */
  ghost predicate NumberFits(g: Module, plan: Plan, b: BatchNo, x: Name) {
    b.At? ==>
      && (forall n :: MustFollow(g, x, n) ==> n in plan.batchOf && (plan.batchOf[n].NaN? || plan.batchOf[n].n < b.n))
      && (AfterHook(g, x) ==> b.n == 1 || (b.n > 1 && Attained(plan, Waits(g.events[x]), b.n - 1)))
  }

  ghost predicate AfterHook(g: Module, x: Name) {
    x !in g.bindings && x in g.events && IsAfter(g.events[x])
  }

  /** Every after-hook is in batch 1 or one past something it waits for. */
  ghost predicate HooksTight(g: Module, plan: Plan) {
    forall e :: e in plan.batchOf && plan.batchOf[e].At? && AfterHook(g, e) ==> TightAt(g, plan, e, plan.batchOf[e].n)
  }

  ghost predicate TightAt(g: Module, plan: Plan, e: Name, k: nat)
    requires e in g.events
  {
    k == 1 || (k > 1 && Attained(plan, Waits(g.events[e]), k - 1))
  }

  /** Module events are in the first batch. */
  ghost predicate ModuleEventsFirst(g: Module, plan: Plan) {
    forall k, x :: InBatch(plan, k, x) && x !in g.bindings && x !in g.events ==> k == 0
  }

  lemma PlaceKeepsTight(g: Module, plan: Plan, b: BatchNo, x: Name)
    requires HooksTight(g, plan) && x !in plan.batchOf && NumberFits(g, plan, b, x)
    ensures HooksTight(g, Place(plan, b, x))
  {
    var plan' := Place(plan, b, x);
    assert plan'.batchOf == plan.batchOf[x := b];
    forall e | e in plan'.batchOf && plan'.batchOf[e].At? && AfterHook(g, e)
      ensures TightAt(g, plan', e, plan'.batchOf[e].n)
    {
      var k := plan'.batchOf[e].n;
      assert TightAt(g, plan, e, k) by { assert e != x ==> TightAt(g, plan, e, plan.batchOf[e].n); }
      if k > 1 {
        var n :| n in Waits(g.events[e]) && n in plan.batchOf && plan.batchOf[n] == At(k - 1);
        assert n in plan'.batchOf && plan'.batchOf[n] == At(k - 1);
      }
    }
  }

  lemma PlaceKeepsFollows(g: Module, plan: Plan, b: BatchNo, x: Name)
    requires Follows(g, plan.batchOf) && x !in plan.batchOf && NumberFits(g, plan, b, x)
    ensures Follows(g, Place(plan, b, x).batchOf)
  {
    var batchOf' := Place(plan, b, x).batchOf;
    assert batchOf' == plan.batchOf[x := b];
    forall y, n | y in batchOf' && batchOf'[y].At? && MustFollow(g, y, n) ensures LostOrBefore(batchOf', n, y) {
      assert y != x ==> LostOrBefore(plan.batchOf, n, y);
    }
  }

  lemma PlaceKeepsAligned(g: Module, plan: Plan, b: BatchNo, x: Name)
    requires Aligned(g, plan) && x !in plan.batchOf && (x in g.bindings || x in g.events)
    ensures Aligned(g, Place(plan, b, x))
  {
    match b
    case NaN =>
      forall k, y ensures InBatch(Place(plan, b, x), k, y) <==> InBatch(plan, k, y) {}
    case At(n) =>
      forall k, y ensures InBatch(Place(plan, b, x), k, y) <==> InBatch(plan, k, y) || (k == n && y == x) {
        PlaceAddsOne(plan.batches, n, x, k, y);
      }
  }

  lemma PlaceAddsOne(batches: seq<seq<Name>>, n: nat, x: Name, k: nat, y: Name)
    ensures var r := PlaceIn(batches, n, x);
            k < |r| && y in r[k] <==> (k < |batches| && y in batches[k]) || (k == n && y == x)
  {
    var r := PlaceIn(batches, n, x);
    var p := Padded(batches, n + 1);
    if k < |p| { assert y in r[k] <==> y in p[k] || (k == n && y == x); }
  }

  /** A module event in the first batch does not matter. */
  lemma ModuleEventKeepsAligned(g: Module, plan: Plan, e: Name)
    requires Aligned(g, plan) && e !in g.bindings && e !in g.events
    ensures Aligned(g, HandleModuleEvent(plan, e))
    ensures ModuleEventsFirst(g, plan) ==> ModuleEventsFirst(g, HandleModuleEvent(plan, e))
  {
    var r := HandleModuleEvent(plan, e);
    forall k, y ensures InBatch(r, k, y) <==> InBatch(plan, k, y) || (k == 0 && y == e) {
      PlaceAddsOne(plan.batches, 0, e, k, y);
    }
  }

  ghost predicate Orderly(g: Module, plan: Plan) {
    Aligned(g, plan) && Follows(g, plan.batchOf) && HooksTight(g, plan) && ModuleEventsFirst(g, plan)
  }

  lemma PlaceKeepsOrder(g: Module, plan: Plan, b: BatchNo, x: Name)
    requires Orderly(g, plan) && x !in plan.batchOf && (x in g.bindings || x in g.events) && NumberFits(g, plan, b, x)
    ensures Orderly(g, Place(plan, b, x))
  {
    PlaceKeepsAligned(g, plan, b, x);
    PlaceKeepsFollows(g, plan, b, x);
    PlaceKeepsTight(g, plan, b, x);
    PlaceKeepsFirst(g, plan, b, x);
  }

  lemma PlaceKeepsFirst(g: Module, plan: Plan, b: BatchNo, x: Name)
    requires ModuleEventsFirst(g, plan) && (x in g.bindings || x in g.events)
    ensures ModuleEventsFirst(g, Place(plan, b, x))
  {
    forall k, y | InBatch(Place(plan, b, x), k, y) && y !in g.bindings && y !in g.events ensures InBatch(plan, k, y) {
      if b.At? { PlaceAddsOne(plan.batches, b.n, x, k, y); }
    }
  }

  lemma {:induction false} ContractKeepsOrder(g: Module, order: seq<Name>, plan: Plan, cur: BatchNo, c: Name)
    requires Rankable(g) && c in g.bindings && Orderly(g, plan)
    ensures var r := HandleContract(g, order, plan, cur, c); r.Ok? ==> Orderly(g, r.value)
    decreases RankOf(g).C(c), 1, 0
  {
    if c !in plan.batchOf {
      var args := g.bindings[c].args;
      ArgsKeepOrder(g, order, plan, cur, c, args);
      ArgsAddLower(g, order, plan, cur, c, args);
      var r := HandleArgs(g, order, plan, cur, c, args);
      NumberAfterArgs(g, order, plan, cur, c, args);
      if r.Ok? { PlaceKeepsOrder(g, r.value.0, r.value.1, c); }
    }
  }

  lemma {:induction false} ArgsKeepOrder(g: Module, order: seq<Name>, plan: Plan, cur: BatchNo, c: Name, args: seq<Arg>)
    requires Rankable(g) && c in g.bindings && Orderly(g, plan)
    requires forall a :: a in args ==> a in g.bindings[c].args
    ensures var r := HandleArgs(g, order, plan, cur, c, args); r.Ok? ==> Orderly(g, r.value.0)
    decreases RankOf(g).C(c), 0, |args|
  {
    if args == [] {
    } else if !args[0].Contract? {
      ArgsKeepOrder(g, order, plan, cur, c, args[1..]);
    } else {
      var n := args[0].name;
      if n !in order || n !in g.bindings { return; }
      if n in plan.batchOf {
        ArgsKeepOrder(g, order, plan, Later(cur, plan.batchOf[n]), c, args[1..]);
      } else {
        ArgRanksBelow(g, c, n);
        ContractKeepsOrder(g, order, plan, cur, n);
        var p1 := HandleContract(g, order, plan, cur, n);
        if p1.Ok? {
          var cur1 := if c in p1.value.batchOf then Next(p1.value.batchOf[c]) else NaN;
          ArgsKeepOrder(g, order, p1.value, cur1, c, args[1..]);
        }
      }
    }
  }

  /** Of the events only those met so far are batched. */
  ghost predicate EventsMet(g: Module, plan: Plan, met: seq<Name>) {
    forall x :: x in plan.batchOf && x !in g.bindings ==> x in met
  }

  lemma HookNumberFits(g: Module, plan: Plan, x: Name, plan': Plan)
    requires x in g.events && x !in g.bindings
    requires Ok(plan') == if IsAfter(g.events[x]) then HandleAfterEvent(plan, x, g.events[x])
                          else HandleBeforeEvent(plan, x, g.events[x])
    ensures x in plan'.batchOf && plan' == Place(plan, plan'.batchOf[x], x) && NumberFits(g, plan, plan'.batchOf[x], x)
  {
    if IsAfter(g.events[x]) { DeepestWaitBounds(plan, x, g.events[x]); }
  }

  lemma ElementKeepsOrder(g: Module, order: seq<Name>, plan: Plan, base: nat, met: seq<Name>, x: Name)
    requires Rankable(g) && Orderly(g, plan) && EventsMet(g, plan, met) && x !in met
    ensures var r := HandleElement(g, order, plan, base, x);
            r.Ok? ==> Orderly(g, r.value) && EventsMet(g, r.value, met + [x])
  {
    var r := HandleElement(g, order, plan, base, x);
    if x in g.bindings {
      ContractKeepsOrder(g, order, plan, At(base), x);
      ContractAddsLower(g, order, plan, At(base), x);
    } else if x !in g.events {
      ModuleEventKeepsAligned(g, plan, x);
    } else if r.Ok? {
      HookNumberFits(g, plan, x, r.value);
      PlaceKeepsOrder(g, plan, r.value.batchOf[x], x);
    }
  }

  lemma {:induction false} LibrariesKeepOrder(g: Module, order: seq<Name>, plan: Plan, names: seq<Name>)
    requires Rankable(g) && Orderly(g, plan) && EventsMet(g, plan, [])
    ensures var r := HandleLibraries(g, order, plan, names); r.Ok? ==> Orderly(g, r.value) && EventsMet(g, r.value, [])
    decreases |names|
  {
    if names == [] {
    } else if !IsLibrary(g, names[0]) {
      LibrariesKeepOrder(g, order, plan, names[1..]);
    } else {
      ContractKeepsOrder(g, order, plan, At(0), names[0]);
      ContractAddsLower(g, order, plan, At(0), names[0]);
      var r := HandleElement(g, order, plan, 0, names[0]);
      if r.Ok? { LibrariesKeepOrder(g, order, r.value, names[1..]); }
    }
  }

  lemma {:induction false} AllKeepOrder(g: Module, order: seq<Name>, i: nat)
    requires Input(g, order) && i <= |order| && SoFar(g, order, i).Ok?
    ensures Orderly(g, SoFar(g, order, i).value) && EventsMet(g, SoFar(g, order, i).value, order[..i])
  {
    if i == 0 {
      LibrariesKeepOrder(g, order, EMPTY, order);
    } else {
      var k := i - 1;
      SoFarStep(g, order, k);
      AllKeepOrder(g, order, k);
      PrefixGrows(g, order, k);
      ElementKeepsOrder(g, order, SoFar(g, order, k).value, Base(g, order), order[..k], order[k]);
    }
  }

  lemma PrefixGrows(g: Module, order: seq<Name>, k: nat)
    requires Input(g, order) && k < |order|
    ensures order[..k + 1] == order[..k] + [order[k]] && order[k] !in order[..k]
  {
  }

  lemma ScheduleIsAligned(g: Module, order: seq<Name>)
    requires Input(g, order) && Scheduler.Schedule(g, order).Ok?
    ensures Orderly(g, Scheduler.Schedule(g, order).value)
  {
    assert order[..|order|] == order;
    AllKeepOrder(g, order, |order|);
  }
}
