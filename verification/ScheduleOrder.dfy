/** The schedule seen from outside: what comes before what, that it is a partition,
    and that no valid schedule could run a contract earlier. */
module ScheduleOrder {
  import opened Alignment
  import opened Graph
  import opened Scheduler
  import opened Schedule
  import opened Wrappers

  /** The batch of a scheduled element, in a schedule that lost nothing. */
  function BatchOf(plan: Plan, x: Name): nat
    requires x in plan.batchOf && plan.batchOf[x].At?
  {
    plan.batchOf[x].n
  }

  ghost predicate Scheduled(g: Module, order: seq<Name>, plan: Plan) {
    && Input(g, order) && LibraryArgsAreLibraries(g)
    && Scheduler.Schedule(g, order) == Ok(plan)
  }

  lemma {:induction false} LevelArgsBound(g: Module, base: nat, c: Name, cur: nat, args: seq<Arg>)
    requires Rankable(g) && c in g.bindings
    requires forall a :: a in args ==> a in g.bindings[c].args
    ensures LevelArgs(g, base, c, cur, args) >= cur
    ensures forall n :: Contract(n) in args && n in g.bindings ==> Level(g, base, n) < LevelArgs(g, base, c, cur, args)
    decreases |args|
  {
    if args == [] {
    } else {
      assert args == [args[0]] + args[1..];
      if !args[0].Contract? || args[0].name !in g.bindings {
        LevelArgsBound(g, base, c, cur, args[1..]);
      } else {
        var b := Level(g, base, args[0].name);
        LevelArgsBound(g, base, c, if cur < b + 1 then b + 1 else cur, args[1..]);
      }
    }
  }

  /** Every contract runs in a later batch than each contract binding among its
      arguments, all of which are bound. */
  lemma ContractsFollowArguments(g: Module, order: seq<Name>, plan: Plan, c: Name, n: Name)
    requires Scheduled(g, order, plan) && c in g.bindings && c in order && Contract(n) in g.bindings[c].args
    ensures n in g.bindings && Before(plan.batchOf, n, c)
  {
    ScheduleIsGood(g, order);
    assert c in plan.batchOf;
    LevelArgsBound(g, Base(g, order), c, Start(g, Base(g, order), c), g.bindings[c].args);
    var i :| 0 <= i < |order| && order[i] == c;
    ArgsStandBefore(g, order, i, n);
  }

  /** When libraries take no contracts, every other contract runs after all of them. */
  lemma ContractsFollowLibraries(g: Module, order: seq<Name>, plan: Plan, l: Name, c: Name)
    requires Scheduled(g, order, plan) && l in order && c in order
    requires IsLibrary(g, l) && c in g.bindings && !IsLibrary(g, c)
    requires forall n :: Contract(n) in g.bindings[l].args ==> n !in g.bindings
    ensures Before(plan.batchOf, l, c)
  {
    ScheduleIsGood(g, order);
    var base := Base(g, order);
    assert l in plan.batchOf && c in plan.batchOf;
    var n := LevelReached(g, base, l, 0, g.bindings[l].args);
    var m := LevelReached(g, base, c, base, g.bindings[c].args);
  }

  /** Every afterDeploy and onChange hook runs after all it depends on or uses. */
  lemma HooksFollowWaits(g: Module, order: seq<Name>, plan: Plan, e: Name, p: Name)
    requires Scheduled(g, order, plan) && e in g.events && e in order && IsAfter(g.events[e]) && p in Waits(g.events[e])
    ensures Before(plan.batchOf, p, e)
  {
    ScheduleIsGood(g, order);
    assert e in plan.batchOf;
  }

  /** A used event that is placed after its user, or not at all, is always refused;
      with the reasons in `Explained` this makes refusal exact for afterDeploy and
      onChange hooks. */
  lemma LateUsageIsRefused(g: Module, order: seq<Name>, i: nat, u: Name)
    requires Input(g, order) && LibraryArgsAreLibraries(g) && i < |order|
    requires order[i] in g.events && IsAfter(g.events[order[i]]) && u in g.events[order[i]].eventUsage
    requires u !in g.bindings && u !in order[..i]
    ensures Scheduler.Schedule(g, order).Err?
  {
    ScheduleIsGood(g, order);
    assert Scheduler.Schedule(g, order).Ok? ==> UsagesEarlier(g, order, i);
  }

  lemma {:induction false} FlatCount(batches: seq<seq<Name>>, k: nat, j: nat)
    requires k < |batches| && j < |batches[k]|
    ensures Flat(batches)[batches[k][j]] >= 1
  {
    if k == 0 {
      assert batches[0][j] in multiset(batches[0]);
    } else {
      FlatCount(batches[1..], k - 1, j);
    }
  }

  lemma TwiceInOne(s: seq<Name>, i: nat, j: nat)
    requires i < j < |s| && s[i] == s[j]
    ensures multiset(s)[s[i]] >= 2
  {
    assert s == s[..j] + s[j..];
    assert s[i] in multiset(s[..j]) by { assert s[..j][i] == s[i]; }
    assert s[j] in multiset(s[j..]) by { assert s[j..][0] == s[j]; }
  }

  lemma {:induction false} FlatCountTwice(batches: seq<seq<Name>>, k: nat, j: nat, k': nat, j': nat)
    requires k <= k' < |batches| && j < |batches[k]| && j' < |batches[k']| && (k, j) != (k', j')
    requires batches[k][j] == batches[k'][j']
    ensures Flat(batches)[batches[k][j]] >= 2
  {
    if k == 0 {
      if k' == 0 {
        TwiceInOne(batches[0], if j < j' then j else j', if j < j' then j' else j);
      } else {
        FlatCount(batches[1..], k' - 1, j');
        assert batches[0][j] in multiset(batches[0]);
      }
    } else {
      FlatCountTwice(batches[1..], k - 1, j, k' - 1, j');
    }
  }

  /** A before-hook met with plan `plan` is refused exactly when something it uses is
      batched after something it depends on. */
  lemma BeforeHookRefusedIff(g: Module, order: seq<Name>, plan: Plan, i: nat)
    requires Input(g, order) && LibraryArgsAreLibraries(g) && i < |order| && SoFar(g, order, i) == Ok(plan)
    requires order[i] in g.events && !IsAfter(g.events[order[i]])
    ensures SoFar(g, order, i + 1).Err? <==> Crosses(plan, g.events[order[i]])
    ensures Crosses(plan, g.events[order[i]]) ==> Scheduler.Schedule(g, order) == Err(UsageAfterDependency(order[i]))
  {
    SoFarIsGood(g, order, i);
    SoFarStep(g, order, i);
    BeforeEventRefusedIff(plan, order[i], g.events[order[i]]);
    if Crosses(plan, g.events[order[i]]) { SoFarErrs(g, order, i + 1); }
  }

  lemma {:induction false} SoFarIsGood(g: Module, order: seq<Name>, i: nat)
    requires Input(g, order) && LibraryArgsAreLibraries(g) && i <= |order| && SoFar(g, order, i).Ok?
    ensures Good(g, Base(g, order), SoFar(g, order, i).value, Done(g, order, i))
  {
    if i == 0 {
      var r := LibrariesPass(g, order);
      DoneAtEnds(g, order);
    } else {
      SoFarStep(g, order, i - 1);
      SoFarIsGood(g, order, i - 1);
      ElementHandled(g, order, SoFar(g, order, i - 1).value, i - 1);
    }
  }

  /** An error met on the way is the error of the whole schedule. */
  lemma {:induction false} SoFarErrs(g: Module, order: seq<Name>, i: nat)
    requires Rankable(g) && i <= |order| && SoFar(g, order, i).Err?
    ensures Scheduler.Schedule(g, order) == SoFar(g, order, i)
    decreases |order| - i
  {
    if i == |order| {
      assert order[..i] == order;
    } else {
      SoFarStep(g, order, i);
      SoFarErrs(g, order, i + 1);
    }
  }

  /** The batches partition the module state: every element is in some batch, no
      element is in two places, and nothing else is in any.  Only the first can be
      empty, and it is not if a contract is scheduled or every hook waits for
      something. */
  lemma SchedulePartitions(g: Module, order: seq<Name>, plan: Plan)
    requires Scheduled(g, order, plan)
    ensures plan.lost == []
    ensures forall x :: x in order <==> exists k :: 0 <= k < |plan.batches| && x in plan.batches[k]
    ensures forall k, j, k', j' :: SamePlace(plan.batches, k, j, k', j') ==> k == k' && j == j'
    ensures forall x :: x in plan.batchOf ==>
              plan.batchOf[x].At? && BatchOf(plan, x) < |plan.batches| && x in plan.batches[BatchOf(plan, x)]
    ensures OnlyFirstHole(plan) && (GroundedIn(g, Members(order)) ==> NoHoles(plan))
    ensures (exists c :: c in order && c in g.bindings) ==> NoHoles(plan)
  {
    ScheduleIsGood(g, order);
    if c :| c in order && c in g.bindings { ContractFillsFirst(g, order, plan, c); }
    var all := Members(order);
    forall x | x in order ensures exists k :: 0 <= k < |plan.batches| && x in plan.batches[k] {
      assert Flat(plan.batches)[x] == 1;
      FlatFinds(plan.batches, x);
    }
    forall k, j | 0 <= k < |plan.batches| && 0 <= j < |plan.batches[k]| ensures plan.batches[k][j] in order {
      FlatCount(plan.batches, k, j);
      assert plan.batches[k][j] in multiset(all);
    }
    forall k, j, k', j' | SamePlace(plan.batches, k, j, k', j') ensures k == k' && j == j' {
      if (k, j) != (k', j') {
        if k <= k' { FlatCountTwice(plan.batches, k, j, k', j'); } else { FlatCountTwice(plan.batches, k', j', k, j); }
        assert false;
      }
    }
  }

  /** Going down a longest chain of arguments leads to a contract that starts where
      its kind may start. */
  lemma {:induction false} LowestContract(g: Module, order: seq<Name>, base: nat, c: Name) returns (n: Name)
    requires Input(g, order) && LibraryArgsAreLibraries(g) && c in order && c in g.bindings
    ensures n in order && n in g.bindings && Level(g, base, n) == Start(g, base, n)
    ensures IsLibrary(g, c) ==> IsLibrary(g, n)
    decreases RankOf(g).C(c)
  {
    var m := LevelReached(g, base, c, Start(g, base, c), g.bindings[c].args);
    if Level(g, base, c) == Start(g, base, c) {
      n := c;
    } else {
      ArgRanksBelow(g, c, m);
      var i :| 0 <= i < |order| && order[i] == c;
      ArgsStandBefore(g, order, i, m);
      n := LowestContract(g, order, base, m);
    }
  }

  /** Scheduling a contract fills the first batch. */
  lemma ContractFillsFirst(g: Module, order: seq<Name>, plan: Plan, c: Name)
    requires Scheduled(g, order, plan) && c in order && c in g.bindings
    ensures NoHoles(plan)
  {
    var top := LowestStart(g, order, c);
    var n := LowestContract(g, order, Base(g, order), top);
    assert Start(g, Base(g, order), n) == 0;
    ScheduleIsGood(g, order);
    LevelZeroFills(g, Base(g, order), plan, Members(order), n);
  }

  /** Where to go down from: a library, if there is one. */
  lemma LowestStart(g: Module, order: seq<Name>, c: Name) returns (top: Name)
    requires c in order && c in g.bindings
    ensures top in order && top in g.bindings && (Base(g, order) == 0 || IsLibrary(g, top))
  {
    top := c;
    if Base(g, order) == 1 { top :| top in order && IsLibrary(g, top); }
  }

  lemma LevelZeroFills(g: Module, base: nat, plan: Plan, done: set<Name>, n: Name)
    requires Rankable(g) && Good(g, base, plan, done) && n in done && n in g.bindings && Level(g, base, n) == 0
    ensures NoHoles(plan)
  {
    assert n in plan.batchOf && plan.batchOf[n] == At(0);
  }

  /** Two positions of the batches that hold the same element. */
  ghost predicate SamePlace(batches: seq<seq<Name>>, k: int, j: int, k': int, j': int) {
    && 0 <= k < |batches| && 0 <= j < |batches[k]|
    && 0 <= k' < |batches| && 0 <= j' < |batches[k']|
    && batches[k][j] == batches[k'][j']
  }

  lemma {:induction false} FlatFinds(batches: seq<seq<Name>>, x: Name)
    requires Flat(batches)[x] >= 1
    ensures exists k :: 0 <= k < |batches| && x in batches[k]
  {
    if x in batches[0] {
    } else {
      FlatFinds(batches[1..], x);
      var k :| 0 <= k < |batches[1..]| && x in batches[1..][k];
      assert x in batches[k + 1];
    }
  }

  /** A valid assignment of batches to contracts: later than the arguments, and, where
      there are libraries, other contracts later than those. */
  ghost predicate ValidBatches(g: Module, base: nat, f: map<Name, nat>) {
    && f.Keys == g.bindings.Keys
    && (forall c, n :: c in g.bindings && n in g.bindings && Contract(n) in g.bindings[c].args ==> f[n] < f[c])
    && (forall c :: c in g.bindings && !IsLibrary(g, c) ==> base <= f[c])
  }

  lemma {:induction false} LevelIsLeast(g: Module, base: nat, f: map<Name, nat>, c: Name)
    requires Rankable(g) && ValidBatches(g, base, f) && c in g.bindings
    ensures Level(g, base, c) <= f[c]
    decreases RankOf(g).C(c)
  {
    var n := LevelReached(g, base, c, Start(g, base, c), g.bindings[c].args);
    if Level(g, base, c) > Start(g, base, c) {
      ArgRanksBelow(g, c, n);
      LevelIsLeast(g, base, f, n);
    }
  }

  /** No valid schedule puts any contract in an earlier batch. */
  lemma ScheduleIsEarliest(g: Module, order: seq<Name>, plan: Plan, f: map<Name, nat>, c: Name)
    requires Scheduled(g, order, plan) && c in g.bindings && c in order
    requires ValidBatches(g, Base(g, order), f)
    ensures c in plan.batchOf && plan.batchOf[c].At? && BatchOf(plan, c) <= f[c]
  {
    ScheduleIsGood(g, order);
    assert c in plan.batchOf;
    LevelIsLeast(g, Base(g, order), f, c);
  }

  /** A chain of contracts each an argument of the next, ending at `c`. */
  ghost predicate ArgChain(g: Module, p: seq<Name>, c: Name) {
    && p != [] && p[|p| - 1] == c
    && (forall i :: 0 <= i < |p| ==> p[i] in g.bindings)
    && (forall i :: 0 <= i < |p| - 1 ==> Contract(p[i]) in g.bindings[p[i + 1]].args)
  }

  lemma {:induction false} ChainBelowLevel(g: Module, base: nat, p: seq<Name>, c: Name)
    requires Rankable(g) && ArgChain(g, p, c)
    ensures Start(g, base, p[0]) + |p| - 1 <= Level(g, base, c)
    decreases |p|
  {
    LevelArgsBound(g, base, c, Start(g, base, c), g.bindings[c].args);
    if |p| > 1 {
      var q := p[..|p| - 1];
      assert Contract(p[|p| - 2]) in g.bindings[p[|p| - 1]].args;
      ChainBelowLevel(g, base, q, p[|p| - 2]);
    }
  }

  lemma {:induction false} LevelHasChain(g: Module, base: nat, c: Name) returns (p: seq<Name>)
    requires Rankable(g) && c in g.bindings
    ensures ArgChain(g, p, c) && Start(g, base, p[0]) + |p| - 1 == Level(g, base, c)
    decreases RankOf(g).C(c)
  {
    var n := LevelReached(g, base, c, Start(g, base, c), g.bindings[c].args);
    if Level(g, base, c) == Start(g, base, c) {
      p := [c];
    } else {
      ArgRanksBelow(g, c, n);
      p := LevelHasChain(g, base, n);
      var q := p;
      p := q + [c];
      forall i | 0 <= i < |p| - 1 ensures Contract(p[i]) in g.bindings[p[i + 1]].args {
        if i < |q| - 1 { assert Contract(q[i]) in g.bindings[q[i + 1]].args; }
      }
    }
  }

  /** A contract's batch number is the length of its longest argument chain, counted
      from where the chain's first contract may start. */
  lemma BatchIsLongestChain(g: Module, order: seq<Name>, plan: Plan, c: Name)
    requires Scheduled(g, order, plan) && c in g.bindings && c in order
    ensures c in plan.batchOf && plan.batchOf[c].At?
    ensures exists p :: ArgChain(g, p, c) && BatchOf(plan, c) == Start(g, Base(g, order), p[0]) + |p| - 1
    ensures forall p :: ArgChain(g, p, c) ==> Start(g, Base(g, order), p[0]) + |p| - 1 <= BatchOf(plan, c)
  {
    ScheduleIsGood(g, order);
    assert c in plan.batchOf;
    var p := LevelHasChain(g, Base(g, order), c);
    forall q | ArgChain(g, q, c) ensures Start(g, Base(g, order), q[0]) + |q| - 1 <= BatchOf(plan, c) {
      ChainBelowLevel(g, Base(g, order), q, c);
    }
  }

  /** An after-hook of any schedule is later than all it waits for that has a number, and
      no later than it must: in batch 1, or one past something it waits for. */
  lemma HookBatchIsExact(g: Module, order: seq<Name>, plan: Plan, e: Name)
    requires Input(g, order) && Scheduler.Schedule(g, order) == Ok(plan)
    requires e in plan.batchOf && plan.batchOf[e].At? && AfterHook(g, e)
    ensures forall n :: n in Waits(g.events[e]) ==> LostOrBefore(plan.batchOf, n, e)
    ensures BatchOf(plan, e) >= 1
    ensures BatchOf(plan, e) == 1 || Attained(plan, Waits(g.events[e]), BatchOf(plan, e) - 1)
  {
    ScheduleIsAligned(g, order);
    forall n | n in Waits(g.events[e]) ensures LostOrBefore(plan.batchOf, n, e) { assert MustFollow(g, e, n); }
    assert TightAt(g, plan, e, plan.batchOf[e].n);
  }

  /** A valid assignment `h` of batches to hooks, `f` being one of contracts: after-hooks
      after the first batch and after all they wait for; before-hooks, which the code
      places by the batches there are so far, no earlier than by the plan. */
  ghost predicate ValidHooks(g: Module, plan: Plan, f: map<Name, nat>, h: map<Name, nat>) {
    && h.Keys == g.events.Keys
    && (forall e :: e in g.events && IsAfter(g.events[e]) ==> h[e] >= 1)
    && (forall e, n :: e in g.events && IsAfter(g.events[e]) && n in Waits(g.events[e]) ==>
          (n in f ==> f[n] < h[e]) && (n in h ==> h[n] < h[e]))
    && (forall e :: e in g.events && !IsAfter(g.events[e]) && e in plan.batchOf && plan.batchOf[e].At? ==>
          BatchOf(plan, e) <= h[e])
  }

  lemma NumberedIff(g: Module, order: seq<Name>, plan: Plan, x: Name)
    requires Scheduled(g, order, plan)
    ensures x in plan.batchOf <==> x in order && (x in g.bindings || x in g.events)
    ensures x in plan.batchOf ==> plan.batchOf[x].At?
  {
    ScheduleIsGood(g, order);
  }

  /** Every contract of the plan is placed no later than by `f`. */
  ghost predicate NoLater(g: Module, plan: Plan, f: map<Name, nat>) {
    forall c :: c in plan.batchOf && c in g.bindings ==> c in f && plan.batchOf[c].At? && plan.batchOf[c].n <= f[c]
  }

  lemma {:induction false} HookNoLater(g: Module, plan: Plan, f: map<Name, nat>, h: map<Name, nat>, e: Name)
    requires HooksTight(g, plan) && NoLater(g, plan, f) && ValidHooks(g, plan, f, h)
    requires forall x :: x in plan.batchOf ==> x in g.bindings || x in g.events
    requires e in plan.batchOf && plan.batchOf[e].At? && AfterHook(g, e)
    ensures plan.batchOf[e].n <= h[e]
    decreases plan.batchOf[e].n
  {
    var k := plan.batchOf[e].n;
    assert TightAt(g, plan, e, k);
    if k > 1 {
      var n :| n in Waits(g.events[e]) && n in plan.batchOf && plan.batchOf[n] == At(k - 1);
      if n !in g.bindings && IsAfter(g.events[n]) { HookNoLater(g, plan, f, h, n); }
      WaitNoLater(g, plan, f, h, e, n);
    }
  }

  lemma WaitNoLater(g: Module, plan: Plan, f: map<Name, nat>, h: map<Name, nat>, e: Name, n: Name)
    requires NoLater(g, plan, f) && ValidHooks(g, plan, f, h) && AfterHook(g, e) && n in Waits(g.events[e])
    requires n in plan.batchOf && plan.batchOf[n].At? && (n in g.bindings || n in g.events)
    requires AfterHook(g, n) ==> plan.batchOf[n].n <= h[n]
    ensures plan.batchOf[n].n < h[e]
  {
  }

  /** No valid schedule puts any after-hook in an earlier batch. */
  lemma HooksAreEarliest(g: Module, order: seq<Name>, plan: Plan, f: map<Name, nat>, h: map<Name, nat>, e: Name)
    requires Scheduled(g, order, plan) && e in order && AfterHook(g, e)
    requires ValidBatches(g, Base(g, order), f) && ValidHooks(g, plan, f, h)
    ensures e in plan.batchOf && plan.batchOf[e].At? && BatchOf(plan, e) <= h[e]
  {
    ScheduleIsAligned(g, order);
    NumberedIff(g, order, plan, e);
    forall c | c in plan.batchOf && c in g.bindings
      ensures c in f && plan.batchOf[c].At? && plan.batchOf[c].n <= f[c]
    {
      NumberedIff(g, order, plan, c);
      ScheduleIsEarliest(g, order, plan, f, c);
    }
    HookNoLater(g, plan, f, h, e);
  }

  /** A before-hook met with plan `plan` and not refused keeps this batch: one past the
      deepest of what it uses, but not beyond the batch before the shallowest of what it
      depends on. */
  lemma BeforeHookBatch(g: Module, order: seq<Name>, plan: Plan, i: nat, d: nat, s: nat)
    requires Input(g, order) && i < |order| && SoFar(g, order, i) == Ok(plan) && Scheduler.Schedule(g, order).Ok?
    requires order[i] !in g.bindings && order[i] in g.events && !IsAfter(g.events[order[i]])
    requires var event := g.events[order[i]];
             IsDeepest(plan, event.usage + event.eventUsage, d) && IsShallowest(plan, event.deps + event.eventDeps, s)
    ensures var batchOf := Scheduler.Schedule(g, order).value.batchOf;
            order[i] in batchOf && batchOf[order[i]] == At(BeforeBatch(d, s))
  {
    SoFarStep(g, order, i);
    if SoFar(g, order, i + 1).Err? { SoFarErrs(g, order, i + 1); }
    BeforeEventBatch(plan, order[i], g.events[order[i]], d, s);
    NumbersStay(g, order, i + 1);
  }

  /** What a schedule has made of the first `i` elements stays: the batches it has are
      beginnings of its final ones, with the elements in the order they were met. */
  lemma {:induction false} NumbersStay(g: Module, order: seq<Name>, i: nat)
    requires Input(g, order) && i <= |order| && Scheduler.Schedule(g, order).Ok?
    ensures SoFar(g, order, i).Ok?
    ensures Extends(SoFar(g, order, i).value, Scheduler.Schedule(g, order).value)
    decreases |order| - i
  {
    if i == |order| {
      assert order[..i] == order;
    } else {
      NumbersStay(g, order, i + 1);
      SoFarStep(g, order, i);
      AllKeepOrder(g, order, i);
      PrefixGrows(g, order, i);
      ElementExtends(g, order, SoFar(g, order, i).value, Base(g, order), order[i]);
    }
  }

  lemma ElementExtends(g: Module, order: seq<Name>, plan: Plan, base: nat, x: Name)
    requires Rankable(g) && (x in g.bindings || x !in plan.batchOf)
    ensures var r := HandleElement(g, order, plan, base, x); r.Ok? ==> Extends(plan, r.value)
  {
    if x in g.bindings { ContractAddsLower(g, order, plan, At(base), x); }
  }

  /** Module events are in the first batch of any schedule. */
  lemma ModuleEventsAreFirst(g: Module, order: seq<Name>, plan: Plan, k: nat, x: Name)
    requires Input(g, order) && Scheduler.Schedule(g, order) == Ok(plan)
    requires k < |plan.batches| && x in plan.batches[k] && x in ModuleEvents(g)
    ensures k == 0
  {
    ScheduleIsAligned(g, order);
    assert InBatch(plan, k, x);
  }
}
