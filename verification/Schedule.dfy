/** What the one-pass schedule guarantees on a state in resolver order. */
module Schedule {
  import opened Graph
  import opened Resolver
  import opened Scheduler
  import opened Wrappers

  function Flat(batches: seq<seq<Name>>): multiset<Name> {
    if batches == [] then multiset{} else multiset(batches[0]) + Flat(batches[1..])
  }

  lemma {:induction false} FlatConcat(a: seq<seq<Name>>, b: seq<seq<Name>>)
    ensures Flat(a + b) == Flat(a) + Flat(b)
  {
    if a == [] {
      assert a + b == b;
    } else {
      assert (a + b)[1..] == a[1..] + b;
      FlatConcat(a[1..], b);
    }
  }

  lemma {:induction false} FlatHoles(n: nat)
    ensures Flat(Padded([], n)) == multiset{}
  {
    if n == 0 {
    } else {
      assert Padded([], n)[1..] == Padded([], n - 1);
      FlatHoles(n - 1);
    }
  }

  lemma FlatPadded(batches: seq<seq<Name>>, n: nat)
    ensures Flat(Padded(batches, n)) == Flat(batches)
  {
    if n > |batches| {
      FlatHoles(n - |batches|);
      FlatConcat(batches, Padded([], n - |batches|));
      assert Padded(batches, n) == batches + Padded([], n - |batches|);
    }
  }

  lemma {:induction false} FlatPush(p: seq<seq<Name>>, k: nat, x: Name)
    requires k < |p|
    ensures Flat(p[k := p[k] + [x]]) == Flat(p) + multiset{x}
  {
    var r := p[k := p[k] + [x]];
    if k == 0 {
      assert r[1..] == p[1..];
    } else {
      FlatPush(p[1..], k - 1, x);
      assert r[1..] == p[1..][k - 1 := p[k] + [x]];
    }
  }

  lemma FlatPlace(batches: seq<seq<Name>>, k: nat, x: Name)
    ensures Flat(PlaceIn(batches, k, x)) == Flat(batches) + multiset{x}
  {
    FlatPadded(batches, k + 1);
    FlatPush(Padded(batches, k + 1), k, x);
  }

  /** The batch a contract should be in: after all its argument contracts, and,
      unless it is a library, no earlier than `base`. */
  ghost function Level(g: Module, base: nat, c: Name): nat
    requires Rankable(g) && c in g.bindings
    decreases RankOf(g).C(c), 1, 0
  {
    LevelArgs(g, base, c, Start(g, base, c), g.bindings[c].args)
  }

  function Start(g: Module, base: nat, c: Name): nat
    requires c in g.bindings
  {
    if g.bindings[c].library then 0 else base
  }

  ghost function LevelArgs(g: Module, base: nat, c: Name, cur: nat, args: seq<Arg>): nat
    requires Rankable(g) && c in g.bindings
    requires forall a :: a in args ==> a in g.bindings[c].args
    decreases RankOf(g).C(c), 0, |args|
  {
    if args == [] then cur
    else if !args[0].Contract? || args[0].name !in g.bindings then LevelArgs(g, base, c, cur, args[1..])
    else
      ArgRanksBelow(g, c, args[0].name);
      var b := Level(g, base, args[0].name);
      LevelArgs(g, base, c, if cur < b + 1 then b + 1 else cur, args[1..])
  }

  /** Everything an afterDeploy or onChange hook waits for. */
  function Waits(e: Event): seq<Name> {
    e.usage + e.deps + e.eventDeps + e.eventUsage
  }

  ghost predicate Recorded(g: Module, plan: Plan, done: set<Name>) {
    && plan.lost == []
    && (forall x :: x in plan.batchOf <==> x in done && (x in g.bindings || x in g.events))
    && (forall x :: x in plan.batchOf ==>
          plan.batchOf[x].At? && plan.batchOf[x].n < |plan.batches| && x in plan.batches[plan.batchOf[x].n])
    && Flat(plan.batches) == multiset(done)
  }

  ghost predicate NoHoles(plan: Plan) {
    forall k :: 0 <= k < |plan.batches| ==> plan.batches[k] != []
  }

  /** A hook that waits for nothing goes to batch 1, so batch 0 alone can be skipped. */
  ghost predicate OnlyFirstHole(plan: Plan) {
    forall k :: 1 <= k < |plan.batches| ==> plan.batches[k] != []
  }

  /** Every afterDeploy and onChange hook met so far waits for something. */
  ghost predicate GroundedIn(g: Module, done: set<Name>) {
    forall e :: e in done && e in g.events && IsAfter(g.events[e]) ==> Waits(g.events[e]) != []
  }

  ghost predicate Numbered(g: Module, base: nat, batchOf: map<Name, BatchNo>)
    requires Rankable(g)
  {
    forall c :: c in batchOf && c in g.bindings ==>
      batchOf[c] == At(Level(g, base, c)) && ArgsBound(g, g.bindings[c].args)
  }

  ghost predicate ArgsBound(g: Module, args: seq<Arg>) {
    forall n :: Contract(n) in args ==> n in g.bindings
  }

  /** `p` is in an earlier batch than `e`. */
  ghost predicate Before(batchOf: map<Name, BatchNo>, p: Name, e: Name) {
    && p in batchOf && e in batchOf
    && batchOf[p].At? && batchOf[e].At? && batchOf[p].n < batchOf[e].n
  }

  ghost predicate EventsWait(g: Module, batchOf: map<Name, BatchNo>) {
    forall e, p :: e in batchOf && e in g.events && IsAfter(g.events[e]) && p in Waits(g.events[e]) ==>
      Before(batchOf, p, e)
  }

  ghost predicate Good(g: Module, base: nat, plan: Plan, done: set<Name>)
    requires Rankable(g)
  {
    && Recorded(g, plan, done)
    && Numbered(g, base, plan.batchOf)
    && EventsWait(g, plan.batchOf)
    && Dense(g, plan, done)
  }

  ghost predicate Dense(g: Module, plan: Plan, done: set<Name>) {
    OnlyFirstHole(plan) && (GroundedIn(g, done) ==> NoHoles(plan))
  }

  lemma PlaceRecords(g: Module, plan: Plan, done: set<Name>, k: nat, x: Name)
    requires Recorded(g, plan, done) && x !in done && (x in g.bindings || x in g.events)
    ensures Recorded(g, Place(plan, At(k), x), done + {x})
  {
    FlatPlace(plan.batches, k, x);
    assert multiset(done + {x}) == multiset(done) + multiset{x};
    PlacedIsThere(plan, k, x);
  }

  lemma PlacedIsThere(plan: Plan, k: nat, x: Name)
    ensures var b := PlaceIn(plan.batches, k, x);
            && k < |b| && |plan.batches| <= |b| && x in b[k]
            && forall i, y :: 0 <= i < |plan.batches| && y in plan.batches[i] ==> y in b[i]
  {
  }

  lemma PlaceKeepsDense(g: Module, plan: Plan, done: set<Name>, k: nat, x: Name)
    requires Dense(g, plan, done)
    requires k <= |plan.batches| || (k == 1 && !GroundedIn(g, done + {x}))
    ensures Dense(g, Place(plan, At(k), x), done + {x})
  {
    var p' := Place(plan, At(k), x);
    assert GroundedIn(g, done + {x}) ==> GroundedIn(g, done);
    assert p'.batches[k] != [];
    assert forall i :: 0 <= i < |p'.batches| && i != k && i < |plan.batches| ==> p'.batches[i] == plan.batches[i];
  }

  lemma ModuleEventRecords(g: Module, base: nat, plan: Plan, done: set<Name>, x: Name)
    requires Rankable(g) && Good(g, base, plan, done) && x !in done && x !in g.bindings && x !in g.events
    ensures Good(g, base, HandleModuleEvent(plan, x), done + {x})
  {
    ModuleEventRecorded(g, plan, done, x);
    ModuleEventKeepsDense(g, plan, done, x);
  }

  lemma ModuleEventRecorded(g: Module, plan: Plan, done: set<Name>, x: Name)
    requires Recorded(g, plan, done) && x !in done && x !in g.bindings && x !in g.events
    ensures Recorded(g, HandleModuleEvent(plan, x), done + {x})
  {
    FlatPlace(plan.batches, 0, x);
    assert multiset(done + {x}) == multiset(done) + multiset{x};
    PlacedIsThere(plan, 0, x);
  }

  lemma ModuleEventKeepsDense(g: Module, plan: Plan, done: set<Name>, x: Name)
    requires Dense(g, plan, done)
    ensures Dense(g, HandleModuleEvent(plan, x), done + {x})
  {
    PlaceKeepsDense(g, plan, done, 0, x);
    assert HandleModuleEvent(plan, x).batches == Place(plan, At(0), x).batches;
  }

  /** A batched contract's own arguments and libraries are never looked at again. */
  ghost predicate ArgsBatched(g: Module, order: seq<Name>, plan: Plan, args: seq<Arg>) {
    forall n :: Contract(n) in args ==> n in order && n in g.bindings && n in plan.batchOf
  }

  lemma {:induction false} ArgsGiveLevel(g: Module, order: seq<Name>, base: nat, plan: Plan, cur: nat, c: Name,
                                         args: seq<Arg>)
    requires Rankable(g) && c in g.bindings && Numbered(g, base, plan.batchOf)
    requires forall a :: a in args ==> a in g.bindings[c].args
    requires ArgsBatched(g, order, plan, args)
    ensures HandleArgs(g, order, plan, At(cur), c, args) == Ok((plan, At(LevelArgs(g, base, c, cur, args))))
    decreases |args|
  {
    if args == [] {
    } else {
      assert forall n :: Contract(n) in args[1..] ==> Contract(n) in args;
      if !args[0].Contract? {
        ArgsGiveLevel(g, order, base, plan, cur, c, args[1..]);
      } else {
        var n := args[0].name;
        assert Contract(n) in args;
        var b := Level(g, base, n);
        var next := if cur < b + 1 then b + 1 else cur;
        ArgsGiveLevel(g, order, base, plan, next, c, args[1..]);
        ArgStep(g, order, base, plan, cur, next, c, args);
      }
    }
  }

  lemma ArgStep(g: Module, order: seq<Name>, base: nat, plan: Plan, cur: nat, next: nat, c: Name, args: seq<Arg>)
    requires Rankable(g) && c in g.bindings && Numbered(g, base, plan.batchOf)
    requires forall a :: a in args ==> a in g.bindings[c].args
    requires args != [] && args[0].Contract?
    requires var n := args[0].name; n in order && n in g.bindings && n in plan.batchOf
    requires var b := Level(g, base, args[0].name); next == if cur < b + 1 then b + 1 else cur
    ensures LevelArgs(g, base, c, cur, args) == LevelArgs(g, base, c, next, args[1..])
    ensures HandleArgs(g, order, plan, At(cur), c, args) == HandleArgs(g, order, plan, At(next), c, args[1..])
  {
    assert Later(At(cur), plan.batchOf[args[0].name]) == At(next);
  }

  /** One level below, unless the contract starts where it ends, something is placed. */
  lemma {:induction false} LevelReached(g: Module, base: nat, c: Name, cur: nat, args: seq<Arg>) returns (n: Name)
    requires Rankable(g) && c in g.bindings
    requires forall a :: a in args ==> a in g.bindings[c].args
    ensures LevelArgs(g, base, c, cur, args) >= cur
    ensures LevelArgs(g, base, c, cur, args) > cur ==>
              Contract(n) in args && n in g.bindings && LevelArgs(g, base, c, cur, args) == Level(g, base, n) + 1
    decreases |args|
  {
    if args == [] {
      n := "";
    } else if !args[0].Contract? || args[0].name !in g.bindings {
      n := LevelReached(g, base, c, cur, args[1..]);
    } else {
      var b := Level(g, base, args[0].name);
      n := LevelReached(g, base, c, if cur < b + 1 then b + 1 else cur, args[1..]);
      if LevelArgs(g, base, c, cur, args) == b + 1 && b + 1 > cur { n := args[0].name; }
    }
  }

  lemma ContractStep(g: Module, order: seq<Name>, base: nat, plan: Plan, done: set<Name>, c: Name)
    requires Rankable(g) && Good(g, base, plan, done) && c in g.bindings && c !in g.events && c !in done
    requires ArgsBatched(g, order, plan, g.bindings[c].args)
    requires Start(g, base, c) <= |plan.batches|
    ensures var r := HandleContract(g, order, plan, At(Start(g, base, c)), c);
            r.Ok? && Good(g, base, r.value, done + {c})
  {
    var cur := Start(g, base, c);
    ArgsGiveLevel(g, order, base, plan, cur, c, g.bindings[c].args);
    var k := LevelArgs(g, base, c, cur, g.bindings[c].args);
    var n := LevelReached(g, base, c, cur, g.bindings[c].args);
    assert k <= |plan.batches| by {
      if k > cur { assert n in plan.batchOf; }
    }
    ContractGood(g, base, plan, done, c, k);
  }

  lemma ContractGood(g: Module, base: nat, plan: Plan, done: set<Name>, c: Name, k: nat)
    requires Rankable(g) && Good(g, base, plan, done) && c in g.bindings && c !in g.events && c !in done
    requires k == Level(g, base, c) && k <= |plan.batches| && ArgsBound(g, g.bindings[c].args)
    ensures Good(g, base, Place(plan, At(k), c), done + {c})
  {
    PlaceRecords(g, plan, done, k, c);
    PlaceKeepsDense(g, plan, done, k, c);
    EventsStillWait(g, plan, k, c);
  }

  ghost predicate AtMost(plan: Plan, n: Name, d: nat) {
    n in plan.batchOf && (plan.batchOf[n].At? ==> plan.batchOf[n].n <= d)
  }

  /** Some member of `names` is in batch `d`. */
  ghost predicate Attained(plan: Plan, names: seq<Name>, d: nat) {
    exists n :: n in names && n in plan.batchOf && plan.batchOf[n] == At(d)
  }

  lemma {:induction false} DeepestIsDeepest(plan: Plan, e: Name, names: seq<Name>, d: nat, used: bool)
    ensures var r := Deepest(plan, e, names, d, used);
            && (r.Ok? ==> d <= r.value)
            && (r.Ok? ==> forall n :: n in names ==> AtMost(plan, n, r.value))
            && (r.Ok? ==> r.value == d || Attained(plan, names, r.value))
            && (r.Err? ==> exists n :: n in names && n !in plan.batchOf && r.error == Refusal(e, n, used))
  {
    if names == [] {
    } else {
      assert names == [names[0]] + names[1..];
      if names[0] in plan.batchOf {
        DeepestIsDeepest(plan, e, names[1..], Deeper(d, plan.batchOf[names[0]]), used);
      }
    }
  }

  ghost predicate AllAtMost(plan: Plan, names: seq<Name>, d: nat) {
    forall n :: n in names ==> AtMost(plan, n, d)
  }

  lemma DeepestWaitBounds(plan: Plan, e: Name, event: Event)
    ensures var r := DeepestWait(plan, e, event);
            && (r.Ok? ==> AllAtMost(plan, Waits(event), r.value))
            && (r.Ok? ==> r.value == 0 || Attained(plan, Waits(event), r.value))
            && (r.Err? ==> exists n :: n in Waits(event) && n !in plan.batchOf &&
                             (r.error == EventUsageIsNotDeployed(e, n) || n in event.deps + event.eventDeps))
  {
    DeepestIsDeepest(plan, e, event.usage, 0, true);
    var r1 := Deepest(plan, e, event.usage, 0, true);
    if r1.Err? { return; }
    DeepestIsDeepest(plan, e, event.deps, r1.value, false);
    var r2 := Deepest(plan, e, event.deps, r1.value, false);
    if r2.Err? { return; }
    DeepestIsDeepest(plan, e, event.eventDeps, r2.value, false);
    var r3 := Deepest(plan, e, event.eventDeps, r2.value, false);
    if r3.Err? { return; }
    DeepestIsDeepest(plan, e, event.eventUsage, r3.value, true);
  }

  /** A hook whose needs are batched is batched after everything it waits for, or
      refused for a used event that is not batched. */
  lemma AfterEventStep(g: Module, base: nat, plan: Plan, done: set<Name>, e: Name)
    requires Rankable(g) && Good(g, base, plan, done) && e in g.events && e !in g.bindings && e !in done
    requires IsAfter(g.events[e])
    requires NeedsBatched(g, plan, e)
    ensures AfterEventHandled(g, base, plan, done, e, HandleAfterEvent(plan, e, g.events[e]))
  {
    match HandleAfterEvent(plan, e, g.events[e])
    case Ok(plan') => AfterEventAccepted(g, base, plan, plan', done, e);
    case Err(_) => AfterEventRefused(g, base, plan, done, e);
  }

  ghost predicate NeedsBatched(g: Module, plan: Plan, e: Name) {
    forall n :: n in Needs(g, e) ==> n in plan.batchOf
  }

  lemma AfterEventIs(plan: Plan, e: Name, event: Event)
    ensures var r := DeepestWait(plan, e, event);
            HandleAfterEvent(plan, e, event) == if r.Ok? then Ok(Place(plan, At(r.value + 1), e)) else Err(r.error)
  {
  }

  lemma AfterEventPlaced(g: Module, base: nat, plan: Plan, plan': Plan, done: set<Name>, e: Name, d: nat)
    requires Rankable(g) && Good(g, base, plan, done) && e in g.events && e !in g.bindings && e !in done
    requires IsAfter(g.events[e])
    requires DeepestWait(plan, e, g.events[e]) == Ok(d)
    requires plan' == Place(plan, At(d + 1), e)
    ensures Good(g, base, plan', done + {e})
  {
    OnePastIsBehind(g, plan, done, e, d);
    EventGood(g, base, plan, done, d + 1, e);
  }

  lemma AfterEventAccepted(g: Module, base: nat, plan: Plan, plan': Plan, done: set<Name>, e: Name)
    requires Rankable(g) && Good(g, base, plan, done) && e in g.events && e !in g.bindings && e !in done
    requires IsAfter(g.events[e]) && HandleAfterEvent(plan, e, g.events[e]) == Ok(plan')
    ensures Good(g, base, plan', done + {e})
  {
    AfterEventIs(plan, e, g.events[e]);
    AfterEventPlaced(g, base, plan, plan', done, e, DeepestWait(plan, e, g.events[e]).value);
  }

  lemma AfterEventRefused(g: Module, base: nat, plan: Plan, done: set<Name>, e: Name)
    requires Rankable(g) && e in g.events && e !in g.bindings && IsAfter(g.events[e])
    requires NeedsBatched(g, plan, e) && HandleAfterEvent(plan, e, g.events[e]).Err?
    ensures AfterEventHandled(g, base, plan, done, e, HandleAfterEvent(plan, e, g.events[e]))
  {
    AfterEventIs(plan, e, g.events[e]);
    RefusalIsForUsage(g, plan, e);
  }

  lemma OnePastIsBehind(g: Module, plan: Plan, done: set<Name>, e: Name, d: nat)
    requires Recorded(g, plan, done) && e in g.events && e !in g.bindings && IsAfter(g.events[e])
    requires DeepestWait(plan, e, g.events[e]) == Ok(d)
    ensures AllBelow(plan, Waits(g.events[e]), d + 1)
    ensures d + 1 <= |plan.batches| || (d + 1 == 1 && !GroundedIn(g, done + {e}))
  {
    DeepestWaitBounds(plan, e, g.events[e]);
    BelowDeepest(g, plan, done, e, d);
    if Waits(g.events[e]) == [] { assert e in done + {e}; }
  }

  ghost predicate AfterEventHandled(g: Module, base: nat, plan: Plan, done: set<Name>, e: Name,
                                    r: Result<Plan, ScheduleError>)
    requires Rankable(g) && e in g.events
  {
    match r
    case Ok(plan') => Good(g, base, plan', done + {e})
    case Err(error) => RefusedForUsage(g, plan, e, error)
  }

  ghost predicate RefusedForUsage(g: Module, plan: Plan, e: Name, error: ScheduleError)
    requires e in g.events
  {
    exists u :: error == EventUsageIsNotDeployed(e, u) && u in g.events[e].eventUsage && u !in plan.batchOf
  }

  lemma RefusalIsForUsage(g: Module, plan: Plan, e: Name)
    requires e in g.events && e !in g.bindings && IsAfter(g.events[e])
    requires NeedsBatched(g, plan, e)
    requires DeepestWait(plan, e, g.events[e]).Err?
    ensures RefusedForUsage(g, plan, e, DeepestWait(plan, e, g.events[e]).error)
  {
    DeepestWaitBounds(plan, e, g.events[e]);
    var error := DeepestWait(plan, e, g.events[e]).error;
    var n :| n in Waits(g.events[e]) && n !in plan.batchOf &&
             (error == EventUsageIsNotDeployed(e, n) || n in g.events[e].deps + g.events[e].eventDeps);
    assert n !in Needs(g, e);
  }

  ghost predicate AllBelow(plan: Plan, names: seq<Name>, k: nat) {
    forall p :: p in names ==> p in plan.batchOf && plan.batchOf[p].At? && plan.batchOf[p].n < k
  }

  /** An event placed after what it waits for, leaving no gap. */
  lemma EventGood(g: Module, base: nat, plan: Plan, done: set<Name>, k: nat, e: Name)
    requires Rankable(g) && Good(g, base, plan, done) && e in g.events && e !in g.bindings && e !in done
    requires IsAfter(g.events[e]) ==> AllBelow(plan, Waits(g.events[e]), k)
    requires k <= |plan.batches| || (k == 1 && !GroundedIn(g, done + {e}))
    ensures Good(g, base, Place(plan, At(k), e), done + {e})
  {
    PlaceKeepsDense(g, plan, done, k, e);
    EventsStillWait(g, plan, k, e);
    PlaceRecords(g, plan, done, k, e);
    EventKeepsNumbers(g, base, plan, k, e);
  }

  lemma EventKeepsNumbers(g: Module, base: nat, plan: Plan, k: nat, e: Name)
    requires Rankable(g) && Numbered(g, base, plan.batchOf) && e !in g.bindings
    ensures Numbered(g, base, Place(plan, At(k), e).batchOf)
  {
  }

  lemma BelowDeepest(g: Module, plan: Plan, done: set<Name>, e: Name, d: nat)
    requires Recorded(g, plan, done) && e in g.events && AllAtMost(plan, Waits(g.events[e]), d)
    requires d == 0 || Attained(plan, Waits(g.events[e]), d)
    ensures AllBelow(plan, Waits(g.events[e]), d + 1)
    ensures d + 1 <= |plan.batches| || (d == 0 && Waits(g.events[e]) == [])
  {
    forall p | p in Waits(g.events[e]) ensures p in plan.batchOf && plan.batchOf[p].At? && plan.batchOf[p].n < d + 1 {
      assert AtMost(plan, p, d);
    }
    if Waits(g.events[e]) != [] {
      var w := Waits(g.events[e])[0];
      assert w in Waits(g.events[e]) && w in plan.batchOf;
    }
  }

  /** A fresh entry disturbs no waiting relation, and has its own if it waits. */
  lemma EventsStillWait(g: Module, plan: Plan, k: nat, x: Name)
    requires EventsWait(g, plan.batchOf) && x !in plan.batchOf
    requires x in g.events && IsAfter(g.events[x]) ==> AllBelow(plan, Waits(g.events[x]), k)
    ensures EventsWait(g, Place(plan, At(k), x).batchOf)
  {
    var p' := Place(plan, At(k), x);
    forall e, p | e in p'.batchOf && e in g.events && IsAfter(g.events[e]) && p in Waits(g.events[e])
      ensures Before(p'.batchOf, p, e)
    {
      if e != x { assert Before(plan.batchOf, p, e); }
    }
  }

  lemma {:induction false} DeepestKnownIs(plan: Plan, names: seq<Name>, d: nat)
    ensures var r := DeepestKnown(plan, names, d);
            && d <= r
            && (forall n :: n in names && n in plan.batchOf ==> AtMost(plan, n, r))
            && (r == d || exists n :: n in names && n in plan.batchOf && plan.batchOf[n] == At(r))
  {
    if names == [] {
    } else {
      assert names == [names[0]] + names[1..];
      DeepestKnownIs(plan, names[1..], if names[0] in plan.batchOf then Deeper(d, plan.batchOf[names[0]]) else d);
    }
  }

  ghost predicate AtLeast(plan: Plan, n: Name, s: nat) {
    n in plan.batchOf && (plan.batchOf[n].At? ==> s <= plan.batchOf[n].n)
  }

  lemma {:induction false} ShallowestKnownIs(plan: Plan, names: seq<Name>, s: nat)
    ensures var r := ShallowestKnown(plan, names, s);
            && r <= s
            && (forall n :: n in names && n in plan.batchOf ==> AtLeast(plan, n, r))
            && (r == s || exists n :: n in names && n in plan.batchOf && plan.batchOf[n] == At(r))
  {
    if names == [] {
    } else {
      assert names == [names[0]] + names[1..];
      var b := if names[0] in plan.batchOf then plan.batchOf[names[0]] else NaN;
      ShallowestKnownIs(plan, names[1..], if b.At? && b.n < s then b.n else s);
    }
  }

  /** The deepest batch of those of `names` that have one, at least 0. */
  ghost predicate IsDeepest(plan: Plan, names: seq<Name>, d: nat) {
    && (forall n :: n in names && n in plan.batchOf ==> AtMost(plan, n, d))
    && (d == 0 || exists n :: n in names && n in plan.batchOf && plan.batchOf[n] == At(d))
  }

  /** The shallowest of them, at most the number of batches. */
  ghost predicate IsShallowest(plan: Plan, names: seq<Name>, s: nat) {
    && s <= |plan.batches|
    && (forall n :: n in names && n in plan.batchOf ==> AtLeast(plan, n, s))
    && (s == |plan.batches| || exists n :: n in names && n in plan.batchOf && plan.batchOf[n] == At(s))
  }

  lemma DeepestOfTwo(plan: Plan, names: seq<Name>, more: seq<Name>)
    ensures IsDeepest(plan, names + more, DeepestKnown(plan, more, DeepestKnown(plan, names, 0)))
  {
    var d1 := DeepestKnown(plan, names, 0);
    var d2 := DeepestKnown(plan, more, d1);
    DeepestKnownIs(plan, names, 0);
    DeepestKnownIs(plan, more, d1);
    if d2 != 0 {
      var n :| (n in names || n in more) && n in plan.batchOf && plan.batchOf[n] == At(d2);
      assert n in names + more;
    }
  }

  lemma ShallowestOfTwo(plan: Plan, names: seq<Name>, more: seq<Name>)
    ensures IsShallowest(plan, names + more,
                         ShallowestKnown(plan, more, ShallowestKnown(plan, names, |plan.batches|)))
  {
    var s1 := ShallowestKnown(plan, names, |plan.batches|);
    var s2 := ShallowestKnown(plan, more, s1);
    ShallowestKnownIs(plan, names, |plan.batches|);
    ShallowestKnownIs(plan, more, s1);
    if s2 != |plan.batches| {
      var n :| (n in names || n in more) && n in plan.batchOf && plan.batchOf[n] == At(s2);
      assert n in names + more;
    }
  }

  lemma CrossesIff(plan: Plan, event: Event, d: nat, s: nat)
    requires forall x :: x in plan.batchOf && plan.batchOf[x].At? ==> plan.batchOf[x].n < |plan.batches|
    requires IsDeepest(plan, event.usage + event.eventUsage, d)
    requires IsShallowest(plan, event.deps + event.eventDeps, s)
    ensures d > s <==> Crosses(plan, event)
  {
    if d > s {
      var u :| u in event.usage + event.eventUsage && u in plan.batchOf && plan.batchOf[u] == At(d);
      var p :| p in event.deps + event.eventDeps && p in plan.batchOf && plan.batchOf[p] == At(s);
      assert Before(plan.batchOf, p, u);
    }
    if Crosses(plan, event) {
      var u, p :|
        u in event.usage + event.eventUsage && p in event.deps + event.eventDeps && Before(plan.batchOf, p, u);
      assert AtMost(plan, u, d) && AtLeast(plan, p, s);
    }
  }

  /** A before-hook is refused exactly when what it uses and what it depends on cross. */
  lemma BeforeEventRefusedIff(plan: Plan, e: Name, event: Event)
    requires forall x :: x in plan.batchOf && plan.batchOf[x].At? ==> plan.batchOf[x].n < |plan.batches|
    ensures HandleBeforeEvent(plan, e, event).Err? <==> Crosses(plan, event)
    ensures var r := HandleBeforeEvent(plan, e, event); r.Err? ==> r.error == UsageAfterDependency(e)
  {
    DeepestOfTwo(plan, event.usage, event.eventUsage);
    ShallowestOfTwo(plan, event.deps, event.eventDeps);
    CrossesIff(plan, event, DeepestKnown(plan, event.eventUsage, DeepestKnown(plan, event.usage, 0)),
      ShallowestKnown(plan, event.eventDeps, ShallowestKnown(plan, event.deps, |plan.batches|)));
  }

  /** A before-hook that is not refused goes one past the deepest of what it uses, but not
      beyond the batch before the shallowest of what it depends on. */
  lemma BeforeEventBatch(plan: Plan, e: Name, event: Event, d: nat, s: nat)
    requires HandleBeforeEvent(plan, e, event).Ok?
    requires IsDeepest(plan, event.usage + event.eventUsage, d)
    requires IsShallowest(plan, event.deps + event.eventDeps, s)
    ensures HandleBeforeEvent(plan, e, event) == Ok(Place(plan, At(BeforeBatch(d, s)), e))
  {
    DeepestOfTwo(plan, event.usage, event.eventUsage);
    ShallowestOfTwo(plan, event.deps, event.eventDeps);
    DeepestIsUnique(plan, event.usage + event.eventUsage, d,
                    DeepestKnown(plan, event.eventUsage, DeepestKnown(plan, event.usage, 0)));
    ShallowestIsUnique(plan, event.deps + event.eventDeps, s,
                       ShallowestKnown(plan, event.eventDeps, ShallowestKnown(plan, event.deps, |plan.batches|)));
  }

  /** The smaller of `d + 1` and `s - 1`, the latter at least 0. */
  ghost function BeforeBatch(d: nat, s: nat): (b: nat)
    ensures b <= d + 1 && (b < s || b == 0) && (b == d + 1 || b + 1 == s || (b == 0 && s == 0))
  {
    var last := if s == 0 then 0 else s - 1;
    if d + 1 <= last then d + 1 else last
  }

  lemma DeepestIsUnique(plan: Plan, names: seq<Name>, d: nat, d': nat)
    requires IsDeepest(plan, names, d) && IsDeepest(plan, names, d')
    ensures d == d'
  {
  }

  lemma ShallowestIsUnique(plan: Plan, names: seq<Name>, s: nat, s': nat)
    requires IsShallowest(plan, names, s) && IsShallowest(plan, names, s')
    ensures s == s'
  {
  }

  lemma BeforeEventStep(g: Module, base: nat, plan: Plan, done: set<Name>, e: Name)
    requires Rankable(g) && Good(g, base, plan, done)
    requires e in g.events && e !in g.bindings && e !in done && !IsAfter(g.events[e])
    ensures var r := HandleBeforeEvent(plan, e, g.events[e]);
            && (r.Ok? ==> Good(g, base, r.value, done + {e}))
            && (r.Err? ==> r.error == UsageAfterDependency(e) && Crosses(plan, g.events[e]))
  {
    var event := g.events[e];
    var r := HandleBeforeEvent(plan, e, event);
    BeforeEventRefusedIff(plan, e, event);
    if r.Ok? {
      EventGood(g, base, plan, done, r.value.batchOf[e].n, e);
    }
  }

  /** A resolved module state, as the resolver leaves it; links to contracts and
      events are not called like module events, nor arguments like events. */
  ghost predicate Input(g: Module, order: seq<Name>) {
    && WellFormed(g) && Rankable(g) && Ordered(g, order)
    && (forall n :: n in order ==> n in g.bindings || n in g.events || n in ModuleEvents(g))
    && (forall c, n :: c in g.bindings && Contract(n) in g.bindings[c].args ==> n !in g.events && n !in ModuleEvents(g))
    && (forall e, n :: e in g.events && n in Waits(g.events[e]) ==> n !in ModuleEvents(g))
    && (forall e, n :: e in g.events && n in g.events[e].deps ==> n !in g.events)
  }

  /** The condition under which no element is lost. */
  ghost predicate LibraryArgsAreLibraries(g: Module) {
    forall c :: IsLibrary(g, c) ==> ArgsAreLibraries(g, c)
  }

  ghost predicate ArgsAreLibraries(g: Module, c: Name)
    requires c in g.bindings
  {
    forall n :: Contract(n) in g.bindings[c].args && n in g.bindings ==> IsLibrary(g, n)
  }

  ghost function Libraries(g: Module, names: seq<Name>): set<Name> {
    set x | x in names && IsLibrary(g, x)
  }

  ghost function Members(names: seq<Name>): set<Name> {
    set x | x in names
  }

  ghost predicate UsedEarlier(order: seq<Name>, u: Name, e: Name) {
    exists j :: 0 <= j < |order| && order[j] == e && u in order[..j]
  }

  /** Why a schedule is refused. */
  ghost predicate Explained(g: Module, order: seq<Name>, error: ScheduleError)
    requires Rankable(g)
  {
    match error
    case NoContractBindingData(c, n) =>
      c in g.bindings && c in order && Contract(n) in g.bindings[c].args && n !in g.bindings
    case EventUsageIsNotDeployed(e, u) =>
      && e in g.events && e in order && IsAfter(g.events[e]) && u in g.events[e].eventUsage
      && !(u in g.events && UsedEarlier(order, u, e))
    case EventDependencyNotDeployed(e, d) => false
    case UsageAfterDependency(e) =>
      e in g.events && !IsAfter(g.events[e]) &&
      exists i :: 0 <= i < |order| && order[i] == e &&
                  SoFar(g, order, i).Ok? && Crosses(SoFar(g, order, i).value, g.events[e])
  }

  /** The plan when the library pass comes to position `i`. */
  function LibrariesSoFar(g: Module, order: seq<Name>, i: nat): Result<Plan, ScheduleError>
    requires Rankable(g) && i <= |order|
  {
    if i == 0 then Ok(EMPTY)
    else
      var p :- LibrariesSoFar(g, order, i - 1);
      if IsLibrary(g, order[i - 1]) then HandleElement(g, order, p, 0, order[i - 1]) else Ok(p)
  }

  /** The plan when the second pass comes to position `i`. */
  function SoFar(g: Module, order: seq<Name>, i: nat): Result<Plan, ScheduleError>
    requires Rankable(g) && i <= |order|
  {
    var p :- HandleLibraries(g, order, EMPTY, order);
    HandleAll(g, order, p, Base(g, order), order[..i])
  }

  /** Something a before-hook uses is batched after something it depends on. */
  ghost predicate Crosses(plan: Plan, event: Event) {
    exists u, p ::
      u in event.usage + event.eventUsage && p in event.deps + event.eventDeps && Before(plan.batchOf, p, u)
  }

  /** A step either leads to a good plan for `done` or is refused with a reason. */
  ghost predicate Handled(g: Module, order: seq<Name>, base: nat, r: Result<Plan, ScheduleError>, done: set<Name>)
    requires Rankable(g)
  {
    match r
    case Ok(plan) => Good(g, base, plan, done)
    case Err(error) => Explained(g, order, error)
  }

  lemma {:induction false} ArgsRefused(g: Module, order: seq<Name>, plan: Plan, cur: BatchNo, c: Name, args: seq<Arg>)
    requires Rankable(g) && c in g.bindings
    requires forall a :: a in args ==> a in g.bindings[c].args
    requires forall n :: Contract(n) in args && n in g.bindings ==> n in order && n in plan.batchOf
    requires exists n :: Contract(n) in args && n !in g.bindings
    ensures exists n :: HandleArgs(g, order, plan, cur, c, args) == Err(NoContractBindingData(c, n)) &&
                        Contract(n) in args && n !in g.bindings
    decreases |args|
  {
    var m :| Contract(m) in args && m !in g.bindings;
    assert args == [args[0]] + args[1..];
    if !args[0].Contract? {
      ArgsRefused(g, order, plan, cur, c, args[1..]);
    } else if args[0].name in g.bindings {
      assert args[0] == Contract(args[0].name);
      ArgsRefused(g, order, plan, Later(cur, plan.batchOf[args[0].name]), c, args[1..]);
    }
  }

  /** A contract whose bound arguments are batched joins the schedule, or is refused
      for an argument that is not bound. */
  lemma ContractHandled(g: Module, order: seq<Name>, base: nat, plan: Plan, done: set<Name>, c: Name)
    requires Rankable(g) && Good(g, base, plan, done) && c in g.bindings && c !in g.events && c in order
    requires forall n :: Contract(n) in g.bindings[c].args && n in g.bindings ==> n in order && n in plan.batchOf
    requires Start(g, base, c) <= |plan.batches|
    ensures Handled(g, order, base, HandleContract(g, order, plan, At(Start(g, base, c)), c), done + {c})
  {
    var args := g.bindings[c].args;
    if c in plan.batchOf {
      assert done + {c} == done;
    } else if forall n :: Contract(n) in args ==> n in g.bindings {
      ContractStep(g, order, base, plan, done, c);
    } else {
      ArgsRefused(g, order, plan, At(Start(g, base, c)), c, args);
    }
  }

  lemma ArgsStandBefore(g: Module, order: seq<Name>, i: nat, n: Name)
    requires Ordered(g, order) && i < |order| && order[i] in g.bindings
    requires Contract(n) in g.bindings[order[i]].args && n in g.bindings
    ensures n in order[..i] && n in order
  {
    ArgNamesMembers(g.bindings[order[i]].args, n);
    assert n in Needs(g, order[i]);
    assert Ready(g, order[..i], order[i]);
  }

  lemma LibrariesStep(g: Module, order: seq<Name>, plan: Plan, i: nat)
    requires Rankable(g) && i < |order|
    ensures Libraries(g, order[..i + 1]) == Libraries(g, order[..i]) + if IsLibrary(g, order[i]) then {order[i]} else {}
    ensures HandleLibraries(g, order, plan, order[i..]) ==
            if !IsLibrary(g, order[i]) then HandleLibraries(g, order, plan, order[i + 1..])
            else var r := HandleElement(g, order, plan, 0, order[i]);
                 if r.Err? then r else HandleLibraries(g, order, r.value, order[i + 1..])
  {
    assert order[..i + 1] == order[..i] + [order[i]] && order[i..][1..] == order[i + 1..];
  }

  /** The first pass up to position `k`, as long as the libraries met so far take
      only libraries. */
  lemma {:induction false} LibrariesSoFarGoOn(g: Module, order: seq<Name>, i: nat)
    requires Rankable(g) && i <= |order|
    ensures HandleLibraries(g, order, EMPTY, order) ==
            var r := LibrariesSoFar(g, order, i); if r.Err? then r else HandleLibraries(g, order, r.value, order[i..])
  {
    if i == 0 {
      assert order[0..] == order;
    } else {
      LibrariesSoFarGoOn(g, order, i - 1);
      var r := LibrariesSoFar(g, order, i - 1);
      if r.Ok? { LibrariesStep(g, order, r.value, i - 1); }
    }
  }

  lemma {:induction false} LibrariesSoFarGood(g: Module, order: seq<Name>, i: nat)
    requires Input(g, order) && i <= |order|
    requires forall j :: 0 <= j < i && IsLibrary(g, order[j]) ==> ArgsAreLibraries(g, order[j])
    ensures Handled(g, order, Base(g, order), LibrariesSoFar(g, order, i), Libraries(g, order[..i]))
  {
    if i == 0 {
      LibrariesSoFarStart(g, order);
    } else {
      var k := i - 1;
      LibrariesSoFarGood(g, order, k);
      LibrariesSoFarNext(g, order, k);
    }
  }

  lemma LibrariesSoFarStart(g: Module, order: seq<Name>)
    requires Rankable(g)
    ensures Handled(g, order, Base(g, order), LibrariesSoFar(g, order, 0), Libraries(g, order[..0]))
  {
    assert Libraries(g, order[..0]) == {};
    assert Good(g, Base(g, order), EMPTY, {});
  }

  lemma LibrariesSoFarNext(g: Module, order: seq<Name>, i: nat)
    requires Input(g, order) && i < |order| && (IsLibrary(g, order[i]) ==> ArgsAreLibraries(g, order[i]))
    requires Handled(g, order, Base(g, order), LibrariesSoFar(g, order, i), Libraries(g, order[..i]))
    ensures Handled(g, order, Base(g, order), LibrariesSoFar(g, order, i + 1), Libraries(g, order[..i + 1]))
  {
    var r := LibrariesSoFar(g, order, i);
    if r.Ok? { NextLibrary(g, order, r.value, i); }
  }

  lemma NextLibrary(g: Module, order: seq<Name>, plan: Plan, i: nat)
    requires Input(g, order) && i < |order| && (IsLibrary(g, order[i]) ==> ArgsAreLibraries(g, order[i]))
    requires LibrariesSoFar(g, order, i) == Ok(plan) && Good(g, Base(g, order), plan, Libraries(g, order[..i]))
    ensures Handled(g, order, Base(g, order), LibrariesSoFar(g, order, i + 1), Libraries(g, order[..i + 1]))
  {
    LibrariesStep(g, order, plan, i);
    if IsLibrary(g, order[i]) {
      LibraryHandled(g, order, Base(g, order), plan, i);
    } else {
      assert Libraries(g, order[..i + 1]) == Libraries(g, order[..i]);
    }
  }

  lemma LibraryHandled(g: Module, order: seq<Name>, base: nat, plan: Plan, i: nat)
    requires Input(g, order) && i < |order| && IsLibrary(g, order[i]) && ArgsAreLibraries(g, order[i])
    requires Good(g, base, plan, Libraries(g, order[..i]))
    ensures Handled(g, order, base, HandleElement(g, order, plan, 0, order[i]), Libraries(g, order[..i]) + {order[i]})
  {
    var c := order[i];
    forall n | Contract(n) in g.bindings[c].args && n in g.bindings ensures n in order && n in plan.batchOf {
      ArgsStandBefore(g, order, i, n);
      assert n in Libraries(g, order[..i]);
    }
    ContractHandled(g, order, base, plan, Libraries(g, order[..i]), c);
  }

  ghost function Done(g: Module, order: seq<Name>, i: nat): set<Name>
    requires i <= |order|
  {
    Libraries(g, order) + Members(order[..i])
  }

  lemma DoneStep(g: Module, order: seq<Name>, i: nat)
    requires i < |order|
    ensures Done(g, order, i + 1) == Done(g, order, i) + {order[i]}
  {
    assert order[..i + 1] == order[..i] + [order[i]];
  }

  lemma ElementHandled(g: Module, order: seq<Name>, plan: Plan, i: nat)
    requires Input(g, order) && i < |order|
    requires Good(g, Base(g, order), plan, Done(g, order, i)) && SoFar(g, order, i) == Ok(plan)
    ensures Handled(g, order, Base(g, order), HandleElement(g, order, plan, Base(g, order), order[i]),
                    Done(g, order, i + 1))
    ensures HandleElement(g, order, plan, Base(g, order), order[i]).Ok? ==> UsagesEarlier(g, order, i)
  {
    DoneStep(g, order, i);
    if order[i] in g.bindings {
      ContractElementHandled(g, order, plan, i);
    } else {
      EventHandled(g, order, plan, i);
    }
  }

  /** Before the element at position `i`, its bound arguments are batched. */
  lemma ArgsBatchedAt(g: Module, order: seq<Name>, plan: Plan, i: nat)
    requires Ordered(g, order) && i < |order| && order[i] in g.bindings
    requires Recorded(g, plan, Done(g, order, i))
    ensures forall n :: Contract(n) in g.bindings[order[i]].args && n in g.bindings ==> n in order && n in plan.batchOf
  {
    forall n | Contract(n) in g.bindings[order[i]].args && n in g.bindings ensures n in order && n in plan.batchOf {
      ArgsStandBefore(g, order, i, n);
    }
  }

  lemma BaseFits(g: Module, order: seq<Name>, plan: Plan, i: nat)
    requires i <= |order| && Recorded(g, plan, Done(g, order, i))
    ensures Base(g, order) <= |plan.batches|
  {
    if Base(g, order) == 1 {
      var l :| l in order && IsLibrary(g, l);
      assert l in Done(g, order, i);
      assert l in plan.batchOf;
    }
  }

  lemma ContractElementHandled(g: Module, order: seq<Name>, plan: Plan, i: nat)
    requires Input(g, order) && i < |order| && order[i] in g.bindings
    requires Good(g, Base(g, order), plan, Done(g, order, i))
    ensures Handled(g, order, Base(g, order), HandleElement(g, order, plan, Base(g, order), order[i]),
                    Done(g, order, i) + {order[i]})
  {
    var x, base, done := order[i], Base(g, order), Done(g, order, i);
    ArgsBatchedAt(g, order, plan, i);
    BaseFits(g, order, plan, i);
    if x in plan.batchOf {
      AlreadyBatched(g, base, plan, done, x);
    } else {
      if IsLibrary(g, x) { LibraryBatched(g, order, plan, i, x); }
      ContractHandled(g, order, base, plan, done, x);
    }
  }

  lemma AlreadyBatched(g: Module, base: nat, plan: Plan, done: set<Name>, x: Name)
    requires Rankable(g) && Good(g, base, plan, done) && x in plan.batchOf
    ensures Good(g, base, plan, done + {x})
  {
    assert done + {x} == done;
  }

  lemma LibraryBatched(g: Module, order: seq<Name>, plan: Plan, i: nat, x: Name)
    requires i <= |order| && Recorded(g, plan, Done(g, order, i)) && x in order && IsLibrary(g, x)
    ensures x in plan.batchOf
  {
    assert x in Done(g, order, i);
  }

  /** The events used by the hook at position `i` stand before it. */
  ghost predicate UsagesEarlier(g: Module, order: seq<Name>, i: nat)
    requires i < |order|
  {
    order[i] in g.events && order[i] !in g.bindings && IsAfter(g.events[order[i]]) ==>
      forall u :: u in g.events[order[i]].eventUsage && u !in g.bindings ==> u in order[..i]
  }

  lemma NeedsBatchedAt(g: Module, order: seq<Name>, plan: Plan, i: nat)
    requires Input(g, order) && i < |order| && order[i] in g.events && IsAfter(g.events[order[i]])
    requires Recorded(g, plan, Done(g, order, i))
    ensures NeedsBatched(g, plan, order[i])
  {
    forall n | n in Needs(g, order[i]) ensures n in plan.batchOf {
      assert order[i] !in g.bindings && Ready(g, order[..i], order[i]);
      assert n in order[..i] && n in order;
      assert n in Waits(g.events[order[i]]);
      assert n in Done(g, order, i);
    }
  }

  lemma NeedStandsBefore(g: Module, order: seq<Name>, i: nat, n: Name)
    requires Input(g, order) && i < |order| && order[i] in g.events && IsAfter(g.events[order[i]])
    requires n in g.events[order[i]].deps + g.events[order[i]].usage + g.events[order[i]].eventDeps
    ensures n in order[..i] && (n in g.bindings || n in g.events)
  {
    assert order[i] !in g.bindings && Ready(g, order[..i], order[i]);
    assert n in Needs(g, order[i]);
    assert n in order[..i] && n in order && n in Waits(g.events[order[i]]);
  }

  lemma FreshAt(g: Module, order: seq<Name>, i: nat)
    requires Ordered(g, order) && i < |order| && order[i] !in g.bindings
    ensures order[i] !in Done(g, order, i)
  {
  }

  /** What is batched before position `i` and waited for is what stands before it. */
  lemma BatchedStandsBefore(g: Module, order: seq<Name>, plan: Plan, i: nat, e: Name, u: Name)
    requires Input(g, order) && i <= |order| && Recorded(g, plan, Done(g, order, i))
    requires e in g.events && u in g.events[e].eventUsage && u !in g.bindings
    ensures u in plan.batchOf <==> u in g.events && u in order[..i]
  {
    assert u in Waits(g.events[e]);
    assert u in Done(g, order, i) <==> u in order[..i];
  }

  lemma EventHandled(g: Module, order: seq<Name>, plan: Plan, i: nat)
    requires Input(g, order) && i < |order| && order[i] !in g.bindings
    requires Good(g, Base(g, order), plan, Done(g, order, i)) && SoFar(g, order, i) == Ok(plan)
    ensures Handled(g, order, Base(g, order), HandleElement(g, order, plan, Base(g, order), order[i]),
                    Done(g, order, i) + {order[i]})
    ensures HandleElement(g, order, plan, Base(g, order), order[i]).Ok? ==> UsagesEarlier(g, order, i)
  {
    var x, base, done := order[i], Base(g, order), Done(g, order, i);
    FreshAt(g, order, i);
    if x !in g.events {
      ModuleEventRecords(g, base, plan, done, x);
    } else if IsAfter(g.events[x]) {
      NeedsBatchedAt(g, order, plan, i);
      AfterEventStep(g, base, plan, done, x);
      AfterEventExplained(g, order, plan, i);
    } else {
      BeforeEventStep(g, base, plan, done, x);
      assert x in order;
    }
  }

  lemma AfterEventExplained(g: Module, order: seq<Name>, plan: Plan, i: nat)
    requires Input(g, order) && i < |order| && Recorded(g, plan, Done(g, order, i))
    requires order[i] in g.events && order[i] !in g.bindings && IsAfter(g.events[order[i]])
    requires var r := HandleAfterEvent(plan, order[i], g.events[order[i]]);
             r.Err? ==> RefusedForUsage(g, plan, order[i], r.error)
    ensures var r := HandleAfterEvent(plan, order[i], g.events[order[i]]);
            if r.Ok? then UsagesEarlier(g, order, i) else Explained(g, order, r.error)
  {
    var x := order[i];
    var r := HandleAfterEvent(plan, x, g.events[x]);
    if r.Ok? {
      AfterEventUsages(g, plan, x);
      forall u | u in g.events[x].eventUsage && u !in g.bindings ensures u in order[..i] {
        BatchedStandsBefore(g, order, plan, i, x, u);
      }
    } else {
      var u :| r.error == EventUsageIsNotDeployed(x, u) && u in g.events[x].eventUsage && u !in plan.batchOf;
      if u in g.events && UsedEarlier(order, u, x) {
        BatchedStandsBefore(g, order, plan, i, x, u);
        NotUsedEarlier(g, order, i, u);
      }
    }
  }

  lemma AfterEventUsages(g: Module, plan: Plan, e: Name)
    requires e in g.events && HandleAfterEvent(plan, e, g.events[e]).Ok?
    ensures forall u :: u in g.events[e].eventUsage ==> u in plan.batchOf
  {
    DeepestWaitBounds(plan, e, g.events[e]);
    var d := DeepestWait(plan, e, g.events[e]).value;
    forall u | u in g.events[e].eventUsage ensures u in plan.batchOf {
      assert u in Waits(g.events[e]);
      assert AtMost(plan, u, d);
    }
  }

  lemma NotUsedEarlier(g: Module, order: seq<Name>, i: nat, u: Name)
    requires Ordered(g, order) && i < |order| && u !in order[..i]
    ensures !UsedEarlier(order, u, order[i])
  {
  }

  lemma {:induction false} AllGood(g: Module, order: seq<Name>, plan: Plan, i: nat)
    requires Input(g, order) && i <= |order|
    requires Good(g, Base(g, order), plan, Done(g, order, i)) && SoFar(g, order, i) == Ok(plan)
    ensures Handled(g, order, Base(g, order), HandleAll(g, order, plan, Base(g, order), order[i..]),
                    Done(g, order, |order|))
    ensures HandleAll(g, order, plan, Base(g, order), order[i..]).Ok? ==>
              forall j :: i <= j < |order| ==> UsagesEarlier(g, order, j)
    decreases |order| - i
  {
    if i < |order| {
      HandleAllStep(g, order, plan, i);
      SoFarStep(g, order, i);
      ElementHandled(g, order, plan, i);
      var r := HandleElement(g, order, plan, Base(g, order), order[i]);
      if r.Ok? { AllGood(g, order, r.value, i + 1); }
    }
  }

  lemma {:induction false} HandleAllSnoc(g: Module, order: seq<Name>, plan: Plan, base: nat, names: seq<Name>, x: Name)
    requires Rankable(g)
    ensures HandleAll(g, order, plan, base, names + [x]) ==
            var r := HandleAll(g, order, plan, base, names);
            if r.Err? then r else HandleElement(g, order, r.value, base, x)
    decreases |names|
  {
    if names == [] {
      assert ([] + [x])[1..] == [];
    } else {
      assert (names + [x])[1..] == names[1..] + [x];
      var r := HandleElement(g, order, plan, base, names[0]);
      if r.Ok? { HandleAllSnoc(g, order, r.value, base, names[1..], x); }
    }
  }

  lemma SoFarStep(g: Module, order: seq<Name>, i: nat)
    requires Rankable(g) && i < |order|
    ensures SoFar(g, order, i + 1) ==
            var r := SoFar(g, order, i);
            if r.Err? then r else HandleElement(g, order, r.value, Base(g, order), order[i])
  {
    var p := HandleLibraries(g, order, EMPTY, order);
    assert order[..i + 1] == order[..i] + [order[i]];
    if p.Ok? { HandleAllSnoc(g, order, p.value, Base(g, order), order[..i], order[i]); }
  }

  lemma HandleAllStep(g: Module, order: seq<Name>, plan: Plan, i: nat)
    requires Rankable(g) && i < |order|
    ensures HandleAll(g, order, plan, Base(g, order), order[i..]) ==
            var r := HandleElement(g, order, plan, Base(g, order), order[i]);
            if r.Err? then r else HandleAll(g, order, r.value, Base(g, order), order[i + 1..])
  {
    assert order[i..][1..] == order[i + 1..];
  }

  /** The schedule of a resolved state: every refusal has its reason, and a schedule
      that is not refused is good for the whole state. */
  lemma ScheduleIsGood(g: Module, order: seq<Name>)
    requires Input(g, order) && LibraryArgsAreLibraries(g)
    ensures Handled(g, order, Base(g, order), Schedule(g, order), Members(order))
    ensures Schedule(g, order).Ok? ==> forall j :: 0 <= j < |order| ==> UsagesEarlier(g, order, j)
  {
    var r1 := LibrariesPass(g, order);
    if r1.Ok? {
      DoneAtEnds(g, order);
      AllGood(g, order, r1.value, 0);
      assert order[0..] == order;
    }
  }

  lemma LibrariesPass(g: Module, order: seq<Name>) returns (r: Result<Plan, ScheduleError>)
    requires Input(g, order) && LibraryArgsAreLibraries(g)
    ensures r == HandleLibraries(g, order, EMPTY, order)
    ensures Handled(g, order, Base(g, order), r, Libraries(g, order))
  {
    assert order[..|order|] == order;
    LibrariesSoFarGood(g, order, |order|);
    LibrariesSoFarGoOn(g, order, |order|);
    r := LibrariesSoFar(g, order, |order|);
  }

  lemma DoneAtEnds(g: Module, order: seq<Name>)
    ensures Done(g, order, 0) == Libraries(g, order) && Done(g, order, |order|) == Members(order)
  {
    assert order[..|order|] == order;
  }
}
