/** The one-pass schedule that turns a module state into parallel batches, as
    functions of the batches so far. */
module Scheduler {
  import opened Graph
  import opened Wrappers

  /** `undefined + 1` is not a number; an element batched under it is stored in no
      batch that is ever executed. */
  datatype BatchNo = At(n: nat) | NaN

  /** `batches` is the JavaScript array, an index never assigned being an empty
      batch; `lost` is what was pushed under the property NaN; `batchOf` is the
      element-to-batch map, which module events do not enter. */
  datatype Plan = Plan(batches: seq<seq<Name>>, lost: seq<Name>, batchOf: map<Name, BatchNo>)

  datatype ScheduleError =
    | NoContractBindingData(contract: Name, arg: Name)
    | EventUsageIsNotDeployed(event: Name, usage: Name)
    | EventDependencyNotDeployed(event: Name, dep: Name)
    | UsageAfterDependency(event: Name)

  function Padded(batches: seq<seq<Name>>, n: nat): (r: seq<seq<Name>>)
    ensures |r| == if n <= |batches| then |batches| else n
    ensures forall k :: 0 <= k < |r| ==> r[k] == if k < |batches| then batches[k] else []
  {
    if n <= |batches| then batches else batches + seq(n - |batches|, i => [])
  }

  function PlaceIn(batches: seq<seq<Name>>, k: nat, x: Name): seq<seq<Name>> {
    var p := Padded(batches, k + 1);
    p[k := p[k] + [x]]
  }

  /** Pushes `x` into batch `k` and records the number. */
  function Place(plan: Plan, k: BatchNo, x: Name): Plan {
    match k
    case At(n) => Plan(PlaceIn(plan.batches, n, x), plan.lost, plan.batchOf[x := k])
    case NaN => Plan(plan.batches, plan.lost + [x], plan.batchOf[x := k])
  }

  /** The larger of the current batch and the one after `b`; a comparison with NaN
      is false, so NaN on either side leaves the current batch. */
  function Later(cur: BatchNo, b: BatchNo): BatchNo {
    if cur.At? && b.At? && cur.n < b.n + 1 then At(b.n + 1) else cur
  }

  function Next(b: BatchNo): BatchNo {
    if b.At? then At(b.n + 1) else NaN
  }

  function HandleContract(g: Module, order: seq<Name>, plan: Plan, cur: BatchNo, c: Name): Result<Plan, ScheduleError>
    requires Rankable(g) && c in g.bindings
    decreases RankOf(g).C(c), 1, 0
  {
    if c in plan.batchOf then Ok(plan)
    else
      var r :- HandleArgs(g, order, plan, cur, c, g.bindings[c].args);
      Ok(Place(r.0, r.1, c))
  }

  /** The batch number after looking at the arguments `args` of `c`.  An argument
      that is not batched yet is batched first, after which the number is taken
      from `c` itself, which has none. */
  function HandleArgs(g: Module, order: seq<Name>, plan: Plan, cur: BatchNo, c: Name,
                      args: seq<Arg>): Result<(Plan, BatchNo), ScheduleError>
    requires Rankable(g) && c in g.bindings
    requires forall a :: a in args ==> a in g.bindings[c].args
    decreases RankOf(g).C(c), 0, |args|
  {
    if args == [] then Ok((plan, cur))
    else if !args[0].Contract? then HandleArgs(g, order, plan, cur, c, args[1..])
    else
      var n := args[0].name;
      if n !in order || n !in g.bindings then Err(NoContractBindingData(c, n))
      else if n in plan.batchOf then HandleArgs(g, order, plan, Later(cur, plan.batchOf[n]), c, args[1..])
      else
        ArgRanksBelow(g, c, n);
        var p1 :- HandleContract(g, order, plan, cur, n);
        var cur1 := if c in p1.batchOf then Next(p1.batchOf[c]) else NaN;
        HandleArgs(g, order, p1, cur1, c, args[1..])
  }

  lemma ArgRanksBelow(g: Module, c: Name, n: Name)
    requires Rankable(g) && c in g.bindings && n in g.bindings && Contract(n) in g.bindings[c].args
    ensures RankOf(g).C(n) < RankOf(g).C(c)
  {
    ArgNamesMembers(g.bindings[c].args, n);
    assert MustPrecede(g, n, c);
  }

  /** The deepest batch among `names` and `deepest`; every name must be batched. */
  function Deepest(plan: Plan, e: Name, names: seq<Name>, deepest: nat, used: bool): Result<nat, ScheduleError> {
    if names == [] then Ok(deepest)
    else if names[0] !in plan.batchOf then Err(Refusal(e, names[0], used))
    else Deepest(plan, e, names[1..], Deeper(deepest, plan.batchOf[names[0]]), used)
  }

  function Refusal(e: Name, n: Name, used: bool): ScheduleError {
    if used then EventUsageIsNotDeployed(e, n) else EventDependencyNotDeployed(e, n)
  }

  function Deeper(deepest: nat, b: BatchNo): nat {
    if b.At? && b.n > deepest then b.n else deepest
  }

  function DeepestWait(plan: Plan, e: Name, event: Event): Result<nat, ScheduleError> {
    var d1 :- Deepest(plan, e, event.usage, 0, true);
    var d2 :- Deepest(plan, e, event.deps, d1, false);
    var d3 :- Deepest(plan, e, event.eventDeps, d2, false);
    Deepest(plan, e, event.eventUsage, d3, true)
  }

  function HandleAfterEvent(plan: Plan, e: Name, event: Event): Result<Plan, ScheduleError> {
    var d :- DeepestWait(plan, e, event);
    Ok(Place(plan, At(d + 1), e))
  }

  /** As above, but unbatched names are passed over. */
  function DeepestKnown(plan: Plan, names: seq<Name>, deepest: nat): nat {
    if names == [] then deepest
    else
      var d := if names[0] in plan.batchOf then Deeper(deepest, plan.batchOf[names[0]]) else deepest;
      DeepestKnown(plan, names[1..], d)
  }

  function ShallowestKnown(plan: Plan, names: seq<Name>, shallowest: nat): (r: nat)
    ensures r <= shallowest
  {
    if names == [] then shallowest
    else
      var b := if names[0] in plan.batchOf then plan.batchOf[names[0]] else NaN;
      ShallowestKnown(plan, names[1..], if b.At? && b.n < shallowest then b.n else shallowest)
  }

  function HandleBeforeEvent(plan: Plan, e: Name, event: Event): Result<Plan, ScheduleError> {
    var deepest := DeepestKnown(plan, event.eventUsage, DeepestKnown(plan, event.usage, 0));
    var shallowest := ShallowestKnown(plan, event.eventDeps, ShallowestKnown(plan, event.deps, |plan.batches|));
    if deepest > shallowest then Err(UsageAfterDependency(e))
    else
      var s := if shallowest > 0 then shallowest - 1 else shallowest;
      Ok(Place(plan, At(if deepest + 1 < s then deepest + 1 else s), e))
  }

  function HandleModuleEvent(plan: Plan, e: Name): Plan {
    plan.(batches := PlaceIn(plan.batches, 0, e))
  }

  function HandleElement(g: Module, order: seq<Name>, plan: Plan, base: nat, x: Name): Result<Plan, ScheduleError>
    requires Rankable(g)
  {
    if x in g.bindings then HandleContract(g, order, plan, At(base), x)
    else if x !in g.events then Ok(HandleModuleEvent(plan, x))
    else if IsAfter(g.events[x]) then HandleAfterEvent(plan, x, g.events[x])
    else HandleBeforeEvent(plan, x, g.events[x])
  }

  predicate IsLibrary(g: Module, x: Name) {
    x in g.bindings && g.bindings[x].library
  }

  function HandleLibraries(g: Module, order: seq<Name>, plan: Plan, names: seq<Name>): Result<Plan, ScheduleError>
    requires Rankable(g)
    decreases |names|
  {
    if names == [] then Ok(plan)
    else if !IsLibrary(g, names[0]) then HandleLibraries(g, order, plan, names[1..])
    else
      var p1 :- HandleElement(g, order, plan, 0, names[0]);
      HandleLibraries(g, order, p1, names[1..])
  }

  function HandleAll(g: Module, order: seq<Name>, plan: Plan, base: nat, names: seq<Name>): Result<Plan, ScheduleError>
    requires Rankable(g)
    decreases |names|
  {
    if names == [] then Ok(plan)
    else
      var p1 :- HandleElement(g, order, plan, base, names[0]);
      HandleAll(g, order, p1, base, names[1..])
  }

  /** Where contracts that are not libraries start: after the libraries, if any. */
  function Base(g: Module, order: seq<Name>): nat {
    if exists x :: x in order && IsLibrary(g, x) then 1 else 0
  }

  const EMPTY := Plan([], [], map[])

  function Schedule(g: Module, order: seq<Name>): Result<Plan, ScheduleError>
    requires Rankable(g)
  {
    var p :- HandleLibraries(g, order, EMPTY, order);
    HandleAll(g, order, p, Base(g, order), order)
  }
}
