/** The batching pass as it runs, one field per JavaScript object it writes. */
module TxExecutor {
  import opened Graph
  import opened Scheduler
  import opened Wrappers

  lemma LibrariesStep(g: Module, order: seq<Name>, plan: Plan, i: nat)
    requires Rankable(g) && i < |order|
    ensures HandleLibraries(g, order, plan, order[i..]) ==
            if !IsLibrary(g, order[i]) then HandleLibraries(g, order, plan, order[i + 1..])
            else var r := HandleElement(g, order, plan, 0, order[i]);
                 if r.Err? then r else HandleLibraries(g, order, r.value, order[i + 1..])
    ensures forall x :: x in order[..i + 1] <==> x in order[..i] || x == order[i]
  {
    assert order[..i + 1] == order[..i] + [order[i]] && order[i..][1..] == order[i + 1..];
  }

  lemma ElementsStep(g: Module, order: seq<Name>, plan: Plan, base: nat, i: nat)
    requires Rankable(g) && i < |order|
    ensures HandleAll(g, order, plan, base, order[i..]) ==
            var r := HandleElement(g, order, plan, base, order[i]);
            if r.Err? then r else HandleAll(g, order, r.value, base, order[i + 1..])
  {
    assert order[i..][1..] == order[i + 1..];
  }

  class TxExecutor {
    const g: Module
    /** The keys of the module state, in order. */
    const order: seq<Name>
    var batches: seq<seq<Name>>
    var lost: seq<Name>
    var elementsBatches: map<Name, BatchNo>

    constructor (g: Module, order: seq<Name>)
      ensures this.g == g && this.order == order && Contents() == EMPTY
    {
      this.g, this.order := g, order;
      batches, lost, elementsBatches := [], [], map[];
    }

    ghost function Contents(): Plan
      reads this
    {
      Plan(batches, lost, elementsBatches)
    }

    /** The fields and the error after a step are those of `r`. */
    ghost predicate Agrees(r: Result<Plan, ScheduleError>, error: Option<ScheduleError>)
      reads this
    {
      if r.Ok? then error.None? && Contents() == r.value else error == Some(r.error)
    }

    method Push(k: BatchNo, x: Name)
      modifies this
      ensures Contents() == Place(old(Contents()), k, x)
    {
      if k.At? {
        batches := Padded(batches, k.n + 1);
        batches := batches[k.n := batches[k.n] + [x]];
      } else {
        lost := lost + [x];
      }
      elementsBatches := elementsBatches[x := k];
    }

    method HandleContractElement(currentBatch: BatchNo, c: Name) returns (error: Option<ScheduleError>)
      requires Rankable(g) && c in g.bindings
      modifies this
      ensures Agrees(HandleContract(g, order, old(Contents()), currentBatch, c), error)
      decreases RankOf(g).C(c)
    {
      if c in elementsBatches { return None; }
      var cur := currentBatch;
      var args := g.bindings[c].args;
      for i := 0 to |args|
        invariant HandleArgs(g, order, old(Contents()), currentBatch, c, args)
               == HandleArgs(g, order, Contents(), cur, c, args[i..])
      {
        assert args[i..][1..] == args[i + 1..] && args[i..][0] == args[i];
        if !args[i].Contract? { continue; }
        var n := args[i].name;
        if n !in order || n !in g.bindings { return Some(NoContractBindingData(c, n)); }
        if n in elementsBatches {
          cur := Later(cur, elementsBatches[n]);
          continue;
        }
        ArgRanksBelow(g, c, n);
        error := HandleContractElement(cur, n);
        if error.Some? { return; }
        cur := if c in elementsBatches then Next(elementsBatches[c]) else NaN;
      }
      Push(cur, c);
      error := None;
    }

    method FindDeepest(e: Name, names: seq<Name>, from: nat, used: bool) returns (deepest: nat,
                       error: Option<ScheduleError>)
      ensures var r := Deepest(Contents(), e, names, from, used);
              if r.Ok? then error.None? && deepest == r.value else error == Some(r.error)
    {
      deepest := from;
      for i := 0 to |names|
        invariant Deepest(Contents(), e, names, from, used) == Deepest(Contents(), e, names[i..], deepest, used)
      {
        assert names[i..][1..] == names[i + 1..];
        if names[i] !in elementsBatches { return deepest, Some(Refusal(e, names[i], used)); }
        if elementsBatches[names[i]].At? && elementsBatches[names[i]].n > deepest {
          deepest := elementsBatches[names[i]].n;
        }
      }
      error := None;
    }

    method HandleAfterDeployEvents(e: Name, event: Event) returns (error: Option<ScheduleError>)
      modifies this
      ensures Agrees(HandleAfterEvent(old(Contents()), e, event), error)
    {
      var deepest;
      deepest, error := FindDeepest(e, event.usage, 0, true);
      if error.Some? { return; }
      deepest, error := FindDeepest(e, event.deps, deepest, false);
      if error.Some? { return; }
      deepest, error := FindDeepest(e, event.eventDeps, deepest, false);
      if error.Some? { return; }
      deepest, error := FindDeepest(e, event.eventUsage, deepest, true);
      if error.Some? { return; }
      Push(At(deepest + 1), e);
    }

    method FindDeepestKnown(names: seq<Name>, from: nat) returns (deepest: nat)
      ensures deepest == DeepestKnown(Contents(), names, from)
    {
      deepest := from;
      for i := 0 to |names|
        invariant DeepestKnown(Contents(), names, from) == DeepestKnown(Contents(), names[i..], deepest)
      {
        assert names[i..][1..] == names[i + 1..];
        if names[i] !in elementsBatches { continue; }
        if elementsBatches[names[i]].At? && elementsBatches[names[i]].n > deepest {
          deepest := elementsBatches[names[i]].n;
        }
      }
    }

    method FindShallowestKnown(names: seq<Name>, from: nat) returns (shallowest: nat)
      ensures shallowest == ShallowestKnown(Contents(), names, from)
    {
      shallowest := from;
      for i := 0 to |names|
        invariant ShallowestKnown(Contents(), names, from) == ShallowestKnown(Contents(), names[i..], shallowest)
      {
        assert names[i..][1..] == names[i + 1..];
        if names[i] !in elementsBatches { continue; }
        if elementsBatches[names[i]].At? && elementsBatches[names[i]].n < shallowest {
          shallowest := elementsBatches[names[i]].n;
        }
      }
    }

    method HandleBeforeDeployEvents(e: Name, event: Event) returns (error: Option<ScheduleError>)
      modifies this
      ensures Agrees(HandleBeforeEvent(old(Contents()), e, event), error)
    {
      var deepest := FindDeepestKnown(event.usage, 0);
      var shallowest := FindShallowestKnown(event.deps, |batches|);
      shallowest := FindShallowestKnown(event.eventDeps, shallowest);
      deepest := FindDeepestKnown(event.eventUsage, deepest);
      if deepest > shallowest { return Some(UsageAfterDependency(e)); }
      if shallowest > 0 { shallowest := shallowest - 1; }
      deepest := deepest + 1;
      Push(At(if deepest < shallowest then deepest else shallowest), e);
      error := None;
    }

    method HandleElementOf(base: nat, x: Name) returns (error: Option<ScheduleError>)
      requires Rankable(g)
      modifies this
      ensures Agrees(HandleElement(g, order, old(Contents()), base, x), error)
    {
      if x in g.bindings {
        error := HandleContractElement(At(base), x);
      } else if x !in g.events {
        batches := PlaceIn(batches, 0, x);
        error := None;
      } else if IsAfter(g.events[x]) {
        error := HandleAfterDeployEvents(x, g.events[x]);
      } else {
        error := HandleBeforeDeployEvents(x, g.events[x]);
      }
    }

    /** The batching of `_executeParallel`: libraries first, then everything. */
    method ExecuteParallel() returns (error: Option<ScheduleError>)
      requires Rankable(g) && Contents() == EMPTY
      modifies this
      ensures Agrees(Scheduler.Schedule(g, order), error)
    {
      var hasLibraries := false;
      for i := 0 to |order|
        invariant HandleLibraries(g, order, EMPTY, order) == HandleLibraries(g, order, Contents(), order[i..])
        invariant hasLibraries <==> exists x :: x in order[..i] && IsLibrary(g, x)
      {
        LibrariesStep(g, order, Contents(), i);
        if IsLibrary(g, order[i]) {
          error := HandleElementOf(0, order[i]);
          if error.Some? { return; }
          hasLibraries := true;
        }
      }
      assert order[..|order|] == order;
      var base := if hasLibraries then 1 else 0;
      assert base == Base(g, order);
      ghost var libraries := Contents();
      for i := 0 to |order|
        invariant HandleAll(g, order, libraries, base, order) == HandleAll(g, order, Contents(), base, order[i..])
      {
        ElementsStep(g, order, Contents(), base, i);
        error := HandleElementOf(base, order[i]);
        if error.Some? { return; }
      }
      error := None;
    }
  }
}
