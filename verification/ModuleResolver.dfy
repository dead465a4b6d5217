/** The resolver as it runs: recursive methods and loops over one shared module
    state, each proved to compute the function of the same step. */
module ModuleResolver {
  import opened Graph
  import opened Resolver
  import opened Wrappers

  /** What one turn of a loop over `names` leaves to be resolved. */
  lemma BoundStep(g: Module, names: seq<Name>, i: nat)
    requires i < |names|
    ensures var now, next := Bound(g, names[i..]), Bound(g, names[i + 1..]);
            if names[i] in g.bindings then now != [] && now[0] == names[i] && now[1..] == next else now == next
  {
    var now, next := Bound(g, names[i..]), Bound(g, names[i + 1..]);
    assert names[i..][1..] == names[i + 1..];
    assert now == (if names[i] in g.bindings then [names[i]] else []) + next;
  }

  lemma ArgNamesStep(g: Module, args: seq<Arg>, i: nat)
    requires i < |args|
    ensures var now, next := Bound(g, ArgNames(args[i..])), Bound(g, ArgNames(args[i + 1..]));
            if args[i].Value? || args[i].name !in g.bindings then now == next
            else now != [] && now[0] == args[i].name && now[1..] == next
  {
    var names := ArgNames(args[i..]);
    assert args[i..][1..] == args[i + 1..];
    if args[i].Value? {
      assert names == ArgNames(args[i + 1..]);
    } else {
      assert names[1..] == ArgNames(args[i + 1..]);
      assert names[0..] == names;
      BoundStep(g, names, 0);
    }
  }

  lemma EachStep(g: Module, st: seq<Name>, names: seq<Name>, bound: nat)
    requires Rankable(g) && BelowBound(g, names, bound) && names != [] && names[0] in g.bindings
    ensures BelowBound(g, names[1..], bound)
    ensures ResolveEach(g, st, names, bound) ==
            var r := ResolveContract(g, st, names[0]);
            if r.Failed? then r else ResolveEach(g, r.state, names[1..], bound)
  {
  }

  lemma PutAllStep(st: seq<Name>, names: seq<Name>, i: nat)
    requires i < |names|
    ensures PutAll(st, names[i..]) == PutAll(Put(st, names[i]), names[i + 1..])
  {
    assert names[i..][1..] == names[i + 1..];
  }

  class ModuleResolver {
    const g: Module
    var moduleState: seq<Name>

    constructor (g: Module)
      ensures this.g == g && moduleState == []
    {
      this.g := g;
      moduleState := [];
    }

    /** The state and error of a step are those of `r`. */
    ghost predicate Agrees(r: Outcome, error: Option<Error>)
      reads this
    {
      moduleState == r.state && error == if r.Done? then None else Some(r.error)
    }

    method ResolveContractsAndEvents(c: Name) returns (error: Option<Error>)
      requires Rankable(g)
      modifies this
      ensures Agrees(ResolveContract(g, old(moduleState), c), error)
      decreases Missing(g, moduleState), 0, 2 * RankOf(g).C(c) + 1, 0, 0
    {
      if c in moduleState { return None; }
      if c !in g.bindings { return Some(TypeError); }
      var binding := g.bindings[c];
      ghost var entry := moduleState;
      LinksRankBelow(g, c);
      error := ResolveLinksOf(c);
      if error.Some? { return; }
      MissingShrinks(g, entry, moduleState);
      error := ResolveBeforeDeployEvents(BeforeHooks(binding), RankOf(g).C(c));
      if error.Some? { return; }
      PlacingShrinks(g, entry, moduleState, c);
      moduleState := Put(moduleState, c);
      error := ResolveAfterDeployEvents(AfterHooks(binding));
    }

    method ResolveLinksOf(c: Name) returns (error: Option<Error>)
      requires Rankable(g) && c in g.bindings
      modifies this
      ensures Agrees(ResolveLinks(g, old(moduleState), c), error)
      decreases Missing(g, moduleState), 0, 2 * RankOf(g).C(c), 4, 0
    {
      var binding := g.bindings[c];
      ghost var entry := moduleState;
      LinksRankBelow(g, c);
      error := ResolveArgs(binding.args, RankOf(g).C(c));
      if error.Some? { return; }
      if binding.libraries.None? { return Some(ContractNotCompiled(c)); }
      MissingShrinks(g, entry, moduleState);
      error := ResolveBound(binding.libraries.value, RankOf(g).C(c));
      if error.Some? { return; }
      MissingShrinks(g, entry, moduleState);
      error := ResolveBound(binding.deployDeps, RankOf(g).C(c));
    }

    method ResolveArgs(args: seq<Arg>, ghost bound: nat) returns (error: Option<Error>)
      requires Rankable(g) && BelowBound(g, Bound(g, ArgNames(args)), bound)
      modifies this
      ensures Agrees(ResolveEach(g, old(moduleState), Bound(g, ArgNames(args)), bound), error)
      decreases Missing(g, moduleState), 0, 2 * bound, 1, |args| + 1
    {
      ghost var entry, rest := moduleState, Bound(g, ArgNames(args));
      for i := 0 to |args|
        invariant entry <= moduleState
        invariant rest == Bound(g, ArgNames(args[i..])) && BelowBound(g, rest, bound)
        invariant ResolveEach(g, entry, Bound(g, ArgNames(args)), bound) == ResolveEach(g, moduleState, rest, bound)
      {
        ArgNamesStep(g, args, i);
        if args[i].Value? || args[i].name !in g.bindings { continue; }
        MissingShrinks(g, entry, moduleState);
        EachStep(g, moduleState, rest, bound);
        assert RankOf(g).C(args[i].name) < bound;
        rest := rest[1..];
        error := ResolveContractsAndEvents(args[i].name);
        if error.Some? { return; }
      }
      error := None;
    }

    method ResolveBound(names: seq<Name>, ghost bound: nat) returns (error: Option<Error>)
      requires Rankable(g) && BelowBound(g, Bound(g, names), bound)
      modifies this
      ensures Agrees(ResolveEach(g, old(moduleState), Bound(g, names), bound), error)
      decreases Missing(g, moduleState), 0, 2 * bound, 1, |names| + 1
    {
      ghost var entry, rest := moduleState, Bound(g, names);
      for i := 0 to |names|
        invariant entry <= moduleState
        invariant rest == Bound(g, names[i..]) && BelowBound(g, rest, bound)
        invariant ResolveEach(g, entry, Bound(g, names), bound) == ResolveEach(g, moduleState, rest, bound)
      {
        BoundStep(g, names, i);
        if names[i] !in g.bindings { continue; }
        MissingShrinks(g, entry, moduleState);
        EachStep(g, moduleState, rest, bound);
        assert RankOf(g).C(names[i]) < bound;
        rest := rest[1..];
        error := ResolveContractsAndEvents(names[i]);
        if error.Some? { return; }
      }
      error := None;
    }

    /** The contracts an event names: skipped when placed, an error when unbound. */
    method ResolveNames(names: seq<Name>, ghost bound: nat) returns (error: Option<Error>)
      requires Rankable(g) && BelowBound(g, names, bound)
      modifies this
      ensures Agrees(ResolveEach(g, old(moduleState), names, bound), error)
      decreases Missing(g, moduleState), 0, 2 * bound, 1, |names| + 1
    {
      ghost var entry := moduleState;
      for i := 0 to |names|
        invariant entry <= moduleState
        invariant BelowBound(g, names[i..], bound)
        invariant ResolveEach(g, entry, names, bound) == ResolveEach(g, moduleState, names[i..], bound)
      {
        assert names[i..][1..] == names[i + 1..];
        if names[i] in moduleState { continue; }
        if names[i] !in g.bindings { return Some(TypeError); }
        MissingShrinks(g, entry, moduleState);
        error := ResolveContractsAndEvents(names[i]);
        if error.Some? { return; }
      }
      error := None;
    }

    method ResolveBeforeDeployEvents(names: seq<Name>, ghost bound: nat) returns (error: Option<Error>)
      requires Rankable(g) && forall e :: e in names ==> BehindBelow(g, e, bound)
      modifies this
      ensures Agrees(AddBeforeHooks(g, old(moduleState), names, bound), error)
      decreases Missing(g, moduleState), 0, 2 * bound, 3, |names| + 1
    {
      ghost var entry := moduleState;
      for i := 0 to |names|
        invariant entry <= moduleState
        invariant AddBeforeHooks(g, entry, names, bound) == AddBeforeHooks(g, moduleState, names[i..], bound)
      {
        assert names[i..][1..] == names[i + 1..];
        if names[i] in moduleState { continue; }
        if names[i] !in g.events { return Some(TypeError); }
        assert BehindBelow(g, names[i], bound);
        MissingShrinks(g, entry, moduleState);
        error := ResolveBehindEvents(g.events[names[i]].eventDeps, bound);
        if error.Some? { return; }
        error := CheckUsage(g.events[names[i]].eventUsage, false);
        if error.Some? { return; }
        moduleState := Put(moduleState, names[i]);
      }
      error := None;
    }

    method ResolveBehindEvents(eventNames: seq<Name>, ghost bound: nat) returns (error: Option<Error>)
      requires Rankable(g)
      requires forall d :: d in eventNames && d in g.events ==> BelowBound(g, g.events[d].deps, bound)
      modifies this
      ensures Agrees(ResolveBehind(g, old(moduleState), eventNames, bound), error)
      decreases Missing(g, moduleState), 0, 2 * bound, 2, |eventNames| + 1
    {
      ghost var entry := moduleState;
      for i := 0 to |eventNames|
        invariant entry <= moduleState
        invariant ResolveBehind(g, entry, eventNames, bound)
               == ResolveBehind(g, moduleState, eventNames[i..], bound)
      {
        assert eventNames[i..][1..] == eventNames[i + 1..];
        if eventNames[i] !in g.events { return Some(TypeError); }
        MissingShrinks(g, entry, moduleState);
        error := ResolveNames(g.events[eventNames[i]].deps, bound);
        if error.Some? { return; }
      }
      error := None;
    }

    method CheckUsage(eventNames: seq<Name>, readBindings: bool) returns (error: Option<Error>)
      ensures error == UsageError(g, moduleState, eventNames, readBindings)
    {
      for i := 0 to |eventNames|
        invariant UsageError(g, moduleState, eventNames, readBindings)
               == UsageError(g, moduleState, eventNames[i..], readBindings)
      {
        assert eventNames[i..][1..] == eventNames[i + 1..];
        if eventNames[i] !in g.events { return Some(TypeError); }
        var deps := g.events[eventNames[i]].deps;
        for j := 0 to |deps|
          invariant DepsError(g, moduleState, deps, readBindings)
                 == DepsError(g, moduleState, deps[j..], readBindings)
        {
          assert deps[j..][1..] == deps[j + 1..];
          if readBindings && deps[j] !in g.bindings { return Some(TypeError); }
          if deps[j] !in moduleState { return Some(UsageEventNotFound); }
        }
      }
      error := None;
    }

    method ResolveAfterDeployEvents(names: seq<Name>) returns (error: Option<Error>)
      requires Rankable(g)
      modifies this
      ensures Agrees(AddEvents(g, old(moduleState), names), error)
      decreases Missing(g, moduleState), 2, 0, 0, |names| + 1
    {
      ghost var entry := moduleState;
      for i := 0 to |names|
        invariant entry <= moduleState
        invariant AddEvents(g, entry, names) == AddEvents(g, moduleState, names[i..])
      {
        assert names[i..][1..] == names[i + 1..];
        MissingShrinks(g, entry, moduleState);
        error := AddAfterEvent(names[i]);
        if error.Some? { return; }
      }
      error := None;
    }

    method AddAfterEvent(e: Name) returns (error: Option<Error>)
      requires Rankable(g)
      modifies this
      ensures Agrees(AddEvent(g, old(moduleState), e), error)
      decreases Missing(g, moduleState), 1, 2 * RankOf(g).E(e) + 1, 0, 0
    {
      if e !in g.events { return Some(TypeError); }
      var event := g.events[e];
      ghost var entry := moduleState;
      EventLinksRankBelow(g, e);
      error := ResolveNames(event.deps, RankOf(g).bound);
      if error.Some? { return; }
      MissingShrinks(g, entry, moduleState);
      error := ResolveEventDependencies(e, event.eventDeps, RankOf(g).E(e));
      if error.Some? { return; }
      MissingShrinks(g, entry, moduleState);
      error := ResolveNames(event.usage, RankOf(g).bound);
      if error.Some? { return; }
      error := CheckUsage(event.eventUsage, true);
      if error.Some? { return; }
      moduleState := Put(moduleState, e);
    }

    method ResolveEventDependencies(e: Name, names: seq<Name>, ghost bound: nat) returns (error: Option<Error>)
      requires Rankable(g) && EventsBelow(g, names, bound)
      modifies this
      ensures Agrees(ResolveEventDeps(g, old(moduleState), e, names, bound), error)
      decreases Missing(g, moduleState), 1, 2 * bound, 1, |names| + 1
    {
      ghost var entry := moduleState;
      for i := 0 to |names|
        invariant entry <= moduleState
        invariant EventsBelow(g, names[i..], bound)
        invariant ResolveEventDeps(g, entry, e, names, bound)
               == ResolveEventDeps(g, moduleState, e, names[i..], bound)
      {
        assert names[i..][1..] == names[i + 1..];
        if names[i] !in g.events { return Some(TypeError); }
        MissingShrinks(g, entry, moduleState);
        error := ResolveSingleEvent(names[i]);
        if error.Some? { return; }
        if names[i] !in moduleState { return Some(EventNotResolved(e, names[i])); }
      }
      error := None;
    }

    method ResolveSingleEvent(e: Name) returns (error: Option<Error>)
      requires Rankable(g) && e in g.events
      modifies this
      ensures Agrees(ResolveSingle(g, old(moduleState), e), error)
      decreases Missing(g, moduleState), 1, 2 * RankOf(g).E(e) + 1, 0, 0
    {
      if e in moduleState { return None; }
      var event := g.events[e];
      ghost var entry := moduleState;
      EventLinksRankBelow(g, e);
      error := ResolveNames(event.deps, RankOf(g).bound);
      if error.Some? { return; }
      MissingShrinks(g, entry, moduleState);
      error := ResolveSingleEvents(event.eventDeps, RankOf(g).E(e));
      if error.Some? { return; }
      MissingShrinks(g, entry, moduleState);
      error := ResolveNames(event.usage, RankOf(g).bound);
      if error.Some? { return; }
      MissingShrinks(g, entry, moduleState);
      error := ResolveSingleEvents(event.eventUsage, RankOf(g).E(e));
      if error.Some? { return; }
      moduleState := Put(moduleState, e);
    }

    method ResolveSingleEvents(names: seq<Name>, ghost bound: nat) returns (error: Option<Error>)
      requires Rankable(g) && EventsBelow(g, names, bound)
      modifies this
      ensures Agrees(ResolveSingles(g, old(moduleState), names, bound), error)
      decreases Missing(g, moduleState), 1, 2 * bound, 1, |names| + 1
    {
      ghost var entry := moduleState;
      for i := 0 to |names|
        invariant entry <= moduleState
        invariant EventsBelow(g, names[i..], bound)
        invariant ResolveSingles(g, entry, names, bound) == ResolveSingles(g, moduleState, names[i..], bound)
      {
        assert names[i..][1..] == names[i + 1..];
        if names[i] !in g.events { return Some(TypeError); }
        MissingShrinks(g, entry, moduleState);
        error := ResolveSingleEvent(names[i]);
        if error.Some? { return; }
      }
      error := None;
    }

    method HandleModuleEvents(names: seq<Name>)
      modifies this
      ensures moduleState == PutAll(old(moduleState), names)
    {
      for i := 0 to |names|
        invariant PutAll(old(moduleState), names) == PutAll(moduleState, names[i..])
      {
        PutAllStep(moduleState, names, i);
        moduleState := Put(moduleState, names[i]);
      }
    }

    /** The resolution phase of `resolve`. */
    method Run() returns (error: Option<Error>)
      requires WellFormed(g) && Rankable(g) && moduleState == []
      modifies this
      ensures Agrees(Resolve(g), error)
      ensures Ordered(g, moduleState)
      ensures error.None? ==> forall c :: c in g.bindings ==> c in moduleState
      ensures error.Some? ==> !error.value.EventNotResolved?
    {
      ResolvedState(g);
      HandleModuleEvents(g.onStart);
      error := ResolveNames(g.order, AllBelow(g));
      if error.Some? { return; }
      HandleModuleEvents(g.onSuccess);
      HandleModuleEvents(g.onCompletion);
    }
  }
}
