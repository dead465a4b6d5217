/** When a module without dangling references is refused, and that it is not else. */
module Completion {
  import opened Graph
  import opened Resolver

  /** Everything is compiled, every name refers to something in the module, and no
      event merely uses another event. */
  ghost predicate Closed(g: Module) {
    && (forall c :: c in g.bindings ==>
          && g.bindings[c].libraries.Some?
          && var h := g.bindings[c].hooks;
             && InEvents(g, h.beforeCompile) && InEvents(g, h.afterCompile) && InEvents(g, h.beforeDeploy)
             && InEvents(g, h.afterDeploy) && InEvents(g, h.onChange))
    && (forall e :: e in g.events ==> ClosedEvent(g, g.events[e]))
  }

  ghost predicate ClosedEvent(g: Module, e: Event) {
    && InBindings(g, e.deps) && InBindings(g, e.usage)
    && InEvents(g, e.eventDeps) && e.eventUsage == []
  }

  ghost predicate InBindings(g: Module, names: seq<Name>) {
    forall n :: n in names ==> n in g.bindings
  }

  ghost predicate InEvents(g: Module, names: seq<Name>) {
    forall n :: n in names ==> n in g.events
  }

  /** Every name refers to something in the module. */
  ghost predicate NothingDangles(g: Module) {
    && (forall c :: c in g.bindings ==>
          var h := g.bindings[c].hooks;
          && InEvents(g, h.beforeCompile) && InEvents(g, h.afterCompile) && InEvents(g, h.beforeDeploy)
          && InEvents(g, h.afterDeploy) && InEvents(g, h.onChange))
    && (forall e :: e in g.events ==> NamesFound(g, g.events[e]))
  }

  ghost predicate NamesFound(g: Module, e: Event) {
    && InBindings(g, e.deps) && InBindings(g, e.usage)
    && InEvents(g, e.eventDeps) && InEvents(g, e.eventUsage)
  }

  /** A step ends, or throws for a contract that is not compiled or for an event that some
      event uses. */
  ghost predicate Blamed(g: Module, r: Outcome) {
    match r
    case Done(_) => true
    case Failed(ContractNotCompiled(c), _) => c in g.bindings && g.bindings[c].libraries.None?
    case Failed(UsageEventNotFound, _) => exists e :: e in g.events && g.events[e].eventUsage != []
    case Failed(_, _) => false
  }

  lemma {:induction false} ContractBlamed(g: Module, st: seq<Name>, c: Name)
    requires Rankable(g) && NothingDangles(g) && c in g.bindings
    ensures Blamed(g, ResolveContract(g, st, c))
    decreases Missing(g, st), 0, 2 * RankOf(g).C(c) + 1, 0, 0
  {
    if c !in st {
      var b := g.bindings[c];
      LinksBlamed(g, st, c);
      var r3 := ResolveLinks(g, st, c);
      if r3.Failed? { return; }
      MissingShrinks(g, st, r3.state);
      LinksRankBelow(g, c);
      BeforeHooksBlamed(g, r3.state, BeforeHooks(b), RankOf(g).C(c));
      var r4 := AddBeforeHooks(g, r3.state, BeforeHooks(b), RankOf(g).C(c));
      if r4.Failed? { return; }
      PlacingShrinks(g, st, r4.state, c);
      EventsBlamed(g, Put(r4.state, c), AfterHooks(b));
    }
  }

  lemma {:induction false} LinksBlamed(g: Module, st: seq<Name>, c: Name)
    requires Rankable(g) && NothingDangles(g) && c in g.bindings
    ensures Blamed(g, ResolveLinks(g, st, c))
    decreases Missing(g, st), 0, 2 * RankOf(g).C(c), 4, 0
  {
    var b, bound := g.bindings[c], RankOf(g).C(c);
    LinksRankBelow(g, c);
    EachBlamed(g, st, Bound(g, ArgNames(b.args)), bound);
    var r1 := ResolveEach(g, st, Bound(g, ArgNames(b.args)), bound);
    if r1.Failed? || b.libraries.None? { return; }
    MissingShrinks(g, st, r1.state);
    TwoBlamed(g, r1.state, Bound(g, b.libraries.value), Bound(g, b.deployDeps), bound);
  }

  lemma {:induction false} TwoBlamed(g: Module, st: seq<Name>, first: seq<Name>, second: seq<Name>, bound: nat)
    requires Rankable(g) && NothingDangles(g) && InBindings(g, first) && InBindings(g, second)
    requires BelowBound(g, first, bound) && BelowBound(g, second, bound)
    ensures var r1 := ResolveEach(g, st, first, bound);
            Blamed(g, r1) && (r1.Done? ==> Blamed(g, ResolveEach(g, r1.state, second, bound)))
    decreases Missing(g, st), 0, 2 * bound, 3, 0
  {
    EachBlamed(g, st, first, bound);
    var r1 := ResolveEach(g, st, first, bound);
    if r1.Failed? { return; }
    MissingShrinks(g, st, r1.state);
    EachBlamed(g, r1.state, second, bound);
  }

  lemma {:induction false} EachBlamed(g: Module, st: seq<Name>, names: seq<Name>, bound: nat)
    requires Rankable(g) && NothingDangles(g) && BelowBound(g, names, bound) && InBindings(g, names)
    ensures Blamed(g, ResolveEach(g, st, names, bound))
    decreases Missing(g, st), 0, 2 * bound, 1, |names|
  {
    if names == [] {
    } else if names[0] in st {
      EachBlamed(g, st, names[1..], bound);
    } else {
      ContractBlamed(g, st, names[0]);
      var r1 := ResolveContract(g, st, names[0]);
      if r1.Failed? { return; }
      MissingShrinks(g, st, r1.state);
      EachBlamed(g, r1.state, names[1..], bound);
    }
  }

  lemma {:induction false} BehindBlamed(g: Module, st: seq<Name>, eventNames: seq<Name>, bound: nat)
    requires Rankable(g) && NothingDangles(g) && InEvents(g, eventNames)
    requires forall d :: d in eventNames && d in g.events ==> BelowBound(g, g.events[d].deps, bound)
    ensures Blamed(g, ResolveBehind(g, st, eventNames, bound))
    decreases Missing(g, st), 0, 2 * bound, 2, |eventNames|
  {
    if eventNames == [] {
    } else {
      var deps := g.events[eventNames[0]].deps;
      assert NamesFound(g, g.events[eventNames[0]]);
      EachBlamed(g, st, deps, bound);
      var r1 := ResolveEach(g, st, deps, bound);
      if r1.Failed? { return; }
      MissingShrinks(g, st, r1.state);
      BehindBlamed(g, r1.state, eventNames[1..], bound);
    }
  }

  lemma UsageBlamed(g: Module, st: seq<Name>, e: Name, readBindings: bool)
    requires NothingDangles(g) && e in g.events && UsageError(g, st, g.events[e].eventUsage, readBindings).Some?
    ensures Blamed(g, Failed(UsageError(g, st, g.events[e].eventUsage, readBindings).value, st))
  {
    assert NamesFound(g, g.events[e]);
    UsageErrorIff(g, st, g.events[e].eventUsage, readBindings);
    forall d | d in g.events[e].eventUsage ensures InBindings(g, g.events[d].deps) {
      assert NamesFound(g, g.events[d]);
    }
  }

  lemma {:induction false} BeforeHooksBlamed(g: Module, st: seq<Name>, names: seq<Name>, bound: nat)
    requires Rankable(g) && NothingDangles(g) && InEvents(g, names)
    requires forall e :: e in names ==> BehindBelow(g, e, bound)
    ensures Blamed(g, AddBeforeHooks(g, st, names, bound))
    decreases Missing(g, st), 0, 2 * bound, 3, |names|
  {
    if names == [] {
    } else {
      var e := names[0];
      if e in st {
        BeforeHooksBlamed(g, st, names[1..], bound);
      } else {
        assert BehindBelow(g, e, bound) && NamesFound(g, g.events[e]);
        BehindBlamed(g, st, g.events[e].eventDeps, bound);
        var r1 := ResolveBehind(g, st, g.events[e].eventDeps, bound);
        if r1.Failed? { return; }
        if UsageError(g, r1.state, g.events[e].eventUsage, false).Some? {
          UsageBlamed(g, r1.state, e, false);
          return;
        }
        MissingShrinks(g, st, Put(r1.state, e));
        BeforeHooksBlamed(g, Put(r1.state, e), names[1..], bound);
      }
    }
  }

  lemma {:induction false} EventsBlamed(g: Module, st: seq<Name>, names: seq<Name>)
    requires Rankable(g) && NothingDangles(g) && InEvents(g, names)
    ensures Blamed(g, AddEvents(g, st, names))
    decreases Missing(g, st), 2, 0, 0, |names|
  {
    if names == [] {
    } else {
      EventBlamed(g, st, names[0]);
      var r1 := AddEvent(g, st, names[0]);
      if r1.Failed? { return; }
      MissingShrinks(g, st, r1.state);
      EventsBlamed(g, r1.state, names[1..]);
    }
  }

  lemma {:induction false} EventBlamed(g: Module, st: seq<Name>, e: Name)
    requires Rankable(g) && NothingDangles(g) && e in g.events
    ensures Blamed(g, AddEvent(g, st, e))
    decreases Missing(g, st), 1, 2 * RankOf(g).E(e) + 1, 0, 0
  {
    var event := g.events[e];
    assert NamesFound(g, event);
    EventLinksRankBelow(g, e);
    EachBlamed(g, st, event.deps, RankOf(g).bound);
    var r1 := ResolveEach(g, st, event.deps, RankOf(g).bound);
    if r1.Failed? { return; }
    MissingShrinks(g, st, r1.state);
    EventDepsBlamed(g, r1.state, e, event.eventDeps, RankOf(g).E(e));
    var r2 := ResolveEventDeps(g, r1.state, e, event.eventDeps, RankOf(g).E(e));
    if r2.Failed? { return; }
    MissingShrinks(g, st, r2.state);
    EachBlamed(g, r2.state, event.usage, RankOf(g).bound);
    var r3 := ResolveEach(g, r2.state, event.usage, RankOf(g).bound);
    if r3.Failed? { return; }
    if UsageError(g, r3.state, event.eventUsage, true).Some? { UsageBlamed(g, r3.state, e, true); }
  }

  lemma {:induction false} EventDepsBlamed(g: Module, st: seq<Name>, e: Name, names: seq<Name>, bound: nat)
    requires Rankable(g) && NothingDangles(g) && EventsBelow(g, names, bound) && InEvents(g, names)
    ensures Blamed(g, ResolveEventDeps(g, st, e, names, bound))
    decreases Missing(g, st), 1, 2 * bound, 1, |names|
  {
    if names == [] {
    } else {
      SingleBlamed(g, st, names[0]);
      var r1 := ResolveSingle(g, st, names[0]);
      if r1.Failed? { return; }
      MissingShrinks(g, st, r1.state);
      EventDepsBlamed(g, r1.state, e, names[1..], bound);
    }
  }

  lemma {:induction false} SingleBlamed(g: Module, st: seq<Name>, e: Name)
    requires Rankable(g) && NothingDangles(g) && e in g.events
    ensures Blamed(g, ResolveSingle(g, st, e))
    ensures ResolveSingle(g, st, e).Done? ==> e in ResolveSingle(g, st, e).state
    decreases Missing(g, st), 1, 2 * RankOf(g).E(e) + 1, 0, 0
  {
    if e !in st {
      var event := g.events[e];
      assert NamesFound(g, event);
      EventLinksRankBelow(g, e);
      EachBlamed(g, st, event.deps, RankOf(g).bound);
      var r1 := ResolveEach(g, st, event.deps, RankOf(g).bound);
      if r1.Failed? { return; }
      MissingShrinks(g, st, r1.state);
      SinglesBlamed(g, r1.state, event.eventDeps, RankOf(g).E(e));
      var r2 := ResolveSingles(g, r1.state, event.eventDeps, RankOf(g).E(e));
      if r2.Failed? { return; }
      MissingShrinks(g, st, r2.state);
      EachBlamed(g, r2.state, event.usage, RankOf(g).bound);
      var r3 := ResolveEach(g, r2.state, event.usage, RankOf(g).bound);
      if r3.Failed? { return; }
      MissingShrinks(g, st, r3.state);
      SinglesBlamed(g, r3.state, event.eventUsage, RankOf(g).E(e));
    }
  }

  lemma {:induction false} SinglesBlamed(g: Module, st: seq<Name>, names: seq<Name>, bound: nat)
    requires Rankable(g) && NothingDangles(g) && EventsBelow(g, names, bound) && InEvents(g, names)
    ensures Blamed(g, ResolveSingles(g, st, names, bound))
    decreases Missing(g, st), 1, 2 * bound, 1, |names|
  {
    if names == [] {
    } else {
      SingleBlamed(g, st, names[0]);
      var r1 := ResolveSingle(g, st, names[0]);
      if r1.Failed? { return; }
      MissingShrinks(g, st, r1.state);
      SinglesBlamed(g, r1.state, names[1..], bound);
    }
  }

  /** An acyclic module without dangling names is refused only for a contract that is not
      compiled or for a used event.  If no event merely uses another it is resolved
      exactly when every contract is compiled. */
  lemma ModuleResolvesIff(g: Module)
    requires WellFormed(g) && Rankable(g) && NothingDangles(g)
    ensures Blamed(g, Resolve(g))
    ensures (forall e :: e in g.events ==> g.events[e].eventUsage == []) ==>
              (Resolve(g).Done? <==> forall c :: c in g.bindings ==> g.bindings[c].libraries.Some?)
  {
    EachBlamed(g, PutAll([], g.onStart), g.order, AllBelow(g));
    ResolvedState(g);
  }

  /** No acyclic closed module is refused. */
  lemma ClosedModuleResolves(g: Module)
    requires WellFormed(g) && Rankable(g) && Closed(g)
    ensures Resolve(g).Done?
  {
    forall e | e in g.events ensures NamesFound(g, g.events[e]) && g.events[e].eventUsage == [] {
      assert ClosedEvent(g, g.events[e]);
    }
    ModuleResolvesIff(g);
  }
}
