/** When the resolver never ends: contracts that must precede one another in a circle
    overflow every call depth. */
module Overflow {
  import opened Acyclicity
  import opened CallDepth
  import opened Completion
  import opened Graph
  import opened Resolver
  import opened Termination

  ghost predicate Meets(cs: set<Name>, names: seq<Name>) {
    exists n :: n in names && n in cs
  }

  /** Contracts that each need another of them, directly or behind one of the hooks. */
  ghost predicate Trap(g: Module, cs: set<Name>, hooks: set<Name>) {
    && cs <= g.bindings.Keys && hooks <= g.events.Keys
    && (forall c {:trigger NeedsTrap(g, cs, hooks, c)} :: c in cs ==> NeedsTrap(g, cs, hooks, c))
    && (forall e {:trigger TrapHook(g, cs, e)} :: e in hooks ==> TrapHook(g, cs, e))
  }

  ghost predicate NeedsTrap(g: Module, cs: set<Name>, hooks: set<Name>, c: Name)
    requires c in g.bindings
  {
    LinksTrap(g, cs, g.bindings[c]) || Meets(hooks, BeforeHooks(g.bindings[c]))
  }

  ghost predicate LinksTrap(g: Module, cs: set<Name>, b: Binding) {
    Meets(cs, Bound(g, ArgNames(b.args))) || Meets(cs, Bound(g, Links(b))) || Meets(cs, Bound(g, b.deployDeps))
  }

  /** A before-hook of a contract of the trap that leads back to one. */
  ghost predicate TrapHook(g: Module, cs: set<Name>, e: Name)
    requires e in g.events
  {
    Meets(cs, g.events[e].deps) && LeadsBack(g, cs, g.events[e].eventDeps)
  }

  ghost predicate LeadsBack(g: Module, cs: set<Name>, eventNames: seq<Name>) {
    exists d :: d in eventNames && d in g.events && Meets(cs, g.events[d].deps)
  }

  /** Nothing of the trap is placed. */
  ghost predicate Clear(cs: set<Name>, hooks: set<Name>, st: seq<Name>) {
    forall n :: n in st ==> n !in cs && n !in hooks
  }

  /** A run that overflows, or ends without error and outside the trap. */
  ghost predicate Kept(cs: set<Name>, hooks: set<Name>, r: Run) {
    match r
    case Overflow => true
    case Ended(outcome) => outcome.Done? && Clear(cs, hooks, outcome.state)
  }

  ghost predicate Setting(g: Module, cs: set<Name>, hooks: set<Name>) {
    && Closed(g) && g.bindings.Keys !! g.events.Keys
    && Trap(g, cs, hooks)
  }

  /** Wherever a call for a contract ends, nothing of the trap is placed by then, and a
      call for a contract of the trap overflows. */
  lemma {:induction false} ContractTrapped(g: Module, cs: set<Name>, hooks: set<Name>, st: seq<Name>, c: Name,
                                           depth: nat)
    requires Setting(g, cs, hooks) && Clear(cs, hooks, st) && c in g.bindings
    ensures Kept(cs, hooks, ContractWithin(g, st, c, depth))
    ensures c in cs ==> ContractWithin(g, st, c, depth).Overflow?
    decreases depth, 0, 0
  {
    if depth == 0 || c in st { return; }
    var d := depth - 1;
    LinksTrapped(g, cs, hooks, st, c, d);
    var r3 := LinksWithin(g, st, c, d);
    if r3.Ended? { HooksTrapped(g, cs, hooks, r3.outcome.state, c, d); }
  }

  lemma {:induction false} HooksTrapped(g: Module, cs: set<Name>, hooks: set<Name>, st: seq<Name>, c: Name, depth: nat)
    requires Setting(g, cs, hooks) && Clear(cs, hooks, st) && c in g.bindings
    requires !LinksTrap(g, cs, g.bindings[c])
    ensures Kept(cs, hooks, HooksWithin(g, st, c, depth))
    ensures c in cs ==> HooksWithin(g, st, c, depth).Overflow?
    decreases depth, 7, 0
  {
    var names := BeforeHooks(g.bindings[c]);
    BeforeHooksTrapped(g, cs, hooks, st, names, depth);
    var r4 := BeforeHooksWithin(g, st, names, depth);
    if r4.Ended? { PlacedOutside(g, cs, hooks, r4.outcome.state, c, depth); }
  }

  /** A contract that got past its links and before-hooks is not of the trap. */
  lemma {:induction false} PlacedOutside(g: Module, cs: set<Name>, hooks: set<Name>, st: seq<Name>, c: Name, depth: nat)
    requires Setting(g, cs, hooks) && Clear(cs, hooks, st) && c in g.bindings
    requires !LinksTrap(g, cs, g.bindings[c]) && !Meets(hooks, BeforeHooks(g.bindings[c]))
    ensures c !in cs && Kept(cs, hooks, EventsWithin(g, Put(st, c), AfterHooks(g.bindings[c]), depth))
    decreases depth, 6, 0
  {
    assert c in cs ==> NeedsTrap(g, cs, hooks, c);
    EventsTrapped(g, cs, hooks, Put(st, c), AfterHooks(g.bindings[c]), depth);
  }

  lemma {:induction false} LinksTrapped(g: Module, cs: set<Name>, hooks: set<Name>, st: seq<Name>, c: Name, depth: nat)
    requires Setting(g, cs, hooks) && Clear(cs, hooks, st) && c in g.bindings
    ensures Kept(cs, hooks, LinksWithin(g, st, c, depth))
    ensures LinksTrap(g, cs, g.bindings[c]) ==> LinksWithin(g, st, c, depth).Overflow?
    decreases depth, 2, 0
  {
    var b := g.bindings[c];
    var args, libraries, deps := Bound(g, ArgNames(b.args)), Bound(g, Links(b)), Bound(g, b.deployDeps);
    EachTrapped(g, cs, hooks, st, args, depth);
    var r1 := EachWithin(g, st, args, depth);
    if r1.Overflow? { return; }
    EachTrapped(g, cs, hooks, r1.outcome.state, libraries, depth);
    var r2 := EachWithin(g, r1.outcome.state, libraries, depth);
    if r2.Overflow? { return; }
    EachTrapped(g, cs, hooks, r2.outcome.state, deps, depth);
  }

  lemma {:induction false} EachTrapped(g: Module, cs: set<Name>, hooks: set<Name>, st: seq<Name>, names: seq<Name>,
                                       depth: nat)
    requires Setting(g, cs, hooks) && Clear(cs, hooks, st) && InBindings(g, names)
    ensures Kept(cs, hooks, EachWithin(g, st, names, depth))
    ensures Meets(cs, names) ==> EachWithin(g, st, names, depth).Overflow?
    decreases depth, 1, |names|
  {
    if names == [] { return; }
    if names[0] in st {
      EachTrapped(g, cs, hooks, st, names[1..], depth);
    } else {
      ContractTrapped(g, cs, hooks, st, names[0], depth);
      var r1 := ContractWithin(g, st, names[0], depth);
      if r1.Overflow? { return; }
      EachTrapped(g, cs, hooks, r1.outcome.state, names[1..], depth);
    }
    MeetsRest(cs, names);
  }

  lemma MeetsRest(cs: set<Name>, names: seq<Name>)
    requires names != []
    ensures Meets(cs, names) ==> names[0] in cs || Meets(cs, names[1..])
  {
    assert names == [names[0]] + names[1..];
  }

  lemma {:induction false} BehindTrapped(g: Module, cs: set<Name>, hooks: set<Name>, st: seq<Name>,
                                         eventNames: seq<Name>, depth: nat)
    requires Setting(g, cs, hooks) && Clear(cs, hooks, st) && InEvents(g, eventNames)
    ensures Kept(cs, hooks, BehindWithin(g, st, eventNames, depth))
    ensures LeadsBack(g, cs, eventNames) ==> BehindWithin(g, st, eventNames, depth).Overflow?
    decreases depth, 2, |eventNames|
  {
    if eventNames == [] { return; }
    var deps := g.events[eventNames[0]].deps;
    assert ClosedEvent(g, g.events[eventNames[0]]);
    EachTrapped(g, cs, hooks, st, deps, depth);
    var r1 := EachWithin(g, st, deps, depth);
    if r1.Overflow? { return; }
    BehindTrapped(g, cs, hooks, r1.outcome.state, eventNames[1..], depth);
    assert eventNames == [eventNames[0]] + eventNames[1..];
  }

  lemma {:induction false} BeforeHooksTrapped(g: Module, cs: set<Name>, hooks: set<Name>, st: seq<Name>,
                                              names: seq<Name>, depth: nat)
    requires Setting(g, cs, hooks) && Clear(cs, hooks, st) && InEvents(g, names)
    ensures Kept(cs, hooks, BeforeHooksWithin(g, st, names, depth))
    ensures Meets(hooks, names) ==> BeforeHooksWithin(g, st, names, depth).Overflow?
    decreases depth, 3, |names|
  {
    if names == [] { return; }
    assert names == [names[0]] + names[1..];
    if names[0] in st {
      BeforeHooksTrapped(g, cs, hooks, st, names[1..], depth);
    } else {
      var e := g.events[names[0]];
      assert ClosedEvent(g, e);
      BehindTrapped(g, cs, hooks, st, e.eventDeps, depth);
      assert names[0] in hooks ==> TrapHook(g, cs, names[0]);
      var r1 := BehindWithin(g, st, e.eventDeps, depth);
      if r1.Overflow? { return; }
      BeforeHooksTrapped(g, cs, hooks, Put(r1.outcome.state, names[0]), names[1..], depth);
    }
  }

  lemma {:induction false} EventsTrapped(g: Module, cs: set<Name>, hooks: set<Name>, st: seq<Name>, names: seq<Name>,
                                         depth: nat)
    requires Setting(g, cs, hooks) && Clear(cs, hooks, st) && InEvents(g, names)
    ensures Kept(cs, hooks, EventsWithin(g, st, names, depth))
    decreases depth, 5, |names|
  {
    if names == [] { return; }
    EventTrapped(g, cs, hooks, st, names[0], depth);
    var r1 := EventWithin(g, st, names[0], depth);
    if r1.Overflow? { return; }
    EventsTrapped(g, cs, hooks, r1.outcome.state, names[1..], depth);
  }

  lemma {:induction false} EventTrapped(g: Module, cs: set<Name>, hooks: set<Name>, st: seq<Name>, e: Name, depth: nat)
    requires Setting(g, cs, hooks) && Clear(cs, hooks, st) && e in g.events
    ensures Kept(cs, hooks, EventWithin(g, st, e, depth))
    decreases depth, 4, 0
  {
    var event := g.events[e];
    assert ClosedEvent(g, event);
    EachTrapped(g, cs, hooks, st, event.deps, depth);
    var r1 := EachWithin(g, st, event.deps, depth);
    if r1.Overflow? { return; }
    EventDepsTrapped(g, cs, hooks, r1.outcome.state, e, event.eventDeps, depth);
    var r2 := EventDepsWithin(g, r1.outcome.state, e, event.eventDeps, depth);
    if r2.Overflow? { return; }
    EachTrapped(g, cs, hooks, r2.outcome.state, event.usage, depth);
    var r3 := EachWithin(g, r2.outcome.state, event.usage, depth);
    if r3.Overflow? { return; }
    assert e in hooks ==> TrapHook(g, cs, e);
  }

  lemma {:induction false} EventDepsTrapped(g: Module, cs: set<Name>, hooks: set<Name>, st: seq<Name>, e: Name,
                                            names: seq<Name>, depth: nat)
    requires Setting(g, cs, hooks) && Clear(cs, hooks, st) && InEvents(g, names)
    ensures Kept(cs, hooks, EventDepsWithin(g, st, e, names, depth))
    decreases depth, 3, |names|
  {
    if names == [] { return; }
    SingleTrapped(g, cs, hooks, st, names[0], depth);
    var r1 := SingleWithin(g, st, names[0], depth);
    if r1.Overflow? { return; }
    EventDepsTrapped(g, cs, hooks, r1.outcome.state, e, names[1..], depth);
  }

  lemma {:induction false} SingleTrapped(g: Module, cs: set<Name>, hooks: set<Name>, st: seq<Name>, e: Name, depth: nat)
    requires Setting(g, cs, hooks) && Clear(cs, hooks, st) && e in g.events
    ensures var r := SingleWithin(g, st, e, depth); Kept(cs, hooks, r) && (r.Ended? ==> e in r.outcome.state)
    decreases depth, 0, 0
  {
    if depth == 0 || e in st { return; }
    var event, d := g.events[e], depth - 1;
    assert ClosedEvent(g, event);
    EachTrapped(g, cs, hooks, st, event.deps, d);
    var r1 := EachWithin(g, st, event.deps, d);
    if r1.Overflow? { return; }
    SinglesTrapped(g, cs, hooks, r1.outcome.state, event.eventDeps, d);
    var r2 := SinglesWithin(g, r1.outcome.state, event.eventDeps, d);
    if r2.Overflow? { return; }
    EachTrapped(g, cs, hooks, r2.outcome.state, event.usage, d);
    var r3 := EachWithin(g, r2.outcome.state, event.usage, d);
    if r3.Overflow? { return; }
    assert e in hooks ==> TrapHook(g, cs, e);
  }

  lemma {:induction false} SinglesTrapped(g: Module, cs: set<Name>, hooks: set<Name>, st: seq<Name>, names: seq<Name>,
                                          depth: nat)
    requires Setting(g, cs, hooks) && Clear(cs, hooks, st) && InEvents(g, names)
    ensures Kept(cs, hooks, SinglesWithin(g, st, names, depth))
    decreases depth, 1, |names|
  {
    if names == [] { return; }
    SingleTrapped(g, cs, hooks, st, names[0], depth);
    var r1 := SingleWithin(g, st, names[0], depth);
    if r1.Overflow? { return; }
    SinglesTrapped(g, cs, hooks, r1.outcome.state, names[1..], depth);
  }

  /** With a trap the whole resolution overflows every depth. */
  lemma TrapOverflows(g: Module, cs: set<Name>, hooks: set<Name>, depth: nat)
    requires WellFormed(g) && Setting(g, cs, hooks) && cs != {}
    ensures ResolveWithin(g, depth).Overflow?
  {
    var st := PutAll([], g.onStart);
    forall n | n in st ensures n !in cs && n !in hooks {
      assert n in ModuleEvents(g);
    }
    EachTrapped(g, cs, hooks, st, g.order, depth);
    var c :| c in cs;
    assert c in g.order;
  }

  /** Contracts list only events that depend on them, as every builder call sees to. */
  ghost predicate Hooked(g: Module) {
    forall c, e :: c in g.bindings && e in BeforeHooks(g.bindings[c]) && e in g.events ==> c in g.events[e].deps
  }

  /** Contracts that each must be preceded by one of them. */
  ghost predicate Circle(g: Module, cs: set<Name>) {
    && cs <= g.bindings.Keys
    && forall c {:trigger Preceded(g, cs, c)} :: c in cs ==> Preceded(g, cs, c)
  }

  ghost predicate Preceded(g: Module, cs: set<Name>, c: Name) {
    exists p :: p in cs && MustPrecede(g, p, c)
  }

  /** Such contracts, and the hooks between them, are a trap. */
  lemma CircleIsTrap(g: Module, cs: set<Name>)
    requires Hooked(g) && Circle(g, cs)
    ensures exists hooks :: Trap(g, cs, hooks)
  {
    var hooks := set e | e in g.events && TrapHook(g, cs, e);
    forall c | c in cs ensures NeedsTrap(g, cs, hooks, c) {
      assert Preceded(g, cs, c);
      var p :| p in cs && MustPrecede(g, p, c);
      NeedsBack(g, cs, hooks, p, c);
    }
    assert Trap(g, cs, hooks);
  }

  lemma NeedsBack(g: Module, cs: set<Name>, hooks: set<Name>, p: Name, c: Name)
    requires Hooked(g) && p in cs && c in cs && MustPrecede(g, p, c)
    requires forall e :: e in g.events && TrapHook(g, cs, e) ==> e in hooks
    ensures NeedsTrap(g, cs, hooks, c)
  {
    var b := g.bindings[c];
    if p in ArgNames(b.args) {
      assert p in Bound(g, ArgNames(b.args));
    } else if p in Links(b) {
      assert p in Bound(g, Links(b));
    } else if p in b.deployDeps {
      assert p in Bound(g, b.deployDeps);
    } else {
      var e, d :| BehindHook(g, b, e, d) && p in g.events[d].deps;
      assert c in g.events[e].deps;
      assert TrapHook(g, cs, e);
    }
  }

  /** The members of a cycle precede one another. */
  lemma CycleIsCircle(g: Module, p: seq<Name>) returns (cs: set<Name>)
    requires |p| >= 2 && IsPath(ContractEdges(g), p) && p[0] == p[|p| - 1]
    ensures Circle(g, cs) && cs != {}
  {
    cs := set n | n in p;
    assert p[0] in cs;
    forall c | c in cs ensures c in g.bindings && Preceded(g, cs, c) {
      var j :| 0 <= j < |p| && p[j] == c;
      var i := if j > 0 then j - 1 else |p| - 2;
      assert (p[i], p[i + 1]) in ContractEdges(g);
      assert p[i] in cs;
    }
  }

  ghost predicate EndsAt(g: Module, depth: nat) {
    var r := ResolveWithin(g, depth);
    r.Ended? && r.outcome.Done?
  }

  lemma CycleOverflows(g: Module, depth: nat)
    requires WellFormed(g) && Closed(g) && Hooked(g) && !Acyclic(ContractEdges(g))
    ensures ResolveWithin(g, depth).Overflow?
  {
    var p: seq<Name> :| |p| >= 2 && IsPath(ContractEdges(g), p) && p[0] == p[|p| - 1];
    var cs := CycleIsCircle(g, p);
    CircleOverflows(g, cs, depth);
  }

  lemma CircleOverflows(g: Module, cs: set<Name>, depth: nat)
    requires WellFormed(g) && Closed(g) && Hooked(g) && Circle(g, cs) && cs != {}
    ensures ResolveWithin(g, depth).Overflow?
  {
    CircleIsTrap(g, cs);
    var hooks :| Trap(g, cs, hooks);
    TrapOverflows(g, cs, hooks, depth);
  }

  /** When every name is bound, every contract compiled, no event merely used, and
      events depend on each other in no circle, resolution ends within some call depth
      if and only if contracts need not precede each other in a circle; otherwise it
      overflows them all. */
  lemma EndsIffAcyclic(g: Module)
    requires WellFormed(g) && Closed(g) && Hooked(g) && Acyclic(EventEdges(g))
    ensures (exists depth :: EndsAt(g, depth)) <==> Acyclic(ContractEdges(g))
    ensures !Acyclic(ContractEdges(g)) ==> forall depth :: ResolveWithin(g, depth).Overflow?
  {
    if Acyclic(ContractEdges(g)) {
      RankableIffAcyclic(g);
      RankableEnds(g);
      ClosedModuleResolves(g);
      var k :| Suffices(g, k);
      assert EndsAt(g, k);
    } else {
      forall depth: nat ensures ResolveWithin(g, depth).Overflow? { CycleOverflows(g, depth); }
    }
  }
}
