/** From the deployment script to the last confirmed contract. */
module Deployment {
  import opened Acyclicity
  import opened Graph
  import opened ModuleBuilder
  import opened ParallelRun
  import opened RunLog
  import opened ScheduledRun
  import opened Schedule
  import opened Lost
  import Resolver
  import Scheduler
  import ScheduleOrder

  /** Links to contracts name contracts and links to events name events. */
  ghost predicate LinksTyped(g: Module) {
    && (forall c, n :: c in g.bindings && Contract(n) in g.bindings[c].args ==> n !in g.events && n !in ModuleEvents(g))
    && (forall e, n :: e in g.events && n in Waits(g.events[e]) ==> n !in ModuleEvents(g))
    && (forall e, n :: e in g.events && n in g.events[e].deps ==> n !in g.events)
  }

  /** What the resolver returns is what the scheduler needs. */
  lemma ResolvedIsInput(g: Module)
    requires WellFormed(g) && Rankable(g) && LinksTyped(g) && Resolver.Resolve(g).Done?
    ensures Input(g, Resolver.Resolve(g).state)
  {
    Resolver.ResolvedState(g);
  }

  lemma BuiltArgsBound(order: seq<Name>, bindings: map<Name, Binding>, c: Name, n: Name)
    requires Listed(order, bindings.Keys) && ArgsReachBack(order, bindings)
    requires c in bindings && Contract(n) in bindings[c].args
    ensures n in bindings
  {
    assert c in order;
    var i :| 0 <= i < |order| && order[i] == c;
    ArgNamesMembers(bindings[c].args, n);
    assert Refers(bindings, bindings[order[i]].args, n);
    assert n in order[..i] && n in order;
  }

  lemma BuiltLinkedArgsBound(order: seq<Name>, bindings: map<Name, Binding>, links: map<Name, seq<Name>>)
    requires Listed(order, bindings.Keys) && ArgsReachBack(order, bindings) && Compiled(bindings, links)
    ensures var linked := Linked(bindings, links);
            forall c, n :: c in linked && Contract(n) in linked[c].args ==> n in bindings
  {
    var linked := Linked(bindings, links);
    forall c, n | c in linked && Contract(n) in linked[c].args ensures n in bindings {
      BuiltArgsBound(order, bindings, c, n);
    }
  }

  lemma BuiltEventLinks(order: seq<Name>, eventOrder: seq<Name>, events: map<Name, Event>, e: Name)
    requires Listed(eventOrder, events.Keys) && EventsReachBack(eventOrder, order, events) && e in events
    ensures forall n :: n in events[e].deps + events[e].usage ==> n in order
    ensures forall n :: n in events[e].eventDeps + events[e].eventUsage ==> n in events
  {
    assert e in eventOrder;
    var i :| 0 <= i < |eventOrder| && eventOrder[i] == e;
    assert ReachesBack(eventOrder[..i], order, events[e]);
    assert forall d :: d in eventOrder[..i] ==> d in eventOrder;
  }

  lemma BuiltWaitBound(order: seq<Name>, eventOrder: seq<Name>, events: map<Name, Event>, e: Name, n: Name)
    requires Listed(eventOrder, events.Keys) && EventsReachBack(eventOrder, order, events) && e in events
    requires n in Waits(events[e])
    ensures n in order || n in events
  {
    BuiltEventLinks(order, eventOrder, events, e);
    assert n in events[e].deps + events[e].usage || n in events[e].eventDeps + events[e].eventUsage;
  }

  lemma BuiltLinksTyped(order: seq<Name>, bindings: map<Name, Binding>, eventOrder: seq<Name>,
                        events: map<Name, Event>, links: map<Name, seq<Name>>, g: Module)
    requires Built(order, bindings, eventOrder, events) && Plain(order, bindings, events, links)
    requires g.order == order && g.bindings == Linked(bindings, links) && g.events == events
    requires forall n :: n in ModuleEvents(g) ==> n !in bindings && n !in events
    ensures LinksTyped(g)
    ensures forall c, n :: c in g.bindings && Contract(n) in g.bindings[c].args ==> n in g.bindings
  {
    BuiltLinkedArgsBound(order, bindings, links);
    BuiltEventsTyped(order, bindings, eventOrder, events, ModuleEvents(g));
  }

  lemma BuiltEventsTyped(order: seq<Name>, bindings: map<Name, Binding>, eventOrder: seq<Name>,
                         events: map<Name, Event>, moduleEvents: seq<Name>)
    requires Listed(order, bindings.Keys) && Listed(eventOrder, events.Keys)
    requires EventsReachBack(eventOrder, order, events)
    requires bindings.Keys !! events.Keys && forall n :: n in moduleEvents ==> n !in bindings && n !in events
    ensures forall e, n :: e in events && n in Waits(events[e]) ==> n !in moduleEvents
    ensures forall e, n :: e in events && n in events[e].deps ==> n !in events
  {
    forall e, n | e in events && n in Waits(events[e]) ensures n !in moduleEvents {
      BuiltWaitBound(order, eventOrder, events, e, n);
    }
    forall e, n | e in events && n in events[e].deps ensures n !in events {
      BuiltEventLinks(order, eventOrder, events, e);
      assert n in events[e].deps + events[e].usage;
    }
  }

  /** Scheduling what the resolver leaves skips no batch: hooks are placed with the
      contracts that list them, and the lowest contract fills the first batch. */
  lemma ResolvedHasNoHoles(g: Module, plan: Scheduler.Plan)
    requires WellFormed(g) && Rankable(g) && Resolver.Resolve(g).Done?
    requires ScheduleOrder.Scheduled(g, Resolver.Resolve(g).state, plan)
    ensures NoHoles(plan)
  {
    var state := Resolver.Resolve(g).state;
    Resolver.ResolvedState(g);
    ScheduleOrder.SchedulePartitions(g, state, plan);
    if g.order == [] {
      OnlyModuleEvents(g);
    } else {
      assert g.order[0] in g.order && g.order[0] in g.bindings;
    }
  }

  lemma OnlyModuleEvents(g: Module)
    requires WellFormed(g) && Rankable(g) && g.order == []
    ensures Resolver.Resolve(g).Done? && GroundedIn(g, Members(Resolver.Resolve(g).state))
  {
    assert forall n :: n in Resolver.Resolve(g).state ==> n in ModuleEvents(g);
  }

  /** A run on what the resolver leaves finishes exactly when no contract has a deploy
      function and every one still to be sent finds the objects it names and its libraries
      deployed by its batch; no batch is missing, no contract binding among the arguments
      lacks an address, no hook fails, and all that is done is safe. */
  lemma ResolvedRunFinishesIff(g: Module, plan: Scheduler.Plan, initial: map<Name, Address>, receipt: Name -> Address)
    requires WellFormed(g) && Rankable(g) && LinksTyped(g) && Resolver.Resolve(g).Done?
    requires ScheduleOrder.Scheduled(g, Resolver.Resolve(g).state, plan)
    ensures var run := ExecuteBatches(g, receipt, plan.batches, State(initial, []));
            && (run.Fine? <==> AllReady(g, Resolver.Resolve(g).state, plan, initial))
            && EndsAccounted(g, plan, initial, run) && NoBindingMissing(g, run)
            && (run.Thrown? ==> !run.error.NoBatch?)
            && SafeLog(g, initial, Final(run).log)
            && (run.Fine? ==> DidAll(g, Resolver.Resolve(g).state, initial, receipt, run.value))
  {
    ResolvedHasNoHoles(g, plan);
    RunFinishesIff(g, Resolver.Resolve(g).state, plan, initial, receipt);
  }

  /** A module whose hooks use no events, whose before-hooks use nothing, and whose
      libraries are leaves. */
  ghost predicate Simple(g: Module) {
    NothingUsed(g) && LibrariesAreLeaves(g)
  }

  lemma SimpleIsScheduled(g: Module, order: seq<Name>)
    requires Input(g, order) && Simple(g) && AllArgsThere(g, order)
    ensures Scheduler.Schedule(g, order).Ok?
    ensures ScheduleOrder.Scheduled(g, order, Scheduler.Schedule(g, order).value)
  {
    forall c | Scheduler.IsLibrary(g, c) ensures ArgsAreLibraries(g, c) {}
    UnusedIsScheduled(g, order);
  }

  /** Objects with only a name belong to contracts that have an address to start with or
      a shorter chain of arguments: what a script shows before any run. */
  ghost predicate NamesLower(g: Module, state: seq<Name>, initial: map<Name, Address>)
    requires Rankable(g)
  {
    forall c :: c in g.bindings && c !in initial ==> NamesBelow(g, Scheduler.Base(g, state), initial, c)
  }

  ghost predicate NamesBelow(g: Module, base: nat, initial: map<Name, Address>, c: Name)
    requires Rankable(g) && c in g.bindings
  {
    forall n :: Named(n) in g.bindings[c].args ==>
      n in g.bindings && (n in initial || Level(g, base, n) < Level(g, base, c))
  }

  lemma NamesReadyIffBelow(g: Module, state: seq<Name>, plan: Scheduler.Plan, initial: map<Name, Address>, c: Name)
    requires ScheduleOrder.Scheduled(g, state, plan) && forall n :: n in g.bindings ==> n in state
    requires NoDeployFn(g.bindings) && c in g.bindings
    ensures NamesReady(g, plan, initial, c) <==> NamesBelow(g, Scheduler.Base(g, state), initial, c)
  {
    var base := Scheduler.Base(g, state);
    forall n | Named(n) in g.bindings[c].args && n in g.bindings
      ensures ArgReady(g, plan, initial, n, c) <==> n in initial || Level(g, base, n) < Level(g, base, c)
    {
      ReadyIffLower(g, state, plan, initial, n, c);
    }
  }

  lemma NamesReadyIffLower(g: Module, state: seq<Name>, plan: Scheduler.Plan, initial: map<Name, Address>)
    requires ScheduleOrder.Scheduled(g, state, plan) && forall c :: c in g.bindings ==> c in state
    requires NoDeployFn(g.bindings)
    ensures AllNamesReady(g, state, plan, initial) <==> NamesLower(g, state, initial)
  {
    forall c | c in g.bindings
      ensures NamesReady(g, plan, initial, c) <==> NamesBelow(g, Scheduler.Base(g, state), initial, c)
    {
      NamesReadyIffBelow(g, state, plan, initial, c);
    }
  }

  lemma BuiltHooksAreEvents(bindings: map<Name, Binding>, events: map<Name, Event>, links: map<Name, seq<Name>>,
                            g: Module)
    requires HooksTyped(bindings, events) && Compiled(bindings, links) && bindings.Keys !! events.Keys
    requires g.bindings == Linked(bindings, links)
    ensures HooksAreEvents(g)
  {
    forall c, e | c in g.bindings &&
                  (var h := g.bindings[c].hooks;
                   e in h.beforeCompile || e in h.afterCompile || e in h.beforeDeploy || e in h.afterDeploy
                   || e in h.onChange)
      ensures e !in g.bindings
    {
      var h := bindings[c].hooks;
      var k := if e in h.beforeCompile then BeforeCompile else if e in h.afterCompile then AfterCompile
               else if e in h.beforeDeploy then BeforeDeploy else if e in h.afterDeploy then AfterDeploy else OnChange;
      assert e in HookList(bindings[c].hooks, k);
    }
  }

  /** The only error: an object with only a name, of no contract or of one without
      address. */
  ghost predicate NameMissing(g: Module, run: Outcome<State>) {
    match run
    case Fine(_) => true
    case Thrown(NoTransaction(c, n), _) => OnlyNamed(g, c, n) && n !in g.bindings
    case Thrown(NoContractAddress(c, n), _) => OnlyNamed(g, c, n) && n in g.bindings
    case Thrown(_, _) => false
    case Hung(_, _) => false
  }

  /** A run finishes exactly when no object with only a name comes too late, and is safe
      either way. */
  ghost predicate SimpleRun(g: Module, state: seq<Name>, initial: map<Name, Address>, receipt: Name -> Address,
                            plan: Scheduler.Plan)
    requires Rankable(g)
  {
    var run := ExecuteBatches(g, receipt, plan.batches, State(initial, []));
    && (run.Fine? <==> NamesLower(g, state, initial))
    && NameMissing(g, run)
    && SafeLog(g, initial, Final(run).log)
    && (run.Fine? ==> Deployed(g, initial, receipt, run.value))
  }

  /** Every contract that had no address has been sent and confirmed once and has that of
      its receipt; every hook a contract lists, of any of the five kinds, and every module
      event has run once. */
  ghost predicate Deployed(g: Module, initial: map<Name, Address>, receipt: Name -> Address, s: State) {
    && (forall c :: c in g.bindings ==>
          && c in s.addresses && s.addresses[c] == (if c in initial then initial[c] else receipt(c))
          && Times(s.log, Sent(c)) == (if c in initial then 0 else 1)
          && Times(s.log, Confirmed(c, receipt(c))) == (if c in initial then 0 else 1)
          && HooksRan(g.bindings[c].hooks, s.log))
    && (forall e :: e in g.onStart || e in g.onSuccess || e in g.onCompletion ==> Times(s.log, Ran(e)) == 1)
  }

  ghost predicate HooksRan(h: Hooks, log: seq<Step>) {
    && (forall e :: e in h.beforeCompile ==> Times(log, Ran(e)) == 1)
    && (forall e :: e in h.afterCompile ==> Times(log, Ran(e)) == 1)
    && (forall e :: e in h.beforeDeploy ==> Times(log, Ran(e)) == 1)
    && (forall e :: e in h.afterDeploy ==> Times(log, Ran(e)) == 1)
    && (forall e :: e in h.onChange ==> Times(log, Ran(e)) == 1)
  }

  /** A run that did all of what the resolver leaves has deployed the module. */
  lemma DidAllIsDeployed(g: Module, initial: map<Name, Address>, receipt: Name -> Address, s: State)
    requires WellFormed(g) && Rankable(g) && Resolver.Resolve(g).Done? && HooksAreEvents(g)
    requires DidAll(g, Resolver.Resolve(g).state, initial, receipt, s)
    ensures Deployed(g, initial, receipt, s)
  {
    Resolver.ResolvedState(g);
    AllPlacedDeployed(g, Resolver.Resolve(g).state, initial, receipt, s);
  }

  lemma AllPlacedDeployed(g: Module, state: seq<Name>, initial: map<Name, Address>, receipt: Name -> Address, s: State)
    requires HooksAreEvents(g) && DidAll(g, state, initial, receipt, s)
    requires forall c :: c in g.bindings ==> c in state && Resolver.AllHooksPlaced(g, state, c)
    requires forall e :: e in ModuleEvents(g) ==> e in state && e !in g.bindings
    ensures Deployed(g, initial, receipt, s)
  {
    forall c | c in g.bindings ensures HooksRan(g.bindings[c].hooks, s.log) { HooksPlacedRan(g, state, c, s.log); }
  }

  lemma HooksPlacedRan(g: Module, state: seq<Name>, c: Name, log: seq<Step>)
    requires c in g.bindings && Resolver.AllHooksPlaced(g, state, c) && HooksAreEvents(g)
    requires forall e :: Times(log, Ran(e)) == if e in state && e !in g.bindings then 1 else 0
    ensures HooksRan(g.bindings[c].hooks, log)
  {
    var h := g.bindings[c].hooks;
    assert forall e :: Resolver.StandsBefore(state, e, c) ==> e in state;
  }

  /** Hook lists hold no names of contracts. */
  ghost predicate HooksAreEvents(g: Module) {
    forall c, e :: c in g.bindings ==>
      var h := g.bindings[c].hooks;
      e in h.beforeCompile || e in h.afterCompile || e in h.beforeDeploy || e in h.afterDeploy || e in h.onChange ==>
        e !in g.bindings
  }

  lemma SimpleRunFinishesIff(g: Module, plan: Scheduler.Plan, initial: map<Name, Address>, receipt: Name -> Address)
    requires WellFormed(g) && Rankable(g) && Resolver.Resolve(g).Done? && Simple(g) && NoDeployFn(g.bindings)
    requires HooksAreEvents(g)
    requires ScheduleOrder.Scheduled(g, Resolver.Resolve(g).state, plan)
    ensures SimpleRun(g, Resolver.Resolve(g).state, initial, receipt, plan)
  {
    var state := Resolver.Resolve(g).state;
    Resolver.ResolvedState(g);
    ResolvedHasNoHoles(g, plan);
    PlainRunFinishes(g, state, plan, initial, receipt);
    RunFinishesIff(g, state, plan, initial, receipt);
    NamesReadyIffLower(g, state, plan, initial);
    var run := ExecuteBatches(g, receipt, plan.batches, State(initial, []));
    OnlyNamesMissing(g, plan, initial, run);
    if run.Fine? { DidAllIsDeployed(g, initial, receipt, run.value); }
  }

  lemma OnlyNamesMissing(g: Module, plan: Scheduler.Plan, initial: map<Name, Address>, run: Outcome<State>)
    requires NoDeployFn(g.bindings) && NoHoles(plan)
    requires EndsAccounted(g, plan, initial, run) && NoBindingMissing(g, run)
    requires run.Thrown? ==> !run.error.LibraryNotDeployed?
    ensures NameMissing(g, run)
  {
  }

  /** Any such script, built in any order of calls, resolves and is scheduled.  Its run
      finishes exactly when the objects with only a name among the arguments belong to
      contracts of lower level or known addresses; otherwise it throws for one that does
      not.  It is safe at every step, and if it finishes every contract has an address. */
  lemma BuiltRunFinishesIff(order: seq<Name>, bindings: map<Name, Binding>, eventOrder: seq<Name>,
                            events: map<Name, Event>, links: map<Name, seq<Name>>, g: Module,
                            initial: map<Name, Address>, receipt: Name -> Address)
    requires Built(order, bindings, eventOrder, events) && Plain(order, bindings, events, links)
    requires g.order == order && g.bindings == Linked(bindings, links) && g.events == events
    requires forall n :: n in ModuleEvents(g) ==> n !in bindings && n !in events
    requires Simple(g)
    ensures Rankable(g) && Resolver.Resolve(g).Done?
    ensures var state := Resolver.Resolve(g).state;
            && Scheduler.Schedule(g, state).Ok?
            && SimpleRun(g, state, initial, receipt, Scheduler.Schedule(g, state).value)
  {
    BuiltModuleResolves(order, bindings, eventOrder, events, links, g);
    BuiltLinksTyped(order, bindings, eventOrder, events, links, g);
    ResolvedIsInput(g);
    Resolver.ResolvedState(g);
    var state := Resolver.Resolve(g).state;
    SimpleIsScheduled(g, state);
    BuiltHooksAreEvents(bindings, events, links, g);
    SimpleRunFinishesIff(g, Scheduler.Schedule(g, state).value, initial, receipt);
  }

  /** Without such objects it deploys. */
  lemma BuiltModuleDeploys(order: seq<Name>, bindings: map<Name, Binding>, eventOrder: seq<Name>,
                           events: map<Name, Event>, links: map<Name, seq<Name>>, g: Module,
                           initial: map<Name, Address>, receipt: Name -> Address)
    requires Built(order, bindings, eventOrder, events) && Plain(order, bindings, events, links)
    requires g.order == order && g.bindings == Linked(bindings, links) && g.events == events
    requires forall n :: n in ModuleEvents(g) ==> n !in bindings && n !in events
    requires Simple(g) && forall c, n :: c in bindings ==> Named(n) !in bindings[c].args
    ensures Rankable(g) && Resolver.Resolve(g).Done?
    ensures var state := Resolver.Resolve(g).state;
            && Scheduler.Schedule(g, state).Ok?
            && var run := ExecuteBatches(g, receipt, Scheduler.Schedule(g, state).value.batches, State(initial, []));
               && run.Fine?
               && SafeLog(g, initial, run.value.log)
               && Deployed(g, initial, receipt, run.value)
  {
    BuiltRunFinishesIff(order, bindings, eventOrder, events, links, g, initial, receipt);
  }

  /** A script that binds a contract `a` and then a contract `x` taking an object with the
      name of `a` is accepted, resolved and scheduled, and its run throws for `x`: only
      bindings among the arguments delay a contract, but every name is looked up. */
  lemma NamedArgumentThrows(a: Name, x: Name, receipt: Name -> Address)
    requires a != x
    ensures exists order, bindings, links :: ThrowsForName(order, bindings, links, a, x, receipt)
  {
    var order := [a, x];
    var bindings := map[a := NewBinding(a, [], false), x := NewBinding(x, [Named(a)], false)];
    var links: map<Name, seq<Name>> := map[a := [], x := []];
    NamedScriptThrows(order, bindings, links, a, x, receipt);
  }

  lemma NamedScriptThrows(order: seq<Name>, bindings: map<Name, Binding>, links: map<Name, seq<Name>>,
                          a: Name, x: Name, receipt: Name -> Address)
    requires a != x && order == [a, x] && links == map[a := [], x := []]
    requires bindings == map[a := NewBinding(a, [], false), x := NewBinding(x, [Named(a)], false)]
    ensures ThrowsForName(order, bindings, links, a, x, receipt)
  {
    TwoBindingsBuilt(order, bindings, links, a, x, Named(a), false);
    var g := Module(order, Linked(bindings, links), map[], [], [], []);
    NamedIsSimple(g, bindings, links, a, x);
    BuiltNamedThrows(order, bindings, links, g, receipt, a, x);
  }

  lemma NamedIsSimple(g: Module, bindings: map<Name, Binding>, links: map<Name, seq<Name>>, a: Name, x: Name)
    requires a != x && links == map[a := [], x := []]
    requires bindings == map[a := NewBinding(a, [], false), x := NewBinding(x, [Named(a)], false)]
    requires g.bindings == Linked(bindings, links) && g.events == map[]
    ensures Simple(g) && NamesOther(g, a, x)
  {
    assert g.bindings.Keys == {a, x};
    assert forall c :: c in g.bindings ==> Links(g.bindings[c]) == [];
  }

  lemma BuiltNamedThrows(order: seq<Name>, bindings: map<Name, Binding>, links: map<Name, seq<Name>>, g: Module,
                         receipt: Name -> Address, a: Name, x: Name)
    requires Built(order, bindings, [], map[]) && Plain(order, bindings, map[], links)
    requires g == Module(order, Linked(bindings, links), map[], [], [], [])
    requires Simple(g) && NamesOther(g, a, x)
    ensures RunThrows(g, receipt, NoContractAddress(x, a))
  {
    BuiltRunFinishesIff(order, bindings, [], map[], links, g, map[], receipt);
    NamedIsNotLower(g, Resolver.Resolve(g).state, a, x);
    var plan := Scheduler.Schedule(g, Resolver.Resolve(g).state).value;
    NamedMissing(g, ExecuteBatches(g, receipt, plan.batches, State(map[], [])), a, x);
  }

  /** Two contracts, of which `x` takes just an object with the name of `a`. */
  ghost predicate NamesOther(g: Module, a: Name, x: Name) {
    && a != x && g.bindings.Keys == {a, x} && !g.bindings[a].library && !g.bindings[x].library
    && g.bindings[a].args == [] && g.bindings[x].args == [Named(a)]
  }

  lemma NamedMissing(g: Module, run: Outcome<State>, a: Name, x: Name)
    requires NamesOther(g, a, x) && NameMissing(g, run) && !run.Fine?
    ensures run.Thrown? && run.error == NoContractAddress(x, a)
  {
  }

  ghost predicate ThrowsForName(order: seq<Name>, bindings: map<Name, Binding>, links: map<Name, seq<Name>>,
                                a: Name, x: Name, receipt: Name -> Address)
  {
    && Built(order, bindings, [], map[]) && Plain(order, bindings, map[], links)
    && order == [a, x] && bindings[x] == NewBinding(x, [Named(a)], false)
    && RunThrows(Module(order, Linked(bindings, links), map[], [], [], []), receipt, NoContractAddress(x, a))
  }

  /** Resolved and scheduled without error, yet the run throws. */
  ghost predicate RunThrows(g: Module, receipt: Name -> Address, error: Failure) {
    && Simple(g) && Rankable(g) && Resolver.Resolve(g).Done?
    && var r := Scheduler.Schedule(g, Resolver.Resolve(g).state);
       r.Ok? && var run := ExecuteBatches(g, receipt, r.value.batches, State(map[], []));
                run.Thrown? && run.error == error
  }

  lemma NamedIsNotLower(g: Module, state: seq<Name>, a: Name, x: Name)
    requires Rankable(g) && NamesOther(g, a, x)
    ensures !NamesLower(g, state, map[])
  {
    var base := Scheduler.Base(g, state);
    assert [Named(a)][1..] == [];
    assert LevelArgs(g, base, x, Start(g, base, x), []) == Start(g, base, x);
    assert Level(g, base, a) == Level(g, base, x);
    assert Named(a) in g.bindings[x].args;
    assert !NamesBelow(g, base, map[], x);
  }

  /** A script that binds a contract `a` and then a library `l` taking it is accepted,
      resolved and scheduled, and the library is never deployed. */
  lemma LibraryOfContractIsLost(a: Name, l: Name, receipt: Name -> Address)
    requires a != l
    ensures exists order, bindings, links :: LosesLibraryOf(order, bindings, links, a, l, receipt)
  {
    var order := [a, l];
    var bindings := map[a := NewBinding(a, [], false), l := NewBinding(l, [Contract(a)], true)];
    var links: map<Name, seq<Name>> := map[a := [], l := []];
    LibraryScriptLoses(order, bindings, links, a, l, receipt);
  }

  lemma LibraryScriptLoses(order: seq<Name>, bindings: map<Name, Binding>, links: map<Name, seq<Name>>,
                           a: Name, l: Name, receipt: Name -> Address)
    requires a != l && order == [a, l] && links == map[a := [], l := []]
    requires bindings == map[a := NewBinding(a, [], false), l := NewBinding(l, [Contract(a)], true)]
    ensures LosesLibraryOf(order, bindings, links, a, l, receipt)
  {
    TwoBindingsBuilt(order, bindings, links, a, l, Contract(a), true);
    var g := Module(order, Linked(bindings, links), map[], [], [], []);
    BuiltLibraryNotDeployed(order, bindings, links, g, receipt, a, l);
  }

  ghost predicate LosesLibraryOf(order: seq<Name>, bindings: map<Name, Binding>, links: map<Name, seq<Name>>,
                                 a: Name, l: Name, receipt: Name -> Address)
  {
    && Built(order, bindings, [], map[]) && Compiled(bindings, links)
    && order == [a, l] && bindings[l] == NewBinding(l, [Contract(a)], true)
    && NotDeployed(Module(order, Linked(bindings, links), map[], [], [], []), receipt, l)
  }

  lemma TwoBindingsBuilt(order: seq<Name>, bindings: map<Name, Binding>, links: map<Name, seq<Name>>,
                         a: Name, x: Name, arg: Arg, library: bool)
    requires a != x && order == [a, x] && links == map[a := [], x := []]
    requires bindings == map[a := NewBinding(a, [], false), x := NewBinding(x, [arg], library)]
    requires arg == Contract(a) || arg == Named(a)
    ensures Built(order, bindings, [], map[]) && Compiled(bindings, links) && Plain(order, bindings, map[], links)
  {
    assert order[..1] == [a] && a in order[..1];
    assert ArgNames([arg]) == [a] by { assert ArgNames([arg][1..]) == []; }
    assert forall k :: HookList(Hooks([], [], [], [], []), k) == [];
    assert LinkEdges(bindings, links) == {};
    ClimbingIsAcyclic(LinkEdges(bindings, links), (n: Name) => 0);
  }

  lemma BuiltLibraryNotDeployed(order: seq<Name>, bindings: map<Name, Binding>, links: map<Name, seq<Name>>, g: Module,
                                receipt: Name -> Address, a: Name, l: Name)
    requires Built(order, bindings, [], map[]) && Plain(order, bindings, map[], links)
    requires g == Module(order, Linked(bindings, links), map[], [], [], [])
    requires a in bindings && l in bindings && bindings[l].library && Contract(a) in bindings[l].args
    requires forall c :: c in bindings && c != l ==> !bindings[c].library
    requires a != l
    ensures NotDeployed(g, receipt, l)
  {
    BuiltModuleResolves(order, bindings, [], map[], links, g);
    BuiltLinksTyped(order, bindings, [], map[], links, g);
    ResolvedIsInput(g);
    Resolver.ResolvedState(g);
    assert !Scheduler.IsLibrary(g, a);
    LibraryNotDeployed(g, receipt, l);
  }

  /** Resolved and scheduled without error, yet without address after the run. */
  ghost predicate NotDeployed(g: Module, receipt: Name -> Address, x: Name) {
    && Rankable(g) && Resolver.Resolve(g).Done?
    && var r := Scheduler.Schedule(g, Resolver.Resolve(g).state);
       r.Ok? && x !in Final(ExecuteBatches(g, receipt, r.value.batches, State(map[], []))).addresses
  }

  lemma LibraryNotDeployed(g: Module, receipt: Name -> Address, l: Name)
    requires WellFormed(g) && Rankable(g) && Resolver.Resolve(g).Done? && Input(g, Resolver.Resolve(g).state)
    requires NothingUsed(g) && AllArgsThere(g, Resolver.Resolve(g).state)
    requires Scheduler.IsLibrary(g, l) && !ArgsAreLibraries(g, l)
    requires forall c :: Scheduler.IsLibrary(g, c) ==> c == l
    ensures NotDeployed(g, receipt, l)
  {
    var state := Resolver.Resolve(g).state;
    Resolver.ResolvedState(g);
    NothingLostIff(g, state);
    var plan := Scheduler.Schedule(g, state).value;
    assert LosesLibrary(g, plan);
    NeverDeployed(g, plan, map[], receipt, l);
  }
}
