/** Exactly which built modules the resolver ends on. */
module BuiltModules {
  import opened Acyclicity
  import opened CallDepth
  import opened Graph
  import opened ModuleBuilder
  import opened Overflow
  import opened Termination
  import opened Wrappers

  lemma BuiltModuleHooked(bindings: map<Name, Binding>, events: map<Name, Event>, links: map<Name, seq<Name>>,
                          g: Module)
    requires HooksTyped(bindings, events) && Compiled(bindings, links)
    requires g.bindings == Linked(bindings, links) && g.events == events
    ensures Hooked(g)
  {
    forall c, e | c in g.bindings && e in BeforeHooks(g.bindings[c]) && e in g.events ensures c in g.events[e].deps {
      HookKind(bindings[c].hooks, e);
    }
  }

  lemma BuiltEventsAcyclic(order: seq<Name>, eventOrder: seq<Name>, g: Module)
    requires Listed(eventOrder, g.events.Keys) && EventsReachBack(eventOrder, order, g.events)
    ensures Acyclic(EventEdges(g))
  {
    var rank: Name -> nat := n => IndexOf(eventOrder, n);
    forall d, e | (d, e) in EventEdges(g) ensures rank(d) < rank(e) {
      BuiltEventRanks(order, eventOrder, g.events, d, e);
    }
    ClimbingIsAcyclic(EventEdges(g), rank);
  }

  /** A compiled module, built in any way, in which no event merely uses another is
      resolved within some call depth if and only if its contracts need not precede
      each other in a circle; otherwise the resolver overflows every depth. */
  lemma BuiltModuleEndsIff(order: seq<Name>, bindings: map<Name, Binding>, eventOrder: seq<Name>,
                           events: map<Name, Event>, links: map<Name, seq<Name>>, g: Module)
    requires Built(order, bindings, eventOrder, events)
    requires Compiled(bindings, links) && bindings.Keys !! events.Keys
    requires g.order == order && g.bindings == Linked(bindings, links) && g.events == events
    requires forall n :: n in ModuleEvents(g) ==> n !in bindings && n !in events
    requires forall e :: e in events ==> events[e].eventUsage == []
    ensures (exists depth :: EndsAt(g, depth)) <==> Acyclic(ContractEdges(g))
    ensures !Acyclic(ContractEdges(g)) ==> forall depth :: ResolveWithin(g, depth).Overflow?
  {
    BuiltModuleWellFormed(order, bindings, eventOrder, events, links, g);
    BuiltModuleClosed(order, bindings, eventOrder, events, links, g);
    BuiltModuleHooked(bindings, events, links, g);
    BuiltEventsAcyclic(order, eventOrder, g);
    EndsIffAcyclic(g);
  }

  lemma SelfPrecedenceIsCycle(g: Module, c: Name)
    requires MustPrecede(g, c, c)
    ensures !Acyclic(ContractEdges(g))
  {
    var p := [c, c];
    assert (p[0], p[1]) in ContractEdges(g);
    assert IsPath(ContractEdges(g), p) && p[0] == p[|p| - 1];
  }

  /** A before-hook grouping a contract with an after-hook of the same contract is
      accepted by the builder, and resolving it overflows every call depth. */
  lemma GroupedBeforeHookLoops()
    ensures exists order, bindings, eventOrder, events, links: map<Name, seq<Name>> ::
              && Built(order, bindings, eventOrder, events) && Compiled(bindings, links)
              && var g := Module(order, Linked(bindings, links), events, [], [], []);
                 forall depth :: ResolveWithin(g, depth).Overflow?
  {
    var order, eventOrder := ["A"], ["deployed", "before"];
    var a := Binding("A", [], None, false, [], false, Hooks([], [], ["before"], ["deployed"], []));
    var bindings := map["A" := a];
    var deployed := Event(AfterDeploy, ["A"], [], [], []);
    var before := Event(BeforeDeploy, ["A"], ["deployed"], [], []);
    var events := map["deployed" := deployed, "before" := before];
    var links: map<Name, seq<Name>> := map["A" := []];
    assert HooksTyped(bindings, events) by {
      forall k, e | e in HookList(a.hooks, k) ensures e in events && events[e].eventType == k {}
    }
    assert eventOrder[..1] == ["deployed"] && "deployed" in eventOrder[..1];
    assert ReachesBack(eventOrder[..0], order, deployed) && ReachesBack(eventOrder[..1], order, before);
    assert Built(order, bindings, eventOrder, events);
    var g := Module(order, Linked(bindings, links), events, [], [], []);
    assert BehindHook(g, g.bindings["A"], "before", "deployed");
    SelfPrecedenceIsCycle(g, "A");
    BuiltModuleEndsIff(order, bindings, eventOrder, events, links, g);
  }
}
