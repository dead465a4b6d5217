/** How a deployment script builds a module, and why every module built without
    the two awkward features can be resolved. */
module ModuleBuilder {
  import opened Graph
  import opened Acyclicity
  import Completion
  import Resolver
  import opened Wrappers

  /** Something a script can put in a group or name as a usage: an object it was
      handed, either a contract binding or an event. */
  datatype Dependency = OnContract(name: Name) | OnEvent(name: Name)

  datatype BuildError =
    | ContractExists
    | TemplateNotFound
    | EventNameExists
    | MissingContractMetadata(contractName: Name)

  /** A binding as it is created: not compiled, without hooks or deploy function. */
  function NewBinding(contractName: Name, args: seq<Arg>, library: bool): Binding {
    Binding(contractName, args, None, false, [], library, Hooks([], [], [], [], []))
  }

  function HookList(h: Hooks, kind: EventType): seq<Name> {
    match kind
    case BeforeCompile => h.beforeCompile
    case AfterCompile => h.afterCompile
    case BeforeDeploy => h.beforeDeploy
    case AfterDeploy => h.afterDeploy
    case OnChange => h.onChange
  }

  function WithHook(h: Hooks, kind: EventType, e: Name): (r: Hooks)
    ensures forall k :: HookList(r, k) == if k == kind then HookList(h, k) + [e] else HookList(h, k)
    ensures r.beforeCompile == h.beforeCompile + if kind == BeforeCompile then [e] else []
    ensures r.afterCompile == h.afterCompile + if kind == AfterCompile then [e] else []
    ensures r.beforeDeploy == h.beforeDeploy + if kind == BeforeDeploy then [e] else []
    ensures r.afterDeploy == h.afterDeploy + if kind == AfterDeploy then [e] else []
    ensures r.onChange == h.onChange + if kind == OnChange then [e] else []
  {
    match kind
    case BeforeCompile => h.(beforeCompile := h.beforeCompile + [e])
    case AfterCompile => h.(afterCompile := h.afterCompile + [e])
    case BeforeDeploy => h.(beforeDeploy := h.beforeDeploy + [e])
    case AfterDeploy => h.(afterDeploy := h.afterDeploy + [e])
    case OnChange => h.(onChange := h.onChange + [e])
  }

  function ContractNames(ds: seq<Dependency>): (r: seq<Name>)
    ensures forall n :: n in r <==> OnContract(n) in ds
  {
    if ds == [] then []
    else
      assert ds == [ds[0]] + ds[1..];
      (if ds[0].OnContract? then [ds[0].name] else []) + ContractNames(ds[1..])
  }

  function EventNames(ds: seq<Dependency>): (r: seq<Name>)
    ensures forall n :: n in r <==> OnEvent(n) in ds
  {
    if ds == [] then []
    else
      assert ds == [ds[0]] + ds[1..];
      (if ds[0].OnEvent? then [ds[0].name] else []) + EventNames(ds[1..])
  }

  /** A group is split in order, contract by contract and event by event. */
  lemma GroupSplitsInOrder(a: seq<Dependency>, b: seq<Dependency>, n: Name)
    ensures ContractNames(a + b) == ContractNames(a) + ContractNames(b)
    ensures EventNames(a + b) == EventNames(a) + EventNames(b)
    ensures ContractNames([OnContract(n)]) == [n] && EventNames([OnContract(n)]) == []
    ensures ContractNames([OnEvent(n)]) == [] && EventNames([OnEvent(n)]) == [n]
  {
    ContractsSplit(a, b);
    EventsSplit(a, b);
    SingleSplits(n);
  }

  lemma {:induction false} ContractsSplit(a: seq<Dependency>, b: seq<Dependency>)
    ensures ContractNames(a + b) == ContractNames(a) + ContractNames(b)
  {
    if a == [] {
      assert a + b == b;
    } else {
      ContractsSplit(a[1..], b);
      SplitsAt(a, b);
    }
  }

  lemma {:induction false} EventsSplit(a: seq<Dependency>, b: seq<Dependency>)
    ensures EventNames(a + b) == EventNames(a) + EventNames(b)
  {
    if a == [] {
      assert a + b == b;
    } else {
      EventsSplit(a[1..], b);
      SplitsAt(a, b);
    }
  }

  lemma SplitsAt(a: seq<Dependency>, b: seq<Dependency>)
    requires a != []
    ensures (a + b)[0] == a[0] && (a + b)[1..] == a[1..] + b
  {
  }

  lemma SingleSplits(n: Name)
    ensures ContractNames([OnContract(n)]) == [n] && EventNames([OnContract(n)]) == []
    ensures ContractNames([OnEvent(n)]) == [] && EventNames([OnEvent(n)]) == [n]
  {
    assert [OnContract(n)][1..] == [] && [OnEvent(n)][1..] == [];
  }

  /** What every sequence of builder calls keeps: event links reach back to events
      created earlier, and hook lists and events agree. */
  ghost predicate Built(order: seq<Name>, bindings: map<Name, Binding>, eventOrder: seq<Name>,
                        events: map<Name, Event>) {
    && Listed(order, bindings.Keys) && Listed(eventOrder, events.Keys)
    && NoDeployFn(bindings)
    && EventsReachBack(eventOrder, order, events)
    && HooksTyped(bindings, events)
  }

  ghost predicate NoDeployFn(bindings: map<Name, Binding>) {
    forall c :: c in bindings ==> !bindings[c].deployFn && bindings[c].deployDeps == []
  }

  /** What a script keeps that passes only values, bindings it was handed, and objects
      with the name of none bound later. */
  ghost predicate ArgsReachBack(order: seq<Name>, bindings: map<Name, Binding>)
    requires Listed(order, bindings.Keys)
  {
    forall i, n :: 0 <= i < |order| && Refers(bindings, bindings[order[i]].args, n) ==> n in order[..i]
  }

  /** The names of contract bindings among the arguments, and of objects that have the
      name of a contract. */
  ghost predicate Refers(bindings: map<Name, Binding>, args: seq<Arg>, n: Name) {
    n in ArgNames(args) && (n in bindings || Contract(n) in args)
  }

  ghost predicate EventsReachBack(eventOrder: seq<Name>, order: seq<Name>, events: map<Name, Event>)
    requires Listed(eventOrder, events.Keys)
  {
    forall i :: 0 <= i < |eventOrder| ==> ReachesBack(eventOrder[..i], order, events[eventOrder[i]])
  }

  /** A contract lists events of the kind of the list, which depend on it. */
  ghost predicate HooksTyped(bindings: map<Name, Binding>, events: map<Name, Event>) {
    forall c, k, e :: c in bindings && e in HookList(bindings[c].hooks, k) ==>
      e in events && events[e].eventType == k && c in events[e].deps
  }

  ghost predicate Listed(order: seq<Name>, keys: set<Name>) {
    && (forall i, j :: 0 <= i < j < |order| ==> order[i] != order[j])
    && (forall n :: n in order <==> n in keys)
  }

  ghost predicate ReachesBack(earlier: seq<Name>, order: seq<Name>, e: Event) {
    && (forall n :: n in e.deps + e.usage ==> n in order)
    && (forall d :: d in e.eventDeps + e.eventUsage ==> d in earlier)
  }

  /** The bindings `done` have their link references, the others are as they were. */
  ghost predicate FilledIn(b0: map<Name, Binding>, b1: map<Name, Binding>, links: map<Name, seq<Name>>,
                           done: seq<Name>) {
    && b1.Keys == b0.Keys
    && (forall n :: n in done && n in b0 ==> b0[n].contractName in links)
    && (forall n :: n in b0 ==>
          b1[n] == if n in done && b0[n].contractName in links
                   then b0[n].(libraries := Some(links[b0[n].contractName])) else b0[n])
  }

  /** A binding with the link references of its Solidity contract. */
  function Filled(b: Binding, links: map<Name, seq<Name>>): (r: Binding)
    requires b.contractName in links
    ensures Links(r) == links[b.contractName] && r.libraries.Some? && r.(libraries := b.libraries) == b
  {
    b.(libraries := Some(links[b.contractName]))
  }

  /** The compiler knows every contract. */
  ghost predicate Compiled(bindings: map<Name, Binding>, links: map<Name, seq<Name>>) {
    forall n :: n in bindings ==> bindings[n].contractName in links
  }

  /** The position of the first binding whose contract the compiler does not know. */
  function FirstMissing(order: seq<Name>, bindings: map<Name, Binding>, links: map<Name, seq<Name>>): (k: nat)
    requires forall n :: n in order ==> n in bindings
    ensures k <= |order|
    ensures forall i :: 0 <= i < k ==> bindings[order[i]].contractName in links
    ensures k < |order| ==> bindings[order[k]].contractName !in links
  {
    if order == [] || bindings[order[0]].contractName !in links then 0
    else FirstMissing(order[1..], bindings, links) + 1
  }

  class ModuleBuilder {
    var order: seq<Name>
    var bindings: map<Name, Binding>
    var eventOrder: seq<Name>
    var events: map<Name, Event>
    var templates: set<Name>

    ghost predicate Valid()
      reads this
    {
      Built(order, bindings, eventOrder, events)
    }

    constructor ()
      ensures Valid() && order == [] && eventOrder == [] && templates == {}
    {
      order, bindings, eventOrder, events, templates := [], map[], [], map[], {};
    }

    /** Binds a contract under a name that is still free; the arguments are not looked
        at. */
    method Bind(name: Name, contractName: Name, args: seq<Arg>, library: bool) returns (error: Option<BuildError>)
      requires Valid()
      modifies this
      ensures Valid() && unchanged(`eventOrder) && unchanged(`events) && unchanged(`templates)
      ensures error == if name in old(bindings) then Some(ContractExists) else None
      ensures error.Some? ==> order == old(order) && bindings == old(bindings)
      ensures error.None? ==>
                && order == old(order) + [name]
                && bindings == old(bindings)[name := NewBinding(contractName, args, library)]
    {
      if name in bindings { return Some(ContractExists); }
      assert forall k :: HookList(Hooks([], [], [], [], []), k) == [];
      order := order + [name];
      bindings := bindings[name := NewBinding(contractName, args, library)];
      error := None;
    }

    method Contract(name: Name, args: seq<Arg>) returns (error: Option<BuildError>)
      requires Valid()
      modifies this
      ensures Valid() && unchanged(`eventOrder) && unchanged(`events) && unchanged(`templates)
      ensures error == if name in old(bindings) then Some(ContractExists) else None
      ensures error.Some? ==> order == old(order) && bindings == old(bindings)
      ensures error.None? ==>
                && order == old(order) + [name]
                && bindings == old(bindings)[name := NewBinding(name, args, false)]
    {
      error := Bind(name, name, args, false);
    }

    method Library(name: Name, args: seq<Arg>) returns (error: Option<BuildError>)
      requires Valid()
      modifies this
      ensures Valid() && unchanged(`eventOrder) && unchanged(`events) && unchanged(`templates)
      ensures error == if name in old(bindings) then Some(ContractExists) else None
      ensures error.Some? ==> order == old(order) && bindings == old(bindings)
      ensures error.None? ==>
                && order == old(order) + [name]
                && bindings == old(bindings)[name := NewBinding(name, args, true)]
    {
      error := Bind(name, name, args, true);
    }

    method ContractTemplate(name: Name)
      requires Valid()
      modifies this
      ensures Valid() && templates == old(templates) + {name}
      ensures unchanged(`order) && unchanged(`bindings) && unchanged(`eventOrder) && unchanged(`events)
    {
      templates := templates + {name};
    }

    method BindTemplate(name: Name, template: Name, args: seq<Arg>) returns (error: Option<BuildError>)
      requires Valid()
      modifies this
      ensures Valid() && unchanged(`eventOrder) && unchanged(`events) && unchanged(`templates)
      ensures error == if name in old(bindings) then Some(ContractExists)
                       else if template !in old(templates) then Some(TemplateNotFound) else None
      ensures error.Some? ==> order == old(order) && bindings == old(bindings)
      ensures error.None? ==>
                && order == old(order) + [name]
                && bindings == old(bindings)[name := NewBinding(template, args, false)]
    {
      if name in bindings { return Some(ContractExists); }
      if template !in templates { return Some(TemplateNotFound); }
      error := Bind(name, template, args, false);
    }

    /** A hook of any kind on a group of contracts and events.  An error aborts the
        build, whatever has been written by then. */
    method GroupHook(kind: EventType, name: Name, group: seq<Dependency>, usages: seq<Dependency>)
      returns (error: Option<BuildError>)
      requires Valid()
      requires forall d :: d in group + usages ==> if d.OnContract? then d.name in bindings else d.name in events
      modifies this
      ensures unchanged(`order) && unchanged(`templates)
      ensures error == if name in old(events) then Some(EventNameExists) else None
      ensures error.None? ==>
                && Valid()
                && eventOrder == old(eventOrder) + [name]
                && events == old(events)[name := Event(kind, ContractNames(group), EventNames(group),
                                                       ContractNames(usages), EventNames(usages))]
                && Attached(old(bindings), bindings, kind, name, group)
    {
      forall d | d in group ensures d in group + usages {}
      Attach(kind, name, group);
      error := AddEvent(name, Event(kind, ContractNames(group), EventNames(group),
                                    ContractNames(usages), EventNames(usages)));
      if error.None? {
        HookKeepsBuilt(order, old(bindings), bindings, old(eventOrder), old(events), name, events[name], group);
      }
    }

    method Attach(kind: EventType, name: Name, group: seq<Dependency>)
      requires Valid()
      requires forall d :: d in group && d.OnContract? ==> d.name in bindings
      modifies this
      ensures unchanged(`order) && unchanged(`templates) && unchanged(`events) && unchanged(`eventOrder)
      ensures HooksOnlyDiffer(old(bindings), bindings)
      ensures name !in events ==> Attached(old(bindings), bindings, kind, name, group)
    {
      for i := 0 to |group|
        invariant unchanged(`order) && unchanged(`templates) && unchanged(`events) && unchanged(`eventOrder)
        invariant HooksOnlyDiffer(old(bindings), bindings)
        invariant name !in events ==> Attached(old(bindings), bindings, kind, name, group[..i])
      {
        assert group[..i + 1] == group[..i] + [group[i]];
        if group[i].OnEvent? {
          assert forall c :: OnContract(c) in group[..i + 1] <==> OnContract(c) in group[..i];
          continue;
        }
        var c := group[i].name;
        if name !in events { AttachOne(old(bindings), bindings, kind, name, group[..i], c, events); }
        if name in HookList(bindings[c].hooks, kind) { continue; }
        bindings := bindings[c := bindings[c].(hooks := WithHook(bindings[c].hooks, kind, name))];
      }
      assert group[..|group|] == group;
    }

    /** A hook on one contract: refused when the contract already lists the name. */
    method ContractHook(kind: EventType, name: Name, c: Name, usages: seq<Dependency>)
      returns (error: Option<BuildError>)
      requires Valid() && c in bindings
      requires forall d :: d in usages ==> if d.OnContract? then d.name in bindings else d.name in events
      modifies this
      ensures unchanged(`order) && unchanged(`templates)
      ensures error == if name in old(events) then Some(EventNameExists) else None
      ensures error.None? ==>
                && Valid()
                && eventOrder == old(eventOrder) + [name]
                && events == old(events)[name := Event(kind, [c], [], ContractNames(usages), EventNames(usages))]
                && Attached(old(bindings), bindings, kind, name, [OnContract(c)])
    {
      if name in HookList(bindings[c].hooks, kind) { return Some(EventNameExists); }
      AttachSingle(bindings, kind, name, c);
      bindings := bindings[c := bindings[c].(hooks := WithHook(bindings[c].hooks, kind, name))];
      error := AddEvent(name, Event(kind, [c], [], ContractNames(usages), EventNames(usages)));
      if error.None? {
        HookKeepsBuilt(order, old(bindings), bindings, old(eventOrder), old(events),
                       name, events[name], [OnContract(c)]);
      }
    }

    /** Compiler artifacts fill in the link references of every bound contract. */
    method HandleModule(links: map<Name, seq<Name>>) returns (error: Option<BuildError>)
      requires Valid()
      modifies this`bindings
      ensures var k := FirstMissing(order, old(bindings), links);
              && FilledIn(old(bindings), bindings, links, order[..k])
              && error == if k == |order| then None
                          else Some(MissingContractMetadata(old(bindings)[order[k]].contractName))
      ensures error.None? ==> Compiled(old(bindings), links) && bindings == Linked(old(bindings), links)
    {
      ghost var k := FirstMissing(order, old(bindings), links);
      for i := 0 to |order|
        invariant i <= k && FilledIn(old(bindings), bindings, links, order[..i])
      {
        var name := order[i];
        FilledInStep(old(bindings), bindings, links, order, i);
        var contractName := bindings[name].contractName;
        if contractName !in links {
          assert i == k;
          return Some(MissingContractMetadata(contractName));
        }
        bindings := bindings[name := Filled(bindings[name], links)];
      }
      AllFilledIn(old(bindings), bindings, links, order);
      error := None;
    }

    method AddEvent(name: Name, event: Event) returns (error: Option<BuildError>)
      modifies this
      ensures unchanged(`order) && unchanged(`bindings) && unchanged(`templates)
      ensures error == if name in old(events) then Some(EventNameExists) else None
      ensures error.Some? ==> unchanged(this)
      ensures error.None? ==> eventOrder == old(eventOrder) + [name] && events == old(events)[name := event]
    {
      if name in events { return Some(EventNameExists); }
      eventOrder, events := eventOrder + [name], events[name := event];
      error := None;
    }
  }

  /** Binding keeps the arguments reaching back if the new ones do and no earlier ones
      have the new name. */
  lemma BindReachesBack(order: seq<Name>, bindings: map<Name, Binding>, name: Name, b: Binding)
    requires Listed(order, bindings.Keys) && name !in bindings && ArgsReachBack(order, bindings)
    requires forall c :: c in bindings ==> name !in ArgNames(bindings[c].args)
    requires forall n :: n in ArgNames(b.args) && (n == name || Contract(n) in b.args) ==> n in bindings
    ensures Listed(order + [name], bindings[name := b].Keys) && ArgsReachBack(order + [name], bindings[name := b])
  {
    var o, bs := order + [name], bindings[name := b];
    forall i, n | 0 <= i < |o| && Refers(bs, bs[o[i]].args, n) ensures n in o[..i] {
      if i < |order| {
        assert o[..i] == order[..i] && order[i] in order;
        assert Refers(bindings, bindings[order[i]].args, n);
      } else {
        assert o[..i] == order;
      }
    }
  }

  lemma FilledInStep(b0: map<Name, Binding>, b1: map<Name, Binding>, links: map<Name, seq<Name>>, order: seq<Name>,
                     i: nat)
    requires i < |order| && FilledIn(b0, b1, links, order[..i]) && order[i] in b0
    requires forall j :: 0 <= j < i ==> order[j] != order[i]
    ensures b1[order[i]] == b0[order[i]]
    ensures b0[order[i]].contractName in links ==>
              FilledIn(b0, b1[order[i] := Filled(b0[order[i]], links)], links, order[..i + 1])
  {
    assert order[..i + 1] == order[..i] + [order[i]];
  }

  lemma AllFilledIn(b0: map<Name, Binding>, b1: map<Name, Binding>, links: map<Name, seq<Name>>, order: seq<Name>)
    requires FilledIn(b0, b1, links, order[..|order|]) && forall n :: n in b0 ==> n in order
    ensures Compiled(b0, links) && b1 == Linked(b0, links) && order[..|order|] == order
  {
    assert order[..|order|] == order;
  }

  ghost predicate HooksOnlyDiffer(b0: map<Name, Binding>, b1: map<Name, Binding>) {
    b0.Keys == b1.Keys && forall c :: c in b0 ==> b1[c] == b0[c].(hooks := b1[c].hooks)
  }

  /** Exactly the group's contracts gained the hook `name`, at the end of one list. */
  ghost predicate Attached(b0: map<Name, Binding>, b1: map<Name, Binding>, kind: EventType, name: Name,
                           group: seq<Dependency>) {
    && HooksOnlyDiffer(b0, b1)
    && forall c :: c in b0 ==>
         b1[c].hooks == if OnContract(c) in group then WithHook(b0[c].hooks, kind, name) else b0[c].hooks
  }

  /** Whether a contract already lists the new hook tells whether it was met before. */
  lemma AttachOne(b0: map<Name, Binding>, b1: map<Name, Binding>, kind: EventType, name: Name,
                  done: seq<Dependency>, c: Name, events: map<Name, Event>)
    requires Attached(b0, b1, kind, name, done) && HooksTyped(b0, events) && name !in events && c in b0
    ensures if name in HookList(b1[c].hooks, kind) then Attached(b0, b1, kind, name, done + [OnContract(c)])
            else Attached(b0, b1[c := b1[c].(hooks := WithHook(b1[c].hooks, kind, name))], kind, name,
                          done + [OnContract(c)])
  {
    assert name !in HookList(b0[c].hooks, kind);
    assert name in HookList(b1[c].hooks, kind) <==> OnContract(c) in done;
    if OnContract(c) !in done { AttachNew(b0, b1, kind, name, done, c); }
  }

  lemma AttachNew(b0: map<Name, Binding>, b1: map<Name, Binding>, kind: EventType, name: Name, done: seq<Dependency>,
                  c: Name)
    requires Attached(b0, b1, kind, name, done) && c in b0 && OnContract(c) !in done
    ensures Attached(b0, b1[c := b1[c].(hooks := WithHook(b1[c].hooks, kind, name))], kind, name,
                     done + [OnContract(c)])
  {
    assert forall n :: OnContract(n) in done + [OnContract(c)] <==> OnContract(n) in done || n == c;
  }

  lemma AttachSingle(b: map<Name, Binding>, kind: EventType, name: Name, c: Name)
    requires c in b
    ensures Attached(b, b[c := b[c].(hooks := WithHook(b[c].hooks, kind, name))], kind, name, [OnContract(c)])
  {
    assert forall n :: OnContract(n) in [OnContract(c)] <==> n == c;
  }

  /** A new event, attached to the contracts it depends on, keeps the builder's
      invariant. */
  lemma HookKeepsBuilt(order: seq<Name>, b0: map<Name, Binding>, b1: map<Name, Binding>, eventOrder: seq<Name>,
                       events: map<Name, Event>, name: Name, event: Event, group: seq<Dependency>)
    requires Built(order, b0, eventOrder, events) && name !in events && ReachesBack(eventOrder, order, event)
    requires Attached(b0, b1, event.eventType, name, group) && forall c :: OnContract(c) in group ==> c in event.deps
    ensures Built(order, b1, eventOrder + [name], events[name := event])
  {
    AttachedIsTyped(b0, b1, event.eventType, name, group, events, event);
    AddedEventReachesBack(eventOrder, events, order, name, event);
  }

  lemma AttachedIsTyped(b0: map<Name, Binding>, b1: map<Name, Binding>, kind: EventType, name: Name,
                        group: seq<Dependency>, events: map<Name, Event>, event: Event)
    requires Attached(b0, b1, kind, name, group) && HooksTyped(b0, events)
    requires name !in events && event.eventType == kind && forall c :: OnContract(c) in group ==> c in event.deps
    ensures HooksTyped(b1, events[name := event])
  {
    forall c, k, e | c in b1 && e in HookList(b1[c].hooks, k)
      ensures var events' := events[name := event]; e in events' && events'[e].eventType == k && c in events'[e].deps
    {
      if e !in HookList(b0[c].hooks, k) { assert k == kind && e == name; }
    }
  }

  function Linked(bindings: map<Name, Binding>, links: map<Name, seq<Name>>): map<Name, Binding>
    requires Compiled(bindings, links)
  {
    map n | n in bindings :: Filled(bindings[n], links)
  }

  ghost function LinkEdges(bindings: map<Name, Binding>, links: map<Name, seq<Name>>): set<(Name, Name)>
    requires Compiled(bindings, links)
  {
    set l, c | c in bindings && l in bindings && l in links[bindings[c].contractName] :: (l, c)
  }

  /** A script whose arguments reach back, that groups no event under a before-hook, and
      whose linked contracts take no contracts as arguments and do not link in a circle. */
  ghost predicate Plain(order: seq<Name>, bindings: map<Name, Binding>, events: map<Name, Event>,
                        links: map<Name, seq<Name>>) {
    && Compiled(bindings, links) && bindings.Keys !! events.Keys
    && Listed(order, bindings.Keys) && ArgsReachBack(order, bindings)
    && (forall e :: e in events && !IsAfter(events[e]) ==> events[e].eventDeps == [])
    && (forall c, l :: c in bindings && l in links[bindings[c].contractName] && l in bindings ==>
          ArgNames(bindings[l].args) == [])
    && Acyclic(LinkEdges(bindings, links))
  }

  function IndexOf(order: seq<Name>, n: Name): (i: nat)
    ensures n in order ==> i < |order| && order[i] == n
  {
    if order == [] then 0 else if order[0] == n then 0 else IndexOf(order[1..], n) + 1
  }

  /** Contracts without contract arguments rank by links, the others after them all
      by creation; events rank by creation. */
  ghost function BuiltRanks(order: seq<Name>, bindings: map<Name, Binding>, eventOrder: seq<Name>,
                            events: map<Name, Event>, linkRank: map<Name, nat>): Ranks
    requires linkRank.Keys == bindings.Keys
  {
    Ranks(map c | c in bindings ::
            if ArgNames(bindings[c].args) == [] then linkRank[c] else |bindings.Keys| + IndexOf(order, c),
          map e | e in events :: IndexOf(eventOrder, e),
          |bindings.Keys| + |order|)
  }

  lemma IndexIsUnique(order: seq<Name>, keys: set<Name>, i: nat)
    requires Listed(order, keys) && i < |order|
    ensures IndexOf(order, order[i]) == i
  {
    assert order[i] in order;
  }

  /** Every plainly built module can be resolved, and if no event merely uses
      another event it is resolved without error. */
  lemma BuiltModuleResolves(order: seq<Name>, bindings: map<Name, Binding>, eventOrder: seq<Name>,
                            events: map<Name, Event>, links: map<Name, seq<Name>>, g: Module)
    requires Built(order, bindings, eventOrder, events) && Plain(order, bindings, events, links)
    requires g.order == order && g.bindings == Linked(bindings, links) && g.events == events
    requires forall n :: n in ModuleEvents(g) ==> n !in bindings && n !in events
    ensures WellFormed(g) && Rankable(g)
    ensures (forall e :: e in events ==> events[e].eventUsage == []) ==> Resolver.Resolve(g).Done?
  {
    BuiltModuleWellFormed(order, bindings, eventOrder, events, links, g);
    BuiltModuleRankable(order, bindings, eventOrder, events, links, g);
    if forall e :: e in events ==> events[e].eventUsage == [] {
      BuiltModuleClosed(order, bindings, eventOrder, events, links, g);
      Completion.ClosedModuleResolves(g);
    }
  }

  lemma BuiltModuleRankable(order: seq<Name>, bindings: map<Name, Binding>, eventOrder: seq<Name>,
                            events: map<Name, Event>, links: map<Name, seq<Name>>, g: Module)
    requires Built(order, bindings, eventOrder, events) && Plain(order, bindings, events, links)
    requires g.bindings == Linked(bindings, links) && g.events == events
    ensures Rankable(g)
  {
    var linkRank := AcyclicIsNumbered(LinkEdges(bindings, links), bindings.Keys);
    var r := BuiltRanks(order, bindings, eventOrder, events, linkRank);
    forall p, c | MustPrecede(g, p, c) ensures r.C(p) < r.C(c) {
      BuiltContractRanks(order, bindings, eventOrder, events, links, g, linkRank, p, c);
    }
    forall d, e | EventPrecedes(g, d, e) ensures r.E(d) < r.E(e) {
      BuiltEventRanks(order, eventOrder, events, d, e);
    }
    BuiltRanksBounded(order, bindings, eventOrder, events, linkRank);
    assert RankedBy(g, r);
  }

  lemma BuiltRanksBounded(order: seq<Name>, bindings: map<Name, Binding>, eventOrder: seq<Name>,
                          events: map<Name, Event>, linkRank: map<Name, nat>)
    requires Listed(order, bindings.Keys) && linkRank.Keys == bindings.Keys
    requires forall n :: n in linkRank ==> linkRank[n] < |bindings.Keys|
    ensures var r := BuiltRanks(order, bindings, eventOrder, events, linkRank);
            forall c :: c in bindings ==> r.C(c) < r.bound
  {
    forall c | c in bindings ensures IndexOf(order, c) < |order| { assert c in order; }
  }

  lemma BuiltModuleWellFormed(order: seq<Name>, bindings: map<Name, Binding>, eventOrder: seq<Name>,
                              events: map<Name, Event>, links: map<Name, seq<Name>>, g: Module)
    requires Built(order, bindings, eventOrder, events) && Compiled(bindings, links) && bindings.Keys !! events.Keys
    requires g.order == order && g.bindings == Linked(bindings, links) && g.events == events
    requires forall n :: n in ModuleEvents(g) ==> n !in bindings && n !in events
    ensures WellFormed(g)
  {
    forall c, e | c in g.bindings && e in g.events
      ensures e in BeforeHooks(g.bindings[c]) ==> !IsAfter(g.events[e])
      ensures e in AfterHooks(g.bindings[c]) ==> IsAfter(g.events[e])
    {
      HookKind(bindings[c].hooks, e);
    }
  }

  lemma HookKind(h: Hooks, e: Name)
    ensures e in h.beforeCompile + h.afterCompile + h.beforeDeploy ==>
              exists k :: e in HookList(h, k) && k != AfterDeploy && k != OnChange
    ensures e in h.afterDeploy + h.onChange ==>
              exists k :: e in HookList(h, k) && (k == AfterDeploy || k == OnChange)
  {
    if e in h.beforeCompile { assert e in HookList(h, BeforeCompile); }
    if e in h.afterCompile { assert e in HookList(h, AfterCompile); }
    if e in h.beforeDeploy { assert e in HookList(h, BeforeDeploy); }
    if e in h.afterDeploy { assert e in HookList(h, AfterDeploy); }
    if e in h.onChange { assert e in HookList(h, OnChange); }
  }

  lemma PrefixIn(s: seq<Name>, i: nat)
    requires i <= |s|
    ensures forall x :: x in s[..i] ==> x in s
  {
  }

  lemma BuiltModuleClosed(order: seq<Name>, bindings: map<Name, Binding>, eventOrder: seq<Name>,
                          events: map<Name, Event>, links: map<Name, seq<Name>>, g: Module)
    requires Built(order, bindings, eventOrder, events) && Compiled(bindings, links)
    requires g.bindings == Linked(bindings, links) && g.events == events
    requires forall e :: e in events ==> events[e].eventUsage == []
    ensures Completion.Closed(g)
  {
    forall c, h | c in g.bindings && h in BeforeHooks(g.bindings[c]) + AfterHooks(g.bindings[c]) ensures h in g.events {
      HookKind(bindings[c].hooks, h);
    }
    forall e | e in events ensures Completion.ClosedEvent(g, events[e]) {
      var i :| 0 <= i < |eventOrder| && eventOrder[i] == e;
      assert ReachesBack(eventOrder[..i], order, events[e]);
      PrefixIn(eventOrder, i);
      assert forall d :: d in events[e].eventDeps ==> d in eventOrder[..i];
      assert forall n :: n in events[e].deps ==> n in events[e].deps + events[e].usage;
      assert forall n :: n in events[e].usage ==> n in events[e].deps + events[e].usage;
    }
  }

  lemma BuiltContractRanks(order: seq<Name>, bindings: map<Name, Binding>, eventOrder: seq<Name>,
                           events: map<Name, Event>, links: map<Name, seq<Name>>, g: Module,
                           linkRank: map<Name, nat>, p: Name, c: Name)
    requires Built(order, bindings, eventOrder, events) && Plain(order, bindings, events, links)
    requires g.bindings == Linked(bindings, links) && g.events == events
    requires Numbers(LinkEdges(bindings, links), bindings.Keys, linkRank) && MustPrecede(g, p, c)
    ensures var r := BuiltRanks(order, bindings, eventOrder, events, linkRank); r.C(p) < r.C(c)
  {
    var b := bindings[c];
    assert c in order;
    var i :| 0 <= i < |order| && order[i] == c;
    if p in ArgNames(b.args) {
      assert Refers(bindings, bindings[order[i]].args, p);
      assert p in order[..i];
      var j :| 0 <= j < i && order[j] == p;
      IndexIsUnique(order, bindings.Keys, i);
      IndexIsUnique(order, bindings.Keys, j);
    } else if p in links[b.contractName] {
      assert (p, c) in LinkEdges(bindings, links);
    } else {
      assert b.deployDeps == [];
      var e, d :| BehindHook(g, g.bindings[c], e, d) && p in g.events[d].deps;
      HookKind(b.hooks, e);
      assert false;
    }
  }

  lemma BuiltEventRanks(order: seq<Name>, eventOrder: seq<Name>, events: map<Name, Event>, d: Name, e: Name)
    requires Listed(eventOrder, events.Keys) && EventsReachBack(eventOrder, order, events)
    requires d in events && e in events && d in events[e].eventDeps + events[e].eventUsage
    ensures IndexOf(eventOrder, d) < IndexOf(eventOrder, e)
  {
    assert e in eventOrder;
    var i :| 0 <= i < |eventOrder| && eventOrder[i] == e;
    assert ReachesBack(eventOrder[..i], order, events[e]);
    assert d in eventOrder[..i];
    var j :| 0 <= j < i && eventOrder[j] == d;
    IndexIsUnique(eventOrder, events.Keys, i);
    IndexIsUnique(eventOrder, events.Keys, j);
  }

  lemma AddedEventReachesBack(eventOrder: seq<Name>, events: map<Name, Event>, order: seq<Name>, name: Name,
                              event: Event)
    requires Listed(eventOrder, events.Keys) && name !in events && EventsReachBack(eventOrder, order, events)
    requires ReachesBack(eventOrder, order, event)
    ensures Listed(eventOrder + [name], events[name := event].Keys)
    ensures EventsReachBack(eventOrder + [name], order, events[name := event])
  {
    var eo := eventOrder + [name];
    forall i | 0 <= i < |eo| ensures ReachesBack(eo[..i], order, events[name := event][eo[i]]) {
      if i < |eventOrder| {
        assert eo[..i] == eventOrder[..i] && eo[i] in eventOrder;
      } else {
        assert eo[..i] == eventOrder;
      }
    }
  }
}
