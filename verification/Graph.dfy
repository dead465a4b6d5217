/** The data a module builder hands to the resolver: contract bindings, event
    hooks and the links between them.  JavaScript objects used as maps are
    insertion-ordered maps; a resolved module state is therefore the sequence of
    its keys, the value of a key being the binding or event of that name. */
module Graph {
  import opened Wrappers

  type Name = string

  /** A constructor argument: a plain value, an object that merely has a name, or
      a contract binding, which also carries bytecode.  An object without a name is
      looked up under a name that nothing has. */
  datatype Arg = Value | Named(name: Name) | Contract(name: Name)

  datatype EventType = BeforeCompile | AfterCompile | BeforeDeploy | AfterDeploy | OnChange

  /** The hooks attached to one contract, by kind. */
  datatype Hooks = Hooks(
    beforeCompile: seq<Name>,
    afterCompile: seq<Name>,
    beforeDeploy: seq<Name>,
    afterDeploy: seq<Name>,
    onChange: seq<Name>)

  /** `contractName` is the Solidity contract of the binding, shared by the bindings of
      one template; `deployFn` tells of a custom deploy function, which depends on
      `deployDeps`. */
  datatype Binding = Binding(
    contractName: Name,
    args: seq<Arg>,
    libraries: Option<seq<Name>>,
    deployFn: bool,
    deployDeps: seq<Name>,
    library: bool,
    hooks: Hooks)

  datatype Event = Event(
    eventType: EventType,
    deps: seq<Name>,
    eventDeps: seq<Name>,
    usage: seq<Name>,
    eventUsage: seq<Name>)

  /** `order` is the insertion order of the keys of `bindings`; the last three are
      the names of the module-level events. */
  datatype Module = Module(
    order: seq<Name>,
    bindings: map<Name, Binding>,
    events: map<Name, Event>,
    onStart: seq<Name>,
    onSuccess: seq<Name>,
    onCompletion: seq<Name>)

  function ModuleEvents(g: Module): seq<Name> {
    g.onStart + g.onSuccess + g.onCompletion
  }

  ghost predicate Distinct(names: seq<Name>) {
    forall i, j :: 0 <= i < j < |names| ==> names[i] != names[j]
  }

  predicate IsAfter(e: Event) {
    e.eventType == AfterDeploy || e.eventType == OnChange
  }

  function BeforeHooks(b: Binding): seq<Name> {
    b.hooks.beforeCompile + b.hooks.afterCompile + b.hooks.beforeDeploy
  }

  function AfterHooks(b: Binding): seq<Name> {
    b.hooks.afterDeploy + b.hooks.onChange
  }

  /** The names of the arguments that have one. */
  function ArgNames(args: seq<Arg>): seq<Name> {
    if args == [] then []
    else (if args[0].Value? then [] else [args[0].name]) + ArgNames(args[1..])
  }

  /** The members of `names` that are bound to a contract of the module. */
  function Bound(g: Module, names: seq<Name>): (r: seq<Name>)
    ensures forall n :: n in r <==> n in names && n in g.bindings
  {
    if names == [] then []
    else
      assert names == [names[0]] + names[1..];
      (if names[0] in g.bindings then [names[0]] else []) + Bound(g, names[1..])
  }

  lemma {:induction false} ArgNamesMembers(args: seq<Arg>, n: Name)
    ensures n in ArgNames(args) <==> Named(n) in args || Contract(n) in args
  {
    if args == [] {
    } else {
      assert args == [args[0]] + args[1..];
      ArgNamesMembers(args[1..], n);
    }
  }

  /** Names of arguments, and the bound ones among names, keep their order. */
  lemma {:induction false} ArgNamesInOrder(a: seq<Arg>, b: seq<Arg>, n: Name)
    ensures ArgNames(a + b) == ArgNames(a) + ArgNames(b)
    ensures ArgNames([Value]) == [] && ArgNames([Named(n)]) == [n] && ArgNames([Contract(n)]) == [n]
  {
    assert [Value][1..] == [] && [Named(n)][1..] == [] && [Contract(n)][1..] == [];
    if a == [] {
      assert a + b == b;
    } else {
      assert (a + b)[0] == a[0] && (a + b)[1..] == a[1..] + b;
      ArgNamesInOrder(a[1..], b, n);
    }
  }

  lemma {:induction false} BoundInOrder(g: Module, a: seq<Name>, b: seq<Name>, n: Name)
    ensures Bound(g, a + b) == Bound(g, a) + Bound(g, b)
    ensures Bound(g, [n]) == if n in g.bindings then [n] else []
  {
    assert [n][1..] == [];
    if a == [] {
      assert a + b == b;
    } else {
      assert (a + b)[0] == a[0] && (a + b)[1..] == a[1..] + b;
      BoundInOrder(g, a[1..], b, n);
    }
  }

  /** The links of a compiled contract; none before compilation. */
  function Links(b: Binding): seq<Name> {
    if b.libraries.Some? then b.libraries.value else []
  }

  /** What the builder guarantees of the names it hands out. */
  ghost predicate WellFormed(g: Module) {
    && Distinct(g.order)
    && (forall n :: n in g.order <==> n in g.bindings)
    && g.bindings.Keys !! g.events.Keys
    && (forall n :: n in ModuleEvents(g) ==> n !in g.bindings && n !in g.events)
    && (forall c, e :: c in g.bindings && e in g.events ==>
          var h := g.bindings[c].hooks;
          && (e in h.beforeCompile || e in h.afterCompile || e in h.beforeDeploy ==> !IsAfter(g.events[e]))
          && (e in h.afterDeploy || e in h.onChange ==> IsAfter(g.events[e])))
  }

  /** The contracts that must be placed before `c`'s own entry is written:
      arguments, linked libraries, deploy-function dependencies, and the
      contracts behind the event dependencies of its before-hooks. */
  ghost predicate MustPrecede(g: Module, p: Name, c: Name) {
    && p in g.bindings && c in g.bindings
    && var b := g.bindings[c];
       || p in ArgNames(b.args)
       || p in Links(b)
       || p in b.deployDeps
       || exists e, d :: BehindHook(g, b, e, d) && p in g.events[d].deps
  }

  ghost predicate BehindHook(g: Module, b: Binding, e: Name, d: Name) {
    && e in BeforeHooks(b) && e in g.events
    && d in g.events[e].eventDeps && d in g.events
  }

  /** Event `d` is depended on or used by event `e`. */
  ghost predicate EventPrecedes(g: Module, d: Name, e: Name) {
    && d in g.events && e in g.events
    && (d in g.events[e].eventDeps || d in g.events[e].eventUsage)
  }

  /** Numbers that grow along both relations; `bound` exceeds every contract rank. */
  datatype Ranks = Ranks(contract: map<Name, nat>, event: map<Name, nat>, bound: nat) {
    function C(n: Name): nat { if n in contract then contract[n] else 0 }
    function E(n: Name): nat { if n in event then event[n] else 0 }
  }

  ghost predicate RankedBy(g: Module, r: Ranks) {
    && (forall p, c :: MustPrecede(g, p, c) ==> r.C(p) < r.C(c))
    && (forall d, e :: EventPrecedes(g, d, e) ==> r.E(d) < r.E(e))
    && (forall c :: c in g.bindings ==> r.C(c) < r.bound)
  }

  ghost predicate Rankable(g: Module) {
    exists r :: RankedBy(g, r)
  }

  ghost function RankOf(g: Module): Ranks
    requires Rankable(g)
  {
    var r :| RankedBy(g, r);
    r
  }

  ghost predicate BelowBound(g: Module, names: seq<Name>, bound: nat)
    requires Rankable(g)
  {
    forall n :: n in names && n in g.bindings ==> RankOf(g).C(n) < bound
  }

  ghost predicate EventsBelow(g: Module, names: seq<Name>, bound: nat)
    requires Rankable(g)
  {
    forall n :: n in names && n in g.events ==> RankOf(g).E(n) < bound
  }

  /** Every contract behind an event dependency of `e` ranks below `bound`. */
  ghost predicate BehindBelow(g: Module, e: Name, bound: nat)
    requires Rankable(g)
  {
    e in g.events ==>
      forall d :: d in g.events[e].eventDeps && d in g.events ==> BelowBound(g, g.events[d].deps, bound)
  }

  lemma LinksRankBelow(g: Module, c: Name)
    requires Rankable(g) && c in g.bindings
    ensures BelowBound(g, Bound(g, ArgNames(g.bindings[c].args)), RankOf(g).C(c))
    ensures BelowBound(g, Bound(g, Links(g.bindings[c])), RankOf(g).C(c))
    ensures BelowBound(g, Bound(g, g.bindings[c].deployDeps), RankOf(g).C(c))
    ensures forall e :: e in BeforeHooks(g.bindings[c]) ==> BehindBelow(g, e, RankOf(g).C(c))
  {
    var b := g.bindings[c];
    forall n | n in g.bindings && (n in ArgNames(b.args) || n in Links(b) || n in b.deployDeps)
      ensures RankOf(g).C(n) < RankOf(g).C(c)
    {
      assert MustPrecede(g, n, c);
    }
    forall e, d, n | BehindHook(g, b, e, d) && n in g.events[d].deps && n in g.bindings
      ensures RankOf(g).C(n) < RankOf(g).C(c)
    {
      assert MustPrecede(g, n, c);
    }
    forall e, d | e in BeforeHooks(b) && e in g.events && d in g.events[e].eventDeps && d in g.events
      ensures BelowBound(g, g.events[d].deps, RankOf(g).C(c))
    {
      assert BehindHook(g, b, e, d);
    }
  }

  lemma EventLinksRankBelow(g: Module, e: Name)
    requires Rankable(g) && e in g.events
    ensures EventsBelow(g, g.events[e].eventDeps, RankOf(g).E(e))
    ensures EventsBelow(g, g.events[e].eventUsage, RankOf(g).E(e))
    ensures forall names :: BelowBound(g, names, RankOf(g).bound)
  {
    forall d | d in g.events && (d in g.events[e].eventDeps || d in g.events[e].eventUsage)
      ensures RankOf(g).E(d) < RankOf(g).E(e)
    {
      assert EventPrecedes(g, d, e);
    }
  }
}
