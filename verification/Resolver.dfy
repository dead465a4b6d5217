/** The order in which a module's contracts and hooks are placed in its module
    state, as functions of the state so far. */
module Resolver {
  import opened Graph
  import opened Wrappers

  /** `TypeError` stands for a property read of `undefined`, which is what a name
      missing from the bindings or events leads to. */
  datatype Error =
    | ContractNotCompiled(contract: Name)
    | UsageEventNotFound
    | EventNotResolved(event: Name, dep: Name)
    | TypeError

  /** A step that ends, normally or by a throw, with the state it leaves. */
  datatype Outcome = Done(state: seq<Name>) | Failed(error: Error, state: seq<Name>) {
    predicate IsFailure() { Failed? }
    function PropagateFailure(): Outcome requires Failed? { this }
    function Extract(): seq<Name> requires Done? { state }
  }

  /** Assigning a key that is present keeps its position. */
  function Put(st: seq<Name>, n: Name): seq<Name> {
    if n in st then st else st + [n]
  }

  ghost function Missing(g: Module, st: seq<Name>): set<Name> {
    set n | n in g.bindings && n !in st
  }

  lemma MissingShrinks(g: Module, st: seq<Name>, st': seq<Name>)
    requires st <= st'
    ensures Missing(g, st') <= Missing(g, st)
  {
    forall n | n in st ensures n in st' {
      var i :| 0 <= i < |st| && st[i] == n;
      assert st'[i] == n;
    }
  }

  lemma PlacingShrinks(g: Module, st: seq<Name>, st': seq<Name>, c: Name)
    requires st <= st' && c in g.bindings && c !in st
    ensures Missing(g, Put(st', c)) < Missing(g, st)
  {
    MissingShrinks(g, st, Put(st', c));
    assert c in Missing(g, st) && c !in Missing(g, Put(st', c));
  }

  function ResolveContract(g: Module, st: seq<Name>, c: Name): (r: Outcome)
    requires Rankable(g)
    ensures r.Done? ==> st <= r.state
    decreases Missing(g, st), 0, 2 * RankOf(g).C(c) + 1, 0, 0
  {
    if c in st then Done(st)
    else if c !in g.bindings then Failed(TypeError, st)
    else
      var b := g.bindings[c];
      var st3 :- ResolveLinks(g, st, c);
      MissingShrinks(g, st, st3);
      LinksRankBelow(g, c);
      var st4 :- AddBeforeHooks(g, st3, BeforeHooks(b), RankOf(g).C(c));
      PlacingShrinks(g, st, st4, c);
      AddEvents(g, Put(st4, c), AfterHooks(b))
  }

  /** Constructor arguments, then linked libraries, then the dependencies of a
      custom deploy function; names bound to no contract are skipped. */
  function ResolveLinks(g: Module, st: seq<Name>, c: Name): (r: Outcome)
    requires Rankable(g) && c in g.bindings
    ensures r.Done? ==> st <= r.state
    decreases Missing(g, st), 0, 2 * RankOf(g).C(c), 4, 0
  {
    var b := g.bindings[c];
    LinksRankBelow(g, c);
    var st1 :- ResolveEach(g, st, Bound(g, ArgNames(b.args)), RankOf(g).C(c));
    if b.libraries.None? then Failed(ContractNotCompiled(c), st1)
    else
      MissingShrinks(g, st, st1);
      var st2 :- ResolveEach(g, st1, Bound(g, b.libraries.value), RankOf(g).C(c));
      MissingShrinks(g, st, st2);
      ResolveEach(g, st2, Bound(g, b.deployDeps), RankOf(g).C(c))
  }

  function ResolveEach(g: Module, st: seq<Name>, names: seq<Name>, ghost bound: nat): (r: Outcome)
    requires Rankable(g)
    requires BelowBound(g, names, bound)
    ensures r.Done? ==> st <= r.state
    decreases Missing(g, st), 0, 2 * bound, 1, |names|
  {
    if names == [] then Done(st)
    else if names[0] !in st && names[0] !in g.bindings then Failed(TypeError, st)
    else
      var st1 :- (if names[0] in st then Done(st) else ResolveContract(g, st, names[0]));
      MissingShrinks(g, st, st1);
      ResolveEach(g, st1, names[1..], bound)
  }

  /** The contracts behind the event dependencies of a before-hook. */
  function ResolveBehind(g: Module, st: seq<Name>, eventNames: seq<Name>, ghost bound: nat): (r: Outcome)
    requires Rankable(g)
    requires forall d :: d in eventNames && d in g.events ==> BelowBound(g, g.events[d].deps, bound)
    ensures r.Done? ==> st <= r.state
    decreases Missing(g, st), 0, 2 * bound, 2, |eventNames|
  {
    if eventNames == [] then Done(st)
    else if eventNames[0] !in g.events then Failed(TypeError, st)
    else
      var st1 :- ResolveEach(g, st, g.events[eventNames[0]].deps, bound);
      MissingShrinks(g, st, st1);
      ResolveBehind(g, st1, eventNames[1..], bound)
  }

  /** The error, if any, of checking that the contracts behind the used events are
      placed; the after-deploy check also reads each contract's binding. */
  function UsageError(g: Module, st: seq<Name>, eventNames: seq<Name>, readBindings: bool): Option<Error> {
    if eventNames == [] then None
    else if eventNames[0] !in g.events then Some(TypeError)
    else
      var here := DepsError(g, st, g.events[eventNames[0]].deps, readBindings);
      if here.Some? then here else UsageError(g, st, eventNames[1..], readBindings)
  }

  function DepsError(g: Module, st: seq<Name>, names: seq<Name>, readBindings: bool): Option<Error> {
    if names == [] then None
    else if readBindings && names[0] !in g.bindings then Some(TypeError)
    else if names[0] !in st then Some(UsageEventNotFound)
    else DepsError(g, st, names[1..], readBindings)
  }

  function AddBeforeHooks(g: Module, st: seq<Name>, names: seq<Name>, ghost bound: nat): (r: Outcome)
    requires Rankable(g)
    requires forall e :: e in names ==> BehindBelow(g, e, bound)
    ensures r.Done? ==> st <= r.state
    decreases Missing(g, st), 0, 2 * bound, 3, |names|
  {
    if names == [] then Done(st)
    else if names[0] in st then AddBeforeHooks(g, st, names[1..], bound)
    else if names[0] !in g.events then Failed(TypeError, st)
    else
      var e := g.events[names[0]];
      assert BehindBelow(g, names[0], bound);
      var st1 :- ResolveBehind(g, st, e.eventDeps, bound);
      var error := UsageError(g, st1, e.eventUsage, false);
      if error.Some? then Failed(error.value, st1)
      else
        MissingShrinks(g, st, Put(st1, names[0]));
        AddBeforeHooks(g, Put(st1, names[0]), names[1..], bound)
  }

  function AddEvents(g: Module, st: seq<Name>, names: seq<Name>): (r: Outcome)
    requires Rankable(g)
    ensures r.Done? ==> st <= r.state
    decreases Missing(g, st), 2, 0, 0, |names|
  {
    if names == [] then Done(st)
    else
      var st1 :- AddEvent(g, st, names[0]);
      MissingShrinks(g, st, st1);
      AddEvents(g, st1, names[1..])
  }

  function AddEvent(g: Module, st: seq<Name>, e: Name): (r: Outcome)
    requires Rankable(g)
    ensures r.Done? ==> st <= r.state
    decreases Missing(g, st), 1, 2 * RankOf(g).E(e) + 1, 0, 0
  {
    if e !in g.events then Failed(TypeError, st)
    else
      var event := g.events[e];
      EventLinksRankBelow(g, e);
      var st1 :- ResolveEach(g, st, event.deps, RankOf(g).bound);
      MissingShrinks(g, st, st1);
      var st2 :- ResolveEventDeps(g, st1, e, event.eventDeps, RankOf(g).E(e));
      MissingShrinks(g, st, st2);
      var st3 :- ResolveEach(g, st2, event.usage, RankOf(g).bound);
      var error := UsageError(g, st3, event.eventUsage, true);
      if error.Some? then Failed(error.value, st3) else Done(Put(st3, e))
  }

  /** The event dependencies of `e`, each checked to be placed once resolved. */
  function ResolveEventDeps(g: Module, st: seq<Name>, e: Name, names: seq<Name>, ghost bound: nat): (r: Outcome)
    requires Rankable(g)
    requires EventsBelow(g, names, bound)
    ensures r.Done? ==> st <= r.state
    decreases Missing(g, st), 1, 2 * bound, 1, |names|
  {
    if names == [] then Done(st)
    else if names[0] !in g.events then Failed(TypeError, st)
    else
      var st1 :- ResolveSingle(g, st, names[0]);
      if names[0] !in st1 then Failed(EventNotResolved(e, names[0]), st1)
      else
        MissingShrinks(g, st, st1);
        ResolveEventDeps(g, st1, e, names[1..], bound)
  }

  function ResolveSingle(g: Module, st: seq<Name>, e: Name): (r: Outcome)
    requires Rankable(g)
    requires e in g.events
    ensures r.Done? ==> st <= r.state
    decreases Missing(g, st), 1, 2 * RankOf(g).E(e) + 1, 0, 0
  {
    if e in st then Done(st)
    else
      var event := g.events[e];
      EventLinksRankBelow(g, e);
      var st1 :- ResolveEach(g, st, event.deps, RankOf(g).bound);
      MissingShrinks(g, st, st1);
      var st2 :- ResolveSingles(g, st1, event.eventDeps, RankOf(g).E(e));
      MissingShrinks(g, st, st2);
      var st3 :- ResolveEach(g, st2, event.usage, RankOf(g).bound);
      MissingShrinks(g, st, st3);
      var st4 :- ResolveSingles(g, st3, event.eventUsage, RankOf(g).E(e));
      Done(Put(st4, e))
  }

  function ResolveSingles(g: Module, st: seq<Name>, names: seq<Name>, ghost bound: nat): (r: Outcome)
    requires Rankable(g)
    requires EventsBelow(g, names, bound)
    ensures r.Done? ==> st <= r.state
    decreases Missing(g, st), 1, 2 * bound, 1, |names|
  {
    if names == [] then Done(st)
    else if names[0] !in g.events then Failed(TypeError, st)
    else
      var st1 :- ResolveSingle(g, st, names[0]);
      MissingShrinks(g, st, st1);
      ResolveSingles(g, st1, names[1..], bound)
  }

  /** What must stand before `n` in a resolved state: for a contract its bound
      arguments, linked libraries, deploy-function dependencies and before-hooks;
      for an afterDeploy or onChange hook its dependencies, usages and event
      dependencies. */
  function Needs(g: Module, n: Name): seq<Name> {
    if n in g.bindings then
      var b := g.bindings[n];
      Bound(g, ArgNames(b.args)) + Bound(g, Links(b)) + Bound(g, b.deployDeps) + BeforeHooks(b)
    else if n in g.events && IsAfter(g.events[n]) then
      g.events[n].deps + g.events[n].usage + g.events[n].eventDeps
    else []
  }

  ghost predicate Ready(g: Module, st: seq<Name>, n: Name) {
    && (forall p :: p in Needs(g, n) ==> p in st)
    && (n !in g.bindings && n in g.events ==> SeesBehind(g, st, n))
  }

  /** No event depends on or uses `e`, so that only its contracts can place it. */
  ghost predicate Unasked(g: Module, e: Name) {
    forall d :: d in g.events ==> e !in g.events[d].eventDeps + g.events[d].eventUsage
  }

  /** `e` stands behind the contracts of the event `d` it depends on or uses: always if
      `d` is an afterDeploy or onChange hook, else if only its contracts place `e`, and
      they look behind `d`. */
  ghost predicate LooksBehind(g: Module, e: Name, d: Name) {
    && e in g.events && d in g.events
    && d in g.events[e].eventDeps + g.events[e].eventUsage
    && (IsAfter(g.events[d]) || (Unasked(g, e) && (d in g.events[e].eventUsage || !IsAfter(g.events[e]))))
  }

  ghost predicate SeesBehind(g: Module, st: seq<Name>, e: Name) {
    forall d, p :: LooksBehind(g, e, d) && p in g.events[d].deps ==> p in st
  }

  /** A state in which keys are distinct and everything stands after its needs. */
  ghost predicate Ordered(g: Module, st: seq<Name>) {
    forall i :: 0 <= i < |st| ==> st[i] !in st[..i] && Ready(g, st[..i], st[i])
  }

  ghost predicate HooksPlaced(g: Module, st: seq<Name>, c: Name) {
    c in g.bindings ==>
      forall h :: h in g.bindings[c].hooks.afterDeploy || h in g.bindings[c].hooks.onChange ==> h in st
  }

  /** What a step for `x` goes on to. */
  ghost predicate Touches(g: Module, x: Name, p: Name) {
    if x in g.bindings then
      var b := g.bindings[x];
      || (p in g.bindings && (p in ArgNames(b.args) || p in Links(b) || p in b.deployDeps))
      || p in b.hooks.beforeCompile || p in b.hooks.afterCompile || p in b.hooks.beforeDeploy
      || p in b.hooks.afterDeploy || p in b.hooks.onChange
    else
      && x in g.events
      && (p in g.events[x].deps + g.events[x].eventDeps + g.events[x].usage + g.events[x].eventUsage
          || TouchesBehind(g, x, p))
  }

  /** A before-hook goes on to the contracts behind the events it depends on. */
  ghost predicate TouchesBehind(g: Module, e: Name, p: Name)
    requires e in g.events
  {
    !IsAfter(g.events[e]) && exists d :: d in g.events[e].eventDeps && d in g.events && p in g.events[d].deps
  }

  ghost predicate Declared(g: Module, n: Name) {
    n in g.bindings || n in g.events
  }

  /** What steps for members of `within` go on to from `st` is in `within` or placed. */
  ghost predicate ClosedFrom(g: Module, within: set<Name>, st: seq<Name>) {
    forall x, p :: x in within && x !in st && Touches(g, x, p) && Declared(g, p) ==> p in within || p in st
  }

  ghost predicate Inside(g: Module, within: set<Name>, st: seq<Name>, names: seq<Name>) {
    forall n :: n in names && Declared(g, n) ==> n in within || n in st
  }

  ghost predicate Setting(g: Module, within: set<Name>, o: seq<Name>) {
    WellFormed(g) && Rankable(g) && ClosedFrom(g, within, o)
  }

  /** A compiled contract or an event of the module. */
  ghost predicate Placeable(g: Module, n: Name) {
    Declared(g, n) && (n in g.bindings ==> g.bindings[n].libraries.Some?)
  }

  /** What every completed step of the recursion does to the state: it only adds,
      keeps the order, adds only compiled contracts and events within what it can go on
      to, and leaves no newly placed contract without its after-hooks. */
  ghost predicate Grows(g: Module, within: set<Name>, st: seq<Name>, st': seq<Name>) {
    && st <= st'
    && Ordered(g, st')
    && (forall n :: n in st' && n !in st ==> n in within && Placeable(g, n))
    && (forall c :: c in st' && c !in st ==> HooksPlaced(g, st', c))
  }

  /** A step from `st`: if completed it grew the state; if it throws, the state it
      leaves behind is still an ordered extension, and the error is not that of the
      internal consistency check. */
  ghost predicate Sound(g: Module, within: set<Name>, st: seq<Name>, r: Outcome) {
    match r
    case Done(st') => Grows(g, within, st, st')
    case Failed(error, st') => !error.EventNotResolved? && st <= st' && Ordered(g, st')
  }

  lemma PrefixMember(st: seq<Name>, st': seq<Name>, n: Name)
    requires st <= st' && n in st
    ensures n in st'
  {
    var i :| 0 <= i < |st| && st[i] == n;
    assert st'[i] == n;
  }

  lemma PrefixMembers(st: seq<Name>, st': seq<Name>)
    requires st <= st'
    ensures forall n :: n in st ==> n in st'
  {
    forall n | n in st ensures n in st' { PrefixMember(st, st', n); }
  }

  /** Writing an entry whose needs are met keeps the order. */
  lemma PutKeepsOrder(g: Module, st: seq<Name>, n: Name)
    requires Ordered(g, st) && Ready(g, st, n)
    ensures Ordered(g, Put(st, n))
  {
    var st' := Put(st, n);
    forall i | 0 <= i < |st'| ensures st'[i] !in st'[..i] && Ready(g, st'[..i], st'[i]) {
      if i < |st| { assert st'[..i] == st[..i]; } else { assert st'[..i] == st; }
    }
  }

  lemma PutEventGrows(g: Module, within: set<Name>, o: seq<Name>, st: seq<Name>, e: Name)
    requires WellFormed(g) && Grows(g, within, o, st) && e in g.events && Ready(g, st, e)
    requires e in within || e in o
    ensures Grows(g, within, o, Put(st, e))
  {
    PutKeepsOrder(g, st, e);
    assert e !in g.bindings;
    PrefixMembers(o, st);
    PrefixMembers(st, Put(st, e));
    forall c | c in Put(st, e) && c !in o ensures HooksPlaced(g, Put(st, e), c) {
      if c in st { assert HooksPlaced(g, st, c); }
    }
  }

  /** The same steps, seen from a later state. */
  lemma SettingGrows(g: Module, within: set<Name>, o: seq<Name>, st: seq<Name>)
    requires Setting(g, within, o) && o <= st
    ensures Setting(g, within, st)
    ensures forall names :: Inside(g, within, o, names) ==> Inside(g, within, st, names)
  {
    PrefixMembers(o, st);
  }

  lemma {:induction false} ContractSound(g: Module, within: set<Name>, o: seq<Name>, st: seq<Name>, c: Name)
    requires Setting(g, within, o) && Grows(g, within, o, st) && Inside(g, within, o, [c])
    ensures Sound(g, within, o, ResolveContract(g, st, c))
    ensures ResolveContract(g, st, c).Done? ==> c in ResolveContract(g, st, c).state
    decreases Missing(g, st), 0, 2 * RankOf(g).C(c) + 1, 0, 0
  {
    if c !in st && c in g.bindings {
      var b := g.bindings[c];
      PrefixMembers(o, st);
      assert c in [c] && c in within;
      ContractTouches(g, within, o, c);
      LinksSound(g, within, o, st, c);
      var r3 := ResolveLinks(g, st, c);
      if r3.Failed? { return; }
      MissingShrinks(g, st, r3.state);
      LinksRankBelow(g, c);
      BeforeHooksSound(g, within, o, r3.state, BeforeHooks(b), RankOf(g).C(c));
      var r4 := AddBeforeHooks(g, r3.state, BeforeHooks(b), RankOf(g).C(c));
      if r4.Failed? { return; }
      PrefixMembers(r3.state, r4.state);
      PutKeepsOrder(g, r4.state, c);
      var st5 := Put(r4.state, c);
      PlacingShrinks(g, st, r4.state, c);
      SettingGrows(g, within, o, st5);
      EventsSound(g, within, st5, st5, AfterHooks(b));
      PlacedContractSound(g, within, o, r4.state, c, AddEvents(g, st5, AfterHooks(b)));
    }
  }

  lemma ContractTouches(g: Module, within: set<Name>, o: seq<Name>, c: Name)
    requires WellFormed(g) && ClosedFrom(g, within, o) && c in within && c !in o && c in g.bindings
    ensures var b := g.bindings[c];
            && Inside(g, within, o, Bound(g, ArgNames(b.args)))
            && Inside(g, within, o, Bound(g, Links(b)))
            && Inside(g, within, o, Bound(g, b.deployDeps))
            && Inside(g, within, o, BeforeHooks(b)) && Inside(g, within, o, AfterHooks(b))
            && (forall e :: e in BeforeHooks(b) && e in g.events ==> !IsAfter(g.events[e]))
            && (forall e :: e in AfterHooks(b) && e in g.events ==> IsAfter(g.events[e]))
  {
    var b := g.bindings[c];
    forall p | p in Bound(g, ArgNames(b.args)) + Bound(g, Links(b)) + Bound(g, b.deployDeps)
      ensures p in within || p in o
    {
      assert Touches(g, c, p) && Declared(g, p);
    }
    forall p | p in BeforeHooks(b) + AfterHooks(b) && Declared(g, p) ensures p in within || p in o {
      assert Touches(g, c, p);
    }
  }

  /** A contract entry written between its links and its after-hooks. */
  lemma PlacedContractGrows(g: Module, within: set<Name>, st: seq<Name>, st4: seq<Name>, c: Name, st6: seq<Name>)
    requires c in g.bindings && Grows(g, within, st, st4) && Grows(g, within, Put(st4, c), st6)
    requires HooksPlaced(g, st6, c) && c in within && Placeable(g, c)
    ensures Grows(g, within, st, st6) && c in st6
  {
    var st5 := Put(st4, c);
    PrefixMembers(st4, st5);
    PrefixMembers(st5, st6);
    forall x | x in st6 && x !in st ensures HooksPlaced(g, st6, x) && x in within && Placeable(g, x) {
      if x in st4 { assert HooksPlaced(g, st4, x); }
    }
  }

  lemma PlacedContractSound(g: Module, within: set<Name>, o: seq<Name>, st4: seq<Name>, c: Name, r: Outcome)
    requires c in g.bindings && Grows(g, within, o, st4) && Sound(g, within, Put(st4, c), r)
    requires c in within && Placeable(g, c) && (r.Done? ==> HooksPlaced(g, r.state, c))
    ensures Sound(g, within, o, r) && (r.Done? ==> c in r.state)
  {
    if r.Done? { PlacedContractGrows(g, within, o, st4, c, r.state); }
  }

  lemma {:induction false} LinksSound(g: Module, within: set<Name>, o: seq<Name>, st: seq<Name>, c: Name)
    requires Setting(g, within, o) && Grows(g, within, o, st) && c in g.bindings && c in within && c !in o
    ensures Sound(g, within, o, ResolveLinks(g, st, c))
    ensures ResolveLinks(g, st, c).Done? ==>
              var b := g.bindings[c];
              forall p :: p in Bound(g, ArgNames(b.args)) + Bound(g, Links(b)) + Bound(g, b.deployDeps) ==>
                p in ResolveLinks(g, st, c).state
    decreases Missing(g, st), 0, 2 * RankOf(g).C(c), 4, 0
  {
    var b, bound := g.bindings[c], RankOf(g).C(c);
    var args, deps := Bound(g, ArgNames(b.args)), Bound(g, b.deployDeps);
    LinksRankBelow(g, c);
    ContractTouches(g, within, o, c);
    EachSound(g, within, o, st, args, bound);
    var r1 := ResolveEach(g, st, args, bound);
    if r1.Failed? || b.libraries.None? { return; }
    var libraries := Bound(g, b.libraries.value);
    MissingShrinks(g, st, r1.state);
    TwoSound(g, within, o, r1.state, libraries, deps, bound);
    var r2 := ResolveEach(g, r1.state, libraries, bound);
    if r2.Failed? { return; }
    var r3 := ResolveEach(g, r2.state, deps, bound);
    if r3.Done? { PrefixMembers(r1.state, r3.state); }
  }

  /** Two lists resolved one after the other. */
  lemma {:induction false} TwoSound(g: Module, within: set<Name>, o: seq<Name>, st: seq<Name>, first: seq<Name>,
                                    second: seq<Name>, bound: nat)
    requires Setting(g, within, o) && Grows(g, within, o, st)
    requires Inside(g, within, o, first) && Inside(g, within, o, second)
    requires BelowBound(g, first, bound) && BelowBound(g, second, bound)
    ensures var r1 := ResolveEach(g, st, first, bound);
            && Sound(g, within, o, r1)
            && (r1.Done? ==>
                  var r2 := ResolveEach(g, r1.state, second, bound);
                  && Sound(g, within, o, r2)
                  && (r2.Done? ==> st <= r2.state && forall n :: n in first + second ==> n in r2.state))
    decreases Missing(g, st), 0, 2 * bound, 3, 0
  {
    EachSound(g, within, o, st, first, bound);
    var r1 := ResolveEach(g, st, first, bound);
    if r1.Failed? { return; }
    MissingShrinks(g, st, r1.state);
    EachSound(g, within, o, r1.state, second, bound);
    var r2 := ResolveEach(g, r1.state, second, bound);
    if r2.Done? { PrefixMembers(r1.state, r2.state); }
  }

  lemma {:induction false} EachSound(g: Module, within: set<Name>, o: seq<Name>, st: seq<Name>, names: seq<Name>,
                                     bound: nat)
    requires Setting(g, within, o) && Grows(g, within, o, st) && Inside(g, within, o, names)
    requires BelowBound(g, names, bound)
    ensures Sound(g, within, o, ResolveEach(g, st, names, bound))
    ensures ResolveEach(g, st, names, bound).Done? ==>
              forall n :: n in names ==> n in ResolveEach(g, st, names, bound).state
    decreases Missing(g, st), 0, 2 * bound, 1, |names|
  {
    if names == [] { return; }
    var rest := names[1..];
    if names[0] in st {
      EachSound(g, within, o, st, rest, bound);
      FirstPlaced(st, names, ResolveEach(g, st, rest, bound));
    } else if names[0] in g.bindings {
      ContractSound(g, within, o, st, names[0]);
      var r1 := ResolveContract(g, st, names[0]);
      if r1.Failed? { return; }
      MissingShrinks(g, st, r1.state);
      EachSound(g, within, o, r1.state, rest, bound);
      FirstPlaced(r1.state, names, ResolveEach(g, r1.state, rest, bound));
    }
  }

  lemma FirstPlaced(st: seq<Name>, names: seq<Name>, r: Outcome)
    requires names != [] && names[0] in st
    requires r.Done? ==> st <= r.state && forall n :: n in names[1..] ==> n in r.state
    ensures r.Done? ==> forall n :: n in names ==> n in r.state
  {
    if r.Done? {
      PrefixMember(st, r.state, names[0]);
      assert names == [names[0]] + names[1..];
    }
  }

  /** The contracts behind these events are placed. */
  ghost predicate PlacedBehind(g: Module, st: seq<Name>, eventNames: seq<Name>) {
    forall d, p :: d in eventNames && d in g.events && p in g.events[d].deps ==> p in st
  }

  lemma {:induction false} BehindSound(g: Module, within: set<Name>, o: seq<Name>, st: seq<Name>, eventNames: seq<Name>,
                                       bound: nat)
    requires Setting(g, within, o) && Grows(g, within, o, st)
    requires forall d :: d in eventNames && d in g.events ==> Inside(g, within, o, g.events[d].deps)
    requires forall d :: d in eventNames && d in g.events ==> BelowBound(g, g.events[d].deps, bound)
    ensures Sound(g, within, o, ResolveBehind(g, st, eventNames, bound))
    ensures ResolveBehind(g, st, eventNames, bound).Done? ==>
              PlacedBehind(g, ResolveBehind(g, st, eventNames, bound).state, eventNames)
    decreases Missing(g, st), 0, 2 * bound, 2, |eventNames|
  {
    if eventNames == [] {
    } else if eventNames[0] in g.events {
      assert eventNames == [eventNames[0]] + eventNames[1..];
      var deps := g.events[eventNames[0]].deps;
      EachSound(g, within, o, st, deps, bound);
      var r1 := ResolveEach(g, st, deps, bound);
      if r1.Done? {
        MissingShrinks(g, st, r1.state);
        BehindSound(g, within, o, r1.state, eventNames[1..], bound);
        var r := ResolveBehind(g, r1.state, eventNames[1..], bound);
        if r.Done? { PrefixMembers(r1.state, r.state); }
      }
    }
  }

  /** The usage check passes exactly when every used event exists and every contract
      behind one is placed (and, for the check that reads it, bound); with all of these
      names known the error is always that of a used event that is not present. */
  lemma {:induction false} UsageErrorIff(g: Module, st: seq<Name>, eventNames: seq<Name>, readBindings: bool)
    ensures var r := UsageError(g, st, eventNames, readBindings);
            && (r.None? <==> forall d :: d in eventNames ==>
                  d in g.events && DepsFound(g, st, g.events[d].deps, readBindings))
            && (r.Some? ==> r.value == UsageEventNotFound || r.value == TypeError)
            && (AllBound(g, eventNames) && r.Some? ==> r.value == UsageEventNotFound)
  {
    if eventNames == [] {
    } else {
      assert eventNames == [eventNames[0]] + eventNames[1..];
      if eventNames[0] in g.events { DepsErrorIff(g, st, g.events[eventNames[0]].deps, readBindings); }
      UsageErrorIff(g, st, eventNames[1..], readBindings);
    }
  }

  ghost predicate DepsFound(g: Module, st: seq<Name>, names: seq<Name>, readBindings: bool) {
    forall p :: p in names ==> p in st && (readBindings ==> p in g.bindings)
  }

  ghost predicate AllBound(g: Module, eventNames: seq<Name>) {
    forall d :: d in eventNames ==> d in g.events && forall p :: p in g.events[d].deps ==> p in g.bindings
  }

  lemma {:induction false} DepsErrorIff(g: Module, st: seq<Name>, names: seq<Name>, readBindings: bool)
    ensures var r := DepsError(g, st, names, readBindings);
            && (r.None? <==> DepsFound(g, st, names, readBindings))
            && (r.Some? ==> r.value == UsageEventNotFound || r.value == TypeError)
            && ((forall p :: p in names ==> p in g.bindings) && r.Some? ==> r.value == UsageEventNotFound)
  {
    if names == [] {
    } else {
      assert names == [names[0]] + names[1..];
      DepsErrorIff(g, st, names[1..], readBindings);
    }
  }

  lemma UsagesFound(g: Module, st: seq<Name>, eventNames: seq<Name>, readBindings: bool)
    requires UsageError(g, st, eventNames, readBindings).None?
    ensures PlacedBehind(g, st, eventNames)
  {
    UsageErrorIff(g, st, eventNames, readBindings);
    forall d, p | d in eventNames && d in g.events && p in g.events[d].deps ensures p in st {
      assert DepsFound(g, st, g.events[d].deps, readBindings);
    }
  }

  lemma {:induction false} BeforeHooksSound(g: Module, within: set<Name>, o: seq<Name>, st: seq<Name>, names: seq<Name>,
                                            bound: nat)
    requires Setting(g, within, o) && Grows(g, within, o, st) && Inside(g, within, o, names)
    requires forall e :: e in names ==> BehindBelow(g, e, bound)
    requires forall e :: e in names && e in g.events ==> !IsAfter(g.events[e])
    ensures Sound(g, within, o, AddBeforeHooks(g, st, names, bound))
    ensures AddBeforeHooks(g, st, names, bound).Done? ==>
              forall e :: e in names ==> e in AddBeforeHooks(g, st, names, bound).state
    decreases Missing(g, st), 0, 2 * bound, 3, |names|
  {
    if names == [] { return; }
    assert names == [names[0]] + names[1..];
    var e := names[0];
    if e in st {
      BeforeHooksSound(g, within, o, st, names[1..], bound);
      var r := AddBeforeHooks(g, st, names[1..], bound);
      if r.Done? { PrefixMembers(st, r.state); }
    } else if e in g.events {
      assert BehindBelow(g, e, bound);
      PrefixMembers(o, st);
      BeforeHookTouches(g, within, o, e);
      BehindSound(g, within, o, st, g.events[e].eventDeps, bound);
      var r1 := ResolveBehind(g, st, g.events[e].eventDeps, bound);
      if r1.Failed? { return; }
      UsageErrorIff(g, r1.state, g.events[e].eventUsage, false);
      if UsageError(g, r1.state, g.events[e].eventUsage, false).Some? { return; }
      UsagesFound(g, r1.state, g.events[e].eventUsage, false);
      PutEventGrows(g, within, o, r1.state, e);
      var st2 := Put(r1.state, e);
      MissingShrinks(g, st, st2);
      BeforeHooksSound(g, within, o, st2, names[1..], bound);
      var r := AddBeforeHooks(g, st2, names[1..], bound);
      if r.Done? { PrefixMembers(st2, r.state); }
    }
  }

  lemma BeforeHookTouches(g: Module, within: set<Name>, o: seq<Name>, e: Name)
    requires WellFormed(g) && ClosedFrom(g, within, o) && e in within && e !in o && e in g.events
    requires !IsAfter(g.events[e])
    ensures forall d :: d in g.events[e].eventDeps && d in g.events ==> Inside(g, within, o, g.events[d].deps)
  {
    forall d, p | d in g.events[e].eventDeps && d in g.events && p in g.events[d].deps && Declared(g, p)
      ensures p in within || p in o
    {
      assert TouchesBehind(g, e, p);
      assert Touches(g, e, p);
    }
  }

  lemma {:induction false} EventsSound(g: Module, within: set<Name>, o: seq<Name>, st: seq<Name>, names: seq<Name>)
    requires Setting(g, within, o) && Grows(g, within, o, st) && Inside(g, within, o, names)
    requires forall e :: e in names && e in g.events ==> IsAfter(g.events[e])
    ensures Sound(g, within, o, AddEvents(g, st, names))
    ensures AddEvents(g, st, names).Done? ==> forall e :: e in names ==> e in AddEvents(g, st, names).state
    decreases Missing(g, st), 2, 0, 0, |names|
  {
    if names == [] {
    } else {
      assert names == [names[0]] + names[1..];
      EventSound(g, within, o, st, names[0]);
      var r1 := AddEvent(g, st, names[0]);
      if r1.Done? {
        MissingShrinks(g, st, r1.state);
        EventsSound(g, within, o, r1.state, names[1..]);
        var r := AddEvents(g, r1.state, names[1..]);
        if r.Done? { PrefixMembers(r1.state, r.state); }
      }
    }
  }

  lemma {:induction false} EventSound(g: Module, within: set<Name>, o: seq<Name>, st: seq<Name>, e: Name)
    requires Setting(g, within, o) && Grows(g, within, o, st) && Inside(g, within, o, [e])
    requires e in g.events ==> IsAfter(g.events[e])
    ensures Sound(g, within, o, AddEvent(g, st, e))
    ensures AddEvent(g, st, e).Done? ==> e in AddEvent(g, st, e).state
    decreases Missing(g, st), 1, 2 * RankOf(g).E(e) + 1, 0, 0
  {
    if e in g.events {
      var event := g.events[e];
      EventLinksRankBelow(g, e);
      assert e in [e];
      EventTouches(g, within, o, st, e);
      EachSound(g, within, o, st, event.deps, RankOf(g).bound);
      var r1 := ResolveEach(g, st, event.deps, RankOf(g).bound);
      if r1.Failed? { return; }
      MissingShrinks(g, st, r1.state);
      EventDepsSound(g, within, o, r1.state, e, event.eventDeps, RankOf(g).E(e));
      var r2 := ResolveEventDeps(g, r1.state, e, event.eventDeps, RankOf(g).E(e));
      if r2.Failed? { return; }
      MissingShrinks(g, st, r2.state);
      EachSound(g, within, o, r2.state, event.usage, RankOf(g).bound);
      var r3 := ResolveEach(g, r2.state, event.usage, RankOf(g).bound);
      if r3.Failed? { return; }
      UsageErrorIff(g, r3.state, event.eventUsage, true);
      if UsageError(g, r3.state, event.eventUsage, true).Some? { return; }
      UsagesFound(g, r3.state, event.eventUsage, true);
      FinishEvent(g, within, o, r1.state, r2.state, r3.state, e);
    }
  }

  /** What an after-hook goes on to is in reach, or placed with the hook. */
  lemma EventTouches(g: Module, within: set<Name>, o: seq<Name>, st: seq<Name>, e: Name)
    requires Setting(g, within, o) && Grows(g, within, o, st) && e in g.events && IsAfter(g.events[e])
    requires e in within || e in o
    ensures var event := g.events[e];
            && Inside(g, within, o, event.deps) && Inside(g, within, o, event.eventDeps)
            && Inside(g, within, o, event.usage)
            && forall d :: d in event.eventDeps ==> !Unasked(g, d)
  {
    var event := g.events[e];
    forall p | p in event.deps + event.eventDeps + event.usage && Declared(g, p) ensures p in within || p in o {
      if e in o {
        var i :| 0 <= i < |o| && o[i] == e;
        assert st[i] == e && st[..i] == o[..i] && Ready(g, st[..i], e);
        assert p in Needs(g, e);
      } else {
        assert Touches(g, e, p);
      }
    }
    forall d | d in event.eventDeps ensures !Unasked(g, d) { assert d in event.eventDeps + event.eventUsage; }
  }

  /** Once deps, event deps and usages are placed in turn, the event may be. */
  lemma FinishEvent(g: Module, within: set<Name>, o: seq<Name>, st1: seq<Name>, st2: seq<Name>, st3: seq<Name>, e: Name)
    requires WellFormed(g) && e in g.events && (e in within || e in o)
    requires Grows(g, within, o, st3) && st1 <= st2 <= st3
    requires forall n :: n in g.events[e].deps ==> n in st1
    requires forall n :: n in g.events[e].eventDeps ==> n in st2
    requires forall n :: n in g.events[e].usage ==> n in st3
    requires IsAfter(g.events[e]) && PlacedBehind(g, st3, g.events[e].eventUsage)
    ensures Grows(g, within, o, Put(st3, e)) && e in Put(st3, e)
  {
    PrefixMembers(st1, st3);
    PrefixMembers(st2, st3);
    assert e !in g.bindings;
    forall d, p | LooksBehind(g, e, d) && p in g.events[d].deps ensures p in st3 {
      if d in g.events[e].eventDeps && IsAfter(g.events[d]) { PlacedNeeds(g, st3, d, p); }
    }
    PutEventGrows(g, within, o, st3, e);
  }

  /** The same for an event resolved on its own, with the events it uses. */
  lemma FinishSingle(g: Module, within: set<Name>, o: seq<Name>, st1: seq<Name>, st2: seq<Name>, st3: seq<Name>,
                     st4: seq<Name>, e: Name)
    requires WellFormed(g) && e in g.events && (e in within || e in o) && !Unasked(g, e)
    requires Grows(g, within, o, st4) && st1 <= st2 <= st3 <= st4
    requires forall n :: n in g.events[e].deps ==> n in st1
    requires forall n :: n in g.events[e].eventDeps ==> n in st2
    requires forall n :: n in g.events[e].usage ==> n in st3
    requires forall n :: n in g.events[e].eventUsage ==> n in st4
    ensures Grows(g, within, o, Put(st4, e)) && e in Put(st4, e)
  {
    PrefixMembers(st1, st4);
    PrefixMembers(st2, st4);
    PrefixMembers(st3, st4);
    assert e !in g.bindings;
    forall d, p | LooksBehind(g, e, d) && p in g.events[d].deps ensures p in st4 { PlacedNeeds(g, st4, d, p); }
    PutEventGrows(g, within, o, st4, e);
  }

  lemma {:induction false} EventDepsSound(g: Module, within: set<Name>, o: seq<Name>, st: seq<Name>, e: Name,
                                          names: seq<Name>, bound: nat)
    requires Setting(g, within, o) && Grows(g, within, o, st) && Inside(g, within, o, names)
    requires EventsBelow(g, names, bound) && forall d :: d in names ==> !Unasked(g, d)
    ensures Sound(g, within, o, ResolveEventDeps(g, st, e, names, bound))
    ensures ResolveEventDeps(g, st, e, names, bound).Done? ==>
              forall n :: n in names ==> n in ResolveEventDeps(g, st, e, names, bound).state
    decreases Missing(g, st), 1, 2 * bound, 1, |names|
  {
    if names == [] {
    } else if names[0] in g.events {
      assert names == [names[0]] + names[1..];
      SingleSound(g, within, o, st, names[0]);
      var r1 := ResolveSingle(g, st, names[0]);
      if r1.Done? {
        MissingShrinks(g, st, r1.state);
        EventDepsSound(g, within, o, r1.state, e, names[1..], bound);
        var r := ResolveEventDeps(g, r1.state, e, names[1..], bound);
        if r.Done? { PrefixMembers(r1.state, r.state); }
      }
    }
  }

  lemma {:induction false} SingleSound(g: Module, within: set<Name>, o: seq<Name>, st: seq<Name>, e: Name)
    requires Setting(g, within, o) && Grows(g, within, o, st) && Inside(g, within, o, [e])
    requires e in g.events && !Unasked(g, e)
    ensures Sound(g, within, o, ResolveSingle(g, st, e))
    ensures ResolveSingle(g, st, e).Done? ==> e in ResolveSingle(g, st, e).state
    decreases Missing(g, st), 1, 2 * RankOf(g).E(e) + 1, 0, 0
  {
    if e !in st {
      var event := g.events[e];
      EventLinksRankBelow(g, e);
      PrefixMembers(o, st);
      assert e in [e] && e in within;
      SingleTouches(g, within, o, e);
      PairSound(g, within, o, st, event.deps, event.eventDeps, RankOf(g).E(e));
      var r1 := ResolveEach(g, st, event.deps, RankOf(g).bound);
      if r1.Failed? { return; }
      var r2 := ResolveSingles(g, r1.state, event.eventDeps, RankOf(g).E(e));
      if r2.Failed? { return; }
      MissingShrinks(g, st, r2.state);
      PairSound(g, within, o, r2.state, event.usage, event.eventUsage, RankOf(g).E(e));
      var r3 := ResolveEach(g, r2.state, event.usage, RankOf(g).bound);
      if r3.Failed? { return; }
      var r4 := ResolveSingles(g, r3.state, event.eventUsage, RankOf(g).E(e));
      if r4.Failed? { return; }
      FinishSingle(g, within, o, r1.state, r2.state, r3.state, r4.state, e);
    }
  }

  /** Contracts and then events resolved on their own. */
  lemma {:induction false} PairSound(g: Module, within: set<Name>, o: seq<Name>, st: seq<Name>, names: seq<Name>,
                                     events: seq<Name>, bound: nat)
    requires Setting(g, within, o) && Grows(g, within, o, st)
    requires Inside(g, within, o, names) && Inside(g, within, o, events)
    requires BelowBound(g, names, RankOf(g).bound) && EventsBelow(g, events, bound)
    requires forall d :: d in events ==> !Unasked(g, d)
    ensures var r1 := ResolveEach(g, st, names, RankOf(g).bound);
            && Sound(g, within, o, r1)
            && (r1.Done? ==>
                  && (forall n :: n in names ==> n in r1.state)
                  && var r2 := ResolveSingles(g, r1.state, events, bound);
                     Sound(g, within, o, r2) && (r2.Done? ==> forall n :: n in events ==> n in r2.state))
    decreases Missing(g, st), 1, 2 * bound, 2, 0
  {
    EachSound(g, within, o, st, names, RankOf(g).bound);
    var r1 := ResolveEach(g, st, names, RankOf(g).bound);
    if r1.Done? {
      MissingShrinks(g, st, r1.state);
      SinglesSound(g, within, o, r1.state, events, bound);
    }
  }

  /** An event that is resolved on its own leaves everything it names in the state. */
  lemma SingleHolds(g: Module, within: set<Name>, o: seq<Name>, st: seq<Name>, e: Name)
    requires Setting(g, within, o) && Grows(g, within, o, st) && Inside(g, within, o, [e])
    requires e in g.events && !Unasked(g, e) && e !in st && ResolveSingle(g, st, e).Done?
    ensures var event, st' := g.events[e], ResolveSingle(g, st, e).state;
            && (forall n :: n in event.deps ==> n in st') && (forall n :: n in event.eventDeps ==> n in st')
            && (forall n :: n in event.usage ==> n in st') && (forall n :: n in event.eventUsage ==> n in st')
  {
    var event := g.events[e];
    EventLinksRankBelow(g, e);
    PrefixMembers(o, st);
    assert e in [e] && e in within;
    SingleTouches(g, within, o, e);
    EachSound(g, within, o, st, event.deps, RankOf(g).bound);
    var st1 := ResolveEach(g, st, event.deps, RankOf(g).bound).state;
    SinglesSound(g, within, o, st1, event.eventDeps, RankOf(g).E(e));
    var st2 := ResolveSingles(g, st1, event.eventDeps, RankOf(g).E(e)).state;
    EachSound(g, within, o, st2, event.usage, RankOf(g).bound);
    var st3 := ResolveEach(g, st2, event.usage, RankOf(g).bound).state;
    SinglesSound(g, within, o, st3, event.eventUsage, RankOf(g).E(e));
    var st' := ResolveSingle(g, st, e).state;
    PrefixMembers(st1, st');
    PrefixMembers(st2, st');
    PrefixMembers(st3, st');
  }

  lemma SingleTouches(g: Module, within: set<Name>, o: seq<Name>, e: Name)
    requires WellFormed(g) && ClosedFrom(g, within, o) && e in within && e !in o && e in g.events
    ensures var event := g.events[e];
            && Inside(g, within, o, event.deps) && Inside(g, within, o, event.eventDeps)
            && Inside(g, within, o, event.usage) && Inside(g, within, o, event.eventUsage)
            && forall d :: d in event.eventDeps + event.eventUsage ==> !Unasked(g, d)
  {
    var event := g.events[e];
    forall p | p in event.deps + event.eventDeps + event.usage + event.eventUsage && Declared(g, p)
      ensures p in within || p in o
    {
      assert Touches(g, e, p);
    }
  }

  lemma {:induction false} SinglesSound(g: Module, within: set<Name>, o: seq<Name>, st: seq<Name>, names: seq<Name>,
                                        bound: nat)
    requires Setting(g, within, o) && Grows(g, within, o, st) && Inside(g, within, o, names)
    requires EventsBelow(g, names, bound) && forall d :: d in names ==> !Unasked(g, d)
    ensures Sound(g, within, o, ResolveSingles(g, st, names, bound))
    ensures ResolveSingles(g, st, names, bound).Done? ==>
              forall n :: n in names ==> n in ResolveSingles(g, st, names, bound).state
    decreases Missing(g, st), 1, 2 * bound, 1, |names|
  {
    if names == [] {
    } else if names[0] in g.events {
      assert names == [names[0]] + names[1..];
      SingleSound(g, within, o, st, names[0]);
      var r1 := ResolveSingle(g, st, names[0]);
      if r1.Done? {
        MissingShrinks(g, st, r1.state);
        SinglesSound(g, within, o, r1.state, names[1..], bound);
        var r := ResolveSingles(g, r1.state, names[1..], bound);
        if r.Done? { PrefixMembers(r1.state, r.state); }
      }
    }
  }

  function PutAll(st: seq<Name>, names: seq<Name>): (r: seq<Name>)
    ensures st <= r && forall n :: n in r <==> n in st || n in names
    decreases |names|
  {
    if names == [] then st
    else
      assert names == [names[0]] + names[1..];
      PutAll(Put(st, names[0]), names[1..])
  }

  /** The whole resolution: onStart events, every binding in insertion order that
      is not placed yet, then onSuccess and onCompletion events. */
  function Resolve(g: Module): Outcome
    requires Rankable(g)
  {
    var st :- ResolveEach(g, PutAll([], g.onStart), g.order, AllBelow(g));
    Done(PutAll(PutAll(st, g.onSuccess), g.onCompletion))
  }

  ghost function AllBelow(g: Module): (bound: nat)
    requires Rankable(g)
    ensures BelowBound(g, g.order, bound)
  {
    var r := RankOf(g);
    assert RankedBy(g, r);
    r.bound
  }

  lemma {:induction false} PutAllKeepsOrder(g: Module, st: seq<Name>, names: seq<Name>)
    requires WellFormed(g) && Ordered(g, st)
    requires forall n :: n in names ==> n !in g.bindings && n !in g.events
    ensures Ordered(g, PutAll(st, names))
    decreases |names|
  {
    if names == [] {
    } else {
      PutKeepsOrder(g, st, names[0]);
      PutAllKeepsOrder(g, Put(st, names[0]), names[1..]);
    }
  }

  /** Everything a module declares. */
  ghost function All(g: Module): set<Name> {
    g.bindings.Keys + g.events.Keys
  }

  lemma AllIsSetting(g: Module, o: seq<Name>)
    requires WellFormed(g) && Rankable(g)
    ensures Setting(g, All(g), o) && forall names :: Inside(g, All(g), o, names)
  {
  }

  /** `h` stands before `c`. */
  ghost predicate StandsBefore(st: seq<Name>, h: Name, c: Name) {
    exists i :: 0 <= i < |st| && st[i] == c && h in st[..i]
  }

  /** Every beforeCompile, afterCompile and beforeDeploy hook of `c` stands before it, and
      every afterDeploy and onChange hook is in the state. */
  ghost predicate AllHooksPlaced(g: Module, st: seq<Name>, c: Name)
    requires c in g.bindings
  {
    var h := g.bindings[c].hooks;
    && (forall e :: e in h.beforeCompile ==> StandsBefore(st, e, c))
    && (forall e :: e in h.afterCompile ==> StandsBefore(st, e, c))
    && (forall e :: e in h.beforeDeploy ==> StandsBefore(st, e, c))
    && (forall e :: e in h.afterDeploy ==> e in st)
    && (forall e :: e in h.onChange ==> e in st)
  }

  /** The resolved state is ordered; it holds every contract, all compiled, with all its
      hooks and every module event, and nothing that is not in the module; onStart events come
      first; and the internal consistency error cannot arise. */
  lemma ResolvedState(g: Module)
    requires WellFormed(g) && Rankable(g)
    ensures Resolve(g).Failed? ==> !Resolve(g).error.EventNotResolved? && Ordered(g, Resolve(g).state)
    ensures Resolve(g).Done? ==>
              var st := Resolve(g).state;
              Ordered(g, st) && PutAll([], g.onStart) <= st && Complete(g, st)
  {
    var st0 := PutAll([], g.onStart);
    MainSound(g);
    var r1 := ResolveEach(g, st0, g.order, AllBelow(g));
    if r1.Done? { ClosingKeeps(g, st0, r1.state); }
  }

  /** Every contract with all its hooks, every module event, and nothing else. */
  ghost predicate Complete(g: Module, st: seq<Name>) {
    && (forall c :: c in g.bindings ==> c in st && AllHooksPlaced(g, st, c) && g.bindings[c].libraries.Some?)
    && (forall n :: n in ModuleEvents(g) ==> n in st)
    && (forall n :: n in st ==> n in g.bindings || n in g.events || n in ModuleEvents(g))
  }

  lemma ClosingKeeps(g: Module, st0: seq<Name>, st1: seq<Name>)
    requires WellFormed(g) && Grows(g, All(g), st0, st1) && st0 == PutAll([], g.onStart)
    requires forall c :: c in g.bindings ==> c in st1 && c !in st0
    ensures var st := PutAll(PutAll(st1, g.onSuccess), g.onCompletion);
            Ordered(g, st) && st0 <= st && Complete(g, st)
  {
    PrefixMembers(st0, st1);
    PutAllKeepsOrder(g, st1, g.onSuccess);
    var st2 := PutAll(st1, g.onSuccess);
    PutAllKeepsOrder(g, st2, g.onCompletion);
    var st := PutAll(st2, g.onCompletion);
    forall c | c in g.bindings ensures c in st && AllHooksPlaced(g, st, c) && g.bindings[c].libraries.Some? {
      HooksArePlaced(g, st0, st1, st, c);
    }
  }

  /** The bindings resolved in turn behind the onStart events. */
  lemma MainSound(g: Module)
    requires WellFormed(g) && Rankable(g)
    ensures var st0 := PutAll([], g.onStart);
            var r := ResolveEach(g, st0, g.order, AllBelow(g));
            && Sound(g, All(g), st0, r)
            && (r.Done? ==> forall c :: c in g.bindings ==> c in r.state && c !in st0)
  {
    var st0 := PutAll([], g.onStart);
    PutAllKeepsOrder(g, [], g.onStart);
    AllIsSetting(g, st0);
    assert Grows(g, All(g), st0, st0);
    EachSound(g, All(g), st0, st0, g.order, AllBelow(g));
    forall c | c in g.bindings ensures c !in st0 {
      assert c in g.onStart ==> c in ModuleEvents(g);
    }
  }

  lemma HooksArePlaced(g: Module, st0: seq<Name>, st1: seq<Name>, st: seq<Name>, c: Name)
    requires WellFormed(g) && Grows(g, All(g), st0, st1) && c in g.bindings && c in st1 && c !in st0
    requires (forall n :: n in st1 ==> n in st) && Ordered(g, st)
    ensures AllHooksPlaced(g, st, c) && g.bindings[c].libraries.Some?
  {
    var i :| 0 <= i < |st| && st[i] == c;
    assert Ready(g, st[..i], c);
    assert forall e :: e in BeforeHooks(g.bindings[c]) ==> e in Needs(g, c);
    assert HooksPlaced(g, st1, c);
  }

  /** The onSuccess and onCompletion events come after all contracts. */
  lemma ClosingEventsComeLast(g: Module, i: nat)
    requires WellFormed(g) && Rankable(g) && Resolve(g).Done? && i < |Resolve(g).state|
    requires Resolve(g).state[i] in g.onSuccess + g.onCompletion && Resolve(g).state[i] !in g.onStart
    ensures forall c :: c in g.bindings ==> c in Resolve(g).state[..i]
  {
    var st0, st := PutAll([], g.onStart), Resolve(g).state;
    PutAllKeepsOrder(g, [], g.onStart);
    AllIsSetting(g, st0);
    EachSound(g, All(g), st0, st0, g.order, AllBelow(g));
    var st1 := ResolveEach(g, st0, g.order, AllBelow(g)).state;
    assert Grows(g, All(g), st0, st1) && st1 <= st;
    assert st[i] in ModuleEvents(g) && st[i] !in st0;
    NewStandsBehind(st1, st, i);
    PrefixMembers(st1, st[..i]);
  }

  lemma {:induction false} PutAllAppends(st: seq<Name>, names: seq<Name>)
    requires Distinct(names)
    requires forall n :: n in names ==> n !in st
    ensures PutAll(st, names) == st + names
    decreases |names|
  {
    if names == [] {
    } else {
      RestIsFresh(st, names);
      PutAllAppends(st + [names[0]], names[1..]);
    }
  }

  lemma RestIsFresh(st: seq<Name>, names: seq<Name>)
    requires names != [] && Distinct(names) && forall n :: n in names ==> n !in st
    ensures Distinct(names[1..]) && (forall n :: n in names[1..] ==> n !in st + [names[0]])
    ensures Put(st, names[0]) == st + [names[0]] && st + [names[0]] + names[1..] == st + names
  {
    var first, rest := [names[0]], names[1..];
    assert names == first + rest;
    forall n | n in rest ensures n !in st + first {
      var i :| 0 <= i < |rest| && rest[i] == n;
      assert names[i + 1] == n && names[0] != names[i + 1];
    }
    assert st + first + rest == st + (first + rest);
  }

  /** Module events keep their order: those of onStart begin the state, those of onSuccess
      and onCompletion end it, if no name is that of two of them. */
  lemma ModuleEventsInTurn(g: Module) returns (mid: seq<Name>)
    requires WellFormed(g) && Rankable(g) && Resolve(g).Done?
    requires Distinct(ModuleEvents(g))
    ensures Resolve(g).state == g.onStart + mid + g.onSuccess + g.onCompletion
    ensures forall n :: n in mid ==> n in g.bindings || n in g.events
  {
    var a, b, c := g.onStart, g.onSuccess, g.onCompletion;
    PartsAreDistinct(a, b, c);
    mid := MainNames(g);
    forall n | n in b + c ensures n !in a && n !in mid { assert n in ModuleEvents(g); }
    ClosingAppended(a + mid, a, mid, b, c);
  }

  lemma MainNames(g: Module) returns (mid: seq<Name>)
    requires WellFormed(g) && Rankable(g) && Resolve(g).Done? && Distinct(g.onStart)
    ensures Resolve(g).state == PutAll(PutAll(g.onStart + mid, g.onSuccess), g.onCompletion)
    ensures forall n :: n in mid ==> n in g.bindings || n in g.events
  {
    var st := MainPhase(g);
    mid := st[|g.onStart|..];
    assert st == g.onStart + mid;
  }

  /** The state between the module events that come first and those that come last. */
  lemma MainPhase(g: Module) returns (st: seq<Name>)
    requires WellFormed(g) && Rankable(g) && Resolve(g).Done? && Distinct(g.onStart)
    ensures g.onStart <= st && forall n :: n in st[|g.onStart|..] ==> Declared(g, n)
    ensures Resolve(g).state == PutAll(PutAll(st, g.onSuccess), g.onCompletion)
  {
    var a := g.onStart;
    PutAllAppends([], a);
    assert [] + a == a;
    PutAllKeepsOrder(g, [], a);
    AllIsSetting(g, a);
    EachSound(g, All(g), a, a, g.order, AllBelow(g));
    st := ResolveEach(g, a, g.order, AllBelow(g)).state;
    MidIsNew(g, a, st);
  }

  lemma PartsAreDistinct(a: seq<Name>, b: seq<Name>, c: seq<Name>)
    requires Distinct(a + b + c)
    ensures Distinct(a) && Distinct(b) && Distinct(c)
    ensures (forall n :: n in b ==> n !in a) && forall n :: n in c ==> n !in a && n !in b
  {
    var es := a + b + c;
    forall i, j | 0 <= i < j < |a| ensures a[i] != a[j] { assert es[i] == a[i] && es[j] == a[j]; }
    forall i, j | 0 <= i < j < |b| ensures b[i] != b[j] { assert es[|a| + i] == b[i] && es[|a| + j] == b[j]; }
    forall i, j | 0 <= i < j < |c| ensures c[i] != c[j] {
      assert es[|a| + |b| + i] == c[i] && es[|a| + |b| + j] == c[j];
    }
    forall i, j | 0 <= i < |a| && 0 <= j < |b| ensures a[i] != b[j] { assert es[i] == a[i] && es[|a| + j] == b[j]; }
    forall i, j | 0 <= i < |a| && 0 <= j < |c| ensures a[i] != c[j] {
      assert es[i] == a[i] && es[|a| + |b| + j] == c[j];
    }
    forall i, j | 0 <= i < |b| && 0 <= j < |c| ensures b[i] != c[j] {
      assert es[|a| + i] == b[i] && es[|a| + |b| + j] == c[j];
    }
  }

  lemma ClosingAppended(st: seq<Name>, a: seq<Name>, mid: seq<Name>, b: seq<Name>, c: seq<Name>)
    requires st == a + mid && forall n :: n in b + c ==> n !in a && n !in mid
    requires Distinct(b) && Distinct(c) && forall n :: n in c ==> n !in b
    ensures PutAll(PutAll(st, b), c) == a + mid + b + c
  {
    assert forall n :: n in b || n in c ==> n in b + c;
    PutAllAppends(st, b);
    PutAllAppends(st + b, c);
  }

  lemma MidIsNew(g: Module, a: seq<Name>, st: seq<Name>)
    requires Grows(g, All(g), a, st)
    ensures forall n :: n in st[|a|..] ==> Declared(g, n)
  {
    forall n | n in st[|a|..] ensures Declared(g, n) {
      var i :| 0 <= i < |st| - |a| && st[|a|..][i] == n;
      assert st[|a| + i] == n && st[|a| + i] !in st[..|a| + i];
      assert a <= st[..|a| + i];
      PrefixMembers(a, st[..|a| + i]);
    }
  }

  lemma NewStandsBehind(st: seq<Name>, st': seq<Name>, i: nat)
    requires st <= st' && i < |st'| && st'[i] !in st
    ensures st <= st'[..i]
  {
  }

  lemma PlacedNeeds(g: Module, st: seq<Name>, n: Name, p: Name)
    requires Ordered(g, st) && n in st && p in Needs(g, n)
    ensures p in st
  {
    var i :| 0 <= i < |st| && st[i] == n;
    assert Ready(g, st[..i], n);
  }
}
