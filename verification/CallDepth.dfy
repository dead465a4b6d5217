/** The resolver on any module whatever, with a limit on how deep its calls may nest.
    Where a measure exists this is the resolver itself, given enough depth. */
module CallDepth {
  import opened Graph
  import opened Resolver

  /** Overflow: a contract or event call would have nested deeper than allowed. */
  datatype Run = Overflow | Ended(outcome: Outcome) {
    predicate IsFailure() { Overflow? || outcome.Failed? }
    function PropagateFailure(): Run requires IsFailure() { this }
    function Extract(): seq<Name> requires !IsFailure() { outcome.state }
  }

  function ContractWithin(g: Module, st: seq<Name>, c: Name, depth: nat): Run
    decreases depth, 0, 0
  {
    if depth == 0 then Overflow
    else if c in st then Ended(Done(st))
    else if c !in g.bindings then Ended(Failed(TypeError, st))
    else
      var st3 :- LinksWithin(g, st, c, depth - 1);
      HooksWithin(g, st3, c, depth - 1)
  }

  /** The rest of the call, once the links of `c` are placed. */
  function HooksWithin(g: Module, st: seq<Name>, c: Name, depth: nat): Run
    requires c in g.bindings
    decreases depth, 6, 0
  {
    var b := g.bindings[c];
    var st4 :- BeforeHooksWithin(g, st, BeforeHooks(b), depth);
    EventsWithin(g, Put(st4, c), AfterHooks(b), depth)
  }

  function LinksWithin(g: Module, st: seq<Name>, c: Name, depth: nat): Run
    requires c in g.bindings
    decreases depth, 2, 0
  {
    var b := g.bindings[c];
    var st1 :- EachWithin(g, st, Bound(g, ArgNames(b.args)), depth);
    if b.libraries.None? then Ended(Failed(ContractNotCompiled(c), st1))
    else
      var st2 :- EachWithin(g, st1, Bound(g, b.libraries.value), depth);
      EachWithin(g, st2, Bound(g, b.deployDeps), depth)
  }

  function EachWithin(g: Module, st: seq<Name>, names: seq<Name>, depth: nat): Run
    decreases depth, 1, |names|
  {
    if names == [] then Ended(Done(st))
    else if names[0] in st then EachWithin(g, st, names[1..], depth)
    else if names[0] !in g.bindings then Ended(Failed(TypeError, st))
    else
      var st1 :- ContractWithin(g, st, names[0], depth);
      EachWithin(g, st1, names[1..], depth)
  }

  function BehindWithin(g: Module, st: seq<Name>, eventNames: seq<Name>, depth: nat): Run
    decreases depth, 2, |eventNames|
  {
    if eventNames == [] then Ended(Done(st))
    else if eventNames[0] !in g.events then Ended(Failed(TypeError, st))
    else
      var st1 :- EachWithin(g, st, g.events[eventNames[0]].deps, depth);
      BehindWithin(g, st1, eventNames[1..], depth)
  }

  function BeforeHooksWithin(g: Module, st: seq<Name>, names: seq<Name>, depth: nat): Run
    decreases depth, 3, |names|
  {
    if names == [] then Ended(Done(st))
    else if names[0] in st then BeforeHooksWithin(g, st, names[1..], depth)
    else if names[0] !in g.events then Ended(Failed(TypeError, st))
    else
      var e := g.events[names[0]];
      var st1 :- BehindWithin(g, st, e.eventDeps, depth);
      var error := UsageError(g, st1, e.eventUsage, false);
      if error.Some? then Ended(Failed(error.value, st1))
      else BeforeHooksWithin(g, Put(st1, names[0]), names[1..], depth)
  }

  function EventsWithin(g: Module, st: seq<Name>, names: seq<Name>, depth: nat): Run
    decreases depth, 5, |names|
  {
    if names == [] then Ended(Done(st))
    else
      var st1 :- EventWithin(g, st, names[0], depth);
      EventsWithin(g, st1, names[1..], depth)
  }

  function EventWithin(g: Module, st: seq<Name>, e: Name, depth: nat): Run
    decreases depth, 4, 0
  {
    if e !in g.events then Ended(Failed(TypeError, st))
    else
      var event := g.events[e];
      var st1 :- EachWithin(g, st, event.deps, depth);
      var st2 :- EventDepsWithin(g, st1, e, event.eventDeps, depth);
      var st3 :- EachWithin(g, st2, event.usage, depth);
      var error := UsageError(g, st3, event.eventUsage, true);
      if error.Some? then Ended(Failed(error.value, st3)) else Ended(Done(Put(st3, e)))
  }

  function EventDepsWithin(g: Module, st: seq<Name>, e: Name, names: seq<Name>, depth: nat): Run
    decreases depth, 3, |names|
  {
    if names == [] then Ended(Done(st))
    else if names[0] !in g.events then Ended(Failed(TypeError, st))
    else
      var st1 :- SingleWithin(g, st, names[0], depth);
      if names[0] !in st1 then Ended(Failed(EventNotResolved(e, names[0]), st1))
      else EventDepsWithin(g, st1, e, names[1..], depth)
  }

  function SingleWithin(g: Module, st: seq<Name>, e: Name, depth: nat): Run
    requires e in g.events
    decreases depth, 0, 0
  {
    if depth == 0 then Overflow
    else if e in st then Ended(Done(st))
    else
      var event := g.events[e];
      var st1 :- EachWithin(g, st, event.deps, depth - 1);
      var st2 :- SinglesWithin(g, st1, event.eventDeps, depth - 1);
      var st3 :- EachWithin(g, st2, event.usage, depth - 1);
      var st4 :- SinglesWithin(g, st3, event.eventUsage, depth - 1);
      Ended(Done(Put(st4, e)))
  }

  function SinglesWithin(g: Module, st: seq<Name>, names: seq<Name>, depth: nat): Run
    decreases depth, 1, |names|
  {
    if names == [] then Ended(Done(st))
    else if names[0] !in g.events then Ended(Failed(TypeError, st))
    else
      var st1 :- SingleWithin(g, st, names[0], depth);
      SinglesWithin(g, st1, names[1..], depth)
  }

  function ResolveWithin(g: Module, depth: nat): Run {
    var st :- EachWithin(g, PutAll([], g.onStart), g.order, depth);
    Ended(Done(PutAll(PutAll(st, g.onSuccess), g.onCompletion)))
  }

  // ----- Agreement with the resolver, from some depth on -----

  function Max(m: nat, n: nat): nat {
    if m < n then n else m
  }

  lemma {:induction false} ContractAgrees(g: Module, st: seq<Name>, c: Name) returns (k: nat)
    requires Rankable(g)
    ensures forall depth :: depth >= k ==> ContractWithin(g, st, c, depth) == Ended(ResolveContract(g, st, c))
    decreases Missing(g, st), 0, 2 * RankOf(g).C(c) + 1, 0, 0
  {
    k := 1;
    if c in st || c !in g.bindings { return; }
    var b := g.bindings[c];
    var k1 := LinksAgree(g, st, c);
    k := k1 + 1;
    var r3 := ResolveLinks(g, st, c);
    if r3.Failed? { return; }
    MissingShrinks(g, st, r3.state);
    LinksRankBelow(g, c);
    var k2 := BeforeHooksAgree(g, r3.state, BeforeHooks(b), RankOf(g).C(c));
    k := Max(k1, k2) + 1;
    var r4 := AddBeforeHooks(g, r3.state, BeforeHooks(b), RankOf(g).C(c));
    assert r4.Failed? ==> forall depth :: depth >= k - 1 ==> HooksWithin(g, r3.state, c, depth) == Ended(r4);
    if r4.Failed? { return; }
    PlacingShrinks(g, st, r4.state, c);
    var k3 := EventsAgree(g, Put(r4.state, c), AfterHooks(b));
    k := Max(Max(k1, k2), k3) + 1;
    var r6 := AddEvents(g, Put(r4.state, c), AfterHooks(b));
    assert forall depth :: depth >= k - 1 ==> HooksWithin(g, r3.state, c, depth) == Ended(r6);
  }

  lemma {:induction false} LinksAgree(g: Module, st: seq<Name>, c: Name) returns (k: nat)
    requires Rankable(g) && c in g.bindings
    ensures forall depth :: depth >= k ==> LinksWithin(g, st, c, depth) == Ended(ResolveLinks(g, st, c))
    decreases Missing(g, st), 0, 2 * RankOf(g).C(c), 4, 0
  {
    var b, bound := g.bindings[c], RankOf(g).C(c);
    LinksRankBelow(g, c);
    var args, deps := Bound(g, ArgNames(b.args)), Bound(g, b.deployDeps);
    k := EachAgrees(g, st, args, bound);
    var r1 := ResolveEach(g, st, args, bound);
    if r1.Failed? || b.libraries.None? { return; }
    var libraries := Bound(g, b.libraries.value);
    MissingShrinks(g, st, r1.state);
    var k2 := EachAgrees(g, r1.state, libraries, bound);
    k := Max(k, k2);
    var r2 := ResolveEach(g, r1.state, libraries, bound);
    if r2.Failed? { return; }
    MissingShrinks(g, st, r2.state);
    var k3 := EachAgrees(g, r2.state, deps, bound);
    k := Max(k, k3);
  }

  lemma {:induction false} EachAgrees(g: Module, st: seq<Name>, names: seq<Name>, bound: nat) returns (k: nat)
    requires Rankable(g) && BelowBound(g, names, bound)
    ensures forall depth :: depth >= k ==> EachWithin(g, st, names, depth) == Ended(ResolveEach(g, st, names, bound))
    decreases Missing(g, st), 0, 2 * bound, 1, |names|
  {
    k := 0;
    if names == [] || (names[0] !in st && names[0] !in g.bindings) { return; }
    if names[0] in st {
      k := EachAgrees(g, st, names[1..], bound);
    } else {
      k := ContractAgrees(g, st, names[0]);
      var r1 := ResolveContract(g, st, names[0]);
      if r1.Failed? { return; }
      MissingShrinks(g, st, r1.state);
      var k2 := EachAgrees(g, r1.state, names[1..], bound);
      k := Max(k, k2);
    }
  }

  lemma {:induction false} BehindAgrees(g: Module, st: seq<Name>, eventNames: seq<Name>, bound: nat) returns (k: nat)
    requires Rankable(g)
    requires forall d :: d in eventNames && d in g.events ==> BelowBound(g, g.events[d].deps, bound)
    ensures forall depth :: depth >= k ==>
              BehindWithin(g, st, eventNames, depth) == Ended(ResolveBehind(g, st, eventNames, bound))
    decreases Missing(g, st), 0, 2 * bound, 2, |eventNames|
  {
    k := 0;
    if eventNames == [] || eventNames[0] !in g.events { return; }
    var deps := g.events[eventNames[0]].deps;
    k := EachAgrees(g, st, deps, bound);
    var r1 := ResolveEach(g, st, deps, bound);
    if r1.Failed? { return; }
    MissingShrinks(g, st, r1.state);
    var k2 := BehindAgrees(g, r1.state, eventNames[1..], bound);
    k := Max(k, k2);
  }

  lemma {:induction false} BeforeHooksAgree(g: Module, st: seq<Name>, names: seq<Name>, bound: nat) returns (k: nat)
    requires Rankable(g)
    requires forall e :: e in names ==> BehindBelow(g, e, bound)
    ensures forall depth :: depth >= k ==>
              BeforeHooksWithin(g, st, names, depth) == Ended(AddBeforeHooks(g, st, names, bound))
    decreases Missing(g, st), 0, 2 * bound, 3, |names|
  {
    k := 0;
    if names == [] { return; }
    if names[0] in st {
      k := BeforeHooksAgree(g, st, names[1..], bound);
    } else if names[0] in g.events {
      var e := g.events[names[0]];
      assert BehindBelow(g, names[0], bound);
      k := BehindAgrees(g, st, e.eventDeps, bound);
      var r1 := ResolveBehind(g, st, e.eventDeps, bound);
      if r1.Failed? || UsageError(g, r1.state, e.eventUsage, false).Some? { return; }
      MissingShrinks(g, st, Put(r1.state, names[0]));
      var k2 := BeforeHooksAgree(g, Put(r1.state, names[0]), names[1..], bound);
      k := Max(k, k2);
    }
  }

  lemma {:induction false} EventsAgree(g: Module, st: seq<Name>, names: seq<Name>) returns (k: nat)
    requires Rankable(g)
    ensures forall depth :: depth >= k ==> EventsWithin(g, st, names, depth) == Ended(AddEvents(g, st, names))
    decreases Missing(g, st), 2, 0, 0, |names|
  {
    k := 0;
    if names == [] { return; }
    k := EventAgrees(g, st, names[0]);
    var r1 := AddEvent(g, st, names[0]);
    if r1.Failed? { return; }
    MissingShrinks(g, st, r1.state);
    var k2 := EventsAgree(g, r1.state, names[1..]);
    k := Max(k, k2);
  }

  lemma {:induction false} EventAgrees(g: Module, st: seq<Name>, e: Name) returns (k: nat)
    requires Rankable(g)
    ensures forall depth :: depth >= k ==> EventWithin(g, st, e, depth) == Ended(AddEvent(g, st, e))
    decreases Missing(g, st), 1, 2 * RankOf(g).E(e) + 1, 0, 0
  {
    k := 0;
    if e !in g.events { return; }
    var event := g.events[e];
    EventLinksRankBelow(g, e);
    k := EachAgrees(g, st, event.deps, RankOf(g).bound);
    var r1 := ResolveEach(g, st, event.deps, RankOf(g).bound);
    if r1.Failed? { return; }
    MissingShrinks(g, st, r1.state);
    var k2 := EventDepsAgree(g, r1.state, e, event.eventDeps, RankOf(g).E(e));
    k := Max(k, k2);
    var r2 := ResolveEventDeps(g, r1.state, e, event.eventDeps, RankOf(g).E(e));
    if r2.Failed? { return; }
    MissingShrinks(g, st, r2.state);
    var k3 := EachAgrees(g, r2.state, event.usage, RankOf(g).bound);
    k := Max(k, k3);
  }

  lemma {:induction false} EventDepsAgree(g: Module, st: seq<Name>, e: Name, names: seq<Name>,
                                          bound: nat) returns (k: nat)
    requires Rankable(g) && EventsBelow(g, names, bound)
    ensures forall depth :: depth >= k ==>
              EventDepsWithin(g, st, e, names, depth) == Ended(ResolveEventDeps(g, st, e, names, bound))
    decreases Missing(g, st), 1, 2 * bound, 1, |names|
  {
    k := 0;
    if names == [] || names[0] !in g.events { return; }
    k := SingleAgrees(g, st, names[0]);
    var r1 := ResolveSingle(g, st, names[0]);
    if r1.Failed? || names[0] !in r1.state { return; }
    MissingShrinks(g, st, r1.state);
    var k2 := EventDepsAgree(g, r1.state, e, names[1..], bound);
    k := Max(k, k2);
  }

  lemma {:induction false} SingleAgrees(g: Module, st: seq<Name>, e: Name) returns (k: nat)
    requires Rankable(g) && e in g.events
    ensures forall depth :: depth >= k ==> SingleWithin(g, st, e, depth) == Ended(ResolveSingle(g, st, e))
    decreases Missing(g, st), 1, 2 * RankOf(g).E(e) + 1, 0, 0
  {
    k := 1;
    if e in st { return; }
    var event, bound, rank := g.events[e], RankOf(g).bound, RankOf(g).E(e);
    EventLinksRankBelow(g, e);
    var k1 := EachAgrees(g, st, event.deps, bound);
    k := k1 + 1;
    var r1 := ResolveEach(g, st, event.deps, bound);
    if r1.Failed? { return; }
    MissingShrinks(g, st, r1.state);
    var k2 := SinglesAgree(g, r1.state, event.eventDeps, rank);
    k := Max(k, k2 + 1);
    var r2 := ResolveSingles(g, r1.state, event.eventDeps, rank);
    if r2.Failed? { return; }
    MissingShrinks(g, st, r2.state);
    var k3 := EachAgrees(g, r2.state, event.usage, bound);
    k := Max(k, k3 + 1);
    var r3 := ResolveEach(g, r2.state, event.usage, bound);
    if r3.Failed? { return; }
    MissingShrinks(g, st, r3.state);
    var k4 := SinglesAgree(g, r3.state, event.eventUsage, rank);
    k := Max(k, k4 + 1);
  }

  lemma {:induction false} SinglesAgree(g: Module, st: seq<Name>, names: seq<Name>, bound: nat) returns (k: nat)
    requires Rankable(g) && EventsBelow(g, names, bound)
    ensures forall depth :: depth >= k ==>
              SinglesWithin(g, st, names, depth) == Ended(ResolveSingles(g, st, names, bound))
    decreases Missing(g, st), 1, 2 * bound, 1, |names|
  {
    k := 0;
    if names == [] || names[0] !in g.events { return; }
    k := SingleAgrees(g, st, names[0]);
    var r1 := ResolveSingle(g, st, names[0]);
    if r1.Failed? { return; }
    MissingShrinks(g, st, r1.state);
    var k2 := SinglesAgree(g, r1.state, names[1..], bound);
    k := Max(k, k2);
  }

  ghost predicate Suffices(g: Module, k: nat)
    requires Rankable(g)
  {
    forall depth :: depth >= k ==> ResolveWithin(g, depth) == Ended(Resolve(g))
  }

  /** Where the measure exists, some depth suffices, and then nothing depends on it. */
  lemma RankableEnds(g: Module)
    requires Rankable(g)
    ensures exists k :: Suffices(g, k)
  {
    var k := EachAgrees(g, PutAll([], g.onStart), g.order, AllBelow(g));
    assert Suffices(g, k);
  }
}
