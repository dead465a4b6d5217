/** In which order a step places what it goes on to, and what stands behind the events
    a hook names. */
module ResolveOrder {
  import opened Graph
  import opened Resolver
  import opened Wrappers

  // ----- One list after the other -----

  lemma {:induction false} EachSplits(g: Module, st: seq<Name>, a: seq<Name>, b: seq<Name>, bound: nat)
    requires Rankable(g) && BelowBound(g, a + b, bound) && BelowBound(g, a, bound) && BelowBound(g, b, bound)
    ensures ResolveEach(g, st, a + b, bound) ==
            var r := ResolveEach(g, st, a, bound);
            if r.Failed? then r else ResolveEach(g, r.state, b, bound)
    decreases |a|
  {
    if a == [] {
      assert a + b == b;
    } else {
      assert (a + b)[0] == a[0] && (a + b)[1..] == a[1..] + b;
      if a[0] in st {
        EachSplits(g, st, a[1..], b, bound);
      } else if a[0] in g.bindings {
        var r := ResolveContract(g, st, a[0]);
        if r.Done? { EachSplits(g, r.state, a[1..], b, bound); }
      }
    }
  }

  lemma {:induction false} BeforeHooksSplit(g: Module, st: seq<Name>, a: seq<Name>, b: seq<Name>, bound: nat)
    requires Rankable(g) && forall e :: e in a + b ==> BehindBelow(g, e, bound)
    ensures (forall e :: e in a ==> BehindBelow(g, e, bound)) && forall e :: e in b ==> BehindBelow(g, e, bound)
    ensures AddBeforeHooks(g, st, a + b, bound) ==
            var r := AddBeforeHooks(g, st, a, bound);
            if r.Failed? then r else AddBeforeHooks(g, r.state, b, bound)
    decreases |a|
  {
    if a == [] {
      assert a + b == b;
    } else {
      assert (a + b)[0] == a[0] && (a + b)[1..] == a[1..] + b;
      if a[0] in st {
        BeforeHooksSplit(g, st, a[1..], b, bound);
      } else if a[0] in g.events {
        var e := g.events[a[0]];
        assert a[0] in a + b && BehindBelow(g, a[0], bound);
        var r := ResolveBehind(g, st, e.eventDeps, bound);
        if r.Done? { BeforeHooksSplit(g, Put(r.state, a[0]), a[1..], b, bound); }
      }
    }
  }

  lemma {:induction false} EventsSplit(g: Module, st: seq<Name>, a: seq<Name>, b: seq<Name>)
    requires Rankable(g)
    ensures AddEvents(g, st, a + b) ==
            var r := AddEvents(g, st, a); if r.Failed? then r else AddEvents(g, r.state, b)
    decreases |a|
  {
    if a == [] {
      assert a + b == b;
    } else {
      assert (a + b)[0] == a[0] && (a + b)[1..] == a[1..] + b;
      var r := AddEvent(g, st, a[0]);
      if r.Done? { EventsSplit(g, r.state, a[1..], b); }
    }
  }

  /** What a contract is placed behind, in the order it is resolved. */
  ghost function BeforeList(g: Module, c: Name): seq<Name>
    requires c in g.bindings
  {
    var b := g.bindings[c];
    LinkList(g, c) + (b.hooks.beforeCompile + b.hooks.afterCompile + b.hooks.beforeDeploy)
  }

  ghost function LinkList(g: Module, c: Name): seq<Name>
    requires c in g.bindings
  {
    var b := g.bindings[c];
    Bound(g, ArgNames(b.args)) + (Bound(g, Links(b)) + Bound(g, b.deployDeps))
  }

  /** The hooks placed behind it. */
  ghost function AfterList(g: Module, c: Name): seq<Name>
    requires c in g.bindings
  {
    g.bindings[c].hooks.afterDeploy + g.bindings[c].hooks.onChange
  }

  lemma LinksAreOneList(g: Module, st: seq<Name>, c: Name)
    requires Rankable(g) && c in g.bindings && ResolveLinks(g, st, c).Done?
    ensures BelowBound(g, LinkList(g, c), RankOf(g).C(c))
    ensures ResolveLinks(g, st, c) == ResolveEach(g, st, LinkList(g, c), RankOf(g).C(c))
  {
    var b, bound := g.bindings[c], RankOf(g).C(c);
    var args, libs, deps := Bound(g, ArgNames(b.args)), Bound(g, Links(b)), Bound(g, b.deployDeps);
    LinksRankBelow(g, c);
    EachSplits(g, st, args, libs + deps, bound);
    var r := ResolveEach(g, st, args, bound);
    EachSplits(g, r.state, libs, deps, bound);
  }

  /** A state that grew within reach of some names and holds `first`: what is placed
      later and out of reach stands behind all of `first`. */
  lemma OutOfReachIsLater(g: Module, within: set<Name>, st: seq<Name>, mid: seq<Name>, st': seq<Name>, first: seq<Name>,
                          i: nat)
    requires Grows(g, within, st, mid) && mid <= st' && Ordered(g, st') && |st| <= i < |st'| && st'[i] !in within
    requires forall n :: n in first ==> n in mid
    ensures forall n :: n in first ==> n in st'[..i]
  {
    LaterIsNew(st, st', i);
    if i < |mid| { assert false; }
    assert mid <= st'[..i];
    PrefixMembers(mid, st'[..i]);
  }

  lemma LaterIsNew(st: seq<Name>, st': seq<Name>, i: nat)
    requires st <= st' && |st| <= i < |st'| && st'[i] !in st'[..i]
    ensures st'[i] !in st
  {
    assert st <= st'[..i];
    PrefixMembers(st, st'[..i]);
  }

  /** A step for a contract places the contracts it takes, then those it links, then the
      dependencies of its deploy function, then its beforeCompile, afterCompile and
      beforeDeploy hooks, each list in order: whatever is placed out of reach of the first
      `m` of these stands behind them. */
  lemma BeforeInTurn(g: Module, within: set<Name>, st: seq<Name>, c: Name, m: nat, i: nat)
    requires WellFormed(g) && Rankable(g) && Ordered(g, st) && c in g.bindings && c !in st
    requires ResolveContract(g, st, c).Done? && m <= |BeforeList(g, c)|
    requires ClosedFrom(g, within, st) && Inside(g, within, st, BeforeList(g, c)[..m])
    requires |st| <= i < |ResolveContract(g, st, c).state| && ResolveContract(g, st, c).state[i] !in within
    ensures forall n :: n in BeforeList(g, c)[..m] ==> n in ResolveContract(g, st, c).state[..i]
  {
    var st' := ResolveContract(g, st, c).state;
    ContractIsOrdered(g, st, c);
    EntryIsPrefix(g, st, c);
    var mid := MidState(g, within, st, c, m);
    OutOfReachIsLater(g, within, st, mid, st', BeforeList(g, c)[..m], i);
  }

  lemma ContractIsOrdered(g: Module, st: seq<Name>, c: Name)
    requires WellFormed(g) && Rankable(g) && Ordered(g, st)
    ensures Sound(g, All(g), st, ResolveContract(g, st, c))
  {
    AllIsSetting(g, st);
    ContractSound(g, All(g), st, st, c);
  }

  /** The state after the first `m`. */
  lemma MidState(g: Module, within: set<Name>, st: seq<Name>, c: Name, m: nat) returns (mid: seq<Name>)
    requires WellFormed(g) && Rankable(g) && Ordered(g, st) && c in g.bindings && c !in st
    requires ResolveContract(g, st, c).Done? && m <= |BeforeList(g, c)|
    requires ClosedFrom(g, within, st) && Inside(g, within, st, BeforeList(g, c)[..m])
    ensures Grows(g, within, st, mid) && mid <= Entry(g, st, c)
    ensures forall n :: n in BeforeList(g, c)[..m] ==> n in mid
  {
    var links := LinkList(g, c);
    PrefixOfTwo(links, BeforeHooks(g.bindings[c]), m);
    if m <= |links| {
      mid := MidLinks(g, within, st, c, m);
      LinksBelowEntry(g, st, c);
    } else {
      mid := MidHooks(g, within, st, c, m - |links|);
    }
  }

  lemma PrefixOfTwo(a: seq<Name>, b: seq<Name>, m: nat)
    requires m <= |a + b|
    ensures (a + b)[..m] == if m <= |a| then a[..m] else a + b[..m - |a|]
  {
  }

  lemma LinksBelowEntry(g: Module, st: seq<Name>, c: Name)
    requires Rankable(g) && c in g.bindings && c !in st && ResolveContract(g, st, c).Done?
    ensures ResolveLinks(g, st, c).state <= Entry(g, st, c)
  {
  }

  lemma EntryIsPrefix(g: Module, st: seq<Name>, c: Name)
    requires Rankable(g) && c in g.bindings && c !in st && ResolveContract(g, st, c).Done?
    ensures st <= Entry(g, st, c) <= ResolveContract(g, st, c).state
  {
  }

  /** The state when the entry of `c` has been written. */
  ghost function Entry(g: Module, st: seq<Name>, c: Name): seq<Name>
    requires Rankable(g) && c in g.bindings && c !in st && ResolveContract(g, st, c).Done?
  {
    LinksRankBelow(g, c);
    Put(AddBeforeHooks(g, ResolveLinks(g, st, c).state, BeforeHooks(g.bindings[c]), RankOf(g).C(c)).state, c)
  }

  lemma MidLinks(g: Module, within: set<Name>, st: seq<Name>, c: Name, m: nat) returns (mid: seq<Name>)
    requires WellFormed(g) && Rankable(g) && Ordered(g, st) && c in g.bindings && c !in st
    requires ResolveLinks(g, st, c).Done? && m <= |LinkList(g, c)|
    requires ClosedFrom(g, within, st) && Inside(g, within, st, LinkList(g, c)[..m])
    ensures Grows(g, within, st, mid) && mid <= ResolveLinks(g, st, c).state
    ensures forall n :: n in LinkList(g, c)[..m] ==> n in mid
  {
    var links, bound := LinkList(g, c), RankOf(g).C(c);
    LinksAreOneList(g, st, c);
    assert links == links[..m] + links[m..];
    EachSplits(g, st, links[..m], links[m..], bound);
    EachSound(g, within, st, st, links[..m], bound);
    mid := ResolveEach(g, st, links[..m], bound).state;
  }

  lemma MidHooks(g: Module, within: set<Name>, st: seq<Name>, c: Name, j: nat) returns (mid: seq<Name>)
    requires WellFormed(g) && Rankable(g) && Ordered(g, st) && c in g.bindings && c !in st
    requires ResolveContract(g, st, c).Done? && j <= |BeforeHooks(g.bindings[c])|
    requires ClosedFrom(g, within, st)
    requires Inside(g, within, st, LinkList(g, c) + BeforeHooks(g.bindings[c])[..j])
    ensures Grows(g, within, st, mid) && mid <= Entry(g, st, c)
    ensures forall n :: n in LinkList(g, c) + BeforeHooks(g.bindings[c])[..j] ==> n in mid
  {
    var links, hooks, bound := LinkList(g, c), BeforeHooks(g.bindings[c]), RankOf(g).C(c);
    LinksAreOneList(g, st, c);
    LinksRankBelow(g, c);
    EachSound(g, within, st, st, links, bound);
    var st3 := ResolveLinks(g, st, c).state;
    mid := FirstHooks(g, within, st, st3, hooks, j, bound);
    PrefixMembers(st3, mid);
  }

  lemma FirstHooks(g: Module, within: set<Name>, o: seq<Name>, st: seq<Name>, hooks: seq<Name>, j: nat, bound: nat)
    returns (mid: seq<Name>)
    requires Setting(g, within, o) && Grows(g, within, o, st) && j <= |hooks| && Inside(g, within, o, hooks[..j])
    requires forall e :: e in hooks ==> BehindBelow(g, e, bound)
    requires forall e :: e in hooks && e in g.events ==> !IsAfter(g.events[e])
    requires AddBeforeHooks(g, st, hooks, bound).Done?
    ensures Grows(g, within, o, mid) && st <= mid <= AddBeforeHooks(g, st, hooks, bound).state
    ensures forall n :: n in hooks[..j] ==> n in mid
  {
    assert hooks == hooks[..j] + hooks[j..];
    BeforeHooksSplit(g, st, hooks[..j], hooks[j..], bound);
    BeforeHooksSound(g, within, o, st, hooks[..j], bound);
    mid := AddBeforeHooks(g, st, hooks[..j], bound).state;
  }

  /** The entry of a contract is written behind all of these, when nothing but they and
      what is in reach of them has been placed. */
  lemma EntryInTurn(g: Module, within: set<Name>, st: seq<Name>, c: Name)
    requires WellFormed(g) && Rankable(g) && Ordered(g, st) && c in g.bindings && c !in st
    requires ResolveContract(g, st, c).Done?
    requires ClosedFrom(g, within, st) && Inside(g, within, st, BeforeList(g, c))
    ensures st <= Entry(g, st, c) <= ResolveContract(g, st, c).state && c in Entry(g, st, c)
    ensures forall n :: n in BeforeList(g, c) ==> n in Entry(g, st, c)
    ensures forall n :: n in Entry(g, st, c) ==> n in st || n in within || n == c
  {
    EntryIsPrefix(g, st, c);
    EntryHolds(g, within, st, c, ResolveLinks(g, st, c).state);
  }

  lemma EntryHolds(g: Module, within: set<Name>, st: seq<Name>, c: Name, st3: seq<Name>)
    requires WellFormed(g) && Rankable(g) && Ordered(g, st) && c in g.bindings && c !in st
    requires ResolveContract(g, st, c).Done? && st3 == ResolveLinks(g, st, c).state
    requires ClosedFrom(g, within, st) && Inside(g, within, st, BeforeList(g, c))
    ensures c in Entry(g, st, c) && forall n :: n in BeforeList(g, c) ==> n in Entry(g, st, c)
    ensures forall n :: n in Entry(g, st, c) ==> n in st || n in within || n == c
  {
    var links, hooks, bound := LinkList(g, c), BeforeHooks(g.bindings[c]), RankOf(g).C(c);
    LinksAreOneList(g, st, c);
    LinksRankBelow(g, c);
    EachSound(g, within, st, st, links, bound);
    BeforeHooksSound(g, within, st, st3, hooks, bound);
    PrefixMembers(st3, AddBeforeHooks(g, st3, hooks, bound).state);
  }

  /** Then its afterDeploy hooks and its onChange hooks follow, each list in order. */
  lemma AfterInTurn(g: Module, within: set<Name>, st: seq<Name>, c: Name, m: nat, i: nat)
    requires WellFormed(g) && Rankable(g) && Ordered(g, st) && c in g.bindings && c !in st
    requires ResolveContract(g, st, c).Done? && m <= |AfterList(g, c)|
    requires ClosedFrom(g, within, Entry(g, st, c)) && Inside(g, within, Entry(g, st, c), AfterList(g, c)[..m])
    requires |Entry(g, st, c)| <= i < |ResolveContract(g, st, c).state|
    requires ResolveContract(g, st, c).state[i] !in within
    ensures forall n :: n in AfterList(g, c)[..m] ==> n in ResolveContract(g, st, c).state[..i]
  {
    var entry, after := Entry(g, st, c), AfterList(g, c);
    ContractIsOrdered(g, st, c);
    EntryIsOrdered(g, st, c);
    assert after == AfterHooks(g.bindings[c]);
    EventsInTurn(g, within, entry, after, m, ResolveContract(g, st, c).state, i);
  }

  lemma EventsInTurn(g: Module, within: set<Name>, st: seq<Name>, names: seq<Name>, m: nat, st': seq<Name>, i: nat)
    requires WellFormed(g) && Rankable(g) && Ordered(g, st) && Ordered(g, st') && m <= |names|
    requires AddEvents(g, st, names) == Done(st') && forall e :: e in names && e in g.events ==> IsAfter(g.events[e])
    requires ClosedFrom(g, within, st) && Inside(g, within, st, names[..m])
    requires |st| <= i < |st'| && st'[i] !in within
    ensures forall n :: n in names[..m] ==> n in st'[..i]
  {
    assert names == names[..m] + names[m..];
    EventsSplit(g, st, names[..m], names[m..]);
    EventsSound(g, within, st, st, names[..m]);
    OutOfReachIsLater(g, within, st, AddEvents(g, st, names[..m]).state, st', names[..m], i);
  }

  lemma EntryIsOrdered(g: Module, st: seq<Name>, c: Name)
    requires WellFormed(g) && Rankable(g) && Ordered(g, st) && c in g.bindings && c !in st
    requires ResolveContract(g, st, c).Done?
    ensures Ordered(g, Entry(g, st, c))
    ensures ResolveContract(g, st, c) == AddEvents(g, Entry(g, st, c), AfterHooks(g.bindings[c]))
  {
    ContractIsOrdered(g, st, c);
    var entry, st' := Entry(g, st, c), ResolveContract(g, st, c).state;
    assert entry <= st';
    forall i | 0 <= i < |entry| ensures entry[i] !in entry[..i] && Ready(g, entry[..i], entry[i]) {
      assert entry[i] == st'[i] && entry[..i] == st'[..i];
    }
  }

  // ----- The contracts behind events -----

  /** In a resolved module a hook stands behind the contracts of each event it depends on
      or uses if that event is an afterDeploy or onChange hook, or if no other event
      names the hook and it looks behind what it names: a before-hook always does, an
      after-hook for the events it uses. */
  lemma BehindStandsBefore(g: Module, e: Name, d: Name, p: Name)
    requires WellFormed(g) && Rankable(g) && Resolve(g).Done? && e in Resolve(g).state
    requires LooksBehind(g, e, d) && p in g.events[d].deps
    ensures StandsBefore(Resolve(g).state, p, e)
  {
    ResolvedState(g);
    var st := Resolve(g).state;
    var i :| 0 <= i < |st| && st[i] == e;
    assert Ready(g, st[..i], e) && SeesBehind(g, st[..i], e);
  }

  /** Contracts `a` and `x`: `u` and `b` are before-hooks of `a`, `d` is an after-hook of
      `x`; `b` depends on `d`, `d` on `e`, and `e` uses `u`. */
  ghost predicate UsageCase(g: Module, a: Name, x: Name, u: Name, b: Name, d: Name, e: Name) {
    && g.order == [a, x] && g.bindings.Keys == {a, x} && g.events.Keys == {u, b, d, e} && ModuleEvents(g) == []
    && g.onStart == [] && g.onSuccess == [] && g.onCompletion == []
    && g.bindings[a] == Binding(a, [], Some([]), false, [], false, Hooks([], [], [u, b], [], []))
    && g.bindings[x] == Binding(x, [], Some([]), false, [], false, Hooks([], [], [], [d], []))
    && g.events[u] == Event(BeforeDeploy, [a], [], [], [])
    && g.events[b] == Event(BeforeDeploy, [a], [d], [], [])
    && g.events[d] == Event(AfterDeploy, [x], [e], [], [])
    && g.events[e] == Event(AfterDeploy, [], [], [], [u])
  }

  ghost predicate SixNames(a: Name, x: Name, u: Name, b: Name, d: Name, e: Name) {
    && a != x && a != u && a != b && a != d && a != e && x != u && x != b && x != d && x != e
    && u != b && u != d && u != e && b != d && b != e && d != e
  }

  lemma UsageCaseIsWellFormed(g: Module, a: Name, x: Name, u: Name, b: Name, d: Name, e: Name)
    requires SixNames(a, x, u, b, d, e) && UsageCase(g, a, x, u, b, d, e)
    ensures WellFormed(g)
  {
    NamesOfCase(g, a, x, u, b, d, e);
    HooksOfCase(g, a, x, u, b, d, e);
  }

  lemma NamesOfCase(g: Module, a: Name, x: Name, u: Name, b: Name, d: Name, e: Name)
    requires SixNames(a, x, u, b, d, e) && UsageCase(g, a, x, u, b, d, e)
    ensures Distinct(g.order) && (forall n :: n in g.order <==> n in g.bindings)
    ensures g.bindings.Keys !! g.events.Keys && forall n :: n !in ModuleEvents(g)
  {
    forall n ensures n in g.order <==> n in g.bindings {
      assert n in g.bindings <==> n in g.bindings.Keys;
    }
  }

  lemma HooksOfCase(g: Module, a: Name, x: Name, u: Name, b: Name, d: Name, e: Name)
    requires SixNames(a, x, u, b, d, e) && UsageCase(g, a, x, u, b, d, e)
    ensures forall c, h :: c in g.bindings && h in g.events ==>
              var k := g.bindings[c].hooks;
              && (h in k.beforeCompile || h in k.afterCompile || h in k.beforeDeploy ==> !IsAfter(g.events[h]))
              && (h in k.afterDeploy || h in k.onChange ==> IsAfter(g.events[h]))
  {
    forall c, h | c in g.bindings && h in g.events
      ensures var k := g.bindings[c].hooks;
              && (h in k.beforeCompile || h in k.afterCompile || h in k.beforeDeploy ==> !IsAfter(g.events[h]))
              && (h in k.afterDeploy || h in k.onChange ==> IsAfter(g.events[h]))
    {
      assert c in g.bindings.Keys;
      if c == x { assert h in [d] ==> h == d; } else { assert h in [u, b] ==> h == u || h == b; }
    }
  }

  lemma UsageCaseIsRankable(g: Module, a: Name, x: Name, u: Name, b: Name, d: Name, e: Name)
    requires SixNames(a, x, u, b, d, e) && UsageCase(g, a, x, u, b, d, e)
    ensures Rankable(g)
  {
    var r := Ranks(map[x := 0, a := 1], map[u := 0, e := 1, d := 2, b := 3], 2);
    forall p, c | MustPrecede(g, p, c) ensures r.C(p) < r.C(c) {
      assert c in g.bindings.Keys;
      assert ArgNames([]) == [];
      var h, k :| BehindHook(g, g.bindings[c], h, k) && p in g.events[k].deps;
      assert h in BeforeHooks(g.bindings[c]);
    }
    forall p, h | EventPrecedes(g, p, h) ensures r.E(p) < r.E(h) {
      assert h in g.events.Keys;
    }
    assert RankedBy(g, r);
  }

  lemma ContractXPlaced(g: Module, a: Name, x: Name, u: Name, b: Name, d: Name, e: Name)
    requires SixNames(a, x, u, b, d, e) && UsageCase(g, a, x, u, b, d, e) && Rankable(g)
    ensures ResolveContract(g, [u], x) == Done([u, x, e, d])
  {
    LinksRankBelow(g, x);
    assert ArgNames([]) == [] && Bound(g, []) == [];
    assert BeforeHooks(g.bindings[x]) == [] && AfterHooks(g.bindings[x]) == [d];
    assert ResolveLinks(g, [u], x) == Done([u]);
    DPlaced(g, a, x, u, b, d, e);
    assert [d][1..] == [];
    assert AddBeforeHooks(g, [u], [], RankOf(g).C(x)) == Done([u]);
    assert Put([u], x) == [u, x];
    assert AddEvents(g, [u, x], [d]) == AddEvents(g, [u, x, e, d], []);
  }

  lemma DPlaced(g: Module, a: Name, x: Name, u: Name, b: Name, d: Name, e: Name)
    requires SixNames(a, x, u, b, d, e) && UsageCase(g, a, x, u, b, d, e) && Rankable(g)
    ensures AddEvent(g, [u, x], d) == Done([u, x, e, d])
  {
    EventLinksRankBelow(g, d);
    EPlaced(g, a, x, u, b, d, e);
    assert [x][1..] == [] && [e][1..] == [];
    assert ResolveEach(g, [u, x], [x], RankOf(g).bound) == Done([u, x]);
    assert ResolveEventDeps(g, [u, x], d, [e], RankOf(g).E(d)) == Done([u, x, e]);
  }

  lemma EPlaced(g: Module, a: Name, x: Name, u: Name, b: Name, d: Name, e: Name)
    requires SixNames(a, x, u, b, d, e) && UsageCase(g, a, x, u, b, d, e) && Rankable(g)
    ensures ResolveSingle(g, [u, x], e) == Done([u, x, e])
  {
    EventLinksRankBelow(g, e);
    assert [u][1..] == [];
    assert ResolveSingles(g, [u, x], [u], RankOf(g).E(e)) == Done([u, x]);
  }

  lemma ContractAPlaced(g: Module, a: Name, x: Name, u: Name, b: Name, d: Name, e: Name)
    requires SixNames(a, x, u, b, d, e) && UsageCase(g, a, x, u, b, d, e) && Rankable(g)
    ensures ResolveContract(g, [], a) == Done([u, x, e, d, b, a])
  {
    LinksRankBelow(g, a);
    assert ArgNames([]) == [] && Bound(g, []) == [];
    assert BeforeHooks(g.bindings[a]) == [u, b] && AfterHooks(g.bindings[a]) == [];
    assert ResolveLinks(g, [], a) == Done([]);
    HooksOfAPlaced(g, a, x, u, b, d, e);
    assert Put([u, x, e, d, b], a) == [u, x, e, d, b, a];
    assert AddEvents(g, [u, x, e, d, b, a], []) == Done([u, x, e, d, b, a]);
  }

  lemma HooksOfAPlaced(g: Module, a: Name, x: Name, u: Name, b: Name, d: Name, e: Name)
    requires SixNames(a, x, u, b, d, e) && UsageCase(g, a, x, u, b, d, e) && Rankable(g)
    requires forall h :: h in [u, b] ==> BehindBelow(g, h, RankOf(g).C(a))
    ensures AddBeforeHooks(g, [], [u, b], RankOf(g).C(a)) == Done([u, x, e, d, b])
  {
    assert u in [u, b] && b in [u, b];
    BPlaced(g, a, x, u, b, d, e);
    assert [u, b][1..] == [b] && Put([], u) == [u];
    assert ResolveBehind(g, [], [], RankOf(g).C(a)) == Done([]);
  }

  lemma BPlaced(g: Module, a: Name, x: Name, u: Name, b: Name, d: Name, e: Name)
    requires SixNames(a, x, u, b, d, e) && UsageCase(g, a, x, u, b, d, e) && Rankable(g)
    requires forall h :: h in [b] ==> BehindBelow(g, h, RankOf(g).C(a))
    ensures AddBeforeHooks(g, [u], [b], RankOf(g).C(a)) == Done([u, x, e, d, b])
  {
    ContractXPlaced(g, a, x, u, b, d, e);
    assert b in [b] && BehindBelow(g, b, RankOf(g).C(a));
    assert [x][1..] == [] && [d][1..] == [] && [b][1..] == [];
    assert ResolveEach(g, [u], [x], RankOf(g).C(a)) == Done([u, x, e, d]);
    assert ResolveBehind(g, [u], [d], RankOf(g).C(a)) == Done([u, x, e, d]);
  }

  /** Such a module resolves, and `e` stands before `a`, the contract behind what it
      uses. */
  lemma UsedContractCanFollow(g: Module, a: Name, x: Name, u: Name, b: Name, d: Name, e: Name)
    requires SixNames(a, x, u, b, d, e) && UsageCase(g, a, x, u, b, d, e)
    ensures WellFormed(g) && Rankable(g) && Resolve(g) == Done([u, x, e, d, b, a])
    ensures u in g.events[e].eventUsage && a in g.events[u].deps && !StandsBefore(Resolve(g).state, a, e)
  {
    UsageCaseIsWellFormed(g, a, x, u, b, d, e);
    UsageCaseIsRankable(g, a, x, u, b, d, e);
    ContractAPlaced(g, a, x, u, b, d, e);
    assert [a, x][1..] == [x] && [x][1..] == [];
    assert PutAll([], []) == [];
    var st := [u, x, e, d, b, a];
    assert ResolveEach(g, st, [x], AllBelow(g)) == ResolveEach(g, st, [], AllBelow(g));
    assert PutAll(st, []) == st;
  }

  lemma UsageCaseExists(a: Name, x: Name, u: Name, b: Name, d: Name, e: Name) returns (g: Module)
    requires SixNames(a, x, u, b, d, e)
    ensures UsageCase(g, a, x, u, b, d, e)
  {
    g := Module(
      [a, x],
      map[a := Binding(a, [], Some([]), false, [], false, Hooks([], [], [u, b], [], [])),
          x := Binding(x, [], Some([]), false, [], false, Hooks([], [], [], [d], []))],
      map[u := Event(BeforeDeploy, [a], [], [], []), b := Event(BeforeDeploy, [a], [d], [], []),
          d := Event(AfterDeploy, [x], [e], [], []), e := Event(AfterDeploy, [], [], [], [u])],
      [], [], []);
  }
}
