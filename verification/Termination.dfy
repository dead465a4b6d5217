/** When the resolver terminates, in terms a module author can check: neither
    relation has a cycle.  And why the condition cannot be dropped. */
module Termination {
  import opened Graph
  import opened Acyclicity
  import Resolver

  ghost function ContractEdges(g: Module): set<(Name, Name)> {
    set p, c | p in g.bindings && c in g.bindings && MustPrecede(g, p, c) :: (p, c)
  }

  ghost function EventEdges(g: Module): set<(Name, Name)> {
    set d, e | d in g.events && e in g.events && EventPrecedes(g, d, e) :: (d, e)
  }

  /** The measure of the recursion exists exactly when both relations are acyclic. */
  lemma RankableIffAcyclic(g: Module)
    ensures Rankable(g) <==> Acyclic(ContractEdges(g)) && Acyclic(EventEdges(g))
  {
    var ce, ee := ContractEdges(g), EventEdges(g);
    if Acyclic(ce) && Acyclic(ee) {
      var c := AcyclicIsNumbered(ce, g.bindings.Keys);
      var e := AcyclicIsNumbered(ee, g.events.Keys);
      var r := Ranks(c, e, |g.bindings.Keys|);
      forall p, c | MustPrecede(g, p, c) ensures r.C(p) < r.C(c) { assert (p, c) in ce; }
      forall d, e | EventPrecedes(g, d, e) ensures r.E(d) < r.E(e) { assert (d, e) in ee; }
      assert RankedBy(g, r);
    }
    if Rankable(g) {
      var r := RankOf(g);
      ClimbingIsAcyclic(ce, n => r.C(n));
      ClimbingIsAcyclic(ee, n => r.E(n));
    }
  }

  /** `p` must stand before `c` in every ordered state. */
  ghost function NeedEdges(g: Module): set<(Name, Name)> {
    set c, p | c in g.bindings.Keys + g.events.Keys && p in Resolver.Needs(g, c) :: (p, c)
  }

  lemma {:induction false} NeedPathDescends(g: Module, st: seq<Name>, p: seq<Name>, j: nat) returns (i: nat)
    requires Resolver.Ordered(g, st) && IsPath(NeedEdges(g), p) && |p| >= 1
    requires j < |st| && st[j] == p[|p| - 1]
    ensures i < |st| && st[i] == p[0] && i + |p| <= j + 1
    decreases |p|
  {
    if |p| == 1 {
      i := j;
    } else {
      var q := p[..|p| - 1];
      assert (p[|p| - 2], p[|p| - 1]) in NeedEdges(g);
      assert Resolver.Ready(g, st[..j], st[j]);
      assert q[|q| - 1] in st[..j];
      var k :| 0 <= k < j && st[k] == q[|q| - 1];
      forall m | 0 <= m < |q| - 1 ensures (q[m], q[m + 1]) in NeedEdges(g) {
        assert (p[m], p[m + 1]) in NeedEdges(g);
      }
      i := NeedPathDescends(g, st, q, k);
    }
  }

  /** No ordered state, however it was found, holds an element that needs itself. */
  lemma CycleHasNoOrder(g: Module, st: seq<Name>, p: seq<Name>)
    requires Resolver.Ordered(g, st)
    requires IsPath(NeedEdges(g), p) && |p| >= 2 && p[0] == p[|p| - 1]
    ensures p[0] !in st
  {
    if p[0] in st {
      var j :| 0 <= j < |st| && st[j] == p[0];
      var i := NeedPathDescends(g, st, p, j);
      assert false;
    }
  }
}
