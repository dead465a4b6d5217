/** A finite relation has no cycle exactly when its members can be numbered
    upwards along it. */
module Acyclicity {

  ghost predicate IsPath<T(!new)>(edges: set<(T, T)>, p: seq<T>) {
    forall i :: 0 <= i < |p| - 1 ==> (p[i], p[i + 1]) in edges
  }

  ghost predicate Acyclic<T(!new)>(edges: set<(T, T)>) {
    forall p: seq<T> :: |p| >= 2 && IsPath(edges, p) ==> p[0] != p[|p| - 1]
  }

  ghost predicate Numbers<T(!new)>(edges: set<(T, T)>, nodes: set<T>, rank: map<T, nat>) {
    && rank.Keys == nodes
    && (forall n :: n in nodes ==> rank[n] < |nodes|)
    && (forall a, b :: (a, b) in edges && a in nodes && b in nodes ==> rank[a] < rank[b])
  }

  ghost predicate HasPredecessor<T(!new)>(edges: set<(T, T)>, nodes: set<T>, m: T) {
    exists a :: a in nodes && (a, m) in edges
  }

  lemma {:induction false} Pigeonhole<T(!new)>(p: seq<T>, nodes: set<T>)
    requires forall x :: x in p ==> x in nodes
    requires forall i, j :: 0 <= i < j < |p| ==> p[i] != p[j]
    ensures |p| <= |nodes|
  {
    if p == [] {
    } else {
      var q := p[1..];
      assert forall x :: x in q ==> x in nodes - {p[0]};
      Pigeonhole(q, nodes - {p[0]});
    }
  }

  lemma {:induction false} LongPath<T(!new)>(edges: set<(T, T)>, nodes: set<T>, k: nat) returns (p: seq<T>)
    requires nodes != {} && forall m :: m in nodes ==> HasPredecessor(edges, nodes, m)
    ensures |p| == k + 1 && IsPath(edges, p) && forall x :: x in p ==> x in nodes
  {
    if k == 0 {
      var m :| m in nodes;
      p := [m];
    } else {
      var q := LongPath(edges, nodes, k - 1);
      assert q[0] in q && HasPredecessor(edges, nodes, q[0]);
      var a :| a in nodes && (a, q[0]) in edges;
      p := [a] + q;
      forall i | 0 <= i < |p| - 1 ensures (p[i], p[i + 1]) in edges {
        if i > 0 { assert (q[i - 1], q[i]) in edges; }
      }
    }
  }

  /** A path that meets a node twice holds a cycle. */
  lemma RepeatIsCycle<T(!new)>(edges: set<(T, T)>, p: seq<T>, i: nat, j: nat)
    requires IsPath(edges, p) && i < j < |p| && p[i] == p[j]
    ensures !Acyclic(edges)
  {
    var cycle := p[i..j + 1];
    forall k | 0 <= k < |cycle| - 1 ensures (cycle[k], cycle[k + 1]) in edges {
      assert (p[i + k], p[i + k + 1]) in edges;
    }
    assert IsPath(edges, cycle) && cycle[0] == cycle[|cycle| - 1];
  }

  lemma HasSource<T(!new)>(edges: set<(T, T)>, nodes: set<T>)
    requires Acyclic(edges) && nodes != {}
    ensures exists m :: m in nodes && !HasPredecessor(edges, nodes, m)
  {
    if forall m :: m in nodes ==> HasPredecessor(edges, nodes, m) {
      var p := LongPath(edges, nodes, |nodes|);
      if forall i, j :: 0 <= i < j < |p| ==> p[i] != p[j] {
        Pigeonhole(p, nodes);
      }
      var i, j :| 0 <= i < j < |p| && p[i] == p[j];
      RepeatIsCycle(edges, p, i, j);
    }
  }

  lemma {:induction false} AcyclicIsNumbered<T(!new)>(edges: set<(T, T)>, nodes: set<T>) returns (rank: map<T, nat>)
    requires Acyclic(edges)
    ensures Numbers(edges, nodes, rank)
    decreases |nodes|
  {
    if nodes == {} {
      rank := map[];
    } else {
      HasSource(edges, nodes);
      var m :| m in nodes && !HasPredecessor(edges, nodes, m);
      var rest := nodes - {m};
      var tail := AcyclicIsNumbered(edges, rest);
      rank := map n | n in nodes :: if n == m then 0 else tail[n] + 1;
      forall a, b | (a, b) in edges && a in nodes && b in nodes ensures rank[a] < rank[b] {
        assert b != m;
      }
    }
  }

  lemma PathTail<T(!new)>(edges: set<(T, T)>, p: seq<T>)
    requires IsPath(edges, p) && |p| >= 1
    ensures IsPath(edges, p[1..])
  {
    var q := p[1..];
    forall i | 0 <= i < |q| - 1 ensures (q[i], q[i + 1]) in edges {
      assert (p[i + 1], p[i + 2]) in edges;
    }
  }

  /** `rank` grows along every edge. */
  ghost predicate Climbs<T(!new)>(edges: set<(T, T)>, rank: T -> nat) {
    forall a, b :: (a, b) in edges ==> rank(a) < rank(b)
  }

  lemma {:induction false} PathClimbs<T(!new)>(edges: set<(T, T)>, rank: T -> nat, p: seq<T>)
    requires Climbs(edges, rank) && IsPath(edges, p) && |p| >= 2
    ensures rank(p[0]) < rank(p[|p| - 1])
    decreases |p|
  {
    assert (p[0], p[1]) in edges;
    if |p| == 2 {
    } else {
      PathTail(edges, p);
      PathClimbs(edges, rank, p[1..]);
    }
  }

  lemma ClimbingIsAcyclic<T(!new)>(edges: set<(T, T)>, rank: T -> nat)
    requires Climbs(edges, rank)
    ensures Acyclic(edges)
  {
    forall p: seq<T> | |p| >= 2 && IsPath(edges, p) ensures p[0] != p[|p| - 1] {
      PathClimbs(edges, rank, p);
    }
  }
}
