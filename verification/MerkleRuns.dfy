/** Whole runs of inserts and updates, against the batch builder. */
module MerkleRuns {
  import opened Merkle

  datatype Op = Insert(element: Element) | Update(index: nat, element: Element)

  /** The storage shared with other trees, and the number of leaves of this one. */
  datatype Tree = Tree(db: Db, totalElements: nat)

  /** An update past the last leaf is refused and changes nothing. */
  function Step(h: Hash, prefix: string, n: nat, t: Tree, op: Op): Tree {
    match op
    case Insert(x) => Tree(UpdateStore(h, prefix, n, t.db, t.totalElements, x), t.totalElements + 1)
    case Update(i, x) =>
      if i >= t.totalElements then t else t.(db := UpdateStore(h, prefix, n, t.db, i, x))
  }

  function Run(h: Hash, prefix: string, n: nat, t: Tree, ops: seq<Op>): Tree
    decreases |ops|
  {
    if ops == [] then t else Run(h, prefix, n, Step(h, prefix, n, t, ops[0]), ops[1..])
  }

  function StepLeaves(leaves: seq<Element>, op: Op): seq<Element> {
    match op
    case Insert(x) => leaves + [x]
    case Update(i, x) => if i >= |leaves| then leaves else leaves[i := x]
  }

  function Leaves(leaves: seq<Element>, ops: seq<Op>): (r: seq<Element>)
    ensures |leaves| <= |r|
    decreases |ops|
  {
    if ops == [] then leaves else Leaves(StepLeaves(leaves, ops[0]), ops[1..])
  }

  lemma SameElsewhereTransitive(prefix: string, db0: Db, db1: Db, db2: Db)
    requires SameElsewhere(prefix, db0, db1) && SameElsewhere(prefix, db1, db2)
    ensures SameElsewhere(prefix, db0, db2)
  {
    forall key | !IsKey(prefix, key)
      ensures (key in db0 <==> key in db2) && (key in db0 ==> db0[key] == db2[key])
    {
      assert (key in db0 <==> key in db1) && (key in db0 ==> db0[key] == db1[key]);
    }
  }

  /** Within capacity a run keeps the storage exact for its leaves. */
  lemma {:induction false} RunHolds(h: Hash, prefix: string, n: nat, leaves: seq<Element>, t: Tree, ops: seq<Op>)
    requires Holds(h, prefix, n, leaves, t.db) && t.totalElements == |leaves|
    requires |Leaves(leaves, ops)| <= Pow2(n)
    ensures var t' := Run(h, prefix, n, t, ops);
            && Holds(h, prefix, n, Leaves(leaves, ops), t'.db)
            && t'.totalElements == |Leaves(leaves, ops)|
            && SameElsewhere(prefix, t.db, t'.db)
    decreases |ops|
  {
    if ops == [] {
    } else {
      var leaves1, t1 := StepLeaves(leaves, ops[0]), Step(h, prefix, n, t, ops[0]);
      if ops[0].Insert? {
        UpdateKeepsHolds(h, prefix, n, leaves, t.db, |leaves|, ops[0].element, leaves1);
      } else if ops[0].index < |leaves| {
        UpdateKeepsHolds(h, prefix, n, leaves, t.db, ops[0].index, ops[0].element, leaves1);
      }
      RunHolds(h, prefix, n, leaves1, t1, ops[1..]);
      SameElsewhereTransitive(prefix, t.db, t1.db, Run(h, prefix, n, t1, ops[1..]).db);
    }
  }

  /** No insert or update writes a node of the top level other than the root. */
  lemma {:induction false} PutsTop(h: Hash, prefix: string, n: nat, db: Db, index: nat, element: Element, l: nat,
                                   acc: Db, i: nat)
    requires l <= n && i > 0 && Key(prefix, n, i) !in acc
    ensures Key(prefix, n, i) !in PutBatch(acc, Puts(h, db, prefix, index, element, l, n))
    decreases n - l
  {
    var puts := Puts(h, db, prefix, index, element, l, n);
    if l == n {
      if Key(prefix, n, i) == Key(prefix, n, 0) { KeyInjective(prefix, n, i, prefix, n, 0); }
      assert PutBatch(acc, puts) == acc[Key(prefix, n, 0) := element];
    } else {
      if Key(prefix, n, i) == Key(prefix, l, index) { KeyInjective(prefix, n, i, prefix, l, index); }
      var rest := Puts(h, db, prefix, index / 2, Combine(h, db, prefix, index, element, l), l + 1, n);
      assert puts[1..] == rest;
      PutsTop(h, prefix, n, db, index / 2, Combine(h, db, prefix, index, element, l), l + 1,
              acc[Key(prefix, l, index) := element], i);
    }
  }

  lemma {:induction false} RunTop(h: Hash, prefix: string, n: nat, t: Tree, ops: seq<Op>, i: nat)
    requires i > 0 && Key(prefix, n, i) !in t.db
    ensures Key(prefix, n, i) !in Run(h, prefix, n, t, ops).db
    decreases |ops|
  {
    if ops == [] {
    } else {
      var index := if ops[0].Insert? then t.totalElements else ops[0].index;
      PutsTop(h, prefix, n, t.db, index, ops[0].element, 0, t.db, i);
      RunTop(h, prefix, n, Step(h, prefix, n, t, ops[0]), ops[1..], i);
    }
  }

  lemma {:induction false} CountBeyond(m: nat, n: nat, l: nat)
    requires l <= n && m > Pow2(n)
    ensures Count(m, l) > Pow2(n - l)
  {
    if l == 0 {
    } else {
      CountBeyond(m, n, l - 1);
      assert Pow2(n - (l - 1)) == 2 * Pow2(n - l);
    }
  }

  /** Inserts and updates on an empty tree leave the very storage the batch builder
      leaves for the final leaves, if and only if these fit the tree; beyond its
      capacity the two always differ. */
  lemma IncrementalEqualsBatchIff(h: Hash, prefix: string, n: nat, db0: Db, ops: seq<Op>)
    requires Unused(prefix, db0)
    ensures Run(h, prefix, n, Tree(db0, 0), ops).db == Batch(h, prefix, n, db0, Leaves([], ops))
            <==> |Leaves([], ops)| <= Pow2(n)
  {
    var t, leaves := Tree(db0, 0), Leaves([], ops);
    BatchHolds(h, prefix, n, db0, leaves);
    var batch := Batch(h, prefix, n, db0, leaves);
    if |leaves| <= Pow2(n) {
      EmptyHolds(h, prefix, n, db0);
      RunHolds(h, prefix, n, [], t, ops);
      HoldsUnique(h, prefix, n, leaves, db0, batch, Run(h, prefix, n, t, ops).db);
    } else {
      CountBeyond(|leaves|, n, n);
      assert HoldsNode(h, prefix, n, leaves, batch, n, 1);
      RunTop(h, prefix, n, t, ops, 1);
    }
  }

  lemma EmptyHolds(h: Hash, prefix: string, n: nat, db0: Db)
    requires Unused(prefix, db0)
    ensures Holds(h, prefix, n, [], db0)
  {
    forall l: nat, i: nat ensures HoldsNode(h, prefix, n, [], db0, l, i) { NoneCounted(l); }
  }

  lemma {:induction false} NoneCounted(l: nat)
    ensures Count(0, l) == 0
  {
    if l == 0 {
    } else {
      NoneCounted(l - 1);
    }
  }

  /** A run on one tree does not disturb another tree in the same storage. */
  lemma OtherTreesKept(h: Hash, prefix: string, n: nat, db: Db, k: nat, x: Element, leaves: seq<Element>,
                       leaves': seq<Element>,
                       h2: Hash, prefix2: string, n2: nat, leaves2: seq<Element>)
    requires Holds(h, prefix, n, leaves, db) && Replaces(n, leaves, k, x, leaves')
    requires prefix2 != prefix && Holds(h2, prefix2, n2, leaves2, db)
    ensures Holds(h2, prefix2, n2, leaves2, UpdateStore(h, prefix, n, db, k, x))
  {
    UpdateKeepsHolds(h, prefix, n, leaves, db, k, x, leaves');
    var db' := UpdateStore(h, prefix, n, db, k, x);
    forall l: nat, i: nat ensures HoldsNode(h2, prefix2, n2, leaves2, db', l, i) {
      assert HoldsNode(h2, prefix2, n2, leaves2, db, l, i);
      if IsKey(prefix, Key(prefix2, l, i)) {
        var l1: nat, i1: nat :| Key(prefix2, l, i) == Key(prefix, l1, i1);
        KeyInjective(prefix2, l, i, prefix, l1, i1);
      }
    }
  }
}
