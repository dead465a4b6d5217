/** The incremental Merkle tree of tornado_core: what its storage should hold, and
    what its operations write. */
module Merkle {
  import opened Numerals

  type Element = string
  type Hash = (Element, Element) -> Element
  type Db = map<string, Element>

  const ZERO_VALUE: Element := "21663839004416932945382355908790599225266501822907911457504978515578255421292"

  /** Storage key of the node `index` of level `level`. */
  function Key(prefix: string, level: nat, index: nat): string {
    prefix + "_tree_" + Dec(level) + "_" + Dec(index)
  }

  lemma DigitBehind(a: string, x: string, k: nat)
    requires AllDigits(x) && |a| < k < |a| + 1 + |x|
    ensures IsDigit((a + "_" + x)[k])
  {
    assert (a + "_" + x)[k] == x[k - |a| - 1];
  }

  lemma SplitAtLastUnderscore(a: string, x: string, b: string, y: string)
    requires AllDigits(x) && AllDigits(y) && a + "_" + x == b + "_" + y
    ensures a == b && x == y
  {
    var s := a + "_" + x;
    assert s[|a|] == '_' && s[|b|] == '_';
    if |a| < |b| { DigitBehind(a, x, |b|); }
    if |b| < |a| { DigitBehind(b, y, |a|); }
    assert s[..|a|] == a && s[..|b|] == b && s[|a| + 1..] == x && s[|b| + 1..] == y;
  }

  /** Different nodes, even of trees with different prefixes, have different keys. */
  lemma KeyInjective(p: string, l: nat, i: nat, p': string, l': nat, i': nat)
    requires Key(p, l, i) == Key(p', l', i')
    ensures p == p' && l == l' && i == i'
  {
    SplitAtLastUnderscore(p + "_tree_" + Dec(l), Dec(i), p' + "_tree_" + Dec(l'), Dec(i'));
    assert p + "_tree_" + Dec(l) == (p + "_tree") + "_" + Dec(l);
    assert p' + "_tree_" + Dec(l') == (p' + "_tree") + "_" + Dec(l');
    SplitAtLastUnderscore(p + "_tree", Dec(l), p' + "_tree", Dec(l'));
    assert (p + "_tree")[..|p|] == p && (p' + "_tree")[..|p'|] == p';
    DecInjective(l, l');
    DecInjective(i, i');
  }

  /** The root of an empty subtree of height `l`. */
  function Zero(h: Hash, l: nat): Element {
    if l == 0 then ZERO_VALUE else h(Zero(h, l - 1), Zero(h, l - 1))
  }

  function Leaf(leaves: seq<Element>, i: nat): Element {
    if i < |leaves| then leaves[i] else ZERO_VALUE
  }

  /** The naive recursive hash of the zero-padded leaves under a node. */
  function Node(h: Hash, leaves: seq<Element>, l: nat, i: nat): Element {
    if l == 0 then Leaf(leaves, i) else h(Node(h, leaves, l - 1, 2 * i), Node(h, leaves, l - 1, 2 * i + 1))
  }

  /** How many nodes of level `l` have a leaf under them. */
  function Count(m: nat, l: nat): nat {
    if l == 0 then m else (Count(m, l - 1) + 1) / 2
  }

  /** The ancestor of leaf `i` on level `l`. */
  function Ancestor(i: nat, l: nat): nat {
    if l == 0 then i else Ancestor(i, l - 1) / 2
  }

  function Pow2(n: nat): (r: nat)
    ensures r >= 1
  {
    if n == 0 then 1 else 2 * Pow2(n - 1)
  }

  function Sibling(i: nat): nat {
    if i % 2 == 0 then i + 1 else i - 1
  }

  function GetOr(db: Db, key: string, default: Element): Element {
    if key in db then db[key] else default
  }

  /** The storage holds, under `prefix`, exactly the nodes that have leaves under
      them, with their recursive hashes. */
  ghost predicate Holds(h: Hash, prefix: string, n: nat, leaves: seq<Element>, db: Db) {
    forall l: nat, i: nat :: HoldsNode(h, prefix, n, leaves, db, l, i)
  }

  ghost predicate HoldsNode(h: Hash, prefix: string, n: nat, leaves: seq<Element>, db: Db, l: nat, i: nat) {
    && (Key(prefix, l, i) in db <==> l <= n && i < Count(|leaves|, l))
    && (Key(prefix, l, i) in db ==> db[Key(prefix, l, i)] == Node(h, leaves, l, i))
  }

  ghost predicate IsKey(prefix: string, key: string) {
    exists l: nat, i: nat :: key == Key(prefix, l, i)
  }

  /** `db'` differs from `db` only at keys of this prefix. */
  ghost predicate SameElsewhere(prefix: string, db: Db, db': Db) {
    forall key :: !IsKey(prefix, key) ==>
      (key in db <==> key in db') && (key in db ==> db[key] == db'[key])
  }

  /** The storage contents are determined by the leaves. */
  lemma HoldsUnique(h: Hash, prefix: string, n: nat, leaves: seq<Element>, db0: Db, db1: Db, db2: Db)
    requires Holds(h, prefix, n, leaves, db1) && Holds(h, prefix, n, leaves, db2)
    requires SameElsewhere(prefix, db0, db1) && SameElsewhere(prefix, db0, db2)
    ensures db1 == db2
  {
    forall key ensures key in db1 <==> key in db2
               ensures key in db1 && key in db2 ==> db1[key] == db2[key]
    {
      if IsKey(prefix, key) {
        var l: nat, i: nat :| key == Key(prefix, l, i);
        assert HoldsNode(h, prefix, n, leaves, db1, l, i) && HoldsNode(h, prefix, n, leaves, db2, l, i);
      }
    }
  }

  lemma {:induction false} NodeDefault(h: Hash, leaves: seq<Element>, l: nat, i: nat)
    requires i >= Count(|leaves|, l)
    ensures Node(h, leaves, l, i) == Zero(h, l)
  {
    if l == 0 {
    } else {
      NodeDefault(h, leaves, l - 1, 2 * i);
      NodeDefault(h, leaves, l - 1, 2 * i + 1);
    }
  }

  /** Every lookup, also of an absent node, gives the recursive hash. */
  lemma LookupIsNode(h: Hash, prefix: string, n: nat, leaves: seq<Element>, db: Db, l: nat, i: nat)
    requires Holds(h, prefix, n, leaves, db) && l <= n
    ensures GetOr(db, Key(prefix, l, i), Zero(h, l)) == Node(h, leaves, l, i)
  {
    assert HoldsNode(h, prefix, n, leaves, db, l, i);
    if i >= Count(|leaves|, l) { NodeDefault(h, leaves, l, i); }
  }

  ghost predicate AgreeExcept(leaves: seq<Element>, leaves': seq<Element>, k: nat) {
    forall i: nat :: i != k ==> Leaf(leaves, i) == Leaf(leaves', i)
  }

  /** Changing one leaf changes only its ancestors. */
  lemma {:induction false} NodeUntouched(h: Hash, leaves: seq<Element>, leaves': seq<Element>, k: nat, l: nat, i: nat)
    requires AgreeExcept(leaves, leaves', k) && i != Ancestor(k, l)
    ensures Node(h, leaves, l, i) == Node(h, leaves', l, i)
  {
    if l == 0 {
    } else {
      NodeUntouched(h, leaves, leaves', k, l - 1, 2 * i);
      NodeUntouched(h, leaves, leaves', k, l - 1, 2 * i + 1);
    }
  }

  lemma {:induction false} CountBounds(m: nat, l: nat)
    ensures Ancestor(m, l) <= Count(m, l) <= Ancestor(m, l) + 1
    ensures Count(m + 1, l) == Ancestor(m, l) + 1
  {
    if l == 0 {
    } else {
      CountBounds(m, l - 1);
    }
  }

  lemma {:induction false} AncestorCounted(k: nat, m: nat, l: nat)
    requires k < m
    ensures Ancestor(k, l) < Count(m, l)
  {
    if l == 0 {
    } else {
      AncestorCounted(k, m, l - 1);
    }
  }

  lemma {:induction false} AncestorBelow(k: nat, n: nat, l: nat)
    requires k < Pow2(n) && l <= n
    ensures Ancestor(k, l) < Pow2(n - l)
  {
    if l == 0 {
    } else {
      AncestorBelow(k, n, l - 1);
      assert Pow2(n - (l - 1)) == 2 * Pow2(n - l);
    }
  }

  lemma AncestorIsRoot(k: nat, n: nat)
    requires k < Pow2(n)
    ensures Ancestor(k, n) == 0
  {
    AncestorBelow(k, n, n);
  }

  /** What the update walk queues from level `l` on: the current element at each
      level of the path, and last the root. */
  function Puts(h: Hash, db: Db, prefix: string, index: nat, element: Element, l: nat, n: nat): seq<(string, Element)>
    requires l <= n
    decreases n - l
  {
    if l == n then [(Key(prefix, n, 0), element)]
    else
      [(Key(prefix, l, index), element)] +
      Puts(h, db, prefix, index / 2, Combine(h, db, prefix, index, element, l), l + 1, n)
  }

  function Combine(h: Hash, db: Db, prefix: string, index: nat, element: Element, l: nat): Element {
    var sibling := GetOr(db, Key(prefix, l, Sibling(index)), Zero(h, l));
    if index % 2 == 0 then h(element, sibling) else h(sibling, element)
  }

  function PutBatch(db: Db, puts: seq<(string, Element)>): Db
    decreases |puts|
  {
    if puts == [] then db else PutBatch(db[puts[0].0 := puts[0].1], puts[1..])
  }

  function UpdateStore(h: Hash, prefix: string, n: nat, db: Db, index: nat, element: Element): Db {
    PutBatch(db, Puts(h, db, prefix, index, element, 0, n))
  }

  /** On the path of leaf `k` the walk computes the new hashes. */
  lemma CombineIsNode(h: Hash, prefix: string, n: nat, leaves: seq<Element>, leaves': seq<Element>, db: Db, k: nat,
                      l: nat)
    requires Holds(h, prefix, n, leaves, db) && AgreeExcept(leaves, leaves', k) && l < n
    ensures Combine(h, db, prefix, Ancestor(k, l), Node(h, leaves', l, Ancestor(k, l)), l)
         == Node(h, leaves', l + 1, Ancestor(k, l + 1))
  {
    var i := Ancestor(k, l);
    LookupIsNode(h, prefix, n, leaves, db, l, Sibling(i));
    NodeUntouched(h, leaves, leaves', k, l, Sibling(i));
    assert Ancestor(k, l + 1) == i / 2;
  }

  /** The writes of the walk, started at level `l`, in terms of the new leaves. */
  ghost predicate Written(h: Hash, prefix: string, n: nat, leaves': seq<Element>, k: nat, l: nat, db: Db, db': Db) {
    && (forall j: nat, i: nat :: WrittenNode(h, prefix, n, leaves', k, l, db, db', j, i))
    && SameElsewhere(prefix, db, db')
  }

  ghost predicate WrittenNode(h: Hash, prefix: string, n: nat, leaves': seq<Element>, k: nat, l: nat, db: Db, db': Db,
                              j: nat, i: nat) {
    var key := Key(prefix, j, i);
    if l <= j <= n && i == Ancestor(k, j) then key in db' && db'[key] == Node(h, leaves', j, i)
    else (key in db' <==> key in db) && (key in db ==> db'[key] == db[key])
  }

  lemma {:induction false} WalkWrites(h: Hash, prefix: string, n: nat, leaves: seq<Element>, leaves': seq<Element>,
                                      db: Db, k: nat, l: nat, acc: Db)
    requires Holds(h, prefix, n, leaves, db) && AgreeExcept(leaves, leaves', k)
    requires l <= n && Ancestor(k, n) == 0
    ensures Written(h, prefix, n, leaves', k, l, acc,
                    PutBatch(acc, Puts(h, db, prefix, Ancestor(k, l), Node(h, leaves', l, Ancestor(k, l)), l, n)))
    decreases n - l
  {
    var a := Ancestor(k, l);
    var e := Node(h, leaves', l, a);
    var puts := Puts(h, db, prefix, a, e, l, n);
    var acc1 := acc[Key(prefix, l, a) := e];
    if l == n {
      assert puts == [(Key(prefix, n, 0), e)];
      assert PutBatch(acc, puts) == acc1;
      OneWrite(h, prefix, n, leaves', k, l, acc, acc1, acc1);
    } else {
      CombineIsNode(h, prefix, n, leaves, leaves', db, k, l);
      WalkWrites(h, prefix, n, leaves, leaves', db, k, l + 1, acc1);
      var rest := Puts(h, db, prefix, Ancestor(k, l + 1), Node(h, leaves', l + 1, Ancestor(k, l + 1)), l + 1, n);
      assert puts == [(Key(prefix, l, a), e)] + rest;
      assert puts[1..] == rest;
      OneWrite(h, prefix, n, leaves', k, l, acc, acc1, PutBatch(acc1, rest));
    }
  }

  /** One write on level `l` followed by the writes above it. */
  lemma OneWrite(h: Hash, prefix: string, n: nat, leaves': seq<Element>, k: nat, l: nat, acc: Db, acc1: Db, acc2: Db)
    requires l <= n && acc1 == acc[Key(prefix, l, Ancestor(k, l)) := Node(h, leaves', l, Ancestor(k, l))]
    requires (acc2 == acc1 && l == n) || Written(h, prefix, n, leaves', k, l + 1, acc1, acc2)
    ensures Written(h, prefix, n, leaves', k, l, acc, acc2)
  {
    forall j: nat, i: nat ensures WrittenNode(h, prefix, n, leaves', k, l, acc, acc2, j, i) {
      if acc2 != acc1 || l != n { assert WrittenNode(h, prefix, n, leaves', k, l + 1, acc1, acc2, j, i); }
      if Key(prefix, j, i) == Key(prefix, l, Ancestor(k, l)) {
        KeyInjective(prefix, j, i, prefix, l, Ancestor(k, l));
      }
    }
    assert IsKey(prefix, Key(prefix, l, Ancestor(k, l)));
  }

  /** One operation: replacing a leaf, or appending one while there is room. */
  ghost predicate Replaces(n: nat, leaves: seq<Element>, k: nat, x: Element, leaves': seq<Element>) {
    || (k < |leaves| <= Pow2(n) && leaves' == leaves[k := x])
    || (k == |leaves| < Pow2(n) && leaves' == leaves + [x])
  }

  /** The walk writes one path, and that is enough. */
  lemma UpdateKeepsHolds(h: Hash, prefix: string, n: nat, leaves: seq<Element>, db: Db, k: nat, x: Element,
                         leaves': seq<Element>)
    requires Holds(h, prefix, n, leaves, db) && Replaces(n, leaves, k, x, leaves')
    ensures Holds(h, prefix, n, leaves', UpdateStore(h, prefix, n, db, k, x))
    ensures SameElsewhere(prefix, db, UpdateStore(h, prefix, n, db, k, x))
  {
    AncestorIsRoot(k, n);
    assert Ancestor(k, 0) == k && Node(h, leaves', 0, k) == x;
    WalkWrites(h, prefix, n, leaves, leaves', db, k, 0, db);
    var db' := UpdateStore(h, prefix, n, db, k, x);
    forall l: nat, i: nat ensures HoldsNode(h, prefix, n, leaves', db', l, i) {
      assert WrittenNode(h, prefix, n, leaves', k, 0, db, db', l, i);
      assert HoldsNode(h, prefix, n, leaves, db, l, i);
      if i != Ancestor(k, l) { NodeUntouched(h, leaves, leaves', k, l, i); }
      if k < |leaves| {
        AncestorCounted(k, |leaves|, l);
      } else {
        CountBounds(|leaves|, l);
      }
    }
  }

  /** The batch constructor: leaves first, then each level from the one below. */
  function BatchLeaves(prefix: string, db: Db, leaves: seq<Element>, i: nat): Db
    requires i <= |leaves|
    decreases |leaves| - i
  {
    if i == |leaves| then db else BatchLeaves(prefix, db[Key(prefix, 0, i) := leaves[i]], leaves, i + 1)
  }

  function SubRoot(h: Hash, prefix: string, db: Db, l: nat, i: nat): Element
    requires l >= 1
  {
    h(GetOr(db, Key(prefix, l - 1, 2 * i), ""), GetOr(db, Key(prefix, l - 1, 2 * i + 1), Zero(h, l - 1)))
  }

  function BatchLevel(h: Hash, prefix: string, db: Db, l: nat, i: nat, count: nat): Db
    requires l >= 1 && i <= count
    decreases count - i
  {
    if i == count then db
    else BatchLevel(h, prefix, db[Key(prefix, l, i) := SubRoot(h, prefix, db, l, i)], l, i + 1, count)
  }

  function BatchLevels(h: Hash, prefix: string, n: nat, db: Db, l: nat, count: nat): Db
    requires 1 <= l <= n + 1
    decreases n + 1 - l
  {
    if l == n + 1 then db
    else BatchLevels(h, prefix, n, BatchLevel(h, prefix, db, l, 0, count), l + 1, (count + 1) / 2)
  }

  function Batch(h: Hash, prefix: string, n: nat, db: Db, leaves: seq<Element>): Db {
    BatchLevels(h, prefix, n, BatchLeaves(prefix, db, leaves, 0), 1, (|leaves| + 1) / 2)
  }

  /** A storage filled on all levels below `l`, and on level `l` up to index `i`. */
  ghost predicate Filled(h: Hash, prefix: string, leaves: seq<Element>, db0: Db, db: Db, l: nat, i: nat) {
    && (forall j: nat, k: nat :: FilledNode(h, prefix, leaves, db, l, i, j, k))
    && SameElsewhere(prefix, db0, db)
  }

  ghost predicate FilledNode(h: Hash, prefix: string, leaves: seq<Element>, db: Db, l: nat, i: nat, j: nat, k: nat) {
    && (Key(prefix, j, k) in db <==> k < Count(|leaves|, j) && (j < l || (j == l && k < i)))
    && (Key(prefix, j, k) in db ==> db[Key(prefix, j, k)] == Node(h, leaves, j, k))
  }

  ghost predicate Unused(prefix: string, db: Db) {
    forall l: nat, i: nat :: Key(prefix, l, i) !in db
  }

  lemma FillOne(h: Hash, prefix: string, leaves: seq<Element>, db0: Db, db: Db, l: nat, i: nat)
    requires Filled(h, prefix, leaves, db0, db, l, i) && i < Count(|leaves|, l)
    ensures Filled(h, prefix, leaves, db0, db[Key(prefix, l, i) := Node(h, leaves, l, i)], l, i + 1)
  {
    var db' := db[Key(prefix, l, i) := Node(h, leaves, l, i)];
    var i' := i + 1;
    forall j: nat, k: nat ensures FilledNode(h, prefix, leaves, db', l, i', j, k) {
      assert FilledNode(h, prefix, leaves, db, l, i, j, k);
      if Key(prefix, j, k) == Key(prefix, l, i) { KeyInjective(prefix, j, k, prefix, l, i); }
    }
    assert IsKey(prefix, Key(prefix, l, i));
  }

  lemma NextLevel(h: Hash, prefix: string, leaves: seq<Element>, db0: Db, db: Db, l: nat)
    requires Filled(h, prefix, leaves, db0, db, l, Count(|leaves|, l))
    ensures Filled(h, prefix, leaves, db0, db, l + 1, 0)
  {
    var l' := l + 1;
    forall j: nat, k: nat ensures FilledNode(h, prefix, leaves, db, l', 0, j, k) {
      assert FilledNode(h, prefix, leaves, db, l, Count(|leaves|, l), j, k);
    }
  }

  lemma SubRootIsNode(h: Hash, prefix: string, leaves: seq<Element>, db0: Db, db: Db, l: nat, i: nat)
    requires l >= 1 && Filled(h, prefix, leaves, db0, db, l, i) && i < Count(|leaves|, l)
    ensures SubRoot(h, prefix, db, l, i) == Node(h, leaves, l, i)
    ensures Key(prefix, l - 1, 2 * i) in db
  {
    var j, k := l - 1, 2 * i;
    CountBelow(|leaves|, l, i);
    ChildIsNode(h, prefix, leaves, db0, db, l, i, j, k);
    ChildIsNode(h, prefix, leaves, db0, db, l, i, j, k + 1);
    SubRootOf(h, prefix, leaves, db, l, i, j, k);
  }

  lemma CountBelow(m: nat, l: nat, i: nat)
    requires l >= 1 && i < Count(m, l)
    ensures 2 * i < Count(m, l - 1)
  {
  }

  lemma SubRootOf(h: Hash, prefix: string, leaves: seq<Element>, db: Db, l: nat, i: nat, j: nat, k: nat)
    requires l == j + 1 && k == 2 * i && Key(prefix, j, k) in db
    requires GetOr(db, Key(prefix, j, k), Zero(h, j)) == Node(h, leaves, j, k)
    requires GetOr(db, Key(prefix, j, k + 1), Zero(h, j)) == Node(h, leaves, j, k + 1)
    ensures SubRoot(h, prefix, db, l, i) == Node(h, leaves, l, i)
  {
  }

  /** A node of the level below is there with its hash, or absent with its default. */
  lemma ChildIsNode(h: Hash, prefix: string, leaves: seq<Element>, db0: Db, db: Db, l: nat, i: nat, j: nat, k: nat)
    requires Filled(h, prefix, leaves, db0, db, l, i) && j < l
    ensures GetOr(db, Key(prefix, j, k), Zero(h, j)) == Node(h, leaves, j, k)
    ensures k < Count(|leaves|, j) ==> Key(prefix, j, k) in db
  {
    assert FilledNode(h, prefix, leaves, db, l, i, j, k);
    if k >= Count(|leaves|, j) { NodeDefault(h, leaves, j, k); }
  }

  lemma {:induction false} BatchLeavesFill(h: Hash, prefix: string, leaves: seq<Element>, db0: Db, db: Db, i: nat)
    requires i <= |leaves| && Filled(h, prefix, leaves, db0, db, 0, i)
    ensures Filled(h, prefix, leaves, db0, BatchLeaves(prefix, db, leaves, i), 0, |leaves|)
    decreases |leaves| - i
  {
    if i < |leaves| {
      FillOne(h, prefix, leaves, db0, db, 0, i);
      BatchLeavesFill(h, prefix, leaves, db0, db[Key(prefix, 0, i) := leaves[i]], i + 1);
    }
  }

  lemma BatchLevelStep(h: Hash, prefix: string, db: Db, db1: Db, l: nat, i: nat, count: nat)
    requires l >= 1 && i < count && db1 == db[Key(prefix, l, i) := SubRoot(h, prefix, db, l, i)]
    ensures BatchLevel(h, prefix, db, l, i, count) == BatchLevel(h, prefix, db1, l, i + 1, count)
  {
  }

  lemma {:induction false} BatchLevelFills(h: Hash, prefix: string, leaves: seq<Element>, db0: Db, db: Db, l: nat,
                                           i: nat)
    requires l >= 1 && i <= Count(|leaves|, l) && Filled(h, prefix, leaves, db0, db, l, i)
    ensures Filled(h, prefix, leaves, db0, BatchLevel(h, prefix, db, l, i, Count(|leaves|, l)), l, Count(|leaves|, l))
    decreases Count(|leaves|, l) - i
  {
    if i < Count(|leaves|, l) {
      var db1 := db[Key(prefix, l, i) := Node(h, leaves, l, i)];
      SubRootIsNode(h, prefix, leaves, db0, db, l, i);
      BatchLevelStep(h, prefix, db, db1, l, i, Count(|leaves|, l));
      FillOne(h, prefix, leaves, db0, db, l, i);
      BatchLevelFills(h, prefix, leaves, db0, db1, l, i + 1);
    }
  }

  lemma {:induction false} BatchLevelsFill(h: Hash, prefix: string, n: nat, leaves: seq<Element>, db0: Db, db: Db,
                                           l: nat)
    requires 1 <= l <= n + 1 && Filled(h, prefix, leaves, db0, db, l, 0)
    ensures Filled(h, prefix, leaves, db0, BatchLevels(h, prefix, n, db, l, Count(|leaves|, l)), n + 1, 0)
    decreases n + 1 - l
  {
    if l <= n {
      BatchLevelFills(h, prefix, leaves, db0, db, l, 0);
      var db1 := BatchLevel(h, prefix, db, l, 0, Count(|leaves|, l));
      NextLevel(h, prefix, leaves, db0, db1, l);
      BatchLevelsFill(h, prefix, n, leaves, db0, db1, l + 1);
    }
  }

  /** The batch builder produces exactly the storage of its leaves, however many. */
  lemma BatchHolds(h: Hash, prefix: string, n: nat, db0: Db, leaves: seq<Element>)
    requires Unused(prefix, db0)
    ensures Holds(h, prefix, n, leaves, Batch(h, prefix, n, db0, leaves))
    ensures SameElsewhere(prefix, db0, Batch(h, prefix, n, db0, leaves))
  {
    forall j: nat, k: nat ensures FilledNode(h, prefix, leaves, db0, 0, 0, j, k) {}
    BatchLeavesFill(h, prefix, leaves, db0, db0, 0);
    var db1 := BatchLeaves(prefix, db0, leaves, 0);
    NextLevel(h, prefix, leaves, db0, db1, 0);
    assert Count(|leaves|, 1) == (|leaves| + 1) / 2;
    BatchLevelsFill(h, prefix, n, leaves, db0, db1, 1);
    var db := Batch(h, prefix, n, db0, leaves);
    forall l: nat, i: nat ensures HoldsNode(h, prefix, n, leaves, db, l, i) {
      assert FilledNode(h, prefix, leaves, db, n + 1, 0, l, i);
    }
  }
}
