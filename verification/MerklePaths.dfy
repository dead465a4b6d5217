/** Membership paths: they fold to the root, the root determines the leaves, and an
    update touches at most one entry of any other leaf's path. */
module MerklePaths {
  import opened Merkle

  /** The siblings along the path of `index`, as looked up in the storage. */
  function PathElements(h: Hash, prefix: string, db: Db, index: nat, l: nat, n: nat): (r: seq<Element>)
    requires l <= n
    ensures |r| == n - l
    decreases n - l
  {
    if l == n then []
    else [GetOr(db, Key(prefix, l, Sibling(index)), Zero(h, l))] + PathElements(h, prefix, db, index / 2, l + 1, n)
  }

  function PathIndex(index: nat, n: nat): (r: seq<nat>)
    ensures |r| == n && forall b :: b in r ==> b < 2
  {
    if n == 0 then [] else [index % 2] + PathIndex(index / 2, n - 1)
  }

  /** Hashing an element up along siblings, to the right of it where the direction
      bit is 0. */
  function Fold(h: Hash, element: Element, siblings: seq<Element>, bits: seq<nat>): Element
    requires |siblings| == |bits|
    decreases |siblings|
  {
    if siblings == [] then element
    else Fold(h, if bits[0] == 0 then h(element, siblings[0]) else h(siblings[0], element), siblings[1..], bits[1..])
  }

  function FromBits(bits: seq<nat>): nat {
    if bits == [] then 0 else bits[0] + 2 * FromBits(bits[1..])
  }

  /** The direction bits are the binary form of the index, lowest first. */
  lemma {:induction false} PathIndexIsBinary(index: nat, n: nat)
    requires index < Pow2(n)
    ensures FromBits(PathIndex(index, n)) == index
  {
    if n == 0 {
    } else {
      PathIndexIsBinary(index / 2, n - 1);
    }
  }

  lemma ParentHash(h: Hash, leaves: seq<Element>, l: nat, i: nat)
    ensures var (node, sibling) := (Node(h, leaves, l, i), Node(h, leaves, l, Sibling(i)));
            (if i % 2 == 0 then h(node, sibling) else h(sibling, node)) == Node(h, leaves, l + 1, i / 2)
  {
    assert i == 2 * (i / 2) || i == 2 * (i / 2) + 1;
  }

  lemma {:induction false} FoldFrom(h: Hash, prefix: string, n: nat, leaves: seq<Element>, db: Db, i: nat, l: nat)
    requires Holds(h, prefix, n, leaves, db) && l <= n
    ensures Fold(h, Node(h, leaves, l, i), PathElements(h, prefix, db, i, l, n), PathIndex(i, n - l))
         == Node(h, leaves, n, Ancestor(i, n - l))
    decreases n - l
  {
    if l < n {
      LookupIsNode(h, prefix, n, leaves, db, l, Sibling(i));
      ParentHash(h, leaves, l, i);
      FoldFrom(h, prefix, n, leaves, db, i / 2, l + 1);
      AncestorOfParent(i, n - l);
      var siblings, bits := PathElements(h, prefix, db, i, l, n), PathIndex(i, n - l);
      assert siblings[1..] == PathElements(h, prefix, db, i / 2, l + 1, n);
      assert bits[1..] == PathIndex(i / 2, n - (l + 1));
    }
  }

  lemma {:induction false} AncestorOfParent(i: nat, m: nat)
    requires m >= 1
    ensures Ancestor(i, m) == Ancestor(i / 2, m - 1)
  {
    if m > 1 { AncestorOfParent(i, m - 1); }
  }

  /** For every index of the tree, inserted or not, the path folds to the root, and
      the root is the recursive hash of the padded leaves. */
  lemma PathFoldsToRoot(h: Hash, prefix: string, n: nat, leaves: seq<Element>, db: Db, index: nat)
    requires Holds(h, prefix, n, leaves, db) && index < Pow2(n)
    ensures var element := GetOr(db, Key(prefix, 0, index), Zero(h, 0));
            var root := GetOr(db, Key(prefix, n, 0), Zero(h, n));
            && element == Leaf(leaves, index)
            && root == Node(h, leaves, n, 0)
            && Fold(h, element, PathElements(h, prefix, db, index, 0, n), PathIndex(index, n)) == root
  {
    LookupIsNode(h, prefix, n, leaves, db, 0, index);
    LookupIsNode(h, prefix, n, leaves, db, n, 0);
    AncestorIsRoot(index, n);
    FoldFrom(h, prefix, n, leaves, db, index, 0);
  }

  ghost predicate Injective(h: Hash) {
    forall a, b, a', b' :: h(a, b) == h(a', b') ==> a == a' && b == b'
  }

  /** Equal hashes on a level mean equal leaves below. */
  lemma {:induction false} NodeDeterminesLeaves(h: Hash, leaves: seq<Element>, leaves': seq<Element>, l: nat, k: nat)
    requires Injective(h) && Node(h, leaves, l, Ancestor(k, l)) == Node(h, leaves', l, Ancestor(k, l))
    ensures Leaf(leaves, k) == Leaf(leaves', k)
  {
    if l == 0 {
    } else {
      var i := Ancestor(k, l);
      assert Ancestor(k, l - 1) == 2 * i || Ancestor(k, l - 1) == 2 * i + 1;
      NodeDeterminesLeaves(h, leaves, leaves', l - 1, k);
    }
  }

  /** With an injective hash the root determines every padded leaf. */
  lemma RootDeterminesLeaves(h: Hash, n: nat, leaves: seq<Element>, leaves': seq<Element>)
    requires Injective(h) && Node(h, leaves, n, 0) == Node(h, leaves', n, 0)
    ensures forall k: nat :: k < Pow2(n) ==> Leaf(leaves, k) == Leaf(leaves', k)
  {
    forall k: nat | k < Pow2(n) ensures Leaf(leaves, k) == Leaf(leaves', k) {
      AncestorIsRoot(k, n);
      NodeDeterminesLeaves(h, leaves, leaves', n, k);
    }
  }

  /** Two proofs with the same directions and root prove the same element. */
  lemma {:induction false} ProofsAgree(h: Hash, e1: Element, s1: seq<Element>, e2: Element, s2: seq<Element>,
                                       bits: seq<nat>)
    requires Injective(h) && |s1| == |bits| && |s2| == |bits|
    requires Fold(h, e1, s1, bits) == Fold(h, e2, s2, bits)
    ensures e1 == e2 && s1 == s2
    decreases |bits|
  {
    if bits == [] {
    } else {
      var f1 := if bits[0] == 0 then h(e1, s1[0]) else h(s1[0], e1);
      var f2 := if bits[0] == 0 then h(e2, s2[0]) else h(s2[0], e2);
      ProofsAgree(h, f1, s1[1..], f2, s2[1..], bits[1..]);
      assert s1 == [s1[0]] + s1[1..] && s2 == [s2[0]] + s2[1..];
    }
  }

  lemma PathElementsStep(h: Hash, prefix: string, db: Db, index: nat, l: nat, n: nat, k: nat)
    requires l < n && k < n - l
    ensures PathElements(h, prefix, db, index, l, n)[k] ==
            if k == 0 then GetOr(db, Key(prefix, l, Sibling(index)), Zero(h, l))
            else PathElements(h, prefix, db, index / 2, l + 1, n)[k - 1]
  {
  }

  lemma {:induction false} PathElementAt(h: Hash, prefix: string, n: nat, leaves: seq<Element>, db: Db, i: nat, l: nat,
                                         k: nat, m: nat)
    requires Holds(h, prefix, n, leaves, db) && m == l + k < n
    ensures PathElements(h, prefix, db, i, l, n)[k] == Node(h, leaves, m, Sibling(Ancestor(i, k)))
    decreases k
  {
    PathElementsStep(h, prefix, db, i, l, n, k);
    if k == 0 {
      LookupIsNode(h, prefix, n, leaves, db, l, Sibling(i));
    } else {
      AncestorOfParent(i, k);
      PathElementAt(h, prefix, n, leaves, db, i / 2, l + 1, k - 1, m);
    }
  }

  /** Level `m` is where `i` and `j` first part on the way down: the bits above agree
      and bit `m` differs. */
  predicate PartAt(i: nat, j: nat, m: nat) {
    Ancestor(i, m) != Ancestor(j, m) && Ancestor(i, m + 1) == Ancestor(j, m + 1)
  }

  lemma {:induction false} AgreeAbove(i: nat, j: nat, m: nat, m': nat)
    requires m <= m' && Ancestor(i, m) == Ancestor(j, m)
    ensures Ancestor(i, m') == Ancestor(j, m')
    decreases m'
  {
    if m < m' { AgreeAbove(i, j, m, m' - 1); }
  }

  lemma PartAtIsUnique(i: nat, j: nat, m: nat, m': nat)
    requires PartAt(i, j, m) && PartAt(i, j, m')
    ensures m == m'
  {
    if m < m' { AgreeAbove(i, j, m + 1, m'); }
    if m' < m { AgreeAbove(i, j, m' + 1, m); }
  }

  /** Replacing leaf `k` changes an entry of the path of another leaf only on the
      level of the highest bit where the two indices differ, hence at most one. */
  lemma UpdateTouchesOneEntry(h: Hash, prefix: string, n: nat, db: Db, leaves: seq<Element>, leaves': seq<Element>,
                              k: nat, x: Element, j: nat, m: nat)
    requires Holds(h, prefix, n, leaves, db) && Replaces(n, leaves, k, x, leaves') && m < n
    ensures var before := PathElements(h, prefix, db, j, 0, n);
            var after := PathElements(h, prefix, UpdateStore(h, prefix, n, db, k, x), j, 0, n);
            before[m] != after[m] ==> PartAt(j, k, m)
  {
    UpdateKeepsHolds(h, prefix, n, leaves, db, k, x, leaves');
    PathElementAt(h, prefix, n, leaves, db, j, 0, m, m);
    PathElementAt(h, prefix, n, leaves', UpdateStore(h, prefix, n, db, k, x), j, 0, m, m);
    var i := Sibling(Ancestor(j, m));
    if i == Ancestor(k, m) {
      SiblingsPart(j, k, m);
    } else {
      NodeUntouched(h, leaves, leaves', k, m, i);
    }
  }

  lemma SiblingsPart(j: nat, k: nat, m: nat)
    requires Sibling(Ancestor(j, m)) == Ancestor(k, m)
    ensures PartAt(j, k, m)
  {
  }

  lemma AtMostOneEntryChanges(h: Hash, prefix: string, n: nat, db: Db, leaves: seq<Element>, leaves': seq<Element>,
                              k: nat, x: Element, j: nat)
    requires Holds(h, prefix, n, leaves, db) && Replaces(n, leaves, k, x, leaves')
    ensures var before := PathElements(h, prefix, db, j, 0, n);
            var after := PathElements(h, prefix, UpdateStore(h, prefix, n, db, k, x), j, 0, n);
            && (forall m, m' :: 0 <= m < n && 0 <= m' < n && before[m] != after[m] && before[m'] != after[m'] ==>
                  m == m')
            && (j == k ==> before == after)
  {
    var before := PathElements(h, prefix, db, j, 0, n);
    var after := PathElements(h, prefix, UpdateStore(h, prefix, n, db, k, x), j, 0, n);
    forall m | 0 <= m < n && before[m] != after[m] ensures PartAt(j, k, m) {
      UpdateTouchesOneEntry(h, prefix, n, db, leaves, leaves', k, x, j, m);
    }
    forall m, m' | 0 <= m < n && 0 <= m' < n && before[m] != after[m] && before[m'] != after[m'] ensures m == m' {
      PartAtIsUnique(j, k, m, m');
    }
  }
}
