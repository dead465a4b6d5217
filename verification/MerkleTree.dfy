/** The tree and its storage as they run. */
module MerkleTree {
  import opened Merkle
  import Paths = MerklePaths
  import Runs = MerkleRuns
  import opened Wrappers

  class JsStorage {
    var db: Db

    constructor ()
      ensures db == map[]
    {
      db := map[];
    }

    method Get(key: string) returns (r: Option<Element>)
      ensures r == if key in db then Some(db[key]) else None
    {
      r := if key in db then Some(db[key]) else None;
    }

    method GetOrElement(key: string, default: Element) returns (r: Element)
      ensures r == GetOr(db, key, default)
    {
      r := if key in db then db[key] else default;
    }

    method Put(key: string, value: Element)
      modifies this
      ensures db == old(db)[key := value]
    {
      db := db[key := value];
    }

    method PutAll(keyValues: seq<(string, Element)>)
      modifies this
      ensures db == PutBatch(old(db), keyValues)
    {
      for i := 0 to |keyValues|
        invariant PutBatch(old(db), keyValues) == PutBatch(db, keyValues[i..])
      {
        assert keyValues[i..][1..] == keyValues[i + 1..];
        db := db[keyValues[i].0 := keyValues[i].1];
      }
    }
  }

  datatype Path = Path(root: Element, elements: seq<Element>, index: seq<nat>, element: Element)

  class MerkleTree {
    const prefix: string
    const storage: JsStorage
    const hash: Hash
    const levels: nat
    var zeroValues: seq<Element>
    var totalElements: nat

    ghost predicate Valid()
      reads this
    {
      |zeroValues| == levels + 1 && forall l :: 0 <= l <= levels ==> zeroValues[l] == Zero(hash, l)
    }

    /** The tree of `leaves` over the storage it shares with other trees. */
    ghost predicate Represents(leaves: seq<Element>)
      reads this, storage
    {
      Valid() && totalElements == |leaves| && Holds(hash, prefix, levels, leaves, storage.db)
    }

    constructor (levels: nat, leaves: seq<Element>, prefix: string, storage: JsStorage, hash: Hash)
      modifies storage
      ensures Valid() && totalElements == |leaves|
      ensures this.prefix == prefix && this.storage == storage && this.hash == hash && this.levels == levels
      ensures storage.db == Batch(hash, prefix, levels, old(storage.db), leaves)
    {
      this.levels, this.prefix, this.storage, this.hash := levels, prefix, storage, hash;
      zeroValues, totalElements := [ZERO_VALUE], |leaves|;
      new;
      for i := 0 to levels
        invariant |zeroValues| == i + 1 && forall l :: 0 <= l <= i ==> zeroValues[l] == Zero(hash, l)
        invariant storage.db == old(storage.db) && totalElements == |leaves|
      {
        zeroValues := zeroValues + [hash(zeroValues[i], zeroValues[i])];
      }
      BuildFrom(leaves);
    }

    /** The block that stores the default elements and hashes them level by level. */
    method BuildFrom(leaves: seq<Element>)
      requires Valid()
      modifies storage
      ensures storage.db == Batch(hash, prefix, levels, old(storage.db), leaves)
    {
      for i := 0 to |leaves|
        invariant BatchLeaves(prefix, old(storage.db), leaves, 0) == BatchLeaves(prefix, storage.db, leaves, i)
      {
        storage.Put(Key(prefix, 0, i), leaves[i]);
      }
      var count: nat := (|leaves| + 1) / 2;
      for level := 1 to levels + 1
        invariant Batch(hash, prefix, levels, old(storage.db), leaves) ==
                  BatchLevels(hash, prefix, levels, storage.db, level, count)
      {
        BuildLevel(level, count);
        count := (count + 1) / 2;
      }
    }

    method BuildLevel(level: nat, count: nat)
      requires Valid() && 1 <= level <= levels
      modifies storage
      ensures storage.db == BatchLevel(hash, prefix, old(storage.db), level, 0, count)
    {
      for i := 0 to count
        invariant BatchLevel(hash, prefix, old(storage.db), level, 0, count)
               == BatchLevel(hash, prefix, storage.db, level, i, count)
      {
        var left := storage.GetOrElement(Key(prefix, level - 1, 2 * i), "");
        var right := storage.GetOrElement(Key(prefix, level - 1, 2 * i + 1), zeroValues[level - 1]);
        storage.Put(Key(prefix, level, i), hash(left, right));
      }
    }

    method Root() returns (root: Element)
      requires Valid()
      ensures root == GetOr(storage.db, Key(prefix, levels, 0), Zero(hash, levels))
      ensures forall leaves :: Represents(leaves) ==> root == Node(hash, leaves, levels, 0)
    {
      root := storage.GetOrElement(Key(prefix, levels, 0), zeroValues[levels]);
      forall leaves | Represents(leaves) ensures root == Node(hash, leaves, levels, 0) {
        LookupIsNode(hash, prefix, levels, leaves, storage.db, levels, 0);
      }
    }

    method PathOf(index: nat) returns (path: Path)
      requires Valid()
      ensures path == Path(GetOr(storage.db, Key(prefix, levels, 0), Zero(hash, levels)),
                           Paths.PathElements(hash, prefix, storage.db, index, 0, levels),
                           Paths.PathIndex(index, levels),
                           GetOr(storage.db, Key(prefix, 0, index), Zero(hash, 0)))
    {
      var root := storage.GetOrElement(Key(prefix, levels, 0), zeroValues[levels]);
      var element := storage.GetOrElement(Key(prefix, 0, index), zeroValues[0]);
      var elements: seq<Element>, bits: seq<nat>, current := [], [], index;
      for i := 0 to levels
        invariant Paths.PathElements(hash, prefix, storage.db, index, 0, levels)
               == elements + Paths.PathElements(hash, prefix, storage.db, current, i, levels)
        invariant Paths.PathIndex(index, levels) == bits + Paths.PathIndex(current, levels - i)
      {
        var sibling := storage.GetOrElement(Key(prefix, i, Sibling(current)), zeroValues[i]);
        elements := elements + [sibling];
        bits := bits + [current % 2];
        current := current / 2;
      }
      path := Path(root, elements, bits, element);
    }

    /** Refused when a new leaf is not asked for as an insert, or an old one as an
        update. */
    method UpdateLeaf(index: nat, element: Element, insert: bool) returns (ok: bool)
      requires Valid()
      modifies storage
      ensures ok == if insert then index >= totalElements else index < totalElements
      ensures storage.db ==
              if ok then UpdateStore(hash, prefix, levels, old(storage.db), index, element) else old(storage.db)
    {
      if !insert && index >= totalElements { return false; }
      if insert && index < totalElements { return false; }
      var puts, current, currentElement := [], index, element;
      for i := 0 to levels
        invariant storage.db == old(storage.db)
        invariant Puts(hash, storage.db, prefix, index, element, 0, levels)
               == puts + Puts(hash, storage.db, prefix, current, currentElement, i, levels)
      {
        var sibling := storage.GetOrElement(Key(prefix, i, Sibling(current)), zeroValues[i]);
        puts := puts + [(Key(prefix, i, current), currentElement)];
        currentElement := if current % 2 == 0 then hash(currentElement, sibling) else hash(sibling, currentElement);
        current := current / 2;
      }
      puts := puts + [(Key(prefix, levels, 0), currentElement)];
      storage.PutAll(puts);
      ok := true;
    }

    method Update(index: nat, element: Element) returns (ok: bool)
      requires Valid()
      modifies storage
      ensures ok == (index < totalElements)
      ensures Runs.Tree(storage.db, totalElements)
           == Runs.Step(hash, prefix, levels, Runs.Tree(old(storage.db), totalElements), Runs.Update(index, element))
      ensures forall leaves :: old(Represents(leaves)) && index < |leaves| <= Pow2(levels) ==>
                Represents(leaves[index := element])
    {
      ok := UpdateLeaf(index, element, false);
      forall leaves | old(Represents(leaves)) && index < |leaves| <= Pow2(levels)
        ensures Represents(leaves[index := element])
      {
        UpdateKeepsHolds(hash, prefix, levels, leaves, old(storage.db), index, element, leaves[index := element]);
      }
    }

    method Insert(element: Element)
      requires Valid()
      modifies this`totalElements, storage
      ensures Valid()
      ensures Runs.Tree(storage.db, totalElements)
           == Runs.Step(hash, prefix, levels, Runs.Tree(old(storage.db), old(totalElements)), Runs.Insert(element))
      ensures forall leaves :: old(Represents(leaves)) && |leaves| < Pow2(levels) ==> Represents(leaves + [element])
    {
      var ok := UpdateLeaf(totalElements, element, true);
      totalElements := totalElements + 1;
      forall leaves | old(Represents(leaves)) && |leaves| < Pow2(levels) ensures Represents(leaves + [element]) {
        UpdateKeepsHolds(hash, prefix, levels, leaves, old(storage.db), |leaves|, element, leaves + [element]);
      }
    }

    /** The last leaf equal to `element`. */
    method GetIndexByElement(element: Element, ghost leaves: seq<Element>) returns (index: Option<nat>)
      requires Represents(leaves)
      ensures index.Some? ==>
                index.value < |leaves| && leaves[index.value] == element && element !in leaves[index.value + 1..]
      ensures index.None? ==> element !in leaves
    {
      var i := totalElements;
      while i > 0
        invariant 0 <= i <= |leaves| && element !in leaves[i..]
      {
        i := i - 1;
        var found := storage.Get(Key(prefix, 0, i));
        assert HoldsNode(hash, prefix, levels, leaves, storage.db, 0, i);
        if found == Some(element) { return Some(i); }
        assert leaves[i..] == [leaves[i]] + leaves[i + 1..];
      }
      index := None;
    }
  }
}
