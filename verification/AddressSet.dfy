/** The swap-remove address set of Synthetix: a list of elements and an index map in
    which 0 means both "first" and "absent". */
module AddressSet {
  import opened Words

  type Address = nat

  /** An address without entry in `indices` has index 0. */
  datatype Storage = Storage(elements: seq<Address>, indices: map<Address, uint256>)

  const EMPTY := Storage([], map[])

  function IndexOf(s: Storage, a: Address): uint256 {
    if a in s.indices then s.indices[a] else 0
  }

  /** Elements are distinct and the indices are inverse to them, absent ones being 0;
      the length is itself a storage word. */
  ghost predicate Valid(s: Storage) {
    && |s.elements| < MODULUS
    && (forall i :: 0 <= i < |s.elements| ==> IndexOf(s, s.elements[i]) == i)
    && (forall a :: a !in s.elements ==> IndexOf(s, a) == 0)
  }

  /** The mathematical set the storage stands for. */
  ghost function Members(s: Storage): set<Address> {
    set a | a in s.elements
  }

  predicate Contains(s: Storage, candidate: Address) {
    |s.elements| != 0 && (IndexOf(s, candidate) != 0 || s.elements[0] == candidate)
  }

  function Add(s: Storage, element: Address): Storage
    requires |s.elements| < MODULUS
  {
    if Contains(s, element) then s
    else Storage(s.elements + [element], s.indices[element := |s.elements|])
  }

  /** Swap-remove of a contained element; any other remove reverts, see `Step`. */
  function Remove(s: Storage, element: Address): (r: Storage)
    requires Valid(s) && Contains(s, element)
  {
    ContainsIsExact(s, element);
    var index, last := IndexOf(s, element), |s.elements| - 1;
    var moved := if index != last then
                   Storage(s.elements[index := s.elements[last]], s.indices[s.elements[last] := index])
                 else s;
    Storage(moved.elements[..last], moved.indices - {element})
  }

  /** Membership is decided correctly, also for the element at index 0. */
  lemma ContainsIsExact(s: Storage, a: Address)
    requires Valid(s)
    ensures Contains(s, a) <==> a in s.elements
    ensures a in s.elements ==> IndexOf(s, a) < |s.elements| && s.elements[IndexOf(s, a)] == a
  {
    if a in s.elements {
      var i :| 0 <= i < |s.elements| && s.elements[i] == a;
    }
  }

  lemma AddRefines(s: Storage, a: Address)
    requires Valid(s) && (a !in s.elements ==> |s.elements| + 1 < MODULUS)
    ensures Valid(Add(s, a)) && Members(Add(s, a)) == Members(s) + {a}
    ensures a in s.elements ==> Add(s, a) == s
  {
    ContainsIsExact(s, a);
  }

  /** Removing moves the last element into the gap and keeps the rest in place. */
  lemma RemoveShape(s: Storage, a: Address)
    requires Valid(s) && a in s.elements
    ensures Contains(s, a)
    ensures var r, k, last := Remove(s, a).elements, IndexOf(s, a), |s.elements| - 1;
            && |r| == last && k <= last
            && (forall i :: 0 <= i < last ==> r[i] == if i == k then s.elements[last] else s.elements[i])
  {
    ContainsIsExact(s, a);
  }

  lemma RemoveMembers(s: Storage, a: Address)
    requires Valid(s) && a in s.elements
    ensures Contains(s, a)
    ensures forall x :: x in Remove(s, a).elements <==> x in s.elements && x != a
  {
    RemoveShape(s, a);
    ContainsIsExact(s, a);
    var r, k, last := Remove(s, a).elements, IndexOf(s, a), |s.elements| - 1;
    forall x | x in s.elements && x != a ensures x in r {
      var i :| 0 <= i < |s.elements| && s.elements[i] == x;
      if i == last { assert r[k] == x; } else { assert r[i] == x; }
    }
    forall x | x in r ensures x in s.elements && x != a {
      var i :| 0 <= i < |r| && r[i] == x;
      assert r[i] == if i == k then s.elements[last] else s.elements[i];
    }
  }

  lemma RemoveRefines(s: Storage, a: Address)
    requires Valid(s) && a in s.elements
    ensures Contains(s, a)
    ensures Valid(Remove(s, a)) && Members(Remove(s, a)) == Members(s) - {a}
  {
    RemoveShape(s, a);
    RemoveMembers(s, a);
    ContainsIsExact(s, a);
  }

  datatype Op = AddOp(a: Address) | RemoveOp(a: Address)

  /** A remove of an absent element reverts. */
  function Step(s: Storage, op: Op): Storage
    requires Valid(s)
  {
    match op
    case AddOp(a) => Add(s, a)
    case RemoveOp(a) => if Contains(s, a) then Remove(s, a) else s
  }

  ghost function SetStep(m: set<Address>, op: Op): set<Address> {
    match op
    case AddOp(a) => m + {a}
    case RemoveOp(a) => m - {a}
  }

  ghost function SetRun(m: set<Address>, ops: seq<Op>): set<Address>
    decreases |ops|
  {
    if ops == [] then m else SetRun(SetStep(m, ops[0]), ops[1..])
  }

  lemma StepRefines(s: Storage, op: Op)
    requires Valid(s) && |s.elements| + 1 < MODULUS
    ensures Valid(Step(s, op)) && Members(Step(s, op)) == SetStep(Members(s), op)
    ensures |Step(s, op).elements| <= |s.elements| + 1
  {
    ContainsIsExact(s, op.a);
    if op.AddOp? {
      AddRefines(s, op.a);
    } else if op.a in s.elements {
      RemoveRefines(s, op.a);
      RemoveShape(s, op.a);
    }
  }

  /** Every state a contract can reach in a run of fewer than 2^256 operations. */
  ghost predicate Reaches(s: Storage, ops: seq<Op>, s': Storage)
    decreases |ops|
  {
    if ops == [] then s == s' else Valid(s) && Reaches(Step(s, ops[0]), ops[1..], s')
  }

  lemma {:induction false} RunRefinesFrom(s: Storage, ops: seq<Op>) returns (s': Storage)
    requires Valid(s) && |s.elements| + |ops| < MODULUS
    ensures Reaches(s, ops, s') && Valid(s') && Members(s') == SetRun(Members(s), ops)
    decreases |ops|
  {
    if ops == [] {
      s' := s;
    } else {
      StepRefines(s, ops[0]);
      s' := RunRefinesFrom(Step(s, ops[0]), ops[1..]);
    }
  }

  lemma {:induction false} ReachesIsFunctional(s: Storage, ops: seq<Op>, s1: Storage, s2: Storage)
    requires Reaches(s, ops, s1) && Reaches(s, ops, s2)
    ensures s1 == s2
    decreases |ops|
  {
    if ops == [] {
    } else {
      ReachesIsFunctional(Step(s, ops[0]), ops[1..], s1, s2);
    }
  }

  /** Any sequence of adds and removes refines the same sequence on a mathematical
      set, and `contains` answers membership exactly in the state it reaches. */
  lemma RunRefinesSet(ops: seq<Op>, s: Storage, a: Address)
    requires |ops| < MODULUS && Reaches(EMPTY, ops, s)
    ensures Valid(s) && Members(s) == SetRun({}, ops)
    ensures Contains(s, a) <==> a in SetRun({}, ops)
  {
    assert Members(EMPTY) == {};
    var s' := RunRefinesFrom(EMPTY, ops);
    ReachesIsFunctional(EMPTY, ops, s, s');
    ContainsIsExact(s, a);
    assert a in Members(s) <==> a in s.elements;
  }

  /** The slice a page should be: clipped at the end of the list. */
  function Slice(elements: seq<Address>, index: nat, size: nat): seq<Address> {
    if index >= |elements| then []
    else if index + size <= |elements| then elements[index..index + size]
    else elements[index..]
  }

  /** What a page is, in terms of the wrapped end index. */
  function PageOf(elements: seq<Address>, index: uint256, pageSize: uint256): seq<Address>
    requires |elements| < MODULUS
  {
    if index + pageSize < MODULUS then Slice(elements, index, pageSize) else []
  }

  function Pages(elements: seq<Address>, from: uint256, pageSize: uint256): seq<Address>
    requires |elements| < MODULUS && pageSize > 0
    decreases |elements| - from
  {
    if from >= |elements| || from + pageSize >= MODULUS then PageOf(elements, from, pageSize)
    else PageOf(elements, from, pageSize) + Pages(elements, from + pageSize, pageSize)
  }

  /** Consecutive pages, while their ends do not overflow, concatenate to the rest of
      the list. */
  lemma {:induction false} PagesCoverList(elements: seq<Address>, from: uint256, pageSize: uint256)
    requires |elements| + pageSize < MODULUS && pageSize > 0
    ensures Pages(elements, from, pageSize) == if from <= |elements| then elements[from..] else []
    decreases |elements| - from
  {
    if from < |elements| {
      PagesCoverList(elements, from + pageSize, pageSize);
    }
  }

  /** The end as the code computes it, and the page it leads to. */
  lemma PageIs(elements: seq<Address>, index: uint256, pageSize: uint256)
    requires |elements| < MODULUS
    ensures var wrapped := (index + pageSize) % MODULUS;
            var end := if wrapped > |elements| then |elements| else wrapped;
            PageOf(elements, index, pageSize) == if end <= index then [] else elements[index..end]
  {
    if index + pageSize >= MODULUS {
      assert (index + pageSize) % MODULUS == index + pageSize - MODULUS;
    }
  }

  class AddressSet {
    var elements: seq<Address>
    var indices: map<Address, uint256>

    ghost function Now(): Storage
      reads this
    {
      Storage(elements, indices)
    }

    constructor ()
      ensures Now() == EMPTY && Valid(Now())
    {
      elements, indices := [], map[];
    }

    method ContainsElement(candidate: Address) returns (r: bool)
      requires Valid(Now())
      ensures r == Contains(Now(), candidate) && (r <==> candidate in elements)
    {
      ContainsIsExact(Now(), candidate);
      if |elements| == 0 { return false; }
      var index: uint256 := if candidate in indices then indices[candidate] else 0;
      r := index != 0 || elements[0] == candidate;
    }

    method GetPage(index: uint256, pageSize: uint256) returns (page: array<Address>)
      requires Valid(Now())
      ensures fresh(page) && page[..] == PageOf(elements, index, pageSize)
    {
      PageIs(elements, index, pageSize);
      var endIndex := (index + pageSize) % MODULUS;
      if endIndex > |elements| { endIndex := |elements|; }
      if endIndex <= index { return new Address[0]; }
      var n := endIndex - index;
      page := new Address[n];
      for i := 0 to n
        invariant forall k :: 0 <= k < i ==> page[k] == elements[index + k]
      {
        page[i] := elements[i + index];
      }
      assert page[..] == elements[index..endIndex];
    }

    method AddElement(element: Address)
      requires Valid(Now()) && (element !in elements ==> |elements| + 1 < MODULUS)
      modifies this
      ensures Now() == Add(old(Now()), element)
      ensures Valid(Now()) && Members(Now()) == Members(old(Now())) + {element}
    {
      AddRefines(Now(), element);
      var present := ContainsElement(element);
      if !present {
        indices := indices[element := |elements|];
        elements := elements + [element];
      }
    }

    method RemoveElement(element: Address) returns (ok: bool)
      requires Valid(Now())
      modifies this
      ensures ok == Contains(old(Now()), element)
      ensures Now() == if ok then Remove(old(Now()), element) else old(Now())
      ensures Valid(Now()) && Members(Now()) == Members(old(Now())) - {element}
    {
      ok := ContainsElement(element);
      if !ok { return; }
      RemoveRefines(Now(), element);
      ContainsIsExact(Now(), element);
      var index: uint256 := if element in indices then indices[element] else 0;
      var lastIndex := |elements| - 1;
      if index != lastIndex {
        var shifted := elements[lastIndex];
        elements := elements[index := shifted];
        indices := indices[shifted := index];
      }
      elements := elements[..|elements| - 1];
      indices := indices - {element};
    }
  }
}
