/** Linking: putting the addresses of deployed libraries into the placeholders of a
    contract's bytecode, a string of hexadecimal digits behind "0x". */
module Linker {
  import opened Wrappers

  datatype Error = UnknownLibrary(library: string) | LibraryNotDeployed(library: string)

  /** A placeholder, in bytes of the binary bytecode. */
  datatype Occurrence = Occurrence(start: nat, length: nat)

  datatype Reference = Reference(library: string, occurrences: seq<Occurrence>)

  /** The contracts of the module state and their addresses, None before deployment. */
  type State = map<string, Option<string>>

  /** `slice(0, n)` and `slice(n)`. */
  function Take(s: string, n: nat): string {
    if n < |s| then s[..n] else s
  }

  function Drop(s: string, n: nat): string {
    if n < |s| then s[n..] else ""
  }

  /** A replacement of `length` characters from `at` on. */
  datatype Patch = Patch(at: nat, length: nat, text: string)

  function PatchOf(o: Occurrence, address: string): Patch {
    Patch((o.start + 1) * 2, o.length * 2, Drop(address, 2))
  }

  function Splice(code: string, p: Patch): string {
    Take(code, p.at) + p.text + Drop(code, p.at + p.length)
  }

  function Apply(code: string, patches: seq<Patch>): string
    decreases |patches|
  {
    if patches == [] then code else Apply(Splice(code, patches[0]), patches[1..])
  }

  function PatchesOf(occurrences: seq<Occurrence>, address: string): (ps: seq<Patch>)
    ensures |ps| == |occurrences|
  {
    if occurrences == [] then [] else [PatchOf(occurrences[0], address)] + PatchesOf(occurrences[1..], address)
  }

  predicate Deployed(state: State, library: string) {
    library in state && state[library].Some?
  }

  predicate AllDeployed(references: seq<Reference>, state: State) {
    forall r :: r in references ==> Deployed(state, r.library)
  }

  /** The replacements a list of references asks for, in the order they are made. */
  function Patches(references: seq<Reference>, state: State): seq<Patch>
    requires AllDeployed(references, state)
  {
    if references == [] then []
    else
      assert references[0] in references;
      PatchesOf(references[0].occurrences, state[references[0].library].value) + Patches(references[1..], state)
  }

  function LookupError(state: State, library: string): Error {
    if library !in state then UnknownLibrary(library) else LibraryNotDeployed(library)
  }

  function Link(code: string, references: seq<Reference>, state: State): Result<string, Error>
    decreases |references|
  {
    if references == [] then Ok(code)
    else
      var library := references[0].library;
      if !Deployed(state, library) then Err(LookupError(state, library))
      else Link(Apply(code, PatchesOf(references[0].occurrences, state[library].value)), references[1..], state)
  }

  lemma LinkStep(code: string, references: seq<Reference>, i: nat, state: State)
    requires i < |references|
    ensures var r := references[i];
            Link(code, references[i..], state) ==
              if !Deployed(state, r.library) then Err(LookupError(state, r.library))
              else Link(Apply(code, PatchesOf(r.occurrences, state[r.library].value)), references[i + 1..], state)
  {
    assert references[i..][0] == references[i] && references[i..][1..] == references[i + 1..];
  }

  lemma ApplyStep(code: string, rest: seq<Occurrence>, address: string)
    requires rest != []
    ensures Apply(code, PatchesOf(rest, address)) ==
            Apply(Splice(code, PatchOf(rest[0], address)), PatchesOf(rest[1..], address))
  {
    var ps := PatchesOf(rest[1..], address);
    assert ([PatchOf(rest[0], address)] + ps)[1..] == ps;
  }

  /** The bytecode with the first `k` occurrences filled. */
  ghost function FilledUpTo(code: string, occurrences: seq<Occurrence>, k: nat, address: string): string
    requires k <= |occurrences|
  {
    if k == 0 then code
    else Splice(FilledUpTo(code, occurrences, k - 1, address), PatchOf(occurrences[k - 1], address))
  }

  lemma {:induction false} FilledGoesOn(code: string, occurrences: seq<Occurrence>, k: nat, address: string)
    requires k <= |occurrences|
    ensures Apply(FilledUpTo(code, occurrences, k, address), PatchesOf(occurrences[k..], address)) ==
            Apply(code, PatchesOf(occurrences, address))
  {
    if k == 0 {
      assert occurrences[0..] == occurrences;
    } else {
      FilledGoesOn(code, occurrences, k - 1, address);
      var rest := occurrences[k - 1..];
      assert rest[0] == occurrences[k - 1] && rest[1..] == occurrences[k..];
      ApplyStep(FilledUpTo(code, occurrences, k - 1, address), rest, address);
    }
  }

  /** One occurrence: the part before it, the address without its 0x, the part behind. */
  method FillOne(bytecode: string, occurrence: Occurrence, address: string) returns (code: string)
    ensures code == Splice(bytecode, PatchOf(occurrence, address))
  {
    var start := (occurrence.start + 1) * 2;
    var length := occurrence.length * 2;
    var first := Take(bytecode, start);
    var second := Drop(bytecode, start + length);
    code := first + Drop(address, 2) + second;
  }

  /** The inner loop: all occurrences of one library. */
  method FillOccurrences(bytecode: string, occurrences: seq<Occurrence>, address: string) returns (code: string)
    ensures code == Apply(bytecode, PatchesOf(occurrences, address))
  {
    code := bytecode;
    for k := 0 to |occurrences|
      invariant code == FilledUpTo(bytecode, occurrences, k, address)
    {
      code := FillOne(code, occurrences[k], address);
    }
    FilledGoesOn(bytecode, occurrences, |occurrences|, address);
    assert occurrences[|occurrences|..] == [];
  }

  method AddLibraryAddresses(bytecode: string, libraries: Option<seq<Reference>>,
                             state: State) returns (r: Result<string, Error>)
    ensures r == if libraries.None? then Ok(bytecode) else Link(bytecode, libraries.value, state)
  {
    if libraries.None? { return Ok(bytecode); }
    var code, references := bytecode, libraries.value;
    for i := 0 to |references|
      invariant Link(code, references[i..], state) == Link(bytecode, references, state)
    {
      var library := references[i].library;
      LinkStep(code, references, i, state);
      if library !in state { return Err(UnknownLibrary(library)); }
      if state[library].None? { return Err(LibraryNotDeployed(library)); }
      code := FillOccurrences(code, references[i].occurrences, state[library].value);
    }
    return Ok(code);
  }

  // ----- What linking means -----

  predicate Apart(p: Patch, q: Patch) {
    p.at + p.length <= q.at || q.at + q.length <= p.at
  }

  predicate Covers(p: Patch, i: nat) {
    p.at <= i < p.at + p.length
  }

  /** The placeholders lie inside the code, are as long as what replaces them, and no two
      of them overlap. */
  ghost predicate Separate(n: nat, patches: seq<Patch>) {
    && (forall p :: p in patches ==> p.at + p.length <= n && |p.text| == p.length)
    && (forall p :: p in patches ==> multiset(patches)[p] == 1)
    && (forall p, q :: p in patches && q in patches && p != q ==> Apart(p, q))
  }

  /** `out` is `code` with every placeholder filled and nothing else changed. */
  ghost predicate Linked(code: string, patches: seq<Patch>, out: string) {
    && |out| == |code|
    && (forall p, i: nat :: p in patches && Covers(p, i) && i < |out| && |p.text| == p.length ==>
          out[i] == p.text[i - p.at])
    && (forall i: nat :: i < |out| && (forall p :: p in patches ==> !Covers(p, i)) ==> out[i] == code[i])
  }

  lemma SpliceAt(code: string, p: Patch)
    requires p.at + p.length <= |code| && |p.text| == p.length
    ensures |Splice(code, p)| == |code|
    ensures forall i: nat :: i < |code| ==> Splice(code, p)[i] == if Covers(p, i) then p.text[i - p.at] else code[i]
  {
  }

  lemma SeparateTail(n: nat, patches: seq<Patch>)
    requires Separate(n, patches) && patches != []
    ensures Separate(n, patches[1..]) && patches[0] !in patches[1..]
    ensures forall q :: q in patches[1..] ==> Apart(patches[0], q)
  {
    var p, tail := patches[0], patches[1..];
    assert patches == [p] + tail;
    assert multiset(patches) == multiset{p} + multiset(tail);
    forall q | q in tail ensures multiset(tail)[q] == 1 && q != p {
      assert q in patches && q in multiset(tail);
    }
  }

  lemma {:induction false} ApplyLinks(code: string, patches: seq<Patch>)
    requires Separate(|code|, patches)
    ensures Linked(code, patches, Apply(code, patches))
    decreases |patches|
  {
    if patches == [] {
    } else {
      var p := patches[0];
      SeparateTail(|code|, patches);
      SpliceAt(code, p);
      ApplyLinks(Splice(code, p), patches[1..]);
      LinkedStep(code, patches, Apply(code, patches));
    }
  }

  lemma LinkedStep(code: string, patches: seq<Patch>, out: string)
    requires patches != [] && Separate(|code|, patches) && Linked(Splice(code, patches[0]), patches[1..], out)
    ensures Linked(code, patches, out)
  {
    var p := patches[0];
    SeparateTail(|code|, patches);
    SpliceAt(code, p);
    assert forall q :: q in patches <==> q == p || q in patches[1..];
    forall i: nat | i < |out| && Covers(p, i) ensures out[i] == p.text[i - p.at] {
      assert forall q :: q in patches[1..] ==> !Covers(q, i);
    }
  }

  /** There is one such result. */
  lemma LinkedIsUnique(code: string, patches: seq<Patch>, other: seq<Patch>, out: string, out': string)
    requires Separate(|code|, patches) && (forall p :: p in patches <==> p in other)
    requires Linked(code, patches, out) && Linked(code, other, out')
    ensures out == out'
  {
    forall i: nat | i < |out| ensures out[i] == out'[i] {
      if p :| p in patches && Covers(p, i) {
        assert out[i] == p.text[i - p.at] == out'[i];
      }
    }
  }

  lemma {:induction false} ApplyConcat(code: string, a: seq<Patch>, b: seq<Patch>)
    ensures Apply(code, a + b) == Apply(Apply(code, a), b)
    decreases |a|
  {
    if a == [] {
      assert a + b == b;
    } else {
      assert (a + b)[1..] == a[1..] + b;
      ApplyConcat(Splice(code, a[0]), a[1..], b);
    }
  }

  /** Linking succeeds exactly when every referenced library is deployed, and then makes
      the replacements one after the other. */
  lemma {:induction false} LinkApplies(code: string, references: seq<Reference>, state: State)
    ensures Link(code, references, state).Ok? <==> AllDeployed(references, state)
    ensures AllDeployed(references, state) ==>
              Link(code, references, state) == Ok(Apply(code, Patches(references, state)))
    decreases |references|
  {
    if references != [] && Deployed(state, references[0].library) {
      var first := PatchesOf(references[0].occurrences, state[references[0].library].value);
      LinkApplies(Apply(code, first), references[1..], state);
      assert references == [references[0]] + references[1..];
      if AllDeployed(references, state) {
        ApplyConcat(code, first, Patches(references[1..], state));
      }
    }
  }

  /** A refusal names a library that is not deployed, all those before it being so. */
  lemma {:induction false} LinkRefusal(code: string, references: seq<Reference>, state: State)
    requires Link(code, references, state).Err?
    ensures exists k :: 0 <= k < |references| && FirstUndeployed(references, state, k)
                        && Link(code, references, state) == Err(RefusalFor(references[k].library, state))
    decreases |references|
  {
    if !Deployed(state, references[0].library) {
      assert FirstUndeployed(references, state, 0);
    } else {
      var code' := Apply(code, PatchesOf(references[0].occurrences, state[references[0].library].value));
      LinkRefusal(code', references[1..], state);
      var k :| 0 <= k < |references[1..]| && FirstUndeployed(references[1..], state, k)
               && Link(code', references[1..], state) == Err(RefusalFor(references[1..][k].library, state));
      assert forall j :: 0 < j < |references| ==> references[j] == references[1..][j - 1];
      assert FirstUndeployed(references, state, k + 1);
    }
  }

  /** A library of the state is not deployed, any other is unknown. */
  ghost function RefusalFor(library: string, state: State): Error {
    if library in state then LibraryNotDeployed(library) else UnknownLibrary(library)
  }

  predicate FirstUndeployed(references: seq<Reference>, state: State, k: nat)
    requires k < |references|
  {
    !Deployed(state, references[k].library) && forall j :: 0 <= j < k ==> Deployed(state, references[j].library)
  }

  /** References whose placeholders do not overlap, their libraries deployed. */
  ghost predicate WellPlaced(code: string, references: seq<Reference>, state: State) {
    AllDeployed(references, state) && Separate(|code|, Patches(references, state))
  }

  /** The main result: every placeholder holds its library's address, every other
      character and the length are unchanged. */
  lemma LinkFillsPlaceholders(code: string, references: seq<Reference>, state: State)
    requires WellPlaced(code, references, state)
    ensures Link(code, references, state).Ok?
    ensures Linked(code, Patches(references, state), Link(code, references, state).value)
  {
    LinkApplies(code, references, state);
    ApplyLinks(code, Patches(references, state));
  }

  lemma {:induction false} PatchOfOccurrence(occurrences: seq<Occurrence>, address: string, k: nat)
    requires k < |occurrences|
    ensures PatchOf(occurrences[k], address) in PatchesOf(occurrences, address)
  {
    if k == 0 {
    } else {
      PatchOfOccurrence(occurrences[1..], address, k - 1);
    }
  }

  lemma {:induction false} PatchOfReference(references: seq<Reference>, state: State, r: nat, k: nat)
    requires AllDeployed(references, state) && r < |references| && k < |references[r].occurrences|
    ensures PatchOf(references[r].occurrences[k], state[references[r].library].value) in Patches(references, state)
  {
    if r == 0 {
      PatchOfOccurrence(references[0].occurrences, state[references[0].library].value, k);
    } else {
      PatchOfReference(references[1..], state, r - 1, k);
    }
  }

  /** Seen from one placeholder: byte `start` of the binary code on, `length` bytes long,
      it holds the address without its "0x". */
  lemma PlaceholderHoldsAddress(code: string, references: seq<Reference>, state: State, r: nat, k: nat)
    requires WellPlaced(code, references, state)
    requires r < |references| && k < |references[r].occurrences|
    ensures var o, address := references[r].occurrences[k], state[references[r].library].value;
            var at := 2 + 2 * o.start;
            var linked := Link(code, references, state);
            linked.Ok? && at + 2 * o.length <= |linked.value|
            && (|address| >= 2 ==> linked.value[at..at + 2 * o.length] == address[2..])
  {
    LinkFillsPlaceholders(code, references, state);
    PatchOfReference(references, state, r, k);
    PatchHolds(code, Patches(references, state), Link(code, references, state).value,
      references[r].occurrences[k], state[references[r].library].value);
  }

  lemma PatchHolds(code: string, patches: seq<Patch>, out: string, o: Occurrence, address: string)
    requires Separate(|code|, patches) && Linked(code, patches, out) && PatchOf(o, address) in patches
    ensures var at := 2 + 2 * o.start;
            at + 2 * o.length <= |out| && (|address| >= 2 ==> out[at..at + 2 * o.length] == address[2..])
  {
    LinkedHolds(code, patches, out, PatchOf(o, address));
  }

  lemma LinkedHolds(code: string, patches: seq<Patch>, out: string, p: Patch)
    requires Separate(|code|, patches) && Linked(code, patches, out) && p in patches
    ensures p.at + p.length <= |out| && out[p.at..p.at + p.length] == p.text
  {
    forall i: nat | i < p.length ensures out[p.at..p.at + p.length][i] == p.text[i] {
      assert Covers(p, p.at + i);
    }
  }

  /** Visiting the libraries in another order gives the same bytecode. */
  lemma LinkOrderIrrelevant(code: string, references: seq<Reference>, others: seq<Reference>, state: State)
    requires WellPlaced(code, references, state)
    requires multiset(references) == multiset(others)
    ensures Link(code, references, state) == Link(code, others, state)
  {
    assert forall r :: r in references <==> r in multiset(references);
    assert forall r :: r in others <==> r in multiset(others);
    var ps, qs := Patches(references, state), Patches(others, state);
    PermutedPatches(references, others, state);
    SamePatches(code, ps, qs);
    LinkApplies(code, references, state);
    LinkApplies(code, others, state);
  }

  /** Nor does the order of the replacements themselves matter. */
  lemma SamePatches(code: string, ps: seq<Patch>, qs: seq<Patch>)
    requires Separate(|code|, ps) && multiset(ps) == multiset(qs)
    ensures Apply(code, ps) == Apply(code, qs)
  {
    assert forall p :: p in ps <==> p in multiset(ps);
    assert forall p :: p in qs <==> p in multiset(qs);
    ApplyLinks(code, ps);
    ApplyLinks(code, qs);
    LinkedIsUnique(code, ps, qs, Apply(code, ps), Apply(code, qs));
  }

  lemma {:induction false} PatchesConcat(a: seq<Reference>, b: seq<Reference>, state: State)
    requires AllDeployed(a, state) && AllDeployed(b, state)
    ensures Patches(a + b, state) == Patches(a, state) + Patches(b, state)
  {
    if a == [] {
      assert a + b == b;
    } else {
      assert (a + b)[1..] == a[1..] + b;
      PatchesConcat(a[1..], b, state);
    }
  }

  lemma WithoutFirst(a: seq<Reference>, b: seq<Reference>, i: nat)
    requires a != [] && i < |b| && a[0] == b[i] && multiset(a) == multiset(b)
    ensures multiset(b[..i] + b[i + 1..]) == multiset(a[1..])
  {
    assert a[..0] + a[1..] == a[1..];
    MultisetWithout(a, 0);
    MultisetWithout(b, i);
  }

  lemma MultisetWithout(s: seq<Reference>, i: nat)
    requires i < |s|
    ensures multiset(s[..i] + s[i + 1..]) == multiset(s) - multiset{s[i]}
  {
    assert s == s[..i] + [s[i]] + s[i + 1..];
  }

  lemma PatchesWithout(b: seq<Reference>, i: nat, state: State)
    requires AllDeployed(b, state) && i < |b|
    ensures AllDeployed(b[..i] + b[i + 1..], state) && AllDeployed([b[i]], state)
    ensures multiset(Patches(b, state)) ==
            multiset(Patches([b[i]], state)) + multiset(Patches(b[..i] + b[i + 1..], state))
  {
    assert b == b[..i] + ([b[i]] + b[i + 1..]);
    PatchesConcat(b[..i], [b[i]] + b[i + 1..], state);
    PatchesConcat([b[i]], b[i + 1..], state);
    PatchesConcat(b[..i], b[i + 1..], state);
  }

  lemma SameWithout(a: seq<Reference>, b: seq<Reference>, i: nat, state: State)
    requires AllDeployed(a, state) && AllDeployed(b, state) && a != [] && i < |b| && a[0] == b[i]
    ensures var rest := b[..i] + b[i + 1..];
            && AllDeployed(a[1..], state) && AllDeployed(rest, state)
            && (multiset(Patches(a[1..], state)) == multiset(Patches(rest, state)) ==>
                  multiset(Patches(a, state)) == multiset(Patches(b, state)))
  {
    assert a[..0] + a[1..] == a[1..];
    PatchesWithout(a, 0, state);
    PatchesWithout(b, i, state);
  }

  lemma {:induction false} PermutedPatches(a: seq<Reference>, b: seq<Reference>, state: State)
    requires AllDeployed(a, state) && AllDeployed(b, state) && multiset(a) == multiset(b)
    ensures multiset(Patches(a, state)) == multiset(Patches(b, state))
    decreases |a|
  {
    if a == [] {
      assert |multiset(b)| == 0;
    } else {
      assert a[0] in multiset(b);
      var i :| 0 <= i < |b| && b[i] == a[0];
      WithoutFirst(a, b, i);
      SameWithout(a, b, i, state);
      PermutedPatches(a[1..], b[..i] + b[i + 1..], state);
    }
  }

  lemma SpliceBeforeTail(code: string, p: Patch, tail: string)
    requires p.at + p.length <= |code|
    ensures Splice(code + tail, p) == Splice(code, p) + tail
  {
    assert Take(code + tail, p.at) == Take(code, p.at);
    assert Drop(code + tail, p.at + p.length) == Drop(code, p.at + p.length) + tail;
  }

  lemma {:induction false} ApplyBeforeTail(code: string, patches: seq<Patch>, tail: string)
    requires Separate(|code|, patches)
    ensures Apply(code + tail, patches) == Apply(code, patches) + tail
    decreases |patches|
  {
    if patches == [] {
    } else {
      SeparateTail(|code|, patches);
      SpliceAt(code, patches[0]);
      SpliceBeforeTail(code, patches[0], tail);
      ApplyBeforeTail(Splice(code, patches[0]), patches[1..], tail);
    }
  }

  /** Linking after the constructor arguments were appended is linking before. */
  lemma LinkBeforeArguments(code: string, arguments: string, references: seq<Reference>, state: State)
    requires WellPlaced(code, references, state)
    ensures Link(code, references, state).Ok?
    ensures Link(code + arguments, references, state) == Ok(Link(code, references, state).value + arguments)
  {
    LinkApplies(code, references, state);
    LinkApplies(code + arguments, references, state);
    ApplyBeforeTail(code, Patches(references, state), arguments);
  }

  predicate PairwiseApart(ps: seq<Patch>) {
    forall i, j :: 0 <= i < j < |ps| ==> ps[i].at + 40 <= ps[j].at || ps[j].at + 40 <= ps[i].at
  }

  /** With addresses of 42 characters, placeholders of 20 bytes that lie inside the code
      and do not overlap are enough. */
  lemma TwentyBytePlaceholders(code: string, references: seq<Reference>, state: State)
    requires AllDeployed(references, state)
    requires forall r :: r in references ==> |state[r.library].value| == 42
    requires forall r, o :: r in references && o in r.occurrences ==> o.length == 20 && 2 + 2 * (o.start + 20) <= |code|
    requires PairwiseApart(Patches(references, state))
    ensures WellPlaced(code, references, state)
  {
    PatchesFit(|code|, references, state);
    ApartOnce(Patches(references, state));
    ApartPairs(Patches(references, state));
  }

  lemma ApartPairs(ps: seq<Patch>)
    requires PairwiseApart(ps)
    requires forall p :: p in ps ==> p.length == 40
    ensures forall p, q :: p in ps && q in ps && p != q ==> Apart(p, q)
  {
    forall p, q | p in ps && q in ps && p != q ensures Apart(p, q) {
      var i :| 0 <= i < |ps| && ps[i] == p;
      var j :| 0 <= j < |ps| && ps[j] == q;
    }
  }

  lemma {:induction false} PatchesOfFit(n: nat, occurrences: seq<Occurrence>, address: string)
    requires |address| == 42
    requires forall o :: o in occurrences ==> o.length == 20 && 2 + 2 * (o.start + 20) <= n
    ensures forall p :: p in PatchesOf(occurrences, address) ==> p.length == 40 == |p.text| && p.at + 40 <= n
  {
    if occurrences == [] {
    } else {
      PatchesOfFit(n, occurrences[1..], address);
    }
  }

  lemma {:induction false} PatchesFit(n: nat, references: seq<Reference>, state: State)
    requires AllDeployed(references, state)
    requires forall r :: r in references ==> |state[r.library].value| == 42
    requires forall r, o :: r in references && o in r.occurrences ==> o.length == 20 && 2 + 2 * (o.start + 20) <= n
    ensures forall p :: p in Patches(references, state) ==> p.length == 40 == |p.text| && p.at + 40 <= n
  {
    if references == [] {
    } else {
      PatchesOfFit(n, references[0].occurrences, state[references[0].library].value);
      PatchesFit(n, references[1..], state);
    }
  }

  lemma {:induction false} ApartOnce(ps: seq<Patch>)
    requires PairwiseApart(ps)
    ensures forall p :: p in ps ==> multiset(ps)[p] == 1
  {
    if ps == [] {
    } else {
      ApartOnce(ps[1..]);
      assert ps == [ps[0]] + ps[1..];
      assert ps[0] !in ps[1..];
    }
  }
}
