/** Exactly when the schedule loses elements. */
module Lost {
  import opened Alignment
  import opened Graph
  import opened Scheduler
  import opened Schedule
  import opened ParallelRun
  import opened ScheduledRun
  import opened ScheduleOrder
  import opened Wrappers

  lemma ContractLost(g: Module, order: seq<Name>, plan: Plan, cur: BatchNo, c: Name)
    requires Rankable(g) && c in g.bindings && c !in plan.batchOf
    requires exists n :: Contract(n) in g.bindings[c].args && n in g.bindings && n !in plan.batchOf
    ensures var r := HandleContract(g, order, plan, cur, c); r.Ok? ==> c in r.value.lost
  {
    UnbatchedArgGivesNaN(g, order, plan, cur, c, g.bindings[c].args);
  }

  lemma ElementKeepsLost(g: Module, order: seq<Name>, plan: Plan, base: nat, x: Name)
    requires Rankable(g)
    ensures var r := HandleElement(g, order, plan, base, x); r.Ok? ==> plan.lost <= r.value.lost
  {
    if x in g.bindings { ContractAddsLower(g, order, plan, At(base), x); }
  }

  lemma {:induction false} LibrariesKeepLost(g: Module, order: seq<Name>, plan: Plan, names: seq<Name>)
    requires Rankable(g)
    ensures var r := HandleLibraries(g, order, plan, names); r.Ok? ==> plan.lost <= r.value.lost
    decreases |names|
  {
    if names == [] {
    } else {
      if IsLibrary(g, names[0]) {
        ElementKeepsLost(g, order, plan, 0, names[0]);
        var r := HandleElement(g, order, plan, 0, names[0]);
        if r.Ok? { LibrariesKeepLost(g, order, r.value, names[1..]); }
      } else {
        LibrariesKeepLost(g, order, plan, names[1..]);
      }
    }
  }

  lemma {:induction false} AllKeepLost(g: Module, order: seq<Name>, plan: Plan, base: nat, names: seq<Name>)
    requires Rankable(g)
    ensures var r := HandleAll(g, order, plan, base, names); r.Ok? ==> plan.lost <= r.value.lost
    decreases |names|
  {
    if names == [] {
    } else {
      ElementKeepsLost(g, order, plan, base, names[0]);
      var r := HandleElement(g, order, plan, base, names[0]);
      if r.Ok? { AllKeepLost(g, order, r.value, base, names[1..]); }
    }
  }

  lemma FirstBadLibrary(g: Module, order: seq<Name>, c: Name) returns (k: nat)
    requires c in order && IsLibrary(g, c) && !ArgsAreLibraries(g, c)
    ensures k < |order| && IsLibrary(g, order[k]) && !ArgsAreLibraries(g, order[k])
    ensures forall j :: 0 <= j < k && IsLibrary(g, order[j]) ==> ArgsAreLibraries(g, order[j])
  {
    var i :| 0 <= i < |order| && order[i] == c;
    k := 0;
    while !(IsLibrary(g, order[k]) && !ArgsAreLibraries(g, order[k]))
      invariant k <= i
      invariant forall j :: 0 <= j < k ==> !(IsLibrary(g, order[j]) && !ArgsAreLibraries(g, order[j]))
      decreases i - k
    {
      k := k + 1;
    }
  }

  lemma BadLibraryLoses(g: Module, order: seq<Name>, plan: Plan, k: nat)
    requires Input(g, order) && k < |order| && IsLibrary(g, order[k]) && !ArgsAreLibraries(g, order[k])
    requires Recorded(g, plan, Libraries(g, order[..k]))
    ensures var r := HandleLibraries(g, order, plan, order[k..]); r.Ok? ==> order[k] in r.value.lost
  {
    LibrariesStep(g, order, plan, k);
    BadLibraryIsFresh(g, order, plan, k);
    ContractLost(g, order, plan, At(0), order[k]);
    var r := HandleElement(g, order, plan, 0, order[k]);
    if r.Ok? { LibrariesKeepLost(g, order, r.value, order[k + 1..]); }
  }

  lemma BadLibraryAtLoses(g: Module, order: seq<Name>, k: nat)
    requires Input(g, order) && k < |order| && IsLibrary(g, order[k]) && !ArgsAreLibraries(g, order[k])
    requires forall j :: 0 <= j < k && IsLibrary(g, order[j]) ==> ArgsAreLibraries(g, order[j])
    ensures var r := HandleLibraries(g, order, EMPTY, order); r.Ok? ==> order[k] in r.value.lost
  {
    LibrariesSoFarGood(g, order, k);
    LibrariesSoFarGoOn(g, order, k);
    var p := LibrariesSoFar(g, order, k);
    if p.Ok? { BadLibraryLoses(g, order, p.value, k); }
  }

  lemma BadLibraryIsFresh(g: Module, order: seq<Name>, plan: Plan, k: nat)
    requires Input(g, order) && k < |order| && IsLibrary(g, order[k]) && !ArgsAreLibraries(g, order[k])
    requires Recorded(g, plan, Libraries(g, order[..k]))
    ensures order[k] !in plan.batchOf
    ensures exists n :: Contract(n) in g.bindings[order[k]].args && n in g.bindings && n !in plan.batchOf
  {
    assert order[k] !in order[..k];
    var n :| Contract(n) in g.bindings[order[k]].args && n in g.bindings && !IsLibrary(g, n);
    assert n !in plan.batchOf;
  }

  /** The first library in the state with an argument that is no library is lost. */
  lemma BadLibraryScheduleLoses(g: Module, order: seq<Name>, c: Name) returns (l: Name)
    requires Input(g, order) && c in order && IsLibrary(g, c) && !ArgsAreLibraries(g, c)
    requires Scheduler.Schedule(g, order).Ok?
    ensures IsLibrary(g, l) && !ArgsAreLibraries(g, l) && l in Scheduler.Schedule(g, order).value.lost
  {
    var k := FirstBadLibrary(g, order, c);
    l := order[k];
    BadLibraryAtLoses(g, order, k);
    AllKeepLost(g, order, HandleLibraries(g, order, EMPTY, order).value, Base(g, order), order);
  }

  // ----- What is lost is in no batch -----

  /** Batched under no number, and in no batch. */
  ghost predicate NeverBatched(plan: Plan, x: Name) {
    && x in plan.batchOf && plan.batchOf[x].NaN?
    && forall k: nat :: !InBatch(plan, k, x)
  }

  /** A run gives addresses only to members of its batches. */
  lemma {:induction false} OnlyBatchedDeployed(g: Module, receipt: Name -> Address, batches: seq<seq<Name>>, s: State,
                                               x: Name)
    requires forall k :: 0 <= k < |batches| ==> x !in batches[k]
    ensures x in Final(ExecuteBatches(g, receipt, batches, s)).addresses <==> x in s.addresses
    decreases |batches|
  {
    if batches == [] {
    } else {
      OnlyBatchDeployed(g, receipt, batches[0], s);
      var r := ExecuteBatch(g, receipt, batches[0], s);
      if r.Fine? { OnlyBatchedDeployed(g, receipt, batches[1..], r.value, x); }
    }
  }

  lemma OnlyBatchDeployed(g: Module, receipt: Name -> Address, batch: seq<Name>, s: State)
    ensures forall x :: x !in batch ==>
              (x in Final(ExecuteBatch(g, receipt, batch, s)).addresses <==> x in s.addresses)
  {
    var r := SendAll(g, s.addresses, batch, s.log);
    SendAllKeepsAddresses(g, s.addresses, batch, s.log);
    if r.Fine? {
      var log2 := StartHooks(g, s.addresses, batch, r.value);
      ConfirmAllAddresses(g, receipt, batch, State(s.addresses, log2));
    }
  }

  lemma {:induction false} SendAllKeepsAddresses(g: Module, addresses: map<Name, Address>, batch: seq<Name>,
                                                 log: seq<Step>)
    ensures var r := SendAll(g, addresses, batch, log); !r.Fine? ==> r.state.addresses == addresses
    decreases |batch|
  {
    if batch == [] {
    } else if batch[0] !in g.bindings || batch[0] in addresses {
      SendAllKeepsAddresses(g, addresses, batch[1..], log);
    } else {
      SendAllKeepsAddresses(g, addresses, batch[1..], log + [Sent(batch[0])]);
    }
  }

  /** An element that is never batched has an address after a run, however it ends,
      only if it had one before. */
  lemma NeverDeployed(g: Module, plan: Plan, initial: map<Name, Address>, receipt: Name -> Address, x: Name)
    requires NeverBatched(plan, x)
    ensures var run := ExecuteBatches(g, receipt, plan.batches, State(initial, []));
            x in Final(run).addresses <==> x in initial
  {
    forall k | 0 <= k < |plan.batches| ensures x !in plan.batches[k] { assert !InBatch(plan, k, x); }
    OnlyBatchedDeployed(g, receipt, plan.batches, State(initial, []), x);
  }

  // ----- Schedules that are never refused -----

  /** No hook uses an event and no before-hook uses a contract. */
  ghost predicate NothingUsed(g: Module) {
    forall e :: e in g.events ==> g.events[e].eventUsage == [] && (IsAfter(g.events[e]) || g.events[e].usage == [])
  }

  ghost predicate AllArgsThere(g: Module, order: seq<Name>) {
    forall c, n :: c in g.bindings && Contract(n) in g.bindings[c].args ==> n in g.bindings && n in order
  }

  lemma {:induction false} ContractAccepted(g: Module, order: seq<Name>, plan: Plan, cur: BatchNo, c: Name)
    requires Rankable(g) && AllArgsThere(g, order) && c in g.bindings
    ensures var r := HandleContract(g, order, plan, cur, c);
            r.Ok? && plan.batchOf.Keys <= r.value.batchOf.Keys && c in r.value.batchOf
    decreases RankOf(g).C(c), 1, 0
  {
    if c !in plan.batchOf { ArgsAccepted(g, order, plan, cur, c, g.bindings[c].args); }
  }

  lemma {:induction false} ArgsAccepted(g: Module, order: seq<Name>, plan: Plan, cur: BatchNo, c: Name, args: seq<Arg>)
    requires Rankable(g) && AllArgsThere(g, order) && c in g.bindings
    requires forall a :: a in args ==> a in g.bindings[c].args
    ensures var r := HandleArgs(g, order, plan, cur, c, args);
            r.Ok? && plan.batchOf.Keys <= r.value.0.batchOf.Keys
    decreases RankOf(g).C(c), 0, |args|
  {
    if args == [] {
    } else if !args[0].Contract? {
      ArgsAccepted(g, order, plan, cur, c, args[1..]);
    } else {
      var n := args[0].name;
      assert args[0] == Contract(n);
      if n in plan.batchOf {
        ArgsAccepted(g, order, plan, Later(cur, plan.batchOf[n]), c, args[1..]);
      } else {
        ArgRanksBelow(g, c, n);
        ContractAccepted(g, order, plan, cur, n);
        var p1 := HandleContract(g, order, plan, cur, n).value;
        ArgsAccepted(g, order, p1, if c in p1.batchOf then Next(p1.batchOf[c]) else NaN, c, args[1..]);
      }
    }
  }

  lemma {:induction false} DeepestAccepted(plan: Plan, e: Name, names: seq<Name>, d: nat, used: bool)
    requires forall n :: n in names ==> n in plan.batchOf
    ensures Deepest(plan, e, names, d, used).Ok?
  {
    if names == [] {
    } else {
      assert names[0] in names;
      DeepestAccepted(plan, e, names[1..], Deeper(d, plan.batchOf[names[0]]), used);
    }
  }

  lemma AfterEventAccepted(plan: Plan, e: Name, event: Event)
    requires forall n :: n in Waits(event) ==> n in plan.batchOf
    ensures HandleAfterEvent(plan, e, event).Ok?
  {
    assert forall n :: n in event.usage + event.deps + event.eventDeps + event.eventUsage ==> n in plan.batchOf;
    DeepestAccepted(plan, e, event.usage, 0, true);
    var d1 := Deepest(plan, e, event.usage, 0, true).value;
    DeepestAccepted(plan, e, event.deps, d1, false);
    var d2 := Deepest(plan, e, event.deps, d1, false).value;
    DeepestAccepted(plan, e, event.eventDeps, d2, false);
    var d3 := Deepest(plan, e, event.eventDeps, d2, false).value;
    DeepestAccepted(plan, e, event.eventUsage, d3, true);
  }

  /** The contracts and events among `names` are batched. */
  ghost predicate Covers(g: Module, plan: Plan, names: seq<Name>) {
    forall x :: x in names && (x in g.bindings || x in g.events) ==> x in plan.batchOf
  }

  lemma ElementAccepted(g: Module, order: seq<Name>, plan: Plan, base: nat, i: nat)
    requires Input(g, order) && AllArgsThere(g, order) && NothingUsed(g)
    requires i < |order| && Covers(g, plan, order[..i])
    ensures var r := HandleElement(g, order, plan, base, order[i]); r.Ok? && Covers(g, r.value, order[..i + 1])
  {
    var x := order[i];
    if x in g.bindings {
      ContractAccepted(g, order, plan, At(base), x);
    } else if x in g.events && IsAfter(g.events[x]) {
      WaitsCovered(g, order, plan, i);
      AfterEventAccepted(plan, x, g.events[x]);
    }
    var r := HandleElement(g, order, plan, base, x);
    if r.Ok? { CoversOneMore(g, plan, r.value, order, i); }
  }

  lemma CoversOneMore(g: Module, plan: Plan, plan': Plan, order: seq<Name>, i: nat)
    requires i < |order| && Covers(g, plan, order[..i]) && plan.batchOf.Keys <= plan'.batchOf.Keys
    requires order[i] in g.bindings || order[i] in g.events ==> order[i] in plan'.batchOf
    ensures Covers(g, plan', order[..i + 1])
  {
    assert order[..i + 1] == order[..i] + [order[i]];
  }

  lemma WaitsCovered(g: Module, order: seq<Name>, plan: Plan, i: nat)
    requires Input(g, order) && NothingUsed(g) && i < |order| && Covers(g, plan, order[..i])
    requires order[i] in g.events && IsAfter(g.events[order[i]])
    ensures forall n :: n in Waits(g.events[order[i]]) ==> n in plan.batchOf
  {
    var event := g.events[order[i]];
    forall n | n in Waits(event) ensures n in plan.batchOf {
      assert n in event.deps + event.usage + event.eventDeps;
      NeedStandsBefore(g, order, i, n);
    }
  }

  lemma {:induction false} LibrariesAccepted(g: Module, order: seq<Name>, plan: Plan, names: seq<Name>)
    requires Rankable(g) && AllArgsThere(g, order)
    ensures HandleLibraries(g, order, plan, names).Ok?
    decreases |names|
  {
    if names == [] {
    } else if !IsLibrary(g, names[0]) {
      LibrariesAccepted(g, order, plan, names[1..]);
    } else {
      ContractAccepted(g, order, plan, At(0), names[0]);
      LibrariesAccepted(g, order, HandleElement(g, order, plan, 0, names[0]).value, names[1..]);
    }
  }

  lemma {:induction false} AllAccepted(g: Module, order: seq<Name>, i: nat)
    requires Input(g, order) && AllArgsThere(g, order) && NothingUsed(g) && i <= |order|
    ensures SoFar(g, order, i).Ok? && Covers(g, SoFar(g, order, i).value, order[..i])
  {
    if i == 0 {
      StartAccepted(g, order);
    } else {
      AllAccepted(g, order, i - 1);
      NextAccepted(g, order, i - 1, SoFar(g, order, i - 1).value);
    }
  }

  lemma StartAccepted(g: Module, order: seq<Name>)
    requires Rankable(g) && AllArgsThere(g, order)
    ensures SoFar(g, order, 0).Ok?
  {
    LibrariesAccepted(g, order, EMPTY, order);
    assert order[..0] == [];
  }

  lemma NextAccepted(g: Module, order: seq<Name>, i: nat, plan: Plan)
    requires Input(g, order) && AllArgsThere(g, order) && NothingUsed(g) && i < |order|
    requires SoFar(g, order, i) == Ok(plan) && Covers(g, plan, order[..i])
    ensures SoFar(g, order, i + 1).Ok? && Covers(g, SoFar(g, order, i + 1).value, order[..i + 1])
  {
    SoFarStep(g, order, i);
    ElementAccepted(g, order, plan, Base(g, order), i);
  }

  /** A state of a module whose arguments are bound and whose hooks use nothing is never
      refused, lost elements or not. */
  lemma UnusedIsScheduled(g: Module, order: seq<Name>)
    requires Input(g, order) && AllArgsThere(g, order) && NothingUsed(g)
    ensures Scheduler.Schedule(g, order).Ok?
  {
    assert order[..|order|] == order;
    AllAccepted(g, order, |order|);
  }

  /** A library with an argument that is no library, and never batched. */
  ghost predicate LosesLibrary(g: Module, plan: Plan) {
    exists l :: l in plan.lost && IsLibrary(g, l) && !ArgsAreLibraries(g, l) && NeverBatched(plan, l)
  }

  lemma BadLibraryIsLost(g: Module, order: seq<Name>, c: Name)
    requires Input(g, order) && c in order && IsLibrary(g, c) && !ArgsAreLibraries(g, c)
    requires Scheduler.Schedule(g, order).Ok?
    ensures LosesLibrary(g, Scheduler.Schedule(g, order).value)
  {
    var l := BadLibraryScheduleLoses(g, order, c);
    ScheduleIsAligned(g, order);
    LostIsNeverBatched(g, Scheduler.Schedule(g, order).value, l);
  }

  lemma LostIsNeverBatched(g: Module, plan: Plan, x: Name)
    requires Aligned(g, plan) && x in plan.lost && (x in g.bindings || x in g.events)
    ensures NeverBatched(plan, x)
  {
  }

  // ----- The branch for unbatched arguments -----

  /** Handling `c` enters the branch: some contract it takes is not batched yet.  A
      contract met unbatched is handled within the same call, so a call in which the
      branch is entered enters it itself. */
  ghost predicate Enters(g: Module, r: Result<Plan, ScheduleError>, c: Name) {
    && r.Ok? && c in g.bindings && c !in r.value.batchOf
    && exists n :: Contract(n) in g.bindings[c].args && n in g.bindings && n !in r.value.batchOf
  }

  /** Neither pass enters the branch at any element of the state. */
  ghost predicate NeverEntered(g: Module, order: seq<Name>)
    requires Rankable(g)
  {
    forall i :: 0 <= i < |order| ==>
      && !(IsLibrary(g, order[i]) && Enters(g, LibrariesSoFar(g, order, i), order[i]))
      && !Enters(g, SoFar(g, order, i), order[i])
  }

  lemma GoodNeverEntered(g: Module, order: seq<Name>, i: nat)
    requires Input(g, order) && LibraryArgsAreLibraries(g) && i < |order|
    ensures !(IsLibrary(g, order[i]) && Enters(g, LibrariesSoFar(g, order, i), order[i]))
    ensures !Enters(g, SoFar(g, order, i), order[i])
  {
    LibrariesSoFarGood(g, order, i);
    if SoFar(g, order, i).Ok? { SoFarIsGood(g, order, i); }
    if order[i] in g.bindings {
      forall n | Contract(n) in g.bindings[order[i]].args && n in g.bindings ensures n in order[..i] {
        ArgsStandBefore(g, order, i, n);
      }
    }
  }

  lemma BadLibraryEnters(g: Module, order: seq<Name>, c: Name)
    requires Input(g, order) && c in order && IsLibrary(g, c) && !ArgsAreLibraries(g, c)
    requires Scheduler.Schedule(g, order).Ok?
    ensures !NeverEntered(g, order)
  {
    var k := FirstBadLibrary(g, order, c);
    LibrariesSoFarGood(g, order, k);
    LibrariesSoFarGoOn(g, order, k);
    BadLibraryIsFresh(g, order, LibrariesSoFar(g, order, k).value, k);
    assert Enters(g, LibrariesSoFar(g, order, k), order[k]);
  }

  /** The outcome of scheduling: nothing lost, or a library lost. */
  ghost predicate LosesAsExpected(g: Module, order: seq<Name>, r: Result<Plan, ScheduleError>)
    requires Rankable(g)
  {
    match r
    case Ok(plan) =>
      && (plan.lost == [] <==> LibraryArgsAreLibraries(g))
      && (NeverEntered(g, order) <==> LibraryArgsAreLibraries(g))
      && (LibraryArgsAreLibraries(g) || LosesLibrary(g, plan))
    case Err(_) => true
  }

  /** A schedule loses no element, and never enters the branch for unbatched arguments, if
      and only if the contract arguments of every library are libraries themselves;
      otherwise some library is never batched.  With arguments bound and nothing used
      there always is a schedule. */
  lemma NothingLostIff(g: Module, order: seq<Name>)
    requires Input(g, order) && forall c :: c in g.bindings ==> c in order
    ensures LosesAsExpected(g, order, Scheduler.Schedule(g, order))
    ensures AllArgsThere(g, order) && NothingUsed(g) ==> Scheduler.Schedule(g, order).Ok?
  {
    if AllArgsThere(g, order) && NothingUsed(g) { UnusedIsScheduled(g, order); }
    if Scheduler.Schedule(g, order).Ok? {
      if LibraryArgsAreLibraries(g) { NothingIsLost(g, order); } else { SomethingIsLost(g, order); }
    }
  }

  lemma NothingIsLost(g: Module, order: seq<Name>)
    requires Input(g, order) && LibraryArgsAreLibraries(g) && Scheduler.Schedule(g, order).Ok?
    ensures Scheduler.Schedule(g, order).value.lost == [] && NeverEntered(g, order)
  {
    SchedulePartitions(g, order, Scheduler.Schedule(g, order).value);
    forall i | 0 <= i < |order|
      ensures !(IsLibrary(g, order[i]) && Enters(g, LibrariesSoFar(g, order, i), order[i]))
      ensures !Enters(g, SoFar(g, order, i), order[i])
    {
      GoodNeverEntered(g, order, i);
    }
  }

  lemma SomethingIsLost(g: Module, order: seq<Name>)
    requires Input(g, order) && (forall c :: c in g.bindings ==> c in order) && !LibraryArgsAreLibraries(g)
    requires Scheduler.Schedule(g, order).Ok?
    ensures LosesLibrary(g, Scheduler.Schedule(g, order).value) && !NeverEntered(g, order)
  {
    var c :| IsLibrary(g, c) && !ArgsAreLibraries(g, c);
    BadLibraryIsLost(g, order, c);
    BadLibraryEnters(g, order, c);
  }

  // ----- Runs of any schedule -----

  /** The lost contracts `c` takes have addresses of before, and no deploy function. */
  ghost predicate LostArgsGiven(g: Module, plan: Plan, initial: map<Name, Address>, c: Name)
    requires c in g.bindings
  {
    forall n :: Contract(n) in g.bindings[c].args && n in g.bindings && n in plan.batchOf && plan.batchOf[n].NaN? ==>
      n in initial && !g.bindings[n].deployFn
  }

  /** The lost contracts an after-hook depends on have addresses of before. */
  ghost predicate LostDepsGiven(g: Module, plan: Plan, initial: map<Name, Address>, e: Name) {
    e in g.events && IsAfter(g.events[e]) ==>
      forall n :: n in g.events[e].deps && n in plan.batchOf && plan.batchOf[n].NaN? ==> n in initial
  }

  /** No batch was left unassigned, no batched contract has a deploy function, and every
      one still to be sent finds what it takes, names and links; no hook misses a lost
      contract. */
  ghost predicate RunsThrough(g: Module, plan: Plan, initial: map<Name, Address>) {
    && NoHoles(plan)
    && (forall c :: Batched(g, plan, c) ==> !g.bindings[c].deployFn)
    && (forall c :: Batched(g, plan, c) && c !in initial ==>
          && LostArgsGiven(g, plan, initial, c)
          && NamesReady(g, plan, initial, c) && LinksReady(g, plan, initial, c))
    && (forall e :: e in plan.batchOf && plan.batchOf[e].At? && e !in g.bindings ==> LostDepsGiven(g, plan, initial, e))
  }

  lemma ArgIsReadyIff(g: Module, order: seq<Name>, plan: Plan, initial: map<Name, Address>, c: Name, n: Name)
    requires Input(g, order) && Scheduler.Schedule(g, order) == Ok(plan)
    requires Batched(g, plan, c) && Contract(n) in g.bindings[c].args
    requires forall x :: Batched(g, plan, x) ==> !g.bindings[x].deployFn
    ensures n in g.bindings && n in plan.batchOf
    ensures ArgReady(g, plan, initial, n, c) <==> plan.batchOf[n].At? || (n in initial && !g.bindings[n].deployFn)
  {
    ScheduleIsAligned(g, order);
    assert MustFollow(g, c, n);
    assert LostOrBefore(plan.batchOf, n, c);
  }

  lemma LossySendableIff(g: Module, order: seq<Name>, plan: Plan, initial: map<Name, Address>, c: Name)
    requires Input(g, order) && Scheduler.Schedule(g, order) == Ok(plan) && Batched(g, plan, c)
    requires forall x :: Batched(g, plan, x) ==> !g.bindings[x].deployFn
    ensures Sendable(g, plan, initial, c) <==>
            LostArgsGiven(g, plan, initial, c) && NamesReady(g, plan, initial, c) && LinksReady(g, plan, initial, c)
  {
    var args := g.bindings[c].args;
    forall n ensures n in ArgNames(args) <==> Named(n) in args || Contract(n) in args { ArgNamesMembers(args, n); }
    forall n | Contract(n) in args
      ensures n in g.bindings && n in plan.batchOf
      ensures ArgReady(g, plan, initial, n, c) <==> plan.batchOf[n].At? || (n in initial && !g.bindings[n].deployFn)
    {
      ArgIsReadyIff(g, order, plan, initial, c, n);
    }
  }

  lemma LossyHookReadyIff(g: Module, order: seq<Name>, plan: Plan, initial: map<Name, Address>, e: Name)
    requires Input(g, order) && Scheduler.Schedule(g, order) == Ok(plan)
    requires e in plan.batchOf && plan.batchOf[e].At? && e !in g.bindings
    ensures HookReady(g, plan, initial, e) <==> LostDepsGiven(g, plan, initial, e)
  {
    ScheduleIsAligned(g, order);
    if IsAfter(g.events[e]) {
      forall n | n in g.events[e].deps
        ensures n in g.bindings && n in plan.batchOf
        ensures ReadyFor(g, plan, initial, n, e) <==> plan.batchOf[n].At? || n in initial
      {
        assert n in Waits(g.events[e]) && MustFollow(g, e, n);
        assert LostOrBefore(plan.batchOf, n, e);
      }
    }
  }

  /** The run of any schedule, elements lost or not, finishes exactly when no batch was
      left unassigned, no batched contract has a deploy function, and every one still to
      be sent finds the objects it names, its libraries, and addresses of before for what
      it takes that was lost; and no hook depends on a lost contract without one.  It
      ends for just these reasons, and all it did is safe. */
  lemma ScheduleRunFinishesIff(g: Module, order: seq<Name>, plan: Plan, initial: map<Name, Address>,
                               receipt: Name -> Address)
    requires Input(g, order) && Scheduler.Schedule(g, order) == Ok(plan)
    ensures var r := ExecuteBatches(g, receipt, plan.batches, State(initial, []));
            && (r.Fine? <==> RunsThrough(g, plan, initial))
            && EndsAccounted(g, plan, initial, r)
            && SafeLog(g, initial, Final(r).log)
            && (r.Fine? ==> forall c :: Batched(g, plan, c) ==> c in r.value.addresses)
  {
    ScheduleIsAligned(g, order);
    AnyRunFinishesIff(g, plan, initial, receipt);
    AllSendableIfThrough(g, order, plan, initial);
    forall e | e in plan.batchOf && plan.batchOf[e].At? && e !in g.bindings
      ensures HookReady(g, plan, initial, e) <==> LostDepsGiven(g, plan, initial, e)
    {
      LossyHookReadyIff(g, order, plan, initial, e);
    }
  }

  lemma AllSendableIfThrough(g: Module, order: seq<Name>, plan: Plan, initial: map<Name, Address>)
    requires Input(g, order) && Scheduler.Schedule(g, order) == Ok(plan)
    ensures AllSendable(g, plan, initial) <==>
            && NoHoles(plan)
            && (forall c :: Batched(g, plan, c) ==> !g.bindings[c].deployFn)
            && (forall c :: Batched(g, plan, c) && c !in initial ==>
                  && LostArgsGiven(g, plan, initial, c)
                  && NamesReady(g, plan, initial, c) && LinksReady(g, plan, initial, c))
  {
    if forall c :: Batched(g, plan, c) ==> !g.bindings[c].deployFn {
      forall c | Batched(g, plan, c)
        ensures Sendable(g, plan, initial, c) <==>
                LostArgsGiven(g, plan, initial, c) && NamesReady(g, plan, initial, c) && LinksReady(g, plan, initial, c)
      {
        LossySendableIff(g, order, plan, initial, c);
      }
    }
  }
}
