/** Runs of schedules that lost nothing. */
module ScheduledRun {
  import opened Alignment
  import opened Graph
  import opened ParallelRun
  import Resolver
  import opened RunLog
  import opened Schedule
  import opened ScheduleOrder
  import opened Scheduler
  import opened Wrappers

  /** Every contract and event of the state has a batch number. */
  ghost predicate NoneLost(g: Module, order: seq<Name>, plan: Plan) {
    forall x :: x in order && (x in g.bindings || x in g.events) <==> x in plan.batchOf && plan.batchOf[x].At?
  }

  lemma ScheduledIsAligned(g: Module, order: seq<Name>, plan: Plan)
    requires Scheduled(g, order, plan)
    ensures Aligned(g, plan) && NoneLost(g, order, plan)
  {
    ScheduleIsAligned(g, order);
    ScheduleIsGood(g, order);
    SchedulePartitions(g, order, plan);
  }

  /** Which contracts come first is known before the run: those of lower level, which is
      the length of the longest chain of arguments. */
  lemma ReadyIffLower(g: Module, order: seq<Name>, plan: Plan, initial: map<Name, Address>, n: Name, c: Name)
    requires Scheduled(g, order, plan) && n in order && n in g.bindings && c in order && c in g.bindings
    ensures var base := Base(g, order);
            ReadyFor(g, plan, initial, n, c) <==> n in initial || Level(g, base, n) < Level(g, base, c)
  {
    ScheduleIsGood(g, order);
    assert n in plan.batchOf && c in plan.batchOf;
  }

  /** In a schedule that lost nothing every hook finds its contracts. */
  lemma HookHasNoError(g: Module, order: seq<Name>, plan: Plan, initial: map<Name, Address>, e: Name)
    requires Scheduled(g, order, plan) && e in order && e !in g.bindings
    ensures HookReady(g, plan, initial, e)
  {
    if e in g.events && IsAfter(g.events[e]) {
      forall n | n in g.events[e].deps ensures ReadyFor(g, plan, initial, n, e) {
        assert n in Waits(g.events[e]);
        HooksFollowWaits(g, order, plan, e, n);
        ScheduleIsGood(g, order);
      }
    }
  }

  /** The objects with only a name among the arguments of `c` belong to contracts that
      have addresses when its batch runs. */
  ghost predicate NamesReady(g: Module, plan: Plan, initial: map<Name, Address>, c: Name)
    requires c in g.bindings
  {
    forall n :: Named(n) in g.bindings[c].args ==> ArgReady(g, plan, initial, n, c)
  }

  lemma BindingsReady(g: Module, order: seq<Name>, plan: Plan, initial: map<Name, Address>, c: Name, n: Name)
    requires Scheduled(g, order, plan) && c in order && c in g.bindings && Contract(n) in g.bindings[c].args
    ensures n in order && ReadyFor(g, plan, initial, n, c)
  {
    ContractsFollowArguments(g, order, plan, c, n);
    ScheduledIsAligned(g, order, plan);
  }

  lemma SendableIff(g: Module, order: seq<Name>, plan: Plan, initial: map<Name, Address>, c: Name)
    requires Scheduled(g, order, plan) && c in order && c in g.bindings
    requires forall x :: x in order && x in g.bindings ==> !g.bindings[x].deployFn
    ensures Sendable(g, plan, initial, c) <==> NamesReady(g, plan, initial, c) && LinksReady(g, plan, initial, c)
  {
    var args := g.bindings[c].args;
    forall n ensures n in ArgNames(args) <==> Named(n) in args || Contract(n) in args { ArgNamesMembers(args, n); }
    forall n | Contract(n) in args ensures ArgReady(g, plan, initial, n, c) {
      BindingsReady(g, order, plan, initial, c, n);
    }
  }

  /** No contract has a deploy function, and each one still to be sent finds the objects
      it names and its libraries. */
  ghost predicate AllReady(g: Module, order: seq<Name>, plan: Plan, initial: map<Name, Address>) {
    && (forall c :: c in order && c in g.bindings ==> !g.bindings[c].deployFn)
    && (forall c :: c in order && c in g.bindings && c !in initial ==>
          NamesReady(g, plan, initial, c) && LinksReady(g, plan, initial, c))
  }

  /** The error of a run over a schedule that lost nothing: an address is missing only of
      an object that has no more than a name, never of a contract binding, and no hook
      fails. */
  ghost predicate NoBindingMissing(g: Module, r: Outcome<State>) {
    match r
    case Fine(_) => true
    case Thrown(NoContractAddress(c, n), _) => OnlyNamed(g, c, n)
    case Thrown(NoTransaction(c, n), _) => n !in g.bindings ==> OnlyNamed(g, c, n)
    case Thrown(_, _) => true
    case Hung(_, _) => false
  }

  ghost predicate OnlyNamed(g: Module, c: Name, n: Name) {
    c in g.bindings && Named(n) in g.bindings[c].args && Contract(n) !in g.bindings[c].args
  }

  /** Every hook and module event of the state ran exactly once; every contract without
      address was sent once and confirmed once, with the address of its receipt, which it
      has now; and nothing else was done. */
  ghost predicate DidAll(g: Module, order: seq<Name>, initial: map<Name, Address>, receipt: Name -> Address, s: State) {
    && (forall e :: Times(s.log, Ran(e)) == if e in order && e !in g.bindings then 1 else 0)
    && (forall c :: Times(s.log, Sent(c)) == if c in order && c in g.bindings && c !in initial then 1 else 0)
    && (forall c, a :: Times(s.log, Confirmed(c, a)) ==
          if c in order && c in g.bindings && c !in initial && a == receipt(c) then 1 else 0)
    && (forall c :: c in s.addresses <==> c in initial || (c in order && c in g.bindings))
    && (forall c :: c in s.addresses ==> s.addresses[c] == if c in initial then initial[c] else receipt(c))
  }

  lemma FinishedDidAll(g: Module, order: seq<Name>, batches: seq<seq<Name>>, initial: map<Name, Address>,
                       receipt: Name -> Address)
    requires forall n :: Flat(batches)[n] == if n in order then 1 else 0
    requires ExecuteBatches(g, receipt, batches, State(initial, [])).Fine?
    ensures DidAll(g, order, initial, receipt, ExecuteBatches(g, receipt, batches, State(initial, [])).value)
  {
    var s := ExecuteBatches(g, receipt, batches, State(initial, [])).value;
    RunAddresses(g, receipt, batches, State(initial, []));
    forall step ensures Times(s.log, step) == Due(g, receipt, initial, Flat(batches), step) {
      RunTimes(g, receipt, batches, State(initial, []), step);
    }
    AllDue(g, order, Flat(batches), initial, receipt, s);
  }

  lemma AllDue(g: Module, order: seq<Name>, places: multiset<Name>, initial: map<Name, Address>,
               receipt: Name -> Address, s: State)
    requires forall n :: places[n] == if n in order then 1 else 0
    requires forall step :: Times(s.log, step) == Due(g, receipt, initial, places, step)
    requires forall c :: c in s.addresses <==> c in initial || (places[c] > 0 && c in g.bindings)
    requires forall c :: c in s.addresses ==> s.addresses[c] == if c in initial then initial[c] else receipt(c)
    ensures DidAll(g, order, initial, receipt, s)
  {
  }

  lemma PlacesOnce(g: Module, order: seq<Name>, plan: Plan)
    requires Scheduled(g, order, plan)
    ensures forall n :: Flat(plan.batches)[n] == if n in order then 1 else 0
  {
    ScheduleIsGood(g, order);
    var all := Members(order);
    assert Flat(plan.batches) == multiset(all);
  }

  /** A run over a schedule that lost nothing finishes exactly when no batch was left
      unassigned, no contract has a deploy function, and every contract still to be sent
      finds the objects it names and its libraries; then every hook and module event has
      run once, and every contract without address has been sent and confirmed once.  A
      contract binding among the arguments always has its address, and no hook fails. */
  lemma RunFinishesIff(g: Module, order: seq<Name>, plan: Plan, initial: map<Name, Address>, receipt: Name -> Address)
    requires Scheduled(g, order, plan)
    ensures var r := ExecuteBatches(g, receipt, plan.batches, State(initial, []));
            && (r.Fine? <==> NoHoles(plan) && AllReady(g, order, plan, initial))
            && EndsAccounted(g, plan, initial, r) && NoBindingMissing(g, r)
            && SafeLog(g, initial, Final(r).log)
            && (r.Fine? ==> DidAll(g, order, initial, receipt, r.value))
  {
    ScheduledIsAligned(g, order, plan);
    AnyRunFinishesIff(g, plan, initial, receipt);
    if ExecuteBatches(g, receipt, plan.batches, State(initial, [])).Fine? {
      PlacesOnce(g, order, plan);
      FinishedDidAll(g, order, plan.batches, initial, receipt);
    }
    AllSendableIff(g, order, plan, initial);
    forall e | e in plan.batchOf && plan.batchOf[e].At? && e !in g.bindings ensures HookReady(g, plan, initial, e) {
      HookHasNoError(g, order, plan, initial, e);
    }
    BindingsNotMissing(g, order, plan, initial, ExecuteBatches(g, receipt, plan.batches, State(initial, [])));
  }

  lemma AllSendableIff(g: Module, order: seq<Name>, plan: Plan, initial: map<Name, Address>)
    requires Scheduled(g, order, plan)
    ensures AllSendable(g, plan, initial) <==> NoHoles(plan) && AllReady(g, order, plan, initial)
  {
    BatchedIff(g, order, plan);
    if forall c :: c in order && c in g.bindings ==> !g.bindings[c].deployFn {
      forall c | c in order && c in g.bindings
        ensures Sendable(g, plan, initial, c) <==> NamesReady(g, plan, initial, c) && LinksReady(g, plan, initial, c)
      {
        SendableIff(g, order, plan, initial, c);
      }
    }
  }

  lemma BatchedIff(g: Module, order: seq<Name>, plan: Plan)
    requires Scheduled(g, order, plan)
    ensures forall c :: c in order && c in g.bindings <==> Batched(g, plan, c)
  {
    ScheduledIsAligned(g, order, plan);
  }

  lemma BindingsNotMissing(g: Module, order: seq<Name>, plan: Plan, initial: map<Name, Address>, r: Outcome<State>)
    requires Scheduled(g, order, plan) && EndsAccounted(g, plan, initial, r)
    ensures NoBindingMissing(g, r)
  {
    ScheduledIsAligned(g, order, plan);
    match r
    case Fine(_) =>
    case Hung(error, _) =>
      HookHasNoError(g, order, plan, initial, error.event);
      assert false;
    case Thrown(error, _) =>
      if error.NoContractAddress? || error.NoTransaction? {
        ArgNamesMembers(g.bindings[error.contract].args, error.arg);
        if Contract(error.arg) in g.bindings[error.contract].args {
          BindingsReady(g, order, plan, initial, error.contract, error.arg);
        }
      }
  }

  lemma LinkIsPlaced(g: Module, order: seq<Name>, c: Name, l: Name)
    requires Resolver.Ordered(g, order) && c in order && c in g.bindings && l in Links(g.bindings[c]) && l in g.bindings
    ensures l in order
  {
    assert l in Bound(g, Links(g.bindings[c]));
    Resolver.PlacedNeeds(g, order, c, l);
  }

  /** Only libraries are linked, and no library links or takes a contract. */
  ghost predicate LibrariesAreLeaves(g: Module) {
    && (forall c, l :: c in g.bindings && l in Links(g.bindings[c]) ==> IsLibrary(g, l) && !IsLibrary(g, c))
    && (forall l, n :: IsLibrary(g, l) && Contract(n) in g.bindings[l].args ==> n !in g.bindings)
  }

  lemma LeafLinksReady(g: Module, order: seq<Name>, plan: Plan, initial: map<Name, Address>, c: Name)
    requires Scheduled(g, order, plan) && LibrariesAreLeaves(g) && c in order && c in g.bindings
    ensures LinksReady(g, plan, initial, c)
  {
    forall l | l in Links(g.bindings[c]) ensures ReadyFor(g, plan, initial, l, c) {
      assert IsLibrary(g, l);
      LinkIsPlaced(g, order, c, l);
      ContractsFollowLibraries(g, order, plan, l, c);
    }
  }

  /** All that is left to find when libraries are leaves: the objects with only a name. */
  ghost predicate AllNamesReady(g: Module, order: seq<Name>, plan: Plan, initial: map<Name, Address>) {
    && (forall c :: c in order && c in g.bindings ==> !g.bindings[c].deployFn)
    && (forall c :: c in order && c in g.bindings && c !in initial ==> NamesReady(g, plan, initial, c))
  }

  lemma LeafLinksFound(g: Module, order: seq<Name>, plan: Plan, initial: map<Name, Address>, r: Outcome<State>)
    requires Scheduled(g, order, plan) && LibrariesAreLeaves(g) && EndsAccounted(g, plan, initial, r)
    ensures r.Thrown? ==> !r.error.LibraryNotDeployed?
  {
    if r.Thrown? && r.error.LibraryNotDeployed? {
      ScheduledIsAligned(g, order, plan);
      LeafLinksReady(g, order, plan, initial, r.error.contract);
      assert false;
    }
  }

  /** With such libraries a run finishes unless a batch was left unassigned, a contract has
      a deploy function, or an object with only a name is not found in time; it never
      throws for a library. */
  lemma PlainRunFinishes(g: Module, order: seq<Name>, plan: Plan, initial: map<Name, Address>, receipt: Name -> Address)
    requires Scheduled(g, order, plan) && LibrariesAreLeaves(g)
    ensures var r := ExecuteBatches(g, receipt, plan.batches, State(initial, []));
            && (r.Fine? <==> NoHoles(plan) && AllNamesReady(g, order, plan, initial))
            && (r.Thrown? ==> !r.error.LibraryNotDeployed?)
  {
    forall c | c in order && c in g.bindings ensures LinksReady(g, plan, initial, c) {
      LeafLinksReady(g, order, plan, initial, c);
    }
    RunFinishesIff(g, order, plan, initial, receipt);
    LeafLinksFound(g, order, plan, initial, ExecuteBatches(g, receipt, plan.batches, State(initial, [])));
  }
}
