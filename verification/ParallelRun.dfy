/** Executing the batches: each batch sends its contracts, waits for their receipts,
    runs its hooks, and only then records the new addresses.  Every sent transaction
    is confirmed; `receipt` gives the address each creation is confirmed with. */
module ParallelRun {
  import opened Alignment
  import opened Graph
  import opened Scheduler
  import opened Schedule
  import opened ScheduleOrder
  import opened Wrappers

  type Address = string

  datatype Step = Sent(contract: Name) | Ran(event: Name) | Confirmed(contract: Name, address: Address)

  /** `CustomDeploy` stands for a contract with a deploy function, which has no transaction
      to wait for or to find the receipt of; `NoTransaction` for an argument that is looked
      up and belongs to no contract, or to one with such a function; `LibraryNotDeployed`
      also for a library that is no contract of the module; `NoBatch` is the error of
      iterating over an array index never assigned. */
  datatype Failure =
    | CustomDeploy(contract: Name)
    | NoTransaction(contract: Name, arg: Name)
    | NoContractAddress(contract: Name, arg: Name)
    | LibraryNotDeployed(contract: Name, library: Name)
    | NotYetDeployed(event: Name, dep: Name)
    | NoBatch

  datatype State = State(addresses: map<Name, Address>, log: seq<Step>)

  /** How a stretch of the run ends: with a value, by a throw, or never, because a hook
      failed inside the callback whose rejection nobody handles; in the last two with
      the state reached. */
  datatype Outcome<+T> = Fine(value: T) | Thrown(error: Failure, state: State) | Hung(error: Failure, state: State) {
    predicate IsFailure() { !Fine? }
    function PropagateFailure<U>(): Outcome<U> requires !Fine? {
      if Thrown? then Thrown(error, state) else Hung(error, state)
    }
    function Extract(): T requires Fine? { value }
  }

  /** The state a run reaches, however it ends. */
  function Final(r: Outcome<State>): State {
    if r.Fine? then r.value else r.state
  }

  predicate HasAddress(g: Module, addresses: map<Name, Address>, n: Name) {
    n in g.bindings && n in addresses
  }

  /** The first name without an address. */
  function FirstMissing(g: Module, addresses: map<Name, Address>, names: seq<Name>): (r: Option<Name>)
    ensures r.None? <==> forall n :: n in names ==> HasAddress(g, addresses, n)
    ensures r.Some? ==> r.value in names && !HasAddress(g, addresses, r.value)
  {
    if names == [] then None
    else
      assert names == [names[0]] + names[1..];
      if !HasAddress(g, addresses, names[0]) then Some(names[0]) else FirstMissing(g, addresses, names[1..])
  }

  /** Whether an object named `n` can be encoded as an address. */
  predicate ArgGiven(g: Module, addresses: map<Name, Address>, n: Name) {
    HasAddress(g, addresses, n) && !g.bindings[n].deployFn
  }

  /** The error of encoding the arguments in order: every object is looked up by its
      name, whether or not it is a contract binding. */
  function ArgError(g: Module, addresses: map<Name, Address>, c: Name, args: seq<Arg>): (r: Option<Failure>)
    ensures r.None? <==> forall n :: n in ArgNames(args) ==> ArgGiven(g, addresses, n)
    ensures r.Some? ==> exists n :: n in ArgNames(args) && !ArgGiven(g, addresses, n) && r.value == Lack(g, c, n)
  {
    if args == [] then None
    else if args[0].Value? || ArgGiven(g, addresses, args[0].name) then ArgError(g, addresses, c, args[1..])
    else Some(Lack(g, c, args[0].name))
  }

  function Lack(g: Module, c: Name, n: Name): Failure {
    if n !in g.bindings || g.bindings[n].deployFn then NoTransaction(c, n) else NoContractAddress(c, n)
  }

  /** Encoding the constructor arguments, then linking the libraries. */
  function SendError(g: Module, addresses: map<Name, Address>, c: Name): Option<Failure>
    requires c in g.bindings
  {
    var b := g.bindings[c];
    var arg := ArgError(g, addresses, c, b.args);
    var lib := FirstMissing(g, addresses, Links(b));
    if b.deployFn then Some(CustomDeploy(c))
    else if arg.Some? then arg
    else if lib.Some? then Some(LibraryNotDeployed(c, lib.value))
    else None
  }

  function SendAll(g: Module, addresses: map<Name, Address>, batch: seq<Name>, log: seq<Step>): Outcome<seq<Step>>
    decreases |batch|
  {
    if batch == [] then Fine(log)
    else if batch[0] !in g.bindings || batch[0] in addresses then SendAll(g, addresses, batch[1..], log)
    else
      var error := SendError(g, addresses, batch[0]);
      if error.Some? then Thrown(error.value, State(addresses, log))
      else SendAll(g, addresses, batch[1..], log + [Sent(batch[0])])
  }

  /** Deployed hooks check that their contracts have addresses; other events do not. */
  function HookError(g: Module, addresses: map<Name, Address>, e: Name): Option<Failure> {
    if e in g.events && IsAfter(g.events[e]) then
      var dep := FirstMissing(g, addresses, g.events[e].deps);
      if dep.Some? then Some(NotYetDeployed(e, dep.value)) else None
    else None
  }

  /** All hooks of a batch are started, and those that fail their check do nothing. */
  function StartHooks(g: Module, addresses: map<Name, Address>, batch: seq<Name>, log: seq<Step>): seq<Step>
    decreases |batch|
  {
    if batch == [] then log
    else if batch[0] in g.bindings || HookError(g, addresses, batch[0]).Some? then
      StartHooks(g, addresses, batch[1..], log)
    else StartHooks(g, addresses, batch[1..], log + [Ran(batch[0])])
  }

  function FirstHookError(g: Module, addresses: map<Name, Address>, batch: seq<Name>): Option<Failure> {
    if batch == [] then None
    else if batch[0] in g.bindings || HookError(g, addresses, batch[0]).None? then
      FirstHookError(g, addresses, batch[1..])
    else HookError(g, addresses, batch[0])
  }

  /** The receipts are written in turn; the transaction of every contract of the batch is
      looked at, also of those that had addresses before. */
  function ConfirmAll(g: Module, receipt: Name -> Address, batch: seq<Name>, s: State): Outcome<State>
    decreases |batch|
  {
    if batch == [] then Fine(s)
    else if batch[0] !in g.bindings then ConfirmAll(g, receipt, batch[1..], s)
    else if g.bindings[batch[0]].deployFn then Thrown(CustomDeploy(batch[0]), s)
    else if batch[0] in s.addresses then ConfirmAll(g, receipt, batch[1..], s)
    else
      var a := receipt(batch[0]);
      ConfirmAll(g, receipt, batch[1..], State(s.addresses[batch[0] := a], s.log + [Confirmed(batch[0], a)]))
  }

  /** A batch that was never assigned is `undefined`, one that was is not empty. */
  function ExecuteBatch(g: Module, receipt: Name -> Address, batch: seq<Name>, s: State): Outcome<State> {
    if batch == [] then Thrown(NoBatch, s)
    else
      var log1 :- SendAll(g, s.addresses, batch, s.log);
      var log2 := StartHooks(g, s.addresses, batch, log1);
      var error := FirstHookError(g, s.addresses, batch);
      if error.Some? then Hung(error.value, State(s.addresses, log2))
      else ConfirmAll(g, receipt, batch, State(s.addresses, log2))
  }

  function ExecuteBatches(g: Module, receipt: Name -> Address, batches: seq<seq<Name>>, s: State): Outcome<State>
    decreases |batches|
  {
    if batches == [] then Fine(s)
    else
      var s1 :- ExecuteBatch(g, receipt, batches[0], s);
      ExecuteBatches(g, receipt, batches[1..], s1)
  }

  /** What the caller of a run sees of its end. */
  datatype End = Finished | Threw(error: Failure) | Hangs(error: Failure)

  function EndOf(r: Outcome<State>): End {
    match r
    case Fine(_) => Finished
    case Thrown(error, _) => Threw(error)
    case Hung(error, _) => Hangs(error)
  }

  class Runner {
    const g: Module
    const receipt: Name -> Address
    var addresses: map<Name, Address>
    var log: seq<Step>

    constructor (g: Module, receipt: Name -> Address, addresses: map<Name, Address>)
      ensures this.g == g && this.receipt == receipt && Now() == State(addresses, [])
    {
      this.g, this.receipt, this.addresses, this.log := g, receipt, addresses, [];
    }

    ghost function Now(): State
      reads this
    {
      State(addresses, log)
    }

    method ExecuteOne(batch: seq<Name>) returns (end: End)
      modifies this
      ensures var r := ExecuteBatch(g, receipt, batch, old(Now())); end == EndOf(r) && Now() == Final(r)
    {
      if batch == [] { return Threw(NoBatch); }
      var failed := SendContracts(batch);
      if failed.Some? { return Threw(failed.value); }
      failed := RunHooks(batch);
      if failed.Some? { return Hangs(failed.value); }
      ghost var ran := Now();
      for i := 0 to |batch|
        invariant ConfirmAll(g, receipt, batch, ran) == ConfirmAll(g, receipt, batch[i..], Now())
      {
        assert batch[i..][1..] == batch[i + 1..];
        if batch[i] !in g.bindings { continue; }
        if g.bindings[batch[i]].deployFn { return Threw(CustomDeploy(batch[i])); }
        if batch[i] in addresses { continue; }
        log := log + [Confirmed(batch[i], receipt(batch[i]))];
        addresses := addresses[batch[i] := receipt(batch[i])];
      }
      end := Finished;
    }

    method SendContracts(batch: seq<Name>) returns (error: Option<Failure>)
      modifies this`log
      ensures var r := SendAll(g, addresses, batch, old(log));
              match r
              case Fine(sent) => error.None? && log == sent
              case Thrown(e, s) => error == Some(e) && Now() == s
              case Hung(_, _) => false
    {
      for i := 0 to |batch|
        invariant SendAll(g, addresses, batch, old(log)) == SendAll(g, addresses, batch[i..], log)
      {
        assert batch[i..][1..] == batch[i + 1..];
        if batch[i] !in g.bindings || batch[i] in addresses { continue; }
        error := SendError(g, addresses, batch[i]);
        if error.Some? { return; }
        log := log + [Sent(batch[i])];
      }
      error := None;
    }

    method RunHooks(batch: seq<Name>) returns (error: Option<Failure>)
      modifies this`log
      ensures log == StartHooks(g, addresses, batch, old(log)) && error == FirstHookError(g, addresses, batch)
    {
      error := None;
      for i := 0 to |batch|
        invariant StartHooks(g, addresses, batch, old(log)) == StartHooks(g, addresses, batch[i..], log)
        invariant FirstHookError(g, addresses, batch) ==
                  if error.Some? then error else FirstHookError(g, addresses, batch[i..])
      {
        assert batch[i..][1..] == batch[i + 1..];
        if batch[i] in g.bindings { continue; }
        var failed := HookError(g, addresses, batch[i]);
        if failed.None? {
          log := log + [Ran(batch[i])];
        } else if error.None? {
          error := failed;
        }
      }
    }

    method Execute(batches: seq<seq<Name>>) returns (end: End)
      modifies this
      ensures var r := ExecuteBatches(g, receipt, batches, old(Now())); end == EndOf(r) && Now() == Final(r)
    {
      for i := 0 to |batches|
        invariant ExecuteBatches(g, receipt, batches, old(Now())) == ExecuteBatches(g, receipt, batches[i..], Now())
      {
        assert batches[i..][1..] == batches[i + 1..];
        end := ExecuteOne(batches[i]);
        if !end.Finished? { return; }
      }
      end := Finished;
    }
  }

  /** What the chain has confirmed by the end of a log, on top of the addresses known
      at the start. */
  ghost predicate Known(initial: map<Name, Address>, log: seq<Step>, n: Name) {
    n in initial || exists a :: Confirmed(n, a) in log
  }

  /** A contract with a confirmed address. */
  ghost predicate KnownContract(g: Module, initial: map<Name, Address>, log: seq<Step>, n: Name) {
    n in g.bindings && Known(initial, log, n)
  }

  /** Nothing is sent before every object among its arguments is the name of a contract
      with an address and its libraries have addresses, and no afterDeploy or onChange
      hook runs before its contracts have. */
  ghost predicate SafeStep(g: Module, initial: map<Name, Address>, before: seq<Step>, step: Step) {
    match step
    case Sent(c) =>
      && c in g.bindings && !Known(initial, before, c)
      && (forall n :: n in ArgNames(g.bindings[c].args) + Links(g.bindings[c]) ==> KnownContract(g, initial, before, n))
    case Ran(e) =>
      e in g.events && IsAfter(g.events[e]) ==>
        forall n :: n in g.events[e].deps ==> KnownContract(g, initial, before, n)
    case Confirmed(c, a) => Sent(c) in before && !Known(initial, before, c)
  }

  ghost predicate SafeLog(g: Module, initial: map<Name, Address>, log: seq<Step>) {
    forall i :: 0 <= i < |log| ==> SafeStep(g, initial, log[..i], log[i])
  }

  ghost predicate Consistent(initial: map<Name, Address>, addresses: map<Name, Address>, log: seq<Step>) {
    forall n :: n in addresses <==> Known(initial, log, n)
  }

  ghost predicate Safe(g: Module, initial: map<Name, Address>, s: State) {
    SafeLog(g, initial, s.log) && Consistent(initial, s.addresses, s.log)
  }

  lemma SafeAppend(g: Module, initial: map<Name, Address>, log: seq<Step>, step: Step)
    requires SafeLog(g, initial, log) && SafeStep(g, initial, log, step)
    ensures SafeLog(g, initial, log + [step])
  {
    var log' := log + [step];
    forall i | 0 <= i < |log'| ensures SafeStep(g, initial, log'[..i], log'[i]) {
      if i < |log| { assert log'[..i] == log[..i]; } else { assert log'[..i] == log; }
    }
  }

  lemma KnownAppend(initial: map<Name, Address>, addresses: map<Name, Address>, log: seq<Step>, step: Step)
    requires Consistent(initial, addresses, log)
    ensures !step.Confirmed? ==> Consistent(initial, addresses, log + [step])
    ensures step.Confirmed? ==> Consistent(initial, addresses[step.contract := step.address], log + [step])
  {
    forall n
      ensures Known(initial, log + [step], n) <==> Known(initial, log, n) || (step.Confirmed? && step.contract == n)
    {
      if a :| Confirmed(n, a) in log { assert Confirmed(n, a) in log + [step]; }
      if step.Confirmed? && step.contract == n { assert Confirmed(n, step.address) in log + [step]; }
    }
  }

  /** Sending is safe, also what was sent before an error; every contract of the batch
      still without an address is sent unless there is one. */
  lemma {:induction false} SendAllSafe(g: Module, initial: map<Name, Address>, addresses: map<Name, Address>,
                                       batch: seq<Name>, log: seq<Step>)
    requires Safe(g, initial, State(addresses, log))
    ensures AllSent(g, initial, addresses, batch, log, SendAll(g, addresses, batch, log))
    decreases |batch|
  {
    if batch == [] {
    } else {
      assert batch == [batch[0]] + batch[1..];
      var c := batch[0];
      if c !in g.bindings || c in addresses {
        SendAllSafe(g, initial, addresses, batch[1..], log);
      } else if SendError(g, addresses, c).None? {
        SafeAppend(g, initial, log, Sent(c));
        KnownAppend(initial, addresses, log, Sent(c));
        SendAllSafe(g, initial, addresses, batch[1..], log + [Sent(c)]);
        var r := SendAll(g, addresses, batch[1..], log + [Sent(c)]);
        if r.Fine? { assert r.value[|log|] == Sent(c); }
      }
    }
  }

  ghost predicate AllSent(g: Module, initial: map<Name, Address>, addresses: map<Name, Address>,
                          batch: seq<Name>, log: seq<Step>, r: Outcome<seq<Step>>)
  {
    match r
    case Fine(sent) =>
      && Safe(g, initial, State(addresses, sent)) && log <= sent
      && forall c :: c in batch && c in g.bindings && c !in addresses ==> Sent(c) in sent
    case Thrown(_, s) => Safe(g, initial, s)
    case Hung(_, _) => false
  }

  lemma {:induction false} StartHooksSafe(g: Module, initial: map<Name, Address>, addresses: map<Name, Address>,
                                          batch: seq<Name>, log: seq<Step>)
    requires Safe(g, initial, State(addresses, log))
    ensures var started := StartHooks(g, addresses, batch, log);
            Safe(g, initial, State(addresses, started)) && log <= started
    decreases |batch|
  {
    if batch == [] {
    } else {
      var e := batch[0];
      if e in g.bindings || HookError(g, addresses, e).Some? {
        StartHooksSafe(g, initial, addresses, batch[1..], log);
      } else {
        SafeAppend(g, initial, log, Ran(e));
        KnownAppend(initial, addresses, log, Ran(e));
        StartHooksSafe(g, initial, addresses, batch[1..], log + [Ran(e)]);
      }
    }
  }

  lemma {:induction false} ConfirmAllAddresses(g: Module, receipt: Name -> Address, batch: seq<Name>, s: State)
    ensures Confirms(g, receipt, batch, s, ConfirmAll(g, receipt, batch, s))
    decreases |batch|
  {
    if batch == [] {
    } else {
      assert batch == [batch[0]] + batch[1..];
      var c := batch[0];
      if c !in g.bindings || (c in s.addresses && !g.bindings[c].deployFn) {
        ConfirmAllAddresses(g, receipt, batch[1..], s);
      } else if !g.bindings[c].deployFn {
        ConfirmAllAddresses(g, receipt, batch[1..],
                            State(s.addresses[c := receipt(c)], s.log + [Confirmed(c, receipt(c))]));
      }
    }
  }

  /** Confirming stops only at a deploy function; it adds the addresses of the receipts,
      in the end those of all contracts of the batch. */
  ghost predicate Confirms(g: Module, receipt: Name -> Address, batch: seq<Name>, s: State, r: Outcome<State>) {
    && AddsReceipts(g, receipt, batch, s.addresses, Final(r).addresses)
    && match r
       case Fine(s') => forall c :: c in batch && c in g.bindings ==> c in s'.addresses && !g.bindings[c].deployFn
       case Thrown(error, _) =>
         error.CustomDeploy? && error.contract in batch && error.contract in g.bindings
         && g.bindings[error.contract].deployFn
       case Hung(_, _) => false
  }

  ghost predicate AddsReceipts(g: Module, receipt: Name -> Address, batch: seq<Name>, known: map<Name, Address>,
                               addresses: map<Name, Address>)
  {
    && (forall c :: c in known ==> c in addresses)
    && (forall c :: c in addresses ==>
          if c in known then addresses[c] == known[c] else c in batch && c in g.bindings && addresses[c] == receipt(c))
  }

  lemma {:induction false} ConfirmAllSafe(g: Module, initial: map<Name, Address>, receipt: Name -> Address,
                                          batch: seq<Name>, s: State)
    requires Safe(g, initial, s)
    requires forall c :: c in batch && c in g.bindings && c !in s.addresses ==> Sent(c) in s.log
    ensures Safe(g, initial, Final(ConfirmAll(g, receipt, batch, s)))
    decreases |batch|
  {
    if batch == [] {
    } else {
      assert batch == [batch[0]] + batch[1..];
      var c := batch[0];
      if c !in g.bindings || (c in s.addresses && !g.bindings[c].deployFn) {
        ConfirmAllSafe(g, initial, receipt, batch[1..], s);
      } else if !g.bindings[c].deployFn {
        var step := Confirmed(c, receipt(c));
        SafeAppend(g, initial, s.log, step);
        KnownAppend(initial, s.addresses, s.log, step);
        ConfirmAllSafe(g, initial, receipt, batch[1..], State(s.addresses[c := receipt(c)], s.log + [step]));
      }
    }
  }

  lemma ExecuteBatchSafe(g: Module, initial: map<Name, Address>, receipt: Name -> Address, batch: seq<Name>, s: State)
    requires Safe(g, initial, s)
    ensures Safe(g, initial, Final(ExecuteBatch(g, receipt, batch, s)))
  {
    if batch == [] { return; }
    SendAllSafe(g, initial, s.addresses, batch, s.log);
    var r1 := SendAll(g, s.addresses, batch, s.log);
    if r1.Fine? {
      StartHooksSafe(g, initial, s.addresses, batch, r1.value);
      var log2 := StartHooks(g, s.addresses, batch, r1.value);
      PrefixKeepsSent(r1.value, log2);
      ConfirmAllSafe(g, initial, receipt, batch, State(s.addresses, log2));
    }
  }

  lemma PrefixKeepsSent(log: seq<Step>, log': seq<Step>)
    requires log <= log'
    ensures forall step :: step in log ==> step in log'
  {
    forall step | step in log ensures step in log' {
      var i :| 0 <= i < |log| && log[i] == step;
      assert log'[i] == step;
    }
  }

  /** Every run is safe in all it does, to its end or up to the error that stops it,
      whatever the batches and the known addresses. */
  lemma {:induction false} RunIsSafe(g: Module, initial: map<Name, Address>, receipt: Name -> Address,
                                     batches: seq<seq<Name>>, s: State)
    requires Safe(g, initial, s)
    ensures Safe(g, initial, Final(ExecuteBatches(g, receipt, batches, s)))
    decreases |batches|
  {
    if batches == [] {
    } else {
      ExecuteBatchSafe(g, initial, receipt, batches[0], s);
      var r := ExecuteBatch(g, receipt, batches[0], s);
      if r.Fine? { RunIsSafe(g, initial, receipt, batches[1..], r.value); }
    }
  }

  /** The contracts that have addresses before batch `k` runs. */
  ghost predicate DeployedBefore(g: Module, plan: Plan, initial: map<Name, Address>, k: nat, n: Name) {
    n in initial || (n in g.bindings && n in plan.batchOf && plan.batchOf[n].At? && plan.batchOf[n].n < k)
  }

  ghost predicate Reached(g: Module, plan: Plan, initial: map<Name, Address>, k: nat, s: State) {
    forall n :: n in s.addresses <==> DeployedBefore(g, plan, initial, k, n)
  }

  /** `n` is a contract that has an address when the batch of `x` runs. */
  ghost predicate ReadyFor(g: Module, plan: Plan, initial: map<Name, Address>, n: Name, x: Name) {
    n in g.bindings && (n in initial || Before(plan.batchOf, n, x))
  }

  /** Every library `c` links has an address by then. */
  ghost predicate LinksReady(g: Module, plan: Plan, initial: map<Name, Address>, c: Name)
    requires c in g.bindings
  {
    forall l :: l in Links(g.bindings[c]) ==> ReadyFor(g, plan, initial, l, c)
  }

  /** An object named `n` can be encoded when the batch of `c` runs. */
  ghost predicate ArgReady(g: Module, plan: Plan, initial: map<Name, Address>, n: Name, c: Name) {
    ReadyFor(g, plan, initial, n, c) && !g.bindings[n].deployFn
  }

  ghost predicate ArgsReady(g: Module, plan: Plan, initial: map<Name, Address>, c: Name)
    requires c in g.bindings
  {
    forall n :: n in ArgNames(g.bindings[c].args) ==> ArgReady(g, plan, initial, n, c)
  }

  /** The contract can be sent when its batch runs. */
  ghost predicate Sendable(g: Module, plan: Plan, initial: map<Name, Address>, c: Name)
    requires c in g.bindings
  {
    !g.bindings[c].deployFn && ArgsReady(g, plan, initial, c) && LinksReady(g, plan, initial, c)
  }

  /** The hook finds its contracts when its batch runs. */
  ghost predicate HookReady(g: Module, plan: Plan, initial: map<Name, Address>, e: Name) {
    e in g.events && IsAfter(g.events[e]) ==> forall n :: n in g.events[e].deps ==> ReadyFor(g, plan, initial, n, e)
  }

  /** Whom a failure to send is about. */
  ghost predicate FailsFor(g: Module, addresses: map<Name, Address>, batch: seq<Name>, error: Failure) {
    exists c :: c in batch && c in g.bindings && c !in addresses && SendError(g, addresses, c) == Some(error)
  }

  lemma {:induction false} SendAllSucceeds(g: Module, addresses: map<Name, Address>, batch: seq<Name>, log: seq<Step>)
    ensures var r := SendAll(g, addresses, batch, log);
            && !r.Hung?
            && (r.Fine? <==> forall c :: c in batch && c in g.bindings && c !in addresses ==>
                  SendError(g, addresses, c).None?)
            && (r.Thrown? ==> FailsFor(g, addresses, batch, r.error))
    decreases |batch|
  {
    if batch == [] {
    } else {
      assert batch == [batch[0]] + batch[1..];
      var c := batch[0];
      if c !in g.bindings || c in addresses {
        SendAllSucceeds(g, addresses, batch[1..], log);
      } else if SendError(g, addresses, c).None? {
        SendAllSucceeds(g, addresses, batch[1..], log + [Sent(c)]);
      }
    }
  }

  lemma {:induction false} HooksSucceed(g: Module, addresses: map<Name, Address>, batch: seq<Name>)
    ensures var r := FirstHookError(g, addresses, batch);
            && (r.None? <==> forall e :: e in batch && e !in g.bindings ==> HookError(g, addresses, e).None?)
            && (r.Some? ==> exists e :: e in batch && e !in g.bindings && HookError(g, addresses, e) == r)
  {
    if batch == [] {
    } else {
      assert batch == [batch[0]] + batch[1..];
      HooksSucceed(g, addresses, batch[1..]);
    }
  }

  /** What each error says about the plan. */
  ghost predicate Accounted(g: Module, plan: Plan, initial: map<Name, Address>, error: Failure) {
    match error
    case CustomDeploy(c) => Batched(g, plan, c) && g.bindings[c].deployFn
    case NoTransaction(c, n) =>
      Batched(g, plan, c) && n in ArgNames(g.bindings[c].args) && (n !in g.bindings || g.bindings[n].deployFn)
    case NoContractAddress(c, n) =>
      Batched(g, plan, c) && n in ArgNames(g.bindings[c].args) && n in g.bindings && !ReadyFor(g, plan, initial, n, c)
    case LibraryNotDeployed(c, l) =>
      Batched(g, plan, c) && l in Links(g.bindings[c]) && !ReadyFor(g, plan, initial, l, c)
    case NotYetDeployed(e, n) => BatchedHook(g, plan, e) && n in g.events[e].deps && !ReadyFor(g, plan, initial, n, e)
    case NoBatch => !NoHoles(plan)
  }

  ghost predicate Batched(g: Module, plan: Plan, c: Name) {
    c in g.bindings && c in plan.batchOf && plan.batchOf[c].At?
  }

  ghost predicate BatchedHook(g: Module, plan: Plan, e: Name) {
    e !in g.bindings && e in g.events && IsAfter(g.events[e]) && e in plan.batchOf && plan.batchOf[e].At?
  }

  lemma AddressIffReady(g: Module, plan: Plan, initial: map<Name, Address>, k: nat, s: State, n: Name, x: Name)
    requires Reached(g, plan, initial, k, s) && x in plan.batchOf && plan.batchOf[x] == At(k)
    ensures HasAddress(g, s.addresses, n) <==> ReadyFor(g, plan, initial, n, x)
  {
    assert n in s.addresses <==> DeployedBefore(g, plan, initial, k, n);
  }

  /** In batch `k` a contract fails to be sent exactly when it is not sendable, and the
      error says why. */
  lemma SendErrorIff(g: Module, plan: Plan, initial: map<Name, Address>, k: nat, s: State, c: Name)
    requires Reached(g, plan, initial, k, s) && c in g.bindings && c in plan.batchOf && plan.batchOf[c] == At(k)
    ensures SendError(g, s.addresses, c).None? <==> Sendable(g, plan, initial, c)
    ensures var error := SendError(g, s.addresses, c); error.Some? ==> Accounted(g, plan, initial, error.value)
  {
    forall n ensures HasAddress(g, s.addresses, n) <==> ReadyFor(g, plan, initial, n, c) {
      AddressIffReady(g, plan, initial, k, s, n, c);
    }
    ArgErrorIff(g, plan, initial, s, c);
  }

  lemma ArgErrorIff(g: Module, plan: Plan, initial: map<Name, Address>, s: State, c: Name)
    requires c in g.bindings && c in plan.batchOf && plan.batchOf[c].At?
    requires forall n :: HasAddress(g, s.addresses, n) <==> ReadyFor(g, plan, initial, n, c)
    ensures var r := ArgError(g, s.addresses, c, g.bindings[c].args);
            && (r.None? <==> ArgsReady(g, plan, initial, c))
            && (r.Some? ==> Accounted(g, plan, initial, r.value))
  {
    assert forall n :: ArgGiven(g, s.addresses, n) <==> ArgReady(g, plan, initial, n, c);
  }

  lemma HookErrorIff(g: Module, plan: Plan, initial: map<Name, Address>, k: nat, s: State, e: Name)
    requires Reached(g, plan, initial, k, s) && e !in g.bindings
    requires e in g.events ==> e in plan.batchOf && plan.batchOf[e] == At(k)
    ensures HookError(g, s.addresses, e).None? <==> HookReady(g, plan, initial, e)
    ensures var error := HookError(g, s.addresses, e); error.Some? ==> Accounted(g, plan, initial, error.value)
  {
    if e in g.events {
      forall n ensures HasAddress(g, s.addresses, n) <==> ReadyFor(g, plan, initial, n, e) {
        AddressIffReady(g, plan, initial, k, s, n, e);
      }
    }
  }

  /** All contracts of batch `k` that still have to be sent can be. */
  ghost predicate BatchSendable(g: Module, plan: Plan, initial: map<Name, Address>, k: nat)
    requires k < |plan.batches|
  {
    forall c :: c in plan.batches[k] && c in g.bindings && c !in initial ==> Sendable(g, plan, initial, c)
  }

  ghost predicate BatchHooksReady(g: Module, plan: Plan, initial: map<Name, Address>, k: nat)
    requires k < |plan.batches|
  {
    forall e :: e in plan.batches[k] && e !in g.bindings ==> HookReady(g, plan, initial, e)
  }

  /** No contract of batch `k` has a deploy function, deployed or not. */
  ghost predicate BatchPlain(g: Module, plan: Plan, k: nat)
    requires k < |plan.batches|
  {
    forall c :: c in plan.batches[k] && c in g.bindings ==> !g.bindings[c].deployFn
  }

  ghost predicate BatchReady(g: Module, plan: Plan, initial: map<Name, Address>, k: nat)
    requires k < |plan.batches|
  {
    && plan.batches[k] != [] && BatchPlain(g, plan, k)
    && BatchSendable(g, plan, initial, k) && BatchHooksReady(g, plan, initial, k)
  }

  /** A run or a batch of it ends fine, or by an error that is accounted for; it hangs
      only on a hook. */
  ghost predicate EndsAccounted(g: Module, plan: Plan, initial: map<Name, Address>, r: Outcome<State>) {
    match r
    case Fine(_) => true
    case Thrown(error, _) => Accounted(g, plan, initial, error) && !error.NotYetDeployed?
    case Hung(error, _) => Accounted(g, plan, initial, error) && error.NotYetDeployed?
  }

  lemma BatchRuns(g: Module, plan: Plan, initial: map<Name, Address>, receipt: Name -> Address, k: nat, s: State)
    requires Aligned(g, plan) && k < |plan.batches| && Reached(g, plan, initial, k, s)
    ensures ExecuteBatch(g, receipt, plan.batches[k], s).Fine? <==> BatchReady(g, plan, initial, k)
    ensures EndsAccounted(g, plan, initial, ExecuteBatch(g, receipt, plan.batches[k], s))
  {
    if plan.batches[k] == [] { return; }
    BatchSends(g, plan, initial, k, s);
    BatchHooks(g, plan, initial, k, s);
    var r := SendAll(g, s.addresses, plan.batches[k], s.log);
    if r.Fine? {
      var log2 := StartHooks(g, s.addresses, plan.batches[k], r.value);
      BatchConfirms(g, plan, initial, receipt, k, State(s.addresses, log2));
    }
    if BatchReady(g, plan, initial, k) { assert r.Fine?; }
  }

  lemma BatchConfirms(g: Module, plan: Plan, initial: map<Name, Address>, receipt: Name -> Address, k: nat, s: State)
    requires Aligned(g, plan) && k < |plan.batches|
    ensures var r := ConfirmAll(g, receipt, plan.batches[k], s);
            && (r.Fine? <==> BatchPlain(g, plan, k)) && EndsAccounted(g, plan, initial, r)
  {
    ConfirmAllAddresses(g, receipt, plan.batches[k], s);
    var r := ConfirmAll(g, receipt, plan.batches[k], s);
    if r.Thrown? { assert InBatch(plan, k, r.error.contract); }
  }

  lemma BatchHooks(g: Module, plan: Plan, initial: map<Name, Address>, k: nat, s: State)
    requires Aligned(g, plan) && k < |plan.batches| && Reached(g, plan, initial, k, s)
    ensures var r := FirstHookError(g, s.addresses, plan.batches[k]);
            && (r.None? <==> BatchHooksReady(g, plan, initial, k))
            && (r.Some? ==> Accounted(g, plan, initial, r.value) && r.value.NotYetDeployed?)
  {
    var batch := plan.batches[k];
    HooksSucceed(g, s.addresses, batch);
    forall e | e in batch && e !in g.bindings
      ensures HookError(g, s.addresses, e).None? <==> HookReady(g, plan, initial, e)
      ensures var error := HookError(g, s.addresses, e); error.Some? ==> Accounted(g, plan, initial, error.value)
    {
      assert InBatch(plan, k, e);
      HookErrorIff(g, plan, initial, k, s, e);
    }
  }

  lemma BatchSends(g: Module, plan: Plan, initial: map<Name, Address>, k: nat, s: State)
    requires Aligned(g, plan) && k < |plan.batches| && Reached(g, plan, initial, k, s)
    ensures var r := SendAll(g, s.addresses, plan.batches[k], s.log);
            && !r.Hung? && (r.Fine? <==> BatchSendable(g, plan, initial, k))
            && (r.Thrown? ==> Accounted(g, plan, initial, r.error) && !r.error.NotYetDeployed?)
  {
    var batch := plan.batches[k];
    SendAllSucceeds(g, s.addresses, batch, s.log);
    forall c | c in batch && c in g.bindings
      ensures c in s.addresses <==> c in initial
      ensures SendError(g, s.addresses, c).None? <==> Sendable(g, plan, initial, c)
      ensures var error := SendError(g, s.addresses, c); error.Some? ==> Accounted(g, plan, initial, error.value)
    {
      assert InBatch(plan, k, c);
      assert c in s.addresses <==> DeployedBefore(g, plan, initial, k, c);
      SendErrorIff(g, plan, initial, k, s, c);
    }
    var r := SendAll(g, s.addresses, batch, s.log);
    if r.Thrown? {
      var c :| c in batch && c in g.bindings && c !in s.addresses && SendError(g, s.addresses, c) == Some(r.error);
    }
  }

  lemma BatchReachesNext(g: Module, plan: Plan, initial: map<Name, Address>, receipt: Name -> Address, k: nat, s: State)
    requires Aligned(g, plan) && k < |plan.batches| && Reached(g, plan, initial, k, s)
    requires ExecuteBatch(g, receipt, plan.batches[k], s).Fine?
    ensures Reached(g, plan, initial, k + 1, ExecuteBatch(g, receipt, plan.batches[k], s).value)
  {
    var batch := plan.batches[k];
    var log2 := StartHooks(g, s.addresses, batch, SendAll(g, s.addresses, batch, s.log).value);
    ConfirmAllAddresses(g, receipt, batch, State(s.addresses, log2));
    NextReached(g, plan, initial, k, s, ExecuteBatch(g, receipt, batch, s).value);
  }

  lemma NextReached(g: Module, plan: Plan, initial: map<Name, Address>, k: nat, s: State, s': State)
    requires Aligned(g, plan) && k < |plan.batches| && Reached(g, plan, initial, k, s)
    requires forall c :: c in s'.addresses <==> c in s.addresses || (c in plan.batches[k] && c in g.bindings)
    ensures Reached(g, plan, initial, k + 1, s')
  {
    forall n ensures n in s'.addresses <==> DeployedBefore(g, plan, initial, k + 1, n) {
      assert n in s.addresses <==> DeployedBefore(g, plan, initial, k, n);
      DeployedNext(g, plan, initial, k, n);
    }
  }

  lemma DeployedNext(g: Module, plan: Plan, initial: map<Name, Address>, k: nat, n: Name)
    requires Aligned(g, plan) && k < |plan.batches|
    ensures DeployedBefore(g, plan, initial, k + 1, n) <==>
            DeployedBefore(g, plan, initial, k, n) || (n in plan.batches[k] && n in g.bindings)
  {
    assert InBatch(plan, k, n) <==> n in plan.batches[k];
  }

  lemma {:induction false} RunFrom(g: Module, plan: Plan, initial: map<Name, Address>, receipt: Name -> Address, k: nat,
                                   s: State)
    requires Aligned(g, plan) && k <= |plan.batches| && Reached(g, plan, initial, k, s)
    ensures var r := ExecuteBatches(g, receipt, plan.batches[k..], s);
            && (r.Fine? <==> forall j :: k <= j < |plan.batches| ==> BatchReady(g, plan, initial, j))
            && (r.Fine? ==> Reached(g, plan, initial, |plan.batches|, r.value))
            && EndsAccounted(g, plan, initial, r)
    decreases |plan.batches| - k
  {
    if k == |plan.batches| {
    } else {
      assert plan.batches[k..][1..] == plan.batches[k + 1..];
      BatchRuns(g, plan, initial, receipt, k, s);
      var r := ExecuteBatch(g, receipt, plan.batches[k], s);
      if r.Fine? {
        BatchReachesNext(g, plan, initial, receipt, k, s);
        RunFrom(g, plan, initial, receipt, k + 1, r.value);
      }
    }
  }

  /** No batch was left unassigned, no batched contract has a deploy function, and every
      one still to be sent can be sent. */
  ghost predicate AllSendable(g: Module, plan: Plan, initial: map<Name, Address>) {
    && NoHoles(plan)
    && (forall c :: Batched(g, plan, c) ==> !g.bindings[c].deployFn)
    && (forall c :: Batched(g, plan, c) && c !in initial ==> Sendable(g, plan, initial, c))
  }

  /** Every batched hook finds its contracts. */
  ghost predicate AllHooksReady(g: Module, plan: Plan, initial: map<Name, Address>) {
    forall e :: e in plan.batchOf && plan.batchOf[e].At? && e !in g.bindings ==> HookReady(g, plan, initial, e)
  }

  /** A whole parallel run over any plan finishes exactly when no batch was left
      unassigned, no batched contract has a deploy function, every one still to be sent
      can be sent, and every batched hook finds its contracts.  Otherwise it throws, or hangs on a hook, for just that
      reason.  However it ends, all it did is safe; when it finishes every batched
      contract has an address. */
  lemma AnyRunFinishesIff(g: Module, plan: Plan, initial: map<Name, Address>, receipt: Name -> Address)
    requires Aligned(g, plan)
    ensures var r := ExecuteBatches(g, receipt, plan.batches, State(initial, []));
            && (r.Fine? <==> AllSendable(g, plan, initial) && AllHooksReady(g, plan, initial))
            && EndsAccounted(g, plan, initial, r)
            && SafeLog(g, initial, Final(r).log)
            && (r.Fine? ==> forall c :: Batched(g, plan, c) ==> c in r.value.addresses)
  {
    var s := State(initial, []);
    assert Reached(g, plan, initial, 0, s);
    assert plan.batches[0..] == plan.batches;
    RunFrom(g, plan, initial, receipt, 0, s);
    RunIsSafe(g, initial, receipt, plan.batches, s);
    AllReadyIff(g, plan, initial);
    var r := ExecuteBatches(g, receipt, plan.batches, s);
    if r.Fine? { AllDeployed(g, plan, initial, r.value); }
  }

  lemma AllDeployed(g: Module, plan: Plan, initial: map<Name, Address>, s: State)
    requires Aligned(g, plan) && Reached(g, plan, initial, |plan.batches|, s)
    ensures forall c :: Batched(g, plan, c) ==> c in s.addresses
  {
    forall c | Batched(g, plan, c) ensures c in s.addresses {
      assert InBatch(plan, plan.batchOf[c].n, c);
      assert DeployedBefore(g, plan, initial, |plan.batches|, c);
    }
  }

  lemma AllReadyIff(g: Module, plan: Plan, initial: map<Name, Address>)
    requires Aligned(g, plan)
    ensures (forall j :: 0 <= j < |plan.batches| ==> BatchReady(g, plan, initial, j)) <==>
            AllSendable(g, plan, initial) && AllHooksReady(g, plan, initial)
  {
    if forall j :: 0 <= j < |plan.batches| ==> BatchReady(g, plan, initial, j) { BatchesReadyAll(g, plan, initial); }
    if AllSendable(g, plan, initial) && AllHooksReady(g, plan, initial) {
      forall j | 0 <= j < |plan.batches| ensures BatchReady(g, plan, initial, j) {
        forall x | x in plan.batches[j] && (x in g.bindings || x in g.events)
          ensures x in plan.batchOf && plan.batchOf[x] == At(j)
        {
          assert InBatch(plan, j, x);
        }
      }
    }
  }

  lemma BatchesReadyAll(g: Module, plan: Plan, initial: map<Name, Address>)
    requires Aligned(g, plan) && forall j :: 0 <= j < |plan.batches| ==> BatchReady(g, plan, initial, j)
    ensures AllSendable(g, plan, initial) && AllHooksReady(g, plan, initial)
  {
    forall k | 0 <= k < |plan.batches| ensures plan.batches[k] != [] { assert BatchReady(g, plan, initial, k); }
    forall x | x in plan.batchOf && plan.batchOf[x].At?
      ensures x in g.bindings ==> !g.bindings[x].deployFn && (x in initial || Sendable(g, plan, initial, x))
      ensures x !in g.bindings ==> HookReady(g, plan, initial, x)
    {
      var k := plan.batchOf[x].n;
      assert InBatch(plan, k, x);
      assert BatchReady(g, plan, initial, k);
    }
  }
}
