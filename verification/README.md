# A model of hardhat-ignition and the logic of its example projects

hardhat-ignition deploys a module: a script binds contracts and libraries, hangs hooks on
them, and the tool turns this graph into one execution order, the order into batches of
transactions, and the batches into a run against a chain. This project models that path
and proves what a module author relies on, together with the data structures and codecs
of the example projects that have properties of the same weight.

* **Graph and builder** (`Graph`, `Acyclicity`, `ModuleBuilder`). What a script can build,
  as values, and the builder object that builds it.
* **Resolver** (`Resolver`, `ResolveOrder`, `ModuleResolver`, `Termination`, `Completion`). The mutually
  recursive resolver, re-entered from hooks while contracts are in progress. It runs as a
  class whose loops write one shared module state; each method is proved to compute a
  function, and the functions are proved to keep the order at every moment.
* **Where it does not end** (`CallDepth`, `Overflow`, `BuiltModules`). The same resolver on
  any module at all, with a limit on how deep contract and event calls nest: which modules
  it ends on, and which overflow every stack.
* **Scheduler and run** (`Scheduler`, `TxExecutor`, `Schedule`, `ScheduleOrder`, `Alignment`,
  `ParallelRun`, `RunLog`, `ScheduledRun`, `Lost`, `Deployment`). The one-pass batching of the parallel mode, its correctness
  on resolver order, and whole runs with sent, executed and confirmed steps, up to the
  end-to-end theorems `Deployment.BuiltRunFinishesIff` and `Deployment.BuiltModuleDeploys`.
* **Merkle tree** (`Numerals`, `Merkle`, `MerkleRuns`, `MerklePaths`, `MerkleTree`). The
  incremental tree of the Tornado project against the recursive hash of padded leaves.
* **Locks and nonces** (`Mutex`, `KeyMutex`, `Nonce`). The promise-chained mutexes as state
  machines over all interleavings, and nonce allocation split at its await.
* **Ledger, set, codecs and linker** (`Dai`, `AddressSet`, `Note`, `Decimals`, `Linker`).

JavaScript objects used as maps are insertion-ordered: assigning an existing key keeps its
place. The module state is therefore the sequence of its distinct keys; the value of a key is
the binding or event of that name. Names are identifiers, and contracts, events and module
events have disjoint names. A constructor argument is a value, a contract binding, or an object
that merely has a name, of a contract of the module or not. `uint256` is a natural number below
2^256 with its wrap-around written out; addresses are natural numbers; signed and hashed
messages, provider counts, receipts and the hash functions of tree and notes are parameters. The
tree hash takes two inputs because the level is ignored by `modules/example-
projects/tornado_core/lib/MiMC.js:8-9`.

Six results say that the code does less than its shape suggests, each with an input and a
condition, which is exact except for the third:

* `Lost.NothingLostIff`: `executor.ts:472` reads the batch number of the contract where it
  means that of the argument. As soon as a library takes a contract that is no library, some
  library has the batch number NaN, is in no batch and, by `Lost.NeverDeployed`, gets no
  address; `Deployment.LibraryOfContractIsLost` is a script it happens to.
* `Deployment.NamedArgumentThrows`: an argument object without bytecode is passed over by the
  scheduler (`executor.ts:448`) but looked up by its name when its user is sent
  (`executor.ts:699-719`), so a script binding a contract `a` and then one that takes an object
  named `a` puts both into one batch and throws. By `Deployment.BuiltRunFinishesIff` such
  objects are fine exactly when they name contracts with a shorter chain of arguments or with
  an address from before.
* `ResolveOrder.UsedContractCanFollow`: `resolveSingleEvent` places an event without the check
  that the contracts behind the events it uses are placed (`module-resolver.ts:71-81`), so a
  used before-hook of a contract in progress lets the event stand before that contract.
  `ResolveOrder.BehindStandsBefore` gives a condition on the module under which it does not.
* `BuiltModules.GroupedBeforeHookLoops`: a grouped before-hook can make the resolver call
  itself beyond any depth. `BuiltModules.BuiltModuleEndsIff` says for which modules it does.
* `MerkleRuns.IncrementalEqualsBatchIff`: nothing stops inserts beyond the capacity of the
  tree, and there incremental and batch-built trees always differ.
* `Decimals.DecimalRoundTripIff` and `Decimals.ZeroDecimalsAddFraction`: the default cut at
  seven characters loses digits silently, and with zero decimals a fraction is misread.

## Model

Main results first within each part; the functions named in the third column are the
specifications the methods refine.

| member | source | states |
|---|---|---|
| `ModuleBuilder.ModuleBuilder.Bind` | modules/ignition-core/src/interfaces/hardhat-ignition.ts:1549-1570 | A name still free is bound at the end of the creation order, with whatever arguments are given, without hooks, links or deploy function; a taken one is refused and nothing changes. |
| `ModuleBuilder.ModuleBuilder.Library` | modules/ignition-core/src/interfaces/hardhat-ignition.ts:1580-1585 | As for a contract, with the library mark: exact new order and bindings, whatever the arguments, and after a refusal the old ones. |
| `ModuleBuilder.ModuleBuilder.Contract` | modules/ignition-core/src/interfaces/hardhat-ignition.ts:1549-1570 | As `Bind`, the binding name being the Solidity contract, without the library mark: exact new order and bindings, whatever the arguments, and after a refusal the old ones. |
| `ModuleBuilder.ModuleBuilder.BindTemplate` | modules/ignition-core/src/interfaces/hardhat-ignition.ts:1618-1651 | A taken name is refused before an unknown template is, and nothing changes; otherwise exactly the new binding is added at the end, of the Solidity contract of the template, whatever the arguments. |
| `ModuleBuilder.ModuleBuilder.ContractTemplate` | modules/ignition-core/src/interfaces/hardhat-ignition.ts:1605-1609 | The template is known from then on; nothing else changes. |
| `ModuleBuilder.ModuleBuilder.GroupHook` | modules/ignition-core/src/interfaces/hardhat-ignition.ts:278-520 | A hook on a group: the event records the group split into contracts and events, and exactly the contracts of the group gain the hook, once each, at the end of the list of its kind; refused exactly when the event name is taken. Contracts only ever list events that depend on them. |
| `ModuleBuilder.GroupSplitsInOrder` | modules/ignition-core/src/interfaces/hardhat-ignition.ts:278-520 | A group is split into its contracts and its events in order, whatever it is put together from. |
| `ModuleBuilder.ModuleBuilder.Attach` | modules/ignition-core/src/interfaces/hardhat-ignition.ts:370-379 | The loop over the group: a contract listed twice gains the hook once, contracts outside the group and all other lists are untouched. |
| `ModuleBuilder.ModuleBuilder.ContractHook` | modules/ignition-core/src/interfaces/hardhat-ignition.ts:867-893 | A hook on one contract: refused exactly when the event name is taken (a contract can only list events that exist); otherwise exact new events and hook lists. |
| `ModuleBuilder.ModuleBuilder.AddEvent` | modules/ignition-core/src/interfaces/hardhat-ignition.ts:1695-1702 | A taken event name is refused and nothing changes; otherwise the event is added last. |
| `ModuleBuilder.ModuleBuilder.HandleModule` | modules/ignition-core/src/interfaces/hardhat-ignition.ts:2115-2135 | In creation order every binding gets the links of its Solidity contract, up to the first whose contract has no artifacts, and that contract is reported. |
| `ModuleBuilder.BuiltModuleResolves` | modules/ignition-core/src/interfaces/hardhat-ignition.ts:523-565 | Whatever calls built it: a module of contract, library and template bindings and hooks, whose argument objects name only contracts bound earlier or none at all, with no grouped before-hook, with linked contracts that take no contracts and no circle of links, always meets the termination condition, and it resolves without error if no event merely uses another. |
| `ModuleBuilder.BindReachesBack` | modules/ignition-core/src/interfaces/hardhat-ignition.ts:1549-1570 | Binding keeps all arguments of a module reaching back if its own do and the new name is not one that an earlier argument object already has. |
| `Termination.RankableIffAcyclic` | modules/ignition-core/src/services/modules/module-resolver.ts:35-422 | The measure (contracts not yet placed, rank) under which the re-entrant recursion is shown to end exists exactly when neither "contract must precede contract" nor "event precedes event" has a cycle. |
| `CallDepth.RankableEnds` | modules/ignition-core/src/services/modules/module-resolver.ts:35-422 | Where the measure exists, the resolver limited to some call depth is the resolver, and deeper limits change nothing. |
| `Overflow.TrapOverflows` | modules/ignition-core/src/services/modules/module-resolver.ts:179-422 | With contracts that each need another of them, directly or behind a before-hook, the whole resolution overflows every call depth. |
| `Overflow.ContractTrapped` | modules/ignition-core/src/services/modules/module-resolver.ts:179-259 | At any call depth and from any state without them: a call for one of these contracts overflows, and a call for any other contract overflows or ends without having placed one of them or of their hooks. |
| `Overflow.EndsIffAcyclic` | modules/ignition-core/src/services/modules/module-resolver.ts:35-422 | On any module with every name bound, every contract compiled, no event merely used and no circle of events, resolution ends within some call depth if and only if contracts need not precede each other in a circle; otherwise it overflows them all. |
| `BuiltModules.BuiltModuleEndsIff` | modules/ignition-core/src/interfaces/hardhat-ignition.ts:523-565 | The same for every compiled module a script can build, grouped before-hooks and any argument objects included, if no event merely uses another. |
| `BuiltModules.GroupedBeforeHookLoops` | modules/ignition-core/src/services/modules/module-resolver.ts:272-295 | A before-hook grouping a contract with an after-hook of that same contract is accepted by the builder, and resolving it overflows every call depth. |
| `Termination.CycleHasNoOrder` | modules/ignition-core/src/services/modules/module-resolver.ts:179-259 | Why acyclicity cannot be dropped: no state in which everything stands after its needs contains a member of a cycle of needs. |
| `ModuleResolver.ModuleResolver.ResolveContractsAndEvents` | modules/ignition-core/src/services/modules/module-resolver.ts:179-259 | Terminates under the lexicographic measure although hooks re-enter it, and leaves the state, and throws the error if any, of the specification function of the step. |
| `ModuleResolver.ModuleResolver.ResolveArgs` | modules/ignition-core/src/services/modules/module-resolver.ts:190-206 | The loop over constructor arguments, skipping values and names bound to no contract. |
| `Graph.ArgNamesInOrder` | modules/ignition-core/src/services/modules/module-resolver.ts:190-197 | The names of arguments, with and without bytecode, in the order of the arguments; values have none. |
| `Graph.BoundInOrder` | modules/ignition-core/src/services/modules/module-resolver.ts:194-197 | Names bound to no contract are passed over; the others keep their order. |
| `ModuleResolver.ModuleResolver.ResolveLinksOf` | modules/ignition-core/src/services/modules/module-resolver.ts:190-246 | Arguments, then the check that the contract was compiled, then linked libraries, then deployFn dependencies, in this order. |
| `ModuleResolver.ModuleResolver.ResolveBeforeDeployEvents` | modules/ignition-core/src/services/modules/module-resolver.ts:261-329 | beforeCompile, afterCompile and beforeDeploy hooks in turn, each placed after the contracts behind its event dependencies; an event used from elsewhere must be satisfied already. |
| `ModuleResolver.ModuleResolver.ResolveAfterDeployEvents` | modules/ignition-core/src/services/modules/module-resolver.ts:331-344 | afterDeploy then onChange hooks in turn. |
| `ModuleResolver.ModuleResolver.AddAfterEvent` | modules/ignition-core/src/services/modules/module-resolver.ts:346-422 | One after-hook: its contracts, its event dependencies with the consistency check after each, its usages, the usage check, and then its own entry. |
| `ModuleResolver.ModuleResolver.ResolveSingleEvent` | modules/ignition-core/src/services/modules/module-resolver.ts:35-93 | An event met as a dependency of another is resolved with everything it needs before it is placed. |
| `ModuleResolver.ModuleResolver.HandleModuleEvents` | modules/ignition-core/src/services/modules/module-resolver.ts:95-111 | Module events are entered in order, an existing key keeping its position. |
| `ModuleResolver.ModuleResolver.Run` | modules/ignition-core/src/services/modules/module-resolver.ts:610-645 | The resolution phase ends in an ordered state, also after an error; without one every contract is in it, and the error is never "Event was not been resolved". |
| `Resolver.ContractSound` | modules/ignition-core/src/services/modules/module-resolver.ts:179-259 | At every moment of the recursion, however it was re-entered, a completed step only appends, only compiled contracts and events it can reach, keeps every element behind all its needs, and leaves no newly placed contract without its afterDeploy and its onChange hooks; a step that throws leaves an ordered extension too. |
| `Resolver.LinksSound` | modules/ignition-core/src/services/modules/module-resolver.ts:190-246 | After the three loops every bound argument, library and deployFn dependency of the contract is placed. |
| `Resolver.BeforeHooksSound` | modules/ignition-core/src/services/modules/module-resolver.ts:261-329 | Placing before-hooks keeps the invariant and places them all. |
| `Resolver.EventSound` | modules/ignition-core/src/services/modules/module-resolver.ts:346-422 | Placing an after-hook keeps the invariant: it stands after its dependencies, usages and event dependencies. |
| `Resolver.SingleSound` | modules/ignition-core/src/services/modules/module-resolver.ts:35-93 | The same for an event resolved on its own, its used events included. |
| `Resolver.EventDepsSound` | modules/ignition-core/src/services/modules/module-resolver.ts:367-387 | After each event dependency is resolved it is in the state, so the throw of the consistency check is unreachable. |
| `Resolver.ResolvedState` | modules/ignition-core/src/services/modules/module-resolver.ts:610-645 | The resolved state: distinct keys, everything after its needs, onStart events first; every contract, all compiled, with each of its beforeCompile, afterCompile and beforeDeploy hooks before it and each of its afterDeploy and onChange hooks in the state; every module event, and nothing foreign. |
| `Resolver.UsageErrorIff` | modules/ignition-core/src/services/modules/module-resolver.ts:297-317 | The usage check passes exactly when every contract behind every used event is placed (and, for after-hooks, bound); with all names known the error is always that the used event is not present. |
| `Resolver.SingleHolds` | modules/ignition-core/src/services/modules/module-resolver.ts:35-93 | An event resolved on its own leaves its dependencies, event dependencies, usages and event usages all in the state. |
| `Resolver.ModuleEventsInTurn` | modules/ignition-core/src/services/modules/module-resolver.ts:610-645 | Module events keep their order: those of onStart are the beginning of the state, those of onSuccess and then onCompletion its end, when no two share a name. |
| `ResolveOrder.BeforeInTurn` | modules/ignition-core/src/services/modules/module-resolver.ts:190-250 | A contract is resolved in turn: its arguments, its libraries, the dependencies of its deploy function, its beforeCompile, afterCompile and beforeDeploy hooks, each list in order. Whatever a step places out of reach of the first of these stands behind them. |
| `ResolveOrder.EntryInTurn` | modules/ignition-core/src/services/modules/module-resolver.ts:248-252 | The entry of the contract is written when all of these are placed, and with nothing else but what they reach. |
| `ResolveOrder.AfterInTurn` | modules/ignition-core/src/services/modules/module-resolver.ts:331-344 | Its afterDeploy hooks and then its onChange hooks follow, each list in order, in the same sense. |
| `ResolveOrder.BehindStandsBefore` | modules/ignition-core/src/services/modules/module-resolver.ts:261-422 | In a resolved module a hook stands behind the contracts of every event it depends on or uses if that event is an afterDeploy or onChange hook, or if no event names the hook and it looks behind what it names. |
| `ResolveOrder.UsedContractCanFollow` | modules/ignition-core/src/services/modules/module-resolver.ts:71-81 | Without that condition it need not: a module of two contracts and four hooks, for any names, resolves without error and an event stands before the contract behind the event it uses. |
| `Resolver.ClosingEventsComeLast` | modules/ignition-core/src/services/modules/module-resolver.ts:637-645 | Events of onSuccess and onCompletion come after every contract. |
| `Resolver.PlacedNeeds` | modules/ignition-core/src/services/modules/module-resolver.ts:179-422 | Whatever is placed in an ordered state, all it needs is placed with it. |
| `Completion.ClosedModuleResolves` | modules/ignition-core/src/services/modules/module-resolver.ts:179-422 | An acyclic module with everything compiled, no dangling reference and no event merely used is never refused. |
| `Completion.ModuleResolvesIff` | modules/ignition-core/src/services/modules/module-resolver.ts:179-422 | An acyclic module without dangling names is refused only for a contract that is not compiled or for a used event; if no event merely uses another it is resolved exactly when every contract is compiled. |
| `TxExecutor.TxExecutor.ExecuteParallel` | modules/ignition-core/src/services/ethereum/transactions/executor.ts:260-307 | Both passes compute the specified plan: libraries first, then every element of the state, starting at batch 1 exactly when there is a library. |
| `TxExecutor.TxExecutor.HandleContractElement` | modules/ignition-core/src/services/ethereum/transactions/executor.ts:434-483 | The contract branch with its recursion, including the faulty one: after an unbatched argument the code reads the number of the element itself, which gives NaN. |
| `TxExecutor.TxExecutor.HandleAfterDeployEvents` | modules/ignition-core/src/services/modules/events/batcher.ts:169-224 | The deepest of what the hook waits for, plus one; refused for the first name without a batch, with the error of its kind. `ScheduleOrder.HookBatchIsExact` says what that makes of the plan. |
| `TxExecutor.TxExecutor.HandleBeforeDeployEvents` | modules/ignition-core/src/services/modules/events/batcher.ts:97-167 | Between the deepest usage and the shallowest dependency known so far; refused when these cross. `Schedule.BeforeEventBatch` says where exactly. |
| `TxExecutor.TxExecutor.HandleElementOf` | modules/ignition-core/src/services/ethereum/transactions/executor.ts:441-497 | Dispatch of one element of the state: contract, module event into batch 0, or hook by its type. |
| `Schedule.ScheduleIsGood` | modules/ignition-core/src/services/ethereum/transactions/executor.ts:260-311 | On a state in resolver order every refusal has one of three reasons (an unbound argument, a used event not placed earlier, a before-hook whose usages and dependencies cross in the plan so far), never a missing dependency; a plan that is not refused batches every element once, gives contracts their level, makes hooks wait, and can leave only the first batch unassigned. |
| `ScheduleOrder.ContractsFollowArguments` | modules/ignition-core/src/services/ethereum/transactions/executor.ts:447-473 | Each contract is strictly later than each contract binding among its constructor arguments; objects without bytecode do not delay it. |
| `ScheduleOrder.ContractsFollowLibraries` | modules/ignition-core/src/services/ethereum/transactions/executor.ts:269-307 | Each other contract is strictly later than every library that takes no contracts. |
| `ScheduleOrder.HooksFollowWaits` | modules/ignition-core/src/services/modules/events/batcher.ts:169-224 | Each afterDeploy or onChange hook is strictly later than all its dependencies, usages, event dependencies and event usages. |
| `ScheduleOrder.HookBatchIsExact` | modules/ignition-core/src/services/modules/events/batcher.ts:169-224 | In every plan an afterDeploy or onChange hook is later than all it waits for that has a number, and no later than that takes: it is in batch 1, or one past something it waits for. |
| `ScheduleOrder.HooksAreEarliest` | modules/ignition-core/src/services/modules/events/batcher.ts:169-224 | No assignment of batches in which contracts follow their arguments and libraries, hooks come after the first batch and follow what they wait for, and before-hooks come no earlier than in the plan, puts any after-hook earlier. |
| `ScheduleOrder.ModuleEventsAreFirst` | modules/ignition-core/src/services/modules/events/batcher.ts:60-71 | Module events are in the first batch. |
| `ScheduleOrder.NumbersStay` | modules/ignition-core/src/services/ethereum/transactions/executor.ts:265-307 | What the schedule has made of a beginning of the state stays: batch numbers do not change, and batches grow at their ends only. |
| `ScheduleOrder.LateUsageIsRefused` | modules/ignition-core/src/services/modules/events/batcher.ts:207-215 | A used event that is placed after its user, or never, is always refused. |
| `Schedule.BeforeEventRefusedIff` | modules/ignition-core/src/services/modules/events/batcher.ts:97-150 | A before-hook is refused exactly when something it uses is batched after something it depends on. |
| `Schedule.BeforeEventBatch` | modules/ignition-core/src/services/modules/events/batcher.ts:152-166 | A before-hook that is not refused goes into the batch after the deepest of what it uses, or the batch before the shallowest of what it depends on, at least the first, if that is smaller. |
| `ScheduleOrder.BeforeHookBatch` | modules/ignition-core/src/services/modules/events/batcher.ts:152-166 | In the final plan a before-hook has just this batch, for the deepest and the shallowest of when it was met. |
| `ScheduleOrder.BeforeHookRefusedIff` | modules/ignition-core/src/services/modules/events/batcher.ts:146-150 | In the course of a schedule the crossing of a before-hook is exactly when it is refused, and then it is the error of the whole schedule. |
| `ScheduleOrder.SchedulePartitions` | modules/ignition-core/src/services/ethereum/transactions/executor.ts:265-311 | Every element is in exactly one batch in exactly one place and nothing else is; only the first batch can be left unassigned, and it is not when a contract is scheduled or every after-hook waits for something. |
| `Deployment.ResolvedHasNoHoles` | modules/ignition-core/src/services/ethereum/transactions/executor.ts:319-321 | Scheduling what the resolver leaves assigns every batch, whatever the hooks wait for, so iterating over a batch never meets an index never assigned. |
| `ScheduleOrder.ScheduleIsEarliest` | modules/ignition-core/src/services/ethereum/transactions/executor.ts:287-307 | No valid assignment of batches puts any contract earlier. |
| `ScheduleOrder.BatchIsLongestChain` | modules/ignition-core/src/services/ethereum/transactions/executor.ts:447-480 | The batch number is the length of the longest chain of contract bindings as constructor arguments, shifted by one when libraries exist: a chain of that length exists and none is longer. |
| `Lost.NothingLostIff` | modules/ignition-core/src/services/ethereum/transactions/executor.ts:457-480 | A plan loses no element exactly when the contract arguments of every library are libraries; equally exactly then neither pass ever comes to an element that enters the branch for an argument without a batch; otherwise some library has the number NaN and is in no batch. When arguments are bound and hooks use nothing there always is a plan. |
| `Lost.ScheduleRunFinishesIff` | modules/ignition-core/src/services/ethereum/transactions/executor.ts:313-395 | The run of any plan, elements lost or not, finishes exactly when no batch was left unassigned, no batched contract has a deploy function, and every one still to be sent finds the objects it names and the libraries it links in earlier batches, and an address of before for each lost contract it takes, as must hooks for lost contracts they wait for. Otherwise it ends for one of these reasons; all it did by then is safe. |
| `Lost.NeverDeployed` | modules/ignition-core/src/services/ethereum/transactions/executor.ts:313-395 | An element in no batch has an address after a run, however it ends, only if it had one before. |
| `Lost.UnusedIsScheduled` | modules/ignition-core/src/services/ethereum/transactions/executor.ts:260-311 | With arguments bound and nothing used no schedule is refused, lost elements or not. |
| `Alignment.ScheduleIsAligned` | modules/ignition-core/src/services/ethereum/transactions/executor.ts:475-480 | In every plan, elements lost or not: what is lost has the number NaN, what has a number is in that batch and in no other, and it is later than each contract it takes, and each thing an after-hook waits for, that has a number itself. |
| `Deployment.LibraryOfContractIsLost` | modules/ignition-core/src/services/ethereum/transactions/executor.ts:465-480 | The failure is real, for any two names: a script binding a contract and then a library that takes it builds, resolves and schedules without error, and the library has no address after the run. |
| `Alignment.UnbatchedArgGivesNaN` | modules/ignition-core/src/services/ethereum/transactions/executor.ts:465-472 | Entering that branch makes the batch number of the contract NaN, whatever follows. |
| `Alignment.NumberAfterArgs` | modules/ignition-core/src/services/ethereum/transactions/executor.ts:457-473 | A contract that does get a number got all its argument contracts batched before, and a number above those of them that have one: where it started, or one past one of them. |
| `ParallelRun.Runner.ExecuteOne` | modules/ignition-core/src/services/ethereum/transactions/executor.ts:319-394 | One batch: an index never assigned throws; contracts without an address are sent in turn and the first error throws; all hooks are started, and if one fails the batch never ends; otherwise the receipts are written in turn, up to a contract with a deploy function, which has no transaction and throws. |
| `ParallelRun.Runner.SendContracts` | modules/ignition-core/src/services/ethereum/transactions/executor.ts:321-360 | The contracts of the batch that have no address are sent in turn, up to the first that has a deploy function or cannot be encoded: arguments in order, every object looked up by its name, then libraries. |
| `ParallelRun.Runner.RunHooks` | modules/ignition-core/src/services/ethereum/transactions/executor.ts:407-425 | Every hook of the batch is started, in order, whether or not another fails; the first failure is what the batch hangs on. `RunLog.BatchPhases` says which steps that adds. |
| `ParallelRun.Runner.Execute` | modules/ignition-core/src/services/ethereum/transactions/executor.ts:313-395 | All batches in turn, up to the first that throws or hangs, with the state reached by then. |
| `ParallelRun.RunIsSafe` | modules/ignition-core/src/services/ethereum/transactions/executor.ts:313-395 | Over a whole run of any batches, to its end or up to the error that stops it: nothing is sent before every object among its arguments, bytecode or not, is the name of a contract with an address and its libraries have addresses, no after-hook runs before its contracts have, nothing already deployed is sent, and nothing is confirmed that was not sent. |
| `RunLog.BatchPhases` | modules/ignition-core/src/services/ethereum/transactions/executor.ts:319-425 | A batch that ends fine sends its contracts without address, then runs every hook and module event of it, and only then writes the receipts, each in the order of the batch and once; a batch that hangs has sent the same, run exactly the hooks whose contracts have addresses, and written nothing. |
| `RunLog.RunTimes` | modules/ignition-core/src/services/ethereum/transactions/executor.ts:313-395 | Over a whole run of batches that share no element: every hook and module event in them has run exactly once, every contract without address has been sent once and confirmed once with its own receipt, and nothing else was done. |
| `RunLog.RunAddresses` | modules/ignition-core/src/services/ethereum/transactions/executor.ts:313-395 | After a run that finishes exactly the contracts of its batches have addresses besides those there were: the old ones, or those of their receipts. |
| `RunLog.SendsInOrder` | modules/ignition-core/src/services/ethereum/transactions/executor.ts:321-360 | Contracts are sent in the order of the batch, all of them, or those before one that cannot be. |
| `RunLog.SendErrorIsFirst` | modules/ignition-core/src/services/ethereum/transactions/executor.ts:628-763 | The error of sending is of the deploy function, else of the first argument that is missing, and only when none is of the first library that is; an argument of no contract, or of one with a deploy function, has no transaction, any other no address. |
| `RunLog.HookErrorIsFirst` | modules/ignition-core/src/services/ethereum/transactions/executor.ts:397-425 | A batch hangs on its first hook that misses a contract, and the error names the first contract it misses. |
| `ParallelRun.SendErrorIff` | modules/ignition-core/src/services/ethereum/transactions/executor.ts:684-763 | In a batch of any plan sending a contract fails exactly when it has a deploy function, or some object among its arguments names no contract with an address of before or an earlier batch and without deploy function, or some library has no such address; and the error names one such. |
| `ParallelRun.AnyRunFinishesIff` | modules/ignition-core/src/services/ethereum/transactions/executor.ts:313-395 | A run of any batches that agree with their batch numbers finishes exactly when no batch was left unassigned, no batched contract has a deploy function, each one still to be sent can be sent in its batch, and each hook finds its contracts; otherwise it throws or hangs for such a reason, and all it did is safe. |
| `ScheduledRun.ReadyIffLower` | modules/ignition-core/src/services/ethereum/transactions/executor.ts:447-480 | Which names have an address in time is known before the run: those with one from before and those of contracts with a shorter longest chain of arguments. |
| `ScheduledRun.HookHasNoError` | modules/ignition-core/src/services/ethereum/transactions/executor.ts:397-432 | In a schedule that lost nothing every after-hook finds all its contracts in earlier batches. |
| `ScheduledRun.RunFinishesIff` | modules/ignition-core/src/services/ethereum/transactions/executor.ts:313-395 | A scheduled run that lost nothing finishes exactly when no batch was left unassigned, no contract has a deploy function, and every contract still to be sent finds its libraries, and the contracts whose mere names it was given, deployed by an earlier batch; then every hook and module event of the state has run exactly once, every contract that had no address has been sent once and confirmed once, and it has the address of its receipt. Otherwise it throws for such a reason; "No contract address in dependency tree" only for an object with no more than a name, never for a contract binding, and no hook fails; all it did by then is safe. |
| `ScheduledRun.PlainRunFinishes` | modules/ignition-core/src/services/ethereum/transactions/executor.ts:313-395 | When only leaf libraries are linked, and only by contracts that are no libraries, the libraries drop out of the condition and "Library is not deployed" never occurs. |
| `Deployment.ResolvedRunFinishesIff` | modules/ignition-core/src/services/ethereum/transactions/executor.ts:313-395 | A run on what the resolver leaves finishes exactly when no contract has a deploy function and every one still to be sent finds its libraries and the contracts whose mere names it was given, and has then done everything once; the other errors are as in `RunFinishesIff`, and never a batch left unassigned. |
| `Deployment.BuiltModuleDeploys` | modules/ignition-core/src/services/ethereum/transactions/executor.ts:150-178 | End to end, from any sequence of builder calls of the plain kind, with values and contract bindings as arguments: the module resolves, is scheduled and deploys, safely at every step: every contract has the address of its receipt, and every hook in any of the five lists and every module event has run exactly once. |
| `Deployment.BuiltRunFinishesIff` | modules/ignition-core/src/services/ethereum/transactions/executor.ts:150-178 | The same with objects among the arguments that have no more than a name, of earlier contracts or of none: it resolves, is scheduled and its run is safe, and it finishes, completely, exactly when every object with no more than a name is that of a contract with an address from before or with a shorter longest chain of arguments; the only error is for such an object, that it is of no contract or of one without address. |
| `Deployment.NamedArgumentThrows` | modules/ignition-core/src/services/ethereum/transactions/executor.ts:684-719 | The failure is real, for any two names: a script binding a contract and then one that takes an object with its name builds, resolves and schedules without error, and the run throws "No contract address in dependency tree". |
| `Deployment.ResolvedIsInput` | modules/ignition-core/src/services/ethereum/transactions/executor.ts:260-311 | What the resolver produces is what the scheduler expects. |
| `MerkleTree.JsStorage.PutAll` | modules/example-projects/tornado_core/lib/Storage.js:30-34 | The writes of the list in order, later ones winning. |
| `MerkleTree.MerkleTree.constructor` | modules/example-projects/tornado_core/lib/MerkleTree.js:6-44 | Zero values of every level, and the storage of the batch builder over whatever the shared storage held. |
| `MerkleTree.MerkleTree.UpdateLeaf` | modules/example-projects/tornado_core/lib/MerkleTree.js:100-162 | Refused exactly for a new leaf as an update or an old one as an insert; otherwise exactly the writes of the walk. |
| `MerkleTree.MerkleTree.Update` | modules/example-projects/tornado_core/lib/MerkleTree.js:100-162 | Replaces one leaf: if the storage represented a list of leaves within capacity, it represents the list with that leaf replaced. |
| `MerkleTree.MerkleTree.Insert` | modules/example-projects/tornado_core/lib/MerkleTree.js:164-168 | Appends one leaf: below capacity the storage represents the longer list. |
| `MerkleTree.MerkleTree.PathOf` | modules/example-projects/tornado_core/lib/MerkleTree.js:60-98 | Root, element, siblings and direction bits of the index, as looked up. |
| `MerkleTree.MerkleTree.Root` | modules/example-projects/tornado_core/lib/MerkleTree.js:51-58 | The recursive hash of the zero-padded leaves. |
| `MerkleTree.MerkleTree.GetIndexByElement` | modules/example-projects/tornado_core/lib/MerkleTree.js:184-192 | The last leaf with that value, or none when there is none. |
| `Merkle.KeyInjective` | modules/example-projects/tornado_core/lib/MerkleTree.js:46-49 | Keys of different prefix, level and index never collide, prefixes that contain underscores and digits included. |
| `Merkle.LookupIsNode` | modules/example-projects/tornado_core/lib/MerkleTree.js:51-98 | Every lookup, also of an absent node, gives the recursive hash of the padded leaves below. |
| `Merkle.UpdateKeepsHolds` | modules/example-projects/tornado_core/lib/MerkleTree.js:100-162 | The walk along one path restores the whole invariant for the changed leaf and touches no foreign key. |
| `Merkle.BatchHolds` | modules/example-projects/tornado_core/lib/MerkleTree.js:22-43 | The batch builder stores exactly the nodes with leaves below them, with their recursive hashes. |
| `Merkle.HoldsUnique` | modules/example-projects/tornado_core/lib/MerkleTree.js:22-43 | The leaves determine the storage: same keys, same values. |
| `MerkleRuns.IncrementalEqualsBatchIff` | modules/example-projects/tornado_core/lib/MerkleTree.js:22-168 | Any sequence of inserts and updates on an empty tree leaves the very storage the batch builder leaves for the final leaves, exactly when these are at most 2^levels; beyond that the two always differ. |
| `MerkleRuns.RunHolds` | modules/example-projects/tornado_core/lib/MerkleTree.js:100-168 | Within capacity every run keeps the invariant, the leaf count, and all keys of other trees. |
| `MerkleRuns.OtherTreesKept` | modules/example-projects/tornado_core/lib/MerkleTree.js:46-49 | An update of one tree leaves a tree with another prefix in the same storage intact. |
| `MerklePaths.PathFoldsToRoot` | modules/example-projects/tornado_core/lib/MerkleTree.js:60-98 | For every index of the tree, inserted or not, folding the element with the siblings in the given directions gives the root. |
| `MerklePaths.PathIndexIsBinary` | modules/example-projects/tornado_core/lib/MerkleTree.js:170-182 | The direction bits are the binary form of the index. |
| `MerklePaths.RootDeterminesLeaves` | modules/example-projects/tornado_core/lib/MerkleTree.js:51-58 | With an injective hash, equal roots of trees of equal height mean equal padded leaves. |
| `MerklePaths.ProofsAgree` | modules/example-projects/tornado_core/lib/MerkleTree.js:60-98 | With an injective hash, two proofs with the same directions and root prove the same element with the same siblings. |
| `MerklePaths.UpdateTouchesOneEntry` | modules/example-projects/tornado_core/lib/MerkleTree.js:100-182 | An update changes an entry of another path only on the level of the highest bit where the two indices differ. |
| `MerklePaths.AtMostOneEntryChanges` | modules/example-projects/tornado_core/lib/MerkleTree.js:100-182 | So at most one entry changes, and none of the path of the updated leaf itself. |
| `Mutex.MutualExclusion` | modules/ignition-core/src/services/utils/mutex/simple-mutex.ts:4-25 | In every reachable state: at most one holder, grants in the order of acquisition, locked exactly while a ticket is unreleased, and a second release changes nothing. |
| `Mutex.StepKeepsInv` | modules/ignition-core/src/services/utils/mutex/simple-mutex.ts:9-25 | The invariant behind it is kept by every step of every interleaving. |
| `Mutex.WaiterIsGranted` | modules/ignition-core/src/services/utils/mutex/simple-mutex.ts:9-25 | Liveness as a measure: the grants and releases of earlier tickets use up the work of a waiter, one is possible until it is granted, and when the work is used up it has been granted. |
| `Mutex.WorkShrinks` | modules/ignition-core/src/services/utils/mutex/simple-mutex.ts:9-25 | Each grant or first release of a ticket up to the waiter lowers its work by one; nothing else changes it. |
| `Mutex.Mutex.AcquireQueued` | modules/ignition-core/src/services/utils/mutex/simple-mutex.ts:8-12 | A new ticket behind the current lock, itself the lock from then on; the invariant is kept. |
| `Mutex.Mutex.ReleaseTicket` | modules/ignition-core/src/services/utils/mutex/simple-mutex.ts:19-24 | Resolves the ticket; the lock is cleared only if it is still this ticket; the invariant is kept. |
| `Mutex.Mutex.Locked` | modules/ignition-core/src/services/utils/mutex/simple-mutex.ts:4-6 | True exactly while some ticket is not released, in every state the object can be in. |
| `KeyMutex.FamilyOfMutexes` | modules/ignition-core/src/services/utils/mutex/key-mutex.ts:10-32 | Every run of the keyed mutex is, for every key, exactly the run of a simple mutex on the steps of that key. |
| `KeyMutex.OwnStepRefines` | modules/ignition-core/src/services/utils/mutex/key-mutex.ts:14-32 | A step is enabled for the simple mutex of its key and has the same effect there. |
| `KeyMutex.OtherStepStutters` | modules/ignition-core/src/services/utils/mutex/key-mutex.ts:14-32 | It changes nothing for any other key. |
| `KeyMutex.KeyMutualExclusion` | modules/ignition-core/src/services/utils/mutex/key-mutex.ts:10-32 | Per key: one holder, first come first served, locked exactly while a ticket is unreleased. |
| `KeyMutex.KeyMutex.AcquireQueued` | modules/ignition-core/src/services/utils/mutex/key-mutex.ts:14-18 | A new ticket behind the current lock of its key; other keys untouched. |
| `KeyMutex.KeyMutex.ReleaseTicket` | modules/ignition-core/src/services/utils/mutex/key-mutex.ts:25-31 | Clears the entry of the key only if it is still this ticket. |
| `KeyMutex.KeyMutex.IsLocked` | modules/ignition-core/src/services/utils/mutex/key-mutex.ts:10-12 | True exactly while some ticket of the key is not released, in every state the object can be in. |
| `Nonce.NoncesConsecutive` | modules/ignition-core/src/services/ethereum/transactions/event-executor.ts:111-129 | With every request made under the lock of its sender, over all interleavings split at the await, the nonces of each sender are consecutive and never repeat. |
| `Nonce.NoncesStartAtProviderCount` | modules/ignition-core/src/services/ethereum/transactions/manager.ts:44-48 | They start at a count the provider answered for that sender. |
| `Nonce.UnlockedNoncesRepeat` | modules/ignition-core/src/services/ethereum/transactions/manager.ts:41-52 | Without the lock the same nonce can be handed out twice. |
| `Nonce.TransactionManager.GetAndIncrement` | modules/ignition-core/src/services/ethereum/transactions/manager.ts:41-52 | The part before the await: an existing entry is handed out and incremented. |
| `Nonce.TransactionManager.ResumeWithCount` | modules/ignition-core/src/services/ethereum/transactions/manager.ts:45-48 | The part after the await: the entry is set, handed out and incremented. |
| `Dai.AddIsChecked` | modules/example-projects/dai-module/contracts/Dai.sol:98-100 | The wrapped sum passes its check exactly when it did not wrap. |
| `Dai.SubIsChecked` | modules/example-projects/dai-module/contracts/Dai.sol:101-103 | The wrapped difference passes its check exactly when it did not wrap. |
| `Dai.TransferKeepsBalance` | modules/example-projects/dai-module/contracts/Dai.sol:125-137 | Fails only for the balance or the allowance, never in the addition for the recipient; moves exactly the amount, also when source and destination are one; keeps supply and sum. |
| `Dai.MintKeepsBalance` | modules/example-projects/dai-module/contracts/Dai.sol:138-142 | Succeeds exactly for a ward within 2^256; balance, supply and sum rise together. |
| `Dai.BurnKeepsBalance` | modules/example-projects/dai-module/contracts/Dai.sol:143-152 | Succeeds exactly with the balance and the allowance; the supply never underflows. |
| `Dai.SupplyIsSumOfBalances` | modules/example-projects/dai-module/contracts/Dai.sol:122-193 | Every run of transactions, reverted ones included, keeps the balances summing, as numbers, to the total supply. |
| `Dai.SupplyFromDeployment` | modules/example-projects/dai-module/contracts/Dai.sol:110-193 | In every state reachable from the deployment the balances sum, as numbers and not merely modulo 2^256, to the total supply. |
| `Dai.AllowanceIsConserved` | modules/example-projects/dai-module/contracts/Dai.sol:125-157 | Over any run with no new approve or permit for the pair, remaining allowance plus everything the spender moved or burned is the starting allowance; an unlimited one stays unlimited. |
| `Dai.NobodyGainsAllowance` | modules/example-projects/dai-module/contracts/Dai.sol:125-193 | Over any run in which an address neither sends nor signs anything, no allowance over it rises. |
| `Dai.PermitSucceedsOnce` | modules/example-projects/dai-module/contracts/Dai.sol:187-191 | A permit that succeeded does not succeed again, whoever sends it, in any run of fewer than 2^256 permits of its holder. |
| `Dai.PermitIsExact` | modules/example-projects/dai-module/contracts/Dai.sol:171-193 | A permit succeeds exactly for a holder other than the zero address who signed it, before its expiry, if any, and with the current nonce; it sets the allowance of that pair to 2^256 - 1 or to 0, uses up the nonce, and changes no other allowance, balance, nonce or right. |
| `Dai.MoveIsExact` | modules/example-projects/dai-module/contracts/Dai.sol:122-168 | A transfer by any of its five names succeeds exactly with the balance and the allowance; the amount moves, the allowance of the pair sinks unless it is unlimited or not needed, and nothing else changes. |
| `Dai.MintIsExact` | modules/example-projects/dai-module/contracts/Dai.sol:138-142 | Minting succeeds exactly for a ward within 2^256, and changes one balance and the supply. |
| `Dai.BurnIsExact` | modules/example-projects/dai-module/contracts/Dai.sol:143-152 | Burning succeeds exactly with the balance and the allowance, and changes one balance, the supply and the allowance used. |
| `Dai.ApproveIsExact` | modules/example-projects/dai-module/contracts/Dai.sol:153-157 | Approving always succeeds and changes one allowance over the sender only. |
| `Dai.RelyIsExact` | modules/example-projects/dai-module/contracts/Dai.sol:76 | Exactly a ward appoints a ward, and nothing else changes. |
| `Dai.DenyIsExact` | modules/example-projects/dai-module/contracts/Dai.sol:77 | Exactly a ward dismisses a ward, and nothing else changes. |
| `Dai.Dai.TransferFrom` | modules/example-projects/dai-module/contracts/Dai.sol:125-137 | The storage after the call is the outcome of the step, or unchanged after a revert; the balance of the books is kept. |
| `Dai.Dai.Mint` | modules/example-projects/dai-module/contracts/Dai.sol:138-142 | As specified by the step, books balanced. |
| `Dai.Dai.Burn` | modules/example-projects/dai-module/contracts/Dai.sol:143-152 | As specified by the step, books balanced. |
| `Dai.Dai.Approve` | modules/example-projects/dai-module/contracts/Dai.sol:153-157 | Sets exactly one allowance. |
| `Dai.Dai.Permit` | modules/example-projects/dai-module/contracts/Dai.sol:171-193 | Signer, expiry and nonce checked in this order; the nonce is used up only by a call that succeeds. `Dai.PermitIsExact` says what it gives to whom. |
| `Dai.Dai.Transfer` | modules/example-projects/dai-module/contracts/Dai.sol:122-124 | transferFrom on behalf of the sender. |
| `Dai.Dai.Push` | modules/example-projects/dai-module/contracts/Dai.sol:160-162 | transferFrom on behalf of the sender. |
| `Dai.Dai.Pull` | modules/example-projects/dai-module/contracts/Dai.sol:163-165 | transferFrom to the sender. |
| `Dai.Dai.Move` | modules/example-projects/dai-module/contracts/Dai.sol:166-168 | transferFrom between the two addresses given. |
| `Dai.Dai.Rely` | modules/example-projects/dai-module/contracts/Dai.sol:76 | Only a ward appoints a ward. |
| `Dai.Dai.Deny` | modules/example-projects/dai-module/contracts/Dai.sol:77 | Only a ward dismisses a ward. |
| `AddressSet.ContainsIsExact` | modules/example-projects/synthetix/contracts/AddressSetLib.sol:11-17 | Membership is decided exactly although index 0 means both first and absent. |
| `AddressSet.RunRefinesSet` | modules/example-projects/synthetix/contracts/AddressSetLib.sol:11-64 | Any sequence of adds and removes refines the same sequence on a mathematical set, and `contains` answers for that set. |
| `AddressSet.RemoveRefines` | modules/example-projects/synthetix/contracts/AddressSetLib.sol:51-64 | Swap-remove keeps elements distinct and indices inverse, and removes one member. |
| `AddressSet.RemoveShape` | modules/example-projects/synthetix/contracts/AddressSetLib.sol:51-64 | The last element fills the gap; all others keep their positions. |
| `AddressSet.AddRefines` | modules/example-projects/synthetix/contracts/AddressSetLib.sol:43-49 | Adding adds one member and is idempotent. |
| `AddressSet.PagesCoverList` | modules/example-projects/synthetix/contracts/AddressSetLib.sol:19-41 | Consecutive pages concatenate to the rest of the list. |
| `AddressSet.AddressSet.GetPage` | modules/example-projects/synthetix/contracts/AddressSetLib.sol:19-41 | The clipped slice, or the empty page when the end index overflows. |
| `AddressSet.AddressSet.ContainsElement` | modules/example-projects/synthetix/contracts/AddressSetLib.sol:11-17 | True exactly for the elements of the list. |
| `AddressSet.AddressSet.AddElement` | modules/example-projects/synthetix/contracts/AddressSetLib.sol:43-49 | Exact new storage, invariant kept, one member added. |
| `AddressSet.AddressSet.RemoveElement` | modules/example-projects/synthetix/contracts/AddressSetLib.sol:51-64 | Refused exactly for a non-member; exact new storage, invariant kept, one member removed. |
| `Note.NoteRoundTrip` | modules/example-projects/tornado_core/cli.js:71-73 | For all nullifiers and secrets below 2^248, currencies of word characters, amounts of digits and points, and natural network ids, parsing the printed note gives the same fields and the same deposit. |
| `Note.CreatedIsDeposit` | modules/example-projects/tornado_core/cli.js:55-63 | A deposit of secrets of 31 bytes: 62 bytes of preimage whose halves read back as nullifier and secret, little-endian; the commitment is the hash of all of them, the nullifier hash that of the first half alone; both printed with 0x and at least 64 hexadecimal digits denoting them. |
| `Note.NullifierHashIsOfNullifier` | modules/example-projects/tornado_core/cli.js:58-61 | Deposits with one nullifier have one nullifier hash, whatever their secrets. |
| `Note.ParsedIsLeftmost` | modules/example-projects/tornado_core/cli.js:400-414 | What is parsed is the leftmost match of the note pattern, field by field and byte by byte, and its deposit is one in this sense. |
| `Note.PrintedIsMatch` | modules/example-projects/tornado_core/cli.js:71-73 | A printed note is a match of the pattern from its first character to its last. |
| `Note.LeBytesAt` | modules/example-projects/tornado_core/cli.js:57 | Byte number i of a number is its digit of weight 256^i. |
| `Note.BytesToHexAt` | modules/example-projects/tornado_core/cli.js:35-38 | Bytes are printed as two lower-case digits each, the higher half first. |
| `Note.MatchAtIsMatch` | modules/example-projects/tornado_core/cli.js:401 | Taking the longest run of each class finds exactly the matches of the note pattern, with the same groups: the dash-separated fields are unambiguous. |
| `Note.ParseRefusesIff` | modules/example-projects/tornado_core/cli.js:402-405 | A string is refused exactly when the pattern occurs nowhere in it. |
| `Note.ParsedReprints` | modules/example-projects/tornado_core/cli.js:400-414 | Whatever string is accepted, printing its fields and parsing again gives the same fields. |
| `Note.ParsedSecretsFit` | modules/example-projects/tornado_core/cli.js:407-409 | Parsed secrets always fit their 31 bytes. |
| `Note.LeRoundTrip` | modules/example-projects/tornado_core/cli.js:57 | Little-endian bytes of a number that fits read back as the number. |
| `Note.HexRoundTrip` | modules/example-projects/tornado_core/cli.js:35-38 | Hexadecimal printing of bytes reads back as the bytes. |
| `Note.ToHexDenotes` | modules/example-projects/tornado_core/cli.js:35-38 | A printed number starts with 0x, has at least the asked width, and denotes the number. |
| `Decimals.FromDecimals` | modules/example-projects/tornado_core/cli.js:249-298 | For any string and whatever the big-number library parses: the minus is cut off, the loop pads the fraction to the width of the base, and the result is whole times base plus fraction, or the first of the three errors; after a minus it is what the library makes of multiplying by a boolean. |
| `Decimals.PlainReads` | modules/example-projects/tornado_core/cli.js:249-298 | On digits and points the result is the same for every library that parses digits right. |
| `Decimals.ToDecimals` | modules/example-projects/tornado_core/cli.js:300-335 | The loop pads, the pattern strips, sign and cut follow, with the defaults 18 and 7 for zero. |
| `Decimals.DecimalRoundTripIff` | modules/example-projects/tornado_core/cli.js:249-335 | Reading back a printed amount gives the amount exactly when the cut removed nothing, under the defaults 18 and 7 too. |
| `Decimals.NegativeRoundTripIff` | modules/example-projects/tornado_core/cli.js:300-335 | A negative amount prints as a minus and its opposite; the part behind the minus reads back exactly when the cut, the minus counted, removed nothing, and then the whole reads as that number times a boolean. |
| `Decimals.NormalisedRoundTrip` | modules/example-projects/tornado_core/cli.js:249-335 | Printing back a normalised decimal number that fits the cut gives the same string. |
| `Decimals.ReadPrints` | modules/example-projects/tornado_core/cli.js:249-335 | Every normalised number is read, and prints back uncut as itself. |
| `Decimals.PrintReads` | modules/example-projects/tornado_core/cli.js:249-335 | Every amount prints uncut to a number that reads back as itself. |
| `Decimals.PrintIsNormalised` | modules/example-projects/tornado_core/cli.js:316-323 | Printed numbers have no superfluous zero at either end. |
| `Decimals.PrintIsShortest` | modules/example-projects/tornado_core/cli.js:316-323 | Of all decimal numbers with a whole part that denote an amount, the printed one is the shortest. |
| `Decimals.ReadsIff` | modules/example-projects/tornado_core/cli.js:260-285 | What is accepted, of any characters: something besides a point, at most one point, at most as many characters behind it as the base has zeros. |
| `Decimals.ErrorIs` | modules/example-projects/tornado_core/cli.js:260-285 | Which error: invalid value for a single point, too many points for two or more, and otherwise too many places for what stands behind the point. |
| `Decimals.ReadDenotes` | modules/example-projects/tornado_core/cli.js:267-291 | Digits around one point, either side possibly empty, read as the digits of both sides with the fraction filled up with zeros. |
| `Decimals.StripIs` | modules/example-projects/tornado_core/cli.js:320 | The pattern removes all trailing zeros and nothing else, keeping one zero of a zero fraction. |
| `Decimals.ZeroDecimalsAddFraction` | modules/example-projects/tornado_core/cli.js:252 | With no decimals one fractional digit is accepted and added as whole units. |
| `Linker.AddLibraryAddresses` | modules/ignition-core/src/services/ethereum/transactions/generator.ts:98-126 | The loops over libraries and occurrences make the specified replacements, or report the first library without address; without references the code is returned unchanged. |
| `Linker.FillOccurrences` | modules/ignition-core/src/services/ethereum/transactions/generator.ts:114-122 | The inner loop replaces the occurrences of one library in turn. |
| `Linker.FillOne` | modules/ignition-core/src/services/ethereum/transactions/generator.ts:115-121 | One occurrence: what stands before it, the address without its 0x, what stands behind. |
| `Linker.LinkFillsPlaceholders` | modules/ignition-core/src/services/ethereum/transactions/generator.ts:98-126 | With disjoint placeholders as long as their addresses: every placeholder is filled, every other character and the length are unchanged. |
| `Linker.PlaceholderHoldsAddress` | modules/ignition-core/src/services/ethereum/transactions/generator.ts:114-122 | From character 2 + 2 * start on, each placeholder holds the address of its own library without its 0x. |
| `Linker.LinkedIsUnique` | modules/ignition-core/src/services/ethereum/transactions/generator.ts:98-126 | Only one string fills the placeholders and leaves the rest. |
| `Linker.LinkOrderIrrelevant` | modules/ignition-core/src/services/ethereum/transactions/generator.ts:107 | Visiting the libraries in any other order gives the same bytecode. |
| `Linker.SamePatches` | modules/ignition-core/src/services/ethereum/transactions/generator.ts:114 | So does any other order of the replacements themselves. |
| `Linker.LinkBeforeArguments` | modules/ignition-core/src/services/ethereum/transactions/executor.ts:758-763 | Linking after the constructor arguments were appended is linking before. |
| `Linker.LinkRefusal` | modules/ignition-core/src/services/ethereum/transactions/generator.ts:108-112 | A refusal names the first library without address, as unknown if it is no contract of the state and as not deployed otherwise. |
| `Linker.LinkApplies` | modules/ignition-core/src/services/ethereum/transactions/generator.ts:107-125 | Linking succeeds exactly when every referenced library is deployed. |
| `Linker.TwentyBytePlaceholders` | modules/ignition-core/src/services/ethereum/transactions/generator.ts:114-122 | Addresses of 42 characters and pairwise disjoint 20-byte placeholders inside the code meet these conditions. |

## Left out

- Redeployment: merging with a stored module state, its difference checks and the
  propagation of redeploys to dependants (`module-resolver.ts:113-177` and `647-816`).
- The fields `lastEventName`, `logicallyDeployed` and `executed`, and the replay of hook
  transactions recorded in an earlier run.
- Contracts skipped by the module configuration, and the sequential mode.
- What a custom deploy function does. In parallel mode it is run and then the missing
  transaction data throw, as they do when the receipts are written for a contract that has an
  address already; the model has just the throw. Transaction data kept from an earlier run in
  which the contract had no deploy function are not modelled.
- Checks of constructor arguments against the ABI. Transaction data are there for every contract
  without deploy function, `initTx` filling them in before the run.
- Sub-modules (`useModule`), proxies, actions, parameters, and the `force` and
  `shouldRedeploy` switches.
- Network, signing, gas, logging, file system, session storage, and the bodies of hooks.
- MiMC, Pedersen hashing, `ecrecover` and the clock: parameters of the model.
- `getCurrentTransactionCount`, which overwrites the entry of a sender and can break the
  sequence of nonces.
- Before-hooks in parallel mode are given no order against the contracts they are hooked to: their
  batch depends on how many batches exist when they are met, and contracts do not wait for them.
- Numbers of JavaScript are exact only up to 2^53 - 1; indices of the tree and network ids
  of notes are natural numbers here. Amounts use arbitrary precision in the source too.
- `Erc20.sol`, array chunking, bytecode comparison and other easy members.
- Mutex.WaiterIsGranted: progress is stated by a measure and the possibility of a next
  step, not by a fairness condition on a scheduler.
- ModuleBuilder.BuiltModuleResolves: covers no modules with grouped before-hooks; of these
  `BuiltModules.BuiltModuleEndsIff` says which are resolved, if no event merely uses another.
- Overflow.EndsIffAcyclic: does not cover modules that are stopped by an error. A circle can
  then go unnoticed, for instance when the first contract met is not compiled.
- BuiltModules.BuiltModuleEndsIff: the depth counts calls for contracts and for events that
  are not skipped; the frames in between are a fixed number for each.
- ModuleBuilder.ModuleBuilder.GroupHook: the five hook methods of a group differ only in the
  list they write, so one method with the kind as a parameter stands for them; likewise
  `ContractHook` for those of one contract.
- ModuleBuilder.ModuleBuilder.Bind: for a taken name the source logs and exits, which the
  model reports as an error.
- ScheduledRun.PlainRunFinishes: a library that links another library is outside it; both sit
  in the first batch, and by `ScheduledRun.RunFinishesIff` such a run does not finish unless
  the linked one already has an address.
- Deployment.BuiltRunFinishesIff: covers modules whose hooks use nothing, others possibly being
  refused a schedule; of any schedule `Lost.ScheduleRunFinishesIff` says when its run finishes.
- ResolveOrder.BehindStandsBefore: the condition is sufficient. Without it the order depends on
  which contracts are in progress when the hook is met, as `ResolveOrder.UsedContractCanFollow`
  shows.
- ParallelRun.RunIsSafe: transactions are assumed to be confirmed by a receipt with an
  address; a lost receipt is not modelled, nor what the bodies of hooks do.
- ParallelRun.Runner.RunHooks: a failing hook leaves the promise of its batch pending because
  nothing handles the rejection of the callback; that some hosts end the process on an
  unhandled rejection is not part of this model.
- Lost.NothingLostIff: that there is a plan is only claimed for modules whose hooks use
  nothing; otherwise a used event may refuse it before or after the loss.
- MerkleTree.MerkleTree.constructor: the storage refuses undefined values; elements here are
  always defined. The deletion of a key, which nothing calls, is not modelled.
- AddressSet.AddressSet.AddElement: the list is assumed to stay shorter than 2^256, the
  length being itself one storage word.
- AddressSet.RunRefinesSet: for the same reason runs of fewer than 2^256 operations.
- AddressSet.PagesCoverList: for page sizes whose end does not overflow; an overflowing page is
  empty, as `AddressSet.AddressSet.GetPage` says.
- Dai.Dai.Permit: the message digest is not computed; the recovered signer is a parameter.
- Decimals.FromDecimals: the big-number library is not part of this model. Its parser is a
  parameter, of which the laws use only that digits are read as their number, and so is what
  its multiplication makes of a boolean, which the source does after a minus.
- Decimals.ToDecimals: `fixed` is a natural number, an absent one being 0.
- Note.LeRoundTrip: numbers too large for their bytes are not claimed anything about, the
  source library refusing them.
- Linker.LinkFillsPlaceholders: overlapping placeholders and addresses of another length are
  covered by the specification function but nothing is claimed about their result.
