/** What a run does, step by step: each batch sends, then runs its hooks, then writes its
    receipts, and a run that finishes has done all of it once. */
module RunLog {
  import opened Graph
  import opened ParallelRun
  import opened Schedule
  import ScheduleOrder
  import opened Wrappers

  /** The members of `keep` in the order of `batch`. */
  function Those(batch: seq<Name>, keep: set<Name>): (r: seq<Name>)
    ensures forall n :: n in r <==> n in batch && n in keep
  {
    if batch == [] then []
    else
      assert batch == [batch[0]] + batch[1..];
      (if batch[0] in keep then [batch[0]] else []) + Those(batch[1..], keep)
  }

  lemma {:induction false} ThoseTimes(batch: seq<Name>, keep: set<Name>, n: Name)
    ensures multiset(Those(batch, keep))[n] == if n in keep then multiset(batch)[n] else 0
  {
    if batch == [] {
    } else {
      assert batch == [batch[0]] + batch[1..];
      ThoseTimes(batch[1..], keep, n);
    }
  }

  function Sends(names: seq<Name>): (r: seq<Step>)
    ensures |r| == |names| && forall i :: 0 <= i < |r| ==> r[i] == Sent(names[i])
  {
    seq(|names|, i requires 0 <= i < |names| => Sent(names[i]))
  }

  function Runs(names: seq<Name>): (r: seq<Step>)
    ensures |r| == |names| && forall i :: 0 <= i < |r| ==> r[i] == Ran(names[i])
  {
    seq(|names|, i requires 0 <= i < |names| => Ran(names[i]))
  }

  function Confirms(receipt: Name -> Address, names: seq<Name>): (r: seq<Step>)
    ensures |r| == |names| && forall i :: 0 <= i < |r| ==> r[i] == Confirmed(names[i], receipt(names[i]))
  {
    seq(|names|, i requires 0 <= i < |names| => Confirmed(names[i], receipt(names[i])))
  }

  /** The contracts of a batch without address. */
  ghost function ToSend(g: Module, addresses: map<Name, Address>, batch: seq<Name>): set<Name> {
    set c | c in batch && c in g.bindings && c !in addresses
  }

  /** The hooks and module events of a batch that may run: an after-hook only when its
      contracts have addresses. */
  ghost function ToRun(g: Module, addresses: map<Name, Address>, batch: seq<Name>): set<Name> {
    set e | e in batch && e !in g.bindings && MayRun(g, addresses, e)
  }

  ghost predicate MayRun(g: Module, addresses: map<Name, Address>, e: Name) {
    e in g.events && IsAfter(g.events[e]) ==>
      forall n :: n in g.events[e].deps ==> n in g.bindings && n in addresses
  }

  lemma {:induction false} SendsInOrder(g: Module, addresses: map<Name, Address>, batch: seq<Name>, log: seq<Step>,
                                        keep: set<Name>)
    requires forall c :: c in batch ==> (c in keep <==> c in g.bindings && c !in addresses)
    ensures SendsThose(g, addresses, batch, log, keep, SendAll(g, addresses, batch, log))
    decreases |batch|
  {
    if batch == [] {
      assert log + Sends([]) == log;
    } else {
      assert batch == [batch[0]] + batch[1..];
      var c := batch[0];
      if c !in keep {
        SendsInOrder(g, addresses, batch[1..], log, keep);
        SendsRest(g, addresses, batch, log, keep, SendAll(g, addresses, batch[1..], log));
      } else if SendError(g, addresses, c).Some? {
        assert batch[..0] == [] && log + Sends([]) == log;
        assert StopsAt(g, addresses, batch, 0, SendError(g, addresses, c).value);
      } else {
        SendsInOrder(g, addresses, batch[1..], log + [Sent(c)], keep);
        SendsRest(g, addresses, batch, log, keep, SendAll(g, addresses, batch[1..], log + [Sent(c)]));
      }
    }
  }

  /** Sending is in the order of the batch: all to be sent, or those before the first
      that cannot be. */
  ghost predicate SendsThose(g: Module, addresses: map<Name, Address>, batch: seq<Name>, log: seq<Step>,
                             keep: set<Name>, r: Outcome<seq<Step>>)
  {
    match r
    case Fine(sent) => sent == log + Sends(Those(batch, keep))
    case Thrown(error, s) =>
      exists j :: StopsAt(g, addresses, batch, j, error) && s == State(addresses, log + Sends(Those(batch[..j], keep)))
    case Hung(_, _) => false
  }

  ghost predicate StopsAt(g: Module, addresses: map<Name, Address>, batch: seq<Name>, j: int, error: Failure) {
    && 0 <= j < |batch| && batch[j] in g.bindings && batch[j] !in addresses
    && SendError(g, addresses, batch[j]) == Some(error)
  }

  lemma SendsRest(g: Module, addresses: map<Name, Address>, batch: seq<Name>, log: seq<Step>, keep: set<Name>,
                  r: Outcome<seq<Step>>)
    requires batch != [] && SendsThose(g, addresses, batch[1..], SentFirst(batch, keep, log), keep, r)
    ensures SendsThose(g, addresses, batch, log, keep, r)
  {
    match r
    case Fine(sent) => OneMoreSent(batch, keep, log);
    case Thrown(error, s) =>
      var j :| StopsAt(g, addresses, batch[1..], j, error)
               && s == State(addresses, SentFirst(batch, keep, log) + Sends(Those(batch[1..][..j], keep)));
      StopsLater(g, addresses, batch, j, error);
      OneMoreSent(batch[..j + 1], keep, log);
  }

  function SentFirst(batch: seq<Name>, keep: set<Name>, log: seq<Step>): seq<Step>
    requires batch != []
  {
    if batch[0] in keep then log + [Sent(batch[0])] else log
  }

  lemma OneMoreSent(batch: seq<Name>, keep: set<Name>, log: seq<Step>)
    requires batch != []
    ensures SentFirst(batch, keep, log) + Sends(Those(batch[1..], keep)) == log + Sends(Those(batch, keep))
  {
    var rest := Those(batch[1..], keep);
    if batch[0] in keep {
      assert Sends([batch[0]] + rest) == [Sent(batch[0])] + Sends(rest);
      Reassociate(log, [Sent(batch[0])], Sends(rest));
    } else {
      assert [] + rest == rest;
    }
  }

  lemma Reassociate(a: seq<Step>, b: seq<Step>, c: seq<Step>)
    ensures a + b + c == a + (b + c)
  {
  }

  lemma StopsLater(g: Module, addresses: map<Name, Address>, batch: seq<Name>, j: int, error: Failure)
    requires batch != [] && StopsAt(g, addresses, batch[1..], j, error)
    ensures StopsAt(g, addresses, batch, j + 1, error)
    ensures batch[..j + 1][0] == batch[0] && batch[..j + 1][1..] == batch[1..][..j]
  {
  }

  lemma {:induction false} HooksInOrder(g: Module, addresses: map<Name, Address>, batch: seq<Name>, log: seq<Step>,
                                        keep: set<Name>)
    requires forall e :: e in batch ==> (e in keep <==> e !in g.bindings && MayRun(g, addresses, e))
    ensures StartHooks(g, addresses, batch, log) == log + Runs(Those(batch, keep))
    decreases |batch|
  {
    if batch == [] {
    } else {
      assert batch == [batch[0]] + batch[1..];
      var e := batch[0];
      MayRunIff(g, addresses, e);
      if e in keep {
        HooksInOrder(g, addresses, batch[1..], log + [Ran(e)], keep);
        OneMoreRun(batch, keep, log);
      } else {
        HooksInOrder(g, addresses, batch[1..], log, keep);
      }
    }
  }

  lemma MayRunIff(g: Module, addresses: map<Name, Address>, e: Name)
    ensures HookError(g, addresses, e).None? <==> MayRun(g, addresses, e)
  {
  }

  lemma OneMoreRun(batch: seq<Name>, keep: set<Name>, log: seq<Step>)
    requires batch != [] && batch[0] in keep
    ensures log + [Ran(batch[0])] + Runs(Those(batch[1..], keep)) == log + Runs(Those(batch, keep))
  {
    var rest := Those(batch[1..], keep);
    assert Runs([batch[0]] + rest) == [Ran(batch[0])] + Runs(rest);
    Reassociate(log, [Ran(batch[0])], Runs(rest));
  }

  lemma OneMoreConfirmed(receipt: Name -> Address, batch: seq<Name>, keep: set<Name>, log: seq<Step>)
    requires batch != [] && batch[0] in keep
    ensures log + [Confirmed(batch[0], receipt(batch[0]))] + Confirms(receipt, Those(batch[1..], keep)) ==
            log + Confirms(receipt, Those(batch, keep))
  {
    var c, rest := batch[0], Those(batch[1..], keep);
    assert Confirms(receipt, [c] + rest) == [Confirmed(c, receipt(c))] + Confirms(receipt, rest);
    Reassociate(log, [Confirmed(c, receipt(c))], Confirms(receipt, rest));
  }

  lemma {:induction false} ConfirmsInOrder(g: Module, receipt: Name -> Address, batch: seq<Name>, s: State,
                                           keep: set<Name>)
    requires Distinct(batch) && ConfirmAll(g, receipt, batch, s).Fine?
    requires forall c :: c in batch ==> (c in keep <==> c in g.bindings && c !in s.addresses)
    ensures ConfirmAll(g, receipt, batch, s).value.log == s.log + Confirms(receipt, Those(batch, keep))
    decreases |batch|
  {
    if batch == [] {
    } else {
      var c, rest := batch[0], batch[1..];
      assert batch == [c] + rest && c !in rest;
      if c in keep {
        var s1 := State(s.addresses[c := receipt(c)], s.log + [Confirmed(c, receipt(c))]);
        ConfirmsInOrder(g, receipt, rest, s1, keep);
        OneMoreConfirmed(receipt, batch, keep, s.log);
      } else {
        ConfirmsInOrder(g, receipt, rest, s, keep);
      }
    }
  }

  /** A batch that ends fine sends its contracts without address, runs all its hooks and
      module events, and then writes the receipts, each in the order of the batch.  One
      that hangs has sent them too and run exactly the hooks that may run, and confirms
      nothing. */
  lemma BatchPhases(g: Module, receipt: Name -> Address, batch: seq<Name>, s: State)
    requires Distinct(batch) && batch != []
    ensures var r, sent := ExecuteBatch(g, receipt, batch, s), Those(batch, ToSend(g, s.addresses, batch));
            && (r.Fine? ==>
                  r.value.log == s.log + Sends(sent) + Runs(Those(batch, Hooks(g, batch))) + Confirms(receipt, sent))
            && (r.Hung? ==>
                  && r.state.addresses == s.addresses
                  && r.state.log == s.log + Sends(sent) + Runs(Those(batch, ToRun(g, s.addresses, batch))))
  {
    var keep := ToSend(g, s.addresses, batch);
    SendsInOrder(g, s.addresses, batch, s.log, keep);
    var r1 := SendAll(g, s.addresses, batch, s.log);
    if r1.Fine? {
      forall e | e in batch ensures HookError(g, s.addresses, e).None? <==> MayRun(g, s.addresses, e) {
        MayRunIff(g, s.addresses, e);
      }
      HooksInOrder(g, s.addresses, batch, r1.value, ToRun(g, s.addresses, batch));
      HooksSucceed(g, s.addresses, batch);
      var log2 := StartHooks(g, s.addresses, batch, r1.value);
      if FirstHookError(g, s.addresses, batch).None? {
        assert ToRun(g, s.addresses, batch) == Hooks(g, batch);
        var r := ConfirmAll(g, receipt, batch, State(s.addresses, log2));
        if r.Fine? { ConfirmsInOrder(g, receipt, batch, State(s.addresses, log2), keep); }
      }
      ConfirmAllAddresses(g, receipt, batch, State(s.addresses, log2));
    }
  }

  /** The hooks and module events of a batch. */
  ghost function Hooks(g: Module, batch: seq<Name>): set<Name> {
    set e | e in batch && e !in g.bindings
  }

  // ----- How often -----

  function Times(log: seq<Step>, step: Step): nat {
    multiset(log)[step]
  }

  lemma TimesOfTwo(first: Step, rest: seq<Step>, step: Step)
    ensures Times([first] + rest, step) == (if first == step then 1 else 0) + Times(rest, step)
  {
    assert multiset([first] + rest) == multiset([first]) + multiset(rest);
  }

  lemma CountOfTwo(names: seq<Name>, n: Name)
    requires names != []
    ensures multiset(names)[n] == (if names[0] == n then 1 else 0) + multiset(names[1..])[n]
  {
    assert names == [names[0]] + names[1..];
    assert multiset(names) == multiset([names[0]]) + multiset(names[1..]);
  }

  /** The element a step is about. */
  function Element(step: Step): Name {
    match step
    case Sent(c) => c
    case Ran(e) => e
    case Confirmed(c, _) => c
  }

  lemma {:induction false} SendsTimes(names: seq<Name>, step: Step)
    ensures Times(Sends(names), step) == if step.Sent? then multiset(names)[step.contract] else 0
  {
    if names == [] {
    } else {
      SendsTimes(names[1..], step);
      assert Sends(names) == [Sent(names[0])] + Sends(names[1..]);
      TimesOfTwo(Sent(names[0]), Sends(names[1..]), step);
      CountOfTwo(names, Element(step));
    }
  }

  lemma {:induction false} RunsTimes(names: seq<Name>, step: Step)
    ensures Times(Runs(names), step) == if step.Ran? then multiset(names)[step.event] else 0
  {
    if names == [] {
    } else {
      RunsTimes(names[1..], step);
      assert Runs(names) == [Ran(names[0])] + Runs(names[1..]);
      TimesOfTwo(Ran(names[0]), Runs(names[1..]), step);
      CountOfTwo(names, Element(step));
    }
  }

  lemma {:induction false} ConfirmsTimes(receipt: Name -> Address, names: seq<Name>, step: Step)
    ensures Times(Confirms(receipt, names), step) ==
            if step.Confirmed? && step.address == receipt(step.contract) then multiset(names)[step.contract] else 0
  {
    if names == [] {
    } else {
      ConfirmsTimes(receipt, names[1..], step);
      assert Confirms(receipt, names) == [Confirmed(names[0], receipt(names[0]))] + Confirms(receipt, names[1..]);
      TimesOfTwo(Confirmed(names[0], receipt(names[0])), Confirms(receipt, names[1..]), step);
      CountOfTwo(names, Element(step));
    }
  }

  /** How often a step is due: once for each place its element has in `places`, hooks
      and module events always, contracts only without an address to start with. */
  ghost function Due(g: Module, receipt: Name -> Address, addresses: map<Name, Address>, places: multiset<Name>,
                     step: Step): nat
  {
    match step
    case Ran(e) => if e in g.bindings then 0 else places[e]
    case Sent(c) => if c in g.bindings && c !in addresses then places[c] else 0
    case Confirmed(c, a) => if c in g.bindings && c !in addresses && a == receipt(c) then places[c] else 0
  }

  lemma BatchTimes(g: Module, receipt: Name -> Address, batch: seq<Name>, s: State, step: Step)
    requires Distinct(batch) && ExecuteBatch(g, receipt, batch, s).Fine?
    ensures Times(ExecuteBatch(g, receipt, batch, s).value.log, step) ==
            Times(s.log, step) + Due(g, receipt, s.addresses, multiset(batch), step)
  {
    BatchPhases(g, receipt, batch, s);
    var sent, ran := Those(batch, ToSend(g, s.addresses, batch)), Those(batch, Hooks(g, batch));
    TimesOfFour(s.log, Sends(sent), Runs(ran), Confirms(receipt, sent), step);
    SendsTimes(sent, step);
    RunsTimes(ran, step);
    ConfirmsTimes(receipt, sent, step);
    ThoseTimes(batch, ToSend(g, s.addresses, batch), Element(step));
    ThoseTimes(batch, Hooks(g, batch), Element(step));
    InBatchIff(batch, Element(step));
  }

  lemma TimesOfFour(a: seq<Step>, b: seq<Step>, c: seq<Step>, d: seq<Step>, step: Step)
    ensures Times(a + b + c + d, step) == Times(a, step) + Times(b, step) + Times(c, step) + Times(d, step)
  {
    assert multiset(a + b + c + d) == multiset(a) + multiset(b) + multiset(c) + multiset(d);
  }

  lemma InBatchIff(batch: seq<Name>, n: Name)
    ensures n in batch <==> multiset(batch)[n] > 0
  {
    assert n in batch <==> n in multiset(batch);
  }

  /** A run that finishes does what is due, and nothing else. */
  lemma {:induction false} RunTimes(g: Module, receipt: Name -> Address, batches: seq<seq<Name>>, s: State, step: Step)
    requires forall n :: Flat(batches)[n] <= 1
    requires ExecuteBatches(g, receipt, batches, s).Fine?
    ensures Times(ExecuteBatches(g, receipt, batches, s).value.log, step) ==
            Times(s.log, step) + Due(g, receipt, s.addresses, Flat(batches), step)
    decreases |batches|
  {
    if batches == [] {
    } else {
      FlatIsDistinct(batches);
      var s1 := ExecuteBatch(g, receipt, batches[0], s).value;
      BatchTimes(g, receipt, batches[0], s, step);
      BatchAddresses(g, receipt, batches[0], s);
      RunTimes(g, receipt, batches[1..], s1, step);
    }
  }

  lemma FlatIsDistinct(batches: seq<seq<Name>>)
    requires batches != [] && forall n :: Flat(batches)[n] <= 1
    ensures Distinct(batches[0]) && forall n :: Flat(batches[1..])[n] <= 1
    ensures forall n :: Flat(batches)[n] == multiset(batches[0])[n] + Flat(batches[1..])[n]
  {
    assert forall n :: Flat(batches)[n] == multiset(batches[0])[n] + Flat(batches[1..])[n];
    forall n ensures Flat(batches[1..])[n] <= 1 { assert Flat(batches)[n] <= 1; }
    forall i, j | 0 <= i < j < |batches[0]| ensures batches[0][i] != batches[0][j] {
      assert Flat(batches)[batches[0][i]] <= 1;
      if batches[0][i] == batches[0][j] { ScheduleOrder.TwiceInOne(batches[0], i, j); }
    }
  }

  /** A batch that ends fine adds the receipts of its contracts to the addresses. */
  lemma BatchAddresses(g: Module, receipt: Name -> Address, batch: seq<Name>, s: State)
    requires ExecuteBatch(g, receipt, batch, s).Fine?
    ensures Given(g, receipt, batch, s.addresses, ExecuteBatch(g, receipt, batch, s).value.addresses)
  {
    var log2 := StartHooks(g, s.addresses, batch, SendAll(g, s.addresses, batch, s.log).value);
    ConfirmAllAddresses(g, receipt, batch, State(s.addresses, log2));
  }

  /** Contracts among `names` have addresses now, from their receipts unless they had one
      before, and all others are as before. */
  ghost predicate Given(g: Module, receipt: Name -> Address, names: seq<Name>, before: map<Name, Address>,
                        after: map<Name, Address>)
  {
    && (forall c :: c in after <==> c in before || (c in names && c in g.bindings))
    && (forall c :: c in after ==> after[c] == if c in before then before[c] else receipt(c))
  }

  lemma {:induction false} RunAddresses(g: Module, receipt: Name -> Address, batches: seq<seq<Name>>, s: State)
    requires ExecuteBatches(g, receipt, batches, s).Fine?
    ensures var after := ExecuteBatches(g, receipt, batches, s).value.addresses;
            && (forall c :: c in after <==> c in s.addresses || (Flat(batches)[c] > 0 && c in g.bindings))
            && (forall c :: c in after ==> after[c] == if c in s.addresses then s.addresses[c] else receipt(c))
    decreases |batches|
  {
    if batches == [] {
    } else {
      BatchAddresses(g, receipt, batches[0], s);
      RunAddresses(g, receipt, batches[1..], ExecuteBatch(g, receipt, batches[0], s).value);
    }
  }

  // ----- Which error -----

  ghost predicate AllHave(g: Module, addresses: map<Name, Address>, names: seq<Name>) {
    forall n :: n in names ==> HasAddress(g, addresses, n)
  }

  lemma {:induction false} FirstMissingIsFirst(g: Module, addresses: map<Name, Address>, names: seq<Name>)
    returns (j: nat)
    requires FirstMissing(g, addresses, names).Some?
    ensures j < |names| && FirstMissing(g, addresses, names) == Some(names[j])
    ensures !HasAddress(g, addresses, names[j]) && AllHave(g, addresses, names[..j])
  {
    if !HasAddress(g, addresses, names[0]) {
      j := 0;
    } else {
      var k := FirstMissingIsFirst(g, addresses, names[1..]);
      j := k + 1;
      assert names[..j] == [names[0]] + names[1..][..k];
    }
  }

  lemma {:induction false} ArgErrorIsFirst(g: Module, addresses: map<Name, Address>, c: Name, args: seq<Arg>)
    returns (j: nat)
    requires ArgError(g, addresses, c, args).Some?
    ensures j < |args| && !args[j].Value? && !ArgGiven(g, addresses, args[j].name)
    ensures forall i :: 0 <= i < j && !args[i].Value? ==> ArgGiven(g, addresses, args[i].name)
    ensures ArgError(g, addresses, c, args) == Some(Lack(g, c, args[j].name))
    decreases |args|
  {
    if args[0].Value? || ArgGiven(g, addresses, args[0].name) {
      var k := ArgErrorIsFirst(g, addresses, c, args[1..]);
      j := k + 1;
    } else {
      j := 0;
    }
  }

  /** Encoding goes through the arguments and then the libraries in order, and stops at
      the first that is missing; a deploy function comes before both. */
  ghost predicate FirstSendError(g: Module, addresses: map<Name, Address>, c: Name, error: Failure)
    requires c in g.bindings
  {
    var b := g.bindings[c];
    match error
    case CustomDeploy(x) => x == c && b.deployFn
    case NoTransaction(x, n) =>
      x == c && !b.deployFn && FirstArgMissing(g, addresses, b.args, n) && (n !in g.bindings || g.bindings[n].deployFn)
    case NoContractAddress(x, n) =>
      x == c && !b.deployFn && FirstArgMissing(g, addresses, b.args, n) && n in g.bindings && n !in addresses
    case LibraryNotDeployed(x, l) =>
      && x == c && !b.deployFn && (forall n :: n in ArgNames(b.args) ==> ArgGiven(g, addresses, n))
      && exists j :: 0 <= j < |Links(b)| && Links(b)[j] == l && !HasAddress(g, addresses, l)
                     && AllHave(g, addresses, Links(b)[..j])
    case _ => false
  }

  ghost predicate FirstArgMissing(g: Module, addresses: map<Name, Address>, args: seq<Arg>, n: Name) {
    exists j :: 0 <= j < |args| && ArgMissing(g, addresses, args[j], n)
                && forall i :: 0 <= i < j && !args[i].Value? ==> ArgGiven(g, addresses, args[i].name)
  }

  ghost predicate ArgMissing(g: Module, addresses: map<Name, Address>, arg: Arg, n: Name) {
    !arg.Value? && arg.name == n && !ArgGiven(g, addresses, n)
  }

  lemma SendErrorIsFirst(g: Module, addresses: map<Name, Address>, c: Name)
    requires c in g.bindings && SendError(g, addresses, c).Some?
    ensures FirstSendError(g, addresses, c, SendError(g, addresses, c).value)
  {
    var b := g.bindings[c];
    if b.deployFn { return; }
    if ArgError(g, addresses, c, b.args).Some? {
      var j := ArgErrorIsFirst(g, addresses, c, b.args);
      assert ArgMissing(g, addresses, b.args[j], b.args[j].name);
    } else {
      var j := FirstMissingIsFirst(g, addresses, Links(b));
    }
  }

  /** A batch hangs on its first hook that misses a contract, and on the first it
      misses. */
  lemma {:induction false} HookErrorIsFirst(g: Module, addresses: map<Name, Address>, batch: seq<Name>)
    returns (j: nat, k: nat)
    requires FirstHookError(g, addresses, batch).Some?
    ensures j < |batch| && batch[j] !in g.bindings && batch[j] in g.events && IsAfter(g.events[batch[j]])
    ensures forall i :: 0 <= i < j && batch[i] !in g.bindings ==> MayRun(g, addresses, batch[i])
    ensures var deps := g.events[batch[j]].deps;
            && k < |deps| && !HasAddress(g, addresses, deps[k]) && AllHave(g, addresses, deps[..k])
            && FirstHookError(g, addresses, batch) == Some(NotYetDeployed(batch[j], deps[k]))
  {
    MayRunIff(g, addresses, batch[0]);
    if batch[0] in g.bindings || HookError(g, addresses, batch[0]).None? {
      var i;
      i, k := HookErrorIsFirst(g, addresses, batch[1..]);
      j := i + 1;
    } else {
      j := 0;
      k := FirstMissingIsFirst(g, addresses, g.events[batch[0]].deps);
    }
  }
}
