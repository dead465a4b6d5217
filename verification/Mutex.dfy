/** The promise-chained mutex as a state machine over all interleavings.  A ticket is
    one call to acquire: it waits for the promise that was the lock when it came, and
    is itself the lock until the next ticket or its own release. */
module Mutex {
  import opened Wrappers

  type Id = nat

  datatype Ticket = Ticket(prev: Option<Id>, granted: bool, released: bool)

  datatype State = State(tickets: map<Id, Ticket>, lock: Option<Id>)

  /** Acquire creates a ticket with a fresh, larger id; Grant is the microtask that
      hands out the release function once the previous ticket's promise is resolved;
      Release is a call of that function. */
  datatype Step = Acquire(id: Id) | Grant(id: Id) | Release(id: Id)

  const INIT := State(map[], None)

  predicate Settled(s: State, prev: Option<Id>) {
    prev.Some? ==> prev.value in s.tickets && s.tickets[prev.value].released
  }

  ghost predicate Enabled(s: State, step: Step) {
    match step
    case Acquire(id) => forall u :: u in s.tickets ==> u < id
    case Grant(id) => id in s.tickets && !s.tickets[id].granted && Settled(s, s.tickets[id].prev)
    case Release(id) => id in s.tickets && s.tickets[id].granted
  }

  function Apply(s: State, step: Step): State {
    match step
    case Acquire(id) => State(s.tickets[id := Ticket(s.lock, false, false)], Some(id))
    case Grant(id) =>
      if id in s.tickets then s.(tickets := s.tickets[id := s.tickets[id].(granted := true)]) else s
    case Release(id) =>
      if id in s.tickets then
        State(s.tickets[id := s.tickets[id].(released := true)], if s.lock == Some(id) then None else s.lock)
      else s
  }

  ghost predicate Legal(s: State, steps: seq<Step>)
    decreases |steps|
  {
    steps == [] || (Enabled(s, steps[0]) && Legal(Apply(s, steps[0]), steps[1..]))
  }

  function Exec(s: State, steps: seq<Step>): State
    decreases |steps|
  {
    if steps == [] then s else Exec(Apply(s, steps[0]), steps[1..])
  }

  function IsLocked(s: State): bool {
    s.lock.Some?
  }

  predicate Holder(s: State, t: Id) {
    t in s.tickets && s.tickets[t].granted && !s.tickets[t].released
  }

  ghost predicate Inv(s: State) {
    && (forall t :: t in s.tickets && s.tickets[t].released ==> s.tickets[t].granted)
    && (forall t :: t in s.tickets && s.tickets[t].prev.Some? ==>
          s.tickets[t].prev.value in s.tickets && s.tickets[t].prev.value < t)
    && (forall t, u :: t in s.tickets && u in s.tickets && u < t ==> Ahead(s, u, t))
    && (match s.lock
        case None => forall t :: t in s.tickets ==> s.tickets[t].released
        case Some(l) => l in s.tickets && !s.tickets[l].released && forall t :: t in s.tickets ==> t <= l)
  }

  /** Of two tickets the earlier is released before the later is granted; until then
      the later waits for it or for one in between. */
  ghost predicate Ahead(s: State, u: Id, t: Id)
    requires u in s.tickets && t in s.tickets
  {
    || s.tickets[u].released
    || (!s.tickets[t].granted && s.tickets[t].prev.Some? && u <= s.tickets[t].prev.value)
  }

  lemma StepKeepsInv(s: State, step: Step)
    requires Inv(s) && Enabled(s, step)
    ensures Inv(Apply(s, step))
  {
    var s' := Apply(s, step);
    match step
    case Acquire(id) =>
      forall t, u | t in s'.tickets && u in s'.tickets && u < t ensures Ahead(s', u, t) {
        if t != id { assert Ahead(s, u, t); }
      }
    case Grant(id) =>
      forall t, u | t in s'.tickets && u in s'.tickets && u < t ensures Ahead(s', u, t) {
        assert Ahead(s, u, t);
        assert s.tickets[t].prev.Some? && u < s.tickets[t].prev.value ==> Ahead(s, u, s.tickets[t].prev.value);
      }
    case Release(id) =>
      forall t, u | t in s'.tickets && u in s'.tickets && u < t ensures Ahead(s', u, t) {
        assert Ahead(s, u, t);
      }
      forall t | t in s'.tickets && s.lock == Some(id) ensures s'.tickets[t].released {
        if t < id { assert Ahead(s, t, id); }
      }
  }

  lemma {:induction false} RunKeepsInv(s: State, steps: seq<Step>)
    requires Inv(s) && Legal(s, steps)
    ensures Inv(Exec(s, steps))
    decreases |steps|
  {
    if steps == [] {
    } else {
      StepKeepsInv(s, steps[0]);
      RunKeepsInv(Apply(s, steps[0]), steps[1..]);
    }
  }

  /** In every reachable state: at most one holder; tickets are granted in the order
      they were taken, each only after all earlier ones are released; the mutex reads
      as locked exactly while some ticket is unreleased; and a second release does
      nothing. */
  lemma MutualExclusion(steps: seq<Step>)
    requires Legal(INIT, steps)
    ensures var s := Exec(INIT, steps);
            && (forall t, u :: Holder(s, t) && Holder(s, u) ==> t == u)
            && (forall t, u :: t in s.tickets && u in s.tickets && u < t && s.tickets[t].granted ==>
                  s.tickets[u].released)
            && (IsLocked(s) <==> exists t :: t in s.tickets && !s.tickets[t].released)
            && (forall t :: t in s.tickets && s.tickets[t].released ==> Apply(s, Release(t)) == s)
  {
    RunKeepsInv(INIT, steps);
    var s := Exec(INIT, steps);
    forall t, u | t in s.tickets && u in s.tickets && u < t && s.tickets[t].granted ensures s.tickets[u].released {
      assert Ahead(s, u, t);
    }
  }

  /** Steps still to be made by the tickets up to `t`: grants and first releases. */
  ghost function Work(s: State, t: Id): nat {
    |Ungranted(s, t)| + |Unreleased(s, t)|
  }

  ghost function Ungranted(s: State, t: Id): set<Id> {
    set u | u in s.tickets && u <= t && !s.tickets[u].granted
  }

  ghost function Unreleased(s: State, t: Id): set<Id> {
    set u | u in s.tickets && u <= t && !s.tickets[u].released
  }

  /** A grant, or a release that is not a repetition, of a ticket up to `t`. */
  ghost predicate Moves(s: State, step: Step, t: Id) {
    match step
    case Acquire(id) => false
    case Grant(id) => id <= t
    case Release(id) => id <= t && id in s.tickets && !s.tickets[id].released
  }

  /** Moves use up the work of a waiter by one; nothing else touches it. */
  lemma WorkShrinks(s: State, step: Step, t: Id)
    requires Enabled(s, step) && t in s.tickets
    ensures Work(Apply(s, step), t) == Work(s, t) - (if Moves(s, step, t) then 1 else 0)
  {
    var s' := Apply(s, step);
    match step
    case Acquire(id) =>
      assert Ungranted(s', t) == Ungranted(s, t) && Unreleased(s', t) == Unreleased(s, t);
    case Grant(id) => GrantShrinks(s, id, t);
    case Release(id) => ReleaseShrinks(s, id, t);
  }

  lemma GrantShrinks(s: State, id: Id, t: Id)
    requires Enabled(s, Grant(id)) && t in s.tickets
    ensures Work(Apply(s, Grant(id)), t) == Work(s, t) - (if id <= t then 1 else 0)
  {
    var s' := Apply(s, Grant(id));
    assert Unreleased(s', t) == Unreleased(s, t);
    assert Ungranted(s', t) == Ungranted(s, t) - if id <= t then {id} else {};
  }

  lemma ReleaseShrinks(s: State, id: Id, t: Id)
    requires Enabled(s, Release(id)) && t in s.tickets
    ensures Work(Apply(s, Release(id)), t) == Work(s, t) - (if Moves(s, Release(id), t) then 1 else 0)
  {
    var s' := Apply(s, Release(id));
    assert Ungranted(s', t) == Ungranted(s, t);
    assert Unreleased(s', t) == Unreleased(s, t) - if id <= t then {id} else {};
  }

  /** While a ticket waits, some move of a ticket up to it is possible: the holder
      ahead can release, or the first waiter can be granted. */
  lemma WaiterHasMove(s: State, t: Id) returns (step: Step)
    requires Inv(s) && t in s.tickets && !s.tickets[t].granted
    ensures Enabled(s, step) && Moves(s, step, t)
  {
    var u := FirstUnreleased(s, t);
    step := if s.tickets[u].granted then Release(u) else Grant(u);
  }

  lemma {:induction false} FirstUnreleased(s: State, t: Id) returns (u: Id)
    requires t in s.tickets && !s.tickets[t].released
    ensures u in s.tickets && u <= t && !s.tickets[u].released
    ensures forall v :: v in s.tickets && v < u ==> s.tickets[v].released
  {
    if v :| v in s.tickets && v < t && !s.tickets[v].released {
      u := FirstUnreleased(s, v);
    } else {
      u := t;
    }
  }

  ghost function MovesIn(s: State, steps: seq<Step>, t: Id): nat
    decreases |steps|
  {
    if steps == [] then 0
    else (if Moves(s, steps[0], t) then 1 else 0) + MovesIn(Apply(s, steps[0]), steps[1..], t)
  }

  lemma {:induction false} RunUsesWork(s: State, steps: seq<Step>, t: Id)
    requires Legal(s, steps) && t in s.tickets
    ensures t in Exec(s, steps).tickets
    ensures MovesIn(s, steps, t) + Work(Exec(s, steps), t) == Work(s, t)
    decreases |steps|
  {
    if steps == [] {
    } else {
      WorkShrinks(s, steps[0], t);
      RunUsesWork(Apply(s, steps[0]), steps[1..], t);
    }
  }

  /** Every waiter is granted if holders release: from any reachable state, a run in
      which the tickets up to `t` make as many moves as their work ends with `t`
      granted, it can make no more, and until `t` is granted one more is possible. */
  lemma WaiterIsGranted(s: State, steps: seq<Step>, t: Id)
    requires Inv(s) && Legal(s, steps) && t in s.tickets
    ensures t in Exec(s, steps).tickets && MovesIn(s, steps, t) <= Work(s, t)
    ensures MovesIn(s, steps, t) == Work(s, t) ==> Exec(s, steps).tickets[t].granted
    ensures !Exec(s, steps).tickets[t].granted ==>
              exists step :: Enabled(Exec(s, steps), step) && Moves(Exec(s, steps), step, t)
  {
    RunUsesWork(s, steps, t);
    RunKeepsInv(s, steps);
    var s' := Exec(s, steps);
    if !s'.tickets[t].granted {
      assert t in Ungranted(s', t);
      var step := WaiterHasMove(s', t);
    }
  }

  /** The object: its lock, and the tickets its promises and closures stand for. */
  class Mutex {
    var lock: Option<Id>
    var tickets: map<Id, Ticket>
    var next: Id

    ghost function Now(): State
      reads this
    {
      State(tickets, lock)
    }

    ghost predicate Valid()
      reads this
    {
      Inv(Now()) && forall t :: t in tickets ==> t < next
    }

    constructor ()
      ensures Now() == INIT && Valid()
    {
      lock, tickets, next := None, map[], 0;
    }

    /** True exactly while some ticket is not released. */
    method Locked() returns (r: bool)
      requires Valid()
      ensures r <==> exists t :: t in tickets && !tickets[t].released
    {
      r := lock.Some?;
    }

    method AcquireQueued() returns (id: Id)
      requires Valid()
      modifies this
      ensures Valid() && old(Enabled(Now(), Acquire(id))) && Now() == Apply(old(Now()), Acquire(id))
    {
      id := next;
      StepKeepsInv(Now(), Acquire(id));
      tickets := tickets[id := Ticket(lock, false, false)];
      lock := Some(id);
      next := next + 1;
    }

    /** The microtask of ticket `id`. */
    method HandOut(id: Id)
      requires Valid() && Enabled(Now(), Grant(id))
      modifies this`tickets
      ensures Valid() && Now() == Apply(old(Now()), Grant(id))
    {
      StepKeepsInv(Now(), Grant(id));
      tickets := tickets[id := tickets[id].(granted := true)];
    }

    /** The closure returned to the holder of ticket `id`. */
    method ReleaseTicket(id: Id)
      requires Valid() && Enabled(Now(), Release(id))
      modifies this
      ensures Valid() && Now() == Apply(old(Now()), Release(id))
    {
      StepKeepsInv(Now(), Release(id));
      if lock == Some(id) { lock := None; }
      tickets := tickets[id := tickets[id].(released := true)];
    }
  }
}
