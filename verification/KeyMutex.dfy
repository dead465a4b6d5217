/** The keyed mutex: one object mapping each key to its current lock.  It behaves as
    a family of independent simple mutexes. */
module KeyMutex {
  import opened Mutex
  import opened Wrappers

  type Key = string

  datatype KeyTicket = KeyTicket(key: Key, ticket: Ticket)

  /** A key without entry stands for `undefined`, its lock having been cleared. */
  datatype KeyState = KeyState(tickets: map<Id, KeyTicket>, locks: map<Key, Id>)

  datatype KeyStep = KeyStep(key: Key, step: Step)

  const KEY_INIT := KeyState(map[], map[])

  function LockOf(s: KeyState, key: Key): Option<Id> {
    if key in s.locks then Some(s.locks[key]) else None
  }

  predicate KeySettled(s: KeyState, prev: Option<Id>) {
    prev.Some? ==> prev.value in s.tickets && s.tickets[prev.value].ticket.released
  }

  ghost predicate KeyEnabled(s: KeyState, k: KeyStep) {
    match k.step
    case Acquire(id) => forall u :: u in s.tickets ==> u < id
    case Grant(id) =>
      && id in s.tickets && s.tickets[id].key == k.key
      && !s.tickets[id].ticket.granted && KeySettled(s, s.tickets[id].ticket.prev)
    case Release(id) => id in s.tickets && s.tickets[id].key == k.key && s.tickets[id].ticket.granted
  }

  function KeyApply(s: KeyState, k: KeyStep): KeyState {
    match k.step
    case Acquire(id) =>
      KeyState(s.tickets[id := KeyTicket(k.key, Ticket(LockOf(s, k.key), false, false))], s.locks[k.key := id])
    case Grant(id) =>
      if id in s.tickets then
        s.(tickets := s.tickets[id := s.tickets[id].(ticket := s.tickets[id].ticket.(granted := true))])
      else s
    case Release(id) =>
      if id in s.tickets then
        KeyState(s.tickets[id := s.tickets[id].(ticket := s.tickets[id].ticket.(released := true))],
                 if LockOf(s, k.key) == Some(id) then s.locks - {k.key} else s.locks)
      else s
  }

  ghost predicate KeyLegal(s: KeyState, steps: seq<KeyStep>)
    decreases |steps|
  {
    steps == [] || (KeyEnabled(s, steps[0]) && KeyLegal(KeyApply(s, steps[0]), steps[1..]))
  }

  function KeyExec(s: KeyState, steps: seq<KeyStep>): KeyState
    decreases |steps|
  {
    if steps == [] then s else KeyExec(KeyApply(s, steps[0]), steps[1..])
  }

  /** The simple mutex of one key. */
  ghost function At(s: KeyState, key: Key): State {
    State(map t | t in s.tickets && s.tickets[t].key == key :: s.tickets[t].ticket, LockOf(s, key))
  }

  /** The steps of one key, in order. */
  function StepsOf(steps: seq<KeyStep>, key: Key): seq<Step> {
    if steps == [] then []
    else (if steps[0].key == key then [steps[0].step] else []) + StepsOf(steps[1..], key)
  }

  /** Waiting is within one key. */
  ghost predicate KeyInv(s: KeyState) {
    && (forall key :: Inv(At(s, key)))
    && (forall t :: t in s.tickets && s.tickets[t].ticket.prev.Some? ==>
          var prev := s.tickets[t].ticket.prev.value;
          prev in s.tickets && s.tickets[prev].key == s.tickets[t].key)
  }

  /** A step of the keyed mutex is that step of its key's simple mutex, ... */
  lemma OwnStepRefines(s: KeyState, k: KeyStep)
    requires KeyInv(s) && KeyEnabled(s, k)
    ensures Enabled(At(s, k.key), k.step)
    ensures At(KeyApply(s, k), k.key) == Apply(At(s, k.key), k.step)
  {
    var s', a := KeyApply(s, k), At(s, k.key);
    match k.step
    case Acquire(id) =>
      assert At(s', k.key).tickets == Apply(a, k.step).tickets;
    case Grant(id) =>
      if s.tickets[id].ticket.prev.Some? { assert s.tickets[id].ticket.prev.value in a.tickets; }
      assert At(s', k.key).tickets == Apply(a, k.step).tickets;
    case Release(id) =>
      assert At(s', k.key).tickets == Apply(a, k.step).tickets;
  }

  /** ... and no step at all of any other. */
  lemma OtherStepStutters(s: KeyState, k: KeyStep, key: Key)
    requires KeyEnabled(s, k) && k.key != key
    ensures At(KeyApply(s, k), key) == At(s, key)
  {
    assert k.step.Acquire? ==> k.step.id !in s.tickets;
    assert At(KeyApply(s, k), key).tickets == At(s, key).tickets;
  }

  lemma StepKeepsKeyInv(s: KeyState, k: KeyStep)
    requires KeyInv(s) && KeyEnabled(s, k)
    ensures KeyInv(KeyApply(s, k))
  {
    forall key ensures Inv(At(KeyApply(s, k), key)) {
      if k.key == key {
        OwnStepRefines(s, k);
        StepKeepsInv(At(s, key), k.step);
      } else {
        OtherStepStutters(s, k, key);
      }
    }
    if k.step.Acquire? && k.key in s.locks {
      assert Inv(At(s, k.key));
      assert s.locks[k.key] in At(s, k.key).tickets;
    }
  }

  lemma {:induction false} RunRefines(s: KeyState, steps: seq<KeyStep>, key: Key)
    requires KeyInv(s) && KeyLegal(s, steps)
    ensures KeyInv(KeyExec(s, steps))
    ensures Legal(At(s, key), StepsOf(steps, key))
    ensures At(KeyExec(s, steps), key) == Exec(At(s, key), StepsOf(steps, key))
    decreases |steps|
  {
    if steps == [] {
    } else {
      if steps[0].key == key { OwnStepRefines(s, steps[0]); } else { OtherStepStutters(s, steps[0], key); }
      StepKeepsKeyInv(s, steps[0]);
      RunRefines(KeyApply(s, steps[0]), steps[1..], key);
      if steps[0].key == key {
        assert StepsOf(steps, key)[1..] == StepsOf(steps[1..], key);
      } else {
        assert StepsOf(steps, key) == StepsOf(steps[1..], key);
      }
    }
  }

  /** Every run of the keyed mutex is, for every key, exactly the run of a simple
      mutex on the steps of that key alone. */
  lemma FamilyOfMutexes(steps: seq<KeyStep>, key: Key)
    requires KeyLegal(KEY_INIT, steps)
    ensures Legal(INIT, StepsOf(steps, key))
    ensures At(KeyExec(KEY_INIT, steps), key) == Exec(INIT, StepsOf(steps, key))
  {
    InitIsInv();
    assert At(KEY_INIT, key).tickets == map[];
    RunRefines(KEY_INIT, steps, key);
  }

  predicate KeyHolder(s: KeyState, t: Id) {
    t in s.tickets && s.tickets[t].ticket.granted && !s.tickets[t].ticket.released
  }

  predicate SameKey(s: KeyState, u: Id, t: Id, key: Key) {
    t in s.tickets && u in s.tickets && s.tickets[t].key == key && s.tickets[u].key == key
  }

  predicate Pending(s: KeyState, t: Id, key: Key) {
    t in s.tickets && s.tickets[t].key == key && !s.tickets[t].ticket.released
  }

  /** At most one holder per key, first come first served within a key, and a key
      reads as locked exactly while one of its tickets is unreleased. */
  lemma KeyMutualExclusion(steps: seq<KeyStep>, key: Key)
    requires KeyLegal(KEY_INIT, steps)
    ensures var s := KeyExec(KEY_INIT, steps);
            && (forall t, u :: KeyHolder(s, t) && KeyHolder(s, u) && SameKey(s, u, t, key) ==> t == u)
            && (forall t, u :: SameKey(s, u, t, key) && u < t && s.tickets[t].ticket.granted ==>
                  s.tickets[u].ticket.released)
            && (LockOf(s, key).Some? <==> exists t :: Pending(s, t, key))
  {
    FamilyOfMutexes(steps, key);
    MutualExclusion(StepsOf(steps, key));
    var s := KeyExec(KEY_INIT, steps);
    var a := At(s, key);
    forall t, u | KeyHolder(s, t) && KeyHolder(s, u) && SameKey(s, u, t, key) ensures t == u {
      assert Holder(a, t) && Holder(a, u);
    }
    forall t, u | SameKey(s, u, t, key) && u < t && s.tickets[t].ticket.granted ensures s.tickets[u].ticket.released
    {
      assert t in a.tickets && u in a.tickets && a.tickets[t].granted;
    }
    InitIsInv();
    RunRefines(KEY_INIT, steps, key);
    LockedIff(s, key);
  }

  lemma InitIsInv()
    ensures KeyInv(KEY_INIT)
  {
    forall k ensures At(KEY_INIT, k) == INIT { assert At(KEY_INIT, k).tickets == map[]; }
  }

  /** A key has a lock exactly while one of its tickets is not released. */
  lemma LockedIff(s: KeyState, key: Key)
    requires KeyInv(s)
    ensures LockOf(s, key).Some? <==> exists t :: Pending(s, t, key)
  {
    var a := At(s, key);
    assert Inv(a);
    if LockOf(s, key).Some? {
      assert s.locks[key] in a.tickets;
      assert Pending(s, s.locks[key], key);
    } else {
      forall t | t in s.tickets && s.tickets[t].key == key ensures s.tickets[t].ticket.released {
        assert t in a.tickets;
      }
    }
  }

  class KeyMutex {
    var locks: map<Key, Id>
    var tickets: map<Id, KeyTicket>
    var next: Id

    ghost function Now(): KeyState
      reads this
    {
      KeyState(tickets, locks)
    }

    ghost predicate Valid()
      reads this
    {
      KeyInv(Now()) && forall t :: t in tickets ==> t < next
    }

    constructor ()
      ensures Now() == KEY_INIT && Valid()
    {
      locks, tickets, next := map[], map[], 0;
      InitIsInv();
    }

    /** True exactly while some ticket of the key is not released. */
    method IsLocked(key: Key) returns (r: bool)
      requires Valid()
      ensures r <==> exists t :: Pending(Now(), t, key)
    {
      LockedIff(Now(), key);
      r := key in locks;
    }

    method AcquireQueued(key: Key) returns (id: Id)
      requires Valid()
      modifies this
      ensures Valid() && old(KeyEnabled(Now(), KeyStep(key, Acquire(id))))
      ensures Now() == KeyApply(old(Now()), KeyStep(key, Acquire(id)))
    {
      id := next;
      StepKeepsKeyInv(Now(), KeyStep(key, Acquire(id)));
      var prev := if key in locks then Some(locks[key]) else None;
      tickets := tickets[id := KeyTicket(key, Ticket(prev, false, false))];
      locks := locks[key := id];
      next := next + 1;
    }

    method HandOut(key: Key, id: Id)
      requires Valid() && KeyEnabled(Now(), KeyStep(key, Grant(id)))
      modifies this`tickets
      ensures Valid() && Now() == KeyApply(old(Now()), KeyStep(key, Grant(id)))
    {
      StepKeepsKeyInv(Now(), KeyStep(key, Grant(id)));
      tickets := tickets[id := tickets[id].(ticket := tickets[id].ticket.(granted := true))];
    }

    method ReleaseTicket(key: Key, id: Id)
      requires Valid() && KeyEnabled(Now(), KeyStep(key, Release(id)))
      modifies this
      ensures Valid() && Now() == KeyApply(old(Now()), KeyStep(key, Release(id)))
    {
      StepKeepsKeyInv(Now(), KeyStep(key, Release(id)));
      if key in locks && locks[key] == id { locks := locks - {key}; }
      tickets := tickets[id := tickets[id].(ticket := tickets[id].ticket.(released := true))];
    }
  }
}
