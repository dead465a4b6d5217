/** Nonce allocation over all interleavings, split at its one await: a request that
    finds no entry asks the provider, and sets and increments the entry when the
    answer arrives.  Each request is made by the holder of some mutex ticket, and a
    holder awaits its request before it releases. */
module Nonce {
  import opened Mutex
  import opened KeyMutex
  import opened Wrappers

  type Sender = Key

  /** `waiting` are the tickets whose request is at its await; `issued` is the record
      of the nonces handed to each sender, in order. */
  datatype World = World(
    mutex: KeyState,
    nonceMap: map<Sender, nat>,
    waiting: set<Id>,
    issued: map<Sender, seq<nat>>)

  datatype Event =
    | Lock(step: KeyStep)
    | Request(sender: Sender, ticket: Id)
    | Respond(sender: Sender, ticket: Id, count: nat)

  const START := World(KEY_INIT, map[], {}, map[])

  function Issued(w: World, s: Sender): seq<nat> {
    if s in w.issued then w.issued[s] else []
  }

  /** `getAndIncrementTransactionCount` from its set entry on: hand out, increment. */
  function HandOutNonce(w: World, s: Sender, n: nat): World {
    w.(nonceMap := w.nonceMap[s := n + 1], issued := w.issued[s := Issued(w, s) + [n]])
  }

  /** A sender's ticket, when `locked`, must hold that sender's lock. */
  ghost predicate CanHappen(locked: bool, w: World, e: Event) {
    match e
    case Lock(k) =>
      && KeyEnabled(w.mutex, k)
      && (k.step.Release? && !w.mutex.tickets[k.step.id].ticket.released ==> k.step.id !in w.waiting)
    case Request(s, t) =>
      t !in w.waiting && (locked ==> KeyHolder(w.mutex, t) && w.mutex.tickets[t].key == s)
    case Respond(s, t, count) =>
      t in w.waiting && (locked ==> t in w.mutex.tickets && w.mutex.tickets[t].key == s)
  }

  function Happen(w: World, e: Event): World {
    match e
    case Lock(k) => w.(mutex := KeyApply(w.mutex, k))
    case Request(s, t) =>
      if s in w.nonceMap then HandOutNonce(w, s, w.nonceMap[s]) else w.(waiting := w.waiting + {t})
    case Respond(s, t, count) => HandOutNonce(w.(waiting := w.waiting - {t}), s, count)
  }

  ghost predicate Possible(locked: bool, w: World, events: seq<Event>)
    decreases |events|
  {
    events == [] || (CanHappen(locked, w, events[0]) && Possible(locked, Happen(w, events[0]), events[1..]))
  }

  function After(w: World, events: seq<Event>): World
    decreases |events|
  {
    if events == [] then w else After(Happen(w, events[0]), events[1..])
  }

  ghost predicate Consecutive(ns: seq<nat>) {
    forall i :: 0 <= i < |ns| ==> ns[i] == ns[0] + i
  }

  ghost predicate WorldInv(w: World) {
    && KeyInv(w.mutex)
    && (forall t :: t in w.waiting ==> KeyHolder(w.mutex, t) && w.mutex.tickets[t].key !in w.nonceMap)
    && (forall s :: SenderInv(w, s))
  }

  /** No entry, no nonce yet; else consecutive nonces, the entry being the next. */
  ghost predicate SenderInv(w: World, s: Sender) {
    if s in w.nonceMap then
      var ns := Issued(w, s);
      ns != [] && Consecutive(ns) && w.nonceMap[s] == ns[0] + |ns|
    else Issued(w, s) == []
  }

  lemma OneHolderPerKey(m: KeyState, t: Id, u: Id)
    requires KeyInv(m) && KeyHolder(m, t) && KeyHolder(m, u) && m.tickets[t].key == m.tickets[u].key
    ensures t == u
  {
    var a := At(m, m.tickets[t].key);
    assert Inv(a) && t in a.tickets && u in a.tickets;
    assert t < u ==> Ahead(a, t, u);
    assert u < t ==> Ahead(a, u, t);
  }

  lemma HandOutKeepsSenders(w: World, s: Sender, n: nat)
    requires forall x :: SenderInv(w, x)
    requires s in w.nonceMap ==> n == w.nonceMap[s]
    ensures forall x :: SenderInv(HandOutNonce(w, s, n), x)
  {
    var w' := HandOutNonce(w, s, n);
    forall x ensures SenderInv(w', x) {
      assert SenderInv(w, x);
      if x == s { assert Issued(w', s) == Issued(w, s) + [n]; }
    }
  }

  lemma EventKeepsInv(w: World, e: Event)
    requires WorldInv(w) && CanHappen(true, w, e)
    ensures WorldInv(Happen(w, e))
  {
    match e
    case Lock(k) =>
      StepKeepsKeyInv(w.mutex, k);
      forall s ensures SenderInv(Happen(w, e), s) { assert SenderInv(w, s); }
    case Request(s, t) =>
      if s in w.nonceMap {
        HandOutKeepsSenders(w, s, w.nonceMap[s]);
      } else {
        forall x ensures SenderInv(Happen(w, e), x) { assert SenderInv(w, x); }
      }
    case Respond(s, t, count) =>
      var w1 := w.(waiting := w.waiting - {t});
      forall x ensures SenderInv(w1, x) { assert SenderInv(w, x); }
      HandOutKeepsSenders(w1, s, count);
      forall u | u in w1.waiting ensures w.mutex.tickets[u].key != s {
        if w.mutex.tickets[u].key == s { OneHolderPerKey(w.mutex, t, u); }
      }
  }

  lemma {:induction false} RunKeepsWorldInv(w: World, events: seq<Event>)
    requires WorldInv(w) && Possible(true, w, events)
    ensures WorldInv(After(w, events))
    decreases |events|
  {
    if events == [] {
    } else {
      EventKeepsInv(w, events[0]);
      RunKeepsWorldInv(Happen(w, events[0]), events[1..]);
    }
  }

  lemma StartInv()
    ensures WorldInv(START)
  {
    InitIsInv();
    forall s ensures SenderInv(START, s) {}
  }

  /** With requests made under the sender's lock, each sender's nonces are consecutive
      and never repeat, whatever the interleaving and whatever counts the provider
      answers. */
  lemma NoncesConsecutive(events: seq<Event>, s: Sender)
    requires Possible(true, START, events)
    ensures Consecutive(Issued(After(START, events), s))
    ensures var ns := Issued(After(START, events), s); forall i, j :: 0 <= i < j < |ns| ==> ns[i] != ns[j]
  {
    StartInv();
    RunKeepsWorldInv(START, events);
    assert SenderInv(After(START, events), s);
  }

  /** The first nonce of a sender. */
  ghost predicate FirstCount(events: seq<Event>, s: Sender, n: nat) {
    exists t :: Respond(s, t, n) in events
  }

  lemma {:induction false} FirstNonceFrom(w: World, events: seq<Event>, s: Sender)
    requires WorldInv(w) && Possible(true, w, events)
    requires Issued(After(w, events), s) != []
    ensures if Issued(w, s) != [] then Issued(After(w, events), s)[0] == Issued(w, s)[0]
            else FirstCount(events, s, Issued(After(w, events), s)[0])
    decreases |events|
  {
    if events == [] {
    } else {
      EventKeepsInv(w, events[0]);
      FirstNonceFrom(Happen(w, events[0]), events[1..], s);
      assert SenderInv(w, s);
      assert events == [events[0]] + events[1..];
      var n := Issued(After(w, events), s)[0];
      if Issued(w, s) == [] && Issued(Happen(w, events[0]), s) == [] {
        var t :| Respond(s, t, n) in events[1..];
        assert Respond(s, t, n) in events;
      }
    }
  }

  /** A sender's nonces start from a count the provider answered for that sender. */
  lemma NoncesStartAtProviderCount(events: seq<Event>, s: Sender)
    requires Possible(true, START, events) && Issued(After(START, events), s) != []
    ensures FirstCount(events, s, Issued(After(START, events), s)[0])
  {
    StartInv();
    FirstNonceFrom(START, events, s);
  }

  /** Without the lock two requests can both pass the check before either sets the
      entry, and the same nonce is handed out twice. */
  lemma UnlockedNoncesRepeat(s: Sender, n: nat)
    ensures exists events :: Possible(false, START, events) && Issued(After(START, events), s) == [n, n]
  {
    var e1, e2, e3, e4 := Request(s, 0), Request(s, 1), Respond(s, 0, n), Respond(s, 1, n);
    var w1 := Happen(START, e1);
    var w2 := Happen(w1, e2);
    var w3 := Happen(w2, e3);
    var w4 := Happen(w3, e4);
    assert Issued(w4, s) == [n, n];
    assert [e4][1..] == [] && [e3, e4][1..] == [e4] && [e2, e3, e4][1..] == [e3, e4];
    assert [e1, e2, e3, e4][1..] == [e2, e3, e4];
    assert After(w3, [e4]) == w4 && Possible(false, w3, [e4]);
    assert After(w2, [e3, e4]) == w4 && Possible(false, w2, [e3, e4]);
    assert After(w1, [e2, e3, e4]) == w4 && Possible(false, w1, [e2, e3, e4]);
    assert After(START, [e1, e2, e3, e4]) == w4 && Possible(false, START, [e1, e2, e3, e4]);
  }

  /** The manager's map, with the method split at its await. */
  class TransactionManager {
    var nonceMap: map<Sender, nat>

    constructor ()
      ensures nonceMap == map[]
    {
      nonceMap := map[];
    }

    /** Up to the await: the nonce, if the sender has an entry. */
    method GetAndIncrement(s: Sender) returns (nonce: Option<nat>)
      modifies this
      ensures forall w: World, t :: w.nonceMap == old(nonceMap) ==> Happen(w, Request(s, t)).nonceMap == nonceMap
      ensures nonce == if s in old(nonceMap) then Some(old(nonceMap)[s]) else None
    {
      if s !in nonceMap { return None; }
      nonce := Some(nonceMap[s]);
      nonceMap := nonceMap[s := nonceMap[s] + 1];
    }

    /** From the await on. */
    method ResumeWithCount(s: Sender, count: nat) returns (nonce: nat)
      modifies this
      ensures forall w: World, t :: w.nonceMap == old(nonceMap) ==> Happen(w, Respond(s, t, count)).nonceMap == nonceMap
      ensures nonce == count
    {
      nonceMap := nonceMap[s := count];
      nonce := nonceMap[s];
      nonceMap := nonceMap[s := nonceMap[s] + 1];
    }
  }
}
