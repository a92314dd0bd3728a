/**
 The priority admission gate: permits, a queue of waiters, and the direct
 hand-off of a released permit to the first waiter.
 */
module Admission {
  import opened Bytes

  type Waker = nat

  datatype Priority = Low | Normal | High {
    function Rank(): nat {
      match this
      case Low => 0
      case Normal => 1
      case High => 2
    }
  }

  /** The place of a waiter in the queue. */
  datatype WaitKey = WaitKey(priority: Priority, seqNo: nat)

  /** The highest priority first, then arrival. */
  predicate Before(a: WaitKey, b: WaitKey) {
    a.priority.Rank() > b.priority.Rank() || (a.priority == b.priority && a.seqNo < b.seqNo)
  }

  lemma {:induction false} BeforeIsTotal(a: WaitKey, b: WaitKey)
    ensures Before(a, b) || a == b || Before(b, a)
    ensures !(Before(a, b) && Before(b, a)) && !Before(a, a)
  {
  }

  lemma {:induction false} BeforeIsTransitive(a: WaitKey, b: WaitKey, c: WaitKey)
    requires Before(a, b) && Before(b, c)
    ensures Before(a, c)
  {
  }

  ghost predicate IsFirst(k: WaitKey, keys: set<WaitKey>) {
    k in keys && forall q :: q in keys ==> q == k || Before(k, q)
  }

  lemma {:induction false} FirstExists(keys: set<WaitKey>) returns (k: WaitKey)
    requires keys != {}
    ensures IsFirst(k, keys)
  {
    var x :| x in keys;
    var rest := keys - {x};
    if rest == {} {
      k := x;
      assert keys == {x};
    } else {
      var y := FirstExists(rest);
      BeforeIsTotal(x, y);
      k := if Before(x, y) then x else y;
      forall q | q in keys
        ensures q == k || Before(k, q)
      {
        if q != x && k == x && q != y {
          BeforeIsTransitive(x, y, q);
        }
      }
    }
  }

  lemma {:induction false} FirstIsUnique(a: WaitKey, b: WaitKey, keys: set<WaitKey>)
    requires IsFirst(a, keys) && IsFirst(b, keys)
    ensures a == b
  {
    BeforeIsTotal(a, b);
  }

  ghost function First(keys: set<WaitKey>): (k: WaitKey)
    requires keys != {}
    ensures IsFirst(k, keys)
  {
    assert exists k :: IsFirst(k, keys) by {
      var k := FirstExists(keys);
    }
    var k :| IsFirst(k, keys);
    k
  }

  // --- The steps under the lock -----------------------------------------------

  /** The queue and the count of free permits. */
  datatype State = State(free: nat, nextSeq: nat, waiting: map<WaitKey, Option<Waker>>, granted: set<WaitKey>)

  /** Releases one permit: to the first waiter, or to the free count. */
  ghost function HandOff(s: State): (State, Option<Waker>) {
    if s.waiting.Keys == {} then (s.(free := s.free + 1), None)
    else
      var k := First(s.waiting.Keys);
      (s.(waiting := s.waiting - {k}, granted := s.granted + {k}), s.waiting[k])
  }

  /** The answer of a poll: the new state, the key of the future, and whether it has a permit. */
  datatype Polled = Polled(state: State, key: Option<WaitKey>, ready: bool)

  ghost function PollStep(s: State, priority: Priority, key: Option<WaitKey>, waker: Waker): Polled {
    match key
    case None =>
      if s.free > 0 then Polled(s.(free := s.free - 1), None, true)
      else
        var k := WaitKey(priority, s.nextSeq);
        Polled(s.(nextSeq := s.nextSeq + 1, waiting := s.waiting[k := Some(waker)]), Some(k), false)
    case Some(k) =>
      if k in s.granted then Polled(s.(granted := s.granted - {k}), None, true)
      else if k in s.waiting then Polled(s.(waiting := s.waiting[k := Some(waker)]), key, false)
      else Polled(s, key, false)
  }

  /** A future is dropped: it leaves the queue, and a permit it was given goes on. */
  ghost function AbandonStep(s: State, key: Option<WaitKey>): (State, Option<Waker>) {
    match key
    case None => (s, None)
    case Some(k) =>
      var left := s.(waiting := s.waiting - {k});
      if k in s.granted then HandOff(left.(granted := left.granted - {k})) else (left, None)
  }

  class Gate {
    var free: nat
    var nextSeq: nat
    var waiting: map<WaitKey, Option<Waker>>
    var granted: set<WaitKey>

    ghost function Now(): State
      reads this
    {
      State(free, nextSeq, waiting, granted)
    }

    constructor (limit: nat)
      ensures Now() == State(limit, 0, map[], {})
    {
      free, nextSeq, waiting, granted := limit, 0, map[], {};
    }

    /** The first key of the queue. */
    method FindFirst() returns (k: WaitKey)
      requires waiting.Keys != {}
      ensures k == First(waiting.Keys)
    {
      var rest := waiting.Keys;
      k :| k in rest;
      rest := rest - {k};
      while rest != {}
        invariant rest <= waiting.Keys && k in waiting
        invariant forall q :: q in waiting && q !in rest ==> q == k || Before(k, q)
        decreases |rest|
      {
        var q :| q in rest;
        BeforeIsTotal(k, q);
        if Before(q, k) {
          forall x | x in waiting && x !in rest && x != k
            ensures Before(q, x)
          {
            BeforeIsTransitive(q, k, x);
          }
          k := q;
        }
        rest := rest - {q};
      }
      FirstIsUnique(k, First(waiting.Keys), waiting.Keys);
    }

    method TakeHandOff() returns (waker: Option<Waker>)
      modifies this
      ensures (Now(), waker) == HandOff(old(Now()))
    {
      if waiting.Keys != {} {
        var k := FindFirst();
        waker := waiting[k];
        waiting := waiting - {k};
        granted := granted + {k};
      } else {
        free := free + 1;
        waker := None;
      }
    }

    /** The drop of a permit. The result is the waker to wake outside the lock. */
    method Release() returns (waker: Option<Waker>)
      modifies this
      ensures (Now(), waker) == HandOff(old(Now()))
    {
      waker := TakeHandOff();
    }
  }

  class Acquire {
    const gate: Gate
    const priority: Priority
    var key: Option<WaitKey>

    constructor (gate: Gate, priority: Priority)
      ensures this.gate == gate && this.priority == priority && key == None
    {
      this.gate, this.priority, key := gate, priority, None;
    }

    method Poll(waker: Waker) returns (ready: bool)
      modifies this, gate
      ensures Polled(gate.Now(), key, ready) == PollStep(old(gate.Now()), priority, old(key), waker)
    {
      match key
      case None =>
        if gate.free > 0 {
          gate.free := gate.free - 1;
          return true;
        }
        var k := WaitKey(priority, gate.nextSeq);
        gate.nextSeq := gate.nextSeq + 1;
        gate.waiting := gate.waiting[k := Some(waker)];
        key := Some(k);
        return false;
      case Some(k) =>
        if k in gate.granted {
          gate.granted := gate.granted - {k};
          key := None;
          return true;
        }
        if k in gate.waiting {
          gate.waiting := gate.waiting[k := Some(waker)];
        }
        return false;
    }

    method Drop() returns (waker: Option<Waker>)
      modifies gate
      ensures (gate.Now(), waker) == AbandonStep(old(gate.Now()), key)
    {
      waker := None;
      if key.Some? {
        gate.waiting := gate.waiting - {key.value};
        if key.value in gate.granted {
          gate.granted := gate.granted - {key.value};
          waker := gate.TakeHandOff();
        }
      }
    }
  }

  // --- Runs -------------------------------------------------------------------

  /** A future that is not dropped yet, with the waker of its last poll. */
  datatype Future = Future(priority: Priority, key: Option<WaitKey>, waker: Option<Waker>)

  /** The gate with all its futures and permits, and the wakes so far. */
  datatype World = World(limit: nat, gate: State, futures: map<nat, Future>, permits: nat, woken: seq<Waker>)

  datatype Event =
    | Create(id: nat, priority: Priority)
    | Poll(id: nat, waker: Waker)
    | Abandon(id: nat)
    | Release

  function Fresh(limit: nat): World {
    World(limit, State(limit, 0, map[], {}), map[], 0, [])
  }

  predicate Enabled(w: World, ev: Event) {
    match ev
    case Create(id, _) => id !in w.futures
    case Poll(id, _) => id in w.futures
    case Abandon(id) => id in w.futures
    case Release => w.permits > 0
  }

  function Wake(woken: seq<Waker>, waker: Option<Waker>): seq<Waker> {
    match waker case None => woken case Some(k) => woken + [k]
  }

  ghost function Next(w: World, ev: Event): World
    requires Enabled(w, ev)
  {
    match ev
    case Create(id, priority) => w.(futures := w.futures[id := Future(priority, None, None)])
    case Poll(id, waker) =>
      var f := w.futures[id];
      var r := PollStep(w.gate, f.priority, f.key, waker);
      w.(gate := r.state, futures := w.futures[id := Future(f.priority, r.key, Some(waker))],
         permits := w.permits + (if r.ready then 1 else 0))
    case Abandon(id) =>
      var (s, waker) := AbandonStep(w.gate, w.futures[id].key);
      w.(gate := s, futures := w.futures - {id}, woken := Wake(w.woken, waker))
    case Release =>
      var (s, waker) := HandOff(w.gate);
      w.(gate := s, permits := w.permits - 1, woken := Wake(w.woken, waker))
  }

  /** The events lead from `w` to `v`. */
  ghost predicate Runs(w: World, evs: seq<Event>, v: World)
    decreases |evs|
  {
    if evs == [] then v == w else Enabled(w, evs[0]) && Runs(Next(w, evs[0]), evs[1..], v)
  }

  // --- The invariant ----------------------------------------------------------

  /** Every permit is free, given, or held; a free permit means an empty queue. */
  ghost predicate Conserved(w: World) {
    && w.gate.free + |w.gate.granted| + w.permits == w.limit
    && (w.gate.free > 0 ==> w.gate.waiting.Keys == {})
    && w.gate.waiting.Keys !! w.gate.granted
  }

  /** The key of a future is in the queue or given a permit, and a queued one keeps its last waker. */
  ghost predicate KeyOk(s: State, f: Future) {
    f.key.Some? ==>
      && f.key.value.priority == f.priority && f.key.value.seqNo < s.nextSeq
      && (f.key.value in s.waiting.Keys || f.key.value in s.granted)
      && (f.key.value in s.waiting.Keys ==> f.waker.Some? && s.waiting[f.key.value] == f.waker)
  }

  ghost predicate Owns(w: World, id: nat, k: WaitKey) {
    id in w.futures && w.futures[id].key == Some(k)
  }

  /** Each key has exactly one future. */
  ghost predicate Owned(w: World) {
    && (forall id :: id in w.futures ==> KeyOk(w.gate, w.futures[id]))
    && (forall k, a, b :: Owns(w, a, k) && Owns(w, b, k) ==> a == b)
    && (forall k :: k in w.gate.waiting.Keys || k in w.gate.granted ==> exists id :: Owns(w, id, k))
  }

  ghost predicate Inv(w: World) { Conserved(w) && Owned(w) }

  lemma {:induction false} FreshInv(limit: nat)
    ensures Inv(Fresh(limit))
  {
  }

  lemma {:induction false} HandOffConserves(s: State)
    requires s.waiting.Keys !! s.granted && (s.free > 0 ==> s.waiting.Keys == {})
    ensures var t := HandOff(s).0;
            && t.free + |t.granted| == s.free + |s.granted| + 1
            && (t.free > 0 ==> t.waiting.Keys == {}) && t.waiting.Keys !! t.granted
            && t.waiting.Keys + t.granted == s.waiting.Keys + s.granted
            && t.nextSeq == s.nextSeq
            && forall k :: k in t.waiting ==> k in s.waiting && t.waiting[k] == s.waiting[k]
  {
    if s.waiting.Keys != {} {
      HandOffMoves(s.waiting, s.granted, First(s.waiting.Keys));
    }
  }

  /** The first waiter leaves the queue and joins the granted keys. */
  lemma {:induction false} HandOffMoves(waiting: map<WaitKey, Option<Waker>>, granted: set<WaitKey>, k: WaitKey)
    requires k in waiting.Keys && waiting.Keys !! granted
    ensures (waiting - {k}).Keys == waiting.Keys - {k} && |granted + {k}| == |granted| + 1
    ensures (waiting.Keys - {k}) !! (granted + {k}) && (waiting.Keys - {k}) + (granted + {k}) == waiting.Keys + granted
  {
  }

  lemma {:induction false} PollConserves(w: World, id: nat, waker: Waker)
    requires Inv(w) && id in w.futures
    ensures Conserved(Next(w, Poll(id, waker)))
  {
    var f, v := w.futures[id], Next(w, Poll(id, waker));
    assert KeyOk(w.gate, f);
    if f.key.None? && w.gate.free == 0 {
      var k := WaitKey(f.priority, w.gate.nextSeq);
      FreshKeyIsNew(w, f.priority);
      assert k !in w.gate.granted;
      assert v.gate.waiting.Keys == w.gate.waiting.Keys + {k};
    }
  }

  lemma {:induction false} PollOwns(w: World, id: nat, waker: Waker)
    requires Inv(w) && id in w.futures
    ensures Owned(Next(w, Poll(id, waker)))
  {
    var f, v := w.futures[id], Next(w, Poll(id, waker));
    assert KeyOk(w.gate, f);
    forall o | o in v.futures
      ensures KeyOk(v.gate, v.futures[o])
    {
      assert KeyOk(w.gate, w.futures[o]);
      if f.key.Some? && o != id && w.futures[o].key.Some? {
        assert Owns(w, id, f.key.value) && Owns(w, o, w.futures[o].key.value);
      }
    }
    forall k, a, b | Owns(v, a, k) && Owns(v, b, k)
      ensures a == b
    {
      FreshKeyIsNew(w, f.priority);
      if a != id {
        assert Owns(w, a, k);
      }
      if b != id {
        assert Owns(w, b, k);
      }
      if v.futures[id].key == f.key && f.key == Some(k) {
        assert Owns(w, id, k);
      }
    }
    forall k | k in v.gate.waiting.Keys || k in v.gate.granted
      ensures exists o :: Owns(v, o, k)
    {
      if k in w.gate.waiting.Keys || k in w.gate.granted {
        var o :| Owns(w, o, k);
        assert o == id || Owns(v, o, k);
        assert Owns(v, o, k);
      } else {
        assert Owns(v, id, k);
      }
    }
  }

  lemma {:induction false} FreshKeyIsNew(w: World, priority: Priority)
    requires Owned(w)
    ensures forall o :: !Owns(w, o, WaitKey(priority, w.gate.nextSeq))
  {
    forall o
      ensures !Owns(w, o, WaitKey(priority, w.gate.nextSeq))
    {
      if o in w.futures {
        assert KeyOk(w.gate, w.futures[o]);
      }
    }
  }

  lemma {:induction false} HandOffKeyOk(s: State, f: Future)
    requires KeyOk(s, f) && s.waiting.Keys !! s.granted && (s.free > 0 ==> s.waiting.Keys == {})
    ensures KeyOk(HandOff(s).0, f)
  {
    HandOffConserves(s);
  }

  /** The state after a future with key `k` left, before its permit goes on. */
  ghost function Leave(s: State, k: WaitKey): State {
    s.(waiting := s.waiting - {k}, granted := s.granted - {k})
  }

  /** The world without one of its futures, and with its permit, if it was given one, in the hand of nobody. */
  lemma {:induction false} LeaveOwns(w: World, id: nat, k: WaitKey)
    requires Inv(w) && Owns(w, id, k)
    ensures Owned(w.(gate := Leave(w.gate, k), futures := w.futures - {id}))
  {
    var v := w.(gate := Leave(w.gate, k), futures := w.futures - {id});
    forall o | o in v.futures
      ensures KeyOk(v.gate, v.futures[o])
    {
      assert KeyOk(w.gate, w.futures[o]);
      if w.futures[o].key == Some(k) {
        assert Owns(w, o, k);
      }
    }
    forall q, a, b | Owns(v, a, q) && Owns(v, b, q)
      ensures a == b
    {
      assert Owns(w, a, q) && Owns(w, b, q);
    }
    forall q | q in v.gate.waiting.Keys || q in v.gate.granted
      ensures exists o :: Owns(v, o, q)
    {
      var o :| Owns(w, o, q);
      assert Owns(v, o, q);
    }
  }

  lemma {:induction false} HandOffOwns(w: World, v: World)
    requires Owned(w) && w.gate.waiting.Keys !! w.gate.granted && (w.gate.free > 0 ==> w.gate.waiting.Keys == {})
    requires v.futures == w.futures && v.gate == HandOff(w.gate).0
    ensures Owned(v)
  {
    HandOffConserves(w.gate);
    forall id | id in v.futures
      ensures KeyOk(v.gate, v.futures[id])
    {
      assert KeyOk(w.gate, w.futures[id]);
      HandOffKeyOk(w.gate, w.futures[id]);
    }
    forall k, a, b | Owns(v, a, k) && Owns(v, b, k)
      ensures a == b
    {
      assert Owns(w, a, k) && Owns(w, b, k);
    }
    forall k | k in v.gate.waiting.Keys || k in v.gate.granted
      ensures exists id :: Owns(v, id, k)
    {
      assert k in w.gate.waiting.Keys + w.gate.granted;
      var id :| Owns(w, id, k);
      assert Owns(v, id, k);
    }
  }

  lemma {:induction false} ReleaseInv(w: World)
    requires Inv(w) && w.permits > 0
    ensures Inv(Next(w, Release))
  {
    HandOffConserves(w.gate);
    HandOffOwns(w, Next(w, Release));
  }

  lemma {:induction false} AbandonInv(w: World, id: nat)
    requires Inv(w) && id in w.futures
    ensures Inv(Next(w, Abandon(id)))
  {
    var f, v := w.futures[id], Next(w, Abandon(id));
    assert KeyOk(w.gate, f);
    if f.key.Some? {
      var k := f.key.value;
      var mid := w.(gate := Leave(w.gate, k), futures := w.futures - {id});
      assert Owns(w, id, k);
      LeaveOwns(w, id, k);
      if k in w.gate.granted {
        assert w.gate.(waiting := w.gate.waiting - {k}).(granted := w.gate.granted - {k}) == mid.gate;
        HandOffConserves(mid.gate);
        HandOffOwns(mid, v);
        assert |mid.gate.granted| == |w.gate.granted| - 1;
      } else {
        assert w.gate.granted - {k} == w.gate.granted;
        assert v.gate == mid.gate;
      }
    } else {
      DropKeyless(w, id, v);
    }
  }

  lemma {:induction false} DropKeyless(w: World, id: nat, v: World)
    requires Owned(w) && id in w.futures && w.futures[id].key.None?
    requires v.gate == w.gate && v.futures == w.futures - {id}
    ensures Owned(v)
  {
    forall k, a, b | Owns(v, a, k) && Owns(v, b, k)
      ensures a == b
    {
      assert Owns(w, a, k) && Owns(w, b, k);
    }
    forall k | k in v.gate.waiting.Keys || k in v.gate.granted
      ensures exists o :: Owns(v, o, k)
    {
      var o :| Owns(w, o, k);
      assert Owns(v, o, k);
    }
  }

  lemma {:induction false} CreateInv(w: World, id: nat, priority: Priority)
    requires Inv(w) && id !in w.futures
    ensures Inv(Next(w, Create(id, priority)))
  {
    var v := Next(w, Create(id, priority));
    forall k, a, b | Owns(v, a, k) && Owns(v, b, k)
      ensures a == b
    {
      assert Owns(w, a, k) && Owns(w, b, k);
    }
    forall k | k in v.gate.waiting.Keys || k in v.gate.granted
      ensures exists o :: Owns(v, o, k)
    {
      var o :| Owns(w, o, k);
      assert Owns(v, o, k);
    }
  }

  lemma {:induction false} StepInv(w: World, ev: Event)
    requires Inv(w) && Enabled(w, ev)
    ensures Inv(Next(w, ev)) && Next(w, ev).limit == w.limit
  {
    match ev
    case Create(id, priority) => CreateInv(w, id, priority);
    case Poll(id, waker) =>
      PollConserves(w, id, waker);
      PollOwns(w, id, waker);
    case Abandon(id) => AbandonInv(w, id);
    case Release => ReleaseInv(w);
  }

  /** Through every run: no permit is lost or made, and each queued key has one place and one future. */
  lemma {:induction false} RunInv(w: World, evs: seq<Event>, v: World)
    requires Inv(w) && Runs(w, evs, v)
    ensures Inv(v) && v.limit == w.limit
    decreases |evs|
  {
    if evs != [] {
      StepInv(w, evs[0]);
      RunInv(Next(w, evs[0]), evs[1..], v);
    }
  }

  // --- The order of service ---------------------------------------------------

  /** The keys that the step gives a permit. */
  ghost function NewlyGranted(w: World, ev: Event): set<WaitKey>
    requires Enabled(w, ev)
  {
    Next(w, ev).gate.granted - w.gate.granted
  }

  /** The step gives a permit to a future that was not in the queue. */
  ghost predicate TakesFree(w: World, ev: Event)
    requires Enabled(w, ev)
  {
    ev.Poll? && w.futures[ev.id].key.None? && Next(w, ev).permits > w.permits
  }

  /** The step gives up a permit: a held one, or one that a dropped waiter was given. */
  ghost predicate GivesUp(w: World, ev: Event)
    requires Enabled(w, ev)
  {
    ev.Release? || (ev.Abandon? && w.futures[ev.id].key.Some? && w.futures[ev.id].key.value in w.gate.granted)
  }

  /** The step puts a waiter into the queue ahead of `k`. */
  ghost predicate Arrives(w: World, ev: Event, k: WaitKey)
    requires Enabled(w, ev)
  {
    exists q :: q in Next(w, ev).gate.waiting && q !in w.gate.waiting && Before(q, k)
  }

  ghost function Ahead(w: World, k: WaitKey): set<WaitKey> {
    set q | q in w.gate.waiting.Keys && Before(q, k)
  }

  lemma {:induction false} HandOffOrder(s: State, k: WaitKey)
    requires s.waiting.Keys !! s.granted && k in s.waiting && k in HandOff(s).0.waiting
    ensures var t, first := HandOff(s).0, First(s.waiting.Keys);
            && Before(first, k) && first in s.waiting && first !in s.granted
            && t.waiting.Keys == s.waiting.Keys - {first} && t.granted == s.granted + {first}
            && t.free == s.free && HandOff(s).1 == s.waiting[first]
  {
  }

  /** What a step does while `k` waits: the permits it gives, and the queue ahead of `k`. */
  ghost predicate Fair(w: World, ev: Event, k: WaitKey)
    requires Enabled(w, ev)
  {
    && (forall g :: g in NewlyGranted(w, ev) ==> Before(g, k) && g in w.gate.waiting)
    && !TakesFree(w, ev)
    && (GivesUp(w, ev) ==> exists g :: NewlyGranted(w, ev) == {g})
    && |Ahead(Next(w, ev), k)| <= |Ahead(w, k)|
        + (if Arrives(w, ev, k) then 1 else 0) - (if GivesUp(w, ev) then 1 else 0)
  }

  lemma {:induction false} SmallerAhead(w: World, v: World, k: WaitKey)
    requires v.gate.waiting.Keys <= w.gate.waiting.Keys
    ensures |Ahead(v, k)| <= |Ahead(w, k)|
  {
    SubsetSize(Ahead(v, k), Ahead(w, k));
  }

  lemma {:induction false} SubsetSize<T>(a: set<T>, b: set<T>)
    requires a <= b
    ensures |a| <= |b|
  {
    assert b == a + (b - a);
  }

  lemma {:induction false} HandOffFair(s: State, w: World, v: World, k: WaitKey, first: WaitKey)
    requires s.waiting.Keys <= w.gate.waiting.Keys && first in s.waiting && Before(first, k)
    requires v.gate.waiting.Keys == s.waiting.Keys - {first}
    ensures |Ahead(v, k)| <= |Ahead(w, k)| - 1
  {
    assert Ahead(v, k) <= Ahead(w, k) - {first};
    SubsetSize(Ahead(v, k), Ahead(w, k) - {first});
  }

  lemma {:induction false} ReleaseFair(w: World, k: WaitKey)
    requires Inv(w) && w.permits > 0 && k in w.gate.waiting && k in Next(w, Release).gate.waiting
    ensures Fair(w, Release, k)
  {
    HandOffOrder(w.gate, k);
    var first := First(w.gate.waiting.Keys);
    assert NewlyGranted(w, Release) == {first};
    HandOffFair(w.gate, w, Next(w, Release), k, first);
  }

  lemma {:induction false} AbandonFair(w: World, id: nat, k: WaitKey)
    requires Inv(w) && id in w.futures && k in w.gate.waiting && k in Next(w, Abandon(id)).gate.waiting
    ensures Fair(w, Abandon(id), k)
  {
    var f, v := w.futures[id], Next(w, Abandon(id));
    if GivesUp(w, Abandon(id)) {
      var q := f.key.value;
      var s := w.gate.(waiting := w.gate.waiting - {q}, granted := w.gate.granted - {q});
      HandOffOrder(s, k);
      var first := First(s.waiting.Keys);
      assert NewlyGranted(w, Abandon(id)) == {first};
      HandOffFair(s, w, v, k, first);
    } else {
      SmallerAhead(w, v, k);
      assert NewlyGranted(w, Abandon(id)) == {};
    }
  }

  lemma {:induction false} PollFair(w: World, id: nat, waker: Waker, k: WaitKey)
    requires Inv(w) && id in w.futures && k in w.gate.waiting && k in Next(w, Poll(id, waker)).gate.waiting
    ensures Fair(w, Poll(id, waker), k)
  {
    var f, ev := w.futures[id], Poll(id, waker);
    var v := Next(w, ev);
    assert NewlyGranted(w, ev) == {};
    if f.key.None? {
      var q := WaitKey(f.priority, w.gate.nextSeq);
      FreshKeyIsNew(w, f.priority);
      assert q !in w.gate.waiting.Keys;
      if Before(q, k) {
        assert Arrives(w, ev, k);
        assert Ahead(v, k) <= Ahead(w, k) + {q};
        SubsetSize(Ahead(v, k), Ahead(w, k) + {q});
      } else {
        assert Ahead(v, k) <= Ahead(w, k);
        SubsetSize(Ahead(v, k), Ahead(w, k));
      }
    } else {
      SmallerAhead(w, v, k);
    }
  }

  /** No step overtakes a waiter: while it waits, permits go only to waiters before it. */
  lemma {:induction false} StepFair(w: World, ev: Event, k: WaitKey)
    requires Inv(w) && Enabled(w, ev) && k in w.gate.waiting && k in Next(w, ev).gate.waiting
    ensures Fair(w, ev, k)
  {
    match ev
    case Create(id, priority) =>
      assert NewlyGranted(w, ev) == {};
    case Poll(id, waker) => PollFair(w, id, waker, k);
    case Abandon(id) => AbandonFair(w, id, k);
    case Release => ReleaseFair(w, k);
  }

  /** `k` waits before and after each of the events. */
  ghost predicate Waits(w: World, evs: seq<Event>, k: WaitKey)
    decreases |evs|
  {
    k in w.gate.waiting && (evs != [] ==> Enabled(w, evs[0]) && Waits(Next(w, evs[0]), evs[1..], k))
  }

  /** The keys that the events give a permit. */
  ghost function Granted(w: World, evs: seq<Event>): set<WaitKey>
    decreases |evs|
  {
    if evs == [] || !Enabled(w, evs[0]) then {} else NewlyGranted(w, evs[0]) + Granted(Next(w, evs[0]), evs[1..])
  }

  ghost function Count(w: World, evs: seq<Event>, p: (World, Event) -> bool): nat
    decreases |evs|
  {
    if evs == [] || !Enabled(w, evs[0]) then 0
    else (if p(w, evs[0]) then 1 else 0) + Count(Next(w, evs[0]), evs[1..], p)
  }

  ghost function Givers(): (World, Event) -> bool { (w: World, ev: Event) => Enabled(w, ev) && GivesUp(w, ev) }

  ghost function Takers(): (World, Event) -> bool { (w: World, ev: Event) => Enabled(w, ev) && TakesFree(w, ev) }

  ghost function Arrivals(k: WaitKey): (World, Event) -> bool {
    (w: World, ev: Event) => Enabled(w, ev) && Arrives(w, ev, k)
  }

  /**
   Over every run in which a waiter keeps waiting: all permits that are given go
   to waiters before it, no newcomer takes one, and the permits that are given up
   are at most the waiters ahead of it at the start and those that arrived ahead of it.
   */
  lemma {:induction false} NoOvertaking(w: World, evs: seq<Event>, v: World, k: WaitKey)
    requires Inv(w) && Runs(w, evs, v) && Waits(w, evs, k)
    ensures forall g :: g in Granted(w, evs) ==> Before(g, k)
    ensures Count(w, evs, Takers()) == 0
    ensures Count(w, evs, Givers()) + |Ahead(v, k)| <= |Ahead(w, k)| + Count(w, evs, Arrivals(k))
    decreases |evs|
  {
    if evs != [] {
      var u := Next(w, evs[0]);
      assert k in u.gate.waiting;
      StepFair(w, evs[0], k);
      StepInv(w, evs[0]);
      NoOvertaking(u, evs[1..], v, k);
    }
  }

  // --- The hand-off -----------------------------------------------------------

  /** A waiter that is given a permit is woken, by the waker of its last poll. */
  lemma {:induction false} GrantWakes(w: World, ev: Event, g: WaitKey) returns (id: nat)
    requires Inv(w) && Enabled(w, ev) && g in NewlyGranted(w, ev)
    ensures Owns(w, id, g) && w.futures[id].waker.Some?
    ensures Next(w, ev).woken == w.woken + [w.futures[id].waker.value]
    ensures Owns(Next(w, ev), id, g)
  {
    var s := if ev.Abandon? then Leave(w.gate, w.futures[ev.id].key.value) else w.gate;
    assert s.waiting.Keys != {} && g == First(s.waiting.Keys);
    assert g in w.gate.waiting.Keys;
    id :| Owns(w, id, g);
    assert KeyOk(w.gate, w.futures[id]);
  }

  /** A permit that is given up goes to the first waiter of that moment, and to the free count only if nobody waits. */
  lemma {:induction false} GivenUpGoesOn(w: World, ev: Event)
    requires Inv(w) && Enabled(w, ev) && GivesUp(w, ev)
    ensures var v := Next(w, ev);
            if w.gate.waiting.Keys == {} then
              v.gate.free == w.gate.free + 1 && NewlyGranted(w, ev) == {}
            else
              v.gate.free == w.gate.free && NewlyGranted(w, ev) == {First(w.gate.waiting.Keys)}
  {
    if ev.Abandon? {
      var k := w.futures[ev.id].key.value;
      assert k !in w.gate.waiting.Keys;
      assert w.gate.waiting - {k} == w.gate.waiting;
    }
  }

  /** A step of another future or of a permit leaves a given permit with its waiter. */
  lemma {:induction false} GrantIsKept(w: World, ev: Event, id: nat, k: WaitKey)
    requires Inv(w) && Enabled(w, ev) && Owns(w, id, k) && k in w.gate.granted
    ensures var v := Next(w, ev);
            if ev.Poll? && ev.id == id then v.permits == w.permits + 1 && v.futures[id].key == None
            else if ev.Abandon? && ev.id == id then id !in v.futures
            else Owns(v, id, k) && k in v.gate.granted
  {
    if (ev.Poll? || ev.Abandon?) && ev.id != id && w.futures[ev.id].key.Some? {
      assert Owns(w, ev.id, w.futures[ev.id].key.value);
    }
  }

  predicate Touches(ev: Event, id: nat) { (ev.Poll? || ev.Abandon?) && ev.id == id }

  /** A waiter that was given a permit has it at its next poll, whatever happens in between. */
  lemma {:induction false} GrantSurvives(w: World, evs: seq<Event>, v: World, id: nat, k: WaitKey, waker: Waker)
    requires Inv(w) && Runs(w, evs, v) && Owns(w, id, k) && k in w.gate.granted
    requires forall i :: 0 <= i < |evs| ==> !Touches(evs[i], id)
    ensures Owns(v, id, k) && k in v.gate.granted
    ensures Next(v, Poll(id, waker)).permits == v.permits + 1
    decreases |evs|
  {
    if evs != [] {
      assert !Touches(evs[0], id);
      GrantIsKept(w, evs[0], id, k);
      StepInv(w, evs[0]);
      GrantSurvives(Next(w, evs[0]), evs[1..], v, id, k, waker);
    }
  }
}
