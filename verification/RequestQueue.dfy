/**
 * The bounded request queue of the server: a ring buffer used by any number of producers and
 * consumers under one mutex, with two condition variables and single signals.
 */
module RequestQueue {
  import opened Monitors

  datatype Item = Item(connfd: int, arrival: int)

  /** Where a thread is.  Asleep: in `pthread_cond_wait`.  Woken: waiting for the mutex again. */
  datatype Phase =
    | Idle
    | PushAsleep(item: Item)
    | PushWoken(item: Item)
    | PopAsleep
    | PopWoken

  function SleepingProducers(p: map<nat, Phase>): set<nat> {
    set t | t in p && p[t].PushAsleep?
  }

  function WokenProducers(p: map<nat, Phase>): set<nat> {
    set t | t in p && p[t].PushWoken?
  }

  function SleepingConsumers(p: map<nat, Phase>): set<nat> {
    set t | t in p && p[t].PopAsleep?
  }

  function WokenConsumers(p: map<nat, Phase>): set<nat> {
    set t | t in p && p[t].PopWoken?
  }

  function Wake(p: map<nat, Phase>, woken: set<nat>): map<nat, Phase> {
    map t | t in p ::
      if t in woken && p[t].PopAsleep? then PopWoken
      else if t in woken && p[t].PushAsleep? then PushWoken(p[t].item)
      else p[t]
  }

  /**
   * No lost wakeup: if a consumer sleeps, each queued item has a woken consumer of its own; if a
   * producer sleeps, each free slot has a woken producer of its own.
   */
  ghost predicate Awake(p: map<nat, Phase>, count: int, cap: int) {
    && (SleepingConsumers(p) != {} ==> |WokenConsumers(p)| >= count)
    && (SleepingProducers(p) != {} ==> |WokenProducers(p)| >= cap - count)
  }

  // ---------- The ring ----------

  function Slot(head: nat, i: nat, cap: nat): nat
    requires cap > 0
  {
    (head + i) % cap
  }

  /** The queue that a ring represents, oldest item first. */
  function Ring(items: seq<Item>, head: nat, count: nat): seq<Item>
    requires |items| > 0
  {
    seq(count, i requires 0 <= i < count => items[Slot(head, i, |items|)])
  }

  lemma SlotValue(head: nat, i: nat, cap: nat)
    requires head < cap && i <= cap
    ensures Slot(head, i, cap) == if head + i < cap then head + i else head + i - cap
  {
    if head + i >= cap {
      assert (head + i) == cap + (head + i - cap);
      WrapOnce(head + i - cap, cap);
    } else {
      WrapNone(head + i, cap);
    }
  }

  lemma WrapNone(x: nat, cap: nat)
    requires x < cap
    ensures x % cap == x
  {}

  lemma WrapOnce(x: nat, cap: nat)
    requires x <= cap && cap > 0
    ensures x < cap ==> (cap + x) % cap == x
    ensures x == cap ==> (cap + x) % cap == 0
  {}

  lemma RingPush(items: seq<Item>, head: nat, count: nat, item: Item)
    requires |items| > 0 && head < |items| && count < |items|
    ensures var tail := Slot(head, count, |items|);
            Ring(items[tail := item], head, count + 1) == Ring(items, head, count) + [item]
  {
    var cap, tail := |items|, Slot(head, count, |items|);
    SlotValue(head, count, cap);
    forall i | 0 <= i < count
      ensures Slot(head, i, cap) != tail
    {
      SlotValue(head, i, cap);
    }
  }

  lemma RingPop(items: seq<Item>, head: nat, count: nat)
    requires |items| > 0 && head < |items| && 0 < count <= |items|
    ensures var head' := (head + 1) % |items|;
            && head' < |items| && Ring(items, head, count) == [items[head]] + Ring(items, head', count - 1)
  {
    var cap := |items|;
    var head' := (head + 1) % cap;
    SlotValue(head, 1, cap);
    SlotValue(head, 0, cap);
    forall i | 0 <= i < count - 1
      ensures Slot(head, i + 1, cap) == Slot(head', i, cap)
    {
      SlotValue(head, i + 1, cap);
      SlotValue(head', i, cap);
    }
  }

  lemma TailMoves(head: nat, count: nat, cap: nat)
    requires head < cap && count <= cap
    ensures count < cap ==> (Slot(head, count, cap) + 1) % cap == Slot(head, count + 1, cap)
    ensures count > 0 ==> Slot(head, count, cap) == Slot((head + 1) % cap, count - 1, cap)
  {
    SlotValue(head, count, cap);
    SlotValue(head, 1, cap);
    SlotValue(Slot(head, count, cap), 1, cap);
    if count < cap {
      SlotValue(head, count + 1, cap);
    }
    if count > 0 {
      SlotValue((head + 1) % cap, count - 1, cap);
    }
  }

  // ---------- Phases ----------

  lemma Moves(p: map<nat, Phase>, t: nat, q: Phase)
    requires t in p
    ensures SleepingProducers(p[t := q])
         == if q.PushAsleep? then SleepingProducers(p) + {t} else SleepingProducers(p) - {t}
    ensures WokenProducers(p[t := q]) == if q.PushWoken? then WokenProducers(p) + {t} else WokenProducers(p) - {t}
    ensures SleepingConsumers(p[t := q])
         == if q.PopAsleep? then SleepingConsumers(p) + {t} else SleepingConsumers(p) - {t}
    ensures WokenConsumers(p[t := q]) == if q.PopWoken? then WokenConsumers(p) + {t} else WokenConsumers(p) - {t}
  {}

  lemma Wakes(p: map<nat, Phase>, woken: set<nat>)
    ensures SleepingProducers(Wake(p, woken)) == SleepingProducers(p) - woken
    ensures SleepingConsumers(Wake(p, woken)) == SleepingConsumers(p) - woken
    ensures WokenProducers(Wake(p, woken)) == WokenProducers(p) + woken * SleepingProducers(p)
    ensures WokenConsumers(Wake(p, woken)) == WokenConsumers(p) + woken * SleepingConsumers(p)
  {}

  lemma Member(p: map<nat, Phase>, t: nat)
    requires t in p
    ensures t in SleepingProducers(p) <==> p[t].PushAsleep?
    ensures t in WokenProducers(p) <==> p[t].PushWoken?
    ensures t in SleepingConsumers(p) <==> p[t].PopAsleep?
    ensures t in WokenConsumers(p) <==> p[t].PopWoken?
  {}

  lemma Disjoint(p: map<nat, Phase>)
    ensures SleepingProducers(p) !! WokenProducers(p) && SleepingConsumers(p) !! WokenConsumers(p)
    ensures SleepingProducers(p) !! SleepingConsumers(p)
  {}

  lemma UnionSize(a: set<nat>, b: set<nat>)
    requires a !! b
    ensures |a + b| == |a| + |b|
  {}

  lemma WithoutSize(a: set<nat>, t: nat)
    ensures |a - {t}| == if t in a then |a| - 1 else |a|
  {
    if t in a {
      assert a == (a - {t}) + {t};
    } else {
      assert a - {t} == a;
    }
  }

  /**
   * One success and its signal, seen from one side each: `t` leaves its own side, and the signal
   * moves `woken` from asleep to woken on the other side.
   */
  lemma SignalCovers(sleepers: set<nat>, woke: set<nat>, woken: set<nat>, n: int)
    requires Signalled(sleepers, woken) && sleepers !! woke && (sleepers != {} ==> |woke| >= n)
    ensures sleepers - woken != {} ==> |woke + woken| >= n + 1
  {
    UnionSize(woke, woken);
    if woken != {} {
      NonEmptySize(woken);
    }
  }

  lemma LeaveCovers(sleepers: set<nat>, woke: set<nat>, t: nat, n: int)
    requires sleepers != {} ==> |woke| >= n
    ensures sleepers != {} ==> |woke - {t}| >= n - 1
  {
    WithoutSize(woke, t);
  }

  lemma PushSets(p: map<nat, Phase>, t: nat, woken: set<nat>)
    requires t in p && (p[t].Idle? || p[t].PushWoken?) && woken <= SleepingConsumers(p)
    ensures var r := Wake(p[t := Idle], woken);
            && SleepingConsumers(r) == SleepingConsumers(p) - woken && WokenConsumers(r) == WokenConsumers(p) + woken
            && SleepingProducers(r) == SleepingProducers(p) && WokenProducers(r) == WokenProducers(p) - {t}
  {
    assert forall u :: u in woken ==> u in p && p[u].PopAsleep?;
  }

  lemma PopSets(p: map<nat, Phase>, t: nat, woken: set<nat>)
    requires t in p && (p[t].Idle? || p[t].PopWoken?) && woken <= SleepingProducers(p)
    ensures var r := Wake(p[t := Idle], woken);
            && SleepingConsumers(r) == SleepingConsumers(p) && WokenConsumers(r) == WokenConsumers(p) - {t}
            && SleepingProducers(r) == SleepingProducers(p) - woken && WokenProducers(r) == WokenProducers(p) + woken
  {
    assert forall u :: u in woken ==> u in p && p[u].PushAsleep?;
  }

  /** A push by `t`, with its signal, keeps every item covered. */
  lemma PushAwake(p: map<nat, Phase>, t: nat, woken: set<nat>, count: int, cap: int)
    requires Awake(p, count, cap) && t in p && (p[t].Idle? || p[t].PushWoken?)
    requires Signalled(SleepingConsumers(p), woken) && count < cap
    ensures Awake(Wake(p[t := Idle], woken), count + 1, cap)
  {
    hide SleepingProducers, WokenProducers, SleepingConsumers, WokenConsumers, Wake;
    PushSets(p, t, woken);
    Disjoint(p);
    SignalCovers(SleepingConsumers(p), WokenConsumers(p), woken, count);
    LeaveCovers(SleepingProducers(p), WokenProducers(p), t, cap - count);
  }

  /** A pop by `t`, with its signal, keeps every free slot covered. */
  lemma PopAwake(p: map<nat, Phase>, t: nat, woken: set<nat>, count: int, cap: int)
    requires Awake(p, count, cap) && t in p && (p[t].Idle? || p[t].PopWoken?)
    requires Signalled(SleepingProducers(p), woken) && count > 0
    ensures Awake(Wake(p[t := Idle], woken), count - 1, cap)
  {
    hide SleepingProducers, WokenProducers, SleepingConsumers, WokenConsumers, Wake;
    PopSets(p, t, woken);
    Disjoint(p);
    SignalCovers(SleepingProducers(p), WokenProducers(p), woken, cap - count);
    LeaveCovers(SleepingConsumers(p), WokenConsumers(p), t, count);
  }

  lemma NonEmptySize(a: set<nat>)
    requires a != {}
    ensures |a| > 0
  {}

  /** Going to sleep is safe: a consumer sleeps only on an empty queue, a producer on a full one. */
  lemma SleepAwake(p: map<nat, Phase>, t: nat, q: Phase, count: int, cap: int)
    requires Awake(p, count, cap) && t in p
    requires (q.PopAsleep? && count == 0 && (p[t].Idle? || p[t].PopWoken?))
             || (q.PushAsleep? && count == cap && (p[t].Idle? || p[t].PushWoken?))
    ensures Awake(p[t := q], count, cap)
  {
    hide SleepingProducers, WokenProducers, SleepingConsumers, WokenConsumers;
    Member(p, t);
    Moves(p, t, q);
    assert q.PopAsleep? ==>
             SleepingProducers(p) - {t} == SleepingProducers(p) && WokenProducers(p) - {t} == WokenProducers(p);
    assert q.PushAsleep? ==>
             SleepingConsumers(p) - {t} == SleepingConsumers(p) && WokenConsumers(p) - {t} == WokenConsumers(p);
  }

  lemma SpuriousAwake(p: map<nat, Phase>, t: nat, count: int, cap: int)
    requires Awake(p, count, cap)
    ensures Awake(Wake(p, {t}), count, cap)
  {
    Wakes(p, {t});
    Disjoint(p);
    UnionSize(WokenProducers(p), {t} * SleepingProducers(p));
    UnionSize(WokenConsumers(p), {t} * SleepingConsumers(p));
  }

  /** The items with which producers wait. */
  function Held(p: map<nat, Phase>): map<nat, Item> {
    map t | t in p && (p[t].PushAsleep? || p[t].PushWoken?) :: p[t].item
  }

  /** A wakeup takes no item away from a waiting producer. */
  lemma WakeHolds(p: map<nat, Phase>, woken: set<nat>)
    ensures Held(Wake(p, woken)) == Held(p)
  {}

  lemma HeldChange(p: map<nat, Phase>, t: nat, q: Phase)
    requires t in p
    ensures Held(p[t := q]) == if q.PushAsleep? || q.PushWoken? then Held(p)[t := q.item] else Held(p) - {t}
  {}

  class Queue {
    const cap: nat
    const items: array<Item>
    var head: nat
    var tail: nat
    var count: nat
    var phase: map<nat, Phase>
    ghost var pushed: seq<Item>
    ghost var popped: seq<Item>

    ghost predicate Valid()
      reads this, items
    {
      && 0 < cap == items.Length && head < cap && count <= cap && tail == Slot(head, count, cap)
      && popped + Contents() == pushed
      && Awake(phase, count, cap)
    }

    /** The queued items, oldest first. */
    ghost function Contents(): (s: seq<Item>)
      reads this, items
      requires items.Length > 0
    {
      Ring(items[..], head, count)
    }

    /** The bounded sequence that the ring implements. */
    ghost function Abs(): Ideal
      reads this, items
      requires items.Length > 0
    {
      Ideal(phase, Contents(), pushed, popped)
    }

    constructor (cap: nat, threads: set<nat>)
      requires cap > 0
      ensures Valid() && fresh(items) && this.cap == cap && Contents() == [] && pushed == [] && popped == []
      ensures phase == map t | t in threads :: Idle
    {
      this.cap := cap;
      items := new Item[cap](_ => Item(0, 0));
      head, tail, count := 0, 0, 0;
      phase := map t | t in threads :: Idle;
      pushed, popped := [], [];
      new;
      SlotValue(0, 0, cap);
      assert SleepingConsumers(phase) == {} && SleepingProducers(phase) == {};
    }

    /** `queue_push` from its loop test to its next wait or its unlock, holding the mutex. */
    method Push(t: nat, item: Item, woken: set<nat>) returns (done: bool)
      requires Valid() && t in phase && (phase[t] == Idle || phase[t] == PushWoken(item))
      requires count < cap ==> Signalled(SleepingConsumers(phase), woken)
      modifies this`tail, this`count, this`phase, this`pushed, items
      ensures Valid() && done == (old(count) < cap)
      ensures done ==> Contents() == old(Contents()) + [item] && pushed == old(pushed) + [item]
      ensures done ==> phase == Wake(old(phase)[t := Idle], woken)
      ensures !done ==> Contents() == old(Contents()) && pushed == old(pushed)
      ensures !done ==> phase == old(phase)[t := PushAsleep(item)]
      ensures Held(phase) == if done then old(Held(phase)) - {t} else old(Held(phase))[t := item]
    {
      HeldChange(phase, t, PushAsleep(item));
      HeldChange(phase, t, Idle);
      WakeHolds(phase[t := Idle], woken);
      if count == cap {
        SleepAwake(phase, t, PushAsleep(item), count, cap);
        phase := phase[t := PushAsleep(item)];
        return false;
      }
      RingPush(items[..], head, count, item);
      TailMoves(head, count, cap);
      PushAwake(phase, t, woken, count, cap);
      ghost var before := items[..];
      items[tail] := item;
      assert items[..] == before[tail := item];
      tail := (tail + 1) % cap;
      count := count + 1;
      phase := Wake(phase[t := Idle], woken);
      pushed := pushed + [item];
      done := true;
    }

    /** `queue_pop` from its loop test to its next wait or its unlock, holding the mutex. */
    method Pop(t: nat, woken: set<nat>) returns (done: bool, item: Item)
      requires Valid() && t in phase && (phase[t] == Idle || phase[t] == PopWoken)
      requires count > 0 ==> Signalled(SleepingProducers(phase), woken)
      modifies this`head, this`count, this`phase, this`popped
      ensures Valid() && done == (old(count) > 0)
      ensures done ==> old(Contents()) == [item] + Contents() && popped == old(popped) + [item]
      ensures done ==> phase == Wake(old(phase)[t := Idle], woken)
      ensures !done ==> Contents() == old(Contents()) && popped == old(popped) && phase == old(phase)[t := PopAsleep]
      ensures Held(phase) == old(Held(phase))
    {
      HeldChange(phase, t, PopAsleep);
      HeldChange(phase, t, Idle);
      WakeHolds(phase[t := Idle], woken);
      item := items[head];
      if count == 0 {
        SleepAwake(phase, t, PopAsleep, count, cap);
        phase := phase[t := PopAsleep];
        return false, item;
      }
      RingPop(items[..], head, count);
      TailMoves(head, count, cap);
      PopAwake(phase, t, woken, count, cap);
      head := (head + 1) % cap;
      count := count - 1;
      phase := Wake(phase[t := Idle], woken);
      popped := popped + [item];
      done := true;
    }

    /** A wakeup without a signal. */
    method Spurious(t: nat)
      requires Valid() && t in phase
      modifies this`phase
      ensures Valid() && phase == Wake(old(phase), {t}) && Contents() == old(Contents())
      ensures Held(phase) == old(Held(phase))
    {
      WakeHolds(phase, {t});
      SpuriousAwake(phase, t, count, cap);
      phase := Wake(phase, {t});
    }
  }

  /**
   * Producers and consumers are never all asleep: if every thread sleeps, then all of them wait to
   * take from an empty queue, or all of them wait to add to a full one.
   */
  lemma NeverAllAsleep(q: Queue)
    requires q.Valid() && q.phase != map[]
    requires forall t :: t in q.phase ==> q.phase[t].PushAsleep? || q.phase[t].PopAsleep?
    ensures || (q.Contents() == [] && forall t :: t in q.phase ==> q.phase[t].PopAsleep?)
            || (|q.Contents()| == q.cap && forall t :: t in q.phase ==> q.phase[t].PushAsleep?)
  {
    assert WokenConsumers(q.phase) == {} && WokenProducers(q.phase) == {};
    var t :| t in q.phase;
    assert t in SleepingConsumers(q.phase) || t in SleepingProducers(q.phase);
    forall u | u in q.phase
      ensures q.phase[u].PopAsleep? <==> q.phase[t].PopAsleep?
    {
      assert u in SleepingConsumers(q.phase) || u in SleepingProducers(q.phase);
    }
  }

  /** While a consumer sleeps and none is awake, nothing is queued; likewise for producers. */
  lemma SleepersAreRight(q: Queue)
    requires q.Valid()
    ensures SleepingConsumers(q.phase) != {} && WokenConsumers(q.phase) == {} ==> q.Contents() == []
    ensures SleepingProducers(q.phase) != {} && WokenProducers(q.phase) == {} ==> |q.Contents()| == q.cap
  {}

  // ---------- The bounded sequence ----------

  /** The queue without a ring: the phases, the queued items, and all items accepted and delivered. */
  datatype Ideal = Ideal(phase: map<nat, Phase>, queue: seq<Item>, accepted: seq<Item>, delivered: seq<Item>)

  /** A call arrives or, woken, goes on: up to its next wait or its unlock.  Or a thread wakes unbidden. */
  datatype Event =
    | PushCall(t: nat, item: Item, woken: set<nat>)
    | PushRetry(t: nat, woken: set<nat>)
    | PopCall(t: nat, woken: set<nat>)
    | PopRetry(t: nat, woken: set<nat>)
    | WakeUp(t: nat)

  /** The scheduler may pick this event now. */
  predicate Allowed(phase: map<nat, Phase>, count: nat, cap: nat, e: Event) {
    e.t in phase &&
    match e
    case PushCall(t, _, woken) => phase[t].Idle? && (count < cap ==> Signalled(SleepingConsumers(phase), woken))
    case PushRetry(t, woken) => phase[t].PushWoken? && (count < cap ==> Signalled(SleepingConsumers(phase), woken))
    case PopCall(t, woken) => phase[t].Idle? && (count > 0 ==> Signalled(SleepingProducers(phase), woken))
    case PopRetry(t, woken) => phase[t].PopWoken? && (count > 0 ==> Signalled(SleepingProducers(phase), woken))
    case WakeUp(t) => true
  }

  function Offer(m: Ideal, t: nat, item: Item, woken: set<nat>, cap: nat): Ideal {
    if |m.queue| == cap then m.(phase := m.phase[t := PushAsleep(item)])
    else Ideal(Wake(m.phase[t := Idle], woken), m.queue + [item], m.accepted + [item], m.delivered)
  }

  function Take(m: Ideal, t: nat, woken: set<nat>): Ideal {
    if m.queue == [] then m.(phase := m.phase[t := PopAsleep])
    else Ideal(Wake(m.phase[t := Idle], woken), m.queue[1..], m.accepted, m.delivered + [m.queue[0]])
  }

  /** One event; an event that the scheduler may not pick does nothing. */
  function IdealStep(m: Ideal, e: Event, cap: nat): Ideal {
    if !Allowed(m.phase, |m.queue|, cap, e) then m
    else
      match e
      case PushCall(t, item, woken) => Offer(m, t, item, woken, cap)
      case PushRetry(t, woken) => Offer(m, t, m.phase[t].item, woken, cap)
      case PopCall(t, woken) => Take(m, t, woken)
      case PopRetry(t, woken) => Take(m, t, woken)
      case WakeUp(t) => m.(phase := Wake(m.phase, {t}))
  }

  function Start(threads: set<nat>): Ideal {
    Ideal(map t | t in threads :: Idle, [], [], [])
  }

  function IdealRun(m: Ideal, events: seq<Event>, cap: nat): Ideal {
    if events == [] then m
    else IdealStep(IdealRun(m, events[..|events| - 1], cap), events[|events| - 1], cap)
  }

  /** The call of `queue_push` that an event starts, with its item. */
  function PushStarted(m: Ideal, e: Event, cap: nat): Option<Call<Item>> {
    if e.PushCall? && Allowed(m.phase, |m.queue|, cap, e) then Some(Call(e.t, e.item)) else None
  }

  function PushCalls(m: Ideal, events: seq<Event>, cap: nat): seq<Option<Call<Item>>> {
    if events == [] then []
    else
      var front := events[..|events| - 1];
      PushCalls(m, front, cap) + [PushStarted(IdealRun(m, front, cap), events[|events| - 1], cap)]
  }

  /** The call of `queue_pop` that an event starts. */
  function PopStarted(m: Ideal, e: Event, cap: nat): Option<Call<nat>> {
    if e.PopCall? && Allowed(m.phase, |m.queue|, cap, e) then Some(Call(e.t, 0)) else None
  }

  function PopCalls(m: Ideal, events: seq<Event>, cap: nat): seq<Option<Call<nat>>> {
    if events == [] then []
    else
      var front := events[..|events| - 1];
      PopCalls(m, front, cap) + [PopStarted(IdealRun(m, front, cap), events[|events| - 1], cap)]
  }

  /** The threads that wait for an item. */
  function OpenPops(p: map<nat, Phase>): map<nat, nat> {
    map t | t in p && (p[t].PopAsleep? || p[t].PopWoken?) :: 0
  }

  /** One served call for each delivery. */
  function Served(delivered: seq<Item>): seq<nat> {
    seq(|delivered|, _ => 0)
  }

  /** What an event does to the items held: only its own thread's can change. */
  lemma HeldSteps(p: map<nat, Phase>, e: Event)
    ensures e.t in p && !e.WakeUp? ==>
              && Held(Wake(p[e.t := Idle], e.woken)) == Held(p) - {e.t} && Held(p[e.t := PopAsleep]) == Held(p) - {e.t}
    ensures e.WakeUp? ==> Held(Wake(p, {e.t})) == Held(p)
    ensures e.t in p && e.PushCall? ==> Held(p[e.t := PushAsleep(e.item)]) == Held(p)[e.t := e.item]
    ensures e.t in p && e.PushRetry? && p[e.t].PushWoken? ==> Held(p[e.t := PushAsleep(p[e.t].item)]) == Held(p)
    ensures e.t in p ==> (e.t in Held(p) <==> p[e.t].PushAsleep? || p[e.t].PushWoken?)
    ensures e.t in p && !(p[e.t].PushAsleep? || p[e.t].PushWoken?) ==> Held(p) - {e.t} == Held(p)
    ensures e.t in p && p[e.t].PushWoken? ==> Held(p)[e.t] == p[e.t].item
  {
    if e.WakeUp? {
      WakeHolds(p, {e.t});
    } else if e.t in p {
      WakeHolds(p[e.t := Idle], e.woken);
      HeldChange(p, e.t, Idle);
      HeldChange(p, e.t, PopAsleep);
    }
  }

  lemma PushesStep(m: Ideal, e: Event, cap: nat, calls: seq<Option<Call<Item>>>)
    requires Accounted(calls, Held(m.phase), m.accepted)
    ensures var r := IdealStep(m, e, cap); Accounted(calls + [PushStarted(m, e, cap)], Held(r.phase), r.accepted)
  {
    hide Accounted, Signalled, SleepingConsumers, SleepingProducers, Wake, Held;
    var p, r := m.phase, IdealStep(m, e, cap);
    HeldSteps(p, e);
    if e.PushCall? && Allowed(p, |m.queue|, cap, e) {
      if |m.queue| == cap {
        assert Held(r.phase) == Held(p)[e.t := e.item];
        CallWaits(calls, Held(p), m.accepted, e.t, e.item);
      } else {
        assert Held(r.phase) == Held(p);
        CallCompletes(calls, Held(p), m.accepted, e.t, e.item);
      }
    } else if e.PushRetry? && Allowed(p, |m.queue|, cap, e) && |m.queue| != cap {
      assert Held(r.phase) == Held(p) - {e.t};
      WaiterCompletes(calls, Held(p), m.accepted, e.t);
    } else {
      assert Held(r.phase) == Held(p);
      OtherEvent(calls, Held(p), m.accepted);
    }
  }

  lemma PopsStep(m: Ideal, e: Event, cap: nat, calls: seq<Option<Call<nat>>>)
    requires Accounted(calls, OpenPops(m.phase), Served(m.delivered))
    ensures var r := IdealStep(m, e, cap);
            Accounted(calls + [PopStarted(m, e, cap)], OpenPops(r.phase), Served(r.delivered))
  {
    hide Accounted, Signalled, SleepingConsumers, SleepingProducers;
    var p, r := m.phase, IdealStep(m, e, cap);
    if (e.PopCall? || e.PopRetry?) && Allowed(p, |m.queue|, cap, e) && m.queue != [] {
      assert Served(r.delivered) == Served(m.delivered) + [0];
    }
    if e.PopCall? && Allowed(p, |m.queue|, cap, e) {
      if m.queue == [] {
        assert OpenPops(r.phase) == OpenPops(p)[e.t := 0];
        CallWaits(calls, OpenPops(p), Served(m.delivered), e.t, 0);
      } else {
        assert OpenPops(r.phase) == OpenPops(p);
        CallCompletes(calls, OpenPops(p), Served(m.delivered), e.t, 0);
      }
    } else if e.PopRetry? && Allowed(p, |m.queue|, cap, e) && m.queue != [] {
      assert OpenPops(r.phase) == OpenPops(p) - {e.t};
      WaiterCompletes(calls, OpenPops(p), Served(m.delivered), e.t);
    } else {
      assert OpenPops(r.phase) == OpenPops(p) && r.delivered == m.delivered;
      OtherEvent(calls, OpenPops(p), Served(m.delivered));
    }
  }

  /**
   * First in, first out, and nothing lost or made up, over every run.  The accepted items are those
   * of distinct calls of `queue_push`, each with the item it came with, and every other such call
   * belongs to a thread that still waits with that item.  What was delivered, followed by the queue,
   * is what was accepted.  Each delivery serves one call of `queue_pop`, and every other such call
   * belongs to a thread that still waits.
   */
  lemma {:induction false} CallsAccounted(threads: set<nat>, events: seq<Event>, cap: nat)
    ensures var m := IdealRun(Start(threads), events, cap);
            && Accounted(PushCalls(Start(threads), events, cap), Held(m.phase), m.accepted)
            && Accounted(PopCalls(Start(threads), events, cap), OpenPops(m.phase), Served(m.delivered))
            && m.delivered + m.queue == m.accepted && |m.queue| <= cap
    decreases |events|
  {
    hide Accounted, Allowed, Held, OpenPops, Served, IdealStep, PushStarted, PopStarted, Start;
    var m0 := Start(threads);
    if events == [] {
      NothingStarted(threads);
    } else {
      var front, e := events[..|events| - 1], events[|events| - 1];
      CallsAccounted(threads, front, cap);
      var m := IdealRun(m0, front, cap);
      PushesStep(m, e, cap, PushCalls(m0, front, cap));
      PopsStep(m, e, cap, PopCalls(m0, front, cap));
      OrderStep(m, e, cap);
    }
  }

  lemma OrderStep(m: Ideal, e: Event, cap: nat)
    requires m.delivered + m.queue == m.accepted && |m.queue| <= cap
    ensures var r := IdealStep(m, e, cap); r.delivered + r.queue == r.accepted && |r.queue| <= cap
  {
    hide Allowed, Wake;
  }

  lemma NothingStarted(threads: set<nat>)
    ensures var m := Start(threads);
            && Accounted([], Held(m.phase), m.accepted) && Accounted([], OpenPops(m.phase), Served(m.delivered))
            && m.delivered + m.queue == m.accepted && m.queue == []
  {
    hide Accounted;
    NoCalls<Item>();
    NoCalls<nat>();
    var p := Start(threads).phase;
    assert Held(p) == map[] && OpenPops(p) == map[] && Served([]) == [];
  }

  lemma StepGrows(m: Ideal, e: Event, cap: nat)
    ensures var r := IdealStep(m, e, cap);
            && m.accepted <= r.accepted && |r.accepted| <= |m.accepted| + 1
            && m.delivered <= r.delivered && |r.delivered| <= |m.delivered| + 1
            && (|r.accepted| > |m.accepted| ==> e.PushCall? || e.PushRetry?)
            && (|r.delivered| > |m.delivered| ==> (e.PopCall? || e.PopRetry?) && m.queue != [])
  {
    hide Allowed, Wake;
  }

  lemma {:induction false} RunGrows(m: Ideal, events: seq<Event>, cap: nat, i: nat)
    requires i <= |events|
    ensures var a, b := IdealRun(m, events[..i], cap), IdealRun(m, events, cap);
            a.accepted <= b.accepted && a.delivered <= b.delivered
    decreases |events|
  {
    hide IdealStep;
    if i == |events| {
      assert events[..i] == events;
    } else {
      var front := events[..|events| - 1];
      assert front[..i] == events[..i];
      RunGrows(m, front, cap, i);
      StepGrows(IdealRun(m, front, cap), events[|events| - 1], cap);
    }
  }

  /** Event `i` of the run accepts the item of rank `k`. */
  ghost predicate AcceptedBy(m: Ideal, events: seq<Event>, cap: nat, i: nat, k: nat) {
    && i < |events| && (events[i].PushCall? || events[i].PushRetry?)
    && |IdealRun(m, events[..i], cap).accepted| == k && |IdealRun(m, events[..i + 1], cap).accepted| == k + 1
  }

  /** Event `i` of the run delivers the item of rank `k`. */
  ghost predicate DeliveredBy(m: Ideal, events: seq<Event>, cap: nat, i: nat, k: nat) {
    && i < |events| && (events[i].PopCall? || events[i].PopRetry?)
    && |IdealRun(m, events[..i], cap).delivered| == k && |IdealRun(m, events[..i + 1], cap).delivered| == k + 1
    && IdealRun(m, events[..i], cap).queue != []
  }

  lemma {:induction false} FindAccept(m: Ideal, events: seq<Event>, cap: nat, k: nat) returns (i: nat)
    requires m.accepted == [] && k < |IdealRun(m, events, cap).accepted|
    ensures AcceptedBy(m, events, cap, i, k)
    decreases |events|
  {
    hide IdealStep;
    var n := |events| - 1;
    var front := events[..n];
    StepGrows(IdealRun(m, front, cap), events[n], cap);
    if k < |IdealRun(m, front, cap).accepted| {
      i := FindAccept(m, front, cap, k);
      assert front[..i] == events[..i] && front[..i + 1] == events[..i + 1];
    } else {
      i := n;
      assert events[..n + 1] == events;
    }
  }

  lemma {:induction false} FindDelivery(m: Ideal, events: seq<Event>, cap: nat, k: nat) returns (j: nat)
    requires m.delivered == [] && k < |IdealRun(m, events, cap).delivered|
    ensures DeliveredBy(m, events, cap, j, k)
    decreases |events|
  {
    hide IdealStep;
    var n := |events| - 1;
    var front := events[..n];
    StepGrows(IdealRun(m, front, cap), events[n], cap);
    if k < |IdealRun(m, front, cap).delivered| {
      j := FindDelivery(m, front, cap, k);
      assert front[..j] == events[..j] && front[..j + 1] == events[..j + 1];
    } else {
      j := n;
      assert events[..n + 1] == events;
    }
  }

  /** The k-th delivery hands out the item of the k-th acceptance, and comes after it. */
  lemma DeliveredInOrder(threads: set<nat>, events: seq<Event>, cap: nat, k: nat) returns (i: nat, j: nat)
    requires k < |IdealRun(Start(threads), events, cap).delivered|
    ensures i < j && AcceptedBy(Start(threads), events, cap, i, k) && DeliveredBy(Start(threads), events, cap, j, k)
    ensures var m := IdealRun(Start(threads), events, cap); k < |m.accepted| && m.delivered[k] == m.accepted[k]
  {
    hide IdealStep, IdealRun;
    var m0 := Start(threads);
    CallsAccounted(threads, events, cap);
    i := FindAccept(m0, events, cap, k);
    j := FindDelivery(m0, events, cap, k);
    CallsAccounted(threads, events[..j], cap);
    if j <= i {
      assert events[..i][..j] == events[..j];
      RunGrows(m0, events[..i], cap, j);
    }
  }

  /** The scheduler is free: idle threads may call, woken ones go on, and a signal may wake any sleepers. */
  lemma AnyChoice(m: Ideal, t: nat, item: Item, woken: set<nat>, cap: nat)
    requires t in m.phase
    ensures m.phase[t].Idle? && (|m.queue| < cap ==> Signalled(SleepingConsumers(m.phase), woken))
            ==> Allowed(m.phase, |m.queue|, cap, PushCall(t, item, woken))
    ensures m.phase[t].PushWoken? && (|m.queue| < cap ==> Signalled(SleepingConsumers(m.phase), woken))
            ==> Allowed(m.phase, |m.queue|, cap, PushRetry(t, woken))
    ensures m.phase[t].Idle? && (|m.queue| > 0 ==> Signalled(SleepingProducers(m.phase), woken))
            ==> Allowed(m.phase, |m.queue|, cap, PopCall(t, woken))
    ensures m.phase[t].PopWoken? && (|m.queue| > 0 ==> Signalled(SleepingProducers(m.phase), woken))
            ==> Allowed(m.phase, |m.queue|, cap, PopRetry(t, woken))
  {}

  // ---------- The ring over whole runs ----------

  lemma Outstanding(q: Queue)
    requires q.Valid()
    ensures q.items.Length > 0 && q.popped + q.Contents() == q.pushed && |q.Contents()| == q.count <= q.cap
  {}

  /** One event on the ring is one event on the sequence; the results are the items that moved. */
  method Step(q: Queue, e: Event) returns (took: Option<Item>, gave: Option<Item>)
    requires q.Valid()
    modifies q, q.items
    ensures q.Valid() && q.Abs() == IdealStep(old(q.Abs()), e, q.cap)
    ensures q.pushed == old(q.pushed) + (if took.Some? then [took.value] else [])
    ensures q.popped == old(q.popped) + (if gave.Some? then [gave.value] else [])
  {
    hide Queue.Valid, Queue.Contents, Signalled, Wake;
    Outstanding(q);
    ghost var m := q.Abs();
    took, gave := None, None;
    if Allowed(q.phase, q.count, q.cap, e) {
      match e
      case PushCall(t, item, woken) =>
        var done := q.Push(t, item, woken);
        took := if done then Some(item) else None;
        assert q.Abs() == Offer(m, t, item, woken, q.cap);
      case PushRetry(t, woken) =>
        var item := q.phase[t].item;
        var done := q.Push(t, item, woken);
        took := if done then Some(item) else None;
        assert q.Abs() == Offer(m, t, item, woken, q.cap);
      case PopCall(t, woken) =>
        var done, item := q.Pop(t, woken);
        gave := if done then Some(item) else None;
        assert q.Abs() == Take(m, t, woken);
      case PopRetry(t, woken) =>
        var done, item := q.Pop(t, woken);
        gave := if done then Some(item) else None;
        assert q.Abs() == Take(m, t, woken);
      case WakeUp(t) => q.Spurious(t);
    }
  }

  /**
   * Any interleaving of any number of producers and consumers: the ring does what the bounded
   * sequence does, event by event, and so delivers the accepted items in order.
   */
  method Run(cap: nat, threads: set<nat>, events: seq<Event>)
    returns (q: Queue, accepted: seq<Item>, delivered: seq<Item>)
    requires cap > 0
    ensures fresh(q) && q.Valid() && q.cap == cap
    ensures q.Abs() == IdealRun(Start(threads), events, cap)
    ensures accepted == q.Abs().accepted && delivered == q.Abs().delivered
    ensures delivered + q.Contents() == accepted && |accepted| <= |delivered| + cap
  {
    hide Queue.Valid, Queue.Contents, IdealStep;
    q := new Queue(cap, threads);
    accepted, delivered := [], [];
    Outstanding(q);
    assert events[..0] == [];
    var i := 0;
    while i < |events|
      invariant 0 <= i <= |events| && fresh(q) && fresh(q.items) && q.Valid() && q.cap == cap && q.items.Length > 0
      invariant q.Abs() == IdealRun(Start(threads), events[..i], cap)
      invariant accepted == q.pushed && delivered == q.popped
    {
      var took, gave := Step(q, events[i]);
      if took.Some? {
        accepted := accepted + [took.value];
      }
      if gave.Some? {
        delivered := delivered + [gave.value];
      }
      assert events[..i + 1][..i] == events[..i];
      i := i + 1;
    }
    assert events[..i] == events;
    Outstanding(q);
  }
}
