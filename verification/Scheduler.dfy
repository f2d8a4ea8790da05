/** The deadline scheduler: one bounded queue per transport that drops the stalest payload on overload. */
module Scheduling {
  import opened Wrappers
  import opened Words
  import opened Payloads

  const TRANSPORT_COUNT: nat := 4

  datatype ScheduleError = Scheduled | ZeroCapacity | InvalidTransport | InvalidPayload | PayloadTooLarge

  datatype TransportQueue = TransportQueue(payloads: seq<Payload>, stats: TransportStats)

  const NO_PAYLOADS: TransportQueue := TransportQueue([], NO_STATS)

  type Queues = q: seq<TransportQueue> | |q| == TRANSPORT_COUNT
    witness [NO_PAYLOADS, NO_PAYLOADS, NO_PAYLOADS, NO_PAYLOADS]

  const NO_QUEUES: Queues := [NO_PAYLOADS, NO_PAYLOADS, NO_PAYLOADS, NO_PAYLOADS]

  // ----- What the operations do to one queue

  /** A full queue gives up its earliest payload, unless the new one is earlier still. */
  function Kept(queue: seq<Payload>, capacity: nat, p: Payload): seq<Payload>
    requires capacity > 0
  {
    if |queue| != capacity then queue + [p]
    else
      var oldest := Earliest(queue);
      if Earlier(p, queue[oldest]) then queue else RemoveAt(queue, oldest) + [p]
  }

  function EnqueueError(capacity: nat, p: Payload): ScheduleError {
    if capacity == 0 then ZeroCapacity
    else if p.transport as nat >= TRANSPORT_COUNT then InvalidTransport
    else if p.size == 0 then InvalidPayload
    else if p.size > MAX_PAYLOAD then PayloadTooLarge
    else Scheduled
  }

  function Enqueued(q: Queues, capacity: nat, p: Payload): Queues {
    if EnqueueError(capacity, p) != Scheduled then q
    else
      var TransportQueue(queue, s) := q[p.transport];
      var dropped := if |queue| == capacity then SaturatingIncrement(s.dropped) else s.dropped;
      q[p.transport := TransportQueue(Kept(queue, capacity, p),
                                      s.(expected := SaturatingIncrement(s.expected), dropped := dropped))]
  }

  function Unexpired(queue: seq<Payload>, now: Word64): seq<Payload> {
    if queue == [] then []
    else Unexpired(queue[..|queue| - 1], now) + if Expired(queue[|queue| - 1], now) then [] else [queue[|queue| - 1]]
  }

  lemma UnexpiredOfNothing(now: Word64)
    ensures Unexpired([], now) == []
  {
  }

  lemma UnexpiredStep(queue: seq<Payload>, seen: nat, now: Word64)
    requires seen < |queue|
    ensures Unexpired(queue[..seen + 1], now)
         == Unexpired(queue[..seen], now) + if Expired(queue[seen], now) then [] else [queue[seen]]
  {
    assert queue[..seen + 1][..seen] == queue[..seen];
  }

  function Popped(queue: TransportQueue, now: Word64): (TransportQueue, Option<Payload>) {
    var live := Unexpired(queue.payloads, now);
    UnexpiredIsShorter(queue.payloads, now);
    var s := queue.stats.(dropped := Counted(queue.stats.dropped, |queue.payloads| - |live|));
    if live == [] then (TransportQueue([], s), None)
    else
      var e := Earliest(live);
      (TransportQueue(RemoveAt(live, e), if now > live[e].deadline then s.(late := SaturatingIncrement(s.late)) else s),
       Some(live[e]))
  }

  lemma {:induction false} UnexpiredIsShorter(queue: seq<Payload>, now: Word64)
    ensures |Unexpired(queue, now)| <= |queue|
    decreases |queue|
  {
    if queue == [] {
    } else {
      UnexpiredIsShorter(queue[..|queue| - 1], now);
    }
  }

  function PoppedFrom(q: Queues, transport: Byte, now: Word64): (Queues, Option<Payload>) {
    if transport as nat >= TRANSPORT_COUNT then (q, None)
    else var (queue, result) := Popped(q[transport], now); (q[transport := queue], result)
  }

  // ----- The class

  class Scheduler {
    const capacityPerTransport: nat
    var queues: Queues

    constructor (capacityPerTransport: nat)
      ensures this.capacityPerTransport == capacityPerTransport && queues == NO_QUEUES
    {
      this.capacityPerTransport := capacityPerTransport;
      queues := NO_QUEUES;
    }

    /** The first of the earliest payloads, found by a scan. */
    method MinElement(payloads: seq<Payload>) returns (oldest: nat)
      requires payloads != []
      ensures oldest == Earliest(payloads)
    {
      hide IsEarliest;
      oldest := 0;
      for item := 1 to |payloads|
        invariant oldest == Earliest(payloads[..item])
      {
        assert payloads[..item + 1][..item] == payloads[..item];
        if Earlier(payloads[item], payloads[oldest]) { oldest := item; }
      }
      assert payloads[..|payloads|] == payloads;
    }

    method Enqueue(p: Payload) returns (error: ScheduleError)
      modifies this
      ensures queues == Enqueued(old(queues), capacityPerTransport, p) && error == EnqueueError(capacityPerTransport, p)
    {
      if capacityPerTransport == 0 { return ZeroCapacity; }
      if p.transport as nat >= TRANSPORT_COUNT { return InvalidTransport; }
      if p.size == 0 { return InvalidPayload; }
      if p.size > MAX_PAYLOAD { return PayloadTooLarge; }
      var payloads, s := queues[p.transport].payloads, queues[p.transport].stats;
      s := s.(expected := SaturatingIncrement(s.expected));
      if |payloads| == capacityPerTransport {
        var oldest := MinElement(payloads);
        s := s.(dropped := SaturatingIncrement(s.dropped));
        if Earlier(p, payloads[oldest]) {
          queues := queues[p.transport := TransportQueue(payloads, s)];
          return Scheduled;
        }
        payloads := RemoveAt(payloads, oldest);
      }
      queues := queues[p.transport := TransportQueue(payloads + [p], s)];
      return Scheduled;
    }

    /** Erases the expired payloads one by one, counting each. */
    method DropExpired(queue: seq<Payload>, counter: Word64, now: Word64) returns (payloads: seq<Payload>,
        dropped: Word64)
      ensures payloads == Unexpired(queue, now)
      ensures |payloads| <= |queue| && dropped == Counted(counter, |queue| - |payloads|)
    {
      hide Expired, SaturatingIncrement, Counted, RemoveAt, Unexpired;
      payloads, dropped := queue, counter;
      CountNone(counter);
      UnexpiredOfNothing(now);
      ghost var seen, live: seq<Payload> := 0, [];
      var item := 0;
      while item < |payloads|
        invariant 0 <= seen <= |queue| && live == Unexpired(queue[..seen], now)
        invariant payloads == live + queue[seen..] && item == |live| <= seen
        invariant dropped == Counted(counter, seen - item)
        decreases |queue| - seen
      {
        UnexpiredStep(queue, seen, now);
        assert queue[seen..] == [queue[seen]] + queue[seen + 1..];
        if Expired(payloads[item], now) {
          RemoveMiddle(live, queue[seen], queue[seen + 1..]);
          CountOneMore(counter, seen - item);
          payloads := RemoveAt(payloads, item);
          dropped := SaturatingIncrement(dropped);
        } else {
          assert live + ([queue[seen]] + queue[seen + 1..]) == (live + [queue[seen]]) + queue[seen + 1..];
          live := live + [payloads[item]];
          item := item + 1;
        }
        seen := seen + 1;
      }
      assert queue[..seen] == queue && live + queue[seen..] == live;
    }

    method PopNext(transport: Byte, now: Word64) returns (result: Option<Payload>)
      modifies this
      ensures (queues, result) == PoppedFrom(old(queues), transport, now)
    {
      hide Expired, IsEarliest, Unexpired, Counted;
      if transport as nat >= TRANSPORT_COUNT { return None; }
      var s := queues[transport].stats;
      var payloads, dropped := DropExpired(queues[transport].payloads, s.dropped, now);
      s := s.(dropped := dropped);
      if payloads == [] {
        queues := queues[transport := TransportQueue([], s)];
        return None;
      }
      var next := MinElement(payloads);
      result := Some(payloads[next]);
      if now > payloads[next].deadline { s := s.(late := SaturatingIncrement(s.late)); }
      queues := queues[transport := TransportQueue(RemoveAt(payloads, next), s)];
    }
  }

  // ----- Overload: what a queue keeps

  /** The queue after so many offers and no pops. */
  function OfferAll(capacity: nat, offers: seq<Payload>): seq<Payload>
    requires capacity > 0
  {
    if offers == [] then []
    else Kept(OfferAll(capacity, offers[..|offers| - 1]), capacity, offers[|offers| - 1])
  }

  /** `kept` holds as many of the offers as fit, and none that was given up is later than one kept. */
  ghost predicate KeepsLatest(kept: seq<Payload>, capacity: nat, offers: seq<Payload>) {
    && |kept| == (if |offers| <= capacity then |offers| else capacity)
    && multiset(kept) <= multiset(offers)
    && NoneLater(multiset(offers) - multiset(kept), multiset(kept))
  }

  ghost predicate NoneLater(given: multiset<Payload>, kept: multiset<Payload>) {
    forall gone, stay :: gone in given && stay in kept ==> !Earlier(stay, gone)
  }

  /** Room left: everything offered so far is kept. */
  lemma KeepWithRoom(queue: seq<Payload>, capacity: nat, offers: seq<Payload>, p: Payload)
    requires |queue| < capacity && KeepsLatest(queue, capacity, offers)
    ensures KeepsLatest(queue + [p], capacity, offers + [p])
  {
    assert |multiset(queue)| == |multiset(offers)|;
    SameSize(multiset(queue), multiset(offers));
    assert multiset(offers + [p]) - multiset(queue + [p]) == multiset{};
  }

  /** No room, and the new payload is earlier than all that is kept. */
  lemma KeepOld(queue: seq<Payload>, capacity: nat, offers: seq<Payload>, p: Payload, e: nat)
    requires |queue| == capacity && KeepsLatest(queue, capacity, offers)
    requires IsEarliest(queue, e) && Earlier(p, queue[e])
    ensures KeepsLatest(queue, capacity, offers + [p])
  {
    var given := multiset(offers + [p]) - multiset(queue);
    assert given == (multiset(offers) - multiset(queue)) + multiset{p};
    forall gone, stay | gone in given && stay in multiset(queue) ensures !Earlier(stay, gone) {
      if gone !in multiset(offers) - multiset(queue) {
        assert gone == p;
        var k :| 0 <= k < |queue| && queue[k] == stay;
        assert !Earlier(queue[k], queue[e]);
      }
    }
  }

  /** One kept payload, no later than the others, is given up for one that is no earlier. */
  lemma NoneLaterReplaced(given: multiset<Payload>, rest: multiset<Payload>, oldest: Payload, p: Payload)
    requires NoneLater(given, rest + multiset{oldest})
    requires !Earlier(p, oldest) && forall stay :: stay in rest ==> !Earlier(stay, oldest)
    ensures NoneLater(given + multiset{oldest}, rest + multiset{p})
  {
    forall gone, stay | gone in given + multiset{oldest} && stay in rest + multiset{p} ensures !Earlier(stay, gone) {
      if gone in given {
        assert !Earlier(oldest, gone);
        assert stay != p ==> stay in rest + multiset{oldest};
      }
    }
  }

  /** No room: the earliest kept payload gives way to one that is no earlier. */
  lemma KeepNew(queue: seq<Payload>, capacity: nat, offers: seq<Payload>, p: Payload, e: nat)
    requires |queue| == capacity && KeepsLatest(queue, capacity, offers)
    requires e < |queue| && IsEarliest(queue, e) && !Earlier(p, queue[e])
    ensures KeepsLatest(RemoveAt(queue, e) + [p], capacity, offers + [p])
  {
    hide RemoveAt, IsEarliest, Earlier, NoneLater;
    var rest := RemoveAt(queue, e);
    RemoveAtMultiset(queue, e);
    RestIsLater(queue, e);
    assert multiset(rest + [p]) == multiset(rest) + multiset{p};
    assert multiset(offers + [p]) == multiset(offers) + multiset{p};
    var before := multiset(offers) - multiset(queue);
    assert multiset(offers + [p]) - multiset(rest + [p]) == before + multiset{queue[e]};
    NoneLaterReplaced(before, multiset(rest), queue[e], p);
  }

  lemma SameSize<T>(a: multiset<T>, b: multiset<T>)
    requires a <= b && |a| == |b|
    ensures a == b
  {
    assert b == a + (b - a);
  }

  /** A queue of capacity C that is offered payloads and never popped holds the C latest of them, whatever
      their order: as many as fit, with every payload given up no later than every one kept. */
  lemma {:induction false} HoldsTheLatest(capacity: nat, offers: seq<Payload>)
    requires capacity > 0
    ensures KeepsLatest(OfferAll(capacity, offers), capacity, offers)
    decreases |offers|
  {
    hide KeepsLatest, IsEarliest, RemoveAt;
    if offers == [] {
      assert KeepsLatest([], capacity, []) by { NothingOffered(capacity); }
    } else {
      var front, p := offers[..|offers| - 1], offers[|offers| - 1];
      HoldsTheLatest(capacity, front);
      var queue := OfferAll(capacity, front);
      KeepsAtMost(queue, capacity, front);
      assert offers == front + [p];
      if |queue| < capacity {
        KeepWithRoom(queue, capacity, front, p);
      } else if Earlier(p, queue[Earliest(queue)]) {
        KeepOld(queue, capacity, front, p, Earliest(queue));
      } else {
        KeepNew(queue, capacity, front, p, Earliest(queue));
      }
    }
  }

  lemma NothingOffered(capacity: nat)
    ensures KeepsLatest([], capacity, [])
  {
  }

  lemma KeepsAtMost(queue: seq<Payload>, capacity: nat, offers: seq<Payload>)
    requires KeepsLatest(queue, capacity, offers)
    ensures |queue| <= capacity
  {
  }

  /** If no two offers share deadline and sequence, that determines what is kept. */
  lemma LatestAreDetermined(capacity: nat, offers: seq<Payload>, a: seq<Payload>, b: seq<Payload>)
    requires forall i, j :: 0 <= i < j < |offers| ==> !SameKey(offers[i], offers[j])
    requires KeepsLatest(a, capacity, offers) && KeepsLatest(b, capacity, offers)
    ensures multiset(a) == multiset(b)
  {
    if multiset(a) != multiset(b) {
      var x := ExtraElement(multiset(a), multiset(b));
      var y := ExtraElement(multiset(b), multiset(a));
      assert x in multiset(offers) - multiset(b) && y in multiset(b);
      assert y in multiset(offers) - multiset(a) && x in multiset(a);
      SameKeySamePayload(offers, x, y);
    }
  }

  lemma SameKeySamePayload(offers: seq<Payload>, x: Payload, y: Payload)
    requires forall i, j :: 0 <= i < j < |offers| ==> !SameKey(offers[i], offers[j])
    requires x in multiset(offers) && y in multiset(offers) && SameKey(x, y)
    ensures x == y
  {
    var i :| 0 <= i < |offers| && offers[i] == x;
    var j :| 0 <= j < |offers| && offers[j] == y;
    assert i < j ==> !SameKey(x, y);
    assert j < i ==> !SameKey(y, x);
  }

  lemma ExtraElement<T>(a: multiset<T>, b: multiset<T>) returns (x: T)
    requires |a| == |b| && a != b
    ensures a[x] > b[x]
  {
    assert !(a <= b) by {
      if a <= b {
        SameSize(a, b);
      }
    }
    x :| a[x] > b[x];
  }

  // ----- Popping

  /** The unexpired payloads stay, as often as they were queued, and no others. */
  lemma {:induction false} UnexpiredElements(queue: seq<Payload>, now: Word64, p: Payload)
    ensures multiset(Unexpired(queue, now))[p] == if Expired(p, now) then 0 else multiset(queue)[p]
    ensures p in Unexpired(queue, now) <==> p in queue && !Expired(p, now)
    decreases |queue|
  {
    hide Expired;
    if queue == [] {
    } else {
      var front, last := queue[..|queue| - 1], queue[|queue| - 1];
      UnexpiredElements(front, now, p);
      assert queue == front + [last];
    }
  }

  lemma UnexpiredAre(queue: seq<Payload>, now: Word64)
    ensures forall p :: multiset(Unexpired(queue, now))[p] == if Expired(p, now) then 0 else multiset(queue)[p]
    ensures forall p :: p in Unexpired(queue, now) <==> p in queue && !Expired(p, now)
  {
    hide Unexpired, Expired;
    forall p
      ensures multiset(Unexpired(queue, now))[p] == if Expired(p, now) then 0 else multiset(queue)[p]
      ensures p in Unexpired(queue, now) <==> p in queue && !Expired(p, now)
    {
      UnexpiredElements(queue, now, p);
    }
  }

  /** What a pop does to the unexpired payloads. */
  lemma PopFromLive(queue: TransportQueue, now: Word64)
    ensures var (rest, result) := Popped(queue, now);
      var live := Unexpired(queue.payloads, now);
      && (result == None <==> live == [])
      && multiset(live) == multiset(rest.payloads) + (if result.Some? then multiset{result.value} else multiset{})
      && (result.Some? ==> forall p :: p in live ==> !Earlier(p, result.value))
  {
    hide Expired, Earlier, Unexpired, RemoveAt;
    var live := Unexpired(queue.payloads, now);
    if live != [] {
      RemoveAtMultiset(live, Earliest(live));
    }
  }

  /** A pop returns the earliest payload that has not expired, and nothing only if all have. What it leaves is the other
      unexpired payloads, each as often as it was queued, none earlier than what it returned. */
  lemma PopTakesEarliest(queue: TransportQueue, now: Word64)
    ensures var (rest, result) := Popped(queue, now);
      && (result == None <==> forall p :: p in queue.payloads ==> Expired(p, now))
      && (result.Some? ==>
           && result.value in queue.payloads && !Expired(result.value, now)
           && (forall p :: p in queue.payloads && !Expired(p, now) ==> !Earlier(p, result.value)))
      && (forall p :: p in rest.payloads ==>
           p in queue.payloads && !Expired(p, now) && result.Some? && !Earlier(p, result.value))
      && (forall p :: multiset(rest.payloads)[p] + (if result == Some(p) then 1 else 0) ==
           if Expired(p, now) then 0 else multiset(queue.payloads)[p])
  {
    hide Expired, Earlier, Unexpired, Popped;
    UnexpiredAre(queue.payloads, now);
    PopFromLive(queue, now);
    var live := Unexpired(queue.payloads, now);
    var (rest, result) := Popped(queue, now);
    forall p | p in rest.payloads ensures p in live {
      assert p in multiset(live);
    }
    if result.Some? {
      assert result.value in multiset(live);
    } else {
      assert forall p :: p in queue.payloads && !Expired(p, now) ==> p in live;
      assert multiset(live) == multiset{};
    }
  }

  /** The payloads that pops at these times return. */
  function PopAll(queue: TransportQueue, times: seq<Word64>): seq<Payload>
    decreases |times|
  {
    if times == [] then []
    else
      var (rest, result) := Popped(queue, times[0]);
      (if result.None? then [] else [result.value]) + PopAll(rest, times[1..])
  }

  lemma {:induction false} PopAllFromQueue(queue: TransportQueue, times: seq<Word64>)
    ensures forall p :: p in PopAll(queue, times) ==> p in queue.payloads
    decreases |times|
  {
    hide Popped;
    if times == [] {
    } else {
      PopTakesEarliest(queue, times[0]);
      PopAllFromQueue(Popped(queue, times[0]).0, times[1..]);
    }
  }

  ghost predicate InOrder(ps: seq<Payload>) {
    forall i, j :: 0 <= i < j < |ps| ==> !Earlier(ps[j], ps[i])
  }

  /** Pops without enqueues in between come out in the order of deadline and sequence, at whatever times. */
  lemma {:induction false} PopsAreSorted(queue: TransportQueue, times: seq<Word64>)
    ensures InOrder(PopAll(queue, times))
    decreases |times|
  {
    hide Popped;
    if times != [] {
      PopTakesEarliest(queue, times[0]);
      var (rest, result) := Popped(queue, times[0]);
      PopsAreSorted(rest, times[1..]);
      PopAllFromQueue(rest, times[1..]);
      var later := PopAll(rest, times[1..]);
      var ps := PopAll(queue, times);
      assert ps == (if result.None? then [] else [result.value]) + later;
      var n := if result.None? then 0 else 1;
      forall i, j | 0 <= i < j < |ps| ensures !Earlier(ps[j], ps[i]) {
        assert ps[j] == later[j - n] && later[j - n] in rest.payloads;
        if i < n {
          assert ps[i] == result.value && !Earlier(later[j - n], result.value);
        } else {
          assert ps[i] == later[i - n] && !Earlier(later[j - n], later[i - n]);
        }
      }
    }
  }
}
