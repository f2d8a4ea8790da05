/** Whole runs of the scheduler: the transports do not interfere, and every payload is accounted for. */
module SchedulerSafety {
  import opened Wrappers
  import opened Words
  import opened Payloads
  import opened Scheduling

  datatype Event = Enqueue(payload: Payload) | Pop(transport: Byte, now: Word64)

  function Next(capacity: nat, q: Queues, e: Event): (Queues, Option<Payload>) {
    match e
    case Enqueue(p) => (Enqueued(q, capacity, p), None)
    case Pop(transport, now) => PoppedFrom(q, transport, now)
  }

  function Run(capacity: nat, events: seq<Event>): Queues {
    if events == [] then NO_QUEUES else Next(capacity, Run(capacity, events[..|events| - 1]), events[|events| - 1]).0
  }

  /** How many payloads the pops of transport `t` have returned. */
  function PopCount(capacity: nat, events: seq<Event>, t: nat): nat {
    if events == [] then 0
    else
      var front, e := events[..|events| - 1], events[|events| - 1];
      PopCount(capacity, front, t) +
      if e.Pop? && e.transport as nat == t && Next(capacity, Run(capacity, front), e).1.Some? then 1 else 0
  }

  predicate Concerns(e: Event, t: nat) {
    match e
    case Enqueue(p) => p.transport as nat == t
    case Pop(transport, _) => transport as nat == t
  }

  function Only(events: seq<Event>, t: nat): seq<Event> {
    if events == [] then []
    else Only(events[..|events| - 1], t) + if Concerns(events[|events| - 1], t) then [events[|events| - 1]] else []
  }

  /** A step changes a transport's queue only by an event of that transport, and only by what it held. */
  lemma StepIsLocal(capacity: nat, p: Queues, q: Queues, e: Event, t: nat)
    requires t < TRANSPORT_COUNT && p[t] == q[t]
    ensures Concerns(e, t) ==> Next(capacity, p, e).0[t] == Next(capacity, q, e).0[t]
    ensures !Concerns(e, t) ==> Next(capacity, p, e).0[t] == p[t]
  {
    hide Kept, Popped;
  }

  /** The queue and the counters of a transport are what its own events alone would have made them. */
  lemma {:induction false} TransportsDoNotInterfere(capacity: nat, events: seq<Event>, t: nat)
    requires t < TRANSPORT_COUNT
    ensures Run(capacity, events)[t] == Run(capacity, Only(events, t))[t]
    decreases |events|
  {
    hide Next, Concerns;
    if events == [] {
    } else {
      var front, e := events[..|events| - 1], events[|events| - 1];
      TransportsDoNotInterfere(capacity, front, t);
      var mine := Only(front, t);
      StepIsLocal(capacity, Run(capacity, front), Run(capacity, mine), e, t);
      assert (mine + [e])[..|mine|] == mine;
      assert mine + [] == mine;
    }
  }

  // ----- Conservation

  predicate Conserved(queue: TransportQueue, popped: nat) {
    queue.stats.expected < MAX64 ==>
      queue.stats.expected == popped + queue.stats.dropped + |queue.payloads|
  }

  lemma PopConserves(queue: TransportQueue, now: Word64, popped: nat)
    requires Conserved(queue, popped)
    ensures var (rest, result) := Popped(queue, now); Conserved(rest, popped + if result.Some? then 1 else 0)
  {
    hide Unexpired, IsEarliest;
    UnexpiredIsShorter(queue.payloads, now);
  }

  lemma EnqueueConserves(q: Queues, capacity: nat, p: Payload, t: nat, popped: nat)
    requires t < TRANSPORT_COUNT && Conserved(q[t], popped) && (capacity > 0 ==> |q[t].payloads| <= capacity)
    ensures Conserved(Enqueued(q, capacity, p)[t], popped)
    ensures capacity > 0 ==> |Enqueued(q, capacity, p)[t].payloads| <= capacity
  {
    hide IsEarliest, Earlier;
  }

  /** Conservation for each transport over every run: while its counter of offered payloads is not saturated,
      offered = popped + dropped + waiting; and no queue ever exceeds its capacity. */
  lemma {:induction false} NothingIsLost(capacity: nat, events: seq<Event>, t: nat)
    requires t < TRANSPORT_COUNT
    ensures Conserved(Run(capacity, events)[t], PopCount(capacity, events, t))
    ensures capacity > 0 ==> |Run(capacity, events)[t].payloads| <= capacity
    decreases |events|
  {
    hide Enqueued, Popped, Conserved;
    if events == [] {
      assert Conserved(NO_QUEUES[t], 0) by { NothingYet(t); }
    } else {
      var front, e := events[..|events| - 1], events[|events| - 1];
      NothingIsLost(capacity, front, t);
      var q := Run(capacity, front);
      match e {
        case Enqueue(p) => EnqueueConserves(q, capacity, p, t, PopCount(capacity, front, t));
        case Pop(transport, now) =>
          PopConserves(q[t], now, PopCount(capacity, front, t));
          PopShrinks(q[t], now);
      }
    }
  }

  lemma NothingYet(t: nat)
    requires t < TRANSPORT_COUNT
    ensures Conserved(NO_QUEUES[t], 0)
  {
  }

  lemma PopShrinks(queue: TransportQueue, now: Word64)
    ensures |Popped(queue, now).0.payloads| <= |queue.payloads|
  {
    hide Unexpired, IsEarliest;
    UnexpiredIsShorter(queue.payloads, now);
  }

  // ----- Overload of the whole scheduler

  /** The payloads offered to transport `t` that were not refused. */
  function Offers(capacity: nat, events: seq<Event>, t: nat): seq<Payload> {
    if events == [] then []
    else
      var e := events[|events| - 1];
      Offers(capacity, events[..|events| - 1], t) +
      if e.Enqueue? && EnqueueError(capacity, e.payload) == Scheduled && e.payload.transport as nat == t then [e.payload] else []
  }

  /** Without pops, each queue holds the latest payloads offered to its transport. */
  lemma {:induction false} QueuesHoldTheLatest(capacity: nat, events: seq<Event>, t: nat)
    requires capacity > 0 && t < TRANSPORT_COUNT && forall i :: 0 <= i < |events| ==> events[i].Enqueue?
    ensures Run(capacity, events)[t].payloads == OfferAll(capacity, Offers(capacity, events, t))
    ensures KeepsLatest(Run(capacity, events)[t].payloads, capacity, Offers(capacity, events, t))
    decreases |events|
  {
    hide Kept, EnqueueError, KeepsLatest;
    if events != [] {
      var front, e := events[..|events| - 1], events[|events| - 1];
      QueuesHoldTheLatest(capacity, front, t);
      if EnqueueError(capacity, e.payload) == Scheduled && e.payload.transport as nat == t {
        var offers := Offers(capacity, events, t);
        assert offers[..|offers| - 1] == Offers(capacity, front, t);
      } else {
        assert Offers(capacity, events, t) == Offers(capacity, front, t);
      }
    }
    HoldsTheLatest(capacity, Offers(capacity, events, t));
  }
}
