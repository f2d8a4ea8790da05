/** What each operation of the scheduler does, told from outside: which payloads it accepts, which one gives way in a full
    queue, and what is counted. */
module SchedulerLaws {
  import opened Wrappers
  import opened Words
  import opened Payloads
  import opened Scheduling

  /** A payload of 1 to 512 bytes for one of the four transports is accepted if queues can hold anything; a refusal names
      the first reason and changes nothing. */
  lemma EnqueueAccepts(q: Queues, capacity: nat, p: Payload)
    ensures EnqueueError(capacity, p) == Scheduled <==> capacity > 0 && p.transport < 4 && 1 <= p.size <= 512
    ensures EnqueueError(capacity, p) == ZeroCapacity <==> capacity == 0
    ensures EnqueueError(capacity, p) == InvalidTransport <==> capacity > 0 && p.transport >= 4
    ensures EnqueueError(capacity, p) == InvalidPayload <==> capacity > 0 && p.transport < 4 && p.size == 0
    ensures EnqueueError(capacity, p) == PayloadTooLarge <==> capacity > 0 && p.transport < 4 && p.size > 512
    ensures EnqueueError(capacity, p) != Scheduled ==> Enqueued(q, capacity, p) == q
  {
  }

  /** Is the payload earlier, by deadline and then by sequence number, than all of these? */
  ghost predicate BeforeAll(p: Payload, queue: seq<Payload>) {
    forall x :: x in queue ==>
      p.deadline < x.deadline || (p.deadline == x.deadline && p.sequence < x.sequence)
  }

  /** An accepted payload is counted and joins the queue of its transport. A full queue counts one payload as dropped and
      gives up its first earliest payload for it, or the payload itself if that is earlier than all. */
  lemma EnqueueIs(q: Queues, capacity: nat, p: Payload)
    requires EnqueueError(capacity, p) == Scheduled && |q[p.transport].payloads| <= capacity
    ensures var t: nat := p.transport; var TransportQueue(queue, s) := q[t]; var full := |queue| == capacity;
      var after := Enqueued(q, capacity, p)[t];
      && after.stats == s.(expected := Counted(s.expected, 1), dropped := Counted(s.dropped, One(full)))
      && (!full ==> after.payloads == queue + [p])
      && (full && BeforeAll(p, queue) ==> after.payloads == queue)
      && (full && !BeforeAll(p, queue) ==> GivesUpEarliest(queue, p, after.payloads))
      && forall u :: 0 <= u < 4 && u != t ==> Enqueued(q, capacity, p)[u] == q[u]
  {
    hide RemoveAt, Earlier;
    var queue := q[p.transport].payloads;
    IncrementCounts(q[p.transport].stats.expected);
    IncrementCounts(q[p.transport].stats.dropped);
    if |queue| == capacity {
      BeforeAllIs(p, queue, Earliest(queue));
      if !BeforeAll(p, queue) {
        assert IsEarliest(queue, Earliest(queue));
      }
    }
  }

  ghost predicate GivesUpEarliest(queue: seq<Payload>, p: Payload, kept: seq<Payload>) {
    exists e :: 0 <= e < |queue| && IsEarliest(queue, e) && kept == RemoveAt(queue, e) + [p]
  }

  lemma BeforeAllIs(p: Payload, queue: seq<Payload>, e: nat)
    requires IsEarliest(queue, e)
    ensures BeforeAll(p, queue) <==> Earlier(p, queue[e])
  {
    forall x | x in queue && Earlier(p, queue[e])
      ensures p.deadline < x.deadline || (p.deadline == x.deadline && p.sequence < x.sequence)
    {
      var k :| 0 <= k < |queue| && queue[k] == x;
      assert !Earlier(queue[k], queue[e]);
    }
  }

  /** How many payloads are past their expiry. */
  function ExpiredCount(queue: seq<Payload>, now: Word64): nat {
    if queue == [] then 0
    else
      var last := queue[|queue| - 1];
      ExpiredCount(queue[..|queue| - 1], now) + One(last.expires > 0 && now > last.expires)
  }

  lemma {:induction false} UnexpiredCount(queue: seq<Payload>, now: Word64)
    ensures |Unexpired(queue, now)| + ExpiredCount(queue, now) == |queue|
    decreases |queue|
  {
    if queue == [] {
    } else {
      UnexpiredCount(queue[..|queue| - 1], now);
      LivesUntil(queue[|queue| - 1], now);
    }
  }

  /** A pop counts each payload past its expiry as dropped, and the one it returns as late if its deadline is over. It
      concerns the queue of one of the four transports only. */
  lemma PopCounts(q: Queues, transport: Byte, now: Word64)
    ensures transport >= 4 ==> PoppedFrom(q, transport, now) == (q, None)
    ensures transport < 4 ==>
      var (q', result) := PoppedFrom(q, transport, now);
      var TransportQueue(queue, s) := q[transport];
      && q'[transport].stats == s.(
           dropped := Counted(s.dropped, ExpiredCount(queue, now)),
           late := Counted(s.late, One(result.Some? && now > result.value.deadline)))
      && |queue| == |q'[transport].payloads| + ExpiredCount(queue, now) + One(result.Some?)
      && forall u :: 0 <= u < 4 && u != transport as nat ==> q'[u] == q[u]
  {
    hide IsEarliest, Unexpired, ExpiredCount;
    if transport < 4 {
      UnexpiredCount(q[transport].payloads, now);
      IncrementCounts(q[transport].stats.late);
      CountNone(q[transport].stats.late);
    }
  }
}
