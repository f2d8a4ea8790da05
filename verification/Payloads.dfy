/** Scheduled payloads, the earliest-deadline order the queues share, and the transport counters. */
module Payloads {
  import opened Words

  const MAX_PAYLOAD: nat := 512

  datatype Payload = Payload(
    sequence: Word32, aircraftIndex: Word16, transport: Byte, kind: Byte,
    deadline: Word64, expires: Word64, size: Word16, bytes: seq<Byte>)

  datatype TransportStats = TransportStats(
    expected: Word64, submitted: Word64, completed: Word64, late: Word64,
    dropped: Word64, encodeErrors: Word64, radioErrors: Word64)

  const NO_STATS: TransportStats := TransportStats(0, 0, 0, 0, 0, 0, 0)

  /** The counters of two transports, or of two bands. */
  type StatsTable = s: seq<TransportStats> | |s| == 2 witness [NO_STATS, NO_STATS]

  /** Lexicographic order of (deadline, sequence). */
  predicate Earlier(left: Payload, right: Payload) {
    if left.deadline != right.deadline then left.deadline < right.deadline else left.sequence < right.sequence
  }

  predicate SameKey(left: Payload, right: Payload) {
    left.deadline == right.deadline && left.sequence == right.sequence
  }

  /** Past its expiry; an expiry of zero means never. */
  predicate Expired(p: Payload, now: Word64) {
    p.expires != 0 && now > p.expires
  }

  /** The order is that of the deadlines, and of the sequence numbers where the deadlines agree. */
  lemma KeysAreOrdered(left: Payload, right: Payload)
    ensures left.deadline < right.deadline ==> Earlier(left, right) && !Earlier(right, left)
    ensures left.deadline == right.deadline ==> (Earlier(left, right) <==> left.sequence < right.sequence)
  {
  }

  /** A payload lives up to and including its expiry, and for ever without one. */
  lemma LivesUntil(p: Payload, now: Word64)
    ensures !Expired(p, now) <==> p.expires == 0 || now <= p.expires
  {
  }

  /** A counter after so many saturating increments. */
  function Counted(counter: Word64, times: nat): Word64 {
    if counter + times <= MAX64 then counter + times else MAX64
  }

  lemma CountOneMore(counter: Word64, times: nat)
    ensures SaturatingIncrement(Counted(counter, times)) == Counted(counter, times + 1)
  {
  }

  lemma CountNone(counter: Word64)
    ensures Counted(counter, 0) == counter
  {
  }

  /** One or none, for counting. */
  function One(yes: bool): nat {
    if yes then 1 else 0
  }

  lemma CountedTwice(counter: Word64, m: nat, n: nat)
    ensures Counted(Counted(counter, m), n) == Counted(counter, m + n)
  {
  }

  /** A saturating increment counts one, up to the greatest 64-bit word. */
  lemma IncrementCounts(counter: Word64)
    ensures SaturatingIncrement(counter) == Counted(counter, 1)
  {
  }

  /** No payload is earlier than the one at `i`, and those before it are all later. */
  ghost predicate IsEarliest(queue: seq<Payload>, i: nat) {
    && i < |queue|
    && (forall k :: 0 <= k < |queue| ==> !Earlier(queue[k], queue[i]))
    && (forall k :: 0 <= k < i ==> Earlier(queue[i], queue[k]))
  }

  function Earliest(queue: seq<Payload>): (i: nat)
    requires queue != []
    ensures i < |queue| && IsEarliest(queue, i)
  {
    var last := |queue| - 1;
    if last == 0 then 0
    else
      var best := Earliest(queue[..last]);
      if Earlier(queue[last], queue[best]) then last else best
  }

  function RemoveAt<T>(queue: seq<T>, i: nat): (rest: seq<T>)
    requires i < |queue|
    ensures |rest| == |queue| - 1
  {
    queue[..i] + queue[i + 1..]
  }

  /** Removing one element takes exactly that one out of the multiset. */
  lemma RemoveAtMultiset<T>(queue: seq<T>, i: nat)
    requires i < |queue|
    ensures multiset(queue) == multiset(RemoveAt(queue, i)) + multiset{queue[i]}
  {
    assert queue == queue[..i] + [queue[i]] + queue[i + 1..];
  }

  lemma RestWasThere<T>(queue: seq<T>, i: nat)
    requires i < |queue|
    ensures forall x :: x in RemoveAt(queue, i) ==> x in queue
  {
  }

  lemma RemoveMiddle<T>(left: seq<T>, x: T, right: seq<T>)
    ensures RemoveAt(left + ([x] + right), |left|) == left + right
  {
  }

  lemma RestIsLater(queue: seq<Payload>, e: nat)
    requires IsEarliest(queue, e)
    ensures forall p :: p in RemoveAt(queue, e) ==> !Earlier(p, queue[e])
  {
    forall p | p in RemoveAt(queue, e) ensures !Earlier(p, queue[e]) {
      var k :| 0 <= k < |queue| - 1 && RemoveAt(queue, e)[k] == p;
      assert p == queue[if k < e then k else k + 1];
    }
  }

  /** How many of the queued payloads go to transport `t`. */
  function CountOf(queue: seq<Payload>, t: Byte): nat {
    if queue == [] then 0 else (if queue[0].transport == t then 1 else 0) + CountOf(queue[1..], t)
  }

  lemma {:induction false} CountAppend(left: seq<Payload>, right: seq<Payload>, t: Byte)
    ensures CountOf(left + right, t) == CountOf(left, t) + CountOf(right, t)
  {
    if left == [] {
      assert left + right == right;
    } else {
      assert (left + right)[1..] == left[1..] + right;
      CountAppend(left[1..], right, t);
    }
  }

  lemma CountPush(queue: seq<Payload>, p: Payload, t: Byte)
    ensures CountOf(queue + [p], t) == CountOf(queue, t) + if p.transport == t then 1 else 0
  {
    CountAppend(queue, [p], t);
  }

  lemma CountRemove(queue: seq<Payload>, i: nat, t: Byte)
    requires i < |queue|
    ensures CountOf(queue, t) == CountOf(RemoveAt(queue, i), t) + if queue[i].transport == t then 1 else 0
  {
    assert queue == queue[..i] + ([queue[i]] + queue[i + 1..]);
    CountAppend(queue[..i], [queue[i]] + queue[i + 1..], t);
    CountAppend(queue[..i], queue[i + 1..], t);
  }

  /** The scan the transports make over the pending payloads. */
  method EarliestIndex(pending: array<Payload>, count: nat) returns (result: nat)
    requires 0 < count <= pending.Length
    ensures result == Earliest(pending[..count])
  {
    hide IsEarliest;
    result := 0;
    for index := 1 to count
      invariant result == Earliest(pending[..index])
    {
      assert pending[..index + 1][..index] == pending[..index];
      if Earlier(pending[index], pending[result]) { result := index; }
    }
  }

  /** Erasing one pending payload moves the later ones down by one place. */
  method ShiftDown(pending: array<Payload>, index: nat, count: nat)
    requires index < count <= pending.Length
    modifies pending
    ensures pending[..count - 1] == RemoveAt(old(pending[..count]), index)
    ensures pending[count..] == old(pending[count..])
  {
    hide RemoveAt;
    for current := index + 1 to count
      invariant forall k :: 0 <= k < pending.Length ==>
        pending[k] == if index <= k < current - 1 then old(pending[k + 1]) else old(pending[k])
    {
      pending[current - 1] := pending[current];
    }
    assert pending[..count - 1][..index] == old(pending[..count])[..index];
    assert pending[..count - 1][index..] == old(pending[..count])[index + 1..];
    IsRemoveAt(old(pending[..count]), index, pending[..count - 1]);
  }

  lemma IsRemoveAt<T>(queue: seq<T>, i: nat, rest: seq<T>)
    requires i < |queue| && |rest| == |queue| - 1
    requires rest[..i] == queue[..i] && rest[i..] == queue[i + 1..]
    ensures rest == RemoveAt(queue, i)
  {
    assert rest == rest[..i] + rest[i..];
  }
}
