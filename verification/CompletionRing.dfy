/** The completion ring between the Bluetooth host task and the transport: one producer and one consumer
    that share eight slots, two indices and an overflow counter, as interleaved atomic steps. */
module CompletionRing {
  import opened Words

  const SLOTS: nat := 8

  /** The slot of the k-th accepted event, and the slot after slot `i`. */
  function At(k: nat): nat {
    k % SLOTS
  }

  function After(i: nat): nat {
    (i + 1) % SLOTS
  }

  /** Less than a lap apart, two positions share a slot only if they are equal. */
  lemma AtDistinct(j: nat, k: nat)
    requires j <= k < j + SLOTS
    ensures At(j) == At(k) <==> j == k
  {
  }

  lemma AtFacts(k: nat)
    ensures At(k) < SLOTS && After(At(k)) == At(k + 1)
  {
    var q, r := k / 8, k % 8;
    if r + 1 < 8 {
      UniqueQuotient(k + 1, 8, q, r + 1);
    } else {
      UniqueQuotient(k + 1, 8, q + 1, 0);
    }
  }

  datatype Completion = Completion(status: int, advertisingEvents: Word16)

  /** Where enqueue_completion stands: the fields are what it has loaded so far. */
  datatype Producer =
    | Resting
    | Entered(event: Completion)
    | LoadedWrite(event: Completion, write: nat)
    | FoundFull(event: Completion)
    | FoundRoom(event: Completion, write: nat)
    | SlotWritten(event: Completion, write: nat)

  /** Where drain_completions stands. */
  datatype Consumer =
    | Away
    | LoadedRead(read: nat)
    | Draining(read: nat, write: nat)
    | Released

  datatype Offer = Offer(event: Completion, kept: bool)

  /** The shared variables, the two program counters, and a history: the decided offers in order, the
      consumed events, how many slots were handed back (`released`), how far the drain under way may go
      (`seen`), and how many overflows earlier drains collected. */
  datatype Ring = Ring(
    slots: seq<Completion>, write: nat, read: nat, overflows: Word32, producer: Producer, consumer: Consumer,
    offers: seq<Offer>, consumed: seq<Completion>, released: nat, seen: nat, collected: nat)

  datatype Step = Offering(offered: Completion) | LoadWrite | LoadRead | CountOverflow | WriteSlot | Publish
                | BeginDrain | LoadPublished | Take | Release | CollectOverflows

  function Kept(offers: seq<Offer>): seq<Completion> {
    if offers == [] then []
    else
      var last := offers[|offers| - 1];
      Kept(offers[..|offers| - 1]) + if last.kept then [last.event] else []
  }

  function Lost(offers: seq<Offer>): nat {
    if offers == [] then 0 else Lost(offers[..|offers| - 1]) + if offers[|offers| - 1].kept then 0 else 1
  }

  predicate Start(s: Ring) {
    && |s.slots| == SLOTS && s.write == s.read == 0 && s.overflows == 0
    && s.producer == Resting && s.consumer == Away
    && s.offers == [] && s.consumed == [] && s.released == s.seen == s.collected == 0
  }

  /** One atomic step of either side; a step whose turn it is not does nothing. */
  function Next(s: Ring, step: Step): Ring
    requires |s.slots| == SLOTS
  {
    match step
    case Offering(e) => if s.producer.Resting? then s.(producer := Entered(e)) else s
    case LoadWrite => if s.producer.Entered? then s.(producer := LoadedWrite(s.producer.event, s.write)) else s
    case LoadRead =>
      if !s.producer.LoadedWrite? then s
      else if After(s.producer.write) == s.read then s.(producer := FoundFull(s.producer.event))
      else s.(producer := FoundRoom(s.producer.event, s.producer.write))
    case CountOverflow =>
      if !s.producer.FoundFull? then s
      else s.(overflows := Unsigned32(s.overflows + 1), producer := Resting,
          offers := s.offers + [Offer(s.producer.event, false)])
    case WriteSlot =>
      if !s.producer.FoundRoom? || s.producer.write >= SLOTS then s
      else s.(slots := s.slots[s.producer.write := s.producer.event],
              producer := SlotWritten(s.producer.event, s.producer.write))
    case Publish =>
      if !s.producer.SlotWritten? then s
      else s.(write := After(s.producer.write), producer := Resting, offers := s.offers + [Offer(s.producer.event, true)])
    case BeginDrain => if s.consumer.Away? then s.(consumer := LoadedRead(s.read)) else s
    case LoadPublished =>
      if !s.consumer.LoadedRead? then s
      else s.(consumer := Draining(s.consumer.read, s.write), seen := |Kept(s.offers)|)
    case Take =>
      if !s.consumer.Draining? || s.consumer.read == s.consumer.write || s.consumer.read >= SLOTS then s
      else s.(consumed := s.consumed + [s.slots[s.consumer.read]],
              consumer := Draining(After(s.consumer.read), s.consumer.write))
    case Release =>
      if !s.consumer.Draining? || s.consumer.read != s.consumer.write then s
      else s.(read := s.consumer.read, released := |s.consumed|, consumer := Released)
    case CollectOverflows =>
      if !s.consumer.Released? then s
      else s.(overflows := 0, collected := Lost(s.offers), consumer := Away)
  }

  /** The invariant of every interleaving. */
  ghost predicate Consistent(s: Ring) {
    var accepted := Kept(s.offers);
    && |s.slots| == SLOTS
    && s.released <= |s.consumed| <= |accepted| <= s.released + SLOTS - 1
    && s.write == At(|accepted|) && s.read == At(s.released)
    && s.consumed == accepted[..|s.consumed|]
    && (forall k :: s.released <= k < |accepted| ==> At(k) < SLOTS && s.slots[At(k)] == accepted[k])
    && s.overflows == Unsigned32(Lost(s.offers) - s.collected)
    && (match s.producer
        case Resting | Entered(_) | FoundFull(_) => true
        case LoadedWrite(_, w) => w == At(|accepted|)
        case FoundRoom(_, w) => w == At(|accepted|) && |accepted| <= s.released + SLOTS - 2
        case SlotWritten(e, w) => w == At(|accepted|) && w < SLOTS && |accepted| <= s.released + SLOTS - 2 && s.slots[w] == e)
    && (match s.consumer
        case Draining(r, w) =>
          |s.consumed| <= s.seen <= |accepted| && r == At(|s.consumed|) && w == At(s.seen)
        case LoadedRead(r) => |s.consumed| == s.released && r == s.read
        case Away | Released => |s.consumed| == s.released)
  }

  lemma KeptAppend(offers: seq<Offer>, o: Offer)
    ensures Kept(offers + [o]) == Kept(offers) + if o.kept then [o.event] else []
    ensures Lost(offers + [o]) == Lost(offers) + if o.kept then 0 else 1
  {
    assert (offers + [o])[..|offers|] == offers;
  }

  lemma ProducerKeepsConsistent(s: Ring, step: Step)
    requires Consistent(s) && (step.Offering? || step.LoadWrite? || step.LoadRead? || step.WriteSlot?)
    ensures Consistent(Next(s, step))
  {
    hide Kept, Lost, Unsigned32, At, After;
    var p := |Kept(s.offers)|;
    AtFacts(p);
    if p + 1 == s.released + SLOTS {
      LapClosed(s.released);
    } else {
      AtDistinct(s.released, p + 1);
    }
    forall k | s.released <= k < p ensures At(k) != At(p) {
      AtDistinct(k, p);
    }
  }

  lemma LapClosed(j: nat)
    ensures At(j + SLOTS) == At(j)
  {
  }

  lemma DecisionKeepsConsistent(s: Ring, step: Step)
    requires Consistent(s) && (step.CountOverflow? || step.Publish?)
    ensures Consistent(Next(s, step))
  {
    hide Kept, Lost, At, After, Unsigned32;
    AtFacts(|Kept(s.offers)|);
    OneMoreOverflow(Lost(s.offers), s.collected);
    if s.producer.FoundFull? {
      KeptAppend(s.offers, Offer(s.producer.event, false));
    } else if s.producer.SlotWritten? {
      KeptAppend(s.offers, Offer(s.producer.event, true));
    }
  }

  lemma ConsumerKeepsConsistent(s: Ring, step: Step)
    requires Consistent(s) &&
        (step.BeginDrain? || step.LoadPublished? || step.Take? || step.Release? || step.CollectOverflows?)
    ensures Consistent(Next(s, step))
  {
    hide Kept, Lost, Unsigned32, At, After;
    AtFacts(|s.consumed|);
    if s.consumer.Draining? {
      AtDistinct(|s.consumed|, s.seen);
    }
    assert Unsigned32(0) == 0 by { NothingLost(); }
  }

  lemma OneMoreOverflow(lost: nat, collected: nat)
    ensures Unsigned32(Unsigned32(lost - collected) + 1) == Unsigned32(lost + 1 - collected)
  {
  }

  lemma NothingLost()
    ensures Unsigned32(0) == 0
  {
  }

  lemma NextKeepsConsistent(s: Ring, step: Step)
    requires Consistent(s)
    ensures Consistent(Next(s, step))
  {
    hide Consistent, Next;
    match step
    case Offering(_) | LoadWrite | LoadRead | WriteSlot => ProducerKeepsConsistent(s, step);
    case CountOverflow | Publish => DecisionKeepsConsistent(s, step);
    case _ => ConsumerKeepsConsistent(s, step);
  }

  // ----- Whole interleavings

  ghost function Run(s: Ring, steps: seq<Step>): Ring
    requires Consistent(s)
    ensures Consistent(Run(s, steps))
    decreases |steps|
  {
    hide Consistent, Next;
    if steps == [] then s
    else
      var before := Run(s, steps[..|steps| - 1]);
      NextKeepsConsistent(before, steps[|steps| - 1]);
      assert |before.slots| == SLOTS by { HasSlots(before); }
      Next(before, steps[|steps| - 1])
  }

  lemma HasSlots(s: Ring)
    requires Consistent(s)
    ensures |s.slots| == SLOTS
  {
  }

  lemma StartIsConsistent(s: Ring)
    requires Start(s)
    ensures Consistent(s)
  {
  }

  lemma {:induction false} EveryOfferDecidedOnce(offers: seq<Offer>)
    ensures |Kept(offers)| + Lost(offers) == |offers|
    decreases |offers|
  {
    if offers == [] {
    } else {
      EveryOfferDecidedOnce(offers[..|offers| - 1]);
    }
  }

  /** How many events the two indices say are in the ring. */
  function InRing(s: Ring): nat {
    Gap(s.write, s.read)
  }

  function Gap(write: nat, read: nat): nat {
    (write - read) % SLOTS
  }

  lemma LapDistance(j: nat, k: nat)
    requires j <= k < j + SLOTS
    ensures Gap(At(k), At(j)) == k - j
  {
  }

  lemma ConsistentIsFifo(r: Ring)
    requires Consistent(r)
    ensures var accepted := Kept(r.offers);
      && r.released <= |r.consumed| && r.consumed <= accepted
      && |r.offers| == r.released + InRing(r) + Lost(r.offers)
      && InRing(r) <= SLOTS - 1
      && r.overflows == Unsigned32(Lost(r.offers) - r.collected)
  {
    hide Kept, Lost, Unsigned32, At, After, Gap;
    EveryOfferDecidedOnce(r.offers);
    LapDistance(r.released, |Kept(r.offers)|);
  }

  /** The ring is a FIFO in every interleaving: the consumed events are the accepted ones, in order and
      once each; every decided offer was handed back, is in the ring, or was counted as an overflow; at
      most seven are in the ring; and the shared counter is what earlier drains have not collected. */
  lemma RingIsFifo(s: Ring, steps: seq<Step>)
    requires Start(s)
    ensures Consistent(s)
    ensures var r := Run(s, steps); var accepted := Kept(r.offers);
      && r.released <= |r.consumed| && r.consumed <= accepted
      && |r.offers| == r.released + InRing(r) + Lost(r.offers)
      && InRing(r) <= SLOTS - 1
      && r.overflows == Unsigned32(Lost(r.offers) - r.collected)
  {
    hide *;
    StartIsConsistent(s);
    ConsistentIsFifo(Run(s, steps));
  }

  /** While the producer holds a slot to write, no position the consumer may still read lies in it. */
  lemma ProducerNeverTouchesHeldSlots(s: Ring, steps: seq<Step>, k: nat)
    requires Start(s) && Consistent(s)
    requires var r := Run(s, steps);
      (r.producer.FoundRoom? || r.producer.SlotWritten?) && r.released <= k < |Kept(r.offers)|
    ensures Run(s, steps).producer.write != At(k)
  {
    AtDistinct(k, |Kept(Run(s, steps).offers)|);
  }

  /** An event is turned away exactly when seven events have not been handed back at that moment. */
  lemma OverflowOnlyWhenFull(s: Ring)
    requires Consistent(s) && s.producer.LoadedWrite?
    ensures Next(s, LoadRead).producer.FoundFull? <==> |Kept(s.offers)| - s.released == SLOTS - 1
  {
    hide Kept, At, After, Unsigned32, Lost;
    var p := |Kept(s.offers)|;
    AtFacts(p);
    if p + 1 == s.released + SLOTS {
      LapClosed(s.released);
    } else {
      AtDistinct(s.released, p + 1);
    }
  }

  /** A drain hands back exactly the events that were published when it loaded the write index. */
  lemma DrainTakesWhatWasPublished(s: Ring)
    requires Consistent(s) && s.consumer.Draining? && s.consumer.read == s.consumer.write
    ensures Next(s, Release).released == s.seen == |s.consumed|
  {
    AtDistinct(|s.consumed|, s.seen);
  }

  // ----- No event vanishes between the call and the decision

  function Events(offers: seq<Offer>): seq<Completion> {
    seq(|offers|, i requires 0 <= i < |offers| => offers[i].event)
  }

  function InHand(p: Producer): seq<Completion> {
    if p.Resting? then [] else [p.event]
  }

  /** Every call's event is decided, in call order, or is in the producer's hand. */
  lemma StepDecidesInOrder(s: Ring, step: Step)
    requires |s.slots| == SLOTS
    ensures var s' := Next(s, step);
      Events(s'.offers) + InHand(s'.producer) == Events(s.offers) + InHand(s.producer) + Called(s, step)
  {
  }

  /** The event of a call that a step begins. */
  function Called(s: Ring, step: Step): seq<Completion> {
    if step.Offering? && s.producer.Resting? then [step.offered] else []
  }

  /** The events of all calls of an interleaving, in order. */
  ghost function Calls(s: Ring, steps: seq<Step>): seq<Completion>
    requires Consistent(s)
    decreases |steps|
  {
    if steps == [] then []
    else Calls(s, steps[..|steps| - 1]) + Called(Run(s, steps[..|steps| - 1]), steps[|steps| - 1])
  }

  /** In every interleaving the decided events, and the one in the producer's hand, are the events of the calls in the
      order of the calls: none is lost, doubled or reordered before it is decided. */
  lemma {:induction false} CallsAreDecidedInOrder(s: Ring, steps: seq<Step>)
    requires Start(s)
    ensures Consistent(s)
    ensures var r := Run(s, steps); Events(r.offers) + InHand(r.producer) == Calls(s, steps)
    decreases |steps|
  {
    hide Next, Consistent, Events, InHand, Called;
    StartIsConsistent(s);
    if steps == [] {
      assert Events(s.offers) + InHand(s.producer) == [] by { NothingCalled(s); }
    } else {
      var before := Run(s, steps[..|steps| - 1]);
      CallsAreDecidedInOrder(s, steps[..|steps| - 1]);
      HasSlots(before);
      StepDecidesInOrder(before, steps[|steps| - 1]);
    }
  }

  lemma NothingCalled(s: Ring)
    requires Start(s)
    ensures Events(s.offers) + InHand(s.producer) == []
  {
  }
}
