/** The interleaved completion ring against the transport's view of it: the slots between the two indices hold the
    accepted completions that have not been handed back, and an undisturbed call does what the transport says. */
module RingRefinement {
  import opened Words
  import opened Payloads
  import opened CompletionRing
  import opened Bluetooth

  /** The accepted completions not yet handed back. */
  ghost function Held(r: Ring): seq<Completion>
    requires Consistent(r)
  {
    Kept(r.offers)[r.released..]
  }

  lemma BetweenAt(slots: seq<Completion>, read: nat, write: nat, k: nat)
    requires |slots| == SLOTS && read < SLOTS && write < SLOTS && k < |Between(slots, read, write)|
    ensures At(read + k) < SLOTS && Between(slots, read, write)[k] == slots[At(read + k)]
  {
    if read + k < SLOTS {
      assert At(read + k) == read + k;
    } else {
      assert At(read + k) == read + k - SLOTS;
    }
  }

  lemma BetweenSize(slots: seq<Completion>, read: nat, write: nat)
    requires |slots| == SLOTS && read < SLOTS && write < SLOTS
    ensures |Between(slots, read, write)| == Gap(write, read)
  {
  }

  lemma AtShift(j: nat, k: nat)
    ensures At(At(j) + k) == At(j + k)
  {
  }

  /** What the transport takes for the contents of the ring is what has been accepted and not handed back, in every
      reachable state of every interleaving. */
  lemma RingHoldsTheUndrained(r: Ring)
    requires Consistent(r)
    ensures r.read < SLOTS && r.write < SLOTS && Between(r.slots, r.read, r.write) == Held(r)
  {
    hide Between, At, Gap, Kept, Lost, Unsigned32;
    var accepted := Kept(r.offers);
    AtFacts(r.released);
    AtFacts(|accepted|);
    BetweenSize(r.slots, r.read, r.write);
    LapDistance(r.released, |accepted|);
    var between := Between(r.slots, r.read, r.write);
    forall k | 0 <= k < |between| ensures between[k] == accepted[r.released..][k] {
      BetweenAt(r.slots, r.read, r.write, k);
      AtShift(r.released, k);
      assert accepted[r.released..][k] == accepted[r.released + k];
    }
  }

  /** One whole call of enqueue_completion without a step of the consumer in between. */
  ghost function Enqueued(r: Ring, e: Completion): Ring
    requires Consistent(r)
  {
    hide Consistent, Next;
    Run(r, [Offering(e), LoadWrite, LoadRead, CountOverflow, WriteSlot, Publish])
  }

  /** What the transport and the ring have in common. */
  ghost predicate Shows(b: Ble, r: Ring)
    requires Consistent(r)
  {
    b.ring == Held(r) && b.overflows == r.overflows
  }

  lemma RunStep(r: Ring, steps: seq<Step>, step: Step)
    requires Consistent(r)
    ensures |Run(r, steps).slots| == SLOTS && Run(r, steps + [step]) == Next(Run(r, steps), step)
  {
    hide Next;
    assert (steps + [step])[..|steps|] == steps;
    HasSlots(Run(r, steps));
  }

  lemma RunNone(r: Ring)
    requires Consistent(r)
    ensures Run(r, []) == r
  {
  }

  lemma Decides(r: Ring, e: Completion)
    requires Consistent(r) && r.producer.Resting?
    ensures Run(r, [Offering(e), LoadWrite, LoadRead]) ==
      r.(producer := if After(r.write) == r.read then FoundFull(e) else FoundRoom(e, r.write))
  {
    hide Run, After, Consistent;
    RunNone(r);
    RunStep(r, [], Offering(e));
    RunStep(r, [Offering(e)], LoadWrite);
    RunStep(r, [Offering(e), LoadWrite], LoadRead);
    assert [] + [Offering(e)] == [Offering(e)];
    assert [Offering(e)] + [LoadWrite] == [Offering(e), LoadWrite];
    assert [Offering(e), LoadWrite] + [LoadRead] == [Offering(e), LoadWrite, LoadRead];
  }

  lemma EnqueuedSteps(r: Ring, e: Completion)
    requires Consistent(r) && r.producer.Resting?
    ensures var r' := Enqueued(r, e);
      r' == if After(r.write) == r.read
            then r.(overflows := Unsigned32(r.overflows + 1), offers := r.offers + [Offer(e, false)])
            else r.(slots := r'.slots, write := After(r.write), offers := r.offers + [Offer(e, true)])
  {
    hide Run, After, Consistent, Unsigned32;
    Decides(r, e);
    var decided := [Offering(e), LoadWrite, LoadRead];
    RunStep(r, decided, CountOverflow);
    RunStep(r, decided + [CountOverflow], WriteSlot);
    RunStep(r, decided + [CountOverflow] + [WriteSlot], Publish);
    assert r.write < SLOTS by { WritesInside(r); }
    assert decided + [CountOverflow] + [WriteSlot] + [Publish] ==
           [Offering(e), LoadWrite, LoadRead, CountOverflow, WriteSlot, Publish];
  }

  lemma WritesInside(r: Ring)
    requires Consistent(r)
    ensures r.write < SLOTS
  {
  }

  /** An undisturbed call does to the ring what a reported completion does to the transport: it is appended if fewer
      than seven are held, and counted as an overflow otherwise. */
  lemma EnqueueRefines(b: Ble, r: Ring, e: Completion)
    requires Consistent(r) && r.producer.Resting? && Shows(b, r)
    ensures Shows(Reported(b, e), Enqueued(r, e)) && Enqueued(r, e).producer.Resting?
  {
    hide Enqueued, At, After, Lost, Unsigned32, Kept, Consistent;
    EnqueuedSteps(r, e);
    var p := |Kept(r.offers)|;
    KeptAppend(r.offers, Offer(e, false));
    KeptAppend(r.offers, Offer(e, true));
    FullWhen(r);
    assert r.released <= p by { ReleasedBound(r); }
  }

  lemma ReleasedBound(r: Ring)
    requires Consistent(r)
    ensures r.released <= |Kept(r.offers)|
  {
  }

  lemma FullWhen(r: Ring)
    requires Consistent(r)
    ensures After(r.write) == r.read <==> |Held(r)| == SLOTS - 1
  {
    hide At, After, Lost, Unsigned32, Kept;
    var p := |Kept(r.offers)|;
    AtFacts(p);
    if p + 1 == r.released + SLOTS {
      LapClosed(r.released);
    } else {
      AtDistinct(r.released, p + 1);
    }
  }
}
