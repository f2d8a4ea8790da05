/** What every run of the Bluetooth transport keeps: no payload is unaccounted for, and what a poll sends. */
module BluetoothSafety {
  import opened Wrappers
  import opened Words
  import opened Config
  import opened Payloads
  import opened CompletionRing
  import opened Bluetooth

  datatype Event =
    | Submit(payload: Payload)
    | Poll(now: Word64, configures: bool, starts: bool)
    | Complete(completion: Completion)
    | Shutdown(resets: bool)

  const INITIAL: Ble := Ble([], [], 0, [NO_STATS, NO_STATS], BLE4, false, false, false)

  function Next(b: Ble, e: Event): Ble {
    match e
    case Submit(p) => Submitted(b, p)
    case Poll(now, configures, starts) => Polled(b, now, configures, starts).0
    case Complete(c) => Reported(b, c)
    case Shutdown(resets) => ShutDown(b, resets)
  }

  function Run(b: Ble, events: seq<Event>): Ble {
    if events == [] then b else Next(Run(b, events[..|events| - 1]), events[|events| - 1])
  }

  // ----- Conservation

  function InFlight(b: Ble, t: Byte): nat {
    if b.busy && b.active == t then 1 else 0
  }

  /** Every payload accepted for `t` waits, was dropped, completed, failed, or is in flight. */
  predicate Conserved(b: Ble, t: Byte) {
    var s := b.stats[StatsIndex(t)];
    s.expected < MAX64 ==>
      s.expected == CountOf(b.queue, t) + s.dropped + s.completed + s.radioErrors + InFlight(b, t)
  }

  predicate IsBle(t: Byte) {
    t == BLE4 || t == BLE5
  }

  ghost predicate Accounted(b: Ble) {
    && (forall k :: 0 <= k < |b.queue| ==> IsBle(b.queue[k].transport))
    && IsBle(b.active) && Conserved(b, BLE4) && Conserved(b, BLE5)
  }

  lemma SubmitAccounts(b: Ble, p: Payload)
    requires Accounted(b)
    ensures Accounted(Submitted(b, p))
  {
    CountPush(b.queue, p, BLE4);
    CountPush(b.queue, p, BLE5);
  }

  lemma AbsorbAccounts(b: Ble, events: seq<Completion>)
    requires Accounted(b)
    ensures Accounted(Absorbed(b, events))
  {
    hide CountOf, Succeeded;
  }

  lemma OverflowAccounts(b: Ble)
    requires Accounted(b)
    ensures Accounted(Overflowed(b))
  {
    hide CountOf;
  }

  /** Neither the ring nor the shutdown flag is part of the account. */
  lemma SameAccount(b: Ble, ring: seq<Completion>, overflows: Word32, shuttingDown: bool)
    requires Accounted(b)
    ensures Accounted(b.(ring := ring, overflows := overflows, shuttingDown := shuttingDown))
  {
    hide CountOf, StatsIndex;
  }

  lemma DrainAccounts(b: Ble)
    requires Accounted(b)
    ensures Accounted(Drained(b))
  {
    hide Accounted, Absorbed, Overflowed;
    AbsorbAccounts(b, b.ring);
    var a := Absorbed(b, b.ring);
    SameAccount(a, [], a.overflows, a.shuttingDown);
    OverflowAccounts(a.(ring := []));
  }

  lemma {:induction false} AdvertiseAccounts(b: Ble, now: Word64, configures: bool, starts: bool)
    requires Accounted(b) && !b.busy
    ensures Accounted(Advertised(b, now, configures, starts).0)
    decreases |b.queue|
  {
    hide CountOf, IsEarliest;
    if b.queue == [] {
    } else {
      var e := Earliest(b.queue);
      CountRemove(b.queue, e, BLE4);
      CountRemove(b.queue, e, BLE5);
      var (b', done, _) := SentOrDropped(b.(queue := RemoveAt(b.queue, e)), b.queue[e], now, configures, starts);
      if !done {
        AdvertiseAccounts(b', now, configures, starts);
      }
    }
  }

  lemma NextAccounts(b: Ble, e: Event)
    requires b.shutDown || Accounted(b)
    ensures Next(b, e).shutDown || Accounted(Next(b, e))
  {
    hide Drained, Accounted, SubmitError, Advertised;
    match e
    case Submit(p) => if !b.shutDown { SubmitAccounts(b, p); }
    case Poll(now, configures, starts) =>
      if !b.shutDown && !b.shuttingDown {
        DrainAccounts(b);
        if !Drained(b).busy { AdvertiseAccounts(Drained(b), now, configures, starts); }
      }
    case Complete(c) =>
      if !b.shutDown {
        var r := Reported(b, c);
        SameAccount(b, r.ring, r.overflows, b.shuttingDown);
      }
    case Shutdown(resets) => if !b.shutDown && !resets { SameAccount(b, b.ring, b.overflows, true); }
  }

  /** Conservation over every interleaving of submits, polls, completions, overflows, backend failures and
      failed shutdowns, up to a completed shutdown: for each transport, while its counter of accepted
      payloads is not saturated, accepted = waiting + dropped + completed + failed + in flight. */
  lemma {:induction false} NothingIsLost(events: seq<Event>)
    ensures var b := Run(INITIAL, events); b.shutDown || Accounted(b)
    decreases |events|
  {
    hide Next;
    if events == [] {
    } else {
      NothingIsLost(events[..|events| - 1]);
      NextAccounts(Run(INITIAL, events[..|events| - 1]), events[|events| - 1]);
    }
  }

  // ----- What a poll takes from the queue

  /** `dropped` have expired and stood before `taken`, which has not and stood before all that is `left`. */
  ghost predicate TookEarliest(queue: seq<Payload>, left: seq<Payload>, dropped: seq<Payload>, taken: seq<Payload>,
      now: Word64) {
    && multiset(queue) == multiset(left) + multiset(dropped) + multiset(taken)
    && (forall p :: p in dropped ==> Expired(p, now))
    && |taken| <= 1
    && (taken == [] ==> left == [])
    && (taken != [] ==>
         && !Expired(taken[0], now)
         && (forall p :: p in dropped ==> !Earlier(taken[0], p))
         && (forall p :: p in left ==> !Earlier(p, taken[0])))
  }

  lemma TakeFirst(queue: seq<Payload>, e: nat, now: Word64)
    requires IsEarliest(queue, e) && !Expired(queue[e], now)
    ensures TookEarliest(queue, RemoveAt(queue, e), [], [queue[e]], now)
  {
    RemoveAtMultiset(queue, e);
    RestIsLater(queue, e);
    hide RemoveAt, IsEarliest, Earlier;
  }

  lemma DropFirst(queue: seq<Payload>, e: nat, left: seq<Payload>, dropped: seq<Payload>, taken: seq<Payload>,
      now: Word64)
    requires IsEarliest(queue, e) && Expired(queue[e], now)
    requires TookEarliest(RemoveAt(queue, e), left, dropped, taken, now)
    ensures TookEarliest(queue, left, [queue[e]] + dropped, taken, now)
  {
    RemoveAtMultiset(queue, e);
    RestIsLater(queue, e);
    assert multiset([queue[e]] + dropped) == multiset{queue[e]} + multiset(dropped);
    if taken != [] {
      assert taken[0] in multiset(RemoveAt(queue, e));
    }
  }

  /** The sending loop takes the earliest unexpired payload, after dropping exactly the expired ones in front of it; it
      leaves everything else. It takes nothing only when all that waited has expired. */
  lemma {:induction false} LoopTakesEarliest(b: Ble, now: Word64, configures: bool, starts: bool)
      returns (dropped: seq<Payload>, taken: seq<Payload>)
    ensures var (b', error, sent) := Advertised(b, now, configures, starts);
      && TookEarliest(b.queue, b'.queue, dropped, taken, now)
      && sent == (if taken != [] && configures && starts then Some(taken[0]) else None)
      && error == (if taken == [] || (configures && starts) then BleOk else BackendError)
    decreases |b.queue|
  {
    hide TookEarliest, IsEarliest, StatsIndex, RemoveAt;
    dropped, taken := [], [];
    if b.queue == [] {
      assert TookEarliest([], [], [], [], now) by { TookNothing(now); }
    } else {
      var e := Earliest(b.queue);
      var p := b.queue[e];
      var (b1, done, error) := SentOrDropped(b.(queue := RemoveAt(b.queue, e)), p, now, configures, starts);
      if done {
        taken := [p];
        TakeFirst(b.queue, e, now);
      } else {
        var others;
        others, taken := LoopTakesEarliest(b1, now, configures, starts);
        dropped := [p] + others;
        DropFirst(b.queue, e, Advertised(b1, now, configures, starts).0.queue, others, taken, now);
      }
    }
  }

  lemma TookNothing(now: Word64)
    ensures TookEarliest([], [], [], [], now)
  {
  }

  // ----- Shutdown

  predicate Quiet(b: Ble) {
    b.shutDown ==> b.queue == [] && !b.busy
  }

  lemma {:induction false} RunIsQuiet(events: seq<Event>)
    ensures Quiet(Run(INITIAL, events))
    decreases |events|
  {
    hide Drained, Advertised;
    if events == [] {
    } else {
      RunIsQuiet(events[..|events| - 1]);
      NextIsQuiet(Run(INITIAL, events[..|events| - 1]), events[|events| - 1]);
    }
  }

  lemma NextIsQuiet(b: Ble, e: Event)
    requires Quiet(b)
    ensures Quiet(Next(b, e))
  {
    hide Drained, Advertised;
    if e.Poll? && !b.shutDown && !b.shuttingDown {
      DrainShutsNothing(b);
      AdvertiseShutsNothing(Drained(b), e.now, e.configures, e.starts);
    }
  }

  lemma DrainShutsNothing(b: Ble)
    ensures Drained(b).shutDown == b.shutDown
  {
  }

  lemma {:induction false} AdvertiseShutsNothing(b: Ble, now: Word64, configures: bool, starts: bool)
    ensures Advertised(b, now, configures, starts).0.shutDown == b.shutDown
    decreases |b.queue|
  {
    hide IsEarliest;
    if b.queue == [] {
    } else {
      var e := Earliest(b.queue);
      var (b', done, _) := SentOrDropped(b.(queue := RemoveAt(b.queue, e)), b.queue[e], now, configures, starts);
      if !done {
        AdvertiseShutsNothing(b', now, configures, starts);
      }
    }
  }

  /** A completed shutdown is final, whatever led to it: nothing waits, nothing is in flight, and no later event changes
      that or the counters. */
  lemma {:induction false} ShutdownIsFinal(events: seq<Event>, later: seq<Event>)
    requires Run(INITIAL, events).shutDown
    ensures var b := Run(INITIAL, events); var after := Run(b, later);
      after.shutDown && after.queue == [] && !after.busy && after.stats == b.stats
    decreases |later|
  {
    if later == [] {
      RunIsQuiet(events);
    } else {
      ShutdownIsFinal(events, later[..|later| - 1]);
    }
  }
}
