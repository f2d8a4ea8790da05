/** What each operation of the Bluetooth transport does, told from outside: which payloads are accepted, when one is
    sent, what is counted, and that whatever is accepted and does not expire is sent in order. */
module BluetoothLaws {
  import opened Wrappers
  import opened Words
  import opened Config
  import opened Payloads
  import CompletionRing
  import opened Bluetooth
  import opened BluetoothSafety

  predicate Stopping(b: Ble) {
    b.shuttingDown || b.shutDown
  }

  /** An advertisement is in flight and nothing has arrived that would end it. */
  predicate StillInFlight(b: Ble) {
    b.busy && b.ring == [] && b.overflows == 0
  }

  /** Something has arrived that ends the advertisement in flight, and it is a success: the first completion counts, an
      overflow alone is an error. */
  predicate Completes(b: Ble) {
    b.busy && b.ring != [] && b.ring[0].status == 0 && b.ring[0].advertisingEvents >= 1
  }

  predicate Fails(b: Ble) {
    b.busy && !StillInFlight(b) && !Completes(b)
  }

  ghost predicate OnBle(b: Ble) {
    (b.active == 0 || b.active == 1) && forall p :: p in b.queue ==> p.transport == 0 || p.transport == 1
  }

  // ----- Submit

  /** A payload is accepted exactly if it is for BLE4 with 1 to 31 bytes or for BLE5 with 1 to 158, a place is free and
      the transport is not stopping. It then waits behind the others and is counted; otherwise nothing changes, and the
      refusal names the first reason. */
  lemma SubmitAccepts(b: Ble, p: Payload)
    requires |b.queue| <= 16
    ensures SubmitError(b, p) == BleOk <==>
      !Stopping(b) && |b.queue| < 16 && 1 <= p.size &&
      ((p.transport == 0 && p.size <= 31) || (p.transport == 1 && p.size <= 158))
    ensures SubmitError(b, p) != BleOk ==> Submitted(b, p) == b
    ensures SubmitError(b, p) == BleOk ==>
      var t: nat := p.transport;
      Submitted(b, p) == b.(queue := b.queue + [p],
                            stats := b.stats[t := b.stats[t].(expected := Counted(b.stats[t].expected, 1))])
    ensures SubmitError(b, p) == BackendError <==> Stopping(b)
    ensures SubmitError(b, p) == InvalidTransport <==> !Stopping(b) && p.transport > 1
    ensures SubmitError(b, p) == InvalidPayload <==> !Stopping(b) && p.transport <= 1 && (p.size == 0 || p.size > 512)
    ensures SubmitError(b, p) == PayloadTooLarge <==>
      !Stopping(b) && p.size <= 512 && ((p.transport == 0 && p.size > 31) || (p.transport == 1 && p.size > 158))
  {
  }

  // ----- What a poll notices first

  /** Before sending, a poll takes everything that has arrived. Only the counters of the transport in flight change. */
  lemma DrainTells(b: Ble, t: nat)
    requires OnBle(b) && t < 2
    ensures var d := Drained(b);
      && d.ring == [] && d.overflows == 0 && d.queue == b.queue && d.active == b.active
      && d.shuttingDown == b.shuttingDown && d.shutDown == b.shutDown
      && (d.busy <==> StillInFlight(b))
      && d.stats[t] == b.stats[t].(
           completed := Counted(b.stats[t].completed, One(Completes(b) && b.active == t)),
           radioErrors := Counted(b.stats[t].radioErrors, One(Fails(b) && b.active == t)))
  {
  }

  // ----- What the sending loop counts

  ghost predicate Counts(s: TransportStats, s': TransportStats, t: nat, dropped: seq<Payload>, taken: seq<Payload>,
                         now: Word64, works: bool)
    requires t < 2
  {
    var mine := taken != [] && taken[0].transport as nat == t;
    s' == s.(dropped := Counted(s.dropped, CountOf(dropped, t)),
             submitted := Counted(s.submitted, One(mine && works)),
             late := Counted(s.late, One(mine && works && now > taken[0].deadline)),
             radioErrors := Counted(s.radioErrors, One(mine && !works)))
  }

  lemma NothingCounts(s: TransportStats, t: nat, now: Word64, works: bool)
    requires t < 2
    ensures Counts(s, s, t, [], [], now, works)
  {
  }

  lemma TakingCounts(b: Ble, p: Payload, now: Word64, configures: bool, starts: bool, t: nat)
    requires t < 2 && (p.transport == 0 || p.transport == 1) && !(p.expires > 0 && now > p.expires)
    ensures var (b', done, error) := SentOrDropped(b, p, now, configures, starts);
      && done && Counts(b.stats[t], b'.stats[t], t, [], [p], now, configures && starts)
      && b' == if configures && starts then b.(stats := b'.stats, busy := true, active := p.transport)
               else b.(stats := b'.stats)
  {
  }

  lemma DroppingCounts(b: Ble, p: Payload, now: Word64, configures: bool, starts: bool, t: nat)
    requires t < 2 && (p.transport == 0 || p.transport == 1) && p.expires > 0 && now > p.expires
    ensures var (b', done, error) := SentOrDropped(b, p, now, configures, starts);
      && !done && b' == b.(stats := b'.stats)
      && b'.stats[t] == b.stats[t].(dropped := Counted(b.stats[t].dropped, One(p.transport as nat == t)))
  {
  }

  lemma CountsOneMore(s: TransportStats, s1: TransportStats, s2: TransportStats, t: nat, p: Payload,
                      others: seq<Payload>, taken: seq<Payload>, now: Word64, works: bool)
    requires t < 2 && s1 == s.(dropped := Counted(s.dropped, One(p.transport as nat == t)))
    requires Counts(s1, s2, t, others, taken, now, works)
    ensures Counts(s, s2, t, [p] + others, taken, now, works)
  {
    CountedTwice(s.dropped, One(p.transport as nat == t), CountOf(others, t));
    assert ([p] + others)[1..] == others;
  }

  /** What the loop does to the radio and the counters, for the payloads it drops and takes. */
  ghost predicate Delivers(b: Ble, b': Ble, dropped: seq<Payload>, taken: seq<Payload>, now: Word64, works: bool) {
    && b'.ring == b.ring && b'.overflows == b.overflows
    && b'.shuttingDown == b.shuttingDown && b'.shutDown == b.shutDown
    && b'.busy == (taken != [] && works)
    && b'.active == (if taken != [] && works then taken[0].transport else b.active)
    && Counts(b.stats[0], b'.stats[0], 0, dropped, taken, now, works)
    && Counts(b.stats[1], b'.stats[1], 1, dropped, taken, now, works)
  }

  lemma {:induction false} LoopDelivers(b: Ble, now: Word64, configures: bool, starts: bool)
      returns (dropped: seq<Payload>, taken: seq<Payload>)
    requires OnBle(b) && !b.busy
    ensures var (b', error, sent) := Advertised(b, now, configures, starts);
      && TookEarliest(b.queue, b'.queue, dropped, taken, now)
      && sent == (if taken != [] && configures && starts then Some(taken[0]) else None)
      && error == (if taken == [] || (configures && starts) then BleOk else BackendError)
      && Delivers(b, b', dropped, taken, now, configures && starts)
    decreases |b.queue|
  {
    hide TookEarliest, IsEarliest, StatsIndex, RemoveAt, Counts, SentOrDropped, Expired;
    dropped, taken := [], [];
    if b.queue == [] {
      TookNothing(now);
      NothingCounts(b.stats[0], 0, now, configures && starts);
      NothingCounts(b.stats[1], 1, now, configures && starts);
    } else {
      var e := Earliest(b.queue);
      var p, rest := b.queue[e], b.(queue := RemoveAt(b.queue, e));
      LivesUntil(p, now);
      if p.expires > 0 && now > p.expires {
        DroppingCounts(rest, p, now, configures, starts, 0);
        DroppingCounts(rest, p, now, configures, starts, 1);
        var b1 := SentOrDropped(rest, p, now, configures, starts).0;
        RestIsOnBle(b, e);
        var others;
        others, taken := LoopDelivers(b1, now, configures, starts);
        dropped := [p] + others;
        var b2 := Advertised(b1, now, configures, starts).0;
        DropFirst(b.queue, e, b2.queue, others, taken, now);
        CountsOneMore(b.stats[0], b1.stats[0], b2.stats[0], 0, p, others, taken, now, configures && starts);
        CountsOneMore(b.stats[1], b1.stats[1], b2.stats[1], 1, p, others, taken, now, configures && starts);
      } else {
        taken := [p];
        TakingCounts(rest, p, now, configures, starts, 0);
        TakingCounts(rest, p, now, configures, starts, 1);
        TakeFirst(b.queue, e, now);
        SendingResult(rest, p, now, configures, starts);
      }
    }
  }

  lemma RestIsOnBle(b: Ble, e: nat)
    requires OnBle(b) && e < |b.queue|
    ensures forall p :: p in RemoveAt(b.queue, e) ==> p.transport == 0 || p.transport == 1
  {
    RestWasThere(b.queue, e);
  }

  lemma SendingResult(b: Ble, p: Payload, now: Word64, configures: bool, starts: bool)
    requires !(p.expires > 0 && now > p.expires)
    ensures var (b', done, error) := SentOrDropped(b, p, now, configures, starts);
      done && error == if configures && starts then BleOk else BackendError
  {
  }

  // ----- The whole poll

  /** A poll of a transport that is not stopping takes what has arrived. If an advertisement is still in flight, that is
      all. Otherwise it drops the expired payloads in front and hands the earliest one that has not expired to the
      backend; whether that works decides whether it is in flight, and what is counted. */
  lemma PollDelivers(b: Ble, now: Word64, configures: bool, starts: bool)
      returns (dropped: seq<Payload>, taken: seq<Payload>)
    requires OnBle(b) && !Stopping(b)
    ensures var (b', error, sent) := Polled(b, now, configures, starts);
      && b'.ring == [] && b'.overflows == 0 && !Stopping(b')
      && if StillInFlight(b) then b' == b && error == BleOk && sent == None
         else
           && TookEarliest(b.queue, b'.queue, dropped, taken, now)
           && sent == (if taken != [] && configures && starts then Some(taken[0]) else None)
           && error == (if taken == [] || (configures && starts) then BleOk else BackendError)
           && b'.busy == sent.Some?
           && b'.active == (if sent.Some? then sent.value.transport else b.active)
           && CountsInPoll(b, b', 0, dropped, taken, now, configures && starts)
           && CountsInPoll(b, b', 1, dropped, taken, now, configures && starts)
  {
    hide TookEarliest, Drained, Advertised, Counts, Expired;
    dropped, taken := [], [];
    DrainTells(b, 0);
    DrainTells(b, 1);
    if StillInFlight(b) {
      DrainOfNothing(b);
    } else {
      var d := Drained(b);
      dropped, taken := LoopDelivers(d, now, configures, starts);
      var b' := Advertised(d, now, configures, starts).0;
      CountsTogether(b, d, b', 0, dropped, taken, now, configures && starts);
      CountsTogether(b, d, b', 1, dropped, taken, now, configures && starts);
    }
  }

  lemma DrainOfNothing(b: Ble)
    requires StillInFlight(b)
    ensures Drained(b) == b
  {
  }

  /** The counters of one transport after a poll that sends: accepted payloads are not counted again, and each of the
      others counts what happened in this poll. */
  ghost predicate CountsInPoll(b: Ble, b': Ble, t: nat, dropped: seq<Payload>, taken: seq<Payload>, now: Word64, works: bool)
    requires t < 2
  {
    var s, mine := b.stats[t], taken != [] && taken[0].transport as nat == t;
    b'.stats[t] == s.(
      completed := Counted(s.completed, One(Completes(b) && b.active == t)),
      radioErrors := Counted(s.radioErrors, One(Fails(b) && b.active == t) + One(mine && !works)),
      dropped := Counted(s.dropped, CountOf(dropped, t)),
      submitted := Counted(s.submitted, One(mine && works)),
      late := Counted(s.late, One(mine && works && now > taken[0].deadline)))
  }

  lemma CountsTogether(b: Ble, d: Ble, b': Ble, t: nat, dropped: seq<Payload>, taken: seq<Payload>, now: Word64, works: bool)
    requires t < 2
    requires d.stats[t] == b.stats[t].(
      completed := Counted(b.stats[t].completed, One(Completes(b) && b.active == t)),
      radioErrors := Counted(b.stats[t].radioErrors, One(Fails(b) && b.active == t)))
    requires Counts(d.stats[t], b'.stats[t], t, dropped, taken, now, works)
    ensures CountsInPoll(b, b', t, dropped, taken, now, works)
  {
    hide Completes, Fails, Counted, CountOf;
    var mine := taken != [] && taken[0].transport as nat == t;
    CountedTwice(b.stats[t].radioErrors, One(Fails(b) && b.active == t), One(mine && !works));
  }

  // ----- Whatever is accepted is sent

  /** The payloads that polls at these times send, if each is followed by a report that the advertisement has ended. */
  function Deliveries(b: Ble, times: seq<Word64>, ends: CompletionRing.Completion): (seq<Payload>, Ble)
    decreases |times|
  {
    if times == [] then ([], b)
    else
      var (b1, error, sent) := Polled(b, times[0], true, true);
      var (later, b') := Deliveries(Reported(b1, ends), times[1..], ends);
      ((if sent.Some? then [sent.value] else []) + later, b')
  }

  ghost predicate NoneExpires(queue: seq<Payload>, times: seq<Word64>) {
    forall p, k :: p in queue && 0 <= k < |times| ==> p.expires == 0 || times[k] <= p.expires
  }

  /** None of these precedes an earlier one. */
  ghost predicate InKeyOrder(ps: seq<Payload>) {
    forall i, j :: 0 <= i < j < |ps| ==>
      ps[i].deadline < ps[j].deadline || (ps[i].deadline == ps[j].deadline && ps[i].sequence <= ps[j].sequence)
  }

  /** None of these precedes `first`. */
  ghost predicate NotBefore(ps: seq<Payload>, first: Payload) {
    forall p :: p in ps ==>
      first.deadline < p.deadline || (first.deadline == p.deadline && first.sequence <= p.sequence)
  }

  lemma TookLive(queue: seq<Payload>, left: seq<Payload>, dropped: seq<Payload>, taken: seq<Payload>, times: seq<Word64>)
    requires times != [] && NoneExpires(queue, times) && TookEarliest(queue, left, dropped, taken, times[0])
    ensures dropped == [] && (queue == [] <==> taken == []) && |queue| == |left| + |taken|
    ensures multiset(queue) == multiset(left) + multiset(taken)
    ensures NoneExpires(left, times[1..])
    ensures left != [] ==> taken != []
    ensures taken != [] ==> NotBefore(left, taken[0])
  {
    if dropped != [] {
      assert dropped[0] in multiset(queue);
      LivesUntil(dropped[0], times[0]);
    }
    assert |multiset(queue)| == |multiset(left)| + |multiset(taken)|;
    forall p | p in left ensures p in queue {
      assert p in multiset(left);
      assert p in multiset(queue);
    }
    if taken != [] {
      assert taken[0] in taken;
      forall p | p in left
        ensures taken[0].deadline < p.deadline || (taken[0].deadline == p.deadline && taken[0].sequence <= p.sequence)
      {
        KeysAreOrdered(p, taken[0]);
      }
    }
  }

  /** Progress: payloads that do not expire in time are sent one in each poll, in the order of deadline and sequence,
      until none is left, whatever the reports say about the advertisements. */
  lemma {:induction false} EachPollSendsOne(b: Ble, times: seq<Word64>, ends: CompletionRing.Completion)
    requires OnBle(b) && !Stopping(b) && !StillInFlight(b) && NoneExpires(b.queue, times)
    ensures var (sent, b') := Deliveries(b, times, ends);
      && |sent| == (if |times| <= |b.queue| then |times| else |b.queue|)
      && multiset(b.queue) == multiset(sent) + multiset(b'.queue) && InKeyOrder(sent)
      && forall p :: p in sent ==> p in b.queue
    decreases |times|
  {
    hide Polled, StillInFlight, NoneExpires, InKeyOrder, NotBefore, OnBle, Reported;
    if times == [] {
      assert InKeyOrder([]) by { NothingInOrder(); }
    } else {
      var taken := OnePoll(b, times, ends);
      var (b1, error, one) := Polled(b, times[0], true, true);
      var next := Reported(b1, ends);
      EachPollSendsOne(next, times[1..], ends);
      var (later, b') := Deliveries(next, times[1..], ends);
      assert Deliveries(b, times, ends).0 == taken + later;
      JoinSent(b.queue, taken, next.queue, later, b'.queue);
    }
  }

  /** One poll and the report behind it. */
  lemma OnePoll(b: Ble, times: seq<Word64>, ends: CompletionRing.Completion) returns (taken: seq<Payload>)
    requires OnBle(b) && !Stopping(b) && !StillInFlight(b) && times != [] && NoneExpires(b.queue, times)
    ensures var (b1, error, one) := Polled(b, times[0], true, true);
      var next := Reported(b1, ends);
      && taken == (if one.Some? then [one.value] else []) && (taken == [] <==> b.queue == [])
      && multiset(b.queue) == multiset(next.queue) + multiset(taken) && |b.queue| == |next.queue| + |taken|
      && (taken != [] ==> NotBefore(next.queue, taken[0]))
      && OnBle(next) && !Stopping(next) && !StillInFlight(next) && NoneExpires(next.queue, times[1..])
  {
    hide Polled, TookEarliest, StillInFlight, CountsInPoll, NoneExpires, NotBefore;
    var dropped;
    dropped, taken := PollDelivers(b, times[0], true, true);
    var b1 := Polled(b, times[0], true, true).0;
    TookLive(b.queue, b1.queue, dropped, taken, times);
    assert |taken| <= 1 by { TookOne(b.queue, b1.queue, dropped, taken, times[0]); }
    LeftIsOnBle(b, b1, taken);
    ReportEnds(b1, ends);
  }

  lemma TookOne(queue: seq<Payload>, left: seq<Payload>, dropped: seq<Payload>, taken: seq<Payload>, now: Word64)
    requires TookEarliest(queue, left, dropped, taken, now)
    ensures |taken| <= 1
  {
  }

  lemma JoinSent(queue: seq<Payload>, taken: seq<Payload>, left: seq<Payload>, later: seq<Payload>, rest: seq<Payload>)
    requires |taken| <= 1 && multiset(queue) == multiset(left) + multiset(taken) && (taken == [] <==> queue == [])
    requires multiset(left) == multiset(later) + multiset(rest) && InKeyOrder(later)
    requires taken != [] ==> NotBefore(left, taken[0])
    ensures multiset(queue) == multiset(taken + later) + multiset(rest) && InKeyOrder(taken + later)
    ensures forall p :: p in taken + later ==> p in queue
  {
    forall p | p in taken + later ensures p in queue {
      assert p in multiset(taken + later);
      assert p in multiset(queue);
    }
    if taken != [] {
      forall p | p in later ensures p in left {
        assert p in multiset(later);
        assert p in multiset(left);
      }
      assert taken + later == [taken[0]] + later;
      OrderInFront(taken[0], later);
    } else {
      assert |multiset(left)| == 0 && |multiset(later)| <= |multiset(left)|;
      assert taken + later == later;
    }
  }

  lemma NothingInOrder()
    ensures InKeyOrder([])
  {
  }

  lemma OrderInFront(first: Payload, later: seq<Payload>)
    requires InKeyOrder(later)
    requires NotBefore(later, first)
    ensures InKeyOrder([first] + later)
  {
  }

  lemma LeftIsOnBle(b: Ble, b': Ble, taken: seq<Payload>)
    requires OnBle(b) && multiset(b.queue) == multiset(b'.queue) + multiset(taken)
    requires b'.active == if taken != [] then taken[0].transport else b.active
    ensures OnBle(b')
  {
    forall p | p in b'.queue ensures p in b.queue {
      assert p in multiset(b'.queue);
      assert p in multiset(b.queue);
    }
    if taken != [] {
      assert taken[0] in multiset(taken);
      assert taken[0] in multiset(b.queue);
    }
  }

  /** A report is kept if fewer than seven wait to be taken, and counted on a 32-bit word otherwise. */
  lemma ReportsAre(b: Ble, c: CompletionRing.Completion)
    ensures Reported(b, c) ==
      if |b.ring| == 7 then b.(overflows := (b.overflows + 1) % 0x1_0000_0000) else b.(ring := b.ring + [c])
  {
  }

  /** With nothing waiting to be taken, a report is kept, and ends what is in flight. */
  lemma ReportEnds(b: Ble, ends: CompletionRing.Completion)
    requires b.ring == [] && b.overflows == 0
    ensures var b' := Reported(b, ends);
      b' == b.(ring := [ends]) && !StillInFlight(b')
  {
  }

  function Submits(ps: seq<Payload>): seq<Event> {
    seq(|ps|, i requires 0 <= i < |ps| => Submit(ps[i]))
  }

  predicate FitsBle(p: Payload) {
    1 <= p.size && ((p.transport == 0 && p.size <= 31) || (p.transport == 1 && p.size <= 158))
  }

  lemma {:induction false} SubmitsWait(ps: seq<Payload>)
    requires |ps| <= 16 && forall p :: p in ps ==> FitsBle(p)
    ensures var b := Run(INITIAL, Submits(ps));
      b.queue == ps && !b.busy && b.ring == [] && b.overflows == 0 && !Stopping(b) && b.active == 0
    decreases |ps|
  {
    if ps == [] {
    } else {
      var front, last := ps[..|ps| - 1], ps[|ps| - 1];
      SubmitsWait(front);
      assert Submits(ps)[..|ps| - 1] == Submits(front);
      SubmitAccepts(Run(INITIAL, Submits(front)), last);
      assert last in ps && ps == front + [last];
    }
  }

  /** From end to end: up to sixteen acceptable payloads submitted to a new transport, none of which expires in time, are
      all sent by as many polls, each once, in the order of deadline and sequence. */
  lemma AcceptedIsSent(ps: seq<Payload>, times: seq<Word64>, ends: CompletionRing.Completion)
    requires |ps| <= 16 && |times| == |ps| && NoneExpires(ps, times)
    requires forall p :: p in ps ==> FitsBle(p)
    ensures var (sent, b) := Deliveries(Run(INITIAL, Submits(ps)), times, ends);
      multiset(sent) == multiset(ps) && InKeyOrder(sent) && b.queue == []
  {
    hide Deliveries, Run, Submits;
    SubmitsWait(ps);
    var start := Run(INITIAL, Submits(ps));
    EachPollSendsOne(start, times, ends);
    var (sent, b) := Deliveries(start, times, ends);
    assert |multiset(ps)| == |multiset(sent)| + |multiset(b.queue)|;
  }

  // ----- Shutdown

  /** A shutdown at once stops accepting and sending, whether or not the reset works; a reset that works empties queue and
      radio, one that fails leaves them as they are, and the next one may work. */
  lemma ShutdownStops(b: Ble, p: Payload, now: Word64, configures: bool, starts: bool)
    requires |b.queue| <= 16 && !b.shutDown
    ensures ShutDown(b, true) == b.(shuttingDown := true, shutDown := true, busy := false, queue := [])
    ensures ShutDown(b, false) == b.(shuttingDown := true)
    ensures ShutDown(ShutDown(b, false), true) == ShutDown(b, true)
    ensures forall resets ::
      var s := ShutDown(b, resets);
      SubmitError(s, p) == BackendError && Submitted(s, p) == s && Polled(s, now, configures, starts) == (s, BackendError, None)
  {
  }
}
