/** What each operation of the Wi-Fi coordinator does, told from outside: which payloads are accepted, when and where the
    radio is tuned, what is transmitted and what may be dropped, and that the counters tell what the backend was asked. */
module CoordinatorLaws {
  import opened Words
  import opened Payloads
  import opened Coordinator
  import opened CoordinatorSafety

  predicate PastExpiry(p: Payload, now: Word64) {
    p.expires > 0 && now > p.expires
  }

  // ----- Submit

  /** A payload of 1 to 512 bytes for transport 2 or 3 joins the queue of its band, behind the others, and is counted, if
      that queue holds fewer than sixteen; otherwise nothing changes. */
  lemma SubmitAccepts(r: Radio, p: Payload)
    requires |r.queues[0]| <= 16 && |r.queues[1]| <= 16
    ensures var wellFormed := (p.transport == 2 || p.transport == 3) && 1 <= p.size <= 512;
      var b: Band := if p.transport == 3 then 1 else 0;
      && (!wellFormed ==> SubmitCode(r, p) == 0x102)
      && (wellFormed && |r.queues[b]| == 16 ==> SubmitCode(r, p) == 0x101)
      && (wellFormed && |r.queues[b]| < 16 ==>
           SubmitCode(r, p) == 0 &&
           Submitted(r, p) == r.(queues := r.queues[b := r.queues[b] + [p]],
                                 stats := r.stats[b := r.stats[b].(expected := Counted(r.stats[b].expected, 1))]))
      && (SubmitCode(r, p) != 0 ==> Submitted(r, p) == r)
  {
  }

  // ----- When and where a poll tunes

  predicate Waiting(r: Radio) {
    r.queues[0] != [] || r.queues[1] != []
  }

  /** May a poll go on to the radio? Only with something to send, and with the country set before or in this poll. */
  predicate Proceeds(r: Radio, backend: Backend) {
    Waiting(r) && (r.configured || backend.country == 0)
  }

  /** Is the radio on no channel yet, or is there reason to leave the active band: traffic for the other band, and none
      for this one or its dwell time over? */
  predicate WantsTuning(r: Radio, now: Word64, dwell: Word64) {
    var other: Band := 1 - r.active;
    r.channel == 0 ||
    (r.queues[other] != [] && (r.queues[r.active] == [] || (now - r.dwellStarted) % 0x1_0000_0000_0000_0000 >= dwell))
  }

  /** The band tuned to: at first the active one if it has traffic, otherwise the other. */
  function TunedTo(r: Radio): Band {
    if r.channel == 0 && r.queues[r.active] != [] then r.active else 1 - r.active
  }

  predicate TriesTuning(r: Radio, now: Word64, dwell: Word64, backend: Backend) {
    Proceeds(r, backend) && WantsTuning(r, now, dwell) && now >= r.retryAt
  }

  /** Does a poll get as far as sending, and from which band? */
  predicate Sends(r: Radio, now: Word64, dwell: Word64, backend: Backend) {
    Proceeds(r, backend) && (WantsTuning(r, now, dwell) ==> now >= r.retryAt && backend.tune == 0)
  }

  function SendingBand(r: Radio, now: Word64, dwell: Word64): Band {
    if WantsTuning(r, now, dwell) then TunedTo(r) else r.active
  }

  function ChannelOf(b: Band): Byte {
    if b == 0 then 6 else 149
  }

  lemma TuningIs(r: Radio, now: Word64, dwell: Word64)
    ensures TuningNeeded(r, now, dwell) <==> WantsTuning(r, now, dwell)
    ensures TuningTarget(r, now, dwell) == TunedTo(r)
    ensures Empty(r) <==> !Waiting(r)
  {
  }

  /** The calls that a poll makes before sending: the country, once; and a tuning, if it tries one. */
  function Preparations(r: Radio, now: Word64, dwell: Word64, backend: Backend): seq<Action> {
    (if Waiting(r) && !r.configured then [SetCountry(now, backend.country == 0)] else []) +
    (if TriesTuning(r, now, dwell, backend) then [SetChannel(now, ChannelOf(TunedTo(r)), backend.tune == 0)] else [])
  }

  /** The radio after a poll, but for the queues and the counters. A tuning that works sets band, channel and dwell time
      and ends the back-off; one that fails only starts a back-off. */
  predicate TunedAs(r: Radio, r': Radio, now: Word64, dwell: Word64, retry: Word64, backend: Backend) {
    var tries := TriesTuning(r, now, dwell, backend);
    && r'.configured == (r.configured || (Waiting(r) && backend.country == 0))
    && r'.active == (if tries && backend.tune == 0 then TunedTo(r) else r.active)
    && r'.channel == (if tries && backend.tune == 0 then ChannelOf(TunedTo(r)) else r.channel)
    && r'.dwellStarted == (if tries && backend.tune == 0 then now else r.dwellStarted)
    && r'.retryAt == (if !tries then r.retryAt else if backend.tune == 0 then 0
                      else (now + retry) % 0x1_0000_0000_0000_0000)
  }

  /** The calls a poll makes to send: one transmission of the earliest payload of the sending band, unless that payload
      is past its expiry. */
  ghost predicate SendsAs(queue: seq<Payload>, now: Word64, transmit: int, sending: seq<Action>) {
    exists e :: 0 <= e < |queue| && IsEarliest(queue, e) && sending == SendingOf(queue[e], now, transmit)
  }

  function SendingOf(p: Payload, now: Word64, transmit: int): seq<Action> {
    if PastExpiry(p, now) then [] else [Transmit(now, p, transmit == 0)]
  }

  lemma SentAs(r: Radio, now: Word64, transmit: int)
    requires r.queues[r.active] != []
    ensures var (r', code, sending) := Sent(r, now, transmit);
      && SendsAs(r.queues[r.active], now, transmit, sending)
      && r'.(queues := r.queues, stats := r.stats) == r && r'.queues[1 - r.active] == r.queues[1 - r.active]
      && Leaves(r, r', now, r.active, sending)
      && code == (if sending == [] then 0 else transmit)
  {
    hide IsEarliest;
    var queue := r.queues[r.active];
    var e := Earliest(queue);
    assert IsEarliest(queue, e);
    var (r', code, sending) := Sent(r, now, transmit);
    assert sending == SendingOf(queue[e], now, transmit);
    assert LeavesAt(r, r', now, r.active, sending, e);
  }

  /** What the sending band loses, and what is counted for it. A transmitted payload leaves if the driver took it; without
      a transmission the earliest payload leaves, and it was past its expiry. */
  ghost predicate Leaves(r: Radio, r': Radio, now: Word64, b: Band, sending: seq<Action>) {
    exists e :: 0 <= e < |r.queues[b]| && IsEarliest(r.queues[b], e) && LeavesAt(r, r', now, b, sending, e)
  }

  predicate LeavesAt(r: Radio, r': Radio, now: Word64, b: Band, sending: seq<Action>, e: nat)
    requires e < |r.queues[b]|
  {
    var (queue, s) := (r.queues[b], r.stats[b]);
    if sending == [] then
      && PastExpiry(queue[e], now) && r'.queues[b] == RemoveAt(queue, e)
      && r'.stats == r.stats[b := s.(dropped := Counted(s.dropped, 1))]
    else if sending == [Transmit(now, queue[e], true)] then
      && r'.queues[b] == RemoveAt(queue, e)
      && r'.stats == r.stats[b := s.(submitted := Counted(s.submitted, 1),
                                     late := Counted(s.late, One(now > queue[e].deadline)))]
    else
      && sending == [Transmit(now, queue[e], false)] && r'.queues[b] == queue
      && r'.stats == r.stats[b := s.(radioErrors := Counted(s.radioErrors, 1))]
  }

  /** A poll, told from outside: the radio, the calls and what leaves. Without anything to send, without a country or in
      back-off it sends nothing and loses nothing. */
  lemma PollIs(r: Radio, now: Word64, dwell: Word64, retry: Word64, backend: Backend)
    ensures var (r', code, actions) := Polled(r, now, dwell, retry, backend);
      var first := Preparations(r, now, dwell, backend);
      && TunedAs(r, r', now, dwell, retry, backend) && first <= actions
      && var sending := actions[|first|..];
         if Sends(r, now, dwell, backend) then
           var b := SendingBand(r, now, dwell);
           && SendsAs(r.queues[b], now, backend.transmit, sending) && Leaves(r, r', now, b, sending)
           && r'.queues[1 - b] == r.queues[1 - b] && r'.active == b
           && code == (if sending == [] then 0 else backend.transmit)
         else
           && sending == [] && r'.queues == r.queues
           && r'.stats == (if TriesTuning(r, now, dwell, backend) then
                r.stats[TunedTo(r) := r.stats[TunedTo(r)].(
                  radioErrors := Counted(r.stats[TunedTo(r)].radioErrors, 1))]
              else r.stats)
  {
    hide Sent, IsEarliest, SendsAs, Leaves, RemoveAt;
    var c := r.(configured := true);
    TuningIs(c, now, dwell);
    TuningIs(r, now, dwell);
    if Sends(r, now, dwell, backend) {
      SendsFromNonemptyBand(c, now, dwell);
      var tuned := if WantsTuning(r, now, dwell) then BandSelected(c, TunedTo(r), now, retry, backend.tune).0 else c;
      SentAs(tuned, now, backend.transmit);
      SameLeaves(tuned, r, Sent(tuned, now, backend.transmit).0, now, tuned.active, Sent(tuned, now, backend.transmit).2);
    }
  }

  lemma SameLeaves(tuned: Radio, r: Radio, r': Radio, now: Word64, b: Band, sending: seq<Action>)
    requires tuned.queues == r.queues && tuned.stats == r.stats && Leaves(tuned, r', now, b, sending)
    ensures Leaves(r, r', now, b, sending)
  {
  }

  /** With a working backend and no back-off pending, the earliest payload of the band left active is transmitted, once,
      unless it is past its expiry. */
  lemma PollTransmits(r: Radio, now: Word64, dwell: Word64, retry: Word64, backend: Backend, e: nat)
    requires Works(backend) && Waiting(r) && now >= r.retryAt
    requires var b := Polled(r, now, dwell, retry, backend).0.active;
      e < |r.queues[b]| && IsEarliest(r.queues[b], e) && !PastExpiry(r.queues[b][e], now)
    ensures var (r', _, actions) := Polled(r, now, dwell, retry, backend);
      var b := r'.active;
      && actions == Preparations(r, now, dwell, backend) + [Transmit(now, r.queues[b][e], true)]
      && r'.queues[b] == RemoveAt(r.queues[b], e) && r'.queues[1 - b] == r.queues[1 - b]
      && r'.stats[b].dropped == r.stats[b].dropped && r'.stats[b].submitted == Counted(r.stats[b].submitted, 1)
  {
    hide Polled, IsEarliest, Preparations, RemoveAt;
    PollIs(r, now, dwell, retry, backend);
    var (r', _, actions) := Polled(r, now, dwell, retry, backend);
    var first, b := Preparations(r, now, dwell, backend), r'.active;
    assert actions == first + actions[|first|..];
    forall k: nat | k < |r.queues[b]| && IsEarliest(r.queues[b], k) ensures k == e {
      OneEarliest(r.queues[b], k, e);
    }
  }

  lemma OneEarliest(queue: seq<Payload>, i: nat, k: nat)
    requires IsEarliest(queue, i) && IsEarliest(queue, k)
    ensures i == k
  {
    hide IsEarliest;
    if i < k {
      NoneBeforeIt(queue, k, i);
    } else if k < i {
      NoneBeforeIt(queue, i, k);
    }
  }

  lemma NoneBeforeIt(queue: seq<Payload>, i: nat, k: nat)
    requires k < i && IsEarliest(queue, i)
    ensures !IsEarliest(queue, k)
  {
    assert Earlier(queue[i], queue[k]);
  }

  // ----- The counters and the calls of a run

  /** Transmissions for a transport that the driver took, those of them past their deadline, and calls that failed. */
  function Taken(actions: seq<Action>, t: Byte): nat {
    if actions == [] then 0
    else One(actions[0].Transmit? && actions[0].ok && actions[0].payload.transport == t) + Taken(actions[1..], t)
  }

  function TakenLate(actions: seq<Action>, t: Byte): nat {
    if actions == [] then 0
    else
      One(actions[0].Transmit? && actions[0].ok && actions[0].payload.transport == t &&
          actions[0].at > actions[0].payload.deadline) + TakenLate(actions[1..], t)
  }

  function Failed(actions: seq<Action>, t: Byte): nat {
    if actions == [] then 0
    else
      One((actions[0].Transmit? && !actions[0].ok && actions[0].payload.transport == t) ||
          (actions[0].SetChannel? && !actions[0].ok && IsChannelOf(actions[0].channel, t))) + Failed(actions[1..], t)
  }

  lemma {:induction false} TalliesJoin(a: seq<Action>, b: seq<Action>, t: Byte)
    ensures Taken(a + b, t) == Taken(a, t) + Taken(b, t)
    ensures TakenLate(a + b, t) == TakenLate(a, t) + TakenLate(b, t)
    ensures Failed(a + b, t) == Failed(a, t) + Failed(b, t)
    decreases |a|
  {
    if a == [] {
      assert a + b == b;
    } else {
      assert (a + b)[1..] == a[1..] + b;
      TalliesJoin(a[1..], b, t);
    }
  }

  lemma TallyOfOne(a: Action, t: Byte)
    ensures Taken([a], t) == One(a.Transmit? && a.ok && a.payload.transport == t)
    ensures TakenLate([a], t) == One(a.Transmit? && a.ok && a.payload.transport == t && a.at > a.payload.deadline)
    ensures Failed([a], t) == One((a.Transmit? && !a.ok && a.payload.transport == t) ||
                                  (a.SetChannel? && !a.ok && IsChannelOf(a.channel, t)))
    ensures Taken([], t) == 0 && TakenLate([], t) == 0 && Failed([], t) == 0
  {
    assert [a][1..] == [];
  }

  /** The counters of band `b` have counted these calls. */
  predicate Tallies(s: TransportStats, s': TransportStats, actions: seq<Action>, b: Band) {
    && s'.submitted == Counted(s.submitted, Taken(actions, 2 + b))
    && s'.late == Counted(s.late, TakenLate(actions, 2 + b))
    && s'.radioErrors == Counted(s.radioErrors, Failed(actions, 2 + b))
  }

  lemma TalliesFollow(s: TransportStats, s1: TransportStats, s2: TransportStats, a: seq<Action>, c: seq<Action>, b: Band)
    requires Tallies(s, s1, a, b) && Tallies(s1, s2, c, b)
    ensures Tallies(s, s2, a + c, b)
  {
    hide Taken, TakenLate, Failed, Counted;
    TalliesJoin(a, c, 2 + b);
    CountedTwice(s.submitted, Taken(a, 2 + b), Taken(c, 2 + b));
    CountedTwice(s.late, TakenLate(a, 2 + b), TakenLate(c, 2 + b));
    CountedTwice(s.radioErrors, Failed(a, 2 + b), Failed(c, 2 + b));
  }

  lemma NothingTallies(s: TransportStats, b: Band)
    ensures Tallies(s, s, [], b)
  {
  }

  lemma SentTallies(r: Radio, now: Word64, transmit: int, b: Band)
    requires InBands(r)
    ensures var (r', _, actions) := Sent(r, now, transmit); Tallies(r.stats[b], r'.stats[b], actions, b)
  {
    hide IsEarliest, Expired, Taken, TakenLate, Failed;
    NothingTallies(r.stats[b], b);
    if r.queues[r.active] != [] {
      var p := r.queues[r.active][Earliest(r.queues[r.active])];
      assert p in r.queues[r.active];
      TallyOfOne(Transmit(now, p, transmit == ESP_OK), 2 + b);
    }
  }

  lemma SelectTallies(r: Radio, band: Band, now: Word64, retry: Word64, tune: int, b: Band)
    ensures var (r', _, actions) := BandSelected(r, band, now, retry, tune); Tallies(r.stats[b], r'.stats[b], actions, b)
  {
    hide Taken, TakenLate, Failed;
    NothingTallies(r.stats[b], b);
    TallyOfOne(SetChannel(now, BandChannel(band), tune == ESP_OK), 2 + b);
  }

  lemma PollTallies(t: Timing, r: Radio, now: Word64, backend: Backend, b: Band)
    requires InBands(r)
    ensures var (r', _, actions) := Polled(r, now, t.dwell, t.retry, backend);
      Tallies(r.stats[b], r'.stats[b], actions, b) && InBands(r')
  {
    hide Sent, BandSelected, Tallies, TuningNeeded, TuningTarget, Taken, TakenLate, Failed;
    var s := r.stats[b];
    NothingTallies(s, b);
    var called := if r.configured then [] else [SetCountry(now, backend.country == ESP_OK)];
    CountryTallies(s, now, backend.country == ESP_OK, b);
    var c := r.(configured := true);
    var target := TuningTarget(c, now, t.dwell);
    var (tuned, code, tuning) := BandSelected(c, target, now, t.retry, backend.tune);
    SelectTallies(c, target, now, t.retry, backend.tune, b);
    SelectSendsNothing(c, target, now, t.retry, backend.tune);
    TalliesFollow(s, s, tuned.stats[b], called, tuning, b);
    SentTallies(c, now, backend.transmit, b);
    SentStays(c, now, backend.transmit);
    TalliesFollow(s, s, Sent(c, now, backend.transmit).0.stats[b], called, Sent(c, now, backend.transmit).2, b);
    SentTallies(tuned, now, backend.transmit, b);
    SentStays(tuned, now, backend.transmit);
    TalliesFollow(s, tuned.stats[b], Sent(tuned, now, backend.transmit).0.stats[b], called + tuning,
        Sent(tuned, now, backend.transmit).2, b);
  }

  lemma CountryTallies(s: TransportStats, now: Word64, ok: bool, b: Band)
    ensures Tallies(s, s, [SetCountry(now, ok)], b)
  {
    TallyOfOne(SetCountry(now, ok), 2 + b);
  }

  lemma SentStays(r: Radio, now: Word64, transmit: int)
    requires InBands(r)
    ensures InBands(Sent(r, now, transmit).0)
  {
    hide IsEarliest, Expired, RemoveAt;
    if r.queues[r.active] != [] {
      RestWasThere(r.queues[r.active], Earliest(r.queues[r.active]));
    }
  }

  lemma SubmitStays(r: Radio, p: Payload)
    requires InBands(r)
    ensures InBands(Submitted(r, p))
    ensures forall b: Band :: Tallies(r.stats[b], Submitted(r, p).stats[b], [], b)
  {
    forall b: Band ensures Tallies(r.stats[b], Submitted(r, p).stats[b], [], b) {
    }
  }

  /** In every run, whatever the backend answers: the submitted, late and failed counters of a band are the numbers of
      transmissions for its transport that the driver took, took after the deadline, and refused (with failed tunings to
      its channel), in the calls made. */
  lemma {:induction false} CountersTellTheCalls(t: Timing, r: Radio, events: seq<Event>, b: Band)
    requires InBands(r)
    ensures Tallies(r.stats[b], Run(t, r, events).stats[b], Trace(t, r, events), b)
    decreases |events|
  {
    hide InBands, Tallies, Polled, Submitted;
    if events == [] {
      NothingTallies(r.stats[b], b);
    } else {
      var (r', actions) := Next(t, r, events[0]);
      match events[0] {
        case Submit(p) => SubmitStays(r, p);
        case Poll(now, backend) => PollTallies(t, r, now, backend, b);
      }
      CountersTellTheCalls(t, r', events[1..], b);
      TalliesFollow(r.stats[b], r'.stats[b], Run(t, r', events[1..]).stats[b], actions, Trace(t, r', events[1..]), b);
    }
  }

  // ----- What leaves without a transmission had expired

  /** Out of each queue at most one payload goes: transmitted in this poll, or past its expiry and counted as dropped. */
  lemma NothingUnexpiredIsDropped(r: Radio, now: Word64, dwell: Word64, retry: Word64, backend: Backend, b: Band)
      returns (gone: seq<Payload>)
    ensures var (r', _, actions) := Polled(r, now, dwell, retry, backend);
      && |gone| <= 1 && multiset(r.queues[b]) == multiset(r'.queues[b]) + multiset(gone)
      && (forall p :: p in gone ==>
           || (Transmit(now, p, true) in actions && r'.stats[b].dropped == r.stats[b].dropped)
           || (PastExpiry(p, now) && r'.stats[b].dropped == Counted(r.stats[b].dropped, 1)))
      && (gone == [] ==> r'.stats[b].dropped == r.stats[b].dropped)
  {
    hide Polled, IsEarliest, Preparations, TriesTuning, RemoveAt, Counted;
    PollIs(r, now, dwell, retry, backend);
    var (r', _, actions) := Polled(r, now, dwell, retry, backend);
    gone := [];
    if Sends(r, now, dwell, backend) && SendingBand(r, now, dwell) == b {
      var first := Preparations(r, now, dwell, backend);
      var sending := actions[|first|..];
      assert actions == first + sending;
      var e :| 0 <= e < |r.queues[b]| && IsEarliest(r.queues[b], e) && LeavesAt(r, r', now, b, sending, e);
      if r'.queues[b] == RemoveAt(r.queues[b], e) && (sending == [] || sending[0].ok) {
        gone := [r.queues[b][e]];
        RemoveAtMultiset(r.queues[b], e);
      }
    }
  }

  // ----- The country comes first

  /** Has the country been set successfully in these calls? */
  predicate CountrySet(trace: seq<Action>) {
    exists i :: 0 <= i < |trace| && trace[i].SetCountry? && trace[i].ok
  }

  /** The country is set before the radio is used, and never again after it was set. */
  ghost predicate CountryFirst(trace: seq<Action>) {
    forall i :: 0 <= i < |trace| ==> (trace[i].SetCountry? <==> !CountrySet(trace[..i]))
  }

  lemma CountryStep(trace: seq<Action>, a: Action)
    requires CountryFirst(trace) && (a.SetCountry? <==> !CountrySet(trace))
    ensures CountryFirst(trace + [a])
    ensures CountrySet(trace + [a]) <==> CountrySet(trace) || (a.SetCountry? && a.ok)
  {
    var longer := trace + [a];
    assert longer[|trace|] == a && longer[..|trace|] == trace;
    forall i | 0 <= i < |longer| ensures longer[i].SetCountry? <==> !CountrySet(longer[..i]) {
      if i < |trace| {
        assert longer[..i] == trace[..i];
      }
    }
    if CountrySet(trace) {
      var i :| 0 <= i < |trace| && trace[i].SetCountry? && trace[i].ok;
      assert longer[i] == trace[i];
    }
  }

  lemma {:induction false} UsesKeepCountryFirst(trace: seq<Action>, more: seq<Action>)
    requires CountryFirst(trace) && CountrySet(trace) && forall a :: a in more ==> !a.SetCountry?
    ensures CountryFirst(trace + more) && CountrySet(trace + more)
    decreases |more|
  {
    hide CountryFirst, CountrySet;
    if more == [] {
      assert trace + more == trace;
    } else {
      CountryStep(trace, more[0]);
      UsesKeepCountryFirst(trace + [more[0]], more[1..]);
      assert (trace + [more[0]]) + more[1..] == trace + more;
    }
  }

  function CountryCalls(r: Radio, now: Word64, backend: Backend): seq<Action> {
    if Waiting(r) && !r.configured then [SetCountry(now, backend.country == 0)] else []
  }

  /** A poll's calls: the country, if it is not set yet, and then uses of the radio, if it is set now. */
  lemma PollCalls(r: Radio, now: Word64, dwell: Word64, retry: Word64, backend: Backend) returns (uses: seq<Action>)
    ensures var (r', _, actions) := Polled(r, now, dwell, retry, backend);
      && actions == CountryCalls(r, now, backend) + uses
      && (forall a :: a in uses ==> !a.SetCountry?) && (uses != [] ==> r'.configured)
      && r'.configured == (r.configured || (Waiting(r) && backend.country == 0))
  {
    hide Polled, IsEarliest, WantsTuning, Leaves;
    PollIs(r, now, dwell, retry, backend);
    var actions := Polled(r, now, dwell, retry, backend).2;
    var first := Preparations(r, now, dwell, backend);
    var tuning := if TriesTuning(r, now, dwell, backend) then
        [SetChannel(now, ChannelOf(TunedTo(r)), backend.tune == 0)] else [];
    uses := tuning + actions[|first|..];
    assert first == CountryCalls(r, now, backend) + tuning;
    assert actions == first + actions[|first|..];
  }

  lemma PollKeepsCountryFirst(t: Timing, r: Radio, trace: seq<Action>, now: Word64, backend: Backend)
    requires CountryFirst(trace) && (r.configured <==> CountrySet(trace))
    ensures var (r', _, actions) := Polled(r, now, t.dwell, t.retry, backend);
      CountryFirst(trace + actions) && (r'.configured <==> CountrySet(trace + actions))
  {
    hide Polled, CountryFirst, CountrySet, Waiting;
    var uses := PollCalls(r, now, t.dwell, t.retry, backend);
    var (r', _, actions) := Polled(r, now, t.dwell, t.retry, backend);
    var country := CountryCalls(r, now, backend);
    if country == [] {
      assert trace + country == trace;
    } else {
      CountryStep(trace, country[0]);
    }
    assert trace + actions == (trace + country) + uses;
    if r'.configured {
      UsesKeepCountryFirst(trace + country, uses);
    } else {
      assert (trace + country) + uses == trace + country;
    }
  }

  /** In every run the radio is used only after the country was set successfully, which is tried until it works and not
      again. */
  lemma {:induction false} CountryComesFirst(t: Timing, r: Radio, trace: seq<Action>, events: seq<Event>)
    requires CountryFirst(trace) && (r.configured <==> CountrySet(trace))
    ensures CountryFirst(trace + Trace(t, r, events))
    decreases |events|
  {
    hide Polled, CountryFirst, CountrySet, Submitted;
    if events == [] {
      assert trace + [] == trace;
    } else {
      var (r', actions) := Next(t, r, events[0]);
      match events[0] {
        case Submit(p) =>
          assert trace + actions == trace;
          SubmitKeepsRadio(r, p);
        case Poll(now, backend) => PollKeepsCountryFirst(t, r, trace, now, backend);
      }
      CountryComesFirst(t, r', trace + actions, events[1..]);
      assert (trace + actions) + Trace(t, r', events[1..]) == trace + (actions + Trace(t, r', events[1..]));
    }
  }

  lemma SubmitKeepsRadio(r: Radio, p: Payload)
    ensures Submitted(r, p).configured == r.configured
  {
  }
}
