/** What every run of the Wi-Fi coordinator keeps: tuning safety, conservation, dwell, back-off and bounded waiting. */
module CoordinatorSafety {
  import opened Words
  import opened Config
  import opened Payloads
  import opened Coordinator

  datatype Event = Submit(payload: Payload) | Poll(now: Word64, backend: Backend)

  datatype Timing = Timing(dwell: Word64, retry: Word64)

  function Next(t: Timing, r: Radio, e: Event): (Radio, seq<Action>) {
    match e
    case Submit(p) => (Submitted(r, p), [])
    case Poll(now, backend) => var (r', _, actions) := Polled(r, now, t.dwell, t.retry, backend); (r', actions)
  }

  function Run(t: Timing, r: Radio, events: seq<Event>): Radio
    decreases |events|
  {
    if events == [] then r else Run(t, Next(t, r, events[0]).0, events[1..])
  }

  /** All calls made to the backend, in order. */
  function Trace(t: Timing, r: Radio, events: seq<Event>): seq<Action>
    decreases |events|
  {
    if events == [] then [] else Next(t, r, events[0]).1 + Trace(t, Next(t, r, events[0]).0, events[1..])
  }

  // ----- Tuning safety

  /** The channel of the last successful tuning, or zero. */
  function LastTuned(trace: seq<Action>): Byte {
    if trace == [] then 0
    else
      var last := trace[|trace| - 1];
      if last.SetChannel? && last.ok then last.channel else LastTuned(trace[..|trace| - 1])
  }

  /** Channel 6 for the 2.4 GHz transport, number 2, and channel 149 for the 5.8 GHz transport, number 3. */
  predicate IsChannelOf(channel: Byte, transport: Byte) {
    (transport == 2 && channel == 6) || (transport == 3 && channel == 149)
  }

  ghost predicate SentOnItsChannel(trace: seq<Action>, i: nat)
    requires i < |trace|
  {
    trace[i].Transmit? ==> IsChannelOf(LastTuned(trace[..i]), trace[i].payload.transport)
  }

  ghost predicate SafeTrace(trace: seq<Action>) {
    forall i :: 0 <= i < |trace| ==> SentOnItsChannel(trace, i)
  }

  lemma ExtendSafe(trace: seq<Action>, a: Action)
    requires SafeTrace(trace)
    requires a.Transmit? ==> IsChannelOf(LastTuned(trace), a.payload.transport)
    ensures SafeTrace(trace + [a])
    ensures LastTuned(trace + [a]) == if a.SetChannel? && a.ok then a.channel else LastTuned(trace)
  {
    var longer := trace + [a];
    assert longer[..|trace|] == trace;
    forall i | 0 <= i < |longer| ensures SentOnItsChannel(longer, i) {
      if i < |trace| {
        assert SentOnItsChannel(trace, i);
        assert longer[..i] == trace[..i];
      }
    }
  }

  /** Payloads wait in the queue of their band, and the channel is that of the active band once tuned. */
  ghost predicate Tuned(r: Radio, trace: seq<Action>) {
    && SafeTrace(trace) && r.channel == LastTuned(trace)
    && (r.channel != 0 ==> r.channel == BandChannel(r.active))
    && InBands(r)
  }

  /** Each queue holds payloads of its own transport. */
  ghost predicate InBands(r: Radio) {
    (forall p :: p in r.queues[0] ==> p.transport == 2) && (forall p :: p in r.queues[1] ==> p.transport == 3)
  }

  lemma SelectKeepsTuned(r: Radio, trace: seq<Action>, band: Band, now: Word64, retry: Word64, tune: int)
    requires Tuned(r, trace)
    ensures var (r', code, actions) := BandSelected(r, band, now, retry, tune);
      Tuned(r', trace + actions) && (code == ESP_OK ==> r'.channel == BandChannel(r'.active))
  {
    hide SafeTrace, LastTuned;
    if now < r.retryAt {
      assert trace + [] == trace;
    } else {
      ExtendSafe(trace, SetChannel(now, BandChannel(band), tune == ESP_OK));
    }
  }

  lemma SendKeepsTuned(r: Radio, trace: seq<Action>, now: Word64, transmit: int)
    requires Tuned(r, trace) && r.channel == BandChannel(r.active)
    ensures var (r', code, actions) := Sent(r, now, transmit); Tuned(r', trace + actions)
  {
    hide SafeTrace, LastTuned, IsEarliest, Expired;
    assert trace + [] == trace;
    if r.queues[r.active] != [] {
      var p := r.queues[r.active][Earliest(r.queues[r.active])];
      assert p in r.queues[r.active];
      ExtendSafe(trace, Transmit(now, p, transmit == ESP_OK));
    }
  }

  lemma PollKeepsTuned(t: Timing, r: Radio, trace: seq<Action>, now: Word64, backend: Backend)
    requires Tuned(r, trace)
    ensures var (r', code, actions) := Polled(r, now, t.dwell, t.retry, backend); Tuned(r', trace + actions)
  {
    hide SafeTrace, LastTuned, BandChannel, BandIndex, BandSelected, Sent, Minus64;
    if Empty(r) {
      assert trace + [] == trace;
    } else {
      var called := if r.configured then [] else [SetCountry(now, backend.country == ESP_OK)];
      if called == [] {
        assert trace + called == trace;
      } else {
        ExtendSafe(trace, called[0]);
      }
      var c := r.(configured := true);
      var base := trace + called;
      if r.configured || backend.country == ESP_OK {
        if !TuningNeeded(c, now, t.dwell) {
          SendKeepsTuned(c, base, now, backend.transmit);
          var (_, _, actions) := Sent(c, now, backend.transmit);
          assert trace + (called + actions) == base + actions;
        } else {
          var (tuned, code, tuning) := BandSelected(c, TuningTarget(c, now, t.dwell), now, t.retry, backend.tune);
          SelectKeepsTuned(c, base, TuningTarget(c, now, t.dwell), now, t.retry, backend.tune);
          assert trace + (called + tuning) == base + tuning;
          if code == ESP_OK {
            SendKeepsTuned(tuned, base + tuning, now, backend.transmit);
            var (_, _, actions) := Sent(tuned, now, backend.transmit);
            assert trace + (called + tuning + actions) == (base + tuning) + actions;
          }
        }
      }
    }
  }

  lemma SubmitKeepsTuned(r: Radio, trace: seq<Action>, p: Payload)
    requires Tuned(r, trace)
    ensures Tuned(Submitted(r, p), trace)
  {
  }

  lemma {:induction false} RunKeepsTuned(t: Timing, r: Radio, trace: seq<Action>, events: seq<Event>)
    requires Tuned(r, trace)
    ensures Tuned(Run(t, r, events), trace + Trace(t, r, events))
    decreases |events|
  {
    hide Tuned, Polled;
    if events == [] {
      assert trace + [] == trace;
    } else {
      var (r', actions) := Next(t, r, events[0]);
      match events[0] {
        case Submit(p) =>
          SubmitKeepsTuned(r, trace, p);
          assert trace + actions == trace;
        case Poll(now, backend) => PollKeepsTuned(t, r, trace, now, backend);
      }
      RunKeepsTuned(t, r', trace + actions, events[1..]);
      assert (trace + actions) + Trace(t, r', events[1..]) == trace + (actions + Trace(t, r', events[1..]));
    }
  }

  /** In every run, whatever the backend answers, a payload is only transmitted while the last successful
      tuning is to the channel of its band. */
  lemma TransmitsOnTheRightChannel(t: Timing, events: seq<Event>)
    ensures SafeTrace(Trace(t, INITIAL, events))
    ensures Run(t, INITIAL, events).channel == LastTuned(Trace(t, INITIAL, events))
  {
    RunKeepsTuned(t, INITIAL, [], events);
    assert [] + Trace(t, INITIAL, events) == Trace(t, INITIAL, events);
  }

  lemma SentIsEarliest(r: Radio, now: Word64, transmit: int)
    ensures var (r', _, actions) := Sent(r, now, transmit);
      && r'.active == r.active
      && forall a :: a in actions ==>
           && r.queues[r.active] != [] &&
               a == Transmit(now, r.queues[r.active][Earliest(r.queues[r.active])], transmit == ESP_OK)
           && !Expired(a.payload, now)
  {
    hide IsEarliest, Expired;
  }

  lemma SelectSendsNothing(r: Radio, band: Band, now: Word64, retry: Word64, tune: int)
    ensures var (r', _, actions) := BandSelected(r, band, now, retry, tune);
      r'.queues == r.queues && forall a :: a in actions ==> a.SetChannel?
  {
  }

  /** What a poll transmits is the earliest payload of the band it leaves active, and has not expired. */
  lemma PollSendsEarliest(t: Timing, r: Radio, now: Word64, backend: Backend, a: Action)
    requires a in Polled(r, now, t.dwell, t.retry, backend).2 && a.Transmit?
    ensures var queue := r.queues[Polled(r, now, t.dwell, t.retry, backend).0.active];
      exists i: nat :: IsEarliest(queue, i) && queue[i] == a.payload
    ensures !Expired(a.payload, now) && a.at == now && a.ok == (backend.transmit == ESP_OK)
  {
    hide IsEarliest, Expired, TuningNeeded, TuningTarget, Sent, BandSelected;
    var c := r.(configured := true);
    SentIsEarliest(c, now, backend.transmit);
    var target := TuningTarget(c, now, t.dwell);
    SelectSendsNothing(c, target, now, t.retry, backend.tune);
    SentIsEarliest(BandSelected(c, target, now, t.retry, backend.tune).0, now, backend.transmit);
    var queue := r.queues[Polled(r, now, t.dwell, t.retry, backend).0.active];
    assert IsEarliest(queue, Earliest(queue));
  }

  // ----- Conservation

  /** Every payload accepted for a band waits, was handed to the driver, or was dropped. */
  predicate Conserved(r: Radio, b: Band) {
    var s := r.stats[b];
    s.expected < MAX64 ==> s.expected == |r.queues[b]| + s.submitted + s.dropped
  }

  predicate Accounted(r: Radio) {
    Conserved(r, 0) && Conserved(r, 1)
  }

  lemma SubmitAccounts(r: Radio, p: Payload)
    requires Accounted(r)
    ensures Accounted(Submitted(r, p))
  {
  }

  lemma SendAccounts(r: Radio, now: Word64, transmit: int)
    requires Accounted(r)
    ensures Accounted(Sent(r, now, transmit).0)
  {
    hide IsEarliest, Expired;
  }

  lemma SelectAccounts(r: Radio, band: Band, now: Word64, retry: Word64, tune: int)
    requires Accounted(r)
    ensures Accounted(BandSelected(r, band, now, retry, tune).0)
  {
  }

  lemma PollAccounts(t: Timing, r: Radio, now: Word64, backend: Backend)
    requires Accounted(r)
    ensures Accounted(Polled(r, now, t.dwell, t.retry, backend).0)
  {
    hide Sent, BandSelected, TuningNeeded, TuningTarget;
    var c := r.(configured := true);
    assert Accounted(c);
    SendAccounts(c, now, backend.transmit);
    SelectAccounts(c, TuningTarget(c, now, t.dwell), now, t.retry, backend.tune);
    SendAccounts(BandSelected(c, TuningTarget(c, now, t.dwell), now, t.retry, backend.tune).0, now, backend.transmit);
  }

  /** Conservation for each band over every run: while its counter of accepted payloads is not saturated,
      accepted = waiting + submitted + dropped. Failed tunings and transmissions lose nothing. */
  lemma {:induction false} NothingIsLost(t: Timing, r: Radio, events: seq<Event>)
    requires Accounted(r)
    ensures Accounted(Run(t, r, events))
    decreases |events|
  {
    hide Accounted, Polled, Submitted;
    if events != [] {
      match events[0] {
        case Submit(p) => SubmitAccounts(r, p);
        case Poll(now, backend) => PollAccounts(t, r, now, backend);
      }
      NothingIsLost(t, Next(t, r, events[0]).0, events[1..]);
    }
  }

  // ----- Progress

  function Total(r: Radio): nat {
    |r.queues[0]| + |r.queues[1]|
  }

  predicate Works(backend: Backend) {
    backend.country == ESP_OK && backend.tune == ESP_OK && backend.transmit == ESP_OK
  }

  /** While anything waits, the band a poll sends from is never empty: the early return on an empty
      active band is unreachable. */
  lemma SendsFromNonemptyBand(r: Radio, now: Word64, dwell: Word64)
    requires !Empty(r)
    ensures !TuningNeeded(r, now, dwell) ==> r.queues[r.active] != []
    ensures TuningNeeded(r, now, dwell) ==> r.queues[TuningTarget(r, now, dwell)] != []
  {
  }

  /** With a working backend and no back-off pending, a poll takes exactly one payload. */
  lemma PollTakesOne(t: Timing, r: Radio, now: Word64, backend: Backend)
    requires Works(backend) && !Empty(r) && now >= r.retryAt
    ensures var (r', code, _) := Polled(r, now, t.dwell, t.retry, backend);
      Total(r') == Total(r) - 1 && code == ESP_OK && r'.retryAt <= r.retryAt
  {
    hide IsEarliest, Expired, TuningNeeded, TuningTarget;
    SendsFromNonemptyBand(r.(configured := true), now, t.dwell);
  }

  predicate WorkingPolls(events: seq<Event>, from: Word64) {
    forall i :: 0 <= i < |events| ==> events[i].Poll? && Works(events[i].backend) && events[i].now >= from
  }

  /** Outside back-off a working backend drains n waiting payloads in exactly n polls, and no fewer. */
  lemma {:induction false} DrainsInExactly(t: Timing, r: Radio, polls: seq<Event>)
    requires WorkingPolls(polls, r.retryAt)
    ensures Total(Run(t, r, polls)) == if |polls| <= Total(r) then Total(r) - |polls| else 0
    decreases |polls|
  {
    hide Polled, Works;
    if polls != [] {
      var r' := Next(t, r, polls[0]).0;
      if Empty(r) {
        PollOnNothing(t, r, polls[0].now, polls[0].backend);
      } else {
        PollTakesOne(t, r, polls[0].now, polls[0].backend);
      }
      DrainsInExactly(t, r', polls[1..]);
    }
  }

  lemma PollOnNothing(t: Timing, r: Radio, now: Word64, backend: Backend)
    requires Empty(r)
    ensures Polled(r, now, t.dwell, t.retry, backend) == (r, ESP_OK, [])
  {
  }

  // ----- Back-off

  predicate PollsBefore(events: seq<Event>, limit: int) {
    forall i :: 0 <= i < |events| && events[i].Poll? ==> events[i].now < limit
  }

  /** A failed tuning forbids the next one for the whole retry time. */
  lemma FailedTuningBacksOff(t: Timing, r: Radio, now: Word64, backend: Backend, a: Action)
    requires a in Polled(r, now, t.dwell, t.retry, backend).2 && a.SetChannel? && !a.ok
    requires now + t.retry < TWO64
    ensures Polled(r, now, t.dwell, t.retry, backend).0.retryAt == now + t.retry
  {
    hide IsEarliest, Expired, TuningNeeded, TuningTarget;
  }

  lemma QuietPoll(t: Timing, r: Radio, now: Word64, backend: Backend)
    requires now < r.retryAt
    ensures var (r', _, actions) := Polled(r, now, t.dwell, t.retry, backend);
      r'.retryAt == r.retryAt && forall a :: a in actions ==> !a.SetChannel?
  {
    hide IsEarliest, Expired, TuningNeeded, TuningTarget;
  }

  /** Whatever else happens, no tuning is attempted by polls before the retry time. */
  lemma {:induction false} NoTuningDuringBackOff(t: Timing, r: Radio, events: seq<Event>)
    requires PollsBefore(events, r.retryAt)
    ensures Run(t, r, events).retryAt == r.retryAt
    ensures forall a :: a in Trace(t, r, events) ==> !a.SetChannel?
    decreases |events|
  {
    hide Polled;
    if events == [] {
    } else {
      if events[0].Poll? {
        QuietPoll(t, r, events[0].now, events[0].backend);
      }
      NoTuningDuringBackOff(t, Next(t, r, events[0]).0, events[1..]);
    }
  }

  /** After a poll whose tuning failed, polls less than `retry` later make no tuning call. */
  lemma BackOffLasts(t: Timing, r: Radio, now: Word64, backend: Backend, a: Action, later: seq<Event>)
    requires a in Polled(r, now, t.dwell, t.retry, backend).2 && a.SetChannel? && !a.ok
    requires now + t.retry < TWO64 && PollsBefore(later, now + t.retry)
    ensures forall x :: x in Trace(t, Polled(r, now, t.dwell, t.retry, backend).0, later) ==> !x.SetChannel?
  {
    hide Polled;
    FailedTuningBacksOff(t, r, now, backend, a);
    NoTuningDuringBackOff(t, Polled(r, now, t.dwell, t.retry, backend).0, later);
  }

  // ----- Dwell

  /** Poll times never go back, starting at `from`. */
  predicate Timely(events: seq<Event>, from: Word64)
    decreases |events|
  {
    if events == [] then true
    else if events[0].Submit? then Timely(events[1..], from)
    else events[0].now >= from && Timely(events[1..], events[0].now)
  }

  function LastPoll(events: seq<Event>, from: Word64): Word64
    decreases |events|
  {
    if events == [] then from else LastPoll(events[1..], if events[0].Poll? then events[0].now else from)
  }

  lemma PollStartsDwell(t: Timing, r: Radio, now: Word64, backend: Backend)
    requires r.dwellStarted <= now
    ensures var (r', _, actions) := Polled(r, now, t.dwell, t.retry, backend);
      && r'.dwellStarted <= now
      && (r'.dwellStarted != r.dwellStarted ==> r'.dwellStarted == now && r'.channel != 0)
      && (r'.active != r.active ==> r'.dwellStarted == now)
  {
    hide IsEarliest, Expired, TuningNeeded, TuningTarget;
  }

  lemma {:induction false} DwellStartsInThePast(t: Timing, r: Radio, from: Word64, events: seq<Event>)
    requires r.dwellStarted <= from && Timely(events, from)
    ensures Run(t, r, events).dwellStarted <= LastPoll(events, from)
    decreases |events|
  {
    hide Polled;
    if events == [] {
    } else {
      if events[0].Poll? {
        PollStartsDwell(t, r, events[0].now, events[0].backend);
      }
      DwellStartsInThePast(t, Next(t, r, events[0]).0, if events[0].Poll? then events[0].now else from, events[1..]);
    }
  }

  /** After any run with nondecreasing poll times, a poll that leaves, or even tries to leave, a tuned band
      that still holds traffic comes at least the dwell time after that band was tuned. */
  lemma NeverLeftEarly(t: Timing, events: seq<Event>, now: Word64, backend: Backend, a: Action)
    requires Timely(events, 0) && now >= LastPoll(events, 0)
    requires var r := Run(t, INITIAL, events);
      && r.channel != 0 && r.queues[r.active] != []
      && a in Polled(r, now, t.dwell, t.retry, backend).2 && a.SetChannel?
    ensures now >= Run(t, INITIAL, events).dwellStarted + t.dwell
  {
    hide IsEarliest, Expired;
    DwellStartsInThePast(t, INITIAL, 0, events);
    hide Run;
    var r := Run(t, INITIAL, events);
    NoWrap(now, r.dwellStarted);
    if !TuningNeeded(r.(configured := true), now, t.dwell) {
      SendTunesNothing(r.(configured := true), now, backend.transmit);
    }
  }

  lemma NoWrap(now: Word64, then_: Word64)
    requires then_ <= now
    ensures Minus64(now, then_) == now - then_
  {
  }

  lemma SendTunesNothing(r: Radio, now: Word64, transmit: int)
    ensures forall a :: a in Sent(r, now, transmit).2 ==> !a.SetChannel?
  {
    hide IsEarliest, Expired;
  }

  // ----- Bounded waiting

  /** Polls are at most `gap` apart, the first at most `gap` after `from`; all backends work. */
  predicate Spaced(events: seq<Event>, from: Word64, gap: Word64)
    decreases |events|
  {
    if events == [] then true
    else if events[0].Submit? then Spaced(events[1..], from, gap)
    else from <= events[0].now <= from + gap && Works(events[0].backend) && Spaced(events[1..], events[0].now, gap)
  }

  /** Band `w` waits: traffic is queued for it while the radio is tuned to the other band. */
  predicate Waits(r: Radio, w: Band) {
    r.channel != 0 && r.active == Other(w) && r.queues[w] != []
  }

  lemma WaitingPoll(t: Timing, r: Radio, w: Band, now: Word64, backend: Backend)
    requires Waits(r, w) && Works(backend) && r.dwellStarted <= now && r.retryAt <= now
    ensures var r' := Polled(r, now, t.dwell, t.retry, backend).0;
      if now >= r.dwellStarted + t.dwell || r.queues[r.active] == [] then r'.active == w && r'.channel == BandChannel(w)
      else Waits(r', w) && r'.dwellStarted == r.dwellStarted && r'.retryAt == r.retryAt
  {
    hide IsEarliest, Expired;
    NoWrap(now, r.dwellStarted);
  }

  /** A waiting band is tuned soon. If polls are at most `gap` apart and the backend works, then among events
      that reach the end of the dwell time, some poll no later than dwell + gap after the start of the
      wait leaves the radio tuned to the waiting band. */
  lemma {:induction false} WaitingIsBounded(
      t: Timing, r: Radio, w: Band, start: Word64, last: Word64, gap: Word64, events: seq<Event>) returns (n: nat)
    requires Waits(r, w) && r.dwellStarted <= start <= last && r.retryAt <= start
    requires last == start || last < start + t.dwell
    requires Spaced(events, last, gap)
    requires exists i :: 0 <= i < |events| && events[i].Poll? && events[i].now >= start + t.dwell
    ensures n < |events| && events[n].Poll? && events[n].now <= start + t.dwell + gap
    ensures var r' := Run(t, r, events[..n + 1]); r'.active == w && r'.channel == BandChannel(w)
    decreases |events|
  {
    hide Polled, Works, BandChannel;
    var (r', _) := Next(t, r, events[0]);
    if events[0].Poll? {
      WaitingPoll(t, r, w, events[0].now, events[0].backend);
    } else {
      SubmitKeepsWaiting(r, w, events[0].payload);
    }
    if events[0].Poll? && (events[0].now >= r.dwellStarted + t.dwell || r.queues[r.active] == []) {
      n := 0;
      assert events[..1] == [events[0]];
      assert Run(t, r', []) == r';
      assert Run(t, r, [events[0]]) == Run(t, r', [events[0]][1..]);
    } else {
      var i :| 0 <= i < |events| && events[i].Poll? && events[i].now >= start + t.dwell;
      assert i > 0 && events[1..][i - 1] == events[i];
      var m := WaitingIsBounded(t, r', w, start, if events[0].Poll? then events[0].now else last, gap, events[1..]);
      n := m + 1;
      assert events[..n + 1][1..] == events[1..][..m + 1];
    }
  }

  lemma SubmitKeepsWaiting(r: Radio, w: Band, p: Payload)
    requires Waits(r, w)
    ensures var r' := Submitted(r, p); Waits(r', w) && r'.dwellStarted == r.dwellStarted && r'.retryAt == r.retryAt
  {
  }
}
