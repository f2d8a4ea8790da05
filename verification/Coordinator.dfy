/** The Wi-Fi coordinator: two bounded queues, one per band, share a radio that is tuned to one channel at a time. */
module Coordinator {
  import opened Words
  import opened Config
  import opened Payloads

  const QUEUE_CAPACITY: nat := 16

  // Driver results.
  const ESP_OK: int := 0
  const ESP_ERR_NO_MEM: int := 0x101
  const ESP_ERR_INVALID_ARG: int := 0x102
  const ESP_ERR_INVALID_STATE: int := 0x103

  type Band = b: nat | b < 2

  function BandIndex(transport: Byte): Band {
    if transport == WIFI58 then 1 else 0
  }

  function BandChannel(band: Band): Byte {
    if band == 0 then 6 else 149
  }

  function Other(band: Band): Band {
    1 - band
  }

  type Queues = q: seq<seq<Payload>> | |q| == 2 witness [[], []]

  /** A channel of zero means that no band was ever tuned. */
  datatype Radio = Radio(
    queues: Queues, stats: StatsTable, active: Band, channel: Byte,
    dwellStarted: Word64, retryAt: Word64, configured: bool)

  const INITIAL: Radio := Radio([[], []], [NO_STATS, NO_STATS], 0, 0, 0, 0, false)

  /** What the backend answers to the calls of one poll. */
  datatype Backend = Backend(country: int, tune: int, transmit: int)

  /** A call made to the backend, with its time and whether it succeeded. */
  datatype Action =
    | SetCountry(at: Word64, ok: bool)
    | SetChannel(at: Word64, channel: Byte, ok: bool)
    | Transmit(at: Word64, payload: Payload, ok: bool)

  function Plus64(a: Word64, b: Word64): Word64 { (a + b) % TWO64 }

  function Minus64(a: Word64, b: Word64): Word64 { (a - b) % TWO64 }

  // ----- What each operation does

  function SubmitCode(r: Radio, p: Payload): int {
    if p.transport != WIFI24 && p.transport != WIFI58 then ESP_ERR_INVALID_ARG
    else if p.size == 0 || p.size > MAX_PAYLOAD then ESP_ERR_INVALID_ARG
    else if |r.queues[BandIndex(p.transport)]| == QUEUE_CAPACITY then ESP_ERR_NO_MEM
    else ESP_OK
  }

  function Submitted(r: Radio, p: Payload): Radio {
    if SubmitCode(r, p) != ESP_OK then r
    else
      var b := BandIndex(p.transport);
      var s := r.stats[b];
      r.(queues := r.queues[b := r.queues[b] + [p]],
         stats := r.stats[b := s.(expected := SaturatingIncrement(s.expected))])
  }

  predicate Empty(r: Radio) {
    r.queues[0] == [] && r.queues[1] == []
  }

  /** Must the radio be tuned before sending, and to which band? */
  function TuningNeeded(r: Radio, now: Word64, dwell: Word64): bool {
    || r.channel == 0
    || (r.queues[Other(r.active)] != [] && (r.queues[r.active] == [] || Minus64(now, r.dwellStarted) >= dwell))
  }

  function TuningTarget(r: Radio, now: Word64, dwell: Word64): Band {
    if r.channel == 0 && r.queues[r.active] != [] then r.active else Other(r.active)
  }

  /** Tuning, unless a failure less than `retry` ago forbids it. */
  function BandSelected(r: Radio, band: Band, now: Word64, retry: Word64, tune: int): (Radio, int, seq<Action>) {
    if now < r.retryAt then (r, ESP_ERR_INVALID_STATE, [])
    else
      var called := [SetChannel(now, BandChannel(band), tune == ESP_OK)];
      var s := r.stats[band];
      if tune != ESP_OK then
        (r.(retryAt := Plus64(now, retry),
            stats := r.stats[band := s.(radioErrors := SaturatingIncrement(s.radioErrors))]), tune, called)
      else (r.(active := band, channel := BandChannel(band), dwellStarted := now, retryAt := 0), ESP_OK, called)
  }

  /** Sending the earliest payload of the active band, or dropping it if it expired. */
  function Sent(r: Radio, now: Word64, transmit: int): (Radio, int, seq<Action>) {
    var b := r.active;
    if r.queues[b] == [] then (r, ESP_OK, [])
    else
      var e := Earliest(r.queues[b]);
      var p := r.queues[b][e];
      var s := r.stats[b];
      var rest := r.(queues := r.queues[b := RemoveAt(r.queues[b], e)]);
      if Expired(p, now) then (rest.(stats := r.stats[b := s.(dropped := SaturatingIncrement(s.dropped))]), ESP_OK, [])
      else
        var called := [Transmit(now, p, transmit == ESP_OK)];
        if transmit != ESP_OK then
          (r.(stats := r.stats[b := s.(radioErrors := SaturatingIncrement(s.radioErrors))]), transmit, called)
        else
          (rest.(stats := r.stats[b := s.(
             submitted := SaturatingIncrement(s.submitted),
             late := if now > p.deadline then SaturatingIncrement(s.late) else s.late)]), ESP_OK, called)
  }

  function Polled(r: Radio, now: Word64, dwell: Word64, retry: Word64, backend: Backend): (Radio, int, seq<Action>) {
    if Empty(r) then (r, ESP_OK, [])
    else
      var called := if r.configured then [] else [SetCountry(now, backend.country == ESP_OK)];
      if !r.configured && backend.country != ESP_OK then (r, backend.country, called)
      else
        var c := r.(configured := true);
        if !TuningNeeded(c, now, dwell) then
          var (sent, code, actions) := Sent(c, now, backend.transmit);
          (sent, code, called + actions)
        else
          var (tuned, code, tuning) := BandSelected(c, TuningTarget(c, now, dwell), now, retry, backend.tune);
          if code == ESP_ERR_INVALID_STATE then (tuned, ESP_OK, called + tuning)
          else if code != ESP_OK then (tuned, code, called + tuning)
          else
            var (sent, code', actions) := Sent(tuned, now, backend.transmit);
            (sent, code', called + tuning + actions)
  }

  // ----- The class

  class RadioCoordinator {
    const dwellMs: Word64
    const retryMs: Word64
    const pending: seq<array<Payload>>
    var pendingCount: seq<nat>
    var stats: StatsTable
    var activeBand: Band
    var currentChannel: Byte
    var dwellStartedMs: Word64
    var retryAtMs: Word64
    var configured: bool

    ghost predicate Valid()
      reads this
    {
      && |pending| == 2 && pending[0] != pending[1] && |pendingCount| == 2
      && (forall b :: 0 <= b < 2 ==> pending[b].Length == QUEUE_CAPACITY && pendingCount[b] <= QUEUE_CAPACITY)
    }

    ghost function State(): Radio
      requires Valid()
      reads this, pending
    {
      Radio([pending[0][..pendingCount[0]], pending[1][..pendingCount[1]]], stats, activeBand, currentChannel,
            dwellStartedMs, retryAtMs, configured)
    }

    constructor (dwellMs: Word64, retryMs: Word64)
      ensures Valid() && State() == INITIAL && this.dwellMs == dwellMs && this.retryMs == retryMs
      ensures fresh(pending[0]) && fresh(pending[1])
    {
      this.dwellMs, this.retryMs := dwellMs, retryMs;
      var blank := Payload(0, 0, BLE4, 1, 0, 0, 0, []);
      var low := new Payload[QUEUE_CAPACITY](_ => blank);
      var high := new Payload[QUEUE_CAPACITY](_ => blank);
      pending := [low, high];
      pendingCount := [0, 0];
      stats := [NO_STATS, NO_STATS];
      activeBand, currentChannel, dwellStartedMs, retryAtMs, configured := 0, 0, 0, 0, false;
      new;
      assert pending[0][..0] == [] && pending[1][..0] == [];
    }

    method Submit(p: Payload) returns (code: int)
      requires Valid()
      modifies this`pendingCount, this`stats, pending
      ensures Valid() && State() == Submitted(old(State()), p) && code == SubmitCode(old(State()), p)
    {
      if p.transport != WIFI24 && p.transport != WIFI58 { return ESP_ERR_INVALID_ARG; }
      if p.size == 0 || p.size > MAX_PAYLOAD { return ESP_ERR_INVALID_ARG; }
      var band := BandIndex(p.transport);
      if pendingCount[band] == QUEUE_CAPACITY { return ESP_ERR_NO_MEM; }
      pending[band][pendingCount[band]] := p;
      pendingCount := pendingCount[band := pendingCount[band] + 1];
      var s := stats[band];
      stats := stats[band := s.(expected := SaturatingIncrement(s.expected))];
      assert State().queues[band] == old(State()).queues[band] + [p];
      assert State().queues == old(State()).queues[band := old(State()).queues[band] + [p]];
      return ESP_OK;
    }

    method Erase(band: Band, index: nat)
      requires Valid() && index < pendingCount[band]
      modifies this`pendingCount, pending
      ensures Valid()
      ensures var q := old(State()).queues; State() == old(State()).(queues := q[band := RemoveAt(q[band], index)])
    {
      hide RemoveAt;
      ShiftDown(pending[band], index, pendingCount[band]);
      pendingCount := pendingCount[band := pendingCount[band] - 1];
    }

    method SelectBand(band: Band, now: Word64, tune: int) returns (code: int, actions: seq<Action>)
      requires Valid()
      modifies this
      ensures Valid() && pendingCount == old(pendingCount)
      ensures (State(), code, actions) == BandSelected(old(State()), band, now, retryMs, tune)
    {
      if now < retryAtMs { return ESP_ERR_INVALID_STATE, []; }
      actions := [SetChannel(now, BandChannel(band), tune == ESP_OK)];
      if tune != ESP_OK {
        retryAtMs := Plus64(now, retryMs);
        var s := stats[band];
        stats := stats[band := s.(radioErrors := SaturatingIncrement(s.radioErrors))];
        return tune, actions;
      }
      activeBand := band;
      currentChannel := BandChannel(band);
      dwellStartedMs := now;
      retryAtMs := 0;
      return ESP_OK, actions;
    }

    method Send(now: Word64, transmit: int) returns (code: int, actions: seq<Action>)
      requires Valid()
      modifies this`pendingCount, this`stats, pending
      ensures Valid() && (State(), code, actions) == Sent(old(State()), now, transmit)
    {
      hide IsEarliest, RemoveAt, SaturatingIncrement, Expired;
      var band := activeBand;
      if pendingCount[band] == 0 { return ESP_OK, []; }
      var selected := EarliestIndex(pending[band], pendingCount[band]);
      var payload := pending[band][selected];
      var s := stats[band];
      if Expired(payload, now) {
        stats := stats[band := s.(dropped := SaturatingIncrement(s.dropped))];
        Erase(band, selected);
        return ESP_OK, [];
      }
      actions := [Transmit(now, payload, transmit == ESP_OK)];
      if transmit != ESP_OK {
        stats := stats[band := s.(radioErrors := SaturatingIncrement(s.radioErrors))];
        return transmit, actions;
      }
      stats := stats[band := s.(
        submitted := SaturatingIncrement(s.submitted),
        late := if now > payload.deadline then SaturatingIncrement(s.late) else s.late)];
      Erase(band, selected);
      return ESP_OK, actions;
    }

    method Poll(now: Word64, backend: Backend) returns (code: int, actions: seq<Action>)
      requires Valid()
      modifies this, pending
      ensures Valid() && (State(), code, actions) == Polled(old(State()), now, dwellMs, retryMs, backend)
    {
      hide Sent, BandSelected, Minus64, BandChannel;
      if pendingCount[0] == 0 && pendingCount[1] == 0 { return ESP_OK, []; }
      actions := [];
      if !configured {
        actions := [SetCountry(now, backend.country == ESP_OK)];
        if backend.country != ESP_OK { return backend.country, actions; }
        configured := true;
      }
      var other := Other(activeBand);
      var target, switchNeeded := activeBand, currentChannel == 0;
      if currentChannel == 0 && pendingCount[activeBand] == 0 { target := other; }
      if currentChannel != 0 && pendingCount[activeBand] == 0 && pendingCount[other] != 0 {
        target, switchNeeded := other, true;
      } else if currentChannel != 0 && pendingCount[activeBand] != 0 && pendingCount[other] != 0 &&
                Minus64(now, dwellStartedMs) >= dwellMs {
        target, switchNeeded := other, true;
      }
      var more;
      if switchNeeded {
        code, more := SelectBand(target, now, backend.tune);
        actions := actions + more;
        if code == ESP_ERR_INVALID_STATE { return ESP_OK, actions; }
        if code != ESP_OK { return code, actions; }
      }
      code, more := Send(now, backend.transmit);
      actions := actions + more;
    }
  }
}
