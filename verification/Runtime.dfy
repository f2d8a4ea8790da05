/** The message clock of the running fleet: staggered first due times, catch-up, and one attempt per due
    stream and tick. Encoding and the sink are taken as an outcome for each attempt. */
module Runtime {
  import opened Wrappers
  import opened Words
  import opened Config
  import opened Grid

  /** Milliseconds since boot, as the driver derives them from a signed 64-bit microsecond timer. */
  type Clock = t: int | 0 <= t <= 0x20_C49B_A5E3_53F7

  datatype RuntimeError = RuntimeOk | InvalidConfiguration | EncodeFailed | SubmitFailed

  datatype RuntimeStats = RuntimeStats(expected: Word64, submitted: Word64, encodeErrors: Word64, submitErrors: Word64)

  const NO_STATS: RuntimeStats := RuntimeStats(0, 0, 0, 0)

  /** What became of an attempt: not encoded, encoded but refused by the sink, or taken by it. */
  datatype Outcome = Unencodable | Refused | Taken

  datatype Attempt = Attempt(aircraft: nat, kind: nat, sequence: Word32, deadline: Word64, expires: Word64,
      outcome: Outcome)

  /** The due times, or the periods, of the six message kinds of one aircraft. */
  type Row = r: seq<Word64> | |r| == MESSAGE_KINDS witness [0, 0, 0, 0, 0, 0]

  const LOCATION: nat := 1

  /** OpenDroneID over anything but BLE4 sends one pack with all messages. */
  predicate Packed(a: Aircraft) {
    a.protocol == OPEN_DRONE_ID && a.transport != BLE4
  }

  ghost predicate ValidFleet(c: SystemConfig, aircraft: seq<Aircraft>) {
    && Acceptable(c) && |aircraft| <= MAX_AIRCRAFT
    && forall i :: 0 <= i < |aircraft| ==> aircraft[i].groupIndex < |c.groups|
  }

  function Period(c: SystemConfig, a: Aircraft, kind: nat): (p: int)
    requires a.groupIndex < |c.groups|
  {
    EffectivePeriod(c, c.groups[a.groupIndex], kind)
  }

  lemma PeriodIsValid(c: SystemConfig, aircraft: seq<Aircraft>, i: nat, kind: nat)
    requires ValidFleet(c, aircraft) && i < |aircraft|
    ensures ValidPeriod(Period(c, aircraft[i], kind))
  {
    EffectivePeriodBounds(c, aircraft[i].groupIndex, kind);
  }

  lemma {:induction false} FleetGroups(c: SystemConfig, derive: Derivation, n: nat)
    requires n <= |c.groups|
    ensures forall i :: 0 <= i < |FleetOf(c, derive, n)| ==> FleetOf(c, derive, n)[i].groupIndex < n
  {
    if n == 0 {
    } else {
      FleetGroups(c, derive, n - 1);
    }
  }

  // ----- Due times

  /** How many slots a stagger divides the period into, and which one a stream has. */
  function Slots(fleet: nat, packed: bool): nat {
    if packed then fleet else fleet * MESSAGE_KINDS
  }

  function Slot(i: nat, kind: nat, packed: bool): nat {
    if packed then i else i * MESSAGE_KINDS + kind
  }

  /** The first due time of a stream of a fleet applied at `now`. */
  ghost function FirstDue(c: SystemConfig, aircraft: seq<Aircraft>, now: Clock, i: nat, kind: nat): nat
    requires ValidFleet(c, aircraft) && i < |aircraft| && kind < MESSAGE_KINDS
  {
    PeriodIsValid(c, aircraft, i, kind);
    Staggered(now, Period(c, aircraft[i], kind), Slots(|aircraft|, Packed(aircraft[i])), Slot(i, kind, Packed(aircraft[i])))
  }

  lemma SlotInRange(fleet: nat, i: nat, kind: nat, packed: bool)
    requires i < fleet && kind < MESSAGE_KINDS
    ensures Slot(i, kind, packed) < Slots(fleet, packed)
  {
  }

  lemma FirstDueBounds(c: SystemConfig, aircraft: seq<Aircraft>, now: Clock, i: nat, kind: nat)
    requires ValidFleet(c, aircraft) && i < |aircraft| && kind < MESSAGE_KINDS
    ensures now <= FirstDue(c, aircraft, now, i, kind) < now + Period(c, aircraft[i], kind) < TWO64
  {
    PeriodIsValid(c, aircraft, i, kind);
    var packed := Packed(aircraft[i]);
    SlotInRange(|aircraft|, i, kind, packed);
    FirstWithinPeriod(now, Period(c, aircraft[i], kind), Slots(|aircraft|, packed), Slot(i, kind, packed));
  }

  /** The rows after the due streams of one aircraft have been stepped past `now`, for the first `k` kinds. */
  ghost function RowAfter(row: Row, c: SystemConfig, aircraft: seq<Aircraft>, i: nat, k: nat, now: Clock): (r: Row)
    requires ValidFleet(c, aircraft) && i < |aircraft| && k <= MESSAGE_KINDS
    ensures forall m :: k <= m < MESSAGE_KINDS ==> r[m] == row[m]
  {
    if k == 0 then row
    else
      PeriodIsValid(c, aircraft, i, k - 1);
      RowAfter(row, c, aircraft, i, k - 1, now)[k - 1 := AfterTick(row[k - 1], Period(c, aircraft[i], k - 1), now)]
  }

  lemma {:induction false} RowAfterAt(row: Row, c: SystemConfig, aircraft: seq<Aircraft>, i: nat, k: nat, now: Clock,
      m: nat)
    requires ValidFleet(c, aircraft) && i < |aircraft| && m < k <= MESSAGE_KINDS
    ensures Period(c, aircraft[i], m) > 0
    ensures RowAfter(row, c, aircraft, i, k, now)[m] == AfterTick(row[m], Period(c, aircraft[i], m), now)
  {
    PeriodIsValid(c, aircraft, i, m);
    if m < k - 1 {
      RowAfterAt(row, c, aircraft, i, k - 1, now, m);
    }
  }

  predicate AnyDue(row: Row, k: nat, now: Clock)
    requires k <= MESSAGE_KINDS
  {
    exists m :: 0 <= m < k && now >= row[m]
  }

  // ----- Attempts

  /** What a tick accumulates. */
  datatype Flow = Flow(sequence: Word32, stats: RuntimeStats, error: RuntimeError, attempts: seq<Attempt>)

  function Tried(f: Flow, i: nat, kind: nat, now: Clock, expires: Word64, outcome: Outcome): Flow {
    var s := f.stats;
    var attempts := f.attempts + [Attempt(i, kind, f.sequence, now, expires, outcome)];
    var next := Unsigned32(f.sequence + 1);
    match outcome
    case Unencodable =>
      Flow(next, s.(encodeErrors := SaturatingIncrement(s.encodeErrors)), EncodeFailed, attempts)
    case Refused =>
      Flow(next, s.(expected := SaturatingIncrement(s.expected), submitErrors := SaturatingIncrement(s.submitErrors)),
           SubmitFailed, attempts)
    case Taken =>
      Flow(next, s.(expected := SaturatingIncrement(s.expected), submitted := SaturatingIncrement(s.submitted)),
           f.error, attempts)
  }

  type Outcomes = (nat, nat) -> Outcome

  /** The attempts of an aircraft that sends its messages one by one, for the first `k` kinds. */
  ghost function KindsTried(f: Flow, row: Row, c: SystemConfig, aircraft: seq<Aircraft>, i: nat, k: nat, now: Clock,
      outcome: Outcomes): Flow
    requires ValidFleet(c, aircraft) && i < |aircraft| && k <= MESSAGE_KINDS
  {
    if k == 0 then f
    else
      var before := KindsTried(f, row, c, aircraft, i, k - 1, now, outcome);
      PeriodIsValid(c, aircraft, i, k - 1);
      if now < row[k - 1] then before
      else Tried(before, i, k - 1, now, now + Period(c, aircraft[i], k - 1), outcome(i, k - 1))
  }

  ghost function AircraftTried(f: Flow, row: Row, c: SystemConfig, aircraft: seq<Aircraft>, i: nat, now: Clock,
      outcome: Outcomes): Flow
    requires ValidFleet(c, aircraft) && i < |aircraft|
  {
    if !Packed(aircraft[i]) then KindsTried(f, row, c, aircraft, i, MESSAGE_KINDS, now, outcome)
    else if AnyDue(row, MESSAGE_KINDS, now) then
      DefaultPeriodIsValid(c);
      Tried(f, i, LOCATION, now, now + c.defaultPeriod, outcome(i, LOCATION))
    else f
  }

  ghost function FleetTried(f: Flow, rows: seq<Row>, c: SystemConfig, aircraft: seq<Aircraft>, n: nat, now: Clock,
      outcome: Outcomes): Flow
    requires ValidFleet(c, aircraft) && n <= |aircraft| <= |rows|
  {
    if n == 0 then f
    else AircraftTried(FleetTried(f, rows, c, aircraft, n - 1, now, outcome), rows[n - 1], c, aircraft, n - 1, now, outcome)
  }

  ghost function RowsAfter(rows: seq<Row>, c: SystemConfig, aircraft: seq<Aircraft>, n: nat, now: Clock): (r: seq<Row>)
    requires ValidFleet(c, aircraft) && n <= |aircraft| <= |rows|
    ensures |r| == |rows| && forall j :: n <= j < |rows| ==> r[j] == rows[j]
    ensures forall j :: 0 <= j < n ==> r[j] == RowAfter(rows[j], c, aircraft, j, MESSAGE_KINDS, now)
  {
    if n == 0 then rows
    else RowsAfter(rows, c, aircraft, n - 1, now)[n - 1 := RowAfter(rows[n - 1], c, aircraft, n - 1, MESSAGE_KINDS, now)]
  }

  // ----- The class

  class MessageRuntime {
    const derive: Derivation
    const nextDue: array<Row>
    var config: SystemConfig
    var aircraft: seq<Aircraft>
    var stats: RuntimeStats
    var startedMs: Clock
    var sequence: Word32
    var running: bool

    ghost predicate Valid()
      reads this
    {
      && nextDue.Length == MAX_AIRCRAFT
      && (running ==> ValidFleet(config, aircraft))
    }

    constructor (derive: Derivation)
      ensures Valid() && this.derive == derive && !running && fresh(nextDue)
    {
      this.derive := derive;
      nextDue := new Row[MAX_AIRCRAFT](_ => [0, 0, 0, 0, 0, 0]);
      config, aircraft, stats := SystemConfig(None, 1000, []), [], NO_STATS;
      startedMs, sequence, running := 0, 0, false;
    }

    /** A snapshot that does not validate or expand changes nothing; the fleet that ran keeps running. */
    method Apply(c: SystemConfig, now: Clock) returns (error: RuntimeError)
      requires Valid()
      modifies this, nextDue
      ensures Valid()
      ensures error == if Acceptable(c) && Derivable(c, derive) then RuntimeOk else InvalidConfiguration
      ensures error != RuntimeOk ==> unchanged(this) && unchanged(nextDue)
      ensures error == RuntimeOk ==>
        && running && config == c && aircraft == FleetOf(c, derive, |c.groups|)
        && stats == NO_STATS && sequence == 0 && startedMs == now
        && forall i, k :: 0 <= i < |aircraft| && 0 <= k < MESSAGE_KINDS ==>
             nextDue[i][k] == FirstDue(config, aircraft, now, i, k)
    {
      hide Acceptable, Derivable, EffectivePeriod;
      var expanded := Expand(c, derive);
      if expanded.Rejected? { return InvalidConfiguration; }
      FleetLength(c, derive, |c.groups|);
      FleetGroups(c, derive, |c.groups|);
      assert TotalAircraft(c.groups[..|c.groups|]) <= MAX_AIRCRAFT by {
        assert c.groups[..|c.groups|] == c.groups;
        FleetFits(c);
      }
      config := c;
      aircraft := expanded.aircraft;
      assert ValidFleet(config, aircraft);
      for i := 0 to |aircraft|
        invariant config == c && aircraft == expanded.aircraft
        invariant forall j, k :: 0 <= j < i && 0 <= k < MESSAGE_KINDS ==>
          nextDue[j][k] == FirstDue(config, aircraft, now, j, k)
      {
        StaggerRow(i, now);
      }
      stats := NO_STATS;
      startedMs := now;
      sequence := 0;
      running := true;
      return RuntimeOk;
    }

    method StaggerRow(i: nat, now: Clock)
      requires nextDue.Length == MAX_AIRCRAFT && ValidFleet(config, aircraft) && i < |aircraft|
      modifies nextDue
      ensures forall j :: 0 <= j < MAX_AIRCRAFT && j != i ==> nextDue[j] == old(nextDue[j])
      ensures forall k :: 0 <= k < MESSAGE_KINDS ==> nextDue[i][k] == FirstDue(config, aircraft, now, i, k)
    {
      hide Acceptable, EffectivePeriod;
      var packed := aircraft[i].protocol == OPEN_DRONE_ID && aircraft[i].transport != BLE4;
      for kind := 0 to MESSAGE_KINDS
        invariant forall j :: 0 <= j < MAX_AIRCRAFT && j != i ==> nextDue[j] == old(nextDue[j])
        invariant forall k :: 0 <= k < kind ==> nextDue[i][k] == FirstDue(config, aircraft, now, i, k)
      {
        PeriodIsValid(config, aircraft, i, kind);
        FirstDueBounds(config, aircraft, now, i, kind);
        var period := Period(config, aircraft[i], kind);
        var slots := if packed then |aircraft| else |aircraft| * MESSAGE_KINDS;
        var slot := if packed then i else i * MESSAGE_KINDS + kind;
        nextDue[i] := nextDue[i][kind := now + period * slot / slots];
      }
    }

    method AdvanceDue(i: nat, kind: nat, now: Clock)
      requires nextDue.Length == MAX_AIRCRAFT && ValidFleet(config, aircraft) && i < |aircraft|
      requires kind < MESSAGE_KINDS && nextDue[i][kind] <= now
      modifies nextDue
      ensures Period(config, aircraft[i], kind) > 0
      ensures nextDue[..] ==
          old(nextDue[..])[i := old(nextDue[i])[kind := AfterTick(old(nextDue[i][kind]), Period(config, aircraft[i], kind), now)]]
    {
      hide Acceptable, EffectivePeriod;
      PeriodIsValid(config, aircraft, i, kind);
      var period := Period(config, aircraft[i], kind);
      var due: Word64 := nextDue[i][kind];
      ghost var first, steps: nat := due, 1;
      due := due + period;
      while due <= now
        invariant due == first + steps * period && first + (steps - 1) * period <= now && steps >= 1
        invariant due <= now + period
        decreases now + period - due
      {
        assert (steps + 1) * period == steps * period + period;
        due := due + period;
        steps := steps + 1;
      }
      QuotientBetween(now - first, period, steps - 1);
      assert due == Advance(first, period, now);
      nextDue[i] := nextDue[i][kind := due];
    }

    /** Building, encoding and submitting one payload. */
    method Try(i: nat, kind: nat, now: Clock, expires: Word64, outcome: Outcome, error: RuntimeError,
        attempts: seq<Attempt>)
        returns (error': RuntimeError, attempts': seq<Attempt>)
      modifies this`sequence, this`stats
      ensures Flow(sequence, stats, error', attempts')
           == Tried(Flow(old(sequence), old(stats), error, attempts), i, kind, now, expires, outcome)
    {
      attempts' := attempts + [Attempt(i, kind, sequence, now, expires, outcome)];
      sequence := Unsigned32(sequence + 1);
      if outcome == Unencodable {
        stats := stats.(encodeErrors := SaturatingIncrement(stats.encodeErrors));
        return EncodeFailed, attempts';
      }
      stats := stats.(expected := SaturatingIncrement(stats.expected));
      if outcome == Refused {
        stats := stats.(submitErrors := SaturatingIncrement(stats.submitErrors));
        return SubmitFailed, attempts';
      }
      stats := stats.(submitted := SaturatingIncrement(stats.submitted));
      return error, attempts';
    }

    method TickPack(i: nat, now: Clock, outcome: Outcomes, error: RuntimeError, attempts: seq<Attempt>)
        returns (error': RuntimeError, attempts': seq<Attempt>)
      requires nextDue.Length == MAX_AIRCRAFT && ValidFleet(config, aircraft) && i < |aircraft| && Packed(aircraft[i])
      modifies this`sequence, this`stats, nextDue
      ensures nextDue[..] == old(nextDue[..])[i := RowAfter(old(nextDue[i]), config, aircraft, i, MESSAGE_KINDS, now)]
      ensures Flow(sequence, stats, error', attempts')
           == AircraftTried(Flow(old(sequence), old(stats), error, attempts), old(nextDue[i]),
                           config, aircraft, i, now, outcome)
    {
      hide Acceptable, EffectivePeriod, Tried;
      var due := false;
      ghost var row := nextDue[i];
      for kind := 0 to MESSAGE_KINDS
        invariant nextDue[..] == old(nextDue[..])[i := RowAfter(row, config, aircraft, i, kind, now)]
        invariant due == AnyDue(row, kind, now)
        invariant sequence == old(sequence) && stats == old(stats)
      {
        PeriodIsValid(config, aircraft, i, kind);
        ghost var before := nextDue[i];
        assert nextDue[..][i] == before && before[kind] == row[kind];
        assert before[kind := before[kind]] == before;
        if now >= nextDue[i][kind] {
          due := true;
          AdvanceDue(i, kind, now);
        }
        assert nextDue[..] == old(nextDue[..])[i := RowAfter(row, config, aircraft, i, kind + 1, now)];
      }
      if !due { return error, attempts; }
      DefaultPeriodIsValid(config);
      error', attempts' := Try(i, LOCATION, now, now + config.defaultPeriod, outcome(i, LOCATION), error, attempts);
    }

    method TickKinds(i: nat, now: Clock, outcome: Outcomes, error: RuntimeError, attempts: seq<Attempt>)
        returns (error': RuntimeError, attempts': seq<Attempt>)
      requires nextDue.Length == MAX_AIRCRAFT && ValidFleet(config, aircraft) && i < |aircraft| && !Packed(aircraft[i])
      modifies this`sequence, this`stats, nextDue
      ensures nextDue[..] == old(nextDue[..])[i := RowAfter(old(nextDue[i]), config, aircraft, i, MESSAGE_KINDS, now)]
      ensures Flow(sequence, stats, error', attempts')
           == AircraftTried(Flow(old(sequence), old(stats), error, attempts), old(nextDue[i]),
                           config, aircraft, i, now, outcome)
    {
      hide Acceptable, EffectivePeriod, Tried;
      ghost var row, start := nextDue[i], Flow(sequence, stats, error, attempts);
      error', attempts' := error, attempts;
      for kind := 0 to MESSAGE_KINDS
        invariant nextDue[..] == old(nextDue[..])[i := RowAfter(row, config, aircraft, i, kind, now)]
        invariant Flow(sequence, stats, error', attempts') == KindsTried(start, row, config, aircraft, i, kind, now, outcome)
      {
        PeriodIsValid(config, aircraft, i, kind);
        ghost var before := nextDue[i];
        assert nextDue[..][i] == before && before[kind] == row[kind];
        assert before[kind := before[kind]] == before;
        if now < nextDue[i][kind] { continue; }
        AdvanceDue(i, kind, now);
        assert nextDue[..] == old(nextDue[..])[i := RowAfter(row, config, aircraft, i, kind + 1, now)];
        error', attempts' := Try(i, kind, now, now + Period(config, aircraft[i], kind), outcome(i, kind), error', attempts');
      }
    }

    /** The attempts made are returned; `outcome` says what becomes of each. */
    method Tick(now: Clock, outcome: Outcomes) returns (error: RuntimeError, attempts: seq<Attempt>)
      requires Valid()
      modifies this`sequence, this`stats, nextDue
      ensures Valid()
      ensures !running || now < startedMs ==>
        error == InvalidConfiguration && attempts == [] && sequence == old(sequence) && stats == old(stats) && unchanged(nextDue)
      ensures running && now >= startedMs ==>
        && nextDue[..] == RowsAfter(old(nextDue[..]), config, aircraft, |aircraft|, now)
        && Flow(sequence, stats, error, attempts) ==
             FleetTried(Flow(old(sequence), old(stats), RuntimeOk, []), old(nextDue[..]),
                 config, aircraft, |aircraft|, now, outcome)
    {
      hide Acceptable, EffectivePeriod, AircraftTried, RowAfter;
      if !running || now < startedMs { return InvalidConfiguration, []; }
      ghost var rows, start := nextDue[..], Flow(sequence, stats, RuntimeOk, []);
      error, attempts := RuntimeOk, [];
      for i := 0 to |aircraft|
        invariant nextDue[..] == RowsAfter(rows, config, aircraft, i, now)
        invariant Flow(sequence, stats, error, attempts) == FleetTried(start, rows, config, aircraft, i, now, outcome)
      {
        assert nextDue[i] == nextDue[..][i] == rows[i];
        if Packed(aircraft[i]) {
          error, attempts := TickPack(i, now, outcome, error, attempts);
        } else {
          error, attempts := TickKinds(i, now, outcome, error, attempts);
        }
      }
    }
  }

  lemma DefaultPeriodIsValid(c: SystemConfig)
    requires Acceptable(c)
    ensures ValidPeriod(c.defaultPeriod)
  {
  }

  lemma FleetFits(c: SystemConfig)
    requires Acceptable(c)
    ensures TotalAircraft(c.groups) <= MAX_AIRCRAFT
  {
  }
}
