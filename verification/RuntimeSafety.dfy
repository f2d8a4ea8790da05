/** Whole runs of the message clock: no drift, one attempt per due point, and the stagger of a fleet. */
module RuntimeSafety {
  import opened Wrappers
  import opened Words
  import opened Config
  import opened Grid
  import opened Runtime
  import Payloads

  datatype Tick = Tick(now: Clock, outcome: Outcomes)

  /** A fleet as an apply leaves it. */
  datatype Fleet = Fleet(config: SystemConfig, aircraft: seq<Aircraft>, started: Clock, rows: seq<Row>)

  ghost predicate Applied(f: Fleet) {
    && ValidFleet(f.config, f.aircraft) && |f.aircraft| <= |f.rows|
    && forall i, k :: 0 <= i < |f.aircraft| && 0 <= k < MESSAGE_KINDS ==>
         f.rows[i][k] == FirstDue(f.config, f.aircraft, f.started, i, k)
  }

  /** Ticks at nondecreasing times, none before the apply. */
  predicate Timely(f: Fleet, ticks: seq<Tick>) {
    && (ticks != [] ==> f.started <= ticks[0].now)
    && forall i :: 0 < i < |ticks| ==> ticks[i - 1].now <= ticks[i].now
  }

  ghost function RowsAt(f: Fleet, ticks: seq<Tick>): (rows: seq<Row>)
    requires ValidFleet(f.config, f.aircraft) && |f.aircraft| <= |f.rows|
    ensures |rows| == |f.rows|
    decreases |ticks|
  {
    if ticks == [] then f.rows
    else RowsAfter(RowsAt(f, ticks[..|ticks| - 1]), f.config, f.aircraft, |f.aircraft|, ticks[|ticks| - 1].now)
  }

  /** Everything the ticks accumulate; the error is that of the last tick. */
  ghost function FlowAt(f: Fleet, ticks: seq<Tick>): Flow
    requires ValidFleet(f.config, f.aircraft) && |f.aircraft| <= |f.rows|
    decreases |ticks|
  {
    if ticks == [] then Flow(0, NO_STATS, RuntimeOk, [])
    else
      var front, t := ticks[..|ticks| - 1], ticks[|ticks| - 1];
      FleetTried(FlowAt(f, front).(error := RuntimeOk), RowsAt(f, front), f.config, f.aircraft, |f.aircraft|, t.now, t.outcome)
  }

  /** A flow with earlier attempts put in front. */
  function After(earlier: seq<Attempt>, f: Flow): Flow {
    f.(attempts := earlier + f.attempts)
  }

  lemma {:induction false} KindsAppend(earlier: seq<Attempt>, f: Flow, row: Row, c: SystemConfig,
      aircraft: seq<Aircraft>, n: nat, k: nat, now: Clock, outcome: Outcomes)
    requires ValidFleet(c, aircraft) && n < |aircraft| && k <= MESSAGE_KINDS
    ensures KindsTried(After(earlier, f), row, c, aircraft, n, k, now, outcome)
         == After(earlier, KindsTried(f, row, c, aircraft, n, k, now, outcome))
    decreases k
  {
    hide Acceptable, EffectivePeriod;
    if k == 0 {
    } else {
      KindsAppend(earlier, f, row, c, aircraft, n, k - 1, now, outcome);
      PeriodIsValid(c, aircraft, n, k - 1);
      var before := KindsTried(f, row, c, aircraft, n, k - 1, now, outcome);
      TriedAppends(earlier, before, n, k - 1, now, now + Period(c, aircraft[n], k - 1), outcome(n, k - 1));
    }
  }

  lemma TriedAppends(earlier: seq<Attempt>, f: Flow, i: nat, kind: nat, now: Clock, expires: Word64, outcome: Outcome)
    ensures Tried(After(earlier, f), i, kind, now, expires, outcome) ==
        After(earlier, Tried(f, i, kind, now, expires, outcome))
  {
    var a := [Attempt(i, kind, f.sequence, now, expires, outcome)];
    assert (earlier + f.attempts) + a == earlier + (f.attempts + a);
  }

  /** What a tick adds does not depend on the attempts made before it: the class returns exactly the new ones. */
  lemma {:induction false} FleetAppends(earlier: seq<Attempt>, f: Flow, rows: seq<Row>, c: SystemConfig,
      aircraft: seq<Aircraft>, n: nat, now: Clock, outcome: Outcomes)
    requires ValidFleet(c, aircraft) && n <= |aircraft| <= |rows|
    ensures FleetTried(After(earlier, f), rows, c, aircraft, n, now, outcome)
         == After(earlier, FleetTried(f, rows, c, aircraft, n, now, outcome))
    decreases n
  {
    hide Acceptable, KindsTried, Tried, AnyDue, After;
    if n == 0 {
    } else {
      FleetAppends(earlier, f, rows, c, aircraft, n - 1, now, outcome);
      var before := FleetTried(f, rows, c, aircraft, n - 1, now, outcome);
      KindsAppend(earlier, before, rows[n - 1], c, aircraft, n - 1, MESSAGE_KINDS, now, outcome);
      DefaultExpires(c, aircraft);
      TriedAppends(earlier, before, n - 1, LOCATION, now, now + c.defaultPeriod, outcome(n - 1, LOCATION));
    }
  }

  // ----- No drift

  /** The least point of the stream's grid beyond the last tick. */
  ghost predicate OnGrid(f: Fleet, ticks: seq<Tick>, i: nat, k: nat)
    requires ValidFleet(f.config, f.aircraft) && |f.aircraft| <= |f.rows| && i < |f.aircraft| && k < MESSAGE_KINDS
  {
    var p, offset := Period(f.config, f.aircraft[i], k), FirstDue(f.config, f.aircraft, f.started, i, k);
    && p > 0
    && RowsAt(f, ticks)[i][k] == if ticks == [] then offset else NextDue(offset, p, ticks[|ticks| - 1].now)
  }

  lemma FromTheStart(offset: nat, period: nat, now: nat)
    requires period > 0
    ensures AfterTick(offset, period, now) == NextDue(offset, period, now)
  {
  }

  /** After any nondecreasing ticks, however late, each stream is due at the least point of its own grid beyond
      the last tick: its first due time plus a whole number of its periods. */
  lemma {:induction false} NoDrift(f: Fleet, ticks: seq<Tick>, i: nat, k: nat)
    requires Applied(f) && Timely(f, ticks) && i < |f.aircraft| && k < MESSAGE_KINDS
    ensures OnGrid(f, ticks, i, k)
    decreases |ticks|
  {
    hide Period, FirstDue, NextDue, AfterTick, RowAfter;
    PeriodIsValid(f.config, f.aircraft, i, k);
    if ticks != [] {
      var front, now := ticks[..|ticks| - 1], ticks[|ticks| - 1].now;
      var p, offset := Period(f.config, f.aircraft[i], k), FirstDue(f.config, f.aircraft, f.started, i, k);
      NoDrift(f, front, i, k);
      RowAfterAt(RowsAt(f, front)[i], f.config, f.aircraft, i, MESSAGE_KINDS, now, k);
      if front == [] {
        FromTheStart(offset, p, now);
      } else {
        assert front[|front| - 1] == ticks[|ticks| - 2];
        CatchUpKeepsGrid(offset, p, front[|front| - 1].now, now);
      }
    }
  }

  // ----- Attempts

  function Count(attempts: seq<Attempt>, i: nat, kind: nat): nat {
    if attempts == [] then 0
    else
      var last := attempts[|attempts| - 1];
      Count(attempts[..|attempts| - 1], i, kind) + if last.aircraft == i && last.kind == kind then 1 else 0
  }

  lemma CountPush(attempts: seq<Attempt>, a: Attempt, i: nat, kind: nat)
    ensures Count(attempts + [a], i, kind) == Count(attempts, i, kind) + if a.aircraft == i && a.kind == kind then 1 else 0
  {
    assert (attempts + [a])[..|attempts|] == attempts;
  }

  lemma {:induction false} KindsCount(f: Flow, row: Row, c: SystemConfig, aircraft: seq<Aircraft>, n: nat, k: nat,
      now: Clock, outcome: Outcomes, i: nat, kind: nat)
    requires ValidFleet(c, aircraft) && n < |aircraft| && k <= MESSAGE_KINDS
    ensures Count(KindsTried(f, row, c, aircraft, n, k, now, outcome).attempts, i, kind) ==
      Count(f.attempts, i, kind) + if n == i && kind < k && now >= row[kind] then 1 else 0
    decreases k
  {
    hide Count, EffectivePeriod, Acceptable;
    if k == 0 {
    } else {
      KindsCount(f, row, c, aircraft, n, k - 1, now, outcome, i, kind);
      var before := KindsTried(f, row, c, aircraft, n, k - 1, now, outcome);
      PeriodIsValid(c, aircraft, n, k - 1);
      CountPush(before.attempts, Attempt(n, k - 1, before.sequence, now, now + Period(c, aircraft[n], k - 1),
          outcome(n, k - 1)), i, kind);
    }
  }

  /** Does a tick attempt message `kind` of aircraft `i`, given the aircraft's due times? */
  predicate AttemptedIn(a: Aircraft, row: Row, kind: nat, now: Clock) {
    if Packed(a) then kind == LOCATION && AnyDue(row, MESSAGE_KINDS, now)
    else kind < MESSAGE_KINDS && now >= row[kind]
  }

  lemma {:induction false} FleetCount(f: Flow, rows: seq<Row>, c: SystemConfig, aircraft: seq<Aircraft>, n: nat,
      now: Clock, outcome: Outcomes, i: nat, kind: nat)
    requires ValidFleet(c, aircraft) && n <= |aircraft| <= |rows|
    ensures Count(FleetTried(f, rows, c, aircraft, n, now, outcome).attempts, i, kind) ==
      Count(f.attempts, i, kind) + if i < n && AttemptedIn(aircraft[i], rows[i], kind, now) then 1 else 0
    decreases n
  {
    hide Count, ValidFleet, KindsTried, AnyDue, Packed;
    if n == 0 {
    } else {
      FleetCount(f, rows, c, aircraft, n - 1, now, outcome, i, kind);
      var before := FleetTried(f, rows, c, aircraft, n - 1, now, outcome);
      KindsCount(before, rows[n - 1], c, aircraft, n - 1, MESSAGE_KINDS, now, outcome, i, kind);
      DefaultExpires(c, aircraft);
      CountPush(before.attempts, Attempt(n - 1, LOCATION, before.sequence, now, now + c.defaultPeriod,
          outcome(n - 1, LOCATION)), i, kind);
    }
  }

  lemma DefaultExpires(c: SystemConfig, aircraft: seq<Aircraft>)
    requires ValidFleet(c, aircraft)
    ensures ValidPeriod(c.defaultPeriod)
  {
  }

  /** Grid points of a stream that the ticks so far have reached. */
  ghost function PointsReached(f: Fleet, ticks: seq<Tick>, i: nat, k: nat): nat
    requires ValidFleet(f.config, f.aircraft) && i < |f.aircraft| && k < MESSAGE_KINDS
  {
    PeriodIsValid(f.config, f.aircraft, i, k);
    if ticks == [] then 0
    else Reached(FirstDue(f.config, f.aircraft, f.started, i, k), Period(f.config, f.aircraft[i], k), ticks[|ticks| - 1].now)
  }

  /** The tick comes less than a period after the apply, or at most a period after the tick before. */
  predicate Prompt(f: Fleet, front: seq<Tick>, t: Tick, period: int) {
    if front == [] then t.now < f.started + period else t.now <= front[|front| - 1].now + period
  }

  /** A stream is due at a tick exactly if one of its grid points was reached since the tick before; and no
      more than one was if the tick is prompt. */
  lemma DueIffReached(f: Fleet, front: seq<Tick>, t: Tick, i: nat, k: nat)
    requires Applied(f) && Timely(f, front + [t]) && i < |f.aircraft| && k < MESSAGE_KINDS
    ensures t.now >= RowsAt(f, front)[i][k] <==> PointsReached(f, front + [t], i, k) > PointsReached(f, front, i, k)
    ensures PointsReached(f, front, i, k) <= PointsReached(f, front + [t], i, k)
    ensures Prompt(f, front, t, Period(f.config, f.aircraft[i], k)) ==>
      PointsReached(f, front + [t], i, k) <= PointsReached(f, front, i, k) + 1
  {
    hide NextDue, Reached, RowsAt, FirstDue, EffectivePeriod;
    var ticks := front + [t];
    assert Timely(f, front) by {
      assert forall j :: 0 <= j < |front| ==> front[j] == ticks[j];
    }
    NoDrift(f, front, i, k);
    PeriodIsValid(f.config, f.aircraft, i, k);
    var p, offset := Period(f.config, f.aircraft[i], k), FirstDue(f.config, f.aircraft, f.started, i, k);
    if front == [] {
      ReachedCounts(offset, p, t.now, 0);
      ReachedCounts(offset, p, t.now, 1);
      FirstDueBounds(f.config, f.aircraft, f.started, i, k);
    } else {
      assert ticks[|front| - 1] == front[|front| - 1] && ticks[|front|] == t;
      DueWhenReached(offset, p, front[|front| - 1].now, t.now);
    }
  }

  ghost predicate AllPrompt(f: Fleet, ticks: seq<Tick>, period: int) {
    forall n :: 0 <= n < |ticks| ==> Prompt(f, ticks[..n], ticks[n], period)
  }

  /** A message sent on its own is attempted at most once for each grid point reached; with prompt ticks,
      exactly once. */
  lemma {:induction false} EachPointOnce(f: Fleet, ticks: seq<Tick>, i: nat, k: nat)
    requires Applied(f) && Timely(f, ticks) && i < |f.aircraft| && k < MESSAGE_KINDS && !Packed(f.aircraft[i])
    ensures Count(FlowAt(f, ticks).attempts, i, k) <= PointsReached(f, ticks, i, k)
    ensures AllPrompt(f, ticks, Period(f.config, f.aircraft[i], k)) ==>
      Count(FlowAt(f, ticks).attempts, i, k) == PointsReached(f, ticks, i, k)
    decreases |ticks|
  {
    hide Acceptable, FirstDue, PointsReached, FleetTried, RowsAt, Packed, Period, AttemptedIn, AllPrompt, Prompt,
        Timely;
    AttemptedAlone(f, i, k);
    if ticks == [] {
      assert Count([], i, k) == 0 && PointsReached(f, [], i, k) == 0 by { NothingReached(f, i, k); }
    } else {
      var front, t := ticks[..|ticks| - 1], ticks[|ticks| - 1];
      assert ticks == front + [t];
      FrontIsPrompt(f, front, t, Period(f.config, f.aircraft[i], k));
      EachPointOnce(f, front, i, k);
      FleetCount(FlowAt(f, front).(error := RuntimeOk), RowsAt(f, front), f.config, f.aircraft, |f.aircraft|, t.now,
          t.outcome, i, k);
      DueIffReached(f, front, t, i, k);
    }
  }

  lemma FrontIsPrompt(f: Fleet, front: seq<Tick>, t: Tick, period: int)
    ensures AllPrompt(f, front + [t], period) ==> AllPrompt(f, front, period) && Prompt(f, front, t, period)
    ensures Timely(f, front + [t]) ==> Timely(f, front)
  {
    var ticks := front + [t];
    assert ticks[..|front|] == front && ticks[|front|] == t;
    assert forall n :: 0 <= n < |front| ==> front[n] == ticks[n];
    if AllPrompt(f, ticks, period) {
      forall n | 0 <= n < |front| ensures Prompt(f, front[..n], front[n], period) {
        assert front[..n] == ticks[..n];
      }
    }
  }

  lemma AttemptedAlone(f: Fleet, i: nat, k: nat)
    requires i < |f.aircraft| && k < MESSAGE_KINDS && !Packed(f.aircraft[i])
    ensures forall row: Row, now: Clock :: AttemptedIn(f.aircraft[i], row, k, now) <==> now >= row[k]
  {
  }

  lemma NothingReached(f: Fleet, i: nat, k: nat)
    requires ValidFleet(f.config, f.aircraft) && i < |f.aircraft| && k < MESSAGE_KINDS
    ensures PointsReached(f, [], i, k) == 0 && Count([], i, k) == 0
  {
  }

  /** A packed aircraft attempts one payload at a tick exactly if a point of at least one of its six grids was
      reached since the tick before, and none otherwise. */
  lemma PackPerTick(f: Fleet, front: seq<Tick>, t: Tick, i: nat)
    requires Applied(f) && Timely(f, front + [t]) && i < |f.aircraft| && Packed(f.aircraft[i])
    ensures var reached := exists k ::
        0 <= k < MESSAGE_KINDS && PointsReached(f, front + [t], i, k) > PointsReached(f, front, i, k);
      Count(FlowAt(f, front + [t]).attempts, i, LOCATION) ==
          Count(FlowAt(f, front).attempts, i, LOCATION) + if reached then 1 else 0
  {
    hide PointsReached, FleetTried, Period, FirstDue, RowsAt, Count;
    var ticks := front + [t];
    assert ticks[..|ticks| - 1] == front;
    FleetCount(FlowAt(f, front).(error := RuntimeOk), RowsAt(f, front), f.config, f.aircraft, |f.aircraft|, t.now,
        t.outcome, i, LOCATION);
    forall k | 0 <= k < MESSAGE_KINDS
      ensures t.now >= RowsAt(f, front)[i][k] <==> PointsReached(f, ticks, i, k) > PointsReached(f, front, i, k)
    {
      DueIffReached(f, front, t, i, k);
    }
  }

  // ----- Accounting

  /** How many of the attempts ended like this. */
  function Ended(attempts: seq<Attempt>, outcome: Outcome): nat {
    if attempts == [] then 0
    else
      Ended(attempts[..|attempts| - 1], outcome) + if attempts[|attempts| - 1].outcome == outcome then 1 else 0
  }

  /** What the counters must say after these attempts; each stops at the greatest 64-bit word. */
  function StatsOf(attempts: seq<Attempt>): RuntimeStats {
    var taken, refused, unencodable := Ended(attempts, Taken), Ended(attempts, Refused), Ended(attempts, Unencodable);
    RuntimeStats(Payloads.Counted(0, taken + refused), Payloads.Counted(0, taken), Payloads.Counted(0, unencodable),
                 Payloads.Counted(0, refused))
  }

  lemma StatsPush(attempts: seq<Attempt>, a: Attempt)
    ensures forall outcome ::
      Ended(attempts + [a], outcome) == Ended(attempts, outcome) + if a.outcome == outcome then 1 else 0
  {
    assert (attempts + [a])[..|attempts|] == attempts;
  }

  /** Attempts are numbered in order, and each is counted as unencodable, refused or submitted. */
  ghost predicate Accounted(f: Flow) {
    && f.stats == StatsOf(f.attempts)
    && f.sequence == Unsigned32(|f.attempts|)
    && (forall n :: 0 <= n < |f.attempts| ==> f.attempts[n].sequence == Unsigned32(n))
    && (f.stats.expected < MAX64 ==> f.stats.expected == f.stats.submitted + f.stats.submitErrors)
    && (f.stats.expected < MAX64 && f.stats.encodeErrors < MAX64 ==> |f.attempts| == f.stats.expected + f.stats.encodeErrors)
  }

  lemma TriedAccounts(f: Flow, i: nat, kind: nat, now: Clock, expires: Word64, outcome: Outcome)
    requires Accounted(f)
    ensures Accounted(Tried(f, i, kind, now, expires, outcome))
  {
    hide Unsigned32, Ended;
    NextNumber(|f.attempts|);
    StatsPush(f.attempts, Attempt(i, kind, f.sequence, now, expires, outcome));
  }

  lemma NextNumber(n: nat)
    ensures Unsigned32(Unsigned32(n) + 1) == Unsigned32(n + 1)
  {
  }

  lemma {:induction false} KindsAccount(f: Flow, row: Row, c: SystemConfig, aircraft: seq<Aircraft>, n: nat, k: nat,
      now: Clock, outcome: Outcomes)
    requires ValidFleet(c, aircraft) && n < |aircraft| && k <= MESSAGE_KINDS && Accounted(f)
    ensures Accounted(KindsTried(f, row, c, aircraft, n, k, now, outcome))
    decreases k
  {
    hide Accounted, Tried, Acceptable, EffectivePeriod;
    if k == 0 {
    } else {
      KindsAccount(f, row, c, aircraft, n, k - 1, now, outcome);
      PeriodIsValid(c, aircraft, n, k - 1);
      TriedAccounts(KindsTried(f, row, c, aircraft, n, k - 1, now, outcome), n, k - 1, now,
                    now + Period(c, aircraft[n], k - 1), outcome(n, k - 1));
    }
  }

  lemma {:induction false} FleetAccounts(f: Flow, rows: seq<Row>, c: SystemConfig, aircraft: seq<Aircraft>, n: nat,
      now: Clock, outcome: Outcomes)
    requires ValidFleet(c, aircraft) && n <= |aircraft| <= |rows| && Accounted(f)
    ensures Accounted(FleetTried(f, rows, c, aircraft, n, now, outcome))
    decreases n
  {
    hide Accounted, Tried, Acceptable, KindsTried, AnyDue;
    if n == 0 {
    } else {
      FleetAccounts(f, rows, c, aircraft, n - 1, now, outcome);
      var before := FleetTried(f, rows, c, aircraft, n - 1, now, outcome);
      KindsAccount(before, rows[n - 1], c, aircraft, n - 1, MESSAGE_KINDS, now, outcome);
      DefaultExpires(c, aircraft);
      TriedAccounts(before, n - 1, LOCATION, now, now + c.defaultPeriod, outcome(n - 1, LOCATION));
    }
  }

  /** Over every run after an apply: payload numbers count the attempts from zero, and while the counters are not
      saturated, attempts = submitted + refused + unencodable. */
  lemma {:induction false} NothingIsLost(f: Fleet, ticks: seq<Tick>)
    requires ValidFleet(f.config, f.aircraft) && |f.aircraft| <= |f.rows|
    ensures Accounted(FlowAt(f, ticks))
    decreases |ticks|
  {
    hide ValidFleet, FleetTried;
    if ticks == [] {
    } else {
      var front, t := ticks[..|ticks| - 1], ticks[|ticks| - 1];
      NothingIsLost(f, front);
      FleetAccounts(FlowAt(f, front).(error := RuntimeOk), RowsAt(f, front), f.config, f.aircraft, |f.aircraft|, t.now,
          t.outcome);
    }
  }

  // ----- The stagger of a uniform fleet

  /** All streams have the same period, and all aircraft send the same way. */
  ghost predicate Uniform(f: Fleet, period: nat, packed: bool) {
    && ValidFleet(f.config, f.aircraft)
    && forall i, k :: 0 <= i < |f.aircraft| && 0 <= k < MESSAGE_KINDS ==>
         Period(f.config, f.aircraft[i], k) == period && Packed(f.aircraft[i]) == packed
  }

  /** In a uniform fleet of S slots, point j of the stream in slot s is due time number j * S + s of the sequence
      start + floor(period * m / S), for the whole run. */
  lemma FleetIsOneSequence(f: Fleet, period: nat, packed: bool, i: nat, k: nat, j: nat)
    requires Uniform(f, period, packed) && i < |f.aircraft| && k < MESSAGE_KINDS
    ensures var slots, slot := Slots(|f.aircraft|, packed), Slot(i, k, packed);
      && slot < slots
      && Point(FirstDue(f.config, f.aircraft, f.started, i, k), period, j) ==
          Staggered(f.started, period, slots, Number(j, slots, slot))
  {
    hide Staggered, Point, EffectivePeriod;
    SlotInRange(|f.aircraft|, i, k, packed);
    SlotsInterleave(f.started, period, Slots(|f.aircraft|, packed), Slot(i, k, packed), j);
  }

  /** The streams of an aircraft that can be told apart: the six grids of a packed aircraft coincide. */
  function Kinds(packed: bool): nat {
    if packed then 1 else MESSAGE_KINDS
  }

  lemma PackedGridsCoincide(f: Fleet, period: nat, i: nat, k: nat)
    requires Uniform(f, period, true) && i < |f.aircraft| && k < MESSAGE_KINDS
    ensures FirstDue(f.config, f.aircraft, f.started, i, k) == FirstDue(f.config, f.aircraft, f.started, i, 0)
  {
    hide Staggered, EffectivePeriod, Acceptable;
  }

  /** Point `j` of stream `k` of aircraft `i` is due at `time`. */
  ghost predicate DueAt(f: Fleet, period: nat, packed: bool, i: nat, k: nat, j: nat, time: nat)
    requires Uniform(f, period, packed)
  {
    i < |f.aircraft| && k < Kinds(packed) && Point(FirstDue(f.config, f.aircraft, f.started, i, k), period, j) == time
  }

  /** Each number belongs to one point of one stream only. */
  lemma NumbersAreDistinct(fleet: nat, packed: bool, i: nat, k: nat, j: nat, i': nat, k': nat, j': nat)
    requires i < fleet && i' < fleet && k < Kinds(packed) && k' < Kinds(packed)
    requires Number(j, Slots(fleet, packed), Slot(i, k, packed)) == Number(j', Slots(fleet, packed), Slot(i', k', packed))
    ensures i == i' && k == k' && j == j'
  {
    hide Number;
    var slots, s, s' := Slots(fleet, packed), Slot(i, k, packed), Slot(i', k', packed);
    SlotInRange(fleet, i, k, packed);
    SlotInRange(fleet, i', k', packed);
    UniqueNumber(j, slots, s);
    UniqueNumber(j', slots, s');
  }

  /** Each number is one of a point of a stream. */
  lemma NumberHasStream(fleet: nat, packed: bool, m: nat) returns (i: nat, k: nat, j: nat)
    requires fleet > 0
    ensures i < fleet && k < Kinds(packed) && m == Number(j, Slots(fleet, packed), Slot(i, k, packed))
  {
    hide Number;
    SplitNumber(m, Slots(fleet, packed));
    var slot := m % Slots(fleet, packed);
    j := m / Slots(fleet, packed);
    if packed {
      i, k := slot, 0;
    } else {
      i, k := slot / MESSAGE_KINDS, slot % MESSAGE_KINDS;
    }
  }

  /** The due times of a uniform fleet in the whole run are exactly start + floor(period * m / S) for m = 0, 1, 2, ... */
  lemma FleetIsExactly(f: Fleet, period: nat, packed: bool, time: nat)
    requires Uniform(f, period, packed) && f.aircraft != []
    ensures (exists i: nat, k: nat, j: nat :: DueAt(f, period, packed, i, k, j, time)) <==>
            (exists m: nat :: Staggered(f.started, period, Slots(|f.aircraft|, packed), m) == time)
  {
    hide FirstDue, Point, Staggered, EffectivePeriod, Slot, Number;
    var slots := Slots(|f.aircraft|, packed);
    if i: nat, k: nat, j: nat :| DueAt(f, period, packed, i, k, j, time) {
      FleetIsOneSequence(f, period, packed, i, k, j);
      assert Staggered(f.started, period, slots, Number(j, slots, Slot(i, k, packed))) == time;
    }
    if m: nat :| Staggered(f.started, period, slots, m) == time {
      var i, k, j := NumberHasStream(|f.aircraft|, packed, m);
      FleetIsOneSequence(f, period, packed, i, k, j);
      assert DueAt(f, period, packed, i, k, j, time);
    }
  }

  /** The points of the fleet's streams that are due in a window. */
  ghost function DueIn(f: Fleet, period: nat, packed: bool, from: nat, window: nat): set<(nat, nat, nat)>
    requires Uniform(f, period, packed)
  {
    set i: nat, k: nat, j: nat |
      i < |f.aircraft| && k < Kinds(packed) && j < from + window && IsDueIn(f, period, packed, i, k, j, from, window) ::
      (i, k, j)
  }

  ghost predicate IsDueIn(f: Fleet, period: nat, packed: bool, i: nat, k: nat, j: nat, from: nat, window: nat)
    requires Uniform(f, period, packed) && i < |f.aircraft| && k < Kinds(packed)
  {
    from <= Point(FirstDue(f.config, f.aircraft, f.started, i, k), period, j) < from + window
  }

  lemma PointIsLate(offset: nat, period: nat, j: nat)
    requires period > 0
    ensures Point(offset, period, j) >= j
  {
    MulMonotone(1, period, j);
    assert period * j == j * period;
  }

  lemma DueIsEarly(f: Fleet, period: nat, packed: bool, from: nat, window: nat, i: nat, k: nat, j: nat)
    requires Uniform(f, period, packed) && i < |f.aircraft| && k < Kinds(packed)
    requires IsDueIn(f, period, packed, i, k, j, from, window)
    ensures j < from + window
  {
    hide FirstDue, Point, EffectivePeriod;
    UniformPeriod(f, period, packed);
    PointIsLate(FirstDue(f.config, f.aircraft, f.started, i, k), period, j);
  }

  lemma UniformPeriod(f: Fleet, period: nat, packed: bool)
    requires Uniform(f, period, packed) && f.aircraft != []
    ensures ValidPeriod(period)
  {
    PeriodIsValid(f.config, f.aircraft, 0, 0);
    assert Period(f.config, f.aircraft[0], 0) == period;
  }

  lemma {:induction false} InjectionBound<T(!new)>(a: set<T>, b: set<nat>, g: T -> nat)
    requires forall x :: x in a ==> g(x) in b
    requires forall x, y :: x in a && y in a && g(x) == g(y) ==> x == y
    ensures |a| <= |b|
    decreases |a|
  {
    if a == {} {
    } else {
      var x :| x in a;
      InjectionBound(a - {x}, b - {g(x)}, g);
    }
  }

  /** A point due in the window has a number among those of the window. */
  lemma DueHasNumber(f: Fleet, period: nat, packed: bool, from: nat, window: nat, i: nat, k: nat, j: nat)
    requires Uniform(f, period, packed) && i < |f.aircraft| && k < Kinds(packed) && j < from + window
    requires IsDueIn(f, period, packed, i, k, j, from, window)
    ensures var slots := Slots(|f.aircraft|, packed);
      var m := Number(j, slots, Slot(i, k, packed));
      m < (from + window) * slots && slots > 0 && from <= Staggered(f.started, period, slots, m) < from + window
  {
    hide FirstDue, Point, Staggered, EffectivePeriod, Slot;
    var slots := Slots(|f.aircraft|, packed);
    FleetIsOneSequence(f, period, packed, i, k, j);
    MulMonotone(j + 1, from + window, slots);
    assert (j + 1) * slots == j * slots + slots;
  }

  /** No point that is due in the window is left out. */
  lemma DueInIsComplete(f: Fleet, period: nat, packed: bool, from: nat, window: nat, i: nat, k: nat, j: nat)
    requires Uniform(f, period, packed) && i < |f.aircraft| && k < Kinds(packed)
    ensures (i, k, j) in DueIn(f, period, packed, from, window) <==> IsDueIn(f, period, packed, i, k, j, from, window)
  {
    hide IsDueIn, Uniform;
    if IsDueIn(f, period, packed, i, k, j, from, window) {
      DueIsEarly(f, period, packed, from, window, i, k, j);
    }
  }

  ghost function NumbersIn(start: nat, period: nat, slots: nat, from: nat, window: nat): set<nat>
    requires slots > 0
  {
    set m | 0 <= m < (from + window) * slots && from <= Staggered(start, period, slots, m) < from + window
  }

  lemma DueAreFew(f: Fleet, period: nat, packed: bool, from: nat, window: nat)
    requires Uniform(f, period, packed) && f.aircraft != []
    ensures |DueIn(f, period, packed, from, window)| <=
        |NumbersIn(f.started, period, Slots(|f.aircraft|, packed), from, window)|
  {
    hide FirstDue, Staggered, Number, Slot, Uniform, IsDueIn, Kinds;
    var slots := Slots(|f.aircraft|, packed);
    var numbers := NumbersIn(f.started, period, slots, from, window);
    var due := DueIn(f, period, packed, from, window);
    var number := (t: (nat, nat, nat)) => Number(t.2, slots, Slot(t.0, t.1, packed));
    forall t | t in due ensures number(t) in numbers {
      DueHasNumber(f, period, packed, from, window, t.0, t.1, t.2);
    }
    forall t, u | t in due && u in due && number(t) == number(u) ensures t == u {
      NumbersAreDistinct(|f.aircraft|, packed, t.0, t.1, t.2, u.0, u.1, u.2);
    }
    InjectionBound(due, numbers, number);
  }

  /** The load of a uniform fleet is bounded: any window of the whole run holds at most Ceiling(window * S / period)
      points of all its streams together, counting points due at the same time one by one. */
  lemma FleetLoadIsBounded(f: Fleet, period: nat, packed: bool, from: nat, window: nat)
    requires Uniform(f, period, packed) && f.aircraft != []
    ensures period > 0 && |DueIn(f, period, packed, from, window)| <= Ceiling(window * Slots(|f.aircraft|, packed), period)
    ensures forall i: nat, k: nat, j: nat | i < |f.aircraft| && k < Kinds(packed) ::
      (i, k, j) in DueIn(f, period, packed, from, window) <==> IsDueIn(f, period, packed, i, k, j, from, window)
  {
    hide Staggered, Uniform, Ceiling, Slots, IsDueIn, DueIn, Kinds;
    UniformPeriod(f, period, packed);
    assert Slots(|f.aircraft|, packed) > 0 by { SomeSlots(|f.aircraft|, packed); }
    DueAreFew(f, period, packed, from, window);
    WindowBound(f.started, period, Slots(|f.aircraft|, packed), from, window,
        (from + window) * Slots(|f.aircraft|, packed));
    forall i: nat, k: nat, j: nat | i < |f.aircraft| && k < Kinds(packed)
      ensures (i, k, j) in DueIn(f, period, packed, from, window) <==> IsDueIn(f, period, packed, i, k, j, from, window)
    {
      DueInIsComplete(f, period, packed, from, window, i, k, j);
    }
  }

  lemma SomeSlots(fleet: nat, packed: bool)
    requires fleet > 0
    ensures Slots(fleet, packed) > 0
  {
  }

  /** In a uniform packed fleet no two aircraft are ever due at the same millisecond. */
  lemma PackedAircraftNeverCollide(f: Fleet, period: nat, i: nat, k: nat, j: nat, i': nat, k': nat, j': nat)
    requires Uniform(f, period, true) && i < i' < |f.aircraft| && k < MESSAGE_KINDS && k' < MESSAGE_KINDS
    ensures Point(FirstDue(f.config, f.aircraft, f.started, i, k), period, j)
         != Point(FirstDue(f.config, f.aircraft, f.started, i', k'), period, j')
  {
    hide FirstDue, Point, Staggered, EffectivePeriod;
    PeriodIsValid(f.config, f.aircraft, 0, 0);
    assert Period(f.config, f.aircraft[0], 0) == period;
    FleetIsOneSequence(f, period, true, i, k, j);
    FleetIsOneSequence(f, period, true, i', k', j');
    var slots := |f.aircraft|;
    var m, m' := Number(j, slots, i), Number(j', slots, i');
    assert m != m' by { UniqueSlot(slots, j, i, j', i'); }
    if m < m' {
      DistinctDueTimes(f.started, period, slots, m, m');
    } else {
      DistinctDueTimes(f.started, period, slots, m', m);
    }
  }

  lemma UniqueSlot(slots: nat, j: nat, i: nat, j': nat, i': nat)
    requires i < slots && i' < slots && i != i'
    ensures j * slots + i != j' * slots + i'
  {
    UniqueQuotient(j * slots + i, slots, j, i);
    UniqueQuotient(j' * slots + i', slots, j', i');
  }
}
