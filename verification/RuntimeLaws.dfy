/** What a tick of the message clock does, told from outside: what each attempt carries, in which order attempts are made,
    what is counted and what is reported. */
module RuntimeLaws {
  import opened Wrappers
  import opened Words
  import opened Config
  import opened Grid
  import opened Runtime
  import opened RuntimeSafety

  // ----- The stagger, in numbers

  /** OpenDroneID (protocol 1) over anything but Bluetooth 4 (transport 0) is packed. */
  lemma PackedIs(a: Aircraft)
    ensures Packed(a) <==> a.protocol == 1 && a.transport != 0
  {
  }

  /** Aircraft `i` of `n` starts its message `k` of period p at floor(p * i / n) after the apply if it sends packs, and at
      floor(p * (6 * i + k) / (6 * n)) if it sends its messages one by one. */
  lemma FirstDueIs(c: SystemConfig, aircraft: seq<Aircraft>, now: Clock, i: nat, k: nat)
    requires ValidFleet(c, aircraft) && i < |aircraft| && k < 6
    ensures var n, p := |aircraft|, EffectivePeriod(c, c.groups[aircraft[i].groupIndex], k);
      p >= 0 && FirstDue(c, aircraft, now, i, k) ==
        now + if aircraft[i].protocol == 1 && aircraft[i].transport != 0 then p * i / n else p * (i * 6 + k) / (n * 6)
  {
    hide EffectivePeriod, Acceptable;
    PeriodIsValid(c, aircraft, i, k);
  }

  /** An override of v milliseconds for a message puts the points of its grid v milliseconds apart. */
  lemma OverrideSpacesPoints(f: Fleet, i: nat, k: nat, v: int, j: nat)
    requires ValidFleet(f.config, f.aircraft) && i < |f.aircraft| && k < 6
    requires f.config.groups[f.aircraft[i].groupIndex].overrides[k] == Some(v)
    ensures v > 0 && Period(f.config, f.aircraft[i], k) == v
    ensures var first := FirstDue(f.config, f.aircraft, f.started, i, k);
      Point(first, v, j + 1) == Point(first, v, j) + v
  {
    hide Acceptable, FirstDue;
    PeriodIsValid(f.config, f.aircraft, i, k);
    assert (j + 1) * v == j * v + v;
  }

  // ----- Attempts

  /** What an attempt carries: it is made now and expires a period later, the period of its message, or the system's
      default for a pack, which stands for a location message (1); and its outcome is what became of it. */
  predicate Carries(a: Attempt, c: SystemConfig, aircraft: seq<Aircraft>, now: Clock, outcome: Outcomes)
    requires forall i :: 0 <= i < |aircraft| ==> aircraft[i].groupIndex < |c.groups|
  {
    && a.aircraft < |aircraft| && a.kind < 6 && a.deadline == now && a.outcome == outcome(a.aircraft, a.kind)
    && if aircraft[a.aircraft].protocol == 1 && aircraft[a.aircraft].transport != 0 then
         a.kind == 1 && a.expires == now + c.defaultPeriod
       else a.expires == now + EffectivePeriod(c, c.groups[aircraft[a.aircraft].groupIndex], a.kind)
  }

  function Key(a: Attempt): nat {
    a.aircraft * 6 + a.kind
  }

  /** The error reported after some attempts: that of the last one that failed. */
  function ErrorAfter(error: RuntimeError, attempts: seq<Attempt>): RuntimeError {
    if attempts == [] then error
    else
      match attempts[|attempts| - 1].outcome
      case Unencodable => EncodeFailed
      case Refused => SubmitFailed
      case Taken => ErrorAfter(error, attempts[..|attempts| - 1])
  }

  /** The attempts made since `f0`: each carries what it should, in the order of aircraft and messages, and the error tells
      how they ended. */
  ghost predicate Since(f0: Flow, f: Flow, c: SystemConfig, aircraft: seq<Aircraft>, now: Clock,
      outcome: Outcomes, bound: nat)
    requires forall i :: 0 <= i < |aircraft| ==> aircraft[i].groupIndex < |c.groups|
  {
    && f0.attempts <= f.attempts
    && InOrder(f.attempts[|f0.attempts|..], c, aircraft, now, outcome, bound)
    && f.error == ErrorAfter(f0.error, f.attempts[|f0.attempts|..])
  }

  ghost predicate InOrder(made: seq<Attempt>, c: SystemConfig, aircraft: seq<Aircraft>, now: Clock,
      outcome: Outcomes, bound: nat)
    requires forall i :: 0 <= i < |aircraft| ==> aircraft[i].groupIndex < |c.groups|
  {
    && (forall n :: 0 <= n < |made| ==> Carries(made[n], c, aircraft, now, outcome) && Key(made[n]) < bound)
    && (forall m, n :: 0 <= m < n < |made| ==> Key(made[m]) < Key(made[n]))
  }

  lemma OneMoreInOrder(made: seq<Attempt>, c: SystemConfig, aircraft: seq<Aircraft>, now: Clock,
      outcome: Outcomes, bound: nat,
                       a: Attempt)
    requires forall i :: 0 <= i < |aircraft| ==> aircraft[i].groupIndex < |c.groups|
    requires InOrder(made, c, aircraft, now, outcome, bound) && bound <= Key(a) && Carries(a, c, aircraft, now, outcome)
    ensures InOrder(made + [a], c, aircraft, now, outcome, Key(a) + 1)
  {
    hide Carries, Key;
  }

  lemma NothingSince(f: Flow, c: SystemConfig, aircraft: seq<Aircraft>, now: Clock, outcome: Outcomes)
    requires forall i :: 0 <= i < |aircraft| ==> aircraft[i].groupIndex < |c.groups|
    ensures Since(f, f, c, aircraft, now, outcome, 0)
  {
  }

  lemma OneMoreSince(f0: Flow, f: Flow, c: SystemConfig, aircraft: seq<Aircraft>, now: Clock, outcome: Outcomes, bound: nat,
                     i: nat, kind: nat, expires: Word64)
    requires forall j :: 0 <= j < |aircraft| ==> aircraft[j].groupIndex < |c.groups|
    requires Since(f0, f, c, aircraft, now, outcome, bound) && bound <= i * 6 + kind
    requires Carries(Attempt(i, kind, f.sequence, now, expires, outcome(i, kind)), c, aircraft, now, outcome)
    ensures Since(f0, Tried(f, i, kind, now, expires, outcome(i, kind)), c, aircraft, now, outcome, i * 6 + kind + 1)
  {
    hide Carries, InOrder, ErrorAfter;
    var a := Attempt(i, kind, f.sequence, now, expires, outcome(i, kind));
    var f' := Tried(f, i, kind, now, expires, outcome(i, kind));
    var made := f.attempts[|f0.attempts|..];
    assert f'.attempts == f.attempts + [a] && f'.attempts[|f0.attempts|..] == made + [a];
    OneMoreInOrder(made, c, aircraft, now, outcome, bound, a);
    ErrorPush(f0.error, made, a);
  }

  lemma ErrorPush(error: RuntimeError, made: seq<Attempt>, a: Attempt)
    ensures ErrorAfter(error, made + [a]) ==
      match a.outcome
      case Unencodable => EncodeFailed
      case Refused => SubmitFailed
      case Taken => ErrorAfter(error, made)
  {
    assert (made + [a])[..|made|] == made;
  }

  lemma WiderBound(f0: Flow, f: Flow, c: SystemConfig, aircraft: seq<Aircraft>, now: Clock, outcome: Outcomes,
      bound: nat, wider: nat)
    requires forall i :: 0 <= i < |aircraft| ==> aircraft[i].groupIndex < |c.groups|
    requires Since(f0, f, c, aircraft, now, outcome, bound) && bound <= wider
    ensures Since(f0, f, c, aircraft, now, outcome, wider)
  {
    hide Carries;
  }

  lemma {:induction false} KindsSince(f0: Flow, f: Flow, row: Row, c: SystemConfig, aircraft: seq<Aircraft>, i: nat, k: nat,
                                      now: Clock, outcome: Outcomes)
    requires ValidFleet(c, aircraft) && i < |aircraft| && k <= 6 && !Packed(aircraft[i])
    requires Since(f0, f, c, aircraft, now, outcome, i * 6)
    ensures Since(f0, KindsTried(f, row, c, aircraft, i, k, now, outcome), c, aircraft, now, outcome, i * 6 + k)
    decreases k
  {
    hide Acceptable, EffectivePeriod, Since, Tried;
    if k == 0 {
    } else {
      KindsSince(f0, f, row, c, aircraft, i, k - 1, now, outcome);
      PeriodIsValid(c, aircraft, i, k - 1);
      var before := KindsTried(f, row, c, aircraft, i, k - 1, now, outcome);
      if now < row[k - 1] {
        WiderBound(f0, before, c, aircraft, now, outcome, i * 6 + k - 1, i * 6 + k);
      } else {
        OneMoreSince(f0, before, c, aircraft, now, outcome, i * 6 + k - 1, i, k - 1, now + Period(c, aircraft[i], k - 1));
      }
    }
  }

  lemma {:induction false} FleetSince(f0: Flow, rows: seq<Row>, c: SystemConfig, aircraft: seq<Aircraft>, n: nat, now: Clock,
                                      outcome: Outcomes)
    requires ValidFleet(c, aircraft) && n <= |aircraft| <= |rows|
    ensures Since(f0, FleetTried(f0, rows, c, aircraft, n, now, outcome), c, aircraft, now, outcome, n * 6)
    decreases n
  {
    hide Acceptable, EffectivePeriod, Since, Tried, AnyDue, KindsTried;
    if n == 0 {
      NothingSince(f0, c, aircraft, now, outcome);
    } else {
      FleetSince(f0, rows, c, aircraft, n - 1, now, outcome);
      var before := FleetTried(f0, rows, c, aircraft, n - 1, now, outcome);
      if !Packed(aircraft[n - 1]) {
        KindsSince(f0, before, rows[n - 1], c, aircraft, n - 1, 6, now, outcome);
      } else {
        DefaultExpires(c, aircraft);
        WiderBound(f0, before, c, aircraft, now, outcome, (n - 1) * 6, n * 6);
        OneMoreSince(f0, before, c, aircraft, now, outcome, (n - 1) * 6, n - 1, 1, now + c.defaultPeriod);
        if AnyDue(rows[n - 1], 6, now) {
          WiderBound(f0, FleetTried(f0, rows, c, aircraft, n, now, outcome), c, aircraft, now, outcome,
              (n - 1) * 6 + 2, n * 6);
        }
      }
    }
  }

  /** A tick makes its attempts in the order of aircraft and messages, at most one for each; each is made at the time of the
      tick and expires a period of its message later; and the error of the tick is that of its last failed attempt. */
  lemma TickTells(f: Fleet, front: seq<Tick>, t: Tick)
    requires ValidFleet(f.config, f.aircraft) && |f.aircraft| <= |f.rows|
    ensures var before, after := FlowAt(f, front).(error := RuntimeOk), FlowAt(f, front + [t]);
      Since(before, after, f.config, f.aircraft, t.now, t.outcome, |f.aircraft| * 6)
  {
    hide FleetTried, Since, ValidFleet;
    assert (front + [t])[..|front|] == front;
    assert forall i :: 0 <= i < |f.aircraft| ==> f.aircraft[i].groupIndex < |f.config.groups| by { FleetIndices(f); }
    FleetSince(FlowAt(f, front).(error := RuntimeOk), RowsAt(f, front), f.config, f.aircraft, |f.aircraft|, t.now, t.outcome);
  }

  lemma FleetIndices(f: Fleet)
    requires ValidFleet(f.config, f.aircraft)
    ensures forall i :: 0 <= i < |f.aircraft| ==> f.aircraft[i].groupIndex < |f.config.groups|
  {
  }

  /** With an override of v, every attempt of a message sent on its own expires v milliseconds after it is made. */
  lemma OverrideSetsExpiry(a: Attempt, c: SystemConfig, aircraft: seq<Aircraft>, now: Clock, outcome: Outcomes, v: int)
    requires forall i :: 0 <= i < |aircraft| ==> aircraft[i].groupIndex < |c.groups|
    requires Carries(a, c, aircraft, now, outcome)
    requires !(aircraft[a.aircraft].protocol == 1 && aircraft[a.aircraft].transport != 0)
    requires c.groups[aircraft[a.aircraft].groupIndex].overrides[a.kind] == Some(v)
    ensures a.expires - a.deadline == v
  {
  }
}
