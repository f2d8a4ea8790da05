/** The configuration snapshot, its validation and its expansion into a fleet.

    Floating-point fields are the IEEE 754 bit patterns the store writes: a binary32 is a
    Word32, a binary64 a Word64. The comparisons validation makes on them are comparisons
    of the magnitude bits, so they are modelled exactly. */
module Config {
  import opened Wrappers
  import opened Words

  const MAX_AIRCRAFT: nat := 50
  const MESSAGE_KINDS: nat := 6
  const MIN_PERIOD_MS: int := 100
  const MAX_PERIOD_MS: int := 60000

  // Enumerations are stored as raw bytes, because decoding casts any byte to them.
  const GB46750: Byte := 0
  const OPEN_DRONE_ID: Byte := 1
  const BLE4: Byte := 0
  const BLE5: Byte := 1
  const WIFI24: Byte := 2
  const WIFI58: Byte := 3
  const BEACON: Byte := 0
  const HOVER: Byte := 0
  const LINE: Byte := 1
  const CIRCLE: Byte := 2
  const RECTANGLE: Byte := 3
  const WAYPOINT_LOOP: Byte := 4
  const TAKEOFF_CRUISE_LAND: Byte := 5

  datatype GeoPoint = GeoPoint(latitude: Word64, longitude: Word64)

  datatype EnuPoint = EnuPoint(east: Word32, north: Word32, up: Word32)

  datatype Trajectory = Trajectory(
    kind: Byte, altitude: Word32, speed: Word32, heading: Word32, primarySize: Word32,
    secondarySize: Word32, verticalSpeed: Word32, cruiseTimeMs: Word32, waypoints: seq<EnuPoint>)

  type PeriodOverrides = ps: seq<Option<int>> | |ps| == MESSAGE_KINDS
    witness [None, None, None, None, None, None]

  datatype Group = Group(
    name: seq<Byte>, count: Word16, protocol: Byte, transport: Byte, wifiMode: Byte,
    trajectory: Trajectory, defaultPeriod: Option<int>, overrides: PeriodOverrides)

  datatype SystemConfig = SystemConfig(site: Option<GeoPoint>, defaultPeriod: int, groups: seq<Group>)

  datatype ConfigError =
    | NoError
    | MissingSite
    | InvalidSite
    | NoAircraft
    | TooManyAircraft
    | InvalidGroupName
    | DuplicateGroupName
    | InvalidGroupCount
    | InvalidPeriod
    | InvalidTrajectory
    | UnsupportedCombination
    | IdentityDerivationFailed

  // ----- IEEE 754 comparisons on bit patterns

  function Magnitude32(bits: Word32): nat { bits % TWO31 }

  predicate IsFinite32(bits: Word32) { Magnitude32(bits) < 0x7F80_0000 }

  predicate IsNan32(bits: Word32) { Magnitude32(bits) > 0x7F80_0000 }

  predicate IsZero32(bits: Word32) { Magnitude32(bits) == 0 }

  /** Finite and at least zero; the negative zero counts as zero. */
  predicate FiniteNonnegative(bits: Word32) {
    IsFinite32(bits) && (bits < TWO31 || IsZero32(bits))
  }

  predicate FinitePositive(bits: Word32) {
    IsFinite32(bits) && bits < TWO31 && !IsZero32(bits)
  }

  /** The C++ `!=` on two floats. */
  predicate Differ32(a: Word32, b: Word32) {
    IsNan32(a) || IsNan32(b) || (a != b && !(IsZero32(a) && IsZero32(b)))
  }

  /** Heading in [0, 360): 360.0 is 0x43B40000. */
  predicate ValidHeading(bits: Word32) {
    FiniteNonnegative(bits) && Magnitude32(bits) < 0x43B4_0000
  }

  /** Finite with absolute value at most the binary64 with bits `limit`. */
  predicate WithinMagnitude64(bits: Word64, limit: Word64) {
    bits % 0x8000_0000_0000_0000 <= limit
  }

  // ----- What an acceptable configuration is

  predicate ValidPeriod(period: int) {
    MIN_PERIOD_MS <= period <= MAX_PERIOD_MS
  }

  /** Latitude within 90.0 (0x4056800000000000) and longitude within 180.0 degrees. */
  predicate ValidSite(site: GeoPoint) {
    && WithinMagnitude64(site.latitude, 0x4056_8000_0000_0000)
    && WithinMagnitude64(site.longitude, 0x4066_8000_0000_0000)
  }

  predicate Supported(g: Group) {
    && g.wifiMode == BEACON
    && g.transport in {BLE4, BLE5, WIFI24, WIFI58}
    && (g.protocol == OPEN_DRONE_ID || (g.protocol == GB46750 && g.transport in {WIFI24, WIFI58}))
  }

  predicate ValidWaypoint(p: EnuPoint) {
    IsFinite32(p.east) && IsFinite32(p.north) && FiniteNonnegative(p.up)
  }

  predicate HorizontalSegment(ps: seq<EnuPoint>, i: nat)
    requires i < |ps|
  {
    var next := ps[(i + 1) % |ps|];
    Differ32(ps[i].east, next.east) || Differ32(ps[i].north, next.north)
  }

  ghost predicate ValidTrajectory(t: Trajectory) {
    if t.kind == HOVER then FiniteNonnegative(t.altitude)
    else if t.kind == LINE then
      && FinitePositive(t.primarySize) && FinitePositive(t.speed)
      && FiniteNonnegative(t.altitude) && ValidHeading(t.heading)
    else if t.kind == CIRCLE then
      FinitePositive(t.primarySize) && FinitePositive(t.speed) && FiniteNonnegative(t.altitude)
    else if t.kind == RECTANGLE then
      && FinitePositive(t.primarySize) && FinitePositive(t.secondarySize)
      && FinitePositive(t.speed) && FiniteNonnegative(t.altitude)
    else if t.kind == WAYPOINT_LOOP then
      && FinitePositive(t.speed) && |t.waypoints| >= 2
      && (forall i :: 0 <= i < |t.waypoints| ==> ValidWaypoint(t.waypoints[i]))
      && (exists i :: 0 <= i < |t.waypoints| && HorizontalSegment(t.waypoints, i))
    else if t.kind == TAKEOFF_CRUISE_LAND then
      FinitePositive(t.altitude) && FinitePositive(t.verticalSpeed)
    else false
  }

  predicate ValidOptionalPeriod(p: Option<int>) {
    p.Some? ==> ValidPeriod(p.value)
  }

  ghost predicate ValidGroup(g: Group) {
    && g.name != [] && g.count != 0 && Supported(g) && ValidTrajectory(g.trajectory)
    && ValidOptionalPeriod(g.defaultPeriod)
    && forall k :: 0 <= k < MESSAGE_KINDS ==> ValidOptionalPeriod(g.overrides[k])
  }

  function TotalAircraft(groups: seq<Group>): nat {
    if groups == [] then 0 else TotalAircraft(groups[..|groups| - 1]) + groups[|groups| - 1].count
  }

  /** The declarative meaning of validation: 1 to 50 aircraft in distinctly named valid groups. */
  ghost predicate Acceptable(c: SystemConfig) {
    && c.site.Some? && ValidSite(c.site.value) && ValidPeriod(c.defaultPeriod)
    && (forall i :: 0 <= i < |c.groups| ==> ValidGroup(c.groups[i]))
    && (forall i, j :: 0 <= i < j < |c.groups| ==> c.groups[i].name != c.groups[j].name)
    && 1 <= TotalAircraft(c.groups) <= MAX_AIRCRAFT
  }

  // ----- The first error, in the order validation looks for them

  ghost function GroupError(groups: seq<Group>, i: nat): ConfigError
    requires i < |groups|
  {
    var g := groups[i];
    if g.name == [] then InvalidGroupName
    else if g.count == 0 then InvalidGroupCount
    else if exists j :: 0 <= j < i && groups[j].name == g.name then DuplicateGroupName
    else if !Supported(g) then UnsupportedCombination
    else if !ValidTrajectory(g.trajectory) then InvalidTrajectory
    else if !ValidGroup(g) then InvalidPeriod
    else if TotalAircraft(groups[..i + 1]) > MAX_AIRCRAFT then TooManyAircraft
    else NoError
  }

  ghost function GroupsError(groups: seq<Group>, from: nat): ConfigError
    requires from <= |groups|
    decreases |groups| - from
  {
    if from == |groups| then NoError
    else if GroupError(groups, from) != NoError then GroupError(groups, from)
    else GroupsError(groups, from + 1)
  }

  ghost function FirstError(c: SystemConfig): ConfigError {
    if c.site.None? then MissingSite
    else if !ValidSite(c.site.value) then InvalidSite
    else if !ValidPeriod(c.defaultPeriod) then InvalidPeriod
    else if GroupsError(c.groups, 0) != NoError then GroupsError(c.groups, 0)
    else if TotalAircraft(c.groups) == 0 then NoAircraft
    else NoError
  }

  lemma {:induction false} TotalMonotone(groups: seq<Group>, i: nat)
    requires i <= |groups|
    ensures TotalAircraft(groups[..i]) <= TotalAircraft(groups)
    decreases |groups|
  {
    if i == |groups| {
      assert groups[..i] == groups;
    } else {
      var front := groups[..|groups| - 1];
      TotalMonotone(front, i);
      assert front[..i] == groups[..i];
    }
  }

  lemma TotalStep(groups: seq<Group>, i: nat)
    requires i < |groups|
    ensures TotalAircraft(groups[..i + 1]) == TotalAircraft(groups[..i]) + groups[i].count
  {
    assert groups[..i + 1][..i] == groups[..i];
  }

  lemma {:induction false} GroupsErrorNone(groups: seq<Group>, from: nat)
    requires from <= |groups|
    ensures GroupsError(groups, from) == NoError
       <==> forall i :: from <= i < |groups| ==> GroupError(groups, i) == NoError
    decreases |groups| - from
  {
    if from == |groups| {
    } else {
      GroupsErrorNone(groups, from + 1);
    }
  }

  /** Validation accepts exactly the acceptable configurations. */
  lemma AcceptsExactly(c: SystemConfig)
    ensures FirstError(c) == NoError <==> Acceptable(c)
  {
    hide ValidSite, Supported, ValidTrajectory;
    GroupsErrorNone(c.groups, 0);
    assert c.groups[..|c.groups|] == c.groups;
    if GroupsError(c.groups, 0) == NoError {
      forall i | 0 <= i < |c.groups|
        ensures ValidGroup(c.groups[i])
      {
        assert GroupError(c.groups, i) == NoError;
      }
      forall i, j | 0 <= i < j < |c.groups|
        ensures c.groups[i].name != c.groups[j].name
      {
        assert GroupError(c.groups, j) == NoError;
      }
      if c.groups != [] {
        assert GroupError(c.groups, |c.groups| - 1) == NoError;
      }
    }
    if Acceptable(c) {
      forall i | 0 <= i < |c.groups|
        ensures GroupError(c.groups, i) == NoError
      {
        assert ValidGroup(c.groups[i]);
        TotalMonotone(c.groups, i + 1);
      }
    }
  }

  /** An acceptable configuration has at most 50 groups. */
  lemma {:induction false} FewGroups(groups: seq<Group>)
    requires forall i :: 0 <= i < |groups| ==> ValidGroup(groups[i])
    ensures |groups| <= TotalAircraft(groups)
  {
    if groups == [] {
    } else {
      FewGroups(groups[..|groups| - 1]);
      assert ValidGroup(groups[|groups| - 1]);
    }
  }

  method CheckTrajectory(t: Trajectory) returns (ok: bool)
    ensures ok == ValidTrajectory(t)
  {
    if t.kind == HOVER {
      return FiniteNonnegative(t.altitude);
    } else if t.kind == LINE {
      return FinitePositive(t.primarySize) && FinitePositive(t.speed) &&
             FiniteNonnegative(t.altitude) && ValidHeading(t.heading);
    } else if t.kind == CIRCLE {
      return FinitePositive(t.primarySize) && FinitePositive(t.speed) && FiniteNonnegative(t.altitude);
    } else if t.kind == RECTANGLE {
      return FinitePositive(t.primarySize) && FinitePositive(t.secondarySize) &&
             FinitePositive(t.speed) && FiniteNonnegative(t.altitude);
    } else if t.kind == WAYPOINT_LOOP {
      if !FinitePositive(t.speed) || |t.waypoints| < 2 { return false; }
      var hasHorizontalSegment := false;
      for i := 0 to |t.waypoints|
        invariant forall k :: 0 <= k < i ==> ValidWaypoint(t.waypoints[k])
        invariant hasHorizontalSegment == exists k :: 0 <= k < i && HorizontalSegment(t.waypoints, k)
      {
        var point := t.waypoints[i];
        if !IsFinite32(point.east) || !IsFinite32(point.north) || !FiniteNonnegative(point.up) {
          assert !ValidWaypoint(t.waypoints[i]);
          return false;
        }
        hasHorizontalSegment := hasHorizontalSegment || HorizontalSegment(t.waypoints, i);
      }
      return hasHorizontalSegment;
    } else if t.kind == TAKEOFF_CRUISE_LAND {
      return FinitePositive(t.altitude) && FinitePositive(t.verticalSpeed);
    }
    return false;
  }

  method CheckPeriods(g: Group) returns (ok: bool)
    ensures ok == (ValidOptionalPeriod(g.defaultPeriod)
      && forall k :: 0 <= k < MESSAGE_KINDS ==> ValidOptionalPeriod(g.overrides[k]))
  {
    if g.defaultPeriod.Some? && !ValidPeriod(g.defaultPeriod.value) { return false; }
    for k := 0 to MESSAGE_KINDS
      invariant forall m :: 0 <= m < k ==> ValidOptionalPeriod(g.overrides[m])
    {
      if g.overrides[k].Some? && !ValidPeriod(g.overrides[k].value) {
        assert !ValidOptionalPeriod(g.overrides[k]);
        return false;
      }
    }
    return true;
  }

  function NamesOf(groups: seq<Group>, n: nat): set<seq<Byte>>
    requires n <= |groups|
  {
    set j | 0 <= j < n :: groups[j].name
  }

  method CheckGroup(groups: seq<Group>, i: nat, names: set<seq<Byte>>, total: nat) returns (error: ConfigError)
    requires i < |groups| && names == NamesOf(groups, i) && total == TotalAircraft(groups[..i])
    ensures error == GroupError(groups, i)
  {
    var g := groups[i];
    if g.name == [] { return InvalidGroupName; }
    if g.count == 0 { return InvalidGroupCount; }
    if g.name in names { return DuplicateGroupName; }
    if !Supported(g) { return UnsupportedCombination; }
    var flyable := CheckTrajectory(g.trajectory);
    if !flyable { return InvalidTrajectory; }
    var timely := CheckPeriods(g);
    if !timely { return InvalidPeriod; }
    TotalStep(groups, i);
    return if total + g.count > MAX_AIRCRAFT then TooManyAircraft else NoError;
  }

  /** The body of the loop over groups is CheckGroup. */
  method Validate(c: SystemConfig) returns (error: ConfigError)
    ensures error == FirstError(c)
  {
    hide GroupError, ValidSite;
    if c.site.None? { return MissingSite; }
    if !ValidSite(c.site.value) { return InvalidSite; }
    if !ValidPeriod(c.defaultPeriod) { return InvalidPeriod; }
    var total := 0;
    var names: set<seq<Byte>> := {};
    for i := 0 to |c.groups|
      invariant total == TotalAircraft(c.groups[..i])
      invariant names == NamesOf(c.groups, i)
      invariant GroupsError(c.groups, 0) == GroupsError(c.groups, i)
    {
      error := CheckGroup(c.groups, i, names, total);
      if error != NoError { return error; }
      TotalStep(c.groups, i);
      names := names + {c.groups[i].name};
      total := total + c.groups[i].count;
    }
    assert c.groups[..|c.groups|] == c.groups;
    if total == 0 { return NoAircraft; }
    return NoError;
  }

  // ----- Expansion into a fleet

  datatype Aircraft = Aircraft(
    identity: seq<Byte>, groupIndex: nat, instanceIndex: nat, protocol: Byte, transport: Byte, wifiMode: Byte)

  datatype ExpandResult = Fleet(aircraft: seq<Aircraft>) | Rejected(error: ConfigError)

  /** Derivation of a test identity from group name, instance and protocol, on one device. */
  type Derivation = (seq<Byte>, nat, Byte) -> seq<Byte>

  function AircraftOf(c: SystemConfig, derive: Derivation, g: nat, k: nat): Aircraft
    requires g < |c.groups|
  {
    var group := c.groups[g];
    Aircraft(derive(group.name, k, group.protocol), g, k, group.protocol, group.transport, group.wifiMode)
  }

  /** Instance `k` of group `g` stands behind all instances of the earlier groups. */
  function FleetPosition(groups: seq<Group>, g: nat, k: nat): nat
    requires g < |groups|
  {
    TotalAircraft(groups[..g]) + k
  }

  ghost predicate Derivable(c: SystemConfig, derive: Derivation) {
    forall g, k :: 0 <= g < |c.groups| && 0 <= k < c.groups[g].count
      ==> AircraftOf(c, derive, g, k).identity != []
  }

  function Instances(c: SystemConfig, derive: Derivation, g: nat, k: nat): seq<Aircraft>
    requires g < |c.groups|
  {
    seq(k, m requires 0 <= m => AircraftOf(c, derive, g, m))
  }

  /** The aircraft of the first `n` groups, in order. */
  function FleetOf(c: SystemConfig, derive: Derivation, n: nat): seq<Aircraft>
    requires n <= |c.groups|
  {
    if n == 0 then [] else FleetOf(c, derive, n - 1) + Instances(c, derive, n - 1, c.groups[n - 1].count)
  }

  lemma {:induction false} FleetLength(c: SystemConfig, derive: Derivation, n: nat)
    requires n <= |c.groups|
    ensures |FleetOf(c, derive, n)| == TotalAircraft(c.groups[..n])
  {
    if n == 0 {
    } else {
      FleetLength(c, derive, n - 1);
      TotalStep(c.groups, n - 1);
    }
  }

  /** Instance `k` of group `g` is found at its position, whatever groups come after. */
  lemma {:induction false} FleetPlaced(c: SystemConfig, derive: Derivation, n: nat, g: nat, k: nat)
    requires g < n <= |c.groups| && k < c.groups[g].count
    ensures FleetPosition(c.groups, g, k) < |FleetOf(c, derive, n)|
    ensures FleetOf(c, derive, n)[FleetPosition(c.groups, g, k)] == AircraftOf(c, derive, g, k)
  {
    hide AircraftOf;
    FleetLength(c, derive, n - 1);
    if g < n - 1 {
      FleetPlaced(c, derive, n - 1, g, k);
    }
  }

  /** Every place of the fleet belongs to one instance of one group, and to no other. */
  lemma {:induction false} PositionsCoverFleet(groups: seq<Group>, at: nat) returns (g: nat, k: nat)
    requires at < TotalAircraft(groups)
    ensures g < |groups| && k < groups[g].count && FleetPosition(groups, g, k) == at
    decreases |groups|
  {
    var last := |groups| - 1;
    if at < TotalAircraft(groups[..last]) {
      g, k := PositionsCoverFleet(groups[..last], at);
      assert groups[..last][..g] == groups[..g];
    } else {
      g, k := last, at - TotalAircraft(groups[..last]);
    }
  }

  lemma PositionsDistinct(groups: seq<Group>, g: nat, k: nat, h: nat, m: nat)
    requires g < h < |groups| && k < groups[g].count && m < groups[h].count
    ensures FleetPosition(groups, g, k) < FleetPosition(groups, h, m)
  {
    TotalStep(groups, g);
    TotalMonotone(groups[..h], g + 1);
    assert groups[..h][..g + 1] == groups[..g + 1];
  }

  method Expand(c: SystemConfig, derive: Derivation) returns (r: ExpandResult)
    ensures r.Fleet? <==> Acceptable(c) && Derivable(c, derive)
    ensures r.Rejected? ==> r.error == if Acceptable(c) then IdentityDerivationFailed else FirstError(c)
    ensures r.Fleet? ==> r.aircraft == FleetOf(c, derive, |c.groups|)
  {
    var error := Validate(c);
    AcceptsExactly(c);
    if error != NoError { return Rejected(error); }
    var aircraft: seq<Aircraft> := [];
    for g := 0 to |c.groups|
      invariant aircraft == FleetOf(c, derive, g)
      invariant forall h, m :: 0 <= h < g && 0 <= m < c.groups[h].count ==> AircraftOf(c, derive, h, m).identity != []
    {
      var group := c.groups[g];
      for k := 0 to group.count
        invariant aircraft == FleetOf(c, derive, g) + Instances(c, derive, g, k)
        invariant forall m :: 0 <= m < k ==> AircraftOf(c, derive, g, m).identity != []
      {
        var identity := derive(group.name, k, group.protocol);
        if identity == [] {
          assert AircraftOf(c, derive, g, k).identity == [];
          return Rejected(IdentityDerivationFailed);
        }
        aircraft := aircraft + [Aircraft(identity, g, k, group.protocol, group.transport, group.wifiMode)];
        assert Instances(c, derive, g, k + 1) == Instances(c, derive, g, k) + [AircraftOf(c, derive, g, k)];
      }
    }
    return Fleet(aircraft);
  }

  /** A message override wins over the group default, which wins over the system default. */
  function EffectivePeriod(c: SystemConfig, g: Group, kind: nat): int {
    if kind < |g.overrides| && g.overrides[kind].Some? then g.overrides[kind].value
    else if g.defaultPeriod.Some? then g.defaultPeriod.value
    else c.defaultPeriod
  }

  /** Whatever level it comes from, the period of a stream is between 100 ms and a minute. */
  lemma EffectivePeriodBounds(c: SystemConfig, i: nat, kind: nat)
    requires Acceptable(c) && i < |c.groups|
    ensures ValidPeriod(EffectivePeriod(c, c.groups[i], kind))
  {
    assert ValidGroup(c.groups[i]);
    if kind < MESSAGE_KINDS {
      assert ValidOptionalPeriod(c.groups[i].overrides[kind]);
    }
  }
}
