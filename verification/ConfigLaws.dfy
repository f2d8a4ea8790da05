/** What the settings of a configuration mean, in the numbers that are stored: which groups are supported, what a valid
    period is, and which of the three levels of a period decides. */
module ConfigLaws {
  import opened Wrappers
  import opened Words
  import opened Config

  /** Six combinations are supported: OpenDroneID (1) over Bluetooth 4, Bluetooth 5, 2.4 GHz and 5.8 GHz Wi-Fi (0 to 3),
      GB 46750 (0) over the two Wi-Fi transports; all with beacons (0) as Wi-Fi mode. */
  lemma SupportedAre(g: Group)
    ensures Supported(g) <==>
      (g.protocol, g.transport, g.wifiMode) in {(1, 0, 0), (1, 1, 0), (1, 2, 0), (1, 3, 0), (0, 2, 0), (0, 3, 0)}
  {
  }

  lemma PeriodsAre(period: int)
    ensures ValidPeriod(period) <==> 100 <= period <= 60000
  {
  }

  /** Setting the override of one message decides its period and leaves the other messages alone. */
  lemma OverrideDecides(c: SystemConfig, g: Group, k: nat, v: int, other: nat)
    requires k < 6 && other < 6 && other != k
    ensures var g' := g.(overrides := g.overrides[k := Some(v)]);
      EffectivePeriod(c, g', k) == v && EffectivePeriod(c, g', other) == EffectivePeriod(c, g, other)
  {
  }

  /** Where a message has an override, neither the group's nor the system's default matters. */
  lemma DefaultsYield(c: SystemConfig, g: Group, k: nat, group: Option<int>, system: int)
    requires k < 6 && g.overrides[k].Some?
    ensures EffectivePeriod(c.(defaultPeriod := system), g.(defaultPeriod := group), k) == g.overrides[k].value
  {
  }

  /** Without an override the group's default decides, whatever the system's default is; and without both, that does. */
  lemma DefaultsDecide(c: SystemConfig, g: Group, k: nat, v: int, system: int)
    requires k < 6 && g.overrides[k].None?
    ensures EffectivePeriod(c.(defaultPeriod := system), g.(defaultPeriod := Some(v)), k) == v
    ensures EffectivePeriod(c.(defaultPeriod := system), g.(defaultPeriod := None), k) == system
  {
  }

  /** The error of a group names the first of its faults: no name, no aircraft, a name taken, an unsupported combination, a
      trajectory that cannot be flown, a period out of range, or too many aircraft so far. */
  lemma GroupErrorsAre(groups: seq<Group>, i: nat)
    requires i < |groups|
    ensures var g, error := groups[i], GroupError(groups, i);
      var named := g.name != [] && g.count >= 1;
      var unique := named && forall j :: 0 <= j < i ==> groups[j].name != g.name;
      var supported := unique && Supported(g);
      var flies := supported && ValidTrajectory(g.trajectory);
      var timely := flies && (g.defaultPeriod.Some? ==> 100 <= g.defaultPeriod.value <= 60000) &&
        forall k :: 0 <= k < 6 && g.overrides[k].Some? ==> 100 <= g.overrides[k].value <= 60000;
      && (error == InvalidGroupName <==> g.name == [])
      && (error == InvalidGroupCount <==> g.name != [] && g.count == 0)
      && (error == DuplicateGroupName <==> named && !unique)
      && (error == UnsupportedCombination <==> unique && !supported)
      && (error == InvalidTrajectory <==> supported && !flies)
      && (error == InvalidPeriod <==> flies && !timely)
      && (error == TooManyAircraft <==> timely && TotalAircraft(groups[..i + 1]) > 50)
      && (error == NoError <==> timely && TotalAircraft(groups[..i + 1]) <= 50)
  {
    hide Supported, ValidTrajectory;
    PeriodsOfGroup(groups[i]);
  }

  lemma PeriodsOfGroup(g: Group)
    ensures ValidGroup(g) <==>
      g.name != [] && g.count != 0 && Supported(g) && ValidTrajectory(g.trajectory) &&
      (g.defaultPeriod.Some? ==> 100 <= g.defaultPeriod.value <= 60000) &&
      forall k :: 0 <= k < 6 && g.overrides[k].Some? ==> 100 <= g.overrides[k].value <= 60000
  {
    hide Supported, ValidTrajectory;
    assert forall k :: 0 <= k < 6 ==> (ValidOptionalPeriod(g.overrides[k]) <==>
      (g.overrides[k].Some? ==> 100 <= g.overrides[k].value <= 60000));
  }

  /** The error of a snapshot: a missing site, an invalid one, a period out of range, that of the first faulty group, or no
      aircraft at all. */
  lemma SnapshotErrorsAre(c: SystemConfig)
    ensures var error := FirstError(c);
      if c.site.None? then error == MissingSite
      else if !ValidSite(c.site.value) then error == InvalidSite
      else if !(100 <= c.defaultPeriod <= 60000) then error == InvalidPeriod
      else if exists i :: 0 <= i < |c.groups| && FirstFaulty(c.groups, i) then
        exists i :: 0 <= i < |c.groups| && FirstFaulty(c.groups, i) && error == GroupError(c.groups, i)
      else error == if TotalAircraft(c.groups) == 0 then NoAircraft else NoError
  {
    hide ValidSite, GroupError, TotalAircraft;
    FirstFault(c.groups, 0);
  }

  ghost predicate FirstFaulty(groups: seq<Group>, i: nat)
    requires i < |groups|
  {
    GroupError(groups, i) != NoError && forall j :: 0 <= j < i ==> GroupError(groups, j) == NoError
  }

  lemma {:induction false} FirstFault(groups: seq<Group>, from: nat)
    requires from <= |groups| && forall j :: 0 <= j < from ==> GroupError(groups, j) == NoError
    ensures GroupsError(groups, from) == NoError ==> forall j :: 0 <= j < |groups| ==> GroupError(groups, j) == NoError
    ensures GroupsError(groups, from) != NoError ==>
      exists i :: from <= i < |groups| && FirstFaulty(groups, i) && GroupsError(groups, from) == GroupError(groups, i)
    decreases |groups| - from
  {
    hide GroupError;
    if from == |groups| {
    } else if GroupError(groups, from) != NoError {
      assert FirstFaulty(groups, from);
    } else {
      FirstFault(groups, from + 1);
    }
  }

  /** Where each aircraft of the fleet comes from: instance k of group g stands behind all instances of the groups before,
      with the identity derived from the group's name, k and the protocol, and with the group's protocol and transport. */
  lemma FleetMembers(c: SystemConfig, derive: Derivation, g: nat, k: nat)
    requires g < |c.groups| && k < c.groups[g].count
    ensures var fleet, at, group := FleetOf(c, derive, |c.groups|), TotalAircraft(c.groups[..g]) + k, c.groups[g];
      && |fleet| == TotalAircraft(c.groups) && at < |fleet|
      && fleet[at] == Aircraft(derive(group.name, k, group.protocol), g, k, group.protocol, group.transport, group.wifiMode)
  {
    FleetLength(c, derive, |c.groups|);
    FleetPlaced(c, derive, |c.groups|, g, k);
    assert c.groups[..|c.groups|] == c.groups;
  }

  /** A fleet can be expanded only if every aircraft gets an identity. */
  lemma IdentitiesAre(c: SystemConfig, derive: Derivation)
    ensures Derivable(c, derive) <==> forall g, k :: 0 <= g < |c.groups| && 0 <= k < c.groups[g].count ==>
      derive(c.groups[g].name, k, c.groups[g].protocol) != []
  {
    if Derivable(c, derive) {
      forall g, k | 0 <= g < |c.groups| && 0 <= k < c.groups[g].count
        ensures derive(c.groups[g].name, k, c.groups[g].protocol) != []
      {
        assert AircraftOf(c, derive, g, k).identity != [];
      }
    }
  }

  // ----- Floats, by their bits: sign in bit 31, then eight bits of exponent, all ones if it is no finite number

  predicate Finite(bits: Word32) {
    bits % 0x8000_0000 / 0x80_0000 != 255
  }

  predicate Positive(bits: Word32) {
    Finite(bits) && 0 < bits < 0x8000_0000
  }

  /** The two zeros are not negative. */
  predicate NotNegative(bits: Word32) {
    Finite(bits) && (bits < 0x8000_0000 || bits == 0x8000_0000)
  }

  lemma FloatsAre(bits: Word32)
    ensures FinitePositive(bits) <==> Positive(bits)
    ensures FiniteNonnegative(bits) <==> NotNegative(bits)
    ensures IsFinite32(bits) <==> Finite(bits)
    ensures ValidHeading(bits) <==> NotNegative(bits) && bits % 0x8000_0000 < 0x43B4_0000
  {
  }

  /** What can be flown: a hover (0) at a height; a line (1), circle (2) or rectangle (3) of some size at some speed, a line
      with a heading below 360 degrees; a loop (4) at some speed through at least two waypoints, none below the ground, some
      two neighbours not above each other; and a mission (5) that climbs at some speed. */
  lemma TrajectoriesAre(t: Trajectory)
    ensures ValidTrajectory(t) <==> FlyableTrajectory(t)
  {
    hide FinitePositive, FiniteNonnegative, ValidHeading, IsFinite32, HorizontalSegment;
    FloatsAre(t.altitude);
    FloatsAre(t.speed);
    FloatsAre(t.heading);
    FloatsAre(t.primarySize);
    FloatsAre(t.secondarySize);
    FloatsAre(t.verticalSpeed);
    forall i | 0 <= i < |t.waypoints| ensures ValidWaypoint(t.waypoints[i]) <==> FlyableWaypoint(t.waypoints[i]) {
      FloatsAre(t.waypoints[i].east);
      FloatsAre(t.waypoints[i].north);
      FloatsAre(t.waypoints[i].up);
    }
  }

  predicate FlyableWaypoint(p: EnuPoint) {
    Finite(p.east) && Finite(p.north) && NotNegative(p.up)
  }

  ghost predicate FlyableTrajectory(t: Trajectory) {
    match t.kind as nat
    case 0 => NotNegative(t.altitude)
    case 1 =>
      Positive(t.primarySize) && Positive(t.speed) && NotNegative(t.altitude) && NotNegative(t.heading) &&
      t.heading % 0x8000_0000 < 0x43B4_0000
    case 2 => Positive(t.primarySize) && Positive(t.speed) && NotNegative(t.altitude)
    case 3 => Positive(t.primarySize) && Positive(t.secondarySize) && Positive(t.speed) && NotNegative(t.altitude)
    case 4 =>
      Positive(t.speed) && |t.waypoints| >= 2 &&
      (forall i :: 0 <= i < |t.waypoints| ==> FlyableWaypoint(t.waypoints[i])) &&
      (exists i :: 0 <= i < |t.waypoints| && HorizontalSegment(t.waypoints, i))
    case 5 => Positive(t.altitude) && Positive(t.verticalSpeed)
    case _ => false
  }

  /** Two finite waypoints are not above each other if a coordinate differs, the two zeros being the same. */
  lemma SegmentsAre(ps: seq<EnuPoint>, i: nat)
    requires i < |ps| && forall k :: 0 <= k < |ps| ==> FlyableWaypoint(ps[k])
    ensures var next := ps[if i + 1 == |ps| then 0 else i + 1];
      HorizontalSegment(ps, i) <==> !SameFloat(ps[i].east, next.east) || !SameFloat(ps[i].north, next.north)
  {
    hide Differ32, SameFloat;
    NextIs(i, |ps|);
    var next := ps[if i + 1 == |ps| then 0 else i + 1];
    assert FlyableWaypoint(ps[i]) && FlyableWaypoint(next);
    FloatsDiffer(ps[i].east, next.east);
    FloatsDiffer(ps[i].north, next.north);
  }

  lemma NextIs(i: nat, count: nat)
    requires i < count
    ensures (i + 1) % count == if i + 1 == count then 0 else i + 1
  {
  }

  lemma FloatsDiffer(a: Word32, b: Word32)
    requires Finite(a) && Finite(b)
    ensures Differ32(a, b) <==> !SameFloat(a, b)
  {
  }

  predicate SameFloat(a: Word32, b: Word32) {
    a == b || (a % 0x8000_0000 == 0 && b % 0x8000_0000 == 0)
  }

  /** A site lies on the globe: both coordinates are finite and no greater than 90 and 180, by their bits without sign. */
  lemma SitesAre(site: GeoPoint)
    ensures ValidSite(site) <==>
      site.latitude % 0x8000_0000_0000_0000 <= 0x4056_8000_0000_0000 &&
      site.longitude % 0x8000_0000_0000_0000 <= 0x4066_8000_0000_0000
  {
  }
}
