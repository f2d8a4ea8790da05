/** Waypoint loops over the reals, with the length and the bearing of a plane vector as parameters. */
module Waypoints {
  import opened Motion

  datatype Axis = East | North | Up

  function On(w: Waypoint, axis: Axis): real {
    match axis
    case East => w.east
    case North => w.north
    case Up => w.up
  }

  /** The waypoints in a loop: after the last one comes the first. */
  function Point(ws: seq<Waypoint>, i: nat): Waypoint
    requires 0 < |ws| && i <= |ws|
  {
    if i < |ws| then ws[i] else ws[0]
  }

  function Following(i: nat, count: nat): (next: nat)
    requires i < count
    ensures next == if i + 1 < count then i + 1 else 0
  {
    (i + 1) % count
  }

  /** A length of plane vectors: no shorter than its components, and zero for the zero vector. */
  ghost predicate IsLength(hypot: (real, real) -> real) {
    hypot(0.0, 0.0) == 0.0 && forall x, y :: Abs(x) <= hypot(x, y) && Abs(y) <= hypot(x, y)
  }

  function Leg(ws: seq<Waypoint>, hypot: (real, real) -> real, i: nat): real
    requires i < |ws|
  {
    hypot(Point(ws, i + 1).east - Point(ws, i).east, Point(ws, i + 1).north - Point(ws, i).north)
  }

  /** The length of the legs from `i` to the end of the loop. */
  function Rest(ws: seq<Waypoint>, hypot: (real, real) -> real, i: nat): real
    requires 0 < |ws| && i <= |ws|
    decreases |ws| - i
  {
    if i == |ws| then 0.0 else Leg(ws, hypot, i) + Rest(ws, hypot, i + 1)
  }

  /** The leg on which a distance from the start of leg `i` ends, and how far along it: legs without length are passed
      over, and `|ws|` stands for "no leg". */
  function Find(ws: seq<Waypoint>, hypot: (real, real) -> real, i: nat, distance: real): (r: (nat, real))
    requires 0 < |ws| && i <= |ws|
    ensures i <= r.0 <= |ws|
    ensures r.0 < |ws| ==> Leg(ws, hypot, r.0) > 0.0 && r.1 <= Leg(ws, hypot, r.0)
    decreases |ws| - i
  {
    if i == |ws| then (i, distance)
    else if Leg(ws, hypot, i) <= 0.0 then Find(ws, hypot, i + 1, distance)
    else if distance <= Leg(ws, hypot, i) then (i, distance)
    else Find(ws, hypot, i + 1, distance - Leg(ws, hypot, i))
  }

  function Blend(from: real, to: real, ratio: real): real {
    from + Times(to - from, ratio)
  }

  /** The place a distance from the start of leg `i`. */
  function Place(ws: seq<Waypoint>, hypot: (real, real) -> real, axis: Axis, i: nat, distance: real): real
    requires 0 < |ws| && i <= |ws|
  {
    var (j, d) := Find(ws, hypot, i, distance);
    if j < |ws| then Blend(On(Point(ws, j), axis), On(Point(ws, j + 1), axis), Over(d, Leg(ws, hypot, j)))
    else On(ws[0], axis)
  }

  function Standing(w: Waypoint): Moving {
    Moving(w.east, w.north, w.up, 0.0, 0.0, 0.0, w.up > 0.0)
  }

  /** The motion a distance along a leg, or at the first waypoint when there is no leg. */
  function OnLeg(p: Plan, hypot: (real, real) -> real, bearing: (real, real) -> real, found: (nat, real)): Moving
    requires p.waypoints != [] && (found.0 < |p.waypoints| ==> Leg(p.waypoints, hypot, found.0) > 0.0)
  {
    var ws, (j, distance) := p.waypoints, found;
    if j >= |ws| then Standing(ws[0]).(horizontalSpeed := p.speed)
    else
      var from, to := Point(ws, j), Point(ws, j + 1);
      var ratio := Over(distance, Leg(ws, hypot, j));
      var altitude := Blend(from.up, to.up, ratio);
      Moving(Blend(from.east, to.east, ratio), Blend(from.north, to.north, ratio), altitude, p.speed,
             Over(Times(to.up - from.up, p.speed), Leg(ws, hypot, j)),
             NormalizeHeading(bearing(to.east - from.east, to.north - from.north)), altitude > 0.0)
  }

  function WaypointsAt(p: Plan, seconds: real, instance: nat, hypot: (real, real) -> real,
      bearing: (real, real) -> real): Moving
    requires seconds >= 0.0
  {
    var ws := p.waypoints;
    if ws == [] then AT_REST
    else if |ws| == 1 || p.speed <= 0.0 || Rest(ws, hypot, 0) <= 0.0 then Standing(ws[0])
    else
      var distance := Travelled(Rest(ws, hypot, 0), p.speed, seconds, instance);
      OnLeg(p, hypot, bearing, Find(ws, hypot, 0, distance))
  }

  lemma LegIs(ws: seq<Waypoint>, hypot: (real, real) -> real, i: nat)
    requires i < |ws|
    ensures Point(ws, i) == ws[i] && Point(ws, i + 1) == ws[Following(i, |ws|)]
    ensures Leg(ws, hypot, i) == hypot(Point(ws, i + 1).east - Point(ws, i).east, Point(ws, i + 1).north - Point(ws, i).north)
    ensures Rest(ws, hypot, i) == Leg(ws, hypot, i) + Rest(ws, hypot, i + 1)
  {
    hide Following;
  }

  lemma NothingRests(ws: seq<Waypoint>, hypot: (real, real) -> real)
    requires |ws| > 0
    ensures Rest(ws, hypot, |ws|) == 0.0
  {
  }

  lemma FindStep(ws: seq<Waypoint>, hypot: (real, real) -> real, i: nat, distance: real)
    requires i < |ws|
    ensures Find(ws, hypot, i, distance) ==
      if Leg(ws, hypot, i) <= 0.0 then Find(ws, hypot, i + 1, distance)
      else if distance <= Leg(ws, hypot, i) then (i, distance)
      else Find(ws, hypot, i + 1, distance - Leg(ws, hypot, i))
  {
    hide Leg, Point;
  }

  lemma NoLegIsFound(p: Plan, hypot: (real, real) -> real, bearing: (real, real) -> real, distance: real)
    requires p.waypoints != []
    ensures Find(p.waypoints, hypot, |p.waypoints|, distance) == (|p.waypoints|, distance)
    ensures OnLeg(p, hypot, bearing, (|p.waypoints|, distance)) == Standing(p.waypoints[0]).(horizontalSpeed := p.speed)
  {
  }

  lemma LegMotion(p: Plan, hypot: (real, real) -> real, bearing: (real, real) -> real, j: nat, distance: real)
    requires j < |p.waypoints| && Leg(p.waypoints, hypot, j) > 0.0
    ensures var from, to, leg := Point(p.waypoints, j), Point(p.waypoints, j + 1), Leg(p.waypoints, hypot, j);
      var ratio := Over(distance, leg);
      var altitude := from.up + Times(to.up - from.up, ratio);
      OnLeg(p, hypot, bearing, (j, distance)) ==
      Moving(from.east + Times(to.east - from.east, ratio), from.north + Times(to.north - from.north, ratio),
          altitude, p.speed,
             Over(Times(to.up - from.up, p.speed), leg),
             NormalizeHeading(bearing(to.east - from.east, to.north - from.north)), altitude > 0.0)
  {
    hide Times, Over, Leg, Point, NormalizeHeading;
  }

  lemma MotionIs(p: Plan, seconds: real, instance: nat, hypot: (real, real) -> real, bearing: (real, real) -> real)
    requires seconds >= 0.0
    ensures var ws, m := p.waypoints, WaypointsAt(p, seconds, instance, hypot, bearing);
      if ws == [] then m == AT_REST
      else if |ws| == 1 || p.speed <= 0.0 || Rest(ws, hypot, 0) <= 0.0 then m == Standing(ws[0])
      else m == OnLeg(p, hypot, bearing, Find(ws, hypot, 0, Travelled(Rest(ws, hypot, 0), p.speed, seconds, instance)))
  {
    hide Times, Over, Travelled, Rest, Leg, OnLeg, Find;
  }

  method SampleWaypoints(p: Plan, seconds: real, instance: nat, hypot: (real, real) -> real,
      bearing: (real, real) -> real)
    returns (motion: Moving)
    requires seconds >= 0.0
    ensures motion == WaypointsAt(p, seconds, instance, hypot, bearing)
  {
    hide Times, Over, PositivePhase, NormalizeHeading, Following, WaypointsAt, Find, OnLeg, Rest, Leg, Point;
    var ws := p.waypoints;
    MotionIs(p, seconds, instance, hypot, bearing);
    if |ws| == 0 {
      return AT_REST;
    }
    if |ws| == 1 || p.speed <= 0.0 {
      return Standing(ws[0]);
    }
    var loop := 0.0;
    for i := 0 to |ws|
      invariant loop + Rest(ws, hypot, i) == Rest(ws, hypot, 0)
    {
      var from, to := ws[i], ws[Following(i, |ws|)];
      LegIs(ws, hypot, i);
      loop := loop + hypot(to.east - from.east, to.north - from.north);
    }
    assert Rest(ws, hypot, |ws|) == 0.0 by {
      NothingRests(ws, hypot);
    }
    if loop <= 0.0 {
      return Standing(ws[0]);
    }
    var distance := Times(PositivePhase(seconds, Over(loop, p.speed), instance), p.speed);
    ghost var start := distance;
    for i := 0 to |ws|
      invariant Find(ws, hypot, i, distance) == Find(ws, hypot, 0, start)
    {
      var from, to := ws[i], ws[Following(i, |ws|)];
      LegIs(ws, hypot, i);
      var east, north := to.east - from.east, to.north - from.north;
      var length := hypot(east, north);
      FindStep(ws, hypot, i, distance);
      if length > 0.0 {
        if distance <= length {
          LegMotion(p, hypot, bearing, i, distance);
          var ratio := Over(distance, length);
          var altitude := from.up + Times(to.up - from.up, ratio);
          return Moving(from.east + Times(east, ratio), from.north + Times(north, ratio), altitude, p.speed,
                        Over(Times(to.up - from.up, p.speed), length), NormalizeHeading(bearing(east, north)),
                            altitude > 0.0);
        }
        distance := distance - length;
      }
    }
    NoLegIsFound(p, hypot, bearing, distance);
    motion := Moving(ws[0].east, ws[0].north, ws[0].up, p.speed, 0.0, 0.0, ws[0].up > 0.0);
  }

  lemma PlacesAre(p: Plan, seconds: real, instance: nat, hypot: (real, real) -> real, bearing: (real, real) -> real)
    requires |p.waypoints| > 1 && p.speed > 0.0 && Rest(p.waypoints, hypot, 0) > 0.0 && seconds >= 0.0
    ensures var m := WaypointsAt(p, seconds, instance, hypot, bearing);
      var distance := Travelled(Rest(p.waypoints, hypot, 0), p.speed, seconds, instance);
      m.east == Place(p.waypoints, hypot, East, 0, distance) && m.north == Place(p.waypoints, hypot, North, 0, distance) &&
      m.altitude == Place(p.waypoints, hypot, Up, 0, distance) && m.horizontalSpeed == p.speed
  {
    hide Times, Over, Travelled, NormalizeHeading, Blend, Find, Leg, Rest, Point;
  }

  ghost predicate ValidWaypoints(p: Plan) {
    p.speed > 0.0 && |p.waypoints| >= 2 && (forall w <- p.waypoints :: w.up >= 0.0) &&
    exists i :: 0 <= i < |p.waypoints| && HasLength(p.waypoints, i)
  }

  /** Does leg `i` lead anywhere but straight up or down? */
  predicate HasLength(ws: seq<Waypoint>, i: nat)
    requires i < |ws|
  {
    Apart(Point(ws, i), Point(ws, i + 1))
  }

  predicate Apart(a: Waypoint, b: Waypoint) {
    a.east != b.east || a.north != b.north
  }

  lemma LegsHaveNoNegativeLength(ws: seq<Waypoint>, hypot: (real, real) -> real)
    requires 0 < |ws| && IsLength(hypot)
    ensures forall i :: 0 <= i < |ws| ==> Leg(ws, hypot, i) >= 0.0
  {
    hide Point;
  }

  lemma {:induction false} RestCovers(ws: seq<Waypoint>, hypot: (real, real) -> real, i: nat)
    requires i <= |ws| && IsLength(hypot) && |ws| > 0
    ensures Rest(ws, hypot, i) >= 0.0
    ensures forall j :: i <= j < |ws| ==> Rest(ws, hypot, i) >= Leg(ws, hypot, j)
    decreases |ws| - i
  {
    hide Leg;
    LegsHaveNoNegativeLength(ws, hypot);
    if i == |ws| {
    } else {
      RestCovers(ws, hypot, i + 1);
    }
  }

  /** The search for the leg cannot fail on a distance within a loop that has length. */
  lemma {:induction false} SearchFinds(ws: seq<Waypoint>, hypot: (real, real) -> real, i: nat, distance: real)
    requires 0 < |ws| && i <= |ws| && 0.0 <= distance <= Rest(ws, hypot, i) && Rest(ws, hypot, i) > 0.0
    ensures var (j, d) := Find(ws, hypot, i, distance);
      j < |ws| && 0.0 <= d <= Leg(ws, hypot, j)
    decreases |ws| - i
  {
    hide Leg;
    var leg := Leg(ws, hypot, i);
    if leg <= 0.0 {
      SearchFinds(ws, hypot, i + 1, distance);
    } else if distance > leg {
      SearchFinds(ws, hypot, i + 1, distance - leg);
    }
  }

  lemma BlendLies(from: real, to: real, ratio: real, low: real, high: real)
    requires low <= from <= high && low <= to <= high && 0.0 <= ratio <= 1.0
    ensures low <= Blend(from, to, ratio) <= high
  {
    hide Times;
    Commute(to - from, ratio);
    Units(to - from);
    Units(from - to);
    Difference(to, from, ratio);
    Difference(from, to, ratio);
    Commute(from - to, ratio);
    if from <= to {
      Ordered(0.0, ratio, to - from);
      Ordered(ratio, 1.0, to - from);
    } else {
      Ordered(0.0, ratio, from - to);
      Ordered(ratio, 1.0, from - to);
    }
  }

  /** On a valid waypoint loop every time falls on some leg with length, so the branch after the search is never taken,
      and the position lies within the range of the waypoints on each axis. */
  lemma WaypointSearchSucceeds(p: Plan, seconds: real, instance: nat, hypot: (real, real) -> real,
      bearing: (real, real) -> real, low: Waypoint, high: Waypoint)
    requires ValidWaypoints(p) && seconds >= 0.0 && IsLength(hypot)
    requires forall w <- p.waypoints, axis :: On(low, axis) <= On(w, axis) <= On(high, axis)
    ensures var m := WaypointsAt(p, seconds, instance, hypot, bearing);
      Rest(p.waypoints, hypot, 0) > 0.0 &&
      Find(p.waypoints, hypot, 0, Travelled(Rest(p.waypoints, hypot, 0), p.speed, seconds, instance)).0 < |p.waypoints| &&
      low.east <= m.east <= high.east && low.north <= m.north <= high.north && low.up <= m.altitude <= high.up &&
      m.horizontalSpeed == p.speed
  {
    hide Times, Over, Travelled, NormalizeHeading, Blend, Leg, Rest, WaypointsAt;
    var ws := p.waypoints;
    LoopHasLength(p, hypot);
    var total := Rest(ws, hypot, 0);
    var distance := Travelled(total, p.speed, seconds, instance);
    TravelledApart(total, p.speed, seconds, seconds, instance);
    PlacesAre(p, seconds, instance, hypot, bearing);
    SearchFinds(ws, hypot, 0, distance);
    var (j, d) := Find(ws, hypot, 0, distance);
    OverBounds(d, Leg(ws, hypot, j));
    var from, to := Point(ws, j), Point(ws, j + 1);
    assert from in ws && to in ws;
    forall axis: Axis ensures On(low, axis) <= Place(ws, hypot, axis, 0, distance) <= On(high, axis) {
      BlendLies(On(from, axis), On(to, axis), Over(d, Leg(ws, hypot, j)), On(low, axis), On(high, axis));
    }
    assert On(low, East) <= Place(ws, hypot, East, 0, distance) <= On(high, East);
    assert On(low, North) <= Place(ws, hypot, North, 0, distance) <= On(high, North);
    assert On(low, Up) <= Place(ws, hypot, Up, 0, distance) <= On(high, Up);
  }

  lemma LoopHasLength(p: Plan, hypot: (real, real) -> real)
    requires ValidWaypoints(p) && IsLength(hypot)
    ensures Rest(p.waypoints, hypot, 0) > 0.0
  {
    hide Point, Rest;
    var i :| 0 <= i < |p.waypoints| && HasLength(p.waypoints, i);
    RestCovers(p.waypoints, hypot, 0);
    assert Leg(p.waypoints, hypot, i) > 0.0;
  }
}
