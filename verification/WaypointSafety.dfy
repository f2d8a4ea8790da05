/** How fast an aircraft on a waypoint loop moves: never faster sideways than its speed, and exactly when its altitude
    changes without jumps. */
module WaypointSafety {
  import opened Motion
  import opened Waypoints

  // ----- Legs with length, and where they join

  /** The next leg with length from leg `i` on, or the number of legs. */
  function Upcoming(ws: seq<Waypoint>, i: nat): (j: nat)
    requires 0 < |ws| && i <= |ws|
    ensures i <= j <= |ws|
    ensures j < |ws| ==> HasLength(ws, j)
    ensures forall k :: i <= k < j ==> !HasLength(ws, k)
    decreases |ws| - i
  {
    if i == |ws| || HasLength(ws, i) then i else Upcoming(ws, i + 1)
  }

  /** Where the next leg with length starts, going round the loop. */
  function Entry(ws: seq<Waypoint>, i: nat): Waypoint
    requires 0 < |ws| && i <= |ws|
  {
    if Upcoming(ws, i) < |ws| then Point(ws, Upcoming(ws, i)) else Point(ws, Upcoming(ws, 0))
  }

  /** Each leg with length ends where the next leg with length starts. */
  predicate Joins(ws: seq<Waypoint>, axis: Axis)
    requires 0 < |ws|
  {
    forall i :: 0 <= i < |ws| && HasLength(ws, i) ==> LegJoins(ws, axis, i)
  }

  predicate LegJoins(ws: seq<Waypoint>, axis: Axis, i: nat)
    requires i < |ws|
  {
    On(Point(ws, i + 1), axis) == On(Entry(ws, i + 1), axis)
  }

  predicate LegIsGentle(ws: seq<Waypoint>, hypot: (real, real) -> real, axis: Axis, slope: real, i: nat)
    requires i < |ws|
  {
    Abs(On(Point(ws, i + 1), axis) - On(Point(ws, i), axis)) <= Times(Leg(ws, hypot, i), slope)
  }

  /** Legs with length join, and none changes the coordinate by more than `slope` per metre. */
  predicate Smooth(ws: seq<Waypoint>, hypot: (real, real) -> real, axis: Axis, slope: real)
    requires 0 < |ws|
  {
    Joins(ws, axis) && forall i :: 0 <= i < |ws| && HasLength(ws, i) ==> LegIsGentle(ws, hypot, axis, slope, i)
  }

  lemma LegLength(ws: seq<Waypoint>, hypot: (real, real) -> real, i: nat)
    requires i < |ws| && IsLength(hypot)
    ensures Leg(ws, hypot, i) >= 0.0
    ensures Leg(ws, hypot, i) > 0.0 <==> HasLength(ws, i)
  {
    hide Point;
  }

  lemma {:induction false} RestUpcoming(ws: seq<Waypoint>, hypot: (real, real) -> real, i: nat)
    requires 0 < |ws| && i <= |ws| && IsLength(hypot)
    ensures Rest(ws, hypot, i) >= 0.0
    ensures Rest(ws, hypot, i) > 0.0 <==> Upcoming(ws, i) < |ws|
    decreases |ws| - i
  {
    hide Leg, HasLength, IsLength;
    if i == |ws| {
    } else {
      LegLength(ws, hypot, i);
      RestUpcoming(ws, hypot, i + 1);
    }
  }

  /** On the ground plan legs always join: a leg without length ends where it starts. */
  lemma {:induction false} PlanJoins(ws: seq<Waypoint>, i: nat)
    requires 0 < |ws| && i <= |ws|
    ensures Point(ws, i).east == Point(ws, Upcoming(ws, i)).east && Point(ws, i).north == Point(ws, Upcoming(ws, i)).north
    decreases |ws| - i
  {
    if i == |ws| || HasLength(ws, i) {
    } else {
      PlanJoins(ws, i + 1);
    }
  }

  lemma PlanLegIsGentle(ws: seq<Waypoint>, hypot: (real, real) -> real, i: nat)
    requires i < |ws| && IsLength(hypot)
    ensures LegIsGentle(ws, hypot, East, 1.0, i) && LegIsGentle(ws, hypot, North, 1.0, i)
  {
    hide Times, Point;
    Units(Leg(ws, hypot, i));
  }

  lemma PlanEntry(ws: seq<Waypoint>, i: nat)
    requires 0 < |ws| && i <= |ws|
    ensures Point(ws, i).east == Entry(ws, i).east && Point(ws, i).north == Entry(ws, i).north
  {
    hide Upcoming, HasLength;
    PlanJoins(ws, i);
    PlanJoins(ws, 0);
  }

  lemma HorizontalIsSmooth(ws: seq<Waypoint>, hypot: (real, real) -> real)
    requires 0 < |ws| && IsLength(hypot)
    ensures Smooth(ws, hypot, East, 1.0) && Smooth(ws, hypot, North, 1.0)
  {
    hide LegIsGentle, Entry, Point, HasLength, IsLength;
    forall i: nat | i < |ws|
      ensures LegIsGentle(ws, hypot, East, 1.0, i) && LegIsGentle(ws, hypot, North, 1.0, i)
      ensures LegJoins(ws, East, i) && LegJoins(ws, North, i)
    {
      PlanLegIsGentle(ws, hypot, i);
      PlanEntry(ws, i + 1);
    }
  }

  // ----- Along one leg

  lemma AlongLeg(from: real, to: real, leg: real, slope: real, d: real, e: real)
    requires 0.0 <= d <= e <= leg && leg > 0.0 && slope >= 0.0 && Abs(to - from) <= Times(leg, slope)
    ensures Abs(Blend(from, to, Over(d, leg)) - Blend(from, to, Over(e, leg))) <= Times(e - d, slope)
  {
    hide Times, Over;
    var share := Over(e, leg) - Over(d, leg);
    OverOrdered(d, e, leg);
    OverTimes(d, leg);
    OverTimes(e, leg);
    Difference(Over(e, leg), Over(d, leg), leg);
    assert Times(share, leg) == e - d;
    Commute(to - from, Over(e, leg));
    Commute(to - from, Over(d, leg));
    Difference(Over(e, leg), Over(d, leg), to - from);
    Commute(share, to - from);
    AbsTimes(to - from, share);
    Ordered(Abs(to - from), Times(leg, slope), share);
    Commute(Times(leg, slope), share);
    Associate(share, leg, slope);
  }

  lemma LegEnds(from: real, to: real, leg: real)
    requires leg > 0.0
    ensures Blend(from, to, Over(0.0, leg)) == from && Blend(from, to, Over(leg, leg)) == to
  {
    hide Times, Over;
    Units(to - from);
    OverUnits(leg);
    Commute(to - from, 0.0);
    Commute(to - from, 1.0);
  }

  /** One step of the search. */
  lemma PlaceStep(ws: seq<Waypoint>, hypot: (real, real) -> real, axis: Axis, i: nat, d: real)
    requires i < |ws|
    ensures var leg := Leg(ws, hypot, i);
      Place(ws, hypot, axis, i, d) ==
      if leg <= 0.0 then Place(ws, hypot, axis, i + 1, d)
      else if d <= leg then Blend(On(Point(ws, i), axis), On(Point(ws, i + 1), axis), Over(d, leg))
      else Place(ws, hypot, axis, i + 1, d - leg)
  {
    hide Times, Over, Blend, Leg, Point, On, Find;
    FindStep(ws, hypot, i, d);
  }

  lemma NoLegLeft(ws: seq<Waypoint>, hypot: (real, real) -> real, axis: Axis)
    requires 0 < |ws|
    ensures forall d :: Place(ws, hypot, axis, |ws|, d) == On(ws[0], axis)
  {
  }

  lemma RestStep(ws: seq<Waypoint>, hypot: (real, real) -> real, i: nat)
    requires i < |ws|
    ensures Rest(ws, hypot, i) == Leg(ws, hypot, i) + Rest(ws, hypot, i + 1)
  {
    hide Leg;
  }

  // ----- All the way round

  /** The way round starts where the next leg with length does. */
  lemma {:induction false} WayStarts(ws: seq<Waypoint>, hypot: (real, real) -> real, axis: Axis, i: nat)
    requires 0 < |ws| && i <= |ws| && IsLength(hypot) && Upcoming(ws, i) < |ws|
    ensures Place(ws, hypot, axis, i, 0.0) == On(Point(ws, Upcoming(ws, i)), axis)
    decreases |ws| - i
  {
    hide Times, Over, Blend, Place, Point, Leg, On, IsLength, HasLength;
    LegLength(ws, hypot, i);
    PlaceStep(ws, hypot, axis, i, 0.0);
    if HasLength(ws, i) {
      LegEnds(On(Point(ws, i), axis), On(Point(ws, i + 1), axis), Leg(ws, hypot, i));
    } else {
      WayStarts(ws, hypot, axis, i + 1);
    }
  }

  /** Where legs join, the way round ends where it starts. */
  lemma {:induction false} WayEnds(ws: seq<Waypoint>, hypot: (real, real) -> real, axis: Axis, i: nat)
    requires 0 < |ws| && i <= |ws| && IsLength(hypot) && Upcoming(ws, i) < |ws| && Joins(ws, axis)
    ensures Place(ws, hypot, axis, i, Rest(ws, hypot, i)) == On(Entry(ws, |ws|), axis)
    decreases |ws| - i
  {
    hide Times, Over, Blend, Place, Point, Leg, On, IsLength, HasLength, Rest, Upcoming, Joins, Entry;
    LegLength(ws, hypot, i);
    RestStep(ws, hypot, i);
    RestUpcoming(ws, hypot, i + 1);
    PlaceStep(ws, hypot, axis, i, Rest(ws, hypot, i));
    LastEntry(ws, axis, i);
    if Upcoming(ws, i + 1) < |ws| {
      WayEnds(ws, hypot, axis, i + 1);
    } else {
      LegEnds(On(Point(ws, i), axis), On(Point(ws, i + 1), axis), Leg(ws, hypot, i));
    }
  }

  lemma LastEntry(ws: seq<Waypoint>, axis: Axis, i: nat)
    requires i < |ws| && Joins(ws, axis) && Upcoming(ws, i) < |ws|
    ensures Upcoming(ws, i + 1) == |ws| ==>
      HasLength(ws, i) && On(Point(ws, i + 1), axis) == On(Entry(ws, |ws|), axis)
  {
    hide Point, On, HasLength;
    assert HasLength(ws, i) ==> LegJoins(ws, axis, i);
  }

  /** A coordinate that no leg changes faster than `slope` changes no faster along the whole way round, if legs join. */
  lemma {:induction false} WayIsSmooth(ws: seq<Waypoint>, hypot: (real, real) -> real, axis: Axis, slope: real,
                                       i: nat, d: real, e: real)
    requires 0 < |ws| && i <= |ws| && IsLength(hypot) && slope >= 0.0 && Smooth(ws, hypot, axis, slope)
    requires 0.0 <= d <= e <= Rest(ws, hypot, i)
    ensures Abs(Place(ws, hypot, axis, i, d) - Place(ws, hypot, axis, i, e)) <= Times(e - d, slope)
    decreases |ws| - i
  {
    hide Times, Over, Blend, Joins, IsLength, Place, Point, Leg, On, Rest, Upcoming, HasLength, LegIsGentle;
    if i == |ws| {
      NoLegLeft(ws, hypot, axis);
      Units(slope);
      Ordered(0.0, e - d, slope);
    } else {
      var leg := Leg(ws, hypot, i);
      LegLength(ws, hypot, i);
      RestStep(ws, hypot, i);
      PlaceStep(ws, hypot, axis, i, d);
      PlaceStep(ws, hypot, axis, i, e);
      if leg <= 0.0 {
        WayIsSmooth(ws, hypot, axis, slope, i + 1, d, e);
      } else if d > leg {
        WayIsSmooth(ws, hypot, axis, slope, i + 1, d - leg, e - leg);
      } else {
        FromLeg(ws, hypot, axis, slope, i, d, if e <= leg then e else leg);
        if e > leg {
          LegEnds(On(Point(ws, i), axis), On(Point(ws, i + 1), axis), leg);
          NextLegStarts(ws, hypot, axis, i);
          WayIsSmooth(ws, hypot, axis, slope, i + 1, 0.0, e - leg);
          Sum(leg - d, e - leg, slope);
        }
      }
    }
  }

  lemma NextLegStarts(ws: seq<Waypoint>, hypot: (real, real) -> real, axis: Axis, i: nat)
    requires i < |ws| && IsLength(hypot) && Joins(ws, axis) && HasLength(ws, i) && Rest(ws, hypot, i + 1) > 0.0
    ensures Place(ws, hypot, axis, i + 1, 0.0) == On(Point(ws, i + 1), axis)
  {
    hide Place, Point, On, Rest, HasLength, IsLength, Upcoming;
    RestUpcoming(ws, hypot, i + 1);
    WayStarts(ws, hypot, axis, i + 1);
  }

  lemma FromLeg(ws: seq<Waypoint>, hypot: (real, real) -> real, axis: Axis, slope: real, i: nat, d: real, e: real)
    requires i < |ws| && slope >= 0.0 && Smooth(ws, hypot, axis, slope) && HasLength(ws, i)
    requires 0.0 <= d <= e <= Leg(ws, hypot, i) && Leg(ws, hypot, i) > 0.0
    ensures var leg, from, to := Leg(ws, hypot, i), On(Point(ws, i), axis), On(Point(ws, i + 1), axis);
      Abs(Blend(from, to, Over(d, leg)) - Blend(from, to, Over(e, leg))) <= Times(e - d, slope)
  {
    hide Times, Over, Blend, Leg, Point, On, Joins, HasLength;
    assert LegIsGentle(ws, hypot, axis, slope, i);
    AlongLeg(On(Point(ws, i), axis), On(Point(ws, i + 1), axis), Leg(ws, hypot, i), slope, d, e);
  }

  lemma LoopIsSmooth(ws: seq<Waypoint>, hypot: (real, real) -> real, axis: Axis, slope: real, u: real, v: real,
      gap: real)
    requires |ws| > 0 && IsLength(hypot) && slope >= 0.0 && Smooth(ws, hypot, axis, slope) && gap >= 0.0
    requires var total := Rest(ws, hypot, 0);
      0.0 <= u < total && 0.0 <= v < total && Follows(u, v, total, gap)
    ensures Abs(Place(ws, hypot, axis, 0, u) - Place(ws, hypot, axis, 0, v)) <= Times(gap, slope)
  {
    hide Times, Place, Joins, IsLength, Rest, Leg, On, Point, HasLength, LegIsGentle;
    var total := Rest(ws, hypot, 0);
    if u <= v && v - u == gap {
      WayIsSmooth(ws, hypot, axis, slope, 0, u, v);
    } else {
      WayIsSmooth(ws, hypot, axis, slope, 0, u, total);
      WayIsSmooth(ws, hypot, axis, slope, 0, 0.0, v);
      RestUpcoming(ws, hypot, 0);
      WayStarts(ws, hypot, axis, 0);
      WayEnds(ws, hypot, axis, 0);
      Sum(total - u, v, slope);
      Ordered(total - u + v, gap, slope);
    }
  }

  lemma BoundIs(time: real, speed: real, slope: real)
    ensures Times(Times(time, speed), slope) == time * speed * slope
  {
  }

  lemma CoordinateMoves(p: Plan, x: real, y: real, instance: nat, hypot: (real, real) -> real,
                        bearing: (real, real) -> real, axis: Axis, slope: real)
    requires ValidWaypoints(p) && 0.0 <= x <= y && IsLength(hypot) && slope >= 0.0 && Smooth(p.waypoints, hypot, axis, slope)
    ensures var a, b := WaypointsAt(p, x, instance, hypot, bearing), WaypointsAt(p, y, instance, hypot, bearing);
      Abs(Coordinate(a, axis) - Coordinate(b, axis)) <= Times(Times(y - x, p.speed), slope)
  {
    hide Times, Over, Travelled, Place, Follows, Smooth, IsLength, Abs, Rest, WaypointsAt;
    var ws := p.waypoints;
    LoopHasLength(p, hypot);
    var total, gap := Rest(ws, hypot, 0), Times(y - x, p.speed);
    TravelledApart(total, p.speed, x, y, instance);
    Units(p.speed);
    Ordered(0.0, y - x, p.speed);
    PlacesAre(p, x, instance, hypot, bearing);
    PlacesAre(p, y, instance, hypot, bearing);
    LoopIsSmooth(ws, hypot, axis, slope, Travelled(total, p.speed, x, instance),
        Travelled(total, p.speed, y, instance), gap);
  }

  function Coordinate(m: Moving, axis: Axis): real {
    match axis
    case East => m.east
    case North => m.north
    case Up => m.altitude
  }

  /** An aircraft on a waypoint loop never jumps sideways: for any two times and every instance it moves east and north
      at most as far as its speed allows. If legs with length join in altitude and none is steeper than `slope`, its
      altitude keeps that bound times `slope`. */
  lemma WaypointsAreContinuous(p: Plan, x: real, y: real, instance: nat, hypot: (real, real) -> real,
                               bearing: (real, real) -> real, slope: real)
    requires ValidWaypoints(p) && 0.0 <= x <= y && IsLength(hypot) && slope >= 0.0
    ensures var a, b := WaypointsAt(p, x, instance, hypot, bearing), WaypointsAt(p, y, instance, hypot, bearing);
      Abs(a.east - b.east) <= (y - x) * p.speed && Abs(a.north - b.north) <= (y - x) * p.speed &&
      (Smooth(p.waypoints, hypot, Up, slope) ==> Abs(a.altitude - b.altitude) <= (y - x) * p.speed * slope)
  {
    hide Times, ValidWaypoints, Smooth, IsLength, Abs, WaypointsAt;
    assert |p.waypoints| > 0 by { ValidSpeed(p); }
    HorizontalIsSmooth(p.waypoints, hypot);
    TimesIs(y - x, p.speed);
    BoundIs(y - x, p.speed, slope);
    Units(Times(y - x, p.speed));
    CoordinateMoves(p, x, y, instance, hypot, bearing, East, 1.0);
    CoordinateMoves(p, x, y, instance, hypot, bearing, North, 1.0);
    if Smooth(p.waypoints, hypot, Up, slope) {
      CoordinateMoves(p, x, y, instance, hypot, bearing, Up, slope);
    }
  }

  lemma ValidSpeed(p: Plan)
    requires ValidWaypoints(p)
    ensures p.speed > 0.0 && |p.waypoints| > 0
  {
  }

  // ----- The distance covered on the ground plan

  /** A length that is a norm: it obeys the triangle inequality and scales. */
  ghost predicate IsNorm(hypot: (real, real) -> real) {
    && IsLength(hypot)
    && (forall a, b, c, d :: hypot(a + c, b + d) <= hypot(a, b) + hypot(c, d))
    && (forall x, y, t :: t >= 0.0 ==> hypot(Times(x, t), Times(y, t)) == Times(hypot(x, y), t))
  }

  function Greater(x: real, y: real): real {
    if Abs(x) >= Abs(y) then Abs(x) else Abs(y)
  }

  lemma GreaterScales(x: real, y: real, t: real)
    requires t >= 0.0
    ensures Greater(Times(x, t), Times(y, t)) == Times(Greater(x, y), t)
  {
    hide Times;
    AbsTimes(x, t);
    AbsTimes(y, t);
    if Abs(x) >= Abs(y) {
      Ordered(Abs(y), Abs(x), t);
    } else {
      Ordered(Abs(x), Abs(y), t);
    }
  }

  /** There are such lengths. */
  lemma GreaterIsNorm()
    ensures IsNorm(Greater)
  {
    hide Times;
    forall x, y, t | t >= 0.0 ensures Greater(Times(x, t), Times(y, t)) == Times(Greater(x, y), t) {
      GreaterScales(x, y, t);
    }
  }

  /** How far apart two places of the way round are, as the crow flies. */
  function Span(ws: seq<Waypoint>, hypot: (real, real) -> real, i: nat, d: real, e: real): real
    requires 0 < |ws| && i <= |ws|
  {
    hypot(Place(ws, hypot, East, i, e) - Place(ws, hypot, East, i, d),
          Place(ws, hypot, North, i, e) - Place(ws, hypot, North, i, d))
  }

  lemma Triangle(hypot: (real, real) -> real, a: (real, real), b: (real, real), c: (real, real))
    requires IsNorm(hypot)
    ensures hypot(c.0 - a.0, c.1 - a.1) <= hypot(b.0 - a.0, b.1 - a.1) + hypot(c.0 - b.0, c.1 - b.1)
  {
    hide IsLength;
    var p, q, r, s := b.0 - a.0, b.1 - a.1, c.0 - b.0, c.1 - b.1;
    assert c.0 - a.0 == p + r && c.1 - a.1 == q + s;
    assert hypot(p + r, q + s) <= hypot(p, q) + hypot(r, s);
  }

  lemma BlendMoves(from: real, to: real, a: real, b: real)
    ensures Blend(from, to, b) - Blend(from, to, a) == Times(to - from, b - a)
  {
    hide Times;
    Commute(to - from, a);
    Commute(to - from, b);
    Commute(to - from, b - a);
    Difference(b, a, to - from);
  }

  lemma Scales(hypot: (real, real) -> real, x: real, y: real, t: real)
    requires IsNorm(hypot)
    ensures t >= 0.0 ==> hypot(Times(x, t), Times(y, t)) == Times(hypot(x, y), t)
  {
    hide Times, IsLength;
  }

  lemma SpanOnLeg(from: Waypoint, to: Waypoint, hypot: (real, real) -> real, leg: real, d: real, e: real)
    requires IsNorm(hypot) && 0.0 <= d <= e <= leg && leg > 0.0 && leg == hypot(to.east - from.east, to.north - from.north)
    ensures var a, b := Over(d, leg), Over(e, leg);
      hypot(Blend(from.east, to.east, b) - Blend(from.east, to.east, a),
            Blend(from.north, to.north, b) - Blend(from.north, to.north, a)) == e - d
  {
    hide Times, Over, Blend, IsNorm;
    var a, b := Over(d, leg), Over(e, leg);
    Scales(hypot, to.east - from.east, to.north - from.north, b - a);
    BlendMoves(from.east, to.east, a, b);
    BlendMoves(from.north, to.north, a, b);
    OverOrdered(d, e, leg);
    OverTimes(d, leg);
    OverTimes(e, leg);
    Difference(b, a, leg);
    Commute(b - a, leg);
  }

  lemma SpanFromLeg(ws: seq<Waypoint>, hypot: (real, real) -> real, i: nat, d: real, e: real)
    requires i < |ws| && IsNorm(hypot) && HasLength(ws, i) && 0.0 <= d <= e <= Leg(ws, hypot, i)
    ensures Span(ws, hypot, i, d, e) == e - d
  {
    hide Times, Over, Blend, Place, IsLength, IsNorm, HasLength, Point;
    NormIsLength(hypot);
    LegLength(ws, hypot, i);
    PlaceOnLeg(ws, hypot, i, d);
    PlaceOnLeg(ws, hypot, i, e);
    SpanOnLeg(Point(ws, i), Point(ws, i + 1), hypot, Leg(ws, hypot, i), d, e);
  }

  lemma PlaceOnLeg(ws: seq<Waypoint>, hypot: (real, real) -> real, i: nat, d: real)
    requires i < |ws| && d <= Leg(ws, hypot, i) && Leg(ws, hypot, i) > 0.0
    ensures var from, to, ratio := Point(ws, i), Point(ws, i + 1), Over(d, Leg(ws, hypot, i));
      Place(ws, hypot, East, i, d) == Blend(from.east, to.east, ratio) &&
      Place(ws, hypot, North, i, d) == Blend(from.north, to.north, ratio)
  {
    hide Times, Over, Blend, Place, Point, Leg;
    PlaceStep(ws, hypot, East, i, d);
    PlaceStep(ws, hypot, North, i, d);
  }

  lemma SpanStep(ws: seq<Waypoint>, hypot: (real, real) -> real, i: nat, d: real, e: real)
    requires i < |ws| && IsLength(hypot)
    ensures var leg := Leg(ws, hypot, i);
      (leg <= 0.0 ==> Span(ws, hypot, i, d, e) == Span(ws, hypot, i + 1, d, e)) &&
      (leg > 0.0 && leg < d && leg < e ==> Span(ws, hypot, i, d, e) == Span(ws, hypot, i + 1, d - leg, e - leg)) &&
      (leg > 0.0 && leg < e && HasLength(ws, i) && Rest(ws, hypot, i + 1) > 0.0 ==>
        Span(ws, hypot, i, leg, e) == Span(ws, hypot, i + 1, 0.0, e - leg))
  {
    hide Times, Over, Blend, Place, IsLength, HasLength, Point, Leg, Rest, Smooth;
    var leg := Leg(ws, hypot, i);
    forall axis: Axis | axis.East? || axis.North?
      ensures leg <= 0.0 ==> Place(ws, hypot, axis, i, d) == Place(ws, hypot, axis, i + 1, d)
      ensures leg <= 0.0 ==> Place(ws, hypot, axis, i, e) == Place(ws, hypot, axis, i + 1, e)
      ensures leg > 0.0 && leg < d ==> Place(ws, hypot, axis, i, d) == Place(ws, hypot, axis, i + 1, d - leg)
      ensures leg > 0.0 && leg < e ==> Place(ws, hypot, axis, i, e) == Place(ws, hypot, axis, i + 1, e - leg)
      ensures leg > 0.0 && HasLength(ws, i) && Rest(ws, hypot, i + 1) > 0.0 ==>
        Place(ws, hypot, axis, i, leg) == Place(ws, hypot, axis, i + 1, 0.0)
    {
      PlaceStep(ws, hypot, axis, i, d);
      PlaceStep(ws, hypot, axis, i, e);
      if leg > 0.0 && HasLength(ws, i) && Rest(ws, hypot, i + 1) > 0.0 {
        LegArrivesOn(ws, hypot, axis, i);
      }
    }
  }

  lemma LegArrivesOn(ws: seq<Waypoint>, hypot: (real, real) -> real, axis: Axis, i: nat)
    requires i < |ws| && IsLength(hypot) && !axis.Up? && HasLength(ws, i) && Rest(ws, hypot, i + 1) > 0.0
    requires Leg(ws, hypot, i) > 0.0
    ensures Place(ws, hypot, axis, i, Leg(ws, hypot, i)) == Place(ws, hypot, axis, i + 1, 0.0)
  {
    hide Times, Over, Blend, Place, IsLength, HasLength, Point, Leg, Rest, On, Joins;
    HorizontalIsSmooth(ws, hypot);
    NextLegStarts(ws, hypot, axis, i);
    PlaceStep(ws, hypot, axis, i, Leg(ws, hypot, i));
    LegEnds(On(Point(ws, i), axis), On(Point(ws, i + 1), axis), Leg(ws, hypot, i));
  }

  /** Along the way round no two places are further apart than the way between them. */
  lemma {:induction false} WaySpan(ws: seq<Waypoint>, hypot: (real, real) -> real, i: nat, d: real, e: real)
    requires 0 < |ws| && i <= |ws| && IsNorm(hypot) && 0.0 <= d <= e <= Rest(ws, hypot, i)
    ensures Span(ws, hypot, i, d, e) <= e - d
    decreases |ws| - i
  {
    hide Times, Span, IsNorm, IsLength, Leg, Rest, HasLength;
    assert IsLength(hypot) by { NormIsLength(hypot); }
    if i == |ws| {
      SpanOfNothing(ws, hypot, d, e);
    } else {
      var leg := Leg(ws, hypot, i);
      LegLength(ws, hypot, i);
      RestStep(ws, hypot, i);
      SpanStep(ws, hypot, i, d, e);
      if leg <= 0.0 {
        WaySpan(ws, hypot, i + 1, d, e);
      } else if d > leg {
        WaySpan(ws, hypot, i + 1, d - leg, e - leg);
      } else if e <= leg {
        SpanFromLeg(ws, hypot, i, d, e);
      } else {
        SpanFromLeg(ws, hypot, i, d, leg);
        WaySpan(ws, hypot, i + 1, 0.0, e - leg);
        SpanSplit(ws, hypot, i, d, leg, e);
      }
    }
  }

  lemma NormIsLength(hypot: (real, real) -> real)
    requires IsNorm(hypot)
    ensures IsLength(hypot)
  {
  }

  lemma SpanOfNothing(ws: seq<Waypoint>, hypot: (real, real) -> real, d: real, e: real)
    requires 0 < |ws| && IsLength(hypot)
    ensures Span(ws, hypot, |ws|, d, e) == 0.0
  {
    NoLegLeft(ws, hypot, East);
    NoLegLeft(ws, hypot, North);
  }

  lemma SpanSplit(ws: seq<Waypoint>, hypot: (real, real) -> real, i: nat, a: real, b: real, c: real)
    requires 0 < |ws| && i <= |ws| && IsNorm(hypot)
    ensures Span(ws, hypot, i, a, c) <= Span(ws, hypot, i, a, b) + Span(ws, hypot, i, b, c)
  {
    hide Place, IsNorm;
    Triangle(hypot, (Place(ws, hypot, East, i, a), Place(ws, hypot, North, i, a)),
             (Place(ws, hypot, East, i, b), Place(ws, hypot, North, i, b)),
             (Place(ws, hypot, East, i, c), Place(ws, hypot, North, i, c)));
  }

  lemma RoundSpan(ws: seq<Waypoint>, hypot: (real, real) -> real, u: real, v: real, gap: real)
    requires |ws| > 0 && IsNorm(hypot) && gap >= 0.0 && Rest(ws, hypot, 0) > 0.0
    requires var total := Rest(ws, hypot, 0);
      0.0 <= u < total && 0.0 <= v < total && Follows(u, v, total, gap)
    ensures Span(ws, hypot, 0, u, v) <= gap
  {
    hide IsNorm, Rest, Place, IsLength;
    assert IsLength(hypot) by { NormIsLength(hypot); }
    var total := Rest(ws, hypot, 0);
    if u <= v && v - u == gap {
      WaySpan(ws, hypot, 0, u, v);
    } else {
      WaySpan(ws, hypot, 0, u, total);
      WaySpan(ws, hypot, 0, 0.0, v);
      PlanCloses(ws, hypot);
      SpanSplit(ws, hypot, 0, u, total, v);
    }
  }

  lemma PlanCloses(ws: seq<Waypoint>, hypot: (real, real) -> real)
    requires |ws| > 0 && IsLength(hypot) && Rest(ws, hypot, 0) > 0.0
    ensures Place(ws, hypot, East, 0, Rest(ws, hypot, 0)) == Place(ws, hypot, East, 0, 0.0)
    ensures Place(ws, hypot, North, 0, Rest(ws, hypot, 0)) == Place(ws, hypot, North, 0, 0.0)
  {
    hide Place, Rest, IsLength, LegIsGentle, Joins, Upcoming;
    HorizontalIsSmooth(ws, hypot);
    RestUpcoming(ws, hypot, 0);
    WayStarts(ws, hypot, East, 0);
    WayStarts(ws, hypot, North, 0);
    WayEnds(ws, hypot, East, 0);
    WayEnds(ws, hypot, North, 0);
    assert Entry(ws, |ws|) == Point(ws, Upcoming(ws, 0)) by { RoundEntry(ws); }
  }

  lemma RoundEntry(ws: seq<Waypoint>)
    requires |ws| > 0
    ensures Entry(ws, |ws|) == Point(ws, Upcoming(ws, 0))
  {
  }

  /** For any two times and every instance the distance on the ground plan, not only each axis, is at most what the
      speed allows, round corners and across period ends. */
  lemma WaypointDistanceIsBounded(p: Plan, x: real, y: real, instance: nat, hypot: (real, real) -> real,
                                  bearing: (real, real) -> real)
    requires ValidWaypoints(p) && 0.0 <= x <= y && IsNorm(hypot)
    ensures var a, b := WaypointsAt(p, x, instance, hypot, bearing), WaypointsAt(p, y, instance, hypot, bearing);
      hypot(b.east - a.east, b.north - a.north) <= (y - x) * p.speed
  {
    hide Times, Over, Travelled, Place, Follows, IsNorm, IsLength, Rest, WaypointsAt;
    NormIsLength(hypot);
    LoopHasLength(p, hypot);
    var total, gap := Rest(p.waypoints, hypot, 0), Times(y - x, p.speed);
    TravelledApart(total, p.speed, x, y, instance);
    Units(p.speed);
    Ordered(0.0, y - x, p.speed);
    TimesIs(y - x, p.speed);
    PlacesAre(p, x, instance, hypot, bearing);
    PlacesAre(p, y, instance, hypot, bearing);
    RoundSpan(p.waypoints, hypot, Travelled(total, p.speed, x, instance), Travelled(total, p.speed, y, instance), gap);
  }

  // ----- Altitude: exactly when it does not jump

  /** The altitude changes no faster than `slope` times the speed, at any times. */
  ghost predicate AltitudeKeeps(p: Plan, instance: nat, hypot: (real, real) -> real, bearing: (real, real) -> real,
      slope: real) {
    forall x: real, y: real :: 0.0 <= x <= y ==>
      Abs(WaypointsAt(p, x, instance, hypot, bearing).altitude - WaypointsAt(p, y, instance, hypot, bearing).altitude)
      <= (y - x) * p.speed * slope
  }

  /** The slope of a leg with length. */
  function LegSlope(ws: seq<Waypoint>, hypot: (real, real) -> real, axis: Axis, i: nat): real
    requires i < |ws|
  {
    if Leg(ws, hypot, i) > 0.0 then Over(Abs(On(Point(ws, i + 1), axis) - On(Point(ws, i), axis)), Leg(ws, hypot, i)) else 0.0
  }

  lemma LegSlopeIs(ws: seq<Waypoint>, hypot: (real, real) -> real, axis: Axis, i: nat, slope: real)
    requires i < |ws|
    ensures LegSlope(ws, hypot, axis, i) >= 0.0
    ensures Leg(ws, hypot, i) > 0.0 && LegSlope(ws, hypot, axis, i) <= slope ==> LegIsGentle(ws, hypot, axis, slope, i)
  {
    hide Times, Over, Leg, Point, On;
    var leg := Leg(ws, hypot, i);
    if leg > 0.0 {
      var rise, s := Abs(On(Point(ws, i + 1), axis) - On(Point(ws, i), axis)), LegSlope(ws, hypot, axis, i);
      OverOrdered(0.0, rise, leg);
      OverUnits(leg);
      OverTimes(rise, leg);
      if s <= slope {
        Ordered(s, slope, leg);
        Commute(slope, leg);
      }
    }
  }

  /** The steepest of the first `n` legs. */
  function Steepest(ws: seq<Waypoint>, hypot: (real, real) -> real, axis: Axis, n: nat): real
    requires n <= |ws|
  {
    if n == 0 then 0.0
    else if Steepest(ws, hypot, axis, n - 1) >= LegSlope(ws, hypot, axis, n - 1) then Steepest(ws, hypot, axis, n - 1)
    else LegSlope(ws, hypot, axis, n - 1)
  }

  lemma {:induction false} SteepestBounds(ws: seq<Waypoint>, hypot: (real, real) -> real, axis: Axis, n: nat)
    requires n <= |ws|
    ensures Steepest(ws, hypot, axis, n) >= 0.0
    ensures forall i :: 0 <= i < n ==> LegSlope(ws, hypot, axis, i) <= Steepest(ws, hypot, axis, n)
  {
    hide LegSlope;
    if n == 0 {
    } else {
      SteepestBounds(ws, hypot, axis, n - 1);
    }
  }

  lemma JoinsIsSmooth(ws: seq<Waypoint>, hypot: (real, real) -> real, axis: Axis)
    requires 0 < |ws| && IsLength(hypot) && Joins(ws, axis)
    ensures Steepest(ws, hypot, axis, |ws|) >= 0.0 && Smooth(ws, hypot, axis, Steepest(ws, hypot, axis, |ws|))
  {
    hide LegSlope, LegIsGentle, LegJoins, HasLength, Leg, IsLength;
    SteepestBounds(ws, hypot, axis, |ws|);
    forall i | 0 <= i < |ws| && HasLength(ws, i)
      ensures LegIsGentle(ws, hypot, axis, Steepest(ws, hypot, axis, |ws|), i)
    {
      LegLength(ws, hypot, i);
      LegSlopeIs(ws, hypot, axis, i, Steepest(ws, hypot, axis, |ws|));
    }
  }

  /** A distance from the start of leg `i`, counted from the start of the loop. */
  lemma {:induction false} PlaceShift(ws: seq<Waypoint>, hypot: (real, real) -> real, axis: Axis, i: nat, d: real)
    requires 0 < |ws| && i <= |ws| && IsLength(hypot) && d > 0.0
    ensures Place(ws, hypot, axis, 0, Rest(ws, hypot, 0) - Rest(ws, hypot, i) + d) == Place(ws, hypot, axis, i, d)
    decreases i
  {
    hide Place, Leg, Blend, Over, On, Point, IsLength, Rest;
    if i == 0 {
    } else {
      LegLength(ws, hypot, i - 1);
      RestStep(ws, hypot, i - 1);
      PlaceShift(ws, hypot, axis, i - 1, Leg(ws, hypot, i - 1) + d);
      PlaceStep(ws, hypot, axis, i - 1, Leg(ws, hypot, i - 1) + d);
    }
  }

  lemma {:induction false} PlaceSkips(ws: seq<Waypoint>, hypot: (real, real) -> real, axis: Axis, i: nat, d: real)
    requires 0 < |ws| && i <= |ws| && IsLength(hypot)
    ensures Place(ws, hypot, axis, i, d) == Place(ws, hypot, axis, Upcoming(ws, i), d)
    decreases |ws| - i
  {
    hide Place, Leg, Blend, Over, On, Point, IsLength, HasLength;
    if i == |ws| || HasLength(ws, i) {
    } else {
      LegLength(ws, hypot, i);
      PlaceStep(ws, hypot, axis, i, d);
      PlaceSkips(ws, hypot, axis, i + 1, d);
    }
  }

  /** Near the ends of a leg with length the coordinate is near that of the waypoint. */
  lemma NearEnds(ws: seq<Waypoint>, hypot: (real, real) -> real, axis: Axis, i: nat, e: real)
    requires i < |ws| && IsLength(hypot) && HasLength(ws, i) && 0.0 <= e <= Leg(ws, hypot, i)
    ensures var bound := Times(e, LegSlope(ws, hypot, axis, i));
      Abs(Place(ws, hypot, axis, i, e) - On(Point(ws, i), axis)) <= bound &&
      Abs(Place(ws, hypot, axis, i, Leg(ws, hypot, i) - e) - On(Point(ws, i + 1), axis)) <= bound
  {
    hide Times, Over, Blend, Place, Leg, On, Point, IsLength, HasLength, LegSlope;
    var leg, from, to := Leg(ws, hypot, i), On(Point(ws, i), axis), On(Point(ws, i + 1), axis);
    var slope := LegSlope(ws, hypot, axis, i);
    LegLength(ws, hypot, i);
    LegSlopeIs(ws, hypot, axis, i, slope);
    LegEnds(from, to, leg);
    AlongLeg(from, to, leg, slope, 0.0, e);
    AlongLeg(from, to, leg, slope, leg - e, leg);
    PlaceStep(ws, hypot, axis, i, e);
    PlaceStep(ws, hypot, axis, i, leg - e);
  }

  /** The altitude a distance along the loop, the whole way round being the start again. */
  function AltitudeAt(ws: seq<Waypoint>, hypot: (real, real) -> real, d: real): real
    requires 0 < |ws|
  {
    Place(ws, hypot, Up, 0, if d < Rest(ws, hypot, 0) then d else 0.0)
  }

  lemma AltitudeAtTime(p: Plan, instance: nat, hypot: (real, real) -> real, bearing: (real, real) -> real, d: real)
    requires ValidWaypoints(p) && IsLength(hypot) && 0.0 <= d <= Rest(p.waypoints, hypot, 0)
    ensures var x := TimeOf(Rest(p.waypoints, hypot, 0), p.speed, d, instance);
      x >= 0.0 && WaypointsAt(p, x, instance, hypot, bearing).altitude == AltitudeAt(p.waypoints, hypot, d)
  {
    hide Travelled, TimeOf, Place, Rest, IsLength, WaypointsAt;
    LoopHasLength(p, hypot);
    var total := Rest(p.waypoints, hypot, 0);
    TravelledAt(total, p.speed, d, instance);
    PlacesAre(p, TimeOf(total, p.speed, d, instance), instance, hypot, bearing);
  }

  lemma KeepsAlongLoop(p: Plan, instance: nat, hypot: (real, real) -> real, bearing: (real, real) -> real, slope: real,
                       d: real, e: real)
    requires ValidWaypoints(p) && IsLength(hypot) && AltitudeKeeps(p, instance, hypot, bearing, slope)
    requires 0.0 <= d <= e <= Rest(p.waypoints, hypot, 0)
    ensures Abs(AltitudeAt(p.waypoints, hypot, d) - AltitudeAt(p.waypoints, hypot, e)) <= Times(e - d, slope)
  {
    hide TimeOf, AltitudeAt, Rest, IsLength, WaypointsAt, ValidWaypoints, Times, Abs;
    assert p.speed > 0.0 && |p.waypoints| > 0 by { ValidSpeed(p); }
    var total := Rest(p.waypoints, hypot, 0);
    var x, y := TimeOf(total, p.speed, d, instance), TimeOf(total, p.speed, e, instance);
    AltitudeAtTime(p, instance, hypot, bearing, d);
    AltitudeAtTime(p, instance, hypot, bearing, e);
    TimesBetween(total, p.speed, d, e, instance);
    BoundIs(y - x, p.speed, slope);
  }

  lemma AltitudeInside(ws: seq<Waypoint>, hypot: (real, real) -> real, d: real)
    requires 0 < |ws|
    ensures AltitudeAt(ws, hypot, d) == if d < Rest(ws, hypot, 0) then Place(ws, hypot, Up, 0, d)
        else Place(ws, hypot, Up, 0, 0.0)
  {
    hide Place, Rest;
  }

  /** A leg with length ends at its last waypoint. */
  lemma LegArrives(ws: seq<Waypoint>, hypot: (real, real) -> real, i: nat)
    requires i < |ws| && IsLength(hypot) && HasLength(ws, i)
    ensures var u := Rest(ws, hypot, 0) - Rest(ws, hypot, i + 1);
      0.0 < u <= Rest(ws, hypot, 0) && Place(ws, hypot, Up, 0, u) == On(Point(ws, i + 1), Up)
  {
    hide Times, Over, Blend, Place, Leg, On, Point, IsLength, HasLength, Rest;
    LegLength(ws, hypot, i);
    RestStep(ws, hypot, i);
    RestShrinks(ws, hypot, 0, i);
    RestUpcoming(ws, hypot, i + 1);
    PlaceShift(ws, hypot, Up, i, Leg(ws, hypot, i));
    PlaceStep(ws, hypot, Up, i, Leg(ws, hypot, i));
    LegEnds(On(Point(ws, i), Up), On(Point(ws, i + 1), Up), Leg(ws, hypot, i));
  }

  /** The next leg with length departs from its first waypoint. */
  lemma LegDeparts(ws: seq<Waypoint>, hypot: (real, real) -> real, i: nat, e: real)
    requires i <= |ws| && 0 < |ws| && IsLength(hypot) && Upcoming(ws, i) < |ws|
    requires 0.0 < e <= Leg(ws, hypot, Upcoming(ws, i))
    ensures var j := Upcoming(ws, i);
      e <= Rest(ws, hypot, i) &&
      Abs(Place(ws, hypot, Up, 0, Rest(ws, hypot, 0) - Rest(ws, hypot, i) + e) - On(Point(ws, j), Up))
        <= Times(e, LegSlope(ws, hypot, Up, j))
  {
    hide Times, Place, Leg, On, Point, IsLength, HasLength, LegSlope, Rest, Abs;
    var j := Upcoming(ws, i);
    RestShrinks(ws, hypot, i, j);
    RestStep(ws, hypot, j);
    RestUpcoming(ws, hypot, j + 1);
    PlaceShift(ws, hypot, Up, i, e);
    PlaceSkips(ws, hypot, Up, i, e);
    NearEnds(ws, hypot, Up, j, e);
  }

  /** Where a leg meets the next leg with length within the round. */
  lemma JumpAhead(ws: seq<Waypoint>, hypot: (real, real) -> real, i: nat, e: real)
    requires i < |ws| && IsLength(hypot) && HasLength(ws, i) && Upcoming(ws, i + 1) < |ws|
    requires 0.0 < e < Leg(ws, hypot, Upcoming(ws, i + 1))
    ensures var j := Upcoming(ws, i + 1);
      var u := Rest(ws, hypot, 0) - Rest(ws, hypot, i + 1);
      0.0 < u && u + e < Rest(ws, hypot, 0) && AltitudeAt(ws, hypot, u) == On(Point(ws, i + 1), Up) &&
      Abs(AltitudeAt(ws, hypot, u + e) - On(Point(ws, j), Up)) <= Times(e, LegSlope(ws, hypot, Up, j))
  {
    hide Times, Place, Leg, On, Point, IsLength, HasLength, LegSlope, Rest, Upcoming, Abs, AltitudeAt;
    var u := Rest(ws, hypot, 0) - Rest(ws, hypot, i + 1);
    LegArrives(ws, hypot, i);
    LegDeparts(ws, hypot, i + 1, e);
    LegDeparts(ws, hypot, i + 1, Leg(ws, hypot, Upcoming(ws, i + 1)));
    AltitudeInside(ws, hypot, u);
    AltitudeInside(ws, hypot, u + e);
  }

  lemma {:induction false} RestShrinks(ws: seq<Waypoint>, hypot: (real, real) -> real, i: nat, j: nat)
    requires i <= j <= |ws| && 0 < |ws| && IsLength(hypot)
    ensures Rest(ws, hypot, j) <= Rest(ws, hypot, i)
    decreases j - i
  {
    hide Rest, Leg, HasLength, IsLength;
    if i == j {
    } else {
      LegLength(ws, hypot, i);
      RestStep(ws, hypot, i);
      RestShrinks(ws, hypot, i + 1, j);
    }
  }

  /** Where the last leg with length meets the first one, a round later. */
  lemma JumpRound(ws: seq<Waypoint>, hypot: (real, real) -> real, i: nat, e: real)
    requires i < |ws| && IsLength(hypot) && HasLength(ws, i) && Upcoming(ws, i + 1) == |ws|
    requires 0.0 < e < Leg(ws, hypot, i)
    ensures var total := Rest(ws, hypot, 0);
      e <= total && AltitudeAt(ws, hypot, total) == On(Entry(ws, i + 1), Up) &&
      Abs(AltitudeAt(ws, hypot, total - e) - On(Point(ws, i + 1), Up)) <= Times(e, LegSlope(ws, hypot, Up, i))
  {
    hide Times, Place, Leg, On, Point, IsLength, HasLength, LegSlope, Rest, Upcoming, Abs, AltitudeAt, Entry;
    RoundStarts(ws, hypot, i);
    LastLeg(ws, hypot, i, e);
    AltitudeInside(ws, hypot, Rest(ws, hypot, 0) - e);
  }

  lemma RoundStarts(ws: seq<Waypoint>, hypot: (real, real) -> real, i: nat)
    requires i < |ws| && IsLength(hypot) && HasLength(ws, i) && Upcoming(ws, i + 1) == |ws|
    ensures AltitudeAt(ws, hypot, Rest(ws, hypot, 0)) == On(Entry(ws, i + 1), Up)
  {
    hide Place, Leg, On, Point, IsLength, HasLength, Rest, AltitudeAt;
    AltitudeInside(ws, hypot, Rest(ws, hypot, 0));
    WayStarts(ws, hypot, Up, 0);
  }

  lemma LastLeg(ws: seq<Waypoint>, hypot: (real, real) -> real, i: nat, e: real)
    requires i < |ws| && IsLength(hypot) && HasLength(ws, i) && Upcoming(ws, i + 1) == |ws|
    requires 0.0 < e < Leg(ws, hypot, i)
    ensures var total := Rest(ws, hypot, 0);
      e <= total &&
      Abs(Place(ws, hypot, Up, 0, total - e) - On(Point(ws, i + 1), Up)) <= Times(e, LegSlope(ws, hypot, Up, i))
  {
    hide Times, Place, Leg, On, Point, IsLength, HasLength, LegSlope, Rest, Upcoming, Abs;
    RestStep(ws, hypot, i);
    RestUpcoming(ws, hypot, i + 1);
    RestShrinks(ws, hypot, 0, i);
    PlaceShift(ws, hypot, Up, i, Leg(ws, hypot, i) - e);
    NearEnds(ws, hypot, Up, i, e);
  }

  lemma KeepsJoinsAhead(p: Plan, instance: nat, hypot: (real, real) -> real, bearing: (real, real) -> real,
      slope: real, i: nat)
    requires ValidWaypoints(p) && IsLength(hypot) && slope >= 0.0 && AltitudeKeeps(p, instance, hypot, bearing, slope)
    requires i < |p.waypoints| && HasLength(p.waypoints, i) && Upcoming(p.waypoints, i + 1) < |p.waypoints|
    ensures LegJoins(p.waypoints, Up, i)
  {
    hide Times, Leg, On, Point, IsLength, HasLength, LegSlope, Rest, Upcoming, AltitudeKeeps, AltitudeAt,
        ValidWaypoints;
    var ws := p.waypoints;
    var j := Upcoming(ws, i + 1);
    var step := Abs(On(Point(ws, i + 1), Up) - On(Point(ws, j), Up));
    if step > 0.0 {
      var s := LegSlope(ws, hypot, Up, j);
      LegSlopeIs(ws, hypot, Up, j, s);
      LegLength(ws, hypot, j);
      var e := SmallEnough(step, slope + s, Leg(ws, hypot, j) / 2.0);
      var u := Rest(ws, hypot, 0) - Rest(ws, hypot, i + 1);
      JumpAhead(ws, hypot, i, e);
      KeepsAlongLoop(p, instance, hypot, bearing, slope, u, u + e);
      Commute(e, slope + s);
      Sum(slope, s, e);
      Commute(slope, e);
      Commute(s, e);
    }
  }

  lemma KeepsJoinsRound(p: Plan, instance: nat, hypot: (real, real) -> real, bearing: (real, real) -> real,
      slope: real, i: nat)
    requires ValidWaypoints(p) && IsLength(hypot) && slope >= 0.0 && AltitudeKeeps(p, instance, hypot, bearing, slope)
    requires i < |p.waypoints| && HasLength(p.waypoints, i) && Upcoming(p.waypoints, i + 1) == |p.waypoints|
    ensures LegJoins(p.waypoints, Up, i)
  {
    hide Times, Leg, On, Point, IsLength, HasLength, LegSlope, Rest, Upcoming, AltitudeKeeps, AltitudeAt,
        ValidWaypoints, Entry;
    var ws := p.waypoints;
    var step := Abs(On(Point(ws, i + 1), Up) - On(Entry(ws, i + 1), Up));
    if step > 0.0 {
      var s := LegSlope(ws, hypot, Up, i);
      LegSlopeIs(ws, hypot, Up, i, s);
      LegLength(ws, hypot, i);
      var e := SmallEnough(step, slope + s, Leg(ws, hypot, i) / 2.0);
      var total := Rest(ws, hypot, 0);
      JumpRound(ws, hypot, i, e);
      KeepsAlongLoop(p, instance, hypot, bearing, slope, total - e, total);
      Commute(e, slope + s);
      Sum(slope, s, e);
      Commute(slope, e);
      Commute(s, e);
    }
  }

  /** When the altitude does not jump: some slope bounds it at all times if and only if each leg with length ends at the
      altitude at which the next leg with length starts, going round the loop. */
  lemma AltitudeIsContinuousExactly(p: Plan, instance: nat, hypot: (real, real) -> real, bearing: (real, real) -> real)
    requires ValidWaypoints(p) && IsLength(hypot)
    ensures (exists slope :: slope >= 0.0 && AltitudeKeeps(p, instance, hypot, bearing, slope)) <==> Joins(p.waypoints, Up)
  {
    hide ValidWaypoints, IsLength, LegJoins, HasLength, Smooth;
    var ws := p.waypoints;
    assert |ws| > 0 by { ValidSpeed(p); }
    if Joins(ws, Up) {
      JoinsIsSmooth(ws, hypot, Up);
      SmoothKeeps(p, instance, hypot, bearing, Steepest(ws, hypot, Up, |ws|));
    }
    if slope :| slope >= 0.0 && AltitudeKeeps(p, instance, hypot, bearing, slope) {
      forall i | 0 <= i < |ws| && HasLength(ws, i) ensures LegJoins(ws, Up, i) {
        if Upcoming(ws, i + 1) < |ws| {
          KeepsJoinsAhead(p, instance, hypot, bearing, slope, i);
        } else {
          KeepsJoinsRound(p, instance, hypot, bearing, slope, i);
        }
      }
    }
  }

  lemma SmoothKeeps(p: Plan, instance: nat, hypot: (real, real) -> real, bearing: (real, real) -> real, slope: real)
    requires ValidWaypoints(p) && IsLength(hypot) && slope >= 0.0 && Smooth(p.waypoints, hypot, Up, slope)
    ensures AltitudeKeeps(p, instance, hypot, bearing, slope)
  {
    hide ValidWaypoints, IsLength, Smooth, WaypointsAt, Abs;
    forall x: real, y: real | 0.0 <= x <= y
      ensures Abs(WaypointsAt(p, x, instance, hypot, bearing).altitude - WaypointsAt(p, y, instance, hypot, bearing).altitude)
        <= (y - x) * p.speed * slope
    {
      WaypointsAreContinuous(p, x, y, instance, hypot, bearing, slope);
    }
  }

  const TOWER := [Waypoint(0.0, 0.0, 0.0), Waypoint(10.0, 0.0, 0.0), Waypoint(10.0, 0.0, 50.0)]

  lemma TowerLegs()
    ensures HasLength(TOWER, 0) && !HasLength(TOWER, 1) && HasLength(TOWER, 2)
    ensures Upcoming(TOWER, 1) == 2 && Point(TOWER, 1).up == 0.0 && Point(TOWER, 2).up == 50.0
  {
    assert Upcoming(TOWER, 2) == 2;
  }

  lemma TowerIsValid(p: Plan)
    requires p.waypoints == TOWER && p.speed > 0.0
    ensures ValidWaypoints(p)
  {
    TowerLegs();
  }

  /** A valid loop whose altitude jumps: at two times as close together as one likes it is 0 and above 40 metres. */
  lemma TowerJumps(p: Plan, instance: nat, hypot: (real, real) -> real, bearing: (real, real) -> real, bit: real)
      returns (x: real, y: real)
    requires p.waypoints == TOWER && p.speed > 0.0 && IsLength(hypot) && bit > 0.0
    ensures ValidWaypoints(p) && 0.0 <= x <= y <= x + bit
    ensures WaypointsAt(p, x, instance, hypot, bearing).altitude == 0.0
    ensures WaypointsAt(p, y, instance, hypot, bearing).altitude > 40.0
  {
    hide Times, Leg, Point, IsLength, HasLength, LegSlope, Rest, Upcoming, AltitudeAt, TimeOf, WaypointsAt,
        ValidWaypoints;
    TowerIsValid(p);
    TowerLegs();
    LegLength(TOWER, hypot, 2);
    LegSlopeIs(TOWER, hypot, Up, 2, 0.0);
    StrictlyOrdered(0.0, bit, p.speed);
    Units(p.speed);
    var last, reach := Leg(TOWER, hypot, 2), Times(bit, p.speed);
    var e := SmallEnough(10.0, LegSlope(TOWER, hypot, Up, 2), if reach < last / 2.0 then reach else last / 2.0);
    var total := Rest(TOWER, hypot, 0);
    var u := total - Rest(TOWER, hypot, 1);
    JumpAhead(TOWER, hypot, 0, e);
    AltitudeAtTime(p, instance, hypot, bearing, u);
    AltitudeAtTime(p, instance, hypot, bearing, u + e);
    x, y := TimeOf(total, p.speed, u, instance), TimeOf(total, p.speed, u + e, instance);
    TimesBetween(total, p.speed, u, u + e, instance);
    if y - x > bit {
      StrictlyOrdered(bit, y - x, p.speed);
    }
  }

  const MAST := [Waypoint(0.0, 0.0, 0.0), Waypoint(10.0, 0.0, 0.0), Waypoint(10.0, 0.0, 50.0), Waypoint(10.0, 0.0, 0.0)]

  lemma MastLegs()
    ensures HasLength(MAST, 0) && !HasLength(MAST, 1) && !HasLength(MAST, 2) && HasLength(MAST, 3)
    ensures Entry(MAST, 1).up == 0.0 && Entry(MAST, 4).up == 0.0
  {
    assert Upcoming(MAST, 3) == 3;
    assert Upcoming(MAST, 2) == 3;
    assert Upcoming(MAST, 1) == 3;
    assert Upcoming(MAST, 4) == 4 && Upcoming(MAST, 0) == 0;
  }

  lemma MastIsSmooth(hypot: (real, real) -> real)
    requires IsLength(hypot)
    ensures Smooth(MAST, hypot, Up, 0.0)
  {
    hide Times, Leg, HasLength, Upcoming, Entry;
    MastLegs();
    Units(Leg(MAST, hypot, 0));
    Units(Leg(MAST, hypot, 3));
  }

  /** Legs straight up and down do no harm by themselves: here the altitude is the same at all times. */
  lemma MastIsNotClimbed(p: Plan, x: real, y: real, instance: nat, hypot: (real, real) -> real,
      bearing: (real, real) -> real)
    requires p.waypoints == MAST && p.speed > 0.0 && IsLength(hypot) && 0.0 <= x <= y
    ensures ValidWaypoints(p)
    ensures WaypointsAt(p, x, instance, hypot, bearing).altitude == WaypointsAt(p, y, instance, hypot, bearing).altitude
  {
    hide IsLength, HasLength, Smooth, WaypointsAt;
    MastLegs();
    MastIsSmooth(hypot);
    WaypointsAreContinuous(p, x, y, instance, hypot, bearing, 0.0);
  }
}
