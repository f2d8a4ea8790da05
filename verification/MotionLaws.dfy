/** Where an aircraft is at every time, in numbers: the way it has made since its start modulo the loop, and place, heading
    and speeds as functions of that way. */
module MotionLaws {
  import opened Motion
  import opened Waypoints
  import opened WaypointSafety

  // ----- The way made

  lemma CyclesMake(x: real, period: real)
    requires period > 0.0
    ensures x == Remainder(x, period) + Times(Cycles(x, period) as real, period)
  {
    hide Times;
  }

  /** The instance's share of a round. */
  function Share(instance: nat): real {
    (instance % 50) as real / 50.0
  }

  /** A phase is the time since the start, put forward by the instance's fiftieth of a period, less whole periods. */
  lemma PhaseIs(seconds: real, period: real, instance: nat) returns (rounds: int)
    requires seconds >= 0.0 && period > 0.0
    ensures var phase := PositivePhase(seconds, period, instance);
      0.0 <= phase < period && seconds + period * Share(instance) == phase + rounds as real * period
  {
    hide Times, Remainder, PositivePhase;
    var x := seconds + Offset(period, instance);
    PhaseIsRemainder(seconds, period, instance);
    CyclesMake(x, period);
    rounds := Cycles(x, period);
    TimesIs(rounds as real, period);
    TimesIs(period, Share(instance));
    OffsetIs(period, instance);
  }

  lemma OffsetIs(period: real, instance: nat)
    ensures Offset(period, instance) == Times(period, Share(instance))
  {
  }

  /** The way made along a loop is what the speed makes of the time, put forward by the instance's fiftieth of the loop, less
      whole rounds. So instances follow each other a fiftieth of the loop apart. */
  lemma WayMade(total: real, speed: real, seconds: real, instance: nat) returns (rounds: int)
    requires seconds >= 0.0 && total > 0.0 && speed > 0.0
    ensures var way := Travelled(total, speed, seconds, instance);
      0.0 <= way < total && seconds * speed + total * Share(instance) == way + rounds as real * total
  {
    hide Times, Over, Remainder, PositivePhase, Offset;
    var period := Over(total, speed);
    OverPositive(total, speed);
    OverTimes(total, speed);
    var x := seconds + Offset(period, instance);
    PhaseIsRemainder(seconds, period, instance);
    CyclesMake(x, period);
    OffsetIs(period, instance);
    rounds := Cycles(x, period);
    TravelledApart(total, speed, seconds, seconds, instance);
    var phase, share, n := Remainder(x, period), Share(instance), rounds as real;
    Sum(seconds, Times(period, share), speed);
    Sum(phase, Times(n, period), speed);
    Associate(n, period, speed);
    Commute(period, share);
    Associate(share, period, speed);
    Commute(share, total);
    TimesIs(seconds, speed);
    TimesIs(total, share);
    TimesIs(n, total);
  }

  // ----- Lines

  /** On a line the way leads out and back: at a way d of at most the length the aircraft is d out, heading as given; on the
      way back it is as far from the start as it has still to go, heading the opposite way. */
  lemma LineIs(p: Plan, seconds: real, instance: nat, sine: real, cosine: real)
    requires seconds >= 0.0
    ensures var m := SampleLine(p, seconds, instance, sine, cosine);
      var way := Travelled(2.0 * p.primarySize, p.speed, seconds, instance);
      var back := way > p.primarySize;
      var out := if back then 2.0 * p.primarySize - way else way;
      && m.east == out * sine && m.north == out * cosine && m.altitude == p.altitude
      && m.horizontalSpeed == p.speed && m.verticalSpeed == 0.0 && (m.airborne <==> p.altitude > 0.0)
      && m.heading == NormalizeHeading(p.heading + if back then 180.0 else 0.0)
  {
    hide Travelled, NormalizeHeading, Times;
    var way := Travelled(2.0 * p.primarySize, p.speed, seconds, instance);
    var out := if way > p.primarySize then 2.0 * p.primarySize - way else way;
    TimesIs(out, sine);
    TimesIs(out, cosine);
  }

  // ----- Rectangles

  /** The motion on a rectangle, and the side it is on: south, east, north, west, counted from 0. */
  function Side(w: real, h: real, way: real): nat {
    if way < w then 0 else if way < w + h then 1 else if way < w + h + w then 2 else 3
  }

  lemma RectangleIs(p: Plan, seconds: real, instance: nat)
    requires seconds >= 0.0
    ensures var m := RectangleAt(p, seconds, instance);
      var w, h, way := p.primarySize, p.secondarySize,
        Travelled(2.0 * (p.primarySize + p.secondarySize), p.speed, seconds, instance);
      && m.altitude == p.altitude && m.horizontalSpeed == p.speed && m.verticalSpeed == 0.0
      && (m.airborne <==> p.altitude > 0.0)
      && (m.east, m.north, m.heading) ==
           match Side(w, h, way)
           case 0 => (way - w / 2.0, -h / 2.0, 90.0)
           case 1 => (w / 2.0, (way - w) - h / 2.0, 0.0)
           case 2 => (w / 2.0 - (way - w - h), h / 2.0, 270.0)
           case _ => (-w / 2.0, h / 2.0 - (way - w - h - w), 180.0)
  {
    hide Travelled;
  }

  /** On each side the aircraft moves the way it is heading: a further bit of way on the same side is a move of that
      length to the east (90 degrees), north (0), west (270) or south (180). */
  lemma RectangleHeads(w: real, h: real, way: real, bit: real)
    requires bit >= 0.0 && Side(w, h, way) == Side(w, h, way + bit) && w > 0.0 && h > 0.0
    ensures var east := RectangleEast(w, h, way + bit) - RectangleEast(w, h, way);
      var north := RectangleNorth(w, h, way + bit) - RectangleNorth(w, h, way);
      var heading := RectangleHeading(w, h, way);
      && heading in {0.0, 90.0, 180.0, 270.0}
      && (heading == 90.0 ==> east == bit && north == 0.0) && (heading == 0.0 ==> east == 0.0 && north == bit)
      && (heading == 270.0 ==> east == -bit && north == 0.0) && (heading == 180.0 ==> east == 0.0 && north == -bit)
  {
  }

  // ----- Missions

  /** The altitude of a mission at a phase of its round: on the ground at the start, then climbing at the vertical speed,
      level at its height for the cruise time, and sinking at the vertical speed. */
  function Flown(height: real, speed: real, climb: real, cruise: real, phase: real): real {
    if phase <= 0.0 then 0.0
    else if phase < climb then phase * speed
    else if phase < climb + cruise then height
    else height - (phase - climb - cruise) * speed
  }

  /** The vertical speed that goes with it. */
  function Climbing(speed: real, climb: real, cruise: real, phase: real): real {
    if phase <= 0.0 then 0.0 else if phase < climb then speed else if phase < climb + cruise then 0.0 else -speed
  }

  /** A mission flies like this at every time, with a climb that takes its height over the vertical speed; it never moves
      sideways, and is airborne off the ground. */
  lemma MissionIs(p: Plan, seconds: real, instance: nat)
    requires ValidMission(p) && seconds >= 0.0
    ensures var climb, cruise := p.altitude / p.verticalSpeed, p.cruiseTimeMs as real / 1000.0;
      var phase := PositivePhase(seconds, 2.0 * climb + cruise, instance);
      var m := MissionAt(p, seconds, instance);
      && m.east == m.north == m.horizontalSpeed == m.heading == 0.0 && (m.airborne <==> m.altitude > 0.0)
      && m.altitude == Flown(p.altitude, p.verticalSpeed, climb, cruise, phase)
      && m.verticalSpeed == Climbing(p.verticalSpeed, climb, cruise, phase)
  {
    hide Times, Over, PositivePhase, Flown;
    OverIs(p.altitude, p.verticalSpeed);
    MissionLoop(p);
    MissionBranches(p, seconds, instance, ClimbTime(p), CruiseTime(p), PositivePhase(seconds, MissionPeriod(p), instance));
  }

  lemma MissionBranches(p: Plan, seconds: real, instance: nat, climb: real, cruise: real, phase: real)
    requires ValidMission(p) && seconds >= 0.0 && climb == ClimbTime(p) && cruise == CruiseTime(p)
    requires phase == PositivePhase(seconds, MissionPeriod(p), instance) && MissionPeriod(p) > 0.0
    ensures var m := MissionAt(p, seconds, instance);
      && m.east == m.north == m.horizontalSpeed == m.heading == 0.0 && (m.airborne <==> m.altitude > 0.0)
      && m.altitude == Flown(p.altitude, p.verticalSpeed, climb, cruise, phase)
      && m.verticalSpeed == Climbing(p.verticalSpeed, climb, cruise, phase)
  {
    hide Times, Over, PositivePhase, ClimbTime, CruiseTime, MissionPeriod, Flown;
    FlownIs(p.altitude, p.verticalSpeed, climb, cruise, phase);
  }

  lemma FlownIs(height: real, speed: real, climb: real, cruise: real, phase: real)
    ensures Flown(height, speed, climb, cruise, phase) ==
      if phase <= 0.0 then 0.0
      else if phase < climb then Times(phase, speed)
      else if phase < climb + cruise then height
      else height - Times(phase - climb - cruise, speed)
  {
  }

  lemma OverIs(x: real, d: real)
    requires d != 0.0
    ensures Over(x, d) == x / d
  {
  }

  // ----- Waypoint loops

  /** The search gives the leg on which a way ends: what lies before it and the way along it make up the way. */
  lemma {:induction false} FindIs(ws: seq<Waypoint>, hypot: (real, real) -> real, i: nat, way: real)
    requires 0 < |ws| && i <= |ws| && IsLength(hypot)
    requires 0.0 <= way <= Rest(ws, hypot, i) && Rest(ws, hypot, i) > 0.0
    ensures var (j, d) := Find(ws, hypot, i, way);
      j < |ws| && 0.0 <= d <= Leg(ws, hypot, j) && Leg(ws, hypot, j) > 0.0 &&
      Rest(ws, hypot, i) - Rest(ws, hypot, j) + d == way
    decreases |ws| - i
  {
    hide Leg, Rest, Find, IsLength;
    if i == |ws| {
      NothingRests(ws, hypot);
    } else {
      FindStep(ws, hypot, i, way);
      RestStep(ws, hypot, i);
      LegLength(ws, hypot, i);
      var leg := Leg(ws, hypot, i);
      if leg <= 0.0 {
        FindIs(ws, hypot, i + 1, way);
      } else if way > leg {
        FindIs(ws, hypot, i + 1, way - leg);
      }
    }
  }

  /** On a valid waypoint loop the aircraft is, at every time, as far along a leg with length as the way it has made says:
      in proportion between the two waypoints on every axis, heading along the leg, and rising as the leg does. */
  lemma WaypointMotionIs(p: Plan, seconds: real, instance: nat, hypot: (real, real) -> real, bearing: (real, real) -> real)
      returns (j: nat, d: real)
    requires ValidWaypoints(p) && seconds >= 0.0 && IsLength(hypot)
    ensures j < |p.waypoints|
    ensures var ws := p.waypoints;
      var from, to := ws[j], ws[if j + 1 == |ws| then 0 else j + 1];
      var leg := hypot(to.east - from.east, to.north - from.north);
      var m := WaypointsAt(p, seconds, instance, hypot, bearing);
      && 0.0 <= d <= leg && leg > 0.0
      && Travelled(Rest(ws, hypot, 0), p.speed, seconds, instance) == Rest(ws, hypot, 0) - Rest(ws, hypot, j) + d
      && m.east == from.east + (to.east - from.east) * (d / leg)
      && m.north == from.north + (to.north - from.north) * (d / leg)
      && m.altitude == from.up + (to.up - from.up) * (d / leg) && (m.airborne <==> m.altitude > 0.0)
      && m.horizontalSpeed == p.speed && m.verticalSpeed == (to.up - from.up) * p.speed / leg
      && m.heading == NormalizeHeading(bearing(to.east - from.east, to.north - from.north))
  {
    hide Times, Over, Travelled, NormalizeHeading, Rest, Find, WaypointsAt, OnLeg, IsLength;
    var ws := p.waypoints;
    LoopHasLength(p, hypot);
    var total := Rest(ws, hypot, 0);
    var way := Travelled(total, p.speed, seconds, instance);
    TravelledApart(total, p.speed, seconds, seconds, instance);
    FindIs(ws, hypot, 0, way);
    MotionIs(p, seconds, instance, hypot, bearing);
    j, d := Find(ws, hypot, 0, way).0, Find(ws, hypot, 0, way).1;
    LegMotion(p, hypot, bearing, j, d);
    var from, to, leg := Point(ws, j), Point(ws, j + 1), Leg(ws, hypot, j);
    OverIs(d, leg);
    TimesIs(to.east - from.east, Over(d, leg));
    TimesIs(to.north - from.north, Over(d, leg));
    TimesIs(to.up - from.up, Over(d, leg));
    TimesIs(to.up - from.up, p.speed);
    OverIs(Times(to.up - from.up, p.speed), leg);
  }

  /** The legs from waypoint `i` on are together as long as the one at `i` and those behind it. */
  lemma RestIs(ws: seq<Waypoint>, hypot: (real, real) -> real, i: nat)
    requires i < |ws|
    ensures var from, to := ws[i], ws[if i + 1 == |ws| then 0 else i + 1];
      Rest(ws, hypot, i) == hypot(to.east - from.east, to.north - from.north) + Rest(ws, hypot, i + 1)
    ensures Rest(ws, hypot, |ws|) == 0.0
  {
    hide Rest;
    RestStep(ws, hypot, i);
    NothingRests(ws, hypot);
  }

  /** Without a loop to fly, the aircraft stands at the first waypoint, or at the origin if there is none. */
  lemma StandsStill(p: Plan, seconds: real, instance: nat, hypot: (real, real) -> real, bearing: (real, real) -> real)
    requires seconds >= 0.0
    requires |p.waypoints| <= 1 || p.speed <= 0.0 || Rest(p.waypoints, hypot, 0) <= 0.0
    ensures var m := WaypointsAt(p, seconds, instance, hypot, bearing);
      m == if p.waypoints == [] then Moving(0.0, 0.0, 0.0, 0.0, 0.0, 0.0, false)
           else
             var w := p.waypoints[0];
             Moving(w.east, w.north, w.up, 0.0, 0.0, 0.0, w.up > 0.0)
  {
    hide WaypointsAt, Rest, Find, OnLeg, Travelled;
    MotionIs(p, seconds, instance, hypot, bearing);
  }
}
