/** Trajectories over the reals: periodic motion along lines, rectangles and missions. The sine and cosine of a line's
    heading are parameters; what is assumed of them is said where it is needed. */
module Motion {
  datatype Waypoint = Waypoint(east: real, north: real, up: real)

  datatype Plan = Plan(
    altitude: real, speed: real, heading: real, primarySize: real, secondarySize: real,
    verticalSpeed: real, cruiseTimeMs: nat, waypoints: seq<Waypoint>)

  datatype Moving = Moving(
    east: real, north: real, altitude: real, horizontalSpeed: real, verticalSpeed: real, heading: real, airborne: bool)

  const AT_REST: Moving := Moving(0.0, 0.0, 0.0, 0.0, 0.0, 0.0, false)

  // ----- Products and quotients of reals, named so that the proofs below can treat them as linear

  function Times(a: real, b: real): real {
    a * b
  }

  function Over(x: real, d: real): real
    requires d != 0.0
  {
    x / d
  }

  lemma TimesIs(a: real, b: real)
    ensures Times(a, b) == a * b
  {
  }

  lemma OverTimes(x: real, d: real)
    requires d != 0.0
    ensures Times(Over(x, d), d) == x
  {
  }

  lemma Ordered(a: real, b: real, c: real)
    requires a <= b && c >= 0.0
    ensures Times(a, c) <= Times(b, c)
  {
  }

  lemma StrictlyOrdered(a: real, b: real, c: real)
    requires a < b && c > 0.0
    ensures Times(a, c) < Times(b, c)
  {
  }

  lemma Sum(a: real, b: real, c: real)
    ensures Times(a + b, c) == Times(a, c) + Times(b, c)
  {
  }

  lemma Difference(a: real, b: real, c: real)
    ensures Times(a - b, c) == Times(a, c) - Times(b, c)
  {
  }

  lemma Units(a: real)
    ensures Times(0.0, a) == 0.0 && Times(1.0, a) == a && Times(a, 1.0) == a && Times(a, 0.0) == 0.0
  {
  }

  lemma Commute(a: real, b: real)
    ensures Times(a, b) == Times(b, a)
  {
  }

  lemma Associate(a: real, b: real, c: real)
    ensures Times(Times(a, b), c) == Times(a, Times(b, c))
  {
    assert (a * b) * c == a * (b * c);
  }

  lemma OverOrdered(x: real, y: real, d: real)
    requires x <= y && d > 0.0
    ensures Over(x, d) <= Over(y, d)
  {
    hide Times, Over;
    OverTimes(x, d);
    OverTimes(y, d);
    if Over(y, d) < Over(x, d) {
      StrictlyOrdered(Over(y, d), Over(x, d), d);
    }
  }

  lemma OverUnits(d: real)
    requires d > 0.0
    ensures Over(0.0, d) == 0.0 && Over(d, d) == 1.0
  {
    hide Times, Over;
    Units(d);
    QuotientIs(0.0, d, 0.0);
    QuotientIs(d, d, 1.0);
  }

  lemma QuotientIs(x: real, d: real, q: real)
    requires d > 0.0 && x == Times(q, d)
    ensures Over(x, d) == q
  {
    hide Times, Over;
    OverTimes(x, d);
    if Over(x, d) < q {
      StrictlyOrdered(Over(x, d), q, d);
    } else if Over(x, d) > q {
      StrictlyOrdered(q, Over(x, d), d);
    }
  }

  lemma OverBounds(x: real, d: real)
    requires 0.0 <= x <= d && 0.0 < d
    ensures 0.0 <= Over(x, d) <= 1.0
  {
    OverOrdered(0.0, x, d);
    OverOrdered(x, d, d);
  }

  lemma OverPositive(x: real, d: real)
    requires x > 0.0 && d > 0.0
    ensures Over(x, d) > 0.0
  {
    hide Times, Over;
    OverTimes(x, d);
    Units(d);
    if Over(x, d) <= 0.0 {
      Ordered(Over(x, d), 0.0, d);
    }
  }

  function Abs(x: real): real {
    if x < 0.0 then -x else x
  }

  lemma AbsTimes(x: real, factor: real)
    ensures Abs(Times(x, factor)) == Times(Abs(x), Abs(factor))
  {
  }

  // ----- Periods and phases

  /** The remainder of a division by a positive period that rounds the quotient down. */
  function Remainder(x: real, period: real): real
    requires period > 0.0
  {
    x - Times(Cycles(x, period) as real, period)
  }

  function Cycles(x: real, period: real): int
    requires period > 0.0
  {
    Over(x, period).Floor
  }

  lemma RemainderBounds(x: real, period: real)
    requires period > 0.0
    ensures 0.0 <= Remainder(x, period) < period
  {
    hide Times, Over;
    var q := Over(x, period);
    var k := Cycles(x, period) as real;
    assert k <= q < k + 1.0;
    OverTimes(x, period);
    Ordered(k, q, period);
    StrictlyOrdered(q, k + 1.0, period);
    Sum(k, 1.0, period);
    Units(period);
  }

  /** The C library's remainder: it has the sign of `x`. */
  function Fmod(x: real, period: real): real
    requires period > 0.0
  {
    if x < 0.0 then -Remainder(-x, period) else Remainder(x, period)
  }

  function NormalizeHeading(heading: real): real {
    var normalized := Fmod(heading, 360.0);
    if normalized < 0.0 then normalized + 360.0 else normalized
  }

  function Turned(heading: real, turns: int): real {
    heading + Times(turns as real, 360.0)
  }

  /** A normalized heading is the one direction between 0 and 360 degrees that differs by whole turns. */
  lemma HeadingIsNormalized(heading: real)
    ensures 0.0 <= NormalizeHeading(heading) < 360.0
    ensures exists turns: int :: NormalizeHeading(heading) == Turned(heading, turns)
  {
    RemainderBounds(heading, 360.0);
    RemainderBounds(-heading, 360.0);
    var k, j := Cycles(heading, 360.0), Cycles(-heading, 360.0);
    if heading >= 0.0 {
      assert NormalizeHeading(heading) == Turned(heading, -k);
    } else if Remainder(-heading, 360.0) == 0.0 {
      assert NormalizeHeading(heading) == Turned(heading, j);
    } else {
      assert NormalizeHeading(heading) == Turned(heading, j + 1);
    }
  }

  /** Instances are spread over one period in fiftieths. */
  function Offset(period: real, instance: nat): real {
    Times(period, (instance % 50) as real / 50.0)
  }

  function PositivePhase(seconds: real, period: real, instance: nat): real
    requires seconds >= 0.0
  {
    if period <= 0.0 then 0.0
    else Fmod(seconds + Offset(period, instance), period)
  }

  lemma PhaseIsRemainder(seconds: real, period: real, instance: nat)
    requires seconds >= 0.0 && period > 0.0
    ensures PositivePhase(seconds, period, instance) == Remainder(seconds + Offset(period, instance), period)
    ensures 0.0 <= PositivePhase(seconds, period, instance) < period
  {
    hide Times, Remainder;
    var x := seconds + Offset(period, instance);
    Ordered(0.0, period, (instance % 50) as real / 50.0);
    Units((instance % 50) as real / 50.0);
    RemainderBounds(x, period);
  }

  /** Between two times either the phase advances by the time between them, or a period end lies between. */
  lemma CyclesApart(x: real, y: real, period: real)
    requires period > 0.0 && x <= y
    ensures Follows(Remainder(x, period), Remainder(y, period), period, y - x)
  {
    hide Times, Over;
    OverOrdered(x, y, period);
    var j, k := Cycles(x, period), Cycles(y, period);
    assert j <= k;
    if j < k {
      Ordered((j + 1) as real, k as real, period);
      Sum(j as real, 1.0, period);
      Units(period);
    }
  }

  /** Going round a loop of length `total` by `gap` leads from `u` to `v`. */
  predicate Follows(u: real, v: real, total: real, gap: real) {
    (u <= v && v - u == gap) || total - u + v <= gap
  }

  lemma PhasesApart(x: real, y: real, period: real, instance: nat, speed: real)
    requires 0.0 <= x <= y && period > 0.0 && speed > 0.0
    ensures var u, v := Times(PositivePhase(x, period, instance), speed), Times(PositivePhase(y, period, instance), speed);
      0.0 <= u < Times(period, speed) && 0.0 <= v < Times(period, speed) &&
      Follows(u, v, Times(period, speed), Times(y - x, speed))
  {
    hide Times, Over, Remainder, PositivePhase, Offset;
    var offset := Offset(period, instance);
    PhaseIsRemainder(x, period, instance);
    PhaseIsRemainder(y, period, instance);
    var a, b := PositivePhase(x, period, instance), PositivePhase(y, period, instance);
    CyclesApart(x + offset, y + offset, period);
    assert Follows(a, b, period, y - x);
    Units(speed);
    Ordered(0.0, a, speed);
    Ordered(0.0, b, speed);
    StrictlyOrdered(a, period, speed);
    StrictlyOrdered(b, period, speed);
    if a <= b && b - a == y - x {
      Ordered(a, b, speed);
      Difference(b, a, speed);
    } else {
      Sum(period - a, b, speed);
      Difference(period, a, speed);
      Ordered(period - a + b, y - x, speed);
    }
  }

  /** The way made along a loop of length `total` since its start. */
  function Travelled(total: real, speed: real, seconds: real, instance: nat): real
    requires seconds >= 0.0
  {
    Times(PositivePhase(seconds, if speed > 0.0 then Over(total, speed) else 0.0, instance), speed)
  }

  lemma TravelledApart(total: real, speed: real, x: real, y: real, instance: nat)
    requires 0.0 <= x <= y && total > 0.0 && speed > 0.0
    ensures var u, v := Travelled(total, speed, x, instance), Travelled(total, speed, y, instance);
      0.0 <= u < total && 0.0 <= v < total && Follows(u, v, total, Times(y - x, speed))
  {
    hide Times, Over, PositivePhase;
    OverPositive(total, speed);
    OverTimes(total, speed);
    PhasesApart(x, y, Over(total, speed), instance, speed);
  }

  lemma CycleIs(x: real, period: real, k: int)
    requires period > 0.0 && Times(k as real, period) <= x < Times(k as real, period) + period
    ensures Remainder(x, period) == x - Times(k as real, period)
  {
    hide Times, Over;
    var q := Over(x, period);
    OverTimes(x, period);
    Sum(k as real, 1.0, period);
    Units(period);
    if q < k as real {
      StrictlyOrdered(q, k as real, period);
    } else if q >= k as real + 1.0 {
      Ordered(k as real + 1.0, q, period);
    }
    assert q.Floor == k;
  }

  /** A time at which an instance has made a given way along a loop; the whole way round is no way again. */
  function TimeOf(total: real, speed: real, distance: real, instance: nat): real
    requires speed > 0.0
  {
    Over(distance, speed) + Over(total, speed) - Offset(Over(total, speed), instance)
  }

  lemma OffsetBounds(period: real, instance: nat)
    requires period > 0.0
    ensures 0.0 <= Offset(period, instance) <= period
  {
    hide Times;
    var share := (instance % 50) as real / 50.0;
    Commute(period, share);
    Units(period);
    Ordered(0.0, share, period);
    Ordered(share, 1.0, period);
  }

  lemma TravelledAt(total: real, speed: real, distance: real, instance: nat)
    requires total > 0.0 && speed > 0.0 && 0.0 <= distance <= total
    ensures TimeOf(total, speed, distance, instance) >= 0.0
    ensures Travelled(total, speed, TimeOf(total, speed, distance, instance), instance) ==
      if distance < total then distance else 0.0
  {
    hide Times, Over, Remainder, Offset, PositivePhase;
    var period, time := Over(total, speed), TimeOf(total, speed, distance, instance);
    OverPositive(total, speed);
    OffsetBounds(period, instance);
    OverOrdered(0.0, distance, speed);
    OverUnits(speed);
    OverOrdered(distance, total, speed);
    OverTimes(distance, speed);
    OverTimes(total, speed);
    PhaseIsRemainder(time, period, instance);
    Units(period);
    Units(speed);
    Sum(1.0, 1.0, period);
    if distance < total {
      CycleIs(time + Offset(period, instance), period, 1);
    } else {
      CycleIs(time + Offset(period, instance), period, 2);
    }
  }

  lemma TimesBetween(total: real, speed: real, d: real, e: real, instance: nat)
    requires speed > 0.0 && d <= e
    ensures var x, y := TimeOf(total, speed, d, instance), TimeOf(total, speed, e, instance);
      x <= y && Times(y - x, speed) == e - d
  {
    hide Times, Over, Offset;
    OverOrdered(d, e, speed);
    OverTimes(d, speed);
    OverTimes(e, speed);
    Difference(Over(e, speed), Over(d, speed), speed);
  }

  /** A multiple of something small enough is small. */
  lemma SmallEnough(a: real, k: real, limit: real) returns (e: real)
    requires a > 0.0 && k >= 0.0 && limit > 0.0
    ensures 0.0 < e <= limit && Times(e, k) < a
  {
    hide Times, Over;
    if Times(limit, k) < a {
      e := limit;
    } else {
      Units(limit);
      Commute(limit, k);
      assert k > 0.0;
      e := Over(a, 2.0 * k);
      OverPositive(a, 2.0 * k);
      OverTimes(a, 2.0 * k);
      Commute(e, k + k);
      Sum(k, k, e);
      Commute(k, e);
      assert Times(e, k) == a / 2.0;
      if limit < e {
        Ordered(limit, e, k);
      }
    }
  }

  // ----- Lines

  /** Back and forth over `length`. */
  function LinePosition(length: real, travelled: real): real {
    if travelled > length then 2.0 * length - travelled else travelled
  }

  function SampleLine(p: Plan, seconds: real, instance: nat, sine: real, cosine: real): Moving
    requires seconds >= 0.0
  {
    var length := p.primarySize;
    var travelled := Travelled(2.0 * length, p.speed, seconds, instance);
    var returning := travelled > length;
    var position := LinePosition(length, travelled);
    Moving(Times(position, sine), Times(position, cosine), p.altitude, p.speed, 0.0,
           NormalizeHeading(p.heading + if returning then 180.0 else 0.0), p.altitude > 0.0)
  }

  predicate ValidLine(p: Plan) {
    p.primarySize > 0.0 && p.speed > 0.0 && p.altitude >= 0.0 && 0.0 <= p.heading < 360.0
  }

  lemma LineMoves(length: real, u: real, v: real, gap: real)
    requires 0.0 <= u < 2.0 * length && 0.0 <= v < 2.0 * length && gap >= 0.0 && Follows(u, v, 2.0 * length, gap)
    ensures Abs(LinePosition(length, u) - LinePosition(length, v)) <= gap
  {
  }

  /** The component of a movement along an axis is no longer than the movement. */
  lemma Projected(u: real, v: real, factor: real)
    requires -1.0 <= factor <= 1.0
    ensures Abs(Times(u, factor) - Times(v, factor)) <= Abs(u - v)
  {
    hide Times;
    Difference(u, v, factor);
    AbsTimes(u - v, factor);
    Commute(Abs(u - v), Abs(factor));
    Ordered(Abs(factor), 1.0, Abs(u - v));
    Units(Abs(u - v));
  }

  /** An aircraft on a line never jumps: for any two times and every instance, it moves on each axis at most as far
      as its speed allows, also across turns and period ends. */
  lemma LineIsContinuous(p: Plan, x: real, y: real, instance: nat, sine: real, cosine: real)
    requires ValidLine(p) && 0.0 <= x <= y && -1.0 <= sine <= 1.0 && -1.0 <= cosine <= 1.0
    ensures var a, b := SampleLine(p, x, instance, sine, cosine), SampleLine(p, y, instance, sine, cosine);
      Abs(a.east - b.east) <= (y - x) * p.speed && Abs(a.north - b.north) <= (y - x) * p.speed && a.altitude == b.altitude
  {
    hide Times, Over, Travelled, NormalizeHeading, LinePosition, Abs, Follows;
    var length := p.primarySize;
    TimesIs(y - x, p.speed);
    TravelledApart(2.0 * length, p.speed, x, y, instance);
    Units(p.speed);
    Ordered(0.0, y - x, p.speed);
    var u, v := Travelled(2.0 * length, p.speed, x, instance), Travelled(2.0 * length, p.speed, y, instance);
    LineMoves(length, u, v, Times(y - x, p.speed));
    Projected(LinePosition(length, u), LinePosition(length, v), sine);
    Projected(LinePosition(length, u), LinePosition(length, v), cosine);
  }

  // ----- Rectangles

  function RectangleEast(width: real, height: real, distance: real): real {
    if distance < width then -width / 2.0 + distance
    else if distance < width + height then width / 2.0
    else if distance < 2.0 * width + height then width / 2.0 - (distance - width - height)
    else -width / 2.0
  }

  function RectangleNorth(width: real, height: real, distance: real): real {
    if distance < width then -height / 2.0
    else if distance < width + height then -height / 2.0 + (distance - width)
    else if distance < 2.0 * width + height then height / 2.0
    else height / 2.0 - (distance - 2.0 * width - height)
  }

  function RectangleHeading(width: real, height: real, distance: real): real {
    if distance < width then 90.0
    else if distance < width + height then 0.0
    else if distance < 2.0 * width + height then 270.0
    else 180.0
  }

  function Perimeter(p: Plan): real {
    2.0 * (p.primarySize + p.secondarySize)
  }

  function RectangleAt(p: Plan, seconds: real, instance: nat): Moving
    requires seconds >= 0.0
  {
    var width, height, distance := p.primarySize, p.secondarySize, Travelled(Perimeter(p), p.speed, seconds, instance);
    Moving(RectangleEast(width, height, distance), RectangleNorth(width, height, distance), p.altitude, p.speed, 0.0,
           RectangleHeading(width, height, distance), p.altitude > 0.0)
  }

  method SampleRectangle(p: Plan, seconds: real, instance: nat) returns (motion: Moving)
    requires seconds >= 0.0
    ensures motion == RectangleAt(p, seconds, instance)
  {
    hide Times, Over, PositivePhase;
    var width, height := p.primarySize, p.secondarySize;
    var perimeter := 2.0 * (width + height);
    var period := if p.speed > 0.0 then Over(perimeter, p.speed) else 0.0;
    var distance := Times(PositivePhase(seconds, period, instance), p.speed);
    motion := AT_REST.(altitude := p.altitude, horizontalSpeed := p.speed, airborne := p.altitude > 0.0);
    if distance < width {
      motion := motion.(east := -width / 2.0 + distance, north := -height / 2.0, heading := 90.0);
      return;
    }
    distance := distance - width;
    if distance < height {
      motion := motion.(east := width / 2.0, north := -height / 2.0 + distance, heading := 0.0);
      return;
    }
    distance := distance - height;
    if distance < width {
      motion := motion.(east := width / 2.0 - distance, north := height / 2.0, heading := 270.0);
      return;
    }
    distance := distance - width;
    motion := motion.(east := -width / 2.0, north := height / 2.0 - distance, heading := 180.0);
  }

  predicate ValidRectangle(p: Plan) {
    p.primarySize > 0.0 && p.secondarySize > 0.0 && p.speed > 0.0 && p.altitude >= 0.0
  }

  /** Along the perimeter the two axes together move no further than the way made. */
  lemma RectangleMoves(w: real, h: real, u: real, v: real, gap: real)
    requires w > 0.0 && h > 0.0 && gap >= 0.0
    requires 0.0 <= u < 2.0 * (w + h) && 0.0 <= v < 2.0 * (w + h) && Follows(u, v, 2.0 * (w + h), gap)
    ensures Abs(RectangleEast(w, h, u) - RectangleEast(w, h, v)) +
            Abs(RectangleNorth(w, h, u) - RectangleNorth(w, h, v)) <= gap
  {
  }

  /** An aircraft on a rectangle never jumps: for any two times and every instance its axes together move at most as
      far as its speed allows, also round corners and across period ends. */
  lemma RectangleIsContinuous(p: Plan, x: real, y: real, instance: nat)
    requires ValidRectangle(p) && 0.0 <= x <= y
    ensures var a, b := RectangleAt(p, x, instance), RectangleAt(p, y, instance);
      Abs(a.east - b.east) + Abs(a.north - b.north) <= (y - x) * p.speed && a.altitude == b.altitude
  {
    hide Times, Over, Travelled, RectangleEast, RectangleNorth, RectangleHeading, Abs, Follows;
    TimesIs(y - x, p.speed);
    TravelledApart(Perimeter(p), p.speed, x, y, instance);
    Units(p.speed);
    Ordered(0.0, y - x, p.speed);
    RectangleMoves(p.primarySize, p.secondarySize, Travelled(Perimeter(p), p.speed, x, instance),
                   Travelled(Perimeter(p), p.speed, y, instance), Times(y - x, p.speed));
  }

  /** One round runs through the outline: it reaches the points of the outline and no others, each at one distance
      only, with the corners in the order south-west, south-east, north-east, north-west. */
  lemma RectangleIsTheOutline(w: real, h: real, east: real, north: real)
    requires w > 0.0 && h > 0.0
    ensures (exists d :: 0.0 <= d < 2.0 * (w + h) && RectangleEast(w, h, d) == east && RectangleNorth(w, h, d) == north) <==>
            ((Abs(east) == w / 2.0 && Abs(north) <= h / 2.0) || (Abs(north) == h / 2.0 && Abs(east) <= w / 2.0))
    ensures forall d, e :: 0.0 <= d < e < 2.0 * (w + h) ==>
      RectangleEast(w, h, d) != RectangleEast(w, h, e) || RectangleNorth(w, h, d) != RectangleNorth(w, h, e)
    ensures RectangleEast(w, h, w) == w / 2.0 && RectangleNorth(w, h, w) == -h / 2.0
    ensures RectangleEast(w, h, w + h) == w / 2.0 && RectangleNorth(w, h, w + h) == h / 2.0
    ensures RectangleEast(w, h, 2.0 * w + h) == -w / 2.0 && RectangleNorth(w, h, 2.0 * w + h) == h / 2.0
  {
    if (Abs(east) == w / 2.0 && Abs(north) <= h / 2.0) || (Abs(north) == h / 2.0 && Abs(east) <= w / 2.0) {
      var d := if north == -h / 2.0 && east < w / 2.0 then east + w / 2.0
               else if east == w / 2.0 && north < h / 2.0 then w + north + h / 2.0
               else if north == h / 2.0 && east > -w / 2.0 then w + h + w / 2.0 - east
               else 2.0 * w + h + h / 2.0 - north;
      assert 0.0 <= d < 2.0 * (w + h) && RectangleEast(w, h, d) == east && RectangleNorth(w, h, d) == north;
    }
  }

  // ----- Missions: climb, cruise at a height, land

  function ClimbTime(p: Plan): real {
    if p.verticalSpeed > 0.0 then Over(p.altitude, p.verticalSpeed) else 0.0
  }

  function CruiseTime(p: Plan): real {
    p.cruiseTimeMs as real / 1000.0
  }

  function MissionPeriod(p: Plan): real {
    2.0 * ClimbTime(p) + CruiseTime(p)
  }

  function MissionAt(p: Plan, seconds: real, instance: nat): Moving
    requires seconds >= 0.0
  {
    var climb, cruise, period := ClimbTime(p), CruiseTime(p), MissionPeriod(p);
    var phase := PositivePhase(seconds, period, instance);
    if phase <= 0.0 || period <= 0.0 then AT_REST
    else
      var motion := if phase < climb then
          AT_REST.(altitude := Times(phase, p.verticalSpeed), verticalSpeed := p.verticalSpeed)
        else if phase < climb + cruise then
          AT_REST.(altitude := p.altitude)
        else
          AT_REST.(altitude := p.altitude - Times(phase - climb - cruise, p.verticalSpeed), verticalSpeed := -p.verticalSpeed);
      motion.(airborne := motion.altitude > 0.0)
  }

  method SampleMission(p: Plan, seconds: real, instance: nat) returns (motion: Moving)
    requires seconds >= 0.0
    ensures motion == MissionAt(p, seconds, instance)
  {
    hide Times, Over, PositivePhase;
    var climb := if p.verticalSpeed > 0.0 then Over(p.altitude, p.verticalSpeed) else 0.0;
    var cruise := p.cruiseTimeMs as real / 1000.0;
    var period := 2.0 * climb + cruise;
    var phase := PositivePhase(seconds, period, instance);
    motion := AT_REST;
    if phase <= 0.0 || period <= 0.0 {
      return;
    }
    if phase < climb {
      motion := motion.(altitude := Times(phase, p.verticalSpeed), verticalSpeed := p.verticalSpeed);
    } else if phase < climb + cruise {
      motion := motion.(altitude := p.altitude);
    } else {
      motion := motion.(altitude := p.altitude - Times(phase - climb - cruise, p.verticalSpeed),
                        verticalSpeed := -p.verticalSpeed);
    }
    motion := motion.(airborne := motion.altitude > 0.0);
  }

  predicate ValidMission(p: Plan) {
    p.altitude > 0.0 && p.verticalSpeed > 0.0
  }

  /** The height after a way `u` made at climbing speed: up to `top`, level for `plateau`, and down again. */
  function Trapezoid(top: real, plateau: real, u: real): real {
    if u < top then u else if u < top + plateau then top else 2.0 * top + plateau - u
  }

  lemma TrapezoidMoves(top: real, plateau: real, u: real, v: real, gap: real)
    requires top > 0.0 && plateau >= 0.0 && gap >= 0.0
    requires 0.0 <= u < 2.0 * top + plateau && 0.0 <= v < 2.0 * top + plateau && Follows(u, v, 2.0 * top + plateau, gap)
    ensures Abs(Trapezoid(top, plateau, u) - Trapezoid(top, plateau, v)) <= gap
  {
  }

  lemma OrderedBoth(a: real, b: real, c: real)
    requires c > 0.0
    ensures a < b <==> Times(a, c) < Times(b, c)
  {
    hide Times;
    if a < b {
      StrictlyOrdered(a, b, c);
    } else {
      Ordered(b, a, c);
    }
  }

  lemma MissionLoop(p: Plan)
    requires ValidMission(p)
    ensures Times(ClimbTime(p), p.verticalSpeed) == p.altitude && ClimbTime(p) > 0.0
    ensures Times(CruiseTime(p), p.verticalSpeed) >= 0.0 && MissionPeriod(p) > 0.0
    ensures Times(MissionPeriod(p), p.verticalSpeed) == 2.0 * p.altitude + Times(CruiseTime(p), p.verticalSpeed)
  {
    hide Times, Over;
    var climb, cruise, speed := ClimbTime(p), CruiseTime(p), p.verticalSpeed;
    OverTimes(p.altitude, speed);
    OverPositive(p.altitude, speed);
    Units(speed);
    Ordered(0.0, cruise, speed);
    Sum(climb, climb, speed);
    Sum(climb + climb, cruise, speed);
    assert climb + climb + cruise == MissionPeriod(p);
  }

  lemma MissionHeight(p: Plan, seconds: real, instance: nat)
    requires ValidMission(p) && seconds >= 0.0
    ensures var u := Times(PositivePhase(seconds, MissionPeriod(p), instance), p.verticalSpeed);
      MissionAt(p, seconds, instance).altitude == Trapezoid(p.altitude, Times(CruiseTime(p), p.verticalSpeed), u)
  {
    hide Times, Over, PositivePhase, MissionPeriod, CruiseTime, ClimbTime;
    MissionLoop(p);
    var climb, cruise, speed := ClimbTime(p), CruiseTime(p), p.verticalSpeed;
    var phase := PositivePhase(seconds, MissionPeriod(p), instance);
    PhaseIsRemainder(seconds, MissionPeriod(p), instance);
    Units(speed);
    OrderedBoth(phase, climb, speed);
    OrderedBoth(phase, climb + cruise, speed);
    Sum(climb, cruise, speed);
    Difference(phase, climb, speed);
    Difference(phase - climb, cruise, speed);
  }

  /** A mission never jumps: for any two times and every instance its altitude changes at most as far as the vertical
      speed allows, also over the landing and the next take-off, and it stays between the ground and its height. */
  lemma MissionIsContinuous(p: Plan, x: real, y: real, instance: nat)
    requires ValidMission(p) && 0.0 <= x <= y
    ensures var a, b := MissionAt(p, x, instance), MissionAt(p, y, instance);
      Abs(a.altitude - b.altitude) <= (y - x) * p.verticalSpeed && 0.0 <= a.altitude <= p.altitude &&
      a.east == b.east == a.north == b.north == 0.0
  {
    hide Times, Over, PositivePhase, MissionPeriod, CruiseTime, ClimbTime, Abs, Follows;
    MissionLoop(p);
    MissionHeight(p, x, instance);
    MissionHeight(p, y, instance);
    TimesIs(y - x, p.verticalSpeed);
    Units(p.verticalSpeed);
    Ordered(0.0, y - x, p.verticalSpeed);
    PhasesApart(x, y, MissionPeriod(p), instance, p.verticalSpeed);
    TrapezoidMoves(p.altitude, Times(CruiseTime(p), p.verticalSpeed),
                   Times(PositivePhase(x, MissionPeriod(p), instance), p.verticalSpeed),
                   Times(PositivePhase(y, MissionPeriod(p), instance), p.verticalSpeed), Times(y - x, p.verticalSpeed));
  }
}
