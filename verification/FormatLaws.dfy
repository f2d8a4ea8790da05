/** The stored form of a snapshot, byte by byte, and which payloads decode. */
module FormatLaws {
  import opened Wrappers
  import opened Words
  import opened Config
  import opened Format
  import opened Codec

  /** An optional period: its milliseconds as a little-endian word, or four bytes 0xFF for none. */
  lemma PeriodBytes(p: Option<int>, tail: Bytes)
    requires p.Some? ==> 0 <= p.value < 0x8000_0000
    ensures PutPeriod(p, tail) == (if p.Some? then Le(p.value, 4) else [0xFF, 0xFF, 0xFF, 0xFF]) + tail
  {
    if p.None? {
      LeAt(0xFFFF_FFFF, 4, 0);
      LeAt(0xFFFF_FFFF, 4, 1);
      LeAt(0xFFFF_FFFF, 4, 2);
      LeAt(0xFFFF_FFFF, 4, 3);
      assert Pow256(1) == 0x100 && Pow256(2) == 0x1_0000 && Pow256(3) == 0x100_0000;
      assert Le(0xFFFF_FFFF, 4) == [0xFF, 0xFF, 0xFF, 0xFF];
    }
  }

  /** Little-endian: byte i is the value shifted right by 8 * i bits. */
  lemma LittleEndian(value: nat, width: nat, i: nat)
    requires i < width
    ensures |Le(value, width)| == width && Le(value, width)[i] == value / Pow256(i) % 256
    ensures Pow256(0) == 1 && Pow256(i + 1) == 256 * Pow256(i)
  {
    LeAt(value, width, i);
  }

  function PointBytes(p: EnuPoint): Bytes {
    Le(p.east, 4) + Le(p.north, 4) + Le(p.up, 4)
  }

  function Spread<T>(bytesOf: T -> Bytes, xs: seq<T>): Bytes {
    if xs == [] then [] else bytesOf(xs[0]) + Spread(bytesOf, xs[1..])
  }

  lemma {:induction false} ManyAreSpread<T(!new)>(put: Putter<T>, bytesOf: T -> Bytes, xs: seq<T>, tail: Bytes)
    requires forall x, rest :: x in xs ==> put(x, rest) == bytesOf(x) + rest
    ensures PutMany(put, xs, tail) == Spread(bytesOf, xs) + tail
  {
    if xs == [] {
      assert [] + tail == tail;
    } else {
      ManyAreSpread(put, bytesOf, xs[1..], tail);
      var first, others := bytesOf(xs[0]), Spread(bytesOf, xs[1..]);
      assert (first + others) + tail == first + (others + tail);
    }
  }

  lemma PointsAre(ps: seq<EnuPoint>, tail: Bytes)
    ensures PutMany(PutWaypoint, ps, tail) == Spread(PointBytes, ps) + tail
  {
    hide Le;
    forall p, rest ensures PutWaypoint(p, rest) == PointBytes(p) + rest {
      var a, b, c := Le(p.east, 4), Le(p.north, 4), Le(p.up, 4);
      assert a + (b + (c + rest)) == ((a + b) + c) + rest;
    }
    ManyAreSpread(PutWaypoint, PointBytes, ps, tail);
  }

  function PeriodOf(p: Option<int>): Bytes {
    if p.Some? && p.value >= 0 then Le(p.value, 4) else [0xFF, 0xFF, 0xFF, 0xFF]
  }

  lemma PeriodsAre(ps: seq<Option<int>>, tail: Bytes)
    requires forall p :: p in ps ==> StorablePeriod(p)
    ensures PutMany(PutPeriod, ps, tail) == Spread(PeriodOf, ps) + tail
  {
    forall p, rest | p in ps ensures PutPeriod(p, rest) == PeriodOf(p) + rest {
      PeriodBytes(p, rest);
    }
    ManyAreSpread(PutPeriod, PeriodOf, ps, tail);
  }

  function MotionBytes(t: Trajectory): Bytes {
    Le(t.altitude, 4) + Le(t.speed, 4) + Le(t.heading, 4) + Le(t.primarySize, 4) + Le(t.secondarySize, 4) +
    Le(t.verticalSpeed, 4) + Le(t.cruiseTimeMs, 4)
  }

  lemma MotionIs(t: Trajectory, tail: Bytes)
    ensures PutMotion(t, tail) == MotionBytes(t) + tail
  {
    hide Le;
  }

  lemma ByteIs(b: Byte)
    ensures Le(b, 1) == [b]
  {
    assert Le(b, 1) == [b % 256] + Le(b / 256, 0);
  }

  /** A group: length and bytes of its name; count; protocol, transport, Wi-Fi mode and kind of trajectory, a byte each;
      altitude, speed, heading, both sizes, vertical speed and cruise time; number of waypoints and their coordinates; and
      the default and the six overriding periods. */
  function GroupBytes(g: Group): Bytes {
    Le(|g.name|, 2) + g.name + Le(g.count, 2) +
    [g.protocol, g.transport, g.wifiMode, g.trajectory.kind] + MotionBytes(g.trajectory) +
    Le(|g.trajectory.waypoints|, 2) + Spread(PointBytes, g.trajectory.waypoints) +
    PeriodOf(g.defaultPeriod) + Spread(PeriodOf, g.overrides)
  }

  lemma GroupIs(g: Group, tail: Bytes)
    requires StorablePeriods(g)
    ensures PutGroup(g, tail) == GroupBytes(g) + tail
  {
    hide Le, PutMotion, MotionBytes, Spread, PeriodOf, PutMany, PutPeriod;
    FirstPeriodIs(g.defaultPeriod, PutMany(PutPeriod, g.overrides, tail));
    PeriodsAre(g.overrides, tail);
    var t3 := PutPeriods(g.defaultPeriod, g.overrides, tail);
    PointsAre(g.trajectory.waypoints, t3);
    var t2 := PutWaypoints(g.trajectory.waypoints, t3);
    MotionIs(KindsOf(g).motion, t2);
    SameMotion(g);
    ByteIs(g.protocol);
    ByteIs(g.transport);
    ByteIs(g.wifiMode);
    ByteIs(g.trajectory.kind);
  }

  lemma FirstPeriodIs(p: Option<int>, tail: Bytes)
    requires StorablePeriod(p)
    ensures PutPeriod(p, tail) == PeriodOf(p) + tail
  {
    PeriodBytes(p, tail);
  }

  lemma SameMotion(g: Group)
    ensures MotionBytes(KindsOf(g).motion) == MotionBytes(g.trajectory) && KindsOf(g).motion.kind == g.trajectory.kind
  {
  }

  /** A snapshot: whether it has a site, and its latitude and longitude if so; the default period; the number of groups and
      the groups. */
  lemma SnapshotIs(c: SystemConfig)
    requires 0 <= c.defaultPeriod < 0x8000_0000 && forall g :: g in c.groups ==> StorablePeriods(g)
    ensures PutConfig(c) ==
      (if c.site.Some? then [1] + Le(c.site.value.latitude, 8) + Le(c.site.value.longitude, 8) else [0]) +
      Le(c.defaultPeriod, 4) + Le(|c.groups|, 2) + Spread(GroupBytes, c.groups)
  {
    hide Le, PutGroup, GroupBytes, Spread, PutMany, StorablePeriods;
    forall g, rest | g in c.groups ensures PutGroup(g, rest) == GroupBytes(g) + rest {
      GroupIs(g, rest);
    }
    ManyAreSpread(PutGroup, GroupBytes, c.groups, []);
    ByteIs(1);
    ByteIs(0);
  }

  /** A payload decodes to a snapshot exactly if that is acceptable, its names have at most 64 bytes and its waypoint lists
      at most 64 points, and the payload is its stored form. */
  lemma DecodesExactly(payload: Bytes, c: SystemConfig)
    ensures DecodeConfig(payload) == Some(c) <==>
      Acceptable(c) && (forall g :: g in c.groups ==> |g.name| <= 64 && |g.trajectory.waypoints| <= 64) &&
      payload == PutConfig(c)
  {
    hide Acceptable, ReadConfig, PutConfig;
    ReadConfigSound(payload);
    StorableIs(c.groups);
    if Acceptable(c) && forall g :: g in c.groups ==> Storable(g) {
      ReadPutConfig(c);
    }
  }

  lemma StorableIs(groups: seq<Group>)
    ensures (forall g :: g in groups ==> Storable(g)) <==>
      (forall g :: g in groups ==> |g.name| <= 64 && |g.trajectory.waypoints| <= 64)
  {
    if forall g :: g in groups ==> |g.name| <= 64 && |g.trajectory.waypoints| <= 64 {
      forall g | g in groups ensures Storable(g) {
      }
    }
    if forall g :: g in groups ==> Storable(g) {
      forall g | g in groups ensures |g.name| <= 64 && |g.trajectory.waypoints| <= 64 {
        assert Storable(g);
      }
    }
  }
}
