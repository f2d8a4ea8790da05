/** The binary form of a configuration, and why it is a bijection.

    `Put…` says what bytes an item puts in front of the bytes that follow it; `Read…` takes an
    item off the front of a byte string and returns it with the bytes left. */
module Format {
  import opened Wrappers
  import opened Words
  import opened Config

  const MAX_PAYLOAD_SIZE: nat := 32768
  const MAX_NAME_SIZE: nat := 64
  const MAX_WAYPOINTS: nat := 64

  type Putter<!T> = (T, Bytes) -> Bytes
  type Getter<!T> = Bytes -> Option<(T, Bytes)>

  /** Whatever is read is what the writer would have put there. */
  ghost predicate Sound<T(!new)>(read: Getter<T>, put: Putter<T>) {
    forall bs :: read(bs).Some? ==> bs == put(read(bs).value.0, read(bs).value.1)
  }

  /** Whatever good item is put there is read back. */
  ghost predicate Complete<T(!new)>(read: Getter<T>, put: Putter<T>, good: T -> bool) {
    forall x, tail :: good(x) ==> read(put(x, tail)) == Some((x, tail))
  }

  // ----- Scalars, strings and repetitions

  function Put(value: nat, width: nat, tail: Bytes): Bytes {
    Le(value, width) + tail
  }

  function Read(bs: Bytes, width: nat): (r: Option<(nat, Bytes)>)
    ensures r.Some? <==> width <= |bs|
    ensures r.Some? ==> r.value.0 < Pow256(width) && bs == Put(r.value.0, width, r.value.1)
  {
    if |bs| < width then None
    else
      LeValueBound(bs[..width]);
      LeCanonical(bs[..width]);
      Some((LeValue(bs[..width]), bs[width..]))
  }

  lemma ReadPut(value: nat, width: nat, tail: Bytes)
    requires value < Pow256(width)
    ensures Read(Put(value, width, tail), width) == Some((value, tail))
  {
    LeRoundTrip(value, width);
    assert Put(value, width, tail)[..width] == Le(value, width);
  }

  function ReadBytes(bs: Bytes, size: nat): (r: Option<(Bytes, Bytes)>)
    ensures r.Some? <==> size <= |bs|
    ensures r.Some? ==> |r.value.0| == size && bs == r.value.0 + r.value.1
  {
    if |bs| < size then None else Some((bs[..size], bs[size..]))
  }

  function PutMany<T>(put: Putter<T>, xs: seq<T>, tail: Bytes): Bytes {
    if xs == [] then tail else put(xs[0], PutMany(put, xs[1..], tail))
  }

  function ReadMany<T>(read: Getter<T>, bs: Bytes, n: nat): (r: Option<(seq<T>, Bytes)>)
    ensures r.Some? ==> |r.value.0| == n
    decreases n
  {
    if n == 0 then Some(([], bs))
    else
      var (first, more) :- read(bs);
      var (others, rest) :- ReadMany(read, more, n - 1);
      Some(([first] + others, rest))
  }

  lemma {:induction false} ReadManySound<T(!new)>(read: Getter<T>, put: Putter<T>, bs: Bytes, n: nat)
    requires Sound(read, put)
    ensures var r := ReadMany(read, bs, n); r.Some? ==> bs == PutMany(put, r.value.0, r.value.1)
    decreases n
  {
    if n == 0 || read(bs).None? {
    } else {
      ReadManySound(read, put, read(bs).value.1, n - 1);
    }
  }

  lemma {:induction false} ReadManyComplete<T(!new)>(
      read: Getter<T>, put: Putter<T>, good: T -> bool, xs: seq<T>, tail: Bytes)
    requires Complete(read, put, good) && forall x :: x in xs ==> good(x)
    ensures ReadMany(read, PutMany(put, xs, tail), |xs|) == Some((xs, tail))
  {
    if xs == [] {
    } else {
      ReadManyComplete(read, put, good, xs[1..], tail);
      assert xs == [xs[0]] + xs[1..];
    }
  }

  /** Whatever every reader result satisfies, every element of a repetition satisfies. */
  lemma {:induction false} ReadManyGood<T(!new)>(read: Getter<T>, good: T -> bool, bs: Bytes, n: nat)
    requires forall b :: read(b).Some? ==> good(read(b).value.0)
    ensures var r := ReadMany(read, bs, n); r.Some? ==> forall x :: x in r.value.0 ==> good(x)
    decreases n
  {
    if n == 0 || read(bs).None? {
    } else {
      ReadManyGood(read, good, read(bs).value.1, n - 1);
    }
  }

  // ----- Optional periods: an absent one is stored as -1

  function PeriodWord(p: Option<int>): Word32 {
    Unsigned32(if p.Some? then p.value else -1)
  }

  function PutPeriod(p: Option<int>, tail: Bytes): Bytes {
    Put(PeriodWord(p), 4, tail)
  }

  function ReadPeriod(bs: Bytes): (r: Option<(Option<int>, Bytes)>)
    ensures r.Some? ==> bs == PutPeriod(r.value.0, r.value.1)
  {
    var (word, rest) :- Read(bs, 4);
    var value := Signed32(word);
    if value < -1 then None
    else if value == -1 then Some((None, rest))
    else Some((Some(value), rest))
  }

  predicate StorablePeriod(p: Option<int>) {
    p.Some? ==> 0 <= p.value < TWO31
  }

  lemma ReadPutPeriod(p: Option<int>, tail: Bytes)
    requires StorablePeriod(p)
    ensures ReadPeriod(PutPeriod(p, tail)) == Some((p, tail))
  {
    hide Read, Put;
    ReadPut(PeriodWord(p), 4, tail);
  }

  // ----- Waypoints and motion

  function PutWaypoint(p: EnuPoint, tail: Bytes): Bytes {
    Put(p.east, 4, Put(p.north, 4, Put(p.up, 4, tail)))
  }

  function ReadWaypoint(bs: Bytes): (r: Option<(EnuPoint, Bytes)>)
    ensures r.Some? ==> bs == PutWaypoint(r.value.0, r.value.1)
  {
    var (east, b1) :- Read(bs, 4);
    var (north, b2) :- Read(b1, 4);
    var (up, b3) :- Read(b2, 4);
    Some((EnuPoint(east, north, up), b3))
  }

  lemma ReadPutWaypoint(p: EnuPoint, tail: Bytes)
    ensures ReadWaypoint(PutWaypoint(p, tail)) == Some((p, tail))
  {
    var t1 := Put(p.up, 4, tail);
    var t2 := Put(p.north, 4, t1);
    ReadPut(p.east, 4, t2);
    ReadPut(p.north, 4, t1);
    ReadPut(p.up, 4, tail);
  }

  function PutMotion(t: Trajectory, tail: Bytes): Bytes {
    Put(t.altitude, 4, Put(t.speed, 4, Put(t.heading, 4, Put(t.primarySize, 4,
    Put(t.secondarySize, 4, Put(t.verticalSpeed, 4, Put(t.cruiseTimeMs, 4, tail)))))))
  }

  /** The motion fields only; kind and waypoints stand elsewhere in a group. */
  function ReadMotion(bs: Bytes): (r: Option<(Trajectory, Bytes)>)
    ensures r.Some? ==> bs == PutMotion(r.value.0, r.value.1)
  {
    var (altitude, b1) :- Read(bs, 4);
    var (speed, b2) :- Read(b1, 4);
    var (heading, b3) :- Read(b2, 4);
    var (primarySize, b4) :- Read(b3, 4);
    var (secondarySize, b5) :- Read(b4, 4);
    var (verticalSpeed, b6) :- Read(b5, 4);
    var (cruiseTimeMs, b7) :- Read(b6, 4);
    Some((Trajectory(HOVER, altitude, speed, heading, primarySize, secondarySize, verticalSpeed, cruiseTimeMs, []), b7))
  }

  lemma ReadPutMotion(t: Trajectory, tail: Bytes)
    ensures ReadMotion(PutMotion(t, tail)) == Some((t.(kind := HOVER, waypoints := []), tail))
  {
    var t7 := Put(t.cruiseTimeMs, 4, tail);
    var t6 := Put(t.verticalSpeed, 4, t7);
    var t5 := Put(t.secondarySize, 4, t6);
    var t4 := Put(t.primarySize, 4, t5);
    var t3 := Put(t.heading, 4, t4);
    var t2 := Put(t.speed, 4, t3);
    ReadPut(t.altitude, 4, t2);
    ReadPut(t.speed, 4, t3);
    ReadPut(t.heading, 4, t4);
    ReadPut(t.primarySize, 4, t5);
    ReadPut(t.secondarySize, 4, t6);
    ReadPut(t.verticalSpeed, 4, t7);
    ReadPut(t.cruiseTimeMs, 4, tail);
  }

  // ----- Groups, in three parts: who, how many and how they move, when they send

  function PutName(name: Bytes, tail: Bytes): Bytes {
    Put(|name|, 2, name + tail)
  }

  function ReadName(bs: Bytes): (r: Option<(Bytes, Bytes)>)
    ensures r.Some? ==> bs == PutName(r.value.0, r.value.1) && |r.value.0| <= MAX_NAME_SIZE
  {
    var (size, b1) :- Read(bs, 2);
    if size > MAX_NAME_SIZE then None else ReadBytes(b1, size)
  }

  lemma ReadPutName(name: Bytes, tail: Bytes)
    requires |name| <= MAX_NAME_SIZE
    ensures ReadName(PutName(name, tail)) == Some((name, tail))
  {
    ReadPut(|name|, 2, name + tail);
  }

  function PutWaypoints(ps: seq<EnuPoint>, tail: Bytes): Bytes {
    Put(|ps|, 2, PutMany(PutWaypoint, ps, tail))
  }

  function ReadWaypoints(bs: Bytes): (r: Option<(seq<EnuPoint>, Bytes)>)
    ensures r.Some? ==> bs == PutWaypoints(r.value.0, r.value.1) && |r.value.0| <= MAX_WAYPOINTS
  {
    var (n, b1) :- Read(bs, 2);
    if n > MAX_WAYPOINTS then None
    else
      ReadManySound(ReadWaypoint, PutWaypoint, b1, n);
      ReadMany(ReadWaypoint, b1, n)
  }

  lemma ReadPutWaypoints(ps: seq<EnuPoint>, tail: Bytes)
    requires |ps| <= MAX_WAYPOINTS
    ensures ReadWaypoints(PutWaypoints(ps, tail)) == Some((ps, tail))
  {
    ReadPut(|ps|, 2, PutMany(PutWaypoint, ps, tail));
    forall p, rest ensures ReadWaypoint(PutWaypoint(p, rest)) == Some((p, rest)) {
      ReadPutWaypoint(p, rest);
    }
    ReadManyComplete(ReadWaypoint, PutWaypoint, _ => true, ps, tail);
  }

  /** A group without its name, waypoints and periods. */
  datatype Kinds = Kinds(count: Word16, protocol: Byte, transport: Byte, wifiMode: Byte, motion: Trajectory)

  function KindsOf(g: Group): Kinds {
    Kinds(g.count, g.protocol, g.transport, g.wifiMode, g.trajectory.(waypoints := []))
  }

  function PutKinds(k: Kinds, tail: Bytes): Bytes {
    Put(k.count, 2, Put(k.protocol, 1, Put(k.transport, 1, Put(k.wifiMode, 1, Put(k.motion.kind, 1,
    PutMotion(k.motion, tail))))))
  }

  function ReadKinds(bs: Bytes): (r: Option<(Kinds, Bytes)>)
    ensures r.Some? ==> bs == PutKinds(r.value.0, r.value.1) && r.value.0.motion.waypoints == []
  {
    var (count, b1) :- Read(bs, 2);
    var (protocol, b2) :- Read(b1, 1);
    var (transport, b3) :- Read(b2, 1);
    var (wifiMode, b4) :- Read(b3, 1);
    var (kind, b5) :- Read(b4, 1);
    var (motion, rest) :- ReadMotion(b5);
    Some((Kinds(count, protocol, transport, wifiMode, motion.(kind := kind)), rest))
  }

  lemma ReadPutKinds(k: Kinds, tail: Bytes)
    requires k.motion.waypoints == []
    ensures ReadKinds(PutKinds(k, tail)) == Some((k, tail))
  {
    var t5 := PutMotion(k.motion, tail);
    var t4 := Put(k.motion.kind, 1, t5);
    var t3 := Put(k.wifiMode, 1, t4);
    var t2 := Put(k.transport, 1, t3);
    var t1 := Put(k.protocol, 1, t2);
    ReadPut(k.count, 2, t1);
    ReadPut(k.protocol, 1, t2);
    ReadPut(k.transport, 1, t3);
    ReadPut(k.wifiMode, 1, t4);
    ReadPut(k.motion.kind, 1, t5);
    ReadPutMotion(k.motion, tail);
  }

  function PutPeriods(first: Option<int>, overrides: seq<Option<int>>, tail: Bytes): Bytes {
    PutPeriod(first, PutMany(PutPeriod, overrides, tail))
  }

  function ReadPeriods(bs: Bytes): (r: Option<((Option<int>, PeriodOverrides), Bytes)>)
    ensures r.Some? ==> bs == PutPeriods(r.value.0.0, r.value.0.1, r.value.1)
  {
    var (first, b1) :- ReadPeriod(bs);
    ReadManySound(ReadPeriod, PutPeriod, b1, MESSAGE_KINDS);
    var (overrides, rest) :- ReadMany(ReadPeriod, b1, MESSAGE_KINDS);
    Some(((first, overrides), rest))
  }

  predicate Storable(g: Group) {
    |g.name| <= MAX_NAME_SIZE && |g.trajectory.waypoints| <= MAX_WAYPOINTS
  }

  predicate StorablePeriods(g: Group) {
    StorablePeriod(g.defaultPeriod) && forall p :: p in g.overrides ==> StorablePeriod(p)
  }

  lemma ReadPutPeriods(g: Group, tail: Bytes)
    requires StorablePeriods(g)
    ensures ReadPeriods(PutPeriods(g.defaultPeriod, g.overrides, tail)) == Some(((g.defaultPeriod, g.overrides), tail))
  {
    ReadPutPeriod(g.defaultPeriod, PutMany(PutPeriod, g.overrides, tail));
    forall p, rest | StorablePeriod(p) ensures ReadPeriod(PutPeriod(p, rest)) == Some((p, rest)) {
      ReadPutPeriod(p, rest);
    }
    ReadManyComplete(ReadPeriod, PutPeriod, StorablePeriod, g.overrides, tail);
  }

  function PutGroup(g: Group, tail: Bytes): Bytes {
    PutName(g.name, PutKinds(KindsOf(g), PutWaypoints(g.trajectory.waypoints,
    PutPeriods(g.defaultPeriod, g.overrides, tail))))
  }

  function ReadGroup(bs: Bytes): (r: Option<(Group, Bytes)>) {
    var (name, b1) :- ReadName(bs);
    var (k, b2) :- ReadKinds(b1);
    var (waypoints, b3) :- ReadWaypoints(b2);
    var (periods, rest) :- ReadPeriods(b3);
    Some((MakeGroup(name, k, waypoints, periods), rest))
  }

  function MakeGroup(name: Bytes, k: Kinds, waypoints: seq<EnuPoint>, periods: (Option<int>, PeriodOverrides)): Group {
    Group(name, k.count, k.protocol, k.transport, k.wifiMode,
          k.motion.(waypoints := waypoints), periods.0, periods.1)
  }

  lemma PutMadeGroup(name: Bytes, k: Kinds, waypoints: seq<EnuPoint>, periods: (Option<int>, PeriodOverrides),
      tail: Bytes)
    requires k.motion.waypoints == []
    ensures PutGroup(MakeGroup(name, k, waypoints, periods), tail)
         == PutName(name, PutKinds(k, PutWaypoints(waypoints, PutPeriods(periods.0, periods.1, tail))))
  {
    assert KindsOf(MakeGroup(name, k, waypoints, periods)) == k;
  }

  lemma ReadGroupSound(bs: Bytes)
    ensures var r := ReadGroup(bs); r.Some? ==> bs == PutGroup(r.value.0, r.value.1) && Storable(r.value.0)
  {
    hide ReadName, ReadKinds, ReadWaypoints, ReadPeriods, PutGroup;
    if ReadGroup(bs).Some? {
      var (name, b1) := ReadName(bs).value;
      var (k, b2) := ReadKinds(b1).value;
      var (waypoints, b3) := ReadWaypoints(b2).value;
      var (periods, rest) := ReadPeriods(b3).value;
      PutMadeGroup(name, k, waypoints, periods, rest);
    }
  }

  lemma ReadPutGroup(g: Group, tail: Bytes)
    requires Storable(g) && StorablePeriods(g)
    ensures ReadGroup(PutGroup(g, tail)) == Some((g, tail))
  {
    hide ReadName, ReadKinds, ReadWaypoints, ReadPeriods, PutName, PutKinds, PutWaypoints, PutPeriods;
    var t3 := PutPeriods(g.defaultPeriod, g.overrides, tail);
    var t2 := PutWaypoints(g.trajectory.waypoints, t3);
    var t1 := PutKinds(KindsOf(g), t2);
    ReadPutName(g.name, t1);
    ReadPutKinds(KindsOf(g), t2);
    ReadPutWaypoints(g.trajectory.waypoints, t3);
    ReadPutPeriods(g, tail);
  }

  // ----- The whole snapshot

  function PutSite(site: Option<GeoPoint>, tail: Bytes): Bytes {
    match site
    case None => Put(0, 1, tail)
    case Some(p) => Put(1, 1, Put(p.latitude, 8, Put(p.longitude, 8, tail)))
  }

  function ReadSite(bs: Bytes): (r: Option<(Option<GeoPoint>, Bytes)>)
    ensures r.Some? ==> bs == PutSite(r.value.0, r.value.1)
  {
    var (hasSite, b1) :- Read(bs, 1);
    if hasSite > 1 then None
    else if hasSite == 0 then Some((None, b1))
    else
      var (latitude, b2) :- Read(b1, 8);
      var (longitude, b3) :- Read(b2, 8);
      Some((Some(GeoPoint(latitude, longitude)), b3))
  }

  lemma ReadPutSite(site: Option<GeoPoint>, tail: Bytes)
    ensures ReadSite(PutSite(site, tail)) == Some((site, tail))
  {
    match site
    case None => ReadPut(0, 1, tail);
    case Some(p) =>
      var t2 := Put(p.longitude, 8, tail);
      var t1 := Put(p.latitude, 8, t2);
      ReadPut(1, 1, t1);
      ReadPut(p.latitude, 8, t2);
      ReadPut(p.longitude, 8, tail);
  }

  function PutHead(site: Option<GeoPoint>, defaultPeriod: int, groups: nat, tail: Bytes): Bytes {
    PutSite(site, Put(Unsigned32(defaultPeriod), 4, Put(groups, 2, tail)))
  }

  function PutConfig(c: SystemConfig): Bytes {
    PutHead(c.site, c.defaultPeriod, |c.groups|, PutMany(PutGroup, c.groups, []))
  }

  datatype Head = Head(site: Option<GeoPoint>, defaultPeriod: int, groups: nat)

  function ReadHead(bs: Bytes): (r: Option<(Head, Bytes)>) {
    var (site, b1) :- ReadSite(bs);
    var (defaultPeriod, b2) :- Read(b1, 4);
    var (groups, rest) :- Read(b2, 2);
    if groups > MAX_AIRCRAFT then None else Some((Head(site, Signed32(defaultPeriod), groups), rest))
  }

  lemma ReadHeadSound(bs: Bytes)
    ensures var r := ReadHead(bs);
      r.Some? ==> var h := r.value.0; bs == PutHead(h.site, h.defaultPeriod, h.groups, r.value.1)
  {
    hide Read, Put, ReadSite, PutSite;
  }

  lemma ReadPutHead(site: Option<GeoPoint>, defaultPeriod: int, groups: nat, tail: Bytes)
    requires -TWO31 <= defaultPeriod < TWO31 && groups <= MAX_AIRCRAFT
    ensures ReadHead(PutHead(site, defaultPeriod, groups, tail)) == Some((Head(site, defaultPeriod, groups), tail))
  {
    hide Read, Put, ReadSite, PutSite;
    var t2 := Put(groups, 2, tail);
    var t1 := Put(Unsigned32(defaultPeriod), 4, t2);
    ReadPutSite(site, t1);
    ReadPut(Unsigned32(defaultPeriod), 4, t2);
    ReadPut(groups, 2, tail);
  }

  /** A payload is a head and as many groups as it announces, with nothing after them. */
  function ReadConfig(bs: Bytes): Option<SystemConfig> {
    var (head, b1) :- ReadHead(bs);
    var (groups, rest) :- ReadMany(ReadGroup, b1, head.groups);
    if rest == [] then Some(SystemConfig(head.site, head.defaultPeriod, groups)) else None
  }

  lemma GroupsSound()
    ensures Sound(ReadGroup, PutGroup)
    ensures forall bs :: ReadGroup(bs).Some? ==> Storable(ReadGroup(bs).value.0)
  {
    forall bs
      ensures ReadGroup(bs).Some? ==>
        bs == PutGroup(ReadGroup(bs).value.0, ReadGroup(bs).value.1) && Storable(ReadGroup(bs).value.0)
    {
      ReadGroupSound(bs);
    }
  }

  lemma GroupsComplete()
    ensures Complete(ReadGroup, PutGroup, g => Storable(g) && StorablePeriods(g))
  {
    forall g, tail | Storable(g) && StorablePeriods(g)
      ensures ReadGroup(PutGroup(g, tail)) == Some((g, tail))
    {
      ReadPutGroup(g, tail);
    }
  }

  /** Two different payloads never read as the same snapshot: what is read determines the bytes. */
  lemma ReadConfigSound(bs: Bytes)
    ensures var r := ReadConfig(bs); r.Some? ==> bs == PutConfig(r.value)
    ensures var r := ReadConfig(bs); r.Some? ==> forall g :: g in r.value.groups ==> Storable(g)
  {
    hide ReadHead, PutHead, ReadGroup, PutGroup;
    ReadHeadSound(bs);
    var r := ReadHead(bs);
    if r.Some? {
      GroupsSound();
      ReadManySound(ReadGroup, PutGroup, r.value.1, r.value.0.groups);
      ReadManyGood(ReadGroup, Storable, r.value.1, r.value.0.groups);
    }
  }

  lemma ReadPutConfig(c: SystemConfig)
    requires Acceptable(c) && forall g :: g in c.groups ==> Storable(g)
    ensures ReadConfig(PutConfig(c)) == Some(c)
  {
    hide ReadHead, PutHead, ReadGroup, PutGroup;
    FewGroups(c.groups);
    ReadPutHead(c.site, c.defaultPeriod, |c.groups|, PutMany(PutGroup, c.groups, []));
    forall g | g in c.groups ensures StorablePeriods(g) {
      assert ValidGroup(g);
    }
    GroupsComplete();
    ReadManyComplete(ReadGroup, PutGroup, g => Storable(g) && StorablePeriods(g), c.groups, []);
  }
}
