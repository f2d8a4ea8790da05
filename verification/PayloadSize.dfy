/** How long payloads are, and so exactly which snapshots the store can hold. */
module PayloadSize {
  import opened Wrappers
  import opened Words
  import opened Config
  import opened Format
  import opened Codec
  import opened Store
  import opened StoreSafety

  const GROUP_SIZE: nat := 66
  const WAYPOINT_SIZE: nat := 12

  function GroupSize(g: Group): nat {
    GROUP_SIZE + |g.name| + WAYPOINT_SIZE * |g.trajectory.waypoints|
  }

  function GroupsSize(groups: seq<Group>): nat {
    if groups == [] then 0 else GroupSize(groups[0]) + GroupsSize(groups[1..])
  }

  function ConfigSize(c: SystemConfig): nat {
    (if c.site.Some? then 23 else 7) + GroupsSize(c.groups)
  }

  lemma MotionSize(t: Trajectory, tail: Bytes)
    ensures |PutMotion(t, tail)| == 28 + |tail|
  {
    hide Le;
  }

  lemma KindsSize(k: Kinds, tail: Bytes)
    ensures |PutKinds(k, tail)| == 34 + |tail|
  {
    hide Le, PutMotion;
    MotionSize(k.motion, tail);
  }

  lemma {:induction false} WaypointsSize(ps: seq<EnuPoint>, tail: Bytes)
    ensures |PutMany(PutWaypoint, ps, tail)| == WAYPOINT_SIZE * |ps| + |tail|
  {
    hide Le;
    if ps == [] {
    } else {
      WaypointsSize(ps[1..], tail);
    }
  }

  lemma {:induction false} PeriodsSize(ps: seq<Option<int>>, tail: Bytes)
    ensures |PutMany(PutPeriod, ps, tail)| == 4 * |ps| + |tail|
  {
    hide Le, PeriodWord;
    if ps == [] {
    } else {
      PeriodsSize(ps[1..], tail);
    }
  }

  lemma GroupHasSize(g: Group, tail: Bytes)
    ensures |PutGroup(g, tail)| == GroupSize(g) + |tail|
  {
    hide Le, PutKinds, PutMany, PeriodWord;
    PeriodsSize(g.overrides, tail);
    var t3 := PutPeriods(g.defaultPeriod, g.overrides, tail);
    WaypointsSize(g.trajectory.waypoints, t3);
    KindsSize(KindsOf(g), PutWaypoints(g.trajectory.waypoints, t3));
  }

  lemma {:induction false} GroupsHaveSize(groups: seq<Group>, tail: Bytes)
    ensures |PutMany(PutGroup, groups, tail)| == GroupsSize(groups) + |tail|
  {
    hide PutGroup, GroupSize;
    if groups == [] {
    } else {
      GroupsHaveSize(groups[1..], tail);
      GroupHasSize(groups[0], PutMany(PutGroup, groups[1..], tail));
    }
  }

  /** The length of a payload. */
  lemma PayloadHasSize(c: SystemConfig)
    ensures |PutConfig(c)| == ConfigSize(c)
  {
    hide Le, PutMany, Unsigned32, GroupsSize;
    GroupsHaveSize(c.groups, []);
  }

  /** A snapshot is encoded exactly if it is acceptable, its names and waypoint lists are short enough, and this count
      of bytes is at most 32768; otherwise the refusal says which of the two it is. */
  lemma EncodesExactly(c: SystemConfig)
    ensures EncodeConfig(c).Payload? <==>
      Acceptable(c) && (forall g :: g in c.groups ==> Storable(g)) && ConfigSize(c) <= MAX_PAYLOAD_SIZE
    ensures EncodeConfig(c).Payload? ==> |EncodeConfig(c).bytes| == ConfigSize(c)
    ensures EncodeConfig(c) == Refused(InvalidConfig) <==> !Acceptable(c)
  {
    hide Acceptable, PutConfig, ConfigSize;
    PayloadHasSize(c);
  }

  lemma {:induction false} GroupsAreBounded(groups: seq<Group>)
    requires forall g :: g in groups ==> Storable(g)
    ensures GroupsSize(groups) <= 898 * |groups|
  {
    if groups == [] {
    } else {
      GroupsAreBounded(groups[1..]);
      assert Storable(groups[0]);
    }
  }

  /** Up to 36 groups always fit a payload, however long their names and waypoint lists may be. */
  lemma ThirtySixGroupsFit(c: SystemConfig)
    requires Acceptable(c) && (forall g :: g in c.groups ==> Storable(g)) && |c.groups| <= 36
    ensures EncodeConfig(c).Payload?
  {
    hide Acceptable, GroupsSize;
    EncodesExactly(c);
    GroupsAreBounded(c.groups);
  }

  function Numbered(n: nat): Bytes {
    [n / 256 % 256, n % 256] + seq(62, _ => 0x78)
  }

  const ABREAST: EnuPoint := EnuPoint(0, 0, 0)
  const APART: EnuPoint := EnuPoint(0x3F80_0000, 0, 0)

  function LongGroup(n: nat): Group {
    Group(Numbered(n), 1, OPEN_DRONE_ID, BLE4, BEACON,
          Trajectory(WAYPOINT_LOOP, 0, 0x3F80_0000, 0, 0, 0, 0, 0, [APART] + seq(63, _ => ABREAST)),
          None, [None, None, None, None, None, None])
  }

  function LongGroups(n: nat): seq<Group> {
    if n == 0 then [] else LongGroups(n - 1) + [LongGroup(n - 1)]
  }

  lemma LongGroupIsValid(n: nat)
    ensures ValidGroup(LongGroup(n)) && Storable(LongGroup(n)) && GroupSize(LongGroup(n)) == 898
  {
    var g := LongGroup(n);
    var ps := g.trajectory.waypoints;
    assert HorizontalSegment(ps, 0) by {
      assert ps[0] == APART && ps[(0 + 1) % |ps|] == ABREAST;
    }
  }

  lemma NamesDiffer(m: nat, n: nat)
    requires m < n < 256
    ensures LongGroup(m).name != LongGroup(n).name
  {
    assert LongGroup(m).name[1] == m && LongGroup(n).name[1] == n;
  }

  lemma SizeOfOneMore(groups: seq<Group>, g: Group)
    ensures GroupsSize(groups + [g]) == GroupsSize(groups) + GroupSize(g)
    decreases |groups|
  {
    hide GroupSize;
    if groups == [] {
      assert groups + [g] == [g];
    } else {
      assert (groups + [g])[1..] == groups[1..] + [g];
      SizeOfOneMore(groups[1..], g);
    }
  }

  lemma {:induction false} LongGroupsAre(n: nat)
    requires n <= MAX_AIRCRAFT
    ensures var gs := LongGroups(n);
      |gs| == n && TotalAircraft(gs) == n && GroupsSize(gs) == 898 * n && forall i :: 0 <= i < n ==> gs[i] == LongGroup(i)
  {
    hide LongGroup, GroupSize, GroupsSize;
    if n > 0 {
      LongGroupsAre(n - 1);
      LongGroupIsValid(n - 1);
      SizeOfOneMore(LongGroups(n - 1), LongGroup(n - 1));
      assert LongGroups(n)[..n - 1] == LongGroups(n - 1);
      assert LongGroup(n - 1).count == 1 by { OneAircraft(n - 1); }
    } else {
      assert GroupsSize([]) == 0 by { NoGroups(); }
    }
  }

  lemma NoGroups()
    ensures GroupsSize([]) == 0
  {
  }

  lemma OneAircraft(n: nat)
    ensures LongGroup(n).count == 1
  {
  }

  function LongConfig(n: nat): SystemConfig {
    SystemConfig(Some(GeoPoint(0, 0)), 1000, LongGroups(n))
  }

  /** The bound of 36 is sharp. Between 1 and 50 of these groups make an acceptable snapshot, and the store can hold
      it exactly if there are at most 36 of them. */
  lemma ManyLongGroups(n: nat)
    requires 1 <= n <= MAX_AIRCRAFT
    ensures Acceptable(LongConfig(n))
    ensures EncodeConfig(LongConfig(n)) == if n <= 36 then Payload(PutConfig(LongConfig(n))) else Refused(PayloadTooLarge)
  {
    hide LongGroup, LongGroups, ValidGroup, Storable, PutConfig, GroupsSize, TotalAircraft;
    LongGroupsAre(n);
    var c := LongConfig(n);
    forall i | 0 <= i < n ensures ValidGroup(c.groups[i]) && Storable(c.groups[i]) {
      LongGroupIsValid(i);
    }
    forall i, j | 0 <= i < j < n ensures c.groups[i].name != c.groups[j].name {
      NamesDiffer(i, j);
    }
    PayloadHasSize(c);
  }

  /** On a new device the snapshot of one such group can be saved, and a load then returns it. */
  lemma SomethingCanBeSaved(crc: Checksum)
    ensures var c := LongConfig(1);
      var (flash, outcome) := Saved(crc, EMPTY, c, 1, IDEAL);
      outcome == Returned(Ok) && Loaded(crc, flash, Opens, false, false) == (Ok, Some(LoadedConfig(c, 1)))
  {
    hide LongConfig, EncodeConfig, Saved, Loaded, Contents, Current, Ambiguous, LongGroup;
    ManyLongGroups(1);
    NothingStored(crc);
    IdealSaveSucceeds(crc, EMPTY, LongConfig(1), 1);
    SuccessIsDurable(crc, EMPTY, LongConfig(1), 1, IDEAL, []);
  }

  lemma NothingStored(crc: Checksum)
    ensures Current(crc, EMPTY).None? && !Ambiguous(crc, EMPTY)
    ensures forall i :: 0 <= i < 2 ==> Contents(crc, EMPTY[i]).0 == NotFound
  {
    hide DecodeConfig;
  }

  /** Two saves on a new device. */
  ghost function SavedTwice(crc: Checksum): Flash {
    hide LongConfig, Saved;
    Step(crc, Step(crc, EMPTY, SaveEvent(LongConfig(1), 1, IDEAL)), SaveEvent(LongConfig(2), 2, IDEAL))
  }

  lemma FirstSave(crc: Checksum, c: SystemConfig)
    requires EncodeConfig(c).Payload?
    ensures Saved(crc, EMPTY, c, 1, IDEAL).0 == [Blob(BlobOf(crc, EncodeConfig(c).bytes, 1)), Absent]
  {
    hide EncodeConfig, BlobOf, DecodeConfig;
  }

  lemma SecondSave(crc: Checksum, flash: Flash, c: SystemConfig)
    requires EncodeConfig(c).Payload? && flash[1] == Absent
    requires Value(crc, flash[0]).Some? && Value(crc, flash[0]).value.generation == 1
    ensures Saved(crc, flash, c, 2, IDEAL).0 == [flash[0], Blob(BlobOf(crc, EncodeConfig(c).bytes, 2))]
  {
    hide EncodeConfig, BlobOf, Contents;
    assert Contents(crc, Absent) == (NotFound, None) by { NothingThere(crc); }
  }

  lemma NothingThere(crc: Checksum)
    ensures Contents(crc, Absent) == (NotFound, None)
  {
    hide DecodeConfig;
  }

  /** The flash then holds the first snapshot in one slot and the second in the other. */
  lemma SavedTwiceHolds(crc: Checksum)
    ensures Value(crc, SavedTwice(crc)[0]) == Some(LoadedConfig(LongConfig(1), 1))
    ensures Value(crc, SavedTwice(crc)[1]) == Some(LoadedConfig(LongConfig(2), 2))
  {
    hide LongConfig, EncodeConfig, Contents, BlobOf, Saved;
    ManyLongGroups(1);
    ManyLongGroups(2);
    BlobReadsBack(crc, LongConfig(1), 1);
    BlobReadsBack(crc, LongConfig(2), 2);
    FirstSave(crc, LongConfig(1));
    SecondSave(crc, Step(crc, EMPTY, SaveEvent(LongConfig(1), 1, IDEAL)), LongConfig(2));
  }

  /** A load can return a stale snapshot: after two successful saves, one that fails to read the second slot returns
      what the first save wrote. */
  lemma StaleLoad(crc: Checksum)
    ensures var flash := SavedTwice(crc);
      && Loaded(crc, flash, Opens, false, false) == (Ok, Some(LoadedConfig(LongConfig(2), 2)))
      && Loaded(crc, flash, Opens, false, true) == (Ok, Some(LoadedConfig(LongConfig(1), 1)))
  {
    hide LongConfig, Contents, SavedTwice;
    SavedTwiceHolds(crc);
  }
}
