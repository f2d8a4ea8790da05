/** Crash safety of the store over whole runs, and what its wrapping generations stand for. */
module StoreSafety {
  import opened Wrappers
  import opened Words
  import opened Config
  import opened Codec
  import opened Store

  // ----- One save

  /** No save, whatever the environment does, touches a slot of another schema version. */
  lemma IncompatibleSlotIsKept(crc: Checksum, flash: Flash, c: SystemConfig, generation: Word32, env: Env, i: nat)
    requires i < 2 && Contents(crc, flash[i]).0 == IncompatibleVersion
    ensures Saved(crc, flash, c, generation, env).0 == flash
    ensures Saved(crc, flash, c, generation, env).1 != Returned(Ok)
  {
    hide Contents, EncodeConfig, BlobOf;
  }

  /** An ambiguous store is never written again. */
  lemma AmbiguousStoreIsFrozen(crc: Checksum, flash: Flash, c: SystemConfig, generation: Word32, env: Env)
    requires Ambiguous(crc, flash)
    ensures Saved(crc, flash, c, generation, env).0 == flash
    ensures Loaded(crc, flash, Opens, false, false) == (Corrupt, None)
  {
    hide Contents, EncodeConfig, BlobOf;
  }

  /** A save refused with one of these errors has changed nothing; so has one whose read of a slot fails. */
  lemma RefusedSaveChangesNothing(crc: Checksum, flash: Flash, c: SystemConfig, generation: Word32, env: Env)
    ensures var (flash', outcome) := Saved(crc, flash, c, generation, env);
      (outcome.Returned? && outcome.error !in {Ok, StorageError}) || env.faultA || env.faultB ==> flash' == flash
  {
    hide Contents, EncodeConfig, BlobOf;
  }

  /** Crash safety of one save. The snapshot that counts afterwards is the old one or the complete new
      one, a snapshot never gets lost, and a save that reports success is what counts from then on. */
  lemma SaveIsAtomic(crc: Checksum, flash: Flash, c: SystemConfig, generation: Word32, env: Env)
    requires Sane(crc, env) && !Ambiguous(crc, flash)
    ensures var (flash', outcome) := Saved(crc, flash, c, generation, env);
      var offered := Some(LoadedConfig(c, generation));
      && !Ambiguous(crc, flash')
      && (Current(crc, flash') == Current(crc, flash) || Current(crc, flash') == offered)
      && (outcome == Returned(Ok) ==> Current(crc, flash') == offered)
  {
    hide Contents, EncodeConfig, BlobOf, Torn;
    if Refusal(crc, flash, c, generation, env).None? {
      if env.medium.Stores? {
        BlobReadsBack(crc, c, generation);
      } else if env.medium.Garbles? {
        TornReadsAsNothing(crc, env.medium.left);
      }
    }
  }

  /** With a working medium, a save succeeds exactly when nothing refuses it. */
  lemma IdealSaveSucceeds(crc: Checksum, flash: Flash, c: SystemConfig, generation: Word32)
    ensures Saved(crc, flash, c, generation, IDEAL).1 == Returned(Ok)
       <==> && EncodeConfig(c).Payload?
            && (forall i :: 0 <= i < 2 ==> Contents(crc, flash[i]).0 !in {StorageError, IncompatibleVersion})
            && !Ambiguous(crc, flash)
            && (Current(crc, flash).Some? ==> Newer(generation, Current(crc, flash).value.generation))
  {
    hide Contents, EncodeConfig, BlobOf;
    if Refusal(crc, flash, c, generation, IDEAL).None? {
      BlobReadsBack(crc, c, generation);
    }
  }

  /** Does a load read the slot that counts, if there is one? */
  ghost predicate ReadsCurrent(crc: Checksum, flash: Flash, opening: Opening, faultA: bool, faultB: bool) {
    Current(crc, flash).Some? ==> opening.Opens? && !(if Chosen(crc, flash).slot == 0 then faultA else faultB)
  }

  /** A load without faults returns the snapshot that counts. One whose read of a slot fails returns the other slot's
      snapshot, even an older one, if that is valid. So a load returns what counts if and only if the slot that counts,
      if there is one, is read without a fault. */
  lemma LoadReturns(crc: Checksum, flash: Flash)
    requires !Ambiguous(crc, flash)
    ensures Loaded(crc, flash, Opens, false, false).1 == Current(crc, flash)
    ensures Loaded(crc, flash, Opens, false, false).0 == Ok <==> Current(crc, flash).Some?
    ensures Current(crc, flash).Some? <==> Value(crc, flash[0]).Some? || Value(crc, flash[1]).Some?
    ensures Loaded(crc, flash, Opens, true, false).1 == Value(crc, flash[1])
    ensures Loaded(crc, flash, Opens, false, true).1 == Value(crc, flash[0])
    ensures forall opening, faultA, faultB :: Loaded(crc, flash, opening, faultA, faultB).1 == Current(crc, flash) <==>
      ReadsCurrent(crc, flash, opening, faultA, faultB)
    ensures forall opening, faultA, faultB :: (Loaded(crc, flash, opening, faultA, faultB).0 == Ok <==>
      Loaded(crc, flash, opening, faultA, faultB).1.Some?)
  {
    hide Contents;
  }

  /** Is `generation` 1 to 2^31 - 1 steps ahead of `other`, on the circle of 32-bit words? */
  predicate Ahead(generation: Word32, other: Word32) {
    1 <= (generation - other) % 0x1_0000_0000 < 0x8000_0000
  }

  /** Nothing stands against a save: the snapshot fits, the namespace opens, both slots are read, neither is of another
      version, their generations can be ordered, and the new one is ahead of that which counts. */
  ghost predicate Ready(crc: Checksum, flash: Flash, c: SystemConfig, generation: Word32, env: Env) {
    && EncodeConfig(c).Payload? && env.opening.Opens? && !env.faultA && !env.faultB
    && (forall i :: 0 <= i < 2 ==> Contents(crc, flash[i]).0 !in {StorageError, IncompatibleVersion})
    && !Ambiguous(crc, flash)
    && (Current(crc, flash).Some? ==> Ahead(generation, Current(crc, flash).value.generation))
  }

  lemma AheadIsNewer(left: Word32, right: Word32)
    ensures Newer(left, right) <==> Ahead(left, right)
  {
  }

  lemma ReadyIsNotRefused(crc: Checksum, flash: Flash, c: SystemConfig, generation: Word32, env: Env)
    ensures Refusal(crc, flash, c, generation, env).None? <==> Ready(crc, flash, c, generation, env)
  {
    hide Contents, EncodeConfig, Newer, Ahead, Ambiguous;
    if Current(crc, flash).Some? {
      AheadIsNewer(generation, Current(crc, flash).value.generation);
    }
  }

  /** Slot `keep`, which counts if any does, is left alone, and the medium decides on the other. */
  ghost predicate WritesBeside(crc: Checksum, flash: Flash, flash': Flash, keep: nat, c: SystemConfig, generation: Word32,
                               medium: Medium)
    requires keep < 2 && EncodeConfig(c).Payload?
  {
    && flash'[keep] == flash[keep]
    && (Current(crc, flash).Some? ==> Value(crc, flash[keep]) == Current(crc, flash))
    && (medium.Stores? ==> flash'[1 - keep] == Blob(BlobOf(crc, EncodeConfig(c).bytes, generation)))
    && (medium.Keeps? ==> flash'[1 - keep] == flash[1 - keep])
    && (medium.Garbles? ==> flash'[1 - keep] == medium.left)
  }

  /** What a save does to the slots: nothing unless it is ready; and then the slot that counts stays as it is, and the
      other holds what the medium made of the blob. */
  lemma SaveWritesTheOther(crc: Checksum, flash: Flash, c: SystemConfig, generation: Word32, env: Env)
    ensures var flash' := Saved(crc, flash, c, generation, env).0;
      if !Ready(crc, flash, c, generation, env) then flash' == flash
      else exists keep :: 0 <= keep < 2 && WritesBeside(crc, flash, flash', keep, c, generation, env.medium)
  {
    hide Contents, EncodeConfig, BlobOf, Ready;
    ReadyIsNotRefused(crc, flash, c, generation, env);
    if Ready(crc, flash, c, generation, env) {
      var keep := 1 - Target(crc, flash);
      assert WritesBeside(crc, flash, Saved(crc, flash, c, generation, env).0, keep, c, generation, env.medium);
    }
  }

  /** What a save reports: power is lost only in the write; success exactly if the save is ready, the blob is stored, the
      driver reports no failure and the blob is read back; and each refusal exactly for its own reason. */
  lemma SaveReports(crc: Checksum, flash: Flash, c: SystemConfig, generation: Word32, env: Env)
    requires Sane(crc, env)
    ensures var outcome := Saved(crc, flash, c, generation, env).1;
      var readable := env.opening.Opens? && !env.faultA && !env.faultB &&
        Contents(crc, flash[0]).0 != StorageError && Contents(crc, flash[1]).0 != StorageError;
      var versioned := Contents(crc, flash[0]).0 == IncompatibleVersion || Contents(crc, flash[1]).0 == IncompatibleVersion;
      var ready := Ready(crc, flash, c, generation, env);
      && (outcome == PowerLost <==> ready && env.verdict.LosesPower?)
      && (outcome == Returned(Ok) <==> ready && env.verdict.Succeeds? && env.medium.Stores? && !env.verifyFault)
      && (outcome == Returned(InvalidConfig) <==> !Acceptable(c))
      && (outcome == Returned(PayloadTooLarge) <==> Acceptable(c) && !EncodeConfig(c).Payload?)
      && (outcome == Returned(IncompatibleVersion) <==> EncodeConfig(c).Payload? && readable && versioned)
      && (outcome == Returned(InvalidGeneration) <==>
           EncodeConfig(c).Payload? && readable && !versioned &&
           (Ambiguous(crc, flash) ||
            (Current(crc, flash).Some? && !Ahead(generation, Current(crc, flash).value.generation))))
      && (outcome.PowerLost? || outcome.error in
           {Ok, InvalidConfig, PayloadTooLarge, IncompatibleVersion, InvalidGeneration, StorageError})
  {
    hide Contents, Saved, Ready, Ahead, Ambiguous, Sane, Acceptable, EncodeConfig;
    ReadyIsNotRefused(crc, flash, c, generation, env);
    EncodingRefusals(c);
    if Ready(crc, flash, c, generation, env) {
      ReadySaveReports(crc, flash, c, generation, env);
    } else {
      RefusedSaveReports(crc, flash, c, generation, env);
    }
  }

  lemma EncodingRefusals(c: SystemConfig)
    ensures EncodeConfig(c).Payload? ==> Acceptable(c)
    ensures EncodeConfig(c).Refused? ==> EncodeConfig(c).error == if Acceptable(c) then PayloadTooLarge else InvalidConfig
  {
    hide Acceptable;
  }

  lemma ReadySaveReports(crc: Checksum, flash: Flash, c: SystemConfig, generation: Word32, env: Env)
    requires Sane(crc, env) && Ready(crc, flash, c, generation, env)
    ensures Saved(crc, flash, c, generation, env).1 ==
      if env.verdict.LosesPower? then PowerLost
      else if env.verdict.Succeeds? && env.medium.Stores? && !env.verifyFault then Returned(Ok) else Returned(StorageError)
    ensures EncodeConfig(c).Payload? && !Ambiguous(crc, flash)
    ensures Contents(crc, flash[0]).0 != IncompatibleVersion && Contents(crc, flash[1]).0 != IncompatibleVersion
    ensures Current(crc, flash).Some? ==> Ahead(generation, Current(crc, flash).value.generation)
  {
    hide Contents, EncodeConfig, BlobOf, Torn;
    ReadyIsNotRefused(crc, flash, c, generation, env);
    match env.medium
    case Stores => BlobReadsBack(crc, c, generation);
    case Garbles(left) => TornReadsAsNothing(crc, left);
    case Keeps =>
      var target := Target(crc, flash);
      if Value(crc, flash[target]).Some? {
        OtherIsNotAhead(Value(crc, flash[target]).value.generation, Current(crc, flash).value.generation, generation);
      }
  }

  /** A generation ahead of the one that counts is not that of the other slot. */
  lemma OtherIsNotAhead(other: Word32, current: Word32, generation: Word32)
    requires Minus32(other, current) !in {0, TWO31} && !Newer(other, current) && Ahead(generation, current)
    ensures generation != other
  {
  }

  lemma RefusedSaveReports(crc: Checksum, flash: Flash, c: SystemConfig, generation: Word32, env: Env)
    requires !Ready(crc, flash, c, generation, env)
    ensures var readable := env.opening.Opens? && !env.faultA && !env.faultB &&
        Contents(crc, flash[0]).0 != StorageError && Contents(crc, flash[1]).0 != StorageError;
      var versioned := Contents(crc, flash[0]).0 == IncompatibleVersion || Contents(crc, flash[1]).0 == IncompatibleVersion;
      Saved(crc, flash, c, generation, env).1 == Returned(
        if EncodeConfig(c).Refused? then EncodeConfig(c).error
        else if !readable then StorageError
        else if versioned then IncompatibleVersion
        else InvalidGeneration)
    ensures var clean := EncodeConfig(c).Payload? && env.opening.Opens? && !env.faultA && !env.faultB &&
        Contents(crc, flash[0]).0 !in {StorageError, IncompatibleVersion} &&
        Contents(crc, flash[1]).0 !in {StorageError, IncompatibleVersion};
      clean ==>
        Ambiguous(crc, flash) || (Current(crc, flash).Some? && !Ahead(generation, Current(crc, flash).value.generation))
  {
    hide Contents, EncodeConfig, Ahead, Current, Ambiguous;
    ReadyIsNotRefused(crc, flash, c, generation, env);
  }

  /** What a load reports: success exactly with a snapshot; without one, an open that fails or an unreadable slot before
      another version, that before a corrupt slot or slots that cannot be ordered, and that before nothing stored. */
  lemma LoadReports(crc: Checksum, flash: Flash, opening: Opening, faultA: bool, faultB: bool)
    ensures var (error, value) := Loaded(crc, flash, opening, faultA, faultB);
      var a := if faultA then StorageError else Contents(crc, flash[0]).0;
      var b := if faultB then StorageError else Contents(crc, flash[1]).0;
      && (value.Some? <==> error == Ok)
      && (value.Some? ==> opening.Opens? && (a == Ok || b == Ok))
      && error == match opening
         case NoNamespace => NotFound
         case OpenFails => StorageError
         case Opens =>
           if a == Ok && b == Ok then (if Ambiguous(crc, flash) then Corrupt else Ok)
           else if a == Ok || b == Ok then Ok
           else if a == StorageError || b == StorageError then StorageError
           else if a == IncompatibleVersion || b == IncompatibleVersion then IncompatibleVersion
           else if a == Corrupt || b == Corrupt then Corrupt
           else NotFound
  {
    hide Contents;
  }

  // ----- Unbounded version numbers

  /** Version numbers that never wrap, one for each slot. */
  type Versions = vs: seq<int> | |vs| == 2 witness [0, 0]

  /** Stored generations are versions modulo 2^32, and two valid versions are 1 to 2^31 - 1 apart. */
  ghost predicate Tracks(crc: Checksum, flash: Flash, vs: Versions) {
    && (forall i :: 0 <= i < 2 && Value(crc, flash[i]).Some? ==> Value(crc, flash[i]).value.generation == Unsigned32(vs[i]))
    && (Value(crc, flash[0]).Some? && Value(crc, flash[1]).Some? ==> -TWO31 < vs[0] - vs[1] < TWO31 && vs[0] != vs[1])
  }

  /** The store that never wraps: the valid slot with the larger version counts. */
  ghost function IdealCurrent(crc: Checksum, flash: Flash, vs: Versions): Option<LoadedConfig> {
    var a, b := Value(crc, flash[0]), Value(crc, flash[1]);
    if a.Some? && (b.None? || vs[0] > vs[1]) then a else b
  }

  /** The version of the snapshot that counts, if there is one. */
  ghost function CurrentVersion(crc: Checksum, flash: Flash, vs: Versions): int {
    vs[Chosen(crc, flash).slot]
  }

  /** Where versions are tracked, the wrapping comparison picks what the unbounded one picks,
      and its ambiguous case does not occur. */
  lemma WrappingOrderRefines(crc: Checksum, flash: Flash, vs: Versions)
    requires Tracks(crc, flash, vs)
    ensures !Ambiguous(crc, flash)
    ensures Current(crc, flash) == IdealCurrent(crc, flash, vs)
    ensures Current(crc, flash).Some? ==>
      Current(crc, flash).value.generation == Unsigned32(CurrentVersion(crc, flash, vs))
  {
    hide Contents;
  }

  /** A save that stores its blob moves the target slot ahead of the current version. */
  ghost function VersionsAfter(crc: Checksum, flash: Flash, vs: Versions, c: SystemConfig, generation: Word32,
      env: Env): Versions {
    hide Contents, EncodeConfig;
    if Refusal(crc, flash, c, generation, env).Some? || !env.medium.Stores? then vs
    else
      var ahead := if Current(crc, flash).None? then generation
        else CurrentVersion(crc, flash, vs) + Minus32(generation, Current(crc, flash).value.generation);
      vs[Target(crc, flash) := ahead]
  }

  lemma UnsignedShift(v: int, generation: Word32)
    ensures Unsigned32(v + Minus32(generation, Unsigned32(v))) == generation
    ensures Unsigned32(generation) == generation
  {
  }

  lemma NewerDistance(generation: Word32, current: Option<LoadedConfig>)
    requires current.Some? ==> Newer(generation, current.value.generation)
    ensures current.Some? ==> 0 < Minus32(generation, current.value.generation) < TWO31
  {
  }

  lemma SaveKeepsTracking(crc: Checksum, flash: Flash, vs: Versions, c: SystemConfig, generation: Word32, env: Env)
    requires Sane(crc, env) && Tracks(crc, flash, vs)
    ensures var flash' := Saved(crc, flash, c, generation, env).0;
      var vs' := VersionsAfter(crc, flash, vs, c, generation, env);
      && Tracks(crc, flash', vs')
      && (Current(crc, flash).Some? ==>
           && Current(crc, flash').Some?
           && CurrentVersion(crc, flash, vs) <= CurrentVersion(crc, flash', vs') < CurrentVersion(crc, flash, vs) + TWO31)
  {
    hide Contents, EncodeConfig, BlobOf, Unsigned32, Minus32, Ambiguous, Torn;
    if env.medium.Garbles? {
      TornReadsAsNothing(crc, env.medium.left);
    }
    WrappingOrderRefines(crc, flash, vs);
    if Refusal(crc, flash, c, generation, env).None? {
      if env.medium.Stores? {
        BlobReadsBack(crc, c, generation);
        UnsignedShift(CurrentVersion(crc, flash, vs), generation);
        NewerDistance(generation, Current(crc, flash));
        WrappingOrderRefines(crc, Saved(crc, flash, c, generation, env).0,
            VersionsAfter(crc, flash, vs, c, generation, env));
      } else if env.medium.Keeps? {
        assert Saved(crc, flash, c, generation, env).0 == flash;
      }
    }
  }

  // ----- Runs

  datatype SaveEvent = SaveEvent(config: SystemConfig, generation: Word32, env: Env)

  ghost function Step(crc: Checksum, flash: Flash, e: SaveEvent): Flash {
    Saved(crc, flash, e.config, e.generation, e.env).0
  }

  ghost function Run(crc: Checksum, flash: Flash, events: seq<SaveEvent>): Flash {
    if events == [] then flash
    else Step(crc, Run(crc, flash, events[..|events| - 1]), events[|events| - 1])
  }

  ghost function RunVersions(crc: Checksum, flash: Flash, vs: Versions, events: seq<SaveEvent>): Versions {
    if events == [] then vs
    else
      var front, e := events[..|events| - 1], events[|events| - 1];
      VersionsAfter(crc, Run(crc, flash, front), RunVersions(crc, flash, vs, front), e.config, e.generation, e.env)
  }

  ghost predicate SaneRun(crc: Checksum, events: seq<SaveEvent>) {
    forall i :: 0 <= i < |events| ==> Sane(crc, events[i].env)
  }

  lemma {:induction false} RunKeepsTracking(crc: Checksum, flash: Flash, vs: Versions, events: seq<SaveEvent>)
    requires SaneRun(crc, events) && Tracks(crc, flash, vs)
    ensures Tracks(crc, Run(crc, flash, events), RunVersions(crc, flash, vs, events))
    decreases |events|
  {
    hide Tracks, Saved, VersionsAfter;
    if events == [] {
    } else {
      var front, e := events[..|events| - 1], events[|events| - 1];
      RunKeepsTracking(crc, flash, vs, front);
      SaveKeepsTracking(crc, Run(crc, flash, front), RunVersions(crc, flash, vs, front), e.config, e.generation, e.env);
    }
  }

  /** From an empty store, whatever saves, failures and power cuts follow: the stored generations are
      unbounded versions modulo 2^32, two valid ones are 1 to 2^31 - 1 apart, the ambiguous case is never
      reached, and the snapshot that counts is the one with the larger version. */
  lemma ReachableStoresAreOrdered(crc: Checksum, events: seq<SaveEvent>)
    requires SaneRun(crc, events)
    ensures var flash, vs := Run(crc, EMPTY, events), RunVersions(crc, EMPTY, [0, 0], events);
      && Tracks(crc, flash, vs) && !Ambiguous(crc, flash)
      && Current(crc, flash) == IdealCurrent(crc, flash, vs)
  {
    RunKeepsTracking(crc, EMPTY, [0, 0], events);
    WrappingOrderRefines(crc, Run(crc, EMPTY, events), RunVersions(crc, EMPTY, [0, 0], events));
  }

  /** Crash safety of a whole run from any unambiguous store. What counts at the end is what counted at the
      start or exactly what one of the saves offered; and once something counts, something always will. */
  lemma {:induction false} RunIsCrashSafe(crc: Checksum, flash: Flash, events: seq<SaveEvent>)
    requires SaneRun(crc, events) && !Ambiguous(crc, flash)
    ensures var last := Run(crc, flash, events);
      && !Ambiguous(crc, last)
      && (Current(crc, flash).Some? ==> Current(crc, last).Some?)
      && (|| Current(crc, last) == Current(crc, flash)
          || exists i :: 0 <= i < |events| && Current(crc, last) == Some(LoadedConfig(events[i].config, events[i].generation)))
    decreases |events|
  {
    hide Current, Ambiguous, Saved;
    if events == [] {
    } else {
      var front, e := events[..|events| - 1], events[|events| - 1];
      RunIsCrashSafe(crc, flash, front);
      var before := Run(crc, flash, front);
      SaveIsAtomic(crc, before, e.config, e.generation, e.env);
      assert e == events[|front|];
      if Current(crc, Run(crc, flash, events)) == Current(crc, before) && Current(crc, before) != Current(crc, flash) {
        var i :| 0 <= i < |front| && Current(crc, before) == Some(LoadedConfig(front[i].config, front[i].generation));
        assert front[i] == events[i];
      }
    }
  }

  /** Right after a save that reported success, a load returns exactly what was saved; it stays what
      loads return until another save offers something else. */
  lemma SuccessIsDurable(crc: Checksum, flash: Flash, c: SystemConfig, generation: Word32, env: Env,
      later: seq<SaveEvent>)
    requires Sane(crc, env) && SaneRun(crc, later) && !Ambiguous(crc, flash)
    requires Saved(crc, flash, c, generation, env).1 == Returned(Ok)
    ensures var flash' := Saved(crc, flash, c, generation, env).0;
      var offered := Some(LoadedConfig(c, generation));
      && Loaded(crc, flash', Opens, false, false) == (Ok, offered)
      && var last := Loaded(crc, Run(crc, flash', later), Opens, false, false).1;
         || last == offered
         || exists i :: 0 <= i < |later| && last == Some(LoadedConfig(later[i].config, later[i].generation))
  {
    hide Contents, EncodeConfig, BlobOf, Saved, Run;
    SaveIsAtomic(crc, flash, c, generation, env);
    var flash' := Saved(crc, flash, c, generation, env).0;
    LoadReturns(crc, flash');
    RunIsCrashSafe(crc, flash', later);
    LoadReturns(crc, Run(crc, flash', later));
  }
}
