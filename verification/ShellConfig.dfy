/** The configuration transaction of the shell: edit a staged snapshot, apply it, save what was applied,
    roll back, and what a reboot makes of it all. Commands are taken after their words are parsed. */
module ShellConfig {
  import opened Wrappers
  import opened Words
  import opened Config
  import opened Codec
  import opened Store
  import opened StoreSafety

  datatype Command =
    | Help
    | Status
    | SiteSet(site: GeoPoint)
    | GroupList
    | GroupClear
    | GroupDelete(name: seq<Byte>)
    | GroupAdd(newName: seq<Byte>, count: Word16, protocol: Byte, transport: Byte)
    | FleetList
    | Check
    | Apply
    | Save
    | Rollback
    | Unknown

  datatype Response = Done | InvalidArgument | UnknownCommand | GroupNotFound | InvalidConfiguration
                    | OperationFailed | NoAppliedConfig | PowerGone

  datatype ShellState = ShellState(staged: SystemConfig, applied: Option<SystemConfig>, generation: Word32)

  const DEFAULT_CONFIG: SystemConfig := SystemConfig(None, 1000, [])
  const DEFAULT_TRAJECTORY: Trajectory := Trajectory(HOVER, 0, 0, 0, 0, 0, 0, 0, [])

  function NewGroup(name: seq<Byte>, count: Word16, protocol: Byte, transport: Byte): Group {
    Group(name, count, protocol, transport, BEACON, DEFAULT_TRAJECTORY, None, [None, None, None, None, None, None])
  }

  /** The first group of that name, or the number of groups. */
  function FindGroup(groups: seq<Group>, name: seq<Byte>): (i: nat)
    ensures i <= |groups|
    ensures i < |groups| ==> groups[i].name == name
    ensures forall k :: 0 <= k < i ==> groups[k].name != name
  {
    if groups == [] || groups[0].name == name then 0 else 1 + FindGroup(groups[1..], name)
  }

  /** Validation and identity derivation both succeed: what apply, check and fleet list ask for. */
  ghost predicate Runnable(c: SystemConfig, derive: Derivation) {
    Acceptable(c) && Derivable(c, derive)
  }

  // ----- One command

  /** Shell and flash after a command. `locked` says whether the runtime mutex was obtained. */
  ghost function Handled(crc: Checksum, derive: Derivation, s: ShellState, flash: Flash,
                         command: Command, locked: bool, env: Env): (ShellState, Flash, Response)
  {
    match command
    case Help | Status | GroupList => (s, flash, Done)
    case SiteSet(site) => (s.(staged := s.staged.(site := Some(site))), flash, Done)
    case GroupClear => (s.(staged := s.staged.(groups := [])), flash, Done)
    case GroupDelete(name) =>
      var gs := s.staged.groups;
      var i := FindGroup(gs, name);
      if i == |gs| then (s, flash, GroupNotFound)
      else (s.(staged := s.staged.(groups := gs[..i] + gs[i + 1..])), flash, Done)
    case GroupAdd(name, count, protocol, transport) =>
      if name == [] || count == 0 then (s, flash, InvalidArgument)
      else (s.(staged := s.staged.(groups := s.staged.groups + [NewGroup(name, count, protocol, transport)])), flash, Done)
    case FleetList | Check => (s, flash, if Runnable(s.staged, derive) then Done else InvalidConfiguration)
    case Apply =>
      if !Runnable(s.staged, derive) then (s, flash, InvalidConfiguration)
      else if !locked then (s, flash, OperationFailed)
      else (s.(applied := Some(s.staged), generation := Unsigned32(s.generation + 1)), flash, Done)
    case Save =>
      if s.applied.None? then (s, flash, NoAppliedConfig)
      else
        var (flash', outcome) := Saved(crc, flash, s.applied.value, s.generation, env);
        (s, flash', if outcome.PowerLost? then PowerGone else if outcome.error == Ok then Done else OperationFailed)
    case Rollback =>
      if s.applied.None? then (s, flash, NoAppliedConfig)
      else (s.(staged := s.applied.value), flash, Done)
    case Unknown => (s, flash, UnknownCommand)
  }

  /** What the driver does to the load at start-up. */
  datatype Boot = Boot(opening: Opening, faultA: bool, faultB: bool)

  const CLEAN_BOOT: Boot := Boot(Opens, false, false)

  /** What start-up makes of the flash: the snapshot it loads is staged, and applied if it runs. */
  ghost function Booted(crc: Checksum, derive: Derivation, flash: Flash, boot: Boot): ShellState {
    var (error, loaded) := Loaded(crc, flash, boot.opening, boot.faultA, boot.faultB);
    if error == Ok && loaded.Some? then
      var c := loaded.value.config;
      ShellState(c, if Runnable(c, derive) then Some(c) else None, loaded.value.generation)
    else ShellState(DEFAULT_CONFIG, None, 0)
  }

  class Shell {
    const derive: Derivation
    const store: NvsConfigStore
    var staged: SystemConfig
    var applied: Option<SystemConfig>
    var generation: Word32

    ghost predicate Valid() {
      store.Valid()
    }

    ghost function State(): ShellState
      reads this
    {
      ShellState(staged, applied, generation)
    }

    /** Start-up on the flash a device finds. */
    constructor (derive: Derivation, store: NvsConfigStore, boot: Boot)
      requires store.Valid()
      ensures Valid() && this.derive == derive && this.store == store
      ensures State() == Booted(store.crc, derive, store.State(), boot)
    {
      hide Loaded;
      this.derive, this.store := derive, store;
      var error, loaded := store.Load(boot.opening, boot.faultA, boot.faultB);
      staged, applied, generation := DEFAULT_CONFIG, None, 0;
      if error == Ok && loaded.Some? {
        staged, generation := loaded.value.config, loaded.value.generation;
        var fleet := Expand(loaded.value.config, derive);
        if fleet.Fleet? { applied := Some(loaded.value.config); }
      }
    }

    method DeleteGroup(name: seq<Byte>) returns (response: Response)
      modifies this
      ensures applied == old(applied) && generation == old(generation)
      ensures var gs := old(staged).groups; var i := FindGroup(gs, name);
        if i == |gs| then staged == old(staged) && response == GroupNotFound
        else staged == old(staged).(groups := gs[..i] + gs[i + 1..]) && response == Done
    {
      var gs := staged.groups;
      for current := 0 to |gs|
        invariant staged == old(staged)
        invariant forall k :: 0 <= k < current ==> gs[k].name != name
      {
        if gs[current].name == name {
          assert FindGroup(gs, name) == current;
          staged := staged.(groups := gs[..current] + gs[current + 1..]);
          return Done;
        }
      }
      return GroupNotFound;
    }

    method Handle(command: Command, locked: bool, env: Env) returns (response: Response)
      requires Valid()
      modifies this, store.slots
      ensures Valid()
      ensures (State(), store.State(), response)
           == Handled(store.crc, derive, old(State()), old(store.State()), command, locked, env)
    {
      hide Saved, Acceptable, Derivable;
      match command {
        case Help => return Done;
        case Status => return Done;
        case GroupList => return Done;
        case SiteSet(site) =>
          staged := staged.(site := Some(site));
          return Done;
        case GroupClear =>
          staged := staged.(groups := []);
          return Done;
        case GroupDelete(name) => response := DeleteGroup(name);
        case GroupAdd(name, count, protocol, transport) =>
          if name == [] || count == 0 { return InvalidArgument; }
          staged := staged.(groups := staged.groups + [NewGroup(name, count, protocol, transport)]);
          return Done;
        case FleetList =>
          var expanded := Expand(staged, derive);
          return if expanded.Fleet? then Done else InvalidConfiguration;
        case Check =>
          var expanded := Expand(staged, derive);
          return if expanded.Fleet? then Done else InvalidConfiguration;
        case Apply =>
          var expanded := Expand(staged, derive);
          if expanded.Rejected? { return InvalidConfiguration; }
          var nextGeneration := Unsigned32(generation + 1);
          if !locked { return OperationFailed; }
          // The apply callback starts the runtime, which expands the snapshot again.
          var running := Expand(staged, derive);
          if running.Rejected? { return OperationFailed; }
          applied := Some(staged);
          generation := nextGeneration;
          return Done;
        case Save =>
          if applied.None? { return NoAppliedConfig; }
          var outcome := store.Save(applied.value, generation, env);
          if outcome.PowerLost? { return PowerGone; }
          return if outcome.error == Ok then Done else OperationFailed;
        case Rollback =>
          if applied.None? { return NoAppliedConfig; }
          staged := applied.value;
          return Done;
        case Unknown => return UnknownCommand;
      }
    }
  }
}
