/** What each command of the shell does to the staged snapshot, the applied snapshot, the generation and the flash, told
    from outside, and that a rollback undoes every edit since the last apply. */
module ShellLaws {
  import opened Wrappers
  import opened Words
  import opened Config
  import opened Codec
  import opened Store
  import opened ShellConfig

  predicate IsEdit(command: Command) {
    command.SiteSet? || command.GroupClear? || command.GroupDelete? || command.GroupAdd?
  }

  predicate IsQuestion(command: Command) {
    command.Help? || command.Status? || command.GroupList? || command.FleetList? || command.Check? || command.Unknown?
  }

  /** Edits change nothing but the staged snapshot, questions change nothing at all, and neither touches the flash. */
  lemma EditsStayStaged(crc: Checksum, derive: Derivation, s: ShellState, flash: Flash, command: Command,
      locked: bool, env: Env)
    requires IsEdit(command) || IsQuestion(command)
    ensures var (s', flash', response) := Handled(crc, derive, s, flash, command, locked, env);
      && flash' == flash && s'.applied == s.applied && s'.generation == s.generation
      && (IsQuestion(command) ==> s' == s) && response != PowerGone
  {
  }

  /** What the edits do to the staged snapshot: set the site, drop all groups, drop the first group of a name, or put a
      group with nothing but the given settings behind the others. */
  lemma EditsAre(crc: Checksum, derive: Derivation, s: ShellState, flash: Flash, locked: bool, env: Env, site: GeoPoint,
                 name: seq<Byte>, count: Word16, protocol: Byte, transport: Byte)
    ensures Handled(crc, derive, s, flash, SiteSet(site), locked, env)
         == (s.(staged := s.staged.(site := Some(site))), flash, Done)
    ensures Handled(crc, derive, s, flash, GroupClear, locked, env) == (s.(staged := s.staged.(groups := [])), flash, Done)
    ensures var (s', _, response) := Handled(crc, derive, s, flash, GroupAdd(name, count, protocol, transport), locked, env);
      if name == [] || count == 0 then s' == s && response == InvalidArgument
      else
        && response == Done
        && s'.staged == s.staged.(groups := s.staged.groups +
             [Group(name, count, protocol, transport, 0, Trajectory(0, 0, 0, 0, 0, 0, 0, 0, []), None,
                    [None, None, None, None, None, None])])
    ensures var (s', _, response) := Handled(crc, derive, s, flash, GroupDelete(name), locked, env);
      var gs := s.staged.groups;
      && (response == Done || response == GroupNotFound)
      && (response == GroupNotFound <==> forall g :: g in gs ==> g.name != name)
      && (response == GroupNotFound ==> s' == s)
      && (response == Done ==> s' == s.(staged := s.staged.(groups := s'.staged.groups)))
      && (response == Done ==> WithoutFirst(gs, s'.staged.groups, name))
  {
    var gs := s.staged.groups;
    var i := FindGroup(gs, name);
    if i < |gs| {
      assert gs[i] in gs && FirstOfName(gs, name, i);
    }
  }

  /** The first group of that name is gone, and nothing else. */
  predicate WithoutFirst(gs: seq<Group>, rest: seq<Group>, name: seq<Byte>) {
    exists i :: 0 <= i < |gs| && FirstOfName(gs, name, i) && rest == gs[..i] + gs[i + 1..]
  }

  predicate FirstOfName(gs: seq<Group>, name: seq<Byte>, i: nat)
    requires i < |gs|
  {
    gs[i].name == name && forall k :: 0 <= k < i ==> gs[k].name != name
  }

  /** Deleting a group just added, under a name that was free, leaves the staged snapshot as it was. */
  lemma DeleteUndoesAdd(crc: Checksum, derive: Derivation, s: ShellState, flash: Flash, locked: bool, env: Env,
                        name: seq<Byte>, count: Word16, protocol: Byte, transport: Byte)
    requires name != [] && count != 0 && forall g :: g in s.staged.groups ==> g.name != name
    ensures var added := Handled(crc, derive, s, flash, GroupAdd(name, count, protocol, transport), locked, env).0;
      Handled(crc, derive, added, flash, GroupDelete(name), locked, env) == (s, flash, Done)
  {
    var gs := s.staged.groups;
    var longer := gs + [NewGroup(name, count, protocol, transport)];
    assert longer[|gs|].name == name;
    forall k | 0 <= k < |gs| ensures longer[k].name != name {
      assert longer[k] == gs[k] && gs[k] in gs;
    }
    assert longer[..|gs|] + longer[|gs| + 1..] == gs;
  }

  /** What the answers to the two questions about the fleet mean. */
  lemma QuestionsAnswer(crc: Checksum, derive: Derivation, s: ShellState, flash: Flash, locked: bool, env: Env)
    ensures forall command | command == FleetList || command == Check ::
      Handled(crc, derive, s, flash, command, locked, env).2 ==
        if Acceptable(s.staged) && Derivable(s.staged, derive) then Done else InvalidConfiguration
  {
    hide Acceptable, Derivable;
  }

  /** An apply makes the staged snapshot the applied one, under the next generation, exactly if it validates, all its
      identities can be derived and the runtime can be locked; otherwise it changes nothing. */
  lemma ApplyIs(crc: Checksum, derive: Derivation, s: ShellState, flash: Flash, locked: bool, env: Env)
    ensures var (s', flash', response) := Handled(crc, derive, s, flash, Apply, locked, env);
      var runs := Acceptable(s.staged) && Derivable(s.staged, derive);
      && flash' == flash
      && (runs && locked ==>
           s' == ShellState(s.staged, Some(s.staged), (s.generation + 1) % 0x1_0000_0000) && response == Done)
      && (!(runs && locked) ==> s' == s)
      && (!runs ==> response == InvalidConfiguration) && (runs && !locked ==> response == OperationFailed)
  {
    hide Acceptable, Derivable;
  }

  /** A save offers the applied snapshot, not the staged one, with the shell's generation to the store, answers as the store
      does, and leaves the shell as it was. */
  lemma SaveIs(crc: Checksum, derive: Derivation, s: ShellState, flash: Flash, locked: bool, env: Env)
    ensures var (s', flash', response) := Handled(crc, derive, s, flash, Save, locked, env);
      && s' == s
      && if s.applied.None? then flash' == flash && response == NoAppliedConfig
         else
           var (stored, outcome) := Saved(crc, flash, s.applied.value, s.generation, env);
           && flash' == stored
           && (response == PowerGone <==> outcome == PowerLost) && (response == Done <==> outcome == Returned(Ok))
           && response in {PowerGone, Done, OperationFailed}
  {
    hide Saved;
  }

  /** A rollback stages the applied snapshot again and changes nothing else; without one it changes nothing. */
  lemma RollbackIs(crc: Checksum, derive: Derivation, s: ShellState, flash: Flash, locked: bool, env: Env)
    ensures var (s', flash', response) := Handled(crc, derive, s, flash, Rollback, locked, env);
      && flash' == flash && s'.applied == s.applied && s'.generation == s.generation
      && (s.applied.Some? ==> s'.staged == s.applied.value && response == Done)
      && (s.applied.None? ==> s' == s && response == NoAppliedConfig)
  {
  }

  /** A command as it is given: with the lock and the driver it meets. */
  datatype Given = Given(command: Command, locked: bool, env: Env)

  ghost function After(crc: Checksum, derive: Derivation, s: ShellState, flash: Flash,
      given: seq<Given>): (ShellState, Flash) {
    if given == [] then (s, flash)
    else
      var (s1, flash1) := After(crc, derive, s, flash, given[..|given| - 1]);
      var last := given[|given| - 1];
      var (s2, flash2, _) := Handled(crc, derive, s1, flash1, last.command, last.locked, last.env);
      (s2, flash2)
  }

  lemma {:induction false} WithoutApply(crc: Checksum, derive: Derivation, s: ShellState, flash: Flash, given: seq<Given>)
    requires forall k :: 0 <= k < |given| ==> !given[k].command.Apply?
    ensures var s' := After(crc, derive, s, flash, given).0; s'.applied == s.applied && s'.generation == s.generation
    decreases |given|
  {
    hide Saved, Runnable;
    if given == [] {
    } else {
      WithoutApply(crc, derive, s, flash, given[..|given| - 1]);
    }
  }

  /** Whatever is edited, asked, saved or rolled back after an apply, a rollback leads back to what the apply left. */
  lemma RollbackUndoesEdits(crc: Checksum, derive: Derivation, s: ShellState, flash: Flash, given: seq<Given>,
                            locked: bool, env: Env)
    requires s.applied == Some(s.staged) && forall k :: 0 <= k < |given| ==> !given[k].command.Apply?
    ensures var (s1, flash1) := After(crc, derive, s, flash, given);
      Handled(crc, derive, s1, flash1, Rollback, locked, env) == (s, flash1, Done)
  {
    hide After;
    WithoutApply(crc, derive, s, flash, given);
  }

  /** The snapshot a new device starts with: no site, no groups, a period of a second, nothing applied, generation 0. */
  lemma NewDevice(crc: Checksum, derive: Derivation, flash: Flash, boot: Boot)
    requires Loaded(crc, flash, boot.opening, boot.faultA, boot.faultB).0 != Ok
    ensures Booted(crc, derive, flash, boot) == ShellState(SystemConfig(None, 1000, []), None, 0)
  {
    hide Loaded;
  }
}
