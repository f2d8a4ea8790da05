/** Whole runs of the shell and its store: commands, failing writes, power cuts and reboots. */
module ShellSafety {
  import opened Wrappers
  import opened Words
  import opened Config
  import opened Codec
  import opened Store
  import opened StoreSafety
  import opened ShellConfig

  /** `ever` holds the snapshots applied since the device was new; `since` counts the successful applies since the last
      start-up or completed write, and `origin` is the shell's generation at that moment. */
  datatype World = World(shell: ShellState, flash: Flash, ever: set<SystemConfig>, since: nat, origin: Word32)

  /** `boot` is the start-up that follows a reboot, or a power cut during a command. */
  datatype Event = Do(command: Command, locked: bool, env: Env, boot: Boot) | Reboot(boot: Boot)

  ghost function Started(crc: Checksum, derive: Derivation, flash: Flash, ever: set<SystemConfig>, boot: Boot): World {
    var shell := Booted(crc, derive, flash, boot);
    World(shell, flash, ever, 0, shell.generation)
  }

  ghost function Fresh(crc: Checksum, derive: Derivation): World {
    Started(crc, derive, EMPTY, {}, CLEAN_BOOT)
  }

  ghost predicate SaneEvent(crc: Checksum, e: Event) {
    e.Do? ==> Sane(crc, e.env)
  }

  /** Does this event complete a write of the applied snapshot? */
  ghost predicate Writes(crc: Checksum, w: World, e: Event) {
    && e.Do? && e.command.Save? && w.shell.applied.Some? && e.env.medium.Stores?
    && Refusal(crc, w.flash, w.shell.applied.value, w.shell.generation, e.env).None?
  }

  ghost predicate Applies(derive: Derivation, w: World, e: Event) {
    e.Do? && e.command.Apply? && e.locked && Runnable(w.shell.staged, derive)
  }

  ghost function Next(crc: Checksum, derive: Derivation, w: World, e: Event): World {
    hide Saved, Loaded, Refusal, Runnable;
    match e
    case Reboot(boot) => Started(crc, derive, w.flash, w.ever, boot)
    case Do(command, locked, env, boot) =>
      var (shell, flash, response) := Handled(crc, derive, w.shell, w.flash, command, locked, env);
      if response == PowerGone then Started(crc, derive, flash, w.ever, boot)
      else if Applies(derive, w, e) then World(shell, flash, w.ever + {w.shell.staged}, w.since + 1, w.origin)
      else if Writes(crc, w, e) then World(shell, flash, w.ever, 0, shell.generation)
      else World(shell, flash, w.ever, w.since, w.origin)
  }

  ghost function Run(crc: Checksum, derive: Derivation, events: seq<Event>): World {
    if events == [] then Fresh(crc, derive)
    else Next(crc, derive, Run(crc, derive, events[..|events| - 1]), events[|events| - 1])
  }

  ghost predicate Stored(crc: Checksum, flash: Flash, i: nat, ever: set<SystemConfig>)
    requires i < 2
  {
    Value(crc, flash[i]).Some? ==> Value(crc, flash[i]).value.config in ever
  }

  /** What every reachable world satisfies. */
  ghost predicate Invariant(crc: Checksum, derive: Derivation, w: World) {
    && !Ambiguous(crc, w.flash)
    && (forall c :: c in w.ever ==> Runnable(c, derive))
    && Stored(crc, w.flash, 0, w.ever) && Stored(crc, w.flash, 1, w.ever)
    && (w.shell.applied.Some? ==> w.shell.applied.value in w.ever)
    && Minus32(w.shell.generation, w.origin) == Unsigned32(w.since)
  }

  lemma CountOneMore(gen: Word32, stored: Word32, since: nat)
    requires Minus32(gen, stored) == Unsigned32(since)
    ensures Minus32(Unsigned32(gen + 1), stored) == Unsigned32(since + 1)
  {
    var q, r := since / 0x1_0000_0000, since % 0x1_0000_0000;
    if r + 1 == 0x1_0000_0000 {
      UniqueQuotient(since + 1, 0x1_0000_0000, q + 1, 0);
    } else {
      UniqueQuotient(since + 1, 0x1_0000_0000, q, r + 1);
    }
  }

  /** The shell as it should come up: running the snapshot that counts, or as a new device if there is none. */
  ghost function Restored(crc: Checksum, flash: Flash): ShellState {
    if Current(crc, flash).None? then DEFAULT_SHELL
    else var LoadedConfig(c, generation) := Current(crc, flash).value; ShellState(c, Some(c), generation)
  }

  ghost predicate BootReadsCurrent(crc: Checksum, flash: Flash, boot: Boot) {
    ReadsCurrent(crc, flash, boot.opening, boot.faultA, boot.faultB)
  }

  /** Running the snapshot of slot `i`. */
  ghost predicate RunsSlot(crc: Checksum, flash: Flash, i: nat, s: ShellState)
    requires i < 2
  {
    Value(crc, flash[i]).Some? &&
    var LoadedConfig(c, generation) := Value(crc, flash[i]).value; s == ShellState(c, Some(c), generation)
  }

  lemma LoadsASlot(crc: Checksum, flash: Flash, boot: Boot)
    ensures var (error, loaded) := Loaded(crc, flash, boot.opening, boot.faultA, boot.faultB);
      (error == Ok <==> loaded.Some?) && (loaded.Some? ==> loaded == Value(crc, flash[0]) || loaded == Value(crc, flash[1]))
  {
    hide Contents;
  }

  lemma SlotsDiffer(crc: Checksum, flash: Flash)
    requires !Ambiguous(crc, flash) && Value(crc, flash[0]).Some? && Value(crc, flash[1]).Some?
    ensures Value(crc, flash[0]).value.generation != Value(crc, flash[1]).value.generation
    ensures Current(crc, flash) == Value(crc, flash[0]) || Current(crc, flash) == Value(crc, flash[1])
  {
    hide Contents;
  }

  /** Start-up restores what counts if and only if it reads the slot that counts. Otherwise the shell runs the other
      slot's snapshot, or comes up as a new device. */
  lemma BootRestoresExactly(crc: Checksum, derive: Derivation, flash: Flash, ever: set<SystemConfig>, boot: Boot)
    requires !Ambiguous(crc, flash) && forall c :: c in ever ==> Runnable(c, derive)
    requires Stored(crc, flash, 0, ever) && Stored(crc, flash, 1, ever)
    ensures var s := Booted(crc, derive, flash, boot);
      && (s == Restored(crc, flash) <==> BootReadsCurrent(crc, flash, boot))
      && (s == DEFAULT_SHELL || RunsSlot(crc, flash, 0, s) || RunsSlot(crc, flash, 1, s))
      && (Current(crc, flash).Some? ==>
           (s.generation == Current(crc, flash).value.generation <==>
             BootReadsCurrent(crc, flash, boot) || (s == DEFAULT_SHELL && Current(crc, flash).value.generation == 0)))
  {
    hide Value, Runnable, Chosen, Current, Ambiguous, Loaded, ReadsCurrent;
    LoadReturns(crc, flash);
    LoadsASlot(crc, flash, boot);
    if Current(crc, flash).Some? {
      CurrentIsSlot(crc, flash);
    }
    if Value(crc, flash[0]).Some? && Value(crc, flash[1]).Some? {
      SlotsDiffer(crc, flash);
    }
  }

  lemma CurrentIsSlot(crc: Checksum, flash: Flash)
    requires Current(crc, flash).Some?
    ensures Current(crc, flash) == Value(crc, flash[0]) || Current(crc, flash) == Value(crc, flash[1])
  {
    hide Contents;
  }

  /** Whatever the driver does to it, start-up keeps the invariant. */
  lemma BootKeepsInvariant(crc: Checksum, derive: Derivation, flash: Flash, ever: set<SystemConfig>, boot: Boot)
    requires !Ambiguous(crc, flash) && forall c :: c in ever ==> Runnable(c, derive)
    requires Stored(crc, flash, 0, ever) && Stored(crc, flash, 1, ever)
    ensures Invariant(crc, derive, Started(crc, derive, flash, ever, boot))
  {
    hide Runnable, Ambiguous, Booted, Minus32, Unsigned32;
    BootRestoresExactly(crc, derive, flash, ever, boot);
    SelfDistance(Booted(crc, derive, flash, boot).generation);
  }

  /** A save stores the offered snapshot or keeps the one that counts, and stores nothing else. */
  lemma SaveStores(crc: Checksum, flash: Flash, c: SystemConfig, generation: Word32, env: Env, ever: set<SystemConfig>)
    requires Sane(crc, env) && !Ambiguous(crc, flash) && c in ever
    requires Stored(crc, flash, 0, ever) && Stored(crc, flash, 1, ever)
    ensures var flash' := Saved(crc, flash, c, generation, env).0;
      && !Ambiguous(crc, flash') && Stored(crc, flash', 0, ever) && Stored(crc, flash', 1, ever)
      && Current(crc, flash') ==
           if Refusal(crc, flash, c, generation, env).None? && env.medium.Stores? then Some(LoadedConfig(c, generation))
           else Current(crc, flash)
  {
    hide Contents, EncodeConfig, BlobOf, Torn;
    SaveIsAtomic(crc, flash, c, generation, env);
    if env.medium.Garbles? {
      TornReadsAsNothing(crc, env.medium.left);
    }
    if Refusal(crc, flash, c, generation, env).None? {
      if env.medium.Stores? {
        BlobReadsBack(crc, c, generation);
      } else if env.medium.Keeps? {
        assert Saved(crc, flash, c, generation, env).0 == flash;
      }
    }
  }

  lemma NextKeepsInvariant(crc: Checksum, derive: Derivation, w: World, e: Event)
    requires SaneEvent(crc, e) && Invariant(crc, derive, w)
    ensures Invariant(crc, derive, Next(crc, derive, w, e))
  {
    hide Saved, Loaded, Current, Ambiguous, Value, Refusal, Runnable, Minus32, Unsigned32, Booted;
    if e.Reboot? {
      BootKeepsInvariant(crc, derive, w.flash, w.ever, e.boot);
    } else {
      match e.command
      case Apply => CountOneMore(w.shell.generation, w.origin, w.since);
      case Save =>
        if w.shell.applied.Some? {
          var c := w.shell.applied.value;
          SaveStores(crc, w.flash, c, w.shell.generation, e.env, w.ever);
          var flash' := Saved(crc, w.flash, c, w.shell.generation, e.env).0;
          BootKeepsInvariant(crc, derive, flash', w.ever, e.boot);
          SelfDistance(w.shell.generation);
        }
      case _ =>
    }
  }

  lemma SelfDistance(g: Word32)
    ensures Minus32(g, g) == Unsigned32(0)
  {
  }

  lemma {:induction false} ReachableInvariant(crc: Checksum, derive: Derivation, events: seq<Event>)
    requires forall i :: 0 <= i < |events| ==> SaneEvent(crc, events[i])
    ensures Invariant(crc, derive, Run(crc, derive, events))
    decreases |events|
  {
    hide Next, SaneEvent;
    if events == [] {
      BootKeepsInvariant(crc, derive, EMPTY, {}, CLEAN_BOOT);
    } else {
      ReachableInvariant(crc, derive, events[..|events| - 1]);
      NextKeepsInvariant(crc, derive, Run(crc, derive, events[..|events| - 1]), events[|events| - 1]);
    }
  }

  const DEFAULT_SHELL: ShellState := ShellState(DEFAULT_CONFIG, None, 0)

  lemma StoredWasApplied(crc: Checksum, derive: Derivation, w: World, i: nat)
    requires i < 2 && Invariant(crc, derive, w)
    ensures Value(crc, w.flash[i]).Some? ==>
      var c := Value(crc, w.flash[i]).value.config; c in w.ever && Acceptable(c) && Derivable(c, derive)
  {
    hide Acceptable, Derivable, Value, Ambiguous, Minus32, Unsigned32;
    assert Stored(crc, w.flash, i, w.ever);
  }

  /** Only snapshots that validated and were applied are ever on the flash of a reachable device. */
  lemma OnlyAppliedIsStored(crc: Checksum, derive: Derivation, events: seq<Event>, i: nat)
    requires i < 2 && forall k :: 0 <= k < |events| ==> SaneEvent(crc, events[k])
    ensures var w := Run(crc, derive, events);
      Value(crc, w.flash[i]).Some? ==>
        var c := Value(crc, w.flash[i]).value.config; c in w.ever && Acceptable(c) && Derivable(c, derive)
  {
    hide *;
    ReachableInvariant(crc, derive, events);
    StoredWasApplied(crc, derive, Run(crc, derive, events), i);
  }

  /** `since` applies after the shell's generation was `origin`, how does it compare with the stored one? */
  predicate CountsFrom(gen: Word32, origin: Word32, stored: Word32, since: nat) {
    && Minus32(gen, stored) == (since + Minus32(origin, stored)) % TWO32
    && (Minus32(gen, stored) == since % TWO32 <==> origin == stored)
    && (origin == stored ==> (Newer(gen, stored) <==> 1 <= since % TWO32 < TWO31))
    && (origin == stored && since < TWO32 ==> (Newer(gen, stored) <==> 1 <= since < TWO31))
  }

  /** With a stored snapshot, the shell's generation is ahead of it by the applies since the last start-up or write and
      by whatever that moment was ahead. Where it was not, the generation check of a save passes exactly when the number
      of those applies is, modulo 2^32, between 1 and 2^31 - 1. */
  lemma GenerationCountsApplies(crc: Checksum, derive: Derivation, events: seq<Event>)
    requires forall k :: 0 <= k < |events| ==> SaneEvent(crc, events[k])
    requires Current(crc, Run(crc, derive, events).flash).Some?
    ensures var w := Run(crc, derive, events);
      CountsFrom(w.shell.generation, w.origin, Current(crc, w.flash).value.generation, w.since)
  {
    hide Current, Next, Ambiguous, Run, Runnable, Stored, Unsigned32, Minus32, CountsFrom;
    ReachableInvariant(crc, derive, events);
    var w := Run(crc, derive, events);
    AddDistances(w.shell.generation, w.origin, Current(crc, w.flash).value.generation, w.since);
  }

  lemma AddDistances(gen: Word32, origin: Word32, stored: Word32, since: nat)
    requires Minus32(gen, origin) == Unsigned32(since)
    ensures CountsFrom(gen, origin, stored, since)
  {
    hide Minus32, Unsigned32, Newer;
    ModSum(since, Minus32(origin, stored));
    AroundBy(gen, origin, stored, since % TWO32);
    assert Minus32(gen, stored) == (since + Minus32(origin, stored)) % TWO32;
    NewerThan(gen, stored);
    SmallMod(since);
  }

  lemma ModSum(a: nat, d: Word32)
    ensures (a + d) % TWO32 == if a % TWO32 + d < TWO32 then a % TWO32 + d else a % TWO32 + d - TWO32
  {
    var q, r := a / 0x1_0000_0000, a % 0x1_0000_0000;
    if r + d < 0x1_0000_0000 {
      UniqueQuotient(a + d, 0x1_0000_0000, q, r + d);
    } else {
      UniqueQuotient(a + d, 0x1_0000_0000, q + 1, r + d - 0x1_0000_0000);
    }
  }

  /** Going on from `stored` to `origin` and from there by `r`, on the circle of 32-bit words. */
  lemma AroundBy(gen: Word32, origin: Word32, stored: Word32, r: Word32)
    ensures Minus32(gen, origin) == Unsigned32(r) ==>
      Minus32(gen, stored) == if r + Minus32(origin, stored) < TWO32 then r + Minus32(origin, stored)
                              else r + Minus32(origin, stored) - TWO32
    ensures Minus32(origin, stored) == 0 <==> origin == stored
    ensures forall since: nat :: since % TWO32 == r ==> Unsigned32(since) == Unsigned32(r)
  {
  }

  lemma NewerThan(gen: Word32, stored: Word32)
    ensures Newer(gen, stored) <==> 1 <= Minus32(gen, stored) < TWO31
  {
  }

  lemma SmallMod(since: nat)
    ensures since < TWO32 ==> since % TWO32 == since
  {
  }

  /** Does the count of applies start at the generation of the stored snapshot? */
  ghost predicate Counted(crc: Checksum, w: World) {
    Current(crc, w.flash).Some? ==> w.origin == Current(crc, w.flash).value.generation
  }

  ghost predicate Boots(crc: Checksum, derive: Derivation, w: World, e: Event) {
    e.Reboot? || Handled(crc, derive, w.shell, w.flash, e.command, e.locked, e.env).2 == PowerGone
  }

  /** Exactly when the count starts there: a completed write makes it so, other commands leave it as it is, and after a
      start-up it is so if and only if that read the slot that counts, or came up as new while generation 0 is stored. */
  lemma CountsFromStored(crc: Checksum, derive: Derivation, w: World, e: Event)
    requires SaneEvent(crc, e) && Invariant(crc, derive, w)
    ensures var w' := Next(crc, derive, w, e);
      if Boots(crc, derive, w, e) then
        Counted(crc, w') <==>
          BootReadsCurrent(crc, w'.flash, e.boot) ||
              (w'.shell == DEFAULT_SHELL && Current(crc, w'.flash).value.generation == 0)
      else Counted(crc, w') <==> Writes(crc, w, e) || Counted(crc, w)
  {
    hide Saved, Loaded, Current, Ambiguous, Value, Refusal, Runnable, Minus32, Unsigned32, Booted, ReadsCurrent;
    var w' := Next(crc, derive, w, e);
    NextKeepsInvariant(crc, derive, w, e);
    if e.Do? && e.command.Save? && w.shell.applied.Some? {
      SaveStores(crc, w.flash, w.shell.applied.value, w.shell.generation, e.env, w.ever);
    }
    if Boots(crc, derive, w, e) {
      BootRestoresExactly(crc, derive, w'.flash, w.ever, e.boot);
      NothingToRead(crc, w'.flash, e.boot);
    }
  }

  lemma NothingToRead(crc: Checksum, flash: Flash, boot: Boot)
    ensures Current(crc, flash).None? ==> BootReadsCurrent(crc, flash, boot)
  {
    hide Current, Chosen;
  }

  /** Where a start-up that cannot open the store leaves the count: it begins at generation 0, so with a generation of
      up to 2^31 stored, saves stay refused until there have been more applies than that generation. */
  lemma BlindBootBlocksSaves(crc: Checksum, derive: Derivation, flash: Flash, ever: set<SystemConfig>, faultA: bool,
      faultB: bool)
    requires Current(crc, flash).Some? && 1 <= Current(crc, flash).value.generation <= TWO31
    ensures var w := Started(crc, derive, flash, ever, Boot(OpenFails, faultA, faultB));
      w.shell == DEFAULT_SHELL && w.origin == 0 && !Counted(crc, w) &&
      forall applies :: 0 <= applies <= Current(crc, flash).value.generation ==>
        !Newer(Unsigned32(applies), Current(crc, flash).value.generation)
  {
    hide Current;
  }

  /** After any run, a start-up restores what counts if and only if it reads the slot that counts; otherwise it runs the
      snapshot of the other slot, which was applied before, or comes up as a new device. */
  lemma RebootRestores(crc: Checksum, derive: Derivation, events: seq<Event>, boot: Boot)
    requires forall k :: 0 <= k < |events| ==> SaneEvent(crc, events[k])
    ensures var w := Run(crc, derive, events);
      var s := Booted(crc, derive, w.flash, boot);
      && (s == Restored(crc, w.flash) <==> BootReadsCurrent(crc, w.flash, boot))
      && (s == DEFAULT_SHELL || RunsSlot(crc, w.flash, 0, s) || RunsSlot(crc, w.flash, 1, s))
      && (s.applied.Some? ==> s.applied.value in w.ever)
  {
    hide Current, Next, Ambiguous, Booted, Value, Restored, ReadsCurrent, Minus32, Unsigned32;
    ReachableInvariant(crc, derive, events);
    var w := Run(crc, derive, events);
    BootRestoresExactly(crc, derive, w.flash, w.ever, boot);
  }

  /** Commands that leave the flash alone. */
  ghost predicate Unsaved(events: seq<Event>) {
    forall k :: 0 <= k < |events| ==> events[k].Do? && !events[k].command.Save?
  }

  ghost function Continue(crc: Checksum, derive: Derivation, w: World, events: seq<Event>): World {
    if events == [] then w
    else Next(crc, derive, Continue(crc, derive, w, events[..|events| - 1]), events[|events| - 1])
  }

  lemma UnsavedStep(crc: Checksum, derive: Derivation, w: World, e: Event)
    requires e.Do? && !e.command.Save?
    ensures Next(crc, derive, w, e).flash == w.flash
  {
    hide Saved, Runnable, Booted, Refusal;
  }

  lemma {:induction false} UnsavedKeepsFlash(crc: Checksum, derive: Derivation, w: World, events: seq<Event>)
    requires Unsaved(events)
    ensures Continue(crc, derive, w, events).flash == w.flash
    decreases |events|
  {
    hide Next;
    if events == [] {
    } else {
      var front := events[..|events| - 1];
      UnsavedKeepsFlash(crc, derive, w, front);
      UnsavedStep(crc, derive, Continue(crc, derive, w, front), events[|events| - 1]);
    }
  }

  /** After a save that answers OK, whatever is edited, applied or rolled back without being saved is gone after a
      reboot that reads the slot that counts, and after no other: the device runs the saved snapshot again, with its
      generation. */
  lemma SavedSurvivesReboot(crc: Checksum, derive: Derivation, events: seq<Event>, save: Event, later: seq<Event>,
      boot: Boot)
    requires forall k :: 0 <= k < |events| ==> SaneEvent(crc, events[k])
    requires SaneEvent(crc, save) && save.Do? && save.command.Save? && Unsaved(later)
    requires var w := Run(crc, derive, events);
      Handled(crc, derive, w.shell, w.flash, Save, save.locked, save.env).2 == Done
    ensures var w := Run(crc, derive, events);
      var flash := Continue(crc, derive, Next(crc, derive, w, save), later).flash;
      && w.shell.applied.Some?
      && (Booted(crc, derive, flash, boot) == ShellState(w.shell.applied.value, w.shell.applied, w.shell.generation)
          <==> BootReadsCurrent(crc, flash, boot))
  {
    hide Saved, Current, Ambiguous, Booted, Refusal, Runnable, Value, Run, Continue, Minus32, Unsigned32, ReadsCurrent;
    var w := Run(crc, derive, events);
    ReachableInvariant(crc, derive, events);
    SaveIsAtomic(crc, w.flash, w.shell.applied.value, w.shell.generation, save.env);
    NextKeepsInvariant(crc, derive, w, save);
    var after := Next(crc, derive, w, save);
    UnsavedKeepsFlash(crc, derive, after, later);
    BootRestoresExactly(crc, derive, after.flash, after.ever, boot);
  }
}
