# Remote-ID firmware: a verified model

This project models the logic of the remote-ID broadcasting firmware below its hardware calls and proves what that
logic promises. Each module follows one component:

| files | component |
|---|---|
| `Words`, `Config`, `ConfigLaws` | machine words; the configuration snapshot, its validation and its expansion into a fleet |
| `Format`, `Codec`, `FormatLaws`, `PayloadSize` | the binary form of a snapshot, its two-way round trip, and which snapshots fit |
| `Store`, `StoreSafety` | the dual-slot flash store, and crash safety over whole runs |
| `ShellConfig`, `ShellLaws`, `ShellSafety` | the staged/applied/saved transaction of the shell |
| `ShellLine`, `LineReference` | the line editor of the shell, and what a stream of bytes stands for without one |
| `CompletionRing`, `CallbackHandshake`, `RingRefinement`, `DrainInterleaving` | the lock-free parts of the Bluetooth transport, as interleaved atomic steps |
| `Payloads`, `Bluetooth`, `BluetoothLaws`, `BluetoothSafety` | the Bluetooth transport: a deadline queue in front of a single advertiser |
| `Coordinator`, `CoordinatorLaws`, `CoordinatorSafety` | two bounded queues that share one Wi-Fi radio |
| `Scheduler`, `SchedulerLaws`, `SchedulerSafety` | the stand-alone deadline scheduler (its first module is `Scheduling`) |
| `Grid`, `Runtime`, `RuntimeLaws`, `RuntimeSafety`, `Elapsed` | the message clock of the running fleet, and the elapsed time behind its trajectories |
| `Beacon`, `BeaconLaws` | Wi-Fi beacons, their validator, and Bluetooth service data |
| `GbEncoder`, `GbDecoder`, `GbLaws` | GB 46750-2025 payloads, and a receiver for them |
| `Motion`, `MotionLaws`, `Waypoints`, `WaypointSafety` | trajectories over the reals |

State that the firmware updates in place is a class here, with the same fields; loops stay loops. Each method is proved
to compute a function of the old state. The modules named Laws say what these functions mean without using them: in
numbers, conditions and sequences of calls as seen from outside. The modules named Safety are about whole runs. Verify
everything with `dafny verify dfyconfig.toml`.

## Conventions

- The outcome of every call that leaves the modelled code is a parameter: opening the flash namespace, a failing read,
  what a write leaves behind when power goes, the answers of the radio backends, the runtime mutex, the encoders and the
  sink of the runtime. The checksum and the derivation of identities are arbitrary functions.
- A power cut inside a save leaves the target slot old, new or torn. A torn slot is absent, unreadable, or holds bytes
  whose magic number, size or checksum is wrong (predicate `Store.Torn`): only a collision of the checksum is excluded.
- Floating-point fields of a snapshot are bit patterns of IEEE 754, and validation compares them as the hardware does.
  In the GB 46750 encoder and in the trajectories, quantities are real numbers.
- Atomics are sequentially consistent steps. Time is at most what the microsecond timer of the driver can reach, so due
  times do not wrap.
- `hide` directives inside bodies only keep definitions from the solver; they change no meaning.

## Where the code differs from what one might expect

- A payload of more than 32768 bytes cannot be encoded, but the decoder alone accepts one; `Codec.EncodeDecode` states
  both sides. No slot ever holds one, because slots of that size are refused first.
- A snapshot can be valid, applied and running and still be refused by the store, because 37 groups with names and
  waypoint lists of the greatest length exceed a payload (`PayloadSize.ManyLongGroups`).
- A load whose read of one slot fails returns the other slot's snapshot even if it is the older one:
  `StoreSafety.LoadReturns` says exactly when a load returns what counts, `PayloadSize.StaleLoad` gives a case. A save
  whose read fails refuses instead.
- A start-up that cannot read the slot that counts runs the older snapshot or comes up as a new device, counting
  generations from there; saves can then be refused until enough has been applied (`ShellSafety.RebootRestores`,
  `ShellSafety.CountsFromStored`, `ShellSafety.BlindBootBlocksSaves`).
- The generation check counts applies modulo 2^32: after 2^32 applies without a save the count starts over
  (`ShellSafety.GenerationCountsApplies`).
- The extended elapsed time can miss a wrap when samples are 2^31 ms or more apart (`Elapsed.RebuiltExactly`).
- Unregistering the callback is quiescent for fewer than 2^32 concurrent calls and not beyond, because the counter wraps
  (`CallbackHandshake.TooManyCallsBreakQuiescence`).
- `docs/protocol/gb46750-mapping.md` gives raw zero for an unknown altitude or height and 0xFFFFFFFF for an unknown
  coordinate. The encoder can send these for real measurements: `GbEncoder.UnknownAltitudeIsSent`,
  `GbEncoder.UnknownHeightIsSent` and `GbEncoder.UnknownCoordinateIsSent` say exactly when.
- A waypoint leg straight up or down has no length, so the search passes over it. Altitude therefore jumps exactly when a
  leg with length does not end at the altitude at which the next leg with length starts, going round the loop
  (`WaypointSafety.AltitudeIsContinuousExactly`); `WaypointSafety.TowerJumps` is a loop where it jumps and
  `WaypointSafety.MastIsNotClimbed` one with upright legs where it does not. East and north never jump.

## Model

| member | source | states |
|---|---|---|
| `StoreSafety.RunIsCrashSafe` | components/rid_config/nvs_store.cpp:283-373 | after any run of saves, driver failures and power cuts from an unambiguous store, what a load returns is what counted at the start or exactly what one of the saves offered; once something loads, something always will |
| `StoreSafety.ReachableStoresAreOrdered` | components/rid_config/nvs_store.cpp:283-350 | from an empty store, stored generations are unbounded versions modulo 2^32, two valid ones are 1 to 2^31-1 apart, the ambiguous branch is unreachable and the slot chosen is the one with the larger version |
| `StoreSafety.SaveIsAtomic` | components/rid_config/nvs_store.cpp:321-373 | one save: afterwards the old snapshot or the complete new one counts, never nothing and never a mixture; a save that reports success is what counts |
| `StoreSafety.SuccessIsDurable` | components/rid_config/nvs_store.cpp:311-373 | a load right after a successful save returns exactly what was saved, and later loads return it until another save offers something else |
| `StoreSafety.IdealSaveSucceeds` | components/rid_config/nvs_store.cpp:321-373 | with a working medium a save succeeds if and only if the snapshot encodes, no slot is unreadable or of another version, the slots are ordered, and the generation is newer |
| `StoreSafety.IncompatibleSlotIsKept` | components/rid_config/nvs_store.cpp:336-340 | whatever the environment does, no save touches a slot of another schema version, and none then succeeds |
| `StoreSafety.AmbiguousStoreIsFrozen` | components/rid_config/nvs_store.cpp:341-345 | two valid slots that cannot be ordered are never written again, and load reports them as corrupt |
| `StoreSafety.RefusedSaveChangesNothing` | components/rid_config/nvs_store.cpp:321-349 | a save refused with any error but a storage error, or whose read of a slot fails, leaves both slots as they were |
| `StoreSafety.SaveReports` | components/rid_config/nvs_store.cpp:321-373 | when a save reports what: success if and only if nothing stands against it, the blob is stored, the driver reports no failure and the blob is read back; and each refusal if and only if its own reason holds |
| `StoreSafety.SaveWritesTheOther` | components/rid_config/nvs_store.cpp:350-363 | a save that nothing stands against leaves the slot that counts alone and puts in the other what the medium made of the blob; any other save changes neither |
| `StoreSafety.LoadReports` | components/rid_config/nvs_store.cpp:283-319 | what a load reports for every way the namespace opens and the two slots read |
| `StoreSafety.ReadyIsNotRefused` | components/rid_config/nvs_store.cpp:321-349 | a save is refused unless the snapshot fits, the namespace opens, both slots are read, neither is of another version, they can be ordered and the generation is 1 to 2^31-1 ahead |
| `StoreSafety.AheadIsNewer` | components/rid_config/nvs_store.cpp:278-281 | newer means 1 to 2^31-1 steps ahead on the circle of 32-bit words |
| `StoreSafety.LoadReturns` | components/rid_config/nvs_store.cpp:311-319 | a load returns the snapshot that counts if and only if there is none, or the namespace opens and the slot that counts is read without a fault; with one fault it returns the other slot's snapshot, even an older one |
| `PayloadSize.StaleLoad` | components/rid_config/nvs_store.cpp:311-319 | after two successful saves on a new device, a load that fails to read the second slot returns what the first save wrote |
| `StoreSafety.WrappingOrderRefines` | components/rid_config/nvs_store.cpp:278-291 | where versions are tracked, the wrapping comparison picks the slot the unbounded comparison picks, also across 2^32 |
| `StoreSafety.SaveKeepsTracking` | components/rid_config/nvs_store.cpp:341-350 | a save keeps generations equal to versions modulo 2^32 and moves the current version forward by less than 2^31, or not at all |
| `StoreSafety.RunKeepsTracking` | components/rid_config/nvs_store.cpp:321-373 | the same for a whole run of saves |
| `Store.BlobReadsBack` | components/rid_config/nvs_store.cpp:226-276 | a complete blob reads as the snapshot and the generation it was made from |
| `Store.OnlyItsBlobReads` | components/rid_config/nvs_store.cpp:226-276 | a slot reads as a snapshot with a generation if and only if it holds exactly the blob made from them |
| `Store.ReadsExactly` | components/rid_config/nvs_store.cpp:244-276 | bytes read as a snapshot if and only if magic number, version 1, size and checksum are right and the payload decodes, as another version if and only if they are framed for that, and as corrupt otherwise |
| `Store.TornReadsAsNothing` | components/rid_config/nvs_store.cpp:248-266 | bytes that are no blob in its frame, by magic number, size or checksum, never read as a snapshot or another version |
| `Store.FramedIsBlob` | components/rid_config/nvs_store.cpp:235-276 | bytes with the right fields are the blob made of their payload and generation |
| `Store.HeaderFields` | components/rid_config/nvs_store.cpp:226-242 | the header fields are read back from the header bytes |
| `Store.BlobFields` | components/rid_config/nvs_store.cpp:226-262 | header, checksum and payload are read back from a whole blob |
| `Store.ChoosesNewer` | components/rid_config/nvs_store.cpp:278-304 | of two snapshots whose generations can be ordered the newer one is chosen, of two others neither, and the error is then Corrupt; a single snapshot is taken; without one the error is the weightier of the two, storage before version before corruption before absence |
| `Store.NvsConfigStore.ReadSlot` | components/rid_config/nvs_store.cpp:244-276 | reading a slot checks size, magic, announced size, checksum, version and payload in this order and returns the first error or the snapshot |
| `Store.NvsConfigStore.Load` | components/rid_config/nvs_store.cpp:311-319 | load is the choice between the two slots as they read, with the error cases of opening the namespace |
| `Store.NvsConfigStore.Save` | components/rid_config/nvs_store.cpp:321-373 | the whole state of the two slots and the reported result after a save, for every outcome of opening, reading, writing, power and verifying |
| `Store.NvsConfigStore.AppendHeader` | components/rid_config/nvs_store.cpp:235-242 | the whole header is appended: magic, version, size, generation and checksum |
| `Store.NvsConfigStore.AppendFields` | components/rid_config/nvs_store.cpp:352-356 | the header fields in front of the checksum |
| `Store.NvsConfigStore.MakeBlob` | components/rid_config/nvs_store.cpp:352-361 | the blob is header, checksum of header and payload, payload |
| `Codec.DecodeEncode` | components/rid_config/nvs_store.cpp:114-219 | decoding what was encoded gives back the very same snapshot, bit for bit |
| `Codec.EncodeDecode` | components/rid_config/nvs_store.cpp:114-219 | every payload that decodes re-encodes to the identical bytes if it has at most 32768 of them, and is refused as too large otherwise |
| `FormatLaws.DecodesExactly` | components/rid_config/nvs_store.cpp:160-219 | a payload decodes to a snapshot if and only if that is acceptable, its names and waypoint lists have at most 64 entries, and the payload is its stored form |
| `FormatLaws.SnapshotIs` | components/rid_config/nvs_store.cpp:120-154 | the stored form of a snapshot, byte by byte |
| `FormatLaws.GroupIs` | components/rid_config/nvs_store.cpp:132-153 | the stored form of a group, byte by byte |
| `FormatLaws.PeriodBytes` | components/rid_config/nvs_store.cpp:96-100 | an optional period is its milliseconds, or four bytes 0xFF for none |
| `FormatLaws.LittleEndian` | components/rid_config/nvs_store.cpp:31-34 | byte i of a scalar is its value shifted right by 8 * i bits |
| `PayloadSize.EncodesExactly` | components/rid_config/nvs_store.cpp:114-158 | a snapshot encodes if and only if it is acceptable, names and waypoint lists have at most 64 entries, and 7 bytes, 16 for the site, and 66 + name + 12 for each waypoint per group add up to at most 32768 |
| `PayloadSize.PayloadHasSize` | components/rid_config/nvs_store.cpp:120-154 | that count is the length of the encoding |
| `PayloadSize.ThirtySixGroupsFit` | components/rid_config/nvs_store.cpp:114-158 | up to 36 groups always fit a payload |
| `PayloadSize.ManyLongGroups` | components/rid_config/nvs_store.cpp:155-155 | the bound is sharp: 37 to 50 groups of greatest length make an acceptable snapshot that the store refuses as too large |
| `PayloadSize.SomethingCanBeSaved` | components/rid_config/nvs_store.cpp:311-373 | on a new device a save succeeds and the next load returns what was saved |
| `Codec.Encode` | components/rid_config/nvs_store.cpp:114-158 | the imperative encoder computes the encoding, and its refusals in order |
| `Codec.Decode` | components/rid_config/nvs_store.cpp:160-219 | the imperative decoder accepts exactly the complete, valid payloads and returns what they denote |
| `Codec.Writer.Scalar` | components/rid_config/nvs_store.cpp:25-54 | the byte loop appends the little-endian form of the value |
| `Codec.Reader.Scalar` | components/rid_config/nvs_store.cpp:56-80 | the byte loop reads the value its bytes denote, and at the end of the data fails without moving |
| `Codec.Reader.Text` | components/rid_config/nvs_store.cpp:82-87 | reading a string takes exactly its bytes, or fails without moving |
| `Codec.WriteWaypoints` | components/rid_config/nvs_store.cpp:146-151 | the waypoint loop writes the count and all waypoints |
| `Codec.WritePeriods` | components/rid_config/nvs_store.cpp:96-153 | the optional periods, absent ones as -1 |
| `Codec.WriteGroups` | components/rid_config/nvs_store.cpp:128-154 | the loop over the groups, and its refusal of long names and long waypoint lists |
| `Codec.ScanWaypoints` | components/rid_config/nvs_store.cpp:195-210 | the waypoint loop reads back what the count announces, or fails |
| `Codec.ScanPeriods` | components/rid_config/nvs_store.cpp:102-214 | the seven optional periods, with values below -1 refused |
| `Codec.ScanGroups` | components/rid_config/nvs_store.cpp:179-216 | the loop over the groups reads as many as announced, or fails |
| `Format.Read` | components/rid_config/nvs_store.cpp:56-80 | a scalar is read exactly if enough bytes are left, and then its little-endian form stood in front of the rest |
| `Format.ReadPut` | components/rid_config/nvs_store.cpp:25-80 | a scalar of the right width is read back as it was written |
| `Format.ReadPutPeriod` | components/rid_config/nvs_store.cpp:96-112 | an optional period is read back as it was written, -1 standing for none |
| `Format.ReadManySound` | components/rid_config/nvs_store.cpp:203-215 | whatever repetition is read is what a writer of these items would have put there |
| `Format.ReadManyComplete` | components/rid_config/nvs_store.cpp:128-154 | whatever good items are written one after the other are read back |
| `Format.ReadPutGroup` | components/rid_config/nvs_store.cpp:128-216 | a storable group is read back as it was written, in front of any other bytes |
| `Format.ReadGroupSound` | components/rid_config/nvs_store.cpp:179-216 | a group that is read stood there exactly as the writer would have put it |
| `Format.ReadPutConfig` | components/rid_config/nvs_store.cpp:120-217 | a storable snapshot is read back as it was written |
| `Format.ReadConfigSound` | components/rid_config/nvs_store.cpp:160-217 | a payload that reads completely is the encoding of what it reads as |
| `Words.LeRoundTrip` | components/rid_config/nvs_store.cpp:25-80 | a number that fits its width is read back from its little-endian bytes |
| `Words.LeCanonical` | components/rid_config/nvs_store.cpp:56-80 | every byte string is the little-endian form of the number it denotes |
| `Words.LeAt` | components/rid_config/nvs_store.cpp:31-34 | the byte a shift and a truncation produce is the byte of the little-endian form |
| `Words.LeValueAppend` | components/rid_config/nvs_store.cpp:63-69 | adding one shifted byte gives the number of the longer byte string |
| `Config.AcceptsExactly` | components/rid_config/config.cpp:44-73 | validation reports no error if and only if the site, the periods and every group are valid, the names are distinct, and there are 1 to 50 aircraft |
| `Config.Validate` | components/rid_config/config.cpp:44-73 | the loop over the groups reports the first error in order |
| `Config.CheckGroup` | components/rid_config/config.cpp:49-70 | the checks of one group, given the names and the total before it |
| `Config.CheckPeriods` | components/rid_config/config.cpp:60-66 | the default and all six overrides of a group are checked |
| `Config.CheckTrajectory` | components/rid_trajectory/trajectory.cpp:256-298 | the validity of each kind of trajectory, on bit patterns, with the waypoint loop |
| `Config.Expand` | components/rid_config/config.cpp:75-100 | expansion succeeds if and only if the snapshot is acceptable and every identity can be derived, and then gives the aircraft of all groups in order; otherwise the error |
| `Config.FleetLength` | components/rid_config/config.cpp:75-100 | the fleet has as many aircraft as the groups announce |
| `Config.FleetPlaced` | components/rid_config/config.cpp:75-100 | instance k of group g stands behind all instances of the groups before, whatever follows |
| `Config.PositionsCoverFleet` | components/rid_config/config.cpp:75-100 | every place of the fleet belongs to an instance of a group |
| `Config.PositionsDistinct` | components/rid_config/config.cpp:75-100 | instances of different groups never share a place, and keep the order of the groups |
| `Config.EffectivePeriodBounds` | components/rid_config/config.cpp:102-110 | the effective period of every stream of an acceptable snapshot lies between 100 ms and a minute |
| `ConfigLaws.OverrideDecides` | components/rid_config/config.cpp:102-110 | setting the override of a message decides its period and leaves the other messages alone |
| `ConfigLaws.DefaultsYield` | components/rid_config/config.cpp:102-110 | where a message has an override, no default of group or system matters |
| `ConfigLaws.DefaultsDecide` | components/rid_config/config.cpp:102-110 | without an override the group's default decides, and without both the system's |
| `ConfigLaws.SupportedAre` | components/rid_config/config.cpp:25-38 | exactly six combinations of protocol, transport and Wi-Fi mode are supported |
| `ConfigLaws.PeriodsAre` | components/rid_config/config.cpp:12-17 | periods are valid from 100 to 60000 ms |
| `ConfigLaws.GroupErrorsAre` | components/rid_config/config.cpp:49-70 | the error of a group names the first of its faults in the order of the checks |
| `ConfigLaws.SnapshotErrorsAre` | components/rid_config/config.cpp:44-73 | the error of a snapshot names a missing or invalid site, then the period, then the first faulty group, then an empty fleet |
| `ConfigLaws.FleetMembers` | components/rid_config/config.cpp:75-100 | place and contents of every aircraft of a fleet |
| `ConfigLaws.IdentitiesAre` | components/rid_config/config.cpp:87-92 | a fleet expands only if every aircraft gets an identity |
| `ConfigLaws.TrajectoriesAre` | components/rid_trajectory/trajectory.cpp:256-298 | which trajectories can be flown, by their kind and the bits of their numbers |
| `ConfigLaws.FloatsAre` | components/rid_trajectory/trajectory.cpp:257-262 | the tests on floats, by their bits |
| `ConfigLaws.SegmentsAre` | components/rid_trajectory/trajectory.cpp:281-286 | which neighbouring waypoints are not above each other, the two zeros being the same |
| `ConfigLaws.SitesAre` | components/rid_config/config.cpp:19-23 | which sites are valid, by the bits of their coordinates |
| `ShellSafety.ReachableInvariant` | components/rid_shell/shell.cpp:224-247 | every reachable device, whatever the driver does to its saves and start-ups, keeps the invariant: stored and applied snapshots were applied before, the store is ordered, and the generation is ahead of that at the last start-up or write by the applies since |
| `ShellSafety.NextKeepsInvariant` | components/rid_shell/shell.cpp:125-249 | each command, failure, power cut and reboot, with any fault at start-up, keeps that invariant |
| `ShellSafety.OnlyAppliedIsStored` | components/rid_shell/shell.cpp:224-242 | only snapshots that validated and were applied are ever on the flash, for all start-ups |
| `ShellSafety.GenerationCountsApplies` | components/rid_config/nvs_store.cpp:341-349 | the generation is ahead of the stored one by the applies since the last start-up or write plus what it was ahead then; it is by those applies alone, modulo 2^32, if and only if the count began at the stored generation, and then the check passes if and only if they are 1 to 2^31-1 modulo 2^32 |
| `ShellSafety.CountsFromStored` | main/app_main.cpp:186-207 | exactly when the count begins at the stored generation: after a completed write, and after a start-up if and only if it read the slot that counts, or came up as new with generation 0 stored; other commands leave it as it is |
| `ShellSafety.BlindBootBlocksSaves` | main/app_main.cpp:186-207 | after a start-up that cannot open the store, saves over a generation of up to 2^31 stay refused until the applies exceed it |
| `ShellSafety.RebootRestores` | main/app_main.cpp:186-207 | after any run, start-up restores the snapshot that counts, or a new device if there is none, if and only if it reads the slot that counts; otherwise it runs the other slot's snapshot or comes up as new |
| `ShellSafety.BootRestoresExactly` | main/app_main.cpp:186-207 | the same for any ordered flash whose snapshots were applied, and when the generation is that of the stored snapshot |
| `ShellSafety.SavedSurvivesReboot` | components/rid_shell/shell.cpp:224-247 | after a save that answers OK, whatever is edited, applied or rolled back without being saved is gone after a reboot, and the saved snapshot runs, if and only if the reboot reads the slot that counts |
| `ShellSafety.SaveStores` | components/rid_config/nvs_store.cpp:321-373 | a save stores the offered snapshot or keeps the one that counts, and puts nothing else on the flash |
| `ShellLaws.EditsAre` | components/rid_shell/shell.cpp:136-207 | what each edit does to the staged snapshot, and when it is refused |
| `ShellLaws.EditsStayStaged` | components/rid_shell/shell.cpp:125-223 | edits change nothing but the staged snapshot, questions nothing at all, and neither the flash |
| `ShellLaws.ApplyIs` | components/rid_shell/shell.cpp:224-235 | an apply takes the staged snapshot under the next generation if and only if it validates, all identities can be derived and the runtime is locked; otherwise nothing changes |
| `ShellLaws.SaveIs` | components/rid_shell/shell.cpp:236-242 | a save offers the applied snapshot with the shell's generation to the store, and answers as the store does |
| `ShellLaws.RollbackIs` | components/rid_shell/shell.cpp:243-247 | a rollback stages the applied snapshot and changes nothing else |
| `ShellLaws.RollbackUndoesEdits` | components/rid_shell/shell.cpp:125-249 | whatever is edited, asked, saved or rolled back after an apply, a rollback leads back to what the apply left |
| `ShellLaws.DeleteUndoesAdd` | components/rid_shell/shell.cpp:170-207 | deleting a group just added under a free name leaves the staged snapshot as it was |
| `ShellLaws.QuestionsAnswer` | components/rid_shell/shell.cpp:209-223 | the fleet is listed and checked if and only if the staged snapshot validates and its identities can be derived |
| `ShellLaws.NewDevice` | main/app_main.cpp:186-207 | without a snapshot loaded, the shell starts with no site, no groups, a period of a second and generation 0 |
| `ShellSafety.BootKeepsInvariant` | main/app_main.cpp:186-207 | start-up stages and applies what it loads, whatever the driver does to the load |
| `ShellConfig.FindGroup` | components/rid_shell/shell.cpp:170-179 | deletion finds the first group of the name, or none |
| `ShellConfig.Shell.DeleteGroup` | components/rid_shell/shell.cpp:170-179 | exactly the first group of the name is taken out of the staged snapshot |
| `ShellConfig.Shell.Handle` | components/rid_shell/shell.cpp:125-249 | the whole state of shell and flash, and the answer, after each command |
| `ShellConfig.Shell.constructor` | main/app_main.cpp:186-207 | the shell as start-up makes it from what the store loads, for every outcome of opening and reading |
| `CompletionRing.RingIsFifo` | components/rid_radio/ble_transport.cpp:140-174 | in every interleaving of one producer and one consumer the consumed events are the accepted ones in order and once each; offered = handed back + in the ring + overflows; at most seven are in the ring |
| `CompletionRing.NextKeepsConsistent` | components/rid_radio/ble_transport.cpp:140-174 | every atomic step of either side keeps the ring consistent |
| `CompletionRing.ConsistentIsFifo` | components/rid_radio/ble_transport.cpp:140-174 | a consistent ring has these properties |
| `CompletionRing.ProducerNeverTouchesHeldSlots` | components/rid_radio/ble_transport.cpp:140-149 | while the producer holds a slot to write, no position the consumer may still read lies in it |
| `CompletionRing.OverflowOnlyWhenFull` | components/rid_radio/ble_transport.cpp:141-146 | an event is turned away if and only if seven events have not been handed back |
| `CompletionRing.DrainTakesWhatWasPublished` | components/rid_radio/ble_transport.cpp:151-167 | a drain hands back exactly the events published when it loaded the write index |
| `CompletionRing.StepDecidesInOrder` | components/rid_radio/ble_transport.cpp:140-149 | a step decides the event in the producer's hand, or leaves it there |
| `CompletionRing.CallsAreDecidedInOrder` | components/rid_radio/ble_transport.cpp:140-149 | in every interleaving the decided events and the one in hand are the events of the calls, in the order of the calls |
| `CompletionRing.EveryOfferDecidedOnce` | components/rid_radio/ble_transport.cpp:140-149 | each decided offer was either accepted or counted as an overflow |
| `RingRefinement.RingHoldsTheUndrained` | components/rid_radio/ble_transport.cpp:140-174 | in every state of every interleaving the slots between the indices hold exactly the accepted events not handed back, in order |
| `RingRefinement.EnqueueRefines` | components/rid_radio/ble_transport.cpp:140-149 | an undisturbed call does to the interleaved ring what a reported completion does to the transport |
| `RingRefinement.EnqueuedSteps` | components/rid_radio/ble_transport.cpp:140-149 | the six steps of a call together append the event or count the overflow |
| `CallbackHandshake.UnregisteringIsQuiescent` | components/rid_radio/ble_transport.cpp:259-290 | once unregistering has returned no callback runs or is about to, until a registration begins, and no callback ever sees a cleared context, for fewer than 2^32 concurrent calls |
| `CallbackHandshake.TooManyCallsBreakQuiescence` | components/rid_radio/ble_transport.cpp:259-290 | with 2^32 or more concurrent calls the counter wraps and there is an interleaving in which unregistering returns while a callback runs, so the bound is exact |
| `CallbackHandshake.NextKeepsInvariant` | components/rid_radio/ble_transport.cpp:259-290 | every atomic step keeps the counter equal to the calls under way and the pointers ordered |
| `CallbackHandshake.RunKeepsInvariant` | components/rid_radio/ble_transport.cpp:259-290 | the same for whole interleavings |
| `CallbackHandshake.ActiveUpdate` | components/rid_radio/ble_transport.cpp:281-288 | a call counting itself in or out changes the number of calls under way by one |
| `CallbackHandshake.ActiveBounds` | components/rid_radio/ble_transport.cpp:263-263 | no call is under way if and only if all are outside |
| `CallbackHandshake.Crowd` | components/rid_radio/ble_transport.cpp:281-288 | any number of calls can run the callback at once |
| `BluetoothSafety.NothingIsLost` | components/rid_radio/ble_transport.cpp:64-174 | for each transport, over every interleaving of submits, polls, completions, overflows, backend failures and failed shutdowns: expected = waiting + dropped + completed + radio errors + in flight, while unsaturated |
| `BluetoothSafety.NextAccounts` | components/rid_radio/ble_transport.cpp:64-174 | each event keeps that account |
| `BluetoothSafety.AbsorbAccounts` | components/rid_radio/ble_transport.cpp:154-166 | any list of completions ends at most the advertisement in flight |
| `BluetoothSafety.AdvertiseAccounts` | components/rid_radio/ble_transport.cpp:88-114 | so does the sending loop, however many payloads it drops |
| `BluetoothLaws.PollDelivers` | components/rid_radio/ble_transport.cpp:83-174 | a poll of a transport that is not stopping takes all that has arrived; if an advertisement is still in flight nothing else changes; otherwise it drops exactly the expired payloads in front, sends the earliest other one, and radio and every counter are as that and the backend decide |
| `BluetoothLaws.EachPollSendsOne` | components/rid_radio/ble_transport.cpp:83-174 | payloads that do not expire in time are sent one in each poll, in the order of deadline and sequence, if each advertisement ends before the next poll |
| `BluetoothLaws.AcceptedIsSent` | components/rid_radio/ble_transport.cpp:64-174 | up to sixteen acceptable payloads submitted to a new transport are all sent by as many polls, each once and in order |
| `BluetoothLaws.SubmitAccepts` | components/rid_radio/ble_transport.cpp:64-81 | which payloads are accepted, in numbers, why others are refused, and what is counted |
| `BluetoothLaws.DrainTells` | components/rid_radio/ble_transport.cpp:151-174 | what a drain counts: a first completion without error and with an event sent completes, any other end is an error |
| `BluetoothLaws.ReportsAre` | components/rid_radio/ble_transport.cpp:140-149 | a completion is kept if fewer than seven wait, and counted on a 32-bit word otherwise |
| `BluetoothLaws.LoopDelivers` | components/rid_radio/ble_transport.cpp:88-114 | what the sending loop drops, sends and counts |
| `BluetoothLaws.ShutdownStops` | components/rid_radio/ble_transport.cpp:117-129 | a shutdown stops accepting and sending at once, whether or not the reset works, and a failed one can be repeated |
| `BluetoothSafety.LoopTakesEarliest` | components/rid_radio/ble_transport.cpp:88-114 | the sending loop takes the earliest unexpired payload after dropping exactly the expired ones in front of it, leaves everything else, and takes nothing only if all has expired |
| `BluetoothSafety.ShutdownIsFinal` | components/rid_radio/ble_transport.cpp:117-129 | in every run from the start, after a completed shutdown nothing waits or flies and no event changes that or a counter |
| `DrainInterleaving.NothingIsLost` | components/rid_radio/ble_transport.cpp:64-174 | the account also holds when completions arrive and overflow between any two atomic steps of a drain |
| `DrainInterleaving.DrainRefines` | components/rid_radio/ble_transport.cpp:151-174 | an undisturbed drain, step by step, does what the transport's drain does at once |
| `DrainInterleaving.NextIsSound` | components/rid_radio/ble_transport.cpp:64-174 | each such step keeps ring and account |
| `DrainInterleaving.TakesInOrder` | components/rid_radio/ble_transport.cpp:154-166 | the takes of a drain hand over the held completions in order |
| `Bluetooth.BleTransport.Submit` | components/rid_radio/ble_transport.cpp:64-81 | the payload is queued and counted, or refused with the first applicable error and no change |
| `Bluetooth.BleTransport.EnqueueCompletion` | components/rid_radio/ble_transport.cpp:140-149 | the completion is appended, or counted as an overflow if seven are held |
| `Bluetooth.BleTransport.DrainCompletions` | components/rid_radio/ble_transport.cpp:151-174 | the whole ring is absorbed in order, then the overflows, as one step of the transport's task |
| `Bluetooth.BleTransport.Complete` | components/rid_radio/ble_transport.cpp:156-164 | the first completion ends the advertisement in flight, as completed or as an error |
| `Bluetooth.BleTransport.CollectOverflows` | components/rid_radio/ble_transport.cpp:169-173 | a lost completion ends the advertisement in flight as an error |
| `Bluetooth.BleTransport.EarliestPendingIndex` | components/rid_radio/ble_transport.cpp:176-182 | the first of the earliest pending payloads |
| `Bluetooth.BleTransport.ErasePending` | components/rid_radio/ble_transport.cpp:184-189 | exactly the payload at the index leaves the queue, the order of the others stays |
| `Bluetooth.BleTransport.TakeEarliest` | components/rid_radio/ble_transport.cpp:89-91 | the earliest payload is taken out |
| `Bluetooth.BleTransport.SendOrDrop` | components/rid_radio/ble_transport.cpp:93-112 | an expired payload is dropped, another is advertised or counted as an error |
| `Bluetooth.BleTransport.Poll` | components/rid_radio/ble_transport.cpp:83-115 | the whole state, the error and the payload sent after a poll |
| `Bluetooth.BleTransport.Shutdown` | components/rid_radio/ble_transport.cpp:117-129 | the flags and the queue after a shutdown whose reset succeeds or fails |
| `Bluetooth.BetweenStep` | components/rid_radio/ble_transport.cpp:154-166 | advancing the read index takes exactly the first held completion |
| `Bluetooth.BetweenPush` | components/rid_radio/ble_transport.cpp:141-148 | the full test is exact and writing a slot appends to the held completions |
| `Payloads.Earliest` | components/rid_radio/ble_transport.cpp:176-182 | the first index whose payload no other one precedes in (deadline, sequence) |
| `Payloads.KeysAreOrdered` | components/rid_radio/radio_coordinator.cpp:40-43 | earlier means by deadline, and by sequence number where deadlines agree |
| `Payloads.LivesUntil` | components/rid_radio/ble_transport.cpp:93-93 | a payload lives up to and including its expiry, and for ever without one |
| `Payloads.EarliestIndex` | components/rid_radio/radio_coordinator.cpp:35-46 | the scan over the pending array finds that index |
| `Payloads.ShiftDown` | components/rid_radio/radio_coordinator.cpp:48-53 | moving the later payloads down removes exactly the one at the index, in place |
| `Payloads.RemoveAtMultiset` | components/rid_radio/ble_transport.cpp:184-189 | removing an element takes exactly that one out of the multiset |
| `Payloads.RestIsLater` | components/rid_radio/ble_transport.cpp:176-189 | what remains after taking the earliest payload does not precede it |
| `CoordinatorSafety.TransmitsOnTheRightChannel` | components/rid_radio/radio_coordinator.cpp:15-115 | in every run, whatever the backend answers, a payload for the 2.4 GHz transport is only transmitted while the last successful set_channel is to 6, one for 5.8 GHz while it is to 149 |
| `CoordinatorLaws.PollIs` | components/rid_radio/radio_coordinator.cpp:70-115 | what a poll calls, changes, sends, drops and counts, for every state and every answer of the backend, in numbers |
| `CoordinatorLaws.PollTransmits` | components/rid_radio/radio_coordinator.cpp:98-114 | with a working backend and no back-off, the earliest payload of the band left active is transmitted once, unless it is past its expiry |
| `CoordinatorLaws.NothingUnexpiredIsDropped` | components/rid_radio/radio_coordinator.cpp:98-114 | what leaves a queue in a poll was transmitted in it, or was past its expiry and is counted as dropped |
| `CoordinatorLaws.CountersTellTheCalls` | components/rid_radio/radio_coordinator.cpp:55-115 | in every run the submitted, late and failed counters of a band are the numbers of transmissions taken, taken late and failed, and of failed tunings, in the calls made for it |
| `CoordinatorLaws.CountryComesFirst` | components/rid_radio/radio_coordinator.cpp:74-78 | in every run the radio is used only after the country was set, which is tried until it works and not again |
| `CoordinatorLaws.SubmitAccepts` | components/rid_radio/radio_coordinator.cpp:23-33 | which payloads are accepted, in numbers, why others are refused, and what is counted |
| `CoordinatorLaws.SentAs` | components/rid_radio/radio_coordinator.cpp:98-114 | one transmission of the earliest payload, or none if it is past its expiry, and what then leaves |
| `CoordinatorLaws.PollTallies` | components/rid_radio/radio_coordinator.cpp:70-115 | what one poll adds to the counters is what it called |
| `CoordinatorSafety.RunKeepsTuned` | components/rid_radio/radio_coordinator.cpp:55-115 | the channel on record is that of the last successful tuning, and payloads wait in the queue of their band |
| `CoordinatorSafety.PollSendsEarliest` | components/rid_radio/radio_coordinator.cpp:98-114 | what a poll transmits is the earliest payload of the active band and has not expired |
| `CoordinatorSafety.NothingIsLost` | components/rid_radio/radio_coordinator.cpp:23-115 | for each band over every run: expected = waiting + submitted + dropped, while unsaturated; failed tunings and transmits lose nothing |
| `CoordinatorSafety.WaitingIsBounded` | components/rid_radio/radio_coordinator.cpp:55-96 | with a working backend, no back-off and polls at most d apart, a waiting band is tuned no later than dwell + d after it began to wait |
| `CoordinatorSafety.NeverLeftEarly` | components/rid_radio/radio_coordinator.cpp:80-96 | after any run with nondecreasing times, a band that still holds traffic is not left, nor tried to be left, before its dwell time |
| `CoordinatorSafety.DwellStartsInThePast` | components/rid_radio/radio_coordinator.cpp:55-68 | the dwell time on record never lies in the future, so the unsigned difference does not wrap |
| `CoordinatorSafety.BackOffLasts` | components/rid_radio/radio_coordinator.cpp:55-62 | after a failed tuning no tuning is attempted for the whole retry time |
| `CoordinatorSafety.FailedTuningBacksOff` | components/rid_radio/radio_coordinator.cpp:57-62 | a failed tuning sets the end of the back-off |
| `CoordinatorSafety.NoTuningDuringBackOff` | components/rid_radio/radio_coordinator.cpp:55-56 | polls before that end make no tuning call and do not move it |
| `CoordinatorSafety.DrainsInExactly` | components/rid_radio/radio_coordinator.cpp:70-115 | outside back-off a working backend empties n waiting payloads in exactly n polls |
| `CoordinatorSafety.PollTakesOne` | components/rid_radio/radio_coordinator.cpp:70-115 | each such poll removes exactly one payload |
| `CoordinatorSafety.SendsFromNonemptyBand` | components/rid_radio/radio_coordinator.cpp:80-98 | while anything waits, the band a poll sends from is not empty: the early return is unreachable |
| `Coordinator.RadioCoordinator.Submit` | components/rid_radio/radio_coordinator.cpp:23-33 | the payload joins the queue of its band, or is refused with no change |
| `Coordinator.RadioCoordinator.Erase` | components/rid_radio/radio_coordinator.cpp:48-53 | exactly the payload at the index leaves the queue of the band |
| `Coordinator.RadioCoordinator.SelectBand` | components/rid_radio/radio_coordinator.cpp:55-68 | the whole state after a tuning that succeeds, fails or is held back |
| `Coordinator.RadioCoordinator.Send` | components/rid_radio/radio_coordinator.cpp:98-114 | the whole state after the earliest payload is dropped, sent or kept for another try |
| `Coordinator.RadioCoordinator.Poll` | components/rid_radio/radio_coordinator.cpp:70-115 | the whole state, the result and the backend calls of a poll |
| `SchedulerSafety.QueuesHoldTheLatest` | components/rid_scheduler/scheduler.cpp:44-62 | without pops, each queue of the scheduler holds the latest payloads offered to its transport, as many as fit |
| `Scheduling.HoldsTheLatest` | components/rid_scheduler/scheduler.cpp:53-60 | whatever their order, as many of the offers as fit are kept, and none given up is later than one kept |
| `Scheduling.LatestAreDetermined` | components/rid_scheduler/scheduler.cpp:53-60 | with distinct keys that determines what is kept |
| `Scheduling.KeepNew` | components/rid_scheduler/scheduler.cpp:53-60 | a full queue that gives up its earliest payload for one no earlier still holds the latest |
| `Scheduling.KeepOld` | components/rid_scheduler/scheduler.cpp:57-57 | a full queue that turns away an earlier payload still holds the latest |
| `Scheduling.KeepWithRoom` | components/rid_scheduler/scheduler.cpp:60-60 | a queue with room keeps every offer |
| `Scheduling.PopTakesEarliest` | components/rid_scheduler/scheduler.cpp:64-85 | a pop returns the earliest unexpired payload, nothing only if all have expired, and leaves exactly the other unexpired ones, each as often as it was queued |
| `Scheduling.PopsAreSorted` | components/rid_scheduler/scheduler.cpp:64-85 | pops at whatever times come out in the order of deadline and sequence |
| `Scheduling.UnexpiredElements` | components/rid_scheduler/scheduler.cpp:69-76 | the erase loop keeps every unexpired payload as often as it was queued, and no expired one |
| `SchedulerSafety.TransportsDoNotInterfere` | components/rid_scheduler/scheduler.cpp:44-85 | queue and counters of a transport are what its own events alone would have made them |
| `SchedulerSafety.NothingIsLost` | components/rid_scheduler/scheduler.cpp:44-85 | for each transport over every run: expected = popped + dropped + waiting, while unsaturated, and no queue exceeds its capacity |
| `Scheduling.Scheduler.Enqueue` | components/rid_scheduler/scheduler.cpp:44-62 | the queues and counters after an offer, and its refusals |
| `Scheduling.Scheduler.DropExpired` | components/rid_scheduler/scheduler.cpp:69-76 | the erase loop, with one count for each payload erased |
| `Scheduling.Scheduler.MinElement` | components/rid_scheduler/scheduler.cpp:79-80 | the first of the earliest payloads |
| `Scheduling.Scheduler.PopNext` | components/rid_scheduler/scheduler.cpp:64-85 | the queues, the counters and the payload returned by a pop |
| `SchedulerLaws.EnqueueAccepts` | components/rid_scheduler/scheduler.cpp:44-49 | which payloads are accepted, in numbers, and why others are refused |
| `SchedulerLaws.EnqueueIs` | components/rid_scheduler/scheduler.cpp:51-61 | an accepted payload joins its queue; a full queue counts a drop and gives up its first earliest payload for it, or the payload itself if that is earlier than all |
| `SchedulerLaws.PopCounts` | components/rid_scheduler/scheduler.cpp:64-85 | a pop counts each payload past its expiry as dropped and the one returned as late if its deadline is over, in its own queue only |
| `RuntimeSafety.NoDrift` | components/rid_runtime/runtime.cpp:42-80 | after any nondecreasing ticks, however late, each stream is due at the least point of its own grid beyond the last tick |
| `RuntimeSafety.EachPointOnce` | components/rid_runtime/runtime.cpp:155-197 | a message sent on its own is attempted at most once for each grid point reached, and exactly once if ticks are prompt |
| `RuntimeSafety.PackPerTick` | components/rid_runtime/runtime.cpp:105-152 | a packed aircraft attempts one payload at a tick if and only if a point of one of its six grids was reached since the tick before |
| `RuntimeSafety.DueIffReached` | components/rid_runtime/runtime.cpp:72-80 | a stream is due at a tick if and only if a grid point was reached since the tick before, and at most one was if the tick is prompt |
| `RuntimeSafety.FleetIsOneSequence` | components/rid_runtime/runtime.cpp:53-63 | in a uniform fleet of S slots, point j of slot s is number j*S + s of the sequence start + floor(period*m/S) |
| `RuntimeSafety.FleetIsExactly` | components/rid_runtime/runtime.cpp:53-80 | a time is a due time of a uniform fleet if and only if it is start + floor(period*m/S) for some m |
| `RuntimeSafety.NumbersAreDistinct` | components/rid_runtime/runtime.cpp:53-63 | each number belongs to one point of one stream only |
| `RuntimeSafety.NumberHasStream` | components/rid_runtime/runtime.cpp:53-63 | each number is one of a point of a stream |
| `RuntimeSafety.PackedGridsCoincide` | components/rid_runtime/runtime.cpp:57-61 | the six grids of a packed aircraft of a uniform fleet are one |
| `RuntimeSafety.FleetLoadIsBounded` | components/rid_runtime/runtime.cpp:53-80 | any window of w ms in the whole run holds at most ceil(w*S/period) points of all streams of the fleet together |
| `RuntimeSafety.PackedAircraftNeverCollide` | components/rid_runtime/runtime.cpp:53-80 | in a uniform packed fleet no two aircraft are ever due in the same millisecond |
| `RuntimeSafety.NothingIsLost` | components/rid_runtime/runtime.cpp:82-198 | over every run payload numbers count the attempts, and the four counters are the numbers of attempts taken or refused, taken, unencodable and refused, up to saturation |
| `RuntimeSafety.FleetCount` | components/rid_runtime/runtime.cpp:92-198 | how many attempts of each message of each aircraft a tick makes |
| `RuntimeSafety.FleetAppends` | components/rid_runtime/runtime.cpp:92-198 | what a tick attempts does not depend on the ticks before but through the due times |
| `RuntimeLaws.TickTells` | components/rid_runtime/runtime.cpp:92-198 | a tick makes its attempts in the order of aircraft and messages, at most one for each, made at the tick and expiring a period of the message (for a pack the system's default) later; its error is that of the last failed attempt |
| `RuntimeLaws.FleetSince` | components/rid_runtime/runtime.cpp:95-197 | the same for the first aircraft of a fleet |
| `RuntimeLaws.FirstDueIs` | components/rid_runtime/runtime.cpp:50-63 | the first due time of every stream, in numbers |
| `RuntimeLaws.PackedIs` | components/rid_runtime/runtime.cpp:53-54 | OpenDroneID over anything but Bluetooth 4 is packed |
| `RuntimeLaws.OverrideSpacesPoints` | components/rid_runtime/runtime.cpp:57-80 | an override of v puts the points of a message's grid v apart |
| `RuntimeLaws.OverrideSetsExpiry` | components/rid_runtime/runtime.cpp:155-197 | with an override of v each attempt of a message sent on its own expires v after it is made |
| `Grid.NextDueIsLeast` | components/rid_runtime/runtime.cpp:72-80 | the next due time is on the grid, beyond the tick, and the least such point |
| `Grid.CatchUpKeepsGrid` | components/rid_runtime/runtime.cpp:72-80 | catching up in whole periods stays on the same grid |
| `Grid.ReachedCounts` | components/rid_runtime/runtime.cpp:72-80 | how many points of a grid have been reached at a time |
| `Grid.DueWhenReached` | components/rid_runtime/runtime.cpp:72-80 | due if and only if a point was reached, at most one within a period |
| `Grid.SlotsInterleave` | components/rid_runtime/runtime.cpp:53-63 | the grids of all slots together form one sequence |
| `Grid.NumbersAreSlots` | components/rid_runtime/runtime.cpp:53-63 | every number belongs to exactly one point of exactly one slot |
| `Grid.FirstWithinPeriod` | components/rid_runtime/runtime.cpp:61-61 | the first due time lies within one period of the start |
| `Grid.CloseNumbers` | components/rid_runtime/runtime.cpp:53-63 | due times less than w apart have numbers less than ceil(w*S/period) apart |
| `Grid.WindowBound` | components/rid_runtime/runtime.cpp:53-80 | so a window holds at most that many |
| `Grid.DistinctDueTimes` | components/rid_runtime/runtime.cpp:53-63 | with no more slots than milliseconds in a period all due times differ |
| `Runtime.MessageRuntime.Apply` | components/rid_runtime/runtime.cpp:42-70 | a snapshot that expands starts the fleet with staggered due times; one that does not changes nothing |
| `Runtime.MessageRuntime.StaggerRow` | components/rid_runtime/runtime.cpp:50-63 | the six first due times of one aircraft |
| `Runtime.MessageRuntime.AdvanceDue` | components/rid_runtime/runtime.cpp:72-80 | the catch-up loop steps the due time to the least later point |
| `Runtime.MessageRuntime.Try` | components/rid_runtime/runtime.cpp:82-90 | numbering and counting of one attempt |
| `Runtime.MessageRuntime.TickPack` | components/rid_runtime/runtime.cpp:105-152 | the tick of a packed aircraft: all due kinds advance, at most one attempt |
| `Runtime.MessageRuntime.TickKinds` | components/rid_runtime/runtime.cpp:155-197 | the tick of an aircraft that sends one by one: each due kind advances and is attempted |
| `Runtime.MessageRuntime.Tick` | components/rid_runtime/runtime.cpp:92-200 | the due times, counters, error and attempts of a whole tick |
| `Runtime.FirstDueBounds` | components/rid_runtime/runtime.cpp:57-61 | a first due time comes less than a period after the apply and does not wrap |
| `Elapsed.ElapsedTimeIsRebuilt` | components/rid_runtime/runtime.cpp:34-36 | truncating the elapsed time to 32 bits and extending it again loses nothing, if the first sample comes less than 2^32 ms after the start and later ones less than 2^31 ms apart |
| `Elapsed.RebuiltExactly` | components/rid_trajectory/trajectory.cpp:302-312 | for any samples at nondecreasing times the extended time never runs ahead, and it is the true elapsed time if and only if the first sample comes less than 2^32 ms after the start and each later gap is less than 2^31 ms or holds no wrap |
| `Elapsed.LongGapLosesAWrap` | components/rid_trajectory/trajectory.cpp:302-312 | samples exactly 2^31 ms apart can hide a wrap |
| `Elapsed.OneSample` | components/rid_trajectory/trajectory.cpp:306-309 | one reading never adds more than the time that passed, and exactly as much if and only if the gap is less than 2^31 ms or holds no wrap |
| `Elapsed.ElapsedClock.ExtendElapsed` | components/rid_trajectory/trajectory.cpp:302-312 | the memory of the instance's slot and the extended time; the other slots stay |
| `ShellLine.ScreenShowsTheLine` | components/rid_shell/shell.cpp:60-116 | after every byte stream the terminal line drawn from the echoes shows exactly the buffered text, which is printable and at most 255 bytes |
| `ShellLine.CommandIsWhatWasShown` | main/app_main.cpp:118-145 | a byte hands over a command if and only if it ends a line that holds something; the command is what stood on the terminal line, or that the line was too long |
| `ShellLine.LineEndingsDoNotMatter` | components/rid_shell/shell.cpp:60-75 | writing every CR, LF or CRLF as LF leaves the commands and the terminal line unchanged |
| `LineReference.CommandsAreThoseTyped` | components/rid_shell/shell.cpp:60-116 | for every byte stream the commands handed over, and the line shown, are those of a reference that splits the stream into lines, takes out escape sequences and edits the text by the keys that remain |
| `LineReference.TextIsHandedOver` | components/rid_shell/shell.cpp:103-116 | a text of 1 to 255 characters typed on an empty line and ended is handed over as it is, a longer one as too long |
| `LineReference.KeysUndo` | components/rid_shell/shell.cpp:91-102 | a character taken back might as well not have been typed, and after 0x15 nothing on the line was |
| `LineReference.TypedFollows` | components/rid_shell/shell.cpp:60-116 | the editor follows the reference byte by byte |
| `LineReference.KeysAreScanned` | components/rid_shell/shell.cpp:78-90 | taking out escape sequences one byte at a time is taking them out of the whole line |
| `ShellLine.NewlineIsEchoed` | components/rid_shell/shell.cpp:61-75 | a new line is echoed exactly where a line ends |
| `ShellLine.PushIsFaithful` | components/rid_shell/shell.cpp:60-110 | one byte keeps the terminal line equal to the buffer |
| `ShellLine.ShellLineBuffer.Push` | components/rid_shell/shell.cpp:60-110 | the buffer, the event and the echo after one byte |
| `ShellLine.ShellLineBuffer.Take` | components/rid_shell/shell.cpp:112-116 | the buffered text is returned and the buffer emptied |
| `Beacon.BuiltBeaconsAreValid` | components/rid_radio/wifi_transport.cpp:65-120 | every beacon built is accepted by the validator, takes at most 329 bytes, and splits back into exactly the three elements it was built from |
| `Beacon.PayloadIsRecovered` | components/rid_radio/wifi_transport.cpp:65-99 | SSID, counter and payload are read back from the frame alone |
| `Beacon.ValidateBeacon` | components/rid_radio/wifi_transport.cpp:114-120 | the validator accepts exactly the frames of acceptable size and type whose element area is a sequence of elements with an SSID, a rates and a vendor element among them |
| `Beacon.ValidElements` | components/rid_radio/wifi_transport.cpp:24-41 | the walk over the elements decides whether they fill the area and the required ones are present |
| `Beacon.SplitsExactly` | components/rid_radio/wifi_transport.cpp:24-41 | being a sequence of elements is what splitting decides, and the elements are unique |
| `Beacon.SplitJoined` | components/rid_radio/wifi_transport.cpp:24-41 | elements written one after the other are split into the same elements |
| `Beacon.JoinedSplit` | components/rid_radio/wifi_transport.cpp:24-41 | an area that splits is its elements written one after the other |
| `Beacon.WifiFrame.AppendAll` | components/rid_radio/wifi_transport.cpp:19-22 | the bytes are appended to the frame in place |
| `Beacon.WifiFrame.BuildGbBeacon` | components/rid_radio/wifi_transport.cpp:65-99 | the frame is header and three elements, or empty with the error that applies |
| `Beacon.WifiFrame.BuildOpenDroneIdBeacon` | components/rid_radio/wifi_transport.cpp:101-112 | the same for a well-formed message pack, and an error for anything else |
| `Beacon.PackFits` | components/rid_radio/wifi_transport.cpp:101-112 | a message pack fits a beacon if and only if it holds at most nine messages |
| `Beacon.BuildServiceData` | components/rid_radio/ble_transport.cpp:29-54 | service data is built for one message or a message pack, and refused otherwise |
| `Beacon.ServiceDataFits` | components/rid_radio/ble_transport.cpp:29-54 | service data is one complete element; it fits legacy advertising if and only if it is a single message |
| `BeaconLaws.ValidFrames` | components/rid_radio/wifi_transport.cpp:24-120 | which frames are valid, in numbers |
| `BeaconLaws.BuildsExactly` | components/rid_radio/wifi_transport.cpp:67-77 | which beacons are built, and why others are refused |
| `BeaconLaws.HeaderIs` | components/rid_radio/wifi_transport.cpp:79-87 | every byte of the fixed part of a beacon |
| `BeaconLaws.ElementsAre` | components/rid_radio/wifi_transport.cpp:88-97 | the three elements of a beacon, byte by byte |
| `BeaconLaws.PacksAre` | components/rid_radio/wifi_transport.cpp:104-107 | which message packs are well-formed |
| `BeaconLaws.ServiceDataIs` | components/rid_radio/ble_transport.cpp:35-52 | which messages are advertised, and the five bytes in front of them |
| `GbDecoder.PayloadsDescribeThemselves` | components/rid_gb/gb_encoder.cpp:46-142 | a receiver that follows the extension chain and the presence bits finds exactly the items encoded, and their widths add up to the announced length |
| `GbDecoder.LocationIsRecovered` | components/rid_gb/gb_encoder.cpp:108-142 | a location payload gives back every field, scaled ones within half a quantum and with their sign, and never the invalid speeds 0xFFFF and 0xFF |
| `GbDecoder.SystemIsRecovered` | components/rid_gb/gb_encoder.cpp:92-106 | a system payload gives back the station's position and altitude within half a quantum |
| `GbLaws.EncodesExactly` | components/rid_gb/gb_encoder.cpp:20-166 | which messages are encoded, in numbers, and why others are refused |
| `GbLaws.HeadIs` | components/rid_gb/gb_encoder.cpp:46-56 | length and head of the payloads of each kind |
| `GbLaws.TextsAreRecovered` | components/rid_gb/gb_encoder.cpp:78-90 | the receiver finds the identity, and the registration mark padded with zero bytes |
| `GbLaws.RoundsToNearest` | components/rid_gb/gb_encoder.cpp:63-76 | rounding goes to the nearest integer, and away from zero from the middle |
| `GbLaws.FieldsMean` | docs/protocol/gb46750-mapping.md:18-57 | what the receiver makes of the scaled fields |
| `GbDecoder.FramedDecodes` | components/rid_gb/gb_encoder.cpp:46-56 | a payload whose identifiers list its items decodes to these items |
| `GbDecoder.CutConcat` | docs/protocol/gb46750-mapping.md:18-57 | items of the listed widths are cut apart again |
| `GbDecoder.LocationIdentifiers` | components/rid_gb/gb_encoder.cpp:141-141 | the three identifier bytes of a location chain and list items 008 to 021 |
| `GbDecoder.Widths` | docs/protocol/gb46750-mapping.md:18-57 | the four kinds of payload announce 20, 8, 13 and 31 bytes |
| `GbEncoder.CoordinateRecovered` | components/rid_gb/gb_encoder.cpp:63-68 | a coordinate is recovered within half of 1e-7 degrees, sign included |
| `GbEncoder.AltitudeRecovered` | components/rid_gb/gb_encoder.cpp:70-72 | an altitude fits its word and is recovered within a quarter metre |
| `GbEncoder.UnknownAltitudeIsSent` | components/rid_gb/gb_encoder.cpp:26-72 | the receiver's unknown altitude, raw zero, is sent if and only if the altitude is below -999.75 m |
| `GbEncoder.UnknownCoordinateIsSent` | components/rid_gb/gb_encoder.cpp:63-68 | the receiver's unknown coordinate 0xFFFFFFFF is sent if and only if the coordinate rounds to -1 unit |
| `GbEncoder.HeightRecovered` | components/rid_gb/gb_encoder.cpp:74-76 | a height is recovered within a quarter metre |
| `GbEncoder.UnknownHeightIsSent` | components/rid_gb/gb_encoder.cpp:74-76 | the receiver's unknown height, raw zero, is sent if and only if the height is below -8999.75 m |
| `GbEncoder.SpeedRecovered` | components/rid_gb/gb_encoder.cpp:124-125 | a ground speed is recovered within 0.05 m/s and never encodes as 0xFFFF |
| `GbEncoder.HeadingRecovered` | components/rid_gb/gb_encoder.cpp:123-123 | a heading is recovered within 0.05 degrees |
| `GbEncoder.VerticalRecovered` | components/rid_gb/gb_encoder.cpp:127-131 | a vertical speed is recovered within 0.25 m/s with its sign and never encodes as 0xFF |
| `GbEncoder.ByteVector.PutU16` | components/rid_gb/private_include/gb_wire.hpp:8-11 | two bytes, least significant first |
| `GbEncoder.ByteVector.PutI32` | components/rid_gb/private_include/gb_wire.hpp:13-19 | four bytes of the two's complement, least significant first |
| `GbEncoder.ByteVector.PutU48` | components/rid_gb/private_include/gb_wire.hpp:21-25 | the loop appends the six bytes, least significant first |
| `GbEncoder.ByteVector.PutFixedText` | components/rid_gb/gb_encoder.cpp:58-61 | the text padded with zeros to its size |
| `GbEncoder.ByteVector.PutCoordinate` | components/rid_gb/gb_encoder.cpp:63-68 | longitude, then latitude |
| `GbEncoder.EncodeSystem` | components/rid_gb/gb_encoder.cpp:92-106 | the five items of a system payload, or the refusal of an altitude out of range |
| `GbEncoder.EncodeLocation` | components/rid_gb/gb_encoder.cpp:108-142 | the fourteen items of a location payload, or the refusal of a state out of range |
| `GbEncoder.Encode` | components/rid_gb/gb_encoder.cpp:146-166 | the payload of each kind of message, and its refusals in order |
| `Motion.LineIsContinuous` | components/rid_trajectory/trajectory.cpp:51-69 | for any two times and every instance an aircraft on a line moves on each axis at most as far as its speed allows, across turns and period ends |
| `Motion.RectangleIsContinuous` | components/rid_trajectory/trajectory.cpp:88-119 | on a rectangle both axes together move at most as far as the speed allows, round corners and across period ends |
| `Motion.RectangleIsTheOutline` | components/rid_trajectory/trajectory.cpp:101-117 | one round runs through the points of the outline, all of them and no others, each once, with the corners in order |
| `Motion.MissionIsContinuous` | components/rid_trajectory/trajectory.cpp:173-196 | the altitude of a mission changes at most as far as the vertical speed allows, over landing and take-off, and stays between the ground and its height |
| `Motion.MissionHeight` | components/rid_trajectory/trajectory.cpp:182-194 | a mission's altitude is a trapezoid of the way made at climbing speed |
| `Motion.SampleRectangle` | components/rid_trajectory/trajectory.cpp:88-119 | the branches on the running distance give the place on the outline, the heading and the rest of the motion |
| `Motion.SampleMission` | components/rid_trajectory/trajectory.cpp:173-196 | the branches on the phase give the motion of climb, cruise and landing |
| `Motion.HeadingIsNormalized` | components/rid_trajectory/trajectory.cpp:24-28 | a normalized heading lies in [0, 360) and differs by whole turns from the one given |
| `Motion.PhaseIsRemainder` | components/rid_trajectory/trajectory.cpp:30-34 | a phase lies within the period and is the remainder of the time shifted by the instance's fiftieth |
| `Motion.CyclesApart` | components/rid_trajectory/trajectory.cpp:30-34 | between two times either the phase advances by the time between them or a period end lies in between |
| `Motion.TravelledApart` | components/rid_trajectory/trajectory.cpp:30-34 | so does the way made along a loop, scaled by the speed |
| `MotionLaws.WayMade` | components/rid_trajectory/trajectory.cpp:30-34 | the way made is speed times time, put forward by the instance's fiftieth of the loop, less whole rounds |
| `MotionLaws.PhaseIs` | components/rid_trajectory/trajectory.cpp:30-34 | a phase is the time, put forward by the instance's fiftieth of the period, less whole periods |
| `MotionLaws.LineIs` | components/rid_trajectory/trajectory.cpp:51-69 | place, heading and speeds on a line at every time, as functions of the way made |
| `MotionLaws.RectangleIs` | components/rid_trajectory/trajectory.cpp:88-119 | place, heading and speeds on each side of a rectangle at every time |
| `MotionLaws.RectangleHeads` | components/rid_trajectory/trajectory.cpp:101-117 | on each side the aircraft moves the way it is heading, as far as the way made |
| `MotionLaws.MissionIs` | components/rid_trajectory/trajectory.cpp:173-196 | altitude and vertical speed of a mission at every time |
| `MotionLaws.WaypointMotionIs` | components/rid_trajectory/trajectory.cpp:121-171 | at every time the aircraft is in proportion between the two waypoints of the leg its way has led to, heading along it and rising as it does |
| `MotionLaws.FindIs` | components/rid_trajectory/trajectory.cpp:145-167 | what lies before the leg found, and the way along it, make up the way made |
| `MotionLaws.RestIs` | components/rid_trajectory/trajectory.cpp:129-135 | the length of the loop is that of all its legs, the last one leading back to the first waypoint |
| `MotionLaws.StandsStill` | components/rid_trajectory/trajectory.cpp:123-140 | without a loop to fly the aircraft stands at the first waypoint, or at the origin |
| `Waypoints.WaypointSearchSucceeds` | components/rid_trajectory/trajectory.cpp:121-171 | on a valid waypoint loop every time falls on a leg with length, so the branch behind the search is never taken, and position and altitude stay within the range of the waypoints |
| `WaypointSafety.WaypointsAreContinuous` | components/rid_trajectory/trajectory.cpp:121-171 | east and north move at most as far as the speed allows; so does the altitude times the slope, if legs with length join in altitude and none is steeper |
| `WaypointSafety.WaypointDistanceIsBounded` | components/rid_trajectory/trajectory.cpp:121-171 | the distance on the ground plan is at most what the speed allows, for every length that is a norm |
| `WaypointSafety.GreaterIsNorm` | components/rid_trajectory/trajectory.cpp:128-134 | what is assumed of the length function can be met |
| `WaypointSafety.AltitudeIsContinuousExactly` | components/rid_trajectory/trajectory.cpp:145-167 | for every valid loop and instance, some slope bounds the altitude at all times if and only if each leg with length ends at the altitude at which the next leg with length starts, round the loop |
| `WaypointSafety.TowerJumps` | components/rid_trajectory/trajectory.cpp:145-167 | a valid loop whose altitude is 0 and above 40 m at two times as close together as one likes |
| `WaypointSafety.MastIsNotClimbed` | components/rid_trajectory/trajectory.cpp:145-167 | a valid loop with legs straight up and down whose altitude is the same at all times |
| `Waypoints.SampleWaypoints` | components/rid_trajectory/trajectory.cpp:121-171 | the two loops over the waypoints compute the motion on the leg the distance ends on |
| `Waypoints.SearchFinds` | components/rid_trajectory/trajectory.cpp:145-167 | the search for the leg cannot fail on a distance within a loop that has length |
| `WaypointSafety.WayStarts` | components/rid_trajectory/trajectory.cpp:145-167 | the way round starts where the first leg with length starts |
| `WaypointSafety.WayEnds` | components/rid_trajectory/trajectory.cpp:145-167 | where legs with length join on an axis, the way round ends where it starts |
| `WaypointSafety.WayIsSmooth` | components/rid_trajectory/trajectory.cpp:145-167 | where legs with length join, a coordinate that none of them changes faster than a slope changes no faster along the whole way |
| `WaypointSafety.WaySpan` | components/rid_trajectory/trajectory.cpp:145-167 | no two places on the way round are further apart than the way between them |

## Left out

- ESP-IDF, NimBLE, FreeRTOS and NVS calls: only their success or failure is modelled, as parameters.
- The CRC and SHA-256 algorithms; a torn write that happens to pass the checksum.
- Weak-memory effects of the atomics.
- OpenDroneID field packing, the per-beacon counter and the addresses of the runtime: whether an attempt is encoded and
  whether the sink takes it are parameters.
- IEEE rounding in trajectories and in the GB encoder, and overflow of floats to infinity.
- Hover and circle motion and the conversion to WGS 84: the first is constant, the others are trigonometry.
- Word splitting, number parsing and the help, status and answer texts of the shell; commands are taken after parsing.
- Task creation, locking and boot code beyond what decides the staged, applied and saved snapshot.
- Copying of bytes into a scheduled payload (`ScheduledPayload::try_copy_from`).
- Saturated counters: conservation is stated while the counter of accepted payloads is not saturated.
- Removal of advertising sets and mode switching inside the NimBLE backend; a backend call succeeds or fails as a whole.
- Bluetooth.BleTransport.DrainCompletions: takes a drain as one step; its atomic steps, with completions in between, are
  the subject of module DrainInterleaving.
- Coordinator.RadioCoordinator.Poll: counters, pending counts and due times that the firmware keeps in small fixed arrays
  are sequences that the methods reassign; the payload queues themselves are arrays updated in place.
- CoordinatorSafety.FailedTuningBacksOff: assumes that the time plus the retry time does not wrap a 64-bit word.
- RuntimeSafety.FleetIsOneSequence: is about fleets with one period and one way of sending; mixed fleets follow stream by
  stream from NoDrift.
