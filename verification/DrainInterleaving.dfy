/** The Bluetooth transport with its drain taken apart into atomic steps: completions may arrive, and overflow, between
    any two of them. */
module DrainInterleaving {
  import opened Wrappers
  import opened Words
  import opened Config
  import opened Payloads
  import opened CompletionRing
  import opened Bluetooth
  import opened RingRefinement
  import BluetoothSafety

  /** The shared ring and what only the transport's own task sees. Ring and overflows of `ble` are not used. */
  datatype Device = Device(ring: Ring, ble: Ble)

  datatype Event =
    | InRing(step: CompletionRing.Step)
    | Submit(payload: Payload)
    | Send(now: Word64, configures: bool, starts: bool)
    | Shutdown(resets: bool)

  predicate Stopped(b: Ble) {
    b.shuttingDown || b.shutDown
  }

  /** One atomic step. The task submits, sends and shuts down only outside a drain, and begins none once it is shutting
      down; sending is allowed here whenever the task is not draining, not only right behind a drain. */
  ghost function Next(d: Device, e: Event): Device
    requires Consistent(d.ring)
  {
    hide Consistent, CompletionRing.Next, Absorbed, Overflowed, Advertised;
    HasSlots(d.ring);
    match e
    case Submit(p) => if d.ring.consumer.Away? then d.(ble := Submitted(d.ble, p)) else d
    case Send(now, configures, starts) =>
      if !d.ring.consumer.Away? || Stopped(d.ble) || d.ble.busy then d
      else d.(ble := Advertised(d.ble, now, configures, starts).0)
    case Shutdown(resets) => if d.ring.consumer.Away? then d.(ble := ShutDown(d.ble, resets)) else d
    case InRing(step) =>
      if step.BeginDrain? && Stopped(d.ble) then d
      else Device(CompletionRing.Next(d.ring, step), Noticed(d, step))
  }

  /** What a step of the drain does to the advertisement in flight. */
  function Noticed(d: Device, step: CompletionRing.Step): Ble
    requires |d.ring.slots| == SLOTS
  {
    var c := d.ring.consumer;
    if step.Take? && c.Draining? && c.read != c.write && c.read < SLOTS then Absorbed(d.ble, [d.ring.slots[c.read]])
    else if step.CollectOverflows? && c.Released? then Overflowed(d.ble.(overflows := d.ring.overflows))
    else d.ble
  }

  // ----- Conservation in every interleaving

  ghost predicate Sound(d: Device) {
    Consistent(d.ring) && (d.ble.shutDown || BluetoothSafety.Accounted(d.ble))
  }

  lemma NoticedAccounts(d: Device, step: CompletionRing.Step)
    requires |d.ring.slots| == SLOTS && BluetoothSafety.Accounted(d.ble)
    ensures BluetoothSafety.Accounted(Noticed(d, step))
    ensures Noticed(d, step).shutDown == d.ble.shutDown
  {
    hide BluetoothSafety.Accounted, Absorbed, Overflowed;
    var b := d.ble;
    if step.Take? && d.ring.consumer.Draining? && d.ring.consumer.read < SLOTS {
      BluetoothSafety.AbsorbAccounts(b, [d.ring.slots[d.ring.consumer.read]]);
    }
    BluetoothSafety.SameAccount(b, b.ring, d.ring.overflows, b.shuttingDown);
    BluetoothSafety.OverflowAccounts(b.(overflows := d.ring.overflows));
    ShutsNothing(b, d.ring.overflows);
  }

  lemma ShutsNothing(b: Ble, overflows: Word32)
    ensures forall events :: Absorbed(b, events).shutDown == b.shutDown
    ensures Overflowed(b.(overflows := overflows)).shutDown == b.shutDown
  {
  }

  lemma NextIsSound(d: Device, e: Event)
    requires Sound(d)
    ensures Sound(Next(d, e))
  {
    hide Consistent, CompletionRing.Next, Noticed, Advertised, BluetoothSafety.Accounted, SubmitError;
    HasSlots(d.ring);
    match e
    case Submit(p) => if !d.ble.shutDown { BluetoothSafety.SubmitAccounts(d.ble, p); }
    case Send(now, configures, starts) =>
      if !d.ble.shutDown && !d.ble.busy { BluetoothSafety.AdvertiseAccounts(d.ble, now, configures, starts); }
    case Shutdown(resets) => BluetoothSafety.NextAccounts(d.ble, BluetoothSafety.Shutdown(resets));
    case InRing(step) =>
      NextKeepsConsistent(d.ring, step);
      if d.ble.shutDown {
        ShutStays(d, step);
      } else {
        NoticedAccounts(d, step);
      }
  }

  lemma ShutStays(d: Device, step: CompletionRing.Step)
    requires |d.ring.slots| == SLOTS && d.ble.shutDown
    ensures Noticed(d, step).shutDown
  {
    ShutsNothing(d.ble, d.ring.overflows);
  }

  ghost function Run(d: Device, events: seq<Event>): Device
    requires Sound(d)
    ensures Sound(Run(d, events))
    decreases |events|
  {
    hide Sound, Next;
    if events == [] then d
    else
      var before := Run(d, events[..|events| - 1]);
      NextIsSound(before, events[|events| - 1]);
      assert Consistent(before.ring) by { SoundIsConsistent(before); }
      Next(before, events[|events| - 1])
  }

  lemma SoundIsConsistent(d: Device)
    requires Sound(d)
    ensures Consistent(d.ring)
  {
  }

  /** Conservation whatever arrives while a drain is under way: for each transport, up to a completed shutdown,
      accepted = waiting + dropped + completed + failed + in flight, in every interleaving of atomic steps. */
  lemma NothingIsLost(ring: Ring, events: seq<Event>)
    requires Start(ring)
    ensures Sound(Device(ring, BluetoothSafety.INITIAL))
    ensures var d := Run(Device(ring, BluetoothSafety.INITIAL), events);
      d.ble.shutDown || BluetoothSafety.Accounted(d.ble)
  {
    hide BluetoothSafety.Accounted, Consistent;
    StartIsConsistent(ring);
    BluetoothSafety.NothingIsLost([]);
    assert BluetoothSafety.Run(BluetoothSafety.INITIAL, []) == BluetoothSafety.INITIAL;
  }

  // ----- An undisturbed drain is the drain of the transport

  /** What the transport's own model makes of a device. */
  ghost function Seen(d: Device): Ble
    requires Consistent(d.ring)
  {
    d.ble.(ring := Held(d.ring), overflows := d.ring.overflows)
  }

  ghost function Taken(d: Device, k: nat): Device
    requires Consistent(d.ring)
    ensures Consistent(Taken(d, k).ring)
  {
    hide Consistent, Next, CompletionRing.Next;
    if k == 0 then d
    else
      var before := Taken(d, k - 1);
      NextKeepsConsistent(before.ring, Take);
      assert Next(before, InRing(Take)).ring == CompletionRing.Next(before.ring, Take) by { TakeIsTake(before); }
      Next(before, InRing(Take))
  }

  lemma TakeIsTake(d: Device)
    requires Consistent(d.ring)
    ensures |d.ring.slots| == SLOTS && Next(d, InRing(Take)).ring == CompletionRing.Next(d.ring, Take)
  {
    hide Consistent, CompletionRing.Next, Noticed;
    HasSlots(d.ring);
  }

  lemma AbsorbPush(b: Ble, events: seq<Completion>, c: Completion)
    ensures Absorbed(b, events + [c]) == Absorbed(Absorbed(b, events), [c])
  {
  }

  /** After `k` takes the first `k` of the held completions have been handed to the transport. */
  lemma {:induction false} TakesInOrder(d: Device, k: nat)
    requires Consistent(d.ring) && d.ring.consumer.Draining? && d.ring.seen == |Kept(d.ring.offers)|
    requires |d.ring.consumed| == d.ring.released && k <= |Held(d.ring)|
    ensures var t := Taken(d, k);
      && t.ble == Absorbed(d.ble, Held(d.ring)[..k])
      && t.ring.consumed == Kept(d.ring.offers)[..d.ring.released + k]
      && t.ring == d.ring.(consumed := t.ring.consumed, consumer := t.ring.consumer) && t.ring.consumer.Draining?
    decreases k
  {
    hide Consistent, CompletionRing.Next, Absorbed, Kept;
    var held := Held(d.ring);
    HeldFits(d.ring);
    if k == 0 {
      AbsorbNothing(d.ble);
    } else {
      TakesInOrder(d, k - 1);
      var t := Taken(d, k - 1);
      TakeOne(t, held[k - 1]);
      AbsorbPush(d.ble, held[..k - 1], held[k - 1]);
      assert held[..k] == held[..k - 1] + [held[k - 1]];
    }
  }

  lemma HeldFits(r: Ring)
    requires Consistent(r)
    ensures r.released <= |Kept(r.offers)| && |Held(r)| == |Kept(r.offers)| - r.released
    ensures r.consumer.Draining? ==> r.consumed == Kept(r.offers)[..|r.consumed|] && |r.consumed| <= |Kept(r.offers)|
  {
  }

  lemma TakeOne(t: Device, c: Completion)
    requires Consistent(t.ring) && t.ring.consumer.Draining? && t.ring.seen == |Kept(t.ring.offers)|
    requires |t.ring.consumed| < t.ring.seen && c == Kept(t.ring.offers)[|t.ring.consumed|]
    ensures var n := Next(t, InRing(Take));
      && n.ble == Absorbed(t.ble, [c]) && n.ring.consumed == t.ring.consumed + [c]
      && n.ring == t.ring.(consumed := n.ring.consumed, consumer := n.ring.consumer) && n.ring.consumer.Draining?
  {
    hide Absorbed, Kept, Lost, At, After, Unsigned32;
    AtFacts(|t.ring.consumed|);
    AtDistinct(|t.ring.consumed|, t.ring.seen);
  }

  /** One whole drain without a step of the producer in between. */
  ghost function Drain(d: Device): Device
    requires Consistent(d.ring) && d.ring.consumer.Away? && !Stopped(d.ble)
    ensures Consistent(Drain(d).ring)
  {
    hide Consistent, CompletionRing.Next, Noticed;
    HasSlots(d.ring);
    NextKeepsConsistent(d.ring, BeginDrain);
    var begun := Next(d, InRing(BeginDrain));
    NextKeepsConsistent(begun.ring, LoadPublished);
    var loaded := Next(begun, InRing(LoadPublished));
    var taken := Taken(loaded, |Held(d.ring)|);
    NextKeepsConsistent(taken.ring, Release);
    var released := Next(taken, InRing(Release));
    NextKeepsConsistent(released.ring, CollectOverflows);
    Next(released, InRing(CollectOverflows))
  }

  lemma Loads(d: Device)
    requires Consistent(d.ring) && d.ring.consumer.Away? && !Stopped(d.ble)
    ensures var begun := Next(d, InRing(BeginDrain));
      && Consistent(begun.ring)
      && var loaded := Next(begun, InRing(LoadPublished));
         && Consistent(loaded.ring) && loaded.ble == d.ble
         && loaded.ring == d.ring.(consumer := Draining(d.ring.read, d.ring.write), seen := |Kept(d.ring.offers)|)
         && |d.ring.consumed| == d.ring.released
  {
    hide Kept, Lost, At, Unsigned32, Consistent;
    HasSlots(d.ring);
    NextKeepsConsistent(d.ring, BeginDrain);
    NextKeepsConsistent(Next(d, InRing(BeginDrain)).ring, LoadPublished);
    NothingTaken(d.ring);
  }

  lemma NothingTaken(r: Ring)
    requires Consistent(r) && r.consumer.Away?
    ensures |r.consumed| == r.released
  {
  }

  lemma Finishes(t: Device)
    requires Consistent(t.ring) && t.ring.consumer.Draining? && |t.ring.consumed| == t.ring.seen == |Kept(t.ring.offers)|
    ensures var released := Next(t, InRing(Release));
      && Consistent(released.ring)
      && var d := Next(released, InRing(CollectOverflows));
         && Consistent(d.ring) && Held(d.ring) == [] && d.ring.overflows == 0 && d.ring.consumer.Away?
         && d.ble == Overflowed(t.ble.(overflows := t.ring.overflows))
  {
    hide Kept, Lost, At, After, Unsigned32, Consistent, Overflowed;
    HasSlots(t.ring);
    ReadMeetsWrite(t.ring);
    NextKeepsConsistent(t.ring, Release);
    NextKeepsConsistent(Next(t, InRing(Release)).ring, CollectOverflows);
  }

  lemma ReadMeetsWrite(r: Ring)
    requires Consistent(r) && r.consumer.Draining? && |r.consumed| == r.seen
    ensures r.consumer.read == r.consumer.write
  {
  }

  lemma AbsorbIgnoresRing(b: Ble, ring: seq<Completion>, overflows: Word32, events: seq<Completion>)
    ensures Absorbed(b.(ring := ring, overflows := overflows), events)
         == Absorbed(b, events).(ring := ring, overflows := overflows)
  {
  }

  lemma OverflowIgnoresRing(b: Ble, ring: seq<Completion>)
    ensures Overflowed(b.(ring := ring)) == Overflowed(b).(ring := ring)
    ensures Overflowed(b).overflows == 0
  {
  }

  /** Without a completion in between, the steps of a drain do what the transport's drain does at once. */
  lemma DrainRefines(d: Device)
    requires Consistent(d.ring) && d.ring.consumer.Away? && !Stopped(d.ble)
    ensures Seen(Drain(d)) == Drained(Seen(d)) && Drain(d).ring.consumer.Away?
  {
    hide Consistent, CompletionRing.Next, Noticed, Absorbed, Overflowed, Kept, Lost;
    Loads(d);
    var loaded := Next(Next(d, InRing(BeginDrain)), InRing(LoadPublished));
    HeldFits(d.ring);
    var held := Held(d.ring);
    assert Held(loaded.ring) == held;
    TakesInOrder(loaded, |held|);
    assert held[..|held|] == held;
    var taken := Taken(loaded, |held|);
    Finishes(taken);
    AbsorbIgnoresRing(d.ble, held, d.ring.overflows, held);
    OverflowIgnoresRing(Absorbed(d.ble, held).(overflows := d.ring.overflows), []);
    assert Drain(d).ble == Overflowed(Absorbed(d.ble, held).(overflows := d.ring.overflows));
  }
}
