/** The Bluetooth transport: a bounded earliest-deadline queue in front of an advertiser that sends one
    payload at a time and reports its completion through the completion ring. */
module Bluetooth {
  import opened Wrappers
  import opened Words
  import opened Config
  import opened Payloads
  import opened CompletionRing

  const MAX_PENDING: nat := 16
  const LEGACY_MAX: Word16 := 31
  const EXTENDED_MAX: Word16 := 158

  datatype BleError = BleOk | InvalidTransport | InvalidPayload | PayloadTooLarge | QueueFull | BackendError

  /** The abstract state: `ring` holds the completions accepted and not yet drained. */
  datatype Ble = Ble(
    queue: seq<Payload>, ring: seq<Completion>, overflows: Word32, stats: StatsTable,
    active: Byte, busy: bool, shuttingDown: bool, shutDown: bool)

  function StatsIndex(transport: Byte): (i: nat)
    ensures i < 2
  {
    if transport == BLE5 then 1 else 0
  }

  function CountExpected(s: TransportStats): TransportStats { s.(expected := SaturatingIncrement(s.expected)) }
  function CountDropped(s: TransportStats): TransportStats { s.(dropped := SaturatingIncrement(s.dropped)) }
  function CountCompleted(s: TransportStats): TransportStats { s.(completed := SaturatingIncrement(s.completed)) }
  function CountRadioError(s: TransportStats): TransportStats { s.(radioErrors := SaturatingIncrement(s.radioErrors)) }
  function CountSubmitted(s: TransportStats, late: bool): TransportStats {
    s.(submitted := SaturatingIncrement(s.submitted), late := if late then SaturatingIncrement(s.late) else s.late)
  }

  // ----- What each operation does

  function SubmitError(b: Ble, p: Payload): BleError {
    if b.shuttingDown || b.shutDown then BackendError
    else if p.transport != BLE4 && p.transport != BLE5 then InvalidTransport
    else if p.size == 0 || p.size > MAX_PAYLOAD then InvalidPayload
    else if p.size > (if p.transport == BLE4 then LEGACY_MAX else EXTENDED_MAX) then PayloadTooLarge
    else if |b.queue| == MAX_PENDING then QueueFull
    else BleOk
  }

  function Submitted(b: Ble, p: Payload): Ble {
    if SubmitError(b, p) != BleOk then b
    else
      var i := StatsIndex(p.transport);
      b.(queue := b.queue + [p], stats := b.stats[i := CountExpected(b.stats[i])])
  }

  /** An advertisement that ran out of events without an error was completed. */
  predicate Succeeded(c: Completion) {
    c.status == 0 && c.advertisingEvents > 0
  }

  /** The first completion ends the advertisement in flight; the others find nothing in flight. */
  function Absorbed(b: Ble, events: seq<Completion>): Ble {
    if events == [] || !b.busy then b
    else
      var i := StatsIndex(b.active);
      b.(busy := false,
         stats := b.stats[i := if Succeeded(events[0]) then CountCompleted(b.stats[i]) else CountRadioError(b.stats[i])])
  }

  /** A lost completion ends the advertisement in flight as an error. */
  function Overflowed(b: Ble): Ble {
    var a := b.(overflows := 0);
    var i := StatsIndex(a.active);
    if b.overflows > 0 && a.busy then a.(busy := false, stats := a.stats[i := CountRadioError(a.stats[i])]) else a
  }

  function Drained(b: Ble): Ble {
    Overflowed(Absorbed(b, b.ring).(ring := []))
  }

  /** What becomes of the payload just taken from the queue: dropped if it expired, which does not end the
      poll; otherwise advertised, unless the backend refuses it. */
  function SentOrDropped(b: Ble, p: Payload, now: Word64, configures: bool, starts: bool): (r: (Ble, bool, BleError))
    ensures r.0.queue == b.queue
  {
    var i := StatsIndex(p.transport);
    if Expired(p, now) then (b.(stats := b.stats[i := CountDropped(b.stats[i])]), false, BleOk)
    else if !configures || !starts then (b.(stats := b.stats[i := CountRadioError(b.stats[i])]), true, BackendError)
    else (b.(stats := b.stats[i := CountSubmitted(b.stats[i], now > p.deadline)], active := p.transport, busy := true),
          true, BleOk)
  }

  /** Take the earliest payload until one does not turn out expired. */
  function Advertised(b: Ble, now: Word64, configures: bool, starts: bool): (Ble, BleError, Option<Payload>)
    decreases |b.queue|
  {
    if b.queue == [] then (b, BleOk, None)
    else
      var e := Earliest(b.queue);
      var p := b.queue[e];
      var (b', done, error) := SentOrDropped(b.(queue := RemoveAt(b.queue, e)), p, now, configures, starts);
      if done then (b', error, if error == BleOk then Some(p) else None)
      else Advertised(b', now, configures, starts)
  }

  function Polled(b: Ble, now: Word64, configures: bool, starts: bool): (Ble, BleError, Option<Payload>) {
    if b.shuttingDown || b.shutDown then (b, BackendError, None)
    else
      var d := Drained(b);
      if d.busy then (d, BleOk, None) else Advertised(d, now, configures, starts)
  }

  function ShutDown(b: Ble, resets: bool): Ble {
    if b.shutDown then b
    else if !resets then b.(shuttingDown := true)
    else b.(shuttingDown := true, shutDown := true, busy := false, queue := [])
  }

  /** A completion reported by the backend, while it still has the callback. */
  function Reported(b: Ble, c: Completion): Ble {
    if |b.ring| == SLOTS - 1 then b.(overflows := Unsigned32(b.overflows + 1)) else b.(ring := b.ring + [c])
  }

  // ----- Completions one at a time

  /** The completions from the read index up to the write index, in order. */
  function Between(slots: seq<Completion>, read: nat, write: nat): seq<Completion>
    requires |slots| == SLOTS && read < SLOTS && write < SLOTS
  {
    if read <= write then slots[read..write] else slots[read..] + slots[..write]
  }

  lemma BetweenStep(slots: seq<Completion>, read: nat, write: nat)
    requires |slots| == SLOTS && read < SLOTS && write < SLOTS && read != write
    ensures var rest := Between(slots, (read + 1) % SLOTS, write);
      Between(slots, read, write) == [slots[read]] + rest
  {
    if read == SLOTS - 1 {
      assert (read + 1) % SLOTS == 0;
      assert slots[read..] == [slots[read]] && slots[0..write] == slots[..write];
    } else {
      assert (read + 1) % SLOTS == read + 1;
      if read < write {
        assert slots[read..write] == [slots[read]] + slots[read + 1..write];
      } else {
        assert slots[read..] == [slots[read]] + slots[read + 1..];
        assert [slots[read]] + (slots[read + 1..] + slots[..write]) == ([slots[read]] + slots[read + 1..]) + slots[..write];
      }
    }
  }

  lemma BetweenNothing(slots: seq<Completion>, write: nat)
    requires |slots| == SLOTS && write < SLOTS
    ensures Between(slots, write, write) == []
  {
  }

  lemma BetweenPush(slots: seq<Completion>, read: nat, write: nat, c: Completion)
    requires |slots| == SLOTS && read < SLOTS && write < SLOTS
    ensures |Between(slots, read, write)| == SLOTS - 1 <==> (write + 1) % SLOTS == read
    ensures (write + 1) % SLOTS != read ==>
      Between(slots[write := c], read, (write + 1) % SLOTS) == Between(slots, read, write) + [c]
  {
  }

  lemma AbsorbStep(b: Ble, events: seq<Completion>)
    requires events != []
    ensures Absorbed(b, events) == Absorbed(Absorbed(b, [events[0]]), events[1..])
  {
  }

  lemma AbsorbNothing(b: Ble)
    ensures Absorbed(b, []) == b
  {
  }

  // ----- The class

  class BleTransport {
    const pending: array<Payload>
    var pendingCount: nat
    const completions: array<Completion>
    var completionWrite: nat
    var completionRead: nat
    var completionOverflows: Word32
    const stats: array<TransportStats>
    var activeTransport: Byte
    var busy: bool
    var shuttingDown: bool
    var shutDown: bool

    ghost predicate Valid()
      reads this
    {
      && pending.Length == MAX_PENDING && completions.Length == SLOTS && stats.Length == 2
      && pendingCount <= MAX_PENDING && completionWrite < SLOTS && completionRead < SLOTS
    }

    ghost function State(): Ble
      requires Valid()
      reads this, pending, completions, stats
    {
      Ble(pending[..pendingCount], Between(completions[..], completionRead, completionWrite), completionOverflows,
          stats[..], activeTransport, busy, shuttingDown, shutDown)
    }

    constructor ()
      ensures Valid() && fresh(pending) && fresh(completions) && fresh(stats)
      ensures State() == Ble([], [], 0, [NO_STATS, NO_STATS], BLE4, false, false, false)
    {
      pending := new Payload[MAX_PENDING](_ => Payload(0, 0, BLE4, 1, 0, 0, 0, []));
      completions := new Completion[SLOTS](_ => Completion(0, 0));
      stats := new TransportStats[2](_ => NO_STATS);
      pendingCount, completionWrite, completionRead, completionOverflows := 0, 0, 0, 0;
      activeTransport, busy, shuttingDown, shutDown := BLE4, false, false, false;
    }

    method Submit(p: Payload) returns (error: BleError)
      requires Valid()
      modifies this, pending, stats
      ensures Valid() && State() == Submitted(old(State()), p) && error == SubmitError(old(State()), p)
    {
      if shuttingDown || shutDown { return BackendError; }
      if p.transport != BLE4 && p.transport != BLE5 { return InvalidTransport; }
      if p.size == 0 || p.size > MAX_PAYLOAD { return InvalidPayload; }
      var maximum := if p.transport == BLE4 then LEGACY_MAX else EXTENDED_MAX;
      if p.size > maximum { return PayloadTooLarge; }
      if pendingCount == pending.Length { return QueueFull; }
      pending[pendingCount] := p;
      pendingCount := pendingCount + 1;
      var i := StatsIndex(p.transport);
      stats[i] := CountExpected(stats[i]);
      assert stats[..] == old(stats[..])[i := CountExpected(old(stats[i]))];
      return BleOk;
    }

    method EnqueueCompletion(c: Completion)
      requires Valid()
      modifies this, completions
      ensures Valid() && State() == Reported(old(State()), c)
    {
      hide Between;
      BetweenPush(completions[..], completionRead, completionWrite, c);
      var next := (completionWrite + 1) % completions.Length;
      if next == completionRead {
        completionOverflows := Unsigned32(completionOverflows + 1);
        return;
      }
      completions[completionWrite] := c;
      completionWrite := next;
    }

    /** What a completion does to the advertisement in flight. */
    method Complete(event: Completion)
      requires Valid()
      modifies this`busy, stats
      ensures Valid() && State() == Absorbed(old(State()), [event])
    {
      if busy {
        var i := StatsIndex(activeTransport);
        stats[i] := if Succeeded(event) then CountCompleted(stats[i]) else CountRadioError(stats[i]);
        busy := false;
        assert stats[..] == old(stats[..])[i := stats[i]];
      }
    }

    method CollectOverflows()
      requires Valid()
      modifies this`busy, this`completionOverflows, stats
      ensures Valid() && State() == Overflowed(old(State()))
    {
      var overflows := completionOverflows;
      completionOverflows := 0;
      if overflows > 0 && busy {
        var i := StatsIndex(activeTransport);
        stats[i] := CountRadioError(stats[i]);
        busy := false;
        assert stats[..] == old(stats[..])[i := stats[i]];
      }
    }

    method DrainCompletions()
      requires Valid()
      modifies this`completionRead, this`busy, this`completionOverflows, stats
      ensures Valid() && State() == Drained(old(State()))
    {
      hide Absorbed, Overflowed, Between;
      var read: nat, write: nat := completionRead, completionWrite;
      ghost var slots, start := completions[..], State();
      while read != write
        invariant Valid() && read < SLOTS
        invariant completionRead == old(completionRead) && completionOverflows == old(completionOverflows)
        invariant State().ring == start.ring
        invariant Absorbed(start, start.ring) == Absorbed(State(), Between(slots, read, write))
        decreases |Between(slots, read, write)|
      {
        BetweenStep(slots, read, write);
        AbsorbStep(State(), Between(slots, read, write));
        Complete(completions[read]);
        read := (read + 1) % completions.Length;
      }
      BetweenNothing(slots, write);
      AbsorbNothing(State());
      completionRead := read;
      CollectOverflows();
    }

    method EarliestPendingIndex() returns (result: nat)
      requires Valid() && pendingCount > 0
      ensures result == Earliest(pending[..pendingCount])
    {
      result := EarliestIndex(pending, pendingCount);
    }

    method ErasePending(index: nat)
      requires Valid() && index < pendingCount
      modifies this`pendingCount, pending
      ensures Valid() && pendingCount == old(pendingCount) - 1
      ensures pending[..pendingCount] == RemoveAt(old(pending[..pendingCount]), index)
    {
      ShiftDown(pending, index, pendingCount);
      pendingCount := pendingCount - 1;
    }

    method TakeEarliest() returns (p: Payload)
      requires Valid() && pendingCount > 0
      modifies this`pendingCount, pending
      ensures Valid()
      ensures var e := Earliest(old(State()).queue);
        p == old(State()).queue[e] && State() == old(State()).(queue := RemoveAt(old(State()).queue, e))
    {
      hide IsEarliest;
      var index := EarliestPendingIndex();
      p := pending[index];
      ErasePending(index);
    }

    /** Drop an expired payload, or hand it to the backend; `done` says that the poll ends here. */
    method SendOrDrop(p: Payload, now: Word64, configures: bool, starts: bool) returns (done: bool, error: BleError)
      requires Valid()
      modifies this`busy, this`activeTransport, stats
      ensures Valid() && (State(), done, error) == SentOrDropped(old(State()), p, now, configures, starts)
    {
      var i := StatsIndex(p.transport);
      ghost var before := stats[..];
      if Expired(p, now) {
        stats[i] := CountDropped(stats[i]);
        assert stats[..] == before[i := CountDropped(before[i])];
        return false, BleOk;
      }
      if !configures || !starts {
        stats[i] := CountRadioError(stats[i]);
        assert stats[..] == before[i := CountRadioError(before[i])];
        return true, BackendError;
      }
      activeTransport := p.transport;
      busy := true;
      stats[i] := CountSubmitted(stats[i], now > p.deadline);
      assert stats[..] == before[i := CountSubmitted(before[i], now > p.deadline)];
      return true, BleOk;
    }

    /** `sent` is the payload the backend accepted, if it accepted one. */
    method Poll(now: Word64, configures: bool, starts: bool) returns (error: BleError, sent: Option<Payload>)
      requires Valid()
      modifies this, pending, stats
      ensures Valid() && (State(), error, sent) == Polled(old(State()), now, configures, starts)
    {
      hide SentOrDropped, IsEarliest, Drained, StatsIndex, RemoveAt;
      if shuttingDown || shutDown { return BackendError, None; }
      DrainCompletions();
      if busy { return BleOk, None; }
      ghost var polled := Advertised(State(), now, configures, starts);
      while pendingCount > 0
        invariant Valid()
        invariant polled == Advertised(State(), now, configures, starts)
      {
        var selected := TakeEarliest();
        var done;
        done, error := SendOrDrop(selected, now, configures, starts);
        if done { return error, if error == BleOk then Some(selected) else None; }
      }
      return BleOk, None;
    }

    /** `resets` says whether the backend reset succeeds. */
    method Shutdown(resets: bool) returns (ok: bool)
      requires Valid()
      modifies this
      ensures Valid() && State() == ShutDown(old(State()), resets) && ok == (old(shutDown) || resets)
    {
      if shutDown { return true; }
      shuttingDown := true;
      if !resets { return false; }
      shutDown := true;
      busy := false;
      pendingCount := 0;
      return true;
    }
  }
}
