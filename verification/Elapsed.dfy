/** The trajectory clock: 32-bit elapsed times are extended to 64 bits, per instance, by watching them wrap. */
module Elapsed {
  import opened Wrappers
  import opened Words

  const INSTANCE_SLOTS: nat := 50

  function Elapsed32(now: Word64, started: Word64): Word32
    requires started <= now
  {
    (now - started) % TWO32
  }

  /** What one instance slot remembers: the last 32-bit reading and the wraps seen so far. */
  datatype Memory = Memory(last: Word32, wrapOffset: Word64)

  predicate Wrapped(last: Word32, elapsed: Word32) {
    elapsed < last && last - elapsed > TWO31
  }

  function Remembered(m: Option<Memory>, elapsed: Word32): Memory {
    match m
    case None => Memory(elapsed, 0)
    case Some(Memory(last, offset)) =>
      Memory(elapsed, if Wrapped(last, elapsed) then (offset + TWO32) % TWO64 else offset)
  }

  class ElapsedClock {
    const lastElapsed: array<Word32>
    const wrapOffset: array<Word64>
    const initialized: array<bool>

    ghost predicate Valid() {
      lastElapsed.Length == INSTANCE_SLOTS && wrapOffset.Length == INSTANCE_SLOTS && initialized.Length == INSTANCE_SLOTS
      && lastElapsed as object != wrapOffset as object
    }

    /** The memory of a slot; a slot never sampled has none, and its wrap offset is still zero. */
    ghost function SlotMemory(slot: nat): Option<Memory>
      requires Valid() && slot < INSTANCE_SLOTS
      reads lastElapsed, wrapOffset, initialized
    {
      if initialized[slot] then Some(Memory(lastElapsed[slot], wrapOffset[slot])) else None
    }

    ghost predicate Clean()
      requires Valid()
      reads wrapOffset, initialized
    {
      forall slot :: 0 <= slot < INSTANCE_SLOTS && !initialized[slot] ==> wrapOffset[slot] == 0
    }

    constructor ()
      ensures Valid() && Clean() && fresh(lastElapsed) && fresh(wrapOffset) && fresh(initialized)
      ensures forall slot :: 0 <= slot < INSTANCE_SLOTS ==> SlotMemory(slot) == None
    {
      lastElapsed := new Word32[INSTANCE_SLOTS](_ => 0);
      wrapOffset := new Word64[INSTANCE_SLOTS](_ => 0);
      initialized := new bool[INSTANCE_SLOTS](_ => false);
    }

    method ExtendElapsed(instance: Word16, elapsed: Word32) returns (extended: Word64)
      requires Valid() && Clean()
      modifies lastElapsed, wrapOffset, initialized
      ensures Clean()
      ensures var slot := instance % INSTANCE_SLOTS; var m := Remembered(old(SlotMemory(slot)), elapsed);
        SlotMemory(slot) == Some(m) && extended == (m.wrapOffset + m.last) % TWO64
      ensures forall slot :: 0 <= slot < INSTANCE_SLOTS && slot != instance % INSTANCE_SLOTS ==>
        SlotMemory(slot) == old(SlotMemory(slot))
    {
      var slot := instance % INSTANCE_SLOTS;
      if !initialized[slot] {
        initialized[slot] := true;
      } else if elapsed < lastElapsed[slot] && lastElapsed[slot] - elapsed > TWO31 {
        wrapOffset[slot] := (wrapOffset[slot] + TWO32) % TWO64;
      }
      lastElapsed[slot] := elapsed;
      return (wrapOffset[slot] + elapsed) % TWO64;
    }
  }

  // ----- The true elapsed time is rebuilt

  /** Sampling at these times, one after the other. */
  function Sampled(started: Word64, times: seq<Word64>): Option<Memory>
    requires forall i :: 0 <= i < |times| ==> started <= times[i]
  {
    if times == [] then None
    else Some(Remembered(Sampled(started, times[..|times| - 1]), Elapsed32(times[|times| - 1], started)))
  }

  /** Samples after the start, at nondecreasing times. */
  predicate InOrder(started: Word64, times: seq<Word64>) {
    && (forall i :: 0 <= i < |times| ==> started <= times[i])
    && (forall i :: 0 < i < |times| ==> times[i - 1] <= times[i])
  }

  /** The wrap between two readings is seen, if there is one: they are less than 2^31 ms apart, or none lies between. */
  predicate WrapSeen(before: nat, gap: nat) {
    gap < TWO31 || before % TWO32 + gap < TWO32
  }

  /** Every wrap is seen, the first sample being compared with the start. */
  predicate AllSeen(started: Word64, times: seq<Word64>)
    requires InOrder(started, times)
  {
    && (times != [] ==> times[0] - started < TWO32)
    && (forall i :: 0 < i < |times| ==> WrapSeen(times[i - 1] - started, times[i] - times[i - 1]))
  }

  /** How much one reading adds to the extended time, against how much time has passed: never more, and exactly as much
      if and only if the wrap is seen. */
  lemma OneSample(before: nat, gap: nat)
    ensures var last, elapsed := before % TWO32, (before + gap) % TWO32;
      var added := elapsed - last + if Wrapped(last, elapsed) then TWO32 else 0;
      added <= gap && (added == gap <==> WrapSeen(before, gap))
  {
    var q, r := before / 0x1_0000_0000, before % 0x1_0000_0000;
    var n, s := (r + gap) / 0x1_0000_0000, (r + gap) % 0x1_0000_0000;
    UniqueQuotient(before + gap, 0x1_0000_0000, q + n, s);
    if n >= 2 {
      MulMonotone(2, n, 0x1_0000_0000);
    }
  }

  /** The extended time never runs ahead, and it is the true elapsed time if and only if every wrap has been seen. */
  lemma {:induction false} RebuiltExactly(started: Word64, times: seq<Word64>)
    requires times != [] && InOrder(started, times)
    ensures var m := Sampled(started, times).value;
      var elapsed := times[|times| - 1] - started;
      && m.last == Elapsed32(times[|times| - 1], started)
      && m.wrapOffset + m.last <= elapsed
      && (m.wrapOffset + m.last == elapsed <==> AllSeen(started, times))
    decreases |times|
  {
    hide WrapSeen, AllSeen, Remembered;
    var last := |times| - 1;
    if last == 0 {
      assert Sampled(started, times[..0]) == None;
      FirstReading(times[0] - started);
      assert AllSeen(started, times) <==> times[0] - started < TWO32 by { OneSeen(started, times); }
    } else {
      var front := times[..last];
      assert front[last - 1] == times[last - 1];
      OneMoreSeen(started, times);
      RebuiltExactly(started, front);
      NextReading(Sampled(started, front).value, times[last - 1] - started, times[last] - times[last - 1]);
    }
  }

  lemma OneSeen(started: Word64, times: seq<Word64>)
    requires |times| == 1 && InOrder(started, times)
    ensures AllSeen(started, times) <==> times[0] - started < TWO32
  {
  }

  lemma NextReading(m: Memory, before: nat, gap: nat)
    requires before + gap < TWO64 && m.last == before % TWO32 && m.wrapOffset + m.last <= before
    ensures var m' := Remembered(Some(m), (before + gap) % TWO32);
      && m'.last == (before + gap) % TWO32 && m'.wrapOffset + m'.last <= before + gap
      && (m'.wrapOffset + m'.last == before + gap <==> m.wrapOffset + m.last == before && WrapSeen(before, gap))
  {
    hide WrapSeen, Wrapped;
    OneSample(before, gap);
  }

  lemma FirstReading(elapsed: nat)
    ensures elapsed % TWO32 <= elapsed && (elapsed % TWO32 == elapsed <==> elapsed < TWO32)
    ensures Remembered(None, elapsed % TWO32) == Memory(elapsed % TWO32, 0)
  {
  }

  lemma OneMoreSeen(started: Word64, times: seq<Word64>)
    requires |times| > 1 && InOrder(started, times)
    ensures var last := |times| - 1;
      InOrder(started, times[..last]) &&
      (AllSeen(started, times) <==>
        AllSeen(started, times[..last]) && WrapSeen(times[last - 1] - started, times[last] - times[last - 1]))
  {
    hide WrapSeen;
    var last := |times| - 1;
    assert forall i :: 0 <= i < last ==> times[..last][i] == times[i];
    if AllSeen(started, times[..last]) && WrapSeen(times[last - 1] - started, times[last] - times[last - 1]) {
      forall i | 0 < i < |times| ensures WrapSeen(times[i - 1] - started, times[i] - times[i - 1]) {
        if i < last {
          assert times[..last][i - 1] == times[i - 1] && times[..last][i] == times[i];
        }
      }
    }
    if AllSeen(started, times) {
      forall i | 0 < i < last
        ensures WrapSeen(times[..last][i - 1] - started, times[..last][i] - times[..last][i - 1])
      {
        assert WrapSeen(times[i - 1] - started, times[i] - times[i - 1]);
      }
    }
  }

  /** The first sample comes less than 2^32 ms after the start, later ones less than 2^31 ms apart. */
  predicate Frequent(started: Word64, times: seq<Word64>) {
    && (forall i :: 0 <= i < |times| ==> started <= times[i])
    && (times != [] ==> times[0] - started < TWO32)
    && (forall i :: 0 < i < |times| ==> times[i - 1] <= times[i] < times[i - 1] + TWO31)
  }

  /** With frequent samples, truncating the elapsed time to 32 bits and extending it again loses nothing. */
  lemma ElapsedTimeIsRebuilt(started: Word64, times: seq<Word64>)
    requires times != [] && Frequent(started, times)
    ensures var m := Sampled(started, times).value;
      m.wrapOffset + m.last == times[|times| - 1] - started && m.last == Elapsed32(times[|times| - 1], started)
  {
    RebuiltExactly(started, times);
  }

  /** The bound on the gap is sharp: samples exactly 2^31 ms apart can hide a wrap. */
  lemma LongGapLosesAWrap()
    ensures var m := Sampled(0, [TWO31, TWO32]).value; m.wrapOffset + m.last == 0
  {
    assert [TWO31, TWO32][..1] == [TWO31] && [TWO31][..0] == [];
    assert Sampled(0, [TWO31]) == Some(Memory(TWO31, 0)) by {
      assert Sampled(0, [TWO31][..0]) == None;
    }
  }
}
