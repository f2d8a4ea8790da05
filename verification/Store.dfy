/** The dual-slot configuration store: two flash blobs, each a checksummed header in front of an
    encoded snapshot, and a wrapping 32-bit generation that says which of two valid slots is newer. */
module Store {
  import opened Wrappers
  import opened Words
  import opened Config
  import opened Format
  import opened Codec

  const MAGIC: Word32 := 0x5249_4443
  const SCHEMA_VERSION: Word16 := 1
  const HEADER_SIZE: nat := 16

  /** The checksum of the first twelve header bytes and the payload; nothing is assumed about it. */
  type Checksum = (Bytes, Bytes) -> Word32

  /** What flash holds under one of the two keys. Reading an Unreadable slot is a storage error. */
  datatype Slot = Absent | Blob(bytes: Bytes) | Unreadable

  datatype LoadedConfig = LoadedConfig(config: SystemConfig, generation: Word32)

  datatype SlotResult = SlotResult(error: StoreError, value: Option<LoadedConfig>, slot: nat)

  // ----- One slot

  function Header(version: Word16, payloadSize: Word16, generation: Word32): Bytes {
    Le(MAGIC, 4) + Le(version, 2) + Le(payloadSize, 2) + Le(generation, 4)
  }

  function BlobOf(crc: Checksum, payload: Bytes, generation: Word32): Bytes
    requires |payload| <= MAX_PAYLOAD_SIZE
  {
    var header := Header(SCHEMA_VERSION, |payload|, generation);
    header + Le(crc(header, payload), 4) + payload
  }

  function Field(blob: Bytes, offset: nat, width: nat): (value: nat)
    requires offset + width <= |blob|
    ensures value < Pow256(width)
  {
    LeValueBound(blob[offset..offset + width]);
    LeValue(blob[offset..offset + width])
  }

  /** A slot as it reads when the driver reports no fault. */
  ghost function Contents(crc: Checksum, s: Slot): (r: (StoreError, Option<LoadedConfig>))
    ensures r.1.Some? <==> r.0 == Ok
    ensures r.0 in {Ok, NotFound, StorageError, Corrupt, IncompatibleVersion}
  {
    match s
    case Absent => (NotFound, None)
    case Unreadable => (StorageError, None)
    case Blob(blob) =>
      if |blob| < HEADER_SIZE || |blob| > HEADER_SIZE + MAX_PAYLOAD_SIZE then (Corrupt, None)
      else
        var payload := blob[HEADER_SIZE..];
        if Field(blob, 0, 4) != MAGIC || Field(blob, 6, 2) != |payload| then (Corrupt, None)
        else if Field(blob, 12, 4) != crc(blob[..12], payload) then (Corrupt, None)
        else if Field(blob, 4, 2) != SCHEMA_VERSION then (IncompatibleVersion, None)
        else
          var decoded := DecodeConfig(payload);
          if decoded.None? then (Corrupt, None)
          else (Ok, Some(LoadedConfig(decoded.value, Field(blob, 8, 4))))
  }

  /** Reading a slot; `fault` is a read that the driver fails this time. */
  ghost function SlotRead(crc: Checksum, s: Slot, slot: nat, fault: bool): (r: SlotResult)
    ensures r.slot == slot
  {
    if fault then SlotResult(StorageError, None, slot)
    else var (error, value) := Contents(crc, s); SlotResult(error, value, slot)
  }

  lemma HeaderFields(version: Word16, payloadSize: Word16, generation: Word32)
    ensures var h := Header(version, payloadSize, generation);
      |h| == 12 && Field(h, 0, 4) == MAGIC && Field(h, 4, 2) == version
      && Field(h, 6, 2) == payloadSize && Field(h, 8, 4) == generation
  {
    var m, v, s, g := Le(MAGIC, 4), Le(version, 2), Le(payloadSize, 2), Le(generation, 4);
    var h := Header(version, payloadSize, generation);
    assert h[0..4] == m && h[4..6] == v && h[6..8] == s && h[8..12] == g;
    LeRoundTrip(MAGIC, 4);
    LeRoundTrip(version, 2);
    LeRoundTrip(payloadSize, 2);
    LeRoundTrip(generation, 4);
  }

  lemma BlobFields(header: Bytes, sum: Word32, payload: Bytes)
    requires |header| == 12
    ensures var blob := header + Le(sum, 4) + payload;
      && blob[..12] == header && blob[16..] == payload && Field(blob, 12, 4) == sum
      && Field(blob, 0, 4) == Field(header, 0, 4) && Field(blob, 4, 2) == Field(header, 4, 2)
      && Field(blob, 6, 2) == Field(header, 6, 2) && Field(blob, 8, 4) == Field(header, 8, 4)
  {
    var blob := header + Le(sum, 4) + payload;
    assert blob[..12] == header;
    assert blob[12..16] == Le(sum, 4);
    LeRoundTrip(sum, 4);
    assert blob[0..4] == header[0..4] && blob[4..6] == header[4..6];
    assert blob[6..8] == header[6..8] && blob[8..12] == header[8..12];
  }

  /** A complete blob reads as the snapshot and the generation it was made from. */
  lemma BlobReadsBack(crc: Checksum, c: SystemConfig, generation: Word32)
    requires EncodeConfig(c).Payload?
    ensures Contents(crc, Blob(BlobOf(crc, EncodeConfig(c).bytes, generation)))
         == (Ok, Some(LoadedConfig(c, generation)))
  {
    hide EncodeConfig, DecodeConfig, Field, Header;
    var payload := EncodeConfig(c).bytes;
    var header := Header(SCHEMA_VERSION, |payload|, generation);
    DecodeEncode(c);
    HeaderFields(SCHEMA_VERSION, |payload|, generation);
    BlobFields(header, crc(header, payload), payload);
  }

  // ----- Choosing between two slots

  predicate Newer(left: Word32, right: Word32) {
    var distance := Minus32(left, right);
    distance != 0 && distance < TWO31
  }

  function ChooseSlot(left: SlotResult, right: SlotResult): (r: SlotResult)
    ensures r.slot in {0, left.slot, right.slot}
  {
    if left.value.Some? && right.value.Some? then
      var distance := Minus32(right.value.value.generation, left.value.value.generation);
      if distance == 0 || distance == TWO31 then SlotResult(Corrupt, None, 0)
      else if Newer(right.value.value.generation, left.value.value.generation) then right else left
    else if left.value.Some? then left
    else if right.value.Some? then right
    else if left.error == StorageError || right.error == StorageError then SlotResult(StorageError, None, 0)
    else if left.error == IncompatibleVersion || right.error == IncompatibleVersion then
      SlotResult(IncompatibleVersion, None, 0)
    else if left.error == Corrupt || right.error == Corrupt then SlotResult(Corrupt, None, 0)
    else SlotResult(NotFound, None, 0)
  }

  /** A slot reads as a snapshot with a generation if and only if it holds exactly the blob made from them. */
  lemma OnlyItsBlobReads(crc: Checksum, blob: Bytes, c: SystemConfig, generation: Word32)
    ensures Contents(crc, Blob(blob)) == (Ok, Some(LoadedConfig(c, generation))) <==>
      EncodeConfig(c).Payload? && blob == BlobOf(crc, EncodeConfig(c).bytes, generation)
  {
    hide DecodeConfig, EncodeConfig, Framed;
    if EncodeConfig(c).Payload? {
      BlobReadsBack(crc, c, generation);
    }
    if Contents(crc, Blob(blob)) == (Ok, Some(LoadedConfig(c, generation))) {
      EncodeDecode(blob[16..]);
      FramedIsBlob(crc, blob, generation);
    }
  }

  /** Numbers of fixed width determine their bytes. */
  lemma SliceIs(blob: Bytes, from: nat, to: nat)
    requires from <= to <= |blob|
    ensures blob[from..to] == Le(LeValue(blob[from..to]), to - from)
  {
    LeCanonical(blob[from..to]);
  }

  lemma FramedIsBlob(crc: Checksum, blob: Bytes, generation: Word32)
    requires 16 <= |blob| <= 16 + 32768 && Field(blob, 0, 4) == MAGIC && Field(blob, 4, 2) == SCHEMA_VERSION
    requires Field(blob, 6, 2) == |blob| - 16 && Field(blob, 8, 4) == generation
    requires Field(blob, 12, 4) == crc(blob[..12], blob[16..])
    ensures blob == BlobOf(crc, blob[16..], generation)
  {
    hide Le, LeValue;
    SliceIs(blob, 0, 4);
    SliceIs(blob, 4, 6);
    SliceIs(blob, 6, 8);
    SliceIs(blob, 8, 12);
    SliceIs(blob, 12, 16);
    assert blob[..12] == blob[0..4] + blob[4..6] + blob[6..8] + blob[8..12];
    assert blob == blob[..12] + blob[12..16] + blob[16..];
  }

  /** How much an error says about a store without a snapshot. */
  function Weight(error: StoreError): nat {
    match error
    case StorageError => 3
    case IncompatibleVersion => 2
    case Corrupt => 1
    case _ => 0
  }

  /** A slot as it reads: a snapshot, or one of the four errors of reading. */
  predicate IsReading(r: SlotResult) {
    if r.value.Some? then r.error == Ok else r.error in {NotFound, StorageError, Corrupt, IncompatibleVersion}
  }

  /** The choice. Of two snapshots whose generations can be ordered it is the newer one, of two others neither; a single
      snapshot is taken; and without one the error is the weightier of the two. */
  lemma ChoosesNewer(left: SlotResult, right: SlotResult)
    requires IsReading(left) && IsReading(right)
    ensures var r := ChooseSlot(left, right);
      && IsReading(r)
      && (r.value.Some? ==> r == left || r == right)
      && (left.value.Some? && right.value.Some? ==>
           var a, b := left.value.value.generation, right.value.value.generation;
           && (r == left && r.value.Some? && !(r == right) ==> Newer(a, b))
           && (Newer(a, b) ==> r == left) && (Newer(b, a) ==> r == right)
           && (r.value.None? <==> !Newer(a, b) && !Newer(b, a))
           && (r.value.None? ==> r.error == Corrupt))
      && (left.value.Some? != right.value.Some? ==> r == if left.value.Some? then left else right)
      && (left.value.None? && right.value.None? ==>
           && r.value.None? && r.error in {left.error, right.error}
           && Weight(r.error) >= Weight(left.error) && Weight(r.error) >= Weight(right.error))
  {
  }

  type Flash = s: seq<Slot> | |s| == 2 witness [Absent, Absent]

  const EMPTY: Flash := [Absent, Absent]

  ghost function Value(crc: Checksum, s: Slot): Option<LoadedConfig> {
    Contents(crc, s).1
  }

  /** What both slots read as when no read fails. */
  ghost function Chosen(crc: Checksum, flash: Flash): (r: SlotResult)
    ensures r.slot < 2
  {
    ChooseSlot(SlotRead(crc, flash[0], 0, false), SlotRead(crc, flash[1], 1, false))
  }

  /** The snapshot that counts: what a load without read faults returns. */
  ghost function Current(crc: Checksum, flash: Flash): Option<LoadedConfig> {
    Chosen(crc, flash).value
  }

  /** Two valid slots whose generations cannot be ordered. */
  ghost predicate Ambiguous(crc: Checksum, flash: Flash) {
    && Value(crc, flash[0]).Some? && Value(crc, flash[1]).Some?
    && Minus32(Value(crc, flash[1]).value.generation, Value(crc, flash[0]).value.generation) in {0, TWO31}
  }

  // ----- What the environment does to an operation

  datatype Opening = Opens | NoNamespace | OpenFails

  /** What becomes of the target slot: the blob is stored, the old content stays, or something else is left. */
  datatype Medium = Stores | Keeps | Garbles(left: Slot)

  /** What the write and commit calls report, if power lasts that long. */
  datatype Verdict = Succeeds | Fails | LosesPower

  datatype Env = Env(opening: Opening, faultA: bool, faultB: bool, medium: Medium, verdict: Verdict, verifyFault: bool)

  datatype Outcome = Returned(error: StoreError) | PowerLost

  /** A blob in its frame: magic number, schema version, size of the rest, and the checksum of header and payload. */
  ghost predicate Framed(crc: Checksum, blob: Bytes, version: Word16) {
    && 16 <= |blob| <= 16 + 32768
    && LeValue(blob[0..4]) == 0x5249_4443 && LeValue(blob[4..6]) == version && LeValue(blob[6..8]) == |blob| - 16
    && LeValue(blob[12..16]) == crc(blob[..12], blob[16..])
  }

  /** What a torn write leaves: nothing, something unreadable, or bytes that are no blob in its frame. */
  ghost predicate Torn(crc: Checksum, left: Slot) {
    left.Blob? ==> forall version :: !Framed(crc, left.bytes, version)
  }

  /** A write that neither happens nor is left out tears the slot. */
  ghost predicate Sane(crc: Checksum, env: Env) {
    env.medium.Garbles? ==> Torn(crc, env.medium.left)
  }

  /** A slot reads as its bytes say, and as nothing else: as the snapshot that the payload of a blob in its frame
      encodes, as of another version if it is framed for that, and as corrupt otherwise. */
  lemma ReadsExactly(crc: Checksum, blob: Bytes)
    ensures var (error, value) := Contents(crc, Blob(blob));
      && (error == Ok <==> Framed(crc, blob, 1) && DecodeConfig(blob[16..]).Some?)
      && (error == Ok ==> value == Some(LoadedConfig(DecodeConfig(blob[16..]).value, LeValue(blob[8..12]))))
      && (error == IncompatibleVersion <==> exists version :: version != 1 && Framed(crc, blob, version))
      && (error != Ok && error != IncompatibleVersion ==> error == Corrupt)
  {
    hide DecodeConfig;
    if 6 <= |blob| {
      LeValueBound(blob[4..6]);
      var version: Word16 := LeValue(blob[4..6]);
      if Contents(crc, Blob(blob)).0 == IncompatibleVersion {
        assert Framed(crc, blob, version);
      }
    }
  }

  lemma TornReadsAsNothing(crc: Checksum, left: Slot)
    requires Torn(crc, left)
    ensures Contents(crc, left).0 in {NotFound, Corrupt, StorageError}
  {
    hide DecodeConfig, Framed;
    if left.Blob? {
      ReadsExactly(crc, left.bytes);
    }
  }

  const IDEAL: Env := Env(Opens, false, false, Stores, Succeeds, false)

  // ----- The specification of load and save

  ghost function Loaded(crc: Checksum, flash: Flash, opening: Opening, faultA: bool, faultB: bool)
    : (StoreError, Option<LoadedConfig>)
  {
    match opening
    case NoNamespace => (NotFound, None)
    case OpenFails => (StorageError, None)
    case Opens =>
      var chosen := ChooseSlot(SlotRead(crc, flash[0], 0, faultA), SlotRead(crc, flash[1], 1, faultB));
      (chosen.error, chosen.value)
  }

  /** Why a save is refused before anything is written, if it is. */
  ghost function Refusal(crc: Checksum, flash: Flash, c: SystemConfig, generation: Word32,
      env: Env): Option<StoreError> {
    if EncodeConfig(c).Refused? then Some(EncodeConfig(c).error)
    else if !env.opening.Opens? then Some(StorageError)
    else
      var left, right := SlotRead(crc, flash[0], 0, env.faultA), SlotRead(crc, flash[1], 1, env.faultB);
      if left.error == StorageError || right.error == StorageError then Some(StorageError)
      else if left.error == IncompatibleVersion || right.error == IncompatibleVersion then Some(IncompatibleVersion)
      else if Ambiguous(crc, flash) then Some(InvalidGeneration)
      else if Current(crc, flash).Some? && !Newer(generation, Current(crc, flash).value.generation) then
        Some(InvalidGeneration)
      else None
  }

  /** The slot that does not hold the current snapshot. */
  ghost function Target(crc: Checksum, flash: Flash): (target: nat)
    ensures target < 2
  {
    if Current(crc, flash).Some? then 1 - Chosen(crc, flash).slot else 0
  }

  ghost function Written(crc: Checksum, old_: Slot, c: SystemConfig, generation: Word32, medium: Medium): Slot
    requires EncodeConfig(c).Payload?
  {
    match medium
    case Stores => Blob(BlobOf(crc, EncodeConfig(c).bytes, generation))
    case Keeps => old_
    case Garbles(left) => left
  }

  ghost function Saved(crc: Checksum, flash: Flash, c: SystemConfig, generation: Word32, env: Env): (Flash, Outcome) {
    hide Contents, EncodeConfig, BlobOf;
    var refusal := Refusal(crc, flash, c, generation, env);
    if refusal.Some? then (flash, Returned(refusal.value))
    else
      var target := Target(crc, flash);
      var left := Written(crc, flash[target], c, generation, env.medium);
      var verified := SlotRead(crc, left, target, env.verifyFault);
      (flash[target := left],
       match env.verdict
       case LosesPower => PowerLost
       case Fails => Returned(StorageError)
       case Succeeds =>
         Returned(if verified.value.Some? && verified.value.value.generation == generation then Ok else StorageError))
  }

  class NvsConfigStore {
    const crc: Checksum
    const slots: array<Slot>

    ghost predicate Valid() {
      slots.Length == 2
    }

    ghost function State(): Flash
      requires Valid()
      reads slots
    {
      slots[..]
    }

    constructor (crc: Checksum)
      ensures Valid() && this.crc == crc && State() == EMPTY && fresh(slots)
    {
      this.crc := crc;
      slots := new Slot[2](_ => Absent);
    }

    method ReadSlot(slot: nat, fault: bool) returns (r: SlotResult)
      requires Valid() && slot < 2
      ensures r == SlotRead(crc, slots[slot], slot, fault)
    {
      if fault { return SlotResult(StorageError, None, slot); }
      match slots[slot] {
        case Absent => return SlotResult(NotFound, None, slot);
        case Unreadable => return SlotResult(StorageError, None, slot);
        case Blob(blob) =>
          if |blob| < HEADER_SIZE || |blob| > HEADER_SIZE + MAX_PAYLOAD_SIZE { return SlotResult(Corrupt, None, slot); }
          var magic, version := Field(blob, 0, 4), Field(blob, 4, 2);
          var payloadSize, generation, storedCrc := Field(blob, 6, 2), Field(blob, 8, 4), Field(blob, 12, 4);
          if magic != MAGIC || payloadSize != |blob| - HEADER_SIZE { return SlotResult(Corrupt, None, slot); }
          if storedCrc != crc(blob[..12], blob[HEADER_SIZE..]) { return SlotResult(Corrupt, None, slot); }
          if version != SCHEMA_VERSION { return SlotResult(IncompatibleVersion, None, slot); }
          var config := Decode(blob[HEADER_SIZE..]);
          if config.None? { return SlotResult(Corrupt, None, slot); }
          return SlotResult(Ok, Some(LoadedConfig(config.value, generation)), slot);
      }
    }

    method Load(opening: Opening, faultA: bool, faultB: bool) returns (error: StoreError, value: Option<LoadedConfig>)
      requires Valid()
      ensures (error, value) == Loaded(crc, State(), opening, faultA, faultB)
    {
      if opening.NoNamespace? { return NotFound, None; }
      if opening.OpenFails? { return StorageError, None; }
      var left := ReadSlot(0, faultA);
      var right := ReadSlot(1, faultB);
      var selected := ChooseSlot(left, right);
      return selected.error, selected.value;
    }

    method AppendHeader(writer: Writer, payloadSize: Word16, generation: Word32, sum: Word32)
      modifies writer
      ensures writer.data == old(writer.data) + (Header(SCHEMA_VERSION, payloadSize, generation) + Le(sum, 4))
    {
      hide Le, Put, Header;
      AppendFields(writer, payloadSize, generation);
      writer.Scalar(sum, 4);
    }

    /** The fields in front of the checksum. */
    method AppendFields(writer: Writer, payloadSize: Word16, generation: Word32)
      modifies writer
      ensures writer.data == old(writer.data) + Header(SCHEMA_VERSION, payloadSize, generation)
    {
      hide Le, Put;
      writer.Scalar(MAGIC, 4);
      writer.Scalar(SCHEMA_VERSION, 2);
      writer.Scalar(payloadSize, 2);
      writer.Scalar(generation, 4);
    }

    method MakeBlob(payload: Bytes, generation: Word32) returns (bytes: Bytes)
      requires |payload| <= MAX_PAYLOAD_SIZE
      ensures bytes == BlobOf(crc, payload, generation)
    {
      var headerWithoutCrc := new Writer();
      AppendFields(headerWithoutCrc, |payload|, generation);
      assert headerWithoutCrc.data == Header(SCHEMA_VERSION, |payload|, generation);
      var sum := crc(headerWithoutCrc.data, payload);
      var blob := new Writer();
      AppendHeader(blob, |payload|, generation, sum);
      assert blob.data == headerWithoutCrc.data + Le(sum, 4);
      blob.Append(payload);
      return blob.data;
    }

    method Save(c: SystemConfig, generation: Word32, env: Env) returns (outcome: Outcome)
      requires Valid()
      modifies slots
      ensures (State(), outcome) == Saved(crc, old(State()), c, generation, env)
    {
      hide EncodeConfig, Contents, BlobOf;
      var encoded := Encode(c);
      if encoded.Refused? { return Returned(encoded.error); }
      if !env.opening.Opens? { return Returned(StorageError); }
      var left := ReadSlot(0, env.faultA);
      var right := ReadSlot(1, env.faultB);
      if left.error == StorageError || right.error == StorageError { return Returned(StorageError); }
      if left.error == IncompatibleVersion || right.error == IncompatibleVersion { return Returned(IncompatibleVersion); }
      var current := ChooseSlot(left, right);
      if left.value.Some? && right.value.Some? && current.value.None? { return Returned(InvalidGeneration); }
      if current.value.Some? && !Newer(generation, current.value.value.generation) { return Returned(InvalidGeneration); }
      var target := if current.value.Some? then 1 - current.slot else 0;

      var blob := MakeBlob(encoded.bytes, generation);

      // The write and the commit, as the medium and the driver have it.
      match env.medium {
        case Stores => slots[target] := Blob(blob);
        case Keeps =>
        case Garbles(rubbish) => slots[target] := rubbish;
      }
      assert State() == old(State())[target := Written(crc, old(slots[target]), c, generation, env.medium)];
      if env.verdict.LosesPower? { return PowerLost; }
      if env.verdict.Fails? { return Returned(StorageError); }
      var verified := ReadSlot(target, env.verifyFault);
      if verified.value.None? || verified.value.value.generation != generation { return Returned(StorageError); }
      return Returned(Ok);
    }
  }
}
