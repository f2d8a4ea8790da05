/** The encoder and the decoder of the configuration store, and the bijection between the
    snapshots that can be stored and the payloads that can be loaded. */
module Codec {
  import opened Wrappers
  import opened Words
  import opened Config
  import opened Format

  datatype StoreError =
    | Ok
    | NotFound
    | InvalidConfig
    | InvalidGeneration
    | PayloadTooLarge
    | StorageError
    | Corrupt
    | IncompatibleVersion

  class Writer {
    var data: Bytes

    constructor ()
      ensures data == []
    {
      data := [];
    }

    method Scalar(value: nat, width: nat)
      modifies this
      ensures data == old(data) + Le(value, width)
      ensures forall tail {:trigger data + tail} :: data + tail == old(data) + Put(value, width, tail)
    {
      ghost var start := data;
      for index := 0 to width
        invariant data == start + Le(value, width)[..index]
      {
        LeAt(value, width, index);
        data := data + [value / Pow256(index) % 256];
      }
      assert data == start + Le(value, width);
      forall tail {:trigger data + tail} ensures data + tail == start + Put(value, width, tail) {
        assert (start + Le(value, width)) + tail == start + (Le(value, width) + tail);
      }
    }

    method Append(bytes: Bytes)
      modifies this
      ensures data == old(data) + bytes
      ensures forall tail {:trigger data + tail} :: data + tail == old(data) + (bytes + tail)
    {
      ghost var start := data;
      data := data + bytes;
      forall tail {:trigger data + tail} ensures data + tail == start + (bytes + tail) {
        assert (start + bytes) + tail == start + (bytes + tail);
      }
    }
  }

  class Reader {
    const data: Bytes
    var offset: nat

    constructor (bytes: Bytes)
      ensures Valid() && data == bytes && Rest() == bytes
    {
      data, offset := bytes, 0;
    }

    ghost predicate Valid()
      reads this
    {
      offset <= |data|
    }

    /** The bytes still to be read. */
    ghost function Rest(): Bytes
      requires Valid()
      reads this
    {
      data[offset..]
    }

    method Scalar(width: nat) returns (ok: bool, value: nat)
      requires Valid()
      modifies this
      ensures Valid()
      ensures ok == Read(old(Rest()), width).Some?
      ensures ok ==> (value, Rest()) == Read(old(Rest()), width).value
      ensures !ok ==> Rest() == old(Rest())
    {
      value := 0;
      if offset + width > |data| { return false, 0; }
      ghost var start, block := offset, data[offset..offset + width];
      for index := 0 to width
        invariant offset == start + index && start + width <= |data|
        invariant value == LeValue(block[..index])
      {
        assert block[..index + 1] == block[..index] + [data[offset]];
        LeValueAppend(block[..index], data[offset]);
        value := value + data[offset] * Pow256(index);
        offset := offset + 1;
      }
      assert block[..width] == block == old(Rest())[..width];
      return true, value;
    }

    method Text(size: nat) returns (ok: bool, value: Bytes)
      requires Valid()
      modifies this
      ensures Valid()
      ensures ok == ReadBytes(old(Rest()), size).Some?
      ensures ok ==> (value, Rest()) == ReadBytes(old(Rest()), size).value
      ensures !ok ==> Rest() == old(Rest())
    {
      if offset + size > |data| { return false, []; }
      ghost var before := Rest();
      value := data[offset..offset + size];
      offset := offset + size;
      assert before[size..] == Rest() && before[..size] == value;
      return true, value;
    }

    method Done() returns (done: bool)
      requires Valid()
      ensures done <==> Rest() == []
    {
      return offset == |data|;
    }
  }

  // ----- What encoding and decoding mean

  datatype EncodeResult = Payload(bytes: Bytes) | Refused(error: StoreError)

  ghost function EncodeConfig(c: SystemConfig): (r: EncodeResult)
    ensures r.Payload? ==> |r.bytes| <= MAX_PAYLOAD_SIZE
    ensures r.Refused? ==> r.error in {InvalidConfig, PayloadTooLarge}
  {
    if !Acceptable(c) then Refused(InvalidConfig)
    else if exists g :: g in c.groups && !Storable(g) then Refused(PayloadTooLarge)
    else if |PutConfig(c)| > MAX_PAYLOAD_SIZE then Refused(PayloadTooLarge)
    else Payload(PutConfig(c))
  }

  ghost function DecodeConfig(bs: Bytes): Option<SystemConfig> {
    var r := ReadConfig(bs);
    if r.Some? && Acceptable(r.value) then r else None
  }

  /** Every snapshot that can be encoded decodes to itself, bit for bit. */
  lemma DecodeEncode(c: SystemConfig)
    requires EncodeConfig(c).Payload?
    ensures DecodeConfig(EncodeConfig(c).bytes) == Some(c)
  {
    ReadPutConfig(c);
  }

  /** Every payload that decodes is the encoding of what it decodes to, unless it is longer
      than a stored payload may be. */
  lemma EncodeDecode(bs: Bytes)
    requires DecodeConfig(bs).Some?
    ensures EncodeConfig(DecodeConfig(bs).value)
         == if |bs| <= MAX_PAYLOAD_SIZE then Payload(bs) else Refused(PayloadTooLarge)
  {
    ReadConfigSound(bs);
  }

  // ----- The encoder

  method WritePeriod(writer: Writer, period: Option<int>)
    modifies writer
    ensures forall tail {:trigger writer.data + tail} :: writer.data + tail == old(writer.data) + PutPeriod(period, tail)
  {
    var value := if period.Some? then period.value else -1;
    writer.Scalar(Unsigned32(value), 4);
  }

  method WriteMotion(writer: Writer, t: Trajectory)
    modifies writer
    ensures forall tail {:trigger writer.data + tail} :: writer.data + tail == old(writer.data) + PutMotion(t, tail)
  {
    hide Put;
    writer.Scalar(t.altitude, 4);
    writer.Scalar(t.speed, 4);
    writer.Scalar(t.heading, 4);
    writer.Scalar(t.primarySize, 4);
    writer.Scalar(t.secondarySize, 4);
    writer.Scalar(t.verticalSpeed, 4);
    writer.Scalar(t.cruiseTimeMs, 4);
  }

  method WriteKinds(writer: Writer, k: Kinds)
    modifies writer
    ensures forall tail {:trigger writer.data + tail} :: writer.data + tail == old(writer.data) + PutKinds(k, tail)
  {
    hide Put, PutMotion;
    writer.Scalar(k.count, 2);
    writer.Scalar(k.protocol, 1);
    writer.Scalar(k.transport, 1);
    writer.Scalar(k.wifiMode, 1);
    writer.Scalar(k.motion.kind, 1);
    WriteMotion(writer, k.motion);
  }

  method WriteWaypoints(writer: Writer, ps: seq<EnuPoint>)
    modifies writer
    ensures forall tail {:trigger writer.data + tail} :: writer.data + tail == old(writer.data) + PutWaypoints(ps, tail)
  {
    hide Put;
    ghost var start := writer.data;
    writer.Scalar(|ps|, 2);
    for i := 0 to |ps|
      invariant forall tail ::
        writer.data + PutMany(PutWaypoint, ps[i..], tail) == start + PutWaypoints(ps, tail)
    {
      writer.Scalar(ps[i].east, 4);
      writer.Scalar(ps[i].north, 4);
      writer.Scalar(ps[i].up, 4);
    }
    assert ps[|ps|..] == [];
    assert forall tail :: PutMany(PutWaypoint, ps[|ps|..], tail) == tail;
  }

  method WritePeriods(writer: Writer, first: Option<int>, overrides: PeriodOverrides)
    modifies writer
    ensures forall tail {:trigger writer.data + tail} ::
      writer.data + tail == old(writer.data) + PutPeriods(first, overrides, tail)
  {
    hide PutPeriod;
    ghost var start := writer.data;
    WritePeriod(writer, first);
    for k := 0 to MESSAGE_KINDS
      invariant forall tail ::
        writer.data + PutMany(PutPeriod, overrides[k..], tail) == start + PutPeriods(first, overrides, tail)
    {
      WritePeriod(writer, overrides[k]);
    }
    assert forall tail :: PutMany(PutPeriod, overrides[MESSAGE_KINDS..], tail) == tail;
  }

  method WriteName(writer: Writer, name: Bytes)
    modifies writer
    ensures forall tail {:trigger writer.data + tail} :: writer.data + tail == old(writer.data) + PutName(name, tail)
  {
    hide Put;
    writer.Scalar(|name|, 2);
    writer.Append(name);
  }

  method WriteGroup(writer: Writer, g: Group)
    modifies writer
    ensures forall tail {:trigger writer.data + tail} :: writer.data + tail == old(writer.data) + PutGroup(g, tail)
  {
    hide PutName, PutKinds, PutWaypoints, PutPeriods;
    WriteName(writer, g.name);
    WriteKinds(writer, KindsOf(g));
    WriteWaypoints(writer, g.trajectory.waypoints);
    WritePeriods(writer, g.defaultPeriod, g.overrides);
  }

  method WriteHead(writer: Writer, c: SystemConfig)
    modifies writer
    ensures forall tail {:trigger writer.data + tail} ::
      writer.data + tail == old(writer.data) + PutHead(c.site, c.defaultPeriod, |c.groups|, tail)
  {
    hide Put;
    writer.Scalar(if c.site.Some? then 1 else 0, 1);
    if c.site.Some? {
      writer.Scalar(c.site.value.latitude, 8);
      writer.Scalar(c.site.value.longitude, 8);
    }
    writer.Scalar(Unsigned32(c.defaultPeriod), 4);
    writer.Scalar(|c.groups|, 2);
  }

  method WriteGroups(writer: Writer, groups: seq<Group>) returns (fit: bool)
    modifies writer
    ensures fit == forall g :: g in groups ==> Storable(g)
    ensures fit ==> writer.data == old(writer.data) + PutMany(PutGroup, groups, [])
  {
    hide PutGroup;
    ghost var start := writer.data;
    for i := 0 to |groups|
      invariant forall g :: g in groups[..i] ==> Storable(g)
      invariant writer.data + PutMany(PutGroup, groups[i..], []) == start + PutMany(PutGroup, groups, [])
    {
      if |groups[i].name| > MAX_NAME_SIZE || |groups[i].trajectory.waypoints| > MAX_WAYPOINTS {
        assert groups[i] in groups && !Storable(groups[i]);
        return false;
      }
      WriteGroup(writer, groups[i]);
    }
    assert groups[..|groups|] == groups;
    assert writer.data + [] == writer.data;
    return true;
  }

  method Encode(c: SystemConfig) returns (r: EncodeResult)
    ensures r == EncodeConfig(c)
  {
    hide PutGroup, PutHead, PutMany, ValidGroup, FirstError;
    var error := Validate(c);
    AcceptsExactly(c);
    if error != NoError { return Refused(InvalidConfig); }
    FewGroups(c.groups);
    if |c.groups| > 0xFFFF { return Refused(PayloadTooLarge); }
    var writer := new Writer();
    WriteHead(writer, c);
    ghost var head, tail := writer.data, PutMany(PutGroup, c.groups, []);
    assert head + tail == [] + PutHead(c.site, c.defaultPeriod, |c.groups|, tail) == PutConfig(c);
    var fit := WriteGroups(writer, c.groups);
    if !fit || |writer.data| > MAX_PAYLOAD_SIZE { return Refused(PayloadTooLarge); }
    return Payload(writer.data);
  }

  // ----- The decoder

  method ScanPeriod(reader: Reader) returns (ok: bool, period: Option<int>)
    requires reader.Valid()
    modifies reader
    ensures reader.Valid()
    ensures ok == ReadPeriod(old(reader.Rest())).Some?
    ensures ok ==> (period, reader.Rest()) == ReadPeriod(old(reader.Rest())).value
  {
    var word;
    ok, word := reader.Scalar(4);
    if !ok { return false, None; }
    var value := Signed32(word);
    if value < -1 { return false, None; }
    period := if value == -1 then None else Some(value);
  }

  method ScanName(reader: Reader) returns (ok: bool, name: Bytes)
    requires reader.Valid()
    modifies reader
    ensures reader.Valid()
    ensures ok == ReadName(old(reader.Rest())).Some?
    ensures ok ==> (name, reader.Rest()) == ReadName(old(reader.Rest())).value
  {
    var size;
    ok, size := reader.Scalar(2);
    if !ok || size > MAX_NAME_SIZE { return false, []; }
    ok, name := reader.Text(size);
  }

  method ScanMotion(reader: Reader) returns (ok: bool, t: Trajectory)
    requires reader.Valid()
    modifies reader
    ensures reader.Valid()
    ensures ok == ReadMotion(old(reader.Rest())).Some?
    ensures ok ==> (t, reader.Rest()) == ReadMotion(old(reader.Rest())).value
  {
    hide Read;
    t := Trajectory(HOVER, 0, 0, 0, 0, 0, 0, 0, []);
    var altitude, speed, heading, primarySize, secondarySize, verticalSpeed, cruiseTimeMs;
    ok, altitude := reader.Scalar(4);
    if !ok { return; }
    ok, speed := reader.Scalar(4);
    if !ok { return; }
    ok, heading := reader.Scalar(4);
    if !ok { return; }
    ok, primarySize := reader.Scalar(4);
    if !ok { return; }
    ok, secondarySize := reader.Scalar(4);
    if !ok { return; }
    ok, verticalSpeed := reader.Scalar(4);
    if !ok { return; }
    ok, cruiseTimeMs := reader.Scalar(4);
    if !ok { return; }
    t := Trajectory(HOVER, altitude, speed, heading, primarySize, secondarySize, verticalSpeed, cruiseTimeMs, []);
  }

  method ScanKinds(reader: Reader) returns (ok: bool, k: Kinds)
    requires reader.Valid()
    modifies reader
    ensures reader.Valid()
    ensures ok == ReadKinds(old(reader.Rest())).Some?
    ensures ok ==> (k, reader.Rest()) == ReadKinds(old(reader.Rest())).value
  {
    hide Read, ReadMotion;
    var count, protocol, transport, wifiMode, kind, motion;
    k := Kinds(0, 0, 0, 0, Trajectory(HOVER, 0, 0, 0, 0, 0, 0, 0, []));
    ok, count := reader.Scalar(2);
    if !ok { return; }
    ok, protocol := reader.Scalar(1);
    if !ok { return; }
    ok, transport := reader.Scalar(1);
    if !ok { return; }
    ok, wifiMode := reader.Scalar(1);
    if !ok { return; }
    ok, kind := reader.Scalar(1);
    if !ok { return; }
    ok, motion := ScanMotion(reader);
    if !ok { return; }
    k := Kinds(count, protocol, transport, wifiMode, motion.(kind := kind));
  }

  method ScanWaypoint(reader: Reader) returns (ok: bool, p: EnuPoint)
    requires reader.Valid()
    modifies reader
    ensures reader.Valid()
    ensures ok == ReadWaypoint(old(reader.Rest())).Some?
    ensures ok ==> (p, reader.Rest()) == ReadWaypoint(old(reader.Rest())).value
  {
    p := EnuPoint(0, 0, 0);
    var east, north, up;
    ok, east := reader.Scalar(4);
    if !ok { return; }
    ok, north := reader.Scalar(4);
    if !ok { return; }
    ok, up := reader.Scalar(4);
    if !ok { return; }
    p := EnuPoint(east, north, up);
  }

  /** What is left of a repetition once `done` items have been read and `rest` remains. */
  ghost function Resume<T>(read: Getter<T>, done: seq<T>, rest: Bytes, n: nat): Option<(seq<T>, Bytes)> {
    var r := ReadMany(read, rest, n);
    if r.None? then None else Some((done + r.value.0, r.value.1))
  }

  lemma ResumeStart<T>(read: Getter<T>, rest: Bytes, n: nat)
    ensures Resume(read, [], rest, n) == ReadMany(read, rest, n)
  {
    var r := ReadMany(read, rest, n);
    assert r.Some? ==> [] + r.value.0 == r.value.0;
  }

  lemma ResumeEnd<T>(read: Getter<T>, done: seq<T>, rest: Bytes)
    ensures Resume(read, done, rest, 0) == Some((done, rest))
  {
    assert done + [] == done;
  }

  lemma ResumeStep<T>(read: Getter<T>, done: seq<T>, rest: Bytes, n: nat)
    requires n > 0
    ensures read(rest).None? ==> Resume(read, done, rest, n) == None
    ensures read(rest).Some? ==>
      Resume(read, done, rest, n) == Resume(read, done + [read(rest).value.0], read(rest).value.1, n - 1)
  {
    if read(rest).Some? {
      var (first, more) := read(rest).value;
      var r := ReadMany(read, more, n - 1);
      if r.Some? {
        assert done + ([first] + r.value.0) == (done + [first]) + r.value.0;
      }
    }
  }

  method ScanWaypoints(reader: Reader) returns (ok: bool, ps: seq<EnuPoint>)
    requires reader.Valid()
    modifies reader
    ensures reader.Valid()
    ensures ok == ReadWaypoints(old(reader.Rest())).Some?
    ensures ok ==> (ps, reader.Rest()) == ReadWaypoints(old(reader.Rest())).value
  {
    hide ReadWaypoint;
    ps := [];
    var n;
    ok, n := reader.Scalar(2);
    if !ok || n > MAX_WAYPOINTS { return false, []; }
    ghost var whole := ReadMany(ReadWaypoint, reader.Rest(), n);
    ResumeStart(ReadWaypoint, reader.Rest(), n);
    for i := 0 to n
      invariant reader.Valid()
      invariant whole == Resume(ReadWaypoint, ps, reader.Rest(), n - i)
    {
      ResumeStep(ReadWaypoint, ps, reader.Rest(), n - i);
      var p;
      ok, p := ScanWaypoint(reader);
      if !ok { return; }
      ps := ps + [p];
    }
    ResumeEnd(ReadWaypoint, ps, reader.Rest());
    return true, ps;
  }

  method ScanPeriods(reader: Reader) returns (ok: bool, first: Option<int>, overrides: PeriodOverrides)
    requires reader.Valid()
    modifies reader
    ensures reader.Valid()
    ensures ok == ReadPeriods(old(reader.Rest())).Some?
    ensures ok ==> ((first, overrides), reader.Rest()) == ReadPeriods(old(reader.Rest())).value
  {
    hide ReadPeriod;
    first, overrides := None, [None, None, None, None, None, None];
    ok, first := ScanPeriod(reader);
    if !ok { return; }
    ghost var whole := ReadMany(ReadPeriod, reader.Rest(), MESSAGE_KINDS);
    ResumeStart(ReadPeriod, reader.Rest(), MESSAGE_KINDS);
    var ps: seq<Option<int>> := [];
    for k := 0 to MESSAGE_KINDS
      invariant reader.Valid() && |ps| == k
      invariant whole == Resume(ReadPeriod, ps, reader.Rest(), MESSAGE_KINDS - k)
    {
      ResumeStep(ReadPeriod, ps, reader.Rest(), MESSAGE_KINDS - k);
      var p;
      ok, p := ScanPeriod(reader);
      if !ok { return; }
      ps := ps + [p];
    }
    ResumeEnd(ReadPeriod, ps, reader.Rest());
    return true, first, ps;
  }

  method ScanGroup(reader: Reader) returns (ok: bool, g: Group)
    requires reader.Valid()
    modifies reader
    ensures reader.Valid()
    ensures ok == ReadGroup(old(reader.Rest())).Some?
    ensures ok ==> (g, reader.Rest()) == ReadGroup(old(reader.Rest())).value
  {
    hide ReadName, ReadKinds, ReadWaypoints, ReadPeriods;
    var name, k, waypoints, first, overrides;
    g := Group([], 0, 0, 0, 0, Trajectory(HOVER, 0, 0, 0, 0, 0, 0, 0, []), None, [None, None, None, None, None, None]);
    ok, name := ScanName(reader);
    if !ok { return; }
    ok, k := ScanKinds(reader);
    if !ok { return; }
    ok, waypoints := ScanWaypoints(reader);
    if !ok { return; }
    ok, first, overrides := ScanPeriods(reader);
    if !ok { return; }
    g := MakeGroup(name, k, waypoints, (first, overrides));
  }

  method ScanHead(reader: Reader) returns (ok: bool, h: Head)
    requires reader.Valid()
    modifies reader
    ensures reader.Valid()
    ensures ok == ReadHead(old(reader.Rest())).Some?
    ensures ok ==> (h, reader.Rest()) == ReadHead(old(reader.Rest())).value
  {
    hide Read;
    h := Head(None, 0, 0);
    var hasSite, latitude, longitude, defaultPeriod, groups;
    ok, hasSite := reader.Scalar(1);
    if !ok || hasSite > 1 { return false, h; }
    var site := None;
    if hasSite != 0 {
      ok, latitude := reader.Scalar(8);
      if !ok { return; }
      ok, longitude := reader.Scalar(8);
      if !ok { return; }
      site := Some(GeoPoint(latitude, longitude));
    }
    ok, defaultPeriod := reader.Scalar(4);
    if !ok { return; }
    ok, groups := reader.Scalar(2);
    if !ok || groups > MAX_AIRCRAFT { return false, h; }
    h := Head(site, Signed32(defaultPeriod), groups);
  }

  method ScanGroups(reader: Reader, n: nat) returns (ok: bool, groups: seq<Group>)
    requires reader.Valid()
    modifies reader
    ensures reader.Valid()
    ensures ok == ReadMany(ReadGroup, old(reader.Rest()), n).Some?
    ensures ok ==> (groups, reader.Rest()) == ReadMany(ReadGroup, old(reader.Rest()), n).value
  {
    hide ReadGroup;
    groups := [];
    ghost var whole := ReadMany(ReadGroup, reader.Rest(), n);
    ResumeStart(ReadGroup, reader.Rest(), n);
    for i := 0 to n
      invariant reader.Valid()
      invariant whole == Resume(ReadGroup, groups, reader.Rest(), n - i)
    {
      ResumeStep(ReadGroup, groups, reader.Rest(), n - i);
      var g;
      ok, g := ScanGroup(reader);
      if !ok { return; }
      groups := groups + [g];
    }
    ResumeEnd(ReadGroup, groups, reader.Rest());
    return true, groups;
  }

  /** The decoded snapshot, or nothing where the payload is corrupt. */
  method Decode(payload: Bytes) returns (r: Option<SystemConfig>)
    ensures r == DecodeConfig(payload)
  {
    hide ReadHead, ReadGroup, ReadMany, Acceptable, FirstError;
    var reader := new Reader(payload);
    var ok, head := ScanHead(reader);
    if !ok { return None; }
    var groups;
    ok, groups := ScanGroups(reader, head.groups);
    if !ok { return None; }
    var c := SystemConfig(head.site, head.defaultPeriod, groups);
    var done := reader.Done();
    if !done { return None; }
    var error := Validate(c);
    AcceptsExactly(c);
    return if error == NoError then Some(c) else None;
  }
}
