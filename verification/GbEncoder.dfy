/** GB 46750 payloads: a three-byte head, a presence bitmap of extension-chained identifier bytes, and the
    present items back to back. Physical quantities are real numbers here. */
module GbEncoder {
  import opened Wrappers
  import opened Words

  const DATA_TYPE: Byte := 0xFF
  const VERSION: Byte := 0x20
  const ITEMS: nat := 21

  // ----- Numbers on the wire

  /** Rounding to the nearest integer, halves away from zero. */
  function Round(x: real): int {
    if x >= 0.0 then (x + 0.5).Floor else -((-x + 0.5).Floor)
  }

  lemma RoundIsNear(x: real)
    ensures -0.5 <= Round(x) as real - x <= 0.5
  {
  }

  lemma RoundWithin(x: real, low: int, high: int)
    requires low as real <= x <= high as real
    ensures low <= Round(x) <= high
  {
    RoundIsNear(x);
  }

  // ----- What is encoded

  datatype GeoPoint = GeoPoint(latitude: real, longitude: real)

  datatype FlightState = FlightState(
    position: GeoPoint, altitude: real, height: real, horizontalSpeed: real, verticalSpeed: real,
    heading: real, airborne: bool)

  datatype GbOptions = GbOptions(
    registrationMark: Bytes, operationCategory: Byte, uaClassification: Byte, gcsPositionType: Byte,
    gcsPosition: Option<GeoPoint>, gcsAltitude: Option<real>, barometricAltitude: Option<real>,
    horizontalAccuracy: Byte, verticalAccuracy: Byte, speedAccuracy: Byte, timestamp: Word64, timestampAccuracy: Byte)

  datatype MessageKind = BasicId | Location | Authentication | SelfId | System | OperatorId

  datatype GbError = InvalidIdentity | InvalidFlightState | InvalidOptions | UnsupportedMessage

  datatype GbResult = Encoded(bytes: Bytes) | Refused(error: GbError)

  predicate ValidPoint(p: GeoPoint) {
    -90.0 <= p.latitude <= 90.0 && -180.0 <= p.longitude <= 180.0
  }

  predicate ValidState(s: FlightState) {
    ValidPoint(s.position) && s.horizontalSpeed >= 0.0 && 0.0 <= s.heading < 360.0
  }

  predicate ValidAltitude(a: real) {
    -1000.0 < a <= 31767.5
  }

  function InputError(s: FlightState, identity: Bytes, o: GbOptions): Option<GbError> {
    if |identity| != 20 then Some(InvalidIdentity)
    else if !ValidState(s) then Some(InvalidFlightState)
    else if |o.registrationMark| > 8 || (o.gcsPosition.Some? && !ValidPoint(o.gcsPosition.value))
         || (o.gcsAltitude.Some? && !ValidAltitude(o.gcsAltitude.value))
         || (o.barometricAltitude.Some? && !ValidAltitude(o.barometricAltitude.value))
         || o.timestamp > 0xFFFF_FFFF_FFFF then Some(InvalidOptions)
    else None
  }

  predicate ValidLocation(s: FlightState, barometric: real) {
    && ValidAltitude(s.altitude) && -9000.0 < s.height <= 23767.5 && s.horizontalSpeed <= 6553.4
    && -63.0 <= s.verticalSpeed <= 63.5 && ValidAltitude(barometric)
  }

  // ----- Scaled fields, and how a receiver reads them

  function CoordinateWord(degrees: real): Word32 {
    Unsigned32(Round(degrees * 10000000.0))
  }

  function CoordinateOf(word: Word32): real {
    Signed32(word) as real / 10000000.0
  }

  lemma CoordinateRecovered(degrees: real)
    requires -180.0 <= degrees <= 180.0
    ensures -0.00000005 <= CoordinateOf(CoordinateWord(degrees)) - degrees <= 0.00000005
  {
    RoundIsNear(degrees * 10000000.0);
    RoundWithin(degrees * 10000000.0, -1800000000, 1800000000);
  }

  function AltitudeWord(a: real): int { Round((a + 1000.0) * 2.0) }
  function AltitudeOf(word: int): real { word as real / 2.0 - 1000.0 }

  lemma AltitudeRecovered(a: real)
    requires ValidAltitude(a)
    ensures 0 <= AltitudeWord(a) < 0x1_0000 && -0.25 <= AltitudeOf(AltitudeWord(a)) - a <= 0.25
  {
    RoundIsNear((a + 1000.0) * 2.0);
    RoundWithin((a + 1000.0) * 2.0, 0, 65535);
  }

  /** The receiver's "unknown" altitude, raw zero, is sent exactly for altitudes within a quarter metre of the open
      lower bound. */
  lemma UnknownAltitudeIsSent(a: real)
    requires ValidAltitude(a)
    ensures AltitudeWord(a) == 0 <==> a < -999.75
  {
  }

  /** The receiver's "unknown" coordinate, 0xFFFFFFFF, is sent exactly for coordinates that round to -1 unit. */
  lemma UnknownCoordinateIsSent(degrees: real)
    requires -180.0 <= degrees <= 180.0
    ensures CoordinateWord(degrees) == 0xFFFF_FFFF <==> -0.00000015 < degrees <= -0.00000005
  {
    RoundWithin(degrees * 10000000.0, -1800000000, 1800000000);
  }

  function HeightWord(a: real): int { Round((a + 9000.0) * 2.0) }
  function HeightOf(word: int): real { word as real / 2.0 - 9000.0 }

  lemma HeightRecovered(a: real)
    requires -9000.0 < a <= 23767.5
    ensures 0 <= HeightWord(a) < 0x1_0000 && -0.25 <= HeightOf(HeightWord(a)) - a <= 0.25
  {
    RoundIsNear((a + 9000.0) * 2.0);
    RoundWithin((a + 9000.0) * 2.0, 0, 65535);
  }

  /** The same for the unknown height. */
  lemma UnknownHeightIsSent(a: real)
    requires -9000.0 < a <= 23767.5
    ensures HeightWord(a) == 0 <==> a < -8999.75
  {
  }

  function TenthsWord(x: real): int { Round(x * 10.0) }
  function TenthsOf(word: int): real { word as real / 10.0 }

  /** A ground speed never encodes as the invalid value 0xFFFF. */
  lemma SpeedRecovered(v: real)
    requires 0.0 <= v <= 6553.4
    ensures 0 <= TenthsWord(v) < 0xFFFF && -0.05 <= TenthsOf(TenthsWord(v)) - v <= 0.05
  {
    RoundIsNear(v * 10.0);
    RoundWithin(v * 10.0, 0, 65534);
  }

  lemma HeadingRecovered(h: real)
    requires 0.0 <= h < 360.0
    ensures 0 <= TenthsWord(h) <= 3600 && -0.05 <= TenthsOf(TenthsWord(h)) - h <= 0.05
  {
    RoundIsNear(h * 10.0);
    RoundWithin(h * 10.0, 0, 3600);
  }

  /** Bit 7 is the sign, the other bits the magnitude in halves. */
  function VerticalByte(v: real): int {
    var magnitude := Round((if v < 0.0 then -v else v) * 2.0);
    if v < 0.0 && magnitude < 0x80 then magnitude + 0x80 else magnitude
  }

  function VerticalOf(b: int): real {
    if b >= 0x80 then -((b - 0x80) as real / 2.0) else b as real / 2.0
  }

  /** A vertical speed never encodes as the invalid value 0xFF, and its sign survives. */
  lemma VerticalRecovered(v: real)
    requires -63.0 <= v <= 63.5
    ensures 0 <= VerticalByte(v) < 0xFF && -0.25 <= VerticalOf(VerticalByte(v)) - v <= 0.25
    ensures VerticalByte(v) >= 0x80 <==> v < 0.0
  {
    if v < 0.0 {
      RoundIsNear(-v * 2.0);
      RoundWithin(-v * 2.0, 0, 126);
    } else {
      RoundIsNear(v * 2.0);
      RoundWithin(v * 2.0, 0, 127);
    }
  }

  // ----- Items

  /** The width in bytes of data items 001 to 021. */
  const WIDTHS: seq<nat> := [20, 8, 1, 1, 1, 8, 2, 8, 2, 2, 2, 1, 2, 2, 1, 1, 1, 1, 1, 6, 1]

  function Width(item: nat): nat {
    if 1 <= item <= ITEMS then WIDTHS[item - 1] else 0
  }

  function CoordinateItem(p: GeoPoint): Bytes {
    Le(CoordinateWord(p.longitude), 4) + Le(CoordinateWord(p.latitude), 4)
  }

  function Word16Item(value: int): Bytes {
    Le(value % 0x1_0000, 2)
  }

  function Zeros(n: nat): Bytes {
    if n == 0 then [] else Zeros(n - 1) + [0]
  }

  function TextItem(text: Bytes, size: nat): Bytes
    requires |text| <= size
  {
    text + Zeros(size - |text|)
  }

  function Or<T>(o: Option<T>, default: T): T {
    if o.Some? then o.value else default
  }

  function SystemItems(s: FlightState, o: GbOptions): seq<Bytes> {
    [[o.operationCategory], [o.uaClassification], [o.gcsPositionType],
     CoordinateItem(Or(o.gcsPosition, s.position)), Word16Item(AltitudeWord(Or(o.gcsAltitude, s.altitude)))]
  }

  function MotionItems(s: FlightState, barometric: real): seq<Bytes> {
    [CoordinateItem(s.position), Word16Item(TenthsWord(s.heading)), Word16Item(TenthsWord(s.horizontalSpeed)),
     Word16Item(HeightWord(s.height)), [VerticalByte(s.verticalSpeed) % 0x100], Word16Item(AltitudeWord(s.altitude)),
     Word16Item(AltitudeWord(barometric))]
  }

  function StatusItems(s: FlightState, o: GbOptions): seq<Bytes> {
    [[if s.airborne then 1 else 0], [0], [o.horizontalAccuracy], [o.verticalAccuracy], [o.speedAccuracy],
     Le(o.timestamp, 6), [o.timestampAccuracy]]
  }

  function Concat(items: seq<Bytes>): Bytes {
    if items == [] then [] else Concat(items[..|items| - 1]) + items[|items| - 1]
  }

  lemma ConcatPush(items: seq<Bytes>, item: Bytes)
    ensures Concat(items + [item]) == Concat(items) + item
  {
    assert (items + [item])[..|items|] == items;
  }

  function Framed(identifiers: Bytes, content: Bytes): Bytes {
    [DATA_TYPE, VERSION, |content| % 0x100] + identifiers + content
  }

  const BASIC_ID_IDENTIFIERS: Bytes := [0x80]
  const OPERATOR_ID_IDENTIFIERS: Bytes := [0x40]
  const SYSTEM_IDENTIFIERS: Bytes := [0x3E]
  const LOCATION_IDENTIFIERS: Bytes := [0x01, 0xFF, 0xFE]

  function GbEncoded(kind: MessageKind, s: FlightState, identity: Bytes, o: GbOptions): GbResult {
    var error := InputError(s, identity, o);
    if error.Some? then Refused(error.value)
    else
      match kind
      case BasicId => Encoded(Framed(BASIC_ID_IDENTIFIERS, Concat([identity])))
      case Location =>
        var barometric := Or(o.barometricAltitude, s.altitude);
        if !ValidLocation(s, barometric) then Refused(InvalidFlightState)
        else Encoded(Framed(LOCATION_IDENTIFIERS, Concat(MotionItems(s, barometric) + StatusItems(s, o))))
      case System =>
        if !ValidAltitude(Or(o.gcsAltitude, s.altitude)) then Refused(InvalidOptions)
        else Encoded(Framed(SYSTEM_IDENTIFIERS, Concat(SystemItems(s, o))))
      case OperatorId => Encoded(Framed(OPERATOR_ID_IDENTIFIERS, Concat([TextItem(o.registrationMark, 8)])))
      case Authentication | SelfId => Refused(UnsupportedMessage)
  }

  // ----- The encoder

  class ByteVector {
    var data: Bytes
    ghost var items: seq<Bytes>

    ghost predicate Valid()
      reads this
    {
      data == Concat(items)
    }

    constructor ()
      ensures Valid() && items == []
    {
      data, items := [], [];
    }

    method PushBack(b: Byte)
      requires Valid()
      modifies this
      ensures Valid() && items == old(items) + [[b]]
    {
      ConcatPush(items, [b]);
      data := data + [b];
      items := items + [[b]];
    }

    method PutU16(value: int)
      requires Valid()
      modifies this
      ensures Valid() && items == old(items) + [Word16Item(value)]
    {
      var word := value % 0x1_0000;
      assert Le(word, 2) == [word % 256, word / 256 % 256] by { LeTwo(word); }
      ConcatPush(items, Word16Item(value));
      assert data + [word % 256] + [word / 256 % 256] == data + Word16Item(value);
      data := data + [word % 256];
      data := data + [word / 256 % 256];
      items := items + [Word16Item(value)];
    }

    /** A coordinate is two signed 32-bit words, longitude first. */
    method PutCoordinate(p: GeoPoint)
      requires Valid()
      modifies this
      ensures Valid() && items == old(items) + [CoordinateItem(p)]
    {
      hide Le, Concat, CoordinateWord;
      ghost var before, east, north := data, Le(CoordinateWord(p.longitude), 4), Le(CoordinateWord(p.latitude), 4);
      PutI32(CoordinateWord(p.longitude));
      PutI32(CoordinateWord(p.latitude));
      ConcatPush(items, CoordinateItem(p));
      assert (before + east) + north == before + (east + north);
      items := items + [CoordinateItem(p)];
    }

    method PutI32(bits: Word32)
      modifies this`data
      ensures data == old(data) + Le(bits, 4)
    {
      LeFour(bits);
      assert data + [bits % 256] + [bits / 0x100 % 256] + [bits / 0x1_0000 % 256] + [bits / 0x100_0000 % 256] ==
          data + Le(bits, 4);
      data := data + [bits % 256];
      data := data + [bits / 0x100 % 256];
      data := data + [bits / 0x1_0000 % 256];
      data := data + [bits / 0x100_0000 % 256];
    }

    method PutU48(value: Word64)
      requires Valid()
      modifies this
      ensures Valid() && items == old(items) + [Le(value, 6)]
    {
      ghost var before := data;
      for index := 0 to 6
        invariant data == before + Le(value, 6)[..index] && items == old(items)
      {
        LeAt(value, 6, index);
        data := data + [value / Pow256(index) % 256];
      }
      assert Le(value, 6)[..6] == Le(value, 6);
      ConcatPush(items, Le(value, 6));
      items := items + [Le(value, 6)];
    }

    method PutFixedText(text: Bytes, size: nat)
      requires Valid() && |text| <= size
      modifies this
      ensures Valid() && items == old(items) + [TextItem(text, size)]
    {
      ghost var before := data;
      data := data + text;
      for k := 0 to size - |text|
        invariant data == before + (text + Zeros(k)) && items == old(items)
      {
        data := data + [0];
      }
      ConcatPush(items, TextItem(text, size));
      items := items + [TextItem(text, size)];
    }
  }

  lemma LeTwo(word: Word16)
    ensures Le(word, 2) == [word % 256, word / 256 % 256]
  {
    assert Le(word, 2) == [word % 256] + Le(word / 256, 1);
    assert Le(word / 256, 1) == [word / 256 % 256] + Le(word / 256 / 256, 0);
  }

  lemma LeFour(bits: Word32)
    ensures Le(bits, 4) == [bits % 256, bits / 0x100 % 256, bits / 0x1_0000 % 256, bits / 0x100_0000 % 256]
  {
    LeAt(bits, 4, 0);
    LeAt(bits, 4, 1);
    LeAt(bits, 4, 2);
    LeAt(bits, 4, 3);
    assert Pow256(1) == 0x100 && Pow256(2) == 0x1_0000 && Pow256(3) == 0x100_0000;
  }

  method EncodeSystem(s: FlightState, o: GbOptions) returns (r: GbResult)
    ensures r == if !ValidAltitude(Or(o.gcsAltitude, s.altitude)) then Refused(InvalidOptions)
      else Encoded(Framed(SYSTEM_IDENTIFIERS, Concat(SystemItems(s, o))))
  {
    var position, altitude := Or(o.gcsPosition, s.position), Or(o.gcsAltitude, s.altitude);
    if !ValidAltitude(altitude) { return Refused(InvalidOptions); }
    var content := new ByteVector();
    content.PushBack(o.operationCategory);
    content.PushBack(o.uaClassification);
    content.PushBack(o.gcsPositionType);
    content.PutCoordinate(position);
    content.PutU16(AltitudeWord(altitude));
    assert content.items == SystemItems(s, o);
    return Encoded(Framed(SYSTEM_IDENTIFIERS, content.data));
  }

  method PutMotion(content: ByteVector, s: FlightState, barometric: real)
    requires content.Valid()
    modifies content
    ensures content.Valid() && content.items == old(content.items) + MotionItems(s, barometric)
  {
    hide Concat, CoordinateItem, Word16Item, VerticalByte, TenthsWord, HeightWord, AltitudeWord;
    content.PutCoordinate(s.position);
    content.PutU16(TenthsWord(s.heading));
    content.PutU16(TenthsWord(s.horizontalSpeed));
    content.PutU16(HeightWord(s.height));
    content.PushBack(VerticalByte(s.verticalSpeed) % 0x100);
    content.PutU16(AltitudeWord(s.altitude));
    content.PutU16(AltitudeWord(barometric));
  }

  method PutStatus(content: ByteVector, s: FlightState, o: GbOptions)
    requires content.Valid()
    modifies content
    ensures content.Valid() && content.items == old(content.items) + StatusItems(s, o)
  {
    hide Concat, Le;
    content.PushBack(if s.airborne then 1 else 0);
    content.PushBack(0);
    content.PushBack(o.horizontalAccuracy);
    content.PushBack(o.verticalAccuracy);
    content.PushBack(o.speedAccuracy);
    content.PutU48(o.timestamp);
    content.PushBack(o.timestampAccuracy);
  }

  method EncodeLocation(s: FlightState, o: GbOptions) returns (r: GbResult)
    ensures var barometric := Or(o.barometricAltitude, s.altitude);
      r == if !ValidLocation(s, barometric) then Refused(InvalidFlightState)
           else Encoded(Framed(LOCATION_IDENTIFIERS, Concat(MotionItems(s, barometric) + StatusItems(s, o))))
  {
    hide Concat, MotionItems, StatusItems, Framed, ValidLocation;
    var barometric := Or(o.barometricAltitude, s.altitude);
    if !ValidLocation(s, barometric) { return Refused(InvalidFlightState); }
    var content := new ByteVector();
    PutMotion(content, s, barometric);
    PutStatus(content, s, o);
    assert content.items == MotionItems(s, barometric) + StatusItems(s, o);
    return Encoded(Framed(LOCATION_IDENTIFIERS, content.data));
  }

  method Encode(kind: MessageKind, s: FlightState, identity: Bytes, o: GbOptions) returns (r: GbResult)
    ensures r == GbEncoded(kind, s, identity, o)
  {
    hide Concat, MotionItems, StatusItems, SystemItems, TextItem, Framed, ValidLocation;
    var error := InputError(s, identity, o);
    if error.Some? { return Refused(error.value); }
    match kind {
      case BasicId =>
        var content := new ByteVector();
        content.PutFixedText(identity, 20);
        FullText(identity);
        assert content.items == [identity];
        return Encoded(Framed(BASIC_ID_IDENTIFIERS, content.data));
      case Location => r := EncodeLocation(s, o);
      case System => r := EncodeSystem(s, o);
      case OperatorId =>
        var content := new ByteVector();
        content.PutFixedText(o.registrationMark, 8);
        assert content.items == [TextItem(o.registrationMark, 8)];
        return Encoded(Framed(OPERATOR_ID_IDENTIFIERS, content.data));
      case Authentication => return Refused(UnsupportedMessage);
      case SelfId => return Refused(UnsupportedMessage);
    }
  }

  lemma FullText(text: Bytes)
    ensures TextItem(text, |text|) == text
  {
  }
}
