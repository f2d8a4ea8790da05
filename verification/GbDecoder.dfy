/** A receiver of GB 46750 payloads that knows only the widths of the data items: which items are present, and
    where they stand, it learns from the payload. */
module GbDecoder {
  import opened Wrappers
  import opened Words
  import opened GbEncoder

  datatype Item = Item(number: nat, bytes: Bytes)

  /** The identifier bytes: each says in bit 0 whether another one follows. */
  function Identifiers(bs: Bytes): Option<(Bytes, Bytes)>
    decreases |bs|
  {
    if bs == [] then None
    else if bs[0] % 2 == 0 then Some((bs[..1], bs[1..]))
    else
      var (more, rest) :- Identifiers(bs[1..]);
      Some((bs[..1] + more, rest))
  }

  function IfBit(b: Byte, weight: nat, number: nat): seq<nat>
    requires weight > 0
  {
    if b / weight % 2 == 1 then [number] else []
  }

  /** Bits 7 to 1 of an identifier byte stand for seven consecutive items. */
  function Listed(b: Byte, base: nat): seq<nat> {
    IfBit(b, 128, base + 1) + IfBit(b, 64, base + 2) + IfBit(b, 32, base + 3) + IfBit(b, 16, base + 4) +
    IfBit(b, 8, base + 5) + IfBit(b, 4, base + 6) + IfBit(b, 2, base + 7)
  }

  function Present(identifiers: Bytes, base: nat): seq<nat> {
    if identifiers == [] then [] else Listed(identifiers[0], base) + Present(identifiers[1..], base + 7)
  }

  /** The content cut into the present items; nothing may be missing or left over. */
  function Cut(numbers: seq<nat>, content: Bytes): Option<seq<Item>> {
    if numbers == [] then if content == [] then Some([]) else None
    else
      var w := Width(numbers[0]);
      if w == 0 || |content| < w then None
      else
        var rest :- Cut(numbers[1..], content[w..]);
        Some([Item(numbers[0], content[..w])] + rest)
  }

  function Decoded(payload: Bytes): Option<seq<Item>> {
    if |payload| < 3 || payload[0] != DATA_TYPE || payload[1] != VERSION then None
    else
      var (identifiers, content) :- Identifiers(payload[3..]);
      if payload[2] as nat != |content| then None else Cut(Present(identifiers, 0), content)
  }

  function WidthSum(numbers: seq<nat>): nat {
    if numbers == [] then 0 else Width(numbers[0]) + WidthSum(numbers[1..])
  }

  // ----- Every payload describes itself

  /** Items with the numbers they were encoded under. */
  function Numbered(numbers: seq<nat>, items: seq<Bytes>): seq<Item>
    requires |numbers| == |items|
  {
    if numbers == [] then [] else [Item(numbers[0], items[0])] + Numbered(numbers[1..], items[1..])
  }

  ghost predicate Fitting(numbers: seq<nat>, items: seq<Bytes>) {
    |numbers| == |items| && forall k :: 0 <= k < |items| ==> |items[k]| == Width(numbers[k]) > 0
  }

  lemma {:induction false} ConcatFront(item: Bytes, items: seq<Bytes>)
    ensures Concat([item] + items) == item + Concat(items)
    decreases |items|
  {
    if items == [] {
      assert [item] + items == [item];
      assert [item][..0] == [];
      assert Concat([item]) == Concat([]) + item;
    } else {
      var front, last := items[..|items| - 1], items[|items| - 1];
      ConcatFront(item, front);
      assert ([item] + items)[..|items|] == [item] + front;
      assert (item + Concat(front)) + last == item + (Concat(front) + last);
    }
  }

  lemma {:induction false} CutConcat(numbers: seq<nat>, items: seq<Bytes>)
    requires Fitting(numbers, items)
    ensures Cut(numbers, Concat(items)) == Some(Numbered(numbers, items))
    ensures |Concat(items)| == WidthSum(numbers)
    decreases |items|
  {
    if items == [] {
    } else {
      CutConcat(numbers[1..], items[1..]);
      ConcatFront(items[0], items[1..]);
      assert [items[0]] + items[1..] == items;
      assert Concat(items)[Width(numbers[0])..] == Concat(items[1..]);
    }
  }

  lemma FramedDecodes(identifiers: Bytes, numbers: seq<nat>, items: seq<Bytes>)
    requires Identifiers(identifiers + Concat(items)) == Some((identifiers, Concat(items)))
    requires Present(identifiers, 0) == numbers && Fitting(numbers, items) && WidthSum(numbers) < 256
    ensures var payload := Framed(identifiers, Concat(items));
      && Decoded(payload) == Some(Numbered(numbers, items))
      && |payload| > 2 && payload[2] as nat == WidthSum(numbers) == |Concat(items)|
  {
    hide Cut, Identifiers, Present, Concat, WidthSum, Width, Numbered, Fitting;
    CutConcat(numbers, items);
    var payload := Framed(identifiers, Concat(items));
    assert payload[3..] == identifiers + Concat(items);
  }

  const LOCATION_ITEMS: seq<nat> := [8, 9, 10, 11, 12, 13, 14, 15, 16, 17, 18, 19, 20, 21]
  const SYSTEM_ITEMS: seq<nat> := [3, 4, 5, 6, 7]

  lemma SingleIdentifier(b: Byte, content: Bytes)
    requires b % 2 == 0
    ensures Identifiers([b] + content) == Some(([b], content))
    ensures Present([b], 0) == Listed(b, 0)
  {
    assert [b][1..] == [];
    assert Listed(b, 0) + [] == Listed(b, 0);
    assert ([b] + content)[..1] == [b] && ([b] + content)[1..] == content;
  }

  lemma ChainStep(b: Byte, more: Bytes, content: Bytes)
    requires b % 2 == 1 && Identifiers(more + content) == Some((more, content))
    ensures Identifiers([b] + more + content) == Some(([b] + more, content))
  {
    var bs := [b] + more + content;
    assert bs[1..] == more + content && bs[..1] == [b];
  }

  lemma PresentStep(b: Byte, more: Bytes, base: nat)
    ensures Present([b] + more, base) == Listed(b, base) + Present(more, base + 7)
  {
    assert ([b] + more)[1..] == more;
  }

  lemma LocationIdentifiers(content: Bytes)
    ensures Identifiers(LOCATION_IDENTIFIERS + content) == Some((LOCATION_IDENTIFIERS, content))
    ensures Present(LOCATION_IDENTIFIERS, 0) == LOCATION_ITEMS
  {
    hide Identifiers, Present, Listed;
    SingleIdentifier(0xFE, content);
    ChainStep(0xFF, [0xFE], content);
    ChainStep(0x01, [0xFF] + [0xFE], content);
    assert [0x01] + ([0xFF] + [0xFE]) == LOCATION_IDENTIFIERS;
    ListedLocation();
    PresentStep(0xFE, [], 14);
    PresentStep(0xFF, [0xFE], 7);
    PresentStep(0x01, [0xFF] + [0xFE], 0);
    assert [0xFE] + [] == [0xFE];
    assert Present([], 21) == [] by { NoneListed(21); }
  }

  lemma NoneListed(base: nat)
    ensures Present([], base) == []
  {
  }

  lemma ListedLocation()
    ensures Listed(0x01, 0) == []
    ensures Listed(0xFF, 7) == [8, 9, 10, 11, 12, 13, 14]
    ensures Listed(0xFE, 14) == [15, 16, 17, 18, 19, 20, 21]
  {
  }

  /** The numbers and the bytes of the items a message kind is made of. */
  function ItemNumbers(kind: MessageKind): seq<nat> {
    match kind
    case BasicId => [1]
    case OperatorId => [2]
    case System => SYSTEM_ITEMS
    case Location => LOCATION_ITEMS
    case Authentication | SelfId => []
  }

  function ItemBytes(kind: MessageKind, s: FlightState, identity: Bytes, o: GbOptions): seq<Bytes>
    requires |o.registrationMark| <= 8
  {
    match kind
    case BasicId => [identity]
    case OperatorId => [TextItem(o.registrationMark, 8)]
    case System => SystemItems(s, o)
    case Location => MotionItems(s, Or(o.barometricAltitude, s.altitude)) + StatusItems(s, o)
    case Authentication | SelfId => []
  }

  lemma SystemFits(s: FlightState, o: GbOptions)
    ensures Fitting(SYSTEM_ITEMS, SystemItems(s, o))
  {
    hide Le, CoordinateWord, AltitudeWord, Width;
    WidthTable();
  }

  lemma LocationFits(s: FlightState, barometric: real, o: GbOptions)
    ensures Fitting(LOCATION_ITEMS, MotionItems(s, barometric) + StatusItems(s, o))
  {
    hide Le, CoordinateWord, AltitudeWord, HeightWord, TenthsWord, VerticalByte, Width;
    WidthTable();
  }

  lemma TextFits(number: nat, text: Bytes)
    requires 1 <= number <= ITEMS && |text| == WIDTHS[number - 1] > 0
    ensures Fitting([number], [text])
  {
  }

  /** Payloads are self-describing. A receiver that follows the extension chain and the presence bits finds exactly
      the items that were put in, and their widths add up to the announced length. */
  lemma PayloadsDescribeThemselves(kind: MessageKind, s: FlightState, identity: Bytes, o: GbOptions)
    requires GbEncoded(kind, s, identity, o).Encoded?
    ensures |o.registrationMark| <= 8
    ensures var payload := GbEncoded(kind, s, identity, o).bytes;
      var numbers, items := ItemNumbers(kind), ItemBytes(kind, s, identity, o);
      && |numbers| == |items| && Decoded(payload) == Some(Numbered(numbers, items))
      && |payload| > 2 && payload[2] as nat == WidthSum(numbers)
  {
    hide Decoded, Concat, Framed, Identifiers, Present, WidthSum, Listed, Fitting, MotionItems, StatusItems,
         SystemItems, ValidLocation, ValidAltitude, ValidState, TextItem, Numbered;
    Widths();
    var items := ItemBytes(kind, s, identity, o);
    FittingSizes(ItemNumbers(kind), items);
    match kind
    case BasicId =>
      SingleIdentifier(0x80, Concat(items));
      ListedBytes();
      TextFits(1, identity);
      FramedDecodes(BASIC_ID_IDENTIFIERS, [1], items);
    case OperatorId =>
      SingleIdentifier(0x40, Concat(items));
      ListedBytes();
      TextSize(o.registrationMark, 8);
      TextFits(2, TextItem(o.registrationMark, 8));
      FramedDecodes(OPERATOR_ID_IDENTIFIERS, [2], items);
    case System =>
      SingleIdentifier(0x3E, Concat(items));
      ListedBytes();
      SystemFits(s, o);
      FramedDecodes(SYSTEM_IDENTIFIERS, SYSTEM_ITEMS, items);
    case Location =>
      LocationIdentifiers(Concat(items));
      LocationFits(s, Or(o.barometricAltitude, s.altitude), o);
      FramedDecodes(LOCATION_IDENTIFIERS, LOCATION_ITEMS, items);
    case _ =>
  }

  lemma FittingSizes(numbers: seq<nat>, items: seq<Bytes>)
    ensures Fitting(numbers, items) ==> |numbers| == |items|
  {
  }

  lemma TextSize(text: Bytes, size: nat)
    requires |text| <= size
    ensures |TextItem(text, size)| == size
  {
    ZerosSize(size - |text|);
  }

  lemma {:induction false} ZerosSize(n: nat)
    ensures |Zeros(n)| == n
  {
    if n == 0 {
    } else {
      ZerosSize(n - 1);
    }
  }

  lemma ListedBytes()
    ensures Listed(0x80, 0) == [1] && Listed(0x40, 0) == [2] && Listed(0x3E, 0) == SYSTEM_ITEMS
  {
  }

  lemma SumStep(number: nat, others: seq<nat>)
    ensures WidthSum([number] + others) == Width(number) + WidthSum(others)
  {
    assert ([number] + others)[1..] == others;
  }

  lemma NoWidths()
    ensures WidthSum([]) == 0
  {
  }

  lemma WidthTable()
    ensures forall n :: 1 <= n <= ITEMS ==> Width(n) == WIDTHS[n - 1]
  {
  }

  lemma {:induction false} WidthSumJoin(a: seq<nat>, b: seq<nat>)
    ensures WidthSum(a + b) == WidthSum(a) + WidthSum(b)
    decreases |a|
  {
    if a == [] {
      assert a + b == b;
    } else {
      WidthSumJoin(a[1..], b);
      assert (a + b)[1..] == a[1..] + b;
    }
  }

  lemma ShortWidths()
    ensures WidthSum([1]) == 20 && WidthSum([2]) == 8 && WidthSum([3, 4, 5, 6, 7]) == 13
  {
    hide WidthSum, Width;
    WidthTable();
    assert WidthSum([]) == 0 by { NoWidths(); }
    SumStep(1, []);
    assert [1] + [] == [1];
    SumStep(2, []);
    assert [2] + [] == [2];
    SumStep(7, []);
    assert [7] + [] == [7];
    SumStep(6, [7]);
    assert [6] + [7] == [6, 7];
    SumStep(5, [6, 7]);
    assert [5] + [6, 7] == [5, 6, 7];
    SumStep(4, [5, 6, 7]);
    assert [4] + [5, 6, 7] == [4, 5, 6, 7];
    SumStep(3, [4, 5, 6, 7]);
    assert [3] + [4, 5, 6, 7] == [3, 4, 5, 6, 7];
  }

  lemma MotionWidths()
    ensures WidthSum([8, 9, 10, 11, 12, 13, 14]) == 19
  {
    hide WidthSum, Width;
    WidthTable();
    assert WidthSum([]) == 0 by { NoWidths(); }
    SumStep(14, []);
    assert [14] + [] == [14];
    SumStep(13, [14]);
    assert [13] + [14] == [13, 14];
    SumStep(12, [13, 14]);
    assert [12] + [13, 14] == [12, 13, 14];
    SumStep(11, [12, 13, 14]);
    assert [11] + [12, 13, 14] == [11, 12, 13, 14];
    SumStep(10, [11, 12, 13, 14]);
    assert [10] + [11, 12, 13, 14] == [10, 11, 12, 13, 14];
    SumStep(9, [10, 11, 12, 13, 14]);
    assert [9] + [10, 11, 12, 13, 14] == [9, 10, 11, 12, 13, 14];
    SumStep(8, [9, 10, 11, 12, 13, 14]);
    assert [8] + [9, 10, 11, 12, 13, 14] == [8, 9, 10, 11, 12, 13, 14];
  }

  lemma StatusWidths()
    ensures WidthSum([15, 16, 17, 18, 19, 20, 21]) == 12
  {
    hide WidthSum, Width;
    WidthTable();
    assert WidthSum([]) == 0 by { NoWidths(); }
    SumStep(21, []);
    assert [21] + [] == [21];
    SumStep(20, [21]);
    assert [20] + [21] == [20, 21];
    SumStep(19, [20, 21]);
    assert [19] + [20, 21] == [19, 20, 21];
    SumStep(18, [19, 20, 21]);
    assert [18] + [19, 20, 21] == [18, 19, 20, 21];
    SumStep(17, [18, 19, 20, 21]);
    assert [17] + [18, 19, 20, 21] == [17, 18, 19, 20, 21];
    SumStep(16, [17, 18, 19, 20, 21]);
    assert [16] + [17, 18, 19, 20, 21] == [16, 17, 18, 19, 20, 21];
    SumStep(15, [16, 17, 18, 19, 20, 21]);
    assert [15] + [16, 17, 18, 19, 20, 21] == [15, 16, 17, 18, 19, 20, 21];
  }

  /** The content lengths of the four kinds of payload: 20, 8, 13 and 31 bytes. */
  lemma Widths()
    ensures WidthSum([1]) == 20 && WidthSum([2]) == 8 && WidthSum(SYSTEM_ITEMS) == 13 && WidthSum(LOCATION_ITEMS) == 31
  {
    hide WidthSum;
    ShortWidths();
    MotionWidths();
    StatusWidths();
    WidthSumJoin([8, 9, 10, 11, 12, 13, 14], [15, 16, 17, 18, 19, 20, 21]);
    assert [8, 9, 10, 11, 12, 13, 14] + [15, 16, 17, 18, 19, 20, 21] == LOCATION_ITEMS;
  }

  // ----- What the receiver makes of the fields

  lemma WordRecovered(value: int)
    requires 0 <= value < 0x1_0000
    ensures LeValue(Word16Item(value)) == value
  {
    LeRoundTrip(value, 2);
  }

  function ReadPoint(bytes: Bytes): GeoPoint
    requires |bytes| == 8
  {
    LeValueBound(bytes[..4]);
    LeValueBound(bytes[4..]);
    GeoPoint(CoordinateOf(LeValue(bytes[4..])), CoordinateOf(LeValue(bytes[..4])))
  }

  predicate Near(a: real, b: real, tolerance: real) {
    -tolerance <= a - b <= tolerance
  }

  predicate NearPoint(a: GeoPoint, b: GeoPoint) {
    Near(a.latitude, b.latitude, 0.00000005) && Near(a.longitude, b.longitude, 0.00000005)
  }

  lemma PointRecovered(p: GeoPoint)
    requires ValidPoint(p)
    ensures NearPoint(ReadPoint(CoordinateItem(p)), p)
  {
    var item := CoordinateItem(p);
    assert item[..4] == Le(CoordinateWord(p.longitude), 4) && item[4..] == Le(CoordinateWord(p.latitude), 4);
    LeRoundTrip(CoordinateWord(p.longitude), 4);
    LeRoundTrip(CoordinateWord(p.latitude), 4);
    CoordinateRecovered(p.longitude);
    CoordinateRecovered(p.latitude);
  }

  lemma NumberedAt(numbers: seq<nat>, items: seq<Bytes>, k: nat)
    requires |numbers| == |items| && k < |items|
    ensures |Numbered(numbers, items)| == |items| && Numbered(numbers, items)[k] == Item(numbers[k], items[k])
  {
    if k > 0 {
      NumberedAt(numbers[1..], items[1..], k - 1);
    } else if |items| > 1 {
      NumberedAt(numbers[1..], items[1..], 0);
    }
  }

  /** What a receiver makes of the items of a location payload, against what was sent. */
  ghost predicate ReadsAsLocation(items: seq<Item>, s: FlightState, barometric: real, o: GbOptions) {
    && |items| == 14 && (forall k :: 0 <= k < 14 ==> items[k].number == 8 + k)
    && ReadsAsMotion([items[0].bytes, items[1].bytes, items[2].bytes, items[3].bytes, items[4].bytes, items[5].bytes,
        items[6].bytes], s, barometric)
    && LeValue(items[7].bytes) == (if s.airborne then 1 else 0)
    && items[8].bytes == [0] && items[9].bytes == [o.horizontalAccuracy] && items[10].bytes == [o.verticalAccuracy]
    && items[11].bytes == [o.speedAccuracy] && LeValue(items[12].bytes) == o.timestamp &&
        items[13].bytes == [o.timestampAccuracy]
  }

  /** Every scaled field within half its quantum, signs included, and no invalid speed. */
  ghost predicate ReadsAsMotion(items: seq<Bytes>, s: FlightState, barometric: real) {
    && |items| == 7
    && |items[0]| == 8 && NearPoint(ReadPoint(items[0]), s.position)
    && Near(TenthsOf(LeValue(items[1])), s.heading, 0.05)
    && Near(TenthsOf(LeValue(items[2])), s.horizontalSpeed, 0.05) && LeValue(items[2]) != 0xFFFF
    && Near(HeightOf(LeValue(items[3])), s.height, 0.25)
    && Near(VerticalOf(LeValue(items[4])), s.verticalSpeed, 0.25) && LeValue(items[4]) != 0xFF
    && (LeValue(items[4]) >= 0x80 <==> s.verticalSpeed < 0.0)
    && Near(AltitudeOf(LeValue(items[5])), s.altitude, 0.25)
    && Near(AltitudeOf(LeValue(items[6])), barometric, 0.25)
  }

  /** The receiver of a location payload recovers every scaled field within half a quantum, signs included, and never
      sees the invalid ground speed 0xFFFF or the invalid vertical speed 0xFF. */
  lemma LocationIsRecovered(s: FlightState, identity: Bytes, o: GbOptions)
    requires GbEncoded(Location, s, identity, o).Encoded?
    ensures var decoded := Decoded(GbEncoded(Location, s, identity, o).bytes);
      decoded.Some? && ReadsAsLocation(decoded.value, s, Or(o.barometricAltitude, s.altitude), o)
  {
    hide Decoded, GbEncoded, MotionItems, StatusItems, ReadsAsLocation, Numbered, ValidLocation, ValidState;
    PayloadsDescribeThemselves(Location, s, identity, o);
    EncodedLocationIsValid(s, identity, o);
    LocationItemsRead(s, Or(o.barometricAltitude, s.altitude), o);
  }

  lemma LocationItemsRead(s: FlightState, barometric: real, o: GbOptions)
    requires ValidState(s) && ValidLocation(s, barometric) && o.timestamp <= 0xFFFF_FFFF_FFFF
    ensures var items := MotionItems(s, barometric) + StatusItems(s, o);
      |items| == |LOCATION_ITEMS| && ReadsAsLocation(Numbered(LOCATION_ITEMS, items), s, barometric, o)
  {
    hide ReadsAsMotion, Numbered, Le, LeValue, CoordinateItem, Word16Item, VerticalByte, ValidLocation, ValidState;
    var items := MotionItems(s, barometric) + StatusItems(s, o);
    forall k | 0 <= k < 14
      ensures |Numbered(LOCATION_ITEMS, items)| == 14 && Numbered(LOCATION_ITEMS, items)[k] == Item(8 + k, items[k])
    {
      NumberedAt(LOCATION_ITEMS, items, k);
    }
    MotionRecovered(s, barometric);
    StatusRecovered(s, o);
    var m := MotionItems(s, barometric);
    assert m == [items[0], items[1], items[2], items[3], items[4], items[5], items[6]];
  }

  lemma EncodedLocationIsValid(s: FlightState, identity: Bytes, o: GbOptions)
    requires GbEncoded(Location, s, identity, o).Encoded?
    ensures ValidState(s) && ValidLocation(s, Or(o.barometricAltitude, s.altitude)) && o.timestamp <= 0xFFFF_FFFF_FFFF
  {
    hide Framed, Concat, MotionItems, StatusItems;
  }

  lemma OneByte(b: Byte)
    ensures LeValue([b]) == b
  {
    assert [b][1..] == [];
  }

  lemma MotionRecovered(s: FlightState, barometric: real)
    requires ValidState(s) && ValidLocation(s, barometric)
    ensures ReadsAsMotion(MotionItems(s, barometric), s, barometric)
  {
    hide ReadPoint, Word16Item, VerticalByte, TenthsWord, HeightWord, AltitudeWord, TenthsOf, HeightOf, AltitudeOf,
         VerticalOf, NearPoint, Le, LeValue;
    PointRecovered(s.position);
    HeadingRecovered(s.heading);
    WordRecovered(TenthsWord(s.heading));
    SpeedRecovered(s.horizontalSpeed);
    WordRecovered(TenthsWord(s.horizontalSpeed));
    HeightRecovered(s.height);
    WordRecovered(HeightWord(s.height));
    VerticalRecovered(s.verticalSpeed);
    OneByte(VerticalByte(s.verticalSpeed) % 0x100);
    AltitudeRecovered(s.altitude);
    WordRecovered(AltitudeWord(s.altitude));
    AltitudeRecovered(barometric);
    WordRecovered(AltitudeWord(barometric));
  }

  lemma StatusRecovered(s: FlightState, o: GbOptions)
    requires o.timestamp <= 0xFFFF_FFFF_FFFF
    ensures var items := StatusItems(s, o);
      LeValue(items[0]) == (if s.airborne then 1 else 0) && LeValue(items[5]) == o.timestamp
  {
    OneByte(if s.airborne then 1 else 0);
    LeRoundTrip(o.timestamp, 6);
  }

  ghost predicate ReadsAsSystem(items: seq<Item>, s: FlightState, o: GbOptions) {
    && |items| == 5 && (forall k :: 0 <= k < 5 ==> items[k].number == 3 + k)
    && items[0].bytes == [o.operationCategory] && items[1].bytes == [o.uaClassification] &&
        items[2].bytes == [o.gcsPositionType]
    && |items[3].bytes| == 8 && NearPoint(ReadPoint(items[3].bytes), Or(o.gcsPosition, s.position))
    && Near(AltitudeOf(LeValue(items[4].bytes)), Or(o.gcsAltitude, s.altitude), 0.25)
  }

  /** The station of a system payload is recovered the same way; without a station position it is the aircraft's. */
  lemma SystemIsRecovered(s: FlightState, identity: Bytes, o: GbOptions)
    requires GbEncoded(System, s, identity, o).Encoded?
    ensures var decoded := Decoded(GbEncoded(System, s, identity, o).bytes);
      decoded.Some? && ReadsAsSystem(decoded.value, s, o)
  {
    hide Decoded, GbEncoded, SystemItems, ReadsAsSystem, Numbered, ValidAltitude, ValidPoint;
    PayloadsDescribeThemselves(System, s, identity, o);
    EncodedSystemIsValid(s, identity, o);
    SystemItemsRead(s, o);
  }

  lemma SystemItemsRead(s: FlightState, o: GbOptions)
    requires ValidPoint(Or(o.gcsPosition, s.position)) && ValidAltitude(Or(o.gcsAltitude, s.altitude))
    ensures ReadsAsSystem(Numbered(SYSTEM_ITEMS, SystemItems(s, o)), s, o)
  {
    hide Numbered, Le, LeValue, Word16Item, AltitudeWord, AltitudeOf, ReadPoint, NearPoint, ValidAltitude, ValidPoint;
    var items := SystemItems(s, o);
    NumberedAt(SYSTEM_ITEMS, items, 0);
    NumberedAt(SYSTEM_ITEMS, items, 1);
    NumberedAt(SYSTEM_ITEMS, items, 2);
    NumberedAt(SYSTEM_ITEMS, items, 3);
    NumberedAt(SYSTEM_ITEMS, items, 4);
    PointRecovered(Or(o.gcsPosition, s.position));
    AltitudeRecovered(Or(o.gcsAltitude, s.altitude));
    WordRecovered(AltitudeWord(Or(o.gcsAltitude, s.altitude)));
    var read := Numbered(SYSTEM_ITEMS, items);
    assert read[0] == Item(3, items[0]) && read[1] == Item(4, items[1]) && read[2] == Item(5, items[2]);
    assert read[3] == Item(6, items[3]) && read[4] == Item(7, items[4]);
    assert |items[3]| == 8;
  }

  lemma EncodedSystemIsValid(s: FlightState, identity: Bytes, o: GbOptions)
    requires GbEncoded(System, s, identity, o).Encoded?
    ensures ValidPoint(Or(o.gcsPosition, s.position)) && ValidAltitude(Or(o.gcsAltitude, s.altitude))
  {
    hide Framed, Concat, SystemItems;
  }
}
