/** When a GB 46750 payload is encoded at all, why it is refused otherwise, and what stands on the wire, in numbers. */
module GbLaws {
  import opened Wrappers
  import opened Words
  import opened GbEncoder
  import opened GbDecoder

  predicate OnEarth(p: GeoPoint) {
    -90.0 <= p.latitude && p.latitude <= 90.0 && -180.0 <= p.longitude && p.longitude <= 180.0
  }

  /** An altitude that the 16-bit field can hold; the lower bound is open. */
  predicate InAltitude(a: real) {
    -1000.0 < a && a <= 31767.5
  }

  predicate SoundState(s: FlightState) {
    OnEarth(s.position) && 0.0 <= s.horizontalSpeed && 0.0 <= s.heading && s.heading < 360.0
  }

  predicate SoundOptions(o: GbOptions) {
    && |o.registrationMark| <= 8 && o.timestamp < 0x1_0000_0000_0000
    && (o.gcsPosition.Some? ==> OnEarth(o.gcsPosition.value))
    && (o.gcsAltitude.Some? ==> InAltitude(o.gcsAltitude.value))
    && (o.barometricAltitude.Some? ==> InAltitude(o.barometricAltitude.value))
  }

  /** What a location says must fit its fields: altitudes, the height over ground, and both speeds. */
  predicate LocationFitsFields(s: FlightState) {
    && InAltitude(s.altitude) && -9000.0 < s.height && s.height <= 23767.5
    && s.horizontalSpeed <= 6553.4 && -63.0 <= s.verticalSpeed && s.verticalSpeed <= 63.5
  }

  /** A message is encoded exactly if identity, state and options are sound, the message is one of the four that exist, a
      location fits its fields, and a system message has an altitude, of its own or the aircraft's, that fits. Otherwise
      the refusal names the first reason. */
  lemma EncodesExactly(kind: MessageKind, s: FlightState, identity: Bytes, o: GbOptions)
    ensures var r := GbEncoded(kind, s, identity, o);
      var sound := |identity| == 20 && SoundState(s) && SoundOptions(o);
      var altitude := if o.gcsAltitude.Some? then o.gcsAltitude.value else s.altitude;
      var fits := kind.BasicId? || kind.OperatorId? || (kind.System? && InAltitude(altitude)) ||
                     (kind.Location? && LocationFitsFields(s));
      && (r.Encoded? <==> sound && fits)
      && (r == Refused(InvalidIdentity) <==> |identity| != 20)
      && (r == Refused(InvalidFlightState) <==>
           |identity| == 20 && (!SoundState(s) || (SoundOptions(o) && kind.Location? && !LocationFitsFields(s))))
      && (r == Refused(InvalidOptions) <==>
           |identity| == 20 && SoundState(s) && (!SoundOptions(o) || (kind.System? && !InAltitude(altitude))))
      && (r == Refused(UnsupportedMessage) <==> sound && (kind.Authentication? || kind.SelfId?))
  {
    hide Framed, Concat, MotionItems, StatusItems, SystemItems, TextItem;
  }

  /** Every payload starts with 0xFF, version 0x20, the length of its content, and identifier bytes of its kind. */
  lemma HeadIs(kind: MessageKind, s: FlightState, identity: Bytes, o: GbOptions)
    requires GbEncoded(kind, s, identity, o).Encoded?
    ensures var p := GbEncoded(kind, s, identity, o).bytes;
      match kind
      case BasicId => |p| == 24 && p[..4] == [0xFF, 0x20, 20, 0x80]
      case OperatorId => |p| == 12 && p[..4] == [0xFF, 0x20, 8, 0x40]
      case System => |p| == 17 && p[..4] == [0xFF, 0x20, 13, 0x3E]
      case Location => |p| == 37 && p[..6] == [0xFF, 0x20, 31, 0x01, 0xFF, 0xFE]
      case _ => false
  {
    hide MotionItems, StatusItems, SystemItems, TextItem, Concat, WidthSum, ValidLocation, ValidAltitude, ValidState, Framed;
    var items := ItemBytes(kind, s, identity, o);
    Widths();
    PayloadsDescribeThemselves(kind, s, identity, o);
    SupportedOnly(kind, s, identity, o);
    ContentHasSize(kind, s, identity, o);
    match kind
    case BasicId => FramedIs(BASIC_ID_IDENTIFIERS, Concat(items));
    case OperatorId => FramedIs(OPERATOR_ID_IDENTIFIERS, Concat(items));
    case System => FramedIs(SYSTEM_IDENTIFIERS, Concat(items));
    case Location => FramedIs(LOCATION_IDENTIFIERS, Concat(items));
  }

  lemma SupportedOnly(kind: MessageKind, s: FlightState, identity: Bytes, o: GbOptions)
    requires GbEncoded(kind, s, identity, o).Encoded?
    ensures kind.BasicId? || kind.OperatorId? || kind.System? || kind.Location?
    ensures |o.registrationMark| <= 8 && |identity| == 20
    ensures GbEncoded(kind, s, identity, o).bytes == Framed(
      match kind
      case BasicId => BASIC_ID_IDENTIFIERS
      case OperatorId => OPERATOR_ID_IDENTIFIERS
      case System => SYSTEM_IDENTIFIERS
      case _ => LOCATION_IDENTIFIERS,
      Concat(ItemBytes(kind, s, identity, o)))
  {
    hide Framed, Concat, MotionItems, StatusItems, SystemItems, TextItem;
  }

  lemma FramedIs(identifiers: Bytes, content: Bytes)
    requires |content| < 256
    ensures Framed(identifiers, content) == [0xFF, 0x20, |content|] + identifiers + content
  {
  }

  lemma {:induction false} ConcatSize(items: seq<Bytes>)
    ensures |Concat(items)| == SizeSum(items)
    decreases |items|
  {
    if items == [] {
    } else {
      ConcatSize(items[..|items| - 1]);
    }
  }

  function SizeSum(items: seq<Bytes>): nat {
    if items == [] then 0 else SizeSum(items[..|items| - 1]) + |items[|items| - 1]|
  }

  lemma {:induction false} SizesAreWidths(numbers: seq<nat>, items: seq<Bytes>)
    requires Fitting(numbers, items)
    ensures SizeSum(items) == WidthSum(numbers)
    decreases |items|
  {
    hide Width, WidthSum;
    if items == [] {
      NoWidths();
    } else {
      var last := |items| - 1;
      SizesAreWidths(numbers[..last], items[..last]);
      WidthSumJoin(numbers[..last], [numbers[last]]);
      assert numbers == numbers[..last] + [numbers[last]];
      SumStep(numbers[last], []);
      NoWidths();
      assert [numbers[last]] + [] == [numbers[last]];
    }
  }

  lemma ContentHasSize(kind: MessageKind, s: FlightState, identity: Bytes, o: GbOptions)
    requires kind.BasicId? || kind.OperatorId? || kind.System? || kind.Location?
    requires |o.registrationMark| <= 8 && |identity| == 20
    ensures |Concat(ItemBytes(kind, s, identity, o))| == WidthSum(ItemNumbers(kind))
  {
    hide MotionItems, StatusItems, SystemItems, TextItem, Concat, WidthSum, Fitting;
    var items := ItemBytes(kind, s, identity, o);
    match kind {
      case BasicId => TextFits(1, identity);
      case OperatorId =>
        TextSize(o.registrationMark, 8);
        TextFits(2, TextItem(o.registrationMark, 8));
      case System => SystemFits(s, o);
      case Location => LocationFits(s, if o.barometricAltitude.Some? then o.barometricAltitude.value else s.altitude, o);
    }
    SizesAreWidths(ItemNumbers(kind), items);
    ConcatSize(items);
  }

  /** The receiver of an identity payload finds the identity, and that of an operator payload the registration mark,
      padded with zero bytes to eight. */
  lemma TextsAreRecovered(s: FlightState, identity: Bytes, o: GbOptions)
    requires GbEncoded(BasicId, s, identity, o).Encoded?
    ensures Decoded(GbEncoded(BasicId, s, identity, o).bytes) == Some([Item(1, identity)])
    ensures GbEncoded(OperatorId, s, identity, o).Encoded?
    ensures var r := Decoded(GbEncoded(OperatorId, s, identity, o).bytes);
      && r.Some? && |r.value| == 1 && r.value[0].number == 2
      && var text := r.value[0].bytes;
         |text| == 8 && |o.registrationMark| <= 8 && text[..|o.registrationMark|] == o.registrationMark
         && forall k :: |o.registrationMark| <= k < 8 ==> text[k] == 0
  {
    hide Decoded, GbEncoded, TextItem;
    PayloadsDescribeThemselves(BasicId, s, identity, o);
    OperatorToo(s, identity, o);
    PayloadsDescribeThemselves(OperatorId, s, identity, o);
    TextSize(o.registrationMark, 8);
    PaddedWithZeros(o.registrationMark, 8);
    OneNumbered(1, identity);
    OneNumbered(2, TextItem(o.registrationMark, 8));
  }

  lemma OperatorToo(s: FlightState, identity: Bytes, o: GbOptions)
    requires GbEncoded(BasicId, s, identity, o).Encoded?
    ensures GbEncoded(OperatorId, s, identity, o).Encoded?
  {
    hide Framed, Concat, TextItem;
  }

  lemma OneNumbered(number: nat, item: Bytes)
    ensures Numbered([number], [item]) == [Item(number, item)]
  {
    assert [number][1..] == [] && [item][1..] == [];
    assert Numbered([], []) == [];
  }

  lemma PaddedWithZeros(text: Bytes, size: nat)
    requires |text| <= size
    ensures var padded := TextItem(text, size);
      |padded| == size && padded[..|text|] == text && forall k :: |text| <= k < size ==> padded[k] == 0
  {
    ZerosAreZero(size - |text|);
  }

  lemma {:induction false} ZerosAreZero(n: nat)
    ensures |Zeros(n)| == n && forall k :: 0 <= k < n ==> Zeros(n)[k] == 0
  {
    if n == 0 {
    } else {
      ZerosAreZero(n - 1);
    }
  }

  /** Rounding goes to the nearest integer, and away from zero from the middle. */
  lemma RoundsToNearest(x: real)
    ensures var n := Round(x) as real;
      && -0.5 <= n - x && n - x <= 0.5
      && (x >= 0.0 ==> n - x > -0.5) && (x < 0.0 ==> n - x < 0.5)
  {
  }

  /** How the receiver reads the scaled fields: 1e-7 degrees; half metres over -1000 m and over -9000 m; tenths; and half
      metres a second with the sign in bit 7. */
  lemma FieldsMean(word: Word32, half: Word16, b: Byte)
    ensures CoordinateOf(word) * 10000000.0 == (if word < 0x8000_0000 then word else word - 0x1_0000_0000) as real
    ensures AltitudeOf(half) == half as real * 0.5 - 1000.0 && HeightOf(half) == half as real * 0.5 - 9000.0
    ensures TenthsOf(half) == half as real * 0.1
    ensures VerticalOf(b) == (if b < 128 then b as real * 0.5 else (b - 128) as real * -0.5)
  {
  }
}
