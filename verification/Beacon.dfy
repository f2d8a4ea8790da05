/** Raw Wi-Fi beacons: a builder that fills a fixed buffer, and a validator that walks the information
    elements (identifier, length, value: section 9.4.2.1 of IEEE Std 802.11-2016). */
module Beacon {
  import opened Wrappers
  import opened Words

  const MAX_FRAME: nat := 512
  const MAX_VENDOR_PAYLOAD: nat := 249
  const HEADER_SIZE: nat := 24
  const FIXED_BODY_SIZE: nat := 12
  const AREA: nat := 36
  const MAX_SSID: nat := 32

  /** A pointer and a size; the pointer may be null. */
  datatype ByteView = NullView(size: nat) | View(bytes: Bytes) {
    function Size(): nat {
      if NullView? then size else |bytes|
    }
  }

  datatype FrameError = FrameOk | InvalidArgument | PayloadTooLarge | InvalidFrame

  // ----- Information elements

  datatype Element = Element(id: Byte, value: Bytes)

  function Encoded(e: Element): Bytes
    requires |e.value| < 256
  {
    [e.id, |e.value|] + e.value
  }

  predicate Encodable(es: seq<Element>) {
    forall e :: e in es ==> |e.value| < 256
  }

  function Joined(es: seq<Element>): Bytes
    requires Encodable(es)
  {
    if es == [] then [] else Encoded(es[0]) + Joined(es[1..])
  }

  /** The size of the element an area begins with, by its length byte. */
  function FirstSize(area: Bytes): nat
    requires |area| >= 2
  {
    2 + area[1] as nat
  }

  function First(area: Bytes): Element
    requires |area| >= 2 && |area| >= FirstSize(area)
  {
    Element(area[0], area[2..FirstSize(area)])
  }

  /** An area taken apart into elements, if it splits completely. */
  function Split(area: Bytes): (r: Option<seq<Element>>)
    decreases |area|
  {
    if area == [] then Some([])
    else if |area| < 2 || |area| < FirstSize(area) then None
    else
      var rest :- Split(area[FirstSize(area)..]);
      Some([First(area)] + rest)
  }

  lemma FirstOfJoined(e: Element, rest: Bytes)
    requires |e.value| < 256
    ensures var area := Encoded(e) + rest;
      |area| >= 2 && |area| >= FirstSize(area) && First(area) == e && area[FirstSize(area)..] == rest
  {
    var area := Encoded(e) + rest;
    assert area[1] == |e.value|;
    assert area[2..FirstSize(area)] == e.value;
  }

  lemma {:induction false} SplitJoined(es: seq<Element>)
    requires Encodable(es)
    ensures Split(Joined(es)) == Some(es)
  {
    hide First, FirstSize, Encoded;
    if es == [] {
    } else {
      SplitJoined(es[1..]);
      FirstOfJoined(es[0], Joined(es[1..]));
      assert es == [es[0]] + es[1..];
      NonemptyEncoding(es[0]);
    }
  }

  lemma NonemptyEncoding(e: Element)
    requires |e.value| < 256
    ensures |Encoded(e)| >= 2
  {
  }

  lemma EncodedFirst(area: Bytes)
    requires |area| >= 2 && |area| >= FirstSize(area)
    ensures |First(area).value| < 256
    ensures area == Encoded(First(area)) + area[FirstSize(area)..]
  {
  }

  lemma {:induction false} JoinedSplit(area: Bytes)
    requires Split(area).Some?
    ensures Encodable(Split(area).value) && Joined(Split(area).value) == area
    decreases |area|
  {
    hide First, Encoded;
    if area == [] {
    } else {
      EncodedFirst(area);
      JoinedSplit(area[FirstSize(area)..]);
      assert Split(area).value[1..] == Split(area[FirstSize(area)..]).value;
    }
  }

  predicate IsSsid(e: Element) { e.id == 0 && |e.value| <= MAX_SSID }
  predicate IsRates(e: Element) { e.id == 1 && 0 < |e.value| <= 8 }
  predicate IsVendor(e: Element) { e.id == 0xDD && |e.value| >= 4 }

  ghost predicate HasRequired(es: seq<Element>) {
    && (exists e :: e in es && IsSsid(e))
    && (exists e :: e in es && IsRates(e))
    && (exists e :: e in es && IsVendor(e))
  }

  // ----- The validator

  /** Walks the elements behind the fixed part of the frame. */
  method ValidElements(frame: Bytes) returns (ok: bool)
    requires |frame| >= AREA
    ensures ok <==> Split(frame[AREA..]).Some? && HasRequired(Split(frame[AREA..]).value)
  {
    hide Split;
    var offset: nat := HEADER_SIZE + FIXED_BODY_SIZE;
    var hasSsid, hasRates, hasVendor := false, false, false;
    ghost var walked: seq<Element> := [];
    ResumeStart(frame[AREA..]);
    while offset < |frame|
      invariant AREA <= offset <= |frame|
      invariant hasSsid == exists e :: e in walked && IsSsid(e)
      invariant hasRates == exists e :: e in walked && IsRates(e)
      invariant hasVendor == exists e :: e in walked && IsVendor(e)
      invariant Resumed(walked, frame[offset..]) == Split(frame[AREA..])
      decreases |frame| - offset
    {
      ghost var area := frame[offset..];
      ResumeStep(walked, area);
      if offset + 2 > |frame| { return false; }
      var id, length: nat := frame[offset], frame[offset + 1] as nat;
      offset := offset + 2;
      if offset + length > |frame| { return false; }
      ghost var e := First(area);
      assert e == Element(id, frame[offset..offset + length]) && area[FirstSize(area)..] == frame[offset + length..];
      hasSsid := hasSsid || (id == 0 && length <= MAX_SSID);
      hasRates := hasRates || (id == 1 && 0 < length <= 8);
      hasVendor := hasVendor || (id == 0xDD && length >= 4);
      OneMore(walked, e);
      walked := walked + [e];
      offset := offset + length;
    }
    assert frame[offset..] == [];
    ResumeEnd(walked);
    return hasSsid && hasRates && hasVendor;
  }

  /** The elements walked so far and those the rest of the area splits into. */
  function Resumed(walked: seq<Element>, rest: Bytes): Option<seq<Element>> {
    if Split(rest).None? then None else Some(walked + Split(rest).value)
  }

  lemma ResumeStart(area: Bytes)
    ensures Resumed([], area) == Split(area)
  {
    assert Split(area).Some? ==> [] + Split(area).value == Split(area).value;
  }

  lemma ResumeEnd(walked: seq<Element>)
    ensures Resumed(walked, []) == Some(walked)
  {
    assert walked + [] == walked;
  }

  lemma ResumeStep(walked: seq<Element>, area: Bytes)
    requires area != []
    ensures |area| < 2 || |area| < FirstSize(area) ==> Resumed(walked, area) == None
    ensures |area| >= 2 && |area| >= FirstSize(area) ==>
      Resumed(walked, area) == Resumed(walked + [First(area)], area[FirstSize(area)..])
  {
    if |area| >= 2 && |area| >= FirstSize(area) {
      var rest := Split(area[FirstSize(area)..]);
      if rest.Some? {
        assert walked + ([First(area)] + rest.value) == (walked + [First(area)]) + rest.value;
      }
    }
  }

  lemma OneMore(walked: seq<Element>, e: Element)
    ensures (exists x :: x in walked + [e] && IsSsid(x)) <==> (exists x :: x in walked && IsSsid(x)) || IsSsid(e)
    ensures (exists x :: x in walked + [e] && IsRates(x)) <==> (exists x :: x in walked && IsRates(x)) || IsRates(e)
    ensures (exists x :: x in walked + [e] && IsVendor(x)) <==> (exists x :: x in walked && IsVendor(x)) || IsVendor(e)
  {
    assert e in walked + [e];
    assert forall x :: x in walked + [e] <==> x in walked || x == e;
  }

  ghost predicate ValidBeacon(frame: Bytes) {
    && AREA + 2 <= |frame| <= MAX_FRAME && frame[0] / 4 == 0x20
    && exists es: seq<Element> :: Encodable(es) && Joined(es) == frame[AREA..] && HasRequired(es)
  }

  /** The validator accepts exactly the frames of acceptable size and type whose element area is a sequence of
      elements with the required three among them. (The type test masks the two version bits.) */
  method ValidateBeacon(frame: ByteView) returns (error: FrameError)
    ensures error == if frame.View? && ValidBeacon(frame.bytes) then FrameOk else InvalidFrame
  {
    if frame.NullView? || |frame.bytes| < HEADER_SIZE + FIXED_BODY_SIZE + 2 || |frame.bytes| > MAX_FRAME ||
       frame.bytes[0] / 4 != 0x20 { return InvalidFrame; }
    var ok := ValidElements(frame.bytes);
    SplitsExactly(frame.bytes[AREA..]);
    return if ok then FrameOk else InvalidFrame;
  }

  /** Being a sequence of elements is what Split decides, and the elements are unique. */
  lemma SplitsExactly(area: Bytes)
    ensures Split(area).Some? && HasRequired(Split(area).value)
       <==> exists es: seq<Element> :: Encodable(es) && Joined(es) == area && HasRequired(es)
  {
    if Split(area).Some? {
      JoinedSplit(area);
    }
    forall es: seq<Element> | Encodable(es) && Joined(es) == area
      ensures Split(area) == Some(es)
    {
      SplitJoined(es);
    }
  }

  // ----- The builder

  const HEADER_PREFIX: Bytes := [0x80, 0, 0, 0, 0xFF, 0xFF, 0xFF, 0xFF, 0xFF, 0xFF]
  const SEQUENCE_AND_FIXED: Bytes := [0, 0, 0, 0, 0, 0, 0, 0, 0, 0, 0x64, 0, 0x01, 0x04]
  const RATES: Bytes := [0x8C]

  function VendorValue(counter: Byte, payload: Bytes): Bytes {
    [0xFA, 0x0B, 0xBC, 0x0D, counter] + payload
  }

  function Elements(ssid: Bytes, counter: Byte, payload: Bytes): seq<Element> {
    [Element(0, ssid), Element(1, RATES), Element(0xDD, VendorValue(counter, payload))]
  }

  function BeaconHeader(address: Bytes): Bytes {
    HEADER_PREFIX + address + address + SEQUENCE_AND_FIXED
  }

  const MESSAGE_SIZE: Byte := 25

  /** An OpenDroneID message pack: type nibble, message size, message count, and that many messages. */
  predicate ValidPack(pack: Bytes) {
    && |pack| >= 28 && pack[0] / 16 == 0xF && pack[1] == MESSAGE_SIZE
    && |pack| == 3 + 25 * pack[2] as nat
  }

  function ViewBytes(v: ByteView): Bytes {
    if v.View? then v.bytes else []
  }

  function BuildError(address: Option<Bytes>, ssid: ByteView, payload: ByteView): FrameError {
    if address.None? || (ssid.Size() != 0 && ssid.NullView?) || payload.Size() == 0 || payload.NullView? then InvalidArgument
    else if ssid.Size() > MAX_SSID || payload.Size() > MAX_VENDOR_PAYLOAD then PayloadTooLarge
    else FrameOk
  }

  class WifiFrame {
    const bytes: array<Byte>
    var size: nat

    ghost predicate Valid()
      reads this
    {
      bytes.Length == MAX_FRAME && size <= MAX_FRAME
    }

    ghost function Contents(): Bytes
      requires Valid()
      reads this, bytes
    {
      bytes[..size]
    }

    constructor ()
      ensures Valid() && Contents() == [] && fresh(bytes)
    {
      bytes := new Byte[MAX_FRAME](_ => 0);
      size := 0;
    }

    method Append(value: Byte)
      requires Valid() && size < MAX_FRAME
      modifies this, bytes
      ensures Valid() && Contents() == old(Contents()) + [value]
    {
      bytes[size] := value;
      size := size + 1;
    }

    /** Copies a block of bytes behind those written so far. */
    method AppendAll(data: Bytes)
      requires Valid() && size + |data| <= MAX_FRAME
      modifies this, bytes
      ensures Valid() && Contents() == old(Contents()) + data
    {
      ghost var before := Contents();
      for k := 0 to |data|
        invariant size == old(size) && bytes[..size + k] == before + data[..k]
      {
        bytes[size + k] := data[k];
        assert bytes[..size + k + 1] == bytes[..size + k] + [data[k]];
        assert data[..k + 1] == data[..k] + [data[k]];
      }
      size := size + |data|;
      assert data[..|data|] == data;
    }

    /** On error the frame is left empty. */
    method BuildGbBeacon(address: Option<Bytes>, ssid: ByteView, counter: Byte,
        payload: ByteView) returns (error: FrameError)
      requires Valid() && (address.Some? ==> |address.value| == 6)
      modifies this, bytes
      ensures Valid() && error == BuildError(address, ssid, payload)
      ensures error != FrameOk ==> Contents() == []
      ensures error == FrameOk ==>
        var es := Elements(ViewBytes(ssid), counter, payload.bytes);
        Encodable(es) && Contents() == BeaconHeader(address.value) + Joined(es)
    {
      size := 0;
      if address.None? || (ssid.Size() != 0 && ssid.NullView?) || payload.Size() == 0 || payload.NullView? {
        return InvalidArgument;
      }
      if ssid.Size() > MAX_SSID || payload.Size() > MAX_VENDOR_PAYLOAD { return PayloadTooLarge; }
      var total := HEADER_SIZE + FIXED_BODY_SIZE + 2 + ssid.Size() + 3 + 2 + 5 + payload.Size();
      // The three elements never outgrow the buffer, so this exit is not taken.
      if total > bytes.Length { return PayloadTooLarge; }
      AppendHeader(address.value);
      AppendSsid(ssid);
      AppendAll([1, 1, 0x8C]);
      AppendVendor(counter, payload.bytes);
      JoinThree(BeaconHeader(address.value), ViewBytes(ssid), counter, payload.bytes);
      return FrameOk;
    }

    /** On anything but a well-formed message pack the frame is left empty. */
    method BuildOpenDroneIdBeacon(address: Option<Bytes>, ssid: ByteView, counter: Byte,
        pack: ByteView) returns (error: FrameError)
      requires Valid() && (address.Some? ==> |address.value| == 6)
      modifies this, bytes
      ensures Valid()
      ensures error == if pack.NullView? || !ValidPack(pack.bytes) then InvalidArgument else BuildError(address, ssid, pack)
      ensures error != FrameOk ==> Contents() == []
      ensures error == FrameOk ==>
        var es := Elements(ViewBytes(ssid), counter, pack.bytes);
        Encodable(es) && Contents() == BeaconHeader(address.value) + Joined(es)
    {
      if pack.NullView? || |pack.bytes| < 28 || pack.bytes[0] / 16 != 0xF || pack.bytes[1] != MESSAGE_SIZE ||
         pack.bytes[2] as nat != (|pack.bytes| - 3) / 25 || (|pack.bytes| - 3) % 25 != 0 {
        size := 0;
        return InvalidArgument;
      }
      error := BuildGbBeacon(address, ssid, counter, pack);
    }

    method AppendHeader(address: Bytes)
      requires Valid() && size == 0 && |address| == 6
      modifies this, bytes
      ensures Valid() && Contents() == BeaconHeader(address) && size == AREA
    {
      AppendAll(HEADER_PREFIX);
      assert Contents() == HEADER_PREFIX;
      AppendAll(address);
      AppendAll(address);
      AppendAll(SEQUENCE_AND_FIXED);
    }

    method AppendSsid(ssid: ByteView)
      requires Valid() && size == AREA && ssid.Size() <= MAX_SSID && (ssid.NullView? ==> ssid.size == 0)
      modifies this, bytes
      ensures Valid() && Contents() == old(Contents()) + Encoded(Element(0, ViewBytes(ssid))) && size == AREA + 2 + ssid.Size()
    {
      Append(0);
      Append(ssid.Size());
      if ssid.Size() != 0 { AppendAll(ssid.bytes); }
      assert Contents() == old(Contents()) + Encoded(Element(0, ViewBytes(ssid)));
    }

    method AppendVendor(counter: Byte, payload: Bytes)
      requires Valid() && size <= AREA + 2 + MAX_SSID + 3 && |payload| <= MAX_VENDOR_PAYLOAD
      modifies this, bytes
      ensures Valid() && Contents() == old(Contents()) + Encoded(Element(0xDD, VendorValue(counter, payload)))
    {
      Append(0xDD);
      Append(5 + |payload|);
      AppendAll([0xFA, 0x0B, 0xBC, 0x0D, counter]);
      if |payload| != 0 { AppendAll(payload); }
      assert Contents() == old(Contents()) + Encoded(Element(0xDD, VendorValue(counter, payload)));
    }
  }

  lemma JoinThree(head: Bytes, ssid: Bytes, counter: Byte, payload: Bytes)
    requires |ssid| <= MAX_SSID && |payload| <= MAX_VENDOR_PAYLOAD
    ensures Encodable(Elements(ssid, counter, payload))
    ensures head + Joined(Elements(ssid, counter, payload)) ==
      head + Encoded(Element(0, ssid)) + [1, 1, 0x8C] + Encoded(Element(0xDD, VendorValue(counter, payload)))
  {
    hide Encoded, VendorValue;
    var es := Elements(ssid, counter, payload);
    assert |es[2].value| == 5 + |payload| by { VendorSize(counter, payload); }
    assert es[1..] == [es[1], es[2]] && es[1..][1..] == [es[2]] && [es[2]][1..] == [];
    var a, b, c := Encoded(es[0]), Encoded(es[1]), Encoded(es[2]);
    assert b == [1, 1, 0x8C] by { EncodedRates(); }
    assert Joined([es[2]]) == c + [] == c;
    assert Joined(es) == a + (b + c);
    assert head + (a + (b + c)) == head + a + b + c;
  }

  lemma VendorSize(counter: Byte, payload: Bytes)
    ensures |VendorValue(counter, payload)| == 5 + |payload|
  {
  }

  lemma EncodedRates()
    ensures Encoded(Element(1, RATES)) == [1, 1, 0x8C]
  {
  }

  // ----- The builder against the validator

  /** Every beacon the builder emits is accepted by the validator, takes at most 329 bytes, and splits back into
      exactly the three elements it was built from. */
  lemma BuiltBeaconsAreValid(address: Bytes, ssid: ByteView, counter: Byte, payload: ByteView)
    requires |address| == 6 && BuildError(Some(address), ssid, payload) == FrameOk
    ensures var es := Elements(ViewBytes(ssid), counter, payload.bytes);
      && Encodable(es)
      && var frame := BeaconHeader(address) + Joined(es);
         && |frame| == 48 + |ViewBytes(ssid)| + |payload.bytes| <= 329
         && frame[0] == 0x80 && ValidBeacon(frame) && Split(frame[AREA..]) == Some(es)
  {
    var es := Elements(ViewBytes(ssid), counter, payload.bytes);
    JoinThree(BeaconHeader(address), ViewBytes(ssid), counter, payload.bytes);
    var frame := BeaconHeader(address) + Joined(es);
    assert |BeaconHeader(address)| == AREA && frame[AREA..] == Joined(es);
    SplitJoined(es);
    assert IsSsid(es[0]) && IsRates(es[1]) && IsVendor(es[2]) by { VendorSize(counter, payload.bytes); }
    assert es[0] in es && es[1] in es && es[2] in es;
    assert HasRequired(es);
  }

  /** The original payload is read back from the frame alone: it stands behind the five vendor bytes. */
  lemma PayloadIsRecovered(address: Bytes, ssid: ByteView, counter: Byte, payload: ByteView)
    requires |address| == 6 && BuildError(Some(address), ssid, payload) == FrameOk
    ensures var es := Elements(ViewBytes(ssid), counter, payload.bytes);
      && Encodable(es)
      && var split := Split((BeaconHeader(address) + Joined(es))[AREA..]);
         && split.Some? && |split.value| == 3
         && split.value[0].value == ViewBytes(ssid)
         && |split.value[2].value| == 5 + |payload.bytes|
         && split.value[2].value[..4] == [0xFA, 0x0B, 0xBC, 0x0D]
         && split.value[2].value[4] == counter && split.value[2].value[5..] == payload.bytes
  {
    BuiltBeaconsAreValid(address, ssid, counter, payload);
    VendorParts(counter, payload.bytes);
  }

  lemma VendorParts(counter: Byte, payload: Bytes)
    ensures var v := VendorValue(counter, payload);
      v[..4] == [0xFA, 0x0B, 0xBC, 0x0D] && v[4] == counter && v[5..] == payload
  {
  }

  /** A pack fits a beacon exactly if it holds at most nine messages. */
  lemma PackFits(pack: Bytes)
    requires ValidPack(pack)
    ensures |pack| <= MAX_VENDOR_PAYLOAD <==> pack[2] <= 9
    ensures 1 <= pack[2]
  {
  }

  // ----- Bluetooth service data

  const MAX_ENCODED: nat := 153
  const LEGACY_ADVERTISING_MAX: nat := 31
  const EXTENDED_ADVERTISING_MAX: nat := 158

  datatype AdError = AdOk | InvalidAd | AdTooLarge

  /** One 25-byte message, or a message pack. */
  predicate Advertisable(messages: Bytes) {
    |messages| == 25 || ValidPack(messages)
  }

  function ServiceData(messages: Bytes, counter: Byte): Bytes
    requires |messages| <= MAX_ENCODED
  {
    [|messages| + 4, 0x16, 0xFA, 0xFF, counter] + messages
  }

  method BuildServiceData(messages: ByteView, counter: Byte) returns (error: AdError, ad: Bytes)
    ensures error == if messages.Size() > MAX_ENCODED then AdTooLarge
      else if messages.NullView? || !Advertisable(messages.bytes) then InvalidAd else AdOk
    ensures error == AdOk ==> |messages.bytes| <= MAX_ENCODED && ad == ServiceData(messages.bytes, counter)
    ensures error != AdOk ==> ad == []
  {
    ad := [];
    if messages.Size() > MAX_ENCODED { return AdTooLarge, []; }
    var n := messages.Size();
    var single := n == 25;
    var packLength := n >= 28 && (n - 3) % 25 == 0;
    var pack := packLength && messages.View? && messages.bytes[0] / 16 == 0xF && messages.bytes[1] == MESSAGE_SIZE &&
                messages.bytes[2] as nat == (n - 3) / 25;
    if messages.NullView? || (!single && !pack) { return InvalidAd, []; }
    return AdOk, [n + 4, 0x16, 0xFA, 0xFF, counter] + messages.bytes;
  }

  /** Service data is one complete advertising element: its length byte covers the rest. It always fits extended
      advertising, and legacy advertising exactly when it is a single message. */
  lemma ServiceDataFits(messages: Bytes, counter: Byte)
    requires |messages| <= MAX_ENCODED && Advertisable(messages)
    ensures var ad := ServiceData(messages, counter);
      && ad[0] as nat == |ad| - 1 && ad[5..] == messages && ad[4] == counter
      && |ad| <= EXTENDED_ADVERTISING_MAX
      && (|ad| <= LEGACY_ADVERTISING_MAX <==> |messages| == 25)
  {
  }
}
