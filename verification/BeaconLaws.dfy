/** Beacons and advertising data in numbers: what the builders accept, every byte of the fixed part, and what makes a frame
    valid. */
module BeaconLaws {
  import opened Wrappers
  import opened Words
  import opened Beacon

  /** A frame is valid exactly if it has 38 to 512 bytes, is a beacon by its first byte, and its bytes from the 36th on are
      elements one after the other, among them an SSID of at most 32 bytes (0), one to eight rates (1) and a vendor element
      of at least four bytes (0xDD). */
  lemma ValidFrames(frame: Bytes)
    ensures ValidBeacon(frame) <==>
      38 <= |frame| && |frame| <= 512 && 0x80 <= frame[0] && frame[0] <= 0x83 &&
      exists es: seq<Element> :: IsArea(es, frame[36..]) && Required(es)
  {
    if ValidBeacon(frame) {
      var es: seq<Element> :| Encodable(es) && Joined(es) == frame[AREA..] && HasRequired(es);
      AreaIs(es, frame[36..]);
      RequiredIs(es);
      assert IsArea(es, frame[36..]) && Required(es);
    }
    if 38 <= |frame| && exists es: seq<Element> :: IsArea(es, frame[36..]) && Required(es) {
      var es: seq<Element> :| IsArea(es, frame[36..]) && Required(es);
      AreaIs(es, frame[36..]);
      RequiredIs(es);
    }
  }

  /** The area is these elements one after the other, each with its identifier and its length in front. */
  ghost predicate IsArea(es: seq<Element>, area: Bytes) {
    if es == [] then area == []
    else
      var n := |es[0].value|;
      n < 256 && n + 2 <= |area| && area[0] == es[0].id && area[1] == n && area[2..n + 2] == es[0].value &&
      IsArea(es[1..], area[n + 2..])
  }

  ghost predicate Required(es: seq<Element>) {
    && (exists e :: e in es && e.id == 0 && |e.value| <= 32)
    && (exists e :: e in es && e.id == 1 && 1 <= |e.value| <= 8)
    && (exists e :: e in es && e.id == 0xDD && 4 <= |e.value|)
  }

  lemma RequiredIs(es: seq<Element>)
    ensures Required(es) <==> HasRequired(es)
  {
    if HasRequired(es) {
      var a :| a in es && IsSsid(a);
      var b :| b in es && IsRates(b);
      var c :| c in es && IsVendor(c);
    }
    if Required(es) {
      var a :| a in es && a.id == 0 && |a.value| <= 32;
      var b :| b in es && b.id == 1 && 1 <= |b.value| <= 8;
      var c :| c in es && c.id == 0xDD && 4 <= |c.value|;
      assert IsSsid(a) && IsRates(b) && IsVendor(c);
    }
  }

  lemma {:induction false} AreaIs(es: seq<Element>, area: Bytes)
    ensures IsArea(es, area) <==> Encodable(es) && Joined(es) == area
    decreases |es|
  {
    if es == [] {
    } else {
      var n := |es[0].value|;
      if n < 256 {
        assert Encodable(es) <==> Encodable(es[1..]) by {
          assert forall e :: e in es ==> e == es[0] || e in es[1..];
        }
        if n + 2 <= |area| {
          AreaIs(es[1..], area[n + 2..]);
          if IsArea(es, area) {
            assert area == Encoded(es[0]) + area[n + 2..];
          }
        }
        if Encodable(es) && Joined(es) == area {
          FirstOfJoined(es[0], Joined(es[1..]));
        }
      } else {
        assert es[0] in es;
      }
    }
  }

  /** A beacon is built exactly for an address, an SSID of at most 32 bytes and a payload of 1 to 249 bytes, none of them a
      null pointer (an SSID of no bytes may be one); the refusal says whether something is missing or too long. */
  lemma BuildsExactly(address: Option<Bytes>, ssid: ByteView, payload: ByteView)
    ensures var given := address.Some? && payload.View? && |payload.bytes| > 0 && (ssid.View? || ssid.size == 0);
      && (BuildError(address, ssid, payload) == InvalidArgument <==> !given)
      && (BuildError(address, ssid, payload) == FrameOk <==>
           given && |payload.bytes| <= 249 && (ssid.View? ==> |ssid.bytes| <= 32))
      && (BuildError(address, ssid, payload) in {InvalidArgument, FrameOk, PayloadTooLarge})
  {
  }

  /** The fixed part of a beacon: type and flags, broadcast destination, the address as source and network, sequence and
      timestamp of zero, an interval of 100 units and the capabilities. */
  lemma HeaderIs(address: Bytes)
    requires |address| == 6
    ensures var h := BeaconHeader(address);
      && |h| == 36 && h[0] == 0x80 && h[1] == h[2] == h[3] == 0
      && (forall k :: 4 <= k < 10 ==> h[k] == 0xFF)
      && h[10..16] == address && h[16..22] == address
      && (forall k :: 22 <= k < 32 ==> h[k] == 0)
      && h[32] == 100 && h[33] == 0 && h[34] == 0x01 && h[35] == 0x04
  {
  }

  /** The elements of a beacon: the SSID, the one rate, and the vendor element with its four fixed bytes, the counter and
      the payload. */
  lemma ElementsAre(ssid: Bytes, counter: Byte, payload: Bytes)
    ensures Elements(ssid, counter, payload) ==
      [Element(0, ssid), Element(1, [0x8C]), Element(0xDD, [0xFA, 0x0B, 0xBC, 0x0D, counter] + payload)]
  {
  }

  /** A message pack: F in the upper half of the first byte, 25 as message size, then how many messages, at least one, and
      exactly as many bytes. */
  lemma PacksAre(pack: Bytes)
    ensures ValidPack(pack) <==>
      |pack| >= 28 && 0xF0 <= pack[0] && pack[1] == 25 && |pack| == 3 + pack[2] as nat * 25
  {
  }

  /** Service data: length of the rest, type 0x16, the service number 0xFFFA, the counter, and the messages: one of 25
      bytes or a pack. */
  lemma ServiceDataIs(messages: Bytes, counter: Byte)
    requires |messages| <= 153
    ensures ServiceData(messages, counter)[..5] == [|messages| + 4, 0x16, 0xFA, 0xFF, counter]
    ensures ServiceData(messages, counter)[5..] == messages
    ensures Advertisable(messages) <==>
      |messages| == 25 ||
      (|messages| >= 28 && 0xF0 <= messages[0] && messages[1] == 25 && |messages| == 3 + messages[2] as nat * 25)
  {
    PacksAre(messages);
  }
}
