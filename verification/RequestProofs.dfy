/** What a request looks like on the wire and to the device it is sent to. */
module RequestProofs {
  import opened Bytes
  import opened Errors
  import opened Objects
  import opened Services
  import opened ServiceProofs
  import opened CodecProofs
  import opened Network
  import opened NetworkProofs
  import opened WireFormat
  import opened FrameFormat
  import opened Client

  /** The header of a confirmed request, as section 20.1.2 of ANSI/ASHRAE 135 lays it out: the PDU type,
      what the client can receive, the invoke id and the service. */
  function RequestOctets(id: byte, service: byte, body: seq<byte>): seq<byte> {
    [CONFIRMED_SERVICE_REQUEST, 5, id, service] + body
  }

  /** A request the client can encode, to a device whose network address fits, is a frame around those
      octets, and a receiver decodes its header to normal form. */
  lemma RequestIsFramed(id: byte, service: byte, payload: Payload, device: Address, self: Address)
    requires Fits(Some(device)) && Fits(Some(self))
    requires var sent := EncodeBvlc(Request(id, service, payload, device, self)); sent.Encoded? && |sent.bytes| <= 0xFFFF
    ensures EncodePayload(payload).Encoded?
    ensures var frame, n := EncodeBvlc(Request(id, service, payload, device, self)).bytes, Request(id, service, payload, device, self).npdu;
            var octets := RequestOctets(id, service, EncodePayload(payload).bytes);
            var b := DecodeBvlc(NEW_BVLC, frame).0;
            && frame == DeviceFrame(BAC_FUNC_UNICAST, n, octets)
            && ApduOctets(frame) == Some(octets)
            && b.function_ == BAC_FUNC_UNICAST && b.npdu.(apdu := None) == NormalNpdu(n).(apdu := None)
  {
    var n := Request(id, service, payload, device, self).npdu;
    var octets := RequestOctets(id, service, EncodePayload(payload).bytes);
    assert EncodeApdu(n.apdu.value) == Encoded(octets);
    DeviceFrameDecodes(BAC_FUNC_UNICAST, n, octets);
    DeviceFrameOctets(BAC_FUNC_UNICAST, n, octets);
  }

  /** The octets behind the four of the header. */
  ghost function BodyOf(frame: seq<byte>): seq<byte>
    requires ApduOctets(frame).Some? && |ApduOctets(frame).value| >= 4
  {
    ApduOctets(frame).value[4..]
  }

  /** The frame is a request of the client's under `id` for `service`. */
  predicate IsRequest(frame: seq<byte>, id: byte, service: byte) {
    match ApduOctets(frame)
    case None => false
    case Some(octets) => |octets| >= 4 && octets[..4] == [CONFIRMED_SERVICE_REQUEST, 5, id, service]
  }

  lemma BodyIs(frame: seq<byte>, id: byte, service: byte, body: seq<byte>)
    requires ApduOctets(frame) == Some(RequestOctets(id, service, body))
    ensures IsRequest(frame, id, service) && BodyOf(frame) == body
  {
    assert RequestOctets(id, service, body)[4..] == body;
    assert RequestOctets(id, service, body)[..4] == [CONFIRMED_SERVICE_REQUEST, 5, id, service];
  }

  /** A whole ReadProperty request frame carries its invoke id, and gives back object, property and index
      to the last octet exactly when the identifier has a ten-bit type. */
  lemma ReadRequestArrives(id: byte, rp: ReadProperty, device: Address, self: Address)
    requires Fits(Some(device)) && Fits(Some(self))
    requires var sent := EncodeBvlc(Request(id, SERVICE_CONFIRMED_READ_PROPERTY, ReadPayload(rp), device, self));
             sent.Encoded? && |sent.bytes| <= 0xFFFF
    ensures var frame := EncodeBvlc(Request(id, SERVICE_CONFIRMED_READ_PROPERTY, ReadPayload(rp), device, self)).bytes;
            && IsRequest(frame, id, SERVICE_CONFIRMED_READ_PROPERTY)
            && var (o, p, d) := ReadRequest(BodyOf(frame));
               (At(d, []) && o == rp.objectID && p == rp.property <==> IsObjectID(rp.objectID))
  {
    var frame := EncodeBvlc(Request(id, SERVICE_CONFIRMED_READ_PROPERTY, ReadPayload(rp), device, self)).bytes;
    RequestIsFramed(id, SERVICE_CONFIRMED_READ_PROPERTY, ReadPayload(rp), device, self);
    BodyIs(frame, id, SERVICE_CONFIRMED_READ_PROPERTY, EncodeReadProperty(rp).bytes);
    ReadRequestRoundTrip(rp);
  }

  /** The same for WriteProperty: object, property, index, value and priority, exactly for ten-bit types and
      readable values. */
  lemma WriteRequestArrives(id: byte, wp: WriteProperty, device: Address, self: Address)
    requires Fits(Some(device)) && Fits(Some(self))
    requires var sent := EncodeBvlc(Request(id, SERVICE_CONFIRMED_WRITE_PROPERTY, WritePayload(wp), device, self));
             sent.Encoded? && |sent.bytes| <= 0xFFFF
    ensures var frame := EncodeBvlc(Request(id, SERVICE_CONFIRMED_WRITE_PROPERTY, WritePayload(wp), device, self)).bytes;
            && IsRequest(frame, id, SERVICE_CONFIRMED_WRITE_PROPERTY)
            && var (o, p, v, priority, d) := ReadWriteProperty(BodyOf(frame));
               (At(d, []) && o == wp.objectID && p == wp.property && priority == wp.priority &&
                v == (if wp.value.typ == TYPE_NULL then Nil else wp.value.value)
                <==> IsObjectID(wp.objectID) && Readable(wp.value))
  {
    var frame := EncodeBvlc(Request(id, SERVICE_CONFIRMED_WRITE_PROPERTY, WritePayload(wp), device, self)).bytes;
    RequestIsFramed(id, SERVICE_CONFIRMED_WRITE_PROPERTY, WritePayload(wp), device, self);
    BodyIs(frame, id, SERVICE_CONFIRMED_WRITE_PROPERTY, EncodeWriteProperty(wp).bytes);
    WritePropertyRoundTrip(wp);
  }

  // ---- in octets ----

  /** Whole requests: a unicast BVLC around the encoded length, an NPDU that expects a reply and is routed to
      the device's network if it names one, and the APDU. */
  lemma RequestOctetsSent(id: byte, service: byte, payload: Payload, device: Address, self: Address)
    ensures var sent := EncodeBvlc(Request(id, service, payload, device, self));
            && (sent.Encoded? <==> EncodePayload(payload).Encoded?)
            && (sent.Encoded? ==>
                  sent.bytes ==
                  [0x81, 10, |sent.bytes| / 0x100 % 0x100, |sent.bytes| % 0x100] +
                  ([1, 4 + (if device.net != 0 then 0x20 else 0) + (if self.net != 0 then 8 else 0)] +
                   ((if device.net != 0 then AddressOctets(device.net, device.adr) else []) +
                    (if self.net != 0 then AddressOctets(self.net, self.adr) else []) +
                    (if device.net != 0 then [255] else []))) +
                  ([0, 5, id, service] + EncodePayload(payload).bytes))
  {
    var b := Request(id, service, payload, device, self);
    WholeFrameSent(b, b.npdu.apdu.value);
  }

  lemma RoutelessOrRouted(net: uint16, adr: seq<byte>)
    requires |adr| <= 255
    ensures [1, 4] + ([] + [] + []) == [1, 4]
    ensures [1, 0x24] + (AddressOctets(net, adr) + [] + [255]) == [1, 0x24, net / 0x100, net % 0x100, |adr|] + adr + [255]
  {
  }

  lemma BehindLength(prefix: seq<byte>, header: seq<byte>, rest: seq<byte>)
    requires |prefix| == 4
    ensures (prefix + header + rest)[4..] == header + rest && (prefix + header + rest)[..2] == prefix[..2]
  {
  }

  /** Without routers, and with: the client's own address names no network. */
  lemma RequestHeaders(id: byte, service: byte, payload: Payload, device: Address, self: Address)
    requires EncodePayload(payload).Encoded? && self.net == 0 && |device.adr| <= 255
    ensures var sent := EncodeBvlc(Request(id, service, payload, device, self));
            var header := if device.net == 0 then [1, 4]
                          else [1, 0x24, device.net / 0x100, device.net % 0x100, |device.adr|] + device.adr + [255];
            && sent.Encoded? && |sent.bytes| >= 4 && sent.bytes[..2] == [0x81, 10]
            && sent.bytes[4..] == header + ([0, 5, id, service] + EncodePayload(payload).bytes)
  {
    RequestOctetsSent(id, service, payload, device, self);
    RoutelessOrRouted(device.net, device.adr);
    var frame := EncodeBvlc(Request(id, service, payload, device, self)).bytes;
    var prefix := [0x81, 10, |frame| / 0x100 % 0x100, |frame| % 0x100];
    var header := if device.net == 0 then [1, 4] else [1, 0x24, device.net / 0x100, device.net % 0x100, |device.adr|] + device.adr + [255];
    var apdu := [0, 5, id, service] + EncodePayload(payload).bytes;
    assert frame == prefix + header + apdu;
    BehindLength(prefix, header, apdu);
    assert prefix[..2] == [0x81, 10];
  }

  lemma BroadcastRoute(n: Npdu)
    requires n == WhoIsRequest(WhoIs(None, None)).npdu.(apdu := n.apdu)
    ensures [n.version, ControlOf(n)] + RouteOctets(n) == [1, 0x20, 0xFF, 0xFF, 0, 255]
  {
    assert AddressOctets(0xFFFF, []) == [0xFF, 0xFF, 0];
  }

  lemma WhoIsIsShort(w: WhoIs)
    requires EncodeWhoIs(w).Encoded?
    ensures |EncodeWhoIs(w).bytes| <= 10
  {
    WhoIsOctets(w);
  }

  lemma BroadcastParts(n: byte, p: seq<byte>)
    ensures [0x81, 11, 0, n] + [1, 0x20, 0xFF, 0xFF, 0, 255] + ([0x10, 8] + p) == [0x81, 11, 0, n, 1, 0x20, 0xFF, 0xFF, 0, 255, 0x10, 8] + p
  {
  }

  /** The broadcast of a Who-Is: a routed header to network 65535, and the limits. */
  lemma WhoIsOctetsSent(w: WhoIs)
    ensures var sent := EncodeBvlc(WhoIsRequest(w));
            && (sent.Encoded? <==> EncodeWhoIs(w).Encoded?)
            && (sent.Encoded? ==>
                  var p := EncodeWhoIs(w).bytes;
                  |p| <= 10 && sent.bytes == [0x81, 11, 0, 12 + |p|, 1, 0x20, 0xFF, 0xFF, 0, 255, 0x10, 8] + p)
  {
    var b := WhoIsRequest(w);
    WholeFrameSent(b, b.npdu.apdu.value);
    if EncodeWhoIs(w).Encoded? {
      var p := EncodeWhoIs(w).bytes;
      WhoIsIsShort(w);
      BroadcastRoute(b.npdu);
      BroadcastParts(12 + |p|, p);
    }
  }
}
