/** The envelopes in plain octets: APDU, NPDU and BVLC as clauses 6, 20.1 and J.2 of ANSI/ASHRAE 135 number
    them, on both sides. */
module FrameFormat {
  import opened Bytes
  import opened Buffers
  import opened Errors
  import opened Objects
  import opened Services
  import opened ServiceProofs
  import opened CodecProofs
  import opened WireFormat
  import opened Network
  import opened NetworkProofs
  import E = Encoding
  import D = Decoding

  // ---- APDU ----

  function LeadingOctets(a: Apdu): seq<byte> {
    if a.dataType == 0 then [0, 5, a.invokeID, a.serviceType] else [a.dataType, a.serviceType]
  }

  /** What the client sends: a confirmed request with its control octet and invoke id, anything else with
      its type and service alone. An Error and a missing payload cannot be sent. */
  lemma ApduOctetsSent(a: Apdu)
    ensures EncodeApdu(a).Encoded? <==> EncodePayload(a.payload).Encoded?
    ensures a.payload.NoPayload? || a.payload.ErrorPayload? ==> EncodeApdu(a).Refused?
    ensures a.payload.DataPayload? ==> EncodePayload(a.payload) == Encoded(a.payload.bytes)
    ensures EncodeApdu(a).Encoded? ==>
              EncodeApdu(a).bytes == LeadingOctets(a) + EncodePayload(a.payload).bytes
  {
  }

  function PayloadOf(dataType: byte, service: byte, body: seq<byte>): (Payload, Option<Error>) {
    if dataType == 0x10 && service == 8 then
      var (w, e) := DecodeWhoIs(WhoIs(None, None), body); (WhoIsPayload(w), e)
    else if dataType == 0x10 && service == 0 then
      var (i, e) := DecodeIam(Iam(ObjectID(0, 0), 0, 0, 0), body); (IamPayload(i), e)
    else if dataType == 0x30 && service == 12 then
      var (r, e) := DecodeReadProperty(ReadProperty(ObjectID(0, 0), PropertyID(0, None), Nil), body); (ReadPayload(r), e)
    else if dataType == 0x50 then
      var (x, e) := DecodeApduError(ApduError(0, 0), body); (ErrorPayload(x), e)
    else (DataPayload(body), None)
  }

  /** What an APDU's octets decode to: its type, the invoke id of a reply, its service, and one of five
      payloads chosen by type and service. */
  lemma ApduFromOctets(data: seq<byte>)
    requires data != []
    ensures var (a, e) := DecodeApdu(NEW_APDU, data);
            var reply := data[0] == 0x20 || data[0] == 0x30 || data[0] == 0x50;
            var n := if reply then 2 else 1;
            && a.dataType == data[0]
            && a.invokeID == (if reply && |data| >= 2 then data[1] else 0)
            && (|data| <= n ==> a.serviceType == 0 && a.payload == NoPayload && e == Some(EndOfBuffer))
            && (|data| > n ==> a.serviceType == data[n] && (a.payload, e) == PayloadOf(data[0], data[n], data[n + 1..]))
  {
  }

  /** A Who-Is in its APDU comes back exactly when it has both limits or none. */
  lemma WhoIsArrives(w: WhoIs)
    requires EncodeWhoIs(w).Encoded?
    ensures DecodeApdu(NEW_APDU, [0x10, 8] + EncodeWhoIs(w).bytes) == (Apdu(0x10, 8, WhoIsPayload(w), 0), None)
            <==> (w.low.Some? <==> w.high.Some?)
  {
    WhoIsRoundTrip(w);
    ApduFromOctets([0x10, 8] + EncodeWhoIs(w).bytes);
    assert ([0x10, 8] + EncodeWhoIs(w).bytes)[2..] == EncodeWhoIs(w).bytes;
  }

  /** A Who-Is payload that is not empty always sets both limits of its receiver. */
  lemma WhoIsSetsBoth(w: WhoIs, body: seq<byte>)
    ensures body != [] ==> DecodeWhoIs(w, body).0.low.Some? && DecodeWhoIs(w, body).0.high.Some?
    ensures body == [] ==> DecodeWhoIs(w, body) == (w, None)
  {
  }

  /** An I-Am in its APDU comes back exactly when its identifier has a ten-bit type. */
  lemma IamArrives(i: Iam)
    requires EncodeIam(i).Encoded?
    ensures DecodeApdu(NEW_APDU, [0x10, 0] + EncodeIam(i).bytes) == (Apdu(0x10, 0, IamPayload(i), 0), None) <==> IsObjectID(i.objectID)
  {
    IamRoundTrip(i, []);
    assert EncodeIam(i).bytes + [] == EncodeIam(i).bytes;
    ApduFromOctets([0x10, 0] + EncodeIam(i).bytes);
    assert ([0x10, 0] + EncodeIam(i).bytes)[2..] == EncodeIam(i).bytes;
  }

  /** A device's acknowledgement of a ReadProperty. */
  lemma ReadAckArrives(id: byte, o: ObjectID, p: PropertyID, v: Value, rest: seq<byte>)
    requires IsObjectID(o) && E.AppData(v).err.None? && Survives(v)
    ensures DecodeApdu(NEW_APDU, [0x30, id, 12] + (LeadOctets(o, p) + ([0x3E] + E.AppData(v).bytes + [0x3F]) + rest))
         == (Apdu(0x30, 12, ReadPayload(ReadProperty(o, p, Generic(v))), id), None)
  {
    ReplyOctets(o, p, v);
    ReadAckDecodes(id, o, p, v, rest);
  }

  /** A device's Error: two enumerateds of one to four octets, the class cut to sixteen bits. */
  lemma ErrorFromOctets(class_: seq<byte>, code: seq<byte>, rest: seq<byte>, body: seq<byte>, x: ApduError)
    requires 1 <= |class_| <= 4 && 1 <= |code| <= 4
    requires body == ([0x90 + |class_|] + class_) + ([0x90 + |code|] + code) + rest
    requires x == ApduError(NumberIn(class_) % 0x1_0000, NumberIn(code))
    ensures DecodeApduError(NEW_ERROR, body) == (x, None)
  {
    var a, b := [0x90 + |class_|] + class_, [0x90 + |code|] + code;
    E.Assoc(a, b, rest);
    var d := Start(body);
    EnumeratedFromOctets(d, class_, b + rest, KClass, Class(0));
    EnumeratedFromOctets(ReadClass(d, 0).0, code, rest, KCode, Code(0));
  }

  lemma ErrorArrives(id: byte, service: byte, class_: seq<byte>, code: seq<byte>, rest: seq<byte>)
    requires 1 <= |class_| <= 4 && 1 <= |code| <= 4
    ensures DecodeApdu(NEW_APDU, [0x50, id, service] + (([0x90 + |class_|] + class_) + ([0x90 + |code|] + code) + rest))
         == (Apdu(0x50, service, ErrorPayload(ApduError(NumberIn(class_) % 0x1_0000, NumberIn(code))), id), None)
  {
    var body := ([0x90 + |class_|] + class_) + ([0x90 + |code|] + code) + rest;
    var x := ApduError(NumberIn(class_) % 0x1_0000, NumberIn(code));
    ErrorFromOctets(class_, code, rest, body, x);
    ErrorBodyDecodes(id, service, body, x);
  }

  lemma OneOctetNumber(x: byte)
    ensures NumberIn([x]) == x
  {
    assert [x][..1] == [x];
    ReadBeIsValue([x], 1);
  }

  lemma OneOctetNames(x: byte, y: byte, body: seq<byte>)
    requires body == [0x91, x, 0x91, y]
    ensures DecodeApduError(NEW_ERROR, body) == (ApduError(x, y), None)
  {
    OneOctetNumber(x);
    OneOctetNumber(y);
    assert body == ([0x90 + |[x]|] + [x]) + ([0x90 + |[y]|] + [y]) + [];
    ErrorFromOctets([x], [y], [], body, ApduError(x, y));
  }

  /** For instance an unknown property: class 2, code 32. */
  lemma UnknownPropertyArrives(id: byte)
    ensures DecodeApdu(NEW_APDU, [0x50, id, 12, 0x91, 2, 0x91, 32]) == (Apdu(0x50, 12, ErrorPayload(ApduError(2, 32)), id), None)
  {
    var body: seq<byte> := [0x91, 2, 0x91, 32];
    OneOctetNames(2, 32, body);
    ErrorBodyDecodes(id, 12, body, ApduError(2, 32));
    assert [0x50, id, 12] + body == [0x50, id, 12, 0x91, 2, 0x91, 32];
  }

  // ---- NPDU ----

  /** An address on the wire: network, length, octets. */
  function AddressOctets(net: uint16, adr: seq<byte>): seq<byte> {
    [net / 0x100, net % 0x100, |adr| % 0x100] + adr
  }

  predicate Remote(a: Option<Address>) {
    a.Some? && a.value.net != 0
  }

  /** The addresses that name a network, and the hop count of a destination behind both. */
  function RouteOctets(n: Npdu): seq<byte> {
    (if Remote(n.destination) then AddressOctets(n.destination.value.net, n.destination.value.adr) else []) +
    (if Remote(n.source) then AddressOctets(n.source.value.net, n.source.value.adr) else []) +
    (if Remote(n.destination) then [n.hopCount] else [])
  }

  function MessageOctets(n: Npdu): seq<byte> {
    if !n.isNetworkMessage then []
    else if n.networkMessageType < 0x80 then [n.networkMessageType]
    else [n.networkMessageType, n.vendorID / 0x100, n.vendorID % 0x100]
  }

  function ControlOf(n: Npdu): byte
    requires n.priority <= 3
  {
    (if n.isNetworkMessage then 0x80 else 0) + (if Remote(n.destination) then 0x20 else 0) +
    (if Remote(n.source) then 0x08 else 0) + (if n.expectingReply then 0x04 else 0) + n.priority
  }

  lemma AddressOctetsSent(a: Option<Address>)
    ensures AddressBytes(a) == if Remote(a) then AddressOctets(a.value.net, a.value.adr) else []
  {
  }

  lemma HeaderOctetsSent(n: Npdu)
    requires n.priority <= 3
    ensures NpduHeader(n) == [n.version, ControlOf(n)] + RouteOctets(n) + MessageOctets(n)
  {
    AddressOctetsSent(n.destination);
    AddressOctetsSent(n.source);
  }

  /** What the client sends: version, control octet, route, and a network message's type and vendor or an APDU. */
  lemma NpduOctetsSent(n: Npdu)
    ensures EncodeNpdu(n).Encoded? <==> n.priority <= 3 && (n.apdu.None? || EncodeApdu(n.apdu.value).Encoded?)
    ensures EncodeNpdu(n).Encoded? ==>
              EncodeNpdu(n).bytes == [n.version, ControlOf(n)] + RouteOctets(n) + MessageOctets(n) +
                                     (if n.apdu.Some? then EncodeApdu(n.apdu.value).bytes else [])
  {
    if n.priority <= 3 {
      HeaderOctetsSent(n);
    }
  }

  lemma AddressFromOctets(net: uint16, adr: seq<byte>, rest: seq<byte>)
    requires |adr| <= 0xFF
    ensures ReadAddress(AddressOctets(net, adr) + rest) == AddressRead(Address([], net, adr), rest, None)
  {
    var s := AddressOctets(net, adr) + rest;
    assert s[3..3 + |adr|] == adr && s[3 + |adr|..] == rest;
  }

  /** The octets behind version and control, in the order the control octet announces. */
  function HeaderOctets(control: byte, dest: Address, src: Address, hops: byte): seq<byte> {
    (if control / 0x20 % 2 == 1 then AddressOctets(dest.net, dest.adr) else []) +
    ((if control / 8 % 2 == 1 then AddressOctets(src.net, src.adr) else []) +
     (if control / 0x20 % 2 == 1 then [hops] else []))
  }

  lemma SourceFromOctets(m: Npdu, control: byte, src: Address, tail: seq<byte>)
    requires |src.adr| <= 0xFF && m.source == None
    ensures var hasSrc := control / 8 % 2 == 1;
            DecodeSource(m, control, (if hasSrc then AddressOctets(src.net, src.adr) else []) + tail)
            == DecodeTail(m.(source := if hasSrc then Some(Address([], src.net, src.adr)) else None), tail)
  {
    if control / 8 % 2 == 1 {
      AddressFromOctets(src.net, src.adr, tail);
    } else {
      assert [] + tail == tail;
    }
  }

  lemma DestinationFromOctets(m: Npdu, control: byte, dest: Address, tail: seq<byte>)
    requires |dest.adr| <= 0xFF && m.destination == None
    ensures var hasDest := control / 0x20 % 2 == 1;
            DecodeDestination(m, control, (if hasDest then AddressOctets(dest.net, dest.adr) else []) + tail)
            == DecodeSource(m.(destination := if hasDest then Some(Address([], dest.net, dest.adr)) else None), control, tail)
  {
    if control / 0x20 % 2 == 1 {
      AddressFromOctets(dest.net, dest.adr, tail);
    } else {
      assert [] + tail == tail;
    }
  }

  lemma TailFromOctets(m: Npdu, hops: byte, rest: seq<byte>)
    requires !m.isNetworkMessage
    ensures var (a, err) := DecodeApdu(NEW_APDU, rest);
            DecodeTail(m, (if m.destination.Some? then [hops] else []) + rest)
            == (m.(hopCount := if m.destination.Some? then hops else m.hopCount, apdu := Some(a)), err)
  {
    if m.destination.Some? {
      assert ([hops] + rest)[1..] == rest;
    } else {
      assert [] + rest == rest;
    }
  }

  lemma FirstTwo(control: byte, s: seq<byte>)
    requires control < 0x80
    ensures DecodeNpdu(NEW_NPDU, [1, control] + s)
         == DecodeDestination(NEW_NPDU.(version := 1, expectingReply := control / 4 % 2 == 1, priority := control % 4), control, s)
  {
    assert ([1, control] + s)[2..] == s;
  }

  /** And what a received header decodes to, for every control octet, its two reserved bits included. */
  lemma HeaderFromOctets(control: byte, dest: Address, src: Address, hops: byte, rest: seq<byte>)
    requires |dest.adr| <= 0xFF && |src.adr| <= 0xFF && control < 0x80
    ensures var (n, e) := DecodeNpdu(NEW_NPDU, [1, control] + (HeaderOctets(control, dest, src, hops) + rest));
            var hasDest, hasSrc := control / 0x20 % 2 == 1, control / 8 % 2 == 1;
            var (a, err) := DecodeApdu(NEW_APDU, rest);
            && n == Npdu(1, false, control / 4 % 2 == 1, control % 4,
                         if hasDest then Some(Address([], dest.net, dest.adr)) else None,
                         if hasSrc then Some(Address([], src.net, src.adr)) else None,
                         if hasDest then hops else 0, 0, 0, Some(a))
            && e == err
  {
    var hasDest, hasSrc := control / 0x20 % 2 == 1, control / 8 % 2 == 1;
    var d, s, h := if hasDest then AddressOctets(dest.net, dest.adr) else [], if hasSrc then AddressOctets(src.net, src.adr) else [],
                   if hasDest then [hops] else [];
    var m := NEW_NPDU.(version := 1, expectingReply := control / 4 % 2 == 1, priority := control % 4);
    var m1 := m.(destination := if hasDest then Some(Address([], dest.net, dest.adr)) else None);
    var m2 := m1.(source := if hasSrc then Some(Address([], src.net, src.adr)) else None);
    FirstTwo(control, d + (s + (h + rest)));
    E.Assoc(d, s + h, rest);
    E.Assoc(s, h, rest);
    DestinationFromOctets(m, control, dest, s + (h + rest));
    SourceFromOctets(m1, control, src, h + rest);
    TailFromOctets(m2, hops, rest);
  }

  // ---- BVLC ----

  lemma Wrap16(n: nat)
    ensures Be16(n % 0x1_0000) == [n / 0x100 % 0x100, n % 0x100]
  {
    assert n % 0x1_0000 == n / 0x100 % 0x100 * 0x100 + n % 0x100;
  }

  /** The frame: its type, its function, and the length of everything, wrapped. */
  lemma FrameOctetsSent(b: Bvlc)
    ensures EncodeBvlc(b).Encoded? <==> EncodeNpdu(b.npdu).Encoded?
    ensures EncodeBvlc(b).Encoded? ==>
              var bs := EncodeNpdu(b.npdu).bytes;
              var n := 4 + |bs|;
              EncodeBvlc(b).bytes == [b.typ, b.function_, n / 0x100 % 0x100, n % 0x100] + bs
  {
    if EncodeNpdu(b.npdu).Encoded? {
      Wrap16(4 + |EncodeNpdu(b.npdu).bytes|);
    }
  }

  lemma Join(header: seq<byte>, apdu: seq<byte>, prefix: seq<byte>)
    ensures prefix + (header + [] + apdu) == prefix + header + apdu
  {
  }

  /** All of it, for a frame around an APDU. */
  lemma WholeFrameSent(b: Bvlc, a: Apdu)
    requires b.npdu.apdu == Some(a) && !b.npdu.isNetworkMessage && b.npdu.priority <= 3
    ensures var sent := EncodeBvlc(b);
            && (sent.Encoded? <==> EncodePayload(a.payload).Encoded?)
            && (sent.Encoded? ==>
                  sent.bytes == [b.typ, b.function_, |sent.bytes| / 0x100 % 0x100, |sent.bytes| % 0x100] +
                                ([b.npdu.version, ControlOf(b.npdu)] + RouteOctets(b.npdu)) +
                                (LeadingOctets(a) + EncodePayload(a.payload).bytes))
  {
    ApduOctetsSent(a);
    NpduOctetsSent(b.npdu);
    FrameOctetsSent(b);
    if EncodePayload(a.payload).Encoded? {
      Join([b.npdu.version, ControlOf(b.npdu)] + RouteOctets(b.npdu), LeadingOctets(a) + EncodePayload(a.payload).bytes,
           [b.typ, b.function_, |EncodeBvlc(b).bytes| / 0x100 % 0x100, |EncodeBvlc(b).bytes| % 0x100]);
    }
  }

  lemma LengthIn(data: seq<byte>)
    requires |data| >= 4
    ensures ReadBe(data[2..], 2) == data[2] as int * 0x100 + data[3]
  {
  }

  /** What a device's frame decodes to, around the octets of its NPDU; anything else is foreign or incoherent. */
  lemma FrameFromOctets(data: seq<byte>)
    requires data != []
    ensures var (b, e) := DecodeBvlc(NEW_BVLC, data);
            && (data[0] != 0x81 ==> e == Some(NotBacnetIP) && b.npdu == NEW_NPDU)
            && (|data| >= 4 && data[0] == 0x81 && data[2] as int * 0x100 + data[3] == |data| ==>
                  (b, e) == (Bvlc(0x81, data[1], DecodeNpdu(NEW_NPDU, data[4..]).0), DecodeNpdu(NEW_NPDU, data[4..]).1))
            && (|data| >= 4 && data[0] == 0x81 && data[2] as int * 0x100 + data[3] != |data| ==>
                  e == Some(IncoherentLength) && b.npdu == NEW_NPDU)
  {
    if |data| >= 4 {
      LengthIn(data);
    }
  }
}
