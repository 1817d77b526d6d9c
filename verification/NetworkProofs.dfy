/** Which frames come back from the wire, and as what. */
module NetworkProofs {
  import opened Bytes
  import opened Buffers
  import opened Errors
  import opened Objects
  import opened Services
  import opened ServiceProofs
  import opened CodecProofs
  import opened Network
  import opened Tags
  import opened Integers
  import E = Encoding
  import D = Decoding

  // ---- APDU ----

  /** The payload is the one of the APDU's type and service, a Who-Is, an I-Am or plain octets, and survives. */
  predicate PayloadFaithful(a: Apdu) {
    if a.dataType == 0x10 && a.serviceType == 8 then
      a.payload.WhoIsPayload? && (a.payload.whoIs.low.Some? <==> a.payload.whoIs.high.Some?)
    else if a.dataType == 0x10 && a.serviceType == 0 then a.payload.IamPayload? && IsObjectID(a.payload.iam.objectID)
    else a.payload.DataPayload?
  }

  predicate ApduFaithful(a: Apdu) {
    a.dataType != CONFIRMED_SERVICE_REQUEST && !IsReply(a.dataType) && PayloadFaithful(a)
  }

  /** The invoke id of an unconfirmed APDU is not sent. */
  function NormalApdu(a: Apdu): Apdu {
    a.(invokeID := 0)
  }

  lemma PayloadRoundTrip(a: Apdu)
    requires !IsReply(a.dataType) && EncodePayload(a.payload).Encoded?
    ensures (DecodePayload(Selected(a.dataType, a.serviceType), EncodePayload(a.payload).bytes) == (a.payload, None))
            <==> PayloadFaithful(a)
  {
    match a.payload {
      case WhoIsPayload(w) => WhoIsRoundTrip(w);
      case IamPayload(i) =>
        IamRoundTrip(i, []);
        assert EncodeIam(i).bytes + [] == EncodeIam(i).bytes;
      case _ =>
    }
  }

  lemma OtherPayloadsDecode(dataType: byte, service: byte, body: seq<byte>)
    requires IsReply(dataType) && service == 0
    ensures var p := DecodePayload(Selected(dataType, service), body).0;
            p == DataPayload(body) || p.ErrorPayload?
  {
  }

  /** The three leading octets of a reply. */
  lemma ReplyDecodes(dataType: byte, id: byte, service: byte, body: seq<byte>)
    requires IsReply(dataType)
    ensures var (p, e) := DecodePayload(Selected(dataType, service), body);
            DecodeApdu(NEW_APDU, [dataType, id, service] + body) == (Apdu(dataType, service, p, id), e)
  {
    assert ([dataType, id, service] + body)[3..] == body;
  }

  /** A reply is written without an invoke id, so its reader takes the service for one. */
  lemma ReplyIsLost(a: Apdu)
    requires IsReply(a.dataType) && EncodeApdu(a).Encoded?
    ensures DecodeApdu(NEW_APDU, EncodeApdu(a).bytes) != (NormalApdu(a), None)
  {
    var data, bs := EncodeApdu(a).bytes, EncodePayload(a.payload).bytes;
    assert data[2..] == bs;
    if bs != [] {
      var id, service, body := data[1], data[2], data[3..];
      assert data == [a.dataType, id, service] + body;
      ReplyDecodes(a.dataType, id, service, body);
      if id == 0 == service {
        OtherPayloadsDecode(a.dataType, service, body);
      }
    }
  }

  /** An APDU the client can encode comes back exactly when it is neither a confirmed request nor a
      reply and its payload is the one its service selects and survives. The other two never do: only
      a device decodes the octets before a request's service and writes a reply's invoke id. */
  lemma ApduRoundTrip(a: Apdu)
    requires EncodeApdu(a).Encoded?
    ensures (DecodeApdu(NEW_APDU, EncodeApdu(a).bytes) == (NormalApdu(a), None)) <==> ApduFaithful(a)
  {
    var data, bs := EncodeApdu(a).bytes, EncodePayload(a.payload).bytes;
    if a.dataType == CONFIRMED_SERVICE_REQUEST {
      assert data[2..] == [a.invokeID, a.serviceType] + bs;
    } else if IsReply(a.dataType) {
      ReplyIsLost(a);
    } else {
      assert data[2..] == bs;
      PayloadRoundTrip(a);
    }
  }

  lemma ReadBodyDecodes(id: byte, body: seq<byte>, r: ReadProperty)
    requires DecodeReadProperty(NEW_READ_PROPERTY, body) == (r, None)
    ensures DecodeApdu(NEW_APDU, [COMPLEX_ACK, id, SERVICE_CONFIRMED_READ_PROPERTY] + body)
         == (Apdu(COMPLEX_ACK, SERVICE_CONFIRMED_READ_PROPERTY, ReadPayload(r), id), None)
  {
    ReplyDecodes(COMPLEX_ACK, id, SERVICE_CONFIRMED_READ_PROPERTY, body);
  }

  lemma ErrorBodyDecodes(id: byte, service: byte, body: seq<byte>, x: ApduError)
    requires DecodeApduError(NEW_ERROR, body) == (x, None)
    ensures DecodeApdu(NEW_APDU, [ERROR, id, service] + body) == (Apdu(ERROR, service, ErrorPayload(x), id), None)
  {
    ReplyDecodes(ERROR, id, service, body);
  }

  /** A device's complex acknowledgement of a ReadProperty decodes to its invoke id and the reply. */
  lemma ReadAckDecodes(id: byte, o: ObjectID, p: PropertyID, v: Value, rest: seq<byte>)
    requires IsObjectID(o) && E.AppData(v).err.None? && Survives(v)
    ensures DecodeApdu(NEW_APDU, [COMPLEX_ACK, id, SERVICE_CONFIRMED_READ_PROPERTY] + (ReplyBytes(o, p, v) + rest))
         == (Apdu(COMPLEX_ACK, SERVICE_CONFIRMED_READ_PROPERTY, ReadPayload(ReadProperty(o, p, Generic(v))), id), None)
  {
    ObjectIDRoundTrip(o);
    LeadEncodes(o, p);
    ReadPropertyReplyRoundTrip(o, p, v, rest);
    ReadBodyDecodes(id, ReplyBytes(o, p, v) + rest, ReadProperty(o, p, Generic(v)));
  }

  ghost function ErrorBytes(class_: uint16, code: uint32): seq<byte> {
    E.ContextTypeEnumerated(TYPE_ENUMERATED, class_).bytes + E.ContextTypeEnumerated(TYPE_ENUMERATED, code).bytes
  }

  lemma EnumeratedStored(d: D.Dec, u: uint32, rest: seq<byte>, k: Kind, cur: Value, v: Value)
    requires At(d, E.ContextTypeEnumerated(TYPE_ENUMERATED, u).bytes + rest)
    requires D.StoreEnumerated(u, k, cur) == (None, v)
    ensures At(D.AppData(d, k, cur).0, rest) && D.AppData(d, k, cur).1 == v
  {
    EnumeratedReads(d, u, rest, k, cur);
  }

  /** A class or code that fits its type is stored whole. */
  lemma NamesStore(class_: uint16, code: uint32)
    ensures D.StoreEnumerated(class_, KClass, Class(0)) == (None, Class(class_))
    ensures D.StoreEnumerated(code, KCode, Code(0)) == (None, Code(code))
  {
  }

  lemma ClassReads(d: D.Dec, class_: uint16, rest: seq<byte>)
    requires At(d, E.ContextTypeEnumerated(TYPE_ENUMERATED, class_).bytes + rest)
    ensures At(ReadClass(d, 0).0, rest) && ReadClass(d, 0).1 == class_
  {
    NamesStore(class_, 0);
    EnumeratedStored(d, class_, rest, KClass, Class(0), Class(class_));
  }

  lemma CodeReads(d: D.Dec, code: uint32, rest: seq<byte>)
    requires At(d, E.ContextTypeEnumerated(TYPE_ENUMERATED, code).bytes + rest)
    ensures At(ReadCode(d, 0).0, rest) && ReadCode(d, 0).1 == code
  {
    NamesStore(0, code);
    EnumeratedStored(d, code, rest, KCode, Code(0), Code(code));
  }

  lemma ErrorBytesDecode(class_: uint16, code: uint32, rest: seq<byte>)
    ensures DecodeApduError(NEW_ERROR, ErrorBytes(class_, code) + rest) == (ApduError(class_, code), None)
  {
    var a, b := E.ContextTypeEnumerated(TYPE_ENUMERATED, class_).bytes, E.ContextTypeEnumerated(TYPE_ENUMERATED, code).bytes;
    E.Assoc(a, b, rest);
    var d := Start(ErrorBytes(class_, code) + rest);
    ClassReads(d, class_, b + rest);
    CodeReads(ReadClass(d, 0).0, code, rest);
  }

  /** A device's error reply decodes to its invoke id, class and code. */
  lemma ErrorReplyDecodes(id: byte, service: byte, class_: uint16, code: uint32, rest: seq<byte>)
    ensures DecodeApdu(NEW_APDU, [ERROR, id, service] + (ErrorBytes(class_, code) + rest))
         == (Apdu(ERROR, service, ErrorPayload(ApduError(class_, code)), id), None)
  {
    ErrorBytesDecode(class_, code, rest);
    ErrorBodyDecodes(id, service, ErrorBytes(class_, code) + rest, ApduError(class_, code));
  }

  // ---- NPDU ----

  function NormalAddress(a: Option<Address>): Option<Address> {
    if IsRemote(a) then Some(Address([], a.value.net, a.value.adr)) else None
  }

  /** What is left of an NPDU on the other side: local addresses and MACs are not sent, and the
      hop count, message type and vendor id only when they apply. */
  function NormalNpdu(n: Npdu): Npdu {
    n.(destination := NormalAddress(n.destination),
       source := NormalAddress(n.source),
       hopCount := if IsRemote(n.destination) then n.hopCount else 0,
       networkMessageType := if n.isNetworkMessage then n.networkMessageType else 0,
       vendorID := if n.isNetworkMessage && n.networkMessageType >= 0x80 then n.vendorID else 0,
       apdu := if n.apdu.Some? then Some(NormalApdu(n.apdu.value)) else None)
  }

  predicate Fits(a: Option<Address>) {
    IsRemote(a) ==> |a.value.adr| <= 0xFF
  }

  predicate HeaderFits(n: Npdu) {
    && n.version == VERSION_1
    && Fits(n.destination) && Fits(n.source)
    && (n.isNetworkMessage && n.networkMessageType == 0x80 ==> n.vendorID == 0)
  }

  /** The NPDU's own fields are ones the decoder can give back. The vendor id of message type 0x80
      is written but not read. */
  predicate Framed(n: Npdu) {
    HeaderFits(n) && (n.isNetworkMessage <==> n.apdu.None?)
  }

  predicate NpduFaithful(n: Npdu) {
    Framed(n) && (n.apdu.Some? ==> ApduFaithful(n.apdu.value))
  }

  lemma AddressReads(a: Option<Address>, rest: seq<byte>)
    requires IsRemote(a) && Fits(a)
    ensures ReadAddress(AddressBytes(a) + rest) == AddressRead(NormalAddress(a).value, rest, None)
  {
    var s := AddressBytes(a) + rest;
    assert s == Be16(a.value.net) + ([|a.value.adr|] + a.value.adr + rest);
    ReadBe16(a.value.net, [|a.value.adr|] + a.value.adr + rest);
    assert s[2] == |a.value.adr| && s[3..] == a.value.adr + rest;
    assert s[3..3 + |a.value.adr|] == a.value.adr && s[3 + |a.value.adr|..] == rest;
  }

  /** The part of the decoding below the addresses. */
  lemma TailReads(m: Npdu, n: Npdu, bs: seq<byte>)
    requires HeaderFits(n) && (n.isNetworkMessage ==> bs == [])
    requires m.isNetworkMessage == n.isNetworkMessage && m.destination == NormalAddress(n.destination)
    requires m.hopCount == 0 && m.networkMessageType == 0 && m.vendorID == 0
    ensures var (m', e) := DecodeTail(m, HopBytes(n) + (MessageBytes(n) + bs));
            var f := NormalNpdu(n);
            var m1 := m.(hopCount := f.hopCount, networkMessageType := f.networkMessageType, vendorID := f.vendorID);
            if n.isNetworkMessage then (m', e) == (m1, None)
            else (m', e) == (m1.(apdu := Some(DecodeApdu(NEW_APDU, bs).0)), DecodeApdu(NEW_APDU, bs).1)
  {
    var s := MessageBytes(n) + bs;
    if IsRemote(n.destination) {
      assert (HopBytes(n) + s)[1..] == s;
    } else {
      assert HopBytes(n) + s == s;
    }
    if n.isNetworkMessage && n.networkMessageType > 0x80 {
      assert s[1..] == Be16(n.vendorID) + [];
      ReadBe16(n.vendorID, []);
    } else if !n.isNetworkMessage {
      assert s == bs;
    }
  }

  lemma SourceReads(m: Npdu, n: Npdu, tail: seq<byte>)
    requires Fits(n.source) && m.source == None && n.priority <= 3
    ensures DecodeSource(m, Control(n), AddressBytes(n.source) + tail)
         == DecodeTail(m.(source := NormalAddress(n.source)), tail)
  {
    ControlBits(n);
    if IsRemote(n.source) {
      AddressReads(n.source, tail);
    } else {
      assert AddressBytes(n.source) + tail == tail;
    }
  }

  lemma DestinationReads(m: Npdu, n: Npdu, tail: seq<byte>)
    requires Fits(n.destination) && m.destination == None && n.priority <= 3
    ensures DecodeDestination(m, Control(n), AddressBytes(n.destination) + tail)
         == DecodeSource(m.(destination := NormalAddress(n.destination)), Control(n), tail)
  {
    ControlBits(n);
    if IsRemote(n.destination) {
      AddressReads(n.destination, tail);
    } else {
      assert AddressBytes(n.destination) + tail == tail;
    }
  }

  lemma HeadReads(n: Npdu, s: seq<byte>)
    requires n.version == VERSION_1 && n.priority <= 3
    ensures DecodeNpdu(NEW_NPDU, [n.version, Control(n)] + s)
         == DecodeDestination(NEW_NPDU.(version := 1, isNetworkMessage := n.isNetworkMessage,
                                        expectingReply := n.expectingReply, priority := n.priority), Control(n), s)
  {
    ControlBits(n);
    assert ([n.version, Control(n)] + s)[2..] == s;
  }

  lemma Regroup(a: seq<byte>, b: seq<byte>, c: seq<byte>, d: seq<byte>, e: seq<byte>, f: seq<byte>)
    ensures a + (b + c + d) + e + f == a + (b + (c + (d + (e + f))))
  {
    E.Assoc(a + (b + c + d), e, f);
    E.Assoc(a, b + c + d, e + f);
    E.Assoc(b + c, d, e + f);
    E.Assoc(b, c, d + (e + f));
  }

  /** A header in front of some octets, piece by piece. */
  lemma HeaderSplits(n: Npdu, rest: seq<byte>)
    requires n.priority <= 3
    ensures NpduHeader(n) + rest == [n.version, Control(n)] +
            (AddressBytes(n.destination) + (AddressBytes(n.source) + (HopBytes(n) + (MessageBytes(n) + rest))))
  {
    Regroup([n.version, Control(n)], AddressBytes(n.destination), AddressBytes(n.source), HopBytes(n), MessageBytes(n), rest);
  }

  /** A fitting header decodes to its normal form around whatever the octets after it decode to. */
  lemma HeaderDecodes(n: Npdu, bs: seq<byte>)
    requires HeaderFits(n) && n.priority <= 3 && (n.isNetworkMessage ==> bs == [])
    ensures var (n', e) := DecodeNpdu(NEW_NPDU, NpduHeader(n) + bs);
            var (a, err) := DecodeApdu(NEW_APDU, bs);
            (n', e) == if n.isNetworkMessage then (NormalNpdu(n).(apdu := None), None)
                       else (NormalNpdu(n).(apdu := Some(a)), err)
  {
    var tail := HopBytes(n) + (MessageBytes(n) + bs);
    HeaderSplits(n, bs);
    HeadReads(n, AddressBytes(n.destination) + (AddressBytes(n.source) + tail));
    var m0 := NEW_NPDU.(version := 1, isNetworkMessage := n.isNetworkMessage, expectingReply := n.expectingReply,
                        priority := n.priority);
    var m1 := m0.(destination := NormalAddress(n.destination));
    DestinationReads(m0, n, AddressBytes(n.source) + tail);
    SourceReads(m1, n, tail);
    TailReads(m1.(source := NormalAddress(n.source)), n, bs);
  }

  lemma TailIsFramed(m: Npdu, s: seq<byte>)
    requires m.version == 1 && Fits(m.destination) && Fits(m.source) && m.vendorID == 0 && m.apdu == None
    ensures var (n, e) := DecodeTail(m, s);
            e.None? ==> Framed(n)
  {
  }

  lemma SourceIsFramed(m: Npdu, control: byte, s: seq<byte>)
    requires m.version == 1 && Fits(m.destination) && m.source == None && m.vendorID == 0 && m.apdu == None
    ensures var (n, e) := DecodeSource(m, control, s);
            e.None? ==> Framed(n)
  {
    var r := ReadAddress(s);
    TailIsFramed(m, s);
    TailIsFramed(m.(source := Some(r.address)), r.rest);
  }

  /** Whatever the octets, an NPDU decoded without error into a new receiver is framed. */
  lemma DecodedIsFramed(data: seq<byte>)
    requires DecodeNpdu(NEW_NPDU, data).1.None?
    ensures Framed(DecodeNpdu(NEW_NPDU, data).0)
  {
    var c, s := data[1], data[2..];
    var m := NEW_NPDU.(version := data[0], isNetworkMessage := Bit(c, 0x80), expectingReply := Bit(c, 4), priority := c % 4);
    var r := ReadAddress(s);
    SourceIsFramed(m, c, s);
    SourceIsFramed(m.(destination := Some(r.address)), c, r.rest);
  }

  /** An NPDU the client can encode decodes to its normal form exactly when its fields fit and its
      APDU comes back. */
  lemma NpduRoundTrip(n: Npdu)
    requires EncodeNpdu(n).Encoded?
    ensures (DecodeNpdu(NEW_NPDU, EncodeNpdu(n).bytes) == (NormalNpdu(n), None)) <==> NpduFaithful(n)
  {
    var data := EncodeNpdu(n).bytes;
    if Framed(n) {
      HeaderDecodes(n, ApduBytes(n).bytes);
      if n.apdu.Some? {
        ApduRoundTrip(n.apdu.value);
      }
    } else if DecodeNpdu(NEW_NPDU, data) == (NormalNpdu(n), None) {
      DecodedIsFramed(data);
    }
  }

  /** Normalising changes nothing that is sent, so decoding and encoding again repeats the octets. */
  lemma NormalFormEncodesAlike(n: Npdu)
    requires n.apdu.Some? ==> n.apdu.value.dataType != CONFIRMED_SERVICE_REQUEST
    ensures EncodeNpdu(NormalNpdu(n)) == EncodeNpdu(n)
  {
    assert AddressBytes(NormalAddress(n.destination)) == AddressBytes(n.destination);
    assert AddressBytes(NormalAddress(n.source)) == AddressBytes(n.source);
  }

  // ---- BVLC ----

  /** The length field is the octet count of the frame exactly up to the width of the field. */
  lemma LengthFieldCounts(b: Bvlc)
    requires EncodeBvlc(b).Encoded?
    ensures |EncodeBvlc(b).bytes| >= 4
    ensures ReadBe(EncodeBvlc(b).bytes[2..], 2) == |EncodeBvlc(b).bytes| <==> |EncodeBvlc(b).bytes| <= 0xFFFF
  {
    var data, bs := EncodeBvlc(b).bytes, EncodeNpdu(b.npdu).bytes;
    var length := (4 + |bs|) % 0x1_0000;
    assert data[2..] == Be16(length) + bs;
    ReadBe16(length, bs);
  }

  /** Through all five layers: a frame the client can encode decodes without error to its
      normal form exactly when it is BACnet/IP, at most 65535 octets long, and its NPDU comes back. */
  lemma FrameRoundTrip(b: Bvlc)
    requires EncodeBvlc(b).Encoded?
    ensures (DecodeBvlc(NEW_BVLC, EncodeBvlc(b).bytes) == (b.(npdu := NormalNpdu(b.npdu)), None)) <==>
            (b.typ == TYPE_BACNET_IP && |EncodeBvlc(b).bytes| <= 0xFFFF && NpduFaithful(b.npdu))
  {
    var data, bs := EncodeBvlc(b).bytes, EncodeNpdu(b.npdu).bytes;
    LengthFieldCounts(b);
    assert data[4..] == bs;
    NpduRoundTrip(b.npdu);
  }

  /** A frame a device sends: the BVLC header, an NPDU header and APDU octets of its own. */
  function DeviceFrame(function_: byte, n: Npdu, apdu: seq<byte>): seq<byte>
    requires n.priority <= 3
  {
    [TYPE_BACNET_IP, function_] + Be16((4 + |NpduHeader(n) + apdu|) % 0x1_0000) + (NpduHeader(n) + apdu)
  }

  /** An NPDU header that can be put around an APDU. */
  predicate Envelops(n: Npdu) {
    HeaderFits(n) && n.priority <= 3 && !n.isNetworkMessage
  }

  lemma FrameOpens(function_: byte, body: seq<byte>)
    requires 4 + |body| <= 0xFFFF
    ensures var (n, e) := DecodeNpdu(NEW_NPDU, body);
            DecodeBvlc(NEW_BVLC, [TYPE_BACNET_IP, function_] + Be16(4 + |body|) + body) == (Bvlc(TYPE_BACNET_IP, function_, n), e)
  {
    var data := [TYPE_BACNET_IP, function_] + Be16(4 + |body|) + body;
    assert data[2..] == Be16(4 + |body|) + body && data[4..] == body;
    ReadBe16(4 + |body|, body);
  }

  lemma DeviceFrameDecodes(function_: byte, n: Npdu, apdu: seq<byte>)
    requires HeaderFits(n) && n.priority <= 3 && !n.isNetworkMessage && |DeviceFrame(function_, n, apdu)| <= 0xFFFF
    ensures var (a, err) := DecodeApdu(NEW_APDU, apdu);
            DecodeBvlc(NEW_BVLC, DeviceFrame(function_, n, apdu))
            == (Bvlc(TYPE_BACNET_IP, function_, NormalNpdu(n).(apdu := Some(a))), err)
  {
    FrameOpens(function_, NpduHeader(n) + apdu);
    HeaderDecodes(n, apdu);
  }

  // ---- where the APDU is ----

  /** Behind an address: two octets of network, one of length, and that many more. */
  function AfterAddress(s: seq<byte>): Option<seq<byte>> {
    if |s| < 3 || |s| < 3 + s[2] as int then None else Some(s[3 + s[2] as int..])
  }

  function AfterSource(control: byte, s: seq<byte>): Option<seq<byte>> {
    var s' := if Bit(control, 8) then AfterAddress(s) else Some(s);
    if s'.None? || !Bit(control, 0x20) then s'
    else if s'.value == [] then None
    else Some(s'.value[1..])
  }

  function AfterDestination(control: byte, s: seq<byte>): Option<seq<byte>> {
    var s' := if Bit(control, 0x20) then AfterAddress(s) else Some(s);
    if s'.None? then None else AfterSource(control, s'.value)
  }

  /** The octets of a frame's APDU: behind its BVLC and NPDU headers, if these are complete and no network
      message. */
  function ApduOctets(frame: seq<byte>): Option<seq<byte>> {
    if |frame| < 6 || frame[0] != TYPE_BACNET_IP || ReadBe(frame[2..], 2) != |frame| || frame[4] != VERSION_1 ||
       Bit(frame[5], 0x80) then None
    else AfterDestination(frame[5], frame[6..])
  }

  /** `apdu` and `err` are what the octets decode to, if there are any. */
  ghost predicate DecodesFrom(apdu: Option<Apdu>, err: Option<Error>, octets: Option<seq<byte>>) {
    match octets
    case None => apdu.None? && err != Some(Panicked) && err != Some(NotBacnetIP)
    case Some(data) => apdu == Some(DecodeApdu(NEW_APDU, data).0) && err == DecodeApdu(NEW_APDU, data).1
  }

  lemma SourceOctets(n: Npdu, c: byte, s: seq<byte>)
    requires n.apdu.None? && !n.isNetworkMessage && n.destination.Some? == Bit(c, 0x20)
    ensures DecodesFrom(DecodeSource(n, c, s).0.apdu, DecodeSource(n, c, s).1, AfterSource(c, s))
  {
  }

  lemma DestinationOctets(n: Npdu, c: byte, s: seq<byte>)
    requires n.apdu.None? && !n.isNetworkMessage && n.destination.None?
    ensures DecodesFrom(DecodeDestination(n, c, s).0.apdu, DecodeDestination(n, c, s).1, AfterDestination(c, s))
  {
    if Bit(c, 0x20) {
      SourceOctets(n.(destination := Some(ReadAddress(s).address)), c, ReadAddress(s).rest);
    } else {
      SourceOctets(n, c, s);
    }
  }

  lemma MessageTailHasNone(n: Npdu, s: seq<byte>)
    requires n.apdu.None? && n.isNetworkMessage
    ensures DecodesFrom(DecodeTail(n, s).0.apdu, DecodeTail(n, s).1, None)
  {
  }

  lemma MessageSourceHasNone(n: Npdu, c: byte, s: seq<byte>)
    requires n.apdu.None? && n.isNetworkMessage
    ensures DecodesFrom(DecodeSource(n, c, s).0.apdu, DecodeSource(n, c, s).1, None)
  {
    MessageTailHasNone(n, s);
    MessageTailHasNone(n.(source := Some(ReadAddress(s).address)), ReadAddress(s).rest);
  }

  lemma NetworkMessageHasNone(n: Npdu, c: byte, s: seq<byte>)
    requires n.apdu.None? && n.isNetworkMessage
    ensures DecodesFrom(DecodeDestination(n, c, s).0.apdu, DecodeDestination(n, c, s).1, None)
  {
    MessageSourceHasNone(n, c, s);
    MessageSourceHasNone(n.(destination := Some(ReadAddress(s).address)), c, ReadAddress(s).rest);
  }

  /** A frame has an APDU exactly when it has those octets, and it is what they decode to, with the
      error of the frame. Only a foreign first octet makes it foreign. */
  lemma ApduComesFromOctets(frame: seq<byte>)
    ensures var (b, e) := DecodeBvlc(NEW_BVLC, frame);
            if frame != [] && frame[0] != 0x81 then b.npdu.apdu.None? && e == Some(NotBacnetIP) && ApduOctets(frame).None?
            else DecodesFrom(b.npdu.apdu, e, ApduOctets(frame))
  {
    if |frame| >= 6 {
      var c, s := frame[5], frame[6..];
      var n := NEW_NPDU.(version := VERSION_1, isNetworkMessage := Bit(c, 0x80), expectingReply := Bit(c, 4), priority := c % 4);
      assert frame[4..][2..] == s;
      if Bit(c, 0x80) {
        NetworkMessageHasNone(n, c, s);
      } else {
        DestinationOctets(n, c, s);
      }
    }
  }

  lemma AfterAddressBytes(a: Option<Address>, rest: seq<byte>)
    requires IsRemote(a) && Fits(a)
    ensures AfterAddress(AddressBytes(a) + rest) == Some(rest)
  {
    AddressReads(a, rest);
  }

  lemma AfterSourceBytes(n: Npdu, apdu: seq<byte>)
    requires Envelops(n)
    ensures AfterSource(Control(n), AddressBytes(n.source) + (HopBytes(n) + apdu)) == Some(apdu)
  {
    ControlBits(n);
    if IsRemote(n.source) {
      AfterAddressBytes(n.source, HopBytes(n) + apdu);
    } else {
      assert AddressBytes(n.source) + (HopBytes(n) + apdu) == HopBytes(n) + apdu;
    }
    if IsRemote(n.destination) {
      assert (HopBytes(n) + apdu)[1..] == apdu;
    } else {
      assert HopBytes(n) + apdu == apdu;
    }
  }

  lemma OctetsBehindHeader(function_: byte, body: seq<byte>)
    requires 4 + |body| <= 0xFFFF && |body| >= 2 && body[0] == VERSION_1 && !Bit(body[1], 0x80)
    ensures ApduOctets([TYPE_BACNET_IP, function_] + Be16(4 + |body|) + body) == AfterDestination(body[1], body[2..])
  {
    var frame := [TYPE_BACNET_IP, function_] + Be16(4 + |body|) + body;
    assert frame[2..] == Be16(4 + |body|) + body && frame[4..] == body;
    assert frame[6..] == body[2..] && frame[4] == body[0] && frame[5] == body[1];
    ReadBe16(4 + |body|, body);
  }

  lemma AfterDestinationBytes(n: Npdu, apdu: seq<byte>)
    requires Envelops(n)
    ensures AfterDestination(Control(n), AddressBytes(n.destination) + (AddressBytes(n.source) + (HopBytes(n) + apdu))) == Some(apdu)
  {
    var tail := AddressBytes(n.source) + (HopBytes(n) + apdu);
    ControlBits(n);
    AfterSourceBytes(n, apdu);
    if IsRemote(n.destination) {
      AfterAddressBytes(n.destination, tail);
    } else {
      assert AddressBytes(n.destination) + tail == tail;
    }
  }

  lemma HeaderBehindControl(n: Npdu, apdu: seq<byte>)
    requires Envelops(n)
    ensures var body := NpduHeader(n) + apdu;
            && |body| >= 2 && body[0] == VERSION_1 && body[1] == Control(n)
            && body[2..] == AddressBytes(n.destination) + (AddressBytes(n.source) + (HopBytes(n) + apdu))
  {
    HeaderSplits(n, apdu);
    assert MessageBytes(n) + apdu == apdu;
  }

  /** In a frame built around some octets, they are those of its APDU. */
  lemma DeviceFrameOctets(function_: byte, n: Npdu, apdu: seq<byte>)
    requires Envelops(n) && |DeviceFrame(function_, n, apdu)| <= 0xFFFF
    ensures ApduOctets(DeviceFrame(function_, n, apdu)) == Some(apdu)
  {
    HeaderBehindControl(n, apdu);
    ControlBits(n);
    OctetsBehindHeader(function_, NpduHeader(n) + apdu);
    AfterDestinationBytes(n, apdu);
  }
}
