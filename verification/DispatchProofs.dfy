/** What the octets of a single datagram decide: whether its handler survives it, and what calls and a
    Who-Is make of it, cleanly decoded or not. */
module DispatchProofs {
  import opened Bytes
  import opened Errors
  import opened Objects
  import opened Services
  import opened Network
  import opened NetworkProofs
  import opened ServiceProofs
  import opened ReplyProofs
  import opened CodecProofs
  import opened TransactionTable
  import opened Protocol
  import opened Client

  // ---- what a reply's octets say ----

  /** The invoke id a reply is taken to carry: one of a single octet carries none, and counts as zero. */
  function ReplyId(data: seq<byte>): byte
    requires data != []
  {
    if |data| >= 2 then data[1] else 0
  }

  /** That is the id its transaction is looked up under. */
  lemma ReplyIdIs(data: seq<byte>)
    ensures var a := DecodeApdu(NEW_APDU, data).0;
            && (IsReply(a.dataType) <==> data != [] && IsReply(data[0]))
            && (IsReply(a.dataType) ==> a.dataType == data[0] && a.invokeID == ReplyId(data))
  {
  }

  /** Where the service octet is: replies have an invoke id in front of it. */
  function ServiceAt(data: seq<byte>): nat
    requires data != []
  {
    if IsReply(data[0]) then 2 else 1
  }

  predicate BodyPanics(dataType: byte, service: byte, body: seq<byte>) {
    if dataType == ERROR then FillPanics(body, ERROR_FIELDS)
    else if dataType == COMPLEX_ACK && service == SERVICE_CONFIRMED_READ_PROPERTY then ReplyPanics(body)
    else dataType == UNCONFIRMED_SERVICE_REQUEST && service == SERVICE_UNCONFIRMED_I_AM && FillPanics(body, IAM_FIELDS)
  }

  /** The APDUs whose decoding panics: an Error or an I-Am with a boolean, or an unsigned in place of a
      named integer; and anywhere a value can stand, a string without room for its encoding octet. */
  predicate HandlerPanics(data: seq<byte>) {
    data != [] && |data| > ServiceAt(data) && BodyPanics(data[0], data[ServiceAt(data)], data[ServiceAt(data) + 1..])
  }

  predicate BodyFits(dataType: byte, service: byte, body: seq<byte>) {
    match Selected(dataType, service)
    case ErrorPayload(_) => Fill(body, ERROR_FIELDS)
    case ReadPayload(_) => WellFormed(body)
    case IamPayload(_) => Fill(body, IAM_FIELDS)
    case _ => true
  }

  /** A payload keeps its kind, and is decoded without error exactly when its octets fit; a Who-Is aside. */
  lemma BodyDecodes(dataType: byte, service: byte, body: seq<byte>)
    ensures var s, (p, e) := Selected(dataType, service), DecodePayload(Selected(dataType, service), body);
            && p.ErrorPayload? == s.ErrorPayload? && p.ReadPayload? == s.ReadPayload? && p.IamPayload? == s.IamPayload?
            && (s.WhoIsPayload? || (e.None? <==> BodyFits(dataType, service, body)))
  {
    match Selected(dataType, service) {
      case ErrorPayload(_) => ErrorAcceptedIff(body);
      case ReadPayload(_) => ReplyAcceptedIff(body);
      case IamPayload(_) => IamAcceptedIff(body);
      case _ =>
    }
  }

  lemma BodyPanicsIff(dataType: byte, service: byte, body: seq<byte>)
    ensures var e := DecodePayload(Selected(dataType, service), body).1;
            (e == Some(Panicked) <==> BodyPanics(dataType, service, body)) && e != Some(NotBacnetIP)
  {
    match Selected(dataType, service) {
      case ErrorPayload(_) => ErrorAcceptedIff(body);
      case ReadPayload(_) => ReplyAcceptedIff(body);
      case IamPayload(_) => IamAcceptedIff(body);
      case WhoIsPayload(_) => WhoIsIsTame(body);
      case DataPayload(_) =>
    }
  }

  /** A complete header is followed by the payload it selects; without one there is no payload. */
  lemma ApduIsHeaderAndBody(data: seq<byte>)
    requires data != []
    ensures var n, id := ServiceAt(data), if IsReply(data[0]) then ReplyId(data) else 0;
            DecodeApdu(NEW_APDU, data) ==
            if |data| <= n then (Apdu(data[0], 0, NoPayload, id), Some(EndOfBuffer))
            else
              var (p, e) := DecodePayload(Selected(data[0], data[n]), data[n + 1..]);
              (Apdu(data[0], data[n], p, id), e)
  {
  }

  /** Decoding an APDU panics exactly when its octets say so. */
  lemma HandlerPanicsIff(data: seq<byte>)
    ensures DecodeApdu(NEW_APDU, data).1 == Some(Panicked) <==> HandlerPanics(data)
    ensures DecodeApdu(NEW_APDU, data).1 != Some(NotBacnetIP)
  {
    if data != [] {
      var n := ServiceAt(data);
      ApduIsHeaderAndBody(data);
      if |data| > n {
        BodyPanicsIff(data[0], data[n], data[n + 1..]);
      }
    }
  }

  /** So for every datagram and whatever the state: its handler panics exactly when it holds such an APDU. */
  lemma CrashIff(s: Shared, frame: seq<byte>)
    ensures DispatchOf(s, frame) == Crashed <==> ApduOctets(frame).Some? && HandlerPanics(ApduOctets(frame).value)
    ensures DispatchOf(s, frame) == Crashed ==> ReplyIn(frame) == None && NotifiedOf(frame) == None
  {
    ApduComesFromOctets(frame);
    if ApduOctets(frame).Some? {
      HandlerPanicsIff(ApduOctets(frame).value);
    }
  }

  // ---- unchecked conversions ----

  /** The unchecked conversions of ReadProperty and WriteProperty fail on exactly the replies whose APDU
      stops before its service octet, because such an Error has no payload: decoding errors do not stop
      a reply from being delivered. */
  lemma ConversionPanicsIff(data: seq<byte>)
    ensures var a := DecodeApdu(NEW_APDU, data).0;
            && (ReadOutcome(a).CallPanics? <==> (1 <= |data| <= 2 && data[0] == ERROR))
            && (WriteOutcome(a).CallPanics? <==> (1 <= |data| <= 2 && data[0] == ERROR))
  {
  }

  /** ReadProperty returns a value for exactly the complete headers of its acknowledgement, but that
      value was decoded without error exactly when the rest is a well-formed reply. */
  lemma AnswerIsDecodedIff(data: seq<byte>)
    ensures var (a, e) := DecodeApdu(NEW_APDU, data);
            && (ReadOutcome(a).Answer? <==>
                  |data| >= 3 && data[0] == COMPLEX_ACK && data[2] == SERVICE_CONFIRMED_READ_PROPERTY)
            && (ReadOutcome(a).Answer? ==> (e.None? <==> WellFormed(data[3..])))
  {
    if data != [] {
      ApduIsHeaderAndBody(data);
      if |data| >= 3 {
        BodyDecodes(data[0], data[2], data[3..]);
      }
    }
  }

  /** Likewise for an error: both calls return a class and a code for exactly the complete headers, but
      they were decoded without error exactly when two values of those types follow. */
  lemma ErrorIsDecodedIff(data: seq<byte>)
    ensures var (a, e) := DecodeApdu(NEW_APDU, data);
            && (ReadOutcome(a).RemoteError? <==> |data| >= 3 && data[0] == ERROR)
            && (WriteOutcome(a).RemoteError? <==> |data| >= 3 && data[0] == ERROR)
            && (ReadOutcome(a).RemoteError? ==> (e.None? <==> Fill(data[3..], ERROR_FIELDS)))
  {
    if data != [] {
      ApduIsHeaderAndBody(data);
      if |data| >= 3 {
        BodyDecodes(data[0], data[2], data[3..]);
      }
    }
  }

  /** What the two calls make of a reply, for all its octets. A service octet that is missing is no service
      of theirs. */
  lemma OutcomesAre(data: seq<byte>)
    requires data != [] && (data[0] == 0x20 || data[0] == 0x30 || data[0] == 0x50)
    ensures var a := DecodeApdu(NEW_APDU, data).0;
            && ReadOutcome(a) == (if data[0] == 0x50 then
                                    if |data| < 3 then CallPanics else RemoteError(DecodeApduError(NEW_ERROR, data[3..]).0)
                                  else if data[0] == 0x30 && |data| >= 3 && data[2] == 12 then
                                    Answer(DecodeReadProperty(NEW_READ_PROPERTY, data[3..]).0.data)
                                  else InvalidAnswer)
            && WriteOutcome(a) == (if data[0] == 0x50 then
                                     if |data| < 3 then CallPanics else RemoteError(DecodeApduError(NEW_ERROR, data[3..]).0)
                                   else if data[0] == 0x20 && |data| >= 3 && data[2] == 15 then Written
                                   else InvalidAnswer)
  {
    ApduIsHeaderAndBody(data);
  }

  lemma ForeignIff(frame: seq<byte>)
    ensures DecodeBvlc(NEW_BVLC, frame).1 == Some(NotBacnetIP) <==> frame != [] && frame[0] != 0x81
  {
    ApduComesFromOctets(frame);
    if ApduOctets(frame).Some? {
      HandlerPanicsIff(ApduOctets(frame).value);
    }
  }

  /** What handleMessage makes of a datagram, for all its octets: foreign, fatal, without an APDU, no reply,
      or a reply that is offered to the entry under its invoke id, if there is one. */
  lemma DispatchIs(s: Shared, frame: seq<byte>)
    ensures var octets := ApduOctets(frame);
            && DispatchOf(s, frame) ==
               (if frame != [] && frame[0] != 0x81 then NotBacnet
                else if octets.None? then NetworkPacket
                else if HandlerPanics(octets.value) then Crashed
                else if octets.value == [] || (octets.value[0] != 0x20 && octets.value[0] != 0x30 && octets.value[0] != 0x50) then NotReply
                else if ReplyId(octets.value) !in s.currents then UnknownTransaction(ReplyId(octets.value))
                else Offer(DecodeApdu(NEW_APDU, octets.value).0, s.currents[ReplyId(octets.value)]))
            && NotifiedOf(frame).Some? == (octets.Some? && !HandlerPanics(octets.value))
  {
    ApduComesFromOctets(frame);
    ForeignIff(frame);
    if ApduOctets(frame).Some? {
      HandlerPanicsIff(ApduOctets(frame).value);
      ReplyIdIs(ApduOctets(frame).value);
    }
  }

  // ---- discovery ----

  /** Likewise for an I-Am: a Who-Is takes a device from exactly the complete headers, but it was decoded
      without error exactly when its four values follow. */
  lemma IamIsDecodedIff(data: seq<byte>, b: Bvlc, mac: seq<byte>)
    requires b.npdu.apdu == Some(DecodeApdu(NEW_APDU, data).0)
    ensures var e, m := DecodeApdu(NEW_APDU, data).1, Message(b, mac);
            && (IsIam(m) && !Mismatched(m) <==>
                  |data| >= 2 && data[0] == UNCONFIRMED_SERVICE_REQUEST && data[1] == SERVICE_UNCONFIRMED_I_AM)
            && (IsIam(m) && !Mismatched(m) ==> (e.None? <==> Fill(data[2..], IAM_FIELDS)))
  {
    if data != [] {
      ApduIsHeaderAndBody(data);
      if |data| >= 2 {
        BodyDecodes(data[0], data[1], data[2..]);
      }
    }
  }

  /** An APDU takes the Who-Is loop's type-mismatch exit exactly when it is the lone octet of an
      unconfirmed request: its missing service reads as I-Am, and no payload is selected. */
  lemma MismatchIff(data: seq<byte>, b: Bvlc, mac: seq<byte>)
    requires b.npdu.apdu == Some(DecodeApdu(NEW_APDU, data).0)
    ensures Mismatched(Message(b, mac)) <==> data == [UNCONFIRMED_SERVICE_REQUEST]
  {
    if data == [] {
      assert DecodeApdu(NEW_APDU, data).0 == NEW_APDU;
    } else {
      ApduIsHeaderAndBody(data);
    }
  }

  /** The frame holds the lone octet of an unconfirmed request. */
  predicate LoneRequest(frame: seq<byte>) {
    ApduOctets(frame) == Some([UNCONFIRMED_SERVICE_REQUEST])
  }

  lemma LoneRequestMismatches(frame: seq<byte>, mac: seq<byte>)
    ensures var (b, e) := DecodeBvlc(NEW_BVLC, frame);
            (Mismatched(Message(b, mac)) <==> LoneRequest(frame)) && (LoneRequest(frame) ==> NotifiedOf(frame) == Some(b) && e.Some?)
  {
    ApduComesFromOctets(frame);
    if ApduOctets(frame).Some? {
      MismatchIff(ApduOctets(frame).value, DecodeBvlc(NEW_BVLC, frame).0, mac);
      assert DecodeApdu(NEW_APDU, [UNCONFIRMED_SERVICE_REQUEST]).1 == Some(EndOfBuffer);
    }
  }

  /** So the exit is dead for frames that decode without error, and such an I-Am always carries an I-Am. */
  lemma DecodedIamIsIam(frame: seq<byte>, mac: seq<byte>)
    requires DecodeBvlc(NEW_BVLC, frame).1.None?
    ensures !Mismatched(Message(DecodeBvlc(NEW_BVLC, frame).0, mac))
  {
    LoneRequestMismatches(frame, mac);
  }

  /** But it is not dead for every frame that is delivered: seven octets are enough to end a Who-Is. */
  lemma TruncatedFrameMismatches(mac: seq<byte>)
    ensures var frame: seq<byte> := [TYPE_BACNET_IP, 11, 0, 7, VERSION_1, 0, UNCONFIRMED_SERVICE_REQUEST];
            var (b, e) := DecodeBvlc(NEW_BVLC, frame);
            e == Some(EndOfBuffer) && Mismatched(Message(b, mac))
  {
    var n := NEW_NPDU.(version := VERSION_1, apdu := Some(NEW_APDU));
    var data: seq<byte> := [UNCONFIRMED_SERVICE_REQUEST];
    assert NpduHeader(n) == [VERSION_1, 0];
    assert DeviceFrame(11, n, data) == [TYPE_BACNET_IP, 11, 0, 7, VERSION_1, 0, UNCONFIRMED_SERVICE_REQUEST];
    DeviceFrameDecodes(11, n, data);
    MismatchIff(data, DecodeBvlc(NEW_BVLC, DeviceFrame(11, n, data)).0, mac);
  }

  /** An I-Am cut off behind its service is a device to a Who-Is without limits: number 0 of type 0. */
  lemma TruncatedIamIsAccepted(w: WhoIs, function_: byte, n: Npdu, mac: seq<byte>)
    requires Envelops(n) && |DeviceFrame(function_, n, [UNCONFIRMED_SERVICE_REQUEST, SERVICE_UNCONFIRMED_I_AM])| <= 0xFFFF
    ensures var p := Packet(DeviceFrame(function_, n, [UNCONFIRMED_SERVICE_REQUEST, SERVICE_UNCONFIRMED_I_AM]), mac);
            && DecodeBvlc(NEW_BVLC, p.frame).1 == Some(EndOfBuffer)
            && HandedOver(p).Some? && (Accepted(w, HandedOver(p).value) <==> InRange(w, 0))
            && IsIam(HandedOver(p).value) && !Mismatched(HandedOver(p).value) && IamOf(HandedOver(p).value) == NEW_IAM
  {
    var data: seq<byte> := [UNCONFIRMED_SERVICE_REQUEST, SERVICE_UNCONFIRMED_I_AM];
    DeviceFrameDecodes(function_, n, data);
    ApduIsHeaderAndBody(data);
    assert data[2..] == [] && DecodeIam(NEW_IAM, []) == (NEW_IAM, Some(EndOfBuffer));
  }
}
