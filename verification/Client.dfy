/** The client (bacip/client.go) around the socket: what a datagram does, what a call sends and
    concludes, and what a Who-Is collects. */
module Client {
  import opened Bytes
  import opened Errors
  import opened Objects
  import opened Services
  import opened Network
  import opened TransactionTable
  import opened Protocol

  const BAC_FUNC_UNICAST: byte := 10
  const BAC_FUNC_BROADCAST: byte := 11

  // ---- handleMessage ----

  /** How far handleMessage gets: an Offer is the select on delivery or end of context. */
  datatype Dispatch =
    | NotBacnet
    | Crashed
    | NetworkPacket
    | NotReply
    | UnknownTransaction(id: byte)
    | Offer(apdu: Apdu, tx: Tx)

  function DispatchOf(s: Shared, frame: seq<byte>): Dispatch {
    var (b, e) := DecodeBvlc(NEW_BVLC, frame);
    if e == Some(NotBacnetIP) then NotBacnet
    else if e == Some(Panicked) then Crashed
    else if b.npdu.apdu.None? then NetworkPacket
    else
      var a := b.npdu.apdu.value;
      if !IsReply(a.dataType) then NotReply
      else match LookupTx(s, a.invokeID)
        case None => UnknownTransaction(a.invokeID)
        case Some(tx) => Offer(a, tx)
  }

  /** What the subscription, if there is one, is handed: every frame with an APDU, replies included,
      and whatever its decoding error unless it is foreign. */
  function NotifiedOf(frame: seq<byte>): Option<Bvlc> {
    var (b, e) := DecodeBvlc(NEW_BVLC, frame);
    if e == Some(NotBacnetIP) || e == Some(Panicked) || b.npdu.apdu.None? then None else Some(b)
  }

  method HandleMessage(t: Transactions, frame: seq<byte>, subscribed: bool) returns (d: Dispatch, notified: Option<Bvlc>)
    ensures d == DispatchOf(t.State(), frame)
    ensures notified == if subscribed then NotifiedOf(frame) else None
  {
    notified := None;
    var bvlc := new BvlcRef(NEW_BVLC);
    var err := bvlc.UnmarshalBinary(frame);
    if err == Some(NotBacnetIP) {
      return NotBacnet, None;
    }
    if err == Some(Panicked) {
      return Crashed, None;
    }
    if bvlc.npdu.apdu.None? {
      return NetworkPacket, None;
    }
    if subscribed {
      notified := Some(bvlc.Value());
    }
    var apdu := bvlc.npdu.apdu.value;
    if !IsReply(apdu.dataType) {
      d := NotReply;
      return;
    }
    var tx, ok := t.GetTransaction(apdu.invokeID);
    d := if ok then Offer(apdu, tx) else UnknownTransaction(apdu.invokeID);
  }

  /** The handler is the protocol's: an arrival and a lookup capture what it offers. */
  lemma HandlerStepsAgree(s: State, h: nat, frame: seq<byte>, a: Apdu, tx: Tx)
    requires h !in s.handlers
    ensures DispatchOf(s.shared, frame) == Offer(a, tx) <==>
              (Enabled(s, Arrive(h, frame, a)) &&
               var s' := Apply(s, Arrive(h, frame, a));
               Apply(s', Lookup(h)).handlers[h] == LookedUp(a, tx))
  {
  }

  // ---- ReadProperty and WriteProperty ----

  datatype Outcome =
    | Answer(v: Value)
    | Written
    | RemoteError(error: ApduError)
    | InvalidAnswer
    | CallPanics
    | SendFailed
    | Cancelled

  /** What ReadProperty makes of a delivered reply; its conversions are unchecked. */
  function ReadOutcome(a: Apdu): Outcome {
    if a.dataType == ERROR then if a.payload.ErrorPayload? then RemoteError(a.payload.error) else CallPanics
    else if a.dataType == COMPLEX_ACK && a.serviceType == SERVICE_CONFIRMED_READ_PROPERTY then
      if a.payload.ReadPayload? then Answer(a.payload.read.data) else CallPanics
    else InvalidAnswer
  }

  function WriteOutcome(a: Apdu): Outcome {
    if a.dataType == ERROR then if a.payload.ErrorPayload? then RemoteError(a.payload.error) else CallPanics
    else if a.dataType == SIMPLE_ACK && a.serviceType == SERVICE_CONFIRMED_WRITE_PROPERTY then Written
    else InvalidAnswer
  }

  function Request(id: byte, service: byte, payload: Payload, device: Address, self: Address): Bvlc {
    Bvlc(TYPE_BACNET_IP, BAC_FUNC_UNICAST,
         Npdu(VERSION_1, false, true, 0, Some(device), Some(self), 255, 0, 0,
              Some(Apdu(CONFIRMED_SERVICE_REQUEST, service, payload, id))))
  }

  /** One undisturbed call. The socket's success and what the select picks are given; every exit, a
      panic included, runs the two deferred calls, last in first out. The device's MAC must hold an IP address and a port. */
  method Call(t: Transactions, service: byte, payload: Payload, device: Address, self: Address,
              chan: nat, ctx: nat, socketOk: bool, reply: Option<Apdu>)
    returns (sent: Marshaled, outcome: Outcome)
    requires t.freeInvokeID != [] && |t.freeInvokeID| <= CAPACITY
    modifies t
    ensures var id := old(t.freeInvokeID)[0];
            && sent == EncodeBvlc(Request(id, service, payload, device, self))
            && t.State() == Shared(old(t.currents) - {id}, old(t.freeInvokeID)[1..] + [id])
            && outcome == if sent == Refused(Panicked) || (sent.Encoded? && |device.mac| < 6) then CallPanics
                          else if sent.Refused? || !socketOk then SendFailed
                          else if reply.None? then Cancelled
                          else if service == SERVICE_CONFIRMED_READ_PROPERTY then ReadOutcome(reply.value)
                          else WriteOutcome(reply.value)
  {
    var id := t.GetID();
    t.SetTransaction(id, chan, ctx);
    sent := MarshalBvlc(Request(id, service, payload, device, self));
    if sent == Refused(Panicked) || (sent.Encoded? && |device.mac| < 6) {
      outcome := CallPanics;
    } else if sent.Refused? || !socketOk {
      outcome := SendFailed;
    } else if reply.None? {
      outcome := Cancelled;
    } else if service == SERVICE_CONFIRMED_READ_PROPERTY {
      outcome := ReadOutcome(reply.value);
    } else {
      outcome := WriteOutcome(reply.value);
    }
    t.StopTransaction(id);
    t.FreeID(id);
  }

  // ---- WhoIs ----

  /** A frame as the subscription hands it over, with the sender's address in MAC form. */
  datatype Message = Message(bvlc: Bvlc, mac: seq<byte>)

  datatype Device = Device(id: ObjectID, maxApdu: uint32, segmentation: byte, vendor: uint32, addr: Address)

  predicate IsIam(m: Message) {
    m.bvlc.npdu.apdu.Some? && m.bvlc.npdu.apdu.value.dataType == UNCONFIRMED_SERVICE_REQUEST &&
    m.bvlc.npdu.apdu.value.serviceType == SERVICE_UNCONFIRMED_I_AM
  }

  /** An I-Am whose payload is something else makes the loop give up. */
  predicate Mismatched(m: Message) {
    IsIam(m) && !m.bvlc.npdu.apdu.value.payload.IamPayload?
  }

  predicate InRange(w: WhoIs, instance: uint32) {
    w.high.Some? && w.low.Some? ==> w.low.value <= instance <= w.high.value
  }

  predicate Accepted(w: WhoIs, m: Message) {
    IsIam(m) && !Mismatched(m) && InRange(w, m.bvlc.npdu.apdu.value.payload.iam.objectID.instance)
  }

  function IamOf(m: Message): Iam
    requires IsIam(m) && !Mismatched(m)
  {
    m.bvlc.npdu.apdu.value.payload.iam
  }

  /** The sender, with the remote network when the frame names one. */
  function SenderOf(m: Message): Address {
    match m.bvlc.npdu.source
    case None => Address(m.mac, 0, [])
    case Some(src) => Address(m.mac, src.net, src.adr)
  }

  function DeviceOf(i: Iam, addr: Address): Device {
    Device(i.objectID, i.maxApduLength, i.segmentation, i.vendorID, addr)
  }

  ghost predicate IsLast(w: WhoIs, ms: seq<Message>, k: nat, i: Iam) {
    && k < |ms| && Accepted(w, ms[k]) && IamOf(ms[k]) == i
    && forall l | k < l < |ms| && Accepted(w, ms[l]) :: IamOf(ms[l]) != i
  }

  /** The collected set: one device per distinct accepted I-Am, at the address of its last occurrence. */
  ghost predicate IsCollected(w: WhoIs, ms: seq<Message>, found: map<Iam, Address>) {
    && (forall k | 0 <= k < |ms| && Accepted(w, ms[k]) :: IamOf(ms[k]) in found)
    && (forall i | i in found :: exists k: nat :: IsLast(w, ms, k, i) && found[i] == SenderOf(ms[k]))
  }

  /** A list of all the devices of a set, each once, in some order. */
  ghost predicate Lists(ds: seq<Device>, found: map<Iam, Address>) {
    && |ds| == |found|
    && (forall i | i in found :: DeviceOf(i, found[i]) in ds)
    && (forall d | d in ds :: exists i :: i in found && d == DeviceOf(i, found[i]))
    && (forall j, k | 0 <= j < k < |ds| :: ds[j] != ds[k])
  }

  lemma CollectOne(w: WhoIs, ms: seq<Message>, m: Message, found: map<Iam, Address>)
    requires IsCollected(w, ms, found) && !Mismatched(m)
    ensures IsCollected(w, ms + [m], if Accepted(w, m) then found[IamOf(m) := SenderOf(m)] else found)
  {
    var ms' := ms + [m];
    var found' := if Accepted(w, m) then found[IamOf(m) := SenderOf(m)] else found;
    forall i | i in found' ensures exists k: nat :: IsLast(w, ms', k, i) && found'[i] == SenderOf(ms'[k]) {
      if Accepted(w, m) && i == IamOf(m) {
        assert IsLast(w, ms', |ms|, i);
      } else {
        var k: nat :| IsLast(w, ms, k, i) && found[i] == SenderOf(ms[k]);
        assert IsLast(w, ms', k, i);
      }
    }
  }

  /** One received message: it may end the loop, be filtered out, or update the set. */
  method CollectMessage(w: WhoIs, m: Message, found: map<Iam, Address>) returns (ok: bool, found': map<Iam, Address>)
    ensures ok == !Mismatched(m)
    ensures found' == if Accepted(w, m) then found[IamOf(m) := SenderOf(m)] else found
  {
    ok, found' := true, found;
    if m.bvlc.npdu.apdu.None? {
      return;
    }
    var apdu := m.bvlc.npdu.apdu.value;
    if apdu.dataType == UNCONFIRMED_SERVICE_REQUEST && apdu.serviceType == SERVICE_UNCONFIRMED_I_AM {
      if !apdu.payload.IamPayload? {
        return false, found;
      }
      var iam := apdu.payload.iam;
      if w.high.Some? && w.low.Some? {
        if iam.objectID.instance >= w.low.value && iam.objectID.instance <= w.high.value {
          found' := found[iam := SenderOf(m)];
        }
      } else {
        found' := found[iam := SenderOf(m)];
      }
    }
  }

  /** Go's range over a map: every key once, in no particular order. */
  method ListDevices(found: map<Iam, Address>) returns (result: seq<Device>)
    ensures Lists(result, found)
  {
    result := [];
    var left := found.Keys;
    while left != {}
      invariant left <= found.Keys && |result| + |left| == |found|
      invariant forall i | i in found && i !in left :: DeviceOf(i, found[i]) in result
      invariant forall d | d in result :: exists i :: i in found && d == DeviceOf(i, found[i])
      invariant forall i | i in left :: DeviceOf(i, found[i]) !in result
      invariant forall j, k | 0 <= j < k < |result| :: result[j] != result[k]
      decreases |left|
    {
      var i :| i in left;
      result := result + [DeviceOf(i, found[i])];
      left := left - {i};
    }
  }

  /** The loop of WhoIs over the messages received before the timer fires. */
  method Collect(w: WhoIs, ms: seq<Message>) returns (ok: bool, result: seq<Device>)
    ensures ok <==> forall k | 0 <= k < |ms| :: !Mismatched(ms[k])
    ensures ok ==> exists found :: IsCollected(w, ms, found) && Lists(result, found)
  {
    var found: map<Iam, Address> := map[];
    result := [];
    for n := 0 to |ms|
      invariant forall k | 0 <= k < n :: !Mismatched(ms[k])
      invariant IsCollected(w, ms[..n], found)
    {
      ghost var before := found;
      ok, found := CollectMessage(w, ms[n], found);
      if !ok {
        return false, [];
      }
      CollectOne(w, ms[..n], ms[n], before);
      assert ms[..n] + [ms[n]] == ms[..n + 1];
    }
    assert ms[..|ms|] == ms;
    result := ListDevices(found);
    ok := true;
  }

  /** A datagram with its sender in MAC form. */
  datatype Packet = Packet(frame: seq<byte>, mac: seq<byte>)

  /** What the subscription hands over of a datagram. */
  function HandedOver(p: Packet): Option<Message> {
    match NotifiedOf(p.frame)
    case None => None
    case Some(b) => Some(Message(b, p.mac))
  }

  function Present(xs: seq<Option<Message>>): seq<Message> {
    if xs == [] then []
    else Present(xs[..|xs| - 1]) + if xs[|xs| - 1].Some? then [xs[|xs| - 1].value] else []
  }

  /** What it hands over of a sequence of them. */
  function MessagesOf(ps: seq<Packet>): seq<Message> {
    Present(seq(|ps|, k requires 0 <= k < |ps| => HandedOver(ps[k])))
  }

  /** The broadcast of a Who-Is, to every network. */
  function WhoIsRequest(w: WhoIs): Bvlc {
    Bvlc(TYPE_BACNET_IP, BAC_FUNC_BROADCAST,
         Npdu(VERSION_1, false, false, 0, Some(Address([], 0xFFFF, [])), None, 255, 0, 0,
              Some(Apdu(UNCONFIRMED_SERVICE_REQUEST, SERVICE_UNCONFIRMED_WHO_IS, WhoIsPayload(w), 0))))
  }

  /** Every datagram goes through handleMessage, whose subscription fills the loop's channel. */
  method Receive(t: Transactions, ps: seq<Packet>) returns (ms: seq<Message>)
    ensures ms == MessagesOf(ps)
  {
    ghost var all := seq(|ps|, k requires 0 <= k < |ps| => HandedOver(ps[k]));
    ms := [];
    for n := 0 to |ps|
      invariant ms == Present(all[..n])
    {
      var d, notified := HandleMessage(t, ps[n].frame, true);
      if notified.Some? {
        ms := ms + [Message(notified.value, ps[n].mac)];
      }
      assert all[..n + 1][..n] == all[..n] && all[n] == HandedOver(ps[n]);
    }
    assert all[..|ps|] == all;
  }

  /** WhoIs: the broadcast, and then the loop over what is received. */
  method Discover(t: Transactions, w: WhoIs, socketOk: bool, ps: seq<Packet>)
    returns (sent: Marshaled, ok: bool, devices: seq<Device>)
    ensures sent == EncodeBvlc(WhoIsRequest(w))
    ensures ok <==> sent.Encoded? && socketOk && forall m | m in MessagesOf(ps) :: !Mismatched(m)
    ensures ok ==> exists found :: IsCollected(w, MessagesOf(ps), found) && Lists(devices, found)
  {
    sent := MarshalBvlc(WhoIsRequest(w));
    if sent.Refused? || !socketOk {
      return sent, false, [];
    }
    var ms := Receive(t, ps);
    ok, devices := Collect(w, ms);
  }
}
