/** What a Who-Is returns, in terms of the datagrams it received. */
module DiscoveryProofs {
  import opened Bytes
  import opened Errors
  import opened Objects
  import opened Services
  import opened Network
  import opened NetworkProofs
  import opened CodecProofs
  import opened Client
  import opened DispatchProofs

  // ---- the messages ----

  lemma {:induction false} PresentAre(xs: seq<Option<Message>>, m: Message)
    ensures m in Present(xs) <==> Some(m) in xs
  {
    if xs != [] {
      var n := |xs| - 1;
      PresentAre(xs[..n], m);
      assert xs == xs[..n] + [xs[n]];
    }
  }

  lemma MessageFromPacket(ps: seq<Packet>, m: Message)
    ensures m in MessagesOf(ps) <==> exists p :: p in ps && HandedOver(p) == Some(m)
  {
    var xs := seq(|ps|, k requires 0 <= k < |ps| => HandedOver(ps[k]));
    PresentAre(xs, m);
    if Some(m) in xs {
      var k :| 0 <= k < |xs| && xs[k] == Some(m);
      assert ps[k] in ps && HandedOver(ps[k]) == Some(m);
    }
    if p :| p in ps && HandedOver(p) == Some(m) {
      var k :| 0 <= k < |ps| && ps[k] == p;
      assert xs[k] == Some(m);
    }
  }

  /** A datagram's message ends the Who-Is exactly when it holds such a lone octet. */
  lemma PacketMismatches(p: Packet)
    ensures LoneRequest(p.frame) <==> HandedOver(p).Some? && Mismatched(HandedOver(p).value)
    ensures LoneRequest(p.frame) ==> DecodeBvlc(NEW_BVLC, p.frame).1.Some?
  {
    LoneRequestMismatches(p.frame, p.mac);
  }

  /** And a whole Who-Is fails exactly when one of its datagrams does: never if all of them decode
      without error. */
  lemma DiscoveryFailsIff(ps: seq<Packet>)
    ensures (exists m :: m in MessagesOf(ps) && Mismatched(m)) <==> exists p :: p in ps && LoneRequest(p.frame)
    ensures (forall p | p in ps :: DecodeBvlc(NEW_BVLC, p.frame).1.None?) ==> forall m | m in MessagesOf(ps) :: !Mismatched(m)
  {
    if m :| m in MessagesOf(ps) && Mismatched(m) {
      MessageFromPacket(ps, m);
      var p :| p in ps && HandedOver(p) == Some(m);
      PacketMismatches(p);
    }
    if p :| p in ps && LoneRequest(p.frame) {
      PacketMismatches(p);
      MessageFromPacket(ps, HandedOver(p).value);
    }
  }

  lemma {:induction false} PresentInOrder(xs: seq<Option<Message>>, ys: seq<Option<Message>>)
    ensures Present(xs + ys) == Present(xs) + Present(ys)
    decreases |ys|
  {
    if ys == [] {
      assert xs + ys == xs;
    } else {
      var n := |ys| - 1;
      PresentInOrder(xs, ys[..n]);
      assert (xs + ys)[..|xs + ys| - 1] == xs + ys[..n] && (xs + ys)[|xs + ys| - 1] == ys[n];
    }
  }

  /** The loop gets the messages in the order of their datagrams. */
  lemma MessagesInOrder(ps: seq<Packet>, qs: seq<Packet>)
    ensures MessagesOf(ps + qs) == MessagesOf(ps) + MessagesOf(qs)
  {
    var xs, ys := seq(|ps|, k requires 0 <= k < |ps| => HandedOver(ps[k])), seq(|qs|, k requires 0 <= k < |qs| => HandedOver(qs[k]));
    var zs := seq(|ps + qs|, k requires 0 <= k < |ps + qs| => HandedOver((ps + qs)[k]));
    assert zs == xs + ys;
    PresentInOrder(xs, ys);
  }

  lemma PresentSingle(x: Option<Message>)
    ensures Present([x]) == if x.Some? then [x.value] else []
  {
    assert [x][..0] == [];
  }

  /** One at most from each: what the subscription was handed. */
  lemma MessageOfPacket(p: Packet)
    ensures MessagesOf([p]) == match NotifiedOf(p.frame) case None => [] case Some(b) => [Message(b, p.mac)]
  {
    assert seq(1, k requires 0 <= k < 1 => HandedOver([p][k])) == [HandedOver(p)];
    PresentSingle(HandedOver(p));
  }

  // ---- the devices ----

  /** The message is an I-Am within the limits, and announces `d` at its sender's address, which is behind
      a router when the message names a network. */
  predicate Announces(w: WhoIs, m: Message, d: Device) {
    m.bvlc.npdu.apdu.Some? &&
    var a := m.bvlc.npdu.apdu.value;
    && a.dataType == 0x10 && a.serviceType == 0 && a.payload.IamPayload?
    && (w.low.Some? && w.high.Some? ==> w.low.value <= d.id.instance && d.id.instance <= w.high.value)
    && a.payload.iam.objectID == d.id && a.payload.iam.maxApduLength == d.maxApdu
    && a.payload.iam.segmentation == d.segmentation && a.payload.iam.vendorID == d.vendor
    && d.addr.mac == m.mac
    && d.addr.net == (if m.bvlc.npdu.source.Some? then m.bvlc.npdu.source.value.net else 0)
    && d.addr.adr == (if m.bvlc.npdu.source.Some? then m.bvlc.npdu.source.value.adr else [])
  }

  /** The same device, wherever it is. */
  predicate SameDevice(d: Device, e: Device) {
    d.id == e.id && d.maxApdu == e.maxApdu && d.segmentation == e.segmentation && d.vendor == e.vendor
  }

  /** Message `k` announces `d`, and no later one announces the same device. */
  ghost predicate LastAnnounces(w: WhoIs, ms: seq<Message>, k: nat, d: Device) {
    && k < |ms| && Announces(w, ms[k], d)
    && forall l, e | k < l < |ms| && Announces(w, ms[l], e) :: !SameDevice(d, e)
  }

  /** An announcement is an accepted I-Am. */
  lemma AnnouncesIff(w: WhoIs, m: Message, d: Device)
    ensures Announces(w, m, d) <==> Accepted(w, m) && d == DeviceOf(IamOf(m), SenderOf(m))
  {
  }

  lemma LastIff(w: WhoIs, ms: seq<Message>, k: nat, i: Iam, d: Device)
    requires k < |ms| && Accepted(w, ms[k]) && IamOf(ms[k]) == i && d == DeviceOf(i, SenderOf(ms[k]))
    ensures IsLast(w, ms, k, i) <==> LastAnnounces(w, ms, k, d)
  {
    AnnouncesIff(w, ms[k], d);
    if IsLast(w, ms, k, i) {
      forall l, e | k < l < |ms| && Announces(w, ms[l], e) ensures !SameDevice(d, e) {
        AnnouncesIff(w, ms[l], e);
      }
    }
    if LastAnnounces(w, ms, k, d) {
      forall l | k < l < |ms| && Accepted(w, ms[l]) ensures IamOf(ms[l]) != i {
        var e := DeviceOf(IamOf(ms[l]), SenderOf(ms[l]));
        AnnouncesIff(w, ms[l], e);
        assert !SameDevice(d, e);
      }
    }
  }

  lemma ListedIsAnnounced(w: WhoIs, ms: seq<Message>, found: map<Iam, Address>, devices: seq<Device>, d: Device) returns (k: nat)
    requires IsCollected(w, ms, found) && Lists(devices, found) && d in devices
    ensures LastAnnounces(w, ms, k, d)
  {
    var i :| i in found && d == DeviceOf(i, found[i]);
    k :| IsLast(w, ms, k, i) && found[i] == SenderOf(ms[k]);
    LastIff(w, ms, k, i, d);
  }

  lemma AnnouncedIsListed(w: WhoIs, ms: seq<Message>, found: map<Iam, Address>, devices: seq<Device>, d: Device, k: nat)
    requires IsCollected(w, ms, found) && Lists(devices, found) && LastAnnounces(w, ms, k, d)
    ensures d in devices
  {
    AnnouncesIff(w, ms[k], d);
    var i := IamOf(ms[k]);
    LastIff(w, ms, k, i, d);
    var l: nat :| IsLast(w, ms, l, i) && found[i] == SenderOf(ms[l]);
    assert k == l;
    assert DeviceOf(i, found[i]) in devices;
  }

  /** What a Who-Is returns, whatever it received: each device that some message announced, at the address
      of the last that did, and no other; and none twice. */
  lemma ListsLastAnnounced(w: WhoIs, ms: seq<Message>, found: map<Iam, Address>, devices: seq<Device>)
    requires IsCollected(w, ms, found) && Lists(devices, found)
    ensures forall d :: d in devices <==> exists k: nat :: LastAnnounces(w, ms, k, d)
    ensures forall j, k | 0 <= j < k < |devices| :: devices[j] != devices[k]
  {
    forall d ensures d in devices <==> exists k: nat :: LastAnnounces(w, ms, k, d) {
      if d in devices {
        var k := ListedIsAnnounced(w, ms, found, devices, d);
      }
      if k: nat :| LastAnnounces(w, ms, k, d) {
        AnnouncedIsListed(w, ms, found, devices, d, k);
      }
    }
  }

  lemma LastInBetween(w: WhoIs, xs: seq<Message>, m: Message, ys: seq<Message>, d: Device)
    requires Announces(w, m, d) && forall y, e | y in ys && Announces(w, y, e) :: !SameDevice(d, e)
    ensures LastAnnounces(w, xs + [m] + ys, |xs|, d)
  {
    var ms, k := xs + [m] + ys, |xs|;
    forall l, e | k < l < |ms| && Announces(w, ms[l], e) ensures !SameDevice(d, e) {
      assert ms[l] == ys[l - k - 1];
    }
  }

  function DeviceAt(i: Iam, mac: seq<byte>, source: Option<Address>): Device {
    Device(i.objectID, i.maxApduLength, i.segmentation, i.vendorID,
           if source.Some? && source.value.net != 0 then Address(mac, source.value.net, source.value.adr) else Address(mac, 0, []))
  }

  /** A frame with an I-Am that comes back from the wire announces its device, behind a router exactly when
      its source names a network. */
  lemma FrameAnnounces(w: WhoIs, p: Packet, b: Bvlc, i: Iam) returns (m: Message)
    requires EncodeBvlc(b) == Encoded(p.frame) && b.typ == 0x81 && |p.frame| <= 0xFFFF && NpduFaithful(b.npdu)
    requires b.npdu.apdu.Some? && b.npdu.apdu.value.dataType == 0x10 && b.npdu.apdu.value.serviceType == 0
    requires b.npdu.apdu.value.payload == IamPayload(i)
    requires w.low.Some? && w.high.Some? ==> w.low.value <= i.objectID.instance <= w.high.value
    ensures MessagesOf([p]) == [m] && Announces(w, m, DeviceAt(i, p.mac, b.npdu.source))
  {
    FrameRoundTrip(b);
    m := Message(b.(npdu := NormalNpdu(b.npdu)), p.mac);
    MessageOfPacket(p);
  }

  /** So whatever came before, a Who-Is lists the device of such a frame, unless the same device is announced
      again later. */
  lemma AnnouncedDeviceIsListed(w: WhoIs, before: seq<Packet>, p: Packet, after: seq<Packet>, b: Bvlc, i: Iam,
                                found: map<Iam, Address>, devices: seq<Device>)
    requires EncodeBvlc(b) == Encoded(p.frame) && b.typ == 0x81 && |p.frame| <= 0xFFFF && NpduFaithful(b.npdu)
    requires b.npdu.apdu.Some? && b.npdu.apdu.value.dataType == 0x10 && b.npdu.apdu.value.serviceType == 0
    requires b.npdu.apdu.value.payload == IamPayload(i)
    requires w.low.Some? && w.high.Some? ==> w.low.value <= i.objectID.instance <= w.high.value
    requires forall m, e | m in MessagesOf(after) && Announces(w, m, e) :: !SameDevice(DeviceAt(i, p.mac, b.npdu.source), e)
    requires IsCollected(w, MessagesOf(before + [p] + after), found) && Lists(devices, found)
    ensures DeviceAt(i, p.mac, b.npdu.source) in devices
  {
    var m := FrameAnnounces(w, p, b, i);
    MessagesInOrder(before + [p], after);
    MessagesInOrder(before, [p]);
    LastInBetween(w, MessagesOf(before), m, MessagesOf(after), DeviceAt(i, p.mac, b.npdu.source));
    AnnouncedIsListed(w, MessagesOf(before + [p] + after), found, devices, DeviceAt(i, p.mac, b.npdu.source), |MessagesOf(before)|);
  }
}
