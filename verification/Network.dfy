/** The three envelopes (bacip/network_types.go): APDU in NPDU in BVLC. */
module Network {
  import opened Bytes
  import opened Buffers
  import opened Errors
  import opened Objects
  import opened Services

  // ---- APDU ----

  const CONFIRMED_SERVICE_REQUEST: byte := 0
  const UNCONFIRMED_SERVICE_REQUEST: byte := 0x10
  const SIMPLE_ACK: byte := 0x20
  const COMPLEX_ACK: byte := 0x30
  const ERROR: byte := 0x50

  const SERVICE_UNCONFIRMED_I_AM: byte := 0
  const SERVICE_UNCONFIRMED_WHO_IS: byte := 8
  const SERVICE_CONFIRMED_READ_PROPERTY: byte := 12
  const SERVICE_CONFIRMED_WRITE_PROPERTY: byte := 15

  /** The Payload interface: nil, or a pointer to one of the six implementations. */
  datatype Payload =
    | NoPayload
    | WhoIsPayload(whoIs: WhoIs)
    | IamPayload(iam: Iam)
    | ReadPayload(read: ReadProperty)
    | WritePayload(write: WriteProperty)
    | ErrorPayload(error: ApduError)
    | DataPayload(bytes: seq<byte>)

  datatype Apdu = Apdu(dataType: byte, serviceType: byte, payload: Payload, invokeID: byte)

  const NEW_APDU := Apdu(0, 0, NoPayload, 0)

  /** The APDUs that carry the invoke id of the request they answer. */
  predicate IsReply(dataType: byte) {
    dataType == COMPLEX_ACK || dataType == SIMPLE_ACK || dataType == ERROR
  }

  /** An Error cannot be marshalled, and neither can a nil payload. */
  function EncodePayload(p: Payload): Marshaled {
    match p
    case NoPayload => Refused(Panicked)
    case WhoIsPayload(w) => EncodeWhoIs(w)
    case IamPayload(i) => EncodeIam(i)
    case ReadPayload(r) => EncodeReadProperty(r)
    case WritePayload(w) => EncodeWriteProperty(w)
    case ErrorPayload(_) => Refused(Panicked)
    case DataPayload(bs) => Encoded(bs)
  }

  /** The octets before the payload. */
  function ApduHeader(a: Apdu): seq<byte> {
    if a.dataType == CONFIRMED_SERVICE_REQUEST then [a.dataType, 5, a.invokeID, a.serviceType]
    else [a.dataType, a.serviceType]
  }

  function EncodeApdu(a: Apdu): Marshaled {
    match EncodePayload(a.payload)
    case Refused(e) => Refused(e)
    case Encoded(bs) => Encoded(ApduHeader(a) + bs)
  }

  /** The empty payload the decoder selects for a PDU type and service. */
  function Selected(dataType: byte, serviceType: byte): Payload {
    if dataType == UNCONFIRMED_SERVICE_REQUEST && serviceType == SERVICE_UNCONFIRMED_WHO_IS then
      WhoIsPayload(WhoIs(None, None))
    else if dataType == UNCONFIRMED_SERVICE_REQUEST && serviceType == SERVICE_UNCONFIRMED_I_AM then
      IamPayload(Iam(ObjectID(0, 0), 0, 0, 0))
    else if dataType == COMPLEX_ACK && serviceType == SERVICE_CONFIRMED_READ_PROPERTY then
      ReadPayload(ReadProperty(ObjectID(0, 0), PropertyID(0, None), Nil))
    else if dataType == ERROR then ErrorPayload(ApduError(0, 0))
    else DataPayload([])
  }

  function DecodePayload(p: Payload, data: seq<byte>): (Payload, Option<Error>) {
    match p
    case WhoIsPayload(w) => var (w', e) := DecodeWhoIs(w, data); (WhoIsPayload(w'), e)
    case IamPayload(i) => var (i', e) := DecodeIam(i, data); (IamPayload(i'), e)
    case ReadPayload(r) => var (r', e) := DecodeReadProperty(r, data); (ReadPayload(r'), e)
    case ErrorPayload(x) => var (x', e) := DecodeApduError(x, data); (ErrorPayload(x'), e)
    case DataPayload(_) => (DataPayload(data), None)
    case _ => (p, Some(Panicked))
  }

  /** The receiver after UnmarshalBinary, and the error. What was filled before a failure stays. */
  function DecodeApdu(a: Apdu, data: seq<byte>): (Apdu, Option<Error>) {
    if data == [] then (a, Some(EndOfBuffer))
    else
      var a1 := a.(dataType := data[0]);
      var n := if IsReply(data[0]) then 2 else 1;
      if |data| < n then (a1.(invokeID := 0), Some(EndOfBuffer))
      else
        var a2 := if n == 2 then a1.(invokeID := data[1]) else a1;
        if |data| < n + 1 then (a2, Some(EndOfBuffer))
        else
          var (p, e) := DecodePayload(Selected(data[0], data[n]), data[n + 1..]);
          (a2.(serviceType := data[n], payload := p), e)
  }

  method MarshalPayload(p: Payload) returns (m: Marshaled)
    ensures m == EncodePayload(p)
  {
    match p {
      case NoPayload => m := Refused(Panicked);
      case WhoIsPayload(w) => m := MarshalWhoIs(w);
      case IamPayload(i) => m := MarshalIam(i);
      case ReadPayload(r) => m := MarshalReadProperty(r);
      case WritePayload(w) => m := MarshalWriteProperty(w);
      case ErrorPayload(_) => m := Refused(Panicked);
      case DataPayload(bs) => m := Encoded(bs);
    }
  }

  method MarshalApdu(a: Apdu) returns (m: Marshaled)
    ensures m == EncodeApdu(a)
  {
    var b := new Buffer([]);
    b.WriteByte(a.dataType);
    if a.dataType == CONFIRMED_SERVICE_REQUEST {
      b.WriteByte(5);
      b.WriteByte(a.invokeID);
    }
    b.WriteByte(a.serviceType);
    assert b.Observe().rest == ApduHeader(a);
    m := MarshalPayload(a.payload);
    if m.Encoded? {
      b.Write(m.bytes);
      m := Encoded(b.Bytes());
    }
  }

  /** The payload is a fresh object filled through its own receiver. */
  method UnmarshalPayload(p: Payload, data: seq<byte>) returns (p': Payload, err: Option<Error>)
    ensures (p', err) == DecodePayload(p, data)
  {
    match p {
      case WhoIsPayload(w) =>
        var r := new WhoIsRef(w);
        err := r.UnmarshalBinary(data);
        p' := WhoIsPayload(r.Value());
      case IamPayload(i) =>
        var r := new IamRef(i);
        err := r.UnmarshalBinary(data);
        p' := IamPayload(r.Value());
      case ReadPayload(x) =>
        var r := new ReadPropertyRef(x);
        err := r.UnmarshalBinary(data);
        p' := ReadPayload(r.Value());
      case ErrorPayload(x) =>
        var r := new ApduErrorRef(x);
        err := r.UnmarshalBinary(data);
        p' := ErrorPayload(r.Value());
      case DataPayload(_) => p', err := DataPayload(data), None;
      case _ => p', err := p, Some(Panicked);
    }
  }

  class ApduRef {
    var dataType: byte
    var serviceType: byte
    var payload: Payload
    var invokeID: byte

    constructor (a: Apdu)
      ensures Value() == a
    {
      dataType, serviceType, payload, invokeID := a.dataType, a.serviceType, a.payload, a.invokeID;
    }

    function Value(): Apdu
      reads this
    {
      Apdu(dataType, serviceType, payload, invokeID)
    }

    method UnmarshalBinary(data: seq<byte>) returns (err: Option<Error>)
      modifies this
      ensures Value() == DecodeApdu(old(Value()), data).0 && err == DecodeApdu(old(Value()), data).1
    {
      var buf := new Buffer(data);
      var b, ok := buf.ReadByte();
      if !ok {
        return Some(EndOfBuffer);
      }
      dataType := b;
      if IsReply(dataType) {
        invokeID, ok := buf.ReadByte();
        if !ok {
          return Some(EndOfBuffer);
        }
      }
      b, ok := buf.ReadByte();
      if !ok {
        return Some(EndOfBuffer);
      }
      serviceType := b;
      ghost var n := if IsReply(dataType) then 2 else 1;
      assert buf.Observe().rest == data[n + 1..];
      payload, err := UnmarshalPayload(Selected(dataType, serviceType), buf.Bytes());
    }
  }

  // ---- NPDU ----

  const VERSION_1: byte := 1

  datatype Npdu = Npdu(
    version: byte,
    isNetworkMessage: bool,
    expectingReply: bool,
    priority: byte,
    destination: Option<Address>,
    source: Option<Address>,
    hopCount: byte,
    networkMessageType: byte,
    vendorID: uint16,
    apdu: Option<Apdu>)

  const NEW_NPDU := Npdu(0, false, false, 0, None, None, 0, 0, 0, None)

  /** Sent only when it names a remote network. */
  predicate IsRemote(a: Option<Address>) {
    a.Some? && a.value.net != 0
  }

  function Control(n: Npdu): byte
    requires n.priority <= 3
  {
    (if n.isNetworkMessage then 0x80 else 0) + (if IsRemote(n.destination) then 0x20 else 0) +
    (if IsRemote(n.source) then 8 else 0) + (if n.expectingReply then 4 else 0) + n.priority
  }

  /** Network number, length octet (truncated) and address. */
  function AddressBytes(a: Option<Address>): seq<byte> {
    if IsRemote(a) then Be16(a.value.net) + [|a.value.adr| % 0x100] + a.value.adr else []
  }

  function MessageBytes(n: Npdu): seq<byte> {
    if !n.isNetworkMessage then []
    else [n.networkMessageType] + (if n.networkMessageType >= 0x80 then Be16(n.vendorID) else [])
  }

  function HopBytes(n: Npdu): seq<byte> {
    if IsRemote(n.destination) then [n.hopCount] else []
  }

  function ApduBytes(n: Npdu): Marshaled {
    if n.apdu.None? then Encoded([]) else EncodeApdu(n.apdu.value)
  }

  function RouteBytes(n: Npdu): seq<byte> {
    AddressBytes(n.destination) + AddressBytes(n.source) + HopBytes(n)
  }

  /** The octets before the APDU. */
  function NpduHeader(n: Npdu): seq<byte>
    requires n.priority <= 3
  {
    [n.version, Control(n)] + RouteBytes(n) + MessageBytes(n)
  }

  function EncodeNpdu(n: Npdu): Marshaled {
    if n.priority > 3 then Refused(InvalidPriority)
    else
      match ApduBytes(n)
      case Refused(e) => Refused(e)
      case Encoded(bs) =>
        Encoded(NpduHeader(n) + bs)
  }

  method WriteAddress(b: Buffer, a: Option<Address>)
    requires b.Valid() && IsRemote(a)
    modifies b
    ensures b.Valid() && b.Observe().rest == old(b.Observe().rest) + AddressBytes(a)
  {
    b.Write(Be16(a.value.net));
    b.WriteByte(|a.value.adr| % 0x100);
    b.Write(a.value.adr);
  }

  method WriteMessage(b: Buffer, n: Npdu)
    requires b.Valid() && n.isNetworkMessage
    modifies b
    ensures b.Valid() && b.Observe().rest == old(b.Observe().rest) + MessageBytes(n)
  {
    b.WriteByte(n.networkMessageType);
    if n.networkMessageType >= 0x80 {
      b.Write(Be16(n.vendorID));
    }
  }

  /** The control octet's bits. */
  predicate Bit(control: byte, weight: byte)
    requires weight != 0
  {
    control / weight % 2 == 1
  }

  /** The control octet gives its four flags and the priority back. */
  lemma ControlBits(n: Npdu)
    requires n.priority <= 3
    ensures var c := Control(n);
            && Bit(c, 0x80) == n.isNetworkMessage && Bit(c, 0x20) == IsRemote(n.destination)
            && Bit(c, 8) == IsRemote(n.source) && Bit(c, 4) == n.expectingReply && c % 4 == n.priority
  {
  }

  /** The control octet is summed bit by bit; each flag and the priority can be told from the sum. */
  method ControlOctet(n: Npdu) returns (control: byte, hasDest: bool, hasSrc: bool)
    requires n.priority <= 3
    ensures control == Control(n) && hasDest == IsRemote(n.destination) && hasSrc == IsRemote(n.source)
    ensures Bit(control, 0x80) == n.isNetworkMessage && Bit(control, 4) == n.expectingReply && control % 4 == n.priority
    ensures Bit(control, 0x20) == hasDest && Bit(control, 8) == hasSrc
  {
    var sum := 0;
    hasDest, hasSrc := false, false;
    if n.isNetworkMessage {
      sum := sum + 0x80;
    }
    if n.expectingReply {
      sum := sum + 4;
    }
    sum := sum + n.priority;
    if n.destination.Some? && n.destination.value.net != 0 {
      sum := sum + 0x20;
      hasDest := true;
    }
    if n.source.Some? && n.source.value.net != 0 {
      sum := sum + 8;
      hasSrc := true;
    }
    control := sum;
    ControlBits(n);
  }

  /** Both addresses come before the hop count of the first. */
  method WriteRoute(b: Buffer, n: Npdu, hasDest: bool, hasSrc: bool)
    requires b.Valid() && hasDest == IsRemote(n.destination) && hasSrc == IsRemote(n.source)
    modifies b
    ensures b.Valid() && b.Observe().rest == old(b.Observe().rest) + RouteBytes(n)
  {
    if hasDest {
      WriteAddress(b, n.destination);
    }
    if hasSrc {
      WriteAddress(b, n.source);
    }
    if hasDest {
      b.WriteByte(n.hopCount);
    }
  }

  method WriteNpduHeader(b: Buffer, n: Npdu)
    requires b.Valid() && b.Observe().rest == [n.version] && n.priority <= 3
    modifies b
    ensures b.Valid() && b.Observe().rest == NpduHeader(n)
  {
    var control, hasDest, hasSrc := ControlOctet(n);
    b.WriteByte(control);
    assert b.Observe().rest == [n.version, Control(n)];
    WriteRoute(b, n, hasDest, hasSrc);
    ghost var head := b.Observe().rest;
    if n.isNetworkMessage {
      WriteMessage(b, n);
    } else {
      assert head + MessageBytes(n) == head;
    }
  }

  method MarshalNpdu(n: Npdu) returns (m: Marshaled)
    ensures m == EncodeNpdu(n)
  {
    var b := new Buffer([]);
    b.WriteByte(n.version);
    if n.priority > 3 {
      return Refused(InvalidPriority);
    }
    WriteNpduHeader(b, n);
    if n.apdu.None? {
      return Encoded(b.Bytes());
    }
    m := MarshalApdu(n.apdu.value);
    if m.Encoded? {
      m := Encoded(b.Bytes() + m.bytes);
    }
  }

  /** An address read from the head of `s`: what was filled, what is left, and the error. */
  datatype AddressRead = AddressRead(address: Address, rest: seq<byte>, err: Option<Error>)

  function Zeros(n: nat): seq<byte> { seq(n, _ => 0) }

  function ReadAddress(s: seq<byte>): AddressRead {
    if |s| < 2 then AddressRead(Address([], 0, []), [], Some(EndOfBuffer))
    else
      var net := ReadBe(s, 2);
      if |s| < 3 then AddressRead(Address([], net, []), [], Some(EndOfBuffer))
      else
        var end := 3 + s[2] as int;
        if |s| < end then AddressRead(Address([], net, Zeros(s[2])), [], Some(EndOfBuffer))
        else AddressRead(Address([], net, s[3..end]), s[end..], None)
  }

  /** A network message's type and vendor. A vendor id is read above 0x80 although it is written
      from 0x80. */
  function DecodeMessage(n: Npdu, s: seq<byte>): (Npdu, Option<Error>) {
    if s == [] then (n, Some(EndOfBuffer))
    else
      var n' := n.(networkMessageType := s[0]);
      if s[0] <= 0x80 then (n', None)
      else if |s| < 3 then (n', Some(EndOfBuffer))
      else (n'.(vendorID := ReadBe(s[1..], 2)), None)
  }

  /** What follows the addresses: a hop count after a destination, then the message or the APDU. */
  function DecodeTail(n: Npdu, s: seq<byte>): (Npdu, Option<Error>) {
    if n.destination.Some? && s == [] then (n, Some(EndOfBuffer))
    else
      var n' := if n.destination.Some? then n.(hopCount := s[0]) else n;
      var s' := if n.destination.Some? then s[1..] else s;
      if n.isNetworkMessage then DecodeMessage(n', s')
      else
        var (a, e) := DecodeApdu(NEW_APDU, s');
        (n'.(apdu := Some(a)), e)
  }

  function DecodeSource(n: Npdu, control: byte, s: seq<byte>): (Npdu, Option<Error>) {
    if !Bit(control, 8) then DecodeTail(n, s)
    else
      var r := ReadAddress(s);
      var n' := n.(source := Some(r.address));
      if r.err.Some? then (n', r.err) else DecodeTail(n', r.rest)
  }

  function DecodeDestination(n: Npdu, control: byte, s: seq<byte>): (Npdu, Option<Error>) {
    if !Bit(control, 0x20) then DecodeSource(n, control, s)
    else
      var r := ReadAddress(s);
      var n' := n.(destination := Some(r.address));
      if r.err.Some? then (n', r.err) else DecodeSource(n', control, r.rest)
  }

  /** A flag already set in the receiver stays set. */
  function DecodeNpdu(n: Npdu, data: seq<byte>): (Npdu, Option<Error>) {
    if data == [] then (n, Some(EndOfBuffer))
    else if data[0] != VERSION_1 then (n.(version := data[0]), Some(InvalidVersion))
    else if |data| < 2 then (n.(version := data[0]), Some(EndOfBuffer))
    else
      var control := data[1];
      var n' := n.(version := data[0], isNetworkMessage := n.isNetworkMessage || Bit(control, 0x80),
                   expectingReply := n.expectingReply || Bit(control, 4), priority := control % 4);
      DecodeDestination(n', control, data[2..])
  }

  method UnmarshalAddress(buf: Buffer) returns (a: Address, err: Option<Error>)
    requires buf.Valid()
    modifies buf
    ensures buf.Valid() && AddressRead(a, buf.Observe().rest, err) == ReadAddress(old(buf.Observe().rest))
  {
    ghost var s := buf.Observe().rest;
    a, err := Address([], 0, []), None;
    var bs, ok := buf.ReadFull(2);
    if !ok {
      return a, Some(EndOfBuffer);
    }
    a := a.(net := ReadBe(bs, 2));
    var length;
    length, ok := buf.ReadByte();
    if !ok {
      return a, Some(EndOfBuffer);
    }
    assert length == s[2] && buf.Observe().rest == s[3..];
    a := a.(adr := Zeros(length));
    bs, ok := buf.ReadFull(length);
    if !ok {
      return a, Some(EndOfBuffer);
    }
    a := a.(adr := bs);
  }

  class NpduRef {
    var version: byte
    var isNetworkMessage: bool
    var expectingReply: bool
    var priority: byte
    var destination: Option<Address>
    var source: Option<Address>
    var hopCount: byte
    var networkMessageType: byte
    var vendorID: uint16
    var apdu: Option<Apdu>

    constructor (n: Npdu)
      ensures Value() == n
    {
      version, isNetworkMessage, expectingReply, priority := n.version, n.isNetworkMessage, n.expectingReply, n.priority;
      destination, source, hopCount := n.destination, n.source, n.hopCount;
      networkMessageType, vendorID, apdu := n.networkMessageType, n.vendorID, n.apdu;
    }

    function Value(): Npdu
      reads this
    {
      Npdu(version, isNetworkMessage, expectingReply, priority, destination, source, hopCount,
           networkMessageType, vendorID, apdu)
    }

    method UnmarshalBinary(data: seq<byte>) returns (err: Option<Error>)
      modifies this
      ensures Value() == DecodeNpdu(old(Value()), data).0 && err == DecodeNpdu(old(Value()), data).1
    {
      var buf := new Buffer(data);
      var b, ok := buf.ReadByte();
      if !ok {
        return Some(EndOfBuffer);
      }
      version := b;
      if version != VERSION_1 {
        return Some(InvalidVersion);
      }
      var control;
      control, ok := buf.ReadByte();
      if !ok {
        return Some(EndOfBuffer);
      }
      if Bit(control, 0x80) {
        isNetworkMessage := true;
      }
      if Bit(control, 4) {
        expectingReply := true;
      }
      priority := control % 4;
      assert buf.Observe().rest == data[2..];
      err := UnmarshalDestination(control, buf);
    }

    method UnmarshalDestination(control: byte, buf: Buffer) returns (err: Option<Error>)
      requires buf.Valid()
      modifies this, buf
      ensures Value() == DecodeDestination(old(Value()), control, old(buf.Observe().rest)).0
      ensures err == DecodeDestination(old(Value()), control, old(buf.Observe().rest)).1
    {
      if Bit(control, 0x20) {
        var a;
        a, err := UnmarshalAddress(buf);
        destination := Some(a);
        if err.Some? {
          return;
        }
      }
      err := UnmarshalSource(control, buf);
    }

    method UnmarshalSource(control: byte, buf: Buffer) returns (err: Option<Error>)
      requires buf.Valid()
      modifies this, buf
      ensures Value() == DecodeSource(old(Value()), control, old(buf.Observe().rest)).0
      ensures err == DecodeSource(old(Value()), control, old(buf.Observe().rest)).1
    {
      if Bit(control, 8) {
        var a;
        a, err := UnmarshalAddress(buf);
        source := Some(a);
        if err.Some? {
          return;
        }
      }
      err := UnmarshalTail(buf);
    }

    method UnmarshalTail(buf: Buffer) returns (err: Option<Error>)
      requires buf.Valid()
      modifies this, buf
      ensures Value() == DecodeTail(old(Value()), old(buf.Observe().rest)).0
      ensures err == DecodeTail(old(Value()), old(buf.Observe().rest)).1
    {
      if destination.Some? {
        var b, ok := buf.ReadByte();
        if !ok {
          return Some(EndOfBuffer);
        }
        hopCount := b;
      }
      if isNetworkMessage {
        err := UnmarshalMessage(buf);
      } else {
        var a := new ApduRef(NEW_APDU);
        err := a.UnmarshalBinary(buf.Bytes());
        apdu := Some(a.Value());
      }
    }

    method UnmarshalMessage(buf: Buffer) returns (err: Option<Error>)
      requires buf.Valid()
      modifies this, buf
      ensures Value() == DecodeMessage(old(Value()), old(buf.Observe().rest)).0
      ensures err == DecodeMessage(old(Value()), old(buf.Observe().rest)).1
    {
      var b, ok := buf.ReadByte();
      if !ok {
        return Some(EndOfBuffer);
      }
      networkMessageType := b;
      if networkMessageType > 0x80 {
        var bs;
        bs, ok := buf.ReadFull(2);
        if !ok {
          return Some(EndOfBuffer);
        }
        vendorID := ReadBe(bs, 2);
      }
      err := None;
    }
  }

  // ---- BVLC ----

  const TYPE_BACNET_IP: byte := 0x81

  datatype Bvlc = Bvlc(typ: byte, function_: byte, npdu: Npdu)

  const NEW_BVLC := Bvlc(0, 0, NEW_NPDU)

  /** The length counts the four octets of the header and wraps at 16 bits. */
  function EncodeBvlc(b: Bvlc): Marshaled {
    match EncodeNpdu(b.npdu)
    case Refused(e) => Refused(e)
    case Encoded(bs) => Encoded([b.typ, b.function_] + Be16((4 + |bs|) % 0x1_0000) + bs)
  }

  function DecodeBvlc(b: Bvlc, data: seq<byte>): (Bvlc, Option<Error>) {
    if data == [] then (b, Some(EndOfBuffer))
    else if data[0] != TYPE_BACNET_IP then (b.(typ := data[0]), Some(NotBacnetIP))
    else if |data| < 4 then (b.(typ := data[0]), Some(EndOfBuffer))
    else
      var b' := b.(typ := data[0], function_ := data[1]);
      if |data| - 4 != ReadBe(data[2..], 2) - 4 then (b', Some(IncoherentLength))
      else
        var (n, e) := DecodeNpdu(b.npdu, data[4..]);
        (b'.(npdu := n), e)
  }

  method MarshalBvlc(b: Bvlc) returns (m: Marshaled)
    ensures m == EncodeBvlc(b)
  {
    var buf := new Buffer([]);
    buf.WriteByte(b.typ);
    buf.WriteByte(b.function_);
    m := MarshalNpdu(b.npdu);
    if m.Encoded? {
      buf.Write(Be16((4 + |m.bytes|) % 0x1_0000));
      buf.Write(m.bytes);
      m := Encoded(buf.Bytes());
    }
  }

  class BvlcRef {
    var typ: byte
    var function_: byte
    var npdu: Npdu // embedded by value

    constructor (b: Bvlc)
      ensures Value() == b
    {
      typ, function_, npdu := b.typ, b.function_, b.npdu;
    }

    function Value(): Bvlc
      reads this
    {
      Bvlc(typ, function_, npdu)
    }

    method UnmarshalBinary(data: seq<byte>) returns (err: Option<Error>)
      modifies this
      ensures Value() == DecodeBvlc(old(Value()), data).0 && err == DecodeBvlc(old(Value()), data).1
    {
      var buf := new Buffer(data);
      var b, ok := buf.ReadByte();
      if !ok {
        return Some(EndOfBuffer);
      }
      typ := b;
      if typ != TYPE_BACNET_IP {
        return Some(NotBacnetIP);
      }
      var f;
      f, ok := buf.ReadByte();
      if !ok {
        return Some(EndOfBuffer);
      }
      var bs;
      bs, ok := buf.ReadFull(2);
      if !ok {
        return Some(EndOfBuffer);
      }
      var remaining := buf.Bytes();
      assert remaining == data[4..] && bs == data[2..][..2];
      function_ := f;
      if |remaining| != ReadBe(bs, 2) - 4 {
        return Some(IncoherentLength);
      }
      var n := new NpduRef(npdu);
      err := n.UnmarshalBinary(remaining);
      npdu := n.Value();
    }
  }
}
