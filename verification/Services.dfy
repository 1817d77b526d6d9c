/** The service payloads (bacip/services.go). Values marshal; references are the receivers that
    UnmarshalBinary fills in place, stale contents included. */
module Services {
  import opened Bytes
  import opened Buffers
  import opened Errors
  import opened Objects
  import E = Encoding
  import D = Decoding

  datatype WhoIs = WhoIs(low: Option<uint32>, high: Option<uint32>)
  datatype Iam = Iam(objectID: ObjectID, maxApduLength: uint32, segmentation: byte, vendorID: uint32)
  datatype ReadProperty = ReadProperty(objectID: ObjectID, property: PropertyID, data: Value)
  datatype WriteProperty =
    WriteProperty(objectID: ObjectID, property: PropertyID, value: PropertyValue, priority: byte)
  datatype ApduError = ApduError(class_: uint16, code: uint32)

  function Result(e: E.Enc): Marshaled {
    if e.err.Some? then Refused(e.err.value) else Encoded(e.out)
  }

  function Start(data: seq<byte>): D.Dec {
    D.Dec(View(None, data), None)
  }

  method Finish(e: E.Encoder) returns (m: Marshaled)
    requires e.Valid()
    ensures m == Result(e.State())
  {
    m := if e.err.Some? then Refused(e.err.value) else Encoded(e.buf.Bytes());
  }

  // ---- Who-Is ----

  /** The limits are sent only together, in order and within the instance range. */
  function EncodeWhoIs(w: WhoIs): Marshaled {
    if w.low.None? || w.high.None? then Encoded([])
    else if w.low.value > MAX_INSTANCE || w.high.value > MAX_INSTANCE || w.low.value > w.high.value then
      Refused(InvalidRange)
    else Result(E.FRESH.Add(E.ContextUnsigned(0, w.low.value)).Add(E.ContextUnsigned(1, w.high.value)))
  }

  /** An empty payload leaves the receiver alone. */
  function DecodeWhoIs(w: WhoIs, data: seq<byte>): (WhoIs, Option<Error>) {
    if data == [] then (w, None)
    else
      var (d1, low) := D.ContextValue(Start(data), 0, 0);
      var (d2, high) := D.ContextValue(d1, 1, 0);
      (WhoIs(Some(low), Some(high)), d2.err)
  }

  method MarshalWhoIs(w: WhoIs) returns (m: Marshaled)
    ensures m == EncodeWhoIs(w)
  {
    var e := new E.Encoder();
    if w.low.Some? && w.high.Some? {
      if w.low.value > MAX_INSTANCE || w.high.value > MAX_INSTANCE {
        return Refused(InvalidRange);
      }
      if w.low.value > w.high.value {
        return Refused(InvalidRange);
      }
      e.PutContextUnsigned(0, w.low.value);
      e.PutContextUnsigned(1, w.high.value);
    }
    m := Finish(e);
  }

  class WhoIsRef {
    var low: Option<uint32>
    var high: Option<uint32>

    constructor (w: WhoIs)
      ensures Value() == w
    {
      low, high := w.low, w.high;
    }

    function Value(): WhoIs
      reads this
    {
      WhoIs(low, high)
    }

    method UnmarshalBinary(data: seq<byte>) returns (err: Option<Error>)
      modifies this
      ensures Value() == DecodeWhoIs(old(Value()), data).0 && err == DecodeWhoIs(old(Value()), data).1
    {
      if data == [] {
        return None;
      }
      low, high := Some(0), Some(0);
      var d := new D.Decoder(data);
      var x := d.GetContextValue(0, low.value);
      low := Some(x);
      x := d.GetContextValue(1, high.value);
      high := Some(x);
      err := d.err;
    }
  }

  // ---- I-Am ----

  function EncodeIam(i: Iam): Marshaled {
    Result(E.FRESH.Add(E.AppData(Obj(i.objectID))).Add(E.AppData(Uint(i.maxApduLength)))
           .Add(E.AppData(Seg(i.segmentation))).Add(E.AppData(Uint(i.vendorID))))
  }

  /** AppData into a target of one static type. */
  function ReadObject(d: D.Dec, o: ObjectID): (D.Dec, ObjectID) {
    var (d', v) := D.AppData(d, KObject, Obj(o));
    (d', v.o)
  }

  function ReadUint(d: D.Dec, u: uint32): (D.Dec, uint32) {
    var (d', v) := D.AppData(d, KUint, Uint(u));
    (d', v.u)
  }

  function ReadSegmentation(d: D.Dec, s: byte): (D.Dec, byte) {
    var (d', v) := D.AppData(d, KSegmentation, Seg(s));
    (d', v.seg)
  }

  function DecodeIam(i: Iam, data: seq<byte>): (Iam, Option<Error>) {
    var (d1, o) := ReadObject(Start(data), i.objectID);
    var (d2, m) := ReadUint(d1, i.maxApduLength);
    var (d3, s) := ReadSegmentation(d2, i.segmentation);
    var (d4, v) := ReadUint(d3, i.vendorID);
    (Iam(o, m, s, v), d4.err)
  }

  method GetObject(d: D.Decoder, o: ObjectID) returns (r: ObjectID)
    requires d.Valid()
    modifies d, d.buf
    ensures d.Valid() && d.State() == ReadObject(old(d.State()), o).0 && r == ReadObject(old(d.State()), o).1
  {
    var v := d.GetAppData(KObject, Obj(o));
    assert HasKind(v, KObject);
    r := v.o;
  }

  method GetUint(d: D.Decoder, u: uint32) returns (r: uint32)
    requires d.Valid()
    modifies d, d.buf
    ensures d.Valid() && d.State() == ReadUint(old(d.State()), u).0 && r == ReadUint(old(d.State()), u).1
  {
    var v := d.GetAppData(KUint, Uint(u));
    assert HasKind(v, KUint);
    r := v.u;
  }

  method GetSegmentation(d: D.Decoder, s: byte) returns (r: byte)
    requires d.Valid()
    modifies d, d.buf
    ensures d.Valid() && d.State() == ReadSegmentation(old(d.State()), s).0 && r == ReadSegmentation(old(d.State()), s).1
  {
    var v := d.GetAppData(KSegmentation, Seg(s));
    assert HasKind(v, KSegmentation);
    r := v.seg;
  }

  method MarshalIam(i: Iam) returns (m: Marshaled)
    ensures m == EncodeIam(i)
  {
    var e := new E.Encoder();
    e.PutAppData(Obj(i.objectID));
    e.PutAppData(Uint(i.maxApduLength));
    e.PutAppData(Seg(i.segmentation));
    e.PutAppData(Uint(i.vendorID));
    m := Finish(e);
  }

  class IamRef {
    var objectID: ObjectID
    var maxApduLength: uint32
    var segmentation: byte
    var vendorID: uint32

    constructor (i: Iam)
      ensures Value() == i
    {
      objectID, maxApduLength, segmentation, vendorID := i.objectID, i.maxApduLength, i.segmentation, i.vendorID;
    }

    function Value(): Iam
      reads this
    {
      Iam(objectID, maxApduLength, segmentation, vendorID)
    }

    method UnmarshalBinary(data: seq<byte>) returns (err: Option<Error>)
      modifies this
      ensures Value() == DecodeIam(old(Value()), data).0 && err == DecodeIam(old(Value()), data).1
    {
      var d := new D.Decoder(data);
      objectID := GetObject(d, objectID);
      maxApduLength := GetUint(d, maxApduLength);
      segmentation := GetSegmentation(d, segmentation);
      vendorID := GetUint(d, vendorID);
      err := d.err;
    }
  }

  // ---- ReadProperty ----

  /** The request: the reply's value is not part of it. */
  function ReadPropertyEnc(o: ObjectID, p: PropertyID): E.Enc {
    var e := E.FRESH.Add(E.ContextObjectID(0, o)).Add(E.ContextUnsigned(1, p.typ));
    if p.arrayIndex.Some? then e.Add(E.ContextUnsigned(2, p.arrayIndex.value)) else e
  }

  function EncodeReadProperty(rp: ReadProperty): Marshaled {
    Result(ReadPropertyEnc(rp.objectID, rp.property))
  }

  predicate IsIncorrectTag(err: Option<Error>) {
    err.Some? && err.value.IncorrectTagID?
  }

  /** The reply. After the three leading fields a wrong tag number, whichever field met it,
      is taken for a missing array index. */
  function DecodeReadProperty(rp: ReadProperty, data: seq<byte>): (ReadProperty, Option<Error>) {
    var (d1, o) := D.ContextObjectID(Start(data), 0, rp.objectID);
    var (d2, typ) := D.ContextValue(d1, 1, 0);
    var (d3, index) := D.ContextValue(d2, 2, 0);
    var absent := IsIncorrectTag(d3.err);
    var (d4, v) := D.ContextAbstractType(if absent then d3.(err := None) else d3, 3, KAny, rp.data);
    (ReadProperty(o, PropertyID(typ, if absent then None else Some(index)), v), d4.err)
  }

  method MarshalReadProperty(rp: ReadProperty) returns (m: Marshaled)
    ensures m == EncodeReadProperty(rp)
  {
    var e := new E.Encoder();
    e.PutContextObjectID(0, rp.objectID);
    e.PutContextUnsigned(1, rp.property.typ);
    if rp.property.arrayIndex.Some? {
      e.PutContextUnsigned(2, rp.property.arrayIndex.value);
    }
    m := Finish(e);
  }

  class ReadPropertyRef {
    var objectID: ObjectID
    var property: PropertyID
    var data: Value

    constructor (rp: ReadProperty)
      ensures Value() == rp
    {
      objectID, property, data := rp.objectID, rp.property, rp.data;
    }

    function Value(): ReadProperty
      reads this
    {
      ReadProperty(objectID, property, data)
    }

    method UnmarshalBinary(bs: seq<byte>) returns (err: Option<Error>)
      modifies this
      ensures Value() == DecodeReadProperty(old(Value()), bs).0 && err == DecodeReadProperty(old(Value()), bs).1
    {
      var d := new D.Decoder(bs);
      objectID := d.GetContextObjectID(0, objectID);
      var val := d.GetContextValue(1, 0);
      property := property.(typ := val, arrayIndex := Some(0));
      val := d.GetContextValue(2, 0);
      property := property.(arrayIndex := Some(val));
      if IsIncorrectTag(d.err) {
        property := property.(arrayIndex := None);
        d.ResetError();
      }
      data := d.GetContextAbstractType(3, KAny, data);
      err := d.err;
    }
  }

  // ---- WriteProperty ----

  /** A returned error of the value wins over the encoder's own; the priority is sent unless zero. */
  function EncodeWriteProperty(wp: WriteProperty): Marshaled {
    var (e, err) := E.ContextAbstractType(ReadPropertyEnc(wp.objectID, wp.property), 3, wp.value);
    if err.Some? then Refused(err.value)
    else if wp.priority != 0 then Result(e.Add(E.ContextUnsigned(4, wp.priority)))
    else Result(e)
  }

  method MarshalWriteProperty(wp: WriteProperty) returns (m: Marshaled)
    ensures m == EncodeWriteProperty(wp)
  {
    var e := new E.Encoder();
    e.PutContextObjectID(0, wp.objectID);
    e.PutContextUnsigned(1, wp.property.typ);
    if wp.property.arrayIndex.Some? {
      e.PutContextUnsigned(2, wp.property.arrayIndex.value);
    }
    var err := e.PutContextAbstractType(3, wp.value);
    if err.Some? {
      return Refused(err.value);
    }
    if wp.priority != 0 {
      e.PutContextUnsigned(4, wp.priority);
    }
    m := Finish(e);
  }

  // ---- Error ----

  /** AppData into an error class, and into an error code. */
  function ReadClass(d: D.Dec, class_: uint16): (D.Dec, uint16) {
    var (d', v) := D.AppData(d, KClass, Class(class_));
    (d', v.class_)
  }

  function ReadCode(d: D.Dec, code: uint32): (D.Dec, uint32) {
    var (d', v) := D.AppData(d, KCode, Code(code));
    (d', v.code)
  }

  method GetClass(d: D.Decoder, class_: uint16) returns (c: uint16)
    requires d.Valid()
    modifies d, d.buf
    ensures d.Valid() && d.State() == ReadClass(old(d.State()), class_).0 && c == ReadClass(old(d.State()), class_).1
  {
    var v := d.GetAppData(KClass, Class(class_));
    assert HasKind(v, KClass);
    c := v.class_;
  }

  method GetCode(d: D.Decoder, code: uint32) returns (c: uint32)
    requires d.Valid()
    modifies d, d.buf
    ensures d.Valid() && d.State() == ReadCode(old(d.State()), code).0 && c == ReadCode(old(d.State()), code).1
  {
    var v := d.GetAppData(KCode, Code(code));
    assert HasKind(v, KCode);
    c := v.code;
  }

  function DecodeApduError(a: ApduError, data: seq<byte>): (ApduError, Option<Error>) {
    var (d1, class_) := ReadClass(Start(data), a.class_);
    var (d2, code) := ReadCode(d1, a.code);
    (ApduError(class_, code), d2.err)
  }

  class ApduErrorRef {
    var class_: uint16
    var code: uint32

    constructor (a: ApduError)
      ensures Value() == a
    {
      class_, code := a.class_, a.code;
    }

    function Value(): ApduError
      reads this
    {
      ApduError(class_, code)
    }

    method UnmarshalBinary(data: seq<byte>) returns (err: Option<Error>)
      modifies this
      ensures Value() == DecodeApduError(old(Value()), data).0 && err == DecodeApduError(old(Value()), data).1
    {
      var d := new D.Decoder(data);
      class_ := GetClass(d, class_);
      code := GetCode(d, code);
      err := d.err;
    }
  }
}
