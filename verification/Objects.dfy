/** The BACnet data types that travel on the wire (bacnet/types.go). */
module Objects {
  import opened Bytes

  const MAX_INSTANCE := 0x3F_FFFF
  const INSTANCE_WEIGHT := 0x40_0000 // one shifted left by the 22 instance bits
  const MAX_OBJECT_TYPE := 0x400

  datatype ObjectID = ObjectID(typ: uint16, instance: uint32)

  /** Nothing when the identifier is refused. A type of 0x400 passes the check
      although its only bit is shifted out of the 32-bit word. */
  function EncodeObjectID(o: ObjectID): Option<uint32> {
    if o.instance > MAX_INSTANCE then None
    else if o.typ > MAX_OBJECT_TYPE then None
    else Some(o.typ * INSTANCE_WEIGHT % 0x1_0000_0000 + o.instance)
  }

  function ObjectIDFromUint32(v: uint32): ObjectID {
    ObjectID(v / INSTANCE_WEIGHT, v % INSTANCE_WEIGHT)
  }

  /** The identifiers of section 20.2.14: a ten-bit type and a 22-bit instance. */
  predicate IsObjectID(o: ObjectID) {
    o.typ <= 0x3FF && o.instance <= MAX_INSTANCE
  }

  /** Decoding inverts encoding exactly on the ten-bit types; the extra type the
      encoder accepts is read back as type zero. */
  lemma ObjectIDRoundTrip(o: ObjectID)
    ensures IsObjectID(o) <==> EncodeObjectID(o).Some? && ObjectIDFromUint32(EncodeObjectID(o).value) == o
    ensures EncodeObjectID(o).Some? && !IsObjectID(o) ==>
              o.typ == 0x400 && ObjectIDFromUint32(EncodeObjectID(o).value) == ObjectID(0, o.instance)
  {
    if o.typ <= 0x3FF && o.instance <= MAX_INSTANCE {
      assert o.typ * INSTANCE_WEIGHT < 0x1_0000_0000;
    }
  }

  /** Every 32-bit word is the encoding of exactly the identifier it decodes to. */
  lemma WordRoundTrip(v: uint32, o: ObjectID)
    requires IsObjectID(o)
    ensures EncodeObjectID(ObjectIDFromUint32(v)) == Some(v)
    ensures EncodeObjectID(o) == Some(v) <==> o == ObjectIDFromUint32(v)
  {
    ObjectIDRoundTrip(o);
  }

  /** A dynamically typed Go value: what an `interface{}` parameter or result holds.
      Reals are their 32-bit patterns, strings their UTF-8 bytes. */
  datatype Value =
    | Nil
    | Uint(u: uint32)
    | Int(i: int32)
    | Real(bits: uint32)
    | Str(s: seq<byte>)
    | Obj(o: ObjectID)
    | Seg(seg: byte)
    | Bool(b: bool)
    | Class(class_: uint16)
    | Code(code: uint32)
    | Other

  /** The pointer target handed to Decoder.AppData. */
  datatype Kind = KUint | KReal | KString | KObject | KSegmentation | KBool | KClass | KCode | KAny

  predicate HasKind(v: Value, k: Kind) {
    match k
    case KUint => v.Uint?
    case KReal => v.Real?
    case KString => v.Str?
    case KObject => v.Obj?
    case KSegmentation => v.Seg?
    case KBool => v.Bool?
    case KClass => v.Class?
    case KCode => v.Code?
    case KAny => true
  }

  datatype Address = Address(mac: seq<byte>, net: uint16, adr: seq<byte>)

  datatype PropertyID = PropertyID(typ: uint32, arrayIndex: Option<uint32>)

  /** A value to write, with the application type it is declared under. */
  datatype PropertyValue = PropertyValue(typ: byte, value: Value)

  const TYPE_NULL: byte := 0
  const TYPE_BOOLEAN: byte := 1
  const TYPE_UNSIGNED_INT: byte := 2
  const TYPE_SIGNED_INT: byte := 3
  const TYPE_REAL: byte := 4
  const TYPE_DOUBLE: byte := 5
  const TYPE_CHARACTER_STRING: byte := 7
  const TYPE_ENUMERATED: byte := 9
  const TYPE_OBJECT_ID: byte := 12
}
