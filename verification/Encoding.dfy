/** The encoder (internal/encoding/encoding.go): an append-only buffer with a sticky error. */
module Encoding {
  import opened Bytes
  import opened Buffers
  import opened Errors
  import opened Integers
  import opened Objects
  import opened Tags

  const UTF8_ENCODING: byte := 0

  /** What one operation writes, and the error it ends in. */
  datatype Chunk = Chunk(bytes: seq<byte>, err: Option<Error>)

  /** What an encoder has written, and its error. */
  datatype Enc = Enc(out: seq<byte>, err: Option<Error>) {
    /** An operation that honours the sticky error. */
    function Add(c: Chunk): Enc {
      if err.Some? then this else Enc(out + c.bytes, c.err)
    }

    /** An operation that writes whatever the error is. */
    function Put(bs: seq<byte>): Enc {
      this.(out := out + bs)
    }
  }

  const FRESH := Enc([], None)

  function AppTag(id: byte, length: uint32): Tag { Tag(id, false, length, false, false) }
  function ContextTag(id: byte, length: uint32): Tag { Tag(id, true, length, false, false) }
  function OpeningTag(id: byte): Tag { Tag(id, true, 0, true, false) }
  function ClosingTag(id: byte): Tag { Tag(id, true, 0, false, true) }

  function ContextUnsigned(id: byte, value: uint32): Chunk {
    Chunk(EncodeTag(ContextTag(id, ValueLength(value))) + Unsigned(value), None)
  }

  function ContextSigned(id: byte, value: int32): Chunk {
    Chunk(EncodeTag(ContextTag(id, SignedLength(value))) + Signed(value), None)
  }

  function ContextTypeEnumerated(id: byte, value: uint32): Chunk {
    Chunk(EncodeTag(AppTag(id, ValueLength(value))) + Unsigned(value), None)
  }

  /** An identifier after its tag; a refused one leaves the tag behind. */
  function TaggedObjectID(t: Tag, o: ObjectID): Chunk {
    match EncodeObjectID(o)
    case None => Chunk(EncodeTag(t), Some(InvalidObjectID))
    case Some(w) => Chunk(EncodeTag(t) + Be32(w), None)
  }

  function ContextObjectID(id: byte, o: ObjectID): Chunk {
    TaggedObjectID(ContextTag(id, 4), o)
  }

  function AppData(v: Value): Chunk {
    match v
    case Nil => Chunk(EncodeTag(AppTag(TYPE_NULL, 0)), None)
    case Bool(_) => Chunk([], Some(NotImplemented))
    case Real(bits) => Chunk(EncodeTag(AppTag(TYPE_REAL, 4)) + Be32(bits), None)
    case Str(s) =>
      Chunk(EncodeTag(AppTag(TYPE_CHARACTER_STRING, (|s| + 1) % 0x1_0000_0000)) + ([UTF8_ENCODING] + s), None)
    case Uint(u) => Chunk(EncodeTag(AppTag(TYPE_UNSIGNED_INT, ValueLength(u))) + Unsigned(u), None)
    case Seg(b) => Chunk(EncodeTag(AppTag(TYPE_ENUMERATED, ValueLength(b))) + Unsigned(b), None)
    case Obj(o) => TaggedObjectID(AppTag(TYPE_OBJECT_ID, 4), o)
    case _ => Chunk([], Some(UnknownType))
  }

  /** What ContextAsbtractType writes between the brackets, or the error it returns.
      Six declared types write nothing at all. */
  function AbstractBody(v: PropertyValue): Chunk {
    var wrong := Chunk([], Some(if v.value.Nil? then Panicked else WrongValue)); // reflect has no type for nil
    if v.typ == TYPE_NULL then Chunk(EncodeTag(AppTag(v.typ, 1)), None)
    else if v.typ == TYPE_BOOLEAN then
      if v.value.Bool? then Chunk(EncodeTag(AppTag(v.typ, if v.value.b then 1 else 0)), None) else wrong
    else if v.typ == TYPE_UNSIGNED_INT then if v.value.Uint? then ContextUnsigned(v.typ, v.value.u) else wrong
    else if v.typ == TYPE_SIGNED_INT then if v.value.Int? then ContextSigned(v.typ, v.value.i) else wrong
    else if v.typ == TYPE_REAL || v.typ == TYPE_DOUBLE then
      if v.value.Real? then
        Chunk(EncodeTag(AppTag(v.typ, if v.typ == TYPE_REAL then 4 else 8)) + Be32(v.value.bits), None)
      else wrong
    else if v.typ == TYPE_ENUMERATED then if v.value.Uint? then ContextTypeEnumerated(v.typ, v.value.u) else wrong
    else if v.typ <= TYPE_OBJECT_ID then Chunk([], None)
    else Chunk([], Some(WrongType))
  }

  /** The integer bodies honour the sticky error; the brackets and the other bodies do not. */
  predicate HonoursError(typ: byte) {
    typ == TYPE_UNSIGNED_INT || typ == TYPE_SIGNED_INT || typ == TYPE_ENUMERATED
  }

  /** The encoder, and the error returned, which skips the closing bracket. */
  function ContextAbstractType(e: Enc, id: byte, v: PropertyValue): (Enc, Option<Error>) {
    var body := AbstractBody(v);
    var e' := e.Put(EncodeTag(OpeningTag(id)));
    var e'' := if e.err.Some? && HonoursError(v.typ) then e' else e'.Put(body.bytes);
    if body.err.Some? then (e'', body.err) else (e''.Put(EncodeTag(ClosingTag(id))), None)
  }

  lemma Assoc(a: seq<byte>, b: seq<byte>, c: seq<byte>)
    ensures a + b + c == a + (b + c)
  {
  }

  class Encoder {
    const buf: Buffer
    var err: Option<Error>

    ghost predicate Valid()
      reads this, buf
    {
      buf.Valid()
    }

    ghost function State(): Enc
      reads this, buf
      requires Valid()
    {
      Enc(buf.Observe().rest, err)
    }

    constructor ()
      ensures Valid() && State() == FRESH && fresh(buf)
    {
      buf := new Buffer([]);
      err := None;
    }

    /** A tag and the octets after it. */
    method PutTagged(t: Tag, bs: seq<byte>)
      requires Valid()
      modifies buf
      ensures Valid() && State() == old(State()).Put(EncodeTag(t) + bs)
    {
      Assoc(buf.Observe().rest, EncodeTag(t), bs);
      WriteTag(buf, t);
      buf.Write(bs);
    }

    method PutTaggedUnsigned(t: Tag, value: uint32)
      requires Valid()
      modifies buf
      ensures Valid() && State() == old(State()).Put(EncodeTag(t) + Unsigned(value))
    {
      Assoc(buf.Observe().rest, EncodeTag(t), Unsigned(value));
      WriteTag(buf, t);
      var n := WriteUnsigned(buf, value);
    }

    method PutTaggedObjectID(t: Tag, o: ObjectID)
      requires Valid() && err.None?
      modifies this, buf
      ensures Valid() && State() == old(State()).Add(TaggedObjectID(t, o))
    {
      match EncodeObjectID(o) {
        case None =>
          WriteTag(buf, t);
          err := Some(InvalidObjectID);
        case Some(w) => PutTagged(t, Be32(w));
      }
    }

    method PutContextUnsigned(id: byte, value: uint32)
      requires Valid()
      modifies this, buf
      ensures Valid() && State() == old(State()).Add(ContextUnsigned(id, value))
    {
      if err.None? {
        PutTaggedUnsigned(ContextTag(id, ValueLength(value)), value);
      }
    }

    method PutContextSigned(id: byte, value: int32)
      requires Valid()
      modifies this, buf
      ensures Valid() && State() == old(State()).Add(ContextSigned(id, value))
    {
      if err.None? {
        PutTagged(ContextTag(id, SignedLength(value)), Signed(value));
      }
    }

    method PutContextTypeEnumerated(id: byte, value: uint32)
      requires Valid()
      modifies this, buf
      ensures Valid() && State() == old(State()).Add(ContextTypeEnumerated(id, value))
    {
      if err.None? {
        PutTaggedUnsigned(AppTag(id, ValueLength(value)), value);
      }
    }

    method PutContextObjectID(id: byte, o: ObjectID)
      requires Valid()
      modifies this, buf
      ensures Valid() && State() == old(State()).Add(ContextObjectID(id, o))
    {
      if err.None? {
        PutTaggedObjectID(ContextTag(id, 4), o);
      }
    }

    method PutAppData(v: Value)
      requires Valid()
      modifies this, buf
      ensures Valid() && State() == old(State()).Add(AppData(v))
    {
      if err.Some? {
        return;
      }
      match v {
        case Nil => WriteTag(buf, AppTag(TYPE_NULL, 0));
        case Bool(_) => err := Some(NotImplemented);
        case Real(bits) => PutTagged(AppTag(TYPE_REAL, 4), Be32(bits));
        case Str(s) => PutTagged(AppTag(TYPE_CHARACTER_STRING, (|s| + 1) % 0x1_0000_0000), [UTF8_ENCODING] + s);
        case Uint(u) => PutTaggedUnsigned(AppTag(TYPE_UNSIGNED_INT, ValueLength(u)), u);
        case Seg(b) => PutTaggedUnsigned(AppTag(TYPE_ENUMERATED, ValueLength(b)), b);
        case Obj(o) => PutTaggedObjectID(AppTag(TYPE_OBJECT_ID, 4), o);
        case _ => err := Some(UnknownType);
      }
    }

    /** The switch of ContextAsbtractType on the declared type. */
    method PutAbstractBody(v: PropertyValue) returns (e: Option<Error>)
      requires Valid()
      modifies this, buf
      ensures Valid() && e == AbstractBody(v).err
      ensures State() == if old(err).Some? && HonoursError(v.typ) then old(State())
                         else old(State()).Put(AbstractBody(v).bytes)
    {
      e := None;
      var wrong := Some(if v.value.Nil? then Panicked else WrongValue);
      if v.typ == TYPE_NULL {
        WriteTag(buf, AppTag(v.typ, 1));
      } else if v.typ == TYPE_BOOLEAN {
        if !v.value.Bool? {
          return wrong;
        }
        WriteTag(buf, AppTag(v.typ, if v.value.b then 1 else 0));
      } else if v.typ == TYPE_UNSIGNED_INT {
        if !v.value.Uint? {
          return wrong;
        }
        PutContextUnsigned(v.typ, v.value.u);
      } else if v.typ == TYPE_SIGNED_INT {
        if !v.value.Int? {
          return wrong;
        }
        PutContextSigned(v.typ, v.value.i);
      } else if v.typ == TYPE_REAL || v.typ == TYPE_DOUBLE {
        if !v.value.Real? {
          return wrong;
        }
        PutTagged(AppTag(v.typ, if v.typ == TYPE_REAL then 4 else 8), Be32(v.value.bits));
      } else if v.typ == TYPE_ENUMERATED {
        if !v.value.Uint? {
          return wrong;
        }
        PutContextTypeEnumerated(v.typ, v.value.u);
      } else if v.typ > TYPE_OBJECT_ID {
        return Some(WrongType);
      }
    }

    method PutContextAbstractType(id: byte, v: PropertyValue) returns (e: Option<Error>)
      requires Valid()
      modifies this, buf
      ensures Valid() && (State(), e) == ContextAbstractType(old(State()), id, v)
    {
      WriteTag(buf, OpeningTag(id));
      e := PutAbstractBody(v);
      if e.None? {
        WriteTag(buf, ClosingTag(id));
      }
    }
  }
}
