/** The decoder (internal/encoding/decoding.go): a cursor with a sticky error and a
    one-tag backtrack. */
module Decoding {
  import opened Bytes
  import opened Buffers
  import opened Errors
  import opened Integers
  import opened Objects
  import opened Tags
  import Encoding

  /** Where a decoder stands, and its error. */
  datatype Dec = Dec(view: View, err: Option<Error>)

  /** A tag of `n` octets had the wrong number: give the octets back if that is possible. */
  function Mismatch(v: View, n: nat, expected: byte, got: byte): Dec {
    var (v', ok) := UnreadView(v, n);
    Dec(v', Some(if ok then IncorrectTagID(expected, got) else UnreadFailed))
  }

  /** ContextValue, with the target's new contents. A tag of the right number that is not
      contextual sets the error but still reads and stores the value. */
  function ContextValue(d: Dec, id: byte, cur: uint32): (Dec, uint32) {
    if d.err.Some? then (d, cur)
    else
      match ParseTag(d.view.rest)
      case TagError => (Dec(EXHAUSTED, Some(EndOfBuffer)), cur)
      case TagOk(t, n) =>
        var v := Advance(d.view, n);
        if t.id != id then (Mismatch(v, n, id, t.id), cur)
        else
          var (v', x) := UnsignedRead(v, t.value);
          match x
          case None => (Dec(v', Some(EndOfBuffer)), cur)
          case Some(value) => (Dec(v', if t.context then None else Some(NotContextual)), value)
  }

  /** ContextObjectID: the four octets are read whatever length the tag gives, and a
      failed read of them is ignored and counts as zero. */
  function ContextObjectID(d: Dec, id: byte, cur: ObjectID): (Dec, ObjectID) {
    if d.err.Some? then (d, cur)
    else
      match ParseTag(d.view.rest)
      case TagError => (Dec(EXHAUSTED, Some(EndOfBuffer)), cur)
      case TagOk(t, n) =>
        var v := Advance(d.view, n);
        if t.id != id then (Mismatch(v, n, id, t.id), cur)
        else if !t.context then (Dec(v, Some(NotContextual)), cur)
        else if |v.rest| < 4 then (Dec(EXHAUSTED, None), ObjectIDFromUint32(0))
        else (Dec(Advance(v, 4), None), ObjectIDFromUint32(ReadBe(v.rest, 4)))
  }

  /** Storing an unsigned in a target: the narrower and the named integer types pass the
      kind check but cannot be assigned. */
  function StoreUint(u: uint32, k: Kind, cur: Value): (Option<Error>, Value) {
    if k == KUint || k == KAny then (None, Uint(u))
    else if k == KSegmentation || k == KClass || k == KCode then (Some(Panicked), cur)
    else (Some(TypeMismatch), cur)
  }

  /** Storing an enumerated in a target: three named types, truncated to their width. */
  function StoreEnumerated(u: uint32, k: Kind, cur: Value): (Option<Error>, Value) {
    match k
    case KSegmentation => (None, Seg(u % 0x100))
    case KClass => (None, Class(u % 0x1_0000))
    case KCode => (None, Code(u))
    case KAny => (None, Uint(u))
    case _ => (Some(TypeMismatch), cur)
  }

  /** Storing a value of exactly one static type. */
  function StoreExact(v: Value, k: Kind, cur: Value): (Option<Error>, Value) {
    if HasKind(v, k) then (None, v) else (Some(TypeMismatch), cur)
  }

  /** The string after its tag: the encoding octet, then `length - 1` octets in one Read. */
  function StringRead(v: View, length: uint32): (View, Option<Error>, seq<byte>) {
    if v.rest == [] then (EXHAUSTED, Some(EndOfBuffer), [])
    else
      var v' := Advance(v, 1);
      if v.rest[0] != Encoding.UTF8_ENCODING then (v', Some(BadStringEncoding), [])
      else if length == 0 then (v', Some(Panicked), []) // a slice of negative length
      else if length == 1 then (View(None, v'.rest), None, [])
      else if v'.rest == [] then (EXHAUSTED, Some(EndOfBuffer), [])
      else if |v'.rest| < length - 1 then (Advance(v', |v'.rest|), Some(ShortString), [])
      else (Advance(v', length - 1), None, v'.rest[..length - 1])
  }

  /** An unsigned or enumerated after its tag. */
  function IntegerValue(v: View, t: Tag, k: Kind, cur: Value): (r: (Dec, Value))
    ensures HasKind(cur, k) ==> HasKind(r.1, k)
  {
    match UnsignedRead(v, t.value)
    case (v', None) => (Dec(v', Some(EndOfBuffer)), cur)
    case (v', Some(u)) =>
      var (err, value) := if t.id == TYPE_ENUMERATED then StoreEnumerated(u, k, cur) else StoreUint(u, k, cur);
      (Dec(v', err), value)
  }

  /** A real or an object identifier after its tag: four octets, whatever the length says. */
  function WordValue(v: View, t: Tag, k: Kind, cur: Value): (r: (Dec, Value))
    ensures HasKind(cur, k) ==> HasKind(r.1, k)
  {
    if |v.rest| < 4 then (Dec(EXHAUSTED, Some(EndOfBuffer)), cur)
    else
      var w := ReadBe(v.rest, 4);
      var (err, value) := StoreExact(if t.id == TYPE_REAL then Real(w) else Obj(ObjectIDFromUint32(w)), k, cur);
      (Dec(Advance(v, 4), err), value)
  }

  function TextValue(v: View, t: Tag, k: Kind, cur: Value): (r: (Dec, Value))
    ensures HasKind(cur, k) ==> HasKind(r.1, k)
  {
    var (v', e, s) := StringRead(v, t.value);
    if e.Some? then (Dec(v', e), cur)
    else
      var (err, value) := StoreExact(Str(s), k, cur);
      (Dec(v', err), value)
  }

  /** The value after an application tag, stored in a target of kind `k`. */
  function AppValue(v: View, t: Tag, k: Kind, cur: Value): (r: (Dec, Value))
    ensures HasKind(cur, k) ==> HasKind(r.1, k)
  {
    if t.id == TYPE_NULL then (Dec(v, None), cur)
    else if t.id == TYPE_UNSIGNED_INT || t.id == TYPE_ENUMERATED then IntegerValue(v, t, k, cur)
    else if t.id == TYPE_REAL || t.id == TYPE_OBJECT_ID then WordValue(v, t, k, cur)
    else if t.id == TYPE_CHARACTER_STRING then TextValue(v, t, k, cur)
    else if t.id == TYPE_BOOLEAN then
      if HasKind(Bool(t.value != 0), k) then (Dec(v, None), Bool(t.value != 0)) else (Dec(v, Some(Panicked)), cur)
    else (Dec(v, Some(UnsupportedType)), cur)
  }

  /** AppData, with the target's new contents. */
  function AppData(d: Dec, k: Kind, cur: Value): (r: (Dec, Value))
    ensures HasKind(cur, k) ==> HasKind(r.1, k)
  {
    if d.err.Some? then (d, cur)
    else
      match ParseTag(d.view.rest)
      case TagError => (Dec(EXHAUSTED, Some(EndOfBuffer)), cur)
      case TagOk(t, n) =>
        var v := Advance(d.view, n);
        if t.context then (Dec(v, Some(UnexpectedContext)), cur)
        else AppValue(v, t, k, cur)
  }

  function CloseBracket(d: Dec, id: byte): Dec {
    if d.err.Some? then d
    else
      match ParseTag(d.view.rest)
      case TagError => Dec(EXHAUSTED, Some(EndOfBuffer))
      case TagOk(t, n) =>
        Dec(Advance(d.view, n),
            if !t.closing then Some(NotClosing) else if t.id == id then None else Some(IncorrectTagID(id, t.id)))
  }

  /** ContextAbstractType: an application value between brackets numbered `id`. */
  function ContextAbstractType(d: Dec, id: byte, k: Kind, cur: Value): (Dec, Value) {
    if d.err.Some? then (d, cur)
    else
      match ParseTag(d.view.rest)
      case TagError => (Dec(EXHAUSTED, Some(EndOfBuffer)), cur)
      case TagOk(t, n) =>
        var v := Advance(d.view, n);
        if !t.opening then (Dec(v, Some(NotOpening)), cur)
        else
          var d' := Dec(v, if t.id == id then None else Some(IncorrectTagID(id, t.id)));
          var (d'', value) := AppData(d', k, cur);
          (CloseBracket(d'', id), value)
  }

  class Decoder {
    const buf: Buffer
    var err: Option<Error>

    ghost predicate Valid()
      reads this, buf
    {
      buf.Valid()
    }

    ghost function State(): Dec
      reads this, buf
      requires Valid()
    {
      Dec(buf.Observe(), err)
    }

    constructor (b: seq<byte>)
      ensures Valid() && State() == Dec(View(None, b), None) && fresh(buf)
    {
      buf := new Buffer(b);
      err := None;
    }

    method ResetError()
      requires Valid()
      modifies this
      ensures Valid() && State() == old(State()).(err := None)
    {
      err := None;
    }

    /** The loop moves the cursor back one octet at a time. */
    method Unread(n: nat) returns (ok: bool)
      requires Valid()
      modifies buf
      ensures Valid() && (buf.Observe(), ok) == UnreadView(old(buf.Observe()), n)
    {
      ok := true;
      for x := 0 to n
        invariant Valid() && ok && (buf.Observe(), ok) == UnreadView(old(buf.Observe()), x)
      {
        ok := buf.UnreadByte();
        if !ok {
          return;
        }
      }
    }

    method WrongNumber(length: nat, expected: byte, got: byte)
      requires Valid()
      modifies this, buf
      ensures Valid() && State() == Mismatch(old(buf.Observe()), length, expected, got)
    {
      err := Some(IncorrectTagID(expected, got));
      var ok := Unread(length);
      if !ok {
        err := Some(UnreadFailed);
      }
    }

    method GetContextValue(id: byte, cur: uint32) returns (val: uint32)
      requires Valid()
      modifies this, buf
      ensures Valid() && State() == ContextValue(old(State()), id, cur).0 && val == ContextValue(old(State()), id, cur).1
    {
      val := cur;
      if err.Some? {
        return;
      }
      var length, t, ok := ReadTag(buf);
      if !ok {
        err := Some(EndOfBuffer);
        return;
      }
      if t.id != id {
        WrongNumber(length, id, t.id);
        return;
      }
      if !t.context {
        err := Some(NotContextual);
      }
      var v, read := ReadUnsigned(buf, t.value);
      if !read {
        err := Some(EndOfBuffer);
        return;
      }
      val := v;
    }

    method GetContextObjectID(id: byte, cur: ObjectID) returns (o: ObjectID)
      requires Valid()
      modifies this, buf
      ensures Valid() && State() == ContextObjectID(old(State()), id, cur).0 && o == ContextObjectID(old(State()), id, cur).1
    {
      o := cur;
      if err.Some? {
        return;
      }
      var length, t, ok := ReadTag(buf);
      if !ok {
        err := Some(EndOfBuffer);
        return;
      }
      if t.id != id {
        WrongNumber(length, id, t.id);
        return;
      }
      if !t.context {
        err := Some(NotContextual);
        return;
      }
      var bs, read := buf.ReadFull(4);
      o := ObjectIDFromUint32(if read then ReadBe(bs, 4) else 0);
    }

    method GetString(length: uint32) returns (e: Option<Error>, s: seq<byte>)
      requires Valid()
      modifies buf
      ensures Valid() && (buf.Observe(), e, s) == StringRead(old(buf.Observe()), length)
    {
      var enc, ok := buf.ReadByte();
      if !ok {
        return Some(EndOfBuffer), [];
      }
      if enc != Encoding.UTF8_ENCODING {
        return Some(BadStringEncoding), [];
      }
      if length == 0 {
        return Some(Panicked), [];
      }
      s, ok := buf.Read(length - 1);
      if !ok {
        return Some(EndOfBuffer), [];
      }
      if |s| != length - 1 {
        return Some(ShortString), [];
      }
      e := None;
    }

    method GetIntegerValue(t: Tag, k: Kind, cur: Value) returns (value: Value)
      requires Valid() && err.None?
      modifies this, buf
      ensures Valid() && State() == IntegerValue(old(buf.Observe()), t, k, cur).0 && value == IntegerValue(old(buf.Observe()), t, k, cur).1
    {
      var u, ok := ReadUnsigned(buf, t.value);
      if !ok {
        err := Some(EndOfBuffer);
        return cur;
      }
      var stored := if t.id == TYPE_ENUMERATED then StoreEnumerated(u, k, cur) else StoreUint(u, k, cur);
      err, value := stored.0, stored.1;
    }

    method GetWordValue(t: Tag, k: Kind, cur: Value) returns (value: Value)
      requires Valid() && err.None?
      modifies this, buf
      ensures Valid() && State() == WordValue(old(buf.Observe()), t, k, cur).0 && value == WordValue(old(buf.Observe()), t, k, cur).1
    {
      var bs, ok := buf.ReadFull(4);
      if !ok {
        err := Some(EndOfBuffer);
        return cur;
      }
      var w := ReadBe(bs, 4);
      var stored := StoreExact(if t.id == TYPE_REAL then Real(w) else Obj(ObjectIDFromUint32(w)), k, cur);
      err, value := stored.0, stored.1;
    }

    method GetTextValue(t: Tag, k: Kind, cur: Value) returns (value: Value)
      requires Valid() && err.None?
      modifies this, buf
      ensures Valid() && State() == TextValue(old(buf.Observe()), t, k, cur).0 && value == TextValue(old(buf.Observe()), t, k, cur).1
    {
      var e, s := GetString(t.value);
      if e.Some? {
        err := e;
        return cur;
      }
      var stored := StoreExact(Str(s), k, cur);
      err, value := stored.0, stored.1;
    }

    /** The switch of AppData on the tag number. */
    method GetAppValue(t: Tag, k: Kind, cur: Value) returns (value: Value)
      requires Valid() && err.None?
      modifies this, buf
      ensures Valid() && State() == AppValue(old(buf.Observe()), t, k, cur).0 && value == AppValue(old(buf.Observe()), t, k, cur).1
    {
      value := cur;
      if t.id == TYPE_NULL {
      } else if t.id == TYPE_UNSIGNED_INT || t.id == TYPE_ENUMERATED {
        value := GetIntegerValue(t, k, cur);
      } else if t.id == TYPE_REAL || t.id == TYPE_OBJECT_ID {
        value := GetWordValue(t, k, cur);
      } else if t.id == TYPE_CHARACTER_STRING {
        value := GetTextValue(t, k, cur);
      } else if t.id == TYPE_BOOLEAN {
        if !HasKind(Bool(t.value != 0), k) {
          err := Some(Panicked);
          return;
        }
        value := Bool(t.value != 0);
      } else {
        err := Some(UnsupportedType);
      }
    }

    method GetAppData(k: Kind, cur: Value) returns (value: Value)
      requires Valid()
      modifies this, buf
      ensures Valid() && State() == AppData(old(State()), k, cur).0 && value == AppData(old(State()), k, cur).1
    {
      value := cur;
      if err.Some? {
        return;
      }
      var length, t, ok := ReadTag(buf);
      if !ok {
        err := Some(EndOfBuffer);
        return;
      }
      if t.context {
        err := Some(UnexpectedContext);
        return;
      }
      value := GetAppValue(t, k, cur);
    }

    method GetContextAbstractType(id: byte, k: Kind, cur: Value) returns (value: Value)
      requires Valid()
      modifies this, buf
      ensures Valid() && State() == ContextAbstractType(old(State()), id, k, cur).0 && value == ContextAbstractType(old(State()), id, k, cur).1
    {
      value := cur;
      if err.Some? {
        return;
      }
      var length, t, ok := ReadTag(buf);
      if !ok {
        err := Some(EndOfBuffer);
        return;
      }
      if !t.opening {
        err := Some(NotOpening);
        return;
      }
      if t.id != id {
        err := Some(IncorrectTagID(id, t.id));
      }
      value := GetAppData(k, cur);
      if err.Some? {
        return;
      }
      length, t, ok := ReadTag(buf);
      if !ok {
        err := Some(EndOfBuffer);
        return;
      }
      if !t.closing {
        err := Some(NotClosing);
        return;
      }
      if t.id != id {
        err := Some(IncorrectTagID(id, t.id));
      }
    }
  }
}
