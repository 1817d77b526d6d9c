/** The decoder undoes the encoder: field by field, over whole scripts, and after a backtrack. */
module CodecProofs {
  import opened Bytes
  import opened Buffers
  import opened Errors
  import opened Integers
  import opened Objects
  import opened Tags
  import E = Encoding
  import D = Decoding

  /** A decoder without error in front of `rest`. */
  ghost predicate At(d: D.Dec, rest: seq<byte>) {
    d.err.None? && d.view.rest == rest
  }

  // ---- single fields ----

  lemma ContextUnsignedReads(d: D.Dec, id: byte, x: uint32, rest: seq<byte>, cur: uint32)
    requires At(d, E.ContextUnsigned(id, x).bytes + rest)
    ensures var (d', y) := D.ContextValue(d, id, cur);
            At(d', rest) && y == x
  {
    var t := E.ContextTag(id, ValueLength(x));
    E.Assoc(EncodeTag(t), Unsigned(x), rest);
    ExpressibleTagReads(t, Unsigned(x) + rest);
    UnsignedReads(x, Advance(d.view, |EncodeTag(t)|), rest);
  }

  lemma ContextObjectIDReads(d: D.Dec, id: byte, o: ObjectID, rest: seq<byte>, cur: ObjectID)
    requires E.ContextObjectID(id, o).err.None?
    requires At(d, E.ContextObjectID(id, o).bytes + rest)
    ensures var (d', o') := D.ContextObjectID(d, id, cur);
            At(d', rest) && (o' == o <==> IsObjectID(o))
  {
    var t, w := E.ContextTag(id, 4), EncodeObjectID(o).value;
    ObjectIDRoundTrip(o);
    E.Assoc(EncodeTag(t), Be32(w), rest);
    ExpressibleTagReads(t, Be32(w) + rest);
    ReadBe32(w, rest);
  }

  /** The values that are read back as written. */
  predicate Survives(v: Value) {
    (v.Obj? ==> IsObjectID(v.o)) && (v.Str? ==> |v.s| + 1 < 0x1_0000_0000)
  }

  /** The target a written value is read into, and its zero. */
  function KindOf(v: Value): Kind {
    match v
    case Uint(_) => KUint
    case Real(_) => KReal
    case Str(_) => KString
    case Obj(_) => KObject
    case Seg(_) => KSegmentation
    case _ => KAny
  }

  function Zero(k: Kind): Value {
    match k
    case KUint => Uint(0)
    case KReal => Real(0)
    case KString => Str([])
    case KObject => Obj(ObjectID(0, 0))
    case KSegmentation => Seg(0)
    case KBool => Bool(false)
    case KClass => Class(0)
    case KCode => Code(0)
    case KAny => Nil
  }

  /** What an empty interface holds afterwards: an enumerated loses its name. */
  function Generic(v: Value): Value {
    if v.Seg? then Uint(v.seg) else v
  }

  lemma AppTagReads(d: D.Dec, t: Tag, body: seq<byte>, k: Kind, cur: Value)
    requires Expressible(t) && !t.context && At(d, EncodeTag(t) + body)
    ensures |EncodeTag(t)| >= 1
    ensures var v := Advance(d.view, |EncodeTag(t)|);
            v.rest == body && D.AppData(d, k, cur) == D.AppValue(v, t, k, cur)
  {
    ExpressibleTagReads(t, body);
  }

  /** The tag and the octets after it of an application value. */
  function AppTagOf(v: Value): Tag
    requires E.AppData(v).err.None?
  {
    match v
    case Nil => E.AppTag(TYPE_NULL, 0)
    case Real(_) => E.AppTag(TYPE_REAL, 4)
    case Str(s) => E.AppTag(TYPE_CHARACTER_STRING, (|s| + 1) % 0x1_0000_0000)
    case Uint(u) => E.AppTag(TYPE_UNSIGNED_INT, ValueLength(u))
    case Seg(b) => E.AppTag(TYPE_ENUMERATED, ValueLength(b))
    case Obj(_) => E.AppTag(TYPE_OBJECT_ID, 4)
  }

  function AppPayload(v: Value): seq<byte>
    requires E.AppData(v).err.None?
  {
    match v
    case Nil => []
    case Real(bits) => Be32(bits)
    case Str(s) => [E.UTF8_ENCODING] + s
    case Uint(u) => Unsigned(u)
    case Seg(b) => Unsigned(b)
    case Obj(o) => Be32(EncodeObjectID(o).value)
  }

  lemma AppDataShape(v: Value)
    requires E.AppData(v).err.None?
    ensures E.AppData(v).bytes == EncodeTag(AppTagOf(v)) + AppPayload(v)
  {
  }

  lemma StringReads(v: View, s: seq<byte>, rest: seq<byte>)
    requires v.rest == ([E.UTF8_ENCODING] + s) + rest
    ensures var (v', e, s') := D.StringRead(v, (|s| + 1) % 0x1_0000_0000);
            if |s| + 1 < 0x1_0000_0000 then e.None? && s' == s && v'.rest == rest else e.Some? || |s'| < |s|
  {
    assert v.rest[1..] == s + rest;
  }

  lemma WordValueReads(w: View, v: Value, word: uint32, rest: seq<byte>, k: Kind, cur: Value)
    requires v == Real(word) || (v.Obj? && EncodeObjectID(v.o) == Some(word) && ObjectIDFromUint32(word) == v.o)
    requires w.rest == Be32(word) + rest && HasKind(v, k)
    ensures D.AppValue(w, AppTagOf(v), k, cur) == (D.Dec(Advance(w, 4), None), v) && Advance(w, 4).rest == rest
  {
    ReadBe32(word, rest);
  }

  lemma TextValueReads(w: View, s: seq<byte>, rest: seq<byte>, k: Kind, cur: Value)
    requires w.rest == ([E.UTF8_ENCODING] + s) + rest && |s| + 1 < 0x1_0000_0000 && HasKind(Str(s), k)
    ensures var (d', y) := D.AppValue(w, AppTagOf(Str(s)), k, cur);
            At(d', rest) && y == Str(s)
  {
    StringReads(w, s, rest);
  }

  /** The value after an application tag comes back exactly and leaves the suffix. */
  lemma AppValueReads(w: View, v: Value, rest: seq<byte>, k: Kind, cur: Value)
    requires E.AppData(v).err.None? && Survives(v) && w.rest == AppPayload(v) + rest
    requires k == KindOf(v) || k == KAny
    ensures var (d', y) := D.AppValue(w, AppTagOf(v), k, cur);
            At(d', rest) && y == if v.Nil? then cur else if k == KAny then Generic(v) else v
  {
    match v {
      case Nil =>
      case Real(bits) => WordValueReads(w, v, bits, rest, k, cur);
      case Str(s) => TextValueReads(w, s, rest, k, cur);
      case Uint(u) => UnsignedReads(u, w, rest);
      case Seg(b) => UnsignedReads(b, w, rest);
      case Obj(o) =>
        ObjectIDRoundTrip(o);
        WordValueReads(w, v, EncodeObjectID(o).value, rest, k, cur);
    }
  }

  /** The two values that are accepted but do not survive: an object type of 0x400 and a
      string whose length overflows its tag. */
  lemma AppValueLoses(w: View, v: Value, rest: seq<byte>, k: Kind)
    requires E.AppData(v).err.None? && !Survives(v) && w.rest == AppPayload(v) + rest
    requires k == KindOf(v) || k == KAny
    ensures D.AppValue(w, AppTagOf(v), k, Zero(k)).1 != v
  {
    match v {
      case Str(s) => StringReads(w, s, rest);
      case Obj(o) =>
        ObjectIDRoundTrip(o);
        ReadBe32(EncodeObjectID(o).value, rest);
    }
  }

  /** An application value, read with its own kind or through an empty interface, comes back
      exactly when it survives, and then leaves the suffix. */
  lemma AppDataReads(d: D.Dec, v: Value, rest: seq<byte>, k: Kind, cur: Value)
    requires At(d, E.AppData(v).bytes + rest) && E.AppData(v).err.None?
    requires k == KindOf(v) || k == KAny
    ensures var (d', y) := D.AppData(d, k, cur);
            && (Survives(v) ==> At(d', rest) && y == if v.Nil? then cur else if k == KAny then Generic(v) else v)
            && (!Survives(v) && cur == Zero(k) ==> y != v)
            && (k == KAny && cur == Nil ==> (y == Generic(v) <==> Survives(v)))
  {
    AppDataShape(v);
    var t, body := AppTagOf(v), AppPayload(v);
    E.Assoc(EncodeTag(t), body, rest);
    AppTagReads(d, t, body + rest, k, cur);
    var w := Advance(d.view, |EncodeTag(t)|);
    if Survives(v) {
      AppValueReads(w, v, rest, k, cur);
    } else {
      AppValueLoses(w, v, rest, k);
    }
  }

  // ---- scripts of fields ----

  datatype Field = UnsignedField(id: byte, value: uint32) | ObjectField(id: byte, o: ObjectID) | AppField(v: Value)
  datatype Shape = UnsignedShape(id: byte) | ObjectShape(id: byte) | AppShape(kind: Kind)

  function ShapeOf(f: Field): Shape {
    match f
    case UnsignedField(id, _) => UnsignedShape(id)
    case ObjectField(id, _) => ObjectShape(id)
    case AppField(v) => AppShape(KindOf(v))
  }

  function FieldChunk(f: Field): E.Chunk {
    match f
    case UnsignedField(id, value) => E.ContextUnsigned(id, value)
    case ObjectField(id, o) => E.ContextObjectID(id, o)
    case AppField(v) => E.AppData(v)
  }

  /** The decoder call for a shape, into a fresh target. */
  function DecodeField(d: D.Dec, s: Shape): (D.Dec, Field) {
    match s
    case UnsignedShape(id) => var (d', x) := D.ContextValue(d, id, 0); (d', UnsignedField(id, x))
    case ObjectShape(id) => var (d', o) := D.ContextObjectID(d, id, ObjectID(0, 0)); (d', ObjectField(id, o))
    case AppShape(k) => var (d', v) := D.AppData(d, k, Zero(k)); (d', AppField(v))
  }

  /** A sequence of encoder calls whose error is looked at only in the end. */
  function EncodeScript(e: E.Enc, fs: seq<Field>): E.Enc
    decreases |fs|
  {
    if fs == [] then e else EncodeScript(e.Add(FieldChunk(fs[0])), fs[1..])
  }

  function DecodeScript(d: D.Dec, fs: seq<Field>): (D.Dec, seq<Field>)
    decreases |fs|
  {
    if fs == [] then (d, [])
    else
      var (d', f) := DecodeField(d, ShapeOf(fs[0]));
      var (d'', rest) := DecodeScript(d', fs[1..]);
      (d'', [f] + rest)
  }

  predicate FieldSurvives(f: Field) {
    match f
    case UnsignedField(_, _) => true
    case ObjectField(_, o) => IsObjectID(o)
    case AppField(v) => Survives(v)
  }

  /** The sticky error: once set, it is there at the end. */
  lemma {:induction false} ErrorSticks(e: E.Enc, fs: seq<Field>)
    requires e.err.Some?
    ensures EncodeScript(e, fs) == e
    decreases |fs|
  {
    if fs != [] {
      ErrorSticks(e.Add(FieldChunk(fs[0])), fs[1..]);
    }
  }

  /** The octets a script writes do not depend on what is written before. */
  lemma {:induction false} ScriptAppends(out: seq<byte>, fs: seq<Field>)
    ensures var s, f := EncodeScript(E.Enc(out, None), fs), EncodeScript(E.FRESH, fs);
            s.err == f.err && s.out == out + f.out
    decreases |fs|
  {
    if fs != [] {
      var c, tail := FieldChunk(fs[0]), fs[1..];
      if c.err.Some? {
        ErrorSticks(E.Enc(out, None).Add(c), tail);
        ErrorSticks(E.FRESH.Add(c), tail);
      } else {
        ScriptAppends(out + c.bytes, tail);
        ScriptAppends(c.bytes, tail);
        assert E.FRESH.Add(c) == E.Enc(c.bytes, None);
        E.Assoc(out, c.bytes, EncodeScript(E.FRESH, tail).out);
      }
    }
  }

  lemma ScriptHead(fs: seq<Field>)
    requires fs != [] && EncodeScript(E.FRESH, fs).err.None?
    ensures FieldChunk(fs[0]).err.None? && EncodeScript(E.FRESH, fs[1..]).err.None?
    ensures EncodeScript(E.FRESH, fs).out == FieldChunk(fs[0]).bytes + EncodeScript(E.FRESH, fs[1..]).out
  {
    var c := FieldChunk(fs[0]);
    assert E.FRESH.Add(c) == E.Enc(c.bytes, c.err);
    if c.err.Some? {
      ErrorSticks(E.FRESH.Add(c), fs[1..]);
    }
    ScriptAppends(c.bytes, fs[1..]);
  }

  lemma FieldReads(d: D.Dec, f: Field, rest: seq<byte>)
    requires At(d, FieldChunk(f).bytes + rest) && FieldChunk(f).err.None?
    ensures var (d', f') := DecodeField(d, ShapeOf(f));
            (f' == f <==> FieldSurvives(f)) && (FieldSurvives(f) ==> At(d', rest))
  {
    match f {
      case UnsignedField(id, value) => ContextUnsignedReads(d, id, value, rest, 0);
      case ObjectField(id, o) => ContextObjectIDReads(d, id, o, rest, ObjectID(0, 0));
      case AppField(v) =>
        AppDataReads(d, v, rest, KindOf(v), Zero(KindOf(v)));
    }
  }

  /** Whatever list of fields a fresh encoder accepts, the matching decoder calls give back
      every value, without error and up to the suffix, exactly when each field survives. */
  lemma {:induction false} ScriptRoundTrip(d: D.Dec, fs: seq<Field>, rest: seq<byte>)
    requires EncodeScript(E.FRESH, fs).err.None?
    requires At(d, EncodeScript(E.FRESH, fs).out + rest)
    ensures var (d', fs') := DecodeScript(d, fs);
            && (fs' == fs <==> forall f | f in fs :: FieldSurvives(f))
            && (fs' == fs ==> At(d', rest))
    decreases |fs|
  {
    if fs != [] {
      var c, tail := FieldChunk(fs[0]), fs[1..];
      ScriptHead(fs);
      var rest' := EncodeScript(E.FRESH, tail).out + rest;
      E.Assoc(c.bytes, EncodeScript(E.FRESH, tail).out, rest);
      FieldReads(d, fs[0], rest');
      assert fs == [fs[0]] + tail;
      if FieldSurvives(fs[0]) {
        ScriptRoundTrip(DecodeField(d, ShapeOf(fs[0])).0, tail, rest);
      } else {
        assert DecodeScript(d, fs).1[0] != fs[0];
      }
    }
  }

  // ---- the backtrack ----

  /** A decoder operation depends on the unread octets, not on what was read before. */
  lemma OnlyRestMatters(d: D.Dec, d': D.Dec, id: byte, cur: uint32, o: ObjectID, k: Kind, v: Value)
    requires d.err.None? && At(d', d.view.rest)
    ensures D.ContextValue(d, id, cur) == D.ContextValue(d', id, cur)
    ensures D.ContextObjectID(d, id, o) == D.ContextObjectID(d', id, o)
    ensures D.AppData(d, k, v) == D.AppData(d', k, v)
    ensures D.ContextAbstractType(d, id, k, v) == D.ContextAbstractType(d', id, k, v)
  {
  }

  /** A tag with the wrong number ends in IncorrectTagID exactly when it is a single octet. Then the
      decoder, once its error is reset, is in front of the same octets with its target untouched.
      A longer tag ends in another error, with all but its last octet lost. */
  lemma WrongTagBacktracks(d: D.Dec, id: byte, cur: uint32, o: ObjectID)
    requires d.err.None? && ParseTag(d.view.rest).TagOk? && ParseTag(d.view.rest).tag.id != id
    ensures var TagOk(t, n) := ParseTag(d.view.rest);
            var (d', x) := D.ContextValue(d, id, cur);
            && D.ContextObjectID(d, id, o) == (d', o) && x == cur
            && (d'.err == Some(IncorrectTagID(id, t.id)) <==> n == 1)
            && (d'.err == Some(UnreadFailed) <==> n > 1)
            && d'.view.rest == d.view.rest[n - 1..]
  {
    var n := ParseTag(d.view.rest).length;
    assert d.view.rest[n - 1..] == [d.view.rest[n - 1]] + d.view.rest[n..];
  }

  /** The promise in the comments of ContextValue and ContextObjectID: whenever IncorrectTagID is the
      outcome of either, a retry after ResetError, of any operation, does what it would have done first. */
  lemma RetryGuarantee(d: D.Dec, d': D.Dec, id: byte, cur: uint32, id2: byte, cur2: uint32, o: ObjectID, k: Kind, v: Value)
    requires d.err.None? && d'.err.Some? && d'.err.value.IncorrectTagID?
    requires d' == D.ContextValue(d, id, cur).0 || d' == D.ContextObjectID(d, id, o).0
    ensures D.ContextValue(d, id, cur) == (d', cur) && D.ContextObjectID(d, id, o) == (d', o)
    ensures var r := d'.(err := None);
            && D.ContextValue(r, id2, cur2) == D.ContextValue(d, id2, cur2)
            && D.ContextObjectID(r, id2, o) == D.ContextObjectID(d, id2, o)
            && D.AppData(r, k, v) == D.AppData(d, k, v)
            && D.ContextAbstractType(r, id2, k, v) == D.ContextAbstractType(d, id2, k, v)
  {
    WrongTagBacktracks(d, id, cur, o);
    OnlyRestMatters(d, d'.(err := None), id2, cur2, o, k, v);
  }

  // ---- bracketed values ----

  /** Accepted by the encoder: a declared type with a value of that type, or one of the
      types that write nothing. */
  predicate Encodable(v: PropertyValue) {
    E.AbstractBody(v).err.None?
  }

  ghost function Bracketed(id: byte, body: seq<byte>): seq<byte> {
    EncodeTag(E.OpeningTag(id)) + body + EncodeTag(E.ClosingTag(id))
  }

  /** On an encoder without error, an accepted value appends its bracketed body. */
  lemma AbstractAppends(e: E.Enc, id: byte, v: PropertyValue)
    requires e.err.None?
    ensures var (e', err) := E.ContextAbstractType(e, id, v);
            && err == E.AbstractBody(v).err
            && (err.None? ==> e' == E.Enc(e.out + Bracketed(id, E.AbstractBody(v).bytes), None))
  {
    var open, body, close := EncodeTag(E.OpeningTag(id)), E.AbstractBody(v).bytes, EncodeTag(E.ClosingTag(id));
    E.Assoc(e.out, open, body);
    E.Assoc(e.out, open + body, close);
  }

  /** An opening bracket, an application value, a closing bracket. */
  lemma BracketsRead(d: D.Dec, id: byte, body: seq<byte>, rest: seq<byte>, k: Kind, cur: Value)
    returns (inner: D.Dec)
    requires At(d, Bracketed(id, body) + rest)
    ensures At(inner, body + (EncodeTag(E.ClosingTag(id)) + rest))
    ensures var (d', x) := D.AppData(inner, k, cur);
            var (d'', y) := D.ContextAbstractType(d, id, k, cur);
            && y == x
            && (At(d', EncodeTag(E.ClosingTag(id)) + rest) ==> At(d'', rest))
            && (d'.err.Some? ==> d''.err == d'.err)
  {
    var open, close := EncodeTag(E.OpeningTag(id)), EncodeTag(E.ClosingTag(id));
    E.Assoc(open + body, close, rest);
    E.Assoc(open, body, close + rest);
    ExpressibleTagReads(E.OpeningTag(id), body + (close + rest));
    ExpressibleTagReads(E.ClosingTag(id), rest);
    inner := D.Dec(Advance(d.view, |open|), None);
  }

  /** A value AppData wrote, put between brackets, reads back exactly when it survives. */
  lemma BracketedValueReads(d: D.Dec, id: byte, v: Value, rest: seq<byte>)
    requires E.AppData(v).err.None?
    requires At(d, Bracketed(id, E.AppData(v).bytes) + rest)
    ensures var (d', x) := D.ContextAbstractType(d, id, KAny, Nil);
            && (x == Generic(v) <==> Survives(v))
            && (Survives(v) ==> At(d', rest))
  {
    var inner := BracketsRead(d, id, E.AppData(v).bytes, rest, KAny, Nil);
    AppDataReads(inner, v, EncodeTag(E.ClosingTag(id)) + rest, KAny, Nil);
  }

  /** The declared types whose written form the decoder understands. */
  predicate Readable(v: PropertyValue) {
    v.typ == TYPE_NULL || v.typ == TYPE_BOOLEAN || v.typ == TYPE_REAL || v.typ == TYPE_ENUMERATED
  }

  /** An enumerated is stored whatever its target makes of it, and leaves the suffix. */
  lemma EnumeratedReads(d: D.Dec, u: uint32, rest: seq<byte>, k: Kind, cur: Value)
    requires At(d, E.ContextTypeEnumerated(TYPE_ENUMERATED, u).bytes + rest)
    ensures var (d', y) := D.AppData(d, k, cur);
            var (err, z) := D.StoreEnumerated(u, k, cur);
            d'.view.rest == rest && d'.err == err && y == z
  {
    var t := E.AppTag(TYPE_ENUMERATED, ValueLength(u));
    E.Assoc(EncodeTag(t), Unsigned(u), rest);
    AppTagReads(d, t, Unsigned(u) + rest, k, cur);
    UnsignedReads(u, Advance(d.view, |EncodeTag(t)|), rest);
  }

  lemma ReadableBodyReads(inner: D.Dec, v: PropertyValue, close: seq<byte>)
    requires Encodable(v) && Readable(v) && At(inner, E.AbstractBody(v).bytes + close)
    ensures var (d', x) := D.AppData(inner, KAny, Nil);
            At(d', close) && x == if v.typ == TYPE_NULL then Nil else v.value
  {
    if v.typ == TYPE_NULL {
      AppTagReads(inner, E.AppTag(v.typ, 1), close, KAny, Nil);
    } else if v.typ == TYPE_BOOLEAN {
      AppTagReads(inner, E.AppTag(v.typ, if v.value.b then 1 else 0), close, KAny, Nil);
    } else if v.typ == TYPE_REAL {
      AppDataReads(inner, v.value, close, KAny, Nil);
    } else {
      EnumeratedReads(inner, v.value.u, close, KAny, Nil);
    }
  }

  lemma UnreadableBodyFails(inner: D.Dec, id: byte, v: PropertyValue, rest: seq<byte>)
    requires Encodable(v) && !Readable(v)
    requires At(inner, E.AbstractBody(v).bytes + (EncodeTag(E.ClosingTag(id)) + rest))
    ensures D.AppData(inner, KAny, Nil).0.err
         == Some(if v.typ == TYPE_DOUBLE then UnsupportedType else UnexpectedContext)
  {
    var close := EncodeTag(E.ClosingTag(id)) + rest;
    if v.typ == TYPE_UNSIGNED_INT {
      E.Assoc(EncodeTag(E.ContextTag(v.typ, ValueLength(v.value.u))), Unsigned(v.value.u), close);
      ExpressibleTagReads(E.ContextTag(v.typ, ValueLength(v.value.u)), Unsigned(v.value.u) + close);
    } else if v.typ == TYPE_SIGNED_INT {
      E.Assoc(EncodeTag(E.ContextTag(v.typ, SignedLength(v.value.i))), Signed(v.value.i), close);
      ExpressibleTagReads(E.ContextTag(v.typ, SignedLength(v.value.i)), Signed(v.value.i) + close);
    } else if v.typ == TYPE_DOUBLE {
      E.Assoc(EncodeTag(E.AppTag(v.typ, 8)), Be32(v.value.bits), close);
      AppTagReads(inner, E.AppTag(v.typ, 8), Be32(v.value.bits) + close, KAny, Nil);
    } else {
      assert inner.view.rest == close;
      ExpressibleTagReads(E.ClosingTag(id), rest);
    }
  }

  /** A written property value comes back, between its brackets, exactly for the null, boolean, real
      and enumerated types. The others the encoder accepts are refused by the decoder: integers
      carry a context tag, a double has no reader, and six types write nothing. */
  lemma WrittenValueRoundTrip(d: D.Dec, id: byte, v: PropertyValue, rest: seq<byte>)
    requires Encodable(v) && At(d, Bracketed(id, E.AbstractBody(v).bytes) + rest)
    ensures var (d', x) := D.ContextAbstractType(d, id, KAny, Nil);
            && (Readable(v) <==> At(d', rest) && x == if v.typ == TYPE_NULL then Nil else v.value)
            && (!Readable(v) ==> d'.err == Some(if v.typ == TYPE_DOUBLE then UnsupportedType else UnexpectedContext))
  {
    var inner := BracketsRead(d, id, E.AbstractBody(v).bytes, rest, KAny, Nil);
    if Readable(v) {
      ReadableBodyReads(inner, v, EncodeTag(E.ClosingTag(id)) + rest);
    } else {
      UnreadableBodyFails(inner, id, v, rest);
    }
  }
}
