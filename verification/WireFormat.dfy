/** The wire format in plain octets: what each tag, value, field and service body looks like, written with
    the numbers of clause 20 of ANSI/ASHRAE 135 and not with the names the codec itself uses. */
module WireFormat {
  import opened Bytes
  import opened Buffers
  import opened Errors
  import opened Integers
  import opened Objects
  import opened Services
  import opened ServiceProofs
  import opened CodecProofs
  import opened Tags
  import E = Encoding
  import D = Decoding

  // ---- numbers ----

  /** The shortest big-endian numeral of `v`. */
  ghost predicate IsNumeral(s: seq<byte>, v: nat) {
    1 <= |s| <= 4 && BeValue(s) == v && (|s| > 1 ==> s[0] != 0)
  }

  /** A big-endian number of `n` octets. */
  ghost predicate IsWord(s: seq<byte>, n: nat, v: nat) {
    |s| == n && BeValue(s) == v
  }

  lemma WordsOf(v: uint32, w: uint16)
    ensures IsWord(Be32(v), 4, v) && IsWord(Be16(w), 2, w)
  {
    ReadBe32(v, []);
    ReadBe16(w, []);
    assert Be32(v) + [] == Be32(v) && Be16(w) + [] == Be16(w);
    assert Be32(v)[..4] == Be32(v) && Be16(w)[..2] == Be16(w);
    ReadBeIsValue(Be32(v), 4);
    ReadBeIsValue(Be16(w), 2);
  }

  lemma NumeralOf(v: uint32)
    ensures IsNumeral(Unsigned(v), v)
  {
    UnsignedIsMinimal(v, Be32(v)) by {
      WordsOf(v, 0);
    }
  }

  // ---- tags ----

  /** A tag that is no bracket, by the length or value it carries. */
  lemma TagOctets(id: byte, context: bool, value: uint32)
    ensures var first := 0x10 * (if id <= 14 then id else 15) + (if context then 8 else 0);
            var number := if id <= 14 then [] else [id];
            EncodeTag(Tag(id, context, value, false, false)) ==
            if value <= 4 then [first + value] + number
            else if value <= 253 then [first + 5] + number + [value]
            else if value <= 0xFFFF then [first + 5] + number + [254, value / 0x100, value % 0x100]
            else [first + 5] + number + [255] + Be32(value)
  {
  }

  /** Brackets. */
  lemma BracketOctets(id: byte)
    ensures EncodeTag(E.OpeningTag(id)) == if id <= 14 then [0x10 * id as int + 0xE] else [0xFE, id]
    ensures EncodeTag(E.ClosingTag(id)) == if id <= 14 then [0x10 * id as int + 0xF] else [0xFF, id]
  {
  }

  /** The reader's side for all octets, lengths written longer than need be included. */
  lemma OctetsOfTag(s: seq<byte>)
    requires ParseTag(s).TagOk?
    ensures var TagOk(t, n) := ParseTag(s);
            var m := if s[0] / 0x10 == 15 then 2 else 1;
            && m <= n <= |s|
            && t.id == (if m == 2 then s[1] else s[0] / 0x10)
            && t.context == (s[0] / 8 % 2 == 1) && t.opening == (s[0] % 8 == 6) && t.closing == (s[0] % 8 == 7)
            && (s[0] % 8 != 5 ==> n == m && t.value == if s[0] % 8 < 5 then s[0] % 8 else 0)
            && (s[0] % 8 == 5 && s[m] < 254 ==> n == m + 1 && t.value == s[m])
            && (s[0] % 8 == 5 && s[m] == 254 ==> n == m + 3 && t.value == BeValue(s[m + 1..n]))
            && (s[0] % 8 == 5 && s[m] == 255 ==> n == m + 5 && t.value == BeValue(s[m + 1..n]))
  {
    var m := if s[0] / 0x10 == 15 then 2 else 1;
    if s[0] % 8 == 5 && s[m] >= 254 {
      var w := if s[m] == 254 then 2 else 4;
      assert s[m..][1..] == s[m + 1..] && s[m + 1..][..w] == s[m + 1..m + 1 + w];
      ReadBeIsValue(s[m + 1..], w);
    }
  }

  /** A tag of one octet, read back. */
  lemma ShortTag(id: byte, context: bool, value: byte, rest: seq<byte>)
    requires id <= 14 && value <= 4
    ensures var s := [0x10 * id as int + (if context then 8 else 0) + value] + rest;
            ParseTag(s) == TagOk(Tag(id, context, value, false, false), 1) && s[1..] == rest
  {
    TagOctets(id, context, value);
    ExpressibleTagReads(Tag(id, context, value, false, false), rest);
  }

  // ---- application values ----

  /** The word of an object identifier: ten bits of type over 22 of instance, the eleventh lost. */
  lemma ObjectIDWord(o: ObjectID)
    ensures EncodeObjectID(o).Some? <==> o.typ <= 0x400 && o.instance <= 0x3F_FFFF
    ensures EncodeObjectID(o).Some? ==> EncodeObjectID(o).value == o.typ % 0x400 * 0x40_0000 + o.instance
  {
  }

  /** AppData knows six types, and writes each under its own number. */
  lemma AppDataOctets(v: Value)
    ensures E.AppData(v).err.None? <==>
              v.Nil? || v.Uint? || v.Real? || v.Str? || v.Seg? || (v.Obj? && v.o.typ <= 0x400 && v.o.instance <= 0x3F_FFFF)
    ensures v.Nil? ==> E.AppData(v).bytes == [0x00]
    ensures v.Uint? ==> E.AppData(v).bytes == [0x20 + |Unsigned(v.u)|] + Unsigned(v.u) && IsNumeral(Unsigned(v.u), v.u)
    ensures v.Real? ==> E.AppData(v).bytes == [0x44] + Be32(v.bits) && IsWord(Be32(v.bits), 4, v.bits)
    ensures v.Seg? ==> E.AppData(v).bytes == [0x91, v.seg]
    ensures E.AppData(v).err.None? && v.Obj? ==> E.AppData(v).bytes == [0xC4] + Be32(v.o.typ % 0x400 * 0x40_0000 + v.o.instance)
  {
    match v {
      case Nil => TagOctets(0, false, 0);
      case Uint(u) => TagOctets(2, false, ValueLength(u)); NumeralOf(u);
      case Real(bits) => TagOctets(4, false, 4); WordsOf(bits, 0);
      case Seg(b) => TagOctets(9, false, 1);
      case Obj(o) => TagOctets(12, false, 4); ObjectIDWord(o);
      case _ =>
    }
  }

  lemma EnumeratedOctets(u: uint32)
    ensures E.ContextTypeEnumerated(9, u).bytes == [0x90 + |Unsigned(u)|] + Unsigned(u) && IsNumeral(Unsigned(u), u)
  {
    TagOctets(9, false, ValueLength(u));
    NumeralOf(u);
  }

  /** A string is preceded by its length, counting the encoding octet, and that octet. */
  lemma StringOctets(s: seq<byte>)
    ensures var n, bytes := |s| + 1, E.AppData(Str(s)).bytes;
            && (n <= 4 ==> bytes == [0x70 + n] + ([0] + s))
            && (4 < n <= 253 ==> bytes == [0x75, n] + ([0] + s))
            && (253 < n <= 0xFFFF ==> bytes == [0x75, 254, n / 0x100, n % 0x100] + ([0] + s))
            && (0xFFFF < n < 0x1_0000_0000 ==> bytes == [0x75, 255] + Be32(n) + ([0] + s))
  {
    var n := |s| + 1;
    if n < 0x1_0000_0000 {
      assert n % 0x1_0000_0000 == n;
      assert E.AppData(Str(s)).bytes == EncodeTag(Tag(7, false, n, false, false)) + ([0] + s);
      TagOctets(7, false, n);
    }
  }

  ghost function NumberIn(s: seq<byte>): uint32
    requires 1 <= |s| <= 4
  {
    assert s[..|s|] == s;
    ReadBeIsValue(s, |s|);
    BeValue(s)
  }

  lemma NumberIsRead(v: View, s: seq<byte>, rest: seq<byte>)
    requires v.rest == s + rest && 1 <= |s| <= 4
    ensures UnsignedRead(v, |s|) == (Advance(v, |s|), Some(NumberIn(s))) && Advance(v, |s|).rest == rest
  {
    ReadBeIsValue(v.rest, |s|);
    assert v.rest[..|s|] == s;
  }

  lemma NumberTagAt(d: D.Dec, id: byte, s: seq<byte>, rest: seq<byte>)
    requires id <= 14 && 1 <= |s| <= 4 && At(d, [0x10 * id as int + |s|] + s + rest)
    ensures ParseTag(d.view.rest) == TagOk(Tag(id, false, |s|, false, false), 1)
    ensures Advance(d.view, 1).rest == s + rest
  {
    assert d.view.rest == [0x10 * id as int + |s|] + (s + rest);
    ShortTag(id, false, |s|, s + rest);
  }

  lemma NumberTagIsRead(d: D.Dec, id: byte, s: seq<byte>, rest: seq<byte>, k: Kind, cur: Value)
    requires id <= 14 && 1 <= |s| <= 4 && At(d, [0x10 * id as int + |s|] + s + rest)
    ensures var v := Advance(d.view, 1);
            && v.rest == s + rest
            && D.AppData(d, k, cur) == D.AppValue(v, Tag(id, false, |s|, false, false), k, cur)
  {
    NumberTagAt(d, id, s, rest);
  }

  /** What a target receives from the octets of an unsigned, the shortest or not. */
  lemma UnsignedFromOctets(d: D.Dec, s: seq<byte>, rest: seq<byte>, k: Kind, cur: Value)
    requires 1 <= |s| <= 4 && At(d, [0x20 + |s|] + s + rest) && (k == KAny || k == KUint)
    ensures At(D.AppData(d, k, cur).0, rest) && D.AppData(d, k, cur).1 == Uint(NumberIn(s))
  {
    NumberTagIsRead(d, 2, s, rest, k, cur);
    NumberIsRead(Advance(d.view, 1), s, rest);
  }

  /** And from those of an enumerated: the named types keep their low octets. */
  lemma EnumeratedFromOctets(d: D.Dec, s: seq<byte>, rest: seq<byte>, k: Kind, cur: Value)
    requires 1 <= |s| <= 4 && At(d, [0x90 + |s|] + s + rest)
    requires k == KAny || k == KCode || k == KClass || k == KSegmentation
    ensures At(D.AppData(d, k, cur).0, rest)
    ensures var u, v := NumberIn(s), D.AppData(d, k, cur).1;
            && (k == KAny ==> v == Uint(u)) && (k == KCode ==> v == Code(u))
            && (k == KClass ==> v == Class(u % 0x1_0000)) && (k == KSegmentation ==> v == Seg(u % 0x100))
  {
    NumberTagIsRead(d, 9, s, rest, k, cur);
    NumberIsRead(Advance(d.view, 1), s, rest);
  }

  /** A boolean is its tag's length field: false for zero, true for one to four. */
  lemma BooleanFromOctets(d: D.Dec, x: byte, rest: seq<byte>, cur: Value)
    requires x <= 4 && At(d, [0x10 + x] + rest)
    ensures D.AppData(d, KAny, cur) == (D.Dec(Advance(d.view, 1), None), Bool(x != 0))
  {
    OctetsOfTag(d.view.rest);
  }

  // ---- fields ----

  /** A context field of an unsigned, a signed or an identifier. */
  lemma FieldOctets(id: byte, u: uint32, i: int32, o: ObjectID)
    requires id <= 14
    ensures E.ContextUnsigned(id, u).bytes == [0x10 * id as int + 8 + |Unsigned(u)|] + Unsigned(u) && IsNumeral(Unsigned(u), u)
    ensures E.ContextSigned(id, i).bytes == [0x10 * id as int + 8 + |Signed(i)|] + Signed(i) && SignedValue(Signed(i)) == i
    ensures o.typ <= 0x400 && o.instance <= 0x3F_FFFF ==>
              E.ContextObjectID(id, o).bytes == [0x10 * id as int + 12] + Be32(o.typ % 0x400 * 0x40_0000 + o.instance)
  {
    TagOctets(id, true, ValueLength(u));
    TagOctets(id, true, SignedLength(i));
    TagOctets(id, true, 4);
    NumeralOf(u);
    SignedMeans(i);
    ObjectIDWord(o);
  }

  /** With any number, the tag of a signed field announces exactly the octets behind it. */
  lemma SignedFieldIsTagged(id: byte, i: int32)
    ensures var bytes := E.ContextSigned(id, i).bytes;
            && ParseTag(bytes).TagOk?
            && var TagOk(t, n) := ParseTag(bytes);
               && t == Tag(id, true, |bytes| - n, false, false) && 1 <= |bytes| - n <= 4
               && SignedValue(bytes[n..]) == i
  {
    var t := E.ContextTag(id, SignedLength(i));
    ExpressibleTagReads(t, Signed(i));
    assert E.ContextSigned(id, i).bytes[|EncodeTag(t)|..] == Signed(i);
    SignedMeans(i);
  }

  /** A field of the right number under an application tag is an error, and stored all the same. */
  lemma NonContextualIsStored(d: D.Dec, id: byte, s: seq<byte>, rest: seq<byte>, cur: uint32)
    requires id <= 14 && 1 <= |s| <= 4 && At(d, [0x10 * id as int + |s|] + s + rest)
    ensures var (d', x) := D.ContextValue(d, id, cur);
            d'.err == Some(NotContextual) && d'.view.rest == rest && x == NumberIn(s)
  {
    NumberTagAt(d, id, s, rest);
    NumberIsRead(Advance(d.view, 1), s, rest);
  }

  /** An identifier cut short counts as zero, and the end is met by the next field only. */
  lemma ShortObjectIDIsZero(d: D.Dec, id: byte, length: byte, s: seq<byte>, cur: ObjectID)
    requires id <= 14 && length <= 4 && |s| < 4 && At(d, [0x10 * id as int + 8 + length] + s)
    ensures D.ContextObjectID(d, id, cur) == (D.Dec(EXHAUSTED, None), ObjectID(0, 0))
  {
    OctetsOfTag(d.view.rest);
  }

  // ---- written values ----

  /** ContextAsbtractType accepts a value of the declared type, and six types with any value. */
  lemma WrittenTypes(v: PropertyValue)
    ensures Encodable(v) <==>
              || v.typ == 0 || (v.typ == 1 && v.value.Bool?) || (v.typ == 2 && v.value.Uint?) || (v.typ == 3 && v.value.Int?)
              || ((v.typ == 4 || v.typ == 5) && v.value.Real?) || (v.typ == 9 && v.value.Uint?)
              || v.typ == 6 || v.typ == 7 || v.typ == 8 || v.typ == 10 || v.typ == 11 || v.typ == 12
  {
  }

  /** What each declared type is written as: the integers under context tags, the double cut to four octets
      and the last six as nothing at all. */
  lemma WrittenOctets(v: PropertyValue)
    requires Encodable(v)
    ensures var bytes := E.AbstractBody(v).bytes;
            && (v.typ == 0 ==> bytes == [0x01])
            && (v.typ == 1 ==> bytes == [if v.value.b then 0x11 else 0x10])
            && (v.typ == 2 ==> bytes == [0x28 + |Unsigned(v.value.u)|] + Unsigned(v.value.u) && IsNumeral(Unsigned(v.value.u), v.value.u))
            && (v.typ == 3 ==> bytes == [0x38 + |Signed(v.value.i)|] + Signed(v.value.i) && SignedValue(Signed(v.value.i)) == v.value.i)
            && (v.typ == 4 ==> bytes == [0x44] + Be32(v.value.bits))
            && (v.typ == 5 ==> bytes == [0x55, 8] + Be32(v.value.bits))
            && (v.typ == 9 ==> bytes == [0x90 + |Unsigned(v.value.u)|] + Unsigned(v.value.u) && IsNumeral(Unsigned(v.value.u), v.value.u))
            && ((6 <= v.typ <= 8 || 10 <= v.typ) ==> bytes == [])
  {
    WrittenTypes(v);
    if v.typ == 2 {
      FieldOctets(2, v.value.u, 0, NO_OBJECT);
    } else if v.typ == 3 {
      FieldOctets(3, 0, v.value.i, NO_OBJECT);
    } else if v.typ == 9 {
      EnumeratedOctets(v.value.u);
    } else {
      TagOctets(v.typ, false, if v.typ == 0 then 1 else if v.typ == 1 then (if v.value.b then 1 else 0) else if v.typ == 4 then 4 else 8);
    }
  }

  // ---- service bodies ----

  /** Who-Is: two context fields, or nothing. */
  lemma WhoIsOctets(w: WhoIs)
    requires EncodeWhoIs(w).Encoded?
    ensures EncodeWhoIs(w).bytes ==
            if w.low.None? || w.high.None? then []
            else ([0x08 + |Unsigned(w.low.value)|] + Unsigned(w.low.value)) + ([0x18 + |Unsigned(w.high.value)|] + Unsigned(w.high.value))
  {
    if w.low.Some? && w.high.Some? {
      FieldOctets(0, w.low.value, 0, NO_OBJECT);
      FieldOctets(1, w.high.value, 0, NO_OBJECT);
    }
  }

  lemma IamIsFour(i: Iam)
    ensures var o := E.AppData(Obj(i.objectID));
            EncodeIam(i) == if o.err.Some? then Refused(o.err.value)
                            else Encoded(o.bytes + E.AppData(Uint(i.maxApduLength)).bytes + E.AppData(Seg(i.segmentation)).bytes
                                         + E.AppData(Uint(i.vendorID)).bytes)
  {
    var o, m := E.AppData(Obj(i.objectID)), E.AppData(Uint(i.maxApduLength));
    var e1 := E.FRESH.Add(o);
    assert e1 == E.Enc(o.bytes, o.err);
    if o.err.None? {
      assert e1.Add(m) == E.Enc(o.bytes + m.bytes, None);
    }
  }

  /** I-Am: an identifier, an unsigned, an enumerated of one octet, an unsigned. */
  lemma IamOctets(i: Iam)
    ensures EncodeIam(i).Encoded? <==> i.objectID.typ <= 0x400 && i.objectID.instance <= 0x3F_FFFF
    ensures EncodeIam(i).Encoded? ==>
              EncodeIam(i).bytes ==
              ([0xC4] + Be32(i.objectID.typ % 0x400 * 0x40_0000 + i.objectID.instance)) +
              ([0x20 + |Unsigned(i.maxApduLength)|] + Unsigned(i.maxApduLength)) +
              [0x91, i.segmentation] +
              ([0x20 + |Unsigned(i.vendorID)|] + Unsigned(i.vendorID))
  {
    IamIsFour(i);
    AppDataOctets(Obj(i.objectID));
    AppDataOctets(Uint(i.maxApduLength));
    AppDataOctets(Seg(i.segmentation));
    AppDataOctets(Uint(i.vendorID));
  }

  /** The leading fields of ReadProperty and WriteProperty. */
  function LeadOctets(o: ObjectID, p: PropertyID): seq<byte> {
    ([0x0C] + Be32(o.typ % 0x400 * 0x40_0000 + o.instance % 0x40_0000)) + ([0x18 + |Unsigned(p.typ)|] + Unsigned(p.typ)) +
    (if p.arrayIndex.Some? then [0x28 + |Unsigned(p.arrayIndex.value)|] + Unsigned(p.arrayIndex.value) else [])
  }

  lemma LeadIs(o: ObjectID, p: PropertyID)
    requires o.typ <= 0x400 && o.instance <= 0x3F_FFFF
    ensures LeadBytes(o, p) == LeadOctets(o, p)
  {
    assert o.instance % 0x40_0000 == o.instance;
    FieldOctets(0, p.typ, 0, o);
    FieldOctets(1, p.typ, 0, o);
    if p.arrayIndex.Some? {
      FieldOctets(2, p.arrayIndex.value, 0, o);
    }
  }

  lemma ReadPropertyOctets(rp: ReadProperty)
    ensures EncodeReadProperty(rp).Encoded? <==> rp.objectID.typ <= 0x400 && rp.objectID.instance <= 0x3F_FFFF
    ensures EncodeReadProperty(rp).Encoded? ==> EncodeReadProperty(rp).bytes == LeadOctets(rp.objectID, rp.property)
  {
    LeadEncodes(rp.objectID, rp.property);
    ObjectIDWord(rp.objectID);
    if EncodeReadProperty(rp).Encoded? {
      LeadIs(rp.objectID, rp.property);
    }
  }

  /** The value stands in bracket 3, and the priority is field 4. */
  lemma WritePropertyOctets(wp: WriteProperty)
    ensures EncodeWriteProperty(wp).Encoded? <==>
              wp.objectID.typ <= 0x400 && wp.objectID.instance <= 0x3F_FFFF && Encodable(wp.value)
    ensures EncodeWriteProperty(wp).Encoded? ==>
              EncodeWriteProperty(wp).bytes ==
              LeadOctets(wp.objectID, wp.property) + ([0x3E] + E.AbstractBody(wp.value).bytes + [0x3F]) +
              (if wp.priority == 0 then [] else [0x49, wp.priority])
  {
    WritePropertyEncodes(wp);
    ObjectIDWord(wp.objectID);
    BracketOctets(3);
    if EncodeWriteProperty(wp).Encoded? {
      LeadIs(wp.objectID, wp.property);
      FieldOctets(4, wp.priority, 0, wp.objectID);
    }
  }

  /** A device's reply: the request's octets, and the value in bracket 3. */
  lemma ReplyOctets(o: ObjectID, p: PropertyID, v: Value)
    requires IsObjectID(o)
    ensures ReplyBytes(o, p, v) == LeadOctets(o, p) + ([0x3E] + E.AppData(v).bytes + [0x3F])
  {
    ObjectIDRoundTrip(o);
    ObjectIDWord(o);
    LeadIs(o, p);
    BracketOctets(3);
  }
}
