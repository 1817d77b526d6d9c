/** What each service payload keeps of itself across the wire. */
module ServiceProofs {
  import opened Bytes
  import opened Buffers
  import opened Errors
  import opened Objects
  import opened Services
  import opened CodecProofs
  import opened Tags
  import E = Encoding
  import D = Decoding

  const NO_OBJECT := ObjectID(0, 0)
  const NEW_WHO_IS := WhoIs(None, None)
  const NEW_IAM := Iam(NO_OBJECT, 0, 0, 0)
  const NEW_READ_PROPERTY := ReadProperty(NO_OBJECT, PropertyID(0, None), Nil)
  const NEW_ERROR := ApduError(0, 0)

  /** A Who-Is is accepted with limits in order and in range, and comes back into a new receiver
      exactly when it has both limits or neither: a single limit is silently dropped. */
  lemma WhoIsRoundTrip(w: WhoIs)
    ensures EncodeWhoIs(w).Encoded? <==>
              (w.low.Some? && w.high.Some? ==> w.low.value <= w.high.value <= MAX_INSTANCE)
    ensures EncodeWhoIs(w).Encoded? ==>
              (DecodeWhoIs(NEW_WHO_IS, EncodeWhoIs(w).bytes) == (w, None) <==> (w.low.Some? <==> w.high.Some?))
  {
    if w.low.Some? && w.high.Some? && EncodeWhoIs(w).Encoded? {
      var data := EncodeWhoIs(w).bytes;
      var a, b := E.ContextUnsigned(0, w.low.value).bytes, E.ContextUnsigned(1, w.high.value).bytes;
      assert data == a + (b + []);
      ContextUnsignedReads(Start(data), 0, w.low.value, b + [], 0);
      ContextUnsignedReads(D.ContextValue(Start(data), 0, 0).0, 1, w.high.value, [], 0);
    }
  }

  function IamFields(i: Iam): seq<Field> {
    [AppField(Obj(i.objectID)), AppField(Uint(i.maxApduLength)), AppField(Seg(i.segmentation)), AppField(Uint(i.vendorID))]
  }

  lemma EncodeStep(e: E.Enc, f: Field, tail: seq<Field>)
    ensures EncodeScript(e, [f] + tail) == EncodeScript(e.Add(FieldChunk(f)), tail)
  {
    assert ([f] + tail)[1..] == tail;
  }

  lemma IamEncodesScript(i: Iam)
    ensures EncodeIam(i) == Result(EncodeScript(E.FRESH, IamFields(i)))
  {
    var f0, f1, f2, f3 := AppField(Obj(i.objectID)), AppField(Uint(i.maxApduLength)), AppField(Seg(i.segmentation)), AppField(Uint(i.vendorID));
    var e1 := E.FRESH.Add(FieldChunk(f0));
    var e2 := e1.Add(FieldChunk(f1));
    EncodeStep(E.FRESH, f0, [f1, f2, f3]);
    EncodeStep(e1, f1, [f2, f3]);
    EncodeStep(e2, f2, [f3]);
    EncodeStep(e2.Add(FieldChunk(f2)), f3, []);
  }

  /** A script field of one static type is a typed read. */
  lemma TypedFields(d: D.Dec)
    ensures DecodeField(d, AppShape(KObject)) == (ReadObject(d, NO_OBJECT).0, AppField(Obj(ReadObject(d, NO_OBJECT).1)))
    ensures DecodeField(d, AppShape(KUint)) == (ReadUint(d, 0).0, AppField(Uint(ReadUint(d, 0).1)))
    ensures DecodeField(d, AppShape(KSegmentation)) == (ReadSegmentation(d, 0).0, AppField(Seg(ReadSegmentation(d, 0).1)))
  {
  }

  lemma DecodeStep(d: D.Dec, f: Field, tail: seq<Field>)
    ensures var (d', f') := DecodeField(d, ShapeOf(f));
            var (d'', fs') := DecodeScript(d', tail);
            DecodeScript(d, [f] + tail) == (d'', [f'] + fs')
  {
    assert ([f] + tail)[1..] == tail;
  }

  lemma UnrollFour(d: D.Dec, f0: Field, f1: Field, f2: Field, f3: Field)
    ensures var (d1, g0) := DecodeField(d, ShapeOf(f0));
            var (d2, g1) := DecodeField(d1, ShapeOf(f1));
            var (d3, g2) := DecodeField(d2, ShapeOf(f2));
            var (d4, g3) := DecodeField(d3, ShapeOf(f3));
            DecodeScript(d, [f0, f1, f2, f3]) == (d4, [g0, g1, g2, g3])
  {
    var (d1, g0) := DecodeField(d, ShapeOf(f0));
    var (d2, g1) := DecodeField(d1, ShapeOf(f1));
    var (d3, g2) := DecodeField(d2, ShapeOf(f2));
    var (d4, g3) := DecodeField(d3, ShapeOf(f3));
    DecodeStep(d3, f3, []);
    assert DecodeScript(d3, [f3]) == (d4, [g3]) by {
      assert [f3] + [] == [f3] && [g3] + [] == [g3];
    }
    DecodeStep(d2, f2, [f3]);
    assert DecodeScript(d2, [f2, f3]) == (d4, [g2, g3]) by {
      assert [f2] + [f3] == [f2, f3] && [g2] + [g3] == [g2, g3];
    }
    DecodeStep(d1, f1, [f2, f3]);
    assert DecodeScript(d1, [f1, f2, f3]) == (d4, [g1, g2, g3]) by {
      assert [f1] + [f2, f3] == [f1, f2, f3] && [g1] + [g2, g3] == [g1, g2, g3];
    }
    DecodeStep(d, f0, [f1, f2, f3]);
    assert [f0] + [f1, f2, f3] == [f0, f1, f2, f3] && [g0] + [g1, g2, g3] == [g0, g1, g2, g3];
  }

  lemma IamDecodesScript(i: Iam, data: seq<byte>)
    ensures var (d, fs) := DecodeScript(Start(data), IamFields(i));
            var (i', err) := DecodeIam(NEW_IAM, data);
            fs == IamFields(i') && err == d.err
  {
    UnrollFour(Start(data), AppField(Obj(i.objectID)), AppField(Uint(i.maxApduLength)),
               AppField(Seg(i.segmentation)), AppField(Uint(i.vendorID)));
    TypedFields(Start(data));
    var d1 := ReadObject(Start(data), NO_OBJECT).0;
    TypedFields(d1);
    var d2 := ReadUint(d1, 0).0;
    TypedFields(d2);
    TypedFields(ReadSegmentation(d2, 0).0);
  }

  /** An I-Am is the script of its four fields, on both sides. */
  lemma IamIsScript(i: Iam, data: seq<byte>)
    ensures EncodeIam(i) == Result(EncodeScript(E.FRESH, IamFields(i)))
    ensures var (d, fs) := DecodeScript(Start(data), IamFields(i));
            var (i', err) := DecodeIam(NEW_IAM, data);
            fs == IamFields(i') && err == d.err
  {
    IamEncodesScript(i);
    IamDecodesScript(i, data);
  }

  /** An I-Am comes back, in front of any suffix, exactly when its identifier has a ten-bit type. */
  lemma IamRoundTrip(i: Iam, rest: seq<byte>)
    requires EncodeIam(i).Encoded?
    ensures DecodeIam(NEW_IAM, EncodeIam(i).bytes + rest) == (i, None) <==> IsObjectID(i.objectID)
  {
    var fs, data := IamFields(i), EncodeIam(i).bytes + rest;
    IamIsScript(i, data);
    ScriptRoundTrip(Start(data), fs, rest);
    var i' := DecodeIam(NEW_IAM, data).0;
    assert fs == IamFields(i') <==> i == i' by {
      if fs == IamFields(i') {
        assert fs[0] == IamFields(i')[0] && fs[1] == IamFields(i')[1];
        assert fs[2] == IamFields(i')[2] && fs[3] == IamFields(i')[3];
      }
    }
    if IsObjectID(i.objectID) {
      assert forall f | f in fs :: FieldSurvives(f);
    } else {
      assert fs[0] in fs && !FieldSurvives(fs[0]);
    }
  }

  // ---- ReadProperty ----

  /** The leading fields of a ReadProperty or WriteProperty body. */
  ghost function LeadBytes(o: ObjectID, p: PropertyID): seq<byte> {
    E.ContextObjectID(0, o).bytes + E.ContextUnsigned(1, p.typ).bytes +
    (if p.arrayIndex.Some? then E.ContextUnsigned(2, p.arrayIndex.value).bytes else [])
  }

  lemma LeadEncodes(o: ObjectID, p: PropertyID)
    ensures ReadPropertyEnc(o, p).err == E.ContextObjectID(0, o).err
    ensures ReadPropertyEnc(o, p).err.None? ==> ReadPropertyEnc(o, p).out == LeadBytes(o, p)
  {
  }

  /** The reader's view of the leading fields: the three reads, and the reset when the index is absent. */
  function ReadLead(d: D.Dec, o: ObjectID): (D.Dec, ObjectID, PropertyID) {
    var (d1, o') := D.ContextObjectID(d, 0, o);
    var (d2, typ) := D.ContextValue(d1, 1, 0);
    var (d3, index) := D.ContextValue(d2, 2, 0);
    if IsIncorrectTag(d3.err) then (d3.(err := None), o', PropertyID(typ, None))
    else (d3, o', PropertyID(typ, Some(index)))
  }

  /** Looking for field `id` in front of bracket 3 ends in IncorrectTagID and moves nothing. */
  lemma BracketIsSkipped(d: D.Dec, id: byte, tail: seq<byte>)
    requires At(d, EncodeTag(E.OpeningTag(3)) + tail) && id != 3
    ensures var (d', x) := D.ContextValue(d, id, 0);
            IsIncorrectTag(d'.err) && d'.view.rest == d.view.rest && x == 0
    ensures D.ContextObjectID(d, id, NO_OBJECT) == (D.ContextValue(d, id, 0).0, NO_OBJECT)
  {
    ExpressibleTagReads(E.OpeningTag(3), tail);
    WrongTagBacktracks(d, id, 0, NO_OBJECT);
  }

  /** The optional index in front of bracket 3, present or absent. */
  lemma IndexReads(d: D.Dec, index: Option<uint32>, tail: seq<byte>)
    requires At(d, (if index.Some? then E.ContextUnsigned(2, index.value).bytes else []) + (EncodeTag(E.OpeningTag(3)) + tail))
    ensures var (d', x) := D.ContextValue(d, 2, 0);
            && d'.view.rest == EncodeTag(E.OpeningTag(3)) + tail
            && (if index.None? then IsIncorrectTag(d'.err) else d'.err.None? && x == index.value)
  {
    var bracket := EncodeTag(E.OpeningTag(3)) + tail;
    if index.Some? {
      ContextUnsignedReads(d, 2, index.value, bracket, 0);
    } else {
      assert [] + bracket == bracket;
      BracketIsSkipped(d, 2, tail);
    }
  }

  /** In front of a bracket numbered 3, the leading fields come back, the index included or absent,
      and the reader stands before the bracket again. */
  lemma LeadReads(d: D.Dec, o: ObjectID, p: PropertyID, tail: seq<byte>)
    requires E.ContextObjectID(0, o).err.None?
    requires At(d, LeadBytes(o, p) + (EncodeTag(E.OpeningTag(3)) + tail))
    ensures var (d', o', p') := ReadLead(d, NO_OBJECT);
            At(d', EncodeTag(E.OpeningTag(3)) + tail) && p' == p && (o' == o <==> IsObjectID(o))
  {
    var bracket := EncodeTag(E.OpeningTag(3)) + tail;
    var a, b := E.ContextObjectID(0, o).bytes, E.ContextUnsigned(1, p.typ).bytes;
    var c := if p.arrayIndex.Some? then E.ContextUnsigned(2, p.arrayIndex.value).bytes else [];
    E.Assoc(a + b, c, bracket);
    E.Assoc(a, b, c + bracket);
    ContextObjectIDReads(d, 0, o, b + (c + bracket), NO_OBJECT);
    var d1 := D.ContextObjectID(d, 0, NO_OBJECT).0;
    ContextUnsignedReads(d1, 1, p.typ, c + bracket, 0);
    IndexReads(D.ContextValue(d1, 1, 0).0, p.arrayIndex, tail);
  }

  /** A device's reader of a request: the same fields with nothing behind them. */
  function ReadRequest(data: seq<byte>): (ObjectID, PropertyID, D.Dec) {
    var (d1, o) := D.ContextObjectID(Start(data), 0, NO_OBJECT);
    var (d2, typ) := D.ContextValue(d1, 1, 0);
    if d2.err.None? && d2.view.rest == [] then (o, PropertyID(typ, None), d2)
    else
      var (d3, index) := D.ContextValue(d2, 2, 0);
      (o, PropertyID(typ, Some(index)), d3)
  }

  /** A ReadProperty request, with or without index, reads back field by field to its last octet exactly
      when its identifier has a ten-bit type. */
  lemma ReadRequestRoundTrip(rp: ReadProperty)
    requires EncodeReadProperty(rp).Encoded?
    ensures var (o, p, d) := ReadRequest(EncodeReadProperty(rp).bytes);
            At(d, []) && o == rp.objectID && p == rp.property <==> IsObjectID(rp.objectID)
  {
    var o, p, data := rp.objectID, rp.property, EncodeReadProperty(rp).bytes;
    LeadEncodes(o, p);
    var a, b := E.ContextObjectID(0, o).bytes, E.ContextUnsigned(1, p.typ).bytes;
    var c := if p.arrayIndex.Some? then E.ContextUnsigned(2, p.arrayIndex.value).bytes else [];
    E.Assoc(a, b, c);
    assert data == a + (b + c) && c == c + [];
    ContextObjectIDReads(Start(data), 0, o, b + c, NO_OBJECT);
    var d1 := D.ContextObjectID(Start(data), 0, NO_OBJECT).0;
    ContextUnsignedReads(d1, 1, p.typ, c, 0);
    if p.arrayIndex.Some? {
      ContextUnsignedReads(D.ContextValue(d1, 1, 0).0, 2, p.arrayIndex.value, [], 0);
    }
  }

  /** Leading octets, bracket 3 and a suffix, seen from the opening bracket. */
  lemma BracketSplit(lead: seq<byte>, body: seq<byte>, rest: seq<byte>)
    ensures var tail := body + (EncodeTag(E.ClosingTag(3)) + rest);
            && lead + Bracketed(3, body) + rest == lead + (EncodeTag(E.OpeningTag(3)) + tail)
            && EncodeTag(E.OpeningTag(3)) + tail == Bracketed(3, body) + rest
  {
    var open, close := EncodeTag(E.OpeningTag(3)), EncodeTag(E.ClosingTag(3));
    E.Assoc(open + body, close, rest);
    E.Assoc(open, body, close + rest);
    E.Assoc(lead, Bracketed(3, body), rest);
  }

  /** A device's reply: the request's fields, then the value in bracket 3. */
  ghost function ReplyBytes(o: ObjectID, p: PropertyID, v: Value): seq<byte> {
    LeadBytes(o, p) + Bracketed(3, E.AppData(v).bytes)
  }

  /** A reply built from a request's own bytes and an application value decodes to that object,
      property, index and value, through the backtrack when there is no index and whatever
      follows, exactly when the identifier and the value survive. */
  lemma ReadPropertyReplyRoundTrip(o: ObjectID, p: PropertyID, v: Value, rest: seq<byte>)
    requires EncodeReadProperty(ReadProperty(o, p, Nil)).Encoded? && E.AppData(v).err.None?
    ensures EncodeReadProperty(ReadProperty(o, p, Nil)).bytes == LeadBytes(o, p)
    ensures (DecodeReadProperty(NEW_READ_PROPERTY, ReplyBytes(o, p, v) + rest) ==
             (ReadProperty(o, p, Generic(v)), None)) <==> (IsObjectID(o) && Survives(v))
  {
    LeadEncodes(o, p);
    var body := E.AppData(v).bytes;
    var data := ReplyBytes(o, p, v) + rest;
    var tail := body + (EncodeTag(E.ClosingTag(3)) + rest);
    BracketSplit(LeadBytes(o, p), body, rest);
    LeadReads(Start(data), o, p, tail);
    BracketedValueReads(ReadLead(Start(data), NO_OBJECT).0, 3, v, rest);
  }

  /** The index is not the only optional field: a reply that starts at the bracket, or at the
      bracket after the object, is accepted too, and the missing fields read as zero. So a
      successful decode does not by itself say which object or property was read. */
  lemma MissingFieldsAreAccepted(o: ObjectID, v: Value)
    requires IsObjectID(o) && E.AppData(v).err.None? && Survives(v)
    ensures DecodeReadProperty(NEW_READ_PROPERTY, Bracketed(3, E.AppData(v).bytes))
         == (ReadProperty(NO_OBJECT, PropertyID(0, None), Generic(v)), None)
    ensures DecodeReadProperty(NEW_READ_PROPERTY, E.ContextObjectID(0, o).bytes + Bracketed(3, E.AppData(v).bytes))
         == (ReadProperty(o, PropertyID(0, None), Generic(v)), None)
  {
    var bracket := Bracketed(3, E.AppData(v).bytes);
    var tail := E.AppData(v).bytes + EncodeTag(E.ClosingTag(3));
    assert bracket == EncodeTag(E.OpeningTag(3)) + tail && bracket == bracket + [];
    var d := Start(bracket);
    BracketIsSkipped(d, 0, tail);
    var d1 := D.ContextObjectID(d, 0, NO_OBJECT).0;
    BracketedValueReads(d1.(err := None), 3, v, []);

    var data := E.ContextObjectID(0, o).bytes + bracket;
    ObjectIDRoundTrip(o);
    ContextObjectIDReads(Start(data), 0, o, bracket, NO_OBJECT);
    var d2 := D.ContextObjectID(Start(data), 0, NO_OBJECT).0;
    BracketIsSkipped(d2, 1, tail);
    BracketedValueReads(D.ContextValue(d2, 1, 0).0.(err := None), 3, v, []);
  }

  // ---- WriteProperty ----

  /** A reader of WriteProperty bodies built from the decoder's own operations: the program's own
      UnmarshalBinary for it is a stub. The priority is the last field and may be absent. */
  function ReadWriteProperty(data: seq<byte>): (ObjectID, PropertyID, Value, uint32, D.Dec) {
    var (d1, o, p) := ReadLead(Start(data), NO_OBJECT);
    var (d2, v) := D.ContextAbstractType(d1, 3, KAny, Nil);
    if d2.err.None? && d2.view.rest == [] then (o, p, v, 0, d2)
    else
      var (d3, priority) := D.ContextValue(d2, 4, 0);
      (o, p, v, priority, d3)
  }

  ghost function WriteBytes(wp: WriteProperty): seq<byte> {
    LeadBytes(wp.objectID, wp.property) + Bracketed(3, E.AbstractBody(wp.value).bytes) +
    (if wp.priority == 0 then [] else E.ContextUnsigned(4, wp.priority).bytes)
  }

  lemma WritePropertyEncodes(wp: WriteProperty)
    ensures EncodeWriteProperty(wp).Encoded? <==>
              E.ContextObjectID(0, wp.objectID).err.None? && Encodable(wp.value)
    ensures EncodeWriteProperty(wp).Encoded? ==> EncodeWriteProperty(wp).bytes == WriteBytes(wp)
  {
    var e := ReadPropertyEnc(wp.objectID, wp.property);
    LeadEncodes(wp.objectID, wp.property);
    var (e', err) := E.ContextAbstractType(e, 3, wp.value);
    if e.err.None? {
      AbstractAppends(e, 3, wp.value);
    } else {
      assert e'.err == e.err;
    }
  }

  /** The last field: absent for priority zero. */
  lemma PriorityReads(d: D.Dec, priority: byte)
    requires At(d, if priority == 0 then [] else E.ContextUnsigned(4, priority).bytes)
    ensures priority == 0 <==> d.view.rest == []
    ensures priority != 0 ==> var (d', x) := D.ContextValue(d, 4, 0); At(d', []) && x == priority
  {
    if priority != 0 {
      assert d.view.rest == d.view.rest + [];
      ContextUnsignedReads(d, 4, priority, [], 0);
    }
  }

  /** A whole WriteProperty body, with or without index and priority, reads back field by field to its
      last octet exactly when the identifier has a ten-bit type and the value has a readable type. */
  lemma WritePropertyRoundTrip(wp: WriteProperty)
    requires EncodeWriteProperty(wp).Encoded?
    ensures var (o, p, v, priority, d) := ReadWriteProperty(EncodeWriteProperty(wp).bytes);
            && (At(d, []) && o == wp.objectID && p == wp.property && priority == wp.priority &&
                v == (if wp.value.typ == TYPE_NULL then Nil else wp.value.value)
                <==> IsObjectID(wp.objectID) && Readable(wp.value))
  {
    WritePropertyEncodes(wp);
    var last := if wp.priority == 0 then [] else E.ContextUnsigned(4, wp.priority).bytes;
    var body, close := E.AbstractBody(wp.value).bytes, EncodeTag(E.ClosingTag(3));
    var tail := body + (close + last);
    var data := EncodeWriteProperty(wp).bytes;
    BracketSplit(LeadBytes(wp.objectID, wp.property), body, last);
    LeadReads(Start(data), wp.objectID, wp.property, tail);
    var d1 := ReadLead(Start(data), NO_OBJECT).0;
    WrittenValueRoundTrip(d1, 3, wp.value, last);
    var d2 := D.ContextAbstractType(d1, 3, KAny, Nil).0;
    if Readable(wp.value) {
      PriorityReads(d2, wp.priority);
    }
  }
}
