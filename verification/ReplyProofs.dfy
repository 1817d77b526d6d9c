/** Which octets a ReadProperty reply may consist of, and which of its fields they really carry. */
module ReplyProofs {
  import opened Bytes
  import opened Buffers
  import opened Errors
  import opened Integers
  import opened Objects
  import opened Services
  import opened ServiceProofs
  import opened CodecProofs
  import opened Tags
  import E = Encoding
  import D = Decoding

  // ---- the grammar, by tags and octet counts ----

  predicate Numbered(s: seq<byte>, id: byte) {
    ParseTag(s).TagOk? && ParseTag(s).tag.id == id
  }

  /** An integer of one to four octets; a tag of any other length is followed by none. */
  function IntegerSize(t: Tag): nat {
    if 1 <= t.value <= 4 then t.value else 0
  }

  /** The octets of field `id` at the head of `s`, nothing if they are not one. An identifier, numbered
      zero, takes four octets whatever its length says. */
  function FieldSize(s: seq<byte>, id: byte): (k: Option<nat>)
    ensures k.Some? ==> ParseTag(s).TagOk? && ParseTag(s).length <= k.value <= |s| && k.value <= ParseTag(s).length + 4
  {
    match ParseTag(s)
    case TagError => None
    case TagOk(t, n) =>
      var m := if id == 0 then 4 else IntegerSize(t);
      if t.id == id && t.context && n + m <= |s| then Some(n + m) else None
  }

  /** The octets after an application tag, nothing for a type or a content the decoder refuses. */
  function ContentSize(t: Tag, s: seq<byte>): Option<nat> {
    if t.id == TYPE_NULL || t.id == TYPE_BOOLEAN then Some(0)
    else if t.id == TYPE_UNSIGNED_INT || t.id == TYPE_ENUMERATED then Some(IntegerSize(t))
    else if t.id == TYPE_REAL || t.id == TYPE_OBJECT_ID then Some(4)
    else if t.id == TYPE_CHARACTER_STRING && t.value >= 1 && s != [] && s[0] == E.UTF8_ENCODING then Some(t.value)
    else None
  }

  function ValueSize(s: seq<byte>): (k: Option<nat>)
    ensures k.Some? ==> k.value <= |s|
  {
    match ParseTag(s)
    case TagError => None
    case TagOk(t, n) =>
      match ContentSize(t, s[n..])
      case None => None
      case Some(m) => if !t.context && n + m <= |s| then Some(n + m) else None
  }

  predicate OpensWith(s: seq<byte>, id: byte) {
    Numbered(s, id) && ParseTag(s).tag.opening
  }

  predicate ClosesWith(s: seq<byte>, id: byte) {
    Numbered(s, id) && ParseTag(s).tag.closing
  }

  /** An application value between brackets numbered 3, and then anything. */
  predicate BracketedValue(s: seq<byte>) {
    OpensWith(s, 3) &&
    var body := s[ParseTag(s).length..];
    match ValueSize(body)
    case None => false
    case Some(k) => ClosesWith(body[k..], 3)
  }

  /** The opening bracket 3 in its one-octet form, the only one a field's absence can be told from. */
  predicate AtBracket(s: seq<byte>) {
    s != [] && IsOpeningTag(s[0]) && s[0] / 0x10 == 3
  }

  /** Where the bracket of a reply must stand, from field `id` on: behind the present fields, which are
      in order, the first absent one being followed at once by the bracket. */
  function BracketAt(s: seq<byte>, id: byte): Option<seq<byte>>
    requires id <= 3
    decreases 3 - id
  {
    if id == 3 then Some(s)
    else if Numbered(s, id) then
      match FieldSize(s, id)
      case None => None
      case Some(k) => BracketAt(s[k..], id + 1)
    else if AtBracket(s) then Some(s)
    else None
  }

  predicate WellFormed(s: seq<byte>) {
    BracketAt(s, 0).Some? && BracketedValue(BracketAt(s, 0).value)
  }

  // ---- values that make the decoder panic ----

  /** The content of an application tag cannot be stored in a target of kind `k`, or is a string too
      short for its own encoding octet. */
  predicate ContentPanics(t: Tag, s: seq<byte>, k: Kind) {
    if t.id == TYPE_BOOLEAN then k != KBool && k != KAny
    else if t.id == TYPE_UNSIGNED_INT then IntegerSize(t) <= |s| && (k == KSegmentation || k == KClass || k == KCode)
    else t.id == TYPE_CHARACTER_STRING && t.value == 0 && s != [] && s[0] == E.UTF8_ENCODING
  }

  predicate ValuePanics(s: seq<byte>, k: Kind) {
    ParseTag(s).TagOk? && !ParseTag(s).tag.context && ContentPanics(ParseTag(s).tag, s[ParseTag(s).length..], k)
  }

  predicate BracketPanics(s: seq<byte>) {
    OpensWith(s, 3) && ValuePanics(s[ParseTag(s).length..], KAny)
  }

  /** Of a ReadProperty reply only a string of length zero can do it. */
  predicate ReplyPanics(s: seq<byte>) {
    BracketAt(s, 0).Some? && BracketPanics(BracketAt(s, 0).value)
  }

  // ---- payloads of typed fields ----

  /** The targets of I-Am and Error: an identifier, an unsigned, and three named integers. */
  predicate Typed(k: Kind) {
    k == KObject || k == KUint || k == KSegmentation || k == KClass || k == KCode
  }

  function TagOf(k: Kind): byte
    requires Typed(k)
  {
    if k == KObject then TYPE_OBJECT_ID else if k == KUint then TYPE_UNSIGNED_INT else TYPE_ENUMERATED
  }

  /** The octets behind the tag of a typed value; a null has none. */
  function TypedContent(t: Tag, k: Kind): nat
    requires Typed(k)
  {
    if t.id != TagOf(k) then 0 else if k == KObject then 4 else IntegerSize(t)
  }

  /** The octets a typed target accepts at the head of `s`: its own type, or a null, which stores
      nothing; nothing if they are neither. */
  function TypedSize(s: seq<byte>, k: Kind): (m: Option<nat>)
    requires Typed(k)
    ensures m.Some? ==> m.value <= |s|
  {
    match ParseTag(s)
    case TagError => None
    case TagOk(t, n) =>
      var m := TypedContent(t, k);
      if !t.context && (t.id == TagOf(k) || t.id == TYPE_NULL) && n + m <= |s| then Some(n + m) else None
  }

  /** The octets are values for these targets in order, and then anything. */
  predicate Fill(s: seq<byte>, ks: seq<Kind>)
    requires forall k | k in ks :: Typed(k)
    decreases |ks|
  {
    ks == [] || (TypedSize(s, ks[0]).Some? && Fill(s[TypedSize(s, ks[0]).value..], ks[1..]))
  }

  /** Behind some that fit, one makes the decoder panic. */
  predicate FillPanics(s: seq<byte>, ks: seq<Kind>)
    requires forall k | k in ks :: Typed(k)
    decreases |ks|
  {
    ks != [] &&
    (ValuePanics(s, ks[0]) || (TypedSize(s, ks[0]).Some? && FillPanics(s[TypedSize(s, ks[0]).value..], ks[1..])))
  }

  const ERROR_FIELDS := [KClass, KCode]
  const IAM_FIELDS := [KObject, KUint, KSegmentation, KUint]

  // ---- one field ----

  lemma NumberBound(s: seq<byte>)
    requires |s| <= 4
    ensures BeValue(s) < 0x1_0000_0000
  {
    if s != [] {
      assert s[..|s|] == s;
      ReadBeIsValue(s, |s|);
    }
  }

  /** The number a field's octets spell; no octets spell zero. */
  ghost function FieldNumber(s: seq<byte>, id: byte): uint32
    requires FieldSize(s, id).Some?
  {
    var octets := s[ParseTag(s).length..FieldSize(s, id).value];
    NumberBound(octets);
    BeValue(octets)
  }

  /** An error that handleMessage ignores. */
  predicate Tame(err: Option<Error>) {
    err != Some(Panicked) && err != Some(NotBacnetIP)
  }

  /** Any read of a field: it is there, or it is absent before a one-octet tag and nothing moves, or
      the decoder has failed for good. */
  lemma ValueFieldReads(d: D.Dec, id: byte, cur: uint32)
    requires d.err.None? && 1 <= id
    ensures var s := d.view.rest;
            var (d', x) := D.ContextValue(d, id, cur);
            && (d'.err.None? <==> FieldSize(s, id).Some?)
            && (d'.err.None? ==> d'.view.rest == s[FieldSize(s, id).value..] && x == FieldNumber(s, id))
            && (IsIncorrectTag(d'.err) <==> ParseTag(s).TagOk? && !Numbered(s, id) && ParseTag(s).length == 1)
            && (IsIncorrectTag(d'.err) ==> d'.view.rest == s && x == cur)
            && Tame(d'.err)
  {
    var s := d.view.rest;
    if ParseTag(s).TagOk? {
      var TagOk(t, n) := ParseTag(s);
      if t.id != id {
        WrongTagBacktracks(d, id, cur, NO_OBJECT);
      } else if 1 <= t.value <= 4 && n + t.value <= |s| {
        assert s[n..][..t.value] == s[n..n + t.value];
        ReadBeIsValue(s[n..], t.value);
      }
    }
  }

  lemma ObjectFieldReads(d: D.Dec, cur: ObjectID)
    requires d.err.None?
    ensures var s := d.view.rest;
            var (d', o) := D.ContextObjectID(d, 0, cur);
            && (FieldSize(s, 0).Some? ==> At(d', s[FieldSize(s, 0).value..]) && o == ObjectIDFromUint32(FieldNumber(s, 0)))
            && (d'.err.None? && FieldSize(s, 0).None? ==> d'.view.rest == [])
            && (IsIncorrectTag(d'.err) <==> ParseTag(s).TagOk? && !Numbered(s, 0) && ParseTag(s).length == 1)
            && (IsIncorrectTag(d'.err) ==> d'.view.rest == s && o == cur)
            && Tame(d'.err)
  {
    var s := d.view.rest;
    if ParseTag(s).TagOk? {
      var TagOk(t, n) := ParseTag(s);
      if t.id != 0 {
        WrongTagBacktracks(d, 0, 0, cur);
      } else if n + 4 <= |s| {
        assert s[n..][..4] == s[n..n + 4] && s[n..][4..] == s[n + 4..];
        ReadBeIsValue(s[n..], 4);
      }
    }
  }

  // ---- the bracketed value ----

  lemma StringContentReads(v: View, t: Tag, cur: Value)
    requires t.id == TYPE_CHARACTER_STRING && v.rest != []
    ensures var d' := D.TextValue(v, t, KAny, cur).0;
            && (d'.err.None? <==> 1 <= t.value <= |v.rest| && v.rest[0] == E.UTF8_ENCODING)
            && (d'.err.None? ==> d'.view.rest == v.rest[t.value..])
  {
  }

  lemma ContentReads(v: View, t: Tag, cur: Value)
    ensures var k, d' := ContentSize(t, v.rest), D.AppValue(v, t, KAny, cur).0;
            && (d'.err.None? <==> k.Some? && k.value <= |v.rest|)
            && (d'.err.None? ==> d'.view.rest == v.rest[k.value..])
  {
    if t.id == TYPE_CHARACTER_STRING && v.rest != [] {
      StringContentReads(v, t, cur);
    }
  }

  lemma IntegerPanicsIff(v: View, t: Tag, k: Kind, cur: Value)
    requires t.id == TYPE_UNSIGNED_INT || t.id == TYPE_ENUMERATED
    ensures var err := D.IntegerValue(v, t, k, cur).0.err;
            && (err == Some(Panicked) <==> ContentPanics(t, v.rest, k))
            && err != Some(NotBacnetIP)
  {
  }

  lemma WordIsTame(v: View, t: Tag, k: Kind, cur: Value)
    ensures Tame(D.WordValue(v, t, k, cur).0.err)
  {
  }

  lemma StringPanicsIff(v: View, t: Tag, k: Kind, cur: Value)
    requires t.id == TYPE_CHARACTER_STRING
    ensures var err := D.TextValue(v, t, k, cur).0.err;
            && (err == Some(Panicked) <==> ContentPanics(t, v.rest, k))
            && err != Some(NotBacnetIP)
  {
  }

  lemma ContentPanicsIff(v: View, t: Tag, k: Kind, cur: Value)
    ensures var err := D.AppValue(v, t, k, cur).0.err;
            && (err == Some(Panicked) <==> ContentPanics(t, v.rest, k))
            && err != Some(NotBacnetIP)
  {
    if t.id == TYPE_UNSIGNED_INT || t.id == TYPE_ENUMERATED {
      IntegerPanicsIff(v, t, k, cur);
    } else if t.id == TYPE_REAL || t.id == TYPE_OBJECT_ID {
      WordIsTame(v, t, k, cur);
    } else if t.id == TYPE_CHARACTER_STRING {
      StringPanicsIff(v, t, k, cur);
    }
  }

  lemma ValueReads(d: D.Dec, cur: Value)
    requires d.err.None?
    ensures var s, d' := d.view.rest, D.AppData(d, KAny, cur).0;
            && (d'.err.None? <==> ValueSize(s).Some?)
            && (d'.err.None? ==> d'.view.rest == s[ValueSize(s).value..])
  {
    var s := d.view.rest;
    if ParseTag(s).TagOk? {
      var TagOk(t, n) := ParseTag(s);
      ContentReads(Advance(d.view, n), t, cur);
    }
  }

  /** Storing a value, in a target of any kind, panics exactly when its octets say so. */
  lemma ValuePanicsIff(d: D.Dec, k: Kind, cur: Value)
    requires d.err.None?
    ensures D.AppData(d, k, cur).0.err == Some(Panicked) <==> ValuePanics(d.view.rest, k)
    ensures D.AppData(d, k, cur).0.err != Some(NotBacnetIP)
  {
    var s := d.view.rest;
    if ParseTag(s).TagOk? {
      var TagOk(t, n) := ParseTag(s);
      ContentPanicsIff(Advance(d.view, n), t, k, cur);
    }
  }

  lemma ClosingReads(d: D.Dec)
    ensures D.CloseBracket(d, 3).err.None? <==> d.err.None? && ClosesWith(d.view.rest, 3)
    ensures d.err.Some? ==> D.CloseBracket(d, 3).err == d.err
    ensures d.err.None? ==> Tame(D.CloseBracket(d, 3).err)
  {
  }

  lemma NoBracketFails(d: D.Dec, cur: Value)
    requires d.err.None? && !OpensWith(d.view.rest, 3)
    ensures D.ContextAbstractType(d, 3, KAny, cur).0.err.Some? && Tame(D.ContextAbstractType(d, 3, KAny, cur).0.err)
  {
  }

  lemma BracketReads(d: D.Dec, cur: Value)
    requires d.err.None?
    ensures var err := D.ContextAbstractType(d, 3, KAny, cur).0.err;
            && (err.None? <==> BracketedValue(d.view.rest))
            && (err == Some(Panicked) <==> BracketPanics(d.view.rest))
            && err != Some(NotBacnetIP)
  {
    var s := d.view.rest;
    if OpensWith(s, 3) {
      var inner := D.Dec(Advance(d.view, ParseTag(s).length), None);
      var inner', x := D.AppData(inner, KAny, cur).0, D.AppData(inner, KAny, cur).1;
      ValueReads(inner, cur);
      ValuePanicsIff(inner, KAny, cur);
      ClosingReads(inner');
      assert D.ContextAbstractType(d, 3, KAny, cur) == (D.CloseBracket(inner', 3), x);
    } else {
      NoBracketFails(d, cur);
    }
  }

  // ---- the reply ----

  lemma BracketTag(s: seq<byte>)
    ensures AtBracket(s) <==> OpensWith(s, 3) && ParseTag(s).length == 1
  {
  }

  /** The end of the reply, after the field that was looked for last. */
  function LastError(d: D.Dec): Option<Error> {
    D.ContextAbstractType(if IsIncorrectTag(d.err) then d.(err := None) else d, 3, KAny, Nil).0.err
  }

  /** The decoder goes on to the bracket. */
  predicate GoesOn(d: D.Dec) {
    d.err.None? || IsIncorrectTag(d.err)
  }

  lemma LastErrorIs(d: D.Dec)
    requires Tame(d.err)
    ensures LastError(d).None? <==> GoesOn(d) && BracketedValue(d.view.rest)
    ensures LastError(d) == Some(Panicked) <==> GoesOn(d) && BracketPanics(d.view.rest)
    ensures LastError(d) != Some(NotBacnetIP)
  {
    if GoesOn(d) {
      BracketReads(D.Dec(d.view, None), Nil);
    }
  }

  /** Of fields from `id` on in `s`, the decoder has reached the bracket if they lead to one. */
  ghost predicate Reached(d: D.Dec, s: seq<byte>, id: byte)
    requires id <= 3
  {
    Tame(d.err) &&
    match BracketAt(s, id)
    case None => !GoesOn(d) || !OpensWith(d.view.rest, 3)
    case Some(bracket) => GoesOn(d) && d.view.rest == bracket
  }

  lemma IndexLeads(d: D.Dec)
    requires d.err.None?
    ensures Reached(D.ContextValue(d, 2, 0).0, d.view.rest, 2)
  {
    var s := d.view.rest;
    ValueFieldReads(d, 2, 0);
    BracketTag(s);
    if FieldSize(s, 2).Some? {
      assert BracketAt(s, 2) == BracketAt(s[FieldSize(s, 2).value..], 3);
    }
  }

  lemma PropertyLeads(d: D.Dec)
    requires d.err.None?
    ensures Reached(D.ContextValue(D.ContextValue(d, 1, 0).0, 2, 0).0, d.view.rest, 1)
  {
    var d' := D.ContextValue(d, 1, 0).0;
    ValueFieldReads(d, 1, 0);
    BracketTag(d.view.rest);
    if d'.err.None? {
      IndexLeads(d');
    } else {
      assert D.ContextValue(d', 2, 0).0 == d';
    }
  }

  /** The decoder behind the three leading fields. */
  function Lead(data: seq<byte>, cur: ObjectID): D.Dec {
    D.ContextValue(D.ContextValue(D.ContextObjectID(Start(data), 0, cur).0, 1, 0).0, 2, 0).0
  }

  lemma FieldsLead(data: seq<byte>)
    ensures Reached(Lead(data, NO_OBJECT), data, 0)
  {
    var d := D.ContextObjectID(Start(data), 0, NO_OBJECT).0;
    ObjectFieldReads(Start(data), NO_OBJECT);
    BracketTag(data);
    if d.err.None? {
      PropertyLeads(d);
    } else {
      assert D.ContextValue(d, 1, 0).0 == d && D.ContextValue(d, 2, 0).0 == d;
    }
  }

  /** A reply is decoded without error exactly when it is well formed, whatever follows it, and its
      decoding panics exactly when its octets say so. */
  lemma ReplyAcceptedIff(data: seq<byte>)
    ensures var err := DecodeReadProperty(NEW_READ_PROPERTY, data).1;
            && (err.None? <==> WellFormed(data))
            && (err == Some(Panicked) <==> ReplyPanics(data))
            && err != Some(NotBacnetIP)
  {
    FieldsLead(data);
    LastErrorIs(Lead(data, NO_OBJECT));
    assert DecodeReadProperty(NEW_READ_PROPERTY, data).1 == LastError(Lead(data, NO_OBJECT));
  }

  // ---- errors and I-Am ----

  lemma TypedIntegerReads(v: View, t: Tag, k: Kind, cur: Value)
    requires Typed(k) && (t.id == TYPE_UNSIGNED_INT || t.id == TYPE_ENUMERATED)
    ensures var d' := D.IntegerValue(v, t, k, cur).0;
            && (d'.err.None? <==> t.id == TagOf(k) && IntegerSize(t) <= |v.rest|)
            && (d'.err.None? ==> d'.view.rest == v.rest[IntegerSize(t)..])
  {
  }

  lemma TypedWordReads(v: View, t: Tag, k: Kind, cur: Value)
    requires Typed(k) && (t.id == TYPE_REAL || t.id == TYPE_OBJECT_ID)
    ensures var d' := D.WordValue(v, t, k, cur).0;
            && (d'.err.None? <==> t.id == TagOf(k) && 4 <= |v.rest|)
            && (d'.err.None? ==> d'.view.rest == v.rest[4..])
  {
  }

  lemma TypedContentReads(v: View, t: Tag, k: Kind, cur: Value)
    requires Typed(k)
    ensures var m, d' := TypedContent(t, k), D.AppValue(v, t, k, cur).0;
            && (d'.err.None? <==> (t.id == TagOf(k) || t.id == TYPE_NULL) && m <= |v.rest|)
            && (d'.err.None? ==> d'.view.rest == v.rest[m..])
  {
    if t.id == TYPE_CHARACTER_STRING {
      assert D.TextValue(v, t, k, cur).0.err.Some?;
    } else if t.id == TYPE_REAL || t.id == TYPE_OBJECT_ID {
      TypedWordReads(v, t, k, cur);
    } else if t.id == TYPE_UNSIGNED_INT || t.id == TYPE_ENUMERATED {
      TypedIntegerReads(v, t, k, cur);
    }
  }

  lemma TypedReads(d: D.Dec, k: Kind, cur: Value)
    requires d.err.None? && Typed(k)
    ensures var s, d' := d.view.rest, D.AppData(d, k, cur).0;
            && (d'.err.None? <==> TypedSize(s, k).Some?)
            && (d'.err.None? ==> d'.view.rest == s[TypedSize(s, k).value..])
  {
    var s := d.view.rest;
    if ParseTag(s).TagOk? {
      var TagOk(t, n) := ParseTag(s);
      TypedContentReads(Advance(d.view, n), t, k, cur);
    }
  }

  /** A decoder that has `ks` still to read ends in `err`. */
  ghost predicate EndsIn(d: D.Dec, ks: seq<Kind>, err: Option<Error>)
    requires forall k | k in ks :: Typed(k)
  {
    && (err.None? <==> d.err.None? && Fill(d.view.rest, ks))
    && (err == Some(Panicked) <==> d.err == Some(Panicked) || (d.err.None? && FillPanics(d.view.rest, ks)))
    && (err == Some(NotBacnetIP) ==> d.err == Some(NotBacnetIP))
  }

  lemma ReadsNext(d: D.Dec, k: Kind, cur: Value, ks: seq<Kind>, err: Option<Error>)
    requires Typed(k) && (forall x | x in ks :: Typed(x))
    requires EndsIn(D.AppData(d, k, cur).0, ks, err)
    ensures EndsIn(d, [k] + ks, err)
  {
    assert ([k] + ks)[1..] == ks;
    if d.err.None? {
      TypedReads(d, k, cur);
      ValuePanicsIff(d, k, cur);
    }
  }

  /** The same for an error: a class and a code. */
  lemma ErrorAcceptedIff(data: seq<byte>)
    ensures var err := DecodeApduError(NEW_ERROR, data).1;
            && (err.None? <==> Fill(data, ERROR_FIELDS))
            && (err == Some(Panicked) <==> FillPanics(data, ERROR_FIELDS))
            && err != Some(NotBacnetIP)
  {
    var err := DecodeApduError(NEW_ERROR, data).1;
    var d := ReadClass(Start(data), 0).0;
    ReadsNext(d, KCode, Code(0), [], err);
    ReadsNext(Start(data), KClass, Class(0), [KCode] + [], err);
    assert ERROR_FIELDS == [KClass] + ([KCode] + []);
  }

  /** And for an I-Am: an identifier, an unsigned, a segmentation and an unsigned. */
  lemma IamAcceptedIff(data: seq<byte>)
    ensures var err := DecodeIam(NEW_IAM, data).1;
            && (err.None? <==> Fill(data, IAM_FIELDS))
            && (err == Some(Panicked) <==> FillPanics(data, IAM_FIELDS))
            && err != Some(NotBacnetIP)
  {
    var err := DecodeIam(NEW_IAM, data).1;
    var d1 := ReadObject(Start(data), NO_OBJECT).0;
    var d2 := ReadUint(d1, 0).0;
    var d3 := ReadSegmentation(d2, 0).0;
    ReadsNext(d3, KUint, Uint(0), [], err);
    ReadsNext(d2, KSegmentation, Seg(0), [KUint] + [], err);
    ReadsNext(d1, KUint, Uint(0), [KSegmentation] + ([KUint] + []), err);
    ReadsNext(Start(data), KObject, Obj(NO_OBJECT), [KUint] + ([KSegmentation] + ([KUint] + [])), err);
    assert IAM_FIELDS == [KObject] + ([KUint] + ([KSegmentation] + ([KUint] + [])));
  }

  lemma ContextValueIsTame(d: D.Dec, id: byte, cur: uint32)
    requires Tame(d.err)
    ensures Tame(D.ContextValue(d, id, cur).0.err)
  {
  }

  /** A Who-Is has context fields only, and never panics. */
  lemma WhoIsIsTame(data: seq<byte>)
    ensures Tame(DecodeWhoIs(NEW_WHO_IS, data).1)
  {
    ContextValueIsTame(Start(data), 0, 0);
    ContextValueIsTame(D.ContextValue(Start(data), 0, 0).0, 1, 0);
  }

  // ---- what an accepted reply says ----

  /** What is behind the object. */
  function AfterObject(data: seq<byte>): seq<byte>
    requires FieldSize(data, 0).Some?
  {
    data[FieldSize(data, 0).value..]
  }

  /** The second field is numbered one and has octets. */
  predicate CarriesProperty(data: seq<byte>) {
    FieldSize(data, 0).Some? && Numbered(AfterObject(data), 1) && 1 <= ParseTag(AfterObject(data)).tag.value <= 4
  }

  /** The step from `d` to `d'` ended well and read octets behind a tag. */
  ghost predicate TookOctets(d: D.Dec, d': D.Dec) {
    d'.err.None? && ParseTag(d.view.rest).TagOk? &&
    |d'.view.rest| + ParseTag(d.view.rest).length < |d.view.rest|
  }

  /** Of a reply decoded without error, the object was read from octets exactly when the first tag is
      number zero, and not when the reply starts at the bracket. Only then does the identifier not
      depend on what the receiver held. */
  lemma ReplyNamesItsObject(data: seq<byte>)
    requires DecodeReadProperty(NEW_READ_PROPERTY, data).1.None?
    ensures var o := DecodeReadProperty(NEW_READ_PROPERTY, data).0.objectID;
            && (TookOctets(Start(data), D.ContextObjectID(Start(data), 0, NO_OBJECT).0) <==> Numbered(data, 0))
            && (!Numbered(data, 0) <==> AtBracket(data))
            && (Numbered(data, 0) <==> forall x :: DecodeReadProperty(ReadProperty(x, PropertyID(0, None), Nil), data).0.objectID == o)
            && (Numbered(data, 0) ==> FieldSize(data, 0).Some? && EncodeObjectID(o) == Some(FieldNumber(data, 0)))
            && (!Numbered(data, 0) ==> o == NO_OBJECT)
  {
    ReplyAcceptedIff(data);
    BracketTag(data);
    ObjectFieldReads(Start(data), NO_OBJECT);
    forall x: ObjectID
      ensures DecodeReadProperty(ReadProperty(x, PropertyID(0, None), Nil), data).0.objectID
           == if Numbered(data, 0) then ObjectIDFromUint32(FieldNumber(data, 0)) else x
    {
      ObjectFieldReads(Start(data), x);
    }
    if Numbered(data, 0) {
      WordRoundTrip(FieldNumber(data, 0), NO_OBJECT);
    } else {
      var x := ObjectID(1, 0);
      assert DecodeReadProperty(ReadProperty(x, PropertyID(0, None), Nil), data).0.objectID == x;
    }
  }

  /** And the property was read from octets exactly when, after that object, comes a tag numbered one
      with a length of one to four; otherwise it reads as zero. */
  lemma ReplyNamesItsProperty(data: seq<byte>)
    requires DecodeReadProperty(NEW_READ_PROPERTY, data).1.None?
    ensures var p := DecodeReadProperty(NEW_READ_PROPERTY, data).0.property;
            var d := D.ContextObjectID(Start(data), 0, NO_OBJECT).0;
            && (TookOctets(d, D.ContextValue(d, 1, 0).0) <==> CarriesProperty(data))
            && (CarriesProperty(data) ==> FieldSize(AfterObject(data), 1).Some? && p.typ == FieldNumber(AfterObject(data), 1))
            && (!CarriesProperty(data) ==> p.typ == 0)
  {
    ReplyAcceptedIff(data);
    BracketTag(data);
    ObjectFieldReads(Start(data), NO_OBJECT);
    var d := D.ContextObjectID(Start(data), 0, NO_OBJECT).0;
    if d.err.None? {
      ValueFieldReads(d, 1, 0);
      PropertyLeads(d);
    }
  }

  function AfterProperty(data: seq<byte>): seq<byte>
    requires FieldSize(data, 0).Some? && FieldSize(AfterObject(data), 1).Some?
  {
    AfterObject(data)[FieldSize(AfterObject(data), 1).value..]
  }

  /** And it has an array index exactly when, after object and property, comes a tag numbered two; the
      index is what its octets spell, zero if there are none. */
  lemma ReplyNamesItsIndex(data: seq<byte>)
    requires DecodeReadProperty(NEW_READ_PROPERTY, data).1.None?
    ensures DecodeReadProperty(NEW_READ_PROPERTY, data).0.property.arrayIndex
         == if FieldSize(data, 0).Some? && FieldSize(AfterObject(data), 1).Some? && FieldSize(AfterProperty(data), 2).Some? then
              Some(FieldNumber(AfterProperty(data), 2))
            else None
  {
    ReplyAcceptedIff(data);
    BracketTag(data);
    ObjectFieldReads(Start(data), NO_OBJECT);
    var d := D.ContextObjectID(Start(data), 0, NO_OBJECT).0;
    if d.err.None? {
      ValueFieldReads(d, 1, 0);
      PropertyLeads(d);
      var d' := D.ContextValue(d, 1, 0).0;
      if d'.err.None? {
        ValueFieldReads(d', 2, 0);
        IndexLeads(d');
      }
    }
  }

  /** The third way to leave the property out: a tag of the right number whose length announces more
      than four octets, or none. */
  lemma EmptyPropertyIsAccepted(o: ObjectID, length: uint32, v: Value)
    requires IsObjectID(o) && E.AppData(v).err.None? && Survives(v)
    requires length == 0 || 4 < length
    ensures DecodeReadProperty(NEW_READ_PROPERTY, E.ContextObjectID(0, o).bytes + (EncodeTag(E.ContextTag(1, length)) + Bracketed(3, E.AppData(v).bytes)))
         == (ReadProperty(o, PropertyID(0, None), Generic(v)), None)
  {
    var bracket := Bracketed(3, E.AppData(v).bytes);
    var t := E.ContextTag(1, length);
    var tail := E.AppData(v).bytes + EncodeTag(E.ClosingTag(3));
    assert bracket == EncodeTag(E.OpeningTag(3)) + tail && bracket == bracket + [];
    var data := E.ContextObjectID(0, o).bytes + (EncodeTag(t) + bracket);
    ObjectIDRoundTrip(o);
    ContextObjectIDReads(Start(data), 0, o, EncodeTag(t) + bracket, NO_OBJECT);
    var d := D.ContextObjectID(Start(data), 0, NO_OBJECT).0;
    ExpressibleTagReads(t, bracket);
    var d' := D.ContextValue(d, 1, 0).0;
    assert At(d', bracket);
    BracketIsSkipped(d', 2, tail);
    BracketedValueReads(D.ContextValue(d', 2, 0).0.(err := None), 3, v, []);
  }
}
