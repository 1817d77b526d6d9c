/** The tag codec (internal/encoding/tag.go): one packed octet, an optional extended
    number, an optional extended value. */
module Tags {
  import opened Bytes
  import opened Buffers

  datatype Tag = Tag(id: byte, context: bool, value: uint32, opening: bool, closing: bool)

  const FLAG_16_BITS: byte := 0xFE
  const FLAG_32_BITS: byte := 0xFF

  // The predicates on the initial octet; each mask is a division or a remainder.
  predicate IsExtendedTagNumber(x: byte) { x / 0x10 == 0xF }
  predicate IsExtendedValue(x: byte) { x % 8 == 5 }
  predicate IsOpeningTag(x: byte) { x % 8 == 6 }
  predicate IsClosingTag(x: byte) { x % 8 == 7 }
  predicate IsContextSpecific(x: byte) { x / 8 % 2 == 1 }

  type bits3 = x: int | 0 <= x < 8

  /** Bitwise or of the three low bits, which opening, closing and length share. */
  function Or3(x: bits3, y: bits3): bits3 {
    if x == 0 then y
    else if y == 0 then x
    else
      (if x >= 4 || y >= 4 then 4 else 0) +
      (if x % 4 >= 2 || y % 4 >= 2 then 2 else 0) +
      (if x % 2 == 1 || y % 2 == 1 then 1 else 0)
  }

  function LowBits(t: Tag): bits3 {
    Or3(Or3(if t.opening then 6 else 0, if t.closing then 7 else 0), if t.value <= 4 then t.value else 5)
  }

  function ExtendedValue(v: uint32): seq<byte> {
    if v <= 4 then []
    else if v <= 253 then [v]
    else if v <= 65535 then [FLAG_16_BITS] + Be16(v)
    else [FLAG_32_BITS] + Be32(v)
  }

  function Pack(number: int, context: bool, low: bits3): byte
    requires 0 <= number <= 0xF
  {
    0x10 * number + (if context then 8 else 0) + low
  }

  /** The initial octet: number, class and low bits. */
  function MetaByte(t: Tag): byte {
    Pack(if t.id <= 14 then t.id else 0xF, t.context, LowBits(t))
  }

  function Header(t: Tag): seq<byte> {
    if t.id <= 14 then [MetaByte(t)] else [MetaByte(t), t.id]
  }

  /** The octets of a tag. */
  function EncodeTag(t: Tag): seq<byte> {
    Header(t) + ExtendedValue(t.value)
  }

  datatype TagRead = TagError | TagOk(tag: Tag, length: nat)

  /** An extended value and the number of octets it takes, zero when `s` is too short. */
  function ParseValue(s: seq<byte>): (r: (uint32, nat))
    ensures r.1 <= |s|
  {
    if s == [] then (0, 0)
    else if s[0] == FLAG_16_BITS then if |s| < 3 then (0, 0) else (ReadBe(s[1..], 2), 3)
    else if s[0] == FLAG_32_BITS then if |s| < 5 then (0, 0) else (ReadBe(s[1..], 4), 5)
    else (s[0], 1)
  }

  /** The tag at the head of `s` and the number of octets it takes. */
  function ParseTag(s: seq<byte>): (r: TagRead)
    ensures r.TagOk? ==> 1 <= r.length <= |s|
  {
    if s == [] || (IsExtendedTagNumber(s[0]) && |s| < 2) then TagError
    else
      var wide := IsExtendedTagNumber(s[0]);
      var id: byte := if wide then s[1] else s[0] / 0x10;
      var n := if wide then 2 else 1;
      var ctx := IsContextSpecific(s[0]);
      if IsOpeningTag(s[0]) then TagOk(Tag(id, ctx, 0, true, false), n)
      else if IsClosingTag(s[0]) then TagOk(Tag(id, ctx, 0, false, true), n)
      else if IsExtendedValue(s[0]) then
        var (value, m) := ParseValue(s[n..]);
        if m == 0 then TagError else TagOk(Tag(id, ctx, value, false, false), n + m)
      else TagOk(Tag(id, ctx, s[0] % 8, false, false), n)
  }

  lemma PackedBits(number: int, context: bool, low: bits3)
    requires 0 <= number <= 0xF
    ensures var x := Pack(number, context, low);
            x / 0x10 == number && x % 8 == low && IsContextSpecific(x) == context
  {
  }

  /** The number goes into the high bits, or after an all-ones nibble. */
  method WriteHeader(buf: Buffer, t: Tag, meta: int)
    requires buf.Valid() && meta == (if t.context then 8 else 0) + LowBits(t)
    modifies buf
    ensures buf.Valid() && buf.Observe() == View(None, old(buf.Observe().rest) + Header(t))
  {
    if t.id <= 14 {
      buf.WriteByte(t.id as int * 0x10 + meta);
    } else {
      buf.WriteByte(0xF0 + meta);
      buf.WriteByte(t.id);
    }
  }

  /** The tail of encodeTag: a length over four takes an octet, or a flag and two or four. */
  method WriteValue(buf: Buffer, value: uint32)
    requires buf.Valid()
    modifies buf
    ensures buf.Valid()
    ensures buf.Observe().rest == old(buf.Observe().rest) + ExtendedValue(value)
    ensures value <= 4 ==> buf.Observe() == old(buf.Observe())
    ensures value > 4 ==> buf.Observe().prev == None
  {
    if value > 4 {
      if value <= 253 {
        buf.WriteByte(value);
      } else if value <= 65535 {
        buf.WriteByte(FLAG_16_BITS);
        buf.Write(Be16(value));
      } else {
        buf.WriteByte(FLAG_32_BITS);
        buf.Write(Be32(value));
      }
    }
  }

  /** encodeTag: accumulate the octet, then write the pieces. */
  method WriteTag(buf: Buffer, t: Tag)
    requires buf.Valid()
    modifies buf
    ensures buf.Valid() && buf.Observe() == View(None, old(buf.Observe().rest) + EncodeTag(t))
  {
    var meta, low: bits3 := 0, 0;
    if t.context {
      meta := meta + 8;
    }
    if t.opening {
      low := Or3(low, 6);
    }
    if t.closing {
      low := Or3(low, 7);
    }
    if t.value <= 4 {
      low := Or3(low, t.value);
    } else {
      low := Or3(low, 5);
    }
    assert low == LowBits(t);
    WriteHeader(buf, t, meta + low);
    WriteValue(buf, t.value);
  }

  /** The tail of decodeTag: one octet, or a flag and two or four more. */
  method ReadValue(buf: Buffer) returns (value: uint32, length: nat, ok: bool)
    requires buf.Valid()
    modifies buf
    ensures buf.Valid() && (ok ==> (value, length) == ParseValue(old(buf.Observe().rest)))
    ensures ok == (ParseValue(old(buf.Observe().rest)).1 != 0)
    ensures buf.Observe() == if ok then Advance(old(buf.Observe()), length) else EXHAUSTED
  {
    value, length := 0, 0;
    ghost var s := buf.Observe().rest;
    var first, bs;
    first, ok := buf.ReadByte();
    if !ok {
      return;
    }
    if first == FLAG_16_BITS {
      bs, ok := buf.ReadFull(2);
      if ok {
        value, length := ReadBe(bs, 2), 3;
      }
    } else if first == FLAG_32_BITS {
      bs, ok := buf.ReadFull(4);
      if ok {
        value, length := ReadBe(bs, 4), 5;
      }
    } else {
      value, length := first, 1;
    }
  }

  /** decodeTag: byte by byte off the buffer. A failure leaves the buffer drained. */
  method ReadTag(buf: Buffer) returns (length: nat, t: Tag, ok: bool)
    requires buf.Valid()
    modifies buf
    ensures buf.Valid()
    ensures match ParseTag(old(buf.Observe().rest))
            case TagError => !ok && buf.Observe() == EXHAUSTED
            case TagOk(t', n) => ok && t == t' && length == n && buf.Observe() == Advance(old(buf.Observe()), n)
  {
    length, t := 0, Tag(0, false, 0, false, false);
    var first;
    first, ok := buf.ReadByte();
    if !ok {
      return;
    }
    length := 1;
    if IsExtendedTagNumber(first) {
      var number;
      number, ok := buf.ReadByte();
      if !ok {
        return;
      }
      length := 2;
      t := t.(id := number);
    } else {
      t := t.(id := first / 0x10);
    }
    if IsContextSpecific(first) {
      t := t.(context := true);
    }
    if IsOpeningTag(first) {
      t := t.(opening := true);
      return;
    }
    if IsClosingTag(first) {
      t := t.(closing := true);
      return;
    }
    if IsExtendedValue(first) {
      var value, m;
      value, m, ok := ReadValue(buf);
      length, t := length + m, t.(value := value);
    } else {
      t := t.(value := first % 8);
    }
  }

  /** The tags the octets can express: a bracket has no length, and is not both. */
  predicate Expressible(t: Tag) {
    !(t.opening && t.closing) && (t.opening || t.closing ==> t.value == 0)
  }

  lemma ParseExtendedValue(v: uint32, rest: seq<byte>)
    requires v > 4
    ensures ParseValue(ExtendedValue(v) + rest) == (v, |ExtendedValue(v)|)
  {
    if 253 < v <= 65535 {
      assert (ExtendedValue(v) + rest)[1..] == Be16(v) + rest;
      ReadBe16(v, rest);
    } else if v > 65535 {
      assert (ExtendedValue(v) + rest)[1..] == Be32(v) + rest;
      ReadBe32(v, rest);
    }
  }

  lemma ExpressibleTagReads(t: Tag, rest: seq<byte>)
    requires Expressible(t)
    ensures ParseTag(EncodeTag(t) + rest) == TagOk(t, |EncodeTag(t)|)
  {
    var s, low := EncodeTag(t) + rest, LowBits(t);
    assert low == if t.opening then 6 else if t.closing then 7 else if t.value <= 4 then t.value else 5;
    PackedBits(if t.id <= 14 then t.id else 0xF, t.context, low);
    assert s[0] == MetaByte(t) && s[|Header(t)|..] == ExtendedValue(t.value) + rest;
    if t.value > 4 {
      ParseExtendedValue(t.value, rest);
    }
  }

  lemma OtherTagIsLost(t: Tag, rest: seq<byte>)
    requires !Expressible(t)
    ensures ParseTag(EncodeTag(t) + rest) != TagOk(t, |EncodeTag(t)|)
  {
    assert 6 <= LowBits(t) <= 7;
    PackedBits(if t.id <= 14 then t.id else 0xF, t.context, LowBits(t));
    assert (EncodeTag(t) + rest)[0] == MetaByte(t);
  }

  /** Decoding inverts encoding, in front of any suffix, exactly on the expressible tags. */
  lemma TagRoundTrip(t: Tag, rest: seq<byte>)
    ensures ParseTag(EncodeTag(t) + rest) == TagOk(t, |EncodeTag(t)|) <==> Expressible(t)
  {
    if Expressible(t) {
      ExpressibleTagReads(t, rest);
    } else {
      OtherTagIsLost(t, rest);
    }
  }

  /** No strict prefix of an encoded tag decodes, so one tag is never the start of another. */
  lemma TagPrefixFree(t: Tag, k: nat)
    requires Expressible(t) && k < |EncodeTag(t)|
    ensures ParseTag(EncodeTag(t)[..k]) == TagError
  {
    var s, n := EncodeTag(t), |Header(t)|;
    PackedBits(if t.id <= 14 then t.id else 0xF, t.context, LowBits(t));
    if 0 < k {
      assert s[..k][0] == MetaByte(t);
    }
    if n <= k {
      assert s[n..] == ExtendedValue(t.value);
      assert s[..k][n..] == ExtendedValue(t.value)[..k - n];
    }
  }

  /** Decoding reads only the octets it accounts for. */
  lemma TagSuffix(s: seq<byte>, rest: seq<byte>)
    requires ParseTag(s).TagOk?
    ensures ParseTag(s + rest) == ParseTag(s)
  {
    var n := if IsExtendedTagNumber(s[0]) then 2 else 1;
    assert (s + rest)[n..] == s[n..] + rest;
    if |s| > n + 1 {
      assert (s + rest)[n..][1..] == s[n..][1..] + rest;
    }
  }

  /** encodeTag is canonical: whatever octets decode to a tag, re-encoding that tag
      decodes to it again and is never longer. */
  lemma TagCanonical(s: seq<byte>, rest: seq<byte>)
    requires ParseTag(s).TagOk?
    ensures var TagOk(t, n) := ParseTag(s);
            |EncodeTag(t)| <= n && ParseTag(EncodeTag(t) + rest) == TagOk(t, |EncodeTag(t)|)
  {
    TagRoundTrip(ParseTag(s).tag, rest);
  }
}
