/** Variable-length integers: valueLength, unsigned, the payload of ContextSigned and
    decodeUnsignedWithLen. */
module Integers {
  import opened Bytes
  import opened Buffers

  function ValueLength(value: uint32): (n: byte)
    ensures 1 <= n <= 4
  {
    if value < 0x100 then 1
    else if value < 0x1_0000 then 2
    else if value < 0x100_0000 then 3
    else 4
  }

  /** The octets `unsigned` writes. */
  function Unsigned(value: uint32): (s: seq<byte>)
    ensures |s| == ValueLength(value)
  {
    if value < 0x100 then [value]
    else if value < 0x1_0000 then Be16(value)
    else if value < 0x100_0000 then [value / 0x1_0000] + Be16(value % 0x1_0000)
    else Be32(value)
  }

  method WriteUnsigned(buf: Buffer, value: uint32) returns (n: nat)
    requires buf.Valid()
    modifies buf
    ensures buf.Valid() && buf.Observe() == View(None, old(buf.Observe().rest) + Unsigned(value))
    ensures n == |Unsigned(value)|
  {
    if value < 0x100 {
      buf.WriteByte(value);
      n := 1;
    } else if value < 0x1_0000 {
      buf.Write(Be16(value));
      n := 2;
    } else if value < 0x100_0000 {
      ghost var before, top, low := buf.Observe().rest, [value / 0x1_0000], Be16(value % 0x1_0000);
      assert value / 0x1_0000 % 0x100 == value / 0x1_0000;
      buf.WriteByte(value / 0x1_0000 % 0x100);
      buf.Write(Be16(value % 0x1_0000));
      assert before + top + low == before + (top + low);
      n := 3;
    } else {
      buf.Write(Be32(value));
      n := 4;
    }
  }

  /** The view and value after reading an unsigned of the given length. Lengths other than
      one to four read nothing and give zero. */
  function UnsignedRead(v: View, length: uint32): (View, Option<uint32>) {
    if 1 <= length <= 4 then
      if |v.rest| < length then (EXHAUSTED, None) else (Advance(v, length), Some(ReadBe(v.rest, length)))
    else (v, Some(0))
  }

  /** decodeUnsignedWithLen */
  method ReadUnsigned(buf: Buffer, length: uint32) returns (value: uint32, ok: bool)
    requires buf.Valid()
    modifies buf
    ensures buf.Valid()
    ensures (buf.Observe(), if ok then Some(value) else None) == UnsignedRead(old(buf.Observe()), length)
  {
    var bs, msb;
    if length == 1 {
      value, ok := buf.ReadByte();
    } else if length == 2 || length == 4 {
      bs, ok := buf.ReadFull(length);
      value := if ok then ReadBe(bs, length) else 0;
    } else if length == 3 {
      msb, ok := buf.ReadByte();
      value := 0;
      if ok {
        bs, ok := buf.ReadFull(2);
        value := if ok then msb as int * 0x1_0000 + ReadBe(bs, 2) else 0;
      }
    } else {
      value, ok := 0, true;
    }
  }

  lemma UnsignedWord(value: uint32, rest: seq<byte>)
    ensures ReadBe(Unsigned(value) + rest, ValueLength(value)) == value
  {
    var s := Unsigned(value) + rest;
    if 0x1_0000 <= value < 0x100_0000 {
      assert s[0] == value / 0x1_0000 && s[1..3] == Be16(value % 0x1_0000);
      ReadBe16(value % 0x1_0000, rest);
      assert s[1] == value % 0x1_0000 / 0x100 && s[2] == value % 0x1_0000 % 0x100;
    } else if 0x100_0000 <= value {
      ReadBe32(value, rest);
    }
  }

  /** decodeUnsignedWithLen inverts `unsigned` in front of any suffix. */
  lemma UnsignedReads(value: uint32, v: View, rest: seq<byte>)
    requires v.rest == Unsigned(value) + rest
    ensures var (v', x) := UnsignedRead(v, ValueLength(value));
            x == Some(value) && v'.rest == rest
  {
    UnsignedWord(value, rest);
    assert v.rest[ValueLength(value)..] == rest;
  }

  lemma Weights()
    ensures Weight(1) == 0x100 && Weight(2) == 0x1_0000 && Weight(3) == 0x100_0000 && Weight(4) == 0x1_0000_0000
  {
    assert Weight(1) == 0x100 && Weight(2) == 0x1_0000 && Weight(3) == 0x100_0000;
    assert Weight(4) == 0x100 * Weight(3);
  }

  lemma UnsignedBound(s: seq<byte>)
    requires s != []
    ensures forall value: uint32 | BeValue(s) == value :: ValueLength(value) <= |s|
  {
    BeValueBound(s);
    Weights();
  }

  /** `unsigned` writes a numeral of its value, and no shorter numeral has that value. */
  lemma UnsignedIsMinimal(value: uint32, s: seq<byte>)
    requires s != [] && BeValue(s) == value
    ensures BeValue(Unsigned(value)) == value
    ensures |Unsigned(value)| <= |s|
  {
    var n := |Unsigned(value)|;
    assert Unsigned(value)[..n] == Unsigned(value);
    ReadBeIsValue(Unsigned(value), n);
    UnsignedWord(value, []);
    assert Unsigned(value) + [] == Unsigned(value);
    UnsignedBound(s);
  }

  function SignedLength(value: int32): (n: byte)
    ensures 1 <= n <= 4
  {
    if -0x80 <= value < 0x80 then 1
    else if -0x8000 <= value < 0x8000 then 2
    else if -0x80_0000 < value < 0x80_0000 then 3
    else 4
  }

  /** The payload ContextSigned writes: the low octets of the two's-complement word. */
  function Signed(value: int32): (s: seq<byte>)
    ensures |s| == SignedLength(value)
  {
    if -0x80 <= value < 0x80 then [value % 0x100]
    else if -0x8000 <= value < 0x8000 then Be16(value % 0x1_0000)
    else if -0x80_0000 < value < 0x80_0000 then [value / 0x1_0000 % 0x100] + Be16(value % 0x1_0000)
    else Be32(value % 0x1_0000_0000)
  }

  /** A two's-complement word wider than its value. */
  lemma Wrapped(value: int, width: int)
    requires -width <= value < width
    ensures value % width == if value < 0 then value + width else value
  {
    if value < 0 {
      assert (value + width) % width == value % width;
    }
  }

  lemma SignedWord3(value: int32)
    requires SignedLength(value) == 3
    ensures ReadBe(Signed(value), 3) == value % 0x100_0000
    ensures Signed(value)[0] < 0x80 <==> 0 <= value
  {
    var s, top := Signed(value), value / 0x1_0000;
    ReadBe16(value % 0x1_0000, []);
    assert s[0] == top % 0x100 == if value < 0 then top + 0x100 else top;
    assert s[1] as int * 0x100 + s[2] == value % 0x1_0000 by {
      assert s[1] == Be16(value % 0x1_0000)[0] && s[2] == Be16(value % 0x1_0000)[1];
    }
  }

  lemma SignedWord2(value: int32)
    requires SignedLength(value) <= 2
    ensures SignedLength(value) == 1 ==> ReadBe(Signed(value), 1) == value % 0x100
    ensures SignedLength(value) == 2 ==> ReadBe(Signed(value), 2) == value % 0x1_0000
    ensures Signed(value)[0] < 0x80 <==> 0 <= value
  {
    if SignedLength(value) == 2 {
      ReadBe16(value % 0x1_0000, []);
      assert Be16(value % 0x1_0000) + [] == Signed(value);
    }
  }

  lemma SignedWord4(value: int32)
    requires SignedLength(value) == 4
    ensures ReadBe(Signed(value), 4) == value % 0x1_0000_0000
    ensures Signed(value)[0] < 0x80 <==> 0 <= value
  {
    ReadBe32(value % 0x1_0000_0000, []);
    assert Be32(value % 0x1_0000_0000) + [] == Signed(value);
  }

  /** The top octet of the payload carries the sign, and the payload is the value modulo its width. */
  lemma SignedWord(value: int32)
    ensures var n := SignedLength(value);
            ReadBe(Signed(value), n) == if value < 0 then value + Weight(n) else value
    ensures Signed(value)[0] < 0x80 <==> 0 <= value
  {
    Weights();
    if SignedLength(value) == 3 {
      SignedWord3(value);
      Wrapped(value, 0x100_0000);
    } else if SignedLength(value) == 4 {
      SignedWord4(value);
      Wrapped(value, 0x1_0000_0000);
    } else {
      SignedWord2(value);
      Wrapped(value, if SignedLength(value) == 1 then 0x100 else 0x1_0000);
    }
  }

  /** Read back as two's complement of its tagged length, the payload is the value. */
  lemma SignedMeans(value: int32)
    ensures SignedValue(Signed(value)) == value
  {
    var s := Signed(value);
    assert s[..|s|] == s;
    ReadBeIsValue(s, |s|);
    SignedWord(value);
  }

  lemma SignedRange(s: seq<byte>)
    requires 1 <= |s| <= 4
    ensures -(Weight(|s|) / 2) <= SignedValue(s) < Weight(|s|) / 2
  {
    assert s[..|s|] == s;
    ReadBeIsValue(s, |s|);
    Weights();
  }

  /** The payload is a shortest two's-complement numeral of its value, except for the one
      value at the edge of three octets, which the strict comparison sends to four. */
  lemma SignedIsMinimal(value: int32)
    ensures (forall s: seq<byte> | 1 <= |s| <= 4 && SignedValue(s) == value :: |Signed(value)| <= |s|)
            <==> value != -0x80_0000
  {
    Weights();
    if value == -0x80_0000 {
      var s: seq<byte> := [0x80, 0, 0];
      assert s[..3] == s;
      ReadBeIsValue(s, 3);
      assert SignedValue(s) == value;
    } else {
      forall s: seq<byte> | 1 <= |s| <= 4 && SignedValue(s) == value
        ensures |Signed(value)| <= |s|
      {
        SignedRange(s);
      }
    }
  }
}
