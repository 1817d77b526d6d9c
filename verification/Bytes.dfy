/** Machine integers as subsets of `int`, and their big-endian byte forms.
    Every wrap-around or truncation of the program is written out with `%`. */
module Bytes {

  datatype Option<+T> = None | Some(value: T)

  type byte = x: int | 0 <= x < 0x100
  type uint16 = x: int | 0 <= x < 0x1_0000
  type uint32 = x: int | 0 <= x < 0x1_0000_0000
  type int32 = x: int | -0x8000_0000 <= x < 0x8000_0000

  /** The two bytes binary.Write produces for a big-endian uint16. */
  function Be16(v: uint16): seq<byte> {
    [v / 0x100, v % 0x100]
  }

  /** The four bytes binary.Write produces for a big-endian uint32. */
  function Be32(v: uint32): seq<byte> {
    [v / 0x100_0000, v / 0x1_0000 % 0x100, v / 0x100 % 0x100, v % 0x100]
  }

  /** The unsigned integer held by the first `n` bytes of `s`, most significant first. */
  function ReadBe(s: seq<byte>, n: nat): uint32
    requires 1 <= n <= 4 && n <= |s|
  {
    if n == 1 then s[0]
    else if n == 2 then s[0] as int * 0x100 + s[1]
    else if n == 3 then s[0] as int * 0x1_0000 + s[1] as int * 0x100 + s[2]
    else s[0] as int * 0x100_0000 + s[1] as int * 0x1_0000 + s[2] as int * 0x100 + s[3]
  }

  /** Reference meaning of a byte string as an unsigned number (section 20.2.4 of ANSI/ASHRAE 135). */
  ghost function BeValue(s: seq<byte>): nat {
    if s == [] then 0 else 0x100 * BeValue(s[..|s| - 1]) + s[|s| - 1]
  }

  ghost function Weight(n: nat): nat {
    if n == 0 then 1 else 0x100 * Weight(n - 1)
  }

  /** Reference meaning of a byte string as a two's-complement number (section 20.2.5 of ANSI/ASHRAE 135). */
  ghost function SignedValue(s: seq<byte>): int
    requires 1 <= |s| <= 4
  {
    if s[0] < 0x80 then BeValue(s) else BeValue(s) - Weight(|s|)
  }

  /** The reader's arithmetic computes the reference meaning. */
  lemma ReadBeIsValue(s: seq<byte>, n: nat)
    requires 1 <= n <= 4 && n <= |s|
    ensures BeValue(s[..n]) == ReadBe(s, n)
  {
    var t := s[..n];
    assert t[..n - 1] == s[..n - 1];
    if n == 1 {
      assert BeValue(s[..0]) == 0;
    } else {
      ReadBeIsValue(s, n - 1);
    }
  }

  lemma ReadBe16(v: uint16, rest: seq<byte>)
    ensures |Be16(v) + rest| >= 2 && ReadBe(Be16(v) + rest, 2) == v
  {
  }

  lemma ReadBe32(v: uint32, rest: seq<byte>)
    ensures |Be32(v) + rest| >= 4 && ReadBe(Be32(v) + rest, 4) == v
  {
    var high, middle := v / 0x1_0000, v / 0x100;
    assert middle / 0x100 == high && high / 0x100 == v / 0x100_0000;
    assert v == middle * 0x100 + v % 0x100 && middle == high * 0x100 + middle % 0x100;
  }

  /** A number of `n` bytes is below 256 to the power `n`. */
  lemma {:induction false} BeValueBound(s: seq<byte>)
    ensures BeValue(s) < Weight(|s|)
  {
    if s != [] {
      BeValueBound(s[..|s| - 1]);
    }
  }
}
