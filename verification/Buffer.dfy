/** The byte buffer shared by the encoder and the decoder: Go's bytes.Buffer with its one-step unread. */
module Buffers {
  import opened Bytes

  /** What a reader can observe: the bytes still to come, and the byte UnreadByte would give back. */
  datatype View = View(prev: Option<byte>, rest: seq<byte>)

  /** The view after any failed read: the buffer was drained and reset. */
  const EXHAUSTED := View(None, [])

  /** The view after reading `n` bytes. */
  function Advance(v: View, n: nat): View
    requires 1 <= n <= |v.rest|
  {
    View(Some(v.rest[n - 1]), v.rest[n..])
  }

  /** The view, and success, of `n` successive UnreadByte calls stopped at the first failure.
      Only one byte can be given back, so two or more always fail. */
  function UnreadView(v: View, n: nat): (View, bool) {
    if n == 0 then (v, true)
    else if v.prev.None? then (v, false)
    else (View(None, [v.prev.value] + v.rest), n == 1)
  }

  class Buffer {
    var data: seq<byte>
    var off: nat
    var lastRead: bool

    ghost predicate Valid()
      reads this
    {
      off <= |data| && (lastRead ==> 0 < off)
    }

    ghost function Observe(): View
      reads this
      requires Valid()
    {
      View(if lastRead then Some(data[off - 1]) else None, data[off..])
    }

    constructor (b: seq<byte>)
      ensures Valid() && Observe() == View(None, b)
    {
      data, off, lastRead := b, 0, false;
    }

    method Reset()
      modifies this
      ensures Valid() && Observe() == EXHAUSTED
    {
      data, off, lastRead := [], 0, false;
    }

    /** The unread bytes. */
    function Bytes(): (b: seq<byte>)
      reads this
      requires Valid()
      ensures b == Observe().rest
    {
      data[off..]
    }

    method WriteByte(b: byte)
      requires Valid()
      modifies this
      ensures Valid() && Observe() == View(None, old(Observe().rest) + [b])
    {
      data, lastRead := data + [b], false;
    }

    method Write(bs: seq<byte>)
      requires Valid()
      modifies this
      ensures Valid() && Observe() == View(None, old(Observe().rest) + bs)
    {
      data, lastRead := data + bs, false;
    }

    method ReadByte() returns (b: byte, ok: bool)
      requires Valid()
      modifies this
      ensures Valid() && ok == (old(Observe().rest) != [])
      ensures ok ==> b == old(Observe().rest)[0] && Observe() == Advance(old(Observe()), 1)
      ensures !ok ==> b == 0 && Observe() == EXHAUSTED
    {
      if off == |data| {
        Reset();
        return 0, false;
      }
      b, ok := data[off], true;
      off, lastRead := off + 1, true;
    }

    method UnreadByte() returns (ok: bool)
      requires Valid()
      modifies this
      ensures Valid() && (Observe(), ok) == UnreadView(old(Observe()), 1)
    {
      if !lastRead {
        return false;
      }
      assert data[off - 1..] == [data[off - 1]] + data[off..];
      off, lastRead := off - 1, false;
      ok := true;
    }

    /** One Read into a slice of `n` bytes: it may be short, and at the end of a buffer
        it fails unless `n` is zero. */
    method Read(n: nat) returns (bs: seq<byte>, ok: bool)
      requires Valid()
      modifies this
      ensures Valid() && ok == (n == 0 || old(Observe().rest) != [])
      ensures var rest := old(Observe().rest);
              bs == if n <= |rest| then rest[..n] else rest
      ensures bs != [] ==> Observe() == Advance(old(Observe()), |bs|)
      ensures bs == [] ==> Observe() == View(None, old(Observe().rest))
    {
      if off == |data| {
        Reset();
        return [], n == 0;
      }
      var m := if n <= |data| - off then n else |data| - off;
      bs, ok := data[off..off + m], true;
      assert bs == data[off..][..m] && (m == |data[off..]| ==> bs == data[off..]);
      off, lastRead := off + m, 0 < m;
    }

    /** io.ReadFull, on which every binary.Read is built: `n` bytes or failure. */
    method ReadFull(n: nat) returns (bs: seq<byte>, ok: bool)
      requires Valid()
      modifies this
      ensures Valid() && ok == (n <= |old(Observe().rest)|)
      ensures ok ==> bs == old(Observe().rest)[..n]
      ensures ok ==> Observe() == if n == 0 then old(Observe()) else Advance(old(Observe()), n)
      ensures !ok ==> Observe() == EXHAUSTED
    {
      if n == 0 {
        return [], true;
      }
      bs, ok := Read(n);
      if ok && |bs| < n {
        var more;
        more, ok := Read(n - |bs|);
      }
    }
  }
}
