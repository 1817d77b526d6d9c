/** The shared state of the confirmed-request protocol (bacip/transaction.go): the registered
    transactions and the queue of free invoke ids. */
module TransactionTable {
  import opened Bytes

  /** A registered call: its private reply channel and its context, each known by identity. */
  datatype Tx = Tx(chan: nat, ctx: nat)

  datatype Shared = Shared(currents: map<byte, Tx>, free: seq<byte>)

  const CAPACITY := 256

  function FirstIds(n: nat): seq<byte>
    requires n <= CAPACITY
  {
    seq(n, i requires 0 <= i < n => i)
  }

  const INITIAL := Shared(map[], FirstIds(CAPACITY))

  function TakeId(s: Shared): Shared
    requires s.free != []
  {
    s.(free := s.free[1..])
  }

  function GiveId(s: Shared, id: byte): Shared {
    s.(free := s.free + [id])
  }

  function SetTx(s: Shared, id: byte, tx: Tx): Shared {
    s.(currents := s.currents[id := tx])
  }

  function StopTx(s: Shared, id: byte): Shared {
    s.(currents := s.currents - {id})
  }

  function LookupTx(s: Shared, id: byte): Option<Tx> {
    if id in s.currents then Some(s.currents[id]) else None
  }

  /** Each method is one critical section, or one channel operation at the moment it can proceed. */
  class Transactions {
    var currents: map<byte, Tx>
    var freeInvokeID: seq<byte>

    ghost function State(): Shared
      reads this
    {
      Shared(currents, freeInvokeID)
    }

    constructor ()
      ensures State() == INITIAL
    {
      var queue: seq<byte> := [];
      for x := 0 to CAPACITY
        invariant queue == FirstIds(x)
      {
        queue := queue + [x];
      }
      currents, freeInvokeID := map[], queue;
    }

    method GetID() returns (id: byte)
      requires freeInvokeID != [] // the receive blocks until there is one
      modifies this
      ensures id == old(freeInvokeID)[0] && State() == TakeId(old(State()))
    {
      id := freeInvokeID[0];
      freeInvokeID := freeInvokeID[1..];
    }

    method FreeID(id: byte)
      requires |freeInvokeID| < CAPACITY // the send blocks while the channel is full
      modifies this
      ensures State() == GiveId(old(State()), id)
    {
      freeInvokeID := freeInvokeID + [id];
    }

    method SetTransaction(id: byte, chan: nat, ctx: nat)
      modifies this
      ensures State() == SetTx(old(State()), id, Tx(chan, ctx))
    {
      currents := currents[id := Tx(chan, ctx)];
    }

    method StopTransaction(id: byte)
      modifies this
      ensures State() == StopTx(old(State()), id)
    {
      currents := currents - {id};
    }

    method GetTransaction(id: byte) returns (c: Tx, ok: bool)
      ensures LookupTx(State(), id) == if ok then Some(c) else None
    {
      ok := id in currents;
      c := if ok then currents[id] else Tx(0, 0);
    }
  }
}
