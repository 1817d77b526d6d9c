/** The protocol between calls (ReadProperty, WriteProperty) and packet handlers (handleMessage), as a
    labelled step system: every interleaving of their critical sections and channel operations. */
module Protocol {
  import opened Bytes
  import opened Errors
  import opened Network
  import opened TransactionTable

  /** A call's progress. Its reply channel is private and made by the call, so the call's own
      identity stands for it. The deferred StopTransaction runs before the deferred FreeID. */
  datatype Phase = HasId | Registered | Waiting | Returning | Stopped | Done

  datatype Call = Call(phase: Phase, id: byte, ctx: nat, answer: Option<Apdu>)

  /** A handler's progress. From the lookup on it holds the captured transaction, without the lock. */
  datatype Handler =
    | Decoded(apdu: Apdu)
    | LookedUp(apdu: Apdu, tx: Tx)
    | Delivered(apdu: Apdu, tx: Tx)
    | Abandoned(apdu: Apdu, tx: Tx)
    | NoTransaction(apdu: Apdu)

  datatype State = State(shared: Shared, calls: map<nat, Call>, handlers: map<nat, Handler>, ended: set<nat>)

  const INIT := State(INITIAL, map[], map[], {})

  datatype Step =
    | GetId(c: nat, ctx: nat)
    | Register(c: nat)
    | SendOk(c: nat)
    | SendFail(c: nat)
    | EndContext(ctx: nat)
    | Cancel(c: nat)
    | Arrive(h: nat, frame: seq<byte>, reply: Apdu)
    | Lookup(h: nat)
    | Deliver(h: nat)
    | Abandon(h: nat)
    | Stop(c: nat)
    | Free(c: nat)

  /** The reply a received datagram puts in a handler's hands. Any decoding error other than a foreign
      frame is ignored; a panic ends the handler. */
  function ReplyIn(frame: seq<byte>): Option<Apdu> {
    var (b, e) := DecodeBvlc(NEW_BVLC, frame);
    if e == Some(NotBacnetIP) || e == Some(Panicked) || b.npdu.apdu.None? then None
    else if IsReply(b.npdu.apdu.value.dataType) then b.npdu.apdu
    else None
  }

  predicate InPhase(s: State, c: nat, p: Phase) {
    c in s.calls && s.calls[c].phase == p
  }

  /** Between SetTransaction and StopTransaction. */
  predicate Live(s: State, c: nat) {
    c in s.calls && (s.calls[c].phase == Registered || s.calls[c].phase == Waiting || s.calls[c].phase == Returning)
  }

  /** Between GetID and FreeID. */
  predicate Holds(s: State, c: nat) {
    c in s.calls && s.calls[c].phase != Done
  }

  /** Blocked in the select, on a reply to hand over. */
  predicate Pending(s: State, h: nat) {
    h in s.handlers && s.handlers[h].LookedUp?
  }

  predicate Enabled(s: State, step: Step) {
    match step
    case GetId(c, _) => c !in s.calls && s.shared.free != []
    case Register(c) => InPhase(s, c, HasId)
    case SendOk(c) => InPhase(s, c, Registered)
    case SendFail(c) => InPhase(s, c, Registered)
    case EndContext(_) => true
    case Cancel(c) => InPhase(s, c, Waiting) && s.calls[c].ctx in s.ended
    case Arrive(h, frame, a) => h !in s.handlers && ReplyIn(frame) == Some(a)
    case Lookup(h) => h in s.handlers && s.handlers[h].Decoded?
    case Deliver(h) => Pending(s, h) && InPhase(s, s.handlers[h].tx.chan, Waiting)
    case Abandon(h) => Pending(s, h) && s.handlers[h].tx.ctx in s.ended
    case Stop(c) => InPhase(s, c, Returning)
    case Free(c) => InPhase(s, c, Stopped) && |s.shared.free| < CAPACITY
  }

  function ToPhase(s: State, c: nat, p: Phase): State
    requires c in s.calls
  {
    s.(calls := s.calls[c := s.calls[c].(phase := p)])
  }

  function Apply(s: State, step: Step): State
    requires Enabled(s, step)
  {
    match step
    case GetId(c, x) =>
      s.(shared := TakeId(s.shared), calls := s.calls[c := Call(HasId, s.shared.free[0], x, None)])
    case Register(c) =>
      ToPhase(s, c, Registered).(shared := SetTx(s.shared, s.calls[c].id, Tx(c, s.calls[c].ctx)))
    case SendOk(c) => ToPhase(s, c, Waiting)
    case SendFail(c) => ToPhase(s, c, Returning)
    case EndContext(x) => s.(ended := s.ended + {x})
    case Cancel(c) => ToPhase(s, c, Returning)
    case Arrive(h, _, a) => s.(handlers := s.handlers[h := Decoded(a)])
    case Lookup(h) =>
      var a := s.handlers[h].apdu;
      s.(handlers := s.handlers[h := match LookupTx(s.shared, a.invokeID)
                                     case None => NoTransaction(a)
                                     case Some(tx) => LookedUp(a, tx)])
    case Deliver(h) =>
      var x := s.handlers[h];
      var c := x.tx.chan;
      s.(handlers := s.handlers[h := Delivered(x.apdu, x.tx)],
         calls := s.calls[c := s.calls[c].(phase := Returning, answer := Some(x.apdu))])
    case Abandon(h) => s.(handlers := s.handlers[h := Abandoned(s.handlers[h].apdu, s.handlers[h].tx)])
    case Stop(c) => ToPhase(s, c, Stopped).(shared := StopTx(s.shared, s.calls[c].id))
    case Free(c) => ToPhase(s, c, Done).(shared := GiveId(s.shared, s.calls[c].id))
  }

  // ---- the invariant ----

  ghost function Holders(s: State): set<nat> {
    set c | c in s.calls && Holds(s, c)
  }

  ghost predicate Owns(s: State, c: nat, id: byte) {
    Holds(s, c) && s.calls[c].id == id
  }

  predicate NoDuplicates(q: seq<byte>) {
    forall i, j | 0 <= i < j < |q| :: q[i] != q[j]
  }

  /** No two calls in flight hold the same id. */
  predicate UniqueIds(s: State) {
    forall c, d | c in s.calls && d in s.calls && Holds(s, c) && Holds(s, d) && c != d :: s.calls[c].id != s.calls[d].id
  }

  /** No id is both free and held, or free twice. */
  predicate FreeIds(s: State) {
    && NoDuplicates(s.shared.free)
    && (forall c | c in s.calls && Holds(s, c) :: s.calls[c].id !in s.shared.free)
  }

  /** No id is lost. */
  ghost predicate AllIdsKnown(s: State) {
    forall id: byte :: id in s.shared.free || exists c :: Owns(s, c, id)
  }

  /** The free queue and the ids of the holders partition the 256 ids. */
  ghost predicate IdsOwned(s: State) {
    && FreeIds(s) && UniqueIds(s) && AllIdsKnown(s)
    && |Holders(s)| + |s.shared.free| == CAPACITY
  }

  predicate Listed(s: State, c: nat)
    requires c in s.calls
  {
    LookupTx(s.shared, s.calls[c].id) == Some(Tx(c, s.calls[c].ctx))
  }

  /** The table holds exactly the live calls, each under its own id with its own channel and context. */
  predicate TableConsistent(s: State) {
    && (forall c | c in s.calls && Live(s, c) :: Listed(s, c))
    && (forall id | id in s.shared.currents ::
          var c := s.shared.currents[id].chan; Live(s, c) && s.calls[c].id == id)
  }

  /** How far a call has come. */
  function Rank(s: State, c: nat): nat {
    if c !in s.calls then 0
    else match s.calls[c].phase
      case HasId => 1
      case Registered => 2
      case Waiting => 3
      case Returning => 4
      case Stopped => 5
      case Done => 6
  }

  /** A captured transaction is that of a call that was registered under the reply's own id. */
  predicate Captured(s: State, a: Apdu, tx: Tx) {
    tx.chan in s.calls && s.calls[tx.chan].id == a.invokeID && s.calls[tx.chan].ctx == tx.ctx &&
    2 <= Rank(s, tx.chan)
  }

  predicate HasTx(x: Handler) {
    x.LookedUp? || x.Delivered? || x.Abandoned?
  }

  predicate RepliesMatch(s: State) {
    && (forall h | h in s.handlers && HasTx(s.handlers[h]) :: Captured(s, s.handlers[h].apdu, s.handlers[h].tx))
    && (forall c | c in s.calls && s.calls[c].answer.Some? ::
          s.calls[c].answer.value.invokeID == s.calls[c].id && 4 <= Rank(s, c))
  }

  ghost predicate Inv(s: State) {
    IdsOwned(s) && TableConsistent(s) && RepliesMatch(s)
  }

  lemma InitInvariant()
    ensures Inv(INIT)
  {
    assert Holders(INIT) == {};
    forall id: byte ensures id in INIT.shared.free {
      assert INIT.shared.free[id] == id;
    }
  }

  /** Only taking and giving an id changes who holds what. */
  lemma HoldersStep(s: State, step: Step)
    requires Enabled(s, step)
    ensures var s' := Apply(s, step);
            Holders(s') == match step
                           case GetId(c, _) => Holders(s) + {c}
                           case Free(c) => Holders(s) - {c}
                           case _ => Holders(s)
  {
  }

  /** Taking the head of the queue: nobody holds it, and it is not queued twice. */
  lemma TakeKeepsUnique(s: State, c: nat, x: Call, s': State)
    requires FreeIds(s) && UniqueIds(s) && c !in s.calls && x.phase == HasId
    requires s.shared.free == [x.id] + s'.shared.free && s'.calls == s.calls[c := x]
    ensures FreeIds(s') && UniqueIds(s')
  {
    var q, q' := s.shared.free, s'.shared.free;
    assert q[0] == x.id && forall i | 0 <= i < |q'| :: q'[i] == q[i + 1];
    forall d | d in s.calls && Holds(s, d)
      ensures s.calls[d].id != x.id && s.calls[d].id !in q'
    {
      assert s.calls[d].id !in q;
    }
  }

  lemma TakeKeepsKnown(s: State, c: nat, x: Call, s': State)
    requires AllIdsKnown(s) && c !in s.calls && x.phase == HasId && s.shared.free == [x.id] + s'.shared.free
    requires s'.calls == s.calls[c := x]
    ensures AllIdsKnown(s')
  {
    forall id: byte ensures id in s'.shared.free || exists d :: Owns(s', d, id) {
      if id == x.id {
        assert Owns(s', c, id);
      } else if id !in s.shared.free {
        var d :| Owns(s, d, id);
        assert Owns(s', d, id);
      }
    }
  }

  lemma TakeKeepsIds(s: State, c: nat, x: Call, s': State)
    requires IdsOwned(s) && s.shared.free != [] && c !in s.calls
    requires x.phase == HasId && x.id == s.shared.free[0]
    requires s'.calls == s.calls[c := x] && s'.shared.free == s.shared.free[1..] && Holders(s') == Holders(s) + {c}
    ensures IdsOwned(s')
  {
    assert c !in Holders(s);
    assert s.shared.free == [x.id] + s'.shared.free;
    TakeKeepsUnique(s, c, x, s');
    TakeKeepsKnown(s, c, x, s');
  }

  /** Giving an id back to the tail: `s'` has one holder less. */
  lemma GiveKeepsIds(s: State, c: nat, s': State)
    requires IdsOwned(s) && Holds(s, c)
    requires s'.calls == s.calls[c := s.calls[c].(phase := Done)]
    requires s'.shared.free == s.shared.free + [s.calls[c].id] && Holders(s') == Holders(s) - {c}
    ensures IdsOwned(s')
  {
    assert c in Holders(s);
    forall id: byte ensures id in s'.shared.free || exists d :: Owns(s', d, id) {
      if id !in s'.shared.free {
        var d :| Owns(s, d, id);
        assert Owns(s', d, id);
      }
    }
  }

  /** A step that moves no id: the same holders hold the same ids. */
  lemma OtherKeepsIds(s: State, s': State)
    requires IdsOwned(s) && Holders(s') == Holders(s) && s'.shared.free == s.shared.free
    requires forall c | c in s.calls :: c in s'.calls && s'.calls[c].id == s.calls[c].id
    ensures IdsOwned(s')
  {
    assert forall c :: Holds(s', c) <==> c in Holders(s');
    assert forall c :: Holds(s, c) <==> c in Holders(s);
    forall id: byte ensures id in s'.shared.free || exists d :: Owns(s', d, id) {
      if id !in s.shared.free {
        var d :| Owns(s, d, id);
        assert Owns(s', d, id);
      }
    }
  }

  lemma CallsKeepIds(s: State, step: Step)
    requires Enabled(s, step)
    ensures var s' := Apply(s, step);
            forall c | c in s.calls :: c in s'.calls && s'.calls[c].id == s.calls[c].id && s'.calls[c].ctx == s.calls[c].ctx
  {
  }

  lemma IdsStep(s: State, step: Step)
    requires IdsOwned(s) && Enabled(s, step)
    ensures IdsOwned(Apply(s, step))
  {
    var s' := Apply(s, step);
    HoldersStep(s, step);
    CallsKeepIds(s, step);
    match step {
      case GetId(c, x) => TakeKeepsIds(s, c, s'.calls[c], s');
      case Free(c) => GiveKeepsIds(s, c, s');
      case _ => OtherKeepsIds(s, s');
    }
  }

  lemma RegisterKeepsTable(s: State, c: nat, s': State)
    requires TableConsistent(s) && UniqueIds(s) && InPhase(s, c, HasId)
    requires s'.calls == s.calls[c := s.calls[c].(phase := Registered)]
    requires s'.shared.currents == s.shared.currents[s.calls[c].id := Tx(c, s.calls[c].ctx)]
    ensures TableConsistent(s')
  {
    forall d | d in s'.calls && Live(s', d) ensures Listed(s', d) {
      if d != c {
        assert Live(s, d) && Listed(s, d) && Holds(s, d) && Holds(s, c);
      }
    }
  }

  /** StopTransaction removes the call's own entry: any other call's is under another id. */
  lemma StopKeepsTable(s: State, c: nat, s': State)
    requires TableConsistent(s) && UniqueIds(s) && InPhase(s, c, Returning)
    requires s'.calls == s.calls[c := s.calls[c].(phase := Stopped)]
    requires s'.shared.currents == s.shared.currents - {s.calls[c].id}
    ensures TableConsistent(s')
  {
    assert Live(s, c) && Listed(s, c) && Holds(s, c);
    forall d | d in s'.calls && Live(s', d) ensures Listed(s', d) {
      assert d != c && Live(s, d) && Listed(s, d) && Holds(s, d);
    }
    forall id | id in s'.shared.currents ensures Live(s', s'.shared.currents[id].chan) {
      var d := s.shared.currents[id].chan;
      assert Live(s, d) && s.calls[d].id == id;
    }
  }

  /** A step that leaves the table and the live calls alone. */
  lemma OtherKeepsTable(s: State, s': State)
    requires TableConsistent(s) && s'.shared.currents == s.shared.currents
    requires forall c :: Live(s', c) <==> Live(s, c)
    requires forall c | c in s.calls :: c in s'.calls && s'.calls[c].id == s.calls[c].id && s'.calls[c].ctx == s.calls[c].ctx
    ensures TableConsistent(s')
  {
    forall d | d in s'.calls && Live(s', d) ensures Listed(s', d) {
      assert Live(s, d) && Listed(s, d);
    }
  }

  lemma OtherStepKeepsLive(s: State, step: Step)
    requires Enabled(s, step) && !step.Register? && !step.Stop?
    ensures forall c :: Live(Apply(s, step), c) <==> Live(s, c)
    ensures Apply(s, step).shared.currents == s.shared.currents
  {
  }

  lemma TableStep(s: State, step: Step)
    requires TableConsistent(s) && UniqueIds(s) && Enabled(s, step)
    ensures TableConsistent(Apply(s, step))
  {
    var s' := Apply(s, step);
    match step {
      case Register(c) => RegisterKeepsTable(s, c, s');
      case Stop(c) => StopKeepsTable(s, c, s');
      case _ =>
        CallsKeepIds(s, step);
        OtherStepKeepsLive(s, step);
        OtherKeepsTable(s, s');
    }
  }

  lemma PhasesAdvance(s: State, step: Step)
    requires Enabled(s, step)
    ensures forall c | c in s.calls :: Rank(s, c) <= Rank(Apply(s, step), c)
  {
  }

  /** Where a handler's transaction comes from: it had it before, or this is its lookup. */
  lemma HandlerOrigin(s: State, step: Step, h: nat)
    requires Enabled(s, step) && h in Apply(s, step).handlers && HasTx(Apply(s, step).handlers[h])
    ensures h in s.handlers && s.handlers[h].apdu == Apply(s, step).handlers[h].apdu
    ensures HasTx(s.handlers[h]) ==> s.handlers[h].tx == Apply(s, step).handlers[h].tx
    ensures !HasTx(s.handlers[h]) ==> step == Lookup(h) && Apply(s, step).handlers[h].LookedUp?
    ensures !HasTx(s.handlers[h]) ==>
              LookupTx(s.shared, s.handlers[h].apdu.invokeID) == Some(Apply(s, step).handlers[h].tx)
  {
  }

  lemma HandlersStep(s: State, step: Step)
    requires TableConsistent(s) && RepliesMatch(s) && Enabled(s, step)
    ensures var s' := Apply(s, step);
            forall h | h in s'.handlers && HasTx(s'.handlers[h]) :: Captured(s', s'.handlers[h].apdu, s'.handlers[h].tx)
  {
    var s' := Apply(s, step);
    CallsKeepIds(s, step);
    PhasesAdvance(s, step);
    forall h | h in s'.handlers && HasTx(s'.handlers[h])
      ensures Captured(s', s'.handlers[h].apdu, s'.handlers[h].tx)
    {
      var a, tx := s'.handlers[h].apdu, s'.handlers[h].tx;
      HandlerOrigin(s, step, h);
      if h in s.handlers && HasTx(s.handlers[h]) {
        assert Captured(s, a, tx);
      } else {
        assert Live(s, tx.chan) && Listed(s, tx.chan);
      }
    }
  }

  predicate AnswersMatch(s: State) {
    forall c | c in s.calls && s.calls[c].answer.Some? ::
      s.calls[c].answer.value.invokeID == s.calls[c].id && 4 <= Rank(s, c)
  }

  lemma AnswersStep(s: State, step: Step)
    requires RepliesMatch(s) && Enabled(s, step)
    ensures AnswersMatch(Apply(s, step))
  {
    if step.Deliver? {
      assert Captured(s, s.handlers[step.h].apdu, s.handlers[step.h].tx);
    }
  }

  /** Every step of every interleaving keeps the invariant. */
  lemma InvariantStep(s: State, step: Step)
    requires Inv(s) && Enabled(s, step)
    ensures Inv(Apply(s, step))
  {
    IdsStep(s, step);
    TableStep(s, step);
    HandlersStep(s, step);
    AnswersStep(s, step);
  }
}
