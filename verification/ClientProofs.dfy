/** Where codec and protocol meet: what a datagram can and cannot do to a call, in every run. */
module ClientProofs {
  import opened Bytes
  import opened Errors
  import opened Objects
  import opened Services
  import opened Network
  import opened NetworkProofs
  import opened ServiceProofs
  import opened ReplyProofs
  import opened CodecProofs
  import opened Tags
  import opened TransactionTable
  import opened Protocol
  import opened ProtocolRuns
  import opened Client
  import opened DispatchProofs
  import E = Encoding

  // ---- from the device's octets to the call's result ----

  /** A reply frame is offered to the live call that holds its invoke id, with that call's own channel
      and context, and to nobody when no live call holds it. */
  lemma OfferGoesToHolder(r: Run, i: nat, frame: seq<byte>, a: Apdu)
    requires IsRun(r) && i <= |r.steps| && ReplyIn(frame) == Some(a)
    ensures var s := r.states[i];
            && (forall c | c in s.calls && Live(s, c) && s.calls[c].id == a.invokeID ::
                  DispatchOf(s.shared, frame) == Offer(a, Tx(c, s.calls[c].ctx)))
            && (!(exists c :: Live(s, c) && s.calls[c].id == a.invokeID) ==>
                  DispatchOf(s.shared, frame) == UnknownTransaction(a.invokeID))
  {
    RunInvariant(r, i);
    var s := r.states[i];
    forall c | c in s.calls && Live(s, c) && s.calls[c].id == a.invokeID
      ensures DispatchOf(s.shared, frame) == Offer(a, Tx(c, s.calls[c].ctx))
    {
      assert Listed(s, c);
    }
  }

  /** The frame is offered to call `c` as reply `a`; and while the call waits, any new handler can carry
      it there and end the call with it. */
  ghost predicate Reaches(s: State, c: nat, frame: seq<byte>, a: Apdu) {
    && c in s.calls
    && DispatchOf(s.shared, frame) == Offer(a, Tx(c, s.calls[c].ctx))
    && (InPhase(s, c, Waiting) ==> forall h: nat | h !in s.handlers :: CanEndWith(s, c, h, frame, a))
  }

  /** In every run, while a call is registered, a reply a device sends under the call's id, in whatever
      well-formed envelope and cleanly decoded or not, reaches that call exactly when its decoding does not
      panic. If it does, the handler is gone and no call ever sees the reply. */
  lemma ReplyReachesItsCall(r: Run, i: nat, c: nat, function_: byte, n: Npdu, data: seq<byte>)
    requires IsRun(r) && i <= |r.steps| && Live(r.states[i], c)
    requires Envelops(n) && |DeviceFrame(function_, n, data)| <= 0xFFFF
    requires data != [] && IsReply(data[0]) && ReplyId(data) == r.states[i].calls[c].id
    ensures var s, frame := r.states[i], DeviceFrame(function_, n, data);
            && (Reaches(s, c, frame, DecodeApdu(NEW_APDU, data).0) <==> !HandlerPanics(data))
            && (HandlerPanics(data) ==> ReplyIn(frame) == None && DispatchOf(s.shared, frame) == Crashed)
  {
    var s, frame, a := r.states[i], DeviceFrame(function_, n, data), DecodeApdu(NEW_APDU, data).0;
    DeviceFrameDecodes(function_, n, data);
    HandlerPanicsIff(data);
    ReplyIdIs(data);
    if !HandlerPanics(data) {
      OfferGoesToHolder(r, i, frame, a);
      RunInvariant(r, i);
      if InPhase(s, c, Waiting) {
        forall h: nat | h !in s.handlers ensures CanEndWith(s, c, h, frame, a) {
          WaitingCallCanEnd(s, c, h, frame, a);
        }
      }
    }
  }

  /** A reply whose decoding panics is lost: in no state can a handler arrive with it. */
  lemma PanickingReplyIsLost(s: State, function_: byte, n: Npdu, data: seq<byte>)
    requires Envelops(n) && |DeviceFrame(function_, n, data)| <= 0xFFFF && HandlerPanics(data)
    ensures var frame := DeviceFrame(function_, n, data);
            DispatchOf(s.shared, frame) == Crashed && forall h, a :: !Enabled(s, Arrive(h, frame, a))
  {
    DeviceFrameOctets(function_, n, data);
    CrashIff(s.shared, DeviceFrame(function_, n, data));
  }

  /** For instance an Error with an unsigned for its class. */
  lemma UnsignedClassPanics(id: byte, service: byte)
    ensures HandlerPanics([ERROR, id, service, 0x21, 7])
  {
    var data: seq<byte> := [ERROR, id, service, 0x21, 7];
    assert data[3..] == [0x21, 7];
    assert ParseTag([0x21, 7]) == TagOk(E.AppTag(TYPE_UNSIGNED_INT, 1), 1);
  }

  ghost function AckBytes(id: byte, o: ObjectID, p: PropertyID, v: Value): seq<byte> {
    [COMPLEX_ACK, id, SERVICE_CONFIRMED_READ_PROPERTY] + ReplyBytes(o, p, v)
  }

  /** A device's answer to a ReadProperty reaches the call and makes it return the device's value. */
  lemma AnswerReachesItsCall(r: Run, i: nat, c: nat, o: ObjectID, p: PropertyID, v: Value, function_: byte, n: Npdu)
    requires IsRun(r) && i <= |r.steps| && Live(r.states[i], c)
    requires IsObjectID(o) && E.AppData(v).err.None? && Survives(v)
    requires Envelops(n) && |DeviceFrame(function_, n, AckBytes(r.states[i].calls[c].id, o, p, v))| <= 0xFFFF
    ensures var id := r.states[i].calls[c].id;
            var a := Apdu(COMPLEX_ACK, SERVICE_CONFIRMED_READ_PROPERTY, ReadPayload(ReadProperty(o, p, Generic(v))), id);
            && Reaches(r.states[i], c, DeviceFrame(function_, n, AckBytes(id, o, p, v)), a)
            && ReadOutcome(a) == Answer(Generic(v))
  {
    var id := r.states[i].calls[c].id;
    assert ReplyBytes(o, p, v) + [] == ReplyBytes(o, p, v);
    ReadAckDecodes(id, o, p, v, []);
    HandlerPanicsIff(AckBytes(id, o, p, v));
    ReplyReachesItsCall(r, i, c, function_, n, AckBytes(id, o, p, v));
  }

  /** An error reaches the call, and both kinds of call return its class and code. */
  lemma ErrorReachesItsCall(r: Run, i: nat, c: nat, service: byte, class_: uint16, code: uint32, function_: byte, n: Npdu)
    requires IsRun(r) && i <= |r.steps| && Live(r.states[i], c)
    requires Envelops(n)
    requires |DeviceFrame(function_, n, [ERROR, r.states[i].calls[c].id, service] + ErrorBytes(class_, code))| <= 0xFFFF
    ensures var id, x := r.states[i].calls[c].id, ApduError(class_, code);
            var a := Apdu(ERROR, service, ErrorPayload(x), id);
            && Reaches(r.states[i], c, DeviceFrame(function_, n, [ERROR, id, service] + ErrorBytes(class_, code)), a)
            && ReadOutcome(a) == RemoteError(x) == WriteOutcome(a)
  {
    var id := r.states[i].calls[c].id;
    assert ErrorBytes(class_, code) + [] == ErrorBytes(class_, code);
    ErrorReplyDecodes(id, service, class_, code, []);
    HandlerPanicsIff([ERROR, id, service] + ErrorBytes(class_, code));
    ReplyReachesItsCall(r, i, c, function_, n, [ERROR, id, service] + ErrorBytes(class_, code));
  }

  /** A simple acknowledgement of a WriteProperty, whatever follows it, reaches the call and makes it succeed. */
  lemma AckReachesItsCall(r: Run, i: nat, c: nat, rest: seq<byte>, function_: byte, n: Npdu)
    requires IsRun(r) && i <= |r.steps| && Live(r.states[i], c)
    requires Envelops(n)
    requires |DeviceFrame(function_, n, [SIMPLE_ACK, r.states[i].calls[c].id, SERVICE_CONFIRMED_WRITE_PROPERTY] + rest)| <= 0xFFFF
    ensures var id := r.states[i].calls[c].id;
            var a := Apdu(SIMPLE_ACK, SERVICE_CONFIRMED_WRITE_PROPERTY, DataPayload(rest), id);
            && Reaches(r.states[i], c, DeviceFrame(function_, n, [SIMPLE_ACK, id, SERVICE_CONFIRMED_WRITE_PROPERTY] + rest), a)
            && WriteOutcome(a) == Written
  {
    var id := r.states[i].calls[c].id;
    ReplyDecodes(SIMPLE_ACK, id, SERVICE_CONFIRMED_WRITE_PROPERTY, rest);
    ReplyReachesItsCall(r, i, c, function_, n, [SIMPLE_ACK, id, SERVICE_CONFIRMED_WRITE_PROPERTY] + rest);
  }

  // ---- replies that did not decode ----

  /** An Error cut off before its service octet is delivered all the same, to the call whose id it has
      or, without one, to the call with id zero: it makes either kind of call panic. */
  lemma TruncatedErrorPanicsItsCall(r: Run, i: nat, c: nat, function_: byte, n: Npdu, data: seq<byte>)
    requires IsRun(r) && i <= |r.steps| && Live(r.states[i], c)
    requires 1 <= |data| <= 2 && data[0] == ERROR && ReplyId(data) == r.states[i].calls[c].id
    requires Envelops(n) && |DeviceFrame(function_, n, data)| <= 0xFFFF
    ensures var a := Apdu(ERROR, 0, NoPayload, r.states[i].calls[c].id);
            && Reaches(r.states[i], c, DeviceFrame(function_, n, data), a)
            && ReadOutcome(a) == CallPanics == WriteOutcome(a)
  {
    assert DecodeApdu(NEW_APDU, data) == (Apdu(ERROR, 0, NoPayload, ReplyId(data)), Some(EndOfBuffer));
    ReplyReachesItsCall(r, i, c, function_, n, data);
  }

  /** A reply of one octet names no call, and yet it ends the one that has id zero. */
  lemma NamelessReplyEndsCallZero(r: Run, i: nat, c: nat, function_: byte, n: Npdu, t: byte)
    requires IsRun(r) && i <= |r.steps| && Live(r.states[i], c) && r.states[i].calls[c].id == 0
    requires IsReply(t) && Envelops(n) && |DeviceFrame(function_, n, [t])| <= 0xFFFF
    ensures var a := Apdu(t, 0, NoPayload, 0);
            && Reaches(r.states[i], c, DeviceFrame(function_, n, [t]), a)
            && ReadOutcome(a) == WriteOutcome(a) == if t == ERROR then CallPanics else InvalidAnswer
  {
    assert DecodeApdu(NEW_APDU, [t]) == (Apdu(t, 0, NoPayload, 0), Some(EndOfBuffer));
    ReplyReachesItsCall(r, i, c, function_, n, [t]);
  }

  /** In every run, whatever answer a call has, it was decoded from the APDU octets of a datagram that
      arrived, and these name the call's id, or name none and the call's id is zero. */
  lemma AnswerNamesItsCall(r: Run, i: nat, c: nat) returns (arrival: nat, h: nat, frame: seq<byte>, data: seq<byte>)
    requires IsRun(r) && i <= |r.steps| && c in r.states[i].calls && r.states[i].calls[c].answer.Some?
    ensures var x := r.states[i].calls[c];
            && arrival < i && Does(r, arrival, Arrive(h, frame, x.answer.value))
            && ApduOctets(frame) == Some(data) && DecodeApdu(NEW_APDU, data).0 == x.answer.value
            && data != [] && IsReply(data[0]) && !HandlerPanics(data)
            && x.id == if |data| >= 2 then data[1] else 0
  {
    var lookup, delivery;
    arrival, frame, lookup, delivery, h := AnswerProvenance(r, i, c);
    ApduComesFromOctets(frame);
    data := ApduOctets(frame).value;
    ReplyIdIs(data);
    HandlerPanicsIff(data);
  }

  /** And an acknowledgement cut off behind its service makes ReadProperty succeed with no value. */
  lemma TruncatedAckAnswersNil(r: Run, i: nat, c: nat, function_: byte, n: Npdu)
    requires IsRun(r) && i <= |r.steps| && Live(r.states[i], c)
    requires Envelops(n)
    requires |DeviceFrame(function_, n, [COMPLEX_ACK, r.states[i].calls[c].id, SERVICE_CONFIRMED_READ_PROPERTY])| <= 0xFFFF
    ensures var data := [COMPLEX_ACK, r.states[i].calls[c].id, SERVICE_CONFIRMED_READ_PROPERTY];
            var (a, e) := DecodeApdu(NEW_APDU, data);
            && e == Some(EndOfBuffer)
            && Reaches(r.states[i], c, DeviceFrame(function_, n, data), a)
            && ReadOutcome(a) == Answer(Nil)
  {
    var id := r.states[i].calls[c].id;
    var data := [COMPLEX_ACK, id, SERVICE_CONFIRMED_READ_PROPERTY];
    ReplyDecodes(COMPLEX_ACK, id, SERVICE_CONFIRMED_READ_PROPERTY, []);
    assert data + [] == data;
    ReplyReachesItsCall(r, i, c, function_, n, data);
  }

  // ---- a reply that comes too late ----

  lemma AckOfFirst() returns (frame: seq<byte>, a: Apdu)
    ensures ReplyIn(frame) == Some(a) && a.invokeID == 0
  {
    var n := NEW_NPDU.(version := VERSION_1);
    var data: seq<byte> := [SIMPLE_ACK, 0, SERVICE_CONFIRMED_WRITE_PROPERTY];
    frame, a := DeviceFrame(10, n, data), DecodeApdu(NEW_APDU, data).0;
    DeviceFrameDecodes(10, n, data);
  }

  lemma FirstCallWaits() returns (r: Run)
    ensures IsRun(r) && r.steps == [GetId(0, 0), Register(0), SendOk(0)]
    ensures r.states[3].calls == map[0 := Call(Waiting, 0, 0, None)]
    ensures r.states[3].handlers == map[] && r.states[3].ended == {}
  {
    r := RunTakes(Run([INIT], []), 0, GetId(0, 0));
    r := RunTakes(r, 1, Register(0));
    r := RunTakes(r, 2, SendOk(0));
  }

  /** A run in which a duplicated acknowledgement leaves a handler behind: its call has its answer, its
      context has not ended, and ProtocolRuns.LateReplyWaitsForContext applies. */
  lemma LateReplyHappens() returns (r: Run, frame: seq<byte>, a: Apdu)
    ensures IsRun(r)
    ensures r.steps == [GetId(0, 0), Register(0), SendOk(0)] + DuplicateSteps(0, 1, frame, a)
    ensures var s := r.states[8];
            && Pending(s, 1) && s.handlers[1].tx == Tx(0, 0) && Rank(s, 0) == 4
            && s.calls[0].answer == Some(a) && 0 !in s.ended
  {
    frame, a := AckOfFirst();
    var waits := FirstCallWaits();
    r := DuplicateRun(waits, 3, 0, 0, 1, frame, a);
  }

  // ---- one call as steps ----

  /** The method Call is the protocol's call without interference: on a failed send and on an ended
      context alike, its steps can be run and leave the shared state the method leaves. */
  lemma CallStepsAgree(s: State, c: nat, x: nat)
    requires c !in s.calls && s.shared.free != [] && |s.shared.free| <= CAPACITY
    ensures var s2 := Apply(Apply(s, GetId(c, x)), Register(c));
            var id := s.shared.free[0];
            var left := Shared(s.shared.currents - {id}, s.shared.free[1..] + [id]);
            && CanRun(Apply(s2, SendFail(c)), [Stop(c), Free(c)])
            && After(Apply(s2, SendFail(c)), [Stop(c), Free(c)]).shared == left
            && (x in s.ended ==>
                  var s4 := Apply(Apply(s2, SendOk(c)), Cancel(c));
                  CanRun(s4, [Stop(c), Free(c)]) && After(s4, [Stop(c), Free(c)]).shared == left)
  {
    var id := s.shared.free[0];
    var s2 := Apply(Apply(s, GetId(c, x)), Register(c));
    assert s2.shared.currents - {id} == s.shared.currents - {id};
    ReturnEndsCall(Apply(s2, SendFail(c)), c);
    if x in s.ended {
      ReturnEndsCall(Apply(Apply(s2, SendOk(c)), Cancel(c)), c);
    }
  }
}
