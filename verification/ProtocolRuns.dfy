/** What holds over every run of the protocol, whatever the interleaving. */
module ProtocolRuns {
  import opened Bytes
  import opened Network
  import opened TransactionTable
  import opened Protocol

  datatype Run = Run(states: seq<State>, steps: seq<Step>)

  predicate Shaped(r: Run) {
    |r.states| == |r.steps| + 1
  }

  ghost predicate StepAt(r: Run, i: nat)
    requires Shaped(r) && i < |r.steps|
  {
    Enabled(r.states[i], r.steps[i]) && r.states[i + 1] == Apply(r.states[i], r.steps[i])
  }

  /** A finite run from the fresh client. */
  ghost predicate IsRun(r: Run) {
    Shaped(r) && r.states[0] == INIT && forall i: nat | i < |r.steps| :: StepAt(r, i)
  }

  /** Step `i` of the run is `step`. */
  ghost predicate Does(r: Run, i: nat, step: Step) {
    IsRun(r) && i < |r.steps| && r.steps[i] == step && StepAt(r, i)
  }

  lemma {:induction false} RunInvariant(r: Run, i: nat)
    requires IsRun(r) && i <= |r.steps|
    ensures Inv(r.states[i])
  {
    if i == 0 {
      InitInvariant();
    } else {
      RunInvariant(r, i - 1);
      assert StepAt(r, i - 1);
      InvariantStep(r.states[i - 1], r.steps[i - 1]);
    }
  }

  // ---- running on ----

  ghost predicate CanRun(s: State, steps: seq<Step>)
    decreases |steps|
  {
    steps == [] || (Enabled(s, steps[0]) && CanRun(Apply(s, steps[0]), steps[1..]))
  }

  ghost function After(s: State, steps: seq<Step>): State
    requires CanRun(s, steps)
    decreases |steps|
  {
    if steps == [] then s else After(Apply(s, steps[0]), steps[1..])
  }

  lemma RunsOn(s: State, step: Step, tail: seq<Step>)
    requires Enabled(s, step) && CanRun(Apply(s, step), tail)
    ensures CanRun(s, [step] + tail) && After(s, [step] + tail) == After(Apply(s, step), tail)
  {
    assert ([step] + tail)[1..] == tail;
  }

  lemma RunTakes(r: Run, i: nat, step: Step) returns (r': Run)
    requires IsRun(r) && i <= |r.steps| && Enabled(r.states[i], step)
    ensures IsRun(r') && r'.steps == r.steps[..i] + [step]
    ensures r'.states == r.states[..i + 1] + [Apply(r.states[i], step)]
  {
    r' := Run(r.states[..i + 1] + [Apply(r.states[i], step)], r.steps[..i] + [step]);
    forall j: nat | j <= i ensures StepAt(r', j) {
      if j < i {
        assert StepAt(r, j);
      }
    }
  }

  /** Steps that can be run at some point of a run continue it from there. */
  lemma {:induction false} RunExtends(r: Run, i: nat, steps: seq<Step>) returns (r': Run)
    requires IsRun(r) && i <= |r.steps| && CanRun(r.states[i], steps)
    ensures IsRun(r') && r'.steps == r.steps[..i] + steps
    ensures r'.states[..i + 1] == r.states[..i + 1] && r'.states[i + |steps|] == After(r.states[i], steps)
    decreases |steps|
  {
    if steps == [] {
      r' := Run(r.states[..i + 1], r.steps[..i]);
      forall j: nat | j < i ensures StepAt(r', j) {
        assert StepAt(r, j);
      }
    } else {
      var next := RunTakes(r, i, steps[0]);
      r' := RunExtends(next, i + 1, steps[1..]);
      assert r'.states[..i + 1] == r'.states[..i + 2][..i + 1] == next.states[..i + 2][..i + 1];
      assert next.steps[..i + 1] + steps[1..] == r.steps[..i] + steps;
    }
  }

  lemma TableInRun(r: Run, i: nat)
    requires IsRun(r) && i <= |r.steps|
    ensures TableConsistent(r.states[i])
  {
    RunInvariant(r, i);
  }

  lemma RunEndsWith(r: Run, n: nat, steps: seq<Step>) returns (r': Run)
    requires IsRun(r) && n == |r.steps| && CanRun(r.states[n], steps)
    ensures IsRun(r') && r'.steps == r.steps + steps && r'.states[n + |steps|] == After(r.states[n], steps)
  {
    r' := RunExtends(r, n, steps);
    assert r.steps[..n] == r.steps;
  }

  // ---- id ownership ----

  /** At every point of every run each of the 256 ids is either queued once or held by one call;
      an id can be taken exactly while fewer than 256 calls hold one; giving one back never blocks. */
  lemma IdOwnership(r: Run, i: nat)
    requires IsRun(r) && i <= |r.steps|
    ensures var s := r.states[i];
            && NoDuplicates(s.shared.free) && UniqueIds(s)
            && (forall id: byte :: id in s.shared.free <==> !exists c :: Owns(s, c, id))
            && (forall c, x | c !in s.calls :: Enabled(s, GetId(c, x)) <==> |Holders(s)| < CAPACITY)
            && (forall c | InPhase(s, c, Stopped) :: Enabled(s, Free(c)))
  {
    RunInvariant(r, i);
    var s := r.states[i];
    forall c | InPhase(s, c, Stopped) ensures Enabled(s, Free(c)) {
      assert c in Holders(s);
    }
    forall id: byte | id in s.shared.free ensures !exists c :: Owns(s, c, id) {
      assert forall c :: c in s.calls && Holds(s, c) ==> s.calls[c].id != id;
    }
  }

  // ---- registration ----

  lemma {:induction false} RankMonotone(r: Run, i: nat, j: nat, c: nat)
    requires IsRun(r) && i <= j <= |r.steps| && c in r.states[i].calls
    ensures c in r.states[j].calls && Rank(r.states[i], c) <= Rank(r.states[j], c)
    ensures r.states[j].calls[c].id == r.states[i].calls[c].id && r.states[j].calls[c].ctx == r.states[i].calls[c].ctx
    decreases j
  {
    if i < j {
      RankMonotone(r, i, j - 1, c);
      assert StepAt(r, j - 1);
      CallsKeepIds(r.states[j - 1], r.steps[j - 1]);
      PhasesAdvance(r.states[j - 1], r.steps[j - 1]);
    }
  }

  /** At every point of every run the table is exact: each entry is its one live holder's own, each live
      call has one, and no free id has any. */
  lemma RegistrationConsistency(r: Run, i: nat, id: byte)
    requires IsRun(r) && i <= |r.steps|
    ensures var s := r.states[i];
            && (id in s.shared.currents ==>
                  var c := s.shared.currents[id].chan;
                  Live(s, c) && s.calls[c].id == id && s.shared.currents[id].ctx == s.calls[c].ctx)
            && (forall c | c in s.calls && Live(s, c) && s.calls[c].id == id ::
                  LookupTx(s.shared, id) == Some(Tx(c, s.calls[c].ctx)))
            && (id in s.shared.free ==> id !in s.shared.currents)
  {
    RunInvariant(r, i);
    var s := r.states[i];
    if id in s.shared.currents {
      var c := s.shared.currents[id].chan;
      assert Live(s, c) && Listed(s, c) && Holds(s, c);
    }
    forall c | c in s.calls && Live(s, c) && s.calls[c].id == id
      ensures LookupTx(s.shared, id) == Some(Tx(c, s.calls[c].ctx))
    {
      assert Listed(s, c);
    }
  }

  lemma StopStep(s: State, c: nat)
    requires TableConsistent(s) && UniqueIds(s) && Enabled(s, Stop(c))
    ensures var s', id := Apply(s, Stop(c)), s.calls[c].id;
            && LookupTx(s.shared, id) == Some(Tx(c, s.calls[c].ctx))
            && LookupTx(s'.shared, id) == None
            && (forall d | d in s.calls && Live(s, d) && d != c :: LookupTx(s'.shared, s.calls[d].id) == Some(Tx(d, s.calls[d].ctx)))
  {
    assert Live(s, c) && Listed(s, c) && Holds(s, c);
    forall d | d in s.calls && Live(s, d) && d != c
      ensures s.calls[d].id != s.calls[c].id && Listed(s, d)
    {
      assert Holds(s, d);
    }
  }

  /** StopTransaction removes the caller's own entry and nothing else. */
  lemma StopRemovesOwnEntry(r: Run, i: nat, c: nat)
    requires Does(r, i, Stop(c))
    ensures var s, s' := r.states[i], r.states[i + 1];
            var id := s.calls[c].id;
            && LookupTx(s.shared, id) == Some(Tx(c, s.calls[c].ctx))
            && LookupTx(s'.shared, id) == None
            && (forall d | d in s.calls && Live(s, d) && d != c :: LookupTx(s'.shared, s.calls[d].id) == Some(Tx(d, s.calls[d].ctx)))
  {
    RunInvariant(r, i);
    StopStep(r.states[i], c);
  }

  lemma {:induction false} StoppedSince(r: Run, i: nat, c: nat) returns (j: nat)
    requires IsRun(r) && i <= |r.steps| && InPhase(r.states[i], c, Stopped)
    ensures j < i && Does(r, j, Stop(c)) && forall k | j < k <= i :: InPhase(r.states[k], c, Stopped)
  {
    if i > 0 {
      assert StepAt(r, i - 1);
    }
    if r.steps[i - 1] == Stop(c) {
      j := i - 1;
    } else {
      assert InPhase(r.states[i - 1], c, Stopped);
      j := StoppedSince(r, i - 1, c);
    }
  }

  /** Whatever way a call ends, it is deregistered before its id is given back, and its id has no
      entry from then until it is free. */
  lemma DeregisteredBeforeFreed(r: Run, i: nat, c: nat) returns (j: nat)
    requires Does(r, i, Free(c))
    ensures j < i && Does(r, j, Stop(c))
    ensures forall k | j < k <= i + 1 :: r.states[i].calls[c].id !in r.states[k].shared.currents
  {
    assert StepAt(r, i);
    j := StoppedSince(r, i, c);
    var id := r.states[i].calls[c].id;
    forall k | j < k <= i ensures id !in r.states[k].shared.currents {
      RunInvariant(r, k);
      RankMonotone(r, k, i, c);
      var s := r.states[k];
      if id in s.shared.currents {
        var d := s.shared.currents[id].chan;
        assert Live(s, d) && s.calls[d].id == id && Holds(s, d) && Holds(s, c);
        assert false;
      }
    }
  }

  // ---- reply isolation ----

  /** The lookup behind a handler's captured transaction. */
  lemma {:induction false} LookupOf(r: Run, i: nat, h: nat) returns (j: nat)
    requires IsRun(r) && i <= |r.steps| && h in r.states[i].handlers && HasTx(r.states[i].handlers[h])
    ensures j < i && Does(r, j, Lookup(h)) && r.states[j].handlers[h] == Decoded(r.states[i].handlers[h].apdu)
    ensures LookupTx(r.states[j].shared, r.states[i].handlers[h].apdu.invokeID) == Some(r.states[i].handlers[h].tx)
  {
    assert StepAt(r, i - 1);
    HandlerOrigin(r.states[i - 1], r.steps[i - 1], h);
    if HasTx(r.states[i - 1].handlers[h]) {
      j := LookupOf(r, i - 1, h);
    } else {
      j := i - 1;
    }
  }

  lemma ArrivalStep(s: State, step: Step, h: nat)
    requires Enabled(s, step) && h in Apply(s, step).handlers && Apply(s, step).handlers[h].Decoded?
    ensures h in s.handlers ==> s.handlers[h] == Apply(s, step).handlers[h]
    ensures h !in s.handlers ==> step.Arrive? && step == Arrive(h, step.frame, Apply(s, step).handlers[h].apdu)
  {
  }

  /** The datagram behind a decoded reply. */
  lemma {:induction false} ArrivalOf(r: Run, i: nat, h: nat) returns (j: nat, frame: seq<byte>)
    requires IsRun(r) && i <= |r.steps| && h in r.states[i].handlers && r.states[i].handlers[h].Decoded?
    ensures j < i && Does(r, j, Arrive(h, frame, r.states[i].handlers[h].apdu))
  {
    assert r.states[0].handlers == map[];
    assert 0 < i;
    assert StepAt(r, i - 1);
    var step := r.steps[i - 1];
    ArrivalStep(r.states[i - 1], step, h);
    if h in r.states[i - 1].handlers {
      j, frame := ArrivalOf(r, i - 1, h);
    } else {
      j, frame := i - 1, step.frame;
    }
  }

  /** A delivery hands over the reply that some datagram carried, to the very call that was registered
      under the reply's invoke id when the handler looked it up, and touches no other call: not even
      one that has been given the same id in between. */
  lemma ReplyIsolation(r: Run, i: nat, h: nat) returns (arrival: nat, frame: seq<byte>, lookup: nat)
    requires Does(r, i, Deliver(h))
    ensures var a, c := r.states[i].handlers[h].apdu, r.states[i].handlers[h].tx.chan;
            && arrival < lookup < i
            && Does(r, arrival, Arrive(h, frame, a)) && ReplyIn(frame) == Some(a)
            && Does(r, lookup, Lookup(h))
            && Live(r.states[lookup], c) && r.states[lookup].calls[c].id == a.invokeID
            && c in r.states[i].calls && r.states[i].calls[c].id == a.invokeID
            && r.states[i + 1].calls[c].answer == Some(a)
            && (forall d | d in r.states[i].calls && d != c :: d in r.states[i + 1].calls && r.states[i + 1].calls[d] == r.states[i].calls[d])
  {
    assert StepAt(r, i);
    lookup := LookupOf(r, i, h);
    arrival, frame := ArrivalOf(r, lookup, h);
    RunInvariant(r, lookup);
    RankMonotone(r, lookup, i, r.states[i].handlers[h].tx.chan);
  }

  /** Only a delivery answers a call. */
  lemma AnswerOrigin(s: State, step: Step, c: nat)
    requires Enabled(s, step) && c in Apply(s, step).calls && Apply(s, step).calls[c].answer.Some?
    requires c !in s.calls || s.calls[c].answer != Apply(s, step).calls[c].answer
    ensures step.Deliver? && s.handlers[step.h].tx.chan == c && InPhase(s, c, Waiting)
    ensures Apply(s, step).calls[c].answer == Some(s.handlers[step.h].apdu)
  {
  }

  /** The same seen from the call: whatever answer a call has was decoded from a datagram, with the call's
      id as its invoke id, and looked up after the call had taken that id and while it was registered. */
  lemma {:induction false} AnswerProvenance(r: Run, i: nat, c: nat)
    returns (arrival: nat, frame: seq<byte>, lookup: nat, delivery: nat, h: nat)
    requires IsRun(r) && i <= |r.steps| && c in r.states[i].calls && r.states[i].calls[c].answer.Some?
    ensures var a := r.states[i].calls[c].answer.value;
            && arrival < lookup < delivery < i
            && Does(r, arrival, Arrive(h, frame, a)) && ReplyIn(frame) == Some(a)
            && Does(r, lookup, Lookup(h)) && Live(r.states[lookup], c)
            && a.invokeID == r.states[i].calls[c].id == r.states[lookup].calls[c].id
            && Does(r, delivery, Deliver(h)) && InPhase(r.states[delivery], c, Waiting)
  {
    assert StepAt(r, i - 1);
    var s := r.states[i - 1];
    if c in s.calls && s.calls[c].answer == r.states[i].calls[c].answer {
      arrival, frame, lookup, delivery, h := AnswerProvenance(r, i - 1, c);
      RankMonotone(r, i - 1, i, c);
    } else {
      AnswerOrigin(s, r.steps[i - 1], c);
      delivery, h := i - 1, r.steps[i - 1].h;
      arrival, frame, lookup := ReplyIsolation(r, i - 1, h);
      RankMonotone(r, i - 1, i, c);
    }
  }

  /** What a reply takes from its datagram to the end of its call. */
  function RoundTripSteps(c: nat, h: nat, frame: seq<byte>, a: Apdu): seq<Step> {
    [Arrive(h, frame, a), Lookup(h), Deliver(h), Stop(c), Free(c)]
  }

  /** The call can run to its end with this reply for an answer, and then its id is the last in the queue. */
  ghost predicate CanEndWith(s: State, c: nat, h: nat, frame: seq<byte>, a: Apdu) {
    var steps := RoundTripSteps(c, h, frame, a);
    && c in s.calls && CanRun(s, steps)
    && var s' := After(s, steps);
       && s'.calls == s.calls[c := s.calls[c].(phase := Done, answer := Some(a))]
       && s'.shared == Shared(s.shared.currents - {s.calls[c].id}, s.shared.free + [s.calls[c].id])
  }

  lemma LookupCaptures(s: State, c: nat, h: nat, a: Apdu)
    requires c in s.calls && Listed(s, c) && a.invokeID == s.calls[c].id
    requires h in s.handlers && s.handlers[h] == Decoded(a)
    ensures Enabled(s, Lookup(h))
    ensures Apply(s, Lookup(h)) == s.(handlers := s.handlers[h := LookedUp(a, Tx(c, s.calls[c].ctx))])
  {
  }

  /** The deferred calls of a call that returns. */
  lemma ReturnEndsCall(s: State, c: nat)
    requires InPhase(s, c, Returning) && |s.shared.free| < CAPACITY
    ensures CanRun(s, [Stop(c), Free(c)])
    ensures var x, s' := s.calls[c], After(s, [Stop(c), Free(c)]);
            && s'.calls == s.calls[c := x.(phase := Done)]
            && s'.shared == Shared(s.shared.currents - {x.id}, s.shared.free + [x.id])
  {
    RunsOn(Apply(s, Stop(c)), Free(c), []);
    RunsOn(s, Stop(c), [Free(c)]);
    assert [Stop(c)] + [Free(c)] == [Stop(c), Free(c)];
  }

  lemma DeliveryEndsCall(s: State, c: nat, h: nat, a: Apdu)
    requires InPhase(s, c, Waiting) && |s.shared.free| < CAPACITY
    requires h in s.handlers && s.handlers[h] == LookedUp(a, Tx(c, s.calls[c].ctx))
    ensures CanRun(s, [Deliver(h), Stop(c), Free(c)])
    ensures var x, s' := s.calls[c], After(s, [Deliver(h), Stop(c), Free(c)]);
            && s'.calls == s.calls[c := x.(phase := Done, answer := Some(a))]
            && s'.shared == Shared(s.shared.currents - {x.id}, s.shared.free + [x.id])
  {
    ReturnEndsCall(Apply(s, Deliver(h)), c);
    RunsOn(s, Deliver(h), [Stop(c), Free(c)]);
    assert [Deliver(h)] + [Stop(c), Free(c)] == [Deliver(h), Stop(c), Free(c)];
  }

  lemma SomeIdIsTaken(s: State, c: nat)
    requires Inv(s) && InPhase(s, c, Waiting)
    ensures Listed(s, c) && |s.shared.free| < CAPACITY
  {
    assert Live(s, c) && Listed(s, c) && c in Holders(s);
  }

  /** A reply under the id of a waiting call can end it. */
  lemma WaitingCallCanEnd(s: State, c: nat, h: nat, frame: seq<byte>, a: Apdu)
    requires Inv(s) && InPhase(s, c, Waiting) && h !in s.handlers
    requires ReplyIn(frame) == Some(a) && a.invokeID == s.calls[c].id
    ensures CanEndWith(s, c, h, frame, a)
  {
    SomeIdIsTaken(s, c);
    var s1 := Apply(s, Arrive(h, frame, a));
    LookupCaptures(s1, c, h, a);
    var s2 := Apply(s1, Lookup(h));
    DeliveryEndsCall(s2, c, h, a);
    RunsOn(s1, Lookup(h), [Deliver(h), Stop(c), Free(c)]);
    RunsOn(s, Arrive(h, frame, a), [Lookup(h)] + [Deliver(h), Stop(c), Free(c)]);
    assert RoundTripSteps(c, h, frame, a) == [Arrive(h, frame, a)] + ([Lookup(h)] + [Deliver(h), Stop(c), Free(c)]);
  }

  // ---- reasons ----

  /** A call has the context it was made with, and the id that was then at the head of the queue. */
  lemma {:induction false} CallIsMade(r: Run, i: nat, c: nat) returns (j: nat)
    requires IsRun(r) && i <= |r.steps| && c in r.states[i].calls
    ensures j < i && Does(r, j, GetId(c, r.states[i].calls[c].ctx))
    ensures r.states[j].shared.free != [] && r.states[j].shared.free[0] == r.states[i].calls[c].id
  {
    assert r.states[0].calls == map[];
    assert 0 < i && StepAt(r, i - 1);
    if c in r.states[i - 1].calls {
      CallsKeepIds(r.states[i - 1], r.steps[i - 1]);
      j := CallIsMade(r, i - 1, c);
    } else {
      j := i - 1;
    }
  }

  lemma EndedStep(s: State, step: Step, x: nat)
    requires Enabled(s, step)
    ensures x in Apply(s, step).ended <==> x in s.ended || step == EndContext(x)
  {
  }

  /** A context has ended exactly when some step ended it, and any can be ended at any time. */
  lemma {:induction false} EndedIff(r: Run, i: nat, x: nat)
    requires IsRun(r) && i <= |r.steps|
    ensures x in r.states[i].ended <==> exists j: nat :: j < i && Does(r, j, EndContext(x))
    ensures Enabled(r.states[i], EndContext(x))
  {
    if i > 0 {
      EndedIff(r, i - 1, x);
      assert StepAt(r, i - 1);
      EndedStep(r.states[i - 1], r.steps[i - 1], x);
      if r.steps[i - 1] == EndContext(x) {
        assert Does(r, i - 1, EndContext(x));
      }
    }
  }

  lemma UnansweredStep(s: State, step: Step, c: nat)
    requires Enabled(s, step) && Rank(Apply(s, step), c) >= 4 && Apply(s, step).calls[c].answer.None?
    ensures Rank(s, c) >= 4 ==> s.calls[c].answer.None?
    ensures Rank(s, c) < 4 ==>
              && InPhase(Apply(s, step), c, Returning)
              && ((step == SendFail(c) && InPhase(s, c, Registered)) ||
                  (step == Cancel(c) && InPhase(s, c, Waiting) && Apply(s, step).calls[c].ctx in s.ended))
  {
  }

  /** A call that is through without an answer could not send, or its context had ended while it waited. */
  lemma {:induction false} UnansweredBecause(r: Run, i: nat, c: nat) returns (j: nat)
    requires IsRun(r) && i <= |r.steps| && Rank(r.states[i], c) >= 4 && r.states[i].calls[c].answer.None?
    ensures j < i && InPhase(r.states[j + 1], c, Returning)
    ensures || (Does(r, j, SendFail(c)) && InPhase(r.states[j], c, Registered))
            || (Does(r, j, Cancel(c)) && InPhase(r.states[j], c, Waiting) && r.states[i].calls[c].ctx in r.states[j].ended)
  {
    assert r.states[0].calls == map[];
    assert 0 < i && StepAt(r, i - 1);
    var s := r.states[i - 1];
    UnansweredStep(s, r.steps[i - 1], c);
    if Rank(s, c) >= 4 {
      RankMonotone(r, i - 1, i, c);
      j := UnansweredBecause(r, i - 1, c);
    } else {
      j := i - 1;
    }
  }

  lemma AbandonedStep(s: State, step: Step, h: nat)
    requires Enabled(s, step) && h in Apply(s, step).handlers && Apply(s, step).handlers[h].Abandoned?
    ensures s.ended <= Apply(s, step).ended
    ensures h in s.handlers && s.handlers[h].Abandoned? ==> s.handlers[h] == Apply(s, step).handlers[h]
    ensures !(h in s.handlers && s.handlers[h].Abandoned?) ==> Apply(s, step).handlers[h].tx.ctx in s.ended
  {
  }

  /** A handler gives up only once the context of its call has ended. */
  lemma {:induction false} AbandonedBecause(r: Run, i: nat, h: nat)
    requires IsRun(r) && i <= |r.steps| && h in r.states[i].handlers && r.states[i].handlers[h].Abandoned?
    ensures r.states[i].handlers[h].tx.ctx in r.states[i].ended
  {
    assert r.states[0].handlers == map[];
    assert 0 < i && StepAt(r, i - 1);
    AbandonedStep(r.states[i - 1], r.steps[i - 1], h);
    if h in r.states[i - 1].handlers && r.states[i - 1].handlers[h].Abandoned? {
      AbandonedBecause(r, i - 1, h);
    }
  }

  // ---- conservation of replies ----

  /** No call is answered twice. */
  lemma OneReplyPerCall(r: Run, i: nat, j: nat, h: nat, g: nat)
    requires i < j && Does(r, i, Deliver(h)) && Does(r, j, Deliver(g))
    ensures r.states[i].handlers[h].tx.chan != r.states[j].handlers[g].tx.chan
  {
    assert StepAt(r, i) && StepAt(r, j);
    RankMonotone(r, i + 1, j, r.states[i].handlers[h].tx.chan);
  }

  ghost function PendingSet(s: State): set<nat> {
    set h | h in s.handlers && Pending(s, h)
  }

  ghost function Answered(s: State): set<nat> {
    set c | c in s.calls && s.calls[c].answer.Some?
  }

  /** Lookups that found a transaction, deliveries and abandonments among the first `n` steps. */
  ghost function Found(r: Run, n: nat): nat
    requires IsRun(r) && n <= |r.steps|
  {
    if n == 0 then 0
    else Found(r, n - 1) + (if r.steps[n - 1].Lookup? && Pending(r.states[n], r.steps[n - 1].h) then 1 else 0)
  }

  ghost function Deliveries(r: Run, n: nat): nat
    requires IsRun(r) && n <= |r.steps|
  {
    if n == 0 then 0 else Deliveries(r, n - 1) + (if r.steps[n - 1].Deliver? then 1 else 0)
  }

  ghost function Abandonments(r: Run, n: nat): nat
    requires IsRun(r) && n <= |r.steps|
  {
    if n == 0 then 0 else Abandonments(r, n - 1) + (if r.steps[n - 1].Abandon? then 1 else 0)
  }

  lemma PendingStep(s: State, step: Step)
    requires Enabled(s, step)
    ensures var s' := Apply(s, step);
            PendingSet(s') == match step
                              case Lookup(h) => if Pending(s', h) then PendingSet(s) + {h} else PendingSet(s)
                              case Deliver(h) => PendingSet(s) - {h}
                              case Abandon(h) => PendingSet(s) - {h}
                              case _ => PendingSet(s)
  {
  }

  lemma AnsweredStep(s: State, step: Step)
    requires Enabled(s, step) && AnswersMatch(s)
    ensures var s' := Apply(s, step);
            Answered(s') == if step.Deliver? then Answered(s) + {s.handlers[step.h].tx.chan} else Answered(s)
    ensures step.Deliver? ==> s.handlers[step.h].tx.chan !in Answered(s)
  {
  }

  lemma PendingCount(s: State, step: Step)
    requires Enabled(s, step)
    ensures var s' := Apply(s, step);
            |PendingSet(s')| == |PendingSet(s)| + (if step.Lookup? && Pending(s', step.h) then 1 else 0)
                                                - (if step.Deliver? || step.Abandon? then 1 else 0)
  {
    PendingStep(s, step);
    if step.Lookup? {
      assert step.h !in PendingSet(s);
    } else if step.Deliver? || step.Abandon? {
      assert step.h in PendingSet(s);
    }
  }

  lemma AnsweredCount(s: State, step: Step)
    requires Enabled(s, step) && AnswersMatch(s)
    ensures |Answered(Apply(s, step))| == |Answered(s)| + (if step.Deliver? then 1 else 0)
  {
    AnsweredStep(s, step);
  }

  /** Every reply that finds a transaction is delivered, abandoned or still held by its handler, and
      the answered calls are as many as the deliveries: nothing is lost and nothing is doubled. */
  lemma {:induction false} ReplyConservation(r: Run, n: nat)
    requires IsRun(r) && n <= |r.steps|
    ensures Found(r, n) == Deliveries(r, n) + Abandonments(r, n) + |PendingSet(r.states[n])|
    ensures Deliveries(r, n) == |Answered(r.states[n])|
  {
    if n == 0 {
      assert PendingSet(INIT) == {} && Answered(INIT) == {};
    } else {
      ReplyConservation(r, n - 1);
      assert StepAt(r, n - 1);
      RunInvariant(r, n - 1);
      PendingCount(r.states[n - 1], r.steps[n - 1]);
      AnsweredCount(r.states[n - 1], r.steps[n - 1]);
    }
  }

  // ---- handler progress ----

  lemma StaysPending(s: State, step: Step, h: nat)
    requires Enabled(s, step) && Pending(s, h) && step != Deliver(h) && step != Abandon(h)
    ensures Pending(Apply(s, step), h) && Apply(s, step).handlers[h] == s.handlers[h]
  {
  }

  /** A handler with a reply to hand over can be released, by some step, exactly when its call is
      still waiting or its call's context has ended. */
  lemma ProgressIff(s: State, h: nat)
    requires Pending(s, h)
    ensures var tx := s.handlers[h].tx;
            (exists step :: Enabled(s, step) && !Pending(Apply(s, step), h)) <==>
            (InPhase(s, tx.chan, Waiting) || tx.ctx in s.ended)
  {
    var tx := s.handlers[h].tx;
    if InPhase(s, tx.chan, Waiting) {
      assert Enabled(s, Deliver(h)) && !Pending(Apply(s, Deliver(h)), h);
    } else if tx.ctx in s.ended {
      assert Enabled(s, Abandon(h)) && !Pending(Apply(s, Abandon(h)), h);
    } else {
      forall step | Enabled(s, step) ensures Pending(Apply(s, step), h) {
        StaysPending(s, step, h);
      }
    }
  }

  lemma EndedStays(s: State, step: Step)
    requires Enabled(s, step)
    ensures s.ended <= Apply(s, step).ended
  {
  }

  /** A reply captured too late, by a handler whose call has stopped waiting, holds its handler for as
      long as the call's context lasts: returning from the call does not release it. */
  lemma {:induction false} LateReplyWaitsForContext(r: Run, i: nat, j: nat, h: nat)
    requires IsRun(r) && i <= j <= |r.steps| && Pending(r.states[i], h)
    requires Rank(r.states[i], r.states[i].handlers[h].tx.chan) >= 4
    requires r.states[i].handlers[h].tx.ctx !in r.states[j].ended
    ensures Pending(r.states[j], h) && r.states[j].handlers[h] == r.states[i].handlers[h]
    decreases j
  {
    if i < j {
      var s := r.states[j - 1];
      assert StepAt(r, j - 1);
      EndedStays(s, r.steps[j - 1]);
      LateReplyWaitsForContext(r, i, j - 1, h);
      RankMonotone(r, i, j - 1, r.states[i].handlers[h].tx.chan);
      StaysPending(s, r.steps[j - 1], h);
    }
  }

  /** A device's datagram received twice: both handlers look the call up, one delivers. */
  function DuplicateSteps(h: nat, g: nat, frame: seq<byte>, a: Apdu): seq<Step> {
    [Arrive(h, frame, a), Arrive(g, frame, a), Lookup(h), Lookup(g), Deliver(h)]
  }

  lemma DuplicateDelivered(s: State, c: nat, h: nat, g: nat, a: Apdu)
    requires InPhase(s, c, Waiting) && Listed(s, c) && a.invokeID == s.calls[c].id
    requires h in s.handlers && g in s.handlers && s.handlers[h] == s.handlers[g] == Decoded(a) && h != g
    ensures CanRun(s, [Lookup(h), Lookup(g), Deliver(h)])
    ensures var s' := After(s, [Lookup(h), Lookup(g), Deliver(h)]);
            && s'.calls == s.calls[c := s.calls[c].(phase := Returning, answer := Some(a))] && s'.ended == s.ended
            && Pending(s', g) && s'.handlers[g].tx == Tx(c, s.calls[c].ctx)
  {
    LookupCaptures(s, c, h, a);
    var s1 := Apply(s, Lookup(h));
    LookupCaptures(s1, c, g, a);
    var s2 := Apply(s1, Lookup(g));
    RunsOn(s2, Deliver(h), []);
    RunsOn(s1, Lookup(g), [Deliver(h)]);
    RunsOn(s, Lookup(h), [Lookup(g), Deliver(h)]);
    assert [Lookup(g)] + [Deliver(h)] == [Lookup(g), Deliver(h)];
    assert [Lookup(h)] + [Lookup(g), Deliver(h)] == [Lookup(h), Lookup(g), Deliver(h)];
  }

  /** So a duplicated reply to a waiting call can always leave a handler behind, held as above. */
  lemma DuplicateIsHeld(s: State, c: nat, h: nat, g: nat, frame: seq<byte>, a: Apdu)
    requires TableConsistent(s) && InPhase(s, c, Waiting) && h !in s.handlers && g !in s.handlers && h != g
    requires ReplyIn(frame) == Some(a) && a.invokeID == s.calls[c].id
    ensures CanRun(s, DuplicateSteps(h, g, frame, a))
    ensures var s' := After(s, DuplicateSteps(h, g, frame, a));
            && s'.calls == s.calls[c := s.calls[c].(phase := Returning, answer := Some(a))] && s'.ended == s.ended
            && Pending(s', g) && s'.handlers[g].tx == Tx(c, s.calls[c].ctx)
  {
    assert Live(s, c) && Listed(s, c);
    var s1 := Apply(s, Arrive(h, frame, a));
    var s2 := Apply(s1, Arrive(g, frame, a));
    DuplicateDelivered(s2, c, h, g, a);
    var tail := [Lookup(h), Lookup(g), Deliver(h)];
    RunsOn(s1, Arrive(g, frame, a), tail);
    RunsOn(s, Arrive(h, frame, a), [Arrive(g, frame, a)] + tail);
    assert DuplicateSteps(h, g, frame, a) == [Arrive(h, frame, a)] + ([Arrive(g, frame, a)] + tail);
  }

  lemma DuplicateRun(r: Run, n: nat, c: nat, h: nat, g: nat, frame: seq<byte>, a: Apdu) returns (r': Run)
    requires IsRun(r) && n == |r.steps| && InPhase(r.states[n], c, Waiting)
    requires h !in r.states[n].handlers && g !in r.states[n].handlers && h != g
    requires ReplyIn(frame) == Some(a) && a.invokeID == r.states[n].calls[c].id
    ensures IsRun(r') && r'.steps == r.steps + DuplicateSteps(h, g, frame, a)
    ensures var s, s' := r.states[n], r'.states[n + 5];
            && s'.calls == s.calls[c := s.calls[c].(phase := Returning, answer := Some(a))] && s'.ended == s.ended
            && Pending(s', g) && s'.handlers[g].tx == Tx(c, s.calls[c].ctx)
  {
    TableInRun(r, n);
    DuplicateIsHeld(r.states[n], c, h, g, frame, a);
    r' := RunEndsWith(r, n, DuplicateSteps(h, g, frame, a));
  }

  /** The handlers holding a transaction of call `c`, and those whose call's context is `x`. */
  ghost function HoldersOfCall(s: State, c: nat): set<nat> {
    set h | h in s.handlers && Pending(s, h) && s.handlers[h].tx.chan == c
  }

  ghost function HoldersOfContext(s: State, x: nat): set<nat> {
    set h | h in s.handlers && Pending(s, h) && s.handlers[h].tx.ctx == x
  }

  lemma NoNewHolder(s: State, step: Step, c: nat)
    requires TableConsistent(s) && Enabled(s, step) && Rank(s, c) >= 5
    ensures HoldersOfCall(Apply(s, step), c) <= HoldersOfCall(s, c)
  {
    forall h | h in HoldersOfCall(Apply(s, step), c) ensures h in HoldersOfCall(s, c) {
      HandlerOrigin(s, step, h);
    }
  }

  /** Once a call is deregistered no handler can capture it any more. */
  lemma {:induction false} NoNewHoldersAfterStop(r: Run, i: nat, j: nat, c: nat)
    requires IsRun(r) && i <= j <= |r.steps| && Rank(r.states[i], c) >= 5
    ensures HoldersOfCall(r.states[j], c) <= HoldersOfCall(r.states[i], c)
    decreases j
  {
    if i < j {
      NoNewHoldersAfterStop(r, i, j - 1, c);
      assert StepAt(r, j - 1);
      RunInvariant(r, j - 1);
      RankMonotone(r, i, j - 1, c);
      NoNewHolder(r.states[j - 1], r.steps[j - 1], c);
    }
  }

  /** Once a context has ended, its handlers can all go: one abandonment each, needing no one else. */
  lemma {:induction false} EndedContextDrains(s: State, x: nat) returns (steps: seq<Step>)
    requires x in s.ended
    ensures CanRun(s, steps) && |steps| == |HoldersOfContext(s, x)| && forall step | step in steps :: step.Abandon?
    ensures HoldersOfContext(After(s, steps), x) == {} && After(s, steps).calls == s.calls
    decreases |HoldersOfContext(s, x)|
  {
    if HoldersOfContext(s, x) == {} {
      steps := [];
    } else {
      var h :| h in HoldersOfContext(s, x);
      var s' := Apply(s, Abandon(h));
      assert HoldersOfContext(s', x) == HoldersOfContext(s, x) - {h};
      var rest := EndedContextDrains(s', x);
      steps := [Abandon(h)] + rest;
      assert steps[1..] == rest;
    }
  }

  // ---- fifo reuse ----

  /** Step `m` hands out `id`. */
  ghost predicate Issues(r: Run, m: nat, id: byte)
    requires IsRun(r) && m < |r.steps|
  {
    r.steps[m].GetId? && StepAt(r, m) && r.states[m].shared.free[0] == id
  }

  /** The ids taken strictly between steps `i` and `j`. */
  ghost function GetsBetween(r: Run, i: nat, j: nat): nat
    requires IsRun(r) && i < j <= |r.steps|
  {
    if j == i + 1 then 0 else GetsBetween(r, i, j - 1) + (if r.steps[j - 1].GetId? then 1 else 0)
  }

  lemma QueueUnique(r: Run, i: nat)
    requires IsRun(r) && i <= |r.steps|
    ensures NoDuplicates(r.states[i].shared.free)
  {
    RunInvariant(r, i);
  }

  lemma QueueStep(s: State, step: Step)
    requires Enabled(s, step)
    ensures var q, q' := s.shared.free, Apply(s, step).shared.free;
            if step.GetId? then q' == q[1..] else q <= q'
  {
  }

  /** Where a freed id stands in the queue, or the step that has handed it out. */
  lemma {:induction false} QueuePosition(r: Run, i: nat, j: nat, c: nat)
    requires Does(r, i, Free(c)) && i < j <= |r.steps|
    ensures var id, k, g := r.states[i].calls[c].id, |r.states[i].shared.free|, GetsBetween(r, i, j);
            if g <= k then
              && k - g < |r.states[j].shared.free| && r.states[j].shared.free[k - g] == id
              && (forall m | i < m < j :: !Issues(r, m, id))
            else exists m :: i < m < j && Issues(r, m, id)
    decreases j
  {
    assert StepAt(r, i);
    if i + 1 < j {
      QueuePosition(r, i, j - 1, c);
      assert StepAt(r, j - 1);
      QueueUnique(r, j - 1);
      var id, k, g := r.states[i].calls[c].id, |r.states[i].shared.free|, GetsBetween(r, i, j - 1);
      var q, q' := r.states[j - 1].shared.free, r.states[j].shared.free;
      QueueStep(r.states[j - 1], r.steps[j - 1]);
      if g <= k {
        assert r.steps[j - 1].GetId? && g < k ==> q[0] != q[k - g] && q'[k - g - 1] == q[k - g];
        assert Issues(r, j - 1, id) <==> r.steps[j - 1].GetId? && g == k;
      } else {
        var m :| i < m < j - 1 && Issues(r, m, id);
        assert Issues(r, m, id);
      }
    }
  }

  /** An id given back behind `k` others is next handed out by the first step that takes an id after
      exactly `k` others have been taken. */
  lemma FifoReuse(r: Run, i: nat, j: nat, c: nat)
    requires Does(r, i, Free(c)) && i < j < |r.steps| && r.steps[j].GetId?
    ensures var id, k := r.states[i].calls[c].id, |r.states[i].shared.free|;
            (Issues(r, j, id) && forall m | i < m < j :: !Issues(r, m, id)) <==> GetsBetween(r, i, j) == k
  {
    QueuePosition(r, i, j, c);
    RunInvariant(r, j);
    assert StepAt(r, j);
  }

  /** Until then it stays out of the table, so no reply to its last call can reach another one. */
  lemma FreedIdIsUnlisted(r: Run, i: nat, j: nat, c: nat)
    requires Does(r, i, Free(c)) && i < j <= |r.steps|
    requires GetsBetween(r, i, j) <= |r.states[i].shared.free|
    ensures var s, id := r.states[j], r.states[i].calls[c].id;
            && LookupTx(s.shared, id) == None
            && (forall h | h in s.handlers && s.handlers[h].Decoded? && s.handlers[h].apdu.invokeID == id ::
                  Apply(s, Lookup(h)).handlers[h] == NoTransaction(s.handlers[h].apdu))
  {
    var id := r.states[i].calls[c].id;
    QueuePosition(r, i, j, c);
    assert id in r.states[j].shared.free;
    RegistrationConsistency(r, j, id);
  }
}
