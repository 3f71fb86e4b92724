/**
 What becomes of a call: which step ends it and how, that an accepted request is written whole and
 its answer reaches the caller, and that no response and no request gets lost in the bookkeeping.
 */
module CorrelationOutcomes {
  import opened Prelude
  import opened ByteText
  import opened Protocol
  import opened Correlation
  import opened CorrelationRuns

  lemma Longer(enc: Encoder, actions: seq<Action>, s: Client, a: Action) returns (longer: seq<Action>, t: Client)
    requires Run(enc, actions) == Some(s) && Enabled(enc, s, a)
    ensures longer == actions + [a] && Run(enc, longer) == Some(t) && t == Apply(enc, s, a)
  {
    longer, t := actions + [a], Apply(enc, s, a);
    RunSnoc(enc, actions, a);
  }

  // ----- requests

  /** What the callers asked for, in the order their numbers were taken. */
  function Asked(actions: seq<Action>): seq<(bool, string, Json)> {
    if actions == [] then []
    else
      var last := actions[|actions| - 1];
      Asked(actions[..|actions| - 1]) + if last.TakeSeq? then [(last.waits, last.command, last.arguments)] else []
  }

  lemma MessagesStay(enc: Encoder, s: Client, a: Action)
    requires Enabled(enc, s, a) && !a.TakeSeq?
    ensures |Apply(enc, s, a).calls| == |s.calls|
    ensures forall i :: 0 <= i < |s.calls| ==>
              && Apply(enc, s, a).calls[i].message == s.calls[i].message
              && Apply(enc, s, a).calls[i].waits == s.calls[i].waits
  {
  }

  /** In every run the i-th call carries number i + 1 and exactly what the i-th caller asked for. */
  lemma {:induction false} CallsAreAsked(enc: Encoder, actions: seq<Action>, s: Client)
    requires Run(enc, actions) == Some(s)
    ensures |s.calls| == |Asked(actions)| && s.nextSeq == |s.calls| + 1
    ensures forall i :: 0 <= i < |s.calls| ==>
              && s.calls[i].waits == Asked(actions)[i].0
              && s.calls[i].message == Request(i + 1, Asked(actions)[i].1, Asked(actions)[i].2)
  {
    if actions != [] {
      var init, last := actions[..|actions| - 1], actions[|actions| - 1];
      CallsAreAsked(enc, init, Run(enc, init).value);
      if !last.TakeSeq? {
        MessagesStay(enc, Run(enc, init).value, last);
        AppendNothing(Asked(init));
      }
      InvHolds(enc, actions);
    }
  }

  // ----- a frame is written whole

  function Total(counts: seq<nat>): nat {
    if counts == [] then 0 else Total(counts[..|counts| - 1]) + counts[|counts| - 1]
  }

  /** The writes that take a frame to the operating system, piece by piece. */
  function Writes(c: nat, counts: seq<nat>): seq<Action> {
    if counts == [] then []
    else Writes(c, counts[..|counts| - 1]) + [WriteSome(c, counts[|counts| - 1])]
  }

  /** Of the call's frame, exactly the first `done` bytes went out since `s`. */
  ghost predicate Wrote(enc: Encoder, s: Client, t: Client, c: nat, done: nat) {
    && c < |s.calls| && s.stdin.Some? && enc(s.calls[c].message).Some?
    && var frame := enc(s.calls[c].message).value;
    && done <= |frame| && t.lock == Some(c) && t.calls == s.calls[c := s.calls[c].(phase := Writing(done))]
    && t.stdin.Some? && t.stdin.value.bytes == s.stdin.value.bytes + frame[..done]
    && t.stdin.value.broken == s.stdin.value.broken
    && t.stdin.value.sent ==
       s.stdin.value.sent + (if 0 < done && done == |frame| then [s.calls[c].message] else [])
    && t.pending == s.pending && t.nextSeq == s.nextSeq && t.deliveries == s.deliveries && t.unmatched == s.unmatched
  }

  lemma WriteGoesOn(enc: Encoder, s: Client, t: Client, c: nat, done: nat, n: nat)
    requires Wrote(enc, s, t, c, done) && 0 < n && done + n <= |enc(s.calls[c].message).value|
    ensures Enabled(enc, t, WriteSome(c, n))
    ensures Wrote(enc, s, Apply(enc, t, WriteSome(c, n)), c, done + n)
  {
    var frame, pipe := enc(s.calls[c].message).value, s.stdin.value;
    assert frame[..done + n] == frame[..done] + frame[done..done + n];
    AppendAssoc(pipe.bytes, frame[..done], frame[done..done + n]);
    AppendNothing(pipe.sent);
    assert t.calls[c] == s.calls[c].(phase := Writing(done));
    assert Apply(enc, t, WriteSome(c, n)).calls == s.calls[c := s.calls[c].(phase := Writing(done + n))];
  }

  lemma WritesOneMore(enc: Encoder, actions: seq<Action>, s: Client, before: Client, c: nat, done: nat, n: nat,
                      total: nat)
    returns (t: Client)
    requires Run(enc, actions) == Some(before) && Wrote(enc, s, before, c, done)
    requires 0 < n && total == done + n && total <= |enc(s.calls[c].message).value|
    ensures Run(enc, actions + [WriteSome(c, n)]) == Some(t) && Wrote(enc, s, t, c, total)
  {
    WriteGoesOn(enc, s, before, c, done, n);
    t := Apply(enc, before, WriteSome(c, n));
    RunSnoc(enc, actions, WriteSome(c, n));
  }

  lemma {:induction false} WritesGoOn(enc: Encoder, actions: seq<Action>, s: Client, locked: Client, c: nat,
                                      counts: seq<nat>) returns (t: Client)
    requires Run(enc, actions) == Some(locked) && Wrote(enc, s, locked, c, 0)
    requires (forall i :: 0 <= i < |counts| ==> counts[i] > 0) && Total(counts) <= |enc(s.calls[c].message).value|
    ensures Run(enc, actions + Writes(c, counts)) == Some(t) && Wrote(enc, s, t, c, Total(counts))
  {
    if counts == [] {
      t := locked;
      AppendNothing(actions);
    } else {
      var init, n := counts[..|counts| - 1], counts[|counts| - 1];
      var before := WritesGoOn(enc, actions, s, locked, c, init);
      WritesSnoc(actions, c, counts);
      t := WritesOneMore(enc, actions + Writes(c, init), s, before, c, Total(init), n, Total(counts));
    }
  }

  lemma WritesSnoc(actions: seq<Action>, c: nat, counts: seq<nat>)
    requires counts != []
    ensures actions + Writes(c, counts) ==
            actions + Writes(c, counts[..|counts| - 1]) + [WriteSome(c, counts[|counts| - 1])]
    ensures Total(counts) == Total(counts[..|counts| - 1]) + counts[|counts| - 1]
  {
    AppendAssoc(actions, Writes(c, counts[..|counts| - 1]), [WriteSome(c, counts[|counts| - 1])]);
  }

  /** Taking the lock with an adapter and a frame: nothing is written yet. */
  lemma LockHeld(enc: Encoder, s: Client, c: nat)
    requires Enabled(enc, s, LockStdin(c)) && s.stdin.Some? && enc(s.calls[c].message).Some?
    ensures Wrote(enc, s, Apply(enc, s, LockStdin(c)), c, 0)
  {
    var frame := enc(s.calls[c].message).value;
    assert frame[..0] == [];
    AppendNothing(s.stdin.value.bytes);
    AppendNothing(s.stdin.value.sent);
  }

  /**
   A call that may lock a started adapter's stdin, and whose message has a frame, can write it in
   any pieces: then exactly that frame was added to the bytes and that message to those sent, the
   lock is free again, and the call waits for its answer or, fire-and-forget, has returned.
   */
  lemma WritesItsFrame(enc: Encoder, actions: seq<Action>, s: Client, c: nat, counts: seq<nat>)
    returns (longer: seq<Action>, t: Client)
    requires Run(enc, actions) == Some(s) && Enabled(enc, s, LockStdin(c))
    requires s.stdin.Some? && enc(s.calls[c].message).Some? && enc(s.calls[c].message).value != []
    requires forall i :: 0 <= i < |counts| ==> counts[i] > 0
    requires Total(counts) == |enc(s.calls[c].message).value|
    ensures longer == actions + [LockStdin(c)] + Writes(c, counts) + [FinishWrite(c)]
    ensures Run(enc, longer) == Some(t) && t.lock.None? && t.stdin.Some?
    ensures t.stdin.value.bytes == s.stdin.value.bytes + enc(s.calls[c].message).value
    ensures t.stdin.value.sent == s.stdin.value.sent + [s.calls[c].message]
    ensures t.stdin.value.broken == s.stdin.value.broken && t.pending == s.pending
    ensures t.calls ==
            s.calls[c := s.calls[c].(phase := if s.calls[c].waits then Sent else Returned(FireAndForgetSent))]
  {
    var frame := enc(s.calls[c].message).value;
    LockHeld(enc, s, c);
    longer, t := Longer(enc, actions, s, LockStdin(c));
    t := WritesGoOn(enc, longer, s, t, c, counts);
    assert frame[..|frame|] == frame;
    var written := t;
    longer, t := Longer(enc, longer + Writes(c, counts), t, FinishWrite(c));
    assert written.calls[c].waits == s.calls[c].waits;
  }

  // ----- an answer arrives

  /** A call that waits for its answer still has its entry in the pending map. */
  lemma WaiterIsPending(enc: Encoder, s: Client, c: nat)
    requires Inv(enc, s) && c < |s.calls| && s.calls[c].phase == Sent && s.calls[c].slot.None?
    ensures s.calls[c].message.seqNo == c + 1 && c + 1 in s.pending && s.pending[c + 1] == c
  {
  }

  /**
   A waiting call that has no answer yet gets the first response to its number and returns it, and
   its entry is gone; no other call is touched.
   */
  lemma AnswerArrives(enc: Encoder, actions: seq<Action>, s: Client, c: nat, r: ProtocolMessage)
    returns (longer: seq<Action>, t: Client)
    requires Run(enc, actions) == Some(s) && c < |s.calls| && s.calls[c].phase == Sent && s.calls[c].slot.None?
    requires r.Response? && r.requestSeq == s.calls[c].message.seqNo
    ensures longer == actions + [Dispatch(r)] + [ReceiveAnswer(c)] && Run(enc, longer) == Some(t)
    ensures t.calls == s.calls[c := s.calls[c].(phase := Returned(Answered(r)), slot := Some(r))]
    ensures t.pending == s.pending - {r.requestSeq} && t.stdin == s.stdin && t.lock == s.lock
    ensures t.deliveries == s.deliveries + [Delivery(c, r)] && t.unmatched == s.unmatched
  {
    InvHolds(enc, actions);
    WaiterIsPending(enc, s, c);
    DispatchFills(s, c, r);
    longer, t := Longer(enc, actions, s, Dispatch(r));
    longer, t := AnswerReceived(enc, longer, t, c, r);
  }

  lemma AnswerReceived(enc: Encoder, actions: seq<Action>, s: Client, c: nat, r: ProtocolMessage)
    returns (longer: seq<Action>, t: Client)
    requires Run(enc, actions) == Some(s) && c < |s.calls| && s.calls[c].phase == Sent && s.calls[c].slot == Some(r)
    ensures longer == actions + [ReceiveAnswer(c)] && Run(enc, longer) == Some(t)
    ensures t == s.(calls := s.calls[c := s.calls[c].(phase := Returned(Answered(r)))])
  {
    longer, t := Longer(enc, actions, s, ReceiveAnswer(c));
  }

  lemma DispatchFills(s: Client, c: nat, r: ProtocolMessage)
    requires c < |s.calls| && !s.calls[c].phase.Returned? && r.Response?
    requires r.requestSeq in s.pending && s.pending[r.requestSeq] == c
    ensures DispatchStep(s, r) ==
            s.(answered := s.answered + {r.requestSeq}, matched := s.matched + {r.requestSeq},
               pending := s.pending - {r.requestSeq}, calls := s.calls[c := s.calls[c].(slot := Some(r))],
               deliveries := s.deliveries + [Delivery(c, r)])
  {
  }

  /**
   From any run with a started adapter and a free lock: a request is taken, registered, written in any
   pieces, and answered, whatever else is under way, and its caller gets that answer.
   */
  lemma RequestIsAnswered(enc: Encoder, actions: seq<Action>, s: Client, command: string, arguments: Json,
                          counts: seq<nat>, r: ProtocolMessage)
    returns (longer: seq<Action>, t: Client)
    requires Run(enc, actions) == Some(s) && s.lock.None? && s.stdin.Some?
    requires enc(Request(s.nextSeq, command, arguments)).Some?
    requires enc(Request(s.nextSeq, command, arguments)).value != []
    requires forall i :: 0 <= i < |counts| ==> counts[i] > 0
    requires Total(counts) == |enc(Request(s.nextSeq, command, arguments)).value|
    requires r.Response? && r.requestSeq == s.nextSeq
    ensures Run(enc, longer) == Some(t) && |t.calls| == |s.calls| + 1
    ensures t.calls[|s.calls|].message == Request(s.nextSeq, command, arguments)
    ensures t.calls[|s.calls|].phase == Returned(Answered(r))
    ensures t.stdin.Some? && t.stdin.value.sent == s.stdin.value.sent + [Request(s.nextSeq, command, arguments)]
    ensures forall k: nat :: k < |s.calls| ==> t.calls[k] == s.calls[k]
  {
    var c := |s.calls|;
    longer, t := Longer(enc, actions, s, TakeSeq(true, command, arguments));
    longer, t := Longer(enc, longer, t, Register(c));
    var registered := t;
    assert t.calls == s.calls + [Call(Request(s.nextSeq, command, arguments), true, Registered, None)];
    longer, t := WritesItsFrame(enc, longer, t, c, counts);
    longer, t := AnswerArrives(enc, longer, t, c, r);
    assert forall k: nat :: k < |s.calls| ==> registered.calls[k] == s.calls[k];
  }

  /** So the first request to the first adapter can be answered. */
  lemma FirstRequest(enc: Encoder, command: string, arguments: Json, r: ProtocolMessage)
    returns (actions: seq<Action>, t: Client)
    requires enc(Request(1, command, arguments)).Some? && enc(Request(1, command, arguments)).value != []
    requires r.Response? && r.requestSeq == 1
    ensures Run(enc, actions) == Some(t) && |t.calls| == 1 && t.calls[0].phase == Returned(Answered(r))
    ensures t.stdin.Some? && t.stdin.value.sent == [Request(1, command, arguments)]
  {
    actions, t := Longer(enc, [], INITIAL, StartAdapter);
    var n := |enc(Request(1, command, arguments)).value|;
    assert [n][..0] == [];
    assert Total([n]) == n;
    actions, t := RequestIsAnswered(enc, actions, t, command, arguments, [n], r);
  }

  // ----- calls that give up

  /** Arguments that do not serialise end a call before anything is registered or written. */
  lemma ArgumentsFail(enc: Encoder, actions: seq<Action>, s: Client, c: nat) returns (longer: seq<Action>, t: Client)
    requires Run(enc, actions) == Some(s) && c < |s.calls| && s.calls[c].phase == Assigned
    ensures longer == actions + [FailArguments(c)] && Run(enc, longer) == Some(t)
    ensures t == s.(calls := s.calls[c := s.calls[c].(phase := Returned(BadArguments))])
    ensures s.calls[c].message.seqNo !in t.pending
  {
    longer, t := Longer(enc, actions, s, FailArguments(c));
    InvHolds(enc, longer);
    UnregisteredIsNotPending(t, c);
  }

  lemma UnregisteredIsNotPending(s: Client, c: nat)
    requires SeqsAssigned(s) && PendingOwned(s) && c < |s.calls| && !HasRegistered(s.calls[c])
    ensures s.calls[c].message.seqNo !in s.pending
  {
  }

  /**
   A write that fails ends its call and frees the lock, while the entry of a waiting call stays in the
   pending map; the pipe counts as broken if the failure came inside the frame.
   */
  lemma WriteFails(enc: Encoder, actions: seq<Action>, s: Client, c: nat) returns (longer: seq<Action>, t: Client)
    requires Run(enc, actions) == Some(s) && s.lock == Some(c)
    ensures longer == actions + [FailWrite(c)] && Run(enc, longer) == Some(t) && c < |s.calls| && s.stdin.Some?
    ensures t.lock.None? && t.calls == s.calls[c := s.calls[c].(phase := Returned(WriteFailed))]
    ensures t.pending == s.pending && t.stdin.Some?
    ensures t.stdin.value.bytes == s.stdin.value.bytes && t.stdin.value.sent == s.stdin.value.sent
    ensures s.calls[c].waits && s.calls[c].slot.None? ==> s.calls[c].message.seqNo in t.pending
  {
    InvHolds(enc, actions);
    longer, t := Longer(enc, actions, s, FailWrite(c));
  }

  // ----- how calls end

  /** Step `n` of the run, and the state before it. */
  ghost predicate StepAt(enc: Encoder, actions: seq<Action>, n: nat, a: Action, before: Client) {
    n < |actions| && actions[n] == a && Run(enc, actions[..n]) == Some(before)
  }

  /** In this state the action ends the call with this outcome. */
  predicate Ends(enc: Encoder, s: Client, a: Action, c: nat, outcome: Outcome)
    requires c < |s.calls|
  {
    match outcome
    case NotConnected => a == LockStdin(c) && s.stdin.None?
    case EncodeFailed => a == LockStdin(c) && s.stdin.Some? && enc(s.calls[c].message).None?
    case WriteFailed => a == FailWrite(c)
    case BadArguments => a == FailArguments(c)
    case FireAndForgetSent => a == FinishWrite(c) && !s.calls[c].waits
    case Answered(r) => a == ReceiveAnswer(c) && s.calls[c].slot == Some(r)
    case SenderDropped => false
  }

  /** Step `n` of the run ended the call, which had not returned before. */
  ghost predicate Caused(enc: Encoder, actions: seq<Action>, n: nat, c: nat, outcome: Outcome, before: Client) {
    && n < |actions| && StepAt(enc, actions, n, actions[n], before)
    && c < |before.calls| && !before.calls[c].phase.Returned? && Ends(enc, before, actions[n], c, outcome)
  }

  lemma StepReturns(enc: Encoder, s: Client, a: Action, c: nat)
    requires Inv(enc, s) && Enabled(enc, s, a) && c < |s.calls| && !s.calls[c].phase.Returned?
    ensures c < |Apply(enc, s, a).calls|
    ensures var phase := Apply(enc, s, a).calls[c].phase; phase.Returned? ==> Ends(enc, s, a, c, phase.outcome)
  {
    NeverDropped(enc, s, c);
    if a.Dispatch? {
      DispatchOnlySlots(s, a.response);
    }
  }

  lemma {:induction false} ReturnedBy(enc: Encoder, actions: seq<Action>, s: Client, c: nat)
    returns (n: nat, before: Client)
    requires Run(enc, actions) == Some(s) && c < |s.calls| && s.calls[c].phase.Returned?
    ensures Caused(enc, actions, n, c, s.calls[c].phase.outcome, before)
  {
    var init, last := actions[..|actions| - 1], actions[|actions| - 1];
    var b := Run(enc, init).value;
    InvHolds(enc, init);
    NewCallsAreAssigned(enc, b, last, c);
    if c < |b.calls| && b.calls[c].phase.Returned? {
      StepSettles(enc, b, last);
      n, before := ReturnedBy(enc, init, b, c);
      assert init[..n] == actions[..n] && init[n] == actions[n];
    } else {
      n, before := |init|, b;
      StepReturns(enc, b, last, c);
    }
  }

  lemma NewCallsAreAssigned(enc: Encoder, s: Client, a: Action, c: nat)
    requires Enabled(enc, s, a) && c < |Apply(enc, s, a).calls|
    ensures c < |s.calls| || Apply(enc, s, a).calls[c].phase == Assigned
  {
  }

  lemma CauseReturns(enc: Encoder, s: Client, a: Action, c: nat, outcome: Outcome)
    requires Enabled(enc, s, a) && c < |s.calls| && Ends(enc, s, a, c, outcome)
    ensures Apply(enc, s, a).calls[c].phase == Returned(outcome)
  {
  }

  /**
   In every run a call has returned with an outcome exactly if the step that causes it was taken: not
   connected, if there was no stdin when it took the lock; not encoded, if its message then had no
   frame; a failed write; arguments that did not serialise; a finished fire-and-forget write; or an
   answer that was in its channel.
   */
  lemma ReturnedIff(enc: Encoder, actions: seq<Action>, s: Client, c: nat, outcome: Outcome)
    requires Run(enc, actions) == Some(s) && c < |s.calls|
    ensures s.calls[c].phase == Returned(outcome) <==>
            exists n: nat, before: Client :: Caused(enc, actions, n, c, outcome, before)
  {
    if s.calls[c].phase == Returned(outcome) {
      var n, before := ReturnedBy(enc, actions, s, c);
      assert Caused(enc, actions, n, c, outcome, before);
    }
    if n: nat, before: Client :| Caused(enc, actions, n, c, outcome, before) {
      CauseStays(enc, actions, s, n, c, outcome, before);
    }
  }

  lemma CauseStays(enc: Encoder, actions: seq<Action>, s: Client, n: nat, c: nat, outcome: Outcome, before: Client)
    requires Run(enc, actions) == Some(s) && c < |s.calls| && Caused(enc, actions, n, c, outcome, before)
    ensures s.calls[c].phase == Returned(outcome)
  {
    var after := NextState(enc, actions, s, n, before);
    CauseReturns(enc, before, actions[n], c, outcome);
    OutcomesAreFinal(enc, actions, n + 1, c);
  }

  lemma NextState(enc: Encoder, actions: seq<Action>, s: Client, n: nat, before: Client) returns (after: Client)
    requires Run(enc, actions) == Some(s) && n < |actions| && StepAt(enc, actions, n, actions[n], before)
    ensures Enabled(enc, before, actions[n]) && after == Apply(enc, before, actions[n])
    ensures Run(enc, actions[..n + 1]) == Some(after)
  {
    OutcomesAreFinal(enc, actions, n + 1, 0);
    var upTo := actions[..n + 1];
    assert upTo[..|upTo| - 1] == actions[..n] && upTo[|upTo| - 1] == actions[n];
    after := Apply(enc, before, actions[n]);
  }

  // ----- responses are accounted for

  function Dispatches(actions: seq<Action>): nat {
    if actions == [] then 0
    else Dispatches(actions[..|actions| - 1]) + if actions[|actions| - 1].Dispatch? then 1 else 0
  }

  /** The response finds the entry of a call that gave up after its request was registered. */
  predicate FindsReturned(s: Client, a: Action) {
    && a.Dispatch? && a.response.Response? && 1 <= a.response.requestSeq <= |s.calls|
    && a.response.requestSeq in s.pending && s.calls[a.response.requestSeq - 1].phase.Returned?
  }

  function Late(enc: Encoder, actions: seq<Action>): nat {
    if actions == [] then 0
    else
      var init := actions[..|actions| - 1];
      Late(enc, init) + match Run(enc, init)
        case None => 0
        case Some(s) => if FindsReturned(s, actions[|actions| - 1]) then 1 else 0
  }

  lemma DispatchCounts(enc: Encoder, s: Client, a: Action)
    requires Inv(enc, s) && Enabled(enc, s, a)
    ensures var t := Apply(enc, s, a);
            |t.deliveries| + |t.unmatched| + (if FindsReturned(s, a) then 1 else 0) ==
            |s.deliveries| + |s.unmatched| + (if a.Dispatch? then 1 else 0)
  {
  }

  /** In every run each response is delivered, or named no pending request, or came after its caller gave up. */
  lemma {:induction false} ResponsesAreCounted(enc: Encoder, actions: seq<Action>, s: Client)
    requires Run(enc, actions) == Some(s)
    ensures Dispatches(actions) == |s.deliveries| + |s.unmatched| + Late(enc, actions)
  {
    if actions != [] {
      var init := actions[..|actions| - 1];
      ResponsesAreCounted(enc, init, Run(enc, init).value);
      InvHolds(enc, init);
      DispatchCounts(enc, Run(enc, init).value, actions[|actions| - 1]);
    }
  }

  // ----- broken pipes

  /** Step `n` broke off the frame being written on the adapter that is current now. */
  ghost predicate BrokeOff(enc: Encoder, actions: seq<Action>, n: nat, c: nat, before: Client) {
    && StepAt(enc, actions, n, FailWrite(c), before) && c < |before.calls| && before.calls[c].phase.Writing?
    && 0 < before.calls[c].phase.done < |FrameOfCall(enc, before.calls[c])|
    && forall k :: n < k < |actions| ==> !actions[k].StartAdapter?
  }

  ghost predicate SomeBrokeOff(enc: Encoder, actions: seq<Action>) {
    exists n: nat, c: nat, before: Client :: BrokeOff(enc, actions, n, c, before)
  }

  lemma BrokeOffStays(enc: Encoder, actions: seq<Action>, n: nat, c: nat, before: Client)
    requires actions != [] && !actions[|actions| - 1].StartAdapter? && n < |actions| - 1
    ensures BrokeOff(enc, actions[..|actions| - 1], n, c, before) <==> BrokeOff(enc, actions, n, c, before)
  {
    assert actions[..|actions| - 1][..n] == actions[..n];
  }

  /** The step breaks off the frame its call is writing. */
  predicate BreaksOff(enc: Encoder, s: Client, a: Action)
    requires Enabled(enc, s, a)
  {
    a.FailWrite? && 0 < s.calls[a.call].phase.done < |FrameOfCall(enc, s.calls[a.call])|
  }

  lemma StepBreaks(enc: Encoder, s: Client, a: Action)
    requires Inv(enc, s) && Enabled(enc, s, a)
    ensures var t := Apply(enc, s, a);
            t.stdin.Some? && t.stdin.value.broken <==>
            (s.stdin.Some? && s.stdin.value.broken && !a.StartAdapter?) || BreaksOff(enc, s, a)
  {
  }

  lemma BrokeOffStep(enc: Encoder, actions: seq<Action>, b: Client)
    requires actions != [] && Run(enc, actions[..|actions| - 1]) == Some(b) && Enabled(enc, b, actions[|actions| - 1])
    ensures SomeBrokeOff(enc, actions) <==>
            || (SomeBrokeOff(enc, actions[..|actions| - 1]) && !actions[|actions| - 1].StartAdapter?)
            || BreaksOff(enc, b, actions[|actions| - 1])
  {
    var init, last := actions[..|actions| - 1], actions[|actions| - 1];
    if BreaksOff(enc, b, last) {
      assert BrokeOff(enc, actions, |init|, last.call, b);
    }
    if SomeBrokeOff(enc, init) && !last.StartAdapter? {
      var n: nat, c: nat, before: Client :| BrokeOff(enc, init, n, c, before);
      BrokeOffStays(enc, actions, n, c, before);
    }
    if SomeBrokeOff(enc, actions) {
      var n: nat, c: nat, before: Client :| BrokeOff(enc, actions, n, c, before);
      if n < |init| {
        BrokeOffStays(enc, actions, n, c, before);
      }
    }
  }

  /**
   In every run the current adapter's stdin counts as broken exactly if a write failed inside a frame
   since that adapter was started.
   */
  lemma {:induction false} BrokenIff(enc: Encoder, actions: seq<Action>, s: Client)
    requires Run(enc, actions) == Some(s)
    ensures s.stdin.Some? && s.stdin.value.broken <==> SomeBrokeOff(enc, actions)
  {
    if actions != [] {
      var init, last := actions[..|actions| - 1], actions[|actions| - 1];
      var b := Run(enc, init).value;
      BrokenIff(enc, init, b);
      InvHolds(enc, init);
      StepBreaks(enc, b, last);
      BrokeOffStep(enc, actions, b);
    }
  }
}
