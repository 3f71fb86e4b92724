/** What holds in every run of the correlation system: answers reach their calls, once and for good. */
module CorrelationRuns {
  import opened Prelude
  import opened ByteText
  import opened Protocol
  import opened Correlation

  /**
   In every interleaving: assigned numbers are distinct; a pending entry belongs to a waiting
   call that was assigned its key; no call is given two responses, and the one it is given
   answers exactly the number it was assigned.
   */
  lemma AnsweredOnceAndByItsOwn(enc: Encoder, actions: seq<Action>, s: Client)
    requires Run(enc, actions) == Some(s)
    ensures forall i, j :: 0 <= i < j < |s.calls| ==> s.calls[i].message.seqNo != s.calls[j].message.seqNo
    ensures forall q :: q in s.pending ==>
              && q < s.nextSeq && s.pending[q] < |s.calls|
              && s.calls[s.pending[q]].message.seqNo == q && s.calls[s.pending[q]].waits
    ensures forall j, k :: 0 <= j < k < |s.deliveries| ==> s.deliveries[j].call != s.deliveries[k].call
    ensures forall k :: 0 <= k < |s.deliveries| ==>
              var d := s.deliveries[k];
              && d.call < |s.calls| && s.calls[d.call].waits && d.response.Response?
              && d.response.requestSeq == s.calls[d.call].message.seqNo
              && s.calls[d.call].slot == Some(d.response)
    ensures forall i :: 0 <= i < |s.calls| && s.calls[i].phase.Returned? && s.calls[i].phase.outcome.Answered? ==>
              s.calls[i].slot == Some(s.calls[i].phase.outcome.response)
  {
    InvHolds(enc, actions);
  }

  /** No call ever takes the branch for a dropped sender. */
  lemma SenderIsNeverDropped(enc: Encoder, actions: seq<Action>, c: nat)
    requires Run(enc, actions).Some?
    ensures !Enabled(enc, Run(enc, actions).value, ReceiveDropped(c))
  {
    InvHolds(enc, actions);
    NeverDropped(enc, Run(enc, actions).value, c);
  }

  /** A call's request, its answer once it has one, and its result once it returned never change. */
  predicate CallSettles(before: Call, after: Call) {
    && after.message == before.message && after.waits == before.waits
    && (before.slot.Some? ==> after.slot == before.slot)
    && (before.phase.Returned? ==> after.phase == before.phase)
  }

  /** The response goes to a channel that was still empty. */
  lemma DispatchSettles(s: Client, r: ProtocolMessage)
    requires PendingExact(s) && SlotsMatch(s) && r.Response?
    ensures |s.calls| == |DispatchStep(s, r).calls|
    ensures forall i :: 0 <= i < |s.calls| ==> CallSettles(s.calls[i], DispatchStep(s, r).calls[i])
  {
    DispatchOnlySlots(s, r);
    if r.requestSeq in s.pending {
      var c := s.pending[r.requestSeq];
      assert c + 1 == r.requestSeq && s.calls[c].slot.None?;
    }
  }

  lemma OtherStepSettles(enc: Encoder, s: Client, a: Action)
    requires Enabled(enc, s, a) && !a.Dispatch?
    ensures |s.calls| <= |Apply(enc, s, a).calls|
    ensures forall i :: 0 <= i < |s.calls| ==> CallSettles(s.calls[i], Apply(enc, s, a).calls[i])
  {
  }

  lemma StepSettles(enc: Encoder, s: Client, a: Action)
    requires SeqsAssigned(s) && PendingExact(s) && SlotsMatch(s) && Enabled(enc, s, a)
    ensures |s.calls| <= |Apply(enc, s, a).calls|
    ensures forall i :: 0 <= i < |s.calls| ==> CallSettles(s.calls[i], Apply(enc, s, a).calls[i])
  {
    if a.Dispatch? {
      DispatchSettles(s, a.response);
    } else {
      OtherStepSettles(enc, s, a);
    }
  }

  lemma {:induction false} OutcomesAreFinal(enc: Encoder, actions: seq<Action>, n: nat, c: nat)
    requires n <= |actions| && Run(enc, actions).Some?
    ensures Run(enc, actions[..n]).Some?
    ensures c < |Run(enc, actions[..n]).value.calls| ==>
              && c < |Run(enc, actions).value.calls|
              && CallSettles(Run(enc, actions[..n]).value.calls[c], Run(enc, actions).value.calls[c])
  {
    if n == |actions| {
      assert actions[..n] == actions;
    } else {
      var init := actions[..|actions| - 1];
      assert init[..n] == actions[..n];
      OutcomesAreFinal(enc, init, n, c);
      InvHolds(enc, init);
      StepSettles(enc, Run(enc, init).value, actions[|actions| - 1]);
    }
  }

  /** The adapter answers only requests already on the wire, and each at most once. */
  ghost predicate Honest(enc: Encoder, actions: seq<Action>) {
    forall i :: 0 <= i < |actions| && actions[i].Dispatch? ==>
                  && actions[i].response.Response? && Run(enc, actions[..i]).Some?
                  && actions[i].response.requestSeq in Run(enc, actions[..i]).value.onWire
                  && actions[i].response.requestSeq !in Run(enc, actions[..i]).value.answered
  }

  /** A number on the wire that no response has named yet still has its waiter registered. */
  lemma WrittenIsRegistered(enc: Encoder, s: Client, q: nat)
    requires Inv(enc, s) && q in s.onWire && q !in s.answered
    ensures 1 <= q <= |s.calls| && (s.calls[q - 1].waits ==> q in s.pending)
  {
  }

  ghost predicate UnmatchedAreFireAndForget(s: Client) {
    forall k :: 0 <= k < |s.unmatched| ==>
                  && 1 <= s.unmatched[k] <= |s.calls|
                  && !s.calls[s.unmatched[k] - 1].waits && s.unmatched[k] in s.onWire
  }

  lemma WireGrows(enc: Encoder, s: Client, a: Action)
    requires Enabled(enc, s, a)
    ensures s.onWire <= Apply(enc, s, a).onWire
    ensures !a.Dispatch? ==> Apply(enc, s, a).unmatched == s.unmatched
  {
  }

  lemma StepKeepsUnmatched(enc: Encoder, s: Client, a: Action)
    requires SeqsAssigned(s) && PendingExact(s) && SlotsMatch(s) && Enabled(enc, s, a)
    requires UnmatchedAreFireAndForget(s)
    requires a.Dispatch? ==>
               var q := a.response.requestSeq;
               q in s.onWire && 1 <= q <= |s.calls| && (s.calls[q - 1].waits ==> q in s.pending)
    ensures UnmatchedAreFireAndForget(Apply(enc, s, a))
  {
    StepSettles(enc, s, a);
    WireGrows(enc, s, a);
  }

  /** With an honest adapter, only answers to fire-and-forget requests find no pending entry. */
  lemma {:induction false} NoLostResponse(enc: Encoder, actions: seq<Action>)
    requires Run(enc, actions).Some? && Honest(enc, actions)
    ensures UnmatchedAreFireAndForget(Run(enc, actions).value)
  {
    if actions != [] {
      var init, last := actions[..|actions| - 1], actions[|actions| - 1];
      assert forall i :: 0 <= i < |init| ==> init[..i] == actions[..i];
      NoLostResponse(enc, init);
      InvHolds(enc, init);
      assert last == actions[|init|];
      if last.Dispatch? {
        WrittenIsRegistered(enc, Run(enc, init).value, last.response.requestSeq);
      }
      StepKeepsUnmatched(enc, Run(enc, init).value, last);
    }
  }
}
