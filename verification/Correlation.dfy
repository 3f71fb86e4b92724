/**
 Request/response correlation of the DAP client as a transition system.

 Any number of calls run concurrently. A call is cut at each atomic section of the client:
 taking a sequence number, registering a waiter in the pending map, locking stdin, writing
 bytes, and being answered. The adapter may send any response at any time.
 */
module Correlation {
  import opened Prelude
  import opened ByteText
  import opened Protocol

  /** `encode_to_bytes`: the frame of a message, unless it does not serialise. */
  type Encoder = ProtocolMessage -> Option<Bytes>

  datatype Outcome =
    | Answered(response: ProtocolMessage)
    | FireAndForgetSent
    | BadArguments
    | NotConnected
    | EncodeFailed
    | WriteFailed
    | SenderDropped

  datatype Phase =
    | Assigned               // has its sequence number
    | Registered             // its sender is in the pending map
    | Writing(done: nat)     // holds the stdin lock; `done` bytes of its frame are written
    | Sent                   // awaiting its oneshot receiver
    | Returned(outcome: Outcome)

  /** One `send_request` (`waits`) or `send_request_nb` call; `slot` is its oneshot channel. */
  datatype Call = Call(message: ProtocolMessage, waits: bool, phase: Phase, slot: Option<ProtocolMessage>)

  /** The current adapter's stdin, with the frames completed on it in write order. */
  datatype Pipe = Pipe(bytes: Bytes, sent: seq<ProtocolMessage>, broken: bool)

  datatype Delivery = Delivery(call: nat, response: ProtocolMessage)

  /**
   The client's shared state and its calls, followed by history: sequence numbers fully
   written to any adapter, numbers that came back in any response, numbers whose pending
   entry was taken, responses put into oneshot channels, and responses with no pending entry.
   */
  datatype Client = Client(
    nextSeq: nat,
    pending: map<nat, nat>,
    calls: seq<Call>,
    lock: Option<nat>,
    stdin: Option<Pipe>,
    onWire: set<nat>,
    answered: set<nat>,
    matched: set<nat>,
    deliveries: seq<Delivery>,
    unmatched: seq<nat>)

  const INITIAL := Client(1, map[], [], None, None, {}, {}, {}, [], [])

  datatype Action =
    | TakeSeq(waits: bool, command: string, arguments: Json)
    | FailArguments(call: nat)
    | Register(call: nat)
    | LockStdin(call: nat)
    | WriteSome(call: nat, count: nat)
    | FailWrite(call: nat)
    | FinishWrite(call: nat)
    | Dispatch(response: ProtocolMessage)
    | ReceiveAnswer(call: nat)
    | ReceiveDropped(call: nat)
    | StartAdapter

  // ----- steps

  function FrameOfCall(enc: Encoder, call: Call): Bytes {
    match enc(call.message)
    case None => []
    case Some(frame) => frame
  }

  predicate HasSender(s: Client, c: nat) {
    c in s.pending.Values
  }

  predicate Enabled(enc: Encoder, s: Client, a: Action) {
    match a
    case TakeSeq(_, _, _) => true
    case FailArguments(c) => c < |s.calls| && s.calls[c].phase == Assigned
    case Register(c) => c < |s.calls| && s.calls[c].phase == Assigned && s.calls[c].waits
    case LockStdin(c) =>
      c < |s.calls| && s.lock.None? && s.calls[c].phase == (if s.calls[c].waits then Registered else Assigned)
    case WriteSome(c, n) =>
      && c < |s.calls| && s.lock == Some(c) && s.calls[c].phase.Writing? && s.stdin.Some?
      && 0 < n && s.calls[c].phase.done + n <= |FrameOfCall(enc, s.calls[c])|
    case FailWrite(c) => c < |s.calls| && s.lock == Some(c) && s.calls[c].phase.Writing? && s.stdin.Some?
    case FinishWrite(c) =>
      && c < |s.calls| && s.lock == Some(c)
      && s.calls[c].phase == Writing(|FrameOfCall(enc, s.calls[c])|)
    case Dispatch(r) => r.Response?
    case ReceiveAnswer(c) => c < |s.calls| && s.calls[c].phase == Sent && s.calls[c].slot.Some?
    case ReceiveDropped(c) =>
      c < |s.calls| && s.calls[c].phase == Sent && s.calls[c].slot.None? && !HasSender(s, c)
    case StartAdapter => s.lock.None?
  }

  function InPhase(s: Client, c: nat, phase: Phase): Client
    requires c < |s.calls|
  {
    s.(calls := s.calls[c := s.calls[c].(phase := phase)])
  }

  function Apply(enc: Encoder, s: Client, a: Action): Client
    requires Enabled(enc, s, a)
  {
    match a
    case TakeSeq(waits, command, arguments) =>
      var call := Call(Request(s.nextSeq, command, arguments), waits, Assigned, None);
      s.(nextSeq := s.nextSeq + 1, calls := s.calls + [call])
    case FailArguments(c) => InPhase(s, c, Returned(BadArguments))
    case Register(c) =>
      InPhase(s, c, Registered).(pending := s.pending[s.calls[c].message.seqNo := c])
    case LockStdin(c) =>
      if s.stdin.None? then InPhase(s, c, Returned(NotConnected))
      else if enc(s.calls[c].message).None? then InPhase(s, c, Returned(EncodeFailed))
      else InPhase(s, c, Writing(0)).(lock := Some(c))
    case WriteSome(c, n) => WriteStep(enc, s, c, n)
    case FailWrite(c) =>
      var done := s.calls[c].phase.done;
      var cut := 0 < done < |FrameOfCall(enc, s.calls[c])|;
      var pipe := s.stdin.value;
      InPhase(s, c, Returned(WriteFailed)).(lock := None, stdin := Some(pipe.(broken := pipe.broken || cut)))
    case FinishWrite(c) =>
      InPhase(s, c, if s.calls[c].waits then Sent else Returned(FireAndForgetSent)).(lock := None)
    case Dispatch(r) => DispatchStep(s, r)
    case ReceiveAnswer(c) => InPhase(s, c, Returned(Answered(s.calls[c].slot.value)))
    case ReceiveDropped(c) =>
      InPhase(s, c, Returned(SenderDropped)).(pending := s.pending - {s.calls[c].message.seqNo})
    case StartAdapter => s.(stdin := Some(Pipe([], [], false)))
  }

  /** Part of a frame goes out; its last byte puts the request on the wire. */
  function WriteStep(enc: Encoder, s: Client, c: nat, n: nat): Client
    requires Enabled(enc, s, WriteSome(c, n))
  {
    var call, pipe := s.calls[c], s.stdin.value;
    var frame, done := FrameOfCall(enc, call), call.phase.done;
    var t := InPhase(s, c, Writing(done + n));
    var bytes := pipe.bytes + frame[done..done + n];
    if done + n < |frame| then t.(stdin := Some(pipe.(bytes := bytes)))
    else t.(stdin := Some(pipe.(bytes := bytes, sent := pipe.sent + [call.message])),
            onWire := s.onWire + {call.message.seqNo})
  }

  /** The reader takes the pending entry, if any, and sends into its oneshot channel. */
  function DispatchStep(s: Client, r: ProtocolMessage): Client
    requires r.Response?
  {
    var t := s.(answered := s.answered + {r.requestSeq});
    if r.requestSeq !in s.pending then t.(unmatched := s.unmatched + [r.requestSeq])
    else
      var c := s.pending[r.requestSeq];
      var u := t.(pending := s.pending - {r.requestSeq}, matched := s.matched + {r.requestSeq});
      if c < |s.calls| && !s.calls[c].phase.Returned? then
        u.(calls := s.calls[c := s.calls[c].(slot := Some(r))], deliveries := s.deliveries + [Delivery(c, r)])
      else u
  }

  /** The state after a sequence of actions, if each was enabled in turn. */
  function Run(enc: Encoder, actions: seq<Action>): Option<Client> {
    if actions == [] then Some(INITIAL)
    else match Run(enc, actions[..|actions| - 1])
      case None => None
      case Some(s) =>
        var last := actions[|actions| - 1];
        if Enabled(enc, s, last) then Some(Apply(enc, s, last)) else None
  }

  lemma RunSnoc(enc: Encoder, actions: seq<Action>, a: Action)
    requires Run(enc, actions).Some? && Enabled(enc, Run(enc, actions).value, a)
    ensures Run(enc, actions + [a]) == Some(Apply(enc, Run(enc, actions).value, a))
  {
  }

  // ----- the invariant

  predicate HasRegistered(call: Call) {
    call.waits && call.phase != Assigned && call.phase != Returned(BadArguments)
  }

  predicate FullyWritten(enc: Encoder, call: Call) {
    match call.phase
    case Writing(done) => done == |FrameOfCall(enc, call)|
    case Sent => true
    case Returned(o) => o.Answered? || o.FireAndForgetSent? || o.WriteFailed? || o.SenderDropped?
    case _ => false
  }

  /** Call `i` was assigned sequence number `i + 1`, so assigned numbers are distinct. */
  ghost predicate SeqsAssigned(s: Client) {
    && s.nextSeq == |s.calls| + 1
    && forall i :: 0 <= i < |s.calls| ==> s.calls[i].message.Request? && s.calls[i].message.seqNo == i + 1
  }

  /** The pending map holds exactly the registered waiters whose entry no response has taken. */
  ghost predicate PendingExact(s: Client) {
    PendingOwned(s) && PendingUntaken(s) && MatchedRegistered(s) && s.matched <= s.answered
  }

  ghost predicate PendingOwned(s: Client) {
    forall q :: q in s.pending ==> 1 <= q <= |s.calls| && s.pending[q] == q - 1 && HasRegistered(s.calls[q - 1])
  }

  ghost predicate PendingUntaken(s: Client) {
    forall i :: 0 <= i < |s.calls| && HasRegistered(s.calls[i]) ==> (i + 1 in s.pending <==> i + 1 !in s.matched)
  }

  ghost predicate MatchedRegistered(s: Client) {
    forall q :: q in s.matched ==> 1 <= q <= |s.calls| && HasRegistered(s.calls[q - 1])
  }

  /** A channel holds a response exactly if the entry was taken while the call was still live. */
  ghost predicate SlotsMatch(s: Client) {
    forall i :: 0 <= i < |s.calls| ==>
                  var call := s.calls[i];
                  && (call.slot.Some? ==> HasRegistered(call) && i + 1 in s.matched)
                  && (call.slot.Some? ==> call.slot.value.Response? && call.slot.value.requestSeq == i + 1)
                  && (HasRegistered(call) && !call.phase.Returned? && i + 1 in s.matched ==> call.slot.Some?)
                  && (call.phase.Returned? && call.phase.outcome.Answered? ==>
                        call.slot == Some(call.phase.outcome.response))
                  && call.phase != Returned(SenderDropped)
                  && (call.phase == Sent ==> call.waits)
                  && (call.phase == Registered ==> call.waits)
  }

  /** The lock holder is the only writer. */
  ghost predicate LockExact(enc: Encoder, s: Client) {
    && (forall i :: 0 <= i < |s.calls| ==> (s.calls[i].phase.Writing? <==> s.lock == Some(i)))
    && (s.lock.Some? ==>
          && s.lock.value < |s.calls| && s.stdin.Some?
          && enc(s.calls[s.lock.value].message).Some?
          && s.calls[s.lock.value].phase.done <= |FrameOfCall(enc, s.calls[s.lock.value])|)
  }

  /** Each delivery is in its call's channel, and no call has two. */
  ghost predicate DeliveriesDistinct(s: Client) {
    && (forall k :: 0 <= k < |s.deliveries| ==>
                      && s.deliveries[k].call < |s.calls|
                      && s.calls[s.deliveries[k].call].slot == Some(s.deliveries[k].response))
    && (forall j, k :: 0 <= j < k < |s.deliveries| ==> s.deliveries[j].call != s.deliveries[k].call)
  }

  /** What is on the wire was fully written, and on one pipe no sequence number occurs twice. */
  ghost predicate WireExact(enc: Encoder, s: Client) {
    OnWireWritten(enc, s) && (s.stdin.Some? ==> SentExact(enc, s, s.stdin.value.sent))
  }

  ghost predicate OnWireWritten(enc: Encoder, s: Client) {
    forall q :: q in s.onWire ==> 1 <= q <= |s.calls| && FullyWritten(enc, s.calls[q - 1])
  }

  ghost predicate SentExact(enc: Encoder, s: Client, sent: seq<ProtocolMessage>) {
    && (forall k :: 0 <= k < |sent| ==> SentByCall(enc, s, sent[k]))
    && (forall j, k :: 0 <= j < k < |sent| ==> sent[j].seqNo != sent[k].seqNo)
  }

  ghost predicate SentByCall(enc: Encoder, s: Client, m: ProtocolMessage) {
    && m.seqNo in s.onWire && 1 <= m.seqNo <= |s.calls| && m == s.calls[m.seqNo - 1].message
    && enc(m).Some?
  }

  /** The part of the current frame that is already written. */
  function PartialFrame(enc: Encoder, s: Client): Bytes {
    if s.lock.Some? && s.lock.value < |s.calls| then
      var call := s.calls[s.lock.value];
      var frame := FrameOfCall(enc, call);
      if call.phase.Writing? && call.phase.done < |frame| then frame[..call.phase.done] else []
    else []
  }

  /** Without a write that broke off, stdin carries whole frames and the current partial one. */
  ghost predicate PipeExact(enc: Encoder, s: Client) {
    s.stdin.Some? && !s.stdin.value.broken ==>
      var sent := s.stdin.value.sent;
      && (forall k :: 0 <= k < |sent| ==> enc(sent[k]).Some?)
      && s.stdin.value.bytes == Frames(enc, sent) + PartialFrame(enc, s)
  }

  ghost predicate Inv(enc: Encoder, s: Client) {
    && SeqsAssigned(s) && PendingExact(s) && SlotsMatch(s) && LockExact(enc, s)
    && DeliveriesDistinct(s) && WireExact(enc, s) && PipeExact(enc, s)
  }

  function Frames(enc: Encoder, messages: seq<ProtocolMessage>): Bytes
    requires forall k :: 0 <= k < |messages| ==> enc(messages[k]).Some?
  {
    if messages == [] then [] else enc(messages[0]).value + Frames(enc, messages[1..])
  }

  // ----- every step keeps the invariant

  lemma {:induction false} FramesSnoc(enc: Encoder, ms: seq<ProtocolMessage>, m: ProtocolMessage)
    requires forall k :: 0 <= k < |ms| ==> enc(ms[k]).Some?
    requires enc(m).Some?
    ensures Frames(enc, ms + [m]) == Frames(enc, ms) + enc(m).value
  {
    if ms == [] {
      assert [m][1..] == [];
    } else {
      FramesSnoc(enc, ms[1..], m);
      assert (ms + [m])[1..] == ms[1..] + [m];
      AppendAssoc(enc(ms[0]).value, Frames(enc, ms[1..]), enc(m).value);
    }
  }

  /** The step changes nothing of the correlation state but one call's phase. */
  predicate OnlyPhase(s: Client, t: Client, c: nat) {
    && c < |s.calls| && |t.calls| == |s.calls| && t.nextSeq == s.nextSeq
    && t.calls == s.calls[c := s.calls[c].(phase := t.calls[c].phase)]
    && HasRegistered(t.calls[c]) == HasRegistered(s.calls[c])
    && t.pending == s.pending && t.answered == s.answered && t.matched == s.matched
    && t.deliveries == s.deliveries
  }

  predicate IsPhaseStep(a: Action) {
    !a.TakeSeq? && !a.Register? && !a.Dispatch? && !a.ReceiveDropped? && !a.StartAdapter?
  }

  lemma PhaseSteps(enc: Encoder, s: Client, a: Action)
    requires Enabled(enc, s, a) && IsPhaseStep(a)
    requires a.FailArguments? ==> !HasRegistered(s.calls[a.call])
    ensures OnlyPhase(s, Apply(enc, s, a), a.call)
  {
  }

  lemma PhaseKeepsPending(s: Client, t: Client, c: nat)
    requires SeqsAssigned(s) && PendingExact(s) && OnlyPhase(s, t, c)
    ensures SeqsAssigned(t) && PendingExact(t)
  {
  }

  lemma RegisterKeepsPending(enc: Encoder, s: Client, c: nat)
    requires SeqsAssigned(s) && PendingExact(s) && Enabled(enc, s, Register(c))
    ensures SeqsAssigned(Apply(enc, s, Register(c))) && PendingExact(Apply(enc, s, Register(c)))
  {
  }

  lemma TakeSeqKeepsPending(enc: Encoder, s: Client, a: Action)
    requires SeqsAssigned(s) && PendingExact(s) && a.TakeSeq?
    ensures SeqsAssigned(Apply(enc, s, a)) && PendingExact(Apply(enc, s, a))
  {
  }

  /** Dispatching changes nothing of a call but what is in its channel. */
  predicate OnlySlots(s: Client, t: Client) {
    && |t.calls| == |s.calls| && t.nextSeq == s.nextSeq
    && forall i :: 0 <= i < |s.calls| ==> t.calls[i] == s.calls[i].(slot := t.calls[i].slot)
  }

  lemma DispatchOnlySlots(s: Client, r: ProtocolMessage)
    requires r.Response?
    ensures OnlySlots(s, DispatchStep(s, r))
    ensures DispatchStep(s, r).pending == s.pending - {r.requestSeq}
    ensures DispatchStep(s, r).answered == s.answered + {r.requestSeq}
    ensures DispatchStep(s, r).matched == if r.requestSeq in s.pending then s.matched + {r.requestSeq} else s.matched
  {
  }

  lemma TakingKeepsPending(s: Client, t: Client, q: nat)
    requires SeqsAssigned(s) && PendingExact(s) && OnlySlots(s, t)
    requires t.pending == s.pending - {q} && t.answered == s.answered + {q}
    requires t.matched == if q in s.pending then s.matched + {q} else s.matched
    ensures SeqsAssigned(t) && PendingExact(t)
  {
    assert forall i :: 0 <= i < |s.calls| ==> HasRegistered(t.calls[i]) == HasRegistered(s.calls[i]);
  }

  lemma DispatchKeepsPending(s: Client, r: ProtocolMessage)
    requires SeqsAssigned(s) && PendingExact(s) && r.Response?
    ensures SeqsAssigned(DispatchStep(s, r)) && PendingExact(DispatchStep(s, r))
  {
    DispatchOnlySlots(s, r);
    TakingKeepsPending(s, DispatchStep(s, r), r.requestSeq);
  }

  lemma StepKeepsPending(enc: Encoder, s: Client, a: Action)
    requires SeqsAssigned(s) && PendingExact(s) && SlotsMatch(s) && Enabled(enc, s, a)
    ensures SeqsAssigned(Apply(enc, s, a)) && PendingExact(Apply(enc, s, a))
  {
    match a
    case TakeSeq(_, _, _) => TakeSeqKeepsPending(enc, s, a);
    case Register(c) => RegisterKeepsPending(enc, s, c);
    case Dispatch(r) => DispatchKeepsPending(s, r);
    case ReceiveDropped(c) => NeverDropped(enc, s, c);
    case StartAdapter =>
    case _ =>
      PhaseSteps(enc, s, a);
      PhaseKeepsPending(s, Apply(enc, s, a), a.call);
  }

  lemma PhaseKeepsSlots(enc: Encoder, s: Client, a: Action)
    requires SlotsMatch(s) && DeliveriesDistinct(s) && Enabled(enc, s, a) && IsPhaseStep(a)
    ensures SlotsMatch(Apply(enc, s, a)) && DeliveriesDistinct(Apply(enc, s, a))
  {
    PhaseSteps(enc, s, a);
  }

  lemma TakeSeqKeepsSlots(enc: Encoder, s: Client, a: Action)
    requires SlotsMatch(s) && DeliveriesDistinct(s) && a.TakeSeq?
    ensures SlotsMatch(Apply(enc, s, a)) && DeliveriesDistinct(Apply(enc, s, a))
  {
  }

  lemma RegisterKeepsSlots(enc: Encoder, s: Client, c: nat)
    requires SlotsMatch(s) && DeliveriesDistinct(s) && PendingExact(s) && Enabled(enc, s, Register(c))
    ensures SlotsMatch(Apply(enc, s, Register(c))) && DeliveriesDistinct(Apply(enc, s, Register(c)))
  {
  }

  /** The taken entry's call had nothing in its channel, so its delivery is new. */
  lemma DispatchKeepsSlots(s: Client, r: ProtocolMessage)
    requires SeqsAssigned(s) && PendingExact(s) && SlotsMatch(s) && DeliveriesDistinct(s) && r.Response?
    ensures SlotsMatch(DispatchStep(s, r)) && DeliveriesDistinct(DispatchStep(s, r))
  {
    if r.requestSeq in s.pending {
      var c := s.pending[r.requestSeq];
      assert c + 1 == r.requestSeq && s.calls[c].slot.None?;
    }
  }

  lemma StepKeepsSlots(enc: Encoder, s: Client, a: Action)
    requires SeqsAssigned(s) && PendingExact(s) && SlotsMatch(s) && DeliveriesDistinct(s) && Enabled(enc, s, a)
    ensures SlotsMatch(Apply(enc, s, a)) && DeliveriesDistinct(Apply(enc, s, a))
  {
    match a
    case TakeSeq(_, _, _) => TakeSeqKeepsSlots(enc, s, a);
    case Register(c) => RegisterKeepsSlots(enc, s, c);
    case Dispatch(r) => DispatchKeepsSlots(s, r);
    case ReceiveDropped(c) => NeverDropped(enc, s, c);
    case StartAdapter =>
    case _ => PhaseKeepsSlots(enc, s, a);
  }

  lemma StepKeepsLock(enc: Encoder, s: Client, a: Action)
    requires LockExact(enc, s) && Enabled(enc, s, a)
    ensures LockExact(enc, Apply(enc, s, a))
  {
  }

  /** The writing call is not on the wire yet; completing its frame puts its number there. */
  lemma WriteKeepsOnWire(enc: Encoder, s: Client, c: nat, n: nat)
    requires SeqsAssigned(s) && OnWireWritten(enc, s) && Enabled(enc, s, WriteSome(c, n))
    ensures c + 1 !in s.onWire && OnWireWritten(enc, WriteStep(enc, s, c, n))
  {
    assert c + 1 in s.onWire ==> FullyWritten(enc, s.calls[c]);
  }

  lemma SentGrows(enc: Encoder, s: Client, t: Client, sent: seq<ProtocolMessage>, m: ProtocolMessage)
    requires SentExact(enc, s, sent) && m.seqNo !in s.onWire && SentByCall(enc, t, m)
    requires s.onWire <= t.onWire && |s.calls| <= |t.calls|
    requires forall i :: 0 <= i < |s.calls| ==> t.calls[i].message == s.calls[i].message
    ensures SentExact(enc, t, sent + [m])
  {
    assert forall k :: 0 <= k < |sent| ==> SentByCall(enc, s, sent[k]);
  }

  lemma SentStays(enc: Encoder, s: Client, t: Client, sent: seq<ProtocolMessage>)
    requires SentExact(enc, s, sent) && s.onWire <= t.onWire && |s.calls| <= |t.calls|
    requires forall i :: 0 <= i < |s.calls| ==> t.calls[i].message == s.calls[i].message
    ensures SentExact(enc, t, sent)
  {
    assert forall k :: 0 <= k < |sent| ==> SentByCall(enc, s, sent[k]);
  }

  lemma WriteKeepsWire(enc: Encoder, s: Client, c: nat, n: nat)
    requires SeqsAssigned(s) && LockExact(enc, s) && WireExact(enc, s) && Enabled(enc, s, WriteSome(c, n))
    ensures WireExact(enc, WriteStep(enc, s, c, n))
  {
    WriteKeepsOnWire(enc, s, c, n);
    var t, sent := WriteStep(enc, s, c, n), s.stdin.value.sent;
    if s.calls[c].phase.done + n < |FrameOfCall(enc, s.calls[c])| {
      SentStays(enc, s, t, sent);
    } else {
      SentGrows(enc, s, t, sent, s.calls[c].message);
    }
  }

  lemma OtherStepKeepsOnWire(enc: Encoder, s: Client, a: Action)
    requires OnWireWritten(enc, s) && Enabled(enc, s, a) && IsPhaseStep(a) && !a.WriteSome?
    ensures OnWireWritten(enc, Apply(enc, s, a))
  {
    var t := Apply(enc, s, a);
    forall q | q in s.onWire
      ensures FullyWritten(enc, t.calls[q - 1])
    {
      assert FullyWritten(enc, s.calls[q - 1]);
    }
  }

  lemma OtherStepKeepsWire(enc: Encoder, s: Client, a: Action)
    requires WireExact(enc, s) && Enabled(enc, s, a) && IsPhaseStep(a) && !a.WriteSome?
    ensures WireExact(enc, Apply(enc, s, a))
  {
    OtherStepKeepsOnWire(enc, s, a);
    if s.stdin.Some? {
      SentStays(enc, s, Apply(enc, s, a), s.stdin.value.sent);
    }
  }

  /** A step away from stdin: the writing calls and the written ones stay as they are. */
  predicate Quiet(s: Client, t: Client) {
    && t.stdin == s.stdin && t.lock == s.lock && t.onWire == s.onWire && |s.calls| <= |t.calls|
    && forall i :: 0 <= i < |s.calls| ==>
                     && t.calls[i].message == s.calls[i].message
                     && (|| t.calls[i].phase == s.calls[i].phase
                         || (s.calls[i].phase.Assigned? && !t.calls[i].phase.Writing?))
  }

  lemma QuietSteps(enc: Encoder, s: Client, a: Action)
    requires Enabled(enc, s, a) && (a.TakeSeq? || a.Register? || a.Dispatch?)
    ensures Quiet(s, Apply(enc, s, a))
  {
  }

  lemma QuietKeepsWire(enc: Encoder, s: Client, t: Client)
    requires Quiet(s, t) && LockExact(enc, s) && WireExact(enc, s) && PipeExact(enc, s)
    ensures WireExact(enc, t) && PipeExact(enc, t)
  {
    QuietKeepsOnWire(enc, s, t);
    if s.stdin.Some? {
      SentStays(enc, s, t, s.stdin.value.sent);
    }
    assert PartialFrame(enc, t) == PartialFrame(enc, s);
  }

  lemma QuietKeepsOnWire(enc: Encoder, s: Client, t: Client)
    requires Quiet(s, t) && OnWireWritten(enc, s)
    ensures OnWireWritten(enc, t)
  {
    forall q | q in s.onWire
      ensures FullyWritten(enc, t.calls[q - 1])
    {
      assert FullyWritten(enc, s.calls[q - 1]);
    }
  }

  lemma WriteKeepsPipe(enc: Encoder, s: Client, c: nat, n: nat)
    requires LockExact(enc, s) && PipeExact(enc, s) && Enabled(enc, s, WriteSome(c, n))
    ensures PipeExact(enc, WriteStep(enc, s, c, n))
  {
    var call, pipe := s.calls[c], s.stdin.value;
    var frame, done := FrameOfCall(enc, call), call.phase.done;
    if !pipe.broken {
      var bytes := pipe.bytes + frame[done..done + n];
      assert bytes == Frames(enc, pipe.sent) + frame[..done + n] by {
        WrittenPart(Frames(enc, pipe.sent), frame, done, n);
      }
      if done + n == |frame| {
        FrameCompletes(enc, pipe.sent, call.message, frame, bytes);
      }
    }
  }

  lemma FrameCompletes(enc: Encoder, sent: seq<ProtocolMessage>, m: ProtocolMessage, frame: Bytes, bytes: Bytes)
    requires forall k :: 0 <= k < |sent| ==> enc(sent[k]).Some?
    requires enc(m) == Some(frame) && bytes == Frames(enc, sent) + frame[..|frame|]
    ensures bytes == Frames(enc, sent + [m]) + []
  {
    FramesSnoc(enc, sent, m);
    WrittenPart(Frames(enc, sent), frame, 0, |frame|);
    AppendNothing(bytes);
  }

  lemma WrittenPart(before: Bytes, frame: Bytes, done: nat, n: nat)
    requires done + n <= |frame|
    ensures before + frame[..done] + frame[done..done + n] == before + frame[..done + n]
    ensures frame[..|frame|] == frame
  {
  }

  /** Steps that write nothing keep the bytes, the completed frames and the current part. */
  lemma OtherStepKeepsPipe(enc: Encoder, s: Client, a: Action)
    requires LockExact(enc, s) && PipeExact(enc, s) && Enabled(enc, s, a)
    requires IsPhaseStep(a) && !a.WriteSome?
    ensures PipeExact(enc, Apply(enc, s, a))
  {
  }

  lemma StepKeepsWire(enc: Encoder, s: Client, a: Action)
    requires SeqsAssigned(s) && PendingExact(s) && SlotsMatch(s) && LockExact(enc, s)
    requires WireExact(enc, s) && PipeExact(enc, s) && Enabled(enc, s, a)
    ensures WireExact(enc, Apply(enc, s, a)) && PipeExact(enc, Apply(enc, s, a))
  {
    if a.WriteSome? {
      WriteKeepsWire(enc, s, a.call, a.count);
      WriteKeepsPipe(enc, s, a.call, a.count);
    } else if a.StartAdapter? {
      AppendNothing<Byte>([]);
    } else if a.ReceiveDropped? {
      NeverDropped(enc, s, a.call);
    } else if IsPhaseStep(a) {
      OtherStepKeepsWire(enc, s, a);
      OtherStepKeepsPipe(enc, s, a);
    } else {
      QuietSteps(enc, s, a);
      QuietKeepsWire(enc, s, Apply(enc, s, a));
    }
  }

  /** A live registered waiter has its sender in the pending map or its answer: the sender is never dropped. */
  lemma NeverDropped(enc: Encoder, s: Client, c: nat)
    requires SeqsAssigned(s) && PendingExact(s) && SlotsMatch(s)
    ensures !Enabled(enc, s, ReceiveDropped(c))
  {
  }

  lemma StepKeepsInv(enc: Encoder, s: Client, a: Action)
    requires Inv(enc, s) && Enabled(enc, s, a)
    ensures Inv(enc, Apply(enc, s, a))
  {
    StepKeepsPending(enc, s, a);
    StepKeepsSlots(enc, s, a);
    StepKeepsLock(enc, s, a);
    StepKeepsWire(enc, s, a);
  }

  lemma {:induction false} InvHolds(enc: Encoder, actions: seq<Action>)
    ensures Run(enc, actions).Some? ==> Inv(enc, Run(enc, actions).value)
  {
    if actions != [] && Run(enc, actions).Some? {
      InvHolds(enc, actions[..|actions| - 1]);
      StepKeepsInv(enc, Run(enc, actions[..|actions| - 1]).value, actions[|actions| - 1]);
    }
  }

  /** In a reachable state a pending entry names a live index, and a full channel its own number. */
  lemma ReachableFacts(enc: Encoder, actions: seq<Action>)
    requires Run(enc, actions).Some?
    ensures var s := Run(enc, actions).value;
            && (forall q :: q in s.pending ==> s.pending[q] < |s.calls|)
            && (forall i :: 0 <= i < |s.calls| && s.calls[i].slot.Some? ==>
                  s.calls[i].slot.value.Response? && s.calls[i].slot.value.requestSeq == s.calls[i].message.seqNo)
  {
    InvHolds(enc, actions);
  }
}
