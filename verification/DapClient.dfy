/**
 The DAP client as an object: one method per atomic section of `send_request`,
 `send_request_nb`, the stdout reader and `start`. Each method performs exactly one action of
 the transition system `Correlation`, so the object is always in the state of a run.
 */
module DapClientModel {
  import opened Prelude
  import opened ByteText
  import opened Protocol
  import C = Correlation

  class DapClient {
    const enc: C.Encoder

    var seqCounter: nat
    var pendingRequests: map<nat, nat>
    var stdin: Option<C.Pipe>
    var stdinHolder: Option<nat>
    /** The local state of every call made so far. */
    var calls: seq<C.Call>

    ghost var onWire: set<nat>
    ghost var answered: set<nat>
    ghost var matched: set<nat>
    ghost var deliveries: seq<C.Delivery>
    ghost var unmatched: seq<nat>
    /** The actions performed so far. */
    ghost var history: seq<C.Action>

    ghost function View(): C.Client
      reads this
    {
      C.Client(seqCounter, pendingRequests, calls, stdinHolder, stdin, onWire, answered, matched, deliveries, unmatched)
    }

    /** The object is in the state its history leads to. */
    ghost predicate Valid() reads this { C.Run(enc, history) == Some(View()) }

    constructor (enc: C.Encoder)
      ensures this.enc == enc && history == [] && Valid()
    {
      this.enc := enc;
      seqCounter, pendingRequests, calls, stdin, stdinHolder := 1, map[], [], None, None;
      onWire, answered, matched, deliveries, unmatched, history := {}, {}, {}, [], [], [];
    }

    /** `fetch_add` on the counter, and the request that will carry the number. */
    method TakeSeq(waits: bool, command: string, arguments: Json) returns (c: nat)
      requires Valid()
      modifies this
      ensures View() == C.Apply(enc, old(View()), C.TakeSeq(waits, command, arguments))
      ensures Valid() && history == old(history) + [C.TakeSeq(waits, command, arguments)]
      ensures c == old(|calls|) && calls[c].message == Request(old(seqCounter), command, arguments)
    {
      C.RunSnoc(enc, history, C.TakeSeq(waits, command, arguments));
      history := history + [C.TakeSeq(waits, command, arguments)];
      c := |calls|;
      calls := calls + [C.Call(Request(seqCounter, command, arguments), waits, C.Assigned, None)];
      seqCounter := seqCounter + 1;
    }

    method SetPhase(c: nat, phase: C.Phase)
      requires c < |calls|
      modifies this`calls
      ensures View() == C.InPhase(old(View()), c, phase)
    {
      calls := calls[c := calls[c].(phase := phase)];
    }

    /** Serialising the arguments failed: the number is spent and the call returns. */
    method FailArguments(c: nat)
      requires Valid() && C.Enabled(enc, View(), C.FailArguments(c))
      modifies this
      ensures View() == C.Apply(enc, old(View()), C.FailArguments(c))
      ensures Valid() && history == old(history) + [C.FailArguments(c)]
    {
      C.RunSnoc(enc, history, C.FailArguments(c));
      history := history + [C.FailArguments(c)];
      SetPhase(c, C.Returned(C.BadArguments));
    }

    /** The waiter goes into the pending map before anything is written. */
    method Register(c: nat)
      requires Valid() && C.Enabled(enc, View(), C.Register(c))
      modifies this
      ensures View() == C.Apply(enc, old(View()), C.Register(c))
      ensures Valid() && history == old(history) + [C.Register(c)]
    {
      C.RunSnoc(enc, history, C.Register(c));
      history := history + [C.Register(c)];
      pendingRequests := pendingRequests[calls[c].message.seqNo := c];
      SetPhase(c, C.Registered);
    }

    /** Lock stdin and encode; without an adapter or a frame the lock is let go again. */
    method LockStdin(c: nat) returns (held: bool)
      requires Valid() && C.Enabled(enc, View(), C.LockStdin(c))
      modifies this
      ensures View() == C.Apply(enc, old(View()), C.LockStdin(c))
      ensures Valid() && history == old(history) + [C.LockStdin(c)]
      ensures held <==> stdinHolder == Some(c)
    {
      C.RunSnoc(enc, history, C.LockStdin(c));
      history := history + [C.LockStdin(c)];
      if stdin.None? {
        SetPhase(c, C.Returned(C.NotConnected));
        return false;
      }
      if enc(calls[c].message).None? {
        SetPhase(c, C.Returned(C.EncodeFailed));
        return false;
      }
      stdinHolder := Some(c);
      SetPhase(c, C.Writing(0));
      return true;
    }

    /** The operating system takes some more bytes of the frame. */
    method WriteSome(c: nat, count: nat)
      requires Valid() && C.Enabled(enc, View(), C.WriteSome(c, count))
      modifies this
      ensures View() == C.Apply(enc, old(View()), C.WriteSome(c, count))
      ensures Valid() && history == old(history) + [C.WriteSome(c, count)]
    {
      C.RunSnoc(enc, history, C.WriteSome(c, count));
      history := history + [C.WriteSome(c, count)];
      var frame, done := C.FrameOfCall(enc, calls[c]), calls[c].phase.done;
      var pipe := stdin.value;
      pipe := pipe.(bytes := pipe.bytes + frame[done..done + count]);
      if done + count == |frame| {
        pipe := pipe.(sent := pipe.sent + [calls[c].message]);
        onWire := onWire + {calls[c].message.seqNo};
      }
      stdin := Some(pipe);
      SetPhase(c, C.Writing(done + count));
    }

    method FailWrite(c: nat)
      requires Valid() && C.Enabled(enc, View(), C.FailWrite(c))
      modifies this
      ensures View() == C.Apply(enc, old(View()), C.FailWrite(c))
      ensures Valid() && history == old(history) + [C.FailWrite(c)]
    {
      C.RunSnoc(enc, history, C.FailWrite(c));
      history := history + [C.FailWrite(c)];
      var done := calls[c].phase.done;
      if 0 < done < |C.FrameOfCall(enc, calls[c])| {
        stdin := Some(stdin.value.(broken := true));
      }
      stdinHolder := None;
      SetPhase(c, C.Returned(C.WriteFailed));
    }

    method FinishWrite(c: nat)
      requires Valid() && C.Enabled(enc, View(), C.FinishWrite(c))
      modifies this
      ensures View() == C.Apply(enc, old(View()), C.FinishWrite(c))
      ensures Valid() && history == old(history) + [C.FinishWrite(c)]
    {
      C.RunSnoc(enc, history, C.FinishWrite(c));
      history := history + [C.FinishWrite(c)];
      stdinHolder := None;
      SetPhase(c, if calls[c].waits then C.Sent else C.Returned(C.FireAndForgetSent));
    }

    /** The reader's branch for a response, under the lock of the pending map. */
    method Dispatch(response: ProtocolMessage) returns (found: bool)
      requires Valid() && response.Response?
      modifies this
      ensures View() == C.Apply(enc, old(View()), C.Dispatch(response))
      ensures Valid() && history == old(history) + [C.Dispatch(response)]
      ensures found <==> response.requestSeq in old(pendingRequests)
    {
      C.ReachableFacts(enc, history);
      C.RunSnoc(enc, history, C.Dispatch(response));
      history := history + [C.Dispatch(response)];
      var q := response.requestSeq;
      answered := answered + {q};
      found := q in pendingRequests;
      if found {
        var c := pendingRequests[q];
        pendingRequests := pendingRequests - {q};
        matched := matched + {q};
        if !calls[c].phase.Returned? {
          calls := calls[c := calls[c].(slot := Some(response))];
          deliveries := deliveries + [C.Delivery(c, response)];
        }
      } else {
        unmatched := unmatched + [q];
      }
    }

    /** `rx.await` yields: the caller gets the response named by its own number. */
    method ReceiveAnswer(c: nat) returns (response: ProtocolMessage)
      requires Valid() && C.Enabled(enc, View(), C.ReceiveAnswer(c))
      modifies this
      ensures View() == C.Apply(enc, old(View()), C.ReceiveAnswer(c))
      ensures Valid() && history == old(history) + [C.ReceiveAnswer(c)]
      ensures response.Response? && response.requestSeq == calls[c].message.seqNo
    {
      C.ReachableFacts(enc, history);
      C.RunSnoc(enc, history, C.ReceiveAnswer(c));
      history := history + [C.ReceiveAnswer(c)];
      response := calls[c].slot.value;
      SetPhase(c, C.Returned(C.Answered(response)));
    }

    /** A new adapter process gets a new stdin; the pending map is kept. */
    method StartAdapter()
      requires Valid() && C.Enabled(enc, View(), C.StartAdapter)
      modifies this
      ensures View() == C.Apply(enc, old(View()), C.StartAdapter)
      ensures Valid() && history == old(history) + [C.StartAdapter]
    {
      C.RunSnoc(enc, history, C.StartAdapter);
      history := history + [C.StartAdapter];
      stdin := Some(C.Pipe([], [], false));
    }
  }
}
