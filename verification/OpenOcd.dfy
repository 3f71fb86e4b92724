/**
 The OpenOCD client's line buffer: a reader pushes stdout lines, evicts the oldest beyond 1000
 and notifies who waits; one command at a time waits for a notification and pops lines until a
 line with the terminator character, or until its timeout. A notification that finds nobody
 waiting is not kept. Each action below is one section under the buffer's lock (or no lock at all).
 */
module OpenOcd {
  import opened Prelude

  const MAX_STDOUT_BUFFER_LINES := 1000

  /** ASCII SUB, which ends every command response. */
  const SUB: char := '\U{001a}'

  predicate IsTerminator(line: string) { SUB in line }

  function RemoveSub(line: string): string {
    if line == [] then []
    else (if line[0] == SUB then [] else [line[0]]) + RemoveSub(line[1..])
  }

  /** The text before the terminator counts as a last line, unless there is none. */
  function LastLine(line: string): seq<string> {
    if RemoveSub(line) == [] then [] else [RemoveSub(line)]
  }

  function Join(lines: seq<string>): string {
    if lines == [] then []
    else if |lines| == 1 then lines[0]
    else lines[0] + "\n" + Join(lines[1..])
  }

  /** A line that left the buffer: to the command with that number, or over the limit. */
  datatype Removed = Consumed(line: string, command: nat) | Evicted(line: string)

  /** A finished command: the stdout lines it took, its result lines, and how it ended. */
  datatype Answer = Answer(raw: seq<string>, lines: seq<string>, timedOut: bool)

  /** What `send_command` returns: a timeout with nothing collected is an error. */
  function ResultOf(a: Answer): Result<string, ()> {
    if a.timedOut && Join(a.lines) == [] then Err(()) else Ok(Join(a.lines))
  }

  /** Whether the command in progress has begun to wait, and was notified since. */
  datatype Waiting = NotYet | Listening | Woken

  /**
   `collecting` holds the response lines of the command in progress, and `announces` says that the
   reader has pushed a line and is about to notify; the last three fields are history.
   */
  datatype Client = Client(
    buffer: seq<string>,
    collecting: Option<seq<string>>,
    waiting: Waiting,
    announces: bool,
    read: seq<string>,
    removed: seq<Removed>,
    answers: seq<Answer>)

  const INITIAL := Client([], None, NotYet, false, [], [], [])

  datatype Action = ReadLine(line: string) | Notify | BeginCommand | Listen | Collect | Timeout

  // ----- steps

  function Push(s: Client, line: string): Client {
    s.(buffer := s.buffer + [line], read := s.read + [line], announces := true)
  }

  /** `notify_waiters` reaches only a command that is waiting now. */
  function Notified(s: Client): Client {
    s.(announces := false, waiting := if s.waiting == Listening then Woken else s.waiting)
  }

  function EvictOne(s: Client): Client
    requires s.buffer != []
  {
    s.(buffer := s.buffer[1..], removed := s.removed + [Evicted(s.buffer[0])])
  }

  function EvictAll(s: Client): (t: Client)
    ensures |t.buffer| <= MAX_STDOUT_BUFFER_LINES
    decreases |s.buffer|
  {
    if |s.buffer| > MAX_STDOUT_BUFFER_LINES then EvictAll(EvictOne(s)) else s
  }

  /** The command in progress pops one line; a terminator finishes it. */
  function TakeLine(s: Client): Client
    requires s.buffer != [] && s.collecting.Some?
  {
    var line, lines := s.buffer[0], s.collecting.value;
    var t := s.(buffer := s.buffer[1..], removed := s.removed + [Consumed(line, |s.answers|)]);
    if IsTerminator(line) then
      t.(collecting := None, answers := s.answers + [Answer(lines + [line], lines + LastLine(line), false)])
    else t.(collecting := Some(lines + [line]))
  }

  /** One wake-up of the collection loop. */
  function CollectAll(s: Client): Client
    decreases |s.buffer|
  {
    if s.buffer == [] || s.collecting.None? then s else CollectAll(TakeLine(s))
  }

  function GivenUp(s: Client): Client
    requires s.collecting.Some?
  {
    s.(collecting := None, waiting := NotYet,
       answers := s.answers + [Answer(s.collecting.value, s.collecting.value, true)])
  }

  predicate Enabled(s: Client, a: Action) {
    match a
    case ReadLine(_) => !s.announces
    case Notify => s.announces
    case BeginCommand => s.collecting.None?
    case Listen => s.collecting.Some? && s.waiting == NotYet
    case Collect => s.collecting.Some? && s.waiting == Woken
    case Timeout => s.collecting.Some?
  }

  function Apply(s: Client, a: Action): Client
    requires Enabled(s, a)
  {
    match a
    case ReadLine(line) => EvictAll(Push(s, line))
    case Notify => Notified(s)
    case BeginCommand => s.(collecting := Some([]), waiting := NotYet)
    case Listen => s.(waiting := Listening)
    case Collect => CollectAll(s).(waiting := NotYet)
    case Timeout => GivenUp(s)
  }

  function Run(actions: seq<Action>): Option<Client> {
    if actions == [] then Some(INITIAL)
    else match Run(actions[..|actions| - 1])
      case None => None
      case Some(s) =>
        var last := actions[|actions| - 1];
        if Enabled(s, last) then Some(Apply(s, last)) else None
  }

  lemma RunOneMore(actions: seq<Action>, s: Client, a: Action)
    requires Run(actions) == Some(s) && Enabled(s, a)
    ensures Run(actions + [a]) == Some(Apply(s, a))
  {
    assert (actions + [a])[..|actions|] == actions;
  }

  // ----- what the history says

  function LinesOf(removed: seq<Removed>): (r: seq<string>)
    ensures |r| == |removed| && forall i :: 0 <= i < |removed| ==> r[i] == removed[i].line
  {
    seq(|removed|, i requires 0 <= i < |removed| => removed[i].line)
  }

  /** The lines a command took, in order. */
  function Taken(removed: seq<Removed>, command: nat): seq<string> {
    if removed == [] then []
    else
      var last := removed[|removed| - 1];
      Taken(removed[..|removed| - 1], command) +
      if last.Consumed? && last.command == command then [last.line] else []
  }

  function Terminators(lines: seq<string>): nat {
    if lines == [] then 0
    else Terminators(lines[..|lines| - 1]) + if IsTerminator(lines[|lines| - 1]) then 1 else 0
  }

  function EvictedTerminators(removed: seq<Removed>): nat {
    if removed == [] then 0
    else
      var last := removed[|removed| - 1];
      EvictedTerminators(removed[..|removed| - 1]) + if last.Evicted? && IsTerminator(last.line) then 1 else 0
  }

  function Timeouts(answers: seq<Answer>): nat {
    if answers == [] then 0
    else Timeouts(answers[..|answers| - 1]) + if answers[|answers| - 1].timedOut then 1 else 0
  }

  lemma OneMoreRemoved(removed: seq<Removed>, r: Removed)
    ensures LinesOf(removed + [r]) == LinesOf(removed) + [r.line]
    ensures Terminators(LinesOf(removed + [r])) ==
            Terminators(LinesOf(removed)) + if IsTerminator(r.line) then 1 else 0
    ensures EvictedTerminators(removed + [r]) ==
            EvictedTerminators(removed) + if r.Evicted? && IsTerminator(r.line) then 1 else 0
  {
    assert (removed + [r])[..|removed|] == removed;
    assert (LinesOf(removed) + [r.line])[..|removed|] == LinesOf(removed);
  }

  lemma OneMoreTaken(removed: seq<Removed>, r: Removed, command: nat)
    ensures Taken(removed + [r], command) ==
            Taken(removed, command) + if r.Consumed? && r.command == command then [r.line] else []
  {
    assert (removed + [r])[..|removed|] == removed;
  }

  lemma OneMoreAnswer(answers: seq<Answer>, a: Answer)
    ensures Timeouts(answers + [a]) == Timeouts(answers) + if a.timedOut then 1 else 0
  {
    assert (answers + [a])[..|answers|] == answers;
  }

  // ----- the invariant

  /** Removed lines followed by the buffer are the lines read. */
  ghost predicate Conserved(s: Client) { s.read == LinesOf(s.removed) + s.buffer }

  function Current(s: Client): seq<string> { if s.collecting.Some? then s.collecting.value else [] }

  /** Every command has exactly the lines it took. */
  ghost predicate TakenExactly(s: Client) {
    && (forall k: nat :: k < |s.answers| ==> s.answers[k].raw == Taken(s.removed, k))
    && Taken(s.removed, |s.answers|) == Current(s)
  }

  ghost predicate IsTakenBy(s: Client, i: nat, k: nat) {
    i < |s.removed| && s.removed[i].Consumed? && s.removed[i].command == k
  }

  /** Command `k` took its terminator at position `q` of the lines read. */
  ghost predicate EndsAt(s: Client, k: nat, q: nat) {
    IsTakenBy(s, q, k) && k < |s.answers| && !s.answers[k].timedOut && IsTerminator(s.removed[q].line)
  }

  ghost predicate TakesAt(s: Client, i: nat) { i < |s.removed| && s.removed[i].Consumed? }

  /** Commands take lines one after another; a terminator is the last line its command takes. */
  ghost predicate InTurn(s: Client) {
    && (forall i: nat :: TakesAt(s, i) ==> s.removed[i].command <= |s.answers|)
    && (forall i: nat :: TakesAt(s, i) && s.removed[i].command == |s.answers| ==>
          s.collecting.Some? && !IsTerminator(s.removed[i].line))
    && (forall i: nat, j: nat :: i < j && TakesAt(s, i) && TakesAt(s, j) ==>
          s.removed[i].command <= s.removed[j].command)
    && (forall i: nat :: TakesAt(s, i) && IsTerminator(s.removed[i].line) ==> EndsAt(s, s.removed[i].command, i))
    && (forall i: nat, j: nat :: i < j && TakesAt(s, i) && TakesAt(s, j) && IsTerminator(s.removed[i].line) ==>
          s.removed[i].command < s.removed[j].command)
  }

  ghost predicate Ended(s: Client) {
    forall k: nat :: k < |s.answers| && !s.answers[k].timedOut ==> exists q: nat :: EndsAt(s, k, q)
  }

  /** Removed terminators each ended a command or were evicted; the other commands timed out. */
  ghost predicate Counted(s: Client) {
    Terminators(LinesOf(s.removed)) + Timeouts(s.answers) == |s.answers| + EvictedTerminators(s.removed)
  }

  /** The same count held when a command took its terminator. */
  ghost predicate CountedAt(s: Client, k: nat, q: nat)
    requires q <= |s.removed| && k <= |s.answers|
  {
    Terminators(LinesOf(s.removed[..q])) + Timeouts(s.answers[..k]) == k + EvictedTerminators(s.removed[..q])
  }

  ghost predicate CountedThen(s: Client) {
    forall k: nat, q: nat :: EndsAt(s, k, q) ==> CountedAt(s, k, q)
  }

  /** A finished command's result: what it took, with its terminator replaced by the text beside it. */
  ghost predicate IsResult(a: Answer) {
    if a.timedOut then a.lines == a.raw
    else a.raw != [] && a.lines == a.raw[..|a.raw| - 1] + LastLine(a.raw[|a.raw| - 1])
  }

  ghost predicate Results(s: Client) { forall k: nat :: k < |s.answers| ==> IsResult(s.answers[k]) }

  ghost predicate Inv(s: Client) {
    && Conserved(s) && TakenExactly(s) && InTurn(s) && Ended(s) && Counted(s) && CountedThen(s) && Results(s)
  }

  // ----- every step keeps the invariant

  lemma RemovingConserves(s: Client, t: Client, r: Removed)
    requires Conserved(s) && s.buffer != [] && r.line == s.buffer[0]
    requires t.read == s.read && t.removed == s.removed + [r] && t.buffer == s.buffer[1..]
    ensures Conserved(t)
  {
    OneMoreRemoved(s.removed, r);
    HeadAndTail(s.buffer);
    AppendAssoc(LinesOf(s.removed), [r.line], s.buffer[1..]);
  }

  /** What happened before still did: more history keeps the ends and the counts at them. */
  lemma EndsStay(s: Client, t: Client)
    requires s.removed <= t.removed && s.answers <= t.answers
    ensures forall k: nat, q: nat :: EndsAt(s, k, q) ==> EndsAt(t, k, q)
    ensures forall k: nat, q: nat :: q <= |s.removed| && k <= |s.answers| && CountedAt(s, k, q) ==> CountedAt(t, k, q)
  {
    forall k: nat, q: nat | q <= |s.removed| && k <= |s.answers| && CountedAt(s, k, q)
      ensures CountedAt(t, k, q)
    {
      assert t.removed[..q] == s.removed[..q] && t.answers[..k] == s.answers[..k];
    }
  }

  lemma EvictKeepsTaken(s: Client)
    requires TakenExactly(s) && s.buffer != []
    ensures TakenExactly(EvictOne(s))
  {
    forall k: nat
      ensures Taken(EvictOne(s).removed, k) == Taken(s.removed, k)
    {
      OneMoreTaken(s.removed, Evicted(s.buffer[0]), k);
    }
  }

  lemma EvictKeepsTurn(s: Client)
    requires InTurn(s) && Ended(s) && s.buffer != []
    ensures InTurn(EvictOne(s)) && Ended(EvictOne(s))
    ensures forall k: nat, q: nat :: EndsAt(EvictOne(s), k, q) ==> EndsAt(s, k, q)
  {
    var t := EvictOne(s);
    EndsStay(s, t);
    assert forall i: nat :: TakesAt(t, i) ==> TakesAt(s, i) && t.removed[i] == s.removed[i];
  }

  lemma EvictKeeps(s: Client)
    requires Inv(s) && s.buffer != []
    ensures Inv(EvictOne(s))
  {
    RemovingConserves(s, EvictOne(s), Evicted(s.buffer[0]));
    EvictKeepsTaken(s);
    EvictKeepsTurn(s);
    OneMoreRemoved(s.removed, Evicted(s.buffer[0]));
    CountsStay(s, EvictOne(s));
  }

  /** If no further command took a terminator, the counts at the terminators are the same ones. */
  lemma CountsStay(s: Client, t: Client)
    requires CountedThen(s) && s.removed <= t.removed && s.answers <= t.answers
    requires forall k: nat, q: nat :: EndsAt(t, k, q) ==> EndsAt(s, k, q)
    ensures CountedThen(t)
  {
    EndsStay(s, t);
  }

  lemma {:induction false} EvictAllKeeps(s: Client)
    requires Inv(s)
    ensures Inv(EvictAll(s))
    decreases |s.buffer|
  {
    if |s.buffer| > MAX_STDOUT_BUFFER_LINES {
      EvictKeeps(s);
      EvictAllKeeps(EvictOne(s));
    }
  }

  lemma TakeKeepsTaken(s: Client)
    requires TakenExactly(s) && s.buffer != [] && s.collecting.Some?
    requires forall i: nat :: TakesAt(s, i) ==> s.removed[i].command <= |s.answers|
    ensures TakenExactly(TakeLine(s))
  {
    var t, r, n := TakeLine(s), Consumed(s.buffer[0], |s.answers|), |s.answers|;
    forall k: nat
      ensures Taken(t.removed, k) == Taken(s.removed, k) + if k == n then [r.line] else []
    {
      OneMoreTaken(s.removed, r, k);
    }
    NothingTaken(s.removed, n + 1);
  }

  lemma {:induction false} NothingTaken(removed: seq<Removed>, k: nat)
    requires forall i :: 0 <= i < |removed| && removed[i].Consumed? ==> removed[i].command < k
    ensures Taken(removed, k) == []
  {
    if removed != [] {
      NothingTaken(removed[..|removed| - 1], k);
    }
  }

  lemma TakeKeepsTurn(s: Client)
    requires InTurn(s) && s.buffer != [] && s.collecting.Some?
    ensures InTurn(TakeLine(s))
    ensures IsTerminator(s.buffer[0]) ==> EndsAt(TakeLine(s), |s.answers|, |s.removed|)
  {
    var t := TakeLine(s);
    EndsStay(s, t);
    assert forall i: nat :: TakesAt(t, i) && i != |s.removed| ==> TakesAt(s, i) && t.removed[i] == s.removed[i];
  }

  /** Every end is an old one, or the new line's. */
  lemma TakeEnds(s: Client, k: nat, q: nat)
    requires InTurn(s) && s.buffer != [] && s.collecting.Some? && EndsAt(TakeLine(s), k, q)
    ensures EndsAt(s, k, q) || (k == |s.answers| && q == |s.removed|)
  {
    if q < |s.removed| {
      assert TakesAt(s, q);
    }
  }

  lemma CountedAtTheEnd(s: Client, t: Client)
    requires Counted(s) && s.removed <= t.removed && s.answers <= t.answers
    ensures CountedAt(t, |s.answers|, |s.removed|)
  {
    assert t.removed[..|s.removed|] == s.removed && t.answers[..|s.answers|] == s.answers;
  }

  lemma TakeKeepsCountedThen(s: Client)
    requires Counted(s) && CountedThen(s) && InTurn(s) && s.buffer != [] && s.collecting.Some?
    ensures CountedThen(TakeLine(s))
  {
    var t := TakeLine(s);
    EndsStay(s, t);
    CountedAtTheEnd(s, t);
    forall k: nat, q: nat | EndsAt(t, k, q)
      ensures CountedAt(t, k, q)
    {
      TakeEnds(s, k, q);
    }
  }

  lemma TakeKeepsCounted(s: Client)
    requires Counted(s) && s.buffer != [] && s.collecting.Some?
    ensures Counted(TakeLine(s))
  {
    OneMoreRemoved(s.removed, Consumed(s.buffer[0], |s.answers|));
    if IsTerminator(s.buffer[0]) {
      OneMoreAnswer(s.answers, TakeLine(s).answers[|s.answers|]);
    }
  }

  lemma TakeKeepsEnded(s: Client)
    requires InTurn(s) && Ended(s) && Results(s) && s.buffer != [] && s.collecting.Some?
    ensures Ended(TakeLine(s)) && Results(TakeLine(s))
  {
    EndsStay(s, TakeLine(s));
    TakeKeepsTurn(s);
  }

  lemma TakeKeeps(s: Client)
    requires Inv(s) && s.buffer != [] && s.collecting.Some?
    ensures Inv(TakeLine(s))
  {
    RemovingConserves(s, TakeLine(s), Consumed(s.buffer[0], |s.answers|));
    TakeKeepsTaken(s);
    TakeKeepsTurn(s);
    TakeKeepsEnded(s);
    TakeKeepsCounted(s);
    TakeKeepsCountedThen(s);
  }

  lemma {:induction false} CollectAllKeeps(s: Client)
    requires Inv(s)
    ensures Inv(CollectAll(s))
    decreases |s.buffer|
  {
    if s.buffer == [] || s.collecting.None? {
      assert CollectAll(s) == s;
    } else {
      var t := TakeLine(s);
      TakeKeeps(s);
      assert CollectAll(s) == CollectAll(t);
      CollectAllKeeps(t);
    }
  }

  lemma {:induction false} CollectAllShrinks(s: Client)
    ensures |CollectAll(s).buffer| <= |s.buffer|
    decreases |s.buffer|
  {
    if s.buffer != [] && s.collecting.Some? {
      CollectAllShrinks(TakeLine(s));
    }
  }

  lemma GiveUpKeepsTaken(s: Client)
    requires TakenExactly(s) && InTurn(s) && s.collecting.Some?
    ensures TakenExactly(GivenUp(s))
  {
    NothingTaken(s.removed, |s.answers| + 1);
  }

  lemma GiveUpKeepsTurn(s: Client)
    requires InTurn(s) && Ended(s) && Results(s) && s.collecting.Some?
    ensures InTurn(GivenUp(s)) && Ended(GivenUp(s)) && Results(GivenUp(s))
    ensures forall k: nat, q: nat :: EndsAt(GivenUp(s), k, q) ==> EndsAt(s, k, q)
  {
    var t := GivenUp(s);
    EndsStay(s, t);
    assert forall i: nat :: TakesAt(t, i) ==> TakesAt(s, i) && t.removed[i] == s.removed[i];
  }

  lemma GiveUpKeeps(s: Client)
    requires Inv(s) && s.collecting.Some?
    ensures Inv(GivenUp(s))
  {
    GiveUpKeepsTaken(s);
    GiveUpKeepsTurn(s);
    OneMoreAnswer(s.answers, GivenUp(s).answers[|s.answers|]);
    CountsStay(s, GivenUp(s));
  }

  lemma PushKeeps(s: Client, line: string)
    requires Inv(s)
    ensures Inv(Push(s, line))
  {
    AppendAssoc(LinesOf(s.removed), s.buffer, [line]);
    EndsStay(s, Push(s, line));
  }

  lemma BeginKeeps(s: Client)
    requires Inv(s) && s.collecting.None?
    ensures Inv(s.(collecting := Some([]), waiting := NotYet))
  {
    EndsStay(s, s.(collecting := Some([]), waiting := NotYet));
  }

  /** The invariant does not look at who waits for what. */
  lemma WaitingIsFree(s: Client, t: Client)
    requires Inv(s) && t == s.(waiting := t.waiting, announces := t.announces)
    ensures Inv(t)
  {
    EndsStay(s, t);
    EndsStay(t, s);
  }

  lemma StepKeeps(s: Client, a: Action)
    requires Inv(s) && Enabled(s, a)
    ensures Inv(Apply(s, a))
  {
    match a
    case ReadLine(line) =>
      PushKeeps(s, line);
      EvictAllKeeps(Push(s, line));
    case Notify => WaitingIsFree(s, Notified(s));
    case BeginCommand => BeginKeeps(s);
    case Listen => WaitingIsFree(s, s.(waiting := Listening));
    case Collect =>
      CollectAllKeeps(s);
      WaitingIsFree(CollectAll(s), CollectAll(s).(waiting := NotYet));
    case Timeout => GiveUpKeeps(s);
  }

  lemma {:induction false} InvHolds(actions: seq<Action>, s: Client)
    requires Run(actions) == Some(s)
    ensures Inv(s) && |s.buffer| <= MAX_STDOUT_BUFFER_LINES
  {
    if actions != [] {
      var before, last := Run(actions[..|actions| - 1]).value, actions[|actions| - 1];
      InvHolds(actions[..|actions| - 1], before);
      StepKeeps(before, last);
      if last.Collect? {
        CollectAllShrinks(before);
      }
    }
  }

  // ----- main results

  /**
   In every run: removed lines followed by the buffer are the lines read, the buffer is within
   its limit, and every command, finished or in progress, has exactly the lines it took, so no
   line is given to two commands or lost.
   */
  lemma LinesAreConserved(actions: seq<Action>, s: Client)
    requires Run(actions) == Some(s)
    ensures s.read == LinesOf(s.removed) + s.buffer
    ensures |s.buffer| <= MAX_STDOUT_BUFFER_LINES
    ensures forall k: nat :: k < |s.answers| ==> s.answers[k].raw == Taken(s.removed, k)
    ensures Taken(s.removed, |s.answers|) == Current(s)
  {
    InvHolds(actions, s);
  }

  /**
   In every run, the commands that did not time out are exactly those that took a terminator, and
   terminators removed and timeouts together are as many as finished commands and evicted terminators.
   */
  lemma OneAnswerPerTerminator(actions: seq<Action>, s: Client)
    requires Run(actions) == Some(s)
    ensures forall k: nat :: k < |s.answers| ==> (!s.answers[k].timedOut <==> exists q: nat :: EndsAt(s, k, q))
    ensures Terminators(LinesOf(s.removed)) + Timeouts(s.answers) == |s.answers| + EvictedTerminators(s.removed)
  {
    InvHolds(actions, s);
  }

  /**
   In every run, a command ends at the terminator of the lines read whose number is its own, less
   one for each command before it that timed out, plus one for each terminator evicted before.
   */
  lemma TerminatorOfCommand(actions: seq<Action>, s: Client, k: nat, q: nat)
    requires Run(actions) == Some(s) && EndsAt(s, k, q)
    ensures q < |s.read| && IsTerminator(s.read[q])
    ensures Terminators(s.read[..q]) == k - Timeouts(s.answers[..k]) + EvictedTerminators(s.removed[..q])
  {
    InvHolds(actions, s);
    assert CountedAt(s, k, q);
    assert s.read[..q] == LinesOf(s.removed[..q]);
  }

  /** Position `i` of the lines read lies after the last terminator before `q`. */
  ghost predicate InGap(s: Client, i: nat, q: nat) {
    i <= q < |s.removed| && forall j :: i <= j < q ==> !IsTerminator(s.removed[j].line)
  }

  /** The command took exactly the lines between terminators `k - 1` and `k`, and the latter. */
  ghost predicate Owns(s: Client, k: nat, q: nat)
    requires q < |s.removed|
  {
    && Terminators(LinesOf(s.removed[..q])) == k
    && forall i: nat :: IsTakenBy(s, i, k) <==> InGap(s, i, q)
  }

  /** Nothing before the terminator was evicted or taken by a command that timed out. */
  ghost predicate GapIntact(s: Client, q: nat) {
    forall i: nat :: InGap(s, i, q) && i < |s.removed| ==>
      s.removed[i].Consumed? && s.removed[i].command < |s.answers| && !s.answers[s.removed[i].command].timedOut
  }

  /** No terminator was evicted after the command had taken a line. */
  ghost predicate NoTerminatorSkipped(s: Client, k: nat, q: nat) {
    forall i: nat, j: nat :: i < j < q && j < |s.removed| && IsTakenBy(s, i, k) && s.removed[j].Evicted? ==>
      !IsTerminator(s.removed[j].line)
  }

  lemma OwnedMeansIntact(s: Client, k: nat, q: nat)
    requires EndsAt(s, k, q) && Owns(s, k, q)
    ensures GapIntact(s, q) && NoTerminatorSkipped(s, k, q)
  {
    forall i: nat, j: nat | i < j < q && j < |s.removed| && IsTakenBy(s, i, k) && s.removed[j].Evicted?
      ensures !IsTerminator(s.removed[j].line)
    {
      assert InGap(s, i, q);
    }
    assert forall i: nat :: InGap(s, i, q) ==> IsTakenBy(s, i, k);
  }

  lemma TakenIsInGap(s: Client, k: nat, q: nat, i: nat)
    requires InTurn(s) && EndsAt(s, k, q) && NoTerminatorSkipped(s, k, q) && IsTakenBy(s, i, k)
    ensures InGap(s, i, q)
  {
    assert TakesAt(s, q) && TakesAt(s, i);
    forall j | i <= j < q
      ensures !IsTerminator(s.removed[j].line)
    {
      assert s.removed[j].Consumed? ==> TakesAt(s, j);
    }
  }

  /** A line before the terminator that an earlier, finished command took lies before that command's own. */
  lemma EarlierTookBeforeGap(s: Client, k: nat, q: nat, i: nat)
    requires InTurn(s) && Ended(s) && EndsAt(s, k, q) && i <= q && TakesAt(s, i) && s.removed[i].command < k
    requires !s.answers[s.removed[i].command].timedOut
    ensures !InGap(s, i, q)
  {
    var end: nat :| EndsAt(s, s.removed[i].command, end);
    assert TakesAt(s, end) && TakesAt(s, q);
  }

  lemma GapIsTaken(s: Client, k: nat, q: nat, i: nat)
    requires InTurn(s) && Ended(s) && EndsAt(s, k, q) && GapIntact(s, q) && InGap(s, i, q)
    ensures IsTakenBy(s, i, k)
  {
    assert TakesAt(s, q) && TakesAt(s, i);
    if s.removed[i].command < k {
      EarlierTookBeforeGap(s, k, q, i);
    }
  }

  lemma IntactMeansOwned(s: Client, k: nat, q: nat)
    requires InTurn(s) && Ended(s) && EndsAt(s, k, q) && GapIntact(s, q) && NoTerminatorSkipped(s, k, q)
    requires Terminators(LinesOf(s.removed[..q])) == k
    ensures Owns(s, k, q)
  {
    forall i: nat
      ensures IsTakenBy(s, i, k) <==> InGap(s, i, q)
    {
      if IsTakenBy(s, i, k) { TakenIsInGap(s, k, q, i); }
      if InGap(s, i, q) { GapIsTaken(s, k, q, i); }
    }
  }

  /**
   Exactly when a command gets its own answer, in every run: as many commands before it timed
   out as terminators were evicted, nothing between the two terminators was evicted or taken by
   a command that timed out, and no terminator was evicted once it had begun to take lines.
   */
  lemma OwnAnswerIff(actions: seq<Action>, s: Client, k: nat, q: nat)
    requires Run(actions) == Some(s) && EndsAt(s, k, q)
    ensures Owns(s, k, q) <==>
            && Timeouts(s.answers[..k]) == EvictedTerminators(s.removed[..q])
            && GapIntact(s, q) && NoTerminatorSkipped(s, k, q)
  {
    InvHolds(actions, s);
    assert CountedAt(s, k, q);
    if Owns(s, k, q) {
      OwnedMeansIntact(s, k, q);
    } else if Terminators(LinesOf(s.removed[..q])) == k && GapIntact(s, q) && NoTerminatorSkipped(s, k, q) {
      IntactMeansOwned(s, k, q);
    }
  }

  lemma {:induction false} NoneTimedOut(answers: seq<Answer>, k: nat)
    requires Timeouts(answers) == 0 && k < |answers|
    ensures !answers[k].timedOut
  {
    if k < |answers| - 1 {
      NoneTimedOut(answers[..|answers| - 1], k);
    }
  }

  lemma {:induction false} NoneEvicted(removed: seq<Removed>)
    requires forall i :: 0 <= i < |removed| ==> removed[i].Consumed?
    ensures EvictedTerminators(removed) == 0
  {
    if removed != [] {
      NoneEvicted(removed[..|removed| - 1]);
    }
  }

  /**
   As long as nothing was evicted, a command gets its own answer exactly if no command before it
   timed out, which is known before it is sent.
   */
  lemma OwnAnswerIffNoTimeoutBefore(actions: seq<Action>, s: Client, k: nat, q: nat)
    requires Run(actions) == Some(s) && EndsAt(s, k, q)
    requires forall i :: 0 <= i < q ==> s.removed[i].Consumed?
    ensures Owns(s, k, q) <==> Timeouts(s.answers[..k]) == 0
  {
    InvHolds(actions, s);
    OwnAnswerIff(actions, s, k, q);
    NoneEvicted(s.removed[..q]);
    if Timeouts(s.answers[..k]) == 0 {
      NoTimeoutKeepsGap(s, k, q);
    }
  }

  lemma NoTimeoutKeepsGap(s: Client, k: nat, q: nat)
    requires InTurn(s) && EndsAt(s, k, q) && Timeouts(s.answers[..k]) == 0
    requires forall i :: 0 <= i < q ==> s.removed[i].Consumed?
    ensures GapIntact(s, q)
  {
    forall i: nat | InGap(s, i, q) && i < |s.removed|
      ensures s.removed[i].Consumed? && s.removed[i].command < |s.answers|
      ensures !s.answers[s.removed[i].command].timedOut
    {
      assert TakesAt(s, i) && TakesAt(s, q);
      if s.removed[i].command < k {
        NoneTimedOut(s.answers[..k], s.removed[i].command);
      }
    }
  }

  /** Lines `a` up to `b` hold no terminator, `b` does, and `a` is the start or follows one. */
  ghost predicate Between(lines: seq<string>, a: nat, b: nat) {
    && a <= b < |lines| && IsTerminator(lines[b]) && (a == 0 || IsTerminator(lines[a - 1]))
    && forall i :: a <= i < b ==> !IsTerminator(lines[i])
  }

  lemma {:induction false} TakenRange(removed: seq<Removed>, k: nat, a: nat, b: nat)
    requires a <= b <= |removed|
    requires forall i :: 0 <= i < |removed| ==>
               (removed[i].Consumed? && removed[i].command == k <==> a <= i < b)
    ensures Taken(removed, k) == LinesOf(removed)[a..b]
  {
    if removed != [] {
      var init := removed[..|removed| - 1];
      assert LinesOf(removed) == LinesOf(init) + [removed[|init|].line];
      if b == |removed| && a < b {
        TakenRange(init, k, a, b - 1);
      } else {
        TakenRange(init, k, if a > |init| then |init| else a, if b > |init| then |init| else b);
      }
    }
  }

  lemma {:induction false} GapStart(s: Client, q: nat) returns (a: nat)
    requires q < |s.removed|
    ensures InGap(s, a, q) && (a == 0 || IsTerminator(s.removed[a - 1].line))
    ensures forall i: nat :: InGap(s, i, q) <==> a <= i <= q
    ensures Terminators(LinesOf(s.removed)[..a]) == Terminators(LinesOf(s.removed)[..q])
  {
    a := q;
    while a > 0 && !IsTerminator(s.removed[a - 1].line)
      invariant a <= q && InGap(s, a, q)
      invariant Terminators(LinesOf(s.removed)[..a]) == Terminators(LinesOf(s.removed)[..q])
    {
      assert LinesOf(s.removed)[..a][..a - 1] == LinesOf(s.removed)[..a - 1];
      a := a - 1;
    }
  }

  lemma OwnedRaw(s: Client, k: nat, q: nat, a: nat)
    requires TakenExactly(s) && EndsAt(s, k, q) && Owns(s, k, q) && a <= q
    requires forall i: nat :: InGap(s, i, q) <==> a <= i <= q
    ensures s.answers[k].raw == LinesOf(s.removed)[a..q + 1]
  {
    forall i | 0 <= i < |s.removed|
      ensures s.removed[i].Consumed? && s.removed[i].command == k <==> a <= i < q + 1
    {
      assert IsTakenBy(s, i, k) <==> InGap(s, i, q);
    }
    TakenRange(s.removed, k, a, q + 1);
  }

  lemma SliceEnd(lines: seq<string>, a: nat, q: nat)
    requires a <= q < |lines|
    ensures lines[a..q + 1][..q - a] == lines[a..q] && lines[a..q + 1][q - a] == lines[q]
  {
  }

  lemma SlicesOfAppend(lines: seq<string>, more: seq<string>, a: nat, q: nat)
    requires a <= q < |lines|
    ensures (lines + more)[a..q] == lines[a..q] && (lines + more)[..a] == lines[..a] && (lines + more)[q] == lines[q]
  {
  }

  lemma ResultOfRaw(a: Answer, lines: seq<string>, from: nat, q: nat)
    requires IsResult(a) && !a.timedOut && from <= q < |lines| && a.raw == lines[from..q + 1]
    ensures a.lines == lines[from..q] + LastLine(lines[q])
  {
    SliceEnd(lines, from, q);
  }

  /** The result of a command that owns its answer: the lines between the terminators, and the rest of the line. */
  lemma OwnedAnswer(s: Client, k: nat, q: nat) returns (a: nat)
    requires Conserved(s) && TakenExactly(s) && Results(s) && EndsAt(s, k, q) && Owns(s, k, q)
    ensures Between(s.read, a, q) && Terminators(s.read[..a]) == k
    ensures s.answers[k].lines == s.read[a..q] + LastLine(s.read[q])
  {
    a := GapStart(s, q);
    OwnedRaw(s, k, q, a);
    var lines := LinesOf(s.removed);
    assert lines[..q] == LinesOf(s.removed[..q]);
    SlicesOfAppend(lines, s.buffer, a, q);
    ResultOfRaw(s.answers[k], lines, a, q);
    forall i | a <= i < q
      ensures !IsTerminator(s.read[i])
    {
      assert InGap(s, a, q);
    }
  }

  /**
   Without evictions, a command that did not time out, and before which none did, returns exactly
   the lines between terminator lines k - 1 and k of the lines read.
   */
  lemma CommandsGetTheirOwnAnswers(actions: seq<Action>, s: Client, k: nat) returns (a: nat, b: nat)
    requires Run(actions) == Some(s) && k < |s.answers| && !s.answers[k].timedOut
    requires Timeouts(s.answers[..k]) == 0
    requires forall i :: 0 <= i < |s.removed| ==> s.removed[i].Consumed?
    ensures Between(s.read, a, b) && Terminators(s.read[..a]) == k
    ensures s.answers[k].lines == s.read[a..b] + LastLine(s.read[b])
  {
    InvHolds(actions, s);
    b :| EndsAt(s, k, b);
    OwnAnswerIffNoTimeoutBefore(actions, s, k, b);
    a := OwnedAnswer(s, k, b);
  }

  /** A line read while a command waits on an empty buffer finishes that command. */
  lemma AwaitedLineIsTaken(s: Client, late: string)
    requires s.collecting == Some([]) && s.waiting == Listening && s.buffer == [] && !s.announces
    requires IsTerminator(late)
    ensures var t := Apply(Apply(Apply(s, ReadLine(late)), Notify), Collect);
            && t.removed == s.removed + [Consumed(late, |s.answers|)]
            && t.answers == s.answers + [Answer([late], LastLine(late), false)]
  {
    var ready := Apply(Apply(s, ReadLine(late)), Notify);
    assert ready.buffer == [late] && ready.removed == s.removed && ready.collecting == Some([]);
    AppendNothing([late]);
    AppendNothing(LastLine(late));
    assert CollectAll(TakeLine(ready)) == TakeLine(ready);
  }

  /** A command that directly follows one that timed out does not get its own answer, if nothing was evicted. */
  lemma AfterTimeoutNotOwn(actions: seq<Action>, s: Client, k: nat, q: nat)
    requires Run(actions) == Some(s) && EndsAt(s, k, q) && k > 0 && s.answers[k - 1].timedOut
    requires forall i :: 0 <= i < q ==> s.removed[i].Consumed?
    ensures !Owns(s, k, q)
  {
    OwnAnswerIffNoTimeoutBefore(actions, s, k, q);
    if Timeouts(s.answers[..k]) == 0 {
      NoneTimedOut(s.answers[..k], k - 1);
    }
  }

  /**
   Timeouts do break the matching: any run that leaves client and reader idle with an empty buffer
   goes on so that a command times out, and the next one, waiting for its own, gets that answer.
   */
  lemma TimeoutMisdirectsTheNextAnswer(actions: seq<Action>, s: Client, late: string)
    returns (longer: seq<Action>, t: Client)
    requires Run(actions) == Some(s) && s.collecting.None? && s.buffer == [] && !s.announces && IsTerminator(late)
    ensures longer == actions + [BeginCommand] + [Timeout] + [BeginCommand] + [Listen] + [ReadLine(late)] + [Notify]
                      + [Collect]
    ensures Run(longer) == Some(t)
    ensures t.answers == s.answers + [Answer([], [], true)] + [Answer([late], LastLine(late), false)]
    ensures t.removed == s.removed + [Consumed(late, |s.answers| + 1)]
    ensures EndsAt(t, |s.answers| + 1, |s.removed|)
    ensures (forall i :: 0 <= i < |s.removed| ==> s.removed[i].Consumed?) ==> !Owns(t, |s.answers| + 1, |s.removed|)
  {
    longer, t := Longer(actions, s, BeginCommand);
    longer, t := Longer(longer, t, Timeout);
    longer, t := Longer(longer, t, BeginCommand);
    longer, t := Longer(longer, t, Listen);
    AwaitedLineIsTaken(t, late);
    longer, t := Longer(longer, t, ReadLine(late));
    longer, t := Longer(longer, t, Notify);
    longer, t := Longer(longer, t, Collect);
    if forall i :: 0 <= i < |s.removed| ==> s.removed[i].Consumed? {
      AfterTimeoutNotOwn(longer, t, |s.answers| + 1, |s.removed|);
    }
  }

  lemma Longer(actions: seq<Action>, s: Client, a: Action) returns (longer: seq<Action>, t: Client)
    requires Run(actions) == Some(s) && Enabled(s, a)
    ensures longer == actions + [a] && Run(longer) == Some(t) && t == Apply(s, a)
  {
    longer, t := actions + [a], Apply(s, a);
    RunOneMore(actions, s, a);
  }

  // ----- notifications

  /** A command in progress has been, or is about to be, told of what lies in the buffer. */
  predicate Hears(s: Client) {
    s.collecting.Some? && s.buffer != [] ==> s.waiting == Woken || s.announces
  }

  /** The action does not leave the command deaf: it starts with an empty buffer, and is told while it waits. */
  predicate Tells(s: Client, a: Action) {
    && (a.BeginCommand? ==> s.buffer == [] || s.announces)
    && (a.Notify? && s.collecting.Some? && s.buffer != [] ==> s.waiting != NotYet)
  }

  lemma {:induction false} CollectEndsOrEmpties(s: Client)
    ensures CollectAll(s).collecting.None? || CollectAll(s).buffer == []
    ensures CollectAll(s).announces == s.announces
    decreases |s.buffer|
  {
    if s.buffer != [] && s.collecting.Some? {
      CollectEndsOrEmpties(TakeLine(s));
    }
  }

  lemma {:induction false} EvictKeepsWaiting(s: Client)
    ensures EvictAll(s).waiting == s.waiting && EvictAll(s).announces == s.announces
    ensures EvictAll(s).collecting == s.collecting
    decreases |s.buffer|
  {
    if |s.buffer| > MAX_STDOUT_BUFFER_LINES {
      EvictKeepsWaiting(EvictOne(s));
    }
  }

  lemma StepHears(s: Client, a: Action)
    requires Hears(s) && Enabled(s, a)
    ensures Hears(Apply(s, a)) <==> Tells(s, a)
  {
    match a
    case ReadLine(line) => EvictKeepsWaiting(Push(s, line));
    case Collect => CollectEndsOrEmpties(s);
    case _ =>
  }

  ghost predicate AlwaysHears(actions: seq<Action>) {
    && (Run(actions).Some? ==> Hears(Run(actions).value))
    && (actions != [] ==> AlwaysHears(actions[..|actions| - 1]))
  }

  ghost predicate AlwaysTells(actions: seq<Action>) {
    actions != [] ==>
      && AlwaysTells(actions[..|actions| - 1])
      && (Run(actions).Some? ==> Tells(Run(actions[..|actions| - 1]).value, actions[|actions| - 1]))
  }

  /**
   Throughout a run no command is left waiting beside lines it was never told of, exactly if every
   command began with an empty buffer or a notification to come, and every notification of a line
   in the buffer found the command in progress waiting.
   */
  lemma {:induction false} HearsIffTold(actions: seq<Action>)
    requires Run(actions).Some?
    ensures AlwaysHears(actions) <==> AlwaysTells(actions)
  {
    if actions != [] {
      HearsIffTold(actions[..|actions| - 1]);
      if AlwaysHears(actions[..|actions| - 1]) {
        StepHears(Run(actions[..|actions| - 1]).value, actions[|actions| - 1]);
      }
    }
  }

  /** Nothing is under way that would wake the command. */
  predicate Deaf(s: Client) { s.collecting.Some? && s.waiting != Woken && !s.announces }

  /** So in such a run a command that nothing will wake leaves no terminator behind when it times out. */
  lemma ToldCommandsLeaveNothing(actions: seq<Action>, s: Client)
    requires Run(actions) == Some(s) && AlwaysTells(actions) && Deaf(s)
    ensures GivenUp(s).buffer == []
  {
    HearsIffTold(actions);
  }

  /** Without a further line a deaf command only times out, and what lies in the buffer stays there. */
  lemma {:induction false} DeafUntilNextLine(s: Client, actions: seq<Action>, t: Client)
    requires Deaf(s) && RunFrom(s, actions) == Some(t)
    requires forall i :: 0 <= i < |actions| ==> !actions[i].ReadLine? && !actions[i].BeginCommand?
    ensures t.buffer == s.buffer && (Deaf(t) || t.collecting.None?)
    ensures t.answers == if t.collecting.Some? then s.answers else GivenUp(s).answers
    ensures t.collecting.Some? ==> t.collecting == s.collecting
    ensures !t.announces
  {
    if actions != [] {
      var before := RunFrom(s, actions[..|actions| - 1]).value;
      DeafUntilNextLine(s, actions[..|actions| - 1], before);
    }
  }

  function RunFrom(s: Client, actions: seq<Action>): Option<Client> {
    if actions == [] then Some(s)
    else match RunFrom(s, actions[..|actions| - 1])
      case None => None
      case Some(t) =>
        var last := actions[|actions| - 1];
        if Enabled(t, last) then Some(Apply(t, last)) else None
  }

  /**
   Such a command exists: any run that leaves client and reader idle with an empty buffer goes on so
   that the answer is announced before the command waits, and the command times out beside it.
   */
  lemma AnswerCanBeMissed(actions: seq<Action>, s: Client, answer: string) returns (longer: seq<Action>, t: Client)
    requires Run(actions) == Some(s) && s.collecting.None? && s.buffer == [] && !s.announces && IsTerminator(answer)
    ensures longer == actions + [BeginCommand] + [ReadLine(answer)] + [Notify] + [Listen] + [Timeout]
    ensures Run(longer) == Some(t)
    ensures t.answers == s.answers + [Answer([], [], true)] && t.buffer == [answer]
  {
    longer, t := Longer(actions, s, BeginCommand);
    longer, t := Longer(longer, t, ReadLine(answer));
    assert t.buffer == [answer];
    longer, t := Longer(longer, t, Notify);
    longer, t := Longer(longer, t, Listen);
    longer, t := Longer(longer, t, Timeout);
  }

  // ----- the imperative client

  class OpenOcdClient {
    var stdoutLines: seq<string>
    /** The response lines of the command in progress. */
    var collecting: Option<seq<string>>
    var waiting: Waiting
    var announces: bool
    ghost var read: seq<string>
    ghost var removed: seq<Removed>
    ghost var answers: seq<Answer>

    ghost function View(): Client
      reads this
    {
      Client(stdoutLines, collecting, waiting, announces, read, removed, answers)
    }

    constructor ()
      ensures View() == INITIAL
    {
      stdoutLines, collecting, waiting, announces := [], None, NotYet, false;
      read, removed, answers := [], [], [];
    }

    /** The reader's section: push one line, then evict from the front. */
    method PushLine(line: string)
      requires !announces
      modifies this
      ensures View() == Apply(old(View()), ReadLine(line))
    {
      read := read + [line];
      stdoutLines := stdoutLines + [line];
      announces := true;
      ghost var target := EvictAll(View());
      while |stdoutLines| > MAX_STDOUT_BUFFER_LINES
        invariant EvictAll(View()) == target
      {
        removed := removed + [Evicted(stdoutLines[0])];
        stdoutLines := stdoutLines[1..];
      }
    }

    /** The reader's `notify_waiters`, after the buffer's lock is released. */
    method NotifyWaiters()
      requires announces
      modifies this
      ensures View() == Apply(old(View()), Notify)
    {
      announces := false;
      if waiting == Listening {
        waiting := Woken;
      }
    }

    method Begin()
      requires collecting.None?
      modifies this
      ensures View() == Apply(old(View()), BeginCommand)
    {
      collecting, waiting := Some([]), NotYet;
    }

    /** The command begins to await `notified()`. */
    method AwaitNotified()
      requires collecting.Some? && waiting == NotYet
      modifies this
      ensures View() == Apply(old(View()), Listen)
    {
      waiting := Listening;
    }

    /** One wake-up of the collection loop: pop lines until the terminator or an empty buffer. */
    method CollectOnce() returns (response: Option<string>)
      requires collecting.Some? && waiting == Woken
      modifies this
      ensures View() == Apply(old(View()), Collect)
      ensures response.Some? <==> collecting.None?
      ensures response.Some? ==>
                |answers| == |old(answers)| + 1 && ResultOf(answers[|old(answers)|]) == Ok(response.value)
    {
      ghost var target := CollectAll(View());
      while stdoutLines != []
        invariant collecting.Some? && CollectAll(View()) == target && answers == old(answers)
      {
        var line, lines := stdoutLines[0], collecting.value;
        stdoutLines := stdoutLines[1..];
        removed := removed + [Consumed(line, |answers|)];
        if IsTerminator(line) {
          answers := answers + [Answer(lines + [line], lines + LastLine(line), false)];
          collecting := None;
          waiting := NotYet;
          return Some(Join(lines + LastLine(line)));
        }
        collecting := Some(lines + [line]);
      }
      waiting := NotYet;
      return None;
    }

    method GiveUp() returns (result: Result<string, ()>)
      requires collecting.Some?
      modifies this
      ensures View() == Apply(old(View()), Timeout)
      ensures result == ResultOf(Answer(old(collecting.value), old(collecting.value), true))
    {
      var response := Join(collecting.value);
      answers := answers + [Answer(collecting.value, collecting.value, true)];
      collecting, waiting := None, NotYet;
      return if response == [] then Err(()) else Ok(response);
    }
  }
}
