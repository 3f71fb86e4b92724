/**
 What a command of the OpenOCD client returns, in terms of the lines OpenOCD printed; which lines
 are evicted; what a command waits for; and that a prompt answer is returned whole.
 */
module OpenOcdResults {
  import opened Prelude
  import opened OpenOcd

  // ----- the text of a line

  lemma {:induction false} RemoveSubOfAppend(a: string, b: string)
    ensures RemoveSub(a + b) == RemoveSub(a) + RemoveSub(b)
  {
    if a == [] {
      AppendNothing(b);
      AppendNothing(RemoveSub(b));
    } else {
      RemoveSubOfAppend(a[1..], b);
      assert (a + b)[1..] == a[1..] + b;
      AppendAssoc(if a[0] == SUB then [] else [a[0]], RemoveSub(a[1..]), RemoveSub(b));
    }
  }

  /** No terminator character is left, and a line without one stays as it is. */
  lemma {:induction false} RemoveSubLeaves(line: string)
    ensures SUB !in RemoveSub(line)
    ensures SUB !in line ==> RemoveSub(line) == line
  {
    if line != [] {
      RemoveSubLeaves(line[1..]);
      HeadAndTail(line);
    }
  }

  /** A terminator line counts with the text around its terminator, if there is any. */
  lemma LastLineMeaning(before: string, after: string)
    requires SUB !in before && SUB !in after
    ensures IsTerminator(before + [SUB] + after)
    ensures LastLine(before + [SUB] + after) == if before + after == [] then [] else [before + after]
  {
    var line := before + [SUB] + after;
    assert line[|before|] == SUB;
    RemoveSubOfAppend(before + [SUB], after);
    RemoveSubOfAppend(before, [SUB]);
    RemoveSubLeaves(before);
    RemoveSubLeaves(after);
    assert RemoveSub([SUB]) == [];
    AppendNothing(before);
  }

  // ----- joined lines

  function SplitLines(text: string): (lines: seq<string>)
    ensures lines != []
  {
    if text == [] then [[]]
    else if text[0] == '\n' then [[]] + SplitLines(text[1..])
    else
      var rest := SplitLines(text[1..]);
      [[text[0]] + rest[0]] + rest[1..]
  }

  lemma {:induction false} SplitPlain(line: string)
    requires '\n' !in line
    ensures SplitLines(line) == [line]
  {
    if line != [] {
      SplitPlain(line[1..]);
      HeadAndTail(line);
    }
  }

  lemma {:induction false} SplitAtBreak(line: string, text: string)
    requires '\n' !in line
    ensures SplitLines(line + "\n" + text) == [line] + SplitLines(text)
  {
    var all := line + "\n" + text;
    if line == [] {
      assert all[0] == '\n' && all[1..] == text;
    } else {
      assert all[0] == line[0] && all[1..] == line[1..] + "\n" + text;
      SplitAtBreak(line[1..], text);
      HeadAndTail(line);
      assert ([line[1..]] + SplitLines(text))[1..] == SplitLines(text);
    }
  }

  predicate NoBreaks(lines: seq<string>) { forall i :: 0 <= i < |lines| ==> '\n' !in lines[i] }

  /** The joined text holds exactly the lines. */
  lemma {:induction false} SplitOfJoin(lines: seq<string>)
    requires lines != [] && NoBreaks(lines)
    ensures SplitLines(Join(lines)) == lines
  {
    if |lines| == 1 {
      SplitPlain(lines[0]);
    } else {
      SplitOfJoin(lines[1..]);
      SplitAtBreak(lines[0], Join(lines[1..]));
      HeadAndTail(lines);
    }
  }

  lemma JoinIsEmpty(lines: seq<string>)
    ensures Join(lines) == [] <==> lines == [] || lines == [[]]
  {
    if |lines| > 1 {
      assert Join(lines)[|lines[0]|] == '\n';
    }
  }

  // ----- what commands return

  /** The text holds exactly these lines, and is empty without any. */
  predicate Holds(text: string, lines: seq<string>) {
    if lines == [] then text == [] else SplitLines(text) == lines
  }

  /**
   Without evictions and timeouts before it, a command that does not time out returns the text that
   holds the lines between terminator lines k - 1 and k of the lines read, and what stands beside the
   terminator of the latter.
   */
  lemma ReturnedText(actions: seq<Action>, s: Client, k: nat) returns (a: nat, b: nat, before: string, after: string)
    requires Run(actions) == Some(s) && k < |s.answers| && !s.answers[k].timedOut
    requires Timeouts(s.answers[..k]) == 0
    requires forall i :: 0 <= i < |s.removed| ==> s.removed[i].Consumed?
    ensures Between(s.read, a, b) && Terminators(s.read[..a]) == k
    ensures SUB !in before && s.read[b] == before + [SUB] + after
    ensures SUB !in after && NoBreaks(s.read) ==>
              && ResultOf(s.answers[k]).Ok?
              && Holds(ResultOf(s.answers[k]).value,
                       s.read[a..b] + if before + after == [] then [] else [before + after])
  {
    a, b := CommandsGetTheirOwnAnswers(actions, s, k);
    before, after := CutAtSub(s.read[b]);
    if SUB !in after && NoBreaks(s.read) {
      LastLineMeaning(before, after);
      JoinedHolds(s.read, a, b, before, after);
    }
  }

  lemma {:induction false} CutAtSub(line: string) returns (before: string, after: string)
    requires SUB in line
    ensures SUB !in before && line == before + [SUB] + after
  {
    if line[0] == SUB {
      before, after := [], line[1..];
    } else {
      before, after := CutAtSub(line[1..]);
      before := [line[0]] + before;
    }
  }

  lemma JoinedHolds(read: seq<string>, a: nat, b: nat, before: string, after: string)
    requires a <= b < |read| && NoBreaks(read) && read[b] == before + [SUB] + after
    ensures var lines := read[a..b] + if before + after == [] then [] else [before + after];
            Holds(Join(lines), lines)
  {
    var lines := read[a..b] + if before + after == [] then [] else [before + after];
    assert forall c :: c in before || c in after ==> c in read[b];
    assert NoBreaks(read[a..b]);
    if lines != [] {
      SplitOfJoin(lines);
    }
  }

  /**
   In every run a completed command never fails; a timed-out one fails exactly if it took nothing
   but at most one empty line, and otherwise returns the text that holds the lines it took.
   */
  lemma FailsIff(actions: seq<Action>, s: Client, k: nat)
    requires Run(actions) == Some(s) && k < |s.answers|
    ensures ResultOf(s.answers[k]).Err? <==> s.answers[k].timedOut && Taken(s.removed, k) in {[], [[]]}
    ensures s.answers[k].timedOut && ResultOf(s.answers[k]).Ok? && NoBreaks(Taken(s.removed, k)) ==>
              Holds(ResultOf(s.answers[k]).value, Taken(s.removed, k))
  {
    InvHolds(actions, s);
    var answer := s.answers[k];
    assert IsResult(answer) && answer.raw == Taken(s.removed, k);
    JoinIsEmpty(answer.lines);
    if answer.timedOut && answer.lines != [] && NoBreaks(answer.lines) {
      SplitOfJoin(answer.lines);
    }
  }

  // ----- evictions

  /** A line read into a full buffer of 1000 lines evicts the oldest one; into any other, none. */
  lemma EvictsTheOldest(actions: seq<Action>, s: Client, line: string)
    requires Run(actions) == Some(s) && !s.announces
    ensures var t := Apply(s, ReadLine(line));
            && t.buffer == (if |s.buffer| < 1000 then s.buffer else s.buffer[1..]) + [line]
            && t.removed == s.removed + (if |s.buffer| < 1000 then [] else [Evicted(s.buffer[0])])
            && t.read == s.read + [line]
  {
    LinesAreConserved(actions, s);
    AppendNothing(s.removed);
    EvictsAtMostOne(s, line);
  }

  lemma EvictsAtMostOne(s: Client, line: string)
    requires |s.buffer| <= 1000
    ensures EvictAll(Push(s, line)) == if |s.buffer| < 1000 then Push(s, line) else EvictOne(Push(s, line))
    ensures |s.buffer| == 1000 ==> EvictOne(Push(s, line)).buffer == s.buffer[1..] + [line]
  {
    var pushed := Push(s, line);
    if |s.buffer| == 1000 {
      DropOfAppend(s.buffer, [line], 1);
      assert EvictAll(EvictOne(pushed)) == EvictOne(pushed);
    }
  }

  // ----- what a command waits for

  /** The action at `i` is `a`, and no command began or looked at the buffer since. */
  ghost predicate Since(actions: seq<Action>, i: nat, a: Action) {
    && i < |actions| && actions[i] == a
    && forall j :: i < j < |actions| ==> !actions[j].BeginCommand? && !actions[j].Collect?
  }

  lemma SinceStays(actions: seq<Action>, i: nat, a: Action)
    requires actions != [] && Since(actions[..|actions| - 1], i, a)
    requires !actions[|actions| - 1].BeginCommand? && !actions[|actions| - 1].Collect?
    ensures Since(actions, i, a)
  {
  }

  lemma {:induction false} EvictKeepsState(s: Client)
    ensures EvictAll(s).waiting == s.waiting
    decreases |s.buffer|
  {
    if |s.buffer| > MAX_STDOUT_BUFFER_LINES {
      EvictKeepsState(EvictOne(s));
    }
  }

  lemma {:induction false} ListenedSince(actions: seq<Action>, s: Client) returns (i: nat)
    requires Run(actions) == Some(s) && s.waiting != NotYet
    ensures Since(actions, i, Listen)
  {
    var init, last := actions[..|actions| - 1], actions[|actions| - 1];
    if last.Listen? {
      i := |init|;
    } else {
      if last.ReadLine? {
        EvictKeepsState(Push(Run(init).value, last.line));
      }
      i := ListenedSince(init, Run(init).value);
      SinceStays(actions, i, Listen);
    }
  }

  lemma {:induction false} NotifiedSince(actions: seq<Action>, s: Client) returns (i: nat, j: nat)
    requires Run(actions) == Some(s) && s.waiting == Woken
    ensures i < j && Since(actions, i, Listen) && Since(actions, j, Notify)
  {
    var init, last := actions[..|actions| - 1], actions[|actions| - 1];
    if last.Notify? && Run(init).value.waiting == Listening {
      i := ListenedSince(init, Run(init).value);
      SinceStays(actions, i, Listen);
      j := |init|;
    } else {
      if last.ReadLine? {
        EvictKeepsState(Push(Run(init).value, last.line));
      }
      i, j := NotifiedSince(init, Run(init).value);
      SinceStays(actions, i, Listen);
      SinceStays(actions, j, Notify);
    }
  }

  /**
   In every run a command looks at the buffer only after it began to wait and a notification came,
   both since it began and since it last looked.
   */
  lemma LooksOnlyWhenNotified(actions: seq<Action>) returns (i: nat, j: nat)
    requires Run(actions + [Collect]).Some?
    ensures i < j && Since(actions, i, Listen) && Since(actions, j, Notify)
  {
    assert (actions + [Collect])[..|actions|] == actions;
    i, j := NotifiedSince(actions, Run(actions).value);
  }

  // ----- a prompt answer

  /** The command in progress waits, has taken these lines, and nothing is in the buffer. */
  ghost predicate Waits(s: Client, lines: seq<string>) {
    s.collecting == Some(lines) && s.waiting == Listening && s.buffer == [] && !s.announces
  }

  /** OpenOCD prints a line that is announced to a waiting command, which takes it and waits again. */
  lemma TakesAnnounced(actions: seq<Action>, s: Client, lines: seq<string>, line: string)
    returns (longer: seq<Action>, t: Client)
    requires Run(actions) == Some(s) && Waits(s, lines) && !IsTerminator(line)
    ensures longer == actions + [ReadLine(line)] + [Notify] + [Collect] + [Listen]
    ensures Run(longer) == Some(t) && Waits(t, lines + [line]) && t.answers == s.answers
  {
    longer, t := Longer(actions, s, ReadLine(line));
    assert t.buffer == [line];
    longer, t := Longer(longer, t, Notify);
    assert CollectAll(TakeLine(t)) == TakeLine(t);
    longer, t := Longer(longer, t, Collect);
    longer, t := Longer(longer, t, Listen);
  }

  lemma EndsAnnounced(actions: seq<Action>, s: Client, lines: seq<string>, last: string)
    returns (longer: seq<Action>, t: Client)
    requires Run(actions) == Some(s) && Waits(s, lines) && IsTerminator(last)
    ensures longer == actions + [ReadLine(last)] + [Notify] + [Collect]
    ensures Run(longer) == Some(t) && t.collecting.None? && t.buffer == [] && !t.announces
    ensures t.answers == s.answers + [Answer(lines + [last], lines + LastLine(last), false)]
  {
    longer, t := Longer(actions, s, ReadLine(last));
    assert t.buffer == [last];
    longer, t := Longer(longer, t, Notify);
    assert CollectAll(TakeLine(t)) == TakeLine(t);
    longer, t := Longer(longer, t, Collect);
  }

  function Announced(lines: seq<string>): seq<Action> {
    if lines == [] then []
    else Announced(lines[..|lines| - 1]) + [ReadLine(lines[|lines| - 1])] + [Notify] + [Collect] + [Listen]
  }

  lemma {:induction false} TakesAllAnnounced(actions: seq<Action>, s: Client, lines: seq<string>) returns (t: Client)
    requires Run(actions) == Some(s) && Waits(s, [])
    requires forall i :: 0 <= i < |lines| ==> !IsTerminator(lines[i])
    ensures Run(actions + Announced(lines)) == Some(t) && Waits(t, lines) && t.answers == s.answers
  {
    if lines == [] {
      AppendNothing(actions);
      t := s;
    } else {
      var init, line := lines[..|lines| - 1], lines[|lines| - 1];
      var before := TakesAllAnnounced(actions, s, init);
      var longer: seq<Action>;
      longer, t := TakesAnnounced(actions + Announced(init), before, init, line);
      InitAndLast(lines);
      assert longer == actions + Announced(lines);
    }
  }

  /**
   From any idle moment with an empty buffer: a command whose answer is printed while it waits ends
   with exactly the lines of that answer, and leaves the client idle again.
   */
  lemma PromptAnswer(actions: seq<Action>, s: Client, lines: seq<string>, last: string)
    returns (longer: seq<Action>, t: Client)
    requires Run(actions) == Some(s) && s.collecting.None? && s.buffer == [] && !s.announces
    requires IsTerminator(last) && forall i :: 0 <= i < |lines| ==> !IsTerminator(lines[i])
    ensures longer == actions + [BeginCommand] + [Listen] + Announced(lines) + [ReadLine(last)] + [Notify] + [Collect]
    ensures Run(longer) == Some(t) && t.collecting.None? && t.buffer == [] && !t.announces
    ensures t.answers == s.answers + [Answer(lines + [last], lines + LastLine(last), false)]
  {
    longer, t := Longer(actions, s, BeginCommand);
    longer, t := Longer(longer, t, Listen);
    t := TakesAllAnnounced(longer, t, lines);
    longer, t := EndsAnnounced(longer + Announced(lines), t, lines, last);
  }

  /** So the first command of all returns the text that holds its answer's lines. */
  lemma FirstAnswer(lines: seq<string>, before: string, after: string) returns (actions: seq<Action>, t: Client)
    requires SUB !in before && SUB !in after && before + after != []
    requires forall i :: 0 <= i < |lines| ==> !IsTerminator(lines[i])
    requires NoBreaks(lines + [before + after])
    ensures Run(actions) == Some(t) && |t.answers| == 1
    ensures ResultOf(t.answers[0]).Ok? && SplitLines(ResultOf(t.answers[0]).value) == lines + [before + after]
  {
    LastLineMeaning(before, after);
    actions, t := PromptAnswer([], INITIAL, lines, before + [SUB] + after);
    SplitOfJoin(lines + [before + after]);
  }
}
