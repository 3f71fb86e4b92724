/**
 Halt details and breakpoints under interleaving: when they agree with the session's state and the
 last stop, which steps break that, and runs in which it is broken.
 */
module SessionDetails {
  import opened Prelude
  import opened SessionStates
  import opened SessionModel
  import opened SessionRuns
  import opened SessionRaces
  import Breakpoints

  // ----- how scripts are built

  /** What a task can be about to do that others wait for. */
  datatype Duty = LeaveHalt | EnterHalt | ClearBreakpoints

  predicate About(script: Script, duty: Duty) {
    match duty
    case LeaveHalt =>
      script.Do? && (script.step == StopIf(Running) || (script.step.Transition? && script.step.target == Running))
    case EnterHalt => script.Do? && script.step.Transition? && script.step.target == Halted
    case ClearBreakpoints => script.Do? && script.step == UpdateBreakpoints(Breakpoints.Clear)
  }

  /** Some branch of the script holds a transition. */
  predicate Moves(script: Script) {
    match script
    case End => false
    case Do(step, next) => step.Transition? || Moves(next)
    case Or(step, next, otherwise) => step.Transition? || Moves(next) || Moves(otherwise)
  }

  /**
   What scripts have in common: clearing details leads out of a halt, recording them into one;
   a transition is the only one of its call, and one to Disconnected is followed by clearing the
   breakpoints.
   */
  predicate Shaped(script: Script) {
    match script
    case End => true
    case Do(step, next) =>
      && (step.ClearHalt? || step == StopIf(Running) ==> About(next, LeaveHalt))
      && (step.RecordStop? ==> About(next, EnterHalt))
      && (step.Transition? ==> !Moves(next) && !About(next, LeaveHalt))
      && (step.Transition? && step.target == Disconnected ==> About(next, ClearBreakpoints))
      && (step.UpdateBreakpoints? ==> !About(next, ClearBreakpoints))
      && Shaped(next)
    case Or(step, next, otherwise) => IsReading(step) && Shaped(next) && Shaped(otherwise)
  }

  lemma {:induction false} ReadingIsShaped(script: Script)
    requires OnlyReads(script)
    ensures Shaped(script) && !Moves(script)
  {
    if !script.End? {
      ReadingIsShaped(script.next);
      if script.Or? {
        ReadingIsShaped(script.otherwise);
      }
    }
  }

  lemma MoveIsShaped(target: SessionState, reason: string)
    requires target != Disconnected
    ensures Shaped(Do(Transition(target, reason), End))
  {
  }

  /** A step that is neither a transition nor tied to one. */
  predicate IsFree(step: Step) {
    step.Gate? || step.Ask? || step.AskByKind? || step.Spawn? || step.SetKind? || step.SetCapable?
    || step.SetConfigured? || step.Kill?
  }

  lemma FreeIsShaped(step: Step, next: Script)
    requires IsFree(step) && Shaped(next)
    ensures Shaped(Do(step, next))
  {
  }

  lemma RequestIsShaped(op: Operation, ask: Step, next: Script)
    requires IsFree(ask) && Shaped(next)
    ensures Shaped(Do(Gate(op), Do(ask, next)))
  {
    FreeIsShaped(ask, next);
    FreeIsShaped(Gate(op), Do(ask, next));
  }

  lemma CloseIsShaped(reason: string)
    ensures Shaped(CloseScript(reason))
  {
    var clear := Do(UpdateBreakpoints(Breakpoints.Clear), End);
    assert Shaped(clear) && !Moves(clear);
    assert Shaped(Do(Transition(Disconnected, reason), clear));
  }

  lemma UpdatesAreShaped(change: Breakpoints.Op)
    requires change != Breakpoints.Clear
    ensures Shaped(Do(UpdateBreakpoints(change), Do(UpdateBreakpoints(change), End)))
  {
    assert Shaped(Do(UpdateBreakpoints(change), End));
  }

  lemma EventsAreShaped(event: Event)
    ensures Shaped(EventScript(event))
  {
    match event
    case InitializedEvent => MoveIsShaped(Initialized, "event:initialized");
    case StoppedEvent(stop) => MoveIsShaped(Halted, "event:stopped");
    case ContinuedEvent =>
      MoveIsShaped(Running, "event:continued");
      assert Shaped(Do(StopIf(Running), Do(Transition(Running, "event:continued"), End)));
    case TerminatedEvent =>
      CloseIsShaped("event:terminated");
      FreeIsShaped(Kill, CloseScript("event:terminated"));
    case ExitedEvent =>
      CloseIsShaped("event:exited");
      FreeIsShaped(Kill, CloseScript("event:exited"));
    case BreakpointEvent(_, _) =>
    case ThreadEvent(_, _) =>
    case OtherEvent =>
  }

  lemma MovingCallsAreShaped(call: Call)
    requires call.StartCall? || call.InitializeCall? || call.ConfigureCall? || call.ShutdownCall? || call.ResumeCall?
    ensures Shaped(ScriptOf(call))
  {
    match call
    case StartCall(kind, spawned) =>
      MoveIsShaped(Connected, "start");
      FreeIsShaped(SetKind(kind), Do(Transition(Connected, "start"), End));
      RequestIsShaped(Start, Spawn(spawned), Do(SetKind(kind), Do(Transition(Connected, "start"), End)));
    case InitializeCall(answered) =>
      MoveIsShaped(Initialized, "initialize");
      FreeIsShaped(SetCapable, Do(Transition(Initialized, "initialize"), End));
      RequestIsShaped(Initialize, Ask(answered), Do(SetCapable, Do(Transition(Initialized, "initialize"), End)));
    case ConfigureCall(answered) =>
      MoveIsShaped(Running, "configuration_done");
      FreeIsShaped(SetConfigured, ScriptOf(call).next.next.next);
      RequestIsShaped(ConfigurationDone, AskByKind(answered), ScriptOf(call).next.next);
    case ShutdownCall =>
      CloseIsShaped("shutdown");
      RequestIsShaped(Shutdown, Kill, CloseScript("shutdown"));
    case ResumeCall(op, answered) =>
      MoveIsShaped(Running, NameOf(op));
      assert Shaped(Do(ClearHalt, Do(Transition(Running, NameOf(op)), End)));
      RequestIsShaped(op, Ask(answered), Do(ClearHalt, Do(Transition(Running, NameOf(op)), End)));
  }

  lemma OtherCallsAreShaped(call: Call)
    requires call.LaunchCall? || call.QueryCall? || call.SourceCall? || call.FunctionCall? || call.VariablesCall?
    ensures Shaped(ScriptOf(call))
  {
    match call
    case LaunchCall(answered) => RequestIsShaped(Launch, AskByKind(answered), End);
    case QueryCall(op, answered) => RequestIsShaped(op, Ask(answered), End);
    case SourceCall(path, sources, response) =>
      UpdatesAreShaped(Breakpoints.SetSource(path, sources, Given(response)));
      RequestIsShaped(SetBreakpoints, Ask(response.Some?), ScriptOf(call).next.next);
    case FunctionCall(functions, response) =>
      UpdatesAreShaped(Breakpoints.SetFunctions(functions, Given(response)));
      RequestIsShaped(SetFunctionBreakpoints, Ask(response.Some?), ScriptOf(call).next.next);
    case VariablesCall(answer, _, _) =>
      ReadingIsShaped(ScriptOf(call).next.next);
      RequestIsShaped(GetVariables, Ask(answer.Some?), ScriptOf(call).next.next);
  }

  lemma ContextIsShaped(wanted: Option<nat>, deep: bool, threads: Option<seq<ThreadAnswer>>)
    ensures Shaped(ScriptOf(ContextCall(wanted, deep, threads)))
  {
    var rest := ThreadsScript(Targets(Given(threads), wanted), deep, End);
    ThreadsOnlyRead(Targets(Given(threads), wanted), deep, End);
    ReadingIsShaped(rest);
    RequestIsShaped(GetThreads, Ask(threads.Some?), rest);
    FreeIsShaped(Gate(AssembleContext), Do(Gate(GetThreads), Do(Ask(threads.Some?), rest)));
  }

  lemma ScriptsAreShaped(call: Call)
    ensures Shaped(ScriptOf(call))
  {
    if call.Delivered? {
      EventsAreShaped(call.event);
    } else if call.ContextCall? {
      ContextIsShaped(call.wanted, call.deep, call.threads);
    } else if call.LaunchCall? || call.QueryCall? || call.SourceCall? || call.FunctionCall? || call.VariablesCall? {
      OtherCallsAreShaped(call);
    } else {
      MovingCallsAreShaped(call);
    }
  }

  ghost predicate AllShaped(s: System) {
    forall i: nat :: i < |s.tasks| ==> Shaped(s.tasks[i].script)
  }

  lemma {:induction false} TasksAreShaped(actions: seq<Action>)
    ensures AllShaped(Run(actions))
  {
    if actions != [] {
      var init, last := actions[..|actions| - 1], actions[|actions| - 1];
      TasksAreShaped(init);
      if last.Begin? {
        ScriptsAreShaped(last.call);
      }
    }
  }

  // ----- one transition for each call

  function Count(script: Script): nat { if Moves(script) then 1 else 0 }

  /** The tasks that may still make a transition. */
  function Movers(tasks: seq<Task>): nat {
    if tasks == [] then 0 else Movers(tasks[..|tasks| - 1]) + Count(tasks[|tasks| - 1].script)
  }

  lemma {:induction false} MoversUpdate(tasks: seq<Task>, i: nat, task: Task)
    requires i < |tasks|
    ensures Movers(tasks[i := task]) + Count(tasks[i].script) == Movers(tasks) + Count(task.script)
  {
    var n := |tasks| - 1;
    if i < n {
      MoversUpdate(tasks[..n], i, task);
      assert tasks[i := task][..n] == tasks[..n][i := task];
    } else {
      assert tasks[i := task][..n] == tasks[..n];
    }
  }

  lemma MoversAppend(tasks: seq<Task>, task: Task)
    ensures Movers(tasks + [task]) == Movers(tasks) + Count(task.script)
  {
    assert (tasks + [task])[..|tasks|] == tasks;
  }

  /** A step records at most one transition, and then its task makes no other. */
  lemma StepMovesOnce(s: System, i: nat)
    requires AllShaped(s) && i < |s.tasks| && !s.tasks[i].script.End?
    ensures var t := Apply(s, Advance(i));
            |t.world.trace| + Count(t.tasks[i].script) <= |s.world.trace| + Count(s.tasks[i].script)
  {
    var script := s.tasks[i].script;
    assert script.step.Transition? ==> script.Do? && !Moves(script.next);
  }

  lemma ActionMovesOnce(s: System, a: Action)
    requires AllShaped(s) && |s.world.trace| + Movers(s.tasks) <= |s.tasks|
    ensures |Apply(s, a).world.trace| + Movers(Apply(s, a).tasks) <= |Apply(s, a).tasks|
  {
    if a.Begin? {
      MoversAppend(s.tasks, Apply(s, a).tasks[|s.tasks|]);
    } else if StepOf(s, a).Some? {
      StepMovesOnce(s, a.task);
      MoversUpdate(s.tasks, a.task, Apply(s, a).tasks[a.task]);
    }
  }

  /** In every run the calls still to move and the transitions made are together no more than the calls begun. */
  lemma {:induction false} OneTransitionEach(actions: seq<Action>)
    ensures |Run(actions).world.trace| + Movers(Run(actions).tasks) <= |Run(actions).tasks|
  {
    if actions != [] {
      OneTransitionEach(actions[..|actions| - 1]);
      TasksAreShaped(actions[..|actions| - 1]);
      ActionMovesOnce(Run(actions[..|actions| - 1]), actions[|actions| - 1]);
    }
  }

  // ----- what others are about to do

  ghost predicate SomeAbout(s: System, but: int, duty: Duty) {
    exists i: nat :: i < |s.tasks| && i != but && About(s.tasks[i].script, duty)
  }

  lemma OthersKeepDuty(s: System, i: nat, duty: Duty)
    requires i < |s.tasks|
    ensures SomeAbout(Apply(s, Advance(i)), i, duty) <==> SomeAbout(s, i, duty)
    ensures SomeAbout(s, -1, duty) <==> SomeAbout(s, i, duty) || About(s.tasks[i].script, duty)
  {
    var t := Apply(s, Advance(i));
    assert forall k: nat :: k < |s.tasks| && k != i ==> t.tasks[k] == s.tasks[k];
  }

  lemma DutyAfter(s: System, i: nat, duty: Duty)
    requires i < |s.tasks|
    ensures SomeAbout(Apply(s, Advance(i)), -1, duty) <==>
            SomeAbout(s, i, duty) || About(Apply(s, Advance(i)).tasks[i].script, duty)
  {
    OthersKeepDuty(s, i, duty);
    OthersKeepDuty(Apply(s, Advance(i)), i, duty);
  }

  /** Actions that execute no step relieve nobody of a duty, and a new call has none. */
  lemma IdleKeepsDuty(s: System, a: Action, duty: Duty)
    requires StepOf(s, a).None?
    ensures SomeAbout(Apply(s, a), -1, duty) <==> SomeAbout(s, -1, duty)
  {
    var t := Apply(s, a);
    assert forall k: nat :: k < |s.tasks| ==> t.tasks[k] == s.tasks[k];
    if a.Begin? {
      BeginsWithoutDuty(a.call, duty);
    }
  }

  lemma BeginsWithoutDuty(call: Call, duty: Duty)
    ensures !About(ScriptOf(call), duty)
  {
  }

  // ----- halt details and the last stop

  /**
   The history of stops: what the last one recorded, without the threads reported exited since;
   how many there were; whether the last is outstanding, that is, no transition to Running was made
   since by a call that passed its gate (or an event that came) after it, and none to Disconnected;
   and how many there were when each task passed its last gate, or began.
   */
  datatype Story = Story(stop: Halt, stops: nat, outstanding: bool, seen: seq<nat>)

  function TellStep(w: World, story: Story, i: nat, step: Step): Story
    requires i < |story.seen|
  {
    match step
    case Gate(op) => if IsAllowed(op, w.state) then story.(seen := story.seen[i := story.stops]) else story
    case RecordStop(stop) => story.(stop := Recorded(stop), stops := story.stops + 1, outstanding := true)
    case ForgetThread(thread) => story.(stop := WithoutThread(story.stop, thread))
    case Transition(target, _) =>
      if !CanTransitionTo(w.state, target) then story
      else if target == Running then story.(outstanding := story.outstanding && story.seen[i] != story.stops)
      else if target == Disconnected then story.(outstanding := false)
      else story
    case _ => story
  }

  function Tell(s: System, story: Story, a: Action): Story {
    if a.Begin? then story.(seen := story.seen + [story.stops])
    else if StepOf(s, a).Some? && a.task < |story.seen| then TellStep(s.world, story, a.task, StepOf(s, a).value)
    else story
  }

  function StoryOf(actions: seq<Action>): Story {
    if actions == [] then Story(CLEARED, 0, false, [])
    else Tell(Run(actions[..|actions| - 1]), StoryOf(actions[..|actions| - 1]), actions[|actions| - 1])
  }

  lemma TellFits(s: System, story: Story, a: Action)
    requires |story.seen| == |s.tasks|
    ensures |Tell(s, story, a).seen| == |Apply(s, a).tasks|
  {
  }

  lemma {:induction false} StoryFits(actions: seq<Action>)
    ensures |StoryOf(actions).seen| == |Run(actions).tasks|
  {
    if actions != [] {
      var init := actions[..|actions| - 1];
      StoryFits(init);
      TellFits(Run(init), StoryOf(init), actions[|actions| - 1]);
    }
  }

  /**
   A halted session has an outstanding stop and its details, unless a call is about to leave the
   halt; a running session has no outstanding stop, unless an event is about to enter the halt.
   */
  ghost predicate DetailsAgree(s: System, story: Story) {
    && (s.world.state == Halted ==> (story.outstanding && s.world.halt == story.stop) || SomeAbout(s, -1, LeaveHalt))
    && (s.world.state == Running && story.outstanding ==> SomeAbout(s, -1, EnterHalt))
  }

  /**
   A transition that is accepted comes in order: one to Halted finds the details of an outstanding
   stop, or another call about to leave the halt; one to Running was gated after the last stop, or
   finds none outstanding, or another event about to enter the halt.
   */
  ghost predicate InOrder(s: System, story: Story, a: Action) {
    var step := StepOf(s, a);
    step.Some? && step.value.Transition? && CanTransitionTo(s.world.state, step.value.target)
    && a.task < |story.seen| ==>
      && (step.value.target == Halted ==>
            (story.outstanding && s.world.halt == story.stop) || SomeAbout(s, a.task, LeaveHalt))
      && (step.value.target == Running ==>
            !story.outstanding || story.seen[a.task] == story.stops || SomeAbout(s, a.task, EnterHalt))
  }

  /** What the own step of task `i` does to its duties. */
  lemma OwnDuty(s: System, i: nat)
    requires AllShaped(s) && i < |s.tasks| && !s.tasks[i].script.End?
    ensures var step, left := s.tasks[i].script.step, Apply(s, Advance(i)).tasks[i].script;
            && (step.ClearHalt? ==> About(left, LeaveHalt))
            && (step.RecordStop? ==> About(left, EnterHalt))
            && (step.Transition? ==> !About(left, LeaveHalt) && !About(left, EnterHalt))
            && (step == StopIf(Running) && s.world.state != Running ==> About(left, LeaveHalt))
            && (step.Transition? && step.target == Disconnected && CanTransitionTo(s.world.state, Disconnected) ==>
                  About(left, ClearBreakpoints))
            && (step.UpdateBreakpoints? ==> !About(left, ClearBreakpoints))
  {
    var script := s.tasks[i].script;
    if script.Do? && script.step.Transition? {
      assert !Moves(script.next);
    }
  }

  /** A step other than a transition keeps the agreement. */
  lemma ChangeKeepsDetails(s: System, story: Story, i: nat)
    requires AllShaped(s) && |story.seen| == |s.tasks| && DetailsAgree(s, story)
    requires i < |s.tasks| && !s.tasks[i].script.End? && !s.tasks[i].script.step.Transition?
    ensures DetailsAgree(Apply(s, Advance(i)), Tell(s, story, Advance(i)))
  {
    OwnDuty(s, i);
    DutyAfter(s, i, LeaveHalt);
    DutyAfter(s, i, EnterHalt);
    OthersKeepDuty(s, i, LeaveHalt);
    OthersKeepDuty(s, i, EnterHalt);
  }

  lemma MoveKeepsDetails(s: System, story: Story, i: nat)
    requires AllShaped(s) && |story.seen| == |s.tasks| && DetailsAgree(s, story)
    requires i < |s.tasks| && !s.tasks[i].script.End? && s.tasks[i].script.step.Transition?
    ensures DetailsAgree(Apply(s, Advance(i)), Tell(s, story, Advance(i))) <==> InOrder(s, story, Advance(i))
  {
    OwnDuty(s, i);
    DutyAfter(s, i, LeaveHalt);
    DutyAfter(s, i, EnterHalt);
    OthersKeepDuty(s, i, LeaveHalt);
    OthersKeepDuty(s, i, EnterHalt);
  }

  lemma ActionKeepsDetails(s: System, story: Story, a: Action)
    requires AllShaped(s) && |story.seen| == |s.tasks| && DetailsAgree(s, story)
    ensures DetailsAgree(Apply(s, a), Tell(s, story, a)) <==> InOrder(s, story, a)
  {
    if StepOf(s, a).None? {
      IdleKeepsDuty(s, a, LeaveHalt);
      IdleKeepsDuty(s, a, EnterHalt);
    } else if StepOf(s, a).value.Transition? {
      MoveKeepsDetails(s, story, a.task);
    } else {
      ChangeKeepsDetails(s, story, a.task);
    }
  }

  ghost predicate DetailsAlwaysAgree(actions: seq<Action>) {
    && DetailsAgree(Run(actions), StoryOf(actions))
    && (actions != [] ==> DetailsAlwaysAgree(actions[..|actions| - 1]))
  }

  ghost predicate AlwaysInOrder(actions: seq<Action>) {
    actions != [] ==>
      && AlwaysInOrder(actions[..|actions| - 1])
      && InOrder(Run(actions[..|actions| - 1]), StoryOf(actions[..|actions| - 1]), actions[|actions| - 1])
  }

  /**
   Throughout a run the state and the halt details agree with the last stop, but for calls about to
   repair it, exactly if every accepted transition comes in order.
   */
  lemma {:induction false} DetailsIffInOrder(actions: seq<Action>)
    ensures DetailsAlwaysAgree(actions) <==> AlwaysInOrder(actions)
  {
    if actions != [] {
      var init, last := actions[..|actions| - 1], actions[|actions| - 1];
      DetailsIffInOrder(init);
      if DetailsAlwaysAgree(init) {
        TasksAreShaped(init);
        StoryFits(init);
        ActionKeepsDetails(Run(init), StoryOf(init), last);
      }
    }
  }

  /** No call is about to leave a halt, and no event about to enter one. */
  ghost predicate Still(s: System) { !SomeAbout(s, -1, LeaveHalt) && !SomeAbout(s, -1, EnterHalt) }

  /**
   So in such a run, whenever nothing is in between: a halted session has the details of the last
   stop, and a running session was resumed since it.
   */
  lemma StillDetailsAgree(actions: seq<Action>)
    requires AlwaysInOrder(actions) && Still(Run(actions))
    ensures Run(actions).world.state == Halted ==>
              StoryOf(actions).outstanding && Run(actions).world.halt == StoryOf(actions).stop
    ensures Run(actions).world.state == Running ==> !StoryOf(actions).outstanding
  {
    DetailsIffInOrder(actions);
  }

  // ----- runs that break it

  ghost predicate At(actions: seq<Action>, i: nat, script: Script) {
    i < |Run(actions).tasks| && Run(actions).tasks[i].script == script
  }

  /** All tasks but `i` are as they were. */
  ghost predicate OthersWait(before: System, after: System, i: nat) {
    && |before.tasks| == |after.tasks|
    && forall k: nat :: k < |before.tasks| && k != i ==> after.tasks[k] == before.tasks[k]
  }

  lemma Then(actions: seq<Action>, a: Action) returns (more: seq<Action>)
    ensures more == actions + [a] && Run(more) == Apply(Run(actions), a)
    ensures StoryOf(more) == Tell(Run(actions), StoryOf(actions), a)
  {
    more := actions + [a];
    ApplyOneMore(IDLE, actions, a);
    assert more[..|more| - 1] == actions;
  }

  lemma ThenBegins(actions: seq<Action>, call: Call) returns (more: seq<Action>)
    ensures Run(more).world == Run(actions).world && |Run(more).tasks| == |Run(actions).tasks| + 1
    ensures Keeps(Run(actions), Run(more), |Run(actions).tasks|) && At(more, |Run(actions).tasks|, ScriptOf(call))
    ensures StoryOf(more) == StoryOf(actions).(seen := StoryOf(actions).seen + [StoryOf(actions).stops])
  {
    more := Then(actions, Begin(call));
  }

  /** One more step of task `i`, which goes on. */
  lemma ThenSteps(actions: seq<Action>, i: nat, step: Step, next: Script) returns (more: seq<Action>)
    requires At(actions, i, Do(step, next)) && ExecVerdict(Run(actions).world, step) == Proceed
    ensures At(more, i, next) && OthersWait(Run(actions), Run(more), i)
    ensures Run(more).world == ExecWorld(Run(actions).world, Run(actions).tasks[i].askedAt, step)
    ensures i < |StoryOf(actions).seen| && StoryOf(more) == TellStep(Run(actions).world, StoryOf(actions), i, step)
  {
    StoryFits(actions);
    more := Then(actions, Advance(i));
  }

  /** The last step of task `i`, a transition that is refused. */
  lemma ThenRefused(actions: seq<Action>, i: nat, target: SessionState, reason: string, next: Script)
    returns (more: seq<Action>)
    requires At(actions, i, Do(Transition(target, reason), next)) && !CanTransitionTo(Run(actions).world.state, target)
    ensures At(more, i, End) && OthersWait(Run(actions), Run(more), i)
    ensures Run(more).world == Run(actions).world && StoryOf(more) == StoryOf(actions)
  {
    StoryFits(actions);
    more := Then(actions, Advance(i));
  }

  /** One more task, at this script, with the other tasks and the last stop as they were. */
  ghost predicate OneMore(before: seq<Action>, after: seq<Action>, script: Script) {
    var n := |Run(before).tasks|;
    && |Run(after).tasks| == n + 1 == |StoryOf(after).seen| && n == |StoryOf(before).seen|
    && Keeps(Run(before), Run(after), n) && At(after, n, script)
    && forall k: nat :: k < n ==> StoryOf(after).seen[k] == StoryOf(before).seen[k]
  }

  ghost predicate SameStop(before: Story, after: Story) {
    after.stop == before.stop && after.stops == before.stops && after.outstanding == before.outstanding
  }

  lemma OneMoreBegins(actions: seq<Action>, call: Call) returns (more: seq<Action>)
    ensures OneMore(actions, more, ScriptOf(call)) && Run(more).world == Run(actions).world
    ensures SameStop(StoryOf(actions), StoryOf(more))
  {
    StoryFits(actions);
    more := ThenBegins(actions, call);
  }

  /** The newest task goes on with a step, which tells of no stop but its own. */
  lemma OneMoreSteps(before: seq<Action>, actions: seq<Action>, n: nat, step: Step, next: Script)
    returns (more: seq<Action>)
    requires OneMore(before, actions, Do(step, next)) && n == |Run(before).tasks|
    requires ExecVerdict(Run(actions).world, step) == Proceed
    ensures OneMore(before, more, next)
    ensures Run(more).world == ExecWorld(Run(actions).world, Run(actions).tasks[n].askedAt, step)
    ensures n < |StoryOf(actions).seen| && StoryOf(more) == TellStep(Run(actions).world, StoryOf(actions), n, step)
  {
    more := ThenSteps(actions, n, step, next);
  }

  /** What a recorded stop tells. */
  ghost predicate TellsStop(before: Story, after: Story, stop: Option<StopBody>) {
    after.outstanding && after.stop == Recorded(stop) && after.stops == before.stops + 1
  }

  lemma RecordingTells(w: World, story: Story, i: nat, stop: Option<StopBody>)
    requires i < |story.seen|
    ensures TellsStop(story, TellStep(w, story, i, RecordStop(stop)), stop)
  {
  }

  /** A `stopped` event that has recorded its details and waits. */
  lemma StopRecorded(actions: seq<Action>, stop: Option<StopBody>) returns (more: seq<Action>)
    ensures OneMore(actions, more, Do(Transition(Halted, "event:stopped"), End))
    ensures Run(more).world == Run(actions).world.(halt := Recorded(stop))
    ensures TellsStop(StoryOf(actions), StoryOf(more), stop)
  {
    var n, last := |Run(actions).tasks|, Do(Transition(Halted, "event:stopped"), End);
    var began := OneMoreBegins(actions, Delivered(StoppedEvent(stop)));
    more := OneMoreSteps(actions, began, n, RecordStop(stop), last);
    RecordingTells(Run(began).world, StoryOf(began), n, stop);
  }

  function Resumes(op: Resuming): Script { Do(ClearHalt, Do(Transition(Running, NameOf(op)), End)) }

  /** A resuming call of a halted session, up to the answer: it has seen the last stop. */
  lemma ResumeAnswered(actions: seq<Action>, op: Resuming) returns (more: seq<Action>)
    requires Run(actions).world.state == Halted
    ensures OneMore(actions, more, Resumes(op)) && Run(more).world == Run(actions).world
    ensures SameStop(StoryOf(actions), StoryOf(more))
    ensures StoryOf(more).seen[|Run(actions).tasks|] == StoryOf(actions).stops
  {
    var n := |Run(actions).tasks|;
    more := OneMoreBegins(actions, ResumeCall(op, true));
    more := OneMoreSteps(actions, more, n, Gate(op), Do(Ask(true), Resumes(op)));
    more := OneMoreSteps(actions, more, n, Ask(true), Resumes(op));
  }

  /** The last step of a resuming call: a stop it has not seen stays outstanding. */
  ghost predicate TellsRunning(before: Story, after: Story, i: nat) {
    && i < |before.seen| && after.stop == before.stop
    && (after.outstanding <==> before.outstanding && before.seen[i] != before.stops)
  }

  lemma RunningTells(w: World, story: Story, i: nat, reason: string)
    requires i < |story.seen| && w.state == Halted
    ensures TellsRunning(story, TellStep(w, story, i, Transition(Running, reason)), i)
    ensures Moved(w, Running, reason).state == Running && Moved(w, Running, reason).halt == w.halt
  {
  }

  lemma RunsAgain(actions: seq<Action>, n: nat, reason: string) returns (more: seq<Action>)
    requires Run(actions).world.state == Halted && At(actions, n, Do(Transition(Running, reason), End))
    ensures At(more, n, End) && OthersWait(Run(actions), Run(more), n)
    ensures Run(more).world.state == Running && Run(more).world.halt == Run(actions).world.halt
    ensures TellsRunning(StoryOf(actions), StoryOf(more), n)
  {
    more := ThenSteps(actions, n, Transition(Running, reason), End);
    RunningTells(Run(actions).world, StoryOf(actions), n, reason);
  }

  /** The rest of it: the details are cleared and the session runs. */
  lemma ResumeFinished(actions: seq<Action>, n: nat, op: Resuming) returns (more: seq<Action>)
    requires Run(actions).world.state == Halted && At(actions, n, Resumes(op))
    ensures At(more, n, End) && OthersWait(Run(actions), Run(more), n)
    ensures Run(more).world.state == Running && Run(more).world.halt == CLEARED
    ensures TellsRunning(StoryOf(actions), StoryOf(more), n)
  {
    var cleared := ThenSteps(actions, n, ClearHalt, Do(Transition(Running, NameOf(op)), End));
    more := RunsAgain(cleared, n, NameOf(op));
  }

  /** A whole resuming call answers every stop so far. */
  lemma ResumedWhole(actions: seq<Action>, op: Resuming) returns (more: seq<Action>)
    requires Run(actions).world.state == Halted
    ensures |Run(more).tasks| == |Run(actions).tasks| + 1 && Keeps(Run(actions), Run(more), |Run(actions).tasks|)
    ensures At(more, |Run(actions).tasks|, End)
    ensures Run(more).world.state == Running && Run(more).world.halt == CLEARED
    ensures !StoryOf(more).outstanding && StoryOf(more).stop == StoryOf(actions).stop
  {
    var answered := ResumeAnswered(actions, op);
    more := ResumeFinished(answered, |Run(actions).tasks|, op);
  }

  lemma EndedHaveNoDuty(s: System, t: System, duty: Duty)
    requires EndedSince(s, t) && !SomeAbout(s, -1, duty)
    ensures !SomeAbout(t, -1, duty)
  {
    forall i: nat | i < |t.tasks|
      ensures !About(t.tasks[i].script, duty)
    {
      if i < |s.tasks| {
        assert t.tasks[i] == s.tasks[i];
      }
    }
  }

  lemma StillDisagrees(actions: seq<Action>)
    requires Still(Run(actions))
    requires if StoryOf(actions).outstanding then Run(actions).world.state == Running
             else Run(actions).world.state == Halted
    ensures !AlwaysInOrder(actions)
  {
    if AlwaysInOrder(actions) {
      StillDetailsAgree(actions);
    }
  }

  /** Two more tasks, both over, and a disagreement: nothing will repair it, and some step was out of order. */
  lemma BrokenForGood(actions: seq<Action>, more: seq<Action>)
    requires Still(Run(actions)) && Keeps(Run(actions), Run(more), |Run(actions).tasks|)
    requires |Run(more).tasks| == |Run(actions).tasks| + 2
    requires At(more, |Run(actions).tasks|, End) && At(more, |Run(actions).tasks| + 1, End)
    requires if StoryOf(more).outstanding then Run(more).world.state == Running else Run(more).world.state == Halted
    ensures EndedSince(Run(actions), Run(more)) && Still(Run(more)) && !AlwaysInOrder(more)
  {
    TwoEnded(Run(actions), Run(more));
    StillDisagrees(more);
  }

  lemma TwoEnded(s: System, t: System)
    requires Still(s) && Keeps(s, t, |s.tasks|) && |t.tasks| == |s.tasks| + 2
    requires t.tasks[|s.tasks|].script.End? && t.tasks[|s.tasks| + 1].script.End?
    ensures EndedSince(s, t) && Still(t)
  {
    EndedHaveNoDuty(s, t, LeaveHalt);
    EndedHaveNoDuty(s, t, EnterHalt);
  }

  /**
   From any halt: a resuming call is answered, a whole `stopped` event comes, and the call goes on.
   The session ends up running without details although its last stop is outstanding, and nothing
   under way will repair that.
   */
  lemma ResumeLosesStop(actions: seq<Action>, op: Resuming, stop: Option<StopBody>) returns (more: seq<Action>)
    requires Run(actions).world.state == Halted && Still(Run(actions))
    ensures Run(more).world.state == Running && Run(more).world.halt == CLEARED
    ensures StoryOf(more).outstanding && StoryOf(more).stop == Recorded(stop)
    ensures EndedSince(Run(actions), Run(more)) && Still(Run(more)) && !AlwaysInOrder(more)
  {
    var n := |Run(actions).tasks|;
    var answered := ResumeAnswered(actions, op);
    var recorded := StopRecorded(answered, stop);
    var refused := ThenRefused(recorded, n + 1, Halted, "event:stopped", End);
    more := ResumeFinished(refused, n, op);
    BrokenForGood(actions, more);
  }

  /**
   From any halt: a further `stopped` event records its details, the session is resumed by a whole
   call, and only then the event makes its transition. The session ends up halted without details.
   */
  lemma LateStopHasNoDetails(actions: seq<Action>, op: Resuming, stop: Option<StopBody>) returns (more: seq<Action>)
    requires Run(actions).world.state == Halted && Still(Run(actions))
    ensures Run(more).world.state == Halted && Run(more).world.halt == CLEARED
    ensures !StoryOf(more).outstanding && StoryOf(more).stop == Recorded(stop)
    ensures EndedSince(Run(actions), Run(more)) && Still(Run(more)) && !AlwaysInOrder(more)
  {
    var n := |Run(actions).tasks|;
    var recorded := StopRecorded(actions, stop);
    var resumed := ResumedWhole(recorded, op);
    more := ThenSteps(resumed, n, Transition(Halted, "event:stopped"), End);
    BrokenForGood(actions, more);
  }

  // ----- breakpoints

  predicate Active(state: SessionState) { state in {Initialized, Running, Halted} }

  /** Breakpoints outside an active session are about to be cleared. */
  ghost predicate BreakpointsAgree(s: System) {
    s.world.breakpoints != Breakpoints.EMPTY ==> Active(s.world.state) || SomeAbout(s, -1, ClearBreakpoints)
  }

  /** A step that leaves breakpoints finds the session active or another call about to clear them. */
  ghost predicate InPlace(s: System, a: Action) {
    var step := StepOf(s, a);
    step.Some? && step.value.UpdateBreakpoints?
    && Breakpoints.Perform(s.world.breakpoints, step.value.change) != Breakpoints.EMPTY ==>
      Active(s.world.state) || SomeAbout(s, a.task, ClearBreakpoints)
  }

  lemma AdvanceKeepsBreakpoints(s: System, i: nat)
    requires AllShaped(s) && BreakpointsAgree(s) && i < |s.tasks| && !s.tasks[i].script.End?
    ensures BreakpointsAgree(Apply(s, Advance(i))) <==> InPlace(s, Advance(i))
  {
    OwnDuty(s, i);
    DutyAfter(s, i, ClearBreakpoints);
    OthersKeepDuty(s, i, ClearBreakpoints);
  }

  lemma ActionKeepsBreakpoints(s: System, a: Action)
    requires AllShaped(s) && BreakpointsAgree(s)
    ensures BreakpointsAgree(Apply(s, a)) <==> InPlace(s, a)
  {
    if StepOf(s, a).None? {
      IdleKeepsDuty(s, a, ClearBreakpoints);
    } else {
      AdvanceKeepsBreakpoints(s, a.task);
    }
  }

  ghost predicate BreakpointsAlwaysAgree(actions: seq<Action>) {
    BreakpointsAgree(Run(actions)) && (actions != [] ==> BreakpointsAlwaysAgree(actions[..|actions| - 1]))
  }

  ghost predicate AlwaysInPlace(actions: seq<Action>) {
    actions != [] ==>
      AlwaysInPlace(actions[..|actions| - 1]) && InPlace(Run(actions[..|actions| - 1]), actions[|actions| - 1])
  }

  /**
   Throughout a run only an active session has breakpoints, but for those about to be cleared,
   exactly if no answer leaves breakpoints in a session that is inactive by then and not about to be
   cleared by another call.
   */
  lemma {:induction false} BreakpointsIffInPlace(actions: seq<Action>)
    ensures BreakpointsAlwaysAgree(actions) <==> AlwaysInPlace(actions)
  {
    if actions != [] {
      var init, last := actions[..|actions| - 1], actions[|actions| - 1];
      BreakpointsIffInPlace(init);
      TasksAreShaped(init);
      if BreakpointsAlwaysAgree(init) {
        ActionKeepsBreakpoints(Run(init), last);
      }
    }
  }

  lemma LeavesNothing(w: World)
    requires w.state != Disconnected
    ensures Effect(w, Delivered(TerminatedEvent)).world.state == Disconnected
    ensures Effect(w, Delivered(TerminatedEvent)).world.breakpoints == Breakpoints.EMPTY
    ensures !Effect(w, Delivered(TerminatedEvent)).world.child
  {
  }

  lemma StartsAgain(w: World, kind: AdapterKind)
    ensures w.state == Disconnected && !w.child ==>
              var started := Effect(w, StartCall(kind, true)).world;
              started.state == Connected && started.breakpoints == w.breakpoints
    ensures w.state == Connected ==>
              var ready := Effect(w, InitializeCall(true)).world;
              ready.state == Initialized && ready.breakpoints == w.breakpoints
  {
  }

  /**
   From any active session: if a `terminated` event comes between the answer to `setBreakpoints` and
   the update of the cache, the disconnected session keeps the breakpoints when both are over, and
   so does the session that is started and initialized next.
   */
  lemma BreakpointsSurviveRestart(r: iset<System>, s: System, kind: AdapterKind, path: string,
                                  sources: seq<Breakpoints.SourceBreakpoint>, response: seq<Breakpoints.Breakpoint>)
    returns (closed: System, restarted: System)
    requires StepClosed(r) && s in r && Active(s.world.state)
    ensures closed in r && EndedSince(s, closed) && closed.world.state == Disconnected
    ensures closed.world.breakpoints ==
            Breakpoints.Perform(Breakpoints.EMPTY, Breakpoints.SetSource(path, sources, response))
    ensures restarted in r && EndedSince(s, restarted) && restarted.world.state == Initialized
    ensures restarted.world.breakpoints == closed.world.breakpoints
  {
    closed := CachedAfterClosing(r, s, path, sources, response);
    StartsAgain(closed.world, kind);
    var started := WholeCall(r, closed, StartCall(kind, true));
    StartsAgain(started.world, kind);
    restarted := WholeCall(r, started, InitializeCall(true));
  }

  /** A `setBreakpoints` that has its answer when a whole `terminated` event comes. */
  lemma AnsweredThenTerminated(r: iset<System>, s: System, path: string, sources: seq<Breakpoints.SourceBreakpoint>,
                               response: seq<Breakpoints.Breakpoint>, updates: Script)
    returns (t: System)
    requires StepClosed(r) && s in r && Active(s.world.state)
    requires ScriptOf(SourceCall(path, sources, Some(response))) ==
             Do(Gate(SetBreakpoints), Do(Ask(true), updates))
    ensures t in r && t.world.state == Disconnected && !t.world.child && t.world.breakpoints == Breakpoints.EMPTY
    ensures |t.tasks| == |s.tasks| + 2 && Keeps(s, t, |s.tasks|) && t.tasks[|s.tasks| + 1].script.End?
    ensures Holds(t, |s.tasks|, updates, |s.world.trace|)
  {
    var asked := AskedAndAnswered(r, s, SourceCall(path, sources, Some(response)), SetBreakpoints, updates);
    LeavesNothing(s.world);
    t := WholeCall(r, asked, Delivered(TerminatedEvent));
  }

  /** The rest of it: the session's update, then the handler's, of the same cache. */
  lemma UpdatesFinished(r: iset<System>, s: System, n: nat, askedAt: nat, change: Breakpoints.Op) returns (t: System)
    requires StepClosed(r) && s in r && (change.SetSource? || change.SetFunctions?)
    requires Holds(s, n, Do(UpdateBreakpoints(change), Do(UpdateBreakpoints(change), End)), askedAt)
    ensures t in r && t.world == s.world.(breakpoints := Breakpoints.Perform(s.world.breakpoints, change))
    ensures |t.tasks| == |s.tasks| && t.tasks[n].script.End? && OthersWait(s, t, n)
  {
    UpdateTwice(s.world.breakpoints, change);
    var last := Do(UpdateBreakpoints(change), End);
    var once := AdvancedAlone(r, s, n, askedAt, UpdateBreakpoints(change), last);
    t := AdvancedAlone(r, once, n, askedAt, UpdateBreakpoints(change), End);
  }

  lemma CachedAfterClosing(r: iset<System>, s: System, path: string,
                           sources: seq<Breakpoints.SourceBreakpoint>, response: seq<Breakpoints.Breakpoint>)
    returns (t: System)
    requires StepClosed(r) && s in r && Active(s.world.state)
    ensures t in r && EndedSince(s, t) && t.world.state == Disconnected && !t.world.child
    ensures t.world.breakpoints ==
            Breakpoints.Perform(Breakpoints.EMPTY, Breakpoints.SetSource(path, sources, response))
  {
    var change := Breakpoints.SetSource(path, sources, response);
    var updates := Do(UpdateBreakpoints(change), Do(UpdateBreakpoints(change), End));
    var closed := AnsweredThenTerminated(r, s, path, sources, response, updates);
    t := UpdatesFinished(r, closed, |s.tasks|, |s.world.trace|, change);
    LastOnesEnded(s, closed, t);
  }
}
