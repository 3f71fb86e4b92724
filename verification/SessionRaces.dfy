/**
 The session under interleaving: any number of calls and event handlers are under way, and the
 steps of their scripts alternate in any order. Watchers come and go in between.
 */
module SessionRaces {
  import opened Prelude
  import opened SessionStates
  import opened SessionModel
  import opened SessionRuns
  import Breakpoints
  import VariableCache

  /**
   A call under way: what is left of its script, the last gate it passed, and the transitions made
   when it passed it.
   */
  datatype Task = Task(script: Script, askedAt: nat, gate: Option<Operation>)

  datatype System = System(world: World, tasks: seq<Task>)

  const IDLE := System(INITIAL, [])

  datatype Action =
    | Begin(call: Call)
    | Advance(task: nat)
    | Subscribe(receiver: nat)
    | Unsubscribe(receiver: nat)

  /** What is left of a script after its first step. */
  function Left(script: Script, verdict: Verdict): Script
    requires !script.End?
  {
    if verdict == Proceed then script.next
    else if verdict == Fail && script.Or? then script.otherwise
    else End
  }

  function AdvanceTask(s: System, i: nat): System {
    if i < |s.tasks| && !s.tasks[i].script.End? then
      var task, w := s.tasks[i], s.world;
      var step := task.script.step;
      var verdict := ExecVerdict(w, step);
      var passed := step.Gate? && verdict == Proceed;
      System(ExecWorld(w, task.askedAt, step),
             s.tasks[i := Task(Left(task.script, verdict), if passed then |w.trace| else task.askedAt,
                               if passed then Some(step.op) else task.gate)])
    else s
  }

  function Apply(s: System, a: Action): System {
    match a
    case Begin(call) => s.(tasks := s.tasks + [Task(ScriptOf(call), |s.world.trace|, None)])
    case Advance(i) => AdvanceTask(s, i)
    case Subscribe(r) =>
      if r in s.world.receivers then s
      else s.(world := s.world.(receivers := s.world.receivers[r := |s.world.trace|]))
    case Unsubscribe(r) => s.(world := s.world.(receivers := s.world.receivers - {r}))
  }

  function ApplyAll(s: System, actions: seq<Action>): System {
    if actions == [] then s else Apply(ApplyAll(s, actions[..|actions| - 1]), actions[|actions| - 1])
  }

  function Run(actions: seq<Action>): System { ApplyAll(IDLE, actions) }

  lemma ApplyOneMore(s: System, actions: seq<Action>, a: Action)
    ensures ApplyAll(s, actions + [a]) == Apply(ApplyAll(s, actions), a)
  {
  }

  /** Does a step of some task execute, and which? */
  function StepOf(s: System, a: Action): Option<Step> {
    if a.Advance? && a.task < |s.tasks| && !s.tasks[a.task].script.End? then Some(s.tasks[a.task].script.step) else None
  }

  // ----- legal paths

  /** The records chain from Disconnected to `end`, each by a legal transition. */
  ghost predicate Chain(trace: seq<Change>, end: SessionState) {
    && (trace == [] ==> end == Disconnected)
    && (trace != [] ==> trace[0].from == Disconnected && trace[|trace| - 1].to == end)
    && (forall i :: 0 <= i < |trace| ==> CanTransitionTo(trace[i].from, trace[i].to))
    && (forall i :: 0 < i < |trace| ==> trace[i].from == trace[i - 1].to)
  }

  lemma MoveExtendsChain(w: World, target: SessionState, reason: string)
    requires Chain(w.trace, w.state) && CanTransitionTo(w.state, target)
    ensures Chain(Moved(w, target, reason).trace, target)
  {
  }

  lemma StepKeepsChain(w: World, askedAt: nat, step: Step)
    requires Chain(w.trace, w.state)
    ensures Chain(ExecWorld(w, askedAt, step).trace, ExecWorld(w, askedAt, step).state)
  {
    if step.Transition? && CanTransitionTo(w.state, step.target) {
      MoveExtendsChain(w, step.target, step.reason);
    }
  }

  /** In every interleaving the states form a legal path and the trace records chain. */
  lemma {:induction false} PathsAreLegal(actions: seq<Action>)
    ensures Chain(Run(actions).world.trace, Run(actions).world.state)
  {
    if actions != [] {
      var init, last := actions[..|actions| - 1], actions[|actions| - 1];
      PathsAreLegal(init);
      var s := Run(init);
      if StepOf(s, last).Some? {
        StepKeepsChain(s.world, s.tasks[last.task].askedAt, StepOf(s, last).value);
      }
    }
  }

  /** The last start: from `i` on the path is Connected, Initialized, and then only running or halted. */
  ghost predicate HandshakeAt(trace: seq<Change>, i: nat) {
    && i + 1 < |trace|
    && trace[i].from == Disconnected && trace[i].to == Connected && trace[i + 1].to == Initialized
    && forall j :: i + 1 < j < |trace| ==> trace[j].to in {Running, Halted}
  }

  /** A session that is initialized, running or halted went through the whole handshake since it last started. */
  lemma {:induction false} HandshakeCameFirst(trace: seq<Change>, end: SessionState) returns (i: nat)
    requires Chain(trace, end) && end in {Initialized, Running, Halted}
    ensures HandshakeAt(trace, i)
  {
    var last := |trace| - 1;
    if end == Initialized {
      assert trace[last].from == Connected;
      i := last - 1;
      assert trace[i].to == Connected;
    } else {
      var init := trace[..last];
      assert trace[last].from == (if last == 0 then Disconnected else init[last - 1].to);
      i := HandshakeCameFirst(init, trace[last].from);
    }
  }

  lemma RunningMeansHandshake(actions: seq<Action>) returns (i: nat)
    requires Run(actions).world.state in {Initialized, Running, Halted}
    ensures HandshakeAt(Run(actions).world.trace, i)
  {
    PathsAreLegal(actions);
    i := HandshakeCameFirst(Run(actions).world.trace, Run(actions).world.state);
  }

  /** Is the next step of task `i` a gate or transition that will be refused? */
  predicate WillBeRefused(s: System, i: nat) {
    && i < |s.tasks| && s.tasks[i].script.Do?
    && match s.tasks[i].script.step
       case Gate(op) => !IsAllowed(op, s.world.state)
       case Transition(target, _) => s.world.state !in ValidPredecessors(target)
       case _ => false
  }

  /**
   A refused gate or transition leaves the whole session as it was and ends its task; every
   other step that changes the state is a transition to a state it may precede.
   */
  lemma RefusalChangesNothing(s: System, i: nat)
    ensures WillBeRefused(s, i) ==>
              && Apply(s, Advance(i)).world == s.world
              && Apply(s, Advance(i)).tasks[i].script == End
              && (forall k :: 0 <= k < |s.tasks| && k != i ==> Apply(s, Advance(i)).tasks[k] == s.tasks[k])
    ensures Apply(s, Advance(i)).world.state != s.world.state ==>
              s.world.state in ValidPredecessors(Apply(s, Advance(i)).world.state)
  {
    if i < |s.tasks| && !s.tasks[i].script.End? {
      var step := s.tasks[i].script.step;
      if step.Transition? {
        TablesAgree(s.world.state, step.target, Start);
      }
    }
  }

  // ----- the watch channel

  /** The value a watch channel stores: the last one sent while somebody listened. */
  function LastHeard(trace: seq<Change>): SessionState {
    if trace == [] then Disconnected
    else if trace[|trace| - 1].heard then trace[|trace| - 1].to
    else LastHeard(trace[..|trace| - 1])
  }

  /** Every transition made while a receiver was alive was heard. */
  ghost predicate WatchFollows(w: World) {
    && w.watched == LastHeard(w.trace)
    && forall r :: r in w.receivers ==>
         w.receivers[r] <= |w.trace| && forall k :: w.receivers[r] <= k < |w.trace| ==> w.trace[k].heard
  }

  lemma MoveIsHeard(w: World, target: SessionState, reason: string)
    requires WatchFollows(w)
    ensures WatchFollows(Moved(w, target, reason))
  {
  }

  lemma StepKeepsWatch(w: World, askedAt: nat, step: Step)
    requires WatchFollows(w)
    ensures WatchFollows(ExecWorld(w, askedAt, step))
  {
    if step.Transition? && CanTransitionTo(w.state, step.target) {
      MoveIsHeard(w, step.target, step.reason);
    }
  }

  lemma ActionKeepsWatch(s: System, a: Action)
    requires WatchFollows(s.world)
    ensures WatchFollows(Apply(s, a).world)
  {
    if StepOf(s, a).Some? {
      StepKeepsWatch(s.world, s.tasks[a.task].askedAt, StepOf(s, a).value);
    }
  }

  lemma {:induction false} WatchAlwaysFollows(actions: seq<Action>)
    ensures WatchFollows(Run(actions).world)
  {
    if actions != [] {
      WatchAlwaysFollows(actions[..|actions| - 1]);
      ActionKeepsWatch(Run(actions[..|actions| - 1]), actions[|actions| - 1]);
    }
  }

  /**
   A live watcher holds the current state after the first transition since it subscribed, and
   one that subscribed before any transition always does.
   */
  lemma LiveWatcherIsCurrent(actions: seq<Action>, r: nat)
    requires r in Run(actions).world.receivers
    ensures var w := Run(actions).world;
            w.receivers[r] == 0 || w.receivers[r] < |w.trace| ==> w.watched == w.state
  {
    WatchAlwaysFollows(actions);
    PathsAreLegal(actions);
    var w := Run(actions).world;
    assert w.receivers[r] < |w.trace| ==> w.trace[|w.trace| - 1].heard;
  }

  /**
   A new subscriber sees the current state exactly if no transition was made yet, or somebody was
   listening at the last one, or the last one came back to the state that was last heard.
   */
  lemma SubscriberSeesLastHeard(actions: seq<Action>, r: nat, w: World, after: World)
    requires w == Run(actions).world && after == Run(actions + [Subscribe(r)]).world
    ensures after.state == w.state && r in after.receivers
    ensures after.watched == after.state <==>
            || w.trace == [] || w.trace[|w.trace| - 1].heard
            || LastHeard(w.trace[..|w.trace| - 1]) == w.state
  {
    ApplyOneMore(IDLE, actions, Subscribe(r));
    WatchAlwaysFollows(actions);
    PathsAreLegal(actions);
  }

  /** Receiver `r` subscribed at step `i` and has not left since. */
  ghost predicate Listens(actions: seq<Action>, i: nat, r: nat) {
    i < |actions| && actions[i] == Subscribe(r) && forall j :: i < j < |actions| ==> actions[j] != Unsubscribe(r)
  }

  ghost predicate IsSubscribed(actions: seq<Action>, r: nat) { exists i: nat :: Listens(actions, i, r) }

  lemma StepKeepsReceivers(s: System, i: nat)
    ensures Apply(s, Advance(i)).world.receivers == s.world.receivers
  {
  }

  lemma ListensStep(actions: seq<Action>, r: nat)
    requires actions != []
    ensures IsSubscribed(actions, r) <==>
            || actions[|actions| - 1] == Subscribe(r)
            || (actions[|actions| - 1] != Unsubscribe(r) && IsSubscribed(actions[..|actions| - 1], r))
  {
    var init, last := actions[..|actions| - 1], actions[|actions| - 1];
    if last == Subscribe(r) {
      assert Listens(actions, |init|, r);
    }
    forall i: nat | i < |init|
      ensures Listens(actions, i, r) <==> Listens(init, i, r) && last != Unsubscribe(r)
    {
    }
  }

  /** The receivers are exactly those that subscribed and have not left since. */
  lemma {:induction false} ReceiversAreSubscribed(actions: seq<Action>, r: nat)
    ensures r in Run(actions).world.receivers <==> IsSubscribed(actions, r)
  {
    if actions != [] {
      var init, last := actions[..|actions| - 1], actions[|actions| - 1];
      ReceiversAreSubscribed(init, r);
      ListensStep(actions, r);
      if last.Advance? {
        StepKeepsReceivers(Run(init), last.task);
      }
    }
  }

  // ----- how scripts are built

  /** The rest of a script relies on the kind having been set. */
  predicate NeedsKind(script: Script) {
    match script
    case End => false
    case Do(step, next) =>
      if step.Gate? || step.SetKind? then false
      else (step.Transition? && step.target == Connected) || step.AskByKind? || NeedsKind(next)
    case Or(_, _, _) => false
  }

  /** A process was spawned, and the transition to Connected is still to come. */
  predicate Opening(script: Script) {
    match script
    case Do(SetKind(_), next) => Opening(next)
    case Do(Transition(target, _), _) => target == Connected
    case _ => false
  }

  /** The process was killed, and the session is still to be closed. */
  predicate Closing(script: Script) {
    match script
    case Do(StopIf(state), next) => state == Disconnected && Closing(next)
    case Do(Transition(target, _), _) => target == Disconnected
    case _ => false
  }

  /** A step that only passes a gate other than the one for starting, asks, or caches. */
  predicate IsReading(step: Step) {
    (step.Gate? && step.op != Start) || step.Ask? || step.CacheVariables?
  }

  /**
   What all scripts have in common: a transition behind a gate goes to the gate's target and is
   followed by no other; spawning leads to the transition to Connected, killing to closing; and
   only the gate for starting may be followed by steps that do not yet need the kind.
   */
  predicate WellBuilt(script: Script, gate: Option<Operation>) {
    match script
    case End => true
    case Do(step, next) =>
      && (step.Transition? && gate.Some? ==> TargetOf(gate.value) == Some(step.target))
      && (step.Transition? ==> !Opening(next) && !Closing(next))
      && (step.Spawn? ==> Opening(next)) && (step.Kill? ==> Closing(next))
      && (step.StopIf? ==> next.Do? && next.step.Transition? && next.step.target != Connected
                           && (step.state == Disconnected <==> next.step.target == Disconnected))
      && (step == Gate(Start) ==> !NeedsKind(next))
      && WellBuilt(next, if step.Gate? then Some(step.op) else gate)
    case Or(step, next, otherwise) =>
      && IsReading(step) && !NeedsKind(next) && !NeedsKind(otherwise)
      && WellBuilt(next, if step.Gate? then Some(step.op) else gate) && WellBuilt(otherwise, gate)
  }

  /** A script of reading steps only is well built behind any gate. */
  predicate OnlyReads(script: Script) {
    match script
    case End => true
    case Do(step, next) => IsReading(step) && OnlyReads(next)
    case Or(step, next, otherwise) => IsReading(step) && OnlyReads(next) && OnlyReads(otherwise)
  }

  lemma {:induction false} ReadingIsWellBuilt(script: Script, gate: Option<Operation>)
    requires OnlyReads(script)
    ensures WellBuilt(script, gate) && !NeedsKind(script)
  {
    if !script.End? {
      ReadingIsWellBuilt(script.next, if script.step.Gate? then Some(script.step.op) else gate);
      if script.Or? {
        ReadingIsWellBuilt(script.otherwise, gate);
      }
    }
  }

  lemma RequestOnlyReads(op: Operation, answered: bool, next: Script, later: Script)
    requires op != Start && OnlyReads(next) && OnlyReads(later)
    ensures OnlyReads(Or(Gate(op), Or(Ask(answered), next, later), later))
  {
    assert OnlyReads(Or(Ask(answered), next, later));
  }

  lemma {:induction false} ChildrenOnlyRead(variables: seq<Variable>, deep: bool, rest: Script)
    requires OnlyReads(rest)
    ensures OnlyReads(ChildrenScript(variables, deep, rest))
  {
    if variables != [] {
      var later := ChildrenScript(variables[1..], deep, rest);
      ChildrenOnlyRead(variables[1..], deep, rest);
      RequestOnlyReads(GetVariables, variables[0].children, later, later);
    }
  }

  lemma {:induction false} ScopesOnlyRead(frame: nat, scopes: seq<ScopeAnswer>, deep: bool, rest: Script)
    requires OnlyReads(rest)
    ensures OnlyReads(ScopesScript(frame, scopes, deep, rest))
  {
    if scopes != [] {
      var later, variables := ScopesScript(frame, scopes[1..], deep, rest), scopes[0].variables;
      ScopesOnlyRead(frame, scopes[1..], deep, rest);
      ChildrenOnlyRead(Given(variables), deep, later);
      RequestOnlyReads(GetVariables, variables.Some?,
                       Do(CacheVariables(ScopeEntries(frame, scopes[0])),
                          ChildrenScript(Given(variables), deep, later)), later);
    }
  }

  lemma {:induction false} FramesOnlyRead(frames: seq<FrameAnswer>, deep: bool, rest: Script)
    requires OnlyReads(rest)
    ensures OnlyReads(FramesScript(frames, deep, rest))
  {
    if frames != [] {
      var later, scopes := FramesScript(frames[1..], deep, rest), frames[0].scopes;
      FramesOnlyRead(frames[1..], deep, rest);
      ScopesOnlyRead(frames[0].id, Given(scopes), deep, later);
      RequestOnlyReads(GetScopes, scopes.Some?, ScopesScript(frames[0].id, Given(scopes), deep, later), later);
    }
  }

  lemma {:induction false} ThreadsOnlyRead(threads: seq<ThreadAnswer>, deep: bool, rest: Script)
    requires OnlyReads(rest)
    ensures OnlyReads(ThreadsScript(threads, deep, rest))
  {
    if threads != [] {
      var later, frames := ThreadsScript(threads[1..], deep, rest), threads[0].frames;
      ThreadsOnlyRead(threads[1..], deep, rest);
      FramesOnlyRead(Given(frames), deep, later);
      RequestOnlyReads(GetStackTrace, frames.Some?, FramesScript(Given(frames), deep, later), later);
    }
  }

  lemma ContextIsWellBuilt(wanted: Option<nat>, deep: bool, threads: Option<seq<ThreadAnswer>>)
    ensures WellBuilt(ScriptOf(ContextCall(wanted, deep, threads)), None)
    ensures !NeedsKind(ScriptOf(ContextCall(wanted, deep, threads)))
  {
    var rest := ThreadsScript(Targets(Given(threads), wanted), deep, End);
    ThreadsOnlyRead(Targets(Given(threads), wanted), deep, End);
    assert OnlyReads(Do(Ask(threads.Some?), rest));
    assert OnlyReads(Do(Gate(GetThreads), Do(Ask(threads.Some?), rest)));
    ReadingIsWellBuilt(ScriptOf(ContextCall(wanted, deep, threads)), None);
  }

  lemma LeavingIsWellBuilt(reason: string, gate: Option<Operation>)
    requires gate.None? || gate.value == Shutdown
    ensures WellBuilt(CloseScript(reason).next, gate)
  {
    assert WellBuilt(CloseScript(reason).next.next, gate);
  }

  lemma CloseIsWellBuilt(reason: string, gate: Option<Operation>)
    requires gate.None? || gate.value == Shutdown
    ensures WellBuilt(Do(Kill, CloseScript(reason)), gate)
  {
    LeavingIsWellBuilt(reason, gate);
    assert WellBuilt(CloseScript(reason), gate);
  }

  lemma EventsAreWellBuilt(event: Event)
    ensures WellBuilt(EventScript(event), None)
  {
    var script := EventScript(event);
    if event.TerminatedEvent? {
      CloseIsWellBuilt("event:terminated", None);
    } else if event.ExitedEvent? {
      CloseIsWellBuilt("event:exited", None);
    } else if event.ContinuedEvent? {
      assert WellBuilt(script.next.next, None) && WellBuilt(script.next, None);
    } else if script.Do? {
      assert WellBuilt(script.next, None);
    }
  }

  /** A gate and a request, then at most one change and one transition to the gate's target. */
  lemma RequestsAreWellBuilt(op: Operation, ask: Step, rest: Script)
    requires op != Start && (ask.Ask? || ask.AskByKind?) && WellBuilt(rest, Some(op))
    ensures WellBuilt(Do(Gate(op), Do(ask, rest)), None)
  {
    assert WellBuilt(Do(ask, rest), Some(op));
  }

  lemma ChangesAreWellBuilt(op: Operation, change: Step, target: SessionState, reason: string)
    requires TargetOf(op) == Some(target) && (change.SetCapable? || change.SetConfigured? || change.ClearHalt?)
    ensures WellBuilt(Do(change, Do(Transition(target, reason), End)), Some(op))
  {
    assert WellBuilt(Do(Transition(target, reason), End), Some(op));
  }

  lemma StartIsWellBuilt(kind: AdapterKind, spawned: bool)
    ensures WellBuilt(ScriptOf(StartCall(kind, spawned)), None)
  {
    var last := Do(Transition(Connected, "start"), End);
    assert WellBuilt(last, Some(Start));
    assert WellBuilt(Do(SetKind(kind), last), Some(Start));
    assert WellBuilt(Do(Spawn(spawned), Do(SetKind(kind), last)), Some(Start));
    assert !NeedsKind(Do(Spawn(spawned), Do(SetKind(kind), last)));
  }

  lemma ScriptsAreWellBuilt(call: Call)
    ensures WellBuilt(ScriptOf(call), None) && !NeedsKind(ScriptOf(call))
  {
    match call
    case StartCall(kind, spawned) => StartIsWellBuilt(kind, spawned);
    case InitializeCall(answered) =>
      ChangesAreWellBuilt(Initialize, SetCapable, Initialized, "initialize");
      RequestsAreWellBuilt(Initialize, Ask(answered), ScriptOf(call).next.next);
    case LaunchCall(answered) => RequestsAreWellBuilt(Launch, AskByKind(answered), End);
    case ConfigureCall(answered) =>
      ChangesAreWellBuilt(ConfigurationDone, SetConfigured, Running, "configuration_done");
      RequestsAreWellBuilt(ConfigurationDone, AskByKind(answered), ScriptOf(call).next.next);
    case ShutdownCall => CloseIsWellBuilt("shutdown", Some(Shutdown));
    case ResumeCall(op, answered) =>
      ChangesAreWellBuilt(op, ClearHalt, Running, NameOf(op));
      RequestsAreWellBuilt(op, Ask(answered), ScriptOf(call).next.next);
    case QueryCall(op, answered) => RequestsAreWellBuilt(op, Ask(answered), End);
    case SourceCall(_, _, response) => UpdatesAreWellBuilt(SetBreakpoints, response.Some?, ScriptOf(call).next.next);
    case FunctionCall(_, response) =>
      UpdatesAreWellBuilt(SetFunctionBreakpoints, response.Some?, ScriptOf(call).next.next);
    case VariablesCall(answer, _, _) =>
      ReadingIsWellBuilt(ScriptOf(call).next.next, Some(GetVariables));
      RequestsAreWellBuilt(GetVariables, Ask(answer.Some?), ScriptOf(call).next.next);
    case ContextCall(wanted, deep, threads) => ContextIsWellBuilt(wanted, deep, threads);
    case Delivered(event) =>
      EventsAreWellBuilt(event);
      EventsNeedNoKind(event);
  }

  lemma UpdatesAreWellBuilt(op: Operation, answered: bool, updates: Script)
    requires op != Start && updates.Do? && updates.step.UpdateBreakpoints?
    requires updates.next.Do? && updates.next.step.UpdateBreakpoints? && updates.next.next.End?
    ensures WellBuilt(Do(Gate(op), Do(Ask(answered), updates)), None)
  {
    assert WellBuilt(updates.next, Some(op));
    assert WellBuilt(updates, Some(op));
    RequestsAreWellBuilt(op, Ask(answered), updates);
  }

  lemma EventsNeedNoKind(event: Event)
    ensures !NeedsKind(EventScript(event))
  {
    var script := EventScript(event);
    if script.Do? && script.next.Do? {
      if script.next.next.Do? {
        assert !NeedsKind(script.next.next.next) && !NeedsKind(script.next.next);
      }
      assert !NeedsKind(script.next);
    }
  }

  ghost predicate AllWellBuilt(s: System) {
    forall i: nat :: i < |s.tasks| ==> WellBuilt(s.tasks[i].script, s.tasks[i].gate)
  }

  lemma {:induction false} TasksAreWellBuilt(actions: seq<Action>)
    ensures AllWellBuilt(Run(actions))
  {
    if actions != [] {
      var init, last := actions[..|actions| - 1], actions[|actions| - 1];
      TasksAreWellBuilt(init);
      if last.Begin? {
        ScriptsAreWellBuilt(last.call);
      }
    }
  }

  // ----- the adapter's kind

  ghost predicate KindKnown(s: System) {
    && (s.world.state != Disconnected ==> s.world.kind.Some?)
    && forall i: nat :: i < |s.tasks| && NeedsKind(s.tasks[i].script) ==> s.world.kind.Some?
  }

  lemma AdvanceKeepsKind(s: System, i: nat)
    requires KindKnown(s) && AllWellBuilt(s)
    ensures KindKnown(Apply(s, Advance(i)))
  {
    if i < |s.tasks| && !s.tasks[i].script.End? {
      var t, step := Apply(s, Advance(i)), s.tasks[i].script.step;
      assert s.world.kind.Some? ==> t.world.kind.Some?;
      if NeedsKind(t.tasks[i].script) {
        NeedsKindNext(s, i);
      }
    }
  }

  /** A task that comes to need the kind has just passed a gate other than the one for starting, or set it. */
  lemma NeedsKindNext(s: System, i: nat)
    requires KindKnown(s) && AllWellBuilt(s) && i < |s.tasks| && !s.tasks[i].script.End?
    requires NeedsKind(Apply(s, Advance(i)).tasks[i].script)
    ensures Apply(s, Advance(i)).world.kind.Some?
  {
  }

  lemma {:induction false} KindAlwaysKnown(actions: seq<Action>)
    ensures KindKnown(Run(actions))
  {
    if actions != [] {
      var init, last := actions[..|actions| - 1], actions[|actions| - 1];
      KindAlwaysKnown(init);
      TasksAreWellBuilt(init);
      if last.Begin? {
        ScriptsAreWellBuilt(last.call);
      } else if last.Advance? {
        AdvanceKeepsKind(Run(init), last.task);
      }
    }
  }

  /**
   In every interleaving the adapter's kind is known outside Disconnected, and whenever `launch` or
   `configuration_done` is about to choose by it, so their arm for an unknown kind is never taken.
   */
  lemma UnknownKindNeverChosen(actions: seq<Action>, i: nat)
    ensures Run(actions).world.state != Disconnected ==> Run(actions).world.kind.Some?
    ensures StepOf(Run(actions), Advance(i)).Some? && StepOf(Run(actions), Advance(i)).value.AskByKind? ==>
              Run(actions).world.kind.Some?
  {
    KindAlwaysKnown(actions);
    TasksAreWellBuilt(actions);
  }

  // ----- transitions behind a gate

  /** The state after the first `n` transitions. */
  function StateAfter(trace: seq<Change>, n: nat): SessionState
    requires n <= |trace|
  {
    if n == 0 then Disconnected else trace[n - 1].to
  }

  /** Every task's last gate admitted the state at the time it was passed. */
  ghost predicate GatesAdmitted(s: System) {
    forall i: nat :: i < |s.tasks| && s.tasks[i].gate.Some? ==>
      && s.tasks[i].askedAt <= |s.world.trace|
      && IsAllowed(s.tasks[i].gate.value, StateAfter(s.world.trace, s.tasks[i].askedAt))
  }

  lemma TraceGrows(w: World, askedAt: nat, step: Step)
    ensures var after := ExecWorld(w, askedAt, step);
            && |w.trace| <= |after.trace|
            && forall n: nat :: n <= |w.trace| ==> StateAfter(after.trace, n) == StateAfter(w.trace, n)
    ensures step.Gate? ==> ExecWorld(w, askedAt, step).trace == w.trace
  {
  }

  lemma AdvanceKeepsGates(s: System, i: nat)
    requires GatesAdmitted(s) && Chain(s.world.trace, s.world.state)
    ensures GatesAdmitted(Apply(s, Advance(i)))
  {
    if i < |s.tasks| && !s.tasks[i].script.End? {
      TraceGrows(s.world, s.tasks[i].askedAt, s.tasks[i].script.step);
      assert StateAfter(s.world.trace, |s.world.trace|) == s.world.state;
    }
  }

  lemma {:induction false} GatesAlwaysAdmitted(actions: seq<Action>)
    ensures GatesAdmitted(Run(actions))
  {
    if actions != [] {
      var init, last := actions[..|actions| - 1], actions[|actions| - 1];
      GatesAlwaysAdmitted(init);
      PathsAreLegal(init);
      if last.Advance? {
        AdvanceKeepsGates(Run(init), last.task);
      }
    }
  }

  /** At a transition whose gate admitted the state then: what a refusal means for the trace. */
  lemma RefusedIff(trace: seq<Change>, state: SessionState, askedAt: nat, op: Operation, target: SessionState)
    requires Chain(trace, state) && askedAt <= |trace| && TargetOf(op) == Some(target)
    requires IsAllowed(op, StateAfter(trace, askedAt))
    ensures state !in ValidPredecessors(target) <==>
            askedAt < |trace| && trace[|trace| - 1].to !in ValidPredecessors(target)
    ensures target == Initialized ==> (state !in ValidPredecessors(target) <==> state != Connected)
    ensures state in ValidPredecessors(target) <==> CanTransitionTo(state, target)
  {
    TablesAgree(state, target, op);
    TablesAgree(StateAfter(trace, askedAt), target, op);
  }

  lemma TransitionGate(actions: seq<Action>, s: System, i: nat, op: Operation, target: SessionState)
    requires s == Run(actions) && i < |s.tasks| && s.tasks[i].gate == Some(op)
    requires s.tasks[i].script.Do? && s.tasks[i].script.step.Transition? && target == s.tasks[i].script.step.target
    ensures TargetOf(op) == Some(target) && Chain(s.world.trace, s.world.state)
    ensures s.tasks[i].askedAt <= |s.world.trace| && IsAllowed(op, StateAfter(s.world.trace, s.tasks[i].askedAt))
  {
    TasksAreWellBuilt(actions);
    GatesAlwaysAdmitted(actions);
    PathsAreLegal(actions);
  }

  /**
   In every run, a call that passed a gate is refused its transition exactly if some transition was
   made since the gate and the last one led to a state from which the call's target is not legal.
   So with none made since its gate it is never refused, and `initialize` is refused exactly if the
   session has left Connected; a call that is not refused leads to its target, and one that is ends
   and leaves the session as it was.
   */
  lemma GatedTransitionRefusedIff(actions: seq<Action>, s: System, i: nat, op: Operation, target: SessionState)
    requires s == Run(actions) && i < |s.tasks| && s.tasks[i].gate == Some(op)
    requires s.tasks[i].script.Do? && s.tasks[i].script.step.Transition? && target == s.tasks[i].script.step.target
    ensures TargetOf(op) == Some(target)
    ensures WillBeRefused(s, i) <==>
            && s.tasks[i].askedAt < |s.world.trace|
            && s.world.trace[|s.world.trace| - 1].to !in ValidPredecessors(target)
    ensures op == Initialize ==> (WillBeRefused(s, i) <==> s.world.state != Connected)
    ensures !WillBeRefused(s, i) ==> Apply(s, Advance(i)).world.state == target
    ensures WillBeRefused(s, i) ==>
              Apply(s, Advance(i)).world == s.world && Apply(s, Advance(i)).tasks[i].script == End
  {
    TransitionGate(actions, s, i, op, target);
    RefusalChangesNothing(s, i);
    RefusedIff(s.world.trace, s.world.state, s.tasks[i].askedAt, op, target);
  }

  // ----- handles

  /** A step that caches variables does so in the halt their values were asked for in. */
  predicate InTime(s: System, a: Action) {
    var step := StepOf(s, a);
    step.Some? && step.value.CacheVariables? && step.value.entries != [] ==>
      s.world.state == Halted && s.tasks[a.task].askedAt == |s.world.trace|
  }

  /** In no step of the run did a transition come between asking for variables and caching them. */
  predicate CachesAreInTime(actions: seq<Action>) {
    actions != [] ==>
      CachesAreInTime(actions[..|actions| - 1]) && InTime(Run(actions[..|actions| - 1]), actions[|actions| - 1])
  }

  ghost predicate AlwaysFresh(actions: seq<Action>) {
    Fresh(Run(actions).world) && (actions != [] ==> AlwaysFresh(actions[..|actions| - 1]))
  }

  lemma ActionKeepsFresh(s: System, a: Action)
    requires Fresh(s.world)
    ensures Fresh(Apply(s, a).world) <==> InTime(s, a)
  {
    if StepOf(s, a).Some? {
      StepKeepsFresh(s.world, s.tasks[a.task].askedAt, StepOf(s, a).value);
    }
  }

  /**
   Handles stay fresh throughout a run exactly if no transition came between a successful
   `get_variables` gate and the caching of its (non-empty) answer.
   */
  lemma {:induction false} FreshIffInTime(actions: seq<Action>)
    ensures AlwaysFresh(actions) <==> CachesAreInTime(actions)
  {
    if actions != [] {
      var init, last := actions[..|actions| - 1], actions[|actions| - 1];
      FreshIffInTime(init);
      if AlwaysFresh(init) {
        ActionKeepsFresh(Run(init), last);
      }
    }
  }

  lemma {:induction false} CacheAlwaysFollows(actions: seq<Action>)
    ensures CacheFollows(Run(actions).world)
  {
    if actions == [] {
      NothingIndexed();
    } else {
      var init, last := actions[..|actions| - 1], actions[|actions| - 1];
      CacheAlwaysFollows(init);
      var s := Run(init);
      if StepOf(s, last).Some? {
        StepFollows(s.world, s.tasks[last.task].askedAt, StepOf(s, last).value);
      }
    }
  }

  /** In such a run the cache is empty outside a halt and holds only the current halt's variables. */
  lemma HandlesStayFresh(actions: seq<Action>, w: World)
    requires CachesAreInTime(actions) && w == Run(actions).world
    ensures w.variables.entries != map[] ==> w.state == Halted
    ensures forall e: VariableCache.Entry :: e in VariableCache.Bucket(w.variables.entries, e.name) ==>
              Stamped(e, |w.trace|) in w.cached
  {
    FreshIffInTime(actions);
    CacheAlwaysFollows(actions);
    FreshMeaning(w);
  }

  // ----- session state and process

  ghost predicate SomeOpening(s: System, but: int) {
    exists i: nat :: i < |s.tasks| && i != but && Opening(s.tasks[i].script)
  }

  ghost predicate SomeClosing(s: System, but: int) {
    exists i: nat :: i < |s.tasks| && i != but && Closing(s.tasks[i].script)
  }

  /** State and process disagree at most while a call is under way that is about to repair it. */
  ghost predicate Agrees(s: System) {
    && (s.world.state == Disconnected && s.world.child ==> SomeOpening(s, -1))
    && (s.world.state != Disconnected && !s.world.child ==> SomeClosing(s, -1))
  }

  /**
   The step does not finish its call with a disagreement that no other call is about to repair: who
   connects finds the process or another call about to close; who finishes closing finds no
   process or another call about to connect.
   */
  ghost predicate Settles(s: System, a: Action) {
    var step := StepOf(s, a);
    && (step.Some? && step.value.Transition? && step.value.target == Connected && s.world.state == Disconnected ==>
          s.world.child || SomeClosing(s, a.task))
    && (step.Some? && Finishes(s.world, step.value) ==> !s.world.child || SomeOpening(s, a.task))
  }

  /** The last step of closing: the session is, or becomes, disconnected. */
  predicate Finishes(w: World, step: Step) {
    || (step.Transition? && step.target == Disconnected)
    || (step == StopIf(Disconnected) && w.state == Disconnected)
  }

  /** The other tasks are about to do what they were. */
  lemma OthersStay(s: System, i: nat)
    requires i < |s.tasks|
    ensures SomeOpening(Apply(s, Advance(i)), i) <==> SomeOpening(s, i)
    ensures SomeClosing(Apply(s, Advance(i)), i) <==> SomeClosing(s, i)
  {
    var t := Apply(s, Advance(i));
    assert forall k: nat :: k < |s.tasks| && k != i ==> t.tasks[k] == s.tasks[k];
  }

  lemma AllOrOthers(s: System, i: nat)
    requires i < |s.tasks|
    ensures SomeOpening(s, -1) <==> SomeOpening(s, i) || Opening(s.tasks[i].script)
    ensures SomeClosing(s, -1) <==> SomeClosing(s, i) || Closing(s.tasks[i].script)
  {
  }

  /** What the own step of task `i` does to state, process, and what it is about to do. */
  lemma OwnStep(s: System, i: nat)
    requires AllWellBuilt(s) && i < |s.tasks| && !s.tasks[i].script.End?
    ensures var w, t, step := s.world, Apply(s, Advance(i)), s.tasks[i].script.step;
            var left := t.tasks[i].script;
            && (Opening(s.tasks[i].script) && !Opening(left) ==> step.Transition? && step.target == Connected)
            && (Closing(s.tasks[i].script) && !Closing(left) ==> Finishes(w, step))
            && (Finishes(w, step) ==> !Opening(left) && !Closing(left) && t.world.state == Disconnected)
            && (step.Transition? ==> !Opening(left) && !Closing(left))
            && (t.world.child != w.child ==> if t.world.child then Opening(left) else Closing(left))
            && (!step.Transition? ==> t.world.state == w.state)
            && (step.Transition? ==> t.world.child == w.child)
            && (step.Transition? ==>
                  t.world.state == if CanTransitionTo(w.state, step.target) then step.target else w.state)
  {
  }

  lemma AdvanceKeepsAgreement(s: System, i: nat)
    requires AllWellBuilt(s) && Agrees(s)
    ensures Agrees(Apply(s, Advance(i))) <==> Settles(s, Advance(i))
  {
    if i < |s.tasks| && !s.tasks[i].script.End? {
      OthersStay(s, i);
      AllOrOthers(s, i);
      AllOrOthers(Apply(s, Advance(i)), i);
      OwnStep(s, i);
    }
  }

  lemma ActionKeepsAgreement(s: System, a: Action)
    requires AllWellBuilt(s) && Agrees(s)
    ensures Agrees(Apply(s, a)) <==> Settles(s, a)
  {
    if a.Advance? {
      AdvanceKeepsAgreement(s, a.task);
    } else {
      var t := Apply(s, a);
      assert forall k: nat :: k < |s.tasks| ==> t.tasks[k] == s.tasks[k];
      if a.Begin? {
        ScriptsBeginApart(a.call);
      }
    }
  }

  lemma ScriptsBeginApart(call: Call)
    ensures !Opening(ScriptOf(call)) && !Closing(ScriptOf(call))
  {
  }

  ghost predicate AlwaysAgrees(actions: seq<Action>) {
    Agrees(Run(actions)) && (actions != [] ==> AlwaysAgrees(actions[..|actions| - 1]))
  }

  ghost predicate AlwaysSettles(actions: seq<Action>) {
    actions != [] ==>
      AlwaysSettles(actions[..|actions| - 1]) && Settles(Run(actions[..|actions| - 1]), actions[|actions| - 1])
  }

  /**
   Throughout a run state and process disagree at most while a call is about to repair it, exactly if
   every step that connects or finishes closing settles.
   */
  lemma {:induction false} AgreesIffSettles(actions: seq<Action>)
    ensures AlwaysAgrees(actions) <==> AlwaysSettles(actions)
  {
    if actions != [] {
      var init, last := actions[..|actions| - 1], actions[|actions| - 1];
      AgreesIffSettles(init);
      TasksAreWellBuilt(init);
      if AlwaysAgrees(init) {
        ActionKeepsAgreement(Run(init), last);
      }
    }
  }

  /** Nothing is between spawning and connecting, or between killing and closing. */
  ghost predicate Quiet(s: System) { !SomeOpening(s, -1) && !SomeClosing(s, -1) }

  /**
   So in such a run, whenever nothing is in between: the session is disconnected exactly if there
   is no process, and it can be started or shut down, which leaves no process.
   */
  lemma QuietSessionsAgree(actions: seq<Action>, s: System, kind: AdapterKind)
    requires s == Run(actions) && AlwaysSettles(actions) && Quiet(s)
    ensures s.world.state == Disconnected <==> !s.world.child
    ensures s.world.state == Disconnected ==>
              && Effect(s.world, StartCall(kind, true)).ok
              && Effect(s.world, StartCall(kind, true)).world.state == Connected
    ensures s.world.state != Disconnected ==>
              Effect(s.world, ShutdownCall).ok && !Effect(s.world, ShutdownCall).world.child
  {
    AgreesIffSettles(actions);
  }

  /** A sufficient condition that looks at the process alone. */
  ghost predicate FindsProcess(s: System, a: Action) {
    var step := StepOf(s, a);
    && (step.Some? && step.value.Transition? && step.value.target == Connected ==> s.world.child)
    && (step.Some? && Finishes(s.world, step.value) ==> !s.world.child)
  }

  lemma FindingProcessSettles(s: System, a: Action)
    requires FindsProcess(s, a)
    ensures Settles(s, a)
  {
  }

  // ----- what interleaving can break

  /** Task `i` is at `script`. */
  ghost predicate Holds(s: System, i: nat, script: Script, askedAt: nat) {
    i < |s.tasks| && s.tasks[i].script == script && s.tasks[i].askedAt == askedAt
  }

  /** `s` is the end of some run. */
  ghost predicate Reachable(s: System) { exists actions :: Run(actions) == s }

  /** The first `n` tasks are as they were. */
  ghost predicate Keeps(s: System, t: System, n: nat) {
    n <= |s.tasks| <= |t.tasks| && forall k: nat :: k < n ==> t.tasks[k] == s.tasks[k]
  }

  /** A set of systems that no step leaves, such as the reachable ones. */
  ghost predicate StepClosed(r: iset<System>) {
    forall s: System, a: Action {:trigger Apply(s, a)} :: s in r ==> Apply(s, a) in r
  }

  ghost function ReachableSystems(): iset<System> { iset s: System | Reachable(s) }

  lemma ReachableIsStepClosed()
    ensures StepClosed(ReachableSystems()) && IDLE in ReachableSystems()
  {
    forall s: System, a: Action | Reachable(s)
      ensures Reachable(Apply(s, a))
    {
      var actions :| Run(actions) == s;
      ApplyOneMore(IDLE, actions, a);
      assert Run(actions + [a]) == Apply(s, a);
    }
    assert Run([]) == IDLE;
  }

  lemma {:induction false} RunsStayIn(r: iset<System>, s: System, actions: seq<Action>)
    requires StepClosed(r) && s in r
    ensures ApplyAll(s, actions) in r
  {
    if actions != [] {
      RunsStayIn(r, s, actions[..|actions| - 1]);
    }
  }

  /** A new call, under way at its first step. */
  lemma Begun(r: iset<System>, s: System, call: Call) returns (t: System)
    requires StepClosed(r) && s in r
    ensures t in r && t.world == s.world && |t.tasks| == |s.tasks| + 1 && Keeps(s, t, |s.tasks|)
    ensures Holds(t, |s.tasks|, ScriptOf(call), |s.world.trace|)
  {
    t := Apply(s, Begin(call));
  }

  /** One more step of task `i`, which goes on; task `other` waits. */
  lemma Advanced(r: iset<System>, s: System, i: nat, askedAt: nat, step: Step, next: Script, other: nat)
    returns (t: System)
    requires StepClosed(r) && s in r && Holds(s, i, Do(step, next), askedAt) && ExecVerdict(s.world, step) == Proceed
    ensures t in r && t.world == ExecWorld(s.world, askedAt, step) && |t.tasks| == |s.tasks| && Keeps(s, t, i)
    ensures Holds(t, i, next, if step.Gate? then |s.world.trace| else askedAt)
    ensures other < |s.tasks| && other != i ==> t.tasks[other] == s.tasks[other]
  {
    t := Apply(s, Advance(i));
  }

  /** A whole call while the others wait. */
  lemma WholeCall(r: iset<System>, s: System, call: Call) returns (t: System)
    requires StepClosed(r) && s in r
    ensures t in r && t.world == Effect(s.world, call).world
    ensures |t.tasks| == |s.tasks| + 1 && Keeps(s, t, |s.tasks|) && t.tasks[|s.tasks|].script.End?
  {
    var begun := Begun(r, s, call);
    EffectIsWholeScript(s.world, call);
    var rest := AdvanceToEnd(begun, |s.tasks|);
    t := ApplyAll(begun, rest);
    RunsStayIn(r, begun, rest);
  }

  /** A call that asks the adapter, up to the answer. */
  lemma AskedAndAnswered(r: iset<System>, s: System, call: Call, op: Operation, rest: Script) returns (t: System)
    requires StepClosed(r) && s in r && IsAllowed(op, s.world.state)
    requires ScriptOf(call) == Do(Gate(op), Do(Ask(true), rest))
    ensures t in r && t.world == s.world && |t.tasks| == |s.tasks| + 1 && Keeps(s, t, |s.tasks|)
    ensures Holds(t, |s.tasks|, rest, |s.world.trace|)
  {
    var n, at := |s.tasks|, |s.world.trace|;
    t := Begun(r, s, call);
    t := Advanced(r, t, n, at, Gate(op), Do(Ask(true), rest), n);
    t := Advanced(r, t, n, at, Ask(true), rest, n);
  }

  /** What whole events and calls that come between the steps of another call lead to. */
  lemma WhatTheyLeadTo(w: World, kind: AdapterKind)
    ensures w.state == Halted ==> Effect(w, Delivered(ContinuedEvent)).world.state == Running
    ensures w.state == Halted ==> w.trace < Effect(w, Delivered(ContinuedEvent)).world.trace
    ensures w.state == Connected ==> Effect(w, Delivered(InitializedEvent)).world.state == Initialized
    ensures w.state == Disconnected ==> Effect(w, Delivered(TerminatedEvent)).world == w.(child := false)
    ensures w.state == Connected ==> Effect(w, ShutdownCall).world.state == Disconnected
    ensures w.state == Connected ==> !Effect(w, ShutdownCall).world.child
    ensures w.state == Disconnected && !w.child ==>
              Effect(w, StartCall(kind, true)).world.state == Connected && Effect(w, StartCall(kind, true)).world.child
  {
  }

  lemma Continued(r: iset<System>, s: System) returns (t: System)
    requires StepClosed(r) && s in r && s.world.state == Halted
    ensures t in r && t.world.state == Running && |t.tasks| == |s.tasks| + 1 && Keeps(s, t, |s.tasks|)
    ensures s.world.trace < t.world.trace
  {
    WhatTheyLeadTo(s.world, Gdb);
    t := WholeCall(r, s, Delivered(ContinuedEvent));
  }

  lemma InitializedByEvent(r: iset<System>, s: System) returns (t: System)
    requires StepClosed(r) && s in r && s.world.state == Connected
    ensures t in r && t.world.state == Initialized && |t.tasks| == |s.tasks| + 1 && Keeps(s, t, |s.tasks|)
  {
    WhatTheyLeadTo(s.world, Gdb);
    t := WholeCall(r, s, Delivered(InitializedEvent));
  }

  lemma TerminatedLate(r: iset<System>, s: System) returns (t: System)
    requires StepClosed(r) && s in r && s.world.state == Disconnected
    ensures t in r && t.world.state == Disconnected && !t.world.child
    ensures |t.tasks| == |s.tasks| + 1 && Keeps(s, t, |s.tasks|) && t.tasks[|s.tasks|].script.End?
  {
    WhatTheyLeadTo(s.world, Gdb);
    t := WholeCall(r, s, Delivered(TerminatedEvent));
  }

  lemma Restarted(r: iset<System>, s: System, kind: AdapterKind) returns (t: System)
    requires StepClosed(r) && s in r && s.world.state == Connected
    ensures t in r && t.world.state == Connected && t.world.child
    ensures |t.tasks| == |s.tasks| + 2 && Keeps(s, t, |s.tasks|)
    ensures t.tasks[|s.tasks|].script.End? && t.tasks[|s.tasks| + 1].script.End?
  {
    WhatTheyLeadTo(s.world, kind);
    var down := WholeCall(r, s, ShutdownCall);
    WhatTheyLeadTo(down.world, kind);
    t := WholeCall(r, down, StartCall(kind, true));
  }

  lemma Handshake(w: World, stop: Option<StopBody>)
    ensures w.state == Connected ==> Effect(w, InitializeCall(true)).world.state == Initialized
    ensures w.state == Initialized ==> Effect(w, ConfigureCall(true)).world.state == Running
    ensures w.state == Running ==> Effect(w, Delivered(StoppedEvent(stop))).world.state == Halted
    ensures Effect(w, Delivered(StoppedEvent(stop))).world.halt == Recorded(stop)
  {
  }

  /** A halt is reachable, with whatever the stop says. */
  lemma HaltIsReachable(kind: AdapterKind, stop: Option<StopBody>) returns (s: System)
    ensures s in ReachableSystems() && s.world.state == Halted && s.world.halt == Recorded(stop)
  {
    var r := ReachableSystems();
    ReachableIsStepClosed();
    s := NextHalt(r, IDLE, kind, stop);
  }

  /**
   From any halt: if a `continued` event comes between the answer to `get_variables` and its
   caching, the session ends up running with the variables of the past halt in its cache.
   */
  lemma StaleHandlesAreReachable(r: iset<System>, s: System, v: Variable, frameId: Option<nat>,
                                 scopeName: Option<string>) returns (t: System, entry: VariableCache.Entry)
    requires StepClosed(r) && s in r && s.world.state == Halted
    ensures t in r && t.world.state == Running && !Fresh(t.world)
    ensures entry in VariableCache.Bucket(t.world.variables.entries, v.name)
    ensures entry.variablesReference == v.variablesReference && entry.frameId == frameId && entry.scopeName == scopeName
    ensures s.world.trace < t.world.trace && AskedAt(t.world, |s.world.trace|)
  {
    var n, at := |s.tasks|, |s.world.trace|;
    entry := EntryOf(v, frameId, scopeName);
    assert EntriesFrom([v], frameId, scopeName) == [entry];
    var last := Do(CacheVariables([entry]), End);
    t := AskedAndAnswered(r, s, VariablesCall(Some([v]), frameId, scopeName), GetVariables, last);
    t := Continued(r, t);
    var w := t.world;
    t := Advanced(r, t, n, at, CacheVariables([entry]), End, n);
    CachedOne(w, entry, at);
  }

  lemma CachedOne(w: World, entry: VariableCache.Entry, askedAt: nat)
    ensures entry in VariableCache.Bucket(Cached(w, [entry], askedAt).variables.entries, entry.name)
    ensures Cached(w, [entry], askedAt).cached != [] && AskedAt(Cached(w, [entry], askedAt), askedAt)
  {
    assert Cached(w, [entry], askedAt).cached[|w.cached|].askedAt == askedAt;
  }

  /** Something in the cache was asked for when `n` transitions had been made. */
  ghost predicate AskedAt(w: World, n: nat) { exists k :: 0 <= k < |w.cached| && w.cached[k].askedAt == n }

  /** The same cache, later. */
  ghost predicate SameHandles(a: World, b: World) {
    a.variables == b.variables && a.cached == b.cached && a.trace < b.trace
  }

  /** Shutting a running session down leaves the cache alone, */
  lemma ShutdownKeepsHandles(w: World)
    requires w.state == Running
    ensures var t := Effect(w, ShutdownCall).world;
            && SameHandles(w, t) && t.state == Disconnected && !t.child
            && t.trace == w.trace + [Change(Running, Disconnected, "shutdown", w.receivers != map[])]
  {
  }

  /** and so does everything up to the next session's halt. */
  lemma HandshakeKeepsHandles(w: World, kind: AdapterKind)
    ensures w.state == Disconnected && !w.child ==> SameHandles(w, Effect(w, StartCall(kind, true)).world)
    ensures w.state == Connected ==> SameHandles(w, Effect(w, InitializeCall(true)).world)
    ensures w.state == Initialized ==> SameHandles(w, Effect(w, ConfigureCall(true)).world)
  {
  }

  lemma StopKeepsHandles(w: World, stop: Option<StopBody>)
    requires w.state == Running
    ensures SameHandles(w, Effect(w, Delivered(StoppedEvent(stop))).world)
  {
  }

  /**
   Such handles outlive even their session: if it is then shut down and another adapter is started and
   halts, a lookup in that halt still finds them, for only leaving a halt invalidates the cache.
   */
  lemma StaleHandlesOutliveTheirSession(r: iset<System>, s: System, v: Variable, frameId: Option<nat>,
                                        scopeName: Option<string>, kind: AdapterKind, stop: Option<StopBody>)
    returns (t: System, entry: VariableCache.Entry, closed: nat)
    requires StepClosed(r) && s in r && s.world.state == Halted
    ensures t in r && t.world.state == Halted && t.world.halt == Recorded(stop) && t.world.kind == Some(kind)
    ensures |s.world.trace| <= closed < |t.world.trace| && t.world.trace[closed].to == Disconnected
    ensures !Fresh(t.world) && entry in VariableCache.Bucket(t.world.variables.entries, v.name)
    ensures entry.variablesReference == v.variablesReference && entry.frameId == frameId && entry.scopeName == scopeName
  {
    t, entry := StaleHandlesAreReachable(r, s, v, frameId, scopeName);
    ShutdownKeepsHandles(t.world);
    closed := |t.world.trace|;
    t := WholeCall(r, t, ShutdownCall);
    t := NextHalt(r, t, kind, stop);
  }

  /** From a disconnected session without a process to the halt of the next. */
  lemma NextHalt(r: iset<System>, s: System, kind: AdapterKind, stop: Option<StopBody>) returns (t: System)
    requires StepClosed(r) && s in r && s.world.state == Disconnected && !s.world.child
    ensures t in r && t.world.state == Halted && t.world.halt == Recorded(stop) && SameHandles(s.world, t.world)
    ensures t.world.kind == Some(kind)
  {
    WhatTheyLeadTo(s.world, kind);
    HandshakeKeepsHandles(s.world, kind);
    t := WholeCall(r, s, StartCall(kind, true));
    Handshake(t.world, stop);
    HandshakeKeepsHandles(t.world, kind);
    t := WholeCall(r, t, InitializeCall(true));
    Handshake(t.world, stop);
    HandshakeKeepsHandles(t.world, kind);
    t := WholeCall(r, t, ConfigureCall(true));
    Handshake(t.world, stop);
    StopKeepsHandles(t.world, stop);
    t := WholeCall(r, t, Delivered(StoppedEvent(stop)));
  }

  /**
   From any connected session: if the `initialized` event comes before `initialize` has its
   answer recorded, the call is refused its transition although the session is initialized.
   */
  lemma InitializeCanLoseItsTransition(r: iset<System>, s: System) returns (t: System)
    requires StepClosed(r) && s in r && s.world.state == Connected
    ensures t in r && t.world.state == Initialized && t.world.capable && WillBeRefused(t, |s.tasks|)
  {
    var n, at := |s.tasks|, |s.world.trace|;
    var last := Do(Transition(Initialized, "initialize"), End);
    t := AskedAndAnswered(r, s, InitializeCall(true), Initialize, Do(SetCapable, last));
    t := InitializedByEvent(r, t);
    t := Advanced(r, t, n, at, SetCapable, last, n);
  }

  /** Starting an adapter, up to its process being spawned. */
  lemma Spawned(r: iset<System>, s: System, kind: AdapterKind, rest: Script) returns (t: System)
    requires StepClosed(r) && s in r && s.world.state == Disconnected && !s.world.child
    requires ScriptOf(StartCall(kind, true)) == Do(Gate(Start), Do(Spawn(true), rest))
    ensures t in r && t.world == s.world.(child := true) && |t.tasks| == |s.tasks| + 1
    ensures Holds(t, |s.tasks|, rest, |s.world.trace|) && Keeps(s, t, |s.tasks|)
  {
    var n, at := |s.tasks|, |s.world.trace|;
    t := Begun(r, s, StartCall(kind, true));
    t := Advanced(r, t, n, at, Gate(Start), Do(Spawn(true), rest), n);
    t := Advanced(r, t, n, at, Spawn(true), rest, n);
  }

  /**
   From any session never heard to leave Disconnected, with nobody listening: who subscribes after
   an adapter has started still sees the session disconnected.
   */
  lemma LateSubscriberIsStale(r: iset<System>, s: System, kind: AdapterKind, receiver: nat) returns (t: System)
    requires StepClosed(r) && s in r && s.world.state == Disconnected && !s.world.child
    requires s.world.receivers == map[] && s.world.watched == Disconnected
    ensures t in r && receiver in t.world.receivers
    ensures t.world.state == Connected && t.world.watched == Disconnected
  {
    t := WholeCall(r, s, StartCall(kind, true));
    t := Apply(t, Subscribe(receiver));
  }

  /** The calls begun since are over, and the others are as they were. */
  ghost predicate EndedSince(s: System, t: System) {
    Keeps(s, t, |s.tasks|) && forall k: nat :: |s.tasks| <= k < |t.tasks| ==> t.tasks[k].script.End?
  }

  /** So if nothing was in between before, nothing will repair a disagreement they left. */
  lemma NothingRepairs(s: System, t: System)
    requires EndedSince(s, t) && Quiet(s)
    ensures Quiet(t)
    ensures Agrees(t) <==> (t.world.state == Disconnected <==> !t.world.child)
  {
  }

  /** If the new tasks after the first have ended in `a`, and the first has in `t`, all have in `t`. */
  lemma LastOnesEnded(s: System, a: System, t: System)
    requires Keeps(s, a, |s.tasks|) && |s.tasks| < |a.tasks| == |t.tasks|
    requires forall k: nat :: |s.tasks| < k < |a.tasks| ==> a.tasks[k].script.End?
    requires forall k: nat :: k < |a.tasks| && k != |s.tasks| ==> t.tasks[k] == a.tasks[k]
    requires t.tasks[|s.tasks|].script.End?
    ensures EndedSince(s, t)
  {
  }

  /**
   From any disconnected session without a process: if a late `terminated` event is handled
   while the adapter starts, the session ends up connected without a process when both are over.
   */
  lemma ConnectedWithoutProcess(r: iset<System>, s: System, kind: AdapterKind) returns (t: System)
    requires StepClosed(r) && s in r && s.world.state == Disconnected && !s.world.child
    ensures t in r && t.world.state == Connected && !t.world.child
    ensures EndedSince(s, t)
  {
    var b := StartInterrupted(r, s, kind);
    t := Connects(r, b, |s.tasks|, |s.world.trace|, kind);
    LastOnesEnded(s, b, t);
  }

  /** A start that has spawned its process, which a whole `terminated` event then kills. */
  lemma StartInterrupted(r: iset<System>, s: System, kind: AdapterKind) returns (t: System)
    requires StepClosed(r) && s in r && s.world.state == Disconnected && !s.world.child
    ensures t in r && t.world.state == Disconnected && !t.world.child
    ensures |t.tasks| == |s.tasks| + 2 && Keeps(s, t, |s.tasks|) && t.tasks[|s.tasks| + 1].script.End?
    ensures Holds(t, |s.tasks|, Do(SetKind(kind), Do(Transition(Connected, "start"), End)), |s.world.trace|)
  {
    var a := Spawned(r, s, kind, Do(SetKind(kind), Do(Transition(Connected, "start"), End)));
    t := TerminatedLate(r, a);
  }

  /** The rest of a start, in a disconnected session. */
  lemma Connects(r: iset<System>, s: System, n: nat, askedAt: nat, kind: AdapterKind) returns (t: System)
    requires StepClosed(r) && s in r && s.world.state == Disconnected
    requires Holds(s, n, Do(SetKind(kind), Do(Transition(Connected, "start"), End)), askedAt)
    ensures t in r && t.world.state == Connected && t.world.child == s.world.child
    ensures |t.tasks| == |s.tasks| && t.tasks[n].script.End?
    ensures forall k: nat :: k < |s.tasks| && k != n ==> t.tasks[k] == s.tasks[k]
  {
    var last := Do(Transition(Connected, "start"), End);
    var a := AdvancedAlone(r, s, n, askedAt, SetKind(kind), last);
    t := AdvancedAlone(r, a, n, askedAt, Transition(Connected, "start"), End);
  }

  /** From any connected session: a `terminated` event that has killed the process and waits. */
  lemma Killed(r: iset<System>, s: System) returns (t: System)
    requires StepClosed(r) && s in r
    ensures t in r && t.world == s.world.(child := false) && |t.tasks| == |s.tasks| + 1
    ensures Holds(t, |s.tasks|, CloseScript("event:terminated"), |s.world.trace|) && Keeps(s, t, |s.tasks|)
  {
    t := Begun(r, s, Delivered(TerminatedEvent));
    t := Advanced(r, t, |s.tasks|, |s.world.trace|, Kill, CloseScript("event:terminated"), |s.tasks|);
  }

  /** Closing a session that is not disconnected, whatever has happened since the process was killed. */
  lemma ClosedLate(r: iset<System>, s: System, n: nat, askedAt: nat, reason: string) returns (t: System)
    requires StepClosed(r) && s in r && Holds(s, n, CloseScript(reason), askedAt) && s.world.state != Disconnected
    ensures t in r && t.world.state == Disconnected && t.world.child == s.world.child
    ensures |t.tasks| == |s.tasks| && t.tasks[n].script.End?
    ensures forall k: nat :: k < |s.tasks| && k != n ==> t.tasks[k] == s.tasks[k]
  {
    var clear := Do(UpdateBreakpoints(Breakpoints.Clear), End);
    var a := AdvancedAlone(r, s, n, askedAt, StopIf(Disconnected), Do(Transition(Disconnected, reason), clear));
    t := LeavesAndClears(r, a, n, askedAt, reason);
  }

  lemma LeavesAndClears(r: iset<System>, s: System, n: nat, askedAt: nat, reason: string) returns (t: System)
    requires StepClosed(r) && s in r && s.world.state != Disconnected
    requires Holds(s, n, Do(Transition(Disconnected, reason), Do(UpdateBreakpoints(Breakpoints.Clear), End)), askedAt)
    ensures t in r && t.world.state == Disconnected && t.world.child == s.world.child
    ensures |t.tasks| == |s.tasks| && t.tasks[n].script.End?
    ensures forall k: nat :: k < |s.tasks| && k != n ==> t.tasks[k] == s.tasks[k]
  {
    var clear := Do(UpdateBreakpoints(Breakpoints.Clear), End);
    var a := AdvancedAlone(r, s, n, askedAt, Transition(Disconnected, reason), clear);
    t := AdvancedAlone(r, a, n, askedAt, UpdateBreakpoints(Breakpoints.Clear), End);
  }

  /** One more step of task `i`, which goes on; all others wait. */
  lemma AdvancedAlone(r: iset<System>, s: System, i: nat, askedAt: nat, step: Step, next: Script) returns (t: System)
    requires StepClosed(r) && s in r && Holds(s, i, Do(step, next), askedAt)
    requires ExecVerdict(s.world, step) == Proceed && !step.Gate?
    ensures t in r && t.world == ExecWorld(s.world, askedAt, step) && |t.tasks| == |s.tasks|
    ensures Holds(t, i, next, askedAt) && forall k: nat :: k < |s.tasks| && k != i ==> t.tasks[k] == s.tasks[k]
  {
    t := Apply(s, Advance(i));
  }

  /**
   From any connected session: if it is shut down and started again while a `terminated` event is
   being handled, it ends up disconnected with a process when all are over, where every start and
   the shutdown are refused.
   */
  lemma DisconnectedWithProcess(r: iset<System>, s: System, kind: AdapterKind) returns (t: System)
    requires StepClosed(r) && s in r && s.world.state == Connected
    ensures t in r && t.world.state == Disconnected && t.world.child
    ensures forall k, spawned :: !Effect(t.world, StartCall(k, spawned)).ok
    ensures !Effect(t.world, ShutdownCall).ok
    ensures EndedSince(s, t)
  {
    var n, at := |s.tasks|, |s.world.trace|;
    var a := Killed(r, s);
    var c := Restarted(r, a, kind);
    t := ClosedLate(r, c, n, at, "event:terminated");
    NeitherStartsNorStops(t.world);
    LastOnesEnded(s, c, t);
  }

  lemma NeitherStartsNorStops(w: World)
    requires w.state == Disconnected && w.child
    ensures forall k, spawned :: !Effect(w, StartCall(k, spawned)).ok
    ensures !Effect(w, ShutdownCall).ok
  {
  }

  /**
   That every connecting step finds the process is more than agreement needs: if the process is
   killed during a start, connecting without it still settles, because the closing follows.
   */
  lemma ProcessNeedNotBeFound(r: iset<System>, s: System, kind: AdapterKind) returns (t: System)
    requires StepClosed(r) && s in r && s.world.state == Disconnected && !s.world.child
    ensures t in r && !FindsProcess(t, Advance(|s.tasks|)) && Settles(t, Advance(|s.tasks|))
  {
    var n, at := |s.tasks|, |s.world.trace|;
    var last := Do(Transition(Connected, "start"), End);
    var a := Spawned(r, s, kind, Do(SetKind(kind), last));
    var b := Killed(r, a);
    assert Closing(b.tasks[n + 1].script);
    t := AdvancedAlone(r, b, n, at, SetKind(kind), last);
    assert Closing(t.tasks[n + 1].script);
  }

  // ----- whole calls are runs

  /** The number of steps in all branches of a script. */
  function Steps(script: Script): nat {
    match script
    case End => 0
    case Do(_, next) => 1 + Steps(next)
    case Or(_, next, otherwise) => 1 + Steps(next) + Steps(otherwise)
  }

  /** Advance a task until its script ends; the others wait. */
  lemma {:induction false} AdvanceToEnd(s: System, i: nat) returns (actions: seq<Action>)
    requires i < |s.tasks|
    ensures ApplyAll(s, actions).world == RunScript(s.world, s.tasks[i].askedAt, s.tasks[i].script).world
    ensures |ApplyAll(s, actions).tasks| == |s.tasks| && ApplyAll(s, actions).tasks[i].script.End?
    ensures forall k: nat :: k < |s.tasks| && k != i ==> ApplyAll(s, actions).tasks[k] == s.tasks[k]
    decreases Steps(s.tasks[i].script)
  {
    actions := [];
    if !s.tasks[i].script.End? {
      var t := Advances(s, i);
      var rest := AdvanceToEnd(t, i);
      actions := [Advance(i)] + rest;
      ApplyFirst(s, Advance(i), rest);
    }
  }

  /** One step of task `i` leaves what the rest of its script does, and the other tasks. */
  lemma Advances(s: System, i: nat) returns (t: System)
    requires i < |s.tasks| && !s.tasks[i].script.End?
    ensures t == Apply(s, Advance(i)) && |t.tasks| == |s.tasks| && Steps(t.tasks[i].script) < Steps(s.tasks[i].script)
    ensures forall k: nat :: k < |s.tasks| && k != i ==> t.tasks[k] == s.tasks[k]
    ensures RunScript(s.world, s.tasks[i].askedAt, s.tasks[i].script).world ==
            RunScript(t.world, t.tasks[i].askedAt, t.tasks[i].script).world
  {
    t := Apply(s, Advance(i));
    AdvanceRuns(s, i);
  }

  lemma AdvanceRuns(s: System, i: nat)
    requires i < |s.tasks| && !s.tasks[i].script.End?
    ensures var t := Apply(s, Advance(i));
            RunScript(s.world, s.tasks[i].askedAt, s.tasks[i].script).world ==
            RunScript(t.world, t.tasks[i].askedAt, t.tasks[i].script).world
  {
  }

  lemma {:induction false} ApplyFirst(s: System, a: Action, rest: seq<Action>)
    ensures ApplyAll(s, [a] + rest) == ApplyAll(Apply(s, a), rest)
  {
    var all := [a] + rest;
    if rest == [] {
      assert all[..0] == [] && all[0] == a;
    } else {
      ApplyFirst(s, a, rest[..|rest| - 1]);
      assert all[..|all| - 1] == [a] + rest[..|rest| - 1];
    }
  }

  lemma {:induction false} ApplyBoth(s: System, a: seq<Action>, b: seq<Action>)
    ensures ApplyAll(s, a + b) == ApplyAll(ApplyAll(s, a), b)
  {
    if b == [] {
      AppendNothing(a);
    } else {
      ApplyBoth(s, a, b[..|b| - 1]);
      assert (a + b)[..|a + b| - 1] == a + b[..|b| - 1];
    }
  }

  /** Every run of whole calls is one of the interleavings, so what holds in all of those holds in it. */
  lemma {:induction false} WholeCallsAreARun(calls: seq<Call>) returns (actions: seq<Action>)
    ensures Run(actions).world == After(INITIAL, calls)
  {
    actions := [];
    if calls != [] {
      var init, call := calls[..|calls| - 1], calls[|calls| - 1];
      var before := WholeCallsAreARun(init);
      var s := Run(before);
      var begun := Apply(s, Begin(call));
      var rest := AdvanceToEnd(begun, |s.tasks|);
      EffectIsWholeScript(s.world, call);
      actions := before + ([Begin(call)] + rest);
      ApplyBoth(IDLE, before, [Begin(call)] + rest);
      ApplyFirst(s, Begin(call), rest);
    }
  }
}
