/**
 The managed session: its state with everything that must agree with it, the scripts of atomic
 steps its methods and event handlers are made of, and what a whole method does when nothing
 runs in between.
 */
module SessionModel {
  import opened Prelude
  import opened SessionStates
  import VariableCache
  import Breakpoints

  datatype AdapterKind = Codelldb | Gdb

  /** One record of the `state_transition` trace; `heard` tells if the watch channel had a receiver. */
  datatype Change = Change(from: SessionState, to: SessionState, reason: string, heard: bool)

  /** A cached variable, with the number of transitions made when its value was asked for. */
  datatype Stamped = Stamped(entry: VariableCache.Entry, askedAt: nat)

  /**
   `child` is whether the client has an adapter process, `watched` the watch channel's value and
   `receivers` its live receivers, each with the number of transitions made when it subscribed.
   The last two fields are history: all transitions, and what was put into the variable cache
   since it was last invalidated.
   */
  datatype World = World(
    state: SessionState,
    halt: Halt,
    kind: Option<AdapterKind>,
    child: bool,
    capable: bool,
    configured: bool,
    variables: VariableCache.CacheState,
    breakpoints: Breakpoints.Table,
    watched: SessionState,
    receivers: map<nat, nat>,
    trace: seq<Change>,
    cached: seq<Stamped>)

  const INITIAL := World(Disconnected, CLEARED, None, false, false, false, VariableCache.EMPTY, Breakpoints.EMPTY,
                         Disconnected, map[], [], [])

  // ----- calls

  datatype Event =
    | InitializedEvent
    | StoppedEvent(stop: Option<StopBody>)
    | ContinuedEvent
    | TerminatedEvent
    | ExitedEvent
    | BreakpointEvent(breakpoint: Option<Breakpoints.Breakpoint>, order: seq<string>)
    | ThreadEvent(reason: Option<string>, threadId: Option<nat>)
    | OtherEvent

  /**
   A variable as the adapter describes it; `seenAt` is the clock when it is cached, `children` whether
   a request for its children is answered.
   */
  datatype Variable = Variable(
    variablesReference: nat,
    name: string,
    varType: Option<string>,
    namedVariables: Option<nat>,
    indexedVariables: Option<nat>,
    seenAt: nat,
    children: bool)

  /** What `assemble_context` is answered about a scope, a frame and a thread; None is a failed request. */
  datatype ScopeAnswer = ScopeAnswer(name: string, variablesReference: nat, variables: Option<seq<Variable>>)

  datatype FrameAnswer = FrameAnswer(id: nat, scopes: Option<seq<ScopeAnswer>>)

  datatype ThreadAnswer = ThreadAnswer(id: nat, frames: Option<seq<FrameAnswer>>)

  type Resuming = op: Operation | op in {Continue, StepOver, StepIn, StepOut} witness Continue

  /** Operations that send a request and change nothing else. */
  type Querying = op: Operation
    | op in {Attach, Pause, GetThreads, GetStackTrace, GetScopes, Evaluate, SetVariable} witness Pause

  /**
   A tool call or a delivered event. What the adapter and the system contribute is part of it:
   whether the process could be spawned, a request answered, and what the answer held.
   */
  datatype Call =
    | StartCall(newKind: AdapterKind, spawned: bool)
    | InitializeCall(answered: bool)
    | LaunchCall(answered: bool)
    | ConfigureCall(answered: bool)
    | ShutdownCall
    | ResumeCall(resuming: Resuming, answered: bool)
    | QueryCall(querying: Querying, answered: bool)
    | SourceCall(path: string, sources: seq<Breakpoints.SourceBreakpoint>,
                 response: Option<seq<Breakpoints.Breakpoint>>)
    | FunctionCall(functions: seq<Breakpoints.FunctionBreakpoint>, response: Option<seq<Breakpoints.Breakpoint>>)
    | VariablesCall(answer: Option<seq<Variable>>, frameId: Option<nat>, scopeName: Option<string>)
    | ContextCall(wanted: Option<nat>, deep: bool, threads: Option<seq<ThreadAnswer>>)
    | Delivered(event: Event)

  // ----- steps

  /** What happens under one lock, or at one await. */
  datatype Step =
    | Gate(op: Operation)
    | Ask(answered: bool)
    | AskByKind(answered: bool)
    | Spawn(spawned: bool)
    | Kill
    | SetKind(kind: AdapterKind)
    | SetCapable
    | SetConfigured
    | ClearHalt
    | RecordStop(stop: Option<StopBody>)
    | ForgetThread(thread: nat)
    | StopIf(state: SessionState)
    | Transition(target: SessionState, reason: string)
    | UpdateBreakpoints(change: Breakpoints.Op)
    | CacheVariables(entries: seq<VariableCache.Entry>)

  datatype Verdict = Proceed | Finish | Fail

  /** `transition_to`, when it is legal. */
  function Moved(w: World, target: SessionState, reason: string): World {
    var leaves := w.state == Halted && (target == Running || target == Disconnected);
    var heard := w.receivers != map[];
    w.(state := target,
       variables := if leaves then VariableCache.Perform(w.variables, VariableCache.Invalidate) else w.variables,
       cached := if leaves then [] else w.cached,
       trace := w.trace + [Change(w.state, target, reason, heard)],
       watched := if heard then target else w.watched)
  }

  function StampAll(entries: seq<VariableCache.Entry>, askedAt: nat): (r: seq<Stamped>)
    ensures |r| == |entries|
  {
    seq(|entries|, i requires 0 <= i < |entries| => Stamped(entries[i], askedAt))
  }

  function Cached(w: World, entries: seq<VariableCache.Entry>, askedAt: nat): World {
    w.(variables := VariableCache.Perform(w.variables, VariableCache.InsertBatch(entries)),
       cached := w.cached + StampAll(entries, askedAt))
  }

  function ExecWorld(w: World, askedAt: nat, step: Step): World {
    match step
    case Gate(_) => w
    case Ask(_) => w
    case AskByKind(_) => w
    case Spawn(spawned) => if w.child then w else w.(child := spawned)
    case Kill => w.(child := false)
    case SetKind(kind) => w.(kind := Some(kind))
    case SetCapable => w.(capable := true)
    case SetConfigured => w.(configured := true)
    case ClearHalt => w.(halt := CLEARED)
    case RecordStop(stop) => w.(halt := Recorded(stop))
    case ForgetThread(thread) => w.(halt := WithoutThread(w.halt, thread))
    case StopIf(_) => w
    case Transition(target, reason) => if CanTransitionTo(w.state, target) then Moved(w, target, reason) else w
    case UpdateBreakpoints(change) => w.(breakpoints := Breakpoints.Perform(w.breakpoints, change))
    case CacheVariables(entries) => Cached(w, entries, askedAt)
  }

  function ExecVerdict(w: World, step: Step): Verdict {
    match step
    case Gate(op) => if IsAllowed(op, w.state) then Proceed else Fail
    case Ask(answered) => if answered then Proceed else Fail
    case AskByKind(answered) => if answered then Proceed else Fail
    case Spawn(spawned) => if !w.child && spawned then Proceed else Fail
    case StopIf(state) => if w.state == state then Finish else Proceed
    case Transition(target, _) => if CanTransitionTo(w.state, target) then Proceed else Fail
    case Kill => Proceed
    case SetKind(_) => Proceed
    case SetCapable => Proceed
    case SetConfigured => Proceed
    case ClearHalt => Proceed
    case RecordStop(_) => Proceed
    case ForgetThread(_) => Proceed
    case UpdateBreakpoints(_) => Proceed
    case CacheVariables(_) => Proceed
  }

  // ----- scripts

  /** `Do` gives up where its step fails; `Or` goes on with something else. */
  datatype Script = End | Do(step: Step, next: Script) | Or(step: Step, next: Script, otherwise: Script)

  function ScriptOf(call: Call): Script {
    match call
    case StartCall(kind, spawned) =>
      Do(Gate(Start), Do(Spawn(spawned), Do(SetKind(kind), Do(Transition(Connected, "start"), End))))
    case InitializeCall(answered) =>
      Do(Gate(Initialize), Do(Ask(answered), Do(SetCapable, Do(Transition(Initialized, "initialize"), End))))
    case LaunchCall(answered) => Do(Gate(Launch), Do(AskByKind(answered), End))
    case ConfigureCall(answered) =>
      Do(Gate(ConfigurationDone), Do(AskByKind(answered), Do(SetConfigured,
        Do(Transition(Running, "configuration_done"), End))))
    case ShutdownCall => Do(Gate(Shutdown), Do(Kill, CloseScript("shutdown")))
    case ResumeCall(op, answered) =>
      Do(Gate(op), Do(Ask(answered), Do(ClearHalt, Do(Transition(Running, NameOf(op)), End))))
    case QueryCall(op, answered) => Do(Gate(op), Do(Ask(answered), End))
    case SourceCall(path, sources, response) =>
      var change := Breakpoints.SetSource(path, sources, Given(response));
      Do(Gate(SetBreakpoints), Do(Ask(response.Some?),
        Do(UpdateBreakpoints(change), Do(UpdateBreakpoints(change), End))))
    case FunctionCall(functions, response) =>
      var change := Breakpoints.SetFunctions(functions, Given(response));
      Do(Gate(SetFunctionBreakpoints), Do(Ask(response.Some?),
        Do(UpdateBreakpoints(change), Do(UpdateBreakpoints(change), End))))
    case VariablesCall(answer, frameId, scopeName) =>
      Do(Gate(GetVariables), Do(Ask(answer.Some?),
        Do(CacheVariables(EntriesFrom(Given(answer), frameId, scopeName)), End)))
    case ContextCall(wanted, deep, threads) =>
      Do(Gate(AssembleContext),
         Do(Gate(GetThreads), Do(Ask(threads.Some?), ThreadsScript(Targets(Given(threads), wanted), deep, End))))
    case Delivered(event) => EventScript(event)
  }

  // ----- the nested loops of `assemble_context`; `rest` is what follows them, `deep` if children are asked for

  function Targets(threads: seq<ThreadAnswer>, wanted: Option<nat>): seq<ThreadAnswer> {
    if wanted.None? then threads
    else if threads == [] then []
    else (if threads[0].id == wanted.value then [threads[0]] else []) + Targets(threads[1..], wanted)
  }

  function EntryOf(v: Variable, frameId: Option<nat>, scopeName: Option<string>): VariableCache.Entry {
    VariableCache.Entry(v.variablesReference, v.name, frameId, scopeName, v.varType,
                        v.namedVariables, v.indexedVariables, v.seenAt)
  }

  function EntriesFrom(variables: seq<Variable>, frameId: Option<nat>, scopeName: Option<string>)
    : seq<VariableCache.Entry>
  {
    seq(|variables|, i requires 0 <= i < |variables| => EntryOf(variables[i], frameId, scopeName))
  }

  function ScopeEntries(frame: nat, scope: ScopeAnswer): seq<VariableCache.Entry> {
    EntriesFrom(Given(scope.variables), Some(frame), Some(scope.name))
  }

  function ChildrenScript(variables: seq<Variable>, deep: bool, rest: Script): Script {
    if variables == [] then rest
    else
      var later := ChildrenScript(variables[1..], deep, rest);
      if variables[0].variablesReference == 0 || !deep then later
      else Or(Gate(GetVariables), Or(Ask(variables[0].children), later, later), later)
  }

  function ScopesScript(frame: nat, scopes: seq<ScopeAnswer>, deep: bool, rest: Script): Script {
    if scopes == [] then rest
    else
      var later := ScopesScript(frame, scopes[1..], deep, rest);
      if scopes[0].variablesReference == 0 then later
      else Or(Gate(GetVariables),
              Or(Ask(scopes[0].variables.Some?),
                 Do(CacheVariables(ScopeEntries(frame, scopes[0])),
                    ChildrenScript(Given(scopes[0].variables), deep, later)),
                 later),
              later)
  }

  function FramesScript(frames: seq<FrameAnswer>, deep: bool, rest: Script): Script {
    if frames == [] then rest
    else
      var later := FramesScript(frames[1..], deep, rest);
      Or(Gate(GetScopes),
         Or(Ask(frames[0].scopes.Some?), ScopesScript(frames[0].id, Given(frames[0].scopes), deep, later), later),
         later)
  }

  function ThreadsScript(threads: seq<ThreadAnswer>, deep: bool, rest: Script): Script {
    if threads == [] then rest
    else
      var later := ThreadsScript(threads[1..], deep, rest);
      Or(Gate(GetStackTrace),
         Or(Ask(threads[0].frames.Some?), FramesScript(Given(threads[0].frames), deep, later), later), later)
  }

  function EventScript(event: Event): Script {
    match event
    case InitializedEvent => Do(StopIf(Initialized), Do(Transition(Initialized, "event:initialized"), End))
    case StoppedEvent(stop) => Do(RecordStop(stop), Do(Transition(Halted, "event:stopped"), End))
    case ContinuedEvent => Do(ClearHalt, Do(StopIf(Running), Do(Transition(Running, "event:continued"), End)))
    case TerminatedEvent => Do(Kill, CloseScript("event:terminated"))
    case ExitedEvent => Do(Kill, CloseScript("event:exited"))
    case BreakpointEvent(b, order) =>
      if b.Some? && b.value.id.Some? then Do(UpdateBreakpoints(Breakpoints.Event(b.value, order)), End) else End
    case ThreadEvent(reason, threadId) =>
      if reason == Some("exited") && threadId.Some? then Do(ForgetThread(threadId.value), End) else End
    case OtherEvent => End
  }

  /** What follows killing the adapter: leave the current state unless already disconnected. */
  function CloseScript(reason: string): Script {
    Do(StopIf(Disconnected), Do(Transition(Disconnected, reason), Do(UpdateBreakpoints(Breakpoints.Clear), End)))
  }

  function Given<T>(r: Option<seq<T>>): seq<T> { if r.Some? then r.value else [] }

  function NameOf(op: Resuming): string {
    match op
    case Continue => "continue"
    case StepOver => "step_over"
    case StepIn => "step_in"
    case StepOut => "step_out"
  }

  // ----- whole calls

  datatype Result = Result(world: World, ok: bool)

  /** Run a script to its end with nothing in between. */
  function RunScript(w: World, askedAt: nat, script: Script): Result
    decreases script
  {
    match script
    case End => Result(w, true)
    case Do(step, next) =>
      var after := ExecWorld(w, askedAt, step);
      (match ExecVerdict(w, step)
       case Proceed => RunScript(after, if step.Gate? then |w.trace| else askedAt, next)
       case Finish => Result(after, true)
       case Fail => Result(after, false))
    case Or(step, next, otherwise) =>
      var after := ExecWorld(w, askedAt, step);
      (match ExecVerdict(w, step)
       case Proceed => RunScript(after, if step.Gate? then |w.trace| else askedAt, next)
       case Finish => Result(after, true)
       case Fail => RunScript(after, askedAt, otherwise))
  }

  function Attempt(w: World, target: SessionState, reason: string): Result {
    if CanTransitionTo(w.state, target) then Result(Moved(w, target, reason), true) else Result(w, false)
  }

  function Closed(w: World, reason: string): Result {
    if w.state == Disconnected then Result(w, true)
    else Result(Moved(w, Disconnected, reason).(breakpoints := Breakpoints.EMPTY), true)
  }

  /** What a call does as one step. */
  function Effect(w: World, call: Call): Result {
    match call
    case StartCall(kind, spawned) =>
      if w.state != Disconnected || w.child || !spawned then Result(w, false)
      else Attempt(w.(child := true, kind := Some(kind)), Connected, "start")
    case InitializeCall(answered) =>
      if w.state != Connected || !answered then Result(w, false)
      else Attempt(w.(capable := true), Initialized, "initialize")
    case LaunchCall(answered) => Result(w, w.state == Initialized && answered)
    case ConfigureCall(answered) =>
      if w.state != Initialized || !answered then Result(w, false)
      else Attempt(w.(configured := true), Running, "configuration_done")
    case ShutdownCall =>
      if w.state == Disconnected then Result(w, false) else Closed(w.(child := false), "shutdown")
    case ResumeCall(op, answered) =>
      if !IsAllowed(op, w.state) || !answered then Result(w, false)
      else Attempt(w.(halt := CLEARED), Running, NameOf(op))
    case QueryCall(op, answered) => Result(w, IsAllowed(op, w.state) && answered)
    case SourceCall(path, sources, response) =>
      if !IsAllowed(SetBreakpoints, w.state) || response.None? then Result(w, false)
      else Result(w.(breakpoints :=
                  Breakpoints.Perform(w.breakpoints, Breakpoints.SetSource(path, sources, response.value))), true)
    case FunctionCall(functions, response) =>
      if !IsAllowed(SetFunctionBreakpoints, w.state) || response.None? then Result(w, false)
      else Result(w.(breakpoints :=
                  Breakpoints.Perform(w.breakpoints, Breakpoints.SetFunctions(functions, response.value))), true)
    case VariablesCall(answer, frameId, scopeName) =>
      if w.state != Halted || answer.None? then Result(w, false)
      else Result(Cached(w, EntriesFrom(answer.value, frameId, scopeName), |w.trace|), true)
    case ContextCall(wanted, _, threads) =>
      if w.state != Halted || threads.None? then Result(w, false)
      else Result(ThreadsEffect(w, Targets(threads.value, wanted)), true)
    case Delivered(event) => EventEffect(w, event)
  }

  /** Outside a halt every further request is refused, so nothing is cached. */
  function ScopesEffect(w: World, frame: nat, scopes: seq<ScopeAnswer>): World
    decreases |scopes|
  {
    if scopes == [] then w
    else
      var asked := scopes[0].variablesReference != 0 && w.state == Halted && scopes[0].variables.Some?;
      ScopesEffect(if asked then Cached(w, ScopeEntries(frame, scopes[0]), |w.trace|) else w, frame, scopes[1..])
  }

  function FramesEffect(w: World, frames: seq<FrameAnswer>): World
    decreases |frames|
  {
    if frames == [] then w
    else
      var asked := w.state == Halted && frames[0].scopes.Some?;
      FramesEffect(if asked then ScopesEffect(w, frames[0].id, frames[0].scopes.value) else w, frames[1..])
  }

  function ThreadsEffect(w: World, threads: seq<ThreadAnswer>): World
    decreases |threads|
  {
    if threads == [] then w
    else
      var asked := w.state == Halted && threads[0].frames.Some?;
      ThreadsEffect(if asked then FramesEffect(w, threads[0].frames.value) else w, threads[1..])
  }

  function EventEffect(w: World, event: Event): Result {
    match event
    case InitializedEvent =>
      if w.state == Initialized then Result(w, true) else Attempt(w, Initialized, "event:initialized")
    case StoppedEvent(stop) => Attempt(w.(halt := Recorded(stop)), Halted, "event:stopped")
    case ContinuedEvent =>
      var cleared := w.(halt := CLEARED);
      if w.state == Running then Result(cleared, true) else Attempt(cleared, Running, "event:continued")
    case TerminatedEvent => Closed(w.(child := false), "event:terminated")
    case ExitedEvent => Closed(w.(child := false), "event:exited")
    case BreakpointEvent(b, order) =>
      if b.Some? then Result(w.(breakpoints := Breakpoints.UpdateById(w.breakpoints, b.value, order)), true)
      else Result(w, true)
    case ThreadEvent(reason, threadId) =>
      if reason == Some("exited") && threadId.Some? then
        Result(w.(halt := WithoutThread(w.halt, threadId.value)), true)
      else Result(w, true)
    case OtherEvent => Result(w, true)
  }

  // ----- unfolding scripts one step at a time

  lemma Gated(w: World, at: nat, op: Operation, next: Script)
    ensures RunScript(w, at, Do(Gate(op), next)) ==
            if IsAllowed(op, w.state) then RunScript(w, |w.trace|, next) else Result(w, false)
  {
  }

  lemma Asked(w: World, at: nat, step: Step, next: Script)
    requires step.Ask? || step.AskByKind?
    ensures RunScript(w, at, Do(step, next)) == if step.answered then RunScript(w, at, next) else Result(w, false)
  {
  }

  lemma Proceeds(w: World, at: nat, step: Step, next: Script)
    requires ExecVerdict(w, step) == Proceed && !step.Gate?
    ensures RunScript(w, at, Do(step, next)) == RunScript(ExecWorld(w, at, step), at, next)
  {
  }

  lemma EndsInTransition(w: World, at: nat, target: SessionState, reason: string)
    ensures RunScript(w, at, Do(Transition(target, reason), End)) == Attempt(w, target, reason)
  {
  }

  lemma ChangesThenMoves(w: World, at: nat, step: Step, target: SessionState, reason: string)
    requires ExecVerdict(w, step) == Proceed && !step.Gate?
    ensures RunScript(w, at, Do(step, Do(Transition(target, reason), End))) ==
            Attempt(ExecWorld(w, at, step), target, reason)
  {
    Proceeds(w, at, step, Do(Transition(target, reason), End));
    EndsInTransition(ExecWorld(w, at, step), at, target, reason);
  }

  lemma CloseIsClosed(w: World, at: nat, reason: string)
    ensures RunScript(w, at, CloseScript(reason)) == Closed(w, reason)
  {
    var clear := Do(UpdateBreakpoints(Breakpoints.Clear), End);
    if w.state != Disconnected {
      Proceeds(w, at, StopIf(Disconnected), Do(Transition(Disconnected, reason), clear));
      Proceeds(w, at, Transition(Disconnected, reason), clear);
    }
  }

  lemma KilledThenClosed(w: World, at: nat, reason: string)
    ensures RunScript(w, at, Do(Kill, CloseScript(reason))) == Closed(w.(child := false), reason)
  {
    CloseIsClosed(w.(child := false), at, reason);
    Proceeds(w, at, Kill, CloseScript(reason));
  }

  lemma ClearedThenRunning(w: World, at: nat)
    ensures RunScript(w, at, EventScript(ContinuedEvent)) == EventEffect(w, ContinuedEvent)
  {
    var last := Do(Transition(Running, "event:continued"), End);
    Proceeds(w, at, ClearHalt, Do(StopIf(Running), last));
    if w.state != Running {
      ChangesThenMoves(w.(halt := CLEARED), at, StopIf(Running), Running, "event:continued");
    }
  }

  lemma EventEffectIsWholeScript(w: World, at: nat, event: Event)
    ensures RunScript(w, at, EventScript(event)) == EventEffect(w, event)
  {
    match event
    case InitializedEvent => EndsInTransition(w, at, Initialized, "event:initialized");
    case StoppedEvent(stop) => ChangesThenMoves(w, at, RecordStop(stop), Halted, "event:stopped");
    case ContinuedEvent => ClearedThenRunning(w, at);
    case TerminatedEvent => KilledThenClosed(w, at, "event:terminated");
    case ExitedEvent => KilledThenClosed(w, at, "event:exited");
    case BreakpointEvent(_, _) =>
    case ThreadEvent(_, _) =>
    case OtherEvent =>
  }

  lemma UpdateTwice(t: Breakpoints.Table, change: Breakpoints.Op)
    requires change.SetSource? || change.SetFunctions?
    ensures Breakpoints.Perform(Breakpoints.Perform(t, change), change) == Breakpoints.Perform(t, change)
  {
    if change.SetSource? {
      var items := Breakpoints.ZipSource(change.path, change.sourceRequests, change.responses);
      assert t.sources[change.path := items][change.path := items] == t.sources[change.path := items];
    }
  }

  lemma UpdatesTwice(w: World, at: nat, change: Breakpoints.Op)
    requires change.SetSource? || change.SetFunctions?
    ensures RunScript(w, at, Do(UpdateBreakpoints(change), Do(UpdateBreakpoints(change), End))) ==
            Result(w.(breakpoints := Breakpoints.Perform(w.breakpoints, change)), true)
  {
    UpdateTwice(w.breakpoints, change);
    Proceeds(w, at, UpdateBreakpoints(change), Do(UpdateBreakpoints(change), End));
    Proceeds(ExecWorld(w, at, UpdateBreakpoints(change)), at, UpdateBreakpoints(change), End);
  }

  lemma StartIsWholeScript(w: World, kind: AdapterKind, spawned: bool)
    ensures RunScript(w, |w.trace|, ScriptOf(StartCall(kind, spawned))) == Effect(w, StartCall(kind, spawned))
  {
    var at, last := |w.trace|, Do(Transition(Connected, "start"), End);
    Gated(w, at, Start, Do(Spawn(spawned), Do(SetKind(kind), last)));
    if w.state == Disconnected && !w.child && spawned {
      Proceeds(w, at, Spawn(spawned), Do(SetKind(kind), last));
      ChangesThenMoves(w.(child := true), at, SetKind(kind), Connected, "start");
    }
  }

  /** Gate, request, one change, one transition: the shape of the lifecycle and resuming calls. */
  lemma RequestThenMove(w: World, op: Operation, ask: Step, change: Step, target: SessionState, reason: string)
    requires ask.Ask? || ask.AskByKind?
    requires ExecVerdict(w, change) == Proceed && !change.Gate?
    ensures RunScript(w, |w.trace|, Do(Gate(op), Do(ask, Do(change, Do(Transition(target, reason), End))))) ==
            if IsAllowed(op, w.state) && ask.answered then Attempt(ExecWorld(w, |w.trace|, change), target, reason)
            else Result(w, false)
  {
    var rest := Do(change, Do(Transition(target, reason), End));
    Gated(w, |w.trace|, op, Do(ask, rest));
    Asked(w, |w.trace|, ask, rest);
    ChangesThenMoves(w, |w.trace|, change, target, reason);
  }

  lemma RequestThenUpdate(w: World, op: Operation, answered: bool, change: Breakpoints.Op)
    requires change.SetSource? || change.SetFunctions?
    ensures RunScript(w, |w.trace|, Do(Gate(op), Do(Ask(answered),
                        Do(UpdateBreakpoints(change), Do(UpdateBreakpoints(change), End))))) ==
            if IsAllowed(op, w.state) && answered then
              Result(w.(breakpoints := Breakpoints.Perform(w.breakpoints, change)), true)
            else Result(w, false)
  {
    var rest := Do(UpdateBreakpoints(change), Do(UpdateBreakpoints(change), End));
    AskedBehindGate(w, op, answered, rest);
    UpdatesTwice(w, |w.trace|, change);
  }

  lemma ShutdownIsWholeScript(w: World)
    ensures RunScript(w, |w.trace|, ScriptOf(ShutdownCall)) == Effect(w, ShutdownCall)
  {
    Gated(w, |w.trace|, Shutdown, Do(Kill, CloseScript("shutdown")));
    KilledThenClosed(w, |w.trace|, "shutdown");
  }

  lemma VariablesIsWholeScript(w: World, call: Call)
    requires call.VariablesCall?
    ensures RunScript(w, |w.trace|, ScriptOf(call)) == Effect(w, call)
  {
    var entries := EntriesFrom(Given(call.answer), call.frameId, call.scopeName);
    AskedBehindGate(w, GetVariables, call.answer.Some?, Do(CacheVariables(entries), End));
    Proceeds(w, |w.trace|, CacheVariables(entries), End);
  }

  lemma MovingIsWholeScript(w: World, call: Call)
    requires call.InitializeCall? || call.ConfigureCall?
    ensures RunScript(w, |w.trace|, ScriptOf(call)) == Effect(w, call)
  {
    match call
    case InitializeCall(answered) =>
      RequestThenMove(w, Initialize, Ask(answered), SetCapable, Initialized, "initialize");
    case ConfigureCall(answered) =>
      RequestThenMove(w, ConfigurationDone, AskByKind(answered), SetConfigured, Running, "configuration_done");
  }

  lemma ResumingIsWholeScript(w: World, op: Resuming, answered: bool)
    ensures RunScript(w, |w.trace|, ScriptOf(ResumeCall(op, answered))) == Effect(w, ResumeCall(op, answered))
  {
    RequestThenMove(w, op, Ask(answered), ClearHalt, Running, NameOf(op));
  }

  lemma UpdatingIsWholeScript(w: World, call: Call)
    requires call.SourceCall? || call.FunctionCall?
    ensures RunScript(w, |w.trace|, ScriptOf(call)) == Effect(w, call)
  {
    match call
    case SourceCall(path, sources, response) =>
      RequestThenUpdate(w, SetBreakpoints, response.Some?, Breakpoints.SetSource(path, sources, Given(response)));
    case FunctionCall(functions, response) =>
      RequestThenUpdate(w, SetFunctionBreakpoints, response.Some?,
                        Breakpoints.SetFunctions(functions, Given(response)));
  }

  lemma AskingIsWholeScript(w: World, call: Call)
    requires call.LaunchCall? || call.QueryCall?
    ensures RunScript(w, |w.trace|, ScriptOf(call)) == Effect(w, call)
  {
    match call
    case LaunchCall(answered) => Gated(w, |w.trace|, Launch, Do(AskByKind(answered), End));
    case QueryCall(op, answered) => Gated(w, |w.trace|, op, Do(Ask(answered), End));
  }

  lemma OrGated(w: World, at: nat, op: Operation, next: Script, otherwise: Script)
    ensures RunScript(w, at, Or(Gate(op), next, otherwise)) ==
            if IsAllowed(op, w.state) then RunScript(w, |w.trace|, next) else RunScript(w, at, otherwise)
  {
  }

  lemma OrAsked(w: World, at: nat, answered: bool, next: Script, otherwise: Script)
    ensures RunScript(w, at, Or(Ask(answered), next, otherwise)) ==
            if answered then RunScript(w, at, next) else RunScript(w, at, otherwise)
  {
  }

  /** A request of the nested loops whose success leads to `next` and whose failure to `later`. */
  lemma Requested(w: World, at: nat, op: Operation, answered: bool, next: Script, later: Script)
    requires AllowedStates(op) == [Halted] && AsksFirst(later)
    ensures RunScript(w, at, Or(Gate(op), Or(Ask(answered), next, later), later)) ==
            if w.state == Halted && answered then RunScript(w, |w.trace|, next) else RunScript(w, at, later)
  {
    OrGated(w, at, op, Or(Ask(answered), next, later), later);
    OrAsked(w, |w.trace|, answered, next, later);
    AskedAtIsFree(w, at, |w.trace|, later);
  }

  /** The script passes a gate before it uses the time of its last one. */
  predicate AsksFirst(script: Script) {
    match script
    case End => true
    case Do(step, _) => step.Gate?
    case Or(step, _, otherwise) => step.Gate? && AsksFirst(otherwise)
  }

  lemma {:induction false} AskedAtIsFree(w: World, a: nat, b: nat, script: Script)
    requires AsksFirst(script)
    ensures RunScript(w, a, script) == RunScript(w, b, script)
    decreases script
  {
    match script
    case End =>
    case Do(step, next) =>
    case Or(step, next, otherwise) => AskedAtIsFree(w, a, b, otherwise);
  }

  lemma {:induction false} ChildrenAskFirst(variables: seq<Variable>, deep: bool, rest: Script)
    requires AsksFirst(rest)
    ensures AsksFirst(ChildrenScript(variables, deep, rest))
  {
    if variables != [] {
      ChildrenAskFirst(variables[1..], deep, rest);
    }
  }

  lemma {:induction false} ScopesAskFirst(frame: nat, scopes: seq<ScopeAnswer>, deep: bool, rest: Script)
    requires AsksFirst(rest)
    ensures AsksFirst(ScopesScript(frame, scopes, deep, rest))
  {
    if scopes != [] {
      ScopesAskFirst(frame, scopes[1..], deep, rest);
    }
  }

  lemma {:induction false} FramesAskFirst(frames: seq<FrameAnswer>, deep: bool, rest: Script)
    requires AsksFirst(rest)
    ensures AsksFirst(FramesScript(frames, deep, rest))
  {
    if frames != [] {
      FramesAskFirst(frames[1..], deep, rest);
    }
  }

  lemma {:induction false} ThreadsAskFirst(threads: seq<ThreadAnswer>, deep: bool, rest: Script)
    requires AsksFirst(rest)
    ensures AsksFirst(ThreadsScript(threads, deep, rest))
  {
    if threads != [] {
      ThreadsAskFirst(threads[1..], deep, rest);
    }
  }

  /** Asking for children changes nothing, whether or not they are answered. */
  lemma {:induction false} ChildrenRun(w: World, at: nat, variables: seq<Variable>, deep: bool, rest: Script)
    requires AsksFirst(rest)
    ensures RunScript(w, at, ChildrenScript(variables, deep, rest)) == RunScript(w, at, rest)
    decreases |variables|
  {
    if variables != [] {
      var later := ChildrenScript(variables[1..], deep, rest);
      ChildrenAskFirst(variables[1..], deep, rest);
      ChildrenRun(w, at, variables[1..], deep, rest);
      Requested(w, at, GetVariables, variables[0].children, later, later);
      AskedAtIsFree(w, at, |w.trace|, later);
    }
  }

  /** Caching a scope's variables, then asking for their children. */
  lemma ScopeTakenIn(w: World, at: nat, entries: seq<VariableCache.Entry>, variables: seq<Variable>, deep: bool,
                     later: Script)
    requires AsksFirst(later)
    ensures RunScript(w, |w.trace|, Do(CacheVariables(entries), ChildrenScript(variables, deep, later))) ==
            RunScript(Cached(w, entries, |w.trace|), at, later)
  {
    var after := Cached(w, entries, |w.trace|);
    Proceeds(w, |w.trace|, CacheVariables(entries), ChildrenScript(variables, deep, later));
    ChildrenRun(after, |w.trace|, variables, deep, later);
    AskedAtIsFree(after, |w.trace|, at, later);
  }

  lemma {:induction false} ScopesRun(w: World, at: nat, frame: nat, scopes: seq<ScopeAnswer>, deep: bool, rest: Script)
    requires AsksFirst(rest)
    ensures RunScript(w, at, ScopesScript(frame, scopes, deep, rest)) ==
            RunScript(ScopesEffect(w, frame, scopes), at, rest)
    decreases |scopes|
  {
    if scopes != [] {
      var later, entries := ScopesScript(frame, scopes[1..], deep, rest), ScopeEntries(frame, scopes[0]);
      var variables := scopes[0].variables;
      ScopesAskFirst(frame, scopes[1..], deep, rest);
      if scopes[0].variablesReference == 0 {
        ScopesRun(w, at, frame, scopes[1..], deep, rest);
      } else {
        Requested(w, at, GetVariables, variables.Some?,
                  Do(CacheVariables(entries), ChildrenScript(Given(variables), deep, later)), later);
        if w.state == Halted && variables.Some? {
          ScopeTakenIn(w, at, entries, Given(variables), deep, later);
          ScopesRun(Cached(w, entries, |w.trace|), at, frame, scopes[1..], deep, rest);
        } else {
          ScopesRun(w, at, frame, scopes[1..], deep, rest);
        }
      }
    }
  }

  lemma {:induction false} FramesRun(w: World, at: nat, frames: seq<FrameAnswer>, deep: bool, rest: Script)
    requires AsksFirst(rest)
    ensures RunScript(w, at, FramesScript(frames, deep, rest)) == RunScript(FramesEffect(w, frames), at, rest)
    decreases |frames|
  {
    if frames != [] {
      var later, frame := FramesScript(frames[1..], deep, rest), frames[0];
      FramesAskFirst(frames[1..], deep, rest);
      Requested(w, at, GetScopes, frame.scopes.Some?,
                ScopesScript(frame.id, Given(frame.scopes), deep, later), later);
      if w.state == Halted && frame.scopes.Some? {
        ScopesRun(w, |w.trace|, frame.id, frame.scopes.value, deep, later);
        AskedAtIsFree(ScopesEffect(w, frame.id, frame.scopes.value), |w.trace|, at, later);
        FramesRun(ScopesEffect(w, frame.id, frame.scopes.value), at, frames[1..], deep, rest);
      } else {
        FramesRun(w, at, frames[1..], deep, rest);
      }
    }
  }

  lemma {:induction false} ThreadsRun(w: World, at: nat, threads: seq<ThreadAnswer>, deep: bool, rest: Script)
    requires AsksFirst(rest)
    ensures RunScript(w, at, ThreadsScript(threads, deep, rest)) == RunScript(ThreadsEffect(w, threads), at, rest)
    decreases |threads|
  {
    if threads != [] {
      var later, frames := ThreadsScript(threads[1..], deep, rest), threads[0].frames;
      ThreadsAskFirst(threads[1..], deep, rest);
      Requested(w, at, GetStackTrace, frames.Some?, FramesScript(Given(frames), deep, later), later);
      if w.state == Halted && frames.Some? {
        FramesRun(w, |w.trace|, frames.value, deep, later);
        AskedAtIsFree(FramesEffect(w, frames.value), |w.trace|, at, later);
        ThreadsRun(FramesEffect(w, frames.value), at, threads[1..], deep, rest);
      } else {
        ThreadsRun(w, at, threads[1..], deep, rest);
      }
    }
  }

  lemma ContextIsWholeScript(w: World, wanted: Option<nat>, deep: bool, threads: Option<seq<ThreadAnswer>>)
    ensures RunScript(w, |w.trace|, ScriptOf(ContextCall(wanted, deep, threads))) ==
            Effect(w, ContextCall(wanted, deep, threads))
  {
    var wantedThreads := Targets(Given(threads), wanted);
    AskedBehindGates(w, threads.Some?, ThreadsScript(wantedThreads, deep, End));
    ThreadsRun(w, |w.trace|, wantedThreads, deep, End);
  }

  lemma AskedBehindGates(w: World, answered: bool, rest: Script)
    ensures RunScript(w, |w.trace|, Do(Gate(AssembleContext), Do(Gate(GetThreads), Do(Ask(answered), rest)))) ==
            if w.state == Halted && answered then RunScript(w, |w.trace|, rest) else Result(w, false)
  {
    Gated(w, |w.trace|, AssembleContext, Do(Gate(GetThreads), Do(Ask(answered), rest)));
    AskedBehindGate(w, GetThreads, answered, rest);
  }

  lemma AskedBehindGate(w: World, op: Operation, answered: bool, rest: Script)
    ensures RunScript(w, |w.trace|, Do(Gate(op), Do(Ask(answered), rest))) ==
            if IsAllowed(op, w.state) && answered then RunScript(w, |w.trace|, rest) else Result(w, false)
  {
    Gated(w, |w.trace|, op, Do(Ask(answered), rest));
    Asked(w, |w.trace|, Ask(answered), rest);
  }

  /** A call whose steps run without interruption does exactly its effect. */
  lemma EffectIsWholeScript(w: World, call: Call)
    ensures RunScript(w, |w.trace|, ScriptOf(call)) == Effect(w, call)
  {
    if call.StartCall? {
      StartIsWholeScript(w, call.newKind, call.spawned);
    } else if call.ShutdownCall? {
      ShutdownIsWholeScript(w);
    } else if call.VariablesCall? {
      VariablesIsWholeScript(w, call);
    } else if call.ContextCall? {
      ContextIsWholeScript(w, call.wanted, call.deep, call.threads);
    } else if call.Delivered? {
      EventEffectIsWholeScript(w, |w.trace|, call.event);
    } else if call.SourceCall? || call.FunctionCall? {
      UpdatingIsWholeScript(w, call);
    } else if call.LaunchCall? || call.QueryCall? {
      AskingIsWholeScript(w, call);
    } else if call.ResumeCall? {
      ResumingIsWholeScript(w, call.resuming, call.answered);
    } else {
      MovingIsWholeScript(w, call);
    }
  }
}
