/**
 What uninterrupted calls and events do, said of their history: which are admitted and what they
 record, what the session remembers of its adapter, its breakpoints and its last stop, and which
 variables a lookup finds after they were asked for.
 */
module SessionHistory {
  import opened Prelude
  import opened SessionStates
  import opened SessionModel
  import opened SessionRuns
  import Breakpoints
  import VariableCache

  // ----- admission

  /** The operation whose gate a tool call passes; events have none. */
  function OperationOf(call: Call): Option<Operation> {
    match call
    case StartCall(_, _) => Some(Start)
    case InitializeCall(_) => Some(Initialize)
    case LaunchCall(_) => Some(Launch)
    case ConfigureCall(_) => Some(ConfigurationDone)
    case ShutdownCall => Some(Shutdown)
    case ResumeCall(op, _) => Some(op)
    case QueryCall(op, _) => Some(op)
    case SourceCall(_, _, _) => Some(SetBreakpoints)
    case FunctionCall(_, _) => Some(SetFunctionBreakpoints)
    case VariablesCall(_, _, _) => Some(GetVariables)
    case ContextCall(_, _, _) => Some(AssembleContext)
    case Delivered(_) => None
  }

  /** The system or the adapter grants what the call asks for. */
  predicate IsGranted(call: Call) {
    match call
    case StartCall(_, spawned) => spawned
    case InitializeCall(answered) => answered
    case LaunchCall(answered) => answered
    case ConfigureCall(answered) => answered
    case ShutdownCall => true
    case ResumeCall(_, answered) => answered
    case QueryCall(_, answered) => answered
    case SourceCall(_, _, response) => response.Some?
    case FunctionCall(_, response) => response.Some?
    case VariablesCall(answer, _, _) => answer.Some?
    case ContextCall(_, _, threads) => threads.Some?
    case Delivered(_) => true
  }

  /** What the trace calls the transition of an operation. */
  function TraceName(op: Operation): string {
    match op
    case Start => "start"
    case Initialize => "initialize"
    case ConfigurationDone => "configuration_done"
    case Shutdown => "shutdown"
    case Continue => "continue"
    case StepOver => "step_over"
    case StepIn => "step_in"
    case StepOut => "step_out"
    case _ => ""
  }

  lemma MovingCallObeys(w: World, call: Call, op: Operation)
    requires OperationOf(call) == Some(op) && Agree(w) && TargetOf(op).Some?
    ensures !(IsAllowed(op, w.state) && IsGranted(call)) ==> Effect(w, call) == Result(w, false)
    ensures IsAllowed(op, w.state) && IsGranted(call) ==>
              && Effect(w, call).ok && Effect(w, call).world.state == TargetOf(op).value
              && Effect(w, call).world.trace ==
                 w.trace + [Change(w.state, TargetOf(op).value, TraceName(op), w.receivers != map[])]
  {
  }

  lemma StayingCallObeys(w: World, call: Call, op: Operation)
    requires OperationOf(call) == Some(op) && TargetOf(op).None?
    ensures !(IsAllowed(op, w.state) && IsGranted(call)) ==> Effect(w, call) == Result(w, false)
    ensures IsAllowed(op, w.state) && IsGranted(call) ==>
              && Effect(w, call).ok && Effect(w, call).world.state == w.state && Effect(w, call).world.trace == w.trace
  {
    if call.ContextCall? {
      ThreadsOnlyCache(w, Targets(Given(call.threads), call.wanted));
    }
  }

  /**
   After any history, a tool call that its gate refuses, or that is not granted what it asks for,
   fails and changes nothing. Any other succeeds: it makes its operation's transition and records it
   under its name, or, without one, leaves state and trace as they are.
   */
  lemma CallsObeyTheirGates(calls: seq<Call>, w: World, call: Call, op: Operation)
    requires w == After(INITIAL, calls) && OperationOf(call) == Some(op)
    ensures !(IsAllowed(op, w.state) && IsGranted(call)) ==> Effect(w, call) == Result(w, false)
    ensures IsAllowed(op, w.state) && IsGranted(call) ==>
              var after := Effect(w, call);
              && after.ok
              && match TargetOf(op)
                 case None => after.world.state == w.state && after.world.trace == w.trace
                 case Some(target) =>
                   && after.world.state == target
                   && after.world.trace ==
                      w.trace + [Change(w.state, target, TraceName(op), w.receivers != map[])]
  {
    PartsAlwaysAgree(calls);
    if TargetOf(op).Some? {
      MovingCallObeys(w, call, op);
    } else {
      StayingCallObeys(w, call, op);
    }
  }

  /** The state an event leads to, and what the trace calls it. */
  function EventTarget(event: Event): Option<(SessionState, string)> {
    match event
    case InitializedEvent => Some((Initialized, "event:initialized"))
    case StoppedEvent(_) => Some((Halted, "event:stopped"))
    case ContinuedEvent => Some((Running, "event:continued"))
    case TerminatedEvent => Some((Disconnected, "event:terminated"))
    case ExitedEvent => Some((Disconnected, "event:exited"))
    case _ => None
  }

  /**
   An event that leads to a state is handled if the session can go there, or is there already (a stop
   in a halt is not); it then is there, with a record of it if it went.
   */
  lemma EventsLeadTo(w: World, event: Event)
    ensures match EventTarget(event)
      case None =>
        var after := EventEffect(w, event);
        after.ok && after.world.state == w.state && after.world.trace == w.trace
      case Some(target) =>
        var after := EventEffect(w, event);
        && (after.ok <==> CanTransitionTo(w.state, target.0) || (w.state == target.0 && target.0 != Halted))
        && after.world.state == (if after.ok then target.0 else w.state)
        && after.world.trace ==
           w.trace + (if CanTransitionTo(w.state, target.0)
                      then [Change(w.state, target.0, target.1, w.receivers != map[])] else [])
  {
    AppendNothing(w.trace);
  }

  // ----- what is remembered of the adapter

  /** A tool call that ends in a transition. */
  predicate IsMoving(call: Call) {
    call.StartCall? || call.InitializeCall? || call.ConfigureCall? || call.ShutdownCall? || call.ResumeCall?
  }

  /** Any other tool call changes at most the two caches. */
  lemma OthersOnlyCache(w: World, call: Call)
    requires !IsMoving(call) && !call.Delivered?
    ensures var after := Effect(w, call).world;
            after == w.(variables := after.variables, cached := after.cached, breakpoints := after.breakpoints)
  {
    if call.ContextCall? {
      ThreadsOnlyCache(w, Targets(Given(call.threads), call.wanted));
    }
  }

  /** Events do not change what is known of the adapter. */
  lemma EventsKeepAdapter(w: World, event: Event)
    ensures var after := EventEffect(w, event).world;
            after.kind == w.kind && after.capable == w.capable && after.configured == w.configured
  {
    match event
    case InitializedEvent => AttemptsKeepAdapter(w, Initialized, "event:initialized");
    case StoppedEvent(stop) => AttemptsKeepAdapter(w.(halt := Recorded(stop)), Halted, "event:stopped");
    case ContinuedEvent => AttemptsKeepAdapter(w.(halt := CLEARED), Running, "event:continued");
    case _ =>
  }

  lemma AttemptsKeepAdapter(w: World, target: SessionState, reason: string)
    ensures var after := Attempt(w, target, reason).world;
            after.kind == w.kind && after.capable == w.capable && after.configured == w.configured
  {
  }

  /** Call `i` started an adapter. */
  ghost predicate Starts(calls: seq<Call>, i: nat) {
    i < |calls| && calls[i].StartCall? && calls[i].spawned && After(INITIAL, calls[..i]).state == Disconnected
  }

  ghost predicate LastStarts(calls: seq<Call>, i: nat) {
    Starts(calls, i) && forall j: nat :: i < j ==> !Starts(calls, j)
  }

  lemma StartsStay(calls: seq<Call>, i: nat)
    requires calls != [] && i < |calls| - 1
    ensures Starts(calls, i) <==> Starts(calls[..|calls| - 1], i)
  {
    assert calls[..|calls| - 1][..i] == calls[..i];
  }

  lemma LastStartsStep(calls: seq<Call>, i: nat)
    requires calls != []
    ensures LastStarts(calls, i) <==>
            if Starts(calls, |calls| - 1) then i == |calls| - 1 else LastStarts(calls[..|calls| - 1], i)
  {
    var init, n := calls[..|calls| - 1], |calls| - 1;
    forall j: nat
      ensures Starts(calls, j) <==> if j == n then Starts(calls, n) else Starts(init, j)
    {
      if j < n {
        StartsStay(calls, j);
      }
    }
  }

  lemma KindAfterCall(w: World, call: Call)
    requires Agree(w)
    ensures Effect(w, call).world.kind ==
            if call.StartCall? && call.spawned && w.state == Disconnected then Some(call.newKind) else w.kind
  {
    if call.Delivered? {
      EventsKeepAdapter(w, call.event);
    } else if !IsMoving(call) {
      OthersOnlyCache(w, call);
    }
  }

  /** The adapter's kind is that of the last adapter started, and unknown before the first. */
  lemma {:induction false} KindIsTheLastStarted(calls: seq<Call>, kind: AdapterKind)
    ensures After(INITIAL, calls).kind == Some(kind) <==>
            exists i: nat :: LastStarts(calls, i) && calls[i].newKind == kind
    ensures After(INITIAL, calls).kind == None <==> forall i: nat :: !Starts(calls, i)
  {
    if calls != [] {
      var init, last := calls[..|calls| - 1], calls[|calls| - 1];
      KindIsTheLastStarted(init, kind);
      PartsAlwaysAgree(init);
      KindAfterCall(After(INITIAL, init), last);
      StartsLast(calls);
      forall i: nat
        ensures LastStarts(calls, i) <==>
                if Starts(calls, |calls| - 1) then i == |calls| - 1 else LastStarts(init, i)
      {
        LastStartsStep(calls, i);
      }
      forall i: nat | i < |init|
        ensures Starts(calls, i) <==> Starts(init, i)
      {
        StartsStay(calls, i);
      }
    }
  }

  lemma StartsLast(calls: seq<Call>)
    requires calls != []
    ensures Starts(calls, |calls| - 1) <==>
            var last := calls[|calls| - 1];
            last.StartCall? && last.spawned && After(INITIAL, calls[..|calls| - 1]).state == Disconnected
  {
  }

  /** Call `i` is this one, and came in this state. */
  ghost predicate CameIn(calls: seq<Call>, i: nat, call: Call, state: SessionState) {
    i < |calls| && calls[i] == call && After(INITIAL, calls[..i]).state == state
  }

  ghost predicate EverCameIn(calls: seq<Call>, call: Call, state: SessionState) {
    exists i: nat :: CameIn(calls, i, call, state)
  }

  lemma CameInStays(calls: seq<Call>, i: nat, call: Call, state: SessionState)
    requires calls != [] && i < |calls| - 1
    ensures CameIn(calls, i, call, state) <==> CameIn(calls[..|calls| - 1], i, call, state)
  {
    assert calls[..|calls| - 1][..i] == calls[..i];
  }

  lemma EverCameInStep(calls: seq<Call>, call: Call, state: SessionState)
    requires calls != []
    ensures EverCameIn(calls, call, state) <==>
            EverCameIn(calls[..|calls| - 1], call, state) || CameIn(calls, |calls| - 1, call, state)
  {
    var init, n := calls[..|calls| - 1], |calls| - 1;
    forall i: nat
      ensures CameIn(calls, i, call, state) <==>
              if i == n then CameIn(calls, n, call, state) else CameIn(init, i, call, state)
    {
      if i < n {
        CameInStays(calls, i, call, state);
      }
    }
  }

  lemma FlagsAfterCall(w: World, call: Call)
    ensures Effect(w, call).world.capable <==> w.capable || (call == InitializeCall(true) && w.state == Connected)
    ensures Effect(w, call).world.configured <==>
            w.configured || (call == ConfigureCall(true) && w.state == Initialized)
  {
    if call.Delivered? {
      EventsKeepAdapter(w, call.event);
    } else if !IsMoving(call) {
      OthersOnlyCache(w, call);
    } else {
      FlagsAfterMoving(w, call);
    }
  }

  lemma FlagsAfterMoving(w: World, call: Call)
    requires IsMoving(call)
    ensures Effect(w, call).world.capable <==> w.capable || (call == InitializeCall(true) && w.state == Connected)
    ensures Effect(w, call).world.configured <==>
            w.configured || (call == ConfigureCall(true) && w.state == Initialized)
  {
  }

  /**
   Capabilities are recorded exactly if some `initialize` was answered in a connected session, and the
   configuration exactly if some `configuration_done` was in an initialized one.
   */
  lemma {:induction false} FlagsFollowHistory(calls: seq<Call>)
    ensures After(INITIAL, calls).capable <==> EverCameIn(calls, InitializeCall(true), Connected)
    ensures After(INITIAL, calls).configured <==> EverCameIn(calls, ConfigureCall(true), Initialized)
  {
    if calls != [] {
      FlagsFollowHistory(calls[..|calls| - 1]);
      FlagsAfterCall(After(INITIAL, calls[..|calls| - 1]), calls[|calls| - 1]);
      EverCameInStep(calls, InitializeCall(true), Connected);
      EverCameInStep(calls, ConfigureCall(true), Initialized);
    }
  }

  // ----- the details of a resumed session

  /** The last record of the trace left a halt for running. */
  predicate Resumed(trace: seq<Change>) {
    trace != [] && trace[|trace| - 1].from == Halted && trace[|trace| - 1].to == Running
  }

  lemma EventKeepsResumed(w: World, event: Event)
    requires w.state == Running && Resumed(w.trace) ==> w.halt == CLEARED
    ensures var after := EventEffect(w, event).world;
            after.state == Running && Resumed(after.trace) ==> after.halt == CLEARED
  {
  }

  lemma MovingKeepsResumed(w: World, call: Call)
    requires IsMoving(call) && (w.state == Running && Resumed(w.trace) ==> w.halt == CLEARED)
    ensures var after := Effect(w, call).world;
            after.state == Running && Resumed(after.trace) ==> after.halt == CLEARED
  {
  }

  lemma CallKeepsResumed(w: World, call: Call)
    requires w.state == Running && Resumed(w.trace) ==> w.halt == CLEARED
    ensures var after := Effect(w, call).world;
            after.state == Running && Resumed(after.trace) ==> after.halt == CLEARED
  {
    if call.Delivered? {
      EventKeepsResumed(w, call.event);
    } else if IsMoving(call) {
      MovingKeepsResumed(w, call);
    } else {
      OthersOnlyCache(w, call);
    }
  }

  /** A session that runs since it left a halt has no details of a stop, and no thread counts as stopped. */
  lemma {:induction false} ResumedHasNoDetails(calls: seq<Call>)
    ensures var w := After(INITIAL, calls);
            w.state == Running && Resumed(w.trace) ==>
              && w.halt == CLEARED && w.halt.lastStopReason == None && w.halt.hitBreakpointIds == []
              && forall thread :: !IsThreadStopped(w.halt, thread)
  {
    if calls != [] {
      ResumedHasNoDetails(calls[..|calls| - 1]);
      CallKeepsResumed(After(INITIAL, calls[..|calls| - 1]), calls[|calls| - 1]);
    }
  }

  lemma {:induction false} LastStopSays(calls: seq<Call>, i: nat)
    requires IsLastStop(calls, i)
    ensures LastStop(calls).lastStopReason ==
            Some(if calls[i].event.stop.Some? then calls[i].event.stop.value.reason else "Other(\"unknown\")")
    ensures LastStop(calls).hitBreakpointIds ==
            if calls[i].event.stop.Some? && calls[i].event.stop.value.hitBreakpointIds.Some?
            then calls[i].event.stop.value.hitBreakpointIds.value else []
  {
    var init := calls[..|calls| - 1];
    if i < |init| {
      assert IsLastStop(init, i);
      LastStopSays(init, i);
    }
  }

  /** In a halt the reason and the breakpoints hit are those the last `stopped` event gave. */
  lemma ReasonByHistory(calls: seq<Call>, w: World) returns (i: nat)
    requires w == After(INITIAL, calls) && w.state == Halted
    ensures IsLastStop(calls, i)
    ensures w.halt.lastStopReason ==
            Some(if calls[i].event.stop.Some? then calls[i].event.stop.value.reason else "Other(\"unknown\")")
    ensures w.halt.hitBreakpointIds ==
            if calls[i].event.stop.Some? && calls[i].event.stop.value.hitBreakpointIds.Some?
            then calls[i].event.stop.value.hitBreakpointIds.value else []
  {
    HaltAgreesWithHistory(calls);
    i := HaltedHasStop(calls);
    LastStopSays(calls, i);
  }

  // ----- breakpoints

  predicate TakesBreakpoints(state: SessionState) { state in {Initialized, Running, Halted} }

  /** What a call or event in this state does to the breakpoint cache, if anything. */
  function BreakpointOp(call: Call, state: SessionState): Option<Breakpoints.Op> {
    if call.SourceCall? && call.response.Some? && TakesBreakpoints(state) then
      Some(Breakpoints.SetSource(call.path, call.sources, call.response.value))
    else if call.FunctionCall? && call.response.Some? && TakesBreakpoints(state) then
      Some(Breakpoints.SetFunctions(call.functions, call.response.value))
    else if call.ShutdownCall? && state != Disconnected then Some(Breakpoints.Clear)
    else if call.Delivered? then BreakpointOpOf(call.event, state)
    else None
  }

  function BreakpointOpOf(event: Event, state: SessionState): Option<Breakpoints.Op> {
    if (event.TerminatedEvent? || event.ExitedEvent?) && state != Disconnected then Some(Breakpoints.Clear)
    else if event.BreakpointEvent? && event.breakpoint.Some? then
      Some(Breakpoints.Event(event.breakpoint.value, event.order))
    else None
  }

  function BreakpointOps(calls: seq<Call>): seq<Breakpoints.Op> {
    if calls == [] then []
    else
      var init := calls[..|calls| - 1];
      var op := BreakpointOp(calls[|calls| - 1], After(INITIAL, init).state);
      BreakpointOps(init) + if op.Some? then [op.value] else []
  }

  lemma PerformOneMore(ops: seq<Breakpoints.Op>, op: Breakpoints.Op)
    ensures Breakpoints.PerformAll(ops + [op]) == Breakpoints.Perform(Breakpoints.PerformAll(ops), op)
  {
    assert (ops + [op])[..|ops|] == ops;
  }

  lemma BreakpointsAfterEvent(w: World, event: Event)
    ensures EventEffect(w, event).world.breakpoints ==
            match BreakpointOpOf(event, w.state)
            case None => w.breakpoints
            case Some(op) => Breakpoints.Perform(w.breakpoints, op)
  {
  }

  lemma BreakpointsAfterMoving(w: World, call: Call)
    requires IsMoving(call)
    ensures Effect(w, call).world.breakpoints ==
            if call.ShutdownCall? && w.state != Disconnected then Breakpoints.EMPTY else w.breakpoints
  {
  }

  lemma BreakpointsAfterUpdate(w: World, call: Call)
    requires call.SourceCall? || call.FunctionCall?
    ensures Effect(w, call).world.breakpoints ==
            match BreakpointOp(call, w.state)
            case None => w.breakpoints
            case Some(op) => Breakpoints.Perform(w.breakpoints, op)
  {
  }

  lemma BreakpointsAfterCall(w: World, call: Call)
    ensures Effect(w, call).world.breakpoints ==
            match BreakpointOp(call, w.state)
            case None => w.breakpoints
            case Some(op) => Breakpoints.Perform(w.breakpoints, op)
  {
    if call.Delivered? {
      BreakpointsAfterEvent(w, call.event);
    } else if IsMoving(call) {
      BreakpointsAfterMoving(w, call);
    } else if call.SourceCall? || call.FunctionCall? {
      BreakpointsAfterUpdate(w, call);
    } else if call.ContextCall? {
      ThreadsOnlyCache(w, Targets(Given(call.threads), call.wanted));
    }
  }

  /** The session's breakpoints are what those operations make of an empty cache. */
  lemma {:induction false} BreakpointsFollowHistory(calls: seq<Call>)
    ensures After(INITIAL, calls).breakpoints == Breakpoints.PerformAll(BreakpointOps(calls))
  {
    if calls != [] {
      var init, last := calls[..|calls| - 1], calls[|calls| - 1];
      BreakpointsFollowHistory(init);
      BreakpointsAfterCall(After(INITIAL, init), last);
      var op := BreakpointOp(last, After(INITIAL, init).state);
      AppendNothing(BreakpointOps(init));
      if op.Some? {
        PerformOneMore(BreakpointOps(init), op.value);
      }
    }
  }

  /**
   So after any history, setting the breakpoints of a file in an active session leaves it with one entry
   for each pair of request and response, which says what they say.
   */
  lemma SetBreakpointsAreCached(calls: seq<Call>, path: string, sources: seq<Breakpoints.SourceBreakpoint>,
                                response: seq<Breakpoints.Breakpoint>, i: nat)
    requires TakesBreakpoints(After(INITIAL, calls).state)
    ensures var t := After(INITIAL, calls + [SourceCall(path, sources, Some(response))]).breakpoints;
            var slot := Breakpoints.SourceSlot(path, i);
            && (Breakpoints.InTable(t, slot) <==> i < |sources| && i < |response|)
            && (Breakpoints.InTable(t, slot) ==>
                  Breakpoints.EntryOfSource(Breakpoints.At(t, slot), path, sources[i], response[i], true))
  {
    var all := calls + [SourceCall(path, sources, Some(response))];
    assert all[..|calls|] == calls;
    BreakpointsFollowHistory(all);
    Breakpoints.SourceEntries(BreakpointOps(all), |BreakpointOps(calls)|, path, i);
  }

  lemma SetFunctionsAreCached(calls: seq<Call>, functions: seq<Breakpoints.FunctionBreakpoint>,
                              response: seq<Breakpoints.Breakpoint>, i: nat)
    requires TakesBreakpoints(After(INITIAL, calls).state)
    ensures var t := After(INITIAL, calls + [FunctionCall(functions, Some(response))]).breakpoints;
            var slot := Breakpoints.FunctionSlot(i);
            && (Breakpoints.InTable(t, slot) <==> i < |functions| && i < |response|)
            && (Breakpoints.InTable(t, slot) ==>
                  Breakpoints.EntryOfFunction(Breakpoints.At(t, slot), functions[i], response[i], true))
  {
    var all := calls + [FunctionCall(functions, Some(response))];
    assert all[..|calls|] == calls;
    BreakpointsFollowHistory(all);
    Breakpoints.FunctionEntries(BreakpointOps(all), |BreakpointOps(calls)|, i);
  }

  // ----- variables

  /** A variable that was answered, and the frame and scope it was asked for in. */
  datatype Seen = Seen(variable: Variable, frameId: Option<nat>, scopeName: Option<string>)

  function SeenIn(variables: seq<Variable>, frameId: Option<nat>, scopeName: Option<string>): seq<Seen> {
    seq(|variables|, i requires 0 <= i < |variables| => Seen(variables[i], frameId, scopeName))
  }

  /** The variables answered for the scopes that have any, in the order they are visited. */
  function SeenInScopes(frame: nat, scopes: seq<ScopeAnswer>): seq<Seen> {
    if scopes == [] then []
    else
      var here := scopes[0];
      (if here.variablesReference > 0 && here.variables.Some?
       then SeenIn(here.variables.value, Some(frame), Some(here.name)) else []) + SeenInScopes(frame, scopes[1..])
  }

  function SeenInFrames(frames: seq<FrameAnswer>): seq<Seen> {
    if frames == [] then []
    else
      (if frames[0].scopes.Some? then SeenInScopes(frames[0].id, frames[0].scopes.value) else []) +
      SeenInFrames(frames[1..])
  }

  function SeenInThreads(threads: seq<ThreadAnswer>): seq<Seen> {
    if threads == [] then []
    else
      (if threads[0].frames.Some? then SeenInFrames(threads[0].frames.value) else []) + SeenInThreads(threads[1..])
  }

  /** The cache entry says what was answered. */
  predicate Says(e: VariableCache.Entry, seen: Seen) {
    && e.variablesReference == seen.variable.variablesReference && e.name == seen.variable.name
    && e.varType == seen.variable.varType && e.namedVariables == seen.variable.namedVariables
    && e.indexedVariables == seen.variable.indexedVariables && e.capturedAt == seen.variable.seenAt
    && e.frameId == seen.frameId && e.scopeName == seen.scopeName
  }

  predicate SayAll(entries: seq<VariableCache.Entry>, seen: seq<Seen>) {
    |entries| == |seen| && forall i :: 0 <= i < |seen| ==> Says(entries[i], seen[i])
  }

  lemma SayBoth(a: seq<VariableCache.Entry>, b: seq<VariableCache.Entry>, x: seq<Seen>, y: seq<Seen>)
    requires SayAll(a, x) && SayAll(b, y)
    ensures SayAll(a + b, x + y)
  {
  }

  lemma EntriesSay(variables: seq<Variable>, frameId: Option<nat>, scopeName: Option<string>)
    ensures SayAll(EntriesFrom(variables, frameId, scopeName), SeenIn(variables, frameId, scopeName))
  {
  }

  lemma {:induction false} ScopesSay(frame: nat, scopes: seq<ScopeAnswer>)
    ensures SayAll(ScopesEntries(frame, scopes), SeenInScopes(frame, scopes))
  {
    if scopes != [] {
      var here := scopes[0];
      ScopesSay(frame, scopes[1..]);
      EntriesSay(Given(here.variables), Some(frame), Some(here.name));
      SayBoth(if here.variablesReference == 0 then [] else ScopeEntries(frame, here),
              ScopesEntries(frame, scopes[1..]),
              if here.variablesReference > 0 && here.variables.Some?
              then SeenIn(here.variables.value, Some(frame), Some(here.name)) else [],
              SeenInScopes(frame, scopes[1..]));
    }
  }

  lemma {:induction false} FramesSay(frames: seq<FrameAnswer>)
    ensures SayAll(FramesEntries(frames), SeenInFrames(frames))
  {
    if frames != [] {
      var here := frames[0];
      FramesSay(frames[1..]);
      ScopesSay(here.id, Given(here.scopes));
      SayBoth(ScopesEntries(here.id, Given(here.scopes)), FramesEntries(frames[1..]),
              if here.scopes.Some? then SeenInScopes(here.id, here.scopes.value) else [], SeenInFrames(frames[1..]));
    }
  }

  /** What assembling context caches, place by place. */
  lemma {:induction false} ThreadsSay(threads: seq<ThreadAnswer>)
    ensures SayAll(ThreadsEntries(threads), SeenInThreads(threads))
  {
    if threads != [] {
      var here := threads[0];
      ThreadsSay(threads[1..]);
      FramesSay(Given(here.frames));
      SayBoth(FramesEntries(Given(here.frames)), ThreadsEntries(threads[1..]),
              if here.frames.Some? then SeenInFrames(here.frames.value) else [], SeenInThreads(threads[1..]));
    }
  }

  /** Nothing of the same name, frame and scope was seen later. */
  ghost predicate LastSeen(seen: seq<Seen>, k: nat) {
    && k < |seen|
    && forall j :: k < j < |seen| ==>
         (seen[j].variable.name, seen[j].frameId, seen[j].scopeName) !=
         (seen[k].variable.name, seen[k].frameId, seen[k].scopeName)
  }

  /** A lookup in the table finds what was seen. */
  ghost predicate IsFound(t: VariableCache.Table, seen: Seen) {
    var found := VariableCache.LookupIn(t, seen.variable.name, seen.frameId, seen.scopeName);
    found.Some? && Says(found.value, seen)
  }

  lemma LastIsFound(t: VariableCache.Table, log: seq<VariableCache.Entry>, entries: seq<VariableCache.Entry>,
                    seen: seq<Seen>, k: nat)
    requires VariableCache.Indexes(t, log) && SayAll(entries, seen) && LastSeen(seen, k)
    ensures IsFound(VariableCache.InsertAll(t, entries), seen[k])
  {
    var all, i := log + entries, |log| + k;
    VariableCache.BatchIndexes(t, log, entries);
    assert all[i] == entries[k];
    forall j | i < j < |all|
      ensures VariableCache.KeyOf(all[j]) != VariableCache.KeyOf(all[i])
    {
      assert all[j] == entries[j - |log|];
    }
    assert VariableCache.IsLive(all, i);
    VariableCache.LastWriteIsLive(all, i);
    VariableCache.ExactMatchIsLastWrite(VariableCache.InsertAll(t, entries), all, seen[k].variable.name,
                                        seen[k].frameId, seen[k].scopeName);
  }

  /**
   After any history that leaves the session halted, asking for variables makes each answered variable
   that is the last of its name found for that frame and scope, with the reference, the type and the
   child counts it was answered with.
   */
  lemma VariablesAreFound(calls: seq<Call>, w: World, answer: seq<Variable>, frameId: Option<nat>,
                          scopeName: Option<string>, k: nat)
    requires w == After(INITIAL, calls) && w.state == Halted && LastSeen(SeenIn(answer, frameId, scopeName), k)
    ensures IsFound(Effect(w, VariablesCall(Some(answer), frameId, scopeName)).world.variables.entries,
                    Seen(answer[k], frameId, scopeName))
  {
    CallsKeepFresh(calls);
    AnswerIsFound(w, answer, frameId, scopeName, k);
  }

  lemma AnswerIsFound(w: World, answer: seq<Variable>, frameId: Option<nat>, scopeName: Option<string>, k: nat)
    requires w.state == Halted && CacheFollows(w) && LastSeen(SeenIn(answer, frameId, scopeName), k)
    ensures IsFound(Effect(w, VariablesCall(Some(answer), frameId, scopeName)).world.variables.entries,
                    Seen(answer[k], frameId, scopeName))
  {
    EntriesSay(answer, frameId, scopeName);
    LastIsFound(w.variables.entries, EntriesOf(w.cached), EntriesFrom(answer, frameId, scopeName),
                SeenIn(answer, frameId, scopeName), k);
  }

  /** These are the places in `threads` of all threads with this id, in order. */
  ghost predicate PlacesOf(threads: seq<ThreadAnswer>, id: nat, places: seq<nat>) {
    && (forall n :: 0 <= n < |places| ==> places[n] < |threads|)
    && (forall n, m :: 0 <= n < m < |places| ==> places[n] < places[m])
    && (forall i: nat :: i < |threads| ==> (i in places <==> threads[i].id == id))
  }

  function Picked(threads: seq<ThreadAnswer>, places: seq<nat>): seq<ThreadAnswer>
    requires forall n :: 0 <= n < |places| ==> places[n] < |threads|
  {
    seq(|places|, n requires 0 <= n < |places| => threads[places[n]])
  }

  /** The threads context is assembled for: all, or those with the wanted id, in the adapter's order. */
  lemma {:induction false} TargetsMeaning(threads: seq<ThreadAnswer>, id: nat) returns (places: seq<nat>)
    ensures Targets(threads, None) == threads && PlacesOf(threads, id, places)
    ensures Targets(threads, Some(id)) == Picked(threads, places)
  {
    places := [];
    if threads != [] {
      var later := TargetsMeaning(threads[1..], id);
      places := OnePlaceFurther(threads, id, later);
    }
  }

  lemma OnePlaceFurther(threads: seq<ThreadAnswer>, id: nat, later: seq<nat>) returns (places: seq<nat>)
    requires threads != [] && PlacesOf(threads[1..], id, later)
    ensures PlacesOf(threads, id, places)
    ensures Picked(threads, places) ==
            (if threads[0].id == id then [threads[0]] else []) + Picked(threads[1..], later)
  {
    var shifted := seq(|later|, n requires 0 <= n < |later| => later[n] + 1);
    var here: seq<nat> := if threads[0].id == id then [0] else [];
    places := here + shifted;
    PickedBoth(threads, here, shifted);
    assert Picked(threads, shifted) == Picked(threads[1..], later);
    forall i: nat | i < |threads|
      ensures i in places <==> threads[i].id == id
    {
      PlaceMember(threads, id, later, shifted, i);
    }
  }

  lemma PlaceMember(threads: seq<ThreadAnswer>, id: nat, later: seq<nat>, shifted: seq<nat>, i: nat)
    requires threads != [] && PlacesOf(threads[1..], id, later) && i < |threads|
    requires |shifted| == |later| && forall n :: 0 <= n < |later| ==> shifted[n] == later[n] + 1
    ensures i in (if threads[0].id == id then [0] else []) + shifted <==> threads[i].id == id
  {
    ShiftedMember(later, shifted, i);
    if i > 0 {
      assert threads[i] == threads[1..][i - 1];
    }
  }

  lemma PickedBoth(threads: seq<ThreadAnswer>, a: seq<nat>, b: seq<nat>)
    requires forall n :: 0 <= n < |a| ==> a[n] < |threads|
    requires forall n :: 0 <= n < |b| ==> b[n] < |threads|
    ensures Picked(threads, a + b) == Picked(threads, a) + Picked(threads, b)
  {
  }

  lemma ShiftedMember(later: seq<nat>, shifted: seq<nat>, i: nat)
    requires |shifted| == |later| && forall n :: 0 <= n < |later| ==> shifted[n] == later[n] + 1
    ensures i in shifted <==> i > 0 && i - 1 in later
  {
    if i > 0 && i - 1 in later {
      var n :| 0 <= n < |later| && later[n] == i - 1;
      assert shifted[n] == i;
    }
  }

  /**
   And so does assembling context, for every variable it is answered about the wanted threads that is the
   last of its name, frame and scope.
   */
  lemma ContextIsFound(calls: seq<Call>, w: World, wanted: Option<nat>, deep: bool, threads: seq<ThreadAnswer>, k: nat)
    requires w == After(INITIAL, calls) && w.state == Halted && LastSeen(SeenInThreads(Targets(threads, wanted)), k)
    ensures IsFound(Effect(w, ContextCall(wanted, deep, Some(threads))).world.variables.entries,
                    SeenInThreads(Targets(threads, wanted))[k])
  {
    CallsKeepFresh(calls);
    var targets := Targets(threads, wanted);
    assert Effect(w, ContextCall(wanted, deep, Some(threads))).world == ThreadsEffect(w, targets);
    ThreadsAreFound(w, targets, SeenInThreads(targets), k);
  }

  lemma ThreadsAreFound(w: World, threads: seq<ThreadAnswer>, seen: seq<Seen>, k: nat)
    requires w.state == Halted && CacheFollows(w) && seen == SeenInThreads(threads) && LastSeen(seen, k)
    ensures IsFound(ThreadsEffect(w, threads).variables.entries, seen[k])
  {
    ContextTakesInAll(w, threads);
    ThreadsSay(threads);
    LastIsFound(w.variables.entries, EntriesOf(w.cached), ThreadsEntries(threads), seen, k);
  }
}
