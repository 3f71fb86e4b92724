/** The imperative session: fields behind locks, updated method by method. */
module DebugSessions {
  import opened Prelude
  import opened SessionStates
  import opened SessionModel
  import opened SessionRuns
  import VariableCache
  import Breakpoints

  class DebugSession {
    var state: SessionState
    var halt: Halt
    var kind: Option<AdapterKind>
    var child: bool
    var capable: bool
    var configured: bool
    const variables: VariableCache.VariableHandleCache
    const breakpoints: Breakpoints.BreakpointCache
    var watched: SessionState
    var receivers: map<nat, nat>
    var trace: seq<Change>
    ghost var cached: seq<Stamped>

    ghost function View(): World
      reads this, variables, breakpoints
    {
      World(state, halt, kind, child, capable, configured, variables.View(), breakpoints.View(),
            watched, receivers, trace, cached)
    }

    constructor ()
      ensures View() == INITIAL && fresh(variables) && fresh(breakpoints)
    {
      state, halt, kind := Disconnected, CLEARED, None;
      child, capable, configured := false, false, false;
      variables := new VariableCache.VariableHandleCache();
      breakpoints := new Breakpoints.BreakpointCache();
      watched, receivers, trace, cached := Disconnected, map[], [], [];
    }

    /** A new receiver of the watch channel sees the channel's value. */
    method StateWatcher(receiver: nat) returns (seen: SessionState)
      requires receiver !in receivers
      modifies this`receivers
      ensures receivers == old(receivers)[receiver := |trace|] && seen == watched
    {
      receivers := receivers[receiver := |trace|];
      seen := watched;
    }

    method TransitionTo(target: SessionState, reason: string) returns (ok: bool)
      modifies this, variables
      ensures Result(View(), ok) == Attempt(old(View()), target, reason)
    {
      if !CanTransitionTo(state, target) {
        return false;
      }
      var from := state;
      state := target;
      if from == Halted && (target == Running || target == Disconnected) {
        variables.Invalidate();
        cached := [];
      }
      trace := trace + [Change(from, target, reason, receivers != map[])];
      if receivers != map[] {
        watched := target;
      }
      ok := true;
    }

    method Start(newKind: AdapterKind, spawned: bool) returns (ok: bool)
      modifies this, variables
      ensures Result(View(), ok) == Effect(old(View()), StartCall(newKind, spawned))
    {
      if !IsAllowed(Operation.Start, state) || child || !spawned {
        return false;
      }
      child := true;
      kind := Some(newKind);
      ok := TransitionTo(Connected, "start");
    }

    method Initialize(answered: bool) returns (ok: bool)
      modifies this, variables
      ensures Result(View(), ok) == Effect(old(View()), InitializeCall(answered))
    {
      if !IsAllowed(Operation.Initialize, state) || !answered {
        return false;
      }
      capable := true;
      ok := TransitionTo(Initialized, "initialize");
    }

    /** Whether the request's response is awaited depends on the adapter's kind. */
    method WaitsForResponse() returns (waits: bool)
      ensures waits <==> kind == Some(Gdb)
    {
      match kind
      case None => waits := false;
      case Some(Codelldb) => waits := false;
      case Some(Gdb) => waits := true;
    }

    /** `answered` is the success of a request that is awaited, `sent` of one that is not. */
    method Launch(answered: bool, sent: bool) returns (ok: bool)
      ensures Result(View(), ok) == Effect(View(), LaunchCall(if kind == Some(Gdb) then answered else sent))
    {
      if !IsAllowed(Operation.Launch, state) {
        return false;
      }
      var waits := WaitsForResponse();
      ok := if waits then answered else sent;
    }

    method ConfigurationDone(answered: bool, sent: bool) returns (ok: bool)
      modifies this, variables
      ensures Result(View(), ok) ==
              Effect(old(View()), ConfigureCall(if old(kind) == Some(Gdb) then answered else sent))
    {
      if !IsAllowed(Operation.ConfigurationDone, state) {
        return false;
      }
      var waits := WaitsForResponse();
      if !(if waits then answered else sent) {
        return false;
      }
      configured := true;
      ok := TransitionTo(Running, "configuration_done");
    }

    /** Leave the current state after the adapter was killed, unless already disconnected. */
    method Close(reason: string) returns (ok: bool)
      modifies this, variables, breakpoints
      ensures Result(View(), ok) == Closed(old(View()), reason)
    {
      ok := true;
      if state != Disconnected {
        ok := TransitionTo(Disconnected, reason);
        breakpoints.Clear();
      }
    }

    method Shutdown() returns (ok: bool)
      modifies this, variables, breakpoints
      ensures Result(View(), ok) == Effect(old(View()), ShutdownCall)
    {
      if !IsAllowed(Operation.Shutdown, state) {
        return false;
      }
      child := false;
      ok := Close("shutdown");
    }

    /** `continue_execution`, `step_over`, `step_in` and `step_out`. */
    method Resume(op: Resuming, answered: bool) returns (ok: bool)
      modifies this, variables
      ensures Result(View(), ok) == Effect(old(View()), ResumeCall(op, answered))
    {
      if !IsAllowed(op, state) || !answered {
        return false;
      }
      halt := CLEARED;
      ok := TransitionTo(Running, NameOf(op));
    }

    method Query(op: Querying, answered: bool) returns (ok: bool)
      ensures ok <==> state in AllowedStates(op) && answered
    {
      ok := IsAllowed(op, state) && answered;
    }

    /** The tool: the session updates its cache from the answer, then the handler does so again. */
    method SetBreakpoints(path: string, requests: seq<Breakpoints.SourceBreakpoint>,
                          response: Option<seq<Breakpoints.Breakpoint>>) returns (ok: bool)
      modifies breakpoints
      ensures Result(View(), ok) == Effect(old(View()), SourceCall(path, requests, response))
    {
      if !IsAllowed(Operation.SetBreakpoints, state) || response.None? {
        return false;
      }
      ghost var change := Breakpoints.SetSource(path, requests, response.value);
      UpdateTwice(breakpoints.View(), change);
      breakpoints.UpdateSourceBreakpoints(path, requests, response.value);
      breakpoints.UpdateSourceBreakpoints(path, requests, response.value);
      ok := true;
    }

    method SetFunctionBreakpoints(requests: seq<Breakpoints.FunctionBreakpoint>,
                                  response: Option<seq<Breakpoints.Breakpoint>>) returns (ok: bool)
      modifies breakpoints
      ensures Result(View(), ok) == Effect(old(View()), FunctionCall(requests, response))
    {
      if !IsAllowed(Operation.SetFunctionBreakpoints, state) || response.None? {
        return false;
      }
      breakpoints.UpdateFunctionBreakpoints(requests, response.value);
      breakpoints.UpdateFunctionBreakpoints(requests, response.value);
      ok := true;
    }

    method CacheVariables(answer: seq<Variable>, frameId: Option<nat>, scopeName: Option<string>)
      modifies this`cached, variables
      ensures variables.View() ==
              VariableCache.Perform(old(variables.View()),
                                    VariableCache.InsertBatch(EntriesFrom(answer, frameId, scopeName)))
      ensures cached == old(cached) + StampAll(EntriesFrom(answer, frameId, scopeName), |trace|)
    {
      var entries := EntriesFrom(answer, frameId, scopeName);
      variables.InsertBatch(entries);
      cached := cached + StampAll(entries, |trace|);
    }

    /** The tool: ask for variables, then cache the answer. */
    method GetVariables(answer: Option<seq<Variable>>, frameId: Option<nat>, scopeName: Option<string>)
      returns (ok: bool)
      modifies this`cached, variables
      ensures Result(View(), ok) ==
              Effect(old(View()), VariablesCall(answer, frameId, scopeName))
    {
      if !IsAllowed(Operation.GetVariables, state) || answer.None? {
        return false;
      }
      CacheVariables(answer.value, frameId, scopeName);
      ok := true;
    }

    /** `order` is the order in which the breakpoint cache's hash map is iterated. */
    method HandleEvent(event: Event) returns (ok: bool)
      requires event.BreakpointEvent? ==> IterationOrder(breakpoints.sourceBreakpoints, event.order)
      modifies this, variables, breakpoints
      ensures Result(View(), ok) == EventEffect(old(View()), event)
    {
      ok := true;
      match event
      case InitializedEvent =>
        if state != Initialized {
          ok := TransitionTo(Initialized, "event:initialized");
        }
      case StoppedEvent(stop) =>
        halt := Recorded(stop);
        ok := TransitionTo(Halted, "event:stopped");
      case ContinuedEvent =>
        halt := CLEARED;
        if state != Running {
          ok := TransitionTo(Running, "event:continued");
        }
      case TerminatedEvent =>
        child := false;
        ok := Close("event:terminated");
      case ExitedEvent =>
        child := false;
        ok := Close("event:exited");
      case BreakpointEvent(b, order) =>
        if b.Some? && b.value.id.Some? {
          var found := breakpoints.UpdateById(b.value, order);
        }
      case ThreadEvent(reason, threadId) =>
        if reason == Some("exited") && threadId.Some? {
          halt := WithoutThread(halt, threadId.value);
        }
      case OtherEvent =>
    }

    /**
     The tool, behind the dispatcher's gate: for every scope of every frame of the wanted threads,
     ask for its variables and cache them. A failed or refused request skips what it was for.
     */
    method AssembleContext(wanted: Option<nat>, deep: bool, threads: Option<seq<ThreadAnswer>>) returns (ok: bool)
      modifies this`cached, variables
      ensures Result(View(), ok) == Effect(old(View()), ContextCall(wanted, deep, threads))
    {
      ok := IsAllowed(Operation.AssembleContext, state);
      if !ok {
        return;
      }
      ok := Query(GetThreads, threads.Some?);
      if !ok {
        return;
      }
      CacheThreads(Targets(threads.value, wanted), deep);
    }

    /** Outside a halt every stack trace is refused, so nothing is cached. */
    method CacheThreads(threads: seq<ThreadAnswer>, deep: bool)
      modifies this`cached, variables
      ensures View() == ThreadsEffect(old(View()), threads)
    {
      for i := 0 to |threads|
        invariant ThreadsEffect(View(), threads[i..]) == ThreadsEffect(old(View()), threads)
      {
        assert threads[i..][1..] == threads[i + 1..];
        var asked := Query(GetStackTrace, threads[i].frames.Some?);
        if asked {
          CacheFrames(threads[i].frames.value, deep);
        }
      }
    }

    method CacheFrames(frames: seq<FrameAnswer>, deep: bool)
      requires state == Halted
      modifies this`cached, variables
      ensures View() == FramesEffect(old(View()), frames)
    {
      for j := 0 to |frames|
        invariant FramesEffect(View(), frames[j..]) == FramesEffect(old(View()), frames)
      {
        assert frames[j..][1..] == frames[j + 1..];
        var asked := Query(GetScopes, frames[j].scopes.Some?);
        if asked {
          CacheScopes(frames[j].id, frames[j].scopes.value, deep);
        }
      }
    }

    method CacheScopes(frame: nat, scopes: seq<ScopeAnswer>, deep: bool)
      requires state == Halted
      modifies this`cached, variables
      ensures View() == ScopesEffect(old(View()), frame, scopes)
    {
      for k := 0 to |scopes|
        invariant ScopesEffect(View(), frame, scopes[k..]) == ScopesEffect(old(View()), frame, scopes)
      {
        assert scopes[k..][1..] == scopes[k + 1..];
        if scopes[k].variablesReference > 0 && IsAllowed(Operation.GetVariables, state) && scopes[k].variables.Some? {
          CacheVariables(scopes[k].variables.value, Some(frame), Some(scopes[k].name));
          var expanded := AskForChildren(scopes[k].variables.value, deep);
        }
      }
    }

    /** A variable with a reference, if it is asked about in a halt and the adapter answers. */
    predicate GetsChildren(v: Variable, deep: bool)
      reads this`state
    {
      deep && v.variablesReference > 0 && state == Halted && v.children
    }

    /** Which of the top-level variables get children. */
    method AskForChildren(parents: seq<Variable>, deep: bool) returns (expanded: seq<bool>)
      ensures |expanded| == |parents|
      ensures forall i :: 0 <= i < |parents| ==> (expanded[i] <==> GetsChildren(parents[i], deep))
    {
      expanded := [];
      for i := 0 to |parents|
        invariant |expanded| == i
        invariant forall k :: 0 <= k < i ==> (expanded[k] <==> GetsChildren(parents[k], deep))
      {
        var given := false;
        if parents[i].variablesReference > 0 && deep {
          given := IsAllowed(Operation.GetVariables, state) && parents[i].children;
        }
        expanded := expanded + [given];
      }
    }
  }
}
