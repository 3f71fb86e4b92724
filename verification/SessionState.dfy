/** The five session states, the operations they allow, and the details of a halt. */
module SessionStates {
  import opened Prelude

  datatype SessionState = Disconnected | Connected | Initialized | Running | Halted

  predicate CanTransitionTo(from: SessionState, to: SessionState) {
    match from
    case Disconnected => to == Connected
    case Connected => to == Initialized || to == Disconnected
    case Initialized => to == Running || to == Disconnected
    case Running => to == Halted || to == Disconnected
    case Halted => to == Running || to == Disconnected
  }

  function ValidPredecessors(to: SessionState): seq<SessionState> {
    match to
    case Disconnected => [Connected, Initialized, Running, Halted]
    case Connected => [Disconnected]
    case Initialized => [Connected]
    case Running => [Initialized, Halted]
    case Halted => [Running]
  }

  datatype Operation =
    | Start | Initialize | Launch | Attach | ConfigurationDone | Shutdown
    | Continue | StepOver | StepIn | StepOut | Pause
    | SetBreakpoints | SetFunctionBreakpoints
    | GetThreads | GetStackTrace | GetScopes | GetVariables | Evaluate | SetVariable | AssembleContext

  function AllowedStates(op: Operation): seq<SessionState> {
    match op
    case Start => [Disconnected]
    case Initialize => [Connected]
    case Launch => [Initialized]
    case Attach => [Initialized]
    case ConfigurationDone => [Initialized]
    case Shutdown => [Connected, Initialized, Running, Halted]
    case Pause => [Running]
    case SetBreakpoints => [Initialized, Running, Halted]
    case SetFunctionBreakpoints => [Initialized, Running, Halted]
    case GetThreads => [Running, Halted]
    case _ => [Halted]
  }

  predicate IsAllowed(op: Operation, state: SessionState) { state in AllowedStates(op) }

  /** The operations that end in a fixed transition. */
  function TargetOf(op: Operation): Option<SessionState> {
    match op
    case Start => Some(Connected)
    case Initialize => Some(Initialized)
    case ConfigurationDone => Some(Running)
    case Continue => Some(Running)
    case StepOver => Some(Running)
    case StepIn => Some(Running)
    case StepOut => Some(Running)
    case Shutdown => Some(Disconnected)
    case _ => None
  }

  /**
   The two tables of transitions agree, and the gate of every operation that ends in a
   transition lets through only states from which that transition is legal.
   */
  lemma TablesAgree(from: SessionState, to: SessionState, op: Operation)
    ensures from in ValidPredecessors(to) <==> CanTransitionTo(from, to)
    ensures TargetOf(op) == Some(to) && IsAllowed(op, from) ==> CanTransitionTo(from, to)
  {
  }

  /** The operations of each state: the gates' table, read the other way. */
  lemma OperationsByState(op: Operation)
    ensures IsAllowed(op, Disconnected) <==> op == Start
    ensures IsAllowed(op, Connected) <==> op in {Initialize, Shutdown}
    ensures IsAllowed(op, Initialized) <==>
            op in {Launch, Attach, ConfigurationDone, Shutdown, SetBreakpoints, SetFunctionBreakpoints}
    ensures IsAllowed(op, Running) <==> op in {Shutdown, Pause, SetBreakpoints, SetFunctionBreakpoints, GetThreads}
    ensures IsAllowed(op, Halted) <==>
            op in {Shutdown, Continue, StepOver, StepIn, StepOut, SetBreakpoints, SetFunctionBreakpoints, GetThreads,
                   GetStackTrace, GetScopes, GetVariables, Evaluate, SetVariable, AssembleContext}
  {
  }

  // ----- halt details

  datatype Halt = Halt(
    stoppedThreads: set<nat>,
    allThreadsStopped: bool,
    lastStopReason: Option<string>,
    hitBreakpointIds: seq<nat>)

  const CLEARED := Halt({}, false, None, [])

  predicate IsThreadStopped(h: Halt, thread: nat) { h.allThreadsStopped || thread in h.stoppedThreads }

  /** The body of a `stopped` event; `reason` is the text its reason is recorded as. */
  datatype StopBody = StopBody(
    reason: string,
    threadId: Option<nat>,
    allThreadsStopped: Option<bool>,
    hitBreakpointIds: Option<seq<nat>>)

  /** What stands in for a body that does not deserialise. */
  const UNKNOWN_STOP := StopBody("Other(\"unknown\")", None, None, None)

  function Recorded(body: Option<StopBody>): Halt {
    var b := if body.Some? then body.value else UNKNOWN_STOP;
    Halt(if b.threadId.Some? then {b.threadId.value} else {},
         b.allThreadsStopped == Some(true),
         Some(b.reason),
         if b.hitBreakpointIds.Some? then b.hitBreakpointIds.value else [])
  }

  function WithoutThread(h: Halt, thread: nat): Halt {
    h.(stoppedThreads := h.stoppedThreads - {thread})
  }
}
