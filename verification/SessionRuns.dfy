/**
 Runs of whole calls: what the session's parts agree on after any sequence of tool calls and
 delivered events, each without interruption.
 */
module SessionRuns {
  import opened Prelude
  import opened SessionStates
  import opened SessionModel
  import Breakpoints
  import VariableCache

  function After(w: World, calls: seq<Call>): World {
    if calls == [] then w else Effect(After(w, calls[..|calls| - 1]), calls[|calls| - 1]).world
  }

  // ----- assembling context

  /** The world differs at most in the variable cache and its history. */
  predicate OnlyCaches(w: World, after: World) {
    after == w.(variables := after.variables, cached := after.cached)
  }

  lemma {:induction false} ScopesOnlyCache(w: World, frame: nat, scopes: seq<ScopeAnswer>)
    ensures OnlyCaches(w, ScopesEffect(w, frame, scopes))
    decreases |scopes|
  {
    if scopes != [] {
      var asked := scopes[0].variablesReference != 0 && w.state == Halted && scopes[0].variables.Some?;
      ScopesOnlyCache(if asked then Cached(w, ScopeEntries(frame, scopes[0]), |w.trace|) else w, frame, scopes[1..]);
    }
  }

  lemma {:induction false} FramesOnlyCache(w: World, frames: seq<FrameAnswer>)
    ensures OnlyCaches(w, FramesEffect(w, frames))
    decreases |frames|
  {
    if frames != [] {
      if w.state == Halted && frames[0].scopes.Some? {
        ScopesOnlyCache(w, frames[0].id, frames[0].scopes.value);
        FramesOnlyCache(ScopesEffect(w, frames[0].id, frames[0].scopes.value), frames[1..]);
      } else {
        FramesOnlyCache(w, frames[1..]);
      }
    }
  }

  lemma {:induction false} ThreadsOnlyCache(w: World, threads: seq<ThreadAnswer>)
    ensures OnlyCaches(w, ThreadsEffect(w, threads))
    decreases |threads|
  {
    if threads != [] {
      if w.state == Halted && threads[0].frames.Some? {
        FramesOnlyCache(w, threads[0].frames.value);
        ThreadsOnlyCache(FramesEffect(w, threads[0].frames.value), threads[1..]);
      } else {
        ThreadsOnlyCache(w, threads[1..]);
      }
    }
  }

  function ScopesEntries(frame: nat, scopes: seq<ScopeAnswer>): seq<VariableCache.Entry> {
    if scopes == [] then []
    else (if scopes[0].variablesReference == 0 then [] else ScopeEntries(frame, scopes[0])) +
         ScopesEntries(frame, scopes[1..])
  }

  function FramesEntries(frames: seq<FrameAnswer>): seq<VariableCache.Entry> {
    if frames == [] then []
    else ScopesEntries(frames[0].id, Given(frames[0].scopes)) + FramesEntries(frames[1..])
  }

  /** The variables of all scopes of all frames of the threads, in the order they are visited. */
  function ThreadsEntries(threads: seq<ThreadAnswer>): seq<VariableCache.Entry> {
    if threads == [] then []
    else FramesEntries(Given(threads[0].frames)) + ThreadsEntries(threads[1..])
  }

  /** The variable cache took in these entries, all asked for at this time. */
  ghost predicate TookIn(w: World, after: World, entries: seq<VariableCache.Entry>) {
    && OnlyCaches(w, after)
    && after.variables.entries == VariableCache.InsertAll(w.variables.entries, entries)
    && after.cached == w.cached + StampAll(entries, |w.trace|)
  }

  lemma TookInNothing(w: World)
    ensures TookIn(w, w, [])
  {
    assert StampAll([], |w.trace|) == [];
  }

  lemma {:induction false} InsertBoth(t: VariableCache.Table, a: seq<VariableCache.Entry>, b: seq<VariableCache.Entry>)
    ensures VariableCache.InsertAll(t, a + b) == VariableCache.InsertAll(VariableCache.InsertAll(t, a), b)
  {
    if b == [] {
      AppendNothing(a);
    } else {
      InsertBoth(t, a, b[..|b| - 1]);
      assert (a + b)[..|a + b| - 1] == a + b[..|b| - 1];
    }
  }

  lemma TookInBoth(w: World, u: World, v: World, a: seq<VariableCache.Entry>, b: seq<VariableCache.Entry>)
    requires TookIn(w, u, a) && TookIn(u, v, b)
    ensures TookIn(w, v, a + b)
  {
    InsertBoth(w.variables.entries, a, b);
    assert StampAll(a + b, |w.trace|) == StampAll(a, |w.trace|) + StampAll(b, |w.trace|);
    AppendAssoc(w.cached, StampAll(a, |w.trace|), StampAll(b, |w.trace|));
  }

  lemma {:induction false} ScopesTakeIn(w: World, frame: nat, scopes: seq<ScopeAnswer>)
    requires w.state == Halted
    ensures TookIn(w, ScopesEffect(w, frame, scopes), ScopesEntries(frame, scopes))
    decreases |scopes|
  {
    TookInNothing(w);
    if scopes != [] {
      var here := if scopes[0].variablesReference == 0 then [] else ScopeEntries(frame, scopes[0]);
      var asked := scopes[0].variablesReference != 0 && scopes[0].variables.Some?;
      var u := if asked then Cached(w, here, |w.trace|) else w;
      ScopesTakeIn(u, frame, scopes[1..]);
      TookInBoth(w, u, ScopesEffect(u, frame, scopes[1..]), here, ScopesEntries(frame, scopes[1..]));
    }
  }

  lemma {:induction false} FramesTakeIn(w: World, frames: seq<FrameAnswer>)
    requires w.state == Halted
    ensures TookIn(w, FramesEffect(w, frames), FramesEntries(frames))
    decreases |frames|
  {
    TookInNothing(w);
    if frames != [] {
      var here := ScopesEntries(frames[0].id, Given(frames[0].scopes));
      var u := if frames[0].scopes.Some? then ScopesEffect(w, frames[0].id, frames[0].scopes.value) else w;
      ScopesTakeIn(w, frames[0].id, Given(frames[0].scopes));
      FramesTakeIn(u, frames[1..]);
      TookInBoth(w, u, FramesEffect(u, frames[1..]), here, FramesEntries(frames[1..]));
    }
  }

  /**
   In a halt, assembling context without interruption takes in the variables of all scopes of all
   frames of the threads, in the order they are visited; outside a halt it changes nothing.
   */
  lemma {:induction false} ContextTakesInAll(w: World, threads: seq<ThreadAnswer>)
    ensures w.state == Halted ==> TookIn(w, ThreadsEffect(w, threads), ThreadsEntries(threads))
    ensures w.state != Halted ==> ThreadsEffect(w, threads) == w
    decreases |threads|
  {
    TookInNothing(w);
    if threads != [] {
      var here := FramesEntries(Given(threads[0].frames));
      if w.state == Halted {
        var u := if threads[0].frames.Some? then FramesEffect(w, threads[0].frames.value) else w;
        FramesTakeIn(w, Given(threads[0].frames));
        ContextTakesInAll(u, threads[1..]);
        TookInBoth(w, u, ThreadsEffect(u, threads[1..]), here, ThreadsEntries(threads[1..]));
      } else {
        ContextTakesInAll(w, threads[1..]);
      }
    }
  }

  // ----- the parts agree

  /**
   The session is disconnected exactly if the client has no process; only an initialized
   session has breakpoints; and the adapter's kind is known whenever one is connected.
   */
  ghost predicate Agree(w: World) {
    && (w.state == Disconnected <==> !w.child)
    && (w.breakpoints != Breakpoints.EMPTY ==> w.state in {Initialized, Running, Halted})
    && (w.state != Disconnected ==> w.kind.Some?)
  }

  lemma EventKeepsAgreement(w: World, event: Event)
    requires Agree(w)
    ensures Agree(EventEffect(w, event).world)
  {
  }

  lemma MovingKeepsAgreement(w: World, call: Call)
    requires Agree(w) && (call.StartCall? || call.InitializeCall? || call.ConfigureCall? || call.ResumeCall?)
    ensures Agree(Effect(w, call).world)
  {
  }

  lemma ReadingKeepsAgreement(w: World, call: Call)
    requires Agree(w) && (call.LaunchCall? || call.QueryCall? || call.VariablesCall? || call.ContextCall?)
    ensures Agree(Effect(w, call).world)
  {
    if call.ContextCall? {
      ThreadsOnlyCache(w, Targets(Given(call.threads), call.wanted));
    }
  }

  lemma UpdatingKeepsAgreement(w: World, call: Call)
    requires Agree(w) && (call.SourceCall? || call.FunctionCall? || call.ShutdownCall?)
    ensures Agree(Effect(w, call).world)
  {
  }

  lemma CallKeepsAgreement(w: World, call: Call)
    requires Agree(w)
    ensures Agree(Effect(w, call).world)
  {
    if call.Delivered? {
      EventKeepsAgreement(w, call.event);
    } else if call.SourceCall? || call.FunctionCall? || call.ShutdownCall? {
      UpdatingKeepsAgreement(w, call);
    } else if call.StartCall? || call.InitializeCall? || call.ConfigureCall? || call.ResumeCall? {
      MovingKeepsAgreement(w, call);
    } else {
      ReadingKeepsAgreement(w, call);
    }
  }

  /** Through any calls and events in any order, restarts included, the parts agree. */
  lemma {:induction false} PartsAlwaysAgree(calls: seq<Call>)
    ensures Agree(After(INITIAL, calls))
  {
    if calls != [] {
      PartsAlwaysAgree(calls[..|calls| - 1]);
      CallKeepsAgreement(After(INITIAL, calls[..|calls| - 1]), calls[|calls| - 1]);
    }
  }

  /**
   So starting never finds a process running, a disconnected session can always be started
   again, and any other can always be shut down, which leaves nothing behind.
   */
  lemma RestartAlwaysWorks(calls: seq<Call>, w: World, kind: AdapterKind)
    requires w == After(INITIAL, calls)
    ensures w.state == Disconnected ==>
              var started := Effect(w, StartCall(kind, true));
              started.ok && started.world.state == Connected && started.world.kind == Some(kind)
    ensures w.state != Disconnected ==>
              var closed := Effect(w, ShutdownCall);
              && closed.ok && closed.world.state == Disconnected && !closed.world.child
              && closed.world.breakpoints == Breakpoints.EMPTY
              && closed.world.variables.entries == map[]
  {
    PartsAlwaysAgree(calls);
    HandlesAreFresh(calls, w);
  }

  // ----- halt details

  /** What the last stop recorded, without the threads reported exited since. */
  function LastStop(calls: seq<Call>): Halt {
    if calls == [] then CLEARED
    else
      var before, last := calls[..|calls| - 1], calls[|calls| - 1];
      if IsStop(last) then Recorded(last.event.stop)
      else if Exits(last).Some? then WithoutThread(LastStop(before), Exits(last).value)
      else LastStop(before)
  }

  /** The thread an event reports exited, if it does. */
  function Exits(call: Call): Option<nat> {
    if call.Delivered? && call.event.ThreadEvent? && call.event.reason == Some("exited") then call.event.threadId
    else None
  }

  predicate IsStop(call: Call) { call.Delivered? && call.event.StoppedEvent? }

  /** The details after a call, if it leaves the session halted. */
  function HaltAfter(h: Halt, call: Call): Halt {
    if IsStop(call) then Recorded(call.event.stop)
    else if Exits(call).Some? then WithoutThread(h, Exits(call).value)
    else h
  }

  lemma HaltAfterEvent(w: World, event: Event)
    ensures var after := EventEffect(w, event).world;
            after.state == Halted ==>
              && (!event.StoppedEvent? ==> w.state == Halted)
              && after.halt == HaltAfter(w.halt, Delivered(event))
  {
  }

  /** Of the calls, those that move the session never leave it halted. */
  lemma CallsLeaveHalt(w: World, call: Call)
    requires call.StartCall? || call.InitializeCall? || call.ConfigureCall? || call.ResumeCall? || call.ShutdownCall?
    ensures Effect(w, call).world.state == Halted ==> Effect(w, call).world == w
  {
  }

  lemma HaltAfterCall(w: World, call: Call)
    ensures var after := Effect(w, call).world;
            after.state == Halted ==> (!IsStop(call) ==> w.state == Halted) && after.halt == HaltAfter(w.halt, call)
  {
    if call.Delivered? {
      HaltAfterEvent(w, call.event);
    } else if call.ContextCall? {
      ThreadsOnlyCache(w, Targets(Given(call.threads), call.wanted));
    } else if call.StartCall? || call.InitializeCall? || call.ConfigureCall? || call.ResumeCall? || call.ShutdownCall? {
      CallsLeaveHalt(w, call);
    }
  }

  /** In a halt, the details are the last stop's, without the threads that exited since. */
  lemma {:induction false} HaltAgreesWithHistory(calls: seq<Call>)
    ensures After(INITIAL, calls).state == Halted ==> After(INITIAL, calls).halt == LastStop(calls)
  {
    if calls != [] {
      var init := calls[..|calls| - 1];
      HaltAgreesWithHistory(init);
      HaltAfterCall(After(INITIAL, init), calls[|calls| - 1]);
    }
  }

  ghost predicate IsLastStop(calls: seq<Call>, i: nat) {
    i < |calls| && IsStop(calls[i]) && forall j :: i < j < |calls| ==> !IsStop(calls[j])
  }

  ghost predicate NoExitAfter(calls: seq<Call>, i: nat, thread: nat) {
    forall j :: i < j < |calls| ==> Exits(calls[j]) != Some(thread)
  }

  /** The event says that all threads stopped, or that this one did. */
  predicate StopsAll(call: Call) {
    IsStop(call) && call.event.stop.Some? && call.event.stop.value.allThreadsStopped == Some(true)
  }

  predicate StopsOne(call: Call, thread: nat) {
    IsStop(call) && call.event.stop.Some? && call.event.stop.value.threadId == Some(thread)
  }

  lemma {:induction false} LastStopMeaning(calls: seq<Call>, i: nat, thread: nat)
    requires IsLastStop(calls, i)
    ensures LastStop(calls).allThreadsStopped == StopsAll(calls[i])
    ensures thread in LastStop(calls).stoppedThreads <==> StopsOne(calls[i], thread) && NoExitAfter(calls, i, thread)
  {
    var init := calls[..|calls| - 1];
    if i < |init| {
      assert IsLastStop(init, i);
      LastStopMeaning(init, i, thread);
      assert NoExitAfter(calls, i, thread) <==>
             NoExitAfter(init, i, thread) && Exits(calls[|init|]) != Some(thread);
    }
  }

  lemma LastStopStays(calls: seq<Call>, i: nat)
    requires calls != [] && !IsStop(calls[|calls| - 1]) && IsLastStop(calls[..|calls| - 1], i)
    ensures IsLastStop(calls, i)
  {
  }

  /** A session that is halted after the last call was halted before it, unless that call is a stop. */
  lemma HaltedBefore(calls: seq<Call>)
    requires calls != [] && !IsStop(calls[|calls| - 1]) && After(INITIAL, calls).state == Halted
    ensures After(INITIAL, calls[..|calls| - 1]).state == Halted
  {
    HaltAfterCall(After(INITIAL, calls[..|calls| - 1]), calls[|calls| - 1]);
  }

  lemma {:induction false} HaltedHasStop(calls: seq<Call>) returns (i: nat)
    requires After(INITIAL, calls).state == Halted
    ensures IsLastStop(calls, i)
  {
    if IsStop(calls[|calls| - 1]) {
      i := |calls| - 1;
    } else {
      HaltedBefore(calls);
      i := HaltedHasStop(calls[..|calls| - 1]);
      LastStopStays(calls, i);
    }
  }

  /**
   In a halt there is a last `stopped` event, and a thread counts as stopped exactly if that
   event said all threads stopped, or named this thread and it has not been reported exited since.
   */
  lemma ThreadStoppedByHistory(calls: seq<Call>, w: World, thread: nat) returns (i: nat)
    requires w == After(INITIAL, calls) && w.state == Halted
    ensures IsLastStop(calls, i)
    ensures IsThreadStopped(w.halt, thread) <==>
            StopsAll(calls[i]) || (StopsOne(calls[i], thread) && NoExitAfter(calls, i, thread))
  {
    HaltAgreesWithHistory(calls);
    i := HaltedHasStop(calls);
    LastStopMeaning(calls, i, thread);
  }

  /** Events that a debuggee sends while it stays halted. */
  predicate StaysHalted(call: Call) {
    call.Delivered? && (call.event.StoppedEvent? || call.event.ThreadEvent?)
  }

  lemma StopChangesOnlyDetails(w: World, call: Call)
    requires w.state == Halted && StaysHalted(call)
    ensures Effect(w, call).world == w.(halt := HaltAfter(w.halt, call))
  {
  }

  /** What the last of some more calls does to the session and to the history of stops. */
  lemma LastCall(calls: seq<Call>, more: seq<Call>)
    requires more != []
    ensures var last, init := more[|more| - 1], calls + more[..|more| - 1];
            && After(INITIAL, calls + more) == Effect(After(INITIAL, init), last).world
            && LastStop(calls + more) == HaltAfter(LastStop(init), last)
  {
    assert (calls + more)[..|calls + more| - 1] == calls + more[..|more| - 1];
  }

  /**
   However many `stopped` and `thread` events come during one halt: the details are those of the
   last stop of the whole history, and nothing else of the session changes, so no transition is
   recorded and the handles cached before the later stops stay in the cache.
   */
  lemma {:induction false} OneHaltManyStops(calls: seq<Call>, more: seq<Call>, w: World, after: World)
    requires w == After(INITIAL, calls) && w.state == Halted
    requires after == After(INITIAL, calls + more) && forall i :: 0 <= i < |more| ==> StaysHalted(more[i])
    ensures after.halt == LastStop(calls + more)
    ensures after == w.(halt := after.halt)
  {
    if more == [] {
      AppendNothing(calls);
      HaltAgreesWithHistory(calls);
    } else {
      var init, last := more[..|more| - 1], more[|more| - 1];
      var before := After(INITIAL, calls + init);
      OneHaltManyStops(calls, init, w, before);
      LastCall(calls, more);
      StopChangesOnlyDetails(before, last);
    }
  }

  // ----- handles

  /** Everything cached since the last invalidation was asked for in the current halt. */
  ghost predicate Fresh(w: World) {
    && (w.cached != [] ==> w.state == Halted)
    && (forall k :: 0 <= k < |w.cached| ==> w.cached[k].askedAt == |w.trace|)
  }

  function EntriesOf(cached: seq<Stamped>): seq<VariableCache.Entry> {
    seq(|cached|, i requires 0 <= i < |cached| => cached[i].entry)
  }

  /** The variable cache indexes what was cached since the last invalidation. */
  ghost predicate CacheFollows(w: World) {
    VariableCache.Indexes(w.variables.entries, EntriesOf(w.cached))
  }

  lemma NothingIndexed()
    ensures VariableCache.Indexes(map[], EntriesOf([]))
  {
  }

  lemma CachingFollows(w: World, entries: seq<VariableCache.Entry>, askedAt: nat)
    requires CacheFollows(w)
    ensures CacheFollows(Cached(w, entries, askedAt))
  {
    VariableCache.BatchIndexes(w.variables.entries, EntriesOf(w.cached), entries);
    assert EntriesOf(w.cached + StampAll(entries, askedAt)) == EntriesOf(w.cached) + entries;
  }

  lemma MovingFollows(w: World, target: SessionState, reason: string)
    requires CacheFollows(w)
    ensures CacheFollows(Moved(w, target, reason))
  {
  }

  lemma MovingKeepsFresh(w: World, target: SessionState, reason: string)
    requires Fresh(w) && CanTransitionTo(w.state, target)
    ensures Fresh(Moved(w, target, reason))
  {
  }

  /** One step keeps the cache in line with its history. */
  lemma StepFollows(w: World, askedAt: nat, step: Step)
    requires CacheFollows(w)
    ensures CacheFollows(ExecWorld(w, askedAt, step))
  {
    match step
    case Transition(target, reason) => MovingFollows(w, target, reason);
    case CacheVariables(entries) => CachingFollows(w, entries, askedAt);
    case _ =>
  }

  /** Every step but caching keeps handles fresh; caching does exactly if it comes in time. */
  lemma StepKeepsFresh(w: World, askedAt: nat, step: Step)
    requires Fresh(w)
    ensures Fresh(ExecWorld(w, askedAt, step)) <==>
            (step.CacheVariables? && step.entries != [] ==> w.state == Halted && askedAt == |w.trace|)
  {
    match step
    case Transition(target, reason) =>
      if CanTransitionTo(w.state, target) {
        MovingKeepsFresh(w, target, reason);
      }
    case CacheVariables(entries) => CachingKeepsFresh(w, entries, askedAt);
    case _ =>
  }

  lemma CachingKeepsFresh(w: World, entries: seq<VariableCache.Entry>, askedAt: nat)
    requires Fresh(w)
    ensures Fresh(Cached(w, entries, askedAt)) <==> (entries != [] ==> w.state == Halted && askedAt == |w.trace|)
  {
    var after := Cached(w, entries, askedAt);
    if entries != [] {
      assert after.cached[|w.cached|] == Stamped(entries[0], askedAt);
    } else {
      assert after.cached == w.cached;
    }
  }

  /** What is in the cache was put there since the last invalidation. */
  lemma CachedIsRecent(w: World, entry: VariableCache.Entry)
    requires CacheFollows(w) && entry in VariableCache.Bucket(w.variables.entries, entry.name)
    ensures exists k :: 0 <= k < |w.cached| && w.cached[k].entry == entry
  {
    var log := EntriesOf(w.cached);
    assert entry in VariableCache.LiveNamed(log, entry.name, 0);
    var i := VariableCache.MemberIndex(log, entry.name, 0, entry);
    assert w.cached[i].entry == entry;
  }

  lemma EmptyHistoryEmptyCache(w: World)
    requires CacheFollows(w) && w.cached == []
    ensures w.variables.entries == map[]
  {
  }

  lemma {:induction false} ScriptKeepsFresh(w: World, at: nat, script: Script)
    requires Fresh(w) && CacheFollows(w) && CachesInTime(w, at, script)
    ensures Fresh(RunScript(w, at, script).world) && CacheFollows(RunScript(w, at, script).world)
    decreases script
  {
    if !script.End? {
      var after := ExecWorld(w, at, script.step);
      StepKeepsFresh(w, at, script.step);
      StepFollows(w, at, script.step);
      if ExecVerdict(w, script.step) == Proceed {
        ScriptKeepsFresh(after, if script.step.Gate? then |w.trace| else at, script.next);
      } else if ExecVerdict(w, script.step) == Fail && script.Or? {
        ScriptKeepsFresh(after, at, script.otherwise);
      }
    }
  }

  /** Wherever the script caches, it is halted with no transition since its gate. */
  predicate CachesInTime(w: World, at: nat, script: Script)
    decreases script
  {
    match script
    case End => true
    case Do(step, next) =>
      && (step.CacheVariables? ==> w.state == Halted && at == |w.trace|)
      && (ExecVerdict(w, step) == Proceed ==>
            CachesInTime(ExecWorld(w, at, step), if step.Gate? then |w.trace| else at, next))
    case Or(step, next, otherwise) =>
      && (step.CacheVariables? ==> w.state == Halted && at == |w.trace|)
      && (ExecVerdict(w, step) == Proceed ==>
            CachesInTime(ExecWorld(w, at, step), if step.Gate? then |w.trace| else at, next))
      && (ExecVerdict(w, step) == Fail ==> CachesInTime(ExecWorld(w, at, step), at, otherwise))
  }

  /** After this step, is the gate of `get_variables` the last thing passed? */
  predicate ReadyAfter(step: Step, ready: bool) {
    if step.Gate? then step.op == GetVariables else ready && (step.Ask? || step.CacheVariables?)
  }

  /** The script caches only directly after the gate of `get_variables` and its answer. */
  predicate CachesBehindGate(script: Script, ready: bool) {
    match script
    case End => true
    case Do(step, next) => (step.CacheVariables? ==> ready) && CachesBehindGate(next, ReadyAfter(step, ready))
    case Or(step, next, otherwise) =>
      && (step.CacheVariables? ==> ready)
      && CachesBehindGate(next, ReadyAfter(step, ready)) && CachesBehindGate(otherwise, false)
  }

  lemma {:induction false} BehindGateIsInTime(w: World, at: nat, script: Script, ready: bool)
    requires CachesBehindGate(script, ready) && (ready ==> w.state == Halted && at == |w.trace|)
    ensures CachesInTime(w, at, script)
    decreases script
  {
    if !script.End? {
      var step := script.step;
      var after, passedAt := ExecWorld(w, at, step), if step.Gate? then |w.trace| else at;
      if ExecVerdict(w, step) == Proceed {
        BehindGateIsInTime(after, passedAt, script.next, ReadyAfter(step, ready));
      }
      if script.Or? {
        BehindGateIsInTime(after, at, script.otherwise, false);
      }
    }
  }

  lemma {:induction false} ReadyHelps(script: Script)
    requires CachesBehindGate(script, false)
    ensures CachesBehindGate(script, true)
  {
    if !script.End? && !script.step.Gate? {
      if ReadyAfter(script.step, true) {
        ReadyHelps(script.next);
      }
    }
  }

  lemma RequestBehindGate(op: Operation, answered: bool, next: Script, later: Script)
    requires CachesBehindGate(next, op == GetVariables) && CachesBehindGate(later, false)
    ensures CachesBehindGate(Or(Gate(op), Or(Ask(answered), next, later), later), false)
  {
    assert CachesBehindGate(Or(Ask(answered), next, later), op == GetVariables);
  }

  lemma {:induction false} ChildrenBehindGate(variables: seq<Variable>, deep: bool, rest: Script)
    requires CachesBehindGate(rest, false)
    ensures CachesBehindGate(ChildrenScript(variables, deep, rest), false)
  {
    if variables != [] {
      var later := ChildrenScript(variables[1..], deep, rest);
      ChildrenBehindGate(variables[1..], deep, rest);
      ReadyHelps(later);
      RequestBehindGate(GetVariables, variables[0].children, later, later);
    }
  }

  lemma {:induction false} ScopesBehindGate(frame: nat, scopes: seq<ScopeAnswer>, deep: bool, rest: Script)
    requires CachesBehindGate(rest, false)
    ensures CachesBehindGate(ScopesScript(frame, scopes, deep, rest), false)
  {
    if scopes != [] {
      var later := ScopesScript(frame, scopes[1..], deep, rest);
      var children := ChildrenScript(Given(scopes[0].variables), deep, later);
      ScopesBehindGate(frame, scopes[1..], deep, rest);
      ChildrenBehindGate(Given(scopes[0].variables), deep, later);
      ReadyHelps(children);
      RequestBehindGate(GetVariables, scopes[0].variables.Some?,
                        Do(CacheVariables(ScopeEntries(frame, scopes[0])), children), later);
    }
  }

  lemma {:induction false} FramesBehindGate(frames: seq<FrameAnswer>, deep: bool, rest: Script)
    requires CachesBehindGate(rest, false)
    ensures CachesBehindGate(FramesScript(frames, deep, rest), false)
  {
    if frames != [] {
      var later, scopes := FramesScript(frames[1..], deep, rest), frames[0].scopes;
      FramesBehindGate(frames[1..], deep, rest);
      ScopesBehindGate(frames[0].id, Given(scopes), deep, later);
      RequestBehindGate(GetScopes, scopes.Some?, ScopesScript(frames[0].id, Given(scopes), deep, later), later);
    }
  }

  lemma {:induction false} ThreadsBehindGate(threads: seq<ThreadAnswer>, deep: bool, rest: Script)
    requires CachesBehindGate(rest, false)
    ensures CachesBehindGate(ThreadsScript(threads, deep, rest), false)
  {
    if threads != [] {
      var later, frames := ThreadsScript(threads[1..], deep, rest), threads[0].frames;
      ThreadsBehindGate(threads[1..], deep, rest);
      FramesBehindGate(Given(frames), deep, later);
      RequestBehindGate(GetStackTrace, frames.Some?, FramesScript(Given(frames), deep, later), later);
    }
  }

  lemma ContextCachesBehindGate(wanted: Option<nat>, deep: bool, threads: Option<seq<ThreadAnswer>>)
    ensures CachesBehindGate(ScriptOf(ContextCall(wanted, deep, threads)), false)
  {
    var rest := ThreadsScript(Targets(Given(threads), wanted), deep, End);
    ThreadsBehindGate(Targets(Given(threads), wanted), deep, End);
    assert CachesBehindGate(Do(Ask(threads.Some?), rest), false);
    assert CachesBehindGate(Do(Gate(GetThreads), Do(Ask(threads.Some?), rest)), false);
  }

  lemma VariablesCacheBehindGate(call: Call)
    requires call.VariablesCall?
    ensures CachesBehindGate(ScriptOf(call), false)
  {
    var last := Do(CacheVariables(EntriesFrom(Given(call.answer), call.frameId, call.scopeName)), End);
    assert CachesBehindGate(last, true);
    assert CachesBehindGate(Do(Ask(call.answer.Some?), last), true);
  }

  predicate NeverCaches(script: Script) {
    match script
    case End => true
    case Do(step, next) => !step.CacheVariables? && NeverCaches(next)
    case Or(_, _, _) => false
  }

  lemma {:induction false} NothingToCache(script: Script, ready: bool)
    requires NeverCaches(script)
    ensures CachesBehindGate(script, ready)
  {
    if script.Do? {
      NothingToCache(script.next, ReadyAfter(script.step, ready));
    }
  }

  lemma CloseNeverCaches(reason: string)
    ensures NeverCaches(CloseScript(reason))
  {
    assert NeverCaches(CloseScript(reason).next.next);
  }

  lemma OthersNeverCache(call: Call)
    requires !call.VariablesCall? && !call.ContextCall?
    ensures NeverCaches(ScriptOf(call))
  {
    var script := ScriptOf(call);
    if script.Do? && script.next.Do? {
      assert NeverCaches(End);
      if call.ShutdownCall? {
        CloseNeverCaches("shutdown");
      } else if call.Delivered? && call.event.TerminatedEvent? {
        CloseNeverCaches("event:terminated");
      } else if call.Delivered? && call.event.ExitedEvent? {
        CloseNeverCaches("event:exited");
      } else {
        assert NeverCaches(script.next.next);
      }
    }
  }

  lemma ScriptsCacheBehindGate(call: Call)
    ensures CachesBehindGate(ScriptOf(call), false)
  {
    if call.VariablesCall? {
      VariablesCacheBehindGate(call);
    } else if call.ContextCall? {
      ContextCachesBehindGate(call.wanted, call.deep, call.threads);
    } else {
      OthersNeverCache(call);
      NothingToCache(ScriptOf(call), false);
    }
  }

  lemma CallKeepsFresh(w: World, call: Call)
    requires Fresh(w) && CacheFollows(w)
    ensures Fresh(Effect(w, call).world) && CacheFollows(Effect(w, call).world)
  {
    EffectIsWholeScript(w, call);
    ScriptsCacheBehindGate(call);
    BehindGateIsInTime(w, |w.trace|, ScriptOf(call), false);
    ScriptKeepsFresh(w, |w.trace|, ScriptOf(call));
  }

  lemma {:induction false} CallsKeepFresh(calls: seq<Call>)
    ensures Fresh(After(INITIAL, calls)) && CacheFollows(After(INITIAL, calls))
  {
    if calls == [] {
      NothingIndexed();
    } else {
      CallsKeepFresh(calls[..|calls| - 1]);
      CallKeepsFresh(After(INITIAL, calls[..|calls| - 1]), calls[|calls| - 1]);
    }
  }

  /** Without interruptions the cache is empty outside a halt, and in it only holds this halt's variables. */
  lemma HandlesAreFresh(calls: seq<Call>, w: World)
    requires w == After(INITIAL, calls)
    ensures w.variables.entries != map[] ==> w.state == Halted
    ensures forall e: VariableCache.Entry :: e in VariableCache.Bucket(w.variables.entries, e.name) ==>
              Stamped(e, |w.trace|) in w.cached
  {
    CallsKeepFresh(calls);
    FreshMeaning(After(INITIAL, calls));
  }

  lemma FreshMeaning(w: World)
    requires Fresh(w) && CacheFollows(w)
    ensures w.variables.entries != map[] ==> w.state == Halted
    ensures forall e: VariableCache.Entry :: e in VariableCache.Bucket(w.variables.entries, e.name) ==>
              Stamped(e, |w.trace|) in w.cached
  {
    if w.cached == [] {
      EmptyHistoryEmptyCache(w);
    }
    forall e: VariableCache.Entry | e in VariableCache.Bucket(w.variables.entries, e.name)
      ensures Stamped(e, |w.trace|) in w.cached
    {
      CachedIsRecent(w, e);
      var k :| 0 <= k < |w.cached| && w.cached[k].entry == e;
      assert w.cached[k] == Stamped(e, |w.trace|);
    }
  }
}
