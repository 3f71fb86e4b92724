/**
 The breakpoint cache: the breakpoints last set for each source file, and the function
 breakpoints last set, refreshed one by one from breakpoint events.

 Iterating a hash map visits its keys in some order; that order is a parameter here.
 */
module Breakpoints {
  import opened Prelude

  datatype SourceBreakpoint =
    SourceBreakpoint(line: nat, column: Option<nat>, condition: Option<string>, hitCondition: Option<string>)

  datatype FunctionBreakpoint =
    FunctionBreakpoint(name: string, condition: Option<string>, hitCondition: Option<string>)

  /** The adapter's breakpoint; `sourcePath` is the path of its source, if it has both. */
  datatype Breakpoint = Breakpoint(
    id: Option<nat>,
    verified: bool,
    message: Option<string>,
    sourcePath: Option<string>,
    line: Option<nat>,
    column: Option<nat>)

  datatype Kind = Source | Function

  datatype CachedBreakpoint = CachedBreakpoint(
    id: Option<nat>,
    kind: Kind,
    sourcePath: Option<string>,
    line: Option<nat>,
    column: Option<nat>,
    functionName: Option<string>,
    condition: Option<string>,
    hitCondition: Option<string>,
    verified: bool,
    message: Option<string>)

  function FromSource(sourcePath: string, request: SourceBreakpoint, response: Breakpoint): CachedBreakpoint {
    CachedBreakpoint(response.id, Source, Some(sourcePath),
                     Or(response.line, Some(request.line)), Or(response.column, request.column),
                     None, request.condition, request.hitCondition, response.verified, response.message)
  }

  function FromFunction(request: FunctionBreakpoint, response: Breakpoint): CachedBreakpoint {
    CachedBreakpoint(response.id, Function, response.sourcePath, response.line, response.column,
                     Some(request.name), request.condition, request.hitCondition, response.verified, response.message)
  }

  /** What a breakpoint event changes in a matching entry. */
  function Refresh(item: CachedBreakpoint, b: Breakpoint): CachedBreakpoint {
    item.(verified := b.verified, line := Or(b.line, item.line), column := Or(b.column, item.column),
          message := b.message, sourcePath := Or(b.sourcePath, item.sourcePath))
  }

  function Smaller(a: nat, b: nat): nat { if a < b then a else b }

  function ZipSource(path: string, requests: seq<SourceBreakpoint>, responses: seq<Breakpoint>)
    : (r: seq<CachedBreakpoint>)
    ensures |r| == Smaller(|requests|, |responses|)
  {
    seq(Smaller(|requests|, |responses|), i requires 0 <= i < Smaller(|requests|, |responses|) =>
      FromSource(path, requests[i], responses[i]))
  }

  function ZipFunction(requests: seq<FunctionBreakpoint>, responses: seq<Breakpoint>): (r: seq<CachedBreakpoint>)
    ensures |r| == Smaller(|requests|, |responses|)
  {
    seq(Smaller(|requests|, |responses|), i requires 0 <= i < Smaller(|requests|, |responses|) =>
      FromFunction(requests[i], responses[i]))
  }

  // ----- tables

  datatype Table = Table(sources: map<string, seq<CachedBreakpoint>>, functions: seq<CachedBreakpoint>)

  const EMPTY := Table(map[], [])

  /** Where an entry is stored. */
  datatype Slot = SourceSlot(path: string, index: nat) | FunctionSlot(index: nat)

  predicate InTable(t: Table, slot: Slot) {
    match slot
    case SourceSlot(path, i) => path in t.sources && i < |t.sources[path]|
    case FunctionSlot(i) => i < |t.functions|
  }

  function At(t: Table, slot: Slot): CachedBreakpoint
    requires InTable(t, slot)
  {
    match slot
    case SourceSlot(path, i) => t.sources[path][i]
    case FunctionSlot(i) => t.functions[i]
  }

  function Put(t: Table, slot: Slot, item: CachedBreakpoint): Table
    requires InTable(t, slot)
  {
    match slot
    case SourceSlot(path, i) => t.(sources := t.sources[path := t.sources[path][i := item]])
    case FunctionSlot(i) => t.(functions := t.functions[i := item])
  }

  function IndexOfId(items: seq<CachedBreakpoint>, id: nat): (r: Option<nat>)
    ensures r.Some? ==>
              && r.value < |items| && items[r.value].id == Some(id)
              && forall k :: 0 <= k < r.value ==> items[k].id != Some(id)
    ensures r.None? ==> forall k :: 0 <= k < |items| ==> items[k].id != Some(id)
  {
    if items == [] then None
    else if items[0].id == Some(id) then Some(0)
    else match IndexOfId(items[1..], id)
      case None => None
      case Some(i) => Some(i + 1)
  }

  /** The first source entry with the id, in iteration order. */
  function FindInSources(t: Table, id: nat, order: seq<string>): Option<Slot> {
    if order == [] then None
    else
      var here := if order[0] in t.sources then IndexOfId(t.sources[order[0]], id) else None;
      if here.Some? then Some(SourceSlot(order[0], here.value)) else FindInSources(t, id, order[1..])
  }

  function FindSlot(t: Table, id: nat, order: seq<string>): Option<Slot> {
    var source := FindInSources(t, id, order);
    if source.Some? then source
    else match IndexOfId(t.functions, id)
      case None => None
      case Some(i) => Some(FunctionSlot(i))
  }

  lemma {:induction false} SourceSearch(t: Table, id: nat, order: seq<string>)
    ensures match FindInSources(t, id, order)
      case None =>
        forall path, k :: path in order && InTable(t, SourceSlot(path, k)) ==> At(t, SourceSlot(path, k)).id != Some(id)
      case Some(slot) => slot.SourceSlot? && slot.path in order && InTable(t, slot) && At(t, slot).id == Some(id)
                         && IndexOfId(t.sources[slot.path], id) == Some(slot.index)
  {
    if order != [] {
      SourceSearch(t, id, order[1..]);
      assert order == [order[0]] + order[1..];
    }
  }

  function UpdateById(t: Table, b: Breakpoint, order: seq<string>): Table {
    if b.id.None? then t
    else match FindSlot(t, b.id.value, order)
      case None => t
      case Some(slot) => if InTable(t, slot) then Put(t, slot, Refresh(At(t, slot), b)) else t
  }

  ghost predicate HasId(t: Table, slot: Slot, id: nat) { InTable(t, slot) && At(t, slot).id == Some(id) }

  /**
   A breakpoint event changes at most one entry. If some entry has the event's id, one such
   entry takes the event's verification, message, and given position, and keeps its id, kind,
   function name and conditions; every other entry stays. Otherwise nothing changes.
   */
  lemma UpdateChangesOneEntry(t: Table, b: Breakpoint, order: seq<string>)
    requires IterationOrder(t.sources, order)
    ensures var u := UpdateById(t, b, order);
            if b.id.None? || forall slot :: !HasId(t, slot, b.id.value) then u == t
            else exists slot :: HasId(t, slot, b.id.value) && ChangedAt(t, u, slot, b)
  {
    if b.id.Some? {
      var id := b.id.value;
      SourceSearch(t, id, order);
      var found := FindSlot(t, id, order);
      if found.Some? {
        assert HasId(t, found.value, id);
        PutChangesOneSlot(t, found.value, Refresh(At(t, found.value), b));
        assert ChangedAt(t, UpdateById(t, b, order), found.value, b);
      } else {
        forall slot: Slot
          ensures !HasId(t, slot, id)
        {
        }
      }
    }
  }

  ghost predicate ChangedAt(t: Table, u: Table, slot: Slot, b: Breakpoint)
    requires InTable(t, slot)
  {
    && (forall other: Slot :: InTable(u, other) <==> InTable(t, other))
    && (forall other: Slot :: other != slot && InTable(t, other) ==> InTable(u, other) && At(u, other) == At(t, other))
    && InTable(u, slot)
    && var before, after := At(t, slot), At(u, slot);
    && after.id == before.id && after.kind == before.kind && after.functionName == before.functionName
    && after.condition == before.condition && after.hitCondition == before.hitCondition
    && after.verified == b.verified && after.message == b.message
    && after.line == Or(b.line, before.line) && after.column == Or(b.column, before.column)
    && after.sourcePath == Or(b.sourcePath, before.sourcePath)
  }

  lemma PutChangesOneSlot(t: Table, slot: Slot, item: CachedBreakpoint)
    requires InTable(t, slot)
    ensures InTable(Put(t, slot, item), slot) && At(Put(t, slot, item), slot) == item
    ensures forall other: Slot :: InTable(Put(t, slot, item), other) <==> InTable(t, other)
    ensures forall other: Slot :: other != slot && InTable(t, other) ==>
                                    && InTable(Put(t, slot, item), other)
                                    && At(Put(t, slot, item), other) == At(t, other)
  {
  }

  /** At most one source file has an entry with the id. */
  ghost predicate OneSourceHas(t: Table, id: nat) {
    forall p, q, i: nat, j: nat ::
      HasId(t, SourceSlot(p, i), id) && HasId(t, SourceSlot(q, j), id) ==> p == q
  }

  /** Exactly if one source file has the id does the entry found not depend on the map's order. */
  lemma FoundSlotIsOrderIndependent(t: Table, id: nat)
    ensures OneSourceHas(t, id) <==>
            forall a, b :: IterationOrder(t.sources, a) && IterationOrder(t.sources, b) ==>
                             FindSlot(t, id, a) == FindSlot(t, id, b)
  {
    if OneSourceHas(t, id) {
      forall a, b | IterationOrder(t.sources, a) && IterationOrder(t.sources, b)
        ensures FindSlot(t, id, a) == FindSlot(t, id, b)
      {
        SameSlotFound(t, id, a, b);
        SameSlotFound(t, id, b, a);
      }
    } else {
      var p, q, i: nat, j: nat :| HasId(t, SourceSlot(p, i), id) && HasId(t, SourceSlot(q, j), id) && p != q;
      var a := OrderStartingWith(t.sources, p);
      var b := OrderStartingWith(t.sources, q);
      assert t.sources[p][i].id == Some(id) && t.sources[q][j].id == Some(id);
      assert FindSlot(t, id, a) != FindSlot(t, id, b);
    }
  }

  lemma SameSlotFound(t: Table, id: nat, a: seq<string>, b: seq<string>)
    requires OneSourceHas(t, id) && IterationOrder(t.sources, a) && IterationOrder(t.sources, b)
    ensures FindInSources(t, id, a).Some? ==> FindInSources(t, id, b) == FindInSources(t, id, a)
  {
    SourceSearch(t, id, a);
    SourceSearch(t, id, b);
    var found := FindInSources(t, id, a);
    if found.Some? {
      assert HasId(t, found.value, id);
      var other := FindInSources(t, id, b);
      assert found.value.path in b;
      assert other.Some?;
      assert HasId(t, other.value, id);
    }
  }

  // ----- conservation over runs

  datatype Op =
    | SetSource(path: string, sourceRequests: seq<SourceBreakpoint>, responses: seq<Breakpoint>)
    | SetFunctions(functionRequests: seq<FunctionBreakpoint>, responses: seq<Breakpoint>)
    | Event(breakpoint: Breakpoint, order: seq<string>)
    | Clear

  function Perform(t: Table, op: Op): Table {
    match op
    case SetSource(path, requests, responses) =>
      t.(sources := t.sources[path := ZipSource(path, requests, responses)])
    case SetFunctions(requests, responses) => t.(functions := ZipFunction(requests, responses))
    case Event(b, order) => UpdateById(t, b, order)
    case Clear => EMPTY
  }

  function PerformAll(ops: seq<Op>): Table {
    if ops == [] then EMPTY else Perform(PerformAll(ops[..|ops| - 1]), ops[|ops| - 1])
  }

  /** The size of the latest update per source since the last clear. */
  function LatestSources(ops: seq<Op>): map<string, nat> {
    if ops == [] then map[]
    else
      var before := LatestSources(ops[..|ops| - 1]);
      match ops[|ops| - 1]
      case SetSource(path, requests, responses) => before[path := Smaller(|requests|, |responses|)]
      case Clear => map[]
      case _ => before
  }

  function LatestFunctions(ops: seq<Op>): nat {
    if ops == [] then 0
    else match ops[|ops| - 1]
      case SetFunctions(requests, responses) => Smaller(|requests|, |responses|)
      case Clear => 0
      case _ => LatestFunctions(ops[..|ops| - 1])
  }

  function ListSources(t: Table, order: seq<string>): seq<CachedBreakpoint> {
    if order == [] then []
    else ListSources(t, order[..|order| - 1]) +
         (if order[|order| - 1] in t.sources then t.sources[order[|order| - 1]] else [])
  }

  function ListIn(t: Table, order: seq<string>): seq<CachedBreakpoint> { ListSources(t, order) + t.functions }

  function SumOver(sizes: map<string, nat>, order: seq<string>): nat {
    if order == [] then 0
    else SumOver(sizes, order[..|order| - 1]) +
         (if order[|order| - 1] in sizes then sizes[order[|order| - 1]] else 0)
  }

  lemma UpdateKeepsSizes(t: Table, b: Breakpoint, order: seq<string>)
    ensures var u := UpdateById(t, b, order);
            && u.sources.Keys == t.sources.Keys && |u.functions| == |t.functions|
            && forall path :: path in t.sources ==> |u.sources[path]| == |t.sources[path]|
  {
  }

  lemma {:induction false} SizesFollowUpdates(ops: seq<Op>)
    ensures var t, latest := PerformAll(ops), LatestSources(ops);
            && t.sources.Keys == latest.Keys
            && (forall path :: path in latest ==> |t.sources[path]| == latest[path])
            && |t.functions| == LatestFunctions(ops)
  {
    if ops != [] {
      var init := ops[..|ops| - 1];
      SizesFollowUpdates(init);
      match ops[|ops| - 1]
      case Event(b, order) => UpdateKeepsSizes(PerformAll(init), b, order);
      case _ =>
    }
  }

  lemma {:induction false} ListLength(t: Table, sizes: map<string, nat>, order: seq<string>)
    requires t.sources.Keys == sizes.Keys
    requires forall path :: path in sizes ==> |t.sources[path]| == sizes[path]
    ensures |ListSources(t, order)| == SumOver(sizes, order)
  {
    if order != [] {
      ListLength(t, sizes, order[..|order| - 1]);
    }
  }

  /** What the updates alone put there, as if no event had come. */
  function Latest(ops: seq<Op>): Table {
    if ops == [] then EMPTY
    else if ops[|ops| - 1].Event? then Latest(ops[..|ops| - 1])
    else Perform(Latest(ops[..|ops| - 1]), ops[|ops| - 1])
  }

  /** The same breakpoint, wherever the adapter moved it and whether or not it is verified. */
  predicate SameBreakpoint(a: CachedBreakpoint, b: CachedBreakpoint) {
    && a.id == b.id && a.kind == b.kind && a.functionName == b.functionName
    && a.condition == b.condition && a.hitCondition == b.hitCondition
  }

  ghost predicate SameBreakpoints(a: seq<CachedBreakpoint>, b: seq<CachedBreakpoint>) {
    |a| == |b| && forall i :: 0 <= i < |a| ==> SameBreakpoint(a[i], b[i])
  }

  ghost predicate SameTable(t: Table, u: Table) {
    && t.sources.Keys == u.sources.Keys && SameBreakpoints(t.functions, u.functions)
    && forall path :: path in t.sources ==> SameBreakpoints(t.sources[path], u.sources[path])
  }

  lemma UpdateKeepsBreakpoints(t: Table, b: Breakpoint, order: seq<string>, u: Table)
    requires SameTable(t, u)
    ensures SameTable(UpdateById(t, b, order), u)
  {
    UpdateKeepsSizes(t, b, order);
  }

  lemma {:induction false} EntriesAreTheLatest(ops: seq<Op>)
    ensures SameTable(PerformAll(ops), Latest(ops))
  {
    if ops != [] {
      var init := ops[..|ops| - 1];
      EntriesAreTheLatest(init);
      match ops[|ops| - 1]
      case Event(b, order) => UpdateKeepsBreakpoints(PerformAll(init), b, order, Latest(init));
      case _ =>
    }
  }

  lemma SameBoth(a: seq<CachedBreakpoint>, b: seq<CachedBreakpoint>, c: seq<CachedBreakpoint>, d: seq<CachedBreakpoint>)
    requires SameBreakpoints(a, b) && SameBreakpoints(c, d)
    ensures SameBreakpoints(a + c, b + d)
  {
  }

  lemma {:induction false} ListsAlike(t: Table, u: Table, order: seq<string>)
    requires SameTable(t, u)
    ensures SameBreakpoints(ListSources(t, order), ListSources(u, order))
  {
    if order != [] {
      var last := order[|order| - 1];
      ListsAlike(t, u, order[..|order| - 1]);
      SameBoth(ListSources(t, order[..|order| - 1]), ListSources(u, order[..|order| - 1]),
               if last in t.sources then t.sources[last] else [], if last in u.sources then u.sources[last] else []);
    }
  }

  /**
   Over any run of updates, events and clears, the list holds, place by place, the breakpoints
   that the latest update of each source and the latest function update put there, with their
   id, kind, function name and conditions, and therefore as many, in every order.
   */
  lemma BreakpointsAreConserved(ops: seq<Op>, order: seq<string>)
    requires IterationOrder(PerformAll(ops).sources, order)
    ensures IterationOrder(LatestSources(ops), order)
    ensures SameBreakpoints(ListIn(PerformAll(ops), order), ListIn(Latest(ops), order))
    ensures |ListIn(PerformAll(ops), order)| == SumOver(LatestSources(ops), order) + LatestFunctions(ops)
  {
    EntriesAreTheLatest(ops);
    ListsAlike(PerformAll(ops), Latest(ops), order);
    SameBoth(ListSources(PerformAll(ops), order), ListSources(Latest(ops), order),
             PerformAll(ops).functions, Latest(ops).functions);
    SizesFollowUpdates(ops);
    ListLength(PerformAll(ops), LatestSources(ops), order);
    assert forall name :: name in LatestSources(ops) <==> name in PerformAll(ops).sources.Keys;
  }

  // ----- what an entry says

  /** Update `k` is the last for this source file, with no clear after it. */
  ghost predicate LastForSource(ops: seq<Op>, k: nat, path: string) {
    && k < |ops| && ops[k].SetSource? && ops[k].path == path
    && forall j :: k < j < |ops| ==> !ops[j].Clear? && (ops[j].SetSource? ==> ops[j].path != path)
  }

  ghost predicate LastForFunctions(ops: seq<Op>, k: nat) {
    k < |ops| && ops[k].SetFunctions? && forall j :: k < j < |ops| ==> !ops[j].Clear? && !ops[j].SetFunctions?
  }

  ghost predicate NoEventSince(ops: seq<Op>, k: nat) { forall j :: k < j < |ops| ==> !ops[j].Event? }

  /** The entry is for this request and this response; `asGiven` tells that no event has come for it. */
  predicate EntryOfSource(entry: CachedBreakpoint, path: string, request: SourceBreakpoint, response: Breakpoint,
                          asGiven: bool) {
    && entry.id == response.id && entry.kind == Source && entry.functionName == None
    && entry.condition == request.condition && entry.hitCondition == request.hitCondition
    && (asGiven ==>
          && entry.sourcePath == Some(path)
          && entry.line == Some(if response.line.Some? then response.line.value else request.line)
          && entry.column == (if response.column.Some? then response.column else request.column)
          && entry.verified == response.verified && entry.message == response.message)
  }

  predicate EntryOfFunction(entry: CachedBreakpoint, request: FunctionBreakpoint, response: Breakpoint, asGiven: bool) {
    && entry.id == response.id && entry.kind == Function && entry.functionName == Some(request.name)
    && entry.condition == request.condition && entry.hitCondition == request.hitCondition
    && (asGiven ==>
          && entry.sourcePath == response.sourcePath && entry.line == response.line && entry.column == response.column
          && entry.verified == response.verified && entry.message == response.message)
  }

  lemma UpdateKeepsIdentity(t: Table, b: Breakpoint, order: seq<string>, slot: Slot)
    requires InTable(t, slot)
    ensures InTable(UpdateById(t, b, order), slot) && SameBreakpoint(At(UpdateById(t, b, order), slot), At(t, slot))
  {
    UpdateKeepsSizes(t, b, order);
  }

  /**
   After any run the i-th entry of a source file is for the i-th request and the i-th response of its
   last update, and there are no more of them than of either.
   */
  lemma {:induction false} SourceEntries(ops: seq<Op>, k: nat, path: string, i: nat)
    requires LastForSource(ops, k, path)
    ensures InTable(PerformAll(ops), SourceSlot(path, i)) <==> i < |ops[k].sourceRequests| && i < |ops[k].responses|
    ensures InTable(PerformAll(ops), SourceSlot(path, i)) ==>
              EntryOfSource(At(PerformAll(ops), SourceSlot(path, i)), path, ops[k].sourceRequests[i],
                            ops[k].responses[i], NoEventSince(ops, k))
  {
    var init, last := ops[..|ops| - 1], ops[|ops| - 1];
    if k < |init| {
      assert LastForSource(init, k, path);
      SourceEntries(init, k, path, i);
      assert NoEventSince(ops, k) <==> NoEventSince(init, k) && !last.Event?;
      if last.Event? {
        UpdateKeepsSizes(PerformAll(init), last.breakpoint, last.order);
        if InTable(PerformAll(init), SourceSlot(path, i)) {
          UpdateKeepsIdentity(PerformAll(init), last.breakpoint, last.order, SourceSlot(path, i));
        }
      }
    }
  }

  lemma {:induction false} FunctionEntries(ops: seq<Op>, k: nat, i: nat)
    requires LastForFunctions(ops, k)
    ensures InTable(PerformAll(ops), FunctionSlot(i)) <==> i < |ops[k].functionRequests| && i < |ops[k].responses|
    ensures InTable(PerformAll(ops), FunctionSlot(i)) ==>
              EntryOfFunction(At(PerformAll(ops), FunctionSlot(i)), ops[k].functionRequests[i],
                              ops[k].responses[i], NoEventSince(ops, k))
  {
    var init, last := ops[..|ops| - 1], ops[|ops| - 1];
    if k < |init| {
      assert LastForFunctions(init, k);
      FunctionEntries(init, k, i);
      assert NoEventSince(ops, k) <==> NoEventSince(init, k) && !last.Event?;
      if last.Event? {
        UpdateKeepsSizes(PerformAll(init), last.breakpoint, last.order);
        if InTable(PerformAll(init), FunctionSlot(i)) {
          UpdateKeepsIdentity(PerformAll(init), last.breakpoint, last.order, FunctionSlot(i));
        }
      }
    }
  }

  /** A source file without an update since the last clear has no entries, and so have functions. */
  lemma {:induction false} NoUpdateNoEntries(ops: seq<Op>, path: string)
    ensures path in PerformAll(ops).sources <==> exists k: nat :: LastForSource(ops, k, path)
    ensures (forall k: nat :: !LastForFunctions(ops, k)) ==> PerformAll(ops).functions == []
  {
    if ops != [] {
      var init, last := ops[..|ops| - 1], ops[|ops| - 1];
      NoUpdateNoEntries(init, path);
      forall k: nat | LastForSource(init, k, path) && !last.Clear? && !(last.SetSource? && last.path == path)
        ensures LastForSource(ops, k, path)
      {
      }
      forall k: nat | LastForFunctions(init, k) && !last.Clear? && !last.SetFunctions?
        ensures LastForFunctions(ops, k)
      {
      }
      LastStays(ops, path);
      if last.Event? {
        UpdateKeepsSizes(PerformAll(init), last.breakpoint, last.order);
      } else if last.SetSource? && last.path == path {
        assert LastForSource(ops, |init|, path);
      } else if last.SetFunctions? {
        assert LastForFunctions(ops, |init|);
      }
    }
  }

  lemma LastStays(ops: seq<Op>, path: string)
    requires ops != []
    ensures forall k: nat :: k < |ops| - 1 && LastForSource(ops, k, path) ==> LastForSource(ops[..|ops| - 1], k, path)
    ensures forall k: nat :: k < |ops| - 1 && LastForFunctions(ops, k) ==> LastForFunctions(ops[..|ops| - 1], k)
  {
  }

  /** Where an entry is listed: after those of the files visited before it, the functions last. */
  lemma {:induction false} ListPlaces(t: Table, order: seq<string>, n: nat, i: nat)
    requires n < |order| && order[n] in t.sources && i < |t.sources[order[n]]|
    ensures |ListSources(t, order[..n])| + i < |ListSources(t, order)| <= |ListIn(t, order)|
    ensures ListIn(t, order)[|ListSources(t, order[..n])| + i] == t.sources[order[n]][i]
    ensures ListIn(t, order)[|ListSources(t, order)|..] == t.functions
  {
    var init := order[..|order| - 1];
    if n < |init| {
      ListPlaces(t, init, n, i);
      assert init[..n] == order[..n];
      var place := |ListSources(t, order[..n])| + i;
      assert ListIn(t, init)[place] == ListSources(t, init)[place];
    }
  }

  // ----- the imperative cache

  class BreakpointCache {
    var sourceBreakpoints: map<string, seq<CachedBreakpoint>>
    var functionBreakpoints: seq<CachedBreakpoint>

    ghost function View(): Table reads this { Table(sourceBreakpoints, functionBreakpoints) }

    constructor ()
      ensures View() == EMPTY
    {
      sourceBreakpoints, functionBreakpoints := map[], [];
    }

    method UpdateSourceBreakpoints(path: string, requests: seq<SourceBreakpoint>, responses: seq<Breakpoint>)
      modifies this
      ensures View() == Perform(old(View()), SetSource(path, requests, responses))
    {
      sourceBreakpoints := sourceBreakpoints[path := ZipSource(path, requests, responses)];
    }

    method UpdateFunctionBreakpoints(requests: seq<FunctionBreakpoint>, responses: seq<Breakpoint>)
      modifies this
      ensures View() == Perform(old(View()), SetFunctions(requests, responses))
    {
      functionBreakpoints := ZipFunction(requests, responses);
    }

    /** Refresh the first entry with the event's id, source files first. */
    method UpdateById(b: Breakpoint, order: seq<string>) returns (found: bool)
      requires IterationOrder(sourceBreakpoints, order)
      modifies this
      ensures View() == Perform(old(View()), Event(b, order))
      ensures found <==> b.id.Some? && exists slot :: HasId(old(View()), slot, b.id.value)
    {
      if b.id.None? {
        return false;
      }
      var id := b.id.value;
      SourceSearch(View(), id, order);
      for n := 0 to |order|
        invariant unchanged(this)
        invariant FindInSources(View(), id, order) == FindInSources(View(), id, order[n..])
      {
        var items := sourceBreakpoints[order[n]];
        var k := FindIndex(items, id);
        if k.Some? {
          assert HasId(View(), SourceSlot(order[n], k.value), id);
          sourceBreakpoints := sourceBreakpoints[order[n] := items[k.value := Refresh(items[k.value], b)]];
          return true;
        }
      }
      var k := FindIndex(functionBreakpoints, id);
      if k.Some? {
        assert HasId(View(), FunctionSlot(k.value), id);
        functionBreakpoints := functionBreakpoints[k.value := Refresh(functionBreakpoints[k.value], b)];
        return true;
      }
      return false;
    }

    method List(order: seq<string>) returns (r: seq<CachedBreakpoint>)
      requires IterationOrder(sourceBreakpoints, order)
      ensures r == ListIn(View(), order)
    {
      r := [];
      for n := 0 to |order|
        invariant r == ListSources(View(), order[..n])
      {
        assert order[..n + 1][..n] == order[..n];
        r := r + sourceBreakpoints[order[n]];
      }
      assert order[..|order|] == order;
      r := r + functionBreakpoints;
    }

    method Clear()
      modifies this
      ensures View() == EMPTY
    {
      sourceBreakpoints, functionBreakpoints := map[], [];
    }
  }

  /** The inner loop over one list. */
  method FindIndex(items: seq<CachedBreakpoint>, id: nat) returns (r: Option<nat>)
    ensures r == IndexOfId(items, id)
  {
    for k := 0 to |items|
      invariant forall j :: 0 <= j < k ==> items[j].id != Some(id)
    {
      if items[k].id == Some(id) {
        return Some(k);
      }
    }
    return None;
  }
}
