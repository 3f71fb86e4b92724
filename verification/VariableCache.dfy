/**
 The variable handle cache: for each variable name a list of entries, at most one per frame
 and scope, in the order of their last insertion.
 */
module VariableCache {
  import opened Prelude
  import opened SortBy

  datatype Entry = Entry(
    variablesReference: nat,
    name: string,
    frameId: Option<nat>,
    scopeName: Option<string>,
    varType: Option<string>,
    namedVariables: Option<nat>,
    indexedVariables: Option<nat>,
    capturedAt: nat)

  datatype Key = Key(name: string, frameId: Option<nat>, scopeName: Option<string>)

  function KeyOf(e: Entry): Key { Key(e.name, e.frameId, e.scopeName) }

  type Table = map<string, seq<Entry>>

  // ----- operations on tables

  function Bucket(t: Table, name: string): seq<Entry> { if name in t then t[name] else [] }

  /** `retain` with the replaced key filtered out. */
  function Without(list: seq<Entry>, key: Key): seq<Entry> {
    if list == [] then []
    else (if KeyOf(list[0]) == key then [] else [list[0]]) + Without(list[1..], key)
  }

  function InsertEntry(t: Table, e: Entry): Table {
    t[e.name := Without(Bucket(t, e.name), KeyOf(e)) + [e]]
  }

  function InsertAll(t: Table, batch: seq<Entry>): Table {
    if batch == [] then t
    else InsertEntry(InsertAll(t, batch[..|batch| - 1]), batch[|batch| - 1])
  }

  // ----- runs of operations, and the insertion log they refine

  datatype CacheState = CacheState(entries: Table, valid: bool)

  datatype CacheOp =
    | Insert(entry: Entry)
    | InsertBatch(batch: seq<Entry>)
    | Invalidate
    | MarkStale
    | Clear

  function Perform(s: CacheState, op: CacheOp): CacheState {
    match op
    case Insert(e) => CacheState(InsertEntry(s.entries, e), true)
    case InsertBatch(batch) => CacheState(InsertAll(s.entries, batch), true)
    case Invalidate => CacheState(map[], false)
    case MarkStale => s.(valid := false)
    case Clear => CacheState(map[], true)
  }

  function PerformAll(s: CacheState, ops: seq<CacheOp>): CacheState {
    if ops == [] then s else Perform(PerformAll(s, ops[..|ops| - 1]), ops[|ops| - 1])
  }

  /** Everything inserted since the table was last emptied. */
  function LogOf(ops: seq<CacheOp>): seq<Entry> {
    if ops == [] then []
    else
      var before := LogOf(ops[..|ops| - 1]);
      match ops[|ops| - 1]
      case Insert(e) => before + [e]
      case InsertBatch(batch) => before + batch
      case MarkStale => before
      case Invalidate => []
      case Clear => []
  }

  /** Position `i` of the log is the last write of its key. */
  ghost predicate IsLive(log: seq<Entry>, i: nat) {
    i < |log| && forall j :: i < j < |log| ==> KeyOf(log[j]) != KeyOf(log[i])
  }

  ghost predicate IsLiveNamed(log: seq<Entry>, i: nat, name: string) {
    IsLive(log, i) && log[i].name == name
  }

  /** The live writes of a name from position `i` on, oldest first. */
  ghost function LiveNamed(log: seq<Entry>, name: string, i: nat): seq<Entry>
    requires i <= |log|
    decreases |log| - i
  {
    if i == |log| then []
    else (if IsLiveNamed(log, i, name) then [log[i]] else []) + LiveNamed(log, name, i + 1)
  }

  /** The table is the log's index: each bucket lists the live writes of its name in write order. */
  ghost predicate Indexes(t: Table, log: seq<Entry>) {
    forall name :: Bucket(t, name) == LiveNamed(log, name, 0) && (name in t ==> t[name] != [])
  }

  lemma {:induction false} WithoutConcat(a: seq<Entry>, b: seq<Entry>, key: Key)
    ensures Without(a + b, key) == Without(a, key) + Without(b, key)
  {
    if a == [] {
      assert a + b == b;
    } else {
      assert (a + b)[1..] == a[1..] + b;
      WithoutConcat(a[1..], b, key);
    }
  }

  lemma LiveAfterOneMore(log: seq<Entry>, e: Entry, i: nat)
    requires i < |log|
    ensures IsLive(log + [e], i) <==> IsLive(log, i) && KeyOf(log[i]) != KeyOf(e)
  {
    var after := log + [e];
    assert after[i] == log[i] && after[|log|] == e;
    assert forall j :: i < j < |log| ==> after[j] == log[j];
  }

  /** One more write ends the life of an earlier write of the same key and lives itself. */
  lemma {:induction false} LiveAfterWrite(log: seq<Entry>, e: Entry, name: string, i: nat)
    requires i <= |log|
    ensures LiveNamed(log + [e], name, i) ==
            Without(LiveNamed(log, name, i), KeyOf(e)) + (if e.name == name then [e] else [])
    decreases |log| - i
  {
    var after := log + [e];
    var added := if e.name == name then [e] else [];
    if i == |log| {
      assert IsLive(after, i) && after[i] == e;
      assert LiveNamed(after, name, i + 1) == [];
    } else {
      LiveAfterWrite(log, e, name, i + 1);
      LiveAfterOneMore(log, e, i);
      var rest := LiveNamed(log, name, i + 1);
      var here := if IsLiveNamed(log, i, name) then [log[i]] else [];
      WithoutConcat(here, rest, KeyOf(e));
      AppendAssoc(Without(here, KeyOf(e)), Without(rest, KeyOf(e)), added);
      assert after[i] == log[i];
    }
  }

  lemma {:induction false} WithoutOthers(list: seq<Entry>, key: Key)
    requires forall k :: 0 <= k < |list| ==> KeyOf(list[k]) != key
    ensures Without(list, key) == list
  {
    if list != [] {
      WithoutOthers(list[1..], key);
    }
  }

  lemma {:induction false} LiveNamedHaveName(log: seq<Entry>, name: string, i: nat)
    requires i <= |log|
    ensures forall k :: 0 <= k < |LiveNamed(log, name, i)| ==> LiveNamed(log, name, i)[k].name == name
    decreases |log| - i
  {
    if i < |log| {
      LiveNamedHaveName(log, name, i + 1);
    }
  }

  lemma InsertIndexes(t: Table, log: seq<Entry>, e: Entry)
    requires Indexes(t, log)
    ensures Indexes(InsertEntry(t, e), log + [e])
  {
    var after := InsertEntry(t, e);
    forall name
      ensures Bucket(after, name) == LiveNamed(log + [e], name, 0) && (name in after ==> after[name] != [])
    {
      LiveAfterWrite(log, e, name, 0);
      if name != e.name {
        LiveNamedHaveName(log, name, 0);
        WithoutOthers(LiveNamed(log, name, 0), KeyOf(e));
        assert Bucket(after, name) == Bucket(t, name);
      } else {
        assert Bucket(t, name) == LiveNamed(log, name, 0);
      }
    }
  }

  lemma {:induction false} BatchIndexes(t: Table, log: seq<Entry>, batch: seq<Entry>)
    requires Indexes(t, log)
    ensures Indexes(InsertAll(t, batch), log + batch)
  {
    if batch == [] {
      AppendNothing(log);
    } else {
      var init, last := batch[..|batch| - 1], batch[|batch| - 1];
      AppendAssoc(log, init, [last]);
      assert batch == init + [last];
      BatchIndexes(t, log, init);
      InsertIndexes(InsertAll(t, init), log + init, last);
    }
  }

  const EMPTY := CacheState(map[], true)

  /** After any operations the table is exactly the index of the insertion log. */
  lemma {:induction false} CacheRefinesLog(ops: seq<CacheOp>)
    ensures Indexes(PerformAll(EMPTY, ops).entries, LogOf(ops))
  {
    if ops != [] {
      var init := ops[..|ops| - 1];
      CacheRefinesLog(init);
      var before := PerformAll(EMPTY, init).entries;
      match ops[|ops| - 1]
      case Insert(e) => InsertIndexes(before, LogOf(init), e);
      case InsertBatch(batch) => BatchIndexes(before, LogOf(init), batch);
      case MarkStale =>
      case Invalidate =>
      case Clear =>
    }
  }

  // ----- the last-writer-wins map

  /** The last entry written under a key. */
  function LastWrite(log: seq<Entry>, key: Key): Option<Entry> {
    if log == [] then None
    else if KeyOf(log[|log| - 1]) == key then Some(log[|log| - 1])
    else LastWrite(log[..|log| - 1], key)
  }

  lemma {:induction false} LastWriteIsLive(log: seq<Entry>, i: nat)
    requires IsLive(log, i)
    ensures LastWrite(log, KeyOf(log[i])) == Some(log[i])
  {
    if i < |log| - 1 {
      var init := log[..|log| - 1];
      assert IsLive(init, i) by {
        assert forall j :: i < j < |init| ==> log[j] == init[j];
      }
      LastWriteIsLive(init, i);
    }
  }

  lemma {:induction false} LastWriteHasIndex(log: seq<Entry>, key: Key) returns (i: nat)
    requires LastWrite(log, key).Some?
    ensures IsLive(log, i) && KeyOf(log[i]) == key && log[i] == LastWrite(log, key).value
  {
    if KeyOf(log[|log| - 1]) == key {
      i := |log| - 1;
    } else {
      var init := log[..|log| - 1];
      i := LastWriteHasIndex(init, key);
      assert forall j :: i < j < |init| ==> log[j] == init[j];
    }
  }

  lemma {:induction false} MemberIndex(log: seq<Entry>, name: string, from: nat, e: Entry) returns (i: nat)
    requires from <= |log| && e in LiveNamed(log, name, from)
    ensures from <= i && IsLiveNamed(log, i, name) && log[i] == e
    decreases |log| - from
  {
    if IsLiveNamed(log, from, name) && log[from] == e {
      i := from;
    } else {
      i := MemberIndex(log, name, from + 1, e);
    }
  }

  lemma {:induction false} LiveIsMember(log: seq<Entry>, name: string, from: nat, i: nat)
    requires from <= i && IsLiveNamed(log, i, name)
    ensures log[i] in LiveNamed(log, name, from)
    decreases i - from
  {
    if from < i {
      LiveIsMember(log, name, from + 1, i);
    }
  }

  ghost predicate DistinctKeys(list: seq<Entry>) {
    forall a, b :: 0 <= a < b < |list| ==> KeyOf(list[a]) != KeyOf(list[b])
  }

  lemma DistinctCons(x: Entry, list: seq<Entry>)
    requires DistinctKeys(list) && forall b :: 0 <= b < |list| ==> KeyOf(list[b]) != KeyOf(x)
    ensures DistinctKeys([x] + list)
  {
  }

  lemma {:induction false} LiveKeysDistinct(log: seq<Entry>, name: string, from: nat)
    requires from <= |log|
    ensures DistinctKeys(LiveNamed(log, name, from))
    decreases |log| - from
  {
    if from < |log| {
      LiveKeysDistinct(log, name, from + 1);
      var rest := LiveNamed(log, name, from + 1);
      if IsLiveNamed(log, from, name) {
        forall b | 0 <= b < |rest|
          ensures KeyOf(rest[b]) != KeyOf(log[from])
        {
          var i := MemberIndex(log, name, from + 1, rest[b]);
          assert log[i] == rest[b];
        }
        DistinctCons(log[from], rest);
      } else {
        AppendNothing(rest);
      }
    }
  }

  /**
   The cache is a last-writer-wins map: buckets are non-empty and keyed by their entries'
   name, hold at most one entry per frame and scope, and an entry is present exactly if it is
   the last write of its key.
   */
  lemma CacheIsLastWriterWins(ops: seq<CacheOp>)
    ensures var t := PerformAll(EMPTY, ops).entries;
            && (forall name :: name in t ==>
                  && t[name] != []
                  && (forall k :: 0 <= k < |t[name]| ==> t[name][k].name == name)
                  && DistinctKeys(t[name]))
            && (forall e: Entry :: e in Bucket(t, e.name) <==> LastWrite(LogOf(ops), KeyOf(e)) == Some(e))
  {
    var t: Table := PerformAll(EMPTY, ops).entries;
    var log := LogOf(ops);
    CacheRefinesLog(ops);
    forall name: string | name in t
      ensures t[name] != []
      ensures forall k :: 0 <= k < |t[name]| ==> t[name][k].name == name
      ensures DistinctKeys(t[name])
    {
      assert Bucket(t, name) == LiveNamed(log, name, 0);
      LiveNamedHaveName(log, name, 0);
      LiveKeysDistinct(log, name, 0);
    }
    forall e: Entry
      ensures e in Bucket(t, e.name) <==> LastWrite(log, KeyOf(e)) == Some(e)
    {
      assert Bucket(t, e.name) == LiveNamed(log, e.name, 0);
      if LastWrite(log, KeyOf(e)) == Some(e) {
        var i := LastWriteHasIndex(log, KeyOf(e));
        LiveIsMember(log, e.name, 0, i);
      }
      if e in Bucket(t, e.name) {
        var i := MemberIndex(log, e.name, 0, e);
        LastWriteIsLive(log, i);
      }
    }
  }

  /** A batch that is not empty does what inserting its entries one by one does. */
  lemma {:induction false} BatchIsFold(s: CacheState, batch: seq<Entry>)
    requires batch != []
    ensures Perform(s, InsertBatch(batch)) ==
            PerformAll(s, seq(|batch|, i requires 0 <= i < |batch| => Insert(batch[i])))
  {
    var inserts := seq(|batch|, i requires 0 <= i < |batch| => Insert(batch[i]));
    var init := batch[..|batch| - 1];
    assert inserts[..|batch| - 1] == seq(|init|, i requires 0 <= i < |init| => Insert(init[i]));
    assert inserts[|batch| - 1] == Insert(batch[|batch| - 1]);
    if init != [] {
      BatchIsFold(s, init);
    } else {
      assert InsertAll(s.entries, init) == s.entries;
    }
  }

  /** The cache counts as valid unless it was last invalidated or marked stale. */
  lemma {:induction false} ValidUnlessStale(ops: seq<CacheOp>)
    ensures PerformAll(EMPTY, ops).valid <==>
            (ops != [] ==> !ops[|ops| - 1].Invalidate? && !ops[|ops| - 1].MarkStale?)
  {
  }

  // ----- lookup

  /** The three kinds of match `lookup` tries in turn. */
  datatype Wanted = Exact(frameId: Option<nat>, scopeName: Option<string>) | SameFrame(frameId: Option<nat>) | Any

  predicate Wants(w: Wanted, e: Entry) {
    match w
    case Exact(frameId, scopeName) => e.frameId == frameId && e.scopeName == scopeName
    case SameFrame(frameId) => e.frameId == frameId
    case Any => true
  }

  function FirstMatch(list: seq<Entry>, w: Wanted): Option<Entry> {
    if list == [] then None
    else if Wants(w, list[0]) then Some(list[0])
    else FirstMatch(list[1..], w)
  }

  function LookupIn(t: Table, name: string, frameId: Option<nat>, scopeName: Option<string>): Option<Entry> {
    var list := Bucket(t, name);
    var exact := FirstMatch(list, Exact(frameId, scopeName));
    var sameFrame := if frameId.Some? then FirstMatch(list, SameFrame(frameId)) else None;
    Or(exact, Or(sameFrame, FirstMatch(list, Any)))
  }

  /** The first match among the live writes is the match whose last insertion is oldest. */
  lemma {:induction false} FirstMatchIsOldest(log: seq<Entry>, name: string, from: nat, w: Wanted)
    returns (i: nat)
    requires from <= |log|
    ensures match FirstMatch(LiveNamed(log, name, from), w)
      case None => forall j: nat :: from <= j && IsLiveNamed(log, j, name) ==> !Wants(w, log[j])
      case Some(e) =>
        && from <= i && IsLiveNamed(log, i, name) && log[i] == e && Wants(w, e)
        && forall j: nat :: from <= j < i && IsLiveNamed(log, j, name) ==> !Wants(w, log[j])
    decreases |log| - from
  {
    i := from;
    if from < |log| {
      var rest := LiveNamed(log, name, from + 1);
      var here := LiveNamed(log, name, from);
      if IsLiveNamed(log, from, name) {
        assert here == [log[from]] + rest && here[1..] == rest;
      } else {
        assert here == rest;
      }
      if !(IsLiveNamed(log, from, name) && Wants(w, log[from])) {
        i := FirstMatchIsOldest(log, name, from + 1, w);
      }
    }
  }

  /** The oldest live write of a name that is wanted. */
  ghost predicate IsOldest(log: seq<Entry>, name: string, w: Wanted, e: Entry) {
    exists i: nat ::
      && IsLiveNamed(log, i, name) && log[i] == e && Wants(w, e)
      && forall j: nat :: j < i && IsLiveNamed(log, j, name) ==> !Wants(w, log[j])
  }

  ghost predicate NoneLive(log: seq<Entry>, name: string, w: Wanted) {
    forall j: nat :: IsLiveNamed(log, j, name) ==> !Wants(w, log[j])
  }

  lemma FirstMatchMeaning(t: Table, log: seq<Entry>, name: string, w: Wanted)
    requires Indexes(t, log)
    ensures match FirstMatch(Bucket(t, name), w)
      case None => NoneLive(log, name, w)
      case Some(e) => IsOldest(log, name, w, e)
  {
    assert Bucket(t, name) == LiveNamed(log, name, 0);
    var i := FirstMatchIsOldest(log, name, 0, w);
  }

  /** Position `i` is the oldest live write of the name in the frame. */
  ghost predicate OldestInFrame(log: seq<Entry>, name: string, frameId: Option<nat>, i: nat) {
    && IsLiveNamed(log, i, name) && log[i].frameId == frameId
    && forall j: nat :: j < i && IsLiveNamed(log, j, name) ==> log[j].frameId != frameId
  }

  /** Position `i` is the oldest live write of the name. */
  ghost predicate OldestNamed(log: seq<Entry>, name: string, i: nat) {
    IsLiveNamed(log, i, name) && forall j: nat :: j < i ==> !IsLiveNamed(log, j, name)
  }

  /** What a lookup finds in a log of writes. */
  ghost predicate Finds(log: seq<Entry>, name: string, frameId: Option<nat>, scopeName: Option<string>,
                        r: Option<Entry>) {
    var exact := LastWrite(log, Key(name, frameId, scopeName));
    if exact.Some? then r == exact
    else if frameId.Some? && exists i: nat :: OldestInFrame(log, name, frameId, i) then
      exists i: nat :: OldestInFrame(log, name, frameId, i) && r == Some(log[i])
    else if exists i: nat :: OldestNamed(log, name, i) then
      exists i: nat :: OldestNamed(log, name, i) && r == Some(log[i])
    else r == None && forall i: nat :: !IsLiveNamed(log, i, name)
  }

  lemma OldestIsInFrame(log: seq<Entry>, name: string, frameId: Option<nat>, r: Option<Entry>)
    requires match r
             case None => NoneLive(log, name, SameFrame(frameId))
             case Some(e) => IsOldest(log, name, SameFrame(frameId), e)
    ensures r.Some? <==> exists i: nat :: OldestInFrame(log, name, frameId, i)
    ensures r.Some? ==> exists i: nat :: OldestInFrame(log, name, frameId, i) && r == Some(log[i])
  {
    if r.Some? {
      var i: nat :|
        && IsLiveNamed(log, i, name) && log[i] == r.value && Wants(SameFrame(frameId), r.value)
        && forall j: nat :: j < i && IsLiveNamed(log, j, name) ==> !Wants(SameFrame(frameId), log[j]);
      assert OldestInFrame(log, name, frameId, i);
    } else {
      forall i: nat | IsLiveNamed(log, i, name)
        ensures log[i].frameId != frameId
      {
        assert !Wants(SameFrame(frameId), log[i]);
      }
    }
  }

  lemma OldestIsNamed(log: seq<Entry>, name: string, r: Option<Entry>)
    requires match r
             case None => NoneLive(log, name, Any)
             case Some(e) => IsOldest(log, name, Any, e)
    ensures r.Some? <==> exists i: nat :: OldestNamed(log, name, i)
    ensures r.Some? ==> exists i: nat :: OldestNamed(log, name, i) && r == Some(log[i])
    ensures r.None? ==> forall i: nat :: !IsLiveNamed(log, i, name)
  {
    if r.Some? {
      var i: nat :|
        && IsLiveNamed(log, i, name) && log[i] == r.value && Wants(Any, r.value)
        && forall j: nat :: j < i && IsLiveNamed(log, j, name) ==> !Wants(Any, log[j]);
      assert OldestNamed(log, name, i);
    }
  }

  lemma LookupMeaning(t: Table, log: seq<Entry>, name: string, frameId: Option<nat>, scopeName: Option<string>)
    requires Indexes(t, log)
    ensures Finds(log, name, frameId, scopeName, LookupIn(t, name, frameId, scopeName))
  {
    FirstMatchMeaning(t, log, name, SameFrame(frameId));
    FirstMatchMeaning(t, log, name, Any);
    OldestIsInFrame(log, name, frameId, FirstMatch(Bucket(t, name), SameFrame(frameId)));
    OldestIsNamed(log, name, FirstMatch(Bucket(t, name), Any));
    ExactMatchIsLastWrite(t, log, name, frameId, scopeName);
  }

  /** A key has at most one live write, so an exact match is the key's last write. */
  lemma ExactMatchIsLastWrite(t: Table, log: seq<Entry>, name: string, frameId: Option<nat>, scopeName: Option<string>)
    requires Indexes(t, log)
    ensures FirstMatch(Bucket(t, name), Exact(frameId, scopeName)) == LastWrite(log, Key(name, frameId, scopeName))
  {
    var w, key := Exact(frameId, scopeName), Key(name, frameId, scopeName);
    FirstMatchMeaning(t, log, name, w);
    var found := FirstMatch(Bucket(t, name), w);
    if found.Some? {
      var i: nat :| IsLiveNamed(log, i, name) && log[i] == found.value && Wants(w, found.value);
      LastWriteIsLive(log, i);
    } else if LastWrite(log, key).Some? {
      var i := LastWriteHasIndex(log, key);
      assert IsLiveNamed(log, i, name);
    }
  }

  /**
   After any operations, a lookup gives the last write of the exact key if there is one; else
   the same-frame entry whose last insertion is oldest; else the oldest entry of the name.
   */
  lemma LookupAfterRun(ops: seq<CacheOp>, name: string, frameId: Option<nat>, scopeName: Option<string>)
    ensures Finds(LogOf(ops), name, frameId, scopeName,
                  LookupIn(PerformAll(EMPTY, ops).entries, name, frameId, scopeName))
  {
    CacheRefinesLog(ops);
    LookupMeaning(PerformAll(EMPTY, ops).entries, LogOf(ops), name, frameId, scopeName);
  }

  // ----- search

  predicate PartAt(text: string, part: string, i: int) {
    0 <= i <= |text| - |part| && text[i..i + |part|] == part
  }

  predicate Contains(text: string, part: string) {
    exists i | 0 <= i <= |text| - |part| :: PartAt(text, part, i)
  }

  /** A text contains another exactly if it is that text with something before and behind it. */
  lemma ContainsIff(text: string, part: string)
    ensures Contains(text, part) <==> exists before: string, after: string :: text == before + part + after
  {
    if Contains(text, part) {
      var i :| 0 <= i <= |text| - |part| && PartAt(text, part, i);
      assert text == text[..i] + part + text[i + |part|..];
    }
    if before: string, after: string :| text == before + part + after {
      assert text[|before|..|before| + |part|] == part;
      assert PartAt(text, part, |before|);
    }
  }

  /** The entries of the names that contain the query, in some order of the table's names. */
  function Matches(t: Table, query: string, lower: string -> string, order: seq<string>): seq<Entry> {
    if order == [] then []
    else
      Matches(t, query, lower, order[..|order| - 1]) +
      var name := order[|order| - 1];
      if Contains(lower(name), lower(query)) then Bucket(t, name) else []
  }

  function CapturedAt(e: Entry): int { e.capturedAt }

  function Truncate(s: seq<Entry>, limit: nat): seq<Entry> { if |s| <= limit then s else s[..limit] }

  function SearchIn(t: Table, query: string, limit: nat, lower: string -> string, order: seq<string>): seq<Entry> {
    Truncate(SortDescending(Matches(t, query, lower, order), CapturedAt), limit)
  }

  /** How often an entry is among the matches: as often as in its bucket, if its name matches. */
  lemma {:induction false} MatchCount(t: Table, query: string, lower: string -> string, order: seq<string>, e: Entry)
    requires forall i, j :: 0 <= i < j < |order| ==> order[i] != order[j]
    requires forall name :: name in t ==> forall k :: 0 <= k < |t[name]| ==> t[name][k].name == name
    ensures multiset(Matches(t, query, lower, order))[e] ==
            if e.name in order && Contains(lower(e.name), lower(query)) then multiset(Bucket(t, e.name))[e] else 0
  {
    if order != [] {
      var init, name := order[..|order| - 1], order[|order| - 1];
      MatchCount(t, query, lower, init, e);
      if e.name != name {
        assert e !in Bucket(t, name);
        assert e.name in order <==> e.name in init;
      } else {
        assert e.name !in init;
      }
    }
  }

  lemma {:induction false} DistinctCount(list: seq<Entry>, e: Entry)
    requires DistinctKeys(list)
    ensures multiset(list)[e] == if e in list then 1 else 0
  {
    if list != [] {
      DistinctCount(list[1..], e);
      assert list == [list[0]] + list[1..];
      assert list[0] !in list[1..] by {
        assert forall b :: 0 < b < |list| ==> KeyOf(list[0]) != KeyOf(list[b]);
      }
    }
  }

  /**
   Search is a correct top-k. After any operations, whatever the iteration order: the matches
   are exactly the last writes of their keys whose name contains the query ignoring case, each
   once; the result is a sub-multiset of them, has min(limit, matches) entries sorted newest
   first, those of one moment in the order they were visited, and no omitted match is newer than a
   returned one.
   */
  lemma SearchIsTopK(ops: seq<CacheOp>, t: Table, query: string, limit: nat, lower: string -> string,
                     order: seq<string>, all: seq<Entry>, r: seq<Entry>)
    requires t == PerformAll(EMPTY, ops).entries && IterationOrder(t, order)
    requires all == Matches(t, query, lower, order) && r == SearchIn(t, query, limit, lower, order)
    ensures forall e: Entry :: multiset(all)[e] ==
              if Contains(lower(e.name), lower(query)) && LastWrite(LogOf(ops), KeyOf(e)) == Some(e) then 1 else 0
    ensures multiset(r) <= multiset(all)
    ensures |r| == (if limit < |all| then limit else |all|)
    ensures Descending(r, CapturedAt)
    ensures forall e :: e in multiset(all) - multiset(r) ==>
              forall k :: 0 <= k < |r| ==> e.capturedAt <= r[k].capturedAt
    ensures forall time :: WithKey(r, CapturedAt, time) <= WithKey(all, CapturedAt, time)
  {
    CacheIsLastWriterWins(ops);
    forall e: Entry
      ensures multiset(all)[e] ==
              if Contains(lower(e.name), lower(query)) && LastWrite(LogOf(ops), KeyOf(e)) == Some(e) then 1 else 0
    {
      MatchCount(t, query, lower, order, e);
      DistinctCount(Bucket(t, e.name), e);
    }
    TopOfSorted(all, SortDescending(all, CapturedAt), limit, r);
    forall time
      ensures WithKey(r, CapturedAt, time) <= WithKey(all, CapturedAt, time)
    {
      TopKeepsOrder(all, SortDescending(all, CapturedAt), limit, r, time);
    }
  }

  lemma TopKeepsOrder(all: seq<Entry>, sorted: seq<Entry>, limit: nat, r: seq<Entry>, time: int)
    requires sorted == SortDescending(all, CapturedAt) && r == Truncate(sorted, limit)
    ensures WithKey(r, CapturedAt, time) <= WithKey(all, CapturedAt, time)
  {
    SortIsStable(all, CapturedAt, time);
    WithKeyOfAppend(r, sorted[|r|..], CapturedAt, time);
    assert sorted == r + sorted[|r|..];
  }

  lemma TopOfSorted(all: seq<Entry>, sorted: seq<Entry>, limit: nat, r: seq<Entry>)
    requires sorted == SortDescending(all, CapturedAt) && r == Truncate(sorted, limit)
    ensures multiset(r) <= multiset(all)
    ensures |r| == (if limit < |all| then limit else |all|)
    ensures Descending(r, CapturedAt)
    ensures forall e :: e in multiset(all) - multiset(r) ==>
              forall k :: 0 <= k < |r| ==> e.capturedAt <= r[k].capturedAt
  {
    SortIsSorted(all, CapturedAt);
    SameMultisetSameLength(sorted, all);
    OmittedAreOlder(sorted, |r|);
    MultisetOfRest(sorted, |r|);
    assert sorted[..|r|] == r;
  }

  lemma SameMultisetSameLength(a: seq<Entry>, b: seq<Entry>)
    requires multiset(a) == multiset(b)
    ensures |a| == |b|
  {
    assert |multiset(a)| == |multiset(b)|;
  }

  lemma MultisetOfRest(s: seq<Entry>, n: nat)
    requires n <= |s|
    ensures multiset(s[..n]) <= multiset(s)
    ensures multiset(s) - multiset(s[..n]) == multiset(s[n..])
  {
    assert s == s[..n] + s[n..];
  }

  lemma OmittedAreOlder(sorted: seq<Entry>, n: nat)
    requires n <= |sorted| && Descending(sorted, CapturedAt)
    ensures Descending(sorted[..n], CapturedAt)
    ensures forall e :: e in multiset(sorted[n..]) ==>
                          forall k :: 0 <= k < n ==> e.capturedAt <= sorted[..n][k].capturedAt
  {
  }

  // ----- the imperative cache

  class VariableHandleCache {
    var entries: Table
    var valid: bool

    ghost function View(): CacheState reads this { CacheState(entries, valid) }

    constructor ()
      ensures View() == EMPTY
    {
      entries, valid := map[], true;
    }

    method Insert(entry: Entry)
      modifies this
      ensures View() == Perform(old(View()), CacheOp.Insert(entry))
    {
      var list := Without(Bucket(entries, entry.name), KeyOf(entry));
      entries := entries[entry.name := list + [entry]];
      valid := true;
    }

    method InsertBatch(batch: seq<Entry>)
      modifies this
      ensures View() == Perform(old(View()), CacheOp.InsertBatch(batch))
    {
      for i := 0 to |batch|
        invariant entries == InsertAll(old(entries), batch[..i])
      {
        var entry := batch[i];
        assert batch[..i + 1][..i] == batch[..i];
        var list := Without(Bucket(entries, entry.name), KeyOf(entry));
        entries := entries[entry.name := list + [entry]];
      }
      assert batch[..|batch|] == batch;
      valid := true;
    }

    method Lookup(name: string, frameId: Option<nat>, scopeName: Option<string>) returns (r: Option<Entry>)
      ensures r == LookupIn(entries, name, frameId, scopeName)
    {
      if name !in entries {
        return None;
      }
      var list := entries[name];
      r := FindFirst(list, Exact(frameId, scopeName));
      if r.Some? {
        return;
      }
      if frameId.Some? {
        r := FindFirst(list, SameFrame(frameId));
        if r.Some? {
          return;
        }
      }
      return if list == [] then None else Some(list[0]);
    }

    method Search(query: string, limit: nat, lower: string -> string, order: seq<string>) returns (r: seq<Entry>)
      requires IterationOrder(entries, order)
      ensures r == SearchIn(entries, query, limit, lower, order)
    {
      var results: seq<Entry> := [];
      for i := 0 to |order|
        invariant results == Matches(entries, query, lower, order[..i])
      {
        assert order[..i + 1][..i] == order[..i];
        if Contains(lower(order[i]), lower(query)) {
          results := results + Bucket(entries, order[i]);
        }
      }
      assert order[..|order|] == order;
      r := Truncate(SortDescending(results, CapturedAt), limit);
    }

    method Invalidate()
      modifies this
      ensures View() == Perform(old(View()), CacheOp.Invalidate)
    {
      entries, valid := map[], false;
    }

    method MarkStale()
      modifies this
      ensures View() == Perform(old(View()), CacheOp.MarkStale)
    {
      valid := false;
    }

    method Clear()
      modifies this
      ensures View() == Perform(old(View()), CacheOp.Clear)
    {
      entries, valid := map[], true;
    }
  }

  /** One of `lookup`'s loops: the first wanted entry of a list. */
  method FindFirst(list: seq<Entry>, w: Wanted) returns (r: Option<Entry>)
    ensures r == FirstMatch(list, w)
  {
    for i := 0 to |list|
      invariant FirstMatch(list, w) == FirstMatch(list[i..], w)
    {
      if Wants(w, list[i]) {
        return Some(list[i]);
      }
    }
    return None;
  }
}
