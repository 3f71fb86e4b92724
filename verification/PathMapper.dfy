/**
 The path mapper: aliases of absolute directories, resolved by the longest matching alias and
 reversed by the longest directory above a path. The order in which a hash map is iterated is a
 parameter; that it lists exactly the map's keys is all that matters here.
 */
module PathMapping {
  import opened Prelude
  import opened SortBy
  import opened PathText

  datatype Mapper = Mapper(aliases: map<string, string>, reverseCache: map<string, string>, baseDirs: seq<string>)

  const EMPTY := Mapper(map[], map[], [])

  function WithAlias(m: Mapper, alias: string, dir: string): Mapper {
    m.(aliases := m.aliases[alias := dir], reverseCache := m.reverseCache[dir := alias])
  }

  // ----- resolve

  predicate EndsInSlash(n: string) { n != "" && n[|n| - 1] == '/' }

  function SlashEnded(n: string): string { if EndsInSlash(n) then n else n + "/" }

  function AliasPrefix(alias: string): string { SlashEnded(ToSlashes(alias)) }

  predicate MatchesAlias(alias: string, path: string) {
    ToSlashes(path) == ToSlashes(alias) || AliasPrefix(alias) <= ToSlashes(path)
  }

  function Substitute(alias: string, dir: string, path: string): string
    requires MatchesAlias(alias, path)
  {
    if ToSlashes(path) == ToSlashes(alias) then dir
    else ToSlashes(PathJoin(dir, ToSlashes(path)[|AliasPrefix(alias)|..]))
  }

  function Length(s: string): int { |s| }

  function FirstMatching(aliases: seq<string>, path: string): Option<string> {
    if aliases == [] then None
    else if MatchesAlias(aliases[0], path) then Some(aliases[0])
    else FirstMatching(aliases[1..], path)
  }

  function FirstOnDisk(baseDirs: seq<string>, path: string, onDisk: string -> bool): Option<string> {
    if baseDirs == [] then None
    else if onDisk(PathJoin(baseDirs[0], path)) then Some(ToSlashes(PathJoin(baseDirs[0], path)))
    else FirstOnDisk(baseDirs[1..], path, onDisk)
  }

  function ResolveBase(m: Mapper, path: string, onDisk: string -> bool): Option<string> {
    Or(FirstOnDisk(m.baseDirs, path, onDisk),
       if m.baseDirs == [] then None else Some(ToSlashes(PathJoin(m.baseDirs[0], path))))
  }

  /** `order` is the order in which the alias map is visited. */
  function ResolveIn(m: Mapper, path: string, onDisk: string -> bool, order: seq<string>): Option<string> {
    if IsAbsolute(path) then Some(ToSlashes(path))
    else match FirstMatching(SortDescending(order, Length), path)
      case None => ResolveBase(m, path, onDisk)
      case Some(alias) =>
        if alias in m.aliases && MatchesAlias(alias, path) then Some(Substitute(alias, m.aliases[alias], path))
        else None
  }

  // ----- reverse

  function Better(m: Mapper, path: string, best: Option<string>, alias: string): Option<string>
    requires alias in m.aliases && (best.Some? ==> best.value in m.aliases)
  {
    if !StartsWithPath(path, m.aliases[alias]) then best
    else match best
      case None => Some(alias)
      case Some(existing) => if |m.aliases[alias]| > |m.aliases[existing]| then Some(alias) else best
  }

  /** The loop of `reverse` over the alias map. */
  function Best(m: Mapper, path: string, order: seq<string>): (r: Option<string>)
    requires forall i :: 0 <= i < |order| ==> order[i] in m.aliases
    ensures r.Some? ==> r.value in m.aliases
  {
    if order == [] then None
    else Better(m, path, Best(m, path, order[..|order| - 1]), order[|order| - 1])
  }

  function Aliased(alias: string, rest: string): string {
    if rest == "" then alias
    else if ToSlashes(rest)[0] == '/' then ToSlashes(alias) + ToSlashes(rest)
    else ToSlashes(alias) + "/" + ToSlashes(rest)
  }

  function ReverseBase(baseDirs: seq<string>, path: string): Option<string> {
    if baseDirs == [] then None
    else if StartsWithPath(path, baseDirs[0]) then Some(StripPrefix(path, baseDirs[0]))
    else ReverseBase(baseDirs[1..], path)
  }

  function ReverseIn(m: Mapper, path: string, order: seq<string>): Option<string>
    requires forall i :: 0 <= i < |order| ==> order[i] in m.aliases
  {
    match Best(m, path, order)
    case None => ReverseBase(m.baseDirs, path)
    case Some(alias) => Some(Aliased(alias, StripPrefix(path, m.aliases[alias])))
  }

  // ----- deterministic longest match

  /** A matching alias that no other matching alias exceeds in length. */
  ghost predicate IsLongestMatch(m: Mapper, path: string, alias: string) {
    && alias in m.aliases && MatchesAlias(alias, path)
    && forall other {:trigger MatchesAlias(other, path)} :: other in m.aliases && MatchesAlias(other, path) ==>
         |other| <= |alias|
  }

  lemma {:induction false} FirstMatchingMeaning(aliases: seq<string>, path: string)
    ensures match FirstMatching(aliases, path)
      case None => forall i :: 0 <= i < |aliases| ==> !MatchesAlias(aliases[i], path)
      case Some(alias) =>
        && MatchesAlias(alias, path)
        && exists i :: 0 <= i < |aliases| && aliases[i] == alias
                       && forall j :: 0 <= j < i ==> !MatchesAlias(aliases[j], path)
  {
    if aliases != [] {
      var tail := aliases[1..];
      if MatchesAlias(aliases[0], path) {
        assert aliases[0] == FirstMatching(aliases, path).value;
      } else {
        FirstMatchingMeaning(tail, path);
        var found := FirstMatching(tail, path);
        if found.Some? {
          var i :| 0 <= i < |tail| && tail[i] == found.value && forall j :: 0 <= j < i ==> !MatchesAlias(tail[j], path);
          assert aliases[i + 1] == found.value;
          forall j | 0 <= j < i + 1
            ensures !MatchesAlias(aliases[j], path)
          {
            if j > 0 { assert aliases[j] == tail[j - 1]; }
          }
        } else {
          forall i | 0 <= i < |aliases|
            ensures !MatchesAlias(aliases[i], path)
          {
            if i > 0 { assert aliases[i] == tail[i - 1]; }
          }
        }
      }
    }
  }

  lemma SortKeepsMembers(order: seq<string>, name: string)
    ensures name in SortDescending(order, Length) <==> name in order
  {
    SortIsSorted(order, Length);
    assert name in multiset(SortDescending(order, Length)) <==> name in multiset(order);
  }

  /** In a list sorted by length, everything that is not before index `i` is at most as long. */
  lemma FirstMatchIsLongest(sorted: seq<string>, path: string, other: string)
    requires Descending(sorted, Length) && other in sorted && MatchesAlias(other, path)
    ensures FirstMatching(sorted, path).Some? && |other| <= |FirstMatching(sorted, path).value|
    ensures MatchesAlias(FirstMatching(sorted, path).value, path) && FirstMatching(sorted, path).value in sorted
  {
  }

  /** The first match in the sorted list is a longest match, and there is one if any alias matches. */
  lemma SortedFirstIsLongest(m: Mapper, path: string, order: seq<string>)
    requires Visits(m.aliases, order)
    ensures match FirstMatching(SortDescending(order, Length), path)
      case None => forall alias :: alias in m.aliases ==> !MatchesAlias(alias, path)
      case Some(alias) => IsLongestMatch(m, path, alias)
  {
    SortIsSorted(order, Length);
    var sorted := SortDescending(order, Length);
    var found := FirstMatching(sorted, path);
    forall other | other in m.aliases && MatchesAlias(other, path)
      ensures found.Some? && |other| <= |found.value|
    {
      SortKeepsMembers(order, other);
      FirstMatchIsLongest(sorted, path, other);
    }
    if found.Some? {
      FirstMatchingMeaning(sorted, path);
      SortKeepsMembers(order, found.value);
    }
  }

  lemma {:induction false} FirstWithItsKey(aliases: seq<string>, path: string)
    requires FirstMatching(aliases, path).Some?
    ensures var found := FirstMatching(aliases, path);
            FirstMatching(WithKey(aliases, Length, |found.value|), path) == found
  {
    if !MatchesAlias(aliases[0], path) {
      FirstWithItsKey(aliases[1..], path);
    }
  }

  /** Of equally long matches the first one visited is substituted. */
  lemma TiesGoToTheFirstVisited(path: string, order: seq<string>, alias: string)
    requires FirstMatching(SortDescending(order, Length), path) == Some(alias)
    ensures FirstMatching(WithKey(order, Length, |alias|), path) == Some(alias)
  {
    FirstWithItsKey(SortDescending(order, Length), path);
    SortIsStable(order, Length, |alias|);
  }

  lemma MatchIsPrefix(alias: string, path: string)
    requires MatchesAlias(alias, path)
    ensures ToSlashes(alias) <= ToSlashes(path)
  {
  }

  /** Two longest matches of one path have the same slashed text. */
  lemma LongestMatchesAgree(m: Mapper, path: string, a: string, b: string)
    requires IsLongestMatch(m, path, a) && IsLongestMatch(m, path, b)
    ensures ToSlashes(a) == ToSlashes(b)
  {
    MatchIsPrefix(a, path);
    MatchIsPrefix(b, path);
  }

  /** No two aliases with the same slashed text stand for different directories. */
  ghost predicate Unambiguous(m: Mapper) {
    forall a, b :: a in m.aliases && b in m.aliases && ToSlashes(a) == ToSlashes(b) ==> m.aliases[a] == m.aliases[b]
  }

  /** With unambiguous aliases, `resolve` substitutes the longest match whatever the order. */
  lemma ResolveUsesLongestMatch(m: Mapper, path: string, onDisk: string -> bool, order: seq<string>, alias: string)
    requires Unambiguous(m) && Visits(m.aliases, order)
    requires !IsAbsolute(path) && IsLongestMatch(m, path, alias)
    ensures ResolveIn(m, path, onDisk, order) == Some(Substitute(alias, m.aliases[alias], path))
  {
    SortedFirstIsLongest(m, path, order);
    var first := FirstMatching(SortDescending(order, Length), path).value;
    LongestMatchesAgree(m, path, first, alias);
  }

  ghost predicate ResolveIsDeterministic(m: Mapper) {
    forall path: string, onDisk: string -> bool, a: seq<string>, b: seq<string> ::
      Visits(m.aliases, a) && Visits(m.aliases, b) ==>
        ResolveIn(m, path, onDisk, a) == ResolveIn(m, path, onDisk, b)
  }

  lemma UnambiguousIsDeterministic(m: Mapper, path: string, onDisk: string -> bool, a: seq<string>, b: seq<string>)
    requires Unambiguous(m) && Visits(m.aliases, a) && Visits(m.aliases, b)
    ensures ResolveIn(m, path, onDisk, a) == ResolveIn(m, path, onDisk, b)
  {
    SortedFirstIsLongest(m, path, a);
    SortedFirstIsLongest(m, path, b);
    if !IsAbsolute(path) && FirstMatching(SortDescending(a, Length), path).Some? {
      var alias := FirstMatching(SortDescending(a, Length), path).value;
      ResolveUsesLongestMatch(m, path, onDisk, a, alias);
      ResolveUsesLongestMatch(m, path, onDisk, b, alias);
    }
  }

  ghost predicate AheadAt(x: string, s: seq<string>, i: nat) {
    i < |s| && s[i] == x && forall j :: 0 <= j < i ==> |s[j]| > |x|
  }

  /** `x` comes before every element of its own length. */
  ghost predicate AheadOfEquals(x: string, s: seq<string>) { exists i: nat :: AheadAt(x, s, i) }

  lemma AheadOfCons(y: string, x: string, s: seq<string>, i: nat)
    requires AheadAt(x, s, i) && |y| > |x|
    ensures AheadAt(x, [y] + s, i + 1)
  {
    assert forall j :: 0 < j < i + 1 ==> ([y] + s)[j] == s[j - 1];
  }

  lemma AheadInTail(x: string, s: seq<string>, i: nat)
    requires AheadAt(x, s, i) && i > 0
    ensures AheadAt(x, s[1..], i - 1)
  {
    assert forall j :: 0 <= j < i ==> s[1..][j] == s[j + 1];
  }

  lemma {:induction false} InsertKeepsAhead(x: string, y: string, s: seq<string>)
    requires AheadOfEquals(x, s)
    ensures AheadOfEquals(x, InsertByKey(y, s, Length))
  {
    var i: nat :| AheadAt(x, s, i);
    if |s[0]| < |y| {
      AheadOfCons(y, x, s, i);
    } else if i == 0 {
      assert AheadAt(x, InsertByKey(y, s, Length), 0);
    } else {
      AheadInTail(x, s, i);
      InsertKeepsAhead(x, y, s[1..]);
      var k: nat :| AheadAt(x, InsertByKey(y, s[1..], Length), k);
      AheadOfCons(s[0], x, InsertByKey(y, s[1..], Length), k);
    }
  }

  lemma {:induction false} FirstStaysAhead(s: seq<string>)
    requires s != []
    ensures AheadOfEquals(s[0], SortDescending(s, Length))
  {
    if |s| == 1 {
      assert s[..0] == [];
      assert AheadAt(s[0], SortDescending(s, Length), 0);
    } else {
      var init := s[..|s| - 1];
      FirstStaysAhead(init);
      InsertKeepsAhead(s[0], s[|s| - 1], SortDescending(init, Length));
    }
  }

  /** A match that no match exceeds in length, ahead of everything of its own length, is found first. */
  lemma {:induction false} AheadIsFirst(sorted: seq<string>, path: string, x: string)
    requires AheadOfEquals(x, sorted) && MatchesAlias(x, path)
    requires forall i :: 0 <= i < |sorted| && MatchesAlias(sorted[i], path) ==> |sorted[i]| <= |x|
    ensures FirstMatching(sorted, path) == Some(x)
  {
    var i: nat :| AheadAt(x, sorted, i);
    if i > 0 {
      AheadInTail(x, sorted, i);
      AheadIsFirst(sorted[1..], path, x);
    }
  }

  /** If a longest match is visited first, its directory is the one used. */
  lemma VisitedFirstWins(m: Mapper, path: string, order: seq<string>)
    requires Visits(m.aliases, order) && order != [] && IsLongestMatch(m, path, order[0])
    ensures FirstMatching(SortDescending(order, Length), path) == Some(order[0])
  {
    FirstStaysAhead(order);
    var sorted := SortDescending(order, Length);
    forall i | 0 <= i < |sorted| && MatchesAlias(sorted[i], path)
      ensures |sorted[i]| <= |order[0]|
    {
      SortKeepsMembers(order, sorted[i]);
    }
    AheadIsFirst(sorted, path, order[0]);
  }

  function ToBackslashes(s: string): string {
    seq(|s|, i requires 0 <= i < |s| => if s[i] == '/' then '\\' else s[i])
  }

  /** An alias's own text, with backslashes, is a relative path whose longest match is that alias. */
  lemma OwnPathMatches(m: Mapper, alias: string, other: string)
    requires alias in m.aliases && other in m.aliases && ToSlashes(alias) == ToSlashes(other)
    ensures !IsAbsolute(ToBackslashes(alias))
    ensures ToSlashes(ToBackslashes(alias)) == ToSlashes(alias)
    ensures IsLongestMatch(m, ToBackslashes(alias), other)
  {
  }

  /** Two aliases with the same slashed text: whichever is visited first is resolved. */
  lemma FirstVisitedIsResolved(m: Mapper, alias: string, other: string, onDisk: string -> bool)
    returns (order: seq<string>)
    requires alias in m.aliases && other in m.aliases && ToSlashes(alias) == ToSlashes(other)
    ensures Visits(m.aliases, order)
    ensures ResolveIn(m, ToBackslashes(alias), onDisk, order) == Some(m.aliases[other])
  {
    order := OrderStartingWith(m.aliases, other);
    OwnPathMatches(m, alias, other);
    VisitedFirstWins(m, ToBackslashes(alias), order);
  }

  /** Exactly with unambiguous aliases is `resolve` independent of the map's order. */
  lemma DeterministicIffUnambiguous(m: Mapper)
    ensures ResolveIsDeterministic(m) <==> Unambiguous(m)
  {
    if Unambiguous(m) {
      forall path: string, onDisk: string -> bool, a: seq<string>, b: seq<string>
        | Visits(m.aliases, a) && Visits(m.aliases, b)
        ensures ResolveIn(m, path, onDisk, a) == ResolveIn(m, path, onDisk, b)
      {
        UnambiguousIsDeterministic(m, path, onDisk, a, b);
      }
    } else {
      AmbiguousIsNot(m);
    }
  }

  lemma AmbiguousIsNot(m: Mapper)
    requires !Unambiguous(m)
    ensures !ResolveIsDeterministic(m)
  {
    var x, y :| x in m.aliases && y in m.aliases && ToSlashes(x) == ToSlashes(y) && m.aliases[x] != m.aliases[y];
    var onDisk := (s: string) => false;
    var a := FirstVisitedIsResolved(m, x, x, onDisk);
    var b := FirstVisitedIsResolved(m, x, y, onDisk);
    assert ResolveIn(m, ToBackslashes(x), onDisk, a) != ResolveIn(m, ToBackslashes(x), onDisk, b);
  }

  // ----- the directories above a path

  ghost predicate Above(m: Mapper, path: string, alias: string) {
    alias in m.aliases && StartsWithPath(path, m.aliases[alias])
  }

  /** `best` is the alias of a longest directory above the path among `names`. */
  ghost predicate LongestAbove(m: Mapper, path: string, names: seq<string>, best: Option<string>)
    requires forall i :: 0 <= i < |names| ==> names[i] in m.aliases
  {
    match best
    case None => forall name :: name in names ==> !Above(m, path, name)
    case Some(alias) =>
      && alias in names && Above(m, path, alias)
      && forall name :: name in names && Above(m, path, name) ==> |m.aliases[name]| <= |m.aliases[alias]|
  }

  lemma BetterIsLongest(m: Mapper, path: string, names: seq<string>, best: Option<string>, last: string)
    requires forall i :: 0 <= i < |names| ==> names[i] in m.aliases
    requires last in m.aliases && LongestAbove(m, path, names, best)
    ensures forall name :: name in names + [last] ==> name in m.aliases
    ensures best.Some? ==> best.value in m.aliases
    ensures LongestAbove(m, path, names + [last], Better(m, path, best, last))
  {
  }

  /** The loop of `reverse` finds a longest directory above the path, if there is any. */
  lemma {:induction false} BestIsLongest(m: Mapper, path: string, order: seq<string>)
    requires forall i :: 0 <= i < |order| ==> order[i] in m.aliases
    ensures LongestAbove(m, path, order, Best(m, path, order))
  {
    if order != [] {
      var init, last := order[..|order| - 1], order[|order| - 1];
      BestIsLongest(m, path, init);
      BetterIsLongest(m, path, init, Best(m, path, init), last);
      InitAndLast(order);
    }
  }

  /** The length of the alias's directory if it is above the path, and less than any length otherwise. */
  function Reach(m: Mapper, path: string, alias: string): int
    requires alias in m.aliases
  {
    if StartsWithPath(path, m.aliases[alias]) then |m.aliases[alias]| else -1
  }

  function Reaches(m: Mapper, path: string, order: seq<string>): (r: seq<int>)
    requires forall i :: 0 <= i < |order| ==> order[i] in m.aliases
    ensures |r| == |order|
  {
    if order == [] then []
    else Reaches(m, path, order[..|order| - 1]) + [Reach(m, path, order[|order| - 1])]
  }

  /** The first of the greatest numbers is at `k`. */
  predicate FirstGreatest(s: seq<int>, k: nat) {
    && k < |s| && (forall j :: 0 <= j < k ==> s[j] < s[k]) && (forall j :: k < j < |s| ==> s[j] <= s[k])
  }

  lemma GreatestStays(s: seq<int>, last: int, k: nat)
    requires FirstGreatest(s, k) && last <= s[k]
    ensures FirstGreatest(s + [last], k)
  {
  }

  lemma GreatestIsLast(s: seq<int>, last: int, k: nat)
    requires s == [] || (FirstGreatest(s, k) && s[k] < last) || forall j :: 0 <= j < |s| ==> s[j] < last
    ensures FirstGreatest(s + [last], |s|)
  {
  }

  lemma {:induction false} NothingReaches(m: Mapper, path: string, order: seq<string>)
    requires forall i :: 0 <= i < |order| ==> order[i] in m.aliases
    requires LongestAbove(m, path, order, None)
    ensures forall i :: 0 <= i < |order| ==> Reaches(m, path, order)[i] == -1
  {
    if order != [] {
      var init, last := order[..|order| - 1], order[|order| - 1];
      assert last in order && !Above(m, path, last);
      NothingReaches(m, path, init);
    }
  }

  lemma BetterByReach(m: Mapper, path: string, best: Option<string>, alias: string)
    requires alias in m.aliases && (best.Some? ==> best.value in m.aliases)
    ensures Better(m, path, best, alias) ==
            if Reach(m, path, alias) < 0 then best
            else if best.None? || Reach(m, path, alias) > |m.aliases[best.value]| then Some(alias)
            else best
    ensures Reach(m, path, alias) >= 0 ==> Reach(m, path, alias) == |m.aliases[alias]|
  {
  }

  /** The loop keeps the first visited of the longest directories above the path. */
  lemma {:induction false} BestIsFirstLongest(m: Mapper, path: string, order: seq<string>) returns (k: nat)
    requires forall i :: 0 <= i < |order| ==> order[i] in m.aliases
    requires Best(m, path, order).Some?
    ensures k < |order| && order[k] == Best(m, path, order).value
    ensures FirstGreatest(Reaches(m, path, order), k) && Reaches(m, path, order)[k] == |m.aliases[order[k]]|
  {
    var init, last := order[..|order| - 1], order[|order| - 1];
    var before, reaches, reach := Best(m, path, init), Reaches(m, path, init), Reach(m, path, last);
    BetterByReach(m, path, before, last);
    if before.None? {
      BestIsLongest(m, path, init);
      NothingReaches(m, path, init);
      k := |init|;
      GreatestIsLast(reaches, reach, k);
    } else {
      k := BestIsFirstLongest(m, path, init);
      if reach > reaches[k] {
        GreatestIsLast(reaches, reach, k);
        k := |init|;
      } else {
        GreatestStays(reaches, reach, k);
      }
    }
  }

  // ----- base directories

  /** The file is in base directory `i`, and in none before it. */
  ghost predicate FirstHolding(m: Mapper, path: string, onDisk: string -> bool, i: nat) {
    && i < |m.baseDirs| && onDisk(PathJoin(m.baseDirs[i], path))
    && forall j :: 0 <= j < i ==> !onDisk(PathJoin(m.baseDirs[j], path))
  }

  lemma {:induction false} FirstOnDiskMeaning(baseDirs: seq<string>, path: string, onDisk: string -> bool)
    returns (i: nat)
    ensures match FirstOnDisk(baseDirs, path, onDisk)
      case None => forall j :: 0 <= j < |baseDirs| ==> !onDisk(PathJoin(baseDirs[j], path))
      case Some(found) =>
        && i < |baseDirs| && onDisk(PathJoin(baseDirs[i], path)) && found == ToSlashes(PathJoin(baseDirs[i], path))
        && forall j :: 0 <= j < i ==> !onDisk(PathJoin(baseDirs[j], path))
  {
    i := 0;
    if baseDirs != [] && !onDisk(PathJoin(baseDirs[0], path)) {
      var k := FirstOnDiskMeaning(baseDirs[1..], path, onDisk);
      i := k + 1;
      assert forall j :: 0 < j < |baseDirs| ==> baseDirs[j] == baseDirs[1..][j - 1];
    }
  }

  /**
   A relative path that no alias matches resolves to its place in the first base directory that has the
   file; if none has it, in the first base directory; and to nothing without base directories.
   */
  lemma ResolvesInBaseDirs(m: Mapper, path: string, onDisk: string -> bool, order: seq<string>)
    requires Visits(m.aliases, order) && !IsAbsolute(path)
    requires forall alias :: alias in m.aliases ==> !MatchesAlias(alias, path)
    ensures forall i: nat :: FirstHolding(m, path, onDisk, i) ==>
              ResolveIn(m, path, onDisk, order) == Some(ToSlashes(PathJoin(m.baseDirs[i], path)))
    ensures (forall i: nat :: !FirstHolding(m, path, onDisk, i)) ==>
              ResolveIn(m, path, onDisk, order) ==
              if m.baseDirs == [] then None else Some(ToSlashes(PathJoin(m.baseDirs[0], path)))
  {
    SortedFirstIsLongest(m, path, order);
    var k := FirstOnDiskMeaning(m.baseDirs, path, onDisk);
    if FirstOnDisk(m.baseDirs, path, onDisk).Some? {
      assert FirstHolding(m, path, onDisk, k);
      forall i: nat | FirstHolding(m, path, onDisk, i)
        ensures i == k
      {
      }
    }
  }

  /** Base directory `i` is above the path, and none before it is. */
  ghost predicate FirstBaseAbove(m: Mapper, path: string, i: nat) {
    && i < |m.baseDirs| && StartsWithPath(path, m.baseDirs[i])
    && forall j :: 0 <= j < i ==> !StartsWithPath(path, m.baseDirs[j])
  }

  lemma FirstAboveIsFirstTrue(m: Mapper, path: string, i: nat)
    ensures FirstBaseAbove(m, path, i) <==> FirstTrue(BasesAbove(m.baseDirs, path), i)
  {
    forall j | 0 <= j < |m.baseDirs|
      ensures BasesAbove(m.baseDirs, path)[j] == StartsWithPath(path, m.baseDirs[j])
    {
      BaseAboveAt(m.baseDirs, path, j);
    }
  }

  /** Which base directories are above the path. */
  function BasesAbove(baseDirs: seq<string>, path: string): (flags: seq<bool>)
    ensures |flags| == |baseDirs|
  {
    if baseDirs == [] then [] else [StartsWithPath(path, baseDirs[0])] + BasesAbove(baseDirs[1..], path)
  }

  lemma {:induction false} BaseAboveAt(baseDirs: seq<string>, path: string, i: nat)
    requires i < |baseDirs|
    ensures BasesAbove(baseDirs, path)[i] == StartsWithPath(path, baseDirs[i])
  {
    if i > 0 {
      BaseAboveAt(baseDirs[1..], path, i - 1);
    }
  }

  predicate FirstTrue(flags: seq<bool>, i: nat) { i < |flags| && flags[i] && forall j :: 0 <= j < i ==> !flags[j] }

  lemma FirstTrueInTail(flags: seq<bool>, i: nat)
    requires flags != [] && !flags[0]
    ensures i > 0 ==> (FirstTrue(flags, i) <==> FirstTrue(flags[1..], i - 1))
    ensures (forall j :: 0 <= j < |flags| ==> !flags[j]) <==> forall j :: 0 <= j < |flags[1..]| ==> !flags[1..][j]
  {
    assert forall j :: 0 <= j < |flags| - 1 ==> flags[1..][j] == flags[j + 1];
    assert forall j :: 0 < j < |flags| ==> flags[j] == flags[1..][j - 1];
  }

  lemma {:induction false} ReverseBaseMeaning(baseDirs: seq<string>, path: string) returns (i: nat)
    ensures match ReverseBase(baseDirs, path)
      case None => forall j :: 0 <= j < |baseDirs| ==> !BasesAbove(baseDirs, path)[j]
      case Some(rest) => FirstTrue(BasesAbove(baseDirs, path), i) && rest == StripPrefix(path, baseDirs[i])
  {
    i := 0;
    if baseDirs != [] && !StartsWithPath(path, baseDirs[0]) {
      var k := ReverseBaseMeaning(baseDirs[1..], path);
      i := k + 1;
      FirstTrueInTail(BasesAbove(baseDirs, path), i);
    }
  }

  /**
   A path above which no alias directory lies reverses to what is left below the first base directory
   above it, and to nothing if there is none.
   */
  lemma ReversesBelowBaseDirs(m: Mapper, path: string, order: seq<string>)
    requires Visits(m.aliases, order) && forall alias :: !Above(m, path, alias)
    ensures forall i: nat :: FirstBaseAbove(m, path, i) ==>
              ReverseIn(m, path, order) == Some(StripPrefix(path, m.baseDirs[i]))
    ensures (forall i: nat :: !FirstBaseAbove(m, path, i)) ==> ReverseIn(m, path, order) == None
  {
    BestIsLongest(m, path, order);
    var k := ReverseBaseMeaning(m.baseDirs, path);
    forall i: nat
      ensures FirstBaseAbove(m, path, i) <==> FirstTrue(BasesAbove(m.baseDirs, path), i)
    {
      FirstAboveIsFirstTrue(m, path, i);
    }
    forall i: nat | FirstTrue(BasesAbove(m.baseDirs, path), i)
      ensures ReverseBase(m.baseDirs, path).Some? && i == k
    {
    }
  }

  /**
   So a file below a clean base directory comes back from reversing and resolving, if neither an alias nor
   an earlier base directory claims it on either way.
   */
  lemma BaseDirRoundTrip(m: Mapper, dir: string, rest: string, onDisk: string -> bool, i: nat,
                         reverseOrder: seq<string>, resolveOrder: seq<string>)
    requires Visits(m.aliases, reverseOrder) && Visits(m.aliases, resolveOrder)
    requires CleanDir(dir) && Tidy(rest) && NoBackslash(rest) && i < |m.baseDirs| && m.baseDirs[i] == dir
    requires forall alias :: alias in m.aliases ==> !MatchesAlias(alias, rest) && !Above(m, PathJoin(dir, rest), alias)
    requires FirstBaseAbove(m, PathJoin(dir, rest), i) && FirstHolding(m, rest, onDisk, i)
    ensures ReverseIn(m, PathJoin(dir, rest), reverseOrder) == Some(rest)
    ensures ResolveIn(m, rest, onDisk, resolveOrder) == Some(PathJoin(dir, rest))
  {
    StripOfJoin(dir, rest);
    TidyIsRelative(rest);
    ReversesBelowBaseDirs(m, PathJoin(dir, rest), reverseOrder);
    ResolvesInBaseDirs(m, rest, onDisk, resolveOrder);
    ToSlashesKeeps(PathJoin(dir, rest));
  }

  // ----- coherent mappers

  /** The slashed text of a relative alias that is not empty. */
  predicate Relative(n: string) { n != "" && n[0] != '/' }

  ghost predicate CleanDirs(m: Mapper) {
    forall alias {:trigger CleanDir(m.aliases[alias])} :: alias in m.aliases ==> CleanDir(m.aliases[alias])
  }

  ghost predicate DistinctDirs(m: Mapper) {
    forall a, b :: a in m.aliases && b in m.aliases && m.aliases[a] == m.aliases[b] ==> a == b
  }

  /** The alias `b` reads as the alias `a` followed by the relative text `s`. */
  predicate Inside(a: string, b: string, s: string) {
    !IsAbsolute(s) && ToSlashes(b) == ToSlashes(a) + "/" + s
  }

  /** An alias inside another stands for the corresponding directory inside the other's. */
  ghost predicate AliasesNestLikeDirs(m: Mapper) {
    forall a, b, s {:trigger Inside(a, b, s)} ::
      a in m.aliases && b in m.aliases && Relative(ToSlashes(a)) && Inside(a, b, s) ==>
        Components(m.aliases[b]) == Components(m.aliases[a]) + Parts(Segments(s))
  }

  /** Conversely, a directory inside another has the corresponding alias. */
  ghost predicate DirsNestLikeAliases(m: Mapper) {
    forall a, b, s {:trigger Inside(a, b, s)} ::
                      (&& a in m.aliases && b in m.aliases && !EndsInSlash(ToSlashes(a)) && Tidy(s)
                       && m.aliases[b] == PathJoin(m.aliases[a], s)) ==> Inside(a, b, s)
  }

  // ----- resolve after reverse

  /** No alias directory above the path is longer than `dir`. */
  ghost predicate NoDeeperDir(m: Mapper, path: string, dir: string) {
    forall b :: Above(m, path, b) ==> |m.aliases[b]| <= |dir|
  }

  /** The path is the directory itself, or the directory with a tidy remainder below it. */
  ghost predicate WrittenBelow(path: string, dir: string) {
    path == dir || exists rest :: Tidy(rest) && path == PathJoin(dir, rest)
  }

  ghost predicate HasAliasText(m: Mapper, n: string) {
    exists alias :: alias in m.aliases && ToSlashes(alias) == n
  }

  /**
   What an alias must be like for `resolve` to find its directory again in the text `reverse`
   makes of it and a remainder: relative, and if it ends in '/', for the root or beside an alias
   with one more '/'. Otherwise the remainder is taken for an absolute path.
   */
  ghost predicate Carries(m: Mapper, alias: string)
    requires alias in m.aliases
  {
    var n := ToSlashes(alias);
    Relative(n) && (EndsInSlash(n) ==> m.aliases[alias] == "/" || HasAliasText(m, n + "/"))
  }

  /** When a path reversed to `alias` comes back from `resolve`, said of the path and the mapper alone. */
  ghost predicate ComesBack(m: Mapper, path: string, alias: string)
    requires alias in m.aliases
  {
    var n, dir := ToSlashes(alias), m.aliases[alias];
    var rest := StripPrefix(path, dir);
    && NoBackslash(path)
    && (if rest == "" then path == (if IsAbsolute(alias) then n else dir)
        else if Relative(n) then Carries(m, alias) && WrittenBelow(path, dir)
        else path == n + "/" + rest)
  }

  lemma AliasedText(alias: string, rest: string)
    requires Tidy(rest) && NoBackslash(rest)
    ensures Aliased(alias, rest) == ToSlashes(alias) + "/" + rest
    ensures ToSlashes(Aliased(alias, rest)) == Aliased(alias, rest)
  {
    TidyIsRelative(rest);
    ToSlashesKeeps(rest);
    ToSlashesKeeps(Aliased(alias, rest));
  }

  /** The beginning `s` of `t` ends where a segment ends. */
  predicate Begins(s: string, t: string) { s == t || SlashEnded(s) <= t }

  /** A longer text that begins at a boundary of an alias and a remainder ends inside the remainder. */
  lemma LongerBeginning(n: string, rest: string, longer: string)
    requires Begins(longer, n + "/" + rest) && |longer| > |n|
    ensures longer == n + "/" + longer[|n| + 1..]
    ensures longer[|n| + 1..] == "" || Begins(longer[|n| + 1..], rest)
  {
    var back, s := n + "/" + rest, longer[|n| + 1..];
    assert longer <= back;
    assert longer[..|n| + 1] == back[..|n| + 1] == n + "/";
    assert rest == back[|n| + 1..];
    if longer != back && s != "" {
      var ended := SlashEnded(longer);
      assert ended == back[..|ended|];
      assert SlashEnded(s) == ended[|n| + 1..] == rest[..|SlashEnded(s)|];
    }
  }

  lemma PartsBeginWith(s: string, t: string)
    requires Tidy(s + "/" + t)
    ensures Parts(Segments(s)) != [] && Parts(Segments(s)) <= Parts(Segments(s + "/" + t))
  {
    SegmentsOfConcat(s, t);
    PartsOfConcat(Segments(s), Segments(t));
    assert (Segments(s) + Segments(t))[0] == Segments(s)[0];
  }

  /** A beginning of a tidy remainder has some of its components, the first ones. */
  lemma PartsOfBeginning(s: string, rest: string)
    requires Tidy(rest) && s != "" && Begins(s, rest)
    ensures !IsAbsolute(s) && Parts(Segments(s)) != [] && Parts(Segments(s)) <= Parts(Segments(rest))
  {
    TidyIsRelative(rest);
    assert s[0] == rest[0];
    if s != rest {
      var body := if EndsInSlash(s) then s[..|s| - 1] else s;
      assert SlashEnded(s) == body + "/";
      PrefixAndRest(body + "/", rest);
      PartsBeginWith(body, rest[|body| + 1..]);
      if EndsInSlash(s) {
        assert s == body + "/" + "";
        SegmentsOfConcat(body, "");
        PartsOfConcat(Segments(body), [""]);
        assert Parts([""]) == [];
        AppendNothing(Parts(Segments(body)));
      }
    }
  }

  lemma SameComponents(a: string, b: string)
    requires CleanDir(a) && CleanDir(b) && Components(a) == Components(b)
    ensures a == b
  {
    CleanDirComponents(a);
    CleanDirComponents(b);
    CleanDirText(a);
    CleanDirText(b);
    ConsInjective("/", DirParts(a), DirParts(b));
  }

  /** A directory that adds some of the remainder's components is a longer one above the path. */
  lemma DeeperDirAbove(path: string, dir: string, deeper: string, added: seq<string>, parts: seq<string>)
    requires CleanDir(dir) && CleanDir(deeper) && added != [] && added <= parts
    requires Components(path) == Components(dir) + parts && Components(deeper) == Components(dir) + added
    ensures StartsWithPath(path, deeper) && |deeper| > |dir|
  {
    CleanDirComponents(dir);
    CleanDirComponents(deeper);
    AppendAssoc(["/"], DirParts(dir), added);
    ConsInjective("/", DirParts(deeper), DirParts(dir) + added);
    MorePartsLonger(dir, deeper);
    AppendPrefix(Components(dir), added, parts);
  }

  lemma AppendPrefix<T>(x: seq<T>, y: seq<T>, z: seq<T>)
    requires y <= z
    ensures x + y <= x + z
  {
  }

  /**
   An alias that matches the reversed text is not longer than the chosen one, or is the chosen
   one with one more '/' and stands for the same directory: any other longer one would have a
   longer directory above the path.
   */
  lemma MatchOfReversed(m: Mapper, path: string, alias: string, rest: string, other: string)
    requires CleanDirs(m) && AliasesNestLikeDirs(m) && alias in m.aliases && other in m.aliases
    requires Relative(ToSlashes(alias)) && Tidy(rest)
    requires Components(path) == Components(m.aliases[alias]) + Parts(Segments(rest))
    requires StartsWithPath(path, m.aliases[other]) ==> |m.aliases[other]| <= |m.aliases[alias]|
    requires Begins(ToSlashes(other), ToSlashes(alias) + "/" + rest) && |other| > |alias|
    ensures ToSlashes(other) == ToSlashes(alias) + "/" && m.aliases[other] == m.aliases[alias]
  {
    var n, dir := ToSlashes(alias), m.aliases[alias];
    var s := ToSlashes(other)[|n| + 1..];
    LongerBeginning(n, rest, ToSlashes(other));
    if s == "" {
      assert Inside(alias, other, s);
      assert Parts(Segments("")) == [];
      AppendNothing(Components(dir));
      SameComponents(dir, m.aliases[other]);
    } else {
      PartsOfBeginning(s, rest);
      assert Inside(alias, other, s);
      DeeperDirAbove(path, dir, m.aliases[other], Parts(Segments(s)), Parts(Segments(rest)));
    }
  }

  lemma SubstituteBelow(alias: string, dir: string, path: string, rest: string)
    requires CleanDir(dir) && NoBackslash(path) && path == SlashEnded(ToSlashes(alias)) + rest
    requires path != ToSlashes(alias)
    ensures MatchesAlias(alias, path) && Substitute(alias, dir, path) == PathJoin(dir, rest)
  {
    ToSlashesKeeps(path);
    assert path[|SlashEnded(ToSlashes(alias))|..] == rest;
    ToSlashesKeeps(PathJoin(dir, rest));
  }

  /** Under an alias that ends in '/', the remainder of the reversed text is absolute. */
  lemma SubstituteOpenEnded(alias: string, dir: string, rest: string)
    requires EndsInSlash(ToSlashes(alias)) && CleanDir(dir) && Tidy(rest) && NoBackslash(rest)
    ensures MatchesAlias(alias, Aliased(alias, rest))
    ensures Substitute(alias, dir, Aliased(alias, rest)) == "/" + rest
  {
    AliasedText(alias, rest);
    AppendAssoc(ToSlashes(alias), "/", rest);
    SubstituteBelow(alias, dir, Aliased(alias, rest), "/" + rest);
  }

  lemma SubstituteClosed(alias: string, n: string, dir: string, rest: string)
    requires SlashEnded(ToSlashes(alias)) == n + "/" && |n| <= |alias| <= |n| + 1
    requires CleanDir(dir) && Tidy(rest) && NoBackslash(n + "/" + rest)
    ensures MatchesAlias(alias, n + "/" + rest)
    ensures Substitute(alias, dir, n + "/" + rest) == PathJoin(dir, rest)
  {
    TidyIsRelative(rest);
    SubstituteBelow(alias, dir, n + "/" + rest, rest);
  }

  /** What `resolve` makes of an alias and a remainder, for a path whose longest directory is the alias's. */
  ghost function Rejoined(m: Mapper, alias: string, rest: string): string
    requires alias in m.aliases
  {
    var n := ToSlashes(alias);
    if !Relative(n) then n + "/" + rest
    else if EndsInSlash(n) && !HasAliasText(m, n + "/") then "/" + rest
    else PathJoin(m.aliases[alias], rest)
  }

  lemma AliasedMatches(alias: string, rest: string)
    requires Relative(ToSlashes(alias)) && Tidy(rest) && NoBackslash(rest)
    ensures !IsAbsolute(Aliased(alias, rest)) && MatchesAlias(alias, Aliased(alias, rest))
  {
    AliasedText(alias, rest);
  }

  /** The value of `resolve` on the reversed text, with the longest match given. */
  lemma SubstituteReversed(m: Mapper, path: string, alias: string, rest: string, first: string)
    requires CleanDirs(m) && Unambiguous(m) && AliasesNestLikeDirs(m) && alias in m.aliases
    requires Relative(ToSlashes(alias)) && Tidy(rest) && NoBackslash(rest)
    requires Components(path) == Components(m.aliases[alias]) + Parts(Segments(rest))
    requires NoDeeperDir(m, path, m.aliases[alias]) && IsLongestMatch(m, Aliased(alias, rest), first)
    ensures Substitute(first, m.aliases[first], Aliased(alias, rest)) ==
            Rejoined(m, alias, rest)
  {
    var n, dir := ToSlashes(alias), m.aliases[alias];
    AliasedText(alias, rest);
    if |first| > |alias| {
      MatchOfReversed(m, path, alias, rest, first);
      SubstituteClosed(first, n, dir, rest);
    } else {
      SubstituteSameText(m, alias, rest, first);
    }
  }

  lemma SubstituteSameText(m: Mapper, alias: string, rest: string, first: string)
    requires CleanDirs(m) && Unambiguous(m) && alias in m.aliases
    requires Relative(ToSlashes(alias)) && Tidy(rest) && NoBackslash(rest)
    requires IsLongestMatch(m, Aliased(alias, rest), first) && |first| <= |alias|
    ensures Substitute(first, m.aliases[first], Aliased(alias, rest)) == Rejoined(m, alias, rest)
  {
    AliasedMatches(alias, rest);
    LongestIsSame(m, Aliased(alias, rest), alias, first);
    AliasedText(alias, rest);
    AliasedText(first, rest);
    if EndsInSlash(ToSlashes(alias)) {
      SlashedMatches(m, alias, rest, first);
      SubstituteOpenEnded(first, m.aliases[first], rest);
    } else {
      SubstituteClosed(first, ToSlashes(alias), m.aliases[first], rest);
    }
  }

  lemma LongestIsSame(m: Mapper, path: string, alias: string, first: string)
    requires Unambiguous(m) && alias in m.aliases && MatchesAlias(alias, path)
    requires IsLongestMatch(m, path, first) && |first| <= |alias|
    ensures ToSlashes(first) == ToSlashes(alias) && m.aliases[first] == m.aliases[alias]
  {
    MatchIsPrefix(first, path);
    MatchIsPrefix(alias, path);
  }

  /** An alias with one more '/' would match the reversed text and be longer. */
  lemma SlashedMatches(m: Mapper, alias: string, rest: string, first: string)
    requires alias in m.aliases && Tidy(rest) && NoBackslash(rest)
    requires IsLongestMatch(m, Aliased(alias, rest), first) && |first| <= |alias|
    ensures !HasAliasText(m, ToSlashes(alias) + "/")
  {
    AliasedText(alias, rest);
    var n := ToSlashes(alias);
    forall b | b in m.aliases && ToSlashes(b) == n + "/"
      ensures false
    {
      assert AliasPrefix(b) == n + "/";
      assert MatchesAlias(b, Aliased(alias, rest));
    }
  }

  lemma {:induction false} FirstOnDiskIsSlashed(baseDirs: seq<string>, path: string, onDisk: string -> bool)
    ensures FirstOnDisk(baseDirs, path, onDisk).Some? ==> NoBackslash(FirstOnDisk(baseDirs, path, onDisk).value)
  {
    if baseDirs != [] && !onDisk(PathJoin(baseDirs[0], path)) {
      FirstOnDiskIsSlashed(baseDirs[1..], path, onDisk);
    }
  }

  lemma ResolvedIsSlashed(m: Mapper, path: string, onDisk: string -> bool, order: seq<string>)
    requires CleanDirs(m) && ResolveIn(m, path, onDisk, order).Some?
    ensures NoBackslash(ResolveIn(m, path, onDisk, order).value)
  {
    FirstOnDiskIsSlashed(m.baseDirs, path, onDisk);
    assert forall alias :: alias in m.aliases ==> CleanDir(m.aliases[alias]);
  }

  /** An alias's own text resolves to its directory unless it is absolute. */
  lemma ResolveOfAlias(m: Mapper, alias: string, onDisk: string -> bool, order: seq<string>)
    requires Unambiguous(m) && Visits(m.aliases, order) && alias in m.aliases
    ensures ResolveIn(m, alias, onDisk, order) == Some(if IsAbsolute(alias) then ToSlashes(alias) else m.aliases[alias])
  {
    if !IsAbsolute(alias) {
      assert IsLongestMatch(m, alias, alias);
      ResolveUsesLongestMatch(m, alias, onDisk, order, alias);
    }
  }

  lemma ChosenHasNoDeeper(m: Mapper, path: string, order: seq<string>, alias: string)
    requires Visits(m.aliases, order) && Best(m, path, order) == Some(alias)
    ensures StartsWithPath(path, m.aliases[alias]) && NoDeeperDir(m, path, m.aliases[alias])
  {
    BestIsLongest(m, path, order);
    forall c | c in m.aliases && StartsWithPath(path, m.aliases[c])
      ensures |m.aliases[c]| <= |m.aliases[alias]|
    {
      assert Above(m, path, c);
    }
  }

  lemma ResolveOfRelative(m: Mapper, path: string, onDisk: string -> bool, order: seq<string>,
                          alias: string, rest: string, back: string)
    requires CleanDirs(m) && Unambiguous(m) && AliasesNestLikeDirs(m) && Visits(m.aliases, order)
    requires alias in m.aliases && Relative(ToSlashes(alias)) && Tidy(rest) && NoBackslash(rest)
    requires Components(path) == Components(m.aliases[alias]) + Parts(Segments(rest))
    requires NoDeeperDir(m, path, m.aliases[alias]) && back == Aliased(alias, rest)
    requires !IsAbsolute(back) && MatchesAlias(alias, back)
    ensures ResolveIn(m, back, onDisk, order) == Some(Rejoined(m, alias, rest))
  {
    SortedFirstIsLongest(m, back, order);
    var first := FirstMatching(SortDescending(order, Length), back).value;
    SubstituteReversed(m, path, alias, rest, first);
  }

  /** What `resolve` makes of the reversed text of a path with a remainder. */
  lemma ResolveOfReversed(m: Mapper, path: string, onDisk: string -> bool,
                          reverseOrder: seq<string>, order: seq<string>, alias: string, rest: string)
    requires CleanDirs(m) && Unambiguous(m) && AliasesNestLikeDirs(m)
    requires Visits(m.aliases, reverseOrder) && Visits(m.aliases, order)
    requires IsAbsolute(path) && Best(m, path, reverseOrder) == Some(alias)
    requires rest == StripPrefix(path, m.aliases[alias]) && Tidy(rest) && NoBackslash(rest)
    ensures ResolveIn(m, Aliased(alias, rest), onDisk, order) == Some(Rejoined(m, alias, rest))
  {
    var n, back := ToSlashes(alias), Aliased(alias, rest);
    AliasedText(alias, rest);
    if Relative(n) {
      ChosenHasNoDeeper(m, path, reverseOrder, alias);
      StrippedParts(path, m.aliases[alias]);
      AliasedMatches(alias, rest);
      ResolveOfRelative(m, path, onDisk, order, alias, rest, back);
    } else {
      assert IsAbsolute(back);
    }
  }

  lemma RejoinedAtRoot(path: string, dir: string, rest: string)
    requires IsAbsolute(path) && CleanDir(dir) && StartsWithPath(path, dir)
    requires rest == StripPrefix(path, dir) && Tidy(rest) && path == "/" + rest
    ensures dir == "/"
  {
    StrippedParts(path, dir);
    TidyIsRelative(rest);
    ComponentsBelow("/", rest);
    var tail := Parts(Segments(rest));
    assert Components(dir) + tail == Components("/") + tail;
    SameHead(Components(dir), Components("/"), tail);
    SameComponents(dir, "/");
  }

  lemma SameHead<T>(a: seq<T>, b: seq<T>, tail: seq<T>)
    requires a + tail == b + tail
    ensures a == b
  {
    assert |a| == |b|;
    assert a == (a + tail)[..|a|];
  }

  /** A path with a remainder is its directory and the remainder joined again exactly in the cases listed. */
  lemma RejoinedIffComesBack(m: Mapper, path: string, alias: string, rest: string)
    requires alias in m.aliases && CleanDir(m.aliases[alias]) && IsAbsolute(path) && NoBackslash(path)
    requires StartsWithPath(path, m.aliases[alias]) && rest == StripPrefix(path, m.aliases[alias]) && Tidy(rest)
    ensures Rejoined(m, alias, rest) == path <==> ComesBack(m, path, alias)
  {
    TidyIsRelative(rest);
    WrittenBelowIffRejoined(path, m.aliases[alias]);
    if path == "/" + rest {
      RejoinedAtRoot(path, m.aliases[alias], rest);
    }
  }

  lemma ResolveAfterReverseBelow(m: Mapper, path: string, onDisk: string -> bool,
                                 reverseOrder: seq<string>, resolveOrder: seq<string>, alias: string, rest: string)
    requires CleanDirs(m) && Unambiguous(m) && AliasesNestLikeDirs(m)
    requires Visits(m.aliases, reverseOrder) && Visits(m.aliases, resolveOrder)
    requires IsAbsolute(path) && NoBackslash(path) && Best(m, path, reverseOrder) == Some(alias)
    requires rest == StripPrefix(path, m.aliases[alias]) && rest != ""
    ensures ResolveIn(m, Aliased(alias, rest), onDisk, resolveOrder) == Some(path) <==> ComesBack(m, path, alias)
  {
    StrippedLacksBackslash(path, m.aliases[alias]);
    RemainderIsTidy(path, m.aliases[alias]);
    ResolveOfReversed(m, path, onDisk, reverseOrder, resolveOrder, alias, rest);
    ChosenHasNoDeeper(m, path, reverseOrder, alias);
    RejoinedIffComesBack(m, path, alias, rest);
  }

  /**
   Resolving a reversed path gives the path back exactly in the cases `ComesBack` lists, for
   every absolute path, every text of the chosen alias and whatever the orders.
   */
  lemma ResolveAfterReverse(m: Mapper, path: string, onDisk: string -> bool,
                            reverseOrder: seq<string>, resolveOrder: seq<string>, alias: string)
    requires CleanDirs(m) && Unambiguous(m) && AliasesNestLikeDirs(m)
    requires Visits(m.aliases, reverseOrder) && Visits(m.aliases, resolveOrder)
    requires IsAbsolute(path) && Best(m, path, reverseOrder) == Some(alias)
    ensures ReverseIn(m, path, reverseOrder).Some?
    ensures ResolveIn(m, ReverseIn(m, path, reverseOrder).value, onDisk, resolveOrder) == Some(path) <==>
            ComesBack(m, path, alias)
  {
    var rest := StripPrefix(path, m.aliases[alias]);
    var back := Aliased(alias, rest);
    if !NoBackslash(path) {
      if ResolveIn(m, back, onDisk, resolveOrder).Some? {
        ResolvedIsSlashed(m, back, onDisk, resolveOrder);
      }
    } else if rest == "" {
      ResolveOfAlias(m, alias, onDisk, resolveOrder);
    } else {
      ResolveAfterReverseBelow(m, path, onDisk, reverseOrder, resolveOrder, alias, rest);
    }
  }

  lemma WrittenBelowIffRejoined(path: string, dir: string)
    requires IsAbsolute(path) && CleanDir(dir)
    ensures var rest := StripPrefix(path, dir);
            WrittenBelow(path, dir) <==> path == (if rest == "" then dir else PathJoin(dir, rest))
  {
    var rest := StripPrefix(path, dir);
    StripOfItself(dir);
    if r :| Tidy(r) && path == PathJoin(dir, r) {
      StripOfJoin(dir, r);
      TidyIsRelative(r);
    }
    RemainderIsTidy(path, dir);
  }

  lemma JoinBelow(d: seq<string>, r: seq<string>)
    requires r != []
    ensures "/" + Join(d + r) == if d == [] then "/" + Join(r) else "/" + Join(d) + "/" + Join(r)
  {
    if d == [] {
      AppendNothing(r);
    } else {
      JoinOfConcat(d, r);
      AppendAssoc("/", Join(d) + "/", Join(r));
      AppendAssoc("/", Join(d), "/");
    }
  }

  lemma PlainJoinIsTidy(r: seq<string>)
    requires r != [] && Lacks('/', r) && Plain(r)
    ensures Tidy(Join(r))
  {
    SegmentsOfJoin(r);
  }

  /** A clean path below a clean directory is written below it. */
  lemma CleanIsWrittenBelow(path: string, dir: string)
    requires CleanDir(path) && CleanDir(dir) && StartsWithPath(path, dir)
    ensures WrittenBelow(path, dir)
  {
    CleanDirComponents(path);
    CleanDirComponents(dir);
    CleanDirText(path);
    CleanDirText(dir);
    ConsPrefix("/", DirParts(dir), DirParts(path));
    TailOfPlain(DirParts(dir), DirParts(path));
    CleanPartsBelow(path, dir, DirParts(path)[|DirParts(dir)|..]);
  }

  lemma TailOfPlain(d: seq<string>, p: seq<string>)
    requires d <= p && Plain(p) && Lacks('/', p)
    ensures d + p[|d|..] == p && Plain(p[|d|..]) && Lacks('/', p[|d|..])
  {
  }

  lemma CleanPartsBelow(path: string, dir: string, r: seq<string>)
    requires IsAbsolute(path) && CleanDir(dir) && Plain(r) && Lacks('/', r)
    requires path == "/" + Join(DirParts(dir) + r)
    ensures WrittenBelow(path, dir)
  {
    CleanDirText(dir);
    if r == [] {
      AppendNothing(DirParts(dir));
    } else {
      JoinBelow(DirParts(dir), r);
      PlainJoinIsTidy(r);
      TidyIsRelative(Join(r));
      assert path == PathJoin(dir, Join(r));
    }
  }

  /**
   A clean absolute path under an alias directory survives reversing and resolving exactly if
   it is the directory of a chosen relative alias, or the chosen alias carries remainders.
   */
  lemma CleanPathsRoundTrip(m: Mapper, path: string, onDisk: string -> bool,
                            reverseOrder: seq<string>, resolveOrder: seq<string>, under: string)
    requires CleanDirs(m) && Unambiguous(m) && AliasesNestLikeDirs(m)
    requires Visits(m.aliases, reverseOrder) && Visits(m.aliases, resolveOrder)
    requires CleanDir(path) && under in m.aliases && StartsWithPath(path, m.aliases[under])
    ensures Best(m, path, reverseOrder).Some? && ReverseIn(m, path, reverseOrder).Some?
    ensures var alias := Best(m, path, reverseOrder).value;
            Relative(ToSlashes(alias)) ==>
              (ResolveIn(m, ReverseIn(m, path, reverseOrder).value, onDisk, resolveOrder) == Some(path) <==>
               path == m.aliases[alias] || Carries(m, alias))
  {
    BestIsLongest(m, path, reverseOrder);
    assert Above(m, path, under);
    var alias := Best(m, path, reverseOrder).value;
    CleanIsWrittenBelow(path, m.aliases[alias]);
    WrittenBelowIffRejoined(path, m.aliases[alias]);
    StripOfItself(m.aliases[alias]);
    ResolveAfterReverse(m, path, onDisk, reverseOrder, resolveOrder, alias);
  }

  // ----- aliases that end in a slash

  ghost predicate OneAlias(m: Mapper, alias: string, dir: string) {
    m.aliases == map[alias := dir] && Relative(ToSlashes(alias)) && EndsInSlash(ToSlashes(alias)) && CleanDir(dir)
  }

  lemma OneAliasIsCoherent(m: Mapper, alias: string, dir: string)
    requires OneAlias(m, alias, dir)
    ensures CleanDirs(m) && Unambiguous(m) && DistinctDirs(m) && AliasesNestLikeDirs(m)
    ensures !HasAliasText(m, ToSlashes(alias) + "/")
  {
  }

  /**
   With one alias that ends in '/', a path below its directory reverses to a text with two
   slashes, which resolves to the bare remainder, while the text with one slash resolves to the
   path: neither round trip holds, unless the directory is the root.
   */
  lemma TrailingSlashLosesTheDirectory(m: Mapper, alias: string, dir: string, rest: string,
                                       onDisk: string -> bool, order: seq<string>)
    requires OneAlias(m, alias, dir) && Visits(m.aliases, order) && Tidy(rest) && NoBackslash(rest)
    ensures var n := ToSlashes(alias);
            && ReverseIn(m, PathJoin(dir, rest), order) == Some(n + "/" + rest)
            && ResolveIn(m, n + "/" + rest, onDisk, order) == Some("/" + rest)
            && ResolveIn(m, n + rest, onDisk, order) == Some(PathJoin(dir, rest))
  {
    OneAliasIsCoherent(m, alias, dir);
    OneAliasReverses(m, alias, dir, rest, order);
    AliasedText(alias, rest);
    StripOfJoin(dir, rest);
    ResolveOfReversed(m, PathJoin(dir, rest), onDisk, order, order, alias, rest);
    OneAliasResolves(m, alias, dir, rest, onDisk, order);
  }

  lemma OneAliasReverses(m: Mapper, alias: string, dir: string, rest: string, order: seq<string>)
    requires OneAlias(m, alias, dir) && Visits(m.aliases, order) && Tidy(rest)
    ensures IsAbsolute(PathJoin(dir, rest)) && Best(m, PathJoin(dir, rest), order) == Some(alias)
  {
    TidyIsRelative(rest);
    ComponentsBelow(dir, rest);
    BestIsLongest(m, PathJoin(dir, rest), order);
    assert alias in order && Above(m, PathJoin(dir, rest), alias);
  }

  lemma OneAliasResolves(m: Mapper, alias: string, dir: string, rest: string,
                         onDisk: string -> bool, order: seq<string>)
    requires OneAlias(m, alias, dir) && Visits(m.aliases, order) && Tidy(rest) && NoBackslash(rest)
    ensures ResolveIn(m, ToSlashes(alias) + rest, onDisk, order) == Some(PathJoin(dir, rest))
  {
    OneAliasIsCoherent(m, alias, dir);
    TidyIsRelative(rest);
    var path := ToSlashes(alias) + rest;
    SubstituteBelow(alias, dir, path, rest);
    ResolveUsesLongestMatch(m, path, onDisk, order, alias);
  }

  lemma ExampleDir(dir: string)
    requires dir == "/p/src"
    ensures CleanDir(dir) && PathJoin(dir, "a") == "/p/src/a"
  {
    var p, src := "p", "src";
    SegmentOfPlain(p);
    SegmentOfPlain(src);
    SegmentsOfConcat(p, src);
    assert dir[1..] == p + "/" + src;
  }

  lemma ExampleTexts(alias: string, rest: string)
    requires alias == "src/" && rest == "a"
    ensures Tidy(rest) && NoBackslash(rest)
    ensures ToSlashes(alias) == alias && Relative(alias) && EndsInSlash(alias)
    ensures alias + "/" + rest == "src//a" && "/" + rest == "/a"
  {
    SegmentOfPlain(rest);
    ToSlashesKeeps(alias);
  }

  /** For example "src/" for "/p/src" and the path "/p/src/a". */
  lemma TrailingSlashExample(m: Mapper, onDisk: string -> bool, order: seq<string>,
                             alias: string, dir: string, rest: string)
    requires alias == "src/" && dir == "/p/src" && rest == "a"
    requires m.aliases == map[alias := dir] && Visits(m.aliases, order)
    ensures ReverseIn(m, PathJoin(dir, rest), order) == Some("src//a")
    ensures ResolveIn(m, alias + "/" + rest, onDisk, order) == Some("/a")
    ensures ResolveIn(m, alias + rest, onDisk, order) == Some("/p/src/a")
  {
    ExampleTexts(alias, rest);
    ExampleDir(dir);
    TrailingSlashLosesTheDirectory(m, alias, dir, rest, onDisk, order);
  }

  // ----- reverse after resolve

  /** If the alias's own directory is a longest one above the path, reversing chooses the alias. */
  lemma ReverseChooses(m: Mapper, path: string, order: seq<string>, alias: string)
    requires CleanDirs(m) && DistinctDirs(m) && Visits(m.aliases, order)
    requires alias in m.aliases && IsAbsolute(path) && StartsWithPath(path, m.aliases[alias])
    requires NoDeeperDir(m, path, m.aliases[alias])
    ensures Best(m, path, order) == Some(alias)
  {
    BestIsLongest(m, path, order);
    assert Above(m, path, alias);
    var best := Best(m, path, order).value;
    CleanDirsAbove(path, m.aliases[best], m.aliases[alias]);
  }

  lemma DirIsItsOwnBest(m: Mapper, alias: string)
    requires CleanDirs(m) && alias in m.aliases
    ensures NoDeeperDir(m, m.aliases[alias], m.aliases[alias])
  {
    var dir := m.aliases[alias];
    StripOfItself(dir);
    forall b | b in m.aliases && StartsWithPath(dir, m.aliases[b])
      ensures |m.aliases[b]| <= |dir|
    {
      CleanDirComponents(dir);
      CleanDirComponents(m.aliases[b]);
      ConsPrefix("/", DirParts(m.aliases[b]), DirParts(dir));
      MorePartsLonger(m.aliases[b], dir);
    }
  }

  /** A path as an alias, a single '/' and a tidy remainder. */
  predicate AliasAndRest(n: string, path: string) {
    |n| < |path| && path == n + "/" + path[|n| + 1..] && Tidy(path[|n| + 1..])
  }

  /** When a relative path with the longest match `alias` comes back from `reverse`. */
  ghost predicate ReturnsAs(m: Mapper, path: string, alias: string)
    requires alias in m.aliases
  {
    var n, dir := ToSlashes(alias), m.aliases[alias];
    || path == alias
    || (&& NoBackslash(path) && AliasAndRest(n, path) && (EndsInSlash(n) ==> dir == "/")
        && NoDeeperDir(m, PathJoin(dir, path[|n| + 1..]), dir))
  }

  /**
   Reversing a resolved path gives the path back exactly if it is the longest matching alias
   itself, or that alias, a single '/' and a tidy remainder below whose place no deeper alias
   directory lies, where an alias that ends in '/' must stand for the root.
   */
  lemma ReverseAfterResolve(m: Mapper, path: string, onDisk: string -> bool,
                            resolveOrder: seq<string>, reverseOrder: seq<string>, alias: string)
    requires CleanDirs(m) && DistinctDirs(m) && Unambiguous(m)
    requires Visits(m.aliases, resolveOrder) && Visits(m.aliases, reverseOrder)
    requires !IsAbsolute(path) && IsLongestMatch(m, path, alias)
    ensures ResolveIn(m, path, onDisk, resolveOrder).Some?
    ensures ReverseIn(m, ResolveIn(m, path, onDisk, resolveOrder).value, reverseOrder) == Some(path) <==>
            ReturnsAs(m, path, alias)
  {
    ResolveUsesLongestMatch(m, path, onDisk, resolveOrder, alias);
    var dir := m.aliases[alias];
    if ToSlashes(path) == ToSlashes(alias) {
      StripOfItself(dir);
      DirIsItsOwnBest(m, alias);
      ReverseChooses(m, dir, reverseOrder, alias);
      if NoBackslash(path) {
        ToSlashesKeeps(path);
      }
    } else {
      var abs := Substitute(alias, dir, path);
      if ReturnsAs(m, path, alias) {
        ReturnsIfRest(m, path, reverseOrder, alias);
      } else if ReverseIn(m, abs, reverseOrder) == Some(path) {
        ReturnedImplies(m, path, reverseOrder, alias);
      }
    }
  }

  lemma ReturnsIfRest(m: Mapper, path: string, order: seq<string>, alias: string)
    requires CleanDirs(m) && DistinctDirs(m) && Visits(m.aliases, order)
    requires IsLongestMatch(m, path, alias) && ReturnsAs(m, path, alias) && path != alias
    ensures ReverseIn(m, Substitute(alias, m.aliases[alias], path), order) == Some(path)
  {
    var n, dir := ToSlashes(alias), m.aliases[alias];
    var rest := path[|n| + 1..];
    TidyIsRelative(rest);
    ToSlashesKeeps(path);
    if EndsInSlash(n) {
      AppendAssoc(n, "/", rest);
      SubstituteBelow(alias, dir, path, "/" + rest);
    } else {
      SubstituteBelow(alias, dir, path, rest);
    }
    ComponentsBelow(dir, rest);
    StripOfJoin(dir, rest);
    ReverseChooses(m, PathJoin(dir, rest), order, alias);
    AliasedText(alias, rest);
  }

  /** A longest match that is not the whole path splits it into the slash-ended alias and a remainder. */
  lemma SplitAtMatch(alias: string, dir: string, path: string) returns (rest: string)
    requires MatchesAlias(alias, path) && ToSlashes(path) != ToSlashes(alias) && CleanDir(dir)
    ensures ToSlashes(path) == AliasPrefix(alias) + rest && NoBackslash(rest)
    ensures Substitute(alias, dir, path) == PathJoin(dir, rest)
    ensures IsAbsolute(PathJoin(dir, rest)) && NoBackslash(PathJoin(dir, rest))
  {
    rest := ToSlashes(path)[|AliasPrefix(alias)|..];
    PrefixAndRest(AliasPrefix(alias), ToSlashes(path));
    ToSlashesKeeps(PathJoin(dir, rest));
  }

  /** If the round trip succeeds, reversing found an alias and left a remainder. */
  lemma ReverseFoundAlias(m: Mapper, path: string, order: seq<string>, alias: string, rest: string)
    requires CleanDirs(m) && Visits(m.aliases, order) && alias in m.aliases && |rest| < |path|
    requires IsAbsolute(PathJoin(m.aliases[alias], rest))
    requires ReverseIn(m, PathJoin(m.aliases[alias], rest), order) == Some(path)
    ensures Best(m, PathJoin(m.aliases[alias], rest), order).Some?
  {
    var abs := PathJoin(m.aliases[alias], rest);
    BestIsLongest(m, abs, order);
    if IsAbsolute(rest) {
      ReverseBaseIsShort(m.baseDirs, abs);
    } else {
      ComponentsBelow(m.aliases[alias], rest);
      assert Above(m, abs, alias);
    }
  }

  /** The alias reversing chose is the longest match, followed by a tidy remainder. */
  lemma ReturnedImplies(m: Mapper, path: string, order: seq<string>, alias: string)
    requires CleanDirs(m) && DistinctDirs(m) && Unambiguous(m) && Visits(m.aliases, order)
    requires IsLongestMatch(m, path, alias) && ToSlashes(path) != ToSlashes(alias) && !IsAbsolute(path)
    requires ReverseIn(m, Substitute(alias, m.aliases[alias], path), order) == Some(path)
    ensures ReturnsAs(m, path, alias)
  {
    var dir := m.aliases[alias];
    var rest := SplitAtMatch(alias, dir, path);
    var abs := PathJoin(dir, rest);
    ReverseFoundAlias(m, path, order, alias, rest);
    var b := Best(m, abs, order).value;
    var left := StripPrefix(abs, m.aliases[b]);
    StrippedLacksBackslash(abs, m.aliases[b]);
    RemainderIsTidy(abs, m.aliases[b]);
    if left == "" {
      NotItsOwnMatch(m, path, alias);
    } else {
      ReturnedWithRest(m, path, order, alias, rest, abs, b, left);
    }
  }

  lemma ReturnedWithRest(m: Mapper, path: string, order: seq<string>, alias: string, rest: string, abs: string,
                         b: string, left: string)
    requires CleanDirs(m) && DistinctDirs(m) && Unambiguous(m) && Visits(m.aliases, order)
    requires IsLongestMatch(m, path, alias) && ToSlashes(path) == AliasPrefix(alias) + rest
    requires abs == PathJoin(m.aliases[alias], rest) && IsAbsolute(abs) && Best(m, abs, order) == Some(b)
    requires left == StripPrefix(abs, m.aliases[b]) && Tidy(left) && NoBackslash(left) && path == Aliased(b, left)
    ensures ReturnsAs(m, path, alias)
  {
    ReturnedText(m, path, alias, b, left);
    RemainderNotLonger(m, abs, order, alias, rest);
    ChosenHasNoDeeper(m, abs, order, b);
    ChosenIsLongestMatch(m, abs, alias, rest, b, left);
    assert path[|alias| + 1..] == left;
  }

  /** A path that is an alias is its own longest match. */
  lemma NotItsOwnMatch(m: Mapper, path: string, alias: string)
    requires IsLongestMatch(m, path, alias) && ToSlashes(path) != ToSlashes(alias)
    ensures path !in m.aliases
  {
    MatchIsPrefix(alias, path);
    if path in m.aliases {
      assert MatchesAlias(path, path);
    }
  }

  lemma ReturnedText(m: Mapper, path: string, alias: string, b: string, left: string)
    requires IsLongestMatch(m, path, alias) && b in m.aliases && Tidy(left) && NoBackslash(left)
    requires path == Aliased(b, left)
    ensures path == ToSlashes(b) + "/" + left && NoBackslash(path) && ToSlashes(path) == path && |b| <= |alias|
  {
    AliasedText(b, left);
    assert NoBackslash(path) by {
      assert forall i :: 0 <= i < |path| ==> path[i] == ToSlashes(path)[i];
    }
    assert MatchesAlias(b, path);
  }

  lemma SameSplit(n: string, rest: string, b: string, left: string)
    requires SlashEnded(n) + rest == b + "/" + left && |b| <= |n| && |left| <= |rest|
    ensures (b == n && rest == (if EndsInSlash(n) then "/" + left else left)) || (n == b + "/" && rest == left)
  {
    var path := SlashEnded(n) + rest;
    assert |path| == |b| + 1 + |left|;
    assert b == path[..|b|] && left == path[|b| + 1..];
    assert n == path[..|n|] && rest == path[|SlashEnded(n)|..];
    if |b| == |n| && EndsInSlash(n) {
      assert rest[0] == path[|b|] == '/';
      assert rest[1..] == left;
    } else if |b| < |n| {
      assert n[|b|] == path[|b|] == '/';
    }
  }

  lemma ChosenIsLongestMatch(m: Mapper, abs: string, alias: string, rest: string, b: string, left: string)
    requires CleanDirs(m) && DistinctDirs(m) && Unambiguous(m) && alias in m.aliases && b in m.aliases
    requires AliasPrefix(alias) + rest == ToSlashes(b) + "/" + left && |b| <= |alias| && |left| <= |rest|
    requires abs == PathJoin(m.aliases[alias], rest) && IsAbsolute(abs) && StartsWithPath(abs, m.aliases[b])
    requires left == StripPrefix(abs, m.aliases[b]) && Tidy(left)
    ensures b == alias && abs == PathJoin(m.aliases[alias], left)
    ensures EndsInSlash(ToSlashes(alias)) ==> m.aliases[alias] == "/"
  {
    var dir := m.aliases[alias];
    SameSplit(ToSlashes(alias), rest, ToSlashes(b), left);
    TidyIsRelative(left);
    if rest == left {
      SameDirSameRest(abs, dir, m.aliases[b], rest);
    } else {
      RejoinedAtRoot(abs, dir, left);
    }
  }

  lemma SameDirSameRest(abs: string, dir: string, chosen: string, rest: string)
    requires CleanDir(dir) && CleanDir(chosen) && Tidy(rest) && abs == PathJoin(dir, rest)
    requires IsAbsolute(abs) && StartsWithPath(abs, chosen) && StripPrefix(abs, chosen) == rest
    ensures chosen == dir
  {
    StrippedParts(abs, chosen);
    StripOfJoin(dir, rest);
    SameHead(Components(dir), Components(chosen), Parts(Segments(rest)));
    SameComponents(dir, chosen);
  }

  lemma {:induction false} ReverseBaseIsShort(baseDirs: seq<string>, path: string)
    requires IsAbsolute(path)
    ensures ReverseBase(baseDirs, path).Some? ==> |ReverseBase(baseDirs, path).value| <= |path|
  {
    if baseDirs != [] {
      if StartsWithPath(path, baseDirs[0]) {
        StripNeverLengthens(path, baseDirs[0]);
      } else {
        ReverseBaseIsShort(baseDirs[1..], path);
      }
    }
  }

  /** The stripped remainder is not longer than the remainder that was joined. */
  lemma RemainderNotLonger(m: Mapper, abs: string, order: seq<string>, alias: string, rest: string)
    requires CleanDirs(m) && Visits(m.aliases, order) && alias in m.aliases
    requires abs == PathJoin(m.aliases[alias], rest) && IsAbsolute(abs)
    requires Best(m, abs, order).Some?
    ensures |StripPrefix(abs, m.aliases[Best(m, abs, order).value])| <= |rest|
  {
    BestIsLongest(m, abs, order);
    var dir, best := m.aliases[alias], m.aliases[Best(m, abs, order).value];
    if StripPrefix(abs, best) != "" {
      StrippedIsShorter(abs, best);
      if !IsAbsolute(rest) {
        ComponentsBelow(dir, rest);
        CleanDirText(dir);
        assert Above(m, abs, alias);
      }
    }
  }

  lemma JoinOfPrefix(r: seq<string>, t: seq<string>)
    requires r != []
    ensures Join(r + t) == Join(r) || Join(r) + "/" <= Join(r + t)
  {
    if t == [] {
      AppendNothing(r);
    } else {
      JoinOfConcat(r, t);
      assert Join(r + t)[..|Join(r)| + 1] == Join(r) + "/";
    }
  }

  lemma PrefixOfSegments(r: seq<string>, rest: string)
    requires r != [] && r <= Segments(rest)
    ensures Join(r) == rest || Join(r) + "/" <= rest
  {
    JoinOfSegments(rest);
    PrefixAndRest(r, Segments(rest));
    JoinOfPrefix(r, Segments(rest)[|r|..]);
  }

  /** A clean directory below another is the other with the remaining segments. */
  lemma CleanDirBelow(p: string, d: string) returns (s: string)
    requires CleanDir(p) && CleanDir(d) && DirParts(d) < DirParts(p)
    ensures Tidy(s) && Segments(s) == DirParts(p)[|DirParts(d)|..] && p == PathJoin(d, s)
  {
    CleanDirText(p);
    CleanDirText(d);
    TailOfPlain(DirParts(d), DirParts(p));
    var r := DirParts(p)[|DirParts(d)|..];
    s := Join(r);
    JoinBelow(DirParts(d), r);
    PlainJoinIsTidy(r);
    SegmentsOfJoin(r);
    TidyIsRelative(s);
  }

  /** A longer directory above a plain path: the parts it adds begin the path's remainder. */
  lemma DeeperParts(dir: string, deeper: string, rest: string)
    requires CleanDir(dir) && CleanDir(deeper) && !IsAbsolute(rest) && Plain(Segments(rest))
    requires StartsWithPath(PathJoin(dir, rest), deeper) && |deeper| > |dir|
    ensures DirParts(dir) < DirParts(deeper) && DirParts(deeper)[|DirParts(dir)|..] <= Segments(rest)
  {
    ComponentsBelow(dir, rest);
    CleanDirsAbove(PathJoin(dir, rest), dir, deeper);
    CleanDirsAbove(PathJoin(dir, rest), deeper, dir);
    PartsOfPlain(Segments(rest));
    CleanDirComponents(dir);
    CleanDirComponents(deeper);
    AppendAssoc(["/"], DirParts(dir), Segments(rest));
    ConsPrefix("/", DirParts(deeper), DirParts(dir) + Segments(rest));
    TailOfPrefix(DirParts(dir), DirParts(deeper), Segments(rest));
  }

  lemma TailOfPrefix<T>(x: seq<T>, y: seq<T>, t: seq<T>)
    requires x <= y && y <= x + t
    ensures y[|x|..] <= t
  {
  }

  lemma NotDeeper(m: Mapper, path: string, alias: string, rest: string, b: string)
    requires CleanDirs(m) && DirsNestLikeAliases(m) && NoBackslash(path) && b in m.aliases
    requires IsLongestMatch(m, path, alias) && !EndsInSlash(ToSlashes(alias))
    requires path == ToSlashes(alias) + "/" + rest && !IsAbsolute(rest) && Plain(Segments(rest))
    requires StartsWithPath(PathJoin(m.aliases[alias], rest), m.aliases[b])
    ensures |m.aliases[b]| <= |m.aliases[alias]|
  {
    var dir, deeper := m.aliases[alias], m.aliases[b];
    if |deeper| > |dir| {
      DeeperParts(dir, deeper, rest);
      var s := CleanDirBelow(deeper, dir);
      assert Inside(alias, b, s);
      PrefixOfSegments(Segments(s), rest);
      JoinOfSegments(s);
      LongerMatches(path, alias, rest, b, s);
    }
  }

  lemma LongerMatches(path: string, alias: string, rest: string, b: string, s: string)
    requires NoBackslash(path) && path == ToSlashes(alias) + "/" + rest && Inside(alias, b, s) && Tidy(s)
    requires s == rest || s + "/" <= rest
    ensures MatchesAlias(b, path)
  {
    TidyIsRelative(s);
    ToSlashesKeeps(path);
  }

  /**
   An aliased path of plain segments survives resolving and reversing exactly if it is its
   longest match itself, or that match does not end in '/' and is not the path in other slashes.
   */
  lemma PlainPathsRoundTrip(m: Mapper, path: string, onDisk: string -> bool,
                            resolveOrder: seq<string>, reverseOrder: seq<string>, alias: string)
    requires CleanDirs(m) && DistinctDirs(m) && Unambiguous(m) && DirsNestLikeAliases(m)
    requires Visits(m.aliases, resolveOrder) && Visits(m.aliases, reverseOrder)
    requires NoBackslash(path) && Plain(Segments(path)) && IsLongestMatch(m, path, alias)
    ensures ResolveIn(m, path, onDisk, resolveOrder).Some?
    ensures ReverseIn(m, ResolveIn(m, path, onDisk, resolveOrder).value, reverseOrder) == Some(path) <==>
            path == alias || (ToSlashes(alias) != path && !EndsInSlash(ToSlashes(alias)))
  {
    FirstSegmentEmpty(path);
    ToSlashesKeeps(path);
    ReverseAfterResolve(m, path, onDisk, resolveOrder, reverseOrder, alias);
    var n := ToSlashes(alias);
    if path != alias && n != path {
      if EndsInSlash(n) {
        if AliasAndRest(n, path) {
          DoubleSlashIsNotPlain(n, path[|n| + 1..]);
        }
      } else {
        PrefixAndRest(n + "/", path);
        PlainRestReturns(m, path, alias, path[|n| + 1..]);
      }
    }
  }

  lemma PlainRestReturns(m: Mapper, path: string, alias: string, rest: string)
    requires CleanDirs(m) && DirsNestLikeAliases(m) && NoBackslash(path) && Plain(Segments(path))
    requires IsLongestMatch(m, path, alias) && !EndsInSlash(ToSlashes(alias))
    requires path == ToSlashes(alias) + "/" + rest
    ensures ReturnsAs(m, path, alias)
  {
    PlainTail(ToSlashes(alias), rest);
    assert path[|alias| + 1..] == rest;
    forall b | b in m.aliases && StartsWithPath(PathJoin(m.aliases[alias], rest), m.aliases[b])
      ensures |m.aliases[b]| <= |m.aliases[alias]|
    {
      NotDeeper(m, path, alias, rest, b);
    }
  }

  lemma DoubleSlashIsNotPlain(n: string, rest: string)
    requires EndsInSlash(n)
    ensures !Plain(Segments(n + "/" + rest))
  {
    SegmentsOfConcat(n, rest);
    LastSegmentEmpty(n);
    var segments := Segments(n);
    assert (segments + Segments(rest))[|segments| - 1] == segments[|segments| - 1];
  }

  lemma PlainTail(alias: string, rest: string)
    requires Plain(Segments(alias + "/" + rest))
    ensures Plain(Segments(rest)) && Tidy(rest) && !IsAbsolute(rest)
  {
    SegmentsOfConcat(alias, rest);
    forall i | 0 <= i < |Segments(rest)|
      ensures !Trivial(Segments(rest)[i])
    {
      assert (Segments(alias) + Segments(rest))[|Segments(alias)| + i] == Segments(rest)[i];
    }
    FirstSegmentEmpty(rest);
  }

  // ----- aliases below one root

  /** Aliases of plain segments that all stand for their own place below one root directory. */
  ghost predicate Rooted(m: Mapper, root: string) {
    forall alias :: alias in m.aliases ==>
      NoBackslash(alias) && Plain(Segments(alias)) && m.aliases[alias] == PathJoin(root, alias)
  }

  lemma PlainBelowIsClean(root: string, alias: string)
    requires CleanDir(root) && NoBackslash(alias) && Plain(Segments(alias))
    ensures ToSlashes(alias) == alias && Relative(alias) && !EndsInSlash(alias)
    ensures Tidy(alias) && CleanDir(PathJoin(root, alias))
  {
    FirstSegmentEmpty(alias);
    TidyIsRelative(alias);
    ToSlashesKeeps(alias);
    SegmentsBelow(root, alias);
    var d, parts := PathJoin(root, alias), DirParts(root) + Segments(alias);
    AppendAssoc([""], DirParts(root), Segments(alias));
    assert Segments(d) == [""] + Segments(d[1..]);
    ConsInjective("", Segments(d[1..]), parts);
  }

  /** Below one root, different relative texts are different places. */
  lemma JoinIsInjective(root: string, a: string, b: string)
    requires root != "" && !IsAbsolute(a) && !IsAbsolute(b) && PathJoin(root, a) == PathJoin(root, b)
    ensures a == b
  {
    var base := if root[|root| - 1] == '/' then root else root + "/";
    assert a == PathJoin(root, a)[|base|..] && b == PathJoin(root, b)[|base|..];
  }

  lemma NestedPlace(root: string, alias: string, s: string)
    requires CleanDir(root) && NoBackslash(alias) && Plain(Segments(alias)) && !IsAbsolute(s)
    ensures PathJoin(PathJoin(root, alias), s) == PathJoin(root, alias + "/" + s)
    ensures !IsAbsolute(alias + "/" + s)
  {
    PlainBelowIsClean(root, alias);
    TidyIsRelative(alias);
    JoinTwice(root, alias, s);
  }

  lemma RootedIsClean(m: Mapper, root: string)
    requires CleanDir(root) && Rooted(m, root)
    ensures CleanDirs(m) && DistinctDirs(m) && Unambiguous(m)
    ensures forall alias :: alias in m.aliases ==>
              ToSlashes(alias) == alias && Relative(alias) && !EndsInSlash(alias) && Carries(m, alias)
  {
    forall alias | alias in m.aliases
      ensures ToSlashes(alias) == alias && Relative(alias) && !EndsInSlash(alias) && CleanDir(m.aliases[alias])
    {
      PlainBelowIsClean(root, alias);
    }
    forall a, b | a in m.aliases && b in m.aliases && m.aliases[a] == m.aliases[b]
      ensures a == b
    {
      JoinIsInjective(root, a, b);
    }
  }

  /** Such a mapper meets every condition of the round trips. */
  lemma RootedIsCoherent(m: Mapper, root: string)
    requires CleanDir(root) && Rooted(m, root)
    ensures CleanDirs(m) && DistinctDirs(m) && Unambiguous(m)
    ensures AliasesNestLikeDirs(m) && DirsNestLikeAliases(m)
  {
    RootedIsClean(m, root);
    forall a, b, s | a in m.aliases && b in m.aliases && Inside(a, b, s)
      ensures Components(m.aliases[b]) == Components(m.aliases[a]) + Parts(Segments(s))
    {
      NestedPlace(root, a, s);
      ComponentsBelow(m.aliases[a], s);
    }
    forall a, b, s | a in m.aliases && b in m.aliases && Tidy(s) && m.aliases[b] == PathJoin(m.aliases[a], s)
      ensures Inside(a, b, s)
    {
      TidyIsRelative(s);
      NestedPlace(root, a, s);
      JoinIsInjective(root, b, a + "/" + s);
    }
  }

  /**
   So with aliases below one root both round trips hold, for every clean absolute path under an
   alias directory and every aliased path of plain segments, whatever the map's orders.
   */
  lemma RootedRoundTrips(m: Mapper, root: string, onDisk: string -> bool,
                         resolveOrder: seq<string>, reverseOrder: seq<string>, alias: string, path: string)
    requires CleanDir(root) && Rooted(m, root) && alias in m.aliases
    requires Visits(m.aliases, resolveOrder) && Visits(m.aliases, reverseOrder)
    ensures CleanDir(path) && StartsWithPath(path, PathJoin(root, alias)) ==>
              var back := ReverseIn(m, path, reverseOrder);
              back.Some? && ResolveIn(m, back.value, onDisk, resolveOrder) == Some(path)
    ensures NoBackslash(path) && Plain(Segments(path)) && MatchesAlias(alias, path) ==>
              var abs := ResolveIn(m, path, onDisk, resolveOrder);
              abs.Some? && ReverseIn(m, abs.value, reverseOrder) == Some(path)
  {
    RootedIsCoherent(m, root);
    RootedIsClean(m, root);
    if CleanDir(path) && StartsWithPath(path, PathJoin(root, alias)) {
      CleanPathsRoundTrip(m, path, onDisk, reverseOrder, resolveOrder, alias);
    }
    if NoBackslash(path) && Plain(Segments(path)) && MatchesAlias(alias, path) {
      SortedFirstIsLongest(m, path, resolveOrder);
      var longest := FirstMatching(SortDescending(resolveOrder, Length), path).value;
      PlainPathsRoundTrip(m, path, onDisk, resolveOrder, reverseOrder, longest);
    }
  }

  /**
   With clean and distinct directories, `reverse` chooses an alias exactly if its directory is
   above the path and longer than every other directory above it, whatever the order.
   */
  lemma ReverseChoosesUniqueLongest(m: Mapper, path: string, order: seq<string>, alias: string)
    requires CleanDirs(m) && DistinctDirs(m) && Visits(m.aliases, order) && IsAbsolute(path)
    ensures Best(m, path, order) == Some(alias) <==>
            && Above(m, path, alias)
            && forall other :: Above(m, path, other) && other != alias ==> |m.aliases[other]| < |m.aliases[alias]|
  {
    BestIsLongest(m, path, order);
    forall other | Best(m, path, order) == Some(alias) && Above(m, path, other) && other != alias
      ensures |m.aliases[other]| < |m.aliases[alias]|
    {
      CleanDirsAbove(path, m.aliases[other], m.aliases[alias]);
    }
  }

  lemma ReverseIsDeterministic(m: Mapper, path: string, a: seq<string>, b: seq<string>)
    requires CleanDirs(m) && DistinctDirs(m) && IsAbsolute(path)
    requires Visits(m.aliases, a) && Visits(m.aliases, b)
    ensures ReverseIn(m, path, a) == ReverseIn(m, path, b)
  {
    BestIsLongest(m, path, a);
    BestIsLongest(m, path, b);
    var x := Best(m, path, a);
    if x.Some? {
      ReverseChoosesUniqueLongest(m, path, a, x.value);
      ReverseChoosesUniqueLongest(m, path, b, x.value);
    }
  }

  // ----- registration

  function WithAliases(m: Mapper, mappings: seq<(string, string)>): Mapper {
    if mappings == [] then m
    else
      var last := mappings[|mappings| - 1];
      WithAlias(WithAliases(m, mappings[..|mappings| - 1]), last.0, last.1)
  }

  /** The last directory given for an alias, if any. */
  function LastGiven(mappings: seq<(string, string)>, alias: string): Option<string> {
    if mappings == [] then None
    else if mappings[|mappings| - 1].0 == alias then Some(mappings[|mappings| - 1].1)
    else LastGiven(mappings[..|mappings| - 1], alias)
  }

  /** Registering a list leaves every alias at its last directory and the others as they were. */
  lemma {:induction false} LastRegistrationWins(m: Mapper, mappings: seq<(string, string)>, alias: string)
    ensures WithAliases(m, mappings).baseDirs == m.baseDirs
    ensures match LastGiven(mappings, alias)
      case Some(dir) => alias in WithAliases(m, mappings).aliases && WithAliases(m, mappings).aliases[alias] == dir
      case None =>
        && (alias in WithAliases(m, mappings).aliases <==> alias in m.aliases)
        && (alias in m.aliases ==> WithAliases(m, mappings).aliases[alias] == m.aliases[alias])
  {
    if mappings != [] {
      LastRegistrationWins(m, mappings[..|mappings| - 1], alias);
    }
  }

  /** The last alias given for a directory, if any. */
  function LastAliasFor(mappings: seq<(string, string)>, dir: string): Option<string> {
    if mappings == [] then None
    else if mappings[|mappings| - 1].1 == dir then Some(mappings[|mappings| - 1].0)
    else LastAliasFor(mappings[..|mappings| - 1], dir)
  }

  /** The reverse cache holds the last alias given for each directory. */
  lemma {:induction false} ReverseCacheHoldsLastAlias(m: Mapper, mappings: seq<(string, string)>, dir: string)
    ensures var cache := WithAliases(m, mappings).reverseCache;
            match LastAliasFor(mappings, dir)
            case Some(alias) => dir in cache && cache[dir] == alias
            case None =>
              && (dir in cache <==> dir in m.reverseCache)
              && (dir in cache ==> cache[dir] == m.reverseCache[dir])
  {
    if mappings != [] {
      ReverseCacheHoldsLastAlias(m, mappings[..|mappings| - 1], dir);
    }
  }

  class PathMapper {
    var aliases: map<string, string>
    var reverseCache: map<string, string>
    var baseDirs: seq<string>

    function View(): Mapper
      reads this
    {
      Mapper(aliases, reverseCache, baseDirs)
    }

    constructor ()
      ensures View() == EMPTY
    {
      aliases, reverseCache, baseDirs := map[], map[], [];
    }

    method RegisterBaseDir(dir: string)
      modifies this
      ensures View() == old(View()).(baseDirs := old(baseDirs) + [dir])
    {
      baseDirs := baseDirs + [dir];
    }

    method RegisterAlias(alias: string, dir: string)
      modifies this
      ensures View() == WithAlias(old(View()), alias, dir)
    {
      reverseCache := reverseCache[dir := alias];
      aliases := aliases[alias := dir];
    }

    method RegisterAliases(mappings: seq<(string, string)>)
      modifies this
      ensures View() == WithAliases(old(View()), mappings)
    {
      for i := 0 to |mappings|
        invariant View() == WithAliases(old(View()), mappings[..i])
      {
        assert mappings[..i + 1][..i] == mappings[..i];
        RegisterAlias(mappings[i].0, mappings[i].1);
      }
      assert mappings[..|mappings|] == mappings;
    }

    /** `order` is the order in which the hash map is iterated, `onDisk` the file system probe. */
    method Resolve(path: string, onDisk: string -> bool, order: seq<string>) returns (resolved: Option<string>)
      requires Visits(aliases, order)
      ensures resolved == ResolveIn(View(), path, onDisk, order)
    {
      if IsAbsolute(path) {
        return Some(ToSlashes(path));
      }
      var sorted := SortDescending(order, Length);
      for i := 0 to |sorted|
        invariant FirstMatching(sorted, path) == FirstMatching(sorted[i..], path)
      {
        var alias := sorted[i];
        SortKeepsMembers(order, alias);
        if ToSlashes(path) == ToSlashes(alias) {
          return Some(aliases[alias]);
        }
        if AliasPrefix(alias) <= ToSlashes(path) {
          var remainder := ToSlashes(path)[|AliasPrefix(alias)|..];
          return Some(ToSlashes(PathJoin(aliases[alias], remainder)));
        }
      }
      for i := 0 to |baseDirs|
        invariant FirstOnDisk(baseDirs, path, onDisk) == FirstOnDisk(baseDirs[i..], path, onDisk)
      {
        var candidate := PathJoin(baseDirs[i], path);
        if onDisk(candidate) {
          return Some(ToSlashes(candidate));
        }
      }
      if baseDirs != [] {
        return Some(ToSlashes(PathJoin(baseDirs[0], path)));
      }
      return None;
    }

    method Reverse(path: string, order: seq<string>) returns (reversed: Option<string>)
      requires Visits(aliases, order)
      ensures reversed == ReverseIn(View(), path, order)
    {
      var best: Option<string> := None;
      for i := 0 to |order|
        invariant best == Best(View(), path, order[..i])
      {
        assert order[..i + 1][..i] == order[..i];
        var dir := aliases[order[i]];
        if StartsWithPath(path, dir) {
          if best.None? || |dir| > |aliases[best.value]| {
            best := Some(order[i]);
          }
        }
      }
      assert order[..|order|] == order;
      if best.Some? {
        var remainder := StripPrefix(path, aliases[best.value]);
        if remainder == "" {
          return Some(best.value);
        }
        var head, tail := ToSlashes(best.value), ToSlashes(remainder);
        return Some(if tail[0] == '/' then head + tail else head + "/" + tail);
      }
      for i := 0 to |baseDirs|
        invariant ReverseBase(baseDirs, path) == ReverseBase(baseDirs[i..], path)
      {
        if StartsWithPath(path, baseDirs[i]) {
          return Some(StripPrefix(path, baseDirs[i]));
        }
      }
      return None;
    }

    method Clear()
      modifies this
      ensures View() == EMPTY
    {
      aliases, reverseCache, baseDirs := map[], map[], [];
    }
  }
}
