/**
 Path text as the mapper sees it: UTF-8 code units, '/' as the separator, and Unix rules for
 components (empty and "." segments do not count, except a leading "." of a relative path).
 */
module PathText {
  import opened Prelude

  /** Backslashes become slashes; the length stays. */
  function ToSlashes(s: string): (r: string)
    ensures |r| == |s|
    ensures forall i :: 0 <= i < |s| ==> r[i] == if s[i] == '\\' then '/' else s[i]
  {
    seq(|s|, i requires 0 <= i < |s| => if s[i] == '\\' then '/' else s[i])
  }

  predicate NoBackslash(s: string) { '\\' !in s }

  lemma ToSlashesKeeps(s: string)
    requires NoBackslash(s)
    ensures ToSlashes(s) == s
  {
  }

  predicate IsAbsolute(s: string) { s != [] && s[0] == '/' }

  // ----- segments

  function Segments(s: string): (r: seq<string>)
    ensures r != []
  {
    if s == [] then [""]
    else if s[0] == '/' then [""] + Segments(s[1..])
    else
      var rest := Segments(s[1..]);
      [[s[0]] + rest[0]] + rest[1..]
  }

  function Join(segments: seq<string>): string {
    if segments == [] then ""
    else if |segments| == 1 then segments[0]
    else segments[0] + "/" + Join(segments[1..])
  }

  predicate Lacks(c: char, segments: seq<string>) { forall i :: 0 <= i < |segments| ==> c !in segments[i] }

  lemma {:induction false} SegmentsHaveNoSlash(s: string)
    ensures Lacks('/', Segments(s))
  {
    if s != [] {
      SegmentsHaveNoSlash(s[1..]);
    }
  }

  /** Prepending a character to the first segment prepends it to the joined text. */
  lemma JoinWithFirstChar(c: char, segments: seq<string>)
    requires segments != []
    ensures Join([[c] + segments[0]] + segments[1..]) == [c] + Join(segments)
  {
    var longer := [[c] + segments[0]] + segments[1..];
    assert longer[1..] == segments[1..];
    if |segments| > 1 {
      AppendAssoc([c], segments[0] + "/", Join(segments[1..]));
      AppendAssoc([c], segments[0], "/");
    }
  }

  lemma {:induction false} JoinOfSegments(s: string)
    ensures Join(Segments(s)) == s
  {
    if s != [] {
      JoinOfSegments(s[1..]);
      HeadAndTail(s);
      if s[0] == '/' {
        assert Segments(s)[1..] == Segments(s[1..]);
      } else {
        JoinWithFirstChar(s[0], Segments(s[1..]));
      }
    }
  }

  /** Cutting at a separator cuts the list of segments. */
  lemma {:induction false} SegmentsOfConcat(a: string, b: string)
    ensures Segments(a + "/" + b) == Segments(a) + Segments(b)
  {
    var s := a + "/" + b;
    if a == [] {
      assert s == "/" + b && s[1..] == b;
    } else {
      assert s[1..] == a[1..] + "/" + b && s[0] == a[0];
      SegmentsOfConcat(a[1..], b);
      var rest := Segments(a[1..]);
      if a[0] == '/' {
        AppendAssoc([""], rest, Segments(b));
      } else {
        assert (rest + Segments(b))[1..] == rest[1..] + Segments(b);
        AppendAssoc([[a[0]] + rest[0]], rest[1..], Segments(b));
      }
    }
  }

  lemma {:induction false} SegmentOfPlain(s: string)
    requires '/' !in s
    ensures Segments(s) == [s]
  {
    if s != [] {
      SegmentOfPlain(s[1..]);
      assert s == [s[0]] + s[1..];
    }
  }

  lemma {:induction false} SegmentsOfJoin(segments: seq<string>)
    requires segments != [] && Lacks('/', segments)
    ensures Segments(Join(segments)) == segments
  {
    SegmentOfPlain(segments[0]);
    if |segments| == 1 {
      assert segments == [segments[0]];
    } else {
      SegmentsOfJoin(segments[1..]);
      SegmentsOfConcat(segments[0], Join(segments[1..]));
      HeadAndTail(segments);
    }
  }

  lemma {:induction false} JoinOfConcat(a: seq<string>, b: seq<string>)
    requires a != [] && b != []
    ensures Join(a + b) == Join(a) + "/" + Join(b)
  {
    HeadAndTail(a);
    if |a| == 1 {
      assert a + b == [a[0]] + b && (a + b)[1..] == b;
    } else {
      JoinOfConcat(a[1..], b);
      assert (a + b)[1..] == a[1..] + b;
      AppendAssoc(a[0] + "/" + Join(a[1..]), "/", Join(b));
      AppendAssoc(a[0] + "/", Join(a[1..]), "/" + Join(b));
      AppendAssoc(Join(a[1..]), "/", Join(b));
    }
  }

  // ----- components

  predicate Trivial(segment: string) { segment == "" || segment == "." }

  function Parts(segments: seq<string>): seq<string> {
    if segments == [] then []
    else (if Trivial(segments[0]) then [] else [segments[0]]) + Parts(segments[1..])
  }

  predicate Plain(segments: seq<string>) { forall i :: 0 <= i < |segments| ==> !Trivial(segments[i]) }

  function Components(p: string): seq<string> {
    var segments := Segments(p);
    if IsAbsolute(p) then ["/"] + Parts(segments)
    else if segments[0] == "." then ["."] + Parts(segments[1..])
    else Parts(segments)
  }

  /** `Path::starts_with`: a prefix by whole components. */
  predicate StartsWithPath(p: string, dir: string) { Components(dir) <= Components(p) }

  /** What is left of a list of segments after its first `n` components. */
  function DropParts(segments: seq<string>, n: nat): seq<string>
    decreases |segments|
  {
    if n == 0 || segments == [] then segments
    else if Trivial(segments[0]) then DropParts(segments[1..], n)
    else DropParts(segments[1..], n - 1)
  }

  function TrimLead(segments: seq<string>): seq<string> {
    if segments != [] && Trivial(segments[0]) then TrimLead(segments[1..]) else segments
  }

  function TrimTrail(segments: seq<string>): seq<string> {
    if segments != [] && Trivial(segments[|segments| - 1]) then TrimTrail(segments[..|segments| - 1]) else segments
  }

  function Trimmed(segments: seq<string>): seq<string> { TrimTrail(TrimLead(segments)) }

  /** `Path::strip_prefix` as text: interior separators stay as they were written. */
  function StripPrefix(p: string, dir: string): string {
    var segments, n := Segments(p), |Components(dir)|;
    if n == 0 then
      if IsAbsolute(p) then "/" + Join(TrimTrail(segments[1..]))
      else if segments[0] == "." then Join(["."] + TrimTrail(segments[1..]))
      else Join(TrimTrail(segments))
    else if IsAbsolute(p) then Join(Trimmed(DropParts(segments, n - 1)))
    else if segments[0] == "." then Join(Trimmed(DropParts(segments[1..], n - 1)))
    else Join(Trimmed(DropParts(segments, n)))
  }

  /** `Path::join`: an absolute remainder replaces the base. */
  function PathJoin(base: string, rest: string): string {
    if IsAbsolute(rest) then rest
    else if base == "" || base[|base| - 1] == '/' then base + rest
    else base + "/" + rest
  }

  lemma {:induction false} PartsOfConcat(a: seq<string>, b: seq<string>)
    ensures Parts(a + b) == Parts(a) + Parts(b)
  {
    if a == [] {
      AppendNothing(b);
      AppendNothing(Parts(b));
    } else {
      assert (a + b)[1..] == a[1..] + b;
      PartsOfConcat(a[1..], b);
      AppendAssoc(if Trivial(a[0]) then [] else [a[0]], Parts(a[1..]), Parts(b));
    }
  }

  lemma {:induction false} PartsOfPlain(segments: seq<string>)
    requires Plain(segments)
    ensures Parts(segments) == segments
  {
    if segments != [] {
      PartsOfPlain(segments[1..]);
    }
  }

  lemma {:induction false} DropPlain(a: seq<string>, b: seq<string>)
    requires Plain(a)
    ensures DropParts(a + b, |a|) == b
    decreases |a|
  {
    if a == [] {
      AppendNothing(b);
    } else {
      assert (a + b)[1..] == a[1..] + b;
      DropPlain(a[1..], b);
    }
  }

  // ----- sizes

  /** The length of the joined text, counting a separator after every segment. */
  function Weight(segments: seq<string>): nat {
    if segments == [] then 0 else |segments[0]| + 1 + Weight(segments[1..])
  }

  lemma {:induction false} WeightIsLength(segments: seq<string>)
    requires segments != []
    ensures |Join(segments)| + 1 == Weight(segments)
  {
    if |segments| > 1 {
      WeightIsLength(segments[1..]);
    } else {
      assert segments[1..] == [];
    }
  }

  lemma {:induction false} WeightOfConcat(a: seq<string>, b: seq<string>)
    ensures Weight(a + b) == Weight(a) + Weight(b)
  {
    if a == [] {
      AppendNothing(b);
    } else {
      assert (a + b)[1..] == a[1..] + b;
      WeightOfConcat(a[1..], b);
    }
  }

  /** Dropping components drops their weight and leaves the other components. */
  lemma {:induction false} DropWeight(segments: seq<string>, n: nat)
    requires n <= |Parts(segments)|
    ensures Weight(DropParts(segments, n)) + Weight(Parts(segments)[..n]) <= Weight(segments)
    ensures Parts(DropParts(segments, n)) == Parts(segments)[n..]
    decreases |segments|
  {
    if n == 0 {
      assert Parts(segments)[..0] == [];
    } else if Trivial(segments[0]) {
      AppendNothing(Parts(segments[1..]));
      DropWeight(segments[1..], n);
    } else {
      DropWeight(segments[1..], n - 1);
      var parts := Parts(segments);
      assert parts == [segments[0]] + Parts(segments[1..]);
      assert parts[..n][1..] == Parts(segments[1..])[..n - 1] && parts[..n][0] == segments[0];
      assert parts[n..] == Parts(segments[1..])[n - 1..];
    }
  }

  lemma {:induction false} DropLightens(segments: seq<string>, n: nat)
    ensures Weight(DropParts(segments, n)) <= Weight(segments)
    decreases |segments|
  {
    if n != 0 && segments != [] {
      DropLightens(segments[1..], if Trivial(segments[0]) then n else n - 1);
    }
  }

  // ----- tidy remainders and clean directories

  /** Text that starts and ends with a component. */
  predicate Tidy(rest: string) {
    var segments := Segments(rest);
    !Trivial(segments[0]) && !Trivial(segments[|segments| - 1])
  }

  /** An absolute directory written without empty or "." segments, backslashes or a trailing slash. */
  predicate CleanDir(d: string) { IsAbsolute(d) && NoBackslash(d) && Plain(DirParts(d)) }

  function DirParts(d: string): seq<string>
    requires d != []
  {
    if d == "/" then [] else Segments(d[1..])
  }

  lemma CleanDirText(d: string)
    requires CleanDir(d)
    ensures d == "/" + Join(DirParts(d)) && Lacks('/', DirParts(d))
    ensures d != "/" ==> d[|d| - 1] != '/'
  {
    HeadAndTail(d);
    JoinOfSegments(d[1..]);
    SegmentsHaveNoSlash(d[1..]);
    if d != "/" && d[|d| - 1] == '/' {
      LastSegmentEmpty(d[1..]);
    }
  }

  lemma CleanDirComponents(d: string)
    requires CleanDir(d)
    ensures Components(d) == ["/"] + DirParts(d)
  {
    assert Segments(d)[1..] == Segments(d[1..]);
    if d == "/" {
      assert Segments(d) == ["", ""];
    } else {
      PartsOfPlain(Segments(d[1..]));
    }
  }

  lemma {:induction false} LastSegmentEmpty(s: string)
    requires s == [] || s[|s| - 1] == '/'
    ensures Segments(s)[|Segments(s)| - 1] == ""
  {
    if s != [] {
      LastSegmentEmpty(s[1..]);
    }
  }

  lemma FirstSegmentEmpty(s: string)
    ensures s == "" || IsAbsolute(s) ==> Segments(s)[0] == ""
  {
  }

  lemma {:induction false} TrimTrailIsPrefix(segments: seq<string>)
    ensures TrimTrail(segments) <= segments
    ensures TrimTrail(segments) != [] ==> !Trivial(TrimTrail(segments)[|TrimTrail(segments)| - 1])
    ensures Weight(TrimTrail(segments)) <= Weight(segments)
    ensures Parts(TrimTrail(segments)) == Parts(segments)
  {
    if segments != [] && Trivial(segments[|segments| - 1]) {
      var init, last := segments[..|segments| - 1], segments[|segments| - 1];
      TrimTrailIsPrefix(init);
      InitAndLast(segments);
      WeightOfConcat(init, [last]);
      PartsOfConcat(init, [last]);
      AppendNothing(Parts(init));
    }
  }

  lemma {:induction false} TrimLeadStarts(segments: seq<string>)
    ensures TrimLead(segments) != [] ==> !Trivial(TrimLead(segments)[0])
    ensures forall c :: Lacks(c, segments) ==> Lacks(c, TrimLead(segments))
    ensures Weight(TrimLead(segments)) <= Weight(segments)
    ensures Parts(TrimLead(segments)) == Parts(segments)
  {
    if segments != [] && Trivial(segments[0]) {
      TrimLeadStarts(segments[1..]);
    }
  }

  lemma {:induction false} DropKeepsLack(c: char, segments: seq<string>, n: nat)
    requires Lacks(c, segments)
    ensures Lacks(c, DropParts(segments, n))
    decreases |segments|
  {
    if n != 0 && segments != [] {
      DropKeepsLack(c, segments[1..], if Trivial(segments[0]) then n else n - 1);
    }
  }

  /** A trimmed list is empty or joins to tidy text. */
  lemma TrimmedIsTidy(segments: seq<string>)
    requires Lacks('/', segments)
    ensures Trimmed(segments) == [] || Tidy(Join(Trimmed(segments)))
  {
    TrimLeadStarts(segments);
    TrimTrailIsPrefix(TrimLead(segments));
    if Trimmed(segments) != [] {
      SegmentsOfJoin(Trimmed(segments));
    }
  }

  /** A stripped remainder is empty or tidy. */
  lemma RemainderIsTidy(p: string, dir: string)
    requires IsAbsolute(p) && CleanDir(dir)
    ensures StripPrefix(p, dir) == "" || Tidy(StripPrefix(p, dir))
  {
    CleanDirComponents(dir);
    SegmentsHaveNoSlash(p);
    DropKeepsLack('/', Segments(p), |DirParts(dir)|);
    TrimmedIsTidy(DropParts(Segments(p), |DirParts(dir)|));
  }

  lemma TidyIsRelative(rest: string)
    requires Tidy(rest)
    ensures rest != "" && !IsAbsolute(rest) && rest[|rest| - 1] != '/'
  {
    if rest != "" && rest[|rest| - 1] == '/' {
      LastSegmentEmpty(rest);
    }
  }

  /** Below a clean directory a tidy remainder is found again. */
  lemma StripOfJoin(dir: string, rest: string)
    requires CleanDir(dir) && Tidy(rest)
    ensures Components(PathJoin(dir, rest)) == Components(dir) + Parts(Segments(rest))
    ensures StripPrefix(PathJoin(dir, rest), dir) == rest
  {
    CleanDirComponents(dir);
    TidyIsRelative(rest);
    SegmentsBelow(dir, rest);
    ComponentsBelow(dir, rest);
    DropBelow(DirParts(dir), Segments(rest));
    JoinOfSegments(rest);
  }

  lemma TrimmedKeeps(r: seq<string>)
    requires r != [] && !Trivial(r[0]) && !Trivial(r[|r| - 1])
    ensures Trimmed(r) == r && Trimmed([""] + r) == r
  {
  }

  lemma DropLeadingEmpty(segments: seq<string>, n: nat)
    requires n > 0
    ensures DropParts([""] + segments, n) == DropParts(segments, n)
  {
  }

  lemma DropBelow(d: seq<string>, r: seq<string>)
    requires Plain(d) && r != [] && !Trivial(r[0]) && !Trivial(r[|r| - 1])
    ensures Trimmed(DropParts([""] + d + r, |d|)) == r
  {
    TrimmedKeeps(r);
    if d == [] {
      AppendNothing([""]);
    } else {
      AppendAssoc([""], d, r);
      DropLeadingEmpty(d + r, |d|);
      DropPlain(d, r);
    }
  }

  lemma ComponentsBelow(dir: string, rest: string)
    requires CleanDir(dir) && !IsAbsolute(rest)
    ensures IsAbsolute(PathJoin(dir, rest))
    ensures Components(PathJoin(dir, rest)) == Components(dir) + Parts(Segments(rest))
  {
    CleanDirComponents(dir);
    SegmentsBelow(dir, rest);
    var d, r := DirParts(dir), Segments(rest);
    AppendAssoc([""], d, r);
    PartsOfConcat([""], d + r);
    PartsOfConcat(d, r);
    PartsOfPlain(d);
    assert Parts([""]) == [];
    AppendNothing(d + Parts(r));
    AppendAssoc(["/"], d, Parts(r));
  }

  lemma SegmentsBelow(dir: string, rest: string)
    requires CleanDir(dir) && !IsAbsolute(rest)
    ensures Segments(PathJoin(dir, rest)) == [""] + DirParts(dir) + Segments(rest)
  {
    CleanDirText(dir);
    if dir == "/" {
      SegmentsOfConcat("", rest);
    } else {
      SegmentsOfConcat(dir, rest);
      assert Segments(dir) == [""] + Segments(dir[1..]);
    }
  }

  lemma StripOfItself(dir: string)
    requires CleanDir(dir)
    ensures StartsWithPath(dir, dir) && StripPrefix(dir, dir) == ""
  {
    CleanDirComponents(dir);
    var d := DirParts(dir);
    if dir == "/" {
      assert Segments(dir) == ["", ""];
      assert TrimLead(["", ""]) == TrimLead([""]) == [];
    } else {
      DropPlain(d, []);
      AppendNothing(d);
      assert Segments(dir)[1..] == d;
    }
  }

  /** Two steps down are one longer step down. */
  lemma JoinTwice(dir: string, s: string, rest: string)
    requires dir != "" && Tidy(s) && !IsAbsolute(rest)
    ensures PathJoin(PathJoin(dir, s), rest) == PathJoin(dir, s + "/" + rest)
  {
    TidyIsRelative(s);
    var below := if dir[|dir| - 1] == '/' then dir else dir + "/";
    AppendAssoc(below, s, "/" + rest);
    AppendAssoc(s, "/", rest);
    AppendAssoc(below + s, "/", rest);
  }

  // ----- more on stripping

  lemma TrimmedFacts(segments: seq<string>)
    ensures Parts(Trimmed(segments)) == Parts(segments)
    ensures Weight(Trimmed(segments)) <= Weight(segments)
    ensures forall c :: Lacks(c, segments) ==> Lacks(c, Trimmed(segments))
  {
    TrimLeadStarts(segments);
    TrimTrailIsPrefix(TrimLead(segments));
  }

  lemma {:induction false} SegmentsLack(c: char, s: string)
    requires c !in s
    ensures Lacks(c, Segments(s))
  {
    if s != [] {
      SegmentsLack(c, s[1..]);
    }
  }

  lemma {:induction false} JoinLacks(c: char, segments: seq<string>)
    requires c != '/' && Lacks(c, segments)
    ensures c !in Join(segments)
  {
    if |segments| > 1 {
      JoinLacks(c, segments[1..]);
    }
  }

  /** A clean directory above a path: its parts come first among the path's. */
  lemma PartsAbove(p: string, dir: string)
    requires IsAbsolute(p) && CleanDir(dir) && StartsWithPath(p, dir)
    ensures DirParts(dir) <= Parts(Segments(p))
  {
    CleanDirComponents(dir);
    ConsPrefix("/", DirParts(dir), Parts(Segments(p)));
  }

  lemma StrippedTail(p: string, dir: string)
    requires IsAbsolute(p) && CleanDir(dir) && DirParts(dir) <= Parts(Segments(p))
    ensures Parts(Segments(StripPrefix(p, dir))) == Parts(Segments(p))[|DirParts(dir)|..]
  {
    CleanDirComponents(dir);
    var dropped := DropParts(Segments(p), |DirParts(dir)|);
    DropWeight(Segments(p), |DirParts(dir)|);
    TrimmedFacts(dropped);
    StrippedSegments(p, dropped);
  }

  /** Stripping a clean directory leaves the other components. */
  lemma StrippedParts(p: string, dir: string)
    requires IsAbsolute(p) && CleanDir(dir) && StartsWithPath(p, dir)
    ensures Components(p) == Components(dir) + Parts(Segments(StripPrefix(p, dir)))
  {
    PartsAbove(p, dir);
    StrippedTail(p, dir);
    CleanDirComponents(dir);
    var d, parts := DirParts(dir), Parts(Segments(p));
    assert d + parts[|d|..] == parts;
    AppendAssoc(["/"], d, parts[|d|..]);
  }

  lemma StrippedLacksBackslash(p: string, dir: string)
    requires IsAbsolute(p) && CleanDir(dir) && NoBackslash(p)
    ensures NoBackslash(StripPrefix(p, dir))
  {
    CleanDirComponents(dir);
    var dropped := DropParts(Segments(p), |DirParts(dir)|);
    SegmentsLack('\\', p);
    DropKeepsLack('\\', Segments(p), |DirParts(dir)|);
    TrimmedFacts(dropped);
    JoinLacks('\\', Trimmed(dropped));
  }

  lemma StrippedSegments(p: string, dropped: seq<string>)
    requires exists n :: dropped == DropParts(Segments(p), n)
    ensures Parts(Segments(Join(Trimmed(dropped)))) == Parts(Trimmed(dropped))
  {
    var n :| dropped == DropParts(Segments(p), n);
    SegmentsHaveNoSlash(p);
    DropKeepsLack('/', Segments(p), n);
    TrimmedFacts(dropped);
    if Trimmed(dropped) != [] {
      SegmentsOfJoin(Trimmed(dropped));
    } else {
      assert Segments("") == [""] && Parts([""]) == [];
    }
  }

  /** A non-empty remainder is shorter than the path by at least the directory and a separator. */
  lemma StrippedIsShorter(p: string, dir: string)
    requires IsAbsolute(p) && CleanDir(dir) && StartsWithPath(p, dir) && StripPrefix(p, dir) != ""
    ensures |StripPrefix(p, dir)| + |dir| + (if dir == "/" then 0 else 1) <= |p|
  {
    CleanDirComponents(dir);
    PartsAbove(p, dir);
    var d, rest := DirParts(dir), Segments(p[1..]);
    assert Segments(p) == [""] + rest;
    JoinOfSegments(p[1..]);
    WeightIsLength(rest);
    if dir == "/" {
      assert TrimLead(Segments(p)) == TrimLead(rest);
      TrimmedFacts(rest);
      WeightIsLength(Trimmed(rest));
    } else {
      DropLeadingEmpty(rest, |d|);
      assert Parts(Segments(p)) == Parts(rest);
      RemainderWeight(rest, d);
      CleanDirText(dir);
      WeightIsLength(d);
    }
  }

  lemma RemainderWeight(segments: seq<string>, d: seq<string>)
    requires d <= Parts(segments) && Trimmed(DropParts(segments, |d|)) != []
    ensures |Join(Trimmed(DropParts(segments, |d|)))| + 1 + Weight(d) <= Weight(segments)
  {
    DropWeight(segments, |d|);
    assert Parts(segments)[..|d|] == d;
    TrimmedWeight(DropParts(segments, |d|));
  }

  lemma TrimmedWeight(segments: seq<string>)
    requires Trimmed(segments) != []
    ensures |Join(Trimmed(segments))| + 1 <= Weight(segments)
  {
    TrimmedFacts(segments);
    WeightIsLength(Trimmed(segments));
  }

  /** Whatever is stripped, the remainder is not longer than the path. */
  lemma StripNeverLengthens(p: string, dir: string)
    requires IsAbsolute(p)
    ensures |StripPrefix(p, dir)| <= |p|
  {
    JoinOfSegments(p);
    WeightIsLength(Segments(p));
    var n := |Components(dir)|;
    if n == 0 {
      TrimTrailIsPrefix(Segments(p)[1..]);
      assert Segments(p)[0] == "";
      JoinAtMost(TrimTrail(Segments(p)[1..]), |p|);
    } else {
      var dropped := DropParts(Segments(p), n - 1);
      DropLightens(Segments(p), n - 1);
      TrimmedFacts(dropped);
      JoinAtMost(Trimmed(dropped), |p| + 1);
    }
  }

  lemma JoinAtMost(segments: seq<string>, weight: nat)
    requires Weight(segments) <= weight && weight > 0
    ensures |Join(segments)| <= weight - 1
  {
    if segments != [] {
      WeightIsLength(segments);
    }
  }

  /** Of two clean directories above the same path, the longer text has the more components. */
  lemma CleanDirsAbove(p: string, a: string, b: string)
    requires IsAbsolute(p) && CleanDir(a) && CleanDir(b) && StartsWithPath(p, a) && StartsWithPath(p, b)
    ensures |a| <= |b| <==> DirParts(a) <= DirParts(b)
    ensures |a| == |b| ==> a == b
  {
    var x, y := DirParts(a), DirParts(b);
    PartsAbove(p, a);
    PartsAbove(p, b);
    PrefixesCompare(x, y, Parts(Segments(p)));
    PrefixesCompare(y, x, Parts(Segments(p)));
    if x <= y { MorePartsLonger(a, b); }
    if y <= x { MorePartsLonger(b, a); }
  }

  lemma MorePartsLonger(a: string, b: string)
    requires CleanDir(a) && CleanDir(b) && DirParts(a) <= DirParts(b)
    ensures |a| <= |b| && (|a| == |b| ==> a == b)
  {
    CleanDirText(a);
    CleanDirText(b);
    var x, y := DirParts(a), DirParts(b);
    assert y == x + y[|x|..];
    WeightOfConcat(x, y[|x|..]);
    if y != [] { WeightIsLength(y); }
    if x != [] { WeightIsLength(x); }
    if |x| < |y| {
      assert Weight(y[|x|..]) > 0;
    } else {
      assert x == y;
    }
  }
}
