/** What components, joining and stripping mean for every path, relative ones and untidy text included. */
module PathLaws {
  import opened Prelude
  import opened PathText

  // ----- components

  lemma PartsOfTrivial(segment: string)
    requires Trivial(segment)
    ensures Parts([segment]) == []
  {
  }

  /** The components of segments, by how the text starts. */
  function Started(absolute: bool, segments: seq<string>): seq<string>
    requires segments != []
  {
    if absolute then ["/"] + Parts(segments)
    else if segments[0] == "." then ["."] + Parts(segments[1..])
    else Parts(segments)
  }

  lemma StartedMore(absolute: bool, s: seq<string>, r: seq<string>, b: seq<string>)
    requires s != [] && b != [] && s[0] == b[0] && Parts(s) == Parts(b) && Parts(s[1..]) == Parts(b[1..])
    ensures Started(absolute, s + r) == Started(absolute, b) + Parts(r)
  {
    DropOfAppend(s, r, 1);
    if absolute {
      PartsOfConcat(s, r);
      AppendAssoc(["/"], Parts(s), Parts(r));
    } else if s[0] == "." {
      PartsOfConcat(s[1..], r);
      AppendAssoc(["."], Parts(s[1..]), Parts(r));
    } else {
      PartsOfConcat(s, r);
    }
  }

  lemma SkipStarted(absolute: bool, x: seq<string>, segment: string, y: seq<string>)
    requires x != [] && Trivial(segment)
    ensures Started(absolute, x + [segment] + y) == Started(absolute, x + y)
  {
    PartsSkip(x, segment, y);
    PartsSkip(x[1..], segment, y);
    assert (x + [segment] + y)[1..] == x[1..] + [segment] + y && (x + y)[1..] == x[1..] + y;
    assert (x + [segment] + y)[0] == x[0] == (x + y)[0];
  }

  /** A segment that is empty or "." counts for nothing, unless it is the first. */
  lemma TrivialCountsNothing(x: seq<string>, segment: string, y: seq<string>)
    requires x != [] && Trivial(segment) && Lacks('/', x) && Lacks('/', y)
    requires y != [] || x != [""]
    ensures Components(Join(x + [segment] + y)) == Components(Join(x + y))
  {
    var longer, shorter := x + [segment] + y, x + y;
    SegmentsOfJoin(longer);
    SegmentsOfJoin(shorter);
    AppendAssoc(x, [segment], y);
    SameStart(x, [segment] + y);
    SameStart(x, y);
    SkipStarted(IsAbsolute(Join(longer)), x, segment, y);
    StartedComponents(Join(longer), longer);
    StartedComponents(Join(shorter), shorter);
  }

  lemma StartedComponents(p: string, segments: seq<string>)
    requires segments == Segments(p)
    ensures Components(p) == Started(IsAbsolute(p), segments)
  {
  }

  lemma PartsSkip(x: seq<string>, segment: string, y: seq<string>)
    requires Trivial(segment)
    ensures Parts(x + [segment] + y) == Parts(x + y)
  {
    PartsOfConcat(x + [segment], y);
    PartsOfConcat(x, [segment]);
    PartsOfConcat(x, y);
    PartsOfTrivial(segment);
    AppendNothing(Parts(x));
  }

  /** Whether joined text is absolute depends on its first segment and on there being another. */
  lemma SameStart(x: seq<string>, y: seq<string>)
    requires x != [] && Lacks('/', x)
    ensures IsAbsolute(Join(x + y)) <==> x[0] == "" && |x + y| > 1
    ensures (x + y)[0] == x[0]
  {
    var all := x + y;
    if |all| > 1 {
      assert Join(all) == x[0] + "/" + Join(all[1..]);
      assert x[0] != "" ==> Join(all)[0] == x[0][0];
    } else {
      assert all == x;
    }
    assert x[0] != "" ==> x[0][0] in x[0];
  }

  /** Written plainly, a path's components are what is written, after its root or a leading ".". */
  lemma PlainComponents(parts: seq<string>)
    requires Plain(parts) && Lacks('/', parts) && parts != []
    ensures Components(Join(parts)) == parts
    ensures Components("/" + Join(parts)) == ["/"] + parts
    ensures Components("./" + Join(parts)) == ["."] + parts
  {
    SegmentsOfJoin(parts);
    PartsOfPlain(parts);
    SameStart(parts, []);
    AppendNothing(parts);
    PlainBehind("", parts);
    PlainBehind(".", parts);
    assert "" + "/" == "/" && "." + "/" == "./";
  }

  lemma PlainBehind(start: string, parts: seq<string>)
    requires Plain(parts) && Lacks('/', parts) && parts != [] && Trivial(start)
    ensures Components(start + "/" + Join(parts)) == [if start == "" then "/" else start] + parts
  {
    SegmentsOfJoin(parts);
    PartsOfPlain(parts);
    SegmentOfPlain(start);
    SegmentsOfConcat(start, Join(parts));
    PartsOfConcat([start], parts);
    PartsOfTrivial(start);
    AppendNothing(parts);
    assert ([start] + parts)[1..] == parts;
  }

  lemma ShortComponents()
    ensures Components("") == [] && Components("/") == ["/"] && Components(".") == ["."]
  {
    assert Segments("/") == ["", ""];
    assert Parts(["", ""]) == Parts([""]) == [];
    SegmentOfPlain(".");
    assert ["."][1..] == [];
  }

  // ----- joining

  /** Segments of a text that ends in a separator, or has one added, with more text behind it. */
  lemma SegmentsOfJoined(base: string, rest: string)
    requires base != "" && !IsAbsolute(rest)
    ensures exists s :: s != [] && s[0] == Segments(base)[0] && Parts(s) == Parts(Segments(base))
                        && Parts(s[1..]) == Parts(Segments(base)[1..])
                        && Segments(PathJoin(base, rest)) == s + Segments(rest)
  {
    if base[|base| - 1] == '/' {
      var body := base[..|base| - 1];
      assert base == body + "/" + "" && base + rest == body + "/" + rest;
      SegmentsOfConcat(body, "");
      SegmentsOfConcat(body, rest);
      var s := Segments(body);
      PartsOfConcat(s, [""]);
      PartsOfConcat(s[1..], [""]);
      PartsOfTrivial("");
      AppendNothing(Parts(s));
      AppendNothing(Parts(s[1..]));
      assert (s + [""])[1..] == s[1..] + [""];
    } else {
      SegmentsOfConcat(base, rest);
    }
  }

  /** Joining puts the components of a relative text behind those of the base; a leading "." is dropped. */
  lemma JoinLaw(base: string, rest: string)
    ensures base == "" || IsAbsolute(rest) ==> PathJoin(base, rest) == rest
    ensures base != "" && !IsAbsolute(rest) ==>
              Components(PathJoin(base, rest)) == Components(base) + Parts(Segments(rest))
  {
    if base != "" && !IsAbsolute(rest) {
      SegmentsOfJoined(base, rest);
      var s :| s != [] && s[0] == Segments(base)[0] && Parts(s) == Parts(Segments(base))
               && Parts(s[1..]) == Parts(Segments(base)[1..])
               && Segments(PathJoin(base, rest)) == s + Segments(rest);
      StartedMore(IsAbsolute(base), s, Segments(rest), Segments(base));
      StartedComponents(base, Segments(base));
      StartedComponents(PathJoin(base, rest), s + Segments(rest));
      assert PathJoin(base, rest)[0] == base[0];
    }
  }

  // ----- stripping

  /** Text that is empty or starts with a component has exactly its parts as components. */
  lemma ComponentsOfTrimmed(segments: seq<string>)
    requires Lacks('/', segments) && (segments != [] ==> !Trivial(segments[0]))
    ensures Components(Join(segments)) == Parts(segments) && !IsAbsolute(Join(segments))
  {
    if segments == [] {
      assert Segments("") == [""];
    } else {
      SegmentsOfJoin(segments);
      SameStart(segments, []);
      AppendNothing(segments);
    }
  }

  lemma TrimmedStarts(segments: seq<string>)
    ensures Trimmed(segments) != [] ==> !Trivial(Trimmed(segments)[0])
  {
    TrimLeadStarts(segments);
    TrimTrailIsPrefix(TrimLead(segments));
  }

  /** Dropping the first components of segments and trimming leaves the other components. */
  lemma DroppedComponents(p: string, segments: seq<string>, n: nat)
    requires Lacks('/', segments) && n <= |Parts(segments)|
    ensures var rest := Join(Trimmed(DropParts(segments, n)));
            Components(rest) == Parts(segments)[n..] && !IsAbsolute(rest)
  {
    var dropped := DropParts(segments, n);
    DropWeight(segments, n);
    DropKeepsLack('/', segments, n);
    TrimmedFacts(dropped);
    TrimmedStarts(dropped);
    ComponentsOfTrimmed(Trimmed(dropped));
  }

  lemma NothingStripped(p: string)
    ensures Components(StripPrefix(p, "")) == Components(p)
  {
    ShortComponents();
    SegmentsHaveNoSlash(p);
    var segments := Segments(p);
    if IsAbsolute(p) {
      RootedTrim(segments[1..]);
      assert segments[0] == "";
    } else if segments[0] == "." {
      DottedTrim(segments[1..]);
    } else {
      TrimTrailIsPrefix(segments);
      FirstSegmentEmpty(p);
      ComponentsOfTrimmed(TrimTrail(segments));
    }
  }

  lemma RootedTrim(rest: seq<string>)
    requires Lacks('/', rest)
    ensures Components("/" + Join(TrimTrail(rest))) == ["/"] + Parts([""] + rest)
  {
    var kept := TrimTrail(rest);
    TrimTrailIsPrefix(rest);
    PartsOfConcat([""], rest);
    PartsOfTrivial("");
    if kept == [] {
      ShortComponents();
      assert "/" + Join(kept) == "/";
    } else {
      SegmentsOfConcat("", Join(kept));
      assert "" + "/" + Join(kept) == "/" + Join(kept);
      SegmentsOfJoin(kept);
      PartsOfConcat([""], kept);
    }
  }

  lemma DottedTrim(rest: seq<string>)
    requires Lacks('/', rest)
    ensures Components(Join(["."] + TrimTrail(rest))) == ["."] + Parts(rest)
  {
    var kept := TrimTrail(rest);
    TrimTrailIsPrefix(rest);
    SegmentsOfJoin(["."] + kept);
    SameStart(["."], kept);
    assert (["."] + kept)[1..] == kept;
  }

  lemma NoComponents(dir: string)
    ensures Components(dir) == [] <==> dir == ""
  {
    ShortComponents();
    if dir != "" && !IsAbsolute(dir) {
      FirstSegmentOf(dir);
    }
  }

  lemma FirstSegmentOf(s: string)
    requires s != "" && !IsAbsolute(s)
    ensures Segments(s)[0] != ""
  {
  }

  lemma LongerByOne(d: seq<string>, x: string, p: seq<string>)
    requires d != [] && d <= [x] + p
    ensures d[0] == x && |d| - 1 <= |p| && [x] + p == d + p[|d| - 1..]
  {
  }

  lemma LongerBy(d: seq<string>, p: seq<string>)
    requires d <= p
    ensures p == d + p[|d|..]
  {
  }

  lemma StripAbsolute(p: string, dir: string)
    requires IsAbsolute(p) && StartsWithPath(p, dir) && Components(dir) != []
    ensures Components(p) == Components(dir) + Components(StripPrefix(p, dir)) && !IsAbsolute(StripPrefix(p, dir))
  {
    SegmentsHaveNoSlash(p);
    LongerByOne(Components(dir), "/", Parts(Segments(p)));
    DroppedComponents(p, Segments(p), |Components(dir)| - 1);
  }

  lemma StripDotted(p: string, dir: string)
    requires !IsAbsolute(p) && Segments(p)[0] == "." && StartsWithPath(p, dir) && Components(dir) != []
    ensures Components(p) == Components(dir) + Components(StripPrefix(p, dir)) && !IsAbsolute(StripPrefix(p, dir))
  {
    SegmentsHaveNoSlash(p);
    LongerByOne(Components(dir), ".", Parts(Segments(p)[1..]));
    DroppedComponents(p, Segments(p)[1..], |Components(dir)| - 1);
  }

  lemma StripPlain(p: string, dir: string)
    requires !IsAbsolute(p) && Segments(p)[0] != "." && StartsWithPath(p, dir) && Components(dir) != []
    ensures Components(p) == Components(dir) + Components(StripPrefix(p, dir)) && !IsAbsolute(StripPrefix(p, dir))
  {
    SegmentsHaveNoSlash(p);
    LongerBy(Components(dir), Parts(Segments(p)));
    DroppedComponents(p, Segments(p), |Components(dir)|);
  }

  /**
   For every path and every path above it, stripping leaves exactly the other components, and unless
   nothing was stripped a relative text.
   */
  lemma StripLaw(p: string, dir: string)
    requires StartsWithPath(p, dir)
    ensures Components(p) == Components(dir) + Components(StripPrefix(p, dir))
    ensures dir != "" ==> !IsAbsolute(StripPrefix(p, dir))
  {
    NoComponents(dir);
    if dir == "" {
      NothingStripped(p);
      AppendNothing(Components(p));
    } else if IsAbsolute(p) {
      StripAbsolute(p, dir);
    } else if Segments(p)[0] == "." {
      StripDotted(p, dir);
    } else {
      StripPlain(p, dir);
    }
  }

  // ----- stripped text

  /** The text is a part of the other, as it stands there. */
  ghost predicate PartOf(text: string, all: string) {
    exists before: string, after: string :: all == before + text + after
  }

  lemma {:induction false} DropIsSuffix(segments: seq<string>, n: nat) returns (i: nat)
    ensures i <= |segments| && DropParts(segments, n) == segments[i..]
    decreases |segments|
  {
    i := 0;
    if n != 0 && segments != [] {
      var k := DropIsSuffix(segments[1..], if Trivial(segments[0]) then n else n - 1);
      i := k + 1;
    }
  }

  lemma {:induction false} TrimLeadIsSuffix(segments: seq<string>) returns (i: nat)
    ensures i <= |segments| && TrimLead(segments) == segments[i..]
  {
    i := 0;
    if segments != [] && Trivial(segments[0]) {
      var k := TrimLeadIsSuffix(segments[1..]);
      i := k + 1;
    }
  }

  lemma JoinOfSuffix(segments: seq<string>, i: nat)
    requires i < |segments|
    ensures exists before: string :: Join(segments) == before + Join(segments[i..])
  {
    if i == 0 {
      assert segments[0..] == segments;
      assert Join(segments) == "" + Join(segments[i..]);
    } else {
      JoinOfConcat(segments[..i], segments[i..]);
      SplitAt(segments, i);
      assert Join(segments) == (Join(segments[..i]) + "/") + Join(segments[i..]);
    }
  }

  lemma JoinOfStart(segments: seq<string>, kept: seq<string>)
    requires kept != [] && kept <= segments
    ensures exists after: string :: Join(segments) == Join(kept) + after
  {
    if kept == segments {
      assert Join(segments) == Join(kept) + "";
    } else {
      PrefixAndRest(kept, segments);
      JoinOfConcat(kept, segments[|kept|..]);
      AppendAssoc(Join(kept), "/", Join(segments[|kept|..]));
    }
  }

  /** Trimming what is dropped from leaves a beginning of some end of the segments. */
  lemma TrimmedPlace(segments: seq<string>, n: nat) returns (i: nat)
    requires Trimmed(DropParts(segments, n)) != []
    ensures i < |segments| && Trimmed(DropParts(segments, n)) <= segments[i..]
  {
    var k := DropIsSuffix(segments, n);
    var l := TrimLeadIsSuffix(segments[k..]);
    i := k + l;
    assert segments[k..][l..] == segments[i..];
    TrimTrailIsPrefix(segments[i..]);
  }

  /** A trimmed suffix of segments joins to a part of the joined text. */
  lemma TrimmedIsPart(segments: seq<string>, n: nat)
    ensures PartOf(Join(Trimmed(DropParts(segments, n))), Join(segments))
  {
    var kept := Trimmed(DropParts(segments, n));
    if kept == [] {
      assert Join(segments) == "" + "" + Join(segments);
    } else {
      var i := TrimmedPlace(segments, n);
      JoinOfSuffix(segments, i);
      JoinOfStart(segments[i..], kept);
      PartOfPart(Join(kept), Join(segments[i..]), Join(segments));
    }
  }

  lemma PartOfPart(text: string, end: string, all: string)
    requires (exists before: string :: all == before + end) && exists after: string :: end == text + after
    ensures PartOf(text, all)
  {
    var before: string :| all == before + end;
    var after: string :| end == text + after;
    AppendAssoc(before, text, after);
  }

  lemma PartOfTail(text: string, segments: seq<string>)
    requires |segments| > 0 && PartOf(text, Join(segments[1..]))
    ensures PartOf(text, Join(segments))
  {
    var before: string, after: string :| Join(segments[1..]) == before + text + after;
    if |segments| == 1 {
      assert text == "" && Join(segments) == "" + text + Join(segments);
    } else {
      var first := segments[0] + "/";
      AppendAssoc(first, before + text, after);
      AppendAssoc(first, before, text);
      assert Join(segments) == (first + before) + text + after;
    }
  }

  /** Below a directory the remainder is a part of the path as it is written, separators included. */
  lemma StrippedIsPart(p: string, dir: string)
    requires dir != ""
    ensures PartOf(StripPrefix(p, dir), p)
  {
    var segments, n := Segments(p), |Components(dir)|;
    NoComponents(dir);
    JoinOfSegments(p);
    if IsAbsolute(p) {
      TrimmedIsPart(segments, n - 1);
    } else if segments[0] == "." {
      TrimmedIsPart(segments[1..], n - 1);
      PartOfTail(StripPrefix(p, dir), segments);
    } else {
      TrimmedIsPart(segments, n);
    }
  }
}
