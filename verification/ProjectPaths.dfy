/** Absolute POSIX paths, by their components, as node:path resolves them. */
module ProjectPaths {
  import opened Common
  import opened Sorting
  import opened Text

  type Path = seq<string>

  /** The pieces of a relative or absolute path between its slashes. */
  function Segments(s: string): (r: seq<string>)
    ensures r != []
  {
    if s == "" then [""]
    else
      var rest := Segments(s[1..]);
      if s[0] == '/' then [""] + rest else [[s[0]] + rest[0]] + rest[1..]
  }

  /** Empty and `.` segments stay, `..` climbs and stops at the root. */
  function Walk(from: Path, segments: seq<string>): Path
    decreases |segments|
  {
    if segments == [] then from
    else
      var s := segments[0];
      var next := if s == "" || s == "." then from
                  else if s == ".." then (if from == [] then [] else from[..|from| - 1])
                  else from + [s];
      Walk(next, segments[1..])
  }

  /** `resolve(from, relative)`. */
  function Resolve(from: Path, relative: string): Path {
    Walk(if StartsWith(relative, "/") then [] else from, Segments(relative))
  }

  function Dirname(p: Path): Path {
    if p == [] then [] else p[..|p| - 1]
  }

  function Basename(p: Path): string {
    if p == [] then "" else p[|p| - 1]
  }

  /** `relative(root, target)` neither climbs out of `root` nor is absolute. */
  predicate Contains(root: Path, target: Path) {
    |root| <= |target| && target[..|root|] == root
  }

  lemma {:induction false} PlainSegment(s: string)
    requires '/' !in s
    ensures Segments(s) == [s]
  {
    if s != "" {
      PlainSegment(s[1..]);
      assert [s[0]] + s[1..] == s;
    }
  }

  lemma {:induction false} FirstSegment(s: string, rest: string)
    requires '/' !in s
    ensures Segments(s + "/" + rest) == [s] + Segments(rest)
  {
    var all := s + "/" + rest;
    if s == "" {
      assert all[0] == '/' && all[1..] == rest;
    } else {
      assert all[0] == s[0] && all[1..] == s[1..] + "/" + rest;
      FirstSegment(s[1..], rest);
      assert [s[0]] + s[1..] == s;
    }
  }

  /** The names with a slash between neighbours. */
  ghost function Printed(names: seq<string>): string {
    if names == [] then "" else if |names| == 1 then names[0] else names[0] + "/" + Printed(names[1..])
  }

  /** Cutting at the slashes undoes printing. */
  lemma {:induction false} SegmentsPrint(names: seq<string>)
    requires names != [] && forall i :: 0 <= i < |names| ==> '/' !in names[i]
    ensures Segments(Printed(names)) == names
  {
    if |names| == 1 {
      PlainSegment(names[0]);
    } else {
      SegmentsPrint(names[1..]);
      FirstSegment(names[0], Printed(names[1..]));
      assert [names[0]] + names[1..] == names;
    }
  }

  lemma PrintedFirst(name: string, rest: seq<string>)
    ensures Printed([name] + rest) == if rest == [] then name else name + "/" + Printed(rest)
  {
    assert ([name] + rest)[1..] == rest;
  }

  lemma PrintedGrow(c: char, names: seq<string>)
    requires names != []
    ensures Printed([[c] + names[0]] + names[1..]) == [c] + Printed(names)
  {
    PrintedFirst([c] + names[0], names[1..]);
    PrintedFirst(names[0], names[1..]);
    assert [names[0]] + names[1..] == names;
    hide Printed;
    assert ([c] + names[0]) + "/" + Printed(names[1..]) == [c] + (names[0] + "/" + Printed(names[1..]));
  }

  /** The segments are what stands between the slashes. */
  lemma {:induction false} SegmentsMean(s: string)
    ensures Printed(Segments(s)) == s && forall i :: 0 <= i < |Segments(s)| ==> '/' !in Segments(s)[i]
  {
    if s != "" {
      SegmentsMean(s[1..]);
      PrintedGrow(s[0], Segments(s[1..]));
      PrintedFirst("", Segments(s[1..]));
      assert [s[0]] + s[1..] == s;
    }
  }

  lemma WalkDown(from: Path, s: string, rest: seq<string>)
    requires s != "" && s != "." && s != ".."
    ensures Walk(from, [s] + rest) == Walk(from + [s], rest)
  {
    assert ([s] + rest)[1..] == rest;
  }

  lemma {:induction false} WalkAppend(from: Path, a: seq<string>, b: seq<string>)
    ensures Walk(from, a + b) == Walk(Walk(from, a), b)
    decreases |a|
  {
    if a == [] {
      assert a + b == b;
    } else {
      WalkFirst(from, a[0], a[1..]);
      WalkFirst(from, a[0], a[1..] + b);
      assert a == [a[0]] + a[1..] && a + b == [a[0]] + (a[1..] + b);
      WalkAppend(Walk(from, [a[0]]), a[1..], b);
    }
  }

  lemma WalkFirst(from: Path, s: string, rest: seq<string>)
    ensures Walk(from, [s] + rest) == Walk(Walk(from, [s]), rest)
  {
    assert ([s] + rest)[1..] == rest;
  }

  /** Empty segments and single dots stay. */
  lemma WalkStays(from: Path, s: string)
    requires s == "" || s == "."
    ensures Walk(from, [s]) == from
  {
    assert [s][1..] == [];
  }

  ghost predicate ProperNames(names: seq<string>) {
    forall i :: 0 <= i < |names| ==> names[i] != "" && names[i] != "." && names[i] != ".." && '/' !in names[i]
  }

  lemma {:induction false} WalkNames(from: Path, names: seq<string>)
    requires ProperNames(names)
    ensures Walk(from, names) == from + names
    decreases |names|
  {
    if names == [] {
      assert from + names == from;
    } else {
      WalkDown(from, names[0], names[1..]);
      WalkNames(from + [names[0]], names[1..]);
      assert names == [names[0]] + names[1..];
    }
  }

  ghost function Ups(k: nat): seq<string> {
    seq(k, _ => "..")
  }

  /** Each pair of dots climbs one directory, and the root is its own parent. */
  lemma {:induction false} WalkUp(from: Path, k: nat)
    ensures Walk(from, Ups(k)) == if k <= |from| then from[..|from| - k] else []
    decreases k
  {
    if k == 0 {
      assert from[..|from|] == from;
    } else {
      var parent := if from == [] then [] else from[..|from| - 1];
      assert Ups(k) == [".."] + Ups(k - 1) && ([".."] + Ups(k - 1))[1..] == Ups(k - 1);
      WalkUp(parent, k - 1);
      assert 0 < k <= |from| ==> parent[..|parent| - (k - 1)] == from[..|from| - k];
    }
  }

  lemma NotAbsolute(from: Path, to: Path, k: nat)
    requires k <= |from| && k <= |to| && ProperNames(to)
    ensures !StartsWith(Printed(Ups(|from| - k) + to[k..]), "/")
  {
    var names := Ups(|from| - k) + to[k..];
    if names != [] {
      assert names[0] == if |from| > k then ".." else to[k];
      assert names[0] != "" && '/' !in names[0] && names[0][0] in names[0];
      assert Printed(names)[0] == names[0][0];
      assert Printed(names)[..1] == [names[0][0]];
    }
  }

  /** A relative path that climbs to a common directory and descends from there leads to its target. */
  lemma RelativeResolves(from: Path, to: Path, k: nat)
    requires k <= |from| && k <= |to| && from[..k] == to[..k] && ProperNames(to)
    ensures Resolve(from, Printed(Ups(|from| - k) + to[k..])) == to
  {
    var ups, rest := Ups(|from| - k), to[k..];
    NotAbsolute(from, to, k);
    hide StartsWith;
    if ups + rest == [] {
      assert Printed(ups + rest) == "" && from[..k] == from && to[..k] == to;
      WalkStays(from, "");
    } else {
      forall i | 0 <= i < |ups + rest| ensures '/' !in (ups + rest)[i] {
        assert (ups + rest)[i] == if i < |ups| then ".." else to[k + (i - |ups|)];
      }
      SegmentsPrint(ups + rest);
      WalkAppend(from, ups, rest);
      WalkUp(from, |from| - k);
      WalkNames(from[..k], rest);
      assert to == to[..k] + rest;
    }
  }

  /** An absolute path leads to its target from everywhere. */
  lemma AbsoluteResolves(from: Path, to: Path)
    requires to != [] && ProperNames(to)
    ensures Resolve(from, "/" + Printed(to)) == to
  {
    var text := "/" + Printed(to);
    assert text[..1] == "/" && text == "" + "/" + Printed(to);
    FirstSegment("", Printed(to));
    SegmentsPrint(to);
    WalkFirst([], "", to);
    WalkStays([], "");
    WalkNames([], to);
    assert [] + to == to;
  }

  /** A directory contains exactly the paths that continue its own. */
  lemma ContainsMeans(root: Path, target: Path)
    ensures Contains(root, target) <==> exists rest: Path :: target == root + rest
  {
    if Contains(root, target) {
      assert target == root + target[|root|..];
    }
  }

  /** The number of characters of the printed path: a slash and a name for each component. */
  function Length(p: Path): nat {
    if p == [] then 0 else Length(p[..|p| - 1]) + 1 + |p[|p| - 1]|
  }

  function LongerFirst(): (Path, Path) -> int {
    (left, right) => Length(right) - Length(left)
  }

  /** `roots.find(root => contains(root, target))`. */
  function FirstContaining(roots: seq<Path>, target: Path): (r: Option<Path>)
    ensures r.Some? ==> r.value in roots && Contains(r.value, target)
    ensures r.None? ==> forall root :: root in roots ==> !Contains(root, target)
  {
    if roots == [] then None
    else if Contains(roots[0], target) then Some(roots[0])
    else FirstContaining(roots[1..], target)
  }

  lemma {:induction false} FirstContainingIsFirst(roots: seq<Path>, target: Path, i: nat)
    requires i < |roots| && Contains(roots[i], target) && forall j :: 0 <= j < i ==> !Contains(roots[j], target)
    ensures FirstContaining(roots, target) == Some(roots[i])
  {
    if i > 0 {
      FirstContainingIsFirst(roots[1..], target, i - 1);
    }
  }

  lemma {:induction false} LongerPrefix(a: Path, b: Path, target: Path)
    requires Contains(a, target) && Contains(b, target) && |a| < |b|
    ensures Length(a) < Length(b)
    decreases |b|
  {
    var shorter := b[..|b| - 1];
    assert Contains(shorter, target) by {
      assert target[..|b|][..|b| - 1] == target[..|b| - 1];
    }
    if |a| == |shorter| {
      assert a == target[..|a|] == shorter;
    } else {
      LongerPrefix(a, shorter, target);
    }
  }

  lemma {:induction false} FirstIsLongest(roots: seq<Path>, target: Path, root: Path)
    requires SortedBy(roots, LongerFirst()) && root in roots && Contains(root, target)
    ensures FirstContaining(roots, target).Some?
    ensures Length(root) <= Length(FirstContaining(roots, target).value)
  {
    if Contains(roots[0], target) {
      var i :| 0 <= i < |roots| && roots[i] == root;
      if i > 0 {
        assert LongerFirst()(roots[0], roots[i]) <= 0;
      }
    } else {
      FirstIsLongest(roots[1..], target, root);
    }
  }

  lemma Nested(a: Path, b: Path, target: Path)
    requires Contains(a, target) && Contains(b, target) && |a| <= |b|
    ensures Contains(a, b)
  {
    assert b[..|a|] == target[..|b|][..|a|] == target[..|a|];
  }

  /** The split root found for a target is the deepest one: it lies inside every other one. */
  lemma DeepestRoot(candidates: seq<Path>, target: Path, root: Path)
    requires root in candidates && Contains(root, target)
    ensures FirstContaining(Sort(candidates, LongerFirst()), target).Some?
    ensures Contains(root, FirstContaining(Sort(candidates, LongerFirst()), target).value)
  {
    var sorted := Sort(candidates, LongerFirst());
    SortCorrect(candidates, LongerFirst());
    SameMultiset(sorted, candidates);
    FirstIsLongest(sorted, target, root);
    var found := FirstContaining(sorted, target).value;
    if |found| < |root| {
      LongerPrefix(found, root, target);
    }
    Nested(root, found, target);
  }

  /** ... and a found root is one of the candidates. */
  lemma FoundIsCandidate(candidates: seq<Path>, target: Path)
    ensures var found := FirstContaining(Sort(candidates, LongerFirst()), target);
      found.Some? ==> found.value in candidates && Contains(found.value, target)
  {
    SortCorrect(candidates, LongerFirst());
    SameMultiset(Sort(candidates, LongerFirst()), candidates);
  }
}
