/** The compiler-face check over project references of scripts/project-reference-faces.ts. */
module Faces {
  import opened Common
  import opened ProjectPaths
  import opened Sorting
  import opened Text

  datatype Face = Host | Client

  /** A parsed config. Values of another type than a string are `None`. */
  datatype Config = Config(base: Option<string>, references: seq<Option<string>>)

  /** What the check reads: the repository root, every config file (`None` when it does not parse), every manifest. */
  datatype Workspace = Workspace(root: Path, files: map<Path, Option<Config>>, manifests: seq<Path>)

  datatype Problem = NoFace | WrongLeaf(face: Face, expected: Path)

  datatype Violation = Violation(config: Path, reference: string, splitRoot: Path, problem: Problem)

  const HOST := "tsconfig.host.json"
  const CLIENT := "tsconfig.client.json"

  function Leaf(face: Face): string {
    if face == Host then HOST else CLIENT
  }

  predicate IsSplit(ws: Workspace, dir: Path) {
    dir + [HOST] in ws.files && dir + [CLIENT] in ws.files
  }

  /** The directories of the manifests whose package declares both faces. */
  function SplitDirectories(ws: Workspace, manifests: seq<Path>): (r: seq<Path>)
    ensures forall dir :: dir in r <==>
      && dir + ["tsconfig.host.json"] in ws.files && dir + ["tsconfig.client.json"] in ws.files
      && exists m :: m in manifests && Dirname(m) == dir
  {
    if manifests == [] then []
    else
      var dir := Dirname(manifests[0]);
      (if IsSplit(ws, dir) then [dir] else []) + SplitDirectories(ws, manifests[1..])
  }

  function SplitRoots(ws: Workspace): seq<Path> {
    Sort(SplitDirectories(ws, ws.manifests), LongerFirst())
  }

  /** Only a relative `extends` is followed. */
  function LocalExtends(config: Path, value: Option<string>): Option<Path> {
    if value.None? || !StartsWith(value.value, ".") then None
    else
      var target := Resolve(Dirname(config), value.value);
      if EndsWith(Basename(target), ".json") then Some(target)
      else Some(Dirname(target) + [Basename(target) + ".json"])
  }

  function ReferencePath(source: Path, reference: string): Path {
    var target := Resolve(Dirname(source), reference);
    if EndsWith(Basename(target), ".json") then target else target + ["tsconfig.json"]
  }

  ghost predicate IsJson(name: string) {
    |name| >= 5 && name[|name| - 5..] == ".json"
  }

  lemma ReferenceAt(source: Path, reference: string, to: Path)
    requires to != [] && Resolve(Dirname(source), reference) == to
    ensures ReferencePath(source, reference) == if IsJson(to[|to| - 1]) then to else to + ["tsconfig.json"]
  {
    hide Resolve;
    assert |".json"| == 5;
  }

  /** A reference names a config file, or a directory with one of the usual name. */
  lemma ReferenceMeans(source: Path, to: Path, k: nat)
    requires to != [] && ProperNames(to) && k <= |Dirname(source)| && k <= |to| && Dirname(source)[..k] == to[..k]
    ensures ReferencePath(source, Printed(Ups(|Dirname(source)| - k) + to[k..]))
      == if IsJson(to[|to| - 1]) then to else to + ["tsconfig.json"]
  {
    hide Resolve, ReferencePath, ProperNames, Printed, IsJson;
    RelativeResolves(Dirname(source), to, k);
    ReferenceAt(source, Printed(Ups(|Dirname(source)| - k) + to[k..]), to);
  }

  /** What `extends` names: a file, with the extension that may be left out, but only from a leading dot on. */
  lemma ExtendsMeans(config: Path, value: string, to: Path)
    requires to != [] && Resolve(Dirname(config), value) == to
    ensures LocalExtends(config, Some(value)).Some? <==> value != "" && value[0] == '.'
    ensures LocalExtends(config, Some(value)).Some? ==>
      LocalExtends(config, Some(value)).value
        == if IsJson(to[|to| - 1]) then to else to[..|to| - 1] + [to[|to| - 1] + ".json"]
  {
    assert value != "" ==> value[..1] == [value[0]];
    assert |".json"| == 5;
  }

  /** The face a config has by its own name. */
  function Named(ws: Workspace, config: Path): (r: Option<Face>)
    ensures r == Some(Host) <==>
      (config != [] && config[|config| - 1] == "tsconfig.host.json") || config == ws.root + ["tsconfig.base.json"]
    ensures r == Some(Client) <==>
      (config != [] && config[|config| - 1] == "tsconfig.client.json") || config == ws.root + ["tsconfig.base.client.json"]
  {
    if Basename(config) == HOST then Some(Host)
    else if Basename(config) == CLIENT then Some(Client)
    else if config == ws.root + ["tsconfig.base.json"] then Some(Host)
    else if config == ws.root + ["tsconfig.base.client.json"] then Some(Client)
    else None
  }

  predicate Readable(ws: Workspace, config: Path) {
    config in ws.files && ws.files[config].Some?
  }

  /** `projectFace`: fails with the first ancestor that does not parse. */
  function ProjectFace(ws: Workspace, config: Path, seen: set<Path>): Result<Option<Face>, Path>
    requires Readable(ws, config)
    decreases ws.files.Keys - seen
  {
    if Named(ws, config).Some? then Ok(Named(ws, config))
    else if config in seen then Ok(None)
    else match LocalExtends(config, ws.files[config].value.base)
      case None => Ok(None)
      case Some(parent) =>
        if parent !in ws.files then Ok(None)
        else if ws.files[parent].None? then Err(parent)
        else
          assert config in ws.files.Keys - seen && config !in ws.files.Keys - (seen + {config});
          ProjectFace(ws, parent, seen + {config})
  }

  function Parent(ws: Workspace, config: Path): Option<Path> {
    if !Readable(ws, config) then None
    else
      var parent := LocalExtends(config, ws.files[config].value.base);
      if parent.Some? && Readable(ws, parent.value) then parent else None
  }

  /** The `k`-th config up the chain of `extends`. */
  function Ancestor(ws: Workspace, config: Path, k: nat): Option<Path>
    decreases k
  {
    if k == 0 then Some(config)
    else
      var parent := Parent(ws, config);
      if parent.None? then None else Ancestor(ws, parent.value, k - 1)
  }

  ghost predicate Unnamed(ws: Workspace, config: Path, k: nat) {
    Ancestor(ws, config, k).Some? && Named(ws, Ancestor(ws, config, k).value).None?
  }

  /** The `k`-th ancestor names the face, and none before it names one. */
  ghost predicate FirstNamed(ws: Workspace, config: Path, k: nat, face: Face) {
    && Ancestor(ws, config, k).Some? && Named(ws, Ancestor(ws, config, k).value) == Some(face)
    && forall j: nat :: j < k ==> Unnamed(ws, config, j)
  }

  lemma {:induction false} AncestorsAdd(ws: Workspace, config: Path, i: nat, m: nat)
    requires Ancestor(ws, config, i).Some?
    ensures Ancestor(ws, config, i + m) == Ancestor(ws, Ancestor(ws, config, i).value, m)
    decreases i
  {
    hide LocalExtends;
    if i > 0 {
      AncestorsAdd(ws, Parent(ws, config).value, i - 1, m);
    }
  }

  /** Before the first named ancestor the chain does not come back to where it started. */
  lemma NoReturn(ws: Workspace, config: Path, k: nat, face: Face, i: nat)
    requires FirstNamed(ws, config, k, face) && 0 < i <= k
    ensures Ancestor(ws, config, i) != Some(config)
  {
    assert Unnamed(ws, config, k - i);
    if Ancestor(ws, config, i) == Some(config) {
      AncestorsAdd(ws, config, i, k - i);
    }
  }

  lemma {:induction false} NamedIsFound(ws: Workspace, config: Path, k: nat, face: Face, seen: set<Path>)
    requires Readable(ws, config) && FirstNamed(ws, config, k, face)
    requires forall j: nat :: j < k && Ancestor(ws, config, j).Some? ==> Ancestor(ws, config, j).value !in seen
    ensures ProjectFace(ws, config, seen) == Ok(Some(face))
    decreases k
  {
    hide LocalExtends, Named;
    if k > 0 {
      assert Unnamed(ws, config, 0) && Ancestor(ws, config, 0).value !in seen;
      var parent := Parent(ws, config).value;
      forall j: nat | j < k - 1 ensures Unnamed(ws, parent, j) && Ancestor(ws, parent, j).value !in seen + {config} {
        assert Unnamed(ws, config, j + 1);
        NoReturn(ws, config, k, face, j + 1);
      }
      NamedIsFound(ws, parent, k - 1, face, seen + {config});
    }
  }

  lemma {:induction false} FoundIsNamed(ws: Workspace, config: Path, face: Face, seen: set<Path>) returns (k: nat)
    requires Readable(ws, config) && ProjectFace(ws, config, seen) == Ok(Some(face))
    ensures FirstNamed(ws, config, k, face)
    decreases ws.files.Keys - seen
  {
    hide LocalExtends, Named;
    if Named(ws, config).Some? {
      k := 0;
    } else {
      var parent := Parent(ws, config).value;
      assert config in ws.files.Keys - seen && config !in ws.files.Keys - (seen + {config});
      var m := FoundIsNamed(ws, parent, face, seen + {config});
      k := m + 1;
      forall j: nat | j < k ensures Unnamed(ws, config, j) {
        if j > 0 {
          assert Unnamed(ws, parent, j - 1);
        }
      }
    }
  }

  /** A config has the face of the nearest ancestor with a face in its name; `extends` may be cyclic. */
  lemma FaceIsFirstNamed(ws: Workspace, config: Path, face: Face)
    requires Readable(ws, config)
    ensures ProjectFace(ws, config, {}) == Ok(Some(face)) <==> exists k: nat :: FirstNamed(ws, config, k, face)
  {
    if ProjectFace(ws, config, {}) == Ok(Some(face)) {
      var k := FoundIsNamed(ws, config, face, {});
      assert FirstNamed(ws, config, k, face);
    }
    if k: nat :| FirstNamed(ws, config, k, face) {
      NamedIsFound(ws, config, k, face, {});
    }
  }

  function Strings(references: seq<Option<string>>): seq<string> {
    if references == [] then []
    else (if references[0].Some? then [references[0].value] else []) + Strings(references[1..])
  }

  lemma StringsFirst(x: Option<string>, rest: seq<Option<string>>)
    ensures Strings([x] + rest) == (if x.Some? then [x.value] else []) + Strings(rest)
  {
    assert ([x] + rest)[1..] == rest;
  }

  lemma Regroup<T>(a: seq<T>, b: seq<T>, c: seq<T>, d: seq<T>, e: seq<T>)
    requires d == a + b && e == a + (b + c)
    ensures d + c == e
  {
  }

  /** Entries without a path are left out; the others keep their order and repetitions. */
  lemma {:induction false} StringsInOrder(a: seq<Option<string>>, b: seq<Option<string>>)
    ensures Strings(a + b) == Strings(a) + Strings(b)
  {
    if a == [] {
      assert a + b == b && Strings(a) == [];
    } else {
      hide Strings;
      var x, rest := a[0], a[1..];
      StringsInOrder(rest, b);
      StringsFirst(x, rest);
      StringsFirst(x, rest + b);
      assert a == [x] + rest && a + b == [x] + (rest + b);
      Regroup(if x.Some? then [x.value] else [], Strings(rest), Strings(b), Strings(a), Strings(a + b));
    }
  }

  /** A path stands for itself, anything else for nothing. */
  lemma StringsOfOne(x: Option<string>)
    ensures Strings([x]) == if x.Some? then [x.value] else []
  {
    StringsFirst(x, []);
  }

  function References(ws: Workspace, config: Path): seq<string> {
    if Readable(ws, config) then Strings(ws.files[config].value.references) else []
  }

  /** A config that parses, and whose face is known without meeting a config that does not. */
  predicate Sound(ws: Workspace, config: Path) {
    Readable(ws, config) && ProjectFace(ws, config, {}).Ok?
  }

  /** What is wrong with one reference entry, if anything. */
  function Verdict(ws: Workspace, config: Path, reference: string): Option<Violation>
    requires Sound(ws, config)
  {
    var target := ReferencePath(config, reference);
    var face := ProjectFace(ws, config, {}).value;
    match FirstContaining(SplitRoots(ws), target)
    case None => None
    case Some(splitRoot) =>
      if face.None? then Some(Violation(config, reference, splitRoot, NoFace))
      else
        var expected := splitRoot + [Leaf(face.value)];
        if target == expected then None
        else Some(Violation(config, reference, splitRoot, WrongLeaf(face.value, expected)))
  }

  /**
   * The rule the check enforces, without its search: a target inside no split package is free, any
   * other target is the leaf of the deepest split package around it that matches the source's face.
   */
  ghost predicate Consistent(ws: Workspace, config: Path, target: Path) {
    forall dir :: dir in SplitDirectories(ws, ws.manifests) && Contains(dir, target) ==>
      InDeeperLeaf(ws, config, target, dir)
  }

  ghost function LeafName(face: Face): string {
    "tsconfig." + (if face == Host then "host" else "client") + ".json"
  }

  lemma LeafNames(face: Face)
    ensures LeafName(face) == Leaf(face)
  {
    assert "tsconfig." + "host" + ".json" == HOST;
    assert "tsconfig." + "client" + ".json" == CLIENT;
  }

  ghost predicate InDeeperLeaf(ws: Workspace, config: Path, target: Path, dir: Path) {
    exists deepest, face, k: nat ::
      && deepest in SplitDirectories(ws, ws.manifests) && Contains(dir, deepest) && Contains(deepest, target)
      && NoDeeper(ws, deepest, target)
      && FirstNamed(ws, config, k, face)
      && target == deepest + [LeafName(face)]
  }

  ghost predicate NoDeeper(ws: Workspace, deepest: Path, target: Path) {
    forall dir :: dir in SplitDirectories(ws, ws.manifests) && Contains(dir, target) ==> Contains(dir, deepest)
  }

  lemma DeepestUnique(ws: Workspace, a: Path, b: Path, target: Path)
    requires a in SplitDirectories(ws, ws.manifests) && Contains(a, target) && NoDeeper(ws, a, target)
    requires b in SplitDirectories(ws, ws.manifests) && Contains(b, target) && NoDeeper(ws, b, target)
    ensures a == b
  {
    assert Contains(a, b) && Contains(b, a);
  }

  /** What a complaint says: the deepest split package, and that the config has no face or which leaf its face has there. */
  lemma VerdictNames(ws: Workspace, config: Path, reference: string)
    requires Sound(ws, config) && Verdict(ws, config, reference).Some?
    ensures var v, target := Verdict(ws, config, reference).value, ReferencePath(config, reference);
      && v.config == config && v.reference == reference
      && v.splitRoot in SplitDirectories(ws, ws.manifests) && Contains(v.splitRoot, target) && NoDeeper(ws, v.splitRoot, target)
      && (v.problem.NoFace? ==> forall face, k: nat :: !FirstNamed(ws, config, k, face))
      && (v.problem.WrongLeaf? ==> exists k: nat :: FirstNamed(ws, config, k, v.problem.face))
      && (v.problem.WrongLeaf? ==> v.problem.expected == v.splitRoot + [LeafName(v.problem.face)])
  {
    hide FirstNamed, ReferencePath, ProjectFace, Named, FirstContaining;
    var target, dirs := ReferencePath(config, reference), SplitDirectories(ws, ws.manifests);
    var found := FirstContaining(SplitRoots(ws), target);
    FoundIsCandidate(dirs, target);
    forall dir | dir in dirs && Contains(dir, target) ensures Contains(dir, found.value) {
      DeepestRoot(dirs, target, dir);
    }
    var face := ProjectFace(ws, config, {}).value;
    if face.Some? {
      LeafNames(face.value);
      FaceIsFirstNamed(ws, config, face.value);
    } else {
      forall f, k: nat ensures !FirstNamed(ws, config, k, f) {
        FaceIsFirstNamed(ws, config, f);
      }
    }
  }

  /** An entry draws no complaint exactly when the rule holds of it. */
  lemma VerdictIsRule(ws: Workspace, config: Path, reference: string)
    requires Sound(ws, config)
    ensures Verdict(ws, config, reference).None? <==> Consistent(ws, config, ReferencePath(config, reference))
  {
    var target := ReferencePath(config, reference);
    var dirs := SplitDirectories(ws, ws.manifests);
    var found := FirstContaining(SplitRoots(ws), target);
    if found.None? {
      forall dir | dir in dirs && Contains(dir, target) ensures false {
        DeepestRoot(dirs, target, dir);
      }
    } else {
      FoundIsCandidate(dirs, target);
      forall dir | dir in dirs && Contains(dir, target) ensures Contains(dir, found.value) {
        DeepestRoot(dirs, target, dir);
      }
      assert NoDeeper(ws, found.value, target);
      VerdictInside(ws, config, reference, found.value);
    }
  }

  lemma VerdictInside(ws: Workspace, config: Path, reference: string, splitRoot: Path)
    requires Sound(ws, config)
    requires var target := ReferencePath(config, reference);
      && FirstContaining(SplitRoots(ws), target) == Some(splitRoot)
      && splitRoot in SplitDirectories(ws, ws.manifests) && Contains(splitRoot, target)
      && NoDeeper(ws, splitRoot, target)
    ensures Verdict(ws, config, reference).None? <==> Consistent(ws, config, ReferencePath(config, reference))
  {
    hide SplitRoots, SplitDirectories, ReferencePath, ProjectFace, Named, FirstContaining;
    var target := ReferencePath(config, reference);
    var face := ProjectFace(ws, config, {}).value;
    if Verdict(ws, config, reference).None? {
      FaceIsFirstNamed(ws, config, face.value);
      LeafNames(face.value);
      var k: nat :| FirstNamed(ws, config, k, face.value);
      forall dir | dir in SplitDirectories(ws, ws.manifests) && Contains(dir, target)
        ensures InDeeperLeaf(ws, config, target, dir)
      {
        assert Contains(dir, splitRoot);
      }
    }
    if Consistent(ws, config, target) {
      assert InDeeperLeaf(ws, config, target, splitRoot);
      var deepest, own, k: nat :|
        && deepest in SplitDirectories(ws, ws.manifests) && Contains(splitRoot, deepest) && Contains(deepest, target)
        && NoDeeper(ws, deepest, target)
        && FirstNamed(ws, config, k, own) && target == deepest + [LeafName(own)];
      LeafNames(own);
      DeepestUnique(ws, deepest, splitRoot, target);
      FaceIsFirstNamed(ws, config, own);
    }
  }
}
