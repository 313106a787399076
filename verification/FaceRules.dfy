module FaceRules {
  // Two rules for project references: the description in scripts/project-reference-faces.ts asks for the leaf
  // of the aggregate from which a config is reached, the code takes the face of the config itself.

  import opened Common
  import opened FaceCheck
  import opened Faces
  import opened Graph
  import opened ProjectPaths
  import opened Text

  ghost predicate LeafOf(ws: Workspace, face: Face, target: Path) {
    exists deepest ::
      && deepest in SplitDirectories(ws, ws.manifests) && Contains(deepest, target) && NoDeeper(ws, deepest, target)
      && target == deepest + [LeafName(face)]
  }

  predicate IntoSplit(ws: Workspace, target: Path) {
    exists dir :: dir in SplitDirectories(ws, ws.manifests) && Contains(dir, target)
  }

  ghost predicate ReachedFrom(ws: Workspace, face: Face, config: Path) {
    config in ws.files && Reachable(FullGraph(ws), ws.root + [Leaf(face)], config)
  }

  /** What the code enforces when it reports nothing. */
  ghost predicate Enforced(ws: Workspace) {
    forall face, c :: ReachedFrom(ws, face, c) ==> EntriesConsistent(ws, c)
  }

  /** What the description asks for. */
  ghost predicate Documented(ws: Workspace) {
    forall face, c :: ReachedFrom(ws, face, c) ==> EntriesOfFace(ws, face, c)
  }

  ghost predicate EntriesOfFace(ws: Workspace, face: Face, config: Path) {
    forall r :: r in References(ws, config) && IntoSplit(ws, ReferencePath(config, r)) ==> LeafOf(ws, face, ReferencePath(config, r))
  }

  ghost predicate HasFace(ws: Workspace, config: Path, face: Face) {
    exists k: nat :: FirstNamed(ws, config, k, face)
  }

  predicate EntersSplit(ws: Workspace, config: Path) {
    exists r :: r in References(ws, config) && IntoSplit(ws, ReferencePath(config, r))
  }

  /** A config that refers into a split package has the face of each aggregate it is reached from. */
  ghost predicate FaceKept(ws: Workspace) {
    forall face, c :: ReachedFrom(ws, face, c) && EntersSplit(ws, c) ==> HasFace(ws, c, face)
  }

  lemma OneFace(ws: Workspace, config: Path, a: Face, b: Face)
    requires HasFace(ws, config, a) && HasFace(ws, config, b)
    ensures a == b
  {
    hide Ancestor, Named;
    var i: nat :| FirstNamed(ws, config, i, a);
    var j: nat :| FirstNamed(ws, config, j, b);
    assert i < j ==> Unnamed(ws, config, i);
    assert j < i ==> Unnamed(ws, config, j);
  }

  lemma OneLeaf(ws: Workspace, a: Face, b: Face, target: Path)
    requires LeafOf(ws, a, target) && LeafOf(ws, b, target)
    ensures a == b
  {
    hide SplitDirectories, LeafName, Leaf;
    assert target[|target| - 1] == LeafName(a) == LeafName(b);
    LeafNames(a);
    LeafNames(b);
    LeavesDiffer(a, b);
  }

  lemma LeavesDiffer(a: Face, b: Face)
    ensures Leaf(a) == Leaf(b) ==> a == b
  {
    assert HOST[9] == 'h' && CLIENT[9] == 'c';
  }

  /** The enforced rule is the leaf of the config's own face. */
  lemma ConsistentIsLeaf(ws: Workspace, config: Path, target: Path)
    requires IntoSplit(ws, target)
    ensures Consistent(ws, config, target) <==> exists face :: HasFace(ws, config, face) && LeafOf(ws, face, target)
  {
    hide SplitDirectories, FirstNamed, LeafName;
    if Consistent(ws, config, target) {
      var dir :| dir in SplitDirectories(ws, ws.manifests) && Contains(dir, target);
      assert InDeeperLeaf(ws, config, target, dir);
      var deepest, face, k: nat :|
        && deepest in SplitDirectories(ws, ws.manifests) && Contains(dir, deepest) && Contains(deepest, target)
        && NoDeeper(ws, deepest, target)
        && FirstNamed(ws, config, k, face) && target == deepest + [LeafName(face)];
      assert HasFace(ws, config, face) && LeafOf(ws, face, target);
    }
    if face :| HasFace(ws, config, face) && LeafOf(ws, face, target) {
      var k: nat :| FirstNamed(ws, config, k, face);
      var deepest :|
        && deepest in SplitDirectories(ws, ws.manifests) && Contains(deepest, target) && NoDeeper(ws, deepest, target)
        && target == deepest + [LeafName(face)];
      forall dir | dir in SplitDirectories(ws, ws.manifests) && Contains(dir, target) ensures InDeeperLeaf(ws, config, target, dir) {
        assert Contains(dir, deepest);
      }
    }
  }

  lemma EntriesAgree(ws: Workspace, face: Face, config: Path)
    ensures EntersSplit(ws, config) ==> HasFace(ws, config, face) ==>
      (EntriesConsistent(ws, config) <==> EntriesOfFace(ws, face, config))
    ensures !EntersSplit(ws, config) ==> EntriesConsistent(ws, config) && EntriesOfFace(ws, face, config)
    ensures EntersSplit(ws, config) && EntriesConsistent(ws, config) && EntriesOfFace(ws, face, config) ==>
      HasFace(ws, config, face)
  {
    hide HasFace, LeafOf, References, ReferencePath, SplitDirectories, InDeeperLeaf;
    forall r | r in References(ws, config) && IntoSplit(ws, ReferencePath(config, r))
      ensures HasFace(ws, config, face) ==>
        (Consistent(ws, config, ReferencePath(config, r)) <==> LeafOf(ws, face, ReferencePath(config, r)))
      ensures Consistent(ws, config, ReferencePath(config, r)) && LeafOf(ws, face, ReferencePath(config, r)) ==>
        HasFace(ws, config, face)
    {
      EntryAgrees(ws, face, config, ReferencePath(config, r));
    }
  }

  lemma EntryAgrees(ws: Workspace, face: Face, config: Path, target: Path)
    requires IntoSplit(ws, target)
    ensures HasFace(ws, config, face) ==> (Consistent(ws, config, target) <==> LeafOf(ws, face, target))
    ensures Consistent(ws, config, target) && LeafOf(ws, face, target) ==> HasFace(ws, config, face)
  {
    hide HasFace, LeafOf, Consistent;
    ConsistentIsLeaf(ws, config, target);
    if Consistent(ws, config, target) {
      var own :| HasFace(ws, config, own) && LeafOf(ws, own, target);
      if HasFace(ws, config, face) {
        OneFace(ws, config, own, face);
      }
      if LeafOf(ws, face, target) {
        OneLeaf(ws, own, face, target);
      }
    }
  }

  /** With the face kept both rules are the same; and where both hold, the face is kept. */
  lemma RulesAgree(ws: Workspace)
    ensures FaceKept(ws) ==> (Enforced(ws) <==> Documented(ws))
    ensures Enforced(ws) && Documented(ws) ==> FaceKept(ws)
  {
    hide HasFace, EntersSplit, EntriesConsistent, EntriesOfFace, ReachedFrom;
    forall face, c | ReachedFrom(ws, face, c)
      ensures EntersSplit(ws, c) && HasFace(ws, c, face) ==> (EntriesConsistent(ws, c) <==> EntriesOfFace(ws, face, c))
      ensures !EntersSplit(ws, c) ==> EntriesConsistent(ws, c) && EntriesOfFace(ws, face, c)
      ensures EntersSplit(ws, c) && EntriesConsistent(ws, c) && EntriesOfFace(ws, face, c) ==> HasFace(ws, c, face)
    {
      EntriesAgree(ws, face, c);
    }
  }

  /** An empty report meets the description exactly when the face is kept. */
  lemma CleanReport(ws: Workspace)
    requires forall c :: c in ws.files && FromAggregate(ws, FullGraph(ws), c) ==> Sound(ws, c) && EntriesConsistent(ws, c)
    ensures Documented(ws) <==> FaceKept(ws)
  {
    hide Sound, EntriesConsistent, FullGraph, Documented, FaceKept;
    forall face, c | ReachedFrom(ws, face, c) ensures EntriesConsistent(ws, c) {
      assert Leaf(face) in AGGREGATES;
      assert FromAggregate(ws, FullGraph(ws), c);
    }
    RulesAgree(ws);
  }

  // A repository in which the host aggregate refers to the client aggregate, and that to the client leaf of a
  // split package: nothing is reported, although the walk from the host aggregate enters a client leaf.

  const HOST_AGGREGATE: Path := ["r", HOST]
  const CLIENT_AGGREGATE: Path := ["r", CLIENT]
  const SPLIT: Path := ["r", "p"]

  function Crossing(): Workspace {
    Workspace(
      ["r"],
      map[HOST_AGGREGATE := Some(Config(None, [Some(CLIENT)])),
          CLIENT_AGGREGATE := Some(Config(None, [Some("p/" + CLIENT)])),
          SPLIT + [HOST] := Some(Config(None, [])),
          SPLIT + [CLIENT] := Some(Config(None, []))],
      [["r", "p", "package.json"]])
  }

  lemma JsonTarget(source: Path, reference: string, target: Path)
    requires !StartsWith(reference, "/") && Walk(Dirname(source), Segments(reference)) == target
    requires target != [] && EndsWith(target[|target| - 1], ".json")
    ensures ReferencePath(source, reference) == target
  {
  }

  lemma ClientName()
    ensures EndsWith(CLIENT, ".json") && !StartsWith(CLIENT, "/") && !StartsWith("p/" + CLIENT, "/")
    ensures '/' !in CLIENT && CLIENT != "" && CLIENT != "." && CLIENT != ".."
  {
    assert CLIENT[0] == 't' && ("p/" + CLIENT)[0] == 'p';
  }

  lemma ClientBeside(source: Path)
    ensures ReferencePath(source, CLIENT) == Dirname(source) + [CLIENT]
  {
    ClientName();
    hide Segments, EndsWith, StartsWith, ReferencePath, CLIENT;
    var d := Dirname(source);
    PlainSegment(CLIENT);
    WalkDown(d, CLIENT, []);
    assert [CLIENT] + [] == [CLIENT];
    JsonTarget(source, CLIENT, d + [CLIENT]);
  }

  lemma ClientInside(source: Path)
    ensures ReferencePath(source, "p/" + CLIENT) == Dirname(source) + ["p", CLIENT]
  {
    ClientName();
    hide Segments, EndsWith, StartsWith, ReferencePath, CLIENT;
    var d := Dirname(source);
    PlainSegment(CLIENT);
    FirstSegment("p", CLIENT);
    assert "p" + "/" + CLIENT == "p/" + CLIENT;
    WalkDown(d, "p", [CLIENT]);
    WalkDown(d + ["p"], CLIENT, []);
    assert [CLIENT] + [] == [CLIENT];
    hide Walk;
    assert (d + ["p"]) + [CLIENT] == d + ["p", CLIENT];
    JsonTarget(source, "p/" + CLIENT, d + ["p", CLIENT]);
  }

  lemma CrossingSplit()
    ensures var ws := Crossing(); SplitDirectories(ws, ws.manifests) == [SPLIT]
  {
    var ws := Crossing();
    assert Dirname(ws.manifests[0]) == SPLIT && ws.manifests[1..] == [];
    assert IsSplit(ws, SPLIT);
    assert SplitDirectories(ws, []) == [];
  }

  lemma OneString(s: string)
    ensures Strings([Some(s)]) == [s]
  {
    assert [Some(s)][1..] == [] && [s] + [] == [s];
    assert Strings([]) == [];
  }

  lemma CrossingReferences(c: Path)
    requires c in Crossing().files
    ensures Sound(Crossing(), c) && HasFace(Crossing(), c, if c[|c| - 1] == HOST then Host else Client)
    ensures c == HOST_AGGREGATE ==> References(Crossing(), c) == [CLIENT]
    ensures c == CLIENT_AGGREGATE ==> References(Crossing(), c) == ["p/" + CLIENT]
    ensures c != HOST_AGGREGATE && c != CLIENT_AGGREGATE ==> References(Crossing(), c) == []
  {
    var ws := Crossing();
    LeavesDiffer(Host, Client);
    OneString(CLIENT);
    OneString("p/" + CLIENT);
    var face := if c[|c| - 1] == HOST then Host else Client;
    assert Named(ws, c) == Some(face);
    assert Ancestor(ws, c, 0) == Some(c) && FirstNamed(ws, c, 0, face);
  }

  /** The workspace, as far as the argument needs it: `a` refers to `b`, which refers to the client leaf in `dir`. */
  ghost predicate Crosses(ws: Workspace, a: Path, b: Path, dir: Path, toB: string, toLeaf: string) {
    && a == ws.root + [Leaf(Host)] && b in ws.files && a in ws.files && HasFace(ws, b, Client)
    && SplitDirectories(ws, ws.manifests) == [dir] && !Contains(dir, b)
    && (forall c :: c in ws.files ==> Sound(ws, c))
    && (forall c :: c in ws.files && c != a && c != b ==> References(ws, c) == [])
    && References(ws, a) == [toB] && ReferencePath(a, toB) == b
    && References(ws, b) == [toLeaf] && ReferencePath(b, toLeaf) == dir + [Leaf(Client)]
  }

  lemma InSplit(ws: Workspace, dir: Path, face: Face)
    requires SplitDirectories(ws, ws.manifests) == [dir]
    ensures LeafOf(ws, face, dir + [Leaf(face)])
    ensures forall target :: IntoSplit(ws, target) <==> Contains(dir, target)
  {
    LeafNames(face);
    assert dir in SplitDirectories(ws, ws.manifests);
    hide SplitDirectories, Leaf;
    assert Contains(dir, dir + [Leaf(face)]) && Contains(dir, dir);
  }

  lemma OneEntry(ws: Workspace, config: Path, references: seq<string>)
    requires References(ws, config) == references && |references| <= 1
    requires references != [] ==> Consistent(ws, config, ReferencePath(config, references[0]))
    ensures EntriesConsistent(ws, config)
  {
    hide References, Consistent, ReferencePath;
  }

  lemma CrossingEntries(ws: Workspace, a: Path, b: Path, dir: Path, toB: string, toLeaf: string, c: Path)
    requires Crosses(ws, a, b, dir, toB, toLeaf) && c in ws.files
    ensures EntriesConsistent(ws, c)
  {
    InSplit(ws, dir, Client);
    FreeIsConsistent(ws, a, b);
    hide SplitDirectories, References, ReferencePath, HasFace, LeafOf, Sound, Consistent, IntoSplit, Leaf, EntriesConsistent;
    if c == b {
      assert Contains(dir, dir + [Leaf(Client)]);
      ConsistentIsLeaf(ws, c, dir + [Leaf(Client)]);
      OneEntry(ws, c, [toLeaf]);
    } else if c == a {
      OneEntry(ws, c, [toB]);
    } else {
      OneEntry(ws, c, []);
    }
  }

  lemma FreeIsConsistent(ws: Workspace, config: Path, target: Path)
    ensures IntoSplit(ws, target) || Consistent(ws, config, target)
  {
    hide SplitDirectories, InDeeperLeaf;
  }

  lemma CrossingReached(ws: Workspace, a: Path, b: Path, dir: Path, toB: string, toLeaf: string)
    requires Crosses(ws, a, b, dir, toB, toLeaf)
    ensures ReachedFrom(ws, Host, b)
  {
    hide SplitDirectories, References, ReferencePath, HasFace, Sound, Reachable, Leaf;
    ReachSelf(FullGraph(ws), a);
    assert Targets(a, [toB])[0] == b;
    assert Edge(FullGraph(ws), a, b);
    ReachStep(FullGraph(ws), a, a, b);
  }

  /** Nothing is reported, yet a client leaf is entered on a walk from the host aggregate. */
  lemma CrossingPasses(ws: Workspace, a: Path, b: Path, dir: Path, toB: string, toLeaf: string)
    requires Crosses(ws, a, b, dir, toB, toLeaf)
    ensures forall c :: c in ws.files && FromAggregate(ws, FullGraph(ws), c) ==> Sound(ws, c) && EntriesConsistent(ws, c)
    ensures !Documented(ws)
  {
    forall c | c in ws.files ensures EntriesConsistent(ws, c) {
      CrossingEntries(ws, a, b, dir, toB, toLeaf, c);
    }
    CrossingReached(ws, a, b, dir, toB, toLeaf);
    InSplit(ws, dir, Client);
    hide LeafOf, IntoSplit, Sound, EntriesConsistent, ReachedFrom, References, ReferencePath, SplitDirectories, Leaf, HasFace, FullGraph;
    if Documented(ws) {
      assert EntriesOfFace(ws, Host, b);
      assert Contains(dir, dir + [Leaf(Client)]) && toLeaf in References(ws, b);
      OneLeaf(ws, Host, Client, dir + [Leaf(Client)]);
    }
  }

  lemma CrossingFiles(ws: Workspace)
    requires ws == Crossing()
    ensures forall c :: c in ws.files ==> Sound(ws, c)
    ensures forall c :: c in ws.files && c != HOST_AGGREGATE && c != CLIENT_AGGREGATE ==> References(ws, c) == []
  {
    hide Sound, References;
    forall c | c in ws.files
      ensures Sound(ws, c) && (c != HOST_AGGREGATE && c != CLIENT_AGGREGATE ==> References(ws, c) == [])
    {
      CrossingReferences(c);
    }
  }

  lemma BesideIsOutside()
    ensures !Contains(SPLIT, CLIENT_AGGREGATE)
  {
    assert CLIENT[0] == 't' && "p"[0] == 'p';
    assert CLIENT_AGGREGATE[..2][1] == CLIENT && SPLIT[1] == "p";
  }

  lemma CrossingCrosses(ws: Workspace)
    requires ws == Crossing()
    ensures Crosses(ws, HOST_AGGREGATE, CLIENT_AGGREGATE, SPLIT, CLIENT, "p/" + CLIENT)
  {
    hide Segments, ReferencePath, SplitDirectories, References, Sound, HasFace, FullGraph, Contains, Named, LeafName;
    CrossingSplit();
    CrossingFiles(ws);
    BesideIsOutside();
    LeavesDiffer(Host, Client);
    ClientNotHost();
    assert HOST_AGGREGATE in ws.files && CLIENT_AGGREGATE in ws.files;
    assert ws.root + [HOST] == HOST_AGGREGATE && Dirname(HOST_AGGREGATE) == ["r"] == Dirname(CLIENT_AGGREGATE);
    assert ["r"] + [CLIENT] == CLIENT_AGGREGATE && ["r"] + ["p", CLIENT] == SPLIT + [CLIENT];
    ClientBeside(HOST_AGGREGATE);
    ClientInside(CLIENT_AGGREGATE);
    CrossingReferences(HOST_AGGREGATE);
    CrossingReferences(CLIENT_AGGREGATE);
  }

  lemma ClientNotHost()
    ensures CLIENT != HOST && CLIENT_AGGREGATE != HOST_AGGREGATE
  {
    LeavesDiffer(Host, Client);
    assert CLIENT_AGGREGATE[1] == CLIENT && HOST_AGGREGATE[1] == HOST;
  }

  /** A concrete repository of that kind. */
  lemma ClientLeafUnderHost(ws: Workspace)
    requires ws == Crossing()
    ensures forall c :: c in ws.files && FromAggregate(ws, FullGraph(ws), c) ==> Sound(ws, c) && EntriesConsistent(ws, c)
    ensures !Documented(ws)
  {
    CrossingCrosses(ws);
    hide Sound, EntriesConsistent, FullGraph, Documented, Crosses, Crossing;
    CrossingPasses(ws, HOST_AGGREGATE, CLIENT_AGGREGATE, SPLIT, CLIENT, "p/" + CLIENT);
  }
}
