/** The search of scripts/project-reference-faces.ts: inconsistent references are reported and not followed. */
module FaceCheck {
  import opened Common
  import opened Faces
  import opened Graph
  import opened ProjectPaths

  function Targets(config: Path, references: seq<string>): seq<Path> {
    seq(|references|, i requires 0 <= i < |references| => ReferencePath(config, references[i]))
  }

  /** Every project reference of every config that exists and parses, consistent or not. */
  ghost function FullGraph(ws: Workspace): Graph<Path> {
    map config | config in ws.files :: Targets(config, References(ws, config))
  }

  predicate Followed(ws: Workspace, config: Path, reference: string) {
    Sound(ws, config) && Verdict(ws, config, reference).None?
  }

  /** The targets the search goes on to: those of references without a complaint. */
  function GoodTargets(ws: Workspace, config: Path, references: seq<string>): seq<Path> {
    if references == [] then []
    else
      var last := references[|references| - 1];
      GoodTargets(ws, config, references[..|references| - 1])
      + if Followed(ws, config, last) then [ReferencePath(config, last)] else []
  }

  ghost function FollowedGraph(ws: Workspace): Graph<Path> {
    map config | config in ws.files :: GoodTargets(ws, config, References(ws, config))
  }

  /** The complaints about the entries of one config, in order: an entry that stands twice draws two. */
  function Complaints(ws: Workspace, config: Path, references: seq<string>): seq<Violation>
    requires Sound(ws, config)
  {
    if references == [] then []
    else
      var last := references[|references| - 1];
      Complaints(ws, config, references[..|references| - 1])
      + match Verdict(ws, config, last)
        case None => []
        case Some(violation) => [violation]
  }

  ghost predicate AllSound(ws: Workspace, configs: seq<Path>) {
    forall i :: 0 <= i < |configs| ==> Sound(ws, configs[i])
  }

  ghost function AllComplaints(ws: Workspace, configs: seq<Path>): seq<Violation>
    requires AllSound(ws, configs)
  {
    if configs == [] then []
    else
      var last := configs[|configs| - 1];
      AllComplaints(ws, configs[..|configs| - 1]) + Complaints(ws, last, References(ws, last))
  }

  const AGGREGATES := [HOST, CLIENT]

  ghost predicate FromAggregate(ws: Workspace, g: Graph<Path>, config: Path) {
    exists a :: a in AGGREGATES && Reachable(g, ws.root + [a], config)
  }

  /** No reference of the config, wherever it leads, breaks the rule. */
  ghost predicate EntriesConsistent(ws: Workspace, config: Path) {
    forall reference :: reference in References(ws, config) ==> Consistent(ws, config, ReferencePath(config, reference))
  }

  lemma {:induction false} GoodTargetsMembers(ws: Workspace, config: Path, references: seq<string>, target: Path)
    ensures target in GoodTargets(ws, config, references)
      <==> exists r :: r in references && Followed(ws, config, r) && ReferencePath(config, r) == target
  {
    hide Followed, ReferencePath;
    if references != [] {
      var front, last := references[..|references| - 1], references[|references| - 1];
      GoodTargetsMembers(ws, config, front, target);
      assert references == front + [last];
    }
  }

  lemma {:induction false} ComplaintsMembers(ws: Workspace, config: Path, references: seq<string>)
    requires Sound(ws, config)
    ensures Complaints(ws, config, references) == []
      <==> forall r :: r in references ==> Verdict(ws, config, r).None?
  {
    hide Verdict, Sound;
    if references != [] {
      var front, last := references[..|references| - 1], references[|references| - 1];
      ComplaintsMembers(ws, config, front);
      assert references == front + [last];
      assert last in references;
    }
  }

  lemma {:induction false} AllComplaintsMembers(ws: Workspace, configs: seq<Path>)
    requires AllSound(ws, configs)
    ensures AllComplaints(ws, configs) == []
      <==> forall c :: c in configs ==> EntriesConsistent(ws, c)
  {
    hide Sound, Verdict, Consistent, References, Complaints, ReferencePath;
    if configs != [] {
      var front, last := configs[..|configs| - 1], configs[|configs| - 1];
      AllComplaintsMembers(ws, front);
      assert configs == front + [last];
      assert Sound(ws, configs[|configs| - 1]);
      assert last in configs;
      ComplaintsMembers(ws, last, References(ws, last));
      forall r | r in References(ws, last)
        ensures Verdict(ws, last, r).None? <==> Consistent(ws, last, ReferencePath(last, r))
      {
        VerdictIsRule(ws, last, r);
      }
    }
  }

  lemma FollowedIsEdge(ws: Workspace, config: Path, target: Path)
    requires Edge(FollowedGraph(ws), config, target)
    ensures Edge(FullGraph(ws), config, target)
  {
    hide Followed, ReferencePath, References;
    GoodTargetsMembers(ws, config, References(ws, config), target);
    var refs := References(ws, config);
    var r :| r in refs && Followed(ws, config, r) && ReferencePath(config, r) == target;
    var i :| 0 <= i < |refs| && refs[i] == r;
    assert Targets(config, refs)[i] == target;
  }

  lemma ConsistentIsFollowed(ws: Workspace, config: Path, target: Path)
    requires Sound(ws, config) && EntriesConsistent(ws, config)
    requires Edge(FullGraph(ws), config, target)
    ensures Edge(FollowedGraph(ws), config, target)
  {
    hide Verdict, ReferencePath, References, Consistent;
    var refs := References(ws, config);
    var i :| 0 <= i < |refs| && Targets(config, refs)[i] == target;
    VerdictIsRule(ws, config, refs[i]);
    assert Consistent(ws, config, ReferencePath(config, refs[i])) by {
      assert refs[i] in refs;
    }
    assert Followed(ws, config, refs[i]);
    GoodTargetsMembers(ws, config, refs, target);
  }

  /** Every config the search reaches and reads has only consistent references. */
  ghost predicate SearchIsClean(ws: Workspace) {
    forall c :: c in ws.files && FromAggregate(ws, FollowedGraph(ws), c) ==> Sound(ws, c) && EntriesConsistent(ws, c)
  }

  lemma EdgeExists(ws: Workspace, from: Path, target: Path)
    requires Edge(FullGraph(ws), from, target)
    ensures from in ws.files
  {
  }

  /** A walk over all references from an aggregate has a first bad edge, and the search reaches its source. */
  lemma {:induction false} FirstBadEdge(ws: Workspace, p: seq<Path>, a: string)
    requires SearchIsClean(ws) && a in AGGREGATES && p != [] && PathBetween(FullGraph(ws), p, ws.root + [a], p[|p| - 1])
    ensures FromAggregate(ws, FollowedGraph(ws), p[|p| - 1])
  {
    hide Sound, References, EntriesConsistent, FollowedGraph, FullGraph;
    if |p| == 1 {
      ReachSelf(FollowedGraph(ws), ws.root + [a]);
    } else {
      var front, from, target := p[..|p| - 1], p[|p| - 2], p[|p| - 1];
      assert Edge(FullGraph(ws), p[|p| - 2], p[|p| - 1]);
      assert PathBetween(FullGraph(ws), front, ws.root + [a], front[|front| - 1]) by {
        forall i | 0 <= i < |front| - 1 ensures Edge(FullGraph(ws), front[i], front[i + 1]) {
          assert front[i] == p[i] && front[i + 1] == p[i + 1];
        }
      }
      FirstBadEdge(ws, front, a);
      assert from in ws.files by {
        EdgeExists(ws, from, target);
      }
      ConsistentIsFollowed(ws, from, target);
      var b :| b in AGGREGATES && Reachable(FollowedGraph(ws), ws.root + [b], from);
      ReachStep(FollowedGraph(ws), ws.root + [b], from, target);
    }
  }

  /** Skipping inconsistent references loses nothing: the search is clean exactly when everything reachable is. */
  lemma CleanSearchIsEnough(ws: Workspace)
    ensures SearchIsClean(ws)
      <==> forall c :: c in ws.files && FromAggregate(ws, FullGraph(ws), c) ==> Sound(ws, c) && EntriesConsistent(ws, c)
  {
    hide Sound, References, EntriesConsistent, FollowedGraph, FullGraph;
    forall c | FromAggregate(ws, FollowedGraph(ws), c) ensures FromAggregate(ws, FullGraph(ws), c) {
      SearchStaysInside(ws, c);
    }
    if SearchIsClean(ws) {
      forall c | FromAggregate(ws, FullGraph(ws), c) ensures FromAggregate(ws, FollowedGraph(ws), c) {
        var a :| a in AGGREGATES && Reachable(FullGraph(ws), ws.root + [a], c);
        var p :| PathBetween(FullGraph(ws), p, ws.root + [a], c);
        FirstBadEdge(ws, p, a);
      }
    }
  }

  lemma SearchStaysInside(ws: Workspace, c: Path)
    requires FromAggregate(ws, FollowedGraph(ws), c)
    ensures FromAggregate(ws, FullGraph(ws), c)
  {
    hide FollowedGraph, FullGraph;
    var a :| a in AGGREGATES && Reachable(FollowedGraph(ws), ws.root + [a], c);
    var p :| PathBetween(FollowedGraph(ws), p, ws.root + [a], c);
    forall i | 0 <= i < |p| - 1 ensures Edge(FullGraph(ws), p[i], p[i + 1]) {
      assert Edge(FollowedGraph(ws), p[i], p[i + 1]);
      FollowedIsEdge(ws, p[i], p[i + 1]);
    }
    assert PathBetween(FullGraph(ws), p, ws.root + [a], c);
  }

  ghost predicate Covered(ws: Workspace, config: Path, visited: set<Path>, pending: seq<Path>) {
    config in visited || config in pending || config !in ws.files
  }

  /** What holds between two configs of the search. */
  ghost predicate Searching(ws: Workspace, order: seq<Path>, visited: set<Path>, pending: seq<Path>) {
    && Distinct(order) && (forall c :: c in order <==> c in visited)
    && (forall c :: c in visited ==> c in ws.files && Sound(ws, c))
    && (forall c :: c in visited || c in pending ==> FromAggregate(ws, FollowedGraph(ws), c))
    && (forall a :: a in AGGREGATES ==> Covered(ws, ws.root + [a], visited, pending))
    && (forall c, t :: c in visited && Edge(FollowedGraph(ws), c, t) ==> Covered(ws, t, visited, pending))
  }

  /** When nothing is pending, the search has visited everything it can reach. */
  lemma {:induction false} NothingMissed(ws: Workspace, order: seq<Path>, visited: set<Path>, p: seq<Path>, a: string)
    requires Searching(ws, order, visited, []) && a in AGGREGATES && p != []
    requires PathBetween(FollowedGraph(ws), p, ws.root + [a], p[|p| - 1]) && p[|p| - 1] in ws.files
    ensures p[|p| - 1] in visited
  {
    hide FollowedGraph, Sound, FromAggregate;
    if |p| == 1 {
      assert Covered(ws, ws.root + [a], visited, []);
    } else {
      var front, from, target := p[..|p| - 1], p[|p| - 2], p[|p| - 1];
      assert Edge(FollowedGraph(ws), p[|p| - 2], p[|p| - 1]);
      assert PathBetween(FollowedGraph(ws), front, ws.root + [a], front[|front| - 1]) by {
        forall i | 0 <= i < |front| - 1 ensures Edge(FollowedGraph(ws), front[i], front[i + 1]) {
          assert front[i] == p[i] && front[i + 1] == p[i + 1];
        }
      }
      FollowedIsEdge(ws, from, target);
      EdgeExists(ws, from, target);
      NothingMissed(ws, order, visited, front, a);
      assert Covered(ws, target, visited, []);
    }
  }

  /** A config is pushed onto the stack: everything covered stays covered. */
  lemma VisitKeeps(ws: Workspace, order: seq<Path>, visited: set<Path>, pending: seq<Path>, config: Path)
    requires Searching(ws, order, visited, pending + [config]) && config !in visited && Sound(ws, config)
    ensures Searching(ws, order + [config], visited + {config}, pending + GoodTargets(ws, config, References(ws, config)))
  {
    hide FollowedGraph, GoodTargets, References, Sound;
    var good := GoodTargets(ws, config, References(ws, config));
    forall c | c in visited + {config} || c in pending + good ensures FromAggregate(ws, FollowedGraph(ws), c) {
      assert config in pending + [config];
      if c in good && c !in visited && c !in pending {
        FollowedStep(ws, config, c);
      } else if c != config {
        assert c in visited || c in pending + [config];
      }
    }
    assert forall c :: c in pending + [config] ==> c in pending || c == config;
    forall a | a in AGGREGATES ensures Covered(ws, ws.root + [a], visited + {config}, pending + good) {
      assert Covered(ws, ws.root + [a], visited, pending + [config]);
    }
    forall c, t | c in visited + {config} && Edge(FollowedGraph(ws), c, t)
      ensures Covered(ws, t, visited + {config}, pending + good)
    {
      if c == config {
        FollowedEdgeIs(ws, config, t);
      } else {
        assert Covered(ws, t, visited, pending + [config]);
      }
    }
    SoundExists(ws, config);
  }

  lemma SoundExists(ws: Workspace, config: Path)
    requires Sound(ws, config)
    ensures config in ws.files
  {
  }

  lemma FollowedEdgeIs(ws: Workspace, config: Path, target: Path)
    requires Sound(ws, config)
    ensures Edge(FollowedGraph(ws), config, target) <==> target in GoodTargets(ws, config, References(ws, config))
  {
  }

  lemma FollowedStep(ws: Workspace, config: Path, target: Path)
    requires Sound(ws, config) && FromAggregate(ws, FollowedGraph(ws), config)
    requires target in GoodTargets(ws, config, References(ws, config))
    ensures FromAggregate(ws, FollowedGraph(ws), target)
  {
    FollowedEdgeIs(ws, config, target);
    hide FollowedGraph, GoodTargets, Sound;
    var a :| a in AGGREGATES && Reachable(FollowedGraph(ws), ws.root + [a], config);
    ReachStep(FollowedGraph(ws), ws.root + [a], config, target);
  }

  lemma SkipKeeps(ws: Workspace, order: seq<Path>, visited: set<Path>, pending: seq<Path>, config: Path)
    requires Searching(ws, order, visited, pending + [config]) && (config in visited || config !in ws.files)
    ensures Searching(ws, order, visited, pending)
  {
    hide FollowedGraph, Sound, FromAggregate;
    assert forall c :: c in pending ==> c in pending + [config];
    assert forall c :: c in pending + [config] ==> c in pending || c == config;
    forall a | a in AGGREGATES ensures Covered(ws, ws.root + [a], visited, pending) {
      assert Covered(ws, ws.root + [a], visited, pending + [config]);
    }
    forall c, t | c in visited && Edge(FollowedGraph(ws), c, t) ensures Covered(ws, t, visited, pending) {
      assert Covered(ws, t, visited, pending + [config]);
    }
  }

  /** The search is finished: what was visited is everything it can reach, each config once. */
  ghost predicate Finished(ws: Workspace, order: seq<Path>) {
    && Distinct(order) && AllSound(ws, order)
    && forall c :: c in order <==> c in ws.files && FromAggregate(ws, FollowedGraph(ws), c)
  }

  lemma DoneIsFinished(ws: Workspace, order: seq<Path>, visited: set<Path>)
    requires Searching(ws, order, visited, [])
    ensures Finished(ws, order)
  {
    hide FollowedGraph, Sound;
    forall c | c in ws.files && FromAggregate(ws, FollowedGraph(ws), c) ensures c in visited {
      var a :| a in AGGREGATES && Reachable(FollowedGraph(ws), ws.root + [a], c);
      var p :| PathBetween(FollowedGraph(ws), p, ws.root + [a], c);
      NothingMissed(ws, order, visited, p, a);
    }
    forall i | 0 <= i < |order| ensures Sound(ws, order[i]) {
      assert order[i] in order;
    }
  }

  /** The main result: no complaint exactly when no reference reachable over all references breaks the rule. */
  lemma NoViolationsMeansConsistent(ws: Workspace, order: seq<Path>)
    requires Finished(ws, order)
    ensures AllComplaints(ws, order) == []
      <==> forall c :: c in ws.files && FromAggregate(ws, FullGraph(ws), c) ==> Sound(ws, c) && EntriesConsistent(ws, c)
  {
    hide FollowedGraph, FullGraph, EntriesConsistent, AllComplaints, Sound;
    AllComplaintsMembers(ws, order);
    forall c | c in order ensures Sound(ws, c) {
      var i :| 0 <= i < |order| && order[i] == c;
      assert Sound(ws, order[i]);
    }
    CleanSearchIsEnough(ws);
  }

  /**
   * `collectProjectReferenceFaceViolations`, up to the final sort of the diagnostics. It fails only
   * on a config in reach that does not parse, or whose chain of `extends` meets one that does not.
   */
  method CollectViolations(ws: Workspace) returns (r: Result<seq<Violation>, Path>, ghost order: seq<Path>)
    ensures r.Ok? ==> Finished(ws, order) && r.value == AllComplaints(ws, order)
    ensures r.Ok? ==> (r.value == [] <==>
      forall c :: c in ws.files && FromAggregate(ws, FullGraph(ws), c) ==> Sound(ws, c) && EntriesConsistent(ws, c))
    ensures r.Err? ==> r.error in ws.files && FromAggregate(ws, FollowedGraph(ws), r.error) && !Sound(ws, r.error)
  {
    hide Sound, GoodTargets, Complaints, References, FollowedGraph, FullGraph, Verdict, EntriesConsistent;
    var violations: seq<Violation> := [];
    var pending := [ws.root + [HOST], ws.root + [CLIENT]];
    var visited: set<Path> := {};
    order := [];
    Opening(ws);
    while pending != []
      invariant Searching(ws, order, visited, pending)
      invariant AllSound(ws, order) && violations == AllComplaints(ws, order)
      decreases ws.files.Keys - visited, |pending|
    {
      var config := pending[|pending| - 1];
      assert pending == pending[..|pending| - 1] + [config];
      pending := pending[..|pending| - 1];
      if config in visited || config !in ws.files {
        SkipKeeps(ws, order, visited, pending, config);
      } else {
        assert config in ws.files.Keys - visited;
        assert FromAggregate(ws, FollowedGraph(ws), config);
        if !Sound(ws, config) {
          return Err(config), order;
        }
        VisitKeeps(ws, order, visited, pending, config);
        var complaints, good := CheckReferences(ws, config);
        assert order == (order + [config])[..|order + [config]| - 1];
        visited := visited + {config};
        order := order + [config];
        violations := violations + complaints;
        pending := pending + good;
      }
    }
    DoneIsFinished(ws, order, visited);
    NoViolationsMeansConsistent(ws, order);
    r := Ok(violations);
  }

  lemma Opening(ws: Workspace)
    ensures Searching(ws, [], {}, [ws.root + [HOST], ws.root + [CLIENT]])
  {
    hide FollowedGraph, Sound;
    var pending := [ws.root + [HOST], ws.root + [CLIENT]];
    forall c | c in pending ensures FromAggregate(ws, FollowedGraph(ws), c) {
      var a := if c == pending[0] then HOST else CLIENT;
      assert a in AGGREGATES;
      ReachSelf(FollowedGraph(ws), ws.root + [a]);
    }
    forall a | a in AGGREGATES ensures Covered(ws, ws.root + [a], {}, pending) {
      assert a == HOST || a == CLIENT;
      assert pending[0] in pending && pending[1] in pending;
    }
  }

  /** The inner loop: a reference with a complaint is not pushed. */
  method CheckReferences(ws: Workspace, config: Path) returns (violations: seq<Violation>, pushed: seq<Path>)
    requires Sound(ws, config)
    ensures violations == Complaints(ws, config, References(ws, config))
    ensures pushed == GoodTargets(ws, config, References(ws, config))
  {
    hide Sound, Verdict, ReferencePath, References;
    violations, pushed := [], [];
    var references := References(ws, config);
    for i := 0 to |references|
      invariant violations == Complaints(ws, config, references[..i])
      invariant pushed == GoodTargets(ws, config, references[..i])
    {
      assert references[..i + 1][..i] == references[..i];
      match Verdict(ws, config, references[i]) {
        case Some(violation) => violations := violations + [violation];
        case None => pushed := pushed + [ReferencePath(config, references[i])];
      }
    }
    assert references[..|references|] == references;
  }
}
