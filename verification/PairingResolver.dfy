/** Resolving the conflicted pairing records of a merge, in scripts/translation-pairing-merge.ts. */
module PairingResolver {
  import opened Common
  import opened PairingEvidence
  import opened PairingMerge
  import opened PairingRecord
  import opened Sorting
  import opened Text

  datatype Stage = Ancestor | Current | Other

  /** One line of `git ls-files --unmerged`. */
  datatype Entry = Entry(objectId: string, stage: Stage, path: string)

  datatype Resolution = Resolution(path: string, record: string)

  /** `Done` is a return, `Aggregate` the error raised after the safe records have been staged. */
  datatype Report = Done(resolved: seq<Resolution>) | Aggregate(resolved: seq<Resolution>, failures: seq<(string, Failure)>)

  const SIDECAR := ".i18n.yaml"

  /** The stages a path has among the unmerged entries; a repeated stage is overwritten. */
  function StagesOf(entries: seq<Entry>, path: string): Stages {
    if entries == [] then Stages(None, None, None)
    else
      var before, last := StagesOf(entries[..|entries| - 1], path), entries[|entries| - 1];
      if last.path != path then before else WithStage(before, last)
  }

  function WithStage(stages: Stages, entry: Entry): Stages {
    match entry.stage
    case Ancestor => stages.(ancestor := Some(entry.objectId))
    case Current => stages.(current := Some(entry.objectId))
    case Other => stages.(other := Some(entry.objectId))
  }

  ghost predicate Listed(entries: seq<Entry>, path: string) {
    EndsWith(path, SIDECAR) && exists k :: 0 <= k < |entries| && entries[k].path == path
  }

  lemma {:induction false} NoStages(entries: seq<Entry>, path: string)
    requires forall k :: 0 <= k < |entries| ==> entries[k].path != path
    ensures StagesOf(entries, path) == Stages(None, None, None)
  {
    if entries != [] {
      NoStages(entries[..|entries| - 1], path);
    }
  }

  /** What one conflict comes to, in the order of the checks. */
  function Outcome(tools: Tools, view: View, meta: string, stages: Stages): Result<string, Failure> {
    var records := ReadRecords(tools, view, meta, stages);
    if records.Err? then Err(records.error)
    else
      var merged := Compose(tools, view.objects, meta, records.value.ancestor, records.value.current, records.value.other);
      if merged.Err? then Err(merged.error)
      else if PathsFromMeta(meta).None? then Err(NotAPair)
      else
        var paths := PathsFromMeta(meta).value;
        var sourceHash, zhHash := tools.hash(merged.value.source), tools.hash(merged.value.zh);
        var failure := Confirm(tools, view, paths, sourceHash, zhHash);
        if failure.Some? then Err(failure.value) else Ok(PairingRecord.Render(paths, PairRecord(sourceHash, zhHash)))
  }

  lemma OutcomeConfirms(tools: Tools, view: View, meta: string, stages: Stages)
    requires Outcome(tools, view, meta, stages).Ok?
    ensures Confirmed(tools, view.index, view.worktree, meta, Outcome(tools, view, meta, stages).value)
  {
    hide ReadRecords, Compose, PathsFromMeta, Confirm, Confirmed, PairingRecord.Render;
    var records := ReadRecords(tools, view, meta, stages).value;
    var merged := Compose(tools, view.objects, meta, records.ancestor, records.current, records.other).value;
    ConfirmMeans(tools, view, meta, tools.hash(merged.source), tools.hash(merged.zh));
  }

  /** A conflict comes to a record exactly when there is evidence for it. */
  lemma EvidenceSuffices(tools: Tools, view: View, path: string, stages: Stages, records: Records, sides: Sides)
    requires Evidence(tools, view, path, stages, records, sides)
    ensures Outcome(tools, view, path, stages).Ok?
  {
    hide Untouched, ThreeRecords, PathsFromMeta, NamesBoth, ReadRecords, LoadOwners, ComposeOwners, Confirm, InPlace, PairingRecord.Render;
    var paths := PathsFromMeta(path).value;
    RecordsRead(tools, view, path, stages, records);
    OwnersLoaded(tools, view.objects, paths, records.ancestor, sides.ancestor);
    OwnersLoaded(tools, view.objects, paths, records.current, sides.current);
    OwnersLoaded(tools, view.objects, paths, records.other, sides.other);
    OwnersComposed(tools, paths, sides);
    PlaceConfirmed(tools, view, paths, sides.merged);
  }

  lemma EvidenceNeeded(tools: Tools, view: View, path: string, stages: Stages)
    requires Outcome(tools, view, path, stages).Ok?
    ensures Resolvable(tools, view, path, stages)
  {
    hide Untouched, ThreeRecords, PathsFromMeta, NamesBoth, ReadRecords, LoadOwners, ComposeOwners, Confirm, InPlace, PairingRecord.Render;
    var records := ReadRecords(tools, view, path, stages).value;
    var paths := PathsFromMeta(path).value;
    var a := LoadOwners(tools, view.objects, records.ancestor, paths).value;
    var b := LoadOwners(tools, view.objects, records.current, paths).value;
    var c := LoadOwners(tools, view.objects, records.other, paths).value;
    var sides := Sides(a, b, c, ComposeOwners(tools, paths, a, b, c).value);
    RecordsRead(tools, view, path, stages, records);
    OwnersLoaded(tools, view.objects, paths, records.ancestor, a);
    OwnersLoaded(tools, view.objects, paths, records.current, b);
    OwnersLoaded(tools, view.objects, paths, records.other, c);
    OwnersComposed(tools, paths, sides);
    PlaceConfirmed(tools, view, paths, sides.merged);
    assert Evidence(tools, view, path, stages, records, sides);
  }

  // ---------------------------------------------------------------- the stages of a conflict

  /** The last unmerged entry of that path and stage has that object. */
  ghost predicate LastAt(entries: seq<Entry>, path: string, stage: Stage, id: Option<string>) {
    match id
    case None => forall k :: 0 <= k < |entries| ==> !(entries[k].path == path && entries[k].stage == stage)
    case Some(objectId) =>
      exists k ::
        && 0 <= k < |entries| && entries[k] == Entry(objectId, stage, path)
        && forall m :: k < m < |entries| ==> !(entries[m].path == path && entries[m].stage == stage)
  }

  ghost predicate StagesListed(entries: seq<Entry>, path: string, stages: Stages) {
    && LastAt(entries, path, Ancestor, stages.ancestor)
    && LastAt(entries, path, Current, stages.current)
    && LastAt(entries, path, Other, stages.other)
  }

  lemma {:induction false} StagesAreListed(entries: seq<Entry>, path: string)
    ensures StagesListed(entries, path, StagesOf(entries, path))
  {
    if entries != [] {
      var front, last := entries[..|entries| - 1], entries[|entries| - 1];
      StagesAreListed(front, path);
      var before, after := StagesOf(front, path), StagesOf(entries, path);
      LastPush(front, last, path, Ancestor, before.ancestor, after.ancestor);
      LastPush(front, last, path, Current, before.current, after.current);
      LastPush(front, last, path, Other, before.other, after.other);
      assert front + [last] == entries;
    }
  }

  lemma LastPush(front: seq<Entry>, last: Entry, path: string, stage: Stage, before: Option<string>, after: Option<string>)
    requires LastAt(front, path, stage, before)
    requires after == if last.path == path && last.stage == stage then Some(last.objectId) else before
    ensures LastAt(front + [last], path, stage, after)
  {
    var entries := front + [last];
    if last.path == path && last.stage == stage {
      assert entries[|front|] == Entry(last.objectId, stage, path);
    } else if before.Some? {
      var k :| 0 <= k < |front| && front[k] == Entry(before.value, stage, path)
        && forall m :: k < m < |front| ==> !(front[m].path == path && front[m].stage == stage);
      assert entries[k] == front[k];
    }
  }

  lemma OneLast(entries: seq<Entry>, path: string, stage: Stage, a: Option<string>, b: Option<string>)
    requires LastAt(entries, path, stage, a) && LastAt(entries, path, stage, b)
    ensures a == b
  {
  }

  /** There is evidence for the stages that the conflict has. */
  ghost predicate Mergeable(tools: Tools, view: View, entries: seq<Entry>, path: string) {
    exists stages :: StagesListed(entries, path, stages) && Resolvable(tools, view, path, stages)
  }

  lemma OutcomeExactly(tools: Tools, view: View, entries: seq<Entry>, path: string)
    ensures Outcome(tools, view, path, StagesOf(entries, path)).Ok? <==> Mergeable(tools, view, entries, path)
  {
    hide Outcome, Resolvable, LastAt;
    StagesAreListed(entries, path);
    if Outcome(tools, view, path, StagesOf(entries, path)).Ok? {
      EvidenceNeeded(tools, view, path, StagesOf(entries, path));
    }
    if stages :| StagesListed(entries, path, stages) && Resolvable(tools, view, path, stages) {
      OneLast(entries, path, Ancestor, stages.ancestor, StagesOf(entries, path).ancestor);
      OneLast(entries, path, Current, stages.current, StagesOf(entries, path).current);
      OneLast(entries, path, Other, stages.other, StagesOf(entries, path).other);
      ResolvableSuffices(tools, view, path, stages);
    }
  }

  lemma ResolvableSuffices(tools: Tools, view: View, path: string, stages: Stages)
    requires Resolvable(tools, view, path, stages)
    ensures Outcome(tools, view, path, stages).Ok?
  {
    hide Outcome, Evidence;
    var records, sides :| Evidence(tools, view, path, stages, records, sides);
    EvidenceSuffices(tools, view, path, stages, records, sides);
  }

  lemma OutcomeMeans(tools: Tools, view: View, path: string, stages: Stages)
    ensures Outcome(tools, view, path, stages).Ok? <==> Resolvable(tools, view, path, stages)
    ensures Outcome(tools, view, path, stages).Ok? ==>
      Confirmed(tools, view.index, view.worktree, path, Outcome(tools, view, path, stages).value)
  {
    hide Outcome, Resolvable, Confirmed;
    if Outcome(tools, view, path, stages).Ok? {
      EvidenceNeeded(tools, view, path, stages);
      OutcomeConfirms(tools, view, path, stages);
    }
    if Resolvable(tools, view, path, stages) {
      ResolvableSuffices(tools, view, path, stages);
    }
  }

  lemma MergeableStays(tools: Tools, view: View, more: map<string, Bytes>, entries: seq<Entry>, path: string)
    requires Grown(view.objects, more) && Mergeable(tools, view, entries, path)
    ensures Mergeable(tools, View(more, view.index, view.worktree), entries, path)
  {
    hide StagesListed, Resolvable;
    var stages :| StagesListed(entries, path, stages) && Resolvable(tools, view, path, stages);
    EvidenceStays(tools, view, more, path, stages);
  }

  /** Objects are only ever added. */
  ghost predicate Grown(before: map<string, Bytes>, after: map<string, Bytes>) {
    forall id :: id in before ==> id in after && after[id] == before[id]
  }

  /** `git hash-object -w`: an object that exists is not written again. */
  function Stored(tools: Tools, objects: map<string, Bytes>, content: Bytes): (r: map<string, Bytes>)
    ensures Grown(objects, r) && tools.hash(content) in r
  {
    var id := tools.hash(content);
    if id in objects then objects else objects[id := content]
  }

  /** The entries that remain when the given paths have been staged. */
  function Remaining(entries: seq<Entry>, staged: set<string>): seq<Entry> {
    if entries == [] then []
    else (if entries[0].path in staged then [] else [entries[0]]) + Remaining(entries[1..], staged)
  }

  lemma {:induction false} RemainingTwice(entries: seq<Entry>, a: set<string>, b: set<string>)
    ensures Remaining(Remaining(entries, a), b) == Remaining(entries, a + b)
  {
    if entries != [] {
      RemainingTwice(entries[1..], a, b);
      if entries[0].path !in a {
        assert Remaining(entries, a)[1..] == Remaining(entries[1..], a);
      } else {
        assert Remaining(entries, a) == Remaining(entries[1..], a);
        assert Remaining(entries, a + b) == Remaining(entries[1..], a + b);
      }
    }
  }

  lemma {:induction false} NothingStaged(entries: seq<Entry>)
    ensures Remaining(entries, {}) == entries
  {
    if entries != [] {
      NothingStaged(entries[1..]);
    }
  }

  ghost function PathSet(resolutions: seq<Resolution>): set<string> {
    set k | 0 <= k < |resolutions| :: resolutions[k].path
  }

  lemma PathSetPush(resolutions: seq<Resolution>, k: nat)
    requires k < |resolutions|
    ensures PathSet(resolutions[..k + 1]) == PathSet(resolutions[..k]) + {resolutions[k].path}
  {
    var more := resolutions[..k + 1];
    assert forall i :: 0 <= i < k ==> more[i] == resolutions[..k][i];
    assert more[k] == resolutions[k];
    forall p | p in PathSet(resolutions[..k]) + {resolutions[k].path} ensures p in PathSet(more) {
      if p in PathSet(resolutions[..k]) {
        var i :| 0 <= i < k && resolutions[..k][i].path == p;
        assert more[i].path == p;
      }
    }
  }

  /** No owner of a pair is a sidecar. */
  lemma OwnersAreNotSidecars(meta: string, path: string)
    requires PathsFromMeta(meta).Some? && EndsWith(path, SIDECAR)
    ensures PathsFromMeta(meta).value.source != path && PathsFromMeta(meta).value.zh != path
  {
    var paths := PathsFromMeta(meta).value;
    PathParts(paths.source);
    assert path[|path| - 1] == path[|path| - |SIDECAR|..][|SIDECAR| - 1] == 'l';
    assert paths.source[|paths.source| - 1] == 'd' && paths.zh[|paths.zh| - 1] == 'd';
  }

  /** Each resolution was decided on the index and worktree as they were, each path at most once. */
  ghost predicate Decided(tools: Tools, view: View, entries: seq<Entry>, path: string, r: Result<string, Failure>) {
    exists objects ::
      Grown(view.objects, objects)
      && Outcome(tools, View(objects, view.index, view.worktree), path, StagesOf(entries, path)) == r
  }

  ghost predicate AllDecided(tools: Tools, view: View, entries: seq<Entry>, paths: seq<string>,
                             resolved: seq<Resolution>, failures: seq<(string, Failure)>) {
    && (forall i, j :: 0 <= i < j < |resolved| ==> resolved[i].path != resolved[j].path)
    && (forall i, j :: 0 <= i < j < |failures| ==> failures[i].0 != failures[j].0)
    && (forall i, j :: 0 <= i < |resolved| && 0 <= j < |failures| ==> resolved[i].path != failures[j].0)
    && (forall path :: path in paths <==> ResolvedIn(resolved, path) || FailedIn(failures, path))
    && (forall i :: 0 <= i < |resolved| ==>
          EndsWith(resolved[i].path, SIDECAR) && Decided(tools, view, entries, resolved[i].path, Ok(resolved[i].record)))
    && (forall i :: 0 <= i < |failures| ==> Decided(tools, view, entries, failures[i].0, Err(failures[i].1)))
  }

  ghost predicate ResolvedIn(resolved: seq<Resolution>, path: string) {
    exists i :: 0 <= i < |resolved| && resolved[i].path == path
  }

  ghost predicate FailedIn(failures: seq<(string, Failure)>, path: string) {
    exists i :: 0 <= i < |failures| && failures[i].0 == path
  }

  class Repository {
    const tools: Tools
    var objects: map<string, Bytes>
    var index: map<string, string>
    var worktree: map<string, Bytes>
    var unmerged: seq<Entry>

    constructor (tools: Tools, objects: map<string, Bytes>, index: map<string, string>, worktree: map<string, Bytes>, unmerged: seq<Entry>)
      ensures this.tools == tools && Now() == View(objects, index, worktree) && this.unmerged == unmerged
    {
      this.tools, this.objects, this.index, this.worktree, this.unmerged := tools, objects, index, worktree, unmerged;
    }

    ghost function Now(): View
      reads this
    {
      View(objects, index, worktree)
    }

    /** `unmergedSidecars`, with the paths in the order they are first listed. */
    method UnmergedSidecars() returns (paths: seq<string>, stages: map<string, Stages>)
      ensures Distinct(paths) && forall path :: path in paths <==> Listed(unmerged, path)
      ensures stages.Keys == (set path | path in paths) && forall path :: path in stages ==> stages[path] == StagesOf(unmerged, path)
    {
      paths, stages := [], map[];
      for k := 0 to |unmerged|
        invariant Distinct(paths) && forall path :: path in paths <==> Listed(unmerged[..k], path)
        invariant stages.Keys == set path | path in paths
        invariant forall path :: path in stages ==> stages[path] == StagesOf(unmerged[..k], path)
      {
        var entry := unmerged[k];
        ListedPush(unmerged, k);
        assert unmerged[..k + 1][..k] == unmerged[..k];
        if EndsWith(entry.path, SIDECAR) {
          if entry.path !in stages {
            NoStages(unmerged[..k], entry.path);
            paths := paths + [entry.path];
          }
          var found := if entry.path in stages then stages[entry.path] else Stages(None, None, None);
          stages := stages[entry.path := WithStage(found, entry)];
        }
      }
      assert unmerged[..|unmerged|] == unmerged;
    }

    /** One turn of the resolution loop; it may store the merged owners and changes nothing else. */
    method ResolveOne(path: string, stages: Stages) returns (r: Result<string, Failure>)
      modifies this`objects
      ensures r == Outcome(tools, old(Now()), path, stages)
      ensures r.Ok? <==> Resolvable(tools, old(Now()), path, stages)
      ensures r.Ok? ==> Confirmed(tools, index, worktree, path, r.value)
      ensures Grown(old(objects), objects)
    {
      OutcomeMeans(tools, Now(), path, stages);
      hide Resolvable, Confirmed;
      hide ReadRecords, Compose, PathsFromMeta, Confirm, PairingRecord.Render, Stored;
      var view := View(objects, index, worktree);
      var records := ReadRecords(tools, view, path, stages);
      if records.Err? {
        return Err(records.error);
      }
      var merged := Compose(tools, objects, path, records.value.ancestor, records.value.current, records.value.other);
      if merged.Err? {
        return Err(merged.error);
      }
      objects := Stored(tools, Stored(tools, objects, merged.value.source), merged.value.zh);
      if PathsFromMeta(path).None? {
        return Err(NotAPair);
      }
      var paths := PathsFromMeta(path).value;
      var sourceHash, zhHash := tools.hash(merged.value.source), tools.hash(merged.value.zh);
      var failure := Confirm(tools, view, paths, sourceHash, zhHash);
      if failure.Some? {
        return Err(failure.value);
      }
      r := Ok(PairingRecord.Render(paths, PairRecord(sourceHash, zhHash)));
    }

    /** `writeFileSync` of every resolved sidecar. */
    method WriteAll(resolutions: seq<Resolution>)
      requires forall i, j :: 0 <= i < j < |resolutions| ==> resolutions[i].path != resolutions[j].path
      modifies this`worktree
      ensures forall i :: 0 <= i < |resolutions| ==>
        resolutions[i].path in worktree && worktree[resolutions[i].path] == tools.encode(resolutions[i].record)
      ensures SameOutside(old(worktree), worktree, PathSet(resolutions))
    {
      for k := 0 to |resolutions|
        invariant forall i :: 0 <= i < k ==>
          resolutions[i].path in worktree && worktree[resolutions[i].path] == tools.encode(resolutions[i].record)
        invariant SameOutside(old(worktree), worktree, PathSet(resolutions[..k]))
      {
        PathSetPush(resolutions, k);
        worktree := worktree[resolutions[k].path := tools.encode(resolutions[k].record)];
      }
      assert resolutions[..|resolutions|] == resolutions;
    }

    /** `git add`: the index takes the file as it stands, and the conflict of the path is over. */
    method StageAll(resolutions: seq<Resolution>)
      requires forall i, j :: 0 <= i < j < |resolutions| ==> resolutions[i].path != resolutions[j].path
      requires forall i :: 0 <= i < |resolutions| ==> resolutions[i].path in worktree
      modifies this`objects, this`index, this`unmerged
      ensures forall i :: 0 <= i < |resolutions| ==>
        resolutions[i].path in index && index[resolutions[i].path] == tools.hash(worktree[resolutions[i].path])
        && index[resolutions[i].path] in objects
      ensures SameOutside(old(index), index, PathSet(resolutions))
      ensures unmerged == Remaining(old(unmerged), PathSet(resolutions)) && Grown(old(objects), objects)
    {
      NothingStaged(unmerged);
      hide Remaining, Stored;
      assert PathSet(resolutions[..0]) == {};
      for k := 0 to |resolutions|
        invariant forall i :: 0 <= i < k ==>
          resolutions[i].path in index && index[resolutions[i].path] == tools.hash(worktree[resolutions[i].path])
          && index[resolutions[i].path] in objects
        invariant SameOutside(old(index), index, PathSet(resolutions[..k]))
        invariant unmerged == Remaining(old(unmerged), PathSet(resolutions[..k])) && Grown(old(objects), objects)
      {
        var path := resolutions[k].path;
        PathSetPush(resolutions, k);
        RemainingTwice(old(unmerged), PathSet(resolutions[..k]), {path});
        objects := Stored(tools, objects, worktree[path]);
        index := index[path := tools.hash(worktree[path])];
        unmerged := Remaining(unmerged, {path});
      }
      assert resolutions[..|resolutions|] == resolutions;
    }

    /** The resolution loop. */
    method DecideAll() returns (resolved: seq<Resolution>, failures: seq<(string, Failure)>, ghost paths: seq<string>)
      requires Comparison(tools.collate)
      modifies this`objects
      ensures Grown(old(objects), objects)
      ensures forall path :: path in paths <==> Listed(unmerged, path)
      ensures AllDecided(tools, old(Now()), unmerged, paths, resolved, failures)
      ensures AllMergeable(tools, Now(), unmerged, resolved) && NoneMergeable(tools, old(Now()), unmerged, failures)
    {
      hide Outcome, Listed, StagesOf, Decided, AllDecided, Sort, Mergeable, Resolvable, Confirmed;
      var listed, stages := UnmergedSidecars();
      var sorted := Sort(listed, tools.collate);
      paths := sorted;
      SortCorrect(listed, tools.collate);
      SameMultiset(listed, sorted);
      resolved, failures := [], [];
      assert sorted[..0] == [];
      NothingDecided(tools, Now(), unmerged);
      for k := 0 to |sorted|
        invariant Grown(old(objects), objects)
        invariant AllDecided(tools, old(Now()), unmerged, sorted[..k], resolved, failures)
        invariant AllMergeable(tools, Now(), unmerged, resolved) && NoneMergeable(tools, old(Now()), unmerged, failures)
      {
        var path := sorted[k];
        assert path in sorted && path in listed && path in stages;
        SidecarListed(unmerged, path);
        ghost var view := Now();
        var r := ResolveOne(path, stages[path]);
        DecidedNow(tools, old(Now()), view.objects, unmerged, path, r);
        NotYet(sorted, k, path);
        assert sorted[..k + 1] == sorted[..k] + [path];
        DecidedPush(tools, old(Now()), unmerged, sorted[..k], resolved, failures, path, r);
        MergeableKept(tools, view, objects, unmerged, resolved);
        OutcomeExactly(tools, view, unmerged, path);
        if r.Ok? {
          MergeableStays(tools, view, objects, unmerged, path);
        } else if Mergeable(tools, old(Now()), unmerged, path) {
          MergeableStays(tools, old(Now()), view.objects, unmerged, path);
        }
        match r {
          case Ok(record) => resolved := resolved + [Resolution(path, record)];
          case Err(failure) => failures := failures + [(path, failure)];
        }
      }
      assert sorted[..|sorted|] == sorted;
    }

    /**
     * `resolveTranslationPairingConflicts`. Every staged sidecar is the record of the hashes that
     * index and worktree hold for its two owners afterwards; nothing else in them has changed, and
     * every conflict is either resolved or reported.
     */
    method Resolve() returns (report: Report)
      requires Comparison(tools.collate)
      modifies this
      ensures var resolved := report.resolved;
        && (forall i :: 0 <= i < |resolved| ==> SettledSidecar(this, resolved[i]))
        && SameOutside(old(worktree), worktree, PathSet(resolved)) && SameOutside(old(index), index, PathSet(resolved))
        && unmerged == Remaining(old(unmerged), PathSet(resolved)) && Grown(old(objects), objects)
      ensures Reported(tools, old(Now()), old(unmerged), report)
      ensures forall path :: Listed(old(unmerged), path) <==> ResolvedIn(report.resolved, path) || FailedIn(Failures(report), path)
      ensures AllMergeable(tools, View(objects, old(index), old(worktree)), old(unmerged), report.resolved)
      ensures NoneMergeable(tools, old(Now()), old(unmerged), Failures(report))
      ensures forall path :: FailedIn(Failures(report), path) ==> path !in PathSet(report.resolved)
    {
      hide Outcome, Listed, StagesOf, Remaining, Confirmed, AllMergeable, NoneMergeable, Mergeable, Decided, Reported, ResolvedIn, FailedIn;
      var resolved, failures;
      ghost var paths;
      resolved, failures, paths := DecideAll();
      report := if failures == [] then Done(resolved) else Aggregate(resolved, failures);
      ReportIs(tools, old(Now()), unmerged, paths, report);
      AllConfirmed(tools, old(Now()), unmerged, paths, resolved, failures);
      ghost var decided := Now();
      WriteAll(resolved);
      StageAll(resolved);
      forall i | 0 <= i < |resolved| ensures SettledSidecar(this, resolved[i]) {
        ConfirmedStays(tools, decided.index, decided.worktree, index, worktree, resolved, i);
      }
      MergeableKept(tools, decided, objects, old(unmerged), resolved);
    }
  }

  lemma AllConfirmed(tools: Tools, view: View, entries: seq<Entry>, paths: seq<string>, resolved: seq<Resolution>,
                     failures: seq<(string, Failure)>)
    requires AllDecided(tools, view, entries, paths, resolved, failures)
    ensures forall i :: 0 <= i < |resolved| ==>
      Confirmed(tools, view.index, view.worktree, resolved[i].path, resolved[i].record) && EndsWith(resolved[i].path, SIDECAR)
    ensures forall i, j :: 0 <= i < j < |resolved| ==> resolved[i].path != resolved[j].path
  {
    hide Decided, Confirmed, EndsWith;
    forall i | 0 <= i < |resolved| ensures Confirmed(tools, view.index, view.worktree, resolved[i].path, resolved[i].record) {
      DecidedConfirms(tools, view, entries, resolved[i].path, resolved[i].record);
    }
  }

  /** What was decided is what is reported. */
  lemma ReportIs(tools: Tools, view: View, entries: seq<Entry>, paths: seq<string>, report: Report)
    requires report.Aggregate? ==> report.failures != []
    requires AllDecided(tools, view, entries, paths, report.resolved, Failures(report))
    requires forall path :: path in paths <==> Listed(entries, path)
    ensures Reported(tools, view, entries, report)
    ensures forall path :: Listed(entries, path) <==> ResolvedIn(report.resolved, path) || FailedIn(Failures(report), path)
    ensures forall path :: FailedIn(Failures(report), path) ==> path !in PathSet(report.resolved)
  {
    hide Decided, Listed;
  }

  function Failures(report: Report): seq<(string, Failure)> {
    if report.Done? then [] else report.failures
  }

  /** Every conflicted sidecar is in the report once, and an error is raised when one of them failed. */
  ghost predicate Reported(tools: Tools, view: View, entries: seq<Entry>, report: Report) {
    var failures := Failures(report);
    && (report.Aggregate? ==> failures != [])
    && exists paths :: (forall path :: path in paths <==> Listed(entries, path))
         && AllDecided(tools, view, entries, paths, report.resolved, failures)
  }

  ghost predicate SameOutside<V>(before: map<string, V>, after: map<string, V>, paths: set<string>) {
    forall path :: path !in paths ==> (path in before <==> path in after) && (path in before ==> after[path] == before[path])
  }

  /** The sidecar's file and index entry are the record that its owners, in index and worktree, confirm. */
  ghost predicate SettledSidecar(repository: Repository, resolution: Resolution)
    reads repository
  {
    var tools, path := repository.tools, resolution.path;
    && Confirmed(tools, repository.index, repository.worktree, path, resolution.record)
    && path in repository.worktree && repository.worktree[path] == tools.encode(resolution.record)
    && path in repository.index && repository.index[path] == tools.hash(repository.worktree[path])
    && repository.index[path] in repository.objects
  }

  lemma NothingDecided(tools: Tools, view: View, entries: seq<Entry>)
    ensures AllDecided(tools, view, entries, [], [], [])
  {
    assert forall path :: !ResolvedIn([], path) && !FailedIn([], path);
  }

  lemma DecidedConfirms(tools: Tools, view: View, entries: seq<Entry>, path: string, record: string)
    requires Decided(tools, view, entries, path, Ok(record))
    ensures Confirmed(tools, view.index, view.worktree, path, record)
  {
    hide Outcome, Confirmed;
    var objects :| Grown(view.objects, objects)
      && Outcome(tools, View(objects, view.index, view.worktree), path, StagesOf(entries, path)) == Ok(record);
    OutcomeConfirms(tools, View(objects, view.index, view.worktree), path, StagesOf(entries, path));
  }

  /** What was staged reads back as the hashes of the owners, for a path without line feeds. */
  lemma DecidedReadsBack(tools: Tools, view: View, entries: seq<Entry>, path: string, record: string)
    requires Decided(tools, view, entries, path, Ok(record)) && '\n' !in path
    requires forall content :: IsHash(tools.hash(content))
    ensures PathsFromMeta(path).Some?
    ensures var paths := PathsFromMeta(path).value;
      && paths.meta == path && paths.source in view.index && paths.zh in view.index
      && PairingRecord.Parse(record, paths) == Some(PairRecord(view.index[paths.source], view.index[paths.zh]))
  {
    DecidedConfirms(tools, view, entries, path, record);
    var objects :| Grown(view.objects, objects)
      && Outcome(tools, View(objects, view.index, view.worktree), path, StagesOf(entries, path)) == Ok(record);
    hide ReadRecords, Compose, PathsFromMeta, Confirm, PairingRecord.Render, PairingRecord.Parse, IsHash, Recordable, StagesOf;
    var records := ReadRecords(tools, View(objects, view.index, view.worktree), path, StagesOf(entries, path)).value;
    ComposedIsRecordable(tools, objects, path, records.ancestor, records.current, records.other);
    ConfirmedReadsBack(tools, view.index, view.worktree, path, record);
    MetaAgrees(path);
  }

  ghost predicate AllMergeable(tools: Tools, view: View, entries: seq<Entry>, resolved: seq<Resolution>) {
    forall i :: 0 <= i < |resolved| ==> Mergeable(tools, view, entries, resolved[i].path)
  }

  ghost predicate NoneMergeable(tools: Tools, view: View, entries: seq<Entry>, failures: seq<(string, Failure)>) {
    forall i :: 0 <= i < |failures| ==> !Mergeable(tools, view, entries, failures[i].0)
  }

  lemma MergeableKept(tools: Tools, view: View, more: map<string, Bytes>, entries: seq<Entry>, resolved: seq<Resolution>)
    requires Grown(view.objects, more) && AllMergeable(tools, view, entries, resolved)
    ensures AllMergeable(tools, View(more, view.index, view.worktree), entries, resolved)
  {
    hide Mergeable;
    forall i | 0 <= i < |resolved| ensures Mergeable(tools, View(more, view.index, view.worktree), entries, resolved[i].path) {
      MergeableStays(tools, view, more, entries, resolved[i].path);
    }
  }

  lemma DecidedNow(tools: Tools, view: View, objects: map<string, Bytes>, entries: seq<Entry>, path: string, r: Result<string, Failure>)
    requires Grown(view.objects, objects)
    requires Outcome(tools, View(objects, view.index, view.worktree), path, StagesOf(entries, path)) == r
    ensures Decided(tools, view, entries, path, r)
  {
    hide Outcome;
  }

  lemma SidecarListed(entries: seq<Entry>, path: string)
    requires Listed(entries, path)
    ensures EndsWith(path, SIDECAR)
  {
  }

  lemma NotYet(sorted: seq<string>, k: nat, path: string)
    requires Distinct(sorted) && k < |sorted| && sorted[k] == path
    ensures path !in sorted[..k]
  {
  }

  lemma DecidedPush(tools: Tools, view: View, entries: seq<Entry>, paths: seq<string>, resolved: seq<Resolution>,
                    failures: seq<(string, Failure)>, path: string, r: Result<string, Failure>)
    requires AllDecided(tools, view, entries, paths, resolved, failures) && path !in paths && EndsWith(path, SIDECAR)
    requires Decided(tools, view, entries, path, r)
    ensures r.Ok? ==> AllDecided(tools, view, entries, paths + [path], resolved + [Resolution(path, r.value)], failures)
    ensures r.Err? ==> AllDecided(tools, view, entries, paths + [path], resolved, failures + [(path, r.error)])
  {
    hide Decided, EndsWith;
    assert !ResolvedIn(resolved, path) && !FailedIn(failures, path);
    assert forall p :: p in paths + [path] <==> p in paths || p == path;
    if r.Ok? {
      ResolvedPush(resolved, Resolution(path, r.value));
    } else {
      FailedPush(failures, (path, r.error));
    }
  }

  lemma ResolvedPush(resolved: seq<Resolution>, last: Resolution)
    ensures forall path :: (ResolvedIn(resolved + [last], path) <==> ResolvedIn(resolved, path) || path == last.path)
  {
    var more := resolved + [last];
    assert more[|resolved|] == last;
    assert forall i :: 0 <= i < |resolved| ==> more[i] == resolved[i];
    forall path ensures ResolvedIn(more, path) <==> ResolvedIn(resolved, path) || path == last.path {
      if ResolvedIn(resolved, path) {
        var i :| 0 <= i < |resolved| && resolved[i].path == path;
        assert more[i].path == path;
      }
    }
  }

  lemma FailedPush(failures: seq<(string, Failure)>, last: (string, Failure))
    ensures forall path :: (FailedIn(failures + [last], path) <==> FailedIn(failures, path) || path == last.0)
  {
    var more := failures + [last];
    assert more[|failures|] == last;
    assert forall i :: 0 <= i < |failures| ==> more[i] == failures[i];
    forall path ensures FailedIn(more, path) <==> FailedIn(failures, path) || path == last.0 {
      if FailedIn(failures, path) {
        var i :| 0 <= i < |failures| && failures[i].0 == path;
        assert more[i].0 == path;
      }
    }
  }

  /** Writing and staging sidecars leaves what confirmed them in place. */
  lemma ConfirmedStays(tools: Tools, index: map<string, string>, worktree: map<string, Bytes>,
                       newIndex: map<string, string>, newWorktree: map<string, Bytes>, resolved: seq<Resolution>, i: nat)
    requires i < |resolved| && Confirmed(tools, index, worktree, resolved[i].path, resolved[i].record)
    requires forall k :: 0 <= k < |resolved| ==> EndsWith(resolved[k].path, SIDECAR)
    requires SameOutside(index, newIndex, PathSet(resolved)) && SameOutside(worktree, newWorktree, PathSet(resolved))
    ensures Confirmed(tools, newIndex, newWorktree, resolved[i].path, resolved[i].record)
  {
    hide PathsFromMeta, EndsWith, PairingRecord.Render;
    var paths := PathsFromMeta(resolved[i].path).value;
    forall path | path in PathSet(resolved) ensures path != paths.source && path != paths.zh {
      var k :| 0 <= k < |resolved| && resolved[k].path == path;
      OwnersAreNotSidecars(resolved[i].path, path);
    }
    assert paths.source !in PathSet(resolved) && paths.zh !in PathSet(resolved);
  }

  lemma ListedPush(entries: seq<Entry>, k: nat)
    requires k < |entries|
    ensures forall path ::
      (Listed(entries[..k + 1], path) <==> Listed(entries[..k], path) || (EndsWith(path, SIDECAR) && entries[k].path == path))
  {
    forall path
      ensures Listed(entries[..k + 1], path) <==> Listed(entries[..k], path) || (EndsWith(path, SIDECAR) && entries[k].path == path)
    {
      var more := entries[..k + 1];
      assert more[k] == entries[k];
      assert forall i :: 0 <= i < k ==> more[i] == entries[..k][i];
      if Listed(entries[..k], path) {
        var i :| 0 <= i < k && entries[..k][i].path == path;
        assert more[i].path == path;
      }
    }
  }
}
