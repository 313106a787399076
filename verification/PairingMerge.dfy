/** What one conflicted pairing record resolves to, in scripts/translation-pairing-merge.ts. */
module PairingMerge {
  import opened Common
  import opened MarkdownLines
  import opened PairingRecord
  import opened Text

  type Bytes = seq<bv8>

  /** Git and the Markdown tooling, as functions: equal inputs give equal results. */
  datatype Tools = Tools(
    hash: Bytes -> string,
    decode: Bytes -> string,
    encode: string -> Bytes,
    textMerge: (Bytes, Bytes, Bytes) -> Option<Bytes>,
    inScope: string -> bool,
    defaultMerge: PairPaths -> bool,
    sameStructure: (PairPaths, Bytes, Bytes) -> bool,
    collate: (string, string) -> int)

  datatype Stages = Stages(ancestor: Option<string>, current: Option<string>, other: Option<string>)

  datatype Failure =
    | IncompleteStages | UnreadableBlob(objectId: string) | EditedSidecar | MissingFile(path: string)
    | OutOfScope | NotAPair | CustomMerge | BadRecord(content: string) | OwnerConflict(path: string) | StructureDiverges
    | IndexDiffers(path: string) | UnstagedContent(path: string)

  /** The parts of a repository that a resolution reads. */
  datatype View = View(objects: map<string, Bytes>, index: map<string, string>, worktree: map<string, Bytes>)

  /** `readGitBlob`: the object exists and is named by its own hash. */
  function ReadBlob(tools: Tools, objects: map<string, Bytes>, objectId: string): Result<Bytes, Failure> {
    if objectId in objects && tools.hash(objects[objectId]) == objectId then Ok(objects[objectId])
    else Err(UnreadableBlob(objectId))
  }

  datatype Owners = Owners(source: Bytes, zh: Bytes)

  /** `loadRecordOwners`. */
  function LoadOwners(tools: Tools, objects: map<string, Bytes>, content: string, paths: PairPaths): Result<Owners, Failure> {
    var record := PairingRecord.Parse(content, paths);
    if record.None? then Err(BadRecord(content))
    else
      var source := ReadBlob(tools, objects, record.value.sourceHash);
      if source.Err? then Err(source.error)
      else
        var zh := ReadBlob(tools, objects, record.value.zhHash);
        if zh.Err? then Err(zh.error) else Ok(Owners(source.value, zh.value))
  }

  function MergeTriplet(tools: Tools, path: string, ancestor: Bytes, current: Bytes, other: Bytes): Result<Bytes, Failure> {
    var merged := tools.textMerge(ancestor, current, other);
    if merged.None? then Err(OwnerConflict(path)) else Ok(merged.value)
  }

  /** `mergeTranslationPairingRecords`, up to storing the merged owners. */
  function Compose(tools: Tools, objects: map<string, Bytes>, meta: string, ancestorRecord: string, currentRecord: string,
                   otherRecord: string): Result<Owners, Failure> {
    if !tools.inScope(meta) then Err(OutOfScope)
    else if PathsFromMeta(meta).None? then Err(NotAPair)
    else
      var paths := PathsFromMeta(meta).value;
      if !tools.defaultMerge(paths) then Err(CustomMerge)
      else
        var ancestor := LoadOwners(tools, objects, ancestorRecord, paths);
        if ancestor.Err? then ancestor
        else
          var current := LoadOwners(tools, objects, currentRecord, paths);
          if current.Err? then current
          else
            var other := LoadOwners(tools, objects, otherRecord, paths);
            if other.Err? then other
            else ComposeOwners(tools, paths, ancestor.value, current.value, other.value)
  }

  function ComposeOwners(tools: Tools, paths: PairPaths, ancestor: Owners, current: Owners, other: Owners): Result<Owners, Failure> {
    var source := MergeTriplet(tools, paths.source, ancestor.source, current.source, other.source);
    if source.Err? then Err(source.error)
    else
      var zh := MergeTriplet(tools, paths.zh, ancestor.zh, current.zh, other.zh);
      if zh.Err? then Err(zh.error)
      else if !tools.sameStructure(paths, source.value, zh.value) then Err(StructureDiverges)
      else Ok(Owners(source.value, zh.value))
  }

  predicate Includes(s: string, word: string) {
    exists i: nat :: i <= |s| && OccursAt(s, word, i)
  }

  /** The lines of a record that carry data: `split(/\r?\n/)`, without blanks and comments. */
  function DataLines(record: string): seq<string> {
    Filtered(Split(DropReturns(record)))
  }

  function Filtered(lines: seq<string>): seq<string> {
    if lines == [] then [] else (if Skipped(lines[0]) then [] else [lines[0]]) + Filtered(lines[1..])
  }

  /** `assertUneditedSidecar`: one side's record, Git's own merge, or conflict markers around all data lines. */
  predicate Unedited(tools: Tools, worktreeRecord: string, ancestorRecord: string, currentRecord: string, otherRecord: string) {
    || worktreeRecord == currentRecord || worktreeRecord == otherRecord
    || (var merged := tools.textMerge(tools.encode(ancestorRecord), tools.encode(currentRecord), tools.encode(otherRecord));
        merged.Some? && tools.decode(merged.value) == worktreeRecord)
    || (&& Includes(worktreeRecord, "<<<<<<<") && Includes(worktreeRecord, "=======") && Includes(worktreeRecord, ">>>>>>>")
        && var lines := DataLines(currentRecord) + DataLines(otherRecord);
           forall i :: 0 <= i < |lines| ==> Includes(worktreeRecord, lines[i]))
  }

  /** The three records of a conflict, if all stages exist, are readable, and nobody edited the sidecar. */
  datatype Records = Records(ancestor: string, current: string, other: string)

  function ReadRecords(tools: Tools, view: View, meta: string, stages: Stages): Result<Records, Failure> {
    if stages.ancestor.None? || stages.current.None? || stages.other.None? then Err(IncompleteStages)
    else
      var ancestor := ReadBlob(tools, view.objects, stages.ancestor.value);
      if ancestor.Err? then Err(ancestor.error)
      else
        var current := ReadBlob(tools, view.objects, stages.current.value);
        if current.Err? then Err(current.error)
        else
          var other := ReadBlob(tools, view.objects, stages.other.value);
          if other.Err? then Err(other.error)
          else
            var records := Records(tools.decode(ancestor.value), tools.decode(current.value), tools.decode(other.value));
            if meta !in view.worktree then Err(MissingFile(meta))
            else if !Unedited(tools, tools.decode(view.worktree[meta]), records.ancestor, records.current, records.other)
            then Err(EditedSidecar)
            else Ok(records)
  }

  /** The staged and the checked-out owner are the merge result. */
  function CheckOwner(tools: Tools, view: View, path: string, expected: string): Option<Failure> {
    if path !in view.worktree then Some(MissingFile(path))
    else if tools.hash(view.worktree[path]) != expected then Some(UnstagedContent(path))
    else None
  }

  /** The checks after the composition: index entries of both sides first, then both files. */
  function Confirm(tools: Tools, view: View, paths: PairPaths, sourceHash: string, zhHash: string): Option<Failure> {
    if paths.source !in view.index || view.index[paths.source] != sourceHash then Some(IndexDiffers(paths.source))
    else if paths.zh !in view.index || view.index[paths.zh] != zhHash then Some(IndexDiffers(paths.zh))
    else
      var source := CheckOwner(tools, view, paths.source, sourceHash);
      if source.Some? then source else CheckOwner(tools, view, paths.zh, zhHash)
  }

  /** A sidecar text that records what index and worktree both hold for the two owners of a pair. */
  ghost predicate Confirmed(tools: Tools, index: map<string, string>, worktree: map<string, Bytes>, meta: string, record: string) {
    PathsFromMeta(meta).Some? &&
    var paths := PathsFromMeta(meta).value;
    && paths.source in index && paths.zh in index && paths.source in worktree && paths.zh in worktree
    && tools.hash(worktree[paths.source]) == index[paths.source] && tools.hash(worktree[paths.zh]) == index[paths.zh]
    && record == PairingRecord.Render(paths, PairRecord(index[paths.source], index[paths.zh]))
  }

  lemma ConfirmMeans(tools: Tools, view: View, meta: string, sourceHash: string, zhHash: string)
    requires PathsFromMeta(meta).Some?
    requires Confirm(tools, view, PathsFromMeta(meta).value, sourceHash, zhHash).None?
    ensures Confirmed(tools, view.index, view.worktree, meta,
      PairingRecord.Render(PathsFromMeta(meta).value, PairRecord(sourceHash, zhHash)))
  {
  }

  /** The names under which lines are recorded have the shape that data lines can carry. */
  lemma RecordedNames(lines: seq<string>, hashes: map<string, string>, name: string)
    requires TakeLines(map[], lines) == Some(hashes) && name in hashes
    requires forall i :: 0 <= i < |lines| ==> OneLine(lines[i])
    ensures IsKey(name) && '\n' !in name
  {
    hide TakeLines, IsKey;
    EntriesCounted(map[], lines);
  }

  lemma PathLines(path: string)
    requires '\n' !in path
    ensures Split(path) == [path]
  {
    SplitOneLine(path);
  }

  /** A confirmed sidecar reads back as the two hashes it was made of, for a path without line feeds. */
  lemma ConfirmedReadsBack(tools: Tools, index: map<string, string>, worktree: map<string, Bytes>, meta: string, record: string)
    requires Confirmed(tools, index, worktree, meta, record)
    requires forall content :: IsHash(tools.hash(content))
    ensures var paths := PathsFromMeta(meta).value;
      var hashes := PairRecord(index[paths.source], index[paths.zh]);
      (PairingRecord.Parse(record, paths) == Some(hashes) <==> Recordable(paths.source))
  {
    var paths := PathsFromMeta(meta).value;
    hide PairingRecord.Parse, PairingRecord.Render, Recordable, IsHash;
    assert PathsOf(paths.source) == Some(paths);
    RecordReadBack(paths.source, PairRecord(index[paths.source], index[paths.zh]));
  }

  lemma ComposedWasRead(tools: Tools, objects: map<string, Bytes>, meta: string, a: string, b: string, c: string)
    requires Compose(tools, objects, meta, a, b, c).Ok?
    ensures PathsFromMeta(meta).Some? && TakeLines(map[], Split(a)).Some?
    ensures Basename(PathsFromMeta(meta).value.source) in TakeLines(map[], Split(a)).value
  {
    hide ComposeOwners, TakeLines, Split, Basename, PathsFromMeta;
  }

  /** What the resolver could compose has a readable name: only a line feed in a directory name can spoil it. */
  lemma ComposedIsRecordable(tools: Tools, objects: map<string, Bytes>, meta: string, a: string, b: string, c: string)
    requires Compose(tools, objects, meta, a, b, c).Ok? && '\n' !in meta
    ensures PathsFromMeta(meta).Some? && Recordable(PathsFromMeta(meta).value.source)
  {
    ComposedWasRead(tools, objects, meta, a, b, c);
    JoinSplit(a);
    hide PairingRecord.Parse, Split, Compose, Basename, IsKey, TakeLines;
    var paths := PathsFromMeta(meta).value;
    RecordedNames(Split(a), TakeLines(map[], Split(a)).value, Basename(paths.source));
    assert paths.source == ReplaceEnd(meta, ".i18n.yaml", ".md");
    assert '\n' !in paths.source;
    PathLines(paths.source);
  }
}
