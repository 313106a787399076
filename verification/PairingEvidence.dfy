module PairingEvidence {
  // What must be the case for scripts/translation-pairing-merge.ts to resolve a conflict, said without its
  // checks: over the stage blobs, the index and the files as they stand.

  import opened Common
  import opened MarkdownLines
  import opened PairingMerge
  import opened PairingRecord
  import opened Text

  // ---------------------------------------------------------------- lines and substrings

  ghost predicate Within(text: string, word: string) {
    exists before, behind :: text == before + word + behind
  }

  /** What ends a line: a line feed with or without a carriage return before it, or the end of the text. */
  ghost predicate Ends(line: string, ending: string, behind: string) {
    && '\n' !in line
    && (|| ending == "\r\n"
        || (ending == "\n" && (line == "" || line[|line| - 1] != '\r'))
        || (ending == "" && behind == ""))
  }

  ghost predicate AfterFeed(before: string) {
    before == "" || before[|before| - 1] == '\n'
  }

  ghost predicate LineAt(text: string, before: string, line: string, ending: string, behind: string) {
    text == before + line + ending + behind && AfterFeed(before) && Ends(line, ending, behind)
  }

  ghost predicate LineOf(text: string, line: string) {
    exists before, ending, behind :: LineAt(text, before, line, ending, behind)
  }

  lemma WithinIsIncludes(text: string, word: string)
    ensures Includes(text, word) <==> Within(text, word)
  {
    if Includes(text, word) {
      var i: nat :| i <= |text| && OccursAt(text, word, i);
      assert text == text[..i] + word + text[i + |word|..];
    }
    if before, behind :| text == before + word + behind {
      assert OccursAt(text, word, |before|);
    }
  }

  function Cut(text: string): (lines: seq<string>)
    ensures lines != []
  {
    Split(DropReturns(text))
  }

  lemma CutReturnFeed(text: string)
    requires StartsWith(text, "\r\n")
    ensures Cut(text) == [""] + Cut(text[2..]) && text == "" + "\r\n" + text[2..]
  {
    assert text[..2] == "\r\n";
    CutFeed(DropReturns(text[2..]));
  }

  lemma CutLineFeed(text: string)
    requires text != "" && text[0] == '\n'
    ensures Cut(text) == [""] + Cut(text[1..]) && text == "" + "\n" + text[1..]
  {
    assert DropReturns(text) == "\n" + DropReturns(text[1..]);
    CutFeed(DropReturns(text[1..]));
  }

  lemma CutOther(text: string)
    requires text != "" && text[0] != '\n' && !StartsWith(text, "\r\n")
    ensures Cut(text) == [[text[0]] + Cut(text[1..])[0]] + Cut(text[1..])[1..]
  {
    CutChar(text[0], DropReturns(text[1..]));
  }

  lemma ReturnFeedStarts(text: string)
    ensures |text| > 1 && text[0] == '\r' && text[1] == '\n' ==> StartsWith(text, "\r\n")
  {
    if |text| > 1 && text[0] == '\r' && text[1] == '\n' {
      assert text[..2] == "\r\n";
    }
  }

  lemma EndsGrow(text: string, rest: string, ending: string, behind: string)
    requires text != "" && text[0] != '\n' && !StartsWith(text, "\r\n")
    requires text[1..] == rest + ending + behind && Ends(rest, ending, behind)
    ensures Ends([text[0]] + rest, ending, behind) && text == ([text[0]] + rest) + ending + behind
  {
    assert text == [text[0]] + text[1..];
    ReturnFeedStarts(text);
    assert rest == "" && ending == "\n" ==> text[1] == '\n';
  }

  /** Cutting takes the first line off. */
  lemma {:induction false} CutFirst(text: string) returns (first: string, ending: string, behind: string)
    ensures text == first + ending + behind && Ends(first, ending, behind)
    ensures Cut(text) == [first] + if ending == "" then [] else Cut(behind)
    decreases |text|
  {
    if text == "" {
      first, ending, behind := "", "", "";
    } else if StartsWith(text, "\r\n") {
      first, ending, behind := "", "\r\n", text[2..];
      CutReturnFeed(text);
    } else if text[0] == '\n' {
      first, ending, behind := "", "\n", text[1..];
      CutLineFeed(text);
    } else {
      hide Cut, StartsWith, Ends;
      CutOther(text);
      var rest;
      rest, ending, behind := CutFirst(text[1..]);
      first := [text[0]] + rest;
      EndsGrow(text, rest, ending, behind);
    }
  }

  lemma CutFeed(text: string)
    ensures Split("\n" + text) == [""] + Split(text)
  {
    assert ("\n" + text)[1..] == text;
  }

  lemma CutChar(c: char, text: string)
    requires c != '\n'
    ensures Split([c] + text) == [[c] + Split(text)[0]] + Split(text)[1..]
  {
    assert ([c] + text)[1..] == text;
  }

  /** The lines of a text are the pieces it is cut into. */
  lemma {:induction false} CutIsLines(text: string, line: string)
    ensures line in Cut(text) <==> LineOf(text, line)
    decreases |text|
  {
    hide Cut;
    var first, ending, behind := CutFirst(text);
    assert LineAt(text, "", first, ending, behind) by {
      assert "" + first + ending + behind == first + ending + behind;
    }
    if ending == "" {
      forall before, e, b | LineAt(text, before, line, e, b) ensures line == first {
        OnlyLine(text, before, line, e, b);
        assert first + "" + "" == first;
      }
    } else {
      CutIsLines(behind, line);
      LinesBehind(text, first, ending, behind, line);
    }
  }

  lemma FeedsIn(before: string, line: string, ending: string, behind: string)
    requires AfterFeed(before) && Ends(line, ending, behind)
    ensures before != "" || ending != "" ==> '\n' in before + line + ending + behind
  {
    assert before != "" ==> before[|before| - 1] in before;
    assert ending != "" ==> ending[|ending| - 1] in ending;
  }

  lemma OnlyLine(text: string, before: string, line: string, ending: string, behind: string)
    requires LineAt(text, before, line, ending, behind) && '\n' !in text
    ensures line == text
  {
    FeedsIn(before, line, ending, behind);
    assert "" + line + "" + "" == line;
  }

  lemma LinesBehind(text: string, first: string, ending: string, behind: string, line: string)
    requires text == first + ending + behind && Ends(first, ending, behind) && ending != ""
    ensures LineOf(text, line) <==> line == first || LineOf(behind, line)
  {
    var head := first + ending;
    assert head[|head| - 1] == '\n';
    if line == first {
      assert LineAt(text, "", first, ending, behind) by {
        assert "" + first + ending + behind == text;
      }
    }
    if before, e, b :| LineAt(behind, before, line, e, b) {
      assert head + before + line + e + b == text;
      assert LineAt(text, head + before, line, e, b);
    }
    if before, e, b :| LineAt(text, before, line, e, b) {
      LineFurther(text, first, ending, behind, before, line, e, b);
    }
  }

  lemma LineFurther(text: string, first: string, ending: string, behind: string, before: string, line: string, e: string, b: string)
    requires text == first + ending + behind && Ends(first, ending, behind) && ending != ""
    requires LineAt(text, before, line, e, b)
    ensures line == first || LineOf(behind, line)
  {
    var n := |first + ending|;
    assert text[n - 1] == '\n';
    FirstFeed(text, first, ending, behind);
    if before == "" {
      FirstIs(text, first, ending, behind, line, e, b);
    } else {
      assert text[|before| - 1] == '\n' && |before| >= n;
      var rest := before[n..];
      assert behind == text[n..] == rest + line + e + b;
      assert before[..n] == text[..n];
      assert LineAt(behind, rest, line, e, b);
    }
  }

  /** No line feed stands before the first line's end. */
  lemma FirstFeed(text: string, first: string, ending: string, behind: string)
    requires text == first + ending + behind && Ends(first, ending, behind) && ending != ""
    ensures forall i :: 0 <= i < |first + ending| - 1 ==> text[i] != '\n'
  {
    forall i | 0 <= i < |first + ending| - 1 ensures text[i] != '\n' {
      if i < |first| {
        assert text[i] == first[i];
      } else {
        assert ending == "\r\n" && text[i] == '\r';
      }
    }
  }

  lemma FirstIs(text: string, first: string, ending: string, behind: string, line: string, e: string, b: string)
    requires text == first + ending + behind && Ends(first, ending, behind) && ending != ""
    requires text == "" + line + e + b && Ends(line, e, b)
    ensures line == first
  {
    FirstFeed(text, first, ending, behind);
    assert text == line + e + b && text[|first + ending| - 1] == '\n' && '\n' in text;
    assert e != "" by {
      assert e == "" ==> line + e + b == line;
    }
    FirstFeed(text, line, e, b);
    assert text[|line + e| - 1] == '\n' && |line + e| == |first + ending|;
    assert line + e == text[..|line + e|] == first + ending;
    StripEnd(line, e, b);
    StripEnd(first, ending, behind);
  }

  function Strip(line: string): string
    requires line != ""
  {
    var n := |line| - 1;
    if n > 0 && line[n - 1] == '\r' then line[..n - 1] else line[..n]
  }

  lemma StripEnd(line: string, ending: string, behind: string)
    requires Ends(line, ending, behind) && ending != ""
    ensures Strip(line + ending) == line
  {
  }

  // ---------------------------------------------------------------- nobody edited the sidecar

  /** The conflict markers and every line of data of both sides. */
  ghost predicate Marked(sidecar: string, current: string, other: string) {
    && Within(sidecar, "<<<<<<<") && Within(sidecar, "=======") && Within(sidecar, ">>>>>>>")
    && forall line :: (LineOf(current, line) || LineOf(other, line)) && line != "" && line[0] != '#' ==> Within(sidecar, line)
  }

  ghost predicate CleanMerge(tools: Tools, sidecar: string, records: Records) {
    exists merged ::
      && tools.textMerge(tools.encode(records.ancestor), tools.encode(records.current), tools.encode(records.other)) == Some(merged)
      && tools.decode(merged) == sidecar
  }

  /** The sidecar is one side's record, their clean text merge, or an untouched conflict. */
  ghost predicate Untouched(tools: Tools, sidecar: string, records: Records) {
    sidecar == records.current || sidecar == records.other || CleanMerge(tools, sidecar, records)
    || Marked(sidecar, records.current, records.other)
  }

  lemma {:induction false} FilteredMembers(lines: seq<string>, line: string)
    ensures line in Filtered(lines) <==> line in lines && line != "" && line[0] != '#'
  {
    if lines != [] {
      FilteredMembers(lines[1..], line);
      assert lines == [lines[0]] + lines[1..];
    }
  }

  lemma DataLinesAre(record: string, line: string)
    ensures line in DataLines(record) <==> LineOf(record, line) && line != "" && line[0] != '#'
  {
    hide Filtered, LineOf;
    FilteredMembers(Cut(record), line);
    CutIsLines(record, line);
  }

  lemma MarkedIs(sidecar: string, current: string, other: string)
    ensures Marked(sidecar, current, other) <==>
      && Includes(sidecar, "<<<<<<<") && Includes(sidecar, "=======") && Includes(sidecar, ">>>>>>>")
      && forall line :: line in DataLines(current) + DataLines(other) ==> Includes(sidecar, line)
  {
    hide LineOf, DataLines, Includes, Within;
    WithinIsIncludes(sidecar, "<<<<<<<");
    WithinIsIncludes(sidecar, "=======");
    WithinIsIncludes(sidecar, ">>>>>>>");
    forall line
      ensures line in DataLines(current) <==> LineOf(current, line) && line != "" && line[0] != '#'
      ensures line in DataLines(other) <==> LineOf(other, line) && line != "" && line[0] != '#'
      ensures Includes(sidecar, line) <==> Within(sidecar, line)
    {
      DataLinesAre(current, line);
      DataLinesAre(other, line);
      WithinIsIncludes(sidecar, line);
    }
  }

  lemma UntouchedIs(tools: Tools, sidecar: string, records: Records)
    ensures Unedited(tools, sidecar, records.ancestor, records.current, records.other) <==> Untouched(tools, sidecar, records)
  {
    hide DataLines, Includes, Marked;
    MarkedIs(sidecar, records.current, records.other);
    var lines := DataLines(records.current) + DataLines(records.other);
    assert (forall i :: 0 <= i < |lines| ==> Includes(sidecar, lines[i])) <==> forall line :: line in lines ==> Includes(sidecar, line);
  }

  // ---------------------------------------------------------------- a conflict that can be resolved

  /** An object that is named by its own hash. */
  ghost predicate Blob(tools: Tools, objects: map<string, Bytes>, id: string, content: Bytes) {
    id in objects && objects[id] == content && tools.hash(content) == id
  }

  /** The record stored under a stage of the conflict. */
  ghost predicate StageText(tools: Tools, objects: map<string, Bytes>, stage: Option<string>, record: string) {
    exists content :: stage.Some? && Blob(tools, objects, stage.value, content) && record == tools.decode(content)
  }

  /** The record names both owners, and their contents are stored. */
  ghost predicate NamesBoth(tools: Tools, objects: map<string, Bytes>, paths: PairPaths, record: string, owners: Owners) {
    exists hashes ::
      && PairingRecord.Parse(record, paths) == Some(hashes)
      && Blob(tools, objects, hashes.sourceHash, owners.source) && Blob(tools, objects, hashes.zhHash, owners.zh)
  }

  /** Index and file both hold that content. */
  ghost predicate InPlace(tools: Tools, view: View, path: string, content: Bytes) {
    && path in view.index && view.index[path] == tools.hash(content)
    && path in view.worktree && tools.hash(view.worktree[path]) == tools.hash(content)
  }

  /** The owners of the three sides, and what they merge to. */
  datatype Sides = Sides(ancestor: Owners, current: Owners, other: Owners, merged: Owners)

  /** Both owners merge cleanly and keep their common structure, and the merges are staged and checked out. */
  ghost predicate OwnersMerge(tools: Tools, view: View, paths: PairPaths, records: Records, sides: Sides) {
    && NamesBoth(tools, view.objects, paths, records.ancestor, sides.ancestor)
    && NamesBoth(tools, view.objects, paths, records.current, sides.current)
    && NamesBoth(tools, view.objects, paths, records.other, sides.other)
    && tools.textMerge(sides.ancestor.source, sides.current.source, sides.other.source) == Some(sides.merged.source)
    && tools.textMerge(sides.ancestor.zh, sides.current.zh, sides.other.zh) == Some(sides.merged.zh)
    && tools.sameStructure(paths, sides.merged.source, sides.merged.zh)
    && InPlace(tools, view, paths.source, sides.merged.source) && InPlace(tools, view, paths.zh, sides.merged.zh)
  }

  ghost predicate ThreeRecords(tools: Tools, objects: map<string, Bytes>, stages: Stages, records: Records) {
    && StageText(tools, objects, stages.ancestor, records.ancestor)
    && StageText(tools, objects, stages.current, records.current)
    && StageText(tools, objects, stages.other, records.other)
  }

  ghost predicate Evidence(tools: Tools, view: View, path: string, stages: Stages, records: Records, sides: Sides) {
    && ThreeRecords(tools, view.objects, stages, records)
    && path in view.worktree && Untouched(tools, tools.decode(view.worktree[path]), records)
    && tools.inScope(path) && PathsFromMeta(path).Some? && tools.defaultMerge(PathsFromMeta(path).value)
    && OwnersMerge(tools, view, PathsFromMeta(path).value, records, sides)
  }

  ghost predicate Resolvable(tools: Tools, view: View, path: string, stages: Stages) {
    exists records, sides :: Evidence(tools, view, path, stages, records, sides)
  }

  lemma StageRead(tools: Tools, objects: map<string, Bytes>, stage: Option<string>, record: string)
    ensures StageText(tools, objects, stage, record) <==>
      stage.Some? && ReadBlob(tools, objects, stage.value).Ok? && tools.decode(ReadBlob(tools, objects, stage.value).value) == record
  {
  }

  /** The three records are read exactly when they are there and nobody edited the sidecar. */
  lemma RecordsRead(tools: Tools, view: View, path: string, stages: Stages, records: Records)
    ensures ReadRecords(tools, view, path, stages) == Ok(records) <==>
      && ThreeRecords(tools, view.objects, stages, records)
      && path in view.worktree && Untouched(tools, tools.decode(view.worktree[path]), records)
  {
    StageRead(tools, view.objects, stages.ancestor, records.ancestor);
    StageRead(tools, view.objects, stages.current, records.current);
    StageRead(tools, view.objects, stages.other, records.other);
    if path in view.worktree {
      UntouchedIs(tools, tools.decode(view.worktree[path]), records);
    }
    hide Untouched, Unedited, StageText, ReadBlob;
  }

  lemma OwnersLoaded(tools: Tools, objects: map<string, Bytes>, paths: PairPaths, record: string, owners: Owners)
    ensures LoadOwners(tools, objects, record, paths) == Ok(owners) <==> NamesBoth(tools, objects, paths, record, owners)
  {
    hide PairingRecord.Parse;
  }

  lemma PlaceConfirmed(tools: Tools, view: View, paths: PairPaths, merged: Owners)
    ensures Confirm(tools, view, paths, tools.hash(merged.source), tools.hash(merged.zh)).None? <==>
      InPlace(tools, view, paths.source, merged.source) && InPlace(tools, view, paths.zh, merged.zh)
  {
  }

  lemma OwnersComposed(tools: Tools, paths: PairPaths, sides: Sides)
    ensures ComposeOwners(tools, paths, sides.ancestor, sides.current, sides.other) == Ok(sides.merged) <==>
      && tools.textMerge(sides.ancestor.source, sides.current.source, sides.other.source) == Some(sides.merged.source)
      && tools.textMerge(sides.ancestor.zh, sides.current.zh, sides.other.zh) == Some(sides.merged.zh)
      && tools.sameStructure(paths, sides.merged.source, sides.merged.zh)
  {
  }

  ghost predicate Stores(objects: map<string, Bytes>, more: map<string, Bytes>) {
    forall id :: id in objects ==> id in more && more[id] == objects[id]
  }

  lemma RecordsStay(tools: Tools, objects: map<string, Bytes>, more: map<string, Bytes>, stages: Stages, records: Records)
    requires Stores(objects, more) && ThreeRecords(tools, objects, stages, records)
    ensures ThreeRecords(tools, more, stages, records)
  {
    StageStays(tools, objects, more, stages.ancestor, records.ancestor);
    StageStays(tools, objects, more, stages.current, records.current);
    StageStays(tools, objects, more, stages.other, records.other);
  }

  lemma OwnersStay(tools: Tools, view: View, more: map<string, Bytes>, paths: PairPaths, records: Records, sides: Sides)
    requires Stores(view.objects, more) && OwnersMerge(tools, view, paths, records, sides)
    ensures OwnersMerge(tools, View(more, view.index, view.worktree), paths, records, sides)
  {
    NamesStay(tools, view.objects, more, paths, records.ancestor, sides.ancestor);
    NamesStay(tools, view.objects, more, paths, records.current, sides.current);
    NamesStay(tools, view.objects, more, paths, records.other, sides.other);
  }

  /** More objects take no evidence away. */
  lemma EvidenceStays(tools: Tools, view: View, more: map<string, Bytes>, path: string, stages: Stages)
    requires Stores(view.objects, more) && Resolvable(tools, view, path, stages)
    ensures Resolvable(tools, View(more, view.index, view.worktree), path, stages)
  {
    hide Untouched, PathsFromMeta, OwnersMerge, ThreeRecords, Stores;
    var records, sides :| Evidence(tools, view, path, stages, records, sides);
    RecordsStay(tools, view.objects, more, stages, records);
    OwnersStay(tools, view, more, PathsFromMeta(path).value, records, sides);
    assert Evidence(tools, View(more, view.index, view.worktree), path, stages, records, sides);
  }

  lemma StageStays(tools: Tools, objects: map<string, Bytes>, more: map<string, Bytes>, stage: Option<string>, record: string)
    requires Stores(objects, more) && StageText(tools, objects, stage, record)
    ensures StageText(tools, more, stage, record)
  {
    var content :| stage.Some? && Blob(tools, objects, stage.value, content) && record == tools.decode(content);
    assert Blob(tools, more, stage.value, content);
  }

  lemma NamesStay(tools: Tools, objects: map<string, Bytes>, more: map<string, Bytes>, paths: PairPaths, record: string, owners: Owners)
    requires Stores(objects, more) && NamesBoth(tools, objects, paths, record, owners)
    ensures NamesBoth(tools, more, paths, record, owners)
  {
    hide PairingRecord.Parse;
  }
}
