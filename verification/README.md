# Verified models of the repository's build and documentation tooling

The scripts directory of the repository holds the tooling that gates a change: a scheduler for the
gate graph, an abstract walk over declared types, a name rewriter that must be reversible, a codec
for translation responses, incremental document updates, graph checks, a worker pool and a
merge-conflict resolver. This project models the algorithms inside those scripts and proves what
they promise. Verify everything with `dafny verify dfyconfig.toml`.

Code that changes state step by step is a class or a method with loops, proved against functions or
predicates; code made of expressions is a set of functions. Library calls (Markdown and TypeScript
parsers, Git, hashing, text merge, locale comparison, child processes) are function parameters, so
each theorem holds for whatever they answer.

Functions that compute a result are stated a second time in other terms: as positions, pieces and
counts of the input that do not name the function. The operations promise these
(`ScheduleLog.Explained`, `PackageOrder.InPromisedOrder`, `PasteClosure.Account`,
`Rescope.RewrittenWhere`, `PairingResolver.Mergeable`, `BriefScope.Briefing`, `LinkRewrite.Redirect`),
or a lemma connects the two.

| Files | Script | Subject |
|---|---|---|
| `GateGraph`, `Scheduler`, `ScheduleIndependence`, `ScheduleLog`, `GateRunner` | run-gates.ts | dependency cycles, the scheduler as a transition system, confluence, what the log explains, the loop itself |
| `TypeWalk`, `TypeWalkExact`, `TypeWalkTermination`, `TypeWalkLevels`, `TypeWalkGrowth`, `PathCheck`, `PasteClosure` | gen-config-catalog.ts | the three-valued presence walk: what its answers mean, when they say all there is to say, when it stops; the paste worklist |
| `RescopeLine`, `RescopeLaws`, `RescopeScan`, `RescopeFile`, `Renames`, `Rescope`, `RescopeMeaning` | rescope-vendor.ts | package renames: quoted tokens, YAML names, fences, both directions |
| `ResponseBody`, `ResponseCodec`, `ResponseLaws`, `ResponseMeaning` | translation-prompt.ts | the escaped three-section codec, and which texts it accepts |
| `Splice`, `MarkdownLines`, `MechanicalUpdate`, `MechanicalLaws`, `BriefSpans`, `FirstOccurrence`, `BriefScope` | translation-brief.ts, gen-translation-brief.ts | in-place splices, the code-only update, sections, first occurrences and briefings |
| `Destination`, `DestinationMeaning`, `LinkRewrite` | project-doc-site.ts | link destinations and their replacement |
| `PackageOrder`, `Agreement` | package-graph.ts | the layered topological order, and that it agrees with the cycle search of run-gates.ts |
| `ProjectPaths`, `Faces`, `FaceCheck`, `FaceRules` | project-reference-faces.ts | the compiler-face check, and the rule its description states |
| `WorkerPool`, `PoolSize` | publint-all.ts | the worker pool and its size |
| `PairingRecord`, `PairingMerge`, `PairingEvidence`, `PairingResolver` | translation-pairing-record.ts, translation-pairing-merge.ts | the record codec and the conflict resolver |
| `Calendar`, `ArchiveDates` | archived-agent-notes.ts | calendar arithmetic after ECMA-262, date validity and order |
| `MarkdownComments` | markdown.ts | prose lines outside comments |
| `Common`, `Text`, `Decimal`, `Sorting`, `Graph` | shared | options, lines, numerals, stable sort, walks and cycles |

Several properties one would expect do not hold for all inputs. The code is modelled as it is, with a
concrete input that fails and the exact condition under which the property holds; for the last two
the condition is sufficient, and exact for the class of inputs named:

* A rendered response is parsed back exactly when no body is torn at a delimiter the parser looks
  for later (`ResponseLaws.ResponseRoundTrip`): the searches stop at CR, U+2028 and U+2029, the
  escaping only at line feeds (`ResponseLaws.CarriageReturnBreaks`).
* Reverse rescoping restores a text exactly when each scoped name on a rewritten line stands directly
  behind a token that the forward run renames to the same package (`Rescope.FileRoundTrip`); a text
  without scoped names is always restored (`Rescope.UnscopedRoundTrip`), a quoted scoped name alone
  is not (`Rescope.ScopedNameMoves`).
* A second rescoping run changes a file exactly when a rewritten line has a token left behind
  (`Rescope.FileSecondPass`), which takes two tokens of one package that share a quote
  (`RescopeLaws.LeftBehindShares`, `Rescope.UnsharedSecondPass`), as in `'cordis'cordis'`
  (`Rescope.SharedQuoteMoves`).
* A pairing record is read back exactly when its path is recordable
  (`PairingRecord.RecordReadBack`); otherwise reading fails and never yields other hashes, as for a
  name with a number sign (`PairingRecord.NumberSignIsRefused`).
* Dates of the years 0 to 99 are never valid (`ArchiveDates.ValidDateExactly`), such as 0050-01-01
  (`ArchiveDates.YearFiftyIsRefused`).
* The mask of a source tells its prose exactly when no line of the prose before or behind a code
  block equals the mask of that block (`MechanicalLaws.MaskTellsProse`). Otherwise the code-only
  update can put an edit in the old place (`MechanicalLaws.MarkerProseHidesMove`). What an update is
  made of does not depend on this (`MechanicalLaws.UpdateMeans`).
* An empty face report meets the rule in the script's own description, which asks for the leaf of the
  aggregate a config is reached from, exactly when every config that refers into a split package has
  the face of each aggregate it is reached from (`FaceRules.CleanReport`). A host aggregate that
  refers to the client aggregate is not reported (`FaceRules.ClientLeafUnderHost`).
* The presence walk answers `missing` for members declared by index signatures, methods and quoted
  names (`PathCheck.IndexMethodAndQuotedMissed`). `missing` is absence exactly when the walk came to
  no literal and no interface that may declare the next name in a signature it does not see
  (`TypeWalkExact.MissingExactly`), so always when every declaration in reach names its properties
  as written and has no other named signature (`TypeWalkExact.PlainOverlooksNothing`). `found` is
  always presence (`TypeWalk.LookupSound`).
* The presence walk can answer `unknown` although all readings of the types agree, as on
  `type T = B & B` (`PathCheck.DiamondIsUnknown`). Only its guard does that: where the walk without
  the guard stops, the answer is the same or `unknown` (`TypeWalkExact.GuardOnlyHides`), and when no
  declaration is met twice with as many steps left, it says all there is to say
  (`TypeWalkExact.LookupIsExact`).
* The presence walk stops when no indexed access in reach lies on a cycle of declarations
  (`TypeWalkTermination.DeclStops`), or when cycles consume the steps they add
  (`TypeWalkLevels.LeveledStops`). It stops for no nonempty path when it comes back to a declaration
  with a longer path whatever the path is (`TypeWalkGrowth.GrowingNeverStops`), as on
  `type T = T['a']` (`PathCheck.SelfIndexedDiverges`). Where no reference stands behind a member or
  an array step, the first condition is exact (`TypeWalkGrowth.StopsExactly`).

## Model

| member | source | states |
|---|---|---|
| GateGraph.CycleFinder.Visit | scripts/run-gates.ts:694-711 | the depth-first visit returns a genuine cycle of `needs` edges, or explores everything below a gate with the stack restored |
| GateGraph.FindDependencyCycle | scripts/run-gates.ts:688-718 | nothing is returned exactly when the graph is acyclic; otherwise a closed walk over real `needs` edges |
| GateGraph.ValidateGateGraph | scripts/run-gates.ts:668-686 | accepts exactly non-empty lists with distinct ids, known needs and no cycle, and names the first fault |
| Scheduler.FailedDepsMembers | scripts/run-gates.ts:761-764 | the filter keeps exactly the needs that failed or were skipped |
| Scheduler.FailedDepsInOrder | scripts/run-gates.ts:761-764 | ... in declaration order, as often as they are declared; that a skip records all of them is `ScheduleLog.RunExplained` |
| Scheduler.FirstReady | scripts/run-gates.ts:745-746 | a pending gate whose needs all passed, or none exists |
| Scheduler.FirstReadyIsFirst | scripts/run-gates.ts:745-746 | the gate found is the first such gate in list order |
| Scheduler.FirstBlocked | scripts/run-gates.ts:756-759 | a pending gate with a failed or skipped need, or none exists |
| Scheduler.FirstBlockedIsFirst | scripts/run-gates.ts:756-759 | the gate found is the first such gate in list order |
| Scheduler.StartKeeps | scripts/run-gates.ts:744-751 | starting a ready gate keeps the invariant: slots, results, one executor call per gate |
| Scheduler.SettleKeeps | scripts/run-gates.ts:782-788 | settling any running gate keeps the invariant |
| Scheduler.SkipKeeps | scripts/run-gates.ts:753-779 | skipping a blocked gate keeps the invariant, and makes no gate ready |
| Scheduler.RunSafety | scripts/run-gates.ts:742-789 | in every state of every run at most `maxActive` gates run, none starts twice or before its needs passed, and each skip has a failed or skipped need |
| Scheduler.StepWorks | scripts/run-gates.ts:742-789 | every step reduces the work left |
| Scheduler.RunsAreBounded | scripts/run-gates.ts:742-789 | no run is longer than two steps per gate |
| Scheduler.NeverStalls | scripts/run-gates.ts:760 | the "stalled" throw is unreachable on a validated graph |
| Scheduler.Progress | scripts/run-gates.ts:742-789 | an unfinished run on a validated graph can always take a step |
| Scheduler.TerminalIsComplete | scripts/run-gates.ts:791-795 | a finished run has exactly one result and one observer call per gate, so "missing result" is unreachable |
| ScheduleIndependence.UniqueStatuses | scripts/run-gates.ts:728-796 | at most one status map lets each gate take its outcome when its needs passed and skips it otherwise |
| ScheduleIndependence.TerminalSolves | scripts/run-gates.ts:728-796 | the statuses of a finished run are that map |
| ScheduleIndependence.QuietIsUnique | scripts/run-gates.ts:753-754 | the table before the skip sweep does not depend on the schedule |
| ScheduleIndependence.SweepOrigin | scripts/run-gates.ts:753-780 | every swept state of a run is the sweep of a quiet state without skips |
| ScheduleIndependence.ScheduleIndependent | scripts/run-gates.ts:728-796 | two finished runs with different settle orders and different concurrency bounds record the same results |
| ScheduleLog.TablesInLog | scripts/run-gates.ts:756-788 | the observed log has of each settled gate its status, and nothing of any other gate |
| ScheduleLog.FailedDepsPicked | scripts/run-gates.ts:761-764 | the recorded list is, position by position, all needs that the log has with another status than passed |
| ScheduleLog.RunExplained | scripts/run-gates.ts:742-789 | in every run each log entry follows from those before it: an executed gate after all its needs passed, a skipped one naming in order, with repetitions, exactly its needs that did not |
| GateRunner.Runner.constructor | scripts/run-gates.ts:738-740 | the loop begins in the initial state |
| GateRunner.Runner.StartReady | scripts/run-gates.ts:743-751 | starts gates until every slot is taken or nothing is ready |
| GateRunner.Runner.AwaitOne | scripts/run-gates.ts:782-788 | waits only when full or nothing is ready; an arbitrary running gate settles |
| GateRunner.Runner.SweepSkipped | scripts/run-gates.ts:753-780 | leaves no gate pending, adds skipped gates alone to the log, and each names all its needs that the log before it has not passed |
| GateRunner.RunGates | scripts/run-gates.ts:728-796 | the loop ends, walks the transition system, and returns one result per gate in list order, each one observed; every observed entry is explained by those before it, skipped gates naming all their unsuccessful needs in order; bad graphs and concurrency are refused |
| PackageOrder.EntriesDistinct | scripts/package-graph.ts:60 | building the map keeps one entry per name |
| PackageOrder.EntriesMean | scripts/package-graph.ts:60 | the map has of each name the last package of the list, at the place where the list first has the name |
| PackageOrder.ComparisonOfPackages | scripts/package-graph.ts:77-83 | the comparison is a total preorder when the locale order is one |
| PackageOrder.ComparingMeans | scripts/package-graph.ts:77-83 | a package comes before or ties with another exactly when its group has no later first position in the group order, and, where neither is listed or the groups are the same, by the locale order of groups and then of names |
| Sorting.SortStable | scripts/package-graph.ts:66 | packages that tie keep their order |
| PackageOrder.StuckMeansBroken | scripts/package-graph.ts:67 | a round that places nothing means an unknown dependency or a cycle |
| PackageOrder.OrderedMeansSound | scripts/package-graph.ts:59-75 | a dependency-safe order of all packages means closed and acyclic |
| PackageOrder.TopoSort | scripts/package-graph.ts:59-75 | succeeds exactly on closed acyclic graphs, with a permutation, dependencies first, of the last packages of their names, ordered by longest dependency chain and then by positions in the group order, groups and names; otherwise the named rest waits on itself |
| Agreement.SameGraph | scripts/run-gates.ts:688-690 | the cycle search sees the same graph as the ordering, for packages with one entry per name |
| Agreement.CrossCheck | scripts/package-graph.ts:59-75 | on packages whose dependencies are all known an order exists exactly when the cycle search finds nothing; a cycle found always rules an order out |
| TypeWalk.TurnSound | scripts/gen-config-catalog.ts:335-402 | where no signature is hidden one turn of the walk says about presence what the declared types say, and `unknown` where the syntax leaves it open |
| TypeWalk.HiddenTurn | scripts/gen-config-catalog.ts:335-364 | at a hidden signature the walk answers `missing` or goes on to the bases, whose members are still present |
| TypeWalk.LookupSound | scripts/gen-config-catalog.ts:317-403 | from any guard state, `found` is presence whatever branch of each union is read, and `missing` is absence unless a signature was overlooked |
| TypeWalk.LookupAllSound | scripts/gen-config-catalog.ts:366-376 | the same for all parts of a union or intersection, with the guard passed along |
| TypeWalkExact.CarefulIsExact | scripts/gen-config-catalog.ts:317-403 | the walk without its guard, hidden signatures counted as unknown, is exact when it stops: `found` exactly on what every reading has, `missing` exactly on what none has |
| TypeWalkExact.ExactIsCareful | scripts/gen-config-catalog.ts:224-226 | no other answer is exact |
| TypeWalkExact.MissingExactly | scripts/gen-config-catalog.ts:335-364 | `missing` is absence under every reading exactly when the walk overlooked no signature that may declare the name |
| TypeWalkExact.PlainOverlooksNothing | scripts/gen-config-catalog.ts:335-345 | nothing is overlooked where the declarations in reach name their properties as written and have no other named signature |
| TypeWalkExact.GuardIdle | scripts/gen-config-catalog.ts:322-326 | when no declaration is met twice with as many steps left, the walk is the one without the guard |
| TypeWalkExact.GuardOnlyHides | scripts/gen-config-catalog.ts:322-326 | where the walk without the guard stops, the guard can only turn its answer into `unknown` |
| TypeWalkExact.LookupIsExact | scripts/gen-config-catalog.ts:317-403 | a walk that overlooks nothing and meets no key twice is exact: an `unknown` means that readings differ |
| TypeWalkTermination.DeeperIsSame | scripts/gen-config-catalog.ts:317-403 | the answer does not depend on how deep the calls may go |
| TypeWalkTermination.SeenGrows | scripts/gen-config-catalog.ts:322-326 | the guard only grows |
| TypeWalkTermination.DeclStops | scripts/gen-config-catalog.ts:322-361 | from every guard state the walk of a declaration stops, when no indexed access in its reach lies on a cycle of declarations |
| TypeWalkTermination.TypeStops | scripts/gen-config-catalog.ts:361-402 | the same for every type inside a declaration |
| TypeWalkLevels.LeveledStops | scripts/gen-config-catalog.ts:317-403 | the walk stops for every path and guard state when the declarations in reach have levels such that no reference adds more steps, less those consumed on the way, than its target's level allows |
| TypeWalkGrowth.MeetsAll | scripts/gen-config-catalog.ts:317-403 | a walk that stopped has entered every declaration that is met whatever the path is, with the path lengths it is met with |
| TypeWalkGrowth.GrowingNeverStops | scripts/gen-config-catalog.ts:381-400 | a declaration from which the walk comes back to one with a longer path never stops, for any nonempty path |
| TypeWalkGrowth.StopsExactly | scripts/gen-config-catalog.ts:317-403 | when no reference in reach stands behind a member or an array step, the walk stops exactly when no indexed access in reach lies on a cycle |
| PathCheck.Walker.Walk | scripts/gen-config-catalog.ts:317-403 | the walk with one mutable `seen` set is the specified walk |
| PathCheck.Walker.WalkAll | scripts/gen-config-catalog.ts:366-376 | the parts are walked in order with the same set |
| PathCheck.LookupPath | scripts/gen-config-catalog.ts:317-403 | when no indexed access in reach lies on a cycle, or cycles consume what they add, the check stops; `found` is true under every reading, `missing` exactly when nothing was overlooked |
| PathCheck.SelfIndexedDiverges | scripts/gen-config-catalog.ts:381-385 | no call depth is enough for `type T = T['a']` |
| PathCheck.SelfIndexedIsOnCycle | scripts/gen-config-catalog.ts:381-385 | that declaration has an indexed access on a cycle |
| PathCheck.BalancedStops | scripts/gen-config-catalog.ts:381-385 | `type T = { a: T['a'] }` stops although its indexed access lies on a cycle |
| PathCheck.BalancedHasLevels | scripts/gen-config-catalog.ts:381-385 | because the member step it consumes makes up for the one it adds |
| PathCheck.DiamondIsUnknown | scripts/gen-config-catalog.ts:322-326 | because branches share the guard, a member that no reading has can be reported as unknown: one key is met twice |
| PathCheck.HiddenIsMissed | scripts/gen-config-catalog.ts:336-345 | a literal with one signature that may declare the name but is not a property of that text is reported missing although some reading has the member |
| PathCheck.IndexMethodAndQuotedMissed | scripts/gen-config-catalog.ts:338 | so are the members of `{ [key: string]: ... }`, `{ foo(): void }` and `{ 'a-b': ... }` |
| PasteClosure.CollectClosure | scripts/gen-config-catalog.ts:663-717 | the worklist ends, pastes no name twice, keeps pasted and referenced names apart, holds only what is reached; no violation exactly when the closure is unambiguous, and then every use is recorded as what it resolves to; the uses come in the order of the pastes they stand in, the first that resolves gives a name its meaning, and each use is charged with its own violation, in order |
| PasteClosure.UsesInOrder | scripts/gen-config-catalog.ts:709-714 | a declaration queues the names it uses in order, without the global ones |
| PasteClosure.KeepPaste | scripts/gen-config-catalog.ts:706-714 | pasting keeps the account of uses, meanings, pastes and violations |
| PasteClosure.ClashIsAmbiguous | scripts/gen-config-catalog.ts:674-705 | every reported clash is a genuine ambiguity of the closure |
| PasteClosure.CoveredReaches | scripts/gen-config-catalog.ts:709-714 | when the queue is empty every reached use is recorded |
| RescopeLine.UnparseParse | scripts/rescope-vendor.ts:551 | cutting a line at its quotes loses nothing |
| RescopeLine.ParseUnparse | scripts/rescope-vendor.ts:551 | the cut is unique |
| RescopeScan.MatchIsToken | scripts/rescope-vendor.ts:551 | the token pattern matches at a quote exactly when the text up to the next quote is a token of the name |
| RescopeScan.ScanIsRewrite | scripts/rescope-vendor.ts:569-571 | the global replacement, character by character, renames exactly the tokens whose opening quote was not consumed by the token before |
| RescopeLaws.OneOwner | scripts/rescope-vendor.ts:541-554 | no text is a token of two of the names |
| RescopeLaws.PassOnTokens | scripts/rescope-vendor.ts:567-573 | a pass over all patterns renames each token by the one pattern that owns it in the original line |
| RescopeLaws.PassOnYaml | scripts/rescope-vendor.ts:572 | the same for the YAML name |
| RescopeLaws.ReverseHits | scripts/rescope-vendor.ts:541-575 | the reverse pattern rewrites exactly what the forward pattern rewrote |
| RescopeLaws.LineRoundTrip | scripts/rescope-vendor.ts:565-575 | reverse after forward gives a line back, on the quoted view, exactly when each produced name on it is shielded by a token renamed directly before it |
| RescopeLaws.SecondPass | scripts/rescope-vendor.ts:565-575 | a second pass changes nothing exactly when no token was left behind |
| RescopeLaws.LeftBehindShares | scripts/rescope-vendor.ts:569-571 | a token left behind takes two tokens of its package that share a quote, whatever is protected |
| RescopeLaws.LeftBehindIsSharing | scripts/rescope-vendor.ts:569-571 | on a line whose tokens of the package are not protected, the two are equivalent |
| RescopeFile.YamlHitParsed | scripts/rescope-vendor.ts:552 | the YAML pattern sees only the text before the first quote |
| RescopeFile.LineOnPiece | scripts/rescope-vendor.ts:565-575 | rewriting a stretch without line terminators is rewriting its quoted view |
| RescopeFile.LineAcross | scripts/rescope-vendor.ts:565-575 | stretches between CR, U+2028 and U+2029 are rewritten one by one |
| RescopeFile.RoundTripLine | scripts/rescope-vendor.ts:565-575 | the same for a line with any terminators inside, stretch by stretch |
| RescopeFile.SecondPassLine | scripts/rescope-vendor.ts:565-575 | a second pass leaves a line alone exactly when none of its stretches has a token left behind |
| Renames.PatternsSeparated | scripts/rescope-vendor.ts:541-554 | the nine names, scoped and upstream, do not overlap as tokens, in either direction |
| Renames.PatternsMirror | scripts/rescope-vendor.ts:541-554 | the reverse patterns are the forward patterns turned around, in an order of their own |
| Renames.TablesSpareTargets | scripts/rescope-vendor.ts:560-563 | no protected value begins with a scoped name |
| Rescope.RewriteFile | scripts/rescope-vendor.ts:588-606 | line by line: outside Markdown every line is rewritten; in Markdown fences are kept, and any other line is rewritten exactly when an odd number of fences stands before it or the file lies under docs/; the count is that of the lines that differ |
| Rescope.RewrittenAt | scripts/rescope-vendor.ts:594-601 | the loop's flag is the parity of the fence lines so far |
| Rescope.FenceIs | scripts/rescope-vendor.ts:595 | a fence line is white space and three backticks, then anything |
| Rescope.FenceStays | scripts/rescope-vendor.ts:595 | rewriting a line neither makes nor removes a fence |
| Rescope.FileRoundTrip | scripts/rescope-vendor.ts:588-611 | for every file and both skip tables, reverse after forward restores a text exactly when its rewritten lines return |
| Rescope.UnscopedRoundTrip | scripts/rescope-vendor.ts:588-611 | so every text without scoped names on rewritten lines is restored |
| Rescope.ScopedNameMoves | scripts/rescope-vendor.ts:569-571 | for each renamed package, a line with its quoted scoped name alone is not restored |
| Rescope.FileSecondPass | scripts/rescope-vendor.ts:588-611 | a second forward run over a file is a no-op exactly when no rewritten line has a token left behind |
| Rescope.UnsharedSecondPass | scripts/rescope-vendor.ts:588-611 | without two tokens of one package that share a quote a second forward run is a no-op, for both skip tables |
| Rescope.SharedQuoteMoves | scripts/rescope-vendor.ts:569-571 | for each renamed package that is not protected, two of its names that share a quote are changed by a second pass |
| RescopeMeaning.TokenTextMeans | scripts/rescope-vendor.ts:551 | a token is the name, or the name with a slash and a subpath without white space, and renaming keeps the subpath |
| RescopeMeaning.HitMeans | scripts/rescope-vendor.ts:569-571 | of tokens in a row that share their quotes every other one is matched |
| RescopeMeaning.YamlMeans | scripts/rescope-vendor.ts:552 | the YAML pattern matches exactly indent, optional dash, `name:`, blanks, the name, blanks and optional comment, and renaming replaces the name alone |
| RescopeMeaning.ProtectedMeans | scripts/rescope-vendor.ts:560-563 | a token is protected exactly when it is a listed value, possibly with backslashes behind it |
| RescopeMeaning.PassMeans | scripts/rescope-vendor.ts:565-575 | after a whole pass a quoted text is renamed exactly when a package not skipped in the file names it, in an even place of its row, unprotected; otherwise it stays |
| RescopeMeaning.YamlPassMeans | scripts/rescope-vendor.ts:565-575 | and the first text exactly when its YAML name is that of a package not skipped in the file |
| RescopeMeaning.NameLineRewritten | scripts/rescope-vendor.ts:572 | for each renamed package the line `name: <package>` is rewritten, in either direction |
| RescopeMeaning.QuotedNameRewritten | scripts/rescope-vendor.ts:569-571 | and so is the quoted name, unless it is protected |
| ResponseBody.UnescapeEscape | scripts/translation-prompt.ts:157-170 | unescaping undoes escaping, and an escaped body has no bare delimiter line |
| ResponseBody.EscapeUnescape | scripts/translation-prompt.ts:157-170 | escaping undoes unescaping exactly on bodies without a bare delimiter line: escape is a bijection onto those |
| ResponseBody.EscapeLineLaws | scripts/translation-prompt.ts:157-170 | one escaped line is never a delimiter and is restored |
| ResponseCodec.ParseTranslationResponse | scripts/translation-prompt.ts:183-217 | the section loop computes the specified parse, with its five errors |
| ResponseLaws.CountedOnce | scripts/translation-prompt.ts:194-199 | each delimiter is a whole line of a rendered response exactly once |
| ResponseLaws.TornShows | scripts/translation-prompt.ts:201-202 | a delimiter search hits inside an escaped body exactly where the body is torn at that delimiter |
| ResponseLaws.LocateOwn | scripts/translation-prompt.ts:191-214 | a section whose delimiters are found at their own lines is read back exactly |
| ResponseLaws.ResponseRoundTrip | scripts/translation-prompt.ts:173-217 | parsing a rendered response gives it back exactly when it is intact |
| ResponseLaws.PlainResponseRoundTrip | scripts/translation-prompt.ts:173-217 | every response whose bodies have no CR, U+2028 or U+2029 comes back |
| ResponseLaws.CarriageReturnBreaks | scripts/translation-prompt.ts:201-202 | a body with a delimiter behind a CR does not come back |
| ResponseLaws.WrapperIsIgnored | scripts/translation-prompt.ts:184-186 | a fenced wrapper around a rendered response does not change what is parsed |
| ResponseMeaning.FindLineIs | scripts/translation-prompt.ts:201-202 | a delimiter search finds the first place where the line stands between terminators or the ends of the text, and fails where there is none |
| ResponseMeaning.LocateMeans | scripts/translation-prompt.ts:191-214 | one turn of the loop reads the section that is there, or refuses the text for the first reason that applies |
| ResponseMeaning.AcceptedMeans | scripts/translation-prompt.ts:183-217 | for every text: what is read from it are the contents of three sections, each with its delimiters once, in order, separated by line feeds alone and reaching to the end; nothing else is accepted |
| ResponseMeaning.RefusedMeans | scripts/translation-prompt.ts:194-215 | for every text and error: it is refused with that error exactly when the first section that cannot be read has that fault, or something stands behind the last one |
| ResponseMeaning.UnwrapMeans | scripts/translation-prompt.ts:184-186 | a fence around the whole text is dropped, and white space outside or directly inside it |
| Splice.Tiling | scripts/translation-brief.ts:167-175 | the stretches outside disjoint ranges and the ranges themselves make up the sequence |
| Splice.SpliceOne | scripts/translation-brief.ts:172 | one splice at a range before which nothing was replaced replaces that range and nothing else |
| Splice.ReadBack | scripts/translation-brief.ts:167-175 | after a substitution the gaps and the new values can be read off the result at computable places |
| Splice.SpliceDescending | scripts/translation-brief.ts:169-173 | splices in descending order are one simultaneous substitution |
| MarkdownLines.ReadPrint | scripts/translation-brief.ts:35-43 | lines printed with one final line feed are read back |
| MarkdownLines.LinesAreLines | scripts/translation-brief.ts:35-39 | the lines contain no line feed, and no CR when every CR precedes a line feed |
| MarkdownLines.LinesMean | scripts/translation-brief.ts:35-39 | a line is the text between line feeds without one return at its end, and a last empty piece is none |
| MechanicalUpdate.ReplaceSpanTexts | scripts/translation-brief.ts:167-175 | replaces exactly the given spans, whatever the order of the entries; fails exactly on an unknown index, the largest one |
| MechanicalLaws.DocumentIsProseAndCode | scripts/translation-brief.ts:162-165 | prose and code blocks make up the document |
| MechanicalLaws.CodesAt | scripts/translation-brief.ts:41-43 | the i-th code block has the lines at the i-th position of the parser, counted from 1 |
| MechanicalLaws.ProseAt | scripts/translation-brief.ts:167-175 | prose is the lines before, between and behind those positions |
| MechanicalLaws.SameText | scripts/translation-brief.ts:199-200 | block texts are equal exactly when their lines are |
| MechanicalLaws.MaskTellsProse | scripts/translation-brief.ts:177-179 | a mask determines the prose, stretch by stretch, exactly when no line of the stretch before or behind a block is that block's marker |
| MechanicalLaws.MaskIsProse | scripts/translation-brief.ts:177-179 | masks of two documents are then equal exactly when their prose is |
| MechanicalLaws.ChangedSuffices | scripts/translation-brief.ts:200-202 | splicing only the changed blocks leaves every block as in the current source |
| MechanicalLaws.UpdateMeans | scripts/translation-brief.ts:193-203 | whatever update is computed is the counterpart's prose around the current code, and the confirmed code was the counterpart's and has changed |
| MechanicalLaws.UpdateExactly | scripts/translation-brief.ts:193-203 | when the confirmed mask tells its prose, an update is computed exactly when prose is unchanged, code is not, and the counterpart has the confirmed code |
| MechanicalLaws.UpdateKeepsProse | scripts/translation-brief.ts:193-203 | read back, a computed update has the counterpart's prose lines in order and the current source's i-th block as its i-th |
| MechanicalLaws.MarkerProseHidesMove | scripts/translation-brief.ts:177-198 | with a marker among the prose, a moved block is not noticed and the update is still computed |
| BriefSpans.SectionSpans | scripts/translation-brief.ts:99-135 | the sections tile the document, a preamble first when lines precede the first heading |
| BriefSpans.SectionsMean | scripts/translation-brief.ts:109-133 | each heading opens one section of its depth and title, and the only other part is a preamble |
| BriefSpans.UnitsMean | scripts/translation-brief.ts:83-89 | the units are the parser's blocks from the first line to the last, each with the text of its lines |
| BriefSpans.UnchangedSections | scripts/translation-brief.ts:145-160 | aligned sections with equal texts mean identical lines |
| BriefScope.ChangedIndices | scripts/translation-brief.ts:158-160 | exactly the indices whose text differs, strictly ascending |
| FirstOccurrence.LineAtOffsetIs | scripts/translation-brief.ts:284-286 | the line of an offset is one more than the number of line feeds before it |
| FirstOccurrence.FirstSpanIs | scripts/translation-brief.ts:288-292 | a span is found exactly when the term occurs and that span is the first whose lines contain that line |
| FirstOccurrence.MovedIs | scripts/translation-brief.ts:326-334 | the rows noted and the spans added are those whose first occurrence the edit takes out of a span or into one |
| BriefScope.FirstOccurrenceContext | scripts/translation-brief.ts:316-337 | notes are the moved rows in table order; extra indices strictly ascending, exactly the unchanged spans that a first occurrence leaves or enters, told by the line feeds before it |
| BriefScope.CodeFences | scripts/translation-brief.ts:162-165 | the code blocks are the parser's blocks whose kind ends in `:code` |
| BriefScope.ChangedTextIs | scripts/gen-translation-brief.ts:195-196 | the terminology is matched against the confirmed and the current text of each changed span |
| BriefScope.BundlesFor | scripts/gen-translation-brief.ts:134-159 | fails exactly on an index some list lacks; otherwise one bundle per index in strictly ascending order |
| BriefScope.BriefAt | scripts/gen-translation-brief.ts:189-207 | on aligned spans the throw is unreachable; the bundles are the changed spans and, towards Chinese, the spans that the first occurrence of a row of the changed text leaves or enters, and only those carry that reason; the notes are the moved rows |
| BriefScope.PlanScope | scripts/gen-translation-brief.ts:170-213 | mechanical exactly when the update exists; otherwise the bundles and notes of the first granularity at which the three documents have the same kinds one to one and something changed; otherwise the whole document |
| Destination.LabelEnd | scripts/project-doc-site.ts:81-97 | the scan finds where the first bracket closes, skipping escaped characters |
| Destination.CloseExact | scripts/project-doc-site.ts:84-95 | for every label text with nested brackets and complete escapes, that is its end |
| Destination.DestinationOf | scripts/project-doc-site.ts:99-142 | a range found is in bounds and lies past the label |
| Destination.DestinationRange | scripts/project-doc-site.ts:99-142 | the scans compute that range or one of the four errors |
| Destination.BareDestinationFound | scripts/project-doc-site.ts:127-141 | every bare destination with nested parentheses, of a link, an image or a definition, is found exactly as written |
| Destination.AngledDestinationFound | scripts/project-doc-site.ts:119-125 | every angle-bracketed destination is found exactly as written, in all three kinds |
| DestinationMeaning.LabelMeans | scripts/project-doc-site.ts:81-97 | for every text: the label end found is the bracket that closes the first one, and there is none exactly when it does not close |
| DestinationMeaning.BareMeans | scripts/project-doc-site.ts:127-141 | a bare destination ends at an unmatched parenthesis or white space outside parentheses, and one that closes nowhere at the end |
| DestinationMeaning.DestinationMeans | scripts/project-doc-site.ts:99-142 | for every raw node: a range is found exactly where the destination stands, and which part is missing decides the error |
| LinkRewrite.InOrderMeans | scripts/project-doc-site.ts:274-280 | the replacements are one for each routed node, of its destination by its new target, in document order |
| LinkRewrite.CollectMeans | scripts/project-doc-site.ts:274-280 | the visit fails with the error of the first node, parents first, that has one, and only then |
| LinkRewrite.NestedApart | scripts/project-doc-site.ts:265-271 | destinations of nested and neighbouring nodes are disjoint |
| LinkRewrite.SortIsReverse | scripts/project-doc-site.ts:283 | sorting by descending start reverses document order |
| LinkRewrite.ApplyEdits | scripts/project-doc-site.ts:282-286 | cutting in the replacements from the back is substituting all of them at once |
| LinkRewrite.Visit | scripts/project-doc-site.ts:274-280 | collects the replacements node by node, or the first error |
| LinkRewrite.RewriteMarkdown | scripts/project-doc-site.ts:235-287 | the destination of each routed node of the tree, and of no other, is replaced by its new target, every character outside them is kept in order; or the error is that of the first node that has one |
| ProjectPaths.RelativeResolves | scripts/project-reference-faces.ts:111-114 | a relative path that climbs to a common directory and descends resolves to its target |
| ProjectPaths.AbsoluteResolves | scripts/project-reference-faces.ts:111-114 | an absolute path resolves to its target from everywhere |
| ProjectPaths.WalkAppend | scripts/project-reference-faces.ts:111-114 | a path is resolved segment by segment |
| ProjectPaths.SegmentsMean | scripts/project-reference-faces.ts:111-114 | segments are what stands between the slashes |
| ProjectPaths.DeepestRoot | scripts/project-reference-faces.ts:65-71 | the first containing root in descending path length lies inside every other containing root |
| ProjectPaths.ContainsMeans | scripts/project-reference-faces.ts:116-121 | a root contains exactly the paths that continue its own |
| ProjectPaths.FirstContaining | scripts/project-reference-faces.ts:116-121 | a root that contains the target, or none does |
| ProjectPaths.FirstContainingIsFirst | scripts/project-reference-faces.ts:116-121 | the root found is the first such root in the list |
| Faces.SplitDirectories | scripts/project-reference-faces.ts:65-69 | exactly the manifest directories that declare both faces |
| Faces.ReferenceMeans | scripts/project-reference-faces.ts:111-114 | a relative reference leads to the file it names, or to `tsconfig.json` in the directory it names |
| Faces.ExtendsMeans | scripts/project-reference-faces.ts:105-109 | `extends` is followed exactly from a leading dot on, and a missing extension is added |
| Faces.StringsInOrder | scripts/project-reference-faces.ts:82-86 | references without a path are left out, the others keep order and repetitions |
| Faces.StringsOfOne | scripts/project-reference-faces.ts:82-86 | a string path stands for itself, anything else for nothing |
| Faces.FaceIsFirstNamed | scripts/project-reference-faces.ts:88-103 | a config has the face of the nearest ancestor with a face in its name, even when `extends` is cyclic |
| Faces.VerdictIsRule | scripts/project-reference-faces.ts:41-57 | an entry draws no complaint exactly when its target is free or is the matching leaf of the deepest split package around it |
| Faces.VerdictNames | scripts/project-reference-faces.ts:41-57 | a complaint names the deepest split package, and that the config has no face or which leaf its face has there |
| FaceCheck.CollectViolations | scripts/project-reference-faces.ts:30-60 | the search ends, visits each reachable config once, reports each bad entry of a visited config once, and reports nothing exactly when all references reachable from the aggregates are consistent |
| FaceCheck.CheckReferences | scripts/project-reference-faces.ts:40-59 | complaints in order, and only consistent targets pushed |
| FaceCheck.FirstBadEdge | scripts/project-reference-faces.ts:43-58 | although bad references are not followed, a walk over all references has a first bad one and the search reaches its source |
| FaceCheck.CleanSearchIsEnough | scripts/project-reference-faces.ts:30-63 | the search is clean exactly when everything reachable over all references is |
| FaceCheck.NoViolationsMeansConsistent | scripts/project-reference-faces.ts:30-63 | no complaint exactly when no reachable reference breaks the rule |
| FaceRules.ConsistentIsLeaf | scripts/project-reference-faces.ts:41-57 | a target inside a split package passes exactly when it is the leaf of the config's own face |
| FaceRules.RulesAgree | scripts/project-reference-faces.ts:22-28 | the documented rule and the enforced one coincide when configs that refer into split packages keep the face of their aggregates; where both hold, they do keep it |
| FaceRules.CleanReport | scripts/project-reference-faces.ts:22-63 | an empty report meets the documented rule exactly when the face is kept |
| FaceRules.ClientLeafUnderHost | scripts/project-reference-faces.ts:43-58 | a concrete repository with an empty report in which the host aggregate leads into a client leaf |
| WorkerPool.StepKeeps | scripts/publint-all.ts:129-137 | under every interleaving each index is claimed once, by one worker, and its result is its own target's |
| WorkerPool.Progress | scripts/publint-all.ts:129-137 | until all workers stopped one can move |
| WorkerPool.RemainingIsNatural | scripts/publint-all.ts:129-137 | the measure every step reduces stays above zero, and at most `concurrency` runs are in flight |
| WorkerPool.DoneIsComplete | scripts/publint-all.ts:139-143 | with at least one worker, or no target, every target has its result at the end |
| WorkerPool.NoWorkersNoResults | scripts/publint-all.ts:141 | with targets but no worker the "missing result" throw is reached |
| WorkerPool.Run.Advance | scripts/publint-all.ts:130-136 | one worker, from one await to the next |
| WorkerPool.RunAll | scripts/publint-all.ts:127-145 | result i is the result of target i; the "missing result" error, about the first target, exactly for targets without a worker |
| PoolSize.AcceptsExactly | scripts/publint-all.ts:51-56 | accepted settings are exactly the printed forms of the positive safe integers |
| PoolSize.SomebodyWorks | scripts/publint-all.ts:48-61 | with something to do there is a worker, and never more workers than targets |
| PoolSize.LintAll | scripts/publint-all.ts:48-145 | the "missing result" throw is unreachable for every setting |
| PairingRecord.PathsAgree | scripts/translation-pairing-record.ts:31-53 | the pair of a source is the pair of its record path |
| PairingRecord.MetaAgrees | scripts/translation-pairing-record.ts:31-53 | the pair read off a record path has that record |
| PairingRecord.ParseTranslationPairingRecord | scripts/translation-pairing-record.ts:62-77 | the line loop computes the specified parse |
| PairingRecord.EntriesCounted | scripts/translation-pairing-record.ts:66-72 | every line that is not skipped adds one entry under a name of the right shape |
| PairingRecord.RecordRoundTrip | scripts/translation-pairing-record.ts:62-99 | the record of a recordable path is read back |
| PairingRecord.NotRecordable | scripts/translation-pairing-record.ts:62-99 | any other record is refused |
| PairingRecord.RecordReadBack | scripts/translation-pairing-record.ts:62-99 | read back exactly when the base name has a proper shape and every later line of the path is empty or a comment |
| PairingRecord.NumberSignIsRefused | scripts/translation-pairing-record.ts:62-99 | the record of `a#b.md` is refused |
| PairingMerge.RecordedNames | scripts/translation-pairing-record.ts:66-75 | every name a record yields has the shape of a data line and no line feed |
| PairingMerge.ComposedIsRecordable | scripts/translation-pairing-merge.ts:209-237 | what could be composed has a recordable path, unless the path contains a line feed |
| PairingMerge.ConfirmedReadsBack | scripts/translation-pairing-merge.ts:312-323 | a confirmed record yields the hashes of index and worktree exactly when its path is recordable |
| PairingEvidence.CutIsLines | scripts/translation-pairing-merge.ts:269-271 | the lines of a record are what stands between line feeds, without one return |
| PairingEvidence.UntouchedIs | scripts/translation-pairing-merge.ts:258-279 | a sidecar passes exactly when it is one of the two records, the clean merge, or has the three markers and every data line of both records |
| PairingResolver.OutcomeMeans | scripts/translation-pairing-merge.ts:296-323 | a conflict comes to a record exactly when there is evidence: all three stages, an unedited sidecar, owner texts that merge cleanly, and both merged owners in index and worktree |
| PairingResolver.OutcomeExactly | scripts/translation-pairing-merge.ts:292-327 | the same over the entries of the index |
| PairingResolver.OutcomeConfirms | scripts/translation-pairing-merge.ts:296-323 | what is resolved records the hashes that index and worktree hold for both owners |
| PairingResolver.DecidedReadsBack | scripts/translation-pairing-merge.ts:295-327 | a resolved record is the one of its path's pair and reads back as those hashes, for a path without line feeds |
| PairingResolver.Repository.UnmergedSidecars | scripts/translation-pairing-merge.ts:239-256 | exactly the listed record paths, with their stages |
| PairingResolver.Repository.ResolveOne | scripts/translation-pairing-merge.ts:296-323 | one conflict, in the order of the checks; it comes to a record exactly when there is evidence, and what is recorded is what index and worktree hold; only objects may be added |
| PairingResolver.Repository.DecideAll | scripts/translation-pairing-merge.ts:293-327 | every conflict is resolved or reported, exactly once, and resolved only with evidence, reported only without |
| PairingResolver.Repository.WriteAll | scripts/translation-pairing-merge.ts:328 | writes the records and no other file |
| PairingResolver.Repository.StageAll | scripts/translation-pairing-merge.ts:329-331 | stages the files as they stand and ends their conflicts, and no other entry changes |
| PairingResolver.Repository.Resolve | scripts/translation-pairing-merge.ts:292-342 | the conflicts with evidence in the old index and worktree are resolved and the others reported and left alone, so no edited sidecar is overwritten; after the return or the aggregate error each staged record is confirmed by the new index and worktree, nothing else changed, and an error is raised only when a conflict failed |
| Calendar.NextYear | scripts/archived-agent-notes.ts:76 | day numbers of years, after section 21.4.1.3 of ECMA-262, advance by the length of the year |
| Calendar.ReadOfMake | scripts/archived-agent-notes.ts:76-77 | reading the day number of a real date gives the date back |
| Calendar.MakeOfRead | scripts/archived-agent-notes.ts:76-77 | every day number is that of the real date read from it |
| Calendar.DaysInOrder | scripts/archived-agent-notes.ts:106 | day numbers of real dates are ordered by year, month and day |
| ArchiveDates.WithinTimeRange | scripts/archived-agent-notes.ts:76 | no such string names a date outside the range of time values |
| ArchiveDates.ValidDateExactly | scripts/archived-agent-notes.ts:70-78 | valid are exactly the real dates of the years from 100 on |
| ArchiveDates.YearFiftyIsRefused | scripts/archived-agent-notes.ts:70-78 | 1 January of the year 50 is a real date and is not valid |
| ArchiveDates.LessByDate | scripts/archived-agent-notes.ts:106 | strings of this shape compare by year, month and day, valid or not |
| ArchiveDates.DateOrder | scripts/archived-agent-notes.ts:103-108 | the comparison of two valid dates as strings is their order in time |
| MarkdownComments.CommentsCover | scripts/markdown.ts:112-120 | every opening mark of an HTML node stands inside a collected comment |
| MarkdownComments.CollectComments | scripts/markdown.ts:109-121 | the loops collect the offsets of every comment |
| MarkdownComments.LineRangesMean | scripts/markdown.ts:125-138 | a line has ranges exactly when a comment touches it, and they cover exactly its commented characters |
| MarkdownComments.HtmlCommentRanges | scripts/markdown.ts:123-139 | only touched lines have an entry |
| MarkdownComments.HasRenderedText | scripts/markdown.ts:143-153 | for overlapping, nested and empty ranges, true exactly when some character that is not white space lies outside all of them |
| MarkdownComments.MarkdownProseLines | scripts/markdown.ts:160-176 | a line is kept exactly when it is not in a code block and no comment touches it or ink remains outside every comment |

## Left out

- PathCheck.LookupPath: stopping is proved when no indexed access in reach lies on a cycle of declarations or when levels exist. The first condition is exact when no reference stands behind a member or an array step (TypeWalkGrowth.StopsExactly) and only sufficient beyond that, as is the second: there stopping depends on the names in the path, and the guard, which compares path lengths and is shared between the parts of a type, makes it depend on the order of the parts.
- TypeWalk.LookupSound: a step that equals the text of a property's name denotes that property, as in the code; a key whose own characters include the quotes of a quoted name is not told apart from it.
- Executor outcomes of gates are total: a gate executor or observer that throws is not modelled, nor are the console messages.
- `parsePath`, `pasteText`, `collectTypeNames` and name resolution across files: the walk takes steps and a resolver as given. The type operator is `readonly`.
- `checkMemberDocs` reports one violation per undocumented declaration here; the script reports one per member.
- The tables of files in the rescope skip lists: a file's skips are a parameter, constrained by the tables' values. The exact edits, classification and exclusions of that script.
- Backtracking of the regular expressions is replaced by their first match, computed directly.
- Rendering of diagnostics, notes and messages, and the final sort of the face diagnostics.
- Locale order of names is an abstract total preorder.
- Markdown and TypeScript parsing: positions are sorted and in range, nested nodes lie inside the label of their parent, headings stand on different lines, code blocks start on lines of their own.
- Lone carriage returns in the sources of a code-only update.
- Resolution of link targets, routes and images: one function from a target to what it is published as.
- Term matching by word boundary and inflection: a function to the first offset.
- Hashing, text merge, encoding, merge attributes and structural comparison of documents are functions; object storage never replaces an object; the wire format of `git ls-files` is not parsed; listed paths are in normal form.
- Rounding in `parseInt`: a number is compared with the largest safe integer before rounding, which gives the same verdict because rounding is monotone and fixes the next power of two.
- `runPublint` settles for every target, as it catches its own errors.
- Process spawning, file globbing, argument parsing and `main` functions.
- The concrete gate lists, coverage arguments, archive manifests, SPDX evaluation, terminology rows and Mermaid output.
