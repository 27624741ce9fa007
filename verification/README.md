# Verified models of Apex Ray

Apex Ray reviews diffs before they are pushed. Its analyzer, gate and benchmark layers hold algorithms
with real state and arithmetic. This project models them in Dafny and proves what they are there for.
Code that works step by step is modelled step by step: classes with fields for the source's objects,
loops for its loops. Each such method is proved against a specification, and the properties of the
specification are proved as lemmas. `dafny verify dfyconfig.toml` checks everything.

## What is modelled

- **Matching** (`Matching.dfy`, `BenchmarkMatching.dfy`): the benchmark's pairing of expected with reported
  findings. The search moves assignments along augmenting paths; in mid-search a finding's holder may occur twice. A failed
  search changes nothing, and the findings it visited stay blocked for every later search. That set is the
  certificate that the final pairing is a largest one.
- **Inventory retention** (`InventoryPaths.dfy`, `InventoryRetention.dfy`): five running counters, three
  limits, priority eviction, quarter reserves and a lazily built reverse index that survives
  swap-with-last removal.
- **File manifest** (`Ordering.dfy`, `InventoryOrder.dfy`, `ManifestBudget.dfy`, `ManifestSelection.dfy`,
  `Manifest.dfy`): ordering and deduplication with fast branches, fair shares of a byte budget, greedy
  selection, a planner that predicts the size of a document and a streamer that writes it.
- **Pre-push gate** (`GateTypes.dfy`, `GateCarried.dfy`, `GateProtocol.dfy`, `GateDecisions.dfy`,
  `GateRuns.dfy`, `GateLiveness.dfy`): one gate run is one step on a saved state. A ghost log of reviews says which commit
  ranges the reports behind the state cover. Review results, Git, resolver answers, staleness and
  suppressions are oracles of the run.
- **Program sources and declaration roots** (`ProgramSources.dfy`, `DeclarationRoots.dfy`): one budget
  shared by several program scopes, with reservations claimed once; a bounded insertion list.
- **Package exports** (`ExportTexts.dfy`, `ExportTraversal.dfy`, `ExportSelection.dfy`; `BoundedExpansion.dfy`,
  `ExportOrder.dfy`, `BoundedWalk.dfy`, `RuntimeExports.dfy`, `UnnoticedCut.dfy`): the analyzer's iterator-stack traversal and the runtime's
  explicit-stack traversal, each under its own limits. What a limited traversal visits is a function of its
  own, against which the loop is proved.
- **Context truncation** (`ContextBudget.dfy`): a run is a sequence of packs and notes. Each step is judged
  against the pack it was taken on.
- **Configuration reachability** (`ConfigReach.dfy`), **verification history** (`VerificationMatching.dfy`,
  `VerificationHistory.dfy`), **line ranges** (`LineRanges.dfy`) and
  **NUL-separated output** (`NulReader.dfy`). `Collections.dfy`, `Ordering.dfy` and `Wrappers.dfy` hold what
  several of these use.

## Findings

- In `package-info.ts` an object whose preferred keys use up the traversal budget exactly loses its other
  keys, and no limit is noted. Everything is visited if and only if the entries fit (`BoundedWalk.VisitedWhole`).
  Something is left out without a note if and only if the first value that does not fit is such an object and
  everything on the stack then is a plain value, an empty list or an object without preferred keys
  (`BoundedWalk.LeftOutUnnoticed`); of several selected values it must be the last
  (`BoundedWalk.SelectionCutUnnoticed`). With the program's own limits this loses a target of a list of 4093
  strings and one two-condition object (`UnnoticedCut.OthersLeftOutUnnoticed`).
- A retained source list with a duplicate has no exact reverse index
  (`InventoryRetention.DuplicateHasNoInverse`). The source appends a pure source path without a lookup; drop it
  again and a path is left that the index does not know, so that dropping that one fails, if and only if the
  path was held before (`InventoryRetention.DroppedDuplicateIsLost`).
- The gate's branch that adds saved coverage debt to a decision is never taken
  (`GateProtocol.DebtNeverCarried`): with debt saved a run resumes its report or reviews everything again.
- A verification that is displaced need not have an active successor, because matching decisions is not
  transitive: a finding decided in one snapshot, in another, and in the first again with a new severity
  (`VerificationHistory.NoActiveSuccessor`), or a finding that moves down three lines from review to review
  (`VerificationHistory.DriftingFinding`). Displaced entries always have an active successor if and only if
  the relation is transitive among the entries (`VerificationHistory.SuccessorsIffTransitive`), as it is within
  one snapshot and without snapshots (`VerificationHistory.OneSnapshotSuccessors`).
- A wildcard pattern whose prefix and suffix overlap in the key, as `./a*a` and `./a`
  (`ExportTexts.OverlapMatches`), matches with an empty wildcard, and putting it back does not give the
  key. This happens exactly when the pattern without its wildcard is longer than the key
  (`ExportTexts.MatchPatternExact`).

## Model

| member | source | states |
|---|---|---|
| Matching.Matcher.Assign | src/apex_ray/benchmark/matching.py:17-26 | one search either extends the assignment by exactly one finding and the searching expected finding, or changes nothing and leaves every visited finding held by someone with no candidate outside the visited set; earlier blocked findings never move |
| Matching.Matcher.AssignAll | src/apex_ray/benchmark/matching.py:28-34 | after one search each in the given order, every expected finding is matched or has all its candidates in one blocked set, and is left out only if it cannot be matched together with those matched before it |
| Matching.TakeFreeFinding | src/apex_ray/benchmark/matching.py:22-25 | giving a free unvisited finding away is an augmentation |
| Matching.TakeReleasedFinding | src/apex_ray/benchmark/matching.py:22-25 | after the holder moved elsewhere, overwriting its old finding restores a matching although two findings named that holder meanwhile |
| Matching.BlockedMeansMaximum | src/apex_ray/benchmark/matching.py:17-34 | a matching whose unmatched expected findings see only blocked findings is at least as large as any other matching |
| Matching.GreedyUnique | src/apex_ray/benchmark/matching.py:28-34 | that order of searches determines which expected findings are matched |
| BenchmarkMatching.CheckPassesIffPerfect | src/apex_ray/benchmark/runner.py:161-169 | every expected finding is matched and none is left over exactly when a perfect pairing exists |
| BenchmarkMatching.ExpectedOrder | src/apex_ray/benchmark/matching.py:28-31 | all expected findings, by ascending candidate count and index |
| BenchmarkMatching.MatchExpectedFindings | src/apex_ray/benchmark/matching.py:7-50 | for every match relation the reported results and leftovers come from a one-to-one pairing of largest size; an expected finding is left out only if it cannot be paired together with the matched ones that have fewer candidates or come before it with as many |
| BenchmarkMatching.ReportMatches | src/apex_ray/benchmark/matching.py:36-50 | results and leftovers say what the assignment says, in input order |
| BenchmarkMatching.GreedyServes | src/apex_ray/benchmark/matching.py:28-34 | the search order serves expected findings by number of candidates, then by position |
| BenchmarkMatching.UnusedMeaning | src/apex_ray/benchmark/matching.py:45-50 | an unmatched finding stands among the leftovers behind exactly the unmatched ones before it |
| BenchmarkMatching.UnusedCount | src/apex_ray/benchmark/matching.py:45-50 | leftovers and matched findings together are as many as there are findings |
| InventoryRetention.Retention.Add | src/apex_ray/analyzers/typescript.py:160-288 | after any offer counters are exact sums, keys distinct, index exact and limits kept; critical paths stay with their sections. A relevant offer with room in its sections, in entries and in bytes is accepted and evicts nothing. It is refused, with a reason, only if one of its sections is full, for a critical offer of critical paths and itself only, or if there is pressure and, for a critical offer, no source and no ordinary record is left, for another one, the other class is at its reserve. Critical offers evict sources only after ordinary records; others only under pressure and only the other class, leaving it a quarter of each limit that was under pressure |
| InventoryRetention.RetainAll | src/apex_ray/analyzers/typescript.py:125-460 | after every sequence of offers counters, keys, index and limits are as after one; every critical path ever accepted is still held as critical with its sections; only relevant paths were accepted, each refusal of one left a reason, and without a reason every relevant path ever offered is held with all its sections |
| InventoryRetention.CriticalPathsHeld | src/apex_ray/analyzers/typescript.py:1900-1905 | a root config, package manifest or requested config, once accepted, is held at the end as critical, whatever was offered after it |
| InventoryRetention.HeldBytes | src/apex_ray/analyzers/typescript.py:228-256 | the byte limit bounds the keys of everything held, one separator for each |
| InventoryRetention.Retention.UpgradeExisting | src/apex_ray/analyzers/typescript.py:195-226 | an upgrade spends no entry and no bytes, loses nothing, and adds exactly the new sections to the counters, or is refused with a reason; the position found before evictions is still right after them |
| InventoryRetention.Retention.MakeRoomForSections | src/apex_ray/analyzers/typescript.py:300-322 | ends; evicts only non-critical, unprotected paths, and only for a critical offer; says whether every section has room; the source list is untouched unless the files section is asked for |
| InventoryRetention.Retention.FindNoncriticalCandidate | src/apex_ray/analyzers/typescript.py:324-347 | names the latest eligible metadata path, else for the files section the latest eligible source |
| InventoryRetention.Retention.DropCapacityCandidate | src/apex_ray/analyzers/typescript.py:349-394 | drops one path or changes nothing; a critical arrival is refused only if no source and no ordinary record is left and takes ordinary records first; another takes from the other class only, is refused only at the reserve, and never leaves less than a quarter in the dimension under pressure |
| InventoryRetention.Retention.RelievePressure | src/apex_ray/analyzers/typescript.py:237-256 | the capacity loop ends; it evicts only under pressure; a non-critical arrival leaves the other class at least a quarter of each limit that was under pressure; any eviction left a reason |
| InventoryRetention.Retention.DropRetainedPath | src/apex_ray/analyzers/typescript.py:396-422 | exactly the holder of the key goes, and all counters follow |
| InventoryRetention.Retention.EnsureSourceIndex | src/apex_ray/analyzers/typescript.py:424-431 | builds the exact inverse of the source list |
| InventoryRetention.Retention.DetachSourcePath | src/apex_ray/analyzers/typescript.py:433-449 | swap-with-last removal keeps a built index the exact inverse |
| InventoryRetention.Retention.Retain | src/apex_ray/analyzers/typescript.py:268-288 | appends the path to its class with its counters and index entry, held before or not; the index stays exact if the path was not in the list |
| InventoryRetention.WithoutSourceCore | src/apex_ray/analyzers/typescript.py:396-449 | removing a source by swap keeps distinctness and all counter sums, and removes that path only |
| InventoryRetention.WithoutMetadataCore | src/apex_ray/analyzers/typescript.py:396-422 | removing a metadata path keeps all counter sums and removes that path only |
| InventoryRetention.UpgradeSourceEffect | src/apex_ray/analyzers/typescript.py:206-226 | moving a source into the metadata dictionary loses no section, entry or byte |
| InventoryRetention.UpgradeMetadataEffect | src/apex_ray/analyzers/typescript.py:206-226 | widening a metadata entry loses no section, entry or byte, and keeps it critical |
| InventoryRetention.HeldSections | src/apex_ray/analyzers/typescript.py:180-199 | an offer of a held path adds at most the config section |
| InventoryRetention.DuplicateHasNoInverse | src/apex_ray/analyzers/typescript.py:272-279 | the index can stay exact after an append if and only if the path was not in the list |
| InventoryRetention.DroppedDuplicateIsLost | src/apex_ray/analyzers/typescript.py:272-279 | a path appended and dropped again leaves a path behind that the index does not know if and only if it was held before |
| InventoryOrder.OrderedInventory | src/apex_ray/analyzers/typescript.py:2233-2289 | every branch gives, on paths that have a key, the sorted and deduplicated inventory, with unique keys |
| InventoryOrder.SortedDedupedKeys | src/apex_ray/analyzers/typescript.py:2257-2271 | the sorted and deduplicated inventory is in order, has only paths of the inventory with keys, and each key of the inventory once |
| InventoryOrder.DedupeMeaning | src/apex_ray/analyzers/typescript.py:2257-2271 | deduplication keeps every key once |
| InventoryOrder.DedupeKeepsFirst | src/apex_ray/analyzers/typescript.py:2257-2271 | what stays of a key is its first path |
| InventoryOrder.AlreadySorted | src/apex_ray/analyzers/typescript.py:2240-2275 | skipping the sort is right when the keyed paths are in order, whatever lies between them |
| InventoryOrder.NoAdjacentDuplicate | src/apex_ray/analyzers/typescript.py:2240-2275 | on canonically sorted paths comparing neighbours finds every repeated key |
| ManifestBudget.AllocateSectionBytes | src/apex_ray/analyzers/typescript.py:2077-2102 | no section gets more than it asks for, exactly min(available, total demand) is handed out, every non-empty section gets its demand or an equal share; package files take their share first, then config files half of the rest, and what is left over goes to config files before package files |
| ManifestBudget.FairUnique | src/apex_ray/analyzers/typescript.py:2077-2102 | these rules determine the allocation |
| ManifestSelection.SelectEntries | src/apex_ray/analyzers/typescript.py:1953-1975 | the keys of the first entries, critical ones first, up to the limit |
| ManifestSelection.SelectByBytes | src/apex_ray/analyzers/typescript.py:2038-2074 | the greedy choice, critical first, within the allocation and only from the candidates |
| ManifestSelection.EmittedSize | src/apex_ray/analyzers/typescript.py:1976-1988 | emitting a selection in inventory order takes exactly the bytes added up in selection order |
| ManifestSelection.CriticalUnaffectedByBytes | src/apex_ray/analyzers/typescript.py:2038-2074 | under the byte limit the critical keys chosen are those chosen if no other key existed |
| ManifestSelection.CriticalUnaffectedByEntries | src/apex_ray/analyzers/typescript.py:1953-1975 | likewise under the entry limit |
| Manifest.PlanManifest | src/apex_ray/analyzers/typescript.py:1923-2035 | fails exactly when the partial marker alone exceeds the limit; otherwise keeps the full selection if it fits, else shares the bytes fairly and fills each section greedily; what that selects is stated by the next rows without the selection functions |
| Manifest.PlanFillsEntries | src/apex_ray/analyzers/typescript.py:1953-1975 | unless the bytes run out a section emits exactly as many paths as the entry limit and its candidates allow, every critical candidate before any other, and within a class none behind one left out |
| Manifest.PlanFillsBytes | src/apex_ray/analyzers/typescript.py:1990-2074 | when the bytes run out, each section had the entries it would have without them, and whatever the bytes leave out does not fit the section's fair share beside what was chosen before it |
| Manifest.CutWhenTooBig | src/apex_ray/analyzers/typescript.py:1990-1999 | the bytes run out exactly when the document of all that the entry limit lets in is larger than the limit |
| Manifest.SmallSectionEmitted | src/apex_ray/analyzers/typescript.py:2156-2179 | an inventory within both limits is emitted whole: sources, package manifests and configs under their sections |
| Manifest.ImportantFirst | src/apex_ray/analyzers/typescript.py:2182-2195 | with any other path a section emits all its reachable configs, and the config section its root configs |
| Manifest.ReachableConfigEmitted | src/apex_ray/analyzers/typescript.py:1953-1975 | a reachable config is emitted if the critical config files fit the entry limit |
| Manifest.DocumentSize | src/apex_ray/analyzers/typescript.py:2202-2215 | the sizes the planner adds up are the length of the document |
| Manifest.PlanFits | src/apex_ray/analyzers/typescript.py:1998-2035 | a plan's document never exceeds the byte limit |
| Manifest.PlanWithinEntryLimit | src/apex_ray/analyzers/typescript.py:1953-1975 | no section emits more entries than the limit, and only its own candidates |
| Manifest.CompleteWithoutReason | src/apex_ray/analyzers/typescript.py:1923-2035 | no partial reason means that every candidate of every section is emitted |
| Manifest.StreamManifest | src/apex_ray/analyzers/typescript.py:2110-2153 | any plan is streamed as its document; the mismatch between planned and written size never occurs |
| Manifest.ListConcat | src/apex_ray/analyzers/typescript.py:2110-2153 | paths are listed in order with one comma between two of them |
| Manifest.CombineMeaning | src/apex_ray/analyzers/typescript.py:2105-2107 | partial reasons are joined in order, none lost and none repeated |
| Manifest.DecimalMeaning | src/apex_ray/analyzers/typescript.py:2217-2230 | the limit named in a reason is written in decimal |
| Manifest.WriteManifest | src/apex_ray/analyzers/typescript.py:941-1008 | for every inventory the stream holds the plan's document within the limit, complete unless a reason is given; neither assertion of the streamer can fail |
| GateTypes.Evaluate | src/apex_ray/gates.py:51-79 | a report is blocked exactly when findings block, the quality gate fails or partial coverage is too severe, and then it has a reason |
| GateTypes.BlockingMeaning | src/apex_ray/gates.py:167-172 | exactly the eligible findings at or above the threshold block; none without a threshold |
| GateTypes.KeyMeaning | src/apex_ray/gate_retry.py:330-337 | two findings have the same key exactly when they differ in nothing but their pack |
| GateTypes.MergeMeaning | src/apex_ray/cli/gate.py:1277-1289 | a merged debt is owed exactly when one of the two is; its reasons are those of both, the carried ones first and none of them repeated |
| GateTypes.MergeTwice | src/apex_ray/cli/gate.py:1277-1289 | merging the same debt again changes nothing |
| GateTypes.MergeNoDebt | src/apex_ray/cli/gate.py:1277-1289 | merging the current debt into no debt gives the current debt |
| GateCarried.DedupeCarried | src/apex_ray/gate_retry.py:340-349 | the first carried finding of every key, in order |
| GateCarried.DedupeMeaning | src/apex_ray/gate_retry.py:330-349 | deduplication loses no key and keeps each once |
| GateCarried.DedupeKeepsFirst | src/apex_ray/gate_retry.py:340-349 | what stays of a key is its first carried finding |
| GateCarried.SelectCalls | src/apex_ray/cli/gate.py:1190-1202 | at most the call limit is chosen, all when they fit, and nobody passed over comes before a chosen one by severity, earlier deferral and position |
| GateCarried.CalledBefore | src/apex_ray/cli/gate.py:1190-1202 | a finding the resolver is called for is at least as severe as one it is not called for; of two equally severe ones it was deferred before if the other was, and comes first if neither tells them apart |
| GateCarried.SelectionUnique | src/apex_ray/cli/gate.py:1190-1202 | that determines which findings the resolver is called for |
| GateCarried.ResolveCarried | src/apex_ray/cli/gate.py:1159-1236 | each finding is resolved, unresolved with the resolver's reason, or deferred with the budget reason, in order |
| GateCarried.PresentIfAnswered | src/apex_ray/cli/gate.py:1159-1236 | a finding sent to resolution is only called still present on the resolver's word |
| GateCarried.ResolveIncremental | src/apex_ray/cli/gate.py:1043-1107 | kept findings, then those left by resolution, deduplicated |
| GateCarried.CarriedConserved | src/apex_ray/cli/gate.py:1043-1107 | every carried finding stays active under its key or was discharged: stale, or resolved by a call that was made; of findings with distinct keys exactly the discharged ones leave |
| GateCarried.LeavesExactly | src/apex_ray/cli/gate.py:1043-1107 | when the calls suffice a carried finding leaves if and only if it is not reported again, its outcome is not kept for a retry, and the resolver says resolved or, without evidence, it is stale |
| GateCarried.OmittedMeaning | src/apex_ray/cli/gate.py:1139-1156 | a reviewed pack omits a finding exactly when one of the ids it knows its pack by was reviewed and no blocking finding has its fingerprint |
| GateCarried.EvidenceFound | src/apex_ray/cli/gate.py:1110-1136 | a diff holds evidence when it brings a reviewable new file or when a changed or linked path is a relevant path or matches one as a pattern |
| GateCarried.EvidenceNamed | src/apex_ray/cli/gate.py:1110-1136 | and only then |
| GateCarried.StripMeaning | src/apex_ray/gate_retry.py:310-319 | stripping takes blanks off both ends and nothing else |
| GateCarried.ActiveOrigin | src/apex_ray/cli/gate.py:1043-1107 | whatever stays active is a carried finding with at most another status and reason |
| GateCarried.ResolutionKeepsKey | src/apex_ray/cli/gate.py:1209-1236 | a finding sent to resolution comes back under its key unless the resolver was called for it and said resolved, whatever it would say of one it was not called for; then it does not come back, if no other finding sent has its key |
| GateCarried.ResolutionDeferred | src/apex_ray/cli/gate.py:1190-1219 | at most what exceeds the call limit is left deferred |
| GateCarried.OnlyDeferredRetried | src/apex_ray/cli/gate.py:1059-1096 | a resolution resume sends only deferred findings to the resolver and keeps none of them deferred |
| GateCarried.ReasonsDiffer | src/apex_ray/cli/gate.py:1169-1224 | no reason the gate writes itself is the budget reason |
| GateProtocol.StepMeaning | src/apex_ray/cli/gate.py:444-497 | when a run resumes coverage, resumes resolution or reviews only new commits |
| GateProtocol.WhenStateCarries | src/apex_ray/gate_retry.py:171-200 | a saved state takes part exactly when schema, repository, base, merge base and configuration agree and its head is there and an ancestor |
| GateProtocol.ResumedFrom | src/apex_ray/cli/gate.py:874-942 | coverage is resumed only from a report that is no older than the saved one, of the same packs and snapshot, and has reviewed whatever that had |
| GateProtocol.FollowupUsed | src/apex_ray/cli/gate.py:498-560 | a new or resumed report is what its follow-up made of it |
| GateProtocol.CapturedIsStamped | src/apex_ray/cli/gate.py:475-497 | whenever a snapshot was captured a new review is stamped with the range it reviewed |
| GateProtocol.RelevantMeaning | src/apex_ray/gate_retry.py:276-296 | the relevant files of a finding are its own, the one its pack id names and all its pack names |
| GateProtocol.CarriedPack | src/apex_ray/gate_retry.py:240-257 | a reported finding is carried with its pack exactly if the report has it |
| GateProtocol.DebtForcesResumeOrFull | src/apex_ray/cli/gate.py:453-469 | with debt saved and the state eligible, a run resumes the report that left the debt, with the same snapshot, or reviews everything again |
| GateProtocol.DebtNeverCarried | src/apex_ray/cli/gate.py:638-654 | saved debt is never added to a decision |
| GateDecisions.CurrentDecisionMeaning | src/apex_ray/cli/gate.py:1020-1034 | after suppressions a report has reasons exactly when findings remain or coverage falls short; which findings remain is the next row |
| GateDecisions.CurrentBlockingMeaning | src/apex_ray/cli/gate.py:615-635 | a finding blocks if and only if the policy may block on it, a threshold is set, it is at or above the threshold and triage does not suppress it |
| GateDecisions.NewlyCarriedOnce | src/apex_ray/cli/gate.py:1239-1252 | carried findings are added to a decision once per fingerprint and only when not reported already |
| GateDecisions.NewlyCarriedMeaning | src/apex_ray/cli/gate.py:1239-1252 | every active carried finding is reported already or added |
| GateDecisions.ActiveFindingsBlock | src/apex_ray/cli/gate.py:1239-1264 | every finding still carried is among the decision's blocking findings by fingerprint |
| GateDecisions.AllowedMeaning | src/apex_ray/cli/gate.py:636-681 | a push is allowed exactly when the report is complete, no carried or blocking finding is saved and no newer commits wait |
| GateDecisions.AllowedExactly | src/apex_ray/cli/gate.py:615-681 | a push is allowed if and only if the report is complete, every eligible finding at or above the threshold is suppressed, so is whatever stays of the carried ones, and no newer commits wait |
| GateRuns.SavedState | src/apex_ray/gate_retry.py:203-237 | what a run saves: merge base, head or resumed head, report, the debt of the current decision, unique carried keys |
| GateRuns.SavedDebtMeaning | src/apex_ray/gate_retry.py:260-273 | the debt saved, and its reasons, are those of a failing quality gate and of coverage too partial for the policy |
| GateRuns.PendingMeaning | src/apex_ray/cli/gate.py:677-681 | a push is held for newer commits exactly when coverage of an older head was resumed |
| GateRuns.StampedKept | src/apex_ray/cli/gate.py:920-942 | every run stamps what it saves for the range it saves it for |
| GateRuns.LogKept | src/apex_ray/cli/gate.py:759-781 | after every run the reviews behind the saved state cover merge base to saved head without a gap; all are complete but possibly the last, which is complete exactly when no debt is saved |
| GateRuns.AllowedPushIsCovered | src/apex_ray/cli/gate.py:407-497 | an allowed push leaves a state with that head, no carried finding and no debt, and complete reviews cover merge base to head without a gap |
| GateRuns.CarriedNeverDropped | src/apex_ray/cli/gate.py:636-669 | in every run on an eligible state (incremental, resumed, or the full review they fall back to) each carried finding is saved again under its key, or a call made for it resolved it, or it went stale, or what this very run kept under its key is suppressed |
| GateRuns.TracedKept | src/apex_ray/gate_retry.py:240-296 | every run keeps saved findings with the file of their own pack among their relevant files |
| GateRuns.BlockingSaved | src/apex_ray/cli/gate.py:760-766 | the findings that block a run are saved with it |
| GateRuns.ResumeDrains | src/apex_ray/cli/gate.py:945-1004 | a resolution resume takes at least the call limit off the deferred findings, or empties them; their number strictly falls |
| GateRuns.DeferredAllHandled | src/apex_ray/cli/gate.py:945-1004 | n deferred findings are all handled after k consecutive resumes once k times the call limit reaches n |
| GateLiveness.ReviewedMayResolve | src/apex_ray/cli/gate.py:1110-1156 | the diff may hold evidence for every such finding whose pack it reviews |
| GateLiveness.DeferredRetried | src/apex_ray/cli/gate.py:994-1004 | every finding a run saves deferred would be tried again on the same report, whatever triage suppresses there |
| GateLiveness.ResumesAgain | src/apex_ray/cli/gate.py:945-1004 | run again with the same head, report and oracles, the gate resumes resolution if and only if no debt is saved and some finding was left deferred |
| GateLiveness.QueueEmpties | src/apex_ray/cli/gate.py:945-1004 | run again and again without debt, the queue of n deferred findings is empty after at most k repetitions once k times the call limit reaches n |
| GateLiveness.DebtResumesAgain | src/apex_ray/cli/gate.py:874-942 | run again with nothing changed, a gate that saved coverage debt resumes it exactly when the report was stamped and had packs |
| GateLiveness.ResumedCoverage | src/apex_ray/cli/gate.py:462-466 | resumed coverage leaves debt exactly when the follow-up left the gate failing or coverage too partial |
| GateLiveness.NewCommitsReviewed | src/apex_ray/cli/gate.py:474-497 | without debt, a run on newer commits reviews exactly what came after the saved head |
| GateRuns.Gate.PrePush | src/apex_ray/cli/gate.py:407-781 | the run as a method on the saved state; every run keeps the coverage invariant, the stamps and the relevant files; what it decides is given by AllowedExactly |
| ProgramSources.ProgramSourceBudget.ReserveFile | analyzer-runtimes/typescript/src/program.ts:902-963 | in terms of the budget's fields: a file the scope has is accepted exactly when its growth fits and charged that; a reserved changed file exactly when what it is larger than its reservation fits; any other exactly when one instance and its bytes fit; default libraries are free. Accepted bytes bound unclaimed reservations plus every scope's files, instances count them, both within limits; refusals change nothing but the warning |
| ProgramSources.ProgramSourceBudget.ReserveChanged | analyzer-runtimes/typescript/src/program.ts:863-900 | takes the changed files in order and reserves each that is new, can be inspected and fits; the account stays balanced |
| ProgramSources.ReserveFirstGrows | analyzer-runtimes/typescript/src/program.ts:884-899 | no reservation is taken back or resized; instances and bytes grow by exactly what the new ones hold |
| ProgramSources.ReserveFirstSettles | analyzer-runtimes/typescript/src/program.ts:884-899 | a file that could be inspected is left out only if it does not fit, and then it does not fit at the end either |
| ProgramSources.ReservedWasInspected | analyzer-runtimes/typescript/src/program.ts:884-899 | every new reservation has a size that was inspected for that file |
| ProgramSources.ProgramSourceBudget.ReserveInstance | analyzer-runtimes/typescript/src/program.ts:965-979 | reserves exactly when both limits allow it |
| ProgramSources.ProgramSourceBudget.ClaimReserved | analyzer-runtimes/typescript/src/program.ts:938-956 | a claim turns the reservation into the scope's file and charges exactly what the file is larger than the reservation |
| ProgramSources.ProgramSourceBudget.LoadAll | analyzer-runtimes/typescript/src/program.ts:902-963 | for loads in any order and any scopes: a load of a changed file that has not outgrown its reservation is accepted unless an earlier accepted load, of a scope that lists the file, claimed the reservation; whatever is refused has no room, then or at the end; if all loads fit together all are accepted |
| ProgramSources.ChargeBalanced | analyzer-runtimes/typescript/src/program.ts:965-979 | a new charge keeps the account balanced |
| ProgramSources.ClaimBalanced | analyzer-runtimes/typescript/src/program.ts:938-956 | replacing a reservation by a file with the excess charged keeps the account balanced |
| DeclarationRoots.SelectRoots | analyzer-runtimes/typescript/src/program.ts:1161-1220 | for any number of inputs the kept list is the first K of the stable sort of all distinct eligible non-changed candidates processed; partial exactly when some were cut or ineligible |
| DeclarationRoots.BestMeaning | analyzer-runtimes/typescript/src/program.ts:1161-1220 | the selected candidates are sorted, of eligible unchanged files offered, as many as there are or are allowed, and none sorts after one left out |
| DeclarationRoots.InsertCandidate | analyzer-runtimes/typescript/src/program.ts:1259-1274 | binary insertion is stable insertion |
| DeclarationRoots.TakeOfInsert | analyzer-runtimes/typescript/src/program.ts:1193-1204 | cutting the list before inserting changes nothing among the first K, and a candidate not before the last kept one can be skipped |
| DeclarationRoots.TiesInOrder | analyzer-runtimes/typescript/src/program.ts:1259-1274 | of candidates the comparator does not tell apart those that arrive first are kept, in that order |
| DeclarationRoots.CompareMeaning | analyzer-runtimes/typescript/src/program.ts:1276-1286 | the comparator orders by priority, then lower-case key, then key |
| DeclarationRoots.CandidateOrder | analyzer-runtimes/typescript/src/program.ts:1276-1286 | the comparator is a total preorder |
| DeclarationRoots.FreshMeaning | analyzer-runtimes/typescript/src/program.ts:1176-1180 | each non-changed key is processed exactly once |
| ExportTexts.SubstitutionSize | src/apex_ray/analyzers/typescript.py:493-503 | the size computed before substituting is the size of the substitution |
| ExportTexts.SubstituteConcat | src/apex_ray/analyzers/typescript.py:503-503 | a target is substituted part by part |
| ExportTexts.SubstituteParts | src/apex_ray/analyzers/typescript.py:503-503 | the wildcard goes where the star was, between what stood before and after it |
| ExportTexts.SubstitutionDetermined | src/apex_ray/analyzers/typescript.py:503-503 | substitution part by part, a star giving the wildcard and any other code point itself, is this function |
| ExportTexts.WidthIsEncoded | src/apex_ray/analyzers/typescript.py:525-532 | the bytes counted for a code point are those of a UTF-8 encoding, with escaped bytes, that reads back |
| ExportTexts.FirstOccurrencesMeaning | src/apex_ray/analyzers/typescript.py:503-514 | the kept targets are those offered, each once |
| ExportTraversal.PackageExportTraversal.Visit | src/apex_ray/analyzers/typescript.py:471-477 | an entry is counted exactly while below the limit; otherwise the traversal is truncated |
| ExportTraversal.PackageExportTraversal.AddTarget | src/apex_ray/analyzers/typescript.py:479-515 | a target is accepted exactly when it and its wildcard can be measured, it is small enough by itself, and it is known already or fits the limits on number and total bytes |
| ExportTraversal.PackageExportTraversal.MarkTruncated | src/apex_ray/analyzers/typescript.py:517-522 | the limit is reported once |
| ExportTraversal.PackageExportTraversal.IterStrings | src/apex_ray/analyzers/typescript.py:2923-2948 | the iterator stack finishes exactly when the whole value fits the limits, and then offers what the recursive left-to-right flatten lists; otherwise a prefix of that, truncated |
| ExportTexts.MatchPatternExact | src/apex_ray/analyzers/typescript.py:2962-2971 | putting the wildcard back gives the key if and only if prefix and suffix do not overlap in it |
| ExportTexts.MatchPatternFinds | src/apex_ray/analyzers/typescript.py:2962-2971 | whatever stands for the wildcard in a key is what the match gives |
| ExportTexts.OverlapMatches | src/apex_ray/analyzers/typescript.py:2962-2971 | `./a*a` matches `./a` with an empty wildcard although prefix and suffix overlap |
| ExportSelection.PackageExportTargets | src/apex_ray/analyzers/typescript.py:2863-2920 | a limit is reported if and only if the keys looked at, the selected values or their targets do not fit together; otherwise the result is the first-occurrence dedupe of the flatten of the selected values; on every input the limits hold and nothing else is returned |
| ExportSelection.ExactExport | src/apex_ray/analyzers/typescript.py:2870-2904 | a subpath is looked up under `./`, the package itself under `.` |
| ExportSelection.WildcardExport | src/apex_ray/analyzers/typescript.py:2906-2920 | a key with one wildcard exports its target with what the wildcard stands for in place of the star |
| ExportSelection.PatternTargetsMembers | src/apex_ray/analyzers/typescript.py:2906-2920 | the targets of patterns are exactly the strings of the values of matching keys with the wildcard put in |
| BoundedExpansion.ChargeIsLength | analyzer-runtimes/typescript/src/bounded-expansion.ts:90-110 | the bytes charged for a substitution are its length |
| BoundedExpansion.BytesMeaning | analyzer-runtimes/typescript/src/bounded-expansion.ts:90-110 | the bytes of a code point are those of its UTF-8 encoding, and three where it has none |
| BoundedExpansion.DivisionGuard | analyzer-runtimes/typescript/src/bounded-expansion.ts:99-108 | the division guard refuses exactly the substitutions that are too long |
| BoundedExpansion.Budget.ReserveTraversal | analyzer-runtimes/typescript/src/bounded-expansion.ts:46-61 | reserves any count that is a non-negative safe integer and fits, all or none; otherwise notes the limit |
| BoundedExpansion.Budget.ReserveResult | analyzer-runtimes/typescript/src/bounded-expansion.ts:129-146 | retains exactly when all three result limits allow it |
| BoundedExpansion.Budget.WildcardSubstitution | analyzer-runtimes/typescript/src/bounded-expansion.ts:84-127 | gives the substitution, determined by ExportTexts.SubstitutionDetermined, exactly when it is new and fits, charged its true length; says exactly when the limit is noted |
| ExportOrder.SameStrings | analyzer-runtimes/typescript/src/package-info.ts:149-239 | the preferred order neither loses nor adds a string compared with the left-to-right flatten of the analyzer |
| ExportOrder.VisitsOf | analyzer-runtimes/typescript/src/package-info.ts:171-236 | a value is visited, then its children one after the other, preferred keys first |
| BoundedWalk.WalkWhole | analyzer-runtimes/typescript/src/package-info.ts:168-237 | a stack whose entries fit is visited whole, in the order of the unlimited traversal, and no limit is noted |
| BoundedWalk.WalkLength | analyzer-runtimes/typescript/src/package-info.ts:168-237 | as many values are visited as there are or as fit |
| BoundedWalk.VisitedWhole | analyzer-runtimes/typescript/src/package-info.ts:149-239 | a value is visited whole if and only if its entries fit, and then no limit is noted |
| BoundedWalk.LeftOutUnnoticed | analyzer-runtimes/typescript/src/package-info.ts:210-229 | part of a value is left out and no limit noted if and only if the first object that does not fit has preferred keys that use up the room exactly and all that is on the stack then is quiet |
| BoundedWalk.SelectionCutUnnoticed | analyzer-runtimes/typescript/src/package-info.ts:132-146 | of several selected values something is left out and no limit noted if and only if the last is the first that does not fit and is cut unnoticed |
| RuntimeExports.CollectMembers | analyzer-runtimes/typescript/src/package-info.ts:210-229 | as many children as fit, preferred keys first; the limit is noted for those left out, except when the preferred keys use up the room exactly |
| RuntimeExports.FlattenExportTargets | analyzer-runtimes/typescript/src/package-info.ts:149-239 | visits exactly what the limited walk visits; the new targets are the first occurrences among the strings visited unless a limit on results refuses one; the limit is noted exactly when the walk notes it or a target is refused; the budget is charged for exactly the results |
| RuntimeExports.PackageExportTargetsForKey | analyzer-runtimes/typescript/src/package-info.ts:77-147 | the same for the values selected by a key, after one entry for each key compared |
| UnnoticedCut.OthersLeftOutUnnoticed | analyzer-runtimes/typescript/src/package-info.ts:149-239 | for every traversal limit of at least three some value under the key "." loses a target with no limit noted, the other limits being the program's own |
| ConfigReach.ReachableConfigs | src/apex_ray/analyzers/typescript.py:2292-2393 | the worklist ends with the least set that holds the roots within the scan limit and is closed under the extends edges of the configs expanded, one spelling or more of each key in the set; where spellings do not differ in effect, under those of every spelling; every root config scanned is in it |
| ConfigReach.IndexUnique | src/apex_ray/analyzers/typescript.py:2315-2326 | the index through which that set is stated is determined by the scanned paths |
| ConfigReach.Expand | src/apex_ray/analyzers/typescript.py:2341-2389 | expanding a config adds exactly new keys it leads to, all in the inventory, and queues each once |
| ConfigReach.ScanIndex | src/apex_ray/analyzers/typescript.py:2315-2326 | the first scanned path of every key |
| ConfigReach.ScanRoots | src/apex_ray/analyzers/typescript.py:2302-2313 | the keys of the root configs scanned |
| ConfigReach.ResolveListed | src/apex_ray/analyzers/typescript.py:2606-2621 | an extends value leads only to configs of the inventory, as the inventory spells them |
| ConfigReach.LookupMeaning | src/apex_ray/analyzers/typescript.py:2606-2621 | the lookup finds the first candidate the inventory holds, and nothing only if it holds none |
| ConfigReach.ResolveMeaning | src/apex_ray/analyzers/typescript.py:2341-2389 | a relative value leads to what its lookup finds, a package value to what each group of names finds, in order |
| ConfigReach.PackagePathsMeaning | src/apex_ray/analyzers/typescript.py:2755-2860 | each group of a package value gives what its lookup finds, each path once |
| ConfigReach.ExtendedIsReached | src/apex_ray/analyzers/typescript.py:2341-2389 | the config that a relative value of an expanded config names is reachable |
| ConfigReach.OneSpelling | src/apex_ray/analyzers/typescript.py:2413-2414 | spellings do not differ in effect where the inventory spells every config one way, as with case-sensitive keys |
| ContextBudget.TruncateDerived | src/apex_ray/context/budget.py:172-192 | a truncation keeps consecutive lines under their own numbers, or the beginning of one line, and always less than before |
| ContextBudget.DerivedTransitive | src/apex_ray/context/budget.py:172-192 | truncating repeatedly still leaves a contiguous window with correct line numbers; outside the centred groups the first line stays |
| ContextBudget.TruncateMeaning | src/apex_ray/context/budget.py:172-192 | half the lines are kept, from the middle of references, callees, contracts and metadata and from the beginning of the others; of one line half, but at least 128 characters |
| ContextBudget.FindLongest | src/apex_ray/context/budget.py:153-172 | the candidate over 128 characters that is longest, by label and position among equals; none only if all allowed snippets are short |
| ContextBudget.AlphabeticalMeaning | src/apex_ray/context/budget.py:153-172 | labels break ties in the order of their texts |
| ContextBudget.ContextPack.TruncateLongest | src/apex_ray/context/budget.py:148-194 | truncates exactly that snippet and notes it, or changes nothing |
| ContextBudget.ContextPack.FitGroup | src/apex_ray/context/budget.py:84-100 | ends; every step is taken over budget, truncates the longest snippet of the group or drops its last when all are short; over budget at the end only if the group is empty |
| ContextBudget.ContextPack.DropMemory | src/apex_ray/context/budget.py:102-115 | cards go from the end over budget only, each with an omission, until none is left or the pack fits |
| ContextBudget.ContextPack.CompactAnalyzerGraph | src/apex_ray/context/budget.py:215-242 | clears every edge and nothing else; says whether there was any |
| ContextBudget.CompactTwice | src/apex_ray/context/budget.py:245-257 | compaction is idempotent and leaves exactly compact graphs alone |
| ContextBudget.RunKept | src/apex_ray/context/budget.py:72-145 | between any two moments of a run nothing leaves the pack but what the notes say, and what stays is a part of what was there |
| ContextBudget.StagesInOrder | src/apex_ray/context/budget.py:84-145 | a run never goes back to an earlier stage |
| ContextBudget.OrderOfLosses | src/apex_ray/context/budget.py:84-145 | what must be gone before each kind of step: related tests, references, callees, memory, then contracts and metadata, then graph edges, and changed code is shortened last and never dropped |
| ContextBudget.TruncatedBeforeDropped | src/apex_ray/context/budget.py:84-132 | no snippet of a group is truncated after one of the group was dropped |
| ContextBudget.DroppedLate | src/apex_ray/context/budget.py:84-132 | a snippet that is gone was dropped at a moment when the pack was over budget, it was the last of its group, no snippet of the group was over 128 characters and the earlier stages had nothing left to do; what was dropped was a part of the original |
| ContextBudget.ContractsDroppedLate | src/apex_ray/context/budget.py:84-132 | a contract snippet that is gone was dropped at a moment when no related test, reference, callee or memory item was left and no contract or metadata snippet was over 128 characters |
| ContextBudget.StepDetermined | src/apex_ray/context/budget.py:84-172 | there is never a choice between two steps |
| ContextBudget.RunsAgree | src/apex_ray/context/budget.py:84-172 | two runs from one pack take the same steps as far as both go |
| ContextBudget.ContextPack.EnforceCharBudget | src/apex_ray/context/budget.py:72-145 | ends; the pack goes through a run of steps, each taken over budget and with the earlier stages exhausted at that moment, and the notes are its notes; still over budget only with everything but changed snippets exhausted, and these all short or truncated 65 times |
| VerificationHistory.ActiveVerifications | src/apex_ray/findings.py:186-201 | the fold returns the entries that are not superseded and have no later matching, not superseded entry of the same reviewer |
| VerificationHistory.FoldIsActive | src/apex_ray/findings.py:186-201 | the fold and the declarative meaning agree on every history and every relation |
| VerificationHistory.ReviewersApart | src/apex_ray/findings.py:186-201 | what one reviewer's decisions come to does not depend on those of others |
| VerificationHistory.SupersededIgnored | src/apex_ray/findings.py:186-201 | superseded decisions have no say |
| VerificationHistory.ActiveIdempotent | src/apex_ray/findings.py:186-201 | folding the active entries again changes nothing |
| VerificationHistory.ActiveResumes | src/apex_ray/findings.py:186-201 | a history may be replaced by its active entries before more are added |
| VerificationHistory.ActiveSuccessor | src/apex_ray/findings.py:365-378 | among entries on which the relation is transitive a displaced entry has an active successor |
| VerificationHistory.SuccessorsIffTransitive | src/apex_ray/findings.py:186-201 | displaced entries have an active successor in every history if and only if the relation is transitive among the entries that are not superseded |
| VerificationHistory.OneSnapshotSuccessors | src/apex_ray/findings.py:365-378 | within one review snapshot, and without snapshots or recorded origins, displaced decisions have an active successor |
| VerificationHistory.NoActiveSuccessor | src/apex_ray/findings.py:365-378 | a decision of a snapshot, one of another or of none, and one of the first with another severity: the first has no active successor |
| VerificationHistory.DriftingFinding | src/apex_ray/findings.py:365-378 | nor has the first of three decisions, in three snapshots, on a finding that moves three lines each time |
| VerificationHistory.AnsweredMeaning | src/apex_ray/findings.py:340-362 | the lookup by object identity finds exactly the later active matches |
| VerificationHistory.HistoryPartition | src/apex_ray/findings.py:332-409 | active, unresolved and historical are the parts of the history, in order, that are in force, open, and neither |
| VerificationHistory.WhereItIs | src/apex_ray/findings.py:332-409 | in which of the three lists an entry is, by what follows it |
| VerificationMatching.MovedFinding | src/apex_ray/findings.py:365-378 | decisions of two snapshots on similar texts match exactly when the finding moved at most three lines |
| VerificationMatching.OtherScope | src/apex_ray/findings.py:597-609 | in other files, or with a line given only once, decisions of two snapshots never match; of different severity only if all else agrees |
| VerificationMatching.WithoutLines | src/apex_ray/findings.py:509-528 | without lines they match exactly when the texts agree |
| VerificationMatching.PackNotNamed | src/apex_ray/findings.py:597-609 | a pack that one of them does not name does not keep them apart |
| VerificationMatching.TestAndSource | src/apex_ray/findings.py:519-533 | a finding on a test and on the source it pairs with match exactly when the program pairs the files |
| VerificationMatching.CrossPackExactly | src/apex_ray/findings.py:381-400 | across packs decisions of one reviewer match exactly when some origin of the one is some origin of the other |
| VerificationMatching.OwnPackIsOrigin | src/apex_ray/findings.py:64-72 | a finding without recorded origins comes from its own pack |
| VerificationMatching.NoCrossPack | src/apex_ray/findings.py:381-400 | decisions of two reviewers, or without recorded origins, never match across packs |
| LineRanges.MergeLineRanges | src/apex_ray/line_ranges.py:4-15 | the result is sorted and separated and covers exactly the lines of the ranges with positive bounds, given in either order |
| LineRanges.NormalUnique | src/apex_ray/line_ranges.py:4-15 | two such lists with the same lines are the same list |
| LineRanges.CountIsCardinality | src/apex_ray/line_ranges.py:18-19 | on merged ranges the count is the number of covered lines |
| LineRanges.CountNeverUnder | src/apex_ray/line_ranges.py:18-19 | on any ranges it is at least that |
| LineRanges.CutMeaning | src/apex_ray/line_ranges.py:31-38 | cutting one fragment is exact even for an inverted covered range |
| LineRanges.SubtractLineRanges | src/apex_ray/line_ranges.py:22-43 | exactly the lines not covered, in the unique normal form |
| NulReader.ReadNulOutput | src/apex_ray/git.py:112-142 | however the output is cut into chunks the reader returns its non-empty fields, normally if and only if bytes and fields are within the limits |
| NulReader.TakeFields | src/apex_ray/git.py:130-138 | takes all complete fields off the pending bytes and leaves the rest, or finds too many |
| NulReader.FieldsAreFields | src/apex_ray/git.py:130-140 | no field is empty or holds a NUL |
| NulReader.FieldsSeparate | src/apex_ray/git.py:130-138 | the fields of two pieces around a NUL are those of one, then those of the other |
| NulReader.FieldsDetermined | src/apex_ray/git.py:130-140 | this and the single-field case determine the fields of every byte string |
| NulReader.FieldsRoundTrip | src/apex_ray/git.py:130-140 | fields written with a NUL each are read back unchanged |

## Left out

- Process spawning, threads, queues, timeouts and deadline checks: read errors and timeouts do not occur in the model.
- Prompts, providers, rendering, telemetry, archives and Typer commands; review and resolver results are inputs of a gate run.
- Hash fingerprints: compared as the values they stand for, so they never collide. Commit ids are plain strings.
- The automatic follow-up policy of the gate: an oracle that may add reviews to a report. A run of the gate without incremental retry saves no state and is not modelled.
- Texts of reasons beyond which kinds there are, quality gate states other than failing or not, run-failure details.
- Triage state and stale-evidence anchors: suppression and staleness are oracles; so are matching a glob, which characters are blank, and which new or linked files a diff brings.
- Canonical keys in the retention model are case-sensitive; the manifest, ordering and reachability models take any canonical form.
- JSON, JSONC, TypeScript parsing, path normalisation, file reads and the package index: oracles of the reachability model. Its partial reasons are not modelled.
- Strings of the runtime traversal are code points: a lone UTF-16 surrogate never joins another on substitution. Wildcards holding `$`, which the runtime's replacement interprets, are taken literally, and byte counts never leave the safe integer range.
- Ordering of file keys is by code point, which differs from UTF-16 order only outside the basic plane.
- ConfigReach.ReachableConfigs: where spellings of one config lead elsewhere, the program follows only the ones it comes upon. The set is least for those; that it is closed under the edges of all spellings needs that they do not differ in effect.
- GateLiveness.DeferredRetried: reviewed packs are those of changed files whose path is not blank and holds no `#`, which separates path and rest in a pack id; then a finding's pack id names its file. Building packs is not modelled. No answer of the resolver is the budget text.
- InventoryRetention.Retention.Add: a pure source path must not be held already, since the source appends it without a lookup; what happens otherwise is stated for the list and its index only (`DroppedDuplicateIsLost`).
- InventoryRetention.RetainAll: for the same reason no pure source path is offered twice; the inventories passed on list each path once unless their own input repeats one.
- LineRanges.SubtractLineRanges: the exact difference is stated for ranges with 1 <= start <= end; for others the merge at the end reinterprets bounds, and only the normal form is stated.
- Size estimates of a context pack are any function; code is kept as lines, relying on joined consecutive lines splitting into the same lines. The count limits and the statistics of `finalize_pack` come before and after the character budget and are left out: they cut lists to a length and count.
- VerificationHistory: the fold and its lists are proved for any relation, and entries of one history are distinct objects. In the program's own relation path and pack normalisation, the pairing of tests with sources and the comparison of texts are functions it is given.
- `match_expected_context`, rule, memory and reviewer filters: they test one item at a time and keep no state. Configuration parsing, small caches and `_glob_variants` do not meet the algorithms modelled here.
