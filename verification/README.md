# Sandbox Trial verification

A Dafny 4.11 model of the Sandbox Trial verifier of the editor server, and of the diagnostics buffer beside it, with
proofs of what they promise. A Trial takes an authored plan (cases, fixtures, expectations, fault evidence) and a task
graph, validates the plan, runs the cases in order, judges their results and keeps bounded evidence.
`dafny verify dfyconfig.toml` checks the whole project. Every cited path is relative to the repository's root.

## What is modelled

- **Values and documents**: `Common`, `Decimals` (array indices and printed numbers), `Ordering` (sorting as a
  canonical form of a multiset, stable sorting by a flag), `Json` (the two JSON equalities), `JsonPointer` (the two
  JSON Pointer evaluators and the escape rules), `PreservedLines` (the greedy line scan).
- **Plans**: `Graph` (the three worklist searches, what terminal tasks reach), `Dag` (the topological order of a
  pipeline and its refusal of cycles), `Plan`, `Coverage`, `CoreWitness` (the positive core witness), `Contrast` and
  `Evidence` (fault evidence, and what it shows of every run), `Prerequisites` and `RunConfiguration` (negative
  prerequisite probes, and what a run sees of its environment), `FixtureSetup` (isolated workspaces and the check that
  contradictory cases start differently), `CaseStart` (the files a case starts from: what a core run must make, and
  whether a probe starts as its baseline does).
- **Runs**: `Workspace`, `SourceObserver` (source-text relations over task events), `Evaluation` (expectations),
  `SemanticReview` (one model review) and `ReviewReceipts` (the assembled case and its independent validator),
  `RunLedger` (the case loop and its report), `EvidenceSelection` and `EvidenceCounts` (bounded task evidence).
- **Workspace witness**: `ManifestEncoding` (the hashed byte stream), `WitnessScan` (the scan with its manifest cache),
  `WitnessCache` (the worker across requests), `WitnessMeaning` (which workspaces have the same digest, and when a capture
  succeeds), `WitnessWorkerProtocol` (queue, replies, errors, aborts, disposal).
- **Diagnostics**: `BoundedBuffer` (eviction), `Paging` (lossy paging), `LogBuffer`, `Timeline` (delta events and
  markers), `EventText` (their JSON text, on which the limits are stated), `Diagnostics` (the hub).
- **Bindings**: `Bindings` (the registry of chat-owned pipelines).

Objects the program updates in place are classes: the diagnostics hub, the manifest scan, the witness worker and its
protocol state, the binding registry. Loops over local variables are methods proved against specification functions or
predicates; the theorems are lemmas about those.

## Findings

Where the code does not meet a property it is meant to have, the exact condition under which it does is proved.

- **Negative probes.** A probe is meant to change exactly one control of its baseline. Denying a manual task is the only
  change exactly if both cases run with the same fault; validation lets a fault case be a baseline.
  `RunConfiguration.DenialIsOneControl`, with an input in `RunConfiguration.ProbeOfFaultyCase`. Removing a variable is the
  only change of any task's environment exactly if, besides, the Python agent does not supply the variable (its value is
  injected underneath and stays) and the variable is required or its baseline value is not empty (an empty secret is never
  handed out). `RunConfiguration.RemovalIsOneControl`, with an input in `RunConfiguration.PythonAgentKeepsVariable`. The
  policies passed may differ more (none or an empty allowlist, a required name that equals the removed one up to case),
  but that reaches no task: `RunConfiguration.EmptyAllowlistIsNone`, `RunConfiguration.RemovalSights`.
- **Start of a probe.** A probe is meant to start from its baseline's files. Artifacts under semantic review are reset
  before each run, and only the baseline may have them reviewed: both start alike exactly if no file is there that only
  one of them has reviewed. `CaseStart.ProbeStartsAsBaseline`, with an input in `CaseStart.ProbeFindsReviewedFile`.
- **Staged answers.** A core run is meant to make its artifacts; fixtures are kept from seeding them. A file copied from
  the staged folder is not: an artifact that passes was made during the run exactly if it is reset before it, a fixture
  removes it, or no staged file is copied to its path. `CaseStart.PassedCoreProduces`, with an input in
  `CaseStart.StagedAnswerPasses`.
- **Fixture setup.** The comparison of effective file inputs reads base files from the staged folder, but files named
  `*.trial-plan.json` are not copied into a case. A fixture that removes such a file of another pipeline counts as a
  difference although the workspaces are equal, and one that restores its bytes counts as no difference although they
  differ. `FixtureSetup.ComparisonMisled` states exactly when; `FixtureSetup.AcceptedSetupsDiffer` states it for the
  pairs of an accepted plan, and `FixtureSetup.RemovingPlanChangesNothing` gives an input.
- **Manifest cache.** A cached capture succeeds where a cold one fails exactly if a reused file could not have been read
  without changing; otherwise they agree on everything. `WitnessCache.CachedCaptureIsCold`, with an input in
  `WitnessCache.WarmCaptureOfUnreadableFile`.
- **Worker disposal.** A call that still waits in the queue when a workspace is dropped starts a new worker that nothing
  disposes. `WitnessWorkerProtocol.DisposalIsFinalExactlyIfQueueAborted`, with a history in
  `WitnessWorkerProtocol.WorkerOutlivesDisposal`.
- **Repeated reservation.** A repeated request is meant to get its binding again. When the first reservation
  returned an owned target, the identity is not recorded, and a forced reservation under the same identity changes what
  a repeat gets. `Bindings.RepeatedReserve`, `Bindings.ForcedRequestTakesOver`.
- **Equalities.** The plan check and the evaluator compare JSON differently on negative zero. `Json.EqualitiesCompared`,
  with an input in `Json.SignOfZero`.
- **Log limit.** The newest log entry is never dropped, so the log (unlike the timeline) is within its byte limit
  exactly if that entry is. `LogBuffer.LogWithinLimit`, with an input in `LogBuffer.LongMessageStays`.
- **Cycle report.** A pipeline with a cycle is refused with a list that is meant to name the members of its cycles. It
  names every task that waits for a cycle, which is the same exactly if no task off the cycles depends on one.
  `Dag.ReportNamesCyclesOnly`, with an input in `Dag.BystanderReported`.
- **Manual approvals.** A task outside the granted ones that asks for approval is meant to block the trial. When all
  planned cases succeed it does exactly if no returned case has a failing task; a planned fault, whose task fails as
  expected, lets the trial pass. `RunLedger.ManualRequestBlocks`, with an input in
  `RunLedger.PlannedFaultHidesManualRequest`.
- **Unreachable code.** The assignment after the ten attempts of the overflow marker, and the fallback reason for cases
  the loop never came to, are never reached. `Timeline.SettleReturnedBytes`, `RunLedger.FallbackNeverTaken`.

## Assumptions

- A digest determines its input: digests are values that keep what was hashed, or an injective function. In the manifest
  cache, equal path and metadata mean equal content.
- Random ids are fresh when drawn; the random part of a target name is arbitrary, and its 32 attempts are modelled.
- The task graph is acyclic where a theorem says so. `buildDag`, from which every task map comes
  (`apps/editor/server/chat-trial-intent-coverage.ts:40`), accepts exactly the acyclic maps (`Dag.BuildDag`). The checks
  rely on it: parsing a stored task map (`apps/editor/server/chat-trial-resilience-rules.ts:402-425`) does not look for
  cycles, and on any graph the terminal tasks stand for all tasks exactly if they reach all (`Graph.TerminalsDecide`);
  a cycle alone has none (`Graph.CycleHasNoTerminal`).
- Ids of a plan's cases are distinct, as its parser demands.
- Files, clocks, events, replies, model responses and the outcome of a case are given: as maps, as sequences, or as
  arbitrary values a theorem quantifies over.

## Model

| member | source | states |
|---|---|---|
| Json.SameJsonMeaning | apps/editor/server/chat-trial-resilience-rules.ts:489-509 | the sorted-key comparison accepts exactly the pairs that are the same document: same kind, same own keys, same value under every key, signs of zero ignored |
| Json.DeepStrictEqualMeaning | apps/editor/server/chat-pipeline-trial-run.ts:2186 | deep strict equality accepts exactly the same pairs, but with the sign of zero told apart |
| Json.EqualitiesCompared | apps/editor/server/chat-trial-resilience-rules.ts:489-509 | the two comparisons agree exactly once negative zeros are replaced, and deep strict equality always implies the other |
| Json.SignOfZero | apps/editor/server/chat-trial-resilience-rules.ts:489-509 | the one difference between the two: 0 and -0 |
| JsonPointer.TwoPassesAreOne | apps/editor/server/chat-pipeline-trial-run.ts:1731-1756 | replacing ~1 and then ~0 equals decoding once from left to right (sections 3 and 4 of RFC 6901) |
| JsonPointer.EscapeThenDecode | apps/editor/server/chat-trial-resilience-rules.ts:1021-1035 | decoding inverts escaping for every key, and an escaped key is well escaped and holds no slash |
| JsonPointer.DecodeThenEscape | apps/editor/server/chat-pipeline-trial-plan.ts:649-660 | escaping inverts decoding for every well-escaped token |
| JsonPointer.PointerThenKeys | apps/editor/server/chat-pipeline-trial-plan.ts:649-660 | every list of keys has a pointer that decodes to it, acceptable exactly up to the length limit |
| JsonPointer.KeysThenPointer | apps/editor/server/chat-pipeline-trial-plan.ts:649-660 | an accepted pointer is the pointer of its own keys |
| JsonPointer.ResolveJsonPointer | apps/editor/server/chat-pipeline-trial-run.ts:1731-1756 | finds exactly the value the keys lead to; a miss reports an invalid array index exactly when evaluation ends at an array with a token that is no index |
| JsonPointer.PointerValue | apps/editor/server/chat-trial-resilience-rules.ts:1021-1035 | the second evaluator finds the same value as the first on every document and pointer |
| JsonPointer.PointerAddresses | apps/editor/server/chat-pipeline-trial-run.ts:1731-1756 | every value inside a document is found at the pointer written from its keys |
| PreservedLines.GreedyStep | apps/editor/server/chat-pipeline-trial-run.ts:2206-2218 | placing the first remaining line as early as possible decides whether any placement of the rest exists |
| PreservedLines.PreservesLines | apps/editor/server/chat-pipeline-trial-run.ts:2206-2218 | the greedy leftmost scan succeeds exactly if some in-order, non-overlapping placement of all nonblank source lines exists |
| PreservedLines.PreservedMeansPlaced | apps/editor/server/chat-pipeline-trial-run.ts:2206-2218 | a placement given by positions exists exactly if the lines can be placed one after another |
| PreservedLines.VerbatimCopyPasses | apps/editor/server/chat-pipeline-trial-run.ts:2206-2218 | an unchanged copy of the source passes whatever surrounds it |
| PreservedLines.OverlapRejected | apps/editor/server/chat-pipeline-trial-run.ts:2206-2218 | overlapping occurrences do not count |
| PreservedLines.LinesMeaning | apps/editor/server/chat-pipeline-trial-run.ts:2207 | the lines of a text are the only ones that, joined by line feeds or carriage returns with line feeds, give it again without a break inside |
| PreservedLines.KeptLines | apps/editor/server/chat-pipeline-trial-run.ts:2207 | exactly the blank lines are left out, and the others stay in order |
| Graph.Closure | apps/editor/server/chat-trial-resilience-rules.ts:458-468 | the worklist returns exactly the tasks the selection reaches along dependencies, on any graph |
| Graph.TargetSelectionRunsTask | apps/editor/server/chat-pipeline-trial-readiness.ts:279-295 | the early-exit search is true exactly for tasks the selection reaches, with or without cycles |
| Graph.TaskIdsInTargetClosure | apps/editor/server/chat-pipeline-trial-run.ts:1371-1383 | fails exactly if the closure names an unknown task; otherwise lists exactly the closure, each task once |
| Graph.ReachableClosed | apps/editor/server/chat-pipeline-trial-readiness.ts:220-234 | the closure is closed under dependencies and holds the selection |
| Graph.TerminalsReachAll | apps/editor/server/chat-trial-resilience-rules.ts:603-612 | in an acyclic graph a dependency-closed set that holds every terminal task holds every task |
| Graph.TerminalsReachWhole | apps/editor/server/chat-trial-resilience-rules.ts:600-612 | a selection of known tasks whose closure holds every terminal task has the whole graph as its closure |
| Graph.TerminalsDecide | apps/editor/server/chat-trial-resilience-rules.ts:603-612 | on any graph, asking for the terminal tasks asks for all tasks exactly if the terminal tasks reach them all |
| Dag.BuildDag | packages/core/src/dag.ts:111-170 | refuses exactly the maps with a cycle, naming exactly the tasks that wait for one; otherwise every task comes once, after its dependencies |
| Dag.OrderCompleteIffAcyclic | packages/core/src/dag.ts:136-160 | the ready queue comes to hold every task exactly if the graph is acyclic |
| Dag.OrderOfShape | packages/core/src/dag.ts:127-154 | pipelines with the same tasks and dependencies get the same order, however they are written down |
| Dag.OrderLeavesOut | packages/core/src/dag.ts:160-168 | the tasks without a place are exactly those that wait for a cycle |
| Dag.ReportNamesCyclesOnly | packages/core/src/dag.ts:160-168 | the reported tasks are all on cycles exactly if no task off the cycles depends on one |
| Dag.BystanderReported | packages/core/src/dag.ts:160-168 | a task behind a cycle is reported as a member of it |
| Coverage.TerminalIsTarget | apps/editor/server/chat-pipeline-trial-plan.ts:264-278 | a terminal task can be run only by selecting it |
| Coverage.NoUncoveredTerminalMeansAllExercised | apps/editor/server/chat-pipeline-trial-plan.ts:264-278 | over an acyclic pipeline no terminal task is uncovered exactly if the positive cases together run every task |
| SourceObserver.ObserveOne | apps/editor/server/chat-pipeline-trial-run.ts:1842-1874 | one event changes the observation of one relation, and of no other, as the relation's rule says |
| SourceObserver.ObserveRelations | apps/editor/server/chat-pipeline-trial-run.ts:1829-1876 | one event steps every declared relation it is about exactly once, however often the relation is declared, and changes no other |
| SourceObserver.ObservationMeaning | apps/editor/server/chat-pipeline-trial-run.ts:1829-1876 | after any trace the observation says exactly which relevant events there were: none, one clean success, or a clean success and then one consumer start with the same source |
| SourceObserver.UnavailableIsAbsorbing | apps/editor/server/chat-pipeline-trial-run.ts:1868-1873 | once unavailable, a relation stays unavailable for the rest of the run |
| SourceObserver.PassedRelationIsGenuine | apps/editor/server/chat-pipeline-trial-run.ts:1966-2100 | a relation passes only if the source was the same at producer completion, consumer start and final check, and the captured text is in the output as demanded |
| SourceObserver.RelationPassesExactly | apps/editor/server/chat-pipeline-trial-run.ts:1966-2100 | a relation passes exactly if the result is of the observed run, producer and consumer succeeded as owners of two artifacts, the consumer waited for the producer, the source was handed over in that run and is unchanged, and its text is in the readable output or not, as demanded |
| SourceObserver.IsUpstream | apps/editor/server/chat-pipeline-trial-run.ts:2041-2052 | the recursive search with its shared set of seen tasks finds the producer exactly if the consumer waits for it, directly or not, with or without cycles |
| Evaluation.EvaluateTrialExpectation | apps/editor/server/chat-pipeline-trial-run.ts:1878-2262 | the chain of branches with its early exits passes exactly the expectations that hold of the run and its files |
| Evaluation.OpposedExclude | apps/editor/server/chat-pipeline-trial-run.ts:1921-2228 | opposite expectations about one thing never both pass, and one of them does exactly if that thing can be inspected |
| Evaluation.EqualDecides | apps/editor/server/chat-pipeline-trial-run.ts:2194-2228 | a file with an exact text passes the other text comparisons exactly as that text does |
| Evaluation.EqualDocument | apps/editor/server/chat-pipeline-trial-run.ts:2186 | a JSON comparison passes exactly if the keys of its pointer lead to the expected document in a bounded regular file |
| Evaluation.EntryCountMeaning | apps/editor/server/chat-pipeline-trial-run.ts:2232-2262 | a directory passes a count exactly if the number of its entries that are no links and end with the suffix, ignoring case, is within the bounds |
| Contrast.SameListMeaning | apps/editor/server/chat-trial-resilience-rules.ts:474-488 | joining sorted names with NUL compares lists as multisets |
| Contrast.SameInputsMeaning | apps/editor/server/chat-trial-resilience-rules.ts:474-488 | cases judged the same have equal multisets of targets, fixtures, environment items, generated inputs and denials, whatever the collation; and conversely whenever the collation is an order that tells the items of a case apart |
| Contrast.OneValueOneDocument | apps/editor/server/chat-trial-resilience-rules.ts:510-549 | one actual value cannot deeply equal two expected values that the plan check tells apart |
| Contrast.ContrastExcludes | apps/editor/server/chat-trial-resilience-rules.ts:510-549 | a contrasted expectation and the normal case's deterministic expectations cannot hold of the same files |
| Evidence.CheckNative | apps/editor/server/chat-trial-resilience-rules.ts:1151-1225 | reports nothing exactly if a timeout or exit fault is declared, asserted and recovered soundly |
| Evidence.CheckData | apps/editor/server/chat-trial-resilience-rules.ts:1226-1366 | reports nothing exactly if a replacement fault has a sound observation, source relation and recovery |
| Evidence.CheckPair | apps/editor/server/chat-trial-resilience-rules.ts:1082-1150 | reports nothing exactly if the normal case, the recovery task and the contrasted outcomes are sound |
| Evidence.CheckEvidence | apps/editor/server/chat-trial-resilience-rules.ts:1044-1366 | one piece of evidence has no errors exactly if it is sound |
| Evidence.InspectEvidence | apps/editor/server/chat-trial-resilience-rules.ts:1036-1393 | the missing kinds are, each once, exactly the uncovered obligations and the kinds with unsound evidence, and every one of them has an issue |
| Evidence.SoundEvidenceContrasts | apps/editor/server/chat-trial-resilience-rules.ts:1082-1150 | sound fault evidence gives an earlier normal case, both run once and neither a probe, on equal inputs such that no one workspace state passes the deterministic expectations of both cases |
| Evidence.NothingMissingMeansContrast | apps/editor/server/chat-trial-resilience-rules.ts:1036-1393 | when nothing is missing, every fault obligation has such a pair of cases and a recovery task that depends on the faulted boundary |
| Evidence.EmptyReplacementTold | apps/editor/server/chat-trial-resilience-rules.ts:1258-1338 | any readable file with the empty replacement passes the declared observation and fails the normal case's expectation at that pointer |
| Evidence.SpanReplacementTold | apps/editor/server/chat-trial-resilience-rules.ts:1270-1362 | any readable file with the unlocated span, beside its preserved source, passes the declared observation and fails the normal case's expectation at that pointer |
| Evidence.SoundEvidenceShows | apps/editor/server/chat-trial-resilience-rules.ts:1044-1366 | sound evidence shows of every run: a passing native fault run had the task fail and its recovery succeed, a replaced artifact is told from the normal one, a passing run had the tasks around it succeed and kept the source it is compared with, the recovery task waits for the fault in dependency order, a passing preservation run keeps the lines of its fixture |
| Evidence.NothingMissingMeansShown | apps/editor/server/chat-trial-resilience-rules.ts:1036-1393 | when nothing is missing, every obligation has a piece of evidence that shows this of every run |
| Evidence.SoundInScope | apps/editor/server/chat-trial-resilience-rules.ts:1052-1081 | sound evidence of a kind that a review requires recovers, or keeps its source, through a known task that the first such decision names |
| CoreWitness.ValidateCoreWitness | apps/editor/server/chat-trial-resilience-rules.ts:562-1019 | accepts exactly the sound covered witnesses, the blocked ones with a finding, and no witness when none is required |
| CoreWitness.ValidateCovered | apps/editor/server/chat-trial-resilience-rules.ts:590-1019 | accepts a covered witness exactly if its scope, inputs, roles, reviews and relations are sound |
| CoreWitness.CheckScope | apps/editor/server/chat-trial-resilience-rules.ts:590-612 | passes exactly if the normal case is an executable positive case whose closure holds all tasks that must have a role |
| CoreWitness.CheckReviews | apps/editor/server/chat-trial-resilience-rules.ts:629-664 | passes exactly if every semantic review is in the normal case, once per target, mapped to the uniquely owning content task |
| CoreWitness.CheckRole | apps/editor/server/chat-trial-resilience-rules.ts:879-961 | passes exactly if the task is asserted to succeed and every artifact it declares has a sound content expectation among the role's own indices |
| CoreWitness.RolesAreAllTasks | apps/editor/server/chat-trial-resilience-rules.ts:600-628 | over an acyclic graph the roles of an accepted witness name every task of the pipeline exactly once |
| CoreWitness.NormalCaseRunsAll | apps/editor/server/chat-trial-resilience-rules.ts:590-612 | the normal case of an accepted witness runs every task of an acyclic graph, under no denial, removal or fault |
| CoreWitness.EveryArtifactWitnessed | apps/editor/server/chat-trial-resilience-rules.ts:879-961 | every artifact any task declares is witnessed by a content expectation of that task's own role |
| CoreWitness.PassedCoreHasArtifacts | apps/editor/server/chat-trial-resilience-rules.ts:879-961 | if the normal case then passes, every declared artifact not left to review is a readable file that no fixture put there, and its task succeeded |
| CoreWitness.ConcreteMeaning | apps/editor/server/chat-trial-resilience-rules.ts:672-683 | a value is concrete exactly if a nonblank text, a number or a truth value can be reached in it |
| CoreWitness.CoreContentTold | apps/editor/server/chat-trial-resilience-rules.ts:879-961 | in an accepted witness every content expectation tells something of its own task in every run that passes: its pointer leads to a text, number or truth value, its file is not blank, the text of an upstream artifact or of a genuine source is in it, or the artifact left to review is that task's alone |
| CoreWitness.GeneratedInputsTold | apps/editor/server/chat-trial-resilience-rules.ts:684-878 | an accepted witness maps exactly the generated inputs of its normal case; each is absent at the start with nothing above or below it, is made by a task for another one that waits for it, and holds text in every run that passes |
| CaseStart.PassedCoreProduces | apps/editor/server/chat-pipeline-trial-run.ts:3655-3689 | such an artifact came into being during the run exactly if the file is reset before the run, a fixture removes it, or no staged file is copied to its path |
| CaseStart.StagedAnswerPasses | apps/editor/server/chat-pipeline-trial-run.ts:3655-3689 | an accepted core that passes on a file copied from the staged folder, which no task touched |
| CaseStart.ProbeStartsAsBaseline | apps/editor/server/chat-pipeline-trial-run.ts:3673-3689 | a probe starts from its baseline's files exactly if no file is there that only one of the cases has reviewed |
| CaseStart.ProbeFindsReviewedFile | apps/editor/server/chat-pipeline-trial-run.ts:3683-3689 | an accepted probe that finds a staged file its baseline does not |
| FixtureSetup.ResetGeneratedInputs | apps/editor/server/chat-pipeline-trial-run.ts:1531-1579 | succeeds exactly if each declared file in turn lies below no file, is no folder, and is absent or removed by a fixture; then exactly the declared files are gone |
| ManifestEncoding.DecodeEncode | apps/editor/server/chat-pipeline-trial-witness.ts:1022 | the byte stream of dir, file, symlink and missing records decodes to the manifest it was made from |
| ManifestEncoding.EncodeInjective | apps/editor/server/chat-pipeline-trial-witness.ts:735 | equal streams mean equal manifests, with or without the Git header |
| WitnessScan.ManifestScan.Visit | apps/editor/server/chat-pipeline-trial-witness.ts:904-1041 | a directory visit feeds the hash, fills the next manifest and counts exactly as the scan of the tree says, or fails |
| WitnessScan.ManifestScan.VisitGit | apps/editor/server/chat-pipeline-trial-witness.ts:734-874 | the loop over Git source paths does the same |
| WitnessScan.ManifestScan.AddFile | apps/editor/server/chat-pipeline-trial-witness.ts:999-1022 | a file is taken from the cache only when its metadata is unchanged, and counted as hashed or reused |
| WitnessScan.ManifestScan.AddLink | apps/editor/server/chat-pipeline-trial-witness.ts:921-992 | a link is recorded with its own text and its canonical target, reused only with unchanged metadata |
| WitnessCache.TrialWitnessWorker.OnMessage | apps/editor/server/chat-pipeline-trial-witness-worker.ts:43-89 | the handler moves the two worker variables and answers as the functional worker does: another root drops the cache, a failure forgets it |
| WitnessCache.DirectoryMatches | apps/editor/server/chat-pipeline-trial-witness.ts:889-1055 | a scan with cached digests has the records and entries of a cold scan |
| WitnessCache.GitMatches | apps/editor/server/chat-pipeline-trial-witness.ts:724-887 | the same for Git sources |
| WitnessCache.RunKeepsCache | apps/editor/server/chat-pipeline-trial-witness-worker.ts:43-89 | over any sequence of requests every cached digest stays the digest of the content its path and metadata promise |
| WitnessCache.CachedCaptureIsCold | apps/editor/server/chat-pipeline-trial-witness-worker.ts:43-89 | at any point of any run, with root switches and failures, digest, file count and byte total equal those of a cold capture whenever that succeeds, and hashed plus reused is the file count |
| WitnessCache.WarmCaptureOfUnreadableFile | apps/editor/server/chat-pipeline-trial-witness.ts:1001-1022 | the input on which a cached capture succeeds and a cold one fails |
| WitnessCache.EnumerationOrderIrrelevant | apps/editor/server/chat-pipeline-trial-witness.ts:916-920 | the order in which directories list their entries does not affect a scan |
| WitnessCache.EqualDigestsEqualManifests | apps/editor/server/chat-pipeline-trial-witness.ts:1043-1054 | with a collision-free hash equal digests come from equal manifests |
| WitnessMeaning.DigestMeaning | apps/editor/server/chat-pipeline-trial-witness.ts:724-1055 | two captures have the same digest exactly if their workspaces hold the same at every path that is not excluded: directories, files with size and content, links with text and canonical target; for Git, at every source path, missing ones included, in the same repository state |
| WitnessMeaning.ColdDigestMeaning | apps/editor/server/chat-pipeline-trial-witness.ts:1043-1055 | this for any two captures from scratch, whatever the order in which directories list their entries |
| WitnessMeaning.RunDigestMeaning | apps/editor/server/chat-pipeline-trial-witness-worker.ts:43-89 | this for any two answers of any runs, whatever was taken from the cache |
| WitnessMeaning.ItemRecorded | apps/editor/server/chat-pipeline-trial-witness.ts:916-1024 | every item that can be reached in the tree has its record in the hashed stream |
| WitnessMeaning.RecordedItem | apps/editor/server/chat-pipeline-trial-witness.ts:916-1024 | every record in the hashed stream is that of an item that can be reached |
| WitnessMeaning.ColdAnswered | apps/editor/server/chat-pipeline-trial-witness.ts:724-1055 | a capture from scratch succeeds exactly if every node that can be reached stays the same and every link leads inside to a regular path that is not excluded; for Git, exactly if moreover no path is a folder and files and link targets are source paths or hold some |
| WitnessWorkerProtocol.WorkerState.RunNext | apps/editor/server/chat-pipeline-trial-witness.ts:1501-1561 | once the call before it has settled, the next queued call is rejected, or posted under a fresh id to the live or a new worker |
| WitnessWorkerProtocol.WorkerState.OnMessage | apps/editor/server/chat-pipeline-trial-witness.ts:1464-1475 | a reply settles its pending request, and nothing when it comes from another worker or names no request |
| WitnessWorkerProtocol.WorkerState.TerminateWorker | apps/editor/server/chat-pipeline-trial-witness.ts:1426-1442 | forgets the worker and rejects every pending request |
| WitnessWorkerProtocol.IdleMeansNothingPending | apps/editor/server/chat-pipeline-trial-witness.ts:1501-1521 | the promise chain is resolved exactly if no request is pending, which is why starting a call never makes a second one |
| WitnessWorkerProtocol.StepValid | apps/editor/server/chat-pipeline-trial-witness.ts:1426-1561 | every step keeps: one pending request at most, pending only with a live worker, settled ids strictly increasing, no call lost or doubled |
| WitnessWorkerProtocol.RunValid | apps/editor/server/chat-pipeline-trial-witness.ts:1426-1561 | the same in every state of every interleaving |
| WitnessWorkerProtocol.SettledOnce | apps/editor/server/chat-pipeline-trial-witness.ts:1501-1561 | no call settles twice, or settles while it is queued or in flight |
| WitnessWorkerProtocol.WorkersInOrder | apps/editor/server/chat-pipeline-trial-witness.ts:1444-1499 | a later worker is never an earlier one again |
| WitnessWorkerProtocol.StaleWorkerIsIgnored | apps/editor/server/chat-pipeline-trial-witness.ts:1464-1496 | a message from a replaced or terminated worker changes nothing, then or ever after |
| WitnessWorkerProtocol.ReplySettles | apps/editor/server/chat-pipeline-trial-witness.ts:1464-1475 | a reply of the live worker settles exactly the pending call, with the reply's outcome |
| WitnessWorkerProtocol.DisposalIsFinalExactlyIfQueueAborted | apps/editor/server/chat-pipeline-trial-witness.ts:1563-1569 | a disposed state stays without a worker exactly if every queued call had been aborted |
| WitnessWorkerProtocol.WorkerOutlivesDisposal | apps/editor/server/chat-pipeline-trial-witness.ts:1563-1569 | the shortest history in which a worker outlives disposal |
| BoundedBuffer.OnlineEviction | apps/editor/server/diagnostics.ts:1034-1045 | evicting after each arrival keeps what the limits allow of the whole history: the longest suffix that fits, or the last item |
| BoundedBuffer.RetainedUnique | apps/editor/server/diagnostics.ts:1034-1045 | the limits allow one suffix only |
| LogBuffer.RecordKeepsLog | apps/editor/server/diagnostics.ts:1019-1046 | recording keeps the log the allowed end of everything recorded, with consecutive cursors, dropped plus retained equal to the cursor, and bytes equal to the retained messages |
| LogBuffer.LogWithinLimit | apps/editor/server/diagnostics.ts:1034-1045 | the bytes counted are those of the retained messages in UTF-8, and within the limit exactly if the newest message is |
| LogBuffer.LongMessageStays | apps/editor/server/diagnostics.ts:1034-1045 | under any limits a hub accepts, one long message takes the log over its limit |
| LogBuffer.PagingConserves | apps/editor/server/diagnostics.ts:1019-1083 | over every interleaving of writes and reads, entries returned plus losses equal the reader's cursor, each entry once, in order and unaltered |
| Paging.PageMeaning | apps/editor/server/diagnostics.ts:1048-1124 | a page holds the entries right after the evicted ones, its next cursor accounts for every entry lost or returned, and it has more exactly if the next cursor is not the latest |
| Paging.AskConserves | apps/editor/server/diagnostics.ts:1048-1124 | a read keeps entries returned plus losses equal to the reader's cursor, and loses exactly the entries dropped ahead of the reader |
| Timeline.ThirdIterateIsFixed | apps/editor/server/diagnostics.ts:198-205 | the iteration that adds a size's own digits is settled after three steps, for every base |
| Timeline.SettleReturnedBytes | apps/editor/server/diagnostics.ts:198-205 | the marker's recorded size is its own serialized size, found within the ten attempts |
| Timeline.BoundedUtf8String | apps/editor/server/diagnostics.ts:164-177 | a short text is kept; a long one becomes its longest prefix that leaves room for the suffix |
| Timeline.BoundedStringFits | apps/editor/server/diagnostics.ts:164-177 | the result is within the limit exactly if the text or the suffix alone is |
| Timeline.MarkerNamesFit | apps/editor/server/diagnostics.ts:186-187 | under the limits a marker asks for, 128 and 256 bytes, the result always fits |
| Timeline.TimelineOverflowMarker | apps/editor/server/diagnostics.ts:179-214 | a marker keeps cursor, time and section names, bounds its instance and workspace, drops the state, and is reduced to its bare form when it does not fit |
| Timeline.BareMarkerFits | apps/editor/server/diagnostics.ts:207-212 | the bare marker fits the smallest limit the hub accepts |
| Timeline.RecordKeepsTimeline | apps/editor/server/diagnostics.ts:1126-1171 | a report keeps the timeline the allowed end of all stored events, its byte count true and within the limit, and all changes adding up to the latest states |
| Timeline.RunKeepsTimeline | apps/editor/server/diagnostics.ts:1126-1171 | the same after any sequence of reports, for exactly the events those reports made |
| Timeline.RetainedChangesRebuild | apps/editor/server/diagnostics.ts:1133-1143 | a section is rebuilt from the retained events whenever its newest change is retained unmarked |
| Timeline.InstanceRebuilds | apps/editor/server/diagnostics.ts:1133-1143 | an instance whose events are all retained unmarked has its whole latest state rebuilt by folding them |
| Timeline.CompleteBufferRebuildsAll | apps/editor/server/diagnostics.ts:1126-1171 | with nothing dropped or marked the events rebuild the latest states of all instances |
| Timeline.RunRebuildsSection | apps/editor/server/diagnostics.ts:1126-1171 | after any run, a section whose last changing report left a retained unmarked event is rebuilt as the instance's latest report gave it |
| Timeline.RunRebuildsInstance | apps/editor/server/diagnostics.ts:1126-1171 | after any run, an instance whose changing reports all left retained unmarked events has the whole snapshot of its latest report rebuilt |
| Timeline.PagingConserves | apps/editor/server/diagnostics.ts:1085-1171 | over every interleaving of reports and reads the timeline is in step with its history, and events returned plus losses equal the reader's cursor, each event once, in order and as stored |
| EventText.SizeOfText | apps/editor/server/diagnostics.ts:160-162 | the size counted for an event is the UTF-8 length of its JSON text, with names, escapes, numbers, state and truncation record |
| EventText.RunWithinLimit | apps/editor/server/diagnostics.ts:1153-1171 | after any run of reports the timeline holds the longest end of the stored events whose JSON texts are within the limits; an event whose own text is too long is stored as a marker with the length of that text and of its own |
| Diagnostics.DiagnosticsHub.constructor | apps/editor/server/diagnostics.ts:941-948 | limits below the workable minima are raised to them |
| Diagnostics.DiagnosticsHub.Enable | apps/editor/server/diagnostics.ts:950-963 | a session starts from empty buffers with its announcement as first log entry |
| Diagnostics.DiagnosticsHub.RecordLog | apps/editor/server/diagnostics.ts:1019-1046 | the eviction loop updates the log in place as one recording, and changes nothing without a session |
| Diagnostics.DiagnosticsHub.ReadLogs | apps/editor/server/diagnostics.ts:1048-1083 | reading returns the page of the bounded query and changes nothing |
| Diagnostics.DiagnosticsHub.ReadTimeline | apps/editor/server/diagnostics.ts:1085-1124 | the same for the timeline |
| Diagnostics.DiagnosticsHub.RecordRendererTimeline | apps/editor/server/diagnostics.ts:1126-1171 | the comparison state always moves on, and a changed report is stored, marked if too large, and evicted for |
| Prerequisites.CheckEnvironment | apps/editor/server/chat-pipeline-trial-prerequisites.ts:20-55 | accepts exactly the lists of valid items whose names differ even when case is ignored, and counts the removals |
| Prerequisites.NormalizeCase | apps/editor/server/chat-pipeline-trial-prerequisites.ts:17-83 | accepts exactly the cases that change one prerequisite with a baseline, or none without |
| Prerequisites.SameListMeaning | apps/editor/server/chat-pipeline-trial-prerequisites.ts:94-96 | comparing sorted JSON texts compares lists as multisets |
| Prerequisites.CheckProbe | apps/editor/server/chat-pipeline-trial-prerequisites.ts:97-157 | accepts exactly the probes whose baseline is positive, has the same setup and expects success of every target, with all other inputs inherited |
| Ordering.SortByFlag | apps/editor/server/chat-pipeline-trial-prerequisites.ts:158-160 | the stable sort by kind moves negative cases to the end and keeps both kinds in order |
| Prerequisites.NormalizeTrialPrerequisiteCases | apps/editor/server/chat-pipeline-trial-prerequisites.ts:13-161 | accepts exactly the plans whose cases are valid and whose probes are grounded, and returns the same cases with probes last |
| Prerequisites.NegativeRunsAfterBaseline | apps/editor/server/chat-pipeline-trial-prerequisites.ts:91-160 | every accepted probe comes after its baseline, with the same targets, fixtures and generated inputs |
| RunConfiguration.MergeEnvironment | apps/editor/server/chat-pipeline-trial-run.ts:4733-4738 | the merged list has each name once, with the case's own last item of that name, or else the baseline's last one, and no other names |
| RunConfiguration.Configure | apps/editor/server/chat-pipeline-trial-run.ts:3343-3408 | the override loop computes the injected and resolvable variables, the policy, the denials and the fault as the functional form does |
| RunConfiguration.OverridesByName | apps/editor/server/chat-pipeline-trial-run.ts:3346-3356 | what the override loop leaves of a name depends on that name's item only |
| RunConfiguration.SelectTrialSecretEnv | apps/editor/server/chat-pipeline-trial-run.ts:2288-2298 | hands out the named values that are not empty |
| RunConfiguration.SelectedNames | apps/editor/server/chat-pipeline-trial-run.ts:2288-2298 | a name is handed out exactly if it is asked for and has a nonempty value |
| RunConfiguration.TrialInputsAreSandbox | apps/editor/server/chat-pipeline-trial-run.ts:4492-4493 | every declared or required name has a nonempty synthetic value, and exactly the required ones are injected |
| RunConfiguration.AcceptedProbes | apps/editor/server/chat-pipeline-trial-prerequisites.ts:67-156 | what validation gives for a baseline and its probe |
| RunConfiguration.ProbeTold | apps/editor/server/chat-pipeline-trial-prerequisites.ts:67-156 | a validated probe denies one task or removes one variable and nothing else; an outcome that passes its baseline had every target succeed, one that passes the probe decided every target and had the denied task blocked |
| RunConfiguration.SightsDecideStart | packages/runtime-bun/src/bun-process-runner.ts:121-133 | whether a task starts, and the environment of its process, are decided by what can be seen of each variable |
| RunConfiguration.MinimalReserved | packages/runtime-bun/src/bun-process-runner.ts:45-59 | every name a child process takes over from its host is reserved, so no case can set or remove it |
| RunConfiguration.DenialIsOneControl | apps/editor/server/chat-pipeline-trial-run.ts:3368-3394 | a probe that denies a manual task runs exactly as its baseline but for that task if and only if both run with the same fault, or none |
| RunConfiguration.ProbeOfFaultyCase | apps/editor/server/chat-pipeline-trial-prerequisites.ts:97-156 | a validated probe of a case that runs with a fault differs from it in more than the denial |
| RunConfiguration.RemovalSights | apps/editor/server/chat-pipeline-trial-run.ts:3346-3363 | a removal changes no other variable for any task, and leaves of the variable exactly what the Python agent supplies |
| RunConfiguration.RemovalIsOneControl | apps/editor/server/chat-pipeline-trial-run.ts:3346-3408 | a probe that removes a variable differs from its baseline in exactly that variable, for every task on every host, if and only if both run with the same fault, the Python agent does not supply it, and it is required or not empty in the baseline |
| RunConfiguration.RemovalReachesTask | packages/core/src/core/task-executor.ts:259-312 | then every task starts as before but without the variable, and is blocked if it declares it |
| RunConfiguration.PythonAgentKeepsVariable | apps/editor/server/chat-pipeline-trial-run.ts:3361-3363 | a validated removal of a variable that the Python agent supplies leaves the agent's value injected |
| RunConfiguration.VirtualEnvironmentIsInput | apps/editor/server/chat-pipeline-trial-prerequisites.ts:31-43 | one of the agent's variables is a valid input of a case |
| RunConfiguration.EmptyAllowlistIsNone | packages/runtime-bun/src/bun-process-runner.ts:121-133 | no policy and an allowlist without names start every task alike |
| FixtureSetup.CasePathRoundTrip | apps/editor/server/chat-pipeline-trial-readiness.ts:55-91 | translating a case path to the workspace and back gives it again |
| FixtureSetup.WorkspacePathRoundTrip | apps/editor/server/chat-pipeline-trial-readiness.ts:55-91 | a workspace path survives the way back exactly if it is not in a top folder named like the pipeline's own |
| FixtureSetup.BaseMeaning | apps/editor/server/chat-trial-fixture-setup-rules.ts:49-74 | a base read that succeeds gives the digest of the staged file |
| FixtureSetup.ReadBase | apps/editor/server/chat-trial-fixture-setup-rules.ts:48-74 | a memoised base read gives what a fresh walk gives |
| FixtureSetup.ComparePaths | apps/editor/server/chat-trial-fixture-setup-rules.ts:127-135 | the short-circuit comparison finds a difference, equality on all paths, or an unreadable base |
| FixtureSetup.ValidateFixtureSetup | apps/editor/server/chat-trial-fixture-setup-rules.ts:40-147 | accepts only if every comparable pair has no omitted input and a different effective setup; a rejection names an offending pair |
| FixtureSetup.PrepareTrialCaseWorkspace | apps/editor/server/chat-pipeline-trial-run.ts:1463-1529 | succeeds exactly if the folder can be copied within its limits and every fixture in turn meets no folder and, when it writes, no file on its way; then the workspace holds the copied files with the fixtures applied |
| FixtureSetup.FoundMeaning | apps/editor/server/chat-pipeline-trial-run.ts:1506-1517 | at every case path the workspace has the fixture's content or the copied file |
| FixtureSetup.ControlledPathsDecide | apps/editor/server/chat-trial-fixture-setup-rules.ts:127-135 | two workspaces are equal exactly if they agree on the paths their fixtures name |
| FixtureSetup.FixturePathsDecide | apps/editor/server/chat-trial-fixture-setup-rules.ts:105-135 | comparing the union of fixture paths with base reads decides equality of the whole workspaces, as long as no staged trial plan file is left to the base |
| FixtureSetup.ComparisonMisled | apps/editor/server/chat-pipeline-trial-run.ts:1470-1471 | exactly when the comparison is wrong: only such files differ, and all of them are restored or all removed |
| FixtureSetup.RemovingPlanChangesNothing | apps/editor/server/chat-pipeline-trial-run.ts:1470-1471 | removing another pipeline's staged plan file passes as a difference and changes nothing |
| FixtureSetup.AcceptedSetupsDiffer | apps/editor/server/chat-trial-fixture-setup-rules.ts:75-147 | two comparable cases of an accepted plan start from different workspaces exactly if the comparison was not misled, and then differ in a file the negative case sets up |
| FixtureSetup.ComparedCases | apps/editor/server/chat-trial-fixture-setup-rules.ts:75-104 | a negative and a positive case that are compared run the same targets without overrides, denials or faults, and no outcome passes both |
| SemanticReview.KeyDecodes | apps/editor/server/chat-trial-semantic-review.ts:168 | the joined key of a target without NUL is the key of no other pair, whatever a reviewer writes |
| SemanticReview.ParseEvidence | apps/editor/server/chat-trial-semantic-review.ts:325-343 | accepts exactly literal, bounded, nonblank quotes, each with the digest, place and length of its first occurrence |
| SemanticReview.ParseVerdicts | apps/editor/server/chat-trial-semantic-review.ts:296-354 | accepts exactly the responses with a supported row for as many distinct requested targets as there are |
| SemanticReview.AnsweredOnce | apps/editor/server/chat-trial-semantic-review.ts:308-324 | an accepted response answers every target in exactly one row |
| SemanticReview.CheckRequest | apps/editor/server/chat-trial-semantic-review.ts:421-466 | a review starts exactly if the run succeeded, the targets are distinct and the frozen context is intact and bounded |
| SemanticReview.PrepareReview | apps/editor/server/chat-trial-semantic-review.ts:421-513 | a request is made exactly if its context and its evidence are in order and safe |
| SemanticReview.AllTargetsPass | apps/editor/server/chat-trial-semantic-review.ts:573-600 | all targets pass exactly if all rows do |
| SemanticReview.EvaluateTrialSemanticReview | apps/editor/server/chat-trial-semantic-review.ts:357-606 | a review that took place decides every target by its row and leaves a matching receipt; any other fails every target and never leaves a passing receipt |
| SemanticReview.ReceiptStands | apps/editor/server/chat-trial-semantic-review.ts:467-606 | the receipt of a review that took place stands for the very intent and pipeline texts, for artifacts that were the same before and after and hold no secret, and for verdicts whose quotes are literally in them where they say, one from the judged artifact unless the verdict is uncertain |
| ReviewReceipts.ValidateCase | apps/editor/server/chat-trial-semantic-review.ts:628-731 | accepts exactly the documented cases: successful and current, each run with a receipt that documents it and one linked check for every planned target |
| ReviewReceipts.ValidateTrialSemanticReviewReceipts | apps/editor/server/chat-trial-semantic-review.ts:609-737 | accepts exactly if every planned case with reviews has one returned case, and that case is acceptable |
| ReviewReceipts.AcceptanceMeaning | apps/editor/server/chat-trial-semantic-review.ts:641-731 | a case is accepted exactly if the receipt of its k-th run carries this trial, intent, case, run id and number, was passed by the configured model, and has for every planned target one passing verdict with a reason and a quote from that very file, one nonempty produced artifact, and one linked check |
| ReviewReceipts.TrialMeaning | apps/editor/server/chat-trial-semantic-review.ts:609-737 | the validation succeeds exactly if every planned case with reviews has one result of its id, and that is so documented |
| ReviewReceipts.CollectReviews | apps/editor/server/chat-pipeline-trial-run.ts:3842-3872 | the loop over runs collects the receipts and the checks of all runs in order |
| ReviewReceipts.ReviewedCaseAccepted | apps/editor/server/chat-pipeline-trial-run.ts:3758-3872 | if every repeat was reviewed successfully under its own identity and distinct run ids, the assembled case passes the validator |
| ReviewReceipts.AssembledAccepted | apps/editor/server/chat-pipeline-trial-run.ts:3758-3872 | an assembled case is accepted exactly if it succeeded, its run ids are distinct, and each run left a receipt of just this run that documents a passed review of every target |
| ReviewReceipts.AcceptedReceipt | apps/editor/server/chat-trial-semantic-review.ts:678-731 | an accepted case holds for each run a receipt of that run in this trial |
| ReviewReceipts.PairHasCheck | apps/editor/server/chat-trial-semantic-review.ts:692-729 | in an accepted case every target of every run has exactly one check |
| ReviewReceipts.EveryCheckIsAPair | apps/editor/server/chat-trial-semantic-review.ts:656-729 | in an accepted case with distinct targets every check is the check of one target in one run |
| RunLedger.RunCases | apps/editor/server/chat-pipeline-trial-run.ts:4660-4861 | the case loop with its early exits computes the ledger |
| RunLedger.ExecuteTrial | apps/editor/server/chat-pipeline-trial-run.ts:4660-5135 | the report has the records, the not-run list with its reasons, success and kind as the ledger says, after the change for ungranted manual tasks |
| RunLedger.ReportPartitions | apps/editor/server/chat-pipeline-trial-run.ts:4862-4935 | on every path returned and not-run cases partition the planned cases, each once |
| RunLedger.ReportOrdered | apps/editor/server/chat-pipeline-trial-run.ts:4682-4692 | every case that ran or was reused has all its prerequisites among the successful records before it, in the final report too; fault cases are never reused |
| RunLedger.RecordsTell | apps/editor/server/chat-pipeline-trial-run.ts:4660-4861 | every record belongs to a planned case, in the order of the plan, and is successful exactly if that case was reused as a success or executed successfully and contained, unless the final capture failed it |
| RunLedger.PrerequisitesMeaning | apps/editor/server/chat-pipeline-trial-run.ts:4682-4692 | a case waits for its baseline and for the normal case of each of its fault evidence, and for no other |
| RunLedger.SuccessIsComplete | apps/editor/server/chat-pipeline-trial-run.ts:4945-4948 | a successful trial returned every planned case, each successful |
| RunLedger.SuccessMeaning | apps/editor/server/chat-pipeline-trial-run.ts:4945-4948 | a trial succeeds exactly if its time did not run out, the real workspace was verified throughout, every planned case was reached, had what it waits for before it and went well, and no ungranted manual task blocks it |
| RunLedger.KindMeaning | apps/editor/server/chat-pipeline-trial-run.ts:4945-5135 | each kind of report is given exactly under its own conditions, a timeout before a failed witness before a block |
| RunLedger.KindMatchesSuccess | apps/editor/server/chat-pipeline-trial-run.ts:4945-5135 | a report says passed, with or without warnings, exactly if it is successful: a failed capture always fails a case, and an ungranted manual task changes both |
| RunLedger.ManualRequestBlocks | apps/editor/server/chat-pipeline-trial-run.ts:5029-5121 | when all planned cases succeed, an ungranted manual task blocks the trial exactly if no returned case has a failing task |
| RunLedger.PlannedFaultHidesManualRequest | apps/editor/server/chat-pipeline-trial-run.ts:5029-5121 | one successful case gives either outcome |
| RunLedger.CasePlace | apps/editor/server/chat-pipeline-trial-run.ts:4682-4706 | while the loop runs, a case is returned, blocked or left out exactly by its prerequisites and readiness |
| RunLedger.FallbackNeverTaken | apps/editor/server/chat-pipeline-trial-run.ts:4904-4913 | the reason for cases the loop never came to is never used |
| RunLedger.NotRunExplained | apps/editor/server/chat-pipeline-trial-run.ts:4660-4935 | a not-run case is reported unavailable exactly if the loop came to it and the host was not ready; else timed out, aborted or unverified exactly if that stopped the loop; else a prerequisite case had not succeeded |
| RunLedger.ReportCounts | apps/editor/server/chat-pipeline-trial-run.ts:4723-4730 | the counters count the returned cases that were executed and those that were reused |
| RunLedger.ResultWithTrialPlan | apps/editor/server/chat-pipeline-trial-run.ts:1166-1205 | a result without a not-run list gets exactly the planned cases it does not return |
| RunLedger.DerivedNotRun | apps/editor/server/chat-pipeline-trial-run.ts:1185-1193 | deriving the not-run list again gives the cases the report lists |
| EvidenceSelection.SelectTaskEvidence | apps/editor/server/chat-pipeline-trial-run.ts:2634-2662 | selects min(limit, n) distinct results in rank order, with the kept representatives, and omits nothing ranked above a selected other result |
| EvidenceSelection.FailedCaseShown | apps/editor/server/chat-pipeline-trial-run.ts:2647-2651 | when the failed cases fit, each shows its best ranked result |
| EvidenceSelection.RankMeaning | apps/editor/server/chat-pipeline-trial-run.ts:2616-2632 | failing results come first, then those of failed cases; of the rest successes come last and skipped tasks before them; equals keep their order |
| EvidenceSelection.FailingShownFirst | apps/editor/server/chat-pipeline-trial-run.ts:2634-2662 | a failing result is left out only if every shown one is failing or of a failed case |
| EvidenceCounts.OmittedTrialTaskStatusCounts | apps/editor/server/chat-pipeline-trial-run.ts:2602-2613 | at every status the omitted count is what is not shown, and no status is listed with none |
| EvidenceCounts.Select | apps/editor/server/chat-pipeline-trial-run.ts:2634-2662 | no selection shows more results of any description than there are |
| EvidenceCounts.AssembleCaseEvidence | apps/editor/server/chat-pipeline-trial-run.ts:4021-4042 | shown plus omitted is what ran, at every status of a case over all its runs |
| EvidenceCounts.AssembleTrialEvidence | apps/editor/server/chat-pipeline-trial-run.ts:4968-4991 | shown plus omitted is the total, at every status of the trial and of every case in it |
| Bindings.NormalizeTwice | apps/editor/server/chat-pipeline-binding.ts:57-68 | normalizing a normalized path changes nothing |
| Bindings.NormalizeMeaning | apps/editor/server/chat-pipeline-binding.ts:55-68 | a path normalizes to what is left of it without a leading dot segment, with slashes, exactly if that is a list of names, none empty, one dot or two dots, joined by slashes and not on a drive |
| Bindings.RequestKeyInjective | apps/editor/server/chat-pipeline-binding.ts:146 | joined request keys tell pairs of identities apart |
| Bindings.ReadRegistry | apps/editor/server/chat-pipeline-binding.ts:131-156 | a record is read exactly if its bindings parse and share no id, request or target; a sound record reads as itself |
| Bindings.ReserveTargetRelativePath | apps/editor/server/chat-pipeline-binding.ts:164-187 | gives the first of 32 drawn targets that is neither on disk nor owned |
| Bindings.BindingRegistry.ReserveChatPipelineBinding | apps/editor/server/chat-pipeline-binding.ts:243-302 | a recorded request gets its binding, an edited own target its owner, any other request a new binding on a drawn target; each error is given exactly for its reason and changes nothing |
| Bindings.BindingRegistry.RebindChatPipelineBindingTarget | apps/editor/server/chat-pipeline-binding.ts:197-224 | the binding of this id, and no other, moves to the normalized path and is returned, unless the id is malformed or unknown, the path does not normalize or another binding owns it |
| Bindings.BindingRegistry.RelocateChatPipelineBindingTarget | apps/editor/server/chat-pipeline-binding.ts:226-236 | the binding of this id, and no other, moves to the first drawn candidate that is neither on disk nor owned, unless the id is malformed or unknown or no candidate is free |
| Bindings.RebindMeaning | apps/editor/server/chat-pipeline-binding.ts:197-224 | rebinding as specified moves one binding exactly as that says |
| Bindings.RelocateMeaning | apps/editor/server/chat-pipeline-binding.ts:226-236 | relocating as specified does the same |
| Bindings.ReserveMeaning | apps/editor/server/chat-pipeline-binding.ts:243-302 | reserving as specified does the same |
| Bindings.RunKeepsRegistry | apps/editor/server/chat-pipeline-binding.ts:131-302 | over every run of reserve, rebind and relocate the stored record stays one that a later read accepts |
| Bindings.TargetsExclusive | apps/editor/server/chat-pipeline-binding.ts:240-242 | no two bindings of a sound registry share an id, a request or a target |
| Bindings.ReservedBinding | apps/editor/server/chat-pipeline-binding.ts:268-301 | a reservation gives a binding of that session, and a new one is alone on a target not on disk |
| Bindings.RepeatedReserve | apps/editor/server/chat-pipeline-binding.ts:260-285 | repeating a reservation after others gives the same binding and changes nothing exactly if the binding carries the request's identity or none with that identity was made since |
| Bindings.ForcedRequestTakesOver | apps/editor/server/chat-pipeline-binding.ts:276-285 | forcing a new binding under the identity of a request that had been given an owned target changes what a repeat gets |
| Bindings.RecordedRequestStable | apps/editor/server/chat-pipeline-binding.ts:260-274 | in a run, a recorded request gets its binding again after any further reservations |
| Bindings.RecordedRequestFollowed | apps/editor/server/chat-pipeline-binding.ts:189-302 | after rebinding and relocating too, on the target of the last operation that moved its binding |

## Left out

- JSON parsing and printing: documents are values, and a file carries the result of parsing it. Two texts of the same
  document are not told apart, except by their digests.
- Strings are sequences of Unicode scalar values compared by scalar value; lone surrogates, invalid UTF-8 and the UTF-16
  order of JavaScript's default sort are not modelled. Lengths and byte counts are, where the program uses them.
- Lower and upper case are those of the Basic Latin letters.
- `localeCompare` is an arbitrary test in the comparison of inputs.
- Contrast.SameInputsMeaning: that equal inputs are judged the same is proved only for a collation that is an order and
  tells the fixtures and environment items of a case apart, as `localeCompare` may not tell apart two spellings of a name.
- Windows path rules: paths compare by character, and a pipeline lives in one folder directly under `.tagma`.
- Detail texts, summaries, repair scopes, repair hints, warnings, redaction, progress reports and the wording of errors.
- Lexical bounds of the core witness parser (id patterns, rationale bytes, path syntax) and most of the plan parser; what
  they guarantee is a precondition where a theorem needs it.
- The order in which issues of one case are reported.
- The Worker API, timers and signals: they are the steps of the protocol. Creating a worker and posting a message may fail.
- Host witness parts other than the workspace (binaries, environment, Python), and the reuse fingerprint of cases.
- FixtureSetup.PrepareTrialCaseWorkspace: links and devices at a fixture's path outside the copied folder cannot occur.
- The review request text is an arbitrary rendering of the request and its artifacts; deadlines and cancellation are one
  flag; file races during one capture are left out.
- RunConfiguration.Configure: the `TAGMA_TRIAL_*` variables, which differ for every case and are no control of a plan; the
  variables a managed OpenCode process gets in addition; and the case of names in a Windows environment.
- Renderer reports: the fields that become a timeline event are given, the report's own validation is not modelled.
- RunLedger.ExecuteTrial: does not model the authorization of repairs or plan requests; that failures point at the plan
  is given.
- EvidenceSelection.SelectTaskEvidence: results are told apart by position, as the program tells them apart by identity.
- Bindings.ReadRegistry: the record's authentication and version are left out, as are creation times.
- Uncovered fixture inputs of trigger tasks, runtime readiness, manual approval grants, plan requests and their attempts.
- Record signing, Git commands, file watching, child processes, HTTP, settings, and the resolution of task references.
