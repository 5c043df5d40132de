# A verified model of local-ci's composition, scheduling and event streaming

local-ci runs a pipeline described in YAML. This project models the parts of it that are hard to get
right and proves what they promise:

- **Composing a configuration** (`Include.dfy`, `IncludeOrder.dfy`, `Extends.dfy`, `ExtendsOrder.dfy`,
  `ExtendsInPlace.dfy`, `WorkdirInPlace.dfy`, `Matrix.dfy`, over the shared `Explore.dfy`, `Graph.dfy`,
  `Config.dfy`): includes, `extends` chains and matrix expansion, each proved equal to a simple order-based
  reading.
- **Accepting and running a needs graph** (`NeedsValidator.dfy`, `Prepare.dfy`, `DagDeps.dfy`, `DagRun.dfy`,
  `DagExact.dfy`, `DagTheorems.dfy`, `Pipeline.dfy`, `UnnamedExtends.dfy`): the three-colour search, the
  dependency graph derived from the prepared jobs, and every interleaving of the goroutines that wait on each
  other.
- **Runs without needs** (`Segments.dfy`, `StagedRun.dfy`): sequential, stage-parallel and parallel modes as
  one machine over barriers, with detached jobs beside it, and the retry loop.
- **Streaming events** (`Hub.dfy`, `Sse.dfy`, `SseViews.dfy`, `SseClients.dfy`, `ResumePoint.dfy`): emitter,
  event-log file, hub and any number of SSE sessions, interleaved step by step, with laggards dropped and
  clients reconnecting. Framing and the `Last-Event-ID` header are those of section 9.2 (Server-sent events) of
  the HTML Living Standard.
- **Folding events** (`Events.dfy`, `Wire.dfy`, `Recorder.dfy`, `LiveState.dfy`, `FoldAgreement.dfy`,
  `FoldDetails.dfy`, `RunStreams.dfy`): the store's rows and the browser's live state, two independent folds of
  one stream.
- **Two stream algorithms** (`Diff.dfy`, `CompactDiff.dfy`, `PrefixWriter.dfy`): the line diff, proved optimal,
  and the chunk-independent line prefixer.

What is selected, and in which order, is stated over positions in the lists given (`Listing.dfy`):
`Selects(source, picked, keep)` says that `picked` is the members of `source` that pass `keep`, in their order
there and each as often as there, and only one list is such a selection; `LastAt(list, i, x)` says that `i` is
the last position of `x`; `Concat` joins blocks in order.

Objects whose methods update fields are classes (`NeedsSearch`, `Runner`, `Loader`, `Config`, `LiveHub`,
`Sink`, `State`, `Writer`); loops are loops with invariants; each such method is tied to a specification
function, and the theorems are about that function. Concurrency is modelled as a step relation, and every
theorem about a run quantifies over all finite schedules (`Run(...)` of any sequence of steps). What the
outside world decides, such as whether an attempt succeeds or when a client disconnects, is a parameter or a
free choice of step.

## Where the code does less than it says

- `internal/engine/dag.go:83-84` says the waits cannot deadlock because the needs graph is validated. Whatever
  the jobs' results, they cannot exactly when the graph derived from the prepared jobs is acyclic
  (`DagExact.DeadlockFreeExactly`). Validation ensures that when the configured jobs have distinct names and none
  named `""` has a matrix (`DagTheorems.AcceptedRunsFinish`), and a configuration composed from files is of that
  kind exactly when every job named `""` either extends nothing and has no matrix or extends, last, a template
  (`Pipeline.ComposedIsDecoded`). `""` is a legal YAML key, and there are two ways to get stuck with it, each
  with an accepted configuration and a run of passing jobs that waits forever:
  - the variants of a matrix job named `""` carry no matrix group, so they answer to their own names
    (`DagTheorems.UnnamedMatrixDeadlocks`);
  - a job named `""` that extends an ordinary job last comes to bear that job's name, validation looks up only
    one of the two, and a selection can leave the other (`UnnamedExtends.UnnamedExtendsDeadlocks`).
- A DAG run returns nil iff no job failed. Without cancellation that is the same as "every job passed"
  (`DagRun.NilMeansAllPassed`); a cancelled run can return nil with every job skipped
  (`DagRun.CancelledRunReturnsNil`).
- Resolving `extends` in place agrees with resolving against the original list on every field but the working
  directory: an ordinary job listed earlier has by then been given `/`. When the walk back along a job's parents
  is cut off at such a job that neither has nor inherits a directory, the job ends up with `/`; otherwise it gets
  what the original list gives it. So the two differ exactly when the job is cut off from a directory other than
  `/` (`WorkdirInPlace.AgreesExactly`; `WorkdirInPlace.WorkdirDiffers` is a list on which they do).
- A job named `""` that extends something is called what its last parent is called afterwards
  (`ExtendsInPlace.NameKeptExactly`), and is dropped if that is a template.
- Stage-parallel mode runs a job once per occurrence of its stage in the stage list, so exactly once iff the
  stage is listed exactly once (`Segments.PlanIsComplete`).

## Model

| member | source | states |
|---|---|---|
| NeedsValidator.NeedsSearch.Visit | internal/config/validator.go:262-278 | A visit that returns no edge leaves the node finished and the three-colour state valid for the caller's chain; an edge returned is the last edge of a real cycle. Terminates because white nodes get fewer. |
| NeedsValidator.NeedsSearch.VisitNeeds | internal/config/validator.go:266-275 | Going through a grey node's needs leaves all of them finished, or finds an edge that closes a cycle. |
| NeedsValidator.CheckRefs | internal/config/validator.go:240-254 | Accepts iff every reference is sound, which `NeedsValidator.RefsOkByPosition` states over positions; otherwise reports the first bad reference in job order, then list order. |
| NeedsValidator.RefErrorByPosition | internal/config/validator.go:231-254 | A need is good iff it names another job, the last of that name, whose stage stands at no later position in the stage list than the needing job's own, last positions counting; each error kind tells which of these fails, with the positions a and b, b before a, for a later stage. |
| NeedsValidator.RefsOkByPosition | internal/config/validator.go:231-254 | So the whole reference check accepts iff every need of every job is good in that sense. |
| NeedsValidator.NeedsGraphEdges | internal/config/validator.go:231-234 | The graph searched has an edge from a name to a need iff the last job of that name lists it. |
| NeedsValidator.FindCycle | internal/config/validator.go:256-286 | Whatever order the roots are taken in: no result means a topological order of all jobs exists, a result is an edge of a cycle. |
| NeedsValidator.ValidateNeeds | internal/config/validator.go:230-286 | Accepts iff all references are sound, by positions in the stage list, and the needs graph is acyclic (equivalently, has a topological order); the cycle error names an edge of a real cycle. |
| NeedsValidator.RefsOkCloses | internal/config/validator.go:240-254 | Sound references never leave the job list, so the search never meets an unknown name. |
| Matrix.SortedKeys | internal/config/matrix.go:69-76 | The keys listed in increasing order, in whatever order the map is visited. |
| Matrix.SortedListingUnique | internal/config/matrix.go:69-76 | A set of keys has only one such listing. |
| Matrix.LexLeExactly | internal/config/matrix.go:69-76 | The order keys are sorted by: a prefix comes first, otherwise the first differing character decides. |
| Matrix.CartesianProduct | internal/config/matrix.go:78-95 | The nested loops build the combinations of the keys given. |
| Matrix.ChoiceIsListed | internal/config/matrix.go:78-95 | Every choice of one value per key is listed, at the position its mixed-radix rank says. |
| Matrix.ListedIsChoice | internal/config/matrix.go:78-95 | Every listed position is the rank of some choice and holds that choice, so the listing is the full product and nothing else. |
| Matrix.RankIsLexicographic | internal/config/matrix.go:78-95 | Ranks grow with the lexicographic order of choices: the listing is in lexicographic order. |
| Matrix.CombosCount | internal/config/matrix.go:78-95 | There are as many combinations as the product of the value counts. |
| Matrix.PickValues | internal/config/matrix.go:78-95 | A combination defines exactly the keys, each with the chosen value. |
| Matrix.CloneForVariant | internal/config/matrix.go:31-38 | A variant has the parent's variables overlaid by the combination, the matrix cleared, the parent's name as group, and a name built from the combination. |
| Matrix.VariantNameByKeys | internal/config/matrix.go:33-38 | A variant's name over any number of keys: the job's name, then for each key in turn "_", the key, "." and its value. |
| Matrix.VariantFields | internal/config/matrix.go:29-38 | Key by key, a variant has the combination's value, else the job's own; matrix cleared, group the job's name, every other field the job's. |
| Matrix.ExpandMatrix | internal/config/matrix.go:18-47 | Succeeds iff every entry is valid and all variant names differ, and then lists each entry's whole product in order; otherwise complains about the first entry that is invalid or the first variant whose name is taken. |
| Matrix.EntriesInOrder | internal/config/matrix.go:25-46 | The variants are those of the first entry, then those of the second, and so on. |
| Matrix.ExpandedShape | internal/config/matrix.go:18-47 | Expansion keeps stage, needs and detachment; each result is the job itself or carries its name as matrix group. |
| Prepare.Runner.PopulateVariables | internal/engine/runner.go:415-425 | Every configured job is completed in place with the global variables it does not define itself. |
| Prepare.OwnVariablesWin | internal/engine/runner.go:415-425 | Key by key, a completed job has its own variable if it sets one, else the global one, and no other field changes. |
| Prepare.Runner.Select | internal/engine/runner.go:427-454 | Fails iff no job is asked for by name and a wanted stage is not declared, naming the first such. Otherwise: asked by name or by stage, exactly the chosen jobs in configuration order, each as often as configured; asked for nothing, one block per listed stage in list order, each block exactly that stage's jobs in configuration order. |
| Prepare.Runner.PrepareJobConfigs | internal/engine/runner.go:412-464 | Succeeds iff the stages are known and every picked job expands; the picked jobs stand in the order `Prepare.Runner.Select` states, and the runner's jobs are their expansions in that order. |
| Prepare.SelectionOrder | internal/engine/runner.go:427-454 | The selection by name, by stage and stage by stage is the one those position-based statements describe. |
| Prepare.StagesNeverGoBack | internal/engine/runner.go:446-453 | With nothing asked for, of two picked jobs the earlier one bears a stage listed no later. |
| Prepare.ExpandedInOrder | internal/engine/runner.go:456-462 | The expansions are concatenated in the order of the picked jobs. |
| Prepare.PreparedShape | internal/engine/runner.go:412-464 | Every prepared job comes from a configured job with its stage, needs and detachment, under that job's name or with it as group. |
| DagDeps.ResolveDeps | internal/engine/dag.go:32-75 | The dependency map of the prepared jobs: with distinct names, each job's entry is, by positions in the lists, either its needs in order, each with the prepared jobs of that base name in their order, or, for a job with no needs that is not detached, exactly the jobs whose stage stands earlier in the stage list, in their order; a detached job without needs waits for none. |
| DagDeps.EntryIsByPosition | internal/engine/dag.go:32-75 | A job's dependency list is the one that position-based statement describes. |
| DagDeps.DepsMapByPosition | internal/engine/dag.go:32-75 | So is every job's entry in the whole map. |
| DagDeps.TargetsInOrder | internal/engine/dag.go:36-63 | Explicit needs fan out block by block: for each need in order, exactly the prepared jobs of that base name in their order, none when the need is not in this run. |
| DagDeps.DepsOfMeaning | internal/engine/dag.go:32-75 | A job waits for exactly the prepared jobs it needs by base name or, having no needs and not detached, those of earlier stages. |
| DagDeps.DepsMapExact | internal/engine/dag.go:32-75 | With distinct names, no entry is overwritten: each job's entry is its own dependency list. |
| DagDeps.WaitLowersRank | internal/engine/dag.go:26-75 | Every wait, explicit or implicit, goes to a lower rank by stage and then by topological position of the base job. |
| DagDeps.DagAcyclic | internal/engine/dag.go:26-75 | For every accepted configuration and every selection with distinct prepared names, the derived graph is closed and acyclic. |
| DagRun.StepKeepsInv | internal/engine/dag.go:85-121 | Every step of any goroutine keeps: cursor and result consistent with the closed dependencies, channels closed at most once, events as the program counter says, starts after their dependencies. |
| DagRun.NoDeadlock | internal/engine/dag.go:82-121 | In every reachable state with an open done channel, some job can step. |
| DagRun.RunsAreBounded | internal/engine/dag.go:85-121 | No schedule is longer than a fixed measure of jobs and dependencies: every run terminates. |
| DagRun.ScheduleIndependent | internal/engine/dag.go:85-121 | Every complete uncancelled run ends with the same passed/failed/skipped map, that of "runs iff all dependencies passed", and each channel closed exactly once. |
| DagRun.EventOrder | internal/engine/dag.go:85-121 | At any moment, cancelled or not, a job's events are a prefix of started-finished, and a start is preceded by the successful finish of every dependency. |
| DagRun.JoinErrors | internal/engine/dag.go:122-137 | The errors are those of exactly the failed jobs, in job order, followed, iff a job was skipped and one failed, by a summary carrying the number of skipped jobs; nil iff no job failed. |
| DagRun.NilMeansAllPassed | internal/engine/dag.go:122-137 | Without cancellation, nil iff every job passed iff every job succeeds on its own. |
| DagRun.CancelledRunReturnsNil | internal/engine/dag.go:100-137 | A cancelled run may skip every job and still return nil. |
| DagExact.DeadlockFreeExactly | internal/engine/dag.go:82-121 | For every set of distinct prepared jobs: the waits never deadlock, whatever the jobs' results, iff the derived dependency graph is acyclic. |
| DagExact.CyclesGetStuck | internal/engine/dag.go:106-107 | On a cyclic graph some run of passing jobs stops with channels open and no job able to move. |
| DagExact.CompleteRunRanks | internal/engine/dag.go:106-118 | A complete run of passing jobs orders them: every job starts after the jobs it waits for, so the graph has a rank. |
| DagTheorems.AcceptedRunsFinish | internal/engine/dag.go:82-121 | From accepted configuration to scheduler: every run is bounded and never stuck. |
| DagTheorems.AcceptedRunsAgree | internal/engine/dag.go:82-121 | Any two complete uncancelled runs of an accepted configuration end alike. |
| DagTheorems.UnnamedMatrixDeadlocks | internal/engine/dag.go:33-52 | An accepted configuration with a matrix job named "" and a run of it, all jobs passing, that gets stuck. |
| Pipeline.ComposedIsDecoded | internal/config/config.go:278-300 | Whatever files are composed, the resulting jobs have distinct names, no matrix group and no matrix on a job named "" exactly when no job named "" does harm: it extends nothing and has no matrix, or extends a template last. |
| Pipeline.ComposedRunsFinish | internal/engine/engine.go:39-96 | From files through include loading, extends resolution, validation and preparation to the scheduler: if no job named "" does harm, every DAG run is bounded and never stuck. |
| UnnamedExtends.UnnamedExtendsDeadlocks | internal/config/extends.go:53-77 | From files without any matrix to an accepted configuration and a run, all jobs passing, that gets stuck: a job named "" has taken its parent's name. |
| Segments.FindMatrixGroupEnd | internal/engine/runner.go:143-153 | The end of the longest run of jobs sharing the group of the first. |
| Segments.Cut | internal/engine/runner.go:112-130 | The sequential loop takes the jobs in order, cut into single jobs and whole maximal runs of one matrix group. |
| Segments.SegmentationUnique | internal/engine/runner.go:112-130 | Only one cut has these properties. |
| Segments.PartitionByParallel | internal/engine/runner.go:173-182 | Splits the jobs by their parallel flag, order kept on both sides. |
| Segments.PartitionIsComplete | internal/engine/runner.go:173-182 | Nothing is lost or duplicated, and with no detached job the sequential side is the whole list. |
| Segments.StageCounts | internal/engine/runner.go:218-232 | A job appears in the stage groups as often as its stage is listed. |
| Segments.PlanRun | internal/engine/runner.go:89-102 | Which barriers and detached jobs each run mode executes, and in which order: stage-parallel mode has one barrier for each listed stage that has jobs, in list order, holding exactly that stage's jobs in their order; sequential mode leaves every job in place; the attached and detached sides keep the order of the jobs. |
| Segments.PlanOrder | internal/engine/runner.go:89-102 | Every plan the modes prescribe is in that order. |
| Segments.StageSegmentsInOrder | internal/engine/runner.go:218-231 | The stage groups match, one to one and in order, the listed stages that some job bears. |
| Segments.SegmentStages | internal/engine/runner.go:218-231 | Of two barriers of a stage-parallel plan, each is of a single listed stage, and the earlier one's is listed earlier: with distinct stages no two share one. |
| Segments.PlanIsComplete | internal/engine/runner.go:89-102 | Every mode schedules every job exactly once; stage-parallel mode does iff each job's stage is listed exactly once. |
| StagedRun.StepKeepsInv | internal/engine/runner.go:112-303 | Every step of the chain or of a job keeps the turn-taking, error-slot and log invariants. |
| StagedRun.SegmentsInOrder | internal/engine/runner.go:112-153 | Chain events appear in segment order; a segment opens and its jobs start only after every earlier job passed; group events bracket their jobs. |
| StagedRun.OncePerJob | internal/engine/runner.go:284-303 | At any moment a job has emitted nothing, one start, or one start and then one finish, as its phase says. |
| StagedRun.ReturnedOutcome | internal/engine/runner.go:188-209 | After the run: earlier segments all passed, the stopping segment all ran with a failure, later ones never started, every detached job ran. |
| StagedRun.NilMeansAllPassed | internal/engine/runner.go:188-209 | The returned error is nil iff every job of the plan ran and passed. |
| StagedRun.ScheduleIndependent | internal/engine/runner.go:188-282 | Which jobs run, their events and the joined errors in order depend only on which jobs succeed, not on the interleaving. |
| StagedRun.FailuresSelect | internal/engine/runner.go:188-209 | The joined errors are exactly those of the jobs that failed, in the order of the list. |
| StagedRun.NoDeadlock | internal/engine/runner.go:188-282 | Until the run returns, some step is enabled. |
| StagedRun.RunsAreBounded | internal/engine/runner.go:188-282 | No run is longer than three steps a job, two a segment, and two more. |
| StagedRun.RunAttempts | internal/engine/runner.go:305-320 | Attempts stop at the first success or cancellation, or after 1 + retry; the result is that of the last attempt made. |
| Hub.LiveHub.Subscribe | internal/runmanager/hub.go:32-41 | Registers an open, empty, bounded channel, or refuses once closed. |
| Hub.LiveHub.RemoveLocked | internal/runmanager/hub.go:50-60 | Deregisters and closes a registered subscriber once; otherwise changes nothing. |
| Hub.LiveHub.Emit | internal/runmanager/hub.go:62-73 | In whatever order the map is walked, each subscriber gets the event or, its buffer full, is dropped and closed. |
| Hub.OfferExactly | internal/runmanager/hub.go:9-73 | A subscriber with fewer than 1024 events buffered gets the event at the end of its buffer; one with 1024 is deregistered and closed, its buffer as it was; no other channel changes. |
| Hub.LiveHub.Close | internal/runmanager/hub.go:78-88 | Closes every subscriber and refuses later ones; a second call changes nothing. |
| Sse.ReplayEventFile | internal/server/sse.go:89-120 | The scan loop delivers the parsable lines past the resume point in file order and returns the highest number seen. |
| Sse.ReplaySelects | internal/server/sse.go:103-117 | Of any lines, numbered or not, exactly those past the resume point are delivered, in order, and the number returned is the highest delivered or the resume point. |
| Sse.ParsedSelects | internal/server/sse.go:105-110 | The lines considered are exactly those that parse, in file order. |
| Sse.ReplayIsSlice | internal/server/sse.go:89-120 | On a file of consecutive numbers that is exactly the contiguous tail past the resume point. |
| SseViews.StepKeepsInv | internal/server/sse.go:37-83 | Every step of emitter, run end, hub or any session keeps the shared log and hub invariants and every session's view. |
| SseClients.DeliveryIsContiguous | internal/server/sse.go:37-83 | In every interleaving each session has delivered exactly the events numbered after+1, after+2, ..., in order, without gap or duplicate. |
| SseClients.WholeSessionsComplete | internal/server/sse.go:61-83 | A session that ends with the file of an inactive run, or at stream end without having lagged, has delivered everything past its resume point. |
| SseClients.NotFoundExactly | internal/server/sse.go:42-48 | A session that finds the run inactive is refused exactly when the run never emitted RunStarted; otherwise it ends with the whole file or because the client left. |
| SseClients.EmitterNeverBlocks | internal/runmanager/hub.go:62-73 | However slow the sessions are, an emit in progress always has an enabled step of its own. |
| SseClients.ReconnectsAreSeamless | internal/server/sse.go:122-131 | Sessions cut anywhere and resumed with the last delivered id concatenate to a contiguous duplicate-free stream. |
| SseClients.ReconnectsComplete | internal/server/sse.go:122-131 | If the last of them ends whole, the stream is complete. |
| ResumePoint.ResumeRoundTrip | internal/server/sse.go:124-131 | The id written in a frame, sent back as Last-Event-ID, is read as that number. |
| ResumePoint.HeaderComesFirst | internal/server/sse.go:124-131 | A non-empty header decides alone; the query counts only without it; with neither the stream starts at 0. |
| ResumePoint.GarbageStartsOver | internal/server/sse.go:124-131 | A short header with any non-digit resumes at 0, whatever the query says. |
| ResumePoint.BeyondSaturates | internal/server/sse.go:124-131 | A number beyond 64 bits resumes at the largest one. |
| Recorder.Sink.Emit | internal/sink/recorder/recorder.go:36-143 | One event folded into the run row and the job rows through the open-job index. |
| LiveState.State.UpsertJob | web/src/lib/events.ts:109-116 | The first job of that name, appended when there is none. |
| LiveState.State.ApplyEvent | web/src/lib/events.ts:61-107 | One wire event folded into the live state in place. |
| LiveState.FoldIsEffect | web/src/lib/events.ts:61-116 | A stream keeps the job order, appends only new names, and gives each field its last writer's value. |
| LiveState.ReplayIsIdempotent | web/src/lib/events.ts:58-116 | Replaying any stream on top of the state it produced leaves the jobs unchanged, order and every field. |
| FoldAgreement.FoldsAgree | web/src/lib/events.ts:61-116 | On every prefix of a run-shaped stream the store's rows and the live state, through the wire form, agree on the run's status, paths, commit, branch, start, being finished and duration, and on every job's order, name, stage, kind, status, start to the millisecond, exit code, duration and error. |
| FoldDetails.LogIsOutput | web/src/lib/events.ts:92-104 | The live log is exactly the stream's non-empty output and diagnostics, in order, and the state is finished iff the run's finish was folded. |
| FoldDetails.StartIsTold | web/src/lib/events.ts:61-74 | At every moment after the run started, the live state shows what the start event said and the run row has its id and start, whatever followed (the row's other fields agree by `FoldAgreement.FoldsAgree`). |
| FoldDetails.RowsAreTold | internal/sink/recorder/recorder.go:76-127 | At every moment each job row holds the group and start of its job's start event and the end, duration and exit code of its finish event. |
| Wire.WireCarries | internal/engine/wire.go:37-147 | Reading the wire fields back, absent ones as zero, gives the event's own values; durations to the millisecond. |
| RunStreams.RunsEmitOnce | internal/engine/runner.go:284-303 | In every DAG run each name starts at most once and finishes at most once, after its start. |
| RunStreams.StagedEmitOnce | internal/engine/runner.go:284-303 | So does every sequential, stage-parallel or parallel run of jobs with distinct names. |
| RunStreams.StreamHasShape | internal/engine/engine.go:98-126 | Every stream of such a run has the shape the folds' agreement needs: diagnostics before the run's start, output and group events anywhere, cut off at any point, also before the start. |
| RunStreams.DagFoldsAgree | internal/engine/dag.go:85-122 | At every moment of every run of the needs scheduler, the rows stored so far and the live state agree. |
| RunStreams.StagedFoldsAgree | internal/engine/runner.go:112-282 | At every moment of every sequential, stage-parallel or parallel run of jobs with distinct names, they agree too. |
| Diff.JoinSplit | web/src/lib/diff.ts:13-14 | Splitting into lines loses nothing. |
| Diff.SplitGivesLines | web/src/lib/diff.ts:13-14 | No line contains a line break, and there is at least one. |
| Diff.SplitJoin | web/src/lib/diff.ts:13-14 | Joining any list of newline-free lines and splitting again gives the list: with the two above, the lines of a text are unique. |
| Diff.LcsBound | web/src/lib/diff.ts:22-30 | No common subsequence is longer than what the table holds. |
| Diff.FillTable | web/src/lib/diff.ts:22-30 | Each 32-bit cell holds the LCS length of its two suffixes; the size cap rules out wrap-around. |
| Diff.WalkTable | web/src/lib/diff.ts:32-48 | The greedy walk over the table gives the script read off the two inputs. |
| Diff.DiffLines | web/src/lib/diff.ts:12-49 | The script between the lines of the two texts, for whichever newline-free lists join to them; with the delete-all-add-all fallback above the cap. |
| Diff.ScriptRoundTrip | web/src/lib/diff.ts:12-49 | Unchanged and deleted lines give back the old text, unchanged and added lines the new one, fallback included. |
| Diff.ScriptKeepsLongest | web/src/lib/diff.ts:22-48 | Up to 4,000,000 table cells, the unchanged lines are a longest common subsequence. |
| Diff.ScriptIsMinimal | web/src/lib/diff.ts:22-48 | Up to 4,000,000 table cells, no script between the two texts changes fewer lines. |
| Diff.ScriptComesFirst | web/src/lib/diff.ts:32-48 | Among all minimal scripts, the one given is first when compared entry by entry with unchanged before deleted before added: the greedy tie-break, without naming the table. |
| Diff.OversizedScript | web/src/lib/diff.ts:16-20 | Above 4,000,000 cells: every old line deleted in order, then every new line added in order. |
| CompactDiff.Compact | web/src/lib/diff.ts:52-75 | Shows exactly the lines within the context of a change, each maximal hidden stretch as one gap. |
| CompactDiff.CompactionUnique | web/src/lib/diff.ts:52-75 | There is only one such compaction. |
| CompactDiff.CompactExpands | web/src/lib/diff.ts:52-75 | Putting the hidden lines back where the gaps are gives the whole diff. |
| CompactDiff.GapsSeparated | web/src/lib/diff.ts:52-75 | Gaps are positive and never adjacent. |
| CompactDiff.CompactKeepsChanges | web/src/lib/diff.ts:52-75 | Every change is shown, in order. |
| Explore.VisitExact | internal/config/include.go:25-58 | A depth-first walk that tracks only its current chain is clean iff every reachable name exists and no cycle is reachable; each failure is a real one. |
| Explore.CutExact | internal/config/extends.go:25-37 | Emptying the lists of nodes already known to be clean changes nothing about which nodes are clean. |
| Extends.ResolveJob | internal/config/extends.go:53-77 | The recursion over the parents, stopping at the first unknown or circular target. |
| Extends.MergeAssociative | internal/config/extends.go:84-154 | Merging is associative, maps and nil maps included. |
| Extends.ResolveExact | internal/config/extends.go:53-77 | Resolution succeeds iff the reachable extends graph is closed and acyclic; each error kind tells the truth. |
| Extends.ResolvesIffSound | internal/config/extends.go:19-37 | The same in the middle of the pass, when an entry may stand under another name, as long as that name leads no way back to it. |
| Extends.ResolvedAsOverlay | internal/config/extends.go:53-77 | A resolved job is the fold of its depth-first linearisation. |
| Extends.LinearIsDepthFirst | internal/config/extends.go:62-75 | The linearisation is that of each parent in the job's list, first to last, and then the job itself. |
| Extends.FoldFields | internal/config/extends.go:99-153 | Each scalar and list field is the last non-empty one along the linearisation. |
| Extends.FoldOtherFields | internal/config/extends.go:120-149 | So are the remaining fields: cache, network, hooks, matrix, services, artifacts. |
| Extends.FoldKeys | internal/config/extends.go:87-119 | Each variable and registry host has the value of the last job that defines it. |
| ExtendsOrder.LaterParentWins | internal/config/extends.go:62-75 | Of a resolved job: a field the job sets is its own; otherwise it is what the last parent to set it, itself resolved, has, for every field that merging keeps in this way. |
| ExtendsOrder.LaterParentKeys | internal/config/extends.go:62-119 | The same for each variable and registry host. |
| ExtendsInPlace.ResolveAllExtends | internal/config/extends.go:19-48 | The in-place loop over a registry that points into the list it overwrites, and the removal of templates. |
| ExtendsInPlace.NonTemplatesSelect | internal/config/extends.go:39-47 | What is kept is exactly the jobs that are no templates, in list order. |
| ExtendsInPlace.InPlaceAgrees | internal/config/extends.go:19-48 | The pass succeeds iff every job resolves against the original list, and gives each the same result on every field but the working directory. |
| ExtendsInPlace.TemplatesOnlyExact | internal/config/extends.go:19-48 | With only templates extended, every field agrees. |
| WorkdirInPlace.DirInPlace | internal/config/extends.go:25-37 | What the pass leaves in a job's working directory: "/" if the walk back along its parents is cut off, else what the original list gives. |
| WorkdirInPlace.AgreesExactly | internal/config/extends.go:25-37 | The pass leaves exactly what the original list gives iff the job is not cut off or inherits nothing but the default. |
| WorkdirInPlace.WorkdirDiffers | internal/config/extends.go:33-36 | A job list on which the working directory does differ. |
| ExtendsInPlace.NameKeptExactly | internal/config/extends.go:99-101 | Resolution keeps a job's name iff the job has one or extends nothing. |
| Include.MergeConfigInto | internal/config/include.go:74-119 | Fills what the first configuration leaves open, field by field, key by key and job name by job name, in place. |
| IncludeOrder.MergedJobsInOrder | internal/config/include.go:108-118 | The jobs appended are exactly those of names not there yet, in their order. |
| Include.Loader.LoadWithIncludes | internal/config/include.go:25-61 | Loads a file and its includes, last include first; the in-progress set is as it was on every exit. |
| Include.LoadExact | internal/config/include.go:25-61 | Loading succeeds iff all reachable files load and no include cycle is reachable; the circular error is raised only for a real cycle. |
| Include.CircularExactly | internal/config/include.go:25-58 | Over loadable files the only failure is the circular error, raised iff a cycle is reachable; diamonds pass. |
| Include.LoadIsFirstWins | internal/config/include.go:45-61 | A loaded configuration is its precedence order merged first-wins. |
| Include.PrecedenceUnfolds | internal/config/include.go:45-58 | That order is the file, then the order of each path it includes, resolved against it, from the last of the list down to the first, diamonds included. |
| IncludeOrder.LaterIncludeWins | internal/config/include.go:45-61 | Of a loaded configuration: what the root file sets is its own; otherwise the value comes from the include, loaded by itself, that is last in the list of those that set it; unset if none does. |
| IncludeOrder.LaterJobsWin | internal/config/include.go:45-118 | So for the job of each name. |
| IncludeOrder.LaterKeysWin | internal/config/include.go:45-99 | So for each global variable and registry host. |
| IncludeOrder.LaterFieldsWin | internal/config/include.go:45-106 | So for stages, provider, bootstrap and cleanup, each as a whole. |
| Include.FirstWinsJobs | internal/config/include.go:108-118 | Each job is that of the first file in the order that has one of that name. |
| Include.FirstWinsKeys | internal/config/include.go:78-99 | Each variable and registry host is that of the first file that defines it. |
| Include.FirstWinsFields | internal/config/include.go:74-99 | Stages, provider, bootstrap and cleanup come whole from the first file that sets them; job names stay unique. |
| PrefixWriter.Writer.Write | internal/docker/service.go:238-254 | Passes on each line completed by the bytes given, prefixed, and keeps the partial rest. |
| PrefixWriter.Writer.Flush | internal/docker/service.go:256-263 | Completes and passes on a buffered partial line, and nothing otherwise. |
| PrefixWriter.ChunkingIrrelevant | internal/docker/service.go:225-263 | However the stream is split into writes, the flushed output is the byte-by-byte prefixing of the whole stream. |
| PrefixWriter.WritesAreWholeLines | internal/docker/service.go:225-263 | Every write to the underlying writer is one whole prefixed line. |

## Left out

- DagTheorems.AcceptedRunsFinish: supposes distinct prepared names and no matrix job named ""; variants of two jobs may collide and no modelled check rejects that. The condition on "" is not necessary for every selection; the necessary and sufficient one is that of `DagExact.DeadlockFreeExactly`.
- NeedsValidator.RefsOkByPosition: supposes that every job's stage is listed, as the stage check before it sees to; in the code an unlisted stage counts as the first, and `NeedsValidator.CheckRefs` covers that case too.
- DagDeps.DepsMapByPosition: supposes listed stages and distinct prepared names; `DagDeps.DepsOfMeaning` covers unlisted stages, and a repeated name keeps the entry of its last bearer.
- FoldDetails.StartIsTold: the store holds no matrix or detached flag and no job order, so only the live state is compared on those.
- ExtendsInPlace.ResolveAllExtends: supposes distinct job names, as decoding and include merging give them.
- SseClients.WholeSessionsComplete: supposes that writes to the event file succeed and that nothing is emitted after RunFinished.
- PrefixWriter.Writer.Write: supposes that writes to the underlying writer succeed.
- FoldAgreement.FoldsAgree: job names of the run are distinct, and the store accepts every row.
- StagedRun.RunAttempts: bootstrap, execution and cleanup of an attempt are one outcome; the per-job timeout is only a failed attempt.
- RunStreams.StagedFoldsAgree: supposes distinct names in the plan; a stage listed twice runs its jobs twice under one name.
- Matrix.CloneForVariant: variables are a value, so that variants share no map is built in rather than proved.
- Matrix.ExpandMatrix: which key or value of an invalid entry is complained about depends on map order and is not stated.
- Sequence numbers and resume points do not wrap at 64 bits in the stream model; only reading a header saturates there.
- A half-written or over-long event line, and an event that does not marshal, end or skip in the code; here a line is read whole or the session disconnects.
- The dispatch of a run to the needs scheduler when any job has needs, and the error for an empty job list: single branches.
- Group events and log lines are not part of the DAG log, and the notice between chain end and the wait for detached jobs is not part of the staged log.
- Stage placeholders: a misplaced one is an error as in the code; their expansion is not modelled, the composed theorem holds for any stage list.
- YAML decoding, file paths and file reading: files are given decoded, with the resolution of include paths as a parameter.
- The recorder's log files and diagnostics, and its warnings when the store fails.
- Manager.Cancel, Shutdown and Active, run ids and the run timeout.
- The field checks of the validator outside needs, and the remote provider, CLI variables, global bootstrap and cleanup: single branches.
- Docker, git, GitLab, SQLite, tar, watching files, shell commands, the terminal board and the Vue interface.
