/** From an accepted configuration to its DAG runs: preparation, dependency resolution and scheduling together. */
module DagTheorems {
  import opened Basics
  import opened Graph
  import opened ConfigModel
  import opened Matrix
  import opened NeedsValidator
  import opened Prepare
  import opened DagDeps
  import opened DagRun
  import opened DagExact

  ghost function Prepared(cfgJobs: seq<JobConfig>, globals: Variables, stages: seq<string>,
                          options: Options): seq<JobConfig> {
    ExpandedJobs(Selected(Populated(cfgJobs, globals), stages, options))
  }

  ghost function DagInstance(prepared: seq<JobConfig>, stages: seq<string>, passes: map<string, bool>): Instance {
    Instance(Names(prepared), DagGraph(prepared, stages), passes)
  }

  /** An accepted configuration and a selection of it whose prepared names are distinct. */
  ghost predicate Accepted(cfgJobs: seq<JobConfig>, globals: Variables, stages: seq<string>, options: Options) {
    && Decoded(cfgJobs) && NeedsAccepted(stages, cfgJobs)
    && UniqueNames(Prepared(cfgJobs, globals, stages, options))
  }

  /** `inst` is what the scheduler runs for them, `passes` telling which jobs succeed. */
  ghost predicate Schedules(inst: Instance, cfgJobs: seq<JobConfig>, globals: Variables, stages: seq<string>,
                            options: Options) {
    var prepared := Prepared(cfgJobs, globals, stages, options);
    inst == DagInstance(prepared, stages, inst.passes) && inst.passes.Keys == Elements(Names(prepared))
  }

  lemma InstanceWellFormed(inst: Instance, cfgJobs: seq<JobConfig>, globals: Variables, stages: seq<string>,
                           options: Options)
      returns (rank: string -> nat)
    requires Accepted(cfgJobs, globals, stages, options) && Schedules(inst, cfgJobs, globals, stages, options)
    ensures WellFormed(inst) && RanksDown(inst.deps, rank)
  {
    var prepared := Prepared(cfgJobs, globals, stages, options);
    PreparedShape(cfgJobs, globals, stages, options);
    DagAcyclic(cfgJobs, stages, prepared);
    rank :| RanksDown(DagGraph(prepared, stages), rank);
  }

  /** The waits cannot deadlock: for every accepted configuration and every selection with distinct
      prepared names, every run is bounded, and until all done channels are closed some job can move. */
  lemma AcceptedRunsFinish(inst: Instance, cfgJobs: seq<JobConfig>, globals: Variables, stages: seq<string>,
                           options: Options)
    requires Accepted(cfgJobs, globals, stages, options) && Schedules(inst, cfgJobs, globals, stages, options)
    ensures AlwaysFinishes(inst)
  {
    var rank := InstanceWellFormed(inst, cfgJobs, globals, stages, options);
    RankedFinishes(inst, rank);
  }

  /** A schedule that ran to the end undisturbed. */
  ghost predicate Completes(inst: Instance, steps: seq<Step>) {
    Run(inst, steps).Some? && AllClosed(inst, Run(inst, steps).value) && !Run(inst, steps).value.cancelled
  }

  /** Any two complete uncancelled runs of an accepted configuration end with the same results. */
  lemma AcceptedRunsAgree(inst: Instance, cfgJobs: seq<JobConfig>, globals: Variables, stages: seq<string>,
                          options: Options, steps: seq<Step>, steps': seq<Step>)
    requires Accepted(cfgJobs, globals, stages, options) && Schedules(inst, cfgJobs, globals, stages, options)
    requires Completes(inst, steps) && Completes(inst, steps')
    ensures Run(inst, steps).value.jobs == Run(inst, steps').value.jobs
  {
    var rank := InstanceWellFormed(inst, cfgJobs, globals, stages, options);
    ScheduleIndependent(inst, steps, rank);
    ScheduleIndependent(inst, steps', rank);
  }

  // ---- Why a matrix job named "" is excluded ----------------------------------

  /** A job with the fields every job must have: an image, a script and, once added, a stage. */
  const Runnable := ZeroJob.(image := Image("alpine", false), script := ["true"])
  const UnnamedJob := Runnable.(stage := "s", matrix := [map["k" := ["v"]]], needs := ["x"])
  const NamedLikeVariant := Runnable.(name := "_k.v", stage := "s")
  const NeedsVariantName := Runnable.(name := "x", stage := "s", needs := ["_k.v"])

  lemma OneVariant(job: JobConfig)
    requires job.matrix == [map["k" := ["v"]]]
    ensures Expanded(job) == [job.(name := job.name + "_" + "k.v", variables := Some(VarsOf(job) + map["k" := "v"]),
                                   matrix := [], matrixGroup := job.name)]
  {
    var entry: MatrixEntry := map["k" := ["v"]];
    var keys := ["k"];
    assert Elements(keys) == entry.Keys;
    SortedListingUnique(SortedListing(entry.Keys), keys, entry.Keys);
    var empty: Combo := map[];
    assert Combos(entry, keys[..0]) == [empty];
    assert ExtendAll([empty], "k", ["v"]) == ExtendAll([], "k", ["v"]) + ExtendOne(empty, "k", ["v"]) by {
      assert [empty][..0] == [];
    }
    assert Combos(entry, keys) == [map["k" := "v"]];
    assert "k" + "." + "v" == "k.v";
    assert VariantParts(keys, map["k" := "v"]) == ["k.v"];
    assert AllVariants(job, job.matrix[..0]) == [];
    assert AllVariants(job, job.matrix) == EntryVariants(job, entry);
  }

  const UnnamedConfig := [UnnamedJob, NamedLikeVariant, NeedsVariantName]

  lemma UnnamedAccepted()
    ensures UniqueNames(UnnamedConfig) && NeedsAccepted(["s"], UnnamedConfig)
  {
    var cfgJobs := UnnamedConfig;
    assert Names(cfgJobs) == ["", "_k.v", "x"];
    assert UniqueNames(cfgJobs);
    ByNameExact(cfgJobs);
    ByNameKnows(cfgJobs);
    assert cfgJobs[0] == UnnamedJob && cfgJobs[1] == NamedLikeVariant && cfgJobs[2] == NeedsVariantName;
    var order := ["_k.v", "x", ""];
    assert order[..1] == ["_k.v"] && order[..2] == ["_k.v", "x"];
    assert IsTopologicalOrder(NeedsGraph(cfgJobs), order);
  }

  lemma UnnamedPrepared(options: Options)
    requires options == Options(["", "x"], [])
    ensures Prepared(UnnamedConfig, map[], ["s"], options) ==
              [UnnamedJob.(name := "_k.v", variables := Some(map["k" := "v"]), matrix := []),
               NeedsVariantName.(variables := Some(map[]))]
  {
    var populated := Populated(UnnamedConfig, map[]);
    var a, b, c := populated[0], populated[1], populated[2];
    assert populated[..2] == [a, b] && [a, b][..1] == [a] && [a][..0] == [];
    assert ByNames([a], options.jobNames) == [a];
    assert ByNames([a, b], options.jobNames) == [a];
    assert Selected(populated, ["s"], options) == [a, c];
    OneVariant(a);
    assert [a, c][..1] == [a];
    assert ExpandedJobs([a]) == Expanded(a);
    assert ExpandedJobs([a, c]) == Expanded(a) + [c];
    var none: Variables := map[];
    assert none + none == none && none + map["k" := "v"] == map["k" := "v"];
    assert VarsOf(a) == none && c == NeedsVariantName.(variables := Some(none));
    assert "" + "_" + "k.v" == "_k.v";
  }

  /** Distinct prepared names make a well-formed instance, whatever the configuration. */
  lemma PreparedWellFormed(prepared: seq<JobConfig>, stages: seq<string>, passes: map<string, bool>)
    requires UniqueNames(prepared) && passes.Keys == Elements(Names(prepared))
    ensures WellFormed(DagInstance(prepared, stages, passes))
  {
    var g := DagGraph(prepared, stages);
    forall a, b | Edge(g, a, b) ensures b in g {
      var i, k := DagEdge(prepared, stages, a, b);
      assert Names(prepared)[k] == b;
    }
  }

  /** An accepted configuration with unique names and a run of passing jobs that waits forever: the variant
      of the job named "" takes no group, so it answers to its own name, which another job needs. */
  lemma UnnamedMatrixDeadlocks() returns (cfgJobs: seq<JobConfig>, options: Options, inst: Instance, steps: seq<Step>)
    ensures UniqueNames(cfgJobs) && NeedsAccepted(["s"], cfgJobs)
    ensures UniqueNames(Prepared(cfgJobs, map[], ["s"], options)) && Schedules(inst, cfgJobs, map[], ["s"], options)
    ensures Stuck(inst, steps)
  {
    cfgJobs, options := UnnamedConfig, Options(["", "x"], []);
    UnnamedAccepted();
    UnnamedPrepared(options);
    var prepared := Prepared(cfgJobs, map[], ["s"], options);
    assert Names(prepared) == ["_k.v", "x"];
    MutualWait(prepared, ["s"]);
    var passes := map n | n in Elements(Names(prepared)) :: true;
    PreparedWellFormed(prepared, ["s"], passes);
    inst := DagInstance(prepared, ["s"], passes);
    steps := CyclesGetStuck(inst);
  }

  lemma MutualWait(prepared: seq<JobConfig>, stages: seq<string>)
    requires |prepared| == 2 && UniqueNames(prepared)
    requires Base(prepared[1]) in prepared[0].needs && Base(prepared[0]) in prepared[1].needs
    ensures !Acyclic(DagGraph(prepared, stages))
  {
    var idx, g := StageIndex(stages), DagGraph(prepared, stages);
    var a, b := prepared[0].name, prepared[1].name;
    DepsMapExact(prepared, stages, 2, 0);
    DepsMapExact(prepared, stages, 2, 1);
    DepsOfMeaning(prepared, idx, prepared[0], b);
    DepsOfMeaning(prepared, idx, prepared[1], a);
    assert WaitsFor(idx, prepared[0], prepared[1]) && WaitsFor(idx, prepared[1], prepared[0]);
    assert Names(prepared)[0] == a && Names(prepared)[1] == b;
    assert Edge(g, a, b) && Edge(g, b, a);
    assert IsCycle(g, [a, b, a]);
  }
}
