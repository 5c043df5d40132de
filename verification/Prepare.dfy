/** Job preparation of internal/engine/runner.go: global variables, selection, matrix expansion. */
module Prepare {
  import opened Basics
  import opened ConfigModel
  import opened Listing
  import opened Matrix

  datatype Options = Options(jobNames: seq<string>, stages: seq<string>)

  datatype PrepareError = UnknownStage(stage: string) | Expansion(error: MatrixError)

  /** A job with the global variables it does not define itself. */
  function WithGlobals(job: JobConfig, globals: Variables): JobConfig {
    job.(variables := Some(globals + VarsOf(job)))
  }

  function Populated(jobs: seq<JobConfig>, globals: Variables): (r: seq<JobConfig>)
    ensures |r| == |jobs| && forall i :: 0 <= i < |jobs| ==> r[i] == WithGlobals(jobs[i], globals)
  {
    seq(|jobs|, i requires 0 <= i < |jobs| => WithGlobals(jobs[i], globals))
  }

  function ByNames(jobs: seq<JobConfig>, names: seq<string>): seq<JobConfig> {
    if jobs == [] then []
    else ByNames(jobs[..|jobs| - 1], names) + if Last(jobs).name in names then [Last(jobs)] else []
  }

  function ByStages(jobs: seq<JobConfig>, stages: seq<string>): seq<JobConfig> {
    if jobs == [] then []
    else ByStages(jobs[..|jobs| - 1], stages) + if Last(jobs).stage in stages then [Last(jobs)] else []
  }

  /** Jobs of each listed stage in turn, in declaration order within a stage. */
  function StageByStage(jobs: seq<JobConfig>, stages: seq<string>): seq<JobConfig> {
    if stages == [] then []
    else StageByStage(jobs, stages[..|stages| - 1]) + ByStages(jobs, [Last(stages)])
  }

  /** -j wins over -s; with neither, every job runs in stage order. */
  function Selected(jobs: seq<JobConfig>, stages: seq<string>, options: Options): seq<JobConfig> {
    if options.jobNames != [] then ByNames(jobs, options.jobNames)
    else if options.stages != [] then ByStages(jobs, options.stages)
    else StageByStage(jobs, stages)
  }

  ghost predicate StagesKnown(stages: seq<string>, options: Options) {
    options.jobNames == [] ==> forall s :: s in options.stages ==> s in stages
  }

  /** The selection, told by positions: with -j or -s the jobs asked for, in configuration order; otherwise a
      block for each stage in stage order, the stage's jobs in configuration order. */
  ghost predicate SelectedInOrder(jobs: seq<JobConfig>, stages: seq<string>, options: Options, picked: seq<JobConfig>) {
    if options.jobNames != [] then Selects(jobs, picked, (j: JobConfig) => j.name in options.jobNames)
    else if options.stages != [] then Selects(jobs, picked, (j: JobConfig) => j.stage in options.stages)
    else exists blocks :: StageBlocks(jobs, stages, blocks) && picked == Concat(blocks)
  }

  ghost predicate StageBlocks(jobs: seq<JobConfig>, stages: seq<string>, blocks: seq<seq<JobConfig>>) {
    |blocks| == |stages| && forall s :: 0 <= s < |stages| ==> OfStage(jobs, stages[s], blocks[s])
  }

  ghost predicate OfStage(jobs: seq<JobConfig>, stage: string, block: seq<JobConfig>) {
    Selects(jobs, block, (j: JobConfig) => j.stage == stage)
  }

  lemma {:induction false} ByNamesSelect(jobs: seq<JobConfig>, names: seq<string>)
    ensures Selects(jobs, ByNames(jobs, names), (j: JobConfig) => j.name in names)
  {
    var keep := (j: JobConfig) => j.name in names;
    if jobs == [] {
      SelectsNone(keep);
    } else {
      var front := jobs[..|jobs| - 1];
      ByNamesSelect(front, names);
      SelectsSnoc(front, ByNames(front, names), Last(jobs), keep);
      FrontLast(jobs);
    }
  }

  lemma {:induction false} ByStagesSelect(jobs: seq<JobConfig>, stages: seq<string>)
    ensures Selects(jobs, ByStages(jobs, stages), (j: JobConfig) => j.stage in stages)
  {
    var keep := (j: JobConfig) => j.stage in stages;
    if jobs == [] {
      SelectsNone(keep);
    } else {
      var front := jobs[..|jobs| - 1];
      ByStagesSelect(front, stages);
      SelectsSnoc(front, ByStages(front, stages), Last(jobs), keep);
      FrontLast(jobs);
    }
  }

  lemma {:induction false} StageByStageBlocks(jobs: seq<JobConfig>, stages: seq<string>)
      returns (blocks: seq<seq<JobConfig>>)
    ensures StageBlocks(jobs, stages, blocks) && StageByStage(jobs, stages) == Concat(blocks)
  {
    if stages == [] {
      blocks := [];
    } else {
      var front, last := stages[..|stages| - 1], Last(stages);
      var before := StageByStageBlocks(jobs, front);
      var block := ByStages(jobs, [last]);
      ByStagesSelect(jobs, [last]);
      SameSelection(jobs, block, (j: JobConfig) => j.stage in [last], (j: JobConfig) => j.stage == last);
      blocks := before + [block];
      ConcatSnoc(before, block);
    }
  }

  lemma SelectionOrder(jobs: seq<JobConfig>, stages: seq<string>, options: Options)
    ensures SelectedInOrder(jobs, stages, options, Selected(jobs, stages, options))
  {
    ByNamesSelect(jobs, options.jobNames);
    ByStagesSelect(jobs, options.stages);
    var blocks := StageByStageBlocks(jobs, stages);
  }

  /** With neither -j nor -s, no job of a later stage stands before one of an earlier stage. */
  lemma StagesNeverGoBack(jobs: seq<JobConfig>, stages: seq<string>, options: Options, picked: seq<JobConfig>,
                          p: nat, q: nat) returns (a: nat, b: nat)
    requires SelectedInOrder(jobs, stages, options, picked) && options == Options([], [])
    requires p <= q < |picked|
    ensures a <= b < |stages| && picked[p].stage == stages[a] && picked[q].stage == stages[b]
  {
    var blocks :| StageBlocks(jobs, stages, blocks) && picked == Concat(blocks);
    a, b := ConcatOrder(blocks, p, q);
    assert OfStage(jobs, stages[a], blocks[a]) && OfStage(jobs, stages[b], blocks[b]);
    SelectsMember(jobs, blocks[a], (j: JobConfig) => j.stage == stages[a], picked[p]);
    SelectsMember(jobs, blocks[b], (j: JobConfig) => j.stage == stages[b], picked[q]);
  }

  /** The first of the stages asked for that is not listed. */
  ghost predicate FirstUnknown(stages: seq<string>, options: Options, e: PrepareError) {
    exists i :: 0 <= i < |options.stages| && e == UnknownStage(options.stages[i]) && options.stages[i] !in stages &&
                forall k :: 0 <= k < i ==> options.stages[k] in stages
  }

  ghost function ExpandedJobs(jobs: seq<JobConfig>): seq<JobConfig> {
    if jobs == [] then [] else ExpandedJobs(jobs[..|jobs| - 1]) + Expanded(Last(jobs))
  }

  ghost predicate AllExpandable(jobs: seq<JobConfig>) {
    forall i :: 0 <= i < |jobs| ==> Expandable(jobs[i])
  }

  class Runner {
    const stages: seq<string>
    const globals: Variables
    var cfgJobs: seq<JobConfig>
    var jobs: seq<JobConfig>

    constructor (stages: seq<string>, globals: Variables, cfgJobs: seq<JobConfig>)
      ensures this.stages == stages && this.globals == globals && this.cfgJobs == cfgJobs && jobs == []
    {
      this.stages, this.globals, this.cfgJobs, jobs := stages, globals, cfgJobs, [];
    }

    /** Overwrites each configured job in place with its variables completed. */
    method PopulateVariables()
      modifies this`cfgJobs
      ensures cfgJobs == Populated(old(cfgJobs), globals)
    {
      ghost var was := cfgJobs;
      for i := 0 to |cfgJobs|
        invariant |cfgJobs| == |was|
        invariant cfgJobs == Populated(was, globals)[..i] + was[i..]
      {
        var job := cfgJobs[i];
        var vars := AddGlobals(VarsOf(job));
        cfgJobs := cfgJobs[i := job.(variables := Some(vars))];
      }
    }

    /** Own variables win over global ones; the globals are visited in any order. */
    method AddGlobals(own: Variables) returns (vars: Variables)
      ensures vars == globals + own
    {
      vars := own;
      var left := globals.Keys;
      while left != {}
        invariant left <= globals.Keys
        invariant vars == (map k | k in globals && k !in left :: globals[k]) + own
      {
        var k :| k in left;
        if k !in own {
          vars := vars[k := globals[k]];
        }
        left := left - {k};
      }
      assert (map k | k in globals && k !in left :: globals[k]) == globals;
    }

    /** An unknown stage is an error only when stages are asked for and no job names are. */
    method Select(options: Options) returns (filtered: Result<seq<JobConfig>, PrepareError>)
      ensures filtered.Err? <==> options.jobNames == [] && exists s :: s in options.stages && s !in stages
      ensures filtered.Err? ==> FirstUnknown(stages, options, filtered.error)
      ensures filtered.Ok? ==> filtered.value == Selected(cfgJobs, stages, options)
      ensures filtered.Ok? ==> SelectedInOrder(cfgJobs, stages, options, filtered.value)
    {
      SelectionOrder(cfgJobs, stages, options);
      filtered := Pick(options);
    }

    method Pick(options: Options) returns (filtered: Result<seq<JobConfig>, PrepareError>)
      ensures filtered.Ok? <==> StagesKnown(stages, options)
      ensures filtered.Err? ==> FirstUnknown(stages, options, filtered.error)
      ensures filtered.Ok? ==> filtered.value == Selected(cfgJobs, stages, options)
    {
      var picked: seq<JobConfig> := [];
      if options.jobNames != [] {
        for i := 0 to |cfgJobs|
          invariant picked == ByNames(cfgJobs[..i], options.jobNames)
        {
          assert cfgJobs[..i + 1][..i] == cfgJobs[..i];
          if cfgJobs[i].name in options.jobNames {
            picked := picked + [cfgJobs[i]];
          }
        }
        assert cfgJobs[..|cfgJobs|] == cfgJobs;
      } else if options.stages != [] {
        for i := 0 to |options.stages|
          invariant forall k :: 0 <= k < i ==> options.stages[k] in stages
        {
          if options.stages[i] !in stages {
            return Err(UnknownStage(options.stages[i]));
          }
        }
        picked := FilterByStage(options.stages);
      } else {
        for s := 0 to |stages|
          invariant picked == StageByStage(cfgJobs, stages[..s])
        {
          assert stages[..s + 1][..s] == stages[..s];
          var row := FilterByStage([stages[s]]);
          picked := picked + row;
        }
        assert stages[..|stages|] == stages;
      }
      return Ok(picked);
    }

    method FilterByStage(wanted: seq<string>) returns (picked: seq<JobConfig>)
      ensures picked == ByStages(cfgJobs, wanted)
    {
      picked := [];
      for i := 0 to |cfgJobs|
        invariant picked == ByStages(cfgJobs[..i], wanted)
      {
        assert cfgJobs[..i + 1][..i] == cfgJobs[..i];
        if cfgJobs[i].stage in wanted {
          picked := picked + [cfgJobs[i]];
        }
      }
      assert cfgJobs[..|cfgJobs|] == cfgJobs;
    }

    /** On success the prepared jobs are the expansions of the selected, completed jobs, in order. */
    method PrepareJobConfigs(options: Options) returns (r: Option<PrepareError>)
      modifies this`cfgJobs, this`jobs
      ensures cfgJobs == Populated(old(cfgJobs), globals)
      ensures SelectedInOrder(cfgJobs, stages, options, Selected(cfgJobs, stages, options))
      ensures r.None? <==> StagesKnown(stages, options) && AllExpandable(Selected(cfgJobs, stages, options))
      ensures r.None? ==> jobs == old(jobs) + ExpandedJobs(Selected(cfgJobs, stages, options))
    {
      PopulateVariables();
      SelectionOrder(cfgJobs, stages, options);
      var filtered := Select(options);
      if filtered.Err? {
        return Some(filtered.error);
      }
      r := ExpandInto(filtered.value);
    }

    method ExpandInto(picked: seq<JobConfig>) returns (r: Option<PrepareError>)
      modifies this`jobs
      ensures r.None? <==> AllExpandable(picked)
      ensures r.None? ==> jobs == old(jobs) + ExpandedJobs(picked)
    {
      for i := 0 to |picked|
        invariant jobs == old(jobs) + ExpandedJobs(picked[..i])
        invariant AllExpandable(picked[..i])
      {
        var variants := ExpandMatrix(picked[i]);
        if variants.Err? {
          assert !Expandable(picked[i]);
          return Some(Expansion(variants.error));
        }
        ExpandedJobsStep(picked, i);
        AllExpandableStep(picked, i);
        AppendAssociative(old(jobs), ExpandedJobs(picked[..i]), variants.value);
        jobs := jobs + variants.value;
      }
      assert picked[..|picked|] == picked;
      return None;
    }
  }

  lemma ExpandedJobsStep(picked: seq<JobConfig>, i: nat)
    requires i < |picked|
    ensures ExpandedJobs(picked[..i + 1]) == ExpandedJobs(picked[..i]) + Expanded(picked[i])
  {
    assert picked[..i + 1][..i] == picked[..i];
  }

  /** The prepared jobs stand in the order of the picked ones, each job's variants together. */
  lemma {:induction false} ExpandedInOrder(picked: seq<JobConfig>, rows: seq<seq<JobConfig>>)
    requires |rows| == |picked| && forall i :: 0 <= i < |picked| ==> rows[i] == Expanded(picked[i])
    ensures ExpandedJobs(picked) == Concat(rows)
  {
    if picked != [] {
      ExpandedInOrder(picked[..|picked| - 1], rows[..|rows| - 1]);
    }
  }

  /** A job's own variable wins over the global one of that name; nothing else changes. */
  lemma OwnVariablesWin(jobs: seq<JobConfig>, globals: Variables, i: nat, k: string)
    requires i < |jobs|
    ensures Lookup(Populated(jobs, globals)[i].variables, k) ==
              if Lookup(jobs[i].variables, k).Some? then Lookup(jobs[i].variables, k) else Lookup(Some(globals), k)
    ensures Populated(jobs, globals)[i].variables.Some?
    ensures Populated(jobs, globals)[i] == jobs[i].(variables := Populated(jobs, globals)[i].variables)
  {
  }

  lemma AllExpandableStep(picked: seq<JobConfig>, i: nat)
    requires i < |picked| && AllExpandable(picked[..i]) && Expandable(picked[i])
    ensures AllExpandable(picked[..i + 1])
  {
    var longer := picked[..i + 1];
    forall j | 0 <= j < |longer| ensures Expandable(longer[j]) {
      if j < i {
        assert longer[j] == picked[..i][j];
      }
    }
  }

  // ---- What preparation keeps of the configuration ---------------------------

  /** A prepared job answers to the name of the job it comes from. */
  function Base(job: JobConfig): string {
    if job.matrixGroup == "" then job.name else job.matrixGroup
  }

  ghost predicate ComesFrom(p: JobConfig, c: JobConfig) {
    && p.stage == c.stage && p.needs == c.needs && p.parallel == c.parallel
    && (if c.matrix == [] then p.name == c.name && p.matrixGroup == c.matrixGroup else p.matrixGroup == c.name)
  }

  ghost predicate PreparedFrom(prepared: seq<JobConfig>, cfgJobs: seq<JobConfig>) {
    forall i :: 0 <= i < |prepared| ==> exists k :: 0 <= k < |cfgJobs| && ComesFrom(prepared[i], cfgJobs[k])
  }

  lemma {:induction false} SelectedMember(jobs: seq<JobConfig>, names: seq<string>, stages: seq<string>)
    ensures forall j :: j in ByNames(jobs, names) <==> j in jobs && j.name in names
    ensures forall j :: j in ByStages(jobs, stages) <==> j in jobs && j.stage in stages
  {
    if jobs != [] {
      SelectedMember(jobs[..|jobs| - 1], names, stages);
      assert jobs == jobs[..|jobs| - 1] + [Last(jobs)];
    }
  }

  lemma {:induction false} StageByStageMember(jobs: seq<JobConfig>, stages: seq<string>)
    ensures forall j :: j in StageByStage(jobs, stages) <==> j in jobs && j.stage in stages
  {
    if stages != [] {
      StageByStageMember(jobs, stages[..|stages| - 1]);
      SelectedMember(jobs, [], [Last(stages)]);
      assert stages == stages[..|stages| - 1] + [Last(stages)];
    }
  }

  lemma {:induction false} ExpandedJobsShape(jobs: seq<JobConfig>, p: JobConfig) returns (k: nat)
    requires p in ExpandedJobs(jobs)
    ensures k < |jobs| && ComesFrom(p, jobs[k])
  {
    var front := jobs[..|jobs| - 1];
    if p in Expanded(Last(jobs)) {
      ExpandedShape(Last(jobs));
      k := |jobs| - 1;
    } else {
      k := ExpandedJobsShape(front, p);
      assert front[k] == jobs[k];
    }
  }

  lemma SelectedIsJob(jobs: seq<JobConfig>, stages: seq<string>, options: Options, c: JobConfig)
    requires c in Selected(jobs, stages, options)
    ensures c in jobs
  {
    SelectedMember(jobs, options.jobNames, options.stages);
    StageByStageMember(jobs, stages);
  }

  /** Everything a runner prepares comes from a configured job, with its stage, needs and detachment. */
  lemma PreparedShape(cfgJobs: seq<JobConfig>, globals: Variables, stages: seq<string>, options: Options)
    ensures PreparedFrom(ExpandedJobs(Selected(Populated(cfgJobs, globals), stages, options)), cfgJobs)
  {
    var populated := Populated(cfgJobs, globals);
    var picked := Selected(populated, stages, options);
    var prepared := ExpandedJobs(picked);
    forall i | 0 <= i < |prepared| ensures exists k :: 0 <= k < |cfgJobs| && ComesFrom(prepared[i], cfgJobs[k]) {
      var c := ExpandedJobsShape(picked, prepared[i]);
      SelectedIsJob(populated, stages, options, picked[c]);
      var k :| 0 <= k < |populated| && populated[k] == picked[c];
      assert populated[k] == WithGlobals(cfgJobs[k], globals);
      assert ComesFrom(prepared[i], cfgJobs[k]);
    }
  }
}
