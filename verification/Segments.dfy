/** How a run is cut into barriers: the sequential and stage-parallel paths of internal/engine/runner.go. */
module Segments {
  import opened Basics
  import opened ConfigModel
  import opened Listing
  import opened EngineEvents

  /** Jobs that run together, with group events around them when `grouped`. */
  datatype Segment = Segment(jobs: seq<JobConfig>, grouped: bool)

  /** Segments run one after the other; detached jobs run beside them. */
  datatype Plan = Plan(segments: seq<Segment>, detached: seq<JobConfig>)

  function Flatten(segments: seq<Segment>): seq<JobConfig> {
    if segments == [] then [] else Flatten(segments[..|segments| - 1]) + Last(segments).jobs
  }

  /** These two laws leave no other reading: segments are taken in order. */
  lemma FlattenOne(seg: Segment)
    ensures Flatten([seg]) == seg.jobs
  {
    assert [seg][..0] == [];
  }

  lemma {:induction false} FlattenAppend(a: seq<Segment>, b: seq<Segment>)
    ensures Flatten(a + b) == Flatten(a) + Flatten(b)
  {
    if b == [] {
      AppendNothing(a);
    } else {
      var front := b[..|b| - 1];
      FlattenAppend(a, front);
      AppendFrontLast(a, b);
      FlattenSnoc(a + front, Last(b));
      AppendAssociative(Flatten(a), Flatten(front), Last(b).jobs);
    }
  }

  // ---- Runs of one matrix group ----------------------------------------------

  ghost predicate SameGroup(jobs: seq<JobConfig>, group: string) {
    forall i :: 0 <= i < |jobs| ==> jobs[i].matrixGroup == group
  }

  /** A single job outside any matrix, or variants of one matrix. */
  ghost predicate IsSegment(seg: Segment) {
    && seg.jobs != []
    && SameGroup(seg.jobs, seg.jobs[0].matrixGroup)
    && seg.grouped == (seg.jobs[0].matrixGroup != "")
    && (!seg.grouped ==> |seg.jobs| == 1)
  }

  /** Two neighbouring segments belong together only if they are no matrix variants. */
  ghost predicate Separate(a: Segment, b: Segment) {
    && IsSegment(a) && IsSegment(b)
    && (a.grouped ==> b.jobs[0].matrixGroup != a.jobs[0].matrixGroup)
  }

  /** The jobs in order, cut so that every run of one matrix group is whole. */
  ghost predicate IsSegmentation(jobs: seq<JobConfig>, segments: seq<Segment>) {
    && Flatten(segments) == jobs
    && (forall k :: 0 <= k < |segments| ==> IsSegment(segments[k]))
    && (forall k, l :: 0 <= k && l == k + 1 && l < |segments| ==> Separate(segments[k], segments[l]))
  }

  /** One past the last of the consecutive jobs that share the group of the job at `start`. */
  method FindMatrixGroupEnd(jobs: seq<JobConfig>, start: nat) returns (end: nat)
    requires start < |jobs|
    ensures start < end <= |jobs|
    ensures SameGroup(jobs[start..end], jobs[start].matrixGroup)
    ensures end < |jobs| ==> jobs[end].matrixGroup != jobs[start].matrixGroup
  {
    var group := jobs[start].matrixGroup;
    end := start + 1;
    while end < |jobs| && jobs[end].matrixGroup == group
      invariant start < end <= |jobs|
      invariant forall k :: start <= k < end ==> jobs[k].matrixGroup == group
    {
      end := end + 1;
    }
    assert SameGroup(jobs[start..end], group);
  }

  /** The order in which the sequential loop takes its jobs. */
  method Cut(jobs: seq<JobConfig>) returns (segments: seq<Segment>)
    ensures IsSegmentation(jobs, segments)
  {
    var i := 0;
    segments := [];
    while i < |jobs|
      invariant i <= |jobs|
      invariant IsSegmentation(jobs[..i], segments)
      invariant segments != [] && Last(segments).grouped && i < |jobs| ==>
                  jobs[i].matrixGroup != Last(segments).jobs[0].matrixGroup
      decreases |jobs| - i
    {
      var end := i + 1;
      if jobs[i].matrixGroup != "" {
        end := FindMatrixGroupEnd(jobs, i);
      }
      var seg := Segment(jobs[i..end], jobs[i].matrixGroup != "");
      SegmentationGrows(jobs[..i], segments, seg);
      assert jobs[..i] + jobs[i..end] == jobs[..end];
      segments := segments + [seg];
      i := end;
    }
    assert jobs[..i] == jobs;
  }

  lemma SegmentationGrows(jobs: seq<JobConfig>, segments: seq<Segment>, seg: Segment)
    requires IsSegmentation(jobs, segments) && IsSegment(seg)
    requires segments != [] ==> Separate(Last(segments), seg)
    ensures IsSegmentation(jobs + seg.jobs, segments + [seg])
  {
    assert (segments + [seg])[..|segments|] == segments;
  }

  /** There is only one such cut. */
  lemma {:induction false} SegmentationUnique(jobs: seq<JobConfig>, a: seq<Segment>, b: seq<Segment>)
    requires IsSegmentation(jobs, a) && IsSegmentation(jobs, b)
    ensures a == b
    decreases |a|
  {
    EmptySegmentation(jobs, a);
    EmptySegmentation(jobs, b);
    if a != [] && b != [] {
      LastSegmentStarts(jobs, a, b);
      LastSegmentStarts(jobs, b, a);
      var x, y := Last(a).jobs, Last(b).jobs;
      assert jobs[|jobs| - |x|..] == x && jobs[|jobs| - |y|..] == y;
      FrontSegmentation(jobs, a);
      FrontSegmentation(jobs, b);
      SegmentationUnique(jobs[..|jobs| - |x|], a[..|a| - 1], b[..|b| - 1]);
      assert a == a[..|a| - 1] + [Last(a)] && b == b[..|b| - 1] + [Last(b)];
    }
  }

  lemma EmptySegmentation(jobs: seq<JobConfig>, a: seq<Segment>)
    requires IsSegmentation(jobs, a)
    ensures a == [] <==> jobs == []
  {
    assert a == [] || IsSegment(Last(a));
  }

  lemma FrontSegmentation(jobs: seq<JobConfig>, a: seq<Segment>)
    requires IsSegmentation(jobs, a) && a != []
    ensures |Last(a).jobs| <= |jobs| && jobs[|jobs| - |Last(a).jobs|..] == Last(a).jobs
    ensures IsSegmentation(jobs[..|jobs| - |Last(a).jobs|], a[..|a| - 1])
  {
    var front := a[..|a| - 1];
    assert jobs == Flatten(front) + Last(a).jobs;
    assert jobs[..|jobs| - |Last(a).jobs|] == Flatten(front);
    forall k, l | 0 <= k && l == k + 1 && l < |front| ensures Separate(front[k], front[l]) {
      assert Separate(a[k], a[l]);
    }
  }

  /** No cut has a longer last segment than another. */
  lemma LastSegmentStarts(jobs: seq<JobConfig>, a: seq<Segment>, b: seq<Segment>)
    requires IsSegmentation(jobs, a) && IsSegmentation(jobs, b) && a != [] && b != []
    ensures |Last(a).jobs| >= |Last(b).jobs|
    ensures Last(a).grouped == Last(b).grouped
  {
    LastSharesGroup(jobs, a);
    LastSharesGroup(jobs, b);
    if Last(a).grouped {
      LastIsMaximal(jobs, a);
    }
  }

  /** The last segment ends the list, all of it in the last job's group. */
  lemma LastSharesGroup(jobs: seq<JobConfig>, a: seq<Segment>)
    requires IsSegmentation(jobs, a) && a != []
    ensures 1 <= |Last(a).jobs| <= |jobs|
    ensures Last(a).grouped == (Last(jobs).matrixGroup != "") && (!Last(a).grouped ==> |Last(a).jobs| == 1)
    ensures forall p :: |jobs| - |Last(a).jobs| <= p < |jobs| ==> jobs[p].matrixGroup == Last(jobs).matrixGroup
  {
    FrontSegmentation(jobs, a);
    var x := Last(a).jobs;
    assert IsSegment(Last(a)) && Last(x) == Last(jobs);
    assert forall p :: |jobs| - |x| <= p < |jobs| ==> jobs[p] == x[p - (|jobs| - |x|)];
  }

  /** The job before a grouped last segment belongs to another group. */
  lemma LastIsMaximal(jobs: seq<JobConfig>, a: seq<Segment>)
    requires IsSegmentation(jobs, a) && a != [] && Last(a).grouped
    ensures var start := |jobs| - |Last(a).jobs|;
            start >= 0 && (start > 0 ==> jobs[start - 1].matrixGroup != Last(jobs).matrixGroup)
  {
    FrontSegmentation(jobs, a);
    var front, start := a[..|a| - 1], |jobs| - |Last(a).jobs|;
    assert IsSegment(Last(a)) && Last(jobs) == Last(Last(a).jobs);
    EmptySegmentation(jobs[..start], front);
    if start > 0 {
      var k, l := |a| - 2, |a| - 1;
      assert Separate(a[k], a[l]);
      FrontSegmentation(jobs[..start], front);
      assert Last(front) == a[k] && Last(a[k].jobs) == jobs[start - 1];
    }
  }

  // ---- Sequential and detached -------------------------------------------------

  /** The jobs whose parallel flag is as given, in order. */
  function Marked(jobs: seq<JobConfig>, parallel: bool): seq<JobConfig> {
    if jobs == [] then []
    else Marked(jobs[..|jobs| - 1], parallel) + if Last(jobs).IsParallel() == parallel then [Last(jobs)] else []
  }

  method PartitionByParallel(jobs: seq<JobConfig>) returns (sequential: seq<JobConfig>, detached: seq<JobConfig>)
    ensures sequential == Marked(jobs, false) && detached == Marked(jobs, true)
  {
    sequential, detached := [], [];
    for i := 0 to |jobs|
      invariant sequential == Marked(jobs[..i], false) && detached == Marked(jobs[..i], true)
    {
      assert jobs[..i + 1][..i] == jobs[..i];
      if jobs[i].IsParallel() {
        detached := detached + [jobs[i]];
      } else {
        sequential := sequential + [jobs[i]];
      }
    }
    assert jobs[..|jobs|] == jobs;
  }

  lemma {:induction false} PartitionIsComplete(jobs: seq<JobConfig>)
    ensures multiset(Marked(jobs, false)) + multiset(Marked(jobs, true)) == multiset(jobs)
    ensures Marked(jobs, true) == [] <==> Marked(jobs, false) == jobs
  {
    if jobs != [] {
      PartitionIsComplete(jobs[..|jobs| - 1]);
      assert jobs == jobs[..|jobs| - 1] + [Last(jobs)];
      MarkedIsShorter(jobs[..|jobs| - 1], false);
    }
  }

  lemma {:induction false} MarkedIsShorter(jobs: seq<JobConfig>, parallel: bool)
    ensures |Marked(jobs, parallel)| <= |jobs|
  {
    if jobs != [] {
      MarkedIsShorter(jobs[..|jobs| - 1], parallel);
    }
  }

  // ---- Stages --------------------------------------------------------------------

  function InStage(jobs: seq<JobConfig>, stage: string): seq<JobConfig> {
    if jobs == [] then []
    else InStage(jobs[..|jobs| - 1], stage) + if Last(jobs).stage == stage then [Last(jobs)] else []
  }

  function StageSegments(stages: seq<string>, jobs: seq<JobConfig>): seq<Segment> {
    if stages == [] then []
    else
      var group := InStage(jobs, Last(stages));
      StageSegments(stages[..|stages| - 1], jobs) + if |group| > 0 then [Segment(group, true)] else []
  }

  method JobsByStage(stages: seq<string>, jobs: seq<JobConfig>) returns (groups: seq<Segment>)
    ensures groups == StageSegments(stages, jobs)
  {
    groups := [];
    for s := 0 to |stages|
      invariant groups == StageSegments(stages[..s], jobs)
    {
      var group: seq<JobConfig> := [];
      for i := 0 to |jobs|
        invariant group == InStage(jobs[..i], stages[s])
      {
        assert jobs[..i + 1][..i] == jobs[..i];
        if jobs[i].stage == stages[s] {
          group := group + [jobs[i]];
        }
      }
      assert jobs[..|jobs|] == jobs;
      assert stages[..s + 1][..s] == stages[..s];
      if |group| > 0 {
        groups := groups + [Segment(group, true)];
      }
    }
    assert stages[..|stages|] == stages;
  }

  lemma {:induction false} InStageCounts(jobs: seq<JobConfig>, stage: string, j: JobConfig)
    ensures multiset(InStage(jobs, stage))[j] == if j.stage == stage then multiset(jobs)[j] else 0
  {
    if jobs != [] {
      InStageCounts(jobs[..|jobs| - 1], stage, j);
      assert jobs == jobs[..|jobs| - 1] + [Last(jobs)];
    }
  }

  lemma StageCountStep(stages: seq<string>, jobs: seq<JobConfig>, j: JobConfig)
    requires stages != []
    ensures multiset(Flatten(StageSegments(stages, jobs)))[j] ==
            multiset(Flatten(StageSegments(stages[..|stages| - 1], jobs)))[j] + multiset(InStage(jobs, Last(stages)))[j]
  {
    var segments, group := StageSegments(stages[..|stages| - 1], jobs), InStage(jobs, Last(stages));
    if |group| > 0 {
      FlattenSnoc(segments, Segment(group, true));
      assert StageSegments(stages, jobs) == segments + [Segment(group, true)];
    } else {
      assert StageSegments(stages, jobs) == segments;
    }
  }

  lemma FlattenSnoc(segments: seq<Segment>, seg: Segment)
    ensures Flatten(segments + [seg]) == Flatten(segments) + seg.jobs
  {
    assert (segments + [seg])[..|segments|] == segments;
  }

  lemma CountSnoc(stages: seq<string>, stage: string)
    requires stages != []
    ensures multiset(stages)[stage] == multiset(stages[..|stages| - 1])[stage] + if Last(stages) == stage then 1 else 0
  {
    assert stages == stages[..|stages| - 1] + [Last(stages)];
  }

  /** A job is scheduled once for every time its stage is listed: never if the stage is missing,
      twice if it is repeated. */
  lemma {:induction false} StageCounts(stages: seq<string>, jobs: seq<JobConfig>, j: JobConfig)
    ensures multiset(Flatten(StageSegments(stages, jobs)))[j] == multiset(stages)[j.stage] * multiset(jobs)[j]
  {
    if stages != [] {
      var front, last := stages[..|stages| - 1], Last(stages);
      StageCounts(front, jobs, j);
      InStageCounts(jobs, last, j);
      CountSnoc(stages, j.stage);
      StageCountStep(stages, jobs, j);
      CountOneMore(multiset(front)[j.stage], last == j.stage, multiset(jobs)[j]);
    }
  }

  lemma CountOneMore(n: nat, one: bool, m: nat)
    ensures (n + if one then 1 else 0) * m == n * m + if one then m else 0
  {
  }

  // ---- The plan of a run ---------------------------------------------------------

  /** The plan of a run without needs. */
  ghost predicate IsPlan(mode: RunMode, stages: seq<string>, jobs: seq<JobConfig>, plan: Plan) {
    match mode
    case ModeParallelStages => plan == Plan(StageSegments(stages, jobs), [])
    case ModeParallel => plan == Plan([Segment(jobs, true)], [])
    case ModeSequential => IsSegmentation(Marked(jobs, false), plan.segments) && plan.detached == Marked(jobs, true)
  }

  // ---- The plan by positions -----------------------------------------------------

  /** One grouped segment for each listed stage that has jobs, in stage order, its jobs in their own order. */
  ghost predicate StagesInOrder(stages: seq<string>, jobs: seq<JobConfig>, segments: seq<Segment>) {
    exists used ::
      Selects(stages, used, (s: string) => exists j :: j in jobs && j.stage == s) && ForStages(jobs, used, segments)
  }

  ghost predicate ForStages(jobs: seq<JobConfig>, used: seq<string>, segments: seq<Segment>) {
    |segments| == |used| && forall k :: 0 <= k < |used| ==> ForStage(jobs, used[k], segments[k])
  }

  ghost predicate ForStage(jobs: seq<JobConfig>, stage: string, seg: Segment) {
    seg.grouped && Selects(jobs, seg.jobs, (j: JobConfig) => j.stage == stage)
  }

  ghost predicate PlanInOrder(mode: RunMode, stages: seq<string>, jobs: seq<JobConfig>, plan: Plan) {
    match mode
    case ModeParallelStages => plan.detached == [] && StagesInOrder(stages, jobs, plan.segments)
    case ModeParallel => plan.detached == [] && plan.segments == [Segment(jobs, true)]
    case ModeSequential =>
      && Selects(jobs, plan.detached, (j: JobConfig) => j.parallel == Some(true))
      && exists chain ::
           Selects(jobs, chain, (j: JobConfig) => j.parallel != Some(true)) && IsSegmentation(chain, plan.segments)
  }

  lemma {:induction false} InStageSelects(jobs: seq<JobConfig>, stage: string)
    ensures Selects(jobs, InStage(jobs, stage), (j: JobConfig) => j.stage == stage)
  {
    var keep := (j: JobConfig) => j.stage == stage;
    if jobs == [] {
      SelectsNone(keep);
    } else {
      var front := jobs[..|jobs| - 1];
      InStageSelects(front, stage);
      SelectsSnoc(front, InStage(front, stage), Last(jobs), keep);
      FrontLast(jobs);
    }
  }

  lemma {:induction false} MarkedSelects(jobs: seq<JobConfig>, parallel: bool)
    ensures Selects(jobs, Marked(jobs, parallel), (j: JobConfig) => (j.parallel == Some(true)) == parallel)
  {
    var keep := (j: JobConfig) => (j.parallel == Some(true)) == parallel;
    if jobs == [] {
      SelectsNone(keep);
    } else {
      var front := jobs[..|jobs| - 1];
      MarkedSelects(front, parallel);
      SelectsSnoc(front, Marked(front, parallel), Last(jobs), keep);
      FrontLast(jobs);
    }
  }

  lemma {:induction false} StageSegmentsInOrder(stages: seq<string>, jobs: seq<JobConfig>) returns (used: seq<string>)
    ensures Selects(stages, used, (s: string) => exists j :: j in jobs && j.stage == s)
    ensures ForStages(jobs, used, StageSegments(stages, jobs))
  {
    var hasJobs := (s: string) => exists j :: j in jobs && j.stage == s;
    if stages == [] {
      used := [];
      SelectsNone(hasJobs);
    } else {
      var front, last := stages[..|stages| - 1], Last(stages);
      var before := StageSegmentsInOrder(front, jobs);
      var group := InStage(jobs, last);
      InStageSelects(jobs, last);
      GroupIsUsed(jobs, last);
      SelectsSnoc(front, before, last, hasJobs);
      FrontLast(stages);
      AppendNothing(before);
      used := before + if |group| > 0 then [last] else [];
    }
  }

  lemma GroupIsUsed(jobs: seq<JobConfig>, stage: string)
    ensures |InStage(jobs, stage)| > 0 <==> exists j :: j in jobs && j.stage == stage
  {
    InStageSelects(jobs, stage);
    var group, keep := InStage(jobs, stage), (j: JobConfig) => j.stage == stage;
    if |group| > 0 {
      SelectsMember(jobs, group, keep, group[0]);
    }
    if j :| j in jobs && j.stage == stage {
      SelectsMember(jobs, group, keep, j);
    }
  }

  lemma PlanOrder(mode: RunMode, stages: seq<string>, jobs: seq<JobConfig>, plan: Plan)
    requires IsPlan(mode, stages, jobs, plan)
    ensures PlanInOrder(mode, stages, jobs, plan)
  {
    match mode
    case ModeParallelStages => var used := StageSegmentsInOrder(stages, jobs);
    case ModeParallel =>
    case ModeSequential =>
      MarkedSelects(jobs, true);
      SameSelection(jobs, plan.detached, (j: JobConfig) => (j.parallel == Some(true)) == true,
                    (j: JobConfig) => j.parallel == Some(true));
      MarkedSelects(jobs, false);
      SameSelection(jobs, Marked(jobs, false), (j: JobConfig) => (j.parallel == Some(true)) == false,
                    (j: JobConfig) => j.parallel != Some(true));
  }

  /** With distinct stages, no two segments share a stage, and a later segment bears a later listed one. */
  lemma SegmentStages(stages: seq<string>, jobs: seq<JobConfig>, plan: Plan, k: nat, l: nat) returns (a: nat, b: nat)
    requires PlanInOrder(ModeParallelStages, stages, jobs, plan) && k < l < |plan.segments|
    ensures a < b < |stages| && OfOneStage(plan.segments[k], stages[a]) && OfOneStage(plan.segments[l], stages[b])
  {
    var hasJobs := (s: string) => exists j :: j in jobs && j.stage == s;
    var used :| Selects(stages, used, hasJobs) && ForStages(jobs, used, plan.segments);
    var at :| SelectsAt(stages, used, at, hasJobs);
    a, b := at[k], at[l];
    SegmentOfStage(jobs, used[k], plan.segments[k]);
    SegmentOfStage(jobs, used[l], plan.segments[l]);
    assert k < |used| && used[k] == stages[a] && hasJobs(stages[a]);
    assert l < |used| && used[l] == stages[b] && hasJobs(stages[b]);
  }

  ghost predicate OfOneStage(seg: Segment, stage: string) {
    forall j :: j in seg.jobs ==> j.stage == stage
  }

  lemma SegmentOfStage(jobs: seq<JobConfig>, stage: string, seg: Segment)
    requires ForStage(jobs, stage, seg)
    ensures OfOneStage(seg, stage)
  {
    forall j | j in seg.jobs ensures j.stage == stage {
      SelectsMember(jobs, seg.jobs, (j: JobConfig) => j.stage == stage, j);
    }
  }

  /** Sequential runs take the detached path only when a job is marked parallel. */
  method PlanRun(mode: RunMode, stages: seq<string>, jobs: seq<JobConfig>) returns (plan: Plan)
    ensures IsPlan(mode, stages, jobs, plan)
    ensures PlanInOrder(mode, stages, jobs, plan)
  {
    plan := MakePlan(mode, stages, jobs);
    PlanOrder(mode, stages, jobs, plan);
  }

  method MakePlan(mode: RunMode, stages: seq<string>, jobs: seq<JobConfig>) returns (plan: Plan)
    ensures IsPlan(mode, stages, jobs, plan)
  {
    match mode
    case ModeParallelStages =>
      var segments := JobsByStage(stages, jobs);
      plan := Plan(segments, []);
    case ModeParallel => plan := Plan([Segment(jobs, true)], []);
    case ModeSequential =>
      var hasDetached := HasDetached(jobs);
      if hasDetached {
        var sequential, detached := PartitionByParallel(jobs);
        var segments := Cut(sequential);
        plan := Plan(segments, detached);
      } else {
        PartitionIsComplete(jobs);
        var segments := Cut(jobs);
        plan := Plan(segments, []);
      }
  }

  method HasDetached(jobs: seq<JobConfig>) returns (b: bool)
    ensures b <==> Marked(jobs, true) != []
  {
    MarkedEmpty(jobs);
    for i := 0 to |jobs|
      invariant forall k :: 0 <= k < i ==> !jobs[k].IsParallel()
    {
      if jobs[i].IsParallel() {
        return true;
      }
    }
    return false;
  }

  lemma {:induction false} MarkedEmpty(jobs: seq<JobConfig>)
    ensures Marked(jobs, true) == [] <==> forall k :: 0 <= k < |jobs| ==> !jobs[k].IsParallel()
  {
    if jobs != [] {
      MarkedEmpty(jobs[..|jobs| - 1]);
    }
  }

  /** Every mode schedules every job exactly once, by stage exactly when its stage is listed exactly once. */
  lemma PlanIsComplete(mode: RunMode, stages: seq<string>, jobs: seq<JobConfig>, plan: Plan)
    requires IsPlan(mode, stages, jobs, plan)
    ensures multiset(Flatten(plan.segments) + plan.detached) == multiset(jobs) <==>
              (mode.ModeParallelStages? ==> forall j :: j in jobs ==> multiset(stages)[j.stage] == 1)
  {
    match mode
    case ModeParallel => assert plan.segments[..0] == [] && Flatten(plan.segments) == [] + jobs;
    case ModeSequential => PartitionIsComplete(jobs);
    case ModeParallelStages =>
      forall j
        ensures multiset(Flatten(plan.segments) + plan.detached)[j] == multiset(stages)[j.stage] * multiset(jobs)[j]
      {
        StageCounts(stages, jobs, j);
      }
      forall j | j in jobs
        ensures multiset(stages)[j.stage] * multiset(jobs)[j] == multiset(jobs)[j] <==> multiset(stages)[j.stage] == 1 {
        OneFactor(multiset(stages)[j.stage], multiset(jobs)[j]);
      }
      EqualByCounts(Flatten(plan.segments) + plan.detached, stages, jobs);
  }

  lemma OneFactor(n: nat, m: nat)
    requires m > 0
    ensures n * m == m <==> n == 1
  {
    if n > 1 { assert (n - 1) * m > 0; }
  }

  lemma EqualByCounts(all: seq<JobConfig>, stages: seq<string>, jobs: seq<JobConfig>)
    requires forall j :: multiset(all)[j] == multiset(stages)[j.stage] * multiset(jobs)[j]
    ensures multiset(all) == multiset(jobs) <==>
              forall j :: j in jobs ==> multiset(stages)[j.stage] * multiset(jobs)[j] == multiset(jobs)[j]
  {
    if forall j :: j in jobs ==> multiset(stages)[j.stage] * multiset(jobs)[j] == multiset(jobs)[j] {
      forall j ensures multiset(all)[j] == multiset(jobs)[j] {
        if j !in jobs { assert multiset(jobs)[j] == 0; }
      }
    }
  }
}
