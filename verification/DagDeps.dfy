/** Dependency resolution of internal/engine/dag.go, and why the resolved graph has no cycle. */
module DagDeps {
  import opened Basics
  import opened Graph
  import opened ConfigModel
  import opened Listing
  import opened Matrix
  import opened Prepare
  import opened NeedsValidator

  /** Prepared names answering to a base name, in order. */
  function NamesOfBase(jobs: seq<JobConfig>, base: string): seq<string> {
    if jobs == [] then []
    else NamesOfBase(jobs[..|jobs| - 1], base) + if Base(Last(jobs)) == base then [Last(jobs).name] else []
  }

  /** Needs expanded to prepared names; a need outside this run contributes nothing. */
  function Targets(jobs: seq<JobConfig>, needs: seq<string>): seq<string> {
    if needs == [] then [] else Targets(jobs, needs[..|needs| - 1]) + NamesOfBase(jobs, Last(needs))
  }

  function EarlierNames(jobs: seq<JobConfig>, idx: map<string, nat>, j: JobConfig): seq<string> {
    if jobs == [] then []
    else EarlierNames(jobs[..|jobs| - 1], idx, j) +
         if Last(jobs).name != j.name && StageAt(idx, Last(jobs).stage) < StageAt(idx, j.stage) then [Last(jobs).name]
         else []
  }

  function DepsOf(jobs: seq<JobConfig>, idx: map<string, nat>, j: JobConfig): seq<string> {
    if j.needs != [] then Targets(jobs, j.needs)
    else if j.IsParallel() then []
    else EarlierNames(jobs, idx, j)
  }

  /** Reading the dependency map: a job without an entry waits for nothing. */
  function DepsFor(deps: map<string, seq<string>>, name: string): seq<string> {
    if name in deps then deps[name] else []
  }

  /** The dependency map after the first `n` jobs; a repeated name overwrites. */
  function DepsMap(jobs: seq<JobConfig>, stages: seq<string>, n: nat): map<string, seq<string>>
    requires n <= |jobs|
  {
    if n == 0 then map[]
    else
      var prev, j := DepsMap(jobs, stages, n - 1), jobs[n - 1];
      if j.needs == [] && j.IsParallel() then prev else prev[j.name := DepsOf(jobs, StageIndex(stages), j)]
  }

  method IndexByBase(jobs: seq<JobConfig>) returns (byBase: map<string, seq<string>>)
    ensures forall b :: DepsFor(byBase, b) == NamesOfBase(jobs, b)
  {
    byBase := map[];
    for i := 0 to |jobs|
      invariant forall b :: DepsFor(byBase, b) == NamesOfBase(jobs[..i], b)
    {
      var base := Base(jobs[i]);
      NamesOfBaseSnoc(jobs, i);
      ghost var before := byBase;
      byBase := byBase[base := DepsFor(byBase, base) + [jobs[i].name]];
      assert forall b :: DepsFor(byBase, b) == DepsFor(before, b) + if base == b then [jobs[i].name] else [];
    }
    assert jobs[..|jobs|] == jobs;
  }

  lemma NamesOfBaseSnoc(jobs: seq<JobConfig>, i: nat)
    requires i < |jobs|
    ensures forall b :: NamesOfBase(jobs[..i + 1], b) ==
                          NamesOfBase(jobs[..i], b) + if Base(jobs[i]) == b then [jobs[i].name] else []
  {
    assert jobs[..i + 1][..i] == jobs[..i];
  }

  method NeedsTargets(jobs: seq<JobConfig>, byBase: map<string, seq<string>>,
                      needs: seq<string>) returns (ds: seq<string>)
    requires forall b :: DepsFor(byBase, b) == NamesOfBase(jobs, b)
    ensures ds == Targets(jobs, needs)
  {
    ds := [];
    for k := 0 to |needs|
      invariant ds == Targets(jobs, needs[..k])
    {
      assert needs[..k + 1][..k] == needs[..k];
      ds := ds + DepsFor(byBase, needs[k]);
    }
    assert needs[..|needs|] == needs;
  }

  method EarlierStageJobs(jobs: seq<JobConfig>, idx: map<string, nat>, j: JobConfig) returns (ds: seq<string>)
    ensures ds == EarlierNames(jobs, idx, j)
  {
    ds := [];
    for k := 0 to |jobs|
      invariant ds == EarlierNames(jobs[..k], idx, j)
    {
      assert jobs[..k + 1][..k] == jobs[..k];
      if jobs[k].name != j.name && StageAt(idx, jobs[k].stage) < StageAt(idx, j.stage) {
        ds := ds + [jobs[k].name];
      }
    }
    assert jobs[..|jobs|] == jobs;
  }

  method ResolveDeps(jobs: seq<JobConfig>, stages: seq<string>) returns (deps: map<string, seq<string>>)
    ensures deps == DepsMap(jobs, stages, |jobs|)
    ensures UniqueNames(jobs) && AllListed(stages, jobs) ==> DepsByPosition(jobs, stages, deps)
  {
    deps := FillDeps(jobs, stages);
    if UniqueNames(jobs) && AllListed(stages, jobs) {
      DepsMapByPosition(jobs, stages);
    }
  }

  method FillDeps(jobs: seq<JobConfig>, stages: seq<string>) returns (deps: map<string, seq<string>>)
    ensures deps == DepsMap(jobs, stages, |jobs|)
  {
    var stageIdx := IndexStages(stages);
    var byBase := IndexByBase(jobs);
    deps := map[];
    for i := 0 to |jobs|
      invariant deps == DepsMap(jobs, stages, i)
    {
      var j := jobs[i];
      if j.needs != [] {
        var ds := NeedsTargets(jobs, byBase, j.needs);
        deps := deps[j.name := ds];
      } else if !j.IsParallel() {
        var ds := EarlierStageJobs(jobs, stageIdx, j);
        deps := deps[j.name := ds];
      }
    }
  }

  // ---- Meaning of the dependency lists ---------------------------------------

  /** `j` waits for `other`: an explicit need covers it, or an earlier stage does implicitly. */
  ghost predicate WaitsFor(idx: map<string, nat>, j: JobConfig, other: JobConfig) {
    if j.needs != [] then Base(other) in j.needs
    else !j.IsParallel() && other.name != j.name && StageAt(idx, other.stage) < StageAt(idx, j.stage)
  }

  lemma {:induction false} NamesOfBaseMember(jobs: seq<JobConfig>, base: string, d: string)
    ensures d in NamesOfBase(jobs, base) <==> exists k :: 0 <= k < |jobs| && jobs[k].name == d && Base(jobs[k]) == base
  {
    if jobs != [] {
      var front, last := jobs[..|jobs| - 1], Last(jobs);
      NamesOfBaseMember(front, base, d);
      assert d in NamesOfBase(jobs, base) <==> d in NamesOfBase(front, base) || (Base(last) == base && last.name == d);
      if d in NamesOfBase(front, base) {
        var k :| 0 <= k < |front| && front[k].name == d && Base(front[k]) == base;
        assert jobs[k] == front[k];
      }
      forall k | 0 <= k < |jobs| - 1 ensures jobs[k] == front[k] {}
    }
  }

  lemma {:induction false} TargetsMember(jobs: seq<JobConfig>, needs: seq<string>, d: string)
    ensures d in Targets(jobs, needs) <==> exists k :: 0 <= k < |jobs| && jobs[k].name == d && Base(jobs[k]) in needs
  {
    if needs != [] {
      TargetsMember(jobs, needs[..|needs| - 1], d);
      NamesOfBaseMember(jobs, Last(needs), d);
      assert needs == needs[..|needs| - 1] + [Last(needs)];
    }
  }

  lemma {:induction false} EarlierNamesMember(jobs: seq<JobConfig>, idx: map<string, nat>, j: JobConfig, d: string)
    ensures d in EarlierNames(jobs, idx, j) <==>
            exists k :: 0 <= k < |jobs| && jobs[k].name == d && jobs[k].name != j.name
                && StageAt(idx, jobs[k].stage) < StageAt(idx, j.stage)
  {
    if jobs != [] {
      var front := jobs[..|jobs| - 1];
      EarlierNamesMember(front, idx, j, d);
      forall k | 0 <= k < |jobs| - 1 ensures jobs[k] == front[k] {}
      if d in EarlierNames(front, idx, j) {
        var k :| 0 <= k < |front| && front[k].name == d && front[k].name != j.name
            && StageAt(idx, front[k].stage) < StageAt(idx, j.stage);
        assert jobs[k] == front[k];
      }
    }
  }

  /** A name is a dependency exactly when it belongs to a prepared job that must be waited for. */
  lemma DepsOfMeaning(jobs: seq<JobConfig>, idx: map<string, nat>, j: JobConfig, d: string)
    ensures d in DepsOf(jobs, idx, j) <==> exists k :: 0 <= k < |jobs| && jobs[k].name == d && WaitsFor(idx, j, jobs[k])
  {
    if j.needs != [] {
      TargetsMember(jobs, j.needs, d);
    } else if !j.IsParallel() {
      EarlierNamesMember(jobs, idx, j, d);
    }
  }

  /** With distinct names, each job's entry is its own list. */
  lemma {:induction false} DepsMapExact(jobs: seq<JobConfig>, stages: seq<string>, n: nat, i: nat)
    requires UniqueNames(jobs) && i < |jobs| && n <= |jobs|
    ensures DepsFor(DepsMap(jobs, stages, n), jobs[i].name) ==
              if i < n then DepsOf(jobs, StageIndex(stages), jobs[i]) else []
  {
    if n > 0 {
      var m := n - 1;
      DepsMapExact(jobs, stages, m, i);
      DepsMapStep(jobs, stages, m, jobs[i].name);
      assert Names(jobs)[m] == jobs[m].name && Names(jobs)[i] == jobs[i].name;
    }
  }

  lemma DepsMapStep(jobs: seq<JobConfig>, stages: seq<string>, m: nat, name: string)
    requires m < |jobs|
    ensures DepsFor(DepsMap(jobs, stages, m + 1), name) ==
              if jobs[m].name == name && !(jobs[m].needs == [] && jobs[m].IsParallel())
              then DepsOf(jobs, StageIndex(stages), jobs[m])
              else DepsFor(DepsMap(jobs, stages, m), name)
  {
  }

  // ---- The same by positions ----------------------------------------------------

  /** A job waits for those it needs by base name or, having no needs and not being detached, for those whose
      stage is listed before its own. */
  ghost predicate WaitsByPosition(stages: seq<string>, j: JobConfig, other: JobConfig) {
    if j.needs != [] then Base(other) in j.needs
    else j.parallel != Some(true) && EarlierStage(stages, other, j)
  }

  ghost predicate EarlierStage(stages: seq<string>, other: JobConfig, j: JobConfig) {
    exists a, b :: LastAt(stages, a, other.stage) && LastAt(stages, b, j.stage) && a < b
  }

  /** For each need the jobs it stands for, in the order of the prepared jobs. */
  ghost predicate NeedBlocks(jobs: seq<JobConfig>, needs: seq<string>, blocks: seq<seq<JobConfig>>) {
    |blocks| == |needs| && forall n :: 0 <= n < |needs| ==> OfBase(jobs, needs[n], blocks[n])
  }

  ghost predicate OfBase(jobs: seq<JobConfig>, base: string, block: seq<JobConfig>) {
    Selects(jobs, block, (other: JobConfig) => Base(other) == base)
  }

  /** The entry of each job lists the jobs it waits for: need after need or, without needs, in the order of the
      prepared jobs. */
  ghost predicate EntryByPosition(jobs: seq<JobConfig>, stages: seq<string>, ds: seq<string>, j: JobConfig) {
    && (forall d :: d in ds <==>
          exists k :: 0 <= k < |jobs| && jobs[k].name == d && WaitsByPosition(stages, j, jobs[k]))
    && (j.needs != [] ==> exists blocks :: NeedBlocks(jobs, j.needs, blocks) && ds == Names(Concat(blocks)))
    && (j.needs == [] ==>
          exists ys :: Selects(jobs, ys, (other: JobConfig) => WaitsByPosition(stages, j, other)) && ds == Names(ys))
  }

  ghost predicate DepsByPosition(jobs: seq<JobConfig>, stages: seq<string>, deps: map<string, seq<string>>) {
    forall i :: 0 <= i < |jobs| ==> EntryByPosition(jobs, stages, DepsFor(deps, jobs[i].name), jobs[i])
  }

  lemma EarlierByPosition(stages: seq<string>, j: JobConfig, other: JobConfig)
    requires j.stage in stages && other.stage in stages
    ensures StageAt(StageIndex(stages), other.stage) < StageAt(StageIndex(stages), j.stage) <==>
              EarlierStage(stages, other, j)
  {
    var a := LastAtExists(stages, other.stage);
    var b := LastAtExists(stages, j.stage);
    StageIndexIsLast(stages, other.stage);
    StageIndexIsLast(stages, j.stage);
  }

  /** The two readings of waiting agree, for different jobs. */
  lemma WaitsAgree(stages: seq<string>, jobs: seq<JobConfig>, i: nat, k: nat)
    requires UniqueNames(jobs) && AllListed(stages, jobs) && i < |jobs| && k < |jobs|
    ensures WaitsFor(StageIndex(stages), jobs[i], jobs[k]) <==> WaitsByPosition(stages, jobs[i], jobs[k])
  {
    assert jobs[i] in jobs && jobs[k] in jobs;
    EarlierByPosition(stages, jobs[i], jobs[k]);
    assert Names(jobs)[i] == jobs[i].name && Names(jobs)[k] == jobs[k].name;
  }

  lemma {:induction false} EarlierNamesSelect(jobs: seq<JobConfig>, idx: map<string, nat>, j: JobConfig,
                                              keep: JobConfig -> bool) returns (ys: seq<JobConfig>)
    requires forall k :: 0 <= k < |jobs| ==>
               (keep(jobs[k]) <==> jobs[k].name != j.name && StageAt(idx, jobs[k].stage) < StageAt(idx, j.stage))
    ensures Selects(jobs, ys, keep) && EarlierNames(jobs, idx, j) == Names(ys)
  {
    if jobs == [] {
      ys := [];
      SelectsNone(keep);
    } else {
      var front, last := jobs[..|jobs| - 1], Last(jobs);
      var before := EarlierNamesSelect(front, idx, j, keep);
      ys := before + if keep(last) then [last] else [];
      SelectsSnoc(front, before, last, keep);
      FrontLast(jobs);
      NamesAppend(before, if keep(last) then [last] else []);
      EarlierNamesStep(jobs, idx, j, keep(jobs[|jobs| - 1]));
    }
  }

  lemma EarlierNamesStep(jobs: seq<JobConfig>, idx: map<string, nat>, j: JobConfig, kept: bool)
    requires jobs != []
    requires kept <==> Last(jobs).name != j.name && StageAt(idx, Last(jobs).stage) < StageAt(idx, j.stage)
    ensures EarlierNames(jobs, idx, j) ==
            EarlierNames(jobs[..|jobs| - 1], idx, j) + Names(if kept then [Last(jobs)] else [])
  {
    assert Names([Last(jobs)]) == [Last(jobs).name] && Names([]) == [];
  }

  lemma EntryIsByPosition(jobs: seq<JobConfig>, stages: seq<string>, i: nat)
    requires UniqueNames(jobs) && AllListed(stages, jobs) && i < |jobs|
    ensures EntryByPosition(jobs, stages, DepsOf(jobs, StageIndex(stages), jobs[i]), jobs[i])
  {
    var idx, j := StageIndex(stages), jobs[i];
    var ds := DepsOf(jobs, idx, j);
    forall d
      ensures d in ds <==> exists k :: 0 <= k < |jobs| && jobs[k].name == d && WaitsByPosition(stages, j, jobs[k])
    {
      DepsOfMeaning(jobs, idx, j, d);
      forall k | 0 <= k < |jobs| ensures WaitsFor(idx, j, jobs[k]) <==> WaitsByPosition(stages, j, jobs[k]) {
        WaitsAgree(stages, jobs, i, k);
      }
    }
    if j.needs == [] {
      WithoutNeedsInOrder(jobs, stages, i);
    } else {
      var blocks := TargetsInOrder(jobs, j.needs);
    }
  }

  lemma WithoutNeedsInOrder(jobs: seq<JobConfig>, stages: seq<string>, i: nat)
    requires UniqueNames(jobs) && AllListed(stages, jobs) && i < |jobs| && jobs[i].needs == []
    ensures exists ys :: Selects(jobs, ys, (other: JobConfig) => WaitsByPosition(stages, jobs[i], other)) &&
                         DepsOf(jobs, StageIndex(stages), jobs[i]) == Names(ys)
  {
    var idx, keep := StageIndex(stages), (other: JobConfig) => WaitsByPosition(stages, jobs[i], other);
    if jobs[i].IsParallel() {
      NothingSelected(jobs, keep);
      assert DepsOf(jobs, idx, jobs[i]) == Names([]);
    } else {
      forall k | 0 <= k < |jobs| ensures WaitsFor(idx, jobs[i], jobs[k]) <==> keep(jobs[k]) {
        WaitsAgree(stages, jobs, i, k);
      }
      var ys := EarlierNamesSelect(jobs, idx, jobs[i], keep);
    }
  }

  lemma DepsMapByPosition(jobs: seq<JobConfig>, stages: seq<string>)
    requires UniqueNames(jobs) && AllListed(stages, jobs)
    ensures DepsByPosition(jobs, stages, DepsMap(jobs, stages, |jobs|))
  {
    forall i | 0 <= i < |jobs|
      ensures EntryByPosition(jobs, stages, DepsFor(DepsMap(jobs, stages, |jobs|), jobs[i].name), jobs[i])
    {
      DepsMapExact(jobs, stages, |jobs|, i);
      EntryIsByPosition(jobs, stages, i);
    }
  }

  /** The targets of several needs stand need after need, each need's in the order of the prepared jobs. */
  lemma {:induction false} TargetsInOrder(jobs: seq<JobConfig>, needs: seq<string>)
      returns (blocks: seq<seq<JobConfig>>)
    ensures NeedBlocks(jobs, needs, blocks) && Targets(jobs, needs) == Names(Concat(blocks))
  {
    if needs == [] {
      blocks := [];
    } else {
      var front, need := needs[..|needs| - 1], Last(needs);
      var before := TargetsInOrder(jobs, front);
      var ys := OfBaseSelect(jobs, need);
      blocks := before + [ys];
      ConcatSnoc(before, ys);
      NamesAppend(Concat(before), ys);
      forall n | 0 <= n < |needs| ensures OfBase(jobs, needs[n], blocks[n]) {
        assert n < |front| ==> OfBase(jobs, front[n], before[n]) && front[n] == needs[n];
      }
    }
  }

  lemma NamesAppend(a: seq<JobConfig>, b: seq<JobConfig>)
    ensures Names(a + b) == Names(a) + Names(b)
  {
  }

  lemma {:induction false} OfBaseSelect(jobs: seq<JobConfig>, base: string) returns (ys: seq<JobConfig>)
    ensures OfBase(jobs, base, ys) && NamesOfBase(jobs, base) == Names(ys)
  {
    var keep := (other: JobConfig) => Base(other) == base;
    if jobs == [] {
      ys := [];
      SelectsNone(keep);
    } else {
      var front, last := jobs[..|jobs| - 1], Last(jobs);
      var before := OfBaseSelect(front, base);
      SelectsSnoc(front, before, last, keep);
      ys := before + if Base(last) == base then [last] else [];
      FrontLast(jobs);
      NamesSnoc(before, last);
      AppendNothing(before);
    }
  }

  ghost function DagGraph(jobs: seq<JobConfig>, stages: seq<string>): Digraph {
    map name | name in Names(jobs) :: DepsFor(DepsMap(jobs, stages, |jobs|), name)
  }

  /** An edge of the graph is one prepared job waiting for another. */
  lemma DagEdge(jobs: seq<JobConfig>, stages: seq<string>, a: string, b: string) returns (i: nat, k: nat)
    requires UniqueNames(jobs) && Edge(DagGraph(jobs, stages), a, b)
    ensures i < |jobs| && jobs[i].name == a
    ensures k < |jobs| && jobs[k].name == b
    ensures WaitsFor(StageIndex(stages), jobs[i], jobs[k])
  {
    i :| 0 <= i < |jobs| && Names(jobs)[i] == a;
    DepsMapExact(jobs, stages, |jobs|, i);
    DepsOfMeaning(jobs, StageIndex(stages), jobs[i], b);
    k :| 0 <= k < |jobs| && jobs[k].name == b && WaitsFor(StageIndex(stages), jobs[i], jobs[k]);
  }

  // ---- The waits cannot deadlock ---------------------------------------------

  /** What decoding gives: one job per name, no variant among them, no matrix on a job named "". */
  ghost predicate Decoded(cfgJobs: seq<JobConfig>) {
    && UniqueNames(cfgJobs)
    && (forall k :: 0 <= k < |cfgJobs| ==> cfgJobs[k].matrixGroup == "")
    && (forall k :: 0 <= k < |cfgJobs| && cfgJobs[k].name == "" ==> cfgJobs[k].matrix == [])
  }

  /** Later stages rank higher; within a stage, so does a later job of the needs order. */
  ghost function JobRank(idx: map<string, nat>, order: seq<string>, p: JobConfig): nat {
    StageAt(idx, p.stage) * (|order| + 1) + OrderRank(order)(Base(p))
  }

  ghost function NameRank(jobs: seq<JobConfig>, idx: map<string, nat>, order: seq<string>): string -> nat {
    name => if name in Names(jobs) then JobRank(idx, order, jobs[IndexOf(Names(jobs), name)]) else 0
  }

  lemma WaitLowersRank(cfgJobs: seq<JobConfig>, stages: seq<string>, order: seq<string>,
                       p: JobConfig, c: nat, q: JobConfig, d: nat)
    requires Decoded(cfgJobs) && RefsOk(stages, cfgJobs) && IsTopologicalOrder(NeedsGraph(cfgJobs), order)
    requires c < |cfgJobs| && ComesFrom(p, cfgJobs[c])
    requires d < |cfgJobs| && ComesFrom(q, cfgJobs[d])
    requires WaitsFor(StageIndex(stages), p, q)
    ensures JobRank(StageIndex(stages), order, q) < JobRank(StageIndex(stages), order, p)
  {
    var idx, pn, qn := StageIndex(stages), cfgJobs[c].name, cfgJobs[d].name;
    ByNameExact(cfgJobs);
    assert Base(p) == pn && Base(q) == qn;
    assert pn in Elements(order) && qn in Elements(order);
    if p.needs != [] {
      NeedComesEarlier(cfgJobs, stages, order, c, d);
    }
    RankSteps(StageAt(idx, q.stage), StageAt(idx, p.stage), |order| + 1, OrderRank(order)(qn), OrderRank(order)(pn));
  }

  /** A need is of no later stage, and before the job in the topological order. */
  lemma NeedComesEarlier(cfgJobs: seq<JobConfig>, stages: seq<string>, order: seq<string>, c: nat, d: nat)
    requires UniqueNames(cfgJobs) && RefsOk(stages, cfgJobs) && IsTopologicalOrder(NeedsGraph(cfgJobs), order)
    requires c < |cfgJobs| && d < |cfgJobs| && cfgJobs[d].name in cfgJobs[c].needs
    ensures StageAt(StageIndex(stages), cfgJobs[d].stage) <= StageAt(StageIndex(stages), cfgJobs[c].stage)
    ensures OrderRank(order)(cfgJobs[d].name) < OrderRank(order)(cfgJobs[c].name)
  {
    ByNameExact(cfgJobs);
    var k :| 0 <= k < |cfgJobs[c].needs| && cfgJobs[c].needs[k] == cfgJobs[d].name;
    assert RefError(ByName(cfgJobs), StageIndex(stages), cfgJobs[c], cfgJobs[c].needs[k]).None?;
    assert Edge(NeedsGraph(cfgJobs), cfgJobs[c].name, cfgJobs[d].name);
    TopologicalRank(NeedsGraph(cfgJobs), order);
  }

  lemma NameRankAt(jobs: seq<JobConfig>, idx: map<string, nat>, order: seq<string>, i: nat)
    requires UniqueNames(jobs) && i < |jobs|
    ensures NameRank(jobs, idx, order)(jobs[i].name) == JobRank(idx, order, jobs[i])
  {
    assert Names(jobs)[i] == jobs[i].name;
    assert IndexOf(Names(jobs), jobs[i].name) == i;
  }

  lemma EdgeLowersRank(cfgJobs: seq<JobConfig>, stages: seq<string>, prepared: seq<JobConfig>, order: seq<string>,
                       a: string, b: string)
    requires Decoded(cfgJobs) && RefsOk(stages, cfgJobs) && IsTopologicalOrder(NeedsGraph(cfgJobs), order)
    requires PreparedFrom(prepared, cfgJobs) && UniqueNames(prepared) && Edge(DagGraph(prepared, stages), a, b)
    ensures b in DagGraph(prepared, stages)
    ensures NameRank(prepared, StageIndex(stages), order)(b) < NameRank(prepared, StageIndex(stages), order)(a)
  {
    var idx := StageIndex(stages);
    var i, k := DagEdge(prepared, stages, a, b);
    assert Names(prepared)[k] == b;
    NameRankAt(prepared, idx, order, i);
    NameRankAt(prepared, idx, order, k);
    var c :| 0 <= c < |cfgJobs| && ComesFrom(prepared[i], cfgJobs[c]);
    var d :| 0 <= d < |cfgJobs| && ComesFrom(prepared[k], cfgJobs[d]);
    WaitLowersRank(cfgJobs, stages, order, prepared[i], c, prepared[k], d);
  }

  /** For every accepted configuration and every selection with distinct prepared names,
      the graph the runner waits on is closed and acyclic. */
  lemma DagAcyclic(cfgJobs: seq<JobConfig>, stages: seq<string>, prepared: seq<JobConfig>)
    requires Decoded(cfgJobs) && NeedsAccepted(stages, cfgJobs)
    requires PreparedFrom(prepared, cfgJobs) && UniqueNames(prepared)
    ensures ClosedGraph(DagGraph(prepared, stages))
    ensures exists rank: string -> nat :: RanksDown(DagGraph(prepared, stages), rank)
    ensures Acyclic(DagGraph(prepared, stages))
  {
    var order :| IsTopologicalOrder(NeedsGraph(cfgJobs), order);
    var g, rank := DagGraph(prepared, stages), NameRank(prepared, StageIndex(stages), order);
    forall a, b | Edge(g, a, b) ensures b in g && rank(b) < rank(a) {
      EdgeLowersRank(cfgJobs, stages, prepared, order, a, b);
    }
    assert RanksDown(g, rank);
    RankedIsAcyclic(g, rank);
  }
}
