/** Why a job named "" that extends an ordinary job is excluded: it comes to bear that job's name. */
module UnnamedExtends {
  import opened Basics
  import opened Graph
  import opened ConfigModel
  import opened Include
  import opened Extends
  import opened ExtendsInPlace
  import opened NeedsValidator
  import opened Prepare
  import opened DagRun
  import opened DagExact
  import opened DagTheorems
  import Pipeline

  const Heir := Runnable.(stage := "s2", extendsList := ["a"], needs := ["x"])
  const Between := Runnable.(name := "x", stage := "s2", needs := ["a"])
  const Ancestor := Runnable.(name := "a", stage := "s1")
  const HeirJobs := [Heir, Between, Ancestor]
  const HeirStages := ["s1", "s2"]

  const HeirFiles := Files(map["ci.yml" := ConfigData(HeirStages, HeirJobs, None, None, None, None, None, [])],
                           (name: string, from: string) => name)

  const HeirResolved := Heir.(name := "a", extendsList := [], workdir := "/")
  const HeirComposed := [HeirResolved, Between.(workdir := "/"), Ancestor.(workdir := "/")]

  lemma HeirLoads()
    ensures Load(HeirFiles, "ci.yml", true, {}) == Ok(HeirFiles.byPath["ci.yml"])
    ensures Pipeline.DecodedFiles(HeirFiles)
  {
    var rs := LoadIncluded(HeirFiles, "ci.yml", {} + {"ci.yml"});
    assert |Included(HeirFiles, "ci.yml")| == 0 && rs == [];
    assert Names(HeirJobs) == ["", "x", "a"];
  }

  /** Resolving the job named "" makes it a second "a", of the later stage. */
  lemma HeirResolves()
    ensures AfterFirst(HeirJobs, 1) == Ok([HeirResolved, Between, Ancestor])
  {
    var reg, chain := Registry(HeirJobs, HeirJobs), [] + [""];
    RegistryAt(HeirJobs, HeirJobs, 2);
    assert Parent(Heir, reg, chain, "a") == Ok(Ancestor);
    var parents := Parents(Heir, reg, chain);
    assert parents == [Ok(Ancestor)] && parents[..0] == [];
    assert Combine(parents) == Ok(Merge(ZeroJob, Ancestor));
    assert AfterFirst(HeirJobs, 0) == Ok(HeirJobs);
    assert HeirJobs[0 := HeirResolved] == [HeirResolved, Between, Ancestor];
  }

  const HeirOnce := [HeirResolved, Between, Ancestor]
  const HeirTwice := [HeirResolved, Between.(workdir := "/"), Ancestor]

  /** The others extend nothing: they only get the default working directory. */
  lemma OthersResolve()
    ensures AfterFirst(HeirJobs, 3) == Ok(HeirComposed)
  {
    HeirResolves();
    PlainRewrite(HeirJobs, HeirOnce, 1);
    AfterNext(HeirJobs, HeirOnce, 1);
    assert HeirOnce[1 := DefaultWorkdir(Between)] == HeirTwice;
    PlainRewrite(HeirJobs, HeirTwice, 2);
    AfterNext(HeirJobs, HeirTwice, 2);
    assert HeirTwice[2 := DefaultWorkdir(Ancestor)] == HeirComposed;
  }

  lemma HeirComposes()
    ensures Pipeline.Composed(HeirFiles, "ci.yml") == Some(HeirComposed)
  {
    HeirLoads();
    OthersResolve();
    NothingDropped(HeirComposed);
    assert HeirFiles.byPath["ci.yml"].jobs == HeirJobs && |HeirJobs| == 3;
  }

  lemma {:induction false} NothingDropped(jobs: seq<JobConfig>)
    requires forall j :: j in jobs ==> !IsTemplate(j.name)
    ensures NonTemplates(jobs) == jobs
  {
    if jobs != [] {
      NothingDropped(jobs[..|jobs| - 1]);
      FrontLast(jobs);
    }
  }

  /** By name, the second "a" stands for both. */
  lemma HeirNames()
    ensures ByName(HeirComposed) == map["x" := HeirComposed[1], "a" := HeirComposed[2]]
    ensures StageIndex(HeirStages) == map["s1" := 0, "s2" := 1]
  {
    var a, x := HeirComposed[0], HeirComposed[1];
    assert HeirComposed[..2] == [a, x] && [a, x][..1] == [a] && [a][..0] == [];
    assert ByName([a]) == map["a" := a] && ByName([a, x]) == map["a" := a, "x" := x];
    assert HeirStages[..1] == ["s1"] && ["s1"][..0] == [];
    assert StageIndex(["s1"]) == map["s1" := 0];
  }

  lemma HeirAccepted()
    ensures NeedsAccepted(HeirStages, HeirComposed)
  {
    HeirNames();
    HeirRefs();
    HeirOrder();
    assert NeedsGraph(HeirComposed) == map["x" := ["a"], "a" := []];
  }

  lemma HeirOrder()
    ensures IsTopologicalOrder(map["x" := ["a"], "a" := []], ["a", "x"])
  {
    assert ["a", "x"][..1] == ["a"];
  }

  lemma HeirRefs()
    ensures RefsOk(HeirStages, HeirComposed)
  {
    HeirNames();
    assert HeirComposed[0].needs == ["x"] && HeirComposed[1].needs == ["a"] && HeirComposed[2].needs == [];
  }

  const HeirPrepared := [HeirResolved.(variables := Some(map[])), Between.(workdir := "/", variables := Some(map[]))]

  lemma HeirPrepares(options: Options)
    requires options == Options([], ["s2"])
    ensures Prepared(HeirComposed, map[], HeirStages, options) == HeirPrepared
  {
    var populated := Populated(HeirComposed, map[]);
    var a, b, c := populated[0], populated[1], populated[2];
    assert populated[..2] == [a, b] && [a, b][..1] == [a] && [a][..0] == [];
    assert ByStages([a], options.stages) == [a];
    assert ByStages([a, b], options.stages) == [a, b];
    assert Selected(populated, HeirStages, options) == [a, b];
    var none: Variables := map[];
    assert none + none == none;
    assert ExpandedJobs([a]) == [a] && ExpandedJobs([a, b]) == [a, b];
  }

  lemma HeirIsPlain()
    ensures forall j :: j in HeirComposed ==> j.name != "" && j.matrix == []
  {
    assert HeirComposed == [HeirResolved, Between.(workdir := "/"), Ancestor.(workdir := "/")];
  }

  lemma HeirScheduled(inst: Instance)
    requires UniqueNames(HeirPrepared) && inst == DagInstance(HeirPrepared, HeirStages, inst.passes)
    requires inst.passes.Keys == Elements(Names(HeirPrepared))
    ensures UniqueNames(Prepared(HeirComposed, map[], HeirStages, Options([], ["s2"])))
    ensures Schedules(inst, HeirComposed, map[], HeirStages, Options([], ["s2"]))
  {
    HeirPrepares(Options([], ["s2"]));
  }

  /** From files to a run that waits forever, all jobs passing, without any matrix: two jobs are called "a",
      validation looks only at the second, and selecting stage s2 leaves only the first. */
  lemma UnnamedExtendsDeadlocks() returns (inst: Instance, steps: seq<Step>)
    ensures Pipeline.DecodedFiles(HeirFiles) && Pipeline.Composed(HeirFiles, "ci.yml") == Some(HeirComposed)
    ensures NeedsAccepted(HeirStages, HeirComposed)
    ensures forall j :: j in HeirComposed ==> j.name != "" && j.matrix == []
    ensures UniqueNames(Prepared(HeirComposed, map[], HeirStages, Options([], ["s2"])))
    ensures Schedules(inst, HeirComposed, map[], HeirStages, Options([], ["s2"])) && Stuck(inst, steps)
  {
    HeirLoads();
    HeirComposes();
    HeirAccepted();
    HeirIsPlain();
    inst, steps := HeirStuck();
    HeirScheduled(inst);
  }

  lemma HeirStuck() returns (inst: Instance, steps: seq<Step>)
    ensures UniqueNames(HeirPrepared) && inst == DagInstance(HeirPrepared, HeirStages, inst.passes)
    ensures inst.passes.Keys == Elements(Names(HeirPrepared))
    ensures Stuck(inst, steps)
  {
    var names := Names(HeirPrepared);
    assert names == ["a", "x"];
    MutualWait(HeirPrepared, HeirStages);
    var passes := map n | n in Elements(names) :: true;
    PreparedWellFormed(HeirPrepared, HeirStages, passes);
    inst := DagInstance(HeirPrepared, HeirStages, passes);
    steps := CyclesGetStuck(inst);
  }
}
