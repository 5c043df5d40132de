/** Decoded configuration values: what a configuration file holds after parsing. */
module ConfigModel {
  import opened Basics
  import opened Listing

  datatype Image = Image(name: string, forcePull: bool)
  datatype Credentials = Credentials(username: string, password: string, usernameEnv: string, passwordEnv: string)
  datatype Cache = Cache(key: string, paths: seq<string>)
  datatype Network = Network(hostAccess: bool, hostMode: bool)
  /** A `run` list with a timeout: bootstrap and cleanup, global or per job. */
  datatype Hook = Hook(run: seq<string>, timeout: int)
  datatype Ready = Ready(command: string, timeout: int)
  datatype Service = Service(image: Image, alias: string, variables: map<string, string>, ready: Option<Ready>)
  datatype Artifacts = Artifacts(paths: seq<string>)
  datatype Provider = Provider(url: string, projectId: int, token: string)

  type Variables = map<string, string>
  type Registries = map<string, Credentials>
  type MatrixEntry = map<string, seq<string>>

  /** A job. A nil pointer or nil map of the source is None; a nil list is empty. */
  datatype JobConfig = JobConfig(
    name: string,
    image: Image,
    registries: Option<Registries>,
    script: seq<string>,
    stage: string,
    workdir: string,
    variables: Option<Variables>,
    cache: Option<Cache>,
    network: Option<Network>,
    jobBootstrap: Option<Hook>,
    jobCleanup: Option<Hook>,
    parallel: Option<bool>,
    matrix: seq<MatrixEntry>,
    matrixGroup: string,
    extendsList: seq<string>,
    timeout: int,
    retry: int,
    services: seq<Service>,
    artifacts: Option<Artifacts>,
    needs: seq<string>)
  {
    predicate IsParallel() {
      parallel == Some(true)
    }
  }

  const ZeroJob := JobConfig(
    "", Image("", false), None, [], "", "", None, None, None, None, None, None,
    [], "", [], 0, 0, [], None, [])

  function Names(jobs: seq<JobConfig>): (names: seq<string>)
    ensures |names| == |jobs|
    ensures forall i :: 0 <= i < |jobs| ==> names[i] == jobs[i].name
  {
    seq(|jobs|, i requires 0 <= i < |jobs| => jobs[i].name)
  }

  lemma NamesSnoc(jobs: seq<JobConfig>, j: JobConfig)
    ensures Names(jobs + [j]) == Names(jobs) + [j.name]
  {
  }

  ghost predicate UniqueNames(jobs: seq<JobConfig>) {
    Distinct(Names(jobs))
  }

  /** Position of each stage in the declared list; a repeated stage keeps its last position. */
  function StageIndex(stages: seq<string>): map<string, nat> {
    if stages == [] then map[] else StageIndex(stages[..|stages| - 1])[Last(stages) := |stages| - 1]
  }

  /** The index holds each listed stage at its last position, and nothing else. */
  lemma {:induction false} StageIndexIsLast(stages: seq<string>, s: string)
    ensures s in StageIndex(stages) <==> s in stages
    ensures forall a :: LastAt(stages, a, s) ==> s in StageIndex(stages) && StageIndex(stages)[s] == a
  {
    if stages != [] {
      var n := |stages| - 1;
      StageIndexIsLast(stages[..n], s);
      FrontLast(stages);
      forall a | LastAt(stages, a, s) ensures a < n ==> LastAt(stages[..n], a, s) {
      }
    }
  }

  /** Reading a Go map of ints: a missing stage has position 0. */
  function StageAt(idx: map<string, nat>, stage: string): nat {
    if stage in idx then idx[stage] else 0
  }

  method IndexStages(stages: seq<string>) returns (idx: map<string, nat>)
    ensures idx == StageIndex(stages)
  {
    idx := map[];
    for i := 0 to |stages|
      invariant idx == StageIndex(stages[..i])
    {
      idx := idx[stages[i] := i];
      assert stages[..i + 1][..i] == stages[..i];
    }
    assert stages[..|stages|] == stages;
  }

  /** Jobs by name; a repeated name keeps the last job. */
  function ByName(jobs: seq<JobConfig>): map<string, JobConfig> {
    if jobs == [] then map[] else ByName(jobs[..|jobs| - 1])[Last(jobs).name := Last(jobs)]
  }

  lemma {:induction false} ByNameKnows(jobs: seq<JobConfig>)
    ensures forall i :: 0 <= i < |jobs| ==> jobs[i].name in ByName(jobs)
    ensures forall n :: n in ByName(jobs) ==> ByName(jobs)[n] in jobs && ByName(jobs)[n].name == n
  {
    if jobs != [] {
      ByNameKnows(jobs[..|jobs| - 1]);
      forall i | 0 <= i < |jobs| ensures jobs[i].name in ByName(jobs) {
        if i < |jobs| - 1 {
          assert jobs[..|jobs| - 1][i] == jobs[i];
        }
      }
    }
  }

  /** The lookup finds the last job of a name. */
  lemma {:induction false} ByNameIsLast(jobs: seq<JobConfig>, name: string)
    ensures name in ByName(jobs) <==> name in Names(jobs)
    ensures forall k :: LastAt(Names(jobs), k, name) ==> name in ByName(jobs) && ByName(jobs)[name] == jobs[k]
  {
    if jobs != [] {
      var n := |jobs| - 1;
      var front := jobs[..n];
      ByNameIsLast(front, name);
      FrontLast(jobs);
      NamesSnoc(front, jobs[n]);
      forall k | LastAt(Names(jobs), k, name) ensures name in ByName(jobs) && ByName(jobs)[name] == jobs[k] {
        LastInFront(Names(front), jobs[n].name, k, name);
        assert k < n ==> front[k] == jobs[k];
      }
    }
  }

  /** With unique names, the lookup finds each job itself. */
  lemma {:induction false} ByNameExact(jobs: seq<JobConfig>)
    requires UniqueNames(jobs)
    ensures forall i :: 0 <= i < |jobs| ==> jobs[i].name in ByName(jobs) && ByName(jobs)[jobs[i].name] == jobs[i]
  {
    ByNameKnows(jobs);
    forall i | 0 <= i < |jobs| ensures ByName(jobs)[jobs[i].name] == jobs[i] {
      var j :| 0 <= j < |jobs| && jobs[j] == ByName(jobs)[jobs[i].name];
      assert Names(jobs)[i] == Names(jobs)[j];
    }
  }

  method IndexJobs(jobs: seq<JobConfig>) returns (byName: map<string, JobConfig>)
    ensures byName == ByName(jobs)
  {
    byName := map[];
    for i := 0 to |jobs|
      invariant byName == ByName(jobs[..i])
    {
      byName := byName[jobs[i].name := jobs[i]];
      assert jobs[..i + 1][..i] == jobs[..i];
    }
    assert jobs[..|jobs|] == jobs;
  }

  /** A decoded configuration file, or the merge of several. */
  datatype ConfigData = ConfigData(
    stages: seq<string>,
    jobs: seq<JobConfig>,
    globals: Option<Variables>,
    provider: Option<Provider>,
    registries: Option<Registries>,
    bootstrap: Option<Hook>,
    cleanup: Option<Hook>,
    includes: seq<string>)

  /** The configuration object the loader fills and rewrites in place. */
  class Config {
    var stages: seq<string>
    var jobs: seq<JobConfig>
    var globals: Option<Variables>
    var provider: Option<Provider>
    var registries: Option<Registries>
    var bootstrap: Option<Hook>
    var cleanup: Option<Hook>
    var includes: seq<string>

    constructor (data: ConfigData)
      ensures Value() == data
    {
      stages, jobs, globals, provider := data.stages, data.jobs, data.globals, data.provider;
      registries, bootstrap, cleanup, includes := data.registries, data.bootstrap, data.cleanup, data.includes;
    }

    ghost function Value(): ConfigData
      reads this
    {
      ConfigData(stages, jobs, globals, provider, registries, bootstrap, cleanup, includes)
    }
  }
}
