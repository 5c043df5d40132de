/** From configuration files to finished runs: include loading, extends resolution, validation,
    preparation and the DAG scheduler together. */
module Pipeline {
  import opened Basics
  import opened ConfigModel
  import opened Include
  import opened Extends
  import opened ExtendsInPlace
  import opened NeedsValidator
  import opened Prepare
  import DagDeps
  import opened DagRun
  import opened Graph
  import opened DagExact
  import opened DagTheorems

  /** No file can put a job into a matrix group. */
  ghost predicate Ungrouped(jobs: seq<JobConfig>) {
    forall i :: 0 <= i < |jobs| ==> jobs[i].matrixGroup == ""
  }

  /** What decoding gives: one job per name in each file, none in a matrix group. */
  ghost predicate DecodedFiles(fs: Files) {
    UniquePerFile(fs) && forall p :: p in fs.byPath ==> Ungrouped(fs.byPath[p].jobs)
  }

  // ---- Loading keeps decoded jobs ----------------------------------------------

  lemma {:induction false} AppendNewUngrouped(jobs: seq<JobConfig>, more: seq<JobConfig>)
    requires Ungrouped(jobs) && Ungrouped(more)
    ensures Ungrouped(AppendNew(jobs, more))
  {
    if more != [] {
      AppendNewUngrouped(jobs, more[..|more| - 1]);
    }
  }

  lemma {:induction false} MergeAllUngrouped(first: ConfigData, rs: seq<Result<ConfigData, LoadError>>)
    requires MergeAll(first, rs).Ok? && Ungrouped(first.jobs)
    requires forall i :: 0 <= i < |rs| && rs[i].Ok? ==> Ungrouped(rs[i].value.jobs)
    ensures Ungrouped(MergeAll(first, rs).value.jobs)
  {
    if rs != [] {
      var n := |rs| - 1;
      MergeAllUngrouped(first, rs[..n]);
      AppendNewUngrouped(MergeAll(first, rs[..n]).value.jobs, rs[n].value.jobs);
    }
  }

  lemma {:induction false} LoadedUngrouped(fs: Files, path: string, main: bool, inProgress: set<string>)
    requires DecodedFiles(fs) && Load(fs, path, main, inProgress).Ok?
    ensures Ungrouped(Load(fs, path, main, inProgress).value.jobs)
    decreases fs.byPath.Keys - inProgress
  {
    var children, chain := Included(fs, path), inProgress + {path};
    var rs := LoadIncluded(fs, path, chain);
    forall i | 0 <= i < |rs| && rs[i].Ok? ensures Ungrouped(rs[i].value.jobs) {
      assert rs[i] == Load(fs, children[i], false, chain);
      LoadedUngrouped(fs, children[i], false, chain);
    }
    MergeAllUngrouped(fs.byPath[path], rs);
  }

  /** The loaded jobs have distinct names and no group. */
  lemma LoadedJobs(fs: Files, path: string)
    requires DecodedFiles(fs) && Load(fs, path, true, {}).Ok?
    ensures UniqueNames(Load(fs, path, true, {}).value.jobs) && Ungrouped(Load(fs, path, true, {}).value.jobs)
  {
    LoadedUngrouped(fs, path, true, {});
    LoadIsFirstWins(fs, path, true, {});
    FirstWinsUnique(Precedence(fs, path, {}));
  }

  // ---- What extends resolution makes of them --------------------------------------

  lemma {:induction false} CombineNoGroup(parents: seq<Result<JobConfig, ExtendsError>>)
    requires Combine(parents).Ok?
    ensures Combine(parents).value.matrixGroup == ""
  {
    if parents != [] {
      CombineNoGroup(parents[..|parents| - 1]);
    }
  }

  lemma ResolvedNoGroup(job: JobConfig, reg: map<string, JobConfig>)
    requires Registered(reg) && job.matrixGroup == "" && Resolve(job, reg, []).Ok?
    ensures Resolve(job, reg, []).value.matrixGroup == ""
  {
    if job.extendsList != [] {
      CombineNoGroup(Parents(job, reg, [] + [job.name]));
    }
  }

  /** The name a job answers to after the pass. */
  ghost function NameAfter(job: JobConfig): string {
    if job.name == "" && job.extendsList != [] then Last(job.extendsList) else job.name
  }

  /** An entry after the pass: its name, no group, and its own matrix if it extends nothing. */
  lemma EntryAfter(jobs: seq<JobConfig>, done: seq<JobConfig>, k: nat)
    requires Ungrouped(jobs) && k < |jobs| == |done| && EntryAgrees(jobs, done, |jobs|, k)
    ensures done[k].matrixGroup == ""
    ensures done[k].name == if IsTemplate(jobs[k].name) then jobs[k].name else NameAfter(jobs[k])
    ensures jobs[k].extendsList == [] ==> done[k].matrix == jobs[k].matrix
    ensures NameAfter(jobs[k]) != jobs[k].name ==> NameAfter(jobs[k]) in Names(jobs)
  {
    if !IsTemplate(jobs[k].name) {
      NameKeptExactly(jobs[k], Untouched(jobs));
      ResolvedNoGroup(jobs[k], Untouched(jobs));
    }
  }

  // ---- Dropping the templates ------------------------------------------------------

  lemma {:induction false} NonTemplatesAreJobs(jobs: seq<JobConfig>)
    ensures forall j :: j in NonTemplates(jobs) <==> j in jobs && !IsTemplate(j.name)
  {
    if jobs != [] {
      NonTemplatesAreJobs(jobs[..|jobs| - 1]);
      assert jobs == jobs[..|jobs| - 1] + [Last(jobs)];
    }
  }

  /** Two positions are kept under one name. */
  ghost predicate Clash(jobs: seq<JobConfig>, i: int, k: int) {
    0 <= i < k < |jobs| && jobs[i].name == jobs[k].name && !IsTemplate(jobs[k].name)
  }

  lemma UniqueSnoc(jobs: seq<JobConfig>, j: JobConfig)
    ensures UniqueNames(jobs + [j]) <==> UniqueNames(jobs) && forall x :: x in jobs ==> x.name != j.name
  {
    var all := jobs + [j];
    assert Names(all) == Names(jobs) + [j.name];
    if UniqueNames(all) {
      forall x | x in jobs ensures x.name != j.name {
        var i :| 0 <= i < |jobs| && jobs[i] == x;
        assert Names(all)[i] != Names(all)[|jobs|];
      }
      assert forall i :: 0 <= i < |jobs| ==> Names(jobs)[i] == Names(all)[i];
    }
  }

  /** Without a clash, the kept jobs have distinct names. */
  lemma {:induction false} NoClashUnique(jobs: seq<JobConfig>)
    requires forall i, k :: !Clash(jobs, i, k)
    ensures UniqueNames(NonTemplates(jobs))
  {
    if jobs != [] {
      var n := |jobs| - 1;
      var front := jobs[..n];
      forall i, k ensures !Clash(front, i, k) {
        assert !Clash(jobs, i, k);
      }
      NoClashUnique(front);
      NonTemplatesAreJobs(front);
      UniqueSnoc(NonTemplates(front), jobs[n]);
      forall x | x in NonTemplates(front) ensures !IsTemplate(jobs[n].name) ==> x.name != jobs[n].name {
        var i :| 0 <= i < n && front[i] == x;
        assert !Clash(jobs, i, n);
      }
    }
  }

  lemma {:induction false} ClashIsKept(jobs: seq<JobConfig>, i: nat, k: nat)
    requires Clash(jobs, i, k)
    ensures !UniqueNames(NonTemplates(jobs))
  {
    var n := |jobs| - 1;
    var front := jobs[..n];
    var kept := NonTemplates(front);
    UniqueSnoc(kept, jobs[n]);
    assert NonTemplates(jobs) == if IsTemplate(jobs[n].name) then kept else kept + [jobs[n]] by {
      assert kept + [] == kept;
    }
    if k < n {
      ClashIsKept(front, i, k);
    } else {
      NonTemplatesAreJobs(front);
      assert front[i] in front && front[i] in kept;
    }
  }

  // ---- The whole way ---------------------------------------------------------------

  /** The jobs of a loaded and resolved configuration. */
  ghost function Composed(fs: Files, path: string): Option<seq<JobConfig>> {
    var loaded := Load(fs, path, true, {});
    if loaded.Err? then None
    else
      var done := AfterFirst(loaded.value.jobs, |loaded.value.jobs|);
      if done.Err? then None else Some(NonTemplates(done.value))
  }

  /** A job named "" has no matrix of its own, or vanishes as its last parent's namesake. */
  ghost predicate UnnamedHarmless(jobs: seq<JobConfig>) {
    forall k :: 0 <= k < |jobs| && jobs[k].name == "" ==>
      if jobs[k].extendsList == [] then jobs[k].matrix == [] else IsTemplate(Last(jobs[k].extendsList))
  }

  lemma HarmlessIsDecoded(jobs: seq<JobConfig>, done: seq<JobConfig>)
    requires UniqueNames(jobs) && Ungrouped(jobs) && ListAgrees(jobs, done, |jobs|) && UnnamedHarmless(jobs)
    ensures DagDeps.Decoded(NonTemplates(done))
  {
    forall k | 0 <= k < |jobs| && !IsTemplate(done[k].name)
      ensures done[k].name == jobs[k].name && done[k].matrixGroup == "" && (done[k].name == "" ==> done[k].matrix == [])
    {
      assert EntryAgrees(jobs, done, |jobs|, k);
      EntryAfter(jobs, done, k);
    }
    forall i, k ensures !Clash(done, i, k) {
      if 0 <= k < |jobs| {
        NameOnce(jobs, k);
      }
    }
    NoClashUnique(done);
    NonTemplatesAreJobs(done);
    forall j | j in NonTemplates(done) ensures j.matrixGroup == "" && (j.name == "" ==> j.matrix == []) {
      var k :| 0 <= k < |done| && done[k] == j;
    }
  }

  /** The job named "" keeps its own matrix if it extends nothing. */
  lemma MatrixStays(jobs: seq<JobConfig>, done: seq<JobConfig>, k: nat)
    requires Ungrouped(jobs) && ListAgrees(jobs, done, |jobs|) && k < |jobs|
    requires jobs[k].name == "" && jobs[k].extendsList == [] && jobs[k].matrix != []
    ensures !DagDeps.Decoded(NonTemplates(done))
  {
    assert EntryAgrees(jobs, done, |jobs|, k);
    EntryAfter(jobs, done, k);
    NonTemplatesAreJobs(done);
    assert done[k] in done && done[k] in NonTemplates(done);
  }

  /** Otherwise it takes its last parent's name, which is then kept twice unless it is a template's. */
  lemma ParentClashes(jobs: seq<JobConfig>, done: seq<JobConfig>, k: nat)
    requires Ungrouped(jobs) && ListAgrees(jobs, done, |jobs|) && k < |jobs|
    requires jobs[k].name == "" && jobs[k].extendsList != [] && !IsTemplate(Last(jobs[k].extendsList))
    ensures !DagDeps.Decoded(NonTemplates(done))
  {
    assert EntryAgrees(jobs, done, |jobs|, k);
    EntryAfter(jobs, done, k);
    NameKeptExactly(jobs[k], Untouched(jobs));
    var m := IndexOf(Names(jobs), NameAfter(jobs[k]));
    assert EntryAgrees(jobs, done, |jobs|, m);
    EntryAfter(jobs, done, m);
    ClashIsKept(done, if k < m then k else m, if k < m then m else k);
  }

  /** Whatever files are composed, the jobs are as the scheduler's theorems need them exactly when no job
      named "" does harm. */
  lemma ComposedIsDecoded(fs: Files, path: string)
    requires DecodedFiles(fs) && Composed(fs, path).Some?
    ensures DagDeps.Decoded(Composed(fs, path).value) <==> UnnamedHarmless(Load(fs, path, true, {}).value.jobs)
  {
    var jobs := Load(fs, path, true, {}).value.jobs;
    var done := AfterFirst(jobs, |jobs|).value;
    LoadedJobs(fs, path);
    InPlaceAgrees(jobs, |jobs|);
    if UnnamedHarmless(jobs) {
      HarmlessIsDecoded(jobs, done);
    } else {
      var k :| 0 <= k < |jobs| && jobs[k].name == "" &&
               !(if jobs[k].extendsList == [] then jobs[k].matrix == [] else IsTemplate(Last(jobs[k].extendsList)));
      if jobs[k].extendsList == [] {
        MatrixStays(jobs, done, k);
      } else {
        ParentClashes(jobs, done, k);
      }
    }
  }

  /** Once composing and validating succeed and no job named "" does harm, every DAG run of every selection
      with distinct prepared names is bounded and never stuck. `stages` is the list after placeholders. */
  lemma ComposedRunsFinish(inst: Instance, fs: Files, path: string, globals: Variables, stages: seq<string>,
                           options: Options)
    requires DecodedFiles(fs) && Composed(fs, path).Some? && UnnamedHarmless(Load(fs, path, true, {}).value.jobs)
    requires NeedsAccepted(stages, Composed(fs, path).value)
    requires UniqueNames(Prepared(Composed(fs, path).value, globals, stages, options))
    requires Schedules(inst, Composed(fs, path).value, globals, stages, options)
    ensures AlwaysFinishes(inst)
  {
    ComposedIsDecoded(fs, path);
    AcceptedRunsFinish(inst, Composed(fs, path).value, globals, stages, options);
  }
}
