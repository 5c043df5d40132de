/** Resolving every job while overwriting the list the registry points into:
    `resolveAllExtends` of internal/config/extends.go, against resolution from the untouched list. */
module ExtendsInPlace {
  import opened Basics
  import opened Graph
  import opened ConfigModel
  import opened Listing
  import opened Explore
  import opened Extends

  function DefaultWorkdir(job: JobConfig): JobConfig {
    if job.workdir == "" then job.(workdir := "/") else job
  }

  function NonTemplates(jobs: seq<JobConfig>): seq<JobConfig> {
    if jobs == [] then []
    else NonTemplates(jobs[..|jobs| - 1]) + if IsTemplate(Last(jobs).name) then [] else [Last(jobs)]
  }

  /** Dropping templates keeps the order of the other jobs. */
  lemma {:induction false} NonTemplatesSelect(jobs: seq<JobConfig>)
    ensures Selects(jobs, NonTemplates(jobs), (j: JobConfig) => !IsTemplate(j.name))
  {
    var keep := (j: JobConfig) => !IsTemplate(j.name);
    if jobs == [] {
      SelectsNone(keep);
    } else {
      var front := jobs[..|jobs| - 1];
      NonTemplatesSelect(front);
      SelectsSnoc(front, NonTemplates(front), Last(jobs), keep);
      FrontLast(jobs);
    }
  }

  /** A list in the middle of the pass: an entry keeps its name or extends nothing any more. */
  ghost predicate Slotted(was: seq<JobConfig>, cur: seq<JobConfig>) {
    |cur| == |was| && forall i :: 0 <= i < |was| ==> cur[i].name == was[i].name || cur[i].extendsList == []
  }

  /** The registry built from `was`, read when the list has become `cur`: it points at positions. */
  ghost function Registry(was: seq<JobConfig>, cur: seq<JobConfig>): (reg: map<string, JobConfig>)
    requires |cur| == |was|
    ensures reg.Keys == Elements(Names(was))
    ensures Slotted(was, cur) ==> Registered(reg)
  {
    map k | k in Names(was) :: cur[IndexOf(Names(was), k)]
  }

  ghost function Untouched(jobs: seq<JobConfig>): (reg: map<string, JobConfig>)
    ensures Keyed(reg)
  {
    Registry(jobs, jobs)
  }

  /** The list after its `i`-th job was resolved against it and overwritten; templates stay. */
  ghost function Rewritten(was: seq<JobConfig>, cur: seq<JobConfig>, i: nat): (r: Result<seq<JobConfig>, ExtendsError>)
    requires Slotted(was, cur) && i < |cur|
    ensures r.Ok? ==> Slotted(was, r.value)
  {
    if IsTemplate(cur[i].name) then Ok(cur)
    else
      var job := Resolve(cur[i], Registry(was, cur), []);
      if job.Err? then Err(job.error) else Ok(cur[i := DefaultWorkdir(job.value)])
  }

  /** The list after the first `n` jobs, each resolved against the list as it then stood. */
  ghost function AfterFirst(jobs: seq<JobConfig>, n: nat): (r: Result<seq<JobConfig>, ExtendsError>)
    requires n <= |jobs|
    ensures r.Ok? ==> Slotted(jobs, r.value)
  {
    if n == 0 then Ok(jobs)
    else
      var before := AfterFirst(jobs, n - 1);
      if before.Err? then before else Rewritten(jobs, before.value, n - 1)
  }

  lemma AfterNext(jobs: seq<JobConfig>, cur: seq<JobConfig>, n: nat)
    requires n < |jobs| && AfterFirst(jobs, n) == Ok(cur)
    ensures AfterFirst(jobs, n + 1) == Rewritten(jobs, cur, n)
  {
  }

  /** A template is left alone; a job that extends nothing only gets the default working directory. */
  lemma PlainRewrite(was: seq<JobConfig>, cur: seq<JobConfig>, i: nat)
    requires Slotted(was, cur) && i < |cur| && (IsTemplate(cur[i].name) || cur[i].extendsList == [])
    ensures Rewritten(was, cur, i) == Ok(if IsTemplate(cur[i].name) then cur else cur[i := DefaultWorkdir(cur[i])])
  {
  }

  // ---- The method --------------------------------------------------------------

  /** The registry is built once, as positions; reading it later sees the jobs as they are by then. */
  method ResolveAllExtends(cfg: Config) returns (r: Option<ExtendsError>)
    requires UniqueNames(cfg.jobs)
    modifies cfg`jobs
    ensures match AfterFirst(old(cfg.jobs), |old(cfg.jobs)|)
            case Err(e) => r == Some(e)
            case Ok(done) => r.None? && cfg.jobs == NonTemplates(done)
  {
    ghost var was := cfg.jobs;
    var positions := IndexPositions(cfg.jobs);
    for i := 0 to |cfg.jobs|
      invariant |cfg.jobs| == |was| && AfterFirst(was, i) == Ok(cfg.jobs)
    {
      r := ResolveAt(cfg, i, positions, was);
      if r.Some? {
        StaysFailed(was, i + 1, |was|);
        return;
      }
    }
    var kept := DropTemplates(cfg.jobs);
    cfg.jobs := kept;
    r := None;
  }

  method IndexPositions(jobs: seq<JobConfig>) returns (positions: map<string, nat>)
    requires UniqueNames(jobs)
    ensures Positions(jobs, |jobs|, positions)
  {
    positions := map[];
    for i := 0 to |jobs|
      invariant Positions(jobs, i, positions)
    {
      NameOnce(jobs, i);
      positions := positions[jobs[i].name := i];
    }
  }

  /** Resolves one job and overwrites it. */
  method ResolveAt(cfg: Config, i: nat, positions: map<string, nat>, ghost was: seq<JobConfig>)
      returns (r: Option<ExtendsError>)
    requires i < |was| == |cfg.jobs| && UniqueNames(was) && Positions(was, |was|, positions)
    requires AfterFirst(was, i) == Ok(cfg.jobs)
    modifies cfg`jobs
    ensures AfterFirst(was, i + 1) == if r.Some? then Err(r.value) else Ok(cfg.jobs)
    ensures |cfg.jobs| == |was|
  {
    var job := cfg.jobs[i];
    if IsTemplate(job.name) {
      return None;
    }
    var reg := map k | k in positions && positions[k] < |cfg.jobs| :: cfg.jobs[positions[k]];
    PositionsAreRegistry(was, cfg.jobs, positions);
    var resolved := ResolveJob(job, reg, []);
    if resolved.Err? {
      return Some(resolved.error);
    }
    cfg.jobs := cfg.jobs[i := DefaultWorkdir(resolved.value)];
    return None;
  }

  method DropTemplates(jobs: seq<JobConfig>) returns (kept: seq<JobConfig>)
    ensures kept == NonTemplates(jobs)
  {
    kept := [];
    for i := 0 to |jobs|
      invariant kept == NonTemplates(jobs[..i])
    {
      assert jobs[..i + 1][..i] == jobs[..i];
      if !IsTemplate(jobs[i].name) {
        kept := kept + [jobs[i]];
      }
    }
    assert jobs[..|jobs|] == jobs;
  }

  ghost predicate Positions(jobs: seq<JobConfig>, n: nat, positions: map<string, nat>)
    requires n <= |jobs|
  {
    && (forall k :: k in positions ==> positions[k] < n && jobs[positions[k]].name == k)
    && (forall i :: 0 <= i < n ==> jobs[i].name in positions)
  }

  lemma NameOnce(jobs: seq<JobConfig>, i: nat)
    requires UniqueNames(jobs) && i < |jobs|
    ensures forall k :: 0 <= k < |jobs| && jobs[k].name == jobs[i].name ==> k == i
    ensures IndexOf(Names(jobs), jobs[i].name) == i
  {
    assert forall k :: 0 <= k < |jobs| ==> Names(jobs)[k] == jobs[k].name;
  }

  /** Dereferencing the positions reads the registry. */
  lemma PositionsAreRegistry(was: seq<JobConfig>, jobs: seq<JobConfig>, positions: map<string, nat>)
    requires |jobs| == |was| && UniqueNames(was) && Positions(was, |was|, positions)
    ensures (map k | k in positions && positions[k] < |jobs| :: jobs[positions[k]]) == Registry(was, jobs)
  {
    var names := Names(was);
    forall k ensures k in positions <==> k in names {
      if k in names {
        assert was[IndexOf(names, k)].name == k;
      }
      if k in positions {
        assert names[positions[k]] == k;
      }
    }
    forall k | k in positions ensures IndexOf(names, k) == positions[k] {
      NameOnce(was, positions[k]);
    }
  }

  lemma {:induction false} StaysFailed(jobs: seq<JobConfig>, m: nat, n: nat)
    requires m <= n <= |jobs| && AfterFirst(jobs, m).Err?
    ensures AfterFirst(jobs, n).Err? && AfterFirst(jobs, n).error == AfterFirst(jobs, m).error
  {
    if m < n {
      StaysFailed(jobs, m, n - 1);
    }
  }

  lemma KeepsName(job: JobConfig, reg: map<string, JobConfig>, seen: seq<string>)
    requires Registered(reg) && job.name != "" && Resolve(job, reg, seen).Ok?
    ensures Resolve(job, reg, seen).value.name == job.name
  {
  }

  /** Resolution keeps a job's name exactly when the job has one or extends nothing: the job named ""
      answers to its last parent's name afterwards, a template's included. */
  lemma NameKeptExactly(job: JobConfig, reg: map<string, JobConfig>)
    requires Keyed(reg) && Resolve(job, reg, []).Ok?
    ensures Resolve(job, reg, []).value.name == job.name <==> job.name != "" || job.extendsList == []
    ensures job.name == "" && job.extendsList != [] ==>
              Last(job.extendsList) in reg && Last(job.extendsList) != "" &&
              Resolve(job, reg, []).value.name == Last(job.extendsList)
  {
    if job.name == "" && job.extendsList != [] {
      var chain := [] + [job.name];
      var parents, target := Parents(job, reg, chain), Last(job.extendsList);
      CombineAllOk(parents);
      assert Last(parents).Ok? && Last(parents) == Parent(job, reg, chain, target);
      SeenIsRefused(reg[target], reg, chain);
      KeepsName(reg[target], reg, chain);
    }
  }

  lemma SeenIsRefused(job: JobConfig, reg: map<string, JobConfig>, seen: seq<string>)
    requires Registered(reg)
    ensures Resolve(job, reg, seen).Ok? ==> job.name !in seen
  {
  }

  // ---- Agreement with the untouched registry -------------------------------------

  ghost predicate SameButWorkdir(a: JobConfig, b: JobConfig) {
    a.(workdir := "") == b.(workdir := "")
  }

  lemma MergeSameButWorkdir(a: JobConfig, a': JobConfig, b: JobConfig, b': JobConfig)
    requires SameButWorkdir(a, a') && SameButWorkdir(b, b')
    ensures SameButWorkdir(Merge(a, b), Merge(a', b'))
  {
  }

  /** A resolvable job resolves to the same value through any chain that lets it. */
  lemma ResolveAnyChain(job: JobConfig, reg: map<string, JobConfig>, seen: seq<string>, seen': seq<string>)
    requires Keyed(reg) && job.name in reg && reg[job.name] == job
    requires Elements(seen) <= reg.Keys && Elements(seen') <= reg.Keys
    requires Resolve(job, reg, seen).Ok? && Resolve(job, reg, seen').Ok?
    ensures Resolve(job, reg, seen) == Resolve(job, reg, seen')
  {
    ResolveMatchesVisit(job, reg, seen);
    ResolveMatchesVisit(job, reg, seen');
    LinearChain(reg, job.name, Elements(seen), Elements(seen'));
    ResolvedAsOverlay(job, reg, seen);
    ResolvedAsOverlay(job, reg, seen');
  }

  /** An entry of `reg`: that of `reg0`, or what it resolves to there, up to the working directory. */
  ghost predicate EntryPatched(reg0: map<string, JobConfig>, reg: map<string, JobConfig>, k: string)
    requires Keyed(reg0) && k in reg0 && k in reg
  {
    reg[k] == reg0[k] || Replaced(reg0, reg, k)
  }

  ghost predicate Replaced(reg0: map<string, JobConfig>, reg: map<string, JobConfig>, k: string)
    requires Keyed(reg0) && k in reg0 && k in reg
  {
    && reg[k].extendsList == [] && Resolve(reg0[k], reg0, []).Ok?
    && SameButWorkdir(reg[k], Resolve(reg0[k], reg0, []).value)
  }

  ghost predicate Patched(reg0: map<string, JobConfig>, reg: map<string, JobConfig>) {
    && Keyed(reg0) && Registered(reg) && reg.Keys == reg0.Keys
    && forall k :: k in reg0 ==> EntryPatched(reg0, reg, k)
  }

  ghost predicate SameResult(a: Result<JobConfig, ExtendsError>, b: Result<JobConfig, ExtendsError>) {
    a.Ok? && b.Ok? ==> SameButWorkdir(a.value, b.value)
  }

  lemma {:induction false} PatchedAgrees(name: string, reg0: map<string, JobConfig>, reg: map<string, JobConfig>,
                                         seen: seq<string>)
    requires Patched(reg0, reg) && name in reg0 && Elements(seen) <= reg0.Keys
    ensures SameResult(Resolve(reg[name], reg, seen), Resolve(reg0[name], reg0, seen))
    decreases Room(reg0, reg0[name], seen)
  {
    assert EntryPatched(reg0, reg, name);
    if Replaced(reg0, reg, name) {
      if Resolve(reg0[name], reg0, seen).Ok? {
        ResolveAnyChain(reg0[name], reg0, seen, []);
      }
    } else if reg0[name].extendsList != [] && name !in seen {
      var job, chain := reg0[name], seen + [name];
      RoomShrinks(reg0, job, seen);
      forall i | 0 <= i < |job.extendsList|
        ensures SameResult(Parents(job, reg, chain)[i], Parents(job, reg0, chain)[i])
      {
        if job.extendsList[i] in reg0 {
          RoomSame(reg0, job, job.extendsList[i], chain);
          PatchedAgrees(job.extendsList[i], reg0, reg, chain);
        }
      }
      CombineSame(Parents(job, reg, chain), Parents(job, reg0, chain));
      JobFollowsParents(job, reg0, reg, seen);
    }
  }

  lemma JobFollowsParents(job: JobConfig, reg0: map<string, JobConfig>, reg: map<string, JobConfig>, seen: seq<string>)
    requires Registered(reg0) && Registered(reg) && job.extendsList != [] && job.name !in seen
    requires SameResult(Combine(Parents(job, reg, seen + [job.name])), Combine(Parents(job, reg0, seen + [job.name])))
    ensures SameResult(Resolve(job, reg, seen), Resolve(job, reg0, seen))
  {
    var a, b := Combine(Parents(job, reg, seen + [job.name])), Combine(Parents(job, reg0, seen + [job.name]));
    if a.Ok? && b.Ok? {
      MergeSameButWorkdir(a.value, b.value, job, job);
    }
  }

  lemma {:induction false} CombineSame(ps: seq<Result<JobConfig, ExtendsError>>,
                                       qs: seq<Result<JobConfig, ExtendsError>>)
    requires |ps| == |qs| && forall i :: 0 <= i < |ps| ==> SameResult(ps[i], qs[i])
    ensures SameResult(Combine(ps), Combine(qs))
  {
    if ps != [] {
      var n := |ps| - 1;
      CombineSame(ps[..n], qs[..n]);
      var a, b := Combine(ps[..n]), Combine(qs[..n]);
      if a.Ok? && b.Ok? && ps[n].Ok? && qs[n].Ok? {
        MergeSameButWorkdir(a.value, b.value, ps[n].value, qs[n].value);
      }
    }
  }

  /** The graph of a patched registry is the original one, cut at resolved entries. */
  lemma PatchedIsCut(reg0: map<string, JobConfig>, reg: map<string, JobConfig>) returns (done: set<string>)
    requires Patched(reg0, reg)
    ensures ExtendsGraph(reg) == Cut(ExtendsGraph(reg0), done)
    ensures forall d :: d in done ==> d in reg0 && Replaced(reg0, reg, d) && Sound(ExtendsGraph(reg0), d)
  {
    done := set k | k in reg0 && Replaced(reg0, reg, k);
    forall k | k in reg0 ensures reg[k].extendsList == if k in done then [] else reg0[k].extendsList {
      assert EntryPatched(reg0, reg, k);
    }
    CutGraph(reg0, reg, done);
    forall d | d in done ensures Sound(ExtendsGraph(reg0), d) {
      ResolveExact(reg0[d], reg0);
    }
  }

  lemma CutGraph(reg0: map<string, JobConfig>, reg: map<string, JobConfig>, done: set<string>)
    requires reg.Keys == reg0.Keys
    requires forall k :: k in reg0 ==> reg[k].extendsList == if k in done then [] else reg0[k].extendsList
    ensures ExtendsGraph(reg) == Cut(ExtendsGraph(reg0), done)
  {
  }

  /** The job named "" may by now answer to its last parent's name; a way back from there would be a cycle. */
  lemma PatchedIsHarmless(reg0: map<string, JobConfig>, reg: map<string, JobConfig>)
    requires Patched(reg0, reg)
    ensures Harmless(reg)
  {
    var g0 := ExtendsGraph(reg0);
    var done := PatchedIsCut(reg0, reg);
    forall k | k in reg && reg[k].name != k
      ensures reg[k].extendsList == [] && !Reaches(ExtendsGraph(reg), reg[k].name, k)
    {
      assert EntryPatched(reg0, reg, k);
      var name := reg[k].name;
      NameKeptExactly(reg0[k], reg0);
      assert Edge(g0, k, name);
      ResolveExact(reg0[k], reg0);
      if Reaches(ExtendsGraph(reg), name, k) {
        CutReaches(g0, done, name, k);
        WayBackIsCycle(g0, k, name);
      }
    }
  }

  /** Patching does not change which jobs resolve. */
  lemma PatchedResolvable(name: string, reg0: map<string, JobConfig>, reg: map<string, JobConfig>)
    requires Patched(reg0, reg) && name in reg0
    ensures Resolve(reg[name], reg, []).Ok? <==> Resolve(reg0[name], reg0, []).Ok?
  {
    var done := PatchedIsCut(reg0, reg);
    PatchedIsHarmless(reg0, reg);
    CutExact(ExtendsGraph(reg0), done, name);
    ResolvesIffSound(name, reg);
    ResolveExact(reg0[name], reg0);
  }

  // ---- The whole pass --------------------------------------------------------------

  /** What the untouched list gives a job. */
  ghost function Alone(jobs: seq<JobConfig>, k: nat): Result<JobConfig, ExtendsError>
    requires k < |jobs|
  {
    Resolve(jobs[k], Untouched(jobs), [])
  }

  /** Every job up to `n` that is not a template resolves against the untouched list. */
  ghost predicate AllResolve(jobs: seq<JobConfig>, n: nat)
    requires n <= |jobs|
  {
    forall k :: 0 <= k < n && !IsTemplate(jobs[k].name) ==> Alone(jobs, k).Ok?
  }

  /** One entry after `n` jobs: still to come, or what the untouched list gives, up to the working directory. */
  ghost predicate EntryAgrees(jobs: seq<JobConfig>, cur: seq<JobConfig>, n: nat, k: nat)
    requires n <= |jobs| == |cur| && k < |jobs|
  {
    if k < n && !IsTemplate(jobs[k].name) then
      cur[k].extendsList == [] && Alone(jobs, k).Ok? && SameButWorkdir(cur[k], Alone(jobs, k).value)
    else cur[k] == jobs[k]
  }

  ghost predicate ListAgrees(jobs: seq<JobConfig>, cur: seq<JobConfig>, n: nat) {
    n <= |jobs| == |cur| && forall k :: 0 <= k < |jobs| ==> EntryAgrees(jobs, cur, n, k)
  }

  /** The registry holds each position under its original name. */
  lemma RegistryEntry(jobs: seq<JobConfig>, cur: seq<JobConfig>, k: string) returns (i: nat)
    requires |cur| == |jobs| && k in Names(jobs)
    ensures i < |jobs| && jobs[i].name == k && Untouched(jobs)[k] == jobs[i] && Registry(jobs, cur)[k] == cur[i]
  {
    i := IndexOf(Names(jobs), k);
  }

  lemma RegistryAt(jobs: seq<JobConfig>, cur: seq<JobConfig>, i: nat)
    requires UniqueNames(jobs) && |cur| == |jobs| && i < |jobs|
    ensures jobs[i].name in Names(jobs)
    ensures Untouched(jobs)[jobs[i].name] == jobs[i] && Registry(jobs, cur)[jobs[i].name] == cur[i]
  {
    assert Names(jobs)[i] == jobs[i].name;
    NameOnce(jobs, i);
  }

  lemma ListIsSlotted(jobs: seq<JobConfig>, cur: seq<JobConfig>, n: nat)
    requires ListAgrees(jobs, cur, n)
    ensures Slotted(jobs, cur)
  {
    forall k | 0 <= k < |jobs| ensures cur[k].name == jobs[k].name || cur[k].extendsList == [] {
      assert EntryAgrees(jobs, cur, n, k);
    }
  }

  lemma ListIsPatched(jobs: seq<JobConfig>, cur: seq<JobConfig>, n: nat)
    requires ListAgrees(jobs, cur, n)
    ensures Patched(Untouched(jobs), Registry(jobs, cur))
  {
    var reg0, reg := Untouched(jobs), Registry(jobs, cur);
    ListIsSlotted(jobs, cur, n);
    forall k | k in reg0 ensures EntryPatched(reg0, reg, k) {
      var i := RegistryEntry(jobs, cur, k);
      assert EntryAgrees(jobs, cur, n, i);
    }
  }

  /** After `n` jobs the pass is as successful as each job on its own, with the same results up to the
      working directory. */
  ghost predicate PassAgrees(jobs: seq<JobConfig>, n: nat)
    requires n <= |jobs|
  {
    var after := AfterFirst(jobs, n);
    (after.Ok? <==> AllResolve(jobs, n)) && (after.Ok? ==> ListAgrees(jobs, after.value, n))
  }

  /** The in-place pass succeeds exactly when every job resolves on its own, and then gives each job what
      the untouched list gives it, on every field but the working directory. */
  lemma {:induction false} InPlaceAgrees(jobs: seq<JobConfig>, n: nat)
    requires UniqueNames(jobs) && n <= |jobs|
    ensures PassAgrees(jobs, n)
  {
    if n == 0 {
      AgreesAtFirst(jobs);
    } else {
      var m := n - 1;
      InPlaceAgrees(jobs, m);
      AgreesNext(jobs, m);
    }
  }

  lemma AgreesAtFirst(jobs: seq<JobConfig>)
    ensures PassAgrees(jobs, 0)
  {
    assert ListAgrees(jobs, jobs, 0);
  }

  lemma AgreesNext(jobs: seq<JobConfig>, n: nat)
    requires UniqueNames(jobs) && n < |jobs| && PassAgrees(jobs, n)
    ensures PassAgrees(jobs, n + 1)
  {
    AllResolveStep(jobs, n);
    var before, after := AfterFirst(jobs, n), AfterFirst(jobs, n + 1);
    if before.Ok? {
      assert after == Rewritten(jobs, before.value, n);
      ListGrows(jobs, before.value, n);
    } else {
      assert after == before;
    }
  }

  lemma AllResolveStep(jobs: seq<JobConfig>, n: nat)
    requires n < |jobs|
    ensures AllResolve(jobs, n + 1) <==> AllResolve(jobs, n) && (IsTemplate(jobs[n].name) || Alone(jobs, n).Ok?)
  {
  }

  /** The next job is still untouched, and resolves against the patched list iff it does against the
      untouched one, to the same job up to the working directory. */
  lemma NextResolves(jobs: seq<JobConfig>, cur: seq<JobConfig>, n: nat)
    requires UniqueNames(jobs) && n < |jobs| && ListAgrees(jobs, cur, n)
    ensures cur[n] == jobs[n] && Slotted(jobs, cur)
    ensures Resolve(jobs[n], Registry(jobs, cur), []).Ok? <==> Alone(jobs, n).Ok?
    ensures SameResult(Resolve(jobs[n], Registry(jobs, cur), []), Alone(jobs, n))
  {
    assert EntryAgrees(jobs, cur, n, n);
    ListIsSlotted(jobs, cur, n);
    ListIsPatched(jobs, cur, n);
    RegistryAt(jobs, cur, n);
    PatchedResolvable(jobs[n].name, Untouched(jobs), Registry(jobs, cur));
    PatchedAgrees(jobs[n].name, Untouched(jobs), Registry(jobs, cur), []);
  }

  lemma ListGrows(jobs: seq<JobConfig>, cur: seq<JobConfig>, n: nat)
    requires UniqueNames(jobs) && n < |jobs| && ListAgrees(jobs, cur, n) && Slotted(jobs, cur)
    ensures Rewritten(jobs, cur, n).Ok? <==> IsTemplate(jobs[n].name) || Alone(jobs, n).Ok?
    ensures Rewritten(jobs, cur, n).Ok? ==> ListAgrees(jobs, Rewritten(jobs, cur, n).value, n + 1)
  {
    NextResolves(jobs, cur, n);
    if Rewritten(jobs, cur, n).Ok? {
      var next, m := Rewritten(jobs, cur, n).value, n + 1;
      forall k | 0 <= k < |jobs| ensures EntryAgrees(jobs, next, m, k) {
        assert EntryAgrees(jobs, cur, n, k);
      }
    }
  }

  // ---- When every target is a template ---------------------------------------------

  ghost predicate TemplateTargets(job: JobConfig) {
    forall i :: 0 <= i < |job.extendsList| ==> IsTemplate(job.extendsList[i])
  }

  ghost predicate OnlyTemplateTargets(jobs: seq<JobConfig>) {
    forall k :: 0 <= k < |jobs| ==> TemplateTargets(jobs[k])
  }

  ghost predicate SameTemplates(reg0: map<string, JobConfig>, reg: map<string, JobConfig>) {
    && Keyed(reg0) && Registered(reg) && reg.Keys == reg0.Keys
    && (forall k :: k in reg0 && IsTemplate(k) ==> reg[k] == reg0[k])
    && (forall k :: k in reg0 ==> TemplateTargets(reg0[k]))
  }

  lemma {:induction false} TemplatesResolveSame(job: JobConfig, reg0: map<string, JobConfig>,
                                                reg: map<string, JobConfig>, seen: seq<string>)
    requires SameTemplates(reg0, reg) && TemplateTargets(job)
    ensures Resolve(job, reg, seen) == Resolve(job, reg0, seen)
    decreases Room(reg0, job, seen)
  {
    if job.name !in seen && job.extendsList != [] {
      var chain := seen + [job.name];
      RoomShrinks(reg0, job, seen);
      forall i | 0 <= i < |job.extendsList| ensures Parents(job, reg, chain)[i] == Parents(job, reg0, chain)[i] {
        var target := job.extendsList[i];
        assert IsTemplate(target);
        if target in reg0 {
          RoomSame(reg0, job, target, chain);
          TemplatesResolveSame(reg0[target], reg0, reg, chain);
        }
      }
      assert Parents(job, reg, chain) == Parents(job, reg0, chain);
    }
  }

  ghost predicate EntryExact(jobs: seq<JobConfig>, cur: seq<JobConfig>, n: nat, k: nat)
    requires n <= |jobs| == |cur| && k < |jobs|
  {
    if k < n && !IsTemplate(jobs[k].name) then Alone(jobs, k).Ok? && cur[k] == DefaultWorkdir(Alone(jobs, k).value)
    else cur[k] == jobs[k]
  }

  ghost predicate ListExact(jobs: seq<JobConfig>, cur: seq<JobConfig>, n: nat) {
    n <= |jobs| == |cur| && forall k :: 0 <= k < |jobs| ==> EntryExact(jobs, cur, n, k)
  }

  lemma ListKeepsTemplates(jobs: seq<JobConfig>, cur: seq<JobConfig>, n: nat)
    requires Slotted(jobs, cur) && ListExact(jobs, cur, n)
    requires OnlyTemplateTargets(jobs)
    ensures SameTemplates(Untouched(jobs), Registry(jobs, cur))
  {
    var reg0, reg := Untouched(jobs), Registry(jobs, cur);
    forall k | k in reg0 ensures TemplateTargets(reg0[k]) && (IsTemplate(k) ==> reg[k] == reg0[k]) {
      var i := RegistryEntry(jobs, cur, k);
      assert EntryExact(jobs, cur, n, i);
    }
  }

  ghost predicate PassExact(jobs: seq<JobConfig>, n: nat)
    requires n <= |jobs|
  {
    AfterFirst(jobs, n).Ok? ==> ListExact(jobs, AfterFirst(jobs, n).value, n)
  }

  /** When jobs extend only templates, the in-place pass gives every job exactly what the untouched list gives it. */
  lemma {:induction false} TemplatesOnlyExact(jobs: seq<JobConfig>, n: nat)
    requires n <= |jobs|
    requires OnlyTemplateTargets(jobs)
    ensures PassExact(jobs, n)
  {
    if n == 0 {
      ExactAtFirst(jobs);
    } else {
      var m := n - 1;
      TemplatesOnlyExact(jobs, m);
      ExactNext(jobs, m);
    }
  }

  lemma ExactNext(jobs: seq<JobConfig>, n: nat)
    requires n < |jobs| && OnlyTemplateTargets(jobs) && PassExact(jobs, n)
    ensures PassExact(jobs, n + 1)
  {
    var before := AfterFirst(jobs, n);
    if before.Ok? {
      AfterNext(jobs, before.value, n);
      ExactGrows(jobs, before.value, n);
    }
  }

  lemma ExactAtFirst(jobs: seq<JobConfig>)
    ensures PassExact(jobs, 0)
  {
    assert ListExact(jobs, jobs, 0);
  }

  /** The next job resolves against the list as it stands to what the untouched list gives it. */
  lemma NextIsExact(jobs: seq<JobConfig>, cur: seq<JobConfig>, n: nat)
    requires n < |jobs| && Slotted(jobs, cur) && ListExact(jobs, cur, n)
    requires OnlyTemplateTargets(jobs)
    ensures cur[n] == jobs[n] && Resolve(jobs[n], Registry(jobs, cur), []) == Alone(jobs, n)
  {
    assert EntryExact(jobs, cur, n, n);
    ListKeepsTemplates(jobs, cur, n);
    TemplatesResolveSame(jobs[n], Untouched(jobs), Registry(jobs, cur), []);
  }

  lemma ExactGrows(jobs: seq<JobConfig>, cur: seq<JobConfig>, n: nat)
    requires n < |jobs| && Slotted(jobs, cur) && ListExact(jobs, cur, n)
    requires OnlyTemplateTargets(jobs)
    ensures Rewritten(jobs, cur, n).Ok? ==> ListExact(jobs, Rewritten(jobs, cur, n).value, n + 1)
  {
    NextIsExact(jobs, cur, n);
    if Rewritten(jobs, cur, n).Ok? {
      var next, m := Rewritten(jobs, cur, n).value, n + 1;
      assert EntryExact(jobs, next, m, n);
      forall k | 0 <= k < |jobs| && k != n ensures EntryExact(jobs, next, m, k) {
        assert EntryExact(jobs, cur, n, k) && next[k] == cur[k];
      }
    }
  }
}
