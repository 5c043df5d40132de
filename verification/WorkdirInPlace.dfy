/** The one field on which in-place resolution can differ from resolution against the untouched list,
    and exactly when it does. */
module WorkdirInPlace {
  import opened Basics
  import opened Graph
  import opened ConfigModel
  import opened Extends
  import opened ExtendsInPlace

  // ---- Who decides a job's working directory ----------------------------------------

  /** Nobody sets one, a job sets it itself, or the walk meets a job that has been resolved by then. */
  datatype Decider = Nobody | Sets(dir: string) | Earlier(name: string)

  /** Walks the linearisation of `name` from its end; `done` are the names resolved by then. */
  ghost function Decides(reg: map<string, JobConfig>, done: set<string>, name: string, chain: set<string>): Decider
    decreases reg.Keys - chain, 0
  {
    if name in chain || name !in reg then Nobody
    else if reg[name].workdir != "" then Sets(reg[name].workdir)
    else DecidesAll(reg, done, reg[name].extendsList, chain + {name})
  }

  ghost function DecidesAll(reg: map<string, JobConfig>, done: set<string>, targets: seq<string>,
                            chain: set<string>): Decider
    decreases reg.Keys - chain, |targets| + 1
  {
    if targets == [] then Nobody
    else
      var last := if Last(targets) in done then Earlier(Last(targets)) else Decides(reg, done, Last(targets), chain);
      if last.Nobody? then DecidesAll(reg, done, targets[..|targets| - 1], chain) else last
  }

  /** The names of the ordinary jobs before position `n`. */
  ghost function Done(jobs: seq<JobConfig>, n: nat): set<string>
    requires n <= |jobs|
  {
    set i | 0 <= i < n && !IsTemplate(jobs[i].name) :: jobs[i].name
  }

  /** The ordinary job listed before `i` that the walk from `i` stops at, if it stops at one. */
  ghost function StopsAt(jobs: seq<JobConfig>, i: nat): (k: Option<nat>)
    requires i < |jobs|
    ensures k.Some? ==> k.value < i
  {
    var d, before := Decides(Untouched(jobs), Done(jobs, i), jobs[i].name, {}), Names(jobs[..i]);
    if d.Earlier? && d.name in before then Some(IndexOf(before, d.name)) else None
  }

  /** The working directory a job inherits or sets, before the default. */
  ghost function DirAlone(jobs: seq<JobConfig>, k: nat): string
    requires k < |jobs|
  {
    if Alone(jobs, k).Ok? then Alone(jobs, k).value.workdir else ""
  }

  /** From stop to stop the walk ends at a job that has no working directory but the default. */
  ghost predicate CutOff(jobs: seq<JobConfig>, i: nat)
    requires i < |jobs|
    decreases i
  {
    var k := StopsAt(jobs, i);
    k.Some? && (DirAlone(jobs, k.value) == "" || CutOff(jobs, k.value))
  }

  function OrDefault(dir: string): string {
    if dir == "" then "/" else dir
  }

  lemma DefaultDir(job: JobConfig)
    ensures DefaultWorkdir(job).workdir == OrDefault(job.workdir)
  {
  }

  /** The working directory the pass leaves: the default if the walk is cut off, else what the untouched
      list gives. */
  ghost function DirAfter(jobs: seq<JobConfig>, i: nat): string
    requires i < |jobs|
  {
    if CutOff(jobs, i) then "/" else OrDefault(DirAlone(jobs, i))
  }

  // ---- The decider is right -----------------------------------------------------------

  ghost predicate EntryRewritten(reg0: map<string, JobConfig>, reg: map<string, JobConfig>, done: set<string>,
                                 k: string)
    requires Keyed(reg0) && k in reg0 && k in reg
  {
    if k in done then reg[k].extendsList == [] && reg[k].workdir != "" && Resolve(reg0[k], reg0, []).Ok?
    else reg[k] == reg0[k]
  }

  /** `reg` is `reg0` with the jobs in `done` resolved and given a working directory. */
  ghost predicate Rewrites(reg0: map<string, JobConfig>, reg: map<string, JobConfig>, done: set<string>) {
    && Keyed(reg0) && Registered(reg) && reg.Keys == reg0.Keys && done <= reg0.Keys
    && forall k :: k in reg0 ==> EntryRewritten(reg0, reg, done, k)
  }

  /** What the deciders say about the two working directories, in place and alone. */
  ghost predicate DirsAre(reg0: map<string, JobConfig>, reg: map<string, JobConfig>, done: set<string>, d: Decider,
                          inPlace: string, alone: string)
    requires Rewrites(reg0, reg, done)
  {
    match d
    case Nobody => inPlace == "" && alone == ""
    case Sets(dir) => dir != "" && inPlace == dir && alone == dir
    case Earlier(k) =>
      && k in done && EntryRewritten(reg0, reg, done, k) && inPlace == reg[k].workdir
      && var dir := Resolve(reg0[k], reg0, []).value.workdir;
         dir != "" ==> alone == dir
  }

  ghost predicate ResultsAre(reg0: map<string, JobConfig>, reg: map<string, JobConfig>, done: set<string>, d: Decider,
                             p: Result<JobConfig, ExtendsError>, q: Result<JobConfig, ExtendsError>)
    requires Rewrites(reg0, reg, done)
  {
    p.Ok? && q.Ok? && DirsAre(reg0, reg, done, d, p.value.workdir, q.value.workdir)
  }

  lemma {:induction false} DirDecided(reg0: map<string, JobConfig>, reg: map<string, JobConfig>, done: set<string>,
                                      name: string, seen: seq<string>)
    requires Rewrites(reg0, reg, done) && name in reg0 && name !in done && Elements(seen) <= reg0.Keys
    requires Resolve(reg[name], reg, seen).Ok? && Resolve(reg0[name], reg0, seen).Ok?
    ensures ResultsAre(reg0, reg, done, Decides(reg0, done, name, Elements(seen)),
                       Resolve(reg[name], reg, seen), Resolve(reg0[name], reg0, seen))
    decreases Room(reg0, reg0[name], seen)
  {
    assert EntryRewritten(reg0, reg, done, name);
    var job, chain := reg0[name], seen + [name];
    if job.extendsList != [] {
      assert Elements(chain) == Elements(seen) + {name};
      var ps, qs := Parents(job, reg, chain), Parents(job, reg0, chain);
      CombineAllOk(ps);
      CombineAllOk(qs);
      RoomShrinks(reg0, job, seen);
      forall i | 0 <= i < |ps|
        ensures ResultsAre(reg0, reg, done, DecidesOne(reg0, done, job.extendsList[i], Elements(chain)), ps[i], qs[i])
      {
        var target := job.extendsList[i];
        assert ps[i] == Parent(job, reg, chain, target) && qs[i] == Parent(job, reg0, chain, target);
        if target in done {
          DoneDecided(reg0, reg, done, target, chain);
        } else {
          RoomSame(reg0, job, target, chain);
          DirDecided(reg0, reg, done, target, chain);
        }
      }
      ParentsDecided(reg0, reg, done, job.extendsList, Elements(chain), ps, qs);
    }
  }

  ghost function DecidesOne(reg: map<string, JobConfig>, done: set<string>, target: string,
                            chain: set<string>): Decider {
    if target in done then Earlier(target) else Decides(reg, done, target, chain)
  }

  lemma DoneDecided(reg0: map<string, JobConfig>, reg: map<string, JobConfig>, done: set<string>,
                    target: string, chain: seq<string>)
    requires Rewrites(reg0, reg, done) && target in done && Elements(chain) <= reg0.Keys
    requires Resolve(reg[target], reg, chain).Ok? && Resolve(reg0[target], reg0, chain).Ok?
    ensures ResultsAre(reg0, reg, done, Earlier(target), Resolve(reg[target], reg, chain),
                       Resolve(reg0[target], reg0, chain))
  {
    assert EntryRewritten(reg0, reg, done, target);
    ResolveAnyChain(reg0[target], reg0, chain, []);
  }

  /** Merging left to right keeps the last directory that is set. */
  lemma {:induction false} ParentsDecided(reg0: map<string, JobConfig>, reg: map<string, JobConfig>, done: set<string>,
                                          targets: seq<string>, chain: set<string>,
                                          ps: seq<Result<JobConfig, ExtendsError>>,
                                          qs: seq<Result<JobConfig, ExtendsError>>)
    requires Rewrites(reg0, reg, done) && |ps| == |qs| == |targets|
    requires forall i :: 0 <= i < |ps| ==>
               ResultsAre(reg0, reg, done, DecidesOne(reg0, done, targets[i], chain), ps[i], qs[i])
    ensures ResultsAre(reg0, reg, done, DecidesAll(reg0, done, targets, chain), Combine(ps), Combine(qs))
  {
    if targets != [] {
      var n := |targets| - 1;
      ParentsDecided(reg0, reg, done, targets[..n], chain, ps[..n], qs[..n]);
      assert ResultsAre(reg0, reg, done, DecidesOne(reg0, done, targets[n], chain), ps[n], qs[n]);
    }
  }

  // ---- The whole pass -------------------------------------------------------------------

  /** Once resolved, an entry is not touched again. */
  lemma {:induction false} EntryStays(jobs: seq<JobConfig>, n: nat, i: nat)
    requires i < n <= |jobs| && AfterFirst(jobs, n).Ok?
    ensures AfterFirst(jobs, i + 1).Ok? && AfterFirst(jobs, n).value[i] == AfterFirst(jobs, i + 1).value[i]
    decreases n
  {
    if n > i + 1 {
      EntryStays(jobs, n - 1, i);
    }
  }

  /** Each ordinary job resolves by itself, and the pass leaves it that working directory. */
  lemma {:induction false} DirInPlace(jobs: seq<JobConfig>, n: nat, i: nat)
    requires UniqueNames(jobs) && i < n <= |jobs| && !IsTemplate(jobs[i].name) && AfterFirst(jobs, n).Ok?
    ensures Alone(jobs, i).Ok?
    ensures AfterFirst(jobs, n).value[i].workdir == DirAfter(jobs, i)
    decreases i
  {
    EntryStays(jobs, n, i);
    var cur, m := AfterFirst(jobs, i).value, i + 1;
    InPlaceAgrees(jobs, i);
    InPlaceAgrees(jobs, m);
    NextResolves(jobs, cur, i);
    forall k | 0 <= k < i && !IsTemplate(jobs[k].name) ensures DirLeft(jobs, cur, k) {
      DirInPlace(jobs, i, k);
    }
    NextDir(jobs, cur, i);
  }

  ghost predicate DirLeft(jobs: seq<JobConfig>, cur: seq<JobConfig>, k: nat)
    requires k < |jobs| == |cur|
  {
    Alone(jobs, k).Ok? && cur[k].workdir == DirAfter(jobs, k)
  }

  /** The list in the middle of the pass, as a rewritten registry. */
  lemma ListRewrites(jobs: seq<JobConfig>, cur: seq<JobConfig>, i: nat)
    requires UniqueNames(jobs) && i <= |jobs| && ListAgrees(jobs, cur, i)
    requires forall k :: 0 <= k < i && !IsTemplate(jobs[k].name) ==> DirLeft(jobs, cur, k)
    ensures Rewrites(Untouched(jobs), Registry(jobs, cur), Done(jobs, i))
  {
    var reg0, reg, done := Untouched(jobs), Registry(jobs, cur), Done(jobs, i);
    ListIsSlotted(jobs, cur, i);
    forall x | x in done ensures x in reg0 {
      var k :| 0 <= k < i && jobs[k].name == x;
      assert Names(jobs)[k] == x;
    }
    forall x | x in reg0 ensures EntryRewritten(reg0, reg, done, x) {
      var k := RegistryEntry(jobs, cur, x);
      DoneIsBefore(jobs, i, k);
      assert EntryAgrees(jobs, cur, i, k);
    }
  }

  lemma DoneIsBefore(jobs: seq<JobConfig>, i: nat, k: nat)
    requires UniqueNames(jobs) && i <= |jobs| && k < |jobs|
    ensures jobs[k].name in Done(jobs, i) <==> k < i && !IsTemplate(jobs[k].name)
  {
    NameOnce(jobs, k);
  }

  /** One more entry, given those before it. */
  lemma NextDir(jobs: seq<JobConfig>, cur: seq<JobConfig>, i: nat)
    requires UniqueNames(jobs) && i < |jobs| && !IsTemplate(jobs[i].name) && ListAgrees(jobs, cur, i)
             && Slotted(jobs, cur)
    requires Alone(jobs, i).Ok? && Resolve(jobs[i], Registry(jobs, cur), []).Ok?
    requires forall k :: 0 <= k < i && !IsTemplate(jobs[k].name) ==> DirLeft(jobs, cur, k)
    ensures DefaultWorkdir(Resolve(jobs[i], Registry(jobs, cur), []).value).workdir == DirAfter(jobs, i)
  {
    NextDecided(jobs, cur, i);
    DefaultDir(Resolve(jobs[i], Registry(jobs, cur), []).value);
    if StopsAt(jobs, i).Some? {
      assert DirLeft(jobs, cur, StopsAt(jobs, i).value);
    }
  }

  /** The resolved directory is that of the entry the walk stops at, or the same as alone. */
  lemma NextDecided(jobs: seq<JobConfig>, cur: seq<JobConfig>, i: nat)
    requires UniqueNames(jobs) && i < |jobs| && ListAgrees(jobs, cur, i) && Slotted(jobs, cur)
    requires Alone(jobs, i).Ok? && Resolve(jobs[i], Registry(jobs, cur), []).Ok?
    requires forall k :: 0 <= k < i && !IsTemplate(jobs[k].name) ==> DirLeft(jobs, cur, k)
    ensures var dir := Resolve(jobs[i], Registry(jobs, cur), []).value.workdir;
            match StopsAt(jobs, i)
            case None => dir == DirAlone(jobs, i)
            case Some(k) =>
              && !IsTemplate(jobs[k].name) && dir == cur[k].workdir
              && (DirAlone(jobs, k) != "" ==> DirAlone(jobs, i) == DirAlone(jobs, k))
  {
    var reg0, reg, done, name := Untouched(jobs), Registry(jobs, cur), Done(jobs, i), jobs[i].name;
    ListRewrites(jobs, cur, i);
    RegistryAt(jobs, cur, i);
    assert EntryAgrees(jobs, cur, i, i);
    DoneIsBefore(jobs, i, i);
    assert Elements<string>([]) == {};
    DirDecided(reg0, reg, done, name, []);
    var d := Decides(reg0, done, name, {});
    if d.Earlier? {
      var k := StopIs(jobs, cur, i, d.name);
    }
  }

  lemma StopIs(jobs: seq<JobConfig>, cur: seq<JobConfig>, i: nat, x: string) returns (k: nat)
    requires UniqueNames(jobs) && |cur| == |jobs| && i < |jobs| && x in Done(jobs, i)
    requires Decides(Untouched(jobs), Done(jobs, i), jobs[i].name, {}) == Earlier(x)
    ensures k < i && jobs[k].name == x && !IsTemplate(x) && StopsAt(jobs, i) == Some(k)
    ensures x in Names(jobs) && Untouched(jobs)[x] == jobs[k] && Registry(jobs, cur)[x] == cur[k]
  {
    k :| 0 <= k < i && !IsTemplate(jobs[k].name) && jobs[k].name == x;
    RegistryAt(jobs, cur, k);
    assert Names(jobs[..i])[k] == x;
    NameOnce(jobs, k);
    assert jobs[IndexOf(Names(jobs[..i]), x)].name == x;
  }

  /** The pass leaves exactly what the untouched list gives, except that a job that is cut off loses an
      inherited directory other than the default. */
  lemma AgreesExactly(jobs: seq<JobConfig>, i: nat)
    requires UniqueNames(jobs) && i < |jobs| && !IsTemplate(jobs[i].name) && AfterFirst(jobs, |jobs|).Ok?
    ensures Alone(jobs, i).Ok?
    ensures AfterFirst(jobs, |jobs|).value[i] == DefaultWorkdir(Alone(jobs, i).value) <==>
              (CutOff(jobs, i) ==> DirAlone(jobs, i) == "" || DirAlone(jobs, i) == "/")
  {
    DirInPlace(jobs, |jobs|, i);
    InPlaceAgrees(jobs, |jobs|);
    var cur := AfterFirst(jobs, |jobs|).value;
    assert EntryAgrees(jobs, cur, |jobs|, i);
    SameWithDir(cur[i], Alone(jobs, i).value);
    DefaultDir(Alone(jobs, i).value);
  }

  lemma SameWithDir(a: JobConfig, b: JobConfig)
    requires SameButWorkdir(a, b)
    ensures a == DefaultWorkdir(b) <==> a.workdir == DefaultWorkdir(b).workdir
  {
  }

  // ---- A list on which it differs ---------------------------------------------------------

  const PlainJob := ZeroJob.(name := "plain", stage := "s")
  const PlaceTemplate := ZeroJob.(name := ".place", workdir := "/w")
  const CopyJob := ZeroJob.(name := "copy", extendsList := [".place", "plain"])

  /** A job that extends a template with a working directory and then an ordinary job listed before it:
      by the time it is resolved, the ordinary job has been given "/" and overrides the template. */
  lemma WorkdirDiffers(jobs: seq<JobConfig>)
    requires jobs == [PlainJob, PlaceTemplate, CopyJob]
    ensures Alone(jobs, 2).Ok? && AfterFirst(jobs, 3).Ok?
    ensures DefaultWorkdir(Alone(jobs, 2).value).workdir == "/w"
    ensures AfterFirst(jobs, 3).value[2].workdir == "/"
  {
    var cur := [DefaultWorkdir(PlainJob), PlaceTemplate, CopyJob];
    PlainRewrite(jobs, jobs, 0);
    AfterNext(jobs, jobs, 0);
    assert jobs[0 := DefaultWorkdir(PlainJob)] == cur;
    PlainRewrite(jobs, cur, 1);
    AfterNext(jobs, cur, 1);
    AfterNext(jobs, cur, 2);
    CopyAlone(jobs);
    CopyInPlace(jobs, cur);
  }

  lemma CopyAlone(jobs: seq<JobConfig>)
    requires jobs == [PlainJob, PlaceTemplate, CopyJob]
    ensures Alone(jobs, 2).Ok? && Alone(jobs, 2).value.workdir == "/w"
  {
    CopyRegistry(jobs, jobs);
    CopyResolves(Registry(jobs, jobs));
  }

  lemma CopyInPlace(jobs: seq<JobConfig>, cur: seq<JobConfig>)
    requires jobs == [PlainJob, PlaceTemplate, CopyJob]
    requires cur == [DefaultWorkdir(PlainJob), PlaceTemplate, CopyJob]
    ensures Slotted(jobs, cur) && Rewritten(jobs, cur, 2).Ok? && Rewritten(jobs, cur, 2).value[2].workdir == "/"
  {
    CopySlotted(jobs, cur);
    CopyRegistry(jobs, cur);
    CopyResolves(Registry(jobs, cur));
  }

  lemma CopySlotted(jobs: seq<JobConfig>, cur: seq<JobConfig>)
    requires jobs == [PlainJob, PlaceTemplate, CopyJob]
    requires cur == [DefaultWorkdir(PlainJob), PlaceTemplate, CopyJob]
    ensures Slotted(jobs, cur)
  {
  }

  lemma CopyRegistry(jobs: seq<JobConfig>, cur: seq<JobConfig>)
    requires |cur| == |jobs| == 3 && jobs[0] == PlainJob && jobs[1] == PlaceTemplate && jobs[2] == CopyJob
    ensures "plain" in Registry(jobs, cur) && Registry(jobs, cur)["plain"] == cur[0]
    ensures ".place" in Registry(jobs, cur) && Registry(jobs, cur)[".place"] == cur[1]
  {
    assert Names(jobs) == ["plain", ".place", "copy"];
    RegistryAt(jobs, cur, 0);
    RegistryAt(jobs, cur, 1);
  }

  lemma CopyResolves(reg: map<string, JobConfig>)
    requires Registered(reg) && "plain" in reg && ".place" in reg && reg[".place"] == PlaceTemplate
    requires reg["plain"].name == "plain" && reg["plain"].extendsList == []
    ensures Resolve(CopyJob, reg, []).Ok?
    ensures Resolve(CopyJob, reg, []).value.workdir == if reg["plain"].workdir != "" then reg["plain"].workdir else "/w"
  {
    var chain := [] + ["copy"];
    assert Parent(CopyJob, reg, chain, ".place") == Ok(PlaceTemplate);
    assert Parent(CopyJob, reg, chain, "plain") == Ok(reg["plain"]);
    var parents := Parents(CopyJob, reg, chain);
    assert parents == [Ok(PlaceTemplate), Ok(reg["plain"])];
    assert parents[..1] == [Ok(PlaceTemplate)] && parents[..1][..0] == [];
    assert Combine(parents[..1]) == Ok(Merge(ZeroJob, PlaceTemplate));
  }
}
