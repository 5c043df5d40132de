/** Template resolution of internal/config/extends.go. */
module Extends {
  import opened Basics
  import opened Graph
  import opened ConfigModel
  import opened Explore
  import opened Listing

  datatype ExtendsError = CircularExtends(job: string) | UnknownTemplate(job: string, target: string)

  predicate IsTemplate(name: string) {
    name != [] && name[0] == '.'
  }

  lemma TemplateExactly(name: string)
    ensures IsTemplate(name) <==> "." <= name
  {
    assert "." <= name ==> "."[0] == name[0];
  }

  // ---- Merging two jobs ------------------------------------------------------

  /** Keywise merge: the overlay wins; an empty or absent overlay leaves the base. */
  function MergeMap<V>(base: Option<map<string, V>>, over: Option<map<string, V>>): Option<map<string, V>> {
    if over.Some? && over.value != map[] then Some((if base.Some? then base.value else map[]) + over.value) else base
  }

  function Later<T>(base: Option<T>, over: Option<T>): Option<T> {
    if over.Some? then over else base
  }

  function LaterSeq<T(==)>(base: seq<T>, over: seq<T>): seq<T> {
    if over != [] then over else base
  }

  /** The base with the overlay's non-empty fields applied. */
  function Merge(base: JobConfig, over: JobConfig): JobConfig {
    JobConfig(
      LaterSeq(base.name, over.name),
      if over.image.name != "" then over.image else base.image,
      MergeMap(base.registries, over.registries),
      LaterSeq(base.script, over.script),
      LaterSeq(base.stage, over.stage),
      LaterSeq(base.workdir, over.workdir),
      MergeMap(base.variables, over.variables),
      Later(base.cache, over.cache),
      Later(base.network, over.network),
      Later(base.jobBootstrap, over.jobBootstrap),
      Later(base.jobCleanup, over.jobCleanup),
      Later(base.parallel, over.parallel),
      LaterSeq(base.matrix, over.matrix),
      base.matrixGroup,
      base.extendsList,
      if over.timeout != 0 then over.timeout else base.timeout,
      if over.retry != 0 then over.retry else base.retry,
      LaterSeq(base.services, over.services),
      Later(base.artifacts, over.artifacts),
      LaterSeq(base.needs, over.needs))
  }

  lemma MergeMapAssociative<V>(a: Option<map<string, V>>, b: Option<map<string, V>>, c: Option<map<string, V>>)
    ensures MergeMap(MergeMap(a, b), c) == MergeMap(a, MergeMap(b, c))
  {
    if b.Some? && c.Some? && b.value != map[] && c.value != map[] {
      var m := if a.Some? then a.value else map[];
      assert m + b.value + c.value == m + (b.value + c.value);
      assert b.value + c.value != map[] by {
        var k :| k in c.value;
        assert k in b.value + c.value;
      }
    } else if c.Some? && c.value != map[] && b.Some? {
      assert b.value + c.value == c.value;
    } else if c.Some? && c.value != map[] {
      var none: map<string, V> := map[];
      assert none + c.value == c.value;
    }
  }

  lemma MergeAssociative(a: JobConfig, b: JobConfig, c: JobConfig)
    ensures Merge(Merge(a, b), c) == Merge(a, Merge(b, c))
  {
    MergeMapAssociative(a.registries, b.registries, c.registries);
    MergeMapAssociative(a.variables, b.variables, c.variables);
  }

  /** An empty job is neutral as an overlay, and as a base for a further overlay. */
  lemma MergeZero(a: JobConfig, b: JobConfig)
    ensures Merge(a, ZeroJob) == a
    ensures Merge(a, Merge(ZeroJob, b)) == Merge(a, b)
    ensures Merge(a, b.(extendsList := [])) == Merge(a, b)
  {
    MergeAssociative(a, ZeroJob, b);
  }

  // ---- Resolving one job -----------------------------------------------------

  /** A registry as it is built holds each job under its own name. */
  ghost predicate Keyed(reg: map<string, JobConfig>) {
    forall k :: k in reg ==> reg[k].name == k
  }

  /** Later a resolved job may stand there under another name; it extends nothing any more. */
  ghost predicate Registered(reg: map<string, JobConfig>) {
    forall k :: k in reg ==> reg[k].name == k || reg[k].extendsList == []
  }

  ghost function ExtendsGraph(reg: map<string, JobConfig>): Digraph {
    map k | k in reg :: reg[k].extendsList
  }

  /** The names a chain can still visit: what makes resolution terminate. */
  ghost function Room(reg: map<string, JobConfig>, job: JobConfig, seen: seq<string>): set<string> {
    reg.Keys + (if job.extendsList == [] then {} else {job.name}) - Elements(seen)
  }

  lemma RoomShrinks(reg: map<string, JobConfig>, job: JobConfig, seen: seq<string>)
    requires job.name !in seen && job.extendsList != []
    ensures Room(reg, job, seen + [job.name]) < Room(reg, job, seen)
  {
    assert job.name in Room(reg, job, seen) && job.name !in Room(reg, job, seen + [job.name]);
  }

  lemma RoomSame(reg: map<string, JobConfig>, job: JobConfig, target: string, seen: seq<string>)
    requires Registered(reg) && job.name in seen && target in reg
    ensures Room(reg, reg[target], seen) == Room(reg, job, seen)
  {
    assert job.name in Elements(seen);
  }

  ghost function Resolve(job: JobConfig, reg: map<string, JobConfig>, seen: seq<string>)
      : Result<JobConfig, ExtendsError>
    requires Registered(reg)
    decreases Room(reg, job, seen), 0
  {
    if job.name in seen then Err(CircularExtends(job.name))
    else if job.extendsList == [] then Ok(job)
    else
      RoomShrinks(reg, job, seen);
      var parents := Combine(Parents(job, reg, seen + [job.name]));
      if parents.Err? then parents else Ok(Merge(parents.value, job).(extendsList := []))
  }

  /** Each parent resolved, left to right. */
  ghost function Parents(job: JobConfig, reg: map<string, JobConfig>, seen: seq<string>)
      : (ps: seq<Result<JobConfig, ExtendsError>>)
    requires Registered(reg) && job.name in seen
    decreases Room(reg, job, seen), 2
  {
    seq(|job.extendsList|, i requires 0 <= i < |job.extendsList| => Parent(job, reg, seen, job.extendsList[i]))
  }

  ghost function Parent(job: JobConfig, reg: map<string, JobConfig>, seen: seq<string>, target: string)
      : Result<JobConfig, ExtendsError>
    requires Registered(reg) && job.name in seen
    decreases Room(reg, job, seen), 1
  {
    if target !in reg then Err(UnknownTemplate(job.name, target))
    else
      RoomSame(reg, job, target, seen);
      Resolve(reg[target], reg, seen)
  }

  /** The parents merged left to right, or the first failure. */
  ghost function Combine(parents: seq<Result<JobConfig, ExtendsError>>): Result<JobConfig, ExtendsError> {
    if parents == [] then Ok(ZeroJob)
    else
      var before, last := Combine(parents[..|parents| - 1]), Last(parents);
      if before.Err? then before
      else if last.Err? then last
      else Ok(Merge(before.value, last.value))
  }

  /** A failure among the first parents is the failure of all. */
  lemma {:induction false} CombineStops(parents: seq<Result<JobConfig, ExtendsError>>, m: nat)
    requires m <= |parents| && Combine(parents[..m]).Err?
    ensures Combine(parents) == Combine(parents[..m])
  {
    if m < |parents| {
      assert parents[..|parents| - 1][..m] == parents[..m];
      CombineStops(parents[..|parents| - 1], m);
    } else {
      assert parents[..m] == parents;
    }
  }

  lemma CombineOneMore(parents: seq<Result<JobConfig, ExtendsError>>, i: nat)
    requires i < |parents| && Combine(parents[..i]).Ok?
    ensures Combine(parents[..i + 1]) ==
              if parents[i].Err? then parents[i] else Ok(Merge(Combine(parents[..i]).value, parents[i].value))
  {
    assert parents[..i + 1][..i] == parents[..i];
  }

  method ResolveJob(job: JobConfig, reg: map<string, JobConfig>, seen: seq<string>)
      returns (r: Result<JobConfig, ExtendsError>)
    requires Registered(reg)
    ensures r == Resolve(job, reg, seen)
    decreases Room(reg, job, seen), 0
  {
    if job.name in seen {
      return Err(CircularExtends(job.name));
    }
    if job.extendsList == [] {
      return Ok(job);
    }
    RoomShrinks(reg, job, seen);
    var merged := MergeParents(job, reg, seen + [job.name]);
    if merged.Err? {
      return merged;
    }
    return Ok(Merge(merged.value, job).(extendsList := []));
  }

  method MergeParents(job: JobConfig, reg: map<string, JobConfig>, seen: seq<string>)
      returns (r: Result<JobConfig, ExtendsError>)
    requires Registered(reg) && job.name in seen
    ensures r == Combine(Parents(job, reg, seen))
    decreases Room(reg, job, seen), 2
  {
    ghost var parents := Parents(job, reg, seen);
    var merged := ZeroJob;
    for i := 0 to |job.extendsList|
      invariant Combine(parents[..i]) == Ok(merged)
    {
      CombineOneMore(parents, i);
      var parent := ResolveParent(job, reg, seen, job.extendsList[i]);
      if parent.Err? {
        CombineStops(parents, i + 1);
        return parent;
      }
      merged := Merge(merged, parent.value);
    }
    assert parents[..|parents|] == parents;
    return Ok(merged);
  }

  method ResolveParent(job: JobConfig, reg: map<string, JobConfig>, seen: seq<string>, target: string)
      returns (r: Result<JobConfig, ExtendsError>)
    requires Registered(reg) && job.name in seen
    ensures r == Parent(job, reg, seen, target)
    decreases Room(reg, job, seen), 1
  {
    if target !in reg {
      return Err(UnknownTemplate(job.name, target));
    }
    RoomSame(reg, job, target, seen);
    r := ResolveJob(reg[target], reg, seen);
  }

  // ---- When resolution succeeds ----------------------------------------------

  ghost predicate Matches(r: Result<JobConfig, ExtendsError>, o: Outcome) {
    match o
    case Fine => r.Ok?
    case Missing(name) => r.Err? && r.error.UnknownTemplate? && r.error.target == name
    case Circular(name) => r == Err(CircularExtends(name))
  }

  /** No chain that goes through the new name of a renamed entry comes to that entry. */
  ghost predicate Harmless(reg: map<string, JobConfig>) {
    forall k :: k in reg && reg[k].name != k ==> reg[k].extendsList == [] && !Reaches(ExtendsGraph(reg), reg[k].name, k)
  }

  /** A renamed entry ahead of `key` is not on the chain, under its key or its new name. */
  ghost predicate ClearAhead(reg: map<string, JobConfig>, key: string, seen: seq<string>) {
    forall k :: k in reg && reg[k].name != k && Reaches(ExtendsGraph(reg), key, k) ==>
      k !in seen && reg[k].name !in seen
  }

  lemma ClearStep(reg: map<string, JobConfig>, key: string, target: string, seen: seq<string>)
    requires Harmless(reg) && ClearAhead(reg, key, seen) && Edge(ExtendsGraph(reg), key, target)
    ensures ClearAhead(reg, target, seen + [key])
  {
    var g := ExtendsGraph(reg);
    forall k | k in reg && reg[k].name != k && Reaches(g, target, k)
      ensures k !in seen + [key] && reg[k].name !in seen + [key]
    {
      ReachesStep(g, key, target, k);
    }
  }

  lemma {:induction false} ResolveFollowsVisit(key: string, reg: map<string, JobConfig>, seen: seq<string>)
    requires Registered(reg) && Harmless(reg) && key in reg && ClearAhead(reg, key, seen) && Elements(seen) <= reg.Keys
    ensures Matches(Resolve(reg[key], reg, seen), Visit(ExtendsGraph(reg), key, Elements(seen)))
    decreases Room(reg, reg[key], seen)
  {
    var job, g := reg[key], ExtendsGraph(reg);
    if job.extendsList == [] {
      assert key in g && g[key] == [] && VisitAll(g, [], Elements(seen) + {key}).Fine?;
      if job.name != key {
        RenamedIsClear(key, reg, seen);
      }
    } else if key !in seen {
      var chain := seen + [key];
      assert Elements(chain) == Elements(seen) + {key};
      RoomShrinks(reg, job, seen);
      forall i | 0 <= i < |job.extendsList|
        ensures Matches(Parents(job, reg, chain)[i], Visit(g, job.extendsList[i], Elements(chain)))
      {
        var target := job.extendsList[i];
        if target in reg {
          RoomSame(reg, job, target, chain);
          ClearStep(reg, key, target, seen);
          ResolveFollowsVisit(target, reg, chain);
        } else {
          assert target !in Elements(chain);
        }
      }
      CombineMatchesVisit(g, Parents(job, reg, chain), job.extendsList, Elements(chain));
    }
  }

  lemma RenamedIsClear(key: string, reg: map<string, JobConfig>, seen: seq<string>)
    requires key in reg && ClearAhead(reg, key, seen) && reg[key].name != key
    ensures key !in seen && reg[key].name !in seen
  {
    var g, p := ExtendsGraph(reg), [key];
    assert IsPath(g, p) && p[0] == key && Last(p) == key;
  }

  /** In a registry as built, no entry is renamed. */
  lemma ResolveMatchesVisit(job: JobConfig, reg: map<string, JobConfig>, seen: seq<string>)
    requires Keyed(reg) && job.name in reg && reg[job.name] == job && Elements(seen) <= reg.Keys
    ensures Matches(Resolve(job, reg, seen), Visit(ExtendsGraph(reg), job.name, Elements(seen)))
  {
    ResolveFollowsVisit(job.name, reg, seen);
  }

  lemma {:induction false} CombineMatchesVisit(g: Digraph, parents: seq<Result<JobConfig, ExtendsError>>,
                                               targets: seq<string>, chain: set<string>)
    requires |parents| == |targets|
    requires forall i :: 0 <= i < |targets| ==> Matches(parents[i], Visit(g, targets[i], chain))
    ensures Matches(Combine(parents), VisitAll(g, targets, chain))
  {
    if targets != [] {
      CombineMatchesVisit(g, parents[..|parents| - 1], targets[..|targets| - 1], chain);
    }
  }

  /** Resolution succeeds exactly when every walk along `extends` stays in the registry and none comes
      back; each error kind tells the truth. */
  lemma ResolveExact(job: JobConfig, reg: map<string, JobConfig>)
    requires Keyed(reg) && job.name in reg && reg[job.name] == job
    ensures Resolve(job, reg, []).Ok? <==> Sound(ExtendsGraph(reg), job.name)
    ensures Resolve(job, reg, []).Err? ==>
              match Resolve(job, reg, []).error
              case UnknownTemplate(_, _) => !ClosedFrom(ExtendsGraph(reg), job.name)
              case CircularExtends(_) => CycleFrom(ExtendsGraph(reg), job.name)
  {
    assert Elements<string>([]) == {};
    ResolveMatchesVisit(job, reg, []);
    VisitExact(ExtendsGraph(reg), job.name);
  }

  /** The same with renamed entries, as long as they are harmless. */
  lemma ResolvesIffSound(key: string, reg: map<string, JobConfig>)
    requires Registered(reg) && Harmless(reg) && key in reg
    ensures Resolve(reg[key], reg, []).Ok? <==> Sound(ExtendsGraph(reg), key)
  {
    assert Elements<string>([]) == {};
    ResolveFollowsVisit(key, reg, []);
    VisitExact(ExtendsGraph(reg), key);
  }

  // ---- What resolution computes ----------------------------------------------

  /** Depth-first order, parents left to right, then the job itself; a chain that comes back is cut. */
  ghost function Linear(reg: map<string, JobConfig>, name: string, chain: set<string>): seq<JobConfig>
    decreases reg.Keys - chain, 0
  {
    if name in chain || name !in reg then [] else LinearAll(reg, reg[name].extendsList, chain + {name}) + [reg[name]]
  }

  ghost function LinearAll(reg: map<string, JobConfig>, names: seq<string>, chain: set<string>): seq<JobConfig>
    decreases reg.Keys - chain, |names| + 1
  {
    if names == [] then []
    else LinearAll(reg, names[..|names| - 1], chain) + Linear(reg, Last(names), chain)
  }

  ghost function Fold(base: JobConfig, jobs: seq<JobConfig>): JobConfig {
    if jobs == [] then base else Merge(Fold(base, jobs[..|jobs| - 1]), Last(jobs))
  }

  lemma {:induction false} FoldAppend(base: JobConfig, xs: seq<JobConfig>, ys: seq<JobConfig>)
    ensures Fold(base, xs + ys) == Fold(Fold(base, xs), ys)
  {
    if ys == [] {
      assert xs + ys == xs;
    } else {
      var front, last := ys[..|ys| - 1], Last(ys);
      FoldAppend(base, xs, front);
      AppendFrontLast(xs, ys);
      FoldSnoc(base, xs + front, last);
    }
  }

  lemma FoldSnoc(base: JobConfig, xs: seq<JobConfig>, x: JobConfig)
    ensures Fold(base, xs + [x]) == Merge(Fold(base, xs), x)
  {
    assert (xs + [x])[..|xs|] == xs;
  }

  lemma {:induction false} FoldAsOverlay(base: JobConfig, xs: seq<JobConfig>)
    ensures Merge(base, Fold(ZeroJob, xs)) == Fold(base, xs)
  {
    if xs == [] {
      MergeZero(base, base);
    } else {
      var front := xs[..|xs| - 1];
      FoldAsOverlay(base, front);
      MergeAssociative(base, Fold(ZeroJob, front), Last(xs));
    }
  }

  ghost predicate ActsLike(job: JobConfig, jobs: seq<JobConfig>) {
    forall base :: Merge(base, job) == Fold(base, jobs)
  }

  /** As an overlay, a resolved job acts like its whole linearisation, one job after the other. */
  lemma {:induction false} ResolvedAsOverlay(job: JobConfig, reg: map<string, JobConfig>, seen: seq<string>)
    requires Keyed(reg) && job.name in reg && reg[job.name] == job
    requires Resolve(job, reg, seen).Ok?
    ensures ActsLike(Resolve(job, reg, seen).value, Linear(reg, job.name, Elements(seen)))
    ensures job.extendsList != [] ==>
              Resolve(job, reg, seen).value == Fold(ZeroJob, Linear(reg, job.name, Elements(seen))).(extendsList := [])
    decreases Room(reg, job, seen)
  {
    var chain := seen + [job.name];
    assert Elements(chain) == Elements(seen) + {job.name};
    if job.extendsList == [] {
      SingleActsLike(job);
      assert Linear(reg, job.name, Elements(seen)) == [job];
    } else {
      RoomShrinks(reg, job, seen);
      var parents := Parents(job, reg, chain);
      CombineAllOk(parents);
      forall i | 0 <= i < |parents|
        ensures job.extendsList[i] in reg
                && ActsLike(parents[i].value, Linear(reg, job.extendsList[i], Elements(chain)))
      {
        assert parents[i] == Parent(job, reg, chain, job.extendsList[i]);
        RoomSame(reg, job, job.extendsList[i], chain);
        ResolvedAsOverlay(reg[job.extendsList[i]], reg, chain);
      }
      CombineIsFold(reg, parents, job.extendsList, Elements(chain));
      JobOnTop(job, LinearAll(reg, job.extendsList, Elements(chain)));
    }
  }

  lemma SingleActsLike(job: JobConfig)
    ensures ActsLike(job, [job])
  {
    assert [job][..0] == [];
    forall base ensures Merge(base, job) == Fold(base, [job]) {
      assert Fold(base, [job][..0]) == base;
    }
  }

  lemma JobOnTop(job: JobConfig, below: seq<JobConfig>)
    ensures Fold(ZeroJob, below + [job]) == Merge(Fold(ZeroJob, below), job)
    ensures ActsLike(Merge(Fold(ZeroJob, below), job).(extendsList := []), below + [job])
  {
    var all := below + [job];
    assert all[..|all| - 1] == below;
    forall base ensures Merge(base, Fold(ZeroJob, all).(extendsList := [])) == Fold(base, all) {
      MergeZero(base, Fold(ZeroJob, all));
      FoldAsOverlay(base, all);
    }
  }

  lemma {:induction false} CombineAllOk(parents: seq<Result<JobConfig, ExtendsError>>)
    requires Combine(parents).Ok?
    ensures forall i :: 0 <= i < |parents| ==> parents[i].Ok?
  {
    if parents != [] {
      CombineAllOk(parents[..|parents| - 1]);
      assert parents == parents[..|parents| - 1] + [Last(parents)];
    }
  }

  lemma {:induction false} CombineIsFold(reg: map<string, JobConfig>, parents: seq<Result<JobConfig, ExtendsError>>,
                                         names: seq<string>, chain: set<string>)
    requires |parents| == |names| && Combine(parents).Ok?
    requires forall i :: 0 <= i < |names| ==> parents[i].Ok? && ActsLike(parents[i].value, Linear(reg, names[i], chain))
    ensures Combine(parents).value == Fold(ZeroJob, LinearAll(reg, names, chain))
  {
    if names != [] {
      var n := |names| - 1;
      CombineIsFold(reg, parents[..n], names[..n], chain);
      FoldAppend(ZeroJob, LinearAll(reg, names[..n], chain), Linear(reg, names[n], chain));
    }
  }

  /** Where a visit is clean, the order does not depend on the chain it was reached through. */
  lemma {:induction false} LinearChain(reg: map<string, JobConfig>, name: string, chain: set<string>,
                                       chain': set<string>)
    requires Visit(ExtendsGraph(reg), name, chain).Fine? && Visit(ExtendsGraph(reg), name, chain').Fine?
    ensures Linear(reg, name, chain) == Linear(reg, name, chain')
    decreases reg.Keys - chain, 0
  {
    LinearAllChain(reg, reg[name].extendsList, chain + {name}, chain' + {name});
  }

  lemma {:induction false} LinearAllChain(reg: map<string, JobConfig>, names: seq<string>, chain: set<string>,
                                          chain': set<string>)
    requires VisitAll(ExtendsGraph(reg), names, chain).Fine? && VisitAll(ExtendsGraph(reg), names, chain').Fine?
    ensures LinearAll(reg, names, chain) == LinearAll(reg, names, chain')
    decreases reg.Keys - chain, |names| + 1
  {
    if names != [] {
      LinearAllChain(reg, names[..|names| - 1], chain, chain');
      LinearChain(reg, Last(names), chain, chain');
    }
  }

  /** The linearisation of a resolvable job: that of each parent, left to right, and then the job. */
  lemma LinearIsDepthFirst(reg: map<string, JobConfig>, name: string)
    requires Visit(ExtendsGraph(reg), name, {}).Fine?
    ensures var parents := reg[name].extendsList;
            Linear(reg, name, {}) ==
            Concat(seq(|parents|, i requires 0 <= i < |parents| => Linear(reg, parents[i], {}))) + [reg[name]]
  {
    var g, names := ExtendsGraph(reg), reg[name].extendsList;
    LinearJoined(reg, names, seq(|names|, i requires 0 <= i < |names| => Linear(reg, names[i], {})));
    assert {} + {name} == {name};
    VisitAllShrinks(g, names, {name}, {});
    LinearAllChain(reg, names, {name}, {});
  }

  lemma {:induction false} LinearJoined(reg: map<string, JobConfig>, names: seq<string>, parts: seq<seq<JobConfig>>)
    requires |parts| == |names| && forall i :: 0 <= i < |names| ==> parts[i] == Linear(reg, names[i], {})
    ensures LinearAll(reg, names, {}) == Concat(parts)
  {
    if names != [] {
      LinearJoined(reg, names[..|names| - 1], parts[..|parts| - 1]);
    }
  }

  /** The value of the last job that sets a field, or the base's. */
  ghost function LastSet<T>(base: T, jobs: seq<JobConfig>, field: JobConfig -> T, isSet: T -> bool): T {
    if jobs == [] then base
    else if isSet(field(Last(jobs))) then field(Last(jobs))
    else LastSet(base, jobs[..|jobs| - 1], field, isSet)
  }

  /** Which job that is, by position. */
  lemma {:induction false} LastSetAt<T>(base: T, jobs: seq<JobConfig>, field: JobConfig -> T, isSet: T -> bool, i: nat)
    requires i < |jobs| && isSet(field(jobs[i])) && forall k :: i < k < |jobs| ==> !isSet(field(jobs[k]))
    ensures LastSet(base, jobs, field, isSet) == field(jobs[i])
  {
    if i < |jobs| - 1 {
      LastSetAt(base, jobs[..|jobs| - 1], field, isSet, i);
    }
  }

  lemma {:induction false} LastSetNowhere<T>(base: T, jobs: seq<JobConfig>, field: JobConfig -> T, isSet: T -> bool)
    requires forall k :: 0 <= k < |jobs| ==> !isSet(field(jobs[k]))
    ensures LastSet(base, jobs, field, isSet) == base
  {
    if jobs != [] {
      LastSetNowhere(base, jobs[..|jobs| - 1], field, isSet);
    }
  }

  lemma {:induction false} FoldField<T>(base: JobConfig, jobs: seq<JobConfig>, field: JobConfig -> T, isSet: T -> bool)
    requires forall a, b :: field(Merge(a, b)) == if isSet(field(b)) then field(b) else field(a)
    ensures field(Fold(base, jobs)) == LastSet(field(base), jobs, field, isSet)
  {
    if jobs != [] {
      FoldField(base, jobs[..|jobs| - 1], field, isSet);
    }
  }

  lemma MergeMapLookup<V>(a: Option<map<string, V>>, b: Option<map<string, V>>, k: string)
    ensures Lookup(MergeMap(a, b), k) == if Lookup(b, k).Some? then Lookup(b, k) else Lookup(a, k)
  {
  }

  /** Every field of a fold is the last non-empty one; maps are merged keywise. */
  lemma {:induction false} FoldFields(base: JobConfig, jobs: seq<JobConfig>)
    ensures var r := Fold(base, jobs);
            && r.name == LastSet(base.name, jobs, (j: JobConfig) => j.name, (x: string) => x != "")
            && r.image == LastSet(base.image, jobs, (j: JobConfig) => j.image, (x: Image) => x.name != "")
            && r.script == LastSet(base.script, jobs, (j: JobConfig) => j.script, (x: seq<string>) => x != [])
            && r.stage == LastSet(base.stage, jobs, (j: JobConfig) => j.stage, (x: string) => x != "")
            && r.workdir == LastSet(base.workdir, jobs, (j: JobConfig) => j.workdir, (x: string) => x != "")
            && r.parallel == LastSet(base.parallel, jobs, (j: JobConfig) => j.parallel, (x: Option<bool>) => x.Some?)
            && r.timeout == LastSet(base.timeout, jobs, (j: JobConfig) => j.timeout, (x: int) => x != 0)
            && r.retry == LastSet(base.retry, jobs, (j: JobConfig) => j.retry, (x: int) => x != 0)
            && r.needs == LastSet(base.needs, jobs, (j: JobConfig) => j.needs, (x: seq<string>) => x != [])
  {
    FoldField(base, jobs, (j: JobConfig) => j.name, (x: string) => x != "");
    FoldField(base, jobs, (j: JobConfig) => j.image, (x: Image) => x.name != "");
    FoldField(base, jobs, (j: JobConfig) => j.script, (x: seq<string>) => x != []);
    FoldField(base, jobs, (j: JobConfig) => j.stage, (x: string) => x != "");
    FoldField(base, jobs, (j: JobConfig) => j.workdir, (x: string) => x != "");
    FoldField(base, jobs, (j: JobConfig) => j.parallel, (x: Option<bool>) => x.Some?);
    FoldField(base, jobs, (j: JobConfig) => j.timeout, (x: int) => x != 0);
    FoldField(base, jobs, (j: JobConfig) => j.retry, (x: int) => x != 0);
    FoldField(base, jobs, (j: JobConfig) => j.needs, (x: seq<string>) => x != []);
  }

  lemma {:induction false} FoldOtherFields(base: JobConfig, jobs: seq<JobConfig>)
    ensures var r := Fold(base, jobs);
            && r.cache == LastSet(base.cache, jobs, (j: JobConfig) => j.cache, (x: Option<Cache>) => x.Some?)
            && r.network == LastSet(base.network, jobs, (j: JobConfig) => j.network, (x: Option<Network>) => x.Some?)
            && r.jobBootstrap == LastSet(base.jobBootstrap, jobs, (j: JobConfig) => j.jobBootstrap,
                                         (x: Option<Hook>) => x.Some?)
            && r.jobCleanup == LastSet(base.jobCleanup, jobs, (j: JobConfig) => j.jobCleanup,
                                       (x: Option<Hook>) => x.Some?)
            && r.matrix == LastSet(base.matrix, jobs, (j: JobConfig) => j.matrix, (x: seq<MatrixEntry>) => x != [])
            && r.services == LastSet(base.services, jobs, (j: JobConfig) => j.services, (x: seq<Service>) => x != [])
            && r.artifacts == LastSet(base.artifacts, jobs, (j: JobConfig) => j.artifacts,
                                      (x: Option<Artifacts>) => x.Some?)
  {
    FoldField(base, jobs, (j: JobConfig) => j.cache, (x: Option<Cache>) => x.Some?);
    FoldField(base, jobs, (j: JobConfig) => j.network, (x: Option<Network>) => x.Some?);
    FoldField(base, jobs, (j: JobConfig) => j.jobBootstrap, (x: Option<Hook>) => x.Some?);
    FoldField(base, jobs, (j: JobConfig) => j.jobCleanup, (x: Option<Hook>) => x.Some?);
    FoldField(base, jobs, (j: JobConfig) => j.matrix, (x: seq<MatrixEntry>) => x != []);
    FoldField(base, jobs, (j: JobConfig) => j.services, (x: seq<Service>) => x != []);
    FoldField(base, jobs, (j: JobConfig) => j.artifacts, (x: Option<Artifacts>) => x.Some?);
  }

  /** Each variable and each registry host takes the value of the last job that defines it. */
  lemma {:induction false} FoldKeys(base: JobConfig, jobs: seq<JobConfig>, k: string)
    ensures Lookup(Fold(base, jobs).variables, k) ==
              LastSet(Lookup(base.variables, k), jobs, (j: JobConfig) => Lookup(j.variables, k),
                      (x: Option<string>) => x.Some?)
    ensures Lookup(Fold(base, jobs).registries, k) ==
              LastSet(Lookup(base.registries, k), jobs, (j: JobConfig) => Lookup(j.registries, k),
                      (x: Option<Credentials>) => x.Some?)
  {
    forall a: JobConfig, b: JobConfig
      ensures Lookup(Merge(a, b).variables, k) ==
                if Lookup(b.variables, k).Some? then Lookup(b.variables, k) else Lookup(a.variables, k)
      ensures Lookup(Merge(a, b).registries, k) ==
                if Lookup(b.registries, k).Some? then Lookup(b.registries, k) else Lookup(a.registries, k)
    {
      MergeMapLookup(a.variables, b.variables, k);
      MergeMapLookup(a.registries, b.registries, k);
    }
    FoldField(base, jobs, (j: JobConfig) => Lookup(j.variables, k), (x: Option<string>) => x.Some?);
    FoldField(base, jobs, (j: JobConfig) => Lookup(j.registries, k), (x: Option<Credentials>) => x.Some?);
  }
}
