/** The needs-graph check of internal/config/validator.go. */
module NeedsValidator {
  import opened Basics
  import opened Graph
  import opened ConfigModel
  import opened Listing

  datatype NeedsError =
    | UnknownJob(job: string, need: string)
    | SelfNeed(job: string)
    | LaterStage(job: string, need: string)
    | NeedsCycle(from: string, to: string)

  ghost function NeedsGraph(jobs: seq<JobConfig>): Digraph {
    var byName := ByName(jobs);
    map name | name in byName :: byName[name].needs
  }

  /** What one `needs` reference of one job is rejected for, if anything. */
  function RefError(byName: map<string, JobConfig>, idx: map<string, nat>, job: JobConfig,
                    need: string): Option<NeedsError> {
    if need !in byName then Some(UnknownJob(job.name, need))
    else if need == job.name then Some(SelfNeed(job.name))
    else if StageAt(idx, byName[need].stage) > StageAt(idx, job.stage) then Some(LaterStage(job.name, need))
    else None
  }

  ghost predicate RefsOkUpTo(stages: seq<string>, jobs: seq<JobConfig>, i: nat, k: nat) {
    forall a, b :: 0 <= a < |jobs| && 0 <= b < |jobs[a].needs| && (a < i || (a == i && b < k)) ==>
      RefError(ByName(jobs), StageIndex(stages), jobs[a], jobs[a].needs[b]).None?
  }

  /** Every reference names another job, not of a later stage. */
  ghost predicate RefsOk(stages: seq<string>, jobs: seq<JobConfig>) {
    RefsOkUpTo(stages, jobs, |jobs|, 0)
  }

  /** What the check accepts: sound references, and an order in which every need comes first. */
  ghost predicate NeedsAccepted(stages: seq<string>, jobs: seq<JobConfig>) {
    RefsOk(stages, jobs) && exists order :: IsTopologicalOrder(NeedsGraph(jobs), order)
  }

  /** Sound references keep the needs graph inside the job list. */
  lemma RefsOkCloses(stages: seq<string>, jobs: seq<JobConfig>)
    requires RefsOk(stages, jobs)
    ensures ClosedGraph(NeedsGraph(jobs))
  {
    ByNameKnows(jobs);
    forall a, b | Edge(NeedsGraph(jobs), a, b) ensures b in NeedsGraph(jobs) {
      var i :| 0 <= i < |jobs| && jobs[i] == ByName(jobs)[a];
      var k :| 0 <= k < |jobs[i].needs| && jobs[i].needs[k] == b;
      assert RefError(ByName(jobs), StageIndex(stages), jobs[i], jobs[i].needs[k]).None?;
    }
  }

  datatype Color = Grey | Black

  /** The grey nodes are exactly the current call chain; the black ones are listed in finishing order. */
  ghost predicate SearchState(g: Digraph, color: map<string, Color>, finished: seq<string>, chain: seq<string>) {
    && ClosedGraph(g)
    && color.Keys <= g.Keys
    && (chain == [] || IsPath(g, chain))
    && (forall n :: n in chain <==> n in color && color[n] == Grey)
    && (forall n :: n in finished <==> n in color && color[n] == Black)
    && Distinct(finished)
    && IsTopological(g, finished)
  }

  lemma EnterNode(g: Digraph, color: map<string, Color>, finished: seq<string>, chain: seq<string>, name: string)
    requires SearchState(g, color, finished, chain)
    requires name in g && name !in color
    requires chain == [] || Edge(g, Last(chain), name)
    ensures SearchState(g, color[name := Grey], finished, chain + [name])
  {
    PathSnoc(g, chain, name);
  }

  lemma LeaveNode(g: Digraph, color: map<string, Color>, finished: seq<string>, chain: seq<string>, name: string)
    requires SearchState(g, color, finished, chain + [name])
    requires name !in chain && name in g
    requires AllIn(g[name], finished)
    ensures SearchState(g, color[name := Black], finished + [name], chain)
  {
    var here := chain + [name];
    assert name in here;
    TopologicalSnoc(g, finished, name);
    if chain != [] {
      PathSlice(g, here, 0, |chain|);
      assert here[0..|chain|] == chain;
    }
    assert forall n :: n in here <==> n in chain || n == name;
  }

  ghost predicate AllIn(xs: seq<string>, s: seq<string>) {
    forall x :: x in xs ==> x in s
  }

  lemma TopologicalSnoc(g: Digraph, finished: seq<string>, name: string)
    requires IsTopological(g, finished) && name in g && AllIn(g[name], finished)
    ensures IsTopological(g, finished + [name])
  {
    var longer := finished + [name];
    forall i, b | 0 <= i < |longer| && Edge(g, longer[i], b) ensures b in longer[..i] {
      if i < |finished| {
        assert longer[..i] == finished[..i];
      } else {
        assert longer[..i] == finished;
      }
    }
  }

  lemma AllInGrows(xs: seq<string>, s: seq<string>, t: seq<string>)
    requires AllIn(xs, s) && s <= t
    ensures AllIn(xs, t)
  {
    forall x | x in xs ensures x in t {
      var i := IndexOf(s, x);
      assert t[i] == x;
    }
  }

  lemma AllInSnoc(xs: seq<string>, i: nat, s: seq<string>)
    requires i < |xs| && AllIn(xs[..i], s) && xs[i] in s
    ensures AllIn(xs[..i + 1], s)
  {
    assert xs[..i + 1] == xs[..i] + [xs[i]];
  }

  /** An edge back into the chain closes a cycle. */
  lemma BackEdge(g: Digraph, chain: seq<string>, need: string)
    requires IsPath(g, chain) && Edge(g, Last(chain), need) && need in chain
    ensures exists p :: IsCycle(g, p) && p[|p| - 2] == Last(chain) && Last(p) == need
  {
    var k := IndexOf(chain, need);
    PathSlice(g, chain, k, |chain|);
    PathSnoc(g, chain[k..|chain|], need);
    assert IsCycle(g, chain[k..|chain|] + [need]);
  }

  /** The three-colour search: `color` has no entry for a white node. */
  class NeedsSearch {
    const byName: map<string, JobConfig>
    ghost const graph: Digraph
    var color: map<string, Color>
    ghost var finished: seq<string>

    constructor (byName: map<string, JobConfig>)
      ensures this.byName == byName && color == map[] && finished == []
      ensures graph == map name | name in byName :: byName[name].needs
    {
      this.byName := byName;
      graph := map name | name in byName :: byName[name].needs;
      color := map[];
      finished := [];
    }

    ghost predicate Valid(chain: seq<string>)
      reads this
    {
      && graph.Keys == byName.Keys
      && (forall name :: name in byName ==> graph[name] == byName[name].needs)
      && SearchState(graph, color, finished, chain)
    }

    /** Visits a white node; the result is the edge that closes a cycle, if one is found. */
    method Visit(name: string, ghost chain: seq<string>) returns (r: Option<(string, string)>)
      requires Valid(chain)
      requires name in byName && name !in color
      requires chain == [] || Edge(graph, Last(chain), name)
      modifies this
      ensures r.None? ==> Valid(chain) && name in finished
      ensures r.None? ==> old(finished) <= finished && old(color).Keys <= color.Keys
      ensures r.Some? ==> exists p :: IsCycle(graph, p) && p[|p| - 2] == r.value.0 && Last(p) == r.value.1
      decreases byName.Keys - color.Keys, 0
    {
      EnterNode(graph, color, finished, chain, name);
      color := color[name := Grey];
      assert name !in chain;
      r := VisitNeeds(name, chain + [name]);
      if r.None? {
        LeaveNode(graph, color, finished, chain, name);
        color := color[name := Black];
        finished := finished + [name];
      }
    }

    /** Everything a grey node needs, in order, until an edge closes a cycle. */
    method VisitNeeds(name: string, ghost here: seq<string>) returns (r: Option<(string, string)>)
      requires Valid(here) && here != [] && Last(here) == name && name in byName
      modifies this
      ensures r.None? ==> Valid(here) && AllIn(byName[name].needs, finished)
      ensures r.None? ==> old(finished) <= finished && old(color).Keys <= color.Keys
      ensures r.Some? ==> exists p :: IsCycle(graph, p) && p[|p| - 2] == r.value.0 && Last(p) == r.value.1
      decreases byName.Keys - color.Keys, 1
    {
      var needs := byName[name].needs;
      for i := 0 to |needs|
        invariant Valid(here)
        invariant old(color).Keys <= color.Keys && old(finished) <= finished
        invariant AllIn(needs[..i], finished)
      {
        var need := needs[i];
        assert Edge(graph, name, need);
        if need in color && color[need] == Grey {
          BackEdge(graph, here, need);
          return Some((name, need));
        } else if need !in color {
          ghost var before := finished;
          var inner := Visit(need, here);
          if inner.Some? {
            return inner;
          }
          AllInGrows(needs[..i], before, finished);
        }
        AllInSnoc(needs, i, finished);
      }
      assert needs[..|needs|] == needs;
      return None;
    }
  }

  /** Stops at the first bad reference, in job order and then in list order. */
  method CheckRefs(stages: seq<string>, jobs: seq<JobConfig>, byName: map<string, JobConfig>)
      returns (r: Option<NeedsError>)
    requires byName == ByName(jobs)
    ensures r.None? <==> RefsOk(stages, jobs)
    ensures r.Some? ==> FirstRefError(stages, jobs, r.value)
  {
    var stageIdx := IndexStages(stages);
    for i := 0 to |jobs|
      invariant RefsOkUpTo(stages, jobs, i, 0)
    {
      for k := 0 to |jobs[i].needs|
        invariant RefsOkUpTo(stages, jobs, i, k)
      {
        var bad := RefError(byName, stageIdx, jobs[i], jobs[i].needs[k]);
        if bad.Some? {
          return bad;
        }
      }
    }
    return None;
  }

  ghost predicate FirstRefError(stages: seq<string>, jobs: seq<JobConfig>, e: NeedsError) {
    exists i, k :: 0 <= i < |jobs| && 0 <= k < |jobs[i].needs| && RefsOkUpTo(stages, jobs, i, k)
                   && RefError(ByName(jobs), StageIndex(stages), jobs[i], jobs[i].needs[k]) == Some(e)
  }

  // ---- The same by positions ----------------------------------------------------

  ghost predicate AllListed(stages: seq<string>, jobs: seq<JobConfig>) {
    forall j :: j in jobs ==> j.stage in stages
  }

  /** The need names another job, the last of that name at `k`, whose stage is listed at `a`; the job's
      own stage is listed at `b`. A repeated stage counts at its last position. */
  ghost predicate NeedAt(stages: seq<string>, jobs: seq<JobConfig>, i: nat, need: string, k: int, a: int, b: int)
    requires i < |jobs|
  {
    && need != jobs[i].name && LastAt(Names(jobs), k, need)
    && LastAt(stages, a, jobs[k].stage) && LastAt(stages, b, jobs[i].stage)
  }

  ghost predicate NeedSound(stages: seq<string>, jobs: seq<JobConfig>, i: nat, need: string)
    requires i < |jobs|
  {
    exists k, a, b :: NeedAt(stages, jobs, i, need, k, a, b) && a <= b
  }

  ghost predicate NeedsSound(stages: seq<string>, jobs: seq<JobConfig>) {
    forall i, n :: 0 <= i < |jobs| && 0 <= n < |jobs[i].needs| ==> NeedSound(stages, jobs, i, jobs[i].needs[n])
  }

  /** What is wrong with a need, by positions: no such job, the job itself, or a stage listed later. */
  lemma RefErrorByPosition(stages: seq<string>, jobs: seq<JobConfig>, i: nat, need: string)
    requires i < |jobs| && AllListed(stages, jobs)
    ensures match RefError(ByName(jobs), StageIndex(stages), jobs[i], need)
            case None => NeedSound(stages, jobs, i, need)
            case Some(e) =>
              && !NeedSound(stages, jobs, i, need)
              && match e
                 case UnknownJob(job, n) => job == jobs[i].name && n == need && need !in Names(jobs)
                 case SelfNeed(job) => job == jobs[i].name == need
                 case LaterStage(job, n) =>
                   && job == jobs[i].name && n == need
                   && exists k, a, b :: NeedAt(stages, jobs, i, need, k, a, b) && b < a
                 case NeedsCycle(_, _) => false
  {
    ByNameIsLast(jobs, need);
    if need in Names(jobs) {
      var k := LastAtExists(Names(jobs), need);
      assert jobs[k] in jobs && jobs[i] in jobs;
      var a := LastAtExists(stages, jobs[k].stage);
      var b := LastAtExists(stages, jobs[i].stage);
      StageIndexIsLast(stages, jobs[k].stage);
      StageIndexIsLast(stages, jobs[i].stage);
      if need != jobs[i].name {
        assert NeedAt(stages, jobs, i, need, k, a, b);
        assert forall k', a', b' :: NeedAt(stages, jobs, i, need, k', a', b') ==> k' == k && a' == a && b' == b;
      }
    }
  }

  lemma RefsOkByPosition(stages: seq<string>, jobs: seq<JobConfig>)
    requires AllListed(stages, jobs)
    ensures RefsOk(stages, jobs) <==> NeedsSound(stages, jobs)
  {
    forall i, n | 0 <= i < |jobs| && 0 <= n < |jobs[i].needs|
      ensures NeedSound(stages, jobs, i, jobs[i].needs[n]) <==>
                RefError(ByName(jobs), StageIndex(stages), jobs[i], jobs[i].needs[n]).None?
    {
      RefErrorByPosition(stages, jobs, i, jobs[i].needs[n]);
    }
  }

  /** The searched graph: from the last job of each name to what it needs. */
  lemma NeedsGraphEdges(jobs: seq<JobConfig>, x: string, y: string)
    ensures Edge(NeedsGraph(jobs), x, y) <==> exists i :: LastAt(Names(jobs), i, x) && y in jobs[i].needs
  {
    ByNameIsLast(jobs, x);
    if x in Names(jobs) {
      var k := LastAtExists(Names(jobs), x);
      assert forall i :: LastAt(Names(jobs), i, x) ==> i == k;
    }
  }

  /** The roots are visited in any order; the answer does not depend on it. */
  method FindCycle(byName: map<string, JobConfig>, ghost g: Digraph) returns (r: Option<(string, string)>)
    requires g == map name | name in byName :: byName[name].needs
    requires ClosedGraph(g)
    ensures r.None? ==> exists order :: IsTopologicalOrder(g, order)
    ensures r.Some? ==> exists p :: IsCycle(g, p) && p[|p| - 2] == r.value.0 && Last(p) == r.value.1
  {
    var search := new NeedsSearch(byName);
    var roots := byName.Keys;
    while roots != {}
      invariant search.byName == byName && search.graph == g && fresh(search)
      invariant search.Valid([])
      invariant roots <= byName.Keys
      invariant forall n :: n in byName && n !in roots ==> n in search.finished
    {
      var name :| name in roots;
      if name !in search.color {
        ghost var before := search.finished;
        r := search.Visit(name, []);
        if r.Some? {
          return;
        }
        assert forall n :: n in before ==> n in search.finished by {
          AllInGrows(before, before, search.finished);
        }
      }
      roots := roots - {name};
    }
    assert IsTopologicalOrder(g, search.finished);
    r := None;
  }

  /** The check accepts exactly the sound references over an acyclic needs graph. */
  method ValidateNeeds(stages: seq<string>, jobs: seq<JobConfig>) returns (r: Option<NeedsError>)
    ensures r.None? <==> RefsOk(stages, jobs) && Acyclic(NeedsGraph(jobs))
    ensures r.None? <==> NeedsAccepted(stages, jobs)
    ensures AllListed(stages, jobs) ==> (r.None? <==> NeedsSound(stages, jobs) && Acyclic(NeedsGraph(jobs)))
    ensures r.Some? && !r.value.NeedsCycle? ==> FirstRefError(stages, jobs, r.value)
    ensures r.Some? && r.value.NeedsCycle? ==>
              RefsOk(stages, jobs) &&
              exists p :: IsCycle(NeedsGraph(jobs), p) && p[|p| - 2] == r.value.from && Last(p) == r.value.to
  {
    if AllListed(stages, jobs) {
      RefsOkByPosition(stages, jobs);
    }
    var byName := IndexJobs(jobs);
    r := CheckRefs(stages, jobs, byName);
    if r.Some? {
      return;
    }
    RefsOkCloses(stages, jobs);
    var found := FindCycle(byName, NeedsGraph(jobs));
    if found.Some? {
      r := Some(NeedsCycle(found.value.0, found.value.1));
    }
    forall order | IsTopologicalOrder(NeedsGraph(jobs), order) ensures Acyclic(NeedsGraph(jobs)) {
      TopologicalIsAcyclic(NeedsGraph(jobs), order);
    }
  }
}
