/** When exactly the waits of a DAG run cannot deadlock: when the dependency graph has no cycle. */
module DagExact {
  import opened Basics
  import opened Graph
  import opened Explore
  import opened DagRun

  // ---- Acyclic graphs have ranks ------------------------------------------------

  /** The longest walk from a node that avoids the chain. */
  ghost function Depth(g: Digraph, a: string, chain: set<string>): nat
    decreases g.Keys - chain, 0
  {
    if a in chain || a !in g then 0 else 1 + Deepest(g, g[a], chain + {a})
  }

  ghost function Deepest(g: Digraph, targets: seq<string>, chain: set<string>): nat
    decreases g.Keys - chain, |targets| + 1
  {
    if targets == [] then 0
    else
      var m, n := Deepest(g, targets[..|targets| - 1], chain), Depth(g, Last(targets), chain);
      if m >= n then m else n
  }

  lemma {:induction false} DeepestBounds(g: Digraph, targets: seq<string>, chain: set<string>, b: string)
    requires b in targets
    ensures Depth(g, b, chain) <= Deepest(g, targets, chain)
  {
    if b in targets[..|targets| - 1] {
      DeepestBounds(g, targets[..|targets| - 1], chain, b);
    }
  }

  /** Where a visit is clean, the chain does not matter. */
  lemma {:induction false} DepthChain(g: Digraph, a: string, chain: set<string>, chain': set<string>)
    requires Visit(g, a, chain).Fine? && Visit(g, a, chain').Fine?
    ensures Depth(g, a, chain) == Depth(g, a, chain')
    decreases g.Keys - chain, 0
  {
    DeepestChain(g, g[a], chain + {a}, chain' + {a});
  }

  lemma {:induction false} DeepestChain(g: Digraph, targets: seq<string>, chain: set<string>, chain': set<string>)
    requires VisitAll(g, targets, chain).Fine? && VisitAll(g, targets, chain').Fine?
    ensures Deepest(g, targets, chain) == Deepest(g, targets, chain')
    decreases g.Keys - chain, |targets| + 1
  {
    if targets != [] {
      DeepestChain(g, targets[..|targets| - 1], chain, chain');
      DepthChain(g, Last(targets), chain, chain');
    }
  }

  lemma AcyclicIsClean(g: Digraph, a: string)
    requires ClosedGraph(g) && Acyclic(g) && a in g
    ensures Visit(g, a, {}).Fine?
  {
    forall p | IsPath(g, p) && p[0] == a ensures Last(p) in g && Last(p) !in p[..|p| - 1] {
      if |p| > 1 {
        assert Edge(g, p[|p| - 2], p[|p| - 1]);
      }
      if k :| 0 <= k < |p| - 1 && p[k] == Last(p) {
        PathSlice(g, p, k, |p|);
        assert IsCycle(g, p[k..|p|]);
      }
    }
    VisitExact(g, a);
  }

  lemma EdgeGoesUp(g: Digraph, a: string, b: string)
    requires Visit(g, a, {}).Fine? && Visit(g, b, {}).Fine? && Edge(g, a, b)
    ensures Depth(g, b, {}) < Depth(g, a, {})
  {
    var k :| 0 <= k < |g[a]| && g[a][k] == b;
    assert {} + {a} == {a};
    VisitAllFine(g, g[a], {a}, k);
    DepthChain(g, b, {}, {a});
    DeepestBounds(g, g[a], {a}, b);
  }

  lemma AcyclicIsRanked(g: Digraph)
    requires ClosedGraph(g) && Acyclic(g)
    ensures exists rank: string -> nat :: RanksDown(g, rank)
  {
    var rank: string -> nat := a => Depth(g, a, {});
    forall a, b | Edge(g, a, b) ensures rank(b) < rank(a) {
      AcyclicIsClean(g, a);
      AcyclicIsClean(g, b);
      EdgeGoesUp(g, a, b);
    }
    assert RanksDown(g, rank);
  }

  // ---- A complete run of passing jobs ranks them ----------------------------------

  ghost predicate AllPass(inst: Instance) {
    forall j :: j in inst.passes ==> inst.passes[j]
  }

  ghost predicate Undisturbed(steps: seq<Step>) {
    forall i :: 0 <= i < |steps| ==> steps[i].Act?
  }

  ghost predicate Unharmed(l: Local) {
    !l.result.failed && !l.result.skipped && (l.pc.Reporting? ==> l.pc.ok)
  }

  lemma {:induction false} NothingSkipped(inst: Instance, steps: seq<Step>)
    requires WellFormed(inst) && AllPass(inst) && Undisturbed(steps) && Run(inst, steps).Some?
    ensures !Run(inst, steps).value.cancelled
    ensures forall j :: Unharmed(Run(inst, steps).value.At(j))
  {
    if steps != [] {
      var front, step := steps[..|steps| - 1], Last(steps);
      NothingSkipped(inst, front);
      var s, s' := Run(inst, front).value, Run(inst, steps).value;
      assert steps[|steps| - 1].Act?;
      forall j ensures Unharmed(s'.At(j)) {
        assert Unharmed(s.At(j));
        if j == step.job {
          ActUnharmed(inst, s, j, step.action);
        }
      }
    }
  }

  lemma ActUnharmed(inst: Instance, s: State, j: string, action: Action)
    requires AllPass(inst) && CanAct(inst, s, j, action) && !s.cancelled
    requires forall d :: Unharmed(s.At(d))
    ensures Unharmed(After(inst, s, j, action))
  {
    assert Unharmed(s.At(j));
    if action.Await? {
      assert Unharmed(s.At(inst.deps[j][s.jobs[j].pc.cursor]));
    }
  }

  ghost function First(log: seq<Event>, e: Event): nat {
    if log == [] || log[0] == e then 0 else 1 + First(log[1..], e)
  }

  lemma {:induction false} FirstIsFirst(log: seq<Event>, e: Event, i: nat)
    requires i < |log| && log[i] == e
    ensures First(log, e) <= i && log[First(log, e)] == e
  {
    if log[0] != e {
      FirstIsFirst(log[1..], e, i - 1);
    }
  }

  lemma {:induction false} EventsOfPrefix(log: seq<Event>, j: string, n: nat)
    requires n <= |log|
    ensures EventsOf(log[..n], j) <= EventsOf(log, j)
  {
    if n < |log| {
      var front := log[..|log| - 1];
      EventsOfPrefix(front, j, n);
      assert front[..n] == log[..n];
    } else {
      assert log[..n] == log;
    }
  }

  /** A job that starts first starts before anything else it emits. */
  lemma StartComesFirst(log: seq<Event>, d: string, q: nat)
    requires q < |log| && log[q].job == d && log[q] != Started(d)
    requires EventsOf(log, d) != [] && EventsOf(log, d)[0] == Started(d)
    ensures Started(d) in log[..q]
  {
    var m := q + 1;
    EventsOfPrefix(log, d, m);
    assert log[..m] == log[..q] + [log[q]];
    EventsOfAppend(log[..q], [log[q]], d);
    EventIsLogged(log[..q], d, Started(d));
  }

  lemma CompleteRunRanks(inst: Instance, steps: seq<Step>)
    requires WellFormed(inst) && AllPass(inst) && Undisturbed(steps)
    requires Run(inst, steps).Some? && AllClosed(inst, Run(inst, steps).value)
    ensures exists rank: string -> nat :: RanksDown(inst.deps, rank)
  {
    var s := Run(inst, steps).value;
    ReachableInv(inst, steps);
    NothingSkipped(inst, steps);
    var rank: string -> nat := j => First(s.log, Started(j));
    forall a, b | Edge(inst.deps, a, b) ensures rank(b) < rank(a) {
      assert JobInv(inst, s, a) && JobInv(inst, s, b) && s.At(a).pc.Closed? && s.At(b).pc.Closed?;
      WaitOrdersStarts(inst, s, a, b);
    }
    assert RanksDown(inst.deps, rank);
  }

  lemma WaitOrdersStarts(inst: Instance, s: State, a: string, b: string)
    requires StartsAfterDeps(inst, s.log) && Edge(inst.deps, a, b)
    requires forall j :: j in {a, b} ==> EventsOf(s.log, j) == [Started(j), Finished(j, true)]
    ensures First(s.log, Started(b)) < First(s.log, Started(a))
  {
    assert a in {a, b} && b in {a, b};
    EventIsLogged(s.log, a, Started(a));
    var i :| 0 <= i < |s.log| && s.log[i] == Started(a);
    FirstIsFirst(s.log, Started(a), i);
    var p := First(s.log, Started(a));
    assert Finished(b, true) in s.log[..p];
    var q :| 0 <= q < p && s.log[q] == Finished(b, true);
    StartComesFirst(s.log, b, q);
    var k :| 0 <= k < q && s.log[k] == Started(b);
    FirstIsFirst(s.log, Started(b), k);
  }

  // ---- The condition ------------------------------------------------------------

  ghost predicate CanMove(inst: Instance, s: State) {
    exists step :: Enabled(inst, s, step) && step.Act?
  }

  /** The run has stopped short: channels are open and no job can move. */
  ghost predicate Stuck(inst: Instance, steps: seq<Step>) {
    Run(inst, steps).Some? && !AllClosed(inst, Run(inst, steps).value) && !CanMove(inst, Run(inst, steps).value)
  }

  /** Every schedule is bounded, and wherever it stops some job can move unless all are through. */
  ghost predicate AlwaysFinishes(inst: Instance) {
    forall steps :: Run(inst, steps).Some? ==>
      && |steps| <= Measure(inst, Init(inst))
      && (AllClosed(inst, Run(inst, steps).value) || CanMove(inst, Run(inst, steps).value))
  }

  lemma RankedFinishes(inst: Instance, rank: string -> nat)
    requires WellFormed(inst) && RanksDown(inst.deps, rank)
    ensures AlwaysFinishes(inst)
  {
    forall steps | Run(inst, steps).Some?
      ensures |steps| <= Measure(inst, Init(inst))
      ensures AllClosed(inst, Run(inst, steps).value) || CanMove(inst, Run(inst, steps).value)
    {
      RunsAreBounded(inst, steps);
      if !AllClosed(inst, Run(inst, steps).value) {
        NoDeadlock(inst, steps, rank);
      }
    }
  }

  /** A run that is never stuck can be carried on to the end. */
  lemma {:induction false} CarryOn(inst: Instance, steps: seq<Step>) returns (all: seq<Step>)
    requires AlwaysFinishes(inst) && Undisturbed(steps) && Run(inst, steps).Some?
    ensures Undisturbed(all) && Run(inst, all).Some? && AllClosed(inst, Run(inst, all).value)
    decreases Measure(inst, Init(inst)) - |steps|
  {
    var s := Run(inst, steps).value;
    if AllClosed(inst, s) {
      all := steps;
    } else {
      var step :| Enabled(inst, s, step) && step.Act?;
      var s' := RunSnoc(inst, steps, step);
      all := CarryOn(inst, steps + [step]);
    }
  }

  ghost predicate SameGraph(inst: Instance, other: Instance) {
    other == inst.(passes := other.passes) && other.passes.Keys == inst.passes.Keys
  }

  /** Whatever the jobs' results, the waits never deadlock, exactly when the dependency graph is acyclic. */
  lemma DeadlockFreeExactly(inst: Instance)
    requires WellFormed(inst)
    ensures (forall other :: SameGraph(inst, other) ==> AlwaysFinishes(other)) <==> Acyclic(inst.deps)
  {
    if Acyclic(inst.deps) {
      AcyclicIsRanked(inst.deps);
      var rank: string -> nat :| RanksDown(inst.deps, rank);
      forall other | SameGraph(inst, other) ensures AlwaysFinishes(other) {
        RankedFinishes(other, rank);
      }
    }
    var other := inst.(passes := map j | j in inst.passes :: true);
    if AlwaysFinishes(other) {
      FinishingIsAcyclic(other);
    }
    assert SameGraph(inst, other);
  }

  lemma FinishingIsAcyclic(inst: Instance)
    requires WellFormed(inst) && AllPass(inst) && AlwaysFinishes(inst)
    ensures Acyclic(inst.deps)
  {
    var all := CarryOn(inst, []);
    CompleteRunRanks(inst, all);
    var rank: string -> nat :| RanksDown(inst.deps, rank);
    RankedIsAcyclic(inst.deps, rank);
  }

  /** On a cyclic graph, some run of passing jobs gets stuck: channels stay open and no job can move. */
  lemma CyclesGetStuck(inst: Instance) returns (steps: seq<Step>)
    requires WellFormed(inst) && AllPass(inst) && !Acyclic(inst.deps)
    ensures Stuck(inst, steps)
  {
    if AlwaysFinishes(inst) {
      FinishingIsAcyclic(inst);
    }
    steps :| Run(inst, steps).Some? &&
             !(|steps| <= Measure(inst, Init(inst))
               && (AllClosed(inst, Run(inst, steps).value) || CanMove(inst, Run(inst, steps).value)));
    RunsAreBounded(inst, steps);
  }
}
