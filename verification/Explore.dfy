/** Recursive loading along references with a record of the current chain: the shape shared by
    `extends` resolution and `include` loading. */
module Explore {
  import opened Basics
  import opened Graph

  datatype Outcome = Fine | Missing(name: string) | Circular(name: string)

  /** Visits everything a node refers to, refusing a node already on the current chain. */
  ghost function Visit(g: Digraph, a: string, chain: set<string>): Outcome
    decreases g.Keys - chain, 0
  {
    if a in chain then Circular(a) else if a !in g then Missing(a) else VisitAll(g, g[a], chain + {a})
  }

  ghost function VisitAll(g: Digraph, targets: seq<string>, chain: set<string>): Outcome
    decreases g.Keys - chain, |targets| + 1
  {
    if targets == [] then Fine
    else
      var before := VisitAll(g, targets[..|targets| - 1], chain);
      if before.Fine? then Visit(g, Last(targets), chain) else before
  }

  /** Every walk from `a` ends at a node. */
  ghost predicate ClosedFrom(g: Digraph, a: string) {
    forall p :: IsPath(g, p) && p[0] == a ==> Last(p) in g
  }

  /** Some walk from `a` comes back to where it has been. */
  ghost predicate CycleFrom(g: Digraph, a: string) {
    exists p :: IsPath(g, p) && p[0] == a && Last(p) in p[..|p| - 1]
  }

  lemma PathCons(g: Digraph, a: string, p: seq<string>)
    requires IsPath(g, p) && Edge(g, a, p[0])
    ensures IsPath(g, [a] + p)
  {
    var r := [a] + p;
    forall i, j | 0 <= i < |r| - 1 && j == i + 1 ensures Edge(g, r[i], r[j]) {
      if i > 0 {
        assert Edge(g, p[i - 1], p[j - 1]);
      }
    }
  }

  lemma {:induction false} VisitAllFine(g: Digraph, targets: seq<string>, chain: set<string>, k: nat)
    requires VisitAll(g, targets, chain).Fine? && k < |targets|
    ensures Visit(g, targets[k], chain).Fine?
  {
    if k < |targets| - 1 {
      VisitAllFine(g, targets[..|targets| - 1], chain, k);
    }
  }

  lemma {:induction false} VisitAllFailure(g: Digraph, targets: seq<string>, chain: set<string>) returns (k: nat)
    requires !VisitAll(g, targets, chain).Fine?
    ensures k < |targets| && Visit(g, targets[k], chain) == VisitAll(g, targets, chain)
  {
    var front := targets[..|targets| - 1];
    if VisitAll(g, front, chain).Fine? {
      k := |targets| - 1;
    } else {
      k := VisitAllFailure(g, front, chain);
    }
  }

  /** After a clean visit, no walk leaves the graph, meets the chain or repeats a node. */
  lemma {:induction false} FineWalk(g: Digraph, a: string, chain: set<string>, p: seq<string>)
    requires Visit(g, a, chain).Fine? && IsPath(g, p) && p[0] == a
    ensures Last(p) in g && Last(p) !in chain && Last(p) !in p[..|p| - 1]
    decreases |p|
  {
    if |p| > 1 {
      assert Edge(g, p[0], p[1]);
      var k :| 0 <= k < |g[a]| && g[a][k] == p[1];
      VisitAllFine(g, g[a], chain + {a}, k);
      PathSlice(g, p, 1, |p|);
      FineWalk(g, p[1], chain + {a}, p[1..|p|]);
      assert p[..|p| - 1] == [a] + p[1..|p|][..|p| - 2];
    }
  }

  /** A failed visit comes with the walk that explains it. */
  lemma {:induction false} FailedWalk(g: Digraph, a: string, chain: set<string>) returns (p: seq<string>)
    requires !Visit(g, a, chain).Fine?
    ensures IsPath(g, p) && p[0] == a && Last(p) == Visit(g, a, chain).name
    ensures Visit(g, a, chain).Missing? ==> Last(p) !in g
    ensures Visit(g, a, chain).Circular? ==> Last(p) in chain || Last(p) in p[..|p| - 1]
    decreases g.Keys - chain
  {
    p := [a];
    if a !in chain && a in g {
      var k := VisitAllFailure(g, g[a], chain + {a});
      var q := FailedWalk(g, g[a][k], chain + {a});
      assert Edge(g, a, q[0]);
      PathCons(g, a, q);
      p := [a] + q;
      assert p[..|p| - 1] == [a] + q[..|q| - 1];
    }
  }

  /** A visit from scratch is exact: it is clean iff every walk stays inside and none comes back,
      and each failure is a real one. */
  lemma VisitExact(g: Digraph, a: string)
    ensures Visit(g, a, {}).Fine? <==> ClosedFrom(g, a) && !CycleFrom(g, a)
    ensures Visit(g, a, {}).Missing? ==> !ClosedFrom(g, a)
    ensures Visit(g, a, {}).Circular? ==> CycleFrom(g, a)
  {
    if Visit(g, a, {}).Fine? {
      forall p | IsPath(g, p) && p[0] == a ensures Last(p) in g && Last(p) !in p[..|p| - 1] {
        FineWalk(g, a, {}, p);
      }
    } else {
      var p := FailedWalk(g, a, {});
    }
  }

  /** A clean visit stays clean with a shorter chain. */
  lemma {:induction false} VisitShrinks(g: Digraph, a: string, chain: set<string>, chain': set<string>)
    requires Visit(g, a, chain).Fine? && chain' <= chain
    ensures Visit(g, a, chain').Fine?
    decreases g.Keys - chain, 0
  {
    VisitAllShrinks(g, g[a], chain + {a}, chain' + {a});
  }

  lemma {:induction false} VisitAllShrinks(g: Digraph, targets: seq<string>, chain: set<string>, chain': set<string>)
    requires VisitAll(g, targets, chain).Fine? && chain' <= chain
    ensures VisitAll(g, targets, chain').Fine?
    decreases g.Keys - chain, |targets| + 1
  {
    if targets != [] {
      VisitAllShrinks(g, targets[..|targets| - 1], chain, chain');
      VisitShrinks(g, Last(targets), chain, chain');
    }
  }

  // ---- Cutting the references of nodes already known to be clean ----------------

  ghost function Cut(g: Digraph, done: set<string>): Digraph {
    map k | k in g :: if k in done then [] else g[k]
  }

  lemma CutPath(g: Digraph, done: set<string>, p: seq<string>)
    ensures IsPath(Cut(g, done), p) ==> IsPath(g, p)
    ensures IsPath(g, p) && (forall i :: 0 <= i < |p| - 1 ==> p[i] !in done) ==> IsPath(Cut(g, done), p)
  {
    if IsPath(Cut(g, done), p) {
      forall i, j | 0 <= i < |p| - 1 && j == i + 1 ensures Edge(g, p[i], p[j]) {
        assert Edge(Cut(g, done), p[i], p[j]);
      }
    }
    if IsPath(g, p) && forall i :: 0 <= i < |p| - 1 ==> p[i] !in done {
      forall i, j | 0 <= i < |p| - 1 && j == i + 1 ensures Edge(Cut(g, done), p[i], p[j]) {
        assert Edge(g, p[i], p[j]);
      }
    }
  }

  ghost predicate Sound(g: Digraph, a: string) {
    ClosedFrom(g, a) && !CycleFrom(g, a)
  }

  lemma SoundWalk(g: Digraph, a: string, p: seq<string>)
    requires Sound(g, a) && IsPath(g, p) && p[0] == a
    ensures Last(p) in g && Last(p) !in p[..|p| - 1]
  {
  }

  /** The first visit to a cut node on a walk, if any. */
  lemma {:induction false} FirstCut(done: set<string>, p: seq<string>) returns (i: nat)
    ensures i <= |p| && (forall k :: 0 <= k < i ==> p[k] !in done)
    ensures i < |p| ==> p[i] in done
  {
    i := 0;
    while i < |p| && p[i] !in done
      invariant i <= |p| && forall k :: 0 <= k < i ==> p[k] !in done
    {
      i := i + 1;
    }
  }

  /** A walk that repeats a node and passes through `p[i]` gives a cycle reachable from there. */
  lemma RepeatIsCycle(g: Digraph, p: seq<string>, i: nat, k: nat)
    requires IsPath(g, p) && i < |p| && k < |p| - 1 && p[k] == Last(p)
    ensures CycleFrom(g, p[i])
  {
    var q := p[i..|p|];
    PathSlice(g, p, i, |p|);
    if k >= i {
      assert q[0] == p[i] && q[..|q| - 1][k - i] == Last(q);
    } else {
      WalkBack(g, p, q, k, i);
    }
  }

  /** From the end, the walk can be taken again up to `p[i]`. */
  lemma WalkBack(g: Digraph, p: seq<string>, q: seq<string>, k: nat, i: nat)
    requires IsPath(g, p) && k < i < |p| && IsPath(g, q) && q[0] == p[i] && Last(q) == p[k]
    ensures CycleFrom(g, p[i])
  {
    var back := p[k..i + 1];
    PathSlice(g, p, k, i + 1);
    PathJoin(g, q, back);
    var r := q + back[1..];
    assert Last(r) == p[i] && r[..|r| - 1][0] == p[i];
  }

  /** A walk through a clean cut node cannot come back: the detour would be a cycle at that node. */
  lemma WalkThroughCut(g: Digraph, p: seq<string>, i: nat)
    requires IsPath(g, p) && i < |p| && Sound(g, p[i])
    ensures Last(p) in g && Last(p) !in p[..|p| - 1]
  {
    PathSlice(g, p, i, |p|);
    SoundWalk(g, p[i], p[i..|p|]);
    if Last(p) in p[..|p| - 1] {
      RepeatInWalk(g, p, i);
    }
  }

  lemma RepeatInWalk(g: Digraph, p: seq<string>, i: nat)
    requires IsPath(g, p) && i < |p| && Last(p) in p[..|p| - 1]
    ensures CycleFrom(g, p[i])
  {
    var k := IndexOf(p[..|p| - 1], Last(p));
    RepeatIsCycle(g, p, i, k);
  }

  /** Cutting clean nodes changes nothing about which nodes are clean. */
  lemma CutExact(g: Digraph, done: set<string>, a: string)
    requires forall d :: d in done ==> Sound(g, d)
    ensures Sound(Cut(g, done), a) <==> Sound(g, a)
  {
    var c := Cut(g, done);
    if Sound(g, a) {
      forall p | IsPath(c, p) && p[0] == a ensures Last(p) in c && Last(p) !in p[..|p| - 1] {
        CutPath(g, done, p);
        SoundWalk(g, a, p);
      }
    }
    if Sound(c, a) {
      forall p | IsPath(g, p) && p[0] == a ensures Last(p) in g && Last(p) !in p[..|p| - 1] {
        var i := FirstCut(done, p);
        if i < |p| {
          WalkThroughCut(g, p, i);
        } else {
          CutPath(g, done, p);
          SoundWalk(c, a, p);
        }
      }
    }
  }

  // ---- Who reaches whom ----------------------------------------------------------

  ghost predicate Reaches(g: Digraph, a: string, b: string) {
    exists p :: IsPath(g, p) && p[0] == a && Last(p) == b
  }

  lemma ReachesStep(g: Digraph, a: string, b: string, c: string)
    requires Edge(g, a, b) && Reaches(g, b, c)
    ensures Reaches(g, a, c)
  {
    var p :| IsPath(g, p) && p[0] == b && Last(p) == c;
    PathCons(g, a, p);
    assert ([a] + p)[0] == a && Last([a] + p) == c;
  }

  lemma CutReaches(g: Digraph, done: set<string>, a: string, b: string)
    requires Reaches(Cut(g, done), a, b)
    ensures Reaches(g, a, b)
  {
    var p :| IsPath(Cut(g, done), p) && p[0] == a && Last(p) == b;
    CutPath(g, done, p);
  }

  /** A way back to a node from where it refers to is a cycle. */
  lemma WayBackIsCycle(g: Digraph, a: string, b: string)
    requires Edge(g, a, b) && Reaches(g, b, a)
    ensures CycleFrom(g, a)
  {
    var p :| IsPath(g, p) && p[0] == b && Last(p) == a;
    PathCons(g, a, p);
    var q := [a] + p;
    assert q[0] == a && q[..|q| - 1][0] == Last(q);
  }
}
