/** Directed graphs over names, with paths, cycles and topological orders. */
module Graph {
  import opened Basics

  type Digraph = map<string, seq<string>>

  ghost predicate Edge(g: Digraph, a: string, b: string) {
    a in g && b in g[a]
  }

  /** A walk: every node leads to the next one. A single node is a path. */
  ghost predicate IsPath(g: Digraph, p: seq<string>) {
    |p| > 0 && forall i, j :: 0 <= i < |p| - 1 && j == i + 1 ==> Edge(g, p[i], p[j])
  }

  ghost predicate IsCycle(g: Digraph, p: seq<string>) {
    IsPath(g, p) && |p| >= 2 && p[0] == Last(p)
  }

  ghost predicate Acyclic(g: Digraph) {
    !exists p :: IsCycle(g, p)
  }

  /** Every edge target is itself a node. */
  ghost predicate ClosedGraph(g: Digraph) {
    forall a, b :: Edge(g, a, b) ==> b in g
  }

  /** `order` lists nodes so that each node comes after everything it points to. */
  ghost predicate IsTopological(g: Digraph, order: seq<string>) {
    forall i, b :: 0 <= i < |order| && Edge(g, order[i], b) ==> b in order[..i]
  }

  ghost predicate IsTopologicalOrder(g: Digraph, order: seq<string>) {
    Distinct(order) && Elements(order) == g.Keys && IsTopological(g, order)
  }

  ghost function IndexOf(s: seq<string>, x: string): (i: nat)
    requires x in s
    ensures i < |s| && s[i] == x
  {
    var i :| 0 <= i < |s| && s[i] == x; i
  }

  lemma PathJoin(g: Digraph, p: seq<string>, q: seq<string>)
    requires IsPath(g, p) && IsPath(g, q) && Last(p) == q[0]
    ensures IsPath(g, p + q[1..]) && (p + q[1..])[0] == p[0] && Last(p + q[1..]) == Last(q)
  {
    var r := p + q[1..];
    forall i, j | 0 <= i < |r| - 1 && j == i + 1 ensures Edge(g, r[i], r[j]) {
      if j < |p| {
        assert r[i] == p[i] && r[j] == p[j];
      } else {
        assert r[i] == q[i - |p| + 1] && r[j] == q[j - |p| + 1];
      }
    }
  }

  lemma PathSlice(g: Digraph, p: seq<string>, i: nat, j: nat)
    requires IsPath(g, p) && i < j <= |p|
    ensures IsPath(g, p[i..j])
  {
    forall a, b | 0 <= a < j - i - 1 && b == a + 1 ensures Edge(g, p[i..j][a], p[i..j][b]) {
      assert Edge(g, p[i + a], p[i + b]);
    }
  }

  lemma PathSnoc(g: Digraph, p: seq<string>, x: string)
    requires p == [] || (IsPath(g, p) && Edge(g, Last(p), x))
    ensures IsPath(g, p + [x])
  {
    var r := p + [x];
    forall i, j | 0 <= i < |r| - 1 && j == i + 1 ensures Edge(g, r[i], r[j]) {
      if j < |p| {
        assert Edge(g, p[i], p[j]);
      }
    }
  }

  /** A ranking that drops along every edge drops along every path. */
  lemma {:induction false} RankDropsAlongPath(g: Digraph, rank: string -> nat, p: seq<string>)
    requires IsPath(g, p)
    requires RanksDown(g, rank)
    ensures rank(Last(p)) + (|p| - 1) <= rank(p[0])
  {
    if |p| > 1 {
      PathSlice(g, p, 0, |p| - 1);
      RankDropsAlongPath(g, rank, p[..|p| - 1]);
      assert Edge(g, p[|p| - 2], p[|p| - 1]);
    }
  }

  lemma RankedIsAcyclic(g: Digraph, rank: string -> nat)
    requires RanksDown(g, rank)
    ensures Acyclic(g)
  {
    forall p | IsPath(g, p) && |p| >= 2 ensures !IsCycle(g, p) {
      RankDropsAlongPath(g, rank, p);
    }
  }

  ghost predicate RanksDown(g: Digraph, rank: string -> nat) {
    forall a, b :: Edge(g, a, b) ==> rank(b) < rank(a)
  }

  ghost function OrderRank(order: seq<string>): string -> nat {
    x => if x in order then IndexOf(order, x) + 1 else 0
  }

  lemma TopologicalRank(g: Digraph, order: seq<string>)
    requires IsTopologicalOrder(g, order)
    ensures RanksDown(g, OrderRank(order))
  {
    forall a, b | Edge(g, a, b) ensures OrderRank(order)(b) < OrderRank(order)(a) {
      assert a in Elements(order);
      var i := IndexOf(order, a);
      assert b in order[..i];
      var k :| 0 <= k < i && order[..i][k] == b;
      assert order[k] == b;
    }
  }

  lemma TopologicalIsAcyclic(g: Digraph, order: seq<string>)
    requires IsTopologicalOrder(g, order)
    ensures Acyclic(g)
  {
    TopologicalRank(g, order);
    RankedIsAcyclic(g, OrderRank(order));
  }
}
