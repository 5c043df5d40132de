/** What it means to filter a list or to join lists, told by positions. */
module Listing {
  import opened Basics

  // ---- Filtering -----------------------------------------------------------------

  /** `ys` are the elements of `xs` at the increasing positions `at`, which are those that are kept. */
  ghost predicate SelectsAt<T(!new)>(xs: seq<T>, ys: seq<T>, at: seq<nat>, keep: T -> bool) {
    && |at| == |ys|
    && (forall i :: 0 <= i < |at| ==> at[i] < |xs| && xs[at[i]] == ys[i])
    && (forall i, j :: 0 <= i < j < |at| ==> at[i] < at[j])
    && (forall k :: 0 <= k < |xs| ==> (k in at <==> keep(xs[k])))
  }

  /** `ys` lists what is kept of `xs`, each as often as it occurs there, in the same order. */
  ghost predicate Selects<T(!new)>(xs: seq<T>, ys: seq<T>, keep: T -> bool) {
    exists at :: SelectsAt(xs, ys, at, keep)
  }

  lemma SelectsNone<T(!new)>(keep: T -> bool)
    ensures Selects([], [], keep)
  {
    assert SelectsAt<T>([], [], [], keep);
  }

  lemma KeepsLast<T(!new)>(xs: seq<T>, ys: seq<T>, at: seq<nat>, x: T, keep: T -> bool)
    requires SelectsAt(xs, ys, at, keep) && keep(x)
    ensures SelectsAt(xs + [x], ys + [x], at + [|xs|], keep)
  {
    var longer, n := at + [|xs|], |xs|;
    forall i | 0 <= i < |at| ensures at[i] < n {}
    forall k | 0 <= k <= n ensures k in longer <==> keep((xs + [x])[k]) {
      assert k in longer <==> k in at || k == n;
    }
  }

  lemma SkipsLast<T(!new)>(xs: seq<T>, ys: seq<T>, at: seq<nat>, x: T, keep: T -> bool)
    requires SelectsAt(xs, ys, at, keep) && !keep(x)
    ensures SelectsAt(xs + [x], ys, at, keep)
  {
    var n := |xs|;
    forall k | 0 <= k <= n ensures k in at <==> keep((xs + [x])[k]) {
      if k == n {
        assert n !in at;
      }
    }
  }

  lemma SelectsSnoc<T(!new)>(xs: seq<T>, ys: seq<T>, x: T, keep: T -> bool)
    requires Selects(xs, ys, keep)
    ensures Selects(xs + [x], ys + (if keep(x) then [x] else []), keep)
  {
    var at :| SelectsAt(xs, ys, at, keep);
    if keep(x) {
      KeepsLast(xs, ys, at, x, keep);
    } else {
      SkipsLast(xs, ys, at, x, keep);
      AppendNothing(ys);
    }
  }

  /** A filter that goes through a list from its start selects. */
  lemma {:induction false} FilterSelects<T(!new)>(xs: seq<T>, filter: seq<T> -> seq<T>, keep: T -> bool)
    requires filter([]) == []
    requires forall ys: seq<T>, y :: filter(ys + [y]) == filter(ys) + (if keep(y) then [y] else [])
    ensures Selects(xs, filter(xs), keep)
  {
    if xs == [] {
      SelectsNone(keep);
    } else {
      var front := xs[..|xs| - 1];
      FilterSelects(front, filter, keep);
      SelectsSnoc(front, filter(front), Last(xs), keep);
      FrontLast(xs);
    }
  }

  lemma SameSelection<T(!new)>(xs: seq<T>, ys: seq<T>, keep: T -> bool, keep': T -> bool)
    requires Selects(xs, ys, keep) && forall k :: 0 <= k < |xs| ==> keep(xs[k]) == keep'(xs[k])
    ensures Selects(xs, ys, keep')
  {
    var at :| SelectsAt(xs, ys, at, keep);
    assert SelectsAt(xs, ys, at, keep');
  }

  lemma NothingSelected<T(!new)>(xs: seq<T>, keep: T -> bool)
    requires forall k :: 0 <= k < |xs| ==> !keep(xs[k])
    ensures Selects(xs, [], keep)
  {
    assert SelectsAt(xs, [], [], keep);
  }

  /** There is only one such list. */
  lemma {:induction false} SelectsUnique<T(!new)>(xs: seq<T>, ys: seq<T>, zs: seq<T>, keep: T -> bool)
    requires Selects(xs, ys, keep) && Selects(xs, zs, keep)
    ensures ys == zs
  {
    var a :| SelectsAt(xs, ys, a, keep);
    var b :| SelectsAt(xs, zs, b, keep);
    assert forall k :: 0 <= k < |xs| ==> (k in a <==> k in b);
    IncreasingUnique(a, b);
  }

  lemma {:induction false} IncreasingUnique(a: seq<nat>, b: seq<nat>)
    requires forall i, j :: 0 <= i < j < |a| ==> a[i] < a[j]
    requires forall i, j :: 0 <= i < j < |b| ==> b[i] < b[j]
    requires forall k :: k in a <==> k in b
    ensures a == b
  {
    assert b != [] ==> b[0] in b;
    if a != [] {
      assert a[0] in b && b[0] in a;
      assert a[0] == b[0];
      var x, y := a[1..], b[1..];
      forall k ensures k in x <==> k in y {
        assert k in a <==> k == a[0] || k in x;
        assert k in b <==> k == b[0] || k in y;
      }
      IncreasingUnique(x, y);
      assert a == [a[0]] + x && b == [b[0]] + y;
    }
  }

  lemma {:induction false} SelectsMember<T(!new)>(xs: seq<T>, ys: seq<T>, keep: T -> bool, y: T)
    requires Selects(xs, ys, keep)
    ensures y in ys <==> y in xs && keep(y)
  {
    var at :| SelectsAt(xs, ys, at, keep);
    if y in ys {
      var i :| 0 <= i < |ys| && ys[i] == y;
      assert at[i] in at;
    }
    if y in xs && keep(y) {
      var k :| 0 <= k < |xs| && xs[k] == y;
      var i :| 0 <= i < |at| && at[i] == k;
      assert ys[i] == y;
    }
  }

  // ---- Last positions --------------------------------------------------------------

  /** `i` is the last position of `x`. */
  ghost predicate LastAt<T>(xs: seq<T>, i: int, x: T) {
    0 <= i < |xs| && xs[i] == x && forall k :: i < k < |xs| ==> xs[k] != x
  }

  lemma LastInFront<T>(front: seq<T>, last: T, i: int, x: T)
    requires LastAt(front + [last], i, x)
    ensures if last == x then i == |front| else LastAt(front, i, x)
  {
    var xs := front + [last];
    assert xs[|front|] == last && forall k :: 0 <= k < |front| ==> front[k] == xs[k];
  }

  lemma {:induction false} LastAtExists<T>(xs: seq<T>, x: T) returns (i: nat)
    requires x in xs
    ensures LastAt(xs, i, x)
  {
    var n := |xs| - 1;
    if xs[n] == x {
      i := n;
    } else {
      i := LastAtExists(xs[..n], x);
    }
  }

  // ---- Joining -------------------------------------------------------------------

  function Concat<T>(parts: seq<seq<T>>): seq<T> {
    if parts == [] then [] else Concat(parts[..|parts| - 1]) + Last(parts)
  }

  /** These two laws leave no other reading: one part is itself, and parts are joined in order. */
  lemma ConcatOne<T>(x: seq<T>)
    ensures Concat([x]) == x
  {
    assert [x][..0] == [];
  }

  lemma ConcatSnoc<T>(front: seq<seq<T>>, last: seq<T>)
    ensures Concat(front + [last]) == Concat(front) + last
  {
    assert (front + [last])[..|front|] == front;
  }

  lemma {:induction false} ConcatAppend<T>(a: seq<seq<T>>, b: seq<seq<T>>)
    ensures Concat(a + b) == Concat(a) + Concat(b)
  {
    if b == [] {
      assert a + b == a;
    } else {
      var front := b[..|b| - 1];
      ConcatAppend(a, front);
      AppendFrontLast(a, b);
      ConcatSnoc(a + front, Last(b));
      AppendAssociative(Concat(a), Concat(front), Last(b));
    }
  }

  /** An earlier element stands in an earlier part, or in the same one. */
  lemma {:induction false} ConcatOrder<T>(parts: seq<seq<T>>, p: nat, q: nat) returns (a: nat, b: nat)
    requires p <= q < |Concat(parts)|
    ensures a <= b < |parts| && Concat(parts)[p] in parts[a] && Concat(parts)[q] in parts[b]
  {
    var n := |parts| - 1;
    var before := Concat(parts[..n]);
    if q < |before| {
      a, b := ConcatOrder(parts[..n], p, q);
    } else if p < |before| {
      a, b := ConcatOrder(parts[..n], p, p);
      b := n;
    } else {
      a, b := n, n;
    }
  }
}
