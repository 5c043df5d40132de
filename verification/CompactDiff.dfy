/** Collapsing unchanged stretches of a diff: `compactDiff` of web/src/lib/diff.ts. */
module CompactDiff {
  import opened Basics
  import opened Diff

  datatype Item = Line(line: DiffLine) | Gap(count: nat)

  /** Line `i` is shown: some change lies within `context` lines of it. */
  ghost predicate Kept(diff: seq<DiffLine>, context: nat, i: int) {
    exists c :: 0 <= c < |diff| && diff[c].kind != Same && c - context <= i <= c + context
  }

  ghost predicate NoneKept(diff: seq<DiffLine>, context: nat, lo: int, hi: int) {
    forall i :: lo <= i < hi ==> !Kept(diff, context, i)
  }

  /** `out` stands for the first `end` lines: shown lines in place, each maximal hidden stretch as one gap. */
  ghost predicate Covers(diff: seq<DiffLine>, context: nat, out: seq<Item>, end: nat)
    requires end <= |diff|
    decreases |out|
  {
    if out == [] then end == 0
    else
      match Last(out)
      case Line(l) =>
        end > 0 && Kept(diff, context, end - 1) && l == diff[end - 1]
            && Covers(diff, context, out[..|out| - 1], end - 1)
      case Gap(n) =>
        && 0 < n <= end && NoneKept(diff, context, end - n, end)
        && (end == n || Kept(diff, context, end - n - 1))
        && Covers(diff, context, out[..|out| - 1], end - n)
  }

  method MarkKept(diff: seq<DiffLine>, context: nat) returns (keep: array<bool>)
    ensures fresh(keep) && keep.Length == |diff|
    ensures forall i :: 0 <= i < |diff| ==> (keep[i] <==> Kept(diff, context, i))
  {
    keep := new bool[|diff|](i => false);
    for i := 0 to |diff|
      invariant forall k :: 0 <= k < |diff| ==>
                  (keep[k] <==> exists c :: 0 <= c < i && diff[c].kind != Same && c - context <= k <= c + context)
    {
      if diff[i].kind != Same {
        var lo := if i < context then 0 else i - context;
        var hi := if i + context < |diff| - 1 then i + context else |diff| - 1;
        ghost var was := keep[..];
        for k := lo to hi + 1
          invariant forall q :: 0 <= q < |diff| ==> (keep[q] <==> was[q] || lo <= q < k)
        {
          keep[k] := true;
        }
      }
    }
  }

  method Compact(diff: seq<DiffLine>, context: nat) returns (out: seq<Item>)
    ensures Covers(diff, context, out, |diff|)
  {
    var keep := MarkKept(diff, context);
    out := [];
    var gap := 0;
    for i := 0 to |diff|
      invariant forall k :: 0 <= k < |diff| ==> (keep[k] <==> Kept(diff, context, k))
      invariant Pending(diff, context, out, i, gap)
    {
      if keep[i] {
        PendingShows(diff, context, out, i, gap);
        if gap > 0 {
          out, gap := out + [Gap(gap)], 0;
        }
        out := out + [Line(diff[i])];
      } else {
        gap := gap + 1;
      }
    }
    if gap > 0 {
      CoversGap(diff, context, out, |diff|, gap);
      out := out + [Gap(gap)];
    }
  }

  /** `out` stands for the lines before `i` but the last `gap`, which are hidden. */
  ghost predicate Pending(diff: seq<DiffLine>, context: nat, out: seq<Item>, i: nat, gap: nat) {
    && gap <= i <= |diff|
    && Covers(diff, context, out, i - gap)
    && NoneKept(diff, context, i - gap, i)
    && (i == gap || Kept(diff, context, i - gap - 1))
  }

  lemma PendingShows(diff: seq<DiffLine>, context: nat, out: seq<Item>, i: nat, gap: nat)
    requires Pending(diff, context, out, i, gap) && i < |diff| && Kept(diff, context, i)
    ensures Pending(diff, context, (if gap > 0 then out + [Gap(gap)] else out) + [Line(diff[i])], i + 1, 0)
  {
    if gap > 0 {
      CoversGap(diff, context, out, i, gap);
      CoversLine(diff, context, out + [Gap(gap)], i);
    } else {
      CoversLine(diff, context, out, i);
    }
  }

  lemma CoversGap(diff: seq<DiffLine>, context: nat, out: seq<Item>, i: nat, gap: nat)
    requires 0 < gap <= i <= |diff| && Covers(diff, context, out, i - gap)
    requires NoneKept(diff, context, i - gap, i) && (i == gap || Kept(diff, context, i - gap - 1))
    ensures Covers(diff, context, out + [Gap(gap)], i)
  {
    assert (out + [Gap(gap)])[..|out|] == out;
  }

  lemma CoversLine(diff: seq<DiffLine>, context: nat, out: seq<Item>, i: nat)
    requires i < |diff| && Covers(diff, context, out, i) && Kept(diff, context, i)
    ensures Covers(diff, context, out + [Line(diff[i])], i + 1)
  {
    assert (out + [Line(diff[i])])[..|out|] == out;
  }

  // ---- What a compaction is --------------------------------------------------

  /** There is only one compaction. */
  lemma {:induction false} CompactionUnique(diff: seq<DiffLine>, context: nat, a: seq<Item>, b: seq<Item>, end: nat)
    requires end <= |diff|
    requires Covers(diff, context, a, end) && Covers(diff, context, b, end)
    ensures a == b
    decreases |a|
  {
    if a != [] && b != [] {
      var fa, fb := a[..|a| - 1], b[..|b| - 1];
      assert a == fa + [Last(a)] && b == fb + [Last(b)];
      match (Last(a), Last(b))
      case (Line(_), Line(_)) => CompactionUnique(diff, context, fa, fb, end - 1);
      case (Gap(n), Gap(m)) =>
        CompactionUnique(diff, context, fa, fb, end - n);
      case (Line(_), Gap(m)) => assert false;
      case (Gap(n), Line(_)) => assert false;
    }
  }

  function LinesOf(out: seq<Item>): seq<DiffLine> {
    if out == [] then []
    else LinesOf(out[..|out| - 1]) + match Last(out) { case Line(l) => [l] case Gap(_) => [] }
  }

  function Size(out: seq<Item>): nat {
    if out == [] then 0 else Size(out[..|out| - 1]) + match Last(out) { case Line(_) => 1 case Gap(n) => n }
  }

  /** Puts the hidden lines back where the gaps are. */
  ghost function Refill(diff: seq<DiffLine>, out: seq<Item>): seq<DiffLine>
    requires Size(out) <= |diff|
  {
    if out == [] then []
    else
      Refill(diff, out[..|out| - 1]) +
      match Last(out) { case Line(l) => [l] case Gap(n) => diff[Size(out) - n..Size(out)] }
  }

  lemma RefillItem(diff: seq<DiffLine>, out: seq<Item>, end: nat, n: nat)
    requires out != [] && n <= end <= |diff|
    requires Size(out[..|out| - 1]) == end - n && Refill(diff, out[..|out| - 1]) == diff[..end - n]
    requires match Last(out) case Line(l) => n == 1 && l == diff[end - 1] case Gap(m) => m == n
    ensures Size(out) == end && Refill(diff, out) == diff[..end]
  {
    assert diff[..end] == diff[..end - n] + diff[end - n..end];
    if Last(out).Line? {
      assert diff[end - n..end] == [diff[end - 1]];
    }
  }

  /** Refilling the gaps gives back the whole diff. */
  lemma {:induction false} CompactExpands(diff: seq<DiffLine>, context: nat, out: seq<Item>, end: nat)
    requires end <= |diff| && Covers(diff, context, out, end)
    ensures Size(out) == end
    ensures Refill(diff, out) == diff[..end]
  {
    if out != [] {
      var front := out[..|out| - 1];
      match Last(out)
      case Line(l) =>
        CompactExpands(diff, context, front, end - 1);
        RefillItem(diff, out, end, 1);
      case Gap(n) =>
        CompactExpands(diff, context, front, end - n);
        RefillItem(diff, out, end, n);
    }
  }

  /** Gaps are positive and never adjacent. */
  lemma {:induction false} GapsSeparated(diff: seq<DiffLine>, context: nat, out: seq<Item>, end: nat)
    requires end <= |diff| && Covers(diff, context, out, end)
    ensures forall i :: 0 <= i < |out| && out[i].Gap? ==> out[i].count > 0
    ensures forall i, j :: 0 <= i && j == i + 1 && j < |out| ==> !(out[i].Gap? && out[j].Gap?)
  {
    if out != [] {
      var front := out[..|out| - 1];
      var rest := match Last(out) { case Line(_) => end - 1 case Gap(n) => end - n };
      GapsSeparated(diff, context, front, rest);
      assert out == front + [Last(out)];
    }
  }

  function ChangedLines(d: seq<DiffLine>): seq<DiffLine> {
    if d == [] then []
    else ChangedLines(d[..|d| - 1]) + if Last(d).kind != Same then [Last(d)] else []
  }

  lemma ChangedSnoc(d: seq<DiffLine>, l: DiffLine)
    ensures ChangedLines(d + [l]) == ChangedLines(d) + if l.kind != Same then [l] else []
  {
    assert (d + [l])[..|d|] == d;
  }

  lemma {:induction false} HiddenAreUnchanged(diff: seq<DiffLine>, context: nat, lo: nat, hi: nat)
    requires lo <= hi <= |diff| && NoneKept(diff, context, lo, hi)
    ensures ChangedLines(diff[..hi]) == ChangedLines(diff[..lo])
  {
    if lo < hi {
      assert !Kept(diff, context, hi - 1);
      assert diff[hi - 1].kind == Same;
      assert diff[..hi][..hi - 1] == diff[..hi - 1];
      HiddenAreUnchanged(diff, context, lo, hi - 1);
    }
  }

  /** Every change is shown, in order: only unchanged lines are hidden. */
  lemma {:induction false} CompactKeepsChanges(diff: seq<DiffLine>, context: nat, out: seq<Item>, end: nat)
    requires end <= |diff| && Covers(diff, context, out, end)
    ensures ChangedLines(LinesOf(out)) == ChangedLines(diff[..end])
  {
    if out != [] {
      var front := out[..|out| - 1];
      if Last(out).Line? {
        var l := Last(out).line;
        CompactKeepsChanges(diff, context, front, end - 1);
        ChangedLine(LinesOf(front), diff, end, l);
      } else {
        CompactKeepsChanges(diff, context, front, end - Last(out).count);
        HiddenAreUnchanged(diff, context, end - Last(out).count, end);
        assert LinesOf(out) == LinesOf(front);
      }
    }
  }

  lemma ChangedLine(shown: seq<DiffLine>, diff: seq<DiffLine>, end: nat, l: DiffLine)
    requires 0 < end <= |diff| && diff[end - 1] == l
    requires ChangedLines(shown) == ChangedLines(diff[..end - 1])
    ensures ChangedLines(shown + [l]) == ChangedLines(diff[..end])
  {
    var before := diff[..end - 1];
    assert diff[..end] == before + [l];
    ChangedSnoc(before, l);
    ChangedSnoc(shown, l);
    assert ChangedLines(shown + [l]) == ChangedLines(before + [l]);
  }
}
