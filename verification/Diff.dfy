/** The line diff of web/src/lib/diff.ts: an LCS table and a greedy walk over it. */
module Diff {
  import opened Basics

  datatype Kind = Same | Add | Del
  datatype DiffLine = DiffLine(kind: Kind, text: string)

  const MAX_CELLS: nat := 4_000_000

  /** Entries of the table are 32-bit. */
  newtype uint32 = x: int | 0 <= x < 0x1_0000_0000

  // ---- Lines -----------------------------------------------------------------

  function SplitLines(s: string): (lines: seq<string>)
    ensures lines != []
  {
    if s == [] then [[]]
    else
      var rest := SplitLines(s[1..]);
      if s[0] == '\n' then [[]] + rest else [[s[0]] + rest[0]] + rest[1..]
  }

  function JoinLines(lines: seq<string>): string {
    if lines == [] then [] else if |lines| == 1 then lines[0] else lines[0] + ['\n'] + JoinLines(lines[1..])
  }

  lemma JoinCons(first: string, tail: seq<string>)
    ensures JoinLines([first] + tail) == first + if tail == [] then [] else ['\n'] + JoinLines(tail)
  {
    var lines := [first] + tail;
    assert lines[1..] == tail;
    if tail != [] {
      assert first + ['\n'] + JoinLines(tail) == first + (['\n'] + JoinLines(tail));
    }
  }

  lemma {:induction false} JoinSplit(s: string)
    ensures JoinLines(SplitLines(s)) == s
  {
    if s != [] {
      JoinSplit(s[1..]);
      var rest := SplitLines(s[1..]);
      var first, tail := rest[0], rest[1..];
      assert rest == [first] + tail && s == [s[0]] + s[1..];
      JoinCons(first, tail);
      JoinCons([], rest);
      JoinCons([s[0]] + first, tail);
    }
  }

  /** Every newline separates, nothing else does. */
  ghost predicate AreLines(lines: seq<string>) {
    lines != [] && forall i :: 0 <= i < |lines| ==> '\n' !in lines[i]
  }

  lemma {:induction false} SplitGivesLines(s: string)
    ensures AreLines(SplitLines(s))
  {
    if s != [] {
      var rest := SplitLines(s[1..]);
      SplitGivesLines(s[1..]);
      assert SplitLines(s)[0] == if s[0] == '\n' then [] else [s[0]] + rest[0];
      assert forall i :: 1 <= i < |SplitLines(s)| ==> SplitLines(s)[i] in rest;
    }
  }

  lemma SplitCons(c: char, s: string)
    ensures SplitLines([c] + s) ==
              if c == '\n' then [[]] + SplitLines(s) else [[c] + SplitLines(s)[0]] + SplitLines(s)[1..]
  {
    assert ([c] + s)[1..] == s;
  }

  /** A line in front, and the text split after it. */
  lemma {:induction false} SplitLine(line: string, s: string)
    requires '\n' !in line
    ensures SplitLines(line + s) == [line + SplitLines(s)[0]] + SplitLines(s)[1..]
  {
    if line == [] {
      AppendNothing(s);
      AppendNothing(SplitLines(s)[0]);
      assert SplitLines(s) == [SplitLines(s)[0]] + SplitLines(s)[1..];
    } else {
      var tail := line[1..];
      SplitLine(tail, s);
      SplitCons(line[0], tail + s);
      assert line + s == [line[0]] + (tail + s);
      assert line == [line[0]] + tail;
      AppendAssociative([line[0]], tail, SplitLines(s)[0]);
    }
  }

  /** The lines of a text are the only ones that give it when joined. */
  lemma {:induction false} SplitJoin(lines: seq<string>)
    requires AreLines(lines)
    ensures SplitLines(JoinLines(lines)) == lines
  {
    var line, rest := lines[0], lines[1..];
    if rest == [] {
      SplitLine(line, []);
      AppendNothing(line);
      assert lines == [line];
    } else {
      SplitJoin(rest);
      JoinCons(line, rest);
      assert lines == [line] + rest;
      SplitCons('\n', JoinLines(rest));
      SplitLine(line, ['\n'] + JoinLines(rest));
      AppendNothing(line);
    }
  }

  // ---- Common subsequences ---------------------------------------------------

  ghost predicate IsSubsequence(c: seq<string>, a: seq<string>) {
    if c == [] then true
    else if a == [] then false
    else (c[0] == a[0] && IsSubsequence(c[1..], a[1..])) || IsSubsequence(c, a[1..])
  }

  /** What the table holds: the recurrence read off two suffixes. */
  function Lcs(a: seq<string>, b: seq<string>): (n: nat)
    ensures n <= |a| && n <= |b|
    decreases |a| + |b|
  {
    if a == [] || b == [] then 0
    else if a[0] == b[0] then 1 + Lcs(a[1..], b[1..])
    else
      var x, y := Lcs(a[1..], b), Lcs(a, b[1..]);
      if x >= y then x else y
  }

  lemma {:induction false} SubsequenceTail(c: seq<string>, a: seq<string>)
    requires c != [] && IsSubsequence(c, a)
    ensures a != [] && IsSubsequence(c[1..], a[1..])
  {
    if !(c[0] == a[0] && IsSubsequence(c[1..], a[1..])) {
      SubsequenceTail(c, a[1..]);
      SubsequenceSkip(c[1..], a[1..]);
    }
  }

  lemma {:induction false} SubsequenceSkip(c: seq<string>, a: seq<string>)
    requires a != [] && IsSubsequence(c, a[1..])
    ensures IsSubsequence(c, a)
  {
  }

  /** Dropping a first line that is not the subsequence's first line loses nothing. */
  lemma {:induction false} SubsequenceMiss(c: seq<string>, a: seq<string>)
    requires a != [] && IsSubsequence(c, a) && (c == [] || c[0] != a[0])
    ensures IsSubsequence(c, a[1..])
  {
  }

  /** Matching equal heads greedily never loses length: any common subsequence is at most Lcs long. */
  lemma {:induction false} LcsBound(a: seq<string>, b: seq<string>, c: seq<string>)
    requires IsSubsequence(c, a) && IsSubsequence(c, b)
    ensures |c| <= Lcs(a, b)
    decreases |a| + |b|
  {
    if c != [] {
      if a[0] == b[0] {
        SubsequenceTail(c, a);
        SubsequenceTail(c, b);
        LcsBound(a[1..], b[1..], c[1..]);
      } else if c[0] != a[0] {
        SubsequenceMiss(c, a);
        LcsBound(a[1..], b, c);
      } else {
        SubsequenceMiss(c, b);
        LcsBound(a, b[1..], c);
      }
    }
  }

  // ---- Scripts ---------------------------------------------------------------

  /** The old text a script describes: unchanged and deleted lines. */
  function OldSide(d: seq<DiffLine>): seq<string> {
    if d == [] then [] else if d[0].kind == Add then OldSide(d[1..]) else [d[0].text] + OldSide(d[1..])
  }

  /** The new text: unchanged and added lines. */
  function NewSide(d: seq<DiffLine>): seq<string> {
    if d == [] then [] else if d[0].kind == Del then NewSide(d[1..]) else [d[0].text] + NewSide(d[1..])
  }

  function SameLines(d: seq<DiffLine>): seq<string> {
    if d == [] then [] else if d[0].kind == Same then [d[0].text] + SameLines(d[1..]) else SameLines(d[1..])
  }

  function Changes(d: seq<DiffLine>): nat {
    if d == [] then 0 else (if d[0].kind != Same then 1 else 0) + Changes(d[1..])
  }

  lemma {:induction false} ScriptCount(d: seq<DiffLine>)
    ensures |OldSide(d)| + |NewSide(d)| == 2 * |SameLines(d)| + Changes(d)
  {
    if d != [] {
      ScriptCount(d[1..]);
    }
  }

  lemma {:induction false} SameIsCommon(d: seq<DiffLine>)
    ensures IsSubsequence(SameLines(d), OldSide(d))
    ensures IsSubsequence(SameLines(d), NewSide(d))
  {
    if d != [] {
      SameIsCommon(d[1..]);
      if d[0].kind == Del {
        assert OldSide(d)[1..] == OldSide(d[1..]);
        SubsequenceSkip(SameLines(d), OldSide(d));
      } else if d[0].kind == Add {
        assert NewSide(d)[1..] == NewSide(d[1..]);
        SubsequenceSkip(SameLines(d), NewSide(d));
      } else {
        assert SameLines(d)[1..] == SameLines(d[1..]);
        assert OldSide(d)[1..] == OldSide(d[1..]) && NewSide(d)[1..] == NewSide(d[1..]);
      }
    }
  }

  lemma {:induction false} SidesAppend(d: seq<DiffLine>, e: seq<DiffLine>)
    ensures OldSide(d + e) == OldSide(d) + OldSide(e) && NewSide(d + e) == NewSide(d) + NewSide(e)
  {
    if d == [] {
      assert d + e == e;
    } else {
      var rest := d[1..];
      SidesAppend(rest, e);
      AppendTail(d, e);
      SidesCons(d);
      SidesCons(d + e);
      AppendAssociative(if d[0].kind == Add then [] else [d[0].text], OldSide(rest), OldSide(e));
      AppendAssociative(if d[0].kind == Del then [] else [d[0].text], NewSide(rest), NewSide(e));
    }
  }

  lemma SidesCons(d: seq<DiffLine>)
    requires d != []
    ensures OldSide(d) == (if d[0].kind == Add then [] else [d[0].text]) + OldSide(d[1..])
    ensures NewSide(d) == (if d[0].kind == Del then [] else [d[0].text]) + NewSide(d[1..])
  {
  }

  function Deletions(lines: seq<string>): seq<DiffLine> {
    if lines == [] then [] else [DiffLine(Del, lines[0])] + Deletions(lines[1..])
  }

  function Additions(lines: seq<string>): seq<DiffLine> {
    if lines == [] then [] else [DiffLine(Add, lines[0])] + Additions(lines[1..])
  }

  /** The walk over the table, as a function of the two suffixes left. */
  function Walk(a: seq<string>, b: seq<string>): seq<DiffLine>
    decreases |a| + |b|
  {
    if a == [] then Additions(b)
    else if b == [] then Deletions(a)
    else if a[0] == b[0] then [DiffLine(Same, a[0])] + Walk(a[1..], b[1..])
    else if Lcs(a[1..], b) >= Lcs(a, b[1..]) then [DiffLine(Del, a[0])] + Walk(a[1..], b)
    else [DiffLine(Add, b[0])] + Walk(a, b[1..])
  }

  lemma {:induction false} BulkSides(lines: seq<string>)
    ensures OldSide(Deletions(lines)) == lines && NewSide(Deletions(lines)) == [] && SameLines(Deletions(lines)) == []
    ensures OldSide(Additions(lines)) == [] && NewSide(Additions(lines)) == lines && SameLines(Additions(lines)) == []
  {
    if lines != [] {
      BulkSides(lines[1..]);
      assert lines == [lines[0]] + lines[1..];
    }
  }

  /** The walk describes both texts and keeps as many lines as the table promises. */
  lemma {:induction false} WalkSides(a: seq<string>, b: seq<string>)
    ensures OldSide(Walk(a, b)) == a && NewSide(Walk(a, b)) == b
    ensures |SameLines(Walk(a, b))| == Lcs(a, b)
    decreases |a| + |b|
  {
    if a == [] {
      BulkSides(b);
    } else if b == [] {
      BulkSides(a);
    } else {
      assert a == [a[0]] + a[1..] && b == [b[0]] + b[1..];
      var w := Walk(a, b);
      if a[0] == b[0] {
        WalkSides(a[1..], b[1..]);
        assert w[1..] == Walk(a[1..], b[1..]);
      } else if Lcs(a[1..], b) >= Lcs(a, b[1..]) {
        WalkSides(a[1..], b);
        assert w[1..] == Walk(a[1..], b);
      } else {
        WalkSides(a, b[1..]);
        assert w[1..] == Walk(a, b[1..]);
      }
    }
  }

  /** What the whole function computes from the two line lists. */
  function Script(a: seq<string>, b: seq<string>): seq<DiffLine> {
    if |a| * |b| > MAX_CELLS then Deletions(a) + Additions(b) else Walk(a, b)
  }

  lemma ScriptSides(a: seq<string>, b: seq<string>)
    ensures OldSide(Script(a, b)) == a && NewSide(Script(a, b)) == b
  {
    if |a| * |b| > MAX_CELLS {
      BulkSides(a);
      BulkSides(b);
      SidesAppend(Deletions(a), Additions(b));
    } else {
      WalkSides(a, b);
    }
  }

  /** Round trip, oversized fallback included: the two projections are the two texts. */
  lemma ScriptRoundTrip(a: string, b: string)
    ensures JoinLines(OldSide(Script(SplitLines(a), SplitLines(b)))) == a
    ensures JoinLines(NewSide(Script(SplitLines(a), SplitLines(b)))) == b
  {
    ScriptSides(SplitLines(a), SplitLines(b));
    JoinSplit(a);
    JoinSplit(b);
  }

  /** Within the size cap the unchanged lines are a longest common subsequence. */
  lemma ScriptKeepsLongest(a: seq<string>, b: seq<string>, c: seq<string>)
    requires |a| * |b| <= 4_000_000
    requires IsSubsequence(c, a) && IsSubsequence(c, b)
    ensures IsSubsequence(SameLines(Script(a, b)), a) && IsSubsequence(SameLines(Script(a, b)), b)
    ensures |c| <= |SameLines(Script(a, b))|
  {
    WalkSides(a, b);
    SameIsCommon(Walk(a, b));
    LcsBound(a, b, c);
  }

  /** Within the size cap no script between the two texts changes fewer lines. */
  lemma ScriptIsMinimal(a: seq<string>, b: seq<string>, d: seq<DiffLine>)
    requires |a| * |b| <= 4_000_000
    requires OldSide(d) == a && NewSide(d) == b
    ensures Changes(Script(a, b)) <= Changes(d)
  {
    WalkSides(a, b);
    ScriptCount(Walk(a, b));
    ScriptCount(d);
    SameIsCommon(d);
    LcsBound(a, b, SameLines(d));
  }

  // ---- Which of the minimal scripts ------------------------------------------

  function KindRank(k: Kind): nat {
    match k case Same => 0 case Del => 1 case Add => 2
  }

  /** Where the two part, the first keeps rather than deletes, and deletes rather than adds. */
  ghost predicate ComesFirst(w: seq<DiffLine>, d: seq<DiffLine>) {
    w == d || exists p :: PartsAt(w, d, p)
  }

  ghost predicate PartsAt(w: seq<DiffLine>, d: seq<DiffLine>, p: int) {
    0 <= p < |w| && p < |d| && w[..p] == d[..p] && KindRank(w[p].kind) < KindRank(d[p].kind)
  }

  lemma FirstByHead(w: seq<DiffLine>, d: seq<DiffLine>)
    requires w != [] && d != []
    requires if w[0] == d[0] then ComesFirst(w[1..], d[1..]) else KindRank(w[0].kind) < KindRank(d[0].kind)
    ensures ComesFirst(w, d)
  {
    if w[0] != d[0] {
      assert PartsAt(w, d, 0);
    } else if w[1..] == d[1..] {
      assert w == [w[0]] + w[1..] && d == [d[0]] + d[1..];
    } else {
      var p :| PartsAt(w[1..], d[1..], p);
      var q := p + 1;
      assert w[..q] == [w[0]] + w[1..][..p] && d[..q] == [d[0]] + d[1..][..p];
      assert PartsAt(w, d, q);
    }
  }

  /** No script keeps more lines than the table promises. */
  lemma KeepsAtMost(d: seq<DiffLine>)
    ensures |SameLines(d)| <= Lcs(OldSide(d), NewSide(d))
  {
    SameIsCommon(d);
    LcsBound(OldSide(d), NewSide(d), SameLines(d));
  }

  lemma {:induction false} WalkComesFirst(a: seq<string>, b: seq<string>, d: seq<DiffLine>)
    requires OldSide(d) == a && NewSide(d) == b && |SameLines(d)| >= Lcs(a, b)
    ensures ComesFirst(Walk(a, b), d)
    decreases |d|
  {
    if d != [] {
      HeadComesFirst(a, b, d);
      if Walk(a, b)[0].kind == d[0].kind {
        WalkComesFirst(OldSide(d[1..]), NewSide(d[1..]), d[1..]);
      }
      FirstByHead(Walk(a, b), d);
    }
  }

  /** The walk's first entry is no later in the order; if it is the same kind, the two go on alike. */
  lemma HeadComesFirst(a: seq<string>, b: seq<string>, d: seq<DiffLine>)
    requires d != [] && OldSide(d) == a && NewSide(d) == b && |SameLines(d)| >= Lcs(a, b)
    ensures Walk(a, b) != [] && KindRank(Walk(a, b)[0].kind) <= KindRank(d[0].kind)
    ensures Walk(a, b)[0].kind == d[0].kind ==>
              && Walk(a, b)[0] == d[0]
              && Walk(a, b)[1..] == Walk(OldSide(d[1..]), NewSide(d[1..]))
              && |SameLines(d[1..])| >= Lcs(OldSide(d[1..]), NewSide(d[1..]))
  {
    var rest := d[1..];
    HeadSides(d);
    KeepsAtMost(rest);
    TailWalk(a, b);
  }

  /** What a script's first entry takes from the two sides. */
  lemma HeadSides(d: seq<DiffLine>)
    requires d != []
    ensures d[0].kind == Add ==> OldSide(d[1..]) == OldSide(d)
    ensures d[0].kind != Add ==> OldSide(d) != [] && OldSide(d)[0] == d[0].text && OldSide(d[1..]) == OldSide(d)[1..]
    ensures d[0].kind == Del ==> NewSide(d[1..]) == NewSide(d)
    ensures d[0].kind != Del ==> NewSide(d) != [] && NewSide(d)[0] == d[0].text && NewSide(d[1..]) == NewSide(d)[1..]
  {
    SidesCons(d);
  }

  /** The walk takes one line from the sides its first entry belongs to, and goes on with the rest. */
  lemma TailWalk(a: seq<string>, b: seq<string>)
    requires a != [] || b != []
    ensures var w := Walk(a, b);
            && w != []
            && match w[0].kind
               case Same => a != [] && b != [] && a[0] == b[0] == w[0].text && w[1..] == Walk(a[1..], b[1..])
               case Del =>
                 && a != [] && w[0].text == a[0] && w[1..] == Walk(a[1..], b)
                 && Lcs(a[1..], b) >= Lcs(a, b) && (b != [] ==> a[0] != b[0])
               case Add =>
                 && b != [] && w[0].text == b[0] && w[1..] == Walk(a, b[1..])
                 && (a != [] ==> a[0] != b[0] && Lcs(a[1..], b) < Lcs(a, b))
  {
    if a == [] {
      TailOf(DiffLine(Add, b[0]), Walk(a, b[1..]));
    } else if b == [] {
      TailOf(DiffLine(Del, a[0]), Walk(a[1..], b));
    } else if a[0] == b[0] {
      TailOf(DiffLine(Same, a[0]), Walk(a[1..], b[1..]));
    } else if Lcs(a[1..], b) >= Lcs(a, b[1..]) {
      TailOf(DiffLine(Del, a[0]), Walk(a[1..], b));
    } else {
      TailOf(DiffLine(Add, b[0]), Walk(a, b[1..]));
    }
  }

  lemma TailOf(e: DiffLine, rest: seq<DiffLine>)
    ensures ([e] + rest)[0] == e && ([e] + rest)[1..] == rest
  {
  }

  /** Of all minimal scripts, the first one in this order is given. */
  lemma ScriptComesFirst(a: seq<string>, b: seq<string>, d: seq<DiffLine>)
    requires |a| * |b| <= 4_000_000
    requires OldSide(d) == a && NewSide(d) == b && Changes(d) <= Changes(Script(a, b))
    ensures ComesFirst(Script(a, b), d)
  {
    WalkSides(a, b);
    ScriptCount(Walk(a, b));
    ScriptCount(d);
    WalkComesFirst(a, b, d);
  }

  /** Above the cap everything is deleted, then everything added. */
  lemma OversizedScript(a: seq<string>, b: seq<string>)
    requires |a| * |b| > 4_000_000
    ensures |Script(a, b)| == |a| + |b|
    ensures forall i :: 0 <= i < |a| ==> Script(a, b)[i] == DiffLine(Del, a[i])
    ensures forall j :: 0 <= j < |b| ==> Script(a, b)[|a| + j] == DiffLine(Add, b[j])
  {
    var dels, adds := Deletions(a), Additions(b);
    assert Script(a, b) == dels + adds;
    BulkAt(a);
    BulkAt(b);
    forall i | 0 <= i < |a| ensures (dels + adds)[i] == DiffLine(Del, a[i]) {
      assert (dels + adds)[i] == dels[i];
    }
    forall j | 0 <= j < |b| ensures (dels + adds)[|a| + j] == DiffLine(Add, b[j]) {
      assert (dels + adds)[|a| + j] == adds[j];
    }
  }

  lemma {:induction false} BulkAt(lines: seq<string>)
    ensures |Deletions(lines)| == |Additions(lines)| == |lines|
    ensures forall i :: 0 <= i < |lines| ==> Deletions(lines)[i] == DiffLine(Del, lines[i])
    ensures forall i :: 0 <= i < |lines| ==> Additions(lines)[i] == DiffLine(Add, lines[i])
  {
    if lines != [] {
      BulkAt(lines[1..]);
    }
  }

  // ---- The table and the walk over it ----------------------------------------

  ghost predicate Filled(dp: array2<uint32>, a: seq<string>, b: seq<string>, i: nat, j: nat)
    requires dp.Length0 == |a| + 1 && dp.Length1 == |b| + 1
    reads dp
  {
    forall p, q :: 0 <= p <= |a| && 0 <= q <= |b| && (p > i || (p == i && q >= j) || p == |a|) ==>
      dp[p, q] as int == Lcs(a[p..], b[q..])
  }

  method FillTable(a: seq<string>, b: seq<string>) returns (dp: array2<uint32>)
    requires |b| > 0 && |a| * |b| <= MAX_CELLS
    ensures fresh(dp) && dp.Length0 == |a| + 1 && dp.Length1 == |b| + 1
    ensures forall p, q :: 0 <= p <= |a| && 0 <= q <= |b| ==> dp[p, q] as int == Lcs(a[p..], b[q..])
  {
    var n, m := |a|, |b|;
    dp := new uint32[n + 1, m + 1]((i, j) => 0);
    SizeFits(n, m);
    for i := n downto 0
      invariant Filled(dp, a, b, i, 0)
      invariant forall p :: 0 <= p <= n ==> dp[p, m] == 0
    {
      for j := m downto 0
        invariant Filled(dp, a, b, i, j)
        invariant forall p :: 0 <= p <= n ==> dp[p, m] == 0
      {
        assert a[i..][1..] == a[i + 1..] && b[j..][1..] == b[j + 1..];
        dp[i, j] := if a[i] == b[j] then dp[i + 1, j + 1] + 1
                    else if dp[i + 1, j] >= dp[i, j + 1] then dp[i + 1, j] else dp[i, j + 1];
      }
    }
  }

  lemma SizeFits(n: nat, m: nat)
    requires m > 0 && n * m <= MAX_CELLS
    ensures n <= MAX_CELLS
  {
    assert n * m >= n * 1;
  }

  lemma WalkStep(a: seq<string>, b: seq<string>, i: nat, j: nat)
    requires i < |a| && j < |b|
    ensures Walk(a[i..], b[j..]) ==
              if a[i] == b[j] then [DiffLine(Same, a[i])] + Walk(a[i + 1..], b[j + 1..])
              else if Lcs(a[i + 1..], b[j..]) >= Lcs(a[i..], b[j + 1..]) then
                [DiffLine(Del, a[i])] + Walk(a[i + 1..], b[j..])
              else [DiffLine(Add, b[j])] + Walk(a[i..], b[j + 1..])
  {
    assert a[i..][1..] == a[i + 1..] && b[j..][1..] == b[j + 1..];
  }

  lemma HeadMoves(out: seq<DiffLine>, rest: seq<DiffLine>)
    requires rest != []
    ensures out + rest == (out + [rest[0]]) + rest[1..]
  {
  }

  method WalkTable(a: seq<string>, b: seq<string>, dp: array2<uint32>) returns (out: seq<DiffLine>)
    requires dp.Length0 == |a| + 1 && dp.Length1 == |b| + 1
    requires forall p, q :: 0 <= p <= |a| && 0 <= q <= |b| ==> dp[p, q] as int == Lcs(a[p..], b[q..])
    ensures out == Walk(a, b)
  {
    out := [];
    var i, j := 0, 0;
    ghost var rest := Walk(a, b);
    while i < |a| && j < |b|
      invariant 0 <= i <= |a| && 0 <= j <= |b|
      invariant rest == Walk(a[i..], b[j..])
      invariant out + rest == Walk(a, b)
      decreases |a| - i + |b| - j
    {
      WalkStep(a, b, i, j);
      HeadMoves(out, rest);
      var line;
      if a[i] == b[j] {
        line, i, j := DiffLine(Same, a[i]), i + 1, j + 1;
      } else if dp[i + 1, j] >= dp[i, j + 1] {
        line, i := DiffLine(Del, a[i]), i + 1;
      } else {
        line, j := DiffLine(Add, b[j]), j + 1;
      }
      assert rest == [line] + Walk(a[i..], b[j..]);
      out, rest := out + [line], rest[1..];
    }
    var tail := WalkRest(a, b, i, j);
    out := out + tail;
  }

  /** Whatever is left of one side after the other ran out. */
  method WalkRest(a: seq<string>, b: seq<string>, i0: nat, j0: nat) returns (out: seq<DiffLine>)
    requires i0 <= |a| && j0 <= |b| && (i0 == |a| || j0 == |b|)
    ensures out == Walk(a[i0..], b[j0..])
  {
    var i, j := i0, j0;
    out := [];
    while i < |a|
      invariant i0 <= i <= |a| && (i0 < |a| ==> j == |b|) && (i0 == |a| ==> i == i0)
      invariant out + Deletions(a[i..]) == Deletions(a[i0..])
    {
      DeletionsStep(a, i);
      AppendAssociative(out, [DiffLine(Del, a[i])], Deletions(a[i + 1..]));
      out := out + [DiffLine(Del, a[i])];
      i := i + 1;
    }
    assert a[i..] == [] && out == Deletions(a[i0..]);
    while j < |b|
      invariant j0 <= j <= |b|
      invariant out + Additions(b[j..]) == Deletions(a[i0..]) + Additions(b[j0..])
    {
      AdditionsStep(b, j);
      AppendAssociative(out, [DiffLine(Add, b[j])], Additions(b[j + 1..]));
      out := out + [DiffLine(Add, b[j])];
      j := j + 1;
    }
    assert b[j..] == [] && out == Deletions(a[i0..]) + Additions(b[j0..]);
    assert i0 < |a| ==> b[j0..] == [];
    assert i0 == |a| ==> a[i0..] == [];
  }

  lemma DeletionsStep(a: seq<string>, i: nat)
    requires i < |a|
    ensures Deletions(a[i..]) == [DiffLine(Del, a[i])] + Deletions(a[i + 1..])
  {
    assert a[i..][1..] == a[i + 1..];
  }

  lemma AdditionsStep(b: seq<string>, j: nat)
    requires j < |b|
    ensures Additions(b[j..]) == [DiffLine(Add, b[j])] + Additions(b[j + 1..])
  {
    assert b[j..][1..] == b[j + 1..];
  }

  method DiffLines(a: string, b: string) returns (out: seq<DiffLine>)
    ensures out == Script(SplitLines(a), SplitLines(b))
    ensures forall la, lb :: AreLines(la) && AreLines(lb) && JoinLines(la) == a && JoinLines(lb) == b ==>
              out == Script(la, lb)
  {
    forall lines | AreLines(lines) ensures SplitLines(JoinLines(lines)) == lines {
      SplitJoin(lines);
    }
    var la, lb := SplitLines(a), SplitLines(b);
    if |la| * |lb| > MAX_CELLS {
      return Deletions(la) + Additions(lb);
    }
    var dp := FillTable(la, lb);
    out := WalkTable(la, lb, dp);
  }
}
