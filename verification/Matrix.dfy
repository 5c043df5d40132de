/** Matrix expansion of internal/config/matrix.go. */
module Matrix {
  import opened Basics
  import opened ConfigModel
  import opened Listing

  // ---- Key order -------------------------------------------------------------

  predicate LexLe(a: string, b: string) {
    a == [] || (b != [] && (a[0] < b[0] || (a[0] == b[0] && LexLe(a[1..], b[1..]))))
  }

  lemma {:induction false} LexTotal(a: string, b: string)
    ensures LexLe(a, b) || LexLe(b, a)
    ensures LexLe(a, b) && LexLe(b, a) ==> a == b
  {
    if a != [] && b != [] && a[0] == b[0] {
      LexTotal(a[1..], b[1..]);
      assert a == [a[0]] + a[1..] && b == [b[0]] + b[1..];
    }
  }

  lemma {:induction false} LexTransitive(a: string, b: string, c: string)
    requires LexLe(a, b) && LexLe(b, c)
    ensures LexLe(a, c)
  {
    if a != [] && a[0] == b[0] && b[0] == c[0] {
      LexTransitive(a[1..], b[1..], c[1..]);
    }
  }

  /** Byte order: a proper beginning is smaller, otherwise the first difference decides. */
  lemma {:induction false} LexLeExactly(a: string, b: string)
    ensures LexLe(a, b) <==> a <= b || exists i :: DiffersFirst(a, b, i) && a[i] < b[i]
  {
    if a != [] && b != [] {
      var x, y := a[1..], b[1..];
      LexLeExactly(x, y);
      assert a == [a[0]] + x && b == [b[0]] + y;
      if a[0] == b[0] {
        assert a <= b <==> x <= y;
        forall i | DiffersFirst(x, y, i) ensures DiffersFirst(a, b, i + 1) {
        }
        forall i | DiffersFirst(a, b, i) ensures DiffersFirst(x, y, i - 1) {
        }
        if i :| DiffersFirst(x, y, i) && x[i] < y[i] {
          assert DiffersFirst(a, b, i + 1);
        }
        if i :| DiffersFirst(a, b, i) && a[i] < b[i] {
          assert DiffersFirst(x, y, i - 1);
        }
      } else {
        assert DiffersFirst(a, b, 0);
        assert forall i :: DiffersFirst(a, b, i) ==> i == 0;
      }
    }
  }

  ghost predicate DiffersFirst(a: string, b: string, i: int) {
    0 <= i < |a| && i < |b| && a[i] != b[i] && forall k :: 0 <= k < i ==> a[k] == b[k]
  }

  ghost predicate Sorted(keys: seq<string>) {
    forall i, j :: 0 <= i < j < |keys| ==> LexLe(keys[i], keys[j]) && keys[i] != keys[j]
  }

  ghost predicate IsSortedListing(keys: seq<string>, of: set<string>) {
    Sorted(keys) && Elements(keys) == of
  }

  /** A finite set of keys has one sorted listing, whatever order it is visited in. */
  lemma {:induction false} SortedListingUnique(a: seq<string>, b: seq<string>, of: set<string>)
    requires IsSortedListing(a, of) && IsSortedListing(b, of)
    ensures a == b
  {
    if a == [] {
      assert |b| > 0 ==> Last(b) in of;
    } else {
      assert a[0] in of;
      assert b != [];
      assert b[0] in of;
      var i :| 0 <= i < |b| && b[i] == a[0];
      var j :| 0 <= j < |a| && a[j] == b[0];
      LexTotal(a[0], b[0]);
      assert a[0] == b[0];
      TailElements(a);
      TailElements(b);
      SortedListingUnique(a[1..], b[1..], of - {a[0]});
    }
  }

  lemma TailElements(a: seq<string>)
    requires a != [] && Sorted(a)
    ensures Elements(a[1..]) == Elements(a) - {a[0]}
  {
    forall x ensures x in a[1..] <==> x in a && x != a[0] {
      if x in a && x != a[0] {
        var i :| 0 <= i < |a| && a[i] == x;
        assert a[1..][i - 1] == x;
      }
    }
  }

  /** Where `k` goes in a sorted listing that lacks it. */
  method InsertKey(keys: seq<string>, k: string) returns (longer: seq<string>)
    requires Sorted(keys) && k !in keys
    ensures IsSortedListing(longer, Elements(keys) + {k})
  {
    var i := 0;
    while i < |keys| && LexLe(keys[i], k)
      invariant 0 <= i <= |keys|
      invariant forall j :: 0 <= j < i ==> LexLe(keys[j], k)
    {
      i := i + 1;
    }
    longer := keys[..i] + [k] + keys[i..];
    InsertedListing(keys, k, i);
  }

  lemma InsertedElements(keys: seq<string>, k: string, i: nat)
    requires i <= |keys|
    ensures Elements(keys[..i] + [k] + keys[i..]) == Elements(keys) + {k}
  {
    var longer := keys[..i] + [k] + keys[i..];
    assert keys == keys[..i] + keys[i..];
    assert forall x :: x in longer <==> x in keys || x == k;
  }

  lemma InsertedListing(keys: seq<string>, k: string, i: nat)
    requires Sorted(keys) && k !in keys && i <= |keys|
    requires forall j :: 0 <= j < i ==> LexLe(keys[j], k)
    requires i < |keys| ==> !LexLe(keys[i], k)
    ensures IsSortedListing(keys[..i] + [k] + keys[i..], Elements(keys) + {k})
  {
    InsertedElements(keys, k, i);
    forall j | i <= j < |keys| ensures LexLe(k, keys[j]) {
      LexTotal(k, keys[i]);
      if i < j {
        LexTransitive(k, keys[i], keys[j]);
      }
    }
  }

  /** The keys of an entry in sorted order; the map is visited in any order. */
  method SortedKeys(entry: MatrixEntry) returns (keys: seq<string>)
    ensures IsSortedListing(keys, entry.Keys)
  {
    keys := [];
    var left := entry.Keys;
    while left != {}
      invariant left <= entry.Keys
      invariant IsSortedListing(keys, entry.Keys - left)
    {
      var k :| k in left;
      keys := InsertKey(keys, k);
      left := left - {k};
    }
  }

  lemma {:induction false} SortedListingExists(ks: set<string>) returns (keys: seq<string>)
    ensures IsSortedListing(keys, ks)
  {
    if ks == {} {
      keys := [];
    } else {
      var m := LeastKey(ks);
      var rest := SortedListingExists(ks - {m});
      keys := [m] + rest;
      assert forall i :: 0 <= i < |rest| ==> rest[i] in Elements(rest);
      assert Elements(keys) == {m} + Elements(rest);
    }
  }

  lemma {:induction false} LeastKey(ks: set<string>) returns (m: string)
    requires ks != {}
    ensures m in ks && forall x :: x in ks ==> LexLe(m, x)
  {
    var k :| k in ks;
    LexTotal(k, k);
    if ks == {k} {
      m := k;
    } else {
      var l := LeastKey(ks - {k});
      LexTotal(k, l);
      m := if LexLe(k, l) then k else l;
      forall x | x in ks ensures LexLe(m, x) {
        if x != k {
          LexTransitive(m, l, x);
        } else if m == l {
          assert LexLe(l, k);
        }
      }
    }
  }

  ghost function SortedListing(ks: set<string>): (keys: seq<string>)
    ensures IsSortedListing(keys, ks)
  {
    assert exists keys :: IsSortedListing(keys, ks) by {
      var keys := SortedListingExists(ks);
    }
    var keys :| IsSortedListing(keys, ks); keys
  }

  // ---- Cartesian product -----------------------------------------------------

  type Combo = map<string, string>

  function ExtendOne(prev: Combo, k: string, values: seq<string>): seq<Combo> {
    seq(|values|, i requires 0 <= i < |values| => prev[k := values[i]])
  }

  function ExtendAll(prevs: seq<Combo>, k: string, values: seq<string>): seq<Combo> {
    if prevs == [] then [] else ExtendAll(prevs[..|prevs| - 1], k, values) + ExtendOne(Last(prevs), k, values)
  }

  function Combos(entry: MatrixEntry, keys: seq<string>): seq<Combo>
    requires forall k :: k in keys ==> k in entry
  {
    if keys == [] then [map[]]
    else ExtendAll(Combos(entry, keys[..|keys| - 1]), Last(keys), entry[Last(keys)])
  }

  method CartesianProduct(entry: MatrixEntry, keys: seq<string>) returns (result: seq<Combo>)
    requires forall k :: k in keys ==> k in entry
    ensures result == Combos(entry, keys)
  {
    result := [map[]];
    assert keys[..0] == [];
    for i := 0 to |keys|
      invariant result == Combos(entry, keys[..i])
    {
      var k := keys[i];
      var values := entry[k];
      var next: seq<Combo> := [];
      for p := 0 to |result|
        invariant next == ExtendAll(result[..p], k, values)
      {
        ghost var before := next;
        for x := 0 to |values|
          invariant next == before + ExtendOne(result[p], k, values)[..x]
        {
          next := next + [result[p][k := values[x]]];
        }
        assert result[..p + 1][..p] == result[..p];
      }
      assert result[..|result|] == result;
      result := next;
      assert keys[..i + 1][..i] == keys[..i];
    }
    assert keys[..|keys|] == keys;
  }

  /** A choice picks one value position per key. */
  ghost predicate IsChoice(entry: MatrixEntry, keys: seq<string>, c: seq<nat>) {
    |c| == |keys| && forall i :: 0 <= i < |keys| ==> keys[i] in entry && c[i] < |entry[keys[i]]|
  }

  ghost function Pick(entry: MatrixEntry, keys: seq<string>, c: seq<nat>): Combo
    requires IsChoice(entry, keys, c)
  {
    if keys == [] then map[]
    else Pick(entry, keys[..|keys| - 1], c[..|c| - 1])[Last(keys) := entry[Last(keys)][Last(c)]]
  }

  /** The mixed-radix value of a choice: the last key varies fastest. */
  ghost function Rank(entry: MatrixEntry, keys: seq<string>, c: seq<nat>): nat
    requires IsChoice(entry, keys, c)
  {
    if keys == [] then 0
    else Rank(entry, keys[..|keys| - 1], c[..|c| - 1]) * |entry[Last(keys)]| + Last(c)
  }

  ghost function Product(entry: MatrixEntry, keys: seq<string>): nat
    requires forall k :: k in keys ==> k in entry
  {
    if keys == [] then 1 else Product(entry, keys[..|keys| - 1]) * |entry[Last(keys)]|
  }

  lemma {:induction false} ExtendAllAt(prevs: seq<Combo>, k: string, values: seq<string>, p: nat, x: nat)
    requires p < |prevs| && x < |values|
    ensures |ExtendAll(prevs, k, values)| == |prevs| * |values|
    ensures p * |values| + x < |prevs| * |values|
    ensures ExtendAll(prevs, k, values)[p * |values| + x] == prevs[p][k := values[x]]
  {
    ExtendAllLength(prevs, k, values);
    var front := prevs[..|prevs| - 1];
    ExtendAllLength(front, k, values);
    assert (|prevs| - 1) * |values| + |values| == |prevs| * |values|;
    if p < |prevs| - 1 {
      ExtendAllAt(front, k, values, p, x);
    }
  }

  lemma {:induction false} ExtendAllLength(prevs: seq<Combo>, k: string, values: seq<string>)
    ensures |ExtendAll(prevs, k, values)| == |prevs| * |values|
  {
    if prevs != [] {
      ExtendAllLength(prevs[..|prevs| - 1], k, values);
      assert (|prevs| - 1) * |values| + |values| == |prevs| * |values|;
    }
  }

  lemma {:induction false} CombosCount(entry: MatrixEntry, keys: seq<string>)
    requires forall k :: k in keys ==> k in entry
    ensures |Combos(entry, keys)| == Product(entry, keys)
  {
    if keys != [] {
      CombosCount(entry, keys[..|keys| - 1]);
      ExtendAllLength(Combos(entry, keys[..|keys| - 1]), Last(keys), entry[Last(keys)]);
    }
  }

  /** Every choice is listed, at the position its rank says. */
  lemma {:induction false} ChoiceIsListed(entry: MatrixEntry, keys: seq<string>, c: seq<nat>)
    requires IsChoice(entry, keys, c)
    ensures Rank(entry, keys, c) < |Combos(entry, keys)|
    ensures Combos(entry, keys)[Rank(entry, keys, c)] == Pick(entry, keys, c)
  {
    if keys != [] {
      var front := keys[..|keys| - 1];
      ChoiceIsListed(entry, front, c[..|c| - 1]);
      ExtendAllAt(Combos(entry, front), Last(keys), entry[Last(keys)], Rank(entry, front, c[..|c| - 1]), Last(c));
    }
  }

  /** Every listed combination is a choice. */
  lemma {:induction false} ListedIsChoice(entry: MatrixEntry, keys: seq<string>, n: nat) returns (c: seq<nat>)
    requires forall k :: k in keys ==> k in entry
    requires n < |Combos(entry, keys)|
    ensures IsChoice(entry, keys, c) && Rank(entry, keys, c) == n
    ensures Combos(entry, keys)[n] == Pick(entry, keys, c)
  {
    if keys == [] {
      c := [];
    } else {
      var front, values := keys[..|keys| - 1], entry[Last(keys)];
      var prevs := Combos(entry, front);
      ExtendAllLength(prevs, Last(keys), values);
      var q, r := SplitRank(n, |prevs|, |values|);
      var inner := ListedIsChoice(entry, front, q);
      c := inner + [r];
      LongerChoice(entry, keys, inner, r);
      ChoiceIsListed(entry, keys, c);
    }
  }

  lemma LongerChoice(entry: MatrixEntry, keys: seq<string>, inner: seq<nat>, x: nat)
    requires keys != [] && IsChoice(entry, keys[..|keys| - 1], inner)
    requires Last(keys) in entry && x < |entry[Last(keys)]|
    ensures IsChoice(entry, keys, inner + [x])
    ensures Rank(entry, keys, inner + [x]) == Rank(entry, keys[..|keys| - 1], inner) * |entry[Last(keys)]| + x
  {
    var c := inner + [x];
    assert c[..|c| - 1] == inner;
    forall i | 0 <= i < |keys| ensures keys[i] in entry && c[i] < |entry[keys[i]]| {
      if i < |keys| - 1 {
        assert keys[..|keys| - 1][i] == keys[i];
      }
    }
  }

  lemma SplitRank(n: nat, a: nat, b: nat) returns (q: nat, r: nat)
    requires n < a * b
    ensures q < a && r < b && n == q * b + r
  {
    assert b != 0;
    q, r := n / b, n % b;
    MulStep(q, a, b);
  }

  lemma MulStep(a: nat, b: nat, w: nat)
    ensures a < b ==> a * w + w <= b * w
    ensures b <= a ==> b * w <= a * w
  {
    if a < b {
      MulMonotone(a + 1, b, w);
    } else {
      MulMonotone(b, a, w);
    }
  }

  lemma {:induction false} MulMonotone(a: nat, b: nat, w: nat)
    requires a <= b
    ensures a * w <= b * w
  {
    if a < b {
      MulMonotone(a, b - 1, w);
    }
  }

  ghost predicate LexBefore(c: seq<nat>, d: seq<nat>) {
    |c| == |d| && exists i :: 0 <= i < |c| && c[..i] == d[..i] && c[i] < d[i]
  }

  /** The listing is in lexicographic order of choices. */
  lemma {:induction false} RankIsLexicographic(entry: MatrixEntry, keys: seq<string>, c: seq<nat>, d: seq<nat>)
    requires IsChoice(entry, keys, c) && IsChoice(entry, keys, d) && LexBefore(c, d)
    ensures Rank(entry, keys, c) < Rank(entry, keys, d)
  {
    var i :| 0 <= i < |c| && c[..i] == d[..i] && c[i] < d[i];
    var n := |keys| - 1;
    var before, after := Rank(entry, keys[..n], c[..n]), Rank(entry, keys[..n], d[..n]);
    if i < n {
      assert c[..n][..i] == d[..n][..i];
      RankIsLexicographic(entry, keys[..n], c[..n], d[..n]);
    } else {
      assert c[..n] == d[..n];
    }
    RankSteps(before, after, |entry[Last(keys)]|, Last(c), Last(d));
  }

  lemma RankSteps(before: nat, after: nat, w: nat, x: nat, y: nat)
    requires x < w && (before < after || (before == after && x < y))
    ensures before * w + x < after * w + y
  {
    MulStep(before, after, w);
  }

  /** A pick maps exactly the keys, each to the chosen value. */
  lemma {:induction false} PickValues(entry: MatrixEntry, keys: seq<string>, c: seq<nat>)
    requires IsChoice(entry, keys, c) && Distinct(keys)
    ensures Pick(entry, keys, c).Keys == Elements(keys)
    ensures forall i :: 0 <= i < |keys| ==> Pick(entry, keys, c)[keys[i]] == entry[keys[i]][c[i]]
  {
    if keys != [] {
      PickValues(entry, keys[..|keys| - 1], c[..|c| - 1]);
      assert keys == keys[..|keys| - 1] + [Last(keys)];
    }
  }

  // ---- Variants --------------------------------------------------------------

  predicate SafeChar(c: char) {
    'a' <= c <= 'z' || 'A' <= c <= 'Z' || '0' <= c <= '9' || c == '_' || c == '.' || c == '-'
  }

  predicate Safe(s: string) {
    s != [] && forall i :: 0 <= i < |s| ==> SafeChar(s[i])
  }

  predicate SafeValues(values: seq<string>) {
    values != [] && forall v :: v in values ==> Safe(v)
  }

  predicate ValidEntry(entry: MatrixEntry) {
    entry.Keys != {} && forall k :: k in entry ==> Safe(k) && SafeValues(entry[k])
  }

  function JoinWith(parts: seq<string>, sep: string): string {
    if parts == [] then [] else if |parts| == 1 then parts[0] else parts[0] + sep + JoinWith(parts[1..], sep)
  }

  function VarsOf(job: JobConfig): Variables {
    if job.variables.Some? then job.variables.value else map[]
  }

  function VariantParts(keys: seq<string>, combo: Combo): seq<string>
    requires forall k :: k in keys ==> k in combo
  {
    seq(|keys|, i requires 0 <= i < |keys| && keys[i] in combo => keys[i] + "." + combo[keys[i]])
  }

  function VariantName(job: JobConfig, keys: seq<string>, combo: Combo): string
    requires forall k :: k in keys ==> k in combo
  {
    job.name + "_" + JoinWith(VariantParts(keys, combo), "_")
  }

  ghost function Variant(job: JobConfig, keys: seq<string>, combo: Combo): JobConfig
    requires forall k :: k in keys ==> k in combo
  {
    job.(name := VariantName(job, keys, combo), variables := Some(VarsOf(job) + combo), matrix := [],
         matrixGroup := job.name)
  }

  lemma {:induction false} JoinWithSnoc(parts: seq<string>, part: string, sep: string)
    ensures JoinWith(parts + [part], sep) == if parts == [] then part else JoinWith(parts, sep) + sep + part
  {
    if parts != [] {
      var rest := parts[1..];
      JoinWithSnoc(rest, part, sep);
      AppendTail(parts, [part]);
      if rest != [] {
        AppendAssociative(parts[0] + sep, JoinWith(rest, sep), sep);
        AppendAssociative(parts[0] + sep, JoinWith(rest, sep) + sep, part);
      }
    }
  }

  /** The name of a variant, key by key: the job's, then `_key.value` for each key in turn. */
  lemma VariantNameByKeys(job: JobConfig, keys: seq<string>, k: string, combo: Combo)
    requires k in combo && forall x :: x in keys ==> x in combo
    ensures VariantName(job, keys + [k], combo) ==
              (if keys == [] then job.name else VariantName(job, keys, combo)) + "_" + (k + "." + combo[k])
  {
    var part := k + "." + combo[k];
    var parts := VariantParts(keys, combo);
    assert VariantParts(keys + [k], combo) == parts + [part];
    JoinWithSnoc(parts, part, "_");
    if keys != [] {
      AppendAssociative(job.name + "_", JoinWith(parts, "_"), "_");
      AppendAssociative(job.name + "_", JoinWith(parts, "_") + "_", part);
    }
  }

  /** A variant takes the combination's variables over the job's own, its name as group, and loses the matrix. */
  lemma VariantFields(job: JobConfig, keys: seq<string>, combo: Combo, k: string)
    requires forall x :: x in keys ==> x in combo
    ensures var v := Variant(job, keys, combo);
            && Lookup(v.variables, k) == (if k in combo then Some(combo[k]) else Lookup(job.variables, k))
            && v.matrix == [] && v.matrixGroup == job.name && v.name == VariantName(job, keys, combo)
            && v.(name := job.name, variables := job.variables, matrix := job.matrix,
                  matrixGroup := job.matrixGroup) == job
  {
  }

  /** The characters a key or a value may have, by code: letters, digits, `_`, `.` and `-`. */
  lemma SafeExactly(s: string)
    ensures Safe(s) <==> s != "" && forall i :: 0 <= i < |s| ==> SafeCode(s[i] as int)
  {
    assert forall c: char :: SafeChar(c) <==> SafeCode(c as int);
  }

  predicate SafeCode(code: int) {
    97 <= code <= 122 || 65 <= code <= 90 || 48 <= code <= 57 || code == 95 || code == 46 || code == 45
  }

  /** Entries are expanded one after the other. */
  lemma {:induction false} EntriesInOrder(job: JobConfig, entries: seq<MatrixEntry>, rows: seq<seq<JobConfig>>)
    requires |rows| == |entries| && forall i :: 0 <= i < |entries| ==> rows[i] == EntryVariants(job, entries[i])
    ensures AllVariants(job, entries) == Concat(rows)
  {
    if entries != [] {
      EntriesInOrder(job, entries[..|entries| - 1], rows[..|rows| - 1]);
    }
  }

  lemma {:induction false} CombosKeys(entry: MatrixEntry, keys: seq<string>)
    requires forall k :: k in keys ==> k in entry
    ensures forall n :: 0 <= n < |Combos(entry, keys)| ==> Combos(entry, keys)[n].Keys == Elements(keys)
  {
    forall n | 0 <= n < |Combos(entry, keys)| ensures Combos(entry, keys)[n].Keys == Elements(keys) {
      var c := ListedIsChoice(entry, keys, n);
      PickKeys(entry, keys, c);
    }
  }

  lemma {:induction false} PickKeys(entry: MatrixEntry, keys: seq<string>, c: seq<nat>)
    requires IsChoice(entry, keys, c)
    ensures Pick(entry, keys, c).Keys == Elements(keys)
  {
    if keys != [] {
      PickKeys(entry, keys[..|keys| - 1], c[..|c| - 1]);
      assert keys == keys[..|keys| - 1] + [Last(keys)];
    }
  }

  ghost function EntryVariants(job: JobConfig, entry: MatrixEntry): (vs: seq<JobConfig>)
    ensures |vs| == Product(entry, SortedListing(entry.Keys))
  {
    var keys := SortedListing(entry.Keys);
    assert forall k :: k in keys ==> k in Elements(keys);
    CombosKeys(entry, keys);
    CombosCount(entry, keys);
    var combos := Combos(entry, keys);
    seq(|combos|, n requires 0 <= n < |combos| => Variant(job, keys, combos[n]))
  }

  ghost function AllVariants(job: JobConfig, entries: seq<MatrixEntry>): seq<JobConfig> {
    if entries == [] then []
    else AllVariants(job, entries[..|entries| - 1]) + EntryVariants(job, Last(entries))
  }

  ghost function Expanded(job: JobConfig): seq<JobConfig> {
    if job.matrix == [] then [job] else AllVariants(job, job.matrix)
  }

  ghost predicate Expandable(job: JobConfig) {
    AllValid(job.matrix) && UniqueNames(Expanded(job))
  }

  datatype MatrixError = InvalidEntry(index: nat) | DuplicateVariant(name: string)

  method ValidateMatrixEntry(entry: MatrixEntry) returns (ok: bool)
    ensures ok <==> ValidEntry(entry)
  {
    if entry.Keys == {} {
      return false;
    }
    var left := entry.Keys;
    while left != {}
      invariant left <= entry.Keys
      invariant forall k :: k in entry && k !in left ==> Safe(k) && SafeValues(entry[k])
    {
      var k :| k in left;
      if !Safe(k) || |entry[k]| == 0 {
        return false;
      }
      for i := 0 to |entry[k]|
        invariant forall j :: 0 <= j < i ==> Safe(entry[k][j])
      {
        if !Safe(entry[k][i]) {
          return false;
        }
      }
      left := left - {k};
    }
    return true;
  }

  method OverlayCombo(base: Variables, keys: seq<string>, combo: Combo) returns (vars: Variables, parts: seq<string>)
    requires Elements(keys) == combo.Keys
    requires forall k :: k in keys ==> k in combo
    ensures vars == base + combo && parts == VariantParts(keys, combo)
  {
    vars := base;
    parts := [];
    for i := 0 to |keys|
      invariant parts == VariantParts(keys, combo)[..i]
      invariant vars == base + (map k | k in combo && k in keys[..i] :: combo[k])
    {
      vars := vars[keys[i] := combo[keys[i]]];
      parts := parts + [keys[i] + "." + combo[keys[i]]];
      assert keys[..i + 1] == keys[..i] + [keys[i]];
    }
    assert keys[..|keys|] == keys;
    assert forall k :: k in combo ==> k in Elements(keys);
    assert (map k | k in combo && k in keys :: combo[k]) == combo;
  }

  method CloneForVariant(job: JobConfig, keys: seq<string>, combo: Combo) returns (v: JobConfig)
    requires Elements(keys) == combo.Keys
    requires forall k :: k in keys ==> k in combo
    ensures v == Variant(job, keys, combo)
  {
    var vars, parts := OverlayCombo(VarsOf(job), keys, combo);
    v := job.(name := job.name + "_" + JoinWith(parts, "_"), variables := Some(vars), matrix := [],
              matrixGroup := job.name);
  }

  /** `seen` holds the names listed so far, none of them twice. */
  ghost predicate Tracks(seen: set<string>, variants: seq<JobConfig>) {
    UniqueNames(variants) && seen == Elements(Names(variants))
  }

  ghost predicate NoUniqueExtension(start: seq<JobConfig>) {
    forall all :: start <= all ==> !UniqueNames(all)
  }

  lemma TrackOne(seen: set<string>, variants: seq<JobConfig>, v: JobConfig, all: seq<JobConfig>)
    requires Tracks(seen, variants) && variants + [v] <= all
    ensures v.name !in seen ==> Tracks(seen + {v.name}, variants + [v])
    ensures v.name in seen ==> !UniqueNames(all)
  {
    var longer := variants + [v];
    assert Names(longer) == Names(variants) + [v.name];
    if v.name in seen {
      var k :| 0 <= k < |variants| && Names(variants)[k] == v.name;
      assert longer[k] == all[k] && longer[|variants|] == all[|variants|];
      assert Names(all)[k] == Names(all)[|variants|];
    } else {
      assert Elements(Names(longer)) == seen + {v.name};
    }
  }

  lemma TrackRow(seen: set<string>, variants: seq<JobConfig>, row: seq<JobConfig>, n: nat)
    requires n < |row| && Tracks(seen, variants + row[..n])
    ensures variants + row[..n] + [row[n]] == variants + row[..n + 1]
    ensures row[n].name !in seen ==> Tracks(seen + {row[n].name}, variants + row[..n + 1])
    ensures row[n].name in seen ==> NoUniqueExtension(variants + row)
  {
    var sofar := variants + row[..n];
    assert variants + row[..n + 1] == sofar + [row[n]];
    TrackOne(seen, sofar, row[n], sofar + [row[n]]);
    forall all | variants + row <= all && row[n].name in seen ensures !UniqueNames(all) {
      assert variants + row == sofar + [row[n]] + row[n + 1..];
      TrackOne(seen, sofar, row[n], all);
    }
  }

  /** Up to variant `n` of the row all names differ; that one's name is already taken. */
  ghost predicate FirstClash(variants: seq<JobConfig>, row: seq<JobConfig>, n: nat, name: string) {
    n < |row| && UniqueNames(variants + row[..n]) && row[n].name == name && name in Names(variants + row[..n])
  }

  /** Appends one entry's variants, or reports the first name already taken. */
  method ExpandEntry(job: JobConfig, entry: MatrixEntry, variants: seq<JobConfig>, seen: set<string>)
      returns (clash: Option<string>, variants': seq<JobConfig>, seen': set<string>)
    requires ValidEntry(entry) && Tracks(seen, variants)
    ensures clash.None? ==> variants' == variants + EntryVariants(job, entry) && Tracks(seen', variants')
    ensures clash.Some? ==> NoUniqueExtension(variants + EntryVariants(job, entry))
    ensures clash.Some? ==> exists n :: FirstClash(variants, EntryVariants(job, entry), n, clash.value)
  {
    variants', seen' := variants, seen;
    var keys := SortedKeys(entry);
    SortedListingUnique(keys, SortedListing(entry.Keys), entry.Keys);
    assert forall k :: k in keys ==> k in Elements(keys);
    var combos := CartesianProduct(entry, keys);
    CombosKeys(entry, keys);
    ghost var row := EntryVariants(job, entry);
    assert |row| == |combos|;
    for n := 0 to |combos|
      invariant variants' == variants + row[..n]
      invariant Tracks(seen', variants')
    {
      assert combos[n].Keys == Elements(keys);
      var v := CloneForVariant(job, keys, combos[n]);
      assert v == row[n];
      TrackRow(seen', variants, row, n);
      if v.name in seen' {
        assert FirstClash(variants, row, n, v.name);
        return Some(v.name), variants', seen';
      }
      seen' := seen' + {v.name};
      variants' := variants' + [v];
    }
    assert row[..|combos|] == row;
    clash := None;
  }

  ghost predicate AllValid(entries: seq<MatrixEntry>) {
    forall i :: 0 <= i < |entries| ==> ValidEntry(entries[i])
  }

  lemma AllValidStep(entries: seq<MatrixEntry>, i: nat)
    requires i < |entries| && AllValid(entries[..i]) && ValidEntry(entries[i])
    ensures AllValid(entries[..i + 1])
  {
    var longer := entries[..i + 1];
    forall j | 0 <= j < |longer| ensures ValidEntry(longer[j]) {
      if j < i {
        assert longer[j] == entries[..i][j];
      }
    }
  }

  /** The first entry that is invalid or brings a name already taken is the one complained about. */
  ghost predicate FirstMatrixError(job: JobConfig, entries: seq<MatrixEntry>, e: MatrixError) {
    exists i :: 0 <= i < |entries| && AllValid(entries[..i]) && UniqueNames(AllVariants(job, entries[..i])) &&
                EntryError(job, entries, i, e)
  }

  ghost predicate EntryError(job: JobConfig, entries: seq<MatrixEntry>, i: nat, e: MatrixError)
    requires i < |entries|
  {
    match e
    case InvalidEntry(k) => k == i && !ValidEntry(entries[i])
    case DuplicateVariant(name) =>
      && ValidEntry(entries[i])
      && exists n :: FirstClash(AllVariants(job, entries[..i]), EntryVariants(job, entries[i]), n, name)
  }

  method ExpandEntries(job: JobConfig, entries: seq<MatrixEntry>) returns (r: Result<seq<JobConfig>, MatrixError>)
    ensures r.Ok? ==> AllValid(entries) && UniqueNames(r.value) && r.value == AllVariants(job, entries)
    ensures r.Err? ==> !AllValid(entries) || !UniqueNames(AllVariants(job, entries))
    ensures r.Err? ==> FirstMatrixError(job, entries, r.error)
  {
    var variants: seq<JobConfig> := [];
    var seen: set<string> := {};
    for i := 0 to |entries|
      invariant variants == AllVariants(job, entries[..i])
      invariant Tracks(seen, variants)
      invariant AllValid(entries[..i])
    {
      var valid := ValidateMatrixEntry(entries[i]);
      if !valid {
        assert EntryError(job, entries, i, InvalidEntry(i));
        return Err(InvalidEntry(i));
      }
      AllVariantsStep(job, entries, i);
      AllValidStep(entries, i);
      var clash, variants', seen' := ExpandEntry(job, entries[i], variants, seen);
      if clash.Some? {
        assert EntryError(job, entries, i, DuplicateVariant(clash.value));
        return Err(DuplicateVariant(clash.value));
      }
      variants, seen := variants', seen';
    }
    assert entries[..|entries|] == entries;
    return Ok(variants);
  }

  /** Expansion succeeds exactly on valid entries with distinct variant names, and then lists the whole product. */
  method ExpandMatrix(job: JobConfig) returns (r: Result<seq<JobConfig>, MatrixError>)
    ensures r.Ok? <==> Expandable(job)
    ensures r.Ok? ==> r.value == Expanded(job)
    ensures r.Err? ==> FirstMatrixError(job, job.matrix, r.error)
  {
    if job.matrix == [] {
      return Ok([job]);
    }
    r := ExpandEntries(job, job.matrix);
  }

  lemma {:induction false} AllVariantsPrefix(job: JobConfig, entries: seq<MatrixEntry>, i: nat)
    requires i <= |entries|
    ensures AllVariants(job, entries[..i]) <= AllVariants(job, entries)
  {
    if i < |entries| {
      assert entries[..|entries| - 1][..i] == entries[..i];
      AllVariantsPrefix(job, entries[..|entries| - 1], i);
    } else {
      assert entries[..i] == entries;
    }
  }

  lemma AllVariantsStep(job: JobConfig, entries: seq<MatrixEntry>, i: nat)
    requires i < |entries|
    ensures AllVariants(job, entries[..i + 1]) == AllVariants(job, entries[..i]) + EntryVariants(job, entries[i])
    ensures AllVariants(job, entries[..i]) + EntryVariants(job, entries[i]) <= AllVariants(job, entries)
  {
    assert entries[..i + 1][..i] == entries[..i];
    AllVariantsPrefix(job, entries, i + 1);
  }

  /** Every expanded job keeps stage, needs and detachment, and is either the job or one of its variants. */
  lemma {:induction false} ExpandedShape(job: JobConfig)
    ensures forall v :: v in Expanded(job) ==>
              && v.stage == job.stage && v.needs == job.needs && v.parallel == job.parallel
              && (if job.matrix == [] then v == job else v.matrixGroup == job.name)
  {
    if job.matrix != [] {
      VariantsShape(job, job.matrix);
    }
  }

  lemma {:induction false} VariantsShape(job: JobConfig, entries: seq<MatrixEntry>)
    ensures forall v :: v in AllVariants(job, entries) ==>
              v.stage == job.stage && v.needs == job.needs && v.parallel == job.parallel && v.matrixGroup == job.name
  {
    if entries != [] {
      VariantsShape(job, entries[..|entries| - 1]);
    }
  }
}
