/** Which include wins: the law of internal/config/include.go over the include list as it is written. */
module IncludeOrder {
  import opened Basics
  import opened ConfigModel
  import opened Listing
  import opened Include

  /** What the include at position `i` of the root's list loads to. */
  ghost function FromInclude(fs: Files, root: string, i: nat): Result<ConfigData, LoadError>
    requires root in fs.byPath && i < |fs.byPath[root].includes|
  {
    Load(fs, fs.resolve(fs.byPath[root].includes[i], root), false, {root})
  }

  /** The including file wins over every include, and a later include over an earlier one. */
  ghost predicate LaterWins<T(!new)>(fs: Files, root: string, field: ConfigData -> T, isSet: T -> bool)
    requires root in fs.byPath && Load(fs, root, true, {}).Ok?
  {
    var file, n, r := fs.byPath[root], |fs.byPath[root].includes|, Load(fs, root, true, {}).value;
    && (forall i :: 0 <= i < n ==> FromInclude(fs, root, i).Ok?)
    && (isSet(field(file)) ==> field(r) == field(file))
    && (forall i :: 0 <= i < n && IsLastToSet(fs, root, field, isSet, i) ==>
          field(r) == field(FromInclude(fs, root, i).value))
    && (!isSet(field(file)) && (forall i :: 0 <= i < n ==> !SetBy(fs, root, field, isSet, i)) ==> !isSet(field(r)))
  }

  ghost predicate SetBy<T(!new)>(fs: Files, root: string, field: ConfigData -> T, isSet: T -> bool, i: nat)
    requires root in fs.byPath && i < |fs.byPath[root].includes|
  {
    FromInclude(fs, root, i).Ok? && isSet(field(FromInclude(fs, root, i).value))
  }

  ghost predicate IsLastToSet<T(!new)>(fs: Files, root: string, field: ConfigData -> T, isSet: T -> bool, i: nat)
    requires root in fs.byPath && i < |fs.byPath[root].includes|
  {
    && !isSet(field(fs.byPath[root])) && SetBy(fs, root, field, isSet, i)
    && forall k :: i < k < |fs.byPath[root].includes| ==> !SetBy(fs, root, field, isSet, k)
  }

  /** Merging keeps a field of the first that sets it. */
  ghost predicate FirstKept<T(!new)>(field: ConfigData -> T, isSet: T -> bool) {
    && (forall a, b :: field(MergeInto(a, b)) == if isSet(field(a)) then field(a) else field(b))
    && (forall a: ConfigData :: field(a.(includes := [])) == field(a))
  }

  /** The merged field, as the first one set after the including file's own. */
  lemma {:induction false} MergeAllField<T(!new)>(first: ConfigData, rs: seq<Result<ConfigData, LoadError>>,
                                                  values: seq<ConfigData>, field: ConfigData -> T, isSet: T -> bool)
    requires FirstKept(field, isSet) && MergeAll(first, rs).Ok? && |values| == |rs|
    requires forall i :: 0 <= i < |rs| ==> rs[i] == Ok(values[i])
    ensures field(MergeAll(first, rs).value) == FirstSet(field(first), values, field, isSet)
  {
    if rs != [] {
      MergeAllField(first, rs[..|rs| - 1], values[..|rs| - 1], field, isSet);
    }
  }

  lemma {:induction false} FirstSetBase<T(!new)>(base: T, files: seq<ConfigData>, field: ConfigData -> T,
                                                 isSet: T -> bool)
    requires isSet(base)
    ensures FirstSet(base, files, field, isSet) == base
  {
    if files != [] {
      FirstSetBase(base, files[..|files| - 1], field, isSet);
    }
  }

  lemma LaterIncludeWins<T(!new)>(fs: Files, root: string, field: ConfigData -> T, isSet: T -> bool)
    requires FirstKept(field, isSet) && Load(fs, root, true, {}).Ok?
    ensures LaterWins(fs, root, field, isSet)
  {
    var file, n := fs.byPath[root], |fs.byPath[root].includes|;
    assert {} + {root} == {root};
    var rs := LoadIncluded(fs, root, {root});
    MergeAllOk(file, rs);
    var values := seq(n, k requires 0 <= k < n && rs[k].Ok? => rs[k].value);
    MergeAllField(file, rs, values, field, isSet);
    assert LastFirst(fs, root, values);
    if isSet(field(file)) {
      FirstSetBase(field(file), values, field, isSet);
    } else {
      forall i | 0 <= i < n && IsLastToSet(fs, root, field, isSet, i)
        ensures FirstSet(field(file), values, field, isSet) == field(FromInclude(fs, root, i).value)
      {
        LastIncludeFound(fs, root, values, field, isSet, i);
      }
      if forall i :: 0 <= i < n ==> !SetBy(fs, root, field, isSet, i) {
        NoIncludeFound(fs, root, values, field, isSet);
      }
    }
  }

  /** The includes' values, last include first. */
  ghost predicate LastFirst(fs: Files, root: string, values: seq<ConfigData>)
    requires root in fs.byPath
  {
    && |values| == |fs.byPath[root].includes|
    && forall i :: 0 <= i < |values| ==> FromInclude(fs, root, i) == Ok(values[|values| - 1 - i])
  }

  lemma UnsetAt<T(!new)>(fs: Files, root: string, values: seq<ConfigData>, field: ConfigData -> T, isSet: T -> bool,
                         k: nat)
    requires root in fs.byPath && LastFirst(fs, root, values) && k < |values|
    ensures isSet(field(values[k])) <==> SetBy(fs, root, field, isSet, |values| - 1 - k)
  {
  }

  lemma LastIncludeFound<T(!new)>(fs: Files, root: string, values: seq<ConfigData>, field: ConfigData -> T,
                                  isSet: T -> bool, i: nat)
    requires root in fs.byPath && LastFirst(fs, root, values) && i < |values| && IsLastToSet(fs, root, field, isSet, i)
    ensures FirstSet(field(fs.byPath[root]), values, field, isSet) == field(FromInclude(fs, root, i).value)
  {
    var p := |values| - 1 - i;
    UnsetAt(fs, root, values, field, isSet, p);
    forall k | 0 <= k < p ensures !isSet(field(values[k])) {
      UnsetAt(fs, root, values, field, isSet, k);
    }
    FirstSetAt(field(fs.byPath[root]), values, field, isSet, p);
  }

  lemma NoIncludeFound<T(!new)>(fs: Files, root: string, values: seq<ConfigData>, field: ConfigData -> T,
                                isSet: T -> bool)
    requires root in fs.byPath && LastFirst(fs, root, values) && !isSet(field(fs.byPath[root]))
    requires forall i :: 0 <= i < |values| ==> !SetBy(fs, root, field, isSet, i)
    ensures !isSet(FirstSet(field(fs.byPath[root]), values, field, isSet))
  {
    forall k | 0 <= k < |values| ensures !isSet(field(values[k])) {
      UnsetAt(fs, root, values, field, isSet, k);
    }
    FirstSetNowhere(field(fs.byPath[root]), values, field, isSet);
  }

  /** So it is for each job, */
  lemma LaterJobsWin(fs: Files, root: string, name: string)
    requires Load(fs, root, true, {}).Ok?
    ensures LaterWins(fs, root, (f: ConfigData) => JobNamed(f.jobs, name), (x: Option<JobConfig>) => x.Some?)
  {
    forall a: ConfigData, b: ConfigData
      ensures JobNamed(MergeInto(a, b).jobs, name) ==
                if JobNamed(a.jobs, name).Some? then JobNamed(a.jobs, name) else JobNamed(b.jobs, name)
    {
      JobNamedMerge(a.jobs, b.jobs, name);
    }
    LaterIncludeWins(fs, root, (f: ConfigData) => JobNamed(f.jobs, name), (x: Option<JobConfig>) => x.Some?);
  }

  lemma FirstMapLookup<V>(a: Option<map<string, V>>, b: Option<map<string, V>>, k: string)
    ensures Lookup(FirstMap(a, b), k) == if Lookup(a, k).Some? then Lookup(a, k) else Lookup(b, k)
  {
  }

  /** each variable and registry host, */
  lemma LaterKeysWin(fs: Files, root: string, k: string)
    requires Load(fs, root, true, {}).Ok?
    ensures LaterWins(fs, root, (f: ConfigData) => Lookup(f.globals, k), (x: Option<string>) => x.Some?)
    ensures LaterWins(fs, root, (f: ConfigData) => Lookup(f.registries, k), (x: Option<Credentials>) => x.Some?)
  {
    forall a: ConfigData, b: ConfigData
      ensures Lookup(MergeInto(a, b).globals, k) ==
                if Lookup(a.globals, k).Some? then Lookup(a.globals, k) else Lookup(b.globals, k)
      ensures Lookup(MergeInto(a, b).registries, k) ==
                if Lookup(a.registries, k).Some? then Lookup(a.registries, k) else Lookup(b.registries, k)
    {
      FirstMapLookup(a.globals, b.globals, k);
      FirstMapLookup(a.registries, b.registries, k);
    }
    LaterIncludeWins(fs, root, (f: ConfigData) => Lookup(f.globals, k), (x: Option<string>) => x.Some?);
    LaterIncludeWins(fs, root, (f: ConfigData) => Lookup(f.registries, k), (x: Option<Credentials>) => x.Some?);
  }

  /** and for stages, provider, bootstrap and cleanup as a whole. */
  lemma LaterFieldsWin(fs: Files, root: string)
    requires Load(fs, root, true, {}).Ok?
    ensures LaterWins(fs, root, (f: ConfigData) => f.stages, (x: seq<string>) => x != [])
    ensures LaterWins(fs, root, (f: ConfigData) => f.provider, (x: Option<Provider>) => x.Some?)
    ensures LaterWins(fs, root, (f: ConfigData) => f.bootstrap, (x: Option<Hook>) => x.Some?)
    ensures LaterWins(fs, root, (f: ConfigData) => f.cleanup, (x: Option<Hook>) => x.Some?)
  {
    LaterIncludeWins(fs, root, (f: ConfigData) => f.stages, (x: seq<string>) => x != []);
    LaterIncludeWins(fs, root, (f: ConfigData) => f.provider, (x: Option<Provider>) => x.Some?);
    LaterIncludeWins(fs, root, (f: ConfigData) => f.bootstrap, (x: Option<Hook>) => x.Some?);
    LaterIncludeWins(fs, root, (f: ConfigData) => f.cleanup, (x: Option<Hook>) => x.Some?);
  }

  // ---- Order of the jobs -------------------------------------------------------------

  /** Merging keeps the jobs there are and appends the new ones in their order. */
  lemma {:induction false} MergedJobsInOrder(jobs: seq<JobConfig>, more: seq<JobConfig>) returns (ys: seq<JobConfig>)
    requires UniqueNames(more)
    ensures AppendNew(jobs, more) == jobs + ys
    ensures Selects(more, ys, (j: JobConfig) => j.name !in Names(jobs))
  {
    var isNew := (j: JobConfig) => j.name !in Names(jobs);
    if more == [] {
      ys := [];
      SelectsNone(isNew);
      AppendNothing(jobs);
    } else {
      var front, last := more[..|more| - 1], Last(more);
      UniqueFront(more);
      var before := MergedJobsInOrder(jobs, front);
      SameSelection(front, before, (j: JobConfig) => j.name !in Names(jobs), isNew);
      SelectsSnoc(front, before, last, isNew);
      AppendNewNames(jobs, front);
      FrontLast(more);
      ys := before + if isNew(last) then [last] else [];
      AppendAssociative(jobs, before, if isNew(last) then [last] else []);
      AppendNothing(jobs + before);
    }
  }

  /** A name finds the one job that has it. */
  lemma {:induction false} JobNamedIs(jobs: seq<JobConfig>, i: nat)
    requires UniqueNames(jobs) && i < |jobs|
    ensures JobNamed(jobs, jobs[i].name) == Some(jobs[i])
  {
    if i > 0 {
      assert Names(jobs)[0] != Names(jobs)[i];
      assert forall k :: 0 <= k < |jobs| - 1 ==> Names(jobs[1..])[k] == Names(jobs)[k + 1];
      JobNamedIs(jobs[1..], i - 1);
    }
  }
}
