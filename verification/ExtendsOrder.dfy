/** Which parent wins: the law of internal/config/extends.go over the `extends` list as it is written. */
module ExtendsOrder {
  import opened Basics
  import opened ConfigModel
  import opened Extends

  /** What the parent at position `i` resolves to. */
  ghost function FromParent(job: JobConfig, reg: map<string, JobConfig>, i: nat): Result<JobConfig, ExtendsError>
    requires Registered(reg) && i < |job.extendsList|
  {
    Parent(job, reg, [job.name], job.extendsList[i])
  }

  /** Merging keeps a field of the last that sets it. */
  ghost predicate LastKept<T(!new)>(field: JobConfig -> T, isSet: T -> bool) {
    && (forall a, b :: field(Merge(a, b)) == if isSet(field(b)) then field(b) else field(a))
    && (forall a: JobConfig :: field(a.(extendsList := [])) == field(a))
  }

  ghost predicate SetBy<T(!new)>(job: JobConfig, reg: map<string, JobConfig>, field: JobConfig -> T, isSet: T -> bool,
                                 i: nat)
    requires Registered(reg) && i < |job.extendsList|
  {
    FromParent(job, reg, i).Ok? && isSet(field(FromParent(job, reg, i).value))
  }

  ghost predicate IsLastToSet<T(!new)>(job: JobConfig, reg: map<string, JobConfig>, field: JobConfig -> T,
                                       isSet: T -> bool, i: nat)
    requires Registered(reg) && i < |job.extendsList|
  {
    && !isSet(field(job)) && SetBy(job, reg, field, isSet, i)
    && forall k :: i < k < |job.extendsList| ==> !SetBy(job, reg, field, isSet, k)
  }

  lemma {:induction false} CombineField<T(!new)>(parents: seq<Result<JobConfig, ExtendsError>>, values: seq<JobConfig>,
                                                 field: JobConfig -> T, isSet: T -> bool)
    requires LastKept(field, isSet) && |values| == |parents|
    requires forall i :: 0 <= i < |parents| ==> parents[i] == Ok(values[i])
    ensures Combine(parents).Ok?
    ensures field(Combine(parents).value) == LastSet(field(ZeroJob), values, field, isSet)
  {
    if parents != [] {
      CombineField(parents[..|parents| - 1], values[..|values| - 1], field, isSet);
    }
  }

  /** A resolvable job's parents all resolve, and it is they merged with the job on top. */
  lemma ResolvedFields<T(!new)>(job: JobConfig, reg: map<string, JobConfig>, field: JobConfig -> T, isSet: T -> bool)
      returns (values: seq<JobConfig>)
    requires Registered(reg) && LastKept(field, isSet) && job.extendsList != [] && Resolve(job, reg, []).Ok?
    ensures |values| == |job.extendsList|
    ensures forall i :: 0 <= i < |values| ==> FromParent(job, reg, i) == Ok(values[i])
    ensures field(Resolve(job, reg, []).value) ==
              if isSet(field(job)) then field(job) else LastSet(field(ZeroJob), values, field, isSet)
  {
    assert [] + [job.name] == [job.name];
    var parents := Parents(job, reg, [job.name]);
    CombineAllOk(parents);
    values := seq(|parents|, i requires 0 <= i < |parents| && parents[i].Ok? => parents[i].value);
    CombineField(parents, values, field, isSet);
  }

  /** The job wins over every parent, and a later parent over an earlier one. */
  lemma LaterParentWins<T(!new)>(job: JobConfig, reg: map<string, JobConfig>, field: JobConfig -> T, isSet: T -> bool)
    requires Registered(reg) && LastKept(field, isSet) && job.extendsList != [] && Resolve(job, reg, []).Ok?
    ensures isSet(field(job)) ==> field(Resolve(job, reg, []).value) == field(job)
    ensures forall i :: 0 <= i < |job.extendsList| && IsLastToSet(job, reg, field, isSet, i) ==>
              field(Resolve(job, reg, []).value) == field(FromParent(job, reg, i).value)
  {
    var values := ResolvedFields(job, reg, field, isSet);
    forall i | 0 <= i < |job.extendsList| && IsLastToSet(job, reg, field, isSet, i)
      ensures field(Resolve(job, reg, []).value) == field(FromParent(job, reg, i).value)
    {
      forall k | i < k < |values| ensures !isSet(field(values[k])) {
        assert !SetBy(job, reg, field, isSet, k);
      }
      LastSetAt(field(ZeroJob), values, field, isSet, i);
    }
  }

  /** So it is for each variable and registry host. */
  lemma LaterParentKeys(job: JobConfig, reg: map<string, JobConfig>, k: string, i: nat)
    requires Registered(reg) && i < |job.extendsList| && Resolve(job, reg, []).Ok?
    ensures IsLastToSet(job, reg, (j: JobConfig) => Lookup(j.variables, k), (x: Option<string>) => x.Some?, i) ==>
              Lookup(Resolve(job, reg, []).value.variables, k) == Lookup(FromParent(job, reg, i).value.variables, k)
    ensures IsLastToSet(job, reg, (j: JobConfig) => Lookup(j.registries, k), (x: Option<Credentials>) => x.Some?, i) ==>
              Lookup(Resolve(job, reg, []).value.registries, k) == Lookup(FromParent(job, reg, i).value.registries, k)
  {
    forall a: JobConfig, b: JobConfig
      ensures Lookup(Merge(a, b).variables, k) ==
                if Lookup(b.variables, k).Some? then Lookup(b.variables, k) else Lookup(a.variables, k)
      ensures Lookup(Merge(a, b).registries, k) ==
                if Lookup(b.registries, k).Some? then Lookup(b.registries, k) else Lookup(a.registries, k)
    {
      MergeMapLookup(a.variables, b.variables, k);
      MergeMapLookup(a.registries, b.registries, k);
    }
    LaterParentWins(job, reg, (j: JobConfig) => Lookup(j.variables, k), (x: Option<string>) => x.Some?);
    LaterParentWins(job, reg, (j: JobConfig) => Lookup(j.registries, k), (x: Option<Credentials>) => x.Some?);
  }
}
