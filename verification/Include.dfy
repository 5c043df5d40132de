/** Include loading of internal/config/include.go: recursive, back to front, the includer winning. */
module Include {
  import opened Basics
  import opened Graph
  import opened ConfigModel
  import opened Explore
  import opened Listing

  // ---- Merging one configuration into another ----------------------------------

  function FirstMap<V>(into: Option<map<string, V>>, from: Option<map<string, V>>): Option<map<string, V>> {
    if from.None? then into else Some(from.value + (if into.Some? then into.value else map[]))
  }

  function FirstOf<T>(into: Option<T>, from: Option<T>): Option<T> {
    if into.Some? then into else from
  }

  /** The jobs of `more` whose names are still free, appended in order. */
  function AppendNew(jobs: seq<JobConfig>, more: seq<JobConfig>): seq<JobConfig> {
    if more == [] then jobs
    else
      var before := AppendNew(jobs, more[..|more| - 1]);
      if Last(more).name in Names(before) then before else before + [Last(more)]
  }

  function MergeInto(into: ConfigData, from: ConfigData): ConfigData {
    ConfigData(
      if into.stages == [] then from.stages else into.stages,
      AppendNew(into.jobs, from.jobs),
      FirstMap(into.globals, from.globals),
      FirstOf(into.provider, from.provider),
      FirstMap(into.registries, from.registries),
      FirstOf(into.bootstrap, from.bootstrap),
      FirstOf(into.cleanup, from.cleanup),
      into.includes)
  }

  method FillMissing<V>(into: Option<map<string, V>>, from: Option<map<string, V>>) returns (r: Option<map<string, V>>)
    ensures r == FirstMap(into, from)
  {
    if from.None? {
      return into;
    }
    var base: map<string, V> := if into.Some? then into.value else map[];
    var merged := base;
    var left := from.value.Keys;
    while left != {}
      invariant left <= from.value.Keys
      invariant merged == (map k | k in from.value && k !in left :: from.value[k]) + base
    {
      var k :| k in left;
      if k !in base {
        merged := merged[k := from.value[k]];
      }
      left := left - {k};
    }
    assert (map k | k in from.value && k !in left :: from.value[k]) == from.value;
    r := Some(merged);
  }

  method AppendNewJobs(jobs: seq<JobConfig>, more: seq<JobConfig>) returns (all: seq<JobConfig>)
    ensures all == AppendNew(jobs, more)
  {
    all := jobs;
    var existing := set j | j in jobs :: j.name;
    for i := 0 to |more|
      invariant all == AppendNew(jobs, more[..i])
      invariant existing == Elements(Names(all))
    {
      assert more[..i + 1][..i] == more[..i];
      if more[i].name !in existing {
        assert Names(all + [more[i]]) == Names(all) + [more[i].name];
        all := all + [more[i]];
        existing := existing + {more[i].name};
      }
    }
    assert more[..|more|] == more;
  }

  method MergeConfigInto(into: Config, from: Config)
    requires into != from
    modifies into
    ensures into.Value() == MergeInto(old(into.Value()), from.Value())
  {
    if |into.stages| == 0 {
      into.stages := from.stages;
    }
    into.globals := FillMissing(into.globals, from.globals);
    if into.provider.None? {
      into.provider := from.provider;
    }
    into.registries := FillMissing(into.registries, from.registries);
    if into.bootstrap.None? {
      into.bootstrap := from.bootstrap;
    }
    if into.cleanup.None? {
      into.cleanup := from.cleanup;
    }
    into.jobs := AppendNewJobs(into.jobs, from.jobs);
  }

  // ---- Loading -------------------------------------------------------------------

  datatype LoadError = CircularInclude(path: string) | ReadFailed(path: string) | MisplacedPlaceholder(path: string)

  /** The readable, well-formed files by path, and how an include is resolved against the file that names it. */
  datatype Files = Files(byPath: map<string, ConfigData>, resolve: (string, string) -> string)

  predicate HasPlaceholder(stages: seq<string>) {
    exists i :: 0 <= i < |stages| && stages[i] != [] && stages[i][0] == '.'
  }

  lemma PlaceholderExactly(stages: seq<string>)
    ensures HasPlaceholder(stages) <==> exists s :: s in stages && "." <= s
  {
    if s :| s in stages && "." <= s {
      var i :| 0 <= i < |stages| && stages[i] == s;
      assert "."[0] == s[0];
    }
    if i :| 0 <= i < |stages| && stages[i] != [] && stages[i][0] == '.' {
      assert stages[i] in stages && "." <= stages[i];
    }
  }

  /** The files a file includes, in the order they are loaded: last entry first. */
  function Included(fs: Files, path: string): (children: seq<string>)
    requires path in fs.byPath
    ensures |children| == |fs.byPath[path].includes|
  {
    var includes := fs.byPath[path].includes;
    seq(|includes|, i requires 0 <= i < |includes| => fs.resolve(includes[|includes| - 1 - i], path))
  }

  ghost function Load(fs: Files, path: string, main: bool, inProgress: set<string>): Result<ConfigData, LoadError>
    decreases fs.byPath.Keys - inProgress, 0
  {
    if path in inProgress then Err(CircularInclude(path))
    else if path !in fs.byPath then Err(ReadFailed(path))
    else if !main && HasPlaceholder(fs.byPath[path].stages) then Err(MisplacedPlaceholder(path))
    else
      var r := MergeAll(fs.byPath[path], LoadIncluded(fs, path, inProgress + {path}));
      if r.Err? then r else Ok(r.value.(includes := []))
  }

  ghost function LoadIncluded(fs: Files, path: string, inProgress: set<string>)
      : (rs: seq<Result<ConfigData, LoadError>>)
    requires path in fs.byPath && path in inProgress
    ensures |rs| == |Included(fs, path)|
    decreases fs.byPath.Keys - inProgress, 1
  {
    seq(|Included(fs, path)|, i requires 0 <= i < |Included(fs, path)| =>
      Load(fs, Included(fs, path)[i], false, inProgress))
  }

  /** Merged in order into `first`, or the first failure. */
  ghost function MergeAll(first: ConfigData, rs: seq<Result<ConfigData, LoadError>>): Result<ConfigData, LoadError> {
    if rs == [] then Ok(first)
    else
      var before, last := MergeAll(first, rs[..|rs| - 1]), Last(rs);
      if before.Err? then before
      else if last.Err? then last
      else Ok(MergeInto(before.value, last.value))
  }

  lemma {:induction false} MergeAllStops(first: ConfigData, rs: seq<Result<ConfigData, LoadError>>, m: nat)
    requires m <= |rs| && MergeAll(first, rs[..m]).Err?
    ensures MergeAll(first, rs) == MergeAll(first, rs[..m])
  {
    if m < |rs| {
      assert rs[..|rs| - 1][..m] == rs[..m];
      MergeAllStops(first, rs[..|rs| - 1], m);
    } else {
      assert rs[..m] == rs;
    }
  }

  lemma MergeOneMore(first: ConfigData, rs: seq<Result<ConfigData, LoadError>>, i: nat)
    requires i < |rs| && MergeAll(first, rs[..i]).Ok?
    ensures MergeAll(first, rs[..i + 1]) ==
              if rs[i].Err? then rs[i] else Ok(MergeInto(MergeAll(first, rs[..i]).value, rs[i].value))
  {
    assert rs[..i + 1][..i] == rs[..i];
  }

  class Loader {
    const fs: Files
    var inProgress: set<string>

    constructor (fs: Files)
      ensures this.fs == fs && inProgress == {}
    {
      this.fs, inProgress := fs, {};
    }

    ghost predicate Answers(r: Result<Config, LoadError>, spec: Result<ConfigData, LoadError>)
      reads if r.Ok? then {r.value} else {}
    {
      match spec
      case Err(e) => r == Err(e)
      case Ok(data) => r.Ok? && r.value.Value() == data
    }

    /** Loads a file and everything it includes; `inProgress` is as it was on every exit. */
    method LoadWithIncludes(path: string, main: bool) returns (r: Result<Config, LoadError>)
      modifies this
      ensures inProgress == old(inProgress)
      ensures r.Ok? ==> fresh(r.value)
      ensures Answers(r, Load(fs, path, main, old(inProgress)))
      decreases fs.byPath.Keys - inProgress, 0
    {
      if path in inProgress {
        return Err(CircularInclude(path));
      }
      inProgress := inProgress + {path};
      if path !in fs.byPath {
        r := Err(ReadFailed(path));
      } else if !main && HasPlaceholder(fs.byPath[path].stages) {
        r := Err(MisplacedPlaceholder(path));
      } else {
        r := MergeIncludes(path);
        if r.Ok? {
          r.value.includes := [];
        }
      }
      inProgress := inProgress - {path};
    }

    method MergeIncludes(path: string) returns (r: Result<Config, LoadError>)
      requires path in fs.byPath && path in inProgress
      modifies this
      ensures inProgress == old(inProgress)
      ensures r.Ok? ==> fresh(r.value)
      ensures Answers(r, MergeAll(fs.byPath[path], LoadIncluded(fs, path, inProgress)))
      decreases fs.byPath.Keys - inProgress, 1
    {
      var first := fs.byPath[path];
      var cfg := new Config(first);
      ghost var rs := LoadIncluded(fs, path, inProgress);
      for i := 0 to |first.includes|
        invariant inProgress == old(inProgress) && fresh(cfg)
        invariant MergeAll(first, rs[..i]) == Ok(cfg.Value())
      {
        MergeOneMore(first, rs, i);
        var childPath := fs.resolve(first.includes[|first.includes| - 1 - i], path);
        assert rs[i] == Load(fs, childPath, false, inProgress);
        var child := LoadWithIncludes(childPath, false);
        if child.Err? {
          MergeAllStops(first, rs, i + 1);
          return Err(child.error);
        }
        MergeConfigInto(cfg, child.value);
      }
      assert rs[..|rs|] == rs;
      return Ok(cfg);
    }
  }

  // ---- When loading succeeds -------------------------------------------------------

  /** The files that may be loaded: the main file, and every other one without stage placeholders. */
  ghost function IncludeGraph(fs: Files, root: string): Digraph {
    map p | p in fs.byPath && (p == root || !HasPlaceholder(fs.byPath[p].stages)) :: Included(fs, p)
  }

  ghost predicate Matches(r: Result<ConfigData, LoadError>, o: Outcome) {
    match o
    case Fine => r.Ok?
    case Missing(p) => r == Err(ReadFailed(p)) || r == Err(MisplacedPlaceholder(p))
    case Circular(p) => r == Err(CircularInclude(p))
  }

  lemma {:induction false} LoadMatchesVisit(fs: Files, root: string, path: string, inProgress: set<string>)
    requires path == root || root in inProgress
    requires inProgress <= IncludeGraph(fs, root).Keys
    ensures Matches(Load(fs, path, path == root, inProgress), Visit(IncludeGraph(fs, root), path, inProgress))
    ensures path in inProgress ==> Load(fs, path, false, inProgress) == Load(fs, path, path == root, inProgress)
    decreases fs.byPath.Keys - inProgress
  {
    var g := IncludeGraph(fs, root);
    if path !in inProgress && path in g {
      var chain, rs := inProgress + {path}, LoadIncluded(fs, path, inProgress + {path});
      forall i | 0 <= i < |g[path]| ensures Matches(rs[i], Visit(g, g[path][i], chain)) {
        LoadMatchesVisit(fs, root, g[path][i], chain);
      }
      MergeMatchesVisit(g, fs.byPath[path], rs, g[path], chain);
    }
  }

  lemma {:induction false} MergeMatchesVisit(g: Digraph, first: ConfigData, rs: seq<Result<ConfigData, LoadError>>,
                                             targets: seq<string>, chain: set<string>)
    requires |rs| == |targets| && forall i :: 0 <= i < |targets| ==> Matches(rs[i], Visit(g, targets[i], chain))
    ensures Matches(MergeAll(first, rs), VisitAll(g, targets, chain))
  {
    if targets != [] {
      MergeMatchesVisit(g, first, rs[..|rs| - 1], targets[..|targets| - 1], chain);
    }
  }

  /** Loading succeeds exactly when every include chain stays among loadable files and none comes back;
      the circular error is raised only for a real cycle, so a diamond is never rejected. */
  lemma LoadExact(fs: Files, root: string)
    ensures Load(fs, root, true, {}).Ok? <==> Sound(IncludeGraph(fs, root), root)
    ensures Load(fs, root, true, {}).Err? ==>
              if Load(fs, root, true, {}).error.CircularInclude? then CycleFrom(IncludeGraph(fs, root), root)
              else !ClosedFrom(IncludeGraph(fs, root), root)
  {
    LoadMatchesVisit(fs, root, root, {});
    VisitExact(IncludeGraph(fs, root), root);
  }

  /** Over readable files without misplaced placeholders, the only failure is the circular error,
      raised exactly when a cycle is reachable. */
  lemma CircularExactly(fs: Files, root: string)
    requires root in fs.byPath
    requires forall p :: p in fs.byPath && p != root ==> !HasPlaceholder(fs.byPath[p].stages)
    requires forall p, c :: p in fs.byPath && c in Included(fs, p) ==> c in fs.byPath
    ensures Load(fs, root, true, {}).Err? <==> CycleFrom(IncludeGraph(fs, root), root)
    ensures Load(fs, root, true, {}).Err? ==> Load(fs, root, true, {}).error.CircularInclude?
  {
    var g := IncludeGraph(fs, root);
    forall p | IsPath(g, p) && p[0] == root ensures Last(p) in g {
      if |p| > 1 {
        assert Edge(g, p[|p| - 2], p[|p| - 1]);
      }
    }
    LoadExact(fs, root);
  }

  // ---- What loading computes -------------------------------------------------------

  const EmptyConfig := ConfigData([], [], None, None, None, None, None, [])

  /** The precedence order: the file, then the order of its last include, ..., then that of its first. */
  ghost function Precedence(fs: Files, path: string, inProgress: set<string>): seq<ConfigData>
    decreases fs.byPath.Keys - inProgress, 0
  {
    if path in inProgress || path !in fs.byPath then []
    else [fs.byPath[path]] + PrecedenceAll(fs, Included(fs, path), inProgress + {path})
  }

  ghost function PrecedenceAll(fs: Files, paths: seq<string>, inProgress: set<string>): seq<ConfigData>
    decreases fs.byPath.Keys - inProgress, |paths| + 1
  {
    if paths == [] then []
    else PrecedenceAll(fs, paths[..|paths| - 1], inProgress) + Precedence(fs, Last(paths), inProgress)
  }

  /** Files merged one by one, each filling only what those before it left open. */
  ghost function FirstWins(files: seq<ConfigData>): ConfigData {
    if files == [] then EmptyConfig else MergeInto(FirstWins(files[..|files| - 1]), Last(files))
  }

  lemma {:induction false} AppendNewNames(jobs: seq<JobConfig>, more: seq<JobConfig>)
    ensures forall n :: n in Names(AppendNew(jobs, more)) <==> n in Names(jobs) || n in Names(more)
    ensures jobs <= AppendNew(jobs, more)
    ensures UniqueNames(jobs) ==> UniqueNames(AppendNew(jobs, more))
  {
    if more != [] {
      var front, last := more[..|more| - 1], Last(more);
      AppendNewNames(jobs, front);
      var before := AppendNew(jobs, front);
      assert Names(more) == Names(front) + [last.name];
      assert Names(before + [last]) == Names(before) + [last.name];
    }
  }

  lemma {:induction false} AppendNewAssociative(a: seq<JobConfig>, b: seq<JobConfig>, c: seq<JobConfig>)
    ensures AppendNew(AppendNew(a, b), c) == AppendNew(a, AppendNew(b, c))
  {
    if c != [] {
      var front, last := c[..|c| - 1], Last(c);
      AppendNewAssociative(a, b, front);
      var bc := AppendNew(b, front);
      AppendNewNames(a, bc);
      if last.name !in Names(bc) {
        assert (bc + [last])[..|bc|] == bc;
      }
    }
  }

  lemma UniqueFront(jobs: seq<JobConfig>)
    requires jobs != [] && UniqueNames(jobs)
    ensures UniqueNames(jobs[..|jobs| - 1]) && Last(jobs).name !in Names(jobs[..|jobs| - 1])
  {
    assert Names(jobs) == Names(jobs[..|jobs| - 1]) + [Last(jobs).name];
  }

  lemma {:induction false} AppendNewToNone(more: seq<JobConfig>)
    requires UniqueNames(more)
    ensures AppendNew([], more) == more
  {
    if more != [] {
      UniqueFront(more);
      FrontLast(more);
      AppendNewToNone(more[..|more| - 1]);
    }
  }

  lemma MergeIntoAssociative(a: ConfigData, b: ConfigData, c: ConfigData)
    ensures MergeInto(MergeInto(a, b), c) == MergeInto(a, MergeInto(b, c))
  {
    AppendNewAssociative(a.jobs, b.jobs, c.jobs);
    FirstMapAssociative(a.globals, b.globals, c.globals);
    FirstMapAssociative(a.registries, b.registries, c.registries);
  }

  lemma FirstMapAssociative<V>(a: Option<map<string, V>>, b: Option<map<string, V>>, c: Option<map<string, V>>)
    ensures FirstMap(FirstMap(a, b), c) == FirstMap(a, FirstMap(b, c))
  {
    if b.Some? && c.Some? {
      var x := if a.Some? then a.value else map[];
      assert c.value + (b.value + x) == (c.value + b.value) + x;
    } else if c.Some? {
      var none: map<string, V> := map[];
      assert c.value + none == c.value;
    }
  }

  lemma {:induction false} FirstWinsAppend(xs: seq<ConfigData>, ys: seq<ConfigData>)
    ensures FirstWins(xs + ys) == MergeInto(FirstWins(xs), FirstWins(ys))
  {
    if ys == [] {
      assert xs + ys == xs;
      MergeEmpty(FirstWins(xs));
    } else {
      var front := ys[..|ys| - 1];
      FirstWinsAppend(xs, front);
      AppendFrontLast(xs, ys);
      FirstWinsSnoc(xs + front, Last(ys));
      MergeIntoAssociative(FirstWins(xs), FirstWins(front), Last(ys));
    }
  }

  lemma FirstWinsSnoc(files: seq<ConfigData>, file: ConfigData)
    ensures FirstWins(files + [file]) == MergeInto(FirstWins(files), file)
  {
    assert (files + [file])[..|files|] == files;
  }

  lemma MergeEmpty(a: ConfigData)
    ensures MergeInto(a, EmptyConfig) == a
    ensures UniqueNames(a.jobs) ==> MergeInto(EmptyConfig, a) == a.(includes := [])
    ensures forall b :: MergeInto(b, a.(includes := [])) == MergeInto(b, a)
  {
    if UniqueNames(a.jobs) {
      AppendNewToNone(a.jobs);
      var noGlobals: Variables, noRegistries: Registries := map[], map[];
      assert a.globals.Some? ==> a.globals.value + noGlobals == a.globals.value;
      assert a.registries.Some? ==> a.registries.value + noRegistries == a.registries.value;
    }
  }

  ghost predicate UniquePerFile(fs: Files) {
    forall p :: p in fs.byPath ==> UniqueNames(fs.byPath[p].jobs)
  }

  /** A loaded configuration is its precedence order merged first-wins. */
  lemma {:induction false} LoadIsFirstWins(fs: Files, path: string, main: bool, inProgress: set<string>)
    requires UniquePerFile(fs) && Load(fs, path, main, inProgress).Ok?
    ensures Load(fs, path, main, inProgress).value == FirstWins(Precedence(fs, path, inProgress))
    decreases fs.byPath.Keys - inProgress
  {
    var data, chain, children := fs.byPath[path], inProgress + {path}, Included(fs, path);
    var rs := LoadIncluded(fs, path, chain);
    MergeAllOk(data, rs);
    forall i | 0 <= i < |rs| ensures rs[i].value == FirstWins(Precedence(fs, children[i], chain)) {
      assert rs[i] == Load(fs, children[i], false, chain);
      LoadIsFirstWins(fs, children[i], false, chain);
    }
    MergeAllIsFirstWins(fs, data, rs, children, chain);
    var rest := PrecedenceAll(fs, children, chain);
    FirstWinsAppend([data], rest);
    MergeEmpty(data);
    assert [data][..0] == [];
    assert FirstWins([data]) == data.(includes := []);
  }

  lemma {:induction false} MergeAllOk(first: ConfigData, rs: seq<Result<ConfigData, LoadError>>)
    requires MergeAll(first, rs).Ok?
    ensures forall i :: 0 <= i < |rs| ==> rs[i].Ok?
  {
    if rs != [] {
      MergeAllOk(first, rs[..|rs| - 1]);
      assert rs == rs[..|rs| - 1] + [Last(rs)];
    }
  }

  lemma {:induction false} MergeAllIsFirstWins(fs: Files, first: ConfigData, rs: seq<Result<ConfigData, LoadError>>,
                                               paths: seq<string>, chain: set<string>)
    requires |rs| == |paths| && MergeAll(first, rs).Ok?
    requires forall i :: 0 <= i < |rs| ==> rs[i].Ok? && rs[i].value == FirstWins(Precedence(fs, paths[i], chain))
    ensures MergeAll(first, rs).value == MergeInto(first, FirstWins(PrecedenceAll(fs, paths, chain)))
  {
    if rs == [] {
      MergeEmpty(first);
    } else {
      var n := |rs| - 1;
      MergeAllIsFirstWins(fs, first, rs[..n], paths[..n], chain);
      var before, last := PrecedenceAll(fs, paths[..n], chain), Precedence(fs, paths[n], chain);
      FirstWinsAppend(before, last);
      MergeIntoAssociative(first, FirstWins(before), FirstWins(last));
    }
  }

  /** On a loadable root, the order of an include does not depend on how it was reached. */
  lemma {:induction false} PrecedenceChain(fs: Files, g: Digraph, path: string, chain: set<string>, chain': set<string>)
    requires forall p :: p in g ==> p in fs.byPath && g[p] == Included(fs, p)
    requires Visit(g, path, chain).Fine? && Visit(g, path, chain').Fine?
    ensures Precedence(fs, path, chain) == Precedence(fs, path, chain')
    decreases g.Keys - chain, 0
  {
    PrecedenceAllChain(fs, g, g[path], chain + {path}, chain' + {path});
  }

  lemma {:induction false} PrecedenceAllChain(fs: Files, g: Digraph, paths: seq<string>, chain: set<string>,
                                              chain': set<string>)
    requires forall p :: p in g ==> p in fs.byPath && g[p] == Included(fs, p)
    requires VisitAll(g, paths, chain).Fine? && VisitAll(g, paths, chain').Fine?
    ensures PrecedenceAll(fs, paths, chain) == PrecedenceAll(fs, paths, chain')
    decreases g.Keys - chain, |paths| + 1
  {
    if paths != [] {
      PrecedenceAllChain(fs, g, paths[..|paths| - 1], chain, chain');
      PrecedenceChain(fs, g, Last(paths), chain, chain');
    }
  }

  /** P(f) = f, P(last include), ..., P(first include), each reckoned on its own. */
  lemma PrecedenceUnfolds(fs: Files, root: string)
    requires Load(fs, root, true, {}).Ok?
    ensures var includes := fs.byPath[root].includes;
            Precedence(fs, root, {}) == [fs.byPath[root]] + Concat(seq(|includes|, i requires 0 <= i < |includes| =>
              Precedence(fs, fs.resolve(includes[|includes| - 1 - i], root), {})))
  {
    var includes := fs.byPath[root].includes;
    OrdersJoined(fs, Included(fs, root), seq(|includes|, i requires 0 <= i < |includes| =>
      Precedence(fs, fs.resolve(includes[|includes| - 1 - i], root), {})));
    var g := IncludeGraph(fs, root);
    LoadMatchesVisit(fs, root, root, {});
    assert {} + {root} == {root};
    VisitAllShrinks(g, g[root], {root}, {});
    PrecedenceAllChain(fs, g, g[root], {root}, {});
  }

  lemma {:induction false} OrdersJoined(fs: Files, paths: seq<string>, orders: seq<seq<ConfigData>>)
    requires |orders| == |paths| && forall i :: 0 <= i < |paths| ==> orders[i] == Precedence(fs, paths[i], {})
    ensures PrecedenceAll(fs, paths, {}) == Concat(orders)
  {
    if paths != [] {
      OrdersJoined(fs, paths[..|paths| - 1], orders[..|orders| - 1]);
    }
  }

  // ---- First wins, field by field --------------------------------------------------

  ghost function FirstSet<T>(none: T, files: seq<ConfigData>, field: ConfigData -> T, isSet: T -> bool): T {
    if files == [] then none
    else
      var first := FirstSet(none, files[..|files| - 1], field, isSet);
      if isSet(first) then first else field(Last(files))
  }

  /** Which file that is, by position. */
  lemma {:induction false} FirstSetAt<T>(none: T, files: seq<ConfigData>, field: ConfigData -> T, isSet: T -> bool,
                                         i: nat)
    requires !isSet(none) && i < |files| && isSet(field(files[i]))
    requires forall k :: 0 <= k < i ==> !isSet(field(files[k]))
    ensures FirstSet(none, files, field, isSet) == field(files[i])
  {
    var n := |files| - 1;
    if i < n {
      FirstSetAt(none, files[..n], field, isSet, i);
    } else {
      FirstSetNowhere(none, files[..n], field, isSet);
    }
  }

  lemma {:induction false} FirstSetNowhere<T>(none: T, files: seq<ConfigData>, field: ConfigData -> T, isSet: T -> bool)
    requires !isSet(none) && forall k :: 0 <= k < |files| ==> !isSet(field(files[k]))
    ensures !isSet(FirstSet(none, files, field, isSet))
  {
    if files != [] {
      FirstSetNowhere(none, files[..|files| - 1], field, isSet);
    }
  }

  lemma {:induction false} FirstWinsField<T>(none: T, files: seq<ConfigData>, field: ConfigData -> T, isSet: T -> bool)
    requires field(EmptyConfig) == none
    requires forall a, b :: field(MergeInto(a, b)) == if isSet(field(a)) then field(a) else field(b)
    ensures field(FirstWins(files)) == FirstSet(none, files, field, isSet)
  {
    if files != [] {
      FirstWinsField(none, files[..|files| - 1], field, isSet);
    }
  }

  function JobNamed(jobs: seq<JobConfig>, name: string): Option<JobConfig> {
    if jobs == [] then None else if jobs[0].name == name then Some(jobs[0]) else JobNamed(jobs[1..], name)
  }

  lemma {:induction false} JobNamedAppend(a: seq<JobConfig>, b: seq<JobConfig>, name: string)
    ensures JobNamed(a + b, name) == if JobNamed(a, name).Some? then JobNamed(a, name) else JobNamed(b, name)
    ensures JobNamed(a, name).Some? <==> name in Names(a)
  {
    if a == [] {
      assert a + b == b;
    } else {
      assert (a + b)[0] == a[0] && (a + b)[1..] == a[1..] + b;
      JobNamedAppend(a[1..], b, name);
      assert Names(a) == [a[0].name] + Names(a[1..]);
    }
  }

  lemma {:induction false} JobNamedMerge(a: seq<JobConfig>, b: seq<JobConfig>, name: string)
    ensures JobNamed(AppendNew(a, b), name) == if JobNamed(a, name).Some? then JobNamed(a, name) else JobNamed(b, name)
  {
    if b != [] {
      var front, last := b[..|b| - 1], Last(b);
      JobNamedMerge(a, front, name);
      JobNamedAppend(AppendNew(a, front), [last], name);
      JobNamedAppend(front, [last], name);
      JobNamedAppend(a, [], name);
      FrontLast(b);
      AppendNewNames(a, front);
      assert JobNamed([last], name) == if last.name == name then Some(last) else None;
    }
  }

  /** Each job comes from the first file in the order that has one of that name. */
  lemma {:induction false} FirstWinsJobs(files: seq<ConfigData>, name: string)
    ensures JobNamed(FirstWins(files).jobs, name) ==
              FirstSet(None, files, (f: ConfigData) => JobNamed(f.jobs, name), (x: Option<JobConfig>) => x.Some?)
  {
    forall a: ConfigData, b: ConfigData
      ensures JobNamed(MergeInto(a, b).jobs, name) ==
                if JobNamed(a.jobs, name).Some? then JobNamed(a.jobs, name) else JobNamed(b.jobs, name)
    {
      JobNamedMerge(a.jobs, b.jobs, name);
    }
    FirstWinsField(None, files, (f: ConfigData) => JobNamed(f.jobs, name), (x: Option<JobConfig>) => x.Some?);
  }

  /** Each variable and each registry host comes from the first file in the order that defines it. */
  lemma {:induction false} FirstWinsKeys(files: seq<ConfigData>, k: string)
    ensures Lookup(FirstWins(files).globals, k) ==
              FirstSet(None, files, (f: ConfigData) => Lookup(f.globals, k), (x: Option<string>) => x.Some?)
    ensures Lookup(FirstWins(files).registries, k) ==
              FirstSet(None, files, (f: ConfigData) => Lookup(f.registries, k), (x: Option<Credentials>) => x.Some?)
  {
    FirstWinsField(None, files, (f: ConfigData) => Lookup(f.globals, k), (x: Option<string>) => x.Some?);
    FirstWinsField(None, files, (f: ConfigData) => Lookup(f.registries, k), (x: Option<Credentials>) => x.Some?);
  }

  /** Stages, provider, bootstrap and cleanup come whole from the first file that sets them; job names stay unique. */
  lemma {:induction false} FirstWinsFields(files: seq<ConfigData>)
    ensures UniqueNames(FirstWins(files).jobs)
    ensures FirstWins(files).stages == FirstSet([], files, (f: ConfigData) => f.stages, (x: seq<string>) => x != [])
    ensures FirstWins(files).provider == FirstSet(None, files, (f: ConfigData) => f.provider,
                                                  (x: Option<Provider>) => x.Some?)
    ensures FirstWins(files).bootstrap == FirstSet(None, files, (f: ConfigData) => f.bootstrap,
                                                   (x: Option<Hook>) => x.Some?)
    ensures FirstWins(files).cleanup == FirstSet(None, files, (f: ConfigData) => f.cleanup,
                                                 (x: Option<Hook>) => x.Some?)
  {
    FirstWinsUnique(files);
    FirstWinsField([], files, (f: ConfigData) => f.stages, (x: seq<string>) => x != []);
    FirstWinsField(None, files, (f: ConfigData) => f.provider, (x: Option<Provider>) => x.Some?);
    FirstWinsField(None, files, (f: ConfigData) => f.bootstrap, (x: Option<Hook>) => x.Some?);
    FirstWinsField(None, files, (f: ConfigData) => f.cleanup, (x: Option<Hook>) => x.Some?);
  }

  lemma {:induction false} FirstWinsUnique(files: seq<ConfigData>)
    ensures UniqueNames(FirstWins(files).jobs)
  {
    if files != [] {
      FirstWinsUnique(files[..|files| - 1]);
      AppendNewNames(FirstWins(files[..|files| - 1]).jobs, Last(files).jobs);
    }
  }
}
