/** The plugin manager: a registry of containers keyed by plugin type name,
    with lookup, refresh and error aggregation across types. */
module PluginManager {
  import opened Plugins
  import PluginContainer

  /** Failures the manager signals to its caller (raised as `AssertionError` by
      `yantra/manager.py`). */
  datatype Error = DuplicateType(name: string) | UnknownType(name: string)

  datatype Result<T> = Ok(value: T) | Err(error: Error)

  datatype Manager = Manager(containers: map<string, PluginContainer.Container>)

  /** The manager after an operation, whether or not the operation failed,
      and the operation's result. */
  datatype Step<T> = Step(manager: Manager, result: Result<T>)

  /** What the filesystem and the module loader yield for a directory at the
      moment of a call: the discovered modules and their load outcomes. */
  type Discovery = string -> seq<ModuleEntry>

  /** Each container sits under the name of its own plugin type and keeps its
      instances apart by serial. */
  predicate Valid(m: Manager)
  {
    forall n :: n in m.containers ==>
      m.containers[n].pluginType.name == n && PluginContainer.Valid(m.containers[n])
  }

  /** True when no two types in `types` share a name. */
  predicate DistinctNames(types: seq<PluginType>)
  {
    forall i, j :: 0 <= i < j < |types| ==> types[i].name != types[j].name
  }

  /** The names of `types`. */
  function Names(types: seq<PluginType>): set<string>
  {
    set i | 0 <= i < |types| :: types[i].name
  }

  // ---------------------------------------------------------------------
  // Registration
  // ---------------------------------------------------------------------

  /** `register_plugin_type`: add a fresh container under the type's name,
      refusing a name that is taken. */
  function RegisterPluginType(m: Manager, t: PluginType): (r: Step<()>)
    ensures r.result.Err? <==> t.name in m.containers
    ensures r.result.Err? ==> r.result.error == DuplicateType(t.name) && r.manager == m
    ensures r.result.Ok? ==>
      && r.manager.containers.Keys == m.containers.Keys + {t.name}
      && r.manager.containers[t.name] == PluginContainer.New(t)
      && (forall n :: n in m.containers ==> r.manager.containers[n] == m.containers[n])
    ensures Valid(m) ==> Valid(r.manager)
  {
    if t.name in m.containers then Step(m, Err(DuplicateType(t.name)))
    else Step(Manager(m.containers[t.name := PluginContainer.New(t)]), Ok(()))
  }

  /** The constructor's loop: register each type in turn, stopping at the
      first failure. */
  function RegisterAll(m: Manager, types: seq<PluginType>): Result<Manager>
    decreases |types|
  {
    if types == [] then Ok(m)
    else
      var s := RegisterPluginType(m, types[0]);
      if s.result.Err? then Err(s.result.error)
      else RegisterAll(s.manager, types[1..])
  }

  /** The constructor: a manager holding one fresh container per initial
      type, or a duplicate-name failure. An absent list is the empty one. */
  function New(types: seq<PluginType>): (r: Result<Manager>)
    ensures r.Ok? <==> DistinctNames(types)
    ensures r.Ok? ==>
      && Valid(r.value)
      && r.value.containers.Keys == Names(types)
      && (forall i :: 0 <= i < |types| ==> r.value.containers[types[i].name] == PluginContainer.New(types[i]))
    ensures r.Err? ==> r.error.DuplicateType? && r.error.name in Names(types)
  {
    var empty := Manager(map[]);
    RegisterAllSucceeds(empty, types);
    RegisterAllKeys(empty, types);
    RegisterAllKeeps(empty, types);
    RegisterAllFresh(empty, types);
    RegisterAllFailure(empty, types);
    RegisterAll(empty, types)
  }

  lemma NamesCons(types: seq<PluginType>)
    requires types != []
    ensures Names(types) == {types[0].name} + Names(types[1..])
  {
    var rest := types[1..];
    forall n | n in Names(types) ensures n in {types[0].name} + Names(rest) {
      var i :| 0 <= i < |types| && types[i].name == n;
      if i > 0 { assert rest[i - 1].name == n; }
    }
    forall n | n in Names(rest) ensures n in Names(types) {
      var i :| 0 <= i < |rest| && rest[i].name == n;
      assert types[i + 1].name == n;
    }
  }

  lemma DistinctNamesCons(types: seq<PluginType>)
    requires types != []
    ensures DistinctNames(types) <==> DistinctNames(types[1..]) && types[0].name !in Names(types[1..])
  {
    var rest := types[1..];
    if DistinctNames(types) {
      forall i, j | 0 <= i < j < |rest| ensures rest[i].name != rest[j].name {
        assert rest[i] == types[i + 1] && rest[j] == types[j + 1];
      }
      forall i | 0 <= i < |rest| ensures rest[i].name != types[0].name {
        assert rest[i] == types[i + 1];
      }
    }
    if DistinctNames(rest) && types[0].name !in Names(rest) {
      forall i, j | 0 <= i < j < |types| ensures types[i].name != types[j].name {
        assert types[j] == rest[j - 1];
        if i > 0 {
          assert types[i] == rest[i - 1];
        }
      }
    }
  }

  /** Registering a list succeeds exactly when its names are distinct and
      none is registered already. */
  lemma {:induction false} RegisterAllSucceeds(m: Manager, types: seq<PluginType>)
    ensures RegisterAll(m, types).Ok? <==> DistinctNames(types) && Names(types) !! m.containers.Keys
    decreases |types|
  {
    if types != [] {
      NamesCons(types);
      DistinctNamesCons(types);
      var s := RegisterPluginType(m, types[0]);
      if s.result.Ok? {
        RegisterAllSucceeds(s.manager, types[1..]);
      }
    }
  }

  /** A successful registration of a list adds exactly the listed names. */
  lemma {:induction false} RegisterAllKeys(m: Manager, types: seq<PluginType>)
    ensures RegisterAll(m, types).Ok? ==>
      RegisterAll(m, types).value.containers.Keys == m.containers.Keys + Names(types)
    decreases |types|
  {
    if types != [] && RegisterAll(m, types).Ok? {
      NamesCons(types);
      RegisterAllKeys(RegisterPluginType(m, types[0]).manager, types[1..]);
    }
  }

  /** A successful registration of a list keeps every container already
      present, and keeps the manager valid. */
  lemma {:induction false} RegisterAllKeeps(m: Manager, types: seq<PluginType>)
    ensures RegisterAll(m, types).Ok? ==>
      && (forall n :: n in m.containers ==>
            n in RegisterAll(m, types).value.containers && RegisterAll(m, types).value.containers[n] == m.containers[n])
      && (Valid(m) ==> Valid(RegisterAll(m, types).value))
    decreases |types|
  {
    if types != [] && RegisterAll(m, types).Ok? {
      RegisterAllKeeps(RegisterPluginType(m, types[0]).manager, types[1..]);
    }
  }

  /** A successful registration of a list holds a fresh container for each
      listed type. */
  lemma {:induction false} RegisterAllFresh(m: Manager, types: seq<PluginType>)
    ensures RegisterAll(m, types).Ok? ==>
      forall i :: 0 <= i < |types| ==>
        && types[i].name in RegisterAll(m, types).value.containers
        && RegisterAll(m, types).value.containers[types[i].name] == PluginContainer.New(types[i])
    decreases |types|
  {
    if types != [] && RegisterAll(m, types).Ok? {
      NamesCons(types);
      var s := RegisterPluginType(m, types[0]);
      var rest := types[1..];
      RegisterAllKeeps(s.manager, rest);
      RegisterAllFresh(s.manager, rest);
      var r := RegisterAll(s.manager, rest).value;
      forall i | 0 <= i < |types|
        ensures types[i].name in r.containers && r.containers[types[i].name] == PluginContainer.New(types[i])
      {
        if i > 0 { assert rest[i - 1] == types[i]; }
      }
    }
  }

  /** A failed registration of a list names one of the listed types. */
  lemma {:induction false} RegisterAllFailure(m: Manager, types: seq<PluginType>)
    ensures RegisterAll(m, types).Err? ==>
      RegisterAll(m, types).error.DuplicateType? && RegisterAll(m, types).error.name in Names(types)
    decreases |types|
  {
    if types != [] {
      var s := RegisterPluginType(m, types[0]);
      var rest := types[1..];
      NamesCons(types);
      if s.result.Ok? {
        RegisterAllFailure(s.manager, rest);
      }
    }
  }

  // ---------------------------------------------------------------------
  // Lookup and refresh
  // ---------------------------------------------------------------------

  /** `_get_container`: the container registered under the type's name; only
      the name of the argument is consulted. */
  function GetContainer(m: Manager, t: PluginType): (r: Result<PluginContainer.Container>)
    ensures r.Ok? <==> t.name in m.containers
    ensures r.Ok? ==> r.value == m.containers[t.name]
    ensures r.Err? ==> r.error == UnknownType(t.name)
  {
    if t.name in m.containers then Ok(m.containers[t.name]) else Err(UnknownType(t.name))
  }

  /** `get_plugins`: refresh the registered container from its own directory
      and return its instances. */
  function GetPlugins(m: Manager, t: PluginType, discover: Discovery): (r: Step<seq<Plugin>>)
    ensures r.result.Err? <==> t.name !in m.containers
    ensures r.result.Err? ==> r.result.error == UnknownType(t.name) && r.manager == m
    ensures r.result.Ok? ==>
      var c := m.containers[t.name];
      var modules := discover(c.pluginType.path);
      && r.manager.containers.Keys == m.containers.Keys
      && (forall n :: n in m.containers && n != t.name ==> r.manager.containers[n] == m.containers[n])
      && r.result.value == r.manager.containers[t.name].plugins
      && r.manager.containers[t.name].pluginType == c.pluginType
      && (|modules| == |c.plugins| ==> r.manager == m)
      && (|modules| != |c.plugins| ==>
            && PluginContainer.ClassesOf(r.result.value) == PluginContainer.Qualifying(c.pluginType.base, modules)
            && r.manager.containers[t.name].errors == c.errors + PluginContainer.FailureMap(modules))
    ensures Valid(m) ==> Valid(r.manager)
  {
    match GetContainer(m, t)
    case Err(e) => Step(m, Err(e))
    case Ok(c) =>
      var f := PluginContainer.GetPlugins(c, discover(c.pluginType.path));
      Step(Manager(m.containers[t.name := f.container]), Ok(f.plugins))
  }

  /** `has_plugins`: whether `get_plugins` returns anything, with the same
      refresh as its side effect. */
  function HasPlugins(m: Manager, t: PluginType, discover: Discovery): (r: Step<bool>)
    ensures r.manager == GetPlugins(m, t, discover).manager
    ensures r.result.Ok? <==> GetPlugins(m, t, discover).result.Ok?
    ensures r.result.Ok? ==> (r.result.value <==> GetPlugins(m, t, discover).result.value != [])
    ensures r.result.Err? ==> r.result.error == UnknownType(t.name)
  {
    var s := GetPlugins(m, t, discover);
    match s.result
    case Err(e) => Step(s.manager, Err(e))
    case Ok(plugins) => Step(s.manager, Ok(|plugins| > 0))
  }

  // ---------------------------------------------------------------------
  // Errors across types
  // ---------------------------------------------------------------------

  /** Later maps win: the right-biased union of `maps` in order. */
  function Merge(maps: seq<map<string, string>>): map<string, string>
  {
    if maps == [] then map[] else maps[0] + Merge(maps[1..])
  }

  /** `loc` is where a module failed to load in the directory of the
      container registered under `name`. */
  ghost predicate FailedUnder(m: Manager, name: string, discover: Discovery, loc: string)
  {
    && name in m.containers
    && exists k :: 0 <= k < |discover(m.containers[name].pluginType.path)| &&
         FailedAt(discover(m.containers[name].pluginType.path)[k], loc)
  }

  /** One read of the `errors` property of the container registered under
      `name`: the manager with that container refreshed, and the map read. */
  function ReadErrors(m: Manager, name: string, discover: Discovery): (r: Step<map<string, string>>)
    requires name in m.containers
    ensures r.result.Ok?
    ensures r.manager.containers.Keys == m.containers.Keys
    ensures r.result.value == r.manager.containers[name].errors
    ensures
      var c := m.containers[name];
      var modules := discover(c.pluginType.path);
      && (|modules| == |c.plugins| ==> r.result.value == map[] && r.manager.containers[name].plugins == c.plugins)
      && (|modules| != |c.plugins| ==>
            && r.result.value == PluginContainer.FailureMap(modules)
            && PluginContainer.ClassesOf(r.manager.containers[name].plugins) == PluginContainer.Qualifying(c.pluginType.base, modules))
    ensures forall n :: n in m.containers ==> r.manager.containers[n].pluginType == m.containers[n].pluginType
    ensures forall n :: n in m.containers && n != name ==> r.manager.containers[n] == m.containers[n]
    ensures forall loc :: loc in r.result.value ==> FailedUnder(m, name, discover, loc)
    ensures Valid(m) ==> Valid(r.manager)
  {
    var c := m.containers[name];
    var modules := discover(c.pluginType.path);
    var read := PluginContainer.Errors(c, modules);
    ReadFailed(modules, read.errors);
    ValidAfterRefresh(m, name, read.container);
    Step(Manager(m.containers[name := read.container]), Ok(read.errors))
  }

  /** A map no bigger than the failure map of `modules` holds only locations
      of failed modules. */
  lemma ReadFailed(modules: seq<ModuleEntry>, errors: map<string, string>)
    requires errors == map[] || errors == PluginContainer.FailureMap(modules)
    ensures forall loc :: loc in errors ==> exists k :: 0 <= k < |modules| && FailedAt(modules[k], loc)
  {
    forall loc | loc in errors
      ensures exists k :: 0 <= k < |modules| && FailedAt(modules[k], loc)
    {
      PluginContainer.FailureMapKeys(modules, loc);
    }
  }

  /** Replacing a container by a refreshed copy of itself keeps the manager
      valid. */
  lemma ValidAfterRefresh(m: Manager, name: string, c: PluginContainer.Container)
    requires name in m.containers && c.pluginType == m.containers[name].pluginType
    requires PluginContainer.Valid(m.containers[name]) ==> PluginContainer.Valid(c)
    ensures Valid(m) ==> Valid(Manager(m.containers[name := c]))
  {
  }

  /** The error maps read from the containers of `types`, one after another,
      each read refreshing its container; fails at the first unknown name,
      keeping the refreshes already done. */
  function ErrorReads(m: Manager, types: seq<PluginType>, discover: Discovery): (r: Step<seq<map<string, string>>>)
    ensures r.manager.containers.Keys == m.containers.Keys
    ensures forall n :: n in m.containers ==> r.manager.containers[n].pluginType == m.containers[n].pluginType
    ensures r.result.Err? <==> !(Names(types) <= m.containers.Keys)
    ensures r.result.Err? ==>
      r.result.error.UnknownType? && r.result.error.name in Names(types) && r.result.error.name !in m.containers
    ensures r.result.Ok? ==> |r.result.value| == |types|
    ensures Valid(m) ==> Valid(r.manager)
    decreases |types|
  {
    if types == [] then Step(m, Ok([]))
    else if types[0].name !in m.containers then Step(m, Err(UnknownType(types[0].name)))
    else
      var read := ReadErrors(m, types[0].name, discover);
      var rest := ErrorReads(read.manager, types[1..], discover);
      NamesCons(types);
      match rest.result
      case Err(e) => Step(rest.manager, Err(e))
      case Ok(maps) => Step(rest.manager, Ok([read.result.value] + maps))
  }

  /** Every location a read reports is where a module failed to load in the
      directory of the type read. */
  lemma {:induction false} ErrorReadsFailed(m: Manager, types: seq<PluginType>, discover: Discovery)
    ensures ErrorReads(m, types, discover).result.Ok? ==>
      forall i, loc :: 0 <= i < |types| && loc in ErrorReads(m, types, discover).result.value[i] ==>
        FailedUnder(m, types[i].name, discover, loc)
  {
    if ErrorReads(m, types, discover).result.Ok? {
      forall i, loc | 0 <= i < |types| && loc in ErrorReads(m, types, discover).result.value[i]
        ensures FailedUnder(m, types[i].name, discover, loc)
      {
        ErrorReadFailed(m, types, discover, i, loc);
      }
    }
  }

  /** The `i`-th read reports only locations where a module failed to load in
      the directory of the `i`-th type. */
  lemma {:induction false} ErrorReadFailed(m: Manager, types: seq<PluginType>, discover: Discovery, i: nat, loc: string)
    ensures ErrorReads(m, types, discover).result.Ok? && i < |types| && loc in ErrorReads(m, types, discover).result.value[i] ==>
      FailedUnder(m, types[i].name, discover, loc)
    decreases i
  {
    var r := ErrorReads(m, types, discover);
    if r.result.Ok? && i < |types| && loc in r.result.value[i] && i > 0 {
      var read := ReadErrors(m, types[0].name, discover);
      var rest := ErrorReads(read.manager, types[1..], discover).result.value;
      assert r.result.value == [read.result.value] + rest;
      ConsIndex(read.result.value, rest, i);
      ErrorReadFailed(read.manager, types[1..], discover, i - 1, loc);
      TailIndex(types, i);
      FailedUnderKept(m, read.manager, types[i].name, discover, loc);
    }
  }

  lemma ConsIndex<T>(x: T, s: seq<T>, i: int)
    requires 0 < i <= |s|
    ensures ([x] + s)[i] == s[i - 1]
  {
  }

  lemma TailIndex<T>(s: seq<T>, i: int)
    requires 0 < i < |s|
    ensures s[1..][i - 1] == s[i]
  {
  }

  /** Where a module failed depends only on the container's plugin type. */
  lemma FailedUnderKept(m: Manager, m': Manager, name: string, discover: Discovery, loc: string)
    requires name in m.containers && name in m'.containers
    requires m'.containers[name].pluginType == m.containers[name].pluginType
    requires FailedUnder(m', name, discover, loc)
    ensures FailedUnder(m, name, discover, loc)
  {
  }

  /** The loop of `get_errors`: fold each read into the accumulated map. */
  function CollectErrors(m: Manager, types: seq<PluginType>, discover: Discovery, acc: map<string, string>): Step<map<string, string>>
    decreases |types|
  {
    if types == [] then Step(m, Ok(acc))
    else if types[0].name !in m.containers then Step(m, Err(UnknownType(types[0].name)))
    else
      var read := ReadErrors(m, types[0].name, discover);
      CollectErrors(read.manager, types[1..], discover, acc + read.result.value)
  }

  /** `get_errors`: read each type's errors in argument order and merge them,
      later types overriding earlier ones at a shared location. */
  function GetErrors(m: Manager, types: seq<PluginType>, discover: Discovery): (r: Step<map<string, string>>)
    ensures r.manager == ErrorReads(m, types, discover).manager
    ensures r.result.Err? <==> !(Names(types) <= m.containers.Keys)
    ensures r.result.Err? ==>
      r.result.error.UnknownType? && r.result.error.name in Names(types) && r.result.error.name !in m.containers
    ensures r.result.Ok? ==> r.result.value == Merge(ErrorReads(m, types, discover).result.value)
    ensures r.result.Ok? ==> forall loc :: loc in r.result.value ==>
      exists t :: t in types && FailedUnder(m, t.name, discover, loc)
    ensures Valid(m) ==> Valid(r.manager)
  {
    CollectErrorsMerges(m, types, discover, map[]);
    MergedErrorsFailed(m, types, discover);
    MergeFromEmpty(ErrorReads(m, types, discover).result);
    CollectErrors(m, types, discover, map[])
  }

  lemma MergeFromEmpty(outcome: Result<seq<map<string, string>>>)
    ensures outcome.Ok? ==> map[] + Merge(outcome.value) == Merge(outcome.value)
  {
  }

  /** Every location in the merged errors is where a module failed to load in
      the directory of one of the listed types. */
  lemma {:induction false} MergedErrorsFailed(m: Manager, types: seq<PluginType>, discover: Discovery)
    ensures ErrorReads(m, types, discover).result.Ok? ==>
      forall loc :: loc in Merge(ErrorReads(m, types, discover).result.value) ==>
        exists t :: t in types && FailedUnder(m, t.name, discover, loc)
  {
    var collected := ErrorReads(m, types, discover);
    if collected.result.Ok? {
      ErrorReadsFailed(m, types, discover);
      forall loc | loc in Merge(collected.result.value)
        ensures exists t :: t in types && FailedUnder(m, t.name, discover, loc)
      {
        MergeKeys(collected.result.value, loc);
        var i :| 0 <= i < |collected.result.value| && loc in collected.result.value[i];
        assert types[i] in types && FailedUnder(m, types[i].name, discover, loc);
      }
    }
  }

  /** The accumulating loop computes the merge of the individual reads. */
  lemma {:induction false} CollectErrorsMerges(m: Manager, types: seq<PluginType>, discover: Discovery, acc: map<string, string>)
    ensures CollectErrors(m, types, discover, acc).manager == ErrorReads(m, types, discover).manager
    ensures CollectErrors(m, types, discover, acc).result.Err? <==> ErrorReads(m, types, discover).result.Err?
    ensures CollectErrors(m, types, discover, acc).result.Err? ==>
      CollectErrors(m, types, discover, acc).result.error == ErrorReads(m, types, discover).result.error
    ensures CollectErrors(m, types, discover, acc).result.Ok? ==>
      CollectErrors(m, types, discover, acc).result.value == acc + Merge(ErrorReads(m, types, discover).result.value)
    decreases |types|
  {
    if types == [] {
      assert acc + map[] == acc;
    } else if types[0].name in m.containers {
      var read := ReadErrors(m, types[0].name, discover);
      CollectErrorsMerges(read.manager, types[1..], discover, acc + read.result.value);
      var rest := ErrorReads(read.manager, types[1..], discover);
      if rest.result.Ok? {
        assert Merge([read.result.value] + rest.result.value) == read.result.value + Merge(rest.result.value) by {
          assert ([read.result.value] + rest.result.value)[1..] == rest.result.value;
        }
        PluginContainer.MapUnionAssoc(acc, read.result.value, Merge(rest.result.value));
      }
    }
  }

  /** A key is in the merge exactly when some map has it. */
  lemma {:induction false} MergeKeys(maps: seq<map<string, string>>, k: string)
    ensures k in Merge(maps) <==> exists i :: 0 <= i < |maps| && k in maps[i]
    decreases |maps|
  {
    if maps != [] {
      MergeKeys(maps[1..], k);
      if k in Merge(maps[1..]) {
        var i :| 0 <= i < |maps[1..]| && k in maps[1..][i];
        assert maps[i + 1] == maps[1..][i];
      }
      if exists i :: 0 <= i < |maps| && k in maps[i] {
        var i :| 0 <= i < |maps| && k in maps[i];
        if i > 0 { assert maps[1..][i - 1] == maps[i]; }
      }
    }
  }

  /** In the merge, a key takes its value from the last map that has it. */
  lemma {:induction false} MergeLaterWins(maps: seq<map<string, string>>, i: nat, k: string)
    requires i < |maps| && k in maps[i]
    requires forall j :: i < j < |maps| ==> k !in maps[j]
    ensures k in Merge(maps) && Merge(maps)[k] == maps[i][k]
    decreases |maps|
  {
    if i == 0 {
      forall j | 0 <= j < |maps[1..]|
        ensures k !in maps[1..][j]
      {
        assert maps[1..][j] == maps[j + 1];
      }
      MergeKeys(maps[1..], k);
    } else {
      forall j | i - 1 < j < |maps[1..]|
        ensures k !in maps[1..][j]
      {
        assert maps[1..][j] == maps[j + 1];
      }
      MergeLaterWins(maps[1..], i - 1, k);
    }
  }
}
