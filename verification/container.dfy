/** The plugin container of one plugin type: a cached list of instances and
    a map of load failures, refreshed from the modules discovered under the
    type's directory. */
module PluginContainer {
  import opened Plugins

  /** Container state. `nextSerial` is the serial the next instantiation
      receives. */
  datatype Container = Container(
    pluginType: PluginType,
    plugins: seq<Plugin>,
    errors: map<string, string>,
    nextSerial: nat)

  /** The container after a call to `get_plugins`, and the list it returned. */
  datatype Fetched = Fetched(container: Container, plugins: seq<Plugin>)

  /** The container after reading `errors`, and the map it returned. */
  datatype ErrorsRead = ErrorsRead(container: Container, errors: map<string, string>)

  /** Serials strictly increase along the list and were all issued already,
      so no two instances share one and a new one is never confused with an
      old one. */
  predicate Valid(c: Container)
  {
    && (forall i :: 0 <= i < |c.plugins| ==> c.plugins[i].serial < c.nextSerial)
    && (forall i, j :: 0 <= i < j < |c.plugins| ==> c.plugins[i].serial < c.plugins[j].serial)
  }

  /** The classes the instances of `ps` were made from, in list order. */
  function ClassesOf(ps: seq<Plugin>): seq<PluginClass>
  {
    seq(|ps|, i requires 0 <= i < |ps| => ps[i].cls)
  }

  lemma ClassesOfAppend(a: seq<Plugin>, b: seq<Plugin>)
    ensures ClassesOf(a + b) == ClassesOf(a) + ClassesOf(b)
  {
  }

  // ---------------------------------------------------------------------
  // Reference definitions: what a full reload should produce
  // ---------------------------------------------------------------------

  /** The classes of one module that qualify, in the order reflection lists
      them (by attribute name). */
  function QualifyingClasses(base: PluginClass, classes: seq<PluginClass>): seq<PluginClass>
  {
    if classes == [] then []
    else (if Qualifies(base, classes[0]) then [classes[0]] else [])
         + QualifyingClasses(base, classes[1..])
  }

  /** What one module contributes to a reload: its qualifying classes if it
      loaded, nothing if it failed. */
  function ModuleClasses(base: PluginClass, m: ModuleEntry): seq<PluginClass>
  {
    match m.outcome
    case Failed(_, _) => []
    case Loaded(classes) => QualifyingClasses(base, classes)
  }

  /** The error entry one module contributes: one if it failed, none if it
      loaded. */
  function ModuleFailure(m: ModuleEntry): map<string, string>
  {
    match m.outcome
    case Failed(kind, message) => map[m.location := ErrorMessage(kind, message)]
    case Loaded(_) => map[]
  }

  /** The classes a reload instantiates: module by module, and within a module
      in the order reflection lists them (by attribute name); a failed module
      contributes nothing. */
  function Qualifying(base: PluginClass, modules: seq<ModuleEntry>): seq<PluginClass>
  {
    if modules == [] then [] else ModuleClasses(base, modules[0]) + Qualifying(base, modules[1..])
  }

  /** The failures a reload records: one entry per failed module, keyed by
      its location; a later failure at the same location wins. */
  function FailureMap(modules: seq<ModuleEntry>): map<string, string>
  {
    if modules == [] then map[] else ModuleFailure(modules[0]) + FailureMap(modules[1..])
  }

  // ---------------------------------------------------------------------
  // Operations
  // ---------------------------------------------------------------------

  /** A fresh container: no instances, no errors. */
  function New(t: PluginType): (c: Container)
    ensures c.pluginType == t && c.plugins == [] && c.errors == map[]
    ensures Valid(c)
  {
    Container(t, [], map[], 0)
  }

  /** Instantiates `cls` and appends the instance. */
  function RegisterPlugin(c: Container, cls: PluginClass): (r: Container)
    ensures r.pluginType == c.pluginType && r.errors == c.errors
    ensures |r.plugins| == |c.plugins| + 1 && r.plugins[..|c.plugins|] == c.plugins
    ensures r.plugins[|c.plugins|].cls == cls
    ensures c.nextSerial <= r.plugins[|c.plugins|].serial < r.nextSerial
    ensures Valid(c) ==> Valid(r)
    ensures Valid(c) ==> forall p :: p in c.plugins ==> p.serial != r.plugins[|c.plugins|].serial
  {
    c.(plugins := c.plugins + [Plugin(c.nextSerial, cls)], nextSerial := c.nextSerial + 1)
  }

  /** One pass of the inner loop of a reload: skip a class named like the
      base, register it when the base is one of its direct bases. */
  function ConsiderClass(c: Container, cls: PluginClass): Container
  {
    if cls.name == c.pluginType.base.name then c
    else if c.pluginType.base.id in cls.bases then RegisterPlugin(c, cls)
    else c
  }

  /** The inner loop over the classes of one loaded module. */
  function ConsiderClasses(c: Container, classes: seq<PluginClass>): Container
    decreases |classes|
  {
    if classes == [] then c
    else ConsiderClasses(ConsiderClass(c, classes[0]), classes[1..])
  }

  /** One pass of the outer loop: record the failure of a module that did not
      load, or run the inner loop over the classes of one that did. */
  function LoadModule(c: Container, m: ModuleEntry): Container
  {
    match m.outcome
    case Failed(kind, message) => c.(errors := c.errors[m.location := ErrorMessage(kind, message)])
    case Loaded(classes) => ConsiderClasses(c, classes)
  }

  /** The outer loop of a reload over the discovered modules. */
  function LoadModules(c: Container, modules: seq<ModuleEntry>): Container
    decreases |modules|
  {
    if modules == [] then c
    else LoadModules(LoadModule(c, modules[0]), modules[1..])
  }

  /** `get_plugins`: when as many modules are discovered as instances are
      cached, the cache is returned as it is; otherwise the list is emptied
      and rebuilt from the modules, and failures are added to the errors
      already recorded. */
  function GetPlugins(c: Container, modules: seq<ModuleEntry>): (r: Fetched)
    ensures r.plugins == r.container.plugins
    ensures r.container.pluginType == c.pluginType
    ensures |modules| == |c.plugins| ==> r.container == c
    ensures |modules| != |c.plugins| ==>
      && ClassesOf(r.plugins) == Qualifying(c.pluginType.base, modules)
      && r.container.errors == c.errors + FailureMap(modules)
      && (forall p :: p in r.plugins ==> c.nextSerial <= p.serial)
    ensures Valid(c) ==> Valid(r.container)
  {
    if |modules| == |c.plugins| then Fetched(c, c.plugins)
    else
      var emptied := c.(plugins := []);
      LoadModulesSpec(emptied, modules);
      var reloaded := LoadModules(emptied, modules);
      Fetched(reloaded, reloaded.plugins)
  }

  /** The `errors` property: empty the error map, run `get_plugins`, and
      return the error map it left. */
  function Errors(c: Container, modules: seq<ModuleEntry>): (r: ErrorsRead)
    ensures r.errors == r.container.errors
    ensures r.container.pluginType == c.pluginType
    ensures |modules| == |c.plugins| ==> r.errors == map[] && r.container.plugins == c.plugins
    ensures |modules| != |c.plugins| ==>
      && r.errors == FailureMap(modules)
      && ClassesOf(r.container.plugins) == Qualifying(c.pluginType.base, modules)
    ensures Valid(c) ==> Valid(r.container)
  {
    var f := GetPlugins(c.(errors := map[]), modules);
    assert map[] + FailureMap(modules) == FailureMap(modules);
    ErrorsRead(f.container, f.container.errors)
  }

  // ---------------------------------------------------------------------
  // The reload loops against the reference definitions
  // ---------------------------------------------------------------------

  /** `r` is `c` with instances of `added` appended under fresh serials; the
      plugin type and the earlier instances are untouched. */
  ghost predicate Appended(c: Container, r: Container, added: seq<PluginClass>)
  {
    && r.pluginType == c.pluginType
    && |r.plugins| == |c.plugins| + |added|
    && r.plugins[..|c.plugins|] == c.plugins
    && ClassesOf(r.plugins[|c.plugins|..]) == added
    && c.nextSerial <= r.nextSerial
    && (forall i :: |c.plugins| <= i < |r.plugins| ==> c.nextSerial <= r.plugins[i].serial)
    && (Valid(c) ==> Valid(r))
  }

  lemma AppendedTrans(a: Container, b: Container, c: Container, x: seq<PluginClass>, y: seq<PluginClass>)
    requires Appended(a, b, x) && Appended(b, c, y)
    ensures Appended(a, c, x + y)
  {
    assert c.plugins[..|a.plugins|] == a.plugins by {
      assert c.plugins[..|a.plugins|] == c.plugins[..|b.plugins|][..|a.plugins|];
    }
    assert c.plugins[|a.plugins|..] == b.plugins[|a.plugins|..] + c.plugins[|b.plugins|..] by {
      assert c.plugins == b.plugins + c.plugins[|b.plugins|..];
    }
    ClassesOfAppend(b.plugins[|a.plugins|..], c.plugins[|b.plugins|..]);
  }

  lemma {:induction false} ConsiderClassesSpec(c: Container, classes: seq<PluginClass>)
    ensures Appended(c, ConsiderClasses(c, classes), QualifyingClasses(c.pluginType.base, classes))
    decreases |classes|
  {
    if classes == [] {
      assert c.plugins[|c.plugins|..] == [];
    } else {
      var base := c.pluginType.base;
      var next := ConsiderClass(c, classes[0]);
      var head := if Qualifies(base, classes[0]) then [classes[0]] else [];
      if Qualifies(base, classes[0]) {
        assert next.plugins[|c.plugins|..] == [next.plugins[|c.plugins|]];
      } else {
        assert next.plugins[|c.plugins|..] == [];
      }
      assert Appended(c, next, head);
      ConsiderClassesSpec(next, classes[1..]);
      AppendedTrans(c, next, ConsiderClasses(next, classes[1..]), head, QualifyingClasses(base, classes[1..]));
    }
  }

  lemma {:induction false} ConsiderClassesKeepsErrors(c: Container, classes: seq<PluginClass>)
    ensures ConsiderClasses(c, classes).errors == c.errors
    decreases |classes|
  {
    if classes != [] {
      ConsiderClassesKeepsErrors(ConsiderClass(c, classes[0]), classes[1..]);
    }
  }

  lemma LoadModuleSpec(c: Container, m: ModuleEntry)
    ensures Appended(c, LoadModule(c, m), ModuleClasses(c.pluginType.base, m))
  {
    match m.outcome
    case Failed(_, _) =>
      assert c.plugins[|c.plugins|..] == [];
    case Loaded(classes) =>
      ConsiderClassesSpec(c, classes);
  }

  lemma LoadModuleErrors(c: Container, m: ModuleEntry)
    ensures LoadModule(c, m).errors == c.errors + ModuleFailure(m)
  {
    match m.outcome
    case Failed(_, _) =>
    case Loaded(classes) =>
      ConsiderClassesKeepsErrors(c, classes);
      assert c.errors + map[] == c.errors;
  }

  lemma {:induction false} LoadModulesSpec(c: Container, modules: seq<ModuleEntry>)
    ensures Appended(c, LoadModules(c, modules), Qualifying(c.pluginType.base, modules))
    ensures LoadModules(c, modules).errors == c.errors + FailureMap(modules)
  {
    LoadModulesAppends(c, modules);
    LoadModulesErrors(c, modules);
  }

  lemma {:induction false} LoadModulesAppends(c: Container, modules: seq<ModuleEntry>)
    ensures Appended(c, LoadModules(c, modules), Qualifying(c.pluginType.base, modules))
    decreases |modules|
  {
    if modules == [] {
      assert c.plugins[|c.plugins|..] == [];
    } else {
      var base := c.pluginType.base;
      var next := LoadModule(c, modules[0]);
      LoadModuleSpec(c, modules[0]);
      LoadModulesAppends(next, modules[1..]);
      assert LoadModules(c, modules) == LoadModules(next, modules[1..]);
      assert Qualifying(base, modules) == ModuleClasses(base, modules[0]) + Qualifying(base, modules[1..]);
      AppendedTrans(c, next, LoadModules(next, modules[1..]),
                    ModuleClasses(base, modules[0]), Qualifying(base, modules[1..]));
    }
  }

  lemma {:induction false} LoadModulesErrors(c: Container, modules: seq<ModuleEntry>)
    ensures LoadModules(c, modules).errors == c.errors + FailureMap(modules)
    decreases |modules|
  {
    if modules == [] {
      assert c.errors + map[] == c.errors;
    } else {
      var next := LoadModule(c, modules[0]);
      LoadModuleErrors(c, modules[0]);
      LoadModulesErrors(next, modules[1..]);
      calc {
        LoadModules(c, modules).errors;
        LoadModules(next, modules[1..]).errors;
        next.errors + FailureMap(modules[1..]);
        (c.errors + ModuleFailure(modules[0])) + FailureMap(modules[1..]);
        { MapUnionAssoc(c.errors, ModuleFailure(modules[0]), FailureMap(modules[1..])); }
        c.errors + (ModuleFailure(modules[0]) + FailureMap(modules[1..]));
        c.errors + FailureMap(modules);
      }
    }
  }

  // ---------------------------------------------------------------------
  // Properties of a reload
  // ---------------------------------------------------------------------

  /** Scanning two runs of modules one after the other yields the classes of
      the first run followed by those of the second: a module never hides
      or reorders what comes after it. */
  lemma {:induction false} QualifyingAppend(base: PluginClass, ms1: seq<ModuleEntry>, ms2: seq<ModuleEntry>)
    ensures Qualifying(base, ms1 + ms2) == Qualifying(base, ms1) + Qualifying(base, ms2)
    decreases |ms1|
  {
    if ms1 == [] {
      assert ms1 + ms2 == ms2;
    } else {
      assert (ms1 + ms2)[1..] == ms1[1..] + ms2;
      QualifyingAppend(base, ms1[1..], ms2);
    }
  }

  /** The failures of two runs of modules: those of the second override
      those of the first at a shared location. */
  lemma {:induction false} FailureMapAppend(ms1: seq<ModuleEntry>, ms2: seq<ModuleEntry>)
    ensures FailureMap(ms1 + ms2) == FailureMap(ms1) + FailureMap(ms2)
    decreases |ms1|
  {
    if ms1 == [] {
      assert ms1 + ms2 == ms2;
    } else {
      var all := ms1 + ms2;
      assert all[0] == ms1[0] && all[1..] == ms1[1..] + ms2;
      FailureMapAppend(ms1[1..], ms2);
      calc {
        FailureMap(all);
        ModuleFailure(ms1[0]) + FailureMap(ms1[1..] + ms2);
        ModuleFailure(ms1[0]) + (FailureMap(ms1[1..]) + FailureMap(ms2));
        { MapUnionAssoc(ModuleFailure(ms1[0]), FailureMap(ms1[1..]), FailureMap(ms2)); }
        (ModuleFailure(ms1[0]) + FailureMap(ms1[1..])) + FailureMap(ms2);
        FailureMap(ms1) + FailureMap(ms2);
      }
    }
  }

  lemma MapUnionAssoc<K, V>(a: map<K, V>, b: map<K, V>, c: map<K, V>)
    ensures (a + b) + c == a + (b + c)
  {
  }

  /** A class is instantiated by a reload exactly when it qualifies and some
      module that loaded declares it. */
  lemma {:induction false} QualifyingMembership(base: PluginClass, modules: seq<ModuleEntry>, cls: PluginClass)
    ensures cls in Qualifying(base, modules) <==>
      Qualifies(base, cls) &&
      exists i :: 0 <= i < |modules| && modules[i].outcome.Loaded? && cls in modules[i].outcome.classes
    decreases |modules|
  {
    if modules != [] {
      QualifyingMembership(base, modules[1..], cls);
      ModuleClassesMembership(base, modules[0], cls);
      DeclaredCons(modules, cls);
    }
  }

  /** A class is among one module's contribution exactly when it qualifies
      and the module loaded and declares it. */
  lemma ModuleClassesMembership(base: PluginClass, m: ModuleEntry, cls: PluginClass)
    ensures cls in ModuleClasses(base, m) <==> Qualifies(base, cls) && m.outcome.Loaded? && cls in m.outcome.classes
  {
    if m.outcome.Loaded? {
      QualifyingClassesMembership(base, m.outcome.classes, cls);
    }
  }

  lemma DeclaredCons(modules: seq<ModuleEntry>, cls: PluginClass)
    requires modules != []
    ensures (exists i :: 0 <= i < |modules| && modules[i].outcome.Loaded? && cls in modules[i].outcome.classes) <==>
      (modules[0].outcome.Loaded? && cls in modules[0].outcome.classes) ||
      (exists i :: 0 <= i < |modules[1..]| && modules[1..][i].outcome.Loaded? && cls in modules[1..][i].outcome.classes)
  {
    var rest := modules[1..];
    if exists i :: 0 <= i < |modules| && modules[i].outcome.Loaded? && cls in modules[i].outcome.classes {
      var i :| 0 <= i < |modules| && modules[i].outcome.Loaded? && cls in modules[i].outcome.classes;
      if i > 0 { assert rest[i - 1] == modules[i]; }
    }
    if exists i :: 0 <= i < |rest| && rest[i].outcome.Loaded? && cls in rest[i].outcome.classes {
      var i :| 0 <= i < |rest| && rest[i].outcome.Loaded? && cls in rest[i].outcome.classes;
      assert modules[i + 1] == rest[i];
    }
  }

  lemma {:induction false} QualifyingClassesMembership(base: PluginClass, classes: seq<PluginClass>, cls: PluginClass)
    ensures cls in QualifyingClasses(base, classes) <==> Qualifies(base, cls) && cls in classes
    decreases |classes|
  {
    if classes != [] {
      QualifyingClassesMembership(base, classes[1..], cls);
      assert classes == [classes[0]] + classes[1..];
    }
  }

  /** A location is a key of the failure map exactly when some module at that
      location failed to load. */
  lemma {:induction false} FailureMapKeys(modules: seq<ModuleEntry>, loc: string)
    ensures loc in FailureMap(modules) <==> exists i :: 0 <= i < |modules| && FailedAt(modules[i], loc)
    decreases |modules|
  {
    if modules != [] {
      FailureMapKeys(modules[1..], loc);
      if loc in FailureMap(modules[1..]) {
        var i :| 0 <= i < |modules[1..]| && FailedAt(modules[1..][i], loc);
        assert modules[i + 1] == modules[1..][i];
      }
      if exists i :: 0 <= i < |modules| && FailedAt(modules[i], loc) {
        var i :| 0 <= i < |modules| && FailedAt(modules[i], loc);
        if i > 0 {
          assert modules[1..][i - 1] == modules[i];
        }
      }
    }
  }

  /** A failed module's entry survives unless a later module fails at the same
      location: later failures overwrite earlier ones. */
  lemma {:induction false} FailureMapLastWins(modules: seq<ModuleEntry>, i: nat)
    requires i < |modules| && modules[i].outcome.Failed?
    requires forall j :: i < j < |modules| ==> !FailedAt(modules[j], modules[i].location)
    ensures modules[i].location in FailureMap(modules)
    ensures FailureMap(modules)[modules[i].location]
         == ErrorMessage(modules[i].outcome.exceptionKind, modules[i].outcome.message)
    decreases |modules|
  {
    var loc := modules[i].location;
    if i == 0 {
      forall j | 0 <= j < |modules[1..]|
        ensures !FailedAt(modules[1..][j], loc)
      {
        assert modules[1..][j] == modules[j + 1];
      }
      FailureMapKeys(modules[1..], loc);
    } else {
      forall j | i - 1 < j < |modules[1..]|
        ensures !FailedAt(modules[1..][j], loc)
      {
        assert modules[1..][j] == modules[j + 1];
      }
      FailureMapLastWins(modules[1..], i - 1);
    }
  }

  /** A module that fails to load contributes no instance, leaves the
      modules around it to be scanned as if it were absent, and adds its one
      error entry unless a later module fails at the same location. */
  lemma FailureIsolation(base: PluginClass, before: seq<ModuleEntry>, m: ModuleEntry, after: seq<ModuleEntry>)
    requires m.outcome.Failed?
    requires forall j :: 0 <= j < |after| ==> !FailedAt(after[j], m.location)
    ensures Qualifying(base, before + [m] + after) == Qualifying(base, before) + Qualifying(base, after)
    ensures m.location in FailureMap(before + [m] + after)
    ensures FailureMap(before + [m] + after)[m.location] == ErrorMessage(m.outcome.exceptionKind, m.outcome.message)
  {
    FailedModuleAddsNoClass(base, before, m, after);
    FailedModuleRecorded(before, m, after);
  }

  lemma FailedModuleAddsNoClass(base: PluginClass, before: seq<ModuleEntry>, m: ModuleEntry, after: seq<ModuleEntry>)
    requires m.outcome.Failed?
    ensures Qualifying(base, before + [m] + after) == Qualifying(base, before) + Qualifying(base, after)
  {
    var tail := [m] + after;
    calc {
      Qualifying(base, before + [m] + after);
      { assert before + [m] + after == before + tail; }
      Qualifying(base, before + tail);
      { QualifyingAppend(base, before, tail); }
      Qualifying(base, before) + Qualifying(base, tail);
      { assert tail[0] == m && tail[1..] == after; }
      Qualifying(base, before) + ([] + Qualifying(base, after));
      Qualifying(base, before) + Qualifying(base, after);
    }
  }

  lemma FailedModuleRecorded(before: seq<ModuleEntry>, m: ModuleEntry, after: seq<ModuleEntry>)
    requires m.outcome.Failed?
    requires forall j :: 0 <= j < |after| ==> !FailedAt(after[j], m.location)
    ensures m.location in FailureMap(before + [m] + after)
    ensures FailureMap(before + [m] + after)[m.location] == ErrorMessage(m.outcome.exceptionKind, m.outcome.message)
  {
    var all := before + [m] + after;
    assert all[|before|] == m;
    forall j | |before| < j < |all|
      ensures !FailedAt(all[j], m.location)
    {
      assert all[j] == after[j - |before| - 1];
    }
    FailureMapLastWins(all, |before|);
  }

  /** A class named like the base is never instantiated by a reload, even
      when it derives from the base. */
  lemma BaseNameNeverRegistered(c: Container, modules: seq<ModuleEntry>, cls: PluginClass)
    requires |modules| != |c.plugins|
    requires cls.name == c.pluginType.base.name
    ensures cls !in ClassesOf(GetPlugins(c, modules).plugins)
  {
    QualifyingMembership(c.pluginType.base, modules, cls);
  }

  /** A class that does not list the base among its direct bases is never
      instantiated by a reload, whatever its ancestors further up. */
  lemma IndirectSubclassNeverRegistered(c: Container, modules: seq<ModuleEntry>, cls: PluginClass)
    requires |modules| != |c.plugins|
    requires c.pluginType.base.id !in cls.bases
    ensures cls !in ClassesOf(GetPlugins(c, modules).plugins)
  {
    QualifyingMembership(c.pluginType.base, modules, cls);
  }

  /** After a reload every instance comes from a qualifying class declared by
      a module that loaded, and every such class is instantiated. */
  lemma ReloadedPluginsQualify(c: Container, modules: seq<ModuleEntry>, cls: PluginClass)
    requires |modules| != |c.plugins|
    ensures cls in ClassesOf(GetPlugins(c, modules).plugins) <==>
      Qualifies(c.pluginType.base, cls) &&
      exists i :: 0 <= i < |modules| && modules[i].outcome.Loaded? && cls in modules[i].outcome.classes
  {
    QualifyingMembership(c.pluginType.base, modules, cls);
  }

  /** A failure recorded by an earlier reload stays in the error map across
      later reloads in which that module loads: `get_plugins` never empties
      the map. */
  lemma StaleErrorsPersist(c: Container, modules: seq<ModuleEntry>, loc: string)
    requires loc in c.errors
    requires forall i :: 0 <= i < |modules| ==> !FailedAt(modules[i], loc)
    ensures loc in GetPlugins(c, modules).container.errors
    ensures GetPlugins(c, modules).container.errors[loc] == c.errors[loc]
  {
    FailureMapKeys(modules, loc);
  }

  /** When a call leaves as many instances as modules, calling again with the
      same modules returns the very same instances and state. */
  lemma CachedWhenCountsAgree(c: Container, modules: seq<ModuleEntry>)
    requires |GetPlugins(c, modules).plugins| == |modules|
    ensures GetPlugins(GetPlugins(c, modules).container, modules) == GetPlugins(c, modules)
  {
  }

  /** When a reload leaves a different number of instances than modules, the
      next call with the same modules reloads again: the same classes, but
      all of them instantiated anew. */
  lemma ReloadRepeatsWhenCountsDiffer(c: Container, modules: seq<ModuleEntry>)
    requires Valid(c)
    requires |GetPlugins(c, modules).plugins| != |modules|
    ensures ClassesOf(GetPlugins(GetPlugins(c, modules).container, modules).plugins)
         == ClassesOf(GetPlugins(c, modules).plugins)
    ensures forall p, q :: p in GetPlugins(c, modules).plugins && q in GetPlugins(GetPlugins(c, modules).container, modules).plugins
              ==> p.serial < q.serial
  {
    var first := GetPlugins(c, modules);
    var second := GetPlugins(first.container, modules);
    forall p, q | p in first.plugins && q in second.plugins
      ensures p.serial < q.serial
    {
      var i :| 0 <= i < |first.plugins| && first.plugins[i] == p;
      assert p.serial < first.container.nextSerial;
    }
  }
}
