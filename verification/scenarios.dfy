/** Concrete situations from the repository's tests and from the cache
    heuristic, stated over the model. */
module Scenarios {
  import opened Plugins
  import Discovery
  import PluginContainer
  import PluginManager

  const BaseClass := PluginClass(0, "BasePlugin", [])
  const Kind := PluginType("test", BaseClass, "path/to/plugins")

  /** A directory holding only `plugin1.py` and `plugin2.py`, with no
      subdirectory, yields no module, so a fresh container returns no plugin
      and records no error. */
  lemma FilesAtRootYieldNoPlugins()
    ensures Discovery.Walk(Kind.path, [Discovery.File("plugin1.py"), Discovery.File("plugin2.py")]) == []
    ensures PluginContainer.GetPlugins(PluginContainer.New(Kind), []).plugins == []
    ensures PluginContainer.GetPlugins(PluginContainer.New(Kind), []).container.errors == map[]
  {
  }

  /** Three modules, each importing the base and declaring one plugin class,
      give one instance per plugin class and none of the base. */
  lemma ThreePluginModules()
    ensures
      var one := PluginClass(1, "TestClassOne", [0]);
      var two := PluginClass(2, "TestClassTwo", [0]);
      var three := PluginClass(3, "TestClassThree", [0]);
      var modules := [
        ModuleEntry("one", "plugins/a/one.py", Loaded([BaseClass, one])),
        ModuleEntry("three", "plugins/a/three.py", Loaded([BaseClass, three])),
        ModuleEntry("two", "plugins/b/two.py", Loaded([BaseClass, two]))];
      var r := PluginContainer.GetPlugins(PluginContainer.New(Kind), modules);
      PluginContainer.ClassesOf(r.plugins) == [one, three, two] && r.container.errors == map[]
  {
    var one := PluginClass(1, "TestClassOne", [0]);
    var two := PluginClass(2, "TestClassTwo", [0]);
    var three := PluginClass(3, "TestClassThree", [0]);
    var m1 := ModuleEntry("one", "plugins/a/one.py", Loaded([BaseClass, one]));
    var m2 := ModuleEntry("three", "plugins/a/three.py", Loaded([BaseClass, three]));
    var m3 := ModuleEntry("two", "plugins/b/two.py", Loaded([BaseClass, two]));
    PluginModule(m1, one);
    PluginModule(m2, three);
    PluginModule(m3, two);
    var modules := [m1, m2, m3];
    assert modules == [m1] + ([m2] + [m3]);
    PluginContainer.QualifyingAppend(BaseClass, [m2], [m3]);
    PluginContainer.QualifyingAppend(BaseClass, [m1], [m2] + [m3]);
    NoFailure(modules);
  }

  /** A module declaring the base and one plugin class contributes exactly
      that class and no error. */
  lemma PluginModule(m: ModuleEntry, cls: PluginClass)
    requires m.outcome == Loaded([BaseClass, cls]) && Qualifies(BaseClass, cls)
    ensures PluginContainer.Qualifying(BaseClass, [m]) == [cls]
  {
    assert [BaseClass, cls][1..] == [cls];
    assert [cls][1..] == [];
    assert PluginContainer.QualifyingClasses(BaseClass, [cls]) == [cls];
    assert [m][1..] == [];
  }

  /** Modules that all load record no error. */
  lemma NoFailure(modules: seq<ModuleEntry>)
    requires forall k :: 0 <= k < |modules| ==> modules[k].outcome.Loaded?
    ensures PluginContainer.FailureMap(modules) == map[]
  {
    forall loc
      ensures loc !in PluginContainer.FailureMap(modules)
    {
      PluginContainer.FailureMapKeys(modules, loc);
    }
  }

  const Alpha := PluginClass(1, "Alpha", [0])
  const Beta := PluginClass(2, "Beta", [0])
  const Broken := ModuleEntry("broken", "plugins/a/broken.py", Failed("ImportError", "No module named missing"))
  const Good := ModuleEntry("good", "plugins/a/good.py", Loaded([Alpha, Beta]))

  /** A broken module next to a good one: the good module's plugin classes
      in the order reflection lists them (by attribute name), and one error
      entry for the broken module. */
  lemma MixedModulesReference()
    ensures PluginContainer.Qualifying(BaseClass, [Broken, Good]) == [Alpha, Beta]
    ensures PluginContainer.FailureMap([Broken, Good]) == map["plugins/a/broken.py" := "ImportError: No module named missing"]
  {
    assert [Broken, Good] == [Broken] + [Good];
    GoodModule();
    BrokenModule();
    PluginContainer.QualifyingAppend(BaseClass, [Broken], [Good]);
    PluginContainer.FailureMapAppend([Broken], [Good]);
  }

  lemma GoodModule()
    ensures PluginContainer.Qualifying(BaseClass, [Good]) == [Alpha, Beta]
    ensures PluginContainer.FailureMap([Good]) == map[]
  {
    assert [Good][1..] == [];
    assert [Alpha, Beta][1..] == [Beta] && [Beta][1..] == [];
    assert Qualifies(BaseClass, Alpha) && Qualifies(BaseClass, Beta);
    assert PluginContainer.QualifyingClasses(BaseClass, [Beta]) == [Beta];
  }

  lemma BrokenModule()
    ensures PluginContainer.Qualifying(BaseClass, [Broken]) == []
    ensures PluginContainer.FailureMap([Broken]) == map["plugins/a/broken.py" := "ImportError: No module named missing"]
  {
    assert [Broken][1..] == [];
    ImportErrorMessage();
    assert PluginContainer.FailureMap([Broken]) == map[Broken.location := ErrorMessage("ImportError", "No module named missing")];
  }

  /** The error text recorded for the broken module. */
  lemma ImportErrorMessage()
    ensures ErrorMessage("ImportError", "No module named missing") == "ImportError: No module named missing"
  {
  }

  /** A broken module is reported by the first read of `errors`; once the
      instance count happens to equal the module count, the second read hits
      the cache and reports nothing although the module still fails. */
  lemma SecondErrorsReadHidesFailure()
    ensures PluginContainer.Errors(PluginContainer.New(Kind), [Broken, Good]).errors
         == map["plugins/a/broken.py" := "ImportError: No module named missing"]
    ensures PluginContainer.Errors(PluginContainer.Errors(PluginContainer.New(Kind), [Broken, Good]).container, [Broken, Good]).errors
         == map[]
  {
    MixedModulesReference();
    var first := PluginContainer.Errors(PluginContainer.New(Kind), [Broken, Good]);
    assert |PluginContainer.ClassesOf(first.container.plugins)| == 2;
  }

  /** Reading `errors` twice: when the first read leaves as many instances as
      modules, the second read reports nothing, whatever the modules. */
  lemma ErrorsForgottenWhenCached(c: PluginContainer.Container, modules: seq<ModuleEntry>)
    requires |PluginContainer.Errors(c, modules).container.plugins| == |modules|
    ensures PluginContainer.Errors(PluginContainer.Errors(c, modules).container, modules).errors == map[]
  {
  }

  /** A manager built with the test type knows it; registering a second,
      differently named type adds it; registering the first again fails. */
  lemma ManagerRegistration()
    ensures PluginManager.New([Kind]).Ok?
    ensures
      var m := PluginManager.New([Kind]).value;
      var other := PluginType("new_test", BaseClass, "path/to/new_plugins");
      && "test" in m.containers
      && PluginManager.RegisterPluginType(m, other).result.Ok?
      && "new_test" in PluginManager.RegisterPluginType(m, other).manager.containers
      && PluginManager.RegisterPluginType(m, Kind).result == PluginManager.Err(PluginManager.DuplicateType("test"))
    ensures PluginManager.New([Kind, Kind]).Err?
  {
  }

  /** A manager whose discovery scans the listing of each directory: every
      location `get_errors` reports is that of a `.py` entry, below the
      directory of one of the listed types, whose load failed. */
  lemma ScannedErrorsFound(m: PluginManager.Manager, types: seq<PluginType>, listing: string -> seq<Discovery.Node>,
                           load: Discovery.Descriptor -> LoadOutcome, loc: string)
    ensures
      var r := PluginManager.GetErrors(m, types, p => Discovery.Scan(p, listing(p), load));
      r.result.Ok? && loc in r.result.value ==>
        exists t :: t in types && t.name in m.containers &&
          var path := m.containers[t.name].pluginType.path;
          exists x :: Discovery.FoundBelow(path, listing(path), x) && x.location == loc && load(x).Failed?
  {
    var discover: PluginManager.Discovery := p => Discovery.Scan(p, listing(p), load);
    var r := PluginManager.GetErrors(m, types, discover);
    if r.result.Ok? && loc in r.result.value {
      var t :| t in types && PluginManager.FailedUnder(m, t.name, discover, loc);
      var path := m.containers[t.name].pluginType.path;
      PluginContainer.FailureMapKeys(discover(path), loc);
      Discovery.ScanFailuresFound(path, listing(path), load, loc);
    }
  }
}
