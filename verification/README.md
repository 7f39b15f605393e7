# yantra plugin bookkeeping, modelled in Dafny

yantra discovers plugins. A *plugin type* has a name, a base class and a
directory. A *plugin container* scans that directory's subdirectories for
`.py` modules and loads each one. Every class that names the base class among
its direct bases, and is not itself named like the base, is instantiated. A
module that fails to load is recorded in an error map instead. A *plugin
manager* maps type names to containers. It refuses a duplicate name and fails
on an unknown one. It also merges the error maps of several types.

The model is a functional state machine built from immutable datatypes:

- `plugins.dfy`, module `Plugins`: classes (identity, name, direct bases),
  plugin types, plugin instances and load outcomes (`Failed(kind, message)` or
  `Loaded(classes)`).
  - An instance carries a serial number issued by its container. The serial
    stands for Python object identity, so a returned cache and a
    re-instantiation can be told apart.
- `discovery.dfy`, module `Discovery`: the walk of `_get_modules` over an
  abstract directory tree.
- `container.dfy`, module `PluginContainer`: `get_plugins`, the `errors`
  property and `register_plugin`.
  - The reload loop is written as a fold.
  - It is proved equal to two independent reference definitions: the
    qualifying classes module by module (`Qualifying`), and the failure map
    in which later failures win (`FailureMap`).
- `manager.dfy`, module `PluginManager`: the registry. Every operation
  returns the new manager together with `Ok(value)` or
  `Err(DuplicateType | UnknownType)`.
  - The manager is returned on failure too. `get_errors` can fail part-way,
    after it has already refreshed the containers of earlier types.
- `scenarios.dfy`, module `Scenarios`: concrete situations from the tests and
  from the cache heuristic. It also holds the one statement that joins the
  walk to the manager.

Filesystem access and module loading are inputs. A container receives the
discovered modules with their load outcomes as a sequence. The manager
receives a function from a directory path to that sequence.
`Discovery.Scan` builds such a sequence from a directory tree and a loader.
`Discovery.ReloadErrorsFound` and `Scenarios.ScannedErrorsFound` follow the
error locations of a scanned tree through a reload and through
`get_errors`.

The model follows the code in these points:

- The subclass test uses direct bases only (`base_class in cls.__bases__`).
  A class that derives from the base only through another class is never
  registered.
- `get_plugins` never clears the error map. Only the `errors` property
  empties it, just before it refreshes the container.
- The cache test compares the number of discovered modules with the number
  of cached instances.
- A constructor that raises is not caught: `register_plugin` is called
  outside the `try`. The model's constructors always succeed (see Left out).

## Model

| member | source | states |
|---|---|---|
| PluginContainer.New | yantra/manager.py:25-28 | a fresh container holds its type, no instances and an empty error map |
| PluginContainer.RegisterPlugin | yantra/manager.py:40-42 | exactly one instance of the given class is appended under a serial no existing instance has; earlier instances, the type and the error map are unchanged |
| PluginContainer.GetPlugins | yantra/manager.py:66-101 | when the module count equals the cached instance count, the container comes back unchanged and its list is returned; otherwise the list is replaced by fresh instances of exactly the qualifying classes in module-then-class order, and the errors become the old map overridden by this scan's failures |
| PluginContainer.Errors | yantra/manager.py:30-38 | the returned map is the container's map after the refresh; on a cache hit it is empty and the instances are kept; on a reload it holds exactly this scan's failures |
| PluginContainer.LoadModulesSpec | yantra/manager.py:74-99 | the outer loop appends instances of the qualifying classes of every module in order, under fresh increasing serials, and adds the failure map of the modules to the errors |
| PluginContainer.ConsiderClassesSpec | yantra/manager.py:89-99 | the inner loop appends instances of the classes that pass the name test and the direct-base test, in the order reflection lists them |
| PluginContainer.ConsiderClassesKeepsErrors | yantra/manager.py:89-99 | the inner loop leaves the error map as it was |
| PluginContainer.QualifyingAppend | yantra/manager.py:76-99 | scanning two runs of modules yields the first run's classes followed by the second's, so no module hides or reorders a later one |
| PluginContainer.FailureMapAppend | yantra/manager.py:79-85 | the failures of two runs of modules combine with the second run's entries overriding the first's |
| PluginContainer.QualifyingMembership | yantra/manager.py:87-99 | a class is instantiated by a reload if and only if it qualifies and some module that loaded declares it |
| PluginContainer.ModuleClassesMembership | yantra/manager.py:79-99 | one module contributes a class exactly when it loaded, declares the class, and the class qualifies |
| PluginContainer.FailureMapKeys | yantra/manager.py:79-85 | a location has an error entry if and only if some module at that location failed to load |
| PluginContainer.FailureMapLastWins | yantra/manager.py:82-84 | the entry of a failed module is "<exception class>: <message>" unless a later module fails at the same location |
| PluginContainer.FailureIsolation | yantra/manager.py:79-85 | a failed module contributes no instance, the modules before and after it are scanned as if it were absent, and its error entry is set |
| PluginContainer.BaseNameNeverRegistered | yantra/manager.py:92-94 | a class named like the base is never instantiated by a reload, whatever its bases |
| PluginContainer.IndirectSubclassNeverRegistered | yantra/manager.py:96-99 | a class without the base among its direct bases is never instantiated by a reload |
| PluginContainer.ReloadedPluginsQualify | yantra/manager.py:87-99 | after a reload, a class has an instance if and only if it qualifies and a loaded module declares it |
| PluginContainer.StaleErrorsPersist | yantra/manager.py:74-85 | an error recorded earlier stays, with its message, across a reload in which no module fails at that location |
| PluginContainer.CachedWhenCountsAgree | yantra/manager.py:70-72 | once a call leaves as many instances as modules, the next call with the same modules returns the same instances and state |
| PluginContainer.ReloadRepeatsWhenCountsDiffer | yantra/manager.py:70-74 | when a reload leaves a different count, the next call reloads again: same classes, but every instance is newer than all earlier ones |
| PluginManager.RegisterPluginType | yantra/manager.py:128-134 | fails with a duplicate-name error exactly when the name is taken, leaving the manager unchanged; otherwise it adds one fresh container under that name and changes no other entry |
| PluginManager.New | yantra/manager.py:109-114 | construction succeeds exactly when the initial names are distinct; it then holds one fresh container per initial type; otherwise it fails with a duplicate-name error naming a listed type |
| PluginManager.RegisterAllSucceeds | yantra/manager.py:113-114 | registering a list in order succeeds exactly when its names are distinct and none is registered already |
| PluginManager.RegisterAllKeys | yantra/manager.py:113-114 | a successful registration of a list adds exactly the listed names to the registered ones |
| PluginManager.RegisterAllKeeps | yantra/manager.py:113-114 | a successful registration of a list leaves every existing container as it was and keeps the registry consistent |
| PluginManager.RegisterAllFresh | yantra/manager.py:113-114 | after a successful registration of a list, every listed type has a fresh container under its name |
| PluginManager.RegisterAllFailure | yantra/manager.py:113-114 | a failed registration of a list reports a duplicate-name error naming a listed type |
| PluginManager.GetContainer | yantra/manager.py:116-120 | lookup succeeds exactly when the type's name is registered, returns that container (by name only), and otherwise fails with an unknown-type error |
| PluginManager.GetPlugins | yantra/manager.py:136-137 | fails for an unregistered name without change; otherwise it refreshes only that container from the registered type's own directory and returns its instances; the refreshed container keeps its plugin type; on a cache hit nothing changes; on a reload the instances are the qualifying classes and the errors become the old map overridden by this scan's failures |
| PluginManager.HasPlugins | yantra/manager.py:139-140 | succeeds exactly when get_plugins does, leaves the same state, and is true if and only if get_plugins returns a non-empty list |
| PluginManager.ReadErrors | yantra/manager.py:122-126 | one read of a registered type's `errors` refreshes only that container and keeps every plugin type; the map read is the refreshed container's map: empty with the instances kept on a cache hit, exactly this scan's failures with the qualifying classes on a reload; it reports only locations of modules that failed in that type's directory |
| PluginManager.ErrorReads | yantra/manager.py:122-126 | reads the types' error maps one per type in argument order, failing exactly when some listed name is unregistered and then naming an unregistered listed type; registered names and plugin types are kept |
| PluginManager.ErrorReadFailed | yantra/manager.py:122-126 | the read for the i-th listed type reports only locations where a module failed in that type's directory, although earlier reads have refreshed other containers |
| PluginManager.ErrorReadsFailed | yantra/manager.py:122-126 | every location in a type's read is where a module failed to load in that type's directory |
| PluginManager.CollectErrorsMerges | yantra/manager.py:123-126 | the accumulating loop of get_errors produces the accumulator overridden by the merge of the individual reads, and fails in the same way |
| PluginManager.GetErrors | yantra/manager.py:122-126 | fails exactly when some listed name is unregistered; otherwise it returns the merge of the per-type reads in argument order, whose locations all belong to failed modules of the listed types |
| PluginManager.MergedErrorsFailed | yantra/manager.py:122-126 | every location in the merged errors is where a module failed to load in the directory of a listed type |
| PluginManager.MergeKeys | yantra/manager.py:125 | a location is in the merged errors if and only if some type's map has it |
| PluginManager.MergeLaterWins | yantra/manager.py:125 | in the merged errors a location takes its message from the last type whose map has it |
| Discovery.WalkFindsNestedPyEntries | yantra/manager.py:44-64 | the walk yields a descriptor if and only if it names a `.py` entry of a directory strictly below the scanned one, at any depth |
| Discovery.WalkSound | yantra/manager.py:44-64 | every descriptor the walk yields names a `.py` entry of some directory strictly below the scanned one |
| Discovery.WalkComplete | yantra/manager.py:44-64 | every `.py` entry of a directory strictly below the scanned one, at any depth, is yielded by the walk |
| Discovery.Scan | yantra/manager.py:44-64 | the scan pairs each walked descriptor, in walk order, with its load outcome, and each names a `.py` entry below the scanned directory |
| Discovery.ScanFailuresFound | yantra/manager.py:44-85 | every location in a scan's failure map is that of a `.py` entry below the scanned directory whose load failed |
| Discovery.ReloadErrorsFound | yantra/manager.py:66-101 | a reload from a scanned tree adds error entries only at locations of `.py` entries below the plugin directory whose load failed |
| Discovery.PyEntriesMembership | yantra/manager.py:57-62 | from one listed subdirectory exactly the entries whose extension is `.py` are kept, with the name stripped of the extension |
| Discovery.RootFilesIgnored | yantra/manager.py:49-57 | files lying directly in the scanned directory do not change what the walk yields |
| Scenarios.FilesAtRootYieldNoPlugins | tests/__init__.py:28-38 | a directory holding only two `.py` files and no subdirectory yields no module, and a fresh container then returns no plugin and no error |
| Scenarios.ThreePluginModules | tests/test_yantra.py:8-24 | three modules each importing the base and declaring one plugin class give exactly those three classes and no error |
| Scenarios.MixedModulesReference | yantra/manager.py:79-99 | a broken module followed by a good one gives the good module's plugin classes in the order reflection lists them (by attribute name) and a single `ImportError` entry for the broken one |
| Scenarios.SecondErrorsReadHidesFailure | yantra/manager.py:30-38 | a broken module is reported by the first read of errors but not by the second, once the instance count matches the module count |
| Scenarios.ErrorsForgottenWhenCached | yantra/manager.py:30-38 | after a read that leaves as many instances as modules, the next read reports no error at all |
| Scenarios.ScannedErrorsFound | yantra/manager.py:122-126 | with discovery scanning each directory's own listing, every location `get_errors` reports is that of a `.py` entry below a listed type's directory whose load failed |
| Scenarios.ManagerRegistration | tests/__init__.py:45-56 | a manager built with one type knows it; a second type with another name registers; the same name again, or twice in the initial list, fails |

## Left out

- Directory walking is modelled over an abstract tree whose listing order
  stands for the operating system's order. A missing or unreadable root is
  not modelled; `os.walk` yields nothing for it. Symbolic links are not
  modelled, and neither is the search order of `imp.find_module`, which
  prefers a package directory or a compiled module of the same name. A
  module's location is taken to be its subdirectory's path joined with the
  file name.
- Discovery errors that abort a call are not modelled. `os.walk` still lists
  an unreadable subdirectory, and `os.listdir` (yantra/manager.py:55) then
  raises. `imp.find_module` (yantra/manager.py:61) raises `ImportError` for
  a `.py` entry it cannot resolve, such as a broken symbolic link. Neither
  error is caught, so `get_plugins` aborts. So does the `errors` property,
  after it has already emptied the error map (yantra/manager.py:33). The
  model has no abort path: discovery always yields a list of modules.
- PluginContainer.FailureIsolation holds only where the failure handler
  (yantra/manager.py:82-84) itself succeeds. Under Python 3, which the tests
  use (`unittest.mock`, `builtins.open`), `e.message` does not exist and the
  handler raises `AttributeError`. Under Python 2 a failure still escapes in
  two cases:
  - `except Exception` does not catch `SystemExit` or `KeyboardInterrupt`,
    for example from a module that calls `sys.exit()` at import time.
  - `e.message` is the exception's single argument as given. For
    `KeyError(0)` it is the int `0`, so the concatenation on line 83 raises
    `TypeError`.

  Each of these aborts the reload instead of being recorded. The model
  records every failure, as Python 2 does when the exception is an
  `Exception` whose message is a string.
- Discovery.WalkFindsNestedPyEntries states which descriptors the walk
  yields, not their order or how often they occur. The order is fixed by
  `Discovery.Walk` itself.
- Module loading (`imp.load_module`) and reflection (`inspect.getmembers`)
  are foreign runtime facilities. Each load is an input outcome, and a loaded
  module's classes are given in the order reflection lists them. That order
  is sorted by attribute name (code-point order, upper case first) and
  includes imported classes.
- Plugin constructors are taken to succeed and to have no side effects. In
  the code a raising constructor is not caught, and its exception aborts
  `get_plugins` part-way.
- `get_plugin(type, id)` is called by a test but does not exist in
  `yantra/manager.py`, so there is nothing to model.
- The end-to-end test loads the plugin modules under `tests/test_plugins/`.
  The model does not describe their contents, and
  `Scenarios.ThreePluginModules` assumes three such modules.
- The `isinstance(plugin_type, PluginType)` check is enforced by Dafny's
  types.
- Exception text: only the shape `"<exception class>: <message>"` is kept.
  How the message is obtained (`e.message`) is not; see the Python 3 note
  above.
- Aliasing is not modelled. The code returns its internal list and dict,
  which later calls mutate; the model returns values.
- Concurrency is not modelled. The code is single-threaded and has no
  locking.
