/** Values shared by the container and the manager: classes as the loader
    reports them, plugin types, plugin instances and the outcome of loading
    one discovered module. */
module Plugins {

  /** Identity of a class object; two classes are the same class exactly when
      their identities agree. */
  type ClassId = nat

  /** A class declared (or imported) at the top level of a module: its
      identity, its `__name__` and its direct bases `__bases__`. */
  datatype PluginClass = PluginClass(id: ClassId, name: string, bases: seq<ClassId>)

  /** A plugin category: its unique name, the base class its plugins derive
      from, and the directory that is scanned for them. */
  datatype PluginType = PluginType(name: string, base: PluginClass, path: string)

  /** An instance of a plugin class. The serial stands for object identity:
      every instantiation gets a serial no earlier instance of the same
      container carries. */
  datatype Plugin = Plugin(serial: nat, cls: PluginClass)

  /** What loading one module produced: the exception it raised (class name
      and message), or the classes it exposes in the order reflection lists
      them. */
  datatype LoadOutcome =
    | Failed(exceptionKind: string, message: string)
    | Loaded(classes: seq<PluginClass>)

  /** A discovered module together with the outcome of loading it; the
      location is the file name used as the key of the error map. */
  datatype ModuleEntry = ModuleEntry(modname: string, location: string, outcome: LoadOutcome)

  /** The text recorded for a module that failed to load. */
  function ErrorMessage(exceptionKind: string, message: string): string
  {
    exceptionKind + ": " + message
  }

  /** A class is a plugin of `base` when it is not named like the base and
      lists the base among its direct bases. */
  predicate Qualifies(base: PluginClass, cls: PluginClass)
  {
    cls.name != base.name && base.id in cls.bases
  }

  /** True when `m` failed to load and its location is `loc`. */
  predicate FailedAt(m: ModuleEntry, loc: string)
  {
    m.outcome.Failed? && m.location == loc
  }
}
