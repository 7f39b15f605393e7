/** Module discovery: the walk over a plugin type's directory that collects
    the `.py` files lying in its subdirectories, over an abstract directory
    tree whose listing order stands for the order the operating system
    reports. */
module Discovery {
  import opened Plugins
  import PluginContainer

  /** A directory entry: a file, or a directory with its listing. */
  datatype Node = File(name: string) | Dir(name: string, entries: seq<Node>)

  /** A module found by the walk: the module name (the file name without its
      extension) and the path the module was found at. */
  datatype Descriptor = Descriptor(modname: string, location: string)

  /** Joining a directory path and an entry name with `/`, as `os.path.join`
      does for a relative second component. */
  function Join(dir: string, name: string): string
  {
    if dir == [] then name
    else if dir[|dir| - 1] == '/' then dir + name
    else dir + "/" + name
  }

  /** Whether the extension `os.path.splitext` reports for `name` is `.py`:
      the name ends in `.py` and something other than dots precedes that
      final dot, since leading dots never start an extension. */
  predicate HasPyExtension(name: string)
  {
    && |name| >= 3
    && name[|name| - 3..] == ".py"
    && exists i :: 0 <= i < |name| - 3 && name[i] != '.'
  }

  /** The module name of a `.py` entry: its name without the extension. */
  function ModName(name: string): string
    requires |name| >= 3
  {
    name[..|name| - 3]
  }

  /** The descriptor for the `.py` entry `name` of the directory at `dirPath`. */
  function DescriptorOf(dirPath: string, name: string): Descriptor
    requires |name| >= 3
  {
    Descriptor(ModName(name), Join(dirPath, name))
  }

  /** The listing of one subdirectory reduced to its `.py` entries, in
      listing order; entries are kept by name alone, directories included. */
  function PyEntries(dirPath: string, entries: seq<Node>): seq<Descriptor>
  {
    if entries == [] then []
    else
      (if HasPyExtension(entries[0].name) then [DescriptorOf(dirPath, entries[0].name)] else [])
      + PyEntries(dirPath, entries[1..])
  }

  /** One step of the walk at the directory `path` listing `entries`: the
      `.py` entries of each immediate subdirectory, subdirectory by
      subdirectory. Files of `path` itself are not looked at. */
  function ListSubdirs(path: string, entries: seq<Node>): seq<Descriptor>
  {
    if entries == [] then []
    else
      (match entries[0]
       case File(_) => []
       case Dir(d, es) => PyEntries(Join(path, d), es))
      + ListSubdirs(path, entries[1..])
  }

  /** The steps of the walk below each immediate subdirectory, in listing
      order (the walk is top-down). */
  function WalkSubdirs(path: string, entries: seq<Node>): seq<Descriptor>
    decreases entries, 0
  {
    if entries == [] then []
    else
      (match entries[0]
       case File(_) => []
       case Dir(d, es) => Walk(Join(path, d), es))
      + WalkSubdirs(path, entries[1..])
  }

  /** `_get_modules` on the directory at `path` listing `entries`: the step
      at `path`, then the walk below each subdirectory. */
  function Walk(path: string, entries: seq<Node>): seq<Descriptor>
    decreases entries, 1
  {
    ListSubdirs(path, entries) + WalkSubdirs(path, entries)
  }

  /** The discovered modules paired with what loading each one produced: in
      walk order, each names a `.py` entry below the scanned directory and
      carries the outcome of loading that entry. */
  function Scan(path: string, entries: seq<Node>, load: Descriptor -> LoadOutcome): (r: seq<ModuleEntry>)
    ensures |r| == |Walk(path, entries)|
    ensures forall i :: 0 <= i < |r| ==> Descriptor(r[i].modname, r[i].location) == Walk(path, entries)[i]
    ensures forall i :: 0 <= i < |r| ==>
      && FoundBelow(path, entries, Descriptor(r[i].modname, r[i].location))
      && r[i].outcome == load(Descriptor(r[i].modname, r[i].location))
  {
    var found := Walk(path, entries);
    WalkAllSound(path, entries);
    seq(|found|, i requires 0 <= i < |found| => ModuleEntry(found[i].modname, found[i].location, load(found[i])))
  }

  // ---------------------------------------------------------------------
  // What the walk finds
  // ---------------------------------------------------------------------

  /** The directory at `dirPath` listing `es` lies strictly below the
      directory at `path` listing `entries`. */
  ghost predicate Below(path: string, entries: seq<Node>, dirPath: string, es: seq<Node>)
    decreases entries
  {
    exists i :: 0 <= i < |entries| && entries[i].Dir? &&
      ((Join(path, entries[i].name) == dirPath && entries[i].entries == es) ||
       Below(Join(path, entries[i].name), entries[i].entries, dirPath, es))
  }

  /** `x` describes a `.py` entry of some directory strictly below the
      directory at `path` listing `entries`. */
  ghost predicate FoundBelow(path: string, entries: seq<Node>, x: Descriptor)
  {
    exists dirPath: string, es: seq<Node>, j: int :: Below(path, entries, dirPath, es) && 0 <= j < |es| &&
      HasPyExtension(es[j].name) && x == DescriptorOf(dirPath, es[j].name)
  }

  lemma {:induction false} PyEntriesMembership(dirPath: string, entries: seq<Node>, x: Descriptor)
    ensures x in PyEntries(dirPath, entries) <==>
      exists j :: 0 <= j < |entries| && HasPyExtension(entries[j].name) && x == DescriptorOf(dirPath, entries[j].name)
    decreases |entries|
  {
    if entries != [] {
      PyEntriesMembership(dirPath, entries[1..], x);
      if x in PyEntries(dirPath, entries[1..]) {
        var j :| 0 <= j < |entries[1..]| && HasPyExtension(entries[1..][j].name) && x == DescriptorOf(dirPath, entries[1..][j].name);
        assert entries[j + 1] == entries[1..][j];
      }
      if exists j :: 0 <= j < |entries| && HasPyExtension(entries[j].name) && x == DescriptorOf(dirPath, entries[j].name) {
        var j :| 0 <= j < |entries| && HasPyExtension(entries[j].name) && x == DescriptorOf(dirPath, entries[j].name);
        if j > 0 { assert entries[1..][j - 1] == entries[j]; }
      }
    }
  }

  lemma {:induction false} ListSubdirsMembership(path: string, entries: seq<Node>, x: Descriptor)
    ensures x in ListSubdirs(path, entries) <==>
      exists i :: 0 <= i < |entries| && entries[i].Dir? &&
        x in PyEntries(Join(path, entries[i].name), entries[i].entries)
    decreases |entries|
  {
    if entries != [] {
      ListSubdirsMembership(path, entries[1..], x);
      if x in ListSubdirs(path, entries[1..]) {
        var i :| 0 <= i < |entries[1..]| && entries[1..][i].Dir? &&
          x in PyEntries(Join(path, entries[1..][i].name), entries[1..][i].entries);
        assert entries[i + 1] == entries[1..][i];
      }
      if exists i :: 0 <= i < |entries| && entries[i].Dir? && x in PyEntries(Join(path, entries[i].name), entries[i].entries) {
        var i :| 0 <= i < |entries| && entries[i].Dir? && x in PyEntries(Join(path, entries[i].name), entries[i].entries);
        if i > 0 { assert entries[1..][i - 1] == entries[i]; }
      }
    }
  }

  lemma {:induction false} WalkSubdirsMembership(path: string, entries: seq<Node>, x: Descriptor)
    ensures x in WalkSubdirs(path, entries) <==>
      exists i :: 0 <= i < |entries| && entries[i].Dir? &&
        x in Walk(Join(path, entries[i].name), entries[i].entries)
    decreases |entries|
  {
    if entries != [] {
      WalkSubdirsMembership(path, entries[1..], x);
      if x in WalkSubdirs(path, entries[1..]) {
        var i :| 0 <= i < |entries[1..]| && entries[1..][i].Dir? &&
          x in Walk(Join(path, entries[1..][i].name), entries[1..][i].entries);
        assert entries[i + 1] == entries[1..][i];
      }
      if exists i :: 0 <= i < |entries| && entries[i].Dir? && x in Walk(Join(path, entries[i].name), entries[i].entries) {
        var i :| 0 <= i < |entries| && entries[i].Dir? && x in Walk(Join(path, entries[i].name), entries[i].entries);
        if i > 0 { assert entries[1..][i - 1] == entries[i]; }
      }
    }
  }

  /** The walk finds exactly the `.py` entries of the directories strictly
      below the scanned one, at every depth. */
  lemma WalkFindsNestedPyEntries(path: string, entries: seq<Node>, x: Descriptor)
    ensures x in Walk(path, entries) <==> FoundBelow(path, entries, x)
  {
    if x in Walk(path, entries) {
      WalkSound(path, entries, x);
    }
    if FoundBelow(path, entries, x) {
      var dirPath: string, es: seq<Node>, j: int :| Below(path, entries, dirPath, es) && 0 <= j < |es| &&
        HasPyExtension(es[j].name) && x == DescriptorOf(dirPath, es[j].name);
      WalkComplete(path, entries, dirPath, es, j);
    }
  }

  /** Everything the walk yields is a `.py` entry of a directory below. */
  lemma {:induction false} WalkSound(path: string, entries: seq<Node>, x: Descriptor)
    requires x in Walk(path, entries)
    ensures FoundBelow(path, entries, x)
    decreases entries
  {
    if x in ListSubdirs(path, entries) {
      ListedSound(path, entries, x);
    } else {
      WalkSubdirsMembership(path, entries, x);
      var i :| 0 <= i < |entries| && entries[i].Dir? && x in Walk(Join(path, entries[i].name), entries[i].entries);
      var sub, subEntries := Join(path, entries[i].name), entries[i].entries;
      WalkSound(sub, subEntries, x);
      var dirPath: string, es: seq<Node>, j: int :| Below(sub, subEntries, dirPath, es) && 0 <= j < |es| &&
        HasPyExtension(es[j].name) && x == DescriptorOf(dirPath, es[j].name);
      assert Below(path, entries, dirPath, es);
    }
  }

  /** Everything the step at the scanned directory lists is a `.py` entry of
      one of its immediate subdirectories. */
  lemma ListedSound(path: string, entries: seq<Node>, x: Descriptor)
    requires x in ListSubdirs(path, entries)
    ensures FoundBelow(path, entries, x)
  {
    ListSubdirsMembership(path, entries, x);
    var i :| 0 <= i < |entries| && entries[i].Dir? && x in PyEntries(Join(path, entries[i].name), entries[i].entries);
    var dirPath, es := Join(path, entries[i].name), entries[i].entries;
    PyEntriesMembership(dirPath, es, x);
    var j :| 0 <= j < |es| && HasPyExtension(es[j].name) && x == DescriptorOf(dirPath, es[j].name);
    assert Below(path, entries, dirPath, es);
  }

  /** Every `.py` entry of a directory below is yielded by the walk. */
  lemma {:induction false} WalkComplete(path: string, entries: seq<Node>, dirPath: string, es: seq<Node>, j: int)
    requires Below(path, entries, dirPath, es) && 0 <= j < |es| && HasPyExtension(es[j].name)
    ensures DescriptorOf(dirPath, es[j].name) in Walk(path, entries)
    decreases entries
  {
    var x := DescriptorOf(dirPath, es[j].name);
    var i :| 0 <= i < |entries| && entries[i].Dir? &&
      ((Join(path, entries[i].name) == dirPath && entries[i].entries == es) ||
       Below(Join(path, entries[i].name), entries[i].entries, dirPath, es));
    if Join(path, entries[i].name) == dirPath && entries[i].entries == es {
      PyEntriesMembership(dirPath, es, x);
      ListSubdirsMembership(path, entries, x);
    } else {
      WalkComplete(Join(path, entries[i].name), entries[i].entries, dirPath, es, j);
      WalkSubdirsMembership(path, entries, x);
    }
  }

  lemma WalkAllSound(path: string, entries: seq<Node>)
    ensures forall x :: x in Walk(path, entries) ==> FoundBelow(path, entries, x)
  {
    forall x | x in Walk(path, entries)
      ensures FoundBelow(path, entries, x)
    {
      WalkSound(path, entries, x);
    }
  }

  /** Every location in the failure map of a scan is the location of a `.py`
      entry below the scanned directory whose load failed. */
  lemma ScanFailuresFound(path: string, entries: seq<Node>, load: Descriptor -> LoadOutcome, loc: string)
    ensures loc in PluginContainer.FailureMap(Scan(path, entries, load)) ==>
      exists x :: FoundBelow(path, entries, x) && x.location == loc && load(x).Failed?
  {
    var modules := Scan(path, entries, load);
    PluginContainer.FailureMapKeys(modules, loc);
    if loc in PluginContainer.FailureMap(modules) {
      var k :| 0 <= k < |modules| && FailedAt(modules[k], loc);
      var x := Descriptor(modules[k].modname, modules[k].location);
      assert FoundBelow(path, entries, x) && x.location == loc && load(x).Failed?;
    }
  }

  /** A reload from a scanned tree adds error entries only at the locations
      of `.py` entries below the plugin directory whose load failed. */
  lemma ReloadErrorsFound(c: PluginContainer.Container, entries: seq<Node>, load: Descriptor -> LoadOutcome, loc: string)
    requires |Scan(c.pluginType.path, entries, load)| != |c.plugins|
    ensures loc in PluginContainer.GetPlugins(c, Scan(c.pluginType.path, entries, load)).container.errors ==>
      || loc in c.errors
      || exists x :: FoundBelow(c.pluginType.path, entries, x) && x.location == loc && load(x).Failed?
  {
    ScanFailuresFound(c.pluginType.path, entries, load, loc);
  }

  /** The directories of a listing, in order. */
  function Subdirs(entries: seq<Node>): seq<Node>
  {
    if entries == [] then []
    else (if entries[0].Dir? then [entries[0]] else []) + Subdirs(entries[1..])
  }

  /** Files lying directly in the scanned directory play no part: the walk
      gives the same modules once they are removed. */
  lemma RootFilesIgnored(path: string, entries: seq<Node>)
    ensures Walk(path, entries) == Walk(path, Subdirs(entries))
  {
    ListSubdirsIgnoresFiles(path, entries);
    WalkSubdirsIgnoresFiles(path, entries);
  }

  lemma {:induction false} ListSubdirsIgnoresFiles(path: string, entries: seq<Node>)
    ensures ListSubdirs(path, entries) == ListSubdirs(path, Subdirs(entries))
    decreases |entries|
  {
    if entries != [] {
      ListSubdirsIgnoresFiles(path, entries[1..]);
      var rest := Subdirs(entries[1..]);
      if entries[0].Dir? {
        var dirs := [entries[0]] + rest;
        assert Subdirs(entries) == dirs;
        assert dirs[0] == entries[0] && dirs[1..] == rest;
        var head := PyEntries(Join(path, entries[0].name), entries[0].entries);
        assert ListSubdirs(path, entries) == head + ListSubdirs(path, entries[1..]);
        assert ListSubdirs(path, dirs) == head + ListSubdirs(path, rest);
      } else {
        assert Subdirs(entries) == rest;
        assert ListSubdirs(path, entries) == ListSubdirs(path, entries[1..]);
      }
    }
  }

  lemma {:induction false} WalkSubdirsIgnoresFiles(path: string, entries: seq<Node>)
    ensures WalkSubdirs(path, entries) == WalkSubdirs(path, Subdirs(entries))
    decreases |entries|
  {
    if entries != [] {
      WalkSubdirsIgnoresFiles(path, entries[1..]);
      var rest := Subdirs(entries[1..]);
      if entries[0].Dir? {
        var dirs := [entries[0]] + rest;
        assert Subdirs(entries) == dirs;
        assert dirs[0] == entries[0] && dirs[1..] == rest;
        var head := Walk(Join(path, entries[0].name), entries[0].entries);
        assert WalkSubdirs(path, entries) == head + WalkSubdirs(path, entries[1..]);
        assert WalkSubdirs(path, dirs) == head + WalkSubdirs(path, rest);
      } else {
        assert Subdirs(entries) == rest;
        assert WalkSubdirs(path, entries) == WalkSubdirs(path, entries[1..]);
      }
    }
  }
}
