/** `src/xaibo/server/web.py`: the web server's class lookup by dotted path
    and its reload of the agent directory. The directory listing (path to
    configuration) is a parameter, and the calls made on the `Xaibo`
    registry are returned as a log. Python's import machinery is the
    `Importer` oracle. */
module Web {
  import opened Basics
  import opened OrderedDicts
  import Config

  type AgentConfigData = Config.AgentConfigData

  /** `importlib.import_module(name)` and `getattr(module, name)`. */
  datatype Importer = Importer(importModule: string -> Option<nat>, getAttr: (nat, string) -> Option<nat>)

  datatype WebError =
    | EmptyModuleName
    | RelativeModuleName(name: string)
    | ModuleNotFound(name: string)
    | AttributeMissing(moduleName: string, name: string)

  /** `get_class_by_path`: import everything before the last dot, then
      fetch the last component from it. `import_module("")` is a
      `ValueError` and a module name starting with a dot a `TypeError`
      (no package is given to resolve it against), both before any
      lookup. */
  function GetClassByPath(path: string, imp: Importer): (r: Result<nat, WebError>)
    ensures r.Ok? ==>
      && '.' in path
      && var (pkg, cls) := Config.ImportTarget(path);
         path == pkg + "." + cls && pkg != "" && pkg[0] != '.'
         && imp.importModule(pkg).Some?
         && imp.getAttr(imp.importModule(pkg).value, cls) == Some(r.value)
    ensures r.Err? && r.error.EmptyModuleName? <==> Config.ImportTarget(path).0 == ""
    ensures r.Err? && r.error.RelativeModuleName? <==> Config.ImportTarget(path).0 != "" && Config.ImportTarget(path).0[0] == '.'
    ensures r.Err? && r.error.RelativeModuleName? ==> r.error.name == Config.ImportTarget(path).0
    ensures r.Err? && r.error.ModuleNotFound? ==> r.error.name == Config.ImportTarget(path).0
    ensures r.Err? && r.error.AttributeMissing? ==> r.error.name == Config.ImportTarget(path).1
  {
    var (pkg, cls) := Config.ImportTarget(path);
    if pkg == "" then Err(EmptyModuleName)
    else if pkg[0] == '.' then Err(RelativeModuleName(pkg))
    else
      var loaded := imp.importModule(pkg);
      if loaded.None? then Err(ModuleNotFound(pkg))
      else
        var attr := imp.getAttr(loaded.value, cls);
        if attr.None? then Err(AttributeMissing(pkg, cls)) else Ok(attr.value)
  }

  /** A bare class name has no module to import from. */
  lemma BareNameFails(path: string, imp: Importer)
    requires '.' !in path
    ensures GetClassByPath(path, imp) == Err(EmptyModuleName)
  {
  }

  /** The adapter classes of `__init__`, in order, or the first lookup
      error. */
  function AdapterClasses(adapters: seq<string>, imp: Importer): (r: Result<seq<nat>, WebError>)
    ensures r.Ok? ==>
      && |r.value| == |adapters|
      && (forall i :: 0 <= i < |adapters| ==> GetClassByPath(adapters[i], imp) == Ok(r.value[i]))
  {
    if adapters == [] then Ok([])
    else
      var first := GetClassByPath(adapters[0], imp);
      if first.Err? then Err(first.error)
      else
        var rest := AdapterClasses(adapters[1..], imp);
        if rest.Err? then Err(rest.error)
        else Ok([first.value] + rest.value)
  }

  /** A failure is the error of the first adapter whose class cannot be
      resolved. */
  lemma {:induction false} AdapterClassesFirstError(adapters: seq<string>, imp: Importer)
    ensures var r := AdapterClasses(adapters, imp);
      r.Err? ==>
        exists i :: (0 <= i < |adapters| && GetClassByPath(adapters[i], imp) == Err(r.error)
                     && forall j :: 0 <= j < i ==> GetClassByPath(adapters[j], imp).Ok?)
  {
    if adapters != [] && GetClassByPath(adapters[0], imp).Ok? {
      var rest := AdapterClasses(adapters[1..], imp);
      AdapterClassesFirstError(adapters[1..], imp);
      if rest.Err? {
        var i :| 0 <= i < |adapters| - 1 && GetClassByPath(adapters[1..][i], imp) == Err(rest.error)
          && forall j :: 0 <= j < i ==> GetClassByPath(adapters[1..][j], imp).Ok?;
        assert GetClassByPath(adapters[i + 1], imp) == Err(rest.error);
        assert forall j :: 1 <= j < i + 1 ==> adapters[j] == adapters[1..][j - 1];
      }
    }
  }

  /** `found` followed by the classes of the rest, or the rest's error. */
  function After(found: seq<nat>, rest: Result<seq<nat>, WebError>): Result<seq<nat>, WebError>
  {
    if rest.Err? then rest else Ok(found + rest.value)
  }

  /** A call made on the `Xaibo` registry. */
  datatype Action = Unregister(agentId: string) | Register(config: AgentConfigData)

  /** Part way through the unregistration loop: `removed` lists, without
      repetition, the vanished paths no longer `left`. */
  ghost predicate Removal(gone: set<string>, removed: seq<string>, left: set<string>)
  {
    && left <= gone
    && (forall p :: p in removed <==> p in gone && p !in left)
    && (forall i, j :: 0 <= i < j < |removed| ==> removed[i] != removed[j])
    && |removed| + |left| == |gone|
  }

  lemma RemovalStep(gone: set<string>, removed: seq<string>, left: set<string>, p: string)
    requires Removal(gone, removed, left) && p in left
    ensures Removal(gone, removed + [p], left - {p})
  {
    assert p !in removed;
  }

  /** The unregistrations of the removed paths, in the order visited. */
  function Unregisters(configs: map<string, AgentConfigData>, paths: seq<string>): (r: seq<Action>)
    requires forall p :: p in paths ==> p in configs
    ensures |r| == |paths| && forall i :: 0 <= i < |paths| ==> r[i] == Unregister(configs[paths[i]].id)
  {
    if paths == [] then []
    else Unregisters(configs, paths[..|paths| - 1]) + [Unregister(configs[paths[|paths| - 1]].id)]
  }

  /** The registrations of `_load_configs`: each configuration whose path is
      new or whose configuration changed, in directory order. */
  function Registers(current: map<string, AgentConfigData>, keys: seq<string>, entries: map<string, AgentConfigData>): seq<Action>
    requires forall p :: p in keys ==> p in entries
  {
    if keys == [] then []
    else
      var p := keys[|keys| - 1];
      Registers(current, keys[..|keys| - 1], entries)
      + (if p !in current || current[p] != entries[p] then [Register(entries[p])] else [])
  }

  /** A configuration is registered exactly when it sits at a path that is
      new or whose configuration differs from the one loaded before. */
  lemma {:induction false} RegistersIff(current: map<string, AgentConfigData>, keys: seq<string>,
                                         entries: map<string, AgentConfigData>, a: Action)
    requires forall p :: p in keys ==> p in entries
    ensures a in Registers(current, keys, entries) <==>
      a.Register? && exists p :: p in keys && entries[p] == a.config && (p !in current || current[p] != a.config)
  {
    if keys != [] {
      var n := |keys| - 1;
      assert forall p :: p in keys[..n] ==> p in keys;
      RegistersIff(current, keys[..n], entries, a);
      if a.Register? && exists p :: p in keys && entries[p] == a.config && (p !in current || current[p] != a.config) {
        var p :| p in keys && entries[p] == a.config && (p !in current || current[p] != a.config);
        if p != keys[n] {
          var i :| 0 <= i < |keys| && keys[i] == p;
          assert keys[..n][i] == p;
        }
      }
    }
  }

  /** Reloading an unchanged directory makes no registry call: no path is
      removed, so nothing is unregistered, and nothing is registered. */
  lemma {:induction false} RegistersUnchanged(current: map<string, AgentConfigData>, keys: seq<string>)
    requires forall p :: p in keys ==> p in current
    ensures Registers(current, keys, current) == []
    ensures Unregisters(current, []) + Registers(current, keys, current) == []
  {
    if keys != [] {
      var n := |keys| - 1;
      assert forall p :: p in keys[..n] ==> p in keys;
      RegistersUnchanged(current, keys[..n]);
    }
  }

  class XaiboWebServer {
    /** The configurations loaded last, by file path. */
    var configs: map<string, AgentConfigData>
    /** The adapter classes attached to the application, in order. */
    var adapted: seq<nat>

    constructor ()
      ensures configs == map[] && adapted == []
    {
      configs := map[];
      adapted := [];
    }

    /** The adapter loop of `__init__`: each adapter path is looked up and
        attached; the first failing lookup raises and stops the loop. */
    method AttachAdapters(adapters: seq<string>, imp: Importer) returns (err: Option<WebError>)
      modifies this
      ensures configs == old(configs)
      ensures var expected := AdapterClasses(adapters, imp);
        (err.None? <==> expected.Ok?)
        && (expected.Ok? ==> adapted == old(adapted) + expected.value)
        && (expected.Err? ==> err == Some(expected.error))
    {
      var found: seq<nat> := [];
      err := None;
      var i := 0;
      assert adapters[0..] == adapters;
      AfterNothing(AdapterClasses(adapters, imp));
      while i < |adapters|
        invariant 0 <= i <= |adapters|
        invariant configs == old(configs)
        invariant After(found, AdapterClasses(adapters[i..], imp)) == AdapterClasses(adapters, imp)
        invariant adapted == old(adapted) + found
      {
        AdapterStep(adapters, i, found, imp);
        var cls := GetClassByPath(adapters[i], imp);
        if cls.Err? {
          return Some(cls.error);
        }
        found := found + [cls.value];
        adapted := adapted + [cls.value];
        i := i + 1;
      }
      assert adapters[i..] == [];
      AfterAll(found);
    }

    /** `_load_configs`: unregister the agent of every path that vanished
        (in set order, here any order), then register every new or changed
        configuration in directory order, and remember the new table. */
    method LoadConfigs(newConfigs: Dict<string, AgentConfigData>) returns (actions: seq<Action>, ghost removed: seq<string>)
      requires newConfigs.Valid()
      modifies this
      ensures adapted == old(adapted)
      ensures configs == newConfigs.entries
      ensures forall p :: p in removed <==> p in old(configs) && p !in newConfigs.entries
      ensures forall i, j :: 0 <= i < j < |removed| ==> removed[i] != removed[j]
      ensures |removed| == |old(configs).Keys - newConfigs.entries.Keys|
      ensures actions == Unregisters(old(configs), removed) + Registers(old(configs), newConfigs.keys, newConfigs.entries)
    {
      ghost var gone := configs.Keys - newConfigs.entries.Keys;
      var left := configs.Keys - newConfigs.entries.Keys;
      actions := [];
      removed := [];
      while left != {}
        invariant adapted == old(adapted) && configs == old(configs)
        invariant gone == configs.Keys - newConfigs.entries.Keys
        invariant Removal(gone, removed, left)
        invariant forall p :: p in removed ==> p in configs
        invariant actions == Unregisters(configs, removed)
        decreases left
      {
        var p :| p in left;
        RemovalStep(gone, removed, left, p);
        assert (removed + [p])[..|removed|] == removed;
        actions := actions + [Unregister(configs[p].id)];
        removed := removed + [p];
        left := left - {p};
      }
      assert forall p :: p in removed <==> p in gone;
      assert |removed| == |gone|;
      var registered := RegisterChanged(newConfigs);
      actions := actions + registered;
      configs := newConfigs.entries;
    }

    /** The registration loop of `_load_configs`. */
    method RegisterChanged(newConfigs: Dict<string, AgentConfigData>) returns (actions: seq<Action>)
      requires newConfigs.Valid()
      ensures actions == Registers(configs, newConfigs.keys, newConfigs.entries)
    {
      actions := [];
      for i := 0 to |newConfigs.keys|
        invariant actions == Registers(configs, newConfigs.keys[..i], newConfigs.entries)
      {
        var keys := newConfigs.keys;
        assert keys[..i + 1][..i] == keys[..i];
        assert keys[..i + 1][i] == keys[i];
        var p := keys[i];
        if p !in configs || configs[p] != newConfigs.entries[p] {
          actions := actions + [Register(newConfigs.entries[p])];
        }
      }
      assert newConfigs.keys[..|newConfigs.keys|] == newConfigs.keys;
    }
  }

  /** `XaiboWebServer.__init__`: attach the adapters, then load the agent
      directory for the first time, registering every agent in it. A
      failing adapter lookup raises before any configuration is loaded. */
  method NewWebServer(adapters: seq<string>, imp: Importer, directory: Dict<string, AgentConfigData>)
    returns (server: XaiboWebServer, err: Option<WebError>, actions: seq<Action>)
    requires directory.Valid()
    ensures fresh(server)
    ensures var expected := AdapterClasses(adapters, imp);
      && (expected.Err? ==> err == Some(expected.error) && actions == [] && server.configs == map[])
      && (expected.Ok? ==>
            && err.None? && server.adapted == expected.value
            && server.configs == directory.entries
            && actions == Registers(map[], directory.keys, directory.entries))
  {
    server := new XaiboWebServer();
    err := server.AttachAdapters(adapters, imp);
    actions := [];
    if err.None? {
      ghost var removed;
      actions, removed := server.LoadConfigs(directory);
    }
  }

  /** The first load registers every agent of the directory, in order. */
  lemma {:induction false} FirstLoadRegistersAll(keys: seq<string>, entries: map<string, AgentConfigData>)
    requires forall p :: p in keys ==> p in entries
    ensures |Registers(map[], keys, entries)| == |keys|
    ensures forall i :: 0 <= i < |keys| ==> Registers(map[], keys, entries)[i] == Register(entries[keys[i]])
  {
    if keys != [] {
      var n := |keys| - 1;
      assert forall p :: p in keys[..n] ==> p in keys;
      FirstLoadRegistersAll(keys[..n], entries);
    }
  }

  lemma AfterNothing(r: Result<seq<nat>, WebError>)
    ensures After([], r) == r
  {
    if r.Ok? {
      assert [] + r.value == r.value;
    }
  }

  lemma AfterAll(found: seq<nat>)
    ensures After(found, Ok([])) == Ok(found)
  {
    assert found + [] == found;
  }

  /** One step of the adapter loop: a failing lookup ends the search with
      its error, a successful one moves its class into `found`. */
  lemma AdapterStep(adapters: seq<string>, i: nat, found: seq<nat>, imp: Importer)
    requires i < |adapters|
    ensures var cls := GetClassByPath(adapters[i], imp);
      && (cls.Err? ==> After(found, AdapterClasses(adapters[i..], imp)) == Err(cls.error))
      && (cls.Ok? ==> After(found, AdapterClasses(adapters[i..], imp))
                      == After(found + [cls.value], AdapterClasses(adapters[i + 1..], imp)))
  {
    assert adapters[i..][1..] == adapters[i + 1..];
    assert adapters[i..][0] == adapters[i];
    var rest := AdapterClasses(adapters[i + 1..], imp);
    var cls := GetClassByPath(adapters[i], imp);
    if cls.Ok? && rest.Ok? {
      assert found + ([cls.value] + rest.value) == (found + [cls.value]) + rest.value;
    }
  }
}
