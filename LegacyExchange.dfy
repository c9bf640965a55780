/** The older exchange of `xaibo/core/exchange.py`: two passes instead of a
    fixed point. The first pass builds every module without uses, the
    second every module with uses, each in declaration order; a provider
    that is not built yet when its consumer comes up fails the lookup.
    Dependency matching and entry selection are the same as in the newer
    exchange and use its definitions (`Exchange.ModuleDependencies`,
    `Exchange.EntryModule`). Overrides are keyed by parameter name and are
    injected as they are, not stored as instances. */
module LegacyExchange {
  import opened Basics
  import opened Values
  import opened OrderedDicts
  import Config
  import Exchange

  type ModuleConfig = Config.ModuleConfig
  type AgentConfigData = Config.AgentConfigData
  type TypeRef = Exchange.TypeRef
  type Error = Exchange.ExchangeError

  /** A module class: its `__init__` annotations in order, and the names in
      `__init__.__code__.co_varnames` (parameters and locals). */
  datatype LegacyClass = LegacyClass(path: string, params: seq<(string, TypeRef)>, varNames: seq<string>)

  /** What the exchange hands around: an override value as given, or
      `Proxy(module_class(**dependencies, config=...))`. */
  datatype Obj =
    | Given(token: nat)
    | Proxied(id: string, cls: LegacyClass, args: map<string, Obj>, config: Option<map<string, Value>>)

  /** Loading a class, `isinstance`, and the exception, if any, that
      calling a class with the given keyword arguments and `config`
      raises. */
  datatype LegacyRuntime = LegacyRuntime(
    load: string -> Option<LegacyClass>,
    isInstance: (Obj, TypeRef) -> bool,
    construct: (LegacyClass, map<string, Obj>, Option<map<string, Value>>) -> Option<string>)

  function LoadClass(rt: LegacyRuntime, path: string): (r: Result<LegacyClass, Error>)
    ensures r.Ok? <==> rt.load(path).Some?
    ensures r.Ok? ==> rt.load(path) == Some(r.value)
    ensures r.Err? ==> r.error == Exchange.ImportFailed(path)
  {
    var c := rt.load(path);
    if c.None? then Err(Exchange.ImportFailed(path)) else Ok(c.value)
  }

  /** `_filter_overrides`: the bindings whose name is a variable of the
      constructor. */
  function FilterOverrides(cls: LegacyClass, overrides: map<string, nat>): (r: map<string, Obj>)
    ensures forall k :: k in r <==> k in overrides && k in cls.varNames
    ensures forall k :: k in r ==> r[k] == Given(overrides[k])
  {
    map k | k in overrides && k in cls.varNames :: Given(overrides[k])
  }

  function NoUsesIds(mods: seq<ModuleConfig>): set<string>
  {
    set m | m in mods && !Config.UsesAny(m) :: m.id
  }

  function UsesIds(mods: seq<ModuleConfig>): set<string>
  {
    set m | m in mods && Config.UsesAny(m) :: m.id
  }

  /** The first pass (lines 11-16), continued from `acc`. */
  function FirstPass(mods: seq<ModuleConfig>, rt: LegacyRuntime, acc: Dict<string, Obj>): (r: Result<Dict<string, Obj>, Error>)
    requires acc.Valid()
    ensures r.Ok? ==> r.value.Valid()
  {
    if mods == [] then Ok(acc)
    else
      var m := mods[0];
      if !Config.UsesAny(m) then
        var cls :- LoadClass(rt, m.modulePath);
        var err := Exchange.CallError(m.id, cls, map[], m.config, rt.construct);
        if err.Some? then Err(err.value)
        else FirstPass(mods[1..], rt, acc.Put(m.id, Proxied(m.id, cls, map[], m.config)))
      else FirstPass(mods[1..], rt, acc)
  }

  /** Lines 21-28 for one module: its exchange dependencies, replaced by
      the overrides its constructor names, passed to the class together
      with `config=`. Since `co_varnames` lists the `config` parameter
      itself, an override bound to the name `config` always collides with
      that keyword. */
  function BuildWithUses(cfg: AgentConfigData, m: ModuleConfig, overrides: map<string, nat>, rt: LegacyRuntime,
                         instances: map<string, Obj>): (r: Result<Obj, Error>)
    ensures r.Ok? ==> r.value.Proxied? && r.value.id == m.id && r.value.config == m.config
    ensures r.Ok? ==> rt.load(m.modulePath) == Some(r.value.cls)
    ensures r.Ok? ==> forall k :: k in FilterOverrides(r.value.cls, overrides) ==>
                        k in r.value.args && r.value.args[k] == Given(overrides[k])
    ensures r.Ok? ==> "config" !in r.value.args && rt.construct(r.value.cls, r.value.args, m.config).None?
    ensures rt.load(m.modulePath).Some? && "config" in overrides && "config" in rt.load(m.modulePath).value.varNames ==> r.Err?
    ensures r.Err? && (r.error.DuplicateConfig? || r.error.ConstructorRaised?) ==> r.error.moduleId == m.id
  {
    var cls :- LoadClass(rt, m.modulePath);
    var exs :- Exchange.ExchangeList(cfg);
    var deps :- Exchange.ModuleDependencies(m.id, cls.params, exs, instances, rt.isInstance, map[]);
    var args := deps + FilterOverrides(cls, overrides);
    var err := Exchange.CallError(m.id, cls, args, m.config, rt.construct);
    if err.Some? then Err(err.value) else Ok(Proxied(m.id, cls, args, m.config))
  }

  /** The second pass (lines 19-28), continued from `acc`. */
  function SecondPass(mods: seq<ModuleConfig>, cfg: AgentConfigData, overrides: map<string, nat>, rt: LegacyRuntime,
                      acc: Dict<string, Obj>): (r: Result<Dict<string, Obj>, Error>)
    requires acc.Valid()
    ensures r.Ok? ==> r.value.Valid()
  {
    if mods == [] then Ok(acc)
    else
      var m := mods[0];
      if m.id !in acc.entries && Config.UsesAny(m) then
        var inst :- BuildWithUses(cfg, m, overrides, rt, acc.entries);
        SecondPass(mods[1..], cfg, overrides, rt, acc.Put(m.id, inst))
      else SecondPass(mods[1..], cfg, overrides, rt, acc)
  }

  /** `instantiate_modules`. */
  function Instantiate(cfg: AgentConfigData, overrides: map<string, nat>, rt: LegacyRuntime): Result<Dict<string, Obj>, Error>
  {
    var first :- FirstPass(cfg.modules, rt, Empty());
    var second :- SecondPass(cfg.modules, cfg, overrides, rt, first);
    var exs :- Exchange.ExchangeList(cfg);
    var entry :- Exchange.EntryModule(exs, second.entries, None);
    Ok(second.Put(Config.EntryId, entry))
  }

  /** `instantiate_modules`, pass by pass. */
  method InstantiateModules(cfg: AgentConfigData, overrides: map<string, nat>, rt: LegacyRuntime)
    returns (r: Result<Dict<string, Obj>, Error>)
    ensures r == Instantiate(cfg, overrides, rt)
  {
    var mods := cfg.modules;
    var instances: Dict<string, Obj> := Empty();
    for i := 0 to |mods|
      invariant instances.Valid()
      invariant FirstPass(mods[i..], rt, instances) == FirstPass(mods, rt, Empty())
    {
      var m := mods[i];
      assert mods[i..][1..] == mods[i + 1..];
      if !(m.uses.Some? && m.uses.value != []) {
        var loaded := rt.load(m.modulePath);
        if loaded.None? {
          return Err(Exchange.ImportFailed(m.modulePath));
        }
        var err := Exchange.CallError(m.id, loaded.value, map[], m.config, rt.construct);
        if err.Some? {
          return Err(err.value);
        }
        instances := instances.Put(m.id, Proxied(m.id, loaded.value, map[], m.config));
      }
    }
    assert mods[|mods|..] == [];
    ghost var first := instances;
    for i := 0 to |mods|
      invariant instances.Valid()
      invariant SecondPass(mods[i..], cfg, overrides, rt, instances) == SecondPass(mods, cfg, overrides, rt, first)
    {
      var m := mods[i];
      assert mods[i..][1..] == mods[i + 1..];
      if m.id !in instances.entries && m.uses.Some? && m.uses.value != [] {
        var inst := BuildWithUses(cfg, m, overrides, rt, instances.entries);
        if inst.Err? {
          return Err(inst.error);
        }
        instances := instances.Put(m.id, inst.value);
      }
    }
    assert mods[|mods|..] == [];
    if cfg.exchange.None? {
      return Err(Exchange.ExchangeListMissing);
    }
    var entry := GetEntryModule(cfg.exchange.value, instances.entries);
    if entry.Err? {
      return Err(entry.error);
    }
    return Ok(instances.Put(Config.EntryId, entry.value));
  }

  /** `_get_entry_module`. */
  method GetEntryModule(exs: seq<Config.ExchangeConfig>, instances: map<string, Obj>) returns (r: Result<Obj, Error>)
    ensures r == Exchange.EntryModule(exs, instances, None)
  {
    var found: Option<Obj> := None;
    for j := 0 to |exs|
      invariant Exchange.EntryModule(exs[j..], instances, found) == Exchange.EntryModule(exs, instances, None)
    {
      assert exs[j..][1..] == exs[j + 1..];
      if exs[j].moduleId == Config.EntryId {
        if found.Some? {
          return Err(Exchange.MultipleEntries);
        }
        if exs[j].provider !in instances {
          return Err(Exchange.MissingKey(exs[j].provider));
        }
        found := Some(instances[exs[j].provider]);
      }
    }
    assert exs[|exs|..] == [];
    if found.None? {
      return Err(Exchange.NoEntry);
    }
    return Ok(found.value);
  }

  // ---------------------------------------------------------------------
  // Properties
  // ---------------------------------------------------------------------

  /** The first pass succeeds exactly when every module without uses can be
      imported and constructed with its config alone, and then adds
      exactly those modules, without dependencies. */
  lemma {:induction false} FirstPassSpec(mods: seq<ModuleConfig>, rt: LegacyRuntime, acc: Dict<string, Obj>)
    requires acc.Valid()
    ensures var r := FirstPass(mods, rt, acc);
      && (r.Ok? <==> forall m :: m in mods && !Config.UsesAny(m) ==>
                       rt.load(m.modulePath).Some? && rt.construct(rt.load(m.modulePath).value, map[], m.config).None?)
      && (r.Ok? ==> r.value.entries.Keys == acc.entries.Keys + NoUsesIds(mods))
      && (r.Ok? ==> forall k :: k in NoUsesIds(mods) ==>
                      r.value.entries[k].Proxied? && r.value.entries[k].id == k && r.value.entries[k].args == map[])
      && (r.Ok? ==> forall k :: k in acc.entries && k !in NoUsesIds(mods) ==> r.value.entries[k] == acc.entries[k])
    decreases |mods|
  {
    if mods != [] {
      var m := mods[0];
      var rest := mods[1..];
      assert forall x :: x in mods <==> x == m || x in rest;
      assert NoUsesIds(mods) == (if Config.UsesAny(m) then {} else {m.id}) + NoUsesIds(rest);
      if !Config.UsesAny(m) {
        var cls := rt.load(m.modulePath);
        if cls.Some? && rt.construct(cls.value, map[], m.config).None? {
          FirstPassSpec(rest, rt, acc.Put(m.id, Proxied(m.id, cls.value, map[], m.config)));
        }
      } else {
        FirstPassSpec(rest, rt, acc);
      }
    }
  }

  lemma UsesIdsCons(mods: seq<ModuleConfig>)
    requires mods != []
    ensures UsesIds(mods) == (if Config.UsesAny(mods[0]) then {mods[0].id} else {}) + UsesIds(mods[1..])
  {
    assert forall x :: x in mods <==> x == mods[0] || x in mods[1..];
  }

  /** The second pass builds every module with uses that is not built yet,
      once, and never replaces an instance already there. */
  lemma SecondPassSpec(mods: seq<ModuleConfig>, cfg: AgentConfigData, overrides: map<string, nat>,
                       rt: LegacyRuntime, acc: Dict<string, Obj>)
    requires acc.Valid()
    ensures var r := SecondPass(mods, cfg, overrides, rt, acc);
      && (r.Ok? ==> r.value.entries.Keys == acc.entries.Keys + UsesIds(mods))
      && (r.Ok? ==> forall k :: k in acc.entries ==> r.value.entries[k] == acc.entries[k])
      && (r.Ok? ==> forall k :: k in UsesIds(mods) && k !in acc.entries ==> r.value.entries[k].Proxied? && r.value.entries[k].id == k)
  {
    SecondPassKeys(mods, cfg, overrides, rt, acc);
    forall k | k in acc.entries
      ensures var r := SecondPass(mods, cfg, overrides, rt, acc);
        r.Ok? ==> k in r.value.entries && r.value.entries[k] == acc.entries[k]
    {
      SecondPassKeeps(mods, cfg, overrides, rt, acc, k);
    }
    forall k | k in UsesIds(mods) && k !in acc.entries
      ensures var r := SecondPass(mods, cfg, overrides, rt, acc);
        r.Ok? ==> k in r.value.entries && r.value.entries[k].Proxied? && r.value.entries[k].id == k
    {
      SecondPassBuilds(mods, cfg, overrides, rt, acc, k);
    }
  }

  lemma {:induction false} SecondPassKeys(mods: seq<ModuleConfig>, cfg: AgentConfigData, overrides: map<string, nat>,
                                          rt: LegacyRuntime, acc: Dict<string, Obj>)
    requires acc.Valid()
    ensures var r := SecondPass(mods, cfg, overrides, rt, acc);
      r.Ok? ==> r.value.entries.Keys == acc.entries.Keys + UsesIds(mods)
    decreases |mods|
  {
    if mods != [] {
      var m := mods[0];
      var rest := mods[1..];
      UsesIdsCons(mods);
      if m.id !in acc.entries && Config.UsesAny(m) {
        var inst := BuildWithUses(cfg, m, overrides, rt, acc.entries);
        if inst.Ok? {
          var acc' := acc.Put(m.id, inst.value);
          assert SecondPass(mods, cfg, overrides, rt, acc) == SecondPass(rest, cfg, overrides, rt, acc');
          assert acc'.entries.Keys == acc.entries.Keys + {m.id};
          SecondPassKeys(rest, cfg, overrides, rt, acc');
        }
      } else {
        assert SecondPass(mods, cfg, overrides, rt, acc) == SecondPass(rest, cfg, overrides, rt, acc);
        SecondPassKeys(rest, cfg, overrides, rt, acc);
      }
    }
  }

  lemma {:induction false} SecondPassKeeps(mods: seq<ModuleConfig>, cfg: AgentConfigData, overrides: map<string, nat>,
                                           rt: LegacyRuntime, acc: Dict<string, Obj>, k: string)
    requires acc.Valid() && k in acc.entries
    ensures var r := SecondPass(mods, cfg, overrides, rt, acc);
      r.Ok? ==> k in r.value.entries && r.value.entries[k] == acc.entries[k]
    decreases |mods|
  {
    if mods != [] {
      var m := mods[0];
      var rest := mods[1..];
      if m.id !in acc.entries && Config.UsesAny(m) {
        var inst := BuildWithUses(cfg, m, overrides, rt, acc.entries);
        if inst.Ok? {
          var acc' := acc.Put(m.id, inst.value);
          assert SecondPass(mods, cfg, overrides, rt, acc) == SecondPass(rest, cfg, overrides, rt, acc');
          SecondPassKeeps(rest, cfg, overrides, rt, acc', k);
        }
      } else {
        assert SecondPass(mods, cfg, overrides, rt, acc) == SecondPass(rest, cfg, overrides, rt, acc);
        SecondPassKeeps(rest, cfg, overrides, rt, acc, k);
      }
    }
  }

  lemma {:induction false} SecondPassBuilds(mods: seq<ModuleConfig>, cfg: AgentConfigData, overrides: map<string, nat>,
                                            rt: LegacyRuntime, acc: Dict<string, Obj>, k: string)
    requires acc.Valid() && k in UsesIds(mods) && k !in acc.entries
    ensures var r := SecondPass(mods, cfg, overrides, rt, acc);
      r.Ok? ==> k in r.value.entries && r.value.entries[k].Proxied? && r.value.entries[k].id == k
    decreases |mods|
  {
    var m := mods[0];
    var rest := mods[1..];
    UsesIdsCons(mods);
    if m.id !in acc.entries && Config.UsesAny(m) {
      var inst := BuildWithUses(cfg, m, overrides, rt, acc.entries);
      if inst.Ok? {
        var acc' := acc.Put(m.id, inst.value);
        assert SecondPass(mods, cfg, overrides, rt, acc) == SecondPass(rest, cfg, overrides, rt, acc');
        if k == m.id {
          SecondPassKeeps(rest, cfg, overrides, rt, acc', k);
        } else {
          SecondPassBuilds(rest, cfg, overrides, rt, acc', k);
        }
      }
    } else {
      assert SecondPass(mods, cfg, overrides, rt, acc) == SecondPass(rest, cfg, overrides, rt, acc);
      SecondPassBuilds(rest, cfg, overrides, rt, acc, k);
    }
  }

  /** When the module that comes up first in the second pass consumes a
      provider that the first pass did not build, the second pass fails on
      the lookup of that provider, even if the provider is declared later. */
  lemma SecondPassNeedsDeclarationOrder(mods: seq<ModuleConfig>, cfg: AgentConfigData, overrides: map<string, nat>,
                                        rt: LegacyRuntime, acc: Dict<string, Obj>, e: Config.ExchangeConfig)
    requires acc.Valid() && mods != [] && mods[0].id !in acc.entries && Config.UsesAny(mods[0])
    requires rt.load(mods[0].modulePath).Some? && rt.load(mods[0].modulePath).value.params != []
    requires cfg.exchange.Some? && e in cfg.exchange.value && e.moduleId == mods[0].id && e.provider !in acc.entries
    requires forall x :: x in cfg.exchange.value && x.moduleId == mods[0].id ==> x.provider in acc.entries || x == e
    requires forall x :: x in cfg.exchange.value && x.moduleId == mods[0].id && x.provider in acc.entries ==>
               |Exchange.Matching(rt.load(mods[0].modulePath).value.params, acc.entries[x.provider], rt.isInstance)| == 1
    ensures SecondPass(mods, cfg, overrides, rt, acc) == Err(Exchange.MissingKey(e.provider))
  {
    var cls := rt.load(mods[0].modulePath).value;
    FirstMissing(mods[0].id, cls.params, cfg.exchange.value, acc.entries, rt.isInstance, map[], e);
  }

  /** Dependency resolution stops at the first consumed exchange that fails;
      with every other exchange resolvable and this provider missing, that
      is the missing lookup. */
  lemma {:induction false} FirstMissing(id: string, params: seq<(string, TypeRef)>, exs: seq<Config.ExchangeConfig>,
                                        instances: map<string, Obj>, isInstance: (Obj, TypeRef) -> bool,
                                        deps: map<string, Obj>, e: Config.ExchangeConfig)
    requires params != [] && e in exs && e.moduleId == id && e.provider !in instances
    requires forall x :: x in exs && x.moduleId == id ==> x.provider in instances || x == e
    requires forall x :: x in exs && x.moduleId == id && x.provider in instances ==> |Exchange.Matching(params, instances[x.provider], isInstance)| == 1
    ensures Exchange.ModuleDependencies(id, params, exs, instances, isInstance, deps) == Err(Exchange.MissingKey(e.provider))
  {
    var x := exs[0];
    if x != e {
      assert forall y :: y in exs[1..] ==> y in exs;
      if x.moduleId == id {
        var ms := Exchange.Matching(params, instances[x.provider], isInstance);
        FirstMissing(id, params, exs[1..], instances, isInstance, deps[ms[0] := instances[x.provider]], e);
      } else {
        FirstMissing(id, params, exs[1..], instances, isInstance, deps, e);
      }
    }
  }

  // ---------------------------------------------------------------------
  // Proxies
  // ---------------------------------------------------------------------

  /** What a legacy proxy forwards: a plain value, or a method wrapped in a
      `MethodProxy` bound to its parent. */
  datatype Forwarded = Plain(v: Value) | Wrapped(methodName: string, parent: Obj)

  /** `Proxy.__getattr__`: a missing attribute is an error, a plain one is
      returned unchanged, a callable one is wrapped with the object. */
  function GetAttr(obj: Obj, name: string, attribute: (Obj, string) -> Option<Exchange.Attr>): (r: Result<Forwarded, Error>)
    ensures r.Err? <==> attribute(obj, name).None?
    ensures r.Ok? && r.value.Plain? ==> attribute(obj, name) == Some(Exchange.DataAttr(r.value.v))
    ensures r.Ok? && r.value.Wrapped? ==> attribute(obj, name) == Some(Exchange.CallableAttr(r.value.methodName)) && r.value.parent == obj
  {
    match attribute(obj, name)
    case None => Err(Exchange.NoAttribute(name))
    case Some(a) => Ok(Forward(obj, a))
  }

  /** `MethodProxy.__call__` on what the method returned: a callable result
      is wrapped again with the same parent, anything else is returned
      unchanged. */
  function Forward(parent: Obj, result: Exchange.Attr): (r: Forwarded)
    ensures result.DataAttr? <==> r.Plain?
    ensures r.Plain? ==> r.v == result.value
    ensures r.Wrapped? ==> r.methodName == result.methodName && r.parent == parent
  {
    match result
    case DataAttr(v) => Plain(v)
    case CallableAttr(n) => Wrapped(n, parent)
  }
}
