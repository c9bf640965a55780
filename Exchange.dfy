/** The exchange of `src/xaibo/core/exchange.py`: it instantiates the
    modules of an agent configuration in dependency order, injects each
    module's dependencies as proxies, and instruments every method call on
    a proxy with CALL/RESULT/EXCEPTION events.

    Reflection is a `Runtime` record of oracles: loading a class from its
    dotted path (with its constructor annotations), `isinstance`, the class
    of an object, attribute lookup, and whether a constructor raises. A
    module the exchange builds is recorded by its class, the injected
    arguments and the config it was given. */
module Exchange {
  import opened Basics
  import opened Values
  import opened OrderedDicts
  import Config
  import Strings

  type ModuleConfig = Config.ModuleConfig
  type ExchangeConfig = Config.ExchangeConfig
  type AgentConfigData = Config.AgentConfigData

  /** A Python type: its `__module__` and `__name__`. */
  datatype TypeRef = TypeRef(package: string, name: string)

  /** A module class: its package, name, and constructor annotations
      (parameter name and annotated type, in declaration order). */
  datatype ClassInfo = ClassInfo(package: string, name: string, params: seq<(string, TypeRef)>)

  /** An override binding key: a type, or a type name. */
  datatype OverrideKey = ByType(t: TypeRef) | ByName(name: string)

  /** An event listener: a name prefix and an opaque handler. */
  datatype Listener = Listener(prefix: string, handler: nat)

  /** A module instance: an object supplied as an override value, or a module
      the exchange built from its class, keyword arguments and config. */
  datatype Instance =
    | Supplied(token: nat)
    | Built(id: string, cls: ClassInfo, args: map<string, Proxy>, config: Option<map<string, Value>>)

  /** `Proxy(obj, event_listeners, agent_id, caller_id, module_id)`. */
  datatype Proxy = Proxy(target: Instance, listeners: seq<Listener>, agentId: string, callerId: string, moduleId: string)
  {
    /** `__getattr__`: a missing attribute is an error, a plain attribute is
        returned as it is, and a method comes back wrapped for
        instrumentation with this proxy's listeners and ids. */
    function GetAttr(name: string, refl: Reflection): (r: Result<Attribute, ExchangeError>)
      ensures r.Err? <==> refl.attribute(target, name).None?
      ensures r.Err? ==> r.error == NoAttribute(name)
      ensures r.Ok? && r.value.Plain? ==> refl.attribute(target, name) == Some(DataAttr(r.value.v))
      ensures r.Ok? && r.value.Method? ==>
        && refl.attribute(target, name) == Some(CallableAttr(r.value.m.methodName))
        && r.value.m.moduleClass == refl.classOf(target) && r.value.m.listeners == listeners
        && r.value.m.agentId == agentId && r.value.m.callerId == callerId && r.value.m.moduleId == moduleId
    {
      match refl.attribute(target, name)
      case None => Err(NoAttribute(name))
      case Some(DataAttr(v)) => Ok(Plain(v))
      case Some(CallableAttr(m)) => Ok(Method(MethodSpec(m, refl.classOf(target), listeners, agentId, callerId, moduleId)))
    }
  }

  /** What `getattr` finds on an object: a bound method (by its
      `__name__`) or a plain value. */
  datatype Attr = CallableAttr(methodName: string) | DataAttr(value: Value)

  /** The reflection a proxy needs: the class of an object and its
      attributes. */
  datatype Reflection = Reflection(classOf: Instance -> TypeRef, attribute: (Instance, string) -> Option<Attr>)

  /** What `MethodProxy(method, parent, event_listeners, agent_id,
      caller_id, module_id)` is built from. */
  datatype MethodSpec = MethodSpec(methodName: string, moduleClass: TypeRef, listeners: seq<Listener>,
                                   agentId: string, callerId: string, moduleId: string)

  /** The result of `Proxy.__getattr__`. */
  datatype Attribute = Plain(v: Value) | Method(m: MethodSpec)

  /** Reflection for instantiation: loading a class by dotted path,
      `isinstance`, and the exception, if any, that calling a class with
      the given keyword arguments and `config` raises. */
  datatype Runtime = Runtime(
    load: string -> Option<ClassInfo>,
    isInstance: (Instance, TypeRef) -> bool,
    construct: (ClassInfo, map<string, Proxy>, Option<map<string, Value>>) -> Option<string>)

  /** The errors `_instantiate_modules` lets escape. */
  datatype ExchangeError =
    | ImportFailed(path: string)
    | ExchangeListMissing
    | MissingKey(key: string)
    | UnknownInstance
    | MultipleParameters(protocol: string, moduleId: string)
    | NoParameter(protocol: string, provider: string, moduleId: string)
    | Circular(remaining: set<string>)
    | MultipleEntries
    | NoEntry
    | NoAttribute(attr: string)
    | DuplicateConfig(moduleId: string)
    | ConstructorRaised(moduleId: string, exception: string)

  /** What the instantiation needs besides the module instances. */
  datatype Setup = Setup(cfg: AgentConfigData, overrides: map<OverrideKey, string>, listeners: seq<Listener>, rt: Runtime)

  // ---------------------------------------------------------------------
  // Specification of instantiation
  // ---------------------------------------------------------------------

  /** `f"override_{idx}"`. */
  function OverrideId(idx: nat): string
  {
    "override_" + Strings.NatToString(idx)
  }

  lemma OverrideIdInjective(a: nat, b: nat)
    requires OverrideId(a) == OverrideId(b)
    ensures a == b
  {
    var pre := "override_";
    assert OverrideId(a)[|pre|..] == Strings.NatToString(a);
    assert OverrideId(b)[|pre|..] == Strings.NatToString(b);
    Strings.NatToStringInjective(a, b);
  }

  /** The instances the override loop of lines 121-125 stores for the
      given bindings: each value under `override_{idx}`. */
  function OverrideInstances(keys: seq<OverrideKey>, values: map<OverrideKey, nat>): (d: Dict<string, Instance>)
    requires forall k :: k in keys ==> k in values
    ensures d.Valid()
  {
    if keys == [] then Empty()
    else OverrideInstances(keys[..|keys| - 1], values).Put(OverrideId(|keys| - 1), Supplied(values[keys[|keys| - 1]]))
  }

  /** The override table the same loop leaves: each key mapped to the id its
      value is stored under. */
  function OverrideTable(keys: seq<OverrideKey>, overrides: map<OverrideKey, string>): map<OverrideKey, string>
  {
    if keys == [] then overrides
    else OverrideTable(keys[..|keys| - 1], overrides)[keys[|keys| - 1] := OverrideId(|keys| - 1)]
  }

  lemma OverrideStep(keys: seq<OverrideKey>, values: map<OverrideKey, nat>, overrides: map<OverrideKey, string>, idx: nat)
    requires idx < |keys|
    requires forall k :: k in keys ==> k in values
    ensures OverrideInstances(keys[..idx + 1], values)
      == OverrideInstances(keys[..idx], values).Put(OverrideId(idx), Supplied(values[keys[idx]]))
    ensures OverrideTable(keys[..idx + 1], overrides) == OverrideTable(keys[..idx], overrides)[keys[idx] := OverrideId(idx)]
  {
    assert keys[..idx + 1][..idx] == keys[..idx];
  }

  /** Iterating `self.config.exchange`, which fails when it is `None`. */
  function ExchangeList(cfg: AgentConfigData): Result<seq<ExchangeConfig>, ExchangeError>
  {
    if cfg.exchange.None? then Err(ExchangeListMissing) else Ok(cfg.exchange.value)
  }

  /** Lines 142-153: a module without uses is ready at once; one with uses
      is ready when every provider its exchanges name is instantiated. */
  function Ready(m: ModuleConfig, cfg: AgentConfigData, instances: map<string, Instance>): Result<bool, ExchangeError>
  {
    if !Config.UsesAny(m) then Ok(true)
    else
      var exs :- ExchangeList(cfg);
      Ok(forall e :: e in exs && e.moduleId == m.id ==> e.provider in instances)
  }

  /** The parameters whose annotation the instance satisfies. */
  function Matching<T>(params: seq<(string, TypeRef)>, v: T, isInstance: (T, TypeRef) -> bool): (r: seq<string>)
    ensures forall x :: x in r <==> exists i :: 0 <= i < |params| && params[i].0 == x && isInstance(v, params[i].1)
  {
    if params == [] then []
    else
      var rest := Matching(params[1..], v, isInstance);
      assert forall i :: 0 < i < |params| ==> params[i] == params[1..][i - 1];
      if isInstance(v, params[0].1) then [params[0].0] + rest else rest
  }

  /** `_get_module_dependencies`, continued from the bindings `deps` made
      so far. */
  function ModuleDependencies<T>(id: string, params: seq<(string, TypeRef)>, exs: seq<ExchangeConfig>, instances: map<string, T>,
                                 isInstance: (T, TypeRef) -> bool, deps: map<string, T>): (r: Result<map<string, T>, ExchangeError>)
    ensures r.Err? ==> r.error.MissingKey? || r.error.NoParameter? || r.error.MultipleParameters?
  {
    if exs == [] then Ok(deps)
    else
      var e := exs[0];
      if e.moduleId != id then ModuleDependencies(id, params, exs[1..], instances, isInstance, deps)
      else if params == [] then Err(NoParameter(e.protocol, e.provider, id))
      else if e.provider !in instances then Err(MissingKey(e.provider))
      else
        var ms := Matching(params, instances[e.provider], isInstance);
        if |ms| > 1 then Err(MultipleParameters(e.protocol, id))
        else if |ms| == 0 then Err(NoParameter(e.protocol, e.provider, id))
        else ModuleDependencies(id, params, exs[1..], instances, isInstance, deps[ms[0] := instances[e.provider]])
  }

  /** `_get_overrides_by_type`, continued from the bindings `deps` made so
      far: a parameter is bound to the override of its annotated type, or
      failing that to the override of the type's name. */
  function OverridesByType(params: seq<(string, TypeRef)>, overrides: map<OverrideKey, string>,
                           instances: map<string, Instance>, deps: map<string, Instance>): (r: Result<map<string, Instance>, ExchangeError>)
    ensures r.Err? ==> r.error.MissingKey?
  {
    if params == [] then Ok(deps)
    else
      var (name, t) := params[0];
      if ByType(t) in overrides then
        var key := overrides[ByType(t)];
        if key !in instances then Err(MissingKey(key))
        else OverridesByType(params[1..], overrides, instances, deps[name := instances[key]])
      else if ByName(t.name) in overrides then
        var key := overrides[ByName(t.name)];
        if key !in instances then Err(MissingKey(key))
        else OverridesByType(params[1..], overrides, instances, deps[name := instances[key]])
      else OverridesByType(params[1..], overrides, instances, deps)
  }

  /** `{module: key for (key, module) in module_instances.items()}[v]`: the
      last key, in insertion order, whose instance is `v`. */
  function KeyOf(keys: seq<string>, entries: map<string, Instance>, v: Instance): (r: Option<string>)
    ensures r.Some? ==> r.value in keys && r.value in entries && entries[r.value] == v
  {
    if keys == [] then None
    else
      var k := keys[|keys| - 1];
      if k in entries && entries[k] == v then Some(k) else KeyOf(keys[..|keys| - 1], entries, v)
  }

  /** `_get_proxied_dependencies`: each dependency wrapped in a proxy that
      names the agent, the consuming module and the module the instance is
      stored under. */
  function Proxied(deps: map<string, Instance>, instances: Dict<string, Instance>, s: Setup, callerId: string)
    : Result<map<string, Proxy>, ExchangeError>
  {
    if exists k :: k in deps && KeyOf(instances.keys, instances.entries, deps[k]).None? then Err(UnknownInstance)
    else Ok(map k | k in deps :: Proxy(deps[k], s.listeners, s.cfg.id, callerId, KeyOf(instances.keys, instances.entries, deps[k]).value))
  }

  function LoadClass(rt: Runtime, path: string): Result<ClassInfo, ExchangeError>
  {
    var c := rt.load(path);
    if c.None? then Err(ImportFailed(path)) else Ok(c.value)
  }

  /** The call `module_class(**args, config=...)`: an argument named
      `config` collides with the explicit keyword (a `TypeError`), and
      otherwise the constructor may raise. Shared with the older exchange,
      whose classes and arguments have other types. */
  function CallError<C, A>(id: string, cls: C, args: map<string, A>, config: Option<map<string, Value>>,
                           construct: (C, map<string, A>, Option<map<string, Value>>) -> Option<string>): (r: Option<ExchangeError>)
    ensures r.None? <==> "config" !in args && construct(cls, args, config).None?
    ensures r.Some? ==> r.value.DuplicateConfig? || r.value.ConstructorRaised?
    ensures r.Some? ==> r.value.moduleId == id
    ensures r.Some? && r.value.DuplicateConfig? <==> "config" in args
  {
    if "config" in args then Some(DuplicateConfig(id))
    else match construct(cls, args, config)
      case Some(e) => Some(ConstructorRaised(id, e))
      case None => None
  }

  /** Lines 155-168: a module with uses gets its exchange dependencies,
      overridden by type, as proxies; every module gets its config; then
      the class is called. */
  function Build(m: ModuleConfig, s: Setup, instances: Dict<string, Instance>): (r: Result<Instance, ExchangeError>)
    ensures r.Ok? ==> r.value.Built? && r.value.id == m.id && r.value.config == m.config
    ensures r.Ok? ==> s.rt.load(m.modulePath) == Some(r.value.cls)
    ensures r.Ok? ==> "config" !in r.value.args && s.rt.construct(r.value.cls, r.value.args, m.config).None?
    ensures r.Ok? && !Config.UsesAny(m) ==> r.value.args == map[]
    ensures s.rt.load(m.modulePath).Some? && !Config.UsesAny(m) ==>
      (r.Err? <==> s.rt.construct(s.rt.load(m.modulePath).value, map[], m.config).Some?)
    ensures r.Err? && r.error.ConstructorRaised? ==> r.error.moduleId == m.id
    ensures r.Err? && r.error.DuplicateConfig? ==> Config.UsesAny(m) && r.error.moduleId == m.id
    ensures r.Err? ==> !r.error.Circular? && !r.error.MultipleEntries? && !r.error.NoEntry?
  {
    var cls :- LoadClass(s.rt, m.modulePath);
    var args :-
      if Config.UsesAny(m) then
        var exs :- ExchangeList(s.cfg);
        var deps :- ModuleDependencies(m.id, cls.params, exs, instances.entries, s.rt.isInstance, map[]);
        var byType :- OverridesByType(cls.params, s.overrides, instances.entries, map[]);
        Proxied(deps + byType, instances, s, m.id)
      else Ok(map[]);
    var err := CallError(m.id, cls, args, m.config, s.rt.construct);
    if err.Some? then Err(err.value) else Ok(Built(m.id, cls, args, m.config))
  }

  /** The state of the fixed-point loop: the instances, the ids still to
      build, whether the current pass built anything, and the module
      entries built so far, in order. */
  datatype Sched = Sched(instances: Dict<string, Instance>, remaining: set<string>, progress: bool, built: seq<ModuleConfig>)

  /** One pass of the `for` loop of lines 137-171 over `mods`. */
  function Pass(mods: seq<ModuleConfig>, s: Setup, st: Sched): (r: Result<Sched, ExchangeError>)
    requires st.instances.Valid()
    ensures r.Ok? ==> r.value.instances.Valid() && r.value.remaining <= st.remaining
    ensures r.Ok? ==> (r.value.progress <==> st.progress || r.value.remaining < st.remaining)
    ensures r.Err? ==> !r.error.Circular? && !r.error.MultipleEntries? && !r.error.NoEntry?
    decreases |mods|
  {
    if mods == [] then Ok(st)
    else
      var m := mods[0];
      if m.id !in st.remaining then Pass(mods[1..], s, st)
      else
        var ready :- Ready(m, s.cfg, st.instances.entries);
        if !ready then Pass(mods[1..], s, st)
        else
          var inst :- Build(m, s, st.instances);
          Pass(mods[1..], s, Sched(st.instances.Put(m.id, inst), st.remaining - {m.id}, true, st.built + [m]))
  }

  /** The `while remaining_modules` loop of lines 133-175. */
  function Run(mods: seq<ModuleConfig>, s: Setup, st: Sched): (r: Result<Sched, ExchangeError>)
    requires st.instances.Valid()
    ensures r.Ok? ==> r.value.instances.Valid() && r.value.remaining == {}
    decreases st.remaining
  {
    if st.remaining == {} then Ok(st)
    else
      var r :- Pass(mods, s, st.(progress := false));
      if !r.progress then Err(Circular(r.remaining))
      else Run(mods, s, r)
  }

  /** `_get_entry_module`, continued after `found`. */
  function EntryModule<T>(exs: seq<ExchangeConfig>, instances: map<string, T>, found: Option<T>): Result<T, ExchangeError>
  {
    if exs == [] then (if found.None? then Err(NoEntry) else Ok(found.value))
    else
      var e := exs[0];
      if e.moduleId != Config.EntryId then EntryModule(exs[1..], instances, found)
      else if found.Some? then Err(MultipleEntries)
      else if e.provider !in instances then Err(MissingKey(e.provider))
      else EntryModule(exs[1..], instances, Some(instances[e.provider]))
  }

  function ModuleIds(mods: seq<ModuleConfig>): set<string>
  {
    set m | m in mods :: m.id
  }

  /** `_instantiate_modules` as a whole. */
  function Instantiate(cfg: AgentConfigData, bindings: Dict<OverrideKey, nat>, overrides: map<OverrideKey, string>,
                       listeners: seq<Listener>, rt: Runtime): Result<Sched, ExchangeError>
    requires bindings.Valid()
  {
    var seeded := OverrideInstances(bindings.keys, bindings.entries);
    var o := OverrideTable(bindings.keys, overrides);
    var st :- Run(cfg.modules, Setup(cfg, o, listeners, rt), Sched(seeded, ModuleIds(cfg.modules), false, []));
    var exs :- ExchangeList(cfg);
    var entry :- EntryModule(exs, st.instances.entries, None);
    Ok(st.(instances := st.instances.Put(Config.EntryId, entry)))
  }

  // ---------------------------------------------------------------------
  // Properties of instantiation
  // ---------------------------------------------------------------------

  /** The instance ids the override loop creates for `n` bindings. */
  ghost function OverrideIds(n: nat): set<string>
  {
    set i | 0 <= i < n :: OverrideId(i)
  }

  /** The override loop names the stored instances `override_0`,
      `override_1`, ... in binding order. */
  lemma {:induction false} OverrideInstancesKeys(keys: seq<OverrideKey>, values: map<OverrideKey, nat>)
    requires forall k :: k in keys ==> k in values
    ensures var d := OverrideInstances(keys, values);
      |d.keys| == |keys| && (forall i :: 0 <= i < |keys| ==> d.keys[i] == OverrideId(i))
  {
    if keys != [] {
      var n := |keys| - 1;
      var init := keys[..n];
      assert forall k :: k in init ==> k in keys;
      OverrideInstancesKeys(init, values);
      var d := OverrideInstances(init, values);
      var oid := OverrideId(n);
      assert OverrideInstances(keys, values) == d.Put(oid, Supplied(values[keys[n]]));
      FreshOverrideId(d.keys, n);
      assert d.Put(oid, Supplied(values[keys[n]])).keys == d.keys + [oid];
    }
  }

  lemma FreshOverrideId(ids: seq<string>, n: nat)
    requires |ids| == n && forall i :: 0 <= i < n ==> ids[i] == OverrideId(i)
    ensures OverrideId(n) !in ids
  {
    if OverrideId(n) in ids {
      var i :| 0 <= i < n && ids[i] == OverrideId(n);
      OverrideIdInjective(i, n);
    }
  }

  /** So the instance table holds exactly the override ids. */
  lemma OverrideInstancesIds(keys: seq<OverrideKey>, values: map<OverrideKey, nat>)
    requires forall k :: k in keys ==> k in values
    ensures OverrideInstances(keys, values).entries.Keys == OverrideIds(|keys|)
  {
    OverrideInstancesKeys(keys, values);
    var d := OverrideInstances(keys, values);
    forall x | x in d.entries
      ensures x in OverrideIds(|keys|)
    {
      var i :| 0 <= i < |d.keys| && d.keys[i] == x;
    }
    forall i | 0 <= i < |keys|
      ensures OverrideId(i) in d.entries
    {
      assert d.keys[i] == OverrideId(i);
    }
  }

  /** The `idx`-th binding value is stored under `override_{idx}`. */
  lemma {:induction false} OverrideInstancesAt(keys: seq<OverrideKey>, values: map<OverrideKey, nat>, i: nat)
    requires forall k :: k in keys ==> k in values
    requires i < |keys|
    ensures OverrideId(i) in OverrideInstances(keys, values).entries
    ensures OverrideInstances(keys, values).entries[OverrideId(i)] == Supplied(values[keys[i]])
  {
    var n := |keys| - 1;
    if i < n {
      var init := keys[..n];
      assert forall k :: k in init ==> k in keys;
      OverrideInstancesAt(init, values, i);
      if OverrideId(i) == OverrideId(n) {
        OverrideIdInjective(i, n);
      }
    }
  }

  /** The override table gains exactly the binding keys. */
  lemma {:induction false} OverrideTableKeys(keys: seq<OverrideKey>, overrides: map<OverrideKey, string>)
    ensures OverrideTable(keys, overrides).Keys == overrides.Keys + (set k | k in keys)
  {
    if keys != [] {
      var n := |keys| - 1;
      var init := keys[..n];
      OverrideTableKeys(init, overrides);
      assert keys == init + [keys[n]];
      assert (set k | k in keys) == (set k | k in init) + {keys[n]};
    }
  }

  /** Each binding key is mapped to the id of its stored value. */
  lemma {:induction false} OverrideTableAt(keys: seq<OverrideKey>, overrides: map<OverrideKey, string>, i: nat)
    requires forall a, b :: 0 <= a < b < |keys| ==> keys[a] != keys[b]
    requires i < |keys|
    ensures keys[i] in OverrideTable(keys, overrides) && OverrideTable(keys, overrides)[keys[i]] == OverrideId(i)
  {
    var n := |keys| - 1;
    if i < n {
      var init := keys[..n];
      assert init[i] == keys[i] && keys[n] != keys[i];
      OverrideTableAt(init, overrides, i);
    }
  }

  /** An override key that is not rebound keeps its target. */
  lemma {:induction false} OverrideTableKeeps(keys: seq<OverrideKey>, overrides: map<OverrideKey, string>, k: OverrideKey)
    requires k in overrides && k !in keys
    ensures k in OverrideTable(keys, overrides) && OverrideTable(keys, overrides)[k] == overrides[k]
  {
    if keys != [] {
      var n := |keys| - 1;
      assert keys == keys[..n] + [keys[n]];
      OverrideTableKeeps(keys[..n], overrides, k);
    }
  }

  /** The override a parameter annotated with `t` is bound to: the one keyed
      by the type itself, or else the one keyed by the type's name. */
  function OverrideTarget(t: TypeRef, overrides: map<OverrideKey, string>): Option<string>
  {
    if ByType(t) in overrides then Some(overrides[ByType(t)])
    else if ByName(t.name) in overrides then Some(overrides[ByName(t.name)])
    else None
  }

  /** Override resolution succeeds exactly when every bound override is
      instantiated, and then binds each overridden parameter, and only
      those, to its override. */
  lemma {:induction false} OverridesByTypeSpec(params: seq<(string, TypeRef)>, overrides: map<OverrideKey, string>,
                                                instances: map<string, Instance>, deps: map<string, Instance>)
    requires forall i, j :: 0 <= i < j < |params| ==> params[i].0 != params[j].0
    ensures var r := OverridesByType(params, overrides, instances, deps);
      && (r.Ok? <==> forall i :: 0 <= i < |params| && OverrideTarget(params[i].1, overrides).Some? ==>
                                  OverrideTarget(params[i].1, overrides).value in instances)
      && (r.Ok? ==> forall i :: 0 <= i < |params| && OverrideTarget(params[i].1, overrides).Some? ==>
                              params[i].0 in r.value && r.value[params[i].0] == instances[OverrideTarget(params[i].1, overrides).value])
      && (r.Ok? ==> forall n :: n in r.value <==>
                      n in deps || exists i :: 0 <= i < |params| && params[i].0 == n && OverrideTarget(params[i].1, overrides).Some?)
      && (r.Ok? ==> forall n :: n in deps && (forall i :: 0 <= i < |params| ==> params[i].0 != n) ==> r.value[n] == deps[n])
  {
    if params != [] {
      var (name, t) := params[0];
      var rest := params[1..];
      assert forall i :: 0 < i < |params| ==> params[i] == rest[i - 1];
      var target := OverrideTarget(t, overrides);
      if target.Some? && target.value !in instances {
      } else {
        var deps' := if target.Some? then deps[name := instances[target.value]] else deps;
        OverridesByTypeSpec(rest, overrides, instances, deps');
        var r := OverridesByType(params, overrides, instances, deps);
        assert r == OverridesByType(rest, overrides, instances, deps');
        if r.Ok? {
          forall n | n in r.value
            ensures n in deps || exists i :: 0 <= i < |params| && params[i].0 == n && OverrideTarget(params[i].1, overrides).Some?
          {
            if n !in deps' {
              var i :| 0 <= i < |rest| && rest[i].0 == n && OverrideTarget(rest[i].1, overrides).Some?;
              assert params[i + 1] == rest[i];
            } else if n !in deps {
              assert params[0].0 == n;
            }
          }
        }
      }
    }
  }

  /** Dependency resolution succeeds exactly when every exchange the module
      consumes names an instantiated provider that satisfies exactly one
      constructor parameter; then every matched parameter is bound. */
  lemma {:induction false} ModuleDependenciesOkIff<T>(id: string, params: seq<(string, TypeRef)>, exs: seq<ExchangeConfig>,
                                                       instances: map<string, T>, isInstance: (T, TypeRef) -> bool, deps: map<string, T>)
    ensures var r := ModuleDependencies(id, params, exs, instances, isInstance, deps);
      && (r.Ok? <==> forall e :: e in exs && e.moduleId == id ==>
                       e.provider in instances && |Matching(params, instances[e.provider], isInstance)| == 1)
      && (r.Ok? ==> deps.Keys <= r.value.Keys)
      && (r.Ok? ==> forall e :: e in exs && e.moduleId == id ==> Matching(params, instances[e.provider], isInstance)[0] in r.value)
  {
    if exs != [] {
      var e := exs[0];
      assert forall x :: x in exs <==> x == e || x in exs[1..];
      if e.moduleId != id {
        ModuleDependenciesOkIff(id, params, exs[1..], instances, isInstance, deps);
      } else if params == [] {
        if e.provider in instances {
          assert Matching(params, instances[e.provider], isInstance) == [];
        }
      } else if e.provider in instances {
        var ms := Matching(params, instances[e.provider], isInstance);
        if |ms| == 1 {
          ModuleDependenciesOkIff(id, params, exs[1..], instances, isInstance, deps[ms[0] := instances[e.provider]]);
        }
      }
    }
  }

  /** An override wins over the exchange dependency for the same parameter. */
  lemma BuildOverridesWin(m: ModuleConfig, s: Setup, instances: Dict<string, Instance>, name: string, t: TypeRef)
    requires Build(m, s, instances).Ok? && Config.UsesAny(m)
    requires s.rt.load(m.modulePath).Some?
    requires (name, t) in s.rt.load(m.modulePath).value.params
    requires var ps := s.rt.load(m.modulePath).value.params; forall i, j :: 0 <= i < j < |ps| ==> ps[i].0 != ps[j].0
    requires OverrideTarget(t, s.overrides).Some?
    ensures var r := Build(m, s, instances).value;
      var target := OverrideTarget(t, s.overrides).value;
      && target in instances.entries
      && name in r.args && r.args[name].target == instances.entries[target]
      && r.args[name].callerId == m.id
  {
    var cls := s.rt.load(m.modulePath).value;
    var exs := s.cfg.exchange.value;
    var deps := ModuleDependencies(m.id, cls.params, exs, instances.entries, s.rt.isInstance, map[]).value;
    OverridesByTypeSpec(cls.params, s.overrides, instances.entries, map[]);
    var byType := OverridesByType(cls.params, s.overrides, instances.entries, map[]).value;
    var i :| 0 <= i < |cls.params| && cls.params[i] == (name, t);
    assert name in byType && byType[name] == instances.entries[OverrideTarget(t, s.overrides).value];
    assert (deps + byType)[name] == byType[name];
  }

  /** `_get_entry_module` against the entry providers in order: none is an
      error, the first must be instantiated, and a second one is an error. */
  function EntryProviders(exs: seq<ExchangeConfig>): (r: seq<string>)
  {
    if exs == [] then []
    else (if exs[0].moduleId == Config.EntryId then [exs[0].provider] else []) + EntryProviders(exs[1..])
  }

  lemma {:induction false} EntryModuleCases<T>(exs: seq<ExchangeConfig>, instances: map<string, T>, found: Option<T>)
    ensures var ps := EntryProviders(exs);
      var r := EntryModule(exs, instances, found);
      if found.Some? then r == (if ps == [] then Ok(found.value) else Err(MultipleEntries))
      else if ps == [] then r == Err(NoEntry)
      else if ps[0] !in instances then r == Err(MissingKey(ps[0]))
      else if |ps| > 1 then r == Err(MultipleEntries)
      else r == Ok(instances[ps[0]])
  {
    if exs != [] {
      var e := exs[0];
      if e.moduleId != Config.EntryId {
        EntryModuleCases(exs[1..], instances, found);
      } else if found.None? && e.provider in instances {
        EntryModuleCases(exs[1..], instances, Some(instances[e.provider]));
      }
    }
  }

  /** Every module built with uses found its providers already there:
      overrides, or modules built before it. */
  ghost predicate Ordered(built: seq<ModuleConfig>, cfg: AgentConfigData, k0: set<string>)
  {
    forall j :: 0 <= j < |built| && Config.UsesAny(built[j]) ==>
      cfg.exchange.Some? &&
      forall e :: e in cfg.exchange.value && e.moduleId == built[j].id ==> e.provider in k0 || e.provider in ModuleIds(built[..j])
  }

  /** The scheduler invariant: each id is built at most once and is either
      built or remaining; the instances are the overrides and the built
      modules; built modules came in dependency order. */
  ghost predicate SchedInv(mods: seq<ModuleConfig>, cfg: AgentConfigData, k0: set<string>, st: Sched)
  {
    && st.instances.Valid()
    && (forall i, j :: 0 <= i < j < |st.built| ==> st.built[i].id != st.built[j].id)
    && (forall m :: m in st.built ==> m in mods)
    && st.remaining !! ModuleIds(st.built)
    && st.remaining + ModuleIds(st.built) == ModuleIds(mods)
    && st.instances.entries.Keys == k0 + ModuleIds(st.built)
    && (forall m :: m in st.built ==>
          (m.id in st.instances.entries && st.instances.entries[m.id].Built? &&
           st.instances.entries[m.id].id == m.id && st.instances.entries[m.id].config == m.config))
    && Ordered(st.built, cfg, k0)
  }

  lemma StepKeeps(mods: seq<ModuleConfig>, cfg: AgentConfigData, k0: set<string>, st: Sched, m: ModuleConfig, inst: Instance)
    requires SchedInv(mods, cfg, k0, st)
    requires m in mods && m.id in st.remaining
    requires Ready(m, cfg, st.instances.entries) == Ok(true)
    requires inst.Built? && inst.id == m.id && inst.config == m.config
    ensures SchedInv(mods, cfg, k0, Sched(st.instances.Put(m.id, inst), st.remaining - {m.id}, true, st.built + [m]))
  {
    var built := st.built + [m];
    assert ModuleIds(built) == ModuleIds(st.built) + {m.id};
    assert m.id !in ModuleIds(st.built);
    forall i, j | 0 <= i < j < |built|
      ensures built[i].id != built[j].id
    {
      if j == |st.built| {
        assert built[i] in st.built;
      }
    }
    var st' := Sched(st.instances.Put(m.id, inst), st.remaining - {m.id}, true, built);
    forall x | x in built
      ensures x.id in st'.instances.entries
      ensures st'.instances.entries[x.id].Built? && st'.instances.entries[x.id].id == x.id
      ensures st'.instances.entries[x.id].config == x.config
    {
      if x != m {
        assert x in st.built;
      }
    }
    OrderedSnoc(st.built, cfg, k0, m);
  }

  /** Building a module whose providers are all present keeps the build
      order a dependency order. */
  lemma OrderedSnoc(built: seq<ModuleConfig>, cfg: AgentConfigData, k0: set<string>, m: ModuleConfig)
    requires Ordered(built, cfg, k0)
    requires Config.UsesAny(m) ==>
      (cfg.exchange.Some? &&
       forall e :: e in cfg.exchange.value && e.moduleId == m.id ==> e.provider in k0 || e.provider in ModuleIds(built))
    ensures Ordered(built + [m], cfg, k0)
  {
    var built' := built + [m];
    assert built'[..|built|] == built;
    forall j | 0 <= j < |built'| && Config.UsesAny(built'[j])
      ensures cfg.exchange.Some?
      ensures forall e :: e in cfg.exchange.value && e.moduleId == built'[j].id ==> e.provider in k0 || e.provider in ModuleIds(built'[..j])
    {
      if j < |built| {
        assert built'[..j] == built[..j];
      }
    }
  }

  lemma {:induction false} PassKeeps(mods: seq<ModuleConfig>, rest: seq<ModuleConfig>, s: Setup, k0: set<string>, st: Sched)
    requires forall m :: m in rest ==> m in mods
    requires SchedInv(mods, s.cfg, k0, st)
    ensures Pass(rest, s, st).Ok? ==> SchedInv(mods, s.cfg, k0, Pass(rest, s, st).value)
    decreases |rest|
  {
    if rest != [] {
      var m := rest[0];
      assert forall x :: x in rest[1..] ==> x in rest;
      var ready := Ready(m, s.cfg, st.instances.entries);
      if m.id !in st.remaining || ready == Ok(false) {
        PassKeeps(mods, rest[1..], s, k0, st);
      } else if ready == Ok(true) {
        var inst := Build(m, s, st.instances);
        if inst.Ok? {
          StepKeeps(mods, s.cfg, k0, st, m, inst.value);
          PassKeeps(mods, rest[1..], s, k0, Sched(st.instances.Put(m.id, inst.value), st.remaining - {m.id}, true, st.built + [m]));
        }
      }
    }
  }

  /** A pass that builds nothing leaves the state alone, and found every
      remaining module not ready. */
  lemma {:induction false} PassStalled(rest: seq<ModuleConfig>, s: Setup, st: Sched)
    requires st.instances.Valid()
    requires Pass(rest, s, st).Ok? && !Pass(rest, s, st).value.progress
    ensures Pass(rest, s, st).value == st
    ensures forall m :: m in rest && m.id in st.remaining ==> Ready(m, s.cfg, st.instances.entries) == Ok(false)
    decreases |rest|
  {
    if rest != [] {
      var m := rest[0];
      assert forall x :: x in rest <==> x == m || x in rest[1..];
      if m.id in st.remaining && Ready(m, s.cfg, st.instances.entries) == Ok(true) {
        assert false;
      }
      PassStalled(rest[1..], s, st);
    }
  }

  /** The remaining modules a stalled loop reports: none of them can be
      built, because each consumes a provider that is neither an override
      nor a module built already. */
  ghost predicate Stuck(mods: seq<ModuleConfig>, cfg: AgentConfigData, k0: set<string>, r: set<string>)
  {
    && r != {} && r <= ModuleIds(mods)
    && forall m :: m in mods && m.id in r ==>
         Config.UsesAny(m) && cfg.exchange.Some?
         && exists e :: e in cfg.exchange.value && e.moduleId == m.id && e.provider !in k0 + (ModuleIds(mods) - r)
  }

  lemma {:induction false} RunKeeps(mods: seq<ModuleConfig>, s: Setup, k0: set<string>, st: Sched)
    requires SchedInv(mods, s.cfg, k0, st)
    ensures var r := Run(mods, s, st);
      && (r.Ok? ==> SchedInv(mods, s.cfg, k0, r.value))
      && (r.Err? && r.error.Circular? ==> Stuck(mods, s.cfg, k0, r.error.remaining))
    decreases st.remaining
  {
    if st.remaining != {} {
      var start := st.(progress := false);
      PassKeeps(mods, mods, s, k0, start);
      var p := Pass(mods, s, start);
      if p.Ok? {
        if !p.value.progress {
          PassStalled(mods, s, start);
          var r := st.remaining;
          assert Run(mods, s, st) == Err(Circular(r));
          assert ModuleIds(mods) - r == ModuleIds(st.built);
          forall m | m in mods && m.id in r
            ensures Config.UsesAny(m) && s.cfg.exchange.Some?
            ensures exists e :: e in s.cfg.exchange.value && e.moduleId == m.id && e.provider !in k0 + (ModuleIds(mods) - r)
          {
            assert Ready(m, s.cfg, st.instances.entries) == Ok(false);
          }
        } else {
          RunKeeps(mods, s, k0, p.value);
        }
      }
    }
  }

  /** `_instantiate_modules` as a whole: on success every declared module id
      is built exactly once, in dependency order, and the table holds the
      overrides, the modules and the entry; a circular failure names
      modules none of which could be built. */
  lemma InstantiateSpec(cfg: AgentConfigData, bindings: Dict<OverrideKey, nat>, overrides: map<OverrideKey, string>,
                        listeners: seq<Listener>, rt: Runtime)
    requires bindings.Valid()
    ensures var r := Instantiate(cfg, bindings, overrides, listeners, rt);
      var k0 := OverrideIds(|bindings.keys|);
      && (r.Ok? ==> r.value.remaining == {} && ModuleIds(r.value.built) == ModuleIds(cfg.modules)
                    && (forall i, j :: 0 <= i < j < |r.value.built| ==> r.value.built[i].id != r.value.built[j].id)
                    && Ordered(r.value.built, cfg, k0)
                    && r.value.instances.entries.Keys == k0 + ModuleIds(cfg.modules) + {Config.EntryId}
                    && cfg.exchange.Some? && |EntryProviders(cfg.exchange.value)| == 1)
      && (r.Err? && r.error.Circular? ==> Stuck(cfg.modules, cfg, k0, r.error.remaining))
  {
    OverrideInstancesIds(bindings.keys, bindings.entries);
    var seeded := OverrideInstances(bindings.keys, bindings.entries);
    var o := OverrideTable(bindings.keys, overrides);
    var s := Setup(cfg, o, listeners, rt);
    var st0 := Sched(seeded, ModuleIds(cfg.modules), false, []);
    assert ModuleIds([]) == {};
    RunKeeps(cfg.modules, s, OverrideIds(|bindings.keys|), st0);
    var st := Run(cfg.modules, s, st0);
    if st.Err? {
      assert Instantiate(cfg, bindings, overrides, listeners, rt) == Err(st.error);
    } else if cfg.exchange.Some? {
      var e := EntryModule(cfg.exchange.value, st.value.instances.entries, None);
      EntryModuleCases(cfg.exchange.value, st.value.instances.entries, None);
      if e.Ok? {
        assert Instantiate(cfg, bindings, overrides, listeners, rt)
            == Ok(st.value.(instances := st.value.instances.Put(Config.EntryId, e.value)));
        FinishKeeps(cfg, OverrideIds(|bindings.keys|), st.value, e.value);
      }
    }
  }

  /** Once nothing remains, the built modules are all the declared ones,
      and adding the entry gives the final table. */
  lemma FinishKeeps(cfg: AgentConfigData, k0: set<string>, st: Sched, e: Instance)
    requires SchedInv(cfg.modules, cfg, k0, st) && st.remaining == {}
    ensures ModuleIds(st.built) == ModuleIds(cfg.modules)
    ensures st.instances.Put(Config.EntryId, e).entries.Keys == k0 + ModuleIds(cfg.modules) + {Config.EntryId}
  {
  }

  // ---------------------------------------------------------------------
  // The exchange object
  // ---------------------------------------------------------------------

  class Exchange {
    var moduleInstances: Dict<string, Instance>
    var overrides: map<OverrideKey, string>
    var eventListeners: seq<Listener>
    var config: Option<AgentConfigData>

    /** The field initialisation of `__init__` (lines 109-112). */
    constructor (config: Option<AgentConfigData>, listeners: seq<Listener>)
      ensures moduleInstances == Empty() && overrides == map[]
      ensures eventListeners == listeners && this.config == config
    {
      moduleInstances := Empty();
      overrides := map[];
      eventListeners := listeners;
      this.config := config;
    }

    /** `_instantiate_modules`: returns the error it raises, if any. Once it
        raises, the exchange under construction is never handed out, so its
        state then is left unspecified. */
    method InstantiateModules(bindings: Dict<OverrideKey, nat>, rt: Runtime) returns (err: Option<ExchangeError>)
      requires config.Some? && bindings.Valid()
      modifies this
      ensures config == old(config) && eventListeners == old(eventListeners)
      ensures var r := Instantiate(config.value, bindings, old(overrides), eventListeners, rt);
        && (r.Ok? ==> err.None? && moduleInstances == r.value.instances
                      && overrides == OverrideTable(bindings.keys, old(overrides)))
        && (r.Err? ==> err == Some(r.error))
    {
      var cfg := config.value;
      SeedOverrides(bindings);
      ghost var s := Setup(cfg, overrides, eventListeners, rt);
      ghost var st0 := Sched(moduleInstances, ModuleIds(cfg.modules), false, []);
      var mods := cfg.modules;
      var remaining := set m | m in mods :: m.id;
      ghost var built: seq<ModuleConfig> := [];
      ghost var lastProgress := false;
      while remaining != {}
        invariant config == old(config) && eventListeners == old(eventListeners)
        invariant overrides == s.overrides && moduleInstances.Valid()
        invariant Run(mods, s, Sched(moduleInstances, remaining, lastProgress, built)) == Run(mods, s, st0)
        decreases remaining
      {
        ghost var start := Sched(moduleInstances, remaining, false, built);
        assert Run(mods, s, Sched(moduleInstances, remaining, lastProgress, built)) == Run(mods, s, start);
        var progress, passErr;
        remaining, progress, passErr, built := RunPass(mods, remaining, rt, built);
        if passErr.Some? {
          return passErr;
        }
        if !progress {
          return Some(Circular(remaining));
        }
        lastProgress := true;
      }
      if cfg.exchange.None? {
        return Some(ExchangeListMissing);
      }
      var entry := GetEntryModule(moduleInstances.entries);
      if entry.Err? {
        return Some(entry.error);
      }
      moduleInstances := moduleInstances.Put(Config.EntryId, entry.value);
      err := None;
    }

    /** The override loop of lines 121-125, on a fresh instance table. */
    method SeedOverrides(bindings: Dict<OverrideKey, nat>)
      requires bindings.Valid()
      modifies this
      ensures config == old(config) && eventListeners == old(eventListeners)
      ensures moduleInstances == OverrideInstances(bindings.keys, bindings.entries)
      ensures overrides == OverrideTable(bindings.keys, old(overrides))
    {
      moduleInstances := Empty();
      for idx := 0 to |bindings.keys|
        invariant forall k :: k in bindings.keys ==> k in bindings.entries
        invariant config == old(config) && eventListeners == old(eventListeners)
        invariant moduleInstances == OverrideInstances(bindings.keys[..idx], bindings.entries)
        invariant overrides == OverrideTable(bindings.keys[..idx], old(overrides))
      {
        var key := bindings.keys[idx];
        OverrideStep(bindings.keys, bindings.entries, old(overrides), idx);
        var overrideId := OverrideId(idx);
        moduleInstances := moduleInstances.Put(overrideId, Supplied(bindings.entries[key]));
        overrides := overrides[key := overrideId];
      }
      assert bindings.keys[..|bindings.keys|] == bindings.keys;
    }

    /** One pass of the `for` loop of lines 137-171: builds every ready
        module still remaining, in declaration order. */
    method RunPass(mods: seq<ModuleConfig>, remaining0: set<string>, rt: Runtime, ghost built0: seq<ModuleConfig>)
      returns (remaining: set<string>, progress: bool, err: Option<ExchangeError>, ghost built: seq<ModuleConfig>)
      requires config.Some? && moduleInstances.Valid()
      modifies this
      ensures config == old(config) && eventListeners == old(eventListeners) && overrides == old(overrides)
      ensures var r := Pass(mods, Setup(config.value, overrides, eventListeners, rt),
                            Sched(old(moduleInstances), remaining0, false, built0));
        && (r.Ok? ==> err.None? && r.value == Sched(moduleInstances, remaining, progress, built))
        && (r.Err? ==> err == Some(r.error))
    {
      ghost var s := Setup(config.value, overrides, eventListeners, rt);
      ghost var start := Sched(moduleInstances, remaining0, false, built0);
      remaining, progress, built := remaining0, false, built0;
      for i := 0 to |mods|
        invariant config == old(config) && eventListeners == old(eventListeners) && overrides == old(overrides)
        invariant moduleInstances.Valid()
        invariant Pass(mods[i..], s, Sched(moduleInstances, remaining, progress, built)) == Pass(mods, s, start)
      {
        var m := mods[i];
        assert mods[i..][1..] == mods[i + 1..];
        if m.id in remaining {
          var ready := DependenciesSatisfied(m);
          if ready.Err? {
            return remaining, progress, Some(ready.error), built;
          }
          if ready.value {
            var inst := BuildModule(m, rt);
            if inst.Err? {
              return remaining, progress, Some(inst.error), built;
            }
            moduleInstances := moduleInstances.Put(m.id, inst.value);
            remaining := remaining - {m.id};
            progress := true;
            built := built + [m];
          }
        }
      }
      assert mods[|mods|..] == [];
      err := None;
    }

    /** The readiness loop of lines 142-151. */
    method DependenciesSatisfied(m: ModuleConfig) returns (r: Result<bool, ExchangeError>)
      requires config.Some?
      ensures r == Ready(m, config.value, moduleInstances.entries)
    {
      if !(m.uses.Some? && m.uses.value != []) {
        return Ok(true);
      }
      if config.value.exchange.None? {
        return Err(ExchangeListMissing);
      }
      var exs := config.value.exchange.value;
      var satisfied := true;
      for j := 0 to |exs|
        invariant satisfied <==> forall e :: e in exs[..j] && e.moduleId == m.id ==> e.provider in moduleInstances.entries
      {
        assert exs[..j + 1] == exs[..j] + [exs[j]];
        if exs[j].moduleId == m.id && exs[j].provider !in moduleInstances.entries {
          satisfied := false;
        }
      }
      assert exs[..|exs|] == exs;
      return Ok(satisfied);
    }

    /** Lines 155-168: one module built from its class. */
    method BuildModule(m: ModuleConfig, rt: Runtime) returns (r: Result<Instance, ExchangeError>)
      requires config.Some?
      ensures r == Build(m, Setup(config.value, overrides, eventListeners, rt), moduleInstances)
    {
      var loaded := rt.load(m.modulePath);
      if loaded.None? {
        return Err(ImportFailed(m.modulePath));
      }
      var cls := loaded.value;
      if !(m.uses.Some? && m.uses.value != []) {
        var err := CallError(m.id, cls, map[], m.config, rt.construct);
        if err.Some? {
          return Err(err.value);
        }
        return Ok(Built(m.id, cls, map[], m.config));
      }
      if config.value.exchange.None? {
        return Err(ExchangeListMissing);
      }
      var deps := GetModuleDependencies(m, cls, rt);
      if deps.Err? {
        return Err(deps.error);
      }
      var byType := GetOverridesByType(cls);
      if byType.Err? {
        return Err(byType.error);
      }
      var args := Proxied(deps.value + byType.value, moduleInstances, Setup(config.value, overrides, eventListeners, rt), m.id);
      if args.Err? {
        return Err(args.error);
      }
      var err := CallError(m.id, cls, args.value, m.config, rt.construct);
      if err.Some? {
        return Err(err.value);
      }
      return Ok(Built(m.id, cls, args.value, m.config));
    }

    /** `_get_module_dependencies`. */
    method GetModuleDependencies(m: ModuleConfig, cls: ClassInfo, rt: Runtime) returns (r: Result<map<string, Instance>, ExchangeError>)
      requires config.Some? && config.value.exchange.Some?
      ensures r == ModuleDependencies(m.id, cls.params, config.value.exchange.value, moduleInstances.entries, rt.isInstance, map[])
    {
      var exs := config.value.exchange.value;
      var deps: map<string, Instance> := map[];
      for j := 0 to |exs|
        invariant ModuleDependencies(m.id, cls.params, exs[j..], moduleInstances.entries, rt.isInstance, deps)
               == ModuleDependencies(m.id, cls.params, exs, moduleInstances.entries, rt.isInstance, map[])
      {
        var e := exs[j];
        assert exs[j..][1..] == exs[j + 1..];
        if e.moduleId == m.id {
          if cls.params == [] {
            return Err(NoParameter(e.protocol, e.provider, m.id));
          }
          if e.provider !in moduleInstances.entries {
            return Err(MissingKey(e.provider));
          }
          var matching := Matching(cls.params, moduleInstances.entries[e.provider], rt.isInstance);
          if |matching| > 1 {
            return Err(MultipleParameters(e.protocol, m.id));
          } else if |matching| == 0 {
            return Err(NoParameter(e.protocol, e.provider, m.id));
          }
          deps := deps[matching[0] := moduleInstances.entries[e.provider]];
        }
      }
      assert exs[|exs|..] == [];
      return Ok(deps);
    }

    /** `_get_overrides_by_type`. */
    method GetOverridesByType(cls: ClassInfo) returns (r: Result<map<string, Instance>, ExchangeError>)
      ensures r == OverridesByType(cls.params, overrides, moduleInstances.entries, map[])
    {
      var params := cls.params;
      var deps: map<string, Instance> := map[];
      for j := 0 to |params|
        invariant OverridesByType(params[j..], overrides, moduleInstances.entries, deps)
               == OverridesByType(params, overrides, moduleInstances.entries, map[])
      {
        var (name, t) := params[j];
        assert params[j..][1..] == params[j + 1..];
        if ByType(t) in overrides {
          var key := overrides[ByType(t)];
          if key !in moduleInstances.entries {
            return Err(MissingKey(key));
          }
          deps := deps[name := moduleInstances.entries[key]];
        } else if ByName(t.name) in overrides {
          var key := overrides[ByName(t.name)];
          if key !in moduleInstances.entries {
            return Err(MissingKey(key));
          }
          deps := deps[name := moduleInstances.entries[key]];
        }
      }
      assert params[|params|..] == [];
      return Ok(deps);
    }

    /** `_get_entry_module`. */
    method GetEntryModule(instances: map<string, Instance>) returns (r: Result<Instance, ExchangeError>)
      requires config.Some? && config.value.exchange.Some?
      ensures r == EntryModule(config.value.exchange.value, instances, None)
    {
      var exs := config.value.exchange.value;
      var found: Option<Instance> := None;
      for j := 0 to |exs|
        invariant EntryModule(exs[j..], instances, found) == EntryModule(exs, instances, None)
      {
        var e := exs[j];
        assert exs[j..][1..] == exs[j + 1..];
        if e.moduleId == Config.EntryId {
          if found.Some? {
            return Err(MultipleEntries);
          }
          if e.provider !in instances {
            return Err(MissingKey(e.provider));
          }
          found := Some(instances[e.provider]);
        }
      }
      assert exs[|exs|..] == [];
      if found.None? {
        return Err(NoEntry);
      }
      return Ok(found.value);
    }

    /** `get_module`: the instance stored under `name`, proxied for the
        caller, or nothing. The source tests the stored object with `if
        module:`, so an instance whose truth value is false (an empty
        container bound as an override, a class defining `__len__` or
        `__bool__`) is treated as missing; `truthy` is Python's `bool()`.
        An exchange made without a config has no instances to find. */
    function GetModule(name: string, callerId: string, truthy: Instance -> bool): (r: Option<Proxy>)
      reads this
      ensures r.Some? <==> name in moduleInstances.entries && truthy(moduleInstances.entries[name]) && config.Some?
      ensures r.Some? ==> r.value == Proxy(moduleInstances.entries[name], eventListeners, config.value.id, callerId, name)
    {
      if name in moduleInstances.entries && truthy(moduleInstances.entries[name]) && config.Some?
      then Some(Proxy(moduleInstances.entries[name], eventListeners, config.value.id, callerId, name))
      else None
    }
  }

  /** `Exchange(config, override_bindings, event_listeners)`: the exchange,
      or the error its construction raises. */
  method NewExchange(config: Option<AgentConfigData>, bindings: Option<Dict<OverrideKey, nat>>,
                     listeners: Option<seq<Listener>>, rt: Runtime) returns (r: Result<Exchange, ExchangeError>)
    requires bindings.Some? ==> bindings.value.Valid()
    ensures r.Ok? ==> fresh(r.value) && r.value.config == config && r.value.eventListeners == OrEmpty(listeners)
    ensures config.None? ==> r.Ok? && r.value.moduleInstances == Empty()
    ensures config.Some? ==>
      var b := if bindings.Some? then bindings.value else Empty();
      var i := Instantiate(config.value, b, map[], OrEmpty(listeners), rt);
      (r.Ok? <==> i.Ok?) && (r.Ok? ==> r.value.moduleInstances == i.value.instances)
      && (r.Err? ==> r.error == i.error)
  {
    var ex := new Exchange(config, OrEmpty(listeners));
    if config.Some? {
      var b := if bindings.Some? then bindings.value else Empty();
      var err := ex.InstantiateModules(b, rt);
      if err.Some? {
        return Err(err.value);
      }
    }
    return Ok(ex);
  }

  // ---------------------------------------------------------------------
  // Instrumented method calls
  // ---------------------------------------------------------------------

  /** The event types `__call__` names. The `EventType` enumeration it
      imports declares only the first two; `CallAsWritten` below is the
      call as that enumeration makes it run. */
  datatype EventType = CallEvent | ResultEvent | ExceptionEvent
  {
    /** `event_type.value`. */
    function Name(): string
    {
      match this
      case CallEvent => "call"
      case ResultEvent => "result"
      case ExceptionEvent => "exception"
    }
  }

  /** An event, without its wall-clock time; `callCount` is the counter
      part of `call_id`, whose other parts are object identities. */
  datatype Event = Event(eventName: string, eventType: EventType, moduleClass: string, methodName: string,
                         result: Option<Value>, arguments: Option<Value>, exception: Option<string>,
                         callCount: nat, agentId: string, callerId: string, moduleId: string)

  /** One handler invocation, and whether the handler raised (which is
      caught and reported, and stops nothing). */
  datatype Delivery = Delivery(handler: nat, event: Event, raised: bool)

  /** What the wrapped method does: return a value, or raise. */
  datatype Outcome = Returned(value: Value) | Raised(trace: string)

  /** `{package}.{class}.{method}.{type}`. */
  function EventName(m: MethodSpec, t: EventType): string
  {
    m.moduleClass.package + "." + m.moduleClass.name + "." + m.methodName + "." + t.Name()
  }

  function MakeEvent(m: MethodSpec, callCount: nat, t: EventType, result: Option<Value>, arguments: Option<Value>,
                     exception: Option<string>): (ev: Event)
    ensures ev.eventName == EventName(m, t) && ev.eventType == t && ev.callCount == callCount
    ensures ev.agentId == m.agentId && ev.callerId == m.callerId && ev.moduleId == m.moduleId
  {
    Event(EventName(m, t), t, m.moduleClass.name, m.methodName, result, arguments, exception,
          callCount, m.agentId, m.callerId, m.moduleId)
  }

  /** A listener takes an event when its prefix is empty or starts the
      event's name. */
  predicate Listens(l: Listener, name: string)
  {
    l.prefix == [] || Strings.StartsWith(name, l.prefix)
  }

  /** The listener loop of `_emit_event`: each listening handler is called
      in order; whether it raises is the `raises` oracle. */
  function Deliver(ls: seq<Listener>, ev: Event, raises: (nat, Event) -> bool): (r: seq<Delivery>)
    ensures |r| <= |ls|
    ensures forall d :: d in r ==> d.event == ev && d.raised == raises(d.handler, ev)
                                    && exists l :: l in ls && l.handler == d.handler && Listens(l, ev.eventName)
  {
    if ls == [] then []
    else
      var rest := Deliver(ls[1..], ev, raises);
      assert forall l :: l in ls[1..] ==> l in ls;
      (if Listens(ls[0], ev.eventName) then [Delivery(ls[0].handler, ev, raises(ls[0].handler, ev))] else []) + rest
  }

  /** One listener of the loop: it is called when it listens, then the
      rest follow. */
  lemma DeliverStep(ls: seq<Listener>, i: nat, ev: Event, raises: (nat, Event) -> bool)
    requires i < |ls|
    ensures Deliver(ls[i..], ev, raises) ==
      (if Listens(ls[i], ev.eventName) then [Delivery(ls[i].handler, ev, raises(ls[i].handler, ev))] else [])
      + Deliver(ls[i + 1..], ev, raises)
  {
    assert ls[i..][1..] == ls[i + 1..];
  }

  /** `_emit_event`: nothing at all without listeners. */
  function Emit(m: MethodSpec, callCount: nat, t: EventType, result: Option<Value>, arguments: Option<Value>,
                exception: Option<string>, raises: (nat, Event) -> bool): seq<Delivery>
  {
    if |m.listeners| == 0 then []
    else Deliver(m.listeners, MakeEvent(m, callCount, t, result, arguments, exception), raises)
  }

  /** `{"args": args, "kwargs": kwargs}`. */
  function Arguments(args: seq<Value>, kwargs: map<string, Value>): Value
  {
    Object(map["args" := List(args), "kwargs" := Object(kwargs)])
  }

  /** The deliveries of one call numbered `n`: CALL with the arguments,
      then RESULT with the value returned or EXCEPTION with the trace. */
  function CallDeliveries(m: MethodSpec, n: nat, args: seq<Value>, kwargs: map<string, Value>, run: Outcome,
                          raises: (nat, Event) -> bool): seq<Delivery>
  {
    Emit(m, n, CallEvent, None, Some(Arguments(args, kwargs)), None, raises)
    + match run
      case Returned(v) => Emit(m, n, ResultEvent, Some(v), None, None, raises)
      case Raised(tr) => Emit(m, n, ExceptionEvent, None, None, Some(tr), raises)
  }

  class MethodProxy {
    const spec: MethodSpec
    var callId: nat

    constructor (spec: MethodSpec)
      ensures this.spec == spec && callId == 0
    {
      this.spec := spec;
      callId := 0;
    }

    /** `_emit_event` for the current call number. */
    method EmitEvent(t: EventType, result: Option<Value>, arguments: Option<Value>, exception: Option<string>,
                     raises: (nat, Event) -> bool) returns (ds: seq<Delivery>)
      ensures ds == Emit(spec, callId, t, result, arguments, exception, raises)
    {
      if |spec.listeners| == 0 {
        return [];
      }
      var event := MakeEvent(spec, callId, t, result, arguments, exception);
      var ls := spec.listeners;
      ds := [];
      assert ls[0..] == ls;
      for i := 0 to |ls|
        invariant ds + Deliver(ls[i..], event, raises) == Deliver(ls, event, raises)
      {
        var l := ls[i];
        DeliverStep(ls, i, event, raises);
        if Listens(l, event.eventName) {
          ds := ds + [Delivery(l.handler, event, raises(l.handler, event))];
        }
      }
      assert ls[|ls|..] == [];
    }

    /** `__call__`: the wrapped method's outcome is passed in as `run`
        and comes back unchanged, value or exception. */
    method Call(args: seq<Value>, kwargs: map<string, Value>, run: Outcome, raises: (nat, Event) -> bool)
      returns (outcome: Outcome, ds: seq<Delivery>)
      modifies this
      ensures callId == old(callId) + 1 && outcome == run
      ensures ds == CallDeliveries(spec, callId, args, kwargs, run, raises)
    {
      callId := callId + 1;
      var before := EmitEvent(CallEvent, None, Some(Arguments(args, kwargs)), None, raises);
      var after;
      match run {
        case Returned(v) =>
          after := EmitEvent(ResultEvent, Some(v), None, None, raises);
        case Raised(tr) =>
          after := EmitEvent(ExceptionEvent, None, None, Some(tr), raises);
      }
      return run, before + after;
    }
  }

  /** Every listening listener is called: a handler that raised does not
      keep later ones from their event. */
  lemma {:induction false} DeliverReaches(ls: seq<Listener>, ev: Event, raises: (nat, Event) -> bool, l: Listener)
    requires l in ls && Listens(l, ev.eventName)
    ensures Delivery(l.handler, ev, raises(l.handler, ev)) in Deliver(ls, ev, raises)
  {
    if ls[0] != l {
      DeliverReaches(ls[1..], ev, raises, l);
    }
  }

  /** The handler called and the event it got, delivery by delivery. */
  function Calls(ds: seq<Delivery>): seq<(nat, Event)>
  {
    if ds == [] then [] else [(ds[0].handler, ds[0].event)] + Calls(ds[1..])
  }

  /** Who is called, with which event, does not depend on who raises.
      `_emit_event` catches each handler's exception and goes on, and
      `Deliver` is written that way, so this holds by construction; it
      records that the per-handler `try` is what makes it so. */
  lemma {:induction false} DeliverIgnoresRaises(ls: seq<Listener>, ev: Event, r1: (nat, Event) -> bool, r2: (nat, Event) -> bool)
    ensures Calls(Deliver(ls, ev, r1)) == Calls(Deliver(ls, ev, r2))
  {
    if ls != [] {
      var t1 := Deliver(ls[1..], ev, r1);
      var t2 := Deliver(ls[1..], ev, r2);
      DeliverIgnoresRaises(ls[1..], ev, r1, r2);
      var h := ls[0].handler;
      if Listens(ls[0], ev.eventName) {
        var d1 := [Delivery(h, ev, r1(h, ev))] + t1;
        var d2 := [Delivery(h, ev, r2(h, ev))] + t2;
        assert Deliver(ls, ev, r1) == d1 && Deliver(ls, ev, r2) == d2;
        assert d1[1..] == t1 && d2[1..] == t2;
        assert Calls(d1) == [(h, ev)] + Calls(t1);
        assert Calls(d2) == [(h, ev)] + Calls(t2);
      } else {
        assert Deliver(ls, ev, r1) == t1 && Deliver(ls, ev, r2) == t2;
      }
    }
  }

  /** The text of the `AttributeError` that `EventType.EXCEPTION` raises
      when the enumeration has no such member. */
  const MissingMemberTrace := "AttributeError: EXCEPTION"

  /** `__call__` as it runs against an `EventType` without `EXCEPTION`: a
      method that returns behaves as intended, but when it raises, the
      argument `EventType.EXCEPTION` of the `except` block raises in turn,
      before `_emit_event` starts, so that `AttributeError` replaces the
      method's exception and no EXCEPTION event is emitted. */
  function CallAsWritten(m: MethodSpec, n: nat, args: seq<Value>, kwargs: map<string, Value>, run: Outcome,
                         raises: (nat, Event) -> bool): (r: (Outcome, seq<Delivery>))
    ensures run.Returned? ==> r == (run, CallDeliveries(m, n, args, kwargs, run, raises))
    ensures run.Raised? ==> r.0 == Raised(MissingMemberTrace)
    ensures forall d :: d in r.1 ==> d.event.eventType != ExceptionEvent
  {
    var called := Emit(m, n, CallEvent, None, Some(Arguments(args, kwargs)), None, raises);
    match run
    case Returned(v) => (run, called + Emit(m, n, ResultEvent, Some(v), None, None, raises))
    case Raised(_) => (Raised(MissingMemberTrace), called)
  }

  /** With a catch-all listener and a method that raises, the call as
      written delivers only the CALL event and reports the
      `AttributeError`, where the intended call delivers CALL and
      EXCEPTION and reports the method's own exception. */
  lemma ExceptionLostAsWritten(m: MethodSpec, n: nat, args: seq<Value>, kwargs: map<string, Value>, tr: string,
                               raises: (nat, Event) -> bool, h: nat)
    requires m.listeners == [Listener("", h)] && tr != MissingMemberTrace
    ensures var (outcome, ds) := CallAsWritten(m, n, args, kwargs, Raised(tr), raises);
      && |ds| == 1 && ds[0].event.eventType == CallEvent && outcome != Raised(tr)
    ensures var ds := CallDeliveries(m, n, args, kwargs, Raised(tr), raises);
      |ds| == 2 && ds[1].event.eventType == ExceptionEvent && ds[1].event.exception == Some(tr)
  {
    CatchAllSeesCall(m, n, args, kwargs, Raised(tr), raises, h);
    var ls := m.listeners;
    assert ls[1..] == [];
  }

  /** Without listeners a call delivers nothing. */
  lemma CallSilent(m: MethodSpec, n: nat, args: seq<Value>, kwargs: map<string, Value>, run: Outcome, raises: (nat, Event) -> bool)
    requires m.listeners == []
    ensures CallDeliveries(m, n, args, kwargs, run, raises) == []
  {
  }

  /** A catch-all listener sees the call and then its result or exception,
      both numbered with the same call count and carrying the proxy's ids. */
  lemma CatchAllSeesCall(m: MethodSpec, n: nat, args: seq<Value>, kwargs: map<string, Value>, run: Outcome,
                         raises: (nat, Event) -> bool, h: nat)
    requires m.listeners == [Listener("", h)]
    ensures var ds := CallDeliveries(m, n, args, kwargs, run, raises);
      && |ds| == 2 && ds[0].handler == h && ds[1].handler == h
      && ds[0].event.eventType == CallEvent && ds[0].event.arguments == Some(Arguments(args, kwargs))
      && ds[0].event.callCount == n && ds[1].event.callCount == n
      && (run.Returned? ==> ds[1].event.eventType == ResultEvent && ds[1].event.result == Some(run.value))
      && (run.Raised? ==> ds[1].event.eventType == ExceptionEvent && ds[1].event.exception == Some(run.trace))
      && ds[1].event.agentId == m.agentId && ds[1].event.callerId == m.callerId && ds[1].event.moduleId == m.moduleId
  {
    var ls := m.listeners;
    assert ls[1..] == [];
  }

  /** A listener for `{package}.{class}.{method}.` takes every event of that
      method. */
  lemma MethodPrefixListens(m: MethodSpec, t: EventType, h: nat)
    ensures Listens(Listener(m.moduleClass.package + "." + m.moduleClass.name + "." + m.methodName + ".", h), EventName(m, t))
  {
    var p := m.moduleClass.package + "." + m.moduleClass.name + "." + m.methodName + ".";
    assert EventName(m, t) == p + t.Name();
  }
}
