/** The implicit-wiring resolver of an agent configuration
    (`AgentConfig.populate_implicits`): it adds the reserved `__response__`
    module, merges constructor requirements into `uses`, and adds an
    exchange for every used protocol that exactly one module provides,
    first for the modules and then for the reserved `__entry__` consumer
    over the four message-handler protocols.

    Runtime reflection (importing the module class, asking it for
    `provides()`, reading its constructor's type hints) is an
    `Introspection` record of two oracle functions. An import or attribute
    failure, which the source swallows, is an oracle answer of "nothing".
    A module path whose module part is empty or relative makes
    `importlib.import_module` raise an error the source does not swallow;
    that is decided on the path itself. */
module Config {
  import opened Basics
  import opened Values
  import Strings

  const ResponseId := "__response__"
  const ResponseHandlerPath := "xaibo.primitives.modules.ResponseHandler"
  const ResponseProtocol := "ResponseProtocol"
  const EntryId := "__entry__"
  const MessageHandlerProtocols: seq<string> :=
    ["TextMessageHandlerProtocol", "ImageMessageHandlerProtocol",
     "AudioMessageHandlerProtocol", "VideoMessageHandlerProtocol"]

  /** A module entry. `modulePath` is the source's `module` field, the
      dotted import path of the module class, and `provided` its `provides`
      field (both names are Dafny keywords). */
  datatype ModuleConfig = ModuleConfig(
    modulePath: string,
    id: string,
    provided: Option<seq<string>>,
    uses: Option<seq<string>>,
    config: Option<map<string, Value>>)

  /** An exchange entry; `moduleId` is the source's `module` field, the id
      of the consuming module. */
  datatype ExchangeConfig = ExchangeConfig(moduleId: string, protocol: string, provider: string)

  /** The three fields of an `AgentConfig`, as a value. */
  datatype AgentConfigData = AgentConfigData(
    id: string,
    modules: seq<ModuleConfig>,
    exchange: Option<seq<ExchangeConfig>>)

  /** What reflection says about a module class, given its dotted path:
      the `__name__`s its `provides()` returns (`None` when it cannot be
      imported or has no callable `provides`), and the type names of its
      constructor parameters other than `self` and `config`, in parameter
      order (empty when it cannot be imported). */
  datatype Introspection = Introspection(
    protocolsOf: string -> Option<seq<string>>,
    slotsOf: string -> seq<string>)

  /** The errors `populate_implicits` lets escape: its own `ValueError`s,
      and the `ValueError` or `TypeError` of importing a malformed path. */
  datatype ConfigError =
    | MultipleProviders(protocol: string, moduleId: string, providers: seq<string>)
    | MultipleHandlers(protocol: string, handlers: seq<string>)
    | UnimportablePath(moduleId: string, path: string)

  /** A protocol that more than one module provides. */
  datatype Clash = Clash(protocol: string, candidates: seq<string>)

  /** The exchange list after a wiring step, and the clash that stopped it. */
  datatype Wired = Wired(exchange: seq<ExchangeConfig>, clash: Option<Clash>)

  /** The exchange list after a wiring step, and the error it raised. */
  datatype Wiring = Wiring(exchange: seq<ExchangeConfig>, error: Option<ConfigError>)

  /** The configuration after `populate_implicits`, and the error it raised
      (when it raised, the configuration is what the steps before left). */
  datatype Outcome = Outcome(config: AgentConfigData, error: Option<ConfigError>)

  /** The dotted-path split of `_import_module_class`: the module path to
      import and the class name to fetch from it. */
  function ImportTarget(path: string): (r: (string, string))
    ensures '.' !in r.1
    ensures '.' in path ==> path == r.0 + "." + r.1
    ensures '.' !in path ==> r.0 == "" && r.1 == path
  {
    Strings.SplitLast(path, '.')
  }

  /** `importlib.import_module` rejects the module part of `path` with an
      error other than `ImportError` when it is empty (a `ValueError`: the
      path has no dot, or its only dot comes first) or relative (a
      `TypeError`, since no package is given), so the `except
      (ImportError, AttributeError)` around the import does not catch it. */
  predicate ImportRaises(path: string)
  {
    var pkg := ImportTarget(path).0;
    pkg == "" || pkg[0] == '.'
  }

  /** A path that starts with a character other than a dot and contains a
      dot imports without that error. */
  lemma DottedPathImports(path: string)
    requires '.' in path && path[0] != '.'
    ensures !ImportRaises(path)
  {
    var (pkg, cls) := ImportTarget(path);
    assert path == pkg + "." + cls;
    if pkg != "" {
      assert path[0] == pkg[0];
    }
  }

  // ---------------------------------------------------------------------
  // Specification of each step
  // ---------------------------------------------------------------------

  function Ids(mods: seq<ModuleConfig>): (r: seq<string>)
    ensures |r| == |mods|
    ensures forall i :: 0 <= i < |mods| ==> r[i] == mods[i].id
  {
    seq(|mods|, i requires 0 <= i < |mods| => mods[i].id)
  }

  predicate HasResponse(mods: seq<ModuleConfig>)
  {
    exists i :: 0 <= i < |mods| && mods[i].id == ResponseId
  }

  function ResponseModule(): ModuleConfig
  {
    ModuleConfig(ResponseHandlerPath, ResponseId, Some([ResponseProtocol]), None, None)
  }

  /** The index of the first module whose path makes the import raise. */
  function FirstUnimportable(mods: seq<ModuleConfig>): (r: Option<nat>)
    ensures r.Some? ==> r.value < |mods| && ImportRaises(mods[r.value].modulePath)
    ensures r.Some? ==> forall j :: 0 <= j < r.value ==> !ImportRaises(mods[j].modulePath)
    ensures r.None? ==> forall j :: 0 <= j < |mods| ==> !ImportRaises(mods[j].modulePath)
  {
    if mods == [] then None
    else if ImportRaises(mods[0].modulePath) then Some(0)
    else
      match FirstUnimportable(mods[1..])
      case None => None
      case Some(k) => Some(k + 1)
  }

  /** `_add_implicit_response_module`. */
  function WithResponseModule(mods: seq<ModuleConfig>): seq<ModuleConfig>
  {
    if HasResponse(mods) then mods else mods + [ResponseModule()]
  }

  /** Appending to an optional list each of `xs` that it does not hold yet,
      creating the list on the first append: the loops of lines 176-183 and
      127-132. */
  function AppendMissing(cur: Option<seq<string>>, xs: seq<string>): Option<seq<string>>
    decreases |xs|
  {
    if xs == [] then cur
    else if xs[0] in OrEmpty(cur) then AppendMissing(cur, xs[1..])
    else AppendMissing(Some(OrEmpty(cur) + [xs[0]]), xs[1..])
  }

  /** Appending the missing names keeps the existing entries and their
      order, ends up holding every name, adds no duplicate, and creates the
      list only when there is something to append. */
  lemma {:induction false} AppendMissingSpec(cur: Option<seq<string>>, xs: seq<string>)
    ensures var r := AppendMissing(cur, xs);
      && OrEmpty(cur) <= OrEmpty(r)
      && (forall x :: x in OrEmpty(r) <==> x in OrEmpty(cur) || x in xs)
      && (forall k :: |OrEmpty(cur)| <= k < |OrEmpty(r)| ==> OrEmpty(r)[k] !in OrEmpty(r)[..k])
      && (r.None? <==> cur.None? && xs == [])
    decreases |xs|
  {
    if xs != [] {
      if xs[0] in OrEmpty(cur) {
        AppendMissingSpec(cur, xs[1..]);
      } else {
        var next := Some(OrEmpty(cur) + [xs[0]]);
        AppendMissingSpec(next, xs[1..]);
        var r := AppendMissing(cur, xs);
        assert OrEmpty(r)[..|OrEmpty(next)|] == OrEmpty(next);
      }
    }
  }

  /** The modules after `_get_protocol_providers` has appended each
      introspected protocol that is not declared yet. */
  function ProvidesUpdated(mods: seq<ModuleConfig>, intro: Introspection): (r: seq<ModuleConfig>)
    ensures |r| == |mods|
  {
    seq(|mods|, i requires 0 <= i < |mods| =>
      mods[i].(provided := AppendMissing(mods[i].provided, OrEmpty(intro.protocolsOf(mods[i].modulePath)))))
  }

  /** Rewriting entry `i` of a list updated up to `i` extends the updated
      prefix by one. */
  lemma ProvidesUpdatedStep(mods0: seq<ModuleConfig>, intro: Introspection, mods: seq<ModuleConfig>, i: nat, m: ModuleConfig)
    requires i < |mods0| == |mods|
    requires mods[..i] == ProvidesUpdated(mods0, intro)[..i]
    requires mods[i..] == mods0[i..]
    requires m == mods0[i].(provided := AppendMissing(mods0[i].provided, OrEmpty(intro.protocolsOf(mods0[i].modulePath))))
    ensures mods[i := m][..i + 1] == mods[..i] + [m]
    ensures mods[i := m][..i + 1] == ProvidesUpdated(mods0, intro)[..i + 1]
    ensures mods[i := m][i + 1..] == mods0[i + 1..]
  {
    assert mods[i..][1..] == mods[i + 1..];
    assert mods0[i..][1..] == mods0[i + 1..];
  }

  /** The provider list of protocol `p`: one entry of the module's id per
      occurrence of `p` in its `provides`, modules in declaration order. */
  function ProvidersOf(mods: seq<ModuleConfig>, p: string): seq<string>
  {
    if mods == [] then []
    else
      var m := mods[|mods| - 1];
      ProvidersOf(mods[..|mods| - 1], p) + Repeat(m.id, Count(OrEmpty(m.provided), p))
  }

  /** `_get_module_requirements`: module id to its non-empty list of required
      type names; a later module with the same id overwrites. */
  function RequirementsTable(mods: seq<ModuleConfig>, intro: Introspection): map<string, seq<string>>
  {
    if mods == [] then map[]
    else
      var m := mods[|mods| - 1];
      var t := RequirementsTable(mods[..|mods| - 1], intro);
      var req := intro.slotsOf(m.modulePath);
      if req != [] then t[m.id := req] else t
  }

  /** The modules after the `uses` merge of lines 125-132. */
  function UsesUpdated(mods: seq<ModuleConfig>, reqs: map<string, seq<string>>): (r: seq<ModuleConfig>)
    ensures |r| == |mods|
  {
    seq(|mods|, i requires 0 <= i < |mods| =>
      if mods[i].id in reqs
      then mods[i].(uses := AppendMissing(Some(OrEmpty(mods[i].uses)), reqs[mods[i].id]))
      else mods[i])
  }

  /** `if module.uses:` — the module lists at least one protocol. */
  predicate UsesAny(m: ModuleConfig)
  {
    m.uses.Some? && m.uses.value != []
  }

  /** `any(ex.module == m and ex.protocol == p for ex in exchange)`. */
  predicate HasExchange(ex: seq<ExchangeConfig>, m: string, p: string)
  {
    exists k :: 0 <= k < |ex| && ex[k].moduleId == m && ex[k].protocol == p
  }

  /** An exchange that names the one module providing its protocol. */
  ghost predicate Unique(e: ExchangeConfig, prov: seq<ModuleConfig>)
  {
    |ProvidersOf(prov, e.protocol)| == 1 && e.provider == ProvidersOf(prov, e.protocol)[0]
  }

  /** The inner loop shared by both wiring steps: for each protocol the
      consumer uses, skip it when an exchange exists, append one when exactly
      one module provides it, and stop when several do. */
  function Wire(consumer: string, ps: seq<string>, prov: seq<ModuleConfig>, ex: seq<ExchangeConfig>): (r: Wired)
    ensures ex <= r.exchange
    ensures forall k :: |ex| <= k < |r.exchange| ==>
      r.exchange[k].moduleId == consumer && r.exchange[k].protocol in ps
      && Unique(r.exchange[k], prov)
      && !HasExchange(r.exchange[..k], consumer, r.exchange[k].protocol)
    ensures r.clash.Some? ==>
      r.clash.value.protocol in ps
      && !HasExchange(r.exchange, consumer, r.clash.value.protocol)
      && r.clash.value.candidates == ProvidersOf(prov, r.clash.value.protocol)
      && |r.clash.value.candidates| > 1
    decreases |ps|
  {
    if ps == [] then Wired(ex, None)
    else
      var p := ps[0];
      var candidates := ProvidersOf(prov, p);
      if HasExchange(ex, consumer, p) then Wire(consumer, ps[1..], prov, ex)
      else if |candidates| == 1 then
        var ex' := ex + [ExchangeConfig(consumer, p, candidates[0])];
        assert ex'[..|ex|] == ex;
        Wire(consumer, ps[1..], prov, ex')
      else if |candidates| > 1 then Wired(ex, Some(Clash(p, candidates)))
      else Wire(consumer, ps[1..], prov, ex)
  }

  /** The module loop of `_add_implicit_protocol_exchanges`, lines 135-157. */
  function WireModules(mods: seq<ModuleConfig>, prov: seq<ModuleConfig>, ex: seq<ExchangeConfig>): (r: Wiring)
    ensures ex <= r.exchange
    ensures forall k :: |ex| <= k < |r.exchange| ==> Unique(r.exchange[k], prov)
    ensures r.error.Some? ==> r.error.value.MultipleProviders?
    decreases |mods|
  {
    if mods == [] then Wiring(ex, None)
    else
      var m := mods[0];
      if !UsesAny(m) then WireModules(mods[1..], prov, ex)
      else
        var w := Wire(m.id, m.uses.value, prov, ex);
        if w.clash.Some? then
          Wiring(w.exchange, Some(MultipleProviders(w.clash.value.protocol, m.id, w.clash.value.candidates)))
        else WireModules(mods[1..], prov, w.exchange)
  }

  /** `_add_implicit_entry_handlers`: the same rule for `__entry__` over the
      message-handler protocols, in their fixed order. */
  function WireEntry(mods: seq<ModuleConfig>, ex: seq<ExchangeConfig>): (r: Wiring)
    ensures ex <= r.exchange
    ensures forall k :: |ex| <= k < |r.exchange| ==>
      r.exchange[k].moduleId == EntryId && Unique(r.exchange[k], mods)
    ensures r.error.Some? ==> r.error.value.MultipleHandlers?
  {
    var w := Wire(EntryId, MessageHandlerProtocols, mods, ex);
    if w.clash.Some?
    then Wiring(w.exchange, Some(MultipleHandlers(w.clash.value.protocol, w.clash.value.candidates)))
    else Wiring(w.exchange, None)
  }

  /** The modules once the response module is added and the introspected
      protocols are merged into `provides`. */
  function Provided(c: AgentConfigData, intro: Introspection): seq<ModuleConfig>
  {
    ProvidesUpdated(WithResponseModule(c.modules), intro)
  }

  /** The modules once the constructor requirements are merged into `uses`:
      the module list `populate_implicits` leaves. */
  function Used(c: AgentConfigData, intro: Introspection): seq<ModuleConfig>
  {
    var provided := Provided(c, intro);
    UsesUpdated(provided, RequirementsTable(provided, intro))
  }

  /** Where `populate_implicits` stops when module `k` of `w` (the list
      with the response module) cannot be imported: the introspected
      protocols of the modules before it are merged, the exchange list is
      initialised, and nothing else has happened. */
  function Stopped(c: AgentConfigData, intro: Introspection, w: seq<ModuleConfig>, k: nat): Outcome
    requires k < |w|
  {
    Outcome(AgentConfigData(c.id, ProvidesUpdated(w, intro)[..k] + w[k..], Some(OrEmpty(c.exchange))),
            Some(UnimportablePath(w[k].id, w[k].modulePath)))
  }

  /** `populate_implicits` once every module path imports: requirements
      merged, then the modules wired, then `__entry__`. */
  function Resolved(c: AgentConfigData, intro: Introspection): Outcome
  {
    var provided := Provided(c, intro);
    var used := Used(c, intro);
    var w := WireModules(used, provided, OrEmpty(c.exchange));
    if w.error.Some? then Outcome(AgentConfigData(c.id, used, Some(w.exchange)), w.error)
    else
      var e := WireEntry(used, w.exchange);
      Outcome(AgentConfigData(c.id, used, Some(e.exchange)), e.error)
  }

  /** `populate_implicits`, step by step. */
  function Populate(c: AgentConfigData, intro: Introspection): Outcome
  {
    var w := WithResponseModule(c.modules);
    var bad := FirstUnimportable(w);
    if bad.Some? then Stopped(c, intro, w, bad.value) else Resolved(c, intro)
  }

  // ---------------------------------------------------------------------
  // Properties of the resolver
  // ---------------------------------------------------------------------

  /** Provider lists follow module declaration order. */
  lemma {:induction false} ProvidersOfAppend(a: seq<ModuleConfig>, b: seq<ModuleConfig>, p: string)
    ensures ProvidersOf(a + b, p) == ProvidersOf(a, p) + ProvidersOf(b, p)
    decreases |b|
  {
    if b == [] {
      assert a + b == a;
    } else {
      var b' := b[..|b| - 1];
      assert (a + b)[..|a + b| - 1] == a + b';
      ProvidersOfAppend(a, b', p);
    }
  }

  /** A module id is among the providers of `p` exactly when a module with
      that id lists `p` in its `provides`. */
  lemma {:induction false} ProvidersOfMember(mods: seq<ModuleConfig>, p: string, x: string)
    ensures x in ProvidersOf(mods, p) <==>
      exists i :: 0 <= i < |mods| && mods[i].id == x && p in OrEmpty(mods[i].provided)
  {
    if mods != [] {
      var init := mods[..|mods| - 1];
      var m := mods[|mods| - 1];
      var tail := Repeat(m.id, Count(OrEmpty(m.provided), p));
      assert ProvidersOf(mods, p) == ProvidersOf(init, p) + tail;
      ProvidersOfMember(init, p, x);
      assert x in tail <==> m.id == x && p in OrEmpty(m.provided) by {
        CountZero(OrEmpty(m.provided), p);
        if Count(OrEmpty(m.provided), p) > 0 {
          assert tail[0] == m.id;
        }
      }
      assert forall i :: 0 <= i < |init| ==> init[i] == mods[i];
    }
  }

  /** Only ids and `provides` decide the provider lists. */
  lemma {:induction false} ProvidersOfSame(a: seq<ModuleConfig>, b: seq<ModuleConfig>, p: string)
    requires |a| == |b|
    requires forall i :: 0 <= i < |a| ==> a[i].id == b[i].id && a[i].provided == b[i].provided
    ensures ProvidersOf(a, p) == ProvidersOf(b, p)
  {
    if a != [] {
      ProvidersOfSame(a[..|a| - 1], b[..|b| - 1], p);
    }
  }

  lemma ProvidersOfUsed(c: AgentConfigData, intro: Introspection, p: string)
    ensures ProvidersOf(Used(c, intro), p) == ProvidersOf(Provided(c, intro), p)
  {
    ProvidersOfSame(Used(c, intro), Provided(c, intro), p);
  }

  /** `_get_module_requirements` records a module id exactly when some module
      with that id has requirements, and the last such module wins. */
  lemma RequirementsTableSpec(mods: seq<ModuleConfig>, intro: Introspection)
    ensures forall x :: x in RequirementsTable(mods, intro) <==>
      exists i :: 0 <= i < |mods| && mods[i].id == x && intro.slotsOf(mods[i].modulePath) != []
    ensures forall i :: (0 <= i < |mods| && intro.slotsOf(mods[i].modulePath) != []
                         && (forall j :: i < j < |mods| && mods[j].id == mods[i].id ==> intro.slotsOf(mods[j].modulePath) == []))
                        ==> RequirementsTable(mods, intro)[mods[i].id] == intro.slotsOf(mods[i].modulePath)
  {
    RequirementsTableKeys(mods, intro);
    forall i | 0 <= i < |mods| && intro.slotsOf(mods[i].modulePath) != []
      && (forall j :: i < j < |mods| && mods[j].id == mods[i].id ==> intro.slotsOf(mods[j].modulePath) == [])
      ensures RequirementsTable(mods, intro)[mods[i].id] == intro.slotsOf(mods[i].modulePath)
    {
      RequirementsTableLast(mods, intro, i);
    }
  }

  lemma {:induction false} RequirementsTableKeys(mods: seq<ModuleConfig>, intro: Introspection)
    ensures forall x :: x in RequirementsTable(mods, intro) <==>
      exists i :: 0 <= i < |mods| && mods[i].id == x && intro.slotsOf(mods[i].modulePath) != []
  {
    if mods != [] {
      var init := mods[..|mods| - 1];
      RequirementsTableKeys(init, intro);
      assert forall i :: 0 <= i < |init| ==> init[i] == mods[i];
      forall x | x in RequirementsTable(mods, intro)
        ensures exists i :: 0 <= i < |mods| && mods[i].id == x && intro.slotsOf(mods[i].modulePath) != []
      {
        if x !in RequirementsTable(init, intro) {
          assert mods[|mods| - 1].id == x;
        } else {
          var i :| 0 <= i < |init| && init[i].id == x && intro.slotsOf(init[i].modulePath) != [];
          assert mods[i] == init[i];
        }
      }
      forall x | exists i :: 0 <= i < |mods| && mods[i].id == x && intro.slotsOf(mods[i].modulePath) != []
        ensures x in RequirementsTable(mods, intro)
      {
        var i :| 0 <= i < |mods| && mods[i].id == x && intro.slotsOf(mods[i].modulePath) != [];
        if i < |mods| - 1 {
          assert init[i] == mods[i];
        }
      }
    }
  }

  lemma {:induction false} RequirementsTableLast(mods: seq<ModuleConfig>, intro: Introspection, i: nat)
    requires i < |mods| && intro.slotsOf(mods[i].modulePath) != []
    requires forall j :: i < j < |mods| && mods[j].id == mods[i].id ==> intro.slotsOf(mods[j].modulePath) == []
    ensures mods[i].id in RequirementsTable(mods, intro)
    ensures RequirementsTable(mods, intro)[mods[i].id] == intro.slotsOf(mods[i].modulePath)
  {
    var init := mods[..|mods| - 1];
    if i < |mods| - 1 {
      assert init[i] == mods[i];
      forall j | i < j < |init| && init[j].id == init[i].id
        ensures intro.slotsOf(init[j].modulePath) == []
      {
        assert init[j] == mods[j];
      }
      RequirementsTableLast(init, intro, i);
    }
  }

  /** After the `uses` merge, a module whose id has requirements holds every
      required type name, after its earlier entries in their order; any
      other module's `uses` is untouched. */
  lemma UsesCoverRequirements(mods: seq<ModuleConfig>, reqs: map<string, seq<string>>, i: int)
    requires 0 <= i < |mods|
    ensures var m := UsesUpdated(mods, reqs)[i];
      && m.id == mods[i].id && m.provided == mods[i].provided
      && (mods[i].id in reqs ==>
            OrEmpty(mods[i].uses) <= OrEmpty(m.uses)
            && (forall t :: t in reqs[mods[i].id] ==> t in OrEmpty(m.uses))
            && (forall k :: |OrEmpty(mods[i].uses)| <= k < |OrEmpty(m.uses)| ==> OrEmpty(m.uses)[k] !in OrEmpty(m.uses)[..k]))
      && (mods[i].id !in reqs ==> m.uses == mods[i].uses)
  {
    if mods[i].id in reqs {
      AppendMissingSpec(Some(OrEmpty(mods[i].uses)), reqs[mods[i].id]);
    }
  }

  /** When `populate_implicits` stops at module `k`, the modules before it
      have their introspected protocols merged and the rest are as they
      were. */
  lemma StoppedModules(c: AgentConfigData, intro: Introspection, w: seq<ModuleConfig>, k: nat)
    requires k < |w|
    ensures var mods := Stopped(c, intro, w, k).config.modules;
      |mods| == |w| && forall i :: 0 <= i < |w| ==> mods[i] == (if i < k then ProvidesUpdated(w, intro)[i] else w[i])
  {
  }

  /** The provider loop stops at module `i` when its path is the first
      that cannot be imported. */
  lemma StopsAt(mods0: seq<ModuleConfig>, intro: Introspection, mods: seq<ModuleConfig>, i: nat)
    requires i < |mods0| == |mods|
    requires mods[..i] == ProvidesUpdated(mods0, intro)[..i] && mods[i..] == mods0[i..]
    requires forall j :: 0 <= j < i ==> !ImportRaises(mods0[j].modulePath)
    requires ImportRaises(mods0[i].modulePath)
    ensures FirstUnimportable(mods0) == Some(i)
    ensures mods == ProvidesUpdated(mods0, intro)[..i] + mods0[i..]
  {
    assert mods == mods[..i] + mods[i..];
    FirstUnimportableAt(mods0, i);
  }

  lemma {:induction false} FirstUnimportableAt(mods: seq<ModuleConfig>, i: nat)
    requires i < |mods| && ImportRaises(mods[i].modulePath)
    requires forall j :: 0 <= j < i ==> !ImportRaises(mods[j].modulePath)
    ensures FirstUnimportable(mods) == Some(i)
  {
    if i > 0 {
      assert !ImportRaises(mods[0].modulePath);
      assert forall j :: 0 <= j < i - 1 ==> mods[1..][j] == mods[j + 1];
      FirstUnimportableAt(mods[1..], i - 1);
    }
  }

  /** The response module is added exactly when no module has its id, so
      afterwards exactly one does (unless the configuration declared it
      more than once); the declared modules keep their place, id, path and
      config. */
  lemma PopulateResponse(c: AgentConfigData, intro: Introspection)
    ensures var mods := Populate(c, intro).config.modules;
      && Count(Ids(mods), ResponseId) == (if Count(Ids(c.modules), ResponseId) == 0 then 1 else Count(Ids(c.modules), ResponseId))
      && |mods| == |c.modules| + (if HasResponse(c.modules) then 0 else 1)
      && (forall i :: 0 <= i < |c.modules| ==>
            mods[i].id == c.modules[i].id && mods[i].modulePath == c.modules[i].modulePath
            && mods[i].config == c.modules[i].config)
      && (!HasResponse(c.modules) ==>
            var r := mods[|c.modules|];
            r.id == ResponseId && r.modulePath == ResponseHandlerPath && ResponseProtocol in OrEmpty(r.provided))
  {
    var w := WithResponseModule(c.modules);
    var mods := Populate(c, intro).config.modules;
    PopulateKeepsModules(c, intro);
    if !HasResponse(c.modules) {
      PopulateResponseProvides(c, intro);
    }
    ResponseCount(c, w, mods);
  }

  /** Whether or not it stops early, `populate_implicits` keeps the id, path
      and config of every module of the list with the response module. */
  lemma PopulateKeepsModules(c: AgentConfigData, intro: Introspection)
    ensures var mods := Populate(c, intro).config.modules; var w := WithResponseModule(c.modules);
      && |mods| == |w|
      && (forall i :: 0 <= i < |w| ==>
            mods[i].id == w[i].id && mods[i].modulePath == w[i].modulePath && mods[i].config == w[i].config)
  {
    var w := WithResponseModule(c.modules);
    var bad := FirstUnimportable(w);
    if bad.Some? {
      StoppedModules(c, intro, w, bad.value);
    }
  }

  /** An added response module provides `ResponseProtocol` afterwards. */
  lemma PopulateResponseProvides(c: AgentConfigData, intro: Introspection)
    requires !HasResponse(c.modules)
    ensures var mods := Populate(c, intro).config.modules;
      |mods| > |c.modules| && ResponseProtocol in OrEmpty(mods[|c.modules|].provided)
  {
    var w := WithResponseModule(c.modules);
    var bad := FirstUnimportable(w);
    var n := |c.modules|;
    if bad.Some? {
      StoppedModules(c, intro, w, bad.value);
    }
    var mods := Populate(c, intro).config.modules;
    if bad.None? || n < bad.value {
      AppendMissingSpec(w[n].provided, OrEmpty(intro.protocolsOf(w[n].modulePath)));
      assert mods[n].provided == ProvidesUpdated(w, intro)[n].provided;
    }
  }

  /** The count and shape of `PopulateResponse` for any module list that
      keeps the ids, paths and configs of the list with the response
      module. */
  lemma ResponseCount(c: AgentConfigData, w: seq<ModuleConfig>, mods: seq<ModuleConfig>)
    requires w == WithResponseModule(c.modules) && |mods| == |w|
    requires forall i :: 0 <= i < |w| ==> mods[i].id == w[i].id
    ensures Count(Ids(mods), ResponseId) == (if Count(Ids(c.modules), ResponseId) == 0 then 1 else Count(Ids(c.modules), ResponseId))
  {
    assert Ids(mods) == Ids(w);
    CountZero(Ids(c.modules), ResponseId);
    assert HasResponse(c.modules) <==> ResponseId in Ids(c.modules);
    if !HasResponse(c.modules) {
      assert Ids(w) == Ids(c.modules) + [ResponseId];
      CountSnoc(Ids(c.modules), ResponseId, ResponseId);
    }
  }

  lemma HasExchangeGrows(a: seq<ExchangeConfig>, b: seq<ExchangeConfig>, m: string, p: string)
    requires a <= b && HasExchange(a, m, p)
    ensures HasExchange(b, m, p)
  {
    var k :| 0 <= k < |a| && a[k].moduleId == m && a[k].protocol == p;
    assert b[k] == a[k];
  }

  /** Exchanges appended for uniquely provided protocols change nothing
      about protocols that do not have exactly one provider. */
  lemma HasExchangeBeyondUnique(ex: seq<ExchangeConfig>, ex': seq<ExchangeConfig>, prov: seq<ModuleConfig>, m: string, p: string)
    requires ex <= ex'
    requires forall k :: |ex| <= k < |ex'| ==> Unique(ex'[k], prov)
    requires |ProvidersOf(prov, p)| != 1
    ensures HasExchange(ex', m, p) <==> HasExchange(ex, m, p)
  {
    if HasExchange(ex', m, p) {
      var k :| 0 <= k < |ex'| && ex'[k].moduleId == m && ex'[k].protocol == p;
      if k < |ex| {
        assert ex[k] == ex'[k];
      }
    }
    if HasExchange(ex, m, p) {
      HasExchangeGrows(ex, ex', m, p);
    }
  }

  /** One consumer's wiring stops exactly when one of its protocols has no
      exchange yet and several providers. */
  lemma {:induction false} WireClashIff(consumer: string, ps: seq<string>, prov: seq<ModuleConfig>, ex: seq<ExchangeConfig>)
    ensures Wire(consumer, ps, prov, ex).clash.Some? <==>
      exists p :: p in ps && !HasExchange(ex, consumer, p) && |ProvidersOf(prov, p)| > 1
    decreases |ps|
  {
    if ps != [] {
      var p := ps[0];
      var cands := ProvidersOf(prov, p);
      assert forall q :: q in ps <==> q == p || q in ps[1..];
      if HasExchange(ex, consumer, p) {
        WireClashIff(consumer, ps[1..], prov, ex);
      } else if |cands| == 1 {
        var ex' := ex + [ExchangeConfig(consumer, p, cands[0])];
        WireClashIff(consumer, ps[1..], prov, ex');
        forall q | |ProvidersOf(prov, q)| > 1
          ensures HasExchange(ex', consumer, q) <==> HasExchange(ex, consumer, q)
        {
          HasExchangeBeyondUnique(ex, ex', prov, consumer, q);
        }
      } else if |cands| == 0 {
        WireClashIff(consumer, ps[1..], prov, ex);
      }
    }
  }

  /** When one consumer's wiring does not stop, each of its protocols with
      exactly one provider ends up with an exchange. */
  lemma {:induction false} WireReaches(consumer: string, ps: seq<string>, prov: seq<ModuleConfig>, ex: seq<ExchangeConfig>, p: string)
    requires Wire(consumer, ps, prov, ex).clash.None?
    requires p in ps && |ProvidersOf(prov, p)| == 1
    ensures HasExchange(Wire(consumer, ps, prov, ex).exchange, consumer, p)
    decreases |ps|
  {
    var q := ps[0];
    var cands := ProvidersOf(prov, q);
    var r := Wire(consumer, ps, prov, ex);
    if HasExchange(ex, consumer, q) || |cands| == 0 {
      if q == p {
        HasExchangeGrows(ex, r.exchange, consumer, p);
      } else {
        WireReaches(consumer, ps[1..], prov, ex, p);
      }
    } else {
      var ex' := ex + [ExchangeConfig(consumer, q, cands[0])];
      if q == p {
        assert ex'[|ex|].moduleId == consumer && ex'[|ex|].protocol == p;
        HasExchangeGrows(ex', r.exchange, consumer, p);
      } else {
        WireReaches(consumer, ps[1..], prov, ex', p);
      }
    }
  }

  /** Some module has a used protocol without an exchange in `ex` and with
      several providers. */
  ghost predicate ModuleClash(mods: seq<ModuleConfig>, prov: seq<ModuleConfig>, ex: seq<ExchangeConfig>)
  {
    exists i, p :: 0 <= i < |mods| && p in OrEmpty(mods[i].uses)
      && !HasExchange(ex, mods[i].id, p) && |ProvidersOf(prov, p)| > 1
  }

  lemma ModuleClashCons(mods: seq<ModuleConfig>, prov: seq<ModuleConfig>, ex: seq<ExchangeConfig>)
    requires mods != []
    ensures ModuleClash(mods, prov, ex) <==>
      (exists p :: p in OrEmpty(mods[0].uses) && !HasExchange(ex, mods[0].id, p) && |ProvidersOf(prov, p)| > 1)
      || ModuleClash(mods[1..], prov, ex)
  {
    if ModuleClash(mods, prov, ex) {
      var i, p :| 0 <= i < |mods| && p in OrEmpty(mods[i].uses)
        && !HasExchange(ex, mods[i].id, p) && |ProvidersOf(prov, p)| > 1;
      if i > 0 {
        assert mods[1..][i - 1] == mods[i];
      }
    }
    if ModuleClash(mods[1..], prov, ex) {
      var i, p :| 0 <= i < |mods[1..]| && p in OrEmpty(mods[1..][i].uses)
        && !HasExchange(ex, mods[1..][i].id, p) && |ProvidersOf(prov, p)| > 1;
      assert mods[i + 1] == mods[1..][i];
    }
  }

  lemma ModuleClashBeyondUnique(mods: seq<ModuleConfig>, prov: seq<ModuleConfig>, ex: seq<ExchangeConfig>, ex': seq<ExchangeConfig>)
    requires ex <= ex'
    requires forall k :: |ex| <= k < |ex'| ==> Unique(ex'[k], prov)
    ensures ModuleClash(mods, prov, ex) <==> ModuleClash(mods, prov, ex')
  {
    forall m, p | |ProvidersOf(prov, p)| > 1
      ensures HasExchange(ex', m, p) <==> HasExchange(ex, m, p)
    {
      HasExchangeBeyondUnique(ex, ex', prov, m, p);
    }
  }

  /** The module step raises exactly when some module uses a protocol that
      several modules provide and no exchange configured beforehand covers
      that pair: exchanges it adds itself never hide a later clash. */
  lemma {:induction false} WireModulesFailsIff(mods: seq<ModuleConfig>, prov: seq<ModuleConfig>, ex: seq<ExchangeConfig>)
    ensures WireModules(mods, prov, ex).error.Some? <==> ModuleClash(mods, prov, ex)
    decreases |mods|
  {
    if mods != [] {
      var m := mods[0];
      ModuleClashCons(mods, prov, ex);
      if !UsesAny(m) {
        WireModulesFailsIff(mods[1..], prov, ex);
      } else {
        var w := Wire(m.id, m.uses.value, prov, ex);
        WireClashIff(m.id, m.uses.value, prov, ex);
        if w.clash.None? {
          WireModulesFailsIff(mods[1..], prov, w.exchange);
          ModuleClashBeyondUnique(mods[1..], prov, ex, w.exchange);
        }
      }
    }
  }

  /** When the module step does not raise, each used protocol with exactly
      one provider has an exchange for its module. */
  lemma {:induction false} WireModulesReaches(mods: seq<ModuleConfig>, prov: seq<ModuleConfig>, ex: seq<ExchangeConfig>, i: int, p: string)
    requires WireModules(mods, prov, ex).error.None?
    requires 0 <= i < |mods| && p in OrEmpty(mods[i].uses) && |ProvidersOf(prov, p)| == 1
    ensures HasExchange(WireModules(mods, prov, ex).exchange, mods[i].id, p)
    decreases |mods|
  {
    var m := mods[0];
    var r := WireModules(mods, prov, ex);
    if !UsesAny(m) {
      assert i > 0;
      assert mods[1..][i - 1] == mods[i];
      WireModulesReaches(mods[1..], prov, ex, i - 1, p);
    } else {
      var w := Wire(m.id, m.uses.value, prov, ex);
      if i == 0 {
        WireReaches(m.id, m.uses.value, prov, ex, p);
        HasExchangeGrows(w.exchange, r.exchange, m.id, p);
      } else {
        assert mods[1..][i - 1] == mods[i];
        WireModulesReaches(mods[1..], prov, w.exchange, i - 1, p);
      }
    }
  }

  /** Some message-handler protocol lacks an `__entry__` exchange in `ex`
      and has several handlers. */
  ghost predicate EntryClash(mods: seq<ModuleConfig>, ex: seq<ExchangeConfig>)
  {
    exists p :: p in MessageHandlerProtocols && !HasExchange(ex, EntryId, p) && |ProvidersOf(mods, p)| > 1
  }

  /** Explicit exchanges are never removed, and every exchange
      `populate_implicits` adds names the one module providing its
      protocol. */
  lemma PopulateKeepsExplicit(c: AgentConfigData, intro: Introspection)
    ensures var o := Populate(c, intro);
      && o.config.exchange.Some?
      && OrEmpty(c.exchange) <= o.config.exchange.value
      && forall k :: |OrEmpty(c.exchange)| <= k < |o.config.exchange.value| ==>
           Unique(o.config.exchange.value[k], o.config.modules)
  {
    var used := Used(c, intro);
    var provided := Provided(c, intro);
    forall p
      ensures ProvidersOf(used, p) == ProvidersOf(provided, p)
    {
      ProvidersOfUsed(c, intro, p);
    }
  }

  /** `populate_implicits` raises exactly when a module path cannot be
      imported, or, when all can, when a wired pair clashes: a module's
      used protocol, or a message-handler protocol of `__entry__`, that has
      several providers and no explicit exchange. Import errors come
      first, then module clashes. */
  lemma PopulateFailsIff(c: AgentConfigData, intro: Introspection)
    ensures var o := Populate(c, intro);
      var bad := exists i :: 0 <= i < |c.modules| && ImportRaises(c.modules[i].modulePath);
      var used := o.config.modules;
      var ex := OrEmpty(c.exchange);
      && ((o.error.Some? && o.error.value.UnimportablePath?) <==> bad)
      && (!bad ==> ((o.error.Some? && o.error.value.MultipleProviders?) <==> ModuleClash(used, used, ex)))
      && (!bad ==> ((o.error.Some? && o.error.value.MultipleHandlers?) <==> !ModuleClash(used, used, ex) && EntryClash(used, ex)))
  {
    ResponseModuleImports(c);
    if FirstUnimportable(WithResponseModule(c.modules)).None? {
      ResolvedFailsIff(c, intro);
    }
  }

  /** The response module's path imports, so only declared modules can
      stop `populate_implicits` on an import. */
  lemma ResponseModuleImports(c: AgentConfigData)
    ensures FirstUnimportable(WithResponseModule(c.modules)).Some? <==>
      exists i :: 0 <= i < |c.modules| && ImportRaises(c.modules[i].modulePath)
  {
    var w := WithResponseModule(c.modules);
    var r := FirstUnimportable(w);
    if r.Some? {
      if !HasResponse(c.modules) {
        ResponsePathImports();
        assert w[|c.modules|].modulePath == ResponseHandlerPath;
      }
      assert r.value < |c.modules|;
      assert w[r.value] == c.modules[r.value];
    }
    if exists i :: 0 <= i < |c.modules| && ImportRaises(c.modules[i].modulePath) {
      var i :| 0 <= i < |c.modules| && ImportRaises(c.modules[i].modulePath);
      assert w[i] == c.modules[i];
    }
  }

  lemma ResponsePathImports()
    ensures !ImportRaises(ResponseHandlerPath)
  {
    var path := ResponseHandlerPath;
    assert path[0] == 'x' && path[5] == '.';
    DottedPathImports(path);
  }

  /** The first module whose path cannot be imported stops
      `populate_implicits` with its id and path: the exchange list is only
      initialised, the modules before it have their introspected protocols
      merged, and it and the modules after it are left as declared. */
  lemma PopulateStopsAt(c: AgentConfigData, intro: Introspection, k: nat)
    requires k < |c.modules| && ImportRaises(c.modules[k].modulePath)
    requires forall j :: 0 <= j < k ==> !ImportRaises(c.modules[j].modulePath)
    ensures var o := Populate(c, intro);
      && o.error == Some(UnimportablePath(c.modules[k].id, c.modules[k].modulePath))
      && o.config.exchange == Some(OrEmpty(c.exchange))
      && (forall i :: k <= i < |c.modules| ==> o.config.modules[i] == c.modules[i])
      && (forall i :: 0 <= i < k ==>
            (o.config.modules[i].provided ==
             AppendMissing(c.modules[i].provided, OrEmpty(intro.protocolsOf(c.modules[i].modulePath)))))
  {
    var w := WithResponseModule(c.modules);
    assert forall i :: 0 <= i < |c.modules| ==> w[i] == c.modules[i];
    FirstUnimportableAt(w, k);
    StoppedModules(c, intro, w, k);
  }

  /** `PopulateFailsIff` once every module path imports. */
  lemma ResolvedFailsIff(c: AgentConfigData, intro: Introspection)
    ensures var o := Resolved(c, intro);
      var used := o.config.modules;
      var ex := OrEmpty(c.exchange);
      && ((o.error.Some? && o.error.value.MultipleProviders?) <==> ModuleClash(used, used, ex))
      && ((o.error.Some? && o.error.value.MultipleHandlers?) <==> !ModuleClash(used, used, ex) && EntryClash(used, ex))
  {
    var used := Used(c, intro);
    var provided := Provided(c, intro);
    var ex := OrEmpty(c.exchange);
    forall p
      ensures ProvidersOf(used, p) == ProvidersOf(provided, p)
    {
      ProvidersOfUsed(c, intro, p);
    }
    WireModulesFailsIff(used, provided, ex);
    var w := WireModules(used, provided, ex);
    if w.error.None? {
      WireClashIff(EntryId, MessageHandlerProtocols, used, w.exchange);
      forall p | |ProvidersOf(used, p)| > 1
        ensures HasExchange(w.exchange, EntryId, p) <==> HasExchange(ex, EntryId, p)
      {
        HasExchangeBeyondUnique(ex, w.exchange, used, EntryId, p);
      }
    }
  }

  /** On success, a module's used protocol has an exchange exactly when one
      was configured explicitly or exactly one module provides it; so a
      protocol nobody provides gets none, silently. */
  lemma PopulateWiresModules(c: AgentConfigData, intro: Introspection, i: int, p: string)
    requires Populate(c, intro).error.None?
    requires 0 <= i < |Used(c, intro)| && p in OrEmpty(Used(c, intro)[i].uses)
    ensures var o := Populate(c, intro);
      HasExchange(o.config.exchange.value, o.config.modules[i].id, p) <==>
        HasExchange(OrEmpty(c.exchange), o.config.modules[i].id, p) || |ProvidersOf(o.config.modules, p)| == 1
  {
    var used := Used(c, intro);
    var provided := Provided(c, intro);
    var ex := OrEmpty(c.exchange);
    var w := WireModules(used, provided, ex);
    var final := Populate(c, intro).config.exchange.value;
    PopulateKeepsExplicit(c, intro);
    ProvidersOfUsed(c, intro, p);
    if |ProvidersOf(used, p)| == 1 {
      WireModulesReaches(used, provided, ex, i, p);
      HasExchangeGrows(w.exchange, final, used[i].id, p);
    } else {
      HasExchangeBeyondUnique(ex, final, used, used[i].id, p);
    }
  }

  /** On success, `__entry__` has an exchange for a message-handler protocol
      exactly when one was configured explicitly or exactly one module
      handles it. */
  lemma PopulateWiresEntry(c: AgentConfigData, intro: Introspection, p: string)
    requires Populate(c, intro).error.None?
    requires p in MessageHandlerProtocols
    ensures var o := Populate(c, intro);
      HasExchange(o.config.exchange.value, EntryId, p) <==>
        HasExchange(OrEmpty(c.exchange), EntryId, p) || |ProvidersOf(o.config.modules, p)| == 1
  {
    var used := Used(c, intro);
    var provided := Provided(c, intro);
    var ex := OrEmpty(c.exchange);
    var w := WireModules(used, provided, ex);
    var final := Populate(c, intro).config.exchange.value;
    PopulateKeepsExplicit(c, intro);
    if |ProvidersOf(used, p)| == 1 {
      WireReaches(EntryId, MessageHandlerProtocols, used, w.exchange, p);
    } else {
      HasExchangeBeyondUnique(ex, final, used, EntryId, p);
    }
  }

  /** A protocol that reflection reports for a module class counts for that
      module in the provider and handler lists, even when the configuration
      did not declare it, once the provider loop has reached the module:
      no module up to it has a path that cannot be imported. */
  lemma IntrospectedCounts(c: AgentConfigData, intro: Introspection, i: int, p: string)
    requires 0 <= i < |c.modules|
    requires forall j :: 0 <= j <= i ==> !ImportRaises(c.modules[j].modulePath)
    requires intro.protocolsOf(c.modules[i].modulePath).Some?
    requires p in intro.protocolsOf(c.modules[i].modulePath).value
    ensures c.modules[i].id in ProvidersOf(Populate(c, intro).config.modules, p)
  {
    var w := WithResponseModule(c.modules);
    assert w[i] == c.modules[i];
    PopulateMergedAt(c, intro, i);
    PopulateKeepsModules(c, intro);
    MergedCounts(Populate(c, intro).config.modules, w, intro, i, p);
  }

  /** A module whose `provides` has its introspected protocols merged is a
      provider of each of them. */
  lemma MergedCounts(mods: seq<ModuleConfig>, w: seq<ModuleConfig>, intro: Introspection, i: nat, p: string)
    requires i < |mods| && i < |w| && mods[i].id == w[i].id
    requires mods[i].provided == ProvidesUpdated(w, intro)[i].provided
    requires intro.protocolsOf(w[i].modulePath).Some? && p in intro.protocolsOf(w[i].modulePath).value
    ensures w[i].id in ProvidersOf(mods, p)
  {
    AppendMissingSpec(w[i].provided, OrEmpty(intro.protocolsOf(w[i].modulePath)));
    ProvidersOfMember(mods, p, w[i].id);
  }

  /** A module the provider loop has reached has its introspected protocols
      merged, whether or not a later module stops the loop. */
  lemma PopulateMergedAt(c: AgentConfigData, intro: Introspection, i: nat)
    requires i < |c.modules|
    requires forall j :: 0 <= j <= i ==> !ImportRaises(c.modules[j].modulePath)
    ensures var mods := Populate(c, intro).config.modules;
      i < |mods| && mods[i].provided == ProvidesUpdated(WithResponseModule(c.modules), intro)[i].provided
  {
    var w := WithResponseModule(c.modules);
    var bad := FirstUnimportable(w);
    if bad.Some? {
      var k := bad.value;
      assert forall j :: 0 <= j < |c.modules| ==> w[j] == c.modules[j];
      assert i < k;
      StoppedModules(c, intro, w, k);
    } else {
      assert Populate(c, intro).config.modules == Used(c, intro);
    }
  }

  // ---------------------------------------------------------------------
  // The configuration object and its in-place steps
  // ---------------------------------------------------------------------

  /** `defaultdict(list)` lookup: a missing protocol has no providers. */
  function Lookup<K, V>(table: map<K, seq<V>>, p: K): seq<V>
  {
    if p in table then table[p] else []
  }

  lemma ProvidersOfSnoc(mods: seq<ModuleConfig>, m: ModuleConfig, p: string)
    ensures ProvidersOf(mods + [m], p) == ProvidersOf(mods, p) + Repeat(m.id, Count(OrEmpty(m.provided), p))
  {
    assert (mods + [m])[..|mods|] == mods;
  }

  lemma GrownNil<K(!new), V>(t: map<K, seq<V>>, id: V, xs: seq<K>)
    ensures Grown(t, t, id, xs[|xs|..])
  {
    assert xs[|xs|..] == [];
  }

  /** One module's contribution to the provider table: its declared
      protocols, then the introspected ones it did not declare. */
  lemma ProvidersStep(t0: map<string, seq<string>>, t1: map<string, seq<string>>, t2: map<string, seq<string>>,
                      done: seq<ModuleConfig>, m: ModuleConfig, cur: Option<seq<string>>)
    requires forall p :: Lookup(t0, p) == ProvidersOf(done, p)
    requires Grown(t1, t0, m.id, OrEmpty(m.provided))
    requires OrEmpty(m.provided) <= OrEmpty(cur)
    requires Grown(t2, t1, m.id, OrEmpty(cur)[|OrEmpty(m.provided)|..])
    ensures forall p :: Lookup(t2, p) == ProvidersOf(done + [m.(provided := cur)], p)
  {
    var declared := OrEmpty(m.provided);
    var extra := OrEmpty(cur)[|declared|..];
    assert OrEmpty(cur) == declared + extra;
    forall p
      ensures Lookup(t2, p) == ProvidersOf(done + [m.(provided := cur)], p)
    {
      ProvidersOfSnoc(done, m.(provided := cur), p);
      CountAppend(declared, extra, p);
      RepeatAdd(m.id, Count(declared, p), Count(extra, p));
      var a := ProvidersOf(done, p);
      var r1 := Repeat(m.id, Count(declared, p));
      var r2 := Repeat(m.id, Count(extra, p));
      assert Lookup(t2, p) == (a + r1) + r2;
      SeqAssoc(a, r1, r2);
    }
  }

  lemma SeqAssoc<T>(a: seq<T>, b: seq<T>, c: seq<T>)
    ensures (a + b) + c == a + (b + c)
  {
  }

  /** The declared-provides loop of lines 167-169: `id` is appended to the
      provider list of each protocol, once per occurrence. */
  method AddProviders(table: map<string, seq<string>>, id: string, protocols: seq<string>)
    returns (t: map<string, seq<string>>)
    ensures forall p :: Lookup(t, p) == Lookup(table, p) + Repeat(id, Count(protocols, p))
  {
    t := table;
    assert protocols[..0] == [];
    for j := 0 to |protocols|
      invariant Grown(t, table, id, protocols[..j])
    {
      var p := protocols[j];
      AddOne(t, table, id, protocols[..j], p);
      assert protocols[..j + 1] == protocols[..j] + [p];
      t := t[p := Lookup(t, p) + [id]];
    }
    assert protocols[..|protocols|] == protocols;
  }

  /** The introspection loop of lines 176-183: each introspected protocol
      not yet in `provides` is appended to it, and `id` to its providers. */
  method AddIntrospected(table: map<string, seq<string>>, id: string, cur: Option<seq<string>>, names: seq<string>)
    returns (next: Option<seq<string>>, t: map<string, seq<string>>)
    ensures next == AppendMissing(cur, names)
    ensures OrEmpty(cur) <= OrEmpty(next)
    ensures Grown(t, table, id, OrEmpty(next)[|OrEmpty(cur)|..])
  {
    next := cur;
    t := table;
    ghost var added: seq<string> := [];
    assert names[0..] == names;
    for k := 0 to |names|
      invariant AppendMissing(next, names[k..]) == AppendMissing(cur, names)
      invariant OrEmpty(next) == OrEmpty(cur) + added
      invariant Grown(t, table, id, added)
    {
      var name := names[k];
      AppendMissingStep(next, names, k);
      if name !in OrEmpty(next) {
        IntrospectOne(t, table, id, cur, next, added, name);
        t := t[name := Lookup(t, name) + [id]];
        next := Some(OrEmpty(next) + [name]);
        added := added + [name];
      }
    }
    assert names[|names|..] == [];
    PrefixRest(OrEmpty(cur), added);
  }

  /** One protocol added by the loop of `AddIntrospected`. */
  lemma IntrospectOne(t: map<string, seq<string>>, table: map<string, seq<string>>, id: string,
                      cur: Option<seq<string>>, next: Option<seq<string>>, added: seq<string>, name: string)
    requires OrEmpty(next) == OrEmpty(cur) + added && Grown(t, table, id, added)
    ensures Grown(t[name := Lookup(t, name) + [id]], table, id, added + [name])
    ensures OrEmpty(Some(OrEmpty(next) + [name])) == OrEmpty(cur) + (added + [name])
  {
    AddOne(t, table, id, added, name);
    SnocAssoc(OrEmpty(cur), added, name);
  }

  lemma PrefixRest<T>(a: seq<T>, b: seq<T>)
    ensures a <= a + b && (a + b)[|a|..] == b
  {
  }

  lemma SnocAssoc<T>(a: seq<T>, b: seq<T>, x: T)
    ensures (a + b) + [x] == a + (b + [x])
  {
  }

  lemma AppendMissingStep(cur: Option<seq<string>>, names: seq<string>, k: nat)
    requires k < |names|
    ensures AppendMissing(cur, names[k..]) ==
      AppendMissing(if names[k] in OrEmpty(cur) then cur else Some(OrEmpty(cur) + [names[k]]), names[k + 1..])
  {
    assert names[k..][1..] == names[k + 1..];
  }

  /** The table `t` is `table` with `id` appended once per occurrence of
      each protocol in `added`. */
  ghost predicate Grown<K(!new), V>(t: map<K, seq<V>>, table: map<K, seq<V>>, id: V, added: seq<K>)
  {
    forall p :: Lookup(t, p) == Lookup(table, p) + Repeat(id, Count(added, p))
  }

  lemma GrownAt<K, V>(t: map<K, seq<V>>, table: map<K, seq<V>>, id: V, added: seq<K>, name: K, p: K)
    requires Lookup(t, p) == Lookup(table, p) + Repeat(id, Count(added, p))
    ensures Lookup(t[name := Lookup(t, name) + [id]], p) == Lookup(table, p) + Repeat(id, Count(added + [name], p))
  {
    CountSnoc(added, name, p);
    if p == name {
      RepeatSnoc(id, Count(added, p));
    }
  }

  lemma AddOne<K(!new), V>(t: map<K, seq<V>>, table: map<K, seq<V>>, id: V, added: seq<K>, name: K)
    requires Grown(t, table, id, added)
    ensures Grown(t[name := Lookup(t, name) + [id]], table, id, added + [name])
  {
    forall p
      ensures Lookup(t[name := Lookup(t, name) + [id]], p) == Lookup(table, p) + Repeat(id, Count(added + [name], p))
    {
      GrownAt(t, table, id, added, name, p);
    }
  }

  /** The inner loop of `_get_message_handlers`: `id` is appended to the
      handler list of each listed protocol that is a message-handler key. */
  method AddHandlers(handlers: map<string, seq<string>>, id: string, protocols: seq<string>)
    returns (h: map<string, seq<string>>)
    ensures h.Keys == handlers.Keys
    ensures forall p :: p in h ==> h[p] == handlers[p] + Repeat(id, Count(protocols, p))
  {
    h := handlers;
    for j := 0 to |protocols|
      invariant h.Keys == handlers.Keys
      invariant forall p :: p in h ==> h[p] == handlers[p] + Repeat(id, Count(protocols[..j], p))
    {
      var p := protocols[j];
      assert protocols[..j + 1] == protocols[..j] + [p];
      forall q
        ensures Count(protocols[..j + 1], q) == Count(protocols[..j], q) + (if p == q then 1 else 0)
      {
        CountSnoc(protocols[..j], p, q);
      }
      RepeatSnoc(id, Count(protocols[..j], p));
      if p in h {
        h := h[p := h[p] + [id]];
      }
    }
    assert protocols[..|protocols|] == protocols;
  }

  class AgentConfig {
    var id: string
    var modules: seq<ModuleConfig>
    var exchange: Option<seq<ExchangeConfig>>

    constructor (id: string, modules: seq<ModuleConfig>, exchange: Option<seq<ExchangeConfig>>)
      ensures this.id == id && this.modules == modules && this.exchange == exchange
    {
      this.id := id;
      this.modules := modules;
      this.exchange := exchange;
    }

    function Data(): AgentConfigData
      reads this
    {
      AgentConfigData(id, modules, exchange)
    }

    /** `populate_implicits`: returns the `ValueError` it raises, if any. */
    method PopulateImplicits(intro: Introspection) returns (err: Option<ConfigError>)
      modifies this
      ensures Data() == Populate(old(Data()), intro).config
      ensures err == Populate(old(Data()), intro).error
    {
      AddImplicitResponseModule();
      InitializeExchangeList();
      err := AddImplicitProtocolExchanges(intro);
      if err.None? {
        err := AddImplicitEntryHandlers();
      }
    }

    method AddImplicitResponseModule()
      modifies this
      ensures modules == WithResponseModule(old(modules))
      ensures id == old(id) && exchange == old(exchange)
    {
      var found := false;
      var i := 0;
      while i < |modules| && !found
        invariant 0 <= i <= |modules|
        invariant found <==> exists k :: 0 <= k < i && modules[k].id == ResponseId
      {
        if modules[i].id == ResponseId {
          found := true;
        }
        i := i + 1;
      }
      if !found {
        modules := modules + [ResponseModule()];
      }
    }

    method InitializeExchangeList()
      modifies this
      ensures exchange == Some(OrEmpty(old(exchange)))
      ensures id == old(id) && modules == old(modules)
    {
      if exchange.None? {
        exchange := Some([]);
      }
    }

    /** `_get_protocol_providers`: appends introspected protocols to each
        module's `provides` and returns the provider table, or stops with
        the error of the first module path that cannot be imported. */
    method GetProtocolProviders(intro: Introspection) returns (table: map<string, seq<string>>, err: Option<ConfigError>)
      modifies this
      ensures id == old(id) && exchange == old(exchange)
      ensures var bad := FirstUnimportable(old(modules));
        && (bad.Some? ==>
              && modules == ProvidesUpdated(old(modules), intro)[..bad.value] + old(modules)[bad.value..]
              && err == Some(UnimportablePath(old(modules)[bad.value].id, old(modules)[bad.value].modulePath)))
        && (bad.None? ==> modules == ProvidesUpdated(old(modules), intro) && err.None?)
      ensures err.None? ==> forall p :: Lookup(table, p) == ProvidersOf(modules, p)
    {
      ghost var mods0 := modules;
      table := map[];
      var i := 0;
      while i < |modules|
        invariant 0 <= i <= |modules| == |mods0|
        invariant modules[..i] == ProvidesUpdated(mods0, intro)[..i]
        invariant modules[i..] == mods0[i..]
        invariant id == old(id) && exchange == old(exchange)
        invariant forall j :: 0 <= j < i ==> !ImportRaises(mods0[j].modulePath)
        invariant forall p :: Lookup(table, p) == ProvidersOf(modules[..i], p)
      {
        var m := modules[i];
        assert m == mods0[i] by { assert modules[i..][0] == mods0[i..][0]; }
        ghost var done := modules[..i];
        ghost var t0 := table;
        var declared := OrEmpty(m.provided);
        table := AddProviders(table, m.id, declared);
        var (pkg, _) := ImportTarget(m.modulePath);
        if pkg == "" || pkg[0] == '.' {
          StopsAt(mods0, intro, modules, i);
          err := Some(UnimportablePath(m.id, m.modulePath));
          return;
        }
        assert !ImportRaises(mods0[i].modulePath);
        ghost var mid := table;
        var cur := m.provided;
        var protocols := intro.protocolsOf(m.modulePath);
        if protocols.Some? {
          cur, table := AddIntrospected(table, m.id, cur, protocols.value);
        } else {
          GrownNil(table, m.id, declared);
        }
        var m' := m.(provided := cur);
        assert cur == AppendMissing(m.provided, OrEmpty(protocols));
        ProvidesUpdatedStep(mods0, intro, modules, i, m');
        modules := modules[i := m'];
        ProvidersStep(t0, mid, table, done, m, cur);
        i := i + 1;
      }
      assert modules[..i] == modules;
      err := None;
    }

    /** `_get_module_requirements`. */
    method GetModuleRequirements(intro: Introspection) returns (reqs: map<string, seq<string>>)
      ensures reqs == RequirementsTable(modules, intro)
    {
      reqs := map[];
      for i := 0 to |modules|
        invariant reqs == RequirementsTable(modules[..i], intro)
      {
        var m := modules[i];
        var req := intro.slotsOf(m.modulePath);
        if req != [] {
          reqs := reqs[m.id := req];
        }
        assert modules[..i + 1][..i] == modules[..i];
      }
      assert modules[..|modules|] == modules;
    }

    /** The `uses` merge of lines 125-132. */
    method MergeRequirements(reqs: map<string, seq<string>>)
      modifies this
      ensures modules == UsesUpdated(old(modules), reqs)
      ensures id == old(id) && exchange == old(exchange)
    {
      ghost var mods0 := modules;
      ghost var merged := UsesUpdated(mods0, reqs);
      var i := 0;
      while i < |modules|
        invariant 0 <= i <= |modules| == |mods0|
        invariant modules[..i] == merged[..i]
        invariant modules[i..] == mods0[i..]
        invariant id == old(id) && exchange == old(exchange)
      {
        var m := modules[i];
        assert m == mods0[i] by { assert modules[i..][0] == mods0[i..][0]; }
        if m.id in reqs {
          var uses := OrEmpty(m.uses);
          var names := reqs[m.id];
          for j := 0 to |names|
            invariant AppendMissing(Some(uses), names[j..]) == AppendMissing(Some(OrEmpty(m.uses)), names)
          {
            assert names[j..][1..] == names[j + 1..];
            if names[j] !in uses {
              uses := uses + [names[j]];
            }
          }
          assert names[|names|..] == [];
          modules := modules[i := m.(uses := Some(uses))];
        }
        assert modules[..i + 1] == merged[..i + 1];
        assert modules[i + 1..] == mods0[i + 1..];
        i := i + 1;
      }
      assert modules[..i] == modules;
    }

    /** The per-protocol loop of lines 137-157 and 268-285 for one consumer:
        returns the protocol that has several candidates, if one stops it. */
    method WireConsumer(consumer: string, ps: seq<string>, table: map<string, seq<string>>, ghost prov: seq<ModuleConfig>)
      returns (clash: Option<Clash>)
      requires exchange.Some?
      requires forall p :: p in ps ==> Lookup(table, p) == ProvidersOf(prov, p)
      modifies this
      ensures exchange.Some?
      ensures exchange.value == Wire(consumer, ps, prov, old(exchange).value).exchange
      ensures clash == Wire(consumer, ps, prov, old(exchange).value).clash
      ensures id == old(id) && modules == old(modules)
    {
      ghost var ex0 := exchange.value;
      var j := 0;
      while j < |ps|
        invariant 0 <= j <= |ps|
        invariant modules == old(modules) && id == old(id) && exchange.Some?
        invariant Wire(consumer, ps[j..], prov, exchange.value) == Wire(consumer, ps, prov, ex0)
      {
        var p := ps[j];
        assert ps[j..][1..] == ps[j + 1..];
        if !HasExchange(exchange.value, consumer, p) {
          var candidates := Lookup(table, p);
          if |candidates| == 1 {
            exchange := Some(exchange.value + [ExchangeConfig(consumer, p, candidates[0])]);
          } else if |candidates| > 1 {
            return Some(Clash(p, candidates));
          }
        }
        j := j + 1;
      }
      assert ps[j..] == [];
      clash := None;
    }

    /** `_add_implicit_protocol_exchanges`: returns the `ValueError` for a
        protocol with several providers. */
    method AddImplicitProtocolExchanges(intro: Introspection) returns (err: Option<ConfigError>)
      requires exchange.Some?
      modifies this
      ensures var bad := FirstUnimportable(old(modules));
        bad.Some? ==>
          && modules == ProvidesUpdated(old(modules), intro)[..bad.value] + old(modules)[bad.value..]
          && exchange == old(exchange)
          && err == Some(UnimportablePath(old(modules)[bad.value].id, old(modules)[bad.value].modulePath))
      ensures FirstUnimportable(old(modules)).None? ==>
              var provided := ProvidesUpdated(old(modules), intro);
              var used := UsesUpdated(provided, RequirementsTable(provided, intro));
              var w := WireModules(used, provided, old(exchange).value);
              modules == used && exchange == Some(w.exchange) && err == w.error
      ensures id == old(id)
    {
      var table;
      table, err := GetProtocolProviders(intro);
      if err.Some? {
        return;
      }
      var reqs := GetModuleRequirements(intro);
      ghost var provided := modules;
      MergeRequirements(reqs);
      ghost var ex0 := exchange.value;
      var i := 0;
      while i < |modules|
        invariant 0 <= i <= |modules|
        invariant modules == UsesUpdated(provided, reqs) && id == old(id) && exchange.Some?
        invariant WireModules(modules[i..], provided, exchange.value) == WireModules(modules, provided, ex0)
      {
        var m := modules[i];
        assert modules[i..][1..] == modules[i + 1..];
        if UsesAny(m) {
          var clash := WireConsumer(m.id, m.uses.value, table, provided);
          if clash.Some? {
            err := Some(MultipleProviders(clash.value.protocol, m.id, clash.value.candidates));
            return;
          }
        }
        i := i + 1;
      }
      assert modules[i..] == [];
      err := None;
    }

    /** `_get_message_handlers`: each message-handler protocol mapped to the
        modules that provide it. */
    method GetMessageHandlers() returns (handlers: map<string, seq<string>>)
      ensures handlers.Keys == set p | p in MessageHandlerProtocols
      ensures forall p :: p in handlers ==> handlers[p] == ProvidersOf(modules, p)
    {
      handlers := map p | p in MessageHandlerProtocols :: [];
      for i := 0 to |modules|
        invariant handlers.Keys == set p | p in MessageHandlerProtocols
        invariant forall p :: p in handlers ==> handlers[p] == ProvidersOf(modules[..i], p)
      {
        var m := modules[i];
        assert modules[..i + 1] == modules[..i] + [m];
        ghost var before := handlers;
        handlers := AddHandlers(handlers, m.id, OrEmpty(m.provided));
        forall p | p in handlers
          ensures handlers[p] == ProvidersOf(modules[..i + 1], p)
        {
          ProvidersOfSnoc(modules[..i], m, p);
        }
      }
      assert modules[..|modules|] == modules;
    }

    /** `_add_implicit_entry_handlers`: returns the `ValueError` for a
        message protocol with several handlers. */
    method AddImplicitEntryHandlers() returns (err: Option<ConfigError>)
      requires exchange.Some?
      modifies this
      ensures var w := WireEntry(old(modules), old(exchange).value);
              exchange == Some(w.exchange) && err == w.error
      ensures id == old(id) && modules == old(modules)
    {
      var handlers := GetMessageHandlers();
      var clash := WireConsumer(EntryId, MessageHandlerProtocols, handlers, modules);
      if clash.Some? {
        err := Some(MultipleHandlers(clash.value.protocol, clash.value.candidates));
      } else {
        err := None;
      }
    }
  }
}
