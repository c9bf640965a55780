/** `xaibo/core/registry.py`: a table of agent configurations by id and a
    list of event listeners, each optionally restricted to one agent.
    Building an agent hands the configuration, the bindings and the
    listeners meant for that agent to the exchange. As written the call
    passes `event_listeners=` to an `instantiate_modules` that takes no
    such keyword; the corrected call takes the exchange as a parameter
    (`instantiate`). */
module Registry {
  import opened Basics
  import opened OrderedDicts
  import Config
  import Exchange
  import Agent

  type AgentConfigData = Config.AgentConfigData

  /** `(prefix, agent_filter, handler)`. */
  datatype RegisteredListener = RegisteredListener(prefix: string, agentFilter: Option<string>, handler: nat)

  datatype RegistryError =
    | UnknownAgent(id: string)
    | InstantiationFailed(error: Exchange.ExchangeError)
    | UnexpectedKeyword(name: string)

  /** What instantiating a configuration yields: the module table. */
  type Instantiator = (AgentConfigData, Dict<Exchange.OverrideKey, nat>, seq<Exchange.Listener>)
                      -> Result<Dict<string, nat>, Exchange.ExchangeError>

  predicate ForAgent(l: RegisteredListener, id: string)
  {
    l.agentFilter.None? || l.agentFilter == Some(id)
  }

  /** The listener filter of `get_agent_with`: `(prefix, handler)` of every
      listener without a filter or filtered to this agent, in order. */
  function AgentListeners(ls: seq<RegisteredListener>, id: string): (r: seq<Exchange.Listener>)
    ensures |r| <= |ls|
    ensures forall x :: x in r ==> exists l :: l in ls && ForAgent(l, id) && x == Exchange.Listener(l.prefix, l.handler)
  {
    if ls == [] then []
    else
      var init := AgentListeners(ls[..|ls| - 1], id);
      var l := ls[|ls| - 1];
      assert forall x :: x in ls[..|ls| - 1] ==> x in ls;
      init + (if ForAgent(l, id) then [Exchange.Listener(l.prefix, l.handler)] else [])
  }

  /** Filtering keeps registration order: the listeners of a concatenation
      are the listeners of each part, in turn. */
  lemma {:induction false} AgentListenersAppend(ls1: seq<RegisteredListener>, ls2: seq<RegisteredListener>, id: string)
    ensures AgentListeners(ls1 + ls2, id) == AgentListeners(ls1, id) + AgentListeners(ls2, id)
    decreases |ls2|
  {
    if ls2 == [] {
      assert ls1 + ls2 == ls1;
    } else {
      var n := |ls2| - 1;
      var all := ls1 + ls2;
      assert all[..|all| - 1] == ls1 + ls2[..n];
      assert all[|all| - 1] == ls2[n];
      AgentListenersAppend(ls1, ls2[..n], id);
    }
  }

  /** Every listener meant for the agent is handed on. */
  lemma {:induction false} AgentListenersKeep(ls: seq<RegisteredListener>, id: string, l: RegisteredListener)
    requires l in ls && ForAgent(l, id)
    ensures Exchange.Listener(l.prefix, l.handler) in AgentListeners(ls, id)
  {
    var n := |ls| - 1;
    if ls[n] != l {
      assert l in ls[..n] by {
        var i :| 0 <= i < |ls| && ls[i] == l;
        assert ls[..n][i] == l;
      }
      AgentListenersKeep(ls[..n], id, l);
    }
  }

  class Registry {
    var knownAgentConfigs: map<string, AgentConfigData>
    var eventListeners: seq<RegisteredListener>

    constructor ()
      ensures knownAgentConfigs == map[] && eventListeners == []
    {
      knownAgentConfigs := map[];
      eventListeners := [];
    }

    /** `register_agent`: stored under its id, replacing an earlier one. */
    method RegisterAgent(cfg: AgentConfigData)
      modifies this
      ensures knownAgentConfigs == old(knownAgentConfigs)[cfg.id := cfg]
      ensures eventListeners == old(eventListeners)
    {
      knownAgentConfigs := knownAgentConfigs[cfg.id := cfg];
    }

    /** `register_event_listener`. */
    method RegisterEventListener(prefix: string, handler: nat, agentId: Option<string>)
      modifies this
      ensures eventListeners == old(eventListeners) + [RegisteredListener(prefix, agentId, handler)]
      ensures knownAgentConfigs == old(knownAgentConfigs)
    {
      eventListeners := eventListeners + [RegisteredListener(prefix, agentId, handler)];
    }

    /** `get_agent_with`: an unknown id is a `KeyError`; otherwise the agent
        carries the requested id and the modules the exchange built from
        its configuration with the agent's listeners. */
    function GetAgentWith(id: string, bindings: Dict<Exchange.OverrideKey, nat>, instantiate: Instantiator)
      : (r: Result<Agent.Agent, RegistryError>)
      reads this
      ensures r.Err? && r.error.UnknownAgent? <==> id !in knownAgentConfigs
      ensures r.Err? && r.error.UnknownAgent? ==> r.error.id == id
      ensures r.Ok? ==> r.value.id == id
      ensures id in knownAgentConfigs ==>
        var built := instantiate(knownAgentConfigs[id], bindings, AgentListeners(eventListeners, id));
        (r.Ok? <==> built.Ok?) && (r.Ok? ==> r.value.modules == built.value)
    {
      if id !in knownAgentConfigs then Err(UnknownAgent(id))
      else
        var modules := instantiate(knownAgentConfigs[id], bindings, AgentListeners(eventListeners, id));
        if modules.Err? then Err(InstantiationFailed(modules.error))
        else Ok(Agent.Agent(id, modules.value))
    }

    /** `get_agent_with` as written: the exchange it imports is the one
        whose `instantiate_modules(config, override_bindings)` takes no
        `event_listeners`, so for a known id the call itself is a
        `TypeError` before any module is built. */
    function GetAgentWithAsWritten(id: string, bindings: Dict<Exchange.OverrideKey, nat>)
      : (r: Result<Agent.Agent, RegistryError>)
      reads this
      ensures r.Err?
      ensures r.error.UnknownAgent? <==> id !in knownAgentConfigs
      ensures id in knownAgentConfigs ==> r.error == UnexpectedKeyword("event_listeners")
    {
      if id !in knownAgentConfigs then Err(UnknownAgent(id))
      else Err(UnexpectedKeyword("event_listeners"))
    }

    /** `get_agent`: the same as `get_agent_with` without bindings. */
    function GetAgent(id: string, instantiate: Instantiator): (r: Result<Agent.Agent, RegistryError>)
      reads this
      ensures r == GetAgentWith(id, Empty(), instantiate)
    {
      GetAgentWith(id, Empty(), instantiate)
    }
  }

  /** No registered agent can be built by `get_agent_with` as written,
      while the corrected call builds it whenever the exchange does, and
      both agree on an unknown id. */
  lemma AsWrittenNeverBuilds(reg: Registry, id: string, bindings: Dict<Exchange.OverrideKey, nat>, instantiate: Instantiator)
    requires id in reg.knownAgentConfigs
    requires instantiate(reg.knownAgentConfigs[id], bindings, AgentListeners(reg.eventListeners, id)).Ok?
    ensures reg.GetAgentWithAsWritten(id, bindings) == Err(UnexpectedKeyword("event_listeners"))
    ensures reg.GetAgentWith(id, bindings, instantiate).Ok?
  {
  }

  /** After registering a listener, an agent it is meant for is handed it
      last, behind the listeners it had before; other agents see no
      change. */
  lemma ListenersAfterRegister(ls: seq<RegisteredListener>, prefix: string, handler: nat, agentId: Option<string>, id: string)
    ensures AgentListeners(ls + [RegisteredListener(prefix, agentId, handler)], id) ==
      AgentListeners(ls, id) + (if agentId.None? || agentId == Some(id) then [Exchange.Listener(prefix, handler)] else [])
  {
    var l := RegisteredListener(prefix, agentId, handler);
    AgentListenersAppend(ls, [l], id);
    assert [l][..0] == [];
  }
}
