/** `src/xaibo/primitives/modules/tools/tool_collector.py`: one tool
    provider made of several. Listing concatenates the providers' tools;
    executing goes to the first provider that lists the tool. What each
    provider lists and returns is the `Providers` oracle. */
module ToolCollector {
  import opened Basics
  import opened Values

  datatype Tool = Tool(name: string, description: string)

  datatype ToolResult = ToolResult(success: bool, result: Option<Value>, error: Option<string>)

  datatype Providers = Providers(toolsOf: nat -> seq<Tool>, execute: (nat, string, Value) -> ToolResult)

  /** The tools of the given providers, in provider order. */
  function AllTools(ps: seq<nat>, oracle: Providers): seq<Tool>
  {
    if ps == [] then [] else AllTools(ps[..|ps| - 1], oracle) + oracle.toolsOf(ps[|ps| - 1])
  }

  /** A tool is listed exactly when some provider lists it. */
  lemma {:induction false} AllToolsMember(ps: seq<nat>, oracle: Providers, t: Tool)
    ensures t in AllTools(ps, oracle) <==> exists i :: 0 <= i < |ps| && t in oracle.toolsOf(ps[i])
  {
    if ps != [] {
      var n := |ps| - 1;
      AllToolsMember(ps[..n], oracle, t);
      if t in AllTools(ps[..n], oracle) {
        var i :| 0 <= i < n && t in oracle.toolsOf(ps[..n][i]);
        assert ps[i] == ps[..n][i];
      }
      if exists i :: 0 <= i < |ps| && t in oracle.toolsOf(ps[i]) {
        var i :| 0 <= i < |ps| && t in oracle.toolsOf(ps[i]);
        if i < n {
          assert ps[..n][i] == ps[i];
        }
      }
    }
  }

  /** Listing is compositional: the tools of two provider lists are the
      tools of the first followed by those of the second. */
  lemma {:induction false} AllToolsAppend(ps: seq<nat>, qs: seq<nat>, oracle: Providers)
    ensures AllTools(ps + qs, oracle) == AllTools(ps, oracle) + AllTools(qs, oracle)
    decreases |qs|
  {
    if qs == [] {
      assert ps + qs == ps;
    } else {
      var n := |qs| - 1;
      var all := ps + qs;
      assert all[..|all| - 1] == ps + qs[..n];
      assert all[|all| - 1] == qs[n];
      AllToolsAppend(ps, qs[..n], oracle);
    }
  }

  predicate Lists(tools: seq<Tool>, name: string)
  {
    exists t :: t in tools && t.name == name
  }

  /** The outcome of `execute_tool` and the index of the provider that ran
      it, if any. */
  datatype Dispatch = Dispatch(result: ToolResult, executed: Option<nat>)

  function NotFound(name: string): ToolResult
  {
    ToolResult(false, None, Some("Could not find " + name))
  }

  /** The search of `execute_tool` from provider `i` on. */
  function ExecuteFrom(ps: seq<nat>, i: nat, name: string, params: Value, oracle: Providers): (r: Dispatch)
    requires i <= |ps|
    ensures r.executed.Some? ==>
      && i <= r.executed.value < |ps| && Lists(oracle.toolsOf(ps[r.executed.value]), name)
      && (forall j :: i <= j < r.executed.value ==> !Lists(oracle.toolsOf(ps[j]), name))
      && r.result == oracle.execute(ps[r.executed.value], name, params)
    ensures r.executed.None? ==>
      (forall j :: i <= j < |ps| ==> !Lists(oracle.toolsOf(ps[j]), name)) && r.result == NotFound(name)
    decreases |ps| - i
  {
    if i == |ps| then Dispatch(NotFound(name), None)
    else if Lists(oracle.toolsOf(ps[i]), name) then Dispatch(oracle.execute(ps[i], name, params), Some(i))
    else ExecuteFrom(ps, i + 1, name, params, oracle)
  }

  class ToolCollector {
    const toolProviders: seq<nat>

    constructor (toolProviders: seq<nat>)
      ensures this.toolProviders == toolProviders
    {
      this.toolProviders := toolProviders;
    }

    /** `list_tools`. */
    method ListTools(oracle: Providers) returns (res: seq<Tool>)
      ensures res == AllTools(toolProviders, oracle)
    {
      res := [];
      for i := 0 to |toolProviders|
        invariant res == AllTools(toolProviders[..i], oracle)
      {
        assert toolProviders[..i + 1][..i] == toolProviders[..i];
        res := res + oracle.toolsOf(toolProviders[i]);
      }
      assert toolProviders[..|toolProviders|] == toolProviders;
    }

    /** `execute_tool`: the first provider listing the tool runs it, and no
        other provider runs; without one the result is a failure naming
        the tool. */
    function ExecuteTool(name: string, params: Value, oracle: Providers): (r: Dispatch)
      ensures r == ExecuteFrom(toolProviders, 0, name, params, oracle)
    {
      ExecuteFrom(toolProviders, 0, name, params, oracle)
    }
  }

  /** A tool runs exactly when the collector lists a tool of that name. */
  lemma ExecutesIffListed(ps: seq<nat>, name: string, params: Value, oracle: Providers)
    ensures ExecuteFrom(ps, 0, name, params, oracle).executed.Some? <==> Lists(AllTools(ps, oracle), name)
  {
    var r := ExecuteFrom(ps, 0, name, params, oracle);
    if r.executed.Some? {
      var i := r.executed.value;
      var t :| t in oracle.toolsOf(ps[i]) && t.name == name;
      AllToolsMember(ps, oracle, t);
    }
    if Lists(AllTools(ps, oracle), name) {
      var t :| t in AllTools(ps, oracle) && t.name == name;
      AllToolsMember(ps, oracle, t);
    }
  }

  /** With no providers nothing is listed and every execution fails. */
  lemma NoProviders(name: string, params: Value, oracle: Providers)
    ensures AllTools([], oracle) == []
    ensures ExecuteFrom([], 0, name, params, oracle) == Dispatch(NotFound(name), None)
  {
  }
}
