/** `xaibo/core/agent.py`: an agent is an id and its module table; each
    incoming message is handed to the `__entry__` module, and the reply is
    read from the `__response__` module.

    Module objects are opaque handles. Whether an object has a method is
    the `hasAttr` oracle and what `get_response()` returns is the
    `responseOf` oracle; the calls the agent makes are returned as a log. */
module Agent {
  import opened Basics
  import opened Values
  import opened OrderedDicts
  import Strings
  import Config

  datatype Agent = Agent(id: string, modules: Dict<string, nat>)

  /** The four message kinds, with the entry method each needs and the
      protocol named in the error when it is missing. */
  datatype Operation = HandleText | HandleImage | HandleAudio | HandleVideo
  {
    function MethodName(): string
    {
      match this
      case HandleText => "handle_text"
      case HandleImage => "handle_image"
      case HandleAudio => "handle_audio"
      case HandleVideo => "handle_video"
    }

    function Protocol(): string
    {
      match this
      case HandleText => "TextMessageHandlerProtocol"
      case HandleImage => "ImageMessageHandlerProtocol"
      case HandleAudio => "AudioMessageHandlerProtocol"
      case HandleVideo => "VideoMessageHandlerProtocol"
    }
  }

  /** A message: text, or a binary stream (an opaque handle). */
  datatype Payload = Text(text: string) | Stream(handle: nat)

  /** One method invocation on a module object. */
  datatype Call = Call(target: nat, methodName: string, arg: Option<Payload>)

  datatype AgentError =
    | MissingModule(key: string)
    | NotImplemented(protocol: string)
    | Raised(exception: string)

  /** The calls made and what came of them. */
  datatype Handled = Handled(calls: seq<Call>, outcome: Result<Value, AgentError>)

  /** What the module objects do: whether one has a method, what
      `get_response()` returns, and the exception a call raises, if any. */
  datatype Objects = Objects(hasAttr: (nat, string) -> bool, responseOf: nat -> Value, raises: Call -> Option<string>)

  /** `handle_text`, `handle_image`, `handle_audio` and `handle_video`:
      check that the entry module has the operation, call it once with the
      message, then return `__response__.get_response()`. An exception from
      either call propagates, and one from the entry method means
      `get_response()` is never called. */
  function Handle(a: Agent, op: Operation, msg: Payload, objs: Objects): (r: Handled)
    ensures Config.EntryId !in a.modules.entries ==> r == Handled([], Err(MissingModule(Config.EntryId)))
    ensures Config.EntryId in a.modules.entries && !objs.hasAttr(a.modules.entries[Config.EntryId], op.MethodName()) ==>
      r == Handled([], Err(NotImplemented(op.Protocol())))
    ensures Config.EntryId in a.modules.entries && objs.hasAttr(a.modules.entries[Config.EntryId], op.MethodName()) ==>
      var entryCall := Call(a.modules.entries[Config.EntryId], op.MethodName(), Some(msg));
      && |r.calls| >= 1 && r.calls[0] == entryCall
      && (forall i :: 1 <= i < |r.calls| ==> r.calls[i].arg.None?)
      && (objs.raises(entryCall).Some? ==> r == Handled([entryCall], Err(Raised(objs.raises(entryCall).value))))
      && (objs.raises(entryCall).None? && Config.ResponseId in a.modules.entries ==>
            var responseCall := Call(a.modules.entries[Config.ResponseId], "get_response", None);
            r.calls[1..] == [responseCall]
            && r.outcome == (if objs.raises(responseCall).Some? then Err(Raised(objs.raises(responseCall).value))
                             else Ok(objs.responseOf(a.modules.entries[Config.ResponseId]))))
      && (objs.raises(entryCall).None? && Config.ResponseId !in a.modules.entries ==>
            |r.calls| == 1 && r.outcome == Err(MissingModule(Config.ResponseId)))
  {
    if Config.EntryId !in a.modules.entries then Handled([], Err(MissingModule(Config.EntryId)))
    else
      var entry := a.modules.entries[Config.EntryId];
      if !objs.hasAttr(entry, op.MethodName()) then Handled([], Err(NotImplemented(op.Protocol())))
      else
        var entryCall := Call(entry, op.MethodName(), Some(msg));
        if objs.raises(entryCall).Some? then Handled([entryCall], Err(Raised(objs.raises(entryCall).value)))
        else if Config.ResponseId !in a.modules.entries then Handled([entryCall], Err(MissingModule(Config.ResponseId)))
        else
          var responseCall := Call(a.modules.entries[Config.ResponseId], "get_response", None);
          var outcome := if objs.raises(responseCall).Some? then Err(Raised(objs.raises(responseCall).value))
                         else Ok(objs.responseOf(a.modules.entries[Config.ResponseId]));
          Handled([entryCall, responseCall], outcome)
  }

  /** A reply is read only after the entry method returned: when it
      raises, `get_response()` is not called and its exception is the
      outcome. */
  lemma NoResponseAfterRaise(a: Agent, op: Operation, msg: Payload, objs: Objects)
    requires Config.EntryId in a.modules.entries
    ensures var r := Handle(a, op, msg, objs);
      var entryCall := Call(a.modules.entries[Config.EntryId], op.MethodName(), Some(msg));
      (exists i :: 0 <= i < |r.calls| && r.calls[i].methodName == "get_response") <==>
        objs.hasAttr(a.modules.entries[Config.EntryId], op.MethodName()) && objs.raises(entryCall).None?
        && Config.ResponseId in a.modules.entries
  {
    var r := Handle(a, op, msg, objs);
    var entryCall := Call(a.modules.entries[Config.EntryId], op.MethodName(), Some(msg));
    if objs.hasAttr(a.modules.entries[Config.EntryId], op.MethodName()) && objs.raises(entryCall).None?
       && Config.ResponseId in a.modules.entries {
      assert r.calls[1].methodName == "get_response";
    }
  }

  /** The entry module is called with the message exactly once, and only
      when it has the operation. */
  lemma EntryCalledOnce(a: Agent, op: Operation, msg: Payload, objs: Objects)
    requires Config.EntryId in a.modules.entries
    ensures var r := Handle(a, op, msg, objs);
      var entryCall := Call(a.modules.entries[Config.EntryId], op.MethodName(), Some(msg));
      Count(r.calls, entryCall) == (if objs.hasAttr(a.modules.entries[Config.EntryId], op.MethodName()) then 1 else 0)
  {
    var r := Handle(a, op, msg, objs);
    var entryCall := Call(a.modules.entries[Config.EntryId], op.MethodName(), Some(msg));
    if objs.hasAttr(a.modules.entries[Config.EntryId], op.MethodName()) {
      assert r.calls == [entryCall] + r.calls[1..];
      CountAppend([entryCall], r.calls[1..], entryCall);
      assert entryCall !in r.calls[1..];
      CountZero(r.calls[1..], entryCall);
      assert Count([entryCall], entryCall) == Count([], entryCall) + 1;
    } else {
      CountZero(r.calls, entryCall);
    }
  }

  /** One `  - {module_id}` line per module, in table order. */
  function ModuleLines(keys: seq<string>): (r: seq<string>)
    ensures |r| == |keys| && forall i :: 0 <= i < |keys| ==> r[i] == "  - " + keys[i]
  {
    seq(|keys|, i requires 0 <= i < |keys| => "  - " + keys[i])
  }

  function Header(id: string): string
  {
    "Agent '" + id + "' with modules:"
  }

  /** `__str__`. */
  function ToString(a: Agent): string
  {
    Header(a.id) + "\n" + Strings.Join("\n", ModuleLines(a.modules.keys))
  }

  /** Read line by line, `__str__` is the header and then one line per
      module in table order; without modules the text ends in a newline,
      so the last line is empty. */
  lemma ToStringLines(a: Agent)
    requires '\n' !in a.id
    requires forall k :: k in a.modules.keys ==> '\n' !in k
    ensures Strings.Split(ToString(a), '\n') ==
      [Header(a.id)] + (if a.modules.keys == [] then [""] else ModuleLines(a.modules.keys))
  {
    var lines := ModuleLines(a.modules.keys);
    assert '\n' !in Header(a.id) by {
      assert Header(a.id) == "Agent '" + a.id + "' with modules:";
    }
    if lines == [] {
      assert Strings.Join("\n", lines) == "";
      Strings.SplitAfterPiece(Header(a.id), "", '\n');
      assert Strings.Split("", '\n') == [""];
    } else {
      forall i | 0 <= i < |lines|
        ensures '\n' !in lines[i]
      {
        assert lines[i] == "  - " + a.modules.keys[i];
        assert a.modules.keys[i] in a.modules.keys;
      }
      Strings.SplitJoin(lines, '\n');
      Strings.SplitAfterPiece(Header(a.id), Strings.Join("\n", lines), '\n');
    }
  }
}
