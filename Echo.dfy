/** The example `Echo` module (`xaibo_examples/echo/__init__.py`, and its
    identical copy `xaibo-examples/echo/__init__.py`): a text handler that
    answers every message with the configured prefix followed by the
    message. The response module is an opaque handle and the reply is the
    call made on it. */
module Echo {
  import opened Basics
  import opened Values
  import Agent

  /** `Echo.provides()`. */
  function Provides(): seq<string>
  {
    ["TextMessageHandlerProtocol"]
  }

  /** The state `__init__` leaves: the configuration, the prefix and the
      response handle. Nothing changes it afterwards. */
  datatype Echo = Echo(config: map<string, Value>, prefix: Value, response: nat)

  /** `__init__(response, config=None)`: `config or {}`, then
      `config.get("prefix", "")`. */
  function NewEcho(response: nat, config: Option<map<string, Value>>): (e: Echo)
    ensures e.response == response
    ensures config.None? ==> e.config == map[] && e.prefix == Str("")
    ensures config.Some? ==> e.config == config.value
    ensures e.prefix == (if "prefix" in e.config then e.config["prefix"] else Str(""))
  {
    var cfg := if config.Some? then config.value else map[];
    Echo(cfg, if "prefix" in cfg then cfg["prefix"] else Str(""), response)
  }

  /** `handle_text`: the one call it makes, `response.respond_text(...)`. */
  function HandleText(e: Echo, text: string, render: Value -> string): (calls: seq<Agent.Call>)
    ensures |calls| == 1
    ensures calls[0].target == e.response && calls[0].methodName == "respond_text"
    ensures calls[0].arg.Some? && calls[0].arg.value.Text?
  {
    [Agent.Call(e.response, "respond_text", Some(Agent.Payload.Text(Display(e.prefix, render) + text)))]
  }

  /** The reply is the prefix and then the message, and the message can be
      read back from it. */
  lemma {:induction false} ReplyEndsWithMessage(e: Echo, text: string, render: Value -> string)
    ensures var reply := HandleText(e, text, render)[0].arg.value.text;
      var p := Display(e.prefix, render);
      p <= reply && reply[|p|..] == text
  {
    var p := Display(e.prefix, render);
    var reply := p + text;
    assert reply[..|p|] == p;
    assert reply[|p|..] == text;
  }

  /** The same module answers different messages differently. */
  lemma RepliesDistinguishMessages(e: Echo, t1: string, t2: string, render: Value -> string)
    requires t1 != t2
    ensures HandleText(e, t1, render) != HandleText(e, t2, render)
  {
    ReplyEndsWithMessage(e, t1, render);
    ReplyEndsWithMessage(e, t2, render);
  }

  /** Without a configured prefix the module repeats the message verbatim. */
  lemma DefaultEchoesVerbatim(response: nat, config: Option<map<string, Value>>, text: string, render: Value -> string)
    requires config.None? || "prefix" !in config.value
    ensures HandleText(NewEcho(response, config), text, render) ==
      [Agent.Call(response, "respond_text", Some(Agent.Payload.Text(text)))]
  {
    assert "" + text == text;
  }

  /** The example configuration: prefix `"You said: "` and the message
      `"Hello world"`. */
  lemma YouSaid(response: nat, render: Value -> string)
    ensures HandleText(NewEcho(response, Some(map["prefix" := Str("You said: ")])), "Hello world", render) ==
      [Agent.Call(response, "respond_text", Some(Agent.Payload.Text("You said: Hello world")))]
  {
    var e := NewEcho(response, Some(map["prefix" := Str("You said: ")]));
    assert e.prefix == Str("You said: ");
    assert "You said: " + "Hello world" == "You said: Hello world";
  }

  /** A non-string prefix is rendered as Python would: an integer prefix
      `-3` gives `"-3"` in front of the message. */
  lemma NegativePrefix(response: nat, render: Value -> string)
    ensures HandleText(NewEcho(response, Some(map["prefix" := Int(-3)])), "x", render)[0].arg.value.text == "-3x"
  {
  }

  /** What `Echo` provides is what the agent needs of its entry module to
      handle text. */
  lemma ProvidesTextHandling()
    ensures Agent.Operation.HandleText.Protocol() in Provides()
  {
  }
}
