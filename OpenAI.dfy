/** `xaibo/primitives/modules/llm/openai.py`: the OpenAI adapter's
    configuration and the shaping of its chat-completion requests and
    responses. The HTTP client is left out; a request is the keyword
    dictionary handed to it, and a reply is the part of the completion the
    adapter reads. The environment variable `OPENAI_API_KEY` and
    `json.loads` are parameters. */
module OpenAI {
  import opened Basics
  import opened Values
  import opened OrderedDicts
  import LlmModels

  type LLMMessage = LlmModels.LLMMessage
  type LLMOptions = LlmModels.LLMOptions

  datatype OpenAILLM = OpenAILLM(
    apiKey: Value,
    model: Value,
    baseUrl: Value,
    timeout: Value,
    defaultKwargs: map<string, Value>)

  datatype OpenAIError =
    | MissingApiKey
    /** `**None`: a `TypeError`, the value is not a mapping. */
    | NotAMapping

  /** The configuration keys that go to the client, not to the requests. */
  function ClientKeys(): set<string>
  {
    {"api_key", "model", "base_url", "timeout"}
  }

  function GetOr(m: map<string, Value>, k: string, default: Value): Value
  {
    if k in m then m[k] else default
  }

  /** `OpenAILLM.__init__`: the key comes from the configuration when it is
      truthy, else from the environment, and must be truthy; the model
      defaults to `gpt-3.5-turbo`; every other configuration entry becomes
      a default request argument. */
  function NewOpenAI(config: Option<map<string, Value>>, envKey: Option<string>): (r: Result<OpenAILLM, OpenAIError>)
    ensures var cfg := if config.Some? then config.value else map[];
      && (r.Err? <==> !("api_key" in cfg && Truthy(cfg["api_key"])) && (envKey.None? || envKey == Some("")))
      && (r.Err? ==> r.error == MissingApiKey)
      && (r.Ok? ==>
            && r.value.apiKey == (if "api_key" in cfg && Truthy(cfg["api_key"]) then cfg["api_key"] else Str(envKey.value))
            && r.value.model == (if "model" in cfg then cfg["model"] else Str("gpt-3.5-turbo"))
            && r.value.defaultKwargs.Keys == cfg.Keys - ClientKeys()
            && forall k :: k in r.value.defaultKwargs ==> r.value.defaultKwargs[k] == cfg[k])
  {
    var cfg := if config.Some? then config.value else map[];
    var configured := GetOr(cfg, "api_key", Null);
    var key := if Truthy(configured) then configured else if envKey.Some? then Str(envKey.value) else Null;
    if !Truthy(key) then Err(MissingApiKey)
    else
      Ok(OpenAILLM(
        key,
        GetOr(cfg, "model", Str("gpt-3.5-turbo")),
        GetOr(cfg, "base_url", Str("https://api.openai.com/v1")),
        GetOr(cfg, "timeout", Num(60.0)),
        map k | k in cfg && k !in ClientKeys() :: cfg[k]))
  }

  /** The request form of a message. */
  function MessageValue(m: LLMMessage): Value
  {
    Object(map["role" := Str(m.role.Name()), "content" := Str(m.content)])
  }

  /** `_prepare_messages`: one entry per message, in order. */
  function PrepareMessages(messages: seq<LLMMessage>): (r: seq<Value>)
    ensures |r| == |messages| && forall i :: 0 <= i < |messages| ==> r[i] == MessageValue(messages[i])
  {
    seq(|messages|, i requires 0 <= i < |messages| => MessageValue(messages[i]))
  }

  /** Reading a request message back: its role and content. */
  function ParseMessage(v: Value): Option<(LlmModels.Role, string)>
  {
    if v.Object? && "role" in v.fields && "content" in v.fields
       && v.fields["role"].Str? && v.fields["content"].Str?
       && LlmModels.RoleNamed(v.fields["role"].s).Some?
    then Some((LlmModels.RoleNamed(v.fields["role"].s).value, v.fields["content"].s))
    else None
  }

  /** A request message keeps the role and the content, and only those:
      the message `name` is not sent. */
  lemma MessageRoundTrip(m: LLMMessage)
    ensures ParseMessage(MessageValue(m)) == Some((m.role, m.content))
  {
    LlmModels.RoleNameRoundTrip(m.role);
    var v := MessageValue(m);
    assert v.fields["role"] == Str(m.role.Name());
    assert v.fields["content"] == Str(m.content);
  }

  /** The description of a parameter: its own text (or nothing), then
      ` Default: ...` when it has a default. */
  function Description(p: LlmModels.ToolParameter, render: Value -> string): (r: string)
    ensures p.default == Null ==> r == (if p.description.Some? then p.description.value else "")
    ensures p.default != Null ==>
      r == (if p.description.Some? then p.description.value else "") + " Default: " + Display(p.default, render)
  {
    (if p.description.Some? then p.description.value else "")
    + (if p.default != Null then " Default: " + Display(p.default, render) else "")
  }

  /** The schema of one parameter; `enum` only when the parameter has
      one. */
  function ParameterSchema(p: LlmModels.ToolParameter, render: Value -> string): (r: Value)
    ensures r.Object? && "type" in r.fields && "description" in r.fields
    ensures "enum" in r.fields <==> p.enumValues.Some?
    ensures r.fields.Keys <= {"type", "description", "enum"}
  {
    var base := map["type" := Str(p.paramType), "description" := Str(Description(p, render))];
    Object(if p.enumValues.Some? then base["enum" := Strs(p.enumValues.value)] else base)
  }

  /** The names of the required parameters, in parameter order. */
  function RequiredNames(keys: seq<string>, params: map<string, LlmModels.ToolParameter>): (r: seq<string>)
    requires forall k :: k in keys ==> k in params
    ensures |r| <= |keys|
  {
    if keys == [] then []
    else
      var k := keys[|keys| - 1];
      RequiredNames(keys[..|keys| - 1], params) + (if params[k].required then [k] else [])
  }

  /** A name is listed as required exactly when it names a required
      parameter. */
  lemma {:induction false} RequiredNamesMember(keys: seq<string>, params: map<string, LlmModels.ToolParameter>, x: string)
    requires forall k :: k in keys ==> k in params
    ensures x in RequiredNames(keys, params) <==> x in keys && params[x].required
  {
    if keys != [] {
      var n := |keys| - 1;
      assert forall k :: k in keys[..n] ==> k in keys;
      RequiredNamesMember(keys[..n], params, x);
      if x in keys && x != keys[n] {
        var i :| 0 <= i < |keys| && keys[i] == x;
        assert keys[..n][i] == x;
      }
    }
  }

  /** Required names follow parameter order: the names of two runs of
      parameters are those of the first run, then those of the second. */
  lemma {:induction false} RequiredNamesAppend(a: seq<string>, b: seq<string>, params: map<string, LlmModels.ToolParameter>)
    requires forall k :: k in a + b ==> k in params
    ensures forall k :: k in a ==> k in params
    ensures forall k :: k in b ==> k in params
    ensures RequiredNames(a + b, params) == RequiredNames(a, params) + RequiredNames(b, params)
    decreases |b|
  {
    assert forall k :: k in a ==> k in a + b;
    assert forall k :: k in b ==> k in a + b;
    if b == [] {
      assert a + b == a;
    } else {
      var n := |b| - 1;
      assert (a + b)[..|a + b| - 1] == a + b[..n];
      assert (a + b)[|a + b| - 1] == b[n];
      assert forall k :: k in a + b[..n] ==> k in a + b;
      RequiredNamesAppend(a, b[..n], params);
    }
  }

  /** The function schema of one tool. */
  function ToolSchema(t: LlmModels.Tool, render: Value -> string): Value
    requires t.parameters.Valid()
  {
    var ps := t.parameters.entries;
    Object(map[
      "name" := Str(t.name),
      "description" := Str(t.description),
      "parameters" := Object(map[
        "type" := Str("object"),
        "properties" := Object(map k | k in ps :: ParameterSchema(ps[k], render)),
        "required" := Strs(RequiredNames(t.parameters.keys, ps))])])
  }

  ghost predicate ToolsValid(options: LLMOptions)
  {
    options.functions.Some? ==> forall t :: t in options.functions.value ==> t.parameters.Valid()
  }

  /** `_prepare_functions`: `None` without tools, otherwise one schema per
      tool, in order, with a property per parameter. */
  function PrepareFunctions(options: LLMOptions, render: Value -> string): (r: Option<seq<Value>>)
    requires ToolsValid(options)
    ensures r.None? <==> options.functions.None? || options.functions.value == []
    ensures r.Some? ==>
      var fs := options.functions.value;
      && |r.value| == |fs|
      && forall i :: 0 <= i < |fs| ==>
        && r.value[i] == ToolSchema(fs[i], render)
        && r.value[i].fields["name"] == Str(fs[i].name)
        && r.value[i].fields["parameters"].fields["properties"].fields.Keys == fs[i].parameters.entries.Keys
  {
    if options.functions.None? || options.functions.value == [] then None
    else
      var fs := options.functions.value;
      Some(seq(|fs|, i requires 0 <= i < |fs| => ToolSchema(fs[i], render)))
  }

  function OptReal(x: Option<real>): Value { if x.Some? then Num(x.value) else Null }
  function OptInt(x: Option<int>): Value { if x.Some? then Int(x.value) else Null }
  function OptStrs(x: Option<seq<string>>): Value { if x.Some? then Strs(x.value) else Null }

  /** The fixed keys of a request, before the defaults and the options'
      vendor-specific keys are merged over them. */
  function BaseKwargs(llm: OpenAILLM, messages: seq<Value>, functions: Option<seq<Value>>, options: LLMOptions)
    : (r: map<string, Value>)
    ensures r.Keys == {"model", "messages", "temperature", "top_p", "max_tokens", "stop", "functions"}
  {
    map[
      "model" := llm.model,
      "messages" := List(messages),
      "temperature" := OptReal(options.temperature),
      "top_p" := OptReal(options.topP),
      "max_tokens" := OptInt(options.maxTokens),
      "stop" := OptStrs(options.stopSequences),
      "functions" := if functions.Some? then List(functions.value) else Null]
  }

  /** `_prepare_request_kwargs` as written: `**options.vendor_specific`
      raises when the field holds `None`, although the field is declared
      optional. */
  function RequestKwargsAsWritten(llm: OpenAILLM, messages: seq<Value>, functions: Option<seq<Value>>,
                                  options: LLMOptions, stream: bool): (r: Result<map<string, Value>, OpenAIError>)
    ensures r.Err? <==> options.vendorSpecific.None?
    ensures r.Ok? ==> r.value == RequestKwargs(llm, messages, functions, options, stream)
  {
    if options.vendorSpecific.None? then Err(NotAMapping)
    else Ok(RequestKwargs(llm, messages, functions, options, stream))
  }

  /** `_prepare_request_kwargs`, with a `None` vendor-specific field read as
      no extra keys: the fixed keys, then the adapter's defaults, then the
      vendor-specific keys, each overriding the earlier ones; `stream` is
      set last, and only for streaming. */
  function RequestKwargs(llm: OpenAILLM, messages: seq<Value>, functions: Option<seq<Value>>,
                         options: LLMOptions, stream: bool): (r: map<string, Value>)
    ensures r.Keys == BaseKwargs(llm, messages, functions, options).Keys + llm.defaultKwargs.Keys
                      + (if options.vendorSpecific.Some? then options.vendorSpecific.value.Keys else {})
                      + (if stream then {"stream"} else {})
    ensures stream ==> r["stream"] == Bool(true)
  {
    var vendor := if options.vendorSpecific.Some? then options.vendorSpecific.value else map[];
    var merged := BaseKwargs(llm, messages, functions, options) + llm.defaultKwargs + vendor;
    if stream then merged["stream" := Bool(true)] else merged
  }

  /** Which source each request key comes from. */
  lemma RequestKwargsPrecedence(llm: OpenAILLM, messages: seq<Value>, functions: Option<seq<Value>>,
                                options: LLMOptions, stream: bool, k: string)
    ensures var r := RequestKwargs(llm, messages, functions, options, stream);
      var base := BaseKwargs(llm, messages, functions, options);
      var vendor := if options.vendorSpecific.Some? then options.vendorSpecific.value else map[];
      && (k in r <==> k in base || k in llm.defaultKwargs || k in vendor || (stream && k == "stream"))
      && (stream && k == "stream" ==> r[k] == Bool(true))
      && (!(stream && k == "stream") && k in vendor ==> r[k] == vendor[k])
      && (!(stream && k == "stream") && k !in vendor && k in llm.defaultKwargs ==> r[k] == llm.defaultKwargs[k])
      && (!(stream && k == "stream") && k !in vendor && k !in llm.defaultKwargs && k in base ==> r[k] == base[k])
  {
  }

  /** The only failure of the request as written is a `None`
      vendor-specific field, which the corrected request reads as `{}`. */
  lemma NoneVendorSpecific(llm: OpenAILLM, messages: seq<Value>, functions: Option<seq<Value>>,
                           options: LLMOptions, stream: bool)
    requires options.vendorSpecific.None?
    ensures RequestKwargsAsWritten(llm, messages, functions, options, stream) == Err(NotAMapping)
    ensures RequestKwargs(llm, messages, functions, options, stream)
         == RequestKwargs(llm, messages, functions, options.(vendorSpecific := Some(map[])), stream)
  {
  }

  /** The corrected request of `generate` (or of `generate_stream` when
      `stream`): missing options are `LLMOptions()`. As written, options
      whose `vendor_specific` is `None` make the request raise instead;
      every other input gives this request. */
  function BuildRequest(llm: OpenAILLM, messages: seq<LLMMessage>, options: Option<LLMOptions>,
                        stream: bool, render: Value -> string): (r: map<string, Value>)
    requires options.Some? ==> ToolsValid(options.value)
    ensures var opts := if options.Some? then options.value else LlmModels.DefaultOptions();
            r == RequestKwargs(llm, PrepareMessages(messages), PrepareFunctions(opts, render), opts, stream)
    ensures var opts := if options.Some? then options.value else LlmModels.DefaultOptions();
            RequestKwargsAsWritten(llm, PrepareMessages(messages), PrepareFunctions(opts, render), opts, stream)
            == if options.Some? && options.value.vendorSpecific.None? then Err(NotAMapping) else Ok(r)
    ensures {"model", "messages", "temperature", "top_p", "max_tokens", "stop", "functions"} <= r.Keys
    ensures stream ==> r["stream"] == Bool(true)
    ensures "messages" !in llm.defaultKwargs
            && (options.None? || options.value.vendorSpecific.None? || "messages" !in options.value.vendorSpecific.value)
            ==> r["messages"] == List(PrepareMessages(messages))
  {
    var opts := if options.Some? then options.value else LlmModels.DefaultOptions();
    RequestKwargs(llm, PrepareMessages(messages), PrepareFunctions(opts, render), opts, stream)
  }

  /** Without options and defaults, a request carries the adapter's model,
      the messages, the default sampling values, no tools, and `stream`
      exactly when streaming. */
  lemma DefaultRequest(llm: OpenAILLM, messages: seq<LLMMessage>, stream: bool, render: Value -> string)
    requires llm.defaultKwargs == map[]
    ensures var r := BuildRequest(llm, messages, None, stream, render);
      && r["model"] == llm.model
      && r["messages"] == List(PrepareMessages(messages))
      && r["temperature"] == Num(1.0) && r["top_p"] == Num(1.0)
      && r["functions"] == Null && r["stop"] == Null && r["max_tokens"] == Null
      && ("stream" in r <==> stream)
  {
    var opts := LlmModels.DefaultOptions();
    assert PrepareFunctions(opts, render).None?;
  }

  /** The part of a chat completion the adapter reads. */
  datatype Completion = Completion(
    id: string,
    model: string,
    content: Option<string>,
    functionCall: Option<(string, string)>,
    usage: Option<LlmModels.LLMUsage>)

  /** The response of `generate`: a missing content is `""`, a function
      call has its arguments parsed, and the completion's id and model are
      kept as vendor-specific data. */
  function ToResponse(c: Completion, parseJson: string -> map<string, Value>): (r: LlmModels.LLMResponse)
    ensures r.content == (if c.content.Some? then c.content.value else "")
    ensures r.functionCall.Some? <==> c.functionCall.Some?
    ensures r.functionCall.Some? ==>
      r.functionCall.value == LlmModels.LLMFunctionCall(c.functionCall.value.0, parseJson(c.functionCall.value.1))
    ensures r.usage == c.usage
    ensures r.vendorSpecific == map["id" := Str(c.id), "model" := Str(c.model)]
  {
    LlmModels.LLMResponse(
      if c.content.Some? then c.content.value else "",
      if c.functionCall.Some? then Some(LlmModels.LLMFunctionCall(c.functionCall.value.0, parseJson(c.functionCall.value.1))) else None,
      c.usage,
      map["id" := Str(c.id), "model" := Str(c.model)])
  }

  /** A streamed chunk: the delta content of each choice. */
  datatype StreamChunk = StreamChunk(choices: seq<Option<string>>)

  /** What `generate_stream` yields: the first choice's delta content of
      each chunk that has one and where it is not empty, in order. */
  function StreamTexts(chunks: seq<StreamChunk>): (r: seq<string>)
    ensures |r| <= |chunks|
    ensures forall s :: s in r ==> s != ""
  {
    if chunks == [] then []
    else
      var c := chunks[|chunks| - 1];
      StreamTexts(chunks[..|chunks| - 1])
      + (if |c.choices| > 0 && c.choices[0].Some? && c.choices[0].value != "" then [c.choices[0].value] else [])
  }

  /** A chunk contributes exactly when its first choice has content. */
  lemma {:induction false} StreamTextsOf(chunks: seq<StreamChunk>, s: string)
    ensures s in StreamTexts(chunks) <==>
      s != "" && exists c :: c in chunks && |c.choices| > 0 && c.choices[0] == Some(s)
  {
    if chunks != [] {
      var n := |chunks| - 1;
      assert forall c :: c in chunks[..n] ==> c in chunks;
      StreamTextsOf(chunks[..n], s);
      if s != "" && exists c :: c in chunks && |c.choices| > 0 && c.choices[0] == Some(s) {
        var c :| c in chunks && |c.choices| > 0 && c.choices[0] == Some(s);
        if c != chunks[n] {
          var i :| 0 <= i < |chunks| && chunks[i] == c;
          assert chunks[..n][i] == c;
        }
      }
    }
  }
}
