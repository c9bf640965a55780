/** `xaibo/primitives/modules/llm/google.py`: the Gemini adapter's shaping
    of requests (contents, generation configuration, system instruction,
    model choice) and of responses. The `genai` client is left out; the
    request is the model name, the contents and the configuration
    dictionary handed to it, and a reply is the part of the response the
    adapter reads. */
module Google {
  import opened Basics
  import opened Values
  import opened OrderedDicts
  import Strings
  import LlmModels

  type LLMMessage = LlmModels.LLMMessage
  type LLMOptions = LlmModels.LLMOptions

  datatype GoogleLLM = GoogleLLM(model: Value)

  /** `GoogleLLM.__init__`: the configured model, or `gemini-2.0-flash-001`. */
  function NewGoogle(config: map<string, Value>): (g: GoogleLLM)
    ensures "model" in config ==> g.model == config["model"]
    ensures "model" !in config ==> g.model == Str("gemini-2.0-flash-001")
  {
    GoogleLLM(if "model" in config then config["model"] else Str("gemini-2.0-flash-001"))
  }

  /** An entry of the request contents: a text turn, or (for a function
      message) a bare function-response part. */
  datatype ContentEntry =
    | Content(role: string, text: string)
    | FunctionResponse(name: Option<string>, result: string)

  /** What one message contributes: nothing for a system message. */
  function EntryOf(m: LLMMessage): (r: seq<ContentEntry>)
    ensures |r| <= 1
  {
    if m.role == LlmModels.System then []
    else if m.role == LlmModels.Function then [FunctionResponse(m.name, m.content)]
    else [Content(if m.role == LlmModels.User then "user" else "model", m.content)]
  }

  /** The contents of a message list, in message order. */
  function Contents(messages: seq<LLMMessage>): seq<ContentEntry>
  {
    if messages == [] then []
    else Contents(messages[..|messages| - 1]) + EntryOf(messages[|messages| - 1])
  }

  function NonSystemCount(messages: seq<LLMMessage>): nat
  {
    if messages == [] then 0
    else NonSystemCount(messages[..|messages| - 1]) + (if messages[|messages| - 1].role == LlmModels.System then 0 else 1)
  }

  /** System messages are dropped and every other message gives exactly
      one entry: a user turn for the user, a model turn for the assistant,
      a function response for a function result. */
  lemma {:induction false} ContentsSpec(messages: seq<LLMMessage>)
    ensures |Contents(messages)| == NonSystemCount(messages)
    ensures forall e :: e in Contents(messages) ==>
      exists m :: m in messages && m.role != LlmModels.System && EntryOf(m) == [e]
  {
    if messages != [] {
      var n := |messages| - 1;
      ContentsSpec(messages[..n]);
      forall e | e in Contents(messages)
        ensures exists m :: m in messages && m.role != LlmModels.System && EntryOf(m) == [e]
      {
        if e in Contents(messages[..n]) {
          var m :| m in messages[..n] && m.role != LlmModels.System && EntryOf(m) == [e];
          assert m in messages;
        } else {
          assert EntryOf(messages[n]) == [e];
        }
      }
    }
  }

  /** Conversion keeps message order. */
  lemma {:induction false} ContentsAppend(a: seq<LLMMessage>, b: seq<LLMMessage>)
    ensures Contents(a + b) == Contents(a) + Contents(b)
    decreases |b|
  {
    if b == [] {
      assert a + b == a;
    } else {
      var n := |b| - 1;
      assert (a + b)[..|a + b| - 1] == a + b[..n];
      assert (a + b)[|a + b| - 1] == b[n];
      ContentsAppend(a, b[..n]);
    }
  }

  /** `_convert_messages_to_contents`. */
  method ConvertMessages(messages: seq<LLMMessage>) returns (contents: seq<ContentEntry>)
    ensures contents == Contents(messages)
  {
    contents := [];
    for i := 0 to |messages|
      invariant contents == Contents(messages[..i])
    {
      assert messages[..i + 1][..i] == messages[..i];
      var m := messages[i];
      if m.role == LlmModels.System {
        continue;
      }
      var role := if m.role == LlmModels.User then "user" else "model";
      if m.role == LlmModels.Function {
        contents := contents + [FunctionResponse(m.name, m.content)];
      } else {
        contents := contents + [Content(role, m.content)];
      }
    }
    assert messages[..|messages|] == messages;
  }

  /** The schema of one parameter. */
  function ParameterSchema(p: LlmModels.ToolParameter): Value
  {
    Object(map[
      "type" := Str(p.paramType),
      "description" := if p.description.Some? then Str(p.description.value) else Null,
      "enum" := if p.enumValues.Some? then Strs(p.enumValues.value) else Null,
      "default" := p.default])
  }

  /** One tool holding the one declaration of a function. */
  function ToolOf(t: LlmModels.Tool): (r: Value)
    ensures r.Object? && r.fields.Keys == {"function_declarations"}
    ensures var ds := r.fields["function_declarations"];
      ds.List? && |ds.items| == 1 && ds.items[0].Object?
      && ds.items[0].fields.Keys == {"name", "description", "parameters"}
      && ds.items[0].fields["name"] == Str(t.name)
      && ds.items[0].fields["description"] == Str(t.description)
      && var ps := ds.items[0].fields["parameters"];
         ps.Object? && ps.fields.Keys == {"type", "properties"} && ps.fields["type"] == Str("OBJECT")
         && ps.fields["properties"].Object?
         && ps.fields["properties"].fields.Keys == t.parameters.entries.Keys
  {
    var ps := t.parameters.entries;
    Object(map["function_declarations" := List([Object(map[
      "name" := Str(t.name),
      "description" := Str(t.description),
      "parameters" := Object(map[
        "type" := Str("OBJECT"),
        "properties" := Object(map k | k in ps :: ParameterSchema(ps[k]))])])])])
  }

  /** The generation configuration `_prepare_config` builds for present
      options. */
  function ConfigOf(o: LLMOptions): map<string, Value>
  {
    var c0: map<string, Value> := map[];
    var c1 := if o.temperature.Some? then c0["temperature" := Num(o.temperature.value)] else c0;
    var c2 := if o.topP.Some? then c1["top_p" := Num(o.topP.value)] else c1;
    var c3 := if o.maxTokens.Some? then c2["max_output_tokens" := Int(o.maxTokens.value)] else c2;
    var c4 := if o.stopSequences.Some? && o.stopSequences.value != [] then c3["stop_sequences" := Strs(o.stopSequences.value)] else c3;
    var fs := if o.functions.Some? then o.functions.value else [];
    var c5 := if fs != [] then c4["tools" := List(seq(|fs|, i requires 0 <= i < |fs| => ToolOf(fs[i])))] else c4;
    if o.vendorSpecific.Some? && o.vendorSpecific.value != map[] then c5 + o.vendorSpecific.value else c5
  }

  /** What each configuration key holds: vendor-specific keys override;
      otherwise a sampling value only when set, `max_tokens` under the name
      `max_output_tokens`, stop sequences only when there are some, and one
      tool per function. */
  lemma ConfigSpec(o: LLMOptions, k: string)
    ensures var c := ConfigOf(o);
      var vendor := if o.vendorSpecific.Some? then o.vendorSpecific.value else map[];
      && (k in vendor ==> k in c && c[k] == vendor[k])
      && (k !in vendor ==>
            && (k == "temperature" ==> (k in c <==> o.temperature.Some?) && (k in c ==> c[k] == Num(o.temperature.value)))
            && (k == "top_p" ==> (k in c <==> o.topP.Some?) && (k in c ==> c[k] == Num(o.topP.value)))
            && (k == "max_output_tokens" ==> (k in c <==> o.maxTokens.Some?) && (k in c ==> c[k] == Int(o.maxTokens.value)))
            && (k == "stop_sequences" ==> (k in c <==> o.stopSequences.Some? && o.stopSequences.value != []))
            && (k == "tools" ==> ((k in c <==> o.functions.Some? && o.functions.value != [])
                                  && (k in c ==> c[k].List? && |c[k].items| == |o.functions.value|
                                                 && forall i :: 0 <= i < |c[k].items| ==> c[k].items[i] == ToolOf(o.functions.value[i]))))
            && (k !in {"temperature", "top_p", "max_output_tokens", "stop_sequences", "tools"} ==> k !in c))
  {
  }

  /** `_prepare_config`: `None` without options, else the configuration. */
  method PrepareConfig(options: Option<LLMOptions>) returns (config: Option<map<string, Value>>)
    ensures options.None? ==> config.None?
    ensures options.Some? ==> config == Some(ConfigOf(options.value))
  {
    if options.None? {
      return None;
    }
    var o := options.value;
    var c: map<string, Value> := map[];
    if o.temperature.Some? {
      c := c["temperature" := Num(o.temperature.value)];
    }
    if o.topP.Some? {
      c := c["top_p" := Num(o.topP.value)];
    }
    if o.maxTokens.Some? {
      c := c["max_output_tokens" := Int(o.maxTokens.value)];
    }
    if o.stopSequences.Some? && o.stopSequences.value != [] {
      c := c["stop_sequences" := Strs(o.stopSequences.value)];
    }
    if o.functions.Some? && o.functions.value != [] {
      var fs := o.functions.value;
      var tools: seq<Value> := [];
      for i := 0 to |fs|
        invariant tools == seq(i, j requires 0 <= j < i => ToolOf(fs[j]))
      {
        tools := tools + [ToolOf(fs[i])];
      }
      c := c["tools" := List(tools)];
    }
    if o.vendorSpecific.Some? && o.vendorSpecific.value != map[] {
      c := c + o.vendorSpecific.value;
    }
    return Some(c);
  }

  /** The contents of the system messages, in order. */
  function SystemContents(messages: seq<LLMMessage>): (r: seq<string>)
    ensures |r| <= |messages|
  {
    if messages == [] then []
    else
      var m := messages[|messages| - 1];
      SystemContents(messages[..|messages| - 1]) + (if m.role == LlmModels.System then [m.content] else [])
  }

  /** `_extract_system_instruction`: the system contents joined by
      newlines, or `None` when there is no system message. */
  function SystemInstruction(messages: seq<LLMMessage>): (r: Option<string>)
    ensures r.None? <==> SystemContents(messages) == []
    ensures r.Some? ==> r.value == Strings.Join("\n", SystemContents(messages))
  {
    var parts := SystemContents(messages);
    if parts == [] then None else Some(Strings.Join("\n", parts))
  }

  /** A system content counts exactly when it belongs to a system
      message. */
  lemma {:induction false} SystemContentsMember(messages: seq<LLMMessage>, s: string)
    ensures s in SystemContents(messages) <==> exists m :: m in messages && m.role == LlmModels.System && m.content == s
  {
    if messages != [] {
      var n := |messages| - 1;
      SystemContentsMember(messages[..n], s);
      assert forall m :: m in messages[..n] ==> m in messages;
      if exists m :: m in messages && m.role == LlmModels.System && m.content == s {
        var m :| m in messages && m.role == LlmModels.System && m.content == s;
        if m != messages[n] {
          var i :| 0 <= i < |messages| && messages[i] == m;
          assert messages[..n][i] == m;
        }
      }
    }
  }

  /** When no system content holds a newline, the instruction splits back
      into the system contents. */
  lemma SystemInstructionLines(messages: seq<LLMMessage>)
    requires SystemContents(messages) != []
    requires forall m :: m in messages && m.role == LlmModels.System ==> '\n' !in m.content
    ensures Strings.Split(SystemInstruction(messages).value, '\n') == SystemContents(messages)
  {
    var parts := SystemContents(messages);
    forall i | 0 <= i < |parts|
      ensures '\n' !in parts[i]
    {
      SystemContentsMember(messages, parts[i]);
    }
    Strings.SplitJoin(parts, '\n');
  }

  /** The model of a request: the vendor-specific `model` when the options
      have vendor-specific data, else the adapter's. */
  function SelectModel(g: GoogleLLM, options: Option<LLMOptions>): (r: Value)
    ensures options.Some? && options.value.vendorSpecific.Some? && "model" in options.value.vendorSpecific.value ==>
      r == options.value.vendorSpecific.value["model"]
    ensures !(options.Some? && options.value.vendorSpecific.Some? && "model" in options.value.vendorSpecific.value) ==>
      r == g.model
  {
    if options.Some? && options.value.vendorSpecific.Some? && options.value.vendorSpecific.value != map[] then
      var vs := options.value.vendorSpecific.value;
      if "model" in vs then vs["model"] else g.model
    else g.model
  }

  datatype Request = Request(model: Value, contents: seq<ContentEntry>, config: Option<map<string, Value>>)

  /** The request of `generate` and `generate_stream`: the system
      instruction is added only when it is non-empty and there is a
      configuration to carry it. */
  function BuildRequest(g: GoogleLLM, messages: seq<LLMMessage>, options: Option<LLMOptions>): (r: Request)
    ensures r.model == SelectModel(g, options)
    ensures r.contents == Contents(messages)
    ensures r.config.Some? <==> options.Some?
    ensures var si := SystemInstruction(messages);
      options.Some? && si.Some? && si.value != "" ==>
        r.config.value == ConfigOf(options.value)["system_instruction" := Str(si.value)]
    ensures var si := SystemInstruction(messages);
      options.Some? && !(si.Some? && si.value != "") ==> r.config.value == ConfigOf(options.value)
  {
    var config := if options.Some? then Some(ConfigOf(options.value)) else None;
    var si := SystemInstruction(messages);
    var withSystem := if si.Some? && si.value != "" && config.Some? then Some(config.value["system_instruction" := Str(si.value)]) else config;
    Request(SelectModel(g, options), Contents(messages), withSystem)
  }

  /** A part of a candidate's content: a function call when it has one,
      otherwise its text when it has the attribute. */
  datatype Part = Part(functionCall: Option<LlmModels.LLMFunctionCall>, text: Option<string>)

  datatype UsageMetadata = UsageMetadata(promptTokenCount: Option<int>, candidatesTokenCount: Option<int>, totalTokenCount: Option<int>)

  /** The part of a Gemini response the adapter reads; a candidate is the
      parts of its content, `None` when it has none. */
  datatype GenerateResponse = GenerateResponse(candidates: seq<Option<seq<Part>>>, usageMetadata: Option<UsageMetadata>)

  /** The texts of the parts that are not function calls, concatenated. */
  function TextOf(parts: seq<Part>): string
  {
    if parts == [] then ""
    else
      var p := parts[|parts| - 1];
      TextOf(parts[..|parts| - 1]) + (if p.functionCall.None? && p.text.Some? then p.text.value else "")
  }

  /** The last function call among the parts. */
  function LastCall(parts: seq<Part>): (r: Option<LlmModels.LLMFunctionCall>)
    ensures r.None? <==> forall i :: 0 <= i < |parts| ==> parts[i].functionCall.None?
    ensures r.Some? ==> exists i :: (0 <= i < |parts| && parts[i].functionCall == r
                                      && forall j :: i < j < |parts| ==> parts[j].functionCall.None?)
  {
    if parts == [] then None
    else
      var n := |parts| - 1;
      if parts[n].functionCall.Some? then parts[n].functionCall
      else
        var r := LastCall(parts[..n]);
        assert forall i :: 0 <= i < n ==> parts[..n][i] == parts[i];
        r
  }

  function OrZero(x: Option<int>): int { if x.Some? then x.value else 0 }

  /** The parts the adapter reads: those of the first candidate, if any. */
  function FirstParts(response: GenerateResponse): seq<Part>
  {
    if |response.candidates| > 0 && response.candidates[0].Some? then response.candidates[0].value else []
  }

  /** The response of `_process_response`, as a specification. */
  function ResponseOf(response: GenerateResponse): (r: LlmModels.LLMResponse)
    ensures r.content == TextOf(FirstParts(response))
    ensures r.functionCall == LastCall(FirstParts(response))
    ensures r.usage.Some? <==> response.usageMetadata.Some?
    ensures r.usage.Some? ==>
      var u := response.usageMetadata.value;
      r.usage.value == LlmModels.LLMUsage(OrZero(u.promptTokenCount), OrZero(u.candidatesTokenCount), OrZero(u.totalTokenCount))
  {
    var parts := FirstParts(response);
    var usage := if response.usageMetadata.Some? then
      var u := response.usageMetadata.value;
      Some(LlmModels.LLMUsage(OrZero(u.promptTokenCount), OrZero(u.candidatesTokenCount), OrZero(u.totalTokenCount)))
    else None;
    LlmModels.LLMResponse(TextOf(parts), LastCall(parts), usage, map[])
  }

  /** Texts concatenate in part order. */
  lemma {:induction false} TextOfAppend(a: seq<Part>, b: seq<Part>)
    ensures TextOf(a + b) == TextOf(a) + TextOf(b)
    decreases |b|
  {
    if b == [] {
      assert a + b == a;
    } else {
      var n := |b| - 1;
      assert (a + b)[..|a + b| - 1] == a + b[..n];
      assert (a + b)[|a + b| - 1] == b[n];
      TextOfAppend(a, b[..n]);
    }
  }

  /** A function-call part adds no text: only text parts are read. */
  lemma {:induction false} CallPartsAddNoText(a: seq<Part>, p: Part)
    requires p.functionCall.Some?
    ensures TextOf(a + [p]) == TextOf(a)
    ensures LastCall(a + [p]) == p.functionCall
  {
    assert (a + [p])[..|a|] == a;
  }

  /** `_process_response`: walk the parts of the first candidate, keeping
      the latest function call and appending the text of the others. The
      raw response is kept as vendor-specific data, left out here. */
  method ProcessResponse(response: GenerateResponse) returns (r: LlmModels.LLMResponse)
    ensures r == ResponseOf(response)
  {
    var functionCall: Option<LlmModels.LLMFunctionCall> := None;
    var content := "";
    var parts := FirstParts(response);
    for i := 0 to |parts|
      invariant content == TextOf(parts[..i])
      invariant functionCall == LastCall(parts[..i])
    {
      assert parts[..i + 1][..i] == parts[..i];
      assert parts[..i + 1][i] == parts[i];
      var part := parts[i];
      if part.functionCall.Some? {
        functionCall := part.functionCall;
      } else if part.text.Some? {
        content := content + part.text.value;
      }
    }
    assert parts[..|parts|] == parts;
    var usage: Option<LlmModels.LLMUsage> := None;
    if response.usageMetadata.Some? {
      var u := response.usageMetadata.value;
      usage := Some(LlmModels.LLMUsage(OrZero(u.promptTokenCount), OrZero(u.candidatesTokenCount), OrZero(u.totalTokenCount)));
    }
    r := LlmModels.LLMResponse(content, functionCall, usage, map[]);
  }
}
