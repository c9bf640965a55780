/** `xaibo/core/models/llm.py`: the message, option and response records
    shared by the LLM adapters, and the range checks on sampling options.
    Floats are modelled as `real`. The tool description records come from
    `xaibo.core.models.tools`, which is not part of this model; they carry
    the fields the adapters read. */
module LlmModels {
  import opened Basics
  import opened Values
  import opened OrderedDicts

  datatype Role = System | User | Assistant | Function
  {
    /** `LLMRole.value`. */
    function Name(): string
    {
      match this
      case System => "system"
      case User => "user"
      case Assistant => "assistant"
      case Function => "function"
    }
  }

  /** The role whose value is `s`, if any: `LLMRole(s)`. */
  function RoleNamed(s: string): (r: Option<Role>)
    ensures r.Some? ==> r.value.Name() == s
  {
    if s == "system" then Some(System)
    else if s == "user" then Some(User)
    else if s == "assistant" then Some(Assistant)
    else if s == "function" then Some(Function)
    else None
  }

  /** Role values are distinct and name their role. */
  lemma RoleNameRoundTrip(r: Role)
    ensures RoleNamed(r.Name()) == Some(r)
  {
  }

  datatype LLMMessage = LLMMessage(role: Role, content: string, name: Option<string>)

  /** `LLMMessage(role=..., content=...)`: both are required and `name`
      defaults to `None`. */
  function NewMessage(role: Role, content: string): (m: LLMMessage)
    ensures m.role == role && m.content == content && m.name.None?
  {
    LLMMessage(role, content, None)
  }

  /** A parameter of a tool; a `default` of `Null` is Python's `None`. */
  datatype ToolParameter = ToolParameter(
    paramType: string,
    description: Option<string>,
    required: bool,
    default: Value,
    enumValues: Option<seq<string>>)

  datatype Tool = Tool(name: string, description: string, parameters: Dict<string, ToolParameter>)

  datatype LLMOptions = LLMOptions(
    temperature: Option<real>,
    topP: Option<real>,
    maxTokens: Option<int>,
    stopSequences: Option<seq<string>>,
    functions: Option<seq<Tool>>,
    vendorSpecific: Option<map<string, Value>>)

  /** `LLMOptions()`. */
  function DefaultOptions(): LLMOptions
  {
    LLMOptions(Some(1.0), Some(1.0), None, None, None, Some(map[]))
  }

  datatype ValidationError = ValidationError(field: string, message: string)

  /** `validate_temperature`: `None` or a value in [0, 2]. */
  function ValidateTemperature(v: Option<real>): (r: Result<Option<real>, ValidationError>)
    ensures r.Ok? <==> v.None? || 0.0 <= v.value <= 2.0
    ensures r.Ok? ==> r.value == v
    ensures r.Err? ==> r.error == ValidationError("temperature", "temperature must be between 0 and 2")
  {
    if v.Some? && (v.value < 0.0 || v.value > 2.0) then
      Err(ValidationError("temperature", "temperature must be between 0 and 2"))
    else Ok(v)
  }

  /** `validate_top_p`: `None` or a value in [0, 1]. */
  function ValidateTopP(v: Option<real>): (r: Result<Option<real>, ValidationError>)
    ensures r.Ok? <==> v.None? || 0.0 <= v.value <= 1.0
    ensures r.Ok? ==> r.value == v
    ensures r.Err? ==> r.error == ValidationError("top_p", "top_p must be between 0 and 1")
  {
    if v.Some? && (v.value < 0.0 || v.value > 1.0) then
      Err(ValidationError("top_p", "top_p must be between 0 and 1"))
    else Ok(v)
  }

  /** The errors of the failing checks, in field order. */
  function Failures(o: LLMOptions): seq<ValidationError>
  {
    (if ValidateTemperature(o.temperature).Err? then [ValidateTemperature(o.temperature).error] else [])
    + (if ValidateTopP(o.topP).Err? then [ValidateTopP(o.topP).error] else [])
  }

  /** Building `LLMOptions` from field values: both validators run, and a
      failure reports every failing field at once, `temperature` before
      `top_p`; every other field is taken as given. */
  function MakeOptions(o: LLMOptions): (r: Result<LLMOptions, seq<ValidationError>>)
    ensures r.Ok? <==> ValidateTemperature(o.temperature).Ok? && ValidateTopP(o.topP).Ok?
    ensures r.Ok? ==> r.value == o
    ensures r.Err? ==> 1 <= |r.error| <= 2
    ensures r.Err? ==> forall e :: e in r.error <==>
      (e.field == "temperature" && ValidateTemperature(o.temperature) == Err(e))
      || (e.field == "top_p" && ValidateTopP(o.topP) == Err(e))
    ensures r.Err? && |r.error| == 2 ==> r.error[0].field == "temperature" && r.error[1].field == "top_p"
  {
    var errors := Failures(o);
    if errors == [] then Ok(o) else Err(errors)
  }

  /** The defaults pass both checks, and the checks accept exactly the
      closed ranges: both ends and `None` are allowed. */
  lemma DefaultsValid()
    ensures MakeOptions(DefaultOptions()) == Ok(DefaultOptions())
    ensures DefaultOptions().temperature == Some(1.0) && DefaultOptions().topP == Some(1.0)
    ensures DefaultOptions().vendorSpecific == Some(map[])
    ensures ValidateTemperature(Some(0.0)).Ok? && ValidateTemperature(Some(2.0)).Ok?
    ensures ValidateTopP(Some(0.0)).Ok? && ValidateTopP(Some(1.0)).Ok?
    ensures ValidateTemperature(None).Ok? && ValidateTopP(None).Ok?
  {
  }

  datatype LLMFunctionCall = LLMFunctionCall(name: string, arguments: map<string, Value>)

  datatype LLMUsage = LLMUsage(promptTokens: int, completionTokens: int, totalTokens: int)

  datatype LLMResponse = LLMResponse(
    content: string,
    functionCall: Option<LLMFunctionCall>,
    usage: Option<LLMUsage>,
    vendorSpecific: map<string, Value>)
}
