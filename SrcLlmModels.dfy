/** `src/xaibo/core/models/llm.py`: the newer message records. Its
    `LLMRole`, `LLMOptions` (with the same defaults and the same two range
    checks) and `LLMUsage` are the ones of `xaibo/core/models/llm.py`, so
    they are taken from `LlmModels`; the messages differ: every field but
    the role is optional, and calls and results carry ids. */
module SrcLlmModels {
  import opened Basics
  import opened Values
  import LlmModels

  type Role = LlmModels.Role

  datatype LLMFunctionCall = LLMFunctionCall(id: string, name: string, arguments: map<string, Value>)

  datatype LLMFunctionResult = LLMFunctionResult(id: string, name: string, content: string)

  datatype LLMMessage = LLMMessage(
    role: Role,
    content: Option<string>,
    name: Option<string>,
    toolCalls: Option<seq<LLMFunctionCall>>,
    toolResults: Option<seq<LLMFunctionResult>>)

  /** `LLMMessage(role=...)`: only the role is required; every other field
      defaults to `None`. */
  function NewMessage(role: Role): (m: LLMMessage)
    ensures m.role == role
    ensures m.content.None? && m.name.None? && m.toolCalls.None? && m.toolResults.None?
  {
    LLMMessage(role, None, None, None, None)
  }

  datatype LLMResponse = LLMResponse(
    content: string,
    toolCalls: Option<seq<LLMFunctionCall>>,
    usage: Option<LlmModels.LLMUsage>,
    vendorSpecific: map<string, Value>)
}
