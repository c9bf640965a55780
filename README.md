# xaibo composition runtime in Dafny

xaibo builds an agent from a configuration: a list of modules, each a
Python class with an id, plus "exchanges" that say which module provides
a protocol to which consumer. This project models the parts of the
runtime that do the wiring, and proves properties of them:

- **Implicit-wiring resolver** (`xaibo/core/config.py`, module `Config`).
  It adds the reserved `__response__` module and merges constructor
  requirements into `uses`. It wires every used protocol that has exactly
  one provider, and wires the reserved `__entry__` consumer over the four
  message-handler protocols. When a protocol has several providers and no
  explicit exchange, it raises a `ValueError`. `AgentConfig` is a class
  whose methods update its fields in place. Each method is proved against
  the pure function `Populate` and its parts, and the lemmas about those
  functions state what the resolver promises.
- **Instantiation scheduler and instrumentation** (`src/xaibo/core/exchange.py`,
  module `Exchange`).
  - The `Exchange` class seeds override bindings as `override_{idx}`
    instances.
  - Its fixed-point loop instantiates every module whose providers already
    exist. A pass that makes no progress raises a circular-dependency error.
  - Each exchange must match exactly one constructor parameter.
  - Overrides are matched by type first, then by type name.
  - Exactly one `__entry__` exchange is required.
  - `MethodProxy` counts calls and sends CALL, then RESULT or EXCEPTION,
    events to the listeners whose prefix matches the event name.
- **Older two-pass exchange** (`xaibo/core/exchange.py`, module
  `LegacyExchange`), kept separate from the newer one.
- **Registry** (`Registry`): the agent-config table and the per-agent
  listener filter.
- **Agent** (`Agent`): dispatch to `__entry__` and `__response__`, and the
  text form of an agent.
- **Tool collector** (`ToolCollector`): first-match tool dispatch.
- **Echo example** (`Echo`): the two identical copies under
  `xaibo-examples/` and `xaibo_examples/`.
- **Web server reconciliation** (`src/xaibo/server/web.py`, module `Web`):
  the class-path split, adapter loading, and the unregister/register plan
  when the config directory changes.
- **LiveKit bridge** (`LiveKit`): chat-context conversion, extraction of the
  last user text, and word-by-word chunking of a reply.
- **OpenAI and Gemini adapters** (`OpenAI`, `Google`): the construction and
  request-shaping helpers and response parsing.
- **LLM records** (`LlmModels`, `SrcLlmModels`): `LLMOptions` defaults and
  the temperature and `top_p` range checks.

Runtime reflection becomes oracle functions passed in as parameters:
importing a class, the protocols it provides, its constructor slots,
`isinstance`, `getattr`, `callable`. The same applies to module objects'
behaviour, `str()` of non-scalar values, JSON parsing, and the environment
variable. Shared helpers:

- `Basics`: `Option`, `Result` and counting.
- `Strings`: join, split, words, and the dotted-path split.
- `OrderedDicts`: insertion-ordered dictionaries, as Python's.
- `Values`: JSON-like values, Python truthiness and `str()` of scalars.

## Model

| member | source | states |
|---|---|---|
| Config.ImportTarget | xaibo/core/config.py:249-252 | the class name is the text after the last dot and holds no dot; the module path is everything before it, so path == module + "." + class; a path without a dot gives an empty module path |
| Config.AppendMissingSpec | xaibo/core/config.py:125-132 | appending names that are missing keeps the old list as a prefix, ends up containing exactly the old names and the new ones, adds no duplicate, and leaves `None` only when there was nothing to add |
| Config.ProvidersOfMember | xaibo/core/config.py:165-169 | a module id is listed as a provider of p exactly when that module's `provides` contains p |
| Config.ProvidersOfAppend | xaibo/core/config.py:165-169 | provider lists follow module declaration order |
| Config.RequirementsTableSpec | xaibo/core/config.py:199-233 | the requirements table has an entry exactly for the modules with a non-empty set of constructor slots, and for a given module id the entry is the slots of the last module with that id |
| Config.RequirementsTableKeys | xaibo/core/config.py:199-233 | a module id has an entry exactly when some module with that id has a non-empty set of constructor slots |
| Config.RequirementsTableLast | xaibo/core/config.py:199-233 | the entry of an id is the slots of the last module with that id and non-empty slots |
| Config.UsesCoverRequirements | xaibo/core/config.py:124-132 | after the merge, every required type is in the module's `uses`; existing entries keep their order; no name is added twice; modules without requirements are untouched |
| Config.PopulateResponse | xaibo/core/config.py:97-107 | afterwards exactly one module has id `__response__` when none did (any existing count is unchanged); it is appended last, with `xaibo.primitives.modules.ResponseHandler` providing `ResponseProtocol`; every other module keeps its id, path and config |
| Config.WireClashIff | xaibo/core/config.py:135-157 | wiring a consumer fails exactly when one of its used protocols has no exchange and more than one provider |
| Config.WireReaches | xaibo/core/config.py:139-152 | when wiring succeeds, every used protocol with exactly one provider has an exchange |
| Config.WireModulesFailsIff | xaibo/core/config.py:134-157 | the protocol step raises exactly when some module uses an unwired protocol that has several providers |
| Config.WireModulesReaches | xaibo/core/config.py:134-152 | when the protocol step succeeds, every used protocol of every module that has a single provider is wired |
| Config.PopulateKeepsExplicit | xaibo/core/config.py:109-285 | after `populate_implicits` the exchange list exists, the explicit exchanges are a prefix of it, and every added exchange names the single provider of its protocol |
| Config.PopulateFailsIff | xaibo/core/config.py:114-285 | `populate_implicits` stops on an unimportable path (empty or relative module part) exactly when some declared module has one; when none does, it raises the multiple-providers error exactly when a module's unwired used protocol has several providers, and the multiple-handlers error exactly when that does not happen and an unwired message protocol of `__entry__` has several handlers |
| Config.PopulateStopsAt | xaibo/core/config.py:159-188 | the first declared module whose path cannot be imported ends `populate_implicits` with its id and path: the exchange list is only initialised, the modules before it have their introspected protocols merged, and it and the later modules are left as declared |
| Config.FirstUnimportable | xaibo/core/config.py:166-185 | the index found is the first module whose path makes the import raise an error the `except` does not catch; `None` exactly when no module's path does |
| Config.DottedPathImports | xaibo/core/config.py:249-255 | a path that contains a dot and does not start with one has a non-empty, non-relative module part |
| Config.ResponseModuleImports | xaibo/core/config.py:97-107 | the added response module never stops the provider loop, so only a declared module can |
| Config.PopulateMergedAt | xaibo/core/config.py:166-183 | a module the provider loop reaches has its introspected protocols merged, whether or not a later module stops the loop |
| Config.PopulateWiresModules | xaibo/core/config.py:134-157 | on success, a used protocol of a module is wired exactly when it was wired explicitly or it has exactly one provider; with zero providers nothing is added and no error is raised |
| Config.PopulateWiresEntry | xaibo/core/config.py:260-298 | on success, `__entry__` has an exchange for a message-handler protocol exactly when it had one explicitly or there is exactly one handler |
| Config.IntrospectedCounts | xaibo/core/config.py:171-183 | a protocol returned by a module class's `provides()` makes the module a provider, so it counts towards both wiring and entry handlers, once the loop reaches the module (no path up to it is unimportable) |
| Config.AgentConfig.PopulateImplicits | xaibo/core/config.py:81-95 | the new configuration and the error are those of `Populate` on the old configuration |
| Config.AgentConfig.AddImplicitResponseModule | xaibo/core/config.py:97-107 | the module list becomes `WithResponseModule` of the old one; id and exchanges are unchanged |
| Config.AgentConfig.InitializeExchangeList | xaibo/core/config.py:109-112 | a `None` exchange list becomes `[]`, an existing one is left as it is |
| Config.AgentConfig.GetProtocolProviders | xaibo/core/config.py:159-188 | the returned table lists, for every protocol, the providers of the updated modules in declaration order; the modules' `provides` gain the introspected protocols; at the first unimportable path the loop stops with that module's error, the modules before it updated and the rest untouched |
| Config.AgentConfig.GetModuleRequirements | xaibo/core/config.py:190-233 | returns the requirements table of the modules |
| Config.AgentConfig.MergeRequirements | xaibo/core/config.py:124-132 | the modules become `UsesUpdated` of the old ones |
| Config.AgentConfig.WireConsumer | xaibo/core/config.py:137-157 | the exchange list and the clash reported are those of `Wire` over the consumer's protocols |
| Config.AgentConfig.AddImplicitProtocolExchanges | xaibo/core/config.py:114-157 | the modules gain introspected protocols and requirements; exchanges and error are those of `WireModules`; an unimportable path stops it before requirements and wiring, with the exchanges unchanged |
| Config.AgentConfig.GetMessageHandlers | xaibo/core/config.py:287-306 | the table has exactly the four message-handler protocols as keys, each mapped to its providers in declaration order |
| Config.AgentConfig.AddImplicitEntryHandlers | xaibo/core/config.py:260-285 | exchanges and error are those of `WireEntry` over the modules |
| Config.AddProviders | xaibo/core/config.py:166-169 | each protocol's provider list grows by the module id once per time the module declares it |
| Config.AddIntrospected | xaibo/core/config.py:176-183 | `provides` gains only the missing introspected names, and the provider table grows by exactly those |
| Config.AddHandlers | xaibo/core/config.py:300-304 | only the four handler protocols gain the module id, once per declaration |
| Exchange.OverrideIdInjective | src/xaibo/core/exchange.py:123 | distinct override indices give distinct ids `override_{idx}` |
| Exchange.OverrideInstancesKeys | src/xaibo/core/exchange.py:121-124 | the seeded instances are keyed `override_0`, `override_1`, ... in binding order |
| Exchange.OverrideInstancesAt | src/xaibo/core/exchange.py:121-124 | `override_{i}` holds the i-th binding's value |
| Exchange.OverrideTableAt | src/xaibo/core/exchange.py:125 | the i-th binding key maps to `override_{i}` |
| Exchange.OverrideTableKeeps | src/xaibo/core/exchange.py:121-125 | override keys from earlier that are not rebound keep their target |
| Exchange.Matching | src/xaibo/core/exchange.py:195-199 | the matching parameters are exactly those whose annotation the provider instance is an instance of |
| Exchange.ModuleDependenciesOkIff | src/xaibo/core/exchange.py:192-207 | dependency resolution succeeds exactly when every exchange of the module has an instantiated provider that matches exactly one parameter; then every matched parameter is bound |
| Exchange.OverridesByTypeSpec | src/xaibo/core/exchange.py:209-221 | a parameter is bound by override exactly when its type, or else its type name, is an override key; the binding is that override's instance; other dependencies are kept |
| Exchange.Build | src/xaibo/core/exchange.py:153-168 | a built instance has the module's id and config and the loaded class, and its constructor call neither raised nor received a second `config` keyword; a module with no `uses` is built without arguments, and fails exactly when its constructor raises |
| Exchange.BuildOverridesWin | src/xaibo/core/exchange.py:158-164 | an override matching a parameter's type replaces the exchange-resolved dependency, wrapped in a proxy whose caller is the module |
| Exchange.EntryModuleCases | src/xaibo/core/exchange.py:223-235 | no `__entry__` exchange gives "No message handler found", two or more give "Multiple message handlers found", one gives its provider's instance |
| Exchange.PassStalled | src/xaibo/core/exchange.py:137-175 | a pass with no progress changes nothing, and every remaining module in it is not ready |
| Exchange.RunKeeps | src/xaibo/core/exchange.py:133-175 | the loop keeps the scheduling invariant (each module built once, in an order where every provider was present first); a circular-dependency error names a remaining set in which no module is ready |
| Exchange.InstantiateSpec | src/xaibo/core/exchange.py:116-177 | on success every module is instantiated exactly once, each after its providers; the instances are the overrides, the modules and `__entry__`; there is exactly one entry exchange |
| Exchange.Exchange.InstantiateModules | src/xaibo/core/exchange.py:116-177 | the instances, the override table and the error are those of `Instantiate` |
| Exchange.Exchange.SeedOverrides | src/xaibo/core/exchange.py:118-125 | the instances are exactly the seeded overrides and the override table is updated |
| Exchange.Exchange.RunPass | src/xaibo/core/exchange.py:134-171 | one scan in declaration order yields the state and error of `Pass` |
| Exchange.Exchange.DependenciesSatisfied | src/xaibo/core/exchange.py:142-153 | readiness is that of `Ready`: a module with `uses` is ready when every provider of its exchanges exists |
| Exchange.Exchange.BuildModule | src/xaibo/core/exchange.py:155-168 | the instance is that of `Build` |
| Exchange.Exchange.GetModuleDependencies | src/xaibo/core/exchange.py:179-207 | the result is that of `ModuleDependencies` |
| Exchange.Exchange.GetOverridesByType | src/xaibo/core/exchange.py:209-221 | the result is that of `OverridesByType` |
| Exchange.Exchange.GetEntryModule | src/xaibo/core/exchange.py:223-235 | the result is that of `EntryModule` |
| Exchange.Exchange.GetModule | src/xaibo/core/exchange.py:247-259 | a proxy is returned exactly for a known module whose stored object is truthy, carrying the listeners, agent id, caller id and module name |
| Exchange.NewExchange | src/xaibo/core/exchange.py:101-114 | without a config nothing is instantiated; with one, the exchange succeeds exactly when `Instantiate` does and holds its instances |
| Exchange.Proxy.GetAttr | src/xaibo/core/exchange.py:392-404 | a non-callable attribute comes back unchanged; a callable one is wrapped in a method proxy with the same listeners and ids |
| Exchange.MakeEvent | src/xaibo/core/exchange.py:303-316 | the event name is `{package}.{class}.{method}.{type}` and the event carries the call count and the agent, caller and module ids |
| Exchange.Deliver | src/xaibo/core/exchange.py:318-324 | only listeners whose prefix is empty or matches the event name are called, with that event |
| Exchange.DeliverReaches | src/xaibo/core/exchange.py:318-321 | every matching listener receives the event |
| Exchange.DeliverIgnoresRaises | src/xaibo/core/exchange.py:320-324 | which handlers are called, in which order and with which event does not depend on which of them raise |
| Exchange.CallSilent | src/xaibo/core/exchange.py:296-297 | with no listeners a call delivers no event |
| Exchange.CatchAllSeesCall | src/xaibo/core/exchange.py:336-362 | a catch-all listener sees CALL with the arguments, then RESULT with the result or EXCEPTION with the trace, both with the call's count |
| Exchange.MethodPrefixListens | src/xaibo/core/exchange.py:304-319 | a `{package}.{class}.{method}.` prefix matches every event of that method |
| Exchange.MethodProxy.EmitEvent | src/xaibo/core/exchange.py:287-324 | the deliveries are those of `Emit` for the current call count |
| Exchange.MethodProxy.Call | src/xaibo/core/exchange.py:326-362 | the call count goes up by one, the outcome is the wrapped method's outcome, and the deliveries are CALL then RESULT or EXCEPTION |
| Exchange.CallAsWritten | src/xaibo/core/exchange.py:345-352 | a call whose method raises reports `AttributeError` and delivers no EXCEPTION event; a call that returns is the intended one |
| Exchange.ExceptionLostAsWritten | src/xaibo/core/exchange.py:345-352 | with a catch-all listener and a raising method, the call as written delivers only CALL and loses the method's exception, where the intended call delivers CALL and EXCEPTION with the trace |
| LegacyExchange.LoadClass | xaibo/core/exchange.py:13 | the class is loaded exactly when the import oracle knows the path |
| LegacyExchange.FilterOverrides | xaibo/core/exchange.py:52-58 | the kept overrides are exactly those whose key is a constructor variable, with their values |
| LegacyExchange.BuildWithUses | xaibo/core/exchange.py:21-28 | a module built in the second pass has its id and config and was constructed without raising; every kept override replaces the resolved dependency; an override named `config` always fails the call |
| LegacyExchange.FirstPassSpec | xaibo/core/exchange.py:11-16 | the first pass builds exactly the modules without `uses`, without arguments, and fails exactly when one of their classes is missing or its constructor raises |
| LegacyExchange.SecondPassSpec | xaibo/core/exchange.py:19-28 | the second pass adds exactly the modules with `uses` and keeps earlier instances |
| LegacyExchange.SecondPassKeys | xaibo/core/exchange.py:19-28 | after a successful second pass the instance ids are the earlier ones plus the ids of the modules with `uses` |
| LegacyExchange.SecondPassKeeps | xaibo/core/exchange.py:21 | an instance already present is never replaced by the second pass |
| LegacyExchange.SecondPassBuilds | xaibo/core/exchange.py:21-28 | every module with `uses` not yet built ends up as a proxy under its own id |
| LegacyExchange.SecondPassNeedsDeclarationOrder | xaibo/core/exchange.py:19-28 | a module whose provider is declared after it fails with a missing-key error |
| LegacyExchange.FirstMissing | xaibo/core/exchange.py:36-49 | a provider not yet instantiated makes dependency resolution fail on that key |
| LegacyExchange.InstantiateModules | xaibo/core/exchange.py:6-31 | the result is that of `Instantiate` (first pass, second pass, then `__entry__`) |
| LegacyExchange.GetEntryModule | xaibo/core/exchange.py:60-72 | the entry selection is the one-and-only rule of `EntryModule` |
| LegacyExchange.GetAttr | xaibo/core/exchange.py:124-136 | a non-callable attribute comes back unchanged, a callable one wrapped with its parent |
| LegacyExchange.Forward | xaibo/core/exchange.py:101-102 | a non-callable result is returned unchanged, a callable one re-wrapped with the same parent |
| Registry.AgentListeners | xaibo/core/registry.py:56-59 | every listener handed on is a registered `(prefix, handler)` whose filter is `None` or the agent id |
| Registry.AgentListenersKeep | xaibo/core/registry.py:56-59 | every registered listener for the agent is handed on |
| Registry.AgentListenersAppend | xaibo/core/registry.py:56-59 | listeners are handed on in registration order |
| Registry.ListenersAfterRegister | xaibo/core/registry.py:85 | registering a listener appends it to an agent's listeners exactly when its filter is `None` or that agent |
| Registry.Registry.RegisterAgent | xaibo/core/registry.py:21-27 | the config is stored under its id, replacing any earlier one; listeners are unchanged |
| Registry.Registry.RegisterEventListener | xaibo/core/registry.py:68-85 | one triple is appended and the configs are unchanged |
| Registry.Registry.GetAgentWith | xaibo/core/registry.py:40-66 | corrected: an unknown id is a `KeyError`; otherwise the agent carries the id and the modules instantiated with the filtered listeners, and fails exactly when instantiation does |
| Registry.Registry.GetAgentWithAsWritten | xaibo/core/registry.py:40-66 | as written: always an error; a `KeyError` exactly for an unknown id, otherwise the unexpected `event_listeners` keyword |
| Registry.AsWrittenNeverBuilds | xaibo/core/registry.py:61-65 | for a registered id whose configuration instantiates, the as-written call fails while the corrected one builds the agent |
| Registry.Registry.GetAgent | xaibo/core/registry.py:29-38 | `get_agent(id)` is `get_agent_with(id, {})` |
| Agent.Handle | xaibo/core/agent.py:20-86 | an entry without the operation raises `AttributeError` and calls nothing; otherwise the entry's method is called once with the message; if it raises, that exception is the outcome and nothing else is called; otherwise `get_response()` on `__response__` is called and its value, or its exception, is the outcome |
| Agent.NoResponseAfterRaise | xaibo/core/agent.py:32-35 | `get_response()` is called exactly when the entry has the operation, its method returned, and `__response__` exists |
| Agent.EntryCalledOnce | xaibo/core/agent.py:32-35 | the entry method is called exactly once when present and never otherwise |
| Agent.ModuleLines | xaibo/core/agent.py:17 | one `  - {module_id}` line per module key, in table order |
| Agent.ToStringLines | xaibo/core/agent.py:11-18 | the text splits into the header `Agent '{id}' with modules:` followed by the module lines |
| ToolCollector.AllToolsMember | src/xaibo/primitives/modules/tools/tool_collector.py:11-15 | a tool is listed exactly when some provider lists it |
| ToolCollector.AllToolsAppend | src/xaibo/primitives/modules/tools/tool_collector.py:11-15 | the listing is the concatenation in provider order |
| ToolCollector.ToolCollector.ListTools | src/xaibo/primitives/modules/tools/tool_collector.py:11-15 | the loop returns the concatenation of all providers' tools |
| ToolCollector.ExecuteFrom | src/xaibo/primitives/modules/tools/tool_collector.py:17-25 | the tool runs on the first provider that lists the name, and no earlier provider lists it; when none does, the result is `success=False` with error `Could not find {name}` |
| ToolCollector.ToolCollector.ExecuteTool | src/xaibo/primitives/modules/tools/tool_collector.py:17-25 | dispatch is the first-match search from the first provider |
| ToolCollector.ExecutesIffListed | src/xaibo/primitives/modules/tools/tool_collector.py:18-21 | a tool is executed exactly when the collector lists it |
| ToolCollector.NoProviders | src/xaibo/primitives/modules/tools/tool_collector.py:12-25 | with no providers the listing is empty and every call fails with `Could not find` |
| Echo.NewEcho | xaibo-examples/echo/__init__.py:11-20 | the config is kept, or `{}` when `None`; the prefix is the config's `prefix`, default `""`; the response is the injected one (the same holds for the identical copy under `xaibo_examples/`) |
| Echo.HandleText | xaibo-examples/echo/__init__.py:22-28 | exactly one call, `respond_text` on the response module, with text |
| Echo.ReplyEndsWithMessage | xaibo-examples/echo/__init__.py:28 | the reply is the rendered prefix followed by the message |
| Echo.RepliesDistinguishMessages | xaibo-examples/echo/__init__.py:28 | different messages give different replies |
| Echo.DefaultEchoesVerbatim | xaibo-examples/echo/__init__.py:18-19 | without a prefix the message is echoed unchanged |
| Echo.YouSaid | xaibo-examples/echo/__init__.py:28 | prefix `You said: ` and message `Hello world` give `You said: Hello world` |
| Echo.NegativePrefix | xaibo-examples/echo/__init__.py:28 | a non-string prefix is formatted with `str()`: `-3` and `x` give `-3x` |
| Echo.ProvidesTextHandling | xaibo-examples/echo/__init__.py:7-9 | `provides()` is exactly the text-handler protocol the agent dispatches text to |
| Web.GetClassByPath | src/xaibo/server/web.py:9-15 | the package is everything before the last dot and the class the last segment; an empty package, a relative package (leading dot), a missing module and a missing attribute are distinct errors |
| Web.BareNameFails | src/xaibo/server/web.py:10-13 | a path without a dot imports the empty module name and fails |
| Web.AdapterClasses | src/xaibo/server/web.py:28-31 | on success every adapter's class is resolved, in order |
| Web.AdapterClassesFirstError | src/xaibo/server/web.py:28-31 | on failure the error is that of the first adapter whose class cannot be resolved |
| Web.XaiboWebServer.AttachAdapters | src/xaibo/server/web.py:28-31 | the loop attaches the resolved classes in order or stops with the first error |
| Web.Unregisters | src/xaibo/server/web.py:41-42 | one unregister per removed path, with its old config's id |
| Web.RegistersIff | src/xaibo/server/web.py:45-47 | a config is registered exactly when its path is new or its config changed |
| Web.RegistersUnchanged | src/xaibo/server/web.py:36-49 | reloading identical configs issues no action: nothing is unregistered and nothing registered |
| Web.XaiboWebServer.LoadConfigs | src/xaibo/server/web.py:36-49 | every removed path is unregistered once, before the registrations, and afterwards the stored configs equal the new ones |
| Web.XaiboWebServer.RegisterChanged | src/xaibo/server/web.py:45-47 | the loop's registrations are those of `Registers` |
| Web.NewWebServer | src/xaibo/server/web.py:18-34 | adapters are attached first; on success the first load registers every config in the directory |
| Web.FirstLoadRegistersAll | src/xaibo/server/web.py:45-47 | against an empty table every config is registered, in directory order |
| LiveKit.RoleOfSpec | src/xaibo/integrations/livekit/llm.py:119-128 | `system` and `developer` map to SYSTEM, `assistant` to ASSISTANT, every other role to USER, none to FUNCTION |
| LiveKit.ItemMessages | src/xaibo/integrations/livekit/llm.py:126-165 | each chat item gives at most one message |
| LiveKit.ConvertedAppend | src/xaibo/integrations/livekit/llm.py:126 | conversion keeps item order |
| LiveKit.ConvertedShape | src/xaibo/integrations/livekit/llm.py:131-165 | every converted message has exactly one non-empty text part |
| LiveKit.SkippedItems | src/xaibo/integrations/livekit/llm.py:127-131 | a message with empty text and an item of another type add nothing |
| LiveKit.SimpleConversation.Append | src/xaibo/integrations/livekit/llm.py:140 | a message is appended to the history |
| LiveKit.ConvertChatContext | src/xaibo/integrations/livekit/llm.py:106-167 | the new conversation's history is the converted items |
| LiveKit.LastUserBelow | src/xaibo/integrations/livekit/llm.py:248-253 | the reverse search finds the last user message with text below the bound, or reports that none exists |
| LiveKit.LastUserText | src/xaibo/integrations/livekit/llm.py:246-255 | the result is empty exactly when no user message has text; otherwise it is the text of the last one |
| LiveKit.WordChunks | src/xaibo/integrations/livekit/llm.py:270-279 | one chunk per word, in order |
| LiveKit.ContentsOfWords | src/xaibo/integrations/livekit/llm.py:276 | the chunk contents so far are the words joined by spaces, with a trailing space before the last word |
| LiveKit.StreamSpec | src/xaibo/integrations/livekit/llm.py:264-299 | a non-empty reply gives one chunk per word plus a usage chunk; only the first has role `assistant`; the contents join to `" ".join(words)` and split back into the words; usage is (len(words), 0, len(words)) |
| LiveKit.BlankReply | src/xaibo/integrations/livekit/llm.py:264-299 | a reply of only whitespace gives just a usage chunk with zero tokens |
| LiveKit.XaiboLLMStream.ProcessResponse | src/xaibo/integrations/livekit/llm.py:257-299 | the chunks sent are exactly `Stream` of the reply, after those sent before |
| OpenAI.NewOpenAI | xaibo/primitives/modules/llm/openai.py:34-55 | fails exactly when neither a truthy config key nor a non-empty environment key exists; the model defaults to `gpt-3.5-turbo`; default kwargs are the config minus `api_key`, `model`, `base_url`, `timeout` |
| OpenAI.PrepareMessages | xaibo/primitives/modules/llm/openai.py:57-62 | one `{role, content}` entry per message, same order |
| OpenAI.MessageRoundTrip | xaibo/primitives/modules/llm/openai.py:60 | an entry gives back its message's role and content |
| OpenAI.Description | xaibo/primitives/modules/llm/openai.py:78 | the description or `""`, plus ` Default: {default}` only when the default is not `None` |
| OpenAI.ParameterSchema | xaibo/primitives/modules/llm/openai.py:76-80 | the `enum` key is present exactly when the enum is not `None` |
| OpenAI.RequiredNamesMember | xaibo/primitives/modules/llm/openai.py:83-86 | `required` lists exactly the parameters marked required |
| OpenAI.RequiredNamesAppend | xaibo/primitives/modules/llm/openai.py:83-86 | `required` keeps parameter order |
| OpenAI.PrepareFunctions | xaibo/primitives/modules/llm/openai.py:64-90 | `None` exactly when there are no functions; otherwise one schema per tool in order, named after it, with one property per parameter |
| OpenAI.BaseKwargs | xaibo/primitives/modules/llm/openai.py:97-104 | the fixed request keys |
| OpenAI.RequestKwargsAsWritten | xaibo/primitives/modules/llm/openai.py:97-113 | as written, the request fails exactly when `vendor_specific` is `None`, and otherwise equals the corrected request |
| OpenAI.RequestKwargs | xaibo/primitives/modules/llm/openai.py:97-113 | corrected: never fails; the keys are the fixed keys, the default kwargs, the vendor keys (none for `None`) and `stream` only when streaming, which is `True` |
| OpenAI.RequestKwargsPrecedence | xaibo/primitives/modules/llm/openai.py:97-113 | a key is present when any source has it; `stream` is `True` only when streaming; vendor keys beat default kwargs, which beat base keys |
| OpenAI.NoneVendorSpecific | xaibo/primitives/modules/llm/openai.py:106 | `vendor_specific=None` breaks the as-written request; the corrected one treats it as `{}` |
| OpenAI.BuildRequest | xaibo/primitives/modules/llm/openai.py:115-127 | corrected: the request of `generate` (and, with `stream`, of `generate_stream` at lines 163-175) is `_prepare_request_kwargs` of the prepared messages and functions with missing options read as `LLMOptions()`; the as-written request fails with the `**None` error exactly when given options have `vendor_specific=None`, and otherwise equals it; it always has the seven fixed keys, `stream` is `True` when streaming, and the messages entry is the prepared messages unless a default or vendor key overrides it |
| OpenAI.DefaultRequest | xaibo/primitives/modules/llm/openai.py:121 | missing options mean `LLMOptions()`: temperature and top_p 1.0, and no functions, stop or max_tokens |
| OpenAI.ToResponse | xaibo/primitives/modules/llm/openai.py:133-157 | a missing content becomes `""`; a function call has its arguments parsed; usage is kept; vendor data is the id and model |
| OpenAI.StreamTexts | xaibo/primitives/modules/llm/openai.py:180-182 | only non-empty texts are yielded |
| OpenAI.StreamTextsOf | xaibo/primitives/modules/llm/openai.py:180-182 | a text is yielded exactly when it is the non-empty first-choice content of some chunk |
| Google.NewGoogle | xaibo/primitives/modules/llm/google.py:27 | the model is the configured one or `gemini-2.0-flash-001` |
| Google.ContentsSpec | xaibo/primitives/modules/llm/google.py:43-63 | system messages are dropped and every other message gives exactly one entry |
| Google.ContentsAppend | xaibo/primitives/modules/llm/google.py:43 | message order is kept |
| Google.ConvertMessages | xaibo/primitives/modules/llm/google.py:39-63 | the loop returns `Contents`: a user turn for USER, a model turn for ASSISTANT, a function response for FUNCTION |
| Google.ToolOf | xaibo/primitives/modules/llm/google.py:86-102 | one tool with one declaration, named and described after the function, with an OBJECT schema holding one property per parameter |
| Google.ConfigSpec | xaibo/primitives/modules/llm/google.py:70-107 | vendor keys override; otherwise temperature and top_p appear only when set, `max_tokens` as `max_output_tokens`, `stop_sequences` only when non-empty, one tool per function |
| Google.PrepareConfig | xaibo/primitives/modules/llm/google.py:65-109 | no options give `None`; otherwise the step-by-step dictionary equals `ConfigOf` |
| Google.SystemInstruction | xaibo/primitives/modules/llm/google.py:111-116 | `None` exactly when there is no system message; otherwise the system contents joined by newlines |
| Google.SystemContentsMember | xaibo/primitives/modules/llm/google.py:113 | a text is collected exactly when some system message has it |
| Google.SystemInstructionLines | xaibo/primitives/modules/llm/google.py:115 | without embedded newlines the instruction splits back into the system contents |
| Google.SelectModel | xaibo/primitives/modules/llm/google.py:167 | the vendor-specific `model` is used when present, else the adapter's |
| Google.BuildRequest | xaibo/primitives/modules/llm/google.py:158-174 | the request has the selected model and the converted contents; the system instruction is added only when non-empty and there is a configuration |
| Google.LastCall | xaibo/primitives/modules/llm/google.py:127-132 | the call is the last function-call part, `None` when there is none |
| Google.TextOfAppend | xaibo/primitives/modules/llm/google.py:133-134 | texts concatenate in part order |
| Google.CallPartsAddNoText | xaibo/primitives/modules/llm/google.py:128-134 | a function-call part adds no text and becomes the current call |
| Google.ResponseOf | xaibo/primitives/modules/llm/google.py:118-151 | content is the first candidate's text parts concatenated, the call is the last call part, and missing usage counts are 0 |
| Google.ProcessResponse | xaibo/primitives/modules/llm/google.py:118-151 | the loop's response equals `ResponseOf` |
| LlmModels.RoleNamed | xaibo/core/models/llm.py:9-14 | a role found by value has that value |
| LlmModels.RoleNameRoundTrip | xaibo/core/models/llm.py:9-14 | each role's value names it back |
| LlmModels.NewMessage | xaibo/core/models/llm.py:17-21 | role and content as given, `name` `None` |
| LlmModels.ValidateTemperature | xaibo/core/models/llm.py:33-38 | accepted exactly when `None` or in [0, 2], unchanged; otherwise the `temperature must be between 0 and 2` error; the newer copy under `src/` performs the identical check |
| LlmModels.ValidateTopP | xaibo/core/models/llm.py:40-45 | accepted exactly when `None` or in [0, 1], unchanged; otherwise the `top_p must be between 0 and 1` error; the newer copy under `src/` performs the identical check |
| LlmModels.MakeOptions | xaibo/core/models/llm.py:24-45 | options are built exactly when both checks pass; otherwise every failing field is reported, `temperature` before `top_p`, with its validator's message |
| LlmModels.DefaultsValid | xaibo/core/models/llm.py:26-31 | the defaults (1.0, 1.0, `vendor_specific` `{}`) pass, and both ends of each range are accepted; the newer copy under `src/` has the same defaults |
| SrcLlmModels.NewMessage | src/xaibo/core/models/llm.py:29-35 | only the role is required; content, name, tool calls and tool results default to `None` |
| Strings.WordsOfJoin | src/xaibo/integrations/livekit/llm.py:266 | splitting space-joined words gives the words back |
| Values.Display | xaibo/primitives/modules/llm/openai.py:78 | `str()` of a scalar: a string as itself, `None`, `True`/`False`, decimal integers |

## Left out

- Reflection: `importlib`, `inspect`, `get_type_hints`, `isinstance`, `__annotations__`, `co_varnames`, `hasattr` and `callable` are oracle parameters. The `except (ImportError, AttributeError): pass` fallbacks are an oracle answering nothing.
- `_get_module_requirements`' handling of `Optional[...]` annotations by string surgery (xaibo/core/config.py:220-225): the slot oracle returns type names directly.
- Async execution, `await`, `asyncio.sleep` and the LiveKit event channel: emitted chunks are a sequence.
- Network clients (`AsyncOpenAI`, `genai.Client`, `base_url`, `timeout`, `vertexai`) and the API round-trips of `generate`/`generate_stream`: requests are the values handed to the client, replies the values read back.
- `time.time()` and `id()` in event fields: only the call counter of `call_id` is modelled.
- `traceback` and `print` in listener isolation: only the outcome (later handlers still run) is modelled.
- `ExchangeRedone` in src/xaibo/core/exchange.py: unfinished code with an empty instantiation loop.
- xaibo/core/xaibo.py, the HTTP adapters and `web.py`'s `start`, file watcher and argument parsing: process glue.
- `AgentConfig.load_directory`, `from_yaml`, `to_yaml`: filesystem and YAML; the web model takes the loaded directory as an ordered dictionary.
- Module instantiation inside `get_agent_with`: the corrected call takes it as a parameter, because as written the call never reaches an exchange (see Findings).
- Exchange.MakeEvent: the event carries `exception`, `caller_id` and `module_id` as `_emit_event` passes them, but the `Event` record of src/xaibo/core/models/events.py declares none of the three and pydantic ignores unknown keyword arguments by default, so a listener would not find them on the event.
- Exchange.MethodProxy.Call: its deliveries carry the same three fields and the EXCEPTION event of the intended call (see Findings); the event's `time` is not modelled.
- Exchange.Exchange.InstantiateModules: on an error, the partially filled instance table is not described (the error is).
- Web.XaiboWebServer.AttachAdapters: adapter construction and `adapt()` are outside the model; only class resolution and order are kept, and a failure leaves the server unattached.
- Floating point: temperatures and `top_p` are reals; NaN and rounding are not modelled.
- Values.Display: `str()` of floats, lists and dicts is a rendering oracle.
- OpenAI.ToResponse: `json.loads` is an oracle; malformed JSON is not modelled.
- Google.ResponseOf: a text part whose text is `None` (which would raise) is not modelled; the raw response kept as vendor data is dropped.
- Google.ConfigSpec: `GenerateContentConfig`'s rejection of unknown vendor keys is not modelled; the config holds every vendor key.
- Google.PrepareConfig: builds the same config, with the same unmodelled rejection of unknown vendor keys.
- OpenAI.BuildRequest: it is the corrected request; for options with `vendor_specific=None`, `generate` and `generate_stream` raise the `TypeError` of `**None` (re-raised by their `except`), which its ensures relates through `RequestKwargsAsWritten` (see Findings).
- ToolCollector.ExecuteFrom: an exception raised by a provider's `execute_tool` passes through the collector uncaught; the execution oracle always returns a result.
- Google.ResponseOf: a `usage_metadata` attribute that is present but `None` is read as absent.
- LiveKit message records: the message-content record the bridge imports is declared in neither xaibo/core/models/llm.py nor src/xaibo/core/models/llm.py; it is modelled as a role plus text parts. `chat()` and `ConfigOverrides` are process glue.
- Agent.Handle: `handle_image`, `handle_audio` and `handle_video` take opaque stream handles.

## Findings

| source | as written | input that shows it | evidently intended | confidence | as-written member | corrected member |
|---|---|---|---|---|---|---|
| src/xaibo/core/exchange.py:345-352 | the `except` block passes `EventType.EXCEPTION`, but the `EventType` of src/xaibo/core/models/events.py declares only CALL and RESULT | any proxied method that raises, e.g. one raising `ValueError`, with or without listeners | the method's exception is reported to listeners as an EXCEPTION event and re-raised to the caller | not executed | Exchange.CallAsWritten | Exchange.CatchAllSeesCall |
| xaibo/core/registry.py:61-65 | `get_agent_with` calls `exchange.instantiate_modules(config, override_bindings, event_listeners=...)` on the exchange of xaibo/core/exchange.py, whose `instantiate_modules(self, config, override_bindings)` has no such parameter | any registered agent id, e.g. `get_agent("a")` after `register_agent` of an agent `a` | the agent's modules are instantiated with its filtered listeners | not executed | Registry.Registry.GetAgentWithAsWritten | Registry.Registry.GetAgentWith |
| xaibo/primitives/modules/llm/openai.py:97-107 | the request dictionary spreads `**options.vendor_specific`, although the field is declared `Optional[Dict]` | `LLMOptions(vendor_specific=None)` passed to `generate` raises `TypeError` | a `None` `vendor_specific` is treated as `{}`, as the Gemini adapter does by checking it first | not executed | OpenAI.RequestKwargsAsWritten | OpenAI.RequestKwargs |
