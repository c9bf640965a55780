/** `src/xaibo/integrations/livekit/llm.py`: the bridge that lets a xaibo
    agent serve as a LiveKit LLM. It turns LiveKit's chat context into a
    conversation history, picks the last user text to send to the agent,
    and cuts the agent's reply into word chunks. LiveKit's channel is the
    list of chunks sent so far. Its messages carry a list of typed content
    parts (`LLMMessageContent`), a record not defined in either
    `models/llm.py`; it is declared here with the fields the bridge sets. */
module LiveKit {
  import opened Basics
  import Strings
  import LlmModels

  type Role = LlmModels.Role

  /** An item of LiveKit's chat context. `textContent` is `None` when the
      message has no text part. */
  datatype ChatItem =
    | Message(role: string, textContent: Option<string>)
    | FunctionCall(name: string, arguments: string)
    | FunctionCallOutput(output: string)
    | OtherItem(itemType: string)

  datatype ContentType = TextContent

  datatype MessageContent = MessageContent(contentType: ContentType, text: string)

  datatype ConvMessage = ConvMessage(role: Role, content: seq<MessageContent>)

  /** The role map of `_convert_chat_context_to_conversation`, with
      unknown roles read as the user's. */
  function RoleOf(role: string): Role
  {
    if role == "system" || role == "developer" then LlmModels.System
    else if role == "assistant" then LlmModels.Assistant
    else LlmModels.User
  }

  /** Only `system` and `developer` are system roles and only `assistant`
      is the assistant's; everything else, known or not, is the user's,
      and no LiveKit role becomes a function role. */
  lemma RoleOfSpec(role: string)
    ensures RoleOf(role) == LlmModels.System <==> role == "system" || role == "developer"
    ensures RoleOf(role) == LlmModels.Assistant <==> role == "assistant"
    ensures RoleOf(role) == LlmModels.User <==> role != "system" && role != "developer" && role != "assistant"
    ensures RoleOf(role) != LlmModels.Function
  {
  }

  function TextMessage(role: Role, text: string): ConvMessage
  {
    ConvMessage(role, [MessageContent(TextContent, text)])
  }

  /** What one chat item adds to the history: nothing for a message without
      text or for an unknown item type. */
  function ItemMessages(item: ChatItem): (r: seq<ConvMessage>)
    ensures |r| <= 1
  {
    match item
    case Message(role, content) =>
      if content.Some? && content.value != "" then [TextMessage(RoleOf(role), content.value)] else []
    case FunctionCall(name, arguments) =>
      [TextMessage(LlmModels.Assistant, "Function Call: " + name + "(" + arguments + ")")]
    case FunctionCallOutput(output) =>
      [TextMessage(LlmModels.Function, "Function Output: " + output)]
    case OtherItem(_) => []
  }

  /** The history built from the items, in item order. */
  function Converted(items: seq<ChatItem>): seq<ConvMessage>
  {
    if items == [] then [] else Converted(items[..|items| - 1]) + ItemMessages(items[|items| - 1])
  }

  /** Conversion keeps item order: converting two runs of items gives the
      two histories one after the other. */
  lemma {:induction false} ConvertedAppend(a: seq<ChatItem>, b: seq<ChatItem>)
    ensures Converted(a + b) == Converted(a) + Converted(b)
    decreases |b|
  {
    if b == [] {
      assert a + b == a;
    } else {
      var n := |b| - 1;
      assert (a + b)[..|a + b| - 1] == a + b[..n];
      assert (a + b)[|a + b| - 1] == b[n];
      ConvertedAppend(a, b[..n]);
    }
  }

  /** Each history entry is a single non-empty text part, and there are at
      most as many entries as items. */
  lemma {:induction false} ConvertedShape(items: seq<ChatItem>)
    ensures |Converted(items)| <= |items|
    ensures forall m :: m in Converted(items) ==>
      |m.content| == 1 && m.content[0].contentType == TextContent && m.content[0].text != ""
  {
    if items != [] {
      ConvertedShape(items[..|items| - 1]);
    }
  }

  /** A message without text, or an item of another type, changes
      nothing. */
  lemma SkippedItems(items: seq<ChatItem>, item: ChatItem)
    requires (item.Message? && (item.textContent.None? || item.textContent == Some(""))) || item.OtherItem?
    ensures Converted(items + [item]) == Converted(items)
  {
    assert (items + [item])[..|items|] == items;
  }

  /** `SimpleConversation`: the history the bridge fills. */
  class SimpleConversation {
    var history: seq<ConvMessage>

    constructor ()
      ensures history == []
    {
      history := [];
    }

    method Append(m: ConvMessage)
      modifies this
      ensures history == old(history) + [m]
    {
      history := history + [m];
    }
  }

  /** `_convert_chat_context_to_conversation`. */
  method ConvertChatContext(items: seq<ChatItem>) returns (conversation: SimpleConversation)
    ensures fresh(conversation)
    ensures conversation.history == Converted(items)
  {
    conversation := new SimpleConversation();
    for i := 0 to |items|
      invariant conversation.history == Converted(items[..i])
    {
      assert items[..i + 1][..i] == items[..i];
      assert items[..i + 1][i] == items[i];
      match items[i]
      case Message(role, content) =>
        if content.Some? && content.value != "" {
          conversation.Append(TextMessage(RoleOf(role), content.value));
        }
      case FunctionCall(name, arguments) =>
        conversation.Append(TextMessage(LlmModels.Assistant, "Function Call: " + name + "(" + arguments + ")"));
      case FunctionCallOutput(output) =>
        conversation.Append(TextMessage(LlmModels.Function, "Function Output: " + output));
      case OtherItem(_) =>
    }
    assert items[..|items|] == items;
  }

  predicate IsUserText(item: ChatItem)
  {
    item.Message? && item.role == "user" && item.textContent.Some? && item.textContent.value != ""
  }

  /** The index of the last user message with text among the first `hi`
      items, searching backwards. */
  function LastUserBelow(items: seq<ChatItem>, hi: nat): (r: Option<nat>)
    requires hi <= |items|
    ensures r.Some? ==>
      && r.value < hi && IsUserText(items[r.value])
      && (forall j :: r.value < j < hi ==> !IsUserText(items[j]))
    ensures r.None? ==> forall j :: 0 <= j < hi ==> !IsUserText(items[j])
  {
    if hi == 0 then None
    else if IsUserText(items[hi - 1]) then Some(hi - 1)
    else LastUserBelow(items, hi - 1)
  }

  /** `_convert_chat_context_to_text`: the text of the last user message
      that has text, or `""` when there is none. */
  function LastUserText(items: seq<ChatItem>): (r: string)
    ensures r == "" <==> forall i :: 0 <= i < |items| ==> !IsUserText(items[i])
    ensures r != "" ==>
      exists i :: (0 <= i < |items| && IsUserText(items[i]) && items[i].textContent == Some(r)
                   && forall j :: i < j < |items| ==> !IsUserText(items[j]))
  {
    var found := LastUserBelow(items, |items|);
    if found.None? then "" else items[found.value].textContent.value
  }

  /** The delta of a streamed chunk. */
  datatype ChoiceDelta = ChoiceDelta(role: Option<string>, content: string)

  datatype CompletionUsage = CompletionUsage(completionTokens: nat, promptTokens: nat, totalTokens: nat)

  datatype ChatChunk = ChatChunk(id: string, delta: Option<ChoiceDelta>, usage: Option<CompletionUsage>)

  /** The chunk for word `i` of `words`: the role only on the first, a
      trailing space on all but the last. */
  function WordChunk(id: string, words: seq<string>, i: nat): ChatChunk
    requires i < |words|
  {
    ChatChunk(id, Some(ChoiceDelta(if i == 0 then Some("assistant") else None,
                                   words[i] + (if i < |words| - 1 then " " else ""))), None)
  }

  /** The chunks of the first `k` words. */
  function WordChunks(id: string, words: seq<string>, k: nat): (r: seq<ChatChunk>)
    requires k <= |words|
    ensures |r| == k && forall i :: 0 <= i < k ==> r[i] == WordChunk(id, words, i)
  {
    if k == 0 then [] else WordChunks(id, words, k - 1) + [WordChunk(id, words, k - 1)]
  }

  /** What `_process_response` sends for a reply text: nothing for an empty
      or missing text; otherwise one chunk per word and a usage chunk. */
  function Stream(id: string, text: Option<string>): seq<ChatChunk>
  {
    if text.None? || text.value == "" then []
    else
      var words := Strings.Words(text.value);
      WordChunks(id, words, |words|) + [ChatChunk(id, None, Some(CompletionUsage(|words|, 0, |words|)))]
  }

  /** The text a chunk carries. */
  function ChunkText(c: ChatChunk): string
  {
    if c.delta.Some? then c.delta.value.content else ""
  }

  /** The texts the chunks carry, concatenated. */
  function Contents(chunks: seq<ChatChunk>): string
  {
    if chunks == [] then "" else Contents(chunks[..|chunks| - 1]) + ChunkText(chunks[|chunks| - 1])
  }

  lemma ContentsSnoc(chunks: seq<ChatChunk>, c: ChatChunk)
    ensures Contents(chunks + [c]) == Contents(chunks) + ChunkText(c)
  {
    assert (chunks + [c])[..|chunks|] == chunks;
  }

  /** The word chunks of `words`, concatenated, spell `" ".join(words)`,
      with a space still to come while words remain. */
  lemma {:induction false} ContentsOfWords(id: string, words: seq<string>, k: nat)
    requires k <= |words|
    ensures Contents(WordChunks(id, words, k)) == Strings.Join(" ", words[..k]) + (if 0 < k < |words| then " " else "")
  {
    if k > 0 {
      var prev := WordChunks(id, words, k - 1);
      var c := WordChunk(id, words, k - 1);
      var sep := if k < |words| then " " else "";
      assert WordChunks(id, words, k) == prev + [c];
      ContentsSnoc(prev, c);
      assert ChunkText(c) == words[k - 1] + sep;
      ContentsOfWords(id, words, k - 1);
      JoinPrefixSnoc(words, k);
      StringAssoc(Contents(prev), words[k - 1], sep);
    }
  }

  lemma StringAssoc(a: string, b: string, c: string)
    ensures a + (b + c) == (a + b) + c
  {
  }

  /** `" ".join(words[:k])` grows by a space and the next word. */
  lemma JoinPrefixSnoc(words: seq<string>, k: nat)
    requires 0 < k <= |words|
    ensures Strings.Join(" ", words[..k]) ==
      (if k == 1 then "" else Strings.Join(" ", words[..k - 1]) + " ") + words[k - 1]
  {
    if k == 1 {
      assert words[..1] == [words[0]];
    } else {
      Strings.JoinSnoc(" ", words[..k]);
      assert words[..k][..k - 1] == words[..k - 1];
    }
  }

  /** The chunks of a reply rebuild its words: their contents are the
      words joined by single spaces, so splitting them gives the words
      back, and the usage counts those words. */
  lemma StreamSpec(id: string, text: string)
    requires text != ""
    ensures var s := Stream(id, Some(text));
      var words := Strings.Words(text);
      && |s| == |words| + 1
      && (forall i :: 0 <= i < |words| ==>
            s[i].id == id && s[i].delta.Some? && s[i].usage.None? && (s[i].delta.value.role.Some? <==> i == 0))
      && s[|words|] == ChatChunk(id, None, Some(CompletionUsage(|words|, 0, |words|)))
      && Contents(s) == Strings.Join(" ", words)
      && Strings.Words(Contents(s)) == words
  {
    var words := Strings.Words(text);
    var s := Stream(id, Some(text));
    var chunks := WordChunks(id, words, |words|);
    var usage := ChatChunk(id, None, Some(CompletionUsage(|words|, 0, |words|)));
    assert s == chunks + [usage];
    ContentsSnoc(chunks, usage);
    ContentsOfWords(id, words, |words|);
    assert words[..|words|] == words;
    assert Contents(s) == Strings.Join(" ", words);
    Strings.WordsAreWords(text);
    Strings.WordsOfJoin(words);
  }

  /** A reply of only whitespace still sends the usage chunk, counting
      zero words, and no word chunk. */
  lemma BlankReply(id: string)
    ensures Stream(id, Some(" ")) == [ChatChunk(id, None, Some(CompletionUsage(0, 0, 0)))]
  {
    assert Strings.IsSpace(' ');
    assert Strings.Words(" ") == Strings.Words("");
  }

  /** `XaiboLLMStream`: a request id and the chunks sent on its channel. */
  class XaiboLLMStream {
    const requestId: string
    var sent: seq<ChatChunk>

    constructor (requestId: string)
      ensures this.requestId == requestId && sent == []
    {
      this.requestId := requestId;
      sent := [];
    }

    /** `_process_response`. */
    method ProcessResponse(text: Option<string>)
      modifies this
      ensures sent == old(sent) + Stream(requestId, text)
    {
      if text.Some? && text.value != "" {
        var words := Strings.Words(text.value);
        ghost var start := sent;
        for i := 0 to |words|
          invariant sent == start + WordChunks(requestId, words, i)
        {
          var chunk := ChatChunk(requestId, Some(ChoiceDelta(if i == 0 then Some("assistant") else None,
                                                             words[i] + (if i < |words| - 1 then " " else ""))), None);
          sent := sent + [chunk];
        }
        sent := sent + [ChatChunk(requestId, None, Some(CompletionUsage(|words|, 0, |words|)))];
      }
    }
  }
}
