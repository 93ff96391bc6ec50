/** Message assembly for the Gemini provider (llm_providers.py:52-128) and
    the provider factory (llm_providers.py:315-328). The chat model itself
    is a function from the message list to a reply or an error. */
module LlmProviders {
  import opened Wrappers
  import opened PyStrings
  import opened Records
  import opened Config

  /** The LangChain message kinds the provider sends. */
  datatype Message = SystemMessage(content: string) | HumanMessage(content: string) | AiMessage(content: string)

  /** A history entry the provider passes on: one by the user or by the
      assistant. */
  predicate Spoken(t: Turn) {
    t.role == "user" || t.role == "assistant"
  }

  function CountSpoken(h: seq<Turn>): nat {
    if |h| == 0 then 0 else (if Spoken(h[0]) then 1 else 0) + CountSpoken(h[1..])
  }

  /** The history as messages: a user entry becomes a human message, an
      assistant entry an AI message, and any other entry is dropped. */
  function HistoryMessages(h: seq<Turn>): (ms: seq<Message>)
    ensures |ms| == CountSpoken(h)
    ensures forall i :: 0 <= i < |ms| ==> !ms[i].SystemMessage?
  {
    if |h| == 0 then []
    else
      var rest := HistoryMessages(h[1..]);
      if h[0].role == "user" then [HumanMessage(h[0].content)] + rest
      else if h[0].role == "assistant" then [AiMessage(h[0].content)] + rest
      else rest
  }

  /** The conversion of a single entry. */
  lemma HistoryMessagesSingle(t: Turn)
    ensures HistoryMessages([t]) ==
              if t.role == "user" then [HumanMessage(t.content)]
              else if t.role == "assistant" then [AiMessage(t.content)]
              else []
  {
    assert [t][1..] == [];
  }

  /** The conversion goes entry by entry, keeping their order: together
      with `HistoryMessagesSingle` this fixes it on every history. */
  lemma {:induction false} HistoryMessagesConcat(a: seq<Turn>, b: seq<Turn>)
    ensures HistoryMessages(a + b) == HistoryMessages(a) + HistoryMessages(b)
  {
    if |a| > 0 {
      assert (a + b)[0] == a[0];
      assert (a + b)[1..] == a[1..] + b;
      HistoryMessagesConcat(a[1..], b);
    } else {
      assert a + b == b;
    }
  }

  /** The message list `generate_response` sends: the system message when
      one is given, the history, then the prompt as a human message. The
      call itself is the model applied to this list; its error
      propagates. */
  function BuildMessages(prompt: string, system: string, h: seq<Turn>): (ms: seq<Message>)
    ensures |ms| == (if system != "" then 1 else 0) + CountSpoken(h) + 1
    ensures ms[|ms| - 1] == HumanMessage(prompt)
    ensures ms[0].SystemMessage? <==> system != ""
    ensures system != "" ==> ms[0] == SystemMessage(system)
    ensures ms[(if system != "" then 1 else 0)..|ms| - 1] == HistoryMessages(h)
  {
    var head := if system != "" then [SystemMessage(system)] else [];
    var hm := HistoryMessages(h);
    var ms := head + hm + [HumanMessage(prompt)];
    assert |hm| > 0 ==> ms[|head|] == hm[0];
    assert ms[|head|..|ms| - 1] == hm;
    ms
  }

  // ---------------------------------------------------------------------
  // generate_with_tools

  datatype Tool = Tool(name: string, description: string)

  /** A call of a tool the model asked for. */
  datatype ToolCall = ToolCall(name: string, arguments: map<string, string>)

  datatype ToolReply = ToolReply(response: string, toolCalls: seq<ToolCall>)

  const ToolsHeader: string := "\n\nAvailable tools:\n"

  function ToolLine(t: Tool): string {
    "- " + t.name + ": " + t.description
  }

  function ToolLines(tools: seq<Tool>): (ls: seq<string>)
    ensures |ls| == |tools|
    ensures forall i :: 0 <= i < |tools| ==> ls[i] == ToolLine(tools[i])
  {
    seq(|tools|, i requires 0 <= i < |tools| => ToolLine(tools[i]))
  }

  /** The prompt with the tool list appended: the prompt, a header, then
      the tool lines. */
  function ToolPrompt(prompt: string, tools: seq<Tool>): (r: string)
    ensures |prompt| + |ToolsHeader| <= |r|
    ensures r[..|prompt|] == prompt
    ensures r[|prompt|..|prompt| + |ToolsHeader|] == ToolsHeader
  {
    var r := prompt + ToolsHeader + Join(ToolLines(tools), "\n");
    assert r[..|prompt|] == prompt;
    assert r[|prompt|..|prompt| + |ToolsHeader|] == ToolsHeader;
    r
  }

  /** Tools whose names and descriptions hold no line break can be read
      back from the prompt: one per line after the header. */
  lemma ToolPromptLines(prompt: string, tools: seq<Tool>)
    requires |tools| >= 1
    requires forall i :: 0 <= i < |tools| ==> '\n' !in tools[i].name && '\n' !in tools[i].description
    ensures Split(ToolPrompt(prompt, tools)[|prompt| + |ToolsHeader|..], '\n') == ToolLines(tools)
  {
    var ls := ToolLines(tools);
    var r := ToolPrompt(prompt, tools);
    assert r[|prompt| + |ToolsHeader|..] == Join(ls, "\n");
    forall i | 0 <= i < |ls| ensures '\n' !in ls[i] {
      assert ls[i] == "- " + tools[i].name + ": " + tools[i].description;
    }
    SplitJoin(ls, '\n');
  }

  /** The messages `generate_with_tools` sends. */
  function ToolMessages(prompt: string, tools: seq<Tool>, system: string): (ms: seq<Message>)
    ensures |ms| == (if system != "" then 2 else 1)
    ensures ms[|ms| - 1] == HumanMessage(ToolPrompt(prompt, tools))
    ensures ms[0].SystemMessage? <==> system != ""
    ensures system != "" ==> ms[0] == SystemMessage(system)
  {
    (if system != "" then [SystemMessage(system)] else []) + [HumanMessage(ToolPrompt(prompt, tools))]
  }

  /** `generate_with_tools`: the model's reply, and never a tool call. */
  function GenerateWithTools(prompt: string, tools: seq<Tool>, system: string,
                             invoke: seq<Message> -> Result<string>): (r: Result<ToolReply>)
    ensures r.Success? <==> invoke(ToolMessages(prompt, tools, system)).Success?
    ensures r.Success? ==> r.value.toolCalls == []
    ensures r.Success? ==> r.value.response == invoke(ToolMessages(prompt, tools, system)).value
  {
    var response :- invoke(ToolMessages(prompt, tools, system));
    Success(ToolReply(response, []))
  }

  // ---------------------------------------------------------------------
  // get_llm_provider

  /** The Gemini chat model as configured: model name and key. */
  datatype Provider = GeminiProvider(model: string, apiKey: string)

  /** `get_llm_provider`: Gemini, configured from the settings, is the only
      provider available; the other kinds raise. */
  function GetLlmProvider(s: Settings): (r: Result<Provider>)
    ensures r.Success? <==> s.llmProvider == Google
    ensures r.Success? ==> r.value == GeminiProvider(s.googleModel, s.googleApiKey)
  {
    match s.llmProvider
    case Google => Success(GeminiProvider(s.googleModel, s.googleApiKey))
    case OpenAI => Failure("Unsupported LLM provider: openai")
    case AzureOpenAI => Failure("Unsupported LLM provider: azure_openai")
  }

  /** The factory does not consult the validator: with the defaults it
      builds a Gemini provider with an empty key, although the defaults do
      not validate. This takes the constructor `GoogleGeminiProvider()`
      (llm_providers.py:55-63) to accept an empty key: it only passes the
      key on to the LangChain client, which is not part of this model. */
  lemma FactoryIgnoresValidation()
    ensures GetLlmProvider(Defaults) == Success(GeminiProvider("gemini-pro", ""))
    ensures !ValidateLlmConfig(Defaults)
  {
  }
}
