/** `callOpenRouter`: the adapter that turns one (model, system prompt, user
    message, temperature) tuple into a chat-completion request and normalises
    the reply into content plus token counts, or into an error message.

    The HTTP exchange itself is not modelled: a `Reply` is whatever came back
    (or the transport failure), and `JSON.stringify` of non-string content is
    the parameter `stringify`. */
module Upstream {
  import opened Wrappers
  import opened Text
  import Json

  const Endpoint: string := "https://openrouter.ai/api/v1/chat/completions"
  const MaxTokens: nat := 4096
  const ErrorExcerptLength: nat := 300

  datatype Role = System | User
  datatype Message = Message(role: Role, content: string)

  /** The JSON body `{ model, messages, temperature, max_tokens }`. */
  datatype ChatRequest = ChatRequest(model: string, messages: seq<Message>, temperature: real, maxTokens: nat)

  /** One outbound POST: URL, `Authorization` header and body. */
  datatype Call = Call(url: string, authorization: string, body: ChatRequest)

  /** The outbound request for one (model, system prompt, user message,
      temperature) tuple. */
  function MakeCall(apiKey: string, model: string, systemPrompt: string, userMessage: string, temperature: real): (c: Call)
    ensures IsChatFor(c, apiKey, model, systemPrompt, userMessage, temperature)
  {
    Call(Endpoint, "Bearer " + apiKey,
         ChatRequest(model, [Message(System, systemPrompt), Message(User, userMessage)], temperature, MaxTokens))
  }

  /** The request shape the provider is sent: two messages, the system prompt
      first and the user message second, and a 4096-token output budget. */
  predicate IsChatFor(c: Call, apiKey: string, model: string, systemPrompt: string, userMessage: string, temperature: real) {
    && c.url == Endpoint
    && c.authorization == "Bearer " + apiKey
    && c.body.model == model
    && |c.body.messages| == 2
    && c.body.messages[0] == Message(System, systemPrompt)
    && c.body.messages[1] == Message(User, userMessage)
    && c.body.temperature == temperature
    && c.body.maxTokens == 4096
  }

  // ---------------------------------------------------------------------------
  // Replies

  datatype Usage = Usage(promptTokens: Option<int>, completionTokens: Option<int>)
  datatype ChatMessage = ChatMessage(content: Option<Json.Value>)
  datatype Choice = Choice(message: Option<ChatMessage>)

  /** The parsed reply body; `None` at any level is a missing or `null` field. */
  datatype ChatResponse = ChatResponse(choices: Option<seq<Choice>>, usage: Option<Usage>)

  datatype Reply =
      /** `fetch` itself rejected (network failure) with this message. */
    | Transport(message: string)
      /** An HTTP response. `text` is `res.text()` (`None` when reading the body
          failed); `parsed` is `res.json()`, failing with the parser's message. */
    | Http(status: nat, text: Option<string>, parsed: Result<ChatResponse, string>)

  datatype Completion = Completion(content: string, inputTokens: int, outputTokens: int)

  /** `res.ok`. */
  predicate IsOk(status: nat) {
    200 <= status <= 299
  }

  /** The error thrown for a non-2xx reply: `OpenRouter <status>: ` and at most
      300 code units of the body (nothing when the body could not be read). */
  function HttpErrorMessage(status: nat, text: Option<string>): (m: string)
    ensures "OpenRouter " + Decimal(status) + ": " <= m
    ensures m[|"OpenRouter " + Decimal(status) + ": "|..] <= text.GetOr("")
    ensures |m| <= |"OpenRouter " + Decimal(status) + ": "| + 300
  {
    "OpenRouter " + Decimal(status) + ": " + Prefix(text.GetOr(""), ErrorExcerptLength)
  }

  /** `data.choices?.[0]?.message?.content ?? ''` followed by the string check:
      string content as it is, other JSON as `stringify` renders it, and `''`
      when any step of the path is missing or null. */
  function ContentOf(data: ChatResponse, stringify: Json.Value -> string): (c: string)
    ensures data.choices.None? || data.choices.value == [] ==> c == ""
    ensures data.choices.Some? && data.choices.value != [] ==>
      var first := data.choices.value[0];
      && (first.message.None? ==> c == "")
      && (first.message.Some? && first.message.value.content.None? ==> c == "")
      && (first.message.Some? && first.message.value.content == Some(Json.Null) ==> c == "")
      && (first.message.Some? && first.message.value.content.Some? && first.message.value.content.value.Str? ==>
            c == first.message.value.content.value.s)
      && (first.message.Some? && first.message.value.content.Some?
          && !first.message.value.content.value.Str? && !first.message.value.content.value.Null? ==>
            c == stringify(first.message.value.content.value))
  {
    var content :=
      if data.choices.Some? && |data.choices.value| > 0
         && data.choices.value[0].message.Some?
         && data.choices.value[0].message.value.content.Some?
         && !data.choices.value[0].message.value.content.value.Null?
      then data.choices.value[0].message.value.content.value
      else Json.Str("");
    if content.Str? then content.s else stringify(content)
  }

  /** `usage.prompt_tokens ?? 0` with `usage = data.usage ?? {}`. */
  function InputTokensOf(data: ChatResponse): (n: int)
    ensures data.usage.None? || data.usage.value.promptTokens.None? ==> n == 0
    ensures data.usage.Some? && data.usage.value.promptTokens.Some? ==> n == data.usage.value.promptTokens.value
  {
    if data.usage.Some? then data.usage.value.promptTokens.GetOr(0) else 0
  }

  /** `usage.completion_tokens ?? 0` with `usage = data.usage ?? {}`. */
  function OutputTokensOf(data: ChatResponse): (n: int)
    ensures data.usage.None? || data.usage.value.completionTokens.None? ==> n == 0
    ensures data.usage.Some? && data.usage.value.completionTokens.Some? ==> n == data.usage.value.completionTokens.value
  {
    if data.usage.Some? then data.usage.value.completionTokens.GetOr(0) else 0
  }

  /** What `callOpenRouter` resolves to (`Success`) or the message of the
      error it throws (`Failure`). */
  function Normalise(reply: Reply, stringify: Json.Value -> string): (r: Result<Completion, string>)
    ensures reply.Transport? ==> r == Failure(reply.message)
    ensures reply.Http? && !IsOk(reply.status) ==> r == Failure(HttpErrorMessage(reply.status, reply.text))
    ensures reply.Http? && IsOk(reply.status) && reply.parsed.Failure? ==> r == Failure(reply.parsed.error)
    ensures r.Success? <==> reply.Http? && IsOk(reply.status) && reply.parsed.Success?
    ensures r.Success? ==>
      var data := reply.parsed.value;
      r.value == Completion(ContentOf(data, stringify), InputTokensOf(data), OutputTokensOf(data))
  {
    match reply
    case Transport(message) => Failure(message)
    case Http(status, text, parsed) =>
      if !IsOk(status) then Failure(HttpErrorMessage(status, text))
      else match parsed
        case Failure(e) => Failure(e)
        case Success(data) =>
          Success(Completion(ContentOf(data, stringify), InputTokensOf(data), OutputTokensOf(data)))
  }

  // ---------------------------------------------------------------------------
  // Properties

  /** The non-2xx message names the status and quotes a prefix of the body of
      at most 300 code units, the whole body when it is that short. */
  lemma HttpErrorMessageShape(status: nat, body: string)
    ensures var m := HttpErrorMessage(status, Some(body));
            var head := "OpenRouter " + Decimal(status) + ": ";
            && head <= m
            && m[|head|..] <= body
            && |m| - |head| == (if |body| <= 300 then |body| else 300)
            && (|body| <= 300 ==> m[|head|..] == body)
  {
    var head := "OpenRouter " + Decimal(status) + ": ";
    var m := HttpErrorMessage(status, Some(body));
    assert m == head + Prefix(body, 300);
    assert m[|head|..] == Prefix(body, 300);
  }

  /** The status can be read back from a non-2xx message: two different
      statuses never produce the same message prefix. */
  lemma HttpErrorMessageNamesStatus(s1: nat, s2: nat, t1: Option<string>, t2: Option<string>)
    requires s1 != s2
    ensures HttpErrorMessage(s1, t1) != HttpErrorMessage(s2, t2)
  {
    var m1 := HttpErrorMessage(s1, t1);
    var m2 := HttpErrorMessage(s2, t2);
    if m1 == m2 {
      var d1, d2 := Decimal(s1), Decimal(s2);
      var p := "OpenRouter ";
      assert m1 == p + d1 + ": " + Prefix(t1.GetOr(""), 300);
      assert m2 == p + d2 + ": " + Prefix(t2.GetOr(""), 300);
      var x := m1[|p|..];
      assert x == d1 + (": " + Prefix(t1.GetOr(""), 300));
      assert x == d2 + (": " + Prefix(t2.GetOr(""), 300));
      DigitRunStops(d1, ": " + Prefix(t1.GetOr(""), 300));
      DigitRunStops(d2, ": " + Prefix(t2.GetOr(""), 300));
      assert d1 == d2;
      DecimalInjective(s1, s2);
    }
  }

  /** The content `callOpenRouter` resolves with: string content comes back
      unchanged, non-string content as its JSON text, and a missing or null
      step of `choices[0].message.content` gives `''`. */
  lemma ContentPath(reply: Reply, stringify: Json.Value -> string)
    ensures var r := Normalise(reply, stringify);
      r.Success? ==>
        var data := reply.parsed.value;
        && (data.choices.None? || data.choices.value == [] ==> r.value.content == "")
        && (data.choices.Some? && data.choices.value != [] ==>
              var first := data.choices.value[0];
              && (first.message.None? ==> r.value.content == "")
              && (first.message.Some? && first.message.value.content.None? ==> r.value.content == "")
              && (first.message.Some? && first.message.value.content == Some(Json.Null) ==> r.value.content == "")
              && (first.message.Some? && first.message.value.content.Some? && first.message.value.content.value.Str? ==>
                    r.value.content == first.message.value.content.value.s)
              && (first.message.Some? && first.message.value.content.Some?
                  && !first.message.value.content.value.Str? && !first.message.value.content.value.Null? ==>
                    r.value.content == stringify(first.message.value.content.value)))
  {
  }

  /** The token counts `callOpenRouter` resolves with are the usage figures,
      each `0` when the usage object or the figure is absent. */
  lemma TokenCounts(reply: Reply, stringify: Json.Value -> string)
    ensures var r := Normalise(reply, stringify);
      r.Success? ==>
        var data := reply.parsed.value;
        && (data.usage.None? ==> r.value.inputTokens == 0 && r.value.outputTokens == 0)
        && (data.usage.Some? ==>
              && r.value.inputTokens == (if data.usage.value.promptTokens.Some? then data.usage.value.promptTokens.value else 0)
              && r.value.outputTokens == (if data.usage.value.completionTokens.Some? then data.usage.value.completionTokens.value else 0))
  {
  }
}
