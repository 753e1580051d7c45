/** The API client: vendor selection at construction, request payloads for
    the two vendors, and the retry loop with exponential backoff and jitter
    around one HTTP call per attempt. The HTTP call itself is an oracle. */
module ApiClient {
  import opened PhpValues

  const OpenAIUri := "https://api.openai.com/v1/chat/completions"
  const AnthropicUri := "https://api.anthropic.com/v1/complete"

  /** The temperature sent with every request; its value plays no part in
      what is proved. */
  const Temperature: real := 0.5
  const AnthropicMaxTokens := 300

  /** The attempt budget callers get when they pass none. */
  const DefaultMaxAttempts := 6

  /** The longest backoff delay, in milliseconds (20 seconds). */
  const MaxDelay := 20000

  const UnexpectedError := "Unexpected error in API request"
  const MaxAttemptsPrefix := "Max API request attempts reached: "

  datatype Message = Message(role: string, content: string)

  /** The client's fields; none of them changes after construction. */
  datatype Client = Client(apiKey: string, apiType: string, baseUri: string)

  /** The JSON body of a request, by vendor. */
  datatype Payload =
    | ChatPayload(model: string, messages: seq<Message>, temperature: real)
    | CompletePayload(model: string, prompt: string, maxTokensToSample: int, temperature: real)

  predicate SupportedApiType(apiType: string) {
    apiType == "openai" || apiType == "anthropic"
  }

  function InvalidApiType(apiType: string): string {
    "Invalid API type: " + apiType
  }

  /** getBaseUri: the endpoint for the API type, or the exception it throws. */
  function BaseUri(apiType: string): Result<string, string> {
    if apiType == "openai" then Ok(OpenAIUri)
    else if apiType == "anthropic" then Ok(AnthropicUri)
    else Err(InvalidApiType(apiType))
  }

  /** The constructor: it stores the key and the type and asks getBaseUri
      for the endpoint, which throws for an unsupported type. */
  function NewClient(apiKey: string, apiType: string): (r: Result<Client, string>)
    ensures r.Ok? <==> SupportedApiType(apiType)
    ensures r.Err? ==> r.error == InvalidApiType(apiType)
    ensures r.Ok? ==> r.value.apiKey == apiKey && r.value.apiType == apiType
    ensures r.Ok? ==> r.value.baseUri == (if apiType == "openai" then OpenAIUri else AnthropicUri)
  {
    match BaseUri(apiType)
    case Ok(uri) => Ok(Client(apiKey, apiType, uri))
    case Err(e) => Err(e)
  }

  /** A client the constructor can return. */
  predicate Constructed(c: Client) {
    NewClient(c.apiKey, c.apiType) == Ok(c)
  }

  // ---------------------------------------------------------------------
  // Request payloads

  /** One message as the Anthropic completion prompt renders it. */
  function Turn(m: Message): string {
    (if m.role == "user" then "Human" else "Assistant") + ": " + m.content + "\n\n"
  }

  function Turns(ms: seq<Message>): string
    decreases |ms|
  {
    if ms == [] then "" else Turns(ms[..|ms| - 1]) + Turn(ms[|ms| - 1])
  }

  /** formatAnthropicPrompt, as a value: the turns in order, then the
      "Assistant:" sentinel. */
  function AnthropicPrompt(ms: seq<Message>): string {
    Turns(ms) + "Assistant:"
  }

  /** The prompt always ends with the sentinel, and with no messages it is
      the sentinel alone. */
  lemma AnthropicPromptEnd(ms: seq<Message>)
    ensures var prompt := AnthropicPrompt(ms);
      |prompt| >= 10 && prompt[|prompt| - 10..] == "Assistant:"
    ensures ms == [] ==> AnthropicPrompt(ms) == "Assistant:"
  {
  }

  /** The turns of two conversations laid end to end are the turns of
      each, in order. */
  lemma {:induction false} TurnsConcat(a: seq<Message>, b: seq<Message>)
    ensures Turns(a + b) == Turns(a) + Turns(b)
    decreases |b|
  {
    if b != [] {
      var init := b[..|b| - 1];
      assert (a + b)[..|a + b| - 1] == a + init;
      TurnsConcat(a, init);
    } else {
      assert a + b == a;
    }
  }

  /** The prompt of a conversation starts with the turns of any prefix of
      it, in order. */
  lemma AnthropicPromptSplit(a: seq<Message>, b: seq<Message>)
    ensures AnthropicPrompt(a + b) == Turns(a) + AnthropicPrompt(b)
  {
    TurnsConcat(a, b);
  }

  /** formatAnthropicPrompt: `$prompt .=` once per message, then the
      sentinel. */
  method FormatAnthropicPrompt(messages: seq<Message>) returns (prompt: string)
    ensures prompt == AnthropicPrompt(messages)
  {
    prompt := "";
    for i := 0 to |messages|
      invariant prompt == Turns(messages[..i])
    {
      assert messages[..i + 1][..i] == messages[..i];
      prompt := prompt + Turn(messages[i]);
    }
    assert messages[..|messages|] == messages;
    prompt := prompt + "Assistant:";
  }

  /** prepareRequestData: the chat payload carries the messages as they
      are, the completion payload a single prompt built from them. */
  function PrepareRequestData(client: Client, messages: seq<Message>, model: string): Result<Payload, string> {
    if client.apiType == "openai" then Ok(ChatPayload(model, messages, Temperature))
    else if client.apiType == "anthropic" then
      Ok(CompletePayload(model, AnthropicPrompt(messages), AnthropicMaxTokens, Temperature))
    else Err(InvalidApiType(client.apiType))
  }

  /** For a client the constructor returned, prepareRequestData never
      throws, and the payload's shape agrees with the endpoint getBaseUri
      chose: the chat payload goes to chat/completions, the completion
      payload to /v1/complete. */
  lemma ConstructedClientPayload(c: Client, messages: seq<Message>, model: string)
    requires Constructed(c)
    ensures PrepareRequestData(c, messages, model).Ok?
    ensures var p := PrepareRequestData(c, messages, model).value;
      && p.model == model
      && p.temperature == Temperature
      && (p.ChatPayload? <==> c.baseUri == OpenAIUri)
      && (p.ChatPayload? ==> p.messages == messages)
      && (p.CompletePayload? ==> c.baseUri == AnthropicUri && p.prompt == AnthropicPrompt(messages)
                                  && p.maxTokensToSample == 300)
  {
  }

  // ---------------------------------------------------------------------
  // Backoff

  /** The text of a cURL error as `if ($err)` sees it: a string PHP treats
      as true, so neither empty nor "0". */
  type CurlErrorText = e: string | e != "" && e != "0" witness "timeout"

  /** What the k-th cURL call of one request returns: a body (whatever its
      HTTP status) or a cURL error. */
  datatype Transport = Response(body: string) | Failed(error: CurlErrorText)

  /** random_int(0, 1000). */
  type Jitter = r: int | 0 <= r <= 1000

  /** The outside world of one completionWithBackoff call: the cURL result
      of each attempt and the random draw before each sleep, both indexed
      by the attempt count at that point. */
  datatype Oracle = Oracle(transport: nat -> Transport, jitter: nat -> Jitter)

  function Pow2(k: nat): (p: nat)
    ensures p >= 1
  {
    if k == 0 then 1 else 2 * Pow2(k - 1)
  }

  /** The delay after the k-th failure, in milliseconds: 2^k seconds plus
      r/1000 of a second, at most 20 seconds. */
  function Delay(k: nat, r: Jitter): (ms: nat)
    ensures ms <= MaxDelay
    ensures Min(Pow2(k) * 1000, MaxDelay) <= ms <= Min(Pow2(k) * 1000 + 1000, MaxDelay)
  {
    Min(Pow2(k) * 1000 + r, MaxDelay)
  }

  lemma {:induction false} Pow2Grows(a: nat, b: nat)
    requires a < b
    ensures 2 * Pow2(a) <= Pow2(b)
    decreases b
  {
    if b > a + 1 {
      Pow2Grows(a, b - 1);
    }
  }

  /** A later failure never waits less than an earlier one, whatever the
      jitter drawn for either. */
  lemma DelayMonotone(k1: nat, k2: nat, r1: Jitter, r2: Jitter)
    requires k1 < k2
    ensures Delay(k1, r1) <= Delay(k2, r2)
  {
    Pow2Grows(k1, k2);
  }

  function CurlError(error: string): string {
    "cURL Error: " + error
  }

  /** `return json_decode($response, true)` from a method declared to
      return an array: anything else (invalid JSON gives null) is a
      TypeError, which the `catch (\Exception)` around it does not stop. */
  function DecodedResponse(v: Value): Outcome<Value> {
    if v.Arr? then Returned(v) else Fatal(NotAnArray)
  }

  const NotAnArray := "TypeError: completionWithBackoff(): return value must be of type array"

  /** What completionWithBackoff returns or throws, the payloads it posts
      (one per cURL call) and the delays it computes before each sleep, in
      milliseconds; sleep() waits SleptSeconds of each. */
  datatype Trace = Trace(result: Outcome<Value>, posted: seq<Payload>, delays: seq<nat>)

  /** completionWithBackoff from the point where `attempt` attempts have
      failed. */
  function Backoff(client: Client, messages: seq<Message>, model: string, maxAttempts: int,
                   oracle: Oracle, php: Builtins, attempt: nat): Trace
    requires Constructed(client)
    decreases if attempt < maxAttempts then maxAttempts - attempt else 0
  {
    if attempt >= maxAttempts then Trace(Threw(UnexpectedError), [], [])
    else
      var payload := PrepareRequestData(client, messages, model).value;
      match oracle.transport(attempt)
      case Response(body) => Trace(DecodedResponse(php.jsonDecode(body)), [payload], [])
      case Failed(error) =>
        if attempt + 1 >= maxAttempts then
          Trace(Threw(MaxAttemptsPrefix + CurlError(error)), [payload], [])
        else
          var rest := Backoff(client, messages, model, maxAttempts, oracle, php, attempt + 1);
          Trace(rest.result, [payload] + rest.posted,
                [Delay(attempt + 1, oracle.jitter(attempt + 1))] + rest.delays)
  }

  /** A trace that continues after the given calls and sleeps. */
  function After(posted: seq<Payload>, delays: seq<nat>, rest: Trace): Trace {
    Trace(rest.result, posted + rest.posted, delays + rest.delays)
  }

  /** The turns of the loop, each continuing the calls and sleeps made
      so far: a response ends it, a failure with no budget left gives up,
      and any other failure sleeps before the next attempt. */
  lemma BackoffResponds(client: Client, messages: seq<Message>, model: string, maxAttempts: int,
                        oracle: Oracle, php: Builtins, attempt: nat, posted: seq<Payload>, delays: seq<nat>)
    requires Constructed(client) && attempt < maxAttempts && oracle.transport(attempt).Response?
    ensures After(posted, delays, Backoff(client, messages, model, maxAttempts, oracle, php, attempt))
         == Trace(DecodedResponse(php.jsonDecode(oracle.transport(attempt).body)),
                  posted + [PrepareRequestData(client, messages, model).value], delays)
  {
    assert delays + [] == delays;
  }

  lemma BackoffGivesUp(client: Client, messages: seq<Message>, model: string, maxAttempts: int,
                       oracle: Oracle, php: Builtins, attempt: nat, posted: seq<Payload>, delays: seq<nat>)
    requires Constructed(client) && attempt < maxAttempts && oracle.transport(attempt).Failed?
    requires attempt + 1 >= maxAttempts
    ensures After(posted, delays, Backoff(client, messages, model, maxAttempts, oracle, php, attempt))
         == Trace(Threw(MaxAttemptsPrefix + CurlError(oracle.transport(attempt).error)),
                  posted + [PrepareRequestData(client, messages, model).value], delays)
  {
    assert delays + [] == delays;
  }

  lemma BackoffRetries(client: Client, messages: seq<Message>, model: string, maxAttempts: int,
                       oracle: Oracle, php: Builtins, attempt: nat, posted: seq<Payload>, delays: seq<nat>)
    requires Constructed(client) && oracle.transport(attempt).Failed? && attempt + 1 < maxAttempts
    ensures After(posted, delays, Backoff(client, messages, model, maxAttempts, oracle, php, attempt))
         == After(posted + [PrepareRequestData(client, messages, model).value],
                  delays + [Delay(attempt + 1, oracle.jitter(attempt + 1))],
                  Backoff(client, messages, model, maxAttempts, oracle, php, attempt + 1))
  {
    var payload := PrepareRequestData(client, messages, model).value;
    var delay := Delay(attempt + 1, oracle.jitter(attempt + 1));
    var rest := Backoff(client, messages, model, maxAttempts, oracle, php, attempt + 1);
    assert posted + ([payload] + rest.posted) == (posted + [payload]) + rest.posted;
    assert delays + ([delay] + rest.delays) == (delays + [delay]) + rest.delays;
  }

  /** completionWithBackoff: the while loop, with the HTTP call replaced by
      the oracle and sleep() by recording the delay. */
  method CompletionWithBackoff(client: Client, messages: seq<Message>, model: string, maxAttempts: int,
                               oracle: Oracle, php: Builtins)
    returns (result: Outcome<Value>, posted: seq<Payload>, delays: seq<nat>)
    requires Constructed(client)
    ensures Trace(result, posted, delays) == Backoff(client, messages, model, maxAttempts, oracle, php, 0)
  {
    ghost var whole := Backoff(client, messages, model, maxAttempts, oracle, php, 0);
    var attempt := 0;
    posted, delays := [], [];
    assert whole == After(posted, delays, whole);
    while attempt < maxAttempts
      invariant attempt == 0 || attempt < maxAttempts
      invariant whole == After(posted, delays, Backoff(client, messages, model, maxAttempts, oracle, php, attempt))
      decreases maxAttempts - attempt
    {
      var payload := PrepareRequestData(client, messages, model).value;
      var response := oracle.transport(attempt);
      if response.Response? {
        BackoffResponds(client, messages, model, maxAttempts, oracle, php, attempt, posted, delays);
        result := DecodedResponse(php.jsonDecode(response.body));
        posted := posted + [payload];
        return;
      }
      if attempt + 1 >= maxAttempts {
        BackoffGivesUp(client, messages, model, maxAttempts, oracle, php, attempt, posted, delays);
        result := Threw(MaxAttemptsPrefix + CurlError(response.error));
        posted := posted + [payload];
        return;
      }
      BackoffRetries(client, messages, model, maxAttempts, oracle, php, attempt, posted, delays);
      var delay := Delay(attempt + 1, oracle.jitter(attempt + 1));
      posted, delays := posted + [payload], delays + [delay];
      attempt := attempt + 1;
    }
    result := Threw(UnexpectedError);
    assert posted + [] == posted && delays + [] == delays;
  }

  /** The calls and sleeps from attempt `attempt` on: no call once the
      budget is spent; otherwise between one call and the rest of the
      budget, each posting the same payload, and one sleep between
      consecutive calls, the k-th computed from the k-th failure. */
  lemma {:induction false} BackoffCalls(client: Client, messages: seq<Message>, model: string,
                                        maxAttempts: int, oracle: Oracle, php: Builtins, attempt: nat)
    requires Constructed(client)
    ensures var t := Backoff(client, messages, model, maxAttempts, oracle, php, attempt);
      && (attempt >= maxAttempts ==> t == Trace(Threw(UnexpectedError), [], []))
      && (attempt < maxAttempts ==>
            && 1 <= |t.posted| <= maxAttempts - attempt
            && (forall i :: 0 <= i < |t.posted| ==> t.posted[i] == PrepareRequestData(client, messages, model).value)
            && |t.delays| == |t.posted| - 1
            && (forall i :: 0 <= i < |t.delays| ==> t.delays[i] == Delay(attempt + i + 1, oracle.jitter(attempt + i + 1))))
    decreases if attempt < maxAttempts then maxAttempts - attempt else 0
  {
    if attempt < maxAttempts && oracle.transport(attempt).Failed? && attempt + 1 < maxAttempts {
      BackoffCalls(client, messages, model, maxAttempts, oracle, php, attempt + 1);
      var rest := Backoff(client, messages, model, maxAttempts, oracle, php, attempt + 1);
      var t := Backoff(client, messages, model, maxAttempts, oracle, php, attempt);
      forall i | 1 <= i < |t.delays| ensures t.delays[i] == Delay(attempt + i + 1, oracle.jitter(attempt + i + 1)) {
        assert t.delays[i] == rest.delays[i - 1];
      }
    }
  }

  /** How the loop ends, from attempt `attempt` on: every call but the last
      failed, and the result is the decoded body of the last call if it got
      a response, or else (the budget being spent) "Max API request attempts
      reached: " with the last cURL error. */
  lemma {:induction false} BackoffEnd(client: Client, messages: seq<Message>, model: string,
                                      maxAttempts: int, oracle: Oracle, php: Builtins, attempt: nat)
    requires Constructed(client)
    requires attempt < maxAttempts
    ensures var t := Backoff(client, messages, model, maxAttempts, oracle, php, attempt);
      var last := attempt + |t.posted| - 1;
      && (forall k :: attempt <= k < last ==> oracle.transport(k).Failed?)
      && last < maxAttempts
      && match oracle.transport(last)
         case Response(body) => t.result == DecodedResponse(php.jsonDecode(body))
         case Failed(error) => last == maxAttempts - 1 && t.result == Threw(MaxAttemptsPrefix + CurlError(error))
    decreases maxAttempts - attempt
  {
    var t := Backoff(client, messages, model, maxAttempts, oracle, php, attempt);
    if oracle.transport(attempt).Failed? && attempt + 1 < maxAttempts {
      BackoffEnd(client, messages, model, maxAttempts, oracle, php, attempt + 1);
      var rest := Backoff(client, messages, model, maxAttempts, oracle, php, attempt + 1);
      assert |t.posted| == 1 + |rest.posted|;
    } else {
      assert |t.posted| == 1;
    }
  }

  /** After maxAttempts consecutive cURL failures the client gives up: it
      has made exactly maxAttempts calls and maxAttempts - 1 sleeps, and it
      throws with the last error. */
  lemma ExhaustedRetries(client: Client, messages: seq<Message>, model: string,
                         maxAttempts: int, oracle: Oracle, php: Builtins)
    requires Constructed(client)
    requires maxAttempts > 0
    requires forall k :: 0 <= k < maxAttempts ==> oracle.transport(k).Failed?
    ensures var t := Backoff(client, messages, model, maxAttempts, oracle, php, 0);
      && |t.posted| == maxAttempts
      && |t.delays| == maxAttempts - 1
      && t.result == Threw(MaxAttemptsPrefix + CurlError(oracle.transport(maxAttempts - 1).error))
  {
    BackoffCalls(client, messages, model, maxAttempts, oracle, php, 0);
    BackoffEnd(client, messages, model, maxAttempts, oracle, php, 0);
  }

  /** The first response within the budget ends the loop: the body of
      call j is decoded and returned after j failures and j sleeps. */
  lemma FirstResponseWins(client: Client, messages: seq<Message>, model: string,
                          maxAttempts: int, oracle: Oracle, php: Builtins, j: nat)
    requires Constructed(client)
    requires j < maxAttempts
    requires oracle.transport(j).Response?
    requires forall k :: 0 <= k < j ==> oracle.transport(k).Failed?
    ensures var t := Backoff(client, messages, model, maxAttempts, oracle, php, 0);
      && |t.posted| == j + 1
      && |t.delays| == j
      && t.result == DecodedResponse(php.jsonDecode(oracle.transport(j).body))
  {
    BackoffCalls(client, messages, model, maxAttempts, oracle, php, 0);
    BackoffEnd(client, messages, model, maxAttempts, oracle, php, 0);
  }

  /** The delays one call sleeps never decrease. */
  lemma BackoffDelaysSorted(client: Client, messages: seq<Message>, model: string,
                            maxAttempts: int, oracle: Oracle, php: Builtins)
    requires Constructed(client)
    ensures var ds := Backoff(client, messages, model, maxAttempts, oracle, php, 0).delays;
      forall i, j :: 0 <= i < j < |ds| ==> ds[i] <= ds[j]
  {
    BackoffCalls(client, messages, model, maxAttempts, oracle, php, 0);
    var ds := Backoff(client, messages, model, maxAttempts, oracle, php, 0).delays;
    forall i, j | 0 <= i < j < |ds| ensures ds[i] <= ds[j] {
      DelayMonotone(i + 1, j + 1, oracle.jitter(i + 1), oracle.jitter(j + 1));
    }
  }

  // ---------------------------------------------------------------------
  // sleep() truncates the delay

  /** sleep() takes whole seconds: PHP converts the float delay to int by
      dropping its fraction. */
  function SleptSeconds(delayMs: nat): nat {
    delayMs / 1000
  }

  /** As written, the jitter is lost: any draw below 1000 makes sleep()
      wait exactly as long as a draw of 0. For example, after the first
      failure a draw of 500 computes 2.5 seconds and sleeps 2. */
  lemma JitterLostInSleep(k: nat, r: Jitter)
    requires r < 1000
    ensures SleptSeconds(Delay(k, r)) == SleptSeconds(Delay(k, 0))
  {
    var p := Pow2(k);
    if p * 1000 + r < MaxDelay {
      assert (p * 1000 + r) / 1000 == p;
      assert (p * 1000) / 1000 == p;
    }
  }

  /** The delay the source computes, which the model records, does spread
      retries: below the cap, different draws give different delays. */
  lemma JitterSpreadsDelay(k: nat, r1: Jitter, r2: Jitter)
    requires Pow2(k) * 1000 + 1000 <= MaxDelay
    requires r1 != r2
    ensures Delay(k, r1) != Delay(k, r2)
  {
  }
}
