/** The generation loop of OpenAIPromptDataGenerator: ask for one example
    at a time until enough have been accepted, swallowing the exceptions of
    a failed round. */
module Generator {
  import opened PhpValues
  import opened ApiClient
  import opened DataProcessor

  /** The configuration values the loop reads (output paths left out). */
  datatype Config = Config(apiKey: string, prompt: string, inputFunction: Fields, numberOfExamples: int,
                           modelName: string, singleShot: bool, diversify: bool,
                           expectedParamName: string, fixedInput: Option<Fields>)

  /** The input function must be describable: a 'parameters' entry that is
      not an array is a TypeError in dictToDescription. */
  predicate ValidConfig(config: Config) {
    Describable(Arr(config.inputFunction))
  }

  /** The generator builds its client with the default type, 'openai'. */
  function GeneratorClient(config: Config): (c: Client)
    ensures NewClient(config.apiKey, "openai") == Ok(c)
    ensures c.baseUri == OpenAIUri
  {
    Client(config.apiKey, "openai", OpenAIUri)
  }

  /** `$config->getInputFunction()['parameters']` as processOutput's array
      parameter: None when missing or not an array (a TypeError). */
  function Parameters(inputFunction: Fields): Option<Fields> {
    match Lookup(inputFunction, "parameters")
    case Some(Arr(p)) => Some(p)
    case _ => None
  }

  const MissingParameters := "TypeError: processOutput(): argument #2 must be of type array"

  /** `$config->getFixedInput() ?? []`. */
  function FixedFields(config: Config): Fields {
    match config.fixedInput
    case Some(f) => f
    case None => []
  }

  /** The loop's local state: the accepted examples, the returned chunk,
      the contents fed back for diversity, the progress-bar count, and the
      messages of every request made. */
  datatype GenState = GenState(allData: seq<Example>, chunk: seq<Example>, allDataContent: seq<Fields>,
                               advanced: nat, requests: seq<seq<Message>>)

  const Initial := GenState([], [], [], 0, [])

  datatype Status = Reached | OutOfRounds | Crashed(message: string)

  datatype Run = Run(status: Status, state: GenState)

  function Messages(config: Config, allDataContent: seq<Fields>, php: Builtins): seq<Message>
    requires ValidConfig(config)
  {
    PrepareMessages(allDataContent, config.numberOfExamples, config.prompt, Arr(config.inputFunction),
                    config.singleShot, config.diversify, php)
  }

  /** An accepted example: appended to allData and chunk, progress
      advanced, and its content fed back when non-empty. */
  function Accept(st: GenState, ex: Example): GenState {
    GenState(st.allData + [ex], st.chunk + [ex],
             if ex.content != [] then st.allDataContent + [ex.content] else st.allDataContent,
             st.advanced + 1, st.requests)
  }

  /** The try block of one iteration: the request with backoff, then
      processOutput. Ok(None) is a round that produced nothing, because an
      Exception was caught or the reply was rejected; Err is an error the
      catch does not stop. */
  function Attempt(config: Config, php: Builtins, messages: seq<Message>, oracle: Oracle): Result<Option<Example>, string> {
    match Backoff(GeneratorClient(config), messages, config.modelName, DefaultMaxAttempts, oracle, php, 0).result
    case Fatal(m) => Err(m)
    case Threw(_) => Ok(None)
    case Returned(response) =>
      match Parameters(config.inputFunction)
      case None => Err(MissingParameters)
      case Some(parameters) =>
        match ProcessedOutput(response, parameters, config.expectedParamName, FixedFields(config), php)
        case Fatal(m) => Err(m)
        case Threw(_) => Ok(None)
        case Returned(example) => Ok(example)
  }

  /** The try block as the loop runs it: calls completionWithBackoff, then
      processOutput, and yields what Attempt says. The loop sees the result
      through `tryBlock`, any function that agrees with Attempt. */
  method TryAttempt(config: Config, php: Builtins, client: Client, messages: seq<Message>, oracle: Oracle,
                    ghost tryBlock: TryBlock)
    returns (r: Result<Option<Example>, string>)
    requires client == GeneratorClient(config)
    requires RunsAttempt(config, php, tryBlock)
    ensures r == tryBlock(config, php, messages, oracle)
  {
    assert tryBlock(config, php, messages, oracle) == Attempt(config, php, messages, oracle);
    var output, _, _ := CompletionWithBackoff(client, messages, config.modelName, DefaultMaxAttempts, oracle, php);
    if output.Fatal? {
      return Err(output.message);
    } else if output.Threw? {
      return Ok(None);
    }
    var parameters := Parameters(config.inputFunction);
    if parameters.None? {
      return Err(MissingParameters);
    }
    var newExample := ProcessOutput(output.value, parameters.value, config.expectedParamName, FixedFields(config), php);
    if newExample.Fatal? {
      return Err(newExample.message);
    } else if newExample.Threw? {
      return Ok(None);
    }
    r := Ok(newExample.value);
  }

  /** What the try block of one iteration yields for the configuration,
      the messages sent and the round's network behaviour; Attempt is the
      one the source runs. */
  type TryBlock = (Config, Builtins, seq<Message>, Oracle) -> Result<Option<Example>, string>

  /** tryBlock gives Attempt's result for this configuration. */
  ghost predicate RunsAttempt(config: Config, php: Builtins, tryBlock: TryBlock) {
    forall messages, oracle {:trigger Attempt(config, php, messages, oracle)} ::
      tryBlock(config, php, messages, oracle) == Attempt(config, php, messages, oracle)
  }

  /** The state after a round whose try block did not crash. */
  function Next(st: GenState, messages: seq<Message>, attempt: Option<Example>): GenState {
    var asked := st.(requests := st.requests + [messages]);
    match attempt
    case None => asked
    case Some(ex) => Accept(asked, ex)
  }

  /** One iteration of the while loop, for any try block. */
  function Step(config: Config, php: Builtins, tryBlock: TryBlock, st: GenState, oracle: Oracle): Result<GenState, string>
    requires ValidConfig(config)
  {
    var messages := Messages(config, st.allDataContent, php);
    match tryBlock(config, php, messages, oracle)
    case Err(m) => Err(m)
    case Ok(attempt) => Ok(Next(st, messages, attempt))
  }

  /** The while loop with one oracle per round; running out of rounds
      stands for a loop that has not finished. */
  function Generate(config: Config, php: Builtins, tryBlock: TryBlock, rounds: seq<Oracle>, st: GenState): Run
    requires ValidConfig(config)
    decreases |rounds|
  {
    if |st.allData| >= config.numberOfExamples then Run(Reached, st)
    else if rounds == [] then Run(OutOfRounds, st)
    else
      match Step(config, php, tryBlock, st, rounds[0])
      case Err(m) => Run(Crashed(m), st)
      case Ok(next) => Generate(config, php, tryBlock, rounds[1..], next)
  }

  /** `new ProgressBar(..., $total)` draws the bar at once, dividing the
      count 0 by the total: a total of 0 raises DivisionByZeroError, an
      Error that no catch in generateExamples stops. Later redraws divide
      by the same total, which is then positive. */
  const DivisionByZero := "DivisionByZeroError: Division by zero"

  /** generateExamples from empty lists: the progress bar is created, then
      the while loop runs. */
  function Started(config: Config, php: Builtins, tryBlock: TryBlock, rounds: seq<Oracle>): Run
    requires ValidConfig(config)
  {
    if config.numberOfExamples == 0 then Run(Crashed(DivisionByZero), Initial)
    else Generate(config, php, tryBlock, rounds, Initial)
  }

  /** generateExamples with the real try block. */
  function Generation(config: Config, php: Builtins, rounds: seq<Oracle>): Run
    requires ValidConfig(config)
  {
    Started(config, php, Attempt, rounds)
  }

  /** One turn of Generate below the target, with the try block's result
      named. */
  lemma GenerateTurn(config: Config, php: Builtins, tryBlock: TryBlock, rounds: seq<Oracle>, st: GenState,
                     attempt: Result<Option<Example>, string>)
    requires ValidConfig(config)
    requires |st.allData| < config.numberOfExamples && rounds != []
    requires attempt == tryBlock(config, php, Messages(config, st.allDataContent, php), rounds[0])
    ensures attempt.Err? ==> Generate(config, php, tryBlock, rounds, st) == Run(Crashed(attempt.error), st)
    ensures attempt.Ok? ==>
      Generate(config, php, tryBlock, rounds, st)
      == Generate(config, php, tryBlock, rounds[1..], Next(st, Messages(config, st.allDataContent, php), attempt.value))
  {
  }

  /** generateExamples: the while loop over local arrays, with the progress
      bar reduced to its count and the file saving left out. */
  method GenerateExamples(config: Config, php: Builtins, rounds: seq<Oracle>, ghost tryBlock: TryBlock)
    returns (status: Status, allData: seq<Example>, chunk: seq<Example>)
    requires ValidConfig(config) && RunsAttempt(config, php, tryBlock)
    ensures var run := Started(config, php, tryBlock, rounds);
      status == run.status && allData == run.state.allData && chunk == run.state.chunk
  {
    allData, chunk := [], [];
    if config.numberOfExamples == 0 {
      status := Crashed(DivisionByZero);
      return;
    }
    var allDataContent: seq<Fields> := [];
    var advanced: nat := 0;
    ghost var st := Initial;
    var client := GeneratorClient(config);
    var round := 0;
    while |allData| < config.numberOfExamples && round < |rounds|
      invariant 0 <= round <= |rounds|
      invariant st.allData == allData && st.chunk == chunk && st.allDataContent == allDataContent && st.advanced == advanced
      invariant Generate(config, php, tryBlock, rounds, Initial) == Generate(config, php, tryBlock, rounds[round..], st)
      decreases |rounds| - round
    {
      var messages := Messages(config, allDataContent, php);
      var attempt := TryAttempt(config, php, client, messages, rounds[round], tryBlock);
      GenerateTurn(config, php, tryBlock, rounds[round..], st, attempt);
      if attempt.Err? {
        status := Crashed(attempt.error);
        return;
      }
      assert rounds[round..][1..] == rounds[round + 1..];
      var newExample := attempt.value;
      st := Next(st, messages, newExample);
      if newExample.Some? {
        var example := newExample.value;
        allData := allData + [example];
        chunk := chunk + [example];
        advanced := advanced + 1;
        if example.content != [] {
          allDataContent := allDataContent + [example.content];
        }
      }
      round := round + 1;
    }
    status := if |allData| >= config.numberOfExamples then Reached else OutOfRounds;
  }

  /** Any try block that agrees with Attempt gives the run of the source,
      so GenerateExamples computes Generation. */
  lemma {:induction false} GenerateAgree(config: Config, php: Builtins, tryBlock: TryBlock, rounds: seq<Oracle>, st: GenState)
    requires ValidConfig(config) && RunsAttempt(config, php, tryBlock)
    ensures Generate(config, php, tryBlock, rounds, st) == Generate(config, php, Attempt, rounds, st)
    ensures st == Initial ==> Started(config, php, tryBlock, rounds) == Generation(config, php, rounds)
    decreases |rounds|
  {
    if |st.allData| < config.numberOfExamples && rounds != [] {
      var messages := Messages(config, st.allDataContent, php);
      assert tryBlock(config, php, messages, rounds[0]) == Attempt(config, php, messages, rounds[0]);
      match Step(config, php, tryBlock, st, rounds[0])
      case Err(_) =>
      case Ok(next) => GenerateAgree(config, php, tryBlock, rounds[1..], next);
    }
  }

  // ---------------------------------------------------------------------
  // Properties

  /** The contents of the examples whose content is non-empty, in order. */
  function NonEmptyContents(exs: seq<Example>): (cs: seq<Fields>)
    ensures |cs| <= |exs|
    ensures forall i :: 0 <= i < |cs| ==> cs[i] != []
  {
    if exs == [] then []
    else
      var init := NonEmptyContents(exs[..|exs| - 1]);
      var last := exs[|exs| - 1];
      if last.content != [] then init + [last.content] else init
  }

  /** What the loop keeps true: chunk and allData get the same appends,
      progress counts the accepted examples, and allDataContent holds
      exactly their non-empty contents. */
  predicate Consistent(st: GenState) {
    st.chunk == st.allData && st.advanced == |st.allData| && st.allDataContent == NonEmptyContents(st.allData)
  }

  /** A round asks once, with messages built from the configuration and the
      current allDataContent, and then either accepts one example at the
      end of the list or changes nothing else. */
  lemma StepEffect(config: Config, php: Builtins, tryBlock: TryBlock, st: GenState, oracle: Oracle)
    requires ValidConfig(config)
    requires Step(config, php, tryBlock, st, oracle).Ok?
    ensures var next := Step(config, php, tryBlock, st, oracle).value;
      var asked := st.(requests := st.requests + [Messages(config, st.allDataContent, php)]);
      && next.requests == asked.requests
      && (next == asked || (|next.allData| == |st.allData| + 1 && next == Accept(asked, next.allData[|st.allData|])))
  {
  }

  /** A round in which all DefaultMaxAttempts cURL calls fail yields
      nothing: the exception completionWithBackoff throws is caught. */
  lemma AttemptExhausted(config: Config, php: Builtins, messages: seq<Message>, oracle: Oracle)
    requires forall k :: 0 <= k < DefaultMaxAttempts ==> oracle.transport(k).Failed?
    ensures Attempt(config, php, messages, oracle) == Ok(None)
  {
    ExhaustedRetries(GeneratorClient(config), messages, config.modelName, DefaultMaxAttempts, oracle, php);
  }

  /** A round whose first response comes at call j: a body that does not
      decode to an array, missing 'parameters' or a reply without a scalar
      completion text end the loop with a TypeError; otherwise the round
      accepts exactly the example processOutput builds from the completion
      text, or nothing when that text is rejected. */
  lemma AttemptOutcome(config: Config, php: Builtins, messages: seq<Message>, oracle: Oracle, j: nat)
    requires j < DefaultMaxAttempts
    requires oracle.transport(j).Response?
    requires forall k :: 0 <= k < j ==> oracle.transport(k).Failed?
    ensures var reply := php.jsonDecode(oracle.transport(j).body);
      var attempt := Attempt(config, php, messages, oracle);
      && (!reply.Arr? ==> attempt == Err(NotAnArray))
      && (reply.Arr? && Parameters(config.inputFunction).None? ==> attempt == Err(MissingParameters))
      && (reply.Arr? && Parameters(config.inputFunction).Some? ==>
            match CompletionText(reply)
            case None => attempt == Err(MissingContent)
            case Some(text) =>
              attempt == Ok(Processed(text, Parameters(config.inputFunction).value, config.expectedParamName,
                                      FixedFields(config), php)))
  {
    FirstResponseWins(GeneratorClient(config), messages, config.modelName, DefaultMaxAttempts, oracle, php, j);
  }

  /** A round whose try block yields nothing changes nothing but the
      request log. */
  lemma SwallowedFailure(config: Config, php: Builtins, tryBlock: TryBlock, st: GenState, oracle: Oracle)
    requires ValidConfig(config)
    requires tryBlock(config, php, Messages(config, st.allDataContent, php), oracle) == Ok(None)
    ensures Step(config, php, tryBlock, st, oracle) == Ok(st.(requests := st.requests + [Messages(config, st.allDataContent, php)]))
  {
  }

  lemma StepConsistent(config: Config, php: Builtins, tryBlock: TryBlock, st: GenState, oracle: Oracle)
    requires ValidConfig(config) && Consistent(st)
    requires Step(config, php, tryBlock, st, oracle).Ok?
    ensures Consistent(Step(config, php, tryBlock, st, oracle).value)
  {
    StepEffect(config, php, tryBlock, st, oracle);
    var next := Step(config, php, tryBlock, st, oracle).value;
    if |next.allData| == |st.allData| + 1 {
      assert next.allData[..|next.allData| - 1] == st.allData;
    }
  }

  /** What a run keeps and guarantees: consistency; accepted examples only
      appended, never beyond the target; one request per round used; and
      on reaching the target, exactly as many examples as asked for. */
  lemma {:induction false} GenerateRun(config: Config, php: Builtins, tryBlock: TryBlock, rounds: seq<Oracle>, st: GenState)
    requires ValidConfig(config) && Consistent(st)
    ensures var run := Generate(config, php, tryBlock, rounds, st);
      var target := if config.numberOfExamples > |st.allData| then config.numberOfExamples else |st.allData|;
      && Consistent(run.state)
      && |st.allData| <= |run.state.allData| <= target && run.state.allData[..|st.allData|] == st.allData
      && |st.requests| <= |run.state.requests| <= |st.requests| + |rounds|
      && run.state.requests[..|st.requests|] == st.requests
      && (run.status.Reached? ==> |run.state.allData| == target)
      && (!run.status.Reached? ==> |run.state.allData| < config.numberOfExamples)
      && (run.status.OutOfRounds? ==> |run.state.requests| == |st.requests| + |rounds|)
    decreases |rounds|
  {
    if |st.allData| < config.numberOfExamples && rounds != [] {
      match Step(config, php, tryBlock, st, rounds[0])
      case Err(_) =>
      case Ok(next) =>
        StepEffect(config, php, tryBlock, st, rounds[0]);
        StepConsistent(config, php, tryBlock, st, rounds[0]);
        GenerateRun(config, php, tryBlock, rounds[1..], next);
        var final := Generate(config, php, tryBlock, rounds[1..], next).state;
        assert final.allData[..|st.allData|] == final.allData[..|next.allData|][..|st.allData|];
        assert final.requests[..|st.requests|] == final.requests[..|next.requests|][..|st.requests|];
    }
  }

  /** From the start: the returned chunk is allData; at most max(target, 0)
      examples are accepted, exactly that many when the loop ends; a target
      of zero crashes in the progress bar, and a negative one returns at
      once; neither makes a request. */
  lemma GenerateFromStart(config: Config, php: Builtins, rounds: seq<Oracle>)
    requires ValidConfig(config)
    ensures var run := Generation(config, php, rounds);
      var target := if config.numberOfExamples > 0 then config.numberOfExamples else 0;
      && run.state.chunk == run.state.allData
      && run.state.advanced == |run.state.allData|
      && run.state.allDataContent == NonEmptyContents(run.state.allData)
      && |run.state.allDataContent| <= |run.state.allData| <= target
      && (run.status.Reached? ==> |run.state.allData| == target)
      && (config.numberOfExamples == 0 ==> run == Run(Crashed(DivisionByZero), Initial))
      && (config.numberOfExamples < 0 ==> run == Run(Reached, Initial))
  {
    GenerateRun(config, php, Attempt, rounds, Initial);
  }
}
