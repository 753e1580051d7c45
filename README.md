# PHPAutoPrompt generation pipeline in Dafny

PHPAutoPrompt asks a chat-completion endpoint (OpenAI, or Anthropic's
completion API) for labelled examples of a function's inputs, one per
request, until it has as many as configured. This project models the core
of that pipeline and proves what each part promises:

- `php_values.dfy` (`PhpValues`): the PHP runtime the core leans on.
  - Values as `json_decode(…, true)` returns them.
  - Arrays as ordered maps, with integer keys kept as their decimal strings.
  - `$a[$k] = $v` (`Assign`); a foreach of such assignments, which is also `array_merge` for string keys (`AssignAll`).
  - `array_intersect_key` (`Intersect`), `unset` (`Without`), `implode`, `array_slice($s, -n)` (`LastN`).
  - Truthiness and conversion to string.
  - `json_decode`, `json_encode` and `md5` stay uninterpreted: they are fields of a `Builtins` value passed in.
- `api_client.dfy` (`ApiClient`): `APIClient`.
  - Construction and `getBaseUri`.
  - `prepareRequestData` and `formatAnthropicPrompt`; the latter is a loop method proved against `AnthropicPrompt`.
  - `completionWithBackoff`, a loop method proved against the recursive `Backoff`.
  - The HTTP call is an `Oracle`: the cURL result of the k-th attempt, and the `random_int(0, 1000)` draw before the k-th sleep.
  - Each sleep is recorded as a delay in milliseconds.
- `data_processor.dfy` (`DataProcessor`): `DataProcessor`.
  - `prepareMessages`.
  - `dictToDescription`, a recursive loop method proved against `Description`.
  - `extractDictFromGPTOutput`: the leftmost match of `/\{[^}]+\}/`, characterised against a declarative `IsMatch`.
  - `processOutput`, a method proved against `ProcessedOutput`.
  - `generateExampleId`.
- `generator.dfy` (`Generator`): the while loop of `OpenAIPromptDataGenerator::generateExamples`.
  - The loop is a method over its local arrays, proved against the step function `Generate`.
  - `rounds` supplies one oracle per iteration; running out of rounds stands for a loop that has not finished yet.
- `utilities.dfy` (`Utilities`): the CSV shaping in `Utilities`.
  - `inputDataToCsvRow` as a loop method.
  - The header and records that `saveToCsv` passes to `fputcsv`, also as a loop method.

How PHP failures are represented:
- An `\Exception` that a `catch (\Exception $e)` stops is `Threw`.
- An error that passes through every such handler (a `TypeError` from a typed parameter or return value) is `Fatal`. In the generation loop it becomes the status `Crashed`.
- A target of 0 examples makes the progress bar divide 0 by 0 as it is created (src/ProgressBar.php:44). The `DivisionByZeroError` is not an `\Exception`, so generation ends with `Crashed` before any request.

The `Example` class is not part of this model. It is the datatype
`DataProcessor.Example(id, content, expectedResult)`.

Behaviours of the code a reader may not expect, which the model keeps:
- Only cURL errors are retried. A body with any HTTP status is returned as a success.
- If the body does not decode to a PHP array (a JSON object or list), `completionWithBackoff` violates its `array` return type. The result is a `TypeError` that ends generation, not a retry.
- The label is removed from the fields only when its value is truthy. A falsy label (`""`, `"0"`, `false`, `0`) stays among the fields and is still reported as the example's expected result, unless it is null.
- A reply whose `choices[0].message.content` is missing or not a scalar is a `TypeError`, not a rejected example.

## Model

| member | source | states |
|---|---|---|
| PhpValues.LastN | src/DataProcessor.php:34 | for n > 0, `array_slice($s, -n)` keeps min(n, count) elements, and they are the last ones, in order |
| PhpValues.IntersectKeys | src/DataProcessor.php:57 | after `array_intersect_key` a key is present iff it was in the reply and is a declared parameter |
| PhpValues.IntersectComplete | src/DataProcessor.php:57-61 | with unique keys, the count after intersection equals the parameter count iff every declared parameter is in the reply |
| PhpValues.WithoutKeys | src/DataProcessor.php:66 | after `unset` the keys are the old keys except the removed one |
| PhpValues.AssignAllKeys | src/Utilities.php:56-58 | after a run of `$row[$k] = $v` the keys are the old ones followed by the new ones; the old keys keep their positions |
| PhpValues.AssignAllDistinct | src/DataProcessor.php:69-71 | assignment by key never produces a repeated key |
| PhpValues.LookupAssignAll | src/DataProcessor.php:70 | after `array_merge` with string keys, a key holds the last value assigned to it, or its old value if it was not assigned |
| PhpValues.AssignAllFresh | src/Utilities.php:56-58 | assigning keys that are not present yet appends them in order |
| PhpValues.LookupAt | src/Utilities.php:37-40 | in an array with unique keys, the key at a position finds the value at that position |
| ApiClient.NewClient | src/APIClient.php:25-29 | construction succeeds iff the type is 'openai' or 'anthropic'; otherwise it fails with "Invalid API type: " + type; 'openai' gives the chat/completions URI and 'anthropic' gives /v1/complete |
| ApiClient.ConstructedClientPayload | src/APIClient.php:109-126 | for a constructed client, prepareRequestData never throws; the chat payload carries the messages unchanged and goes to chat/completions; the completion payload carries the Anthropic prompt and 300 max tokens and goes to /v1/complete |
| ApiClient.AnthropicPromptEnd | src/APIClient.php:134-142 | the prompt always ends with "Assistant:", and no messages give exactly "Assistant:" |
| ApiClient.TurnsConcat | src/APIClient.php:136-139 | the rendered turns of two message lists laid end to end are the turns of each, in order |
| ApiClient.AnthropicPromptSplit | src/APIClient.php:136-140 | the prompt of a conversation is the turns of any prefix, followed by the prompt of the rest |
| ApiClient.FormatAnthropicPrompt | src/APIClient.php:134-142 | the foreach with `.=` computes AnthropicPrompt |
| ApiClient.Delay | src/APIClient.php:52 | the delay after the k-th failure lies between min(2^k, 20) and min(2^k + 1, 20) seconds, and never exceeds 20 seconds |
| ApiClient.DelayMonotone | src/APIClient.php:52 | a later failure never waits less than an earlier one, whatever jitter either draws |
| ApiClient.Pow2Grows | src/APIClient.php:52 | 2^a at least doubles with each larger exponent |
| ApiClient.CompletionWithBackoff | src/APIClient.php:40-58 | the while loop returns, posts and sleeps exactly what Backoff says |
| ApiClient.BackoffCalls | src/APIClient.php:41-57 | with no budget left there is no call and "Unexpected error in API request" is thrown; otherwise there are between 1 and the remaining budget of calls, each posting the same payload; there is one sleep between consecutive calls, the k-th of Delay(k) |
| ApiClient.BackoffEnd | src/APIClient.php:43-51 | every call but the last failed; the result is the decoded body of the last call, or "Max API request attempts reached: " + its cURL error when the budget is spent |
| ApiClient.ExhaustedRetries | src/APIClient.php:47-51 | maxAttempts consecutive failures give exactly maxAttempts calls and maxAttempts - 1 sleeps, with no sleep after the final failure; the exception carries the last error |
| ApiClient.FirstResponseWins | src/APIClient.php:44-46 | the first response, at call j, is decoded and returned after j failures and j sleeps |
| ApiClient.BackoffDelaysSorted | src/APIClient.php:52-53 | the delays one request sleeps never decrease |
| ApiClient.JitterLostInSleep | src/APIClient.php:52-53 | as written, `sleep()` drops the fraction, so any draw below 1000 sleeps as long as a draw of 0 |
| ApiClient.JitterSpreadsDelay | src/APIClient.php:52 | the computed delay, which the model records, differs for different draws below the cap |
| DataProcessor.Indentation | src/DataProcessor.php:90 | `str_repeat('  ', $indent)` is 2·indent spaces |
| DataProcessor.EntryLineStart | src/DataProcessor.php:90-103 | every narrative line starts with 2·indent spaces and "- ", whichever of the four branches made it |
| DataProcessor.DescriptionLines | src/DataProcessor.php:87-106 | the description is the narrative joined by "\n": one line per key, in order, each starting with its indentation and "- " |
| DataProcessor.DictToDescription | src/DataProcessor.php:87-107 | the foreach (recursing into non-list arrays at indent + 1) computes Description |
| DataProcessor.PrepareMessages | src/DataProcessor.php:21-39 | the result is always exactly one message, with role 'user' |
| DataProcessor.PromptStartsWithBase | src/DataProcessor.php:29 | the content always starts with prompt + the details header + the description of the input function |
| DataProcessor.SingleShotPrompt | src/DataProcessor.php:31-32 | in single-shot mode the content is the base text + the request for numberOfExamples, whatever the earlier examples and the diversify flag |
| DataProcessor.DiversifiedPrompt | src/DataProcessor.php:33-36 | with diversify on and earlier examples present, exactly the last min(10, n) are embedded, in order, with that count; otherwise the content is the base text alone |
| DataProcessor.CloseFromSpec | src/DataProcessor.php:116 | finds the first '}' at or after a position, or reports that there is none |
| DataProcessor.MatchFromSpec | src/DataProcessor.php:116 | the match found is a match of `/\{[^}]+\}/`, no match starts earlier, and its end is the only one possible for its start; None means there is no match |
| DataProcessor.ExtractDictCandidate | src/DataProcessor.php:115-119 | what json_decode receives is the leftmost match; with no match the result is null |
| DataProcessor.LeftmostMatch | src/DataProcessor.php:116 | a match with no '{' before it is the one preg_match reports |
| DataProcessor.ProcessOutput | src/DataProcessor.php:50-78 | the step-by-step update of `$generatedExample` computes ProcessedOutput |
| DataProcessor.ProcessedRejects | src/DataProcessor.php:53-61 | the result is null iff nothing is extracted, the object is empty, or a declared parameter is missing |
| DataProcessor.ProcessedExample | src/DataProcessor.php:63-76 | the id is md5 of the raw reply; the label is the declared label's value (null when that is null or the label is not declared); the keys are the declared parameters, minus the label when its value is truthy, plus the fixed keys, with no key repeated; fixed values win, and every other value is the model's |
| DataProcessor.SameReplySameId | src/DataProcessor.php:134-136 | identical reply texts give identical ids |
| DataProcessor.WorkedMatch | src/DataProcessor.php:116 | in `Sure! {"a":"x","b":"y","c":"z"} thanks`, preg_match finds exactly the JSON object |
| DataProcessor.WorkedExtraction | src/DataProcessor.php:115-122 | from `Sure! {"a":"x","b":"y","c":"z"} thanks` the object is extracted |
| DataProcessor.WorkedExample | src/DataProcessor.php:50-78 | with parameters a and b and label b, that reply gives content {a: x} and label y |
| Generator.GeneratorClient | src/OpenAIPromptDataGenerator.php:26 | the generator's client is what the constructor returns for type 'openai', so it posts to chat/completions |
| Generator.TryAttempt | src/OpenAIPromptDataGenerator.php:55-65 | the try block (completionWithBackoff, then processOutput) yields what Attempt says |
| Generator.GenerateExamples | src/OpenAIPromptDataGenerator.php:35-97 | creates the progress bar, then runs the while loop; it returns the status, allData and chunk of Started (a crash for a target of 0, otherwise the run of Generate), for any try block that agrees with Attempt |
| Generator.GenerateAgree | src/OpenAIPromptDataGenerator.php:41-83 | every try block that agrees with Attempt gives the same run as Attempt, so GenerateExamples computes Generation |
| Generator.AttemptExhausted | src/OpenAIPromptDataGenerator.php:55-82 | when all 6 cURL calls of a round fail, the exception is caught and the round yields nothing |
| Generator.AttemptOutcome | src/OpenAIPromptDataGenerator.php:55-82 | when the first response comes at call j < 6: a body that does not decode to an array, a missing 'parameters' entry or a missing completion text ends the loop with a TypeError; otherwise the round yields exactly what processOutput makes of the completion text (an example, or nothing for a rejected reply) |
| Generator.StepEffect | src/OpenAIPromptDataGenerator.php:46-79 | each round makes one request; it either accepts one example at the end of the lists or changes nothing else |
| Generator.SwallowedFailure | src/OpenAIPromptDataGenerator.php:67-82 | a null example or a caught Exception leaves allData, chunk, allDataContent and the progress unchanged |
| Generator.NonEmptyContents | src/OpenAIPromptDataGenerator.php:75-78 | the fed-back contents are never more than the examples, and none is empty |
| Generator.StepConsistent | src/OpenAIPromptDataGenerator.php:67-78 | a round keeps chunk == allData, progress == count, and allDataContent == the non-empty contents |
| Generator.GenerateRun | src/OpenAIPromptDataGenerator.php:44-83 | consistency is kept; examples are only appended, never beyond the target; at most one request per round, and earlier requests are kept; a run that ends on the target holds exactly the target count; a run that ends out of rounds made a request in every round |
| Generator.GenerateFromStart | src/OpenAIPromptDataGenerator.php:36-96 | the returned chunk equals allData; progress counts the accepted examples; at most max(target, 0) examples are accepted, exactly that many when the loop ends; a target of 0 crashes with DivisionByZeroError and a negative target returns an empty list, neither making a request |
| Utilities.InputDataToCsvRow | src/Utilities.php:52-60 | the foreach computes InputRow |
| Utilities.InputRowId | src/Utilities.php:53-58 | the row's first key is 'example_id'; it holds the id, unless the content has its own 'example_id', whose value overwrites it |
| Utilities.InputRowContent | src/Utilities.php:56-58 | every content key is copied with its value; no key other than 'example_id' is added; no key repeats |
| Utilities.InputRowFresh | src/Utilities.php:53-58 | without an 'example_id' in the content, the row is the id followed by the content entries, in order |
| Utilities.SaveToCsv | src/Utilities.php:26-44 | the header and row writes produce CsvRecords |
| Utilities.CsvLayout | src/Utilities.php:29-40 | a header only for non-empty data, 'example_id' followed by the first example's content keys; then one record per example, in input order: the id followed by the content values, 1 + \|content\| long |
| Utilities.ColumnsLineUp | src/Utilities.php:30-40 | for an example with the first example's keys in the same order, the record is as long as the header, and column j holds its value under the header's j-th key |
| Utilities.InputRowMatchesRecord | src/Utilities.php:52-60 | without an 'example_id' in the content, the keys of inputDataToCsvRow's row are the saveToCsv header for that example, and its values as text are its CSV record |

## Left out

- The HTTP transport (`makeApiRequest`, src/APIClient.php:68-100) is network I/O. It is the `Oracle`, which gives a body or a cURL error per attempt. The posted payload is recorded, and its JSON encoding is left out.
- `random_int` and `sleep` are the oracle's jitter and a recorded delay. No time passes in the model.
- `json_decode`, `json_encode` and `md5` are uninterpreted functions. Where a proof needs json_decode to give arrays without repeated keys, as PHP's does, it assumes `DecodesToMaps`.
- Floats are not modelled:
  - the temperature 0.5 is an opaque `real` constant;
  - a float in a reply is not a `Value`;
  - delays are whole milliseconds.
- ApiClient.Delay: states the delay in milliseconds that the source computes. What `sleep()` actually waits (whole seconds) is `SleptSeconds`; see Findings.
- `Config` (src/Config.php) is the datatype `Generator.Config`. Its `getenv` default for the API key and its other defaults are left out, and so are the output paths.
- `ProgressBar` is reduced to its count (`advanced`) and to the division by zero of a total of 0; its terminal output is left out.
- `error_log` of a caught exception is left out.
- The file writing is left out:
  - `saveToFile`;
  - the `fopen`/`fputcsv`/`fclose` calls, whose records `SaveToCsv` returns instead;
  - the call to these after the loop (src/OpenAIPromptDataGenerator.php:87-94).
- `array_merge` renumbers integer keys on either side: those of the fixed input and those of the generated example (a declared parameter named "0", say). Keys here are strings, so such a key is kept as it is.
- Generator.GenerateExamples: termination of the while loop is not proved, because it is not guaranteed. The loop runs over a finite sequence of per-round oracles and reports `OutOfRounds` when they run out.
- Generator.GenerateExamples: its contract is stated for a ghost try block that agrees with Attempt. GenerateAgree connects it to Generation; this keeps the loop's proof from unfolding the whole try block.
- Generator.ValidConfig: an input function whose 'parameters' entry is not an array, or that contains such a nested array, makes `dictToDescription` raise a TypeError. This is a precondition here, not a modelled crash.
- The unreachable throw in `prepareRequestData` (src/APIClient.php:125) cannot happen for a constructed client (ConstructedClientPayload). `Backoff` therefore requires a constructed client.
- The demo scripts (src/financial_test.php, src/test_script.php) and the tests are left out. The tests call methods that do not exist.

## Findings

| source | as written | input that shows it | evidently intended | confidence | as-written member | corrected member |
|---|---|---|---|---|---|---|
| src/APIClient.php:52-53 | `sleep()` takes an int, so the float delay 2^k + r/1000 loses its fraction: any draw below 1000 (1000 of the 1001 possible draws) waits exactly as long as a draw of 0 | after the first failure, a draw of 500 computes 2.5 s but sleeps 2 s, as a draw of 0 does | a jittered delay, so that different draws spread retries (e.g. `usleep` with the full delay) | not executed | ApiClient.JitterLostInSleep | ApiClient.JitterSpreadsDelay |
