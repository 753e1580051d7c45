/** The data processor: the prompt sent for each example (with the schema
    described in prose, and optionally earlier examples to steer away
    from), and the validation of the model's reply into an Example. */
module DataProcessor {
  import opened PhpValues
  import opened ApiClient

  /** An accepted example: the md5 of the reply it came from, its fields,
      and the label value taken out of them (null when there is none). */
  datatype Example = Example(id: string, content: Fields, expectedResult: Option<Value>)

  // ---------------------------------------------------------------------
  // dictToDescription

  /** isset($value[0]): the array has a key 0 whose value is not null. */
  predicate IsListLike(v: Value) {
    v.Arr? && Lookup(v.entries, "0").Some? && Lookup(v.entries, "0").value != Null
  }

  /** What dictToDescription needs of an array it describes: under the key
      'parameters' an array (array_keys accepts nothing else), and the same
      of every nested array it recurses into. */
  predicate Describable(v: Value)
    decreases v, 0
  {
    v.Arr? && forall i :: 0 <= i < |v.entries| ==> EntryDescribable(v.entries[i].0, v.entries[i].1)
  }

  predicate EntryDescribable(key: string, value: Value)
    decreases value, 1
  {
    if key == "parameters" then value.Arr?
    else value.Arr? && !IsListLike(value) ==> Describable(value)
  }

  /** str_repeat('  ', $indent). */
  function Indentation(indent: nat): (s: string)
    ensures |s| == 2 * indent && forall c :: c in s ==> c == ' '
  {
    if indent == 0 then "" else Indentation(indent - 1) + "  "
  }

  function ParamTexts(f: Fields): (ts: seq<string>)
    ensures |ts| == |f|
  {
    seq(|f|, i requires 0 <= i < |f| => "'" + f[i].0 + "' of type '" + Text(f[i].1) + "'")
  }

  /** The narrative line of one entry, at the given depth. */
  function EntryLine(key: string, value: Value, indent: nat): string
    requires EntryDescribable(key, value)
    decreases value, 1
  {
    var prefix := Indentation(indent);
    if key == "parameters" then
      prefix + "- It takes parameters: " + Implode(", ", ParamTexts(value.entries)) + "."
    else if value.Arr? && !IsListLike(value) then
      prefix + "- '" + key + "' has the following properties:\n" + Implode("\n", Lines(value, indent + 1))
    else if value.Arr? then
      prefix + "- '" + key + "' can have values: " + Implode(", ", Texts(Values(value.entries))) + "."
    else
      prefix + "- '" + key + "' is described as '" + Text(value) + "'."
  }

  /** The narrative: one line per entry, in entry order. */
  function Lines(v: Value, indent: nat): seq<string>
    requires Describable(v)
    decreases v, 0
  {
    seq(|v.entries|, i requires 0 <= i < |v.entries| => EntryLine(v.entries[i].0, v.entries[i].1, indent))
  }

  /** dictToDescription, as a value. */
  function Description(v: Value, indent: nat): string
    requires Describable(v)
  {
    Implode("\n", Lines(v, indent))
  }

  /** Every narrative line starts with two spaces per level and "- ". */
  lemma EntryLineStart(key: string, value: Value, indent: nat)
    requires EntryDescribable(key, value)
    ensures var line := EntryLine(key, value, indent);
      |line| >= 2 * indent + 2 && line[..2 * indent + 2] == Indentation(indent) + "- "
  {
    var prefix := Indentation(indent) + "- ";
    var line := EntryLine(key, value, indent);
    assert line == prefix + line[2 * indent + 2..];
  }

  /** The description holds one line per entry, in order, each starting
      with two spaces per level of nesting and "- ". */
  lemma DescriptionLines(v: Value, indent: nat)
    requires Describable(v)
    ensures var lines := Lines(v, indent);
      && Description(v, indent) == Implode("\n", lines)
      && |lines| == |v.entries|
      && forall i :: 0 <= i < |lines| ==> |lines[i]| >= 2 * indent + 2 && lines[i][..2 * indent + 2] == Indentation(indent) + "- "
  {
    var lines := Lines(v, indent);
    forall i | 0 <= i < |lines|
      ensures |lines[i]| >= 2 * indent + 2 && lines[i][..2 * indent + 2] == Indentation(indent) + "- "
    {
      EntryLineStart(v.entries[i].0, v.entries[i].1, indent);
    }
  }

  /** dictToDescription: a narrative line per entry, pushed in a foreach
      (recursing into nested arrays), then imploded with newlines. */
  method DictToDescription(data: Value, indent: nat) returns (description: string)
    requires Describable(data)
    ensures description == Description(data, indent)
    decreases data
  {
    var narrative: seq<string> := [];
    for i := 0 to |data.entries|
      invariant narrative == Lines(data, indent)[..i]
    {
      var key, value := data.entries[i].0, data.entries[i].1;
      assert EntryDescribable(key, value);
      var prefix := Indentation(indent);
      var line: string;
      if key == "parameters" {
        var paramStr := Implode(", ", ParamTexts(value.entries));
        line := prefix + "- It takes parameters: " + paramStr + ".";
      } else if value.Arr? && !IsListLike(value) {
        var subNarrative := DictToDescription(value, indent + 1);
        line := prefix + "- '" + key + "' has the following properties:\n" + subNarrative;
      } else if value.Arr? {
        var items := Implode(", ", Texts(Values(value.entries)));
        line := prefix + "- '" + key + "' can have values: " + items + ".";
      } else {
        line := prefix + "- '" + key + "' is described as '" + Text(value) + "'.";
      }
      assert line == EntryLine(key, value, indent);
      narrative := narrative + [line];
    }
    assert narrative == Lines(data, indent);
    description := Implode("\n", narrative);
  }

  // ---------------------------------------------------------------------
  // prepareMessages

  const DetailsHeader := "\n\nHere is the function details:\n\n"

  /** How many earlier examples the diversity request shows at most. */
  const DiversityWindow := 10

  function BaseContent(prompt: string, inputFunction: Value): string
    requires Describable(inputFunction)
  {
    prompt + DetailsHeader + Description(inputFunction, 0)
  }

  function SingleShotRequest(numberOfExamples: int): string {
    "\n\nPlease generate " + IntToString(numberOfExamples) + " examples and put them in a list [].\n\n"
  }

  /** The request to differ from the given examples, which it embeds as a
      JSON list. */
  function DiversityRequest(lastExamples: seq<Fields>, php: Builtins): string {
    "\n\nGiven the last " + IntToString(|lastExamples|)
    + " examples, please generate diverse results to ensure comprehensive evaluation."
    + " REMEMBER DON'T GENERATE THE SAME SAMPLE AS BELOW!\n\n"
    + php.jsonEncode(ListValue(seq(|lastExamples|, i requires 0 <= i < |lastExamples| => Arr(lastExamples[i]))))
  }

  /** prepareMessages: a single user message. */
  function PrepareMessages(allDataContent: seq<Fields>, numberOfExamples: int, prompt: string,
                           inputFunction: Value, singleShot: bool, diversify: bool, php: Builtins): (ms: seq<Message>)
    requires Describable(inputFunction)
    ensures |ms| == 1 && ms[0].role == "user"
  {
    var content := BaseContent(prompt, inputFunction)
      + if singleShot then SingleShotRequest(numberOfExamples)
        else if diversify && allDataContent != [] then DiversityRequest(LastN(allDataContent, DiversityWindow), php)
        else "";
    [Message("user", content)]
  }

  /** The message always opens with the prompt, the details header and the
      description of the input function. */
  lemma PromptStartsWithBase(allDataContent: seq<Fields>, numberOfExamples: int, prompt: string,
                             inputFunction: Value, singleShot: bool, diversify: bool, php: Builtins)
    requires Describable(inputFunction)
    ensures var content := PrepareMessages(allDataContent, numberOfExamples, prompt, inputFunction, singleShot, diversify, php)[0].content;
      var base := BaseContent(prompt, inputFunction);
      |base| <= |content| && content[..|base|] == base
  {
  }

  /** In single-shot mode the prompt asks for numberOfExamples examples and
      depends neither on earlier examples nor on the diversify flag. */
  lemma SingleShotPrompt(prior1: seq<Fields>, prior2: seq<Fields>, numberOfExamples: int, prompt: string,
                         inputFunction: Value, diversify1: bool, diversify2: bool, php: Builtins)
    requires Describable(inputFunction)
    ensures PrepareMessages(prior1, numberOfExamples, prompt, inputFunction, true, diversify1, php)
         == PrepareMessages(prior2, numberOfExamples, prompt, inputFunction, true, diversify2, php)
    ensures PrepareMessages(prior1, numberOfExamples, prompt, inputFunction, true, diversify1, php)[0].content
         == BaseContent(prompt, inputFunction) + SingleShotRequest(numberOfExamples)
  {
  }

  /** With diversify on, single-shot off and earlier examples present, the
      prompt embeds exactly the last min(10, n) of them, in order, and
      says how many; without earlier examples, or with diversify off, it
      is the base content alone. */
  lemma DiversifiedPrompt(prior: seq<Fields>, numberOfExamples: int, prompt: string,
                          inputFunction: Value, diversify: bool, php: Builtins)
    requires Describable(inputFunction)
    ensures var content := PrepareMessages(prior, numberOfExamples, prompt, inputFunction, false, diversify, php)[0].content;
      var m := Min(DiversityWindow, |prior|);
      && (diversify && prior != [] ==>
            content == BaseContent(prompt, inputFunction) + DiversityRequest(prior[|prior| - m..], php))
      && (!diversify || prior == [] ==> content == BaseContent(prompt, inputFunction))
  {
    var m := Min(DiversityWindow, |prior|);
    assert LastN(prior, DiversityWindow) == prior[|prior| - m..];
  }

  // ---------------------------------------------------------------------
  // extractDictFromGPTOutput

  /** The first '}' at or after position k. */
  function CloseFrom(s: string, k: nat): (r: Option<nat>)
    ensures r.Some? ==> k <= r.value < |s| && s[r.value] == '}'
    decreases |s| - k
  {
    if k >= |s| then None else if s[k] == '}' then Some(k) else CloseFrom(s, k + 1)
  }

  /** Where the pattern /\{[^}]+\}/ matches s, trying each start from
      position i on, as preg_match does. */
  function MatchFrom(s: string, i: nat): (r: Option<(nat, nat)>)
    ensures r.Some? ==> i <= r.value.0 < r.value.1 < |s|
    decreases |s| - i
  {
    if i >= |s| then None
    else
      var close := CloseFrom(s, i + 1);
      if s[i] == '{' && close.Some? && close.value > i + 1 then Some((i, close.value))
      else MatchFrom(s, i + 1)
  }

  /** s[i..j] (inclusive) is a match of /\{[^}]+\}/: it opens with '{',
      closes with '}', has at least one character between, and no other
      '}'. */
  ghost predicate IsMatch(s: string, i: int, j: int) {
    0 <= i && i + 1 < j < |s| && s[i] == '{' && s[j] == '}' && forall k :: i < k < j ==> s[k] != '}'
  }

  lemma {:induction false} CloseFromSpec(s: string, k: nat)
    ensures match CloseFrom(s, k)
      case Some(j) => k <= j < |s| && s[j] == '}' && forall m :: k <= m < j ==> s[m] != '}'
      case None => forall m :: k <= m < |s| ==> s[m] != '}'
    decreases |s| - k
  {
    if k < |s| && s[k] != '}' {
      CloseFromSpec(s, k + 1);
    }
  }

  /** The match found from position i on is the leftmost one starting
      there or later, and its end is the only one possible for its start. */
  lemma {:induction false} MatchFromSpec(s: string, i: nat)
    ensures match MatchFrom(s, i)
      case Some(m) => i <= m.0 && IsMatch(s, m.0, m.1)
        && forall a, b :: i <= a && IsMatch(s, a, b) ==> m.0 < a || (a == m.0 && b == m.1)
      case None => forall a, b :: i <= a && IsMatch(s, a, b) ==> false
    decreases |s| - i
  {
    if i < |s| {
      CloseFromSpec(s, i + 1);
      var close := CloseFrom(s, i + 1);
      if s[i] == '{' && close.Some? && close.value > i + 1 {
        forall b | IsMatch(s, i, b) ensures b == close.value {
        }
      } else {
        MatchFromSpec(s, i + 1);
        forall b | IsMatch(s, i, b) ensures false {
        }
      }
    }
  }

  /** extractDictFromGPTOutput: the first match, decoded. json_decode of a
      text that starts with '{' gives an array or null (invalid JSON). */
  function ExtractDict(output: string, php: Builtins): Option<Fields> {
    match MatchFrom(output, 0)
    case None => None
    case Some(m) =>
      var decoded := php.jsonDecode(output[m.0..m.1 + 1]);
      if decoded.Arr? then Some(decoded.entries) else None
  }

  /** The candidate handed to json_decode is the leftmost substring that
      opens with '{', closes with its only '}', and has a character between;
      when there is none the result is null. */
  lemma ExtractDictCandidate(output: string, php: Builtins)
    ensures match MatchFrom(output, 0)
      case Some(m) => IsMatch(output, m.0, m.1)
        && (forall a, b :: IsMatch(output, a, b) ==> m.0 < a || (a == m.0 && b == m.1))
        && ExtractDict(output, php) == (var d := php.jsonDecode(output[m.0..m.1 + 1]); if d.Arr? then Some(d.entries) else None)
      case None => (forall a, b :: !IsMatch(output, a, b)) && ExtractDict(output, php) == None
  {
    MatchFromSpec(output, 0);
  }

  // ---------------------------------------------------------------------
  // processOutput

  /** Follows a chain of array offsets; None where PHP would read null. */
  function Path(v: Value, keys: seq<string>): Option<Value>
    decreases |keys|
  {
    if keys == [] then Some(v)
    else if !v.Arr? then None
    else match Lookup(v.entries, keys[0])
      case None => None
      case Some(child) => Path(child, keys[1..])
  }

  /** $output['choices'][0]['message']['content'] as the string parameter
      of extractDictFromGPTOutput receives it: a scalar converts, while null
      (a missing offset) or an array is a TypeError. */
  function CompletionText(output: Value): Option<string> {
    match Path(output, ["choices", "0", "message", "content"])
    case Some(Str(s)) => Some(s)
    case Some(Int(i)) => Some(Text(Int(i)))
    case Some(Bool(b)) => Some(Text(Bool(b)))
    case _ => None
  }

  /** generateExampleId. */
  function GenerateExampleId(content: string, php: Builtins): string {
    php.md5(content)
  }

  /** `$generatedExample[$expectedParamName] ?? null`. */
  function ExpectedValue(f: Fields, key: string): Option<Value> {
    match Lookup(f, key)
    case Some(v) => if v == Null then None else Some(v)
    case None => None
  }

  /** processOutput on the completion text, as a value. */
  function Processed(text: string, parameters: Fields, expectedParamName: string, fixedInput: Fields,
                     php: Builtins): Option<Example>
  {
    match ExtractDict(text, php)
    case None => None
    case Some(generated) =>
      if generated == [] then None
      else
        var kept := Intersect(generated, parameters);
        if |kept| != |parameters| then None
        else
          var expected := ExpectedValue(kept, expectedParamName);
          var fields := if expected.Some? && Truthy(expected.value) then Without(kept, expectedParamName) else kept;
          var merged := if fixedInput != [] then AssignAll(fields, fixedInput) else fields;
          Some(Example(GenerateExampleId(text, php), merged, expected))
  }

  const MissingContent := "TypeError: extractDictFromGPTOutput(): argument #1 must be of type string"

  function ProcessedOutput(output: Value, parameters: Fields, expectedParamName: string, fixedInput: Fields,
                           php: Builtins): Outcome<Option<Example>>
  {
    match CompletionText(output)
    case None => Fatal(MissingContent)
    case Some(text) => Returned(Processed(text, parameters, expectedParamName, fixedInput, php))
  }

  /** processOutput: $generatedExample updated step by step. */
  method ProcessOutput(output: Value, parameters: Fields, expectedParamName: string, fixedInput: Fields,
                       php: Builtins) returns (r: Outcome<Option<Example>>)
    ensures r == ProcessedOutput(output, parameters, expectedParamName, fixedInput, php)
  {
    var text := CompletionText(output);
    if text.None? {
      return Fatal(MissingContent);
    }
    var extracted := ExtractDict(text.value, php);
    if extracted.None? || extracted.value == [] {
      return Returned(None);
    }
    var generatedExample := Intersect(extracted.value, parameters);
    if |generatedExample| != |parameters| {
      return Returned(None);
    }
    var expectedValue := ExpectedValue(generatedExample, expectedParamName);
    if expectedValue.Some? && Truthy(expectedValue.value) {
      generatedExample := Without(generatedExample, expectedParamName);
    }
    if fixedInput != [] {
      generatedExample := AssignAll(generatedExample, fixedInput);
    }
    r := Returned(Some(Example(GenerateExampleId(text.value, php), generatedExample, expectedValue)));
  }

  /** A reply is rejected (null, not an exception) exactly when no object
      can be extracted from it, the object is empty, or it lacks a declared
      parameter. */
  lemma ProcessedRejects(text: string, parameters: Fields, expectedParamName: string, fixedInput: Fields,
                         php: Builtins)
    requires DistinctKeys(parameters) && DecodesToMaps(php)
    ensures Processed(text, parameters, expectedParamName, fixedInput, php).None? <==>
      match ExtractDict(text, php)
      case None => true
      case Some(generated) => generated == [] || !(forall k :: k in Keys(parameters) ==> k in Keys(generated))
  {
    match ExtractDict(text, php)
    case None =>
    case Some(generated) =>
      var m := MatchFrom(text, 0).value;
      assert php.jsonDecode(text[m.0..m.1 + 1]).entries == generated;
      IntersectComplete(generated, parameters);
  }

  /** An accepted example: its id is the md5 of the raw reply; its label is
      the declared label parameter's value (null when that is null or the
      label is not declared); its keys are the declared parameters, less
      the label when its value is truthy, plus the fixed keys, with no key
      twice; fixed values win, and every other value is the model's. */
  lemma ProcessedExample(text: string, parameters: Fields, expectedParamName: string, fixedInput: Fields,
                         php: Builtins)
    requires DistinctKeys(parameters) && DistinctKeys(fixedInput) && DecodesToMaps(php)
    requires Processed(text, parameters, expectedParamName, fixedInput, php).Some?
    ensures var ex := Processed(text, parameters, expectedParamName, fixedInput, php).value;
      var generated := ExtractDict(text, php).value;
      var labelRemoved := ex.expectedResult.Some? && Truthy(ex.expectedResult.value);
      && ex.id == php.md5(text)
      && ex.expectedResult == (if expectedParamName in Keys(parameters) then ExpectedValue(generated, expectedParamName) else None)
      && DistinctKeys(ex.content)
      && (forall k :: k in Keys(ex.content) <==>
            (k in Keys(parameters) && !(labelRemoved && k == expectedParamName)) || k in Keys(fixedInput))
      && (forall k :: k in Keys(fixedInput) ==> Lookup(ex.content, k) == Lookup(fixedInput, k))
      && (forall k :: k in Keys(ex.content) && k !in Keys(fixedInput) ==> Lookup(ex.content, k) == Lookup(generated, k))
  {
    var generated := ExtractDict(text, php).value;
    var m := MatchFrom(text, 0).value;
    assert php.jsonDecode(text[m.0..m.1 + 1]).entries == generated;
    var kept := Intersect(generated, parameters);
    IntersectComplete(generated, parameters);
    IntersectKeys(generated, parameters);
    IntersectDistinct(generated, parameters);
    forall k | k in Keys(parameters) ensures Lookup(kept, k) == Lookup(generated, k) {
      IntersectLookup(generated, parameters, k);
    }
    if expectedParamName !in Keys(parameters) {
      LookupFound(kept, expectedParamName);
    }
    var expected := ExpectedValue(kept, expectedParamName);
    var fields := if expected.Some? && Truthy(expected.value) then Without(kept, expectedParamName) else kept;
    WithoutKeys(kept, expectedParamName);
    WithoutDistinct(kept, expectedParamName);
    forall k | k != expectedParamName ensures Lookup(Without(kept, expectedParamName), k) == Lookup(kept, k) {
      WithoutLookup(kept, expectedParamName, k);
    }
    AssignAllKeys(fields, fixedInput);
    AssignAllDistinct(fields, fixedInput);
    forall k ensures Lookup(AssignAll(fields, fixedInput), k) == if k in Keys(fixedInput) then Lookup(fixedInput, k) else Lookup(fields, k) {
      LookupAssignAll(fields, fixedInput, k);
    }
    var ex := Processed(text, parameters, expectedParamName, fixedInput, php).value;
    forall k | k in Keys(ex.content) && k !in Keys(fixedInput) ensures Lookup(ex.content, k) == Lookup(generated, k) {
      assert k in Keys(fields);
      assert k in Keys(kept);
    }
  }

  /** Two identical replies give examples with the same id, whatever else
      differs in how they are processed. */
  lemma SameReplySameId(text: string, p1: Fields, p2: Fields, label1: string, label2: string,
                        fixed1: Fields, fixed2: Fields, php: Builtins)
    requires Processed(text, p1, label1, fixed1, php).Some? && Processed(text, p2, label2, fixed2, php).Some?
    ensures Processed(text, p1, label1, fixed1, php).value.id == Processed(text, p2, label2, fixed2, php).value.id
  {
  }

  /** A match at (i, j) with no '{' before i is the one preg_match finds. */
  lemma LeftmostMatch(s: string, i: nat, j: nat)
    requires IsMatch(s, i, j) && forall a :: 0 <= a < i ==> s[a] != '{'
    ensures MatchFrom(s, 0) == Some((i, j))
  {
    MatchFromSpec(s, 0);
  }

  /** The worked case: the reply `Sure! {"a":"x","b":"y","c":"z"} thanks`. */
  const WorkedJson := "{\"a\":\"x\",\"b\":\"y\",\"c\":\"z\"}"
  const WorkedReply := "Sure! " + WorkedJson + " thanks"

  /** With declared parameters a and b, and b the label, the object in the
      worked reply is found, c is dropped, b becomes the label, and a alone
      stays. */
  lemma WorkedExample(php: Builtins)
    requires php.jsonDecode(WorkedJson) == Arr([("a", Str("x")), ("b", Str("y")), ("c", Str("z"))])
    ensures Processed(WorkedReply, [("a", Str("string")), ("b", Str("string"))], "b", [], php)
         == Some(Example(php.md5(WorkedReply), [("a", Str("x"))], Some(Str("y"))))
  {
    WorkedExtraction(php);
    var generated := [("a", Str("x")), ("b", Str("y")), ("c", Str("z"))];
    var parameters := [("a", Str("string")), ("b", Str("string"))];
    var kept := [("a", Str("x")), ("b", Str("y"))];
    assert Keys(parameters) == ["a", "b"];
    assert generated[1..] == [("b", Str("y")), ("c", Str("z"))];
    assert generated[1..][1..] == [("c", Str("z"))];
    assert Intersect(generated[1..][1..], parameters) == [];
    assert Intersect(generated, parameters) == kept;
    assert kept[1..] == [("b", Str("y"))];
    assert Lookup(kept, "b") == Some(Str("y"));
    assert Without(kept, "b") == [("a", Str("x"))];
  }

  /** preg_match finds the object in the worked reply, and nothing before it. */
  lemma WorkedMatch()
    ensures MatchFrom(WorkedReply, 0) == Some((6, 30))
  {
    assert IsMatch(WorkedReply, 6, 30);
    LeftmostMatch(WorkedReply, 6, 30);
  }

  /** The object extracted from the worked reply is the decoded JSON text. */
  lemma WorkedExtraction(php: Builtins)
    requires php.jsonDecode(WorkedJson) == Arr([("a", Str("x")), ("b", Str("y")), ("c", Str("z"))])
    ensures ExtractDict(WorkedReply, php) == Some([("a", Str("x")), ("b", Str("y")), ("c", Str("z"))])
  {
    WorkedMatch();
    assert WorkedReply[..31] == "Sure! " + WorkedJson;
    assert WorkedReply[6..31] == WorkedJson;
  }
}
