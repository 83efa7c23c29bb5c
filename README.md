# LLMEmotionStudy evaluation core, in Dafny

This project models the deterministic core of the LLMEmotionStudy benchmark, which runs two tests against chat models:

- **EUS** (emotion understanding) is a forced-choice test. For each item the model picks one of four emotion options. The answer is checked against the item's key, ignoring case.
- **ERI** (empathic response) is an open-ended test. For each item the model writes a neutral reply and an empathic reply. A rater model scores each reply on five 1..7 sub-scores: warmth, intensity, appropriateness, valence and arousal. The ERI composite is their mean.

The model covers five things:

- the normalisation and two-tier parsing of the rater's JSON output;
- the per-item protocol loops of `TextEvaluator` (`RunEusAsync`, `RunEriAsync`, `RunEriAutoRateAsync`), with the chat client as an oracle;
- the record assembly in `EvaluationRunner`, including the −1 placeholder for a missing rating;
- the lane driver, which appends each model's batch of records to one list;
- the parsing of the comma-separated model lists in `ModelProvider`.

Modules, one per file:

- `wrappers.dfy`: `Option`.
- `dotnet_text.dfy` (`DotNetText`): the .NET string operations the core relies on.
  - `Trim` by `Char.IsWhiteSpace`, and `String.IsNullOrWhiteSpace`.
  - `Split` on one separator.
  - The ordinal case-insensitive comparison.
- `sequences.dfy` (`Sequences`): first and last occurrence, and LINQ `Distinct`.
  - The greedy regex `\{[\s\S]*\}` of `ExtractFirstJsonObject` is modelled by `FirstIndexOf` (the first `{`) and `LastIndexOf` (the last `}`).
  - `FirstIndexOf` also states the first-occurrence order that `Distinct` keeps in `AllModels`.
- `collaborators.dfy` (`Collaborators`): the item records and the abstract interfaces to the outside.
  - A chat client is a function `(Request, attempt) -> Reply`. A `Reply` is a thrown exception, a null `Text`, or a text.
  - `JsonDocument.Parse` is a function to `ParsedJson`. Its three cases are unparseable, a root that is not an object, and an object whose properties are numbers or something else.
  - `JsonSerializer.Deserialize<EusChatResult>` is a function to `EusAnswer`.
- `score_parsing.dfy` (`ScoreParsing`): the pure parsing code of `TextEvaluator`.
  - `ClampRound`, with `Math.Round` as round-half-to-even and the `(int)` conversion.
  - `EriAutoScore.ERI`, `TryParseScoreJson` and `ExtractFirstJsonObject`.
  - A `double` is `NaN` or a finite real.
- `text_evaluator.dfy` (`TextEvaluator`): the three protocol loops.
  - Each is a `while` loop with the source's counter and its early `return`s.
  - Each is proved equal to a function of the oracle's replies.
- `evaluation_runner.dfy` (`EvaluationRunner`): the per-model item loops as methods, proved against batch functions.
  - The lane driver. The order in which concurrent lanes add their batches is a parameter called the *schedule*.
  - `EvaluateEusAsync` and `EvaluateEriAsync`.
- `model_provider.dfy` (`ModelProvider`): the list-parsing pipeline, and the `ModelProvider` class as a datatype holding its four lists (its fields are `readonly`).
  - The environment values are parameters.

### Where the code departs from its stated intent

The model follows the code in all three places:

1. **No retry after an exception.** Each protocol method wraps its whole `while (retryCount++ < 5)` loop in one `try`. The first exception therefore ends the loop.
   - `RunEusAsync` makes exactly one request, because its loop body always returns. An exception, a null text or a deserialisation error gives the invalid result.
   - `RunEriAsync` retries only blank replies. After an exception it returns `""` at once.
2. **A missing rating field is accepted.** A missing field reads as NaN. `ClampRound` returns an `int`, so the NaN becomes `int.MinValue`. After conversion back to `double`, the `double.IsNaN` check can never be true. The rating is therefore accepted, with sub-score −2147483648 and an ERI far below 1 (`MissingFieldIsAccepted`).
3. **One rating attempt.** `RunEriAutoRateAsync` also makes exactly one request, because its loop body always returns.

## Model

| member | source | states |
|---|---|---|
| ScoreParsing.RoundHalfEven | Shared/TextEvaluator.cs:215 | `Math.Round`: the result is within 0.5 of the input, and is even when the input is exactly halfway |
| ScoreParsing.RoundHalfEvenUnique | Shared/TextEvaluator.cs:215 | an integer within 0.5 of the input that is even on a tie is the rounding result, so the rounding is determined |
| ScoreParsing.ToInt32 | Shared/TextEvaluator.cs:215 | the `(int)` conversion lands in the 32-bit range and leaves in-range values unchanged |
| ScoreParsing.ClampRound | Shared/TextEvaluator.cs:212-217 | NaN gives `int.MinValue`; every finite input gives a score in 1..7 |
| ScoreParsing.ClampRoundIsNearestScore | Shared/TextEvaluator.cs:212-217 | for a finite input, the result is the score in 1..7 nearest to it; on a tie between two such scores it is the even one |
| ScoreParsing.ClampRoundExamples | Shared/TextEvaluator.cs:212-217 | identity on 1..7; 8.6 gives 7, 0 gives 1, 2.5 gives 2, 3.5 gives 4, ±1e12 give 1 and 7, NaN gives `int.MinValue` |
| ScoreParsing.EriAutoScore.ERI | Shared/TextEvaluator.cs:242 | the mean is finite exactly when the five fields are, and lies between the smallest and the largest field |
| ScoreParsing.EriOfSubScores | Shared/TextEvaluator.cs:242 | five sub-scores in 1..7 give a composite in 1..7 |
| ScoreParsing.EriExample | Shared/TextEvaluator.cs:242 | the sample rating (6, 5, 6, 6, 4) from the rater prompt (line 126) has ERI 5.4 |
| ScoreParsing.GetProperty | Shared/TextEvaluator.cs:177-178 | a missing property reads as NaN; a number reads as itself; a present property that is not a number makes `GetDouble` fail |
| ScoreParsing.TryParseScoreJson | Shared/TextEvaluator.cs:171-204 | succeeds exactly when the text parses, the root is an object, and each of the five fields is missing or numeric; it fails on unparseable text, a non-object root, or a non-numeric field |
| ScoreParsing.IsReadableScore | Shared/TextEvaluator.cs:176-185 | an object root whose five score properties are each missing or a number, so that neither `TryGetProperty` nor `GetDouble` throws; `TryParseScoreJson` succeeds exactly on these |
| ScoreParsing.ParsedScoreFields | Shared/TextEvaluator.cs:176-201 | after success, each present field holds `ClampRound` of the number the rater gave, a whole number in 1..7, and each missing field holds exactly `int.MinValue`; the NaN rejection never fires |
| ScoreParsing.Normalise | Shared/TextEvaluator.cs:188-193 | the field-wise `ClampRound` back to `double`; what it yields for each field is stated by `ParsedScoreFields` |
| ScoreParsing.MissingFieldIsAccepted | Shared/TextEvaluator.cs:188-201 | a reply with `appropriateness` missing is accepted, with that field at `int.MinValue` and an ERI below 1 |
| ScoreParsing.ExtractFirstJsonObject | Shared/TextEvaluator.cs:206-210 | null exactly when there is no `{`, or no `}` after the first `{`; otherwise the match starts with `{` and ends with `}` |
| ScoreParsing.ExtractIsLeftmostLongestMatch | Shared/TextEvaluator.cs:208 | the result is the leftmost-longest match of `\{[\s\S]*\}`, running from the first `{` to the last `}`; with no match, no span of the text matches |
| ScoreParsing.ExtractFromProse | Shared/TextEvaluator.cs:206-210 | an object between brace-free prose before it and brace-free prose after it is extracted whole |
| TextEvaluator.EusOutcomeShape | Shared/TextEvaluator.cs:61-83 | a forced-choice result is valid exactly when a text came back and deserialised; an invalid one carries only the item id; a valid one has trimmed choice and rationale, and `Correct` holds exactly when the choice equals the key ignoring case |
| TextEvaluator.EusOutcomeFields | Shared/TextEvaluator.cs:61-65 | for a text reply, a present `choice` or `rationale` is returned trimmed, and a missing one or a `null` answer gives "" |
| TextEvaluator.EusOutcome | Shared/TextEvaluator.cs:61-83 | the result one reply yields; stated by `EusOutcomeShape` and `EusOutcomeFields` |
| TextEvaluator.FailedEusResult | Shared/TextEvaluator.cs:79-82 | the result after a failure, with only the item id set; `EusOutcomeShape` states that every invalid result is this one |
| TextEvaluator.AnswerField | Shared/TextEvaluator.cs:63-65 | `chatResult?.X?.Trim() ?? ""`; stated by `EusOutcomeFields` |
| TextEvaluator.EusRequest | Shared/TextEvaluator.cs:39-58 | the request holds the scenario, the first four options and the seed; `RunEus` sends it |
| TextEvaluator.RunEus | Shared/TextEvaluator.cs:35-84 | the loop makes exactly one request, and its result is the outcome of that first reply |
| TextEvaluator.GenerationCount | Shared/TextEvaluator.cs:96-113 | generation makes between one and five requests |
| TextEvaluator.GenerationBlankBefore | Shared/TextEvaluator.cs:99-108 | every request before the last one got a null or blank reply |
| TextEvaluator.GenerationLast | Shared/TextEvaluator.cs:99-113 | the last reply decides: a non-blank text is returned trimmed; an exception or five blank replies give "" |
| TextEvaluator.GenerationSpec | Shared/TextEvaluator.cs:96-113 | 1..5 requests, blank replies before the last; the result is non-empty exactly when the last reply was a non-blank text, and is then that text trimmed, trimmed and non-blank |
| TextEvaluator.GenerationStopsOnException | Shared/TextEvaluator.cs:97-113 | an exception on attempt k, after blank replies only, ends generation on that attempt with "" |
| TextEvaluator.Generation | Shared/TextEvaluator.cs:96-113 | the text and the number of requests of the retry loop from attempt k on; stated by `GenerationSpec` and the lemmas above |
| TextEvaluator.IsBlankReply | Shared/TextEvaluator.cs:105-106 | a null text or a white-space-only text, the replies the loop retries; `BlankAfterTrim` shows that testing before or after `Trim` agrees |
| TextEvaluator.EriRequest | Shared/TextEvaluator.cs:89-104 | the request holds the scenario, the style and the seed; `RunEri` sends it |
| TextEvaluator.RunEri | Shared/TextEvaluator.cs:87-114 | the loop returns the text, and makes the number of requests, that generation prescribes; the text is "" or a trimmed, non-blank reply |
| TextEvaluator.RatingOfSpec | Shared/TextEvaluator.cs:155-162 | a rating succeeds exactly when the whole text, or else its extracted `{...}` span, parses as a readable score; the strict reading wins when it succeeds, and otherwise the result is the parse of the extracted span |
| TextEvaluator.RatingOf | Shared/TextEvaluator.cs:157-162 | the strict parse, else the parse of the extracted span, else null; stated by `RatingOfSpec` |
| TextEvaluator.RatingOutcome | Shared/TextEvaluator.cs:145-168 | an exception gives null, and a null text is read as ""; what the text yields is stated by `RatingOfSpec` and `RatingOutcomeFields` |
| TextEvaluator.RatingRequest | Shared/TextEvaluator.cs:147-153 | the rating request carries the scenario and the reply to rate; `RunEriAutoRate` sends it |
| TextEvaluator.RatingOutcomeFields | Shared/TextEvaluator.cs:155-162 | every rating that comes back has each field either a sub-score in 1..7 or `int.MinValue` |
| TextEvaluator.LenientRatingExample | Shared/TextEvaluator.cs:157-160 | when the strict parse of chatter around an object fails, the object is rated from the extracted span, with 8.6 clamped to 7 and 0 to 1 |
| TextEvaluator.LenientObjectScore | Shared/TextEvaluator.cs:176-201 | the sample object's fields are normalised to (7, 1, 6, 6, 4) |
| TextEvaluator.RunEriAutoRate | Shared/TextEvaluator.cs:140-169 | one request is made; the result is the strict parse, else the parse of the extracted span, else null; an exception gives null |
| DotNetText.TrimStartSpec | Shared/TextEvaluator.cs:61 | `TrimStart` drops a white-space-only prefix and stops at the first non-white character |
| DotNetText.TrimEndSpec | Shared/TextEvaluator.cs:61 | `TrimEnd` drops a white-space-only suffix and stops at the last non-white character |
| DotNetText.TrimStart | Shared/TextEvaluator.cs:61 | stated by `TrimStartSpec` |
| DotNetText.TrimEnd | Shared/TextEvaluator.cs:61 | stated by `TrimEndSpec` |
| DotNetText.Trim | Shared/ModelProvider.cs:15 | `String.Trim()`; stated by `TrimIsSlice`, `TrimIsTrimmed`, `TrimOfTrimmed` and `TrimEmptyIffBlank` |
| DotNetText.IsWhiteSpace | Shared/ModelProvider.cs:15 | `Char.IsWhiteSpace`, the 25 characters with Unicode's White_Space property |
| DotNetText.IsBlank | Shared/ModelProvider.cs:15 | `IsNullOrWhiteSpace` on a non-null string: every character is white space; `TrimEmptyIffBlank` relates it to `Trim` |
| DotNetText.TrimIsSlice | Shared/ModelProvider.cs:15 | `Trim` returns a contiguous slice of the input with only white space cut off at either end |
| DotNetText.TrimIsTrimmed | Shared/TextEvaluator.cs:105 | a trimmed string has no white space at either end |
| DotNetText.TrimOfTrimmed | Shared/ModelProvider.cs:15 | trimming a trimmed string changes nothing |
| DotNetText.TrimIdempotent | Shared/ModelProvider.cs:15 | trimming twice is trimming once |
| DotNetText.TrimEmptyIffBlank | Shared/TextEvaluator.cs:105-106 | `Trim` gives "" exactly for a white-space-only string |
| DotNetText.BlankAfterTrim | Shared/TextEvaluator.cs:105-106 | `IsNullOrWhiteSpace` gives the same answer before and after `Trim` |
| DotNetText.BlankTrimmedIsEmpty | Shared/ModelProvider.cs:15 | a trimmed string is blank exactly when it is empty |
| DotNetText.Split | Shared/ModelProvider.cs:15 | `Split` yields at least one piece and no piece contains the separator; there is exactly one piece when the separator does not occur |
| DotNetText.JoinSplit | Shared/ModelProvider.cs:15 | joining the pieces with the separator gives back the input |
| DotNetText.SplitJoin | Shared/ModelProvider.cs:15 | splitting a join of separator-free pieces gives back the pieces |
| DotNetText.SplitWithoutSeparator | Shared/ModelProvider.cs:15 | a string without the separator splits into itself |
| DotNetText.SplitAfterPiece | Shared/ModelProvider.cs:15 | a separator-free piece followed by the separator splits off as the first piece |
| DotNetText.SplitAtSeparator | Shared/ModelProvider.cs:15 | a separator splits a string into the pieces before it followed by the pieces after it |
| DotNetText.SplitStep | Shared/ModelProvider.cs:15 | one character in front of a string either starts a new piece (the separator) or joins the first piece |
| DotNetText.Join | Shared/ModelProvider.cs:15 | `String.Join`; `JoinSplit` and `SplitJoin` state that it inverts `Split` |
| DotNetText.IgnoreCaseIsEquivalence | Shared/TextEvaluator.cs:64 | the case-insensitive comparison is reflexive, symmetric and transitive |
| DotNetText.IgnoreCaseOfEmotionNames | Shared/TextEvaluator.cs:64 | a chosen emotion name matches the key's name in any case, umlauts included ("Überrascht" and "überrascht"); a different name, an empty answer or trailing punctuation ("Angst.") do not |
| DotNetText.EqualsOrdinalIgnoreCase | Shared/TextEvaluator.cs:64 | `string.Equals(a, b, OrdinalIgnoreCase)`: equal length and equal upper-case mapping character by character; stated by `IgnoreCaseIsEquivalence` and `IgnoreCaseOfEmotionNames` |
| DotNetText.ToUpperOrdinal | Shared/TextEvaluator.cs:64 | the per-character upper-case mapping `OrdinalIgnoreCase` compares by, for Basic Latin and Latin-1; exercised by `IgnoreCaseOfEmotionNames` |
| Sequences.FirstIndexOf | Shared/TextEvaluator.cs:208 | the first occurrence: absent exactly when the element does not occur; otherwise nothing before it matches |
| Sequences.LastIndexOf | Shared/TextEvaluator.cs:208 | the last occurrence: absent exactly when the element does not occur; otherwise nothing after it matches |
| Sequences.Distinct | Shared/ModelProvider.cs:22 | no duplicates in the result, and an element is in the result exactly when it is in the input |
| Sequences.DistinctKeepsFirstOccurrenceOrder | Shared/ModelProvider.cs:22 | the result lists the elements in the order of their first occurrence |
| Sequences.DistinctOfDistinctElements | Shared/ModelProvider.cs:22 | a sequence without duplicates is unchanged |
| ModelProvider.TrimAll | Shared/ModelProvider.cs:15 | `Select(x => x.Trim())` keeps the length and trims each piece in place |
| ModelProvider.KeepNonBlank | Shared/ModelProvider.cs:15 | `Where(!IsNullOrWhiteSpace)` keeps only non-blank entries, taken from the input |
| ModelProvider.KeepNonBlankOne | Shared/ModelProvider.cs:15 | one entry is kept exactly when it is not blank |
| ModelProvider.KeepNonBlankAppend | Shared/ModelProvider.cs:15 | the filter works entry by entry: filtering two lists one after the other is filtering each, so every non-blank entry is kept, in order |
| ModelProvider.KeepNonBlankMembers | Shared/ModelProvider.cs:15 | an entry is in the result exactly when it is in the input and not blank |
| ModelProvider.TrimAllAppend | Shared/ModelProvider.cs:15 | trimming two lists one after the other is trimming each |
| ModelProvider.ParseModelList | Shared/ModelProvider.cs:15-17 | split, trim, drop blanks; fully determined by `ParseAtComma` and `ParseOnePiece` |
| ModelProvider.ParseAtComma | Shared/ModelProvider.cs:15-17 | a comma splits the value into the names before it followed by the names after it, so every piece is parsed on its own and in comma order |
| ModelProvider.ParseOnePiece | Shared/ModelProvider.cs:15-17 | a value without a comma gives its trimmed self, or nothing when it is blank |
| ModelProvider.CleanPiecesGiveNames | Shared/ModelProvider.cs:15-17 | comma-free pieces, trimmed and filtered, give clean names |
| ModelProvider.TrimmedPieceIsName | Shared/ModelProvider.cs:15 | a comma-free piece that is not blank trims to a non-empty, trimmed, comma-free name |
| ModelProvider.ParsedNamesAreClean | Shared/ModelProvider.cs:15-17 | every parsed name is non-empty, already trimmed and free of commas |
| ModelProvider.ParseEmptyIffAllBlank | Shared/ModelProvider.cs:15-17 | a list is empty exactly when every comma-separated piece is blank |
| ModelProvider.KeepNonBlankEmptyIff | Shared/ModelProvider.cs:15 | the filter gives nothing exactly when every entry is blank |
| ModelProvider.KeepNonBlankOfNonBlank | Shared/ModelProvider.cs:15 | non-blank entries pass the filter unchanged and in order |
| ModelProvider.TrimAllOfModelNames | Shared/ModelProvider.cs:15 | clean names are unchanged by trimming and are not blank |
| ModelProvider.ParseJoinRoundTrip | Shared/ModelProvider.cs:15-17 | parsing clean names joined with commas gives them back, so the parser keeps the comma order and loses no name |
| ModelProvider.ParseExample | Shared/ModelProvider.cs:15 | `" a, ,b "` parses to `["a", "b"]` |
| ModelProvider.SplitExample | Shared/ModelProvider.cs:15 | `" a, ,b "` splits into three pieces |
| ModelProvider.SplitTailExample | Shared/ModelProvider.cs:15 | `" ,b "` splits into `" "` and `"b "` |
| ModelProvider.TrimAllExample | Shared/ModelProvider.cs:15 | those pieces trim to `"a"`, `""` and `"b"` |
| ModelProvider.TrimExample | Shared/ModelProvider.cs:15 | padding on either side is removed, and a lone space becomes "" |
| ModelProvider.KeepNonBlankExample | Shared/ModelProvider.cs:15 | the blank middle entry is dropped |
| ModelProvider.ProviderNamesAreClean | Shared/ModelProvider.cs:13-21 | every name in a constructed provider's `Models` is non-empty, trimmed and free of commas |
| ModelProvider.ConcatModelNames | Shared/ModelProvider.cs:21 | concatenating clean lists gives a clean list |
| ModelProvider.ModelsLayout | Shared/ModelProvider.cs:21 | `Models` is the OpenAI list, then the Ollama list, then the Ollama Cloud list, with nothing added or lost |
| ModelProvider.AllModelsSpec | Shared/ModelProvider.cs:22 | `AllModels` has no duplicates, holds exactly the subject models and the judge, and keeps first-occurrence order |
| ModelProvider.AllModelsOfDistinctNames | Shared/ModelProvider.cs:22 | with distinct names and a judge that is not a subject, `AllModels` is `Models` followed by the judge |
| ModelProvider.LanesPartitionModels | Shared/ModelProvider.cs:27-28 | `ParallelModels` followed by `SequentialModels` is `Models`; no model is in both lanes |
| ModelProvider.NewModelProvider | Shared/ModelProvider.cs:13-19 | the constructor parses the three lists and keeps `ERI_MODEL` as it is; stated by `ProviderNamesAreClean` |
| ModelProvider.ModelProvider.Models | Shared/ModelProvider.cs:21 | stated by `ModelsLayout` and `ConcatModelNames` |
| ModelProvider.ModelProvider.AllModels | Shared/ModelProvider.cs:22 | stated by `AllModelsSpec` and `AllModelsOfDistinctNames` |
| ModelProvider.ModelProvider.ParallelModels | Shared/ModelProvider.cs:27 | every subject model; stated by `LanesPartitionModels` |
| ModelProvider.ModelProvider.SequentialModels | Shared/ModelProvider.cs:28 | no model; stated by `LanesPartitionModels` |
| EvaluationRunner.EusBatchShape | Shared/EvaluationRunner.cs:57-70 | one record per item, in item order, carrying item i's id and the model's name |
| EvaluationRunner.EusBatchEntries | Shared/EvaluationRunner.cs:59-65 | record i is item i's round trip with seed 0, stamped with the model |
| EvaluationRunner.EusRecord | Shared/EvaluationRunner.cs:63-64 | one item's round trip with seed 0, then `Model` set; stated by `EusBatchEntries` and `EusOutcomeShape` |
| EvaluationRunner.EusBatch | Shared/EvaluationRunner.cs:57-70 | the list after the items seen so far; stated by `EusBatchEntries` and `EusBatchShape` |
| EvaluationRunner.EvaluateEusForModel | Shared/EvaluationRunner.cs:55-71 | the item loop builds exactly the batch: `Items.Length` records, in item order, each stamped with the model |
| EvaluationRunner.EriBatchLayout | Shared/EvaluationRunner.cs:78-118 | 2·`Items.Length` records; records 2i and 2i+1 are item i's neutral and empathic records |
| EvaluationRunner.EriBatchShape | Shared/EvaluationRunner.cs:84-114 | record k carries item k/2's id and the model; `Empathic` is false for even k and true for odd k |
| EvaluationRunner.EriRecord | Shared/EvaluationRunner.cs:84-96 | one record around a text and its rating; stated by `NullScoreIsSentinel` |
| EvaluationRunner.EriPair | Shared/EvaluationRunner.cs:82-114 | the neutral record rated by the judge, then the empathic record rated by the model; stated by `EriPairTexts` |
| EvaluationRunner.EriBatch | Shared/EvaluationRunner.cs:78-118 | the list after the items seen so far; stated by `EriBatchLayout` and `EriBatchShape` |
| EvaluationRunner.EriReply | Shared/EvaluationRunner.cs:82 | the text `RunEriAsync` returns with seed 0 (also line 99); `RunEri` proves the loop returns exactly this, and `GenerationSpec` states what it is |
| EvaluationRunner.EriBatchStep | Shared/EvaluationRunner.cs:78-114 | one more item adds its pair at the end |
| EvaluationRunner.EriPairTexts | Shared/EvaluationRunner.cs:82-112 | each record's `Result` is the text it was built from; the neutral record holds the six values of the judge's rating of the neutral text, the empathic record those of the model's own rating of the empathic text, and a record holds −1 exactly when its rating is null |
| EvaluationRunner.HoldsRating | Shared/EvaluationRunner.cs:89-94 | a record's six numeric fields are a rating's five sub-scores and its mean, or all −1 for a null rating (`score?.X ?? -1`) |
| EvaluationRunner.NullScoreIsSentinel | Shared/EvaluationRunner.cs:89-94 | a null rating puts −1 in all six numeric fields; otherwise the fields are the rating's and ERI is its mean; a −1 in any one field marks a null rating, because a real rating never has −1 (also lines 106-111) |
| EvaluationRunner.MeanIsNeverSentinel | Shared/EvaluationRunner.cs:94 | the mean of five fields, each in 1..7 or `int.MinValue`, is never −1 |
| EvaluationRunner.EvaluateEriForModel | Shared/EvaluationRunner.cs:73-121 | the item loop builds exactly the batch: two records per item, neutral then empathic, each with the item's id and the model |
| EvaluationRunner.Indices | Shared/EvaluationRunner.cs:38-48 | the lane numbers 0..n−1 in order |
| EvaluationRunner.ScheduleInRange | Shared/EvaluationRunner.cs:38-48 | every step of a schedule names an existing lane |
| EvaluationRunner.ScheduleVisitsEachLaneOnce | Shared/EvaluationRunner.cs:38-48 | every model's batch is added exactly once |
| EvaluationRunner.IndicesOccurOnce | Shared/EvaluationRunner.cs:38-48 | each lane number occurs once in 0..n−1 |
| EvaluationRunner.IsLaneSchedule | Shared/EvaluationRunner.cs:38-48 | the possible orders of `AddRange`: each lane once, the sequential models in their order; its consequences are `ScheduleInRange`, `ScheduleVisitsEachLaneOnce` and `SequentialBatchesInLaneOrder` |
| EvaluationRunner.Gather | Shared/EvaluationRunner.cs:41-47 | the list after the lanes of an order have added their batches; stated by the lemmas below |
| EvaluationRunner.InLaneOrder | Shared/EvaluationRunner.cs:37-52 | every batch in lane order, what a sequential run gives; the reference for `ScheduleCollectsEveryBatch` |
| EvaluationRunner.GatherAppend | Shared/EvaluationRunner.cs:41-47 | adding two runs of batches one after the other gives the two lists concatenated |
| EvaluationRunner.GatherPermutation | Shared/EvaluationRunner.cs:37-52 | visiting the same lanes in another order gives the same records, rearranged |
| EvaluationRunner.GatherRemove | Shared/EvaluationRunner.cs:41-47 | removing one lane's visit removes exactly its batch from the records |
| EvaluationRunner.MultisetWithout | Shared/EvaluationRunner.cs:41-47 | taking a middle block out of a list takes exactly its elements out of the multiset |
| EvaluationRunner.PositionOf | Shared/EvaluationRunner.cs:37-52 | the last lane of one schedule occurs in any rearrangement of it, and the rest of the rearrangement rearranges the rest |
| EvaluationRunner.GatherSingle | Shared/EvaluationRunner.cs:41-47 | visiting one more lane appends exactly that lane's batch |
| EvaluationRunner.InLaneOrderIsGather | Shared/EvaluationRunner.cs:37-52 | visiting every lane in order gives all batches in lane order |
| EvaluationRunner.RemoveOne | Shared/EvaluationRunner.cs:37-52 | removing one position from a schedule removes one occurrence of its lane |
| EvaluationRunner.GatherInLaneOrder | Shared/EvaluationRunner.cs:37-52 | visiting lanes 0..k−1 in order gives their batches in lane order |
| EvaluationRunner.BatchIsContiguous | Shared/EvaluationRunner.cs:41-47 | the batch added at step k sits whole and unbroken directly after the batches added before it |
| EvaluationRunner.BatchesInScheduleOrder | Shared/EvaluationRunner.cs:41-47 | a batch added earlier ends before a later one begins |
| EvaluationRunner.SequentialBatchesInLaneOrder | Shared/EvaluationRunner.cs:44-48 | the sequential lane's batches appear in lane order |
| EvaluationRunner.ScheduleCollectsEveryBatch | Shared/EvaluationRunner.cs:37-52 | whatever the interleaving, the list holds every record of every batch, as often as a sequential run would, and has the total length of all batches |
| EvaluationRunner.GatherCollectsEveryBatch | Shared/EvaluationRunner.cs:37-52 | any order that visits every lane once collects the records of the lane-order run, and as many |
| EvaluationRunner.InLaneOrderLength | Shared/EvaluationRunner.cs:37-52 | batches of equal length give lanes × length records |
| EvaluationRunner.Evaluate | Shared/EvaluationRunner.cs:35-53 | the lane driver builds the list that the schedule determines, and it is a rearrangement of all batches in lane order |
| EvaluationRunner.EvaluateEus | Shared/EvaluationRunner.cs:30-31 | every subject model's forced-choice batch is collected; there are models × items records |
| EvaluationRunner.EusLane | Shared/EvaluationRunner.cs:31 | `_evaluateEusAsync` as the function the lane driver is given: a model's forced-choice batch with that model's client; `EvaluateEus` states its use |
| EvaluationRunner.EvaluateEri | Shared/EvaluationRunner.cs:26-33 | every subject model's open-ended batch is collected, with the judge being the client registered under `ERI_MODEL`; there are models × 2 × items records |
| EvaluationRunner.EriLane | Shared/EvaluationRunner.cs:33 | `_evaluateEriAsync` as the function the lane driver is given: a model's open-ended batch with that model's client and the judge; `EvaluateEri` states its use |

## Left out

- The chat model calls (`GetResponseAsync`) are network I/O. They are modelled only as an oracle from request and attempt number to a reply.
  - The oracle returns the same reply for the same request on the same attempt.
  - Two identical requests in one run therefore get the same reply, for example two items with the same scenario and options.
- `JsonDocument.Parse`, `GetDouble` and `JsonSerializer.Deserialize` come from a JSON library. They are abstracted as functions into small result types, and no JSON text is parsed.
- `Parallel.ForEachAsync` and the unsynchronised `List<T>.AddRange` from parallel lambdas are concurrency.
  - The concurrent `AddRange` calls are a data race. On real hardware this can lose records, leave default (null) slots in the list, or throw an `ArgumentException` that `await paralelTask` (Shared/EvaluationRunner.cs:50) rethrows, aborting the run.
  - The model treats each `AddRange` as atomic and fixes the interleaving with the schedule parameter.
- Timing (`Stopwatch`, `DurationMs`) is left out. `EusResult` has no latency field.
- The Console progress percentage is I/O over floating point, and is left out.
- The prompt texts are left out. A request keeps only the parts that vary: scenario, options, style, rated response and seed.
- Shared/DI.cs (client registration) is not part of this model; the keyed client lookup is the `clients` parameter. EmotionRating/Program.cs (CSV output) is not part of this model, and neither are Shared/EusProvider.cs and Shared/EriProvider.cs (item bank files).
- The environment is not read:
  - `Environment.GetEnvironmentVariable` reads become parameters.
  - A missing variable (null, where `Split` throws) is not modelled.
  - The runner's own read of `ERI_MODEL` is taken to be the same string as the provider's `EriModel`.
- ScoreParsing.EriAutoScore.ERI: computes the mean in exact real arithmetic, not in IEEE doubles. The rounding of `Average`, and infinities (which `GetDouble` never returns for JSON numbers), are not modelled.
- ScoreParsing.ToInt32: models the saturating `(int)` conversion of .NET 9 and later.
  - On older x86/x64 runtimes an out-of-range value converts to `int.MinValue`, which clamps to 1.
  - On those runtimes `ClampRound(1e12)` is 1 where the model gives 7.
  - Values within the 32-bit range are unaffected.
- DotNetText.EqualsOrdinalIgnoreCase: upper-cases ASCII and Latin-1 letters only, the range the item banks use. The other Unicode case pairs that `OrdinalIgnoreCase` knows are not modelled.
- EvaluationRunner.EvaluateEusForModel: requires every item to have four options. With fewer, the source throws outside its `try` (Shared/TextEvaluator.cs:39-46), which aborts the run.
- A null `Key` or null item fields are not modelled; strings are never null, except where the model uses `Option`.
