/**
  The protocol half of the text evaluator: one forced-choice round trip
  (`RunEusAsync`), generation of a free-text reply (`RunEriAsync`) and the
  automated rating of a reply (`RunEriAutoRateAsync`). Each wraps its whole
  `while (retryCount++ < 5)` loop in one `try`, so an exception ends the loop
  at once; a `Threw` reply is that exception.
 */
module TextEvaluator {
  import opened Wrappers
  import opened DotNetText
  import opened Collaborators
  import opened ScoreParsing

  /** The retry budget of every protocol loop. */
  const MaxAttempts: nat := 5

  /** `EusResult` without its latency; `None` stands for a null string. */
  datatype EusResult = EusResult(isValid: bool, model: Option<string>, itemId: string, choice: Option<string>,
                                 correct: bool, rationale: Option<string>)

  /** The result returned after a failure: only `ItemId` is set. */
  function FailedEusResult(item: EusItem): EusResult
  {
    EusResult(false, None, item.id, None, false, None)
  }

  /** `chatResult?.X?.Trim() ?? ""`. */
  function AnswerField(answer: EusAnswer, field: Option<string>): string
  {
    if answer.Answer? && field.Some? then Trim(field.value) else ""
  }

  /** The forced-choice request: scenario, the first four options and the seed. */
  function EusRequest(item: EusItem, seed: int): Request
    requires |item.options| >= 4
  {
    EusPrompt(item.scenario, item.options[0], item.options[1], item.options[2], item.options[3], seed)
  }

  /**
    What one forced-choice round trip yields for a reply: a null text fails
    (`result.Text.Trim()` throws), and so does an answer that does not
    deserialise; otherwise the trimmed choice and rationale, defaulting to "".
   */
  function EusOutcome(reply: Reply, item: EusItem, deserialize: string -> EusAnswer): EusResult
  {
    if reply.Threw? || reply.NullText? then FailedEusResult(item)
    else
      var answer := deserialize(Trim(reply.text));
      if answer.MalformedAnswer? then FailedEusResult(item)
      else
        var choice := AnswerField(answer, if answer.Answer? then answer.choice else None);
        var rationale := AnswerField(answer, if answer.Answer? then answer.rationale else None);
        EusResult(true, None, item.id, Some(choice), EqualsOrdinalIgnoreCase(choice, item.key), Some(rationale))
  }

  /**
    A forced-choice result is valid exactly when a text came back and
    deserialised. An invalid one carries only the item id; a valid one has
    trimmed choice and rationale, and is correct exactly when the choice
    equals the key up to case.
   */
  lemma EusOutcomeShape(reply: Reply, item: EusItem, deserialize: string -> EusAnswer)
    ensures var r := EusOutcome(reply, item, deserialize);
      && r.itemId == item.id && r.model == None
      && (r.isValid <==> reply.Text? && !deserialize(Trim(reply.text)).MalformedAnswer?)
      && (!r.isValid ==> r.choice == None && r.rationale == None && !r.correct)
      && (r.isValid ==> r.choice.Some? && r.rationale.Some?
                        && IsTrimmed(r.choice.value) && IsTrimmed(r.rationale.value)
                        && (r.correct <==> EqualsOrdinalIgnoreCase(r.choice.value, item.key)))
  {
    if reply.Text? {
      var answer := deserialize(Trim(reply.text));
      if answer.Answer? {
        if answer.choice.Some? { TrimIsTrimmed(answer.choice.value); }
        if answer.rationale.Some? { TrimIsTrimmed(answer.rationale.value); }
      }
    }
  }

  /**
    The fields of a valid result: the deserialised choice and rationale,
    trimmed, and "" for a missing property or a `null` answer.
   */
  lemma EusOutcomeFields(reply: Reply, item: EusItem, deserialize: string -> EusAnswer)
    requires reply.Text?
    ensures var r, a := EusOutcome(reply, item, deserialize), deserialize(Trim(reply.text));
      && (a.Answer? && a.choice.Some? ==> r.choice == Some(Trim(a.choice.value)))
      && (a.Answer? && a.rationale.Some? ==> r.rationale == Some(Trim(a.rationale.value)))
      && (a.NullAnswer? || (a.Answer? && a.choice.None?) ==> r.choice == Some(""))
      && (a.NullAnswer? || (a.Answer? && a.rationale.None?) ==> r.rationale == Some(""))
  {
  }

  /**
    `RunEusAsync`. The options are read before the `try`, so an item with
    fewer than four options fails the caller. The loop body returns on its
    first pass, so exactly one request is made.
   */
  method RunEus(client: ChatClient, item: EusItem, seed: int, deserialize: string -> EusAnswer)
    returns (r: EusResult, ghost attempts: nat)
    requires |item.options| >= 4
    ensures attempts == 1
    ensures r == EusOutcome(client(EusRequest(item, seed), 0), item, deserialize)
  {
    var request := EusRequest(item, seed);
    ghost var expected := EusOutcome(client(request, 0), item, deserialize);
    var retryCount := 0;
    var returned: Option<EusResult> := None;  // the `return` inside the loop
    var caught := false;                      // the `catch` after the loop
    while returned.None? && !caught && retryCount < MaxAttempts
      invariant retryCount <= 1
      invariant retryCount == 0 <==> returned.None? && !caught
      invariant returned.Some? ==> returned.value == expected
      invariant caught ==> expected == FailedEusResult(item)
    {
      retryCount := retryCount + 1;
      var reply := client(request, retryCount - 1);
      if reply.Threw? || reply.NullText? {
        caught := true;
      } else {
        var text := Trim(reply.text);
        var chatResult := deserialize(text);
        if chatResult.MalformedAnswer? {
          caught := true;
        } else {
          var choice := AnswerField(chatResult, if chatResult.Answer? then chatResult.choice else None);
          var correct := EqualsOrdinalIgnoreCase(choice, item.key);
          var rationale := AnswerField(chatResult, if chatResult.Answer? then chatResult.rationale else None);
          returned := Some(EusResult(true, None, item.id, Some(choice), correct, Some(rationale)));
        }
      }
    }
    attempts := retryCount;
    r := if returned.Some? then returned.value else FailedEusResult(item);
  }

  /** The generation request: scenario, style and seed. */
  function EriRequest(item: EriItem, empathic: bool, seed: int): Request
  {
    EriPrompt(item.scenario, empathic, seed)
  }

  /** A reply that `RunEriAsync` retries: a null text, or one that is white space only. */
  predicate IsBlankReply(reply: Reply)
  {
    reply.NullText? || (reply.Text? && IsBlank(reply.text))
  }

  /**
    The text `RunEriAsync` returns and the number of requests it makes, when
    its attempts from `k` on are still to come.
   */
  function Generation(client: ChatClient, request: Request, k: nat): (string, nat)
    requires k <= MaxAttempts
    decreases MaxAttempts - k
  {
    if k == MaxAttempts then ("", k)
    else
      var reply := client(request, k);
      if reply.Threw? then ("", k + 1)
      else if IsBlankReply(reply) then Generation(client, request, k + 1)
      else (Trim(reply.text), k + 1)
  }

  lemma {:induction false} GenerationCount(client: ChatClient, request: Request, k: nat)
    requires k < MaxAttempts
    ensures k < Generation(client, request, k).1 <= MaxAttempts
    decreases MaxAttempts - k
  {
    var reply := client(request, k);
    if !reply.Threw? && IsBlankReply(reply) && k + 1 < MaxAttempts {
      GenerationCount(client, request, k + 1);
    }
  }

  lemma {:induction false} GenerationBlankBefore(client: ChatClient, request: Request, k: nat)
    requires k <= MaxAttempts
    ensures forall j :: k <= j < Generation(client, request, k).1 - 1 ==> IsBlankReply(client(request, j))
    decreases MaxAttempts - k
  {
    var reply := client(request, k);
    if k < MaxAttempts && !reply.Threw? && IsBlankReply(reply) {
      GenerationBlankBefore(client, request, k + 1);
      if k + 1 < MaxAttempts {
        GenerationCount(client, request, k + 1);
      }
    }
  }

  /** The last attempt decides: a trimmed non-blank text is returned, an exception or an exhausted budget gives "". */
  lemma {:induction false} GenerationLast(client: ChatClient, request: Request, k: nat)
    requires k < MaxAttempts
    ensures var g := Generation(client, request, k);
      g.1 >= 1 &&
      var last := client(request, g.1 - 1);
      && (g.0 != "" <==> !last.Threw? && !IsBlankReply(last))
      && (g.0 != "" ==> g.0 == Trim(last.text))
      && (g.0 == "" ==> g.1 == MaxAttempts || last.Threw?)
    decreases MaxAttempts - k
  {
    var reply := client(request, k);
    if !reply.Threw? && IsBlankReply(reply) {
      if k + 1 < MaxAttempts {
        GenerationLast(client, request, k + 1);
        GenerationCount(client, request, k + 1);
      }
    } else if !reply.Threw? {
      TrimEmptyIffBlank(reply.text);
    }
  }

  /**
    `RunEriAsync` makes one to five requests and stops at the first reply that
    is not blank, returning it trimmed; an exception stops it at once with "";
    every request before the last one got a blank reply.
   */
  lemma GenerationSpec(client: ChatClient, request: Request)
    ensures var (text, n) := Generation(client, request, 0);
      && 1 <= n <= MaxAttempts
      && (forall j :: 0 <= j < n - 1 ==> IsBlankReply(client(request, j)))
      && (text != "" <==> !client(request, n - 1).Threw? && !IsBlankReply(client(request, n - 1)))
      && (text != "" ==> text == Trim(client(request, n - 1).text) && IsTrimmed(text) && !IsBlank(text))
      && (text == "" ==> n == MaxAttempts || client(request, n - 1).Threw?)
  {
    GenerationCount(client, request, 0);
    GenerationBlankBefore(client, request, 0);
    GenerationLast(client, request, 0);
    var (text, n) := Generation(client, request, 0);
    if text != "" {
      TrimIsTrimmed(client(request, n - 1).text);
    }
  }

  /** An exception on attempt `k`, after blank replies only from attempt `j` on, ends generation there with "". */
  lemma {:induction false} GenerationStopsOnException(client: ChatClient, request: Request, j: nat, k: nat)
    requires j <= k < MaxAttempts && client(request, k).Threw?
    requires forall i :: j <= i < k ==> IsBlankReply(client(request, i))
    ensures Generation(client, request, j) == ("", k + 1)
    decreases k - j
  {
    if j < k {
      assert IsBlankReply(client(request, j));
      GenerationStopsOnException(client, request, j + 1, k);
    }
  }

  /** `RunEriAsync`: the first non-blank trimmed reply within five attempts, or "". */
  method RunEri(client: ChatClient, item: EriItem, empathic: bool, seed: int) returns (text: string, ghost attempts: nat)
    ensures text == Generation(client, EriRequest(item, empathic, seed), 0).0
    ensures attempts == Generation(client, EriRequest(item, empathic, seed), 0).1
    ensures text == "" || (IsTrimmed(text) && !IsBlank(text))
  {
    GenerationSpec(client, EriRequest(item, empathic, seed));
    var request := EriRequest(item, empathic, seed);
    var retryCount := 0;
    while retryCount < MaxAttempts
      invariant retryCount <= MaxAttempts
      invariant Generation(client, request, retryCount) == Generation(client, request, 0)
    {
      retryCount := retryCount + 1;
      var reply := client(request, retryCount - 1);
      if reply.Threw? {
        break;
      }
      var trimmed := if reply.NullText? then None else Some(Trim(reply.text));
      if reply.Text? {
        BlankAfterTrim(reply.text);
      }
      if trimmed.Some? && !IsBlank(trimmed.value) {
        return trimmed.value, retryCount;
      }
    }
    return "", retryCount;
  }

  /** The rating request: the scenario and the reply to rate. */
  function RatingRequest(scenario: string, response: string): Request
  {
    RatingPrompt(scenario, response)
  }

  /** The two-tier reading of a rater's text: strict, then the extracted `{...}` span. */
  function RatingOf(text: string, parse: string -> ParsedJson): Option<EriAutoScore>
  {
    var strict := TryParseScoreJson(text, parse);
    if strict.Some? then strict
    else match ExtractFirstJsonObject(text)
      case None => None
      case Some(json) => TryParseScoreJson(json, parse)
  }

  /** What `RunEriAutoRateAsync` returns for the rater's reply (a null text reads as ""). */
  function RatingOutcome(reply: Reply, parse: string -> ParsedJson): Option<EriAutoScore>
  {
    match reply
    case Threw => None
    case NullText => RatingOf(Trim(""), parse)
    case Text(t) => RatingOf(Trim(t), parse)
  }

  /**
    A rating succeeds exactly when the text, or else its extracted span,
    parses as a readable score; the strict reading wins when it succeeds.
   */
  lemma RatingOfSpec(text: string, parse: string -> ParsedJson)
    ensures IsReadableScore(parse(text)) ==> RatingOf(text, parse) == TryParseScoreJson(text, parse)
    ensures RatingOf(text, parse).Some? <==>
      IsReadableScore(parse(text))
      || (ExtractFirstJsonObject(text).Some? && IsReadableScore(parse(ExtractFirstJsonObject(text).value)))
    ensures ExtractFirstJsonObject(text).None? && !IsReadableScore(parse(text)) ==> RatingOf(text, parse).None?
    ensures !IsReadableScore(parse(text)) && ExtractFirstJsonObject(text).Some? ==>
      RatingOf(text, parse) == TryParseScoreJson(ExtractFirstJsonObject(text).value, parse)
  {
  }

  /** Every rating that comes back holds in each field a sub-score in 1..7 or exactly `int.MinValue`. */
  lemma RatingOutcomeFields(reply: Reply, parse: string -> ParsedJson)
    requires RatingOutcome(reply, parse).Some?
    ensures var s := RatingOutcome(reply, parse).value;
      && (IsSubScore(s.warmth) || s.warmth == Finite(IntMinValue as real))
      && (IsSubScore(s.intensity) || s.intensity == Finite(IntMinValue as real))
      && (IsSubScore(s.appropriateness) || s.appropriateness == Finite(IntMinValue as real))
      && (IsSubScore(s.valence) || s.valence == Finite(IntMinValue as real))
      && (IsSubScore(s.arousal) || s.arousal == Finite(IntMinValue as real))
  {
    var text := if reply.Text? then Trim(reply.text) else Trim("");
    if TryParseScoreJson(text, parse).Some? {
      ParsedScoreFields(text, parse);
    } else {
      ParsedScoreFields(ExtractFirstJsonObject(text).value, parse);
    }
  }

  /**
    The lenient path: chatter around an object that does not parse as a whole
    is rated from the object; 8.6 becomes 7 and 0 becomes 1.
   */
  lemma LenientRatingExample(prefix: string, obj: string, suffix: string, parse: string -> ParsedJson)
    requires '{' !in prefix && '}' !in suffix
    requires |obj| >= 2 && obj[0] == '{' && obj[|obj| - 1] == '}'
    requires parse(prefix + obj + suffix) == Unparseable
    requires parse(obj) == ObjectRoot(map["warmth" := JsonNumber(8.6), "intensity" := JsonNumber(0.0),
                                          "appropriateness" := JsonNumber(6.0), "valence" := JsonNumber(6.0),
                                          "arousal" := JsonNumber(4.0)])
    ensures RatingOf(prefix + obj + suffix, parse) ==
      Some(EriAutoScore(Finite(7.0), Finite(1.0), Finite(6.0), Finite(6.0), Finite(4.0)))
  {
    ExtractFromProse(prefix, obj, suffix);
    LenientObjectScore(obj, parse);
  }

  lemma LenientObjectScore(obj: string, parse: string -> ParsedJson)
    requires parse(obj) == ObjectRoot(map["warmth" := JsonNumber(8.6), "intensity" := JsonNumber(0.0),
                                          "appropriateness" := JsonNumber(6.0), "valence" := JsonNumber(6.0),
                                          "arousal" := JsonNumber(4.0)])
    ensures TryParseScoreJson(obj, parse) == Some(EriAutoScore(Finite(7.0), Finite(1.0), Finite(6.0), Finite(6.0), Finite(4.0)))
  {
    var p := parse(obj).properties;
    assert GetProperty(p, "warmth") == Some(Finite(8.6));
    assert GetProperty(p, "intensity") == Some(Finite(0.0));
    assert GetProperty(p, "appropriateness") == Some(Finite(6.0));
    assert GetProperty(p, "valence") == Some(Finite(6.0));
    assert GetProperty(p, "arousal") == Some(Finite(4.0));
    ClampRoundExamples();
  }

  /**
    `RunEriAutoRateAsync`: one request (the loop body always returns), strict
    parse, then the extracted span, else null; an exception gives null.
   */
  method RunEriAutoRate(client: ChatClient, scenario: string, response: string, parse: string -> ParsedJson)
    returns (score: Option<EriAutoScore>, ghost attempts: nat)
    ensures attempts == 1
    ensures score == RatingOutcome(client(RatingRequest(scenario, response), 0), parse)
  {
    var request := RatingRequest(scenario, response);
    ghost var expected := RatingOutcome(client(request, 0), parse);
    var retryCount := 0;
    var returned := false;  // the loop body always returns or throws
    score := None;
    while !returned && retryCount < MaxAttempts
      invariant retryCount <= 1
      invariant retryCount == 0 <==> !returned
      invariant returned ==> score == expected
    {
      retryCount := retryCount + 1;
      var reply := client(request, retryCount - 1);
      if reply.Threw? {
        score := None;
      } else {
        var text := Trim(if reply.NullText? then "" else reply.text);
        score := TryParseScoreJson(text, parse);
        if score.None? {
          var json := ExtractFirstJsonObject(text);
          if json.Some? {
            score := TryParseScoreJson(json.value, parse);
          }
        }
        assert score == RatingOf(text, parse);
      }
      returned := true;
    }
    attempts := retryCount;
  }
}
