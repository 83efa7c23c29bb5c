/**
  The benchmark's external collaborators, reduced to what the core sees of
  them: the item records the item banks supply, the chat client as an
  oracle, and the results of the two JSON readers (`JsonDocument.Parse` for
  the rater, `JsonSerializer.Deserialize<EusChatResult>` for the forced-choice
  answer).
 */
module Collaborators {
  import opened Wrappers

  /** A forced-choice item: scenario, answer options and the ground-truth key. */
  datatype EusItem = EusItem(id: string, scenario: string, options: seq<string>, key: string)

  /** An open-ended scenario. */
  datatype EriItem = EriItem(id: string, scenario: string)

  /**
    What varies between the requests the core sends: the interpolated parts
    of the user message and the sampling seed. The constant system prompts
    and the surrounding prompt wording belong to the request kind.
   */
  datatype Request =
    | EusPrompt(scenario: string, optionA: string, optionB: string, optionC: string, optionD: string, seed: int)
    | EriPrompt(scenario: string, empathic: bool, seed: int)
    | RatingPrompt(scenario: string, response: string)

  /** The outcome of one `GetResponseAsync` round trip: an exception, a response whose `Text` is null, or a text. */
  datatype Reply = Threw | NullText | Text(text: string)

  /**
    A chat client, as an oracle: the reply it gives to a request on the given
    attempt (counted from 0) of one protocol call. A model with no registered
    client (the keyed lookup gives null) is an oracle that always throws.
   */
  type ChatClient = (Request, nat) -> Reply

  /** A JSON value as `JsonElement.GetDouble` sees it: a number it can read, or anything else (it throws). */
  datatype JsonValue = JsonNumber(number: real) | JsonOther

  /**
    The result of `JsonDocument.Parse`: a parse error, a root that is not an
    object (`TryGetProperty` throws), or an object with its properties.
   */
  datatype ParsedJson = Unparseable | NonObjectRoot | ObjectRoot(properties: map<string, JsonValue>)

  /**
    The result of `JsonSerializer.Deserialize<EusChatResult>`: a `JsonException`,
    the JSON literal `null`, or an object whose `choice` and `rationale`
    properties are present (Some) or missing (None).
   */
  datatype EusAnswer = MalformedAnswer | NullAnswer | Answer(choice: Option<string>, rationale: Option<string>)
}
