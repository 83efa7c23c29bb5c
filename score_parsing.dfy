/**
  The pure half of the text evaluator: normalising a rater's numbers into
  sub-scores, the composite index, and the lenient reading of rater output
  (strict JSON, or the span from the first `{` to the last `}`).
 */
module ScoreParsing {
  import opened Wrappers
  import opened Collaborators
  import opened Sequences

  const IntMinValue: int := -2147483648
  const IntMaxValue: int := 2147483647

  /** A C# `double`; the finite values are taken as exact reals. */
  datatype Double = NaN | Finite(value: real)

  function Dist(x: real, y: real): real
  {
    if x >= y then x - y else y - x
  }

  /** `Math.Round(double)`: the nearest integer, ties going to the even one. */
  function RoundHalfEven(x: real): (n: int)
    ensures Dist(x, n as real) <= 0.5
    ensures Dist(x, n as real) == 0.5 ==> n % 2 == 0
  {
    var f := x.Floor;
    var d := x - f as real;
    if d < 0.5 then f
    else if d > 0.5 then f + 1
    else if f % 2 == 0 then f else f + 1
  }

  /** Nearest-integer rounding with ties to even has exactly one answer. */
  lemma RoundHalfEvenUnique(x: real, m: int)
    requires Dist(x, m as real) <= 0.5
    requires Dist(x, m as real) == 0.5 ==> m % 2 == 0
    ensures m == RoundHalfEven(x)
  {
  }

  /** The `(int)` conversion of a rounded double, saturating outside the 32-bit range. */
  function ToInt32(n: int): (r: int)
    ensures IntMinValue <= r <= IntMaxValue
    ensures IntMinValue <= n <= IntMaxValue ==> r == n
  {
    if n < IntMinValue then IntMinValue else if n > IntMaxValue then IntMaxValue else n
  }

  /** `ClampRound`: NaN becomes `int.MinValue`; anything else is rounded and clamped into 1..7. */
  function ClampRound(v: Double): (r: int)
    ensures v.NaN? ==> r == IntMinValue
    ensures v.Finite? ==> 1 <= r <= 7
  {
    match v
    case NaN => IntMinValue
    case Finite(x) =>
      var n := ToInt32(RoundHalfEven(x));
      var upper := if 7 < n then 7 else n;
      if 1 > upper then 1 else upper
  }

  /**
    On a number, `ClampRound` gives the score in 1..7 nearest to it, and of
    two equally near scores the even one.
   */
  lemma ClampRoundIsNearestScore(x: real, n: int)
    requires 1 <= n <= 7
    ensures Dist(x, ClampRound(Finite(x)) as real) <= Dist(x, n as real)
    ensures Dist(x, ClampRound(Finite(x)) as real) == Dist(x, n as real) ==>
              n == ClampRound(Finite(x)) || ClampRound(Finite(x)) % 2 == 0
  {
    var m := RoundHalfEven(x);
    var r := ClampRound(Finite(x));
    if m < 1 {
      assert x <= 0.5 && r == 1;
    } else if m > 7 {
      assert x >= 7.5 && r == 7;
    } else {
      assert r == m;
      if n != m {
        assert Dist(m as real, n as real) >= 1.0;
      }
    }
  }

  lemma ClampRoundExamples()
    ensures ClampRound(Finite(8.6)) == 7
    ensures ClampRound(Finite(0.0)) == 1
    ensures ClampRound(Finite(2.5)) == 2 && ClampRound(Finite(3.5)) == 4
    ensures ClampRound(Finite(-1e12)) == 1 && ClampRound(Finite(1e12)) == 7
    ensures ClampRound(NaN) == IntMinValue
    ensures ClampRound(Finite(1.0)) == 1 && ClampRound(Finite(2.0)) == 2 && ClampRound(Finite(3.0)) == 3
    ensures ClampRound(Finite(4.0)) == 4 && ClampRound(Finite(5.0)) == 5 && ClampRound(Finite(6.0)) == 6
    ensures ClampRound(Finite(7.0)) == 7
  {
    RoundHalfEvenUnique(1.0, 1);
    RoundHalfEvenUnique(2.0, 2);
    RoundHalfEvenUnique(3.0, 3);
    RoundHalfEvenUnique(4.0, 4);
    RoundHalfEvenUnique(5.0, 5);
    RoundHalfEvenUnique(6.0, 6);
    RoundHalfEvenUnique(7.0, 7);
    RoundHalfEvenUnique(8.6, 9);
    RoundHalfEvenUnique(0.0, 0);
    RoundHalfEvenUnique(2.5, 2);
    RoundHalfEvenUnique(3.5, 4);
  }

  /** A validated sub-score: an integer from 1 to 7. */
  predicate IsSubScore(d: Double)
  {
    d.Finite? && d.value.Floor as real == d.value && 1.0 <= d.value <= 7.0
  }

  /** `EriAutoScore`: the five sub-scores of one rating. */
  datatype EriAutoScore = EriAutoScore(warmth: Double, intensity: Double, appropriateness: Double, valence: Double, arousal: Double)
  {
    predicate AllFinite()
    {
      warmth.Finite? && intensity.Finite? && appropriateness.Finite? && valence.Finite? && arousal.Finite?
    }

    /**
      `ERI`, the `Average()` of the five sub-scores: NaN as soon as one is NaN,
      otherwise a value between the smallest and the largest of them.
     */
    function ERI(): (e: Double)
      ensures e.Finite? <==> AllFinite()
      ensures e.Finite? ==>
        (warmth.value <= e.value || intensity.value <= e.value || appropriateness.value <= e.value
         || valence.value <= e.value || arousal.value <= e.value)
      ensures e.Finite? ==>
        (warmth.value >= e.value || intensity.value >= e.value || appropriateness.value >= e.value
         || valence.value >= e.value || arousal.value >= e.value)
    {
      if AllFinite() then
        Finite((warmth.value + intensity.value + appropriateness.value + valence.value + arousal.value) / 5.0)
      else NaN
    }
  }

  /** The composite of validated sub-scores is itself within 1..7 (but need not be an integer). */
  lemma EriOfSubScores(s: EriAutoScore)
    requires IsSubScore(s.warmth) && IsSubScore(s.intensity) && IsSubScore(s.appropriateness)
    requires IsSubScore(s.valence) && IsSubScore(s.arousal)
    ensures s.ERI().Finite? && 1.0 <= s.ERI().value <= 7.0
  {
  }

  /** The example of the rater prompt: (6, 5, 6, 6, 4) has composite 5.4. */
  lemma EriExample()
    ensures EriAutoScore(Finite(6.0), Finite(5.0), Finite(6.0), Finite(6.0), Finite(4.0)).ERI() == Finite(5.4)
  {
  }

  /** The local function `Get`: NaN for a missing property, `None` where `GetDouble` throws. */
  function GetProperty(properties: map<string, JsonValue>, name: string): (d: Option<Double>)
    ensures d.None? <==> name in properties && properties[name].JsonOther?
    ensures d == Some(NaN) <==> name !in properties
    ensures name in properties && properties[name].JsonNumber? ==> d == Some(Finite(properties[name].number))
  {
    if name !in properties then Some(NaN)
    else match properties[name]
      case JsonNumber(x) => Some(Finite(x))
      case JsonOther => None
  }

  /** The property is missing or a number `GetDouble` can read. */
  predicate IsReadable(properties: map<string, JsonValue>, name: string)
  {
    name in properties ==> properties[name].JsonNumber?
  }

  /** A parsed document `TryParseScoreJson` accepts: an object whose present score properties are all numbers. */
  predicate IsReadableScore(doc: ParsedJson)
  {
    && doc.ObjectRoot?
    && IsReadable(doc.properties, "warmth")
    && IsReadable(doc.properties, "intensity")
    && IsReadable(doc.properties, "appropriateness")
    && IsReadable(doc.properties, "valence")
    && IsReadable(doc.properties, "arousal")
  }

  function Normalise(d: Double): Double
  {
    Finite(ClampRound(d) as real)
  }

  /**
    `TryParseScoreJson`: reads the five properties, normalises each with
    `ClampRound` and then rejects a NaN sub-score. Every exception (not JSON,
    not an object, a non-numeric property) is the `None` result. The values
    `ClampRound` returns are integers, so the NaN rejection never fires.
   */
  function TryParseScoreJson(json: string, parse: string -> ParsedJson): (score: Option<EriAutoScore>)
    ensures score.Some? <==> IsReadableScore(parse(json))
  {
    match parse(json)
    case Unparseable => None
    case NonObjectRoot => None
    case ObjectRoot(properties) =>
      var w := GetProperty(properties, "warmth");
      var i := GetProperty(properties, "intensity");
      var a := GetProperty(properties, "appropriateness");
      var v := GetProperty(properties, "valence");
      var r := GetProperty(properties, "arousal");
      if w.None? || i.None? || a.None? || v.None? || r.None? then None
      else
        var raw := EriAutoScore(w.value, i.value, a.value, v.value, r.value);
        var s := EriAutoScore(Normalise(raw.warmth), Normalise(raw.intensity), Normalise(raw.appropriateness),
                              Normalise(raw.valence), Normalise(raw.arousal));
        if s.warmth.NaN? || s.intensity.NaN? || s.appropriateness.NaN? || s.valence.NaN? || s.arousal.NaN? then None
        else Some(s)
  }

  /**
    A sub-score as `TryParseScoreJson` leaves it: for a present property, the
    `ClampRound` of its number, so a score in 1..7; `int.MinValue` for a
    missing one.
   */
  predicate IsParsedField(d: Double, properties: map<string, JsonValue>, name: string)
  {
    if name in properties then
      && properties[name].JsonNumber?
      && d == Finite(ClampRound(Finite(properties[name].number)) as real)
      && IsSubScore(d)
    else d == Finite(IntMinValue as real)
  }

  /**
    An accepted rating holds, per property, the number the rater gave rounded
    and clamped into 1..7, or exactly `int.MinValue` when it was missing.
   */
  lemma ParsedScoreFields(json: string, parse: string -> ParsedJson)
    requires TryParseScoreJson(json, parse).Some?
    ensures var s, p := TryParseScoreJson(json, parse).value, parse(json).properties;
      && IsParsedField(s.warmth, p, "warmth")
      && IsParsedField(s.intensity, p, "intensity")
      && IsParsedField(s.appropriateness, p, "appropriateness")
      && IsParsedField(s.valence, p, "valence")
      && IsParsedField(s.arousal, p, "arousal")
  {
  }

  /**
    A rating without "appropriateness" is not rejected: it is accepted with
    that sub-score at `int.MinValue`, and its composite is far below 1.
   */
  lemma MissingFieldIsAccepted(json: string, parse: string -> ParsedJson)
    requires parse(json) == ObjectRoot(map["warmth" := JsonNumber(6.0), "intensity" := JsonNumber(5.0),
                                           "valence" := JsonNumber(6.0), "arousal" := JsonNumber(4.0)])
    ensures TryParseScoreJson(json, parse) ==
      Some(EriAutoScore(Finite(6.0), Finite(5.0), Finite(IntMinValue as real), Finite(6.0), Finite(4.0)))
    ensures TryParseScoreJson(json, parse).value.ERI().value < 1.0
  {
    RoundHalfEvenUnique(6.0, 6);
    RoundHalfEvenUnique(5.0, 5);
    RoundHalfEvenUnique(4.0, 4);
  }

  /** `\{[\s\S]*\}` matches `text[s..e]`: it opens with `{` and closes with a later `}`. */
  predicate MatchesAt(text: string, s: nat, e: nat)
  {
    s + 2 <= e <= |text| && text[s] == '{' && text[e - 1] == '}'
  }

  /**
    `ExtractFirstJsonObject`: the value of the regex match, from the first `{`
    to the last `}`, or null (`None`) when no `}` follows the first `{`.
   */
  function ExtractFirstJsonObject(text: string): (m: Option<string>)
    ensures m.None? <==> '{' !in text || '}' !in text[FirstIndexOf(text, '{').value + 1..]
    ensures m.Some? ==> |m.value| >= 2 && m.value[0] == '{' && m.value[|m.value| - 1] == '}'
  {
    match FirstIndexOf(text, '{')
    case None => None
    case Some(i) =>
      match LastIndexOf(text, '}')
      case None => None
      case Some(j) => if i < j then Some(text[i..j + 1]) else None
  }

  /**
    The extraction is the leftmost, longest (greedy) match: nothing matches
    when it gives `None`; otherwise it gives a match that starts at least as
    early and ends at least as late as any other.
   */
  lemma ExtractIsLeftmostLongestMatch(text: string)
    ensures ExtractFirstJsonObject(text).None? ==> forall s: nat, e: nat :: !MatchesAt(text, s, e)
    ensures ExtractFirstJsonObject(text).Some? ==>
      exists s: nat, e: nat :: MatchesAt(text, s, e) && ExtractFirstJsonObject(text) == Some(text[s..e])
        && forall s': nat, e': nat :: MatchesAt(text, s', e') ==> s <= s' && e' <= e
  {
    match FirstIndexOf(text, '{')
    case None =>
    case Some(i) =>
      match LastIndexOf(text, '}')
      case None =>
      case Some(j) =>
        if i < j {
          assert MatchesAt(text, i, j + 1);
        }
  }

  /** Prose around an object: the extraction finds exactly the object when the prose before has no `{` and after has no `}`. */
  lemma ExtractFromProse(prefix: string, obj: string, suffix: string)
    requires '{' !in prefix && '}' !in suffix
    requires |obj| >= 2 && obj[0] == '{' && obj[|obj| - 1] == '}'
    ensures ExtractFirstJsonObject(prefix + obj + suffix) == Some(obj)
  {
    var text := prefix + obj + suffix;
    var i, j := |prefix|, |prefix| + |obj| - 1;
    assert MatchesAt(text, i, j + 1);
    ExtractIsLeftmostLongestMatch(text);
    var s: nat, e: nat :| MatchesAt(text, s, e) && ExtractFirstJsonObject(text) == Some(text[s..e])
                && forall s': nat, e': nat :: MatchesAt(text, s', e') ==> s <= s' && e' <= e;
    assert text[i..j + 1] == obj;
  }
}
