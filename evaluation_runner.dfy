/**
  `EvaluationRunner`: the per-model item loops that turn protocol results
  into records, and the lane driver that collects every model's batch into
  one list. A model's client is `clients(model)` (the keyed service lookup);
  the judge is the client registered under the judge's name.
 */
module EvaluationRunner {
  import opened Wrappers
  import opened Collaborators
  import opened ScoreParsing
  import opened TextEvaluator
  import opened ModelProvider

  // ---------------------------------------------------------------------------
  // Forced-choice items
  // ---------------------------------------------------------------------------

  /** `RunEusAsync` reads four options of every item before its `try`. */
  predicate HasFourOptions(items: seq<EusItem>)
  {
    forall i :: 0 <= i < |items| ==> |items[i].options| >= 4
  }

  /** The record for one item: the round trip with seed 0, then `eusResult.Model = model`. */
  function EusRecord(model: string, item: EusItem, client: ChatClient, deserialize: string -> EusAnswer): EusResult
    requires |item.options| >= 4
  {
    EusOutcome(client(EusRequest(item, 0), 0), item, deserialize).(model := Some(model))
  }

  /** The list `_evaluateEusAsync` builds for the items it has gone through. */
  function EusBatch(model: string, items: seq<EusItem>, client: ChatClient, deserialize: string -> EusAnswer): seq<EusResult>
    requires HasFourOptions(items)
  {
    if items == [] then []
    else EusBatch(model, items[..|items| - 1], client, deserialize) + [EusRecord(model, items[|items| - 1], client, deserialize)]
  }

  /** One record per item, in item order: record `i` is the round trip of item `i`. */
  lemma {:induction false} EusBatchEntries(model: string, items: seq<EusItem>, client: ChatClient, deserialize: string -> EusAnswer)
    requires HasFourOptions(items)
    ensures var r := EusBatch(model, items, client, deserialize);
      && |r| == |items|
      && (forall i :: 0 <= i < |items| ==> r[i] == EusRecord(model, items[i], client, deserialize))
  {
    if items != [] {
      var init := items[..|items| - 1];
      EusBatchEntries(model, init, client, deserialize);
      var r := EusBatch(model, items, client, deserialize);
      forall i | 0 <= i < |items| ensures r[i] == EusRecord(model, items[i], client, deserialize) {
        if i < |init| {
          assert init[i] == items[i];
        }
      }
    }
  }

  /** One record per item, in item order; record `i` comes from item `i` and names the model. */
  lemma EusBatchShape(model: string, items: seq<EusItem>, client: ChatClient, deserialize: string -> EusAnswer)
    requires HasFourOptions(items)
    ensures var r := EusBatch(model, items, client, deserialize);
      && |r| == |items|
      && (forall i :: 0 <= i < |items| ==> r[i].model == Some(model) && r[i].itemId == items[i].id)
  {
    EusBatchEntries(model, items, client, deserialize);
    var r := EusBatch(model, items, client, deserialize);
    forall i | 0 <= i < |items| ensures r[i].model == Some(model) && r[i].itemId == items[i].id {
      EusOutcomeShape(client(EusRequest(items[i], 0), 0), items[i], deserialize);
    }
  }

  /** `_evaluateEusAsync`: one forced-choice round trip per item, each record stamped with the model. */
  method EvaluateEusForModel(model: string, items: seq<EusItem>, client: ChatClient, deserialize: string -> EusAnswer)
    returns (list: seq<EusResult>)
    requires HasFourOptions(items)
    ensures list == EusBatch(model, items, client, deserialize)
    ensures |list| == |items|
    ensures forall i :: 0 <= i < |items| ==> list[i].model == Some(model) && list[i].itemId == items[i].id
  {
    list := [];
    var i := 0;
    while i < |items|
      invariant 0 <= i <= |items|
      invariant list == EusBatch(model, items[..i], client, deserialize)
    {
      var item := items[i];
      var eusResult: EusResult;
      ghost var attempts: nat;
      eusResult, attempts := RunEus(client, item, 0, deserialize);
      eusResult := eusResult.(model := Some(model));
      list := list + [eusResult];
      assert items[..i + 1][..i] == items[..i];
      i := i + 1;
    }
    assert items[..|items|] == items;
    EusBatchShape(model, items, client, deserialize);
  }

  // ---------------------------------------------------------------------------
  // Open-ended items
  // ---------------------------------------------------------------------------

  /** `EriEvaluationResult`. */
  datatype EriEvaluationResult = EriEvaluationResult(
    model: string, itemId: string, empathic: bool,
    warmth: Double, intensity: Double, appropriateness: Double, valence: Double, arousal: Double,
    eri: Double, result: string)

  /** The value `?? -1` puts in every numeric field when the rating is null. */
  const Sentinel: Double := Finite(-1.0)

  /** The record built around one generated text and its rating. */
  function EriRecord(model: string, item: EriItem, empathic: bool, score: Option<EriAutoScore>, result: string): EriEvaluationResult
  {
    match score
    case None => EriEvaluationResult(model, item.id, empathic, Sentinel, Sentinel, Sentinel, Sentinel, Sentinel, Sentinel, result)
    case Some(s) => EriEvaluationResult(model, item.id, empathic, s.warmth, s.intensity, s.appropriateness,
                                        s.valence, s.arousal, s.ERI(), result)
  }

  /** The text `RunEriAsync` generates for an item with seed 0. */
  function EriReply(client: ChatClient, item: EriItem, empathic: bool): string
  {
    Generation(client, EriRequest(item, empathic, 0), 0).0
  }

  /**
    The two records of one item: the neutral reply, rated by the judge, then
    the empathic reply, rated by the model under test itself.
   */
  function EriPair(model: string, item: EriItem, client: ChatClient, judge: ChatClient, parse: string -> ParsedJson)
    : seq<EriEvaluationResult>
  {
    var neutral := EriReply(client, item, false);
    var empathic := EriReply(client, item, true);
    [EriRecord(model, item, false, RatingOutcome(judge(RatingRequest(item.scenario, neutral), 0), parse), neutral),
     EriRecord(model, item, true, RatingOutcome(client(RatingRequest(item.scenario, empathic), 0), parse), empathic)]
  }

  /** The list `_evaluateEriAsync` builds for the items it has gone through. */
  function EriBatch(model: string, items: seq<EriItem>, client: ChatClient, judge: ChatClient, parse: string -> ParsedJson)
    : seq<EriEvaluationResult>
  {
    if items == [] then []
    else EriBatch(model, items[..|items| - 1], client, judge, parse) + EriPair(model, items[|items| - 1], client, judge, parse)
  }

  /** Two records per item: record `k` is record `k % 2` of item `k / 2`'s pair. */
  lemma {:induction false} EriBatchLayout(model: string, items: seq<EriItem>, client: ChatClient, judge: ChatClient,
                                          parse: string -> ParsedJson)
    ensures var r := EriBatch(model, items, client, judge, parse);
      && |r| == 2 * |items|
      && (forall k :: 0 <= k < |r| ==> r[k] == EriPair(model, items[k / 2], client, judge, parse)[k % 2])
  {
    if items != [] {
      var n := |items|;
      var init := items[..n - 1];
      EriBatchLayout(model, init, client, judge, parse);
      var prev := EriBatch(model, init, client, judge, parse);
      var pair := EriPair(model, items[n - 1], client, judge, parse);
      var r := prev + pair;
      forall k | 0 <= k < |r|
        ensures r[k] == EriPair(model, items[k / 2], client, judge, parse)[k % 2]
      {
        if k < |prev| {
          assert r[k] == prev[k];
          assert init[k / 2] == items[k / 2];
        } else {
          var j := k - |prev|;
          assert j == 0 || j == 1;
          assert k / 2 == n - 1 && k % 2 == j;
          assert r[k] == pair[j];
        }
      }
    }
  }

  /**
    Record `k` belongs to item `k / 2` and names the model; it is the neutral
    one for even `k` and the empathic one for odd `k`.
   */
  lemma EriBatchShape(model: string, items: seq<EriItem>, client: ChatClient, judge: ChatClient, parse: string -> ParsedJson)
    ensures var r := EriBatch(model, items, client, judge, parse);
      && |r| == 2 * |items|
      && (forall k :: 0 <= k < |r| ==> r[k].model == model && r[k].itemId == items[k / 2].id && (r[k].empathic <==> k % 2 == 1))
  {
    EriBatchLayout(model, items, client, judge, parse);
    var r := EriBatch(model, items, client, judge, parse);
    forall k | 0 <= k < |r| ensures r[k].model == model && r[k].itemId == items[k / 2].id && (r[k].empathic <==> k % 2 == 1) {
      var pair := EriPair(model, items[k / 2], client, judge, parse);
      assert r[k] == pair[k % 2];
    }
  }

  /**
    The texts of a pair are the two generated replies. The neutral record
    holds the judge's rating of the neutral reply, the empathic record the
    model's own rating of the empathic reply, or -1 where that rating is null.
   */
  lemma EriPairTexts(model: string, item: EriItem, client: ChatClient, judge: ChatClient, parse: string -> ParsedJson)
    ensures var p := EriPair(model, item, client, judge, parse);
      && p[0].result == EriReply(client, item, false)
      && p[1].result == EriReply(client, item, true)
      && !p[0].empathic && p[1].empathic
      && HoldsRating(p[0], RatingOutcome(judge(RatingRequest(item.scenario, p[0].result), 0), parse))
      && HoldsRating(p[1], RatingOutcome(client(RatingRequest(item.scenario, p[1].result), 0), parse))
      && (RatingOutcome(judge(RatingRequest(item.scenario, p[0].result), 0), parse).None? <==> p[0].warmth == Sentinel)
      && (RatingOutcome(client(RatingRequest(item.scenario, p[1].result), 0), parse).None? <==> p[1].warmth == Sentinel)
  {
    var p := EriPair(model, item, client, judge, parse);
    NullScoreIsSentinel(judge(RatingRequest(item.scenario, p[0].result), 0), parse, model, item, false, p[0].result);
    NullScoreIsSentinel(client(RatingRequest(item.scenario, p[1].result), 0), parse, model, item, true, p[1].result);
  }

  /** The six numeric fields of `r` are those of `score`, or all -1 when it is null. */
  predicate HoldsRating(r: EriEvaluationResult, score: Option<EriAutoScore>)
  {
    match score
    case None =>
      r.warmth == r.intensity == r.appropriateness == r.valence == r.arousal == r.eri == Sentinel
    case Some(s) =>
      && r.warmth == s.warmth && r.intensity == s.intensity && r.appropriateness == s.appropriateness
      && r.valence == s.valence && r.arousal == s.arousal && r.eri == s.ERI()
  }

  /**
    `?? -1`: a null rating gives -1 in all six numeric fields; a rating gives
    its five fields and its mean. As a rating's fields are sub-scores or
    `int.MinValue`, -1 in any one field marks a null rating.
   */
  lemma NullScoreIsSentinel(reply: Reply, parse: string -> ParsedJson, model: string, item: EriItem, empathic: bool, result: string)
    ensures var score := RatingOutcome(reply, parse);
      var r := EriRecord(model, item, empathic, score, result);
      && r.model == model && r.itemId == item.id && r.empathic == empathic && r.result == result
      && (score.None? ==> r.warmth == r.intensity == r.appropriateness == r.valence == r.arousal == r.eri == Sentinel)
      && (score.Some? ==> r.warmth == score.value.warmth && r.intensity == score.value.intensity
                          && r.appropriateness == score.value.appropriateness && r.valence == score.value.valence
                          && r.arousal == score.value.arousal && r.eri == score.value.ERI())
      && (r.warmth == Sentinel <==> score.None?)
      && (r.intensity == Sentinel <==> score.None?)
      && (r.appropriateness == Sentinel <==> score.None?)
      && (r.valence == Sentinel <==> score.None?)
      && (r.arousal == Sentinel <==> score.None?)
      && (r.eri == Sentinel <==> score.None?)
  {
    var score := RatingOutcome(reply, parse);
    if score.Some? {
      RatingOutcomeFields(reply, parse);
      MeanIsNeverSentinel(score.value);
    }
  }

  /** A sub-score or `int.MinValue`: what a returned rating holds in each field. */
  predicate IsRatedField(d: Double)
  {
    IsSubScore(d) || d == Finite(IntMinValue as real)
  }

  /** The mean of five rated fields is at least 1 or far below -1, so never -1. */
  lemma MeanIsNeverSentinel(s: EriAutoScore)
    requires IsRatedField(s.warmth) && IsRatedField(s.intensity) && IsRatedField(s.appropriateness)
    requires IsRatedField(s.valence) && IsRatedField(s.arousal)
    ensures s.ERI() != Sentinel
  {
    var sum := s.warmth.value + s.intensity.value + s.appropriateness.value + s.valence.value + s.arousal.value;
    assert s.ERI() == Finite(sum / 5.0);
    if IsSubScore(s.warmth) && IsSubScore(s.intensity) && IsSubScore(s.appropriateness)
       && IsSubScore(s.valence) && IsSubScore(s.arousal) {
      assert sum >= 5.0;
    } else {
      assert sum <= IntMinValue as real + 28.0;
    }
  }

  /** `_evaluateEriAsync`: per item, the neutral pass rated by the judge, then the empathic pass rated by the model. */
  method EvaluateEriForModel(model: string, items: seq<EriItem>, client: ChatClient, judge: ChatClient,
                             parse: string -> ParsedJson)
    returns (list: seq<EriEvaluationResult>)
    ensures list == EriBatch(model, items, client, judge, parse)
    ensures |list| == 2 * |items|
    ensures forall k :: 0 <= k < |list| ==>
      list[k].model == model && list[k].itemId == items[k / 2].id && (list[k].empathic <==> k % 2 == 1)
  {
    list := [];
    var i := 0;
    while i < |items|
      invariant 0 <= i <= |items|
      invariant list == EriBatch(model, items[..i], client, judge, parse)
    {
      var item := items[i];
      ghost var before := list;
      var result: string;
      var score: Option<EriAutoScore>;
      ghost var attempts: nat;

      result, attempts := RunEri(client, item, false, 0);
      score, attempts := RunEriAutoRate(judge, item.scenario, result, parse);
      list := list + [EriRecord(model, item, false, score, result)];

      result, attempts := RunEri(client, item, true, 0);
      score, attempts := RunEriAutoRate(client, item.scenario, result, parse);
      list := list + [EriRecord(model, item, true, score, result)];

      assert list == before + EriPair(model, item, client, judge, parse);
      EriBatchStep(model, items, i, client, judge, parse);
      i := i + 1;
    }
    assert items[..|items|] == items;
    EriBatchShape(model, items, client, judge, parse);
  }

  lemma EriBatchStep(model: string, items: seq<EriItem>, i: nat, client: ChatClient, judge: ChatClient,
                     parse: string -> ParsedJson)
    requires i < |items|
    ensures EriBatch(model, items[..i + 1], client, judge, parse)
      == EriBatch(model, items[..i], client, judge, parse) + EriPair(model, items[i], client, judge, parse)
  {
    assert items[..i + 1][..i] == items[..i];
  }

  // ---------------------------------------------------------------------------
  // The lane driver
  // ---------------------------------------------------------------------------

  /** `0, 1, ..., n - 1`. */
  function Indices(n: nat): (r: seq<nat>)
    ensures |r| == n && forall i :: 0 <= i < n ==> r[i] == i
  {
    if n == 0 then [] else Indices(n - 1) + [n - 1]
  }

  predicate InRange(order: seq<nat>, n: nat)
  {
    forall k :: 0 <= k < |order| ==> order[k] < n
  }

  /**
    The order in which the lanes' batches reach the shared list. The lanes
    are numbered parallel first, then sequential; each is visited once, and
    the sequential lane's models come one after the other, in their order.
    How the concurrent models interleave is left open.
   */
  predicate IsLaneSchedule(parallelCount: nat, sequentialCount: nat, schedule: seq<nat>)
  {
    && multiset(schedule) == multiset(Indices(parallelCount + sequentialCount))
    && forall a, b :: 0 <= a < b < |schedule| && parallelCount <= schedule[a] && parallelCount <= schedule[b] ==>
         schedule[a] < schedule[b]
  }

  /** The list after the batches of the lanes in `order` have been appended. */
  function Gather<T>(lanes: seq<string>, order: seq<nat>, evaluate: string --> seq<T>): seq<T>
    requires InRange(order, |lanes|)
    requires forall m :: evaluate.requires(m)
  {
    if order == [] then []
    else Gather(lanes, order[..|order| - 1], evaluate) + evaluate(lanes[order[|order| - 1]])
  }

  /** Every lane's batch, in lane order: what a sequential run of all lanes would give. */
  function InLaneOrder<T>(lanes: seq<string>, evaluate: string --> seq<T>): seq<T>
    requires forall m :: evaluate.requires(m)
  {
    if lanes == [] then []
    else InLaneOrder(lanes[..|lanes| - 1], evaluate) + evaluate(lanes[|lanes| - 1])
  }

  /** Every position of a schedule names a lane. */
  lemma ScheduleInRange(parallelCount: nat, sequentialCount: nat, schedule: seq<nat>)
    requires IsLaneSchedule(parallelCount, sequentialCount, schedule)
    ensures InRange(schedule, parallelCount + sequentialCount)
  {
    var all := Indices(parallelCount + sequentialCount);
    forall k | 0 <= k < |schedule| ensures schedule[k] < parallelCount + sequentialCount {
      assert schedule[k] in multiset(schedule);
      assert schedule[k] in multiset(all);
      var j :| 0 <= j < |all| && all[j] == schedule[k];
    }
  }

  /** Every lane's batch is appended exactly once. */
  lemma ScheduleVisitsEachLaneOnce(parallelCount: nat, sequentialCount: nat, schedule: seq<nat>)
    requires IsLaneSchedule(parallelCount, sequentialCount, schedule)
    ensures |schedule| == parallelCount + sequentialCount
    ensures forall i :: 0 <= i < parallelCount + sequentialCount ==> multiset(schedule)[i] == 1
  {
    IndicesOccurOnce(parallelCount + sequentialCount);
    assert |schedule| == |multiset(schedule)| == |multiset(Indices(parallelCount + sequentialCount))|;
  }

  lemma {:induction false} IndicesOccurOnce(n: nat)
    ensures forall i :: 0 <= i < n ==> multiset(Indices(n))[i] == 1
    ensures forall i :: n <= i ==> multiset(Indices(n))[i] == 0
  {
    if n > 0 {
      IndicesOccurOnce(n - 1);
      assert multiset(Indices(n)) == multiset(Indices(n - 1)) + multiset{(n - 1) as nat};
    }
  }

  /** Appending two runs of batches one after the other. */
  lemma {:induction false} GatherAppend<T>(lanes: seq<string>, a: seq<nat>, b: seq<nat>, evaluate: string --> seq<T>)
    requires InRange(a, |lanes|) && InRange(b, |lanes|)
    requires forall m :: evaluate.requires(m)
    ensures InRange(a + b, |lanes|)
    ensures Gather(lanes, a + b, evaluate) == Gather(lanes, a, evaluate) + Gather(lanes, b, evaluate)
    decreases |b|
  {
    if b == [] {
      assert a + b == a;
    } else {
      var init := b[..|b| - 1];
      GatherAppend(lanes, a, init, evaluate);
      assert (a + b)[..|a + b| - 1] == a + init;
    }
  }

  /** Visiting the same lanes in another order gives the same records, rearranged. */
  lemma {:induction false} GatherPermutation<T>(lanes: seq<string>, o1: seq<nat>, o2: seq<nat>, evaluate: string --> seq<T>)
    requires InRange(o1, |lanes|) && InRange(o2, |lanes|)
    requires forall m :: evaluate.requires(m)
    requires multiset(o1) == multiset(o2)
    ensures multiset(Gather(lanes, o1, evaluate)) == multiset(Gather(lanes, o2, evaluate))
    decreases |o1|
  {
    if o1 == [] {
      assert |o2| == |multiset(o2)| == 0;
    } else {
      var init := o1[..|o1| - 1];
      var x := o1[|o1| - 1];
      var p := PositionOf(o1, o2);
      var rest := o2[..p] + o2[p + 1..];
      GatherPermutation(lanes, init, rest, evaluate);
      GatherRemove(lanes, o2, p, evaluate);
      var g1 := Gather(lanes, o1, evaluate);
      assert g1 == Gather(lanes, init, evaluate) + evaluate(lanes[x]);
      assert multiset(g1) == multiset(Gather(lanes, init, evaluate)) + multiset(evaluate(lanes[x]));
    }
  }

  /** Where the last lane of `o1` sits in a rearrangement `o2` of it; the rest of `o2` rearranges the rest of `o1`. */
  lemma PositionOf(o1: seq<nat>, o2: seq<nat>) returns (p: nat)
    requires o1 != [] && multiset(o1) == multiset(o2)
    ensures p < |o2| && o2[p] == o1[|o1| - 1]
    ensures multiset(o2[..p] + o2[p + 1..]) == multiset(o1[..|o1| - 1])
  {
    var init, x := o1[..|o1| - 1], o1[|o1| - 1];
    assert o1 == init + [x];
    assert x in multiset(o2);
    p :| 0 <= p < |o2| && o2[p] == x;
    RemoveOne(o2, p);
    assert multiset(init) == multiset(o1) - multiset{x};
  }

  lemma RemoveOne(s: seq<nat>, p: nat)
    requires p < |s|
    ensures multiset(s[..p] + s[p + 1..]) == multiset(s) - multiset{s[p]}
  {
    assert s == s[..p] + [s[p]] + s[p + 1..];
  }

  /** Taking one lane's visit out of an order takes exactly its batch out of the records. */
  lemma GatherRemove<T>(lanes: seq<string>, order: seq<nat>, p: nat, evaluate: string --> seq<T>)
    requires InRange(order, |lanes|) && p < |order|
    requires forall m :: evaluate.requires(m)
    ensures InRange(order[..p] + order[p + 1..], |lanes|)
    ensures multiset(Gather(lanes, order, evaluate))
      == multiset(Gather(lanes, order[..p] + order[p + 1..], evaluate)) + multiset(evaluate(lanes[order[p]]))
  {
    var before, x, after := order[..p], order[p], order[p + 1..];
    assert order == (before + [x]) + after;
    GatherSingle(lanes, before, x, evaluate);
    GatherAppend(lanes, before + [x], after, evaluate);
    GatherAppend(lanes, before, after, evaluate);
    MultisetWithout(Gather(lanes, before, evaluate), evaluate(lanes[x]), Gather(lanes, after, evaluate));
  }

  lemma MultisetWithout<T>(a: seq<T>, b: seq<T>, c: seq<T>)
    ensures multiset(a + b + c) == multiset(a + c) + multiset(b)
  {
  }

  lemma GatherSingle<T>(lanes: seq<string>, order: seq<nat>, x: nat, evaluate: string --> seq<T>)
    requires InRange(order, |lanes|) && x < |lanes|
    requires forall m :: evaluate.requires(m)
    ensures InRange(order + [x], |lanes|)
    ensures Gather(lanes, order + [x], evaluate) == Gather(lanes, order, evaluate) + evaluate(lanes[x])
  {
    assert (order + [x])[..|order|] == order;
  }

  /** In plain lane order the schedule gives back `InLaneOrder`. */
  lemma {:induction false} GatherInLaneOrder<T>(lanes: seq<string>, k: nat, evaluate: string --> seq<T>)
    requires k <= |lanes|
    requires forall m :: evaluate.requires(m)
    ensures InRange(Indices(k), |lanes|)
    ensures Gather(lanes, Indices(k), evaluate) == InLaneOrder(lanes[..k], evaluate)
  {
    if k > 0 {
      GatherInLaneOrder(lanes, k - 1, evaluate);
      assert Indices(k)[..k - 1] == Indices(k - 1);
      assert lanes[..k][..k - 1] == lanes[..k - 1];
    }
  }

  /** The batch appended at step `k` sits, whole and unbroken, right after the ones appended before it. */
  lemma BatchIsContiguous<T>(lanes: seq<string>, order: seq<nat>, evaluate: string --> seq<T>, k: nat)
    requires InRange(order, |lanes|) && k < |order|
    requires forall m :: evaluate.requires(m)
    ensures var start := |Gather(lanes, order[..k], evaluate)|;
      var batch := evaluate(lanes[order[k]]);
      && start + |batch| == |Gather(lanes, order[..k + 1], evaluate)| <= |Gather(lanes, order, evaluate)|
      && Gather(lanes, order, evaluate)[start..start + |batch|] == batch
  {
    assert order == order[..k + 1] + order[k + 1..];
    GatherAppend(lanes, order[..k + 1], order[k + 1..], evaluate);
    assert order[..k + 1][..k] == order[..k];
  }

  /** A batch appended earlier ends before a later one starts. */
  lemma BatchesInScheduleOrder<T>(lanes: seq<string>, order: seq<nat>, evaluate: string --> seq<T>, a: nat, b: nat)
    requires InRange(order, |lanes|) && a < b <= |order|
    requires forall m :: evaluate.requires(m)
    ensures |Gather(lanes, order[..a], evaluate)| + |evaluate(lanes[order[a]])| <= |Gather(lanes, order[..b], evaluate)|
  {
    assert order[..b] == order[..a + 1] + order[a + 1..b];
    GatherAppend(lanes, order[..a + 1], order[a + 1..b], evaluate);
    assert order[..a + 1][..a] == order[..a];
  }

  /**
    The sequential lane's batches appear in lane order: of two sequential
    models, the earlier one's batch ends before the later one's begins.
   */
  lemma SequentialBatchesInLaneOrder<T>(parallel: seq<string>, sequential: seq<string>, schedule: seq<nat>,
                                        evaluate: string --> seq<T>, a: nat, b: nat)
    requires IsLaneSchedule(|parallel|, |sequential|, schedule)
    requires forall m :: evaluate.requires(m)
    requires a < b < |schedule| && |parallel| <= schedule[a] && |parallel| <= schedule[b]
    ensures InRange(schedule, |parallel + sequential|)
    ensures schedule[a] < schedule[b]
    ensures |Gather(parallel + sequential, schedule[..a], evaluate)| + |evaluate((parallel + sequential)[schedule[a]])|
            <= |Gather(parallel + sequential, schedule[..b], evaluate)|
  {
    ScheduleInRange(|parallel|, |sequential|, schedule);
    BatchesInScheduleOrder(parallel + sequential, schedule, evaluate, a, b);
  }

  /**
    Whatever the interleaving, the collected list holds exactly the records of
    all lanes' batches, each record as often as in a sequential run.
   */
  lemma {:induction false} ScheduleCollectsEveryBatch<T>(parallel: seq<string>, sequential: seq<string>, schedule: seq<nat>,
                                                          evaluate: string --> seq<T>)
    requires IsLaneSchedule(|parallel|, |sequential|, schedule)
    requires forall m :: evaluate.requires(m)
    ensures InRange(schedule, |parallel + sequential|)
    ensures multiset(Gather(parallel + sequential, schedule, evaluate)) == multiset(InLaneOrder(parallel + sequential, evaluate))
    ensures |Gather(parallel + sequential, schedule, evaluate)| == |InLaneOrder(parallel + sequential, evaluate)|
  {
    var lanes := parallel + sequential;
    ScheduleInRange(|parallel|, |sequential|, schedule);
    assert multiset(schedule) == multiset(Indices(|lanes|));
    GatherCollectsEveryBatch(lanes, schedule, evaluate);
  }

  /** Any order that visits every lane once collects the records of the lane-order run. */
  lemma GatherCollectsEveryBatch<T>(lanes: seq<string>, order: seq<nat>, evaluate: string --> seq<T>)
    requires InRange(order, |lanes|) && multiset(order) == multiset(Indices(|lanes|))
    requires forall m :: evaluate.requires(m)
    ensures multiset(Gather(lanes, order, evaluate)) == multiset(InLaneOrder(lanes, evaluate))
    ensures |Gather(lanes, order, evaluate)| == |InLaneOrder(lanes, evaluate)|
  {
    InLaneOrderIsGather(lanes, evaluate);
    GatherPermutation(lanes, order, Indices(|lanes|), evaluate);
    SameMultisetSameLength(Gather(lanes, order, evaluate), InLaneOrder(lanes, evaluate));
  }

  lemma InLaneOrderIsGather<T>(lanes: seq<string>, evaluate: string --> seq<T>)
    requires forall m :: evaluate.requires(m)
    ensures InRange(Indices(|lanes|), |lanes|)
    ensures Gather(lanes, Indices(|lanes|), evaluate) == InLaneOrder(lanes, evaluate)
  {
    GatherInLaneOrder(lanes, |lanes|, evaluate);
    assert lanes[..|lanes|] == lanes;
  }

  lemma SameMultisetSameLength<T>(a: seq<T>, b: seq<T>)
    requires multiset(a) == multiset(b)
    ensures |a| == |b|
  {
    assert |a| == |multiset(a)|;
    assert |b| == |multiset(b)|;
  }

  /** When every batch has the same length, the list is the number of lanes times that length. */
  lemma {:induction false} InLaneOrderLength<T>(lanes: seq<string>, evaluate: string --> seq<T>, size: nat)
    requires forall m :: evaluate.requires(m)
    requires forall m :: |evaluate(m)| == size
    ensures |InLaneOrder(lanes, evaluate)| == |lanes| * size
  {
    if lanes != [] {
      var init := lanes[..|lanes| - 1];
      InLaneOrderLength(init, evaluate, size);
      assert |InLaneOrder(lanes, evaluate)| == |InLaneOrder(init, evaluate)| + size;
      assert |init| * size + size == |lanes| * size;
    }
  }

  /**
    `_evaluateAsync`, with the concurrent lane's interleaving fixed by
    `schedule`: each batch is appended to the one shared list in turn.
   */
  method Evaluate<T>(parallel: seq<string>, sequential: seq<string>, schedule: seq<nat>, evaluate: string --> seq<T>)
    returns (list: seq<T>)
    requires IsLaneSchedule(|parallel|, |sequential|, schedule)
    requires forall m :: evaluate.requires(m)
    ensures InRange(schedule, |parallel + sequential|)
    ensures list == Gather(parallel + sequential, schedule, evaluate)
    ensures multiset(list) == multiset(InLaneOrder(parallel + sequential, evaluate))
  {
    var lanes := parallel + sequential;
    ScheduleInRange(|parallel|, |sequential|, schedule);
    list := [];
    var k := 0;
    while k < |schedule|
      invariant 0 <= k <= |schedule|
      invariant list == Gather(lanes, schedule[..k], evaluate)
    {
      var items := evaluate(lanes[schedule[k]]);
      list := list + items;
      assert schedule[..k + 1][..k] == schedule[..k];
      k := k + 1;
    }
    assert schedule[..|schedule|] == schedule;
    ScheduleCollectsEveryBatch(parallel, sequential, schedule, evaluate);
  }

  // ---------------------------------------------------------------------------
  // The two entry points
  // ---------------------------------------------------------------------------

  /** `_evaluateEusAsync` for a model, as the function the lane driver is given. */
  function EusLane(items: seq<EusItem>, clients: string -> ChatClient, deserialize: string -> EusAnswer)
    : string --> seq<EusResult>
  {
    m requires HasFourOptions(items) => EusBatch(m, items, clients(m), deserialize)
  }

  /** `_evaluateEriAsync` for a model, with the judge's client fixed. */
  function EriLane(items: seq<EriItem>, clients: string -> ChatClient, judge: ChatClient, parse: string -> ParsedJson)
    : string -> seq<EriEvaluationResult>
  {
    m => EriBatch(m, items, clients(m), judge, parse)
  }

  /**
    `EvaluateEusAsync`: every subject model's batch, collected by the lane
    driver; as many records as models times items.
   */
  method EvaluateEus(provider: ModelProvider, items: seq<EusItem>, clients: string -> ChatClient,
                     deserialize: string -> EusAnswer, schedule: seq<nat>)
    returns (list: seq<EusResult>)
    requires HasFourOptions(items)
    requires IsLaneSchedule(|provider.ParallelModels()|, |provider.SequentialModels()|, schedule)
    ensures InRange(schedule, |provider.Models()|)
    ensures list == Gather(provider.Models(), schedule, EusLane(items, clients, deserialize))
    ensures multiset(list) == multiset(InLaneOrder(provider.Models(), EusLane(items, clients, deserialize)))
    ensures |list| == |provider.Models()| * |items|
  {
    var lane := EusLane(items, clients, deserialize);
    assert forall m :: lane.requires(m);
    assert provider.ParallelModels() + provider.SequentialModels() == provider.Models();
    list := Evaluate(provider.ParallelModels(), provider.SequentialModels(), schedule, lane);
    forall m ensures |lane(m)| == |items| {
      EusBatchShape(m, items, clients(m), deserialize);
    }
    InLaneOrderLength(provider.Models(), lane, |items|);
    assert |list| == |multiset(list)|;
  }

  /**
    `EvaluateEriAsync`: every subject model's batch, collected by the lane
    driver; the judge is the client registered under the judge's name, and
    there are two records per model and item.
   */
  method EvaluateEri(provider: ModelProvider, items: seq<EriItem>, clients: string -> ChatClient,
                     parse: string -> ParsedJson, schedule: seq<nat>)
    returns (list: seq<EriEvaluationResult>)
    requires IsLaneSchedule(|provider.ParallelModels()|, |provider.SequentialModels()|, schedule)
    ensures InRange(schedule, |provider.Models()|)
    ensures list == Gather(provider.Models(), schedule, EriLane(items, clients, clients(provider.eriModel), parse))
    ensures multiset(list) == multiset(InLaneOrder(provider.Models(), EriLane(items, clients, clients(provider.eriModel), parse)))
    ensures |list| == |provider.Models()| * (2 * |items|)
  {
    var lane := EriLane(items, clients, clients(provider.eriModel), parse);
    assert provider.ParallelModels() + provider.SequentialModels() == provider.Models();
    list := Evaluate(provider.ParallelModels(), provider.SequentialModels(), schedule, lane);
    forall m ensures |lane(m)| == 2 * |items| {
      EriBatchShape(m, items, clients(m), clients(provider.eriModel), parse);
    }
    InLaneOrderLength(provider.Models(), lane, 2 * |items|);
    assert |list| == |multiset(list)|;
  }
}
