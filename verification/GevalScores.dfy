/**
 * Flattening of judge completions into scores (`parse_geval_outputs` in
 * geval_scores.py) and the per-metric loop of the script's entry point,
 * which stores, for each metric, the flat score list and its mean, or the
 * pair `[0.0, None]` when the metric has no scores at all.
 */
module GevalScores {
  import opened ScoreParser

  /** One evaluated item; only its sampled completions are read here. */
  datatype Record = Record(allResponses: seq<string>)

  /** The scores of one record's completions, in completion order. */
  function ResponseScores(responses: seq<string>): seq<real> {
    seq(|responses|, k requires 0 <= k < |responses| => ParseOutput(responses[k]))
  }

  /** All scores of all records: record order, then completion order. */
  function Flatten(records: seq<Record>): seq<real> {
    if records == [] then []
    else Flatten(records[..|records| - 1]) + ResponseScores(records[|records| - 1].allResponses)
  }

  /** Number of completions over all records. */
  function TotalResponses(records: seq<Record>): nat {
    if records == [] then 0
    else TotalResponses(records[..|records| - 1]) + |records[|records| - 1].allResponses|
  }

  /**
   * `parse_geval_outputs`: the nested loops append one parsed score per
   * completion to `scores`.
   */
  method ParseGevalOutputs(output: seq<Record>) returns (scores: seq<real>)
    ensures scores == Flatten(output)
  {
    scores := [];
    for i := 0 to |output|
      invariant scores == Flatten(output[..i])
    {
      var responses := output[i].allResponses;
      for j := 0 to |responses|
        invariant scores == Flatten(output[..i]) + ResponseScores(responses[..j])
      {
        ResponseScoresExtend(responses, j);
        scores := scores + [ParseOutput(responses[j])];
      }
      assert responses[..|responses|] == responses;
      FlattenExtend(output, i);
    }
    assert output[..|output|] == output;
  }

  /** Scoring one more completion appends its score. */
  lemma ResponseScoresExtend(responses: seq<string>, j: nat)
    requires j < |responses|
    ensures ResponseScores(responses[..j + 1])
            == ResponseScores(responses[..j]) + [ParseOutput(responses[j])]
  {
  }

  /** Flattening one more record appends the scores of its completions. */
  lemma FlattenExtend(records: seq<Record>, i: nat)
    requires i < |records|
    ensures Flatten(records[..i + 1]) == Flatten(records[..i]) + ResponseScores(records[i].allResponses)
  {
    assert records[..i + 1][..i] == records[..i];
  }

  /** There is one score per completion. */
  lemma {:induction false} FlattenLength(records: seq<Record>)
    ensures |Flatten(records)| == TotalResponses(records)
  {
    if records != [] {
      FlattenLength(records[..|records| - 1]);
    }
  }

  /**
   * The score of completion `j` of record `i` sits after the completions of
   * all earlier records, and is the parse of that completion.
   */
  lemma {:induction false} FlattenAt(records: seq<Record>, i: nat, j: nat)
    requires i < |records| && j < |records[i].allResponses|
    ensures TotalResponses(records[..i]) + j < |Flatten(records)|
    ensures Flatten(records)[TotalResponses(records[..i]) + j]
            == ParseOutput(records[i].allResponses[j])
  {
    var before, after := records[..i], records[i + 1..];
    assert records == before + [records[i]] + after;
    FlattenAppend(before + [records[i]], after);
    FlattenAppend(before, [records[i]]);
    assert Flatten([records[i]]) == ResponseScores(records[i].allResponses) by {
      assert [records[i]][..0] == [];
    }
    FlattenLength(before);
  }

  /** Flattening a concatenation of record lists concatenates the score lists. */
  lemma {:induction false} FlattenAppend(front: seq<Record>, back: seq<Record>)
    ensures Flatten(front + back) == Flatten(front) + Flatten(back)
  {
    if back != [] {
      var whole := front + back;
      assert whole[..|whole| - 1] == front + back[..|back| - 1];
      FlattenAppend(front, back[..|back| - 1]);
    } else {
      assert front + back == front;
    }
  }

  /** Every flattened score is a score some completion can produce, so it is non-negative. */
  lemma {:induction false} FlattenNonNegative(records: seq<Record>)
    ensures forall k | 0 <= k < |Flatten(records)| :: Flatten(records)[k] >= 0.0
  {
    if records != [] {
      FlattenNonNegative(records[..|records| - 1]);
    }
  }

  /** No scores at all exactly when no record has a completion. */
  lemma {:induction false} FlattenEmpty(records: seq<Record>)
    ensures Flatten(records) == [] <==> forall i | 0 <= i < |records| :: records[i].allResponses == []
  {
    if records != [] {
      var init := records[..|records| - 1];
      FlattenEmpty(init);
      if Flatten(records) == [] {
        assert Flatten(init) == [];
      }
    }
  }

  // ---------------------------------------------------------------------------
  // The per-metric loop of the entry point
  // ---------------------------------------------------------------------------

  /**
   * What the entry point stores per metric: `[0.0, None]` for a metric
   * without scores, otherwise the mean (with the standard deviation, which
   * is not modelled).
   */
  datatype MetricScore = Unscored | Scored(mean: real) {
    /** The first element of the stored pair. */
    function Mean(): real {
      match this
      case Unscored => 0.0
      case Scored(m) => m
    }
  }

  /** Python's `sum` over a list of scores, left to right. */
  function Sum(scores: seq<real>): real {
    if scores == [] then 0.0 else Sum(scores[..|scores| - 1]) + scores[|scores| - 1]
  }

  /**
   * The stored score of a metric: `[0.0, None]` exactly when it has no
   * scores, otherwise the mean, which times the count gives back the sum.
   */
  function Summarise(scores: seq<real>): (m: MetricScore)
    ensures m.Unscored? <==> scores == []
    ensures m.Scored? ==> m.mean * |scores| as real == Sum(scores)
  {
    if scores == [] then Unscored else Scored(Sum(scores) / |scores| as real)
  }

  /** The sum of values no smaller than `lo` is at least `n * lo`. */
  lemma {:induction false} SumAtLeast(scores: seq<real>, lo: real)
    requires forall k | 0 <= k < |scores| :: lo <= scores[k]
    ensures |scores| as real * lo <= Sum(scores)
  {
    if scores != [] {
      SumAtLeast(scores[..|scores| - 1], lo);
    }
  }

  /** The sum of values no greater than `hi` is at most `n * hi`. */
  lemma {:induction false} SumAtMost(scores: seq<real>, hi: real)
    requires forall k | 0 <= k < |scores| :: scores[k] <= hi
    ensures Sum(scores) <= |scores| as real * hi
  {
    if scores != [] {
      SumAtMost(scores[..|scores| - 1], hi);
    }
  }

  /** A mean is no smaller than a lower bound of the scores. */
  lemma MeanAtLeast(scores: seq<real>, lo: real)
    requires forall k | 0 <= k < |scores| :: lo <= scores[k]
    requires scores != []
    ensures Summarise(scores).Scored? && lo <= Summarise(scores).mean
  {
    SumAtLeast(scores, lo);
    var n := |scores| as real;
    var m := Sum(scores) / n;
    assert m * n == Sum(scores);
  }

  /** A mean is no greater than an upper bound of the scores. */
  lemma MeanAtMost(scores: seq<real>, hi: real)
    requires forall k | 0 <= k < |scores| :: scores[k] <= hi
    requires scores != []
    ensures Summarise(scores).Scored? && Summarise(scores).mean <= hi
  {
    SumAtMost(scores, hi);
    var n := |scores| as real;
    var m := Sum(scores) / n;
    assert m * n == Sum(scores);
  }

  /**
   * A metric is stored as `[0.0, None]` exactly when none of its records
   * has a completion; otherwise its mean is a non-negative number.
   */
  lemma MetricScoreOfRecords(records: seq<Record>)
    ensures Summarise(Flatten(records)).Unscored?
            <==> forall i | 0 <= i < |records| :: records[i].allResponses == []
    ensures Summarise(Flatten(records)).Mean() >= 0.0
  {
    FlattenEmpty(records);
    var scores := Flatten(records);
    if scores != [] {
      FlattenNonNegative(records);
      MeanAtLeast(scores, 0.0);
    }
  }

  /**
   * The loop over the loaded metrics: every metric gets its flat score list
   * and, from it, its stored score.
   */
  method ScoreMetrics(outputs: map<string, seq<Record>>)
    returns (allScores: map<string, seq<real>>, scores: map<string, MetricScore>)
    ensures allScores.Keys == outputs.Keys && scores.Keys == outputs.Keys
    ensures forall key | key in outputs :: allScores[key] == Flatten(outputs[key])
    ensures forall key | key in outputs :: scores[key] == Summarise(allScores[key])
  {
    allScores, scores := map[], map[];
    var remaining := outputs.Keys;
    while remaining != {}
      invariant remaining <= outputs.Keys
      invariant allScores.Keys == outputs.Keys - remaining
      invariant scores.Keys == outputs.Keys - remaining
      invariant forall key | key in allScores :: allScores[key] == Flatten(outputs[key])
      invariant forall key | key in scores :: scores[key] == Summarise(allScores[key])
      decreases remaining
    {
      var key :| key in remaining;
      var flat := ParseGevalOutputs(outputs[key]);
      allScores := allScores[key := flat];
      scores := scores[key := Summarise(flat)];
      remaining := remaining - {key};
    }
  }
}
