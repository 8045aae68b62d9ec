/** What the counters count and what a pass asks of them, without the functions that count. */
module ScoringResults {
  import opened Common
  import opened Scoring
  import opened ScoringProofs

  /** The keys a verdict says to be of a kind. */
  function SaidToBe(v: Verdict, kind: Kind): set<string> {
    set c | c in v.classified && c.kind == kind :: c.key
  }

  lemma LabelSays(v: Verdict, key: string)
    ensures var labels := PredictedLabels(v.classified);
      && (key in labels <==> key in KeysOf(v.classified))
      && (key in labels && labels[key].Observation? <==> key in SaidToBe(v, Observation))
      && (key in labels && labels[key].Inference? <==> key in SaidToBe(v, Inference))
  {
    hide PredictedLabels;
    VerdictLabels(v.classified);
    var labels := PredictedLabels(v.classified);
    if key in labels {
      var c :| c in v.classified && c.key == key;
      var k :| 0 <= k < |v.classified| && v.classified[k] == c;
      assert labels[v.classified[k].key] == v.classified[k].kind;
      assert c == Classified(key, labels[key]);
      hide KeysOf;
      forall d | d in v.classified && d.key == key ensures d == c {
        var j :| 0 <= j < |v.classified| && v.classified[j] == d;
        assert labels[v.classified[j].key] == v.classified[j].kind;
      }
    }
  }

  /** What one attempt adds, in terms of the case and of what the verdict says. A key expected
      both ways counts as an inference. */
  lemma TallyMeans(c: QualityCase, a: Attempt)
    ensures var t := Tally(c, a);
      && t.observationTrue == |c.observations|
      && t.uncertaintyRequired == (if c.requireUncertainty then 1 else 0)
      && t.firstValid == (if a.firstPassValid then 1 else 0)
      && t.repairedValid == (if a.afterRepairValid then 1 else 0)
      && match a.verdict
         case None =>
           && t.classificationTotal == |c.observations + c.inferences|
           && t.observationPredicted == t.observationCorrect == t.classificationCorrect == 0
           && t.topOne == t.topThree == t.planCorrect == t.uncertaintyFound == 0
         case Some(v) =>
           && t.observationPredicted == |SaidToBe(v, Observation)|
           && t.observationCorrect == |SaidToBe(v, Observation) * c.observations|
           && t.classificationTotal == |c.observations + c.inferences + KeysOf(v.classified)|
           && t.classificationCorrect
              == |SaidToBe(v, Observation) * (c.observations - c.inferences) + SaidToBe(v, Inference) * c.inferences|
           && t.topOne == (if v.ranked[0] == c.topHypothesis then 1 else 0)
           && t.topThree == (if exists k :: 0 <= k < |v.ranked| && k < 3 && v.ranked[k] == c.topHypothesis
                             then 1 else 0)
           && t.planCorrect == (if v.planValid <==> c.planValid then 1 else 0)
           && t.uncertaintyFound == (if c.requireUncertainty && v.uncertaintyDisclosed then 1 else 0)
  {
    assert ExpectedLabels(c).Keys == c.observations + c.inferences;
    if a.verdict.Some? {
      LabelSetsMean(c, a.verdict.value);
      FirstThree(a.verdict.value.ranked, c.topHypothesis);
      hide PredictedLabels, ExpectedLabels, Observed, Agreed, SaidToBe, KeysOf;
    }
  }

  lemma FirstThree(ranked: seq<string>, key: string)
    ensures key in ranked[..if |ranked| < 3 then |ranked| else 3]
            <==> exists k :: 0 <= k < |ranked| && k < 3 && ranked[k] == key
  {
    var first := ranked[..if |ranked| < 3 then |ranked| else 3];
    assert forall k :: 0 <= k < |first| ==> first[k] == ranked[k];
  }

  lemma LabelSetsMean(c: QualityCase, v: Verdict)
    ensures var expected, predicted := ExpectedLabels(c), PredictedLabels(v.classified);
      && Observed(predicted) == SaidToBe(v, Observation)
      && expected.Keys + predicted.Keys == c.observations + c.inferences + KeysOf(v.classified)
      && Agreed(expected, predicted)
         == SaidToBe(v, Observation) * (c.observations - c.inferences) + SaidToBe(v, Inference) * c.inferences
  {
    hide PredictedLabels, SaidToBe, KeysOf;
    forall key {
      LabelSays(v, key);
    }
    var expected, predicted := ExpectedLabels(c), PredictedLabels(v.classified);
    assert expected.Keys == c.observations + c.inferences;
    assert predicted.Keys == KeysOf(v.classified);
  }

  /** Each counter of the first is the sum of those of the others. */
  predicate Adds(s: Totals, t: Totals, u: Totals) {
    && s.observationTrue == t.observationTrue + u.observationTrue
    && s.observationPredicted == t.observationPredicted + u.observationPredicted
    && s.observationCorrect == t.observationCorrect + u.observationCorrect
    && s.classificationTotal == t.classificationTotal + u.classificationTotal
    && s.classificationCorrect == t.classificationCorrect + u.classificationCorrect
    && s.topOne == t.topOne + u.topOne && s.topThree == t.topThree + u.topThree
    && s.planCorrect == t.planCorrect + u.planCorrect
    && s.uncertaintyRequired == t.uncertaintyRequired + u.uncertaintyRequired
    && s.uncertaintyFound == t.uncertaintyFound + u.uncertaintyFound
    && s.firstValid == t.firstValid + u.firstValid && s.repairedValid == t.repairedValid + u.repairedValid
  }

  lemma AddsOneMore(s: Totals, t: Totals, u: Totals, x: Totals)
    requires Adds(s, t, u)
    ensures Adds(Sum(s, x), t, Sum(u, x))
  {
  }

  /** Nothing attempted counts nothing, one attempt its tally, and parts of a list of attempts
      add up in every counter. */
  lemma {:induction false} TotalsAdd(cases: Cases, a: seq<Attempt>, b: seq<Attempt>)
    requires Known(cases, a) && Known(cases, b)
    ensures Known(cases, a + b)
    ensures |a| == 1 ==> Total(cases, a) == Tally(cases[a[0].caseId], a[0])
    ensures Adds(Total(cases, a + b), Total(cases, a), Total(cases, b))
    decreases |b|
  {
    hide Tally;
    if |a| == 1 {
      assert a[..0] == [];
    }
    if b == [] {
      assert a + b == a;
    } else {
      hide Adds, Sum;
      var n := |b| - 1;
      TotalsAdd(cases, a, b[..n]);
      assert (a + b)[..|a + b| - 1] == a + b[..n] && (a + b)[|a + b| - 1] == b[n];
      AddsOneMore(
        Total(cases, a + b[..n]), Total(cases, a), Total(cases, b[..n]), Tally(cases[b[n].caseId], b[n]));
    }
  }

  function Most(a: nat, b: nat): nat { if a < b then b else a }

  /** The metrics are the named ratios, the two optional denominators being at least one. */
  lemma MetricsInFull(suite: seq<QualityCase>, attempts: seq<Attempt>)
    requires ScoreOf(suite, attempts).Scored?
    ensures Known(ById(suite), attempts) && attempts != []
    ensures var m, t, n := ScoreOf(suite, attempts).metrics, Total(ById(suite), attempts), |attempts|;
      && m.observationPrecision * Most(1, t.observationPredicted) as real == t.observationCorrect as real
      && m.observationRecall * t.observationTrue as real == t.observationCorrect as real
      && m.classificationAccuracy * t.classificationTotal as real == t.classificationCorrect as real
      && m.hypothesisTopOne * n as real == t.topOne as real && m.hypothesisTopThree * n as real == t.topThree as real
      && m.typedPlanAccuracy * n as real == t.planCorrect as real
      && m.schemaFirstPass * n as real == t.firstValid as real
      && m.schemaAfterRepair * n as real == t.repairedValid as real
      && m.uncertaintyRequiredRecall * Most(1, t.uncertaintyRequired) as real == t.uncertaintyFound as real
  {
    hide Total, ById, Complete, Ratio, Passes;
    CompleteIsKnownToo(suite, attempts);
    var t, n := Total(ById(suite), attempts), |attempts|;
    RatioTimes(t.observationCorrect, AtLeastOne(t.observationPredicted));
    RatioTimes(t.observationCorrect, t.observationTrue);
    RatioTimes(t.classificationCorrect, t.classificationTotal);
    RatioTimes(t.topOne, n);
    RatioTimes(t.topThree, n);
    RatioTimes(t.planCorrect, n);
    RatioTimes(t.firstValid, n);
    RatioTimes(t.repairedValid, n);
    RatioTimes(t.uncertaintyFound, AtLeastOne(t.uncertaintyRequired));
  }

  lemma CompleteIsKnownToo(suite: seq<QualityCase>, attempts: seq<Attempt>)
    requires Complete(suite, attempts)
    ensures Known(ById(suite), attempts)
  {
    CompleteIsKnown(suite, attempts);
  }

  lemma RatioTimes(part: nat, whole: nat)
    requires whole > 0
    ensures Ratio(part, whole) * whole as real == part as real
  {
  }

  lemma RatioAtLeast(part: nat, whole: nat, top: nat, bottom: nat)
    requires whole > 0 && bottom > 0
    ensures Ratio(part, whole) >= top as real / bottom as real <==> bottom * part >= top * whole
  {
    var x, y := part as real / whole as real, top as real / bottom as real;
    var p, w, t, b := part as real, whole as real, top as real, bottom as real;
    assert x * w == p && y * b == t;
    TimesKeepsOrder(x, y, w * b);
    assert x * (w * b) == p * b && y * (w * b) == t * w by {
      assert x * (w * b) == (x * w) * b;
      assert y * (w * b) == (y * b) * w;
    }
    assert (bottom * part) as real == b * p && (top * whole) as real == t * w;
  }

  lemma TimesKeepsOrder(x: real, y: real, z: real)
    requires z > 0.0
    ensures x >= y <==> x * z >= y * z
  {
  }

  /** What a pass asks of the counters: nine in ten of the predicted observations right and 85 in
      a hundred of the expected ones found, 95 in a hundred of the labels right, the expected
      hypothesis first in four of five attempts and among the first three in 19 of twenty, the
      schema met at once in 19 of twenty and after repair in all, and every required uncertainty
      disclosed, of which there is at least one. */
  lemma PassesExactly(suite: seq<QualityCase>, attempts: seq<Attempt>)
    requires ScoreOf(suite, attempts).Scored?
    ensures Known(ById(suite), attempts)
    ensures var t, n := Total(ById(suite), attempts), |attempts|;
      ScoreOf(suite, attempts).passed <==>
        && 10 * t.observationCorrect >= 9 * Most(1, t.observationPredicted)
        && 20 * t.observationCorrect >= 17 * t.observationTrue
        && 20 * t.classificationCorrect >= 19 * t.classificationTotal
        && 5 * t.topOne >= 4 * n && 20 * t.topThree >= 19 * n
        && 20 * t.firstValid >= 19 * n && t.repairedValid >= n
        && t.uncertaintyFound >= Most(1, t.uncertaintyRequired)
  {
    hide Total, ById, Complete, Ratio;
    CompleteIsKnownToo(suite, attempts);
    var t, n := Total(ById(suite), attempts), |attempts|;
    RatioAtLeast(t.observationCorrect, AtLeastOne(t.observationPredicted), 9, 10);
    RatioAtLeast(t.observationCorrect, t.observationTrue, 17, 20);
    RatioAtLeast(t.classificationCorrect, t.classificationTotal, 19, 20);
    RatioAtLeast(t.topOne, n, 4, 5);
    RatioAtLeast(t.topThree, n, 19, 20);
    RatioAtLeast(t.firstValid, n, 19, 20);
    RatioAtLeast(t.repairedValid, n, 1, 1);
    RatioAtLeast(t.uncertaintyFound, AtLeastOne(t.uncertaintyRequired), 1, 1);
    assert 9.0 / 10.0 == 0.90 && 17.0 / 20.0 == 0.85 && 19.0 / 20.0 == 0.95 && 4.0 / 5.0 == 0.80 && 1.0 / 1.0 == 1.00;
  }

  /** Of cases under one identifier the last is the one an attempt is scored against. */
  lemma {:induction false} LastCaseCounts(suite: seq<QualityCase>, k: nat)
    requires k < |suite| && forall j :: k < j < |suite| ==> suite[j].id != suite[k].id
    ensures suite[k].id in ById(suite) && ById(suite)[suite[k].id] == suite[k]
  {
    var last := |suite| - 1;
    if k < last {
      assert suite[..last][k] == suite[k];
      assert forall j :: k < j < last ==> suite[..last][j] == suite[j];
      LastCaseCounts(suite[..last], k);
    }
  }
}
