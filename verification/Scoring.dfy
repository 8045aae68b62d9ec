/** Scoring of the model-quality evaluation in tools/run_model_quality_evals.py, over reals. */
module Scoring {
  import opened Common

  datatype Kind = Observation | Inference

  /** A case of the suite; the evidence texts and identifiers' formats are not part of this model. */
  datatype QualityCase = QualityCase(
    id: string, evidence: set<string>, candidates: set<string>,
    observations: set<string>, inferences: set<string>,
    topHypothesis: string, topThree: seq<string>, planValid: bool, requireUncertainty: bool)

  /** `validate_case`. */
  predicate ValidCase(c: QualityCase) {
    && c.observations + c.inferences <= c.evidence && c.observations !! c.inferences
    && c.topHypothesis in c.candidates && |c.topThree| == 3 && Distinct(c.topThree)
    && forall h :: h in c.topThree ==> h in c.candidates
  }

  datatype Classified = Classified(key: string, kind: Kind)

  datatype VerdictData = VerdictData(
    classified: seq<Classified>, ranked: seq<string>, planValid: bool, uncertaintyDisclosed: bool)

  /** `validate_unique_keys`, and at least one ranked hypothesis. */
  predicate ValidVerdict(v: VerdictData) {
    && v.ranked != [] && Distinct(v.ranked)
    && forall i, j :: 0 <= i < j < |v.classified| ==> v.classified[i].key != v.classified[j].key
  }

  type Verdict = v: VerdictData | ValidVerdict(v) witness VerdictData([], ["hypothesis"], false, false)

  datatype Attempt = Attempt(
    caseId: string, repetition: int, firstPassValid: bool, afterRepairValid: bool, verdict: Option<Verdict>)

  datatype Totals = Totals(
    observationTrue: nat, observationPredicted: nat, observationCorrect: nat,
    classificationTotal: nat, classificationCorrect: nat,
    topOne: nat, topThree: nat, planCorrect: nat,
    uncertaintyRequired: nat, uncertaintyFound: nat, firstValid: nat, repairedValid: nat)

  const NOTHING := Totals(0, 0, 0, 0, 0, 0, 0, 0, 0, 0, 0, 0)

  function Sum(a: Totals, b: Totals): Totals {
    Totals(
      a.observationTrue + b.observationTrue, a.observationPredicted + b.observationPredicted,
      a.observationCorrect + b.observationCorrect, a.classificationTotal + b.classificationTotal,
      a.classificationCorrect + b.classificationCorrect, a.topOne + b.topOne, a.topThree + b.topThree,
      a.planCorrect + b.planCorrect, a.uncertaintyRequired + b.uncertaintyRequired,
      a.uncertaintyFound + b.uncertaintyFound, a.firstValid + b.firstValid, a.repairedValid + b.repairedValid)
  }

  function One(b: bool): nat { if b then 1 else 0 }

  function ExpectedLabels(c: QualityCase): map<string, Kind> {
    (map k | k in c.observations :: Observation) + (map k | k in c.inferences :: Inference)
  }

  function PredictedLabels(classified: seq<Classified>): map<string, Kind> {
    if classified == [] then map[]
    else
      var last := |classified| - 1;
      PredictedLabels(classified[..last])[classified[last].key := classified[last].kind]
  }

  function Observed(labels: map<string, Kind>): set<string> {
    set k | k in labels && labels[k].Observation?
  }

  function Correct(predicted: map<string, Kind>, observations: set<string>): nat {
    |Observed(predicted) * observations|
  }

  function Labelled(expected: map<string, Kind>, predicted: map<string, Kind>): nat {
    |expected.Keys + predicted.Keys|
  }

  /** The keys both label, and label alike. */
  function Agreed(a: map<string, Kind>, b: map<string, Kind>): set<string> {
    set k | k in a && k in b && a[k] == b[k]
  }

  /** What one attempt adds to the totals. */
  function Tally(c: QualityCase, a: Attempt): Totals {
    var expected := ExpectedLabels(c);
    match a.verdict
    case None =>
      NOTHING.(observationTrue := |c.observations|, classificationTotal := |expected.Keys|,
               uncertaintyRequired := One(c.requireUncertainty),
               firstValid := One(a.firstPassValid), repairedValid := One(a.afterRepairValid))
    case Some(v) =>
      var predicted := PredictedLabels(v.classified);
      Totals(
        |c.observations|, |Observed(predicted)|, Correct(predicted, c.observations),
        Labelled(expected, predicted), |Agreed(expected, predicted)|,
        One(v.ranked[0] == c.topHypothesis),
        One(c.topHypothesis in v.ranked[..if |v.ranked| < 3 then |v.ranked| else 3]),
        One(v.planValid == c.planValid), One(c.requireUncertainty), One(c.requireUncertainty && v.uncertaintyDisclosed),
        One(a.firstPassValid), One(a.afterRepairValid))
  }

  type Cases = map<string, QualityCase>

  /** `{case.id: case}`: of cases under one identifier the last counts. */
  function ById(suite: seq<QualityCase>): Cases {
    if suite == [] then map[] else ById(suite[..|suite| - 1])[suite[|suite| - 1].id := suite[|suite| - 1]]
  }

  predicate Known(cases: Cases, attempts: seq<Attempt>) {
    forall k :: 0 <= k < |attempts| ==> attempts[k].caseId in cases
  }

  function Total(cases: Cases, attempts: seq<Attempt>): Totals
    requires Known(cases, attempts)
  {
    if attempts == [] then NOTHING
    else
      var last := |attempts| - 1;
      Sum(Total(cases, attempts[..last]), Tally(cases[attempts[last].caseId], attempts[last]))
  }

  function ExpectedPairs(suite: seq<QualityCase>): set<(string, int)> {
    set k, r | 0 <= k < |suite| && 1 <= r < 4 :: (suite[k].id, r)
  }

  function Pairs(attempts: seq<Attempt>): seq<(string, int)> {
    seq(|attempts|, k requires 0 <= k < |attempts| => (attempts[k].caseId, attempts[k].repetition))
  }

  function Members<T(==)>(s: seq<T>): set<T> { set x | x in s }

  /** The first check of `score`. */
  predicate Complete(suite: seq<QualityCase>, attempts: seq<Attempt>) {
    && Members(Pairs(attempts)) == ExpectedPairs(suite)
    && |attempts| == |ExpectedPairs(suite)|
  }

  datatype Metrics = Metrics(
    observationPrecision: real, observationRecall: real, classificationAccuracy: real,
    hypothesisTopOne: real, hypothesisTopThree: real, typedPlanAccuracy: real,
    schemaFirstPass: real, schemaAfterRepair: real, uncertaintyRequiredRecall: real)

  function Ratio(part: nat, whole: nat): real
    requires whole > 0
  {
    part as real / whole as real
  }

  function AtLeastOne(n: nat): nat { if n == 0 then 1 else n }

  function MetricsOf(t: Totals, count: nat): Metrics
    requires t.observationTrue > 0 && t.classificationTotal > 0 && count > 0
  {
    Metrics(
      Ratio(t.observationCorrect, AtLeastOne(t.observationPredicted)), Ratio(t.observationCorrect, t.observationTrue),
      Ratio(t.classificationCorrect, t.classificationTotal), Ratio(t.topOne, count), Ratio(t.topThree, count),
      Ratio(t.planCorrect, count), Ratio(t.firstValid, count), Ratio(t.repairedValid, count),
      Ratio(t.uncertaintyFound, AtLeastOne(t.uncertaintyRequired)))
  }

  /** All gates of `THRESHOLDS`; the typed plan accuracy has none. */
  predicate Passes(m: Metrics) {
    && m.observationPrecision >= 0.90 && m.observationRecall >= 0.85 && m.classificationAccuracy >= 0.95
    && m.hypothesisTopOne >= 0.80 && m.hypothesisTopThree >= 0.95
    && m.schemaFirstPass >= 0.95 && m.schemaAfterRepair >= 1.00 && m.uncertaintyRequiredRecall >= 1.00
  }

  datatype Score = Incomplete | DivisionByZero | Scored(metrics: Metrics, passed: bool)

  function ScoreOf(suite: seq<QualityCase>, attempts: seq<Attempt>): Score {
    if !Complete(suite, attempts) then Incomplete
    else
      CompleteIsKnown(suite, attempts);
      var t := Total(ById(suite), attempts);
      if t.observationTrue == 0 || t.classificationTotal == 0 || |attempts| == 0 then DivisionByZero
      else Scored(MetricsOf(t, |attempts|), Passes(MetricsOf(t, |attempts|)))
  }

  lemma {:induction false} ByIdHolds(suite: seq<QualityCase>, id: string)
    ensures id in ById(suite) <==> exists k :: 0 <= k < |suite| && suite[k].id == id
    ensures id in ById(suite) ==> ById(suite)[id] in suite
  {
    if suite != [] {
      var last := |suite| - 1;
      ByIdHolds(suite[..last], id);
      if id == suite[last].id {
        assert suite[last].id == id;
      } else if id in ById(suite[..last]) {
        var k :| 0 <= k < last && suite[..last][k].id == id;
        assert suite[k].id == id;
      } else {
        forall k | 0 <= k < |suite| ensures suite[k].id != id {
          assert k < last ==> suite[..last][k] == suite[k];
        }
      }
    }
  }

  lemma CompleteIsKnown(suite: seq<QualityCase>, attempts: seq<Attempt>)
    requires Members(Pairs(attempts)) == ExpectedPairs(suite)
    ensures Known(ById(suite), attempts)
  {
    forall k | 0 <= k < |attempts| ensures attempts[k].caseId in ById(suite) {
      var pair := Pairs(attempts)[k];
      assert pair in ExpectedPairs(suite);
      ByIdHolds(suite, attempts[k].caseId);
    }
  }

  /** `score`: the check, then the counting loop. */
  method ScoreAttempts(suite: seq<QualityCase>, attempts: seq<Attempt>) returns (r: Score)
    ensures r == ScoreOf(suite, attempts)
  {
    if Members(Pairs(attempts)) != ExpectedPairs(suite) || |attempts| != |ExpectedPairs(suite)| {
      return Incomplete;
    }
    CompleteIsKnown(suite, attempts);
    var t := Count(ById(suite), attempts);
    if t.observationTrue == 0 || t.classificationTotal == 0 || |attempts| == 0 {
      return DivisionByZero;
    }
    var metrics := MetricsOf(t, |attempts|);
    r := Scored(metrics, Passes(metrics));
  }

  /** One turn of the counting loop. */
  method CountOne(c: QualityCase, attempt: Attempt, before: Totals) returns (t: Totals)
    ensures t == Sum(before, Tally(c, attempt))
  {
    hide PredictedLabels, ExpectedLabels, Observed, Agreed, Correct, Labelled;
    var expected := ExpectedLabels(c);
    var firstValid := before.firstValid + One(attempt.firstPassValid);
    var repairedValid := before.repairedValid + One(attempt.afterRepairValid);
    var observationTrue := before.observationTrue + |c.observations|;
    if attempt.verdict.None? {
      return before.(
        firstValid := firstValid, repairedValid := repairedValid, observationTrue := observationTrue,
        classificationTotal := before.classificationTotal + |expected.Keys|,
        uncertaintyRequired := before.uncertaintyRequired + One(c.requireUncertainty));
    }
    var verdict := attempt.verdict.value;
    var predicted, ranked := PredictedLabels(verdict.classified), verdict.ranked;
    var observationPredicted := before.observationPredicted + |Observed(predicted)|;
    var observationCorrect := before.observationCorrect + Correct(predicted, c.observations);
    var classificationTotal := before.classificationTotal + Labelled(expected, predicted);
    var classificationCorrect := before.classificationCorrect + |Agreed(expected, predicted)|;
    var topOne := before.topOne + One(ranked[0] == c.topHypothesis);
    var topThree := before.topThree + One(c.topHypothesis in ranked[..if |ranked| < 3 then |ranked| else 3]);
    var planCorrect := before.planCorrect + One(verdict.planValid == c.planValid);
    var uncertaintyRequired, uncertaintyFound := before.uncertaintyRequired, before.uncertaintyFound;
    if c.requireUncertainty {
      uncertaintyRequired := uncertaintyRequired + 1;
      uncertaintyFound := uncertaintyFound + One(verdict.uncertaintyDisclosed);
    }
    t := Totals(
      observationTrue, observationPredicted, observationCorrect, classificationTotal, classificationCorrect,
      topOne, topThree, planCorrect, uncertaintyRequired, uncertaintyFound, firstValid, repairedValid);
  }

  /** The counting loop. */
  method Count(cases: Cases, attempts: seq<Attempt>) returns (t: Totals)
    requires Known(cases, attempts)
    ensures t == Total(cases, attempts)
  {
    hide Tally, Sum;
    t := NOTHING;
    for k := 0 to |attempts|
      invariant t == Total(cases, attempts[..k])
    {
      t := CountOne(cases[attempts[k].caseId], attempts[k], t);
      assert attempts[..k + 1][..k] == attempts[..k];
    }
    assert attempts[..|attempts|] == attempts;
  }
}
