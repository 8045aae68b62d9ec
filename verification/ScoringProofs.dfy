/** What the score promises of every list of attempts. */
module ScoringProofs {
  import opened Common
  import opened Scoring

  /** What every tally keeps, over a number of attempts. */
  predicate Bounded(t: Totals, count: nat) {
    && t.observationCorrect <= t.observationPredicted && t.observationCorrect <= t.observationTrue
    && t.observationTrue <= t.classificationTotal && t.classificationCorrect <= t.classificationTotal
    && t.topOne <= t.topThree <= count && t.planCorrect <= count
    && t.firstValid <= count && t.repairedValid <= count && t.uncertaintyFound <= t.uncertaintyRequired
  }

  lemma SubsetSize<T>(a: set<T>, b: set<T>)
    requires a <= b
    ensures |a| <= |b|
  {
    assert b == a + (b - a);
  }

  lemma LabelSizes(c: QualityCase, predicted: map<string, Kind>)
    ensures var expected := ExpectedLabels(c);
      && |c.observations| <= |expected.Keys| && |expected.Keys| <= Labelled(expected, predicted)
      && |Agreed(expected, predicted)| <= Labelled(expected, predicted)
      && Correct(predicted, c.observations) <= |c.observations|
      && Correct(predicted, c.observations) <= |Observed(predicted)|
  {
    var expected := ExpectedLabels(c);
    SubsetSize(c.observations, expected.Keys);
    SubsetSize(expected.Keys, expected.Keys + predicted.Keys);
    SubsetSize(Agreed(expected, predicted), expected.Keys + predicted.Keys);
    SubsetSize(Observed(predicted) * c.observations, c.observations);
    SubsetSize(Observed(predicted) * c.observations, Observed(predicted));
  }

  lemma TallyBounded(c: QualityCase, a: Attempt)
    ensures Bounded(Tally(c, a), 1)
  {
    hide ExpectedLabels, PredictedLabels, Observed, Agreed, Correct, Labelled;
    LabelSizes(c, if a.verdict.Some? then PredictedLabels(a.verdict.value.classified) else map[]);
  }

  lemma {:induction false} TotalBounded(cases: Cases, attempts: seq<Attempt>)
    requires Known(cases, attempts)
    ensures Bounded(Total(cases, attempts), |attempts|)
  {
    hide Tally;
    if attempts != [] {
      var last := |attempts| - 1;
      TotalBounded(cases, attempts[..last]);
      TallyBounded(cases[attempts[last].caseId], attempts[last]);
    }
  }

  predicate Fraction(x: real) { 0.0 <= x <= 1.0 }

  lemma RatioIsFraction(part: nat, whole: nat)
    requires part <= whole && whole > 0
    ensures Fraction(Ratio(part, whole)) && (Ratio(part, whole) >= 1.0 <==> part == whole)
  {
  }

  lemma RatioMonotone(a: nat, b: nat, whole: nat)
    requires a <= b && whole > 0
    ensures Ratio(a, whole) <= Ratio(b, whole)
  {
  }

  /** Some case that counts expects an observation. */
  predicate ObservationExpected(suite: seq<QualityCase>) {
    exists id :: id in ById(suite) && ById(suite)[id].observations != {}
  }

  /** The attempts are scored exactly when they are complete and some observation is expected;
      then every metric lies in [0, 1], top-1 is at most top-3, and otherwise the division by
      the expected observations raises. */
  lemma ScoredExactly(suite: seq<QualityCase>, attempts: seq<Attempt>)
    ensures var r := ScoreOf(suite, attempts);
      && (r.Incomplete? <==> !Complete(suite, attempts))
      && (r.Scored? <==> Complete(suite, attempts) && ObservationExpected(suite))
      && (r.Scored? ==>
            && Fraction(r.metrics.observationPrecision) && Fraction(r.metrics.observationRecall)
            && Fraction(r.metrics.classificationAccuracy)
            && Fraction(r.metrics.hypothesisTopOne) && Fraction(r.metrics.hypothesisTopThree)
            && Fraction(r.metrics.typedPlanAccuracy) && Fraction(r.metrics.schemaFirstPass)
            && Fraction(r.metrics.schemaAfterRepair) && Fraction(r.metrics.uncertaintyRequiredRecall)
            && r.metrics.hypothesisTopOne <= r.metrics.hypothesisTopThree)
  {
    if Complete(suite, attempts) {
      CompleteIsKnown(suite, attempts);
      var t, n := Total(ById(suite), attempts), |attempts|;
      TotalBounded(ById(suite), attempts);
      ObservationsCounted(suite, attempts);
      if t.observationTrue > 0 {
        assert n > 0;
        MetricsAreFractions(t, n);
      }
    }
  }

  lemma MetricsAreFractions(t: Totals, n: nat)
    requires Bounded(t, n) && t.observationTrue > 0 && t.classificationTotal > 0 && n > 0
    ensures var m := MetricsOf(t, n);
      && Fraction(m.observationPrecision) && Fraction(m.observationRecall) && Fraction(m.classificationAccuracy)
      && Fraction(m.hypothesisTopOne) && Fraction(m.hypothesisTopThree) && Fraction(m.typedPlanAccuracy)
      && Fraction(m.schemaFirstPass) && Fraction(m.schemaAfterRepair) && Fraction(m.uncertaintyRequiredRecall)
      && m.hypothesisTopOne <= m.hypothesisTopThree
      && (m.schemaAfterRepair >= 1.0 <==> t.repairedValid == n)
      && (m.uncertaintyRequiredRecall >= 1.0
          <==> t.uncertaintyRequired > 0 && t.uncertaintyFound == t.uncertaintyRequired)
  {
    hide Ratio, Fraction;
    RatioIsFraction(t.observationCorrect, AtLeastOne(t.observationPredicted));
    RatioIsFraction(t.observationCorrect, t.observationTrue);
    RatioIsFraction(t.classificationCorrect, t.classificationTotal);
    RatioIsFraction(t.topOne, n);
    RatioIsFraction(t.topThree, n);
    RatioIsFraction(t.planCorrect, n);
    RatioIsFraction(t.firstValid, n);
    RatioIsFraction(t.repairedValid, n);
    RatioIsFraction(t.uncertaintyFound, AtLeastOne(t.uncertaintyRequired));
    RatioMonotone(t.topOne, t.topThree, n);
  }

  lemma {:induction false} NoObservationsTotal(cases: Cases, attempts: seq<Attempt>)
    requires Known(cases, attempts)
    ensures Total(cases, attempts).observationTrue == 0
            <==> forall k :: 0 <= k < |attempts| ==> cases[attempts[k].caseId].observations == {}
  {
    hide Tally;
    if attempts != [] {
      var last := |attempts| - 1;
      NoObservationsTotal(cases, attempts[..last]);
      TallyCounts(cases[attempts[last].caseId], attempts[last]);
      assert forall k :: 0 <= k < last ==> attempts[..last][k] == attempts[k];
    }
  }

  lemma ObservationsCounted(suite: seq<QualityCase>, attempts: seq<Attempt>)
    requires Complete(suite, attempts) && Known(ById(suite), attempts)
    ensures Total(ById(suite), attempts).observationTrue > 0 <==> ObservationExpected(suite)
  {
    hide Total;
    var cases := ById(suite);
    NoObservationsTotal(cases, attempts);
    if ObservationExpected(suite) {
      var id :| id in cases && cases[id].observations != {};
      ByIdHolds(suite, id);
      var k :| 0 <= k < |suite| && suite[k].id == id;
      assert (suite[k].id, 1) in ExpectedPairs(suite);
      assert (id, 1) in Members(Pairs(attempts));
      var j :| 0 <= j < |attempts| && Pairs(attempts)[j] == (id, 1);
      assert cases[attempts[j].caseId].observations != {};
    }
  }

  /** A sequence as long as its set of members repeats nothing. */
  lemma {:induction false} PairwiseDistinct<T>(s: seq<T>)
    ensures |Members(s)| <= |s|
    ensures |Members(s)| == |s| <==> Distinct(s)
  {
    if s != [] {
      var n := |s| - 1;
      var front, last := s[..n], s[n];
      PairwiseDistinct(front);
      assert s == front + [last];
      assert Members(s) == Members(front) + {last};
      if last in front {
        assert Members(s) == Members(front);
        var j :| 0 <= j < n && front[j] == last;
        assert s[j] == s[n];
      } else {
        assert forall i :: 0 <= i < n ==> s[i] == front[i];
      }
    }
  }

  /** The suite has a case of that identifier. */
  predicate Of(suite: seq<QualityCase>, id: string) { exists j :: 0 <= j < |suite| && suite[j].id == id }

  /** Exactly one attempt is that repetition of the case. */
  predicate Once(attempts: seq<Attempt>, id: string, repetition: int) {
    exists k :: 0 <= k < |attempts| && attempts[k].caseId == id && attempts[k].repetition == repetition
                && forall i :: 0 <= i < |attempts| && i != k ==>
                     attempts[i].caseId != id || attempts[i].repetition != repetition
  }

  /** Each of three repetitions of every case once, and nothing else. */
  predicate Thrice(suite: seq<QualityCase>, attempts: seq<Attempt>) {
    && (forall k :: 0 <= k < |attempts| ==> 1 <= attempts[k].repetition <= 3 && Of(suite, attempts[k].caseId))
    && (forall j :: 0 <= j < |suite| ==>
          Once(attempts, suite[j].id, 1) && Once(attempts, suite[j].id, 2) && Once(attempts, suite[j].id, 3))
  }

  /** A list is complete when it attempts each of three repetitions of every case once, and
      nothing else. */
  lemma CompleteExactly(suite: seq<QualityCase>, attempts: seq<Attempt>)
    ensures Complete(suite, attempts) <==> Thrice(suite, attempts)
  {
    if Complete(suite, attempts) {
      CompleteIsThrice(suite, attempts);
    }
    if Thrice(suite, attempts) {
      ThriceIsComplete(suite, attempts);
    }
  }

  lemma CompleteIsThrice(suite: seq<QualityCase>, attempts: seq<Attempt>)
    requires Complete(suite, attempts)
    ensures Thrice(suite, attempts)
  {
    var pairs := Pairs(attempts);
    PairwiseDistinct(pairs);
    forall k | 0 <= k < |attempts| ensures 1 <= attempts[k].repetition <= 3 && Of(suite, attempts[k].caseId) {
      assert pairs[k] in ExpectedPairs(suite);
    }
    forall j: nat, r | j < |suite| && 1 <= r < 4 ensures Once(attempts, suite[j].id, r) {
      assert (suite[j].id, r) in Members(pairs);
      var k :| 0 <= k < |pairs| && pairs[k] == (suite[j].id, r);
      forall i | 0 <= i < |attempts| && i != k
        ensures attempts[i].caseId != suite[j].id || attempts[i].repetition != r
      {
        assert pairs[i] != pairs[k] by {
          assert if i < k then pairs[i] != pairs[k] else pairs[k] != pairs[i];
        }
      }
      assert attempts[k].caseId == suite[j].id;
    }
  }

  lemma ThriceIsComplete(suite: seq<QualityCase>, attempts: seq<Attempt>)
    requires Thrice(suite, attempts)
    ensures Complete(suite, attempts)
  {
    ThriceMembers(suite, attempts);
    forall i, k | 0 <= i < k < |attempts| ensures Pairs(attempts)[i] != Pairs(attempts)[k] {
      ThriceDiffers(suite, attempts, i, k);
    }
    hide Thrice, ExpectedPairs;
    PairwiseDistinct(Pairs(attempts));
  }

  lemma ThriceMembers(suite: seq<QualityCase>, attempts: seq<Attempt>)
    requires Thrice(suite, attempts)
    ensures Members(Pairs(attempts)) == ExpectedPairs(suite)
  {
    var pairs := Pairs(attempts);
    forall k | 0 <= k < |pairs| ensures pairs[k] in ExpectedPairs(suite) {
      var j :| 0 <= j < |suite| && suite[j].id == attempts[k].caseId;
      assert pairs[k] == (suite[j].id, attempts[k].repetition);
    }
    forall j: nat, r | j < |suite| && 1 <= r < 4 ensures (suite[j].id, r) in Members(pairs) {
      assert Once(attempts, suite[j].id, r);
      var k :| 0 <= k < |attempts| && attempts[k].caseId == suite[j].id && attempts[k].repetition == r;
      assert pairs[k] == (suite[j].id, r);
    }
  }

  lemma ThriceDiffers(suite: seq<QualityCase>, attempts: seq<Attempt>, i: nat, k: nat)
    requires Thrice(suite, attempts) && i < k < |attempts|
    ensures Pairs(attempts)[i] != Pairs(attempts)[k]
  {
    var id, r := attempts[k].caseId, attempts[k].repetition;
    assert Of(suite, id);
    var j :| 0 <= j < |suite| && suite[j].id == id;
    assert 1 <= r <= 3;
    assert Once(attempts, id, r) by {
      assert Once(attempts, suite[j].id, 1) && Once(attempts, suite[j].id, 2) && Once(attempts, suite[j].id, 3);
    }
    hide Thrice, Once, Of;
    OnceDiffers(attempts, i, k);
  }

  lemma OnceDiffers(attempts: seq<Attempt>, i: nat, k: nat)
    requires i < k < |attempts| && Once(attempts, attempts[k].caseId, attempts[k].repetition)
    ensures attempts[i].caseId != attempts[k].caseId || attempts[i].repetition != attempts[k].repetition
  {
  }

  lemma SumReorders(a: Totals, b: Totals, c: Totals)
    ensures Sum(Sum(a, b), c) == Sum(Sum(a, c), b)
  {
  }

  lemma {:induction false} TotalWithout(cases: Cases, attempts: seq<Attempt>, k: nat)
    requires Known(cases, attempts) && k < |attempts|
    ensures Known(cases, attempts[..k] + attempts[k + 1..])
    ensures Total(cases, attempts)
            == Sum(Total(cases, attempts[..k] + attempts[k + 1..]), Tally(cases[attempts[k].caseId], attempts[k]))
    decreases |attempts|
  {
    hide Tally, Sum;
    var n := |attempts| - 1;
    var without := attempts[..k] + attempts[k + 1..];
    if k == n {
      assert without == attempts[..n];
    } else {
      TotalWithout(cases, attempts[..n], k);
      assert without[..n - 1] == attempts[..n][..k] + attempts[..n][k + 1..];
      assert without[n - 1] == attempts[n];
      SumReorders(
        Total(cases, without[..n - 1]), Tally(cases[attempts[k].caseId], attempts[k]),
        Tally(cases[attempts[n].caseId], attempts[n]));
    }
  }

  lemma WithoutOne(s: seq<Attempt>, k: nat)
    requires k < |s|
    ensures multiset(s[..k] + s[k + 1..]) == multiset(s) - multiset{s[k]}
  {
    assert s == s[..k] + [s[k]] + s[k + 1..];
  }

  lemma DropOne(a: seq<Attempt>, b: seq<Attempt>, k: nat)
    requires multiset(a) == multiset(b) && a != [] && k < |b| && b[k] == a[|a| - 1]
    ensures multiset(b[..k] + b[k + 1..]) == multiset(a[..|a| - 1])
  {
    var n := |a| - 1;
    WithoutOne(a, n);
    WithoutOne(b, k);
    assert a[..n] + a[n + 1..] == a[..n];
  }

  lemma {:induction false} TotalUnordered(cases: Cases, a: seq<Attempt>, b: seq<Attempt>)
    requires Known(cases, a) && Known(cases, b) && multiset(a) == multiset(b)
    ensures |a| == |b| && Total(cases, a) == Total(cases, b)
    decreases |a|
  {
    hide Tally, Sum;
    assert |multiset(a)| == |a| && |multiset(b)| == |b|;
    if a != [] {
      var n := |a| - 1;
      assert a[n] in multiset(b);
      var k :| 0 <= k < |b| && b[k] == a[n];
      var rest := b[..k] + b[k + 1..];
      DropOne(a, b, k);
      TotalWithout(cases, b, k);
      TotalUnordered(cases, a[..n], rest);
    }
  }

  /** The score does not depend on the order of the attempts. */
  lemma ScoreIsUnordered(suite: seq<QualityCase>, a: seq<Attempt>, b: seq<Attempt>)
    requires multiset(a) == multiset(b)
    ensures ScoreOf(suite, a) == ScoreOf(suite, b)
  {
    hide Total, ById;
    assert |multiset(a)| == |a| && |multiset(b)| == |b|;
    SamePairs(a, b);
    if Complete(suite, a) {
      CompleteIsKnown(suite, a);
      CompleteIsKnown(suite, b);
      TotalUnordered(ById(suite), a, b);
    }
  }

  lemma SamePairs(a: seq<Attempt>, b: seq<Attempt>)
    requires multiset(a) == multiset(b)
    ensures Members(Pairs(a)) == Members(Pairs(b))
  {
    PairsWithin(a, b);
    PairsWithin(b, a);
  }

  lemma PairsWithin(a: seq<Attempt>, b: seq<Attempt>)
    requires multiset(a) == multiset(b)
    ensures Members(Pairs(a)) <= Members(Pairs(b))
  {
    forall pair | pair in Members(Pairs(a)) ensures pair in Members(Pairs(b)) {
      var k :| 0 <= k < |a| && Pairs(a)[k] == pair;
      assert a[k] in multiset(b);
      var j :| 0 <= j < |b| && b[j] == a[k];
      assert Pairs(b)[j] == pair;
    }
  }

  /** A required uncertainty is disclosed. */
  predicate Disclosed(c: QualityCase, a: Attempt) {
    c.requireUncertainty ==> a.verdict.Some? && a.verdict.value.uncertaintyDisclosed
  }

  lemma TallyCounts(c: QualityCase, a: Attempt)
    ensures Tally(c, a).observationTrue == |c.observations|
    ensures Tally(c, a).repairedValid == One(a.afterRepairValid)
    ensures Tally(c, a).uncertaintyRequired == One(c.requireUncertainty)
    ensures Tally(c, a).uncertaintyFound == One(c.requireUncertainty && Disclosed(c, a))
  {
  }

  lemma {:induction false} EveryRepairCounts(cases: Cases, attempts: seq<Attempt>)
    requires Known(cases, attempts)
    ensures Total(cases, attempts).repairedValid == |attempts|
            <==> forall k :: 0 <= k < |attempts| ==> attempts[k].afterRepairValid
  {
    hide Tally;
    if attempts != [] {
      var last := |attempts| - 1;
      EveryRepairCounts(cases, attempts[..last]);
      TallyCounts(cases[attempts[last].caseId], attempts[last]);
      TotalBounded(cases, attempts[..last]);
      assert forall k :: 0 <= k < last ==> attempts[..last][k] == attempts[k];
    }
  }

  predicate AllDisclosed(cases: Cases, attempts: seq<Attempt>)
    requires Known(cases, attempts)
  {
    forall k :: 0 <= k < |attempts| ==> Disclosed(cases[attempts[k].caseId], attempts[k])
  }

  lemma DisclosedOneMore(cases: Cases, attempts: seq<Attempt>)
    requires Known(cases, attempts) && attempts != []
    ensures var last := |attempts| - 1;
      && Known(cases, attempts[..last])
      && (AllDisclosed(cases, attempts)
          <==> AllDisclosed(cases, attempts[..last]) && Disclosed(cases[attempts[last].caseId], attempts[last]))
  {
    hide Disclosed;
    var last := |attempts| - 1;
    assert forall k :: 0 <= k < last ==> attempts[..last][k] == attempts[k];
  }

  lemma {:induction false} EveryDisclosureCounts(cases: Cases, attempts: seq<Attempt>)
    requires Known(cases, attempts)
    ensures Total(cases, attempts).uncertaintyFound == Total(cases, attempts).uncertaintyRequired
            <==> AllDisclosed(cases, attempts)
  {
    hide Tally;
    if attempts != [] {
      var last := |attempts| - 1;
      DisclosedOneMore(cases, attempts);
      EveryDisclosureCounts(cases, attempts[..last]);
      TallyCounts(cases[attempts[last].caseId], attempts[last]);
      TotalBounded(cases, attempts[..last]);
      hide AllDisclosed;
    }
  }

  lemma {:induction false} EveryRequirementCounts(cases: Cases, attempts: seq<Attempt>)
    requires Known(cases, attempts)
    ensures Total(cases, attempts).uncertaintyRequired > 0
            <==> exists k :: 0 <= k < |attempts| && cases[attempts[k].caseId].requireUncertainty
  {
    hide Tally;
    if attempts != [] {
      var last := |attempts| - 1;
      EveryRequirementCounts(cases, attempts[..last]);
      TallyCounts(cases[attempts[last].caseId], attempts[last]);
      assert forall k :: 0 <= k < last ==> attempts[..last][k] == attempts[k];
    }
  }

  /** A pass means every attempt is schema-valid after repair and every required uncertainty was
      disclosed, and that some uncertainty was required at all: a suite that requires none
      cannot pass. */
  lemma PassMeans(suite: seq<QualityCase>, attempts: seq<Attempt>)
    requires ScoreOf(suite, attempts).Scored? && ScoreOf(suite, attempts).passed
    ensures Known(ById(suite), attempts)
    ensures forall k :: 0 <= k < |attempts| ==> attempts[k].afterRepairValid
    ensures AllDisclosed(ById(suite), attempts)
    ensures exists k :: 0 <= k < |attempts| && ById(suite)[attempts[k].caseId].requireUncertainty
  {
    hide Ratio, Total;
    CompleteIsKnown(suite, attempts);
    TotalBounded(ById(suite), attempts);
    MetricsAreFractions(Total(ById(suite), attempts), |attempts|);
    EveryRepairCounts(ById(suite), attempts);
    EveryDisclosureCounts(ById(suite), attempts);
    EveryRequirementCounts(ById(suite), attempts);
  }

  /** A valid case loses no label to another. */
  lemma ValidLabels(c: QualityCase)
    requires ValidCase(c)
    ensures Observed(ExpectedLabels(c)) == c.observations && ExpectedLabels(c).Keys == c.observations + c.inferences
  {
  }

  function KeysOf(classified: seq<Classified>): set<string> { set c | c in classified :: c.key }

  /** The labels are the classifications, one key each. */
  predicate LabelsOf(classified: seq<Classified>, labels: map<string, Kind>) {
    && labels.Keys == KeysOf(classified) && |labels| == |classified|
    && forall k :: 0 <= k < |classified| ==>
         classified[k].key in labels && labels[classified[k].key] == classified[k].kind
  }

  lemma OneMoreLabel(front: seq<Classified>, c: Classified, labels: map<string, Kind>)
    requires LabelsOf(front, labels) && c.key !in labels
    ensures LabelsOf(front + [c], labels[c.key := c.kind])
  {
    hide KeysOf;
    OneMoreKey(front, c);
    MapGrows(labels, c.key, c.kind);
    assert forall k :: 0 <= k < |front| ==> front[k].key != c.key && (front + [c])[k] == front[k];
  }

  lemma MapGrows(labels: map<string, Kind>, key: string, kind: Kind)
    requires key !in labels
    ensures labels[key := kind].Keys == labels.Keys + {key} && |labels[key := kind]| == |labels| + 1
  {
    assert labels[key := kind].Keys == labels.Keys + {key};
    assert |labels[key := kind]| == |labels[key := kind].Keys| && |labels| == |labels.Keys|;
  }

  lemma OneMoreKey(front: seq<Classified>, c: Classified)
    ensures KeysOf(front + [c]) == KeysOf(front) + {c.key}
  {
    assert forall d :: d in front + [c] <==> d in front || d == c;
    forall key | key in KeysOf(front) + {c.key} ensures key in KeysOf(front + [c]) {
      if key == c.key {
        assert c in front + [c];
      } else {
        var d :| d in front && d.key == key;
        assert d in front + [c];
      }
    }
  }

  /** A valid verdict's labels are its classifications. */
  lemma {:induction false} VerdictLabels(classified: seq<Classified>)
    requires forall i, j :: 0 <= i < j < |classified| ==> classified[i].key != classified[j].key
    ensures LabelsOf(classified, PredictedLabels(classified))
  {
    if classified != [] {
      var last := |classified| - 1;
      VerdictLabels(classified[..last]);
      assert classified == classified[..last] + [classified[last]];
      OneMoreLabel(classified[..last], classified[last], PredictedLabels(classified[..last]));
    }
  }

  /** An attempt that is right in everything the score looks at. */
  predicate Perfect(c: QualityCase, a: Attempt) {
    && a.firstPassValid && a.afterRepairValid && a.verdict.Some? && Disclosed(c, a)
    && PredictedLabels(a.verdict.value.classified) == ExpectedLabels(c)
    && a.verdict.value.ranked[0] == c.topHypothesis && a.verdict.value.planValid == c.planValid
  }

  predicate FullMarks(t: Totals, count: nat) {
    && t.observationCorrect == t.observationPredicted == t.observationTrue
    && t.classificationCorrect == t.classificationTotal
    && t.topOne == t.topThree == t.planCorrect == t.firstValid == t.repairedValid == count
    && t.uncertaintyFound == t.uncertaintyRequired
  }

  lemma PerfectTally(c: QualityCase, a: Attempt)
    requires ValidCase(c) && Perfect(c, a)
    ensures FullMarks(Tally(c, a), 1)
  {
    ValidLabels(c);
    var labels := ExpectedLabels(c);
    assert labels.Keys + labels.Keys == labels.Keys == Agreed(labels, labels);
    assert Observed(labels) * c.observations == c.observations;
    var ranked := a.verdict.value.ranked;
    assert ranked[..if |ranked| < 3 then |ranked| else 3][0] == ranked[0];
  }

  lemma {:induction false} PerfectTotal(cases: Cases, attempts: seq<Attempt>)
    requires Known(cases, attempts)
    requires forall k :: 0 <= k < |attempts| ==>
      ValidCase(cases[attempts[k].caseId]) && Perfect(cases[attempts[k].caseId], attempts[k])
    ensures FullMarks(Total(cases, attempts), |attempts|)
  {
    hide Tally, ValidCase, Perfect;
    if attempts != [] {
      var last := |attempts| - 1;
      PerfectTotal(cases, attempts[..last]);
      PerfectTally(cases[attempts[last].caseId], attempts[last]);
    }
  }

  /** Flawless attempts pass, provided some uncertainty is required. */
  lemma PerfectPasses(suite: seq<QualityCase>, attempts: seq<Attempt>)
    requires Complete(suite, attempts) && ObservationExpected(suite) && Known(ById(suite), attempts)
    requires forall k :: 0 <= k < |attempts| ==>
      ValidCase(ById(suite)[attempts[k].caseId]) && Perfect(ById(suite)[attempts[k].caseId], attempts[k])
    ensures ScoreOf(suite, attempts).Scored?
    ensures ScoreOf(suite, attempts).passed
            <==> exists k :: 0 <= k < |attempts| && ById(suite)[attempts[k].caseId].requireUncertainty
  {
    hide Total, ById, Complete, ValidCase, Perfect, ObservationExpected;
    var t, n := Total(ById(suite), attempts), |attempts|;
    ScoredExactly(suite, attempts);
    TotalBounded(ById(suite), attempts);
    PerfectTotal(ById(suite), attempts);
    EveryRequirementCounts(ById(suite), attempts);
    FullMarksPass(t, n);
  }

  lemma FullMarksPass(t: Totals, n: nat)
    requires FullMarks(t, n) && t.observationTrue > 0 && t.classificationTotal > 0 && n > 0
    ensures Passes(MetricsOf(t, n)) <==> t.uncertaintyRequired > 0
  {
    RatioIsFraction(t.observationCorrect, t.observationTrue);
    RatioIsFraction(t.classificationCorrect, t.classificationTotal);
    RatioIsFraction(n, n);
    RatioIsFraction(t.uncertaintyFound, AtLeastOne(t.uncertaintyRequired));
    hide Ratio;
  }
}
