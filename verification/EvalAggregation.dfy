/** Benchmark aggregation in two levels: per sample, then over the samples of a mode. Scores are real numbers. */
module EvalAggregation {

  datatype QA = QA(category: int, tokenF1: real, hitRate: real)

  /** Sums of scores with their count, or, once divided, their averages. */
  datatype Metrics = Metrics(f1: real, hitRate: real, count: int)

  datatype Agg = Agg(overallF1: real, overallHitRate: real, byCategory: map<int, Metrics>, total: int)

  const ZERO := Metrics(0.0, 0.0, 0)

  function Plus(a: Metrics, b: Metrics): Metrics {
    Metrics(a.f1 + b.f1, a.hitRate + b.hitRate, a.count + b.count)
  }

  function Times(x: real, n: int): real {
    x * n as real
  }

  function Over(x: real, n: int): real
    requires n != 0
  {
    x / n as real
  }

  /** Averages weighted back into sums. */
  function Weighted(m: Metrics): Metrics {
    Metrics(Times(m.f1, m.count), Times(m.hitRate, m.count), m.count)
  }

  function Averaged(m: Metrics): Metrics {
    if m.count > 0 then Metrics(Over(m.f1, m.count), Over(m.hitRate, m.count), m.count) else m
  }

  // ----- the flat definition ---------------------------------------------------------------

  function Score(q: QA): Metrics {
    Metrics(q.tokenF1, q.hitRate, 1)
  }

  /** All scores of one category, or of every category. */
  datatype Pick = All | Only(category: int)

  predicate Picks(p: Pick, category: int) {
    p.All? || p.category == category
  }

  function Sum(qs: seq<QA>, p: Pick): Metrics {
    if qs == [] then ZERO
    else
      var rest := Sum(qs[..|qs| - 1], p);
      var last := qs[|qs| - 1];
      if Picks(p, last.category) then Plus(rest, Score(last)) else rest
  }

  function Overall(a: Agg): Metrics {
    Metrics(a.overallF1, a.overallHitRate, a.total)
  }

  predicate Occurs(qs: seq<QA>, c: int) {
    exists q :: q in qs && q.category == c
  }

  /** The averages of a list of results: over all of it, and over each category that occurs in it. */
  ghost predicate IsAverage(a: Agg, qs: seq<QA>) {
    && Overall(a) == Averaged(Sum(qs, All))
    && (forall c :: c in a.byCategory <==> Occurs(qs, c))
    && (forall c :: c in a.byCategory ==> a.byCategory[c] == Averaged(Sum(qs, Only(c))))
  }

  // ----- what the averages are, in the scores themselves -----------------------------------

  function F1Total(qs: seq<QA>): real {
    if qs == [] then 0.0 else F1Total(qs[..|qs| - 1]) + qs[|qs| - 1].tokenF1
  }

  function HitRateTotal(qs: seq<QA>): real {
    if qs == [] then 0.0 else HitRateTotal(qs[..|qs| - 1]) + qs[|qs| - 1].hitRate
  }

  /** The results of one category, in order. */
  function OfCategory(qs: seq<QA>, c: int): seq<QA> {
    if qs == [] then []
    else OfCategory(qs[..|qs| - 1], c) + (if qs[|qs| - 1].category == c then [qs[|qs| - 1]] else [])
  }

  /** n results with these averages: the averages times their number are the totals. */
  predicate Means(f1: real, hitRate: real, count: int, qs: seq<QA>) {
    && count == |qs| && f1 * count as real == F1Total(qs) && hitRate * count as real == HitRateTotal(qs)
  }

  lemma {:induction false} SumIsTotal(qs: seq<QA>)
    ensures Sum(qs, All) == Metrics(F1Total(qs), HitRateTotal(qs), |qs|)
  {
    if qs != [] {
      SumIsTotal(qs[..|qs| - 1]);
    }
  }

  lemma {:induction false} SumOfCategory(qs: seq<QA>, c: int)
    ensures Sum(qs, Only(c)) == Sum(OfCategory(qs, c), All)
  {
    if qs != [] {
      var front, last := qs[..|qs| - 1], qs[|qs| - 1];
      SumOfCategory(front, c);
      if last.category == c {
        assert OfCategory(qs, c) == OfCategory(front, c) + [last];
        SumSnoc(OfCategory(front, c), last, All);
      } else {
        assert OfCategory(qs, c) == OfCategory(front, c);
      }
    }
  }

  lemma {:induction false} CategoryOccurs(qs: seq<QA>, c: int)
    ensures OfCategory(qs, c) != [] <==> Occurs(qs, c)
  {
    if qs != [] {
      CategoryOccurs(qs[..|qs| - 1], c);
      assert qs == qs[..|qs| - 1] + [qs[|qs| - 1]];
    }
  }

  lemma AveragedMeans(m: Metrics, qs: seq<QA>)
    requires m == Averaged(Metrics(F1Total(qs), HitRateTotal(qs), |qs|))
    ensures Means(m.f1, m.hitRate, m.count, qs)
  {
    if qs != [] {
      var n := |qs| as real;
      assert (F1Total(qs) / n) * n == F1Total(qs) && (HitRateTotal(qs) / n) * n == HitRateTotal(qs);
    }
  }

  /** The averages are the totals of the token-F1 scores and of the hit rates over their number: of all results, and of
      the results of each category that has any. */
  lemma AverageMeaning(a: Agg, qs: seq<QA>)
    requires IsAverage(a, qs)
    ensures Means(a.overallF1, a.overallHitRate, a.total, qs)
    ensures forall c :: c in a.byCategory <==> OfCategory(qs, c) != []
    ensures forall c :: c in a.byCategory ==>
              var m := a.byCategory[c]; Means(m.f1, m.hitRate, m.count, OfCategory(qs, c))
  {
    hide Sum, Averaged, Means, F1Total, HitRateTotal, Occurs, OfCategory;
    SumIsTotal(qs);
    AveragedMeans(Overall(a), qs);
    forall c
      ensures c in a.byCategory <==> OfCategory(qs, c) != []
      ensures c in a.byCategory ==> var m := a.byCategory[c]; Means(m.f1, m.hitRate, m.count, OfCategory(qs, c))
    {
      CategoryOccurs(qs, c);
      if c in a.byCategory {
        SumOfCategory(qs, c);
        SumIsTotal(OfCategory(qs, c));
        AveragedMeans(a.byCategory[c], OfCategory(qs, c));
      }
    }
  }

  lemma AverageUnique(a: Agg, b: Agg, qs: seq<QA>)
    requires IsAverage(a, qs) && IsAverage(b, qs)
    ensures a == b
  {
    assert Overall(a) == Overall(b);
    forall c
      ensures c in a.byCategory <==> c in b.byCategory
      ensures c in a.byCategory ==> a.byCategory[c] == b.byCategory[c]
    {
    }
    assert a.byCategory == b.byCategory;
  }

  lemma {:induction false} SumCount(qs: seq<QA>, p: Pick)
    ensures 0 <= Sum(qs, p).count <= |qs| && (p.All? ==> Sum(qs, p).count == |qs|)
    ensures Sum(qs, p).count == 0 <==> forall q :: q in qs ==> !Picks(p, q.category)
    ensures Sum(qs, p).count == 0 ==> Sum(qs, p) == ZERO
  {
    if qs != [] {
      SumCount(qs[..|qs| - 1], p);
      assert qs == qs[..|qs| - 1] + [qs[|qs| - 1]];
    }
  }

  lemma SumSnoc(qs: seq<QA>, q: QA, p: Pick)
    ensures Sum(qs + [q], p) == if Picks(p, q.category) then Plus(Sum(qs, p), Score(q)) else Sum(qs, p)
  {
    assert (qs + [q])[..|qs|] == qs;
  }

  lemma OccursSnoc(qs: seq<QA>, q: QA, c: int)
    ensures Occurs(qs + [q], c) <==> Occurs(qs, c) || q.category == c
    ensures !Occurs(qs, c) ==> Sum(qs, Only(c)) == ZERO
  {
    hide Sum;
    if !Occurs(qs, c) {
      SumCount(qs, Only(c));
    }
  }

  // ----- one sample ------------------------------------------------------------------------

  method AggregateMetrics(qs: seq<QA>) returns (agg: Agg)
    ensures IsAverage(agg, qs) && Means(agg.overallF1, agg.overallHitRate, agg.total, qs)
  {
    hide Sum, Occurs, Over, Means;
    var byCat: map<int, Metrics> := map[];
    var totalF1, totalHitRate := 0.0, 0.0;
    SumCount([], All);
    EmptyOccurs();
    for i := 0 to |qs|
      invariant Metrics(totalF1, totalHitRate, i) == Sum(qs[..i], All)
      invariant forall c :: c in byCat <==> Occurs(qs[..i], c)
      invariant forall c :: c in byCat ==> byCat[c] == Sum(qs[..i], Only(c))
    {
      var qr := qs[i];
      assert qs[..i + 1] == qs[..i] + [qr];
      SumSnoc(qs[..i], qr, All);
      forall c: int
        ensures Occurs(qs[..i + 1], c) <==> Occurs(qs[..i], c) || qr.category == c
        ensures !Occurs(qs[..i], c) ==> Sum(qs[..i], Only(c)) == ZERO
        ensures Sum(qs[..i + 1], Only(c)) ==
                if qr.category == c then Plus(Sum(qs[..i], Only(c)), Score(qr)) else Sum(qs[..i], Only(c))
      {
        OccursSnoc(qs[..i], qr, c);
        SumSnoc(qs[..i], qr, Only(c));
      }
      totalF1 := totalF1 + qr.tokenF1;
      totalHitRate := totalHitRate + qr.hitRate;
      var cat := if qr.category in byCat then byCat[qr.category] else ZERO;
      byCat := byCat[qr.category := Metrics(cat.f1 + qr.tokenF1, cat.hitRate + qr.hitRate, cat.count + 1)];
    }
    assert qs[..|qs|] == qs;
    var n := if |qs| == 0 then 1 else |qs|;
    NothingOverOne();
    SumCount(qs, All);
    var averaged := DivideInPlace(byCat);
    agg := Agg(Over(totalF1, n), Over(totalHitRate, n), averaged, |qs|);
    AverageMeaning(agg, qs);
  }

  lemma NothingOverOne()
    ensures Over(0.0, 1) == 0.0
  {
  }

  lemma EmptyOccurs()
    ensures forall c: int :: !Occurs([], c)
  {
  }

  /** Turns sums into averages, entry by entry in any order. */
  method DivideInPlace(sums: map<int, Metrics>) returns (averages: map<int, Metrics>)
    ensures averages.Keys == sums.Keys && forall c :: c in sums ==> averages[c] == Averaged(sums[c])
  {
    hide Over;
    averages := sums;
    var left: set<int> := sums.Keys;
    while exists c: int :: c in left
      invariant averages.Keys == sums.Keys && left <= sums.Keys
      invariant forall c :: c in sums ==> averages[c] == if c in left then sums[c] else Averaged(sums[c])
      decreases left
    {
      var c: int :| c in left;
      left := left - {c};
      var cat := averages[c];
      if cat.count > 0 {
        averages := averages[c := Metrics(Over(cat.f1, cat.count), Over(cat.hitRate, cat.count), cat.count)];
      }
    }
  }

  // ----- all samples of a mode -------------------------------------------------------------

  function CategoryOf(r: Agg, c: int): Metrics {
    if c in r.byCategory then Weighted(r.byCategory[c]) else ZERO
  }

  function Part(r: Agg, p: Pick): Metrics {
    if p.All? then Weighted(Overall(r)) else CategoryOf(r, p.category)
  }

  function Combined(rs: seq<Agg>, p: Pick): Metrics {
    if rs == [] then ZERO else Plus(Combined(rs[..|rs| - 1], p), Part(rs[|rs| - 1], p))
  }

  predicate Reported(rs: seq<Agg>, c: int) {
    exists r :: r in rs && c in r.byCategory
  }

  /** The question-weighted averages of per-sample averages. */
  ghost predicate IsCombined(a: Agg, rs: seq<Agg>) {
    && Overall(a) == Averaged(Combined(rs, All))
    && (forall c :: c in a.byCategory <==> Reported(rs, c))
    && (forall c :: c in a.byCategory ==> a.byCategory[c] == Averaged(Combined(rs, Only(c))))
  }

  lemma {:induction false} CombinedAbsent(rs: seq<Agg>, c: int)
    requires forall r :: r in rs ==> c !in r.byCategory
    ensures Combined(rs, Only(c)) == ZERO
  {
    if rs != [] {
      CombinedAbsent(rs[..|rs| - 1], c);
    }
  }

  method ComputeModeAgg(rs: seq<Agg>) returns (agg: Agg)
    ensures IsCombined(agg, rs)
  {
    hide Times, Over;
    var sum := ZERO;
    var byCat: map<int, Metrics> := map[];
    for i := 0 to |rs|
      invariant sum == Combined(rs[..i], All)
      invariant forall c :: c in byCat <==> Reported(rs[..i], c)
      invariant forall c :: c in byCat ==> byCat[c] == Combined(rs[..i], Only(c))
    {
      var r := rs[i];
      ghost var before := byCat;
      assert rs[..i + 1][..i] == rs[..i] && rs[..i + 1] == rs[..i] + [r];
      sum := Metrics(sum.f1 + Times(r.overallF1, r.total), sum.hitRate + Times(r.overallHitRate, r.total), sum.count + r.total);
      byCat := AddCategories(byCat, r);
      forall c | c in byCat
        ensures byCat[c] == Combined(rs[..i + 1], Only(c))
      {
        if c !in before {
          CombinedAbsent(rs[..i], c);
        }
      }
    }
    assert rs[..|rs|] == rs;
    if sum.count > 0 {
      sum := Metrics(Over(sum.f1, sum.count), Over(sum.hitRate, sum.count), sum.count);
    }
    var averaged := DivideInPlace(byCat);
    agg := Agg(sum.f1, sum.hitRate, averaged, sum.count);
  }

  /** Adds one sample's categories to the running sums, in any order. */
  method AddCategories(byCat: map<int, Metrics>, r: Agg) returns (sums: map<int, Metrics>)
    ensures sums.Keys == byCat.Keys + r.byCategory.Keys
    ensures forall c :: c in sums ==> sums[c] == Plus(if c in byCat then byCat[c] else ZERO, CategoryOf(r, c))
  {
    hide Times;
    sums := byCat;
    var left: set<int> := r.byCategory.Keys;
    while exists c: int :: c in left
      invariant left <= r.byCategory.Keys && sums.Keys == byCat.Keys + (r.byCategory.Keys - left)
      invariant forall c :: c in sums ==>
                  sums[c] == if c in left then byCat[c] else Plus(if c in byCat then byCat[c] else ZERO, CategoryOf(r, c))
      decreases left
    {
      var c: int :| c in left;
      left := left - {c};
      var cm := r.byCategory[c];
      var existing := if c in sums then sums[c] else ZERO;
      sums := sums[c := Metrics(existing.f1 + Times(cm.f1, cm.count), existing.hitRate + Times(cm.hitRate, cm.count),
                                existing.count + cm.count)];
    }
  }

  // ----- two levels are one ----------------------------------------------------------------

  function Flat(samples: seq<seq<QA>>): seq<QA> {
    if samples == [] then [] else Flat(samples[..|samples| - 1]) + samples[|samples| - 1]
  }

  lemma {:induction false} SumConcat(a: seq<QA>, b: seq<QA>, p: Pick)
    ensures Sum(a + b, p) == Plus(Sum(a, p), Sum(b, p))
  {
    if b == [] {
      assert a + b == a;
    } else {
      var front := b[..|b| - 1];
      assert (a + b)[..|a + b| - 1] == a + front;
      SumConcat(a, front, p);
    }
  }

  lemma WeightedUndoes(m: Metrics)
    requires m.count >= 0 && (m.count == 0 ==> m == ZERO)
    ensures Weighted(Averaged(m)) == m
  {
    if m.count > 0 {
      var n := m.count as real;
      assert (m.f1 / n) * n == m.f1 && (m.hitRate / n) * n == m.hitRate;
    }
  }

  lemma PartIsSum(r: Agg, qs: seq<QA>, p: Pick)
    requires IsAverage(r, qs)
    ensures Part(r, p) == Sum(qs, p)
  {
    SumCount(qs, p);
    WeightedUndoes(Sum(qs, p));
  }

  lemma {:induction false} CombinedIsSum(rs: seq<Agg>, samples: seq<seq<QA>>, p: Pick)
    requires |rs| == |samples| && forall i :: 0 <= i < |rs| ==> IsAverage(rs[i], samples[i])
    ensures Combined(rs, p) == Sum(Flat(samples), p)
  {
    if rs != [] {
      var n := |rs| - 1;
      CombinedIsSum(rs[..n], samples[..n], p);
      PartIsSum(rs[n], samples[n], p);
      SumConcat(Flat(samples[..n]), samples[n], p);
    }
  }

  lemma {:induction false} FlatCategories(rs: seq<Agg>, samples: seq<seq<QA>>, c: int)
    requires |rs| == |samples| && forall i :: 0 <= i < |rs| ==> IsAverage(rs[i], samples[i])
    ensures Reported(rs, c) <==> Occurs(Flat(samples), c)
  {
    if rs != [] {
      var n := |rs| - 1;
      FlatCategories(rs[..n], samples[..n], c);
      assert rs == rs[..n] + [rs[n]];
      assert IsAverage(rs[n], samples[n]);
    }
  }

  /** For any grouping into samples, empty ones included, the combined figures of the samples are exactly the figures
      of all their results taken together, overall and in every category. */
  lemma TwoLevelsAreFlat(a: Agg, rs: seq<Agg>, samples: seq<seq<QA>>)
    requires |rs| == |samples| && forall i :: 0 <= i < |rs| ==> IsAverage(rs[i], samples[i])
    ensures IsCombined(a, rs) <==> IsAverage(a, Flat(samples))
  {
    hide Combined, Sum, Averaged, Overall, Flat, Occurs, Reported;
    CombinedIsSum(rs, samples, All);
    forall c: int
      ensures Combined(rs, Only(c)) == Sum(Flat(samples), Only(c))
      ensures Reported(rs, c) <==> Occurs(Flat(samples), c)
    {
      CombinedIsSum(rs, samples, Only(c));
      FlatCategories(rs, samples, c);
    }
  }

  /** So the grouping does not matter. */
  lemma GroupingIrrelevant(a: Agg, b: Agg, rs: seq<Agg>, ts: seq<Agg>, samples: seq<seq<QA>>, others: seq<seq<QA>>)
    requires |rs| == |samples| && forall i :: 0 <= i < |rs| ==> IsAverage(rs[i], samples[i])
    requires |ts| == |others| && forall i :: 0 <= i < |ts| ==> IsAverage(ts[i], others[i])
    requires Flat(samples) == Flat(others) && IsCombined(a, rs) && IsCombined(b, ts)
    ensures a == b
  {
    TwoLevelsAreFlat(a, rs, samples);
    TwoLevelsAreFlat(b, ts, others);
    AverageUnique(a, b, Flat(samples));
  }

  /** The evaluation of one mode: every sample by itself, then all together. */
  method EvaluateMode(samples: seq<seq<QA>>) returns (agg: Agg)
    ensures IsAverage(agg, Flat(samples)) && Means(agg.overallF1, agg.overallHitRate, agg.total, Flat(samples))
  {
    var rs: seq<Agg> := [];
    for i := 0 to |samples|
      invariant |rs| == i && forall k :: 0 <= k < i ==> IsAverage(rs[k], samples[k])
    {
      var r := AggregateMetrics(samples[i]);
      rs := rs + [r];
    }
    agg := ComputeModeAgg(rs);
    TwoLevelsAreFlat(agg, rs, samples);
    AverageMeaning(agg, Flat(samples));
  }
}
