/** Kelly sizing: calibration cohorts, the stake plan and the drawdown of a balance path. */
module KellyLab {
  import opened Wrappers
  import opened Settlement

  type Signal = s: SignalRow | s.odds > 1.0 && 0.0 < s.modelProbability < 1.0
    witness SignalRow(0, 0, 0, Ou25, Over, 2.0, 0.5, 0.0)

  datatype SignalRow = SignalRow(id: nat, fixture: nat, qualifiedAt: int, market: Market, selection: Selection,
                                 odds: real, modelProbability: real, edge: real)

  // A research signal with the result that was known for it.
  datatype Prior = Prior(signal: Signal, result: FixtureResult)

  datatype KellyError = PriorNotPositive | OddsNotAboveOne | ProbabilityOutOfRange
                      | BankrollNotPositive | FractionOutOfRange | CapOutOfRange

  // ----- buckets -----

  // The position of pct among ascending edges; bucket k is [edges[k-1], edges[k]).
  function BucketOf(pct: real, edges: seq<real>): nat {
    if edges == [] || pct < edges[0] then 0 else 1 + BucketOf(pct, edges[1..])
  }

  const PROBABILITY_EDGES: seq<real> := [40.0, 45.0, 50.0, 55.0, 60.0, 65.0, 70.0, 75.0]
  const EDGE_EDGES: seq<real> := [0.0, 5.0, 10.0, 15.0, 20.0, 30.0]

  function ProbabilityBucket(p: real): nat {
    BucketOf(p * 100.0, PROBABILITY_EDGES)
  }

  function EdgeBucket(edge: real): nat {
    BucketOf(edge * 100.0, EDGE_EDGES)
  }

  // Bucket 0 is "other"; a bound shared by two ranges belongs to the first.
  function OddsBucket(odds: real): nat {
    if 1.4 <= odds <= 1.6 then 1
    else if 1.6 <= odds <= 1.8 then 2
    else if 1.8 <= odds <= 2.0 then 3
    else if 2.0 <= odds <= 2.5 then 4
    else if 2.5 <= odds <= 3.0 then 5
    else if 3.0 <= odds <= 3.5 then 6
    else 0
  }

  predicate Retired(s: Signal) {
    s.market == Ou25 && ((s.selection == Under && 1.4 <= s.odds <= 1.8) || (s.selection == Over && 1.61 <= s.odds <= 1.8))
  }

  datatype Dimension = MarketSelection | ModelProbability | Edge | Odds

  const DIMENSIONS: seq<Dimension> := [MarketSelection, ModelProbability, Edge, Odds]

  predicate Matches(row: Signal, candidate: Signal, d: Dimension) {
    match d
    case MarketSelection => row.market == candidate.market && row.selection == candidate.selection
    case ModelProbability => ProbabilityBucket(row.modelProbability) == ProbabilityBucket(candidate.modelProbability)
    case Edge => EdgeBucket(row.edge) == EdgeBucket(candidate.edge)
    case Odds => OddsBucket(row.odds) == OddsBucket(candidate.odds)
  }

  function OutcomeOf(row: Prior): Option<Outcome> {
    RowOutcome(row.signal.market, row.signal.selection, row.result)
  }

  // ----- calibration -----

  predicate InCohort(candidate: Signal, row: Prior, d: Dimension) {
    (OutcomeOf(row) == Some(Win) || OutcomeOf(row) == Some(Loss)) && Matches(row.signal, candidate, d)
  }

  function Cohort(candidate: Signal, prior: seq<Prior>, d: Dimension): seq<Prior> {
    if prior == [] then []
    else
      var last := prior[|prior| - 1];
      Cohort(candidate, prior[..|prior| - 1], d) + if InCohort(candidate, last, d) then [last] else []
  }

  function Wins(rows: seq<Prior>): nat {
    if rows == [] then 0
    else Wins(rows[..|rows| - 1]) + if OutcomeOf(rows[|rows| - 1]) == Some(Win) then 1 else 0
  }

  function ProbabilitySum(rows: seq<Prior>): real {
    if rows == [] then 0.0
    else ProbabilitySum(rows[..|rows| - 1]) + rows[|rows| - 1].signal.modelProbability
  }

  // The observed-minus-model gap of a cohort, shrunk by n / (n + priorN).
  function Contribution(cohort: seq<Prior>, priorN: int): real
    requires cohort != [] && priorN > 0
  {
    Shrunk(Wins(cohort) as real, ProbabilitySum(cohort), |cohort| as real, priorN as real)
  }

  function Shrunk(wins: real, expected: real, n: real, priorN: real): real
    requires n > 0.0 && priorN > 0.0
  {
    (wins / n - expected / n) * (n / (n + priorN))
  }

  function Contributions(candidate: Signal, prior: seq<Prior>, dimensions: seq<Dimension>, priorN: int): seq<real>
    requires priorN > 0
  {
    if dimensions == [] then []
    else
      var k := |dimensions| - 1;
      var cohort := Cohort(candidate, prior, dimensions[k]);
      Contributions(candidate, prior, dimensions[..k], priorN)
      + if cohort == [] then [] else [Contribution(cohort, priorN)]
  }

  function Sum(xs: seq<real>): real {
    if xs == [] then 0.0 else Sum(xs[..|xs| - 1]) + xs[|xs| - 1]
  }

  function Clamp(p: real): real {
    if p < 0.01 then 0.01 else if p > 0.99 then 0.99 else p
  }

  datatype Calibration = Calibration(gap: real, probability: real)

  function Combine(candidate: Signal, shifts: seq<real>): Calibration {
    var gap := if shifts == [] then 0.0 else Sum(shifts) / |shifts| as real;
    Calibration(gap, Clamp(candidate.modelProbability + gap))
  }

  function Calibrate(candidate: Signal, prior: seq<Prior>, priorN: int): Calibration
    requires priorN > 0
  {
    Combine(candidate, Contributions(candidate, prior, DIMENSIONS, priorN))
  }

  // What the snapshot records of one dimension; an empty cohort has no rates.
  datatype Report = Report(dimension: Dimension, n: nat, rates: Option<Rates>, contribution: real)
  datatype Rates = Rates(winRate: real, averageModel: real, gap: real, shrinkage: real)

  function ReportOf(cohort: seq<Prior>, d: Dimension, priorN: int): Report
    requires priorN > 0
  {
    if cohort == [] then Report(d, 0, None, 0.0)
    else
      var n := |cohort| as real;
      var winRate, averageModel := Wins(cohort) as real / n, ProbabilitySum(cohort) / n;
      Report(d, |cohort|, Some(Rates(winRate, averageModel, winRate - averageModel, n / (n + priorN as real))),
             Contribution(cohort, priorN))
  }

  function Reports(candidate: Signal, prior: seq<Prior>, dimensions: seq<Dimension>, priorN: int): seq<Report>
    requires priorN > 0
  {
    seq(|dimensions|, i requires 0 <= i < |dimensions| =>
      ReportOf(Cohort(candidate, prior, dimensions[i]), dimensions[i], priorN))
  }

  datatype Snapshot = Snapshot(calibration: Calibration, reports: seq<Report>)

  method CalibrationSnapshot(candidate: Signal, prior: seq<Prior>, priorN: int) returns (answer: Result<Snapshot, KellyError>)
    ensures priorN <= 0 ==> answer == Err(PriorNotPositive)
    ensures priorN > 0 ==>
              answer == Ok(Snapshot(Calibrate(candidate, prior, priorN), Reports(candidate, prior, DIMENSIONS, priorN)))
  {
    if priorN <= 0 {
      return Err(PriorNotPositive);
    }
    var reports: seq<Report>, shifts: seq<real> := [], [];
    for k := 0 to |DIMENSIONS|
      invariant shifts == Contributions(candidate, prior, DIMENSIONS[..k], priorN)
      invariant reports == Reports(candidate, prior, DIMENSIONS[..k], priorN)
    {
      ReportsGrow(candidate, prior, DIMENSIONS, k, priorN);
      var cohort := Cohort(candidate, prior, DIMENSIONS[k]);
      var report := ReportOf(cohort, DIMENSIONS[k], priorN);
      reports := reports + [report];
      if cohort == [] {
        continue;
      }
      shifts := shifts + [report.contribution];
    }
    assert DIMENSIONS[..|DIMENSIONS|] == DIMENSIONS;
    return Ok(Snapshot(Combine(candidate, shifts), reports));
  }

  lemma ReportsGrow(candidate: Signal, prior: seq<Prior>, dimensions: seq<Dimension>, k: nat, priorN: int)
    requires k < |dimensions| && priorN > 0
    ensures var cohort := Cohort(candidate, prior, dimensions[k]);
            var report := ReportOf(cohort, dimensions[k], priorN);
            var shifts := Contributions(candidate, prior, dimensions[..k], priorN);
            && Reports(candidate, prior, dimensions[..k + 1], priorN)
               == Reports(candidate, prior, dimensions[..k], priorN) + [report]
            && Contributions(candidate, prior, dimensions[..k + 1], priorN)
               == if cohort == [] then shifts else shifts + [report.contribution]
  {
    assert dimensions[..k + 1][..k] == dimensions[..k];
  }

  // The non-empty reports, and what they contribute together.
  function Evidenced(reports: seq<Report>): nat {
    if reports == [] then 0 else Evidenced(reports[..|reports| - 1]) + if reports[|reports| - 1].rates.Some? then 1 else 0
  }

  function Contributed(reports: seq<Report>): real {
    if reports == [] then 0.0 else Contributed(reports[..|reports| - 1]) + reports[|reports| - 1].contribution
  }

  // The recorded dimensions explain the gap: it is the mean contribution of the non-empty ones,
  // each of which contributes its own gap shrunk.
  lemma ReportsExplainGap(candidate: Signal, prior: seq<Prior>, priorN: int)
    requires priorN > 0
    ensures var reports := Reports(candidate, prior, DIMENSIONS, priorN);
            var gap := Calibrate(candidate, prior, priorN).gap;
            && gap == (if Evidenced(reports) == 0 then 0.0 else Contributed(reports) / Evidenced(reports) as real)
            && forall r | r in reports && r.rates.Some? :: r.contribution == r.rates.value.gap * r.rates.value.shrinkage
  {
    ReportsSum(candidate, prior, DIMENSIONS, priorN);
    var reports := Reports(candidate, prior, DIMENSIONS, priorN);
    forall r | r in reports && r.rates.Some? ensures r.contribution == r.rates.value.gap * r.rates.value.shrinkage {
      var i :| 0 <= i < |reports| && reports[i] == r;
      ReportShrunk(Cohort(candidate, prior, DIMENSIONS[i]), DIMENSIONS[i], priorN, r);
    }
  }

  lemma ReportShrunk(cohort: seq<Prior>, d: Dimension, priorN: int, r: Report)
    requires priorN > 0 && r == ReportOf(cohort, d, priorN) && r.rates.Some?
    ensures r.contribution == r.rates.value.gap * r.rates.value.shrinkage
  {
  }

  lemma {:induction false} ReportsSum(candidate: Signal, prior: seq<Prior>, dimensions: seq<Dimension>, priorN: int)
    requires priorN > 0
    ensures var reports := Reports(candidate, prior, dimensions, priorN);
            var shifts := Contributions(candidate, prior, dimensions, priorN);
            Evidenced(reports) == |shifts| && Contributed(reports) == Sum(shifts)
  {
    if dimensions != [] {
      var k := |dimensions| - 1;
      ReportsSum(candidate, prior, dimensions[..k], priorN);
      ReportsGrow(candidate, prior, dimensions, k, priorN);
      assert dimensions[..k + 1] == dimensions;
      var reports, shifts := Reports(candidate, prior, dimensions[..k], priorN), Contributions(candidate, prior, dimensions[..k], priorN);
      var report := ReportOf(Cohort(candidate, prior, dimensions[k]), dimensions[k], priorN);
      assert (reports + [report])[..k] == reports;
      assert (shifts + [report.contribution])[..|shifts|] == shifts;
    }
  }

  lemma {:induction false} CohortBounds(rows: seq<Prior>)
    ensures Wins(rows) <= |rows|
    ensures 0.0 <= ProbabilitySum(rows) <= |rows| as real
    ensures rows != [] ==> 0.0 < ProbabilitySum(rows) < |rows| as real
  {
    if rows != [] {
      CohortBounds(rows[..|rows| - 1]);
    }
  }

  lemma MulOrder(x: real, y: real, n: real)
    requires n > 0.0
    ensures (x <= y <==> x * n <= y * n) && (x < y <==> x * n < y * n)
  {
    if x <= y {
      assert (y - x) * n >= 0.0;
      assert x < y ==> (y - x) * n > 0.0;
    } else {
      assert (x - y) * n > 0.0;
    }
  }

  lemma MulSign(x: real, n: real)
    requires n > 0.0
    ensures (x > 0.0 <==> x * n > 0.0) && (x >= 0.0 <==> x * n >= 0.0)
  {
    if x < 0.0 {
      assert (-x) * n > 0.0;
    }
  }

  lemma MulUnit(x: real, n: real)
    requires n > 0.0
    ensures (x < 1.0 <==> x * n < n) && (x <= 1.0 <==> x * n <= n) && (-1.0 < x <==> -n < x * n) && (-1.0 <= x <==> -n <= x * n)
  {
    MulSign(1.0 - x, n);
    MulSign(x - 1.0, n);
    MulSign(1.0 + x, n);
    assert (1.0 - x) * n == n - x * n && (1.0 + x) * n == n + x * n;
  }

  // A cohort moves the probability by (wins - expected wins) / (n + priorN): toward what was
  // observed, and by less than n / (n + priorN).
  lemma ContributionExact(cohort: seq<Prior>, priorN: int)
    requires cohort != [] && priorN > 0
    ensures var c, total := Contribution(cohort, priorN), |cohort| as real + priorN as real;
            && c * total == Wins(cohort) as real - ProbabilitySum(cohort)
            && -(|cohort| as real) < c * total < |cohort| as real
            && -1.0 < c < 1.0
  {
    var n, m, w, p := |cohort| as real, priorN as real, Wins(cohort) as real, ProbabilitySum(cohort);
    CohortBounds(cohort);
    ShrunkExact(w, p, n, m);
  }

  lemma ShrunkExact(w: real, p: real, n: real, m: real)
    requires n > 0.0 && m > 0.0 && 0.0 <= w && w <= n && 0.0 < p && p < n
    ensures var c := Shrunk(w, p, n, m);
            c * (n + m) == w - p && -n < w - p && w - p < n && -1.0 < c && c < 1.0
  {
    ShrinkExact(w, p, n, m, w / n - p / n, n / (n + m), Shrunk(w, p, n, m));
  }

  lemma QuotientProduct(x: real, n: real)
    requires n > 0.0
    ensures (x / n) * n == x
  {
  }

  lemma ShrinkExact(w: real, p: real, n: real, m: real, gap: real, s: real, c: real)
    requires n > 0.0 && m > 0.0 && 0.0 <= w <= n && 0.0 < p < n
    requires gap == w / n - p / n && s == n / (n + m) && c == gap * s
    ensures c * (n + m) == w - p && -n < w - p < n && -1.0 < c < 1.0
  {
    QuotientProduct(w, n);
    QuotientProduct(p, n);
    QuotientProduct(n, n + m);
    ShrinkProduct(w, p, n, n + m, w / n, p / n, gap, s, c);
    UnitBound(c, n + m, w - p);
  }

  lemma ShrinkProduct(w: real, p: real, n: real, total: real, wn: real, pn: real, gap: real, s: real, c: real)
    requires wn * n == w && pn * n == p && s * total == n && gap == wn - pn && c == gap * s
    ensures c * total == w - p
  {
    assert c * total == gap * (s * total);
    assert gap * n == wn * n - pn * n;
  }

  lemma UnitBound(c: real, total: real, product: real)
    requires c * total == product && -total < product < total && total > 0.0
    ensures -1.0 < c < 1.0
  {
    MulUnit(c, total);
  }

  ghost predicate WithinOne(xs: seq<real>) {
    forall i | 0 <= i < |xs| :: -1.0 < xs[i] && xs[i] < 1.0
  }

  lemma ContributionWithin(cohort: seq<Prior>, priorN: int, c: real)
    requires cohort != [] && priorN > 0 && c == Contribution(cohort, priorN)
    ensures -1.0 < c < 1.0
  {
    ContributionExact(cohort, priorN);
  }

  lemma {:induction false} ContributionsBounded(candidate: Signal, prior: seq<Prior>, dimensions: seq<Dimension>, priorN: int)
    requires priorN > 0
    ensures WithinOne(Contributions(candidate, prior, dimensions, priorN))
  {
    if dimensions != [] {
      var k := |dimensions| - 1;
      ContributionsBounded(candidate, prior, dimensions[..k], priorN);
      var cohort := Cohort(candidate, prior, dimensions[k]);
      var rest := Contributions(candidate, prior, dimensions[..k], priorN);
      if cohort == [] {
        assert Contributions(candidate, prior, dimensions, priorN) == rest;
      } else {
        var c := Contribution(cohort, priorN);
        ContributionWithin(cohort, priorN, c);
        assert Contributions(candidate, prior, dimensions, priorN) == rest + [c];
      }
    }
  }

  lemma {:induction false} SumBounded(xs: seq<real>)
    requires WithinOne(xs)
    ensures -(|xs| as real) <= Sum(xs) <= |xs| as real
  {
    if xs != [] {
      var front := xs[..|xs| - 1];
      SumBounded(front);
      assert |xs| as real == |front| as real + 1.0;
    }
  }

  // The calibrated probability is always a usable one; without evidence it is the model's own.
  lemma CalibrationUsable(candidate: Signal, prior: seq<Prior>, priorN: int)
    requires priorN > 0
    ensures var c := Calibrate(candidate, prior, priorN);
            && 0.0 < c.probability < 1.0
            && -1.0 <= c.gap <= 1.0
            && ((forall r | r in prior :: OutcomeOf(r) == None || OutcomeOf(r) == Some(Void)) ==>
                 c == Calibration(0.0, Clamp(candidate.modelProbability)))
  {
    var shifts := Contributions(candidate, prior, DIMENSIONS, priorN);
    ContributionsBounded(candidate, prior, DIMENSIONS, priorN);
    MeanWithin(shifts);
    if forall r | r in prior :: OutcomeOf(r) == None || OutcomeOf(r) == Some(Void) {
      NoEvidence(candidate, prior, DIMENSIONS, priorN);
    }
  }

  lemma MeanWithin(xs: seq<real>)
    requires WithinOne(xs)
    ensures xs != [] ==> -1.0 <= Sum(xs) / |xs| as real <= 1.0
  {
    SumBounded(xs);
    if xs != [] {
      var n := |xs| as real;
      assert n > 0.0;
      MeanBounded(Sum(xs), n);
    }
  }

  lemma MeanBounded(total: real, n: real)
    requires n > 0.0 && -n <= total <= n
    ensures -1.0 <= total / n <= 1.0
  {
    var mean := total / n;
    assert mean * n == total;
    MulUnit(mean, n);
  }

  lemma {:induction false} NoEvidence(candidate: Signal, prior: seq<Prior>, dimensions: seq<Dimension>, priorN: int)
    requires priorN > 0
    requires forall r | r in prior :: OutcomeOf(r) == None || OutcomeOf(r) == Some(Void)
    ensures Contributions(candidate, prior, dimensions, priorN) == []
  {
    if dimensions != [] {
      NoEvidence(candidate, prior, dimensions[..|dimensions| - 1], priorN);
      EmptyCohort(candidate, prior, dimensions[|dimensions| - 1]);
    }
  }

  lemma {:induction false} EmptyCohort(candidate: Signal, prior: seq<Prior>, d: Dimension)
    requires forall r | r in prior :: OutcomeOf(r) == None || OutcomeOf(r) == Some(Void)
    ensures Cohort(candidate, prior, d) == []
  {
    if prior != [] {
      EmptyCohort(candidate, prior[..|prior| - 1], d);
    }
  }

  // ----- the stake plan -----

  function RawKelly(odds: real, probability: real): Result<real, KellyError> {
    if odds <= 1.0 then Err(OddsNotAboveOne)
    else if probability <= 0.0 || probability >= 1.0 then Err(ProbabilityOutOfRange)
    else
      var value := (odds * probability - 1.0) / (odds - 1.0);
      Ok(if value > 0.0 then value else 0.0)
  }

  // The raw fraction never exceeds the probability, and is positive exactly on a positive
  // expected value.
  lemma RawKellyBounded(odds: real, probability: real)
    ensures var raw := RawKelly(odds, probability);
            && (raw.Ok? <==> odds > 1.0 && 0.0 < probability < 1.0)
            && (raw.Ok? ==> 0.0 <= raw.value <= probability && (raw.value > 0.0 <==> odds * probability > 1.0))
  {
    if odds > 1.0 && 0.0 < probability < 1.0 {
      KellyQuotient(odds, probability);
    }
  }

  lemma KellyQuotient(odds: real, probability: real)
    requires odds > 1.0 && 0.0 < probability < 1.0
    ensures var value := (odds * probability - 1.0) / (odds - 1.0);
            value < probability && (value > 0.0 <==> odds * probability > 1.0)
  {
    var net := odds - 1.0;
    var value := (odds * probability - 1.0) / net;
    assert value * net == odds * probability - 1.0;
    assert probability * net == odds * probability - probability;
    MulOrder(value, probability, net);
    MulSign(value, net);
  }

  datatype Plan = Plan(raw: real, fractional: real, applied: real, stake: int)

  function StakePlan(bankroll: int, odds: real, probability: real, fraction: real, cap: real): Result<Plan, KellyError> {
    if bankroll <= 0 then Err(BankrollNotPositive)
    else if fraction <= 0.0 || fraction > 1.0 then Err(FractionOutOfRange)
    else if cap <= 0.0 || cap > 1.0 then Err(CapOutOfRange)
    else if RawKelly(odds, probability).Err? then Err(RawKelly(odds, probability).error)
    else
      Ok(SizedPlan(bankroll, RawKelly(odds, probability).value, fraction, cap))
  }

  function SizedPlan(bankroll: int, raw: real, fraction: real, cap: real): Plan {
    var fractional := raw * fraction;
    var applied := if cap < fractional then cap else fractional;
    var stake := RoundHalfUp(bankroll as real * applied);
    if raw <= 0.0 || stake <= 0 then Plan(raw, fractional, 0.0, 0) else Plan(raw, fractional, applied, stake)
  }

  // A stake is never more than the bankroll or, beyond half a minor unit, than its cap; and a
  // fraction is applied exactly when something is staked.
  lemma StakeBounded(bankroll: int, odds: real, probability: real, fraction: real, cap: real)
    ensures var plan := StakePlan(bankroll, odds, probability, fraction, cap);
            && (plan.Ok? <==> bankroll > 0 && odds > 1.0 && 0.0 < probability < 1.0
                              && 0.0 < fraction <= 1.0 && 0.0 < cap <= 1.0)
            && (plan.Ok? ==>
                 && 0 <= plan.value.stake <= bankroll
                 && plan.value.stake as real <= bankroll as real * cap + 0.5
                 && (plan.value.stake > 0 <==> plan.value.applied > 0.0)
                 && (plan.value.stake > 0 ==> odds * probability > 1.0))
  {
    RawKellyBounded(odds, probability);
    if StakePlan(bankroll, odds, probability, fraction, cap).Ok? {
      SizedPlanBounded(bankroll, RawKelly(odds, probability).value, fraction, cap, bankroll as real * cap);
    }
  }

  // The plan in terms of its inputs: full Kelly is the expected value over the net odds, the
  // fraction scales it, the cap bounds it, and the stake is that share of the bankroll, halves up.
  lemma StakePlanExactly(bankroll: int, odds: real, probability: real, fraction: real, cap: real)
    ensures var answer := StakePlan(bankroll, odds, probability, fraction, cap);
            && (bankroll <= 0 <==> answer == Err(BankrollNotPositive))
            && (answer.Ok? ==>
                 var plan := answer.value;
                 var share := if plan.raw * fraction < cap then plan.raw * fraction else cap;
                 && (odds * probability > 1.0 ==> plan.raw * (odds - 1.0) == odds * probability - 1.0)
                 && (odds * probability <= 1.0 ==> plan.raw == 0.0)
                 && plan.fractional == plan.raw * fraction
                 && bankroll as real * share - 0.5 < plan.stake as real <= bankroll as real * share + 0.5
                 && plan.applied == if plan.stake > 0 then share else 0.0)
  {
    RawKellyBounded(odds, probability);
    var answer := StakePlan(bankroll, odds, probability, fraction, cap);
    if answer.Ok? {
      var raw := RawKelly(odds, probability).value;
      RawExactly(odds, probability, raw);
      SizedPlanExactly(bankroll, raw, fraction, cap, SizedPlan(bankroll, raw, fraction, cap), raw * fraction);
    }
  }

  lemma RawExactly(odds: real, probability: real, raw: real)
    requires RawKelly(odds, probability) == Ok(raw)
    ensures odds * probability > 1.0 ==> raw * (odds - 1.0) == odds * probability - 1.0
    ensures odds * probability <= 1.0 ==> raw == 0.0
  {
    KellyQuotient(odds, probability);
    QuotientProduct(odds * probability - 1.0, odds - 1.0);
  }

  lemma SizedPlanExactly(bankroll: int, raw: real, fraction: real, cap: real, plan: Plan, fractional: real)
    requires bankroll > 0 && raw >= 0.0 && fraction > 0.0 && cap > 0.0 && plan == SizedPlan(bankroll, raw, fraction, cap)
    requires fractional == raw * fraction
    ensures var share := if fractional < cap then fractional else cap;
            && plan.raw == raw && plan.fractional == fractional
            && bankroll as real * share - 0.5 < plan.stake as real <= bankroll as real * share + 0.5
            && plan.applied == if plan.stake > 0 then share else 0.0
  {
    FractionApplied(raw, fraction);
    var share := if fractional < cap then fractional else cap;
    MulNonNegative(bankroll as real, share);
    var exact := bankroll as real * share;
    RoundHalfUpExactly(exact, RoundHalfUp(exact));
    if raw <= 0.0 {
      assert share == 0.0 && exact == 0.0;
    }
  }

  lemma SizedPlanBounded(bankroll: int, raw: real, fraction: real, cap: real, limit: real)
    requires limit == bankroll as real * cap && bankroll > 0 && raw >= 0.0 && fraction > 0.0 && 0.0 < cap <= 1.0
    ensures var plan := SizedPlan(bankroll, raw, fraction, cap);
            && 0 <= plan.stake <= bankroll
            && plan.stake as real <= limit + 0.5
            && (plan.stake > 0 <==> plan.applied > 0.0)
            && (plan.stake > 0 ==> raw > 0.0)
  {
    FractionApplied(raw, fraction);
    var fractional := raw * fraction;
    var applied := if cap < fractional then cap else fractional;
    assert applied >= 0.0;
    MulNonNegative(bankroll as real, cap);
    StakeOf(bankroll, applied, cap, limit);
    var stake := RoundHalfUp(bankroll as real * applied);
    var plan := SizedPlan(bankroll, raw, fraction, cap);
    assert limit >= 0.0;
    assert stake as real <= limit + 0.5;
    assert plan.stake == stake || plan.stake == 0;
  }

  lemma FractionApplied(raw: real, fraction: real)
    requires raw >= 0.0 && fraction > 0.0
    ensures raw * fraction >= 0.0 && (raw > 0.0 <==> raw * fraction > 0.0)
  {
    MulSign(raw, fraction);
  }

  lemma StakeOf(bankroll: int, applied: real, cap: real, limit: real)
    requires limit == bankroll as real * cap && bankroll > 0 && 0.0 <= applied && applied <= cap && cap <= 1.0
    ensures var stake := RoundHalfUp(bankroll as real * applied);
            && 0 <= stake <= bankroll
            && stake as real <= limit + 0.5
            && (stake > 0 ==> applied > 0.0)
  {
    var b := bankroll as real;
    var exact := b * applied;
    ScaleDown(b, applied, cap, exact, limit);
    assert exact <= b;
    RoundedBelow(bankroll, exact);
  }

  lemma ScaleDown(b: real, x: real, y: real, bx: real, limit: real)
    requires b > 0.0 && 0.0 <= x && x <= y && y <= 1.0 && bx == b * x && limit == b * y
    ensures 0.0 <= bx && bx <= limit && limit <= b && (x == 0.0 ==> bx == 0.0)
  {
    MulNonNegative(b, x);
    MulNonNegative(b, y - x);
    MulNonNegative(b, 1.0 - y);
  }

  lemma MulNonNegative(x: real, y: real)
    requires x >= 0.0 && y >= 0.0
    ensures x * y >= 0.0
  {
  }

  lemma RoundedBelow(bankroll: int, exact: real)
    requires 0.0 <= exact && exact <= bankroll as real
    ensures var stake := RoundHalfUp(exact);
            0 <= stake <= bankroll && stake as real <= exact + 0.5 && (stake > 0 ==> exact > 0.0)
  {
    RoundHalfUpIsNearest(exact);
  }

  // ----- one percent -----

  lemma OnePercent(balance: int, stake: int, cap: real)
    requires balance > 0 && cap <= 0.01 && stake as real <= balance as real * cap + 0.5
    ensures 100 * stake <= balance + 50
  {
    MulOrder(cap, 0.01, balance as real);
    assert balance as real * cap == cap * balance as real;
    assert 100.0 * (stake as real) <= balance as real + 50.0;
  }

  lemma ProfitNotNegative(stake: int, odds: real)
    requires stake >= 0 && odds > 1.0
    ensures RoundHalfUp(stake as real * (odds - 1.0)) >= 0
  {
    MulNonNegative(stake as real, odds - 1.0);
    RoundHalfUpIsNearest(stake as real * (odds - 1.0));
  }

  // ----- drawdown -----

  function Path(starting: int, pnls: seq<int>): seq<int> {
    if pnls == [] then [starting]
    else
      var before := Path(starting, pnls[..|pnls| - 1]);
      before + [before[|before| - 1] + pnls[|pnls| - 1]]
  }

  // How far a balance falls, relative to where it falls from.
  function RelativeFall(): (int, int) -> real {
    (from: int, to: int) => if from > 0 then (from - to) as real / from as real else 0.0
  }

  // Down to zero the higher start falls further, and by at most its whole; below zero the lower
  // start does, by more than its whole.
  ghost predicate FallLaws(fall: (int, int) -> real) {
    && (forall low, peak, to {:trigger fall(low, to), fall(peak, to)} | 0 < low <= peak && to >= 0 ::
         fall(low, to) <= fall(peak, to) && fall(peak, to) <= 1.0)
    && (forall low, peak, to {:trigger fall(low, to), fall(peak, to)} | 0 < low <= peak && to < 0 ::
         fall(peak, to) > 1.0 && fall(low, to) >= fall(peak, to) && (fall(low, to) == fall(peak, to) <==> low == peak))
    && (forall b | b > 0 :: fall(b, b) == 0.0)
  }

  lemma RelativeFallLaws()
    ensures FallLaws(RelativeFall())
  {
    forall low, peak, to | 0 < low <= peak && to >= 0
      ensures RelativeFall()(low, to) <= RelativeFall()(peak, to) && RelativeFall()(peak, to) <= 1.0
    {
      FallGrows(low as real, peak as real, to as real);
    }
    forall low, peak, to | 0 < low <= peak && to < 0
      ensures RelativeFall()(peak, to) > 1.0 && RelativeFall()(low, to) >= RelativeFall()(peak, to)
      ensures RelativeFall()(low, to) == RelativeFall()(peak, to) <==> low == peak
    {
      FallFurther(low as real, peak as real, to as real);
    }
  }

  lemma FallGrows(l: real, p: real, t: real)
    requires 0.0 < l <= p && t >= 0.0
    ensures (l - t) / l <= (p - t) / p && (p - t) / p <= 1.0
  {
    var x, y := (l - t) / l, (p - t) / p;
    assert x * l == l - t && y * p == p - t;
    MulUnit(y, p);
    assert (1.0 - y) * (p - l) >= 0.0;
    assert (1.0 - y) * l <= t;
    assert y * l >= x * l;
    MulOrder(x, y, l);
  }

  lemma FallFurther(l: real, p: real, t: real)
    requires 0.0 < l <= p && t < 0.0
    ensures var x, y := (l - t) / l, (p - t) / p;
            y > 1.0 && x >= y && (x == y <==> l == p)
  {
    var x, y := (l - t) / l, (p - t) / p;
    assert x * l == l - t && y * p == p - t;
    AboveOne(y, p, t);
    LowerFallsFurther(l, p, t, x, y);
  }

  lemma AboveOne(y: real, p: real, t: real)
    requires p > 0.0 && t < 0.0 && y * p == p - t
    ensures y > 1.0
  {
    MulUnit(y, p);
  }

  lemma LowerFallsFurther(l: real, p: real, t: real, x: real, y: real)
    requires 0.0 < l <= p && t < 0.0 && x * l == l - t && y * p == p - t && y > 1.0
    ensures x >= y && (x == y <==> l == p)
  {
    var gap := (y - 1.0) * (p - l);
    assert gap >= 0.0;
    assert (x - y) * l == gap by {
      assert (y - 1.0) * p == -t && (x - 1.0) * l == -t;
      assert gap == (y - 1.0) * p - (y - 1.0) * l;
    }
    MulSign(x - y, l);
    if l < p {
      MulSign(p - l, y - 1.0);
      assert (p - l) * (y - 1.0) == gap;
    }
  }

  // dd bounds the fall between any two moments, and one pair of moments attains it.
  ghost predicate GreatestFall(fall: (int, int) -> real, path: seq<int>, dd: real) {
    && (forall i, j {:trigger fall(path[i], path[j])} | 0 <= i <= j < |path| && path[i] > 0 :: fall(path[i], path[j]) <= dd)
    && (exists i, j {:trigger fall(path[i], path[j])} :: 0 <= i <= j < |path| && path[i] > 0 && fall(path[i], path[j]) == dd)
  }

  ghost predicate PeakOf(path: seq<int>, peak: int) {
    peak > 0 && peak in path && forall b | b in path :: b <= peak
  }

  // The greatest balance up to and including moment j.
  ghost predicate PeakAt(path: seq<int>, j: int, peak: int) {
    0 <= j < |path| && PeakOf(path[..j + 1], peak)
  }

  // dd is the greatest fall from the running peak.
  ghost predicate PeakFall(fall: (int, int) -> real, path: seq<int>, dd: real) {
    && (forall j, peak | PeakAt(path, j, peak) :: fall(peak, path[j]) <= dd)
    && (exists j, peak :: PeakAt(path, j, peak) && fall(peak, path[j]) == dd)
  }

  ghost predicate NeverNegative(path: seq<int>) {
    forall b | b in path :: b >= 0
  }

  lemma PeakPrefix(path: seq<int>, next: int, j: int, peak: int)
    requires 0 <= j < |path|
    ensures PeakAt(path + [next], j, peak) <==> PeakAt(path, j, peak)
  {
    assert (path + [next])[..j + 1] == path[..j + 1];
  }

  lemma PeakNext(path: seq<int>, peak: int, next: int)
    requires PeakOf(path, peak)
    ensures var peak' := if next > peak then next else peak;
            && PeakOf(path + [next], peak')
            && forall other :: PeakAt(path + [next], |path|, other) <==> other == peak'
  {
    var longer := path + [next];
    assert forall b :: b in longer <==> b in path || b == next;
    assert longer[..|path| + 1] == longer;
  }

  // What the loop holds after a path: its last balance, its peak and its greatest fall.
  ghost predicate FallenTo(fall: (int, int) -> real, path: seq<int>, held: (int, int, real)) {
    path != [] && held.0 == path[|path| - 1] && PeakOf(path, held.1) && PeakFall(fall, path, held.2)
  }

  lemma FallenStep(fall: (int, int) -> real, path: seq<int>, longer: seq<int>, held: (int, int, real), next: (int, int, real),
                   pnl: int)
    requires FallenTo(fall, path, held) && longer == path + [next.0]
    requires next.0 == held.0 + pnl && next.1 == (if next.0 > held.1 then next.0 else held.1)
    requires next.2 == if next.1 > 0 && fall(next.1, next.0) > held.2 then fall(next.1, next.0) else held.2
    ensures FallenTo(fall, longer, next)
  {
    PeakNext(path, held.1, next.0);
    FallsWithin(fall, path, next.0, next.1, held.2, next.2);
    FallAttained(fall, path, next.0, next.1, held.2, next.2);
  }

  lemma FallsWithin(fall: (int, int) -> real, path: seq<int>, balance: int, peak: int, dd: real, next: real)
    requires forall j, other | PeakAt(path, j, other) :: fall(other, path[j]) <= dd
    requires forall other :: PeakAt(path + [balance], |path|, other) <==> other == peak
    requires dd <= next && fall(peak, balance) <= next
    ensures forall j, other | PeakAt(path + [balance], j, other) :: fall(other, (path + [balance])[j]) <= next
  {
    forall j, other | PeakAt(path + [balance], j, other) ensures fall(other, (path + [balance])[j]) <= next {
      if j < |path| {
        PeakPrefix(path, balance, j, other);
      }
    }
  }

  lemma FallAttained(fall: (int, int) -> real, path: seq<int>, balance: int, peak: int, dd: real, next: real)
    requires exists j, other :: PeakAt(path, j, other) && fall(other, path[j]) == dd
    requires PeakAt(path + [balance], |path|, peak)
    requires next == dd || next == fall(peak, balance)
    ensures exists j, other :: PeakAt(path + [balance], j, other) && fall(other, (path + [balance])[j]) == next
  {
    if next == dd {
      var j, other :| PeakAt(path, j, other) && fall(other, path[j]) == dd;
      PeakPrefix(path, balance, j, other);
      assert (path + [balance])[j] == path[j];
    } else {
      assert (path + [balance])[|path|] == balance;
    }
  }

  lemma StartFall(fall: (int, int) -> real, starting: int)
    requires starting > 0 && fall(starting, starting) == 0.0
    ensures FallenTo(fall, [starting], (starting, starting, 0.0))
  {
    var path := [starting];
    assert path[..1] == path;
    assert PeakAt(path, 0, starting);
  }

  // What the loop carries: the balance, its peak and the greatest fall so far.
  function PeakFold(fall: (int, int) -> real, starting: int, pnls: seq<int>): (int, int, real) {
    if pnls == [] then (starting, starting, 0.0)
    else
      var (before, high, dd) := PeakFold(fall, starting, pnls[..|pnls| - 1]);
      var balance := before + pnls[|pnls| - 1];
      var peak := if balance > high then balance else high;
      (balance, peak, if peak > 0 && fall(peak, balance) > dd then fall(peak, balance) else dd)
  }

  lemma {:induction false} PeakFoldFalls(fall: (int, int) -> real, starting: int, pnls: seq<int>)
    requires starting > 0 && fall(starting, starting) == 0.0
    ensures FallenTo(fall, Path(starting, pnls), PeakFold(fall, starting, pnls))
  {
    if pnls == [] {
      StartFall(fall, starting);
    } else {
      var front := pnls[..|pnls| - 1];
      PeakFoldFalls(fall, starting, front);
      FallenStep(fall, Path(starting, front), Path(starting, pnls), PeakFold(fall, starting, front), PeakFold(fall, starting, pnls),
                 pnls[|pnls| - 1]);
    }
  }

  method PeakLoop(fall: (int, int) -> real, starting: int, pnls: seq<int>) returns (dd: real)
    ensures dd == PeakFold(fall, starting, pnls).2
  {
    var balance, peak := starting, starting;
    dd := 0.0;
    for k := 0 to |pnls|
      invariant PeakFold(fall, starting, pnls[..k]) == (balance, peak, dd)
    {
      assert pnls[..k + 1][..k] == pnls[..k];
      balance := balance + pnls[k];
      peak := if balance > peak then balance else peak;
      if peak > 0 {
        var fallen := fall(peak, balance);
        dd := if fallen > dd then fallen else dd;
      }
    }
    assert pnls[..|pnls|] == pnls;
  }

  // The running-peak loop finds the greatest fall from the running peak, on every path.
  method Drawdown(starting: int, pnls: seq<int>) returns (dd: real)
    requires starting > 0
    ensures PeakFall(RelativeFall(), Path(starting, pnls), dd)
  {
    RelativeFallLaws();
    PeakFoldFalls(RelativeFall(), starting, pnls);
    dd := PeakLoop(RelativeFall(), starting, pnls);
  }

  lemma {:induction false} PeakExists(path: seq<int>, j: nat) returns (peak: int)
    requires j < |path| && path[0] > 0
    ensures PeakAt(path, j, peak)
  {
    if j == 0 {
      peak := path[0];
    } else {
      var before := PeakExists(path, j - 1);
      peak := if path[j] > before then path[j] else before;
      assert path[..j + 1] == path[..j] + [path[j]];
      assert forall b :: b in path[..j + 1] <==> b in path[..j] || b == path[j];
    }
  }

  lemma BelowPeak(path: seq<int>, i: int, j: int, peak: int)
    requires 0 <= i <= j && PeakAt(path, j, peak)
    ensures path[i] <= peak
  {
    assert path[..j + 1][i] in path[..j + 1];
  }

  lemma Attained(fall: (int, int) -> real, path: seq<int>, dd: real)
    requires PeakFall(fall, path, dd)
    ensures exists i, j {:trigger fall(path[i], path[j])} :: 0 <= i <= j < |path| && path[i] > 0 && fall(path[i], path[j]) == dd
  {
    var at, top :| PeakAt(path, at, top) && fall(top, path[at]) == dd;
    var from :| 0 <= from < at + 1 && path[..at + 1][from] == top;
    assert path[from] == top && fall(path[from], path[at]) == dd;
  }

  lemma WithinAboveZero(fall: (int, int) -> real, path: seq<int>, dd: real, i: int, j: int)
    requires FallLaws(fall) && path != [] && path[0] > 0 && PeakFall(fall, path, dd)
    requires 0 <= i <= j < |path| && path[i] > 0 && path[j] >= 0
    ensures fall(path[i], path[j]) <= dd
  {
    var peak := PeakExists(path, j);
    BelowPeak(path, i, j, peak);
    assert fall(peak, path[j]) <= dd;
  }

  lemma ExactBy(fall: (int, int) -> real, path: seq<int>, dd: real)
    requires FallLaws(fall) && path != [] && path[0] > 0 && PeakFall(fall, path, dd)
    ensures GreatestFall(fall, path, dd) <==>
              forall i, j {:trigger fall(path[i], path[j])} | 0 <= i <= j < |path| && path[i] > 0 && path[j] < 0 :: fall(path[i], path[j]) <= dd
  {
    Attained(fall, path, dd);
    forall i, j | 0 <= i <= j < |path| && path[i] > 0 && path[j] >= 0 ensures fall(path[i], path[j]) <= dd {
      WithinAboveZero(fall, path, dd, i, j);
    }
  }

  // The greatest fall from the running peak is the greatest fall between any two moments exactly
  // when no fall to a negative balance exceeds it; on a path that never goes below zero it always is.
  lemma DrawdownExactly(path: seq<int>, dd: real)
    requires path != [] && path[0] > 0 && PeakFall(RelativeFall(), path, dd)
    ensures GreatestFall(RelativeFall(), path, dd) <==>
              forall i, j | 0 <= i <= j < |path| && path[i] > 0 && path[j] < 0 :: RelativeFall()(path[i], path[j]) <= dd
    ensures NeverNegative(path) ==> GreatestFall(RelativeFall(), path, dd)
  {
    RelativeFallLaws();
    ExactBy(RelativeFall(), path, dd);
    if NeverNegative(path) {
      forall j | 0 <= j < |path| ensures path[j] >= 0 {
        assert path[j] in path;
      }
    }
  }

  lemma FirstNegativeBy(fall: (int, int) -> real, path: seq<int>, dd: real)
    requires FallLaws(fall) && PeakFall(fall, path, dd)
    requires |path| > 1 && path[0] > 0 && path[|path| - 1] < 0 && forall j | 0 <= j < |path| - 1 :: path[j] >= 0
    ensures GreatestFall(fall, path, dd) <==> forall i | 0 <= i < |path| && path[i] > 0 :: path[i] == path[0]
  {
    var n := |path| - 1;
    var peak := PeakExists(path, n);
    var at, top :| PeakAt(path, at, top) && fall(top, path[at]) == dd;
    assert fall(peak, path[n]) > 1.0 && at == n;
    assert top in path[..n + 1] && peak in path[..n + 1];
    ExactBy(fall, path, dd);
    forall i | 0 <= i < |path| && path[i] > 0 ensures fall(path[i], path[n]) <= dd <==> path[i] == peak {
      BelowPeak(path, i, n, peak);
    }
    if forall i | 0 <= i < |path| && path[i] > 0 :: path[i] == path[0] {
      var i :| 0 <= i < n + 1 && path[..n + 1][i] == peak;
      assert path[i] == path[0];
    }
  }

  // Where the last balance is the first negative one, the loop is exact exactly when every
  // earlier positive balance is the peak.
  lemma FirstNegativeExactly(path: seq<int>, dd: real)
    requires PeakFall(RelativeFall(), path, dd)
    requires |path| > 1 && path[0] > 0 && path[|path| - 1] < 0 && forall j | 0 <= j < |path| - 1 :: path[j] >= 0
    ensures GreatestFall(RelativeFall(), path, dd) <==> forall i | 0 <= i < |path| && path[i] > 0 :: path[i] == path[0]
  {
    RelativeFallLaws();
    FirstNegativeBy(RelativeFall(), path, dd);
  }

  // A path on which the loop misses the greatest fall.
  lemma DrawdownBelowZero()
    ensures Path(10, [10, -30]) == [10, 20, -10]
    ensures forall dd | PeakFall(RelativeFall(), [10, 20, -10], dd) :: !GreatestFall(RelativeFall(), [10, 20, -10], dd)
  {
    assert [10, -30][..1] == [10] && [10][..0] == [];
    assert Path(10, []) == [10];
    assert Path(10, [10]) == [10, 20];
    forall dd | PeakFall(RelativeFall(), [10, 20, -10], dd) ensures !GreatestFall(RelativeFall(), [10, 20, -10], dd) {
      MissedFall(RelativeFall(), [10, 20, -10], dd);
    }
  }

  lemma MissedFall(fall: (int, int) -> real, path: seq<int>, dd: real)
    requires fall == RelativeFall() && path == [10, 20, -10] && PeakFall(fall, path, dd)
    ensures !GreatestFall(fall, path, dd)
  {
    FirstNegativeExactly(path, dd);
    assert path[1] != path[0];
  }
}
