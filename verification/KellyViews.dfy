/** What a frozen decision looks back on and what it stakes, in field comparisons only. */
module KellyViews {
  import opened Wrappers
  import opened Settlement
  import opened Sorting
  import opened KellyLab
  import opened KellyPortfolio
  import opened KellyRepository
  import opened KellyReplay

  // ----- cohorts -----

  ghost predicate Ascending(edges: seq<real>) {
    forall i, j | 0 <= i < j < |edges| :: edges[i] < edges[j]
  }

  // No edge separates the two numbers.
  ghost predicate Together(x: real, y: real, edges: seq<real>) {
    forall e | e in edges :: x < e <==> y < e
  }

  lemma {:induction false} BucketsExactly(x: real, y: real, edges: seq<real>)
    requires Ascending(edges)
    ensures BucketOf(x, edges) == BucketOf(y, edges) <==> Together(x, y, edges)
  {
    if edges != [] {
      var head, tail := edges[0], edges[1..];
      assert forall e :: e in edges <==> e == head || e in tail;
      forall e | e in tail ensures head < e {
        var i :| 0 <= i < |tail| && tail[i] == e;
        assert edges[i + 1] == e;
      }
      assert head in edges;
      BucketsExactly(x, y, tail);
      if x < head && y < head {
        assert forall e | e in edges :: x < e && y < e;
      }
    }
  }

  // The odds ranges reach from 1.4 to 3.5, closed above; everything outside is one range.
  ghost predicate SameOddsRange(x: real, y: real) {
    && (1.4 <= x <= 3.5 <==> 1.4 <= y <= 3.5)
    && (1.4 <= x <= 3.5 ==> forall bound | bound in [1.6, 1.8, 2.0, 2.5, 3.0] :: x <= bound <==> y <= bound)
  }

  ghost predicate Alike(row: Signal, candidate: Signal, d: Dimension) {
    match d
    case MarketSelection => row.market == candidate.market && row.selection == candidate.selection
    case ModelProbability =>
      Together(row.modelProbability * 100.0, candidate.modelProbability * 100.0, [40.0, 45.0, 50.0, 55.0, 60.0, 65.0, 70.0, 75.0])
    case Edge => Together(row.edge * 100.0, candidate.edge * 100.0, [0.0, 5.0, 10.0, 15.0, 20.0, 30.0])
    case Odds => SameOddsRange(row.odds, candidate.odds)
  }

  lemma OddsBucketsExactly(x: real, y: real)
    ensures OddsBucket(x) == OddsBucket(y) <==> SameOddsRange(x, y)
  {
    var bounds := [1.6, 1.8, 2.0, 2.5, 3.0];
    assert forall b :: b in bounds <==> b == 1.6 || b == 1.8 || b == 2.0 || b == 2.5 || b == 3.0;
    if SameOddsRange(x, y) && 1.4 <= x <= 3.5 {
      assert 1.6 in bounds && 1.8 in bounds && 2.0 in bounds && 2.5 in bounds && 3.0 in bounds;
    }
  }

  lemma MatchesExactly(row: Signal, candidate: Signal, d: Dimension)
    ensures Matches(row, candidate, d) <==> Alike(row, candidate, d)
  {
    match d {
      case MarketSelection =>
      case ModelProbability =>
        BucketsExactly(row.modelProbability * 100.0, candidate.modelProbability * 100.0, PROBABILITY_EDGES);
      case Edge => BucketsExactly(row.edge * 100.0, candidate.edge * 100.0, EDGE_EDGES);
      case Odds => OddsBucketsExactly(row.odds, candidate.odds);
    }
  }

  ghost predicate Evidences(r: Prior, candidate: Signal, d: Dimension) {
    OutcomeOf(r).Some? && OutcomeOf(r) != Some(Void) && Alike(r.signal, candidate, d)
  }

  // A cohort holds exactly the won and lost rows that no boundary of its dimension separates from
  // the candidate, each as often as it stands among the rows.
  lemma CohortExactly(candidate: Signal, prior: seq<Prior>, d: Dimension, r: Prior)
    ensures multiset(Cohort(candidate, prior, d))[r] == if Evidences(r, candidate, d) then multiset(prior)[r] else 0
  {
    CohortCounts(candidate, prior, d, r);
    MatchesExactly(r.signal, candidate, d);
  }

  lemma {:induction false} CohortCounts(candidate: Signal, prior: seq<Prior>, d: Dimension, r: Prior)
    ensures multiset(Cohort(candidate, prior, d))[r] == if InCohort(candidate, r, d) then multiset(prior)[r] else 0
  {
    if prior != [] {
      assert prior == prior[..|prior| - 1] + [prior[|prior| - 1]];
      CohortCounts(candidate, prior[..|prior| - 1], d, r);
    }
  }

  // ----- what a cohort weighs -----

  // A cohort of n rows at one probability that all won moves the estimate by n (1 - p) / (n + prior),
  // one that all lost by -n p / (n + prior).
  lemma UniformCohort(cohort: seq<Prior>, p: real, outcome: Outcome, priorN: int)
    requires cohort != [] && priorN > 0
    requires forall r | r in cohort :: r.signal.modelProbability == p && OutcomeOf(r) == Some(outcome)
    ensures var n := |cohort| as real;
            Contribution(cohort, priorN) * (n + priorN as real) == (if outcome == Win then n else 0.0) - n * p
  {
    UniformSums(cohort, p, outcome);
    ContributionExact(cohort, priorN);
  }

  lemma {:induction false} UniformSums(rows: seq<Prior>, p: real, outcome: Outcome)
    requires forall r | r in rows :: r.signal.modelProbability == p && OutcomeOf(r) == Some(outcome)
    ensures ProbabilitySum(rows) == |rows| as real * p && Wins(rows) == if outcome == Win then |rows| else 0
  {
    if rows != [] {
      var front, last := rows[..|rows| - 1], rows[|rows| - 1];
      assert rows == front + [last];
      UniformSums(front, p, outcome);
      assert (|front| as real + 1.0) * p == |front| as real * p + p;
    }
  }

  // The calibrated probability is the point of [0.01, 0.99] nearest to the model's own, shifted.
  lemma CalibratedNearest(candidate: Signal, prior: seq<Prior>, priorN: int, other: real)
    requires priorN > 0 && 0.01 <= other <= 0.99
    ensures var c := Calibrate(candidate, prior, priorN);
            var shifted := candidate.modelProbability + c.gap;
            && 0.01 <= c.probability <= 0.99
            && (if c.probability < shifted then shifted - c.probability <= shifted - other
                else c.probability - shifted <= (if other < shifted then shifted - other else other - shifted))
  {
  }

  // ----- what was known before a decision -----

  ghost predicate Final(o: Observation) {
    o.result.classification == PlayedSettleable || o.result.classification == NonPlayedVoidable
  }

  // The settling result of a fixture that was acquired last before the cutoff.
  ghost predicate LastKnown(results: seq<Observation>, fixture: nat, cutoff: int, o: Observation) {
    && o in results && o.fixture == fixture && o.acquiredAt < cutoff && Final(o)
    && forall x | x in results && x.fixture == fixture && x.acquiredAt < cutoff && Final(x) ::
         x.acquiredAt < o.acquiredAt || (x.acquiredAt == o.acquiredAt && x.id <= o.id)
  }

  ghost predicate KeyedResults(results: seq<Observation>) {
    forall a, b | a in results && b in results && a.id == b.id :: a == b
  }

  lemma LatestExactly(results: seq<Observation>, fixture: nat, cutoff: int)
    requires KeyedResults(results)
    ensures Latest(results, fixture, cutoff).None? <==>
              forall o | o in results && o.fixture == fixture && Final(o) :: o.acquiredAt >= cutoff
    ensures forall o :: LastKnown(results, fixture, cutoff, o) <==> Latest(results, fixture, cutoff) == Some(o)
  {
    LatestIsGreatest(results, fixture, cutoff);
  }

  // Under 2.5 goals from 1.4 to 1.8 and over from 1.61 to 1.8 are retired.
  ghost predicate IsRetired(s: Signal) {
    s.market == Ou25 && s.odds <= 1.8 && ((s.selection == Under && s.odds >= 1.4) || (s.selection == Over && s.odds >= 1.61))
  }

  // The evidence of a view: one row for each signal in scope that qualified, and whose result was
  // known, before the decision.
  lemma {:induction false} EvidenceExactly(signals: seq<Signal>, results: seq<Observation>, blocked: set<nat>, cutoff: int)
    requires KeyedResults(results)
    ensures forall r :: r in PriorRows(signals, results, blocked, cutoff) <==>
              && r.signal in signals && r.signal.qualifiedAt < cutoff
              && r.signal.fixture !in blocked && !IsRetired(r.signal)
              && exists o :: LastKnown(results, r.signal.fixture, cutoff, o) && o.result == r.result
  {
    if signals != [] {
      var front, last := signals[..|signals| - 1], signals[|signals| - 1];
      assert signals == front + [last];
      EvidenceExactly(front, results, blocked, cutoff);
      LatestExactly(results, last.fixture, cutoff);
    }
  }

  // No signal stands in a view twice.
  lemma {:induction false} EvidenceOnce(signals: seq<Signal>, results: seq<Observation>, blocked: set<nat>, cutoff: int)
    requires Keyed(signals)
    ensures var rows := PriorRows(signals, results, blocked, cutoff);
            && (forall i, j | 0 <= i < j < |rows| :: rows[i].signal != rows[j].signal)
            && forall r | r in rows :: r.signal in signals
  {
    if signals != [] {
      var front, last := signals[..|signals| - 1], signals[|signals| - 1];
      assert signals == front + [last];
      EvidenceOnce(front, results, blocked, cutoff);
      assert last !in front;
      var before := PriorRows(front, results, blocked, cutoff);
      forall i | 0 <= i < |before| ensures before[i].signal != last {
        assert before[i] in before;
      }
    }
  }

  // A pick is worth nothing until its result is known; then a win pays the net odds on its stake,
  // halves up, a loss takes the stake, a void nothing.
  lemma KnownPnlExactly(p: Pick, results: seq<Observation>, cutoff: int, o: Observation)
    requires KeyedResults(results) && p.plan.stake >= 0 && p.odds > 1.0
    ensures (forall x | x in results && x.fixture == p.fixture && Final(x) :: x.acquiredAt >= cutoff) ==> KnownPnl(p, results, cutoff) == 0
    ensures LastKnown(results, p.fixture, cutoff, o) ==>
              var profit := p.plan.stake as real * (p.odds - 1.0);
              match RowOutcome(p.market, p.selection, o.result)
              case None => KnownPnl(p, results, cutoff) == 0
              case Some(Void) => KnownPnl(p, results, cutoff) == 0
              case Some(Loss) => KnownPnl(p, results, cutoff) == -p.plan.stake
              case Some(Win) => profit - 0.5 < KnownPnl(p, results, cutoff) as real <= profit + 0.5
  {
    LatestExactly(results, p.fixture, cutoff);
    var profit := p.plan.stake as real * (p.odds - 1.0);
    MulNonNegative(p.plan.stake as real, p.odds - 1.0);
    RoundHalfUpExactly(profit, RoundHalfUp(profit));
  }

  // ----- the frozen decision -----

  // A decision copies its signal, is taken when the signal qualified, on the evidence and the
  // bankroll known before that moment, and stakes the plan for them.
  ghost predicate FrozenFrom(t: Tables, p: Pick, s: Signal, c: Config) {
    && p.signalId == s.id && p.fixture == s.fixture && p.market == s.market && p.selection == s.selection
    && p.odds == s.odds && p.decisionAt == s.qualifiedAt
    && p.calibration == Calibrate(s, PriorRows(t.signals, t.results, t.blocked, p.decisionAt), c.priorN)
    && p.bankrollBefore == BankrollAt(t.picks, t.results, c.starting, p.decisionAt)
    && StakePlan(p.bankrollBefore, p.odds, p.calibration.probability, c.fraction, c.cap) == Ok(p.plan)
  }

  lemma FreezeExactly(t: Tables, s: Signal, c: Config)
    ensures FrozenFrom(t, Freeze(t, s, c), s, c)
  {
    FreezeNeverRaises(t, s, c);
  }

  // The signals a sync must decide.
  ghost predicate Open(t: Tables, s: Signal, c: Config) {
    && s in t.signals && s.qualifiedAt >= c.startedAt && s.fixture !in t.blocked && !IsRetired(s)
    && forall p | p in t.picks :: p.signalId != s.id
  }

  // A sync keeps the picks there are and adds exactly one for each open signal, frozen on the view
  // of its own moment.
  lemma SyncExactly(t: Tables, c: Config)
    requires Sound(t, c)
    ensures var u := Sync(t, c);
            && u == t.(picks := u.picks) && t.picks <= u.picks && KeyedPicks(u.picks)
            && (forall p | p in u.picks && p !in t.picks :: exists s :: Open(t, s, c) && FrozenFrom(u, p, s, c))
            && (forall s | Open(t, s, c) :: exists p :: p in u.picks && p !in t.picks && FrozenFrom(u, p, s, c))
  {
    var u := Sync(t, c);
    SyncSound(t, c);
    SyncKeepsSources(t, Candidates(t, c), c);
    forall p | p in u.picks && p !in t.picks ensures exists s :: Open(t, s, c) && FrozenFrom(u, p, s, c) {
      NewPickFrozen(t, u, p, c);
    }
    forall s | Open(t, s, c) ensures exists p :: p in u.picks && p !in t.picks && FrozenFrom(u, p, s, c) {
      OpenSignalFrozen(t, u, s, c);
    }
  }

  lemma NewPickFrozen(t: Tables, u: Tables, p: Pick, c: Config)
    requires Sound(u, c) && u == t.(picks := u.picks) && t.picks <= u.picks && p in u.picks && p !in t.picks
    ensures exists s :: Open(t, s, c) && FrozenFrom(u, p, s, c)
  {
    assert Rederivable(u, p, c);
    var s :| Refreezes(u, p, s, c);
    FreezeExactly(u, s, c);
    forall q | q in t.picks ensures q.signalId != s.id {
      assert q in u.picks;
      if q.signalId == s.id {
        SamePickId(u.picks, p, q);
      }
    }
    assert Open(t, s, c) && FrozenFrom(u, p, s, c);
  }

  lemma OpenSignalFrozen(t: Tables, u: Tables, s: Signal, c: Config)
    requires Sound(u, c) && u == t.(picks := u.picks) && t.picks <= u.picks && Open(t, s, c)
    requires forall e | Eligible(t, e, c) :: Picked(u.picks, e.id)
    ensures exists p :: p in u.picks && p !in t.picks && FrozenFrom(u, p, s, c)
  {
    assert Eligible(t, s, c);
    var p :| p in u.picks && p.signalId == s.id;
    assert Rederivable(u, p, c);
    var e :| Refreezes(u, p, e, c);
    SameId(u.signals, e, s);
    FreezeExactly(u, s, c);
  }
}
