/** Evidence that arrives out of order: exactly which steps change a decided view, and two runs
    whose replay differs. */
module KellyLateEvidence {
  import opened Wrappers
  import opened Settlement
  import opened Sorting
  import opened KellyLab
  import opened KellyPortfolio
  import opened KellyRepository
  import opened KellyReplay

  // All that a decision is frozen on.
  datatype View = View(prior: seq<Prior>, bankroll: int)

  function ViewAt(t: Tables, cutoff: int, c: Config): View {
    View(PriorRows(t.signals, t.results, t.blocked, cutoff), BankrollAt(t.picks, t.results, c.starting, cutoff))
  }

  // ----- the steps that change a view -----

  // A signal the view counts as soon as a result for it is known.
  predicate Counts(t: Tables, s: Signal, cutoff: int) {
    s.qualifiedAt < cutoff && InScope(t, s)
  }

  predicate Evidence(t: Tables, s: Signal, cutoff: int) {
    Counts(t, s, cutoff) && Latest(t.results, s.fixture, cutoff).Some?
  }

  // The observation becomes the latest known result of the fixture and says something new.
  predicate NewResult(results: seq<Observation>, o: Observation, fixture: nat, cutoff: int) {
    var latest := Latest(results, fixture, cutoff);
    Visible(o, fixture, cutoff) && (latest.None? || (After(o, latest.value) && o.result != latest.value.result))
  }

  // A signal row of the fixture is added or rewritten, and the old or the new one is evidence.
  predicate SignalTouches(t: Tables, u: Tables, s: Signal, cutoff: int) {
    RowOfExact(t.signals, s.fixture);
    var i := RowOf(t.signals, s.fixture);
    u != t &&
    if i.None? then Evidence(t, s, cutoff)
    else i.value < |u.signals| && (Evidence(t, t.signals[i.value], cutoff) || Evidence(t, u.signals[i.value], cutoff))
  }

  predicate Touches(t: Tables, step: Step, cutoff: int) {
    match step
    case Observe(o) =>
      && (forall r | r in t.results :: r.id != o.id)
      && (exists s | s in t.signals :: Counts(t, s, cutoff) && NewResult(t.results, o, s.fixture, cutoff))
    case Describe(fixture, blocked) =>
      && (fixture in t.blocked) != blocked
      && (exists s | s in t.signals :: s.fixture == fixture && s.qualifiedAt < cutoff && !Retired(s)
                                       && Latest(t.results, fixture, cutoff).Some?)
    case Block(s) => SignalTouches(t, WithBlock(t, s), s, cutoff)
    case Promote(s) => SignalTouches(t, WithPromotion(t, s), s, cutoff)
    case Synchronize => false
  }

  // ----- one row at a time -----

  lemma {:induction false} PriorRowsConcat(a: seq<Signal>, b: seq<Signal>, results: seq<Observation>, blocked: set<nat>, cutoff: int)
    ensures PriorRows(a + b, results, blocked, cutoff)
            == PriorRows(a, results, blocked, cutoff) + PriorRows(b, results, blocked, cutoff)
  {
    if b == [] {
      assert a + b == a;
    } else {
      var k := |b| - 1;
      assert (a + b)[..|a| + k] == a + b[..k] && (a + b)[|a| + k] == b[k];
      PriorRowsConcat(a, b[..k], results, blocked, cutoff);
      Regroup(PriorRows(a, results, blocked, cutoff), PriorRows(b[..k], results, blocked, cutoff),
              PriorRow(b[k], results, blocked, cutoff));
    }
  }

  lemma Regroup<T>(x: seq<T>, y: seq<T>, z: seq<T>)
    ensures (x + y) + z == x + (y + z)
  {
  }

  lemma PriorRowsSplit(signals: seq<Signal>, i: nat, results: seq<Observation>, blocked: set<nat>, cutoff: int)
    requires i < |signals|
    ensures PriorRows(signals, results, blocked, cutoff)
            == PriorRows(signals[..i], results, blocked, cutoff) + PriorRow(signals[i], results, blocked, cutoff)
               + PriorRows(signals[i + 1..], results, blocked, cutoff)
  {
    var before, here, after := signals[..i], signals[i..i + 1], signals[i + 1..];
    assert signals == before + here + after;
    PriorRowsConcat(before + here, after, results, blocked, cutoff);
    PriorRowsConcat(before, here, results, blocked, cutoff);
    assert here[..0] == [];
  }

  lemma {:induction false} PriorRowsAgree(signals: seq<Signal>, results: seq<Observation>, blocked: set<nat>,
                                          results': seq<Observation>, blocked': set<nat>, cutoff: int)
    requires forall s | s in signals :: PriorRow(s, results, blocked, cutoff) == PriorRow(s, results', blocked', cutoff)
    ensures PriorRows(signals, results, blocked, cutoff) == PriorRows(signals, results', blocked', cutoff)
  {
    if signals != [] {
      assert signals == signals[..|signals| - 1] + [signals[|signals| - 1]];
      PriorRowsAgree(signals[..|signals| - 1], results, blocked, results', blocked', cutoff);
    }
  }

  lemma Cancel<T>(a: seq<T>, x: seq<T>, y: seq<T>, b: seq<T>)
    ensures a + x + b == a + y + b <==> x == y
  {
    if a + x + b == a + y + b {
      assert |x| == |y|;
      forall k | 0 <= k < |x| ensures x[k] == y[k] {
        assert (a + x + b)[|a| + k] == x[k] && (a + y + b)[|a| + k] == y[k];
      }
    }
  }

  // When one signal alone may read differently, the rows change exactly when it does.
  lemma OneSignalReads(signals: seq<Signal>, s: Signal, results: seq<Observation>, blocked: set<nat>,
                       results': seq<Observation>, blocked': set<nat>, cutoff: int)
    requires Keyed(signals) && s in signals
    requires forall e | e in signals && e != s :: PriorRow(e, results, blocked, cutoff) == PriorRow(e, results', blocked', cutoff)
    ensures PriorRows(signals, results, blocked, cutoff) == PriorRows(signals, results', blocked', cutoff)
            <==> PriorRow(s, results, blocked, cutoff) == PriorRow(s, results', blocked', cutoff)
  {
    var i :| 0 <= i < |signals| && signals[i] == s;
    PriorRowsSplit(signals, i, results, blocked, cutoff);
    PriorRowsSplit(signals, i, results', blocked', cutoff);
    PriorRowsAgree(signals[..i], results, blocked, results', blocked', cutoff);
    PriorRowsAgree(signals[i + 1..], results, blocked, results', blocked', cutoff);
    Cancel(PriorRows(signals[..i], results, blocked, cutoff), PriorRow(s, results, blocked, cutoff),
           PriorRow(s, results', blocked', cutoff), PriorRows(signals[i + 1..], results, blocked, cutoff));
  }

  lemma LatestAfter(results: seq<Observation>, o: Observation, fixture: nat, cutoff: int)
    ensures var latest := Latest(results, fixture, cutoff);
            Latest(results + [o], fixture, cutoff)
            == if Visible(o, fixture, cutoff) && (latest.None? || After(o, latest.value)) then Some(o) else latest
  {
    assert (results + [o])[..|results|] == results;
  }

  // The row of a signal changes with an observation exactly on a new result it counts.
  lemma ObservedRow(t: Tables, s: Signal, o: Observation, cutoff: int)
    ensures PriorRow(s, t.results + [o], t.blocked, cutoff) != PriorRow(s, t.results, t.blocked, cutoff)
            <==> Counts(t, s, cutoff) && NewResult(t.results, o, s.fixture, cutoff)
  {
    LatestAfter(t.results, o, s.fixture, cutoff);
  }

  lemma ObservedRows(t: Tables, o: Observation, cutoff: int)
    requires Keyed(t.signals)
    ensures PriorRows(t.signals, t.results + [o], t.blocked, cutoff) != PriorRows(t.signals, t.results, t.blocked, cutoff)
            <==> exists s | s in t.signals :: Counts(t, s, cutoff) && NewResult(t.results, o, s.fixture, cutoff)
  {
    forall s | s in t.signals
      ensures PriorRow(s, t.results + [o], t.blocked, cutoff) != PriorRow(s, t.results, t.blocked, cutoff)
              <==> Counts(t, s, cutoff) && NewResult(t.results, o, s.fixture, cutoff)
    {
      ObservedRow(t, s, o, cutoff);
    }
    if exists s | s in t.signals :: Counts(t, s, cutoff) && NewResult(t.results, o, s.fixture, cutoff) {
      var s :| s in t.signals && Counts(t, s, cutoff) && NewResult(t.results, o, s.fixture, cutoff);
      forall e | e in t.signals && e != s
        ensures PriorRow(e, t.results, t.blocked, cutoff) == PriorRow(e, t.results + [o], t.blocked, cutoff)
      {
        if e.fixture == s.fixture {
          SameId(t.signals, e, s);
        }
      }
      OneSignalReads(t.signals, s, t.results, t.blocked, t.results + [o], t.blocked, cutoff);
    } else {
      PriorRowsAgree(t.signals, t.results, t.blocked, t.results + [o], t.blocked, cutoff);
    }
  }

  lemma {:induction false} SumPnlAgree(picks: seq<Pick>, results: seq<Observation>, results': seq<Observation>, cutoff: int)
    requires forall p | p in picks :: KnownPnl(p, results, cutoff) == KnownPnl(p, results', cutoff)
    ensures SumPnl(picks, results, cutoff) == SumPnl(picks, results', cutoff)
  {
    if picks != [] {
      assert picks == picks[..|picks| - 1] + [picks[|picks| - 1]];
      SumPnlAgree(picks[..|picks| - 1], results, results', cutoff);
    }
  }

  // A result that no counted signal finds new leaves the bankroll of the view as well.
  lemma ObservedBankroll(t: Tables, o: Observation, cutoff: int, c: Config)
    requires Sound(t, c)
    requires forall s | s in t.signals && Counts(t, s, cutoff) :: !NewResult(t.results, o, s.fixture, cutoff)
    ensures BankrollAt(t.picks, t.results + [o], c.starting, cutoff) == BankrollAt(t.picks, t.results, c.starting, cutoff)
  {
    var before := PicksBefore(t.picks, cutoff);
    var sorted := Sort(before, DecidedEarlier);
    PicksBeforeExact(t.picks, cutoff);
    SortPermutes(before, DecidedEarlier);
    forall p | p in sorted ensures KnownPnl(p, t.results, cutoff) == KnownPnl(p, t.results + [o], cutoff) {
      assert p in Elements(sorted) && p in before;
      assert Rederivable(t, p, c);
      var s :| Refreezes(t, p, s, c);
      assert Counts(t, s, cutoff) && p.fixture == s.fixture;
      LatestAfter(t.results, o, p.fixture, cutoff);
    }
    SumPnlAgree(sorted, t.results, t.results + [o], cutoff);
  }

  lemma ObserveChangesExactly(t: Tables, o: Observation, cutoff: int, c: Config)
    requires Sound(t, c)
    ensures ViewAt(WithObservation(t, o), cutoff, c) != ViewAt(t, cutoff, c) <==> Touches(t, Observe(o), cutoff)
  {
    if forall r | r in t.results :: r.id != o.id {
      ObservedRows(t, o, cutoff);
      if !Touches(t, Observe(o), cutoff) {
        ObservedBankroll(t, o, cutoff, c);
      }
    }
  }

  lemma DescribeChangesExactly(t: Tables, fixture: nat, blocked: bool, cutoff: int, c: Config)
    requires Sound(t, c)
    ensures ViewAt(WithDescription(t, fixture, blocked), cutoff, c) != ViewAt(t, cutoff, c)
            <==> Touches(t, Describe(fixture, blocked), cutoff)
  {
    var u := WithDescription(t, fixture, blocked);
    assert forall f | f != fixture :: f in t.blocked <==> f in u.blocked;
    if s :| s in t.signals && s.fixture == fixture {
      forall e | e in t.signals && e != s
        ensures PriorRow(e, t.results, t.blocked, cutoff) == PriorRow(e, t.results, u.blocked, cutoff)
      {
        if e.fixture == s.fixture {
          SameId(t.signals, e, s);
        }
      }
      forall e | e in t.signals && e.fixture == fixture ensures e == s {
        SameId(t.signals, e, s);
      }
      OneSignalReads(t.signals, s, t.results, t.blocked, t.results, u.blocked, cutoff);
    } else {
      PriorRowsAgree(t.signals, t.results, t.blocked, t.results, u.blocked, cutoff);
    }
  }

  // A rewritten row changes the rows exactly when it differs and either version is evidence.
  lemma RewrittenRows(t: Tables, i: nat, s: Signal, cutoff: int)
    requires i < |t.signals| && t.signals[i].fixture == s.fixture
    ensures PriorRows(t.signals[i := s], t.results, t.blocked, cutoff) != PriorRows(t.signals, t.results, t.blocked, cutoff)
            <==> t.signals[i] != s && (Evidence(t, t.signals[i], cutoff) || Evidence(t, s, cutoff))
  {
    var changed := t.signals[i := s];
    PriorRowsSplit(t.signals, i, t.results, t.blocked, cutoff);
    PriorRowsSplit(changed, i, t.results, t.blocked, cutoff);
    assert changed[..i] == t.signals[..i] && changed[i + 1..] == t.signals[i + 1..];
    Cancel(PriorRows(t.signals[..i], t.results, t.blocked, cutoff), PriorRow(s, t.results, t.blocked, cutoff),
           PriorRow(t.signals[i], t.results, t.blocked, cutoff), PriorRows(t.signals[i + 1..], t.results, t.blocked, cutoff));
  }

  lemma SignalChangesExactly(t: Tables, u: Tables, s: Signal, cutoff: int, c: Config)
    requires u == WithBlock(t, s) || u == WithPromotion(t, s)
    ensures ViewAt(u, cutoff, c) != ViewAt(t, cutoff, c) <==> SignalTouches(t, u, s, cutoff)
  {
    RowOfExact(t.signals, s.fixture);
    var i := RowOf(t.signals, s.fixture);
    if u != t {
      if i.None? {
        assert u.signals[..|t.signals|] == t.signals;
      } else {
        var row := u.signals[i.value];
        assert u.signals == t.signals[i.value := row];
        assert row == t.signals[i.value] ==> u.signals == t.signals;
        RewrittenRows(t, i.value, row, cutoff);
      }
    }
  }

  // For every sound table and every arrival, in order or not: the step changes what a decision at
  // the cutoff is frozen on exactly when it touches evidence that the decision counts.
  lemma ViewChangesExactly(t: Tables, step: Step, cutoff: int, c: Config)
    requires Sound(t, c) && !step.Synchronize?
    ensures ViewAt(Next(t, step, c), cutoff, c) != ViewAt(t, cutoff, c) <==> Touches(t, step, cutoff)
  {
    match step {
      case Block(s) => SignalChangesExactly(t, WithBlock(t, s), s, cutoff, c);
      case Promote(s) => SignalChangesExactly(t, WithPromotion(t, s), s, cutoff, c);
      case Observe(o) => ObserveChangesExactly(t, o, cutoff, c);
      case Describe(fixture, blocked) => DescribeChangesExactly(t, fixture, blocked, cutoff, c);
    }
  }

  // A sync leaves every decided view alone.
  lemma SyncKeepsViews(t: Tables, p: Pick, c: Config)
    requires Sound(t, c) && p in t.picks
    ensures ViewAt(Sync(t, c), p.decisionAt, c) == ViewAt(t, p.decisionAt, c)
  {
    var u := Sync(t, c);
    SyncSound(t, c);
    SyncKeepsSources(t, Candidates(t, c), c);
    assert Rederivable(t, p, c) && Rederivable(u, p, c);
    var s :| Refreezes(t, p, s, c);
    var e :| Refreezes(u, p, e, c);
  }

  // Steps in order touch no decision.
  lemma InOrderTouchesNothing(t: Tables, step: Step, p: Pick)
    requires InOrder(t, step) && p in t.picks
    ensures !Touches(t, step, p.decisionAt)
  {
    if step.Block? {
      RowOfExact(t.signals, step.signal.fixture);
    } else if step.Promote? {
      RowOfExact(t.signals, step.signal.fixture);
    }
  }

  // ----- two runs whose replay differs -----

  lemma PositiveFactor(c: real, n: real)
    requires n > 0.0 && c * n > 0.0
    ensures c > 0.0
  {
    MulSign(c, n);
  }

  lemma OneWin(row: Prior, priorN: int, c: real)
    requires priorN > 0 && OutcomeOf(row) == Some(Win) && c == Contribution([row], priorN)
    ensures c > 0.0
  {
    assert [row][..0] == [];
    assert Wins([row]) == 1 && ProbabilitySum([row]) == row.signal.modelProbability;
    ContributionExact([row], priorN);
    PositiveFactor(c, 1.0 + priorN as real);
  }

  lemma {:induction false} EvidenceAdds(candidate: Signal, row: Prior, dimensions: seq<Dimension>, priorN: int)
    requires priorN > 0 && OutcomeOf(row) == Some(Win) && forall d :: Matches(row.signal, candidate, d)
    ensures var shifts := Contributions(candidate, [row], dimensions, priorN);
            |shifts| == |dimensions| && Sum(shifts) >= 0.0 && (dimensions != [] ==> Sum(shifts) > 0.0)
  {
    if dimensions != [] {
      var k := |dimensions| - 1;
      EvidenceAdds(candidate, row, dimensions[..k], priorN);
      assert [row][..0] == [];
      assert Cohort(candidate, [], dimensions[k]) == [];
      assert Cohort(candidate, [row], dimensions[k]) == [row];
      var rest, c := Contributions(candidate, [row], dimensions[..k], priorN), Contribution([row], priorN);
      OneWin(row, priorN, c);
      assert Contributions(candidate, [row], dimensions, priorN) == rest + [c];
      assert (rest + [c])[..k] == rest;
    }
  }

  lemma EvidenceMoves(candidate: Signal, row: Prior, priorN: int)
    requires priorN > 0 && OutcomeOf(row) == Some(Win) && forall d :: Matches(row.signal, candidate, d)
    ensures Calibrate(candidate, [row], priorN).gap > 0.0
  {
    EvidenceAdds(candidate, row, DIMENSIONS, priorN);
    PositiveMean(Sum(Contributions(candidate, [row], DIMENSIONS, priorN)), 4.0);
  }

  lemma PositiveMean(total: real, n: real)
    requires total > 0.0 && n > 0.0
    ensures total / n > 0.0
  {
    PositiveFactor(total / n, n);
  }

  // The view of the later of two signals holds at most the earlier one.
  lemma TwoPriorRows(a: Signal, b: Signal, results: seq<Observation>, cutoff: int)
    requires cutoff <= b.qualifiedAt
    ensures PriorRows([a, b], results, {}, cutoff) == PriorRow(a, results, {}, cutoff)
  {
    var none: seq<Signal> := [];
    assert [a, b][..1] == [a] && [a][..0] == none;
    assert PriorRows(none, results, {}, cutoff) == [];
    assert PriorRows([a], results, {}, cutoff) == PriorRow(a, results, {}, cutoff);
    assert PriorRow(b, results, {}, cutoff) == [];
  }

  lemma OneResult(o: Observation, fixture: nat, cutoff: int)
    ensures Latest([], fixture, cutoff) == None
    ensures Latest([o], fixture, cutoff) == if Visible(o, fixture, cutoff) then Some(o) else None
  {
    assert [o][..0] == [];
  }

  // The pick of a signal that a sync decides carries the calibration of its view.
  lemma SyncedCalibration(t: Tables, s: Signal, c: Config)
    requires Sound(t, c) && Eligible(t, s, c) && !Picked(t.picks, s.id)
    ensures exists p | p in Sync(t, c).picks ::
              p.signalId == s.id
              && p.calibration == Calibrate(s, PriorRows(t.signals, t.results, t.blocked, s.qualifiedAt), c.priorN)
  {
    var u := Sync(t, c);
    SyncSound(t, c);
    SyncKeepsSources(t, Candidates(t, c), c);
    assert Picked(u.picks, s.id);
    var p :| p in u.picks && p.signalId == s.id;
    assert Rederivable(u, p, c);
    var e :| Refreezes(u, p, e, c);
    SameId(t.signals, e, s);
  }

  lemma {:induction false} ArrivalsAppend(first: seq<Step>, second: seq<Step>)
    ensures Arrivals(first + second) == Arrivals(first) + Arrivals(second)
  {
    if first == [] {
      assert first + second == second;
    } else {
      assert (first + second)[1..] == first[1..] + second;
      ArrivalsAppend(first[1..], second);
    }
  }

  lemma ArrivalsOne(step: Step)
    ensures Arrivals([step]) == if step.Synchronize? then [] else [step]
  {
    assert [step][1..] == [];
    assert Arrivals([]) == [];
  }

  // Syncing before a last arrival or after it: the arrivals are the same.
  function Live(first: seq<Step>, last: Step): seq<Step> {
    first + [Synchronize] + [last]
  }

  function Late(first: seq<Step>, last: Step): seq<Step> {
    first + [last] + [Synchronize]
  }

  lemma SameArrivals(first: seq<Step>, last: Step)
    ensures Arrivals(Live(first, last)) == Arrivals(Late(first, last))
  {
    var sync: Step := Synchronize;
    ArrivalsOne(sync);
    ArrivalsAppend(first + [sync], [last]);
    ArrivalsAppend(first, [sync]);
    ArrivalsAppend(first + [last], [sync]);
    ArrivalsAppend(first, [last]);
  }

  lemma RunThenTwo(start: Tables, first: seq<Step>, a: Step, b: Step, c: Config)
    ensures Run(start, first + [a] + [b], c) == Next(Next(Run(start, first, c), a, c), b, c)
  {
    RunAppend(start, first + [a], [b], c);
    RunAppend(start, first, [a], c);
    RunOne(Run(start, first, c), a, c);
    RunOne(Next(Run(start, first, c), a, c), b, c);
  }

  // One portfolio has decided the signal without evidence, the other on evidence.
  ghost predicate GapsDiffer(a: Tables, b: Tables, id: nat) {
    exists p, q | p in a.picks && q in b.picks ::
      p.signalId == id && q.signalId == id && p.calibration.gap != q.calibration.gap
  }

  lemma BareSound(signals: seq<Signal>, results: seq<Observation>, c: Config)
    requires Keyed(signals)
    ensures Sound(Tables(signals, results, {}, []), c)
  {
  }

  // The gap that the evidence of the tables gives a signal.
  function GapOf(t: Tables, s: Signal, c: Config): real {
    Calibrate(s, PriorRows(t.signals, t.results, t.blocked, s.qualifiedAt), c.priorN).gap
  }

  // Two tables that differ in the evidence for a signal sync to different gaps.
  lemma SyncedGapsDiffer(t: Tables, u: Tables, s: Signal, c: Config)
    requires Sound(t, c) && Eligible(t, s, c) && !Picked(t.picks, s.id)
    requires Sound(u, c) && Eligible(u, s, c) && !Picked(u.picks, s.id)
    ensures GapOf(t, s, c) != GapOf(u, s, c) ==> GapsDiffer(Sync(t, c), Sync(u, c), s.id)
  {
    SyncedCalibration(t, s, c);
    SyncedCalibration(u, s, c);
  }

  // Whenever the last arrival changes the calibration of an open signal, syncing before it and
  // syncing after it decide that signal differently.
  lemma ReplayBreaks(start: Tables, first: seq<Step>, last: Step, t: Tables, u: Tables, s: Signal, c: Config)
    requires !last.Synchronize? && t == Run(start, first, c) && u == Next(t, last, c)
    requires Sound(t, c) && Eligible(t, s, c) && !Picked(t.picks, s.id)
    requires Sound(u, c) && Eligible(u, s, c) && !Picked(u.picks, s.id)
    ensures var live, late := Live(first, last), Late(first, last);
            && Arrivals(live) == Arrivals(late)
            && (GapOf(t, s, c) != GapOf(u, s, c) ==>
                  GapsDiffer(Run(start, live, c), Run(start, late, c), s.id)
                  && !SameDecisions(Run(start, live, c), Run(start, late, c)))
  {
    SameArrivals(first, last);
    LiveAndLate(start, first, last, c);
    SyncedGapsDiffer(t, u, s, c);
    if GapOf(t, s, c) != GapOf(u, s, c) {
      GapsSeparate(Run(start, Live(first, last), c), Run(start, Late(first, last), c), Sync(t, c), s.id);
    }
  }

  lemma LiveAndLate(start: Tables, first: seq<Step>, last: Step, c: Config)
    requires !last.Synchronize?
    ensures var t := Run(start, first, c);
            && Run(start, Live(first, last), c).picks == Sync(t, c).picks
            && Run(start, Late(first, last), c) == Sync(Next(t, last, c), c)
  {
    RunThenTwo(start, first, Synchronize, last, c);
    RunThenTwo(start, first, last, Synchronize, c);
    LastKeepsPicks(Sync(Run(start, first, c), c), last, c);
  }

  lemma LastKeepsPicks(t: Tables, step: Step, c: Config)
    requires !step.Synchronize?
    ensures Next(t, step, c).picks == t.picks
  {
  }

  lemma GapsSeparate(a: Tables, b: Tables, same: Tables, id: nat)
    requires a.picks == same.picks && GapsDiffer(same, b, id)
    ensures GapsDiffer(a, b, id) && !SameDecisions(a, b)
  {
    var p, q :| p in same.picks && q in b.picks && p.signalId == id && q.signalId == id && p.calibration.gap != q.calibration.gap;
    assert p in a.picks;
  }

  // A signal, a later one of the same cohorts, and the first one's win, acquired between the two.
  ghost predicate Comparable(a: Signal, b: Signal, won: Observation, c: Config) {
    && a.id != b.id && a.fixture != b.fixture && !Retired(a) && !Retired(b) && (forall d :: Matches(a, b, d))
    && c.startedAt <= a.qualifiedAt < b.qualifiedAt
    && Visible(won, a.fixture, b.qualifiedAt) && OutcomeOf(Prior(a, won.result)) == Some(Win)
  }

  lemma SomeAreComparable()
    ensures Comparable(SignalRow(1, 1, 1, Btts, Yes, 2.0, 0.5, 0.1), SignalRow(2, 2, 10, Btts, Yes, 2.0, 0.5, 0.1),
                       Observation(1, 1, 5, FixtureResult(PlayedSettleable, Some(Goals(1, 1)))),
                       ConfigRow(0, 1000, 0.25, 0.01, 100))
  {
  }

  // What the later signal is calibrated on: nothing without the result or when the earlier
  // signal qualifies after it, and a positive gap otherwise.
  lemma ComparableGaps(a: Signal, b: Signal, won: Observation, moved: Signal, c: Config)
    requires Comparable(a, b, won, c) && moved.qualifiedAt >= b.qualifiedAt
    ensures Calibrate(b, PriorRows([a, b], [], {}, b.qualifiedAt), c.priorN).gap == 0.0
    ensures Calibrate(b, PriorRows([a, b], [won], {}, b.qualifiedAt), c.priorN).gap > 0.0
    ensures Calibrate(b, PriorRows([moved, b], [won], {}, b.qualifiedAt), c.priorN).gap == 0.0
  {
    OneResult(won, a.fixture, b.qualifiedAt);
    TwoPriorRows(a, b, [], b.qualifiedAt);
    TwoPriorRows(a, b, [won], b.qualifiedAt);
    TwoPriorRows(moved, b, [won], b.qualifiedAt);
    CalibrationUsable(b, [], c.priorN);
    EvidenceMoves(b, Prior(a, won.result), c.priorN);
  }

  lemma SecondBlocked(a: Signal, b: Signal, results: seq<Observation>)
    requires a.id != b.id && a.fixture != b.fixture
    ensures WithBlock(EMPTY, a) == Tables([a], [], {}, [])
    ensures WithBlock(Tables([a], results, {}, []), b) == Tables([a, b], results, {}, [])
  {
    RowOfExact([a], b.fixture);
    assert [a] + [b] == [a, b];
  }

  lemma TwoSignalsRun(a: Signal, b: Signal, c: Config)
    requires a.id != b.id && a.fixture != b.fixture
    ensures Run(EMPTY, [Block(a), Block(b)], c) == Tables([a, b], [], {}, [])
  {
    assert [Block(a), Block(b)] == [Block(a)] + [Block(b)];
    RunAppend(EMPTY, [Block(a)], [Block(b)], c);
    RunOne(EMPTY, Block(a), c);
    SecondBlocked(a, b, []);
    RunOne(Tables([a], [], {}, []), Block(b), c);
  }

  // A result acquired before a decision but recorded after the sync that made it: in every such
  // pair of schedules the same arrivals freeze different calibrations.
  lemma LateObservationBreaksReplay(a: Signal, b: Signal, won: Observation, c: Config)
    requires Comparable(a, b, won, c)
    ensures var live, late := Live([Block(a), Block(b)], Observe(won)), Late([Block(a), Block(b)], Observe(won));
            && Arrivals(live) == Arrivals(late)
            && GapsDiffer(Run(EMPTY, live, c), Run(EMPTY, late, c), b.id)
            && !SameDecisions(Run(EMPTY, live, c), Run(EMPTY, late, c))
  {
    TwoSignalsRun(a, b, c);
    LateWin(EMPTY, [Block(a), Block(b)], a, b, won, c);
  }

  lemma LateWin(start: Tables, first: seq<Step>, a: Signal, b: Signal, won: Observation, c: Config)
    requires Comparable(a, b, won, c) && Run(start, first, c) == Tables([a, b], [], {}, [])
    ensures var live, late := Live(first, Observe(won)), Late(first, Observe(won));
            && Arrivals(live) == Arrivals(late)
            && GapsDiffer(Run(start, live, c), Run(start, late, c), b.id)
            && !SameDecisions(Run(start, live, c), Run(start, late, c))
  {
    var t, u := Tables([a, b], [], {}, []), Tables([a, b], [won], {}, []);
    BareSound([a, b], [], c);
    BareSound([a, b], [won], c);
    assert WithObservation(t, won) == u;
    ComparableGaps(a, b, won, b, c);
    ReplayBreaks(start, first, Observe(won), t, u, b, c);
  }

  lemma KnownResultRun(a: Signal, b: Signal, won: Observation, c: Config)
    requires a.id != b.id && a.fixture != b.fixture
    ensures Run(EMPTY, [Block(a), Observe(won), Block(b)], c) == Tables([a, b], [won], {}, [])
  {
    assert [Block(a), Observe(won), Block(b)] == [Block(a)] + [Observe(won)] + [Block(b)];
    RunThenTwo(EMPTY, [], Block(a), Observe(won), c);
    assert [] + [Block(a)] + [Observe(won)] == [Block(a)] + [Observe(won)];
    RunAppend(EMPTY, [Block(a)] + [Observe(won)], [Block(b)], c);
    SecondBlocked(a, b, [won]);
    assert WithObservation(Tables([a], [], {}, []), won) == Tables([a], [won], {}, []);
    RunOne(Tables([a], [won], {}, []), Block(b), c);
  }

  lemma PromotionRewrites(a: Signal, b: Signal, moved: Signal, results: seq<Observation>)
    requires a.fixture != b.fixture && moved.id == a.id && moved.fixture == a.fixture
    ensures WithPromotion(Tables([a, b], results, {}, []), moved) == Tables([moved, b], results, {}, [])
  {
    var signals := [a, b];
    assert signals[..1] == [a];
    assert RowOf(signals, a.fixture) == RowOf([a], a.fixture) == Some(0);
    assert signals[0 := moved] == [moved, b];
  }

  // A promotion that requalifies a decided signal after a later decision: the sync before it
  // froze that decision on the signal's result, the sync after it does not.
  lemma PromotionBreaksReplay(a: Signal, b: Signal, won: Observation, requalifiedAt: int, c: Config)
    requires Comparable(a, b, won, c) && requalifiedAt >= b.qualifiedAt
    ensures var first: seq<Step> := [Block(a), Observe(won), Block(b)];
            var promote: Step := Promote(a.(qualifiedAt := requalifiedAt));
            && Arrivals(Live(first, promote)) == Arrivals(Late(first, promote))
            && GapsDiffer(Run(EMPTY, Live(first, promote), c), Run(EMPTY, Late(first, promote), c), b.id)
            && !SameDecisions(Run(EMPTY, Live(first, promote), c), Run(EMPTY, Late(first, promote), c))
  {
    KnownResultRun(a, b, won, c);
    RequalifiedLate(EMPTY, [Block(a), Observe(won), Block(b)], a, b, won, a.(qualifiedAt := requalifiedAt), c);
  }

  lemma RequalifiedLate(start: Tables, first: seq<Step>, a: Signal, b: Signal, won: Observation, moved: Signal, c: Config)
    requires Comparable(a, b, won, c) && Run(start, first, c) == Tables([a, b], [won], {}, [])
    requires moved == a.(qualifiedAt := moved.qualifiedAt) && moved.qualifiedAt >= b.qualifiedAt
    ensures var live, late := Live(first, Promote(moved)), Late(first, Promote(moved));
            && Arrivals(live) == Arrivals(late)
            && GapsDiffer(Run(start, live, c), Run(start, late, c), b.id)
            && !SameDecisions(Run(start, live, c), Run(start, late, c))
  {
    var t, u := Tables([a, b], [won], {}, []), Tables([moved, b], [won], {}, []);
    BareSound([a, b], [won], c);
    BareSound([moved, b], [won], c);
    PromotionRewrites(a, b, moved, [won]);
    ComparableGaps(a, b, won, moved, c);
    ReplayBreaks(start, first, Promote(moved), t, u, b, c);
  }
}
