/** Replaying the signals late freezes the same portfolio as following them live. */
module KellyReplay {
  import opened Wrappers
  import opened Settlement
  import opened Sorting
  import opened KellyLab
  import opened KellyPortfolio
  import opened KellyRepository

  // ----- a view before a cutoff ignores what comes later -----

  lemma {:induction false} PriorRowsIgnoreLateResult(signals: seq<Signal>, results: seq<Observation>, blocked: set<nat>,
                                                     cutoff: int, o: Observation)
    requires cutoff <= o.acquiredAt
    ensures PriorRows(signals, results + [o], blocked, cutoff) == PriorRows(signals, results, blocked, cutoff)
  {
    if signals != [] {
      PriorRowsIgnoreLateResult(signals[..|signals| - 1], results, blocked, cutoff, o);
      assert (results + [o])[..|results|] == results;
    }
  }

  lemma {:induction false} SumPnlIgnoresLateResult(picks: seq<Pick>, results: seq<Observation>, cutoff: int, o: Observation)
    requires cutoff <= o.acquiredAt
    ensures SumPnl(picks, results + [o], cutoff) == SumPnl(picks, results, cutoff)
  {
    if picks != [] {
      SumPnlIgnoresLateResult(picks[..|picks| - 1], results, cutoff, o);
      assert (results + [o])[..|results|] == results;
    }
  }

  lemma PriorRowsIgnoreLateSignal(signals: seq<Signal>, results: seq<Observation>, blocked: set<nat>, cutoff: int, s: Signal)
    requires cutoff <= s.qualifiedAt
    ensures PriorRows(signals + [s], results, blocked, cutoff) == PriorRows(signals, results, blocked, cutoff)
  {
    assert (signals + [s])[..|signals|] == signals;
  }

  lemma {:induction false} PriorRowsIgnoreLateRewrite(signals: seq<Signal>, results: seq<Observation>, blocked: set<nat>,
                                                      cutoff: int, i: nat, s: Signal)
    requires i < |signals| && cutoff <= signals[i].qualifiedAt && cutoff <= s.qualifiedAt
    ensures PriorRows(signals[i := s], results, blocked, cutoff) == PriorRows(signals, results, blocked, cutoff)
  {
    var k := |signals| - 1;
    if i == k {
      assert signals[i := s][..k] == signals[..k];
    } else {
      PriorRowsIgnoreLateRewrite(signals[..k], results, blocked, cutoff, i, s);
      assert signals[i := s][..k] == signals[..k][i := s];
    }
  }

  lemma {:induction false} PriorRowsIgnoreOtherFixture(signals: seq<Signal>, results: seq<Observation>, blocked: set<nat>,
                                                       blocked': set<nat>, cutoff: int)
    requires forall s | s in signals :: s.fixture in blocked <==> s.fixture in blocked'
    ensures PriorRows(signals, results, blocked', cutoff) == PriorRows(signals, results, blocked, cutoff)
  {
    if signals != [] {
      assert forall s | s in signals[..|signals| - 1] :: s in signals;
      PriorRowsIgnoreOtherFixture(signals[..|signals| - 1], results, blocked, blocked', cutoff);
    }
  }

  lemma PicksBeforeIgnoreLatePick(picks: seq<Pick>, p: Pick, cutoff: int)
    requires cutoff <= p.decisionAt
    ensures PicksBefore(picks + [p], cutoff) == PicksBefore(picks, cutoff)
  {
    assert (picks + [p])[..|picks|] == picks;
  }

  lemma {:induction false} PicksBeforeExact(picks: seq<Pick>, cutoff: int)
    ensures forall p :: p in PicksBefore(picks, cutoff) <==> p in picks && p.decisionAt < cutoff
  {
    if picks != [] {
      PicksBeforeExact(picks[..|picks| - 1], cutoff);
      assert picks == picks[..|picks| - 1] + [picks[|picks| - 1]];
    }
  }

  lemma {:induction false} PicksBeforeDistinct(picks: seq<Pick>, cutoff: int)
    requires Distinct(picks)
    ensures Distinct(PicksBefore(picks, cutoff))
  {
    if picks != [] {
      var front, last := picks[..|picks| - 1], picks[|picks| - 1];
      PicksBeforeDistinct(front, cutoff);
      PicksBeforeExact(front, cutoff);
      assert last !in front;
    }
  }

  // ----- what every run keeps -----

  ghost predicate Keyed(signals: seq<Signal>) {
    forall i, j | 0 <= i < j < |signals| :: signals[i].id != signals[j].id && signals[i].fixture != signals[j].fixture
  }

  ghost predicate KeyedPicks(picks: seq<Pick>) {
    forall i, j | 0 <= i < j < |picks| :: picks[i].signalId != picks[j].signalId
  }

  predicate Eligible(t: Tables, s: Signal, c: Config) {
    s in t.signals && s.qualifiedAt >= c.startedAt && InScope(t, s)
  }

  // The pick is what the tables as they stand would freeze for this signal.
  ghost predicate Refreezes(t: Tables, p: Pick, s: Signal, c: Config) {
    Eligible(t, s, c) && s.id == p.signalId && s.qualifiedAt == p.decisionAt && p == Freeze(t, s, c)
  }

  ghost predicate Rederivable(t: Tables, p: Pick, c: Config) {
    exists s :: Refreezes(t, p, s, c)
  }

  // Every eligible signal before a decided one is decided.
  ghost predicate NoneSkipped(t: Tables, c: Config) {
    forall p, s | p in t.picks && Eligible(t, s, c) && s.qualifiedAt < p.decisionAt :: Picked(t.picks, s.id)
  }

  ghost predicate Sound(t: Tables, c: Config) {
    && Keyed(t.signals) && KeyedPicks(t.picks)
    && (forall p {:trigger Rederivable(t, p, c)} | p in t.picks :: Rederivable(t, p, c))
    && NoneSkipped(t, c)
  }

  lemma SameId(signals: seq<Signal>, a: Signal, b: Signal)
    requires Keyed(signals) && a in signals && b in signals && (a.id == b.id || a.fixture == b.fixture)
    ensures a == b
  {
    var i :| 0 <= i < |signals| && signals[i] == a;
    var j :| 0 <= j < |signals| && signals[j] == b;
  }

  lemma SamePickId(picks: seq<Pick>, a: Pick, b: Pick)
    requires KeyedPicks(picks) && a in picks && b in picks && a.signalId == b.signalId
    ensures a == b
  {
    var i :| 0 <= i < |picks| && picks[i] == a;
    var j :| 0 <= j < |picks| && picks[j] == b;
  }

  // ----- a sync freezes every open signal on its own view -----

  ghost predicate NoDecisionAfter(picks: seq<Pick>, at: int) {
    forall p | p in picks :: p.decisionAt <= at
  }

  lemma OtherPickStays(t: Tables, frozen: Pick, p: Pick, c: Config)
    requires Rederivable(t, p, c) && p.decisionAt <= frozen.decisionAt
    ensures Rederivable(t.(picks := t.picks + [frozen]), p, c)
  {
    var u := t.(picks := t.picks + [frozen]);
    var e :| Refreezes(t, p, e, c);
    PicksBeforeIgnoreLatePick(t.picks, frozen, p.decisionAt);
    assert Refreezes(u, p, e, c);
  }

  lemma DecidedNoLater(t: Tables, s: Signal, c: Config)
    requires NoneSkipped(t, c) && Eligible(t, s, c) && !Picked(t.picks, s.id)
    ensures NoDecisionAfter(t.picks, s.qualifiedAt)
  {
  }

  lemma FrozenRederivable(t: Tables, s: Signal, c: Config)
    requires Eligible(t, s, c)
    ensures var frozen := Freeze(t, s, c);
            Rederivable(t, frozen, c) && frozen.signalId == s.id && frozen.decisionAt == s.qualifiedAt
  {
    assert Refreezes(t, Freeze(t, s, c), s, c);
  }

  // One inserted pick.
  lemma PickSound(t: Tables, s: Signal, c: Config)
    requires Sound(t, c) && Eligible(t, s, c) && !Picked(t.picks, s.id)
    requires forall e | Eligible(t, e, c) && e.qualifiedAt < s.qualifiedAt :: Picked(t.picks, e.id)
    ensures Sound(t.(picks := t.picks + [Freeze(t, s, c)]), c)
  {
    var frozen := Freeze(t, s, c);
    FrozenRederivable(t, s, c);
    InsertedPickSound(t, frozen, s, c);
  }

  lemma InsertedPickSound(t: Tables, frozen: Pick, s: Signal, c: Config)
    requires Sound(t, c) && Eligible(t, s, c) && !Picked(t.picks, s.id)
    requires Rederivable(t, frozen, c) && frozen.signalId == s.id && frozen.decisionAt == s.qualifiedAt
    requires forall e | Eligible(t, e, c) && e.qualifiedAt < s.qualifiedAt :: Picked(t.picks, e.id)
    ensures Sound(t.(picks := t.picks + [frozen]), c)
  {
    var u := t.(picks := t.picks + [frozen]);
    DecidedNoLater(t, s, c);
    OtherPickStays(t, frozen, frozen, c);
    forall p | p in u.picks ensures (p in t.picks || p == frozen) && Rederivable(u, p, c) {
      if p != frozen {
        OtherPickStays(t, frozen, p, c);
      }
    }
    InsertedKeyed(t.picks, frozen);
    assert forall e :: Eligible(u, e, c) <==> Eligible(t, e, c);
    assert NoneSkipped(u, c);
  }

  lemma InsertedKeyed(picks: seq<Pick>, frozen: Pick)
    requires KeyedPicks(picks) && !Picked(picks, frozen.signalId)
    ensures KeyedPicks(picks + [frozen])
    ensures forall id :: Picked(picks + [frozen], id) <==> Picked(picks, id) || id == frozen.signalId
  {
    var all := picks + [frozen];
    assert forall p :: p in all <==> p in picks || p == frozen;
    forall i, j | 0 <= i < j < |all| ensures all[i].signalId != all[j].signalId {
      assert all[i] == picks[i] && picks[i] in picks;
    }
  }

  lemma {:induction false} UnpickedExact(signals: seq<Signal>, picks: seq<Pick>, startedAt: int)
    ensures forall s :: s in Unpicked(signals, picks, startedAt)
                    <==> s in signals && s.qualifiedAt >= startedAt && !Picked(picks, s.id)
  {
    if signals != [] {
      UnpickedExact(signals[..|signals| - 1], picks, startedAt);
      assert signals == signals[..|signals| - 1] + [signals[|signals| - 1]];
    }
  }

  lemma {:induction false} UnpickedDistinct(signals: seq<Signal>, picks: seq<Pick>, startedAt: int)
    requires Keyed(signals)
    ensures Distinct(Unpicked(signals, picks, startedAt))
  {
    if signals != [] {
      var front, last := signals[..|signals| - 1], signals[|signals| - 1];
      UnpickedDistinct(front, picks, startedAt);
      UnpickedExact(front, picks, startedAt);
      assert last !in front;
    }
  }

  lemma QualifiedEarlierIsTotal(signals: seq<Signal>, some: set<Signal>)
    requires Keyed(signals) && forall s | s in some :: s in signals
    ensures StrictOrderOn(QualifiedEarlier, some)
  {
    forall a, b | a in some && b in some && a != b ensures QualifiedEarlier(a, b) || QualifiedEarlier(b, a) {
      if a.id == b.id {
        SameId(signals, a, b);
      }
    }
  }

  ghost predicate InDecisionOrder(t: Tables, candidates: seq<Signal>, c: Config) {
    && Distinct(candidates)
    && Sorted(QualifiedEarlier, candidates)
    && forall s :: s in candidates <==> s in t.signals && s.qualifiedAt >= c.startedAt && !Picked(t.picks, s.id)
  }

  lemma CandidatesInOrder(t: Tables, c: Config)
    requires Keyed(t.signals)
    ensures InDecisionOrder(t, Candidates(t, c), c)
  {
    var unpicked := Unpicked(t.signals, t.picks, c.startedAt);
    UnpickedExact(t.signals, t.picks, c.startedAt);
    UnpickedDistinct(t.signals, t.picks, c.startedAt);
    SortPermutes(unpicked, QualifiedEarlier);
    PermutationDistinct(unpicked, Candidates(t, c));
    QualifiedEarlierIsTotal(t.signals, Elements(unpicked));
    SortSorts(unpicked, QualifiedEarlier);
    forall s ensures s in Candidates(t, c) <==> s in unpicked {
      assert s in Elements(Candidates(t, c)) <==> s in Elements(unpicked);
    }
  }

  // What the loop has decided after i candidates.
  ghost predicate Decided(t: Tables, u: Tables, candidates: seq<Signal>, i: nat)
    requires i <= |candidates|
  {
    forall id :: Picked(u.picks, id)
             <==> Picked(t.picks, id) || exists j :: 0 <= j < i && candidates[j].id == id && InScope(t, candidates[j])
  }

  lemma {:induction false} SyncOverSound(t: Tables, candidates: seq<Signal>, i: nat, c: Config)
    requires Sound(t, c) && InDecisionOrder(t, candidates, c) && i <= |candidates|
    ensures Sound(SyncOver(t, candidates[..i], c), c)
    ensures Decided(t, SyncOver(t, candidates[..i], c), candidates, i)
  {
    var u := SyncOver(t, candidates[..i], c);
    if i == 0 {
      assert u == t;
    } else {
      SyncOverSound(t, candidates, i - 1, c);
      assert candidates[..i][..i - 1] == candidates[..i - 1];
      var before := SyncOver(t, candidates[..i - 1], c);
      SyncKeepsSources(t, candidates[..i - 1], c);
      SyncStepSound(t, before, candidates, i - 1, c);
      assert u == if InScope(t, candidates[i - 1])
        then before.(picks := before.picks + [Freeze(before, candidates[i - 1], c)]) else before;
    }
  }

  lemma SyncStepSound(t: Tables, before: Tables, candidates: seq<Signal>, i: nat, c: Config)
    requires Sound(before, c) && InDecisionOrder(t, candidates, c) && i < |candidates|
    requires before.signals == t.signals && before.results == t.results && before.blocked == t.blocked
    requires Decided(t, before, candidates, i)
    ensures var s := candidates[i];
            var u := if InScope(t, s) then before.(picks := before.picks + [Freeze(before, s, c)]) else before;
            Sound(u, c) && Decided(t, u, candidates, i + 1)
  {
    var s := candidates[i];
    assert s in candidates;
    if InScope(t, s) {
      NotYetDecided(t, before, candidates, i, c);
      EarlierDecided(t, before, candidates, i, c);
      PickSound(before, s, c);
      var frozen := Freeze(before, s, c);
      var u := before.(picks := before.picks + [frozen]);
      forall id ensures Picked(u.picks, id) <==> Picked(before.picks, id) || id == s.id {
        assert forall p :: p in u.picks <==> p in before.picks || p == frozen;
        assert frozen.signalId == s.id;
      }
    }
  }

  lemma NotYetDecided(t: Tables, before: Tables, candidates: seq<Signal>, i: nat, c: Config)
    requires Keyed(t.signals) && InDecisionOrder(t, candidates, c) && i < |candidates|
    requires Decided(t, before, candidates, i)
    ensures !Picked(before.picks, candidates[i].id)
  {
    var s := candidates[i];
    assert s in candidates;
    forall j | 0 <= j < i ensures candidates[j].id != s.id {
      assert candidates[j] in candidates && candidates[j] != s;
      if candidates[j].id == s.id {
        SameId(t.signals, candidates[j], s);
      }
    }
  }

  lemma EarlierStandsBefore(candidates: seq<Signal>, i: nat, j: nat)
    requires Sorted(QualifiedEarlier, candidates) && i < |candidates| && j < |candidates|
    requires candidates[j].qualifiedAt < candidates[i].qualifiedAt
    ensures j < i
  {
    assert QualifiedEarlier(candidates[j], candidates[i]);
  }

  lemma EarlierDecided(t: Tables, before: Tables, candidates: seq<Signal>, i: nat, c: Config)
    requires InDecisionOrder(t, candidates, c) && i < |candidates|
    requires before.signals == t.signals && before.blocked == t.blocked
    requires Decided(t, before, candidates, i)
    ensures forall e | Eligible(before, e, c) && e.qualifiedAt < candidates[i].qualifiedAt :: Picked(before.picks, e.id)
  {
    forall e | Eligible(before, e, c) && e.qualifiedAt < candidates[i].qualifiedAt ensures Picked(before.picks, e.id) {
      if !Picked(t.picks, e.id) {
        assert e in candidates;
        var j :| 0 <= j < |candidates| && candidates[j] == e;
        EarlierStandsBefore(candidates, i, j);
        assert candidates[j].id == e.id && InScope(t, candidates[j]);
      }
    }
  }

  lemma SyncSound(t: Tables, c: Config)
    requires Sound(t, c)
    ensures Sound(Sync(t, c), c)
    ensures forall s | Eligible(t, s, c) :: Picked(Sync(t, c).picks, s.id)
  {
    var candidates := Candidates(t, c);
    CandidatesInOrder(t, c);
    SyncOverSound(t, candidates, |candidates|, c);
    assert candidates[..|candidates|] == candidates;
    forall s | Eligible(t, s, c) ensures Picked(Sync(t, c).picks, s.id) {
      if !Picked(t.picks, s.id) {
        assert s in candidates;
        var j :| 0 <= j < |candidates| && candidates[j] == s;
        assert candidates[j].id == s.id && InScope(t, candidates[j]);
      }
    }
  }

  // ----- arrivals that change nothing decided -----

  // A signal row changes only where nothing is decided yet: a new row qualifies no earlier than
  // every decision, and a rewritten row was, and stays, no earlier than every decision.
  ghost predicate SignalInOrder(t: Tables, s: Signal) {
    RowOfExact(t.signals, s.fixture);
    var i := RowOf(t.signals, s.fixture);
    && NoDecisionAfter(t.picks, s.qualifiedAt)
    && (i.Some? ==> NoDecisionAfter(t.picks, t.signals[i.value].qualifiedAt) && !Picked(t.picks, t.signals[i.value].id))
  }

  ghost predicate InOrder(t: Tables, step: Step) {
    match step
    case Block(s) => SignalInOrder(t, s) || WithBlock(t, s) == t
    case Promote(s) => SignalInOrder(t, s)
    case Observe(o) => NoDecisionAfter(t.picks, o.acquiredAt)
    case Describe(fixture, blocked) => forall s | s in t.signals && s.fixture == fixture :: (fixture in t.blocked) == blocked
    case Synchronize => true
  }

  ghost predicate AllInOrder(t: Tables, steps: seq<Step>, c: Config)
    decreases |steps|
  {
    steps != [] ==> InOrder(t, steps[0]) && AllInOrder(Next(t, steps[0], c), steps[1..], c)
  }

  // The tables change, but no decided view, no eligible decided signal and no new earlier one.
  lemma UndecidedChangeSound(t: Tables, u: Tables, c: Config)
    requires Sound(t, c) && Keyed(u.signals) && u.picks == t.picks
    requires forall p, e | p in t.picks && Refreezes(t, p, e, c) :: Refreezes(u, p, e, c)
    requires forall p, e | p in t.picks && Eligible(u, e, c) && e.qualifiedAt < p.decisionAt :: Eligible(t, e, c)
    ensures Sound(u, c)
  {
    forall p | p in u.picks ensures Rederivable(u, p, c) {
      assert Rederivable(t, p, c);
      var e :| Refreezes(t, p, e, c);
      assert Refreezes(u, p, e, c);
    }
  }

  lemma ObserveSound(t: Tables, o: Observation, c: Config)
    requires Sound(t, c) && NoDecisionAfter(t.picks, o.acquiredAt)
    ensures Sound(WithObservation(t, o), c)
  {
    var u := WithObservation(t, o);
    if u != t {
      forall p, e | p in t.picks && Refreezes(t, p, e, c) ensures Refreezes(u, p, e, c) {
        PriorRowsIgnoreLateResult(t.signals, t.results, t.blocked, p.decisionAt, o);
        SumPnlIgnoresLateResult(Sort(PicksBefore(t.picks, p.decisionAt), DecidedEarlier), t.results, p.decisionAt, o);
      }
      UndecidedChangeSound(t, u, c);
    }
  }

  lemma DescribeSound(t: Tables, fixture: nat, blocked: bool, c: Config)
    requires Sound(t, c) && InOrder(t, Describe(fixture, blocked))
    ensures Sound(WithDescription(t, fixture, blocked), c)
  {
    var u := WithDescription(t, fixture, blocked);
    assert forall s | s in t.signals :: s.fixture in t.blocked <==> s.fixture in u.blocked;
    forall p, e | p in t.picks && Refreezes(t, p, e, c) ensures Refreezes(u, p, e, c) {
      PriorRowsIgnoreOtherFixture(t.signals, t.results, t.blocked, u.blocked, p.decisionAt);
    }
    UndecidedChangeSound(t, u, c);
  }

  lemma AppendSignalSound(t: Tables, s: Signal, c: Config)
    requires Sound(t, c) && NoDecisionAfter(t.picks, s.qualifiedAt)
    requires forall r | r in t.signals :: r.id != s.id && r.fixture != s.fixture
    ensures Sound(t.(signals := t.signals + [s]), c)
  {
    var u := t.(signals := t.signals + [s]);
    assert forall r :: r in u.signals <==> r in t.signals || r == s;
    forall p, e | p in t.picks && Refreezes(t, p, e, c) ensures Refreezes(u, p, e, c) {
      PriorRowsIgnoreLateSignal(t.signals, t.results, t.blocked, p.decisionAt, s);
    }
    UndecidedChangeSound(t, u, c);
  }

  lemma RewriteSignalSound(t: Tables, i: nat, s: Signal, c: Config)
    requires Sound(t, c) && NoDecisionAfter(t.picks, s.qualifiedAt)
    requires i < |t.signals| && t.signals[i].fixture == s.fixture
    requires NoDecisionAfter(t.picks, t.signals[i].qualifiedAt) && !Picked(t.picks, t.signals[i].id)
    requires t.signals[i].id == s.id || forall r | r in t.signals :: r.id != s.id
    ensures Sound(t.(signals := t.signals[i := s]), c)
  {
    var u := t.(signals := t.signals[i := s]);
    assert forall r | r in u.signals :: r in t.signals || r == s;
    assert forall r | r in t.signals && r != t.signals[i] :: r in u.signals by {
      forall r | r in t.signals && r != t.signals[i] ensures r in u.signals {
        var j :| 0 <= j < |t.signals| && t.signals[j] == r;
        assert u.signals[j] == r;
      }
    }
    forall p, e | p in t.picks && Refreezes(t, p, e, c) ensures Refreezes(u, p, e, c) {
      PriorRowsIgnoreLateRewrite(t.signals, t.results, t.blocked, p.decisionAt, i, s);
    }
    UndecidedChangeSound(t, u, c);
  }

  lemma SignalSound(t: Tables, s: Signal, u: Tables, c: Config)
    requires Sound(t, c) && SignalInOrder(t, s) && (u == WithBlock(t, s) || u == WithPromotion(t, s))
    ensures Sound(u, c)
  {
    RowOfExact(t.signals, s.fixture);
    var i := RowOf(t.signals, s.fixture);
    if u != t {
      if i.None? {
        AppendSignalSound(t, s, c);
      } else if u == WithBlock(t, s) {
        RewriteSignalSound(t, i.value, t.signals[i.value].(qualifiedAt := s.qualifiedAt), c);
      } else {
        RewriteSignalSound(t, i.value, s, c);
      }
    }
  }

  lemma NextSound(t: Tables, step: Step, c: Config)
    requires Sound(t, c) && InOrder(t, step)
    ensures Sound(Next(t, step, c), c)
  {
    match step {
      case Block(s) => if WithBlock(t, s) != t { SignalSound(t, s, WithBlock(t, s), c); }
      case Promote(s) => SignalSound(t, s, WithPromotion(t, s), c);
      case Observe(o) => ObserveSound(t, o, c);
      case Describe(fixture, blocked) => DescribeSound(t, fixture, blocked, c);
      case Synchronize => SyncSound(t, c);
    }
  }

  // After any run in order every pick ever frozen is still what the tables as they now stand
  // would freeze for its signal: later signals, results and metadata never change it.
  lemma {:induction false} RunSound(t: Tables, steps: seq<Step>, c: Config)
    requires Sound(t, c) && AllInOrder(t, steps, c)
    ensures Sound(Run(t, steps, c), c)
    ensures t.picks <= Run(t, steps, c).picks
    decreases |steps|
  {
    if steps != [] {
      NextSound(t, steps[0], c);
      if steps[0].Synchronize? {
        SyncKeepsSources(t, Candidates(t, c), c);
      }
      RunSound(Next(t, steps[0], c), steps[1..], c);
    }
  }

  lemma {:induction false} RunAppend(t: Tables, first: seq<Step>, second: seq<Step>, c: Config)
    ensures Run(t, first + second, c) == Run(Run(t, first, c), second, c)
    ensures AllInOrder(t, first, c) && AllInOrder(Run(t, first, c), second, c) ==> AllInOrder(t, first + second, c)
    decreases |first|
  {
    if first == [] {
      assert first + second == second;
    } else {
      assert (first + second)[1..] == first[1..] + second;
      RunAppend(Next(t, first[0], c), first[1..], second, c);
    }
  }

  lemma RunOne(t: Tables, step: Step, c: Config)
    ensures Run(t, [step], c) == Next(t, step, c)
    ensures InOrder(t, step) ==> AllInOrder(t, [step], c)
  {
    assert [step][1..] == [];
    assert Run(Next(t, step, c), [], c) == Next(t, step, c);
    assert AllInOrder(Next(t, step, c), [], c);
  }

  // ----- two schedules, one portfolio -----

  ghost predicate SameSources(a: Tables, b: Tables) {
    a.signals == b.signals && a.results == b.results && a.blocked == b.blocked
  }

  lemma DecidedEarlierIsTotal(picks: seq<Pick>, some: set<Pick>)
    requires KeyedPicks(picks) && forall p | p in some :: p in picks
    ensures StrictOrderOn(DecidedEarlier, some)
  {
    forall a, b | a in some && b in some && a != b ensures DecidedEarlier(a, b) || DecidedEarlier(b, a) {
      if a.signalId == b.signalId {
        SamePickId(picks, a, b);
      }
    }
  }

  // The other portfolio holds the same pick for every decision before a common one.
  lemma EarlierPickShared(a: Tables, b: Tables, x: Pick, q: Pick, c: Config)
    requires Sound(a, c) && Sound(b, c) && SameSources(a, b)
    requires x in a.picks && q in b.picks && x.decisionAt < q.decisionAt
    ensures exists y | y in b.picks :: y.signalId == x.signalId
  {
    assert Rederivable(a, x, c);
    var e :| Refreezes(a, x, e, c);
    assert Eligible(b, e, c);
    assert Picked(b.picks, e.id);
  }

  lemma SameDecisionTime(a: Tables, b: Tables, p: Pick, q: Pick, c: Config) returns (s: Signal)
    requires Sound(a, c) && Sound(b, c) && SameSources(a, b)
    requires p in a.picks && q in b.picks && p.signalId == q.signalId
    ensures Refreezes(a, p, s, c) && Refreezes(b, q, s, c)
  {
    assert Rederivable(a, p, c) && Rederivable(b, q, c);
    s :| Refreezes(a, p, s, c);
    var r :| Refreezes(b, q, r, c);
    SameId(a.signals, s, r);
  }

  lemma {:induction false} SamePick(a: Tables, b: Tables, p: Pick, q: Pick, c: Config)
    requires Sound(a, c) && Sound(b, c) && SameSources(a, b)
    requires p in a.picks && q in b.picks && p.signalId == q.signalId
    ensures p == q
    decreases p.decisionAt - c.startedAt
  {
    var s := SameDecisionTime(a, b, p, q, c);
    var at := s.qualifiedAt;
    forall x | x in a.picks && x.decisionAt < at ensures x in b.picks {
      EarlierPickShared(a, b, x, q, c);
      var y :| y in b.picks && y.signalId == x.signalId;
      var e := SameDecisionTime(a, b, x, y, c);
      SamePick(a, b, x, y, c);
    }
    forall y | y in b.picks && y.decisionAt < at ensures y in a.picks {
      EarlierPickShared(b, a, y, p, c);
      var x :| x in a.picks && x.signalId == y.signalId;
      var e := SameDecisionTime(a, b, x, y, c);
      SamePick(a, b, x, y, c);
    }
    SameBankroll(a, b, at, c);
  }

  lemma SameBankroll(a: Tables, b: Tables, at: int, c: Config)
    requires KeyedPicks(a.picks) && KeyedPicks(b.picks) && a.results == b.results
    requires forall x | x in a.picks && x.decisionAt < at :: x in b.picks
    requires forall y | y in b.picks && y.decisionAt < at :: y in a.picks
    ensures BankrollAt(a.picks, a.results, c.starting, at) == BankrollAt(b.picks, b.results, c.starting, at)
  {
    PicksBeforeExact(a.picks, at);
    PicksBeforeExact(b.picks, at);
    PicksBeforeDistinct(a.picks, at);
    PicksBeforeDistinct(b.picks, at);
    var xs, ys := PicksBefore(a.picks, at), PicksBefore(b.picks, at);
    assert Elements(xs) == Elements(ys);
    DecidedEarlierIsTotal(a.picks, Elements(xs));
    SameSetSort(xs, ys, DecidedEarlier);
  }

  // What arrives, without the syncs.
  function Arrivals(steps: seq<Step>): seq<Step> {
    if steps == [] then []
    else (if steps[0].Synchronize? then [] else [steps[0]]) + Arrivals(steps[1..])
  }

  lemma NextSources(t: Tables, bare: Tables, step: Step, c: Config)
    requires SameSources(t, bare) && bare.picks == [] && InOrder(t, step) && !step.Synchronize?
    ensures SameSources(Next(t, step, c), Next(bare, step, c)) && Next(bare, step, c).picks == []
  {
    if step.Promote? {
      RowOfExact(t.signals, step.signal.fixture);
    }
  }

  // The signals, results and metadata depend on the arrivals alone.
  lemma {:induction false} RunSources(t: Tables, bare: Tables, steps: seq<Step>, c: Config)
    requires SameSources(t, bare) && bare.picks == [] && AllInOrder(t, steps, c)
    ensures SameSources(Run(t, steps, c), Run(bare, Arrivals(steps), c))
    decreases |steps|
  {
    if steps != [] {
      var step, rest := steps[0], steps[1..];
      if step.Synchronize? {
        SyncKeepsSources(t, Candidates(t, c), c);
        assert Arrivals(steps) == Arrivals(rest);
        RunSources(Next(t, step, c), bare, rest, c);
      } else {
        NextSources(t, bare, step, c);
        assert Arrivals(steps) == [step] + Arrivals(rest);
        assert Arrivals(steps)[1..] == Arrivals(rest);
        RunSources(Next(t, step, c), Next(bare, step, c), rest, c);
      }
    }
  }

  lemma EmptySound(c: Config)
    ensures Sound(EMPTY, c)
  {
  }

  // A signal both portfolios have picked carries one calibration, bankroll and stake.
  ghost predicate SameDecisions(a: Tables, b: Tables) {
    forall p, q | p in a.picks && q in b.picks && p.signalId == q.signalId :: p == q
  }

  // The same arrivals under any two sync schedules freeze the same calibration, bankroll and
  // stake for every signal both have picked, and after a last sync the same portfolio.
  lemma ReplayEqualsLive(live: seq<Step>, late: seq<Step>, c: Config)
    requires AllInOrder(EMPTY, live, c) && AllInOrder(EMPTY, late, c) && Arrivals(live) == Arrivals(late)
    ensures var a, b := Run(EMPTY, live, c), Run(EMPTY, late, c);
            SameDecisions(a, b) && Elements(Sync(a, c).picks) == Elements(Sync(b, c).picks)
  {
    var a, b := Run(EMPTY, live, c), Run(EMPTY, late, c);
    EmptySound(c);
    RunSound(EMPTY, live, c);
    RunSound(EMPTY, late, c);
    RunSources(EMPTY, EMPTY, live, c);
    RunSources(EMPTY, EMPTY, late, c);
    forall p, q | p in a.picks && q in b.picks && p.signalId == q.signalId ensures p == q {
      SamePick(a, b, p, q, c);
    }
    SyncsAgree(a, b, c);
  }

  lemma SyncsAgree(a: Tables, b: Tables, c: Config)
    requires Sound(a, c) && Sound(b, c) && SameSources(a, b)
    ensures Elements(Sync(a, c).picks) == Elements(Sync(b, c).picks)
  {
    var u, v := Sync(a, c), Sync(b, c);
    SyncSound(a, c);
    SyncSound(b, c);
    SyncKeepsSources(a, Candidates(a, c), c);
    SyncKeepsSources(b, Candidates(b, c), c);
    SyncWithin(u, v, c, b);
    SyncWithin(v, u, c, a);
  }

  lemma SyncWithin(u: Tables, v: Tables, c: Config, b: Tables)
    requires Sound(u, c) && Sound(v, c) && SameSources(u, v) && SameSources(b, v)
    requires forall s | Eligible(b, s, c) :: Picked(v.picks, s.id)
    ensures forall p | p in u.picks :: p in v.picks
  {
    forall p | p in u.picks ensures p in v.picks {
      assert Rederivable(u, p, c);
      var s :| Refreezes(u, p, s, c);
      assert Eligible(b, s, c);
      assert Picked(v.picks, s.id);
      var q :| q in v.picks && q.signalId == s.id;
      SamePick(u, v, p, q, c);
    }
  }
}
