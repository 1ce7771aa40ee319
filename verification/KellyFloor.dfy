/** When the floor of one unit acts: open stakes are not set aside, so concurrent losses can reach it. */
module KellyFloor {
  import opened Wrappers
  import opened Settlement
  import opened Sorting
  import opened KellyLab
  import opened KellyPortfolio
  import opened KellyRepository
  import opened KellyReplay

  // ----- any portfolio -----

  function Gain(p: Pick, results: seq<Observation>, cutoff: int): int {
    var pnl := KnownPnl(p, results, cutoff);
    if pnl > 0 then pnl else 0
  }

  function Loss(p: Pick, results: seq<Observation>, cutoff: int): int {
    Gain(p, results, cutoff) - KnownPnl(p, results, cutoff)
  }

  function Gains(picks: seq<Pick>, results: seq<Observation>, cutoff: int): int {
    if picks == [] then 0
    else Gains(picks[..|picks| - 1], results, cutoff) + Gain(picks[|picks| - 1], results, cutoff)
  }

  function Losses(picks: seq<Pick>, results: seq<Observation>, cutoff: int): int {
    if picks == [] then 0
    else Losses(picks[..|picks| - 1], results, cutoff) + Loss(picks[|picks| - 1], results, cutoff)
  }

  function CountLost(picks: seq<Pick>, results: seq<Observation>, cutoff: int): nat {
    if picks == [] then 0
    else
      CountLost(picks[..|picks| - 1], results, cutoff)
      + if KnownPnl(picks[|picks| - 1], results, cutoff) < 0 then 1 else 0
  }

  // The picks a view looks back on.
  function Decided(t: Tables, cutoff: int): seq<Pick> {
    Sort(PicksBefore(t.picks, cutoff), DecidedEarlier)
  }

  lemma {:induction false} PnlSplits(picks: seq<Pick>, results: seq<Observation>, cutoff: int)
    ensures SumPnl(picks, results, cutoff) == Gains(picks, results, cutoff) - Losses(picks, results, cutoff)
  {
    if picks != [] {
      PnlSplits(picks[..|picks| - 1], results, cutoff);
    }
  }

  // The view of any portfolio: the floor acts exactly when the known losses have eaten the
  // starting bankroll and the known gains.
  lemma FloorActsExactly(t: Tables, cutoff: int, c: Config)
    ensures var gains, losses := Gains(Decided(t, cutoff), t.results, cutoff), Losses(Decided(t, cutoff), t.results, cutoff);
            BankrollAt(t.picks, t.results, c.starting, cutoff)
            == if losses >= c.starting + gains then 1 else c.starting + gains - losses
  {
    PnlSplits(Decided(t, cutoff), t.results, cutoff);
  }

  // Under the one percent cap a stake is at most one percent, rounded half up, of its bankroll.
  lemma FrozenWithinPercent(t: Tables, s: Signal, c: Config)
    requires c.cap <= 0.01
    ensures var p := Freeze(t, s, c);
            0 <= p.plan.stake && 100 * p.plan.stake <= p.bankrollBefore + 50
  {
    var p := Freeze(t, s, c);
    FreezeNeverRaises(t, s, c);
    StakeBounded(p.bankrollBefore, s.odds, p.calibration.probability, c.fraction, c.cap);
    OnePercent(p.bankrollBefore, p.plan.stake, c.cap);
  }

  lemma DecidedWithinPercent(t: Tables, p: Pick, c: Config)
    requires Rederivable(t, p, c) && c.cap <= 0.01
    ensures p.bankrollBefore == BankrollAt(t.picks, t.results, c.starting, p.decisionAt)
    ensures p.odds > 1.0 && 0 <= p.plan.stake && 100 * p.plan.stake <= p.bankrollBefore + 50
  {
    var s :| Refreezes(t, p, s, c);
    FrozenWithinPercent(t, s, c);
  }

  // A pick loses at most its stake.
  lemma LossWithinStake(p: Pick, most: int, results: seq<Observation>, cutoff: int)
    requires p.odds > 1.0 && 0 <= p.plan.stake && 100 * p.plan.stake <= most + 50
    ensures 0 <= Loss(p, results, cutoff) <= (most + 50) / 100
    ensures KnownPnl(p, results, cutoff) >= 0 ==> Loss(p, results, cutoff) == 0
  {
    ProfitNotNegative(p.plan.stake, p.odds);
  }

  lemma {:induction false} LossesWithin(picks: seq<Pick>, each: int, results: seq<Observation>, cutoff: int)
    requires each >= 0
    requires forall p | p in picks :: 0 <= Loss(p, results, cutoff) <= each
    ensures Losses(picks, results, cutoff) <= CountLost(picks, results, cutoff) * each
  {
    if picks != [] {
      var front, last := picks[..|picks| - 1], picks[|picks| - 1];
      assert picks == front + [last];
      LossesWithin(front, each, results, cutoff);
      OneMoreLoss(CountLost(front, results, cutoff), each);
    }
  }

  lemma {:induction false} GainsNotNegative(picks: seq<Pick>, results: seq<Observation>, cutoff: int)
    ensures Gains(picks, results, cutoff) >= 0
  {
    if picks != [] {
      GainsNotNegative(picks[..|picks| - 1], results, cutoff);
    }
  }

  // Under the one percent cap each lost pick takes at most one percent, rounded half up, of the
  // largest bankroll a pick was frozen on; so the floor cannot act before that many are lost.
  lemma FloorNeedsLosses(t: Tables, cutoff: int, most: int, c: Config)
    requires Sound(t, c) && c.cap <= 0.01 && most >= 0
    requires forall p | p in t.picks && p.decisionAt < cutoff :: p.bankrollBefore <= most
    ensures var lost := CountLost(Decided(t, cutoff), t.results, cutoff);
            && BankrollAt(t.picks, t.results, c.starting, cutoff) >= c.starting - lost * ((most + 50) / 100)
            && (Losses(Decided(t, cutoff), t.results, cutoff) >= c.starting + Gains(Decided(t, cutoff), t.results, cutoff)
                ==> lost * ((most + 50) / 100) >= c.starting)
  {
    var before, decided := PicksBefore(t.picks, cutoff), Decided(t, cutoff);
    PicksBeforeExact(t.picks, cutoff);
    SortPermutes(before, DecidedEarlier);
    forall p | p in decided ensures 0 <= Loss(p, t.results, cutoff) <= (most + 50) / 100 {
      assert p in Elements(decided) && p in before;
      assert Rederivable(t, p, c);
      DecidedWithinPercent(t, p, c);
      LossWithinStake(p, most, t.results, cutoff);
    }
    LossesWithin(decided, (most + 50) / 100, t.results, cutoff);
    GainsNotNegative(decided, t.results, cutoff);
    FloorActsExactly(t, cutoff, c);
  }

  // ----- picks decided one after the other -----

  // No two picks before the cutoff are decided at one time, and a later decision knew of an
  // earlier pick what is known of it at the cutoff.
  ghost predicate Sequential(t: Tables, cutoff: int) {
    && (forall p, q | p in t.picks && q in t.picks && p != q && p.decisionAt < cutoff :: p.decisionAt != q.decisionAt)
    && (forall p, q | p in t.picks && q in t.picks && p.decisionAt < q.decisionAt < cutoff ::
          KnownPnl(p, t.results, q.decisionAt) == KnownPnl(p, t.results, cutoff))
  }

  lemma {:induction false} SamePnl(picks: seq<Pick>, results: seq<Observation>, cutoff: int, cutoff': int)
    requires forall p | p in picks :: KnownPnl(p, results, cutoff) == KnownPnl(p, results, cutoff')
    ensures SumPnl(picks, results, cutoff) == SumPnl(picks, results, cutoff')
  {
    if picks != [] {
      assert forall p | p in picks[..|picks| - 1] :: p in picks;
      SamePnl(picks[..|picks| - 1], results, cutoff, cutoff');
    }
  }

  lemma KeyedIsDistinct(picks: seq<Pick>)
    requires KeyedPicks(picks)
    ensures Distinct(picks)
  {
  }

  lemma DecidedExact(t: Tables, cutoff: int)
    requires KeyedPicks(t.picks)
    ensures var decided := Decided(t, cutoff);
            && Distinct(decided) && Sorted(DecidedEarlier, decided) && StrictOrderOn(DecidedEarlier, Elements(decided))
            && forall p :: p in decided <==> p in t.picks && p.decisionAt < cutoff
  {
    var before, decided := PicksBefore(t.picks, cutoff), Decided(t, cutoff);
    KeyedIsDistinct(t.picks);
    PicksBeforeExact(t.picks, cutoff);
    PicksBeforeDistinct(t.picks, cutoff);
    SortPermutes(before, DecidedEarlier);
    PermutationDistinct(before, decided);
    forall p ensures p in decided <==> p in before {
      assert p in Elements(decided) <==> p in Elements(before);
    }
    DecidedEarlierIsTotal(t.picks, Elements(before));
    SortSorts(before, DecidedEarlier);
  }

  lemma StandsBefore(t: Tables, cutoff: int, i: nat, p: Pick)
    requires KeyedPicks(t.picks) && Sequential(t, cutoff) && i < |Decided(t, cutoff)|
    ensures p in Decided(t, cutoff)[..i] <==> p in t.picks && p.decisionAt < Decided(t, cutoff)[i].decisionAt
  {
    var decided := Decided(t, cutoff);
    DecidedExact(t, cutoff);
    assert decided[i] in decided;
    if p in t.picks && p.decisionAt < decided[i].decisionAt {
      assert p in decided;
      var j :| 0 <= j < |decided| && decided[j] == p;
      assert j < i;
    }
    if p in decided[..i] {
      assert p in decided && p != decided[i];
    }
  }

  // What a pick of a sequential portfolio looks back on is what was decided before it.
  lemma DecidedPrefix(t: Tables, cutoff: int, i: nat)
    requires KeyedPicks(t.picks) && Sequential(t, cutoff) && i < |Decided(t, cutoff)|
    ensures Decided(t, Decided(t, cutoff)[i].decisionAt) == Decided(t, cutoff)[..i]
  {
    var earlier, prefix := Decided(t, Decided(t, cutoff)[i].decisionAt), Decided(t, cutoff)[..i];
    DecidedExact(t, Decided(t, cutoff)[i].decisionAt);
    PrefixInOrder(t, cutoff, i);
    forall p ensures p in prefix <==> p in earlier {
      StandsBefore(t, cutoff, i, p);
    }
    SameMembers(earlier, prefix);
    SortedUnique(earlier, prefix, DecidedEarlier);
  }

  lemma PrefixInOrder(t: Tables, cutoff: int, i: nat)
    requires KeyedPicks(t.picks) && i <= |Decided(t, cutoff)|
    ensures Distinct(Decided(t, cutoff)[..i]) && Sorted(DecidedEarlier, Decided(t, cutoff)[..i])
  {
    DecidedExact(t, cutoff);
  }

  // A pick of a sequential portfolio is decided on the balance of the picks before it.
  lemma DecidedOnBalance(t: Tables, cutoff: int, i: nat, c: Config)
    requires Sound(t, c) && c.cap <= 0.01 && Sequential(t, cutoff) && i < |Decided(t, cutoff)|
    ensures var p := Decided(t, cutoff)[i];
            var balance := c.starting + SumPnl(Decided(t, cutoff)[..i], t.results, cutoff);
            && p.bankrollBefore == (if balance < 1 then 1 else balance)
            && p.odds > 1.0 && 0 <= p.plan.stake && 100 * p.plan.stake <= p.bankrollBefore + 50
  {
    var p, before := Decided(t, cutoff)[i], Decided(t, cutoff)[..i];
    DecidedExact(t, cutoff);
    assert p in Decided(t, cutoff);
    forall q | q in before ensures KnownPnl(q, t.results, p.decisionAt) == KnownPnl(q, t.results, cutoff) {
      StandsBefore(t, cutoff, i, q);
    }
    SamePnl(before, t.results, p.decisionAt, cutoff);
    DecidedPrefix(t, cutoff, i);
    assert Rederivable(t, p, c);
    DecidedWithinPercent(t, p, c);
  }

  // One pick decided on a balance at or above the floor leaves one there.
  lemma PickKeepsFloor(p: Pick, balance: int, floor: int, results: seq<Observation>, cutoff: int)
    requires p.odds > 1.0 && 0 <= p.plan.stake && 100 * p.plan.stake <= balance + 50 && floor <= 49 && floor <= balance
    ensures balance + KnownPnl(p, results, cutoff) >= floor
  {
    LossWithinStake(p, balance, results, cutoff);
    ProfitNotNegative(p.plan.stake, p.odds);
  }

  function PlayFloor(starting: int): int {
    if starting < 49 then starting else 49
  }

  lemma NextBalance(picks: seq<Pick>, i: nat, results: seq<Observation>, cutoff: int, starting: int, floor: int)
    requires i < |picks| && picks[i].odds > 1.0 && 0 <= picks[i].plan.stake && floor <= 49
    requires floor <= starting + SumPnl(picks[..i], results, cutoff)
    requires 100 * picks[i].plan.stake <= starting + SumPnl(picks[..i], results, cutoff) + 50
    ensures starting + SumPnl(picks[..i + 1], results, cutoff) >= floor
  {
    assert picks[..i + 1][..i] == picks[..i];
    PickKeepsFloor(picks[i], starting + SumPnl(picks[..i], results, cutoff), floor, results, cutoff);
  }

  lemma BalanceKeepsFloor(t: Tables, cutoff: int, i: nat, c: Config)
    requires Sound(t, c) && c.cap <= 0.01 && Sequential(t, cutoff) && i < |Decided(t, cutoff)|
    requires c.starting + SumPnl(Decided(t, cutoff)[..i], t.results, cutoff) >= PlayFloor(c.starting)
    ensures c.starting + SumPnl(Decided(t, cutoff)[..i + 1], t.results, cutoff) >= PlayFloor(c.starting)
  {
    DecidedOnBalance(t, cutoff, i, c);
    NextBalance(Decided(t, cutoff), i, t.results, cutoff, c.starting, PlayFloor(c.starting));
  }

  lemma {:induction false} PlayKeepsFloor(t: Tables, cutoff: int, i: nat, c: Config)
    requires Sound(t, c) && c.cap <= 0.01 && Sequential(t, cutoff) && i <= |Decided(t, cutoff)|
    ensures c.starting + SumPnl(Decided(t, cutoff)[..i], t.results, cutoff) >= PlayFloor(c.starting)
  {
    if i > 0 {
      PlayKeepsFloor(t, cutoff, i - 1, c);
      BalanceKeepsFloor(t, cutoff, i - 1, c);
    }
  }

  // Under the one percent cap a portfolio decided one pick after the other, on results that are
  // known in time, never falls below 49 minor units, or below its start if that is less: the floor
  // of one unit never acts.
  lemma SequentialPlayNeverRuins(t: Tables, cutoff: int, c: Config)
    requires Sound(t, c) && c.cap <= 0.01 && Sequential(t, cutoff)
    ensures var bankroll := BankrollAt(t.picks, t.results, c.starting, cutoff);
            && bankroll >= PlayFloor(c.starting)
            && bankroll == c.starting + SumPnl(Decided(t, cutoff), t.results, cutoff)
  {
    var decided := Decided(t, cutoff);
    PlayKeepsFloor(t, cutoff, |decided|, c);
    assert decided[..|decided|] == decided;
  }

  // ----- losses decided together -----

  // n stakes, one after the other.
  function Lost(n: nat, stake: int): int {
    if n == 0 then 0 else Lost(n - 1, stake) + stake
  }

  // What n lost stakes leave of a hundred.
  function Left(n: nat, stake: int): int {
    if 100 * stake < Lost(n, stake) + 1 then 1 else 100 * stake - Lost(n, stake)
  }

  lemma {:induction false} LostProduct(n: nat, stake: int)
    ensures Lost(n, stake) == n * stake
  {
    if n > 0 {
      LostProduct(n - 1, stake);
      OneMoreLoss(n - 1, stake);
    }
  }

  lemma LeftExactly(n: nat, stake: int)
    requires stake > 0
    ensures Left(n, stake) == if n < 100 then (100 - n) * stake else 1
  {
    LostProduct(n, stake);
    LossBalance(n, stake);
  }

  lemma {:induction false} SumOfLosses(picks: seq<Pick>, results: seq<Observation>, cutoff: int, stake: int)
    requires forall p | p in picks :: KnownPnl(p, results, cutoff) == -stake
    ensures SumPnl(picks, results, cutoff) == -Lost(|picks|, stake)
  {
    if picks != [] {
      var front := picks[..|picks| - 1];
      assert forall p | p in front :: p in picks;
      SumOfLosses(front, results, cutoff, stake);
    }
  }

  lemma {:induction false} AllBefore(picks: seq<Pick>, cutoff: int)
    requires forall p | p in picks :: p.decisionAt < cutoff
    ensures PicksBefore(picks, cutoff) == picks
  {
    if picks != [] {
      var front, last := picks[..|picks| - 1], picks[|picks| - 1];
      assert picks == front + [last] && last in picks;
      forall p | p in front ensures p.decisionAt < cutoff {
        assert p in picks;
      }
      AllBefore(front, cutoff);
    }
  }

  // Picks that all staked one percent of the same bankroll and all lost.
  lemma LosingFamily(picks: seq<Pick>, results: seq<Observation>, cutoff: int, stake: int)
    requires stake > 0
    requires forall p | p in picks :: p.decisionAt < cutoff && p.bankrollBefore == 100 * stake && p.plan.stake == stake
                                      && KnownPnl(p, results, cutoff) == -stake
    ensures BankrollAt(picks, results, 100 * stake, cutoff) == Left(|picks|, stake)
  {
    AllBefore(picks, cutoff);
    var sorted := Sort(picks, DecidedEarlier);
    SortPermutes(picks, DecidedEarlier);
    forall p | p in sorted ensures KnownPnl(p, results, cutoff) == -stake {
      assert p in Elements(sorted);
    }
    SumOfLosses(sorted, results, cutoff, stake);
  }

  lemma LossBalance(n: nat, stake: int)
    requires stake > 0
    ensures 100 * stake - n * stake == (100 - n) * stake
    ensures n < 100 <==> (100 - n) * stake >= 1
  {
    ProductSign(100 - n, stake);
  }

  lemma {:induction false} ProductSign(k: int, s: int)
    requires s > 0
    ensures k > 0 <==> k * s > 0
    decreases if k < 0 then -k else k
  {
    if k > 0 {
      assert k * s == (k - 1) * s + s;
      ProductSign(k - 1, s);
    } else if k < 0 {
      assert k * s == (k + 1) * s - s;
      ProductSign(k + 1, s);
    }
  }

  lemma OneMoreLoss(n: nat, stake: int)
    ensures (n + 1) * stake == n * stake + stake
  {
  }

  // ----- a run for every number of concurrent losses -----

  function Percent(stake: int): (c: Config)
    requires stake > 0
  {
    ConfigRow(0, 100 * stake, 0.25, 0.01, 100)
  }

  function Bettor(i: nat, at: int): Signal {
    SignalRow(i, i, at, Btts, Yes, 2.0, 0.9, 0.1)
  }

  function Bettors(n: nat): seq<Signal> {
    if n == 0 then [] else Bettors(n - 1) + [Bettor(n - 1, 0)]
  }

  function Defeat(i: nat): Observation {
    Observation(i, i, 1, FixtureResult(PlayedSettleable, Some(Goals(0, 0))))
  }

  function Defeats(n: nat): seq<Observation> {
    if n == 0 then [] else Defeats(n - 1) + [Defeat(n - 1)]
  }

  function Blocks(n: nat): seq<Step> {
    if n == 0 then [] else Blocks(n - 1) + [Block(Bettor(n - 1, 0))]
  }

  function Observes(n: nat): seq<Step> {
    if n == 0 then [] else Observes(n - 1) + [Observe(Defeat(n - 1))]
  }

  // n signals at once, one sync, n lost results, and one more signal.
  function Together(n: nat): seq<Step> {
    Blocks(n) + [Synchronize] + Observes(n) + [Block(Bettor(n, 2))]
  }

  lemma RunMore(t: Tables, first: seq<Step>, last: Step, c: Config)
    ensures Run(t, first + [last], c) == Next(Run(t, first, c), last, c)
    ensures AllInOrder(t, first, c) && InOrder(Run(t, first, c), last) ==> AllInOrder(t, first + [last], c)
  {
    RunAppend(t, first, [last], c);
    RunOne(Run(t, first, c), last, c);
  }

  lemma {:induction false} BettorAt(n: nat)
    ensures |Bettors(n)| == n && forall i | 0 <= i < n :: Bettors(n)[i] == Bettor(i, 0)
  {
    if n > 0 {
      BettorAt(n - 1);
    }
  }

  lemma BettorsExact(n: nat)
    ensures |Bettors(n)| == n && Keyed(Bettors(n))
    ensures forall s :: s in Bettors(n) ==> s.id == s.fixture < n && s == Bettor(s.id, 0)
    ensures forall i: nat | i < n :: Bettor(i, 0) in Bettors(n)
  {
    BettorAt(n);
    forall i: nat | i < n ensures Bettor(i, 0) in Bettors(n) {
      assert Bettors(n)[i] == Bettor(i, 0);
    }
  }

  lemma NextBettor(t: Tables, n: nat, at: int)
    requires t.signals == Bettors(n)
    ensures RowOf(t.signals, n).None?
    ensures WithBlock(t, Bettor(n, at)) == t.(signals := Bettors(n) + [Bettor(n, at)])
    ensures NoDecisionAfter(t.picks, at) ==> InOrder(t, Block(Bettor(n, at)))
  {
    BettorsExact(n);
    RowOfExact(t.signals, n);
  }

  lemma OneMoreBlock(start: Tables, steps: seq<Step>, n: nat, c: Config)
    requires Run(start, steps, c) == Tables(Bettors(n), [], {}, []) && AllInOrder(start, steps, c)
    ensures var all := steps + [Block(Bettor(n, 0))];
            Run(start, all, c) == Tables(Bettors(n) + [Bettor(n, 0)], [], {}, []) && AllInOrder(start, all, c)
  {
    NextBettor(Run(start, steps, c), n, 0);
    RunMore(start, steps, Block(Bettor(n, 0)), c);
  }

  lemma {:induction false} BlocksRun(start: Tables, n: nat, c: Config)
    requires start == Tables([], [], {}, [])
    ensures Run(start, Blocks(n), c) == Tables(Bettors(n), [], {}, []) && AllInOrder(start, Blocks(n), c)
  {
    if n > 0 {
      BlocksRun(start, n - 1, c);
      OneMoreBlock(start, Blocks(n - 1), n - 1, c);
    }
  }

  lemma {:induction false} NoPrior(signals: seq<Signal>, results: seq<Observation>, blocked: set<nat>, cutoff: int)
    requires forall s | s in signals :: s.qualifiedAt >= cutoff
    ensures PriorRows(signals, results, blocked, cutoff) == []
  {
    if signals != [] {
      assert signals == signals[..|signals| - 1] + [signals[|signals| - 1]];
      NoPrior(signals[..|signals| - 1], results, blocked, cutoff);
    }
  }

  lemma {:induction false} NoneBefore(picks: seq<Pick>, cutoff: int)
    requires forall p | p in picks :: p.decisionAt >= cutoff
    ensures PicksBefore(picks, cutoff) == []
  {
    if picks != [] {
      assert picks == picks[..|picks| - 1] + [picks[|picks| - 1]];
      NoneBefore(picks[..|picks| - 1], cutoff);
    }
  }

  lemma {:induction false} AllUnpicked(signals: seq<Signal>, startedAt: int)
    requires forall s | s in signals :: s.qualifiedAt >= startedAt
    ensures Unpicked(signals, [], startedAt) == signals
  {
    if signals != [] {
      assert signals == signals[..|signals| - 1] + [signals[|signals| - 1]];
      AllUnpicked(signals[..|signals| - 1], startedAt);
    }
  }

  lemma {:induction false} AllCounted(t: Tables, candidates: seq<Signal>)
    requires forall s | s in candidates :: InScope(t, s)
    ensures CountOutOfScope(t, candidates) == 0
  {
    if candidates != [] {
      assert candidates == candidates[..|candidates| - 1] + [candidates[|candidates| - 1]];
      AllCounted(t, candidates[..|candidates| - 1]);
    }
  }

  lemma PercentOf(stake: int)
    requires stake > 0
    ensures RoundHalfUp((100 * stake) as real * 0.01) == stake
  {
    assert (100 * stake) as real * 0.01 == stake as real;
  }

  lemma PercentPlan(stake: int)
    requires stake > 0
    ensures var plan := StakePlan(100 * stake, 2.0, 0.9, 0.25, 0.01);
            plan.Ok? && plan.value.stake == stake
  {
    PercentOf(stake);
    assert RawKelly(2.0, 0.9) == Ok(0.8);
  }

  // Each of the n picks staked one percent of the full bankroll.
  ghost predicate AllIn(picks: seq<Pick>, n: nat, stake: int) {
    && |picks| == n
    && forall p | p in picks :: p.decisionAt == 0 && p.fixture < n && p.market == Btts && p.selection == Yes
                                && p.bankrollBefore == 100 * stake && p.plan.stake == stake
  }

  lemma PercentFreeze(e: Signal, stake: int)
    requires stake > 0 && e.odds == 2.0 && e.modelProbability == 0.9
    ensures FreezeOn(e, [], 100 * stake, Percent(stake)).plan.stake == stake
  {
    CalibrationUsable(e, [], 100);
    PercentPlan(stake);
  }

  // Nothing is known and nothing is won or lost when the n signals are decided.
  lemma FirstView(t: Tables, n: nat, starting: int)
    requires starting > 0 && t.signals == Bettors(n) && forall q | q in t.picks :: q.decisionAt == 0
    ensures PriorRows(t.signals, t.results, t.blocked, 0) == [] && BankrollAt(t.picks, t.results, starting, 0) == starting
  {
    BettorsExact(n);
    NoPrior(t.signals, t.results, t.blocked, 0);
    NoneBefore(t.picks, 0);
    var none: seq<Pick> := [];
    assert Sort(none, DecidedEarlier) == [] && SumPnl(none, t.results, 0) == 0;
  }

  // The first sync of signals that are all eligible picks every one of them.
  lemma EveryonePicked(t: Tables, c: Config)
    requires t.picks == [] && forall s | s in t.signals :: Eligible(t, s, c)
    ensures |Sync(t, c).picks| == |t.signals|
  {
    var candidates := Candidates(t, c);
    AllUnpicked(t.signals, c.startedAt);
    SortPermutes(t.signals, QualifiedEarlier);
    forall s | s in candidates ensures InScope(t, s) {
      assert s in Elements(candidates);
    }
    AllCounted(t, candidates);
    SyncKeepsSources(t, candidates, c);
  }

  lemma BettorPicks(u: Tables, n: nat, stake: int)
    requires stake > 0 && u.signals == Bettors(n) && u.results == [] && |u.picks| == n
    requires forall p | p in u.picks :: Rederivable(u, p, Percent(stake))
    ensures AllIn(u.picks, n, stake)
  {
    BettorsExact(n);
    forall p | p in u.picks ensures p.decisionAt == 0 {
      assert Rederivable(u, p, Percent(stake));
    }
    FirstView(u, n, 100 * stake);
    forall p | p in u.picks
      ensures p.fixture < n && p.market == Btts && p.selection == Yes && p.bankrollBefore == 100 * stake && p.plan.stake == stake
    {
      assert Rederivable(u, p, Percent(stake));
      var e :| Refreezes(u, p, e, Percent(stake));
      PercentFreeze(e, stake);
    }
  }

  lemma BareSound(t: Tables, n: nat, c: Config)
    requires t == Tables(Bettors(n), [], {}, []) && c.startedAt == 0
    ensures Sound(t, c) && forall s | s in Bettors(n) :: Eligible(t, s, c)
  {
    BettorsExact(n);
  }

  lemma ConcurrentPicks(t: Tables, n: nat, stake: int)
    requires stake > 0 && t == Tables(Bettors(n), [], {}, [])
    ensures var u := Sync(t, Percent(stake));
            && Sound(u, Percent(stake)) && AllIn(u.picks, n, stake)
            && u == Tables(Bettors(n), [], {}, u.picks)
            && forall s | s in Bettors(n) :: Picked(u.picks, s.id)
  {
    var c := Percent(stake);
    var u := Sync(t, c);
    BareSound(t, n, c);
    SyncSound(t, c);
    SyncKeepsSources(t, Candidates(t, c), c);
    BettorsExact(n);
    EveryonePicked(t, c);
    forall p | p in u.picks ensures Rederivable(u, p, c) {
      assert Rederivable(u, p, c);
    }
    BettorPicks(u, n, stake);
    forall s | s in Bettors(n) ensures Picked(u.picks, s.id) {
      assert Eligible(t, s, c);
    }
  }

  lemma {:induction false} DefeatAt(n: nat)
    ensures |Defeats(n)| == n && forall i | 0 <= i < n :: Defeats(n)[i] == Defeat(i)
  {
    if n > 0 {
      DefeatAt(n - 1);
    }
  }

  lemma LatestNext(results: seq<Observation>, o: Observation, fixture: nat)
    requires o.acquiredAt < 2 && Settles(o) && (o.fixture == fixture ==> Latest(results, fixture, 2).None?)
    ensures Latest(results + [o], fixture, 2) == if o.fixture == fixture then Some(o) else Latest(results, fixture, 2)
  {
    assert (results + [o])[..|results|] == results;
  }

  lemma {:induction false} LatestDefeat(n: nat, fixture: nat)
    ensures Latest(Defeats(n), fixture, 2) == if fixture < n then Some(Defeat(fixture)) else None
  {
    if n > 0 {
      LatestDefeat(n - 1, fixture);
      DefeatAt(n);
      DefeatAt(n - 1);
      LatestNext(Defeats(n - 1), Defeat(n - 1), fixture);
    }
  }

  lemma {:induction false} ObservesRun(t: Tables, n: nat, c: Config)
    requires t.results == [] && forall p | p in t.picks :: p.decisionAt == 0
    ensures Run(t, Observes(n), c) == t.(results := Defeats(n)) && AllInOrder(t, Observes(n), c)
  {
    if n > 0 {
      ObservesRun(t, n - 1, c);
      OneMoreObserve(t, Observes(n - 1), n - 1, c);
    }
  }

  lemma OneMoreObserve(t: Tables, steps: seq<Step>, n: nat, c: Config)
    requires Run(t, steps, c) == t.(results := Defeats(n)) && AllInOrder(t, steps, c)
    requires forall p | p in t.picks :: p.decisionAt == 0
    ensures var all := steps + [Observe(Defeat(n))];
            Run(t, all, c) == t.(results := Defeats(n) + [Defeat(n)]) && AllInOrder(t, all, c)
  {
    DefeatAt(n);
    RunMore(t, steps, Observe(Defeat(n)), c);
  }

  lemma AllLost(picks: seq<Pick>, n: nat, stake: int)
    requires stake > 0 && AllIn(picks, n, stake)
    ensures BankrollAt(picks, Defeats(n), 100 * stake, 2) == Left(n, stake)
  {
    forall p | p in picks ensures KnownPnl(p, Defeats(n), 2) == -stake {
      LatestDefeat(n, p.fixture);
    }
    LosingFamily(picks, Defeats(n), 2, stake);
  }

  lemma {:induction false} LaterPicksUnseen(picks: seq<Pick>, more: seq<Pick>, cutoff: int)
    requires forall p | p in more :: p.decisionAt >= cutoff
    ensures PicksBefore(picks + more, cutoff) == PicksBefore(picks, cutoff)
  {
    if more == [] {
      assert picks + more == picks;
    } else {
      var k := |more| - 1;
      assert (picks + more)[..|picks| + k] == picks + more[..k] && (picks + more)[|picks| + k] == more[k];
      assert forall p | p in more[..k] :: p in more;
      LaterPicksUnseen(picks, more[..k], cutoff);
    }
  }

  // The sync of one more signal freezes it on the view of the picks before it.
  lemma OneMorePick(t: Tables, s: Signal, c: Config)
    requires Sound(t, c) && Eligible(t, s, c) && !Picked(t.picks, s.id)
    requires forall e | e in t.signals && e != s :: Picked(t.picks, e.id)
    ensures exists p | p in Sync(t, c).picks ::
              p.signalId == s.id && p.bankrollBefore == BankrollAt(t.picks, t.results, c.starting, s.qualifiedAt)
  {
    var u := Sync(t, c);
    SyncSound(t, c);
    SyncKeepsSources(t, Candidates(t, c), c);
    NewPicksUnseen(t, u, s, c);
    assert Picked(u.picks, s.id);
    var p :| p in u.picks && p.signalId == s.id;
    assert Rederivable(u, p, c);
    var e :| Refreezes(u, p, e, c);
    SameId(t.signals, e, s);
  }

  lemma NewPicksUnseen(t: Tables, u: Tables, s: Signal, c: Config)
    requires Sound(u, c) && t.picks <= u.picks && u.signals == t.signals
    requires forall e | e in t.signals && e != s :: Picked(t.picks, e.id)
    ensures PicksBefore(u.picks, s.qualifiedAt) == PicksBefore(t.picks, s.qualifiedAt)
  {
    var more := u.picks[|t.picks|..];
    assert u.picks == t.picks + more;
    forall x | x in more ensures x.decisionAt >= s.qualifiedAt {
      NewIdIsFresh(t.picks, more, x);
      assert x in u.picks && Rederivable(u, x, c);
      var e :| Refreezes(u, x, e, c);
      assert e in t.signals && e == s;
    }
    LaterPicksUnseen(t.picks, more, s.qualifiedAt);
  }

  lemma NewIdIsFresh(picks: seq<Pick>, more: seq<Pick>, x: Pick)
    requires KeyedPicks(picks + more) && x in more
    ensures !Picked(picks, x.signalId)
  {
    var j :| 0 <= j < |more| && more[j] == x;
    forall y | y in picks ensures y.signalId != x.signalId {
      var i :| 0 <= i < |picks| && picks[i] == y;
      assert (picks + more)[i] == y && (picks + more)[|picks| + j] == x;
    }
  }

  lemma LastBettorOpen(t: Tables, u: Tables, n: nat, s: Signal, c: Config)
    requires Sound(t, c) && t.signals == Bettors(n) && t.blocked == {} && s == Bettor(n, 2) && c.startedAt == 0
    requires (forall p | p in t.picks :: p.decisionAt == 0) && (forall e | e in Bettors(n) :: Picked(t.picks, e.id))
    requires u == WithBlock(t, s)
    ensures u == t.(signals := Bettors(n) + [s]) && Sound(u, c) && Eligible(u, s, c) && !Picked(u.picks, s.id)
    ensures forall e | e in u.signals && e != s :: Picked(u.picks, e.id)
  {
    NextBettor(t, n, 2);
    NextSound(t, Block(s), c);
    NotPickedYet(t, n, c);
  }

  lemma NotPickedYet(t: Tables, n: nat, c: Config)
    requires Sound(t, c) && t.signals == Bettors(n)
    ensures !Picked(t.picks, n)
  {
    BettorsExact(n);
    forall p | p in t.picks ensures p.signalId != n {
      assert Rederivable(t, p, c);
      var e :| Refreezes(t, p, e, c);
    }
  }

  lemma LastBettor(t: Tables, n: nat, stake: int)
    requires stake > 0 && Sound(t, Percent(stake)) && t.signals == Bettors(n) && t.results == Defeats(n) && t.blocked == {}
    requires AllIn(t.picks, n, stake) && forall s | s in Bettors(n) :: Picked(t.picks, s.id)
    ensures var u := WithBlock(t, Bettor(n, 2));
            exists p | p in Sync(u, Percent(stake)).picks :: p.signalId == n && p.bankrollBefore == Left(n, stake)
  {
    var c, s := Percent(stake), Bettor(n, 2);
    var u := WithBlock(t, s);
    LastBettorOpen(t, u, n, s, c);
    OneMorePick(u, s, c);
    AllLost(t.picks, n, stake);
    assert BankrollAt(u.picks, u.results, c.starting, s.qualifiedAt) == Left(n, stake);
  }

  // For every number of concurrent losses there is a run in order, and the next decision of it
  // is frozen on what they leave: the full bankroll less one percent for each, or the floor of
  // one unit from a hundred of them on.
  lemma ConcurrentLossesRun(n: nat, stake: int)
    requires stake > 0
    ensures var c := Percent(stake);
            && AllInOrder(EMPTY, Together(n), c)
            && exists p | p in Sync(Run(EMPTY, Together(n), c), c).picks ::
                 p.signalId == n && p.bankrollBefore == if n < 100 then (100 - n) * stake else 1
  {
    TogetherFrom(EMPTY, n, stake);
    LeftExactly(n, stake);
  }

  lemma TogetherFrom(start: Tables, n: nat, stake: int)
    requires stake > 0 && start == Tables([], [], {}, [])
    ensures var c := Percent(stake);
            && AllInOrder(start, Together(n), c)
            && exists p | p in Sync(Run(start, Together(n), c), c).picks :: p.signalId == n && p.bankrollBefore == Left(n, stake)
  {
    var c := Percent(stake);
    var blocked := Tables(Bettors(n), [], {}, []);
    var synced := Sync(blocked, c);
    var settled := synced.(results := Defeats(n));
    BlocksRun(start, n, c);
    RunMore(start, Blocks(n), Synchronize, c);
    ConcurrentPicks(blocked, n, stake);
    ObservesRun(synced, n, c);
    RunAppend(start, Blocks(n) + [Synchronize], Observes(n), c);
    RunSound(synced, Observes(n), c);
    NextBettor(settled, n, 2);
    RunMore(start, Blocks(n) + [Synchronize] + Observes(n), Block(Bettor(n, 2)), c);
    LastBettor(settled, n, stake);
  }
}
