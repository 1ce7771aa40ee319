/** Result classification, the three graders and minor-unit payouts. */
module Settlement {
  import opened Wrappers

  datatype Market = Ou25 | Btts
  datatype Selection = Over | Under | Yes | No
  datatype Outcome = Win | Loss | Void

  datatype Classification =
    | NonTerminal | PlayedSettleable | NonPlayedVoidable | InvalidTerminal | UnknownStatus

  datatype Goals = Goals(home: nat, away: nat)

  // A score pair is a pair of goals or a paired null.
  type ScorePair = Option<Goals>

  datatype FixtureResult = FixtureResult(classification: Classification, regulation: ScorePair)

  datatype SettlementError = NotSettleable | LacksRegulationGoals | UnsupportedMarketSelection
                           | StakeNotPositive | OddNotAboveOne | BigintOverflow

  const BIGINT_MAX: int := 0x7fff_ffff_ffff_ffff

  const VOIDABLE_STATUSES: set<string> := {"CANC", "ABD", "AWD", "WO"}
  const NON_TERMINAL_STATUSES: set<string> :=
    {"TBD", "NS", "1H", "HT", "2H", "ET", "BT", "P", "SUSP", "INT", "PST", "LIVE"}

  function Classify(status: string, goals: ScorePair, fulltime: ScorePair,
                    extratime: ScorePair, penalty: ScorePair): FixtureResult
  {
    var invalid := FixtureResult(InvalidTerminal, None);
    if status == "FT" then
      if fulltime == None || goals != fulltime then invalid
      else if extratime != None || penalty != None then invalid
      else FixtureResult(PlayedSettleable, fulltime)
    else if status == "AET" then
      if fulltime == None || extratime == None then invalid
      else if goals != extratime || penalty != None then invalid
      else FixtureResult(PlayedSettleable, fulltime)
    else if status == "PEN" then
      if fulltime == None || penalty == None then invalid
      else if goals != (if extratime != None then extratime else fulltime) then invalid
      else FixtureResult(PlayedSettleable, fulltime)
    else if status in VOIDABLE_STATUSES then FixtureResult(NonPlayedVoidable, None)
    else if status in NON_TERMINAL_STATUSES then FixtureResult(NonTerminal, None)
    else FixtureResult(UnknownStatus, None)
  }

  // A record is played when its final score is the one of its last phase and no later phase has a
  // score; it is voidable or still running by its status alone.
  lemma ClassifiedExactly(status: string, goals: ScorePair, fulltime: ScorePair, extratime: ScorePair, penalty: ScorePair)
    ensures var result := Classify(status, goals, fulltime, extratime, penalty);
            && (result.classification == PlayedSettleable <==>
                  fulltime.Some?
                  && ((status == "FT" && goals == fulltime && extratime.None? && penalty.None?)
                      || (status == "AET" && extratime.Some? && goals == extratime && penalty.None?)
                      || (status == "PEN" && penalty.Some? && goals == if extratime.Some? then extratime else fulltime)))
            && (result.classification == InvalidTerminal <==>
                  status in {"FT", "AET", "PEN"} && result.classification != PlayedSettleable)
            && (result.classification == NonPlayedVoidable <==> status in {"CANC", "ABD", "AWD", "WO"})
            && (result.classification == NonTerminal <==>
                  status in {"TBD", "NS", "1H", "HT", "2H", "ET", "BT", "P", "SUSP", "INT", "PST", "LIVE"})
            && result.regulation == if result.classification == PlayedSettleable then fulltime else None
  {
  }

  // How the production settlement grades a record.
  function SettleMarket(market: Market, selection: Selection, result: FixtureResult): Result<Outcome, SettlementError> {
    if result.classification == NonPlayedVoidable then Ok(Void)
    else if result.classification != PlayedSettleable then Err(NotSettleable)
    else if result.regulation == None then Err(LacksRegulationGoals)
    else
      var Goals(home, away) := result.regulation.value;
      if market == Ou25 && selection == Over then Ok(if home + away >= 3 then Win else Loss)
      else if market == Ou25 && selection == Under then Ok(if home + away <= 2 then Win else Loss)
      else if market == Btts && selection == Yes then Ok(if home >= 1 && away >= 1 then Win else Loss)
      else if market == Btts && selection == No then Ok(if home == 0 || away == 0 then Win else Loss)
      else Err(UnsupportedMarketSelection)
  }

  // How KellyLab grades a record; None is PENDING.
  function RowOutcome(market: Market, selection: Selection, result: FixtureResult): Option<Outcome> {
    if result.classification == NonPlayedVoidable then Some(Void)
    else if result.classification != PlayedSettleable then None
    else if result.regulation == None then None
    else
      var Goals(home, away) := result.regulation.value;
      match market
      case Ou25 =>
        var over := home + away > 2;
        var won := if selection == Over then over else !over;
        Some(if won then Win else Loss)
      case Btts =>
        var yes := home > 0 && away > 0;
        var won := if selection == Yes then yes else !yes;
        Some(if won then Win else Loss)
  }

  // How the research dashboard grades a record, with its two manual overrides.
  function CounterfactualOutcome(correction: Option<Outcome>, manualVoid: bool,
                                 market: Market, selection: Selection, result: FixtureResult): Option<Outcome>
  {
    if correction.Some? then correction
    else if manualVoid then Some(Void)
    else if result.classification == NonPlayedVoidable then Some(Void)
    else if result.classification != PlayedSettleable then None
    else if result.regulation == None then None
    else
      var Goals(home, away) := result.regulation.value;
      if market == Ou25 then
        var over := home + away > 2;
        Some(if (if selection == Over then over else !over) then Win else Loss)
      else
        var yes := home > 0 && away > 0;
        Some(if (if selection == Yes then yes else !yes) then Win else Loss)
  }

  ghost predicate Canonical(market: Market, selection: Selection) {
    match market
    case Ou25 => selection == Over || selection == Under
    case Btts => selection == Yes || selection == No
  }

  // What a selection says about a final score, against the real-valued line 2.5.
  ghost predicate SelectionHolds(selection: Selection, score: Goals) {
    match selection
    case Over => (score.home + score.away) as real > 2.5
    case Under => ((score.home + score.away) as real) < 2.5
    case Yes => score.home * score.away != 0
    case No => score.home * score.away == 0
  }

  lemma NoGoalProduct(home: nat, away: nat)
    ensures home * away == 0 <==> home == 0 || away == 0
  {
    if home != 0 && away != 0 {
      assert home * away >= home;
    }
  }

  // Production grades a normalized record by the regulation score alone, and grades
  // nothing but a played or voided record of a supported market and selection.
  lemma ProductionGradesRegulationScore(market: Market, selection: Selection, status: string, goals: ScorePair,
                                        fulltime: ScorePair, extratime: ScorePair, penalty: ScorePair)
    ensures
      var result := Classify(status, goals, fulltime, extratime, penalty);
      && (SettleMarket(market, selection, result) == Ok(Void) <==> status in VOIDABLE_STATUSES)
      && (SettleMarket(market, selection, result) == Ok(Win) <==>
           result.classification == PlayedSettleable && Canonical(market, selection) && SelectionHolds(selection, fulltime.value))
      && (SettleMarket(market, selection, result) == Ok(Loss) <==>
           result.classification == PlayedSettleable && Canonical(market, selection) && !SelectionHolds(selection, fulltime.value))
      && (result.classification == PlayedSettleable ==> status in {"FT", "AET", "PEN"} && fulltime.Some?)
  {
    if fulltime.Some? {
      NoGoalProduct(fulltime.value.home, fulltime.value.away);
    }
  }

  // The three graders agree on every normalized record exactly when the record is not
  // played or its market supports its selection; a grading error of production is PENDING elsewhere.
  lemma GradersAgreeExactly(market: Market, selection: Selection, status: string, goals: ScorePair,
                            fulltime: ScorePair, extratime: ScorePair, penalty: ScorePair)
    ensures
      var result := Classify(status, goals, fulltime, extratime, penalty);
      var production := SettleMarket(market, selection, result);
      var graded := if production.Ok? then Some(production.value) else None;
      && RowOutcome(market, selection, result) == CounterfactualOutcome(None, false, market, selection, result)
      && (RowOutcome(market, selection, result) == graded <==>
           result.classification != PlayedSettleable || Canonical(market, selection))
  {
    ProductionGradesRegulationScore(market, selection, status, goals, fulltime, extratime, penalty);
  }

  // ----- payouts -----

  // ROUND_HALF_UP to an integer: halves move away from zero.
  function RoundHalfUp(x: real): int {
    if x >= 0.0 then (x + 0.5).Floor else -((-x + 0.5).Floor)
  }

  lemma RoundHalfUpIsNearest(x: real)
    ensures var r := RoundHalfUp(x) as real; -0.5 <= r - x <= 0.5
    ensures x >= 0.0 ==> RoundHalfUp(x) >= 0 && RoundHalfUp(x) as real - x > -0.5
    ensures x <= 0.0 ==> RoundHalfUp(x) <= 0
  {
  }

  // The one integer within half a unit, the upper one for a half.
  lemma RoundHalfUpExactly(x: real, r: int)
    requires x >= 0.0
    ensures RoundHalfUp(x) == r <==> x - 0.5 < r as real <= x + 0.5
  {
  }

  lemma RoundHalfUpShift(x: real, n: nat)
    requires x >= 0.0
    ensures RoundHalfUp(x + n as real) == RoundHalfUp(x) + n
  {
    var y := x + 0.5;
    assert (y + n as real).Floor == y.Floor + n;
    assert x + n as real + 0.5 == y + n as real;
  }

  datatype Amounts = Amounts(outcome: Outcome, gross: int, pnl: int, delta: int)

  function SettlementAmounts(stake: int, odd: real, outcome: Outcome): Result<Amounts, SettlementError> {
    if stake <= 0 then Err(StakeNotPositive)
    else if odd <= 1.0 then Err(OddNotAboveOne)
    else
      var amounts := match outcome
        case Win => var gross := RoundHalfUp(stake as real * odd); Amounts(outcome, gross, gross - stake, gross)
        case Loss => Amounts(outcome, 0, -stake, 0)
        case Void => Amounts(outcome, stake, 0, stake);
      if InBigint(amounts.gross) && InBigint(amounts.pnl) && InBigint(amounts.delta) then Ok(amounts)
      else Err(BigintOverflow)
  }

  predicate InBigint(x: int) { -BIGINT_MAX - 1 <= x <= BIGINT_MAX }

  // pnl_minor of KellyLab and counterfactual_pnl_minor of research compute the same number.
  function PnlMinor(stake: int, odd: real, outcome: Option<Outcome>): Option<int> {
    match outcome
    case None => None
    case Some(Void) => Some(0)
    case Some(Loss) => Some(-stake)
    case Some(Win) => Some(RoundHalfUp(stake as real * (odd - 1.0)))
  }

  // Rounding the gross return and subtracting the stake gives the rounded profit, so
  // production books the profit that the two shadow portfolios report.
  lemma PayoutsAgree(stake: int, odd: real, outcome: Outcome)
    ensures
      var amounts := SettlementAmounts(stake, odd, outcome);
      amounts.Ok? ==>
        && PnlMinor(stake, odd, Some(outcome)) == Some(amounts.value.pnl)
        && amounts.value.gross == stake + amounts.value.pnl
        && amounts.value.delta == amounts.value.gross >= 0
        && (outcome == Win ==> amounts.value.pnl >= 0)
  {
    if stake > 0 && odd > 1.0 && outcome == Win {
      var profit := stake as real * (odd - 1.0);
      assert profit >= 0.0;
      assert stake as real * odd == profit + stake as real;
      RoundHalfUpShift(profit, stake);
    }
  }
}
