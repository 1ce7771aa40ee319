/** The KellyLab portfolio: append-only facts, point-in-time views and the syncing pass. */
module KellyPortfolio {
  import opened Wrappers
  import opened Settlement
  import opened Sorting
  import opened KellyLab

  datatype ConfigRow = ConfigRow(startedAt: int, starting: int, fraction: real, cap: real, priorN: int)

  type Config = c: ConfigRow | c.starting > 0 && 0.0 < c.fraction <= 1.0 && 0.0 < c.cap <= 1.0 && c.priorN > 0
    witness ConfigRow(0, 1, 0.25, 0.01, 100)

  datatype Observation = Observation(id: nat, fixture: nat, acquiredAt: int, result: FixtureResult)

  // A frozen sizing decision.
  datatype Pick = Pick(signalId: nat, fixture: nat, decisionAt: int, market: Market, selection: Selection, odds: real,
                       calibration: Calibration, bankrollBefore: int, plan: Plan)

  // blocked holds the fixtures whose latest metadata puts them out of scope.
  datatype Tables = Tables(signals: seq<Signal>, results: seq<Observation>, blocked: set<nat>, picks: seq<Pick>)

  // ----- point-in-time views -----

  predicate Settles(o: Observation) {
    o.result.classification == PlayedSettleable || o.result.classification == NonPlayedVoidable
  }

  predicate After(a: Observation, b: Observation) {
    a.acquiredAt > b.acquiredAt || (a.acquiredAt == b.acquiredAt && a.id > b.id)
  }

  // The latest settling result of a fixture that was acquired before the cutoff.
  function Latest(results: seq<Observation>, fixture: nat, cutoff: int): Option<Observation> {
    if results == [] then None
    else
      var earlier := Latest(results[..|results| - 1], fixture, cutoff);
      var o := results[|results| - 1];
      if Visible(o, fixture, cutoff) && (earlier.None? || After(o, earlier.value))
      then Some(o) else earlier
  }

  predicate Visible(o: Observation, fixture: nat, cutoff: int) {
    o.fixture == fixture && o.acquiredAt < cutoff && Settles(o)
  }

  // Nothing visible is later than the result a view uses, and a view without one saw nothing.
  lemma {:induction false} LatestIsGreatest(results: seq<Observation>, fixture: nat, cutoff: int)
    ensures var latest := Latest(results, fixture, cutoff);
            && (latest.None? ==> forall o | o in results :: !Visible(o, fixture, cutoff))
            && (latest.Some? ==> latest.value in results && Visible(latest.value, fixture, cutoff)
                                 && forall o | o in results && Visible(o, fixture, cutoff) :: !After(o, latest.value))
  {
    if results != [] {
      LatestIsGreatest(results[..|results| - 1], fixture, cutoff);
      assert results == results[..|results| - 1] + [results[|results| - 1]];
    }
  }

  predicate InScope(t: Tables, s: Signal) {
    s.fixture !in t.blocked && !Retired(s)
  }

  // The evidence one signal adds to a view: its result, if it was qualified, known and in scope.
  function PriorRow(s: Signal, results: seq<Observation>, blocked: set<nat>, cutoff: int): seq<Prior> {
    var latest := Latest(results, s.fixture, cutoff);
    if s.qualifiedAt < cutoff && latest.Some? && s.fixture !in blocked && !Retired(s)
    then [Prior(s, latest.value.result)] else []
  }

  function PriorRows(signals: seq<Signal>, results: seq<Observation>, blocked: set<nat>, cutoff: int): seq<Prior> {
    if signals == [] then []
    else
      PriorRows(signals[..|signals| - 1], results, blocked, cutoff)
      + PriorRow(signals[|signals| - 1], results, blocked, cutoff)
  }

  function PicksBefore(picks: seq<Pick>, cutoff: int): seq<Pick> {
    if picks == [] then []
    else
      var last := picks[|picks| - 1];
      PicksBefore(picks[..|picks| - 1], cutoff) + if last.decisionAt < cutoff then [last] else []
  }

  predicate DecidedEarlier(a: Pick, b: Pick) {
    a.decisionAt < b.decisionAt || (a.decisionAt == b.decisionAt && a.signalId < b.signalId)
  }

  // The profit or loss of a pick by the results known before the cutoff; unsettled counts zero.
  function KnownPnl(p: Pick, results: seq<Observation>, cutoff: int): int {
    var latest := Latest(results, p.fixture, cutoff);
    if latest.None? then 0
    else
      var pnl := PnlMinor(p.plan.stake, p.odds, RowOutcome(p.market, p.selection, latest.value.result));
      if pnl.None? then 0 else pnl.value
  }

  function SumPnl(picks: seq<Pick>, results: seq<Observation>, cutoff: int): int {
    if picks == [] then 0
    else SumPnl(picks[..|picks| - 1], results, cutoff) + KnownPnl(picks[|picks| - 1], results, cutoff)
  }

  function BankrollAt(picks: seq<Pick>, results: seq<Observation>, starting: int, cutoff: int): int {
    var balance := starting + SumPnl(Sort(PicksBefore(picks, cutoff), DecidedEarlier), results, cutoff);
    if balance < 1 then 1 else balance
  }

  // ----- freezing and syncing -----

  function Freeze(t: Tables, s: Signal, c: Config): Pick {
    FreezeOn(s, PriorRows(t.signals, t.results, t.blocked, s.qualifiedAt),
             BankrollAt(t.picks, t.results, c.starting, s.qualifiedAt), c)
  }

  function FreezeOn(s: Signal, prior: seq<Prior>, bankroll: int, c: Config): Pick {
    var calibration := Calibrate(s, prior, c.priorN);
    var plan := StakePlan(bankroll, s.odds, calibration.probability, c.fraction, c.cap);
    Pick(s.id, s.fixture, s.qualifiedAt, s.market, s.selection, s.odds, calibration, bankroll,
         if plan.Ok? then plan.value else Plan(0.0, 0.0, 0.0, 0))
  }

  // The plan of the pick is defined, and its stake respects the bankroll it was planned on and,
  // within half a unit, the cap.
  ghost predicate Sized(p: Pick, s: Signal, c: Config) {
    && StakePlan(p.bankrollBefore, s.odds, p.calibration.probability, c.fraction, c.cap) == Ok(p.plan)
    && 0 <= p.plan.stake <= p.bankrollBefore
    && p.plan.stake as real <= p.bankrollBefore as real * c.cap + 0.5
  }

  lemma FreezeOnSized(s: Signal, prior: seq<Prior>, bankroll: int, c: Config)
    requires bankroll >= 1
    ensures Sized(FreezeOn(s, prior, bankroll, c), s, c)
  {
    CalibrationUsable(s, prior, c.priorN);
    StakeBounded(bankroll, s.odds, Calibrate(s, prior, c.priorN).probability, c.fraction, c.cap);
  }

  // The plan never raises inside a sync.
  lemma FreezeNeverRaises(t: Tables, s: Signal, c: Config)
    ensures Sized(Freeze(t, s, c), s, c)
  {
    var bankroll := BankrollAt(t.picks, t.results, c.starting, s.qualifiedAt);
    FreezeOnSized(s, PriorRows(t.signals, t.results, t.blocked, s.qualifiedAt), bankroll, c);
  }

  predicate Picked(picks: seq<Pick>, id: nat) {
    exists p | p in picks :: p.signalId == id
  }

  function Unpicked(signals: seq<Signal>, picks: seq<Pick>, startedAt: int): seq<Signal> {
    if signals == [] then []
    else
      var s := signals[|signals| - 1];
      Unpicked(signals[..|signals| - 1], picks, startedAt)
      + if s.qualifiedAt >= startedAt && !Picked(picks, s.id) then [s] else []
  }

  predicate QualifiedEarlier(a: Signal, b: Signal) {
    a.qualifiedAt < b.qualifiedAt || (a.qualifiedAt == b.qualifiedAt && a.id < b.id)
  }

  function Candidates(t: Tables, c: Config): seq<Signal> {
    Sort(Unpicked(t.signals, t.picks, c.startedAt), QualifiedEarlier)
  }

  // The picks after the loop has gone through some candidates.
  function SyncOver(t: Tables, candidates: seq<Signal>, c: Config): Tables {
    if candidates == [] then t
    else
      var s := candidates[|candidates| - 1];
      var before := SyncOver(t, candidates[..|candidates| - 1], c);
      if InScope(t, s) then before.(picks := before.picks + [Freeze(before, s, c)]) else before
  }

  function Sync(t: Tables, c: Config): Tables {
    SyncOver(t, Candidates(t, c), c)
  }

  // ----- runs -----

  datatype Step =
    | Block(signal: Signal)           // an exposure-blocked candidate of a fixture is recorded
    | Promote(signal: Signal)         // a production candidate takes over the fixture's signal
    | Observe(observation: Observation)
    | Describe(fixture: nat, blocked: bool)  // new fixture metadata
    | Synchronize

  function RowOf(signals: seq<Signal>, fixture: nat): Option<nat> {
    if signals == [] then None
    else if signals[|signals| - 1].fixture == fixture then Some(|signals| - 1)
    else RowOf(signals[..|signals| - 1], fixture)
  }

  lemma {:induction false} RowOfExact(signals: seq<Signal>, fixture: nat)
    ensures var i := RowOf(signals, fixture);
            && (i.Some? ==> i.value < |signals| && signals[i.value].fixture == fixture)
            && (i.None? <==> forall s | s in signals :: s.fixture != fixture)
  {
    if signals != [] {
      RowOfExact(signals[..|signals| - 1], fixture);
    }
  }

  // A repeated block keeps the earlier qualification time; a signal id in use elsewhere is refused.
  function WithBlock(t: Tables, s: Signal): Tables {
    RowOfExact(t.signals, s.fixture);
    var i := RowOf(t.signals, s.fixture);
    if i.Some? then
      var row := t.signals[i.value];
      if s.qualifiedAt < row.qualifiedAt then t.(signals := t.signals[i.value := row.(qualifiedAt := s.qualifiedAt)]) else t
    else if exists r | r in t.signals :: r.id == s.id then t
    else t.(signals := t.signals + [s])
  }

  // A promotion rewrites the row, unless a pick refers to the id it would change.
  function WithPromotion(t: Tables, s: Signal): Tables {
    RowOfExact(t.signals, s.fixture);
    var i := RowOf(t.signals, s.fixture);
    if i.Some? then
      var row := t.signals[i.value];
      if row.id != s.id && (Picked(t.picks, row.id) || exists r | r in t.signals :: r.id == s.id) then t
      else t.(signals := t.signals[i.value := s])
    else if exists r | r in t.signals :: r.id == s.id then t
    else t.(signals := t.signals + [s])
  }

  function WithObservation(t: Tables, o: Observation): Tables {
    if exists r | r in t.results :: r.id == o.id then t else t.(results := t.results + [o])
  }

  function WithDescription(t: Tables, fixture: nat, blocked: bool): Tables {
    t.(blocked := if blocked then t.blocked + {fixture} else t.blocked - {fixture})
  }

  function Next(t: Tables, s: Step, c: Config): Tables {
    match s
    case Block(signal) => WithBlock(t, signal)
    case Promote(signal) => WithPromotion(t, signal)
    case Observe(o) => WithObservation(t, o)
    case Describe(fixture, blocked) => WithDescription(t, fixture, blocked)
    case Synchronize => Sync(t, c)
  }

  function Run(t: Tables, steps: seq<Step>, c: Config): Tables
    decreases |steps|
  {
    if steps == [] then t else Run(Next(t, steps[0], c), steps[1..], c)
  }

  const EMPTY: Tables := Tables([], [], {}, [])
}
