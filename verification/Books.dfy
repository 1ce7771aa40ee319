/** The bankroll tables and the transactions that append to them.

    A transaction takes the account row lock before it reads, so each one is an atomic
    function from the tables to the new tables and its answer. */
module Books {
  import opened Wrappers
  import opened Settlement

  datatype OperatorState = Pending | Played | Skipped
  datatype EventKind = Normal | ManualVoid | Correction | Reversal
  datatype EntryKind =
    | InitialBankroll | StakeReserved | Payout | LossEntry | VoidRefund
    | SettlementAdjustment | SettlementReversal

  datatype Pick = Pick(id: string, fixture: string, market: Market, selection: Selection, stake: int, odd: real)

  // account_sequence is the position in the ledger.
  datatype Entry = Entry(kind: EntryKind, amount: int, balanceAfter: int, pick: Option<string>)

  // A settlement event is named by its position in the table; grading is NULL for a reversal.
  datatype Event = Event(pick: string, kind: EventKind, prior: Option<nat>, result: string,
                         grading: Option<Amounts>, delta: int, entry: nat)

  // tie orders the digests of two request ids; persistedAt is the start of the transaction.
  datatype Action = Action(pick: string, state: OperatorState, occurredAt: int, persistedAt: int,
                           tie: int, request: string)

  datatype Risk = DuplicateFixture | StakeExceedsPerPickLimit | InsufficientAvailableBankroll | MaxOpenExposureExceeded

  datatype Decision = Decision(evaluation: string, fingerprint: string, rejections: set<Risk>, pick: Option<Pick>)

  datatype Tables = Tables(picks: seq<Pick>, ledger: seq<Entry>, events: seq<Event>,
                           actions: seq<Action>, decisions: map<string, Decision>)

  const EMPTY: Tables := Tables([], [], [], [], map[])

  // ----- queries -----

  function FindPick(picks: seq<Pick>, id: string): Option<Pick> {
    if picks == [] then None
    else if picks[|picks| - 1].id == id then Some(picks[|picks| - 1])
    else FindPick(picks[..|picks| - 1], id)
  }

  function FindAction(actions: seq<Action>, request: string): Option<Action> {
    if actions == [] then None
    else if actions[|actions| - 1].request == request then Some(actions[|actions| - 1])
    else FindAction(actions[..|actions| - 1], request)
  }

  // An effective event has no successor.
  predicate Effective(events: seq<Event>, i: nat) {
    i < |events| && forall j | 0 <= j < |events| :: events[j].prior != Some(i)
  }

  predicate Resolved(events: seq<Event>, pick: string) {
    exists i | 0 <= i < |events| :: events[i].pick == pick && events[i].grading.Some? && Effective(events, i)
  }

  predicate Newer(a: Action, b: Action) {
    a.occurredAt > b.occurredAt
    || (a.occurredAt == b.occurredAt
        && (a.persistedAt > b.persistedAt || (a.persistedAt == b.persistedAt && a.tie > b.tie)))
  }

  function Latest(actions: seq<Action>, pick: string): Option<Action> {
    if actions == [] then None
    else
      var before := Latest(actions[..|actions| - 1], pick);
      var a := actions[|actions| - 1];
      if a.pick == pick && (before.None? || !Newer(before.value, a)) then Some(a) else before
  }

  function StateOf(actions: seq<Action>, pick: string): OperatorState {
    match Latest(actions, pick)
    case None => Pending
    case Some(a) => a.state
  }

  function Balance(t: Tables): int {
    if t.ledger == [] then 0 else t.ledger[|t.ledger| - 1].balanceAfter
  }

  function Initial(t: Tables): int {
    if t.ledger == [] then 0 else t.ledger[0].amount
  }

  // A pick counts towards risk while it is not SKIPPED and not resolved.
  function AtRisk(actions: seq<Action>, events: seq<Event>): string -> bool {
    (pick: string) => StateOf(actions, pick) != Skipped && !Resolved(events, pick)
  }

  // The reservations of the counted picks among the first n ledger rows.
  function ReservedUpTo(ledger: seq<Entry>, counted: string -> bool, n: nat): int
    requires n <= |ledger|
  {
    if n == 0 then 0
    else
      var row := ledger[n - 1];
      ReservedUpTo(ledger, counted, n - 1)
      + if row.kind == StakeReserved && row.pick.Some? && counted(row.pick.value) then -row.amount else 0
  }

  // effective_played_open_exposure
  function RiskExposure(t: Tables): int {
    ReservedUpTo(t.ledger, AtRisk(t.actions, t.events), |t.ledger|)
  }

  predicate UnresolvedReservation(t: Tables, pick: string) {
    exists k | 0 <= k < |t.ledger| ::
      t.ledger[k].pick == Some(pick) && t.ledger[k].kind == StakeReserved && !Resolved(t.events, pick)
  }

  function SumBy(picks: seq<Pick>, f: Pick -> int): int {
    if picks == [] then 0 else SumBy(picks[..|picks| - 1], f) + f(picks[|picks| - 1])
  }

  function EffectiveUpTo(events: seq<Event>, f: Event -> int, n: nat): int
    requires n <= |events|
  {
    if n == 0 then 0
    else EffectiveUpTo(events, f, n - 1) + if Effective(events, n - 1) then f(events[n - 1]) else 0
  }

  function EffectiveSum(events: seq<Event>, f: Event -> int): int {
    EffectiveUpTo(events, f, |events|)
  }

  function Gross(e: Event): int {
    if e.grading.Some? then e.grading.value.gross else 0
  }

  function Pnl(e: Event): int {
    if e.grading.Some? then e.grading.value.pnl else 0
  }

  function Stake(): Pick -> int {
    (p: Pick) => p.stake
  }

  function OpenStake(events: seq<Event>): Pick -> int {
    (p: Pick) => if Resolved(events, p.id) then 0 else p.stake
  }

  function PlayedStake(actions: seq<Action>): Pick -> int {
    (p: Pick) => if StateOf(actions, p.id) == Played then p.stake else 0
  }

  function PlayedOnly(actions: seq<Action>, f: Event -> int): Event -> int {
    (e: Event) => if StateOf(actions, e.pick) == Played then f(e) else 0
  }

  // open_exposure and realized_pnl of the system summary.
  function SummaryExposure(t: Tables): int {
    SumBy(t.picks, OpenStake(t.events))
  }

  function RealizedPnl(t: Tables): int {
    EffectiveSum(t.events, Pnl)
  }

  // _operator_available_bankroll: initial bankroll with the effective PLAYED picks applied.
  function OperatorAvailable(t: Tables): int {
    Initial(t) - SumBy(t.picks, PlayedStake(t.actions)) + EffectiveSum(t.events, PlayedOnly(t.actions, Gross))
  }

  // ----- transactions -----

  datatype BootstrapError = BootstrapConflict | InitialMustBePositive

  function Bootstrap(t: Tables, initial: int): (Tables, Result<int, BootstrapError>) {
    if initial <= 0 then (t, Err(InitialMustBePositive))
    else if t.ledger == [] then
      (t.(ledger := [Entry(InitialBankroll, initial, initial, None)]), Ok(initial))
    else if Initial(t) != initial then (t, Err(BootstrapConflict))
    else (t, Ok(initial))
  }

  datatype RegistrationPolicy = RegistrationPolicy(fixedStake: int, maxStake: int, cap: int, initial: int, fingerprint: string)

  datatype RegisterRequest = RegisterRequest(request: string, evaluation: string, fixture: string,
                                             market: Market, selection: Selection, odd: real, policy: RegistrationPolicy, autoSkip: bool,
                                             decidedAt: int, persistedAt: int, tie: int)

  datatype RegisterError = RequestReused | NotBootstrapped | FundingContradictsPolicy | StakeMustBePositive | UniqueViolation

  // Identifiers are digests; a distinguishing prefix keeps them injective.
  function PickId(request: string): string {
    "registered-pick-v1:" + request
  }

  function AutoSkipRequest(pick: string): string {
    "production-auto-skip-v1:" + pick
  }

  function EvaluateRisk(t: Tables, r: RegisterRequest, available: int): set<Risk> {
    (if exists p | p in t.picks :: p.fixture == r.fixture then {DuplicateFixture} else {})
    + (if r.policy.fixedStake > r.policy.maxStake then {StakeExceedsPerPickLimit} else {})
    + (if r.policy.fixedStake > available then {InsufficientAvailableBankroll} else {})
    + (if RiskExposure(t) + r.policy.fixedStake > r.policy.cap then {MaxOpenExposureExceeded} else {})
  }

  function AvailableFor(t: Tables, r: RegisterRequest): int {
    if r.autoSkip then OperatorAvailable(t) else Balance(t)
  }

  function Register(t: Tables, r: RegisterRequest): (Tables, Result<Decision, RegisterError>) {
    if r.request in t.decisions then
      var replay := t.decisions[r.request];
      if replay.evaluation != r.evaluation || replay.fingerprint != r.policy.fingerprint then (t, Err(RequestReused))
      else (t, Ok(replay))
    else if t.ledger == [] then (t, Err(NotBootstrapped))
    else if Initial(t) != r.policy.initial then (t, Err(FundingContradictsPolicy))
    else if r.policy.fixedStake <= 0 then (t, Err(StakeMustBePositive))
    else
      var available := AvailableFor(t, r);
      var risk := EvaluateRisk(t, r, available);
      if risk != {} then
        var rejected := Decision(r.evaluation, r.policy.fingerprint, risk, None);
        (t.(decisions := t.decisions[r.request := rejected]), Ok(rejected))
      else
        var pick := Pick(PickId(r.request), r.fixture, r.market, r.selection, r.policy.fixedStake, r.odd);
        var skip := Action(pick.id, Skipped, r.decidedAt, r.persistedAt, r.tie, AutoSkipRequest(pick.id));
        if r.autoSkip && FindAction(t.actions, skip.request).Some? then (t, Err(UniqueViolation))
        else
          var approved := Decision(r.evaluation, r.policy.fingerprint, {}, Some(pick));
          (t.(picks := t.picks + [pick],
              actions := if r.autoSkip then t.actions + [skip] else t.actions,
              ledger := t.ledger + [Entry(StakeReserved, -pick.stake, available - pick.stake, Some(pick.id))],
              decisions := t.decisions[r.request := approved]),
           Ok(approved))
  }

  datatype StateRequest = StateRequest(pick: string, state: OperatorState, request: string,
                                       occurredAt: int, persistedAt: int, tie: int, cap: Option<int>)

  datatype StateError = PendingIsDerived | BlankRequest | RequestConflict | UnknownPick | CapRequired | CapExceeded

  function SetState(t: Tables, r: StateRequest): (Tables, Result<Action, StateError>) {
    if r.state == Pending then (t, Err(PendingIsDerived))
    else if r.request == "" then (t, Err(BlankRequest))
    else
      var existing := FindAction(t.actions, r.request);
      if existing.Some? then
        if existing.value.pick != r.pick || existing.value.state != r.state then (t, Err(RequestConflict))
        else (t, Ok(existing.value))
      else
        var pick := FindPick(t.picks, r.pick);
        if pick.None? then (t, Err(UnknownPick))
        else
          var latest := Latest(t.actions, r.pick);
          var before := StateOf(t.actions, r.pick);
          var becomesLatest := latest.None? || r.occurredAt >= latest.value.occurredAt;
          var after := if becomesLatest then r.state else before;
          var checked := before == Skipped && after == Played && UnresolvedReservation(t, r.pick);
          if checked && (r.cap.None? || r.cap.value <= 0) then (t, Err(CapRequired))
          else if checked && RiskExposure(t) + pick.value.stake > r.cap.value then (t, Err(CapExceeded))
          else
            var action := Action(r.pick, r.state, r.occurredAt, r.persistedAt, r.tie, r.request);
            (t.(actions := t.actions + [action]), Ok(action))
  }

  datatype SettleError = NoSuchPick | ManuallyVoided | DifferentSettlement | ResultNotStable | ReservationMissing
                       | AlreadySettled | NotPostponed | NoSuchPrior | PriorHasSuccessor | Rejected(cause: SettlementError)

  // Append one settlement event together with its ledger row.
  function Post(t: Tables, e: Event, kind: EntryKind): Tables {
    t.(ledger := t.ledger + [Entry(kind, e.delta, Balance(t) + e.delta, Some(e.pick))],
       events := t.events + [e.(entry := |t.ledger|)])
  }

  predicate ExactReservation(t: Tables, pick: Pick) {
    exists k | 0 <= k < |t.ledger| ::
      t.ledger[k].pick == Some(pick.id) && t.ledger[k].kind == StakeReserved && t.ledger[k].amount == -pick.stake
  }

  // The NORMAL or MANUAL_VOID event of a pick, which a unique index keeps single.
  function InitialEvent(events: seq<Event>, pick: string): Option<nat> {
    if events == [] then None
    else
      var last := |events| - 1;
      if events[last].pick == pick && events[last].kind in {Normal, ManualVoid} then Some(last)
      else InitialEvent(events[..last], pick)
  }

  function EntryKindFor(outcome: Outcome): EntryKind {
    match outcome
    case Win => Payout
    case Loss => LossEntry
    case Void => VoidRefund
  }

  function Settle(t: Tables, id: string, result: string, stable: bool, record: FixtureResult)
    : (Tables, Result<nat, SettleError>)
  {
    var pick := FindPick(t.picks, id);
    if pick.None? then (t, Err(NoSuchPick))
    else
      var replay := InitialEvent(t.events, id);
      if replay.Some? then
        InitialEventInRange(t.events, id);
        if t.events[replay.value].kind == ManualVoid then (t, Err(ManuallyVoided))
        else if t.events[replay.value].result != result then (t, Err(DifferentSettlement))
        else (t, Ok(replay.value))
      else if !stable then (t, Err(ResultNotStable))
      else
        var graded := SettleMarket(pick.value.market, pick.value.selection, record);
        if graded.Err? then (t, Err(Rejected(graded.error)))
        else
          var amounts := SettlementAmounts(pick.value.stake, pick.value.odd, graded.value);
          if amounts.Err? then (t, Err(Rejected(amounts.error)))
          else if !ExactReservation(t, pick.value) then (t, Err(ReservationMissing))
          else
            var e := Event(id, Normal, None, result, Some(amounts.value), amounts.value.delta, 0);
            (Post(t, e, EntryKindFor(graded.value)), Ok(|t.events|))
  }

  // The manual refund of a postponed pick.
  function VoidPostponed(t: Tables, id: string, result: string, latestStatusIsPst: bool): (Tables, Result<nat, SettleError>) {
    var pick := FindPick(t.picks, id);
    if pick.None? then (t, Err(NoSuchPick))
    else if exists e | e in t.events :: e.pick == id then (t, Err(AlreadySettled))
    else if !latestStatusIsPst then (t, Err(NotPostponed))
    else if !ExactReservation(t, pick.value) then (t, Err(ReservationMissing))
    else
      var stake := pick.value.stake;
      var e := Event(id, ManualVoid, None, result, Some(Amounts(Void, stake, 0, stake)), stake, 0);
      (Post(t, e, VoidRefund), Ok(|t.events|))
  }

  // Successor events are admitted by the schema but written by no program of the repository.
  // The ledger row of a successor moves the balance from the prior gross return to the new one.
  function Correct(t: Tables, prior: nat, result: string, outcome: Outcome): (Tables, Result<nat, SettleError>) {
    if prior >= |t.events| then (t, Err(NoSuchPrior))
    else if !Effective(t.events, prior) then (t, Err(PriorHasSuccessor))
    else
      var id := t.events[prior].pick;
      var pick := FindPick(t.picks, id);
      if pick.None? then (t, Err(NoSuchPick))
      else
        var amounts := SettlementAmounts(pick.value.stake, pick.value.odd, outcome);
        if amounts.Err? then (t, Err(Rejected(amounts.error)))
        else
          var e := Event(id, Correction, Some(prior), result, Some(amounts.value),
                         amounts.value.gross - Gross(t.events[prior]), 0);
          (Post(t, e, SettlementAdjustment), Ok(|t.events|))
  }

  function Reverse(t: Tables, prior: nat, result: string): (Tables, Result<nat, SettleError>) {
    if prior >= |t.events| then (t, Err(NoSuchPrior))
    else if !Effective(t.events, prior) then (t, Err(PriorHasSuccessor))
    else
      var e := Event(t.events[prior].pick, Reversal, Some(prior), result, None, -Gross(t.events[prior]), 0);
      (Post(t, e, SettlementReversal), Ok(|t.events|))
  }

  lemma {:induction false} InitialEventInRange(events: seq<Event>, pick: string)
    ensures InitialEvent(events, pick).Some? ==>
              && InitialEvent(events, pick).value < |events|
              && events[InitialEvent(events, pick).value].pick == pick
              && events[InitialEvent(events, pick).value].kind in {Normal, ManualVoid}
    ensures InitialEvent(events, pick).None? ==>
              forall i | 0 <= i < |events| :: events[i].pick == pick ==> events[i].kind !in {Normal, ManualVoid}
  {
    if events != [] {
      InitialEventInRange(events[..|events| - 1], pick);
    }
  }

  // ----- runs -----

  datatype Command =
    | DoBootstrap(initial: int)
    | DoRegister(register: RegisterRequest)
    | DoSetState(request: StateRequest)
    | DoSettle(id: string, result: string, stable: bool, record: FixtureResult)
    | DoVoid(id: string, result: string, latestStatusIsPst: bool)
    | DoCorrect(prior: nat, result: string, outcome: Outcome)
    | DoReverse(prior: nat, result: string)

  function Apply(t: Tables, c: Command): Tables {
    match c
    case DoBootstrap(initial) => Bootstrap(t, initial).0
    case DoRegister(r) => Register(t, r).0
    case DoSetState(r) => SetState(t, r).0
    case DoSettle(id, result, stable, record) => Settle(t, id, result, stable, record).0
    case DoVoid(id, result, pst) => VoidPostponed(t, id, result, pst).0
    case DoCorrect(prior, result, outcome) => Correct(t, prior, result, outcome).0
    case DoReverse(prior, result) => Reverse(t, prior, result).0
  }

  function Run(t: Tables, commands: seq<Command>): Tables
    decreases |commands|
  {
    if commands == [] then t else Run(Apply(t, commands[0]), commands[1..])
  }
}
