/** What each transaction of the bankroll does to its tables, in field comparisons only. */
module BooksEffects {
  import opened Wrappers
  import opened Settlement
  import opened Books
  import opened BooksInvariants

  // ----- settlements -----

  // The grade of a record: a void for a record that was not played, otherwise what the selection
  // says about the regulation score.
  ghost predicate Grades(p: Pick, record: FixtureResult, outcome: Outcome) {
    if outcome == Void then record.classification == NonPlayedVoidable
    else
      && record.classification == PlayedSettleable && record.regulation.Some? && Canonical(p.market, p.selection)
      && (outcome == Win <==> SelectionHolds(p.selection, record.regulation.value))
  }

  // What a grade pays back: the stake at the odd, halves up, nothing, or the stake.
  ghost predicate PaysBack(p: Pick, outcome: Outcome, gross: int) {
    match outcome
    case Win => p.stake as real * p.odd - 0.5 < gross as real <= p.stake as real * p.odd + 0.5
    case Loss => gross == 0
    case Void => gross == p.stake
  }

  ghost predicate StoredAsBigint(x: int) {
    -0x8000_0000_0000_0000 <= x < 0x8000_0000_0000_0000
  }

  ghost predicate IsReserved(t: Tables, p: Pick) {
    exists k | 0 <= k < |t.ledger| ::
      t.ledger[k].kind == StakeReserved && t.ledger[k].pick == Some(p.id) && t.ledger[k].amount == -p.stake
  }

  ghost predicate Unsettled(t: Tables, id: string) {
    forall e | e in t.events && e.pick == id :: e.kind != Normal && e.kind != ManualVoid
  }

  ghost predicate Payable(t: Tables, p: Pick, record: FixtureResult, outcome: Outcome, gross: int) {
    && p in t.picks && Grades(p, record, outcome) && PaysBack(p, outcome, gross)
    && p.stake > 0 && p.odd > 1.0 && StoredAsBigint(gross) && StoredAsBigint(gross - p.stake) && IsReserved(t, p)
  }

  // A settlement is appended exactly when the pick is known and reserved, has no initial event,
  // and its stable result can be graded within the range of the amounts.
  ghost predicate Settles(t: Tables, id: string, stable: bool, record: FixtureResult) {
    && stable && Unsettled(t, id)
    && exists p, outcome, gross :: Payable(t, p, record, outcome, gross) && p.id == id
  }

  // One event and the ledger row that owns it; the balance moves by the payment.
  ghost predicate Appends(t: Tables, u: Tables, id: string, kind: EventKind, result: string, p: Pick, outcome: Outcome, gross: int) {
    && u.picks == t.picks && u.actions == t.actions && u.decisions == t.decisions
    && u.events == t.events + [Event(id, kind, None, result, Some(Amounts(outcome, gross, gross - p.stake, gross)), gross, |t.ledger|)]
    && t.ledger != [] && u.ledger == t.ledger
       + [Entry(match outcome case Win => Payout case Loss => LossEntry case Void => VoidRefund, gross,
                t.ledger[|t.ledger| - 1].balanceAfter + gross, Some(id))]
  }

  ghost predicate Settled(t: Tables, u: Tables, id: string, result: string, record: FixtureResult) {
    exists p, outcome, gross ::
      Payable(t, p, record, outcome, gross) && p.id == id && Appends(t, u, id, Normal, result, p, outcome, gross)
  }

  lemma OnePick(picks: seq<Pick>, p: Pick)
    requires DistinctPicks(picks) && p in picks
    ensures FindPick(picks, p.id) == Some(p)
  {
    FindPickFinds(picks, p.id);
    var found := FindPick(picks, p.id).value;
    var i :| 0 <= i < |picks| && picks[i] == p;
    var j :| 0 <= j < |picks| && picks[j] == found;
  }

  lemma GradeExactly(p: Pick, record: FixtureResult, outcome: Outcome)
    ensures Grades(p, record, outcome) <==> SettleMarket(p.market, p.selection, record) == Ok(outcome)
  {
    if record.regulation.Some? {
      NoGoalProduct(record.regulation.value.home, record.regulation.value.away);
    }
  }

  lemma AmountsExactly(p: Pick, outcome: Outcome, gross: int)
    requires p.stake > 0 && p.odd > 1.0 && PaysBack(p, outcome, gross)
    ensures var amounts := SettlementAmounts(p.stake, p.odd, outcome);
            && (amounts.Ok? <==> StoredAsBigint(gross) && StoredAsBigint(gross - p.stake))
            && (amounts.Ok? ==> amounts.value == Amounts(outcome, gross, gross - p.stake, gross))
  {
    if outcome == Win {
      WinRounded(p.stake as real * p.odd, p, gross);
    }
  }

  lemma Exceeds(stake: real, odd: real, x: real)
    requires stake > 0.0 && odd > 1.0 && x == stake * odd
    ensures x > stake
  {
    assert stake * (odd - 1.0) > 0.0;
    assert stake * odd == stake * (odd - 1.0) + stake;
  }

  lemma AboveWhole(n: int, m: int, x: real)
    requires x > m as real && x - 0.5 < n as real
    ensures n >= m
  {
    assert (n + 1) as real > m as real;
  }

  lemma WinRounded(x: real, p: Pick, gross: int)
    requires x == p.stake as real * p.odd && p.stake > 0 && p.odd > 1.0
    requires x - 0.5 < gross as real <= x + 0.5
    ensures gross == RoundHalfUp(x) && gross >= p.stake
  {
    Exceeds(p.stake as real, p.odd, x);
    RoundHalfUpExactly(x, gross);
    AboveWhole(gross, p.stake, x);
  }

  lemma SomePayment(p: Pick, outcome: Outcome) returns (gross: int)
    requires p.stake > 0 && p.odd > 1.0
    ensures PaysBack(p, outcome, gross)
  {
    var x := p.stake as real * p.odd;
    assert x >= 0.0;
    RoundHalfUpExactly(x, RoundHalfUp(x));
    gross := match outcome case Win => RoundHalfUp(x) case Loss => 0 case Void => p.stake;
  }

  lemma InitialEventIffSettled(t: Tables, id: string)
    ensures InitialEvent(t.events, id).None? <==> Unsettled(t, id)
  {
    InitialEventInRange(t.events, id);
    if InitialEvent(t.events, id).Some? {
      assert t.events[InitialEvent(t.events, id).value] in t.events;
    }
  }

  lemma SettleExactly(t: Tables, id: string, result: string, stable: bool, record: FixtureResult)
    requires DistinctPicks(t.picks)
    ensures var (u, answer) := Settle(t, id, result, stable, record);
            && (u != t <==> Settles(t, id, stable, record))
            && (u != t ==> Settled(t, u, id, result, record) && answer == Ok(|t.events|))
            && (u == t && answer.Ok? ==> answer.value < |t.events| && t.events[answer.value].pick == id
                                         && t.events[answer.value].kind == Normal && t.events[answer.value].result == result)
  {
    var (u, answer) := Settle(t, id, result, stable, record);
    FindPickFinds(t.picks, id);
    InitialEventInRange(t.events, id);
    InitialEventIffSettled(t, id);
    if u != t {
      SettleAppends(t, id, result, stable, record, FindPick(t.picks, id).value);
    }
    if Settles(t, id, stable, record) {
      var p, outcome, gross :| Payable(t, p, record, outcome, gross) && p.id == id;
      OnePick(t.picks, p);
      GradeExactly(p, record, outcome);
      AmountsExactly(p, outcome, gross);
      assert u.events != t.events;
    }
  }

  lemma SettleAppends(t: Tables, id: string, result: string, stable: bool, record: FixtureResult, p: Pick)
    requires p in t.picks && p.id == id && FindPick(t.picks, id) == Some(p)
    requires Settle(t, id, result, stable, record).0 != t
    ensures Settles(t, id, stable, record)
    ensures Settled(t, Settle(t, id, result, stable, record).0, id, result, record)
    ensures Settle(t, id, result, stable, record).1 == Ok(|t.events|)
  {
    var u := Settle(t, id, result, stable, record).0;
    var outcome := SettleMarket(p.market, p.selection, record).value;
    var gross := SomePayment(p, outcome);
    InitialEventInRange(t.events, id);
    InitialEventIffSettled(t, id);
    GradeExactly(p, record, outcome);
    AmountsExactly(p, outcome, gross);
    assert Payable(t, p, record, outcome, gross);
    assert Appends(t, u, id, Normal, result, p, outcome, gross);
  }

  // ----- manual voids -----

  ghost predicate Voids(t: Tables, id: string, latestStatusIsPst: bool) {
    && latestStatusIsPst && (forall e | e in t.events :: e.pick != id)
    && exists p | p in t.picks :: p.id == id && IsReserved(t, p)
  }

  // A void is appended exactly for a reserved pick without events whose fixture is postponed, and
  // gives its stake back.
  lemma VoidExactly(t: Tables, id: string, result: string, latestStatusIsPst: bool)
    requires DistinctPicks(t.picks)
    ensures var (u, answer) := VoidPostponed(t, id, result, latestStatusIsPst);
            && (u != t <==> Voids(t, id, latestStatusIsPst))
            && (answer.Ok? <==> u != t)
            && (u != t ==> answer == Ok(|t.events|)
                           && exists p | p in t.picks :: p.id == id && Appends(t, u, id, ManualVoid, result, p, Void, p.stake))
  {
    var (u, answer) := VoidPostponed(t, id, result, latestStatusIsPst);
    FindPickFinds(t.picks, id);
    if answer.Ok? {
      var p := FindPick(t.picks, id).value;
      assert IsReserved(t, p) && u.events != t.events;
      assert Appends(t, u, id, ManualVoid, result, p, Void, p.stake);
    }
    if Voids(t, id, latestStatusIsPst) {
      var p :| p in t.picks && p.id == id && IsReserved(t, p);
      OnePick(t.picks, p);
    }
  }

  // ----- registrations -----

  // A new request under a policy that matches the funded ledger.
  ghost predicate Considered(t: Tables, r: RegisterRequest) {
    && r.request !in t.decisions && t.ledger != [] && t.ledger[0].amount == r.policy.initial && r.policy.fixedStake > 0
  }

  // The risk rules: one pick for each fixture, the per-pick limit, the bankroll and the cap.
  ghost predicate Rejects(t: Tables, r: RegisterRequest, risk: Risk) {
    match risk
    case DuplicateFixture => exists p | p in t.picks :: p.fixture == r.fixture
    case StakeExceedsPerPickLimit => r.policy.fixedStake > r.policy.maxStake
    case InsufficientAvailableBankroll =>
      r.policy.fixedStake > if r.autoSkip then OperatorAvailable(t)
                            else if t.ledger == [] then 0 else t.ledger[|t.ledger| - 1].balanceAfter
    case MaxOpenExposureExceeded => RiskExposure(t) + r.policy.fixedStake > r.policy.cap
  }

  ghost predicate SkipRequestTaken(t: Tables, r: RegisterRequest) {
    r.autoSkip && exists a | a in t.actions :: a.request == AutoSkipRequest(PickId(r.request))
  }

  // What an approval adds: the pick, its reservation row, its automatic skip and its decision.
  ghost predicate Approved(t: Tables, u: Tables, r: RegisterRequest)
    requires t.ledger != []
  {
    var p := Pick(PickId(r.request), r.fixture, r.market, r.selection, r.policy.fixedStake, r.odd);
    var before := if r.autoSkip then OperatorAvailable(t) else t.ledger[|t.ledger| - 1].balanceAfter;
    && u.picks == t.picks + [p] && u.events == t.events
    && u.ledger == t.ledger + [Entry(StakeReserved, -p.stake, before - p.stake, Some(p.id))]
    && u.decisions == t.decisions[r.request := Decision(r.evaluation, r.policy.fingerprint, {}, Some(p))]
    && if r.autoSkip then u.actions == t.actions + [Action(p.id, Skipped, r.decidedAt, r.persistedAt, r.tie, AutoSkipRequest(p.id))]
       else u.actions == t.actions
  }

  lemma {:induction false} FindActionFinds(actions: seq<Action>, request: string)
    ensures match FindAction(actions, request)
            case None => forall a | a in actions :: a.request != request
            case Some(a) => a in actions && a.request == request
  {
    if actions != [] {
      FindActionFinds(actions[..|actions| - 1], request);
    }
  }

  // A considered request is rejected with exactly the rules it breaks, and approved exactly when
  // it breaks none; no other request changes the tables.
  lemma RegisterExactly(t: Tables, r: RegisterRequest)
    ensures var (u, answer) := Register(t, r);
            && (u != t <==> Considered(t, r) && ((exists risk :: Rejects(t, r, risk)) || !SkipRequestTaken(t, r)))
            && (u != t ==> answer.Ok? && u.decisions == t.decisions[r.request := answer.value]
                           && answer.value.evaluation == r.evaluation && answer.value.fingerprint == r.policy.fingerprint
                           && (forall risk :: risk in answer.value.rejections <==> Rejects(t, r, risk)))
            && (u != t && answer.value.rejections != {} ==> u == t.(decisions := u.decisions) && answer.value.pick == None)
            && (u != t && answer.value.rejections == {} ==> Approved(t, u, r))
            && (r.request in t.decisions ==>
                  (answer.Ok? <==> t.decisions[r.request].evaluation == r.evaluation
                                   && t.decisions[r.request].fingerprint == r.policy.fingerprint)
                  && (answer.Ok? ==> answer.value == t.decisions[r.request]))
  {
    var (u, answer) := Register(t, r);
    FindActionFinds(t.actions, AutoSkipRequest(PickId(r.request)));
    if Considered(t, r) {
      var risk := EvaluateRisk(t, r, AvailableFor(t, r));
      forall x ensures x in risk <==> Rejects(t, r, x) {}
      assert risk == {} <==> forall x :: !Rejects(t, r, x);
      assert u == t || r.request in u.decisions;
    }
  }

  // ----- operator actions -----

  // The action may bring a stake back into exposure: it turns a SKIPPED pick with an unresolved
  // reservation PLAYED and comes at or after the newest action.
  ghost predicate Returns(t: Tables, r: StateRequest) {
    && r.state == Played && StateOf(t.actions, r.pick) == Skipped
    && Latest(t.actions, r.pick).Some? && r.occurredAt >= Latest(t.actions, r.pick).value.occurredAt
    && exists k | 0 <= k < |t.ledger| ::
         t.ledger[k].kind == StakeReserved && t.ledger[k].pick == Some(r.pick) && !Resolved(t.events, r.pick)
  }

  ghost predicate Acts(t: Tables, r: StateRequest) {
    && r.state != Pending && r.request != "" && (forall a | a in t.actions :: a.request != r.request)
    && exists p | p in t.picks :: p.id == r.pick
         && (Returns(t, r) ==> r.cap.Some? && r.cap.value > 0 && RiskExposure(t) + p.stake <= r.cap.value)
  }

  // An action is appended exactly when it is new, well formed and, where it brings a stake back,
  // fits under its cap; a repeated request answers the stored action, if it asks for the same.
  lemma SetStateExactly(t: Tables, r: StateRequest)
    requires DistinctPicks(t.picks)
    ensures var (u, answer) := SetState(t, r);
            && (u != t <==> Acts(t, r))
            && (u != t ==> var a := Action(r.pick, r.state, r.occurredAt, r.persistedAt, r.tie, r.request);
                           u == t.(actions := t.actions + [a]) && answer == Ok(a))
            && (u == t && answer.Ok? ==> answer.value in t.actions && answer.value.request == r.request
                                         && answer.value.pick == r.pick && answer.value.state == r.state)
  {
    FindActionFinds(t.actions, r.request);
    FindPickFinds(t.picks, r.pick);
    forall p | p in t.picks && p.id == r.pick ensures FindPick(t.picks, r.pick) == Some(p) {
      OnePick(t.picks, p);
    }
  }

  // The state of a pick is that of an action no other action of it follows, by event time, then
  // transaction time, then tie; without one it is PENDING.
  lemma {:induction false} StateExactly(actions: seq<Action>, pick: string)
    ensures (forall a | a in actions :: a.pick != pick) ==> StateOf(actions, pick) == Pending
    ensures (exists a | a in actions :: a.pick == pick) ==>
              exists n | n in actions && n.pick == pick ::
                n.state == StateOf(actions, pick)
                && forall a | a in actions && a.pick == pick ::
                     || a.occurredAt < n.occurredAt
                     || (a.occurredAt == n.occurredAt && a.persistedAt < n.persistedAt)
                     || (a.occurredAt == n.occurredAt && a.persistedAt == n.persistedAt && a.tie <= n.tie)
  {
    LatestHolds(actions, pick);
  }

  ghost predicate NotAfter(a: Action, n: Action) {
    || a.occurredAt < n.occurredAt
    || (a.occurredAt == n.occurredAt && a.persistedAt < n.persistedAt)
    || (a.occurredAt == n.occurredAt && a.persistedAt == n.persistedAt && a.tie <= n.tie)
  }

  lemma {:induction false} LatestHolds(actions: seq<Action>, pick: string)
    ensures match Latest(actions, pick)
            case None => forall a | a in actions :: a.pick != pick
            case Some(n) => n in actions && n.pick == pick && forall a | a in actions && a.pick == pick :: NotAfter(a, n)
  {
    if actions != [] {
      LatestHolds(actions[..|actions| - 1], pick);
      assert actions == actions[..|actions| - 1] + [actions[|actions| - 1]];
    }
  }
}
