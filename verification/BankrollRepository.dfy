/** The repositories over the bankroll tables: registration, operator state, settlement,
    manual voids and the bankroll curve. */
module BankrollRepository {
  import opened Wrappers
  import opened Settlement
  import B = Books
  import opened BooksInvariants
  import opened BooksTheorems
  import opened BooksEffects

  datatype CurvePoint = CurvePoint(sequence: nat, available: int, openExposure: int, equityAtCost: int)

  class Bankroll {
    var picks: seq<B.Pick>
    var ledger: seq<B.Entry>
    var events: seq<B.Event>
    var actions: seq<B.Action>
    var decisions: map<string, B.Decision>

    function Rows(): B.Tables
      reads this
    {
      B.Tables(picks, ledger, events, actions, decisions)
    }

    constructor ()
      ensures Rows() == B.EMPTY
    {
      picks, ledger, events, actions, decisions := [], [], [], [], map[];
    }

    method Bootstrap(initial: int) returns (answer: Result<int, B.BootstrapError>)
      modifies this`ledger
      ensures Rows() == B.Bootstrap(old(Rows()), initial).0
      ensures answer == B.Bootstrap(old(Rows()), initial).1
    {
      if initial <= 0 {
        return Err(B.InitialMustBePositive);
      }
      if ledger == [] {
        ledger := [B.Entry(B.InitialBankroll, initial, initial, None)];
      } else if ledger[0].amount != initial {
        return Err(B.BootstrapConflict);
      }
      return Ok(initial);
    }

    method Register(r: B.RegisterRequest) returns (answer: Result<B.Decision, B.RegisterError>)
      modifies this
      ensures Rows() == B.Register(old(Rows()), r).0
      ensures answer == B.Register(old(Rows()), r).1
    {
      if r.request in decisions {
        var replay := decisions[r.request];
        if replay.evaluation != r.evaluation || replay.fingerprint != r.policy.fingerprint {
          return Err(B.RequestReused);
        }
        return Ok(replay);
      }
      if ledger == [] {
        return Err(B.NotBootstrapped);
      }
      if ledger[0].amount != r.policy.initial {
        return Err(B.FundingContradictsPolicy);
      }
      var stake := r.policy.fixedStake;
      if stake <= 0 {
        return Err(B.StakeMustBePositive);
      }
      var available := ledger[|ledger| - 1].balanceAfter;
      if r.autoSkip {
        available := B.OperatorAvailable(Rows());
      }
      assert available == B.AvailableFor(old(Rows()), r);
      var risk := B.EvaluateRisk(Rows(), r, available);
      if risk != {} {
        var rejected := B.Decision(r.evaluation, r.policy.fingerprint, risk, None);
        decisions := decisions[r.request := rejected];
        return Ok(rejected);
      }
      var pick := B.Pick(B.PickId(r.request), r.fixture, r.market, r.selection, stake, r.odd);
      if r.autoSkip {
        var request := B.AutoSkipRequest(pick.id);
        var used := B.FindAction(actions, request);
        if used.Some? {
          return Err(B.UniqueViolation);
        }
        actions := actions + [B.Action(pick.id, B.Skipped, r.decidedAt, r.persistedAt, r.tie, request)];
      }
      var approved := B.Decision(r.evaluation, r.policy.fingerprint, {}, Some(pick));
      decisions := decisions[r.request := approved];
      picks := picks + [pick];
      ledger := ledger + [B.Entry(B.StakeReserved, -stake, available - stake, Some(pick.id))];
      return Ok(approved);
    }

    method SetState(r: B.StateRequest) returns (answer: Result<B.Action, B.StateError>)
      modifies this`actions
      ensures Rows() == B.SetState(old(Rows()), r).0
      ensures answer == B.SetState(old(Rows()), r).1
    {
      if r.state == B.Pending {
        return Err(B.PendingIsDerived);
      }
      if r.request == "" {
        return Err(B.BlankRequest);
      }
      var existing := B.FindAction(actions, r.request);
      if existing.Some? {
        if existing.value.pick != r.pick || existing.value.state != r.state {
          return Err(B.RequestConflict);
        }
        return Ok(existing.value);
      }
      var pick := B.FindPick(picks, r.pick);
      if pick.None? {
        return Err(B.UnknownPick);
      }
      var latest := B.Latest(actions, r.pick);
      var before := if latest.None? then B.Pending else latest.value.state;
      var becomesLatest := latest.None? || r.occurredAt >= latest.value.occurredAt;
      var after := if becomesLatest then r.state else before;
      if before == B.Skipped && after == B.Played {
        var unresolved := B.UnresolvedReservation(Rows(), r.pick);
        if unresolved {
          if r.cap.None? || r.cap.value <= 0 {
            return Err(B.CapRequired);
          }
          var openExposure := B.RiskExposure(Rows());
          if openExposure + pick.value.stake > r.cap.value {
            return Err(B.CapExceeded);
          }
        }
      }
      var action := B.Action(r.pick, r.state, r.occurredAt, r.persistedAt, r.tie, r.request);
      actions := actions + [action];
      return Ok(action);
    }

    method SettlePick(id: string, result: string, stable: bool, record: FixtureResult)
      returns (answer: Result<nat, B.SettleError>)
      modifies this`ledger, this`events
      ensures Rows() == B.Settle(old(Rows()), id, result, stable, record).0
      ensures answer == B.Settle(old(Rows()), id, result, stable, record).1
      ensures DistinctPicks(picks) ==> (Rows() != old(Rows()) <==> Settles(old(Rows()), id, stable, record))
      ensures DistinctPicks(picks) ==> Rows() == old(Rows()) || Settled(old(Rows()), Rows(), id, result, record)
    {
      if DistinctPicks(picks) {
        SettleExactly(Rows(), id, result, stable, record);
      }
      var pick := B.FindPick(picks, id);
      if pick.None? {
        return Err(B.NoSuchPick);
      }
      var replay := B.InitialEvent(events, id);
      if replay.Some? {
        B.InitialEventInRange(events, id);
        var settled := events[replay.value];
        if settled.kind == B.ManualVoid {
          return Err(B.ManuallyVoided);
        }
        if settled.result != result {
          return Err(B.DifferentSettlement);
        }
        return Ok(replay.value);
      }
      if !stable {
        return Err(B.ResultNotStable);
      }
      var graded := SettleMarket(pick.value.market, pick.value.selection, record);
      if graded.Err? {
        return Err(B.Rejected(graded.error));
      }
      var amounts := SettlementAmounts(pick.value.stake, pick.value.odd, graded.value);
      if amounts.Err? {
        return Err(B.Rejected(amounts.error));
      }
      var reserved := B.ExactReservation(Rows(), pick.value);
      if !reserved {
        return Err(B.ReservationMissing);
      }
      answer := Ok(|events|);
      AppendSettlement(B.Event(id, B.Normal, None, result, Some(amounts.value), amounts.value.delta, |ledger|),
                       B.EntryKindFor(graded.value));
    }

    method VoidPostponed(id: string, result: string, latestStatusIsPst: bool) returns (answer: Result<nat, B.SettleError>)
      modifies this`ledger, this`events
      ensures Rows() == B.VoidPostponed(old(Rows()), id, result, latestStatusIsPst).0
      ensures answer == B.VoidPostponed(old(Rows()), id, result, latestStatusIsPst).1
      ensures DistinctPicks(picks) ==> (Rows() != old(Rows()) <==> Voids(old(Rows()), id, latestStatusIsPst))
      ensures DistinctPicks(picks) ==>
                Rows() == old(Rows())
                || exists p | p in picks :: p.id == id && Appends(old(Rows()), Rows(), id, B.ManualVoid, result, p, Void, p.stake)
    {
      if DistinctPicks(picks) {
        VoidExactly(Rows(), id, result, latestStatusIsPst);
      }
      var pick := B.FindPick(picks, id);
      if pick.None? {
        return Err(B.NoSuchPick);
      }
      if exists e | e in events :: e.pick == id {
        return Err(B.AlreadySettled);
      }
      if !latestStatusIsPst {
        return Err(B.NotPostponed);
      }
      var reserved := B.ExactReservation(Rows(), pick.value);
      if !reserved {
        return Err(B.ReservationMissing);
      }
      var stake := pick.value.stake;
      answer := Ok(|events|);
      AppendSettlement(B.Event(id, B.ManualVoid, None, result, Some(Amounts(Void, stake, 0, stake)), stake, |ledger|),
                       B.VoidRefund);
    }

    method AppendSettlement(e: B.Event, kind: B.EntryKind)
      requires e.entry == |ledger|
      modifies this`ledger, this`events
      ensures Rows() == B.Post(old(Rows()), e, kind)
    {
      var balance := if ledger == [] then 0 else ledger[|ledger| - 1].balanceAfter;
      ledger := ledger + [B.Entry(kind, e.delta, balance + e.delta, Some(e.pick))];
      events := events + [e];
    }

    method CurrentState(pick: string) returns (answer: Option<B.OperatorState>)
      ensures answer.None? <==> forall p | p in picks :: p.id != pick
      ensures answer.Some? && (forall a | a in actions :: a.pick != pick) ==> answer.value == B.Pending
      ensures answer.Some? && (exists a | a in actions :: a.pick == pick) ==>
                exists l | l in actions && l.pick == pick ::
                  l.state == answer.value && forall a | a in actions && a.pick == pick :: !B.Newer(a, l)
    {
      var registered := B.FindPick(picks, pick);
      FindPickFinds(picks, pick);
      if registered.None? {
        return None;
      }
      LatestIsNewest(actions, pick);
      answer := Some(B.StateOf(actions, pick));
    }

    function PointAt(k: nat): CurvePoint
      requires k < |ledger|
      reads this
    {
      var exposure := CurveExposure(picks, ledger, events, k + 1);
      CurvePoint(k + 1, ledger[k].balanceAfter, exposure, ledger[k].balanceAfter + exposure)
    }

    // On reachable tables the running exposure ends at the summary's exposure plus the missed
    // stakes.
    method Curve() returns (points: seq<CurvePoint>)
      ensures |points| == |ledger|
      ensures forall k | 0 <= k < |points| :: points[k] == PointAt(k)
      ensures Reachable(Rows()) && points != [] ==>
                points[|points| - 1].openExposure == B.SummaryExposure(Rows()) + MissedStakes(picks, events)
    {
      var exposure := 0;
      points := [];
      for k := 0 to |ledger|
        invariant exposure == CurveExposure(picks, ledger, events, k)
        invariant |points| == k
        invariant forall i | 0 <= i < k :: points[i] == PointAt(i)
      {
        exposure := CurveAdvance(exposure, k);
        points := points + [CurvePoint(k + 1, ledger[k].balanceAfter, exposure, ledger[k].balanceAfter + exposure)];
      }
      if Reachable(Rows()) {
        ReachableCurve(Rows());
      }
    }

    method CurveAdvance(before: int, k: nat) returns (exposure: int)
      requires k < |ledger|
      ensures exposure == before + CurveStep(picks, ledger, events, k)
    {
      exposure := before;
      var stake := StakeOf(picks, ledger[k].pick);
      var event := EntryEvent(events, k);
      EntryEventInRange(events, k);
      if ledger[k].kind == B.StakeReserved {
        exposure := exposure + stake;
      } else if event.Some? {
        var e := events[event.value];
        if e.kind == B.Normal {
          exposure := exposure - stake;
        } else if e.kind == B.Reversal {
          exposure := exposure + stake;
        } else if e.kind == B.Correction && AfterReversal(events, e) {
          exposure := exposure - stake;
        }
      }
    }
  }
}
