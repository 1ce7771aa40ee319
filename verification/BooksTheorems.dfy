/** Exposure cap, conservation of money and the bankroll curve, over every run. */
module BooksTheorems {
  import opened Wrappers
  import opened Settlement
  import opened Books
  import opened BooksInvariants

  // ----- exposure cap -----

  ghost predicate CapAtMost(c: Command, cap: int) {
    match c
    case DoRegister(r) => r.policy.cap <= cap
    case DoSetState(r) => r.cap.Some? ==> r.cap.value <= cap
    case _ => true
  }

  lemma {:induction false} LatestIsNewest(actions: seq<Action>, pick: string)
    ensures match Latest(actions, pick)
            case None => forall a | a in actions :: a.pick != pick
            case Some(l) => l in actions && l.pick == pick && forall a | a in actions && a.pick == pick :: !Newer(a, l)
  {
    if actions != [] {
      LatestIsNewest(actions[..|actions| - 1], pick);
      assert actions == actions[..|actions| - 1] + [actions[|actions| - 1]];
    }
  }

  lemma LatestAppend(actions: seq<Action>, a: Action, pick: string)
    ensures Latest(actions + [a], pick) ==
            if a.pick == pick && (Latest(actions, pick).None? || !Newer(Latest(actions, pick).value, a)) then Some(a)
            else Latest(actions, pick)
  {
    assert (actions + [a])[..|actions|] == actions;
  }

  lemma RiskAfterChange(t: Tables, u: Tables, p: Pick)
    requires Valid(t) && Valid(u) && u.picks == t.picks && p in t.picks
    requires forall id: string | id != p.id :: AtRisk(t.actions, t.events)(id) == AtRisk(u.actions, u.events)(id)
    ensures RiskExposure(u) == RiskExposure(t)
            + CountedStake(AtRisk(u.actions, u.events))(p) - CountedStake(AtRisk(t.actions, t.events))(p)
  {
    RiskExposureByPick(t);
    RiskExposureByPick(u);
    SumByChange(t.picks, CountedStake(AtRisk(t.actions, t.events)), CountedStake(AtRisk(u.actions, u.events)), p);
  }

  // No clock is trusted: an action may reach the top of the history only if the
  // transaction took it for the latest, so an unchecked action never plays a skipped open pick.
  lemma SetStateChecksCap(t: Tables, r: StateRequest)
    ensures var u := SetState(t, r).0;
            u.actions == t.actions ||
            var pick := FindPick(t.picks, r.pick);
            && pick.Some?
            && (exists a: Action :: a.pick == r.pick && u.actions == t.actions + [a])
            && ((StateOf(t.actions, r.pick) == Skipped && StateOf(u.actions, r.pick) != Skipped
                 && UnresolvedReservation(t, r.pick))
                ==> r.cap.Some? && RiskExposure(t) + pick.value.stake <= r.cap.value)
  {
    var u := SetState(t, r).0;
    if u.actions != t.actions {
      var action := u.actions[|t.actions|];
      assert action.pick == r.pick && u.actions == t.actions + [action];
      LatestAppend(t.actions, action, r.pick);
    }
  }

  lemma ActionKeepsCap(t: Tables, u: Tables, p: Pick, cap: int)
    requires Valid(t) && SameRows(t, u) && p in t.picks && RiskExposure(t) <= cap
    requires exists a: Action :: a.pick == p.id && u.actions == t.actions + [a]
    requires (StateOf(t.actions, p.id) == Skipped && StateOf(u.actions, p.id) != Skipped && UnresolvedReservation(t, p.id))
             ==> RiskExposure(t) + p.stake <= cap
    ensures RiskExposure(u) <= cap
  {
    OtherStatesStay(t.actions, u.actions, p.id);
    StepValid(t, u);
    RiskAfterChange(t, u, p);
    PickHasReservation(t.picks, t.ledger, p);
  }

  lemma SetStateKeepsCap(t: Tables, r: StateRequest, cap: int)
    requires Valid(t) && CapAtMost(DoSetState(r), cap) && RiskExposure(t) <= cap
    ensures RiskExposure(SetState(t, r).0) <= cap
  {
    var u := SetState(t, r).0;
    assert SameRows(t, u);
    SetStateChecksCap(t, r);
    if u.actions == t.actions {
      SameTablesSameRisk(t, u);
    } else {
      FindPickFinds(t.picks, r.pick);
      ActionKeepsCap(t, u, FindPick(t.picks, r.pick).value, cap);
    }
  }

  lemma RiskAfterAdmit(t: Tables, u: Tables, p: Pick, entry: Entry, request: string)
    requires Valid(t) && Admits(t, u, p, entry, request)
    requires forall id: string | id != p.id :: StateOf(u.actions, id) == StateOf(t.actions, id)
    ensures RiskExposure(u) == RiskExposure(t) + CountedStake(AtRisk(u.actions, u.events))(p)
  {
    AdmitValid(t, u, p, entry, request);
    RiskExposureByPick(t);
    RiskExposureByPick(u);
    var f, g := CountedStake(AtRisk(t.actions, t.events)), CountedStake(AtRisk(u.actions, u.events));
    FreshPick(t.picks, t.decisions, request);
    SumByAgree(t.picks, f, g);
    SumByAppend(t.picks, p, g);
  }

  // An approved registration has passed the cap check with its own stake.
  lemma RegisterChecksCap(t: Tables, r: RegisterRequest)
    ensures var u := Register(t, r).0;
            && (|u.picks| == |t.picks| ==> u.actions == t.actions)
            && (|u.picks| > |t.picks| ==>
                  && RiskExposure(t) + u.picks[|t.picks|].stake <= r.policy.cap
                  && (u.actions == t.actions || exists a: Action :: a.pick == PickId(r.request) && u.actions == t.actions + [a]))
  {
    var u := Register(t, r).0;
    if |u.picks| > |t.picks| {
      assert MaxOpenExposureExceeded !in EvaluateRisk(t, r, AvailableFor(t, r));
      if u.actions != t.actions {
        assert u.actions == t.actions + [u.actions[|t.actions|]];
      }
    }
  }

  lemma OtherStatesStay(actions: seq<Action>, more: seq<Action>, id: string)
    requires more == actions || exists a: Action :: a.pick == id && more == actions + [a]
    ensures forall other: string | other != id :: StateOf(more, other) == StateOf(actions, other)
  {
    forall other: string | other != id ensures StateOf(more, other) == StateOf(actions, other) {
      if more != actions {
        var a: Action :| a.pick == id && more == actions + [a];
        LatestAppend(actions, a, other);
      }
    }
  }

  lemma SameTablesSameRisk(t: Tables, u: Tables)
    requires SameRows(t, u) && u.actions == t.actions
    ensures RiskExposure(u) == RiskExposure(t)
  {
  }

  lemma RegisterKeepsCap(t: Tables, r: RegisterRequest, cap: int)
    requires Valid(t) && CapAtMost(DoRegister(r), cap) && RiskExposure(t) <= cap
    ensures RiskExposure(Register(t, r).0) <= cap
  {
    var u := Register(t, r).0;
    RegisterAdmits(t, r);
    RegisterChecksCap(t, r);
    if SameRows(t, u) {
      SameTablesSameRisk(t, u);
    } else {
      var p, entry :| Admits(t, u, p, entry, r.request);
      OtherStatesStay(t.actions, u.actions, p.id);
      RiskAfterAdmit(t, u, p, entry, r.request);
    }
  }

  lemma RiskAfterPost(t: Tables, e: Event, kind: EntryKind)
    requires Valid(t) && Postable(t, e, kind)
    ensures var p := FindPick(t.picks, e.pick).value;
            RiskExposure(Post(t, e, kind)) == RiskExposure(t)
              + if StateOf(t.actions, e.pick) == Skipped then 0
                else (if e.grading.Some? then 0 else p.stake) - OpenStake(t.events)(p)
  {
    var u := Post(t, e, kind);
    PostValid(t, e, kind);
    var p := FindPick(t.picks, e.pick).value;
    FindPickFinds(t.picks, e.pick);
    forall id: string ensures Resolved(u.events, id) == if id == p.id then e.grading.Some? else Resolved(t.events, id) {
      ResolvedAppend(t.events, u.events[|t.events|], id);
    }
    RiskAfterChange(t, u, p);
  }

  lemma PostKeepsCap(t: Tables, e: Event, kind: EntryKind)
    requires Valid(t) && Postable(t, e, kind) && e.kind != Reversal
    ensures RiskExposure(Post(t, e, kind)) <= RiskExposure(t)
  {
    RiskAfterPost(t, e, kind);
    FindPickFinds(t.picks, e.pick);
  }

  lemma CommandKeepsCap(t: Tables, c: Command, cap: int)
    requires Valid(t) && CapAtMost(c, cap) && !c.DoReverse? && RiskExposure(t) <= cap
    ensures RiskExposure(Apply(t, c)) <= cap
  {
    if c.DoBootstrap? {
      BootstrapKeepsRisk(t, c.initial);
    } else if c.DoRegister? {
      RegisterKeepsCap(t, c.register, cap);
    } else if c.DoSetState? {
      SetStateKeepsCap(t, c.request, cap);
    } else {
      CommandPosts(t, c);
      var u := Apply(t, c);
      if u != t {
        var e, kind :| Postable(t, e, kind) && u == Post(t, e, kind) && e.kind != Reversal;
        PostKeepsCap(t, e, kind);
      }
    }
  }

  lemma BootstrapKeepsRisk(t: Tables, initial: int)
    ensures RiskExposure(Bootstrap(t, initial).0) == RiskExposure(t)
  {
    var u := Bootstrap(t, initial).0;
    if u != t {
      assert ReservedUpTo(u.ledger, AtRisk(u.actions, u.events), 0) == 0;
    }
  }

  // Whatever the operator, the registrar and the settlement do, in any order, with any
  // clocks and with refused or repeated calls, open exposure stays under the largest cap used.
  lemma {:induction false} ExposureCapHolds(t: Tables, commands: seq<Command>, cap: int)
    requires Valid(t) && RiskExposure(t) <= cap
    requires forall c | c in commands :: CapAtMost(c, cap) && !c.DoReverse?
    ensures RiskExposure(Run(t, commands)) <= cap
    decreases |commands|
  {
    if commands != [] {
      CommandKeepsCap(t, commands[0], cap);
      ApplyValid(t, commands[0]);
      assert forall c | c in commands[1..] :: c in commands;
      ExposureCapHolds(Apply(t, commands[0]), commands[1..], cap);
    }
  }

  // A reversal is never checked: it adds back exactly the stake of a graded pick that is not skipped.
  lemma ReversalExposure(t: Tables, prior: nat, result: string)
    requires Valid(t)
    ensures var u := Reverse(t, prior, result).0;
            RiskExposure(u) == RiskExposure(t) +
              if prior < |t.events| && Effective(t.events, prior) && t.events[prior].grading.Some?
                 && StateOf(t.actions, t.events[prior].pick) != Skipped
              then FindPick(t.picks, t.events[prior].pick).value.stake else 0
  {
    var u := Reverse(t, prior, result).0;
    ReversePostable(t, prior, result);
    if u != t {
      var e, kind :| Postable(t, e, kind) && u == Post(t, e, kind) && e.kind == Reversal && e.prior == Some(prior);
      RiskAfterPost(t, e, kind);
      LastOfInRange(t.events, e.pick);
      ResolvedIffLastGraded(t.events, e.pick);
      FindPickFinds(t.picks, e.pick);
    } else if prior < |t.events| {
      assert |u.events| == |t.events|;
    }
  }

  // ----- conservation of money -----

  function LedgerSum(ledger: seq<Entry>): int {
    if ledger == [] then 0 else LedgerSum(ledger[..|ledger| - 1]) + ledger[|ledger| - 1].amount
  }

  lemma LedgerSumAppend(ledger: seq<Entry>, entry: Entry)
    ensures LedgerSum(ledger + [entry]) == LedgerSum(ledger) + entry.amount
  {
    assert (ledger + [entry])[..|ledger|] == ledger;
  }

  // The amounts booked so far are the initial funding less every stake plus every effective gross return.
  ghost predicate Accounted(t: Tables) {
    LedgerSum(t.ledger) == Initial(t) - SumBy(t.picks, Stake()) + EffectiveSum(t.events, Gross)
  }

  lemma PostAccounted(t: Tables, e: Event, kind: EntryKind)
    requires Valid(t) && Accounted(t) && Postable(t, e, kind)
    ensures Accounted(Post(t, e, kind))
  {
    var u := Post(t, e, kind);
    PostValid(t, e, kind);
    LedgerSumAppend(t.ledger, u.ledger[|t.ledger|]);
    EffectiveSumAppend(t.events, u.events[|t.events|], Gross);
  }

  lemma StepAccounted(t: Tables, u: Tables)
    requires Valid(t) && Accounted(t) && Step(t, u)
    ensures Accounted(u)
  {
    if SameRows(t, u) {
    } else if initial :| Funds(t, u, initial) {
      FirstRow(t, u, initial);
    } else if p, entry, request :| Admits(t, u, p, entry, request) {
      LedgerSumAppend(t.ledger, entry);
      SumByAppend(t.picks, p, Stake());
    } else {
      var e, kind :| Postable(t, e, kind) && u == Post(t, e, kind);
      PostAccounted(t, e, kind);
    }
  }

  lemma FirstRow(t: Tables, u: Tables, initial: int)
    requires Valid(t) && Funds(t, u, initial)
    ensures t.events == [] && LedgerSum(u.ledger) == initial && LedgerSum(t.ledger) == 0
  {
    NoRowsNoEvents(t);
    assert u.ledger[..0] == [];
    assert LedgerSum(u.ledger[..0]) == 0;
  }

  lemma {:induction false} RunAccounted(t: Tables, commands: seq<Command>)
    requires Valid(t) && Accounted(t)
    ensures Valid(Run(t, commands)) && Accounted(Run(t, commands))
    decreases |commands|
  {
    if commands != [] {
      ApplyValid(t, commands[0]);
      ApplySteps(t, commands[0]);
      StepAccounted(t, Apply(t, commands[0]));
      RunAccounted(Apply(t, commands[0]), commands[1..]);
    }
  }

  lemma {:induction false} FindOwnPick(picks: seq<Pick>, p: Pick)
    requires DistinctPicks(picks) && p in picks
    ensures FindPick(picks, p.id) == Some(p)
  {
    FindPickFinds(picks, p.id);
    var q := FindPick(picks, p.id).value;
    var i :| 0 <= i < |picks| && picks[i] == p;
    var j :| 0 <= j < |picks| && picks[j] == q;
  }

  function NetReturned(events: seq<Event>): Pick -> int {
    (p: Pick) => LastValue(events, Gross)(p) - LastValue(events, Pnl)(p)
  }

  lemma PickOpenOrReturned(t: Tables, p: Pick)
    requires Valid(t) && p in t.picks
    ensures p.stake == OpenStake(t.events)(p) + NetReturned(t.events)(p)
  {
    ResolvedIffLastGraded(t.events, p.id);
    LastOfInRange(t.events, p.id);
    FindOwnPick(t.picks, p);
    if LastOf(t.events, p.id).Some? {
      var e := t.events[LastOf(t.events, p.id).value];
      assert GradedExactly(t.picks, e);
      assert LastValue(t.events, Gross)(p) == Gross(e) && LastValue(t.events, Pnl)(p) == Pnl(e);
    } else {
      assert LastValue(t.events, Gross)(p) == 0 == LastValue(t.events, Pnl)(p);
    }
  }

  // Every stake is either still open or has come back as gross return less profit.
  lemma StakesOpenOrReturned(t: Tables)
    requires Valid(t)
    ensures SumBy(t.picks, Stake()) == SummaryExposure(t) + EffectiveSum(t.events, Gross) - RealizedPnl(t)
  {
    EffectiveSumByPick(t.events, t.picks, Gross);
    EffectiveSumByPick(t.events, t.picks, Pnl);
    forall p | p in t.picks ensures Stake()(p) == OpenStake(t.events)(p) + NetReturned(t.events)(p) {
      PickOpenOrReturned(t, p);
    }
    SumBySplit(t.picks, Stake(), OpenStake(t.events), NetReturned(t.events));
    SumBySplit(t.picks, LastValue(t.events, Gross), NetReturned(t.events), LastValue(t.events, Pnl));
  }

  // How far the latest balance has left the sum of the booked amounts.
  function Drift(t: Tables): int {
    Balance(t) - LedgerSum(t.ledger)
  }

  lemma EquityEquation(t: Tables)
    requires Valid(t) && Accounted(t)
    ensures Balance(t) + SummaryExposure(t) == Initial(t) + RealizedPnl(t) + Drift(t)
  {
    StakesOpenOrReturned(t);
  }

  ghost predicate AcceptsAutoSkip(t: Tables, r: RegisterRequest) {
    r.autoSkip && |Register(t, r).0.picks| > |t.picks|
  }

  lemma PostDrift(t: Tables, e: Event, kind: EntryKind)
    ensures Drift(Post(t, e, kind)) == Drift(t)
  {
    LedgerSumAppend(t.ledger, Post(t, e, kind).ledger[|t.ledger|]);
  }

  lemma RegisterDrift(t: Tables, r: RegisterRequest)
    ensures var u := Register(t, r).0;
            Drift(u) == Drift(t) + if AcceptsAutoSkip(t, r) then OperatorAvailable(t) - Balance(t) else 0
  {
    var u := Register(t, r).0;
    RegisterAdmits(t, r);
    if SameRows(t, u) {
    } else {
      var p, entry :| Admits(t, u, p, entry, r.request);
      LedgerSumAppend(t.ledger, entry);
      assert entry == u.ledger[|t.ledger|];
      assert entry.balanceAfter == AvailableFor(t, r) - p.stake;
    }
  }

  lemma SettlementDrift(t: Tables, c: Command)
    requires Valid(t) && (c.DoSettle? || c.DoVoid? || c.DoCorrect? || c.DoReverse?)
    ensures Drift(Apply(t, c)) == Drift(t)
  {
    CommandPosts(t, c);
    var u := Apply(t, c);
    if u != t {
      var e, kind :| Postable(t, e, kind) && u == Post(t, e, kind);
      PostDrift(t, e, kind);
    }
  }

  lemma BootstrapDrift(t: Tables, initial: int)
    requires Valid(t)
    ensures Drift(Bootstrap(t, initial).0) == Drift(t)
  {
    if t.ledger == [] && initial > 0 {
      FirstRow(t, Bootstrap(t, initial).0, initial);
    }
  }

  // Only an accepted automatic skip moves the drift: its row is computed from the operator's
  // bankroll instead of the latest balance.
  lemma DriftExactly(t: Tables, c: Command)
    requires Valid(t)
    ensures Drift(Apply(t, c)) == Drift(t) +
            if c.DoRegister? && AcceptsAutoSkip(t, c.register) then OperatorAvailable(t) - Balance(t) else 0
  {
    if c.DoBootstrap? {
      BootstrapDrift(t, c.initial);
    } else if c.DoRegister? {
      RegisterDrift(t, c.register);
    } else if c.DoSetState? {
      assert SetState(t, c.request).0.ledger == t.ledger;
    } else {
      SettlementDrift(t, c);
    }
  }

  // No automatic skip of the run is accepted; refused and replayed ones do not matter.
  ghost predicate NoAutoSkipAccepted(t: Tables, commands: seq<Command>)
    decreases |commands|
  {
    commands != [] ==>
      && (commands[0].DoRegister? ==> !AcceptsAutoSkip(t, commands[0].register))
      && NoAutoSkipAccepted(Apply(t, commands[0]), commands[1..])
  }

  lemma {:induction false} NeverConfigured(t: Tables, commands: seq<Command>)
    requires forall c | c in commands :: c.DoRegister? ==> !c.register.autoSkip
    ensures NoAutoSkipAccepted(t, commands)
    decreases |commands|
  {
    if commands != [] {
      assert forall c | c in commands[1..] :: c in commands;
      NeverConfigured(Apply(t, commands[0]), commands[1..]);
    }
  }

  lemma {:induction false} DriftStays(t: Tables, commands: seq<Command>)
    requires Valid(t) && NoAutoSkipAccepted(t, commands)
    ensures Drift(Run(t, commands)) == Drift(t)
    decreases |commands|
  {
    if commands != [] {
      DriftExactly(t, commands[0]);
      ApplyValid(t, commands[0]);
      DriftStays(Apply(t, commands[0]), commands[1..]);
    }
  }

  // The balance equation: balance plus open stakes is the initial bankroll plus the profit of
  // the effective events.
  ghost predicate Balanced(t: Tables) {
    Balance(t) + SummaryExposure(t) == Initial(t) + RealizedPnl(t)
  }

  lemma EmptyTables(t: Tables)
    requires t.picks == [] && t.ledger == [] && t.events == []
    ensures Valid(t) && Accounted(t) && Drift(t) == 0
  {
  }

  // Until the next accepted automatic skip the equation neither breaks nor heals.
  lemma BalanceStays(t: Tables, commands: seq<Command>)
    requires Valid(t) && Accounted(t) && NoAutoSkipAccepted(t, commands)
    ensures Balanced(Run(t, commands)) <==> Balanced(t)
  {
    RunAccounted(t, commands);
    DriftStays(t, commands);
    EquityEquation(t);
    EquityEquation(Run(t, commands));
  }

  lemma ConservedFrom(t: Tables, commands: seq<Command>)
    requires Valid(t) && Accounted(t) && Drift(t) == 0
    requires forall c | c in commands :: c.DoRegister? ==> !c.register.autoSkip
    ensures Balanced(Run(t, commands))
  {
    NeverConfigured(t, commands);
    EquityEquation(t);
    BalanceStays(t, commands);
  }

  // Without automatic skips, balance plus open stakes is the initial bankroll plus the
  // profit of the effective events, after every history from the empty tables.
  lemma MoneyConserved(commands: seq<Command>)
    requires forall c | c in commands :: c.DoRegister? ==> !c.register.autoSkip
    ensures var t := Run(EMPTY, commands);
            Balance(t) + SummaryExposure(t) == Initial(t) + RealizedPnl(t)
  {
    EmptyTables(EMPTY);
    ConservedFrom(EMPTY, commands);
  }

  function Unreturned(actions: seq<Action>, events: seq<Event>): Pick -> int {
    (p: Pick) => if StateOf(actions, p.id) == Played then 0 else p.stake - LastValue(events, Gross)(p)
  }

  // The operator's bankroll exceeds the booked sum by the stakes that the picks which are
  // not PLAYED have taken and not returned.
  lemma OperatorAvailableExactly(t: Tables)
    requires Valid(t) && Accounted(t)
    ensures OperatorAvailable(t) == LedgerSum(t.ledger) + SumBy(t.picks, Unreturned(t.actions, t.events))
  {
    var playedGross := LastValue(t.events, PlayedOnly(t.actions, Gross));
    EffectiveSumByPick(t.events, t.picks, Gross);
    EffectiveSumByPick(t.events, t.picks, PlayedOnly(t.actions, Gross));
    var skippedStake := (p: Pick) => if StateOf(t.actions, p.id) == Played then 0 else p.stake;
    var skippedGross := (p: Pick) => if StateOf(t.actions, p.id) == Played then 0 else LastValue(t.events, Gross)(p);
    forall p | p in t.picks ensures LastValue(t.events, Gross)(p) == playedGross(p) + skippedGross(p) {
      LastOfInRange(t.events, p.id);
    }
    SumBySplit(t.picks, LastValue(t.events, Gross), playedGross, skippedGross);
    SumBySplit(t.picks, Stake(), PlayedStake(t.actions), skippedStake);
    SumBySplit(t.picks, skippedStake, Unreturned(t.actions, t.events), skippedGross);
  }

  // After an accepted automatic skip the balance equation holds, however the books stood
  // before, exactly when the picks that are not PLAYED have returned what they took.
  lemma AutoSkipConservesExactly(t: Tables, r: RegisterRequest)
    requires Valid(t) && Accounted(t) && AcceptsAutoSkip(t, r)
    ensures Balanced(Register(t, r).0) <==> SumBy(t.picks, Unreturned(t.actions, t.events)) == 0
  {
    var u := Register(t, r).0;
    RegisterDrift(t, r);
    OperatorAvailableExactly(t);
    RegisterAdmits(t, r);
    EquityAfterStep(t, u);
  }

  lemma {:induction false} RunAppend(t: Tables, first: seq<Command>, second: seq<Command>)
    ensures Run(t, first + second) == Run(Run(t, first), second)
    decreases |first|
  {
    if first == [] {
      assert first + second == second;
    } else {
      assert (first + second)[1..] == first[1..] + second;
      RunAppend(Apply(t, first[0]), first[1..], second);
    }
  }

  lemma RunOne(t: Tables, c: Command)
    ensures Run(t, [c]) == Apply(t, c)
  {
    assert [c][1..] == [];
    assert Run(Apply(t, c), []) == Apply(t, c);
  }

  lemma RunThrough(start: Tables, before: seq<Command>, c: Command, after: seq<Command>)
    ensures Run(start, before + [c]) == Apply(Run(start, before), c)
    ensures Run(start, before + [c] + after) == Run(Apply(Run(start, before), c), after)
  {
    RunAppend(start, before, [c]);
    RunOne(Run(start, before), c);
    RunAppend(start, before + [c], after);
  }

  lemma RunBalancedFrom(start: Tables, before: seq<Command>, r: RegisterRequest, after: seq<Command>)
    requires Valid(start) && Accounted(start)
    requires AcceptsAutoSkip(Run(start, before), r)
    requires NoAutoSkipAccepted(Run(start, before + [DoRegister(r)]), after)
    ensures var t := Run(start, before);
            Balanced(Run(start, before + [DoRegister(r)] + after))
            <==> SumBy(t.picks, Unreturned(t.actions, t.events)) == 0
  {
    RunAccounted(start, before);
    RunAccounted(start, before + [DoRegister(r)]);
    RunThrough(start, before, DoRegister(r), after);
    AutoSkipConservesExactly(Run(start, before), r);
    BalanceStays(Run(start, before + [DoRegister(r)]), after);
  }

  // After any run the equation holds exactly when, at its last accepted automatic skip, the
  // picks that were not PLAYED had returned what they took.
  lemma RunBalancedExactly(before: seq<Command>, r: RegisterRequest, after: seq<Command>)
    requires AcceptsAutoSkip(Run(EMPTY, before), r)
    requires NoAutoSkipAccepted(Run(EMPTY, before + [DoRegister(r)]), after)
    ensures var t := Run(EMPTY, before);
            Balanced(Run(EMPTY, before + [DoRegister(r)] + after))
            <==> SumBy(t.picks, Unreturned(t.actions, t.events)) == 0
  {
    EmptyTables(EMPTY);
    RunBalancedFrom(EMPTY, before, r, after);
  }

  lemma EquityAfterStep(t: Tables, u: Tables)
    requires Valid(t) && Accounted(t) && Step(t, u)
    ensures Balance(u) + SummaryExposure(u) == Initial(u) + RealizedPnl(u) + Drift(u)
  {
    StepValid(t, u);
    StepAccounted(t, u);
    EquityEquation(u);
  }

  // ----- the operator's projection -----

  function PlayedOpen(t: Tables): Pick -> int {
    (p: Pick) => if StateOf(t.actions, p.id) == Played then OpenStake(t.events)(p) else 0
  }

  function PendingOpen(t: Tables): Pick -> int {
    (p: Pick) => if StateOf(t.actions, p.id) == Pending then OpenStake(t.events)(p) else 0
  }

  function PlayedNet(t: Tables): Pick -> int {
    (p: Pick) => if StateOf(t.actions, p.id) == Played then NetReturned(t.events)(p) else 0
  }

  // The exposure reported to the operator exceeds his pending stakes by the open stakes of
  // the picks on which he has not acted.
  lemma OperatorExposureExactly(t: Tables)
    requires Reserved(t.picks, t.ledger)
    ensures RiskExposure(t) == SumBy(t.picks, PlayedOpen(t)) + SumBy(t.picks, PendingOpen(t))
  {
    RiskExposureByPick(t);
    forall p | p in t.picks
      ensures CountedStake(AtRisk(t.actions, t.events))(p) == PlayedOpen(t)(p) + PendingOpen(t)(p)
    {
      PickExposure(t, p);
    }
    SumBySplit(t.picks, CountedStake(AtRisk(t.actions, t.events)), PlayedOpen(t), PendingOpen(t));
  }

  lemma PickExposure(t: Tables, p: Pick)
    ensures CountedStake(AtRisk(t.actions, t.events))(p) == PlayedOpen(t)(p) + PendingOpen(t)(p)
  {
    assert AtRisk(t.actions, t.events)(p.id) == (StateOf(t.actions, p.id) != Skipped && !Resolved(t.events, p.id));
    assert OpenStake(t.events)(p) == if Resolved(t.events, p.id) then 0 else p.stake;
  }

  lemma PlayedLastValue(t: Tables, p: Pick, f: Event -> int)
    ensures LastValue(t.events, PlayedOnly(t.actions, f))(p)
         == if StateOf(t.actions, p.id) == Played then LastValue(t.events, f)(p) else 0
  {
    LastOfInRange(t.events, p.id);
  }

  lemma PlayedStakesOpenOrReturned(t: Tables)
    requires Valid(t)
    ensures SumBy(t.picks, PlayedStake(t.actions)) == SumBy(t.picks, PlayedOpen(t)) + SumBy(t.picks, PlayedNet(t))
  {
    forall p | p in t.picks ensures PlayedStake(t.actions)(p) == PlayedOpen(t)(p) + PlayedNet(t)(p) {
      PickOpenOrReturned(t, p);
    }
    SumBySplit(t.picks, PlayedStake(t.actions), PlayedOpen(t), PlayedNet(t));
  }

  lemma PlayedReturns(t: Tables)
    requires Valid(t)
    ensures EffectiveSum(t.events, PlayedOnly(t.actions, Gross))
         == SumBy(t.picks, PlayedNet(t)) + EffectiveSum(t.events, PlayedOnly(t.actions, Pnl))
  {
    var gross := LastValue(t.events, PlayedOnly(t.actions, Gross));
    var pnl := LastValue(t.events, PlayedOnly(t.actions, Pnl));
    EffectiveSumByPick(t.events, t.picks, PlayedOnly(t.actions, Gross));
    EffectiveSumByPick(t.events, t.picks, PlayedOnly(t.actions, Pnl));
    forall p | p in t.picks ensures gross(p) == PlayedNet(t)(p) + pnl(p) {
      PlayedLastValue(t, p, Gross);
      PlayedLastValue(t, p, Pnl);
      assert NetReturned(t.events)(p) == LastValue(t.events, Gross)(p) - LastValue(t.events, Pnl)(p);
    }
    SumBySplit(t.picks, gross, PlayedNet(t), pnl);
  }

  // The operator's own projection conserves money whatever the ledger rows say.
  lemma OperatorEquityExactly(t: Tables)
    requires Valid(t)
    ensures OperatorAvailable(t) + SumBy(t.picks, PlayedOpen(t))
         == Initial(t) + EffectiveSum(t.events, PlayedOnly(t.actions, Pnl))
  {
    PlayedStakesOpenOrReturned(t);
    PlayedReturns(t);
  }

  // ----- the failing family -----

  function AutoSkip(request: string, fixture: string): RegisterRequest {
    RegisterRequest(request, request, fixture, Btts, Yes, 2.0, RegistrationPolicy(10, 10, 100, 100, "policy"), true, 0, 0, 0)
  }

  lemma DistinctSkips(a: string, b: string)
    requires a != b
    ensures AutoSkipRequest(PickId(a)) != AutoSkipRequest(PickId(b))
  {
    var n := |"production-auto-skip-v1:"|;
    assert AutoSkipRequest(PickId(a))[n..] == PickId(a) && AutoSkipRequest(PickId(b))[n..] == PickId(b);
    if PickId(a) == PickId(b) {
      PickIdInjective(a, b);
    }
  }

  function SkipDecision(request: string, pick: Pick): Decision {
    Decision(request, "policy", {}, Some(pick))
  }

  function SkipAction(pick: string): Action {
    Action(pick, Skipped, 0, 0, 0, AutoSkipRequest(pick))
  }

  function SkipEntry(pick: string): Entry {
    Entry(StakeReserved, -10, 90, Some(pick))
  }

  const FUNDED: Tables := Tables([], [Entry(InitialBankroll, 100, 100, None)], [], [], map[])
  const FIRST: Pick := Pick(PickId("a"), "f", Btts, Yes, 10, 2.0)
  const SECOND: Pick := Pick(PickId("b"), "g", Btts, Yes, 10, 2.0)

  const SKIPPED_ONCE: Tables :=
    Tables([FIRST], FUNDED.ledger + [SkipEntry(FIRST.id)], [], [SkipAction(FIRST.id)], map["a" := SkipDecision("a", FIRST)])

  lemma FirstSkip()
    ensures Register(FUNDED, AutoSkip("a", "f")).0 == SKIPPED_ONCE
  {
    assert |FUNDED.ledger| == 1 && FUNDED.ledger[0].kind == InitialBankroll;
    assert ReservedUpTo(FUNDED.ledger, AtRisk([], []), 1) == ReservedUpTo(FUNDED.ledger, AtRisk([], []), 0);
    assert RiskExposure(FUNDED) == 0;
    assert OperatorAvailable(FUNDED) == 100;
    assert "f" == AutoSkip("a", "f").fixture;
    assert EvaluateRisk(FUNDED, AutoSkip("a", "f"), 100) == {};
    assert [] + [FIRST] == [FIRST] && [] + [SkipAction(FIRST.id)] == [SkipAction(FIRST.id)];
  }

  lemma SkippedOnceQueries()
    ensures RiskExposure(SKIPPED_ONCE) == 0 && OperatorAvailable(SKIPPED_ONCE) == 100
  {
    var t := SKIPPED_ONCE;
    assert Latest([], FIRST.id) == None;
    assert t.actions[..0] == [];
    assert StateOf(t.actions, FIRST.id) == Skipped;
    assert !AtRisk(t.actions, t.events)(FIRST.id);
    assert ReservedUpTo(t.ledger, AtRisk(t.actions, t.events), 1) == 0;
    assert t.picks[..0] == [];
    assert SumBy(t.picks, PlayedStake(t.actions)) == 0;
  }

  lemma SecondSkip()
    ensures var u := Register(SKIPPED_ONCE, AutoSkip("b", "g")).0;
            u.picks == [FIRST, SECOND] && u.events == []
            && u.ledger == FUNDED.ledger + [SkipEntry(FIRST.id), SkipEntry(SECOND.id)]
  {
    SkippedOnceQueries();
    DistinctSkips("a", "b");
    assert "a"[0] != "b"[0] && "f"[0] != "g"[0];
    assert SKIPPED_ONCE.actions[..0] == [];
    assert FindAction(SKIPPED_ONCE.actions, AutoSkipRequest(SECOND.id)) == None;
    assert EvaluateRisk(SKIPPED_ONCE, AutoSkip("b", "g"), 100) == {};
    assert [FIRST] + [SECOND] == [FIRST, SECOND];
    assert SKIPPED_ONCE.ledger + [SkipEntry(SECOND.id)] == FUNDED.ledger + [SkipEntry(FIRST.id), SkipEntry(SECOND.id)];
  }

  lemma TwoOpenPicks(t: Tables)
    requires t.picks == [FIRST, SECOND] && t.events == []
    ensures SummaryExposure(t) == 20 && RealizedPnl(t) == 0
  {
    SumByAppend([], FIRST, OpenStake([]));
    SumByAppend([FIRST], SECOND, OpenStake([]));
    assert [] + [FIRST] == [FIRST] && [FIRST] + [SECOND] == [FIRST, SECOND];
  }

  lemma TwoSkipsRun()
    ensures Run(EMPTY, [DoBootstrap(100), DoRegister(AutoSkip("a", "f")), DoRegister(AutoSkip("b", "g"))])
         == Register(SKIPPED_ONCE, AutoSkip("b", "g")).0
  {
    FirstSkip();
    RunThree(EMPTY, DoBootstrap(100), DoRegister(AutoSkip("a", "f")), DoRegister(AutoSkip("b", "g")));
    assert Bootstrap(EMPTY, 100).0 == FUNDED;
  }

  // Two automatic skips from a bankroll of 100: the second row repeats the balance 90 of the
  // first, although 20 are reserved.
  lemma AutoSkipLosesConservation()
    ensures var t := Run(EMPTY, [DoBootstrap(100), DoRegister(AutoSkip("a", "f")), DoRegister(AutoSkip("b", "g"))]);
            Balance(t) == 90 && SummaryExposure(t) == 20 && Initial(t) == 100 && RealizedPnl(t) == 0
  {
    TwoSkipsRun();
    SecondSkip();
    TwoOpenPicks(Register(SKIPPED_ONCE, AutoSkip("b", "g")).0);
  }

  lemma RunThree(t: Tables, a: Command, b: Command, c: Command)
    ensures Run(t, [a, b, c]) == Apply(Apply(Apply(t, a), b), c)
  {
    var t1, t2 := Apply(t, a), Apply(Apply(t, a), b);
    assert [a, b, c][1..] == [b, c] && [b, c][1..] == [c] && [c][1..] == [];
    assert Run(Apply(t2, c), []) == Apply(t2, c);
    assert Run(t2, [c]) == Apply(t2, c);
    assert Run(t1, [b, c]) == Run(t2, [c]);
  }

  // ----- no overdraft -----

  lemma RegisterNeverOverdraws(t: Tables, r: RegisterRequest)
    requires Balance(t) >= 0
    ensures Balance(Register(t, r).0) >= 0
  {
    var u := Register(t, r).0;
    if |u.ledger| > |t.ledger| {
      assert InsufficientAvailableBankroll !in EvaluateRisk(t, r, AvailableFor(t, r));
    }
  }

  lemma SettleNeverOverdraws(t: Tables, id: string, result: string, stable: bool, record: FixtureResult)
    requires Balance(t) >= 0
    ensures Balance(Settle(t, id, result, stable, record).0) >= 0
  {
    var u := Settle(t, id, result, stable, record).0;
    if u != t {
      var pick := FindPick(t.picks, id).value;
      var graded := SettleMarket(pick.market, pick.selection, record);
      PayoutsAgree(pick.stake, pick.odd, graded.value);
    }
  }

  lemma VoidNeverOverdraws(t: Tables, id: string, result: string, pst: bool)
    requires Valid(t) && Balance(t) >= 0
    ensures Balance(VoidPostponed(t, id, result, pst).0) >= 0
  {
    FindPickFinds(t.picks, id);
  }

  lemma CommandNeverOverdraws(t: Tables, c: Command)
    requires Valid(t) && Balance(t) >= 0 && !c.DoCorrect? && !c.DoReverse?
    ensures Balance(Apply(t, c)) >= 0
  {
    if c.DoRegister? {
      RegisterNeverOverdraws(t, c.register);
    } else if c.DoSettle? {
      SettleNeverOverdraws(t, c.id, c.result, c.stable, c.record);
    } else if c.DoVoid? {
      VoidNeverOverdraws(t, c.id, c.result, c.latestStatusIsPst);
    }
  }

  // The programs of the repository never drive the balance below zero.
  lemma {:induction false} NeverOverdrawn(t: Tables, commands: seq<Command>)
    requires Valid(t) && Balance(t) >= 0
    requires forall c | c in commands :: !c.DoCorrect? && !c.DoReverse?
    ensures Balance(Run(t, commands)) >= 0
    decreases |commands|
  {
    if commands != [] {
      CommandNeverOverdraws(t, commands[0]);
      ApplyValid(t, commands[0]);
      assert forall d | d in commands[1..] :: d in commands;
      NeverOverdrawn(Apply(t, commands[0]), commands[1..]);
    }
  }

  // ----- the bankroll curve -----

  function EntryEvent(events: seq<Event>, k: nat): Option<nat> {
    if events == [] then None
    else if events[|events| - 1].entry == k then Some(|events| - 1)
    else EntryEvent(events[..|events| - 1], k)
  }

  lemma {:induction false} EntryEventInRange(events: seq<Event>, k: nat)
    ensures match EntryEvent(events, k)
            case None => forall i | 0 <= i < |events| :: events[i].entry != k
            case Some(i) => i < |events| && events[i].entry == k
  {
    if events != [] {
      EntryEventInRange(events[..|events| - 1], k);
    }
  }

  function StakeOf(picks: seq<Pick>, id: Option<string>): int {
    if id.Some? && FindPick(picks, id.value).Some? then FindPick(picks, id.value).value.stake else 0
  }

  predicate AfterReversal(events: seq<Event>, e: Event) {
    e.prior.Some? && e.prior.value < |events| && events[e.prior.value].kind == Reversal
  }

  // The step of the curve at one ledger row.
  function CurveStep(picks: seq<Pick>, ledger: seq<Entry>, events: seq<Event>, k: nat): int
    requires k < |ledger|
  {
    var stake := StakeOf(picks, ledger[k].pick);
    if ledger[k].kind == StakeReserved then stake
    else
      match EntryEvent(events, k)
      case None => 0
      case Some(i) =>
        EntryEventInRange(events, k);
        match events[i].kind
        case Normal => -stake
        case Reversal => stake
        case Correction => if AfterReversal(events, events[i]) then -stake else 0
        case ManualVoid => 0
  }

  function CurveExposure(picks: seq<Pick>, ledger: seq<Entry>, events: seq<Event>, n: nat): int
    requires n <= |ledger|
  {
    if n == 0 then 0
    else CurveExposure(picks, ledger, events, n - 1) + CurveStep(picks, ledger, events, n - 1)
  }

  // Events the curve mistakes: it has no branch for a manual void and reopens a reversal twice.
  predicate Missed(events: seq<Event>, e: Event) {
    e.kind == ManualVoid || (e.kind == Reversal && AfterReversal(events, e))
  }

  function MissedStakes(picks: seq<Pick>, events: seq<Event>): int {
    if events == [] then 0
    else
      var front, e := events[..|events| - 1], events[|events| - 1];
      MissedStakes(picks, front) + if Missed(front, e) then StakeOf(picks, Some(e.pick)) else 0
  }

  ghost predicate CurveAccounted(t: Tables) {
    CurveExposure(t.picks, t.ledger, t.events, |t.ledger|) == SummaryExposure(t) + MissedStakes(t.picks, t.events)
  }

  lemma EventReadStable(events: seq<Event>, e: Event, k: nat)
    requires Chained(events) && e.entry > k
    ensures EntryEvent(events + [e], k) == EntryEvent(events, k)
    ensures EntryEvent(events, k).Some? ==>
              var i := EntryEvent(events, k).value;
              && i < |events| && (events + [e])[i] == events[i]
              && AfterReversal(events + [e], events[i]) == AfterReversal(events, events[i])
  {
    assert (events + [e])[..|events|] == events;
    EntryEventInRange(events, k);
    if EntryEvent(events, k).Some? {
      PriorIsEarlier(events, EntryEvent(events, k).value);
    }
  }

  // A row is read back the same when later rows, picks and events are appended.
  lemma CurveStepStable(t: Tables, u: Tables, k: nat)
    requires LedgerKept(t.picks, t.ledger) && Chained(t.events)
    requires k < |t.ledger| <= |u.ledger| && u.ledger[k] == t.ledger[k]
    requires u.events == t.events || exists e: Event :: e.entry > k && u.events == t.events + [e]
    requires forall id: string :: FindPick(t.picks, id).Some? ==> FindPick(u.picks, id) == FindPick(t.picks, id)
    ensures CurveStep(u.picks, u.ledger, u.events, k) == CurveStep(t.picks, t.ledger, t.events, k)
  {
    assert StakeOf(u.picks, u.ledger[k].pick) == StakeOf(t.picks, t.ledger[k].pick);
    if u.events != t.events {
      var e: Event :| e.entry > k && u.events == t.events + [e];
      EventReadStable(t.events, e, k);
    }
  }

  lemma PriorIsEarlier(events: seq<Event>, i: nat)
    requires Chained(events) && i < |events|
    ensures events[i].prior.Some? ==> events[i].prior.value < i
  {
    assert Linked(events, i);
    LastOfInRange(events[..i], events[i].pick);
  }

  lemma {:induction false} CurvePrefix(t: Tables, u: Tables, n: nat)
    requires LedgerKept(t.picks, t.ledger) && Chained(t.events)
    requires n <= |t.ledger| <= |u.ledger| && u.ledger[..|t.ledger|] == t.ledger
    requires u.events == t.events || exists e: Event :: e.entry >= |t.ledger| && u.events == t.events + [e]
    requires forall id: string :: FindPick(t.picks, id).Some? ==> FindPick(u.picks, id) == FindPick(t.picks, id)
    ensures CurveExposure(u.picks, u.ledger, u.events, n) == CurveExposure(t.picks, t.ledger, t.events, n)
  {
    if n > 0 {
      CurvePrefix(t, u, n - 1);
      assert u.ledger[n - 1] == u.ledger[..|t.ledger|][n - 1];
      CurveStepStable(t, u, n - 1);
    }
  }

  lemma SummaryAfterPost(t: Tables, e: Event, kind: EntryKind)
    requires Valid(t) && Postable(t, e, kind)
    ensures var stake := StakeOf(t.picks, Some(e.pick));
            SummaryExposure(Post(t, e, kind)) == SummaryExposure(t)
              + (if e.grading.Some? then 0 else stake) - if Resolved(t.events, e.pick) then 0 else stake
  {
    var u := Post(t, e, kind);
    PostValid(t, e, kind);
    var event := u.events[|t.events|];
    var p := FindPick(t.picks, e.pick).value;
    FindPickFinds(t.picks, e.pick);
    forall q | q in t.picks && q.id != p.id ensures OpenStake(t.events)(q) == OpenStake(u.events)(q) {
      ResolvedAppend(t.events, event, q.id);
    }
    ResolvedAppend(t.events, event, p.id);
    SumByChange(t.picks, OpenStake(t.events), OpenStake(u.events), p);
  }

  // The effective event of an unresolved pick is missing or a reversal.
  lemma ResolvedByKind(events: seq<Event>, e: Event)
    requires Chained(events) && e.prior == LastOf(events, e.pick)
    ensures Resolved(events, e.pick) <==> e.prior.Some? && !AfterReversal(events, e)
  {
    ResolvedIffLastGraded(events, e.pick);
    LastOfInRange(events, e.pick);
    assert e.prior.Some? ==> Linked(events, e.prior.value);
  }

  // The row of a settlement event moves the curve by its kind alone.
  lemma PostCurveStep(t: Tables, e: Event, kind: EntryKind)
    requires Chained(t.events) && Postable(t, e, kind)
    ensures var u := Post(t, e, kind);
            var stake := StakeOf(t.picks, Some(e.pick));
            CurveStep(u.picks, u.ledger, u.events, |t.ledger|) ==
              match e.kind
              case Normal => -stake
              case Reversal => stake
              case Correction => if AfterReversal(t.events, e) then -stake else 0
              case ManualVoid => 0
  {
    var u := Post(t, e, kind);
    var event := e.(entry := |t.ledger|);
    assert u.events[|t.events|] == event;
    assert EntryEvent(u.events, |t.ledger|) == Some(|t.events|);
    LastOfInRange(t.events, e.pick);
    assert AfterReversal(u.events, event) == AfterReversal(t.events, e);
  }

  lemma PostMissed(t: Tables, e: Event, kind: EntryKind)
    ensures MissedStakes(t.picks, Post(t, e, kind).events)
         == MissedStakes(t.picks, t.events) + if Missed(t.events, e) then StakeOf(t.picks, Some(e.pick)) else 0
  {
    assert Post(t, e, kind).events[..|t.events|] == t.events;
  }

  lemma PostCurve(t: Tables, e: Event, kind: EntryKind)
    requires Valid(t) && CurveAccounted(t) && Postable(t, e, kind)
    ensures CurveAccounted(Post(t, e, kind))
  {
    var u := Post(t, e, kind);
    SummaryAfterPost(t, e, kind);
    ResolvedByKind(t.events, e);
    CurvePrefix(t, u, |t.ledger|);
    PostCurveStep(t, e, kind);
    PostMissed(t, e, kind);
    assert CurveExposure(u.picks, u.ledger, u.events, |u.ledger|)
        == CurveExposure(t.picks, t.ledger, t.events, |t.ledger|) + CurveStep(u.picks, u.ledger, u.events, |t.ledger|);
  }

  lemma FreshPickOpen(picks: seq<Pick>, events: seq<Event>, p: Pick)
    requires forall q | q in picks :: q.id != p.id
    requires forall i | 0 <= i < |events| :: FindPick(picks, events[i].pick).Some?
    ensures SumBy(picks + [p], OpenStake(events)) == SumBy(picks, OpenStake(events)) + p.stake
    ensures FindPick(picks, p.id).None?
  {
    FindPickFinds(picks, p.id);
    assert !Resolved(events, p.id);
    SumByAppend(picks, p, OpenStake(events));
  }

  lemma AdmitCurveExposure(t: Tables, u: Tables, p: Pick, entry: Entry)
    requires LedgerKept(t.picks, t.ledger) && Chained(t.events) && FindPick(t.picks, p.id).None?
    requires entry.kind == StakeReserved && entry.pick == Some(p.id)
    requires u.picks == t.picks + [p] && u.ledger == t.ledger + [entry] && u.events == t.events
    ensures CurveExposure(u.picks, u.ledger, u.events, |u.ledger|)
         == CurveExposure(t.picks, t.ledger, t.events, |t.ledger|) + p.stake
  {
    forall id: string ensures FindPick(u.picks, id) == if p.id == id then Some(p) else FindPick(t.picks, id) {
      FindPickAppend(t.picks, p, id);
    }
    CurvePrefix(t, u, |t.ledger|);
  }

  lemma AdmitCurve(t: Tables, u: Tables, p: Pick, entry: Entry, request: string)
    requires Valid(t) && CurveAccounted(t) && Admits(t, u, p, entry, request)
    ensures CurveAccounted(u)
  {
    FreshPick(t.picks, t.decisions, request);
    FreshPickOpen(t.picks, t.events, p);
    AdmitCurveExposure(t, u, p, entry);
    MissedStakesStable(t.picks, p, t.events);
  }

  lemma {:induction false} MissedStakesStable(picks: seq<Pick>, p: Pick, events: seq<Event>)
    requires forall i | 0 <= i < |events| :: FindPick(picks, events[i].pick).Some?
    requires FindPick(picks, p.id).None?
    ensures MissedStakes(picks + [p], events) == MissedStakes(picks, events)
  {
    if events != [] {
      MissedStakesStable(picks, p, events[..|events| - 1]);
      FindPickAppend(picks, p, events[|events| - 1].pick);
    }
  }

  lemma StepCurve(t: Tables, u: Tables)
    requires Valid(t) && CurveAccounted(t) && Step(t, u)
    ensures CurveAccounted(u)
  {
    if SameRows(t, u) {
    } else if initial :| Funds(t, u, initial) {
      FirstRow(t, u, initial);
      assert CurveExposure(u.picks, u.ledger, u.events, 0) == 0;
    } else if p, entry, request :| Admits(t, u, p, entry, request) {
      AdmitCurve(t, u, p, entry, request);
    } else {
      var e, kind :| Postable(t, e, kind) && u == Post(t, e, kind);
      PostCurve(t, e, kind);
    }
  }

  // Over every history the last point of the curve exceeds the exposure that the summary
  // computes from scratch by exactly the stakes of the missed events.
  lemma {:induction false} CurveRefinesSummary(t: Tables, commands: seq<Command>)
    requires Valid(t) && CurveAccounted(t)
    ensures Valid(Run(t, commands)) && CurveAccounted(Run(t, commands))
    decreases |commands|
  {
    if commands != [] {
      ApplyValid(t, commands[0]);
      ApplySteps(t, commands[0]);
      StepCurve(t, Apply(t, commands[0]));
      CurveRefinesSummary(Apply(t, commands[0]), commands[1..]);
    }
  }

  ghost predicate Reachable(t: Tables) {
    exists commands :: t == Run(EMPTY, commands)
  }

  // On every reachable table.
  lemma ReachableCurve(t: Tables)
    requires Reachable(t)
    ensures Valid(t) && CurveAccounted(t)
  {
    var commands :| t == Run(EMPTY, commands);
    EmptyCurve(EMPTY);
    CurveRefinesSummary(EMPTY, commands);
  }

  lemma EmptyCurve(t: Tables)
    requires t.picks == [] && t.ledger == [] && t.events == []
    ensures Valid(t) && CurveAccounted(t)
  {
    EmptyTables(t);
  }

  // ----- replays -----

  lemma FindActionAppend(actions: seq<Action>, a: Action)
    ensures FindAction(actions + [a], a.request) == Some(a)
  {
  }

  lemma SettleReplay(t: Tables, id: string, result: string, stable: bool, record: FixtureResult)
    ensures var u := Settle(t, id, result, stable, record).0;
            Settle(u, id, result, stable, record).0 == u
  {
    var u := Settle(t, id, result, stable, record).0;
    if u != t {
      InitialEventInRange(u.events, id);
      assert u.events[|t.events|].pick == id && u.events[|t.events|].kind == Normal;
    }
  }

  lemma VoidReplay(t: Tables, id: string, result: string, pst: bool)
    ensures var u := VoidPostponed(t, id, result, pst).0;
            VoidPostponed(u, id, result, pst).0 == u
  {
    var u := VoidPostponed(t, id, result, pst).0;
    if u != t {
      assert u.events[|t.events|] in u.events && u.events[|t.events|].pick == id;
    }
  }

  lemma CorrectReplay(t: Tables, prior: nat, result: string, outcome: Outcome)
    ensures var u := Correct(t, prior, result, outcome).0;
            Correct(u, prior, result, outcome).0 == u
  {
    var u := Correct(t, prior, result, outcome).0;
    if u != t {
      assert u.events[|t.events|].prior == Some(prior);
    }
  }

  lemma ReverseReplay(t: Tables, prior: nat, result: string)
    ensures var u := Reverse(t, prior, result).0;
            Reverse(u, prior, result).0 == u
  {
    var u := Reverse(t, prior, result).0;
    if u != t {
      assert u.events[|t.events|].prior == Some(prior);
    }
  }

  lemma RegisterReplay(t: Tables, r: RegisterRequest)
    ensures var u := Register(t, r).0;
            Register(u, r).0 == u && (u != t ==> Register(u, r).1 == Register(t, r).1)
  {
  }

  lemma SetStateReplay(t: Tables, r: StateRequest)
    ensures var u := SetState(t, r).0;
            SetState(u, r).0 == u && (u != t ==> SetState(u, r).1 == SetState(t, r).1)
  {
    var u := SetState(t, r).0;
    if u != t {
      FindActionAppend(t.actions, u.actions[|t.actions|]);
    }
  }

  // Repeating any command changes nothing.
  lemma ReplayChangesNothing(t: Tables, c: Command)
    ensures Apply(Apply(t, c), c) == Apply(t, c)
  {
    match c {
      case DoBootstrap(initial) =>
      case DoRegister(r) => RegisterReplay(t, r);
      case DoSetState(r) => SetStateReplay(t, r);
      case DoSettle(id, result, stable, record) => SettleReplay(t, id, result, stable, record);
      case DoVoid(id, result, pst) => VoidReplay(t, id, result, pst);
      case DoCorrect(prior, result, outcome) => CorrectReplay(t, prior, result, outcome);
      case DoReverse(prior, result) => ReverseReplay(t, prior, result);
    }
  }
}
