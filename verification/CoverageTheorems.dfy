/** Exclusive claims, the exact fate of a forced retrain, and the failure streak as a history. */
module CoverageTheorems {
  import opened Wrappers
  import opened Coverage

  predicate Pending(scopes: Scopes, scope: nat) {
    scope in scopes && scopes[scope].status == TrainingPending
  }

  predicate Takes(scopes: Scopes, s: Step, scope: nat) {
    s.ClaimTraining? && s.limit > 0 && scope in Selected(scopes, s.now, s.limit, s.locked)
  }

  // The steps that end a pending claim: its own finish or release, the expiry of its lease,
  // and a refresh that changes the policy while the scope is still required.
  predicate EndsClaim(scopes: Scopes, s: Step, scope: nat)
    requires scope in scopes
  {
    match s
    case FinishScope(other, _, _) => other == scope
    case ReleaseScope(other, _, _) => other == scope
    case RecoverClaims(now, lease) => lease > 0 && Abandoned(scopes[scope], now, lease)
    case RefreshInventory(policy, _, required, _) => scope in required && Forced(scopes[scope], policy)
    case ClaimTraining(_, _, _) => false
  }

  // A pending scope is never taken, and stays pending under exactly the other steps.
  lemma PendingEndsExactly(scopes: Scopes, s: Step, scope: nat)
    requires Pending(scopes, scope)
    ensures !Takes(scopes, s, scope)
    ensures scope in Next(scopes, s)
    ensures Next(scopes, s)[scope].status == TrainingPending <==> !EndsClaim(scopes, s, scope)
    ensures !EndsClaim(scopes, s, scope) ==> Next(scopes, s)[scope].attempts == scopes[scope].attempts
                                             && Next(scopes, s)[scope].startedAt == scopes[scope].startedAt
  {
    if s.ClaimTraining? && s.limit > 0 {
      SelectedExact(scopes, s.now, s.limit, s.locked);
    }
  }

  ghost predicate NeverEnded(scopes: Scopes, steps: seq<Step>, scope: nat)
    requires scope in scopes
    decreases |steps|
  {
    steps != [] ==>
      !EndsClaim(scopes, steps[0], scope)
      && (scope in Next(scopes, steps[0]) ==> NeverEnded(Next(scopes, steps[0]), steps[1..], scope))
  }

  ghost predicate TakenIn(scopes: Scopes, steps: seq<Step>, scope: nat)
    decreases |steps|
  {
    steps != [] && (Takes(scopes, steps[0], scope) || TakenIn(Next(scopes, steps[0]), steps[1..], scope))
  }

  // A claimed scope is not claimed again in any run in which nothing ends its claim.
  lemma {:induction false} ClaimsAreExclusive(scopes: Scopes, steps: seq<Step>, scope: nat)
    requires Pending(scopes, scope) && NeverEnded(scopes, steps, scope)
    ensures !TakenIn(scopes, steps, scope) && Pending(Run(scopes, steps), scope)
    decreases |steps|
  {
    if steps != [] {
      PendingEndsExactly(scopes, steps[0], scope);
      ClaimsAreExclusive(Next(scopes, steps[0]), steps[1..], scope);
    }
  }

  // Two claims share no scope, even at one moment and whatever rows the second finds locked.
  lemma SuccessiveClaimsDisjoint(scopes: Scopes, now: int, limit: nat, locked: set<nat>, now': int, limit': nat, locked': set<nat>)
    ensures var claimed := Selected(scopes, now, limit, locked);
            var again := Selected(ClaimScopes(scopes, now, limit, locked), now', limit', locked');
            forall s | s in claimed :: s in scopes && s !in again
  {
    SelectedExact(scopes, now, limit, locked);
    SelectedExact(ClaimScopes(scopes, now, limit, locked), now', limit', locked');
  }

  // A policy change that reaches a pending scope hands it out a second time.
  lemma PolicyChangeReclaims(scopes: Scopes, scope: nat, policy: Policy, now: int, pointers: map<nat, Pointer>)
    requires Pending(scopes, scope) && Forced(scopes[scope], policy)
    ensures var refreshed := Refresh(scopes, policy, now, {scope}, pointers);
            refreshed[scope].status == RetrainRequired && Selected(refreshed, now, 1, {}) == [scope]
  {
    var refreshed := Refresh(scopes, policy, now, {scope}, pointers);
    SelectedExact(refreshed, now, 1, {});
    var open := ClaimableScopes(refreshed, now, {});
    assert Claimable(refreshed[scope], now) && scope in open;
    assert forall s | s in open :: refreshed[s].eligible && s == scope;
    assert open == {scope};
    var selected := Selected(refreshed, now, 1, {});
    assert |selected| == 1 && selected[0] in selected;
  }

  // ----- the fate of a forced retrain -----

  // Every refresh of the run requires the scope, keeps the policy and finds its pointer fresh.
  predicate FreshStep(s: Step, scope: nat, policy: Policy) {
    s.RefreshInventory? ==>
      && s.policy == policy && scope in s.required
      && scope in s.pointers && Fresh(s.pointers[scope], policy, s.now)
  }

  // A further refresh, or a worker that finishes the scope, pending or not.
  predicate Overtakes(s: Step, scope: nat) {
    s.RefreshInventory? || (s.FinishScope? && s.scope == scope)
  }

  predicate Settled(scopes: Scopes, scope: nat, policy: Policy) {
    scope in scopes && scopes[scope].fingerprint == policy.fingerprint
  }

  predicate AwaitsRetrain(scopes: Scopes, scope: nat) {
    scope in scopes && scopes[scope].status == RetrainRequired
  }

  lemma SettledStep(scopes: Scopes, s: Step, scope: nat, policy: Policy)
    requires Settled(scopes, scope, policy) && FreshStep(s, scope, policy)
    ensures Settled(Next(scopes, s), scope, policy)
    ensures AwaitsRetrain(Next(scopes, s), scope) <==>
              AwaitsRetrain(scopes, scope) && !Overtakes(s, scope) && !Takes(scopes, s, scope)
  {
    if s.ClaimTraining? && s.limit > 0 {
      SelectedExact(scopes, s.now, s.limit, s.locked);
    }
  }

  // A forced retrain awaits its claim after exactly the runs that hold neither a further refresh
  // nor a finish of the scope nor the claim itself.
  lemma {:induction false} RetrainSurvivesExactly(scopes: Scopes, steps: seq<Step>, scope: nat, policy: Policy)
    requires Settled(scopes, scope, policy) && forall s | s in steps :: FreshStep(s, scope, policy)
    ensures Settled(Run(scopes, steps), scope, policy)
    ensures AwaitsRetrain(Run(scopes, steps), scope) <==>
              && AwaitsRetrain(scopes, scope)
              && (forall s | s in steps :: !Overtakes(s, scope))
              && !TakenIn(scopes, steps, scope)
    decreases |steps|
  {
    if steps != [] {
      assert steps == [steps[0]] + steps[1..];
      SettledStep(scopes, steps[0], scope, policy);
      RetrainSurvivesExactly(Next(scopes, steps[0]), steps[1..], scope, policy);
    }
  }

  // A refresh that overtakes the retrain leaves the scope active and out of the queue.
  lemma RefreshLosesRetrain(scopes: Scopes, s: Step, scope: nat, policy: Policy, later: int)
    requires Settled(scopes, scope, policy) && AwaitsRetrain(scopes, scope)
    requires s.RefreshInventory? && FreshStep(s, scope, policy)
    ensures var row := Next(scopes, s)[scope];
            row.status == Active && row.nextAttemptAt == None && !Claimable(row, later)
  {
  }

  // When a finished scope may be claimed again: never after an activation, from the retry time
  // after anything else.
  lemma FinishedClaimableExactly(scopes: Scopes, scope: nat, ending: Ending, now: int, later: int)
    requires scope in scopes
    ensures Claimable(Finish(scopes, scope, ending, now)[scope], later) <==>
              scopes[scope].eligible && !ending.Activated? && ending.retryAt <= later
  {
  }

  // A policy change forces the retrain of a scope in training, and the worker that was training
  // it then ends it: the retrain is gone, under the new fingerprint, whatever the ending, and
  // another refresh of that policy does not force it again.
  lemma LateFinishLosesRetrain(scopes: Scopes, scope: nat, refresh: Step, ending: Ending, now: int)
    requires Pending(scopes, scope)
    requires refresh.RefreshInventory? && scope in refresh.required && Forced(scopes[scope], refresh.policy)
    ensures var refreshed := Next(scopes, refresh);
            var row := Next(refreshed, FinishScope(scope, ending, now))[scope];
            && AwaitsRetrain(refreshed, scope) && Settled(refreshed, scope, refresh.policy)
            && !Forced(row, refresh.policy)
            && row.status == (match ending
                              case Activated(_, _, _, _) => Active
                              case Insufficient(_, _, _) => InsufficientData
                              case Failed(_, _, _) => TrainingFailed)
            && forall later :: Claimable(row, later) <==> !ending.Activated? && ending.retryAt <= later
  {
  }

  // A release only ever returns a claim: a pending scope is queued at once, any other row stays.
  lemma ReleaseReturnsClaim(scopes: Scopes, scope: nat, now: int, reason: string)
    ensures var released := Release(scopes, scope, now, reason);
            && !Pending(released, scope)
            && (released != scopes <==> Pending(scopes, scope))
            && (Pending(scopes, scope) && scopes[scope].eligible ==> Claimable(released[scope], now))
            && forall other | other in scopes && other != scope :: other in released && released[other] == scopes[other]
  {
    if Pending(scopes, scope) {
      assert Release(scopes, scope, now, reason)[scope].status == TrainingRequired;
    }
  }

  // ----- from the claim of a retrain to its finish -----

  predicate Finishes(s: Step, scope: nat) {
    s.FinishScope? && s.scope == scope
  }

  // A claim is given back by a release, or by a recovery that finds its lease expired.
  predicate GivesBack(s: Step, scope: nat, startedAt: Option<int>) {
    || (s.ReleaseScope? && s.scope == scope)
    || (s.RecoverClaims? && s.lease > 0 && startedAt.Some? && startedAt.value < s.now - s.lease)
  }

  // Every claim of a scope counts one attempt, so the count names the claim.
  predicate SameClaim(scopes: Scopes, later: Scopes, scope: nat)
    requires scope in scopes
  {
    Pending(later, scope) && later[scope].attempts == scopes[scope].attempts
  }

  lemma AttemptsStep(scopes: Scopes, s: Step, scope: nat)
    requires scope in scopes
    ensures var u := Next(scopes, s);
            && scope in u && u[scope].attempts >= scopes[scope].attempts
            && (!Pending(scopes, scope) && Pending(u, scope) ==> u[scope].attempts > scopes[scope].attempts)
  {
    if s.ClaimTraining? && s.limit > 0 {
      SelectedExact(scopes, s.now, s.limit, s.locked);
    }
  }

  lemma {:induction false} AttemptsGrow(scopes: Scopes, steps: seq<Step>, scope: nat)
    requires scope in scopes
    ensures var u := Run(scopes, steps);
            && scope in u && u[scope].attempts >= scopes[scope].attempts
            && (!Pending(scopes, scope) && Pending(u, scope) ==> u[scope].attempts > scopes[scope].attempts)
    decreases |steps|
  {
    if steps != [] {
      AttemptsStep(scopes, steps[0], scope);
      AttemptsGrow(Next(scopes, steps[0]), steps[1..], scope);
    }
  }

  // Under an unchanged policy a claim is still open, and its worker's finish is the one that ends
  // it, after exactly the runs that hold neither a finish of the scope nor a step that gives it back.
  lemma {:induction false} ClaimReachesFinishExactly(scopes: Scopes, steps: seq<Step>, scope: nat, policy: Policy)
    requires Settled(scopes, scope, policy) && Pending(scopes, scope) && forall s | s in steps :: FreshStep(s, scope, policy)
    ensures SameClaim(scopes, Run(scopes, steps), scope) <==>
              forall s | s in steps :: !Finishes(s, scope) && !GivesBack(s, scope, scopes[scope].startedAt)
    decreases |steps|
  {
    if steps != [] {
      var u := Next(scopes, steps[0]);
      assert steps == [steps[0]] + steps[1..];
      SettledStep(scopes, steps[0], scope, policy);
      PendingEndsExactly(scopes, steps[0], scope);
      AttemptsStep(scopes, steps[0], scope);
      if EndsClaim(scopes, steps[0], scope) {
        AttemptsGrow(u, steps[1..], scope);
      } else {
        ClaimReachesFinishExactly(u, steps[1..], scope, policy);
      }
    }
  }

  // The retrain waits in the queue, as forced or as returned.
  predicate Queued(scopes: Scopes, scope: nat) {
    scope in scopes && (scopes[scope].status == RetrainRequired || scopes[scope].status == TrainingRequired)
  }

  predicate Owed(scopes: Scopes, scope: nat) {
    Queued(scopes, scope) || Pending(scopes, scope)
  }

  lemma OwedStep(scopes: Scopes, s: Step, scope: nat, policy: Policy)
    requires Settled(scopes, scope, policy) && FreshStep(s, scope, policy) && !Finishes(s, scope)
    ensures var u := Next(scopes, s);
            && Settled(u, scope, policy) && u[scope].finishedAt == scopes[scope].finishedAt
            && (Owed(scopes, scope) && !(s.RefreshInventory? && Queued(scopes, scope)) ==> Owed(u, scope))
            && (Owed(scopes, scope) && s.RefreshInventory? && Queued(scopes, scope) ==> u[scope].status == Active)
            && (scopes[scope].status == Active ==> u[scope].status == Active)
  {
    SettledStep(scopes, s, scope, policy);
    if s.ClaimTraining? && s.limit > 0 {
      SelectedExact(scopes, s.now, s.limit, s.locked);
    }
  }

  lemma {:induction false} ActiveStays(scopes: Scopes, steps: seq<Step>, scope: nat, policy: Policy)
    requires Settled(scopes, scope, policy) && scopes[scope].status == Active
    requires forall s | s in steps :: FreshStep(s, scope, policy) && !Finishes(s, scope)
    ensures Settled(Run(scopes, steps), scope, policy) && Run(scopes, steps)[scope].status == Active
    ensures Run(scopes, steps)[scope].finishedAt == scopes[scope].finishedAt
    decreases |steps|
  {
    if steps != [] {
      assert steps == [steps[0]] + steps[1..];
      OwedStep(scopes, steps[0], scope, policy);
      ActiveStays(Next(scopes, steps[0]), steps[1..], scope, policy);
    }
  }

  // No refresh of the run finds the retrain in the queue.
  ghost predicate Spared(scopes: Scopes, steps: seq<Step>, scope: nat) {
    forall i | 0 <= i < |steps| && steps[i].RefreshInventory? :: !Queued(Run(scopes, steps[..i]), scope)
  }

  lemma SparedStep(scopes: Scopes, steps: seq<Step>, scope: nat)
    requires steps != []
    ensures Spared(scopes, steps, scope) <==>
              !(steps[0].RefreshInventory? && Queued(scopes, scope)) && Spared(Next(scopes, steps[0]), steps[1..], scope)
  {
    var u, rest := Next(scopes, steps[0]), steps[1..];
    assert Run(scopes, steps[..0]) == scopes;
    forall i | 0 <= i < |rest| ensures Run(scopes, steps[..i + 1]) == Run(u, rest[..i]) {
      assert steps[..i + 1][1..] == rest[..i];
    }
    if Spared(scopes, steps, scope) {
      forall i | 0 <= i < |rest| && rest[i].RefreshInventory? ensures !Queued(Run(u, rest[..i]), scope) {
        assert steps[i + 1].RefreshInventory?;
      }
    }
    if Spared(u, rest, scope) {
      forall i | 0 < i < |steps| && steps[i].RefreshInventory? ensures !Queued(Run(scopes, steps[..i]), scope) {
        assert rest[i - 1].RefreshInventory?;
      }
    }
  }

  // Until a worker finishes the scope, a retrain stays owed exactly while no refresh finds it in
  // the queue, before its claim or after a claim was given back. Such a refresh makes the scope
  // active for good: never trained, never claimable.
  lemma {:induction false} OwedExactly(scopes: Scopes, steps: seq<Step>, scope: nat, policy: Policy)
    requires Settled(scopes, scope, policy) && Owed(scopes, scope)
    requires forall s | s in steps :: FreshStep(s, scope, policy) && !Finishes(s, scope)
    ensures var u := Run(scopes, steps);
            && (Owed(u, scope) <==> Spared(scopes, steps, scope))
            && scope in u && u[scope].finishedAt == scopes[scope].finishedAt
            && (Owed(u, scope) || (u[scope].status == Active && forall later :: !Claimable(u[scope], later)))
    decreases |steps|
  {
    if steps != [] {
      assert steps == [steps[0]] + steps[1..];
      OwedStep(scopes, steps[0], scope, policy);
      SparedStep(scopes, steps, scope);
      if steps[0].RefreshInventory? && Queued(scopes, scope) {
        ActiveStays(Next(scopes, steps[0]), steps[1..], scope, policy);
      } else {
        OwedExactly(Next(scopes, steps[0]), steps[1..], scope, policy);
      }
    }
  }

  // A claim that is given back and then refreshed is lost without any training.
  lemma ReturnedClaimIsLost(scopes: Scopes, back: Step, refresh: Step, scope: nat, policy: Policy)
    requires Settled(scopes, scope, policy) && Pending(scopes, scope) && GivesBack(back, scope, scopes[scope].startedAt)
    requires refresh.RefreshInventory? && FreshStep(refresh, scope, policy)
    ensures var row := Next(Next(scopes, back), refresh)[scope];
            && row.status == Active && (forall later :: !Claimable(row, later))
            && row.finishedAt == scopes[scope].finishedAt && row.attempts == scopes[scope].attempts
  {
    PendingEndsExactly(scopes, back, scope);
  }

  // One refresh, for any pointer: the retrain stays queued as such exactly when the scope has no
  // pointer or the policy changes again, and leaves the queue exactly when the pointer is fresh.
  lemma RefreshedRetrainExactly(row: Row, policy: Policy, now: int, pointer: Option<Pointer>)
    requires row.status == RetrainRequired && (row.nextAttemptAt.None? || row.nextAttemptAt.value <= now)
    ensures var next := RefreshRow(row, policy, now, pointer);
            && (next.status == RetrainRequired <==> pointer.None? || Forced(row, policy))
            && (!Claimable(next, now) <==> pointer.Some? && Fresh(pointer.value, policy, now) && !Forced(row, policy))
  {
  }

  // A policy change queues every required scope, whatever it was doing, except one that is
  // still missing, which is queued for its first training.
  lemma PolicyChangeQueues(scopes: Scopes, scope: nat, policy: Policy, now: int, required: set<nat>, pointers: map<nat, Pointer>)
    requires scope in scopes && scope in required && Forced(scopes[scope], policy)
    ensures var row := Refresh(scopes, policy, now, required, pointers)[scope];
            && Claimable(row, now)
            && row.status == (if scopes[scope].status == Missing && scope !in pointers then TrainingRequired else RetrainRequired)
            && !Forced(row, policy)
  {
  }

  // ----- the failure streak -----

  // The counted failures of a scope since its last activation or policy change.
  function Counted(failures: seq<nat>, scopes: Scopes, s: Step, scope: nat): seq<nat> {
    if scope !in scopes then []
    else if s.FinishScope? && s.scope == scope then
      match s.ending
      case Activated(_, _, _, _) => []
      case Insufficient(_, _, _) => failures
      case Failed(dataset, _, _) => if dataset.Some? then failures + [dataset.value] else failures
    else if s.RefreshInventory? && scope in s.required && scopes[scope].fingerprint != s.policy.fingerprint then []
    else failures
  }

  function CountedRun(failures: seq<nat>, scopes: Scopes, steps: seq<Step>, scope: nat): seq<nat>
    decreases |steps|
  {
    if steps == [] then failures
    else CountedRun(Counted(failures, scopes, steps[0], scope), Next(scopes, steps[0]), steps[1..], scope)
  }

  // k is the length of the longest suffix of equal digests.
  ghost predicate LongestSuffix(failures: seq<nat>, k: nat) {
    && k <= |failures|
    && (forall i | |failures| - k <= i < |failures| :: failures[i] == failures[|failures| - 1])
    && (k < |failures| ==> failures[|failures| - k - 1] != failures[|failures| - 1])
    && (failures != [] ==> k > 0)
  }

  ghost predicate Refines(scopes: Scopes, scope: nat, failures: seq<nat>) {
    if scope !in scopes then failures == []
    else
      && LongestSuffix(failures, scopes[scope].failureStreak)
      && scopes[scope].failedDataset == (if failures == [] then None else Some(failures[|failures| - 1]))
  }

  lemma SuffixGrows(failures: seq<nat>, k: nat, digest: nat)
    requires LongestSuffix(failures, k)
    ensures LongestSuffix(failures + [digest], if failures != [] && failures[|failures| - 1] == digest then k + 1 else 1)
  {
  }

  lemma StreakStep(scopes: Scopes, s: Step, scope: nat, failures: seq<nat>)
    requires Refines(scopes, scope, failures)
    ensures Refines(Next(scopes, s), scope, Counted(failures, scopes, s, scope))
  {
    if s.FinishScope? && s.scope == scope && scope in scopes && s.ending.Failed? && s.ending.dataset.Some? {
      SuffixGrows(failures, scopes[scope].failureStreak, s.ending.dataset.value);
    }
  }

  // After any run the stored streak is the length of the longest run of equal digests at the
  // end of the counted failures since the last activation or policy change.
  lemma {:induction false} StreakRefinesHistory(scopes: Scopes, steps: seq<Step>, scope: nat, failures: seq<nat>)
    requires Refines(scopes, scope, failures)
    ensures Refines(Run(scopes, steps), scope, CountedRun(failures, scopes, steps, scope))
    decreases |steps|
  {
    if steps != [] {
      StreakStep(scopes, steps[0], scope, failures);
      StreakRefinesHistory(Next(scopes, steps[0]), steps[1..], scope, Counted(failures, scopes, steps[0], scope));
    }
  }
}
