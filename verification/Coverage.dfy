/** The model-coverage scheduler: one row per training scope, refreshed, claimed, finished and recovered. */
module Coverage {
  import opened Wrappers
  import opened Sorting
  import opened PrimaryKeys

  datatype Status = Active | Missing | TrainingRequired | TrainingPending | InsufficientData
                  | TrainingFailed | Stale | RetrainRequired

  // Scope identifiers are ordered like (league, season).
  datatype Row = Row(status: Status, eligible: bool, firstRequiredAt: int, updatedAt: int, nextAttemptAt: Option<int>,
                     startedAt: Option<int>, finishedAt: Option<int>, attempts: nat, accepted: Option<nat>,
                     fitted: Option<nat>, lastError: Option<string>, model: Option<nat>, generation: Option<nat>,
                     fingerprint: nat, failedDataset: Option<nat>, failureStreak: nat)

  datatype PolicyRow = PolicyRow(fingerprint: nat, previousTrainer: nat, freshness: int)

  // previousTrainer is the fingerprint of the same policy under the previous trainer version.
  type Policy = p: PolicyRow | p.freshness > 0
    witness PolicyRow(1, 0, 14)

  // The active model of a scope.
  datatype Pointer = Pointer(model: nat, generation: nat, activatedAt: int)

  type Scopes = map<nat, Row>

  datatype CoverageError = LeaseNotPositive | LimitNotPositive

  // ----- refresh -----

  function Discovered(now: int, policy: Policy): Row {
    Row(Missing, true, now, now, Some(now), None, None, 0, None, None, None, None, None, policy.fingerprint, None, 0)
  }

  predicate Fresh(p: Pointer, policy: Policy, now: int) {
    p.activatedAt >= now - policy.freshness
  }

  // A change of policy other than the version-only rollout from the previous trainer.
  predicate Forced(row: Row, policy: Policy) {
    row.fingerprint != policy.fingerprint && row.fingerprint != policy.previousTrainer
  }

  predicate FollowsPointer(s: Status) {
    s != TrainingFailed && s != InsufficientData && s != TrainingPending
  }

  // The status of one required row after a refresh: a forced retrain first, then the pointer,
  // then a schedule for a scope that has neither.
  function RefreshedStatus(row: Row, policy: Policy, now: int, pointer: Option<Pointer>): Status {
    var follows := pointer.Some? && FollowsPointer(row.status);
    if row.status == Missing && !follows then TrainingRequired
    else if Forced(row, policy) then RetrainRequired
    else if follows then (if Fresh(pointer.value, policy, now) then Active else Stale)
    else row.status
  }

  function RefreshedAttempt(row: Row, policy: Policy, now: int, pointer: Option<Pointer>): Option<int> {
    var follows := pointer.Some? && FollowsPointer(row.status);
    if (row.status == Missing && !follows) || Forced(row, policy) then Some(now)
    else if follows then (if Fresh(pointer.value, policy, now) then None else Some(now))
    else row.nextAttemptAt
  }

  function RefreshRow(row: Row, policy: Policy, now: int, pointer: Option<Pointer>): Row {
    var follows := pointer.Some? && FollowsPointer(row.status);
    var reset := row.fingerprint != policy.fingerprint;
    row.(status := RefreshedStatus(row, policy, now, pointer),
         eligible := true,
         updatedAt := now,
         nextAttemptAt := RefreshedAttempt(row, policy, now, pointer),
         model := if follows then Some(pointer.value.model) else row.model,
         generation := if follows then Some(pointer.value.generation) else row.generation,
         fingerprint := policy.fingerprint,
         failedDataset := if reset then None else row.failedDataset,
         failureStreak := if reset then 0 else row.failureStreak)
  }

  function PointerOf(pointers: map<nat, Pointer>, scope: nat): Option<Pointer> {
    if scope in pointers then Some(pointers[scope]) else None
  }

  function RefreshScope(scopes: Scopes, scope: nat, policy: Policy, now: int, required: set<nat>,
                        pointers: map<nat, Pointer>): Row
    requires scope in scopes || scope in required
  {
    if scope in required then
      RefreshRow(if scope in scopes then scopes[scope] else Discovered(now, policy), policy, now, PointerOf(pointers, scope))
    else scopes[scope].(eligible := false)
  }

  function Refresh(scopes: Scopes, policy: Policy, now: int, required: set<nat>, pointers: map<nat, Pointer>): Scopes {
    map scope | scope in scopes.Keys + required :: RefreshScope(scopes, scope, policy, now, required, pointers)
  }

  // ----- claiming and ending a claim -----

  predicate Claimable(row: Row, now: int) {
    && row.eligible
    && (row.status == TrainingRequired || row.status == RetrainRequired || row.status == Stale
        || row.status == TrainingFailed || row.status == InsufficientData)
    && (row.nextAttemptAt.None? || row.nextAttemptAt.value <= now)
  }

  function ClaimableScopes(scopes: Scopes, now: int, locked: set<nat>): set<nat> {
    set scope | scope in scopes && Claimable(scopes[scope], now) && scope !in locked
  }

  function RequiredAt(scopes: Scopes, scope: nat): int {
    if scope in scopes then scopes[scope].firstRequiredAt else 0
  }

  function RequiredFirst(scopes: Scopes): (nat, nat) -> bool {
    (a: nat, b: nat) => RequiredAt(scopes, a) < RequiredAt(scopes, b)
                        || (RequiredAt(scopes, a) == RequiredAt(scopes, b) && a < b)
  }

  // The rows a claim takes; locked rows are skipped.
  function Selected(scopes: Scopes, now: int, limit: nat, locked: set<nat>): seq<nat> {
    FirstBy(ClaimableScopes(scopes, now, locked), RequiredFirst(scopes), limit)
  }

  function ClaimRow(row: Row, now: int): Row {
    row.(status := TrainingPending, startedAt := Some(now), updatedAt := now, attempts := row.attempts + 1,
         lastError := None)
  }

  function ClaimScopes(scopes: Scopes, now: int, limit: nat, locked: set<nat>): Scopes {
    var selected := Selected(scopes, now, limit, locked);
    map scope | scope in scopes :: if scope in selected then ClaimRow(scopes[scope], now) else scopes[scope]
  }

  predicate Abandoned(row: Row, now: int, lease: int) {
    row.status == TrainingPending && row.startedAt.Some? && row.startedAt.value < now - lease
  }

  const ABANDONED := "AbandonedTrainingClaim"

  function Requeued(row: Row, now: int, error: string): Row {
    row.(status := TrainingRequired, nextAttemptAt := Some(now), updatedAt := now, lastError := Some(error))
  }

  function Recover(scopes: Scopes, now: int, lease: int): Scopes {
    map scope | scope in scopes ::
      if Abandoned(scopes[scope], now, lease) then Requeued(scopes[scope], now, ABANDONED) else scopes[scope]
  }

  function Release(scopes: Scopes, scope: nat, now: int, reason: string): Scopes {
    if scope in scopes && scopes[scope].status == TrainingPending then scopes[scope := Requeued(scopes[scope], now, reason)]
    else scopes
  }

  // How a training attempt ends. A failure carries the dataset digest only when it counts.
  datatype Ending =
    | Activated(model: nat, generation: nat, accepted: nat, fitted: nat)
    | Insufficient(accepted: nat, retryAt: int, error: string)
    | Failed(dataset: Option<nat>, retryAt: int, error: string)

  function FinishRow(row: Row, e: Ending, now: int): Row {
    var done := row.(updatedAt := now, finishedAt := Some(now));
    match e
    case Activated(model, generation, accepted, fitted) =>
      done.(status := Active, nextAttemptAt := None, accepted := Some(accepted), fitted := Some(fitted), lastError := None,
            model := Some(model), generation := Some(generation), failedDataset := None, failureStreak := 0)
    case Insufficient(accepted, retryAt, error) =>
      done.(status := InsufficientData, nextAttemptAt := Some(retryAt), accepted := Some(accepted), fitted := None,
            lastError := Some(error))
    case Failed(dataset, retryAt, error) =>
      done.(status := TrainingFailed, nextAttemptAt := Some(retryAt), accepted := None, fitted := None,
            lastError := Some(error),
            failedDataset := if dataset.Some? then dataset else row.failedDataset,
            failureStreak := if dataset.None? then row.failureStreak
                             else if row.failedDataset == dataset then row.failureStreak + 1 else 1)
  }

  // The update has no status guard: a late worker also finishes a scope that is no longer pending.
  function Finish(scopes: Scopes, scope: nat, e: Ending, now: int): Scopes {
    if scope in scopes then scopes[scope := FinishRow(scopes[scope], e, now)] else scopes
  }

  // ----- runs -----

  datatype Step =
    | RefreshInventory(policy: Policy, now: int, required: set<nat>, pointers: map<nat, Pointer>)
    | RecoverClaims(now: int, lease: int)
    | ClaimTraining(now: int, limit: int, locked: set<nat>)
    | ReleaseScope(scope: nat, now: int, reason: string)
    | FinishScope(scope: nat, ending: Ending, now: int)

  function Next(scopes: Scopes, s: Step): Scopes {
    match s
    case RefreshInventory(policy, now, required, pointers) => Refresh(scopes, policy, now, required, pointers)
    case RecoverClaims(now, lease) => if lease <= 0 then scopes else Recover(scopes, now, lease)
    case ClaimTraining(now, limit, locked) => if limit <= 0 then scopes else ClaimScopes(scopes, now, limit, locked)
    case ReleaseScope(scope, now, reason) => Release(scopes, scope, now, reason)
    case FinishScope(scope, ending, now) => Finish(scopes, scope, ending, now)
  }

  function Run(scopes: Scopes, steps: seq<Step>): Scopes
    decreases |steps|
  {
    if steps == [] then scopes else Run(Next(scopes, steps[0]), steps[1..])
  }

  // ----- the repository -----

  // The pointer update of a refresh over the rows left eligible.
  function Follow(row: Row, policy: Policy, now: int, pointer: Option<Pointer>): Row {
    if !FollowsPointer(row.status) || pointer.None? then row
    else
      var recent := pointer.value.activatedAt >= now - policy.freshness;
      row.(status := if recent then Active else Stale, model := Some(pointer.value.model),
           generation := Some(pointer.value.generation), nextAttemptAt := if recent then None else Some(now),
           updatedAt := now)
  }

  // The closing update of a refresh over the rows left eligible.
  function Schedule(row: Row, policy: Policy, now: int): Row {
    row.(status := if row.status == Missing then TrainingRequired
                   else if Forced(row, policy) then RetrainRequired else row.status,
         nextAttemptAt := if row.status == Missing || Forced(row, policy) then Some(now) else row.nextAttemptAt,
         failedDataset := if row.fingerprint != policy.fingerprint then None else row.failedDataset,
         failureStreak := if row.fingerprint != policy.fingerprint then 0 else row.failureStreak,
         fingerprint := policy.fingerprint,
         updatedAt := now)
  }

  // Eligibility is cleared, then every required scope is inserted or made eligible again.
  function Discover(scopes: Scopes, policy: Policy, now: int, required: set<nat>): Scopes {
    map scope | scope in scopes.Keys + required ::
      if scope !in required then scopes[scope].(eligible := false)
      else if scope in scopes then scopes[scope].(eligible := true, updatedAt := now)
      else Discovered(now, policy)
  }

  function FollowAll(scopes: Scopes, policy: Policy, now: int, pointers: map<nat, Pointer>): Scopes {
    map scope | scope in scopes ::
      if scopes[scope].eligible then Follow(scopes[scope], policy, now, PointerOf(pointers, scope)) else scopes[scope]
  }

  function ScheduleAll(scopes: Scopes, policy: Policy, now: int): Scopes {
    map scope | scope in scopes ::
      if scopes[scope].eligible then Schedule(scopes[scope], policy, now) else scopes[scope]
  }

  // The passes of a refresh, one after the other, come to the combined update of each row.
  lemma StagesRefresh(row: Row, policy: Policy, now: int, pointer: Option<Pointer>)
    ensures Schedule(Follow(row.(eligible := true, updatedAt := now), policy, now, pointer), policy, now)
            == RefreshRow(row, policy, now, pointer)
    ensures Follow(row.(eligible := true, updatedAt := now), policy, now, pointer).eligible
  {
  }

  lemma PassesRefresh(scopes: Scopes, policy: Policy, now: int, required: set<nat>, pointers: map<nat, Pointer>)
    ensures ScheduleAll(FollowAll(Discover(scopes, policy, now, required), policy, now, pointers), policy, now)
            == Refresh(scopes, policy, now, required, pointers)
  {
    var found := Discover(scopes, policy, now, required);
    var followed := FollowAll(found, policy, now, pointers);
    var scheduled := ScheduleAll(followed, policy, now);
    forall scope | scope in scopes.Keys + required
      ensures scheduled[scope] == RefreshScope(scopes, scope, policy, now, required, pointers)
    {
      if scope in required {
        var row := if scope in scopes then scopes[scope] else Discovered(now, policy);
        assert found[scope] == row.(eligible := true, updatedAt := now);
        StagesRefresh(row, policy, now, PointerOf(pointers, scope));
      }
    }
  }

  // ----- what a refresh does, in field comparisons -----

  // The policy changed by more than the version of its trainer.
  ghost predicate PolicyChanged(row: Row, policy: Policy) {
    row.fingerprint != policy.fingerprint && row.fingerprint != policy.previousTrainer
  }

  // The row keeps its own schedule: a failure, too little data, or a worker on it.
  ghost predicate KeepsSchedule(row: Row) {
    row.status == TrainingFailed || row.status == InsufficientData || row.status == TrainingPending
  }

  ghost predicate DueNow(row: Row, status: Status, now: int) {
    row.status == status && row.nextAttemptAt == Some(now)
  }

  // A required scope after a refresh: a missing one without a pointer is queued for training, a
  // policy change forces a retrain, a pointer no older than the freshness makes it active and an
  // older one stale, and anything else stays as it was.
  ghost predicate RefreshedRow(row: Row, next: Row, policy: Policy, now: int, pointer: Option<Pointer>) {
    && next.eligible && next.updatedAt == now && next.fingerprint == policy.fingerprint
    && (if row.status == Missing && pointer.None? then DueNow(next, TrainingRequired, now)
        else if PolicyChanged(row, policy) then DueNow(next, RetrainRequired, now)
        else if pointer.Some? && !KeepsSchedule(row) then
          if pointer.value.activatedAt >= now - policy.freshness then next.status == Active && next.nextAttemptAt == None
          else DueNow(next, Stale, now)
        else next.status == row.status && next.nextAttemptAt == row.nextAttemptAt)
    && (if pointer.Some? && !KeepsSchedule(row)
        then next.model == Some(pointer.value.model) && next.generation == Some(pointer.value.generation)
        else next.model == row.model && next.generation == row.generation)
    && (if row.fingerprint == policy.fingerprint
        then next.failedDataset == row.failedDataset && next.failureStreak == row.failureStreak
        else next.failedDataset == None && next.failureStreak == 0)
    && next.firstRequiredAt == row.firstRequiredAt && next.startedAt == row.startedAt && next.finishedAt == row.finishedAt
    && next.attempts == row.attempts && next.accepted == row.accepted && next.fitted == row.fitted && next.lastError == row.lastError
  }

  // A scope that the table did not hold.
  ghost predicate NewRow(row: Row, policy: Policy, now: int) {
    && row.status == Missing && row.firstRequiredAt == now && row.fingerprint == policy.fingerprint
    && row.startedAt == None && row.finishedAt == None && row.attempts == 0 && row.accepted == None && row.fitted == None
    && row.lastError == None && row.model == None && row.generation == None && row.failedDataset == None && row.failureStreak == 0
  }

  ghost predicate RefreshedScope(scopes: Scopes, u: Scopes, scope: nat, policy: Policy, now: int, required: set<nat>,
                                 pointers: map<nat, Pointer>) {
    && (scope in u <==> scope in scopes || scope in required)
    && (scope in scopes && scope !in required && scope in u ==> u[scope] == scopes[scope].(eligible := false))
    && (scope in required && scope in scopes && scope in u ==>
          RefreshedRow(scopes[scope], u[scope], policy, now, if scope in pointers then Some(pointers[scope]) else None))
    && (scope in required && scope !in scopes && scope in u ==>
          exists row :: NewRow(row, policy, now) && RefreshedRow(row, u[scope], policy, now, if scope in pointers then Some(pointers[scope]) else None))
  }

  ghost predicate Refreshed(scopes: Scopes, u: Scopes, policy: Policy, now: int, required: set<nat>, pointers: map<nat, Pointer>) {
    forall scope :: RefreshedScope(scopes, u, scope, policy, now, required, pointers)
  }

  lemma RefreshRowExactly(row: Row, policy: Policy, now: int, pointer: Option<Pointer>)
    ensures RefreshedRow(row, RefreshRow(row, policy, now, pointer), policy, now, pointer)
  {
  }

  lemma RefreshExactly(scopes: Scopes, policy: Policy, now: int, required: set<nat>, pointers: map<nat, Pointer>)
    ensures Refreshed(scopes, Refresh(scopes, policy, now, required, pointers), policy, now, required, pointers)
  {
    var u := Refresh(scopes, policy, now, required, pointers);
    forall scope ensures RefreshedScope(scopes, u, scope, policy, now, required, pointers) {
      if scope in required {
        var row := if scope in scopes then scopes[scope] else Discovered(now, policy);
        RefreshRowExactly(row, policy, now, PointerOf(pointers, scope));
        assert RefreshedRow(row, u[scope], policy, now, PointerOf(pointers, scope));
        assert scope !in scopes ==> NewRow(row, policy, now);
      }
    }
  }

  // ----- what claims and recoveries do, in field comparisons -----

  // A row may be claimed: it is required, its status asks for training, and its time has come.
  ghost predicate Open(scopes: Scopes, scope: nat, now: int) {
    && scope in scopes && scopes[scope].eligible
    && scopes[scope].status in {TrainingRequired, RetrainRequired, Stale, TrainingFailed, InsufficientData}
    && (scopes[scope].nextAttemptAt.None? || scopes[scope].nextAttemptAt.value <= now)
  }

  // A claim marks the scopes it takes, and takes as many open and unlocked ones as the limit
  // allows, none of them required later than one it leaves.
  ghost predicate Claims(scopes: Scopes, u: Scopes, taken: seq<nat>, now: int, limit: nat, locked: set<nat>) {
    && Distinct(taken) && |taken| <= limit && u.Keys == scopes.Keys
    && (forall s | s in taken :: Open(scopes, s, now) && s !in locked)
    && (forall s | s in scopes ::
          u[s] == if s in taken then scopes[s].(status := TrainingPending, startedAt := Some(now), updatedAt := now,
                                                attempts := scopes[s].attempts + 1, lastError := None)
                  else scopes[s])
    && (forall s | Open(scopes, s, now) && s !in locked && s !in taken ::
          |taken| == limit && forall t | t in taken && t in scopes :: scopes[t].firstRequiredAt <= scopes[s].firstRequiredAt)
  }

  lemma ClaimExactly(scopes: Scopes, now: int, limit: nat, locked: set<nat>)
    ensures Claims(scopes, ClaimScopes(scopes, now, limit, locked), Selected(scopes, now, limit, locked), now, limit, locked)
  {
    var taken, open := Selected(scopes, now, limit, locked), ClaimableScopes(scopes, now, locked);
    SelectedExact(scopes, now, limit, locked);
    forall s ensures s in open <==> Open(scopes, s, now) && s !in locked {}
    forall s | Open(scopes, s, now) && s !in locked && s !in taken
      ensures |taken| == limit && forall t | t in taken && t in scopes :: scopes[t].firstRequiredAt <= scopes[s].firstRequiredAt
    {
      MissedMeansFull(taken, open, s, limit);
      forall t | t in taken && t in scopes ensures scopes[t].firstRequiredAt <= scopes[s].firstRequiredAt {
        assert RequiredAt(scopes, t) <= RequiredAt(scopes, s);
      }
    }
  }

  // A recovery queues exactly the claims that began more than a lease ago.
  lemma RecoverExactly(scopes: Scopes, now: int, lease: int, scope: nat)
    requires scope in scopes
    ensures var u, row := Recover(scopes, now, lease), scopes[scope];
            && u.Keys == scopes.Keys
            && (row.status == TrainingPending && row.startedAt.Some? && row.startedAt.value < now - lease ==>
                  u[scope] == row.(status := TrainingRequired, nextAttemptAt := Some(now), updatedAt := now,
                                   lastError := Some("AbandonedTrainingClaim")))
            && (row.status != TrainingPending || row.startedAt.None? || row.startedAt.value >= now - lease ==> u[scope] == row)
  {
  }

  // A release gives a pending scope back to the queue at once and touches nothing else.
  lemma ReleaseExactly(scopes: Scopes, scope: nat, now: int, reason: string)
    ensures var u := Release(scopes, scope, now, reason);
            && (scope in scopes && scopes[scope].status == TrainingPending ==>
                  u == scopes[scope := scopes[scope].(status := TrainingRequired, nextAttemptAt := Some(now), updatedAt := now,
                                                      lastError := Some(reason))])
            && (scope !in scopes || scopes[scope].status != TrainingPending ==> u == scopes)
  {
  }

  // What a finish records of the attempt: the model and its sizes of an activation, the retry time
  // and the error of anything else.
  lemma FinishExactly(scopes: Scopes, scope: nat, e: Ending, now: int)
    requires scope in scopes
    ensures var u, row := Finish(scopes, scope, e, now), scopes[scope];
            && u.Keys == scopes.Keys && (forall s | s in scopes && s != scope :: u[s] == scopes[s])
            && u[scope].finishedAt == Some(now) && u[scope].updatedAt == now
            && u[scope].attempts == row.attempts && u[scope].eligible == row.eligible && u[scope].fingerprint == row.fingerprint
            && (e.Activated? ==>
                  && u[scope].status == Active && u[scope].nextAttemptAt == None && u[scope].lastError == None
                  && u[scope].model == Some(e.model) && u[scope].generation == Some(e.generation)
                  && u[scope].accepted == Some(e.accepted) && u[scope].fitted == Some(e.fitted))
            && (e.Insufficient? ==>
                  && u[scope].status == InsufficientData && u[scope].nextAttemptAt == Some(e.retryAt) && u[scope].lastError == Some(e.error)
                  && u[scope].accepted == Some(e.accepted) && u[scope].fitted == None)
            && (e.Failed? ==>
                  && u[scope].status == TrainingFailed && u[scope].nextAttemptAt == Some(e.retryAt) && u[scope].lastError == Some(e.error)
                  && u[scope].accepted == None && u[scope].fitted == None)
            && (!e.Activated? ==> u[scope].model == row.model && u[scope].generation == row.generation)
  {
  }

  class Repository {
    var rows: Scopes

    constructor ()
      ensures rows == map[]
    {
      rows := map[];
    }

    // Three table-wide passes.
    method RefreshInventory(policy: Policy, now: int, required: set<nat>, pointers: map<nat, Pointer>) returns (count: nat)
      modifies this
      ensures rows == Refresh(old(rows), policy, now, required, pointers) && count == |required|
      ensures Refreshed(old(rows), rows, policy, now, required, pointers)
    {
      RefreshExactly(rows, policy, now, required, pointers);
      PassesRefresh(rows, policy, now, required, pointers);
      rows := Discover(rows, policy, now, required);
      rows := FollowAll(rows, policy, now, pointers);
      rows := ScheduleAll(rows, policy, now);
      count := |required|;
    }

    method RecoverAbandonedClaims(now: int, lease: int) returns (answer: Result<nat, CoverageError>)
      modifies this
      ensures lease <= 0 ==> answer == Err(LeaseNotPositive) && rows == old(rows)
      ensures lease > 0 ==> rows == Recover(old(rows), now, lease)
                            && answer == Ok(|set scope | scope in old(rows) && Abandoned(old(rows)[scope], now, lease)|)
    {
      if lease <= 0 {
        return Err(LeaseNotPositive);
      }
      var abandoned := set scope | scope in rows && Abandoned(rows[scope], now, lease);
      rows := map scope | scope in rows :: if scope in abandoned then Requeued(rows[scope], now, ABANDONED) else rows[scope];
      return Ok(|abandoned|);
    }

    method ClaimTrainingScopes(now: int, limit: int, locked: set<nat>) returns (answer: Result<seq<nat>, CoverageError>)
      modifies this
      ensures limit <= 0 ==> answer == Err(LimitNotPositive) && rows == old(rows)
      ensures limit > 0 ==> answer == Ok(Selected(old(rows), now, limit, locked))
                            && rows == ClaimScopes(old(rows), now, limit, locked)
      ensures limit > 0 ==> Claims(old(rows), rows, answer.value, now, limit, locked)
    {
      if limit <= 0 {
        return Err(LimitNotPositive);
      }
      var selected := Selected(rows, now, limit, locked);
      ClaimExactly(rows, now, limit, locked);
      rows := map scope | scope in rows :: if scope in selected then ClaimRow(rows[scope], now) else rows[scope];
      return Ok(selected);
    }

    method ReleasePending(scope: nat, now: int, reason: string)
      modifies this
      ensures rows == Release(old(rows), scope, now, reason)
    {
      if scope in rows && rows[scope].status == TrainingPending {
        rows := rows[scope := Requeued(rows[scope], now, reason)];
      }
    }

    method FinishTraining(scope: nat, ending: Ending, now: int)
      modifies this
      ensures rows == Finish(old(rows), scope, ending, now)
    {
      if scope in rows {
        rows := rows[scope := FinishRow(rows[scope], ending, now)];
      }
    }

    method HasPending(now: int) returns (pending: bool)
      ensures pending <==> Selected(rows, now, 1, {}) != []
    {
      pending := exists scope | scope in rows :: Claimable(rows[scope], now);
      SelectedExact(rows, now, 1, {});
      var claimable := ClaimableScopes(rows, now, {});
      assert pending <==> claimable != {} by {
        if pending {
          var scope :| scope in rows && Claimable(rows[scope], now);
          assert scope in claimable;
        }
      }
    }
  }

  // A claim takes claimable and unlocked scopes, each once, the longest required first.
  lemma SelectedExact(scopes: Scopes, now: int, limit: nat, locked: set<nat>)
    ensures var open := ClaimableScopes(scopes, now, locked);
            var selected := Selected(scopes, now, limit, locked);
            && Distinct(selected) && (forall s | s in selected :: s in open)
            && |selected| == (if |open| <= limit then |open| else limit)
            && (forall s, t | s in selected && t in open && t !in selected :: RequiredAt(scopes, s) <= RequiredAt(scopes, t))
  {
    FirstByExact(ClaimableScopes(scopes, now, locked), RequiredFirst(scopes), limit);
  }
}
