/** Daily request budgets: the shared categorized one and the in-memory one. */
module Budget {
  import opened Wrappers

  datatype Category = Discovery | ModelTraining | OpportunityOdds | ResultsMonitoring | QuantlabContext | Unauthorized

  datatype LimitsRow = LimitsRow(daily: int, reserve: int, training: int, operational: int)

  function Effective(l: LimitsRow): int {
    l.daily - l.reserve
  }

  // What the constructor accepts.
  type Limits = l: LimitsRow | l.daily >= 1 && 0 <= l.reserve < l.daily && 1 <= l.training <= Effective(l)
                               && 0 <= l.operational < Effective(l)
    witness LimitsRow(1, 0, 1, 0)

  // provider_request_usage: one counter for each day and category.
  type Usage = map<(int, Category), nat>

  datatype BudgetError = NotAuthorized | DailyExhausted | TrainingExhausted | OperationalReserved

  function Count(u: Usage, day: int, c: Category): nat {
    if (day, c) in u then u[(day, c)] else 0
  }

  // The sum over the rows of a day; no row is ever written for an unauthorized category.
  function Total(u: Usage, day: int): nat {
    Count(u, day, Discovery) + Count(u, day, ModelTraining) + Count(u, day, OpportunityOdds)
    + Count(u, day, ResultsMonitoring) + Count(u, day, QuantlabContext)
  }

  function Acquire(u: Usage, l: Limits, day: int, c: Category): (Usage, Result<(), BudgetError>) {
    if c == Unauthorized then (u, Err(NotAuthorized))
    else if Total(u, day) >= Effective(l) then (u, Err(DailyExhausted))
    else if c == ModelTraining && Count(u, day, c) >= l.training then (u, Err(TrainingExhausted))
    else if c == ModelTraining && Total(u, day) >= Effective(l) - l.operational then (u, Err(OperationalReserved))
    else (u[(day, c) := Count(u, day, c) + 1], Ok(()))
  }

  // A call is granted exactly to an authorized category while the day stands below its effective
  // limit and, for training, below the training limit and the share kept for operations; it then
  // adds one to its own counter.
  lemma AcquireExactly(u: Usage, l: Limits, day: int, c: Category)
    ensures var (v, answer) := Acquire(u, l, day, c);
            var used := Count(u, day, Discovery) + Count(u, day, ModelTraining) + Count(u, day, OpportunityOdds)
                        + Count(u, day, ResultsMonitoring) + Count(u, day, QuantlabContext);
            && (answer.Ok? <==> c != Unauthorized && used < l.daily - l.reserve
                                && (c == ModelTraining ==> Count(u, day, c) < l.training && used < l.daily - l.reserve - l.operational))
            && (answer.Err? ==> v == u)
            && (answer.Ok? ==> forall d, k :: Count(v, d, k) == Count(u, d, k) + if d == day && k == c then 1 else 0)
            && (answer == Err(NotAuthorized) <==> c == Unauthorized)
            && (answer == Err(DailyExhausted) <==> c != Unauthorized && used >= l.daily - l.reserve)
            && (answer == Err(TrainingExhausted) <==>
                 c == ModelTraining && used < l.daily - l.reserve && Count(u, day, c) >= l.training)
  {
  }

  // ----- runs of calls, from any number of clients -----

  datatype Call = Call(day: int, category: Category)

  function Run(u: Usage, l: Limits, calls: seq<Call>): Usage {
    if calls == [] then u
    else Acquire(Run(u, l, calls[..|calls| - 1]), l, calls[|calls| - 1].day, calls[|calls| - 1].category).0
  }

  predicate Granted(l: Limits, calls: seq<Call>, i: nat)
    requires i < |calls|
  {
    Acquire(Run(map[], l, calls[..i]), l, calls[i].day, calls[i].category).1.Ok?
  }

  // How many of the first n calls succeeded on a day, of all kinds or of the training kind.
  function Successes(l: Limits, calls: seq<Call>, n: nat, day: int): nat
    requires n <= |calls|
  {
    if n == 0 then 0
    else Successes(l, calls, n - 1, day) + if calls[n - 1].day == day && Granted(l, calls, n - 1) then 1 else 0
  }

  function TrainingSuccesses(l: Limits, calls: seq<Call>, n: nat, day: int): nat
    requires n <= |calls|
  {
    if n == 0 then 0
    else
      TrainingSuccesses(l, calls, n - 1, day)
      + if calls[n - 1] == Call(day, ModelTraining) && Granted(l, calls, n - 1) then 1 else 0
  }

  ghost predicate Within(u: Usage, l: Limits, day: int) {
    && Total(u, day) <= Effective(l)
    && Count(u, day, ModelTraining) <= l.training
    && Count(u, day, ModelTraining) <= Effective(l) - l.operational
  }

  lemma AcquireKeeps(u: Usage, l: Limits, day: int, c: Category, other: int)
    requires Within(u, l, other)
    ensures var (v, answer) := Acquire(u, l, day, c);
            && Within(v, l, other)
            && Total(v, other) == Total(u, other) + (if answer.Ok? && other == day then 1 else 0)
            && Count(v, other, ModelTraining)
               == Count(u, other, ModelTraining) + (if answer.Ok? && other == day && c == ModelTraining then 1 else 0)
  {
    AcquireExactly(u, l, day, c);
  }

  // The counters of a day are the calls that succeeded on it, and stay within the limits.
  lemma {:induction false} CountersExact(l: Limits, calls: seq<Call>, n: nat, day: int)
    requires n <= |calls|
    ensures var u := Run(map[], l, calls[..n]);
            && Total(u, day) == Successes(l, calls, n, day)
            && Count(u, day, ModelTraining) == TrainingSuccesses(l, calls, n, day)
            && Within(u, l, day)
  {
    if n > 0 {
      CountersExact(l, calls, n - 1, day);
      assert calls[..n][..n - 1] == calls[..n - 1];
      AcquireKeeps(Run(map[], l, calls[..n - 1]), l, calls[n - 1].day, calls[n - 1].category, day);
    }
  }

  // On every day of every run: successes never exceed the effective limit, training never
  // exceeds its own limit nor cuts into the operational reserve, and an authorized call of
  // another kind is refused only once that reserve has gone to calls of other kinds.
  lemma ReservedCapacity(l: Limits, calls: seq<Call>, n: nat, day: int)
    requires n <= |calls|
    ensures Successes(l, calls, n, day) <= Effective(l)
    ensures TrainingSuccesses(l, calls, n, day) <= l.training
    ensures TrainingSuccesses(l, calls, n, day) <= Effective(l) - l.operational
    ensures n < |calls| && !Granted(l, calls, n) && calls[n].day == day
            && calls[n].category != ModelTraining && calls[n].category != Unauthorized ==>
              Successes(l, calls, n, day) == Effective(l)
              && Successes(l, calls, n, day) - TrainingSuccesses(l, calls, n, day) >= l.operational
  {
    CountersExact(l, calls, n, day);
  }

  class SharedBudget {
    const limits: Limits
    var usage: Usage

    constructor (limits: Limits)
      ensures this.limits == limits && usage == map[]
    {
      this.limits := limits;
      usage := map[];
    }

    method AcquireCall(day: int, category: Category) returns (answer: Result<(), BudgetError>)
      modifies this
      ensures (usage, answer) == Acquire(old(usage), limits, day, category)
    {
      if category == Unauthorized {
        return Err(NotAuthorized);
      }
      var total := Total(usage, day);
      if total >= Effective(limits) {
        return Err(DailyExhausted);
      }
      if category == ModelTraining {
        if Count(usage, day, category) >= limits.training {
          return Err(TrainingExhausted);
        }
        if total >= Effective(limits) - limits.operational {
          return Err(OperationalReserved);
        }
      }
      usage := usage[(day, category) := Count(usage, day, category) + 1];
      return Ok(());
    }

    method Remaining(day: int) returns (remaining: int)
      ensures remaining >= 0 && (remaining == 0 <==> Total(usage, day) >= Effective(limits))
      ensures Total(usage, day) <= Effective(limits) ==> remaining + Total(usage, day) == Effective(limits)
    {
      var left := Effective(limits) - Total(usage, day);
      remaining := if left > 0 then left else 0;
    }
  }

  // ----- the in-memory budget -----

  // Any access reads the clock and starts over when its day differs from the stored one.
  datatype Access = Access(day: int, acquires: bool)

  datatype Memory = Memory(day: int, used: nat)

  function Reset(m: Memory, day: int): Memory {
    if m.day == day then m else Memory(day, 0)
  }

  function AfterAccess(m: Memory, limit: int, a: Access): (Memory, bool) {
    var r := Reset(m, a.day);
    if a.acquires && r.used < limit then (r.(used := r.used + 1), true) else (r, false)
  }

  class DailyBudget {
    const limit: int
    var day: int
    var used: nat

    function State(): Memory
      reads this
    {
      Memory(day, used)
    }

    constructor (daily: int, reserve: int, today: int)
      requires daily >= 1 && 0 <= reserve < daily
      ensures limit == daily - reserve && State() == Memory(today, 0)
    {
      limit := daily - reserve;
      day, used := today, 0;
    }

    method ResetIfNeeded(today: int)
      modifies this
      ensures State() == Reset(old(State()), today)
    {
      if today != day {
        day, used := today, 0;
      }
    }

    method AcquireCall(today: int) returns (answer: Result<(), BudgetError>)
      modifies this
      ensures (State(), answer.Ok?) == AfterAccess(old(State()), limit, Access(today, true))
    {
      ResetIfNeeded(today);
      if used >= limit {
        return Err(DailyExhausted);
      }
      used := used + 1;
      return Ok(());
    }

    method RemainingToday(today: int) returns (remaining: int)
      modifies this
      ensures State() == AfterAccess(old(State()), limit, Access(today, false)).0
      ensures remaining == limit - used
    {
      ResetIfNeeded(today);
      remaining := limit - used;
    }
  }

  function MemoryAfter(m: Memory, limit: int, accesses: seq<Access>, n: nat): Memory
    requires n <= |accesses|
  {
    if n == 0 then m else AfterAccess(MemoryAfter(m, limit, accesses, n - 1), limit, accesses[n - 1]).0
  }

  // The calls granted on a day among the first n accesses.
  function GrantedOn(m: Memory, limit: int, accesses: seq<Access>, n: nat, day: int): nat
    requires n <= |accesses|
  {
    if n == 0 then 0
    else
      GrantedOn(m, limit, accesses, n - 1, day)
      + if accesses[n - 1].day == day && AfterAccess(MemoryAfter(m, limit, accesses, n - 1), limit, accesses[n - 1]).1
        then 1 else 0
  }

  // The clock leaves a day between two calls on it.
  ghost predicate Revisits(accesses: seq<Access>) {
    exists i, j, k :: Revisit(accesses, i, j, k)
  }

  ghost predicate Revisit(accesses: seq<Access>, i: int, j: int, k: int) {
    && 0 <= i < j < k < |accesses|
    && accesses[i].acquires && accesses[k].acquires
    && accesses[i].day == accesses[k].day != accesses[j].day
  }

  ghost predicate Bounded(today: int, limit: int, accesses: seq<Access>) {
    forall n: nat, day: int | n <= |accesses| :: GrantedOn(Memory(today, 0), limit, accesses, n, day) <= limit
  }

  lemma {:induction false} UsedIsGranted(today: int, limit: int, accesses: seq<Access>, n: nat, day: int)
    requires n <= |accesses|
    ensures var m := Memory(today, 0);
            MemoryAfter(m, limit, accesses, n).day == day ==>
              GrantedOn(m, limit, accesses, n, day) >= MemoryAfter(m, limit, accesses, n).used
  {
    if n > 0 {
      UsedIsGranted(today, limit, accesses, n - 1, day);
    }
  }

  // Without a revisit, what was granted on the stored day is what is counted, and every day is bounded.
  lemma {:induction false} NoRevisitBounds(today: int, limit: int, accesses: seq<Access>, n: nat, day: int)
    requires n <= |accesses| && limit >= 1 && !Revisits(accesses)
    ensures var m := Memory(today, 0);
            var after := MemoryAfter(m, limit, accesses, n);
            && GrantedOn(m, limit, accesses, n, day) <= limit && after.used <= limit
            && (after.day == day ==> GrantedOn(m, limit, accesses, n, day) == after.used
                                     || forall k | n <= k < |accesses| && accesses[k].day == day :: !accesses[k].acquires)
  {
    if n > 0 {
      NoRevisitBounds(today, limit, accesses, n - 1, day);
      var before := MemoryAfter(Memory(today, 0), limit, accesses, n - 1);
      if before.day != day && accesses[n - 1].day == day && GrantedOn(Memory(today, 0), limit, accesses, n - 1, day) > 0 {
        GrantedEarlier(today, limit, accesses, n - 1, day);
        var i :| 0 <= i < n - 1 && accesses[i] == Access(day, true);
        LeftSince(today, limit, accesses, n - 1, day, i);
        var j :| i < j < n - 1 && accesses[j].day != day;
        forall k | n - 1 <= k < |accesses| && accesses[k].day == day ensures !accesses[k].acquires {
          assert !Revisit(accesses, i, j, k);
        }
      }
    }
  }

  lemma {:induction false} GrantedEarlier(today: int, limit: int, accesses: seq<Access>, n: nat, day: int)
    requires n <= |accesses| && GrantedOn(Memory(today, 0), limit, accesses, n, day) > 0
    ensures exists i :: 0 <= i < n && accesses[i] == Access(day, true)
  {
    if accesses[n - 1] != Access(day, true) {
      GrantedEarlier(today, limit, accesses, n - 1, day);
    }
  }

  // The stored day is the day of the last access.
  lemma LeftSince(today: int, limit: int, accesses: seq<Access>, n: nat, day: int, i: nat)
    requires i < n <= |accesses| && accesses[i].day == day
    requires MemoryAfter(Memory(today, 0), limit, accesses, n).day != day
    ensures exists j :: i < j < n && accesses[j].day != day
  {
    assert accesses[n - 1].day != day;
  }

  // From a fresh count of a day, the next call on it is granted.
  lemma {:induction false} GrantedAgain(today: int, accesses: seq<Access>, n: nat, k: nat, day: int)
    requires n <= k < |accesses| && accesses[k] == Access(day, true)
    requires var after := MemoryAfter(Memory(today, 0), 1, accesses, n); after.day != day || after.used == 0
    ensures GrantedOn(Memory(today, 0), 1, accesses, k + 1, day) > GrantedOn(Memory(today, 0), 1, accesses, n, day)
    decreases k - n
  {
    if n < k {
      if accesses[n] == Access(day, true) {
        GrantedMonotone(today, accesses, n + 1, k + 1, day);
      } else {
        GrantedAgain(today, accesses, n + 1, k, day);
      }
    }
  }

  lemma {:induction false} GrantedMonotone(today: int, accesses: seq<Access>, n: nat, k: nat, day: int)
    requires n <= k <= |accesses|
    ensures GrantedOn(Memory(today, 0), 1, accesses, n, day) <= GrantedOn(Memory(today, 0), 1, accesses, k, day)
  {
    if n < k {
      GrantedMonotone(today, accesses, n, k - 1, day);
    }
  }

  lemma RevisitExceeds(today: int, accesses: seq<Access>, i: nat, j: nat, k: nat)
    requires Revisit(accesses, i, j, k)
    ensures GrantedOn(Memory(today, 0), 1, accesses, k + 1, accesses[i].day) > 1
  {
    var day := accesses[i].day;
    UsedIsGranted(today, 1, accesses, i, day);
    GrantedMonotone(today, accesses, i + 1, j + 1, day);
    GrantedAgain(today, accesses, j + 1, k, day);
  }

  // The in-memory budget keeps its daily bound, for every limit, exactly when the clock never
  // comes back to a day between two calls on it.
  lemma MemoryBoundExactly(today: int, accesses: seq<Access>)
    ensures (forall limit | limit >= 1 :: Bounded(today, limit, accesses)) <==> !Revisits(accesses)
  {
    if Revisits(accesses) {
      var i, j, k :| Revisit(accesses, i, j, k);
      RevisitExceeds(today, accesses, i, j, k);
      assert !Bounded(today, 1, accesses);
    } else {
      forall limit | limit >= 1 ensures Bounded(today, limit, accesses) {
        forall n: nat, day: int | n <= |accesses|
          ensures GrantedOn(Memory(today, 0), limit, accesses, n, day) <= limit
        {
          NoRevisitBounds(today, limit, accesses, n, day);
        }
      }
    }
  }
}
