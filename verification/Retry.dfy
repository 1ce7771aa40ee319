/** One logical provider request: bounded retry over the budgeted transport. */
module Retry {
  import opened Wrappers
  import opened Budget

  // Times are in milliseconds.
  datatype PolicyRow = PolicyRow(maxAttempts: int, backoff: int, maxBackoff: int)

  type Policy = p: PolicyRow | p.maxAttempts >= 1 && p.backoff >= 0 && p.maxBackoff >= 0
    witness PolicyRow(3, 0, 30000)

  // The wiring of the API-Football client.
  const API_FOOTBALL: Policy := PolicyRow(2, 1000, 30000)

  datatype Reply = Success(body: string) | RateLimited(retryAfter: Option<int>) | BadResponse | Timeout | OtherTransportError

  predicate Retryable(r: Reply) {
    r.RateLimited? || r.Timeout? || r.OtherTransportError?
  }

  datatype Outcome = Body(body: string) | Failed(reply: Reply) | Shutdown | BudgetExceeded(error: BudgetError)

  datatype Event = StopSeen | Refused | Charged(day: int) | Called(reply: Reply) | Slept(time: int)

  // What each attempt will meet: a shutdown, the clock's day, the provider's reply.
  datatype World = World(stops: nat -> bool, days: nat -> int, replies: nat -> Reply)

  function PowerOfTwo(n: nat): nat {
    if n == 0 then 1 else 2 * PowerOfTwo(n - 1)
  }

  function Greater(a: int, b: int): int {
    if a < b then b else a
  }

  function Lesser(a: int, b: int): int {
    if b < a then b else a
  }

  function Delay(p: Policy, attempt: nat, r: Reply): int {
    var backoff := p.backoff * PowerOfTwo(attempt);
    var wanted := if r.RateLimited? && r.retryAfter.Some? then Greater(backoff, r.retryAfter.value) else backoff;
    Lesser(wanted, p.maxBackoff)
  }

  // The request from one attempt on: its outcome, its trace and the usage it leaves.
  datatype Exchange = Done(outcome: Outcome, trace: seq<Event>, usage: Usage)

  function From(p: Policy, l: Limits, w: World, c: Category, u: Usage, attempt: nat, last: Option<Reply>): Exchange
    requires attempt <= p.maxAttempts && (attempt == p.maxAttempts ==> last.Some?)
    decreases p.maxAttempts - attempt
  {
    if attempt == p.maxAttempts then Done(Failed(last.value), [], u)
    else if w.stops(attempt) then Done(if last.Some? then Failed(last.value) else Shutdown, [StopSeen], u)
    else
      var (v, answer) := Acquire(u, l, w.days(attempt), c);
      if answer.Err? then Done(BudgetExceeded(answer.error), [Refused], u)
      else
        var reply := w.replies(attempt);
        var called := [Charged(w.days(attempt)), Called(reply)];
        if reply.Success? then Done(Body(reply.body), called, v)
        else if reply.BadResponse? then Done(Failed(reply), called, v)
        else
          var slept := if attempt + 1 < p.maxAttempts then [Slept(Delay(p, attempt, reply))] else [];
          var rest := From(p, l, w, c, v, attempt + 1, Some(reply));
          rest.(trace := called + slept + rest.trace)
  }

  // ----- counting -----

  function Charges(trace: seq<Event>): nat {
    if trace == [] then 0 else (if trace[0].Charged? then 1 else 0) + Charges(trace[1..])
  }

  function ChargesOn(trace: seq<Event>, day: int): nat {
    if trace == [] then 0 else (if trace[0] == Charged(day) then 1 else 0) + ChargesOn(trace[1..], day)
  }

  function Calls(trace: seq<Event>): nat {
    if trace == [] then 0 else (if trace[0].Called? then 1 else 0) + Calls(trace[1..])
  }

  function TimeSlept(trace: seq<Event>): int {
    if trace == [] then 0 else (if trace[0].Slept? then trace[0].time else 0) + TimeSlept(trace[1..])
  }

  lemma {:induction false} CountsConcat(a: seq<Event>, b: seq<Event>, day: int)
    ensures Charges(a + b) == Charges(a) + Charges(b) && ChargesOn(a + b, day) == ChargesOn(a, day) + ChargesOn(b, day)
    ensures Calls(a + b) == Calls(a) + Calls(b) && TimeSlept(a + b) == TimeSlept(a) + TimeSlept(b)
  {
    if a == [] {
      assert a + b == b;
    } else {
      CountsConcat(a[1..], b, day);
      assert (a + b)[0] == a[0] && (a + b)[1..] == a[1..] + b;
    }
  }

  lemma CalledCounts(day: int, reply: Reply, slept: seq<Event>, other: int)
    requires slept == [] || (|slept| == 1 && slept[0].Slept?)
    ensures var head := [Charged(day), Called(reply)] + slept;
            && Charges(head) == 1 && Calls(head) == 1
            && ChargesOn(head, other) == (if day == other then 1 else 0)
            && TimeSlept(head) == if slept == [] then 0 else slept[0].time
  {
    var pair: seq<Event> := [Charged(day), Called(reply)];
    CountsConcat(pair, slept, other);
    assert pair[1..] == [Called(reply)] && pair[1..][1..] == [];
    if slept != [] {
      assert slept[1..] == [];
    }
  }

  // ----- the trace is disciplined -----

  // A call is charged right before; a sleep follows a retryable call and another attempt
  // follows it; any other event but a charge ends the request.
  ghost predicate Disciplined(trace: seq<Event>, p: Policy) {
    forall i | 0 <= i < |trace| :: EventInPlace(trace, i, p)
  }

  ghost predicate EventInPlace(trace: seq<Event>, i: int, p: Policy)
    requires 0 <= i < |trace|
  {
    match trace[i]
    case StopSeen => i == |trace| - 1
    case Refused => i == |trace| - 1
    case Charged(_) => i + 1 < |trace| && trace[i + 1].Called?
    case Called(reply) => i > 0 && trace[i - 1].Charged? && (!Retryable(reply) ==> i == |trace| - 1)
    case Slept(time) =>
      && 0 <= time <= p.maxBackoff
      && i > 0 && trace[i - 1].Called? && Retryable(trace[i - 1].reply)
      && i + 1 < |trace| && !trace[i + 1].Slept? && !trace[i + 1].Called?
  }

  lemma DelayBounded(p: Policy, attempt: nat, reply: Reply)
    ensures 0 <= Delay(p, attempt, reply) <= p.maxBackoff
  {
    PowerOfTwoPositive(attempt);
  }

  lemma {:induction false} PowerOfTwoPositive(n: nat)
    ensures PowerOfTwo(n) > 0
  {
    if n > 0 {
      PowerOfTwoPositive(n - 1);
    }
  }

  lemma AttemptCounts(day: int, reply: Reply, slept: seq<Event>, rest: seq<Event>, other: int)
    requires slept == [] || (|slept| == 1 && slept[0].Slept?)
    ensures ChargesOn([Charged(day), Called(reply)] + slept + rest, other) == (if day == other then 1 else 0) + ChargesOn(rest, other)
  {
    CalledCounts(day, reply, slept, other);
    CountsConcat([Charged(day), Called(reply)] + slept, rest, other);
  }

  lemma DisciplinedConcat(day: int, reply: Reply, slept: seq<Event>, rest: seq<Event>, p: Policy)
    requires Disciplined(rest, p) && (rest != [] ==> !rest[0].Slept? && !rest[0].Called?)
    requires Retryable(reply) || (rest == [] && slept == [])
    requires slept == [] || (rest != [] && |slept| == 1 && slept[0].Slept? && 0 <= slept[0].time <= p.maxBackoff)
    ensures Disciplined([Charged(day), Called(reply)] + slept + rest, p)
  {
    var head := [Charged(day), Called(reply)] + slept;
    var trace := head + rest;
    forall i | 0 <= i < |trace| ensures EventInPlace(trace, i, p) {
      if i >= |head| {
        assert trace[i] == rest[i - |head|] && EventInPlace(rest, i - |head|, p);
      }
    }
  }

  ghost predicate Opens(trace: seq<Event>) {
    trace != [] ==> !trace[0].Slept? && !trace[0].Called?
  }

  // What the trace of the remaining attempts satisfies.
  ghost predicate Bounds(p: Policy, attempt: nat, trace: seq<Event>) {
    && Disciplined(trace, p) && Opens(trace)
    && Charges(trace) == Calls(trace) <= p.maxAttempts - attempt
    && 0 <= TimeSlept(trace)
    && TimeSlept(trace) <= Greater(0, p.maxAttempts - attempt - 1) * p.maxBackoff
    && (attempt < p.maxAttempts ==> trace != [])
  }

  lemma BoundsGrow(p: Policy, attempt: nat, day: int, reply: Reply, rest: seq<Event>)
    requires attempt < p.maxAttempts && Retryable(reply) && Bounds(p, attempt + 1, rest)
    ensures var slept := if attempt + 1 < p.maxAttempts then [Slept(Delay(p, attempt, reply))] else [];
            Bounds(p, attempt, [Charged(day), Called(reply)] + slept + rest)
  {
    var slept := if attempt + 1 < p.maxAttempts then [Slept(Delay(p, attempt, reply))] else [];
    var head := [Charged(day), Called(reply)] + slept;
    DelayBounded(p, attempt, reply);
    DisciplinedConcat(day, reply, slept, rest, p);
    CalledCounts(day, reply, slept, day);
    CountsConcat(head, rest, day);
    var k := p.maxAttempts - attempt - 1;
    if k > 0 {
      OneMore(k, p.maxBackoff);
    }
  }

  lemma OneMore(k: int, m: int)
    ensures k * m == m + (k - 1) * m
  {
  }

  lemma BoundsOne(p: Policy, attempt: nat, trace: seq<Event>, day: int, reply: Reply)
    requires attempt < p.maxAttempts
    requires trace == [StopSeen] || trace == [Refused] || trace == [Charged(day), Called(reply)]
    ensures Bounds(p, attempt, trace)
  {
    if trace == [Charged(day), Called(reply)] {
      CalledCounts(day, reply, [], day);
      assert trace + [] == trace;
    } else {
      assert trace[1..] == [];
    }
    NonNegative(Greater(0, p.maxAttempts - attempt - 1), p.maxBackoff);
  }

  lemma NonNegative(k: int, m: int)
    requires k >= 0 && m >= 0
    ensures k * m >= 0
  {
  }

  // From any attempt on: calls and charges pair up and are bounded, sleeps are bounded, and
  // nothing follows an answer that is not retryable, a refusal or a shutdown.
  lemma {:induction false} FromBounded(p: Policy, l: Limits, w: World, c: Category, u: Usage, attempt: nat, last: Option<Reply>)
    requires attempt <= p.maxAttempts && (attempt == p.maxAttempts ==> last.Some?)
    ensures Bounds(p, attempt, From(p, l, w, c, u, attempt, last).trace)
    decreases p.maxAttempts - attempt
  {
    if attempt < p.maxAttempts {
      var (v, answer) := Acquire(u, l, w.days(attempt), c);
      var reply := w.replies(attempt);
      if !w.stops(attempt) && answer.Ok? && Retryable(reply) {
        FromBounded(p, l, w, c, v, attempt + 1, Some(reply));
        BoundsGrow(p, attempt, w.days(attempt), reply, From(p, l, w, c, v, attempt + 1, Some(reply)).trace);
      } else {
        BoundsOne(p, attempt, From(p, l, w, c, u, attempt, last).trace, w.days(attempt), reply);
      }
    }
  }

  // The usage of each day grows by exactly the charges of the trace, and keeps its limits.
  lemma {:induction false} FromCharges(p: Policy, l: Limits, w: World, c: Category, u: Usage, attempt: nat,
                                       last: Option<Reply>, day: int)
    requires attempt <= p.maxAttempts && (attempt == p.maxAttempts ==> last.Some?)
    requires Within(u, l, day)
    ensures ChargesFollow(u, l, From(p, l, w, c, u, attempt, last), day)
    decreases p.maxAttempts - attempt
  {
    if attempt < p.maxAttempts && !w.stops(attempt) {
      var (v, answer) := Acquire(u, l, w.days(attempt), c);
      AcquireKeeps(u, l, w.days(attempt), c, day);
      if answer.Ok? {
        ChargedOnce(p, l, w, c, u, v, attempt, last, day);
      }
    }
  }

  lemma AttemptCharges(p: Policy, l: Limits, w: World, c: Category, u: Usage, v: Usage, attempt: nat, last: Option<Reply>)
    requires attempt < p.maxAttempts && !w.stops(attempt)
    requires Acquire(u, l, w.days(attempt), c) == (v, Ok(()))
    ensures var reply := w.replies(attempt);
            var slept := if attempt + 1 < p.maxAttempts then [Slept(Delay(p, attempt, reply))] else [];
            var pair := [Charged(w.days(attempt)), Called(reply)];
            var done := From(p, l, w, c, u, attempt, last);
            if Retryable(reply) then
              var rest := From(p, l, w, c, v, attempt + 1, Some(reply));
              done == rest.(trace := pair + slept + rest.trace)
            else done.trace == pair && done.usage == v
  {
  }

  // The usage of the day grew from u by exactly the charges of the trace, and kept its limits.
  ghost predicate ChargesFollow(u: Usage, l: Limits, done: Exchange, day: int) {
    Within(done.usage, l, day) && Total(done.usage, day) == Total(u, day) + ChargesOn(done.trace, day)
  }

  lemma ChargesCompose(u: Usage, v: Usage, l: Limits, done: Exchange, rest: Exchange, at: int, reply: Reply, slept: seq<Event>,
                       day: int)
    requires slept == [] || (|slept| == 1 && slept[0].Slept?)
    requires ChargesFollow(v, l, rest, day) && Total(v, day) == Total(u, day) + (if at == day then 1 else 0)
    requires done.usage == rest.usage && done.trace == [Charged(at), Called(reply)] + slept + rest.trace
    ensures ChargesFollow(u, l, done, day)
  {
    AttemptCounts(at, reply, slept, rest.trace, day);
  }

  lemma {:induction false} ChargedOnce(p: Policy, l: Limits, w: World, c: Category, u: Usage, v: Usage, attempt: nat,
                                       last: Option<Reply>, day: int)
    requires attempt < p.maxAttempts && !w.stops(attempt)
    requires Acquire(u, l, w.days(attempt), c) == (v, Ok(()))
    requires Within(v, l, day) && Total(v, day) == Total(u, day) + (if w.days(attempt) == day then 1 else 0)
    ensures ChargesFollow(u, l, From(p, l, w, c, u, attempt, last), day)
    decreases p.maxAttempts - attempt, 0
  {
    var reply, done := w.replies(attempt), From(p, l, w, c, u, attempt, last);
    AttemptCharges(p, l, w, c, u, v, attempt, last);
    if Retryable(reply) {
      var slept := if attempt + 1 < p.maxAttempts then [Slept(Delay(p, attempt, reply))] else [];
      FromCharges(p, l, w, c, v, attempt + 1, Some(reply), day);
      ChargesCompose(u, v, l, done, From(p, l, w, c, v, attempt + 1, Some(reply)), w.days(attempt), reply, slept, day);
    } else {
      assert [Charged(w.days(attempt)), Called(reply)] + [] + [] == [Charged(w.days(attempt)), Called(reply)];
      ChargesCompose(u, v, l, done, done.(trace := []), w.days(attempt), reply, [], day);
    }
  }

  function Request(p: Policy, l: Limits, w: World, c: Category, u: Usage): Exchange {
    From(p, l, w, c, u, 0, None)
  }

  // One logical request.
  lemma RequestBounded(p: Policy, l: Limits, w: World, c: Category, u: Usage, day: int)
    requires Within(u, l, day)
    ensures var done := Request(p, l, w, c, u);
            && Charges(done.trace) == Calls(done.trace) <= p.maxAttempts
            && 0 <= TimeSlept(done.trace) <= (p.maxAttempts - 1) * p.maxBackoff
            && Disciplined(done.trace, p)
            && Total(done.usage, day) == Total(u, day) + ChargesOn(done.trace, day)
            && Within(done.usage, l, day)
  {
    FromBounded(p, l, w, c, u, 0, None);
    FromCharges(p, l, w, c, u, 0, None, day);
  }

  // The wired client makes at most two calls and sleeps at most half a minute for one request.
  lemma ApiFootballBounded(l: Limits, w: World, c: Category, u: Usage)
    ensures var done := Request(API_FOOTBALL, l, w, c, u);
            Charges(done.trace) == Calls(done.trace) <= 2 && 0 <= TimeSlept(done.trace) <= 30000
  {
    FromBounded(API_FOOTBALL, l, w, c, u, 0, None);
  }

  // ----- the transport -----

  class RetryingTransport {
    const policy: Policy
    const budget: SharedBudget

    constructor (policy: Policy, budget: SharedBudget)
      ensures this.policy == policy && this.budget == budget
    {
      this.policy := policy;
      this.budget := budget;
    }

    method GetJson(w: World, category: Category) returns (outcome: Outcome, trace: seq<Event>)
      modifies budget
      ensures Done(outcome, trace, budget.usage) == Request(policy, budget.limits, w, category, old(budget.usage))
    {
      ghost var start := budget.usage;
      var last: Option<Reply> := None;
      trace := [];
      for attempt := 0 to policy.maxAttempts
        invariant attempt > 0 ==> last.Some?
        invariant var rest := From(policy, budget.limits, w, category, budget.usage, attempt, last);
                  Request(policy, budget.limits, w, category, start) == rest.(trace := trace + rest.trace)
      {
        if w.stops(attempt) {
          trace := trace + [StopSeen];
          return if last.Some? then Failed(last.value) else Shutdown, trace;
        }
        var charge := budget.AcquireCall(w.days(attempt), category);
        if charge.Err? {
          trace := trace + [Refused];
          return BudgetExceeded(charge.error), trace;
        }
        var reply := w.replies(attempt);
        var before := trace;
        trace := trace + [Charged(w.days(attempt)), Called(reply)];
        if reply.Success? {
          return Body(reply.body), trace;
        }
        if reply.BadResponse? {
          return Failed(reply), trace;
        }
        last := Some(reply);
        var slept: seq<Event> := [];
        if attempt + 1 < policy.maxAttempts {
          slept := [Slept(Delay(policy, attempt, reply))];
          trace := trace + slept;
        }
        Regroup(before, [Charged(w.days(attempt)), Called(reply)], slept,
                From(policy, budget.limits, w, category, budget.usage, attempt + 1, last).trace);
        assert trace == before + [Charged(w.days(attempt)), Called(reply)] + slept;
      }
      assert trace + [] == trace;
      return Failed(last.value), trace;
    }
  }

  lemma Regroup(a: seq<Event>, b: seq<Event>, c: seq<Event>, d: seq<Event>)
    ensures a + (b + c + d) == (a + b + c) + d
  {
  }

  // ----- the rules of a request, in terms of what it meets -----

  // The wait doubles with each attempt, is at least what a rate limit asks for, and at most the
  // policy's greatest.
  ghost predicate Waits(p: Policy, attempt: nat, reply: Reply, time: int) {
    var doubled := p.backoff * PowerOfTwo(attempt);
    var asked := if reply.RateLimited? && reply.retryAfter.Some? && reply.retryAfter.value > doubled then reply.retryAfter.value else doubled;
    time == if asked > p.maxBackoff then p.maxBackoff else asked
  }

  // The events of attempt k stand at 3k, 3k + 1 and 3k + 2: a shutdown, a refusal or a charge on
  // the day of the clock; the reply of the provider; the wait for another attempt.
  ghost predicate EventAt(p: Policy, w: World, attempt: nat, k: nat, part: nat, e: Event) {
    if part == 0 then (if w.stops(attempt + k) then e == StopSeen else e == Refused || e == Charged(w.days(attempt + k)))
    else if part == 1 then e == Called(w.replies(attempt + k))
    else e.Slept? && Waits(p, attempt + k, w.replies(attempt + k), e.time)
         && (w.replies(attempt + k).RateLimited? || w.replies(attempt + k).Timeout? || w.replies(attempt + k).OtherTransportError?)
  }

  ghost predicate Follows(p: Policy, w: World, attempt: nat, trace: seq<Event>) {
    forall i | 0 <= i < |trace| :: EventAt(p, w, attempt, i / 3, i % 3, trace[i])
  }

  lemma {:induction false} TraceExactly(p: Policy, l: Limits, w: World, c: Category, u: Usage, attempt: nat, last: Option<Reply>)
    requires attempt <= p.maxAttempts && (attempt == p.maxAttempts ==> last.Some?)
    ensures Follows(p, w, attempt, From(p, l, w, c, u, attempt, last).trace)
    decreases p.maxAttempts - attempt
  {
    if attempt < p.maxAttempts && !w.stops(attempt) {
      var (v, answer) := Acquire(u, l, w.days(attempt), c);
      var reply := w.replies(attempt);
      if answer.Ok? && Retryable(reply) && attempt + 1 < p.maxAttempts {
        var rest := From(p, l, w, c, v, attempt + 1, Some(reply)).trace;
        TraceExactly(p, l, w, c, v, attempt + 1, Some(reply));
        FollowsOn(p, w, attempt, reply, rest);
      } else if answer.Ok? && Retryable(reply) {
        assert From(p, l, w, c, v, attempt + 1, Some(reply)).trace == [];
      }
    }
  }

  lemma FollowsOn(p: Policy, w: World, attempt: nat, reply: Reply, rest: seq<Event>)
    requires reply == w.replies(attempt) && Retryable(reply) && !w.stops(attempt) && Follows(p, w, attempt + 1, rest)
    ensures Follows(p, w, attempt, [Charged(w.days(attempt)), Called(reply)] + [Slept(Delay(p, attempt, reply))] + rest)
  {
    var trace := [Charged(w.days(attempt)), Called(reply)] + [Slept(Delay(p, attempt, reply))] + rest;
    forall i | 0 <= i < |trace| ensures EventAt(p, w, attempt, i / 3, i % 3, trace[i]) {
      if i >= 3 {
        assert trace[i] == rest[i - 3] && EventAt(p, w, attempt + 1, (i - 3) / 3, (i - 3) % 3, rest[i - 3]);
      }
    }
  }

  // The outcome is what the last event says: the body of a success, the failure of any other
  // reply, a refusal of the budget, or on a shutdown the failure before it, if there was one. A
  // retryable reply ends a request only with its last attempt.
  ghost predicate Answers(p: Policy, attempt: nat, last: Option<Reply>, outcome: Outcome, trace: seq<Event>) {
    if trace == [] then last.Some? && outcome == Failed(last.value)
    else
      match trace[|trace| - 1]
      case StopSeen =>
        if |trace| == 1 then outcome == (if last.Some? then Failed(last.value) else Shutdown)
        else |trace| >= 3 && trace[|trace| - 3].Called? && outcome == Failed(trace[|trace| - 3].reply)
      case Refused => outcome.BudgetExceeded?
      case Called(reply) =>
        && outcome == (if reply.Success? then Body(reply.body) else Failed(reply))
        && (reply.RateLimited? || reply.Timeout? || reply.OtherTransportError? ==> |trace| == 3 * (p.maxAttempts - attempt) - 1)
      case _ => false
  }

  lemma {:induction false} OutcomeExactly(p: Policy, l: Limits, w: World, c: Category, u: Usage, attempt: nat, last: Option<Reply>)
    requires attempt <= p.maxAttempts && (attempt == p.maxAttempts ==> last.Some?)
    ensures var done := From(p, l, w, c, u, attempt, last);
            Answers(p, attempt, last, done.outcome, done.trace) && (attempt < p.maxAttempts ==> done.trace != [])
    decreases p.maxAttempts - attempt
  {
    if attempt < p.maxAttempts && !w.stops(attempt) && Acquire(u, l, w.days(attempt), c).1.Ok? && Retryable(w.replies(attempt)) {
      var v, reply := Acquire(u, l, w.days(attempt), c).0, w.replies(attempt);
      OutcomeExactly(p, l, w, c, v, attempt + 1, Some(reply));
      RetriedFrom(p, l, w, c, u, v, attempt, last, From(p, l, w, c, v, attempt + 1, Some(reply)));
    } else {
      FinalOutcome(p, l, w, c, u, attempt, last);
    }
  }

  lemma FinalOutcome(p: Policy, l: Limits, w: World, c: Category, u: Usage, attempt: nat, last: Option<Reply>)
    requires attempt <= p.maxAttempts && (attempt == p.maxAttempts ==> last.Some?)
    requires attempt == p.maxAttempts || w.stops(attempt) || Acquire(u, l, w.days(attempt), c).1.Err? || !Retryable(w.replies(attempt))
    ensures var done := From(p, l, w, c, u, attempt, last);
            Answers(p, attempt, last, done.outcome, done.trace) && (attempt < p.maxAttempts ==> done.trace != [])
  {
  }

  lemma RetriedFrom(p: Policy, l: Limits, w: World, c: Category, u: Usage, v: Usage, attempt: nat, last: Option<Reply>, rest: Exchange)
    requires attempt < p.maxAttempts && !w.stops(attempt) && Retryable(w.replies(attempt))
    requires Acquire(u, l, w.days(attempt), c) == (v, Ok(()))
    requires rest == From(p, l, w, c, v, attempt + 1, Some(w.replies(attempt)))
    requires Answers(p, attempt + 1, Some(w.replies(attempt)), rest.outcome, rest.trace)
    requires attempt + 1 < p.maxAttempts ==> rest.trace != []
    ensures var done := From(p, l, w, c, u, attempt, last);
            Answers(p, attempt, last, done.outcome, done.trace) && done.trace != []
  {
    AttemptCharges(p, l, w, c, u, v, attempt, last);
    assert attempt + 1 == p.maxAttempts ==> rest.trace == [];
    RetriedOutcome(p, attempt, last, w.replies(attempt), w.days(attempt), rest, From(p, l, w, c, u, attempt, last));
  }

  lemma RetriedOutcome(p: Policy, attempt: nat, last: Option<Reply>, reply: Reply, day: int, rest: Exchange, done: Exchange)
    requires attempt < p.maxAttempts && Retryable(reply) && Answers(p, attempt + 1, Some(reply), rest.outcome, rest.trace)
    requires rest.trace == [] <==> attempt + 1 == p.maxAttempts
    requires var slept := if attempt + 1 < p.maxAttempts then [Slept(Delay(p, attempt, reply))] else [];
             done == rest.(trace := [Charged(day), Called(reply)] + slept + rest.trace)
    ensures Answers(p, attempt, last, done.outcome, done.trace) && done.trace != []
  {
    if rest.trace != [] {
      AnswersOn(p, attempt, last, reply, day, Slept(Delay(p, attempt, reply)), rest.outcome, rest.trace);
    } else {
      assert done.trace == [Charged(day), Called(reply)];
    }
  }

  lemma AnswersOn(p: Policy, attempt: nat, last: Option<Reply>, reply: Reply, day: int, slept: Event, outcome: Outcome, rest: seq<Event>)
    requires attempt + 1 < p.maxAttempts && rest != [] && Answers(p, attempt + 1, Some(reply), outcome, rest)
    ensures Answers(p, attempt, last, outcome, [Charged(day), Called(reply)] + [slept] + rest)
  {
    var trace := [Charged(day), Called(reply)] + [slept] + rest;
    assert trace[|trace| - 1] == rest[|rest| - 1];
    if |rest| >= 3 {
      assert trace[|trace| - 3] == rest[|rest| - 3];
    }
  }
}
