/** What every monitoring run keeps: the lifecycle, the spacing of claims and the immutable close. */
module MonitoringTheorems {
  import opened Wrappers
  import opened Sorting
  import opened PrimaryKeys
  import opened Monitoring

  // ----- the lifecycle -----

  function TransitionsOf(transitions: seq<Transition>, pick: nat): seq<Transition> {
    if transitions == [] then []
    else
      var last := transitions[|transitions| - 1];
      TransitionsOf(transitions[..|transitions| - 1], pick) + if last.pick == pick then [last] else []
  }

  function StartedRow(pick: nat, at: int): Transition {
    Transition(pick, MonitoringStarted, Registered, Monitored, at)
  }

  function ClosedRow(pick: nat, at: int): Transition {
    Transition(pick, OddsClosed, Monitored, ClosedForOdds, at)
  }

  // A pick is unstarted, monitored or closed, with exactly the transition rows that led there;
  // closed means a finalization exists and no refresh is scheduled.
  ghost predicate PickSound(w: World, pick: nat) {
    var rows := TransitionsOf(w.transitions, pick);
    match StateOf(w, pick)
    case Registered => pick !in w.states && pick !in w.finalizations && rows == []
    case Monitored =>
      && pick in w.contexts && pick !in w.finalizations && w.states[pick].nextRefreshAt.Some?
      && rows == [StartedRow(pick, w.states[pick].startedAt)]
    case ClosedForOdds =>
      && pick in w.contexts && pick in w.finalizations && w.states[pick].nextRefreshAt.None?
      && rows == [StartedRow(pick, w.states[pick].startedAt), ClosedRow(pick, w.finalizations[pick].finalizedAt)]
  }

  ghost predicate LifecycleSound(w: World) {
    forall pick :: PickSound(w, pick)
  }

  lemma TransitionsOfAppend(transitions: seq<Transition>, t: Transition, pick: nat)
    ensures TransitionsOf(transitions + [t], pick)
            == TransitionsOf(transitions, pick) + if t.pick == pick then [t] else []
  {
    assert (transitions + [t])[..|transitions|] == transitions;
  }

  // Another pick's step leaves this pick alone.
  ghost predicate Untouched(w: World, u: World, pick: nat) {
    && (pick in w.contexts ==> pick in u.contexts)
    && (pick in u.states <==> pick in w.states) && (pick in w.states ==> u.states[pick] == w.states[pick])
    && (pick in u.finalizations <==> pick in w.finalizations)
    && (pick in w.finalizations ==> u.finalizations[pick] == w.finalizations[pick])
    && TransitionsOf(u.transitions, pick) == TransitionsOf(w.transitions, pick)
  }

  lemma StartKeepsLifecycle(w: World, pick: nat, policy: Policy, at: int)
    requires LifecycleSound(w)
    ensures LifecycleSound(Start(w, pick, policy, at).0)
  {
    var u := Start(w, pick, policy, at).0;
    if u != w {
      forall p ensures PickSound(u, p) {
        assert PickSound(w, p);
        TransitionsOfAppend(w.transitions, StartedRow(pick, at), p);
        assert p != pick ==> Untouched(w, u, p);
      }
    }
  }

  lemma FinalizeKeepsLifecycle(w: World, pick: nat, at: int)
    requires LifecycleSound(w)
    ensures LifecycleSound(Finalize(w, pick, at).0)
  {
    var u := Finalize(w, pick, at).0;
    if u != w {
      forall p ensures PickSound(u, p) {
        assert PickSound(w, p);
        TransitionsOfAppend(w.transitions, ClosedRow(pick, at), p);
        assert p != pick ==> Untouched(w, u, p);
      }
    }
  }

  // ----- claims -----

  lemma {:induction false} RescheduleAllExact(states: map<nat, Record>, picks: seq<nat>, at: int)
    requires Distinct(picks) && forall p | p in picks :: p in states && states[p].state == Monitored
    ensures var u := RescheduleAll(states, picks, at);
            && u.Keys == states.Keys
            && forall p | p in states :: u[p] == if p in picks then Reschedule(states[p], at) else states[p]
  {
    if picks != [] {
      var front, last := picks[..|picks| - 1], picks[|picks| - 1];
      assert picks == front + [last];
      assert last !in front;
      RescheduleAllExact(states, front, at);
    }
  }

  // A claim takes exactly the due and unlocked picks, each once, the longest overdue first.
  lemma ClaimedExact(states: map<nat, Record>, at: int, limit: nat, locked: set<nat>)
    ensures var due := DuePicks(states, at, locked);
            var picks := Claimed(states, at, limit, locked);
            && Distinct(picks) && (forall p | p in picks :: p in due)
            && |picks| == (if |due| <= limit then |due| else limit)
            && (forall p, q | p in picks && q in due && q !in picks :: RefreshOf(states, p) <= RefreshOf(states, q))
  {
    FirstByExact(DuePicks(states, at, locked), RefreshedFirst(states), limit);
  }

  function IntervalOf(states: map<nat, Record>, pick: nat): int {
    if pick in states then states[pick].policy.interval else 0
  }

  // The next refresh of a monitored pick is at least an interval after each of its claims.
  ghost predicate NotBefore(states: map<nat, Record>, c: Claim) {
    && c.pick in states
    && (states[c.pick].state == Monitored ==>
         states[c.pick].nextRefreshAt.Some? && states[c.pick].nextRefreshAt.value >= c.at + states[c.pick].policy.interval)
  }

  ghost predicate Apart(states: map<nat, Record>, claims: seq<Claim>) {
    forall i, j | 0 <= i < j < |claims| && claims[i].pick == claims[j].pick ::
      claims[j].at >= claims[i].at + IntervalOf(states, claims[i].pick)
  }

  ghost predicate ClaimsSpaced(w: World) {
    Apart(w.states, w.claims) && forall c | c in w.claims :: NotBefore(w.states, c)
  }

  ghost predicate Grew(states: map<nat, Record>, states': map<nat, Record>) {
    && (forall p | p in states :: p in states' && states'[p].policy == states[p].policy)
    && (forall p | p in states && states'[p].state == Monitored ::
         states[p].state == Monitored && states'[p].nextRefreshAt == states[p].nextRefreshAt)
  }

  lemma SpacingKept(w: World, u: World)
    requires ClaimsSpaced(w) && u.claims == w.claims && Grew(w.states, u.states)
    ensures ClaimsSpaced(u)
  {
    forall c | c in u.claims ensures NotBefore(u.states, c) {
      assert NotBefore(w.states, c);
    }
    forall i, j | 0 <= i < j < |u.claims| && u.claims[i].pick == u.claims[j].pick
      ensures u.claims[j].at >= u.claims[i].at + IntervalOf(u.states, u.claims[i].pick)
    {
      assert w.claims[i] in w.claims && NotBefore(w.states, w.claims[i]);
    }
  }

  lemma ClaimKeepsSpacing(w: World, at: int, limit: int, locked: set<nat>)
    requires ClaimsSpaced(w)
    ensures ClaimsSpaced(ClaimDue(w, at, limit, locked).0)
  {
    if limit > 0 {
      var picks := Claimed(w.states, at, limit, locked);
      ClaimedExact(w.states, at, limit, locked);
      RescheduleAllExact(w.states, picks, at);
      var u := ClaimDue(w, at, limit, locked).0;
      ClaimsOnceDue(w, u, picks, at);
    }
  }

  lemma ClaimsOnceDue(w: World, u: World, picks: seq<nat>, at: int)
    requires ClaimsSpaced(w) && Distinct(picks) && forall p | p in picks :: Due(w.states, p, at)
    requires u.claims == w.claims + LogOf(picks, at) && u.states.Keys == w.states.Keys
    requires forall p | p in w.states :: u.states[p] == if p in picks then Reschedule(w.states[p], at) else w.states[p]
    ensures ClaimsSpaced(u)
  {
    var log := LogOf(picks, at);
    assert forall a, b | 0 <= a < b < |log| :: log[a].pick != log[b].pick;
    forall c | c in u.claims ensures NotBefore(u.states, c) {
      if c in w.claims {
        assert NotBefore(w.states, c);
      } else {
        var i :| 0 <= i < |log| && log[i] == c;
        assert picks[i] in picks;
      }
    }
    forall i, j | 0 <= i < j < |u.claims| && u.claims[i].pick == u.claims[j].pick
      ensures u.claims[j].at >= u.claims[i].at + IntervalOf(u.states, u.claims[i].pick)
    {
      if j < |w.claims| {
        assert w.claims[i] in w.claims && NotBefore(w.states, w.claims[i]);
      } else {
        var pick := picks[j - |w.claims|];
        assert pick in picks && u.claims[j] == Claim(pick, at);
        if i < |w.claims| {
          assert w.claims[i] in w.claims && NotBefore(w.states, w.claims[i]);
        }
      }
    }
  }

  lemma ClaimKeepsLifecycle(w: World, at: int, limit: int, locked: set<nat>)
    requires LifecycleSound(w)
    ensures LifecycleSound(ClaimDue(w, at, limit, locked).0)
  {
    if limit > 0 {
      var picks := Claimed(w.states, at, limit, locked);
      ClaimedExact(w.states, at, limit, locked);
      RescheduleAllExact(w.states, picks, at);
      var u := ClaimDue(w, at, limit, locked).0;
      forall p ensures PickSound(u, p) {
        assert PickSound(w, p);
      }
    }
  }

  lemma NextSound(w: World, s: Step)
    requires LifecycleSound(w) && ClaimsSpaced(w)
    ensures LifecycleSound(Next(w, s)) && ClaimsSpaced(Next(w, s))
  {
    var u := Next(w, s);
    if s.StartPick? {
      StartKeepsLifecycle(w, s.pick, s.policy, s.at);
      SpacingKept(w, u);
    } else if s.ClaimPicks? {
      ClaimKeepsLifecycle(w, s.at, s.limit, s.locked);
      ClaimKeepsSpacing(w, s.at, s.limit, s.locked);
    } else if s.FinalizePick? {
      FinalizeKeepsLifecycle(w, s.pick, s.at);
      SpacingKept(w, u);
    } else {
      OthersKeepLifecycle(w, s);
      SpacingKept(w, u);
    }
  }

  lemma OthersKeepLifecycle(w: World, s: Step)
    requires LifecycleSound(w) && !s.StartPick? && !s.ClaimPicks? && !s.FinalizePick?
    ensures LifecycleSound(Next(w, s)) && Grew(w.states, Next(w, s).states) && Next(w, s).claims == w.claims
  {
    var u := Next(w, s);
    assert u.states == w.states && u.finalizations == w.finalizations && u.transitions == w.transitions;
    forall p ensures PickSound(u, p) {
      assert PickSound(w, p) && Untouched(w, u, p);
    }
  }

  lemma {:induction false} RunSound(w: World, steps: seq<Step>)
    requires LifecycleSound(w) && ClaimsSpaced(w)
    ensures LifecycleSound(Run(w, steps)) && ClaimsSpaced(Run(w, steps))
    decreases |steps|
  {
    if steps != [] {
      NextSound(w, steps[0]);
      RunSound(Next(w, steps[0]), steps[1..]);
    }
  }

  // Over every run: each pick stands where its transition rows lead, and two claims of one
  // pick are at least its interval apart, so claims at one time are disjoint.
  lemma MonitoringKeeps(steps: seq<Step>)
    ensures var w := Run(EMPTY, steps);
            && (forall pick :: PickSound(w, pick))
            && (forall i, j | 0 <= i < j < |w.claims| && w.claims[i].pick == w.claims[j].pick ::
                 w.claims[j].at >= w.claims[i].at + IntervalOf(w.states, w.claims[i].pick) > w.claims[i].at)
  {
    var w := Run(EMPTY, steps);
    RunSound(EMPTY, steps);
    forall i, j | 0 <= i < j < |w.claims| && w.claims[i].pick == w.claims[j].pick
      ensures w.claims[j].at >= w.claims[i].at + IntervalOf(w.states, w.claims[i].pick) > w.claims[i].at
    {
      assert w.claims[i] in w.claims && NotBefore(w.states, w.claims[i]);
    }
  }

  function Rank(s: State): nat {
    match s
    case Registered => 0
    case Monitored => 1
    case ClosedForOdds => 2
  }

  // A later world: states only move forward, policies are pinned, and facts only grow.
  ghost predicate Later(w: World, u: World) {
    && (forall pick :: Rank(StateOf(w, pick)) <= Rank(StateOf(u, pick)))
    && (forall pick | pick in w.states :: pick in u.states && u.states[pick].policy == w.states[pick].policy)
    && w.contexts.Keys <= u.contexts.Keys && (forall p | p in w.contexts :: u.contexts[p] == w.contexts[p])
    && w.finalizations.Keys <= u.finalizations.Keys
    && (forall p | p in w.finalizations :: u.finalizations[p] == w.finalizations[p])
    && w.transitions <= u.transitions && w.quotes <= u.quotes && w.sightings <= u.sightings
    && w.now <= u.now
  }

  lemma ClaimIsLater(w: World, at: int, limit: int, locked: set<nat>)
    ensures Later(w, ClaimDue(w, at, limit, locked).0)
  {
    if limit > 0 {
      var picks := Claimed(w.states, at, limit, locked);
      ClaimedExact(w.states, at, limit, locked);
      RescheduleAllExact(w.states, picks, at);
      var u := ClaimDue(w, at, limit, locked).0;
      forall pick ensures StateOf(w, pick) == StateOf(u, pick) {}
    }
  }

  lemma FinalizeIsLater(w: World, pick: nat, at: int)
    requires LifecycleSound(w)
    ensures Later(w, Finalize(w, pick, at).0)
  {
    assert PickSound(w, pick);
  }

  lemma NextIsLater(w: World, s: Step)
    requires LifecycleSound(w)
    ensures Later(w, Next(w, s))
  {
    if s.ClaimPicks? {
      ClaimIsLater(w, s.at, s.limit, s.locked);
    } else if s.FinalizePick? {
      FinalizeIsLater(w, s.pick, s.at);
    } else if s.StartPick? {
      StartIsLater(w, s.pick, s.policy, s.at);
    } else {
      assert Next(w, s).states == w.states && Next(w, s).finalizations == w.finalizations;
    }
  }

  lemma StartIsLater(w: World, pick: nat, policy: Policy, at: int)
    ensures Later(w, Start(w, pick, policy, at).0)
  {
    var u := Start(w, pick, policy, at).0;
    forall p ensures Rank(StateOf(w, p)) <= Rank(StateOf(u, p)) {}
  }

  lemma {:induction false} RunIsLater(w: World, steps: seq<Step>)
    requires LifecycleSound(w) && ClaimsSpaced(w)
    ensures Later(w, Run(w, steps))
    decreases |steps|
  {
    if steps != [] {
      NextIsLater(w, steps[0]);
      NextSound(w, steps[0]);
      RunIsLater(Next(w, steps[0]), steps[1..]);
    }
  }

  // A replayed start or finalization changes nothing: a start answers the row as it stands
  // until the pick closes, a finalization answers the stored close at whatever time.
  lemma ReplaysChangeNothing(w: World, steps: seq<Step>, pick: nat, policy: Policy, at: int, again: int)
    requires LifecycleSound(w) && ClaimsSpaced(w)
    ensures Start(w, pick, policy, at).1.Ok? ==>
              var v := Run(Start(w, pick, policy, at).0, steps);
              && pick in v.states
              && Start(v, pick, policy, again)
                 == (v, if v.states[pick].state == ClosedForOdds then Err(Conflict) else Ok(v.states[pick]))
    ensures Finalize(w, pick, at).1.Ok? ==>
              var v := Run(Finalize(w, pick, at).0, steps);
              Finalize(v, pick, again) == (v, Finalize(w, pick, at).1)
  {
    if Start(w, pick, policy, at).1.Ok? {
      NextSound(w, StartPick(pick, policy, at));
      RunIsLater(Next(w, StartPick(pick, policy, at)), steps);
    }
    if Finalize(w, pick, at).1.Ok? {
      NextSound(w, FinalizePick(pick, at));
      RunIsLater(Next(w, FinalizePick(pick, at)), steps);
    }
  }
}
