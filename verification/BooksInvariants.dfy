/** What every transaction of the bankroll keeps. */
module BooksInvariants {
  import opened Wrappers
  import opened Settlement
  import opened Books

  // ----- the settlement chains -----

  // The last appended event of a pick.
  function LastOf(events: seq<Event>, pick: string): Option<nat> {
    if events == [] then None
    else if events[|events| - 1].pick == pick then Some(|events| - 1)
    else LastOf(events[..|events| - 1], pick)
  }

  lemma {:induction false} LastOfInRange(events: seq<Event>, pick: string)
    ensures match LastOf(events, pick)
            case None => forall i | 0 <= i < |events| :: events[i].pick != pick
            case Some(q) => q < |events| && events[q].pick == pick
                            && forall i | q < i < |events| :: events[i].pick != pick
  {
    if events != [] {
      LastOfInRange(events[..|events| - 1], pick);
    }
  }

  // Every event continues the chain of its pick; only an initial event starts one.
  ghost predicate Chained(events: seq<Event>) {
    forall i {:trigger Linked(events, i)} | 0 <= i < |events| :: Linked(events, i)
  }

  ghost predicate Linked(events: seq<Event>, i: int)
    requires 0 <= i < |events|
  {
    && events[i].prior == LastOf(events[..i], events[i].pick)
    && (events[i].prior.None? <==> events[i].kind in {Normal, ManualVoid})
    && (events[i].grading.None? <==> events[i].kind == Reversal)
  }

  lemma LastOfAppend(events: seq<Event>, e: Event, pick: string)
    ensures LastOf(events + [e], pick) == if e.pick == pick then Some(|events|) else LastOf(events, pick)
  {
    assert (events + [e])[..|events|] == events;
  }

  lemma ChainedAppend(events: seq<Event>, e: Event)
    requires Chained(events) && e.prior == LastOf(events, e.pick)
    requires (e.prior.None? <==> e.kind in {Normal, ManualVoid}) && (e.grading.None? <==> e.kind == Reversal)
    ensures Chained(events + [e])
  {
    var all := events + [e];
    forall i | 0 <= i < |all| ensures Linked(all, i) {
      assert all[..i] == events[..i];
      assert i == |events| ==> events[..i] == events;
      assert i < |events| ==> Linked(events, i);
    }
  }

  // A pick has at most one effective event: the last one appended for it.
  lemma EffectiveIsLast(events: seq<Event>, i: nat)
    requires Chained(events) && i < |events|
    ensures Effective(events, i) <==> LastOf(events, events[i].pick) == Some(i)
  {
    LastOfInRange(events, events[i].pick);
    var q := LastOf(events, events[i].pick).value;
    forall j | 0 <= j < |events| && events[j].prior == Some(i)
      ensures i < j && events[j].pick == events[i].pick
    {
      assert Linked(events, j);
      LastOfInRange(events[..j], events[j].pick);
    }
    if i != q {
      NextInChain(events, i);
    }
  }

  lemma {:induction false} NextInChain(events: seq<Event>, i: nat)
    requires Chained(events) && i < |events| && LastOf(events, events[i].pick) != Some(i)
    ensures exists j | 0 <= j < |events| :: events[j].prior == Some(i)
  {
    LastOfInRange(events, events[i].pick);
    var q := LastOf(events, events[i].pick).value;
    var prior := LastOf(events[..q], events[q].pick);
    assert Linked(events, q);
    LastOfInRange(events[..q], events[q].pick);
    assert events[..q][i] == events[i];
    if prior == Some(i) {
      assert events[q].prior == Some(i);
    } else {
      ChainedPrefix(events, q);
      NextInChain(events[..q], i);
      var j :| 0 <= j < q && events[..q][j].prior == Some(i);
      assert events[j].prior == Some(i);
    }
  }

  lemma ChainedPrefix(events: seq<Event>, n: nat)
    requires Chained(events) && n <= |events|
    ensures Chained(events[..n])
  {
    forall i | 0 <= i < n ensures Linked(events[..n], i) {
      assert Linked(events, i) && events[..n][..i] == events[..i];
    }
  }

  lemma ResolvedIffLastGraded(events: seq<Event>, pick: string)
    requires Chained(events)
    ensures Resolved(events, pick) <==>
            LastOf(events, pick).Some? && LastOf(events, pick).value < |events|
            && events[LastOf(events, pick).value].grading.Some?
  {
    LastOfInRange(events, pick);
    forall i | 0 <= i < |events| ensures Effective(events, i) <==> LastOf(events, events[i].pick) == Some(i) {
      EffectiveIsLast(events, i);
    }
  }

  lemma ResolvedAppend(events: seq<Event>, e: Event, pick: string)
    requires Chained(events) && Chained(events + [e])
    ensures Resolved(events + [e], pick) == if e.pick == pick then e.grading.Some? else Resolved(events, pick)
  {
    LastOfAppend(events, e, pick);
    LastOfInRange(events, pick);
    ResolvedIffLastGraded(events, pick);
    ResolvedIffLastGraded(events + [e], pick);
  }

  // ----- sums -----

  lemma {:induction false} SumByAgree(picks: seq<Pick>, f: Pick -> int, g: Pick -> int)
    requires forall p | p in picks :: f(p) == g(p)
    ensures SumBy(picks, f) == SumBy(picks, g)
  {
    if picks != [] {
      SumByAgree(picks[..|picks| - 1], f, g);
    }
  }

  lemma SumByAppend(picks: seq<Pick>, p: Pick, f: Pick -> int)
    ensures SumBy(picks + [p], f) == SumBy(picks, f) + f(p)
  {
    assert (picks + [p])[..|picks|] == picks;
  }

  lemma {:induction false} SumBySplit(picks: seq<Pick>, f: Pick -> int, g: Pick -> int, h: Pick -> int)
    requires forall p | p in picks :: f(p) == g(p) + h(p)
    ensures SumBy(picks, f) == SumBy(picks, g) + SumBy(picks, h)
  {
    if picks != [] {
      SumBySplit(picks[..|picks| - 1], f, g, h);
    }
  }

  ghost predicate DistinctPicks(picks: seq<Pick>) {
    forall i, j | 0 <= i < j < |picks| :: picks[i].id != picks[j].id
  }

  lemma {:induction false} FindPickFinds(picks: seq<Pick>, id: string)
    ensures match FindPick(picks, id)
            case None => forall p | p in picks :: p.id != id
            case Some(p) => p in picks && p.id == id
  {
    if picks != [] {
      FindPickFinds(picks[..|picks| - 1], id);
    }
  }

  // Changing the summand of one pick moves the sum by the change.
  lemma {:induction false} SumByChange(picks: seq<Pick>, f: Pick -> int, g: Pick -> int, p: Pick)
    requires DistinctPicks(picks) && p in picks
    requires forall q | q in picks && q.id != p.id :: f(q) == g(q)
    ensures SumBy(picks, g) == SumBy(picks, f) + g(p) - f(p)
  {
    var front, last := picks[..|picks| - 1], picks[|picks| - 1];
    if last == p {
      forall q | q in front ensures q.id != p.id {
        var i :| 0 <= i < |front| && front[i] == q;
        assert picks[i] == q;
      }
      SumByAgree(front, f, g);
    } else {
      var i :| 0 <= i < |picks| && picks[i] == p;
      assert front[i] == p;
      assert last.id != p.id;
      SumByChange(front, f, g, p);
    }
  }

  lemma {:induction false} EffectiveUpToAppend(events: seq<Event>, e: Event, f: Event -> int, n: nat)
    requires n <= |events| && e.prior != Some(|events|)
    requires e.prior.Some? ==> Effective(events, e.prior.value)
    ensures EffectiveUpTo(events + [e], f, n)
         == EffectiveUpTo(events, f, n) - if e.prior.Some? && e.prior.value < n then f(events[e.prior.value]) else 0
  {
    if n > 0 {
      EffectiveUpToAppend(events, e, f, n - 1);
      var all := events + [e];
      assert all[n - 1] == events[n - 1];
      if Effective(all, n - 1) {
        forall j | 0 <= j < |events| ensures events[j].prior != Some(n - 1) {
          assert all[j] == events[j];
        }
        assert all[|events|].prior != Some(n - 1);
      }
    }
  }

  lemma EffectiveSumAppend(events: seq<Event>, e: Event, f: Event -> int)
    requires Chained(events) && Chained(events + [e])
    ensures e.prior.Some? ==> e.prior.value < |events|
    ensures EffectiveSum(events + [e], f)
         == EffectiveSum(events, f) + f(e) - if e.prior.Some? then f(events[e.prior.value]) else 0
  {
    var all := events + [e];
    assert all[..|events|] == events && all[|events|] == e;
    assert Linked(all, |events|);
    LastOfInRange(events, e.pick);
    if e.prior.Some? {
      EffectiveIsLast(events, e.prior.value);
    }
    EffectiveUpToAppend(events, e, f, |events|);
    LastOfAppend(events, e, e.pick);
    EffectiveIsLast(all, |events|);
  }

  function LastValue(events: seq<Event>, f: Event -> int): Pick -> int {
    (p: Pick) => match LastOf(events, p.id)
                 case None => 0
                 case Some(q) => if q < |events| then f(events[q]) else 0
  }

  // Joining the effective events to the picks counts every effective event once.
  lemma {:induction false} EffectiveSumByPick(events: seq<Event>, picks: seq<Pick>, f: Event -> int)
    requires Chained(events) && DistinctPicks(picks)
    requires forall i | 0 <= i < |events| :: FindPick(picks, events[i].pick).Some?
    ensures EffectiveSum(events, f) == SumBy(picks, LastValue(events, f))
  {
    if events == [] {
      forall p | p in picks ensures LastValue(events, f)(p) == 0 {
        assert LastOf(events, p.id) == None;
      }
      SumByZero(picks, LastValue(events, f));
    } else {
      var front, e := events[..|events| - 1], events[|events| - 1];
      assert events == front + [e];
      ChainedPrefix(events, |front|);
      EffectiveSumByPick(front, picks, f);
      EffectiveSumAppend(front, e, f);
      FindPickFinds(picks, e.pick);
      var p := FindPick(picks, e.pick).value;
      forall q | q in picks ensures q.id != p.id ==> LastValue(front, f)(q) == LastValue(events, f)(q) {
        LastOfAppend(front, e, q.id);
        LastOfInRange(front, q.id);
      }
      LastOfAppend(front, e, e.pick);
      SumByChange(picks, LastValue(front, f), LastValue(events, f), p);
      LastOfInRange(front, e.pick);
      assert events[..|front|] == front && Linked(events, |front|);
    }
  }

  lemma {:induction false} SumByZero(picks: seq<Pick>, f: Pick -> int)
    requires forall p | p in picks :: f(p) == 0
    ensures SumBy(picks, f) == 0
  {
    if picks != [] {
      SumByZero(picks[..|picks| - 1], f);
    }
  }

  // ----- reservations -----

  function ReservedBefore(ledger: seq<Entry>, n: nat): nat
    requires n <= |ledger|
  {
    if n == 0 then 0 else ReservedBefore(ledger, n - 1) + if ledger[n - 1].kind == StakeReserved then 1 else 0
  }

  // Reservations and picks are in step, one exact reservation for each pick.
  ghost predicate Reserved(picks: seq<Pick>, ledger: seq<Entry>) {
    && ReservedBefore(ledger, |ledger|) == |picks|
    && forall k | 0 <= k < |ledger| && ledger[k].kind == StakeReserved ::
         ReservedBefore(ledger, k) < |picks|
         && ledger[k].pick == Some(picks[ReservedBefore(ledger, k)].id)
         && ledger[k].amount == -picks[ReservedBefore(ledger, k)].stake
  }

  lemma {:induction false} ReservedBeforePrefix(ledger: seq<Entry>, more: seq<Entry>, n: nat)
    requires n <= |ledger|
    ensures ReservedBefore(ledger + more, n) == ReservedBefore(ledger, n)
  {
    if n > 0 {
      ReservedBeforePrefix(ledger, more, n - 1);
      assert (ledger + more)[n - 1] == ledger[n - 1];
    }
  }

  lemma ReservedAppend(picks: seq<Pick>, ledger: seq<Entry>, entry: Entry, added: seq<Pick>)
    requires Reserved(picks, ledger)
    requires entry.kind == StakeReserved ==>
               |added| == 1 && entry.pick == Some(added[0].id) && entry.amount == -added[0].stake
    requires entry.kind != StakeReserved ==> added == []
    ensures Reserved(picks + added, ledger + [entry])
  {
    var all := ledger + [entry];
    forall k | 0 <= k <= |ledger| ensures ReservedBefore(all, k) == ReservedBefore(ledger, k) {
      ReservedBeforePrefix(ledger, [entry], k);
    }
    forall k | 0 <= k < |all| && all[k].kind == StakeReserved
      ensures ReservedBefore(all, k) < |picks + added|
      ensures all[k].pick == Some((picks + added)[ReservedBefore(all, k)].id)
      ensures all[k].amount == -(picks + added)[ReservedBefore(all, k)].stake
    {
      if k < |ledger| {
        assert all[k] == ledger[k];
      }
    }
  }

  lemma {:induction false} ReservationOf(picks: seq<Pick>, ledger: seq<Entry>, n: nat, j: nat)
    requires n <= |ledger| && j < ReservedBefore(ledger, n)
    ensures exists k | 0 <= k < n :: ledger[k].kind == StakeReserved && ReservedBefore(ledger, k) == j
  {
    if !(ledger[n - 1].kind == StakeReserved && ReservedBefore(ledger, n - 1) == j) {
      ReservationOf(picks, ledger, n - 1, j);
    }
  }

  lemma PickHasReservation(picks: seq<Pick>, ledger: seq<Entry>, p: Pick)
    requires Reserved(picks, ledger) && p in picks
    ensures exists k | 0 <= k < |ledger| ::
              ledger[k].pick == Some(p.id) && ledger[k].kind == StakeReserved && ledger[k].amount == -p.stake
  {
    var j :| 0 <= j < |picks| && picks[j] == p;
    ReservationOf(picks, ledger, |ledger|, j);
  }

  function CountedStake(counted: string -> bool): Pick -> int {
    (p: Pick) => if counted(p.id) then p.stake else 0
  }

  lemma {:induction false} ReservedUpToByPick(picks: seq<Pick>, ledger: seq<Entry>, counted: string -> bool, n: nat)
    requires Reserved(picks, ledger) && n <= |ledger|
    ensures ReservedBefore(ledger, n) <= |picks|
    ensures ReservedUpTo(ledger, counted, n) == SumBy(picks[..ReservedBefore(ledger, n)], CountedStake(counted))
  {
    if n > 0 {
      ReservedUpToByPick(picks, ledger, counted, n - 1);
      var j := ReservedBefore(ledger, n - 1);
      if ledger[n - 1].kind == StakeReserved {
        assert picks[..j + 1] == picks[..j] + [picks[j]];
        SumByAppend(picks[..j], picks[j], CountedStake(counted));
      }
    }
  }

  // The ledger query of the risk helper is a sum over picks.
  lemma RiskExposureByPick(t: Tables)
    requires Reserved(t.picks, t.ledger)
    ensures RiskExposure(t) == SumBy(t.picks, CountedStake(AtRisk(t.actions, t.events)))
  {
    ReservedUpToByPick(t.picks, t.ledger, AtRisk(t.actions, t.events), |t.ledger|);
    assert t.picks[..|t.picks|] == t.picks;
  }

  // ----- the structural invariant -----

  ghost predicate GradedExactly(picks: seq<Pick>, e: Event) {
    && FindPick(picks, e.pick).Some?
    && (e.grading.Some? ==> Gross(e) == FindPick(picks, e.pick).value.stake + Pnl(e))
  }

  // Pick ids are issued to registration requests, one pick for each.
  ghost predicate Issued(id: string, decisions: map<string, Decision>) {
    exists request | request in decisions :: id == PickId(request)
  }

  ghost predicate PicksKept(picks: seq<Pick>, decisions: map<string, Decision>) {
    && DistinctPicks(picks)
    && (forall i, j | 0 <= i < j < |picks| :: picks[i].fixture != picks[j].fixture)
    && (forall p | p in picks :: p.stake > 0 && Issued(p.id, decisions))
  }

  ghost predicate LedgerKept(picks: seq<Pick>, ledger: seq<Entry>) {
    && (ledger == [] ==> picks == [])
    && (ledger != [] ==>
          ledger[0].kind == InitialBankroll && ledger[0].pick == None && ledger[0].balanceAfter == ledger[0].amount)
    && (forall k | 0 < k < |ledger| :: ledger[k].pick.Some? && FindPick(picks, ledger[k].pick.value).Some?)
  }

  // Each event owns one ledger row of its own pick.
  ghost predicate EventsKept(picks: seq<Pick>, ledger: seq<Entry>, events: seq<Event>) {
    && (forall i | 0 <= i < |events| ::
          && GradedExactly(picks, events[i])
          && 0 < events[i].entry < |ledger|
          && ledger[events[i].entry].kind != StakeReserved
          && ledger[events[i].entry].pick == Some(events[i].pick))
    && (forall i, j | 0 <= i < j < |events| :: events[i].entry != events[j].entry)
  }

  ghost predicate Valid(t: Tables) {
    && PicksKept(t.picks, t.decisions)
    && LedgerKept(t.picks, t.ledger)
    && Chained(t.events)
    && EventsKept(t.picks, t.ledger, t.events)
    && Reserved(t.picks, t.ledger)
  }

  lemma FindPickAppend(picks: seq<Pick>, p: Pick, id: string)
    ensures FindPick(picks + [p], id) == if p.id == id then Some(p) else FindPick(picks, id)
  {
    assert (picks + [p])[..|picks|] == picks;
  }

  // What the arms that add a settlement event establish before they post it.
  ghost predicate Postable(t: Tables, e: Event, kind: EntryKind) {
    && t.ledger != [] && kind != StakeReserved
    && e.prior == LastOf(t.events, e.pick)
    && (e.prior.None? <==> e.kind in {Normal, ManualVoid})
    && (e.grading.None? <==> e.kind == Reversal)
    && GradedExactly(t.picks, e)
    && e.delta == Gross(e) - if e.prior.Some? && e.prior.value < |t.events| then Gross(t.events[e.prior.value]) else 0
  }

  lemma ReservedPosting(picks: seq<Pick>, ledger: seq<Entry>, entry: Entry)
    requires Reserved(picks, ledger) && entry.kind != StakeReserved
    ensures Reserved(picks, ledger + [entry])
  {
    ReservedAppend(picks, ledger, entry, []);
    assert picks + [] == picks;
  }

  lemma LedgerAppend(picks: seq<Pick>, ledger: seq<Entry>, entry: Entry)
    requires LedgerKept(picks, ledger) && ledger != []
    requires entry.pick.Some? && FindPick(picks, entry.pick.value).Some?
    ensures LedgerKept(picks, ledger + [entry])
  {
  }

  lemma EventsAppend(picks: seq<Pick>, ledger: seq<Entry>, events: seq<Event>, entry: Entry, e: Event)
    requires EventsKept(picks, ledger, events) && ledger != []
    requires GradedExactly(picks, e) && e.entry == |ledger| && entry.kind != StakeReserved && entry.pick == Some(e.pick)
    ensures EventsKept(picks, ledger + [entry], events + [e])
  {
    var ledger', events' := ledger + [entry], events + [e];
    forall i | 0 <= i < |events'|
      ensures GradedExactly(picks, events'[i]) && 0 < events'[i].entry < |ledger'|
      ensures ledger'[events'[i].entry].kind != StakeReserved && ledger'[events'[i].entry].pick == Some(events'[i].pick)
    {
      if i < |events| {
        assert ledger'[events[i].entry] == ledger[events[i].entry];
      }
    }
  }

  lemma PostValid(t: Tables, e: Event, kind: EntryKind)
    requires Valid(t) && Postable(t, e, kind)
    ensures Valid(Post(t, e, kind))
  {
    PostedKept(t, Post(t, e, kind), e.(entry := |t.ledger|), Entry(kind, e.delta, Balance(t) + e.delta, Some(e.pick)));
  }

  lemma PostedKept(t: Tables, u: Tables, e: Event, entry: Entry)
    requires Valid(t) && t.ledger != [] && e.prior == LastOf(t.events, e.pick)
    requires (e.prior.None? <==> e.kind in {Normal, ManualVoid}) && (e.grading.None? <==> e.kind == Reversal)
    requires GradedExactly(t.picks, e) && e.entry == |t.ledger| && entry.kind != StakeReserved && entry.pick == Some(e.pick)
    requires u == t.(ledger := t.ledger + [entry], events := t.events + [e])
    ensures Valid(u)
  {
    ChainedAppend(t.events, e);
    ReservedPosting(t.picks, t.ledger, entry);
    LedgerAppend(t.picks, t.ledger, entry);
    EventsAppend(t.picks, t.ledger, t.events, entry, e);
  }

  lemma PickIdInjective(a: string, b: string)
    requires PickId(a) == PickId(b)
    ensures a == b
  {
    var n := |"registered-pick-v1:"|;
    assert PickId(a)[n..] == a && PickId(b)[n..] == b;
  }

  // What an approved registration adds: a pick, its reservation and its decision.
  ghost predicate Admits(t: Tables, u: Tables, p: Pick, entry: Entry, request: string) {
    && t.ledger != [] && p.stake > 0 && p.id == PickId(request) && request !in t.decisions
    && (forall q | q in t.picks :: q.fixture != p.fixture)
    && entry.kind == StakeReserved && entry.pick == Some(p.id) && entry.amount == -p.stake
    && u.picks == t.picks + [p] && u.ledger == t.ledger + [entry] && u.events == t.events
    && u.decisions.Keys == t.decisions.Keys + {request}
  }

  ghost predicate SameRows(t: Tables, u: Tables) {
    u.picks == t.picks && u.ledger == t.ledger && u.events == t.events && t.decisions.Keys <= u.decisions.Keys
  }

  lemma RegisterAdmits(t: Tables, r: RegisterRequest)
    ensures var u := Register(t, r).0;
            SameRows(t, u) || exists p, entry :: Admits(t, u, p, entry, r.request)
  {
    var u := Register(t, r).0;
    if !SameRows(t, u) {
      assert DuplicateFixture !in EvaluateRisk(t, r, AvailableFor(t, r));
      assert Admits(t, u, u.picks[|t.picks|], u.ledger[|t.ledger|], r.request);
    }
  }

  lemma PicksKeptGrow(picks: seq<Pick>, decisions: map<string, Decision>, more: map<string, Decision>)
    requires PicksKept(picks, decisions) && decisions.Keys <= more.Keys
    ensures PicksKept(picks, more)
  {
    forall p | p in picks ensures Issued(p.id, more) {
      var request :| request in decisions && p.id == PickId(request);
      assert request in more;
    }
  }

  lemma FreshPick(picks: seq<Pick>, decisions: map<string, Decision>, request: string)
    requires PicksKept(picks, decisions) && request !in decisions
    ensures forall q | q in picks :: q.id != PickId(request)
  {
    forall q | q in picks ensures q.id != PickId(request) {
      var other :| other in decisions && q.id == PickId(other);
      if q.id == PickId(request) {
        PickIdInjective(other, request);
      }
    }
  }

  lemma EventsKeptAdmit(picks: seq<Pick>, ledger: seq<Entry>, events: seq<Event>, p: Pick, entry: Entry)
    requires EventsKept(picks, ledger, events) && forall q | q in picks :: q.id != p.id
    ensures EventsKept(picks + [p], ledger + [entry], events)
  {
    forall i | 0 <= i < |events| ensures GradedExactly(picks + [p], events[i]) {
      FindPickFinds(picks, events[i].pick);
      FindPickAppend(picks, p, events[i].pick);
    }
  }

  lemma LedgerKeptAdmit(picks: seq<Pick>, ledger: seq<Entry>, p: Pick, entry: Entry)
    requires LedgerKept(picks, ledger) && ledger != [] && entry.pick == Some(p.id)
    ensures LedgerKept(picks + [p], ledger + [entry])
  {
    var all := ledger + [entry];
    forall k | 0 < k < |all| ensures all[k].pick.Some? && FindPick(picks + [p], all[k].pick.value).Some? {
      FindPickAppend(picks, p, all[k].pick.value);
    }
  }

  lemma AdmitValid(t: Tables, u: Tables, p: Pick, entry: Entry, request: string)
    requires Valid(t) && Admits(t, u, p, entry, request)
    ensures Valid(u)
  {
    FreshPick(t.picks, t.decisions, request);
    PicksKeptGrow(t.picks, t.decisions, u.decisions);
    assert Issued(p.id, u.decisions) by {
      assert request in u.decisions && p.id == PickId(request);
    }
    EventsKeptAdmit(t.picks, t.ledger, t.events, p, entry);
    LedgerKeptAdmit(t.picks, t.ledger, p, entry);
    ReservedAppend(t.picks, t.ledger, entry, [p]);
  }

  lemma SettlePostable(t: Tables, id: string, result: string, stable: bool, record: FixtureResult)
    requires Valid(t)
    ensures var u := Settle(t, id, result, stable, record).0;
            u == t || exists e, kind :: Postable(t, e, kind) && u == Post(t, e, kind) && e.kind == Normal && e.pick == id
  {
    var u := Settle(t, id, result, stable, record).0;
    if u != t {
      InitialEventInRange(t.events, id);
      LastOfInRange(t.events, id);
      NoInitialMeansNone(t.events, id);
      var pick := FindPick(t.picks, id).value;
      var graded := SettleMarket(pick.market, pick.selection, record);
      PayoutsAgree(pick.stake, pick.odd, graded.value);
      var amounts := SettlementAmounts(pick.stake, pick.odd, graded.value).value;
      var e := Event(id, Normal, None, result, Some(amounts), amounts.delta, 0);
      assert Postable(t, e, EntryKindFor(graded.value));
    }
  }

  lemma {:induction false} NoInitialMeansNone(events: seq<Event>, pick: string)
    requires Chained(events)
    requires forall i | 0 <= i < |events| :: events[i].pick == pick ==> events[i].kind !in {Normal, ManualVoid}
    ensures LastOf(events, pick) == None
  {
    LastOfInRange(events, pick);
    if LastOf(events, pick).Some? {
      var q := LastOf(events, pick).value;
      assert Linked(events, q);
      ChainedPrefix(events, q);
      NoInitialMeansNone(events[..q], pick);
    }
  }

  lemma VoidPostable(t: Tables, id: string, result: string, pst: bool)
    requires Valid(t)
    ensures var u := VoidPostponed(t, id, result, pst).0;
            u == t || exists e, kind :: Postable(t, e, kind) && u == Post(t, e, kind) && e.kind == ManualVoid && e.pick == id
  {
    var u := VoidPostponed(t, id, result, pst).0;
    if u != t {
      LastOfInRange(t.events, id);
      var stake := FindPick(t.picks, id).value.stake;
      var e := Event(id, ManualVoid, None, result, Some(Amounts(Void, stake, 0, stake)), stake, 0);
      assert Postable(t, e, VoidRefund);
    }
  }

  lemma CorrectPostable(t: Tables, prior: nat, result: string, outcome: Outcome)
    requires Valid(t)
    ensures var u := Correct(t, prior, result, outcome).0;
            u == t || exists e, kind :: Postable(t, e, kind) && u == Post(t, e, kind) && e.kind == Correction && e.prior == Some(prior)
  {
    var u := Correct(t, prior, result, outcome).0;
    if u != t {
      EffectiveIsLast(t.events, prior);
      var id := t.events[prior].pick;
      var pick := FindPick(t.picks, id).value;
      PayoutsAgree(pick.stake, pick.odd, outcome);
      var amounts := SettlementAmounts(pick.stake, pick.odd, outcome).value;
      var e := Event(id, Correction, Some(prior), result, Some(amounts), amounts.gross - Gross(t.events[prior]), 0);
      assert Postable(t, e, SettlementAdjustment);
    }
  }

  lemma ReversePostable(t: Tables, prior: nat, result: string)
    requires Valid(t)
    ensures var u := Reverse(t, prior, result).0;
            u == t || exists e, kind :: Postable(t, e, kind) && u == Post(t, e, kind) && e.kind == Reversal && e.prior == Some(prior)
  {
    var u := Reverse(t, prior, result).0;
    if u != t {
      EffectiveIsLast(t.events, prior);
      var e := Event(t.events[prior].pick, Reversal, Some(prior), result, None, -Gross(t.events[prior]), 0);
      assert Postable(t, e, SettlementReversal);
    }
  }

  // A command that changes the settlement events posts exactly one of them.
  lemma CommandPosts(t: Tables, c: Command)
    requires Valid(t) && (c.DoSettle? || c.DoVoid? || c.DoCorrect? || c.DoReverse?)
    ensures Apply(t, c) == t
            || exists e, kind :: Postable(t, e, kind) && Apply(t, c) == Post(t, e, kind) && (e.kind == Reversal <==> c.DoReverse?)
  {
    match c {
      case DoSettle(id, result, stable, record) => SettlePostable(t, id, result, stable, record);
      case DoVoid(id, result, pst) => VoidPostable(t, id, result, pst);
      case DoCorrect(prior, result, outcome) => CorrectPostable(t, prior, result, outcome);
      case DoReverse(prior, result) => ReversePostable(t, prior, result);
    }
  }

  ghost predicate Funds(t: Tables, u: Tables, initial: int) {
    t.ledger == [] && u == t.(ledger := [Entry(InitialBankroll, initial, initial, None)])
  }

  // The four ways in which a transaction may change picks, ledger and events.
  ghost predicate Step(t: Tables, u: Tables) {
    || SameRows(t, u)
    || (exists initial :: Funds(t, u, initial))
    || (exists p, entry, request :: Admits(t, u, p, entry, request))
    || (exists e, kind :: Postable(t, e, kind) && u == Post(t, e, kind))
  }

  lemma ApplySteps(t: Tables, c: Command)
    requires Valid(t)
    ensures Step(t, Apply(t, c))
  {
    match c {
      case DoBootstrap(initial) =>
        assert SameRows(t, Apply(t, c)) || Funds(t, Apply(t, c), initial);
      case DoRegister(r) => RegisterAdmits(t, r);
      case DoSetState(r) => assert SameRows(t, SetState(t, r).0);
      case _ => CommandPosts(t, c);
    }
  }

  lemma NoRowsNoEvents(t: Tables)
    requires Valid(t)
    ensures t.ledger == [] ==> t.events == []
  {
    assert t.events == [] || t.events[0].entry < |t.ledger|;
  }

  lemma StepValid(t: Tables, u: Tables)
    requires Valid(t) && Step(t, u)
    ensures Valid(u)
  {
    if SameRows(t, u) {
      PicksKeptGrow(t.picks, t.decisions, u.decisions);
    } else if initial :| Funds(t, u, initial) {
      NoRowsNoEvents(t);
    } else if p, entry, request :| Admits(t, u, p, entry, request) {
      AdmitValid(t, u, p, entry, request);
    } else {
      var e, kind :| Postable(t, e, kind) && u == Post(t, e, kind);
      PostValid(t, e, kind);
    }
  }

  lemma ApplyValid(t: Tables, c: Command)
    requires Valid(t)
    ensures Valid(Apply(t, c))
  {
    ApplySteps(t, c);
    StepValid(t, Apply(t, c));
  }

  lemma {:induction false} RunValid(t: Tables, commands: seq<Command>)
    requires Valid(t)
    ensures Valid(Run(t, commands))
    decreases |commands|
  {
    if commands != [] {
      ApplyValid(t, commands[0]);
      RunValid(Apply(t, commands[0]), commands[1..]);
    }
  }
}
