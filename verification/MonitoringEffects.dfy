/** What starting, claiming, closing and reading a pick do, in field comparisons only. */
module MonitoringEffects {
  import opened Wrappers
  import opened Sorting
  import opened PrimaryKeys
  import opened Monitoring
  import opened MonitoringTheorems
  import opened ClosingTheorems

  // ----- what counts -----

  ghost predicate KeyedSightings(sightings: seq<Sighting>) {
    forall a, b | a in sightings && b in sightings && a.id == b.id :: a == b
  }

  // The observation of a fixture made last among those made and stamped by a moment.
  ghost predicate NewestSeen(sightings: seq<Sighting>, fixture: nat, at: int, s: Sighting) {
    && s in sightings && s.fixture == fixture && s.observedAt <= at && s.persistedAt <= at
    && forall x | x in sightings && x.fixture == fixture && x.observedAt <= at && x.persistedAt <= at ::
         x.observedAt < s.observedAt || (x.observedAt == s.observedAt && x.id <= s.id)
  }

  ghost predicate NoneSeen(sightings: seq<Sighting>, fixture: nat, at: int) {
    forall x | x in sightings && x.fixture == fixture && x.observedAt <= at :: x.persistedAt > at
  }

  // A price of the pinned series and source, observed and captured before the cutoff, for a fixture
  // that at its capture was known to be in an allowed status and not to have kicked off.
  ghost predicate Counts(sightings: seq<Sighting>, c: Context, cutoff: int, q: Quote) {
    && q.series == c.series && q.source == c.source && q.observedAt < cutoff && q.capturedAt < cutoff
    && exists s :: NewestSeen(sightings, c.fixture, q.capturedAt, s)
         && s.status in c.allowed && q.observedAt < s.kickoffAt && q.capturedAt < s.kickoffAt
  }

  ghost predicate ComesLater(a: Quote, b: Quote) {
    || a.observedAt > b.observedAt
    || (a.observedAt == b.observedAt && a.capturedAt > b.capturedAt)
    || (a.observedAt == b.observedAt && a.capturedAt == b.capturedAt && a.id > b.id)
  }

  ghost predicate CapturedBefore(a: Quote, b: Quote) {
    || a.capturedAt < b.capturedAt
    || (a.capturedAt == b.capturedAt && a.observedAt < b.observedAt)
    || (a.capturedAt == b.capturedAt && a.observedAt == b.observedAt && a.id < b.id)
  }

  lemma {:induction false} LatestSightingHolds(sightings: seq<Sighting>, fixture: nat, at: int)
    ensures match LatestSighting(sightings, fixture, at)
            case None => NoneSeen(sightings, fixture, at)
            case Some(s) => NewestSeen(sightings, fixture, at, s)
  {
    if sightings != [] {
      LatestSightingHolds(sightings[..|sightings| - 1], fixture, at);
      assert sightings == sightings[..|sightings| - 1] + [sightings[|sightings| - 1]];
    }
  }

  lemma LatestSightingExactly(sightings: seq<Sighting>, fixture: nat, at: int)
    requires KeyedSightings(sightings)
    ensures forall s :: NewestSeen(sightings, fixture, at, s) <==> LatestSighting(sightings, fixture, at) == Some(s)
    ensures LatestSighting(sightings, fixture, at).None? <==> NoneSeen(sightings, fixture, at)
  {
    LatestSightingHolds(sightings, fixture, at);
  }

  lemma CountsExactly(sightings: seq<Sighting>, c: Context, cutoff: int, available: int, q: Quote)
    requires KeyedSightings(sightings)
    ensures ValidQuote(sightings, c, cutoff, available, q) <==> Counts(sightings, c, cutoff, q) && q.capturedAt <= available
  {
    LatestSightingExactly(sightings, c.fixture, q.capturedAt);
  }

  // ----- the close -----

  ghost predicate LastToCount(w: World, c: Context, cutoff: int, q: Quote) {
    && q in w.quotes && Counts(w.sightings, c, cutoff, q)
    && forall x | x in w.quotes && x != q && Counts(w.sightings, c, cutoff, x) :: ComesLater(q, x)
  }

  // The close is due: the pick is monitored, and the newest observation of its fixture has kicked off.
  ghost predicate CloseDue(w: World, pick: nat, at: int, s: Sighting) {
    && pick in w.states && pick in w.contexts && pick !in w.finalizations && w.states[pick].state == Monitored
    && NewestSeen(w.sightings, w.contexts[pick].fixture, at, s) && at >= s.kickoffAt
  }

  // What a finalization stores: the cutoff is the kickoff it knew, the close the last price to count.
  ghost predicate ClosesOn(w: World, u: World, pick: nat, at: int, s: Sighting)
    requires pick in w.states && pick in w.contexts && pick in u.finalizations
  {
    var f, c, row := u.finalizations[pick], w.contexts[pick], w.states[pick];
    && f.sighting == s.id && f.cutoffAt == s.kickoffAt && f.finalizedAt == at && f.closingMaxAge == row.policy.closingMaxAge
    && f.candidate == f.closing && (f.outcome == Captured <==> f.closing.Some?)
    && (f.closing.None? ==> forall q | q in w.quotes :: !Counts(w.sightings, c, s.kickoffAt, q))
    && (f.closing.Some? ==> exists q :: LastToCount(w, c, s.kickoffAt, q) && q.id == f.closing.value)
    && u == w.(states := w.states[pick := Record(ClosedForOdds, row.policy, row.startedAt, None, at, row.version + 1)],
               transitions := w.transitions + [Transition(pick, OddsClosed, Monitored, ClosedForOdds, at)],
               finalizations := w.finalizations[pick := f])
  }

  lemma CloseOnExactly(w: World, pick: nat, at: int, s: Sighting)
    requires KeyedQuotes(w.quotes) && KeyedSightings(w.sightings) && CloseDue(w, pick, at, s)
    ensures var u := Finalize(w, pick, at).0;
            pick in u.finalizations && ClosesOn(w, u, pick, at, s) && Finalize(w, pick, at).1 == Ok(u.finalizations[pick])
  {
    LatestSightingExactly(w.sightings, w.contexts[pick].fixture, at);
    var u, c := Finalize(w, pick, at).0, w.contexts[pick];
    QueriesExact(w.quotes, w.sightings, c, s.kickoffAt, s.kickoffAt);
    forall q ensures q in ValidQuotes(w.quotes, w.sightings, c, s.kickoffAt, s.kickoffAt) <==>
                       q in w.quotes && Counts(w.sightings, c, s.kickoffAt, q)
    {
      CountsExactly(w.sightings, c, s.kickoffAt, s.kickoffAt, q);
    }
    var latest := Latest(w.quotes, w.sightings, c, s.kickoffAt, s.kickoffAt);
    if latest.Some? {
      assert LastToCount(w, c, s.kickoffAt, latest.value);
    }
  }

  // A finalization changes the tables exactly when the close is due, and then stores it.
  lemma FinalizeExactly(w: World, pick: nat, at: int)
    requires KeyedQuotes(w.quotes) && KeyedSightings(w.sightings)
    ensures var (u, answer) := Finalize(w, pick, at);
            && (u != w <==> exists s :: CloseDue(w, pick, at, s))
            && (forall s | CloseDue(w, pick, at, s) ::
                  pick in u.finalizations && ClosesOn(w, u, pick, at, s) && answer == Ok(u.finalizations[pick]))
            && (u == w && answer.Ok? ==> pick in w.finalizations && answer.value == w.finalizations[pick])
  {
    var (u, answer) := Finalize(w, pick, at);
    forall s | CloseDue(w, pick, at, s)
      ensures pick in u.finalizations && ClosesOn(w, u, pick, at, s) && answer == Ok(u.finalizations[pick]) && u != w
    {
      CloseOnExactly(w, pick, at, s);
    }
    if u != w {
      var known := LatestSighting(w.sightings, w.contexts[pick].fixture, at);
      LatestSightingHolds(w.sightings, w.contexts[pick].fixture, at);
      assert CloseDue(w, pick, at, known.value);
    }
  }

  // ----- the view -----

  // The moments of a view: a closed pick is read at its cutoff, an open one with what is known when
  // it is read.
  ghost predicate ReadsAt(w: World, pick: nat, readAt: int, cutoff: int, available: int)
    requires pick in w.contexts
  {
    if pick in w.finalizations then cutoff == w.finalizations[pick].cutoffAt == available
    else available == readAt && exists s :: NewestSeen(w.sightings, w.contexts[pick].fixture, readAt, s) && cutoff == s.kickoffAt
  }

  ghost predicate InView(w: World, c: Context, cutoff: int, available: int, q: Quote) {
    q in w.quotes && Counts(w.sightings, c, cutoff, q) && q.capturedAt <= available
  }

  // The history lists the prices in view in order of capture, from the opening on; the current price
  // of an open pick is the last of them, that of a closed pick its stored close.
  ghost predicate Shows(w: World, pick: nat, cutoff: int, available: int, view: Lifecycle)
    requires pick in w.contexts
  {
    var c := w.contexts[pick];
    && (forall q :: q in view.history <==> InView(w, c, cutoff, available, q))
    && (forall i, j | 0 <= i < j < |view.history| :: CapturedBefore(view.history[i], view.history[j]))
    && view.opening == (if view.history == [] then None else Some(view.history[0]))
    && view.entry in w.quotes && view.entry.id == c.entry
    && view.state == (if pick in w.states then w.states[pick].state else Registered)
    && (pick in w.finalizations ==> view.outcome == Some(w.finalizations[pick].outcome)
                                    && NamedBy(w, view.closing, w.finalizations[pick].closing)
                                    && NamedBy(w, view.current, w.finalizations[pick].candidate))
    && (pick !in w.finalizations ==> view.outcome == None && view.closing == None
                                     && (view.current.None? <==> view.history == [])
                                     && forall q | q in view.history && view.current != Some(q) ::
                                          view.current.Some? && view.current.value in view.history && ComesLater(view.current.value, q))
  }

  ghost predicate NamedBy(w: World, quote: Option<Quote>, id: Option<nat>) {
    if id.None? then quote == None else quote.Some? && quote.value in w.quotes && quote.value.id == id.value
  }

  // Fresh means neither from the future nor older than the limit, by both of its times.
  ghost predicate FreshBy(q: Quote, at: int, limit: int) {
    q.observedAt <= at <= q.observedAt + limit && q.capturedAt <= at <= q.capturedAt + limit
  }

  lemma QueriesShow(w: World, c: Context, cutoff: int, available: int)
    requires KeyedQuotes(w.quotes) && KeyedSightings(w.sightings)
    ensures var history := History(w.quotes, w.sightings, c, cutoff, available);
            var latest := Latest(w.quotes, w.sightings, c, cutoff, available);
            && (forall q :: q in history <==> InView(w, c, cutoff, available, q))
            && (forall i, j | 0 <= i < j < |history| :: CapturedBefore(history[i], history[j]))
            && Opening(w.quotes, w.sightings, c, cutoff, available) == (if history == [] then None else Some(history[0]))
            && (latest.None? <==> history == [])
            && forall q | q in history && latest != Some(q) :: latest.Some? && latest.value in history && ComesLater(latest.value, q)
  {
    var history := History(w.quotes, w.sightings, c, cutoff, available);
    var valid := ValidQuotes(w.quotes, w.sightings, c, cutoff, available);
    QueriesExact(w.quotes, w.sightings, c, cutoff, available);
    ValidQuotesKeyed(w.quotes, w.sightings, c, cutoff, available);
    SameElements(history, valid);
    forall q ensures q in history <==> InView(w, c, cutoff, available, q) {
      CountsExactly(w.sightings, c, cutoff, available, q);
      assert q in history <==> q in valid by {
        assert q in Elements(history) <==> q in Elements(valid);
      }
    }
    InOrderOfCapture(history, valid);
    assert history == [] <==> valid == [];
    LastOfHistory(history, valid, Latest(w.quotes, w.sightings, c, cutoff, available));
  }

  lemma LastOfHistory(history: seq<Quote>, valid: seq<Quote>, latest: Option<Quote>)
    requires Elements(history) == Elements(valid) && FirstOf(ObservedLast, valid, latest)
    ensures forall q | q in history && latest != Some(q) :: latest.Some? && latest.value in history && ComesLater(latest.value, q)
  {
    forall q | q in history && latest != Some(q)
      ensures latest.Some? && latest.value in history && ComesLater(latest.value, q)
    {
      assert q in Elements(valid);
      assert latest.value in Elements(history);
    }
  }

  lemma InOrderOfCapture(history: seq<Quote>, valid: seq<Quote>)
    requires KeyedQuotes(valid) && Elements(history) == Elements(valid) && Distinct(history) && Sorted(CapturedFirst, history)
    ensures forall i, j | 0 <= i < j < |history| :: CapturedBefore(history[i], history[j])
  {
    QuoteOrdersAreTotal(valid);
    forall i, j | 0 <= i < j < |history| ensures CapturedBefore(history[i], history[j]) {
      assert history[i] in Elements(valid) && history[j] in Elements(valid);
      assert CapturedFirst(history[i], history[j]);
    }
  }

  ghost predicate ShownFresh(w: World, pick: nat, readAt: int, cutoff: int, view: Lifecycle)
    requires pick in w.contexts
  {
    var limit := if pick in w.states then w.states[pick].policy.currentMaxAge else w.contexts[pick].entryMaxAge;
    view.currentFresh <==>
      view.current.Some? && FreshBy(view.current.value, if pick in w.finalizations || readAt >= cutoff then cutoff else readAt, limit)
  }

  // A successful read shows exactly what counted at its moments.
  lemma ReadExactly(w: World, pick: nat, readAt: int)
    requires KeyedQuotes(w.quotes) && KeyedSightings(w.sightings) && pick in w.contexts
    ensures var answer := ReadLifecycle(w, pick, readAt);
            answer.Ok? ==>
              exists cutoff, available ::
                && ReadsAt(w, pick, readAt, cutoff, available) && Shows(w, pick, cutoff, available, answer.value)
                && ShownFresh(w, pick, readAt, cutoff, answer.value)
  {
    if ReadLifecycle(w, pick, readAt).Ok? {
      if pick in w.finalizations {
        ClosedReadExactly(w, pick, readAt);
      } else {
        OpenReadExactly(w, pick, readAt);
      }
    }
  }

  lemma ClosedReadExactly(w: World, pick: nat, readAt: int)
    requires KeyedQuotes(w.quotes) && KeyedSightings(w.sightings) && pick in w.contexts && pick in w.finalizations
    requires ReadLifecycle(w, pick, readAt).Ok?
    ensures var cutoff, view := w.finalizations[pick].cutoffAt, ReadLifecycle(w, pick, readAt).value;
            ReadsAt(w, pick, readAt, cutoff, cutoff) && Shows(w, pick, cutoff, cutoff, view) && ShownFresh(w, pick, readAt, cutoff, view)
  {
    var f := w.finalizations[pick];
    QuoteByIdExact(w.quotes, w.contexts[pick].entry);
    if f.candidate.Some? {
      QuoteByIdExact(w.quotes, f.candidate.value);
    }
    if f.closing.Some? {
      QuoteByIdExact(w.quotes, f.closing.value);
    }
    QueriesShow(w, w.contexts[pick], f.cutoffAt, f.cutoffAt);
  }

  lemma OpenReadExactly(w: World, pick: nat, readAt: int)
    requires KeyedQuotes(w.quotes) && KeyedSightings(w.sightings) && pick in w.contexts && pick !in w.finalizations
    requires ReadLifecycle(w, pick, readAt).Ok?
    ensures exists cutoff :: ReadsAt(w, pick, readAt, cutoff, readAt)
              && Shows(w, pick, cutoff, readAt, ReadLifecycle(w, pick, readAt).value)
              && ShownFresh(w, pick, readAt, cutoff, ReadLifecycle(w, pick, readAt).value)
  {
    var c := w.contexts[pick];
    QuoteByIdExact(w.quotes, c.entry);
    LatestSightingHolds(w.sightings, c.fixture, readAt);
    var cutoff := LatestSighting(w.sightings, c.fixture, readAt).value.kickoffAt;
    QueriesShow(w, c, cutoff, readAt);
    assert ReadsAt(w, pick, readAt, cutoff, readAt);
    assert Shows(w, pick, cutoff, readAt, ReadLifecycle(w, pick, readAt).value);
  }

  // ----- starts and claims -----

  // A new pick starts monitored and due at once; a repeated start answers the row while it is open
  // under the same policy.
  lemma StartExactly(w: World, pick: nat, policy: Policy, at: int)
    ensures var (u, answer) := Start(w, pick, policy, at);
            && (u != w <==> pick in w.contexts && pick !in w.states)
            && (u != w ==> var record := Record(Monitored, policy, at, Some(at), at, 1);
                           && answer == Ok(record)
                           && u == w.(states := w.states[pick := record],
                                      transitions := w.transitions + [Transition(pick, MonitoringStarted, Registered, Monitored, at)]))
            && (u == w ==> (answer.Ok? <==> pick in w.contexts && w.states[pick].policy == policy
                                            && w.states[pick].state != ClosedForOdds)
                           && (answer.Ok? ==> answer.value == w.states[pick]))
  {
    var (u, answer) := Start(w, pick, policy, at);
    assert pick in w.contexts && pick !in w.states ==> pick in u.states;
  }

  // A claim takes only monitored picks whose refresh is due and whose row is free, as many as the
  // limit allows, none of them later due than one it leaves, and moves each by its own interval.
  lemma ClaimExactly(w: World, at: int, limit: int, locked: set<nat>)
    requires limit > 0
    ensures var (u, answer) := ClaimDue(w, at, limit, locked);
            && answer.Ok? && Distinct(answer.value) && |answer.value| <= limit && u.states.Keys == w.states.Keys
            && (forall p | p in answer.value :: p !in locked && DueRow(w.states, p, at)
                                                && u.states[p] == w.states[p].(nextRefreshAt := Some(at + w.states[p].policy.interval),
                                                                               updatedAt := at, version := w.states[p].version + 1))
            && (forall p | p in w.states && p !in answer.value :: u.states[p] == w.states[p])
            && (forall p, q | p in answer.value && q !in answer.value && q !in locked && DueRow(w.states, q, at) ::
                  |answer.value| == limit && w.states[p].nextRefreshAt.value <= w.states[q].nextRefreshAt.value)
            && (forall q | q !in answer.value && q !in locked && DueRow(w.states, q, at) :: |answer.value| == limit)
  {
    var picks := Claimed(w.states, at, limit, locked);
    ClaimedExact(w.states, at, limit, locked);
    RescheduleAllExact(w.states, picks, at);
    var due := DuePicks(w.states, at, locked);
    forall q ensures q in due <==> DueRow(w.states, q, at) && q !in locked {}
    forall q | q !in picks && q in due ensures |picks| == limit {
      MissedMeansFull(picks, due, q, limit);
    }
  }

  predicate DueRow(states: map<nat, Record>, pick: nat, at: int) {
    pick in states && states[pick].state == Monitored && states[pick].nextRefreshAt.Some? && states[pick].nextRefreshAt.value <= at
  }

  // Stored observations keep distinct ids in every run.
  lemma {:induction false} RunKeyed(w: World, steps: seq<Step>)
    requires ClosesSound(w) && KeyedSightings(w.sightings)
    ensures KeyedSightings(Run(w, steps).sightings) && KeyedQuotes(Run(w, steps).quotes)
    decreases |steps|
  {
    if steps != [] {
      NextCloses(w, steps[0]);
      NextKeyed(w, steps[0]);
      RunKeyed(Next(w, steps[0]), steps[1..]);
    }
  }

  lemma NextKeyed(w: World, s: Step)
    requires LifecycleSound(w) && KeyedSightings(w.sightings)
    ensures KeyedSightings(Next(w, s).sightings)
  {
    if !s.Observe? {
      assert Next(w, s).sightings == w.sightings;
    }
  }
}
