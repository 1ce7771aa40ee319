/** The monitoring repository: one method per transaction, over its tables. */
module MonitoringRepository {
  import opened Wrappers
  import opened Monitoring
  import opened MonitoringTheorems
  import opened ClosingTheorems
  import opened MonitoringEffects

  // A marker and the checkpoint it points at.
  function CheckpointsOf(view: Lifecycle): seq<(Marker, Option<Quote>)> {
    [(OpenMark, view.opening), (EntryMark, Some(view.entry)), (CurrentMark, view.current), (CloseMark, view.closing)]
  }

  function MarksOn(checkpoints: seq<(Marker, Option<Quote>)>, id: nat): seq<Marker> {
    if checkpoints == [] then []
    else
      var (mark, quote) := checkpoints[|checkpoints| - 1];
      MarksOn(checkpoints[..|checkpoints| - 1], id) + if quote.Some? && quote.value.id == id then [mark] else []
  }

  ghost predicate MarkersMatch(markers: map<nat, seq<Marker>>, checkpoints: seq<(Marker, Option<Quote>)>) {
    forall id :: MarkMatches(markers, checkpoints, id)
  }

  ghost predicate MarkMatches(markers: map<nat, seq<Marker>>, checkpoints: seq<(Marker, Option<Quote>)>, id: nat) {
    && (id in markers <==> MarksOn(checkpoints, id) != [])
    && (id in markers ==> markers[id] == MarksOn(checkpoints, id))
  }

  function WithMarker(markers: map<nat, seq<Marker>>, mark: Marker, quote: Option<Quote>): map<nat, seq<Marker>> {
    if quote.None? then markers
    else
      var id := quote.value.id;
      markers[id := (if id in markers then markers[id] else []) + [mark]]
  }

  lemma MarkersStep(markers: map<nat, seq<Marker>>, checkpoints: seq<(Marker, Option<Quote>)>, i: nat)
    requires i < |checkpoints| && MarkersMatch(markers, checkpoints[..i])
    ensures MarkersMatch(WithMarker(markers, checkpoints[i].0, checkpoints[i].1), checkpoints[..i + 1])
  {
    assert checkpoints[..i + 1][..i] == checkpoints[..i];
    var next := WithMarker(markers, checkpoints[i].0, checkpoints[i].1);
    var longer := checkpoints[..i + 1];
    forall id ensures MarkMatches(next, longer, id) {
      assert MarkMatches(markers, checkpoints[..i], id);
    }
  }

  class Repository {
    var contexts: map<nat, Context>
    var states: map<nat, Record>
    var transitions: seq<Transition>
    var finalizations: map<nat, Finalization>
    var quotes: seq<Quote>
    var sightings: seq<Sighting>
    var now: int
    ghost var claims: seq<Claim>

    ghost function Stored(): World
      reads this
    {
      World(contexts, states, transitions, finalizations, quotes, sightings, now, claims)
    }

    constructor ()
      ensures Stored() == EMPTY
    {
      contexts, states, transitions, finalizations, quotes, sightings, now, claims :=
        map[], map[], [], map[], [], [], 0, [];
    }

    method StartPick(pick: nat, policy: Policy, at: int) returns (answer: Result<Record, MonitoringError>)
      modifies this`states, this`transitions
      ensures (Stored(), answer) == Start(old(Stored()), pick, policy, at)
    {
      if pick !in contexts {
        return Err(NoSuchPick);
      }
      if pick in states {
        if states[pick].policy != policy || states[pick].state == ClosedForOdds {
          return Err(Conflict);
        }
        return Ok(states[pick]);
      }
      states := states[pick := Record(Monitored, policy, at, Some(at), at, 1)];
      transitions := transitions + [Transition(pick, MonitoringStarted, Registered, Monitored, at)];
      return Ok(states[pick]);
    }

    // locked are the rows a concurrent claim holds.
    method ClaimPicks(at: int, limit: int, locked: set<nat>) returns (answer: Result<seq<nat>, MonitoringError>)
      modifies this`states, this`claims
      ensures (Stored(), answer) == ClaimDue(old(Stored()), at, limit, locked)
    {
      if limit <= 0 {
        return Err(LimitNotPositive);
      }
      var rows := Claimed(states, at, limit, locked);
      ghost var before := states;
      for i := 0 to |rows|
        invariant states == RescheduleAll(before, rows[..i], at) && claims == old(claims)
      {
        assert rows[..i + 1][..i] == rows[..i];
        if rows[i] in states && states[rows[i]].state == Monitored {
          var row := states[rows[i]];
          states := states[rows[i] := row.(nextRefreshAt := Some(at + row.policy.interval), updatedAt := at,
                                           version := row.version + 1)];
        }
      }
      assert rows[..|rows|] == rows;
      claims := claims + LogOf(rows, at);
      return Ok(rows);
    }

    method HasDueRefreshes(at: int) returns (due: bool)
      ensures due <==> exists pick :: pick in states && Due(states, pick, at)
    {
      due := exists pick | pick in states :: Due(states, pick, at);
    }

    method FinalizePick(pick: nat, at: int) returns (answer: Result<Finalization, MonitoringError>)
      modifies this`states, this`transitions, this`finalizations
      ensures (Stored(), answer) == Finalize(old(Stored()), pick, at)
      ensures KeyedQuotes(quotes) && KeyedSightings(sightings) ==>
                (Stored() != old(Stored()) <==> exists s :: CloseDue(old(Stored()), pick, at, s))
      ensures KeyedQuotes(quotes) && KeyedSightings(sightings) ==>
                forall s | CloseDue(old(Stored()), pick, at, s) ::
                  pick in finalizations && ClosesOn(old(Stored()), Stored(), pick, at, s)
    {
      if KeyedQuotes(quotes) && KeyedSightings(sightings) {
        FinalizeExactly(Stored(), pick, at);
      }
      if pick !in states {
        return Err(NotStarted);
      }
      if pick in finalizations {
        return Ok(finalizations[pick]);
      }
      if states[pick].state != Monitored {
        return Err(Conflict);
      }
      if pick !in contexts {
        return Err(NoSuchPick);
      }
      var context, row := contexts[pick], states[pick];
      var known := LatestSighting(sightings, context.fixture, at);
      if known.None? {
        return Err(Conflict);
      }
      var cutoff := known.value.kickoffAt;
      if at < cutoff {
        return Err(NotDue);
      }
      var candidate := Latest(quotes, sightings, context, cutoff, cutoff);
      var outcome, closing := NoValidQuote, None;
      if candidate.Some? {
        outcome, closing := Captured, Some(candidate.value.id);
      }
      finalizations := finalizations[pick := Finalization(known.value.id, cutoff, at, outcome, closing, closing,
                                                          row.policy.closingMaxAge)];
      transitions := transitions + [Transition(pick, OddsClosed, Monitored, ClosedForOdds, at)];
      states := states[pick := row.(state := ClosedForOdds, nextRefreshAt := None, updatedAt := at,
                                    version := row.version + 1)];
      return Ok(finalizations[pick]);
    }

    method ReadPick(pick: nat, readAt: int)
      returns (answer: Result<Lifecycle, MonitoringError>, markers: map<nat, seq<Marker>>)
      ensures answer == ReadLifecycle(Stored(), pick, readAt)
      ensures answer.Err? ==> markers == map[]
      ensures answer.Ok? ==> MarkersMatch(markers, CheckpointsOf(answer.value))
    {
      markers := map[];
      answer := Read(pick, readAt);
      if answer.Err? {
        return;
      }
      var checkpoints := CheckpointsOf(answer.value);
      for i := 0 to |checkpoints|
        invariant MarkersMatch(markers, checkpoints[..i])
      {
        MarkersStep(markers, checkpoints, i);
        var (mark, quote) := checkpoints[i];
        if quote.Some? {
          var id := quote.value.id;
          markers := markers[id := (if id in markers then markers[id] else []) + [mark]];
        }
      }
      assert checkpoints[..|checkpoints|] == checkpoints;
    }

    method Read(pick: nat, readAt: int) returns (answer: Result<Lifecycle, MonitoringError>)
      ensures answer == ReadLifecycle(Stored(), pick, readAt)
    {
      if pick !in contexts {
        return Err(NoSuchPick);
      }
      var context := contexts[pick];
      var cutoff, reference, available := 0, 0, 0;
      var current: Option<Quote>, closing: Option<Quote>, outcome: Option<ClosingOutcome> := None, None, None;
      if pick in finalizations {
        var f := finalizations[pick];
        cutoff, reference, available, outcome := f.cutoffAt, f.cutoffAt, f.cutoffAt, Some(f.outcome);
        if f.candidate.Some? {
          current := QuoteById(quotes, f.candidate.value);
          if current.None? {
            return Err(Conflict);
          }
        }
        if f.closing.Some? {
          closing := QuoteById(quotes, f.closing.value);
          if closing.None? {
            return Err(Conflict);
          }
        }
      } else {
        var known := LatestSighting(sightings, context.fixture, readAt);
        if known.None? {
          return Err(Conflict);
        }
        cutoff, available := known.value.kickoffAt, readAt;
        reference := if readAt < cutoff then readAt else cutoff;
        current := Latest(quotes, sightings, context, cutoff, readAt);
      }
      var entry := QuoteById(quotes, context.entry);
      if entry.None? {
        return Err(Conflict);
      }
      var state, maximum := Registered, context.entryMaxAge;
      if pick in states {
        state, maximum := states[pick].state, states[pick].policy.currentMaxAge;
      }
      return Ok(Lifecycle(state, Opening(quotes, sightings, context, cutoff, available), entry.value, current,
                          current.Some? && FreshAt(current.value, reference, maximum), closing, outcome,
                          History(quotes, sightings, context, cutoff, available)));
    }
  }
}
