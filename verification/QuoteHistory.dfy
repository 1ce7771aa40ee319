/** The append-only quote history: series definitions and snapshots in transactional batches. */
module QuoteHistory {
  import opened Wrappers
  import opened Settlement

  datatype Quote = Quote(id: nat, series: nat, source: string, odd: real, observedAt: int, capturedAt: int)

  datatype Series = Series(id: nat, fixture: nat, bookmaker: int, market: Market, selection: Selection, createdAt: int)

  datatype History = History(series: seq<Series>, quotes: seq<Quote>)

  datatype HistoryError = DuplicateSeries | ConflictingSeries | UnknownSeries | ConflictingId | ConflictingObservation

  // ----- series -----

  predicate SameDefinition(a: Series, b: Series) {
    a.fixture == b.fixture && a.bookmaker == b.bookmaker && a.market == b.market && a.selection == b.selection
  }

  // Either unique key of the table stops an insert.
  predicate Collides(a: Series, b: Series) {
    a.id == b.id || SameDefinition(a, b)
  }

  function InsertSeries(stored: seq<Series>, s: Series): seq<Series> {
    if exists x | x in stored :: Collides(x, s) then stored else stored + [s]
  }

  function InsertAllSeries(stored: seq<Series>, incoming: seq<Series>): seq<Series> {
    if incoming == [] then stored
    else InsertSeries(InsertAllSeries(stored, incoming[..|incoming| - 1]), incoming[|incoming| - 1])
  }

  predicate RepeatsId(incoming: seq<Series>) {
    exists i, j :: 0 <= i < j < |incoming| && incoming[i].id == incoming[j].id
  }

  // A batch commits when every definition is stored exactly as given.
  function EnsureSeries(h: History, incoming: seq<Series>): (History, Result<(), HistoryError>) {
    if RepeatsId(incoming) then (h, Err(DuplicateSeries))
    else
      var stored := InsertAllSeries(h.series, incoming);
      if forall s | s in incoming :: s in stored then (h.(series := stored), Ok(())) else (h, Err(ConflictingSeries))
  }

  // ----- snapshots -----

  predicate SamePayload(a: Quote, b: Quote) {
    a.series == b.series && a.odd == b.odd && a.observedAt == b.observedAt && a.source == b.source
  }

  // The semantic identity of an observation.
  predicate SameObservation(a: Quote, b: Quote) {
    a.series == b.series && a.observedAt == b.observedAt && a.source == b.source
  }

  function ById(quotes: seq<Quote>, id: nat): Option<Quote> {
    if quotes == [] then None
    else if quotes[|quotes| - 1].id == id then Some(quotes[|quotes| - 1])
    else ById(quotes[..|quotes| - 1], id)
  }

  function ByObservation(quotes: seq<Quote>, q: Quote): Option<Quote> {
    if quotes == [] then None
    else if SameObservation(quotes[|quotes| - 1], q) then Some(quotes[|quotes| - 1])
    else ByObservation(quotes[..|quotes| - 1], q)
  }

  function AppendOne(quotes: seq<Quote>, q: Quote): Result<seq<Quote>, HistoryError> {
    var known := ById(quotes, q.id);
    if known.Some? then (if SamePayload(known.value, q) then Ok(quotes) else Err(ConflictingId))
    else
      var observed := ByObservation(quotes, q);
      if observed.None? then Ok(quotes + [q])
      else if observed.value.odd == q.odd then Ok(quotes) else Err(ConflictingObservation)
  }

  function AppendAll(quotes: seq<Quote>, incoming: seq<Quote>): Result<seq<Quote>, HistoryError> {
    if incoming == [] then Ok(quotes)
    else
      var before := AppendAll(quotes, incoming[..|incoming| - 1]);
      if before.Err? then before else AppendOne(before.value, incoming[|incoming| - 1])
  }

  predicate KnownSeries(h: History, incoming: seq<Quote>) {
    forall q | q in incoming :: exists s | s in h.series :: s.id == q.series
  }

  function Append(h: History, incoming: seq<Quote>): (History, Result<(), HistoryError>) {
    if !KnownSeries(h, incoming) then (h, Err(UnknownSeries))
    else
      var appended := AppendAll(h.quotes, incoming);
      if appended.Err? then (h, Err(appended.error)) else (h.(quotes := appended.value), Ok(()))
  }

  class Repository {
    var series: seq<Series>
    var quotes: seq<Quote>

    function Stored(): History
      reads this
    {
      History(series, quotes)
    }

    constructor ()
      ensures Stored() == History([], [])
    {
      series, quotes := [], [];
    }

    method EnsureSeriesBatch(incoming: seq<Series>) returns (answer: Result<(), HistoryError>)
      modifies this`series
      ensures (Stored(), answer) == EnsureSeries(old(Stored()), incoming)
    {
      if RepeatsId(incoming) {
        return Err(DuplicateSeries);
      }
      var working := series;
      for i := 0 to |incoming|
        invariant working == InsertAllSeries(series, incoming[..i])
      {
        assert incoming[..i + 1][..i] == incoming[..i];
        if !exists x | x in working :: Collides(x, incoming[i]) {
          working := working + [incoming[i]];
        }
      }
      assert incoming[..|incoming|] == incoming;
      for i := 0 to |incoming|
        invariant forall s | s in incoming[..i] :: s in working
      {
        if incoming[i] !in working {
          assert incoming[i] in incoming;
          return Err(ConflictingSeries);
        }
      }
      series := working;
      return Ok(());
    }

    // The transaction works on its own version and commits at the end.
    method AppendSnapshots(incoming: seq<Quote>) returns (answer: Result<(), HistoryError>)
      modifies this`quotes
      ensures (Stored(), answer) == Append(old(Stored()), incoming)
    {
      if !KnownSeries(Stored(), incoming) {
        return Err(UnknownSeries);
      }
      var working := quotes;
      for i := 0 to |incoming|
        invariant AppendAll(quotes, incoming[..i]) == Ok(working)
      {
        assert incoming[..i + 1][..i] == incoming[..i];
        var q := incoming[i];
        var known := ById(working, q.id);
        if known.Some? {
          if !SamePayload(known.value, q) {
            FailureStays(quotes, incoming, i + 1);
            return Err(ConflictingId);
          }
          continue;
        }
        if ByObservation(working, q).None? {
          working := working + [q];
        } else if ByObservation(working, q).value.odd != q.odd {
          FailureStays(quotes, incoming, i + 1);
          return Err(ConflictingObservation);
        }
      }
      assert incoming[..|incoming|] == incoming;
      quotes := working;
      return Ok(());
    }
  }

  lemma {:induction false} FailureStays(quotes: seq<Quote>, incoming: seq<Quote>, n: nat)
    requires n <= |incoming| && AppendAll(quotes, incoming[..n]).Err?
    ensures AppendAll(quotes, incoming) == AppendAll(quotes, incoming[..n])
  {
    if n == |incoming| {
      assert incoming[..n] == incoming;
    } else {
      var front := incoming[..|incoming| - 1];
      assert front[..n] == incoming[..n];
      FailureStays(quotes, front, n);
    }
  }

  // ----- what every history keeps -----

  ghost predicate UniqueQuotes(quotes: seq<Quote>) {
    forall i, j | 0 <= i < j < |quotes| ::
      quotes[i].id != quotes[j].id && !SameObservation(quotes[i], quotes[j])
  }

  ghost predicate UniqueSeries(series: seq<Series>) {
    forall i, j | 0 <= i < j < |series| :: !Collides(series[i], series[j])
  }

  ghost predicate Sound(h: History) {
    UniqueSeries(h.series) && UniqueQuotes(h.quotes) && KnownSeries(h, h.quotes)
  }

  lemma {:induction false} ByIdExact(quotes: seq<Quote>, id: nat)
    ensures ById(quotes, id).None? <==> forall q | q in quotes :: q.id != id
    ensures ById(quotes, id).Some? ==> ById(quotes, id).value in quotes && ById(quotes, id).value.id == id
  {
    if quotes != [] {
      ByIdExact(quotes[..|quotes| - 1], id);
      assert quotes == quotes[..|quotes| - 1] + [quotes[|quotes| - 1]];
    }
  }

  lemma {:induction false} ByObservationExact(quotes: seq<Quote>, q: Quote)
    ensures ByObservation(quotes, q).None? <==> forall x | x in quotes :: !SameObservation(x, q)
    ensures ByObservation(quotes, q).Some? ==>
              ByObservation(quotes, q).value in quotes && SameObservation(ByObservation(quotes, q).value, q)
  {
    if quotes != [] {
      ByObservationExact(quotes[..|quotes| - 1], q);
      assert quotes == quotes[..|quotes| - 1] + [quotes[|quotes| - 1]];
    }
  }

  lemma SameQuote(quotes: seq<Quote>, a: Quote, b: Quote)
    requires UniqueQuotes(quotes) && a in quotes && b in quotes && (a.id == b.id || SameObservation(a, b))
    ensures a == b
  {
    var i :| 0 <= i < |quotes| && quotes[i] == a;
    var j :| 0 <= j < |quotes| && quotes[j] == b;
  }

  // The history already answers for this snapshot: its id is stored with this payload, or
  // the id is free and its observation is stored with this odd.
  ghost predicate Held(quotes: seq<Quote>, q: Quote) {
    if exists x | x in quotes :: x.id == q.id then exists x | x in quotes :: x.id == q.id && SamePayload(x, q)
    else exists x | x in quotes :: SameObservation(x, q) && x.odd == q.odd
  }

  lemma AppendOneExact(quotes: seq<Quote>, q: Quote)
    requires UniqueQuotes(quotes)
    ensures var appended := AppendOne(quotes, q);
            && (appended == Ok(quotes) <==> Held(quotes, q))
            && (appended.Ok? ==> UniqueQuotes(appended.value) && quotes <= appended.value && Held(appended.value, q)
                                 && forall x | x in appended.value :: x in quotes || x == q)
  {
    ByIdExact(quotes, q.id);
    ByObservationExact(quotes, q);
    var known, observed := ById(quotes, q.id), ByObservation(quotes, q);
    if known.Some? {
      forall x | x in quotes && x.id == q.id ensures x == known.value {
        SameQuote(quotes, x, known.value);
      }
    } else if observed.Some? {
      forall x | x in quotes && SameObservation(x, q) ensures x == observed.value {
        SameQuote(quotes, x, observed.value);
      }
    } else {
      var all := quotes + [q];
      assert all != quotes && all[|quotes|] == q;
      forall i | 0 <= i < |quotes| ensures all[i].id != q.id && !SameObservation(all[i], q) {
        assert quotes[i] in quotes;
      }
    }
  }

  // A quote that is held stays held by a longer history unless its free id is taken.
  lemma HeldGrows(quotes: seq<Quote>, longer: seq<Quote>, q: Quote)
    requires UniqueQuotes(longer) && quotes <= longer && Held(quotes, q)
    requires forall x | x in longer && x.id == q.id :: SamePayload(x, q)
    ensures Held(longer, q)
  {
    assert forall x | x in quotes :: x in longer;
  }

  lemma {:induction false} AppendAllExact(quotes: seq<Quote>, incoming: seq<Quote>)
    requires UniqueQuotes(quotes) && AppendAll(quotes, incoming).Ok?
    ensures var appended := AppendAll(quotes, incoming).value;
            && UniqueQuotes(appended) && quotes <= appended
            && (forall x | x in appended :: x in quotes || x in incoming)
  {
    if incoming != [] {
      var front, last := incoming[..|incoming| - 1], incoming[|incoming| - 1];
      assert incoming == front + [last];
      AppendAllExact(quotes, front);
      AppendOneExact(AppendAll(quotes, front).value, last);
    }
  }

  lemma {:induction false} HeldBatchIsNoOp(quotes: seq<Quote>, incoming: seq<Quote>)
    requires UniqueQuotes(quotes) && forall q | q in incoming :: Held(quotes, q)
    ensures AppendAll(quotes, incoming) == Ok(quotes)
  {
    if incoming != [] {
      assert forall q | q in incoming[..|incoming| - 1] :: q in incoming;
      HeldBatchIsNoOp(quotes, incoming[..|incoming| - 1]);
      AppendOneExact(quotes, incoming[|incoming| - 1]);
    }
  }

  lemma {:induction false} NoOpBatchIsHeld(quotes: seq<Quote>, incoming: seq<Quote>)
    requires UniqueQuotes(quotes) && AppendAll(quotes, incoming) == Ok(quotes)
    ensures forall q | q in incoming :: Held(quotes, q)
  {
    if incoming != [] {
      var front, last := incoming[..|incoming| - 1], incoming[|incoming| - 1];
      assert incoming == front + [last];
      AppendAllExact(quotes, front);
      var before := AppendAll(quotes, front).value;
      AppendOneExact(before, last);
      assert |before| == |quotes| && before == quotes;
      NoOpBatchIsHeld(quotes, front);
    }
  }

  // A batch changes nothing and succeeds exactly when every snapshot in it is already held.
  lemma NoOpExactly(h: History, incoming: seq<Quote>)
    requires Sound(h)
    ensures Append(h, incoming) == (h, Ok(())) <==> KnownSeries(h, incoming) && forall q | q in incoming :: Held(h.quotes, q)
  {
    if KnownSeries(h, incoming) {
      if AppendAll(h.quotes, incoming) == Ok(h.quotes) {
        NoOpBatchIsHeld(h.quotes, incoming);
      }
      if forall q | q in incoming :: Held(h.quotes, q) {
        HeldBatchIsNoOp(h.quotes, incoming);
      }
    }
  }

  // The stored quote of an id, if there is one, is this snapshot's.
  ghost predicate IdNotTaken(quotes: seq<Quote>, q: Quote) {
    forall x | x in quotes && x.id == q.id :: SamePayload(x, q)
  }

  // After its commit a snapshot is held exactly when no other payload took its id.
  lemma {:induction false} CommittedIsHeld(quotes: seq<Quote>, incoming: seq<Quote>)
    requires UniqueQuotes(quotes) && AppendAll(quotes, incoming).Ok?
    ensures var after := AppendAll(quotes, incoming).value;
            forall q | q in incoming :: Held(after, q) <==> IdNotTaken(after, q)
  {
    if incoming != [] {
      var front, last := incoming[..|incoming| - 1], incoming[|incoming| - 1];
      assert incoming == front + [last];
      CommittedIsHeld(quotes, front);
      AppendAllExact(quotes, front);
      AppendAllExact(quotes, incoming);
      var before, after := AppendAll(quotes, front).value, AppendAll(quotes, incoming).value;
      AppendOneExact(before, last);
      HeldHasId(after, last);
      forall q | q in front ensures Held(after, q) <==> IdNotTaken(after, q) {
        HeldStays(before, after, q);
      }
    }
  }

  lemma HeldStays(before: seq<Quote>, after: seq<Quote>, q: Quote)
    requires UniqueQuotes(after) && before <= after && (Held(before, q) <==> IdNotTaken(before, q))
    ensures Held(after, q) <==> IdNotTaken(after, q)
  {
    assert forall x | x in before :: x in after;
    if Held(after, q) {
      HeldHasId(after, q);
    } else if IdNotTaken(after, q) {
      assert IdNotTaken(before, q);
      HeldGrows(before, after, q);
    }
  }

  lemma HeldHasId(quotes: seq<Quote>, q: Quote)
    requires UniqueQuotes(quotes) && Held(quotes, q)
    ensures IdNotTaken(quotes, q)
  {
    forall x | x in quotes && x.id == q.id ensures SamePayload(x, q) {
      var y :| y in quotes && y.id == q.id && SamePayload(y, q);
      SameQuote(quotes, x, y);
    }
  }

  // A committed batch replays as a no-op exactly when no snapshot of it shares its id with a
  // stored quote of another payload.
  lemma ReplayIsNoOp(h: History, incoming: seq<Quote>)
    requires Sound(h) && Append(h, incoming).1.Ok?
    ensures var u := Append(h, incoming).0;
            Append(u, incoming) == (u, Ok(())) <==> forall q | q in incoming :: IdNotTaken(u.quotes, q)
  {
    NextSound(h, AppendBatch(incoming));
    CommittedIsHeld(h.quotes, incoming);
    NoOpExactly(Append(h, incoming).0, incoming);
  }

  // In particular when ids name payloads, as digests do, throughout the batch and the history.
  lemma DigestsReplay(h: History, incoming: seq<Quote>)
    requires Sound(h) && Append(h, incoming).1.Ok?
    requires forall a, b | (a in incoming || a in h.quotes) && b in incoming && a.id == b.id :: SamePayload(a, b)
    ensures Append(Append(h, incoming).0, incoming) == (Append(h, incoming).0, Ok(()))
  {
    AppendAllExact(h.quotes, incoming);
    ReplayIsNoOp(h, incoming);
  }

  // Two snapshots that share an id but not a payload do replay as a no-op when both repeat
  // observations already stored under other ids.
  lemma SharedIdStillReplays(h: History, a: Quote, b: Quote)
    requires Sound(h) && a.id == b.id && !SamePayload(a, b) && KnownSeries(h, [a, b])
    requires forall x | x in h.quotes :: x.id != a.id
    requires Held(h.quotes, a) && Held(h.quotes, b)
    ensures Append(h, [a, b]) == (h, Ok(()))
  {
    NoOpExactly(h, [a, b]);
  }

  // ----- runs -----

  datatype Step = Ensure(series: seq<Series>) | AppendBatch(quotes: seq<Quote>)

  function Next(h: History, s: Step): History {
    match s
    case Ensure(series) => EnsureSeries(h, series).0
    case AppendBatch(quotes) => Append(h, quotes).0
  }

  function Run(h: History, steps: seq<Step>): History
    decreases |steps|
  {
    if steps == [] then h else Run(Next(h, steps[0]), steps[1..])
  }

  lemma {:induction false} InsertAllUnique(stored: seq<Series>, incoming: seq<Series>)
    requires UniqueSeries(stored)
    ensures UniqueSeries(InsertAllSeries(stored, incoming)) && stored <= InsertAllSeries(stored, incoming)
  {
    if incoming != [] {
      var before := InsertAllSeries(stored, incoming[..|incoming| - 1]);
      InsertAllUnique(stored, incoming[..|incoming| - 1]);
      forall i | 0 <= i < |before| ensures before[i] in before {}
    }
  }

  lemma NextSound(h: History, s: Step)
    requires Sound(h)
    ensures Sound(Next(h, s)) && h.series <= Next(h, s).series && h.quotes <= Next(h, s).quotes
  {
    var u := Next(h, s);
    if s.Ensure? {
      InsertAllUnique(h.series, s.series);
      assert forall x | x in h.series :: x in u.series;
    } else if u != h {
      AppendAllExact(h.quotes, s.quotes);
    }
  }

  // Over every run: ids and observations stay unique, nothing stored is lost or changed, and
  // an observation keeps the capture time it was first stored with.
  lemma {:induction false} HistoryKeeps(h: History, steps: seq<Step>)
    requires Sound(h)
    ensures var u := Run(h, steps);
            && Sound(u) && h.quotes <= u.quotes && h.series <= u.series
            && forall q, x | q in h.quotes && x in u.quotes && SameObservation(q, x) :: x == q
    decreases |steps|
  {
    if steps != [] {
      NextSound(h, steps[0]);
      HistoryKeeps(Next(h, steps[0]), steps[1..]);
    }
    var u := Run(h, steps);
    forall q, x | q in h.quotes && x in u.quotes && SameObservation(q, x) ensures x == q {
      assert q in u.quotes;
      SameQuote(u.quotes, q, x);
    }
  }

  // ----- the conflict rules, in field comparisons -----

  // Two definitions clash when they share an id, or fixture, bookmaker, market and selection, and
  // are not one and the same.
  ghost predicate Clash(a: Series, b: Series) {
    a != b && (a.id == b.id || (a.fixture == b.fixture && a.bookmaker == b.bookmaker && a.market == b.market && a.selection == b.selection))
  }

  ghost predicate ClashFree(stored: seq<Series>, incoming: seq<Series>) {
    forall s, x | s in incoming && (x in stored || x in incoming) :: !Clash(s, x)
  }

  lemma {:induction false} InsertAllHolds(stored: seq<Series>, incoming: seq<Series>)
    ensures stored <= InsertAllSeries(stored, incoming)
    ensures forall x | x in InsertAllSeries(stored, incoming) :: x in stored || x in incoming
  {
    if incoming != [] {
      InsertAllHolds(stored, incoming[..|incoming| - 1]);
      assert incoming == incoming[..|incoming| - 1] + [incoming[|incoming| - 1]];
    }
  }

  lemma {:induction false} ClashFreeInserted(stored: seq<Series>, incoming: seq<Series>)
    requires ClashFree(stored, incoming)
    ensures forall s | s in incoming :: s in InsertAllSeries(stored, incoming)
  {
    if incoming != [] {
      var front, last := incoming[..|incoming| - 1], incoming[|incoming| - 1];
      assert incoming == front + [last];
      ClashFreeInserted(stored, front);
      InsertAllHolds(stored, front);
      var before := InsertAllSeries(stored, front);
      forall x | x in before && Collides(x, last) ensures x == last {
        assert !Clash(last, x);
      }
    }
  }

  lemma InsertedClashFree(stored: seq<Series>, incoming: seq<Series>)
    requires UniqueSeries(stored) && forall s | s in incoming :: s in InsertAllSeries(stored, incoming)
    ensures ClashFree(stored, incoming)
  {
    var all := InsertAllSeries(stored, incoming);
    InsertAllHolds(stored, incoming);
    InsertAllUnique(stored, incoming);
    forall s, x | s in incoming && (x in stored || x in incoming) ensures !Clash(s, x) {
      assert s in all && x in all;
      var i :| 0 <= i < |all| && all[i] == s;
      var j :| 0 <= j < |all| && all[j] == x;
      assert i < j ==> !Collides(all[i], all[j]);
      assert j < i ==> !Collides(all[j], all[i]);
    }
  }

  // A batch commits exactly when no id stands in it twice and no definition of it clashes with a
  // stored one or with another of the batch; it then adds the missing definitions and nothing else.
  lemma EnsureExactly(h: History, incoming: seq<Series>)
    requires UniqueSeries(h.series)
    ensures var (u, answer) := EnsureSeries(h, incoming);
            var repeated := exists i, j :: 0 <= i < j < |incoming| && incoming[i].id == incoming[j].id;
            && (answer.Ok? <==> !repeated && ClashFree(h.series, incoming))
            && (answer == Err(DuplicateSeries) <==> repeated)
            && (answer.Err? ==> u == h)
            && u.quotes == h.quotes && h.series <= u.series
            && (answer.Ok? ==> forall s :: s in u.series <==> s in h.series || s in incoming)
  {
    InsertAllHolds(h.series, incoming);
    if ClashFree(h.series, incoming) {
      ClashFreeInserted(h.series, incoming);
    }
    if forall s | s in incoming :: s in InsertAllSeries(h.series, incoming) {
      InsertedClashFree(h.series, incoming);
    }
  }

  // One snapshot: what is stored under its id decides; otherwise what is stored of its observation.
  lemma AppendRules(quotes: seq<Quote>, q: Quote, x: Quote)
    requires UniqueQuotes(quotes) && x in quotes
    ensures x.id == q.id ==>
              AppendOne(quotes, q) == if x.series == q.series && x.odd == q.odd && x.observedAt == q.observedAt && x.source == q.source
                                      then Ok(quotes) else Err(ConflictingId)
    ensures (forall y | y in quotes :: y.id != q.id) && x.series == q.series && x.observedAt == q.observedAt && x.source == q.source ==>
              AppendOne(quotes, q) == if x.odd == q.odd then Ok(quotes) else Err(ConflictingObservation)
  {
    ByIdExact(quotes, q.id);
    ByObservationExact(quotes, q);
    if x.id == q.id {
      SameQuote(quotes, x, ById(quotes, q.id).value);
    } else if ById(quotes, q.id).None? && SameObservation(x, q) {
      SameQuote(quotes, x, ByObservation(quotes, q).value);
    }
  }

  lemma AppendNew(quotes: seq<Quote>, q: Quote)
    requires forall y | y in quotes :: y.id != q.id && (y.series != q.series || y.observedAt != q.observedAt || y.source != q.source)
    ensures AppendOne(quotes, q) == Ok(quotes + [q])
  {
    ByIdExact(quotes, q.id);
    ByObservationExact(quotes, q);
  }
}
