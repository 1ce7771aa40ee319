/** Monitoring of registered picks: state rows, point-in-time quote queries and the immutable close. */
module Monitoring {
  import opened Wrappers
  import opened Sorting
  import opened PrimaryKeys
  import QuoteHistory

  datatype PolicyRow = PolicyRow(interval: int, currentMaxAge: int, closingMaxAge: int)

  type Policy = p: PolicyRow | p.interval > 0 && p.currentMaxAge > 0 && p.closingMaxAge > 0
    witness PolicyRow(1, 1, 1)

  datatype State = Registered | Monitored | ClosedForOdds

  datatype Record = Record(state: State, policy: Policy, startedAt: int, nextRefreshAt: Option<int>,
                           updatedAt: int, version: nat)

  datatype TransitionType = MonitoringStarted | OddsClosed
  datatype Transition = Transition(pick: nat, kind: TransitionType, from: State, to: State, occurredAt: int)

  datatype ClosingOutcome = Captured | NoValidQuote

  datatype Finalization = Finalization(sighting: nat, cutoffAt: int, finalizedAt: int, outcome: ClosingOutcome,
                                       candidate: Option<nat>, closing: Option<nat>, closingMaxAge: int)

  type Quote = QuoteHistory.Quote

  // A fixture observation, and when its row was persisted.
  datatype Sighting = Sighting(id: nat, fixture: nat, observedAt: int, persistedAt: int, kickoffAt: int, status: string)

  // What the registration of a pick pins: its fixture, its quote series and its policy limits.
  datatype Context = Context(fixture: nat, series: nat, source: string, allowed: set<string>, entry: nat, entryMaxAge: int)

  datatype MonitoringError = NoSuchPick | Conflict | LimitNotPositive | NotStarted | NotDue

  // claims logs every claim of a pick with its time.
  datatype Claim = Claim(pick: nat, at: int)

  datatype World = World(contexts: map<nat, Context>, states: map<nat, Record>, transitions: seq<Transition>,
                         finalizations: map<nat, Finalization>, quotes: seq<Quote>, sightings: seq<Sighting>,
                         now: int, claims: seq<Claim>)

  // ----- point-in-time queries -----

  predicate SeenBy(s: Sighting, fixture: nat, at: int) {
    s.fixture == fixture && s.observedAt <= at && s.persistedAt <= at
  }

  predicate ObservedAfter(s: Sighting, earlier: Option<Sighting>) {
    || earlier.None? || s.observedAt > earlier.value.observedAt
    || (s.observedAt == earlier.value.observedAt && s.id > earlier.value.id)
  }

  // The latest observation of a fixture that was observed and persisted by a moment.
  function LatestSighting(sightings: seq<Sighting>, fixture: nat, at: int): Option<Sighting> {
    if sightings == [] then None
    else
      var earlier := LatestSighting(sightings[..|sightings| - 1], fixture, at);
      var s := sightings[|sightings| - 1];
      if SeenBy(s, fixture, at) && ObservedAfter(s, earlier) then Some(s) else earlier
  }

  // A quote of the pinned series that was observed and captured before the cutoff.
  predicate InWindow(c: Context, cutoff: int, available: int, q: Quote) {
    && q.series == c.series && q.source == c.source
    && q.observedAt < cutoff && q.capturedAt < cutoff && q.capturedAt <= available
  }

  // What was known of the fixture lets the quote count.
  predicate Admits(known: Option<Sighting>, c: Context, q: Quote) {
    && known.Some? && known.value.status in c.allowed
    && q.observedAt < known.value.kickoffAt && q.capturedAt < known.value.kickoffAt
  }

  // The WHERE clause of the candidate query: a quote is judged by what was known when it was captured.
  predicate ValidQuote(sightings: seq<Sighting>, c: Context, cutoff: int, available: int, q: Quote) {
    InWindow(c, cutoff, available, q) && Admits(LatestSighting(sightings, c.fixture, q.capturedAt), c, q)
  }

  function ValidQuotes(quotes: seq<Quote>, sightings: seq<Sighting>, c: Context, cutoff: int, available: int): seq<Quote> {
    if quotes == [] then []
    else
      var q := quotes[|quotes| - 1];
      ValidQuotes(quotes[..|quotes| - 1], sightings, c, cutoff, available)
      + if ValidQuote(sightings, c, cutoff, available, q) then [q] else []
  }

  predicate CapturedFirst(a: Quote, b: Quote) {
    a.capturedAt < b.capturedAt
    || (a.capturedAt == b.capturedAt && (a.observedAt < b.observedAt || (a.observedAt == b.observedAt && a.id < b.id)))
  }

  predicate ObservedLast(a: Quote, b: Quote) {
    a.observedAt > b.observedAt
    || (a.observedAt == b.observedAt && (a.capturedAt > b.capturedAt || (a.capturedAt == b.capturedAt && a.id > b.id)))
  }

  function First(quotes: seq<Quote>): Option<Quote> {
    if quotes == [] then None else Some(quotes[0])
  }

  function History(quotes: seq<Quote>, sightings: seq<Sighting>, c: Context, cutoff: int, available: int): seq<Quote> {
    Sort(ValidQuotes(quotes, sightings, c, cutoff, available), CapturedFirst)
  }

  function Opening(quotes: seq<Quote>, sightings: seq<Sighting>, c: Context, cutoff: int, available: int): Option<Quote> {
    First(Sort(ValidQuotes(quotes, sightings, c, cutoff, available), CapturedFirst))
  }

  function Latest(quotes: seq<Quote>, sightings: seq<Sighting>, c: Context, cutoff: int, available: int): Option<Quote> {
    First(Sort(ValidQuotes(quotes, sightings, c, cutoff, available), ObservedLast))
  }

  function QuoteById(quotes: seq<Quote>, id: nat): Option<Quote> {
    if quotes == [] then None
    else if quotes[|quotes| - 1].id == id then Some(quotes[|quotes| - 1])
    else QuoteById(quotes[..|quotes| - 1], id)
  }

  // ----- operations -----

  function Start(w: World, pick: nat, policy: Policy, at: int): (World, Result<Record, MonitoringError>) {
    if pick !in w.contexts then (w, Err(NoSuchPick))
    else if pick in w.states then
      if w.states[pick].policy != policy then (w, Err(Conflict))
      else if w.states[pick].state == ClosedForOdds then (w, Err(Conflict))
      else (w, Ok(w.states[pick]))
    else
      var record := Record(Monitored, policy, at, Some(at), at, 1);
      (w.(states := w.states[pick := record],
          transitions := w.transitions + [Transition(pick, MonitoringStarted, Registered, Monitored, at)]),
       Ok(record))
  }

  predicate Due(states: map<nat, Record>, pick: nat, at: int) {
    pick in states && states[pick].state == Monitored
    && states[pick].nextRefreshAt.Some? && states[pick].nextRefreshAt.value <= at
  }

  function DuePicks(states: map<nat, Record>, at: int, locked: set<nat>): set<nat> {
    set pick | pick in states && Due(states, pick, at) && pick !in locked
  }

  function RefreshOf(states: map<nat, Record>, pick: nat): int {
    if pick in states && states[pick].nextRefreshAt.Some? then states[pick].nextRefreshAt.value else 0
  }

  function RefreshedFirst(states: map<nat, Record>): (nat, nat) -> bool {
    (a: nat, b: nat) => RefreshOf(states, a) < RefreshOf(states, b)
                        || (RefreshOf(states, a) == RefreshOf(states, b) && a < b)
  }

  // The rows a claim updates; locked rows belong to a concurrent claim and are skipped.
  function Claimed(states: map<nat, Record>, at: int, limit: nat, locked: set<nat>): seq<nat> {
    FirstBy(DuePicks(states, at, locked), RefreshedFirst(states), limit)
  }

  function Reschedule(r: Record, at: int): Record {
    r.(nextRefreshAt := Some(at + r.policy.interval), updatedAt := at, version := r.version + 1)
  }

  function RescheduleAll(states: map<nat, Record>, picks: seq<nat>, at: int): map<nat, Record> {
    if picks == [] then states
    else
      var rest := RescheduleAll(states, picks[..|picks| - 1], at);
      var pick := picks[|picks| - 1];
      if pick in rest && rest[pick].state == Monitored then rest[pick := Reschedule(rest[pick], at)] else rest
  }

  function LogOf(picks: seq<nat>, at: int): seq<Claim> {
    seq(|picks|, i requires 0 <= i < |picks| => Claim(picks[i], at))
  }

  function ClaimDue(w: World, at: int, limit: int, locked: set<nat>): (World, Result<seq<nat>, MonitoringError>) {
    if limit <= 0 then (w, Err(LimitNotPositive))
    else
      var picks := Claimed(w.states, at, limit, locked);
      (w.(states := RescheduleAll(w.states, picks, at), claims := w.claims + LogOf(picks, at)), Ok(picks))
  }

  function CloseOn(w: World, pick: nat, at: int, known: Sighting): Finalization
    requires pick in w.contexts && pick in w.states
  {
    var candidate := Latest(w.quotes, w.sightings, w.contexts[pick], known.kickoffAt, known.kickoffAt);
    var id := if candidate.None? then None else Some(candidate.value.id);
    Finalization(known.id, known.kickoffAt, at, if id.None? then NoValidQuote else Captured, id, id,
                 w.states[pick].policy.closingMaxAge)
  }

  function Finalize(w: World, pick: nat, at: int): (World, Result<Finalization, MonitoringError>) {
    if pick !in w.states then (w, Err(NotStarted))
    else if pick in w.finalizations then (w, Ok(w.finalizations[pick]))
    else if w.states[pick].state != Monitored then (w, Err(Conflict))
    else if pick !in w.contexts then (w, Err(NoSuchPick))
    else
      var known := LatestSighting(w.sightings, w.contexts[pick].fixture, at);
      if known.None? then (w, Err(Conflict))
      else if at < known.value.kickoffAt then (w, Err(NotDue))
      else
        var closed := CloseOn(w, pick, at, known.value);
        var row := w.states[pick];
        (w.(states := w.states[pick := row.(state := ClosedForOdds, nextRefreshAt := None, updatedAt := at,
                                            version := row.version + 1)],
            transitions := w.transitions + [Transition(pick, OddsClosed, Monitored, ClosedForOdds, at)],
            finalizations := w.finalizations[pick := closed]),
         Ok(closed))
  }

  // ----- the read model -----

  datatype Marker = OpenMark | EntryMark | CurrentMark | CloseMark

  datatype Lifecycle = Lifecycle(state: State, opening: Option<Quote>, entry: Quote, current: Option<Quote>,
                                 currentFresh: bool, closing: Option<Quote>, outcome: Option<ClosingOutcome>,
                                 history: seq<Quote>)

  predicate FreshAt(q: Quote, at: int, maxAge: int) {
    0 <= at - q.observedAt <= maxAge && 0 <= at - q.capturedAt <= maxAge
  }

  function StateOf(w: World, pick: nat): State {
    if pick in w.states then w.states[pick].state else Registered
  }

  function MaxAge(w: World, pick: nat): int
    requires pick in w.contexts
  {
    if pick in w.states then w.states[pick].policy.currentMaxAge else w.contexts[pick].entryMaxAge
  }

  function Assemble(w: World, pick: nat, cutoff: int, reference: int, available: int, current: Option<Quote>,
                    closing: Option<Quote>, outcome: Option<ClosingOutcome>): Result<Lifecycle, MonitoringError>
    requires pick in w.contexts
  {
    var c := w.contexts[pick];
    var entry := QuoteById(w.quotes, c.entry);
    if entry.None? then Err(Conflict)
    else
      Ok(Lifecycle(StateOf(w, pick), Opening(w.quotes, w.sightings, c, cutoff, available), entry.value, current,
                   current.Some? && FreshAt(current.value, reference, MaxAge(w, pick)), closing, outcome,
                   History(w.quotes, w.sightings, c, cutoff, available)))
  }

  function ReadLifecycle(w: World, pick: nat, readAt: int): Result<Lifecycle, MonitoringError> {
    if pick !in w.contexts then Err(NoSuchPick)
    else
      var c := w.contexts[pick];
      if pick in w.finalizations then
        var f := w.finalizations[pick];
        var current := if f.candidate.None? then None else QuoteById(w.quotes, f.candidate.value);
        var closing := if f.closing.None? then None else QuoteById(w.quotes, f.closing.value);
        if (f.candidate.Some? && current.None?) || (f.closing.Some? && closing.None?) then Err(Conflict)
        else Assemble(w, pick, f.cutoffAt, f.cutoffAt, f.cutoffAt, current, closing, Some(f.outcome))
      else
        var known := LatestSighting(w.sightings, c.fixture, readAt);
        if known.None? then Err(Conflict)
        else
          var cutoff := known.value.kickoffAt;
          Assemble(w, pick, cutoff, if readAt < cutoff then readAt else cutoff, readAt,
                   Latest(w.quotes, w.sightings, c, cutoff, readAt), None, None)
  }

  // ----- runs -----

  datatype Step =
    | RegisterPick(pick: nat, context: Context)
    | AppendQuote(quote: Quote)
    | Observe(sighting: Sighting)  // stamped when its transaction began, visible now
    | StartPick(pick: nat, policy: Policy, at: int)
    | ClaimPicks(at: int, limit: int, locked: set<nat>)
    | FinalizePick(pick: nat, at: int)
    | Tick(to: int)

  function Next(w: World, s: Step): World {
    match s
    case RegisterPick(pick, context) =>
      if pick in w.contexts || QuoteById(w.quotes, context.entry).None? then w
      else w.(contexts := w.contexts[pick := context])
    case AppendQuote(quote) =>
      if QuoteById(w.quotes, quote.id).Some? then w else w.(quotes := w.quotes + [quote])
    case Observe(sighting) =>
      if sighting.persistedAt > w.now || exists s | s in w.sightings :: s.id == sighting.id then w
      else w.(sightings := w.sightings + [sighting])
    case StartPick(pick, policy, at) => Start(w, pick, policy, at).0
    case ClaimPicks(at, limit, locked) => ClaimDue(w, at, limit, locked).0
    case FinalizePick(pick, at) => Finalize(w, pick, at).0
    case Tick(to) => if to > w.now then w.(now := to) else w
  }

  function Run(w: World, steps: seq<Step>): World
    decreases |steps|
  {
    if steps == [] then w else Run(Next(w, steps[0]), steps[1..])
  }

  const EMPTY: World := World(map[], map[], [], map[], [], [], 0, [])
}
