/** The watermark-driven mirror of a settlement ledger, and reading it back. */
module Mirror {
  import opened Wrappers
  import opened Sorting
  import ArchiveReader

  // A ledger row; time and id are its position, and rows are immutable.
  datatype Row = Row(at: int, id: nat, payload: string)

  predicate Earlier(a: Row, b: Row) {
    a.at < b.at || (a.at == b.at && a.id < b.id)
  }

  datatype Position = Position(at: int, id: nat)

  function PositionOf(r: Row): Position {
    Position(r.at, r.id)
  }

  // The row comparison (time, id) > (watermark time, watermark id).
  predicate Beyond(p: Position, mark: Option<Position>) {
    mark.None? || p.at > mark.value.at || (p.at == mark.value.at && p.id > mark.value.id)
  }

  function Pending(ledger: seq<Row>, mark: Option<Position>): seq<Row> {
    if ledger == [] then []
    else
      var rest := Pending(ledger[..|ledger| - 1], mark);
      var r := ledger[|ledger| - 1];
      if Beyond(PositionOf(r), mark) then rest + [r] else rest
  }

  // settlement_export_rows
  function ExportRows(ledger: seq<Row>, mark: Option<Position>, limit: nat): seq<Row> {
    var pending := Sort(Pending(ledger, mark), Earlier);
    if |pending| <= limit then pending else pending[..limit]
  }

  // advance_watermark keeps the greater position.
  function Advance(mark: Option<Position>, p: Position): Option<Position> {
    if Beyond(p, mark) then Some(p) else mark
  }

  // stored are the rows of the registered, read-back batches, one list per registration.
  datatype Stage = Idle | Exported(rows: seq<Row>) | Registered(rows: seq<Row>)
  datatype World = World(ledger: seq<Row>, mark: Option<Position>, batches: seq<seq<Row>>, stage: Stage)

  datatype Step = Append(row: Row) | Export(limit: nat) | ArchiveBatch(readsBack: bool) | MoveMark | Crash

  function Next(w: World, s: Step): World {
    match s
    case Append(row) =>
      if exists r | r in w.ledger :: r.id == row.id then w else w.(ledger := w.ledger + [row])
    case Export(limit) =>
      if w.stage != Idle || limit == 0 then w
      else
        var rows := ExportRows(w.ledger, w.mark, limit);
        if rows == [] then w else w.(stage := Exported(rows))
    case ArchiveBatch(readsBack) =>
      if !w.stage.Exported? then w
      else if !readsBack then w.(stage := Idle)
      else w.(batches := w.batches + [w.stage.rows], stage := Registered(w.stage.rows))
    case MoveMark =>
      if !w.stage.Registered? || w.stage.rows == [] then w
      else
        var last := w.stage.rows[|w.stage.rows| - 1];
        w.(mark := Advance(w.mark, PositionOf(last)), stage := Idle)
    case Crash => w.(stage := Idle)
  }

  function Run(w: World, steps: seq<Step>): World
    decreases |steps|
  {
    if steps == [] then w else Run(Next(w, steps[0]), steps[1..])
  }

  const START: World := World([], None, [], Idle)

  ghost predicate Mirrored(w: World, r: Row) {
    exists b | b in w.batches :: r in b
  }

  // ----- completeness -----

  lemma {:induction false} PendingExact(ledger: seq<Row>, mark: Option<Position>)
    ensures forall r :: r in Pending(ledger, mark) <==> r in ledger && Beyond(PositionOf(r), mark)
  {
    if ledger != [] {
      PendingExact(ledger[..|ledger| - 1], mark);
      assert ledger == ledger[..|ledger| - 1] + [ledger[|ledger| - 1]];
    }
  }

  ghost predicate DistinctIds(ledger: seq<Row>) {
    forall a, b | a in ledger && b in ledger && a.id == b.id :: a == b
  }

  lemma EarlierIsTotal(rows: seq<Row>)
    requires DistinctIds(rows)
    ensures StrictOrderOn(Earlier, Elements(rows))
  {
  }

  // An export holds every pending row up to its last one.
  ghost predicate UpToLast(w: World, rows: seq<Row>) {
    && rows != []
    && var last := rows[|rows| - 1];
       && (forall r | r in rows :: r in w.ledger && Beyond(PositionOf(r), w.mark))
       && (forall r | r in w.ledger && Beyond(PositionOf(r), w.mark) && !Earlier(last, r) :: r in rows)
  }

  lemma ExportUpToLast(w: World, limit: nat)
    requires DistinctIds(w.ledger)
    ensures var rows := ExportRows(w.ledger, w.mark, limit);
            (rows != [] ==> UpToLast(w, rows))
            && (limit > 0 && rows == [] ==> forall r | r in w.ledger :: !Beyond(PositionOf(r), w.mark))
  {
    var pending := Pending(w.ledger, w.mark);
    var sorted := Sort(pending, Earlier);
    var rows := ExportRows(w.ledger, w.mark, limit);
    PendingExact(w.ledger, w.mark);
    SortPermutes(pending, Earlier);
    EarlierIsTotal(pending);
    SortSorts(pending, Earlier);
    forall r ensures r in sorted <==> r in pending {
      assert r in Elements(sorted) <==> r in Elements(pending);
    }
    if rows != [] {
      var last := rows[|rows| - 1];
      forall r | r in sorted && !Earlier(last, r) ensures r in rows {
        var i :| 0 <= i < |sorted| && sorted[i] == r;
        if i >= |rows| {
          assert sorted[|rows| - 1] == last;
          assert !Earlier(r, last);
          assert r == last;
        }
      }
    }
  }

  ghost predicate Complete(w: World) {
    forall r | r in w.ledger && !Beyond(PositionOf(r), w.mark) :: Mirrored(w, r)
  }

  ghost predicate Sound(w: World) {
    && DistinctIds(w.ledger)
    && Complete(w)
    && (w.stage.Exported? || w.stage.Registered? ==> UpToLast(w, w.stage.rows))
    && (w.stage.Registered? ==> w.stage.rows in w.batches)
    && (forall b | b in w.batches :: forall r | r in b :: r in w.ledger)
  }

  // A row enters in order when it is later than every row before it.
  ghost predicate InOrder(w: World, s: Step) {
    s.Append? ==> forall r | r in w.ledger :: Earlier(r, s.row)
  }

  ghost predicate AllInOrder(w: World, steps: seq<Step>)
    decreases |steps|
  {
    steps != [] ==> InOrder(w, steps[0]) && AllInOrder(Next(w, steps[0]), steps[1..])
  }

  // The mark names a mirrored row, so an append in order lands beyond it.
  ghost predicate MarkNamesRow(w: World) {
    w.mark.Some? ==> exists r | r in w.ledger :: PositionOf(r) == w.mark.value
  }

  predicate InFlight(w: World) {
    (w.stage.Exported? || w.stage.Registered?) && w.stage.rows != []
  }

  // Where the watermark stands or, with a batch in flight, where it is about to stand.
  function Frontier(w: World): Option<Position> {
    if InFlight(w) then Some(PositionOf(w.stage.rows[|w.stage.rows| - 1])) else w.mark
  }

  // A row enters safely when it is already stored or lies beyond the frontier.
  ghost predicate Safe(w: World, s: Step) {
    s.Append? ==> (exists r | r in w.ledger :: r.id == s.row.id) || Beyond(PositionOf(s.row), Frontier(w))
  }

  ghost predicate AllSafe(w: World, steps: seq<Step>)
    decreases |steps|
  {
    steps != [] ==> Safe(w, steps[0]) && AllSafe(Next(w, steps[0]), steps[1..])
  }

  lemma FrontierBeyondMark(w: World, p: Position)
    requires Sound(w) && Beyond(p, Frontier(w))
    ensures Beyond(p, w.mark)
  {
    if InFlight(w) {
      assert w.stage.rows[|w.stage.rows| - 1] in w.stage.rows;
    }
  }

  lemma AppendSound(w: World, row: Row)
    requires Sound(w) && Safe(w, Append(row))
    ensures Sound(Next(w, Append(row)))
  {
    var u := Next(w, Append(row));
    if u != w {
      FrontierBeyondMark(w, PositionOf(row));
      assert forall r :: r in u.ledger <==> r in w.ledger || r == row;
      assert u.batches == w.batches;
    }
  }

  lemma InOrderIsSafe(w: World, s: Step)
    requires Sound(w) && MarkNamesRow(w) && InOrder(w, s)
    ensures Safe(w, s)
  {
    if s.Append? && InFlight(w) {
      assert w.stage.rows[|w.stage.rows| - 1] in w.stage.rows;
    }
  }

  lemma MoveMarkSound(w: World)
    requires Sound(w) && w.stage.Registered?
    ensures Sound(Next(w, MoveMark)) && MarkNamesRow(Next(w, MoveMark))
  {
    var u := Next(w, MoveMark);
    var rows := w.stage.rows;
    var last := rows[|rows| - 1];
    assert last in rows && u.mark == Some(PositionOf(last));
    forall r | r in u.ledger && !Beyond(PositionOf(r), u.mark) ensures Mirrored(u, r) {
      if Beyond(PositionOf(r), w.mark) {
        assert !Earlier(last, r);
        assert r in rows;
      } else {
        assert Mirrored(w, r);
      }
    }
  }

  lemma ArchiveBatchSound(w: World, readsBack: bool)
    requires Sound(w)
    ensures Sound(Next(w, ArchiveBatch(readsBack)))
  {
    var u := Next(w, ArchiveBatch(readsBack));
    if u.batches != w.batches {
      assert forall b :: b in u.batches <==> b in w.batches || b == w.stage.rows;
      forall r | Mirrored(w, r) ensures Mirrored(u, r) {
        var b :| b in w.batches && r in b;
        assert b in u.batches;
      }
    }
  }

  lemma NextSound(w: World, s: Step)
    requires Sound(w) && Safe(w, s)
    ensures Sound(Next(w, s))
  {
    match s {
      case Append(row) => AppendSound(w, row);
      case Export(limit) => ExportUpToLast(w, limit);
      case ArchiveBatch(readsBack) => ArchiveBatchSound(w, readsBack);
      case MoveMark => if w.stage.Registered? { MoveMarkSound(w); }
      case Crash =>
    }
  }

  lemma NextNamesRow(w: World, s: Step)
    requires Sound(w) && MarkNamesRow(w)
    ensures MarkNamesRow(Next(w, s))
  {
    if s.MoveMark? && w.stage.Registered? {
      MoveMarkSound(w);
    } else if s.Append? && w.mark.Some? {
      var r :| r in w.ledger && PositionOf(r) == w.mark.value;
      assert r in Next(w, s).ledger;
    }
  }

  // Appends beyond the frontier, in any order among themselves, keep the mirror complete.
  lemma {:induction false} SafeRunSound(w: World, steps: seq<Step>)
    requires Sound(w) && AllSafe(w, steps)
    ensures Sound(Run(w, steps))
    decreases |steps|
  {
    if steps != [] {
      NextSound(w, steps[0]);
      SafeRunSound(Next(w, steps[0]), steps[1..]);
    }
  }

  // Under appends in order, with crashes anywhere, every event at or below the watermark is mirrored.
  lemma {:induction false} MirrorComplete(w: World, steps: seq<Step>)
    requires Sound(w) && MarkNamesRow(w) && AllInOrder(w, steps)
    ensures Sound(Run(w, steps)) && Complete(Run(w, steps))
    decreases |steps|
  {
    if steps != [] {
      InOrderIsSafe(w, steps[0]);
      NextSound(w, steps[0]);
      NextNamesRow(w, steps[0]);
      MirrorComplete(Next(w, steps[0]), steps[1..]);
    }
  }

  lemma {:induction false} MarkNeverFallsBack(w: World, steps: seq<Step>, p: Position)
    requires !Beyond(p, w.mark)
    ensures !Beyond(p, Run(w, steps).mark)
    decreases |steps|
  {
    if steps != [] {
      MarkNeverFallsBack(Next(w, steps[0]), steps[1..], p);
    }
  }

  // When an export finds nothing, the whole ledger is mirrored.
  lemma DrainedIsMirrored(w: World, limit: nat)
    requires Sound(w) && limit > 0 && ExportRows(w.ledger, w.mark, limit) == []
    ensures forall r | r in w.ledger :: Mirrored(w, r)
  {
    ExportUpToLast(w, limit);
  }

  function AllRows(batches: seq<seq<Row>>): seq<Row> {
    if batches == [] then [] else batches[0] + AllRows(batches[1..])
  }

  function EventId(): Row -> Option<nat> {
    (r: Row) => Some(r.id)
  }

  lemma {:induction false} AllRowsExact(batches: seq<seq<Row>>, r: Row)
    ensures r in AllRows(batches) <==> exists b | b in batches :: r in b
  {
    if batches != [] {
      AllRowsExact(batches[1..], r);
      assert batches == [batches[0]] + batches[1..];
    }
  }

  // However often a crash made batches overlap, the de-duplicating reader yields each
  // mirrored event exactly once and nothing else.
  lemma MirrorReadsBackOnce(w: World, unique: seq<Row>)
    requires Sound(w) && ArchiveReader.Deduplicated(AllRows(w.batches), EventId(), unique)
    ensures forall r :: multiset(unique)[r] == if Mirrored(w, r) then 1 else 0
  {
    forall r ensures r in AllRows(w.batches) <==> Mirrored(w, r) {
      AllRowsExact(w.batches, r);
    }
    assert forall a, b | a in AllRows(w.batches) && b in AllRows(w.batches) && a.id == b.id :: a == b;
    ArchiveReader.DeduplicatedExact(AllRows(w.batches), EventId(), unique);
  }

  // ----- the failing family: a row that lands at or below the frontier -----

  ghost predicate PassedOver(w: World, r: Row) {
    && r in w.ledger && !Beyond(PositionOf(r), w.mark) && !Mirrored(w, r)
    && (w.stage.Exported? || w.stage.Registered? ==> r !in w.stage.rows)
  }

  lemma PassedOverStep(w: World, s: Step, r: Row)
    requires PassedOver(w, r)
    ensures PassedOver(Next(w, s), r)
  {
    var u := Next(w, s);
    if s.Export? && u != w {
      ExportedBeyond(w, s.limit, r);
    } else if s.ArchiveBatch? && u.batches != w.batches {
      assert forall b :: b in u.batches <==> b in w.batches || b == w.stage.rows;
    }
  }

  lemma {:induction false} PassedOverForever(w: World, steps: seq<Step>, r: Row)
    requires PassedOver(w, r)
    ensures !Mirrored(Run(w, steps), r)
    decreases |steps|
  {
    if steps != [] {
      PassedOverStep(w, steps[0], r);
      PassedOverForever(Next(w, steps[0]), steps[1..], r);
    }
  }

  lemma MirroredFromLedger(w: World, row: Row)
    requires Sound(w) && forall r | r in w.ledger :: r.id != row.id
    ensures !Mirrored(w, row)
  {
    forall b | b in w.batches ensures row !in b {}
  }

  predicate CrashFree(s: Step) {
    !s.Crash? && (s.ArchiveBatch? ==> s.readsBack)
  }

  // A row that the batch in flight, or the watermark, has already left behind.
  ghost predicate Outrun(w: World, r: Row) {
    && r in w.ledger && !Beyond(PositionOf(r), Frontier(w)) && !Mirrored(w, r)
    && (w.stage.Exported? || w.stage.Registered? ==> w.stage.rows != [] && r !in w.stage.rows)
  }

  lemma OutrunStep(w: World, s: Step, r: Row)
    requires Outrun(w, r) && CrashFree(s)
    ensures Outrun(Next(w, s), r)
  {
    var u := Next(w, s);
    if s.Export? && u != w {
      ExportedBeyond(w, s.limit, r);
    } else if s.ArchiveBatch? && u.batches != w.batches {
      assert forall b :: b in u.batches <==> b in w.batches || b == w.stage.rows;
    }
  }

  lemma ExportedBeyond(w: World, limit: nat, r: Row)
    requires !Beyond(PositionOf(r), w.mark) && ExportRows(w.ledger, w.mark, limit) != []
    ensures var rows := ExportRows(w.ledger, w.mark, limit);
            r !in rows && !Beyond(PositionOf(r), Some(PositionOf(rows[|rows| - 1])))
  {
    var rows := ExportRows(w.ledger, w.mark, limit);
    var sorted := Sort(Pending(w.ledger, w.mark), Earlier);
    PendingExact(w.ledger, w.mark);
    SortPermutes(Pending(w.ledger, w.mark), Earlier);
    forall x | x in rows ensures Beyond(PositionOf(x), w.mark) {
      assert x in Elements(sorted);
    }
    assert rows[|rows| - 1] in rows;
  }

  lemma {:induction false} OutrunForever(w: World, steps: seq<Step>, r: Row)
    requires Outrun(w, r) && forall s | s in steps :: CrashFree(s)
    ensures Outrun(Run(w, steps), r)
    decreases |steps|
  {
    if steps != [] {
      assert steps == [steps[0]] + steps[1..];
      OutrunStep(w, steps[0], r);
      OutrunForever(Next(w, steps[0]), steps[1..], r);
    }
  }

  // The steps that bring the batch in flight to its end.
  function Finish(w: World): seq<Step> {
    if w.stage.Exported? then [ArchiveBatch(true), MoveMark] else if w.stage.Registered? then [MoveMark] else []
  }

  lemma FinishReachesFrontier(w: World)
    requires w.stage.Exported? || w.stage.Registered? ==> w.stage.rows != []
    ensures var v := Run(w, Finish(w));
            && AllSafe(w, Finish(w)) && v.stage == Idle && v.ledger == w.ledger
            && forall p | !Beyond(p, Frontier(w)) :: !Beyond(p, v.mark)
  {
    var tail: seq<Step> := [];
    if w.stage.Exported? {
      assert Finish(w) == [ArchiveBatch(true)] + [MoveMark];
      RunOne(w, ArchiveBatch(true), [MoveMark]);
      assert [MoveMark] == [MoveMark] + tail;
      RunOne(Next(w, ArchiveBatch(true)), MoveMark, tail);
      assert Finish(w)[1..] == [MoveMark] && [MoveMark][1..] == tail;
    } else if w.stage.Registered? {
      assert Finish(w) == [MoveMark] + tail && Finish(w)[1..] == tail;
      RunOne(w, MoveMark, tail);
    }
  }

  // At any stage, a new row keeps the mirror complete in every safe continuation exactly when
  // it lies beyond the frontier. At or below the watermark it is lost in every continuation;
  // between the two it is lost in every continuation without a crash.
  lemma LateRowExactly(w: World, row: Row)
    requires Sound(w) && forall r | r in w.ledger :: r.id != row.id
    ensures var u := Next(w, Append(row));
            && ((forall steps | AllSafe(u, steps) :: Complete(Run(u, steps))) <==> Beyond(PositionOf(row), Frontier(w)))
            && (!Beyond(PositionOf(row), w.mark) ==> forall steps :: !Mirrored(Run(u, steps), row))
            && (!Beyond(PositionOf(row), Frontier(w)) ==>
                 forall steps | (forall s | s in steps :: CrashFree(s)) :: !Mirrored(Run(u, steps), row))
  {
    var u := Next(w, Append(row));
    MirroredFromLedger(w, row);
    forall r ensures Mirrored(u, r) <==> Mirrored(w, r) {}
    if Beyond(PositionOf(row), Frontier(w)) {
      AppendSound(w, row);
      FrontierBeyondMark(w, PositionOf(row));
      forall steps | AllSafe(u, steps) ensures Complete(Run(u, steps)) {
        SafeRunSound(u, steps);
      }
    } else {
      RowOutrun(w, row);
    }
    if !Beyond(PositionOf(row), w.mark) {
      forall steps ensures !Mirrored(Run(u, steps), row) {
        PassedOverForever(u, steps, row);
      }
    }
  }

  lemma RowOutrun(w: World, row: Row)
    requires Sound(w) && (forall r | r in w.ledger :: r.id != row.id) && !Beyond(PositionOf(row), Frontier(w))
    ensures var u := Next(w, Append(row));
            && (exists steps | AllSafe(u, steps) :: !Complete(Run(u, steps)))
            && forall steps | (forall s | s in steps :: CrashFree(s)) :: !Mirrored(Run(u, steps), row)
  {
    var u := Next(w, Append(row));
    MirroredFromLedger(w, row);
    forall r ensures Mirrored(u, r) <==> Mirrored(w, r) {}
    assert Outrun(u, row);
    forall steps | (forall s | s in steps :: CrashFree(s)) ensures !Mirrored(Run(u, steps), row) {
      OutrunForever(u, steps, row);
    }
    FinishReachesFrontier(u);
    assert AllSafe(u, Finish(u)) && !Mirrored(Run(u, Finish(u)), row);
    assert !Complete(Run(u, Finish(u)));
  }

  // A crash before the watermark moves gives a row between the two a second chance.
  lemma CrashRescues(w: World, row: Row)
    requires Sound(w) && (forall r | r in w.ledger :: r.id != row.id) && Beyond(PositionOf(row), w.mark)
    ensures var v := Next(Next(w, Append(row)), Crash);
            Sound(v) && forall steps | AllSafe(v, steps) :: Complete(Run(v, steps))
  {
    var u := Next(w, Append(row));
    var v := Next(u, Crash);
    assert forall r :: r in u.ledger <==> r in w.ledger || r == row;
    forall r | Mirrored(w, r) ensures Mirrored(v, r) {}
    forall steps | AllSafe(v, steps) ensures Complete(Run(v, steps)) {
      SafeRunSound(v, steps);
    }
  }

  // ----- one mirroring pass -----

  datatype MirrorError = LimitNotPositive | ReadBackFailed

  // One pass in the protocol's steps; a failed read-back leaves the watermark.
  function Pass(limit: nat, readsBack: bool): seq<Step> {
    [Export(limit), ArchiveBatch(readsBack), MoveMark]
  }

  lemma PassWorld(w: World, limit: nat, readsBack: bool)
    requires w.stage == Idle && limit > 0
    ensures var rows := ExportRows(w.ledger, w.mark, limit);
            Run(w, Pass(limit, readsBack)) ==
            if rows == [] || !readsBack then w
            else World(w.ledger, Advance(w.mark, PositionOf(rows[|rows| - 1])), w.batches + [rows], Idle)
  {
    var a := Next(w, Export(limit));
    var b := Next(a, ArchiveBatch(readsBack));
    RunOne(w, Export(limit), [ArchiveBatch(readsBack), MoveMark]);
    RunOne(a, ArchiveBatch(readsBack), [MoveMark]);
    RunOne(b, MoveMark, []);
    assert Pass(limit, readsBack) == [Export(limit)] + [ArchiveBatch(readsBack), MoveMark];
    assert [ArchiveBatch(readsBack), MoveMark] == [ArchiveBatch(readsBack)] + [MoveMark];
    assert [MoveMark] == [MoveMark] + [];
  }

  lemma RunOne(w: World, s: Step, rest: seq<Step>)
    ensures Run(w, [s] + rest) == Run(Next(w, s), rest)
  {
    assert ([s] + rest)[1..] == rest;
  }

  class SettlementMirror {
    var ledger: seq<Row>
    var mark: Option<Position>
    var batches: seq<seq<Row>>

    function State(): World
      reads this
    {
      World(ledger, mark, batches, Idle)
    }

    constructor ()
      ensures State() == START
    {
      ledger, mark, batches := [], None, [];
    }

    method AdvanceWatermark(p: Position)
      modifies this`mark
      ensures mark == Advance(old(mark), p)
      ensures !Beyond(p, mark) && (old(mark).Some? ==> !Beyond(old(mark).value, mark))
    {
      if mark.None? || p.at > mark.value.at || (p.at == mark.value.at && p.id > mark.value.id) {
        mark := Some(p);
      }
    }

    // kept is what the object store retains of the uploaded rows.
    method MirrorSettlements(limit: nat, kept: seq<Row>) returns (answer: Result<nat, MirrorError>)
      modifies this`mark, this`batches
      ensures limit == 0 ==> answer == Err(LimitNotPositive) && State() == old(State())
      ensures limit > 0 ==>
                var rows := ExportRows(old(ledger), old(mark), limit);
                var readsBack := kept == rows;
                && answer == (if rows == [] || readsBack then Ok(|rows|) else Err(ReadBackFailed))
                && State() == Run(old(State()), Pass(limit, readsBack))
    {
      if limit == 0 {
        return Err(LimitNotPositive);
      }
      var rows := ExportRows(ledger, mark, limit);
      PassWorld(State(), limit, kept == rows);
      if rows == [] {
        return Ok(0);
      }
      if kept != rows {
        return Err(ReadBackFailed);
      }
      batches := batches + [rows];
      var last := rows[|rows| - 1];
      AdvanceWatermark(PositionOf(last));
      return Ok(|rows|);
    }
  }

  // ----- the order of the walk, in field comparisons -----

  ghost predicate LaterThan(r: Row, at: int, id: nat) {
    r.at > at || (r.at == at && r.id > id)
  }

  ghost predicate ToExport(ledger: seq<Row>, mark: Option<Position>, r: Row) {
    r in ledger && (mark.Some? ==> LaterThan(r, mark.value.at, mark.value.id))
  }

  // An export takes rows later than the watermark, in order of time and id, as many as its limit
  // allows, and leaves no earlier one behind.
  lemma ExportExactly(ledger: seq<Row>, mark: Option<Position>, limit: nat)
    requires DistinctIds(ledger) && Distinct(ledger)
    ensures var rows := ExportRows(ledger, mark, limit);
            && |rows| <= limit && (forall r | r in rows :: ToExport(ledger, mark, r))
            && (forall i, j | 0 <= i < j < |rows| :: LaterThan(rows[j], rows[i].at, rows[i].id))
            && (forall r | ToExport(ledger, mark, r) && r !in rows :: |rows| == limit && forall x | x in rows :: LaterThan(r, x.at, x.id))
  {
    var pending, rows := Pending(ledger, mark), ExportRows(ledger, mark, limit);
    var sorted := Sort(pending, Earlier);
    PendingExact(ledger, mark);
    PendingDistinct(ledger, mark);
    SortPermutes(pending, Earlier);
    PermutationDistinct(pending, sorted);
    EarlierIsTotal(pending);
    SortSorts(pending, Earlier);
    forall r ensures r in sorted <==> ToExport(ledger, mark, r) {
      assert r in Elements(sorted) <==> r in Elements(pending);
    }
    SortedByPosition(ledger, sorted);
    forall r | r in sorted && r !in rows ensures |rows| == limit && forall x | x in rows :: LaterThan(r, x.at, x.id) {
      var j :| 0 <= j < |sorted| && sorted[j] == r;
      assert j >= |rows|;
    }
  }

  lemma SortedByPosition(ledger: seq<Row>, sorted: seq<Row>)
    requires DistinctIds(ledger) && Distinct(sorted) && Sorted(Earlier, sorted) && forall r | r in sorted :: r in ledger
    ensures forall i, j | 0 <= i < j < |sorted| :: LaterThan(sorted[j], sorted[i].at, sorted[i].id)
  {
    forall i, j | 0 <= i < j < |sorted| ensures LaterThan(sorted[j], sorted[i].at, sorted[i].id) {
      assert sorted[i] in sorted && sorted[j] in sorted;
    }
  }

  lemma {:induction false} PendingDistinct(ledger: seq<Row>, mark: Option<Position>)
    requires Distinct(ledger)
    ensures Distinct(Pending(ledger, mark))
  {
    if ledger != [] {
      var front, last := ledger[..|ledger| - 1], ledger[|ledger| - 1];
      PendingDistinct(front, mark);
      PendingExact(front, mark);
      assert last !in front;
    }
  }

  // The watermark moves exactly to a position later than its own.
  lemma AdvanceExactly(mark: Option<Position>, p: Position)
    ensures mark.None? || p.at > mark.value.at || (p.at == mark.value.at && p.id > mark.value.id) <==> Advance(mark, p) != mark
    ensures Advance(mark, p) == Some(p) || Advance(mark, p) == mark
  {
  }
}
