/** The hot table, the object store and the catalog of cold batches, with the protocol that
    moves unreferenced rows from one to the other. */
module Archive {
  import opened Wrappers
  import opened PrimaryKeys

  // recordedAt is None when the field holds no parseable timestamp.
  datatype Row = Row(id: nat, recordedAt: Option<int>, payload: string)

  // Object keys are content addressed; digests are injective, so a key carries its content.
  // The catalog identifies a batch by a digest of its key.
  datatype ObjectKey = ObjectKey(dataset: string, partitionAt: int, content: seq<Row>)

  datatype Batch = Batch(rowCount: nat, minAt: Option<int>, maxAt: Option<int>, verifiedAt: int,
                         deletedAt: Option<int>, selectedRows: nat, deletedRows: nat)

  datatype Depot = Depot(hot: map<nat, Row>, referenced: set<nat>,
                         objects: map<ObjectKey, seq<Row>>, catalog: map<ObjectKey, Batch>)

  // ----- candidate selection -----

  predicate Cold(d: Depot, id: nat, cutoff: int) {
    id in d.hot && id !in d.referenced && d.hot[id].recordedAt.Some? && d.hot[id].recordedAt.value < cutoff
  }

  function ColdIds(d: Depot, cutoff: int, afterId: Option<nat>): set<nat> {
    var cold := set id | id in d.hot && Cold(d, id, cutoff);
    if afterId.None? then cold else Above(cold, afterId.value)
  }

  function RowsOf(hot: map<nat, Row>, ids: seq<nat>): seq<Row>
    requires forall id | id in ids :: id in hot
  {
    seq(|ids|, i requires 0 <= i < |ids| => hot[ids[i]])
  }

  function CandidateIds(d: Depot, cutoff: int, limit: nat, afterId: Option<nat>): seq<nat> {
    Take(SortedIds(ColdIds(d, cutoff, afterId)), limit)
  }

  lemma CandidateIdsCold(d: Depot, cutoff: int, limit: nat, afterId: Option<nat>)
    ensures forall id | id in CandidateIds(d, cutoff, limit, afterId) :: Cold(d, id, cutoff)
  {
    SortedIdsMembers(ColdIds(d, cutoff, afterId));
    assert forall id | id in CandidateIds(d, cutoff, limit, afterId) :: id in SortedIds(ColdIds(d, cutoff, afterId));
  }

  function Candidates(d: Depot, cutoff: int, limit: nat, afterId: Option<nat>): seq<Row> {
    CandidateIdsCold(d, cutoff, limit, afterId);
    RowsOf(d.hot, CandidateIds(d, cutoff, limit, afterId))
  }

  // ----- the durable effect of each step -----

  function TimesOf(rows: seq<Row>): seq<int> {
    if rows == [] then []
    else TimesOf(rows[..|rows| - 1]) + if rows[|rows| - 1].recordedAt.Some? then [rows[|rows| - 1].recordedAt.value] else []
  }

  function Minimum(xs: seq<int>): Option<int> {
    if xs == [] then None
    else
      var m := Minimum(xs[..|xs| - 1]);
      if m.Some? && m.value <= xs[|xs| - 1] then m else Some(xs[|xs| - 1])
  }

  function Maximum(xs: seq<int>): Option<int> {
    if xs == [] then None
    else
      var m := Maximum(xs[..|xs| - 1]);
      if m.Some? && m.value >= xs[|xs| - 1] then m else Some(xs[|xs| - 1])
  }

  function KeyFor(dataset: string, rows: seq<Row>, now: int): ObjectKey {
    var earliest := Minimum(TimesOf(rows));
    ObjectKey(dataset, if earliest.Some? then earliest.value else now, rows)
  }

  function WithObject(d: Depot, key: ObjectKey, stored: seq<Row>): Depot {
    d.(objects := d.objects[key := stored])
  }

  // A repeated registration keeps the window and the delete mark of the first one; its
  // metadata replaces the earlier counts.
  function WithBatch(d: Depot, key: ObjectKey, now: int): Depot {
    var times := TimesOf(key.content);
    var batch := if key in d.catalog then d.catalog[key].(verifiedAt := now, selectedRows := 0, deletedRows := 0)
                 else Batch(|key.content|, Minimum(times), Maximum(times), now, None, 0, 0);
    d.(catalog := d.catalog[key := batch])
  }

  function Removable(d: Depot, rows: seq<Row>): set<nat> {
    set r | r in rows && r.id in d.hot && r.id !in d.referenced :: r.id
  }

  function WithoutRows(d: Depot, rows: seq<Row>): Depot {
    d.(hot := d.hot - Removable(d, rows))
  }

  function WithMark(d: Depot, key: ObjectKey, now: int, selected: nat, deleted: nat): Depot
    requires key in d.catalog
  {
    var batch := d.catalog[key];
    d.(catalog := d.catalog[key := batch.(deletedAt := if batch.deletedAt.Some? then batch.deletedAt else Some(now),
                                          selectedRows := selected, deletedRows := deleted)])
  }

  // ----- the protocol -----

  // Where the single archiver stands; a crash forgets it and keeps the depot.
  datatype Stage =
    | Idle
    | Selected(rows: seq<Row>)
    | Uploaded(rows: seq<Row>, key: ObjectKey)
    | Verified(rows: seq<Row>, key: ObjectKey)
    | Registered(rows: seq<Row>, key: ObjectKey)
    | Deleted(rows: seq<Row>, key: ObjectKey, deleted: nat)

  // ever collects the rows that were accepted into the hot table.
  datatype World = World(depot: Depot, stage: Stage, ever: set<Row>)

  datatype Step =
    | Insert(row: Row)
    | Reference(id: nat)
    | Select(cutoff: int, limit: nat, afterId: Option<nat>)
    | Upload(dataset: string, now: int, stored: seq<Row>)  // stored is what the object store keeps
    | Verify
    | Register(now: int)
    | Delete
    | Mark(now: int)
    | Crash

  function Next(w: World, s: Step): World {
    var d := w.depot;
    match s
    case Insert(row) =>
      if row.id in d.hot then w else w.(depot := d.(hot := d.hot[row.id := row]), ever := w.ever + {row})
    case Reference(id) =>
      if id in d.hot then w.(depot := d.(referenced := d.referenced + {id})) else w
    case Select(cutoff, limit, afterId) =>
      if w.stage != Idle then w
      else
        var rows := Candidates(d, cutoff, limit, afterId);
        if rows == [] then w else w.(stage := Selected(rows))
    case Upload(dataset, now, stored) =>
      if !w.stage.Selected? then w
      else
        var key := KeyFor(dataset, w.stage.rows, now);
        World(WithObject(d, key, stored), Uploaded(w.stage.rows, key), w.ever)
    case Verify =>
      if !w.stage.Uploaded? then w
      else if w.stage.key in d.objects && d.objects[w.stage.key] == w.stage.rows
      then w.(stage := Verified(w.stage.rows, w.stage.key))
      else w.(stage := Idle)
    case Register(now) =>
      if !w.stage.Verified? then w
      else World(WithBatch(d, w.stage.key, now), Registered(w.stage.rows, w.stage.key), w.ever)
    case Delete =>
      if !w.stage.Registered? then w
      else World(WithoutRows(d, w.stage.rows), Deleted(w.stage.rows, w.stage.key, |Removable(d, w.stage.rows)|), w.ever)
    case Mark(now) =>
      if !w.stage.Deleted? then w
      else if w.stage.key !in d.catalog then w.(stage := Idle)
      else World(WithMark(d, w.stage.key, now, |w.stage.rows|, w.stage.deleted), Idle, w.ever)
    case Crash => w.(stage := Idle)
  }

  function Run(w: World, steps: seq<Step>): World
    decreases |steps|
  {
    if steps == [] then w else Run(Next(w, steps[0]), steps[1..])
  }

  const START: World := World(Depot(map[], {}, map[], map[]), Idle, {})

  // ----- nothing is lost -----

  ghost predicate InHot(d: Depot, r: Row) {
    r.id in d.hot && d.hot[r.id] == r
  }

  // A catalogued batch whose object reads back to the content its key was computed from.
  ghost predicate Intact(d: Depot, key: ObjectKey) {
    key in d.catalog && key in d.objects && d.objects[key] == key.content
  }

  ghost predicate InBatch(d: Depot, r: Row) {
    exists key :: Intact(d, key) && r in key.content
  }

  ghost predicate StageSound(w: World) {
    var d := w.depot;
    match w.stage
    case Idle => true
    case Selected(rows) => forall r | r in rows :: InHot(d, r)
    case Uploaded(rows, key) => key.content == rows && forall r | r in rows :: InHot(d, r)
    case Verified(rows, key) =>
      key.content == rows && key in d.objects && d.objects[key] == rows && forall r | r in rows :: InHot(d, r)
    case Registered(rows, key) => key.content == rows && Intact(d, key) && forall r | r in rows :: InHot(d, r)
    case Deleted(rows, key, _) => key.content == rows && Intact(d, key)
  }

  ghost predicate NothingLost(w: World) {
    forall r | r in w.ever :: InHot(w.depot, r) || InBatch(w.depot, r)
  }

  ghost predicate Sound(w: World) {
    && (forall id | id in w.depot.hot :: w.depot.hot[id].id == id)
    && w.depot.referenced <= w.depot.hot.Keys
    && StageSound(w)
    && NothingLost(w)
  }

  lemma UploadSound(w: World, dataset: string, now: int, stored: seq<Row>)
    requires Sound(w) && w.stage.Selected?
    ensures Sound(Next(w, Upload(dataset, now, stored)))
  {
    var u := Next(w, Upload(dataset, now, stored));
    var written := u.stage.key;
    forall r | r in w.ever ensures InHot(u.depot, r) || InBatch(u.depot, r) {
      if !InHot(w.depot, r) {
        var key :| Intact(w.depot, key) && r in key.content;
        assert key != written;
        assert Intact(u.depot, key);
      }
    }
  }

  lemma RegisterSound(w: World, now: int)
    requires Sound(w) && w.stage.Verified?
    ensures Sound(Next(w, Register(now)))
  {
    var u := Next(w, Register(now));
    assert Intact(u.depot, u.stage.key);
    BatchesStay(w, u);
  }

  lemma BatchesStay(w: World, u: World)
    requires forall key | Intact(w.depot, key) :: Intact(u.depot, key)
    ensures forall r | InBatch(w.depot, r) :: InBatch(u.depot, r)
  {
    forall r | InBatch(w.depot, r) ensures InBatch(u.depot, r) {
      var key :| Intact(w.depot, key) && r in key.content;
      assert Intact(u.depot, key);
    }
  }

  lemma DeleteSound(w: World)
    requires Sound(w) && w.stage.Registered?
    ensures Sound(Next(w, Delete))
  {
    var u := Next(w, Delete);
    forall key ensures Intact(w.depot, key) == Intact(u.depot, key) {}
    forall r | r in w.ever ensures InHot(u.depot, r) || InBatch(u.depot, r) {
      if InHot(w.depot, r) {
        if r.id in Removable(w.depot, w.stage.rows) {
          var picked :| picked in w.stage.rows && picked.id == r.id;
          assert InHot(w.depot, picked) && picked == r;
          assert Intact(u.depot, w.stage.key) && r in w.stage.key.content;
        }
      } else {
        var key :| Intact(w.depot, key) && r in key.content;
        assert Intact(u.depot, key);
      }
    }
  }

  lemma MarkSound(w: World, now: int)
    requires Sound(w) && w.stage.Deleted?
    ensures Sound(Next(w, Mark(now)))
  {
    BatchesStay(w, Next(w, Mark(now)));
  }

  lemma InsertSound(w: World, row: Row)
    requires Sound(w)
    ensures Sound(Next(w, Insert(row)))
  {
    var u := Next(w, Insert(row));
    forall key ensures Intact(w.depot, key) == Intact(u.depot, key) {}
    BatchesStay(w, u);
  }

  lemma SelectSound(w: World, cutoff: int, limit: nat, afterId: Option<nat>)
    requires Sound(w)
    ensures Sound(Next(w, Select(cutoff, limit, afterId)))
  {
    var rows := Candidates(w.depot, cutoff, limit, afterId);
    var ids := CandidateIds(w.depot, cutoff, limit, afterId);
    CandidateIdsCold(w.depot, cutoff, limit, afterId);
    forall r | r in rows ensures InHot(w.depot, r) {
      var i :| 0 <= i < |rows| && rows[i] == r;
      assert ids[i] in ids && r == w.depot.hot[ids[i]];
    }
  }

  lemma NextSound(w: World, s: Step)
    requires Sound(w)
    ensures Sound(Next(w, s))
  {
    var u := Next(w, s);
    match s {
      case Insert(row) => InsertSound(w, row);
      case Reference(id) => BatchesStay(w, u);
      case Select(cutoff, limit, afterId) => SelectSound(w, cutoff, limit, afterId);
      case Upload(dataset, now, stored) => if w.stage.Selected? { UploadSound(w, dataset, now, stored); }
      case Verify =>
      case Register(now) => if w.stage.Verified? { RegisterSound(w, now); }
      case Delete => if w.stage.Registered? { DeleteSound(w); }
      case Mark(now) => if w.stage.Deleted? { MarkSound(w, now); }
      case Crash =>
    }
  }

  lemma {:induction false} RunSound(w: World, steps: seq<Step>)
    requires Sound(w)
    ensures Sound(Run(w, steps))
    decreases |steps|
  {
    if steps != [] {
      NextSound(w, steps[0]);
      RunSound(Next(w, steps[0]), steps[1..]);
    }
  }

  // With a crash or a corrupted upload possible anywhere and references appearing at any
  // moment, every accepted row is in the hot table or in a catalogued batch that reads back,
  // and every referenced row is in the hot table.
  lemma ArchiveLosesNothing(steps: seq<Step>)
    ensures var w := Run(START, steps);
            && w.depot.referenced <= w.depot.hot.Keys
            && forall r | r in w.ever :: InHot(w.depot, r) || InBatch(w.depot, r)
  {
    RunSound(START, steps);
  }

  // The advisory lock matters: a second archiver that selected the same row before its
  // deletion, and whose upload goes wrong afterwards, loses it.
  lemma SecondArchiverLosesRow(row: Row, other: seq<Row>)
    requires row.recordedAt.Some? && other != [row]
    ensures var selected := Next(Next(START, Insert(row)), Select(row.recordedAt.value + 1, 1, None));
            var registered := Next(Next(Next(selected, Upload("m", 0, [row])), Verify), Register(0));
            var first := Next(registered, Delete);
            var second := Next(first.(stage := selected.stage), Upload("m", 0, other));
            selected.stage == Selected([row])
            && row in second.ever && !InHot(second.depot, row) && !InBatch(second.depot, row)
  {
    var inserted := Next(START, Insert(row));
    var cutoff := row.recordedAt.value + 1;
    assert inserted.depot.hot == map[row.id := row];
    assert ColdIds(inserted.depot, cutoff, None) == {row.id};
    assert SortedIds({row.id}) == [row.id] + SortedIds({});
    assert Candidates(inserted.depot, cutoff, 1, None) == [row];
    var selected := Next(inserted, Select(cutoff, 1, None));
    var registered := Next(Next(Next(selected, Upload("m", 0, [row])), Verify), Register(0));
    assert registered.depot.catalog.Keys == {KeyFor("m", [row], 0)};
    assert row.id in Removable(registered.depot, [row]);
  }
}
