/** Reading the archived batches back: window pruning and de-duplication by key. */
module ArchiveReader {
  import opened Wrappers
  import opened Sorting
  import opened Archive

  datatype ReadError = KeyMissing

  predicate InWindow(at: int, start: Option<int>, end: Option<int>) {
    (start.Some? ==> at >= start.value) && (end.Some? ==> at <= end.value)
  }

  // The window clauses of list_batches.
  predicate Listed(b: Batch, start: Option<int>, end: Option<int>) {
    && (start.Some? ==> b.maxAt.None? || b.maxAt.value >= start.value)
    && (end.Some? ==> b.minAt.None? || b.minAt.value <= end.value)
  }

  function ListBatches(catalog: map<ObjectKey, Batch>, dataset: string, start: Option<int>, end: Option<int>): set<ObjectKey> {
    set key | key in catalog && key.dataset == dataset && Listed(catalog[key], start, end)
  }

  function ReadRows(objects: map<ObjectKey, seq<Row>>, keys: seq<ObjectKey>): seq<Row>
    requires forall key | key in keys :: key in objects
  {
    if keys == [] then [] else objects[keys[0]] + ReadRows(objects, keys[1..])
  }

  lemma {:induction false} ReadRowsExact(objects: map<ObjectKey, seq<Row>>, keys: seq<ObjectKey>, r: Row)
    requires forall key | key in keys :: key in objects
    ensures r in ReadRows(objects, keys) <==> exists key | key in keys :: r in objects[key]
  {
    if keys != [] {
      ReadRowsExact(objects, keys[1..], r);
      assert keys == [keys[0]] + keys[1..];
    }
  }

  // ----- the window of a batch -----

  lemma {:induction false} TimesBound(xs: seq<int>, x: int)
    requires x in xs
    ensures Minimum(xs).Some? && Minimum(xs).value <= x
    ensures Maximum(xs).Some? && Maximum(xs).value >= x
  {
    var front := xs[..|xs| - 1];
    if x in front {
      TimesBound(front, x);
    }
  }

  lemma {:induction false} TimesOfHolds(rows: seq<Row>, r: Row)
    requires r in rows && r.recordedAt.Some?
    ensures r.recordedAt.value in TimesOf(rows)
  {
    if r != rows[|rows| - 1] {
      TimesOfHolds(rows[..|rows| - 1], r);
    }
  }

  ghost predicate WindowsKept(d: Depot) {
    forall key | key in d.catalog ::
      && d.catalog[key].minAt == Minimum(TimesOf(key.content))
      && d.catalog[key].maxAt == Maximum(TimesOf(key.content))
  }

  // Pruning never drops a batch that holds a row inside the window.
  lemma PruningKeeps(d: Depot, key: ObjectKey, r: Row, start: Option<int>, end: Option<int>)
    requires WindowsKept(d) && key in d.catalog && r in key.content
    requires r.recordedAt.Some? && InWindow(r.recordedAt.value, start, end)
    ensures key in ListBatches(d.catalog, key.dataset, start, end)
  {
    TimesOfHolds(key.content, r);
    TimesBound(TimesOf(key.content), r.recordedAt.value);
  }

  ghost predicate OnlyAccepted(w: World) {
    && (forall id | id in w.depot.hot :: w.depot.hot[id] in w.ever)
    && (forall key | key in w.depot.catalog :: forall r | r in key.content :: r in w.ever)
    && (w.stage.Selected? || w.stage.Uploaded? || w.stage.Verified? ==> forall r | r in w.stage.rows :: r in w.ever)
  }

  lemma StepKeepsReadable(w: World, s: Step)
    requires Sound(w) && WindowsKept(w.depot) && OnlyAccepted(w)
    ensures WindowsKept(Next(w, s).depot) && OnlyAccepted(Next(w, s))
  {
    if s.Select? {
      SelectSound(w, s.cutoff, s.limit, s.afterId);
    }
  }

  lemma {:induction false} RunKeepsReadable(w: World, steps: seq<Step>)
    requires Sound(w) && WindowsKept(w.depot) && OnlyAccepted(w)
    ensures Sound(Run(w, steps)) && WindowsKept(Run(w, steps).depot) && OnlyAccepted(Run(w, steps))
    decreases |steps|
  {
    if steps != [] {
      NextSound(w, steps[0]);
      StepKeepsReadable(w, steps[0]);
      RunKeepsReadable(Next(w, steps[0]), steps[1..]);
    }
  }

  // ----- de-duplication -----

  ghost predicate LastOf<K, T>(rows: seq<T>, keyOf: T -> Option<K>, p: int) {
    0 <= p < |rows| && forall q | p < q < |rows| :: keyOf(rows[q]) != keyOf(rows[p])
  }

  ghost predicate LastWithItsKey<K, T>(rows: seq<T>, keyOf: T -> Option<K>, row: T) {
    exists p :: LastOf(rows, keyOf, p) && rows[p] == row
  }

  // One row for each key: the last row with that key, at the place of the first.
  ghost predicate Deduplicated<K, T>(rows: seq<T>, keyOf: T -> Option<K>, unique: seq<T>) {
    && (forall i, j | 0 <= i < j < |unique| :: keyOf(unique[i]) != keyOf(unique[j]))
    && (forall r | r in rows :: exists u | u in unique :: keyOf(u) == keyOf(r))
    && (forall i | 0 <= i < |unique| :: LastWithItsKey(rows, keyOf, unique[i]))
    && (forall i | 0 <= i < |unique| :: FirstsBefore(rows, keyOf, unique, i))
  }

  // Whatever precedes the first row of unique[i]'s key stands before i.
  ghost predicate FirstsBefore<K, T>(rows: seq<T>, keyOf: T -> Option<K>, unique: seq<T>, i: int)
    requires 0 <= i < |unique|
  {
    exists p :: 0 <= p < |rows| && keyOf(rows[p]) == keyOf(unique[i])
                && forall q | 0 <= q < p :: exists j | 0 <= j < i :: keyOf(unique[j]) == keyOf(rows[q])
  }

  // The dictionary after some rows: its keys in insertion order and its values.
  ghost predicate KeysHeld<K, T>(rows: seq<T>, keyOf: T -> Option<K>, order: seq<K>) {
    && (forall i, j | 0 <= i < j < |order| :: order[i] != order[j])
    && (forall r | r in rows :: keyOf(r).Some? && keyOf(r).value in order)
  }

  ghost predicate LastFor<K, T>(rows: seq<T>, keyOf: T -> Option<K>, k: K, row: T) {
    keyOf(row) == Some(k) && LastWithItsKey(rows, keyOf, row)
  }

  ghost predicate ValuesHeld<K, T>(rows: seq<T>, keyOf: T -> Option<K>, order: seq<K>, values: map<K, T>) {
    forall k | k in order :: k in values && LastFor(rows, keyOf, k, values[k])
  }

  ghost predicate OrderHeld<K, T>(rows: seq<T>, keyOf: T -> Option<K>, order: seq<K>) {
    forall i | 0 <= i < |order| :: FirstFor(rows, keyOf, order[..i], order[i])
  }

  // Every row before the first one of key k has a key in before.
  ghost predicate FirstFor<K, T>(rows: seq<T>, keyOf: T -> Option<K>, before: seq<K>, k: K) {
    exists p :: FirstAt(rows, keyOf, before, k, p)
  }

  ghost predicate FirstAt<K, T>(rows: seq<T>, keyOf: T -> Option<K>, before: seq<K>, k: K, p: int) {
    && 0 <= p < |rows| && keyOf(rows[p]) == Some(k)
    && forall q | 0 <= q < p :: keyOf(rows[q]).Some? && keyOf(rows[q]).value in before
  }

  lemma ValuesStep<K, T>(rows: seq<T>, keyOf: T -> Option<K>, order: seq<K>, values: map<K, T>, row: T, k: K)
    requires ValuesHeld(rows, keyOf, order, values) && keyOf(row) == Some(k)
    ensures ValuesHeld(rows + [row], keyOf, if k in order then order else order + [k], values[k := row])
  {
    var next, order' := rows + [row], if k in order then order else order + [k];
    forall x | x in order' ensures x in values[k := row] && LastFor(next, keyOf, x, values[k := row][x]) {
      if x == k {
        assert LastOf(next, keyOf, |rows|) && next[|rows|] == row;
      } else {
        assert LastFor(rows, keyOf, x, values[x]);
        var p :| LastOf(rows, keyOf, p) && rows[p] == values[x];
        assert LastOf(next, keyOf, p) && next[p] == values[x];
      }
    }
  }

  lemma KeysStep<K, T>(rows: seq<T>, keyOf: T -> Option<K>, order: seq<K>, row: T, k: K)
    requires KeysHeld(rows, keyOf, order) && keyOf(row) == Some(k)
    ensures KeysHeld(rows + [row], keyOf, if k in order then order else order + [k])
  {
    var next, order' := rows + [row], if k in order then order else order + [k];
    assert forall x | x in order :: x in order';
    forall r | r in next ensures keyOf(r).Some? && keyOf(r).value in order' {
      assert r in rows || r == row;
    }
  }

  lemma FirstStep<K, T>(rows: seq<T>, keyOf: T -> Option<K>, before: seq<K>, k: K, row: T)
    requires FirstFor(rows, keyOf, before, k)
    ensures FirstFor(rows + [row], keyOf, before, k)
  {
    var p :| FirstAt(rows, keyOf, before, k, p);
    assert FirstAt(rows + [row], keyOf, before, k, p);
  }

  lemma OrderStep<K, T>(rows: seq<T>, keyOf: T -> Option<K>, order: seq<K>, row: T, k: K)
    requires KeysHeld(rows, keyOf, order) && OrderHeld(rows, keyOf, order) && keyOf(row) == Some(k)
    ensures OrderHeld(rows + [row], keyOf, if k in order then order else order + [k])
  {
    var next, order' := rows + [row], if k in order then order else order + [k];
    forall i | 0 <= i < |order'| ensures FirstFor(next, keyOf, order'[..i], order'[i]) {
      if i < |order| {
        assert order'[..i] == order[..i];
        FirstStep(rows, keyOf, order[..i], order[i], row);
      } else {
        assert order'[..i] == order;
        assert FirstAt(next, keyOf, order, k, |rows|);
      }
    }
  }

  ghost predicate Dictionary<K, T>(rows: seq<T>, keyOf: T -> Option<K>, order: seq<K>, values: map<K, T>) {
    KeysHeld(rows, keyOf, order) && ValuesHeld(rows, keyOf, order, values) && OrderHeld(rows, keyOf, order)
  }

  lemma DictionaryStep<K, T>(rows: seq<T>, keyOf: T -> Option<K>, order: seq<K>, values: map<K, T>, row: T, k: K)
    requires Dictionary(rows, keyOf, order, values) && keyOf(row) == Some(k)
    ensures Dictionary(rows + [row], keyOf, if k in order then order else order + [k], values[k := row])
  {
    KeysStep(rows, keyOf, order, row, k);
    ValuesStep(rows, keyOf, order, values, row, k);
    OrderStep(rows, keyOf, order, row, k);
  }

  function ValuesInOrder<K, T>(order: seq<K>, values: map<K, T>): seq<T>
    requires forall k | k in order :: k in values
  {
    seq(|order|, i requires 0 <= i < |order| => values[order[i]])
  }

  lemma DictionaryRead<K, T>(rows: seq<T>, keyOf: T -> Option<K>, order: seq<K>, values: map<K, T>)
    requires Dictionary(rows, keyOf, order, values)
    ensures forall r | r in rows :: keyOf(r).Some?
    ensures Deduplicated(rows, keyOf, ValuesInOrder(order, values))
  {
    var unique := ValuesInOrder(order, values);
    forall i | 0 <= i < |unique|
      ensures keyOf(unique[i]) == Some(order[i]) && LastWithItsKey(rows, keyOf, unique[i])
    {
      assert order[i] in order && LastFor(rows, keyOf, order[i], values[order[i]]);
    }
    forall r | r in rows ensures exists u | u in unique :: keyOf(u) == keyOf(r) {
      var i :| 0 <= i < |order| && order[i] == keyOf(r).value;
      assert unique[i] in unique;
    }
    forall i | 0 <= i < |unique| ensures FirstsBefore(rows, keyOf, unique, i) {
      FirstsRead(rows, keyOf, order, unique, i);
    }
  }

  lemma FirstsRead<K, T>(rows: seq<T>, keyOf: T -> Option<K>, order: seq<K>, unique: seq<T>, i: nat)
    requires i < |unique| == |order| && OrderHeld(rows, keyOf, order)
    requires forall j | 0 <= j < |unique| :: keyOf(unique[j]) == Some(order[j])
    ensures FirstsBefore(rows, keyOf, unique, i)
  {
    assert FirstFor(rows, keyOf, order[..i], order[i]);
    var p :| FirstAt(rows, keyOf, order[..i], order[i], p);
    forall q | 0 <= q < p ensures exists j | 0 <= j < i :: keyOf(unique[j]) == keyOf(rows[q]) {
      var j :| 0 <= j < i && order[..i][j] == keyOf(rows[q]).value;
      assert keyOf(unique[j]) == keyOf(rows[q]);
    }
  }

  method UniqueRows<K(==), T>(rows: seq<T>, keyOf: T -> Option<K>) returns (answer: Result<seq<T>, ReadError>)
    ensures answer.Err? <==> exists r | r in rows :: keyOf(r).None?
    ensures answer.Ok? ==> Deduplicated(rows, keyOf, answer.value)
  {
    var order: seq<K>, values: map<K, T> := [], map[];
    for i := 0 to |rows|
      invariant Dictionary(rows[..i], keyOf, order, values)
    {
      var row := rows[i];
      var key := keyOf(row);
      if key.None? {
        assert row in rows;
        return Err(KeyMissing);
      }
      DictionaryStep(rows[..i], keyOf, order, values, row, key.value);
      PrefixGrows(rows, i);
      order := if key.value in order then order else order + [key.value];
      values := values[key.value := row];
    }
    assert rows[..|rows|] == rows;
    DictionaryRead(rows, keyOf, order, values);
    return Ok(ValuesInOrder(order, values));
  }

  // When a key determines its row, every row comes back once however the reads overlap.
  lemma DeduplicatedExact<K, T>(rows: seq<T>, keyOf: T -> Option<K>, unique: seq<T>)
    requires Deduplicated(rows, keyOf, unique)
    requires forall a, b | a in rows && b in rows && keyOf(a) == keyOf(b) :: a == b
    ensures forall r :: multiset(unique)[r] == if r in rows then 1 else 0
  {
    assert Distinct(unique);
    forall r ensures multiset(unique)[r] == if r in rows then 1 else 0 {
      DistinctCounts(unique, r);
      if r in rows {
        var u :| u in unique && keyOf(u) == keyOf(r);
        var i :| 0 <= i < |unique| && unique[i] == u;
        assert LastWithItsKey(rows, keyOf, unique[i]);
        var p :| LastOf(rows, keyOf, p) && rows[p] == u;
        assert rows[p] in rows;
      }
      if r in unique {
        var i :| 0 <= i < |unique| && unique[i] == r;
        assert LastWithItsKey(rows, keyOf, unique[i]);
        var p :| LastOf(rows, keyOf, p) && rows[p] == unique[i];
        assert rows[p] in rows;
      }
    }
  }

  function RowId(): Row -> Option<nat> {
    (r: Row) => Some(r.id)
  }

  // In every reachable depot whose catalogued objects read back, a windowed read in any
  // batch order returns, exactly once each, the rows it covers: whatever it returns was
  // accepted once, and every accepted row stamped inside the window is returned or still hot.
  lemma WindowedReadBack(steps: seq<Step>, dataset: string, start: Option<int>, end: Option<int>,
                         keys: seq<ObjectKey>, unique: seq<Row>)
    requires var w := Run(START, steps);
             && (forall a, b | a in w.ever && b in w.ever && a.id == b.id :: a == b)
             && (forall key | key in w.depot.catalog :: Intact(w.depot, key) && key.dataset == dataset)
             && (forall key :: key in keys <==> key in ListBatches(w.depot.catalog, dataset, start, end))
             && Deduplicated(ReadRows(w.depot.objects, keys), RowId(), unique)
    ensures var w := Run(START, steps);
            && (forall r :: multiset(unique)[r] <= 1 && (r in unique ==> r in w.ever))
            && (forall r | r in w.ever && r.recordedAt.Some? && InWindow(r.recordedAt.value, start, end) ::
                 multiset(unique)[r] == 1 || InHot(w.depot, r))
  {
    var w := Run(START, steps);
    RunKeepsReadable(START, steps);
    ReadCovers(w, dataset, start, end, keys, ReadRows(w.depot.objects, keys), unique);
  }

  lemma ReadCovers(w: World, dataset: string, start: Option<int>, end: Option<int>, keys: seq<ObjectKey>,
                   rows: seq<Row>, unique: seq<Row>)
    requires Sound(w) && WindowsKept(w.depot) && OnlyAccepted(w)
    requires forall a, b | a in w.ever && b in w.ever && a.id == b.id :: a == b
    requires forall key | key in w.depot.catalog :: Intact(w.depot, key) && key.dataset == dataset
    requires forall key :: key in keys <==> key in ListBatches(w.depot.catalog, dataset, start, end)
    requires forall key | key in keys :: key in w.depot.objects
    requires rows == ReadRows(w.depot.objects, keys) && Deduplicated(rows, RowId(), unique)
    ensures forall r :: multiset(unique)[r] <= 1 && (r in unique ==> r in w.ever)
    ensures forall r | r in w.ever && r.recordedAt.Some? && InWindow(r.recordedAt.value, start, end) ::
              multiset(unique)[r] == 1 || InHot(w.depot, r)
  {
    forall r ensures r in rows <==> exists key | key in keys :: r in key.content {
      ReadRowsExact(w.depot.objects, keys, r);
      assert forall key | key in keys :: Intact(w.depot, key);
    }
    assert forall r | r in rows :: r in w.ever;
    DeduplicatedExact(rows, RowId(), unique);
    forall r | r in w.ever && r.recordedAt.Some? && InWindow(r.recordedAt.value, start, end) && !InHot(w.depot, r)
      ensures r in rows
    {
      var key :| Intact(w.depot, key) && r in key.content;
      PruningKeeps(w.depot, key, r, start, end);
    }
  }

  // A batch is listed for a window exactly when, for each end that is given, it holds no stamped row
  // at all or one that is not beyond that end.
  lemma ListedExactly(d: Depot, key: ObjectKey, dataset: string, start: Option<int>, end: Option<int>)
    requires WindowsKept(d) && key in d.catalog
    ensures key in ListBatches(d.catalog, dataset, start, end) <==>
              && key.dataset == dataset
              && (start.Some? ==> Unstamped(key.content) || exists r | r in key.content :: r.recordedAt.Some? && r.recordedAt.value >= start.value)
              && (end.Some? ==> Unstamped(key.content) || exists r | r in key.content :: r.recordedAt.Some? && r.recordedAt.value <= end.value)
  {
    ExtremesAreStamps(key.content);
    forall r | r in key.content && r.recordedAt.Some?
      ensures Minimum(TimesOf(key.content)).Some? && Minimum(TimesOf(key.content)).value <= r.recordedAt.value
      ensures Maximum(TimesOf(key.content)).Some? && Maximum(TimesOf(key.content)).value >= r.recordedAt.value
    {
      TimesOfHolds(key.content, r);
      TimesBound(TimesOf(key.content), r.recordedAt.value);
    }
  }

  ghost predicate Unstamped(rows: seq<Row>) {
    forall r | r in rows :: r.recordedAt.None?
  }

  ghost predicate Stamps(rows: seq<Row>, at: int) {
    exists r | r in rows :: r.recordedAt == Some(at)
  }

  lemma ExtremesAreStamps(rows: seq<Row>)
    ensures Minimum(TimesOf(rows)).None? <==> Unstamped(rows)
    ensures Maximum(TimesOf(rows)).None? <==> Unstamped(rows)
    ensures Minimum(TimesOf(rows)).Some? ==> Stamps(rows, Minimum(TimesOf(rows)).value)
    ensures Maximum(TimesOf(rows)).Some? ==> Stamps(rows, Maximum(TimesOf(rows)).value)
  {
    var times := TimesOf(rows);
    ExtremesAreMembers(times);
    forall at | at in times ensures Stamps(rows, at) {
      TimesAreStamps(rows, at);
    }
    if !Unstamped(rows) {
      var r :| r in rows && r.recordedAt.Some?;
      TimesOfHolds(rows, r);
    }
  }

  lemma {:induction false} ExtremesAreMembers(xs: seq<int>)
    ensures Minimum(xs).None? <==> xs == []
    ensures Maximum(xs).None? <==> xs == []
    ensures Minimum(xs).Some? ==> Minimum(xs).value in xs
    ensures Maximum(xs).Some? ==> Maximum(xs).value in xs
  {
    if xs != [] {
      ExtremesAreMembers(xs[..|xs| - 1]);
    }
  }

  lemma {:induction false} TimesAreStamps(rows: seq<Row>, at: int)
    requires at in TimesOf(rows)
    ensures Stamps(rows, at)
  {
    var front, last := rows[..|rows| - 1], rows[|rows| - 1];
    assert rows == front + [last];
    if last.recordedAt == Some(at) {
      assert last in rows;
    } else {
      TimesAreStamps(front, at);
      var r :| r in front && r.recordedAt == Some(at);
      assert r in rows;
    }
  }
}
