/** The archiving pass over the hot table and the reader over the archived batches. */
module ArchiveLifecycle {
  import opened Wrappers
  import opened PrimaryKeys
  import opened Archive

  datatype ArchiveError = EmptyBatch | ReadBackFailed | BatchDisappeared

  datatype PassSummary = PassSummary(batches: nat, archivedRows: nat, deletedRows: nat)

  function Flatten(keys: seq<ObjectKey>): seq<Row> {
    if keys == [] then [] else Flatten(keys[..|keys| - 1]) + keys[|keys| - 1].content
  }

  lemma AscendingIsASet(s: set<nat>, n: nat)
    requires n <= |SortedIds(s)|
    ensures |IdSet(SortedIds(s)[..n])| == n
  {
    var ids := SortedIds(s)[..n];
    forall i, j | 0 <= i < j < n ensures ids[i] != ids[j] {
      SortedIdsAscend(s, i, j);
    }
    DistinctIsASet(ids);
  }

  ghost predicate KeyedById(hot: map<nat, Row>) {
    forall id | id in hot :: hot[id].id == id
  }

  // The rows of one selection are unreferenced and distinct, so deleting them deletes them all.
  lemma SelectionRemovable(d: Depot, cutoff: int, limit: nat, afterId: Option<nat>)
    requires KeyedById(d.hot)
    ensures var ids := CandidateIds(d, cutoff, limit, afterId);
            Removable(d, Candidates(d, cutoff, limit, afterId)) == IdSet(ids) && |IdSet(ids)| == |ids|
  {
    var ids := CandidateIds(d, cutoff, limit, afterId);
    var rows := Candidates(d, cutoff, limit, afterId);
    CandidateIdsCold(d, cutoff, limit, afterId);
    AscendingIsASet(ColdIds(d, cutoff, afterId), |ids|);
    assert ids == SortedIds(ColdIds(d, cutoff, afterId))[..|ids|];
    forall i | 0 <= i < |ids| ensures ids[i] in d.hot && rows[i] == d.hot[ids[i]] && rows[i].id == ids[i] && Cold(d, ids[i], cutoff) {
      assert ids[i] in ids;
    }
    forall id | id in ids ensures id in Removable(d, rows) {
      var i :| 0 <= i < |ids| && ids[i] == id;
      assert rows[i] in rows;
    }
    forall id | id in Removable(d, rows) ensures id in ids {
      var r :| r in rows && r.id == id;
      var i :| 0 <= i < |rows| && rows[i] == r;
      assert ids[i] == id;
    }
  }

  // After the first p ids are gone, the walk behind the p-th id selects the next ones.
  lemma NextSelection(before: Depot, d: Depot, cutoff: int, limit: nat, p: nat, afterId: Option<nat>)
    requires var cold := SortedIds(ColdIds(before, cutoff, None));
             && p <= |cold| && d.hot == before.hot - IdSet(cold[..p]) && d.referenced == before.referenced
             && afterId == if p == 0 then None else Some(cold[p - 1])
    ensures SortedIds(ColdIds(d, cutoff, afterId)) == SortedIds(ColdIds(before, cutoff, None))[p..]
  {
    var s := ColdIds(before, cutoff, None);
    var cold := SortedIds(s);
    SortedIdsMembers(s);
    if p == 0 {
      assert cold[..0] == [] && IdSet([]) == {};
      assert d.hot == before.hot;
      assert ColdIds(d, cutoff, afterId) == s;
    } else {
      var bound := cold[p - 1];
      forall id | id in cold[..p] ensures id <= bound {
        var i :| 0 <= i < p && cold[i] == id;
        if i < p - 1 { SortedIdsAscend(s, i, p - 1); }
      }
      forall id ensures id in ColdIds(d, cutoff, afterId) <==> id in Above(s, bound) {
        assert id in IdSet(cold[..p]) ==> id <= bound;
      }
      assert ColdIds(d, cutoff, afterId) == Above(s, bound);
      SortedIdsAfter(s, p);
    }
  }

  lemma RowsOfSlice(hot: map<nat, Row>, kept: map<nat, Row>, cold: seq<nat>, p: nat, q: nat)
    requires p <= q <= |cold| && forall id | id in cold :: id in hot
    requires forall i | p <= i < q :: cold[i] in kept && kept[cold[i]] == hot[cold[i]]
    ensures forall id | id in cold[p..q] :: id in kept
    ensures RowsOf(hot, cold[..q]) == RowsOf(hot, cold[..p]) + RowsOf(kept, cold[p..q])
  {
    var left, right := RowsOf(hot, cold[..q]), RowsOf(hot, cold[..p]) + RowsOf(kept, cold[p..q]);
    forall i | 0 <= i < q ensures left[i] == right[i] {}
    assert left == right;
  }

  const MARKET_DATASET: string := "quantlab/market-observations"

  // Archive, delete and mark one selection over a store that keeps what it is given.
  function BatchDone(d: Depot, rows: seq<Row>, now: int): Depot {
    var key := KeyFor(MARKET_DATASET, rows, now);
    WithMark(WithoutRows(WithBatch(WithObject(d, key, rows), key, now), rows), key, now, |rows|, |Removable(d, rows)|)
  }

  // One turn of the pass is one uninterrupted walk through the crash-safe protocol.
  lemma BatchFollowsProtocol(w: World, cutoff: int, limit: nat, afterId: Option<nat>, now: int)
    requires w.stage == Idle && Candidates(w.depot, cutoff, limit, afterId) != []
    ensures var rows := Candidates(w.depot, cutoff, limit, afterId);
            var uploaded := Next(Next(w, Select(cutoff, limit, afterId)), Upload(MARKET_DATASET, now, rows));
            Next(Next(Next(Next(uploaded, Verify), Register(now)), Delete), Mark(now))
            == World(BatchDone(w.depot, rows, now), Idle, w.ever)
  {
  }

  // The first n cold ids have left the hot table for the batches named by keys.
  ghost predicate Walked(before: Depot, d: Depot, cold: seq<nat>, n: nat, keys: seq<ObjectKey>) {
    && n <= |cold| && (forall id | id in cold :: id in before.hot)
    && d.hot == before.hot - IdSet(cold[..n]) && d.referenced == before.referenced
    && Flatten(keys) == RowsOf(before.hot, cold[..n])
    && (forall key | key in keys :: Intact(d, key))
    && (forall key | Intact(before, key) :: Intact(d, key))
  }

  lemma BatchIntact(d: Depot, rows: seq<Row>, now: int)
    ensures var key := KeyFor(MARKET_DATASET, rows, now);
            Intact(BatchDone(d, rows, now), key) && forall other | Intact(d, other) :: Intact(BatchDone(d, rows, now), other)
  {
  }

  lemma FlattenAppend(keys: seq<ObjectKey>, key: ObjectKey)
    ensures Flatten(keys + [key]) == Flatten(keys) + key.content
  {
    assert (keys + [key])[..|keys|] == keys;
  }

  lemma RemovedFurther(before: map<nat, Row>, cold: seq<nat>, n: nat, m: nat)
    requires n <= m <= |cold|
    ensures before - IdSet(cold[..n]) - IdSet(cold[n..m]) == before - IdSet(cold[..m])
  {
    assert cold[..m] == cold[..n] + cold[n..m];
    assert IdSet(cold[..m]) == IdSet(cold[..n]) + IdSet(cold[n..m]);
  }

  // rows are the hot rows of the cold ids from n to m, all of them removable.
  ghost predicate IsSlice(before: Depot, d: Depot, cold: seq<nat>, n: nat, m: nat, rows: seq<Row>) {
    && n <= m <= |cold| && |rows| == m - n
    && (forall i | n <= i < m :: cold[i] in d.hot && cold[i] in before.hot && rows[i - n] == d.hot[cold[i]] == before.hot[cold[i]]
                                   && rows[i - n].id == cold[i])
    && Removable(d, rows) == IdSet(cold[n..m]) && |Removable(d, rows)| == |rows|
  }

  lemma SliceOfIds(before: Depot, d: Depot, cold: seq<nat>, n: nat, ids: seq<nat>, rows: seq<Row>)
    requires KeyedById(before.hot) && n + |ids| <= |cold| && ids == cold[n..n + |ids|] && |rows| == |ids|
    requires forall i | 0 <= i < |ids| :: ids[i] in d.hot && rows[i] == d.hot[ids[i]]
    requires d.hot == before.hot - IdSet(cold[..n])
    requires Removable(d, rows) == IdSet(ids) && |IdSet(ids)| == |ids|
    ensures IsSlice(before, d, cold, n, n + |rows|, rows)
  {
    forall i | n <= i < n + |ids| ensures cold[i] == ids[i - n] {}
  }

  lemma NextCandidates(before: Depot, d: Depot, cutoff: int, limit: nat, p: nat, afterId: Option<nat>, cold: seq<nat>)
    requires cold == SortedIds(ColdIds(before, cutoff, None)) && p <= |cold|
    requires d.hot == before.hot - IdSet(cold[..p]) && d.referenced == before.referenced
    requires afterId == if p == 0 then None else Some(cold[p - 1])
    ensures CandidateIds(d, cutoff, limit, afterId) == cold[p..p + (if |cold| - p <= limit then |cold| - p else limit)]
  {
    NextSelection(before, d, cutoff, limit, p, afterId);
  }

  // The next selection is the next slice of the cold ids.
  lemma SelectionIsSlice(before: Depot, d: Depot, cutoff: int, batchSize: nat, n: nat,
                         afterId: Option<nat>, cold: seq<nat>, ids: seq<nat>, rows: seq<Row>)
    requires KeyedById(before.hot) && cold == SortedIds(ColdIds(before, cutoff, None))
    requires n <= |cold| && afterId == if n == 0 then None else Some(cold[n - 1])
    requires d.hot == before.hot - IdSet(cold[..n]) && d.referenced == before.referenced
    requires ids == CandidateIds(d, cutoff, batchSize, afterId) && rows == Candidates(d, cutoff, batchSize, afterId)
    ensures |rows| == (if |cold| - n <= batchSize then |cold| - n else batchSize)
    ensures IsSlice(before, d, cold, n, n + |rows|, rows)
  {
    NextCandidates(before, d, cutoff, batchSize, n, afterId, cold);
    SelectionFacts(d, cutoff, batchSize, afterId, ids, rows);
    assert |ids| == if |cold| - n <= batchSize then |cold| - n else batchSize;
    SliceOfIds(before, d, cold, n, ids, rows);
  }

  // The selected ids are hot, unreferenced and distinct.
  lemma SelectionFacts(d: Depot, cutoff: int, limit: nat, afterId: Option<nat>, ids: seq<nat>, rows: seq<Row>)
    requires KeyedById(d.hot) && ids == CandidateIds(d, cutoff, limit, afterId) && rows == Candidates(d, cutoff, limit, afterId)
    ensures |rows| == |ids| && forall i | 0 <= i < |ids| :: ids[i] in d.hot && rows[i] == d.hot[ids[i]]
    ensures Removable(d, rows) == IdSet(ids) && |IdSet(ids)| == |ids|
  {
    CandidateIdsCold(d, cutoff, limit, afterId);
    SelectionRemovable(d, cutoff, limit, afterId);
    forall i | 0 <= i < |ids| ensures ids[i] in d.hot {
      assert ids[i] in ids;
    }
  }

  // One more batch takes the walk to the end of its slice.
  lemma WalkedFurther(before: Depot, d: Depot, cold: seq<nat>, n: nat, m: nat, keys: seq<ObjectKey>, rows: seq<Row>, now: int)
    requires Walked(before, d, cold, n, keys) && IsSlice(before, d, cold, n, m, rows)
    ensures Walked(before, BatchDone(d, rows, now), cold, m, keys + [KeyFor(MARKET_DATASET, rows, now)])
  {
    RowsOfSlice(before.hot, d.hot, cold, n, m);
    assert rows == RowsOf(d.hot, cold[n..m]);
    FlattenAppend(keys, KeyFor(MARKET_DATASET, rows, now));
    BatchIntact(d, rows, now);
    RemovedFurther(before.hot, cold, n, m);
  }

  lemma WalkStart(before: Depot, cutoff: int)
    ensures Walked(before, before, SortedIds(ColdIds(before, cutoff, None)), 0, [])
  {
    var cold := SortedIds(ColdIds(before, cutoff, None));
    SortedIdsMembers(ColdIds(before, cutoff, None));
    assert IdSet(cold[..0]) == {};
    assert before.hot - {} == before.hot;
  }

  // What one turn of the pass does to the walk.
  lemma BatchStep(before: Depot, d: Depot, cutoff: int, batchSize: nat, n: nat, keys: seq<ObjectKey>,
                  afterId: Option<nat>, now: int, cold: seq<nat>, rows: seq<Row>)
    requires KeyedById(before.hot) && cold == SortedIds(ColdIds(before, cutoff, None))
    requires Walked(before, d, cold, n, keys) && afterId == if n == 0 then None else Some(cold[n - 1])
    requires rows == Candidates(d, cutoff, batchSize, afterId)
    ensures n <= |cold| && |rows| == (if |cold| - n <= batchSize then |cold| - n else batchSize)
    ensures |Removable(d, rows)| == |rows| && (rows != [] ==> rows[|rows| - 1].id == cold[n + |rows| - 1])
    ensures Walked(before, BatchDone(d, rows, now), cold, n + |rows|, keys + [KeyFor(MARKET_DATASET, rows, now)])
  {
    SelectionIsSlice(before, d, cutoff, batchSize, n, afterId, cold, CandidateIds(d, cutoff, batchSize, afterId), rows);
    SliceDone(before, d, cold, n, keys, rows, now);
  }

  lemma SliceDone(before: Depot, d: Depot, cold: seq<nat>, n: nat, keys: seq<ObjectKey>, rows: seq<Row>, now: int)
    requires Walked(before, d, cold, n, keys) && IsSlice(before, d, cold, n, n + |rows|, rows)
    ensures |Removable(d, rows)| == |rows| && (rows != [] ==> rows[|rows| - 1].id == cold[n + |rows| - 1])
    ensures Walked(before, BatchDone(d, rows, now), cold, n + |rows|, keys + [KeyFor(MARKET_DATASET, rows, now)])
  {
    if rows != [] {
      assert rows[n + |rows| - 1 - n].id == cold[n + |rows| - 1];
    }
    WalkedFurther(before, d, cold, n, n + |rows|, keys, rows, now);
  }

  // The row may move: no decision refers to it and it was recorded before the limit.
  ghost predicate Movable(d: Depot, id: nat, limit: int) {
    id in d.hot && id !in d.referenced && d.hot[id].recordedAt.Some? && d.hot[id].recordedAt.value < limit
  }

  ghost predicate Batched(keys: seq<ObjectKey>, r: Row) {
    exists key | key in keys :: r in key.content
  }

  // A row moves into a new batch, which only a movable row does, or stays as it is, in no new batch.
  ghost predicate RowMovesOrStays(before: Depot, after: Depot, limit: int, keys: seq<ObjectKey>, id: nat) {
    && (id in after.hot ==> id in before.hot)
    && (id in before.hot ==>
          if id in after.hot then after.hot[id] == before.hot[id] && !Batched(keys, before.hot[id])
          else Movable(before, id, limit) && Batched(keys, before.hot[id]))
  }

  // A new batch reads back and holds only rows that left the hot table.
  ghost predicate BatchOfMoved(before: Depot, after: Depot, keys: seq<ObjectKey>, key: ObjectKey) {
    key in keys ==>
      Intact(after, key) && forall r | r in key.content :: r.id in before.hot && r.id !in after.hot && before.hot[r.id] == r
  }

  ghost predicate LeastFirst(before: Depot, after: Depot, limit: int, a: nat, b: nat) {
    a in before.hot && a !in after.hot && b in after.hot && Movable(before, b, limit) ==> a < b
  }

  ghost predicate ByAscendingId(rows: seq<Row>) {
    forall i, j | 0 <= i < j < |rows| :: rows[i].id < rows[j].id
  }

  // A pass moves n rows, the least ids first, and its batches hold each of them once, in that order.
  ghost predicate Moved(before: Depot, after: Depot, limit: int, n: nat, keys: seq<ObjectKey>) {
    && after.referenced == before.referenced && |Flatten(keys)| == n && ByAscendingId(Flatten(keys))
    && (forall id :: RowMovesOrStays(before, after, limit, keys, id))
    && (forall key :: BatchOfMoved(before, after, keys, key))
    && (forall a, b :: LeastFirst(before, after, limit, a, b))
  }

  lemma {:induction false} FlattenExactly(keys: seq<ObjectKey>, r: Row)
    ensures r in Flatten(keys) <==> Batched(keys, r)
  {
    if keys != [] {
      var front, last := keys[..|keys| - 1], keys[|keys| - 1];
      assert keys == front + [last];
      FlattenExactly(front, r);
    }
  }

  lemma SliceLeaves(s: set<nat>, n: nat)
    requires n <= |SortedIds(s)|
    ensures var gone := IdSet(SortedIds(s)[..n]);
            && gone <= s
            && forall a, b | a in gone && b in s && b !in gone :: a < b
  {
    var ids := SortedIds(s);
    var gone := IdSet(ids[..n]);
    SortedIdsMembers(s);
    forall a, b | a in gone && b in s && b !in gone ensures a < b {
      LeavesFirst(s, n, a, b);
    }
  }

  lemma SliceAscends(hot: map<nat, Row>, s: set<nat>, n: nat)
    requires KeyedById(hot) && s <= hot.Keys && n <= |SortedIds(s)| && forall id | id in SortedIds(s)[..n] :: id in hot
    ensures ByAscendingId(RowsOf(hot, SortedIds(s)[..n]))
  {
    forall i, j | 0 <= i < j < n ensures SortedIds(s)[..n][i] < SortedIds(s)[..n][j] {
      SortedIdsAscend(s, i, j);
    }
  }

  lemma LeavesFirst(s: set<nat>, n: nat, a: nat, b: nat)
    requires n <= |SortedIds(s)| && a in IdSet(SortedIds(s)[..n]) && b in s && b !in IdSet(SortedIds(s)[..n])
    ensures a < b
  {
    var ids := SortedIds(s);
    SortedIdsMembers(s);
    forall k | 0 <= k < n ensures ids[k] in IdSet(ids[..n]) {
      assert ids[..n][k] == ids[k];
    }
    var i :| 0 <= i < n && ids[..n][i] == a;
    var j :| 0 <= j < |ids| && ids[j] == b;
    SortedIdsAscend(s, i, j);
  }

  // What was recorded before the limit is hot only behind a reference.
  ghost predicate Drained(after: Depot, limit: int) {
    forall id :: !Movable(after, id, limit)
  }

  lemma WalkMoves(before: Depot, after: Depot, limit: int, n: nat, keys: seq<ObjectKey>)
    requires KeyedById(before.hot) && Walked(before, after, SortedIds(ColdIds(before, limit, None)), n, keys)
    ensures Moved(before, after, limit, n, keys)
    ensures n == |SortedIds(ColdIds(before, limit, None))| ==> forall id | Movable(before, id, limit) :: id !in after.hot
  {
    var s := ColdIds(before, limit, None);
    var cold := SortedIds(s);
    SliceLeaves(s, n);
    SliceAscends(before.hot, s, n);
    forall r ensures Batched(keys, r) <==> r in RowsOf(before.hot, cold[..n]) {
      FlattenExactly(keys, r);
    }
    BatchesHold(before, cold, n, keys);
    MovedBy(before, after, limit, n, keys, IdSet(cold[..n]));
    if n == |cold| {
      AllSlice(s);
    }
  }

  // The walk over the cold ids has gone as far as the quota allows.
  ghost predicate WalkedTo(before: Depot, after: Depot, limit: int, quota: nat, summary: PassSummary, keys: seq<ObjectKey>) {
    var cold := SortedIds(ColdIds(before, limit, None));
    var n := if |cold| <= quota then |cold| else quota;
    Walked(before, after, cold, n, keys) && summary == PassSummary(|keys|, n, n)
  }

  // A pass that does not exhaust its quota leaves no movable row behind.
  ghost predicate PassResult(before: Depot, after: Depot, limit: int, quota: nat, n: nat, keys: seq<ObjectKey>) {
    Moved(before, after, limit, n, keys) && n <= quota && (n < quota ==> Drained(after, limit))
  }

  lemma PassExactly(before: Depot, after: Depot, limit: int, quota: nat, summary: PassSummary, keys: seq<ObjectKey>)
    ensures KeyedById(before.hot) && WalkedTo(before, after, limit, quota, summary, keys) ==>
              PassResult(before, after, limit, quota, summary.archivedRows, keys)
  {
    if KeyedById(before.hot) && WalkedTo(before, after, limit, quota, summary, keys) {
      WalkMoves(before, after, limit, summary.archivedRows, keys);
      forall id ensures summary.archivedRows < quota ==> !Movable(after, id, limit) {
        assert RowMovesOrStays(before, after, limit, keys, id);
        assert Movable(after, id, limit) ==> Movable(before, id, limit);
      }
    }
  }

  lemma AllSlice(s: set<nat>)
    ensures IdSet(SortedIds(s)[..|SortedIds(s)|]) == s
  {
    SortedIdsMembers(s);
    assert SortedIds(s)[..|SortedIds(s)|] == SortedIds(s);
  }

  lemma MovedBy(before: Depot, after: Depot, limit: int, n: nat, keys: seq<ObjectKey>, gone: set<nat>)
    requires KeyedById(before.hot) && after.hot == before.hot - gone && after.referenced == before.referenced
    requires gone <= ColdIds(before, limit, None) && |Flatten(keys)| == n && ByAscendingId(Flatten(keys))
    requires forall a, b | a in gone && b in ColdIds(before, limit, None) && b !in gone :: a < b
    requires forall id | id in gone :: Batched(keys, before.hot[id])
    requires forall key, r | key in keys && r in key.content :: r.id in gone && before.hot[r.id] == r
    requires forall key | key in keys :: Intact(after, key)
    ensures Moved(before, after, limit, n, keys)
  {
    forall id ensures RowMovesOrStays(before, after, limit, keys, id) {
      assert id in gone ==> Movable(before, id, limit);
      assert id in after.hot ==> before.hot[id].id == id && id !in gone;
    }
    forall key ensures BatchOfMoved(before, after, keys, key) {}
    forall a, b ensures LeastFirst(before, after, limit, a, b) {
      assert Movable(before, b, limit) ==> b in ColdIds(before, limit, None);
    }
  }

  lemma BatchesHold(before: Depot, cold: seq<nat>, n: nat, keys: seq<ObjectKey>)
    requires KeyedById(before.hot) && n <= |cold| && (forall id | id in cold :: id in before.hot)
    requires forall r :: Batched(keys, r) <==> r in RowsOf(before.hot, cold[..n])
    ensures forall id | id in IdSet(cold[..n]) :: Batched(keys, before.hot[id])
    ensures forall key, r | key in keys && r in key.content :: r.id in IdSet(cold[..n]) && before.hot[r.id] == r
  {
    var rows := RowsOf(before.hot, cold[..n]);
    forall id | id in IdSet(cold[..n]) ensures Batched(keys, before.hot[id]) {
      var i :| 0 <= i < n && cold[..n][i] == id;
      assert rows[i] == before.hot[id] && rows[i] in rows;
    }
    forall key, r | key in keys && r in key.content ensures r.id in IdSet(cold[..n]) && before.hot[r.id] == r {
      assert Batched(keys, r);
      var i :| 0 <= i < |rows| && rows[i] == r;
      assert cold[..n][i] in cold && r == before.hot[cold[..n][i]];
    }
  }

  function Quota(batchSize: nat, batches: nat): nat {
    if batches == 0 then 0 else Quota(batchSize, batches - 1) + batchSize
  }

  lemma {:induction false} QuotaIsProduct(batchSize: nat, batches: nat)
    ensures Quota(batchSize, batches) == batchSize * batches
  {
    if batches > 0 {
      QuotaIsProduct(batchSize, batches - 1);
    }
  }

  lemma {:induction false} QuotaGrows(batchSize: nat, i: nat, batches: nat)
    requires i <= batches
    ensures Quota(batchSize, i) <= Quota(batchSize, batches)
  {
    if i < batches {
      QuotaGrows(batchSize, i, batches - 1);
    }
  }

  class Lifecycle {
    var hot: map<nat, Row>
    var referenced: set<nat>
    var objects: map<ObjectKey, seq<Row>>
    var catalog: map<ObjectKey, Batch>

    function Stored(): Depot
      reads this
    {
      Depot(hot, referenced, objects, catalog)
    }

    constructor ()
      ensures Stored() == Depot(map[], {}, map[], map[])
    {
      hot, referenced, objects, catalog := map[], {}, map[], map[];
    }

    // kept is what the object store retains of the upload.
    method ArchiveRows(dataset: string, rows: seq<Row>, now: int, kept: seq<Row>)
      returns (answer: Result<ObjectKey, ArchiveError>)
      modifies this`objects, this`catalog
      ensures rows == [] ==> answer == Err(EmptyBatch) && Stored() == old(Stored())
      ensures rows != [] ==>
                var key := KeyFor(dataset, rows, now);
                var uploaded := WithObject(old(Stored()), key, kept);
                if kept == rows then answer == Ok(key) && Stored() == WithBatch(uploaded, key, now)
                else answer == Err(ReadBackFailed) && Stored() == uploaded
    {
      if rows == [] {
        return Err(EmptyBatch);
      }
      var recorded: seq<int> := [];
      for i := 0 to |rows|
        invariant recorded == TimesOf(rows[..i])
      {
        assert rows[..i + 1][..i] == rows[..i];
        if rows[i].recordedAt.Some? {
          recorded := recorded + [rows[i].recordedAt.value];
        }
      }
      assert rows[..|rows|] == rows;
      var earliest, latest := Minimum(recorded), Maximum(recorded);
      var key := ObjectKey(dataset, if earliest.Some? then earliest.value else now, rows);
      objects := objects[key := kept];
      var downloaded := objects[key];
      if downloaded != rows {
        return Err(ReadBackFailed);
      }
      if key in catalog {
        catalog := catalog[key := catalog[key].(verifiedAt := now, selectedRows := 0, deletedRows := 0)];
      } else {
        catalog := catalog[key := Batch(|rows|, earliest, latest, now, None, 0, 0)];
      }
      return Ok(key);
    }

    method DeleteArchived(rows: seq<Row>) returns (deleted: nat)
      modifies this`hot
      ensures Stored() == WithoutRows(old(Stored()), rows)
      ensures deleted == |Removable(old(Stored()), rows)|
    {
      var removable := Removable(Stored(), rows);
      hot := hot - removable;
      deleted := |removable|;
    }

    method MarkDeleted(key: ObjectKey, now: int, deleted: nat, selected: nat) returns (answer: Result<(), ArchiveError>)
      modifies this`catalog
      ensures key !in old(catalog) ==> answer == Err(BatchDisappeared) && Stored() == old(Stored())
      ensures key in old(catalog) ==> answer == Ok(()) && Stored() == WithMark(old(Stored()), key, now, selected, deleted)
    {
      if key !in catalog {
        return Err(BatchDisappeared);
      }
      var batch := catalog[key];
      catalog := catalog[key := batch.(deletedAt := if batch.deletedAt.Some? then batch.deletedAt else Some(now),
                                       selectedRows := selected, deletedRows := deleted)];
      return Ok(());
    }

    method ArchiveBatch(rows: seq<Row>, now: int) returns (key: ObjectKey, deleted: nat)
      requires rows != []
      modifies this`hot, this`objects, this`catalog
      ensures key == KeyFor(MARKET_DATASET, rows, now) && deleted == |Removable(old(Stored()), rows)|
      ensures Stored() == BatchDone(old(Stored()), rows, now)
    {
      var archived := ArchiveRows(MARKET_DATASET, rows, now, rows);
      key := archived.value;
      deleted := DeleteArchived(rows);
      var marked := MarkDeleted(key, now, deleted, |rows|);
    }

    // One turn of the pass; before, n and keys say how far the walk has come.
    method PassBatch(cutoff: int, batchSize: nat, afterId: Option<nat>, now: int,
                     ghost before: Depot, ghost n: nat, ghost keys: seq<ObjectKey>)
      returns (rows: seq<Row>, deleted: nat, ghost walked: seq<ObjectKey>)
      requires batchSize > 0 && KeyedById(before.hot)
      requires var cold := SortedIds(ColdIds(before, cutoff, None));
               Walked(before, Stored(), cold, n, keys) && afterId == if n == 0 then None else Some(cold[n - 1])
      modifies this`hot, this`objects, this`catalog
      ensures var cold := SortedIds(ColdIds(before, cutoff, None));
              && n <= |cold| && |rows| == deleted == (if |cold| - n <= batchSize then |cold| - n else batchSize)
              && (rows != [] ==> rows[|rows| - 1].id == cold[n + |rows| - 1])
              && |walked| == |keys| + (if rows == [] then 0 else 1)
              && Walked(before, Stored(), cold, n + |rows|, walked)
    {
      rows, deleted, walked := Candidates(Stored(), cutoff, batchSize, afterId), 0, keys;
      BatchStep(before, Stored(), cutoff, batchSize, n, keys, afterId, now, SortedIds(ColdIds(before, cutoff, None)), rows);
      if rows != [] {
        var key;
        key, deleted := ArchiveBatch(rows, now);
        walked := keys + [key];
      }
    }

    // The walk of a pass over the cold ids, in order.
    method WalkCold(now: int, cutoff: int, batchSize: nat, maxBatches: nat)
      returns (summary: PassSummary, ghost keys: seq<ObjectKey>)
      requires batchSize > 0 && KeyedById(hot)
      modifies this`hot, this`objects, this`catalog
      ensures WalkedTo(old(Stored()), Stored(), cutoff, batchSize * maxBatches, summary, keys)
    {
      QuotaIsProduct(batchSize, maxBatches);
      ghost var before := Stored();
      ghost var cold := SortedIds(ColdIds(before, cutoff, None));
      WalkStart(before, cutoff);
      var afterId: Option<nat> := None;
      var batches, archivedRows, deletedRows := 0, 0, 0;
      keys := [];
      while batches < maxBatches
        invariant batches == |keys| <= maxBatches
        invariant archivedRows == Quota(batchSize, batches) && archivedRows == deletedRows <= |cold|
        invariant afterId == if archivedRows == 0 then None else Some(cold[archivedRows - 1])
        invariant Walked(before, Stored(), cold, archivedRows, keys)
      {
        QuotaGrows(batchSize, batches + 1, maxBatches);
        var rows, deleted;
        rows, deleted, keys := PassBatch(cutoff, batchSize, afterId, now, before, archivedRows, keys);
        if rows == [] {
          break;
        }
        batches := batches + 1;
        archivedRows := archivedRows + |rows|;
        deletedRows := deletedRows + deleted;
        afterId := Some(rows[|rows| - 1].id);
        if |rows| < batchSize {
          break;
        }
      }
      summary := PassSummary(batches, archivedRows, deletedRows);
    }

    // A pass that meets no crash and no new reference, over a store that keeps what it is
    // given: the first batchSize * maxBatches cold unreferenced ids, in order, leave the hot
    // table and are found once each in the new batches.
    method ArchiveColdMarketObservations(now: int, hotFor: int, batchSize: nat, maxBatches: nat)
      returns (summary: PassSummary, ghost keys: seq<ObjectKey>)
      requires batchSize > 0 && KeyedById(hot)
      modifies this`hot, this`objects, this`catalog
      ensures WalkedTo(old(Stored()), Stored(), now - hotFor, batchSize * maxBatches, summary, keys)
      ensures PassResult(old(Stored()), Stored(), now - hotFor, batchSize * maxBatches, summary.archivedRows, keys)
      ensures forall id | id in old(hot) && (old(hot)[id].recordedAt.None? || old(hot)[id].recordedAt.value >= now - hotFor) ::
                id in hot && hot[id] == old(hot)[id] && !Batched(keys, old(hot)[id])
    {
      summary, keys := WalkCold(now, now - hotFor, batchSize, maxBatches);
      PassExactly(old(Stored()), Stored(), now - hotFor, batchSize * maxBatches, summary, keys);
      forall id | id in old(hot) && (old(hot)[id].recordedAt.None? || old(hot)[id].recordedAt.value >= now - hotFor)
        ensures id in hot && hot[id] == old(hot)[id] && !Batched(keys, old(hot)[id])
      {
        assert RowMovesOrStays(old(Stored()), Stored(), now - hotFor, keys, id);
      }
    }
  }
}
