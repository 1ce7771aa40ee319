/** The projection of research rows onto one signal for each fixture. */
module OneSignal {
  import opened Wrappers
  import opened Sorting

  // A row was qualified, or only blocked, or carries no usable time.
  datatype Times = Qualified(at: int) | Blocked(first: int, last: int) | Untimed

  datatype Row = Row(id: nat, fixture: nat, times: Times, ev: Option<real>, edge: Option<real>, odds: Option<real>)

  datatype ProjectionError = NotADatetime

  function RankTime(r: Row): int {
    match r.times
    case Qualified(at) => at
    case Blocked(first, _) => first
    case Untimed => 0
  }

  function ShowTime(r: Row): int {
    match r.times
    case Qualified(at) => at
    case Blocked(_, last) => last
    case Untimed => 0
  }

  // A missing number is weaker than any number.
  predicate Stronger(a: Option<real>, b: Option<real>) {
    a.Some? && (b.None? || a.value > b.value)
  }

  // The row that keeps its fixture: the earliest, then the strongest.
  predicate Outranks(a: Row, b: Row) {
    if RankTime(a) != RankTime(b) then RankTime(a) < RankTime(b)
    else if a.ev != b.ev then Stronger(a.ev, b.ev)
    else if a.edge != b.edge then Stronger(a.edge, b.edge)
    else if a.odds != b.odds then Stronger(a.odds, b.odds)
    else a.id < b.id
  }

  // The output order: the latest first, the greater evaluation id first among equals.
  predicate ShownFirst(a: Row, b: Row) {
    ShowTime(a) > ShowTime(b) || (ShowTime(a) == ShowTime(b) && a.id > b.id)
  }

  function Best(rows: seq<Row>, fixture: nat): Option<Row> {
    if rows == [] then None
    else
      var best := Best(rows[..|rows| - 1], fixture);
      var last := rows[|rows| - 1];
      if last.fixture == fixture && (best.None? || Outranks(last, best.value)) then Some(last) else best
  }

  // The fixtures in order of first appearance.
  function Fixtures(rows: seq<Row>): seq<nat> {
    if rows == [] then []
    else
      var seen := Fixtures(rows[..|rows| - 1]);
      var last := rows[|rows| - 1];
      if last.fixture in seen then seen else seen + [last.fixture]
  }

  lemma {:induction false} FixturesExact(rows: seq<Row>)
    ensures Distinct(Fixtures(rows))
    ensures forall f :: f in Fixtures(rows) <==> exists r | r in rows :: r.fixture == f
  {
    if rows != [] {
      FixturesExact(rows[..|rows| - 1]);
      assert rows == rows[..|rows| - 1] + [rows[|rows| - 1]];
    }
  }

  lemma {:induction false} BestIsSome(rows: seq<Row>, fixture: nat)
    ensures Best(rows, fixture).Some? <==> fixture in Fixtures(rows)
    ensures Best(rows, fixture).Some? ==> Best(rows, fixture).value in rows && Best(rows, fixture).value.fixture == fixture
  {
    if rows != [] {
      BestIsSome(rows[..|rows| - 1], fixture);
    }
  }

  function Chosen(rows: seq<Row>, fixtures: seq<nat>): seq<Row>
    requires forall f | f in fixtures :: Best(rows, f).Some?
  {
    seq(|fixtures|, i requires 0 <= i < |fixtures| => Best(rows, fixtures[i]).value)
  }

  function Projected(rows: seq<Row>): seq<Row> {
    assert forall f | f in Fixtures(rows) :: Best(rows, f).Some? by {
      forall f | f in Fixtures(rows) ensures Best(rows, f).Some? {
        BestIsSome(rows, f);
      }
    }
    Sort(Chosen(rows, Fixtures(rows)), ShownFirst)
  }

  method OneSignalPerFixture(rows: seq<Row>) returns (answer: Result<seq<Row>, ProjectionError>)
    ensures answer.Err? <==> exists r | r in rows :: r.times.Untimed?
    ensures answer.Ok? ==> answer.value == Projected(rows)
  {
    var order: seq<nat>, chosen: map<nat, Row> := [], map[];
    for i := 0 to |rows|
      invariant forall r | r in rows[..i] :: !r.times.Untimed?
      invariant order == Fixtures(rows[..i])
      invariant forall f :: f in chosen <==> f in order
      invariant forall f | f in chosen :: Best(rows[..i], f) == Some(chosen[f])
    {
      assert rows[..i + 1][..i] == rows[..i];
      var row := rows[i];
      if row.times.Untimed? {
        assert row in rows;
        return Err(NotADatetime);
      }
      if row.fixture !in chosen {
        BestIsSome(rows[..i], row.fixture);
        order := order + [row.fixture];
        chosen := chosen[row.fixture := row];
      } else if Outranks(row, chosen[row.fixture]) {
        chosen := chosen[row.fixture := row];
      }
    }
    assert rows[..|rows|] == rows;
    var kept := seq(|order|, i requires 0 <= i < |order| => assert order[i] in chosen; chosen[order[i]]);
    assert kept == Chosen(rows, Fixtures(rows));
    return Ok(Sort(kept, ShownFirst));
  }

  ghost predicate DistinctIds(rows: seq<Row>) {
    forall i, j | 0 <= i < j < |rows| :: rows[i].id != rows[j].id
  }

  lemma SameId(rows: seq<Row>, a: Row, b: Row)
    requires DistinctIds(rows) && a in rows && b in rows && a.id == b.id
    ensures a == b
  {
    var i :| 0 <= i < |rows| && rows[i] == a;
    var j :| 0 <= j < |rows| && rows[j] == b;
  }

  lemma OutranksTransitive(a: Row, b: Row, c: Row)
    requires Outranks(a, b) && Outranks(b, c)
    ensures Outranks(a, c)
  {
  }

  lemma OutranksTotal(a: Row, b: Row)
    ensures Outranks(a, b) || Outranks(b, a) || a.id == b.id
  {
  }

  // The row of a fixture that every other row of the fixture ranks behind.
  ghost predicate Leads(rows: seq<Row>, r: Row) {
    r in rows && forall x | x in rows && x.fixture == r.fixture && x != r :: Outranks(r, x)
  }

  lemma {:induction false} BestLeads(rows: seq<Row>, fixture: nat)
    requires DistinctIds(rows) && Best(rows, fixture).Some?
    ensures Leads(rows, Best(rows, fixture).value) && Best(rows, fixture).value.fixture == fixture
  {
    var front, last := rows[..|rows| - 1], rows[|rows| - 1];
    assert rows == front + [last];
    var before := Best(front, fixture);
    BestIsSome(rows, fixture);
    BestIsSome(front, fixture);
    FixturesExact(front);
    if before.Some? {
      BestLeads(front, fixture);
      LeadsGrows(front, last, before.value, Best(rows, fixture).value);
    }
  }

  lemma LeadsGrows(front: seq<Row>, last: Row, before: Row, best: Row)
    requires DistinctIds(front + [last]) && Leads(front, before)
    requires best == if last.fixture == before.fixture && Outranks(last, before) then last else before
    ensures Leads(front + [last], best)
  {
    var rows := front + [last];
    assert forall x :: x in rows <==> x in front || x == last;
    assert last == rows[|front|];
    forall x | x in rows && x.fixture == best.fixture && x != best ensures Outranks(best, x) {
      if last.fixture == before.fixture && Outranks(last, before) {
        if x != before {
          OutranksTransitive(last, before, x);
        }
      } else if x == last {
        OutranksTotal(last, before);
        if last.id == before.id {
          SameId(rows, last, before);
        }
      }
    }
  }

  lemma LeaderUnique(rows: seq<Row>, a: Row, b: Row)
    requires Leads(rows, a) && Leads(rows, b) && a.fixture == b.fixture
    ensures a == b
  {
  }

  lemma ShownFirstIsTotal(rows: seq<Row>, some: set<Row>)
    requires DistinctIds(rows) && forall r | r in some :: r in rows
    ensures StrictOrderOn(ShownFirst, some)
  {
    forall a, b | a in some && b in some && a != b ensures ShownFirst(a, b) || ShownFirst(b, a) {
      if a.id == b.id {
        SameId(rows, a, b);
      }
    }
  }

  // The projection keeps exactly the leading row of each fixture, once.
  lemma ProjectedExact(rows: seq<Row>)
    requires DistinctIds(rows)
    ensures var kept := Projected(rows);
            && Distinct(kept) && Sorted(ShownFirst, kept)
            && (forall r :: r in kept <==> Leads(rows, r))
            && (forall a, b | a in kept && b in kept && a.fixture == b.fixture :: a == b)
            && (forall r | r in rows :: exists k | k in kept :: k.fixture == r.fixture)
  {
    var fixtures := Fixtures(rows);
    FixturesExact(rows);
    forall f | f in fixtures ensures Best(rows, f).Some? && Leads(rows, Best(rows, f).value) && Best(rows, f).value.fixture == f {
      BestIsSome(rows, f);
      BestLeads(rows, f);
    }
    var chosen, kept := Chosen(rows, fixtures), Projected(rows);
    ChosenExact(rows, fixtures);
    assert Distinct(chosen);
    ShownFirstIsTotal(rows, Elements(chosen));
    SortPermutes(chosen, ShownFirst);
    SortSorts(chosen, ShownFirst);
    PermutationDistinct(chosen, kept);
    forall r ensures r in kept <==> Leads(rows, r) {
      assert r in Elements(kept) <==> r in Elements(chosen);
    }
    forall a, b | a in kept && b in kept && a.fixture == b.fixture ensures a == b {
      LeaderUnique(rows, a, b);
    }
    forall r | r in rows ensures exists k | k in kept :: k.fixture == r.fixture {
      assert r.fixture in fixtures;
      assert Best(rows, r.fixture).value in kept;
    }
  }

  lemma ChosenExact(rows: seq<Row>, fixtures: seq<nat>)
    requires forall f :: f in fixtures <==> exists r | r in rows :: r.fixture == f
    requires forall f | f in fixtures ::
               Best(rows, f).Some? && Leads(rows, Best(rows, f).value) && Best(rows, f).value.fixture == f
    ensures forall r :: r in Chosen(rows, fixtures) <==> Leads(rows, r)
    ensures forall i | 0 <= i < |fixtures| :: Chosen(rows, fixtures)[i].fixture == fixtures[i]
  {
    var chosen := Chosen(rows, fixtures);
    forall i | 0 <= i < |fixtures| ensures chosen[i].fixture == fixtures[i] && Leads(rows, chosen[i]) {
      assert fixtures[i] in fixtures;
    }
    forall r ensures r in chosen <==> Leads(rows, r) {
      if Leads(rows, r) {
        assert r.fixture in fixtures;
        var i :| 0 <= i < |fixtures| && fixtures[i] == r.fixture;
        LeaderUnique(rows, r, chosen[i]);
        assert chosen[i] in chosen;
      }
    }
  }

  lemma SubsetIds(rows: seq<Row>, kept: seq<Row>)
    requires DistinctIds(rows) && Distinct(kept) && forall r | r in kept :: r in rows
    ensures DistinctIds(kept)
  {
    forall i, j | 0 <= i < j < |kept| ensures kept[i].id != kept[j].id {
      assert kept[i] in kept && kept[j] in kept;
      if kept[i].id == kept[j].id {
        SameId(rows, kept[i], kept[j]);
      }
    }
  }

  lemma SameLeadersSameProjection(xs: seq<Row>, ys: seq<Row>)
    requires DistinctIds(xs) && DistinctIds(ys) && forall r :: Leads(xs, r) <==> Leads(ys, r)
    ensures Projected(xs) == Projected(ys)
  {
    ProjectedExact(xs);
    ProjectedExact(ys);
    var keptX, keptY := Projected(xs), Projected(ys);
    assert Elements(keptX) == Elements(keptY);
    ShownFirstIsTotal(xs, Elements(keptX));
    forall r ensures multiset(keptX)[r] == multiset(keptY)[r] {
      DistinctCounts(keptX, r);
      DistinctCounts(keptY, r);
    }
    SortedUnique(keptX, keptY, ShownFirst);
  }

  // The projection ignores the order of its rows and leaves its own result alone.
  lemma ProjectionIgnoresOrder(xs: seq<Row>, ys: seq<Row>)
    requires DistinctIds(xs) && multiset(xs) == multiset(ys)
    ensures Projected(xs) == Projected(ys)
  {
    SameElements(xs, ys);
    assert Distinct(xs);
    PermutationDistinct(xs, ys);
    forall r ensures r in xs <==> r in ys {
      assert r in Elements(xs) <==> r in Elements(ys);
    }
    SubsetIds(xs, ys);
    SameLeadersSameProjection(xs, ys);
  }

  lemma ProjectionIdempotent(rows: seq<Row>)
    requires DistinctIds(rows)
    ensures Projected(Projected(rows)) == Projected(rows)
  {
    var kept := Projected(rows);
    ProjectedExact(rows);
    SubsetIds(rows, kept);
    forall r ensures Leads(kept, r) <==> Leads(rows, r) {}
    SameLeadersSameProjection(kept, rows);
  }

  // ----- the rules of the projection, in field comparisons -----

  ghost predicate TakenAt(r: Row, at: int) {
    r.times == Qualified(at) || (r.times.Blocked? && r.times.first == at)
  }

  ghost predicate ShownAt(r: Row, at: int) {
    r.times == Qualified(at) || (r.times.Blocked? && r.times.last == at)
  }

  // A number is at least another, where a missing one is less than any.
  ghost predicate AtLeast(a: Option<real>, b: Option<real>) {
    b.None? || (a.Some? && a.value >= b.value)
  }

  // The row that is kept was qualified or first blocked no later than any of its fixture; among
  // those of that time its expected value, then its edge, then its odds are the greatest, and then
  // its id is the least.
  lemma KeptIsEarliest(rows: seq<Row>, kept: Row, other: Row, at: int, otherAt: int)
    requires DistinctIds(rows) && kept in Projected(rows) && other in rows && other.fixture == kept.fixture
    requires TakenAt(kept, at) && TakenAt(other, otherAt)
    ensures at <= otherAt
    ensures at == otherAt ==> AtLeast(kept.ev, other.ev)
    ensures at == otherAt && kept.ev == other.ev ==> AtLeast(kept.edge, other.edge)
    ensures at == otherAt && kept.ev == other.ev && kept.edge == other.edge ==> AtLeast(kept.odds, other.odds)
    ensures at == otherAt && kept.ev == other.ev && kept.edge == other.edge && kept.odds == other.odds ==> kept.id <= other.id
  {
    ProjectedExact(rows);
    assert Leads(rows, kept);
  }

  // The projection shows the row qualified or last blocked latest first, and the greater id first
  // among equals.
  lemma ShownLatestFirst(rows: seq<Row>, i: nat, j: nat, at: int, later: int)
    requires DistinctIds(rows) && i < j < |Projected(rows)|
    requires ShownAt(Projected(rows)[i], at) && ShownAt(Projected(rows)[j], later)
    ensures at > later || (at == later && Projected(rows)[i].id > Projected(rows)[j].id)
  {
    ProjectedExact(rows);
    var kept := Projected(rows);
    assert kept[i] in kept && kept[j] in kept && kept[i] != kept[j];
    assert Leads(rows, kept[i]) && Leads(rows, kept[j]);
    if kept[i].id == kept[j].id {
      SameId(rows, kept[i], kept[j]);
    }
  }
}
