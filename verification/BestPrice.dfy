/** Best-price ranking of evaluations across the approved bookmakers. */
module BestPrice {
  import opened Sorting
  import opened Settlement

  // ----- ranking prices -----

  datatype Evaluation = Evaluation(id: nat, fixture: nat, bookmaker: int, market: Market, selection: Selection,
                                   odd: real, edge: real, ev: real)

  datatype Key = Key(fixture: nat, market: Market, selection: Selection)

  // Candidates are ranked best price first and are never empty.
  datatype PriceSet = PriceSet(key: Key, candidates: seq<Evaluation>)

  const APPROVED: set<int> := {8, 11, 34}

  function KeyOf(e: Evaluation): Key {
    Key(e.fixture, e.market, e.selection)
  }

  predicate BetterPrice(a: Evaluation, b: Evaluation) {
    a.odd > b.odd || (a.odd == b.odd && (a.bookmaker < b.bookmaker || (a.bookmaker == b.bookmaker && a.id < b.id)))
  }

  // The alphabetical order of the market and selection values.
  function MarketRank(m: Market): nat {
    match m
    case Btts => 0
    case Ou25 => 1
  }

  function SelectionRank(s: Selection): nat {
    match s
    case No => 0
    case Over => 1
    case Under => 2
    case Yes => 3
  }

  function Winner(g: PriceSet): Evaluation {
    if g.candidates == [] then Evaluation(0, 0, 0, Ou25, Over, 0.0, 0.0, 0.0) else g.candidates[0]
  }

  predicate BetterSet(a: PriceSet, b: PriceSet) {
    var x, y := Winner(a), Winner(b);
    if x.ev != y.ev then x.ev > y.ev
    else if x.edge != y.edge then x.edge > y.edge
    else if x.odd != y.odd then x.odd > y.odd
    else if a.key.market != b.key.market then MarketRank(a.key.market) < MarketRank(b.key.market)
    else if a.key.selection != b.key.selection then SelectionRank(a.key.selection) < SelectionRank(b.key.selection)
    else if x.bookmaker != y.bookmaker then x.bookmaker < y.bookmaker
    else x.id < y.id
  }

  // The approved evaluations of one key, in input order.
  function GroupOf(evaluations: seq<Evaluation>, key: Key): seq<Evaluation> {
    if evaluations == [] then []
    else
      var last := evaluations[|evaluations| - 1];
      GroupOf(evaluations[..|evaluations| - 1], key)
      + if last.bookmaker in APPROVED && KeyOf(last) == key then [last] else []
  }

  // The keys of the approved evaluations, in order of first appearance.
  function KeysOf(evaluations: seq<Evaluation>): seq<Key> {
    if evaluations == [] then []
    else
      var keys := KeysOf(evaluations[..|evaluations| - 1]);
      var last := evaluations[|evaluations| - 1];
      if last.bookmaker in APPROVED && KeyOf(last) !in keys then keys + [KeyOf(last)] else keys
  }

  function SetOf(evaluations: seq<Evaluation>, key: Key): PriceSet {
    PriceSet(key, Sort(GroupOf(evaluations, key), BetterPrice))
  }

  function SetsOf(evaluations: seq<Evaluation>, keys: seq<Key>): seq<PriceSet> {
    seq(|keys|, i requires 0 <= i < |keys| => SetOf(evaluations, keys[i]))
  }

  function Ranked(evaluations: seq<Evaluation>): seq<PriceSet> {
    Sort(SetsOf(evaluations, KeysOf(evaluations)), BetterSet)
  }

  lemma {:induction false} GroupOfExact(evaluations: seq<Evaluation>, key: Key)
    ensures forall e :: e in GroupOf(evaluations, key) <==> e in evaluations && e.bookmaker in APPROVED && KeyOf(e) == key
  {
    if evaluations != [] {
      GroupOfExact(evaluations[..|evaluations| - 1], key);
      assert evaluations == evaluations[..|evaluations| - 1] + [evaluations[|evaluations| - 1]];
    }
  }

  lemma {:induction false} GroupOfDistinct(evaluations: seq<Evaluation>, key: Key)
    requires Distinct(evaluations)
    ensures Distinct(GroupOf(evaluations, key))
  {
    if evaluations != [] {
      var front, last := evaluations[..|evaluations| - 1], evaluations[|evaluations| - 1];
      GroupOfDistinct(front, key);
      GroupOfExact(front, key);
      assert last !in front;
    }
  }

  lemma {:induction false} KeysOfExact(evaluations: seq<Evaluation>)
    ensures Distinct(KeysOf(evaluations))
    ensures forall k :: k in KeysOf(evaluations) <==> exists e | e in evaluations :: e.bookmaker in APPROVED && KeyOf(e) == k
  {
    if evaluations != [] {
      var front, last := evaluations[..|evaluations| - 1], evaluations[|evaluations| - 1];
      KeysOfExact(front);
      assert evaluations == front + [last];
    }
  }

  lemma {:induction false} NoGroup(evaluations: seq<Evaluation>, key: Key)
    requires key !in KeysOf(evaluations)
    ensures GroupOf(evaluations, key) == []
  {
    if evaluations != [] {
      NoGroup(evaluations[..|evaluations| - 1], key);
    }
  }

  // The method groups into a dictionary, ranks each group and sorts the ranked sets.
  method RankBestPrices(evaluations: seq<Evaluation>) returns (ranked: seq<PriceSet>)
    ensures ranked == Ranked(evaluations)
  {
    var order: seq<Key>, groups: map<Key, seq<Evaluation>> := [], map[];
    for i := 0 to |evaluations|
      invariant order == KeysOf(evaluations[..i]) && Grouped(evaluations[..i], order, groups)
    {
      var e := evaluations[i];
      PrefixGrows(evaluations, i);
      if e.bookmaker !in APPROVED {
        GroupedSkip(evaluations[..i], e, order, groups);
        continue;
      }
      var key := KeyOf(e);
      var group := if key in groups then groups[key] else [];
      GroupedStep(evaluations[..i], e, order, groups, group);
      order := if key in order then order else order + [key];
      groups := groups[key := group + [e]];
    }
    assert evaluations[..|evaluations|] == evaluations;
    var sets := RankGroups(evaluations, order, groups);
    return Sort(sets, BetterSet);
  }

  method RankGroups(evaluations: seq<Evaluation>, order: seq<Key>, groups: map<Key, seq<Evaluation>>) returns (sets: seq<PriceSet>)
    requires Grouped(evaluations, order, groups)
    ensures sets == SetsOf(evaluations, order)
  {
    sets := [];
    for i := 0 to |order|
      invariant sets == SetsOf(evaluations, order[..i])
    {
      assert order[i] in order;
      sets := sets + [PriceSet(order[i], Sort(groups[order[i]], BetterPrice))];
    }
    assert order[..|order|] == order;
  }

  ghost predicate Grouped(evaluations: seq<Evaluation>, order: seq<Key>, groups: map<Key, seq<Evaluation>>) {
    && (forall k | k in order :: k in groups) && (forall k | k in groups :: k in order)
    && forall k | k in groups :: groups[k] == GroupOf(evaluations, k)
  }

  lemma GroupedSkip(evaluations: seq<Evaluation>, e: Evaluation, order: seq<Key>, groups: map<Key, seq<Evaluation>>)
    requires order == KeysOf(evaluations) && Grouped(evaluations, order, groups) && e.bookmaker !in APPROVED
    ensures order == KeysOf(evaluations + [e]) && Grouped(evaluations + [e], order, groups)
  {
    assert (evaluations + [e])[..|evaluations|] == evaluations;
  }

  // One approved evaluation enters the dictionary; setdefault starts its group.
  lemma GroupedStep(evaluations: seq<Evaluation>, e: Evaluation, order: seq<Key>, groups: map<Key, seq<Evaluation>>,
                    group: seq<Evaluation>)
    requires order == KeysOf(evaluations) && Grouped(evaluations, order, groups) && e.bookmaker in APPROVED
    requires group == if KeyOf(e) in groups then groups[KeyOf(e)] else []
    ensures var order' := if KeyOf(e) in order then order else order + [KeyOf(e)];
            order' == KeysOf(evaluations + [e]) && Grouped(evaluations + [e], order', groups[KeyOf(e) := group + [e]])
  {
    var key := KeyOf(e);
    assert (evaluations + [e])[..|evaluations|] == evaluations;
    if key !in groups {
      NoGroup(evaluations, key);
    }
    var groups' := groups[key := group + [e]];
    forall k | k in groups' ensures groups'[k] == GroupOf(evaluations + [e], k) {
      assert k != key ==> k in groups;
    }
  }

  ghost predicate DistinctIds(evaluations: seq<Evaluation>) {
    forall i, j | 0 <= i < j < |evaluations| :: evaluations[i].id != evaluations[j].id
  }

  lemma SameId(evaluations: seq<Evaluation>, a: Evaluation, b: Evaluation)
    requires DistinctIds(evaluations) && a in evaluations && b in evaluations && a.id == b.id
    ensures a == b
  {
    var i :| 0 <= i < |evaluations| && evaluations[i] == a;
    var j :| 0 <= j < |evaluations| && evaluations[j] == b;
  }

  lemma BetterPriceIsTotal(evaluations: seq<Evaluation>, some: set<Evaluation>)
    requires DistinctIds(evaluations) && forall e | e in some :: e in evaluations
    ensures StrictOrderOn(BetterPrice, some)
  {
    forall a, b | a in some && b in some && a != b ensures BetterPrice(a, b) || BetterPrice(b, a) {
      if a.id == b.id {
        SameId(evaluations, a, b);
      }
    }
  }

  // What one ranked set is: the approved evaluations of its key, each once, the best odd first.
  lemma SetOfExact(evaluations: seq<Evaluation>, key: Key)
    requires DistinctIds(evaluations) && key in KeysOf(evaluations)
    ensures var g := SetOf(evaluations, key);
            && g.candidates != [] && Distinct(g.candidates) && Sorted(BetterPrice, g.candidates)
            && (forall e :: e in g.candidates <==> e in evaluations && e.bookmaker in APPROVED && KeyOf(e) == key)
            && Winner(g) in g.candidates && forall e | e in g.candidates :: e.odd <= Winner(g).odd
  {
    var group := GroupOf(evaluations, key);
    var ranked := SetOf(evaluations, key).candidates;
    KeysOfExact(evaluations);
    GroupOfExact(evaluations, key);
    GroupOfDistinct(evaluations, key);
    SortPermutes(group, BetterPrice);
    BetterPriceIsTotal(evaluations, Elements(group));
    SortSorts(group, BetterPrice);
    PermutationDistinct(group, ranked);
    forall e ensures e in ranked <==> e in group {
      assert e in Elements(ranked) <==> e in Elements(group);
    }
    var some :| some in evaluations && some.bookmaker in APPROVED && KeyOf(some) == key;
    assert some in ranked;
    forall e | e in ranked ensures e.odd <= ranked[0].odd {
      var i :| 0 <= i < |ranked| && ranked[i] == e;
      assert i == 0 || !BetterPrice(ranked[i], ranked[0]);
    }
  }

  lemma SetsOfMembers(evaluations: seq<Evaluation>)
    ensures Distinct(SetsOf(evaluations, KeysOf(evaluations)))
    ensures forall g :: g in SetsOf(evaluations, KeysOf(evaluations))
                    <==> g.key in KeysOf(evaluations) && g == SetOf(evaluations, g.key)
  {
    var keys := KeysOf(evaluations);
    var sets := SetsOf(evaluations, keys);
    KeysOfExact(evaluations);
    forall g ensures g in sets <==> g.key in keys && g == SetOf(evaluations, g.key) {
      if g.key in keys && g == SetOf(evaluations, g.key) {
        var i :| 0 <= i < |keys| && keys[i] == g.key;
        assert sets[i] == g;
      }
    }
    forall i, j | 0 <= i < j < |sets| ensures sets[i] != sets[j] {
      assert sets[i].key == keys[i] && sets[j].key == keys[j];
    }
  }

  lemma RankTie(a: PriceSet, b: PriceSet)
    ensures BetterSet(a, b) || BetterSet(b, a) || Winner(a).id == Winner(b).id
  {
  }

  lemma SameWinnerSameSet(evaluations: seq<Evaluation>, a: PriceSet, b: PriceSet)
    requires DistinctIds(evaluations) && Winner(a).id == Winner(b).id
    requires a.key in KeysOf(evaluations) && a == SetOf(evaluations, a.key)
    requires b.key in KeysOf(evaluations) && b == SetOf(evaluations, b.key)
    ensures a == b
  {
    SetOfExact(evaluations, a.key);
    SetOfExact(evaluations, b.key);
    SameId(evaluations, Winner(a), Winner(b));
  }

  lemma BetterSetTransitive(a: PriceSet, b: PriceSet, c: PriceSet)
    requires BetterSet(a, b) && BetterSet(b, c)
    ensures BetterSet(a, c)
  {
  }

  lemma BetterSetIsTotal(evaluations: seq<Evaluation>)
    requires DistinctIds(evaluations)
    ensures StrictOrderOn(BetterSet, Elements(SetsOf(evaluations, KeysOf(evaluations))))
  {
    SetsOfMembers(evaluations);
    StrictOnSets(evaluations, Elements(SetsOf(evaluations, KeysOf(evaluations))));
  }

  lemma StrictOnSets(evaluations: seq<Evaluation>, sets: set<PriceSet>)
    requires DistinctIds(evaluations)
    requires forall g | g in sets :: g.key in KeysOf(evaluations) && g == SetOf(evaluations, g.key)
    ensures StrictOrderOn(BetterSet, sets)
  {
    forall a, b | a in sets && b in sets && a != b ensures BetterSet(a, b) || BetterSet(b, a) {
      RankTie(a, b);
      if Winner(a).id == Winner(b).id {
        SameWinnerSameSet(evaluations, a, b);
      }
    }
    forall a, b, c | a in sets && b in sets && c in sets && BetterSet(a, b) && BetterSet(b, c) ensures BetterSet(a, c) {
      BetterSetTransitive(a, b, c);
    }
  }

  // The ranked sets partition the approved evaluations: an evaluation stands once, in one set.
  lemma RankedPartitions(evaluations: seq<Evaluation>)
    requires DistinctIds(evaluations)
    ensures var ranked := Ranked(evaluations);
            && Distinct(ranked) && (forall g | g in ranked :: Distinct(g.candidates) && g.candidates != [])
            && (forall g, h, e | g in ranked && h in ranked && e in g.candidates && e in h.candidates :: g == h)
            && (forall g, e | g in ranked && e in g.candidates :: e in evaluations && e.bookmaker in APPROVED && KeyOf(e) == g.key)
            && (forall e | e in evaluations && e.bookmaker in APPROVED :: exists g | g in ranked :: e in g.candidates)
            && (forall g, e | g in ranked && e in g.candidates :: e.odd <= Winner(g).odd)
  {
    var sets := SetsOf(evaluations, KeysOf(evaluations));
    var ranked := Ranked(evaluations);
    SetsOfMembers(evaluations);
    SortPermutes(sets, BetterSet);
    PermutationDistinct(sets, ranked);
    forall g ensures g in ranked <==> g in sets {
      assert g in Elements(ranked) <==> g in Elements(sets);
    }
    forall g | g in ranked
      ensures g.candidates != [] && Distinct(g.candidates)
      ensures forall e | e in g.candidates ::
                e in evaluations && e.bookmaker in APPROVED && KeyOf(e) == g.key && e.odd <= Winner(g).odd
    {
      SetOfExact(evaluations, g.key);
    }
    forall g, h, e | g in ranked && h in ranked && e in g.candidates && e in h.candidates ensures g == h {
      assert KeyOf(e) == g.key == h.key;
    }
    forall e | e in evaluations && e.bookmaker in APPROVED ensures exists g | g in ranked :: e in g.candidates {
      KeysOfExact(evaluations);
      SetOfExact(evaluations, KeyOf(e));
      assert SetOf(evaluations, KeyOf(e)) in ranked;
    }
  }

  lemma PermutedIds(xs: seq<Evaluation>, ys: seq<Evaluation>)
    requires DistinctIds(xs) && multiset(xs) == multiset(ys)
    ensures DistinctIds(ys) && Elements(xs) == Elements(ys)
  {
    SameElements(xs, ys);
    assert Distinct(xs);
    PermutationDistinct(xs, ys);
    forall i, j | 0 <= i < j < |ys| ensures ys[i].id != ys[j].id {
      assert ys[i] in Elements(ys) && ys[j] in Elements(ys);
      if ys[i].id == ys[j].id {
        SameId(xs, ys[i], ys[j]);
      }
    }
  }

  lemma SameSet(xs: seq<Evaluation>, ys: seq<Evaluation>, key: Key)
    requires DistinctIds(xs) && DistinctIds(ys) && Elements(xs) == Elements(ys)
    ensures SetOf(xs, key) == SetOf(ys, key)
  {
    forall e ensures e in xs <==> e in ys {
      assert e in Elements(xs) <==> e in Elements(ys);
    }
    GroupOfExact(xs, key);
    GroupOfExact(ys, key);
    GroupOfDistinct(xs, key);
    GroupOfDistinct(ys, key);
    BetterPriceIsTotal(xs, Elements(GroupOf(xs, key)));
    SameSetSort(GroupOf(xs, key), GroupOf(ys, key), BetterPrice);
  }

  // The ranking depends only on which evaluations there are, not on their order.
  lemma RankingIgnoresOrder(xs: seq<Evaluation>, ys: seq<Evaluation>)
    requires DistinctIds(xs) && multiset(xs) == multiset(ys)
    ensures Ranked(xs) == Ranked(ys)
  {
    PermutedIds(xs, ys);
    forall e ensures e in xs <==> e in ys {
      assert e in Elements(xs) <==> e in Elements(ys);
    }
    KeysOfExact(xs);
    KeysOfExact(ys);
    SetsOfMembers(xs);
    SetsOfMembers(ys);
    var setsX, setsY := SetsOf(xs, KeysOf(xs)), SetsOf(ys, KeysOf(ys));
    forall g ensures g in setsX <==> g in setsY {
      SameSet(xs, ys, g.key);
      assert g.key in KeysOf(xs) <==> g.key in KeysOf(ys);
    }
    BetterSetIsTotal(xs);
    SameSetSort(setsX, setsY, BetterSet);
  }

  // ----- the first winner -----

  // Evaluations obey the value arithmetic, and those of one selection share a model probability.
  ghost predicate SharedProbability(evaluations: seq<Evaluation>, probability: Key -> real) {
    && (forall k :: probability(k) >= 0.0)
    && forall e | e in evaluations :: e.ev == probability(KeyOf(e)) * e.odd - 1.0
  }

  lemma HigherOddHigherValue(p: real, e: Evaluation, best: Evaluation)
    requires p >= 0.0 && e.odd <= best.odd && e.ev == p * e.odd - 1.0 && best.ev == p * best.odd - 1.0
    ensures e.ev <= best.ev
  {
    var gain := p * (best.odd - e.odd);
    assert gain >= 0.0;
    assert p * best.odd - p * e.odd == gain;
  }

  lemma WinnerValue(evaluations: seq<Evaluation>, probability: Key -> real, g: PriceSet, e: Evaluation)
    requires SharedProbability(evaluations, probability)
    requires e in evaluations && Winner(g) in evaluations && KeyOf(e) == KeyOf(Winner(g)) && e.odd <= Winner(g).odd
    ensures e.ev <= Winner(g).ev
  {
    HigherOddHigherValue(probability(KeyOf(e)), e, Winner(g));
  }

  lemma FirstOfRanked(evaluations: seq<Evaluation>)
    requires DistinctIds(evaluations)
    ensures forall g | g in Ranked(evaluations) :: Winner(g).ev <= Winner(Ranked(evaluations)[0]).ev
  {
    var sets, ranked := SetsOf(evaluations, KeysOf(evaluations)), Ranked(evaluations);
    BetterSetIsTotal(evaluations);
    SortSorts(sets, BetterSet);
    forall g | g in ranked ensures Winner(g).ev <= Winner(ranked[0]).ev {
      var i :| 0 <= i < |ranked| && ranked[i] == g;
      assert i == 0 || !BetterSet(ranked[i], ranked[0]);
    }
  }

  // When a selection shares one model probability the first winner has the greatest expected
  // value of all approved evaluations.
  lemma FirstWinnerIsGreatest(evaluations: seq<Evaluation>, probability: Key -> real)
    requires DistinctIds(evaluations) && SharedProbability(evaluations, probability)
    ensures forall e | e in evaluations && e.bookmaker in APPROVED ::
              Ranked(evaluations) != [] && e.ev <= Winner(Ranked(evaluations)[0]).ev
  {
    RankedPartitions(evaluations);
    FirstOfRanked(evaluations);
    var ranked := Ranked(evaluations);
    forall e | e in evaluations && e.bookmaker in APPROVED ensures ranked != [] && e.ev <= Winner(ranked[0]).ev {
      var g :| g in ranked && e in g.candidates;
      assert Winner(g) in g.candidates;
      WinnerValue(evaluations, probability, g, e);
    }
  }

  // ----- the orders of the ranking, in field comparisons -----

  // Within a set the higher odd stands first, then the lower bookmaker, then the lower id.
  lemma PricesInOrder(evaluations: seq<Evaluation>, key: Key, i: nat, j: nat)
    requires DistinctIds(evaluations) && key in KeysOf(evaluations) && i < j < |SetOf(evaluations, key).candidates|
    ensures var a, b := SetOf(evaluations, key).candidates[i], SetOf(evaluations, key).candidates[j];
            || a.odd > b.odd
            || (a.odd == b.odd && a.bookmaker < b.bookmaker)
            || (a.odd == b.odd && a.bookmaker == b.bookmaker && a.id < b.id)
  {
    SetOfExact(evaluations, key);
    var candidates := SetOf(evaluations, key).candidates;
    assert candidates[i] in candidates && candidates[j] in candidates && candidates[i] != candidates[j];
    if candidates[i].id == candidates[j].id {
      SameId(evaluations, candidates[i], candidates[j]);
    }
  }

  // The sets stand by the expected value of their winners, then edge, then odd, the greater first.
  lemma SetsInOrder(evaluations: seq<Evaluation>, i: nat, j: nat)
    requires DistinctIds(evaluations) && i < j < |Ranked(evaluations)|
    ensures var x, y := Winner(Ranked(evaluations)[i]), Winner(Ranked(evaluations)[j]);
            && x.ev >= y.ev && (x.ev == y.ev ==> x.edge >= y.edge) && (x.ev == y.ev && x.edge == y.edge ==> x.odd >= y.odd)
  {
    var sets, ranked := SetsOf(evaluations, KeysOf(evaluations)), Ranked(evaluations);
    BetterSetIsTotal(evaluations);
    SortSorts(sets, BetterSet);
    assert !BetterSet(ranked[j], ranked[i]);
  }

  // A key is a fixture with a market and a selection.
  lemma SameKeyExactly(a: Evaluation, b: Evaluation)
    ensures KeyOf(a) == KeyOf(b) <==> a.fixture == b.fixture && a.market == b.market && a.selection == b.selection
  {
  }

  // The ranking holds the evaluations of the bookmakers 8, 11 and 34, and those alone.
  lemma RankedExactly(evaluations: seq<Evaluation>, e: Evaluation)
    requires DistinctIds(evaluations)
    ensures IsRanked(evaluations, e) <==> e in evaluations && (e.bookmaker == 8 || e.bookmaker == 11 || e.bookmaker == 34)
  {
    RankedPartitions(evaluations);
    assert IsRanked(evaluations, e) <==> e in evaluations && e.bookmaker in APPROVED;
  }

  ghost predicate IsRanked(evaluations: seq<Evaluation>, e: Evaluation) {
    exists g | g in Ranked(evaluations) :: e in g.candidates
  }
}
