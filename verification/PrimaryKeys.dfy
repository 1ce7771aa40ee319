/** The rows of a table in primary-key order. */
module PrimaryKeys {
  import opened Sorting

  predicate IsLeast(s: set<nat>, m: nat) {
    m in s && forall x | x in s :: m <= x
  }

  lemma {:induction false} HasLeast(s: set<nat>)
    requires s != {}
    ensures exists m :: IsLeast(s, m)
  {
    var m :| m in s;
    var rest := s - {m};
    if rest == {} {
      assert s == {m};
      assert IsLeast(s, m);
    } else {
      HasLeast(rest);
      var k :| IsLeast(rest, k);
      LeastWith(s, m, rest, k);
    }
  }

  lemma LeastWith(s: set<nat>, m: nat, rest: set<nat>, k: nat)
    requires s == rest + {m} && IsLeast(rest, k)
    ensures IsLeast(s, if m <= k then m else k)
  {
  }

  function Least(s: set<nat>): (m: nat)
    requires s != {}
    ensures IsLeast(s, m)
  {
    HasLeast(s);
    var m :| IsLeast(s, m);
    m
  }

  // The primary-key order of a set of ids.
  function SortedIds(s: set<nat>): seq<nat> {
    if s == {} then [] else [Least(s)] + SortedIds(s - {Least(s)})
  }

  lemma {:induction false} SortedIdsMembers(s: set<nat>)
    ensures |SortedIds(s)| == |s|
    ensures forall x :: x in SortedIds(s) <==> x in s
  {
    if s != {} {
      SortedIdsMembers(s - {Least(s)});
    }
  }

  lemma {:induction false} SortedIdsAscend(s: set<nat>, i: nat, j: nat)
    requires i < j < |SortedIds(s)|
    ensures SortedIds(s)[i] < SortedIds(s)[j]
  {
    var m := Least(s);
    var rest := s - {m};
    var tail := SortedIds(rest);
    assert SortedIds(s) == [m] + tail;
    if i > 0 {
      SortedIdsAscend(rest, i - 1, j - 1);
    } else {
      SortedIdsMembers(rest);
      assert tail[j - 1] in rest;
    }
  }

  function Above(s: set<nat>, bound: nat): set<nat> {
    set x | x in s && x > bound
  }

  lemma AboveLeast(s: set<nat>, bound: nat)
    requires s != {}
    ensures bound >= Least(s) ==> Above(s, bound) == Above(s - {Least(s)}, bound)
    ensures Above(s, Least(s)) == s - {Least(s)}
  {
  }

  lemma HeadThenTail(s: set<nat>, k: nat)
    requires 0 < k <= |SortedIds(s)|
    ensures var tail := SortedIds(s - {Least(s)});
            && s != {} && SortedIds(s)[k..] == tail[k - 1..] && |tail| == |SortedIds(s)| - 1
            && (k == 1 ==> SortedIds(s)[k - 1] == Least(s))
            && (k > 1 ==> SortedIds(s)[k - 1] == tail[k - 2] && tail[k - 2] >= Least(s))
  {
    var rest := s - {Least(s)};
    assert SortedIds(s) == [Least(s)] + SortedIds(rest);
    if k > 1 {
      SortedIdsMembers(rest);
      assert SortedIds(rest)[k - 2] in rest;
    }
  }

  // Walking on from the k-th id sees exactly the ids after it.
  lemma {:induction false} SortedIdsAfter(s: set<nat>, k: nat)
    requires 0 < k <= |SortedIds(s)|
    ensures SortedIds(Above(s, SortedIds(s)[k - 1])) == SortedIds(s)[k..]
  {
    var rest := s - {Least(s)};
    HeadThenTail(s, k);
    AboveLeast(s, SortedIds(s)[k - 1]);
    if k > 1 {
      SortedIdsAfter(rest, k - 1);
    }
  }

  // LIMIT n
  function Take<T>(xs: seq<T>, n: nat): seq<T> {
    if |xs| <= n then xs else xs[..n]
  }

  function IdSet(ids: seq<nat>): set<nat> {
    set x | x in ids
  }

  lemma {:induction false} DistinctIsASet(ids: seq<nat>)
    requires forall i, j | 0 <= i < j < |ids| :: ids[i] != ids[j]
    ensures |IdSet(ids)| == |ids|
  {
    if ids != [] {
      var front, last := ids[..|ids| - 1], ids[|ids| - 1];
      DistinctIsASet(front);
      assert IdSet(ids) == IdSet(front) + {last};
    }
  }

  // A selection that leaves out one of its candidates is as long as the limit allows.
  lemma MissedMeansFull(picked: seq<nat>, open: set<nat>, missed: nat, limit: nat)
    requires Distinct(picked) && (forall p | p in picked :: p in open) && missed in open && missed !in picked
    requires |picked| == if |open| <= limit then |open| else limit
    ensures |picked| == limit
  {
    DistinctIsASet(picked);
    assert IdSet(picked) + {missed} <= open;
    SmallerSubset(IdSet(picked) + {missed}, open);
  }

  lemma {:induction false} SmallerSubset(a: set<nat>, b: set<nat>)
    requires a <= b
    ensures |a| <= |b|
  {
    if a != {} {
      var x :| x in a;
      SmallerSubset(a - {x}, b - {x});
    }
  }

  // SELECT ... ORDER BY before LIMIT n over the rows of a set of ids.
  function FirstBy(s: set<nat>, before: (nat, nat) -> bool, limit: nat): seq<nat> {
    Take(Sort(SortedIds(s), before), limit)
  }

  lemma TakenFirst(sorted: seq<nat>, before: (nat, nat) -> bool, limit: nat)
    requires Distinct(sorted) && Sorted(before, sorted)
    ensures var picked := Take(sorted, limit);
            && Distinct(picked) && (forall p | p in picked :: p in sorted)
            && forall p, q | p in picked && q in sorted && q !in picked :: !before(q, p)
  {
    var picked := Take(sorted, limit);
    forall p, q | p in picked && q in sorted && q !in picked ensures !before(q, p) {
      var i :| 0 <= i < |picked| && picked[i] == p;
      var j :| 0 <= j < |sorted| && sorted[j] == q;
      assert sorted[i] == p && j >= |picked|;
    }
  }

  // The selection holds ids of the set, each once, as many as the limit allows, and no id
  // left out comes before one taken.
  lemma FirstByExact(s: set<nat>, before: (nat, nat) -> bool, limit: nat)
    requires StrictOrderOn(before, s)
    ensures var picked := FirstBy(s, before, limit);
            && Distinct(picked) && (forall p | p in picked :: p in s)
            && |picked| == (if |s| <= limit then |s| else limit)
            && forall p, q | p in picked && q in s && q !in picked :: !before(q, p)
  {
    var ids := SortedIds(s);
    var sorted := Sort(ids, before);
    SortedIdsMembers(s);
    forall i, j | 0 <= i < j < |ids| ensures ids[i] != ids[j] {
      SortedIdsAscend(s, i, j);
    }
    assert Elements(ids) == s;
    SortPermutes(ids, before);
    SortSorts(ids, before);
    PermutationDistinct(ids, sorted);
    forall p ensures p in sorted <==> p in s {
      assert p in Elements(sorted) <==> p in Elements(ids);
    }
    TakenFirst(sorted, before, limit);
  }
}
