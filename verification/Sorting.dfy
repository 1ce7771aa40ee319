/** A list sort whose result depends only on the multiset of its input.

    Every ordered query of the repository ends its sort key with a unique identifier, so
    its order is strict and total on the rows it sorts. */
module Sorting {

  ghost predicate StrictOrderOn<T>(before: (T, T) -> bool, s: set<T>) {
    && (forall a | a in s :: !before(a, a))
    && (forall a, b | a in s && b in s && a != b :: before(a, b) || before(b, a))
    && (forall a, b, c | a in s && b in s && c in s && before(a, b) && before(b, c) :: before(a, c))
  }

  ghost predicate Sorted<T>(before: (T, T) -> bool, xs: seq<T>) {
    forall i, j | 0 <= i < j < |xs| :: !before(xs[j], xs[i])
  }

  ghost function Elements<T>(xs: seq<T>): set<T> {
    set x | x in xs
  }

  function Insert<T>(x: T, xs: seq<T>, before: (T, T) -> bool): seq<T> {
    if xs == [] then [x]
    else if before(xs[0], x) then [xs[0]] + Insert(x, xs[1..], before)
    else [x] + xs
  }

  function Sort<T>(xs: seq<T>, before: (T, T) -> bool): seq<T> {
    if xs == [] then [] else Insert(xs[0], Sort(xs[1..], before), before)
  }

  lemma {:induction false} InsertPermutes<T>(x: T, xs: seq<T>, before: (T, T) -> bool)
    ensures multiset(Insert(x, xs, before)) == multiset{x} + multiset(xs)
  {
    if xs != [] {
      assert xs == [xs[0]] + xs[1..];
      if before(xs[0], x) {
        InsertPermutes(x, xs[1..], before);
      }
    }
  }

  lemma {:induction false} SortPermutes<T>(xs: seq<T>, before: (T, T) -> bool)
    ensures multiset(Sort(xs, before)) == multiset(xs)
    ensures |Sort(xs, before)| == |xs|
    ensures Elements(Sort(xs, before)) == Elements(xs)
  {
    if xs != [] {
      assert xs == [xs[0]] + xs[1..];
      SortPermutes(xs[1..], before);
      InsertPermutes(xs[0], Sort(xs[1..], before), before);
    }
    SameElements(Sort(xs, before), xs);
  }

  lemma SameElements<T>(xs: seq<T>, ys: seq<T>)
    requires multiset(xs) == multiset(ys)
    ensures Elements(xs) == Elements(ys) && |xs| == |ys|
  {
    assert |multiset(xs)| == |xs| && |multiset(ys)| == |ys|;
    forall x ensures x in xs <==> x in ys {
      assert x in multiset(xs) <==> x in multiset(ys);
    }
  }

  lemma PrependSorted<T>(head: T, rest: seq<T>, before: (T, T) -> bool)
    requires Sorted(before, rest) && forall y | y in rest :: !before(y, head)
    ensures Sorted(before, [head] + rest)
  {
  }

  lemma OneWay<T>(before: (T, T) -> bool, s: set<T>, a: T, b: T)
    requires StrictOrderOn(before, s) && a in s && b in s && before(a, b)
    ensures !before(b, a)
  {
  }

  lemma HeadOfSorted<T>(head: T, tail: seq<T>, before: (T, T) -> bool)
    requires Sorted(before, [head] + tail)
    ensures Sorted(before, tail) && forall y | y in tail :: !before(y, head)
  {
    var xs := [head] + tail;
    assert xs[1..] == tail;
    forall y | y in tail ensures !before(y, head) {
      var j :| 0 <= j < |tail| && tail[j] == y;
      assert xs[0] == head && xs[j + 1] == y;
    }
  }

  lemma InsertMember<T>(x: T, xs: seq<T>, before: (T, T) -> bool, y: T)
    ensures y in Insert(x, xs, before) <==> y == x || y in xs
  {
    InsertPermutes(x, xs, before);
    assert y in multiset(Insert(x, xs, before)) <==> y in multiset{x} + multiset(xs);
  }

  lemma {:induction false} InsertSorted<T>(x: T, xs: seq<T>, before: (T, T) -> bool)
    requires StrictOrderOn(before, Elements(xs) + {x}) && Sorted(before, xs)
    ensures Sorted(before, Insert(x, xs, before))
  {
    if xs != [] {
      var head, tail := xs[0], xs[1..];
      assert xs == [head] + tail;
      HeadOfSorted(head, tail, before);
      if before(head, x) {
        assert Elements(tail) + {x} <= Elements(xs) + {x};
        InsertSorted(x, tail, before);
        OneWay(before, Elements(xs) + {x}, head, x);
        forall y | y in Insert(x, tail, before) ensures !before(y, head) {
          InsertMember(x, tail, before, y);
        }
        PrependSorted(head, Insert(x, tail, before), before);
      } else {
        forall y | y in xs ensures !before(y, x) {
          assert y in Elements(xs) && (y == head || !before(y, head));
        }
        PrependSorted(x, xs, before);
      }
    }
  }

  lemma {:induction false} SortSorts<T>(xs: seq<T>, before: (T, T) -> bool)
    requires StrictOrderOn(before, Elements(xs))
    ensures Sorted(before, Sort(xs, before))
  {
    if xs != [] {
      assert Elements(xs[1..]) <= Elements(xs);
      SortSorts(xs[1..], before);
      SortPermutes(xs[1..], before);
      assert Elements(Sort(xs[1..], before)) + {xs[0]} <= Elements(xs);
      InsertSorted(xs[0], Sort(xs[1..], before), before);
    }
  }

  lemma SameHead<T>(xs: seq<T>, ys: seq<T>, before: (T, T) -> bool)
    requires xs != [] && ys != [] && Elements(xs) == Elements(ys)
    requires StrictOrderOn(before, Elements(xs))
    requires Sorted(before, xs) && Sorted(before, ys)
    ensures xs[0] == ys[0]
  {
    assert xs[0] in Elements(ys) && ys[0] in Elements(xs);
    var i :| 0 <= i < |ys| && ys[i] == xs[0];
    var j :| 0 <= j < |xs| && xs[j] == ys[0];
  }

  lemma MultisetTail<T>(xs: seq<T>)
    requires xs != []
    ensures multiset(xs[1..]) == multiset(xs) - multiset{xs[0]}
  {
    assert xs == [xs[0]] + xs[1..];
  }

  lemma TailStrict<T>(xs: seq<T>, before: (T, T) -> bool)
    requires xs != [] && StrictOrderOn(before, Elements(xs)) && Sorted(before, xs)
    ensures StrictOrderOn(before, Elements(xs[1..])) && Sorted(before, xs[1..])
  {
    assert Elements(xs[1..]) <= Elements(xs);
  }

  lemma TailsMatch<T>(xs: seq<T>, ys: seq<T>, before: (T, T) -> bool)
    requires multiset(xs) == multiset(ys) && Elements(xs) == Elements(ys) && xs != [] && ys != []
    requires StrictOrderOn(before, Elements(xs)) && Sorted(before, xs) && Sorted(before, ys)
    ensures xs[0] == ys[0] && multiset(xs[1..]) == multiset(ys[1..])
    ensures StrictOrderOn(before, Elements(xs[1..])) && Sorted(before, xs[1..]) && Sorted(before, ys[1..])
  {
    SameHead(xs, ys, before);
    MultisetTail(xs);
    MultisetTail(ys);
    TailStrict(xs, before);
    TailStrict(ys, before);
  }

  lemma HeadAndTail<T>(xs: seq<T>, ys: seq<T>)
    requires xs != [] && ys != [] && xs[0] == ys[0] && xs[1..] == ys[1..]
    ensures xs == ys
  {
    assert xs == [xs[0]] + xs[1..] && ys == [ys[0]] + ys[1..];
  }

  // A sorted list is determined by its multiset.
  lemma {:induction false} SortedUnique<T>(xs: seq<T>, ys: seq<T>, before: (T, T) -> bool)
    requires multiset(xs) == multiset(ys) && StrictOrderOn(before, Elements(xs))
    requires Sorted(before, xs) && Sorted(before, ys)
    ensures xs == ys
  {
    SameElements(xs, ys);
    if xs != [] {
      TailsMatch(xs, ys, before);
      SortedUnique(xs[1..], ys[1..], before);
      HeadAndTail(xs, ys);
    }
  }

  lemma SortCanonical<T>(xs: seq<T>, ys: seq<T>, before: (T, T) -> bool)
    requires multiset(xs) == multiset(ys) && StrictOrderOn(before, Elements(xs))
    ensures Sort(xs, before) == Sort(ys, before)
  {
    SameElements(xs, ys);
    SortPermutes(xs, before);
    SortPermutes(ys, before);
    SortSorts(xs, before);
    SortSorts(ys, before);
    SortedUnique(Sort(xs, before), Sort(ys, before), before);
  }

  // ----- lists without repetition -----

  ghost predicate Distinct<T>(xs: seq<T>) {
    forall i, j | 0 <= i < j < |xs| :: xs[i] != xs[j]
  }

  lemma {:induction false} DistinctCounts<T>(xs: seq<T>, x: T)
    requires Distinct(xs)
    ensures multiset(xs)[x] == if x in xs then 1 else 0
  {
    if xs != [] {
      var front, last := xs[..|xs| - 1], xs[|xs| - 1];
      assert xs == front + [last];
      DistinctCounts(front, x);
      assert x in xs <==> x in front || x == last;
      assert last !in front;
    }
  }

  lemma CountTwice<T>(xs: seq<T>, i: nat, j: nat)
    requires i < j < |xs| && xs[i] == xs[j]
    ensures multiset(xs)[xs[i]] >= 2
  {
    assert xs == xs[..j] + xs[j..];
    assert xs[..j][i] in multiset(xs[..j]) && xs[j..][0] in multiset(xs[j..]);
  }

  lemma PermutationDistinct<T>(xs: seq<T>, ys: seq<T>)
    requires Distinct(xs) && multiset(xs) == multiset(ys)
    ensures Distinct(ys)
  {
    forall i, j | 0 <= i < j < |ys| ensures ys[i] != ys[j] {
      if ys[i] == ys[j] {
        CountTwice(ys, i, j);
        DistinctCounts(xs, ys[i]);
        assert false;
      }
    }
  }

  lemma SameMembers<T>(xs: seq<T>, ys: seq<T>)
    requires Distinct(xs) && Distinct(ys) && Elements(xs) == Elements(ys)
    ensures multiset(xs) == multiset(ys)
  {
    forall x ensures multiset(xs)[x] == multiset(ys)[x] {
      DistinctCounts(xs, x);
      DistinctCounts(ys, x);
      assert x in xs <==> x in Elements(xs);
      assert x in ys <==> x in Elements(ys);
    }
  }

  // Two lists without repetition and with the same members sort to the same list.
  lemma SameSetSort<T>(xs: seq<T>, ys: seq<T>, before: (T, T) -> bool)
    requires Distinct(xs) && Distinct(ys) && Elements(xs) == Elements(ys)
    requires StrictOrderOn(before, Elements(xs))
    ensures Sort(xs, before) == Sort(ys, before)
  {
    SameMembers(xs, ys);
    SortCanonical(xs, ys, before);
  }

  lemma PrefixGrows<T>(xs: seq<T>, i: nat)
    requires i < |xs|
    ensures xs[..i + 1] == xs[..i] + [xs[i]]
  {
  }
}
