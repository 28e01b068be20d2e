/** Python's stable `sorted` for a key given as a comparison. */
module Sorting {
  import opened Prelude

  function InsertBy<T>(first: (T, T) -> bool, x: T, sorted: seq<T>): seq<T> {
    if sorted == [] || first(x, sorted[0]) then [x] + sorted else [sorted[0]] + InsertBy(first, x, sorted[1..])
  }

  /** `first(a, b)` says that a may stand before b; equals keep their order. */
  function SortBy<T>(first: (T, T) -> bool, s: seq<T>): seq<T> {
    if s == [] then [] else InsertBy(first, s[0], SortBy(first, s[1..]))
  }

  ghost predicate TotalPreorder<T(!new)>(first: (T, T) -> bool) {
    && (forall a, b :: first(a, b) || first(b, a))
    && (forall a, b, c :: first(a, b) && first(b, c) ==> first(a, c))
  }

  ghost predicate SortedBy<T>(first: (T, T) -> bool, s: seq<T>) {
    forall i, j :: 0 <= i < j < |s| ==> first(s[i], s[j])
  }

  lemma {:induction false} InsertByAdds<T(!new)>(first: (T, T) -> bool, x: T, s: seq<T>)
    ensures multiset(InsertBy(first, x, s)) == multiset(s) + multiset{x}
    ensures forall y :: y in InsertBy(first, x, s) <==> y in s || y == x
  {
    if s != [] {
      assert s == [s[0]] + s[1..];
      InsertByAdds(first, x, s[1..]);
    }
  }

  lemma ConsSorted<T(!new)>(first: (T, T) -> bool, x: T, s: seq<T>)
    requires SortedBy(first, s) && forall y :: y in s ==> first(x, y)
    ensures SortedBy(first, [x] + s)
  {
  }

  lemma {:induction false} InsertBySorts<T(!new)>(first: (T, T) -> bool, x: T, s: seq<T>)
    requires TotalPreorder(first) && SortedBy(first, s)
    ensures SortedBy(first, InsertBy(first, x, s))
  {
    if s == [] {
    } else if first(x, s[0]) {
      forall y | y in s
        ensures first(x, y)
      {
        var i :| 0 <= i < |s| && s[i] == y;
        assert i == 0 || first(s[0], s[i]);
      }
      ConsSorted(first, x, s);
    } else {
      var r := InsertBy(first, x, s[1..]);
      InsertBySorts(first, x, s[1..]);
      InsertByAdds(first, x, s[1..]);
      forall y | y in r
        ensures first(s[0], y)
      {
        if y != x {
          var i :| 0 < i < |s| && s[i] == y;
        }
      }
      ConsSorted(first, s[0], r);
    }
  }

  /** Sorting permutes, and puts a totally preordered list in order. */
  lemma {:induction false} SortBySorts<T(!new)>(first: (T, T) -> bool, s: seq<T>)
    ensures multiset(SortBy(first, s)) == multiset(s)
    ensures TotalPreorder(first) ==> SortedBy(first, SortBy(first, s))
  {
    if s != [] {
      SortBySorts(first, s[1..]);
      InsertByAdds(first, s[0], SortBy(first, s[1..]));
      if TotalPreorder(first) {
        InsertBySorts(first, s[0], SortBy(first, s[1..]));
      }
      assert s == [s[0]] + s[1..];
    }
  }

  lemma OccursOnce<T(!new)>(s: seq<T>, x: T)
    requires Distinct(s)
    ensures multiset(s)[x] <= 1
  {
    if s != [] {
      var n := |s| - 1;
      OccursOnce(s[..n], x);
      assert s == s[..n] + [s[n]];
      assert s[n] !in s[..n];
    }
  }

  lemma OccursTwice<T(!new)>(s: seq<T>, a: nat, b: nat)
    requires a < b < |s| && s[a] == s[b]
    ensures multiset(s)[s[a]] >= 2
  {
    assert s == s[..b] + s[b..];
    assert s[..b][a] == s[a] && s[b..][0] == s[a];
    assert s[a] in multiset(s[..b]) && s[a] in multiset(s[b..]);
  }

  /** A permutation has the same length and members, and repeats nothing its original did not. */
  lemma SameMembers<T(!new)>(a: seq<T>, b: seq<T>)
    requires multiset(a) == multiset(b)
    ensures |a| == |b| && forall x :: x in a <==> x in b
    ensures Distinct(b) ==> Distinct(a)
  {
    assert forall x :: x in a <==> x in multiset(a);
    assert forall x :: x in b <==> x in multiset(b);
    assert |multiset(a)| == |a| && |multiset(b)| == |b|;
    if Distinct(b) {
      forall i, j | 0 <= i < j < |a|
        ensures a[i] != a[j]
      {
        OccursOnce(b, a[i]);
        if a[i] == a[j] {
          OccursTwice(a, i, j);
        }
      }
    }
  }

  /** Strings compared by their characters' codes, as Python compares them. */
  predicate AtMost(a: string, b: string) {
    a == "" || (b != "" && (a[0] < b[0] || (a[0] == b[0] && AtMost(a[1..], b[1..]))))
  }

  lemma {:induction false} EitherAtMost(a: string, b: string)
    ensures AtMost(a, b) || AtMost(b, a)
    ensures AtMost(a, b) && AtMost(b, a) ==> a == b
  {
    if a != "" && b != "" {
      EitherAtMost(a[1..], b[1..]);
      assert a == [a[0]] + a[1..] && b == [b[0]] + b[1..];
    }
  }

  lemma {:induction false} AtMostChains(a: string, b: string, c: string)
    requires AtMost(a, b) && AtMost(b, c)
    ensures AtMost(a, c)
  {
    if a != "" && a[0] == b[0] == c[0] {
      AtMostChains(a[1..], b[1..], c[1..]);
    }
  }

  predicate Smallest(x: string, s: set<string>) { x in s && forall y :: y in s ==> AtMost(x, y) }

  lemma {:induction false} SmallestExists(s: set<string>)
    requires s != {}
    ensures exists x :: Smallest(x, s)
  {
    var z :| z in s;
    if s == {z} {
      EitherAtMost(z, z);
      assert Smallest(z, s);
    } else {
      SmallestExists(s - {z});
      var x :| Smallest(x, s - {z});
      var least := if AtMost(x, z) then x else z;
      EitherAtMost(x, z);
      forall y | y in s
        ensures AtMost(least, y)
      {
        EitherAtMost(y, y);
        if y != z && least == z {
          AtMostChains(z, x, y);
        }
      }
      assert Smallest(least, s);
    }
  }

  lemma OneSmallest(s: set<string>)
    ensures forall x, y :: Smallest(x, s) && Smallest(y, s) ==> x == y
  {
    forall x, y | Smallest(x, s) && Smallest(y, s)
      ensures x == y
    {
      EitherAtMost(x, y);
    }
  }

  /** Python's `sorted` on a set of strings. */
  function Sorted(s: set<string>): (list: seq<string>)
    ensures forall x :: x in list <==> x in s
  {
    if s == {} then []
    else
      SmallestExists(s);
      OneSmallest(s);
      var x :| Smallest(x, s);
      [x] + Sorted(s - {x})
  }

  lemma {:induction false} SortedAscends(s: set<string>)
    ensures Distinct(Sorted(s))
    ensures forall i, j :: 0 <= i < j < |Sorted(s)| ==> AtMost(Sorted(s)[i], Sorted(s)[j])
  {
    if s != {} {
      var list := Sorted(s);
      SortedAscends(s - {list[0]});
      assert Smallest(list[0], s) && list[1..] == Sorted(s - {list[0]});
      forall j | 0 < j < |list|
        ensures list[j] in s - {list[0]}
      {
        assert list[j] == list[1..][j - 1];
      }
    }
  }

  lemma SortedPair(a: string, b: string)
    requires a != b && AtMost(a, b)
    ensures Sorted({a}) == [a] && Sorted({b}) == [b] && Sorted({a, b}) == [a, b]
  {
    EitherAtMost(a, a);
    EitherAtMost(b, b);
    EitherAtMost(a, b);
    assert Smallest(a, {a, b}) && {a, b} - {a} == {b};
    assert Smallest(a, {a}) && Smallest(b, {b}) && {a} - {a} == {} && {b} - {b} == {};
    OneSmallest({a, b});
  }
}
