/** Shared vocabulary: optional values, error results, Python slices and clamps, and
    the one SQL clause the store leans on, ORDER BY. */
module Prelude {

  datatype Option<+T> = None | Some(value: T)

  /** A raised exception is an `Err`; its text is not modelled. */
  datatype Result<+T> = Ok(value: T) | Err

  function Min(a: int, b: int): int { if a <= b then a else b }

  function Max(a: int, b: int): int { if a >= b then a else b }

  /** Python's `max(low, min(high, value))` on integers. */
  function Between(low: int, high: int, value: int): int { Max(low, Min(high, value)) }

  /** Python's `s[:n]` for a non-negative n. */
  function Take<T>(s: seq<T>, n: nat): seq<T> { if |s| <= n then s else s[..n] }

  function RMin(a: real, b: real): real { if a <= b then a else b }

  function RMax(a: real, b: real): real { if a >= b then a else b }

  /** `max(0.0, min(1.0, value))`. */
  function Clamp(x: real): real { RMax(0.0, RMin(1.0, x)) }

  ghost predicate Distinct<T(!new)>(s: seq<T>) {
    forall i, j :: 0 <= i < j < |s| ==> s[i] != s[j]
  }

  /** The elements of a sequence, without order or multiplicity. */
  ghost function Elements<T>(s: seq<T>): set<T> { set x | x in s }

  /** `dict.fromkeys`: each string where it first occurs. */
  function Unique(ids: seq<string>): seq<string> {
    if ids == [] then []
    else
      var front, last := Unique(ids[..|ids| - 1]), ids[|ids| - 1];
      if last in front then front else front + [last]
  }

  lemma {:induction false} UniqueElements(ids: seq<string>)
    ensures Distinct(Unique(ids)) && forall id :: id in Unique(ids) <==> id in ids
  {
    if ids != [] {
      UniqueElements(ids[..|ids| - 1]);
      assert ids == ids[..|ids| - 1] + [ids[|ids| - 1]];
    }
  }

  lemma DistinctSize<T(!new)>(s: seq<T>)
    requires Distinct(s)
    ensures |Elements(s)| == |s|
  {
    if s != [] {
      var front := s[..|s| - 1];
      DistinctSize(front);
      assert s == front + [s[|s| - 1]];
      assert Elements(s) == Elements(front) + {s[|s| - 1]};
    }
  }

  lemma {:induction false} SubsetSize<T>(small: set<T>, large: set<T>)
    requires small <= large
    ensures |small| <= |large|
  {
    if small != {} {
      var x :| x in small;
      SubsetSize(small - {x}, large - {x});
    }
  }

  /** A sum of n equal terms. */
  function Times(x: real, n: nat): real { if n == 0 then 0.0 else Times(x, n - 1) + x }

  lemma {:induction false} TimesIs(x: real, n: nat)
    ensures Times(x, n) == x * n as real
  {
    if n > 0 {
      TimesIs(x, n - 1);
    }
  }

  /** `count` counts the wanted members of a sequence, one by one. */
  ghost predicate Adds<T(!new)>(count: seq<T> -> nat, wanted: T -> bool) {
    && count([]) == 0
    && (forall x :: count([x]) == if wanted(x) then 1 else 0)
    && forall a, b :: count(a + b) == count(a) + count(b)
  }

  lemma Sandwich(before: string, x: string, y: string, after: string)
    requires before + x + after == before + y + after
    ensures x == y
  {
    var a, b := before + x + after, before + y + after;
    assert |x| == |y|;
    assert x == a[|before|..|before| + |x|] == b[|before|..|before| + |y|] == y;
  }

  /** A two-column sort key, both columns descending. */
  datatype Key = Key(first: int, second: int) {
    predicate AtLeast(other: Key) {
      first > other.first || (first == other.first && second >= other.second)
    }
  }

  /** `s` lists the keys of `m` in the order ORDER BY asks for; ties are in any order,
      which is all SQL promises. */
  ghost predicate Ordered(m: map<string, Key>, s: seq<string>) {
    && Distinct(s)
    && (forall x :: x in s <==> x in m)
    && forall i, j :: 0 <= i < j < |s| ==> m[s[i]].AtLeast(m[s[j]])
  }

  method PickFirst(m: map<string, Key>, candidates: set<string>) returns (best: string)
    requires candidates != {} && candidates <= m.Keys
    ensures best in candidates
    ensures forall k :: k in candidates ==> m[best].AtLeast(m[k])
  {
    best :| best in candidates;
    var rest := candidates - {best};
    while rest != {}
      invariant rest <= candidates
      invariant best in candidates
      invariant forall k :: k in candidates - rest ==> m[best].AtLeast(m[k])
      decreases rest
    {
      var k :| k in rest;
      if !m[best].AtLeast(m[k]) {
        best := k;
      }
      rest := rest - {k};
    }
  }

  /** `s` is the ordered part so far and `rest` the rows still to be listed. */
  ghost predicate OrderedPrefix(m: map<string, Key>, s: seq<string>, rest: set<string>) {
    && rest <= m.Keys
    && Distinct(s)
    && (forall x :: x in s <==> x in m && x !in rest)
    && (forall i, j :: 0 <= i < j < |s| ==> m[s[i]].AtLeast(m[s[j]]))
    && (forall i, k :: 0 <= i < |s| && k in rest ==> m[s[i]].AtLeast(m[k]))
  }

  lemma ExtendOrdered(m: map<string, Key>, s: seq<string>, rest: set<string>, best: string)
    requires OrderedPrefix(m, s, rest)
    requires best in rest && forall k :: k in rest ==> m[best].AtLeast(m[k])
    ensures OrderedPrefix(m, s + [best], rest - {best})
  {
    var t := s + [best];
    assert forall i :: 0 <= i < |s| ==> t[i] == s[i];
  }

  /** SELECT ... ORDER BY first DESC, second DESC over the rows of `m`. */
  method OrderBy(m: map<string, Key>) returns (s: seq<string>)
    ensures Ordered(m, s)
    ensures |s| == |m|
  {
    s := [];
    var rest := m.Keys;
    while rest != {}
      invariant OrderedPrefix(m, s, rest)
      decreases rest
    {
      var best := PickFirst(m, rest);
      ExtendOrdered(m, s, rest, best);
      s := s + [best];
      rest := rest - {best};
    }
    DistinctSize(s);
    assert Elements(s) == m.Keys;
  }
}
