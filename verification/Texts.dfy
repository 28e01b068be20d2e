/** Strings, lists, maps and integers spelled out so that they can be read back. */
module Texts {
  /** A string with its end marked. */
  function Quote(s: string): string { if s == "" then "." else "x" + [s[0]] + Quote(s[1..]) }

  lemma {:induction false} QuoteReads(s: string, rest: string, t: string, more: string)
    requires Quote(s) + rest == Quote(t) + more
    ensures s == t && rest == more
  {
    var a, b := Quote(s) + rest, Quote(t) + more;
    assert a[0] == b[0];
    if s == "" {
      assert rest == a[1..] == b[1..] == more;
    } else {
      assert s[0] == a[1] == b[1] == t[0];
      assert Quote(s[1..]) + rest == a[2..] == b[2..] == Quote(t[1..]) + more;
      QuoteReads(s[1..], rest, t[1..], more);
      assert s == [s[0]] + s[1..] && t == [t[0]] + t[1..];
    }
  }

  function ListText(parts: seq<string>): string {
    if parts == [] then "." else "x" + Quote(parts[0]) + ListText(parts[1..])
  }

  lemma {:induction false} ListReads(a: seq<string>, b: seq<string>)
    requires ListText(a) == ListText(b)
    ensures a == b
  {
    assert ListText(a)[0] == ListText(b)[0];
    if a != [] {
      assert Quote(a[0]) + ListText(a[1..]) == ListText(a)[1..] == ListText(b)[1..] == Quote(b[0]) + ListText(b[1..]);
      QuoteReads(a[0], ListText(a[1..]), b[0], ListText(b[1..]));
      ListReads(a[1..], b[1..]);
      assert a == [a[0]] + a[1..] && b == [b[0]] + b[1..];
    }
  }

  ghost predicate Injective<T(!new)>(text: T -> string) { forall x, y :: text(x) == text(y) ==> x == y }

  /** A map, key by key in the order a choice function gives. */
  ghost function TableText<K, V>(m: map<K, V>, key: K -> string, value: V -> string): string {
    if m == map[] then "."
    else
      var k :| k in m;
      "x" + (Quote(key(k)) + (Quote(value(m[k])) + TableText(m - {k}, key, value)))
  }

  lemma {:induction false} TableReads<K(!new), V(!new)>(a: map<K, V>, b: map<K, V>, key: K -> string,
      value: V -> string)
    requires Injective(key) && Injective(value)
    requires TableText(a, key, value) == TableText(b, key, value)
    ensures a == b
    decreases |a|
  {
    assert TableText(a, key, value)[0] == TableText(b, key, value)[0];
    if a != map[] {
      var i, a' := Opened(a, key, value);
      var j, b' := Opened(b, key, value);
      QuoteReads(key(i), Quote(value(a[i])) + a', key(j), Quote(value(b[j])) + b');
      QuoteReads(value(a[i]), a', value(b[j]), b');
      TableReads(a - {i}, b - {i}, key, value);
      assert a == (a - {i})[i := a[i]] && b == (b - {i})[i := b[i]];
    }
  }

  /** The first entry of a table's text. */
  lemma Opened<K, V>(m: map<K, V>, key: K -> string, value: V -> string) returns (k: K, rest: string)
    requires m != map[]
    ensures k in m && |m - {k}| < |m| && rest == TableText(m - {k}, key, value)
    ensures TableText(m, key, value)[1..] == Quote(key(k)) + (Quote(value(m[k])) + rest)
  {
    k :| k in m && TableText(m, key, value)
                == "x" + (Quote(key(k)) + (Quote(value(m[k])) + TableText(m - {k}, key, value)));
    rest := TableText(m - {k}, key, value);
    SmallerTable(m, k);
  }

  lemma SmallerTable<K, V>(m: map<K, V>, k: K)
    requires k in m
    ensures |m - {k}| < |m|
  {
    assert m.Keys == (m - {k}).Keys + {k};
    assert |m.Keys| == |(m - {k}).Keys| + 1;
  }

  function Unary(n: nat): string { seq(n, i => 'x') }

  function IntText(i: int): string { if i >= 0 then "p" + Unary(i) else "m" + Unary(-i) }

  lemma IntReads(i: int, j: int)
    requires IntText(i) == IntText(j)
    ensures i == j
  {
    assert IntText(i)[0] == IntText(j)[0] && |IntText(i)| == |IntText(j)|;
  }
}
