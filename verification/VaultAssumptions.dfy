/** The vault's library assumptions can be met: the same symbolic cipher, with its key. */
module VaultAssumptions {
  import opened Prelude
  import opened VaultModel
  import opened Texts
  import Assumptions

  function BytesText(b: Bytes): string { ListText(seq(|b|, i requires 0 <= i < |b| => IntText(b[i]))) }

  lemma BytesRead(b: Bytes, d: Bytes)
    requires BytesText(b) == BytesText(d)
    ensures b == d
  {
    var x, y := seq(|b|, i requires 0 <= i < |b| => IntText(b[i])), seq(|d|, i requires 0 <= i < |d| => IntText(d[i]));
    ListReads(x, y);
    assert |b| == |x| == |y| == |d|;
    forall i | 0 <= i < |b|
      ensures b[i] == d[i]
    {
      assert x[i] == y[i];
      IntReads(b[i], d[i]);
    }
  }

  ghost function RingText(r: Keyring): string {
    ListText([BytesText(r.indexKey), TableText(r.dataKeys, (id: nat) => IntText(id), (b: Bytes) => BytesText(b)),
        IntText(r.active)])
  }

  lemma RingReads(r: Keyring, s: Keyring)
    requires RingText(r) == RingText(s)
    ensures r == s
  {
    var key, value := (id: nat) => IntText(id), (b: Bytes) => BytesText(b);
    var x := [BytesText(r.indexKey), TableText(r.dataKeys, key, value), IntText(r.active)];
    var y := [BytesText(s.indexKey), TableText(s.dataKeys, key, value), IntText(s.active)];
    ListReads(x, y);
    assert x[0] == y[0] && x[1] == y[1] && x[2] == y[2];
    BytesRead(r.indexKey, s.indexKey);
    IntReads(r.active, s.active);
    forall i: nat, j: nat | key(i) == key(j)
      ensures i == j
    {
      IntReads(i, j);
    }
    forall b, d | value(b) == value(d)
      ensures b == d
    {
      BytesRead(b, d);
    }
    TableReads(r.dataKeys, s.dataKeys, key, value);
  }

  function Kind(c: Clear): string {
    match c
    case RootKey(_) => "root"
    case Ring(_) => "ring"
    case Item(Secret(_, _)) => "secret"
    case Item(Document(_)) => "document"
  }

  /** What follows the kind. */
  ghost function Parts(c: Clear): seq<string> {
    match c
    case RootKey(key) => [BytesText(key)]
    case Ring(ring) => [RingText(ring)]
    case Item(Secret(secret, at)) => [secret, IntText(at)]
    case Item(Document(json)) => [json]
  }

  ghost function ClearText(c: Clear): string { ListText([Kind(c)] + Parts(c)) }

  lemma ClearReads(c: Clear, d: Clear)
    requires ClearText(c) == ClearText(d)
    ensures c == d
  {
    ListReads([Kind(c)] + Parts(c), [Kind(d)] + Parts(d));
    assert Kind(c) == ([Kind(c)] + Parts(c))[0] == ([Kind(d)] + Parts(d))[0] == Kind(d);
    assert Parts(c) == ([Kind(c)] + Parts(c))[1..] == ([Kind(d)] + Parts(d))[1..] == Parts(d);
    SameParts(c, d);
  }

  lemma SameParts(c: Clear, d: Clear)
    requires Kind(c) == Kind(d) && Parts(c) == Parts(d)
    ensures c == d
  {
    assert |Kind(RootKey([]))| == 4 && |Kind(Item(Document("")))| == 8 && |Kind(Item(Secret("", 0)))| == 6;
    assert Kind(c)[1] == Kind(d)[1];
    assert Parts(c)[0] == Parts(d)[0];
    match (c, d) {
      case (RootKey(a), RootKey(b)) => BytesRead(a, b);
      case (Ring(a), Ring(b)) => RingReads(a, b);
      case (Item(Secret(a, x)), Item(Secret(b, y))) =>
        assert Parts(c)[1] == Parts(d)[1];
        IntReads(x, y);
      case _ =>
    }
  }

  /** A cipher and a keyed hash as the vault assumes them. */
  lemma CryptoExists() returns (c: Crypto)
    ensures c.Ideal()
  {
    var clearText := (x: Clear) => ClearText(x);
    c := Crypto(
      (k: Bytes, a: string, n: string, x: Clear) => Assumptions.Box(ListText([BytesText(k), a]), n, clearText(x)),
      (k: Bytes, a: string, n: string, s: string) => Assumptions.Unbox(ListText([BytesText(k), a]), n, clearText, s),
      (s: string, b: Bytes) => b, (k: Bytes, s: string) => s, (n: nat) => IntText(n));
    forall x, y | clearText(x) == clearText(y)
      ensures x == y
    {
      ClearReads(x, y);
    }
    forall k, a, n, x, k', a'
      ensures c.open(k, a, n, c.seal(k, a, n, x)) == Some(x)
      ensures c.open(k', a', n, c.seal(k, a, n, x)).Some? ==> k' == k && a' == a
    {
      var here, there := ListText([BytesText(k), a]), ListText([BytesText(k'), a']);
      Assumptions.UnboxesOnlyItsOwn(here, there, n, clearText, x);
      if here == there {
        ListReads([BytesText(k), a], [BytesText(k'), a']);
        assert [BytesText(k), a][0] == [BytesText(k'), a'][0] && [BytesText(k), a][1] == [BytesText(k'), a'][1];
        BytesRead(k, k');
      }
    }
  }
}
