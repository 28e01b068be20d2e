/** The store's library assumptions can all be met at once: a symbolic cipher spells out its
    associated data, nonce and plaintext in one string. */
module Assumptions {
  import opened Prelude
  import opened Records
  import opened Sorting
  import opened Texts

  ghost function JsonText(j: Json): string {
    match j
    case Null => "n"
    case Bool(b) => if b then "t" else "f"
    case Num(d) => "d" + d
    case Str(s) => "s" + s
    case Arr(items) => "a" + ListText(seq(|items|, i requires 0 <= i < |items| => JsonText(items[i])))
    case Obj(fields) =>
      var texts := map name | name in fields :: JsonText(fields[name]);
      "o" + TableText(texts, (s: string) => s, (s: string) => s)
  }

  lemma {:induction false} JsonReads(j: Json, k: Json)
    requires JsonText(j) == JsonText(k)
    ensures j == k
    decreases j, 1
  {
    assert JsonText(j)[0] == JsonText(k)[0] && JsonText(j)[1..] == JsonText(k)[1..];
    if j.Arr? {
      ArrayReads(j.items, k.items, j);
    } else if j.Obj? {
      ObjectReads(j.fields, k.fields, j);
    }
  }

  lemma {:induction false} ArrayReads(a: seq<Json>, b: seq<Json>, whole: Json)
    requires whole == Arr(a) && JsonText(Arr(a))[1..] == JsonText(Arr(b))[1..]
    ensures a == b
    decreases whole, 0
  {
    var x := seq(|a|, i requires 0 <= i < |a| => JsonText(a[i]));
    var y := seq(|b|, i requires 0 <= i < |b| => JsonText(b[i]));
    assert ListText(x) == JsonText(Arr(a))[1..] && ListText(y) == JsonText(Arr(b))[1..];
    ListReads(x, y);
    assert |a| == |x| == |y| == |b|;
    forall i | 0 <= i < |a|
      ensures a[i] == b[i]
    {
      assert x[i] == y[i];
      JsonReads(a[i], b[i]);
    }
  }

  lemma {:induction false} ObjectReads(a: map<string, Json>, b: map<string, Json>, whole: Json)
    requires whole == Obj(a) && JsonText(Obj(a))[1..] == JsonText(Obj(b))[1..]
    ensures a == b
    decreases whole, 0
  {
    var x, y := map name | name in a :: JsonText(a[name]), map name | name in b :: JsonText(b[name]);
    assert TableText(x, (s: string) => s, (s: string) => s) == JsonText(Obj(a))[1..];
    assert TableText(y, (s: string) => s, (s: string) => s) == JsonText(Obj(b))[1..];
    TableReads(x, y, (s: string) => s, (s: string) => s);
    assert a.Keys == x.Keys == y.Keys == b.Keys;
    forall name | name in a
      ensures a[name] == b[name]
    {
      assert x[name] == y[name];
      JsonReads(a[name], b[name]);
    }
  }

  ghost function ClearText(c: Clear): string {
    ListText([c.title, c.summary, ListText(c.tags), JsonText(Obj(c.metadata)), JsonText(c.payload)])
  }

  lemma ClearReads(c: Clear, d: Clear)
    requires ClearText(c) == ClearText(d)
    ensures c == d
  {
    var x := [c.title, c.summary, ListText(c.tags), JsonText(Obj(c.metadata)), JsonText(c.payload)];
    var y := [d.title, d.summary, ListText(d.tags), JsonText(Obj(d.metadata)), JsonText(d.payload)];
    ListReads(x, y);
    assert x[0] == y[0] && x[1] == y[1] && x[2] == y[2] && x[3] == y[3] && x[4] == y[4];
    ListReads(c.tags, d.tags);
    JsonReads(Obj(c.metadata), Obj(d.metadata));
    JsonReads(c.payload, d.payload);
  }

  function EventText(e: AuditClear): string {
    match e.event
    case PutEvent(t, d, at) => ListText([e.operation, e.recordId, t, d, IntText(at)])
    case DeleteEvent(at) => ListText([e.operation, e.recordId, IntText(at)])
  }

  lemma EventReads(e: AuditClear, f: AuditClear)
    requires EventText(e) == EventText(f)
    ensures e == f
  {
    match (e.event, f.event) {
      case (PutEvent(t, d, at), PutEvent(u, h, due)) =>
        var x, y := [e.operation, e.recordId, t, d, IntText(at)], [f.operation, f.recordId, u, h, IntText(due)];
        ListReads(x, y);
        assert x[0] == y[0] && x[1] == y[1] && x[2] == y[2] && x[3] == y[3] && x[4] == y[4];
        IntReads(at, due);
      case (DeleteEvent(at), DeleteEvent(due)) =>
        var x, y := [e.operation, e.recordId, IntText(at)], [f.operation, f.recordId, IntText(due)];
        ListReads(x, y);
        assert x[0] == y[0] && x[1] == y[1] && x[2] == y[2];
        IntReads(at, due);
      case (PutEvent(t, d, at), DeleteEvent(due)) =>
        ListReads([e.operation, e.recordId, t, d, IntText(at)], [f.operation, f.recordId, IntText(due)]);
      case (DeleteEvent(at), PutEvent(u, h, due)) =>
        ListReads([e.operation, e.recordId, IntText(at)], [f.operation, f.recordId, u, h, IntText(due)]);
    }
  }

  /** Sealing in the open: everything is spelled out. */
  function Box(aad: string, nonce: string, text: string): string { ListText([aad, nonce, text]) }

  lemma BoxReads(a: string, n: string, x: string, b: string, m: string, y: string)
    requires Box(a, n, x) == Box(b, m, y)
    ensures a == b && n == m && x == y
  {
    ListReads([a, n, x], [b, m, y]);
    assert [a, n, x][0] == [b, m, y][0] && [a, n, x][1] == [b, m, y][1] && [a, n, x][2] == [b, m, y][2];
  }

  ghost function Unbox<T(!new)>(aad: string, nonce: string, text: T -> string, box: string): Option<T> {
    if exists c :: Box(aad, nonce, text(c)) == box then
      var c :| Box(aad, nonce, text(c)) == box;
      Some(c)
    else None
  }

  lemma UnboxesOnlyItsOwn<T(!new)>(a: string, b: string, n: string, text: T -> string, c: T)
    requires Injective(text)
    ensures Unbox(a, n, text, Box(a, n, text(c))) == Some(c)
    ensures a != b ==> Unbox(b, n, text, Box(a, n, text(c))) == None
  {
    forall x, d | Box(d, n, text(x)) == Box(a, n, text(c))
      ensures x == c && d == a
    {
      BoxReads(d, n, text(x), a, n, text(c));
    }
  }

  /** The letters of a text, as words. */
  function Letters(s: string): set<string> { set i | 0 <= i < |s| && s[i] != ' ' :: [s[i]] }

  lemma LettersSplit(a: string, b: string)
    ensures Letters(a + " " + b) == Letters(a) + Letters(b)
  {
    var s := a + " " + b;
    assert forall i :: 0 <= i < |a| ==> s[i] == a[i];
    assert forall i :: 0 <= i < |b| ==> s[|a| + 1 + i] == b[i];
    assert forall i :: |a| < i < |s| ==> s[i] == b[i - |a| - 1];
    forall word
      ensures word in Letters(s) <==> word in Letters(a) + Letters(b)
    {
      if word in Letters(s) {
        var i :| 0 <= i < |s| && s[i] != ' ' && word == [s[i]];
        assert i < |a| || i > |a|;
      }
    }
  }

  /** Every assumption made of the store's library calls, in one value: a cipher that opens
      only what it sealed, hex digests, injective canonical texts and token hashes, words that end
      at blanks, and listings of sets. */
  lemma PrimitivesExist() returns (p: Primitives)
    ensures p.Sound() && p.Authentic() && p.Hex() && p.Splits() && p.Lists()
    ensures Injective(p.canonical) && Injective(p.blind)
  {
    var clearText, eventText := (c: Clear) => ClearText(c), (e: AuditClear) => EventText(e);
    p := Primitives(
      (t: string, j: Json) => Derived("", "", [], map[]),
      (a: string, n: string, c: Clear) => Box(a, n, clearText(c)),
      (a: string, n: string, s: string) => Unbox(a, n, clearText, s),
      (c: Clear) => "", (s: string) => "", (s: set<string>) => Sorted(s), (m: Metadata) => "",
      (s: string) => Letters(s),
      (s: string) => s, (s: string) => [], (s: string) => seq(64, i => '1'), eventText,
      (a: string, n: string, e: AuditClear) => Box(a, n, eventText(e)),
      (a: string, n: string, s: string) => Unbox(a, n, eventText, s),
      (s: string) => s, (s: string) => s, (s: string) => None, (i: int) => i, (m: multiset<string>) => [],
      (i: int) => IntText(i));
    forall a, b
      ensures p.tokens(a + " " + b) == p.tokens(a) + p.tokens(b)
    {
      LettersSplit(a, b);
    }
    forall c, d | clearText(c) == clearText(d)
      ensures c == d
    {
      ClearReads(c, d);
    }
    forall e, f | eventText(e) == eventText(f)
      ensures e == f
    {
      EventReads(e, f);
    }
    forall a, b, n, c: Clear
      ensures p.open(a, n, p.seal(a, n, c)) == Some(c) && (a != b ==> p.open(b, n, p.seal(a, n, c)) == None)
    {
      UnboxesOnlyItsOwn(a, b, n, clearText, c);
    }
    forall a, n, e: AuditClear
      ensures p.openEvent(a, n, p.sealEvent(a, n, e)) == Some(e)
    {
      UnboxesOnlyItsOwn(a, a, n, eventText, e);
    }
  }
}
