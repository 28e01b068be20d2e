/** The hash-linked audit chain: how `_append_audit` extends it and how
    `verify_integrity` walks it. */
module AuditChain {
  import opened Prelude
  import opened Records

  /** "0" * n */
  function Zeros(n: nat): string { seq(n, i => '0') }

  const GENESIS: string := Zeros(64)

  function AuditAad(eventHash: string): string { STORE_FORMAT + ":audit:" + eventHash }

  function Head(rows: seq<AuditRow>): string {
    if rows == [] then GENESIS else rows[|rows| - 1].eventHash
  }

  /** The table after `_append_audit`. */
  function Append(p: Primitives, rows: seq<AuditRow>, operation: string, recordId: string, event: Event,
      nonce: string): seq<AuditRow> {
    var clear := AuditClear(operation, recordId, event);
    var eventHash := p.sha3(Head(rows) + p.canonical(clear));
    rows + [AuditRow(operation, recordId, Head(rows), eventHash, nonce, p.sealEvent(AuditAad(eventHash), nonce, clear))]
  }

  /** The event a row carries, if its ciphertext authenticates. */
  function Opened(p: Primitives, row: AuditRow): Option<AuditClear> {
    p.openEvent(AuditAad(row.eventHash), row.nonce, row.ciphertext)
  }

  /** The verifier's five checks on one row, given the hash it has reached. */
  predicate Follows(p: Primitives, previous: string, row: AuditRow) {
    && row.previousHash == previous
    && var e := Opened(p, row);
    && e.Some?
    && p.sha3(previous + p.canonical(e.value)) == row.eventHash
    && e.value.operation == row.operation
    && e.value.recordId == row.recordId
  }

  /** The hash row `i` must name as its predecessor. */
  function Before(rows: seq<AuditRow>, i: nat): string
    requires i <= |rows|
  {
    if i == 0 then GENESIS else rows[i - 1].eventHash
  }

  predicate Linked(p: Primitives, rows: seq<AuditRow>, i: nat)
    requires i < |rows|
  {
    Follows(p, Before(rows, i), rows[i])
  }

  /** Every row follows from the one before it. */
  ghost predicate ValidChain(p: Primitives, rows: seq<AuditRow>) {
    forall i :: 0 <= i < |rows| ==> Linked(p, rows, i)
  }

  function Events(p: Primitives, rows: seq<AuditRow>): seq<Option<AuditClear>> {
    seq(|rows|, i requires 0 <= i < |rows| => Opened(p, rows[i]))
  }

  /** `hmac.compare_digest` raises on text outside ASCII, and the verifier does not catch it:
      first on the predecessor the row names, then on the hash of a row that decrypts. */
  predicate Raises(p: Primitives, previous: string, row: AuditRow) {
    || !Ascii(row.previousHash)
    || (row.previousHash == previous && Opened(p, row).Some? && !Ascii(row.eventHash))
  }

  /** The first n rows verify and no longer prefix does. */
  ghost predicate IsLongest(p: Primitives, rows: seq<AuditRow>, n: nat) {
    n <= |rows| && forall k :: 0 <= k <= |rows| ==> (ValidChain(p, rows[..k]) <==> k <= n)
  }

  /** `failedAt` is the position of the first row that does not verify. */
  datatype Verification = Verification(verified: nat, failedAt: Option<nat>, head: Option<string>)

  // ---- the verifier's answer, told without the functions above ----

  function HashBefore(rows: seq<AuditRow>, i: nat): string
    requires i <= |rows|
  {
    if i == 0 then Zeros(64) else rows[i - 1].eventHash
  }

  /** The row is what its own event, sealed under its hash, makes of it after `before`. */
  predicate Vouched(p: Primitives, before: string, row: AuditRow) {
    match p.openEvent("cyberforge-encrypted-sqlite-v1:audit:" + row.eventHash, row.nonce, row.ciphertext)
    case None => false
    case Some(e) =>
      row == AuditRow(e.operation, e.recordId, before, p.sha3(before + p.canonical(e)), row.nonce, row.ciphertext)
  }

  predicate VouchedAt(p: Primitives, rows: seq<AuditRow>, i: nat) {
    i < |rows| && Vouched(p, HashBefore(rows, i), rows[i])
  }

  ghost predicate VouchedTo(p: Primitives, rows: seq<AuditRow>, n: nat) {
    n <= |rows| && forall i :: 0 <= i < n ==> VouchedAt(p, rows, i)
  }

  /** Its hashes cannot be compared where the walk comes to compare them. */
  predicate Incomparable(p: Primitives, before: string, row: AuditRow) {
    !Ascii(row.previousHash) || (!Ascii(row.eventHash) && row.previousHash == before &&
      p.openEvent("cyberforge-encrypted-sqlite-v1:audit:" + row.eventHash, row.nonce, row.ciphertext) != None)
  }

  /** Every row counted as verified is vouched for by its own event, and the first that is not
      ends the walk: with an exception when it cannot be compared, with a report otherwise. */
  ghost predicate Answers(p: Primitives, rows: seq<AuditRow>, r: Result<Verification>) {
    exists n :: VouchedTo(p, rows, n) && Ends(p, rows, n, r)
  }

  predicate Ends(p: Primitives, rows: seq<AuditRow>, n: nat, r: Result<Verification>)
    requires n <= |rows|
  {
    if n == |rows| then r == Ok(Verification(n, None, if n == 0 then None else Some(HashBefore(rows, n))))
    else
      && !VouchedAt(p, rows, n)
      && if Incomparable(p, HashBefore(rows, n), rows[n]) then r == Err
         else r == Ok(Verification(n, Some(n), Some(HashBefore(rows, n))))
  }

  lemma VouchedFollows(p: Primitives, rows: seq<AuditRow>, i: nat)
    requires i < |rows|
    ensures Before(rows, i) == HashBefore(rows, i)
    ensures VouchedAt(p, rows, i) <==> Linked(p, rows, i)
    ensures Incomparable(p, HashBefore(rows, i), rows[i]) <==> Raises(p, Before(rows, i), rows[i])
  {
    assert STORE_FORMAT + ":audit:" == "cyberforge-encrypted-sqlite-v1:audit:";
  }

  lemma AnswersAt(p: Primitives, rows: seq<AuditRow>, n: nat, r: Result<Verification>)
    requires n <= |rows| && forall i :: 0 <= i < n ==> Linked(p, rows, i)
    requires Ends(p, rows, n, r)
    ensures Answers(p, rows, r)
  {
    forall i | 0 <= i < n
      ensures VouchedAt(p, rows, i)
    {
      VouchedFollows(p, rows, i);
    }
    assert VouchedTo(p, rows, n);
  }

  /** The walk raises exactly when the row that ends the longest valid prefix cannot even be
      compared. */
  method Verify(p: Primitives, rows: seq<AuditRow>) returns (r: Result<Verification>)
    requires p.Hex()
    ensures r.Err? <==> exists n: nat :: IsLongest(p, rows, n) && n < |rows| && Raises(p, Before(rows, n), rows[n])
    ensures r.Ok? ==> IsLongest(p, rows, r.value.verified)
    ensures r.Ok? ==> r.value.failedAt == if r.value.verified < |rows| then Some(r.value.verified) else None
    ensures r.Ok? ==> r.value.head == if rows == [] then None else Some(Before(rows, r.value.verified))
    ensures Answers(p, rows, r)
  {
    var previous := GENESIS;
    var verified := 0;
    while verified < |rows|
      invariant verified <= |rows|
      invariant previous == Before(rows, verified) && Ascii(previous)
      invariant forall i :: 0 <= i < verified ==> Linked(p, rows, i)
    {
      var row := rows[verified];
      VouchedFollows(p, rows, verified);
      if Raises(p, previous, row) {
        LongestPrefix(p, rows, verified);
        AnswersAt(p, rows, verified, Err);
        return Err;
      }
      if !Follows(p, previous, row) {
        break;
      }
      previous := row.eventHash;
      verified := verified + 1;
    }
    LongestPrefix(p, rows, verified);
    OneLongest(p, rows, verified);
    var failedAt := if verified < |rows| then Some(verified) else None;
    r := Ok(Verification(verified, failedAt, if rows == [] then None else Some(previous)));
    AnswersAt(p, rows, verified, r);
  }

  /** A table has one answer. */
  lemma OneAnswer(p: Primitives, rows: seq<AuditRow>, n: nat, r: Result<Verification>, r': Result<Verification>)
    requires VouchedTo(p, rows, n) && Ends(p, rows, n, r) && Answers(p, rows, r')
    ensures r' == r
  {
    var m :| VouchedTo(p, rows, m) && Ends(p, rows, m, r');
    OneEnd(p, rows, m, n, r', r);
  }

  lemma OneEnd(p: Primitives, rows: seq<AuditRow>, m: nat, n: nat, r: Result<Verification>, r': Result<Verification>)
    requires VouchedTo(p, rows, m) && VouchedTo(p, rows, n) && Ends(p, rows, m, r) && Ends(p, rows, n, r')
    ensures m == n && r == r'
  {
    assert m < n ==> VouchedAt(p, rows, m);
    assert n < m ==> VouchedAt(p, rows, n);
  }

  /** One column of a row is rewritten; a rewritten predecessor is still ASCII text. */
  predicate Rewritten(row: AuditRow, row': AuditRow) {
    || (row' == row.(recordId := row'.recordId) && row'.recordId != row.recordId)
    || (row' == row.(operation := row'.operation) && row'.operation != row.operation)
    || (row' == row.(previousHash := row'.previousHash) && row'.previousHash != row.previousHash &&
        Ascii(row'.previousHash))
  }

  /** Rewriting the record id, the operation or the predecessor of a row of a table that verifies
      is found at that row. */
  lemma RewritingFound(p: Primitives, rows: seq<AuditRow>, v: Verification, i: nat, row: AuditRow,
      r: Result<Verification>)
    requires p.Hex() && i < |rows| && Rewritten(rows[i], row)
    requires Answers(p, rows, Ok(v)) && v.verified == |rows|
    requires Answers(p, rows[i := row], r)
    ensures r == Ok(Verification(i, Some(i), Some(HashBefore(rows, i))))
  {
    WhollyVouched(p, rows, v);
    AsciiRow(p, rows, i);
    FoundAt(p, rows, rows[i := row], i, r);
  }

  /** Cutting a row out of the middle is found where it was, unless it hashed to the hash before it. */
  lemma RemovalFound(p: Primitives, rows: seq<AuditRow>, v: Verification, i: nat, r: Result<Verification>)
    requires p.Hex() && i + 1 < |rows| && rows[i].eventHash != HashBefore(rows, i)
    requires Answers(p, rows, Ok(v)) && v.verified == |rows|
    requires Answers(p, rows[..i] + rows[i + 1..], r)
    ensures r == Ok(Verification(i, Some(i), Some(HashBefore(rows, i))))
  {
    WhollyVouched(p, rows, v);
    AsciiRow(p, rows, i + 1);
    FoundAt(p, rows, rows[..i] + rows[i + 1..], i, r);
  }

  lemma WhollyVouched(p: Primitives, rows: seq<AuditRow>, v: Verification)
    requires Answers(p, rows, Ok(v)) && v.verified == |rows|
    ensures VouchedTo(p, rows, |rows|)
  {
  }

  /** A changed table agrees with a sound one up to row `i`, which can be compared but not vouched for. */
  lemma FoundAt(p: Primitives, rows: seq<AuditRow>, changed: seq<AuditRow>, i: nat, r: Result<Verification>)
    requires VouchedTo(p, rows, |rows|) && i < |rows| && i < |changed| && changed[..i] == rows[..i]
    requires !Vouched(p, HashBefore(rows, i), changed[i]) && !Incomparable(p, HashBefore(rows, i), changed[i])
    requires Answers(p, changed, r)
    ensures r == Ok(Verification(i, Some(i), Some(HashBefore(rows, i))))
  {
    assert forall k :: 0 <= k < i ==> changed[k] == changed[..i][k] == rows[..i][k] == rows[k];
    forall k | 0 <= k < i
      ensures VouchedAt(p, changed, k)
    {
      assert VouchedAt(p, rows, k);
    }
    OneAnswer(p, changed, i, Ok(Verification(i, Some(i), Some(HashBefore(rows, i)))), r);
  }

  lemma AsciiRow(p: Primitives, rows: seq<AuditRow>, i: nat)
    requires p.Hex() && VouchedTo(p, rows, |rows|) && i < |rows|
    ensures Ascii(rows[i].previousHash) && Ascii(rows[i].eventHash)
    ensures VouchedAt(p, rows, i)
  {
    assert VouchedAt(p, rows, i);
    HashIsAscii(p, rows, i);
    if i == 0 {
      ZerosAscii();
    } else {
      assert VouchedAt(p, rows, i - 1);
      HashIsAscii(p, rows, i - 1);
    }
  }

  lemma HashIsAscii(p: Primitives, rows: seq<AuditRow>, i: nat)
    requires p.Hex() && VouchedAt(p, rows, i)
    ensures Ascii(rows[i].eventHash) && rows[i].previousHash == HashBefore(rows, i)
  {
    var row := rows[i];
    assert Vouched(p, HashBefore(rows, i), row);
    match p.openEvent("cyberforge-encrypted-sqlite-v1:audit:" + row.eventHash, row.nonce, row.ciphertext)
    case Some(e) => DigestAscii(p, HashBefore(rows, i) + p.canonical(e));
    case None =>
  }

  lemma DigestAscii(p: Primitives, text: string)
    requires p.Hex()
    ensures Ascii(p.sha3(text))
  {
  }

  lemma ZerosAscii()
    ensures Ascii(Zeros(64))
  {
  }

  lemma OneLongest(p: Primitives, rows: seq<AuditRow>, n: nat)
    requires IsLongest(p, rows, n)
    ensures forall m: nat :: IsLongest(p, rows, m) ==> m == n
  {
    forall m: nat | IsLongest(p, rows, m)
      ensures m == n
    {
      assert ValidChain(p, rows[..m]) && ValidChain(p, rows[..n]);
    }
  }

  lemma LongestPrefix(p: Primitives, rows: seq<AuditRow>, n: nat)
    requires n <= |rows|
    requires forall i :: 0 <= i < n ==> Linked(p, rows, i)
    requires n < |rows| ==> !Linked(p, rows, n)
    ensures IsLongest(p, rows, n)
  {
    forall k | 0 <= k <= |rows|
      ensures ValidChain(p, rows[..k]) <==> k <= n
    {
      PrefixLinks(p, rows, k);
      if n < k {
        assert !Linked(p, rows[..k], n);
      }
    }
  }

  lemma PrefixLinks(p: Primitives, rows: seq<AuditRow>, k: nat)
    requires k <= |rows|
    ensures forall i :: 0 <= i < k ==> Linked(p, rows[..k], i) == Linked(p, rows, i)
  {
  }

  /** Whatever the writer appends, the verifier accepts. */
  lemma AppendKeepsValid(p: Primitives, rows: seq<AuditRow>, operation: string, recordId: string, event: Event,
      nonce: string)
    requires p.Sound()
    requires ValidChain(p, rows)
    ensures ValidChain(p, Append(p, rows, operation, recordId, event, nonce))
    ensures Events(p, Append(p, rows, operation, recordId, event, nonce))
         == Events(p, rows) + [Some(AuditClear(operation, recordId, event))]
  {
    var longer := Append(p, rows, operation, recordId, event, nonce);
    assert longer[..|rows|] == rows;
    PrefixLinks(p, longer, |rows|);
    assert Linked(p, longer, |rows|);
  }

  /** The text whose hash a row stores. */
  function LinkText(p: Primitives, rows: seq<AuditRow>, i: nat): string
    requires i < |rows| && Opened(p, rows[i]).Some?
  {
    Before(rows, i) + p.canonical(Opened(p, rows[i]).value)
  }

  /** Row `i` of one chain and row `j` of another hash different texts to one value. */
  predicate LinksCollide(p: Primitives, a: seq<AuditRow>, i: nat, b: seq<AuditRow>, j: nat) {
    && i < |a| && j < |b| && Opened(p, a[i]).Some? && Opened(p, b[j]).Some?
    && LinkText(p, a, i) != LinkText(p, b, j) && p.sha3(LinkText(p, a, i)) == p.sha3(LinkText(p, b, j))
  }

  /** The rows of the two chains themselves exhibit a SHA3-256 collision. */
  ghost predicate ChainsCollide(p: Primitives, a: seq<AuditRow>, b: seq<AuditRow>) {
    exists i: nat, j: nat :: LinksCollide(p, a, i, b, j)
  }

  /** A row's hash is the genesis value. */
  predicate HitsGenesis(rows: seq<AuditRow>) { exists i :: 0 <= i < |rows| && rows[i].eventHash == GENESIS }

  /** A head pins down its whole history: two verifying chains with one head carry the same
      events in the same order, or two of their own rows collide, or one of their rows hashes
      to the genesis value. */
  lemma {:induction false} HeadPinsHistory(p: Primitives, a: seq<AuditRow>, b: seq<AuditRow>)
    requires p.Hex()
    requires forall e, f :: p.canonical(e) == p.canonical(f) ==> e == f
    requires ValidChain(p, a) && ValidChain(p, b)
    requires Head(a) == Head(b)
    ensures Events(p, a) == Events(p, b) || ChainsCollide(p, a, b) || HitsGenesis(a) || HitsGenesis(b)
  {
    if a == [] || b == [] {
      if a != [] {
        assert a[|a| - 1].eventHash == GENESIS;
      } else if b != [] {
        assert b[|b| - 1].eventHash == GENESIS;
      }
    } else {
      var m, n := |a| - 1, |b| - 1;
      LastLink(p, a);
      LastLink(p, b);
      SameLink(p, a, b);
      if !LinksCollide(p, a, m, b, n) {
        HeadPinsHistory(p, a[..m], b[..n]);
        EvidenceGrows(p, a, m, b, n);
      }
    }
  }

  /** What prefixes exhibit, the whole chains exhibit. */
  lemma EvidenceGrows(p: Primitives, a: seq<AuditRow>, m: nat, b: seq<AuditRow>, n: nat)
    requires m <= |a| && n <= |b|
    ensures ChainsCollide(p, a[..m], b[..n]) ==> ChainsCollide(p, a, b)
    ensures HitsGenesis(a[..m]) ==> HitsGenesis(a)
    ensures HitsGenesis(b[..n]) ==> HitsGenesis(b)
  {
    forall i: nat, j: nat | LinksCollide(p, a[..m], i, b[..n], j)
      ensures LinksCollide(p, a, i, b, j)
    {
    }
    forall i | 0 <= i < m && a[..m][i].eventHash == GENESIS
      ensures HitsGenesis(a)
    {
      assert a[i].eventHash == GENESIS;
    }
    forall j | 0 <= j < n && b[..n][j].eventHash == GENESIS
      ensures HitsGenesis(b)
    {
      assert b[j].eventHash == GENESIS;
    }
  }

  /** What the last row of a valid chain tells about the rows before it. */
  lemma LastLink(p: Primitives, rows: seq<AuditRow>)
    requires p.Hex()
    requires rows != [] && ValidChain(p, rows)
    ensures ValidChain(p, rows[..|rows| - 1])
    ensures Before(rows, |rows| - 1) == Head(rows[..|rows| - 1]) && |Before(rows, |rows| - 1)| == 64
    ensures Linked(p, rows, |rows| - 1)
    ensures Events(p, rows) == Events(p, rows[..|rows| - 1]) + [Opened(p, rows[|rows| - 1])]
  {
    var last := |rows| - 1;
    PrefixLinks(p, rows, last);
    assert Linked(p, rows, last);
    if last > 0 {
      assert Linked(p, rows, last - 1);
    }
  }

  /** Last rows with one hash were made from the same predecessor and event, or collide. */
  lemma SameLink(p: Primitives, a: seq<AuditRow>, b: seq<AuditRow>)
    requires a != [] && b != [] && Head(a) == Head(b)
    requires Linked(p, a, |a| - 1) && Linked(p, b, |b| - 1)
    requires |Before(a, |a| - 1)| == |Before(b, |b| - 1)|
    requires forall e, f :: p.canonical(e) == p.canonical(f) ==> e == f
    ensures LinksCollide(p, a, |a| - 1, b, |b| - 1)
         || (Before(a, |a| - 1) == Before(b, |b| - 1) && Opened(p, a[|a| - 1]) == Opened(p, b[|b| - 1]))
  {
    var m, n := |a| - 1, |b| - 1;
    var x, y := LinkText(p, a, m), LinkText(p, b, n);
    if x == y {
      var w := |Before(a, m)|;
      assert Before(a, m) == x[..w] == y[..w] == Before(b, n);
      assert p.canonical(Opened(p, a[m]).value) == x[w..] == y[w..] == p.canonical(Opened(p, b[n]).value);
    }
  }

  /** The other way round: one history leads to one head, row by row. */
  lemma {:induction false} HistoryPinsHead(p: Primitives, a: seq<AuditRow>, b: seq<AuditRow>)
    requires p.Hex()
    requires ValidChain(p, a) && ValidChain(p, b)
    requires Events(p, a) == Events(p, b)
    ensures Head(a) == Head(b)
    decreases |a|
  {
    assert |a| == |Events(p, a)| == |b|;
    if a != [] {
      var n := |a| - 1;
      LastLink(p, a);
      LastLink(p, b);
      assert Events(p, a)[n] == Events(p, b)[n];
      assert Events(p, a[..n]) == Events(p, a)[..n] == Events(p, b)[..n] == Events(p, b[..n]);
      HistoryPinsHead(p, a[..n], b[..n]);
    }
  }
}
