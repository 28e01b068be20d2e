/** The entities of the encrypted store and the library calls it is built on. */
module Records {
  import opened Prelude

  const STORE_FORMAT := "cyberforge-encrypted-sqlite-v1"
  const KEY_VERSION := "1"

  /** A number is its decimal text. */
  datatype Json =
    | Null
    | Bool(b: bool)
    | Num(decimal: string)
    | Str(s: string)
    | Arr(items: seq<Json>)
    | Obj(fields: map<string, Json>)

  type Metadata = map<string, Json>

  /** The part of a record that is stored only as ciphertext. */
  datatype Clear = Clear(title: string, summary: string, tags: seq<string>, metadata: Metadata, payload: Json)

  datatype StoredRecord = StoredRecord(
    recordId: string, recordType: string, createdAt: int, updatedAt: int, truthLabel: string,
    validationStatus: string, digest: string, scopeHash: string, clear: Clear)

  /** A row of the `records` table. */
  datatype Row = Row(
    recordType: string, createdAt: int, updatedAt: int, truthLabel: string, validationStatus: string,
    scopeHash: string, digest: string, keyVersion: string, nonce: string, ciphertext: string, deleted: bool)

  datatype Operation = Upsert | Delete

  /** A row of the `sync_queue` table. */
  datatype QueueEntry = QueueEntry(operation: Operation, attempts: nat, failed: bool, queuedAt: int)

  datatype Event = PutEvent(recordType: string, digest: string, updatedAt: int) | DeleteEvent(deletedAt: int)

  /** The encrypted half of an audit row. */
  datatype AuditClear = AuditClear(operation: string, recordId: string, event: Event)

  /** A row of the `audit_chain` table, in sequence order. */
  datatype AuditRow = AuditRow(
    operation: string, recordId: string, previousHash: string, eventHash: string, nonce: string, ciphertext: string)

  /** The four tables. The token table's weight column is always 1.0 and is not kept. */
  datatype Tables = Tables(
    records: map<string, Row>,
    tokens: set<(string, string)>,
    queue: map<string, QueueEntry>,
    audit: seq<AuditRow>)

  /** The redacted object kept by the search index for one record. */
  datatype Projection = Projection(
    recordId: string, recordType: string, title: string, summary: string, truthLabel: string,
    validationStatus: string, scopeHash: string, digest: string, tags: seq<string>, createdAt: int,
    updatedAt: int, metadataJson: string, content: seq<real>, topology: seq<real>)

  /** What `_default_projection` derives from a payload. */
  datatype Derived = Derived(title: string, summary: string, tags: seq<string>, metadata: Metadata)

  predicate Ascii(s: string) { forall i :: 0 <= i < |s| ==> s[i] as int < 128 }

  /** Library calls, with their keys fixed. Sealing stands for canonical JSON followed by
      AES-256-GCM under one key; the first argument is the associated data. */
  datatype Primitives = Primitives(
    derive: (string, Json) -> Derived,
    seal: (string, string, Clear) -> string,
    open: (string, string, string) -> Option<Clear>,
    digest: Clear -> string,
    scopeHash: string -> string,
    sortedUnique: set<string> -> seq<string>,
    dump: Metadata -> string,
    tokens: string -> set<string>,
    blind: string -> string,
    features: string -> seq<real>,
    sha3: string -> string,
    canonical: AuditClear -> string,
    sealEvent: (string, string, AuditClear) -> string,
    openEvent: (string, string, string) -> Option<AuditClear>,
    strip: string -> string,
    lower: string -> string,
    parseTime: string -> Option<int>,
    roundedDays: int -> int,
    topTags: multiset<string> -> seq<string>,
    decimal: int -> string)
  {
    /** Decrypting what was encrypted, under the same associated data, gives it back. */
    ghost predicate Sound() {
      && (forall a, n, c :: open(a, n, seal(a, n, c)) == Some(c))
      && (forall a, n, e :: openEvent(a, n, sealEvent(a, n, e)) == Some(e))
    }

    /** Hex digests of 32 bytes. */
    ghost predicate Hex() { forall x :: |sha3(x)| == 64 && Ascii(sha3(x)) }

    /** A blank ends a word, as the word pattern has none. */
    ghost predicate Splits() { forall a, b :: tokens(a + " " + b) == tokens(a) + tokens(b) }

    /** `sorted(set(..))` loses and adds nothing. */
    ghost predicate Lists() { forall words, word :: word in sortedUnique(words) <==> word in words }

    /** AES-GCM rejects a record presented under any other associated data. */
    ghost predicate Authentic() {
      forall a, b, n, c :: a != b ==> open(b, n, seal(a, n, c)) == None
    }
  }

  /** What a caller passes to `put`; `None` and the empty string both ask for a derived value. */
  datatype Request = Request(
    recordType: string, payload: Json, recordId: string, scope: string, truthLabel: string,
    validationStatus: string, title: Option<string>, summary: Option<string>, tags: seq<string>,
    metadata: Metadata)

  function Fallback(given: Option<string>, derived: string): string {
    if given.Some? && given.value != "" then given.value else derived
  }

  function Join(parts: seq<string>): string {
    if parts == [] then "" else if |parts| == 1 then parts[0] else parts[0] + " " + Join(parts[1..])
  }

  function ClearOf(p: Primitives, req: Request): Clear {
    var derived := p.derive(req.recordType, req.payload);
    Clear(
      Take(Fallback(req.title, derived.title), 240),
      Take(Fallback(req.summary, derived.summary), 8000),
      p.sortedUnique(set tag | tag in derived.tags + req.tags && tag != "" :: Take(tag, 96)),
      derived.metadata + req.metadata,
      req.payload)
  }

  function RecordAad(recordId: string, recordType: string, keyVersion: string): string {
    STORE_FORMAT + ":" + recordId + ":" + recordType + ":" + keyVersion
  }

  /** The text whose tokens are blinded when a record is written. */
  function SearchText(p: Primitives, recordType: string, truthLabel: string, validationStatus: string,
      clear: Clear): string {
    Join([recordType, truthLabel, validationStatus, clear.title, clear.summary] + clear.tags + [p.dump(clear.metadata)])
  }

  /** The tokens a plain scan would see in a decrypted record. */
  function RecordTokens(p: Primitives, r: StoredRecord): set<string> {
    p.tokens(SearchText(p, r.recordType, r.truthLabel, r.validationStatus, r.clear))
  }

  /** `_decode_row`: decrypt a row and check its digest. */
  function Decode(p: Primitives, recordId: string, row: Row): Result<StoredRecord> {
    match p.open(RecordAad(recordId, row.recordType, row.keyVersion), row.nonce, row.ciphertext)
    case None => Err
    case Some(clear) =>
      if p.digest(clear) != row.digest then Err
      else Ok(StoredRecord(recordId, row.recordType, row.createdAt, row.updatedAt, row.truthLabel,
                           row.validationStatus, row.digest, row.scopeHash, clear))
  }

  /** The object `upsert` inserts for a record. */
  function Project(p: Primitives, r: StoredRecord): Projection {
    var c := r.clear;
    Projection(r.recordId, r.recordType, c.title, c.summary, r.truthLabel, r.validationStatus, r.scopeHash,
               r.digest, c.tags, r.createdAt, r.updatedAt, Take(p.dump(c.metadata), 12000),
               p.features(Join([r.recordType, c.title, c.summary, r.truthLabel, r.validationStatus] + c.tags +
                   [p.dump(c.metadata)])),
               p.features(Join([r.recordType, c.title] + c.tags + [p.dump(c.metadata)])))
  }

  /** Field widths the row does not cut; see `StoreInvariant.PutIsReadable`. */
  predicate FitsColumns(req: Request) {
    |req.recordType| <= 96 && |req.truthLabel| <= 160 && |req.validationStatus| <= 64
  }
}
