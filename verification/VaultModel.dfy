/** What the provider vault keeps on disk, and what makes it a map from names to values. */
module VaultModel {
  import opened Prelude

  type Byte = x: int | 0 <= x < 256
  type Bytes = seq<Byte>

  const VAULT_FORMAT := "cyberforge-provider-vault-v3"
  const KEY_BYTES := 32

  datatype Value = Secret(secret: string, updatedAt: int) | Document(json: string)

  /** The authenticated keyring. */
  datatype Keyring = Keyring(indexKey: Bytes, dataKeys: map<nat, Bytes>, active: nat)

  datatype Clear = RootKey(key: Bytes) | Ring(ring: Keyring) | Item(item: Value)

  datatype Sealed = Sealed(nonce: string, ciphertext: string)

  datatype Envelope = Envelope(keyId: nat, body: Sealed, name: string)

  datatype Header = Header(passwordRequired: bool, salt: Bytes, passwordRoot: Sealed, deviceRoot: Sealed)

  /** The vault's files; a missing records file reads as no records. */
  datatype Disk = Disk(
    header: Option<Header>, deviceKey: Option<Bytes>, keyring: Option<Sealed>, records: map<string, Envelope>)

  /** Library calls: AES-256-GCM over canonical JSON, Argon2id, keyed BLAKE2b. */
  datatype Crypto = Crypto(
    seal: (Bytes, string, string, Clear) -> string,
    open: (Bytes, string, string, string) -> Option<Clear>,
    derive: (string, Bytes) -> Bytes,
    mac: (Bytes, string) -> string,
    decimal: nat -> string)
  {
    /** An authenticated cipher opens what was sealed, under the same key and data only. */
    ghost predicate Ideal() {
      && (forall k, a, n, c :: open(k, a, n, seal(k, a, n, c)) == Some(c))
      && (forall k, a, n, c, k', a' :: open(k', a', n, seal(k, a, n, c)).Some? ==> k' == k && a' == a)
    }
  }

  const PASSWORD_AAD := VAULT_FORMAT + ":password-root"
  const DEVICE_AAD := VAULT_FORMAT + ":device-root"
  const KEYRING_AAD := VAULT_FORMAT + ":keyring"

  function RecordAad(c: Crypto, recordId: string, keyId: nat): string {
    VAULT_FORMAT + ":" + recordId + ":" + c.decimal(keyId)
  }

  function SealWith(c: Crypto, key: Bytes, aad: string, nonce: string, clear: Clear): Sealed {
    Sealed(nonce, c.seal(key, aad, nonce, clear))
  }

  function OpenWith(c: Crypto, key: Bytes, aad: string, body: Sealed): Option<Clear> {
    c.open(key, aad, body.nonce, body.ciphertext)
  }

  function EncryptRecord(c: Crypto, key: Bytes, keyId: nat, recordId: string, name: string, value: Value,
      nonce: string): Envelope {
    Envelope(keyId, SealWith(c, key, RecordAad(c, recordId, keyId), nonce, Item(value)), name)
  }

  function DecryptRecord(c: Crypto, keys: map<nat, Bytes>, recordId: string, e: Envelope): Result<Value> {
    if e.keyId !in keys then Err
    else match OpenWith(c, keys[e.keyId], RecordAad(c, recordId, e.keyId), e.body)
      case Some(Item(value)) => Ok(value)
      case _ => Err
  }

  type Contents = map<string, Value>

  /** What is left when the record a name is filed under goes: every name but those with its
      keyed hash, which is itself alone unless the hash confuses it with another. */
  function Without(c: Crypto, key: Bytes, contents: Contents, name: string): Contents {
    map other | other in contents && c.mac(key, other) != c.mac(key, name) :: contents[other]
  }

  /** What a name reads as: the value of whatever is filed under its keyed hash. */
  ghost predicate ReadsAs(c: Crypto, key: Bytes, contents: Contents, name: string, found: Option<Value>) {
    && (found == None ==> forall other :: other in contents ==> c.mac(key, other) != c.mac(key, name))
    && (found.Some? ==>
          exists other :: other in contents && c.mac(key, other) == c.mac(key, name) && contents[other] == found.value)
  }

  /** Unless its hash is that of another name held, a name reads as itself. */
  lemma ReadsItself(c: Crypto, key: Bytes, contents: Contents, name: string, found: Option<Value>)
    requires ReadsAs(c, key, contents, name, found)
    requires forall other :: other in contents && c.mac(key, other) == c.mac(key, name) ==> other == name
    ensures found == if name in contents then Some(contents[name]) else None
    ensures Without(c, key, contents, name) == contents - {name}
  {
    if name in contents {
      assert c.mac(key, name) == c.mac(key, name);
    }
  }

  /** One envelope per name, filed under the name's keyed hash. */
  ghost predicate Filed(c: Crypto, key: Bytes, records: map<string, Envelope>, contents: Contents) {
    && (forall id :: id in records ==> records[id].name in contents && id == c.mac(key, records[id].name))
    && (forall name :: name in contents ==> c.mac(key, name) in records && records[c.mac(key, name)].name == name)
  }

  /** The envelopes hold exactly `contents`, each sealed under the single active key. */
  ghost predicate RecordsHold(c: Crypto, ring: Keyring, records: map<string, Envelope>, contents: Contents) {
    && Filed(c, ring.indexKey, records, contents)
    && (forall id :: id in records ==> Holds(c, ring, id, records[id], contents[records[id].name]))
  }

  ghost predicate Holds(c: Crypto, ring: Keyring, id: string, e: Envelope, value: Value) {
    e.keyId == ring.active && DecryptRecord(c, ring.dataKeys, id, e) == Ok(value)
  }

  /** One active key, and every key of full length. */
  predicate RingWellFormed(ring: Keyring) {
    && ring.dataKeys.Keys == {ring.active} && |ring.indexKey| == KEY_BYTES
    && |ring.dataKeys[ring.active]| == KEY_BYTES
  }

  /** The files alone hold `contents`: each wrapping leads to the root key, the root key to
      the keyring, and the keyring to every value. */
  ghost predicate DiskHolds(c: Crypto, disk: Disk, password: string, root: Bytes, ring: Keyring, contents: Contents) {
    && disk.header.Some? && disk.deviceKey.Some? && disk.keyring.Some?
    && |root| == KEY_BYTES && |password| >= 12
    && RootWrapped(c, disk.header.value, c.derive(password, disk.header.value.salt), disk.deviceKey.value, root)
    && disk.keyring.value.ciphertext == c.seal(root, KEYRING_AAD, disk.keyring.value.nonce, Ring(ring))
    && RingWellFormed(ring)
    && RecordsHold(c, ring, disk.records, contents)
  }

  ghost predicate RootWrapped(c: Crypto, h: Header, passwordKey: Bytes, deviceKey: Bytes, root: Bytes) {
    && h.passwordRoot.ciphertext == c.seal(passwordKey, PASSWORD_AAD, h.passwordRoot.nonce, RootKey(root))
    && h.deviceRoot.ciphertext == c.seal(deviceKey, DEVICE_AAD, h.deviceRoot.nonce, RootKey(root))
  }

  function NewHeader(c: Crypto, password: string, passwordRequired: bool, salt: Bytes, root: Bytes, device: Bytes,
      nonce: string): Header {
    Header(passwordRequired, salt, SealWith(c, c.derive(password, salt), PASSWORD_AAD, nonce, RootKey(root)),
           SealWith(c, device, DEVICE_AAD, nonce, RootKey(root)))
  }

  /** The files of a vault just created hold nothing yet. */
  lemma NewDiskHolds(c: Crypto, disk: Disk, password: string, passwordRequired: bool, salt: Bytes, root: Bytes,
      device: Bytes, ring: Keyring, nonce: string)
    requires |password| >= 12 && |root| == KEY_BYTES && RingWellFormed(ring)
    requires disk == Disk(Some(NewHeader(c, password, passwordRequired, salt, root, device, nonce)), Some(device),
                          Some(SealWith(c, root, KEYRING_AAD, nonce, Ring(ring))), map[])
    ensures DiskHolds(c, disk, password, root, ring, map[])
  {
  }

  /** Either wrapping opens to the root key, a wrong password to nothing, and the root key
      opens the keyring. */
  lemma DiskOpens(c: Crypto, disk: Disk, password: string, root: Bytes, ring: Keyring, contents: Contents,
      given: string)
    requires c.Ideal() && DiskHolds(c, disk, password, root, ring, contents)
    ensures OpenWith(c, disk.deviceKey.value, DEVICE_AAD, disk.header.value.deviceRoot) == Some(RootKey(root))
    ensures var h := disk.header.value;
      OpenWith(c, c.derive(given, h.salt), PASSWORD_AAD, h.passwordRoot)
      == if c.derive(given, h.salt) == c.derive(password, h.salt) then Some(RootKey(root)) else None
    ensures OpenWith(c, root, KEYRING_AAD, disk.keyring.value) == Some(Ring(ring))
    ensures |root| == KEY_BYTES && |ring.indexKey| == KEY_BYTES && ring.active in ring.dataKeys
  {
    var h := disk.header.value;
    assert c.open(c.derive(password, h.salt), PASSWORD_AAD, h.passwordRoot.nonce, h.passwordRoot.ciphertext) ==
        Some(RootKey(root));
  }

  // ---- record operations on values ----

  lemma WriteIsFiled(c: Crypto, key: Bytes, records: map<string, Envelope>, contents: Contents, name: string,
      value: Value, e: Envelope)
    requires Filed(c, key, records, contents) && e.name == name
    ensures Filed(c, key, records[c.mac(key, name) := e], Without(c, key, contents, name)[name := value])
  {
  }

  lemma SealedHolds(c: Crypto, ring: Keyring, id: string, name: string, value: Value, nonce: string)
    requires c.Ideal() && ring.active in ring.dataKeys
    ensures Holds(c, ring, id, EncryptRecord(c, ring.dataKeys[ring.active], ring.active, id, name, value, nonce), value)
  {
  }

  /** An envelope opens under its own record identifier and key only. */
  lemma MovedEnvelopeFails(c: Crypto, keys: map<nat, Bytes>, key: Bytes, keyId: nat, id: string, other: string,
      name: string, value: Value, nonce: string)
    requires c.Ideal() && (other != id || (keyId in keys && keys[keyId] != key))
    ensures DecryptRecord(c, keys, other, EncryptRecord(c, key, keyId, id, name, value, nonce)) == Err
  {
    if other != id {
      var before, after := VAULT_FORMAT + ":", ":" + c.decimal(keyId);
      assert RecordAad(c, id, keyId) == before + id + after && RecordAad(c, other, keyId) == before + other + after;
      if before + id + after == before + other + after {
        Sandwich(before, id, other, after);
      }
    }
  }

  lemma WriteHolds(c: Crypto, ring: Keyring, records: map<string, Envelope>, contents: Contents, name: string,
      value: Value, nonce: string)
    requires c.Ideal() && RingWellFormed(ring) && RecordsHold(c, ring, records, contents)
    ensures var id := c.mac(ring.indexKey, name);
      var envelope := EncryptRecord(c, ring.dataKeys[ring.active], ring.active, id, name, value, nonce);
      RecordsHold(c, ring, records[id := envelope], Without(c, ring.indexKey, contents, name)[name := value])
  {
    var id := c.mac(ring.indexKey, name);
    var envelope := EncryptRecord(c, ring.dataKeys[ring.active], ring.active, id, name, value, nonce);
    SealedHolds(c, ring, id, name, value, nonce);
    WriteIsFiled(c, ring.indexKey, records, contents, name, value, envelope);
  }

  lemma DeleteHolds(c: Crypto, ring: Keyring, records: map<string, Envelope>, contents: Contents, name: string)
    requires RecordsHold(c, ring, records, contents)
    ensures RecordsHold(c, ring, records - {c.mac(ring.indexKey, name)}, Without(c, ring.indexKey, contents, name))
  {
  }

  lemma ReadHolds(c: Crypto, ring: Keyring, records: map<string, Envelope>, contents: Contents, name: string)
      returns (found: Option<Value>)
    requires RecordsHold(c, ring, records, contents)
    ensures ReadsAs(c, ring.indexKey, contents, name, found)
    ensures var id := c.mac(ring.indexKey, name);
      if id in records then found.Some? && DecryptRecord(c, ring.dataKeys, id, records[id]) == Ok(found.value)
      else found == None
  {
    var id := c.mac(ring.indexKey, name);
    if id in records {
      assert Holds(c, ring, id, records[id], contents[records[id].name]);
      found := Some(contents[records[id].name]);
    } else {
      found := None;
    }
  }

  lemma WriteKeepsDisk(c: Crypto, disk: Disk, password: string, root: Bytes, ring: Keyring, contents: Contents,
      name: string, value: Value, nonce: string)
    requires c.Ideal() && DiskHolds(c, disk, password, root, ring, contents)
    ensures var id := c.mac(ring.indexKey, name);
      var envelope := EncryptRecord(c, ring.dataKeys[ring.active], ring.active, id, name, value, nonce);
      DiskHolds(c, disk.(records := disk.records[id := envelope]), password, root, ring,
                Without(c, ring.indexKey, contents, name)[name := value])
  {
    WriteHolds(c, ring, disk.records, contents, name, value, nonce);
  }

  lemma DeleteKeepsDisk(c: Crypto, disk: Disk, password: string, root: Bytes, ring: Keyring, contents: Contents,
      name: string)
    requires DiskHolds(c, disk, password, root, ring, contents)
    ensures DiskHolds(c, disk.(records := disk.records - {c.mac(ring.indexKey, name)}), password, root, ring,
                      Without(c, ring.indexKey, contents, name))
  {
    DeleteHolds(c, ring, disk.records, contents, name);
  }

  /** The names a vault lists as providers. */
  function Providers(records: map<string, Envelope>): set<string> {
    set id | id in records && "provider:" <= records[id].name :: records[id].name
  }

  /** The records after re-encryption under a new key. */
  function Reencrypted(c: Crypto, clears: map<string, Value>, records: map<string, Envelope>, key: Bytes, keyId: nat,
      nonces: string -> string): map<string, Envelope> {
    map id | id in records && id in clears :: EncryptRecord(c, key, keyId, id, records[id].name, clears[id], nonces(id))
  }

  lemma ReencryptedHolds(c: Crypto, ring: Keyring, ring': Keyring, records: map<string, Envelope>, contents: Contents,
      clears: map<string, Value>, nonces: string -> string)
    requires c.Ideal() && RecordsHold(c, ring, records, contents) && RingWellFormed(ring')
    requires ring'.indexKey == ring.indexKey
    requires clears.Keys == records.Keys && forall id :: id in records ==>
        DecryptRecord(c, ring.dataKeys, id, records[id]) == Ok(clears[id])
    ensures RecordsHold(c, ring', Reencrypted(c, clears, records, ring'.dataKeys[ring'.active], ring'.active, nonces),
        contents)
    ensures Providers(Reencrypted(c, clears, records, ring'.dataKeys[ring'.active], ring'.active, nonces)) ==
        Providers(records)
  {
    var out := Reencrypted(c, clears, records, ring'.dataKeys[ring'.active], ring'.active, nonces);
    assert out.Keys == records.Keys;
    forall id | id in records
      ensures Holds(c, ring', id, out[id], contents[records[id].name])
    {
      assert Holds(c, ring, id, records[id], contents[records[id].name]);
    }
  }

  method DecryptAll(c: Crypto, keys: map<nat, Bytes>, records: map<string, Envelope>)
      returns (r: Result<map<string, Value>>)
    ensures r.Ok? ==> r.value.Keys == records.Keys && forall id :: id in records ==>
        DecryptRecord(c, keys, id, records[id]) == Ok(r.value[id])
    ensures r.Err? ==> exists id :: id in records && DecryptRecord(c, keys, id, records[id]) == Err
  {
    var clears: map<string, Value> := map[];
    var rest := records.Keys;
    while rest != {}
      invariant rest <= records.Keys && clears.Keys == records.Keys - rest
      invariant forall id :: id in clears ==> DecryptRecord(c, keys, id, records[id]) == Ok(clears[id])
      decreases rest
    {
      var id :| id in rest;
      var clear := DecryptRecord(c, keys, id, records[id]);
      if clear.Err? {
        return Err;
      }
      clears := clears[id := clear.value];
      rest := rest - {id};
    }
    r := Ok(clears);
  }

  method EncryptAll(c: Crypto, clears: map<string, Value>, records: map<string, Envelope>, key: Bytes, keyId: nat,
      nonces: string -> string)
      returns (r: map<string, Envelope>)
    requires clears.Keys == records.Keys
    ensures r == Reencrypted(c, clears, records, key, keyId, nonces)
  {
    r := map[];
    var rest := records.Keys;
    while rest != {}
      invariant rest <= records.Keys && r.Keys == records.Keys - rest
      invariant forall id :: id in r ==>
          r[id] == EncryptRecord(c, key, keyId, id, records[id].name, clears[id], nonces(id))
      decreases rest
    {
      var id :| id in rest;
      r := r[id := EncryptRecord(c, key, keyId, id, records[id].name, clears[id], nonces(id))];
      rest := rest - {id};
    }
  }

  /** A key added beside the active one changes no decryption. */
  lemma DecryptsAlike(c: Crypto, ring: Keyring, keys: map<nat, Bytes>, records: map<string, Envelope>,
      contents: Contents)
    requires RecordsHold(c, ring, records, contents)
    requires ring.active in keys && ring.active in ring.dataKeys && keys[ring.active] == ring.dataKeys[ring.active]
    ensures forall id :: id in records ==>
        DecryptRecord(c, keys, id, records[id]) == DecryptRecord(c, ring.dataKeys, id, records[id])
    ensures forall id :: id in records ==> DecryptRecord(c, keys, id, records[id]).Ok?
  {
    forall id | id in records
      ensures DecryptRecord(c, keys, id, records[id]) == Ok(contents[records[id].name])
    {
      assert Holds(c, ring, id, records[id], contents[records[id].name]);
    }
  }

  lemma RekeyedDiskHolds(c: Crypto, disk: Disk, password: string, root: Bytes, ring: Keyring, ring': Keyring,
      contents: Contents, records: map<string, Envelope>, nonce: string)
    requires DiskHolds(c, disk, password, root, ring, contents)
    requires RingWellFormed(ring') && RecordsHold(c, ring', records, contents)
    ensures var sealed := SealWith(c, root, KEYRING_AAD, nonce, Ring(ring'));
      DiskHolds(c, disk.(records := records).(keyring := Some(sealed)), password, root, ring', contents)
  {
  }

  lemma AllNameActive(c: Crypto, ring: Keyring, records: map<string, Envelope>, contents: Contents)
    requires RecordsHold(c, ring, records, contents)
    ensures forall id :: id in records ==> records[id].keyId == ring.active
  {
    forall id | id in records
      ensures records[id].keyId == ring.active
    {
      assert Holds(c, ring, id, records[id], contents[records[id].name]);
    }
  }
}
