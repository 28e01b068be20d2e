/** The provider vault: key buffers in memory, files on disk, one map of readable values. */
module Vault {
  import opened Prelude
  import opened VaultModel

  const SESSION_TTL := 1800

  /** `_zero`. */
  method Zero(buffer: array<Byte>)
    modifies buffer
    ensures Zeroed(buffer)
  {
    for i := 0 to buffer.Length
      invariant forall j :: 0 <= j < i ==> buffer[j] == 0
    {
      buffer[i] := 0;
    }
  }

  method Buffer(bytes: Bytes) returns (buffer: array<Byte>)
    ensures fresh(buffer) && buffer[..] == bytes
  {
    buffer := new Byte[|bytes|];
    for i := 0 to |bytes|
      invariant buffer[..i] == bytes[..i]
    {
      buffer[i] := bytes[i];
    }
    assert buffer[..] == buffer[..|bytes|] && bytes[..|bytes|] == bytes;
  }

  method ZeroAll(buffers: map<nat, array<Byte>>)
    modifies set id | id in buffers :: buffers[id]
    ensures forall id :: id in buffers ==> Zeroed(buffers[id])
  {
    var rest := buffers.Keys;
    while rest != {}
      invariant rest <= buffers.Keys
      invariant forall id :: id in buffers.Keys - rest ==> Zeroed(buffers[id])
      decreases rest
    {
      var id :| id in rest;
      Zero(buffers[id]);
      rest := rest - {id};
    }
  }

  ghost predicate Zeroed(buffer: array<Byte>)
    reads buffer
  {
    forall i :: 0 <= i < buffer.Length ==> buffer[i] == 0
  }

  /** One fresh buffer per key. */
  method CopyKeys(keys: map<nat, Bytes>) returns (buffers: map<nat, array<Byte>>)
    ensures buffers.Keys == keys.Keys
    ensures forall id :: id in buffers ==> fresh(buffers[id]) && buffers[id][..] == keys[id]
    ensures forall a, b :: a in buffers && b in buffers && a != b ==> buffers[a] != buffers[b]
  {
    buffers := map[];
    var rest := keys.Keys;
    while rest != {}
      invariant rest <= keys.Keys && buffers.Keys == keys.Keys - rest
      invariant forall id :: id in buffers ==> fresh(buffers[id]) && buffers[id][..] == keys[id]
      invariant forall a, b :: a in buffers && b in buffers && a != b ==> buffers[a] != buffers[b]
      decreases rest
    {
      var id :| id in rest;
      var buffer := Buffer(keys[id]);
      buffers := buffers[id := buffer];
      rest := rest - {id};
    }
  }

  /** Fresh key material, as `os.urandom` would give it. */
  datatype Material = Material(salt: Bytes, root: Bytes, device: Bytes, index: Bytes, data: Bytes)

  predicate FullLength(m: Material) { |m.root| == |m.device| == |m.index| == |m.data| == KEY_BYTES }

  class SecureVault {
    const c: Crypto
    var rootKey: array?<Byte>
    var indexKey: array?<Byte>
    var dataKeys: map<nat, array<Byte>>
    var active: Option<nat>
    var sessions: map<string, int>
    var disk: Disk

    // What the files are known to hold, whether or not the vault is unlocked.
    ghost var password: string
    ghost var root: Bytes
    ghost var ring: Keyring
    ghost var contents: Contents

    ghost function Buffers(): set<object>
      reads this`rootKey, this`indexKey, this`dataKeys
    {
      (if rootKey != null then {rootKey} else {}) + (if indexKey != null then {indexKey} else {})
      + set id | id in dataKeys :: dataKeys[id]
    }

    /** The key buffers are separate objects, so zeroing one never touches another. */
    ghost predicate Separate()
      reads this`rootKey, this`indexKey, this`dataKeys
    {
      && (rootKey != null ==> rootKey != indexKey && forall id :: id in dataKeys ==> dataKeys[id] != rootKey)
      && (indexKey != null ==> forall id :: id in dataKeys ==> dataKeys[id] != indexKey)
      && (forall a, b :: a in dataKeys && b in dataKeys && a != b ==> dataKeys[a] != dataKeys[b])
    }

    /** Unlocked, the buffers hold the keyring that is on disk; locked, there are none. */
    ghost predicate InMemory()
      reads this`rootKey, this`indexKey, this`dataKeys, this`active, this`root, this`ring, Buffers()
    {
      if rootKey == null then indexKey == null && dataKeys == map[] && active == None
      else
        indexKey != null && active.Some? && rootKey[..] == root && Memory() == ring
    }

    ghost predicate Valid()
      reads this`rootKey, this`indexKey, this`dataKeys, this`active, Buffers()
      reads this`disk, this`password, this`root, this`ring, this`contents
    {
      OnDisk() && Separate() && InMemory()
    }

    ghost predicate OnDisk()
      reads this`disk, this`password, this`root, this`ring, this`contents
    {
      c.Ideal() && DiskHolds(c, disk, password, root, ring, contents)
    }

    constructor (c: Crypto)
      ensures this.c == c && disk == Disk(None, None, None, map[]) && Locked() && sessions == map[]
    {
      this.c := c;
      rootKey, indexKey, dataKeys, active := null, null, map[], None;
      sessions := map[];
      disk := Disk(None, None, None, map[]);
    }

    predicate Locked()
      reads this
    {
      rootKey == null && indexKey == null && dataKeys == map[] && active == None
    }

    /** Copy key material into fresh buffers, as the keyring loader does. */
    method Install(rootBytes: Bytes, indexBytes: Bytes, keys: map<nat, Bytes>, activeId: nat)
      modifies this`rootKey, this`indexKey, this`dataKeys, this`active
      ensures rootKey != null && indexKey != null && rootKey[..] == rootBytes && indexKey[..] == indexBytes
      ensures active == Some(activeId) && dataKeys.Keys == keys.Keys
      ensures forall id :: id in dataKeys ==> dataKeys[id][..] == keys[id]
      ensures Separate() && fresh(Buffers())
    {
      var rootBuffer := Buffer(rootBytes);
      var indexBuffer := Buffer(indexBytes);
      var buffers := CopyKeys(keys);
      rootKey, indexKey, dataKeys, active := rootBuffer, indexBuffer, buffers, Some(activeId);
    }

    /** The keyring the buffers spell out. */
    function Memory(): Keyring
      reads this`rootKey, this`indexKey, this`dataKeys, this`active, Buffers()
      requires indexKey != null && active.Some?
    {
      Keyring(indexKey[..], map id | id in dataKeys :: dataKeys[id][..], active.value)
    }

    /** The buffers of an open vault hold the keyring's index key and its active key. */
    lemma KeysInUse()
      requires InMemory() && rootKey != null && ring.active in ring.dataKeys
      ensures indexKey[..] == ring.indexKey && active == Some(ring.active)
      ensures dataKeys.Keys == ring.dataKeys.Keys && dataKeys[ring.active][..] == ring.dataKeys[ring.active]
    {
      assert Memory().dataKeys == ring.dataKeys && Memory().dataKeys.Keys == dataKeys.Keys;
    }

    method PersistKeyring(nonce: string)
      requires rootKey != null && indexKey != null && active.Some?
      modifies this`disk
      ensures Memory() == old(Memory())
      ensures disk == old(disk).(keyring := Some(SealWith(c, rootKey[..], KEYRING_AAD, nonce, Ring(old(Memory())))))
    {
      var keyring := Memory();
      disk := disk.(keyring := Some(SealWith(c, rootKey[..], KEYRING_AAD, nonce, Ring(keyring))));
      assert Memory() == keyring;
    }

    /** The second half of `create`: the keyring and an empty records file. */
    method WriteFiles(password: string, passwordRequired: bool, m: Material, nonce: string)
      requires c.Ideal() && FullLength(m) && |password| >= 12
      requires rootKey != null && indexKey != null && active.Some? && rootKey[..] == m.root
      requires Memory() == Keyring(m.index, map[1 := m.data], 1)
      requires disk.header == Some(NewHeader(c, password, passwordRequired, m.salt, m.root, m.device, nonce)) &&
          disk.deviceKey == Some(m.device)
      modifies this`disk, this`password, this`root, this`ring, this`contents
      ensures OnDisk() && InMemory() && contents == map[] && this.password == password
    {
      PersistKeyring(nonce);
      disk := disk.(records := map[]);
      this.password, root, ring, contents := password, m.root, Keyring(m.index, map[1 := m.data], 1), map[];
      assert Memory() == old(Memory());
      NewDiskHolds(c, disk, password, passwordRequired, m.salt, m.root, m.device, ring, nonce);
    }

    method SetUp(password: string, passwordRequired: bool, m: Material, nonce: string)
      requires FullLength(m) && c.Ideal() && |password| >= 12
      modifies this`disk, this`password, this`root, this`ring, this`contents
      modifies this`rootKey, this`indexKey, this`dataKeys, this`active
      ensures Valid() && rootKey != null && contents == map[] && this.password == password && fresh(Buffers())
    {
      disk := disk.(header :=
          Some(NewHeader(c, password, passwordRequired, m.salt, m.root, m.device, nonce)), deviceKey := Some(m.device));
      Install(m.root, m.index, map[1 := m.data], 1);
      assert Memory().dataKeys == map[1 := m.data];
      WriteFiles(password, passwordRequired, m, nonce);
    }

    /** A vault is created once, empty and unlocked. */
    method Create(password: string, passwordRequired: bool, m: Material, nonce: string, token: string, now: int)
        returns (r: Result<string>)
      requires FullLength(m) && c.Ideal() && Locked()
      modifies this
      ensures (old(disk.header).Some? || |password| < 12) <==> r == Err
      ensures r == Err ==> unchanged(this)
      ensures r.Ok? ==> Valid() && rootKey != null && contents == map[] && this.password == password && fresh(Buffers())
      ensures r.Ok? ==> r == Ok(token) && sessions == old(sessions)[token := now + SESSION_TTL]
    {
      if disk.header.Some? || |password| < 12 {
        return Err;
      }
      SetUp(password, passwordRequired, m, nonce);
      sessions := sessions[token := now + SESSION_TTL];
      r := Ok(token);
    }

    /** Forget everything secret; the files keep what they hold. */
    method Lock()
      requires Separate()
      modifies this`sessions, this`rootKey, this`indexKey, this`dataKeys, this`active, Buffers()
      ensures Locked() && sessions == map[]
      ensures old(rootKey) != null ==> Zeroed(old(rootKey))
      ensures old(indexKey) != null ==> Zeroed(old(indexKey))
      ensures forall id :: id in old(dataKeys) ==> Zeroed(old(dataKeys)[id])
    {
      sessions := map[];
      if rootKey != null {
        Zero(rootKey);
      }
      if indexKey != null {
        Zero(indexKey);
      }
      ZeroAll(dataKeys);
      rootKey, indexKey, dataKeys, active := null, null, map[], None;
    }

    /** The keyring a root key opens, if it is usable. */
    function Loadable(bytes: Bytes): Option<Keyring>
      reads this`disk
    {
      if |bytes| != KEY_BYTES || disk.keyring.None? then None
      else match OpenWith(c, bytes, KEYRING_AAD, disk.keyring.value)
        case Some(Ring(loaded)) =>
          if |loaded.indexKey| == KEY_BYTES && loaded.active in loaded.dataKeys then Some(loaded) else None
        case _ => None
    }

    /** `_install_root_key` and `_load_keyring`: from a root key to working buffers, or locked. */
    method InstallRoot(bytes: Bytes) returns (ok: bool)
      requires Separate()
      modifies this`sessions, this`rootKey, this`indexKey, this`dataKeys, this`active, Buffers()
      ensures ok <==> Loadable(bytes).Some?
      ensures ok ==>
          rootKey != null && rootKey[..] == bytes && indexKey != null && active.Some? &&
              Memory() == Loadable(bytes).value
      ensures ok ==> Separate() && fresh(Buffers()) && sessions == map[]
      ensures !ok ==>
          if |bytes| == KEY_BYTES then Locked() && sessions == map[] else unchanged(this) && unchanged(Buffers())
    {
      if |bytes| != KEY_BYTES {
        return false;
      }
      Lock();
      var loaded := Loadable(bytes);
      if loaded.None? {
        return false;
      }
      Install(bytes, loaded.value.indexKey, loaded.value.dataKeys, loaded.value.active);
      assert Memory().dataKeys == loaded.value.dataKeys;
      ok := true;
    }

    /** Unlocking succeeds exactly with a password that derives the same wrapping key. */
    method Unlock(password: string, token: string, now: int) returns (r: Result<string>)
      requires disk.header == None || Valid()
      modifies this`sessions, this`rootKey, this`indexKey, this`dataKeys, this`active, Buffers()
      ensures disk == old(disk) && contents == old(contents)
      ensures disk.header == None ==> r == Err
      ensures disk.header.Some? ==> Valid() && (r.Ok? <==> Opens(password))
      ensures r.Ok? ==>
          r == Ok(token) && rootKey != null && sessions == map[token := now + SESSION_TTL] && fresh(Buffers())
      ensures r.Err? ==> unchanged(this)
    {
      if disk.header.None? || |password| < 12 {
        return Err;
      }
      var header := disk.header.value;
      DiskOpens(c, disk, this.password, root, ring, contents, password);
      match OpenWith(c, c.derive(password, header.salt), PASSWORD_AAD, header.passwordRoot) {
        case Some(RootKey(bytes)) => r := Enter(bytes, token, now);
        case _ => r := Err;
      }
    }

    method Enter(bytes: Bytes, token: string, now: int) returns (r: Result<string>)
      requires Separate() && Loadable(bytes) == Some(ring) && bytes == root
      modifies this`sessions, this`rootKey, this`indexKey, this`dataKeys, this`active, Buffers()
      ensures Separate() && InMemory() && rootKey != null && fresh(Buffers())
      ensures r == Ok(token) && sessions == map[token := now + SESSION_TTL]
    {
      var _ := InstallRoot(bytes);
      sessions := sessions[token := now + SESSION_TTL];
      r := Ok(token);
    }

    /** A password long enough to be derived, whose derived key is the one in use. */
    ghost predicate Opens(password: string)
      reads this
      requires disk.header.Some?
    {
      |password| >= 12 && c.derive(password, disk.header.value.salt) == c.derive(this.password, disk.header.value.salt)
    }

    method UnlockWithDeviceKey(token: string, now: int) returns (r: Result<string>)
      requires Valid()
      modifies this`sessions, this`rootKey, this`indexKey, this`dataKeys, this`active, Buffers()
      ensures Valid() && contents == old(contents) && disk == old(disk)
      ensures r == Ok(token) && rootKey != null && sessions == map[token := now + SESSION_TTL] && fresh(Buffers())
    {
      DiskOpens(c, disk, password, root, ring, contents, "");
      match OpenWith(c, disk.deviceKey.value, DEVICE_AAD, disk.header.value.deviceRoot) {
        case Some(RootKey(bytes)) => r := Enter(bytes, token, now);
        case _ => r := Err;
      }
    }

    /** Expired sessions are dropped; a live one is extended by its use. */
    method ValidateSession(token: string, now: int) returns (ok: bool)
      modifies this`sessions
      ensures ok <==> token in old(sessions) && old(sessions)[token] > now
      ensures sessions == Touched(old(sessions), token, now)
    {
      sessions := map t | t in sessions && sessions[t] > now :: sessions[t];
      ok := token in sessions && sessions[token] > now;
      if ok {
        sessions := sessions[token := now + SESSION_TTL];
      }
    }

    /** Only what is unlocked can be read: the last value written under the name, or nothing. */
    method ReadRecord(name: string) returns (r: Result<Option<Value>>)
      requires Valid()
      ensures r.Ok? <==> rootKey != null
      ensures r.Ok? ==> ReadsAs(c, ring.indexKey, contents, name, r.value)
    {
      if indexKey == null {
        return Err;
      }
      ghost var found := ReadHolds(c, ring, disk.records, contents, name);
      var id := c.mac(indexKey[..], name);
      if id !in disk.records {
        return Ok(None);
      }
      var value := DecryptRecord(c, Memory().dataKeys, id, disk.records[id]);
      r := if value.Ok? then Ok(Some(value.value)) else Err;
    }

    /** Replacing the records file. */
    method SaveRecords(records: map<string, Envelope>, ghost held: Contents)
      requires c.Ideal() && Separate() && InMemory()
      requires DiskHolds(c, disk.(records := records), password, root, ring, held)
      modifies this`disk, this`contents
      ensures Valid() && disk == old(disk).(records := records) && contents == held
    {
      disk := disk.(records := records);
      contents := held;
    }

    method WriteRecord(name: string, value: Value, nonce: string) returns (ok: bool)
      requires Valid()
      modifies this`disk, this`contents
      ensures Valid() && (ok <==> rootKey != null)
      ensures contents == if ok then Without(c, ring.indexKey, old(contents), name)[name := value] else old(contents)
      ensures disk == old(disk).(records := disk.records) && (!ok ==> disk == old(disk))
    {
      if indexKey == null || active.None? {
        return false;
      }
      KeysInUse();
      WriteKeepsDisk(c, disk, password, root, ring, contents, name, value, nonce);
      var id := c.mac(indexKey[..], name);
      var e := EncryptRecord(c, dataKeys[active.value][..], active.value, id, name, value, nonce);
      SaveRecords(disk.records[id := e], Without(c, ring.indexKey, contents, name)[name := value]);
      ok := true;
    }

    method RemoveRecord(name: string) returns (ok: bool)
      requires Valid()
      modifies this`disk, this`contents
      ensures Valid() && (ok <==> rootKey != null)
      ensures contents == if ok then Without(c, ring.indexKey, old(contents), name) else old(contents)
      ensures disk == old(disk).(records := disk.records) && (!ok ==> disk == old(disk))
    {
      if indexKey == null {
        return false;
      }
      KeysInUse();
      DeleteKeepsDisk(c, disk, password, root, ring, contents, name);
      SaveRecords(disk.records - {c.mac(indexKey[..], name)}, Without(c, ring.indexKey, contents, name));
      ok := true;
    }

    /** The first half of a rotation: a new active key beside the old ones, and every record
        re-encrypted under it. The old buffers are shared with the map, not copied. */
    method Reseal(newKey: Bytes, nonces: string -> string)
        returns (newId: nat, records: map<string, Envelope>, buffer: array<Byte>)
      requires Valid() && rootKey != null && |newKey| == KEY_BYTES
      modifies this`dataKeys, this`active
      ensures newId == ring.active + 1 && fresh(buffer) && buffer[..] == newKey
      ensures dataKeys == old(dataKeys)[newId := buffer] && active == Some(newId)
      ensures RecordsHold(c, Keyring(ring.indexKey, map[newId := newKey], newId), records, contents)
      ensures Providers(records) == Providers(disk.records)
    {
      newId := NextId(dataKeys.Keys);
      assert ring.dataKeys.Keys == dataKeys.Keys == {ring.active};
      buffer := Buffer(newKey);
      dataKeys := dataKeys[newId := buffer];
      active := Some(newId);
      var keys := Memory().dataKeys;
      DecryptsAlike(c, ring, keys, disk.records, contents);
      var clears := DecryptAll(c, keys, disk.records);
      records := EncryptAll(c, clears.value, disk.records, dataKeys[newId][..], newId, nonces);
      ReencryptedHolds(c, ring, Keyring(ring.indexKey, map[newId := newKey], newId), disk.records, contents,
          clears.value, nonces);
    }

    /** The files once the keyring `next` is persisted. */
    ghost function Rekeyed(nonce: string, next: Keyring): Disk
      reads this`disk, this`root
    {
      disk.(keyring := Some(SealWith(c, root, KEYRING_AAD, nonce, Ring(next))))
    }

    /** The records file is replaced first; it will be right once the keyring is. */
    method Rewrite(newKey: Bytes, nonces: string -> string, nonce: string)
        returns (newId: nat, buffer: array<Byte>)
      requires Valid() && rootKey != null && |newKey| == KEY_BYTES
      modifies this`dataKeys, this`active, this`disk
      ensures newId == ring.active + 1 && fresh(buffer) && buffer[..] == newKey
      ensures dataKeys == old(dataKeys)[newId := buffer] && active == Some(newId)
      ensures var next := Keyring(ring.indexKey, map[newId := newKey], newId);
        DiskHolds(c, Rekeyed(nonce, next), password, root, next, contents)
      ensures disk == old(disk).(records := disk.records) && Providers(disk.records) == old(Providers(disk.records))
    {
      var records;
      newId, records, buffer := Reseal(newKey, nonces);
      RekeyedDiskHolds(c, disk, password, root, ring, Keyring(ring.indexKey, map[newId := newKey], newId), contents,
                       records, nonce);
      disk := disk.(records := records);
    }

    /** The old buffers are zeroed and dropped. */
    method DropKeys(retired: map<nat, array<Byte>>, newId: nat, buffer: array<Byte>)
      requires newId !in retired && dataKeys == retired[newId := buffer] && Separate()
      modifies this`dataKeys, set id | id in retired :: retired[id]
      ensures dataKeys == map[newId := buffer] && buffer[..] == old(buffer[..]) && Separate()
      ensures forall id :: id in retired ==> Zeroed(retired[id])
      ensures rootKey != null ==> rootKey[..] == old(rootKey[..])
      ensures indexKey != null ==> indexKey[..] == old(indexKey[..])
    {
      assert forall id :: id in retired ==> id in dataKeys && dataKeys[id] == retired[id];
      assert newId in dataKeys && dataKeys[newId] == buffer;
      ZeroAll(retired);
      dataKeys := dataKeys - retired.Keys;
      assert dataKeys == map[newId := buffer];
    }

    /** The second half: the old keys are dropped and the keyring persisted. */
    method Retire(retired: map<nat, array<Byte>>, newId: nat, buffer: array<Byte>, nonce: string)
      requires rootKey != null && indexKey != null && active == Some(newId) && rootKey[..] == root &&
          indexKey[..] == ring.indexKey
      requires newId !in retired && dataKeys == retired[newId := buffer] && Separate()
      modifies this`dataKeys, this`disk, this`ring, set id | id in retired :: retired[id]
      ensures dataKeys == map[newId := buffer] && buffer[..] == old(buffer[..])
      ensures ring == Keyring(old(ring).indexKey, map[newId := buffer[..]], newId)
      ensures Separate() && InMemory()
      ensures forall id :: id in retired ==> Zeroed(retired[id])
      ensures disk == old(disk).(keyring := Some(SealWith(c, root, KEYRING_AAD, nonce, Ring(ring))))
    {
      DropKeys(retired, newId, buffer);
      assert Memory().dataKeys == map[newId := buffer[..]];
      PersistKeyring(nonce);
      ring := Keyring(ring.indexKey, map[newId := buffer[..]], newId);
    }

    /** At any time, locked or not, every envelope names the one key of the keyring, which an
        open vault has as its active key. */
    lemma EnvelopesNameActiveKey()
      requires Valid()
      ensures forall id :: id in disk.records ==> disk.records[id].keyId == ring.active
      ensures ring.dataKeys.Keys == {ring.active} && (rootKey != null ==> active == Some(ring.active))
    {
      AllNameActive(c, ring, disk.records, contents);
    }

    /** A completed rotation changes no readable value and no provider; the one key left is
        new, and the old key bytes are gone. `live` is what `ValidateSession` said about the
        caller's token. */
    method RotateDataKey(live: bool, newKey: Bytes, nonces: string -> string, nonce: string) returns (r: Result<nat>)
      requires Valid() && |newKey| == KEY_BYTES
      modifies this`dataKeys, this`active, this`disk, this`ring, Buffers()
      ensures Valid() && contents == old(contents)
      ensures r.Ok? <==> live && rootKey != null
      ensures r.Err? ==> unchanged(this)
      ensures disk.header == old(disk.header) && ring.indexKey == old(ring.indexKey)
      ensures r.Ok? ==> Providers(disk.records) == old(Providers(disk.records))
      ensures r.Ok? ==>
          r.value == old(ring.active) + 1 && active == Some(r.value) && dataKeys.Keys == {r.value} &&
              dataKeys[r.value][..] == newKey
      ensures r.Ok? ==> fresh(dataKeys[r.value]) && forall id :: id in old(dataKeys) ==> Zeroed(old(dataKeys)[id])
    {
      if !live || rootKey == null {
        return Err;
      }
      var oldKeys := dataKeys;
      KeysInUse();
      var newId, buffer := Rewrite(newKey, nonces, nonce);
      ghost var final := Rekeyed(nonce, Keyring(ring.indexKey, map[newId := newKey], newId));
      Retire(oldKeys, newId, buffer, nonce);
      assert disk == final;
      r := Ok(newId);
    }
  }

  /** `max(keys, default=0) + 1`. */
  method NextId(ids: set<nat>) returns (next: nat)
    ensures forall id :: id in ids ==> id < next
    ensures ids == {} ==> next == 1
    ensures next == 1 || next - 1 in ids
  {
    next := 1;
    var rest := ids;
    while rest != {}
      invariant rest <= ids && (forall k :: k in ids && k !in rest ==> k < next)
      invariant next == 1 || next - 1 in ids
      decreases rest
    {
      var id :| id in rest;
      if id >= next {
        next := id + 1;
      }
      rest := rest - {id};
    }
  }

  /** The session table after a token is presented. */
  function Touched(sessions: map<string, int>, token: string, now: int): map<string, int> {
    var live := map t | t in sessions && sessions[t] > now :: sessions[t];
    if token in live then live[token := now + SESSION_TTL] else live
  }
}
