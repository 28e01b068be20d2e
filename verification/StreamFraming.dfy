/** Encrypted files (crypto.py): header, nonce, ciphertext and tag, written and read in
    chunks, and the packing of the recovery private key.

    AES-GCM is taken as sections 7.1 and 7.2 of NIST SP 800-38D build it: the plaintext is
    combined by exclusive or with a key stream, byte by byte, and the tag is computed over the
    associated data and the ciphertext. */
module StreamFraming {
  import opened Prelude

  type Bytes = seq<bv8>

  const TAG_BYTES := 16
  const NONCE_BYTES := 12

  /** "CYBERFORGE-AES-GCM-STREAM-v1" and a newline, in ASCII. */
  const MAGIC: Bytes := [
    67, 89, 66, 69, 82, 70, 79, 82, 71, 69, 45, 65, 69, 83, 45, 71, 67, 77, 45,
    83, 84, 82, 69, 65, 77, 45, 118, 49, 10]

  /** The key stream at a position, and the tag; both from key and nonce. */
  datatype Gcm = Gcm(keyStream: (Bytes, Bytes, nat) -> bv8, tag: (Bytes, Bytes, Bytes, Bytes) -> Bytes) {
    ghost predicate Sound() {
      forall key, nonce, aad, sealed :: |tag(key, nonce, aad, sealed)| == TAG_BYTES
    }

    /** Bytes combined with the key stream from a position on. */
    function Combine(key: Bytes, nonce: Bytes, position: nat, data: Bytes): Bytes {
      seq(|data|, i requires 0 <= i < |data| => data[i] ^ keyStream(key, nonce, position + i))
    }

    /** Combining is chunk by chunk. */
    lemma CombineChunks(key: Bytes, nonce: Bytes, position: nat, left: Bytes, right: Bytes)
      ensures Combine(key, nonce, position, left + right)
           == Combine(key, nonce, position, left) + Combine(key, nonce, position + |left|, right)
    {
    }

    /** Combining twice gives the bytes back. */
    lemma CombineTwice(key: Bytes, nonce: Bytes, position: nat, data: Bytes)
      ensures Combine(key, nonce, position, Combine(key, nonce, position, data)) == data
    {
      var once := Combine(key, nonce, position, data);
      forall i | 0 <= i < |data|
        ensures Combine(key, nonce, position, once)[i] == data[i]
      {
        assert once[i] == data[i] ^ keyStream(key, nonce, position + i);
      }
    }

    function Seal(key: Bytes, nonce: Bytes, aad: Bytes, prefix: Bytes, plain: Bytes): Bytes {
      var sealed := Combine(key, nonce, 0, plain);
      prefix + nonce + sealed + tag(key, nonce, aad, sealed)
    }

    /** The content of a file written by `encrypt_file_aes_gcm`. */
    function SealFile(key: Bytes, nonce: Bytes, plain: Bytes): Bytes { Seal(key, nonce, MAGIC, MAGIC, plain) }

    /** What opening a stream whose ciphertext starts at `offset` gives. */
    function Open(key: Bytes, nonce: Bytes, aad: Bytes, offset: nat, file: Bytes): Result<Bytes> {
      if |file| < offset + TAG_BYTES then Err
      else
        var sealed := file[offset..|file| - TAG_BYTES];
        if tag(key, nonce, aad, sealed) == file[|file| - TAG_BYTES..] then Ok(Combine(key, nonce, 0, sealed)) else Err
    }

    function OpenFile(key: Bytes, file: Bytes): Result<Bytes> {
      var header := |MAGIC| + NONCE_BYTES;
      if Take(file, |MAGIC|) != MAGIC || |file| < header then Err
      else Open(key, file[|MAGIC|..header], MAGIC, header, file)
    }

    lemma SealParts(key: Bytes, nonce: Bytes, plain: Bytes)
      requires Sound() && |nonce| == NONCE_BYTES
      ensures var file, header := SealFile(key, nonce, plain), |MAGIC| + NONCE_BYTES;
              var sealed := Combine(key, nonce, 0, plain);
              && |file| == header + |plain| + TAG_BYTES
              && file[..|MAGIC|] == MAGIC && file[|MAGIC|..header] == nonce
              && file[header..|file| - TAG_BYTES] == sealed
              && file[|file| - TAG_BYTES..] == tag(key, nonce, MAGIC, sealed)
    {
    }

    /** Each byte of the plaintext is written combined with the key stream at its own place, and the
        tag covers what is written. */
    lemma BytesSealed(key: Bytes, nonce: Bytes, plain: Bytes)
      requires Sound() && |nonce| == NONCE_BYTES
      ensures var file := SealFile(key, nonce, plain);
        && file[..29] == MAGIC && file[29..41] == nonce
        && (forall i :: 0 <= i < |plain| ==> file[41 + i] == plain[i] ^ keyStream(key, nonce, i))
        && file[41 + |plain|..] == tag(key, nonce, MAGIC, file[41..41 + |plain|])
    {
      SealParts(key, nonce, plain);
      var file, sealed := SealFile(key, nonce, plain), Combine(key, nonce, 0, plain);
      assert file[41..41 + |plain|] == sealed;
      assert forall i :: 0 <= i < |plain| ==> file[41 + i] == sealed[i];
    }

    /** Opening what was sealed gives the plaintext back; a sealed file is longer than its
        plaintext by the header, the nonce and the tag. */
    lemma RoundTrip(key: Bytes, nonce: Bytes, plain: Bytes)
      requires Sound() && |nonce| == NONCE_BYTES
      ensures OpenFile(key, SealFile(key, nonce, plain)) == Ok(plain)
      ensures |SealFile(key, nonce, plain)| == 29 + 12 + |plain| + 16
    {
      SealParts(key, nonce, plain);
      CombineTwice(key, nonce, 0, plain);
    }

    /** Nothing else opens: an accepted file is the sealed form of what it opens to. */
    lemma OpensOnlySealed(key: Bytes, file: Bytes, plain: Bytes)
      requires Sound() && OpenFile(key, file) == Ok(plain)
      ensures exists nonce :: |nonce| == NONCE_BYTES && file == SealFile(key, nonce, plain)
    {
      var header := |MAGIC| + NONCE_BYTES;
      var nonce := file[|MAGIC|..header];
      var sealed := file[header..|file| - TAG_BYTES];
      CombineTwice(key, nonce, 0, sealed);
      assert file == MAGIC + nonce + sealed + file[|file| - TAG_BYTES..];
      assert file == SealFile(key, nonce, plain);
    }
  }

  /** An open file: a read returns what is left, up to the number of bytes asked for. */
  class Reader {
    const content: Bytes
    var position: nat

    ghost predicate Valid()
      reads this
    {
      position <= |content|
    }

    constructor (content: Bytes, position: nat)
      requires position <= |content|
      ensures Valid() && this.content == content && this.position == position
    {
      this.content, this.position := content, position;
    }

    method Read(count: nat) returns (chunk: Bytes)
      requires Valid()
      modifies this
      ensures Valid() && position == old(position) + |chunk|
      ensures |chunk| == Min(count, |content| - old(position))
      ensures chunk == content[old(position)..position]
    {
      chunk := Take(content[position..], count);
      position := position + |chunk|;
    }
  }

  lemma Renamed(files: map<string, Bytes>, temporary: string, destination: string, whole: Bytes)
    requires temporary !in files && temporary != destination
    ensures (files[temporary := whole] - {temporary})[destination := whole] == files[destination := whole]
  {
  }

  class Disk {
    var files: map<string, Bytes>

    /** The temporary file takes the destination's place. */
    method Replace(temporary: string, destination: string)
      requires temporary in files && temporary != destination
      modifies this
      ensures files == (old(files) - {temporary})[destination := old(files)[temporary]]
    {
      files := (files - {temporary})[destination := files[temporary]];
    }

    method Unlink(path: string)
      modifies this
      ensures files == old(files) - {path}
    {
      files := files - {path};
    }

    method Write(path: string, data: Bytes)
      requires path in files
      modifies this
      ensures files == old(files)[path := old(files)[path] + data]
    {
      files := files[path := files[path] + data];
    }

    /** The reading loop: chunk after chunk is combined and appended. */
    method SealInto(gcm: Gcm, incoming: Reader, temporary: string, key: Bytes, nonce: Bytes, chunkBytes: nat)
      returns (sealed: Bytes)
      requires incoming.position == 0 && temporary in files && chunkBytes > 0
      modifies this, incoming
      ensures sealed == gcm.Combine(key, nonce, 0, incoming.content)
      ensures files == old(files)[temporary := old(files)[temporary] + sealed]
    {
      ghost var before := files;
      ghost var plain := incoming.content;
      sealed := [];
      assert before[temporary] + sealed == before[temporary];
      var chunk := incoming.Read(chunkBytes);
      while chunk != []
        invariant incoming.Valid() && incoming.content == plain
        invariant chunk == [] ==> incoming.position == |plain|
        invariant |chunk| <= incoming.position
        invariant chunk == plain[incoming.position - |chunk|..incoming.position]
        invariant sealed == gcm.Combine(key, nonce, 0, plain[..incoming.position - |chunk|])
        invariant files == before[temporary := before[temporary] + sealed]
        decreases |plain| - incoming.position, |chunk|
      {
        ghost var start := incoming.position - |chunk|;
        var part := gcm.Combine(key, nonce, |sealed|, chunk);
        gcm.CombineChunks(key, nonce, 0, plain[..start], chunk);
        assert plain[..incoming.position] == plain[..start] + chunk;
        assert before[temporary] + sealed + part == before[temporary] + (sealed + part);
        Write(temporary, part);
        sealed := sealed + part;
        chunk := incoming.Read(chunkBytes);
      }
      assert plain[..incoming.position] == plain;
    }

    /** Streams the source into a temporary file that then replaces the destination. The
        temporary name is a new one. A missing source leaves every file as it was. */
    method EncryptStream(gcm: Gcm, source: string, destination: string, temporary: string, key: Bytes,
                         nonce: Bytes, prefix: Bytes, aad: Bytes, chunkBytes: nat) returns (done: Result<()>)
      requires temporary !in files && temporary != destination && chunkBytes > 0
      modifies this
      ensures done.Ok? <==> source in old(files)
      ensures files == if source in old(files)
                         then old(files)[destination := gcm.Seal(key, nonce, aad, prefix, old(files)[source])]
                         else old(files)
    {
      ghost var before := files;
      files := files[temporary := []];
      if source !in files || source == temporary {
        Unlink(temporary);
        return Err;
      }
      var incoming := new Reader(files[source], 0);
      Write(temporary, prefix);
      Write(temporary, nonce);
      assert [] + prefix + nonce == prefix + nonce;
      var sealed := SealInto(gcm, incoming, temporary, key, nonce, chunkBytes);
      Write(temporary, gcm.tag(key, nonce, aad, sealed));
      ghost var whole := gcm.Seal(key, nonce, aad, prefix, before[source]);
      assert files == before[temporary := whole];
      Replace(temporary, destination);
      Renamed(before, temporary, destination, whole);
      done := Ok(());
    }

    /** Streams the ciphertext into a temporary file, which replaces the destination only when
        the tag is right; otherwise every file is as it was. */
    method DecryptStream(gcm: Gcm, source: string, destination: string, temporary: string, key: Bytes,
                         offset: nat, nonce: Bytes, aad: Bytes, chunkBytes: nat) returns (done: Result<()>)
      requires source in files && temporary !in files && temporary != destination && chunkBytes > 0
      modifies this
      ensures done.Ok? <==> gcm.Open(key, nonce, aad, offset, old(files)[source]).Ok?
      ensures files == match gcm.Open(key, nonce, aad, offset, old(files)[source])
                       case Ok(plain) => old(files)[destination := plain]
                       case Err => old(files)
    {
      ghost var before := files;
      var size := |files[source]|;
      if size - offset - TAG_BYTES < 0 {
        return Err;
      }
      var last := new Reader(files[source], size - TAG_BYTES);
      var tag := last.Read(TAG_BYTES);
      var incoming := new Reader(files[source], offset);
      files := files[temporary := []];
      var remaining := size - offset - TAG_BYTES;
      var sealed: Bytes := [];
      assert gcm.Combine(key, nonce, 0, sealed) == [];
      while remaining > 0
        invariant incoming.Valid() && fresh(incoming) && incoming.content == before[source]
        invariant 0 <= remaining == size - TAG_BYTES - incoming.position && offset <= incoming.position
        invariant sealed == before[source][offset..incoming.position]
        invariant files == before[temporary := gcm.Combine(key, nonce, 0, sealed)]
      {
        var chunk := incoming.Read(Min(chunkBytes, remaining));
        // The branch for a stream that ends early is never taken.
        assert chunk != [];
        gcm.CombineChunks(key, nonce, 0, sealed, chunk);
        Write(temporary, gcm.Combine(key, nonce, |sealed|, chunk));
        assert sealed + chunk == before[source][offset..incoming.position];
        sealed := sealed + chunk;
        remaining := remaining - |chunk|;
      }
      if gcm.tag(key, nonce, aad, sealed) != tag {
        Unlink(temporary);
        return Err;
      }
      Replace(temporary, destination);
      done := Ok(());
    }

    method EncryptFile(gcm: Gcm, source: string, destination: string, temporary: string, key: Bytes,
                       nonce: Bytes, chunkBytes: nat) returns (done: Result<()>)
      requires temporary !in files && temporary != destination && chunkBytes > 0
      modifies this
      ensures done.Ok? <==> source in old(files)
      ensures files == if source in old(files)
                         then old(files)[destination := gcm.SealFile(key, nonce, old(files)[source])]
                         else old(files)
    {
      done := EncryptStream(gcm, source, destination, temporary, key, nonce, MAGIC, MAGIC, chunkBytes);
    }

    method DecryptFile(gcm: Gcm, source: string, destination: string, temporary: string, key: Bytes,
                       chunkBytes: nat) returns (done: Result<()>)
      requires temporary !in files && temporary != destination && chunkBytes > 0
      modifies this
      ensures done.Ok? <==> source in old(files) && gcm.OpenFile(key, old(files)[source]).Ok?
      ensures files == if done.Ok? then old(files)[destination := gcm.OpenFile(key, old(files)[source]).value]
          else old(files)
    {
      if source !in files {
        return Err;
      }
      var handle := new Reader(files[source], 0);
      var magic := handle.Read(|MAGIC|);
      if magic != MAGIC {
        return Err;
      }
      var nonce := handle.Read(NONCE_BYTES);
      done := DecryptStream(gcm, source, destination, temporary, key, |MAGIC| + NONCE_BYTES, nonce, MAGIC, chunkBytes);
    }
  }

  /** A file encrypted with one chunk size and decrypted with another comes back as it was,
      and only the two destinations have changed. */
  method EncryptThenDecrypt(disk: Disk, gcm: Gcm, clear: string, vault: string, copy: string, temporary: string,
                            key: Bytes, nonce: Bytes, writeChunk: nat, readChunk: nat)
    returns (sealed: Result<()>, restored: Result<()>)
    requires gcm.Sound() && |nonce| == NONCE_BYTES && writeChunk > 0 && readChunk > 0
    requires clear in disk.files && temporary !in disk.files && temporary != vault && temporary != copy
    modifies disk
    ensures sealed.Ok? && restored.Ok?
    ensures var plain := old(disk.files)[clear];
            disk.files == old(disk.files)[vault := gcm.SealFile(key, nonce, plain)][copy := plain]
  {
    sealed := disk.EncryptFile(gcm, clear, vault, temporary, key, nonce, writeChunk);
    gcm.RoundTrip(key, nonce, old(disk.files)[clear]);
    restored := disk.DecryptFile(gcm, vault, copy, temporary, key, readChunk);
  }

  /** A byte as the number it stands for. */
  type Octet = n: int | 0 <= n < 0x100

  /** Python's four-byte big-endian integer. */
  function BigEndian(n: nat): seq<Octet>
    requires n < 0x1_0000_0000
  {
    [n / 0x100_0000, n / 0x1_0000 % 0x100, n / 0x100 % 0x100, n % 0x100]
  }

  function FromBigEndian(digits: seq<Octet>): nat {
    if digits == [] then 0 else FromBigEndian(digits[..|digits| - 1]) * 0x100 + digits[|digits| - 1]
  }

  /** The two recovery keys in one string: a length, the ML-KEM key, the X25519 key. */
  function PackPrivate(mlkem: seq<Octet>, x25519: seq<Octet>): Result<seq<Octet>> {
    if |mlkem| >= 0x1_0000_0000 then Err else Ok(BigEndian(|mlkem|) + mlkem + x25519)
  }

  /** Python's `s[n:]`, empty past the end. */
  function Drop(s: seq<Octet>, n: nat): seq<Octet> { if |s| <= n then [] else s[n..] }

  /** Python's slices stop at the end of the string. */
  function UnpackPrivate(clear: seq<Octet>): Result<(seq<Octet>, seq<Octet>)> {
    var length := FromBigEndian(Take(clear, 4));
    var mlkem := Take(Drop(clear, 4), length);
    var x25519 := Drop(clear, 4 + length);
    if |x25519| != 32 then Err else Ok((mlkem, x25519))
  }

  lemma FourDigits(s: seq<Octet>)
    requires |s| == 4
    ensures FromBigEndian(s) == ((s[0] as int * 0x100 + s[1]) * 0x100 + s[2]) * 0x100 + s[3]
  {
    var t, u := s[..3], s[..2];
    assert t[..2] == u && u[..1] == [s[0]] && [s[0]][..0] == [];
    assert FromBigEndian([s[0]]) == s[0];
    assert FromBigEndian(u) == s[0] as int * 0x100 + s[1];
    assert FromBigEndian(t) == (s[0] as int * 0x100 + s[1]) * 0x100 + s[2];
  }

  lemma Places(a: int, b: int, c: int, d: int, n: int)
    requires 0 <= a < 0x100 && 0 <= b < 0x100 && 0 <= c < 0x100 && 0 <= d < 0x100
    requires n == ((a * 0x100 + b) * 0x100 + c) * 0x100 + d
    ensures 0 <= n < 0x1_0000_0000
    ensures n / 0x100_0000 == a && n / 0x1_0000 % 0x100 == b && n / 0x100 % 0x100 == c && n % 0x100 == d
  {
  }

  lemma PlacesOf(n: nat)
    requires n < 0x1_0000_0000
    ensures ((n / 0x100_0000 * 0x100 + n / 0x1_0000 % 0x100) * 0x100 + n / 0x100 % 0x100) * 0x100 + n % 0x100 == n
  {
  }

  lemma PackedUnpacks(mlkem: seq<Octet>, x25519: seq<Octet>, clear: seq<Octet>)
    requires PackPrivate(mlkem, x25519) == Ok(clear) && |x25519| == 32
    ensures UnpackPrivate(clear) == Ok((mlkem, x25519))
  {
    FourDigits(BigEndian(|mlkem|));
    PlacesOf(|mlkem|);
    assert Take(clear, 4) == BigEndian(|mlkem|);
    assert Drop(clear, 4) == mlkem + x25519;
    assert Drop(clear, 4 + |mlkem|) == x25519;
  }

  lemma UnpackedPacks(mlkem: seq<Octet>, x25519: seq<Octet>, clear: seq<Octet>)
    requires UnpackPrivate(clear) == Ok((mlkem, x25519))
    ensures PackPrivate(mlkem, x25519) == Ok(clear) && |x25519| == 32
  {
    var s := clear[..4];
    FourDigits(s);
    Places(s[0], s[1], s[2], s[3], FromBigEndian(s));
    assert BigEndian(|mlkem|) == s;
    assert clear == s + mlkem + x25519;
  }

  /** Unpacking accepts exactly the packed pairs whose second key has 32 bytes, and gives
      them back. */
  lemma PackingExact(clear: seq<Octet>, mlkem: seq<Octet>, x25519: seq<Octet>)
    ensures UnpackPrivate(clear) == Ok((mlkem, x25519)) <==> (PackPrivate(mlkem, x25519) == Ok(clear) && |x25519| == 32)
  {
    if PackPrivate(mlkem, x25519) == Ok(clear) && |x25519| == 32 {
      PackedUnpacks(mlkem, x25519, clear);
    }
    if UnpackPrivate(clear) == Ok((mlkem, x25519)) {
      UnpackedPacks(mlkem, x25519, clear);
    }
  }
}
