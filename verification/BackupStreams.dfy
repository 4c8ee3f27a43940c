/**
 The backup and restore tools as they run: reads that come up short, chunks of any size, a
 temporary file that must not outlive a failure. Each method computes what BackupFormat says,
 however the stream is cut.
 */
module BackupStreams {
  import opened Wrappers
  import opened Bytes
  import opened Strings
  import opened BackupFormat

  const CHUNK := 1048576

  // A byte stream: a read returns something unless nothing is left, but maybe less than asked.
  class Source {
    const data: ByteString
    var pos: nat

    constructor (data: ByteString)
      ensures this.data == data && pos == 0
    {
      this.data, this.pos := data, 0;
    }

    ghost predicate Valid()
      reads this
    {
      pos <= |data|
    }

    function Remaining(): ByteString
      requires Valid()
      reads this
    {
      data[pos..]
    }

    method Read(size: nat) returns (chunk: ByteString)
      requires Valid()
      modifies this
      ensures Valid() && old(Remaining()) == chunk + Remaining() && |chunk| <= size
      ensures chunk == [] ==> size == 0 || old(Remaining()) == []
    {
      var limit := if size <= |data| - pos then size else |data| - pos;
      var n: int := *;
      if n < 1 || n > limit { n := limit; }
      chunk := data[pos..pos + n];
      pos := pos + n;
    }

    // A buffered reader on a file: as much as asked, or all that is left.
    method ReadFull(size: nat) returns (chunk: ByteString)
      requires Valid()
      modifies this
      ensures Valid() && old(Remaining()) == chunk + Remaining()
      ensures |chunk| == (if size <= |old(Remaining())| then size else |old(Remaining())|) && pos == old(pos) + |chunk|
    {
      var n := if size <= |data| - pos then size else |data| - pos;
      chunk := data[pos..pos + n];
      pos := pos + n;
    }
  }

  lemma Regroup(a: ByteString, b: ByteString, c: ByteString)
    ensures a + (b + c) == (a + b) + c
  {
  }

  // The credential bundle first, then the dump.
  class PrefixedReader {
    const prefix: Source
    const source: Source

    constructor (prefix: Source, source: Source)
      ensures this.prefix == prefix && this.source == source
    {
      this.prefix, this.source := prefix, source;
    }

    ghost predicate Valid()
      reads prefix, source
    {
      prefix != source && prefix.Valid() && source.Valid()
    }

    function Remaining(): ByteString
      requires Valid()
      reads prefix, source
    {
      prefix.Remaining() + source.Remaining()
    }

    method Read(size: nat) returns (chunk: ByteString)
      requires Valid()
      modifies prefix, source
      ensures Valid() && old(Remaining()) == chunk + Remaining() && |chunk| <= size
      ensures chunk == [] ==> size == 0 || old(Remaining()) == []
    {
      var first := prefix.ReadFull(size);
      var rest := source.Read(size - |first|);
      chunk := first + rest;
      if |first| < size {
        assert prefix.Remaining() == [];
        assert old(prefix.Remaining()) == first;
      } else {
        assert rest == [] && chunk == first;
        Regroup(first, prefix.Remaining(), source.Remaining());
      }
    }
  }

  lemma EncryptJoins(g: Gcm, key: ByteString, nonce: ByteString, a: ByteString, b: ByteString)
    ensures EncryptFrom(g, key, nonce, 0, a) + EncryptFrom(g, key, nonce, |a|, b)
            == EncryptFrom(g, key, nonce, 0, a + b)
    ensures DecryptFrom(g, key, nonce, 0, a) + DecryptFrom(g, key, nonce, |a|, b)
            == DecryptFrom(g, key, nonce, 0, a + b)
  {
  }

  lemma Joined(whole: ByteString, first: ByteString, rest: ByteString)
    requires whole == first + rest
    ensures |first| <= |whole| && whole[..|first|] == first && whole[|first|..] == rest
  {
  }

  // A header read from an archive has the archive's fields at the same offsets.
  lemma HeaderSlices(archive: ByteString, header: ByteString)
    requires |header| == FIXED <= |archive| && archive[..FIXED] == header
    ensures archive[..16] == header[..16] && archive[16] == header[16]
    ensures archive[17..29] == header[17..29] && archive[29..33] == header[29..33]
  {
    forall i | 0 <= i < FIXED ensures archive[i] == header[i] { assert archive[..FIXED][i] == header[i]; }
  }

  predicate MetadataOk(j: Json, metadata: StringMap) { 1 <= |j.dumpMetadata(metadata)| <= MAX_METADATA }

  /** encrypt_stream: the sealed archive of everything the reader had, however it was read. */
  method EncryptStream(g: Gcm, j: Json, source: PrefixedReader, key: ByteString, nonce: ByteString, metadata: StringMap)
    returns (destination: Result<ByteString, BackupError>)
    requires source.Valid() && |nonce| == NONCE_BYTES
    modifies source.prefix, source.source
    ensures |key| != 32 ==> destination == Err(BadKey)
    ensures |key| == 32 && !MetadataOk(j, metadata) ==> destination == Err(BadMetadata)
    ensures |key| == 32 ==> (destination.Ok? <==> 1 <= |j.dumpMetadata(metadata)| <= 65536)
    ensures |key| == 32 && MetadataOk(j, metadata) ==>
              destination == Ok(Seal(g, key, nonce, j.dumpMetadata(metadata), old(source.Remaining())))
  {
    if |key| != 32 { return Err(BadKey); }
    if !MetadataOk(j, metadata) { return Err(BadMetadata); }
    var encoded := j.dumpMetadata(metadata);
    var header := MAGIC + [VERSION] + nonce + BE32(|encoded|);
    var ciphertext := EncryptBody(g, source, key, nonce);
    return Ok(header + encoded + ciphertext + g.tag(key, nonce, header + encoded, ciphertext));
  }

  // The copy loop, to the end of the stream.
  method EncryptBody(g: Gcm, source: PrefixedReader, key: ByteString, nonce: ByteString)
    returns (ciphertext: ByteString)
    requires source.Valid()
    modifies source.prefix, source.source
    ensures ciphertext == EncryptFrom(g, key, nonce, 0, old(source.Remaining()))
  {
    ghost var all := source.Remaining();
    ghost var consumed: ByteString := [];
    ciphertext := [];
    var chunk := source.Read(CHUNK);
    while chunk != []
      invariant source.Valid() && all == consumed + (chunk + source.Remaining())
      invariant ciphertext == EncryptFrom(g, key, nonce, 0, consumed)
      invariant chunk == [] ==> source.Remaining() == []
      decreases |all| - |consumed|
    {
      EncryptJoins(g, key, nonce, consumed, chunk);
      Regroup(consumed, chunk, source.Remaining());
      ciphertext := ciphertext + EncryptFrom(g, key, nonce, |ciphertext|, chunk);
      consumed := consumed + chunk;
      chunk := source.Read(CHUNK);
    }
    assert consumed == all;
  }

  // Temporary files by number.
  class Workspace {
    var temps: map<nat, ByteString>
    var next: nat

    constructor ()
      ensures Valid() && temps == map[]
    {
      temps, next := map[], 0;
    }

    ghost predicate Valid()
      reads this
    {
      forall t :: t in temps ==> t < next
    }

    // The copy loop: `remaining` counts down over chunks of any size.
    method DecryptBody(
      g: Gcm, key: ByteString, nonce: ByteString, source: Source, size: nat, temp: nat, healthy: bool)
      returns (ok: bool)
      requires source.Valid() && |source.Remaining()| >= size && temp in temps && temps[temp] == []
      modifies this`temps, source
      ensures temps.Keys == old(temps).Keys && forall t :: t in temps && t != temp ==> temps[t] == old(temps)[t]
      ensures ok ==> temps[temp] == DecryptFrom(g, key, nonce, 0, old(source.Remaining())[..size])
      ensures healthy ==> ok
    {
      ghost var all := source.Remaining();
      ghost var consumed: ByteString := [];
      var remaining: nat := size;
      while remaining > 0
        invariant source.Valid() && all == consumed + source.Remaining() && |consumed| + remaining == size
        invariant temps.Keys == old(temps).Keys && forall t :: t in temps && t != temp ==> temps[t] == old(temps)[t]
        invariant temps[temp] == DecryptFrom(g, key, nonce, 0, consumed)
      {
        var io: bool := *;
        if !io && !healthy { return false; }
        var chunk := source.Read(if CHUNK <= remaining then CHUNK else remaining);
        if chunk == [] { return false; }
        EncryptJoins(g, key, nonce, consumed, chunk);
        Regroup(consumed, chunk, source.Remaining());
        consumed := consumed + chunk;
        temps := temps[temp := temps[temp] + DecryptFrom(g, key, nonce, size - remaining, chunk)];
        remaining := remaining - |chunk|;
      }
      assert consumed == all[..size];
      return true;
    }

    // The fixed header, by one read: the nonce and the metadata's size.
    method ReadHeader(source: Source) returns (header: Result<(ByteString, nat), BackupError>)
      requires source.pos == 0
      modifies source
      ensures source.Valid()
      ensures header == ParseHeader(source.data)
      ensures header.Ok? ==> FIXED <= |source.data| && source.pos == FIXED
    {
      var bytes := source.ReadFull(FIXED);
      Joined(source.data, bytes, source.Remaining());
      if |bytes| != FIXED || bytes[..16] != MAGIC { return Err(NotAnArchive); }
      HeaderSlices(source.data, bytes);
      if bytes[16] != VERSION { return Err(BadVersion); }
      var size := FromBE32(bytes[29..33]);
      if !(1 <= size <= MAX_METADATA) { return Err(BadMetadata); }
      return Ok((bytes[17..29], size));
    }

    // The fixed header, the metadata and the tag, by reads and seeks.
    method ReadFields(j: Json, archive: ByteString) returns (fields: Result<Fields, BackupError>)
      ensures fields == Parse(j, archive)
    {
      var source := new Source(archive);
      var header := ReadHeader(source);
      if header.Err? { return Err(header.error); }
      var (nonce, size) := header.value;
      var metadata := source.ReadFull(size);
      if |metadata| != size { return Err(Truncated); }
      Joined(archive[FIXED..], metadata, source.Remaining());
      assert archive[FIXED..][..size] == archive[FIXED..FIXED + size];
      if j.loadMetadata(metadata).None? { return Err(BadMetadata); }
      var start := FIXED + size;
      if |archive| - start - TAG_BYTES < 1 { return Err(NoPayload); }
      var end := |archive| - TAG_BYTES;
      return Ok(Fields(nonce, metadata, archive[start..end], archive[end..]));
    }

    // From the creation of the temporary file to the check of the tag; on failure the file goes.
    method CopyAndCheck(g: Gcm, archive: ByteString, key: ByteString, f: Fields, healthy: bool)
      returns (result: Result<nat, BackupError>)
      requires Valid() && FIXED + |f.metadata| <= |archive|
      modifies this
      ensures Valid()
      ensures var genuine := g.tag(key, f.nonce, archive[..FIXED + |f.metadata|], f.ciphertext) == f.tag;
              match result
              case Ok(temp) =>
                && genuine && temp !in old(temps)
                && temps == old(temps)[temp := DecryptFrom(g, key, f.nonce, 0, f.ciphertext)]
              case Err(e) =>
                temps == old(temps) && ((e == IoFailure && !healthy) || (e == BadAuthentication && !genuine))
    {
      var io: bool := *;
      if !io && !healthy { return Err(IoFailure); }
      var temp := next;
      temps, next := temps[temp := []], next + 1;
      var source := new Source(f.ciphertext);
      var copied := DecryptBody(g, key, f.nonce, source, |f.ciphertext|, temp, healthy);
      assert f.ciphertext[..|f.ciphertext|] == f.ciphertext;
      var genuine := g.tag(key, f.nonce, archive[..FIXED + |f.metadata|], f.ciphertext) == f.tag;
      if !copied || !genuine {
        temps := temps - {temp};
        assert temps == old(temps);
        return Err(if copied then BadAuthentication else IoFailure);
      }
      return Ok(temp);
    }

    /** decrypt_to_temporary. Only an I/O failure, of which a healthy disk has none, makes it differ
        from Unseal; a success leaves one more temporary file, with the payload in it, and a
        failure leaves none. */
    method DecryptToTemporary(g: Gcm, j: Json, archive: ByteString, key: ByteString, healthy: bool)
      returns (result: Result<(nat, StringMap), BackupError>)
      requires Valid()
      modifies this
      ensures Valid()
      ensures |key| != 32 ==> result == Err(BadKey)
      ensures |key| == 32 && result.Err? && result.error != IoFailure ==>
                Unseal(g, j, key, archive) == Err(result.error)
      ensures result.Ok? ==> (
                var (temp, metadata) := result.value;
                && Unseal(g, j, key, archive).Ok? && Unseal(g, j, key, archive).value.1 == metadata
                && temp !in old(temps)
                && temps == old(temps)[temp := Unseal(g, j, key, archive).value.0])
      ensures result.Err? ==> temps == old(temps)
      ensures healthy ==> result != Err(IoFailure)
    {
      if |key| != 32 { return Err(BadKey); }
      var io: bool := *;
      if !io && !healthy { return Err(IoFailure); }
      var fields := ReadFields(j, archive);
      if fields.Err? { return Err(fields.error); }
      var f := fields.value;
      LayoutOfParse(j, archive);
      var metadata := j.loadMetadata(f.metadata);
      var copied := CopyAndCheck(g, archive, key, f, healthy);
      if copied.Err? { return Err(copied.error); }
      return Ok((copied.value, metadata.value));
    }
  }

  /** read_credential_bundle: the bundle, with the stream left at the dump. */
  method ReadCredentialBundle(j: Json, source: Source) returns (bundle: Result<StringMap, BackupError>)
    requires source.Valid()
    modifies source
    ensures source.Valid() && bundle != Err(NoDocker)
    ensures match ReadBundle(j, old(source.Remaining()))
            case Err(e) => bundle == Err(e)
            case Ok((b, dump)) => bundle == Ok(b) && source.Remaining() == dump
  {
    ghost var payload := source.Remaining();
    var magic := source.ReadFull(16);
    if magic != PAYLOAD_MAGIC { return Err(NotAPayload); }
    var sizeBytes := source.ReadFull(4);
    assert payload[..16] == magic;
    if |sizeBytes| != 4 { return Err(Truncated); }
    assert payload[16..20] == sizeBytes;
    var size := FromBE32(sizeBytes);
    if !(1 <= size <= MAX_BUNDLE) { return Err(BadBundle); }
    var encoded := source.ReadFull(size);
    assert payload[20..20 + |encoded|] == encoded && source.Remaining() == payload[20 + |encoded|..];
    var loaded := j.loadBundle(encoded);
    if loaded.None? || !BundleOk(loaded.value) { return Err(BadBundle); }
    return Ok(loaded.value);
  }

  /** run_pg_restore's copy loop: everything from the current offset on, unless the pipe breaks. */
  method StreamToRestore(source: Source, healthy: bool) returns (received: ByteString, broken: bool)
    requires source.Valid()
    modifies source
    ensures received <= old(source.Remaining())
    ensures !broken ==> received == old(source.Remaining())
    ensures healthy ==> !broken
  {
    ghost var all := source.Remaining();
    received := [];
    var chunk := source.Read(CHUNK);
    while chunk != []
      invariant source.Valid() && all == received + (chunk + source.Remaining())
      invariant chunk == [] ==> source.Remaining() == []
      decreases |all| - |received|
    {
      var accepted: bool := *;
      if !accepted && !healthy { return received, true; }
      Regroup(received, chunk, source.Remaining());
      received := received + chunk;
      chunk := source.Read(CHUNK);
    }
    assert received == all;
    return received, false;
  }

  // What pg_restore got: the dump, or the part of it that was accepted before its pipe broke.
  datatype Restored = Restored(metadata: StringMap, bundle: StringMap, received: ByteString, broken: bool)

  ghost predicate RestoredFrom(j: Json, unsealed: Result<(ByteString, StringMap), BackupError>, r: Restored) {
    && unsealed.Ok? && unsealed.value.1 == r.metadata
    && var read := ReadBundle(j, unsealed.value.0);
       read.Ok? && read.value.0 == r.bundle && r.received <= read.value.1 && (!r.broken ==> r.received == read.value.1)
  }

  // What a restore comes to when nothing fails: the whole dump is delivered, unless the payload has
  // no bundle in front or the recovery directory is not empty.
  ghost predicate Delivered(
    j: Json, payload: ByteString, metadata: StringMap, empty: bool, result: Result<Restored, BackupError>)
  {
    match ReadBundle(j, payload)
    case Err(e) => result == Err(e)
    case Ok((bundle, dump)) =>
      if empty then result == Ok(Restored(metadata, bundle, dump, false)) else result == Err(IoFailure)
  }

  /** restore_backup. `docker`: the command is on the PATH; it is looked up after the decryption
      and before the try block. With it no temporary file is left, whatever the archive. Without
      it the decrypted payload stays exactly when decryption got that far, and always where the
      archive decrypts and nothing fails. Where nothing fails the result is determined by the
      archive, the key and the directory. On success the database received the dump that
      follows the bundle in the authenticated payload, all of it unless its process stopped
      reading, and the key files are in the recovery directory. */
  method RestoreBackup(
    workspace: Workspace, recovery: RecoveryDirectory?, g: Gcm, j: Json, archive: ByteString, key: ByteString,
    docker: bool, healthy: bool)
    returns (result: Result<Restored, BackupError>)
    requires workspace.Valid()
    modifies workspace, recovery
    ensures workspace.temps == old(workspace.temps) <==> result != Err(NoDocker)
    ensures result == Err(NoDocker) ==>
              && Left(g, j, key, archive, docker).Some?
              && exists t: nat :: t !in old(workspace.temps)
                             && workspace.temps == old(workspace.temps)[t := Left(g, j, key, archive, docker).value]
    ensures healthy ==> (result == Err(NoDocker) <==> Left(g, j, key, archive, docker).Some?)
    ensures result.Ok? ==> docker && RestoredFrom(j, Unseal(g, j, key, archive), result.value)
    ensures healthy && docker && |key| == 32 ==> (
              match Unseal(g, j, key, archive)
              case Err(e) => result == Err(e)
              case Ok(u) => Delivered(j, u.0, u.1, recovery == null || old(recovery.files) == map[], result))
    ensures recovery != null && result.Err? ==> recovery.files == old(recovery.files)
    ensures recovery != null && result.Ok? ==>
              && old(recovery.files) == map[]
              && recovery.files == map n | n in result.value.bundle :: result.value.bundle[n] + "\n"
  {
    var decrypted := workspace.DecryptToTemporary(g, j, archive, key, healthy);
    if decrypted.Err? { return Err(decrypted.error); }
    var (temp, metadata) := decrypted.value;
    if !docker {
      assert temp in workspace.temps;
      return Err(NoDocker);
    }
    result := RestorePayload(recovery, j, workspace.temps[temp], metadata, healthy);
    workspace.temps := workspace.temps - {temp};
    assert workspace.temps == old(workspace.temps);
  }

  // The try block, on the decrypted payload.
  method RestorePayload(
    recovery: RecoveryDirectory?, j: Json, payload: ByteString, metadata: StringMap, healthy: bool)
    returns (result: Result<Restored, BackupError>)
    modifies recovery
    ensures result.Ok? ==> RestoredFrom(j, Ok((payload, metadata)), result.value)
    ensures result != Err(NoDocker)
    ensures healthy ==> Delivered(j, payload, metadata, recovery == null || old(recovery.files) == map[], result)
    ensures recovery != null && result.Err? ==> recovery.files == old(recovery.files)
    ensures recovery != null && result.Ok? ==>
              && old(recovery.files) == map[]
              && recovery.files == map n | n in result.value.bundle :: result.value.bundle[n] + "\n"
  {
    var source := new Source(payload);
    assert source.Remaining() == payload;
    var bundle := ReadCredentialBundle(j, source);
    if bundle.Err? { return Err(bundle.error); }
    var received, broken := StreamToRestore(source, healthy);
    var exitedWithZero: bool := *;
    if !exitedWithZero && !healthy { return Err(IoFailure); }
    if recovery != null {
      var recovered := recovery.Recover(bundle.value, healthy);
      if !recovered { return Err(IoFailure); }
    }
    return Ok(Restored(metadata, bundle.value, received, broken));
  }

  predicate IsAscii(s: string) { forall i :: 0 <= i < |s| ==> s[i] as int < 128 }

  // Every key file that exists can be read as ASCII.
  predicate AllAscii(files: StringMap) { forall n :: n in files && n in KEY_NAMES ==> IsAscii(files[n]) }

  /** credential_bundle: the key files that exist, stripped, in front of the dump, unless one of them
      cannot be read. */
  method CredentialBundle(j: Json, files: StringMap, healthy: bool) returns (prefix: Result<ByteString, BackupError>)
    ensures prefix == Err(IoFailure) || prefix == BundlePrefix(j, KeyValues(files))
    ensures !AllAscii(files) ==> prefix == Err(IoFailure)
    ensures healthy && AllAscii(files) ==> prefix == BundlePrefix(j, KeyValues(files))
  {
    var names := ["master_key", "master_keyring"];
    var values: StringMap := map[];
    for i := 0 to |names|
      invariant values == map n | n in files && n in names[..i] :: Strip(files[n])
      invariant forall n :: n in files && n in names[..i] ==> IsAscii(files[n])
    {
      if names[i] in files {
        var readable: bool := *;
        if (!readable && !healthy) || !IsAscii(files[names[i]]) {
          assert names[i] in KEY_NAMES;
          return Err(IoFailure);
        }
        values := values[names[i] := Strip(files[names[i]])];
      }
      assert names[..i + 1] == names[..i] + [names[i]];
    }
    assert names[..2] == names && names[0] in names && names[1] in names;
    assert values == KeyValues(files);
    if "master_key" !in values && "master_keyring" !in values { return Err(MissingKeys); }
    var encoded := j.dumpBundle(values);
    if |encoded| > MAX_BUNDLE { return Err(BadBundle); }
    return Ok(PAYLOAD_MAGIC + BE32(|encoded|) + encoded);
  }

  class RecoveryDirectory {
    var files: StringMap

    constructor ()
      ensures files == map[]
    {
      files := map[];
    }

    /** recover_credential_bundle: every key file into an empty directory, or after any failure
        the directory as it was. */
    method Recover(bundle: StringMap, healthy: bool) returns (ok: bool)
      modifies this
      ensures healthy ==> (ok <==> old(files) == map[])
      ensures ok ==> old(files) == map[] && files == map n | n in bundle :: bundle[n] + "\n"
      ensures !ok ==> files == old(files)
    {
      if files != map[] { return false; }
      var created: set<string> := {};
      var left := bundle.Keys;
      while left != {}
        invariant left <= bundle.Keys && created == bundle.Keys - left
        invariant files == map n | n in bundle && n !in left :: bundle[n] + "\n"
        decreases left
      {
        var name :| name in left;
        left := left - {name};
        var created': bool, written: bool := *, *;
        if healthy { created', written := true, true; }
        if created' {
          created := created + {name};
          files := files[name := if written then bundle[name] + "\n" else ""];
        }
        if !created' || !written {
          files := files - created;
          return false;
        }
      }
      return true;
    }
  }
}
