/**
 The encrypted backup, layer by layer: the authenticated archive around a payload, and the
 payload's credential bundle in front of the database dump. JSON and AES-GCM are parameters.
 */
module BackupFormat {
  import opened Wrappers
  import opened Bytes
  import opened Strings

  type StringMap = map<string, string>

  const VERSION: Byte := 1
  const NONCE_BYTES := 12
  const TAG_BYTES := 16
  const MAX_METADATA := 65536
  const MAX_BUNDLE := 65536

  const MAGIC: ByteString := [77, 65, 73, 76, 71, 65, 84, 69, 45, 66, 65, 67, 75, 85, 80, 0]
  const PAYLOAD_MAGIC: ByteString := [77, 65, 73, 76, 71, 65, 84, 69, 45, 80, 71, 68, 85, 77, 80, 0]

  const FIXED := 33

  datatype BackupError =
    | BadKey | BadMetadata | NotAnArchive | BadVersion | Truncated | NoPayload | BadAuthentication
    | NotAPayload | BadBundle | MissingKeys | NoDocker | IoFailure

  // json.dumps and json.loads on the two documents; None: loads raises or the shape is wrong.
  datatype Json = Json(
    dumpMetadata: StringMap -> ByteString, loadMetadata: ByteString -> Option<StringMap>,
    dumpBundle: StringMap -> ByteString, loadBundle: ByteString -> Option<StringMap>)

  ghost predicate JsonOk(j: Json) {
    && (forall m :: j.loadMetadata(j.dumpMetadata(m)) == Some(m))
    && (forall m :: j.loadBundle(j.dumpBundle(m)) == Some(m) && j.dumpBundle(m) != [])
  }

  // Counter mode treats the byte at each position by itself; the tag covers everything.
  datatype Gcm = Gcm(
    enc: (ByteString, ByteString, nat, Byte) -> Byte,
    dec: (ByteString, ByteString, nat, Byte) -> Byte,
    tag: (ByteString, ByteString, ByteString, ByteString) -> ByteString)

  ghost predicate GcmOk(g: Gcm) {
    && (forall k, n, i, b :: g.dec(k, n, i, g.enc(k, n, i, b)) == b)
    && (forall k, n, a, c :: |g.tag(k, n, a, c)| == TAG_BYTES)
  }

  // Bytes [from, from + |data|) of the stream.
  function EncryptFrom(g: Gcm, key: ByteString, nonce: ByteString, from: nat, data: ByteString): (r: ByteString)
    ensures |r| == |data| && forall i :: 0 <= i < |data| ==> r[i] == g.enc(key, nonce, from + i, data[i])
  {
    seq(|data|, i requires 0 <= i < |data| => g.enc(key, nonce, from + i, data[i]))
  }

  function DecryptFrom(g: Gcm, key: ByteString, nonce: ByteString, from: nat, data: ByteString): (r: ByteString)
    ensures |r| == |data| && forall i :: 0 <= i < |data| ==> r[i] == g.dec(key, nonce, from + i, data[i])
  {
    seq(|data|, i requires 0 <= i < |data| => g.dec(key, nonce, from + i, data[i]))
  }

  // ---------- The archive ----------

  function Header(nonce: ByteString, size: nat): ByteString
    requires size < TWO32
  {
    MAGIC + [VERSION] + nonce + BE32(size)
  }

  function Layout(nonce: ByteString, metadata: ByteString, ciphertext: ByteString, tag: ByteString): ByteString
    requires |metadata| < TWO32
  {
    Header(nonce, |metadata|) + metadata + ciphertext + tag
  }

  function Seal(g: Gcm, key: ByteString, nonce: ByteString, metadata: ByteString, payload: ByteString): ByteString
    requires |metadata| < TWO32
  {
    var ciphertext := EncryptFrom(g, key, nonce, 0, payload);
    Layout(nonce, metadata, ciphertext, g.tag(key, nonce, Header(nonce, |metadata|) + metadata, ciphertext))
  }

  // The fields of an archive, by the offsets and in the order of the checks of decrypt_to_temporary.
  datatype Fields = Fields(nonce: ByteString, metadata: ByteString, ciphertext: ByteString, tag: ByteString)

  function ParseHeader(archive: ByteString): (r: Result<(ByteString, nat), BackupError>)
    ensures r.Ok? ==> FIXED <= |archive| && 1 <= r.value.1 <= MAX_METADATA
  {
    if |archive| < FIXED || archive[..16] != MAGIC then Err(NotAnArchive)
    else if archive[16] != VERSION then Err(BadVersion)
    else
      var size := FromBE32(archive[29..33]);
      if !(1 <= size <= MAX_METADATA) then Err(BadMetadata) else Ok((archive[17..29], size))
  }

  function Parse(j: Json, archive: ByteString): Result<Fields, BackupError> {
    var header := ParseHeader(archive);
    if header.Err? then Err(header.error)
    else
      var (nonce, size) := header.value;
      if |archive| < FIXED + size then Err(Truncated)
      else if j.loadMetadata(archive[33..FIXED + size]).None? then Err(BadMetadata)
      else if |archive| - FIXED - size - TAG_BYTES < 1 then Err(NoPayload)
      else
        var start, end := FIXED + size, |archive| - TAG_BYTES;
        Ok(Fields(nonce, archive[33..start], archive[start..end], archive[end..]))
  }

  function Unseal(g: Gcm, j: Json, key: ByteString, archive: ByteString): Result<(ByteString, StringMap), BackupError> {
    match Parse(j, archive)
    case Err(e) => Err(e)
    case Ok(f) =>
      if g.tag(key, f.nonce, archive[..FIXED + |f.metadata|], f.ciphertext) != f.tag then Err(BadAuthentication)
      else Ok((DecryptFrom(g, key, f.nonce, 0, f.ciphertext), j.loadMetadata(f.metadata).value))
  }

  lemma HeaderParts(nonce: ByteString, size: nat, rest: ByteString)
    requires |nonce| == NONCE_BYTES && size < TWO32
    ensures var a := Header(nonce, size) + rest;
            && |Header(nonce, size)| == FIXED && a[..FIXED] == Header(nonce, size) && a[FIXED..] == rest
            && a[..16] == MAGIC && a[16] == VERSION && a[17..29] == nonce && FromBE32(a[29..33]) == size
  {
    var a := Header(nonce, size) + rest;
    assert a[..16] == MAGIC && a[17..29] == nonce && a[29..33] == BE32(size);
    BE32RoundTrip(size);
  }

  /** The offsets cut an archive exactly into what it was laid out from. */
  lemma ParseOfLayout(j: Json, nonce: ByteString, metadata: ByteString, ciphertext: ByteString, tag: ByteString)
    requires |nonce| == NONCE_BYTES && 1 <= |metadata| <= MAX_METADATA && |tag| == TAG_BYTES
    ensures Parse(j, Layout(nonce, metadata, ciphertext, tag)) ==
              if j.loadMetadata(metadata).None? then Err(BadMetadata)
              else if ciphertext == [] then Err(NoPayload) else Ok(Fields(nonce, metadata, ciphertext, tag))
    ensures Layout(nonce, metadata, ciphertext, tag)[..FIXED + |metadata|] == Header(nonce, |metadata|) + metadata
  {
    var a := Layout(nonce, metadata, ciphertext, tag);
    var h := Header(nonce, |metadata|);
    assert a == h + (metadata + ciphertext + tag);
    HeaderParts(nonce, |metadata|, metadata + ciphertext + tag);
    var start, end := FIXED + |metadata|, |a| - TAG_BYTES;
    assert a[33..start] == metadata && a[start..end] == ciphertext && a[end..] == tag;
    assert a[..start] == h + metadata;
  }

  lemma FourParts(whole: ByteString, a: nat, b: nat, c: nat)
    requires a <= b <= c <= |whole|
    ensures whole == whole[..a] + whole[a..b] + whole[b..c] + whole[c..]
  {
  }

  // This text and a zero byte.
  predicate IsMagic(b: ByteString, text: string) {
    |b| == |text| + 1 && b[|text|] == 0 && forall i :: 0 <= i < |text| ==> b[i] == text[i] as int
  }

  lemma BigEndian(n: nat)
    requires n < TWO32
    ensures var b := BE32(n); n == Number(b[0], b[1], b[2], b[3])
  {
    LE32RoundTrip(n);
  }

  /** Byte by byte: the magic, version 1, the nonce, the metadata's length in four bytes, most significant
      first, the metadata, the ciphertext, and the tag over everything before the ciphertext. */
  lemma ArchiveBytes(g: Gcm, key: ByteString, s: Sealing)
    requires GcmOk(g) && Sealable(s)
    ensures var a, start := Seal(g, key, s.nonce, s.metadata, s.payload), 33 + |s.metadata|;
            && |a| == start + |s.payload| + 16
            && IsMagic(a[..16], "MAILGATE-BACKUP") && a[16] == 1 && a[17..29] == s.nonce
            && |s.metadata| == Number(a[29], a[30], a[31], a[32])
            && a[33..start] == s.metadata
            && (forall i :: 0 <= i < |s.payload| ==> a[start + i] == g.enc(key, s.nonce, i, s.payload[i]))
            && a[start + |s.payload|..] == g.tag(key, s.nonce, a[..start], a[start..start + |s.payload|])
  {
    var h, c := Header(s.nonce, |s.metadata|), EncryptFrom(g, key, s.nonce, 0, s.payload);
    FourSlices(h, s.metadata, c, g.tag(key, s.nonce, h + s.metadata, c));
    HeaderBytes(s.nonce, |s.metadata|);
  }

  lemma HeaderBytes(nonce: ByteString, size: nat)
    requires |nonce| == NONCE_BYTES && size < TWO32
    ensures var h := Header(nonce, size);
            && |h| == 33 && IsMagic(h[..16], "MAILGATE-BACKUP") && h[16] == 1 && h[17..29] == nonce
            && size == Number(h[29], h[30], h[31], h[32])
  {
    var h := Header(nonce, size);
    BigEndian(size);
    assert h[..16] == MAGIC && h[17..29] == nonce && h[29..33] == BE32(size);
  }

  lemma FourSlices(h: ByteString, m: ByteString, c: ByteString, tag: ByteString)
    requires |h| == FIXED
    ensures var a, start := h + m + c + tag, FIXED + |m|;
            && |a| == start + |c| + |tag| && (forall i :: 0 <= i < FIXED ==> a[i] == h[i])
            && a[..16] == h[..16] && a[17..29] == h[17..29] && a[33..start] == m && a[..start] == h + m
            && a[start..start + |c|] == c && a[start + |c|..] == tag
            && forall i :: 0 <= i < |c| ==> a[start + i] == c[i]
  {
  }

  /** And of the payload: its magic, the bundle's length in the same form, the bundle, the dump. */
  lemma PayloadBytes(j: Json, values: StringMap, dump: ByteString)
    requires BundlePrefix(j, values).Ok?
    ensures var p, b := BundlePrefix(j, values).value + dump, j.dumpBundle(values);
            && |p| == 20 + |b| + |dump| && IsMagic(p[..16], "MAILGATE-PGDUMP")
            && |b| == Number(p[16], p[17], p[18], p[19]) && |b| <= 65536
            && p[20..20 + |b|] == b && p[20 + |b|..] == dump
  {
    var p, b := BundlePrefix(j, values).value + dump, j.dumpBundle(values);
    BigEndian(|b|);
    assert p[..16] == PAYLOAD_MAGIC && p[16..20] == BE32(|b|);
    assert p[20..20 + |b|] == b && p[20 + |b|..] == dump;
  }

  /** And an archive that can be cut at all is the layout of its fields: no byte is unaccounted for. */
  lemma LayoutOfParse(j: Json, archive: ByteString)
    requires Parse(j, archive).Ok?
    ensures var f := Parse(j, archive).value;
            && |f.nonce| == NONCE_BYTES && 1 <= |f.metadata| <= MAX_METADATA
            && f.ciphertext != [] && |f.tag| == TAG_BYTES && j.loadMetadata(f.metadata).Some?
            && archive == Layout(f.nonce, f.metadata, f.ciphertext, f.tag)
  {
    var f := Parse(j, archive).value;
    var size := FromBE32(archive[29..33]);
    assert archive[29..33] == BE32(size) by { BE32Inverse(archive[29..33]); }
    var start, end := FIXED + size, |archive| - TAG_BYTES;
    assert archive[..FIXED] == archive[..16] + [archive[16]] + archive[17..29] + archive[29..33];
    FourParts(archive, FIXED, start, end);
  }

  lemma DecryptOfEncrypt(g: Gcm, key: ByteString, nonce: ByteString, payload: ByteString)
    requires GcmOk(g)
    ensures DecryptFrom(g, key, nonce, 0, EncryptFrom(g, key, nonce, 0, payload)) == payload
  {
  }

  /** Decrypting what was sealed gives back payload and metadata, unless the payload was empty, which
      is sealed without complaint and refused. */
  lemma UnsealOfSeal(g: Gcm, j: Json, key: ByteString, nonce: ByteString, metadata: StringMap, payload: ByteString)
    requires GcmOk(g) && JsonOk(j) && |nonce| == NONCE_BYTES && 1 <= |j.dumpMetadata(metadata)| <= MAX_METADATA
    ensures Unseal(g, j, key, Seal(g, key, nonce, j.dumpMetadata(metadata), payload)) ==
              if payload == [] then Err(NoPayload) else Ok((payload, metadata))
  {
    var m := j.dumpMetadata(metadata);
    var c := EncryptFrom(g, key, nonce, 0, payload);
    ParseOfLayout(j, nonce, m, c, g.tag(key, nonce, Header(nonce, |m|) + m, c));
    DecryptOfEncrypt(g, key, nonce, payload);
  }

  // One use of the key: what encrypt_stream was given, with its nonce.
  datatype Sealing = Sealing(nonce: ByteString, metadata: ByteString, payload: ByteString)

  ghost predicate Sealable(s: Sealing) { |s.nonce| == NONCE_BYTES && 1 <= |s.metadata| <= MAX_METADATA }

  function Authenticated(s: Sealing): ByteString
    requires |s.metadata| < TWO32
  {
    Header(s.nonce, |s.metadata|) + s.metadata
  }

  // An ideal tag: with this nonce it verifies nothing but what was sealed.
  ghost predicate VerifiesOnlySealed(g: Gcm, key: ByteString, f: Fields, sealed: iset<Sealing>) {
    forall a, c :: g.tag(key, f.nonce, a, c) == f.tag ==>
      exists s :: s in sealed && Sealable(s) && a == Authenticated(s) && c == EncryptFrom(g, key, s.nonce, 0, s.payload)
  }

  lemma AuthenticatedParts(s: Sealing, nonce: ByteString, metadata: ByteString)
    requires Sealable(s) && |nonce| == NONCE_BYTES && |metadata| < TWO32
    requires Authenticated(s) == Header(nonce, |metadata|) + metadata
    ensures s.nonce == nonce && s.metadata == metadata
  {
    HeaderParts(s.nonce, |s.metadata|, s.metadata);
    HeaderParts(nonce, |metadata|, metadata);
  }

  /** Where tags verify only for what was sealed, an archive that decrypts is one of the sealed ones,
      byte for byte, and yields its payload and its metadata: no header, metadata or ciphertext can
      be changed, cut or recombined. */
  lemma OnlySealedArchivesDecrypt(g: Gcm, j: Json, key: ByteString, archive: ByteString, sealed: iset<Sealing>)
    returns (s: Sealing)
    requires GcmOk(g) && Unseal(g, j, key, archive).Ok?
    requires VerifiesOnlySealed(g, key, Parse(j, archive).value, sealed)
    ensures s in sealed && Sealable(s) && archive == Seal(g, key, s.nonce, s.metadata, s.payload)
    ensures j.loadMetadata(s.metadata).Some?
    ensures Unseal(g, j, key, archive) == Ok((s.payload, j.loadMetadata(s.metadata).value))
  {
    LayoutOfParse(j, archive);
    var f := Parse(j, archive).value;
    ParseOfLayout(j, f.nonce, f.metadata, f.ciphertext, f.tag);
    var a := Header(f.nonce, |f.metadata|) + f.metadata;
    assert g.tag(key, f.nonce, a, f.ciphertext) == f.tag;
    s :|
      s in sealed && Sealable(s) && a == Authenticated(s) && f.ciphertext == EncryptFrom(g, key, s.nonce, 0, s.payload);
    AuthenticatedParts(s, f.nonce, f.metadata);
    DecryptOfEncrypt(g, key, s.nonce, s.payload);
  }

  // ---------- The payload ----------

  const KEY_NAMES: set<string> := {"master_key", "master_keyring"}

  predicate BundleOk(bundle: StringMap) {
    bundle != map[] && bundle.Keys <= KEY_NAMES && forall n :: n in bundle ==> bundle[n] != ""
  }

  // credential_bundle, from the key files that exist.
  function BundlePrefix(j: Json, values: StringMap): Result<ByteString, BackupError> {
    if "master_key" !in values && "master_keyring" !in values then Err(MissingKeys)
    else if |j.dumpBundle(values)| > MAX_BUNDLE then Err(BadBundle)
    else Ok(PAYLOAD_MAGIC + BE32(|j.dumpBundle(values)|) + j.dumpBundle(values))
  }

  // read_credential_bundle: the bundle and what is left of the stream.
  function ReadBundle(j: Json, payload: ByteString): Result<(StringMap, ByteString), BackupError> {
    if |payload| < 16 || payload[..16] != PAYLOAD_MAGIC then Err(NotAPayload)
    else if |payload| < 20 then Err(Truncated)
    else
      var size := FromBE32(payload[16..20]);
      if !(1 <= size <= MAX_BUNDLE) then Err(BadBundle)
      else
        var end := if 20 + size <= |payload| then 20 + size else |payload|;
        var bundle := j.loadBundle(payload[20..end]);
        if bundle.None? || !BundleOk(bundle.value) then Err(BadBundle)
        else Ok((bundle.value, payload[end..]))
  }

  /** The bundle is read back, leaving exactly the dump, if and only if no key file was empty. */
  lemma BundleRoundTrip(j: Json, values: StringMap, dump: ByteString)
    requires JsonOk(j) && values.Keys <= KEY_NAMES && BundlePrefix(j, values).Ok?
    ensures var payload := BundlePrefix(j, values).value + dump;
            if forall n :: n in values ==> values[n] != "" then ReadBundle(j, payload) == Ok((values, dump))
            else ReadBundle(j, payload) == Err(BadBundle)
  {
    var b := j.dumpBundle(values);
    var payload := BundlePrefix(j, values).value + dump;
    assert payload[..16] == PAYLOAD_MAGIC && payload[16..20] == BE32(|b|);
    BE32RoundTrip(|b|);
    assert payload[20..20 + |b|] == b && payload[20 + |b|..] == dump;
    assert j.loadBundle(b) == Some(values);
    assert values != map[];
  }

  // The key files that exist, as credential_bundle reads them.
  function KeyValues(files: StringMap): StringMap { map n | n in files && n in KEY_NAMES :: Strip(files[n]) }

  lemma {:induction false} StartBlank(s: string)
    ensures StripStart(s) == "" <==> Blanks(s)
    decreases |s|
  {
    if s != "" {
      StartBlank(s[1..]);
      assert forall i :: 1 <= i < |s| ==> s[1..][i - 1] == s[i];
    }
  }

  lemma {:induction false} EndBlank(s: string)
    ensures Blanks(StripEnd(s)) <==> Blanks(s)
    decreases |s|
  {
    if s != "" && IsSpace(s[|s| - 1]) {
      EndBlank(s[..|s| - 1]);
      assert forall i :: 0 <= i < |s| - 1 ==> s[..|s| - 1][i] == s[i];
    }
  }

  /** Whatever bundle stands in front of a dump, it is read back, with exactly the dump left, if and only
      if it is not empty, has no names but the two, and no empty value. */
  lemma AnyBundle(j: Json, bundle: StringMap, dump: ByteString)
    requires JsonOk(j) && |j.dumpBundle(bundle)| <= 65536
    ensures var b := j.dumpBundle(bundle);
            ReadBundle(j, PAYLOAD_MAGIC + BE32(|b|) + b + dump) ==
              if bundle != map[] && (forall n :: n in bundle ==> n == "master_key" || n == "master_keyring")
                 && (forall n :: n in bundle ==> bundle[n] != "")
              then Ok((bundle, dump)) else Err(BadBundle)
  {
    var b := j.dumpBundle(bundle);
    var payload := PAYLOAD_MAGIC + BE32(|b|) + b + dump;
    assert payload[..16] == PAYLOAD_MAGIC && payload[16..20] == BE32(|b|);
    BE32RoundTrip(|b|);
    assert payload[20..20 + |b|] == b && payload[20 + |b|..] == dump;
    assert j.loadBundle(b) == Some(bundle);
    assert bundle.Keys <= KEY_NAMES <==> forall n :: n in bundle ==> n == "master_key" || n == "master_keyring";
  }

  /** The backup of these key files is read back, leaving exactly the dump, if and only if none of
      them holds nothing but blanks. */
  lemma KeyFilesRoundTrip(j: Json, files: StringMap, dump: ByteString)
    requires JsonOk(j) && BundlePrefix(j, KeyValues(files)).Ok?
    ensures var payload := BundlePrefix(j, KeyValues(files)).value + dump;
            if exists n :: n in files && n in KEY_NAMES && Blanks(files[n]) then
              ReadBundle(j, payload) == Err(BadBundle)
            else ReadBundle(j, payload) == Ok((KeyValues(files), dump))
  {
    BundleRoundTrip(j, KeyValues(files), dump);
    forall n | n in files && n in KEY_NAMES ensures KeyValues(files)[n] == "" <==> Blanks(files[n]) {
      EndBlank(files[n]);
      StartBlank(StripEnd(files[n]));
    }
  }

  /** One key file of any number of blanks, or of nothing, makes a backup that is written without
      complaint and never restores. */
  lemma EmptyKeyFile(j: Json, blanks: string, dump: ByteString)
    requires JsonOk(j) && Blanks(blanks) && |j.dumpBundle(map["master_key" := ""])| <= MAX_BUNDLE
    ensures var prefix := BundlePrefix(j, KeyValues(map["master_key" := blanks]));
            prefix.Ok? && ReadBundle(j, prefix.value + dump) == Err(BadBundle)
  {
    var files: StringMap := map["master_key" := blanks];
    EndBlank(blanks);
    StartBlank(StripEnd(blanks));
    assert files["master_key"] == blanks;
    assert KeyValues(files) == map["master_key" := ""];
    KeyFilesRoundTrip(j, files, dump);
  }

  /** End to end: a backup restores to the same metadata, the same bundle and exactly the dump. */
  lemma BackupRoundTrip(
    g: Gcm, j: Json, key: ByteString, nonce: ByteString, metadata: StringMap, values: StringMap, dump: ByteString)
    requires GcmOk(g) && JsonOk(j) && |nonce| == NONCE_BYTES && 1 <= |j.dumpMetadata(metadata)| <= MAX_METADATA
    requires BundleOk(values) && BundlePrefix(j, values).Ok?
    ensures var archive := Seal(g, key, nonce, j.dumpMetadata(metadata), BundlePrefix(j, values).value + dump);
            var restored := Unseal(g, j, key, archive);
            restored.Ok? && restored.value.1 == metadata && ReadBundle(j, restored.value.0) == Ok((values, dump))
  {
    UnsealOfSeal(g, j, key, nonce, metadata, BundlePrefix(j, values).value + dump);
    BundleRoundTrip(j, values, dump);
  }

  // ---------- What a restore leaves ----------

  // The decrypted payload that stays on disk when nothing else fails: the one case is an archive
  // that decrypts where there is no Docker command.
  function Left(g: Gcm, j: Json, key: ByteString, archive: ByteString, docker: bool): Option<ByteString> {
    if docker || |key| != 32 || Unseal(g, j, key, archive).Err? then None
    else Some(Unseal(g, j, key, archive).value.0)
  }

  /** Without Docker, restoring any sealed archive with a payload leaves that payload, from which
      key files and dump can be read as above. */
  lemma MissingDockerLeavesPayload(g: Gcm, j: Json, key: ByteString, s: Sealing, metadata: StringMap)
    requires GcmOk(g) && JsonOk(j) && |key| == 32 && Sealable(s) && s.metadata == j.dumpMetadata(metadata)
    requires s.payload != []
    ensures Left(g, j, key, Seal(g, key, s.nonce, s.metadata, s.payload), false) == Some(s.payload)
  {
    UnsealOfSeal(g, j, key, s.nonce, metadata, s.payload);
  }

  /** No restore with any key and any archive leaves a payload, if and only if Docker is there. */
  lemma NothingLeftIff(g: Gcm, j: Json, metadata: StringMap, docker: bool)
    requires GcmOk(g) && JsonOk(j) && 1 <= |j.dumpMetadata(metadata)| <= MAX_METADATA
    ensures docker <==> forall key: ByteString, archive: ByteString :: Left(g, j, key, archive, docker).None?
  {
    if !docker {
      var key: ByteString, nonce: ByteString := seq(32, i => 0), seq(NONCE_BYTES, i => 0);
      UnsealOfSeal(g, j, key, nonce, metadata, [0]);
      assert Left(g, j, key, Seal(g, key, nonce, j.dumpMetadata(metadata), [0]), docker).Some?;
    }
  }
}
