/**
 The mailbox-credential keyring: the "mgk1:<key id>:<token>" envelope, encryption under the
 primary key and decryption with any retained one. Fernet itself is a parameter.
 */
module CredentialKeyring {
  import opened Wrappers
  import opened Strings

  type FernetKey = string
  type KeyId = string

  // Encryption takes the random part of a token as an argument.
  datatype Fernet = Fernet(
    enc: (FernetKey, nat, string) -> string,
    dec: (FernetKey, string) -> Option<string>)

  // An ideal authenticated cipher. A Fernet token starts with its version byte, "gA" in
  // Base64, so it never looks like an envelope.
  ghost predicate Ideal(c: Fernet) {
    && (forall k, n, p :: c.dec(k, c.enc(k, n, p)) == Some(p))
    && (forall k, j, n, p :: k != j ==> c.dec(j, c.enc(k, n, p)).None?)
    && (forall k, n, p :: c.enc(k, n, p) != "" && !StartsWith(c.enc(k, n, p), PREFIX))
  }

  datatype CryptoError =
    | UnavailableKey(id: KeyId) | CannotDecrypt | InvalidEnvelope | InvalidConfiguration | FailedVerification

  const PREFIX := "mgk1:"

  predicate AlphaNumeric(c: char) { 'a' <= c <= 'z' || 'A' <= c <= 'Z' || '0' <= c <= '9' }

  predicate ValidId(id: KeyId) {
    && 1 <= |id| <= 64 && AlphaNumeric(id[0])
    && forall i :: 0 <= i < |id| ==> AlphaNumeric(id[i]) || id[i] in "._-"
  }

  // Where the first colon is, or the length.
  function Colon(s: string): (i: nat)
    ensures i <= |s| && (i < |s| ==> s[i] == ':') && forall j :: 0 <= j < i ==> s[j] != ':'
  {
    if s == "" || s[0] == ':' then 0 else 1 + Colon(s[1..])
  }

  // primary None: an installation with a single unversioned master key.
  datatype Keyring = Keyring(primary: Option<KeyId>, keys: map<KeyId, FernetKey>, legacy: seq<FernetKey>)

  predicate WellFormed(kr: Keyring) {
    if kr.primary.None? then kr.keys == map[] && |kr.legacy| == 1
    else
      && kr.primary.value in kr.keys
      && (forall id :: id in kr.keys ==> ValidId(id) && kr.keys[id] in kr.legacy)
  }

  function Envelope(id: KeyId, token: string): string { PREFIX + id + ":" + token }

  function Encrypt(c: Fernet, kr: Keyring, nonce: nat, plain: string): string
    requires WellFormed(kr)
  {
    if kr.primary.None? then c.enc(kr.legacy[0], nonce, plain)
    else Envelope(kr.primary.value, c.enc(kr.keys[kr.primary.value], nonce, plain))
  }

  function Identify(value: string): Result<(Option<KeyId>, string), CryptoError> {
    if !StartsWith(value, PREFIX) then Ok((None, value))
    else
      var rest := value[|PREFIX|..];
      var i := Colon(rest);
      if i == |rest| || !ValidId(rest[..i]) || i + 1 == |rest| then Err(InvalidEnvelope)
      else Ok((Some(rest[..i]), rest[i + 1..]))
  }

  function TryKeys(c: Fernet, keys: seq<FernetKey>, token: string): Result<string, CryptoError> {
    if keys == [] then Err(CannotDecrypt)
    else if c.dec(keys[0], token).Some? then Ok(c.dec(keys[0], token).value)
    else TryKeys(c, keys[1..], token)
  }

  function Decrypt(c: Fernet, kr: Keyring, value: string): Result<string, CryptoError> {
    match Identify(value)
    case Err(e) => Err(e)
    case Ok((Some(id), token)) =>
      if id !in kr.keys then Err(UnavailableKey(id))
      else if c.dec(kr.keys[id], token).None? then Err(CannotDecrypt)
      else Ok(c.dec(kr.keys[id], token).value)
    case Ok((None, token)) => TryKeys(c, kr.legacy, token)
  }

  function UsesPrimary(kr: Keyring, value: string): bool {
    Identify(value).Ok? && Identify(value).value.0 == kr.primary
  }

  // ---------- The envelope ----------

  /** Parsing inverts printing, and whatever parses was printed that way. */
  lemma EnvelopeRoundTrip(id: KeyId, token: string, value: string)
    ensures ValidId(id) && token != "" ==> Identify(Envelope(id, token)) == Ok((Some(id), token))
    ensures Identify(value) == Ok((Some(id), token)) ==> ValidId(id) && token != "" && value == Envelope(id, token)
  {
    if ValidId(id) && token != "" {
      var e := Envelope(id, token);
      assert e[..|PREFIX|] == PREFIX;
      var rest := e[|PREFIX|..];
      assert rest == id + ":" + token;
      assert Colon(rest) == |id| by {
        assert rest[|id|] == ':';
        assert forall j :: 0 <= j < |id| ==> rest[j] == id[j] && id[j] != ':';
      }
      assert rest[..|id|] == id && rest[|id| + 1..] == token;
    }
    if Identify(value) == Ok((Some(id), token)) {
      var rest := value[|PREFIX|..];
      var i := Colon(rest);
      assert value == value[..|PREFIX|] + rest;
      assert rest == rest[..i] + ":" + rest[i + 1..];
    }
  }

  // ---------- Where a stored value comes from ----------

  // The value was sealed with this key, under this id or without one.
  ghost predicate SealedBy(c: Fernet, value: string, id: Option<KeyId>, key: FernetKey, plain: string) {
    exists n :: value == if id.None? then c.enc(key, n, plain) else Envelope(id.value, c.enc(key, n, plain))
  }

  // The keyring still has what opens it.
  ghost predicate Holds(c: Fernet, kr: Keyring, value: string, plain: string) {
    || (exists key :: key in kr.legacy && SealedBy(c, value, None, key, plain))
    || (exists id :: id in kr.keys && ValidId(id) && SealedBy(c, value, Some(id), kr.keys[id], plain))
  }

  lemma {:induction false} TryKeysFinds(c: Fernet, keys: seq<FernetKey>, key: FernetKey, n: nat, plain: string)
    requires Ideal(c) && key in keys
    ensures TryKeys(c, keys, c.enc(key, n, plain)) == Ok(plain)
  {
    assert c.dec(key, c.enc(key, n, plain)) == Some(plain);
    if keys[0] != key {
      assert c.dec(keys[0], c.enc(key, n, plain)).None?;
      TryKeysFinds(c, keys[1..], key, n, plain);
    }
  }

  /** A value whose key is held decrypts to its plaintext, in whatever order keys are tried. */
  lemma HeldIsReadable(c: Fernet, kr: Keyring, value: string, plain: string)
    requires Ideal(c) && Holds(c, kr, value, plain)
    ensures Decrypt(c, kr, value) == Ok(plain)
  {
    if key :| key in kr.legacy && SealedBy(c, value, None, key, plain) {
      var n :| value == c.enc(key, n, plain);
      TryKeysFinds(c, kr.legacy, key, n, plain);
    } else {
      var id :| id in kr.keys && ValidId(id) && SealedBy(c, value, Some(id), kr.keys[id], plain);
      var n :| value == Envelope(id, c.enc(kr.keys[id], n, plain));
      EnvelopeRoundTrip(id, c.enc(kr.keys[id], n, plain), value);
    }
  }

  lemma EncryptIsHeld(c: Fernet, kr: Keyring, nonce: nat, plain: string)
    requires Ideal(c) && WellFormed(kr)
    ensures Holds(c, kr, Encrypt(c, kr, nonce, plain), plain)
    ensures UsesPrimary(kr, Encrypt(c, kr, nonce, plain))
  {
    var value := Encrypt(c, kr, nonce, plain);
    if kr.primary.None? {
      assert SealedBy(c, value, None, kr.legacy[0], plain);
    } else {
      var id := kr.primary.value;
      assert SealedBy(c, value, Some(id), kr.keys[id], plain);
      EnvelopeRoundTrip(id, c.enc(kr.keys[id], nonce, plain), value);
    }
  }

  // Sealed under the primary ID, or without an envelope where the installation has no IDs.
  ghost predicate OnPrimary(kr: Keyring, value: string) {
    match kr.primary
    case None => !StartsWith(value, "mgk1:")
    case Some(id) => exists token :: token != "" && ValidId(id) && value == "mgk1:" + id + ":" + token
  }

  /** A value uses the primary key exactly if that ID is the one in its envelope. */
  lemma PrimaryMeaning(kr: Keyring, value: string)
    ensures UsesPrimary(kr, value) <==> OnPrimary(kr, value)
  {
    if kr.primary.Some? {
      var id := kr.primary.value;
      if UsesPrimary(kr, value) {
        EnvelopeRoundTrip(id, Identify(value).value.1, value);
      }
      if token :| token != "" && ValidId(id) && value == "mgk1:" + id + ":" + token {
        EnvelopeRoundTrip(id, token, value);
      }
    }
  }

  // ---------- Re-encryption ----------

  function Reencrypt(c: Fernet, kr: Keyring, nonce: nat, value: string): Result<(string, bool), CryptoError>
    requires WellFormed(kr)
  {
    match Decrypt(c, kr, value)
    case Err(e) => Err(e)
    case Ok(plain) =>
      if UsesPrimary(kr, value) then Ok((value, false))
      else
        var rotated := Encrypt(c, kr, nonce, plain);
        if Decrypt(c, kr, rotated) != Ok(plain) then Err(FailedVerification) else Ok((rotated, true))
  }

  lemma ReencryptKeepsPlaintext(c: Fernet, kr: Keyring, nonce: nat, value: string)
    requires Ideal(c) && WellFormed(kr)
    ensures var r := Reencrypt(c, kr, nonce, value);
            && (r.Ok? <==> Decrypt(c, kr, value).Ok?)
            && (r.Ok? ==>
                  && UsesPrimary(kr, r.value.0)
                  && Decrypt(c, kr, r.value.0) == Decrypt(c, kr, value)
                  && (r.value.1 <==> !UsesPrimary(kr, value))
                  && (!r.value.1 ==> r.value.0 == value)
                  && (r.value.1 ==> Holds(c, kr, r.value.0, Decrypt(c, kr, value).value)))
  {
    if Decrypt(c, kr, value).Ok? {
      var plain := Decrypt(c, kr, value).value;
      EncryptIsHeld(c, kr, nonce, plain);
      HeldIsReadable(c, kr, Encrypt(c, kr, nonce, plain), plain);
    }
  }

  datatype Row = Row(password: string, version: nat)

  // One iteration of the loop.
  function RotateOne(c: Fernet, kr: Keyring, nonce: nat, row: Row): Result<Row, CryptoError>
    requires WellFormed(kr)
  {
    match Reencrypt(c, kr, nonce, row.password)
    case Err(e) => Err(e)
    case Ok((value, changed)) => Ok(if changed then Row(value, row.version + 1) else row)
  }

  // What the loop does to a row, by its place in the table.
  type Change = (nat, Row) -> Result<Row, CryptoError>

  // The first n rows, one by one; any failure fails the whole.
  function Each(f: Change, rows: seq<Row>, n: nat): (r: Result<seq<Row>, CryptoError>)
    requires n <= |rows|
    ensures r.Ok? ==> |r.value| == n
  {
    if n == 0 then Ok([])
    else
      var done := Each(f, rows, n - 1);
      if done.Err? then done
      else
        var row := f(n - 1, rows[n - 1]);
        if row.Err? then Err(row.error) else Ok(done.value + [row.value])
  }

  // All of them succeed, or the first that fails decides.
  lemma {:induction false} EachMeaning(f: Change, rows: seq<Row>, n: nat)
    requires n <= |rows|
    ensures var r := Each(f, rows, n);
            && (r.Ok? <==> forall i :: 0 <= i < n ==> f(i, rows[i]).Ok?)
            && (r.Ok? ==> forall i :: 0 <= i < n ==> r.value[i] == f(i, rows[i]).value)
  {
    if n > 0 { EachMeaning(f, rows, n - 1); }
  }

  lemma {:induction false} EachFails(f: Change, rows: seq<Row>, i: nat, n: nat)
    requires i < n <= |rows| && Each(f, rows, i).Ok? && f(i, rows[i]).Err?
    ensures Each(f, rows, n) == Err(f(i, rows[i]).error)
  {
    if i < n - 1 { EachFails(f, rows, i, n - 1); }
  }

  function RotateBy(c: Fernet, kr: Keyring, nonces: nat -> nat): Change
    requires WellFormed(kr)
  {
    (n: nat, row: Row) => RotateOne(c, kr, nonces(n), row)
  }

  // The whole table.
  function RotateRows(c: Fernet, kr: Keyring, nonces: nat -> nat, rows: seq<Row>): Result<seq<Row>, CryptoError>
    requires WellFormed(kr)
  {
    Each(RotateBy(c, kr, nonces), rows, |rows|)
  }

  // How many of the first n rows are not on the primary key.
  function CountFirst(rows: seq<Row>, kr: Keyring, n: nat): nat
    requires n <= |rows|
  {
    if n == 0 then 0 else CountFirst(rows, kr, n - 1) + if UsesPrimary(kr, rows[n - 1].password) then 0 else 1
  }

  function Count(rows: seq<Row>, kr: Keyring): nat { CountFirst(rows, kr, |rows|) }

  // On the primary key, with its plaintext, and a version moved by one exactly if it was rewritten.
  ghost predicate RowRotated(c: Fernet, kr: Keyring, before: Row, after: Row) {
    && OnPrimary(kr, after.password)
    && Decrypt(c, kr, after.password) == Decrypt(c, kr, before.password)
    && (if OnPrimary(kr, before.password) then after == before else after.version == before.version + 1)
  }

  predicate Readable(c: Fernet, kr: Keyring, row: Row) { Decrypt(c, kr, row.password).Ok? }

  lemma OneRotates(c: Fernet, kr: Keyring, nonce: nat, row: Row)
    requires Ideal(c) && WellFormed(kr)
    ensures RotateOne(c, kr, nonce, row).Ok? <==> Readable(c, kr, row)
    ensures RotateOne(c, kr, nonce, row).Ok? ==> RowRotated(c, kr, row, RotateOne(c, kr, nonce, row).value)
  {
    ReencryptKeepsPlaintext(c, kr, nonce, row.password);
    PrimaryMeaning(kr, row.password);
    if Readable(c, kr, row) { PrimaryMeaning(kr, RotateOne(c, kr, nonce, row).value.password); }
  }

  ghost predicate AllReadable(c: Fernet, kr: Keyring, rows: seq<Row>) {
    forall i :: 0 <= i < |rows| ==> Readable(c, kr, rows[i])
  }

  ghost predicate AllRotated(c: Fernet, kr: Keyring, before: seq<Row>, after: seq<Row>) {
    |after| == |before| && forall i :: 0 <= i < |before| ==> RowRotated(c, kr, before[i], after[i])
  }

  /** A completed rotation leaves every row on the primary key with the plaintext it had, and
      moves the version of exactly the rows it rewrote by one; it completes exactly when every
      row can be read. */
  lemma {:induction false} RotationMeaning(c: Fernet, kr: Keyring, nonces: nat -> nat, rows: seq<Row>)
    requires Ideal(c) && WellFormed(kr)
    ensures RotateRows(c, kr, nonces, rows).Ok? <==> AllReadable(c, kr, rows)
    ensures RotateRows(c, kr, nonces, rows).Ok? ==> AllRotated(c, kr, rows, RotateRows(c, kr, nonces, rows).value)
  {
    EachMeaning(RotateBy(c, kr, nonces), rows, |rows|);
    forall i | 0 <= i < |rows|
      ensures RotateBy(c, kr, nonces)(i, rows[i]) == RotateOne(c, kr, nonces(i), rows[i])
      ensures RotateOne(c, kr, nonces(i), rows[i]).Ok? <==> Readable(c, kr, rows[i])
      ensures RotateOne(c, kr, nonces(i), rows[i]).Ok? ==>
                RowRotated(c, kr, rows[i], RotateOne(c, kr, nonces(i), rows[i]).value)
    {
      OneRotates(c, kr, nonces(i), rows[i]);
    }
  }

  lemma RotatedRowStays(c: Fernet, kr: Keyring, nonce: nat, row: Row)
    requires WellFormed(kr) && Readable(c, kr, row) && UsesPrimary(kr, row.password)
    ensures RotateOne(c, kr, nonce, row) == Ok(row)
  {
  }

  ghost predicate AllOnPrimary(kr: Keyring, rows: seq<Row>) {
    forall i :: 0 <= i < |rows| ==> UsesPrimary(kr, rows[i].password)
  }

  /** Repeating a completed rotation changes nothing. */
  lemma {:induction false} RotationIsIdempotent(c: Fernet, kr: Keyring, nonces: nat -> nat, rows: seq<Row>)
    requires Ideal(c) && WellFormed(kr) && AllReadable(c, kr, rows) && AllOnPrimary(kr, rows)
    ensures RotateRows(c, kr, nonces, rows) == Ok(rows)
  {
    EachMeaning(RotateBy(c, kr, nonces), rows, |rows|);
    forall i | 0 <= i < |rows| ensures RotateBy(c, kr, nonces)(i, rows[i]) == Ok(rows[i]) {
      RotatedRowStays(c, kr, nonces(i), rows[i]);
    }
    assert RotateRows(c, kr, nonces, rows).value == rows;
  }

  // What reencrypt_secret gives for the value of the n-th row: a value, and whether it is a new one.
  type Step = (nat, string) -> Result<(string, bool), CryptoError>

  // What becomes of a row: a new value moves its version.
  function AfterStep(step: Result<(string, bool), CryptoError>, row: Row): Result<Row, CryptoError> {
    if step.Err? then Err(step.error)
    else Ok(if step.value.1 then Row(step.value.0, row.version + 1) else row)
  }

  function ChangeBy(step: Step): Change { (n: nat, row: Row) => AfterStep(step(n, row.password), row) }

  // How many of the first n rows get a new value.
  function CountNew(step: Step, rows: seq<Row>, n: nat): nat
    requires n <= |rows|
  {
    if n == 0 then 0
    else
      var last := step(n - 1, rows[n - 1].password);
      CountNew(step, rows, n - 1) + if last.Ok? && last.value.1 then 1 else 0
  }

  function Reencrypting(c: Fernet, kr: Keyring, nonces: nat -> nat): Step
    requires WellFormed(kr)
  {
    (n: nat, value: string) => Reencrypt(c, kr, nonces(n), value)
  }

  lemma {:induction false} SameEach(f: Change, g: Change, rows: seq<Row>, n: nat)
    requires n <= |rows| && forall i :: 0 <= i < n ==> f(i, rows[i]) == g(i, rows[i])
    ensures Each(f, rows, n) == Each(g, rows, n)
  {
    if n > 0 { SameEach(f, g, rows, n - 1); }
  }

  lemma StepRotates(c: Fernet, kr: Keyring, nonces: nat -> nat, n: nat, row: Row)
    requires WellFormed(kr)
    ensures ChangeBy(Reencrypting(c, kr, nonces))(n, row) == RotateBy(c, kr, nonces)(n, row)
    ensures var step := Reencrypting(c, kr, nonces)(n, row.password);
            step.Ok? ==> (step.value.1 <==> !UsesPrimary(kr, row.password))
  {
    var step := Reencrypting(c, kr, nonces);
    assert step(n, row.password) == Reencrypt(c, kr, nonces(n), row.password);
    assert ChangeBy(step)(n, row) == AfterStep(step(n, row.password), row);
    assert RotateBy(c, kr, nonces)(n, row) == RotateOne(c, kr, nonces(n), row);
  }

  lemma {:induction false} CountsNew(c: Fernet, kr: Keyring, nonces: nat -> nat, rows: seq<Row>, n: nat)
    requires WellFormed(kr) && n <= |rows|
    requires forall i :: 0 <= i < n ==> Reencrypting(c, kr, nonces)(i, rows[i].password).Ok?
    ensures CountNew(Reencrypting(c, kr, nonces), rows, n) == CountFirst(rows, kr, n)
  {
    if n > 0 {
      CountsNew(c, kr, nonces, rows, n - 1);
      StepRotates(c, kr, nonces, n - 1, rows[n - 1]);
    }
  }

  lemma {:induction false} StepsRotate(c: Fernet, kr: Keyring, nonces: nat -> nat, rows: seq<Row>)
    requires WellFormed(kr)
    ensures Each(ChangeBy(Reencrypting(c, kr, nonces)), rows, |rows|) == RotateRows(c, kr, nonces, rows)
    ensures RotateRows(c, kr, nonces, rows).Ok? ==>
              CountNew(Reencrypting(c, kr, nonces), rows, |rows|) == Count(rows, kr)
  {
    var step := Reencrypting(c, kr, nonces);
    forall i | 0 <= i < |rows| ensures ChangeBy(step)(i, rows[i]) == RotateBy(c, kr, nonces)(i, rows[i]) {
      StepRotates(c, kr, nonces, i, rows[i]);
    }
    SameEach(ChangeBy(step), RotateBy(c, kr, nonces), rows, |rows|);
    EachMeaning(ChangeBy(step), rows, |rows|);
    if RotateRows(c, kr, nonces, rows).Ok? {
      forall i | 0 <= i < |rows| ensures step(i, rows[i].password).Ok? { assert ChangeBy(step)(i, rows[i]).Ok?; }
      CountsNew(c, kr, nonces, rows, |rows|);
    }
  }

  // The first i rows of the table are changed, the others as they were.
  ghost predicate Progress(f: Change, saved: seq<Row>, rows: seq<Row>, i: nat)
    requires i <= |saved|
  {
    && |rows| == |saved| && (forall k :: i <= k < |saved| ==> rows[k] == saved[k])
    && Each(f, saved, i) == Ok(rows[..i])
  }

  lemma ProgressStep(f: Change, saved: seq<Row>, rows: seq<Row>, i: nat, row: Row)
    requires i < |saved| && Progress(f, saved, rows, i) && f(i, saved[i]) == Ok(row)
    ensures Progress(f, saved, rows[i := row], i + 1)
  {
    assert rows[i := row][..i + 1] == rows[..i] + [row];
  }

  class CredentialTable {
    var rows: seq<Row>

    constructor (rows: seq<Row>)
      ensures this.rows == rows
    {
      this.rows := rows;
    }

    static predicate AllOrNone(
      done: Result<seq<Row>, CryptoError>, count: nat, before: seq<Row>, after: seq<Row>,
      result: Result<(nat, nat), CryptoError>)
    {
      if done.Err? then result == Err(done.error) && after == before
      else after == done.value && result == Ok((count, |after|))
    }

    /** rotate_mailbox_credentials: one transaction, rolled back by the first unreadable row. */
    method RotateCredentials(c: Fernet, kr: Keyring, nonces: nat -> nat)
      returns (result: Result<(nat, nat), CryptoError>)
      requires WellFormed(kr)
      modifies this
      ensures kr.primary.None? ==> result == Err(InvalidConfiguration) && rows == old(rows)
      ensures kr.primary.Some? ==>
                AllOrNone(RotateRows(c, kr, nonces, old(rows)), Count(old(rows), kr), old(rows), rows, result)
    {
      if kr.primary.None? {
        return Err(InvalidConfiguration);
      }
      StepsRotate(c, kr, nonces, rows);
      result := RotateAll(Reencrypting(c, kr, nonces));
    }

    // The transaction itself, for any way of re-encrypting.
    method RotateAll(step: Step) returns (result: Result<(nat, nat), CryptoError>)
      modifies this
      ensures AllOrNone(Each(ChangeBy(step), old(rows), |old(rows)|), CountNew(step, old(rows), |old(rows)|), old(rows),
                        rows, result)
    {
      var saved := rows;
      ghost var f := ChangeBy(step);
      var rotated, verified := 0, 0;
      while verified < |saved|
        invariant verified <= |saved| && Progress(f, saved, rows, verified)
        invariant rotated == CountNew(step, saved, verified)
      {
        ghost var before := rows;
        var row := rows[verified];
        assert row == saved[verified];
        var value := step(verified, row.password);
        if value.Err? {
          EachFails(f, saved, verified, |saved|);
          rows := saved;
          return Err(value.error);
        }
        if value.value.1 {
          rows := rows[verified := Row(value.value.0, row.version + 1)];
          rotated := rotated + 1;
        }
        assert f(verified, row) == Ok(rows[verified]);
        ProgressStep(f, saved, before, verified, rows[verified]);
        assert rows == before[verified := rows[verified]];
        verified := verified + 1;
      }
      assert rows[..verified] == rows;
      return Ok((rotated, verified));
    }
  }
}
