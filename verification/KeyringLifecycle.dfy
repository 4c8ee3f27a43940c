/**
 The keyring over its whole life: concurrent rotators behind an exclusive lock file, running
 applications with the keyring they started with, new passwords, whole-table rotations, and
 power losses that bring back a document whose replacement had not reached the disk.
 */
module KeyringLifecycle {
  import opened Wrappers
  import opened CredentialKeyring

  type Pid = nat
  type AppId = nat
  type BoxId = nat

  const MAXIMUM_KEYS := 32

  // The master_keyring file.
  datatype Document = Document(primary: KeyId, keys: map<KeyId, FernetKey>)

  datatype Request = Request(newId: KeyId, legacyId: Option<KeyId>, activate: bool, generated: FernetKey)

  datatype Plan = Unchanged | Refuse | Replace(document: Document)

  predicate DocumentOk(d: Document) {
    && d.primary in d.keys && 1 <= |d.keys| <= MAXIMUM_KEYS
    && forall id :: id in d.keys ==> ValidId(id)
  }

  // rotate_credential_keyring between reading the file and writing it.
  function Prepare(file: Option<Document>, master: Option<FernetKey>, req: Request): Plan {
    if !ValidId(req.newId) then Refuse
    else if file.Some? then
      var d := file.value;
      if !DocumentOk(d) then Refuse
      else if req.newId in d.keys then
        if d.primary == req.newId then Unchanged
        else if !req.activate then Refuse
        else Replace(d.(primary := req.newId))
      else if |d.keys| >= MAXIMUM_KEYS then Refuse
      else Replace(Document(req.newId, d.keys[req.newId := req.generated]))
    else if req.activate || req.legacyId.None? || !ValidId(req.legacyId.value) || req.legacyId.value == req.newId
         || master.None? then Refuse
    else Replace(Document(req.newId, map[req.legacyId.value := master.value, req.newId := req.generated]))
  }

  // `fallback` holds the earlier documents a power loss may still bring back.
  datatype World = World(
    file: Option<Document>, fallback: set<Option<Document>>, master: Option<FernetKey>,
    lock: Option<Pid>, loaded: map<Pid, Option<Document>>,
    apps: map<AppId, Keyring>,
    creds: map<BoxId, string>, plain: map<BoxId, string>)

  datatype Event =
    | Acquire(pid: Pid)
    | Load(pid: Pid)
    | Write(pid: Pid, req: Request, took: bool)   // up to the rename, which leaves all or nothing
    | Settle                                      // the directory reaches the disk, at the latest as the write returns
    | Release(pid: Pid)
    | Die(pid: Pid)                               // the lock file stays behind
    | ClearStaleLock(pid: Pid)                    // the operator, once the process is gone
    | PowerLoss(back: Option<Document>, lock: Option<Pid>)   // the lock file may be left, or come back
    | StartApp(app: AppId, legacy: seq<FernetKey>)
    | SetPassword(app: AppId, box: BoxId, nonce: nat, password: string)
    | RotateTable(app: AppId, nonces: nat -> nat)
    | Remove(box: BoxId)

  // Every key a token without an envelope may have been made with.
  predicate Known(file: Option<Document>, master: Option<FernetKey>, key: FernetKey) {
    master == Some(key) || (file.Some? && key in file.value.keys.Values)
  }

  // from_settings; dictionary order decides in which order unversioned tokens are tried.
  ghost predicate FromSettings(file: Option<Document>, master: Option<FernetKey>, legacy: seq<FernetKey>, kr: Keyring) {
    if file.Some? then
      && DocumentOk(file.value)
      && (forall key :: key in legacy <==> Known(file, master, key))
      && kr == Keyring(Some(file.value.primary), file.value.keys, legacy)
    else master.Some? && legacy == [master.value] && kr == Keyring(None, map[], legacy)
  }

  function TableRotates(c: Fernet, kr: Keyring, creds: map<BoxId, string>, nonces: nat -> nat): bool
    requires WellFormed(kr)
  {
    forall b :: b in creds ==> Reencrypt(c, kr, nonces(b), creds[b]).Ok?
  }

  // What the file may be after a power loss.
  function Docs(w: World): set<Option<Document>> { w.fallback + {w.file} }

  ghost function Apply(c: Fernet, w: World, e: Event): World {
    match e
    case Acquire(p) => if w.lock.None? then w.(lock := Some(p)) else w
    case Load(p) => if w.lock == Some(p) then w.(loaded := w.loaded[p := w.file]) else w
    case Write(p, req, took) =>
      if p !in w.loaded then w
      else
        var plan := Prepare(w.loaded[p], w.master, req);
        if !plan.Replace? || !took then w.(loaded := w.loaded - {p})
        else w.(file := Some(plan.document), fallback := Docs(w), loaded := w.loaded - {p})
    case Settle => w.(fallback := {})
    case Release(p) => if w.lock == Some(p) then w.(lock := None, loaded := w.loaded - {p}) else w
    case Die(p) => w.(loaded := w.loaded - {p})
    case ClearStaleLock(p) => if w.lock == Some(p) && p !in w.loaded then w.(lock := None) else w
    case PowerLoss(back, lock) =>
      if back !in Docs(w) then w
      else w.(file := back, fallback := {}, lock := lock, loaded := map[], apps := map[])
    case StartApp(a, legacy) =>
      if exists kr :: FromSettings(w.file, w.master, legacy, kr) then
        var kr :| FromSettings(w.file, w.master, legacy, kr);
        w.(apps := w.apps[a := kr])
      else w
    case SetPassword(a, box, nonce, password) =>
      if a !in w.apps || !WellFormed(w.apps[a]) then w
      else w.(creds := w.creds[box := Encrypt(c, w.apps[a], nonce, password)], plain := w.plain[box := password])
    case RotateTable(a, nonces) =>
      if a !in w.apps || !WellFormed(w.apps[a]) || !TableRotates(c, w.apps[a], w.creds, nonces) then w
      else w.(creds := map b | b in w.creds :: Reencrypt(c, w.apps[a], nonces(b), w.creds[b]).value.0)
    case Remove(box) => w.(creds := w.creds - {box}, plain := w.plain - {box})
  }

  ghost function Replay(c: Fernet, w: World, es: seq<Event>): World {
    if es == [] then w else Apply(c, Replay(c, w, es[..|es| - 1]), es[|es| - 1])
  }

  // ---------- Keys ----------

  // Every key of the one document is in the other, under the same id.
  predicate Includes(d: Option<Document>, base: Option<Document>) {
    base.Some? ==> d.Some? && forall id :: id in base.value.keys ==>
      id in d.value.keys && d.value.keys[id] == base.value.keys[id]
  }

  // Documents are valid, and whoever has loaded one holds the lock and has the current one.
  ghost predicate FilesOk(w: World) {
    && (forall d :: d in Docs(w) && d.Some? ==> DocumentOk(d.value))
    && (forall p :: p in w.loaded ==> w.lock == Some(p) && w.loaded[p] == w.file)
  }

  ghost predicate AllInclude(w: World, base: Option<Document>) { forall d :: d in Docs(w) ==> Includes(d, base) }

  lemma PlanKeepsKeys(file: Option<Document>, master: Option<FernetKey>, req: Request)
    ensures var plan := Prepare(file, master, req);
            plan.Replace? ==> DocumentOk(plan.document) && Includes(Some(plan.document), file)
  {
    if file.None? && Prepare(file, master, req).Replace? {
      var keys := Prepare(file, master, req).document.keys;
      assert keys.Keys == {req.legacyId.value, req.newId};
    }
  }

  // ---------- What a rotation does to the file ----------

  // The requests that are refused.
  predicate MustRefuse(file: Option<Document>, master: Option<FernetKey>, req: Request) {
    || !ValidId(req.newId)
    || (match file
        case None =>
          req.activate || master == None || req.legacyId == None || !ValidId(req.legacyId.value)
          || req.legacyId.value == req.newId
        case Some(d) =>
          || !DocumentOk(d)
          || (req.newId in d.keys && d.primary != req.newId && !req.activate)
          || (req.newId !in d.keys && |d.keys| >= 32))
  }

  // The requested key is the primary one: nothing is to be done.
  predicate AlreadyPrimary(file: Option<Document>, req: Request) { file.Some? && file.value.primary == req.newId }

  // The requested key is the primary one; the others are those there were, or the imported one.
  predicate IsRotated(before: Option<Document>, after: Option<Document>, master: Option<FernetKey>, req: Request) {
    && after.Some? && after.value.primary == req.newId
    && (match before
        case None =>
          && master.Some? && req.legacyId.Some? && req.legacyId.value != req.newId
          && after.value.keys == map[req.legacyId.value := master.value, req.newId := req.generated]
        case Some(d) =>
          after.value.keys == if req.newId in d.keys then d.keys else d.keys[req.newId := req.generated])
  }

  /** The plan refuses exactly what must be refused, leaves the file alone exactly if the key is primary
      already, and otherwise makes the requested key the primary one, with no key lost or changed and
      none added but the requested and the imported one. */
  lemma PlanMeaning(file: Option<Document>, master: Option<FernetKey>, req: Request)
    ensures var plan := Prepare(file, master, req);
            && (plan.Refuse? <==> MustRefuse(file, master, req))
            && (plan.Unchanged? <==> AlreadyPrimary(file, req) && !MustRefuse(file, master, req))
            && (plan.Replace? ==> IsRotated(file, Some(plan.document), master, req))
  {
  }

  /** Activating a key that the file does not have is not refused: a new key is generated under the
      requested ID and becomes primary. It activates a retained key exactly if the ID was there. */
  lemma ActivationCondition(file: Document, master: Option<FernetKey>, req: Request)
    requires req.activate && !MustRefuse(Some(file), master, req)
    ensures Prepare(Some(file), master, req).Replace? && Prepare(Some(file), master, req).document.keys != file.keys
            <==> req.newId !in file.keys
  {
    PlanMeaning(Some(file), master, req);
    if req.newId !in file.keys {
      assert file.primary in file.keys;
      assert req.newId in file.keys[req.newId := req.generated];
    }
  }

  lemma WriteKeepsFiles(c: Fernet, w: World, e: Event)
    requires FilesOk(w) && e.Write?
    ensures FilesOk(Apply(c, w, e))
    ensures var t := Apply(c, w, e);
            || (t.file == w.file && t.fallback == w.fallback)
            || (Docs(t) == Docs(w) + {t.file} && Includes(t.file, w.file))
  {
    if e.pid in w.loaded { PlanKeepsKeys(w.file, w.master, e.req); }
  }

  lemma FilesStep(c: Fernet, w: World, e: Event)
    requires FilesOk(w)
    ensures FilesOk(Apply(c, w, e)) && Apply(c, w, e).master == w.master
    ensures !e.Write? ==> Docs(Apply(c, w, e)) <= Docs(w)
  {
    if e.Write? { WriteKeepsFiles(c, w, e); }
  }

  lemma KeysStep(c: Fernet, w: World, e: Event, base: Option<Document>)
    requires FilesOk(w) && AllInclude(w, base)
    ensures AllInclude(Apply(c, w, e), base)
  {
    FilesStep(c, w, e);
    if e.Write? {
      WriteKeepsFiles(c, w, e);
      assert Includes(w.file, base);
    }
  }

  lemma {:induction false} KeysStay(c: Fernet, w: World, es: seq<Event>, base: Option<Document>)
    requires FilesOk(w) && AllInclude(w, base)
    ensures FilesOk(Replay(c, w, es)) && AllInclude(Replay(c, w, es), base) && Replay(c, w, es).master == w.master
  {
    if es != [] {
      var before := Replay(c, w, es[..|es| - 1]);
      KeysStay(c, w, es[..|es| - 1], base);
      FilesStep(c, before, es[|es| - 1]);
      KeysStep(c, before, es[|es| - 1], base);
    }
  }

  /** Once a write has returned, no key of the file is ever lost, whoever writes next and in whatever
      order, and whatever a power loss brings back. */
  lemma {:induction false} NoKeyIsLost(c: Fernet, w: World, es: seq<Event>)
    requires FilesOk(w) && w.fallback == {}
    ensures AllInclude(Replay(c, w, es), w.file) && Replay(c, w, es).master == w.master
  {
    KeysStay(c, w, es, w.file);
  }

  // ---------- Credentials ----------

  // This file, with the master key beside it, has what opens the value.
  ghost predicate Opens(c: Fernet, file: Option<Document>, master: Option<FernetKey>, value: string, plain: string) {
    || (exists key :: Known(file, master, key) && SealedBy(c, value, None, key, plain))
    || (file.Some?
        && exists id ::
             id in file.value.keys && ValidId(id) && SealedBy(c, value, Some(id), file.value.keys[id], plain))
  }

  // A keyring has only keys the file has, under the same ids.
  ghost predicate Backs(file: Option<Document>, master: Option<FernetKey>, kr: Keyring) {
    && WellFormed(kr)
    && (forall id :: id in kr.keys ==> file.Some? && id in file.value.keys && file.value.keys[id] == kr.keys[id])
    && (forall key :: key in kr.legacy ==> Known(file, master, key))
  }

  // This document would do for every application that runs and every value that is stored.
  ghost predicate Serves(c: Fernet, w: World, d: Option<Document>) {
    && (forall a :: a in w.apps ==> Backs(d, w.master, w.apps[a]))
    && (forall b :: b in w.creds && b in w.plain ==> Opens(c, d, w.master, w.creds[b], w.plain[b]))
  }

  ghost predicate Inv(c: Fernet, w: World) {
    && FilesOk(w) && w.creds.Keys == w.plain.Keys
    && forall d :: d in Docs(w) ==> Serves(c, w, d)
  }

  lemma KnownIncluded(base: Option<Document>, d: Option<Document>, master: Option<FernetKey>, key: FernetKey)
    requires Includes(d, base) && Known(base, master, key)
    ensures Known(d, master, key)
  {
    if master != Some(key) {
      var id :| id in base.value.keys && base.value.keys[id] == key;
      assert id in d.value.keys && d.value.keys[id] == key;
    }
  }

  lemma OpensIncluded(
    c: Fernet, base: Option<Document>, d: Option<Document>, master: Option<FernetKey>, value: string, plain: string)
    requires Includes(d, base) && Opens(c, base, master, value, plain)
    ensures Opens(c, d, master, value, plain)
  {
    if key :| Known(base, master, key) && SealedBy(c, value, None, key, plain) {
      KnownIncluded(base, d, master, key);
    } else {
      var id :| id in base.value.keys && ValidId(id) && SealedBy(c, value, Some(id), base.value.keys[id], plain);
      assert id in d.value.keys && d.value.keys[id] == base.value.keys[id];
    }
  }

  // A document that includes one that serves serves as well.
  lemma ServesIncluded(c: Fernet, w: World, base: Option<Document>, d: Option<Document>)
    requires Includes(d, base) && Serves(c, w, base)
    ensures Serves(c, w, d)
  {
    forall a | a in w.apps ensures Backs(d, w.master, w.apps[a]) {
      forall key | key in w.apps[a].legacy ensures Known(d, w.master, key) { KnownIncluded(base, d, w.master, key); }
    }
    forall b | b in w.creds && b in w.plain ensures Opens(c, d, w.master, w.creds[b], w.plain[b]) {
      OpensIncluded(c, base, d, w.master, w.creds[b], w.plain[b]);
    }
  }

  // What a backed application encrypts, the file can open.
  lemma BackedSealsOpen(
    c: Fernet, file: Option<Document>, master: Option<FernetKey>, kr: Keyring, value: string, plain: string)
    requires Backs(file, master, kr) && Holds(c, kr, value, plain)
    ensures Opens(c, file, master, value, plain)
  {
    if key :| key in kr.legacy && SealedBy(c, value, None, key, plain) {
      assert Known(file, master, key);
    } else {
      var id :| id in kr.keys && ValidId(id) && SealedBy(c, value, Some(id), kr.keys[id], plain);
      assert id in file.value.keys && file.value.keys[id] == kr.keys[id];
    }
  }

  lemma {:induction false} TryKeysOnlyPlain(c: Fernet, keys: seq<FernetKey>, key: FernetKey, n: nat, plain: string)
    requires Ideal(c)
    ensures var r := TryKeys(c, keys, c.enc(key, n, plain)); r.Ok? ==> r.value == plain
  {
    if keys != [] {
      assert c.dec(key, c.enc(key, n, plain)) == Some(plain);
      assert keys[0] != key ==> c.dec(keys[0], c.enc(key, n, plain)).None?;
      TryKeysOnlyPlain(c, keys[1..], key, n, plain);
    }
  }

  // An application with an older keyring may fail to read a value, but never reads it wrong.
  lemma AppReadsRight(
    c: Fernet, file: Option<Document>, master: Option<FernetKey>, kr: Keyring, value: string, plain: string)
    requires Ideal(c) && Backs(file, master, kr) && Opens(c, file, master, value, plain)
    ensures Decrypt(c, kr, value).Ok? ==> Decrypt(c, kr, value).value == plain
  {
    if key :| Known(file, master, key) && SealedBy(c, value, None, key, plain) {
      var n :| value == c.enc(key, n, plain);
      TryKeysOnlyPlain(c, kr.legacy, key, n, plain);
    } else {
      var id :| id in file.value.keys && ValidId(id) && SealedBy(c, value, Some(id), file.value.keys[id], plain);
      var key := file.value.keys[id];
      var n :| value == Envelope(id, c.enc(key, n, plain));
      EnvelopeRoundTrip(id, c.enc(key, n, plain), value);
      assert c.dec(key, c.enc(key, n, plain)) == Some(plain);
    }
  }

  // ---------- One step ----------

  // The rule that is needed: no application starts before the last write has returned.
  ghost predicate Obeys(w: World, e: Event, settled: bool) { settled && e.StartApp? ==> w.fallback == {} }

  // Fewer documents, applications and values are served as before.
  lemma FewerServed(c: Fernet, w: World, t: World)
    requires Inv(c, w) && FilesOk(t) && Docs(t) <= Docs(w) && t.master == w.master
    requires forall a :: a in t.apps ==> a in w.apps && t.apps[a] == w.apps[a]
    requires t.creds.Keys == t.plain.Keys
    requires forall b :: b in t.creds ==> b in w.creds && t.creds[b] == w.creds[b] && t.plain[b] == w.plain[b]
    ensures Inv(c, t)
  {
    forall d | d in Docs(t) ensures Serves(c, t, d) { assert Serves(c, w, d); }
  }

  lemma WriteEvent(c: Fernet, w: World, e: Event)
    requires Inv(c, w) && e.Write?
    ensures Inv(c, Apply(c, w, e))
  {
    var t := Apply(c, w, e);
    WriteKeepsFiles(c, w, e);
    forall d | d in Docs(t) ensures Serves(c, t, d) {
      if d in Docs(w) { assert Serves(c, w, d); } else { ServesIncluded(c, w, w.file, d); }
    }
  }

  lemma LockEvents(c: Fernet, w: World, e: Event)
    requires Inv(c, w) && (e.Acquire? || e.Load? || e.Settle? || e.Release?)
    ensures Inv(c, Apply(c, w, e))
  {
    FilesStep(c, w, e);
    FewerServed(c, w, Apply(c, w, e));
  }

  lemma AccidentEvents(c: Fernet, w: World, e: Event)
    requires Inv(c, w) && (e.Die? || e.ClearStaleLock? || e.PowerLoss? || e.Remove?)
    ensures Inv(c, Apply(c, w, e))
  {
    FilesStep(c, w, e);
    FewerServed(c, w, Apply(c, w, e));
  }

  lemma LoadedIsBacked(file: Option<Document>, master: Option<FernetKey>, legacy: seq<FernetKey>, kr: Keyring)
    requires FromSettings(file, master, legacy, kr)
    ensures Backs(file, master, kr)
  {
  }

  lemma OneMoreApp(c: Fernet, w: World, t: World, a: AppId, kr: Keyring)
    requires Inv(c, w) && w.fallback == {} && t == w.(apps := w.apps[a := kr]) && Backs(w.file, w.master, kr)
    ensures Inv(c, t)
  {
    assert Docs(t) == {w.file} == Docs(w);
    assert Serves(c, w, w.file);
    assert Serves(c, t, w.file);
  }

  lemma StartEvent(c: Fernet, w: World, e: Event)
    requires Inv(c, w) && e.StartApp? && Obeys(w, e, true)
    ensures Inv(c, Apply(c, w, e))
  {
    if exists kr :: FromSettings(w.file, w.master, e.legacy, kr) {
      var kr := Apply(c, w, e).apps[e.app];
      assert FromSettings(w.file, w.master, e.legacy, kr);
      LoadedIsBacked(w.file, w.master, e.legacy, kr);
      OneMoreApp(c, w, Apply(c, w, e), e.app, kr);
    }
  }

  // Stored values are replaced by ones every document opens; nothing else changes.
  lemma NewValues(c: Fernet, w: World, t: World)
    requires Inv(c, w) && t == w.(creds := t.creds, plain := t.plain) && t.creds.Keys == t.plain.Keys
    requires forall d, b :: d in Docs(w) && b in t.creds ==> Opens(c, d, w.master, t.creds[b], t.plain[b])
    ensures Inv(c, t)
  {
    assert Docs(t) == Docs(w);
    forall d | d in Docs(t) ensures Serves(c, t, d) {
      assert Serves(c, w, d);
      forall b | b in t.creds ensures Opens(c, d, t.master, t.creds[b], t.plain[b]) { assert d in Docs(w); }
    }
  }

  lemma PasswordEvent(c: Fernet, w: World, e: Event)
    requires Ideal(c) && Inv(c, w) && e.SetPassword?
    ensures Inv(c, Apply(c, w, e))
  {
    var t := Apply(c, w, e);
    if e.app in w.apps && WellFormed(w.apps[e.app]) {
      var kr := w.apps[e.app];
      EncryptIsHeld(c, kr, e.nonce, e.password);
      forall d, b | d in Docs(w) && b in t.creds ensures Opens(c, d, w.master, t.creds[b], t.plain[b]) {
        assert Serves(c, w, d);
        if b == e.box { BackedSealsOpen(c, d, w.master, kr, t.creds[b], e.password); }
      }
      NewValues(c, w, t);
    }
  }

  lemma RotatedOpens(
    c: Fernet, file: Option<Document>, master: Option<FernetKey>, kr: Keyring, nonce: nat, value: string, plain: string)
    requires Ideal(c) && Backs(file, master, kr) && Opens(c, file, master, value, plain)
    requires Reencrypt(c, kr, nonce, value).Ok?
    ensures Opens(c, file, master, Reencrypt(c, kr, nonce, value).value.0, plain)
  {
    AppReadsRight(c, file, master, kr, value, plain);
    ReencryptKeepsPlaintext(c, kr, nonce, value);
    var r := Reencrypt(c, kr, nonce, value).value;
    if r.1 { BackedSealsOpen(c, file, master, kr, r.0, plain); }
  }

  lemma TableEvent(c: Fernet, w: World, e: Event)
    requires Ideal(c) && Inv(c, w) && e.RotateTable?
    ensures Inv(c, Apply(c, w, e))
  {
    var t := Apply(c, w, e);
    if e.app in w.apps && WellFormed(w.apps[e.app]) && TableRotates(c, w.apps[e.app], w.creds, e.nonces) {
      forall d, b | d in Docs(w) && b in t.creds ensures Opens(c, d, w.master, t.creds[b], t.plain[b]) {
        assert Serves(c, w, d);
        RotatedOpens(c, d, w.master, w.apps[e.app], e.nonces(b), w.creds[b], w.plain[b]);
      }
      NewValues(c, w, t);
    }
  }

  lemma Step(c: Fernet, w: World, e: Event)
    requires Ideal(c) && Inv(c, w) && Obeys(w, e, true)
    ensures Inv(c, Apply(c, w, e))
  {
    if e.Write? { WriteEvent(c, w, e); }
    else if e.StartApp? { StartEvent(c, w, e); }
    else if e.SetPassword? { PasswordEvent(c, w, e); }
    else if e.RotateTable? { TableEvent(c, w, e); }
    else if e.Acquire? || e.Load? || e.Settle? || e.Release? { LockEvents(c, w, e); }
    else { AccidentEvents(c, w, e); }
  }

  // ---------- Whole runs ----------

  ghost predicate AllObey(c: Fernet, w: World, es: seq<Event>, settled: bool) {
    forall i :: 0 <= i < |es| ==> Obeys(Replay(c, w, es[..i]), es[i], settled)
  }

  lemma {:induction false} InvHolds(c: Fernet, w: World, es: seq<Event>)
    requires Ideal(c) && Inv(c, w) && AllObey(c, w, es, true)
    ensures Inv(c, Replay(c, w, es))
  {
    if es != [] {
      var n := |es| - 1;
      forall i | 0 <= i < n ensures Obeys(Replay(c, w, es[..n][..i]), es[..n][i], true) {
        assert es[..n][..i] == es[..i];
        assert Obeys(Replay(c, w, es[..i]), es[i], true);
      }
      InvHolds(c, w, es[..n]);
      assert Obeys(Replay(c, w, es[..n]), es[n], true);
      Step(c, Replay(c, w, es[..n]), es[n]);
    }
  }

  // What an application that started now could read.
  ghost predicate AllReadable(c: Fernet, w: World) {
    forall legacy, kr, box :: FromSettings(w.file, w.master, legacy, kr) && box in w.creds ==>
      box in w.plain && Decrypt(c, kr, w.creds[box]) == Ok(w.plain[box])
  }

  // With any document a power loss can leave.
  lemma ServedIsReadable(c: Fernet, w: World, d: Option<Document>)
    requires Ideal(c) && Inv(c, w) && d in Docs(w)
    ensures AllReadable(c, w.(file := d))
  {
    assert Serves(c, w, d);
    forall legacy, kr, box | FromSettings(d, w.master, legacy, kr) && box in w.creds
      ensures box in w.plain && Decrypt(c, kr, w.creds[box]) == Ok(w.plain[box])
    {
      assert Holds(c, kr, w.creds[box], w.plain[box]);
      HeldIsReadable(c, kr, w.creds[box], w.plain[box]);
    }
  }

  /** Along every run in which applications start only once the last write has returned, every stored
      credential decrypts to its plaintext under the keyring an application would load now, in
      whatever order that tries the keys, power losses included. */
  lemma {:induction false} NoCredentialIsLost(c: Fernet, w: World, es: seq<Event>)
    requires Ideal(c) && Inv(c, w) && AllObey(c, w, es, true)
    ensures AllReadable(c, Replay(c, w, es))
  {
    InvHolds(c, w, es);
    ServedIsReadable(c, Replay(c, w, es), Replay(c, w, es).file);
  }

  // A new installation: a master key or a keyring, on disk, and nothing else.
  ghost predicate Installed(w: World) {
    && (w.file.Some? ==> DocumentOk(w.file.value)) && w.fallback == {} && w.lock == None
    && w.loaded == map[] && w.apps == map[] && w.creds == map[] && w.plain == map[]
  }

  lemma FreshInstallation(c: Fernet, w: World)
    requires Installed(w)
    ensures Inv(c, w)
  {
  }

  // ---------- The rule is needed ----------

  const OLD: Document := Document("a", map["a" := "k"])
  const REQUEST := Request("b", None, false, "l")
  const NEW: Document := Document("b", map["a" := "k", "b" := "l"])

  const FRESH := World(Some(OLD), {}, None, None, map[], map[], map[], map[])

  lemma {:induction false} OneMore(c: Fernet, w: World, es: seq<Event>, e: Event)
    ensures Replay(c, w, es + [e]) == Apply(c, Replay(c, w, es), e)
    ensures AllObey(c, w, es, false) && AllObey(c, w, es + [e], false)
  {
    assert (es + [e])[..|es|] == es;
  }

  // A rotator has renamed the new document into place and has not returned.
  const WRITTEN := World(Some(NEW), {Some(OLD)}, None, Some(0), map[], map[], map[], map[])

  lemma WriteRun(c: Fernet) returns (es: seq<Event>)
    ensures Replay(c, FRESH, es) == WRITTEN
  {
    var locked := FRESH.(lock := Some(0));
    es := [];
    assert Replay(c, FRESH, es) == FRESH;
    es := Continue(c, es, Acquire(0), FRESH, locked);
    es := Continue(c, es, Load(0), locked, locked.(loaded := map[0 := Some(OLD)]));
    PlanOfRequest();
    es := Continue(c, es, Write(0, REQUEST, true), locked.(loaded := map[0 := Some(OLD)]), WRITTEN);
  }

  // One more step of a run from the new installation.
  lemma Continue(c: Fernet, es: seq<Event>, e: Event, w: World, t: World) returns (more: seq<Event>)
    requires Replay(c, FRESH, es) == w && Apply(c, w, e) == t
    ensures Replay(c, FRESH, more) == t
  {
    more := es + [e];
    OneMore(c, FRESH, es, e);
  }

  lemma PlanOfRequest()
    ensures Prepare(Some(OLD), None, REQUEST) == Replace(NEW)
  {
    assert ValidId("a") && ValidId("b") && DocumentOk(OLD);
  }

  lemma NewKeyring(kr: Keyring)
    ensures FromSettings(Some(NEW), None, ["k", "l"], kr) ==> kr == Keyring(Some("b"), NEW.keys, ["k", "l"])
    ensures kr == Keyring(Some("b"), NEW.keys, ["k", "l"]) ==> WellFormed(kr)
  {
    assert ValidId("a") && ValidId("b") && NEW.keys["a"] == "k" && NEW.keys["b"] == "l";
  }

  lemma NewSettings()
    ensures FromSettings(Some(NEW), None, ["k", "l"], Keyring(Some("b"), NEW.keys, ["k", "l"]))
  {
    assert ValidId("a") && ValidId("b") && NEW.keys["a"] == "k" && NEW.keys["b"] == "l";
    assert NEW.keys.Values == {"k", "l"};
  }

  // An application loads it.
  lemma EarlyStart(c: Fernet)
    ensures Apply(c, WRITTEN, StartApp(0, ["k", "l"])) ==
              WRITTEN.(apps := map[0 := Keyring(Some("b"), NEW.keys, ["k", "l"])])
  {
    NewSettings();
    NewKeyring(Apply(c, WRITTEN, StartApp(0, ["k", "l"])).apps[0]);
  }

  // It seals a password, and the power fails.
  lemma SealedAndLost(c: Fernet, w: World)
    requires w == WRITTEN.(apps := map[0 := Keyring(Some("b"), NEW.keys, ["k", "l"])])
    ensures var t := Apply(c, Apply(c, w, SetPassword(0, 0, 0, "p")), PowerLoss(Some(OLD), None));
            t.file == Some(OLD) && t.master == None && t.creds == map[0 := Envelope("b", c.enc("l", 0, "p"))]
  {
    NewKeyring(w.apps[0]);
    assert Encrypt(c, w.apps[0], 0, "p") == Envelope("b", c.enc("l", 0, "p"));
  }

  lemma OldCannotRead(c: Fernet, t: World, value: string)
    requires Ideal(c) && value == Envelope("b", c.enc("l", 0, "p"))
    requires t.file == Some(OLD) && t.master == None && t.creds == map[0 := value]
    ensures !AllReadable(c, t)
  {
    var kr := Keyring(Some("a"), OLD.keys, ["k"]);
    OldKeyring(kr);
    assert ValidId("b");
    EnvelopeRoundTrip("b", c.enc("l", 0, "p"), value);
    assert Decrypt(c, kr, value) == Err(UnavailableKey("b"));
  }

  lemma OldKeyring(kr: Keyring)
    requires kr == Keyring(Some("a"), OLD.keys, ["k"])
    ensures FromSettings(Some(OLD), None, ["k"], kr)
  {
    assert ValidId("a") && OLD.keys["a"] == "k" && OLD.keys.Values == {"k"};
  }

  lemma EarlyStartRun(c: Fernet) returns (es: seq<Event>)
    requires Ideal(c)
    ensures AllObey(c, FRESH, es, false) && !AllReadable(c, Replay(c, FRESH, es))
  {
    es := WriteRun(c);
    var start, set', loss := StartApp(0, ["k", "l"]), SetPassword(0, 0, 0, "p"), PowerLoss(Some(OLD), None);
    OneMore(c, FRESH, es, start);
    OneMore(c, FRESH, es + [start], set');
    OneMore(c, FRESH, es + [start] + [set'], loss);
    EarlyStart(c);
    SealedAndLost(c, Apply(c, WRITTEN, start));
    OldCannotRead(c, Replay(c, FRESH, es + [start] + [set'] + [loss]), Envelope("b", c.enc("l", 0, "p")));
    es := es + [start] + [set'] + [loss];
  }

  ghost predicate NeverLost(c: Fernet, settled: bool) {
    forall w, es :: Installed(w) && AllObey(c, w, es, settled) ==> AllReadable(c, Replay(c, w, es))
  }

  /** From a new installation on, no credential is ever lost in any run, power losses included, if and
      only if applications start only once the last write has returned. */
  lemma {:induction false} PowerLossCondition(c: Fernet, settled: bool)
    requires Ideal(c)
    ensures NeverLost(c, settled) <==> settled
  {
    if settled {
      forall w, es | Installed(w) && AllObey(c, w, es, true) ensures AllReadable(c, Replay(c, w, es)) {
        FreshInstallation(c, w);
        NoCredentialIsLost(c, w, es);
      }
    } else {
      var es := EarlyStartRun(c);
      assert ValidId("a") && Installed(FRESH);
    }
  }
}
