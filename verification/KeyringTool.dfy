/**
 The keyring rotation tool on a real disk: its lock file, its atomic write and power losses, with
 other processes going on beside it. Every step extends a run of KeyringLifecycle, so what is
 proved about all runs holds of the files.
 */
module KeyringTool {
  import opened Wrappers
  import opened CredentialKeyring
  import opened KeyringLifecycle
  import opened SecretFiles

  // The JSON document in a file; whatever is not of the right shape is loaded as an invalid one.
  datatype Codec = Codec(dump: Document -> string, load: string -> Document)

  ghost predicate CodecOk(codec: Codec) {
    forall d :: DocumentOk(d) ==> codec.load(codec.dump(d) + "\n") == d
  }

  function Decode(codec: Codec, content: Option<string>): Option<Document> {
    if content.None? then None else Some(codec.load(content.value))
  }

  datatype ToolError =
    | LockRefused | LockNotWritten | Unreadable | Refused | WriteFailed | NotVerified | LockNotReleased | Killed

  type Report = Result<bool, ToolError>

  // The file has the world's document, a power loss leaves one of the world's documents, and the
  // lock file is there exactly while somebody holds the lock.
  ghost predicate Shown(codec: Codec, w: World, content: Option<string>, views: set<Option<File>>, locked: bool) {
    && w.file == Decode(codec, content) && (locked <==> w.lock.Some?)
    && forall c :: FileSystem.SurvivesIn(views, c) ==> Decode(codec, c) in Docs(w)
  }

  // What others do while a rotator has the lock: nothing to the keyring file and the lock.
  ghost predicate SameFiles(w: World, t: World) {
    t.file == w.file && t.fallback == w.fallback && t.lock == w.lock && t.loaded == w.loaded && t.master == w.master
  }

  // Applications never touch the files, and other rotators are kept out by the lock.
  lemma OthersKeepFiles(c: Fernet, w: World, e: Event, pid: Pid)
    requires w.lock == Some(pid) && forall p :: p in w.loaded ==> p == pid
    requires e.Acquire? || e.StartApp? || e.SetPassword? || e.RotateTable? || e.Remove?
             || ((e.Load? || e.Write? || e.Release? || e.Die?) && e.pid != pid)
    ensures SameFiles(w, Apply(c, w, e))
  {
  }

  // The write is an event, whether it took effect or not.
  lemma WriteShown(
    c: Fernet, codec: Codec, w: World, pid: Pid, req: Request, document: Document, text: string,
    content: Option<string>, views: set<Option<File>>, content': Option<string>, views': set<Option<File>>)
    requires Shown(codec, w, content, views, true) && w.lock == Some(pid) && pid in w.loaded && w.loaded[pid] == w.file
    requires Prepare(w.file, w.master, req) == Replace(document) && codec.load(text) == document
    requires content' == Some(text) || (content' == content && FileSystem.OnlyAdds(views, views', {}))
    requires FileSystem.OnlyAdds(views, views', {Some(text)})
    ensures var t := Apply(c, w, Write(pid, req, content' == Some(text)));
            && Shown(codec, t, content', views', true) && t.lock == w.lock && t.loaded == w.loaded - {pid}
            && (t.file == w.file || t.file == Some(document)) && (content' == Some(text) ==> t.file == Some(document))
  {
  }

  lemma SettledShown(codec: Codec, w: World, content: Option<string>, views: set<Option<File>>)
    requires Shown(codec, w, content, views, true) && FileSystem.OnlyAdds({}, views, {content})
    ensures Shown(codec, w.(fallback := {}), content, views, true)
  {
  }

  // The state machine as a value: what a host records its steps with.
  type Machine = (World, Event) -> World

  ghost function Lifecycle(c: Fernet): Machine { (w: World, e: Event) => Apply(c, w, e) }

  ghost function Run(step: Machine, first: World, es: seq<Event>): World {
    if es == [] then first else step(Run(step, first, es[..|es| - 1]), es[|es| - 1])
  }

  lemma RunOneMore(step: Machine, first: World, es: seq<Event>, e: Event)
    ensures Run(step, first, es + [e]) == step(Run(step, first, es), e)
  {
    assert (es + [e])[..|es|] == es;
  }

  lemma {:induction false} RunReplays(c: Fernet, first: World, es: seq<Event>)
    ensures Run(Lifecycle(c), first, es) == Replay(c, first, es)
  {
    if es != [] { RunReplays(c, first, es[..|es| - 1]); }
  }

  // What a plan lets the tool report; the other errors are the disk's.
  predicate Agrees(plan: Plan, report: Report) {
    match report
    case Ok(changed) => if changed then plan.Replace? else plan.Unchanged?
    case Err(e) => (e.Refused? ==> plan.Refuse?) && (e.WriteFailed? ==> plan.Replace?) && !e.NotVerified?
  }

  /** What a report means, and what may have become of the file, by what was asked for. */
  predicate Rotated(before: World, after: World, master: Option<FernetKey>, req: Request, report: Report) {
    var refuse := MustRefuse(before.file, master, req);
    var already := AlreadyPrimary(before.file, req);
    && (report == Err(Refused) ==> refuse)
    && (refuse ==> after.file == before.file && !report.Ok? && report != Err(WriteFailed))
    && (report == Ok(false) ==> already && after.file == before.file)
    && (already ==> after.file == before.file && report != Ok(true) && report != Err(WriteFailed))
    && (after.file == before.file || IsRotated(before.file, after.file, master, req))
    && (report == Ok(true) ==> IsRotated(before.file, after.file, master, req) && after.fallback == {})
    && report != Err(NotVerified)
  }

  // What a tool reports that meets no obstacle.
  function Answer(file: Option<Document>, master: Option<FernetKey>, req: Request): Report {
    if MustRefuse(file, master, req) then Err(Refused) else Ok(!AlreadyPrimary(file, req))
  }

  // The same of a plan that was made from the file as it was.
  lemma PlannedIsRotated(
    plan: Plan, before: World, after: World, master: Option<FernetKey>, req: Request, report: Report)
    requires plan == Prepare(before.file, master, req) && Agrees(plan, report)
    requires after.file == before.file || (plan.Replace? && after.file == Some(plan.document))
    requires report == Ok(true) ==> after.file == Some(plan.document) && after.fallback == {}
    ensures Rotated(before, after, master, req, report)
    ensures report.Ok? || report == Err(Refused) ==> report == Answer(before.file, master, req)
  {
    PlanMeaning(before.file, master, req);
    if AlreadyPrimary(before.file, req) { assert !plan.Replace?; }
  }

  // The tool went on and released the lock.
  predicate CameToAnEnd(report: Report) {
    report.Ok? || report.error.LockNotWritten? || report.error.Unreadable? || report.error.WriteFailed?
  }

  class Host {
    const fs: FileSystem
    const codec: Codec
    const target: Name
    const lock: Name
    const master: Option<FernetKey>
    ghost const c: Fernet
    ghost const step: Machine
    ghost const first: World
    ghost var world: World
    ghost var trace: seq<Event>

    // The steps so far lead from the first world to this one.
    ghost predicate Tracked()
      reads this
    {
      world == Run(step, first, trace)
    }

    ghost predicate Valid()
      reads this, fs
    {
      && fs.Valid() && Tracked() && step == Lifecycle(c) && target != lock && world.master == master
      && Shown(codec, world, fs.Content(target), fs.Views(target), fs.Content(lock).Some?)
    }

    // An installation whose files are on the disk.
    constructor (
      fs: FileSystem, codec: Codec, target: Name, lock: Name, master: Option<FernetKey>, ghost c: Fernet,
      ghost first: World)
      requires fs.Valid() && target != lock && first.master == master
      requires Shown(codec, first, fs.Content(target), fs.Views(target), fs.Content(lock).Some?)
      ensures Valid() && this.fs == fs && world == first && this.first == first && this.c == c && trace == []
    {
      this.fs, this.codec, this.target, this.lock, this.master := fs, codec, target, lock, master;
      this.c, this.step, this.first, this.world, this.trace := c, Lifecycle(c), first, first, [];
    }

    ghost method Record(e: Event)
      requires Tracked()
      modifies this`world, this`trace
      ensures Tracked() && world == step(old(world), e) && trace == old(trace) + [e]
    {
      RunOneMore(step, first, trace, e);
      world, trace := step(world, e), trace + [e];
    }

    // Any number of steps of applications and of other rotators.
    ghost method Others(pid: Pid)
      requires Tracked() && step == Lifecycle(c)
      requires world.lock == Some(pid) && forall p :: p in world.loaded ==> p == pid
      modifies this`world, this`trace
      ensures Tracked() && SameFiles(old(world), world) && old(trace) <= trace
    {
      var n: nat := *;
      while n > 0
        invariant Tracked() && SameFiles(old(world), world) && old(trace) <= trace
      {
        var e: Event := *;
        if e.Acquire? || e.StartApp? || e.SetPassword? || e.RotateTable? || e.Remove?
           || ((e.Load? || e.Write? || e.Release? || e.Die?) && e.pid != pid)
        {
          OthersKeepFiles(c, world, e, pid);
          Record(e);
        }
        n := n - 1;
      }
    }

    // The document is changed step by step, as in the body of rotate_credential_keyring.
    method MakePlan(file: Option<Document>, req: Request) returns (plan: Plan)
      ensures plan == Prepare(file, master, req)
    {
      if !ValidId(req.newId) { return Refuse; }
      var document: Document;
      if file.Some? {
        document := file.value;
        if !DocumentOk(document) { return Refuse; }
        if req.newId in document.keys {
          if document.primary == req.newId { return Unchanged; }
          if !req.activate { return Refuse; }
          document := document.(primary := req.newId);
          return Replace(document);
        }
      } else {
        if req.activate || req.legacyId.None? || !ValidId(req.legacyId.value) || req.legacyId.value == req.newId {
          return Refuse;
        }
        if master.None? { return Refuse; }
        document := Document(req.legacyId.value, map[req.legacyId.value := master.value]);
      }
      if |document.keys| >= MAXIMUM_KEYS { return Refuse; }
      document := document.(keys := document.keys[req.newId := req.generated]);
      document := document.(primary := req.newId);
      return Replace(document);
    }

    // The rotator holds the lock, and nobody has loaded the document but perhaps this rotator.
    ghost predicate Locked(pid: Pid)
      reads this
    {
      world.lock == Some(pid) && forall p :: p in world.loaded ==> p == pid && world.loaded[p] == world.file
    }

    // atomic_write_secret of the new document, as one event.
    method TryWrite(pid: Pid, temporary: Name, ghost req: Request, document: Document) returns (outcome: Outcome)
      requires Valid() && temporary != target && temporary != lock && Locked(pid) && pid in world.loaded
      requires Prepare(world.file, master, req) == Replace(document) && DocumentOk(document) && CodecOk(codec)
      modifies this`world, this`trace, fs
      ensures Valid() && Locked(pid) && old(trace) <= trace
      ensures world.file == old(world).file || world.file == Some(document)
      ensures outcome.Written? ==> world.file == Some(document)
      ensures outcome.Written? ==> FileSystem.OnlyAdds({}, fs.Views(target), {fs.Content(target)})
      ensures fs.healthy && temporary !in old(fs.dir) ==> outcome.Written?
    {
      var text := codec.dump(document);
      var cleaned;
      outcome, cleaned := fs.AtomicWriteSecret(target, temporary, text);
      WriteShown(c, codec, world, pid, req, document, text + "\n", old(fs.Content(target)), old(fs.Views(target)),
                 fs.Content(target), fs.Views(target));
      Record(Write(pid, req, fs.Content(target) == Some(text + "\n")));
    }

    // The file ends up as it was or new, and after a return the new document is all that a power
    // loss can leave.
    method WriteDocument(pid: Pid, temporary: Name, ghost req: Request, document: Document) returns (outcome: Outcome)
      requires Valid() && temporary != target && temporary != lock && Locked(pid) && pid in world.loaded
      requires Prepare(world.file, master, req) == Replace(document) && DocumentOk(document) && CodecOk(codec)
      modifies this`world, this`trace, fs
      ensures Valid() && Locked(pid) && old(trace) <= trace
      ensures world.file == old(world).file || world.file == Some(document)
      ensures outcome.Written? ==> world.file == Some(document) && world.fallback == {}
      ensures fs.healthy && temporary !in old(fs.dir) ==> outcome.Written?
    {
      outcome := TryWrite(pid, temporary, req, document);
      if outcome.Written? {
        SettledShown(codec, world, fs.Content(target), fs.Views(target));
        Record(Settle);
      }
    }

    // Write and read back.
    method WriteAndVerify(pid: Pid, temporary: Name, ghost req: Request, document: Document) returns (report: Report)
      requires Valid() && temporary != target && temporary != lock && Locked(pid) && pid in world.loaded
      requires Prepare(world.file, master, req) == Replace(document) && DocumentOk(document) && CodecOk(codec)
      modifies this`world, this`trace, fs
      ensures Valid() && Locked(pid) && old(trace) <= trace
      ensures world.file == old(world).file || world.file == Some(document)
      ensures report == Ok(true) || report == Err(WriteFailed) || report == Err(Unreadable) || report == Err(Killed)
      ensures report == Ok(true) ==> world.file == Some(document) && world.fallback == {}
      ensures fs.healthy && temporary !in old(fs.dir) ==> report == Ok(true)
    {
      var outcome := WriteDocument(pid, temporary, req, document);
      if outcome.Crashed? { return Err(Killed); }
      if outcome.Failed? { return Err(WriteFailed); }
      Others(pid);
      var readable: bool := *;
      if !readable && !fs.healthy { return Err(Unreadable); }
      var verified := Decode(codec, fs.Content(target));
      if verified != Some(document) { return Err(NotVerified); }
      return Ok(true);
    }

    // Everything up to the write. None: a file could not be read.
    method LoadAndPlan(pid: Pid, req: Request) returns (plan: Option<Plan>)
      requires Valid() && Locked(pid)
      modifies this`world, this`trace
      ensures Valid() && Locked(pid) && old(trace) <= trace && world.file == old(world).file
      ensures plan.Some? ==> plan.value == Prepare(world.file, master, req) && pid in world.loaded
      ensures plan.Some? && plan.value.Replace? ==> DocumentOk(plan.value.document)
      ensures fs.healthy ==> plan.Some?
    {
      Others(pid);
      var readable: bool := *;
      if !readable && !fs.healthy { return None; }
      Record(Load(pid));
      var file := Decode(codec, fs.Content(target));
      PlanKeepsKeys(file, master, req);
      var made := MakePlan(file, req);
      Others(pid);
      return Some(made);
    }

    // The body of the rotation, under the lock.
    method RotateLocked(pid: Pid, temporary: Name, req: Request) returns (report: Report)
      requires Valid() && temporary != target && temporary != lock && Locked(pid)
      requires ValidId(req.newId) && CodecOk(codec)
      modifies this`world, this`trace, fs
      ensures Valid() && Locked(pid) && old(trace) <= trace
      ensures Rotated(old(world), world, master, req, report)
      ensures report != Err(LockRefused) && report != Err(LockNotReleased)
      ensures fs.healthy && temporary !in old(fs.dir) ==> report == Answer(old(world).file, master, req)
    {
      var plan := LoadAndPlan(pid, req);
      if plan.None? {
        report := Err(Unreadable);
      } else if plan.value.Unchanged? {
        report := Ok(false);
      } else if plan.value.Refuse? {
        report := Err(Refused);
      } else {
        var stopped: bool := *;
        if stopped && !fs.healthy {
          report := Err(Killed);
        } else {
          report := WriteAndVerify(pid, temporary, req, plan.value.document);
        }
      }
      PlannedIsRotated(Prepare(old(world).file, master, req), old(world), world, master, req, report);
    }

    // The lock file with the process number in it.
    method TakeLock(pid: Pid) returns (taken: bool, noted: bool)
      requires Valid() && pid !in world.loaded && (world.lock.None? ==> world.loaded == map[])
      modifies this`world, this`trace, fs
      ensures Valid() && old(trace) <= trace
      ensures taken ==> old(world).lock.None? && Locked(pid) && world.file == old(world).file
      ensures !taken ==> world == old(world)
      ensures fs.healthy && old(world).lock.None? ==> taken && noted
      ensures fs.dir.Keys <= old(fs.dir).Keys + {lock}
    {
      var inode := fs.Create(lock);
      if inode.None? { return false, false; }
      noted := fs.Write(inode.value, lock, "pid");
      if noted { noted := fs.Sync(inode.value, lock); }
      Record(Acquire(pid));
      return true, noted;
    }

    // The lock file goes, or the process ends without it.
    method ReleaseLock(pid: Pid) returns (released: bool)
      requires Valid() && Locked(pid)
      modifies this`world, this`trace, fs
      ensures Valid() && old(trace) <= trace && world.file == old(world).file && world.fallback == old(world).fallback
      ensures pid !in world.loaded && (released ==> world.lock.None?)
      ensures world.lock.None? ==> world.loaded == map[]
      ensures fs.healthy ==> released
    {
      released := fs.Unlink(lock);
      Record(if lock in fs.dir then Die(pid) else Release(pid));
    }

    // The process ends and the lock file stays.
    ghost method Stop(pid: Pid)
      requires Valid() && Locked(pid)
      modifies this`world, this`trace
      ensures Valid() && old(trace) <= trace && world.file == old(world).file
      ensures pid !in world.loaded && world.lock == Some(pid)
    {
      Record(Die(pid));
    }

    // With the lock taken: rotate unless the lock file could not be written, and release it.
    method RotateAndRelease(pid: Pid, temporary: Name, req: Request, noted: bool) returns (report: Report)
      requires Valid() && temporary != target && temporary != lock && Locked(pid)
      requires ValidId(req.newId) && CodecOk(codec)
      modifies this`world, this`trace, fs
      ensures Valid() && old(trace) <= trace && pid !in world.loaded && (world.lock.None? ==> world.loaded == map[])
      ensures Rotated(old(world), world, master, req, report) && (CameToAnEnd(report) ==> world.lock.None?)
      ensures fs.healthy && noted && temporary !in old(fs.dir) ==> report == Answer(old(world).file, master, req)
    {
      report := Err(LockNotWritten);
      if noted {
        report := RotateLocked(pid, temporary, req);
        if report == Err(Killed) {
          Stop(pid);
          return;
        }
      }
      var released := ReleaseLock(pid);
      if !released { report := Err(LockNotReleased); }
    }

    /** rotate_credential_keyring. It reports only what is so; the file ends up as it was or as
        planned; after a reported change the new document is all that a power loss can leave; a held
        lock keeps it from doing anything; reading back never finds another document; and with a free
        lock on a healthy disk the answer is determined by the file and the request. */
    method RotateKeyring(pid: Pid, temporary: Name, req: Request) returns (report: Report)
      requires Valid() && temporary != target && temporary != lock
      requires pid !in world.loaded && (world.lock.None? ==> world.loaded == map[]) && CodecOk(codec)
      modifies this`world, this`trace, fs
      ensures Valid() && old(trace) <= trace && pid !in world.loaded && (world.lock.None? ==> world.loaded == map[])
      ensures Rotated(old(world), world, master, req, report) && (CameToAnEnd(report) ==> world.lock.None?)
      ensures fs.healthy && temporary !in old(fs.dir) && old(world).lock.None? ==>
                report == Answer(old(world).file, master, req)
      ensures old(world).lock.Some? ==> (report == Err(Refused) || report == Err(LockRefused)) && world == old(world)
    {
      if !ValidId(req.newId) { return Err(Refused); }
      var taken, noted := TakeLock(pid);
      if !taken { return Err(LockRefused); }
      report := RotateAndRelease(pid, temporary, req, noted);
    }

    // The operator removes the lock of a process that is gone.
    method ClearStaleLock(ghost pid: Pid)
      requires Valid() && world.lock == Some(pid) && pid !in world.loaded
      modifies this`world, this`trace, fs
      ensures Valid() && old(trace) <= trace && world.file == old(world).file
    {
      var gone := fs.Unlink(lock);
      if lock !in fs.dir { Record(KeyringLifecycle.ClearStaleLock(pid)); }
    }

    /** A power loss at any moment is one of the run's. */
    method PowerLoss()
      requires Valid()
      modifies this`world, this`trace, fs
      ensures Valid() && |trace| == |old(trace)| + 1 && old(trace) <= trace && trace[|trace| - 1].PowerLoss?
      ensures world.file in old(Docs(world)) && world.fallback == {} && world.apps == map[] && world.loaded == map[]
    {
      fs.PowerLoss();
      var left, holder := Decode(codec, fs.Content(target)), if fs.Content(lock).Some? then Some(0) else None;
      Record(KeyringLifecycle.PowerLoss(left, holder));
    }

    /** On the disk: if applications started only after the last write had returned, then whatever a
        power loss leaves in the file now is a valid document, or no file, with which every stored
        credential decrypts to its plaintext. */
    lemma DiskIsSafe(content: Option<string>)
      requires Valid() && Ideal(c) && Inv(c, first) && AllObey(c, first, trace, true)
      requires fs.CanSurvive(target, content)
      ensures var left := Decode(codec, content);
              && (left.Some? ==> DocumentOk(left.value))
              && KeyringLifecycle.AllReadable(c, world.(file := left))
    {
      RunReplays(c, first, trace);
      InvHolds(c, first, trace);
      ServedIsReadable(c, world, Decode(codec, content));
    }
  }
}
