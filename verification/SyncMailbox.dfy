/**
 The worker run itself: its database transactions as methods that reassign the tables, and
 between any two of them arbitrary steps of other runs, owners, retention and the mail
 server. Every method call extends a trace of the state machine, so what is proved about
 all traces holds of every execution.
 */
module SyncMailbox {
  import opened Wrappers
  import opened MailboxModel
  import CursorSoundness
  import MessageHistory
  import CleanRuns
  import Keys = CredentialKeyring

  // How sync_mailbox fails: before its try block, or inside it with an exception that is caught and
  // carries a code, or with one that is not (a database error, say).
  datatype Failure = NotDecrypted(error: Keys.CryptoError) | Caught(code: string) | Uncaught

  // What may go wrong during a run: nothing, not even interference; exceptions of the caught kinds; or
  // anything.
  datatype Faults = NoFaults | CaughtFaults | AnyFaults

  const CHANGED := "configuration_changed"

  // decrypt_secret. None: the settings are no keyring.
  function Password(c: Keys.Fernet, keyring: Option<Keys.Keyring>, value: string): Result<string, Keys.CryptoError> {
    if keyring.None? then Err(Keys.InvalidConfiguration) else Keys.Decrypt(c, keyring.value, value)
  }

  // imaplib encodes the arguments of LOGIN as ASCII.
  predicate IsAscii(s: string) { forall i :: 0 <= i < |s| ==> s[i] as int < 128 }

  /** A credential whose key is held is read as the password it was sealed from; without a keyring none
      is. */
  lemma ReadableCredential(c: Keys.Fernet, keyring: Option<Keys.Keyring>, value: string, plain: string)
    requires Keys.Ideal(c)
    ensures keyring.None? ==> Password(c, keyring, value) == Err(Keys.InvalidConfiguration)
    ensures keyring.Some? && Keys.Holds(c, keyring.value, value, plain) ==> Password(c, keyring, value) == Ok(plain)
  {
    if keyring.Some? && Keys.Holds(c, keyring.value, value, plain) {
      Keys.HeldIsReadable(c, keyring.value, value, plain);
    }
  }

  /** A credential sealed under a primary key that this application's keyring does not have yet: its
      mailbox fails before the try block. */
  lemma UnreadableCredential(c: Keys.Fernet, newer: Keys.Keyring, mine: Keys.Keyring, nonce: nat, plain: string)
    requires Keys.Ideal(c) && Keys.WellFormed(newer) && newer.primary.Some? && newer.primary.value !in mine.keys
    ensures Password(c, Some(mine), Keys.Encrypt(c, newer, nonce, plain))
            == Err(Keys.UnavailableKey(newer.primary.value))
  {
    var id := newer.primary.value;
    var token := c.enc(newer.keys[id], nonce, plain);
    Keys.EnvelopeRoundTrip(id, token, Keys.Envelope(id, token));
  }

  class Gateway {
    var boxes: map<BoxId, Row>
    var messages: map<MsgId, Message>
    var attachments: map<MsgId, seq<string>>
    var log: seq<Entry>
    var nextBox: BoxId
    var nextMsg: MsgId
    var servers: map<BoxId, Server>
    var runs: map<RunId, WorkerRun>
    var nextRun: RunId
    ghost var trace: seq<Event>

    function Tables(): Db
      reads this
    {
      Db(boxes, messages, attachments, log, nextBox, nextMsg)
    }

    function World(): State
      reads this
    {
      State(Tables(), servers, runs, nextRun)
    }

    ghost predicate Valid()
      reads this
    {
      World() == Replay(INIT, trace)
    }

    constructor ()
      ensures Valid() && trace == []
    {
      boxes, messages, attachments, log, nextBox, nextMsg := map[], map[], map[], [], 0, 0;
      servers, runs, nextRun, trace := map[], map[], 0, [];
    }

    // The next state is the one event e leads to; the trace records it.
    twostate predicate Did(e: Event)
      reads this
    {
      World() == Apply(old(World()), e) && trace == old(trace) + [e]
    }

    twostate lemma DidKeepsValid(e: Event)
      requires old(Valid()) && Did(e)
      ensures Valid()
    {
      assert trace[..|trace| - 1] == old(trace);
    }

    // How often run r recorded an error on its mailbox.
    static ghost function Reports(es: seq<Event>, r: RunId): nat {
      if es == [] then 0
      else Reports(es[..|es| - 1], r) + if es[|es| - 1].Fail? && es[|es| - 1].run == r then 1 else 0
    }

    static lemma ReportsStep(es: seq<Event>, e: Event, r: RunId)
      ensures Reports(es + [e], r) == Reports(es, r) + if e.Fail? && e.run == r then 1 else 0
    {
      assert (es + [e])[..|es|] == es;
    }

    // No step of run r recorded an error.
    twostate predicate Silent(r: RunId)
      reads this
    {
      old(trace) <= trace && Reports(trace, r) == Reports(old(trace), r)
    }

    // The table part of _store_message's transaction: None when the configuration changed.
    method StoreRow(version: nat, m: Message) returns (created: Option<bool>)
      modifies this`messages, this`attachments, this`log, this`nextMsg
      ensures (Tables(), created) == StoreTx(old(Tables()), version, m)
      ensures var box, there := m.key.box, exists id :: id in old(messages) && old(messages)[id].key == m.key;
              && (created == None <==>
                    !(box in boxes && boxes[box].config.enabled && boxes[box].version == version))
              && (created.Some? ==> created.value == !there)
    {
      var box := m.key.box;
      if box !in boxes || !boxes[box].config.enabled || boxes[box].version != version {
        return None;
      }
      if exists id :: id in messages && messages[id].key == m.key {
        return Some(false);
      }
      messages := messages[nextMsg := ForceQuarantine(m)];
      attachments := attachments[nextMsg :=
        (if nextMsg in attachments then attachments[nextMsg] else []) + m.content.attachments];
      log := log + [Ingested(nextMsg, m.key, m.content)];
      nextMsg := nextMsg + 1;
      return Some(true);
    }

    // One transaction of _store_message.
    method StoreMessage(r: RunId, version: nat, m: Message) returns (created: Option<bool>)
      requires Valid() && r in runs && runs[r].version == version
      requires runs[r].phase.Storing? && runs[r].phase.todo != [] && runs[r].validity.Some?
      requires m.key == Key(runs[r].box, runs[r].validity.value, runs[r].phase.todo[0])
      modifies this
      ensures Valid() && Did(Store(r, m.content, m.state, m.risk))
      ensures created == StoreTx(old(Tables()), version, m).1 && boxes == old(boxes)
    {
      StoreOutcome(World(), r, m);
      created := StoreRow(version, m);
      runs := StoredRun(runs, r, created);
      trace := trace + [Store(r, m.content, m.state, m.risk)];
      DidKeepsValid(Store(r, m.content, m.state, m.risk));
    }

    // The run's own variables after one iteration of its loop.
    static function StoredRun(all: map<RunId, WorkerRun>, r: RunId, created: Option<bool>): map<RunId, WorkerRun>
      requires r in all && all[r].phase.Storing? && all[r].phase.todo != []
    {
      if created.None? then all - {r} else all[r := Turned(all[r], created.value)]
    }

    static function Turned(run: WorkerRun, created: bool): WorkerRun
      requires run.phase.Storing? && run.phase.todo != []
    {
      run.(cursor := Max(run.cursor, run.phase.todo[0]), phase := Storing(run.phase.todo[1..]),
           created := run.created + if created then 1 else 0)
    }

    static lemma StoreOutcome(s: State, r: RunId, m: Message)
      requires r in s.runs && s.runs[r].phase.Storing? && s.runs[r].phase.todo != [] && s.runs[r].validity.Some?
      requires m.key == Key(s.runs[r].box, s.runs[r].validity.value, s.runs[r].phase.todo[0])
      ensures var (db, created) := StoreTx(s.db, s.runs[r].version, m);
              Apply(s, Store(r, m.content, m.state, m.risk)) == s.(db := db, runs := StoredRun(s.runs, r, created))
    {
    }

    // The final conditional UPDATE of sync_mailbox.
    method SaveCursor(r: RunId, box: BoxId, version: nat, validity: Option<nat>, lastUid: Uid, now: int)
      returns (updated: bool)
      requires Valid() && r in runs && runs[r].phase == Storing([])
      requires runs[r].box == box && runs[r].version == version
      requires runs[r].validity == validity && runs[r].cursor == lastUid
      modifies this
      ensures Valid() && Did(Finish(r, now)) && r !in runs
      ensures updated <==> box in old(boxes) && old(boxes)[box].config.enabled && old(boxes)[box].version == version
      ensures messages == old(messages) && attachments == old(attachments) && log == old(log)
      ensures boxes == if updated then old(boxes)[box :=
                old(boxes)[box].(validity := validity, lastUid := lastUid, lastSync := Some(now), errorCode := "")]
              else old(boxes)
    {
      var next := Apply(World(), Finish(r, now));
      updated := box in boxes && boxes[box].config.enabled && boxes[box].version == version;
      if updated {
        var row := boxes[box];
        boxes := boxes[box := Updated(row,
          row.(validity := validity, lastUid := lastUid, lastSync := Some(now), errorCode := ""))];
      }
      runs, trace := next.runs, trace + [Finish(r, now)];
      DidKeepsValid(Finish(r, now));
    }

    // The code and the time are on the row if it is still the one captured; nothing else changes.
    static predicate Recorded(
      before: map<BoxId, Row>, after: map<BoxId, Row>, box: BoxId, version: nat, code: string, now: int)
    {
      && after.Keys == before.Keys && (forall b :: b in before && b != box ==> after[b] == before[b])
      && (box in before ==>
            after[box] ==
              if before[box].config.enabled && before[box].version == version && code != CHANGED
              then before[box].(errorCode := code, lastSync := Some(now)) else before[box])
    }

    // The exception handler's conditional UPDATE.
    method RecordError(r: RunId, box: BoxId, version: nat, code: string, now: int)
      requires Valid() && r in runs && runs[r].box == box && runs[r].version == version
      modifies this
      ensures Valid() && Did(Fail(r, code, now)) && r !in runs
      ensures messages == old(messages) && attachments == old(attachments) && log == old(log)
      ensures Recorded(old(boxes), boxes, box, version, code, now)
    {
      var next := Apply(World(), Fail(r, code, now));
      if code != CHANGED && box in boxes && boxes[box].config.enabled && boxes[box].version == version {
        var row := boxes[box];
        boxes := boxes[box := Updated(row, row.(errorCode := code, lastSync := Some(now)))];
      }
      runs, trace := next.runs, trace + [Fail(r, code, now)];
      DidKeepsValid(Fail(r, code, now));
    }

    method Note(e: Event)
      requires Valid() && (e.Begin? || e.Select? || e.Search? || e.Crash?)
      modifies this`runs, this`nextRun, this`trace
      ensures Valid() && Did(e) && forall r :: Silent(r)
    {
      var next := Apply(World(), e);
      runs, nextRun, trace := next.runs, next.nextRun, trace + [e];
      DidKeepsValid(e);
      forall r ensures Silent(r) { ReportsStep(old(trace), e, r); }
    }

    // Any number of steps of anyone but run r.
    method Interfere(r: RunId, faults: Faults)
      requires Valid() && r in runs && r < nextRun
      modifies this
      ensures Valid() && Silent(r) && r in runs && runs[r] == old(runs[r]) && r < nextRun
      ensures faults.NoFaults? ==> World() == old(World())
    {
      if faults.NoFaults? { return; }
      var n: nat := *;
      while n > 0
        invariant Valid() && Silent(r) && r in runs && runs[r] == old(runs[r]) && r < nextRun
      {
        var e: Event := *;
        if !OfRun(e, r) {
          OtherStep(r, e);
        }
        n := n - 1;
      }
    }

    static lemma OthersLeaveRunAlone(s: State, e: Event, r: RunId)
      requires r in s.runs && r < s.nextRun && !OfRun(e, r)
      ensures var t := Apply(s, e); r in t.runs && t.runs[r] == s.runs[r] && r < t.nextRun
    {
    }

    method OtherStep(r: RunId, e: Event)
      requires Valid() && r in runs && r < nextRun && !OfRun(e, r)
      modifies this
      ensures Valid() && Did(e) && Silent(r) && r in runs && runs[r] == old(runs[r]) && r < nextRun
    {
      var next := Apply(World(), e);
      OthersLeaveRunAlone(World(), e, r);
      boxes, messages, attachments := next.db.boxes, next.db.messages, next.db.attachments;
      log, nextBox, nextMsg := next.db.log, next.db.nextBox, next.db.nextMsg;
      servers, runs, nextRun, trace := next.servers, next.runs, next.nextRun, trace + [e];
      DidKeepsValid(e);
      ReportsStep(old(trace), e, r);
    }

    // The run has just committed its cursor: the last event is its final update, made while
    // the captured version was current, and `created` is the number of rows its own steps added.
    ghost predicate Committed(r: RunId, box: BoxId, version: nat, created: nat)
      reads this
    {
      && trace != [] && trace[|trace| - 1].Finish? && trace[|trace| - 1].run == r
      && var before := Replay(INIT, trace[..|trace| - 1]);
         && r in before.runs && before.runs[r].box == box && before.runs[r].version == version
         && created == MessageHistory.Inserted(trace, r)
         && Current(before.db, box, version)
         && box in boxes && boxes[box].version == version
         && boxes[box].lastUid == before.runs[r].cursor && boxes[box].validity == before.runs[r].validity
         && boxes[box].errorCode == "" && boxes[box].lastSync == Some(trace[|trace| - 1].now)
    }

    // SELECT: a changed UIDVALIDITY resets the in-memory cursor.
    method SelectInbox(r: RunId, validity: Option<nat>, lastUid: Uid)
      returns (newValidity: Option<nat>, newLastUid: Uid)
      requires Valid() && r in runs && r < nextRun && runs[r].box in servers
      requires runs[r].phase.Opened? && runs[r].validity == validity && runs[r].cursor == lastUid
      modifies this`runs, this`nextRun, this`trace
      ensures Valid() && Silent(r) && r in runs && r < nextRun
      ensures Did(Select(r)) && newValidity == Some(servers[old(runs[r]).box].validity)
      ensures newLastUid == if newValidity == validity then lastUid else 0
      ensures runs[r] == old(runs[r]).(validity := newValidity, cursor := newLastUid, phase := Selected)
    {
      var v := servers[runs[r].box].validity;
      Note(Select(r));
      newValidity, newLastUid := validity, lastUid;
      if validity != Some(v) {
        newValidity, newLastUid := Some(v), 0;
      }
    }

    // SEARCH, the filter above the cursor and the cut to the batch size.
    method SearchUids(r: RunId, validity: Option<nat>, lastUid: Uid, batchSize: nat, answer: seq<Uid>)
      returns (uids: Option<seq<Uid>>)
      requires Valid() && r in runs && r < nextRun
      requires runs[r].phase.Selected? && runs[r].validity == validity && runs[r].cursor == lastUid
      modifies this`runs, this`nextRun, this`trace
      ensures Valid() && Silent(r) && r in runs && r < nextRun
      ensures uids.None? ==> runs[r] == old(runs[r])
      ensures uids.Some? ==> runs[r] == old(runs[r]).(phase := Storing(uids.value))
      ensures uids.Some? ==> Did(Search(r, answer, batchSize)) && uids.value == Take(Above(answer, lastUid), batchSize)
      ensures var box := old(runs[r]).box;
              uids.Some? <==>
                && box in old(servers) && validity == Some(old(servers)[box].validity)
                && AnswersSearch(old(servers)[box].present, lastUid + 1, answer)
    {
      var box := runs[r].box;
      if box !in servers || validity != Some(servers[box].validity)
         || !AnswersSearch(servers[box].present, lastUid + 1, answer) {
        return None;
      }
      Note(Search(r, answer, batchSize));
      uids := Some(Take(Above(answer, lastUid), batchSize));
    }

    // One iteration of the loop: fetch, process, store, advance the in-memory cursor.
    method StoreNext(r: RunId, box: BoxId, version: nat, validity: nat, uid: Uid, mail: Mail)
      returns (created: Option<bool>)
      requires Valid() && r in runs && r < nextRun
      requires runs[r].phase.Storing? && runs[r].phase.todo != [] && runs[r].phase.todo[0] == uid
      requires runs[r].box == box && runs[r].version == version && runs[r].validity == Some(validity)
      modifies this
      ensures Valid() && Silent(r)
      ensures created.Some? ==> r in runs && r < nextRun && runs == StoredRun(old(runs), r, created)
      ensures Did(Store(r, mail.content, mail.state, mail.risk)) && boxes == old(boxes)
      ensures created.Some? <==> box in boxes && boxes[box].config.enabled && boxes[box].version == version
    {
      created := StoreMessage(r, version, Message(Key(box, validity, uid), mail.content, mail.state, mail.risk));
      ReportsStep(old(trace), Store(r, mail.content, mail.state, mail.risk), r);
    }

    // What an exception at a point that may raise any turns out to be.
    static function Mails(mail: Uid -> Mail, uids: seq<Uid>): seq<Mail> {
      seq(|uids|, i requires 0 <= i < |uids| => mail(uids[i]))
    }

    static lemma MoreMails(mail: Uid -> Mail, uids: seq<Uid>, i: nat)
      requires i < |uids|
      ensures Mails(mail, uids[..i + 1]) == Mails(mail, uids[..i]) + [mail(uids[i])]
    {
    }

    // These mails have been stored one after another, and no row of a mailbox has changed.
    static ghost predicate AllStored(s: State, t: State, r: RunId, mails: seq<Mail>) {
      t == CleanRuns.StoreAll(s, r, mails) && t.db.boxes == s.db.boxes
    }

    static lemma OneMoreStored(s: State, t: State, r: RunId, mails: seq<Mail>, mail: Mail)
      requires AllStored(s, t, r, mails)
      ensures var next := Apply(t, Store(r, mail.content, mail.state, mail.risk));
              next.db.boxes == t.db.boxes ==> AllStored(s, next, r, mails + [mail])
    {
      CleanRuns.StoreOneMore(s, r, mails, mail);
    }

    // One turn of the loop.
    method StoreTurn(r: RunId, box: BoxId, version: nat, validity: nat, uid: Uid, mail: Mail, faults: Faults)
      returns (created: Result<bool, Failure>)
      requires Valid() && r in runs && r < nextRun
      requires runs[r].phase.Storing? && runs[r].phase.todo != [] && runs[r].phase.todo[0] == uid
      requires runs[r].box == box && runs[r].version == version && runs[r].validity == Some(validity)
      modifies this
      ensures Valid() && Silent(r)
      ensures created.Ok? ==> r in runs && r < nextRun && runs[r] == Turned(old(runs[r]), created.value)
      ensures created.Err? ==> !created.error.NotDecrypted? && (created.error.Uncaught? ==> faults.AnyFaults?)
      ensures created.Err? && created.error.Caught? && created.error.code != CHANGED ==> Recordable(r, box, version)
      ensures faults.NoFaults? && Current(old(Tables()), box, version) ==>
                && created.Ok? && boxes == old(boxes)
                && World() == Apply(old(World()), Store(r, mail.content, mail.state, mail.risk))
    {
      Interfere(r, faults);
      var fetched: bool := *;
      if !fetched && !faults.NoFaults? {
        var failure := AnyFailure("fetch_failed", faults);
        return Err(failure);
      }
      var stored := StoreNext(r, box, version, validity, uid, mail);
      var told: bool := *;
      if !told && faults.AnyFaults? { return Err(Uncaught); }
      if stored.None? { return Err(Caught(CHANGED)); }
      return Ok(stored.value);
    }

    method AnyFailure(code: string, faults: Faults) returns (failure: Failure)
      requires code != CHANGED
      ensures failure == Caught(code) || (failure == Uncaught && faults.AnyFaults?)
    {
      var caught: bool := *;
      return if caught || !faults.AnyFaults? then Caught(code) else Uncaught;
    }

    // The run is still there to have its error recorded.
    ghost predicate Recordable(r: RunId, box: BoxId, version: nat)
      reads this
    {
      r in runs && r < nextRun && runs[r].box == box && runs[r].version == version
    }

    method StoreUids(
      r: RunId, box: BoxId, version: nat, validity: nat, start: Uid, uids: seq<Uid>, mail: Uid -> Mail, faults: Faults)
      returns (result: Result<nat, Failure>, lastUid: Uid)
      requires Valid() && r in runs && r < nextRun
      requires runs[r] == WorkerRun(box, version, Some(validity), start, Storing(uids), 0)
      modifies this
      ensures Valid() && Silent(r)
      ensures result.Ok? ==> (r in runs && r < nextRun &&
                              runs[r] == WorkerRun(box, version, Some(validity), lastUid, Storing([]), result.value))
      ensures result.Err? ==> !result.error.NotDecrypted? && (result.error.Uncaught? ==> faults.AnyFaults?)
      ensures result.Err? && result.error.Caught? && result.error.code != CHANGED ==> Recordable(r, box, version)
      ensures faults.NoFaults? && Current(old(Tables()), box, version) ==>
                result.Ok? && AllStored(old(World()), World(), r, Mails(mail, uids))
    {
      lastUid := start;
      var created := 0;
      var i := 0;
      ghost var before := World();
      ghost var clean := faults.NoFaults? && Current(before.db, box, version);
      assert Mails(mail, uids[..0]) == [];
      while i < |uids|
        invariant 0 <= i <= |uids|
        invariant Valid() && Silent(r) && r in runs && r < nextRun
        invariant runs[r] == WorkerRun(box, version, Some(validity), lastUid, Storing(uids[i..]), created)
        invariant clean ==> AllStored(before, World(), r, Mails(mail, uids[..i])) && Current(Tables(), box, version)
      {
        MoreMails(mail, uids, i);
        ghost var here := World();
        var stored := StoreTurn(r, box, version, validity, uids[i], mail(uids[i]), faults);
        if stored.Err? { return Err(stored.error), lastUid; }
        if clean {
          OneMoreStored(before, here, r, Mails(mail, uids[..i]), mail(uids[i]));
        }
        assert uids[i..][1..] == uids[i + 1..];
        created := created + if stored.value then 1 else 0;
        lastUid := Max(lastUid, uids[i]);
        i := i + 1;
      }
      assert uids[i..] == [] && uids[..i] == uids;
      result := Ok(created);
    }

    // The end of the try block: the cursor is committed, or the configuration has changed.
    method Commit(r: RunId, box: BoxId, version: nat, validity: Option<nat>, lastUid: Uid, created: nat)
      returns (updated: bool, ghost now: int)
      requires Valid() && r in runs && r < nextRun
      requires runs[r] == WorkerRun(box, version, validity, lastUid, Storing([]), created)
      modifies this
      ensures Valid() && Silent(r)
      ensures updated ==> Committed(r, box, version, created)
      ensures updated <==> Current(old(Tables()), box, version)
      ensures Did(Finish(r, now))
    {
      var time: int := *;
      ghost var before := trace;
      now := time;
      MessageHistory.CreatedIsInserted(before, r);
      updated := SaveCursor(r, box, version, validity, lastUid, time);
      ReportsStep(before, Finish(r, now), r);
      assert trace[..|trace| - 1] == before;
    }

    // The try block of sync_mailbox, from connecting to the final update. Any call may raise anything.
    method TrySync(
      r: RunId, box: BoxId, mailbox: Row, password: string, batchSize: nat, answer: seq<Uid>, mail: Uid -> Mail,
      faults: Faults)
      returns (result: Result<nat, Failure>)
      requires Valid() && r in runs && r < nextRun
      requires runs[r] == WorkerRun(box, mailbox.version, mailbox.validity, mailbox.lastUid, Opened, 0)
      modifies this
      ensures Valid() && Silent(r)
      ensures result.Ok? ==> Committed(r, box, mailbox.version, result.value)
      ensures result.Ok? ==> IsAscii(mailbox.config.username) && IsAscii(password)
      ensures result.Err? ==> !result.error.NotDecrypted?
      ensures result == Err(Uncaught) ==>
                faults.AnyFaults? || !IsAscii(mailbox.config.username) || !IsAscii(password)
      ensures result.Err? && result.error.Caught? && result.error.code != CHANGED ==>
                Recordable(r, box, mailbox.version)
      ensures faults.NoFaults? && box in old(servers) && Current(old(Tables()), box, mailbox.version)
              && IsAscii(mailbox.config.username) && IsAscii(password) ==>
                var sv := old(servers)[box];
                var start := if mailbox.validity == Some(sv.validity) then mailbox.lastUid else 0;
                AnswersSearch(sv.present, start + 1, answer) ==>
                  Completed(Apply(old(World()), Select(r)), World(), r, batchSize, answer,
                            Mails(mail, Take(Above(answer, start), batchSize)), result)
    {
      Interfere(r, faults);
      var connected: bool := *;
      if (!connected && !faults.NoFaults?) || box !in servers {
        var failure := AnyFailure("connection_failed", faults);
        return Err(failure);
      }
      if !IsAscii(mailbox.config.username) || !IsAscii(password) { return Err(Uncaught); }
      var validity, lastUid := SelectInbox(r, mailbox.validity, mailbox.lastUid);
      result := StoreNew(r, box, mailbox.version, validity, lastUid, batchSize, answer, mail, faults);
    }

    // From this state the run has searched, stored these mails, and made its final update; it
    // returns its counter.
    static ghost predicate Completed(
      s: State, t: State, r: RunId, batchSize: nat, answer: seq<Uid>, mails: seq<Mail>, result: Result<nat, Failure>)
    {
      var u := CleanRuns.StoreAll(Apply(s, Search(r, answer, batchSize)), r, mails);
      result == Ok(CleanRuns.Returned(u, r)) && exists now :: t == Apply(u, Finish(r, now))
    }

    static lemma FinishCompletes(
      s: State, u: State, t: State, r: RunId, batchSize: nat, answer: seq<Uid>, mails: seq<Mail>, now: int)
      requires r in u.runs && t == Apply(u, Finish(r, now))
      ensures u == CleanRuns.StoreAll(Apply(s, Search(r, answer, batchSize)), r, mails) ==>
                Completed(s, t, r, batchSize, answer, mails, Ok(u.runs[r].created))
    {
    }

    // From the beginning on, that is a clean run.
    static ghost predicate IsCleanRun(
      s: State, t: State, box: BoxId, batchSize: nat, answer: seq<Uid>, mails: seq<Mail>, result: Result<nat, Failure>)
    {
      && result == Ok(CleanRuns.Returned(CleanRuns.RunUntilFinish(s, box, answer, batchSize, mails), s.nextRun))
      && exists now :: t == CleanRuns.CleanRun(s, box, answer, batchSize, mails, now)
    }

    static lemma CompletedIsClean(
      s: State, t: State, box: BoxId, batchSize: nat, answer: seq<Uid>, mails: seq<Mail>, result: Result<nat, Failure>)
      requires Completed(Apply(Apply(s, Begin(box)), Select(s.nextRun)), t, s.nextRun, batchSize, answer, mails, result)
      ensures IsCleanRun(s, t, box, batchSize, answer, mails, result)
    {
      var u := CleanRuns.RunUntilFinish(s, box, answer, batchSize, mails);
      var now :| t == Apply(u, Finish(s.nextRun, now));
      assert t == CleanRuns.CleanRun(s, box, answer, batchSize, mails, now);
    }

    // From SEARCH on.
    method StoreNew(
      r: RunId, box: BoxId, version: nat, validity: Option<nat>, start: Uid, batchSize: nat, answer: seq<Uid>,
      mail: Uid -> Mail, faults: Faults)
      returns (result: Result<nat, Failure>)
      requires Valid() && r in runs && r < nextRun && validity.Some?
      requires runs[r] == WorkerRun(box, version, validity, start, Selected, 0)
      modifies this
      ensures Valid() && Silent(r)
      ensures result.Ok? ==> Committed(r, box, version, result.value)
      ensures result.Err? ==> !result.error.NotDecrypted? && (result.error.Uncaught? ==> faults.AnyFaults?)
      ensures result.Err? && result.error.Caught? && result.error.code != CHANGED ==> Recordable(r, box, version)
      ensures faults.NoFaults? && box in old(servers) && validity == Some(old(servers)[box].validity)
              && Current(old(Tables()), box, version)
              && AnswersSearch(old(servers)[box].present, start + 1, answer) ==>
                Completed(old(World()), World(), r, batchSize, answer,
                          Mails(mail, Take(Above(answer, start), batchSize)), result)
    {
      var lastUid: Uid;
      result, lastUid := FetchNew(r, box, version, validity, start, batchSize, answer, mail, faults);
      if result.Err? { return; }
      Interfere(r, faults);
      ghost var stored := World();
      var updated, now := Commit(r, box, version, validity, lastUid, result.value);
      FinishCompletes(old(World()), stored, World(), r, batchSize, answer,
                      Mails(mail, Take(Above(answer, start), batchSize)), now);
      var told: bool := *;
      if !told && faults.AnyFaults? { return Err(Uncaught); }
      if !updated { result := Err(Caught(CHANGED)); }
    }

    // Up to the end of the loop.
    method FetchNew(
      r: RunId, box: BoxId, version: nat, validity: Option<nat>, start: Uid, batchSize: nat, answer: seq<Uid>,
      mail: Uid -> Mail, faults: Faults)
      returns (result: Result<nat, Failure>, lastUid: Uid)
      requires Valid() && r in runs && r < nextRun && validity.Some?
      requires runs[r] == WorkerRun(box, version, validity, start, Selected, 0)
      modifies this
      ensures Valid() && Silent(r)
      ensures result.Ok? ==> (
                r in runs && r < nextRun &&
                runs[r] == WorkerRun(box, version, validity, lastUid, Storing([]), result.value))
      ensures result.Err? ==> !result.error.NotDecrypted? && (result.error.Uncaught? ==> faults.AnyFaults?)
      ensures result.Err? && result.error.Caught? && result.error.code != CHANGED ==> Recordable(r, box, version)
      ensures faults.NoFaults? && box in old(servers) && validity == Some(old(servers)[box].validity)
              && Current(old(Tables()), box, version)
              && AnswersSearch(old(servers)[box].present, start + 1, answer) ==>
                && result.Ok? && Current(Tables(), box, version)
                && World() == CleanRuns.StoreAll(Apply(old(World()), Search(r, answer, batchSize)), r,
                                                 Mails(mail, Take(Above(answer, start), batchSize)))
    {
      lastUid := start;
      Interfere(r, faults);
      var uids := SearchUids(r, validity, lastUid, batchSize, answer);
      if uids.None? {
        var failure := AnyFailure("search_failed", faults);
        return Err(failure), lastUid;
      }
      result, lastUid := StoreUids(r, box, version, validity.value, lastUid, uids.value, mail, faults);
    }

    // The run's last event was the report of this error: on the mailbox are the code and the time, if
    // it still is as captured, and no other row has changed.
    ghost predicate Reported(r: RunId, box: BoxId, version: nat, code: string)
      reads this
    {
      && trace != [] && trace[|trace| - 1].Fail? && trace[|trace| - 1].run == r && trace[|trace| - 1].code == code
      && var now := trace[|trace| - 1].now;
         && Recorded(Replay(INIT, trace[..|trace| - 1]).db.boxes, boxes, box, version, code, now)
         && (box in boxes && boxes[box].config.enabled && boxes[box].version == version ==>
               boxes[box].errorCode == code && boxes[box].lastSync == Some(now))
    }

    // Exactly the failures inside the try block that are caught end with a report, but for a change
    // of the configuration.
    static predicate IsReported(result: Result<nat, Failure>) {
      result.Err? && result.error.Caught? && result.error.code != CHANGED
    }

    // The handler of the caught exceptions; its own update may raise.
    method Handle(r: RunId, box: BoxId, version: nat, failure: Failure, faults: Faults) returns (raised: Failure)
      requires Valid() && !failure.NotDecrypted?
      requires failure.Caught? && failure.code != CHANGED ==> Recordable(r, box, version)
      modifies this
      ensures Valid() && old(trace) <= trace
      ensures raised == failure || (raised == Uncaught && faults.AnyFaults?)
      ensures IsReported(Err(raised)) ==> Reported(r, box, version, raised.code)
      ensures Reports(trace, r) == Reports(old(trace), r) + if IsReported(Err(raised)) then 1 else 0
    {
      raised := failure;
      if failure.Caught? && failure.code != CHANGED {
        Interfere(r, faults);
        var now: int, updates: bool := *, *;
        if updates || !faults.AnyFaults? {
          ghost var before := trace;
          RecordError(r, box, version, failure.code, now);
          assert trace[..|trace| - 1] == before;
          ReportsStep(before, Fail(r, failure.code, now), r);
          return;
        }
        raised := Uncaught;
      }
      if raised.Uncaught? { Note(Crash(r)); }
    }

    // With the password: the try block and its handler.
    method SyncWith(
      box: BoxId, mailbox: Row, password: string, batchSize: nat, answer: seq<Uid>, mail: Uid -> Mail, faults: Faults)
      returns (result: Result<nat, Failure>)
      requires Valid() && (forall r :: r in runs ==> r < nextRun)
      requires box in boxes && boxes[box] == mailbox && mailbox.config.enabled
      modifies this
      ensures Valid() && old(trace) <= trace
      ensures result.Err? ==> !result.error.NotDecrypted?
      ensures result == Err(Uncaught) ==>
                faults.AnyFaults? || !IsAscii(mailbox.config.username) || !IsAscii(password)
      ensures result.Ok? ==>
                && Committed(old(nextRun), box, mailbox.version, result.value)
                && IsAscii(mailbox.config.username) && IsAscii(password)
      ensures IsReported(result) ==> Reported(old(nextRun), box, mailbox.version, result.error.code)
      ensures Reports(trace, old(nextRun)) == Reports(old(trace), old(nextRun)) + if IsReported(result) then 1 else 0
      ensures faults.NoFaults? && Answers(old(World()), box, answer)
              && IsAscii(mailbox.config.username) && IsAscii(password) ==>
                IsCleanRun(old(World()), World(), box, batchSize, answer,
                           Mails(mail, CleanRuns.Batch(mailbox, old(servers)[box], answer, batchSize)), result)
    {
      var r := nextRun;
      Note(Begin(box));
      result := TrySync(r, box, mailbox, password, batchSize, answer, mail, faults);
      if result.Err? {
        var raised := Handle(r, box, mailbox.version, result.error, faults);
        result := Err(raised);
      } else if faults.NoFaults? && Answers(old(World()), box, answer) {
        CompletedIsClean(old(World()), World(), box, batchSize, answer,
                         Mails(mail, CleanRuns.Batch(mailbox, old(servers)[box], answer, batchSize)), result);
      }
    }

    // The server is there and this is a lawful answer to the search.
    static predicate Answers(s: State, box: BoxId, answer: seq<Uid>)
      requires box in s.db.boxes
    {
      && box in s.servers
      && AnswersSearch(s.servers[box].present, CleanRuns.StartCursor(s.db.boxes[box], s.servers[box]) + 1, answer)
    }

    // What a run needs that meets no obstacle: an enabled mailbox with a readable credential, its
    // server, and a lawful answer to the search.
    static predicate Undisturbed(
      s: State, box: BoxId, c: Keys.Fernet, keyring: Option<Keys.Keyring>, answer: seq<Uid>)
    {
      && box in s.db.boxes && s.db.boxes[box].config.enabled && Answers(s, box, answer)
      && var config := s.db.boxes[box].config;
         var password := Password(c, keyring, config.passwordEncrypted);
         password.Ok? && IsAscii(config.username) && IsAscii(password.value)
    }

    /** One worker run over one mailbox. It returns a count only after its cursor was committed
        under the configuration version it started with. It records its error, once and as its last
        step, if and only if it ends with an exception of a caught kind from inside the try block
        that is no change of the configuration; a credential that cannot be decrypted leaves no
        trace at all. Undisturbed, it is the clean run over the answer it got, and returns what that
        returns. `mail` is what parsing and assessment make of each message. */
    method SyncMailbox(
      box: BoxId, c: Keys.Fernet, keyring: Option<Keys.Keyring>, batchSize: nat, answer: seq<Uid>, mail: Uid -> Mail,
      faults: Faults)
      returns (result: Result<nat, Failure>)
      requires Valid() && (forall r :: r in runs ==> r < nextRun)
      modifies this
      ensures Valid() && old(trace) <= trace
      ensures box !in old(boxes) || !old(boxes)[box].config.enabled ==> result == Ok(0) && trace == old(trace)
      ensures box in old(boxes) && old(boxes)[box].config.enabled ==> (
                var mailbox := old(boxes)[box];
                var password := Password(c, keyring, mailbox.config.passwordEncrypted);
                && (password.Err? ==> result == Err(NotDecrypted(password.error)) && trace == old(trace))
                && (result.Err? && result.error.NotDecrypted? ==> password.Err?)
                && (result.Ok? ==>
                      && Committed(old(nextRun), box, mailbox.version, result.value)
                      && IsAscii(mailbox.config.username) && IsAscii(password.value))
                && (result == Err(Uncaught) ==>
                      faults.AnyFaults? || !IsAscii(mailbox.config.username) || !IsAscii(password.value)))
      ensures IsReported(result) ==>
                box in old(boxes) && Reported(old(nextRun), box, old(boxes)[box].version, result.error.code)
      ensures faults.NoFaults? && Undisturbed(old(World()), box, c, keyring, answer) ==> (
                var before := old(World());
                var mails := Mails(mail, CleanRuns.Batch(before.db.boxes[box], before.servers[box], answer, batchSize));
                IsCleanRun(before, World(), box, batchSize, answer, mails, result))
      ensures Reports(trace, old(nextRun)) == Reports(old(trace), old(nextRun)) + if IsReported(result) then 1 else 0
    {
      if box !in boxes || !boxes[box].config.enabled {
        return Ok(0);
      }
      var password := Password(c, keyring, boxes[box].config.passwordEncrypted);
      if password.Err? { return Err(NotDecrypted(password.error)); }
      result := SyncWith(box, boxes[box], password.value, batchSize, answer, mail, faults);
    }

    /** What every execution keeps, because it is a trace of the state machine: the API shows only
        approved messages, and no message is skipped if the servers answer in ascending order. */
    lemma ValidIsSafe()
      requires Valid()
      ensures CursorSoundness.AllOrdered(trace) ==> CursorSoundness.CursorSound(World())
      ensures forall id :: id in MessageHistory.ApprovedView(Tables()) ==>
                && MessageHistory.LatestState(log, id) == Approved
                && Ingested(id, messages[id].key, messages[id].content) in log
    {
      if CursorSoundness.AllOrdered(trace) { CursorSoundness.NoMessageSkipped(trace); }
      MessageHistory.InvHolds(trace);
      assert forall id :: id in messages ==> MessageHistory.MessageOk(Tables(), id);
    }
  }
}
