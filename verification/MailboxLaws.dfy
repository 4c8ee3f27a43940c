/**
 What each transaction writes, field by field, and which event of a run a field's value comes
 from: the error shown on a mailbox, its cursor, and the risk and content of a message.
 */
module MailboxLaws {
  import opened Wrappers
  import opened MailboxModel

  // Nothing changes but the row of this mailbox.
  ghost predicate OnlyRow(before: Db, after: Db, box: BoxId) {
    && after == before.(boxes := after.boxes) && after.boxes.Keys == before.boxes.Keys
    && forall b :: b in before.boxes && b != box ==> after.boxes[b] == before.boxes[b]
  }

  /** A failed run leaves its code and its time on the row it captured, if that is still the row's
      version and it is enabled, and nothing anywhere otherwise. */
  lemma FailLaw(db: Db, box: BoxId, version: nat, code: string, now: int)
    ensures var t := FailTx(db, box, version, code, now);
            && OnlyRow(db, t, box)
            && if Current(db, box, version) && code != "configuration_changed" then
                 t.boxes[box] == db.boxes[box].(errorCode := code, lastSync := Some(now))
               else t == db
  {
    if Current(db, box, version) && code != "configuration_changed" {
      var t := FailTx(db, box, version, code, now);
      assert t.boxes.Keys == db.boxes.Keys;
    }
  }

  /** A finished run leaves its cursor and its time and clears the error, under the same condition. */
  lemma FinishLaw(db: Db, box: BoxId, version: nat, validity: Option<nat>, lastUid: Uid, now: int)
    ensures var (t, done) := FinishTx(db, box, version, validity, lastUid, now);
            && OnlyRow(db, t, box) && (done <==> Current(db, box, version))
            && if done then
                 t.boxes[box] ==
                 db.boxes[box].(validity := validity, lastUid := lastUid, lastSync := Some(now), errorCode := "")
               else t == db
  {
    if Current(db, box, version) {
      var t := FinishTx(db, box, version, validity, lastUid, now).0;
      assert t.boxes.Keys == db.boxes.Keys;
    }
  }

  /** A new mailbox has version 1, no cursor and no result, and is the only change. */
  lemma CreateLaw(s: State, config: Config, name: string, server: Server)
    requires ServerOk(server)
    ensures var t := Apply(s, Create(config, name, server));
            && t.db.boxes == s.db.boxes[s.db.nextBox := Row(config, name, 1, None, 0, None, "")]
            && t.db == s.db.(boxes := t.db.boxes, nextBox := s.db.nextBox + 1) && t.runs == s.runs
  {
  }

  // The form asks for a row whose watched columns differ.
  predicate FormChanges(row: Row, form: EditForm) {
    || form.presetVersion != row.config.presetVersion || form.trustedIds != row.config.trustedIds
    || form.enabled != row.config.enabled
    || (form.password.Some? && form.password.value != row.config.passwordEncrypted)
  }

  predicate FormResets(row: Row, form: EditForm) { form.password.Some? || (form.enabled && !row.config.enabled) }

  /** The owner's form takes effect on its mailbox, and on no other: the name and the editable columns
      are the form's, the identity of the account and the cursor stay, the version moves exactly when
      a watched column changes, and the last result is cleared by a new password or by enabling. */
  lemma EditLaw(db: Db, box: BoxId, form: EditForm)
    ensures var t := EditTx(db, box, form);
            && OnlyRow(db, t, box) && (box !in db.boxes ==> t == db)
            && (box in db.boxes ==>
                  var was, row := db.boxes[box], t.boxes[box];
                  && row.name == form.name && row.config.enabled == form.enabled
                  && row.config.presetVersion == form.presetVersion && row.config.trustedIds == form.trustedIds
                  && (form.password.Some? ==> row.config.passwordEncrypted == form.password.value)
                  && (form.password.None? ==> row.config.passwordEncrypted == was.config.passwordEncrypted)
                  && row.config.providerKey == was.config.providerKey && row.config.host == was.config.host
                  && row.config.port == was.config.port && row.config.username == was.config.username
                  && row.validity == was.validity && row.lastUid == was.lastUid
                  && row.version == (if FormChanges(was, form) then was.version + 1 else was.version)
                  && (FormResets(was, form) ==> row.lastSync == None && row.errorCode == "")
                  && (!FormResets(was, form) ==> row.lastSync == was.lastSync && row.errorCode == was.errorCode))
  {
    if box in db.boxes {
      var t := EditTx(db, box, form);
      assert t.boxes.Keys == db.boxes.Keys;
    }
  }

  /** A deletion takes the mailbox with exactly its own messages and their attachments; everything of
      every other mailbox stays, and so does the history. */
  lemma DeleteLaw(db: Db, box: BoxId)
    ensures var t := DeleteTx(db, box);
            && t.boxes == db.boxes - {box} && t.log == db.log && t.nextBox == db.nextBox && t.nextMsg == db.nextMsg
            && (forall id :: id in t.messages <==> id in db.messages && db.messages[id].key.box != box)
            && (forall id :: id in t.messages ==> t.messages[id] == db.messages[id])
            && (forall id :: id in db.attachments && (id in db.messages ==> db.messages[id].key.box != box) ==>
                  id in t.attachments && t.attachments[id] == db.attachments[id])
            && (forall id :: id in t.attachments ==> id in db.attachments && (id in db.messages ==> id in t.messages))
  {
  }

  /** Re-encryption puts the new value into exactly the rows that are given another one, and moves
      their versions by one. */
  lemma RotateLaw(db: Db, ciphers: map<BoxId, string>)
    ensures var t := RotateTx(db, ciphers);
            && t == db.(boxes := t.boxes) && t.boxes.Keys == db.boxes.Keys
            && forall b :: b in db.boxes ==>
                 var was := db.boxes[b];
                 t.boxes[b] ==
                   if b in ciphers && ciphers[b] != was.config.passwordEncrypted
                   then was.(config := was.config.(passwordEncrypted := ciphers[b]), version := was.version + 1)
                   else was
  {
  }

  /** The owner's decision is the state of that message, and of no other. */
  lemma DecideLaw(db: Db, msg: MsgId, approve: bool)
    ensures var t := DecideTx(db, msg, approve);
            && t.boxes == db.boxes && t.attachments == db.attachments && t.messages.Keys == db.messages.Keys
            && (forall id :: id in db.messages && id != msg ==> t.messages[id] == db.messages[id])
            && (msg in db.messages ==>
                  && t.messages[msg] == db.messages[msg].(state := if approve then Approved else Rejected)
                  && t.log == db.log + [Decided(msg, approve)])
            && (msg !in db.messages ==> t == db)
  {
    if msg in db.messages {
      var t := DecideTx(db, msg, approve);
      assert t.messages.Keys == db.messages.Keys;
    }
  }

  /** A purge takes exactly these messages with their attachments. */
  lemma PurgeLaw(db: Db, msgs: set<MsgId>)
    ensures var t := PurgeTx(db, msgs);
            && t == db.(messages := t.messages, attachments := t.attachments)
            && (forall id :: id in t.messages <==> id in db.messages && id !in msgs)
            && (forall id :: id in t.messages ==> t.messages[id] == db.messages[id])
            && (forall id :: id in t.attachments <==> id in db.attachments && id !in msgs)
            && (forall id :: id in t.attachments ==> t.attachments[id] == db.attachments[id])
  {
  }

  // ---------- The last event that wrote a part of a row ----------

  // What an event writes into a part of one mailbox's row, if it does.
  type Writer<!V> = (State, Event) -> Option<V>

  ghost predicate LastWrite<V(!new)>(w: Writer<V>, es: seq<Event>, i: nat, value: V) {
    && i < |es| && w(Replay(INIT, es[..i]), es[i]) == Some(value)
    && forall j :: i < j < |es| ==> w(Replay(INIT, es[..j]), es[j]).None?
  }

  // The writer says what every event does to this part of the row.
  ghost predicate Covers<V(!new)>(w: Writer<V>, part: Row -> V, box: BoxId) {
    forall s, e :: box in Apply(s, e).db.boxes ==> OneWrite(w, part, box, s, e)
  }

  ghost predicate OneWrite<V(!new)>(w: Writer<V>, part: Row -> V, box: BoxId, s: State, e: Event)
    requires box in Apply(s, e).db.boxes
  {
    var after := part(Apply(s, e).db.boxes[box]);
    if w(s, e).Some? then after == w(s, e).value else box in s.db.boxes && after == part(s.db.boxes[box])
  }

  lemma LastStays<V(!new)>(w: Writer<V>, es: seq<Event>, i: nat, value: V)
    requires es != [] && LastWrite(w, es[..|es| - 1], i, value)
    requires w(Replay(INIT, es[..|es| - 1]), es[|es| - 1]).None?
    ensures LastWrite(w, es, i, value)
  {
    var front := es[..|es| - 1];
    assert front[..i] == es[..i];
    forall j | i < j < |es| ensures w(Replay(INIT, es[..j]), es[j]).None? {
      if j < |front| { assert front[..j] == es[..j] && front[j] == es[j]; }
    }
  }

  lemma {:induction false} LastWriteWins<V(!new)>(w: Writer<V>, part: Row -> V, es: seq<Event>, box: BoxId)
    requires Covers(w, part, box) && box in Replay(INIT, es).db.boxes
    ensures exists i: nat :: LastWrite(w, es, i, part(Replay(INIT, es).db.boxes[box]))
  {
    if es != [] {
      var front, e := es[..|es| - 1], es[|es| - 1];
      var s, value := Replay(INIT, front), part(Replay(INIT, es).db.boxes[box]);
      assert OneWrite(w, part, box, s, e);
      if w(s, e).Some? {
        assert LastWrite(w, es, |es| - 1, value);
      } else {
        LastWriteWins(w, part, front, box);
        var i: nat :| LastWrite(w, front, i, value);
        LastStays(w, es, i, value);
      }
    }
  }

  // Run r can still write to this mailbox.
  ghost predicate Writes(s: State, r: RunId, box: BoxId) {
    r in s.runs && s.runs[r].box == box && Current(s.db, box, s.runs[r].version)
  }

  predicate Creates(s: State, e: Event, box: BoxId) { e.Create? && box == s.db.nextBox && ServerOk(e.server) }

  // The error code and the time of the last result.
  datatype LastResult = LastResult(code: string, at: Option<int>)

  function ResultOf(row: Row): LastResult { LastResult(row.errorCode, row.lastSync) }

  ghost function ResultWritten(s: State, e: Event, box: BoxId): Option<LastResult> {
    if e.Fail? && Writes(s, e.run, box) && e.code != "configuration_changed" then Some(LastResult(e.code, Some(e.now)))
    else if e.Finish? && Writes(s, e.run, box) && s.runs[e.run].phase == Storing([]) then
      Some(LastResult("", Some(e.now)))
    else if e.Edit? && e.box == box && box in s.db.boxes && FormResets(s.db.boxes[box], e.form) then
      Some(LastResult("", None))
    else if Creates(s, e, box) then Some(LastResult("", None))
    else None
  }

  datatype Cursor = Cursor(validity: Option<nat>, lastUid: Uid)

  function CursorOf(row: Row): Cursor { Cursor(row.validity, row.lastUid) }

  ghost function CursorWritten(s: State, e: Event, box: BoxId): Option<Cursor> {
    if e.Finish? && Writes(s, e.run, box) && s.runs[e.run].phase == Storing([]) then
      Some(Cursor(s.runs[e.run].validity, s.runs[e.run].cursor))
    else if Creates(s, e, box) then Some(Cursor(None, 0))
    else None
  }

  // The end of a run writes both parts or neither, to its own mailbox.
  lemma EndWrites(s: State, e: Event, box: BoxId)
    requires (e.Fail? || e.Finish?) && box in Apply(s, e).db.boxes
    ensures var row, w, c := Apply(s, e).db.boxes[box], ResultWritten(s, e, box), CursorWritten(s, e, box);
            && box in s.db.boxes
            && ResultOf(row) == (if w.Some? then w.value else ResultOf(s.db.boxes[box]))
            && CursorOf(row) == (if c.Some? then c.value else CursorOf(s.db.boxes[box]))
  {
    if e.run in s.runs {
      var run := s.runs[e.run];
      if e.Fail? {
        FailLaw(s.db, run.box, run.version, e.code, e.now);
      } else {
        FinishLaw(s.db, run.box, run.version, run.validity, run.cursor, e.now);
      }
    }
  }

  lemma OtherWrites(s: State, e: Event, box: BoxId)
    requires !e.Fail? && !e.Finish? && box in Apply(s, e).db.boxes
    ensures var row, w, c := Apply(s, e).db.boxes[box], ResultWritten(s, e, box), CursorWritten(s, e, box);
            && (w.Some? ==> ResultOf(row) == w.value) && (c.Some? ==> CursorOf(row) == c.value)
            && (w.None? ==> box in s.db.boxes && ResultOf(row) == ResultOf(s.db.boxes[box]))
            && (c.None? ==> box in s.db.boxes && CursorOf(row) == CursorOf(s.db.boxes[box]))
  {
    if e.Edit? { EditLaw(s.db, e.box, e.form); }
    if e.RotateKeys? { RotateLaw(s.db, e.ciphers); }
    if e.Store? { StoreLeavesRows(s, e); }
  }

  lemma StoreLeavesRows(s: State, e: Event)
    requires e.Store?
    ensures Apply(s, e).db.boxes == s.db.boxes
  {
  }

  /** In every run the error code and the time on a mailbox are what the last event wrote that wrote
      them: a failure that could be recorded leaves its code and its time, a final update clears the
      code and leaves its time, a resetting edit and the creation clear both. */
  lemma {:induction false} LastResultWins(es: seq<Event>, box: BoxId)
    requires box in Replay(INIT, es).db.boxes
    ensures var w := (s: State, e: Event) => ResultWritten(s, e, box);
            exists i: nat :: LastWrite(w, es, i, ResultOf(Replay(INIT, es).db.boxes[box]))
  {
    var w: Writer<LastResult> := (s: State, e: Event) => ResultWritten(s, e, box);
    forall s, e | box in Apply(s, e).db.boxes ensures OneWrite(w, ResultOf, box, s, e) {
      if e.Fail? || e.Finish? { EndWrites(s, e, box); } else { OtherWrites(s, e, box); }
    }
    LastWriteWins(w, ResultOf, es, box);
  }

  /** And a persisted cursor is the one of the last final update that took effect, or of the creation:
      no failure, edit or rotation touches it. */
  lemma {:induction false} LastCursorWins(es: seq<Event>, box: BoxId)
    requires box in Replay(INIT, es).db.boxes
    ensures var w := (s: State, e: Event) => CursorWritten(s, e, box);
            exists i: nat :: LastWrite(w, es, i, CursorOf(Replay(INIT, es).db.boxes[box]))
  {
    var w: Writer<Cursor> := (s: State, e: Event) => CursorWritten(s, e, box);
    forall s, e | box in Apply(s, e).db.boxes ensures OneWrite(w, CursorOf, box, s, e) {
      if e.Fail? || e.Finish? { EndWrites(s, e, box); } else { OtherWrites(s, e, box); }
    }
    LastWriteWins(w, CursorOf, es, box);
  }

  // ---------- Where a message comes from ----------

  // The event that inserted message id, with what it asked for.
  ghost predicate Inserts(s: State, e: Event, id: MsgId) {
    && e.Store? && id == s.db.nextMsg && e.run in s.runs
    && var run := s.runs[e.run];
       && run.phase.Storing? && run.phase.todo != [] && run.validity.Some? && Current(s.db, run.box, run.version)
       && !HasKey(s.db.messages, Key(run.box, run.validity.value, run.phase.todo[0]))
  }

  // What the database has of an insert, whatever state the worker asked for.
  ghost predicate IsInsertOf(m: Message, s: State, e: Event)
    requires Inserts(s, e, s.db.nextMsg)
  {
    var run := s.runs[e.run];
    && m.key == Key(run.box, run.validity.value, run.phase.todo[0]) && m.content == e.content
    && (m.risk == High <==> e.risk == High) && (m.risk == Medium <==> e.risk != High)
  }

  ghost predicate ComesFrom(es: seq<Event>, id: MsgId, m: Message, i: nat) {
    i < |es| && Inserts(Replay(INIT, es[..i]), es[i], id) && IsInsertOf(m, Replay(INIT, es[..i]), es[i])
  }

  lemma StoreInserts(s: State, e: Event, id: MsgId)
    requires e.Store? && id in Apply(s, e).db.messages
    ensures var m := Apply(s, e).db.messages[id];
            if Inserts(s, e, id) then IsInsertOf(m, s, e) && m.state == Quarantined
            else id in s.db.messages && m == s.db.messages[id]
  {
  }

  lemma OthersInsertNothing(s: State, e: Event, id: MsgId)
    requires !e.Store? && id in Apply(s, e).db.messages
    ensures id in s.db.messages
    ensures var m, was := Apply(s, e).db.messages[id], s.db.messages[id];
            m.key == was.key && m.content == was.content && m.risk == was.risk
  {
    if e.Decide? { DecideLaw(s.db, e.msg, e.approve); }
    if e.Delete? { DeleteLaw(s.db, e.box); }
    if e.Purge? { PurgeLaw(s.db, e.msgs); }
  }

  /** In every run each message has the key and the content of the event that inserted it, and its risk:
      high if and only if the worker asked for high, and medium otherwise. */
  lemma {:induction false} MessageComesFrom(es: seq<Event>, id: MsgId)
    requires id in Replay(INIT, es).db.messages
    ensures exists i: nat :: ComesFrom(es, id, Replay(INIT, es).db.messages[id], i)
  {
    if es != [] {
      var front, e := es[..|es| - 1], es[|es| - 1];
      var s, m := Replay(INIT, front), Replay(INIT, es).db.messages[id];
      if e.Store? { StoreInserts(s, e, id); } else { OthersInsertNothing(s, e, id); }
      if Inserts(s, e, id) {
        assert ComesFrom(es, id, m, |es| - 1);
      } else {
        MessageComesFrom(front, id);
        var i: nat :| ComesFrom(front, id, s.db.messages[id], i);
        assert front[..i] == es[..i];
        assert ComesFrom(es, id, m, i);
      }
    }
  }
}
