/**
 Messages over whole runs: what the API view shows was approved by the owner last and still
 has the content ingestion wrote; and without deletions every UID is ingested once.
 */
module MessageHistory {
  import opened MailboxModel

  // The state the owner's decisions on one message leave it in.
  function LatestState(log: seq<Entry>, id: MsgId): MsgState {
    if log == [] then Quarantined
    else
      var e := log[|log| - 1];
      if e.Decided? && e.msg == id then (if e.approved then Approved else Rejected)
      else LatestState(log[..|log| - 1], id)
  }

  // The rows of mailgate_api_approved_message.
  function ApprovedView(db: Db): set<MsgId> {
    set id | id in db.messages && db.messages[id].state.Approved?
  }

  ghost predicate MessageOk(db: Db, id: MsgId)
    requires id in db.messages
  {
    var m := db.messages[id];
    && id < db.nextMsg
    && Ingested(id, m.key, m.content) in db.log
    && m.state == LatestState(db.log, id)
    && !m.risk.Low?
    && id in db.attachments && db.attachments[id] == m.content.attachments
  }

  ghost predicate LogOk(log: seq<Entry>, next: MsgId) {
    && (forall i :: 0 <= i < |log| ==> log[i].msg < next)
    && (forall i, j :: 0 <= i < j < |log| && log[i].Ingested? && log[j].Ingested? ==> log[i].msg != log[j].msg)
  }

  ghost predicate UniqueKeys(messages: map<MsgId, Message>) {
    forall a, b :: a in messages && b in messages && messages[a].key == messages[b].key ==> a == b
  }

  ghost predicate Inv(db: Db) {
    && (forall id :: id in db.messages ==> MessageOk(db, id))
    && db.attachments.Keys == db.messages.Keys
    && UniqueKeys(db.messages)
    && LogOk(db.log, db.nextMsg)
  }

  lemma LatestOfFresh(log: seq<Entry>, id: MsgId)
    requires forall i :: 0 <= i < |log| ==> log[i].msg < id
    ensures LatestState(log, id) == Quarantined
  {
  }

  // A new log entry about another message leaves this one's facts alone.
  lemma OtherEntry(db: Db, t: Db, id: MsgId, e: Entry)
    requires id in db.messages && MessageOk(db, id) && e.msg != id
    requires t.log == db.log + [e] && db.nextMsg <= t.nextMsg
    requires id in t.messages && t.messages[id] == db.messages[id]
    requires id in t.attachments && t.attachments[id] == db.attachments[id]
    ensures MessageOk(t, id)
  {
    assert t.log[..|db.log|] == db.log;
  }

  lemma NextIsFree(db: Db)
    requires Inv(db)
    ensures db.nextMsg !in db.messages && db.nextMsg !in db.attachments
  {
    forall id | id in db.messages ensures id < db.nextMsg { assert MessageOk(db, id); }
  }

  // The state after one more quarantined row with its attachments and its log entry.
  ghost predicate Extends(db: Db, t: Db, m: Message) {
    && m.state.Quarantined? && !m.risk.Low?
    && t.messages == db.messages[db.nextMsg := m]
    && t.attachments == db.attachments[db.nextMsg := m.content.attachments]
    && t.log == db.log + [Ingested(db.nextMsg, m.key, m.content)] && t.nextMsg == db.nextMsg + 1
  }

  lemma ExtendedOk(db: Db, t: Db, m: Message)
    requires LogOk(db.log, db.nextMsg) && Extends(db, t, m)
    ensures MessageOk(t, db.nextMsg)
  {
    assert t.log[..|db.log|] == db.log && t.log[|db.log|] == Ingested(db.nextMsg, m.key, m.content);
    LatestOfFresh(db.log, db.nextMsg);
  }

  lemma ExtendsKeepsInv(db: Db, t: Db, m: Message)
    requires Inv(db) && !HasKey(db.messages, m.key) && Extends(db, t, m)
    ensures Inv(t)
  {
    NextIsFree(db);
    ExtendedOk(db, t, m);
    forall id | id in t.messages ensures MessageOk(t, id) {
      if id != db.nextMsg { OtherEntry(db, t, id, Ingested(db.nextMsg, m.key, m.content)); }
    }
    NewKeyUnique(db.messages, db.nextMsg, m);
    NewEntryLogOk(db.log, db.nextMsg, Ingested(db.nextMsg, m.key, m.content));
  }

  lemma InsertKeepsInv(db: Db, m: Message)
    requires Inv(db) && !HasKey(db.messages, m.key)
    ensures Inv(InsertMessage(db, m))
  {
    NextIsFree(db);
    assert [] + m.content.attachments == m.content.attachments;
    ExtendsKeepsInv(db, InsertMessage(db, m), ForceQuarantine(m));
  }

  lemma NewKeyUnique(messages: map<MsgId, Message>, id: MsgId, m: Message)
    requires UniqueKeys(messages) && !HasKey(messages, m.key)
    ensures UniqueKeys(messages[id := m])
  {
  }

  lemma NewEntryLogOk(log: seq<Entry>, next: MsgId, e: Entry)
    requires LogOk(log, next) && e.msg == next
    ensures LogOk(log + [e], next + 1)
  {
  }

  // The state after one decision: this message's state, and one more entry.
  ghost predicate Decides(db: Db, t: Db, msg: MsgId, approve: bool)
    requires msg in db.messages
  {
    && t.messages == db.messages[msg := db.messages[msg].(state := if approve then Approved else Rejected)]
    && t.attachments == db.attachments && t.nextMsg == db.nextMsg && t.log == db.log + [Decided(msg, approve)]
  }

  lemma DecidedOk(db: Db, t: Db, msg: MsgId, approve: bool)
    requires msg in db.messages && MessageOk(db, msg) && Decides(db, t, msg, approve)
    ensures MessageOk(t, msg)
  {
    assert t.log[..|db.log|] == db.log;
    assert forall e :: e in db.log ==> e in t.log;
  }

  lemma DecidesKeepsInv(db: Db, t: Db, msg: MsgId, approve: bool)
    requires Inv(db) && msg in db.messages && Decides(db, t, msg, approve)
    ensures Inv(t)
  {
    assert MessageOk(db, msg);
    DecidedOk(db, t, msg, approve);
    forall id | id in t.messages ensures MessageOk(t, id) {
      if id != msg { OtherEntry(db, t, id, Decided(msg, approve)); }
    }
    SameKeys(db.messages, t.messages);
    DecisionLogOk(db.log, db.nextMsg, Decided(msg, approve));
  }

  lemma DecideKeepsInv(db: Db, msg: MsgId, approve: bool)
    requires Inv(db) && msg in db.messages
    ensures var t := DecideTx(db, msg, approve);
            && Inv(t) && t.messages.Keys == db.messages.Keys && t.attachments == db.attachments
            && (forall id :: id in db.messages && id != msg ==> t.messages[id] == db.messages[id])
            && t.messages[msg] == db.messages[msg].(state := if approve then Approved else Rejected)
  {
    DecidesKeepsInv(db, DecideTx(db, msg, approve), msg, approve);
  }

  lemma SameKeys(before: map<MsgId, Message>, after: map<MsgId, Message>)
    requires UniqueKeys(before) && after.Keys == before.Keys
    requires forall id :: id in after ==> after[id].key == before[id].key
    ensures UniqueKeys(after)
  {
  }

  lemma DecisionLogOk(log: seq<Entry>, next: MsgId, e: Entry)
    requires LogOk(log, next) && e.Decided? && e.msg < next
    ensures LogOk(log + [e], next)
  {
  }

  lemma RemovalKeepsInv(db: Db, t: Db, gone: set<MsgId>)
    requires Inv(db)
    requires t.messages == db.messages - gone && t.attachments == db.attachments - gone
    requires t.log == db.log && t.nextMsg == db.nextMsg
    ensures Inv(t)
  {
    forall id | id in t.messages ensures MessageOk(t, id) { assert MessageOk(db, id); }
  }

  lemma StoreKeepsInv(s: State, e: Event)
    requires Inv(s.db) && e.Store?
    ensures Inv(Apply(s, e).db)
  {
    if e.run in s.runs && Apply(s, e).db != s.db {
      var run := s.runs[e.run];
      InsertKeepsInv(s.db, Message(Key(run.box, run.validity.value, run.phase.todo[0]), e.content, e.state, e.risk));
    }
  }

  // Events that leave every message, attachment and log entry alone.
  predicate Apart(e: Event) { !(e.Decide? || e.Purge? || e.Delete? || e.Store?) }

  lemma ApartChangesNoMessage(s: State, e: Event)
    requires Apart(e)
    ensures var t := Apply(s, e).db;
            && t.messages == s.db.messages && t.attachments == s.db.attachments
            && t.log == s.db.log && t.nextMsg == s.db.nextMsg
  {
  }

  lemma ApartKeepsInv(s: State, e: Event)
    requires Inv(s.db) && Apart(e)
    ensures Inv(Apply(s, e).db)
  {
    ApartChangesNoMessage(s, e);
    RemovalKeepsInv(s.db, Apply(s, e).db, {});
  }

  lemma DeletionKeepsInv(db: Db, box: BoxId, msgs: set<MsgId>)
    requires Inv(db)
    ensures Inv(DeleteTx(db, box)) && Inv(PurgeTx(db, msgs))
  {
    RemovalKeepsInv(db, DeleteTx(db, box), set id | id in db.messages && db.messages[id].key.box == box);
    RemovalKeepsInv(db, PurgeTx(db, msgs), msgs);
  }

  lemma Step(s: State, e: Event)
    requires Inv(s.db)
    ensures Inv(Apply(s, e).db)
  {
    if e.Store? {
      StoreKeepsInv(s, e);
    } else if e.Decide? {
      if e.msg in s.db.messages { DecideKeepsInv(s.db, e.msg, e.approve); }
    } else if e.Purge? {
      DeletionKeepsInv(s.db, 0, e.msgs);
    } else if e.Delete? {
      DeletionKeepsInv(s.db, e.box, {});
    } else {
      ApartKeepsInv(s, e);
    }
  }

  lemma {:induction false} InvHolds(es: seq<Event>)
    ensures Inv(Replay(INIT, es).db)
  {
    if es != [] {
      InvHolds(es[..|es| - 1]);
      Step(Replay(INIT, es[..|es| - 1]), es[|es| - 1]);
    }
  }

  lemma {:induction false} LatestApproval(log: seq<Entry>, id: MsgId) returns (i: nat)
    requires LatestState(log, id) == Approved
    ensures i < |log| && log[i] == Decided(id, true)
    ensures forall j :: i < j < |log| ==> !(log[j].Decided? && log[j].msg == id)
  {
    var e := log[|log| - 1];
    if e.Decided? && e.msg == id {
      i := |log| - 1;
    } else {
      i := LatestApproval(log[..|log| - 1], id);
    }
  }

  /** Whatever the worker asked to insert and however steps interleave, a message in the API
      view was approved by the owner's latest decision on it, does not carry low risk, and shows
      the content of its one ingestion. */
  lemma {:induction false} OnlyApprovedIsShown(es: seq<Event>, id: MsgId)
    requires id in ApprovedView(Replay(INIT, es).db)
    ensures var db := Replay(INIT, es).db;
            && (exists i :: 0 <= i < |db.log| && db.log[i] == Decided(id, true)
                  && forall j :: i < j < |db.log| ==> !(db.log[j].Decided? && db.log[j].msg == id))
            && !db.messages[id].risk.Low?
            && (exists i :: 0 <= i < |db.log|
                  && db.log[i] == Ingested(id, db.messages[id].key, db.messages[id].content)
                  && forall j :: 0 <= j < |db.log| && db.log[j].Ingested? && db.log[j].msg == id ==> j == i)
  {
    InvHolds(es);
    var db := Replay(INIT, es).db;
    assert MessageOk(db, id);
    var d := LatestApproval(db.log, id);
    var i :| 0 <= i < |db.log| && db.log[i] == Ingested(id, db.messages[id].key, db.messages[id].content);
  }

  predicate Deletes(e: Event) { e.Purge? || e.Delete? }

  ghost predicate NothingDeleted(es: seq<Event>) { forall i :: 0 <= i < |es| ==> !Deletes(es[i]) }

  ghost predicate AllKept(db: Db) {
    forall i :: 0 <= i < |db.log| && db.log[i].Ingested? ==>
      db.log[i].msg in db.messages && db.messages[db.log[i].msg].key == db.log[i].key
  }

  lemma InsertKeepsAll(db: Db, m: Message)
    requires AllKept(db) && db.nextMsg !in db.messages
    ensures AllKept(InsertMessage(db, m))
  {
    var t := InsertMessage(db, m);
    forall i | 0 <= i < |t.log| && t.log[i].Ingested?
      ensures t.log[i].msg in t.messages && t.messages[t.log[i].msg].key == t.log[i].key
    {
      if i < |db.log| { assert t.log[i] == db.log[i]; }
    }
  }

  lemma DecideKeepsAll(db: Db, msg: MsgId, approve: bool)
    requires AllKept(db)
    ensures AllKept(DecideTx(db, msg, approve))
  {
    var t := DecideTx(db, msg, approve);
    forall i | 0 <= i < |t.log| && t.log[i].Ingested?
      ensures t.log[i].msg in t.messages && t.messages[t.log[i].msg].key == t.log[i].key
    {
      assert t.log[i] == db.log[i];
    }
  }

  lemma KeepStep(s: State, e: Event)
    requires Inv(s.db) && AllKept(s.db) && !Deletes(e)
    ensures AllKept(Apply(s, e).db)
  {
    if Apart(e) {
      ApartChangesNoMessage(s, e);
    } else if e.Decide? {
      DecideKeepsAll(s.db, e.msg, e.approve);
    } else if e.run in s.runs && Apply(s, e).db != s.db {
      var run := s.runs[e.run];
      NextIsFree(s.db);
      InsertKeepsAll(s.db, Message(Key(run.box, run.validity.value, run.phase.todo[0]), e.content, e.state, e.risk));
    }
  }

  lemma {:induction false} AllKeptHolds(es: seq<Event>)
    requires NothingDeleted(es)
    ensures AllKept(Replay(INIT, es).db)
  {
    if es != [] {
      InvHolds(es[..|es| - 1]);
      AllKeptHolds(es[..|es| - 1]);
      KeepStep(Replay(INIT, es[..|es| - 1]), es[|es| - 1]);
    }
  }

  /** With no purge and no mailbox deletion, over any sequence of failed, repeated and successful
      runs: one ingestion event per (mailbox, UIDVALIDITY, UID), one message for it with one set
      of attachments, and none for any other. */
  lemma {:induction false} ExactlyOnce(es: seq<Event>)
    requires NothingDeleted(es)
    ensures var db := Replay(INIT, es).db;
            && (forall i, j :: 0 <= i < j < |db.log| && db.log[i].Ingested? && db.log[j].Ingested? ==>
                  db.log[i].key != db.log[j].key)
            && (forall a, b :: a in db.messages && b in db.messages && db.messages[a].key == db.messages[b].key ==>
                  a == b)
            && (forall id :: id in db.messages ==> Ingested(id, db.messages[id].key, db.messages[id].content) in db.log)
            && (forall id :: id in db.messages ==>
                  id in db.attachments && db.attachments[id] == db.messages[id].content.attachments)
            && (forall i :: 0 <= i < |db.log| && db.log[i].Ingested? ==> HasKey(db.messages, db.log[i].key))
  {
    InvHolds(es);
    AllKeptHolds(es);
    var db := Replay(INIT, es).db;
    assert forall id :: id in db.messages ==> MessageOk(db, id);
  }

  // ---------- What one run adds ----------

  // This event is a step of the run that adds a row, and with it an entry to the history.
  predicate AddsRow(s: State, e: Event, r: RunId) {
    e.Store? && e.run == r && |s.db.log| < |Apply(s, e).db.log|
  }

  // The rows a run has added along a trace, whatever the others did in between.
  function Inserted(es: seq<Event>, r: RunId): nat {
    if es == [] then 0
    else
      var front, last := es[..|es| - 1], es[|es| - 1];
      Inserted(front, r) + (if AddsRow(Replay(INIT, front), last, r) then 1 else 0)
  }

  lemma CreatedStep(s: State, e: Event, r: RunId)
    requires forall q :: q in s.runs ==> q < s.nextRun
    ensures var t := Apply(s, e);
            && (r in t.runs && r in s.runs ==>
                  t.runs[r].created == s.runs[r].created + (if AddsRow(s, e, r) then 1 else 0))
            && (r in t.runs && r !in s.runs ==> r == s.nextRun && t.runs[r].created == 0)
            && (AddsRow(s, e, r) ==> r in s.runs)
            && s.nextRun <= t.nextRun && (r in t.runs ==> r < t.nextRun)
  {
  }

  /** A run's counter is the number of rows it has added itself, under any interference. */
  lemma {:induction false} CreatedIsInserted(es: seq<Event>, r: RunId)
    ensures var s := Replay(INIT, es);
            && (forall q :: q in s.runs ==> q < s.nextRun)
            && (r in s.runs ==> s.runs[r].created == Inserted(es, r))
            && (s.nextRun <= r ==> Inserted(es, r) == 0)
  {
    if es != [] {
      var front, last := es[..|es| - 1], es[|es| - 1];
      CreatedIsInserted(front, r);
      var s := Replay(INIT, front);
      CreatedStep(s, last, r);
      forall q | q in Apply(s, last).runs ensures q < Apply(s, last).nextRun { CreatedStep(s, last, q); }
    }
  }
}
