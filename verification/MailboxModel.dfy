/**
 The database rows, the IMAP server and the worker runs that mailbox ingestion is made
 of, as one state machine. Each event is one database transaction, one answer of the
 mail server or one owner action; events of any number of runs interleave freely.
 An event that is not enabled leaves the state alone, so every sequence of events is a run.
 */
module MailboxModel {
  import opened Wrappers

  type BoxId = nat
  type RunId = nat
  type MsgId = nat
  type Uid = nat

  // The eight columns watched by the configuration-version trigger.
  datatype Config = Config(
    providerKey: string, presetVersion: nat, host: string, port: nat, username: string,
    passwordEncrypted: string, trustedIds: string, enabled: bool)

  datatype Row = Row(
    config: Config, name: string, version: nat,
    validity: Option<nat>, lastUid: Uid, lastSync: Option<int>, errorCode: string)

  datatype MsgState = Quarantined | Approved | Rejected
  datatype Risk = Low | Medium | High
  datatype Key = Key(box: BoxId, validity: nat, uid: Uid)
  datatype Content = Content(text: string, attachments: seq<string>)
  datatype Message = Message(key: Key, content: Content, state: MsgState, risk: Risk)

  // What parsing and assessment make of one fetched message.
  datatype Mail = Mail(content: Content, state: MsgState, risk: Risk)

  // What happened to messages, in commit order. Nothing reads it: it is the history the
  // properties talk about.
  datatype Entry =
    | Ingested(msg: MsgId, key: Key, content: Content)
    | Decided(msg: MsgId, approved: bool)

  datatype Db = Db(
    boxes: map<BoxId, Row>, messages: map<MsgId, Message>, attachments: map<MsgId, seq<string>>,
    log: seq<Entry>, nextBox: BoxId, nextMsg: MsgId)

  // One IMAP inbox: its UIDVALIDITY, the next UID it will assign, the UIDs still there.
  datatype Server = Server(validity: nat, next: Uid, present: set<Uid>)

  datatype Phase = Opened | Selected | Storing(todo: seq<Uid>)

  // The local variables of one worker run: the captured version, and the captured mailbox
  // object whose uid_validity and last_uid it moves in memory.
  datatype WorkerRun = WorkerRun(
    box: BoxId, version: nat, validity: Option<nat>, cursor: Uid, phase: Phase, created: nat)

  datatype State = State(
    db: Db, servers: map<BoxId, Server>, runs: map<RunId, WorkerRun>, nextRun: RunId)

  // What the owner's edit form can change: the four identity fields are disabled on it.
  datatype EditForm = EditForm(
    name: string, password: Option<string>, presetVersion: nat, trustedIds: string, enabled: bool)

  datatype Event =
    | Create(config: Config, name: string, server: Server)
    | Edit(box: BoxId, form: EditForm)
    | RotateKeys(ciphers: map<BoxId, string>)
    | Delete(box: BoxId)
    | Decide(msg: MsgId, approve: bool)
    | Purge(msgs: set<MsgId>)
    | Deliver(box: BoxId, uid: Uid)
    | Expunge(box: BoxId, uid: Uid)
    | ResetValidity(box: BoxId, validity: nat)
    | Begin(box: BoxId)
    | Select(run: RunId)
    | Search(run: RunId, answer: seq<Uid>, batch: nat)
    | Store(run: RunId, content: Content, state: MsgState, risk: Risk)
    | Finish(run: RunId, now: int)
    | Fail(run: RunId, code: string, now: int)
    | Crash(run: RunId)

  function Max(a: nat, b: nat): nat { if a < b then b else a }

  // ---------- Database transactions ----------

  // The BEFORE UPDATE trigger: whatever version the statement asks for is overwritten.
  function Updated(was: Row, want: Row): Row {
    want.(version := if want.config != was.config then was.version + 1 else was.version)
  }

  // The WHERE clause every worker statement carries.
  predicate Current(db: Db, box: BoxId, version: nat) {
    box in db.boxes && db.boxes[box].config.enabled && db.boxes[box].version == version
  }

  predicate HasKey(messages: map<MsgId, Message>, key: Key) {
    exists id :: id in messages && messages[id].key == key
  }

  // The BEFORE INSERT trigger on rows the worker role inserts.
  function ForceQuarantine(m: Message): Message {
    m.(state := Quarantined, risk := if m.risk.High? then High else Medium)
  }

  function InsertMessage(db: Db, m: Message): Db {
    db.(messages := db.messages[db.nextMsg := ForceQuarantine(m)],
        attachments := db.attachments[db.nextMsg :=
          (if db.nextMsg in db.attachments then db.attachments[db.nextMsg] else []) + m.content.attachments],
        log := db.log + [Ingested(db.nextMsg, m.key, m.content)],
        nextMsg := db.nextMsg + 1)
  }

  // None: the configuration changed. Some(created): the message is there now.
  function StoreTx(db: Db, version: nat, m: Message): (Db, Option<bool>) {
    if !Current(db, m.key.box, version) then (db, None)
    else if HasKey(db.messages, m.key) then (db, Some(false))
    else (InsertMessage(db, m), Some(true))
  }

  function FinishTx(db: Db, box: BoxId, version: nat, validity: Option<nat>, lastUid: Uid, now: int): (Db, bool) {
    if !Current(db, box, version) then (db, false)
    else
      var row := db.boxes[box];
      (db.(boxes := db.boxes[box := Updated(row,
        row.(validity := validity, lastUid := lastUid, lastSync := Some(now), errorCode := ""))]), true)
  }

  function FailTx(db: Db, box: BoxId, version: nat, code: string, now: int): Db {
    if code == "configuration_changed" || !Current(db, box, version) then db
    else
      var row := db.boxes[box];
      db.(boxes := db.boxes[box := Updated(row, row.(errorCode := code, lastSync := Some(now)))])
  }

  function EditTx(db: Db, box: BoxId, form: EditForm): Db {
    if box !in db.boxes then db
    else
      var row := db.boxes[box];
      var config := row.config.(
        presetVersion := form.presetVersion, trustedIds := form.trustedIds, enabled := form.enabled,
        passwordEncrypted := if form.password.Some? then form.password.value else row.config.passwordEncrypted);
      var want := row.(config := config, name := form.name);
      var reset := form.password.Some? || (!row.config.enabled && form.enabled);
      db.(boxes := db.boxes[box :=
        Updated(row, if reset then want.(lastSync := None, errorCode := "") else want)])
  }

  // One transaction over all rows; each changed row also asks for version + 1 itself.
  function RotateTx(db: Db, ciphers: map<BoxId, string>): Db {
    db.(boxes := map b | b in db.boxes ::
      if b in ciphers && ciphers[b] != db.boxes[b].config.passwordEncrypted
      then Updated(db.boxes[b], db.boxes[b].(
        config := db.boxes[b].config.(passwordEncrypted := ciphers[b]),
        version := db.boxes[b].version + 1))
      else db.boxes[b])
  }

  function DeleteTx(db: Db, box: BoxId): Db {
    var gone := set id | id in db.messages && db.messages[id].key.box == box;
    db.(boxes := db.boxes - {box}, messages := db.messages - gone, attachments := db.attachments - gone)
  }

  function DecideTx(db: Db, msg: MsgId, approve: bool): Db {
    if msg !in db.messages then db
    else db.(messages := db.messages[msg :=
               db.messages[msg].(state := if approve then Approved else Rejected)],
             log := db.log + [Decided(msg, approve)])
  }

  function PurgeTx(db: Db, msgs: set<MsgId>): Db {
    db.(messages := db.messages - msgs, attachments := db.attachments - msgs)
  }

  // ---------- The mail server's answers ----------

  // UID SEARCH UID from:* names the UIDs from `from` up, and always the last one
  // (section 6.4.8 of RFC 3501), in no promised order (section 7.2.5).
  predicate AnswersSearch(present: set<Uid>, from: Uid, answer: seq<Uid>) {
    && (forall u :: u in answer ==> u in present && (from <= u || IsLast(present, u)))
    && (forall u :: u in present && (from <= u || IsLast(present, u)) ==> u in answer)
  }

  predicate IsLast(present: set<Uid>, u: Uid) { forall w :: w in present ==> w <= u }

  predicate Ascending(uids: seq<Uid>) {
    forall i, j :: 0 <= i < j < |uids| ==> uids[i] < uids[j]
  }

  function Above(answer: seq<Uid>, cursor: Uid): (r: seq<Uid>)
    ensures forall u :: u in r <==> u in answer && cursor < u
    ensures Ascending(answer) ==> Ascending(r)
  {
    if answer == [] then []
    else
      var rest := Above(answer[1..], cursor);
      assert answer == [answer[0]] + answer[1..];
      assert forall j :: 0 <= j < |rest| ==> rest[j] in rest;
      if cursor < answer[0] then [answer[0]] + rest else rest
  }

  function Take(uids: seq<Uid>, n: nat): seq<Uid> {
    if n < |uids| then uids[..n] else uids
  }

  // ---------- The state machine ----------

  function Drop(s: State, r: RunId): State { s.(runs := s.runs - {r}) }

  function ApplyRun(s: State, e: Event): State
    requires e.Select? || e.Search? || e.Store? || e.Finish? || e.Fail? || e.Crash?
    requires e.run in s.runs
  {
    var r := e.run;
    var run := s.runs[r];
    match e
    case Select(_) =>
      if !run.phase.Opened? || run.box !in s.servers then s
      else
        var v := s.servers[run.box].validity;
        s.(runs := s.runs[r :=
          if run.validity == Some(v) then run.(phase := Selected)
          else run.(validity := Some(v), cursor := 0, phase := Selected)])
    case Search(_, answer, batch) =>
      if !run.phase.Selected? || run.box !in s.servers || run.validity != Some(s.servers[run.box].validity)
         || !AnswersSearch(s.servers[run.box].present, run.cursor + 1, answer) then s
      else s.(runs := s.runs[r := run.(phase := Storing(Take(Above(answer, run.cursor), batch)))])
    case Store(_, content, state, risk) =>
      if !run.phase.Storing? || run.phase.todo == [] || run.validity.None? then s
      else
        var uid := run.phase.todo[0];
        var key := Key(run.box, run.validity.value, uid);
        var (db, stored) := StoreTx(s.db, run.version, Message(key, content, state, risk));
        if stored.None? then Drop(s, r)
        else s.(db := db, runs := s.runs[r := run.(
          cursor := Max(run.cursor, uid), phase := Storing(run.phase.todo[1..]),
          created := run.created + if stored.value then 1 else 0)])
    case Finish(_, now) =>
      if !run.phase.Storing? || run.phase.todo != [] then s
      else Drop(s.(db := FinishTx(s.db, run.box, run.version, run.validity, run.cursor, now).0), r)
    case Fail(_, code, now) =>
      Drop(s.(db := FailTx(s.db, run.box, run.version, code, now)), r)
    case Crash(_) => Drop(s, r)
  }

  predicate OfRun(e: Event, r: RunId) {
    (e.Select? || e.Search? || e.Store? || e.Finish? || e.Fail? || e.Crash?) && e.run == r
  }

  predicate ServerOk(sv: Server) {
    0 < sv.next && forall u :: u in sv.present ==> 0 < u < sv.next
  }

  function Apply(s: State, e: Event): State {
    match e
    case Create(config, name, server) =>
      if !ServerOk(server) then s
      else s.(db := s.db.(boxes := s.db.boxes[s.db.nextBox := Row(config, name, 1, None, 0, None, "")],
                          nextBox := s.db.nextBox + 1),
              servers := s.servers[s.db.nextBox := server])
    case Edit(box, form) => s.(db := EditTx(s.db, box, form))
    case RotateKeys(ciphers) => s.(db := RotateTx(s.db, ciphers))
    case Delete(box) => s.(db := DeleteTx(s.db, box))
    case Decide(msg, approve) => s.(db := DecideTx(s.db, msg, approve))
    case Purge(msgs) => s.(db := PurgeTx(s.db, msgs))
    case Deliver(box, uid) =>
      if box !in s.servers || uid < s.servers[box].next then s
      else
        var sv := s.servers[box];
        s.(servers := s.servers[box := sv.(next := uid + 1, present := sv.present + {uid})])
    case Expunge(box, uid) =>
      if box !in s.servers then s
      else s.(servers := s.servers[box := s.servers[box].(present := s.servers[box].present - {uid})])
    case ResetValidity(box, validity) =>
      // Section 2.3.1.1 of RFC 3501: a new UIDVALIDITY is greater than the last one.
      if box !in s.servers || validity <= s.servers[box].validity then s
      else s.(servers := s.servers[box := Server(validity, 1, {})])
    case Begin(box) =>
      if box !in s.db.boxes || !s.db.boxes[box].config.enabled then s
      else
        var row := s.db.boxes[box];
        s.(runs := s.runs[s.nextRun := WorkerRun(box, row.version, row.validity, row.lastUid, Opened, 0)],
           nextRun := s.nextRun + 1)
    case _ => if e.run in s.runs then ApplyRun(s, e) else s
  }

  function Replay(s: State, es: seq<Event>): State {
    if es == [] then s else Apply(Replay(s, es[..|es| - 1]), es[|es| - 1])
  }

  const INIT := State(Db(map[], map[], map[], [], 0, 0), map[], map[], 0)

  lemma {:induction false} ReplayAppend(s: State, a: seq<Event>, b: seq<Event>)
    ensures Replay(s, a + b) == Replay(Replay(s, a), b)
  {
    if b == [] {
      assert a + b == a;
    } else {
      ReplayAppend(s, a, b[..|b| - 1]);
      assert (a + b)[..|a + b| - 1] == a + b[..|b| - 1];
    }
  }
}
