/**
 Whether a message that retention has deleted is ever imported again. It is not, provided runs
 over one mailbox do not overlap and retention deletes only messages the committed cursor has
 passed; without either, it can be.
 */
module Reimport {
  import opened Wrappers
  import opened MailboxModel

  // The committed cursor has passed this UID, or its UIDVALIDITY is history.
  predicate Past(row: Row, key: Key) {
    && row.validity.Some?
    && (key.validity < row.validity.value || (key.validity == row.validity.value && key.uid <= row.lastUid))
  }

  // Nothing will store this key again.
  ghost predicate Covered(db: Db, key: Key) {
    && key.box < db.nextBox
    && (HasKey(db.messages, key) || key.box !in db.boxes || Past(db.boxes[key.box], key))
  }

  // The run's cursor is at or beyond its mailbox's, and what it has to store is beyond that.
  ghost predicate Ahead(row: Row, run: WorkerRun) {
    row.validity.Some? ==>
      && run.validity.Some? && row.validity.value <= run.validity.value
      && (row.validity == run.validity ==>
            && row.lastUid <= run.cursor
            && (run.phase.Storing? ==> forall u :: u in run.phase.todo ==> row.lastUid < u))
  }

  ghost predicate Epoch(s: State, box: BoxId, validity: Option<nat>) {
    box in s.servers && box < s.db.nextBox && (validity.Some? ==> validity.value <= s.servers[box].validity)
  }

  ghost predicate RunOk(s: State, run: WorkerRun) {
    && Epoch(s, run.box, run.validity)
    && (run.box in s.db.boxes ==> Ahead(s.db.boxes[run.box], run))
  }

  ghost predicate OneRunEach(runs: map<RunId, WorkerRun>) {
    forall a, b :: a in runs && b in runs && runs[a].box == runs[b].box ==> a == b
  }

  ghost predicate LogCovered(db: Db) {
    && (forall i :: 0 <= i < |db.log| && db.log[i].Ingested? ==> Covered(db, db.log[i].key))
    && (forall id :: id in db.messages ==> id < db.nextMsg)
  }

  /** No key occurs twice in the ingestion history. */
  ghost predicate NoRepeat(log: seq<Entry>) {
    forall i, j :: 0 <= i < j < |log| && log[i].Ingested? && log[j].Ingested? ==> log[i].key != log[j].key
  }

  ghost predicate Inv(s: State) {
    && (forall b :: b in s.servers ==> b < s.db.nextBox)
    && (forall b :: b in s.db.boxes ==> Epoch(s, b, s.db.boxes[b].validity))
    && (forall r :: r in s.runs ==> r < s.nextRun && RunOk(s, s.runs[r]))
    && OneRunEach(s.runs) && LogCovered(s.db) && NoRepeat(s.db.log)
  }

  // Serial: no run starts on a mailbox that has one. Past: retention deletes only what is past.
  ghost predicate Obeys(s: State, e: Event, serial: bool, past: bool) {
    && (serial && e.Begin? ==> forall r :: r in s.runs ==> s.runs[r].box != e.box)
    && (past && e.Purge? ==>
          forall id :: id in e.msgs && id in s.db.messages && s.db.messages[id].key.box in s.db.boxes ==>
            Past(s.db.boxes[s.db.messages[id].key.box], s.db.messages[id].key))
  }

  ghost predicate AllObey(es: seq<Event>, serial: bool, past: bool) {
    forall i :: 0 <= i < |es| ==> Obeys(Replay(INIT, es[..i]), es[i], serial, past)
  }

  ghost predicate Careful(s: State, e: Event) { Obeys(s, e, true, true) }

  ghost predicate AllCareful(es: seq<Event>) { AllObey(es, true, true) }

  // ---------- One step ----------

  // Cursors, runs and ingestion history as before, except that runs may have ended.
  ghost predicate Calm(s: State, t: State) {
    && t.db.boxes.Keys == s.db.boxes.Keys && t.db.nextBox == s.db.nextBox && t.nextRun == s.nextRun
    && (forall b :: b in t.db.boxes ==>
          t.db.boxes[b].validity == s.db.boxes[b].validity && t.db.boxes[b].lastUid == s.db.boxes[b].lastUid)
    && t.servers.Keys == s.servers.Keys
    && (forall b :: b in t.servers ==> s.servers[b].validity <= t.servers[b].validity)
    && (forall r :: r in t.runs ==> r in s.runs && t.runs[r] == s.runs[r])
    && t.db.messages.Keys == s.db.messages.Keys && t.db.nextMsg == s.db.nextMsg
    && (forall id :: id in t.db.messages ==> t.db.messages[id].key == s.db.messages[id].key)
    && (t.db.log == s.db.log
        || (|t.db.log| == |s.db.log| + 1 && t.db.log[..|s.db.log|] == s.db.log && t.db.log[|s.db.log|].Decided?))
  }

  lemma KeysStay(a: map<MsgId, Message>, b: map<MsgId, Message>, key: Key)
    requires forall id :: id in a ==> id in b && b[id].key == a[id].key
    requires HasKey(a, key)
    ensures HasKey(b, key)
  {
    var id :| id in a && a[id].key == key;
    assert b[id].key == key;
  }

  lemma CalmKeepsInv(s: State, t: State)
    requires Inv(s) && Calm(s, t)
    ensures Inv(t)
  {
    forall r | r in t.runs ensures RunOk(t, t.runs[r]) { assert RunOk(s, s.runs[r]); }
    forall b | b in t.db.boxes ensures Epoch(t, b, t.db.boxes[b].validity) {
      assert Epoch(s, b, s.db.boxes[b].validity);
    }
    forall i | 0 <= i < |t.db.log| && t.db.log[i].Ingested? ensures Covered(t.db, t.db.log[i].key) {
      assert t.db.log[i] == s.db.log[i] && Covered(s.db, s.db.log[i].key);
      if HasKey(s.db.messages, s.db.log[i].key) { KeysStay(s.db.messages, t.db.messages, s.db.log[i].key); }
    }
  }

  lemma ServerEvents(s: State, e: Event)
    requires e.Deliver? || e.Expunge? || e.ResetValidity?
    ensures Calm(s, Apply(s, e))
  {
  }

  lemma OwnerEvents(s: State, e: Event)
    requires e.Edit? || e.RotateKeys? || e.Decide?
    ensures Calm(s, Apply(s, e))
  {
  }

  lemma EndedRuns(s: State, e: Event)
    requires e.Fail? || e.Crash?
    ensures Calm(s, Apply(s, e))
  {
  }

  lemma RemovalKeepsInv(s: State, t: State, gone: set<MsgId>)
    requires Inv(s)
    requires t == s.(db := s.db.(
               boxes := t.db.boxes, messages := s.db.messages - gone, attachments := t.db.attachments))
    requires t.db.boxes.Keys <= s.db.boxes.Keys && forall b :: b in t.db.boxes ==> t.db.boxes[b] == s.db.boxes[b]
    requires forall id :: id in gone && id in s.db.messages && s.db.messages[id].key.box in t.db.boxes ==>
               Past(t.db.boxes[s.db.messages[id].key.box], s.db.messages[id].key)
    ensures Inv(t)
  {
    forall r | r in t.runs ensures RunOk(t, t.runs[r]) { assert RunOk(s, s.runs[r]); }
    forall b | b in t.db.boxes ensures Epoch(t, b, t.db.boxes[b].validity) {
      assert Epoch(s, b, s.db.boxes[b].validity);
    }
    forall i | 0 <= i < |t.db.log| && t.db.log[i].Ingested? ensures Covered(t.db, t.db.log[i].key) {
      var key := s.db.log[i].key;
      assert Covered(s.db, key);
      if HasKey(s.db.messages, key) {
        var id :| id in s.db.messages && s.db.messages[id].key == key;
        if id !in gone { assert id in t.db.messages; }
      }
    }
  }

  lemma RemovalEvents(s: State, e: Event)
    requires Inv(s) && Careful(s, e) && (e.Delete? || e.Purge?)
    ensures Inv(Apply(s, e))
  {
    if e.Delete? {
      RemovalKeepsInv(s, Apply(s, e), set id | id in s.db.messages && s.db.messages[id].key.box == e.box);
    } else {
      RemovalKeepsInv(s, Apply(s, e), e.msgs);
    }
  }

  // A new mailbox has no history; a new run starts level with its mailbox.
  lemma StartEvents(s: State, e: Event)
    requires Inv(s) && Careful(s, e) && (e.Create? || e.Begin?)
    ensures Inv(Apply(s, e))
  {
    var t := Apply(s, e);
    forall r | r in t.runs ensures r < t.nextRun && RunOk(t, t.runs[r]) {
      if r in s.runs && t.runs[r] == s.runs[r] { assert RunOk(s, s.runs[r]); }
      if e.Begin? && e.box in s.db.boxes { assert Epoch(s, e.box, s.db.boxes[e.box].validity); }
    }
    forall b | b in t.db.boxes ensures Epoch(t, b, t.db.boxes[b].validity) {
      if b in s.db.boxes { assert Epoch(s, b, s.db.boxes[b].validity); }
    }
    forall i | 0 <= i < |t.db.log| && t.db.log[i].Ingested? ensures Covered(t.db, t.db.log[i].key) {
      assert Covered(s.db, s.db.log[i].key);
    }
  }

  // Only this run's variables change.
  lemma RunMoves(s: State, t: State, r: RunId)
    requires Inv(s) && r in s.runs && r in t.runs && t == s.(runs := s.runs[r := t.runs[r]])
    requires t.runs[r].box == s.runs[r].box && RunOk(s, t.runs[r])
    ensures Inv(t)
  {
    forall q | q in t.runs ensures RunOk(t, t.runs[q]) { assert q != r ==> RunOk(s, s.runs[q]); }
    forall b | b in t.db.boxes ensures Epoch(t, b, t.db.boxes[b].validity) {
      assert Epoch(s, b, s.db.boxes[b].validity);
    }
  }

  lemma SelectEvent(s: State, e: Event)
    requires Inv(s) && e.Select?
    ensures Inv(Apply(s, e))
  {
    if e.run in s.runs && Apply(s, e) != s {
      var run := s.runs[e.run];
      assert RunOk(s, run);
      if run.box in s.db.boxes { assert Epoch(s, run.box, s.db.boxes[run.box].validity); }
      RunMoves(s, Apply(s, e), e.run);
    }
  }

  lemma SearchEvent(s: State, e: Event)
    requires Inv(s) && e.Search?
    ensures Inv(Apply(s, e))
  {
    if e.run in s.runs && Apply(s, e) != s {
      var run := s.runs[e.run];
      assert RunOk(s, run);
      var above := Above(e.answer, run.cursor);
      forall u | u in Take(above, e.batch) ensures run.cursor < u { assert u in above; }
      RunMoves(s, Apply(s, e), e.run);
    }
  }

  // The run's only rival for its mailbox's cursor is itself.
  lemma FinishEvent(s: State, e: Event)
    requires Inv(s) && e.Finish?
    ensures Inv(Apply(s, e))
  {
    var t := Apply(s, e);
    if e.run in s.runs && t != s {
      var run := s.runs[e.run];
      assert RunOk(s, run);
      forall q | q in t.runs ensures RunOk(t, t.runs[q]) { assert RunOk(s, s.runs[q]) && t.runs[q].box != run.box; }
      forall b | b in t.db.boxes ensures Epoch(t, b, t.db.boxes[b].validity) {
        assert Epoch(s, b, s.db.boxes[b].validity);
      }
      forall i | 0 <= i < |t.db.log| && t.db.log[i].Ingested? ensures Covered(t.db, t.db.log[i].key) {
        assert Covered(s.db, s.db.log[i].key);
      }
    }
  }

  // What a run is about to store is not covered unless the message is there.
  lemma NewKeyIsNew(s: State, run: WorkerRun, key: Key)
    requires RunOk(s, run) && run.phase.Storing? && run.phase.todo != [] && run.validity.Some?
    requires key == Key(run.box, run.validity.value, run.phase.todo[0])
    requires run.box in s.db.boxes && !HasKey(s.db.messages, key)
    ensures !Covered(s.db, key)
  {
    assert run.phase.todo[0] in run.phase.todo;
  }

  lemma AppendKeepsLog(db: Db, t: Db, m: Message)
    requires LogCovered(db) && NoRepeat(db.log) && !Covered(db, m.key) && m.key.box < db.nextBox
    requires t == InsertMessage(db, m)
    ensures LogCovered(t) && NoRepeat(t.log)
  {
    assert t.log[..|db.log|] == db.log;
    assert t.messages[db.nextMsg].key == m.key;
    forall i | 0 <= i < |t.log| && t.log[i].Ingested? ensures Covered(t, t.log[i].key) {
      if i < |db.log| {
        assert t.log[i] == db.log[i] && Covered(db, db.log[i].key);
        if HasKey(db.messages, db.log[i].key) { KeysStay(db.messages, t.messages, db.log[i].key); }
      }
    }
  }

  lemma StoreEvent(s: State, e: Event)
    requires Inv(s) && e.Store?
    ensures Inv(Apply(s, e))
  {
    var t := Apply(s, e);
    if e.run in s.runs && t != s {
      var run := s.runs[e.run];
      var key := Key(run.box, run.validity.value, run.phase.todo[0]);
      assert RunOk(s, run);
      if Current(s.db, run.box, run.version) && !HasKey(s.db.messages, key) {
        NewKeyIsNew(s, run, key);
        AppendKeepsLog(s.db, t.db, Message(key, e.content, e.state, e.risk));
      }
      forall q | q in t.runs ensures RunOk(t, t.runs[q]) {
        assert RunOk(s, s.runs[q]);
        if q == e.run { assert forall u :: u in run.phase.todo[1..] ==> u in run.phase.todo; }
      }
      forall b | b in t.db.boxes ensures Epoch(t, b, t.db.boxes[b].validity) {
        assert Epoch(s, b, s.db.boxes[b].validity);
      }
    }
  }

  lemma Step(s: State, e: Event)
    requires Inv(s) && Careful(s, e)
    ensures Inv(Apply(s, e))
  {
    match e
    case Create(_, _, _) => StartEvents(s, e);
    case Begin(_) => StartEvents(s, e);
    case Delete(_) => RemovalEvents(s, e);
    case Purge(_) => RemovalEvents(s, e);
    case Select(_) => SelectEvent(s, e);
    case Search(_, _, _) => SearchEvent(s, e);
    case Store(_, _, _, _) => StoreEvent(s, e);
    case Finish(_, _) => FinishEvent(s, e);
    case _ =>
      if e.Fail? || e.Crash? {
        EndedRuns(s, e);
      } else if e.Edit? || e.RotateKeys? || e.Decide? {
        OwnerEvents(s, e);
      } else {
        ServerEvents(s, e);
      }
      CalmKeepsInv(s, Apply(s, e));
  }

  lemma {:induction false} InvHolds(es: seq<Event>)
    requires AllCareful(es)
    ensures Inv(Replay(INIT, es))
  {
    if es != [] {
      var n := |es| - 1;
      forall i | 0 <= i < n ensures Careful(Replay(INIT, es[..n][..i]), es[..n][i]) {
        assert es[..n][..i] == es[..i];
        assert Careful(Replay(INIT, es[..i]), es[i]);
      }
      InvHolds(es[..n]);
      assert Careful(Replay(INIT, es[..n]), es[n]);
      Step(Replay(INIT, es[..n]), es[n]);
    }
  }

  /** Over any careful run, retention and mailbox deletion included, each UID of each UIDVALIDITY
      of each mailbox is imported at most once. */
  lemma {:induction false} NeverImportedAgain(es: seq<Event>)
    requires AllCareful(es)
    ensures NoRepeat(Replay(INIT, es).db.log)
  {
    InvHolds(es);
  }

  // ---------- Neither half of the care can be spared ----------

  const SAME := Key(0, 1, 1)

  // Mailbox 0 would import UID 1 next.
  ghost predicate Ready(s: State) {
    && 0 in s.db.boxes && s.db.boxes[0].config.enabled && s.db.boxes[0].lastUid == 0
    && (s.db.boxes[0].validity == None || s.db.boxes[0].validity == Some(1))
    && 0 in s.servers && s.servers[0].validity == 1 && s.servers[0].present == {1}
    && !HasKey(s.db.messages, SAME)
  }

  // One run up to the point where it would commit its cursor.
  function Searched(s: State, answer: seq<Uid>): State {
    Apply(Apply(Apply(s, Begin(0)), Select(s.nextRun)), Search(s.nextRun, answer, 1))
  }

  function Import(s: State, c: Content): State { Apply(Searched(s, [1]), Store(s.nextRun, c, Quarantined, Low)) }

  lemma ImportList(s: State)
    requires Ready(s)
    ensures Searched(s, [1]) == s.(
              runs := s.runs[s.nextRun := WorkerRun(0, s.db.boxes[0].version, Some(1), 0, Storing([1]), 0)],
              nextRun := s.nextRun + 1)
  {
    var r := s.nextRun;
    var s2 := Apply(Apply(s, Begin(0)), Select(r));
    assert s2.runs[r] == WorkerRun(0, s.db.boxes[0].version, Some(1), 0, Selected, 0);
    assert [1][1..] == [];
    assert Above([1], 0) == [1];
    assert AnswersSearch({1}, 1, [1]);
  }

  lemma ImportOne(s: State, c: Content)
    requires Ready(s)
    ensures var t := Import(s, c);
            && t.db == InsertMessage(s.db, Message(SAME, c, Quarantined, Low)) && t.servers == s.servers
            && t.nextRun == s.nextRun + 1
            && t.runs == s.runs[s.nextRun := WorkerRun(0, s.db.boxes[0].version, Some(1), 1, Storing([]), 1)]
  {
    ImportList(s);
    assert [1][1..] == [];
  }

  lemma Twice(s: State, c: Content)
    requires Ready(s) && |s.db.log| == 1 && s.db.log[0].Ingested? && s.db.log[0].key == SAME
    ensures !NoRepeat(Import(s, c).db.log)
  {
    ImportOne(s, c);
    var log := Import(s, c).db.log;
    assert log[0].key == log[1].key;
  }

  lemma CommitStep(s: State, r: RunId, cursor: Uid, created: nat, now: int)
    requires 0 in s.db.boxes && Current(s.db, 0, s.db.boxes[0].version)
    requires r in s.runs && s.runs[r] == WorkerRun(0, s.db.boxes[0].version, Some(1), cursor, Storing([]), created)
    ensures Apply(s, Finish(r, now)) == s.(
              db := s.db.(boxes := s.db.boxes[0 := s.db.boxes[0].(
                validity := Some(1), lastUid := cursor, lastSync := Some(now), errorCode := "")]),
              runs := s.runs - {r})
  {
  }

  lemma PurgeStep(s: State, m: Message)
    requires s.db.messages == map[0 := m]
    ensures Apply(s, Purge({0})) == s.(db := s.db.(messages := map[], attachments := s.db.attachments - {0}))
  {
    assert s.db.messages - {0} == map[];
  }

  function Fresh(config: Config, server: Server): State { Apply(INIT, Create(config, "inbox", server)) }

  /** Runs one after another, but retention deletes a message whose run never committed. */
  lemma {:induction false} EarlyPurgeImportsAgain(config: Config, c: Content)
    requires config.enabled
    ensures var s := Apply(Apply(Import(Fresh(config, Server(1, 2, {1})), c), Crash(0)), Purge({0}));
            s.runs == map[] && !NoRepeat(Import(s, c).db.log)
  {
    var s0 := Fresh(config, Server(1, 2, {1}));
    assert Ready(s0);
    ImportOne(s0, c);
    var stopped := Apply(Import(s0, c), Crash(0));
    PurgeStep(stopped, ForceQuarantine(Message(SAME, c, Quarantined, Low)));
    Twice(Apply(stopped, Purge({0})), c);
  }

  // A first run that has listed an empty inbox; then a message arrives.
  function SlowRun(config: Config): State { Apply(Searched(Fresh(config, Server(1, 1, {})), []), Deliver(0, 1)) }

  // A second run imports it and commits; retention deletes it.
  function Committed(config: Config, c: Content, now: int): State { Apply(Import(SlowRun(config), c), Finish(1, now)) }

  function Deleted(config: Config, c: Content, now: int): State { Apply(Committed(config, c, now), Purge({0})) }

  lemma SlowRunIsReady(config: Config)
    requires config.enabled
    ensures var s := SlowRun(config);
            && Ready(s) && s.nextRun == 1 && s.runs == map[0 := WorkerRun(0, 1, Some(1), 0, Storing([]), 0)]
            && s.db == Fresh(config, Server(1, 1, {})).db
  {
    var s0 := Fresh(config, Server(1, 1, {}));
    var selected := Apply(Apply(s0, Begin(0)), Select(0));
    assert selected.runs[0] == WorkerRun(0, 1, Some(1), 0, Selected, 0);
    assert AnswersSearch({}, 1, []);
  }

  lemma CommittedAndDeleted(config: Config, c: Content, now: int)
    requires config.enabled
    ensures var s := Committed(config, c, now);
            && 0 in s.db.boxes && s.db.boxes[0].lastUid == 1 && s.db.boxes[0].validity == Some(1)
            && Careful(s, Purge({0}))
    ensures var t := Deleted(config, c, now);
            && t.db.messages == map[] && |t.db.log| == 1 && t.db.log[0] == Ingested(0, SAME, c)
            && t.db.boxes == Committed(config, c, now).db.boxes && Current(t.db, 0, 1)
            && t.servers == SlowRun(config).servers
            && t.runs == map[0 := WorkerRun(0, 1, Some(1), 0, Storing([]), 0)] && t.nextRun == 2
  {
    SlowRunIsReady(config);
    ImportOne(SlowRun(config), c);
    var u := Import(SlowRun(config), c);
    CommitStep(u, 1, 1, u.runs[1].created, now);
    assert u.runs - {1} == map[0 := WorkerRun(0, 1, Some(1), 0, Storing([]), 0)];
    PurgeStep(Committed(config, c, now), ForceQuarantine(Message(SAME, c, Quarantined, Low)));
  }

  /** Retention deletes only what the committed cursor has passed, but two runs overlap: the one
      that began first commits last and moves the cursor back. */
  lemma {:induction false} OverlapImportsAgain(config: Config, c: Content, now: int)
    requires config.enabled
    ensures Careful(Committed(config, c, now), Purge({0}))
    ensures var s := Apply(Deleted(config, c, now), Finish(0, now));
            && 0 in s.db.boxes && s.db.boxes[0].lastUid == 0 && s.runs == map[]
            && !NoRepeat(Import(s, c).db.log)
  {
    CommittedAndDeleted(config, c, now);
    SlowRunIsReady(config);
    var t := Deleted(config, c, now);
    CommitStep(t, 0, 0, 0, now);
    assert t.runs - {0} == map[];
    Twice(Apply(t, Finish(0, now)), c);
  }

  // The events lead here, and each obeyed.
  ghost predicate LeadsTo(es: seq<Event>, s: State, serial: bool, past: bool) {
    Replay(INIT, es) == s && AllObey(es, serial, past)
  }

  lemma OneMore(es: seq<Event>, s: State, e: Event, serial: bool, past: bool) returns (more: seq<Event>)
    requires LeadsTo(es, s, serial, past) && Obeys(s, e, serial, past)
    ensures LeadsTo(more, Apply(s, e), serial, past)
  {
    more := es + [e];
    assert more[..|es|] == es;
    forall i | 0 <= i < |more| ensures Obeys(Replay(INIT, more[..i]), more[i], serial, past) {
      if i < |es| {
        assert more[..i] == es[..i] && more[i] == es[i];
        assert Obeys(Replay(INIT, es[..i]), es[i], serial, past);
      }
    }
  }

  lemma ThreeMore(es: seq<Event>, s: State, answer: seq<Uid>, serial: bool, past: bool) returns (more: seq<Event>)
    requires LeadsTo(es, s, serial, past) && (serial ==> s.runs == map[])
    ensures LeadsTo(more, Searched(s, answer), serial, past)
  {
    more := OneMore(es, s, Begin(0), serial, past);
    var begun := Apply(s, Begin(0));
    more := OneMore(more, begun, Select(s.nextRun), serial, past);
    more := OneMore(more, Apply(begun, Select(s.nextRun)), Search(s.nextRun, answer, 1), serial, past);
  }

  lemma ImportMore(es: seq<Event>, s: State, c: Content, serial: bool, past: bool) returns (more: seq<Event>)
    requires LeadsTo(es, s, serial, past) && (serial ==> s.runs == map[])
    ensures LeadsTo(more, Import(s, c), serial, past)
  {
    more := ThreeMore(es, s, [1], serial, past);
    more := OneMore(more, Searched(s, [1]), Store(s.nextRun, c, Quarantined, Low), serial, past);
  }

  lemma FreshMailbox(config: Config, server: Server, serial: bool, past: bool) returns (es: seq<Event>)
    ensures LeadsTo(es, Fresh(config, server), serial, past)
  {
    assert Replay(INIT, []) == INIT;
    es := OneMore([], INIT, Create(config, "inbox", server), serial, past);
  }

  // Without the rule on purges: runs one after another still import a message twice.
  lemma EarlyPurgeRun(config: Config, c: Content, serial: bool) returns (es: seq<Event>)
    requires config.enabled
    ensures AllObey(es, serial, false) && !NoRepeat(Replay(INIT, es).db.log)
  {
    var s0 := Fresh(config, Server(1, 2, {1}));
    es := FreshMailbox(config, Server(1, 2, {1}), serial, false);
    assert s0.runs == map[];
    es := ImportMore(es, s0, c, serial, false);
    var s1 := Import(s0, c);
    es := OneMore(es, s1, Crash(0), serial, false);
    es := OneMore(es, Apply(s1, Crash(0)), Purge({0}), serial, false);
    EarlyPurgeImportsAgain(config, c);
    es := ImportMore(es, Apply(Apply(s1, Crash(0)), Purge({0})), c, serial, false);
  }

  // Without the rule on runs: purges of nothing but the past still lead to a second import.
  lemma OverlapRun(config: Config, c: Content, past: bool) returns (es: seq<Event>)
    requires config.enabled
    ensures AllObey(es, false, past) && !NoRepeat(Replay(INIT, es).db.log)
  {
    var s0 := Fresh(config, Server(1, 1, {}));
    es := FreshMailbox(config, Server(1, 1, {}), false, past);
    es := ThreeMore(es, s0, [], false, past);
    es := OneMore(es, Searched(s0, []), Deliver(0, 1), false, past);
    SlowRunIsReady(config);
    es := ImportMore(es, SlowRun(config), c, false, past);
    es := OneMore(es, Import(SlowRun(config), c), Finish(1, 0), false, past);
    OverlapImportsAgain(config, c, 0);
    es := OneMore(es, Committed(config, c, 0), Purge({0}), false, past);
    var deleted := Deleted(config, c, 0);
    es := OneMore(es, deleted, Finish(0, 0), false, past);
    es := ImportMore(es, Apply(deleted, Finish(0, 0)), c, false, past);
  }

  /** The promise that a purged message is not imported again holds of all runs under a set of rules
      if and only if the rules include both: runs over one mailbox do not overlap, and a purge
      deletes only what the committed cursor has passed. */
  lemma {:induction false} ReimportCondition(serial: bool, past: bool)
    ensures (forall es :: AllObey(es, serial, past) ==> NoRepeat(Replay(INIT, es).db.log)) <==> serial && past
  {
    var config := Config("generic_imaps", 1, "mail.example", 993, "owner", "secret", "", true);
    if serial && past {
      forall es | AllObey(es, true, true) ensures NoRepeat(Replay(INIT, es).db.log) { NeverImportedAgain(es); }
    } else if !past {
      var es := EarlyPurgeRun(config, Content("", []), serial);
    } else {
      var es := OverlapRun(config, Content("", []), past);
    }
  }
}
