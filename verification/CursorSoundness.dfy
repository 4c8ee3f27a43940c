/**
 No message is skipped: whatever a mailbox row's cursor has passed was stored once, or is
 no longer on the server. Proved for every interleaving of runs, owner actions, purges and
 mail-server changes in which SEARCH answers come in ascending order; that order is exactly
 what the batch cut needs.
 */
module CursorSoundness {
  import opened Wrappers
  import opened MailboxModel

  ghost predicate WasStored(log: seq<Entry>, key: Key) {
    exists i :: 0 <= i < |log| && log[i].Ingested? && log[i].key == key
  }

  // Everything up to c in epoch v is stored or gone, and nothing up to c can still arrive.
  ghost predicate CursorOk(sv: Server, log: seq<Entry>, box: BoxId, v: Option<nat>, c: Uid) {
    v.Some? ==>
      && v.value <= sv.validity
      && (v.value == sv.validity ==>
            && c < sv.next
            && forall u :: u in sv.present && u <= c ==> WasStored(log, Key(box, v.value, u)))
  }

  // The UIDs a run still has to store: nothing present is missing up to the last of them.
  ghost predicate TodoOk(sv: Server, v: Option<nat>, c: Uid, todo: seq<Uid>) {
    v == Some(sv.validity) && todo != [] ==>
      && Ascending(todo)
      && c < todo[0] && todo[|todo| - 1] < sv.next
      && forall u :: u in sv.present && c < u <= todo[|todo| - 1] ==> u in todo
  }

  ghost predicate RunOk(s: State, run: WorkerRun) {
    && run.box in s.servers
    && CursorOk(s.servers[run.box], s.db.log, run.box, run.validity, run.cursor)
    && (run.phase.Storing? ==> TodoOk(s.servers[run.box], run.validity, run.cursor, run.phase.todo))
  }

  ghost predicate RowOk(s: State, box: BoxId, row: Row) {
    && box in s.servers
    && CursorOk(s.servers[box], s.db.log, box, row.validity, row.lastUid)
  }

  ghost predicate Recorded(db: Db) {
    forall id :: id in db.messages ==> id < db.nextMsg && WasStored(db.log, db.messages[id].key)
  }

  ghost predicate Inv(s: State) {
    && (forall b :: b in s.servers ==> b < s.db.nextBox && ServerOk(s.servers[b]))
    && (forall b :: b in s.db.boxes ==> RowOk(s, b, s.db.boxes[b]))
    && (forall r :: r in s.runs ==> RunOk(s, s.runs[r]))
    && Recorded(s.db)
  }

  // The property itself, free of proof bookkeeping: every UID at or below the persisted
  // cursor of the persisted UIDVALIDITY that the server still has was stored at some point.
  ghost predicate CursorSound(s: State) {
    forall b, u :: b in s.db.boxes && b in s.servers && s.db.boxes[b].validity == Some(s.servers[b].validity)
      && u in s.servers[b].present && u <= s.db.boxes[b].lastUid
      ==> WasStored(s.db.log, Key(b, s.servers[b].validity, u))
  }

  ghost predicate Ordered(e: Event) { e.Search? ==> Ascending(e.answer) }

  ghost predicate AllOrdered(es: seq<Event>) { forall i :: 0 <= i < |es| ==> Ordered(es[i]) }

  lemma StoredStays(log: seq<Entry>, longer: seq<Entry>, key: Key)
    requires log <= longer && WasStored(log, key)
    ensures WasStored(longer, key)
  {
    var i :| 0 <= i < |log| && log[i].Ingested? && log[i].key == key;
    assert longer[i] == log[i];
  }

  // The part of a state's rows that cursor soundness reads only ever gains log entries.
  ghost predicate LogGrows(s: State, t: State) {
    && s.db.log <= t.db.log
    && s.servers == t.servers && s.db.nextBox == t.db.nextBox
    && Recorded(t.db)
  }

  lemma LogGrowsKeepsRuns(s: State, t: State, run: WorkerRun)
    requires LogGrows(s, t) && RunOk(s, run)
    ensures RunOk(t, run)
  {
  }

  lemma LogGrowsKeepsRows(s: State, t: State, b: BoxId, row: Row)
    requires LogGrows(s, t) && RowOk(s, b, row)
    ensures RowOk(t, b, row)
  {
  }

  // Rows with the cursors they had, and runs that go on or have ended.
  ghost predicate Quiet(s: State, t: State) {
    && LogGrows(s, t)
    && (forall r :: r in t.runs ==> r in s.runs && t.runs[r] == s.runs[r])
    && forall b :: b in t.db.boxes ==>
         b in s.db.boxes && t.db.boxes[b].validity == s.db.boxes[b].validity
         && t.db.boxes[b].lastUid == s.db.boxes[b].lastUid
  }

  lemma QuietKeepsInv(s: State, t: State)
    requires Inv(s) && Quiet(s, t)
    ensures Inv(t)
  {
    forall r | r in t.runs ensures RunOk(t, t.runs[r]) { LogGrowsKeepsRuns(s, t, s.runs[r]); }
    forall b | b in t.db.boxes ensures RowOk(t, b, t.db.boxes[b]) { LogGrowsKeepsRows(s, t, b, s.db.boxes[b]); }
  }

  // Owner transactions, retention and status writes keep every cursor and epoch.
  lemma OwnerEvents(s: State, e: Event)
    requires Recorded(s.db) && (e.Edit? || e.RotateKeys? || e.Decide?)
    ensures Quiet(s, Apply(s, e))
  {
    var t := Apply(s, e);
    forall id | id in t.db.messages ensures id < t.db.nextMsg && WasStored(t.db.log, t.db.messages[id].key) {
      StoredStays(s.db.log, t.db.log, s.db.messages[id].key);
    }
  }

  lemma EndEvents(s: State, e: Event)
    requires Recorded(s.db) && (e.Delete? || e.Purge? || e.Fail? || e.Crash?)
    ensures Quiet(s, Apply(s, e))
  {
  }

  lemma DbEvents(s: State, e: Event)
    requires Inv(s)
    requires e.Edit? || e.RotateKeys? || e.Delete? || e.Decide? || e.Purge? || e.Fail? || e.Crash?
    ensures Inv(Apply(s, e))
  {
    if e.Edit? || e.RotateKeys? || e.Decide? { OwnerEvents(s, e); } else { EndEvents(s, e); }
    QuietKeepsInv(s, Apply(s, e));
  }

  lemma ServerEvents(s: State, e: Event)
    requires Inv(s) && (e.Deliver? || e.Expunge? || e.ResetValidity?)
    ensures Inv(Apply(s, e))
  {
    var t := Apply(s, e);
    forall r | r in t.runs ensures RunOk(t, t.runs[r]) { assert RunOk(s, s.runs[r]); }
    forall b | b in t.db.boxes ensures RowOk(t, b, t.db.boxes[b]) { assert RowOk(s, b, s.db.boxes[b]); }
  }

  // A new mailbox has no cursor; a new run starts from its mailbox's.
  lemma StartEvents(s: State, e: Event)
    requires Inv(s) && (e.Create? || e.Begin?)
    ensures Inv(Apply(s, e))
  {
    var t := Apply(s, e);
    forall r | r in t.runs ensures RunOk(t, t.runs[r]) {
      if r in s.runs && t.runs[r] == s.runs[r] { assert RunOk(s, s.runs[r]); }
    }
    forall b | b in t.db.boxes ensures RowOk(t, b, t.db.boxes[b]) {
      if b in s.db.boxes { assert RowOk(s, b, s.db.boxes[b]); }
    }
  }

  // A prefix of an ascending answer leaves nothing present behind it.
  lemma SearchEvent(s: State, e: Event)
    requires Inv(s) && e.Search? && Ordered(e)
    ensures Inv(Apply(s, e))
  {
    if e.run in s.runs && Apply(s, e) != s {
      var run := s.runs[e.run];
      var sv := s.servers[run.box];
      var above := Above(e.answer, run.cursor);
      var todo := Take(above, e.batch);
      assert RunOk(s, run);
      assert TodoOk(sv, run.validity, run.cursor, todo) by {
        if todo != [] {
          assert todo[0] in above && todo[|todo| - 1] in above;
          forall u | u in sv.present && run.cursor < u <= todo[|todo| - 1] ensures u in todo {
            assert u in above;
            var k :| 0 <= k < |above| && above[k] == u;
            assert k < |todo| && todo[k] == u;
          }
        }
      }
      var t := Apply(s, e);
      forall r | r in t.runs ensures RunOk(t, t.runs[r]) { assert r != e.run ==> RunOk(s, s.runs[r]); }
    }
  }

  lemma StoreEvent(s: State, e: Event)
    requires Inv(s) && e.Store?
    ensures Inv(Apply(s, e))
  {
    var t := Apply(s, e);
    if e.run in s.runs && t != s {
      var run := s.runs[e.run];
      var key := Key(run.box, run.validity.value, run.phase.todo[0]);
      assert s.db.log <= t.db.log;
      forall id | id in t.db.messages ensures id < t.db.nextMsg && WasStored(t.db.log, t.db.messages[id].key) {
        if id !in s.db.messages || t.db.messages[id] != s.db.messages[id] {
          assert t.db.log[|s.db.log|].key == key;
        }
      }
      assert LogGrows(s, t);
      if e.run in t.runs {
        assert WasStored(t.db.log, key) by {
          if HasKey(s.db.messages, key) {
            var id :| id in s.db.messages && s.db.messages[id].key == key;
          } else {
            assert t.db.log[|s.db.log|].key == key;
          }
        }
        AdvanceKeepsRun(s, t, run, t.runs[e.run]);
      }
      forall r | r in t.runs ensures RunOk(t, t.runs[r]) {
        if r != e.run { LogGrowsKeepsRuns(s, t, s.runs[r]); }
      }
      forall b | b in t.db.boxes ensures RowOk(t, b, t.db.boxes[b]) { LogGrowsKeepsRows(s, t, b, s.db.boxes[b]); }
    }
  }

  // Moving the in-memory cursor over the head of the list once that head is stored.
  lemma AdvanceKeepsRun(s: State, t: State, run: WorkerRun, next: WorkerRun)
    requires RunOk(s, run) && LogGrows(s, t)
    requires run.phase.Storing? && run.phase.todo != [] && run.validity.Some?
    requires WasStored(t.db.log, Key(run.box, run.validity.value, run.phase.todo[0]))
    requires next.box == run.box && next.validity == run.validity
    requires next.cursor == Max(run.cursor, run.phase.todo[0]) && next.phase == Storing(run.phase.todo[1..])
    ensures RunOk(t, next)
  {
    var sv := s.servers[run.box];
    var todo := run.phase.todo;
    LogGrowsKeepsRuns(s, t, run);
    if run.validity.value == sv.validity {
      forall u | u in sv.present && u <= next.cursor ensures WasStored(t.db.log, Key(run.box, sv.validity, u)) {
        if run.cursor < u {
          assert u in todo;
          assert u == todo[0];
        }
      }
      if todo[1..] != [] {
        assert todo[0] < todo[1];
        forall u | u in sv.present && next.cursor < u <= todo[|todo| - 1] ensures u in todo[1..] {
          assert u in todo && u != todo[0];
        }
      }
    }
  }

  lemma SelectFinish(s: State, e: Event)
    requires Inv(s) && (e.Select? || e.Finish?)
    ensures Inv(Apply(s, e))
  {
    var t := Apply(s, e);
    if e.run in s.runs {
      assert RunOk(s, s.runs[e.run]);
      assert LogGrows(s, t);
      forall r | r in t.runs ensures RunOk(t, t.runs[r]) { LogGrowsKeepsRuns(s, t, s.runs[r]); }
      forall b | b in t.db.boxes ensures RowOk(t, b, t.db.boxes[b]) { LogGrowsKeepsRows(s, t, b, s.db.boxes[b]); }
    }
  }

  lemma Step(s: State, e: Event)
    requires Inv(s) && Ordered(e)
    ensures Inv(Apply(s, e))
  {
    match e
    case Search(_, _, _) => SearchEvent(s, e);
    case Store(_, _, _, _) => StoreEvent(s, e);
    case Select(_) => SelectFinish(s, e);
    case Finish(_, _) => SelectFinish(s, e);
    case Create(_, _, _) => StartEvents(s, e);
    case Deliver(_, _) => ServerEvents(s, e);
    case Expunge(_, _) => ServerEvents(s, e);
    case ResetValidity(_, _) => ServerEvents(s, e);
    case Begin(_) => StartEvents(s, e);
    case _ => DbEvents(s, e);
  }

  lemma {:induction false} InvHolds(es: seq<Event>)
    requires AllOrdered(es)
    ensures Inv(Replay(INIT, es))
  {
    if es != [] {
      InvHolds(es[..|es| - 1]);
      Step(Replay(INIT, es[..|es| - 1]), es[|es| - 1]);
    }
  }

  /** No message is skipped, in any reachable state of any interleaving. */
  lemma {:induction false} NoMessageSkipped(es: seq<Event>)
    requires AllOrdered(es)
    ensures CursorSound(Replay(INIT, es))
  {
    InvHolds(es);
    var s := Replay(INIT, es);
    forall b, u | b in s.db.boxes && b in s.servers && s.db.boxes[b].validity == Some(s.servers[b].validity)
      && u in s.servers[b].present && u <= s.db.boxes[b].lastUid
      ensures WasStored(s.db.log, Key(b, s.servers[b].validity, u))
    {
      assert RowOk(s, b, s.db.boxes[b]);
    }
  }
}
