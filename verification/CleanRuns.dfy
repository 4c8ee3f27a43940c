/**
 Fault-free runs: what one uninterrupted run does to the tables, that repeating it drains
 the inbox in exactly the expected number of runs, and which SEARCH orders are safe.
 */
module CleanRuns {
  import opened Wrappers
  import opened MailboxModel
  import opened CursorSoundness

  function MaxAll(c: Uid, uids: seq<Uid>): (m: Uid)
    ensures c <= m && (forall u :: u in uids ==> u <= m) && (m == c || m in uids)
    decreases |uids|
  {
    if uids == [] then c else
      assert uids == [uids[0]] + uids[1..];
      MaxAll(Max(c, uids[0]), uids[1..])
  }

  // The loop of one run: each UID on the list is fetched and stored.
  ghost function StoreAll(s: State, r: RunId, mails: seq<Mail>): State
    decreases |mails|
  {
    if mails == [] then s
    else StoreAll(Apply(s, Store(r, mails[0].content, mails[0].state, mails[0].risk)), r, mails[1..])
  }

  lemma {:induction false} StoreOneMore(s: State, r: RunId, mails: seq<Mail>, mail: Mail)
    ensures StoreAll(s, r, mails + [mail]) ==
            Apply(StoreAll(s, r, mails), Store(r, mail.content, mail.state, mail.risk))
    decreases |mails|
  {
    if mails == [] {
      assert [] + [mail] == [mail] && [mail][1..] == [];
    } else {
      assert (mails + [mail])[1..] == mails[1..] + [mail];
      StoreOneMore(Apply(s, Store(r, mails[0].content, mails[0].state, mails[0].risk)), r, mails[1..], mail);
    }
  }

  ghost predicate CanStore(s: State, r: RunId, mails: seq<Mail>) {
    && Recorded(s.db)
    && r in s.runs
    && s.runs[r].phase.Storing? && s.runs[r].validity.Some?
    && |mails| == |s.runs[r].phase.todo|
    && Current(s.db, s.runs[r].box, s.runs[r].version)
  }

  // The log after storing a list: exactly the listed keys are new.
  ghost predicate StoredBy(before: seq<Entry>, after: seq<Entry>, box: BoxId, v: nat, todo: seq<Uid>) {
    forall key :: WasStored(after, key) <==>
      WasStored(before, key) || (key.box == box && key.validity == v && key.uid in todo)
  }

  lemma StoredByJoins(l0: seq<Entry>, l1: seq<Entry>, l2: seq<Entry>, box: BoxId, v: nat, a: seq<Uid>, b: seq<Uid>)
    requires StoredBy(l0, l1, box, v, a) && StoredBy(l1, l2, box, v, b)
    ensures StoredBy(l0, l2, box, v, a + b)
  {
    forall key ensures WasStored(l2, key) <==>
      WasStored(l0, key) || (key.box == box && key.validity == v && key.uid in a + b) {
      assert WasStored(l1, key) <==> WasStored(l0, key) || (key.box == box && key.validity == v && key.uid in a);
    }
  }

  // What storing the head, or the whole list, changes: nothing but the log, the message
  // tables and this run's own variables; `created` counts the rows added.
  ghost predicate Drains(s: State, t: State, r: RunId, todo: seq<Uid>, rest: seq<Uid>)
    requires r in s.runs && s.runs[r].validity.Some?
  {
    && Recorded(t.db)
    && t.db.boxes == s.db.boxes && t.servers == s.servers && t.db.nextBox == s.db.nextBox
    && t.nextRun == s.nextRun
    && StoredBy(s.db.log, t.db.log, s.runs[r].box, s.runs[r].validity.value, todo)
    && r in t.runs
    && t.runs == s.runs[r := s.runs[r].(
         cursor := MaxAll(s.runs[r].cursor, todo), phase := Storing(rest), created := t.runs[r].created)]
    && t.runs[r].created - s.runs[r].created == |t.db.messages| - |s.db.messages|
  }

  lemma AppendStored(log: seq<Entry>, e: Entry, key: Key)
    requires e.Ingested?
    ensures WasStored(log + [e], key) <==> WasStored(log, key) || key == e.key
  {
    if WasStored(log, key) { StoredStays(log, log + [e], key); }
    if key == e.key { assert (log + [e])[|log|] == e; }
  }

  lemma StoreOne(s: State, r: RunId, mails: seq<Mail>)
    requires CanStore(s, r, mails) && mails != []
    ensures var t := Apply(s, Store(r, mails[0].content, mails[0].state, mails[0].risk));
            CanStore(t, r, mails[1..]) && Drains(s, t, r, [s.runs[r].phase.todo[0]], s.runs[r].phase.todo[1..])
  {
    var run := s.runs[r];
    var uid := run.phase.todo[0];
    var key := Key(run.box, run.validity.value, uid);
    var t := Apply(s, Store(r, mails[0].content, mails[0].state, mails[0].risk));
    if HasKey(s.db.messages, key) {
      assert WasStored(s.db.log, key);
    } else {
      var entry := Ingested(s.db.nextMsg, key, mails[0].content);
      assert t.db.log == s.db.log + [entry];
      forall k ensures WasStored(t.db.log, k) <==> WasStored(s.db.log, k) || k == key {
        AppendStored(s.db.log, entry, k);
      }
    }
    assert MaxAll(run.cursor, [uid]) == Max(run.cursor, uid);
  }

  lemma DrainsJoins(s: State, m: State, t: State, r: RunId, uid: Uid, rest: seq<Uid>)
    requires r in s.runs && s.runs[r].validity.Some?
    requires Drains(s, m, r, [uid], rest) && Drains(m, t, r, rest, [])
    ensures Drains(s, t, r, [uid] + rest, [])
  {
    StoredByJoins(s.db.log, m.db.log, t.db.log, s.runs[r].box, s.runs[r].validity.value, [uid], rest);
    var c := s.runs[r].cursor;
    assert ([uid] + rest)[1..] == rest;
    assert MaxAll(c, [uid]) == Max(c, uid);
    assert MaxAll(c, [uid] + rest) == MaxAll(MaxAll(c, [uid]), rest);
  }

  lemma {:induction false} StoreAllEffect(s: State, r: RunId, mails: seq<Mail>)
    requires CanStore(s, r, mails)
    ensures Drains(s, StoreAll(s, r, mails), r, s.runs[r].phase.todo, [])
    decreases |mails|
  {
    var todo := s.runs[r].phase.todo;
    if mails == [] {
    } else {
      var m := Apply(s, Store(r, mails[0].content, mails[0].state, mails[0].risk));
      StoreOne(s, r, mails);
      StoreAllEffect(m, r, mails[1..]);
      assert todo == [todo[0]] + todo[1..];
      DrainsJoins(s, m, StoreAll(m, r, mails[1..]), r, todo[0], todo[1..]);
    }
  }

  // ---------- One whole run, uninterrupted ----------

  function StartCursor(row: Row, sv: Server): Uid {
    if row.validity == Some(sv.validity) then row.lastUid else 0
  }

  function Batch(row: Row, sv: Server, answer: seq<Uid>, batch: nat): seq<Uid> {
    Take(Above(answer, StartCursor(row, sv)), batch)
  }

  ghost predicate CanRun(s: State, box: BoxId, answer: seq<Uid>, batch: nat, mails: seq<Mail>) {
    && Recorded(s.db)
    && box in s.db.boxes && s.db.boxes[box].config.enabled && box in s.servers
    && AnswersSearch(s.servers[box].present, StartCursor(s.db.boxes[box], s.servers[box]) + 1, answer)
    && |mails| == |Batch(s.db.boxes[box], s.servers[box], answer, batch)|
  }

  // Connected, INBOX selected, UIDs searched: the list is ready.
  ghost function Listed(s: State, box: BoxId, answer: seq<Uid>, batch: nat): State {
    Apply(Apply(Apply(s, Begin(box)), Select(s.nextRun)), Search(s.nextRun, answer, batch))
  }

  // The state just before the final update, with the run's return value in `created`.
  ghost function RunUntilFinish(s: State, box: BoxId, answer: seq<Uid>, batch: nat, mails: seq<Mail>): State {
    StoreAll(Listed(s, box, answer, batch), s.nextRun, mails)
  }

  ghost function CleanRun(s: State, box: BoxId, answer: seq<Uid>, batch: nat, mails: seq<Mail>, now: int): State {
    Apply(RunUntilFinish(s, box, answer, batch, mails), Finish(s.nextRun, now))
  }

  lemma ListedEffect(s: State, box: BoxId, answer: seq<Uid>, batch: nat)
    requires box in s.db.boxes && s.db.boxes[box].config.enabled && box in s.servers
    requires AnswersSearch(s.servers[box].present, StartCursor(s.db.boxes[box], s.servers[box]) + 1, answer)
    ensures var t := Listed(s, box, answer, batch);
            var row, sv := s.db.boxes[box], s.servers[box];
            && t == s.(runs := t.runs, nextRun := s.nextRun + 1)
            && s.nextRun in t.runs
            && t.runs[s.nextRun] == WorkerRun(box, row.version, Some(sv.validity), StartCursor(row, sv),
                                              Storing(Batch(row, sv, answer, batch)), 0)
  {
    var row, sv := s.db.boxes[box], s.servers[box];
    var s2 := Apply(Apply(s, Begin(box)), Select(s.nextRun));
    assert s2.runs[s.nextRun] == WorkerRun(box, row.version, Some(sv.validity), StartCursor(row, sv), Selected, 0);
  }

  ghost predicate CleanRunDone(s: State, t: State, box: BoxId, todo: seq<Uid>, now: int)
    requires box in s.db.boxes && box in s.servers
  {
    var row, sv := s.db.boxes[box], s.servers[box];
    && Recorded(t.db)
    && t.servers == s.servers
    && t.db.boxes == s.db.boxes[box := row.(
         validity := Some(sv.validity), lastUid := MaxAll(StartCursor(row, sv), todo),
         lastSync := Some(now), errorCode := "")]
    && StoredBy(s.db.log, t.db.log, box, sv.validity, todo)
  }

  lemma FinishEffect(u: State, r: RunId, now: int)
    requires Recorded(u.db) && r in u.runs && u.runs[r].phase == Storing([])
    requires Current(u.db, u.runs[r].box, u.runs[r].version)
    ensures var t := Apply(u, Finish(r, now));
            var box := u.runs[r].box;
            && Recorded(t.db) && t.servers == u.servers
            && t.db.log == u.db.log && t.db.messages == u.db.messages
            && t.db.boxes == u.db.boxes[box := u.db.boxes[box].(
                 validity := u.runs[r].validity, lastUid := u.runs[r].cursor, lastSync := Some(now), errorCode := "")]
  {
  }

  lemma CleanRunEffect(s: State, box: BoxId, answer: seq<Uid>, batch: nat, mails: seq<Mail>, now: int)
    requires CanRun(s, box, answer, batch, mails)
    ensures var u := RunUntilFinish(s, box, answer, batch, mails);
            var t := CleanRun(s, box, answer, batch, mails, now);
            && s.nextRun in u.runs && u.runs[s.nextRun].created == |t.db.messages| - |s.db.messages|
            && CleanRunDone(s, t, box, Batch(s.db.boxes[box], s.servers[box], answer, batch), now)
  {
    var s3 := Listed(s, box, answer, batch);
    ListedEffect(s, box, answer, batch);
    assert CanStore(s3, s.nextRun, mails);
    StoreAllEffect(s3, s.nextRun, mails);
    FinishEffect(RunUntilFinish(s, box, answer, batch, mails), s.nextRun, now);
  }

  // ---------- Which SEARCH orders are safe ----------

  // What the batch cut leaves behind lies above everything in the batch, or is stored already.
  ghost predicate CutLeavesNothing(log: seq<Entry>, box: BoxId, v: nat, above: seq<Uid>, batch: nat) {
    forall i, j :: 0 <= i < batch <= j < |above| && above[j] < above[i]
      ==> above[j] in above[..batch] || WasStored(log, Key(box, v, above[j]))
  }

  /** An uninterrupted run keeps the cursor sound exactly when the cut leaves nothing behind. */
  lemma {:induction false} SearchOrderCondition(
    s: State, box: BoxId, answer: seq<Uid>, batch: nat, mails: seq<Mail>, now: int)
    requires CanRun(s, box, answer, batch, mails) && Inv(s)
    ensures var t := CleanRun(s, box, answer, batch, mails, now);
            var sv := s.servers[box];
            && box in t.db.boxes
            && (RowOk(t, box, t.db.boxes[box]) <==>
                CutLeavesNothing(s.db.log, box, sv.validity, Above(answer, StartCursor(s.db.boxes[box], sv)), batch))
  {
    CleanRunEffect(s, box, answer, batch, mails, now);
    var t := CleanRun(s, box, answer, batch, mails, now);
    var row, sv := s.db.boxes[box], s.servers[box];
    assert RowOk(s, box, row);
    CutCondition(sv, s.db.log, t.db.log, box, StartCursor(row, sv), Above(answer, StartCursor(row, sv)), batch);
  }

  /** With an answer out of order the batch cut can skip a message: UIDs 3 and 9 are there, the
      answer names 9 first, and a batch of one moves the cursor to 9. */
  lemma UnorderedAnswerSkips(config: Config, mail: Mail)
    requires config.enabled
    ensures var s := Apply(INIT, Create(config, "inbox", Server(1, 10, {3, 9})));
            CanRun(s, 0, [9, 3], 1, [mail]) && !CursorSound(CleanRun(s, 0, [9, 3], 1, [mail], 0))
  {
    var s := Apply(INIT, Create(config, "inbox", Server(1, 10, {3, 9})));
    AboveOfTwo();
    var todo := Batch(s.db.boxes[0], s.servers[0], [9, 3], 1);
    assert todo == [9];
    CleanRunEffect(s, 0, [9, 3], 1, [mail], 0);
    var t := CleanRun(s, 0, [9, 3], 1, [mail], 0);
    assert !WasStored(t.db.log, Key(0, 1, 3));
    assert t.db.boxes[0].lastUid == 9 && 3 in t.servers[0].present;
  }

  lemma AboveOfTwo()
    ensures Above([9, 3], 0) == [9, 3]
  {
    assert [9, 3][1..] == [3] && [3][1..] == [];
  }

  lemma CutCondition(
    sv: Server, before: seq<Entry>, after: seq<Entry>, box: BoxId, start: Uid, above: seq<Uid>, batch: nat)
    requires ServerOk(sv) && CursorOk(sv, before, box, Some(sv.validity), start)
    requires forall u :: u in above <==> u in sv.present && start < u
    requires StoredBy(before, after, box, sv.validity, Take(above, batch))
    ensures CursorOk(sv, after, box, Some(sv.validity), MaxAll(start, Take(above, batch)))
            <==> CutLeavesNothing(before, box, sv.validity, above, batch)
  {
    var todo := Take(above, batch);
    var last := MaxAll(start, todo);
    assert forall u :: u in todo ==> u in above;
    if CutLeavesNothing(before, box, sv.validity, above, batch) {
      forall u | u in sv.present && u <= last ensures WasStored(after, Key(box, sv.validity, u)) {
        if start < u && u !in todo {
          var j :| 0 <= j < |above| && above[j] == u;
          var i :| 0 <= i < |todo| && todo[i] == last;
          assert batch <= j && above[i] == last && above[j] < above[i];
        }
      }
    }
    if CursorOk(sv, after, box, Some(sv.validity), last) {
      forall i, j | 0 <= i < batch <= j < |above| && above[j] < above[i]
        ensures above[j] in above[..batch] || WasStored(before, Key(box, sv.validity, above[j]))
      {
        assert todo == above[..batch] && above[i] == todo[i] && above[i] in todo;
        assert above[j] in above && above[j] <= last;
        assert WasStored(after, Key(box, sv.validity, above[j]));
      }
    }
  }

  // ---------- Progress ----------

  function Elems(uids: seq<Uid>): set<Uid> { set u | u in uids }

  function NewerThan(present: set<Uid>, cursor: Uid): set<Uid> { set u | u in present && cursor < u }

  // The new messages: what the server holds above the cursor a run would start from.
  function Pending(s: State, box: BoxId): set<Uid>
    requires box in s.db.boxes && box in s.servers
  {
    NewerThan(s.servers[box].present, StartCursor(s.db.boxes[box], s.servers[box]))
  }

  ghost function Returned(u: State, r: RunId): nat { if r in u.runs then u.runs[r].created else 0 }

  // One fault-free run with this batch size turns s into t and returns `created`.
  ghost predicate CleanRunStep(s: State, t: State, box: BoxId, batch: nat, created: nat) {
    exists answer, mails, now ::
      && Ascending(answer) && CanRun(s, box, answer, batch, mails)
      && t == CleanRun(s, box, answer, batch, mails, now)
      && created == Returned(RunUntilFinish(s, box, answer, batch, mails), s.nextRun)
  }

  lemma {:induction false} AscendingHasNoRepeats(uids: seq<Uid>)
    requires Ascending(uids)
    ensures |Elems(uids)| == |uids|
  {
    if uids != [] {
      var n := |uids| - 1;
      AscendingHasNoRepeats(uids[..n]);
      assert uids == uids[..n] + [uids[n]];
      assert Elems(uids) == Elems(uids[..n]) + {uids[n]};
    }
  }

  lemma TakeIsBelow(above: seq<Uid>, start: Uid, batch: nat, u: Uid)
    requires Ascending(above) && u in above && forall w :: w in above ==> start < w
    ensures u in Take(above, batch) <==> u <= MaxAll(start, Take(above, batch))
  {
    var todo := Take(above, batch);
    var k :| 0 <= k < |above| && above[k] == u;
    if k < |todo| {
      assert todo[k] == u;
    } else if MaxAll(start, todo) in todo {
      var i :| 0 <= i < |todo| && todo[i] == MaxAll(start, todo);
    }
  }

  // The batch is the smallest pending UIDs; the new cursor is the largest of them.
  lemma BatchIsSmallest(start: Uid, present: set<Uid>, above: seq<Uid>, batch: nat)
    requires Ascending(above) && forall u :: u in above <==> u in present && start < u
    ensures var todo := Take(above, batch);
            && Elems(todo) <= NewerThan(present, start)
            && NewerThan(present, MaxAll(start, todo)) == NewerThan(present, start) - Elems(todo)
  {
    var todo := Take(above, batch);
    forall u | u in above ensures u in todo <==> u <= MaxAll(start, todo) {
      TakeIsBelow(above, start, batch, u);
    }
    forall u | u in todo ensures u in above {}
  }

  lemma BatchDrainsPending(start: Uid, present: set<Uid>, above: seq<Uid>, batch: nat)
    requires Ascending(above) && forall u :: u in above <==> u in present && start < u
    ensures var todo := Take(above, batch);
            var before, after := NewerThan(present, start), NewerThan(present, MaxAll(start, todo));
            && after == before - Elems(todo)
            && |after| == if batch < |before| then |before| - batch else 0
  {
    BatchIsSmallest(start, present, above, batch);
    assert NewerThan(present, start) == Elems(above);
    BatchSize(above, batch);
    Difference(Elems(above), Elems(Take(above, batch)));
  }

  lemma BatchSize(above: seq<Uid>, batch: nat)
    requires Ascending(above)
    ensures |Elems(above)| == |above|
    ensures |Elems(Take(above, batch))| == if batch < |above| then batch else |above|
  {
    AscendingHasNoRepeats(above);
    AscendingHasNoRepeats(Take(above, batch));
  }

  lemma Difference(a: set<Uid>, b: set<Uid>)
    requires b <= a
    ensures |a - b| == |a| - |b|
  {
    assert a == (a - b) + b;
  }

  // What one fault-free run does to the new messages.
  ghost predicate DrainStep(s: State, t: State, box: BoxId, batch: nat, created: nat) {
    && box in s.db.boxes && box in s.servers && box in t.db.boxes
    && t.servers == s.servers
    && |t.db.messages| == |s.db.messages| + created
    && |Pending(t, box)| == (if batch < |Pending(s, box)| then |Pending(s, box)| - batch else 0)
    && Pending(t, box) <= Pending(s, box)
    && (forall key :: WasStored(s.db.log, key) ==> WasStored(t.db.log, key))
    && (forall u :: u in Pending(s, box) - Pending(t, box) ==>
          WasStored(t.db.log, Key(box, s.servers[box].validity, u)))
  }

  lemma AboveIsNew(present: set<Uid>, start: Uid, answer: seq<Uid>)
    requires AnswersSearch(present, start + 1, answer)
    ensures forall u :: u in Above(answer, start) <==> u in present && start < u
  {
  }

  lemma OneCleanRun(s: State, t: State, box: BoxId, batch: nat, created: nat)
    requires CleanRunStep(s, t, box, batch, created)
    ensures DrainStep(s, t, box, batch, created)
  {
    var answer, mails, now :|
      && Ascending(answer) && CanRun(s, box, answer, batch, mails)
      && t == CleanRun(s, box, answer, batch, mails, now)
      && created == Returned(RunUntilFinish(s, box, answer, batch, mails), s.nextRun);
    CleanRunEffect(s, box, answer, batch, mails, now);
    var start, present := StartCursor(s.db.boxes[box], s.servers[box]), s.servers[box].present;
    var above := Above(answer, start);
    AboveIsNew(present, start, answer);
    assert Elems(above) == NewerThan(present, start);
    DoneDrainsBatch(s, t, box, above, batch, created, now);
  }

  lemma DoneDrainsBatch(s: State, t: State, box: BoxId, above: seq<Uid>, batch: nat, created: nat, now: int)
    requires box in s.db.boxes && box in s.servers && |t.db.messages| == |s.db.messages| + created
    requires Ascending(above) && Elems(above) == Pending(s, box)
    requires CleanRunDone(s, t, box, Take(above, batch), now)
    ensures DrainStep(s, t, box, batch, created)
  {
    var start, present := StartCursor(s.db.boxes[box], s.servers[box]), s.servers[box].present;
    var todo := Take(above, batch);
    assert forall u :: u in above <==> u in Elems(above);
    BatchDrainsPending(start, present, above, batch);
    DoneDrains(s, t, box, todo, now);
    assert Pending(t, box) == Pending(s, box) - Elems(todo);
  }

  lemma DoneDrains(s: State, t: State, box: BoxId, todo: seq<Uid>, now: int)
    requires box in s.db.boxes && box in s.servers && CleanRunDone(s, t, box, todo, now)
    ensures box in t.db.boxes && box in t.servers
    ensures Pending(t, box) ==
              NewerThan(s.servers[box].present, MaxAll(StartCursor(s.db.boxes[box], s.servers[box]), todo))
    ensures forall key :: WasStored(s.db.log, key) ==> WasStored(t.db.log, key)
    ensures forall u :: u in todo ==> WasStored(t.db.log, Key(box, s.servers[box].validity, u))
  {
  }

  function Sum(ns: seq<nat>): nat { if ns == [] then 0 else Sum(ns[..|ns| - 1]) + ns[|ns| - 1] }

  ghost predicate CleanRunSeries(states: seq<State>, box: BoxId, batch: nat, counts: seq<nat>) {
    && |states| == |counts| + 1
    && (forall i :: 0 <= i < |counts| ==> CleanRunStep(states[i], states[i + 1], box, batch, counts[i]))
    && box in states[0].db.boxes && box in states[0].servers
  }

  function Left(m: nat, k: nat, batch: nat): nat { if k * batch < m then m - k * batch else 0 }

  lemma LeftStep(m: nat, k: nat, batch: nat)
    ensures Left(m, 0, batch) == m
    ensures Left(m, k + 1, batch) == if batch < Left(m, k, batch) then Left(m, k, batch) - batch else 0
  {
    assert (k + 1) * batch == k * batch + batch;
  }

  // k runs in a row: what is left, what was added, what is stored.
  ghost predicate Drained(first: State, last: State, box: BoxId, batch: nat, k: nat, added: nat)
    requires box in first.db.boxes && box in first.servers
  {
    && box in last.db.boxes && last.servers == first.servers
    && |last.db.messages| == |first.db.messages| + added
    && Pending(last, box) <= Pending(first, box)
    && |Pending(last, box)| == Left(|Pending(first, box)|, k, batch)
    && (forall u :: u in Pending(first, box) - Pending(last, box)
          ==> WasStored(last.db.log, Key(box, first.servers[box].validity, u)))
  }

  lemma DrainedStep(first: State, mid: State, last: State, box: BoxId, batch: nat, k: nat, added: nat, created: nat)
    requires box in first.db.boxes && box in first.servers
    requires Drained(first, mid, box, batch, k, added) && DrainStep(mid, last, box, batch, created)
    ensures Drained(first, last, box, batch, k + 1, added + created)
  {
    LeftStep(|Pending(first, box)|, k, batch);
    forall u | u in Pending(first, box) - Pending(last, box)
      ensures WasStored(last.db.log, Key(box, first.servers[box].validity, u))
    {
      if u in Pending(mid, box) { assert u in Pending(mid, box) - Pending(last, box); }
    }
  }

  lemma {:induction false} DrainSeries(states: seq<State>, box: BoxId, batch: nat, counts: seq<nat>)
    requires |states| == |counts| + 1 && box in states[0].db.boxes && box in states[0].servers
    requires forall i :: 0 <= i < |counts| ==> DrainStep(states[i], states[i + 1], box, batch, counts[i])
    ensures Drained(states[0], states[|counts|], box, batch, |counts|, Sum(counts))
    decreases |counts|
  {
    var k := |counts|;
    if k == 0 {
      LeftStep(|Pending(states[0], box)|, 0, batch);
    } else {
      var shorter := states[..k];
      forall i | 0 <= i < k - 1 ensures DrainStep(shorter[i], shorter[i + 1], box, batch, counts[..k - 1][i]) {
        assert DrainStep(states[i], states[i + 1], box, batch, counts[i]);
      }
      DrainSeries(shorter, box, batch, counts[..k - 1]);
      DrainedStep(states[0], states[k - 1], states[k], box, batch, k - 1, Sum(counts[..k - 1]), counts[k - 1]);
    }
  }

  /** k runs of batch size b leave exactly max(0, m - k*b) of m new messages, so ceil(m/b) runs
      and no fewer drain the inbox; what is no longer pending is stored, and the returned
      counts add up to the rows added. */
  lemma {:induction false} RunsDrainTheInbox(states: seq<State>, box: BoxId, batch: nat, counts: seq<nat>)
    requires CleanRunSeries(states, box, batch, counts)
    ensures Drained(states[0], states[|counts|], box, batch, |counts|, Sum(counts))
  {
    forall i | 0 <= i < |counts| ensures DrainStep(states[i], states[i + 1], box, batch, counts[i]) {
      OneCleanRun(states[i], states[i + 1], box, batch, counts[i]);
    }
    DrainSeries(states, box, batch, counts);
  }
}
