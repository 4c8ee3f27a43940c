/**
 Progress from any reachable state: a fault-free run exists, and as many of them as the new
 messages fill batches leave none pending, while fewer do not.
 */
module InboxDrains {
  import opened Wrappers
  import opened MailboxModel
  import opened CursorSoundness
  import opened CleanRuns
  import MessageHistory

  // A fault-free run can start here.
  ghost predicate CanSync(s: State, box: BoxId) {
    Recorded(s.db) && box in s.db.boxes && s.db.boxes[box].config.enabled && box in s.servers
  }

  lemma ServedStep(s: State, e: Event)
    requires s.db.boxes.Keys <= s.servers.Keys
    ensures Apply(s, e).db.boxes.Keys <= Apply(s, e).servers.Keys
  {
  }

  lemma {:induction false} EveryMailboxHasAServer(es: seq<Event>)
    ensures Replay(INIT, es).db.boxes.Keys <= Replay(INIT, es).servers.Keys
  {
    if es != [] {
      EveryMailboxHasAServer(es[..|es| - 1]);
      ServedStep(Replay(INIT, es[..|es| - 1]), es[|es| - 1]);
    }
  }

  // In every reachable state every enabled mailbox can be synchronised.
  lemma EnabledCanSync(es: seq<Event>, box: BoxId)
    requires box in Replay(INIT, es).db.boxes && Replay(INIT, es).db.boxes[box].config.enabled
    ensures CanSync(Replay(INIT, es), box)
  {
    EveryMailboxHasAServer(es);
    MessageHistory.InvHolds(es);
    var db := Replay(INIT, es).db;
    forall id | id in db.messages ensures id < db.nextMsg && WasStored(db.log, db.messages[id].key) {
      assert MessageHistory.MessageOk(db, id);
      var i :| 0 <= i < |db.log| && db.log[i] == Ingested(id, db.messages[id].key, db.messages[id].content);
    }
  }

  lemma {:induction false} Largest(s: set<Uid>) returns (m: Uid)
    requires s != {}
    ensures m in s && forall u :: u in s ==> u <= m
  {
    var some :| some in s;
    var rest := s - {some};
    m := some;
    if rest != {} {
      var other := Largest(rest);
      if some < other { m := other; }
    }
    forall u | u in s ensures u <= m { assert u == some || u in rest; }
  }

  // The server can name any set of UIDs in order.
  lemma {:induction false} InOrder(s: set<Uid>) returns (uids: seq<Uid>)
    ensures Ascending(uids) && forall u :: u in uids <==> u in s
    decreases |s|
  {
    if s == {} {
      uids := [];
    } else {
      var m := Largest(s);
      var front := InOrder(s - {m});
      assert forall u :: u in front ==> u in s - {m};
      uids := front + [m];
      AppendLargest(front, m);
      forall u ensures u in uids <==> u in s { assert u in front <==> u in s - {m}; }
    }
  }

  lemma AppendLargest(front: seq<Uid>, m: Uid)
    requires Ascending(front) && forall u :: u in front ==> u < m
    ensures Ascending(front + [m])
    ensures forall u :: u in front + [m] <==> u in front || u == m
  {
    forall i | 0 <= i < |front| ensures front[i] < m { assert front[i] in front; }
  }

  lemma RunExists(s: State, box: BoxId, batch: nat) returns (t: State, created: nat)
    requires CanSync(s, box)
    ensures CleanRunStep(s, t, box, batch, created) && CanSync(t, box)
  {
    var row, sv := s.db.boxes[box], s.servers[box];
    var from := StartCursor(row, sv) + 1;
    var answer := InOrder(set u | u in sv.present && (from <= u || IsLast(sv.present, u)));
    var mails := seq(|Batch(row, sv, answer, batch)|, _ => Mail(Content("", []), Quarantined, Low));
    t := CleanRun(s, box, answer, batch, mails, 0);
    created := Returned(RunUntilFinish(s, box, answer, batch, mails), s.nextRun);
    CleanRunEffect(s, box, answer, batch, mails, 0);
  }

  lemma {:induction false} SeriesExists(s: State, box: BoxId, batch: nat, k: nat)
    returns (states: seq<State>, counts: seq<nat>)
    requires CanSync(s, box)
    ensures |counts| == k && CleanRunSeries(states, box, batch, counts) && states[0] == s && CanSync(states[k], box)
  {
    if k == 0 {
      states, counts := [s], [];
    } else {
      var before, returned := SeriesExists(s, box, batch, k - 1);
      var t, created := RunExists(before[k - 1], box, batch);
      states, counts := before + [t], returned + [created];
      forall i | 0 <= i < k ensures CleanRunStep(states[i], states[i + 1], box, batch, counts[i]) {
        if i < k - 1 { assert CleanRunStep(before[i], before[i + 1], box, batch, returned[i]); }
      }
    }
  }

  // ceil(m / b)
  function Rounds(m: nat, batch: nat): nat
    requires 1 <= batch
  {
    (m + batch - 1) / batch
  }

  lemma TimesUp(j: nat, k: nat, batch: nat)
    requires j <= k
    ensures j * batch <= k * batch
  {
    assert k * batch == j * batch + (k - j) * batch;
  }

  lemma RoundsSuffice(m: nat, batch: nat, k: nat)
    requires 1 <= batch
    ensures Left(m, k, batch) == 0 <==> Rounds(m, batch) <= k
  {
    var q := Rounds(m, batch);
    assert q * batch <= m + batch - 1 < q * batch + batch;
    if q <= k {
      TimesUp(q, k, batch);
    } else {
      TimesUp(k, q - 1, batch);
      assert (q - 1) * batch == q * batch - batch;
    }
  }

  /** A series of fault-free runs leaves nothing pending if and only if it has as many runs as the new
      messages fill batches. */
  lemma {:induction false} DrainedIff(states: seq<State>, box: BoxId, batch: nat, counts: seq<nat>)
    requires 1 <= batch && CleanRunSeries(states, box, batch, counts)
    ensures Drained(states[0], states[|counts|], box, batch, |counts|, Sum(counts))
    ensures Pending(states[|counts|], box) == {} <==> Rounds(|Pending(states[0], box)|, batch) <= |counts|
  {
    RunsDrainTheInbox(states, box, batch, counts);
    RoundsSuffice(|Pending(states[0], box)|, batch, |counts|);
  }

  /** From every reachable state with an enabled mailbox that many runs exist, and after them nothing
      is pending. */
  lemma {:induction false} EveryInboxDrains(es: seq<Event>, box: BoxId, batch: nat)
    returns (states: seq<State>, counts: seq<nat>)
    requires box in Replay(INIT, es).db.boxes && Replay(INIT, es).db.boxes[box].config.enabled && 1 <= batch
    ensures CleanRunSeries(states, box, batch, counts) && states[0] == Replay(INIT, es)
    ensures |counts| == Rounds(|Pending(states[0], box)|, batch)
    ensures Drained(states[0], states[|counts|], box, batch, |counts|, Sum(counts))
    ensures Pending(states[|counts|], box) == {}
  {
    EnabledCanSync(es, box);
    var s := Replay(INIT, es);
    states, counts := SeriesExists(s, box, batch, Rounds(|Pending(s, box)|, batch));
    DrainedIff(states, box, batch, counts);
  }
}
