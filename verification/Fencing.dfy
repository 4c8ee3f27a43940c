/**
 Configuration versions: what changes them, what changes a cursor, and why a run that
 captured an earlier version can never write again, even if the old values come back.
 */
module Fencing {
  import opened MailboxModel

  predicate Registered(s: State, run: WorkerRun) {
    && run.box < s.db.nextBox
    && (run.box in s.db.boxes ==> run.version <= s.db.boxes[run.box].version)
  }

  ghost predicate Inv(s: State) {
    && (forall b :: b in s.db.boxes ==> b < s.db.nextBox)
    && (forall r :: r in s.runs ==> r < s.nextRun && Registered(s, s.runs[r]))
  }

  /** Every event moves a row's version by exactly one when a watched column changes and not
      otherwise, and only a run's final update moves UIDVALIDITY or the cursor. */
  lemma RowLaw(s: State, e: Event, box: BoxId)
    requires Inv(s) && box in s.db.boxes && box in Apply(s, e).db.boxes
    ensures var was, now := s.db.boxes[box], Apply(s, e).db.boxes[box];
            && now.version == was.version + (if now.config != was.config then 1 else 0)
            && (!e.Finish? ==> now.validity == was.validity && now.lastUid == was.lastUid)
            && (now.config != was.config ==> e.Edit? || e.RotateKeys?)
  {
  }

  lemma RunsKeepVersion(s: State, e: Event, r: RunId)
    requires Inv(s) && r in Apply(s, e).runs
    ensures r in s.runs && r < s.nextRun ==>
              Apply(s, e).runs[r].box == s.runs[r].box && Apply(s, e).runs[r].version == s.runs[r].version
    ensures r !in s.runs ==> r == s.nextRun && Registered(Apply(s, e), Apply(s, e).runs[r])
  {
  }

  // No mailbox or run number is given out twice.
  lemma Numbers(s: State, e: Event)
    requires Inv(s)
    ensures s.nextRun <= Apply(s, e).nextRun && s.db.nextBox <= Apply(s, e).db.nextBox
    ensures forall b :: b in Apply(s, e).db.boxes ==>
              b < Apply(s, e).db.nextBox && (b in s.db.boxes || s.db.nextBox <= b)
    ensures forall r :: r in Apply(s, e).runs ==> r < Apply(s, e).nextRun
  {
  }

  lemma Step(s: State, e: Event)
    requires Inv(s)
    ensures Inv(Apply(s, e))
    ensures s.nextRun <= Apply(s, e).nextRun && s.db.nextBox <= Apply(s, e).db.nextBox
  {
    var t := Apply(s, e);
    Numbers(s, e);
    forall r | r in t.runs ensures Registered(t, t.runs[r]) {
      RunsKeepVersion(s, e, r);
      if r in s.runs && s.runs[r].box in t.db.boxes { RowLaw(s, e, s.runs[r].box); }
    }
  }

  lemma {:induction false} InvHolds(es: seq<Event>)
    ensures Inv(Replay(INIT, es))
  {
    if es != [] {
      InvHolds(es[..|es| - 1]);
      Step(Replay(INIT, es[..|es| - 1]), es[|es| - 1]);
    }
  }

  // The run's mailbox is gone or has moved past the captured version, or the run is over.
  predicate Fenced(s: State, r: RunId) {
    && r < s.nextRun
    && (r in s.runs ==>
          var run := s.runs[r];
          run.box < s.db.nextBox && (run.box in s.db.boxes ==> run.version < s.db.boxes[run.box].version))
  }

  lemma FencedStays(s: State, e: Event, r: RunId)
    requires Inv(s) && Fenced(s, r)
    ensures Fenced(Apply(s, e), r)
  {
    Step(s, e);
    var t := Apply(s, e);
    if r in t.runs {
      RunsKeepVersion(s, e, r);
      var box := s.runs[r].box;
      if box in t.db.boxes { RowLaw(s, e, box); }
    }
  }

  lemma {:induction false} FencedForever(s: State, es: seq<Event>, r: RunId)
    requires Inv(s) && Fenced(s, r)
    ensures Inv(Replay(s, es)) && Fenced(Replay(s, es), r)
  {
    if es != [] {
      FencedForever(s, es[..|es| - 1], r);
      Step(Replay(s, es[..|es| - 1]), es[|es| - 1]);
      FencedStays(Replay(s, es[..|es| - 1]), es[|es| - 1], r);
    }
  }

  lemma FencedIsHarmless(s: State, e: Event, r: RunId)
    requires Fenced(s, r) && OfRun(e, r)
    ensures Apply(s, e).db == s.db
  {
  }

  /** Once an event has changed a watched column of a mailbox, or deleted it, no step of a run
      that was already under way on it changes a table, whatever happens in between. */
  lemma {:induction false} ChangeFencesRuns(before: seq<Event>, change: Event, after: seq<Event>, e: Event, r: RunId)
    requires var s, t := Replay(INIT, before), Replay(INIT, before + [change]);
             && r in s.runs && s.runs[r].box in s.db.boxes
             && (s.runs[r].box in t.db.boxes ==> t.db.boxes[s.runs[r].box].config != s.db.boxes[s.runs[r].box].config)
    requires OfRun(e, r)
    ensures var u := Replay(INIT, before + [change] + after);
            Apply(u, e).db == u.db
  {
    var s, t := Replay(INIT, before), Replay(INIT, before + [change]);
    assert t == Apply(s, change) by { assert (before + [change])[..|before|] == before; }
    InvHolds(before);
    Step(s, change);
    var box := s.runs[r].box;
    if box in t.db.boxes { RowLaw(s, change, box); }
    assert Fenced(t, r);
    ReplayAppend(INIT, before + [change], after);
    FencedForever(t, after, r);
    FencedIsHarmless(Replay(t, after), e, r);
  }
}
