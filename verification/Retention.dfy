/**
 Retention: which rows a policy matches, and the batched delete loop that runs while others
 ingest mail, decide on messages, issue and revoke tokens and write audit rows.
 */
module Retention {
  import opened Wrappers

  type Id = nat
  type Time = int

  const DAY: Time := 86_400_000_000

  datatype MsgState = Quarantined | Approved | Rejected
  datatype Message = Message(state: MsgState, decidedAt: Option<Time>, ingestedAt: Time)
  datatype Token = Token(revokedAt: Option<Time>, expiresAt: Option<Time>)

  datatype Db = Db(messages: map<Id, Message>, tokens: map<Id, Token>, audit: map<Id, Time>)

  datatype Category = OfState(state: MsgState) | InactiveTokens | AuditEvents

  datatype Policy = Policy(approvedDays: int, quarantinedDays: int, rejectedDays: int, tokenDays: int, auditDays: int)

  predicate PolicyOk(p: Policy) {
    && 0 <= p.approvedDays <= 36500 && 0 <= p.quarantinedDays <= 36500 && 0 <= p.rejectedDays <= 36500
    && 0 <= p.tokenDays <= 36500 && 0 <= p.auditDays <= 36500
  }

  function Days(p: Policy, c: Category): int {
    match c
    case OfState(Approved) => p.approvedDays
    case OfState(Quarantined) => p.quarantinedDays
    case OfState(Rejected) => p.rejectedDays
    case InactiveTokens => p.tokenDays
    case AuditEvents => p.auditDays
  }

  function Cutoff(p: Policy, now: Time, c: Category): Time { now - Days(p, c) * DAY }

  // coalesce(decided_at, ingested_at)
  function RetentionTime(m: Message): Time { if m.decidedAt.Some? then m.decidedAt.value else m.ingestedAt }

  // retention_querysets.
  function Matching(db: Db, c: Category, cutoff: Time): set<Id> {
    match c
    case OfState(s) =>
      set id | id in db.messages && db.messages[id].state == s
        && RetentionTime(db.messages[id]) < cutoff
    case InactiveTokens =>
      set id | id in db.tokens
        && (if db.tokens[id].revokedAt.Some? then db.tokens[id].revokedAt.value < cutoff
            else db.tokens[id].expiresAt.Some? && db.tokens[id].expiresAt.value < cutoff)
    case AuditEvents => set id | id in db.audit && db.audit[id] < cutoff
  }

  function Delete(db: Db, c: Category, ids: set<Id>): Db {
    match c
    case OfState(_) => db.(messages := db.messages - ids)
    case InactiveTokens => db.(tokens := db.tokens - ids)
    case AuditEvents => db.(audit := db.audit - ids)
  }

  // ---------- Everyone else ----------

  datatype Event =
    | Ingest(id: Id, at: Time)
    | Decide(id: Id, approve: bool, at: Time)
    | IssueToken(id: Id, expiresAt: Option<Time>, at: Time)
    | RevokeToken(id: Id, at: Time)
    | AddAudit(id: Id, at: Time)
    | DeleteMailbox(messages: set<Id>, at: Time)

  function Apply(db: Db, e: Event): Db {
    match e
    case Ingest(id, at) =>
      if id in db.messages then db else db.(messages := db.messages[id := Message(Quarantined, Some(at), at)])
    case Decide(id, approve, at) =>
      if id !in db.messages then db
      else
        var decided := db.messages[id].(state := if approve then Approved else Rejected, decidedAt := Some(at));
        db.(messages := db.messages[id := decided])
    case IssueToken(id, expiresAt, at) =>
      if id in db.tokens then db else db.(tokens := db.tokens[id := Token(None, expiresAt)])
    case RevokeToken(id, at) =>
      if id !in db.tokens || db.tokens[id].revokedAt.Some? then db
      else db.(tokens := db.tokens[id := db.tokens[id].(revokedAt := Some(at))])
    case AddAudit(id, at) => if id in db.audit then db else db.(audit := db.audit[id := at])
    case DeleteMailbox(ids, _) => db.(messages := db.messages - ids)
  }

  // The time the event stamps on a row is not before the cutoff.
  predicate Fresh(e: Event, cutoff: Time) {
    match e
    case IssueToken(_, expiresAt, _) => expiresAt.Some? ==> cutoff <= expiresAt.value
    case DeleteMailbox(_, _) => true
    case _ => cutoff <= e.at
  }

  // Whatever the tables hold, the event adds no row that retention matches in any category.
  ghost predicate NeverAddsMatches(e: Event, cutoff: Time) {
    forall db, c :: Matching(Apply(db, e), c, cutoff) <= Matching(db, c, cutoff)
  }

  lemma OthersNeverAddMatches(db: Db, e: Event, c: Category, cutoff: Time)
    requires Fresh(e, cutoff)
    ensures Matching(Apply(db, e), c, cutoff) <= Matching(db, c, cutoff)
  {
  }

  // Tables in which a stale event adds a match.
  function Witness(e: Event): (Db, Category) {
    var empty := Db(map[], map[], map[]);
    match e
    case Decide(id, approve, _) =>
      (empty.(messages := map[id := Message(Quarantined, None, 0)]), OfState(if approve then Approved else Rejected))
    case RevokeToken(id, _) => (empty.(tokens := map[id := Token(None, None)]), InactiveTokens)
    case Ingest(_, _) => (empty, OfState(Quarantined))
    case AddAudit(_, _) => (empty, AuditEvents)
    case IssueToken(_, _, _) => (empty, InactiveTokens)
    case DeleteMailbox(_, _) => (empty, AuditEvents)
  }

  lemma StaleAddsMatch(e: Event, cutoff: Time)
    requires !Fresh(e, cutoff)
    ensures var (db, c) := Witness(e); !(Matching(Apply(db, e), c, cutoff) <= Matching(db, c, cutoff))
  {
    var (db, c) := Witness(e);
    assert e.id in Matching(Apply(db, e), c, cutoff) && e.id !in Matching(db, c, cutoff);
  }

  /** Nobody else ever adds a row that retention matches if and only if what they stamp on it, with a
      clock read or as an expiry, is not before the cutoff. */
  lemma StaleCondition(e: Event, cutoff: Time)
    ensures NeverAddsMatches(e, cutoff) <==> Fresh(e, cutoff)
  {
    if Fresh(e, cutoff) {
      forall db, c ensures Matching(Apply(db, e), c, cutoff) <= Matching(db, c, cutoff) {
        OthersNeverAddMatches(db, e, c, cutoff);
      }
    } else {
      StaleAddsMatch(e, cutoff);
    }
  }

  // Deleting in one category leaves the others' rows alone.
  lemma CategoriesAreApart(db: Db, c: Category, d: Category, cutoffC: Time, cutoffD: Time)
    requires c != d
    ensures Matching(Delete(db, c, Matching(db, c, cutoffC)), d, cutoffD) == Matching(db, d, cutoffD)
  {
  }

  lemma DeletedNoLongerMatch(db: Db, c: Category, cutoff: Time, ids: set<Id>)
    ensures Matching(Delete(db, c, ids), c, cutoff) == Matching(db, c, cutoff) - ids
  {
  }

  lemma DeleteJoins(db: Db, c: Category, a: set<Id>, b: set<Id>)
    ensures Delete(Delete(db, c, a), c, b) == Delete(db, c, a + b)
  {
  }

  // ---------- One category's purge, as it interleaves with everyone else ----------

  datatype Step = Other(event: Event) | Batch(ids: set<Id>)

  function Take(db: Db, c: Category, s: Step): Db {
    match s
    case Other(e) => Apply(db, e)
    case Batch(ids) => Delete(db, c, ids)
  }

  // Others only write fresh rows; a batch holds only rows that match at the moment it is deleted.
  predicate Allowed(db: Db, c: Category, cutoff: Time, s: Step) {
    match s
    case Other(e) => Fresh(e, cutoff)
    case Batch(ids) => ids <= Matching(db, c, cutoff)
  }

  function Replay(db: Db, c: Category, run: seq<Step>): Db {
    if run == [] then db else Take(Replay(db, c, run[..|run| - 1]), c, run[|run| - 1])
  }

  predicate Lawful(db: Db, c: Category, cutoff: Time, run: seq<Step>) {
    run == [] || (
      var front := run[..|run| - 1];
      Lawful(db, c, cutoff, front) && Allowed(Replay(db, c, front), c, cutoff, run[|run| - 1]))
  }

  predicate Alone(run: seq<Step>) { forall i :: 0 <= i < |run| ==> run[i].Batch? }

  function Removed(run: seq<Step>): set<Id> {
    if run == [] then {}
    else
      var last := run[|run| - 1];
      Removed(run[..|run| - 1]) + (if last.Batch? then last.ids else {})
  }

  function Deleted(run: seq<Step>): nat {
    if run == [] then 0
    else
      var last := run[|run| - 1];
      Deleted(run[..|run| - 1]) + (if last.Batch? then |last.ids| else 0)
  }

  lemma Extend(db: Db, c: Category, cutoff: Time, run: seq<Step>, s: Step)
    ensures Replay(db, c, run + [s]) == Take(Replay(db, c, run), c, s)
    ensures Lawful(db, c, cutoff, run + [s]) <==>
              Lawful(db, c, cutoff, run) && Allowed(Replay(db, c, run), c, cutoff, s)
    ensures Deleted(run + [s]) == Deleted(run) + (if s.Batch? then |s.ids| else 0)
  {
    assert (run + [s])[..|run|] == run;
  }

  /** Whatever the others do, no row is deleted twice or unless it matched from the start, and the
      count is the number of rows deleted. */
  lemma {:induction false} DeletedOnce(db: Db, c: Category, cutoff: Time, run: seq<Step>)
    requires Lawful(db, c, cutoff, run)
    ensures Removed(run) <= Matching(db, c, cutoff) && Deleted(run) == |Removed(run)|
    ensures Matching(Replay(db, c, run), c, cutoff) <= Matching(db, c, cutoff) - Removed(run)
  {
    if run != [] {
      var front, last := run[..|run| - 1], run[|run| - 1];
      DeletedOnce(db, c, cutoff, front);
      var before := Replay(db, c, front);
      match last {
        case Other(e) => OthersNeverAddMatches(before, e, c, cutoff);
        case Batch(ids) =>
          DeletedNoLongerMatch(before, c, cutoff, ids);
          assert Removed(front) !! ids;
      }
    }
  }

  /** Undisturbed, a run that ends with nothing left to match has deleted exactly the matching rows. */
  lemma {:induction false} AloneDeletes(db: Db, c: Category, cutoff: Time, run: seq<Step>)
    requires Lawful(db, c, cutoff, run) && Alone(run)
    ensures Replay(db, c, run) == Delete(db, c, Removed(run))
    ensures Matching(Replay(db, c, run), c, cutoff) == {} ==> Removed(run) == Matching(db, c, cutoff)
  {
    if run == [] {
      assert Delete(db, c, {}) == db;
    } else {
      var front, last := run[..|run| - 1], run[|run| - 1];
      AloneDeletes(db, c, cutoff, front);
      assert last.Batch?;
      DeleteJoins(db, c, Removed(front), last.ids);
    }
    DeletedOnce(db, c, cutoff, run);
    DeletedNoLongerMatch(db, c, cutoff, Removed(run));
  }

  lemma Smaller(a: set<Id>, b: set<Id>)
    requires a < b
    ensures |a| < |b|
  {
    assert b == a + (b - a) && b - a != {};
  }

  datatype Counts = Counts(approved: nat, quarantined: nat, rejected: nat, tokens: nat, audit: nat)

  /** retention_counts: the dry run. */
  function DryRun(db: Db, p: Policy, now: Time): Counts {
    Counts(|Matching(db, OfState(Approved), Cutoff(p, now, OfState(Approved)))|,
           |Matching(db, OfState(Quarantined), Cutoff(p, now, OfState(Quarantined)))|,
           |Matching(db, OfState(Rejected), Cutoff(p, now, OfState(Rejected)))|,
           |Matching(db, InactiveTokens, Cutoff(p, now, InactiveTokens))|,
           |Matching(db, AuditEvents, Cutoff(p, now, AuditEvents))|)
  }

  function Sweep(db: Db, before: Db, p: Policy, now: Time, c: Category): Db {
    Delete(db, c, Matching(before, c, Cutoff(p, now, c)))
  }

  // The rows that match in `db`, and no others, are gone from every table.
  function Swept(db: Db, p: Policy, now: Time): Db {
    var db1 := Sweep(db, db, p, now, OfState(Approved));
    var db2 := Sweep(db1, db, p, now, OfState(Quarantined));
    var db3 := Sweep(db2, db, p, now, OfState(Rejected));
    Sweep(Sweep(db3, db, p, now, InactiveTokens), db, p, now, AuditEvents)
  }

  // ---------- What a policy keeps ----------

  // Older than its state's days: counted from the decision, or from ingestion if there was none.
  predicate MessageExpired(p: Policy, now: Time, m: Message) {
    var at := match m.decidedAt case Some(t) => t case None => m.ingestedAt;
    match m.state
    case Approved => at < now - p.approvedDays * 86_400_000_000
    case Quarantined => at < now - p.quarantinedDays * 86_400_000_000
    case Rejected => at < now - p.rejectedDays * 86_400_000_000
  }

  // Revoked longer ago than the token days, or never revoked and expired longer ago.
  predicate TokenExpired(p: Policy, now: Time, t: Token) {
    var cutoff := now - p.tokenDays * 86_400_000_000;
    || (t.revokedAt.Some? && t.revokedAt.value < cutoff)
    || (t.revokedAt.None? && t.expiresAt.Some? && t.expiresAt.value < cutoff)
  }

  predicate AuditExpired(p: Policy, now: Time, at: Time) { at < now - p.auditDays * 86_400_000_000 }

  // Exactly the rows that have not expired are left, as they were.
  ghost predicate KeepsUnexpired(p: Policy, now: Time, before: Db, after: Db) {
    && (forall id :: id in after.messages <==>
          id in before.messages && !MessageExpired(p, now, before.messages[id]))
    && (forall id :: id in after.messages ==> after.messages[id] == before.messages[id])
    && (forall id :: id in after.tokens <==> id in before.tokens && !TokenExpired(p, now, before.tokens[id]))
    && (forall id :: id in after.tokens ==> after.tokens[id] == before.tokens[id])
    && (forall id :: id in after.audit <==> id in before.audit && !AuditExpired(p, now, before.audit[id]))
    && (forall id :: id in after.audit ==> after.audit[id] == before.audit[id])
  }

  function ExpiredMessages(p: Policy, now: Time, db: Db, state: MsgState): set<Id> {
    set id | id in db.messages && db.messages[id].state == state && MessageExpired(p, now, db.messages[id])
  }

  function ExpiredTokens(p: Policy, now: Time, db: Db): set<Id> {
    set id | id in db.tokens && TokenExpired(p, now, db.tokens[id])
  }

  function ExpiredAudit(p: Policy, now: Time, db: Db): set<Id> {
    set id | id in db.audit && AuditExpired(p, now, db.audit[id])
  }

  lemma MatchingIsExpired(p: Policy, now: Time, db: Db)
    ensures forall s :: Matching(db, OfState(s), Cutoff(p, now, OfState(s))) == ExpiredMessages(p, now, db, s)
    ensures Matching(db, InactiveTokens, Cutoff(p, now, InactiveTokens)) == ExpiredTokens(p, now, db)
    ensures Matching(db, AuditEvents, Cutoff(p, now, AuditEvents)) == ExpiredAudit(p, now, db)
  {
    forall s ensures Matching(db, OfState(s), Cutoff(p, now, OfState(s))) == ExpiredMessages(p, now, db, s) {
      match s
      case Approved =>
      case Quarantined =>
      case Rejected =>
    }
  }

  lemma ThreeStates(p: Policy, now: Time, db: Db, id: Id)
    requires id in db.messages
    ensures MessageExpired(p, now, db.messages[id]) <==>
              || id in ExpiredMessages(p, now, db, Approved) || id in ExpiredMessages(p, now, db, Quarantined)
              || id in ExpiredMessages(p, now, db, Rejected)
  {
    match db.messages[id].state
    case Approved =>
    case Quarantined =>
    case Rejected =>
  }

  /** What an undisturbed purge leaves, in the words of the policy, and what the dry run counts. */
  lemma PolicyMeaning(p: Policy, now: Time, db: Db)
    ensures KeepsUnexpired(p, now, db, Swept(db, p, now))
    ensures DryRun(db, p, now) == Counts(
              |ExpiredMessages(p, now, db, Approved)|, |ExpiredMessages(p, now, db, Quarantined)|,
              |ExpiredMessages(p, now, db, Rejected)|, |ExpiredTokens(p, now, db)|, |ExpiredAudit(p, now, db)|)
  {
    MatchingIsExpired(p, now, db);
    var gone := ExpiredMessages(p, now, db, Approved) + ExpiredMessages(p, now, db, Quarantined)
                + ExpiredMessages(p, now, db, Rejected);
    SweptTables(p, now, db);
    assert Swept(db, p, now).messages == db.messages - gone;
    forall id | id in db.messages ensures id in gone <==> MessageExpired(p, now, db.messages[id]) {
      ThreeStates(p, now, db, id);
    }
  }

  lemma SweptTables(p: Policy, now: Time, db: Db)
    ensures var t := Swept(db, p, now);
            && t.messages == db.messages - Matching(db, OfState(Approved), Cutoff(p, now, OfState(Approved)))
                 - Matching(db, OfState(Quarantined), Cutoff(p, now, OfState(Quarantined)))
                 - Matching(db, OfState(Rejected), Cutoff(p, now, OfState(Rejected)))
            && t.tokens == db.tokens - Matching(db, InactiveTokens, Cutoff(p, now, InactiveTokens))
            && t.audit == db.audit - Matching(db, AuditEvents, Cutoff(p, now, AuditEvents))
  {
  }

  // The categories in the order in which they are purged.
  const ORDER := [OfState(Approved), OfState(Quarantined), OfState(Rejected), InactiveTokens, AuditEvents]

  // The tables after the first k categories' runs.
  function After(db: Db, runs: seq<seq<Step>>, k: nat): Db
    requires k <= |runs| == 5
  {
    if k == 0 then db else Replay(After(db, runs, k - 1), ORDER[k - 1], runs[k - 1])
  }

  // The k-th category was purged lawfully, whatever the others did meanwhile, and to the end.
  ghost predicate PurgedAmid(db: Db, p: Policy, now: Time, runs: seq<seq<Step>>, k: nat)
    requires k < |runs| == 5
  {
    && Lawful(After(db, runs, k), ORDER[k], Cutoff(p, now, ORDER[k]), runs[k])
    && Matching(After(db, runs, k + 1), ORDER[k], Cutoff(p, now, ORDER[k])) == {}
  }

  class Database {
    var db: Db

    constructor (db: Db)
      ensures this.db == db
    {
      this.db := db;
    }

    // Any number of steps of the others, or none when `quiet`.
    method Interfere(c: Category, cutoff: Time, quiet: bool, ghost start: Db, ghost run: seq<Step>)
      returns (ghost run': seq<Step>)
      requires Lawful(start, c, cutoff, run) && db == Replay(start, c, run) && (quiet ==> Alone(run))
      modifies this
      ensures Lawful(start, c, cutoff, run') && db == Replay(start, c, run') && Deleted(run') == Deleted(run)
      ensures Matching(db, c, cutoff) <= Matching(old(db), c, cutoff)
      ensures quiet ==> Alone(run')
    {
      run' := run;
      var n: int := *;
      while n > 0
        invariant Lawful(start, c, cutoff, run') && db == Replay(start, c, run') && Deleted(run') == Deleted(run)
        invariant Matching(db, c, cutoff) <= Matching(old(db), c, cutoff)
        invariant quiet ==> Alone(run')
      {
        var e: Event := *;
        if !quiet && Fresh(e, cutoff) {
          OthersNeverAddMatches(db, e, c, cutoff);
          Extend(start, c, cutoff, run', Other(e));
          db := Apply(db, e);
          run' := run' + [Other(e)];
        }
        n := n - 1;
      }
    }

    // order_by("pk")[:batch_size]: the least ones
    method SelectIds(c: Category, cutoff: Time, batch: nat) returns (ids: set<Id>)
      requires 1 <= batch
      ensures ids <= Matching(db, c, cutoff) && |ids| <= batch
      ensures ids == {} ==> Matching(db, c, cutoff) == {}
      ensures forall a, b :: a in ids && b in Matching(db, c, cutoff) - ids ==> a < b
    {
      var left := Matching(db, c, cutoff);
      ids := {};
      while left != {} && |ids| < batch
        invariant ids !! left && ids + left == Matching(db, c, cutoff) && |ids| <= batch
        invariant forall a, b :: a in ids && b in left ==> a < b
        invariant ids == {} ==> left == Matching(db, c, cutoff)
        decreases left
      {
        var least := Least(left);
        left := left - {least};
        ids := ids + {least};
      }
      assert Matching(db, c, cutoff) - ids == left;
    }

    static method Least(s: set<Id>) returns (m: Id)
      requires s != {}
      ensures m in s && forall x :: x in s ==> m <= x
    {
      m :| m in s;
      var left := s - {m};
      while left != {}
        invariant left <= s && m in s && forall x :: x in s && x !in left ==> m <= x
        decreases left
      {
        var x :| x in left;
        left := left - {x};
        if x < m { m := x; }
      }
    }

    /** _delete_queryset_in_batches terminates although others keep writing: each round either
        deletes matching rows or finds that rows it selected have stopped matching. All it did is
        lawful, and it leaves no match. */
    method DeleteInBatches(c: Category, cutoff: Time, batch: nat, quiet: bool)
      returns (deleted: nat, ghost run: seq<Step>)
      requires 1 <= batch
      modifies this
      ensures Lawful(old(db), c, cutoff, run) && db == Replay(old(db), c, run) && deleted == Deleted(run)
      ensures Matching(db, c, cutoff) == {}
      ensures quiet ==> Alone(run)
    {
      deleted, run := 0, [];
      while true
        invariant Lawful(old(db), c, cutoff, run) && db == Replay(old(db), c, run) && deleted == Deleted(run)
        invariant quiet ==> Alone(run)
        decreases |Matching(db, c, cutoff)|
      {
        ghost var before := Matching(db, c, cutoff);
        var ids := SelectIds(c, cutoff, batch);
        if ids == {} { return; }
        run := Interfere(c, cutoff, quiet, old(db), run);
        var locked := ids * Matching(db, c, cutoff);
        if locked == {} {
          Smaller(Matching(db, c, cutoff), before);
          continue;
        }
        DeletedNoLongerMatch(db, c, cutoff, locked);
        Extend(old(db), c, cutoff, run, Batch(locked));
        db := Delete(db, c, locked);
        run := run + [Batch(locked)];
        deleted := deleted + |locked|;
        Smaller(Matching(db, c, cutoff), before);
      }
    }

    /** purge_retention: refuses a bad batch size, otherwise purges every category, deleting only
        what matched when locked and counting it; undisturbed it deletes exactly what the dry run
        counted, whatever the batch size. */
    method PurgeRetention(p: Policy, now: Time, batch: int, auditId: Id, quiet: bool)
      returns (result: Result<Counts, string>, ghost runs: seq<seq<Step>>)
      requires PolicyOk(p)
      modifies this
      ensures (result.Err? <==> !(1 <= batch <= 10000)) && (result.Err? ==> db == old(db))
      ensures result.Ok? ==> (
                && |runs| == 5 && db == Apply(After(old(db), runs, 5), AddAudit(auditId, now))
                && (forall k :: 0 <= k < 5 ==> PurgedAmid(old(db), p, now, runs, k))
                && result.value == Counts(Deleted(runs[0]), Deleted(runs[1]), Deleted(runs[2]), Deleted(runs[3]),
                                          Deleted(runs[4])))
      ensures quiet && result.Ok? ==> result.value == DryRun(old(db), p, now)
      ensures quiet && result.Ok? ==> db == Apply(Swept(old(db), p, now), AddAudit(auditId, now))
      ensures quiet && result.Ok? ==> forall c :: Matching(db, c, Cutoff(p, now, c)) == {}
      ensures quiet && result.Ok? ==>
                result.value == Counts(
                  |ExpiredMessages(p, now, old(db), Approved)|, |ExpiredMessages(p, now, old(db), Quarantined)|,
                  |ExpiredMessages(p, now, old(db), Rejected)|, |ExpiredTokens(p, now, old(db))|,
                  |ExpiredAudit(p, now, old(db))|)
      ensures quiet && result.Ok? && auditId !in old(db).audit ==>
                && KeepsUnexpired(p, now, old(db), db.(audit := db.audit - {auditId}))
                && auditId in db.audit && db.audit[auditId] == now
    {
      runs := [];
      if !(1 <= batch <= 10000) { return Err("batch_size must be between 1 and 10000"), runs; }
      var counts;
      counts, runs := PurgeAll(p, now, batch, quiet);
      ghost var last := db;
      db := Apply(db, AddAudit(auditId, now));
      if quiet {
        AuditAddsNoMatch(p, now, last, auditId);
        PolicyMeaning(p, now, old(db));
        AuditRow(p, now, old(db), last, auditId);
      }
      return Ok(counts), runs;
    }

    // The dictionary comprehension over the five querysets.
    method PurgeAll(p: Policy, now: Time, batch: nat, quiet: bool) returns (counts: Counts, ghost runs: seq<seq<Step>>)
      requires 1 <= batch
      modifies this
      ensures |runs| == 5 && db == After(old(db), runs, 5)
      ensures forall k :: 0 <= k < 5 ==> PurgedAmid(old(db), p, now, runs, k)
      ensures counts == Counts(Deleted(runs[0]), Deleted(runs[1]), Deleted(runs[2]), Deleted(runs[3]), Deleted(runs[4]))
      ensures quiet ==> counts == DryRun(old(db), p, now) && db == Swept(old(db), p, now)
      ensures quiet ==> forall c :: Matching(db, c, Cutoff(p, now, c)) == {}
    {
      var a, q, r, t, u := OfState(Approved), OfState(Quarantined), OfState(Rejected), InactiveTokens, AuditEvents;
      var approved, run0 := DeleteInBatches(a, Cutoff(p, now, a), batch, quiet);
      ghost var db1 := db;
      var quarantined, run1 := DeleteInBatches(q, Cutoff(p, now, q), batch, quiet);
      ghost var db2 := db;
      var rejected, run2 := DeleteInBatches(r, Cutoff(p, now, r), batch, quiet);
      ghost var db3 := db;
      var tokens, run3 := DeleteInBatches(t, Cutoff(p, now, t), batch, quiet);
      ghost var db4 := db;
      var audit, run4 := DeleteInBatches(u, Cutoff(p, now, u), batch, quiet);
      runs := [run0, run1, run2, run3, run4];
      Unrolled(old(db), runs);
      if quiet {
        AllAlone(p, now, a, old(db), db1, run0);
        AllAlone(p, now, q, db1, db2, run1);
        AllAlone(p, now, r, db2, db3, run2);
        AllAlone(p, now, t, db3, db4, run3);
        AllAlone(p, now, u, db4, db, run4);
        Undisturbed(p, now, old(db), db1, db2, db3, db4, db);
      }
      counts := Counts(approved, quarantined, rejected, tokens, audit);
    }
  }

  lemma Unrolled(db: Db, runs: seq<seq<Step>>)
    requires |runs| == 5
    ensures After(db, runs, 0) == db
    ensures After(db, runs, 1) == Replay(db, OfState(Approved), runs[0])
    ensures After(db, runs, 2) == Replay(After(db, runs, 1), OfState(Quarantined), runs[1])
    ensures After(db, runs, 3) == Replay(After(db, runs, 2), OfState(Rejected), runs[2])
    ensures After(db, runs, 4) == Replay(After(db, runs, 3), InactiveTokens, runs[3])
    ensures After(db, runs, 5) == Replay(After(db, runs, 4), AuditEvents, runs[4])
  {
  }

  lemma AuditAddsNoMatch(p: Policy, now: Time, db: Db, auditId: Id)
    requires PolicyOk(p) && forall c :: Matching(db, c, Cutoff(p, now, c)) == {}
    ensures forall c :: Matching(Apply(db, AddAudit(auditId, now)), c, Cutoff(p, now, c)) == {}
  {
    forall c ensures Matching(Apply(db, AddAudit(auditId, now)), c, Cutoff(p, now, c)) == {} {
      assert Days(p, c) * DAY >= 0;
      OthersNeverAddMatches(db, AddAudit(auditId, now), c, Cutoff(p, now, c));
    }
  }

  // The audit row of the purge itself is the only one more.
  lemma AuditRow(p: Policy, now: Time, before: Db, after: Db, auditId: Id)
    requires KeepsUnexpired(p, now, before, after)
    ensures var t := Apply(after, AddAudit(auditId, now));
            auditId !in before.audit ==>
              && t.(audit := t.audit - {auditId}) == after && auditId in t.audit && t.audit[auditId] == now
  {
    if auditId !in before.audit { assert after.audit[auditId := now] - {auditId} == after.audit; }
  }

  // One category's matching rows are gone.
  ghost predicate Purged(p: Policy, now: Time, before: Db, after: Db, c: Category) {
    after == Delete(before, c, Matching(before, c, Cutoff(p, now, c)))
  }

  lemma AllAlone(p: Policy, now: Time, c: Category, before: Db, after: Db, run: seq<Step>)
    requires Lawful(before, c, Cutoff(p, now, c), run) && Alone(run) && after == Replay(before, c, run)
    requires Matching(after, c, Cutoff(p, now, c)) == {}
    ensures Purged(p, now, before, after, c) && Deleted(run) == |Matching(before, c, Cutoff(p, now, c))|
  {
    AloneDeletes(before, c, Cutoff(p, now, c), run);
    DeletedOnce(before, c, Cutoff(p, now, c), run);
  }

  lemma PurgedApart(p: Policy, now: Time, before: Db, after: Db, c: Category)
    requires Purged(p, now, before, after, c)
    ensures Matching(after, c, Cutoff(p, now, c)) == {}
    ensures forall d :: d != c ==> Matching(after, d, Cutoff(p, now, d)) == Matching(before, d, Cutoff(p, now, d))
  {
    DeletedNoLongerMatch(before, c, Cutoff(p, now, c), Matching(before, c, Cutoff(p, now, c)));
    forall d | d != c ensures Matching(after, d, Cutoff(p, now, d)) == Matching(before, d, Cutoff(p, now, d)) {
      CategoriesAreApart(before, c, d, Cutoff(p, now, c), Cutoff(p, now, d));
    }
  }

  lemma Undisturbed(p: Policy, now: Time, db0: Db, db1: Db, db2: Db, db3: Db, db4: Db, db5: Db)
    requires Purged(p, now, db0, db1, OfState(Approved)) && Purged(p, now, db1, db2, OfState(Quarantined))
    requires Purged(p, now, db2, db3, OfState(Rejected)) && Purged(p, now, db3, db4, InactiveTokens)
    requires Purged(p, now, db4, db5, AuditEvents)
    ensures DryRun(db0, p, now) == Counts(
              |Matching(db0, OfState(Approved), Cutoff(p, now, OfState(Approved)))|,
              |Matching(db1, OfState(Quarantined), Cutoff(p, now, OfState(Quarantined)))|,
              |Matching(db2, OfState(Rejected), Cutoff(p, now, OfState(Rejected)))|,
              |Matching(db3, InactiveTokens, Cutoff(p, now, InactiveTokens))|,
              |Matching(db4, AuditEvents, Cutoff(p, now, AuditEvents))|)
    ensures db5 == Swept(db0, p, now) && forall c :: Matching(db5, c, Cutoff(p, now, c)) == {}
  {
    PurgedApart(p, now, db0, db1, OfState(Approved));
    PurgedApart(p, now, db1, db2, OfState(Quarantined));
    PurgedApart(p, now, db2, db3, OfState(Rejected));
    PurgedApart(p, now, db3, db4, InactiveTokens);
    PurgedApart(p, now, db4, db5, AuditEvents);
    forall c ensures Matching(db5, c, Cutoff(p, now, c)) == {} {
      match c
      case OfState(Approved) =>
      case OfState(Quarantined) =>
      case OfState(Rejected) =>
      case InactiveTokens =>
      case AuditEvents =>
    }
  }
}
