/**
 API authorisation: token checks, the sixty-reads-a-minute limit and audit retention, as a
 state machine whose steps are the transactions. Times are microseconds of one clock. The
 row lock on the token serialises authorisations of that token, so a step happens at the
 moment its lock is taken; the clock it judges by was read up to `wait` earlier.
 */
module ApiWindow {
  import opened Wrappers

  type Time = int

  const MINUTE: Time := 60_000_000
  const DAY: Time := 86_400_000_000
  const LIMIT := 60
  const SCOPE := "messages:read:approved"
  const READ := "api.read"

  datatype Token = Token(
    prefix: string, scope: string, expiresAt: Option<Time>, revokedAt: Option<Time>, lastUsedAt: Option<Time>)

  datatype Audit = Audit(actor: string, action: string, at: Time)

  datatype Status = Unauthorized | RateLimited | Authorized

  // `admitted` holds every api.read row ever inserted, `issued` every token hash ever issued;
  // both are history. `clock` is the time of the last step.
  datatype World = World(
    tokens: map<string, Token>, audit: map<nat, Audit>, nextId: nat, clock: Time,
    admitted: map<nat, Audit>, issued: set<string>)

  // How long a caller may wait for the row lock, and how long audit rows are retained.
  datatype Limits = Limits(wait: Time, keep: Time)

  datatype Event =
    // Any hash and path: what the SQL function refuses beforehand is no event.
    // `now` is the clock the count uses, `checked` the one the token's expiry is judged by,
    // `stamp` the created_at of the row it inserts.
    | Authorize(hash: string, lockAt: Time, now: Time, checked: Time, stamp: Time)
    | Issue(hash: string, token: Token, at: Time)
    | Revoke(hash: string, at: Time)
    | Expunge(hashes: set<string>, at: Time)
    | OtherAudit(row: Audit, at: Time)
    | PurgeAudit(policyNow: Time, at: Time)

  predicate IsHash(hash: string) {
    |hash| == 64 && forall i :: 0 <= i < 64 ==> '0' <= hash[i] <= '9' || 'a' <= hash[i] <= 'f'
  }

  function Actor(prefix: string): string { "token:" + prefix }

  predicate Usable(t: Token, checked: Time) {
    t.revokedAt.None? && (t.expiresAt.None? || t.expiresAt.value > checked) && t.scope == SCOPE
  }

  function Recent(audit: map<nat, Audit>, actor: string, since: Time): set<nat> {
    set id | id in audit && audit[id].actor == actor && audit[id].action == READ && audit[id].at >= since
  }

  function Decide(w: World, hash: string, now: Time, checked: Time): Status {
    if hash !in w.tokens || !Usable(w.tokens[hash], checked) then Unauthorized
    else if |Recent(w.audit, Actor(w.tokens[hash].prefix), now - MINUTE)| >= LIMIT then RateLimited
    else Authorized
  }

  function Admit(w: World, hash: string, now: Time, stamp: Time): World
    requires hash in w.tokens
  {
    var row := Audit(Actor(w.tokens[hash].prefix), READ, stamp);
    w.(tokens := w.tokens[hash := w.tokens[hash].(lastUsedAt := Some(now))],
       audit := w.audit[w.nextId := row], admitted := w.admitted[w.nextId := row], nextId := w.nextId + 1)
  }

  predicate Enabled(w: World, e: Event, limits: Limits) {
    match e
    case Authorize(_, lockAt, now, checked, stamp) =>
      w.clock <= lockAt && now <= checked <= stamp && lockAt - limits.wait <= now
    case Issue(hash, token, at) => w.clock <= at && hash !in w.issued
    case Revoke(_, at) => w.clock <= at
    case Expunge(_, at) => w.clock <= at
    case OtherAudit(row, at) => w.clock <= at && row.action != READ
    case PurgeAudit(policyNow, at) => w.clock <= at && policyNow <= at
  }

  function Apply(w: World, e: Event, limits: Limits): World {
    if !Enabled(w, e, limits) then w
    else
      match e
      case Authorize(hash, lockAt, now, checked, stamp) =>
        var v := if Decide(w, hash, now, checked).Authorized? then Admit(w, hash, now, stamp) else w;
        v.(clock := lockAt)
      case Issue(hash, token, at) =>
        w.(tokens := w.tokens[hash := token.(revokedAt := None)], issued := w.issued + {hash}, clock := at)
      case Revoke(hash, at) =>
        (if hash in w.tokens && w.tokens[hash].revokedAt.None?
         then w.(tokens := w.tokens[hash := w.tokens[hash].(revokedAt := Some(at))]) else w).(clock := at)
      case Expunge(hashes, at) => w.(tokens := w.tokens - hashes, clock := at)
      case OtherAudit(row, at) => w.(audit := w.audit[w.nextId := row], nextId := w.nextId + 1, clock := at)
      case PurgeAudit(policyNow, at) =>
        w.(audit := map id | id in w.audit && w.audit[id].at >= policyNow - limits.keep :: w.audit[id], clock := at)
  }

  function Replay(w: World, es: seq<Event>, limits: Limits): World {
    if es == [] then w else Apply(Replay(w, es[..|es| - 1], limits), es[|es| - 1], limits)
  }

  const INIT := World(map[], map[], 0, 0, map[], {})

  // ---------- The bound ----------

  // The authorised reads of one actor in the closed window [from, from + MINUTE].
  function Window(admitted: map<nat, Audit>, actor: string, from: Time): set<nat> {
    set id | id in admitted && admitted[id].actor == actor && from <= admitted[id].at <= from + MINUTE
  }

  ghost predicate Bounded(w: World) {
    forall actor, from :: |Window(w.admitted, actor, from)| <= LIMIT
  }

  // A read is still in the audit table, or older than anything retention may keep.
  ghost predicate ReadOk(w: World, keep: Time, id: nat)
    requires id in w.admitted
  {
    && id < w.nextId && w.admitted[id].action == READ
    && (w.admitted[id].at < w.clock - keep || (id in w.audit && w.audit[id] == w.admitted[id]))
  }

  ghost predicate Inv(w: World, keep: Time) {
    && (forall id :: id in w.admitted ==> ReadOk(w, keep, id))
    && Bounded(w)
  }

  lemma SubsetCard(a: set<nat>, b: set<nat>)
    requires a <= b
    ensures |a| <= |b|
  {
    assert b == a + (b - a);
  }

  // Everything else in a window the new read falls into was counted when it was admitted.
  lemma WindowWasCounted(w: World, limits: Limits, actor: string, from: Time, lockAt: Time, now: Time, stamp: Time)
    requires limits.wait + MINUTE <= limits.keep
    requires forall id :: id in w.admitted ==> ReadOk(w, limits.keep, id)
    requires w.clock <= lockAt && lockAt - limits.wait <= now <= stamp && from <= stamp <= from + MINUTE
    ensures Window(w.admitted, actor, from) <= Recent(w.audit, actor, now - MINUTE)
  {
    forall id | id in Window(w.admitted, actor, from) ensures id in Recent(w.audit, actor, now - MINUTE) {
      assert ReadOk(w, limits.keep, id);
    }
  }

  lemma WindowGrows(admitted: map<nat, Audit>, id: nat, row: Audit, actor: string, from: Time)
    ensures |Window(admitted[id := row], actor, from)| <= |Window(admitted, actor, from)|
            + if row.actor == actor && from <= row.at <= from + MINUTE then 1 else 0
  {
    var new' := if row.actor == actor && from <= row.at <= from + MINUTE then {id} else {};
    SubsetCard(Window(admitted[id := row], actor, from), Window(admitted, actor, from) + new');
  }

  lemma AdmitKeepsBound(w: World, limits: Limits, hash: string, lockAt: Time, now: Time, checked: Time, stamp: Time)
    requires limits.wait + MINUTE <= limits.keep && Inv(w, limits.keep)
    requires w.clock <= lockAt && lockAt - limits.wait <= now <= stamp
    requires Decide(w, hash, now, checked).Authorized?
    ensures Bounded(Admit(w, hash, now, stamp))
  {
    var t := Admit(w, hash, now, stamp);
    var who := Actor(w.tokens[hash].prefix);
    forall actor, from ensures |Window(t.admitted, actor, from)| <= LIMIT {
      WindowGrows(w.admitted, w.nextId, Audit(who, READ, stamp), actor, from);
      if actor == who && from <= stamp <= from + MINUTE {
        WindowWasCounted(w, limits, actor, from, lockAt, now, stamp);
        SubsetCard(Window(w.admitted, actor, from), Recent(w.audit, actor, now - MINUTE));
      }
    }
  }

  lemma Step(w: World, e: Event, limits: Limits)
    requires limits.wait + MINUTE <= limits.keep && Inv(w, limits.keep)
    ensures Inv(Apply(w, e, limits), limits.keep)
  {
    var t := Apply(w, e, limits);
    if Enabled(w, e, limits) {
      forall id | id in t.admitted ensures ReadOk(t, limits.keep, id) {
        if id in w.admitted { assert ReadOk(w, limits.keep, id); }
      }
      if e.Authorize? && Decide(w, e.hash, e.now, e.checked).Authorized? {
        AdmitKeepsBound(w, limits, e.hash, e.lockAt, e.now, e.checked, e.stamp);
        assert t.admitted == Admit(w, e.hash, e.now, e.stamp).admitted;
      } else {
        assert t.admitted == w.admitted;
      }
    }
  }

  lemma {:induction false} InvHolds(es: seq<Event>, limits: Limits)
    requires limits.wait + MINUTE <= limits.keep
    ensures Inv(Replay(INIT, es, limits), limits.keep)
  {
    if es == [] {
      forall actor, from ensures |Window(INIT.admitted, actor, from)| <= LIMIT {
        assert Window(INIT.admitted, actor, from) == {};
      }
    } else {
      InvHolds(es[..|es| - 1], limits);
      Step(Replay(INIT, es[..|es| - 1], limits), es[|es| - 1], limits);
    }
  }

  // ---------- The bound needs the retention period ----------

  lemma ReplayOneMore(w: World, es: seq<Event>, e: Event, limits: Limits)
    ensures Replay(w, es + [e], limits) == Apply(Replay(w, es, limits), e, limits)
  {
    assert (es + [e])[..|es|] == es;
  }

  function Ids(k: nat): (ids: set<nat>)
    ensures |ids| == k && forall i: int :: i in ids <==> 0 <= i < k
  {
    if k == 0 then {} else Ids(k - 1) + {k - 1}
  }

  function Rows(row: Audit, k: nat): (rows: map<nat, Audit>)
    ensures rows.Keys == Ids(k) && forall id :: id in rows ==> rows[id] == row
  {
    if k == 0 then map[] else Rows(row, k - 1)[k - 1 := row]
  }

  // One token, k reads stamped 0.
  function Burst(hash: string, token: Token, k: nat): World {
    var rows := Rows(Audit(Actor(token.prefix), READ, 0), k);
    World(map[hash := if k == 0 then token else token.(lastUsedAt := Some(0))], rows, k, 0, rows, {hash})
  }

  lemma BurstDecision(hash: string, token: Token, k: nat)
    requires k < LIMIT && Usable(token, 0)
    ensures Decide(Burst(hash, token, k), hash, 0, 0) == Authorized
  {
    assert Recent(Burst(hash, token, k).audit, Actor(token.prefix), 0 - MINUTE) == Ids(k);
  }

  lemma BurstAdmit(hash: string, token: Token, k: nat)
    ensures Admit(Burst(hash, token, k), hash, 0, 0) == Burst(hash, token, k + 1)
  {
    var row := Audit(Actor(token.prefix), READ, 0);
    assert Rows(row, k + 1) == Rows(row, k)[k := row];
    OneTokenUsed(hash, Burst(hash, token, k).tokens[hash]);
  }

  lemma OneTokenUsed(hash: string, token: Token)
    ensures map[hash := token][hash := token.(lastUsedAt := Some(0))] == map[hash := token.(lastUsedAt := Some(0))]
  {
  }

  lemma BurstStep(hash: string, token: Token, k: nat, limits: Limits)
    requires k < LIMIT && Usable(token, 0) && 0 <= limits.wait
    ensures Apply(Burst(hash, token, k), Authorize(hash, 0, 0, 0, 0), limits) == Burst(hash, token, k + 1)
  {
    BurstDecision(hash, token, k);
    BurstAdmit(hash, token, k);
  }

  function BurstEvents(hash: string, token: Token, k: nat): seq<Event> {
    if k == 0 then [Issue(hash, token, 0)] else BurstEvents(hash, token, k - 1) + [Authorize(hash, 0, 0, 0, 0)]
  }

  lemma BurstStart(hash: string, token: Token, limits: Limits)
    requires Usable(token, 0)
    ensures Replay(INIT, [Issue(hash, token, 0)], limits) == Burst(hash, token, 0)
  {
    ReplayOneMore(INIT, [], Issue(hash, token, 0), limits);
    assert [] + [Issue(hash, token, 0)] == [Issue(hash, token, 0)];
  }

  lemma BurstOn(es: seq<Event>, hash: string, token: Token, k: nat, limits: Limits)
    requires k < LIMIT && Usable(token, 0) && 0 <= limits.wait && Replay(INIT, es, limits) == Burst(hash, token, k)
    ensures Replay(INIT, es + [Authorize(hash, 0, 0, 0, 0)], limits) == Burst(hash, token, k + 1)
  {
    BurstStep(hash, token, k, limits);
    ReplayOneMore(INIT, es, Authorize(hash, 0, 0, 0, 0), limits);
  }

  lemma {:induction false} BurstReplay(hash: string, token: Token, k: nat, limits: Limits)
    requires k <= LIMIT && Usable(token, 0) && 0 <= limits.wait
    ensures Replay(INIT, BurstEvents(hash, token, k), limits) == Burst(hash, token, k)
  {
    if k == 0 {
      BurstStart(hash, token, limits);
    } else {
      BurstReplay(hash, token, k - 1, limits);
      BurstOn(BurstEvents(hash, token, k - 1), hash, token, k - 1, limits);
    }
  }

  // A full minute's reads, stamped 0, gone from the table at time `late`.
  function Emptied(hash: string, token: Token, late: Time): World {
    Burst(hash, token, LIMIT).(audit := map[], clock := late)
  }

  lemma PurgeEmpties(w: World, limits: Limits, late: Time)
    requires w.clock <= late && forall id :: id in w.audit ==> w.audit[id].at < late - limits.keep
    ensures Apply(w, PurgeAudit(late, late), limits) == w.(audit := map[], clock := late)
  {
  }

  // A purge at keep + 1 reaches reads stamped 0.
  lemma PurgeEmptiesBurst(hash: string, token: Token, limits: Limits)
    requires 0 <= limits.keep
    ensures Apply(Burst(hash, token, LIMIT), PurgeAudit(limits.keep + 1, limits.keep + 1), limits)
            == Emptied(hash, token, limits.keep + 1)
  {
    PurgeEmpties(Burst(hash, token, LIMIT), limits, limits.keep + 1);
  }

  lemma EmptyTableAdmits(w: World, hash: string, now: Time)
    requires hash in w.tokens && Usable(w.tokens[hash], now) && w.audit == map[]
    ensures Decide(w, hash, now, now) == Authorized
  {
    assert Recent(w.audit, Actor(w.tokens[hash].prefix), now - MINUTE) == {};
  }

  lemma AuthorizedStep(w: World, hash: string, lockAt: Time, now: Time, limits: Limits)
    requires Enabled(w, Authorize(hash, lockAt, now, now, now), limits) && Decide(w, hash, now, now).Authorized?
    ensures Apply(w, Authorize(hash, lockAt, now, now, now), limits).admitted
            == w.admitted[w.nextId := Audit(Actor(w.tokens[hash].prefix), READ, now)]
  {
  }

  lemma FullWindow(rows: map<nat, Audit>, actor: string, k: nat)
    requires rows.Keys == Ids(k)
    requires forall id :: id in rows ==> rows[id].actor == actor && 0 <= rows[id].at <= MINUTE
    ensures |Window(rows, actor, 0)| == k
  {
    assert Window(rows, actor, 0) == Ids(k);
  }

  lemma OneMoreRow(rows: map<nat, Audit>, k: nat, actor: string, more: Audit)
    requires rows.Keys == Ids(k) && more.actor == actor && 0 <= more.at <= MINUTE
    requires forall id :: id in rows ==> rows[id].actor == actor && 0 <= rows[id].at <= MINUTE
    ensures |Window(rows[k := more], actor, 0)| == k + 1
  {
    FullWindow(rows, actor, k);
    assert k !in Window(rows, actor, 0);
    assert Window(rows[k := more], actor, 0) == Window(rows, actor, 0) + {k};
  }

  // With the table empty a sixty-first read is granted inside the same minute.
  lemma OneTooMany(hash: string, token: Token, limits: Limits, late: Time, now: Time)
    requires token.revokedAt.None? && token.expiresAt.None? && token.scope == SCOPE
    requires 0 <= now <= MINUTE && late - limits.wait <= now
    ensures !Bounded(Apply(Emptied(hash, token, late), Authorize(hash, late, now, now, now), limits))
  {
    var w := Emptied(hash, token, late);
    EmptyTableAdmits(w, hash, now);
    AuthorizedStep(w, hash, late, now, limits);
    OneMoreRow(w.admitted, LIMIT, Actor(token.prefix), Audit(Actor(token.prefix), READ, now));
  }

  lemma ShortRetentionBreaks(limits: Limits) returns (es: seq<Event>)
    requires 0 <= limits.wait && 0 <= limits.keep < limits.wait + MINUTE
    ensures !Bounded(Replay(INIT, es, limits))
  {
    var hash := seq(64, _ => 'a');
    var token := Token("p", SCOPE, None, None, None);
    var late := limits.keep + 1;
    var now := if MINUTE <= late then MINUTE else late;
    var purge, last := PurgeAudit(late, late), Authorize(hash, late, now, now, now);
    var burst := BurstEvents(hash, token, LIMIT);
    BurstReplay(hash, token, LIMIT, limits);
    PurgeEmptiesBurst(hash, token, limits);
    ReplayOneMore(INIT, burst, purge, limits);
    OneTooMany(hash, token, limits, late, now);
    ReplayOneMore(INIT, burst + [purge], last, limits);
    es := burst + [purge] + [last];
  }

  /** In every run each token has at most sixty authorised reads in every closed minute, although
      timestamps may be out of order, exactly when the longest lock wait plus a minute fits into
      the retention period of audit rows. */
  lemma {:induction false} WindowBoundIffRetained(limits: Limits)
    requires 0 <= limits.wait && 0 <= limits.keep
    ensures (forall es :: Bounded(Replay(INIT, es, limits))) <==> limits.wait + MINUTE <= limits.keep
  {
    if limits.wait + MINUTE <= limits.keep {
      forall es ensures Bounded(Replay(INIT, es, limits)) { InvHolds(es, limits); }
    } else {
      var es := ShortRetentionBreaks(limits);
    }
  }

  /** With audit rows kept for whole days: one day is enough for lock waits up to 86340 seconds,
      zero days are never enough. */
  lemma AuditDays(days: nat, wait: Time)
    requires 0 <= wait <= DAY - MINUTE
    ensures (forall es :: Bounded(Replay(INIT, es, Limits(wait, days * DAY)))) <==> 1 <= days
  {
    WindowBoundIffRetained(Limits(wait, days * DAY));
    if 1 <= days { assert days * DAY >= 1 * DAY; }
  }

  // ---------- Revocation ----------

  predicate Dead(w: World, hash: string) {
    hash in w.issued && (hash in w.tokens ==> w.tokens[hash].revokedAt.Some?)
  }

  lemma {:induction false} DeadForever(w: World, es: seq<Event>, hash: string, limits: Limits)
    requires Dead(w, hash)
    ensures Dead(Replay(w, es, limits), hash)
  {
    if es != [] { DeadForever(w, es[..|es| - 1], hash, limits); }
  }

  /** After a committed revocation, no authorisation whose lock comes later is granted. */
  lemma RevokedStaysOut(w: World, revokedAt: Time, es: seq<Event>, e: Event, limits: Limits)
    requires w.clock <= revokedAt && e.Authorize? && e.hash in w.issued
    ensures var v := Replay(Apply(w, Revoke(e.hash, revokedAt), limits), es, limits);
            Decide(v, e.hash, e.now, e.checked) == Unauthorized && Apply(v, e, limits).admitted == v.admitted
  {
    DeadForever(Apply(w, Revoke(e.hash, revokedAt), limits), es, e.hash, limits);
  }

  // ---------- Who is authorised ----------

  // Reads of one token that count for a call whose clock shows `now`.
  function Counted(audit: map<nat, Audit>, prefix: string, now: Time): set<nat> {
    set id | id in audit && audit[id].actor == "token:" + prefix && audit[id].action == "api.read"
      && now - 60_000_000 <= audit[id].at
  }

  // Valid at the clock its expiry is judged by.
  predicate Live(token: Token, checked: Time) {
    && token.revokedAt == None && token.scope == "messages:read:approved"
    && (token.expiresAt == None || checked < token.expiresAt.value)
  }

  /** A read is admitted if and only if its token is there, not revoked, not expired at the clock it is
      judged by, of the one scope, and has fewer than sixty reads in the last minute; then exactly one
      row is written, and the time of use. */
  lemma GrantedIff(w: World, e: Event, limits: Limits)
    requires e.Authorize? && Enabled(w, e, limits)
    ensures var v := Apply(w, e, limits);
            if e.hash in w.tokens && Live(w.tokens[e.hash], e.checked)
               && |Counted(w.audit, w.tokens[e.hash].prefix, e.now)| < 60 then
              var token := w.tokens[e.hash];
              var row := Audit("token:" + token.prefix, "api.read", e.stamp);
              && v.admitted == w.admitted[w.nextId := row] && v.audit == w.audit[w.nextId := row]
              && v.tokens == w.tokens[e.hash := token.(lastUsedAt := Some(e.now))] && v.nextId == w.nextId + 1
            else v.admitted == w.admitted && v.audit == w.audit && v.tokens == w.tokens && v.nextId == w.nextId
  {
    if e.hash in w.tokens { SameReads(w.audit, w.tokens[e.hash].prefix, e.now); }
  }

  // Nobody revokes or deletes the token.
  ghost predicate Spares(es: seq<Event>, hash: string) {
    forall i :: 0 <= i < |es| ==>
      !(es[i].Revoke? && es[i].hash == hash) && !(es[i].Expunge? && hash in es[i].hashes)
  }

  // An issued token keeps what it was issued with, and stays if it is spared.
  lemma {:induction false} TokenStays(w: World, es: seq<Event>, hash: string, limits: Limits)
    requires hash in w.issued && hash in w.tokens
    ensures var v, token := Replay(w, es, limits), w.tokens[hash];
            && hash in v.issued
            && (hash in v.tokens ==>
                  && v.tokens[hash].prefix == token.prefix && v.tokens[hash].scope == token.scope
                  && v.tokens[hash].expiresAt == token.expiresAt
                  && (token.revokedAt.Some? ==> v.tokens[hash].revokedAt == token.revokedAt))
            && (Spares(es, hash) ==> hash in v.tokens && v.tokens[hash].revokedAt == token.revokedAt)
  {
    if es != [] {
      var front := es[..|es| - 1];
      assert Spares(es, hash) ==> Spares(front, hash);
      TokenStays(w, front, hash, limits);
      OneEventKeepsToken(Replay(w, front, limits), es[|es| - 1], hash, limits);
    }
  }

  lemma OneEventKeepsToken(w: World, e: Event, hash: string, limits: Limits)
    requires hash in w.issued
    ensures var v := Apply(w, e, limits);
            && hash in v.issued && (hash in v.tokens ==> hash in w.tokens)
            && (hash in v.tokens ==>
                  var token := v.tokens[hash];
                  token.(lastUsedAt := None, revokedAt := None)
                  == w.tokens[hash].(lastUsedAt := None, revokedAt := None)
                  && (token.revokedAt != w.tokens[hash].revokedAt ==>
                        w.tokens[hash].revokedAt == None && e.Revoke? && e.hash == hash))
            && (hash in w.tokens && !(e.Expunge? && hash in e.hashes) ==> hash in v.tokens)
  {
  }

  /** Whatever happens in between, no read is admitted for a token whose expiry is at or before the
      clock it is judged by, or whose scope is another one. */
  lemma ExpiredStaysOut(w: World, es: seq<Event>, e: Event, limits: Limits)
    requires e.Authorize? && e.hash in w.issued && e.hash in w.tokens
    requires var token := w.tokens[e.hash];
             || (token.expiresAt.Some? && token.expiresAt.value <= e.checked)
             || token.scope != "messages:read:approved"
    ensures var v := Replay(w, es, limits); Apply(v, e, limits).admitted == v.admitted
  {
    TokenStays(w, es, e.hash, limits);
    if Enabled(Replay(w, es, limits), e, limits) { GrantedIff(Replay(w, es, limits), e, limits); }
  }

  /** And an issued token of the scope that nobody has revoked or deleted is authorised until it
      expires, whatever else happens, whenever fewer than sixty reads count. */
  lemma IssuedIsAuthorized(w: World, hash: string, token: Token, at: Time, es: seq<Event>, e: Event, limits: Limits)
    requires Enabled(w, Issue(hash, token, at), limits) && Spares(es, hash) && e.Authorize? && e.hash == hash
    requires token.scope == "messages:read:approved" && (token.expiresAt == None || e.checked < token.expiresAt.value)
    requires var v := Replay(Apply(w, Issue(hash, token, at), limits), es, limits);
             Enabled(v, e, limits) && |Counted(v.audit, token.prefix, e.now)| < 60
    ensures var v := Replay(Apply(w, Issue(hash, token, at), limits), es, limits);
            Apply(v, e, limits).admitted == v.admitted[v.nextId := Audit("token:" + token.prefix, "api.read", e.stamp)]
  {
    var issued := Apply(w, Issue(hash, token, at), limits);
    TokenStays(issued, es, hash, limits);
    GrantedIff(Replay(issued, es, limits), e, limits);
  }

  // Event i admitted this row, for a token that was live and within its limit.
  ghost predicate AdmittedAt(es: seq<Event>, limits: Limits, i: nat, row: Audit) {
    && i < |es| && es[i].Authorize?
    && var w, e := Replay(INIT, es[..i], limits), es[i];
       && e.hash in w.tokens && Live(w.tokens[e.hash], e.checked)
       && |Counted(w.audit, w.tokens[e.hash].prefix, e.now)| < 60
       && row == Audit("token:" + w.tokens[e.hash].prefix, "api.read", e.stamp)
  }

  lemma OneEventAdmits(w: World, e: Event, limits: Limits, id: nat)
    requires id in Apply(w, e, limits).admitted
    ensures || (id in w.admitted && Apply(w, e, limits).admitted[id] == w.admitted[id])
            || (&& e.Authorize? && e.hash in w.tokens && Live(w.tokens[e.hash], e.checked)
                && |Counted(w.audit, w.tokens[e.hash].prefix, e.now)| < 60
                && Apply(w, e, limits).admitted[id]
                   == Audit("token:" + w.tokens[e.hash].prefix, "api.read", e.stamp))
  {
    if e.Authorize? && Enabled(w, e, limits) { GrantedIff(w, e, limits); }
  }

  /** In every run every read ever admitted was admitted by a call with a token that was then there, not
      revoked, not expired, of the scope and below its limit. */
  lemma {:induction false} AdmittedWasLive(es: seq<Event>, limits: Limits, id: nat)
    requires id in Replay(INIT, es, limits).admitted
    ensures exists i: nat :: AdmittedAt(es, limits, i, Replay(INIT, es, limits).admitted[id])
  {
    if es != [] {
      var front := es[..|es| - 1];
      var w, row := Replay(INIT, front, limits), Replay(INIT, es, limits).admitted[id];
      OneEventAdmits(w, es[|es| - 1], limits, id);
      if id in w.admitted && row == w.admitted[id] {
        AdmittedWasLive(front, limits, id);
        var i: nat :| AdmittedAt(front, limits, i, row);
        assert front[..i] == es[..i];
        assert AdmittedAt(es, limits, i, row);
      } else {
        assert AdmittedAt(es, limits, |es| - 1, row);
      }
    }
  }

  // ---------- The two implementations ----------

  lemma HashDigits(hash: string)
    ensures IsHash(hash) <==> |hash| == 64 && forall c :: c in hash ==> c in "0123456789abcdef"
  {
    if IsHash(hash) {
      forall c | c in hash ensures c in "0123456789abcdef" {
        var i :| 0 <= i < 64 && hash[i] == c;
        assert "0123456789abcdef"[if c <= '9' then c as int - '0' as int else 10 + c as int - 'a' as int] == c;
      }
    }
    if |hash| == 64 && forall c :: c in hash ==> c in "0123456789abcdef" {
      forall i | 0 <= i < 64 ensures '0' <= hash[i] <= '9' || 'a' <= hash[i] <= 'f' { assert hash[i] in hash; }
    }
  }

  lemma SameReads(audit: map<nat, Audit>, prefix: string, now: Time)
    ensures Recent(audit, Actor(prefix), now - MINUTE) == Counted(audit, prefix, now)
  {
  }

  class Gate {
    var tokens: map<string, Token>
    var audit: map<nat, Audit>
    var nextId: nat
    ghost var clock: Time
    ghost var admitted: map<nat, Audit>
    ghost var issued: set<string>

    ghost function Abs(): World
      reads this
    {
      World(tokens, audit, nextId, clock, admitted, issued)
    }

    // mailgate_api_authorize: the clock is read before the token row is locked.
    method SqlAuthorize(hash: string, path: string, now: Time, ghost lockAt: Time, ghost limits: Limits)
      returns (status: Status)
      requires clock <= lockAt && now <= lockAt <= now + limits.wait
      modifies this
      ensures IsHash(hash) && |path| <= 2048 ==>
                status == Decide(old(Abs()), hash, now, now) &&
                Abs() == Apply(old(Abs()), Authorize(hash, lockAt, now, now, now), limits)
      ensures !IsHash(hash) || |path| > 2048 ==> status == Unauthorized && Abs() == old(Abs())
      ensures var known := |hash| == 64 && (forall c :: c in hash ==> c in "0123456789abcdef") && |path| <= 2048
                           && hash in old(tokens) && Live(old(tokens)[hash], now);
              && (status == Unauthorized <==> !known)
              && (known ==> status == if |Counted(old(audit), old(tokens)[hash].prefix, now)| < 60
                                      then Authorized else RateLimited)
    {
      HashDigits(hash);
      if !IsHash(hash) || |path| > 2048 {
        return Unauthorized;
      }
      clock := lockAt;
      if hash !in tokens {
        return Unauthorized;
      }
      var token := tokens[hash];
      if !(token.revokedAt.None? && (token.expiresAt.None? || token.expiresAt.value > now) && token.scope == SCOPE) {
        return Unauthorized;
      }
      var recent := |Recent(audit, Actor(token.prefix), now - MINUTE)|;
      SameReads(audit, token.prefix, now);
      if recent >= LIMIT {
        return RateLimited;
      }
      tokens := tokens[hash := token.(lastUsedAt := Some(now))];
      InsertRead(Audit(Actor(token.prefix), READ, now));
      return Authorized;
    }

    // _orm_authorize: the clock is read under the lock, once more for the expiry of the token, and
    // once more for the audit row.
    method OrmAuthorize(
      hash: string, ghost lockAt: Time, now: Time, checked: Time, stamp: Time, ghost limits: Limits)
      returns (status: Status)
      requires clock <= lockAt <= now <= checked <= stamp && 0 <= limits.wait
      modifies this
      ensures status == Decide(old(Abs()), hash, now, checked)
      ensures Abs() == Apply(old(Abs()), Authorize(hash, lockAt, now, checked, stamp), limits)
      ensures var known := hash in old(tokens) && Live(old(tokens)[hash], checked);
              && (status == Unauthorized <==> !known)
              && (known ==> status == if |Counted(old(audit), old(tokens)[hash].prefix, now)| < 60
                                      then Authorized else RateLimited)
    {
      clock := lockAt;
      if hash !in tokens {
        return Unauthorized;
      }
      var token := tokens[hash];
      if token.revokedAt.Some? || (token.expiresAt.Some? && token.expiresAt.value <= checked) || token.scope != SCOPE {
        return Unauthorized;
      }
      var recent := |Recent(audit, Actor(token.prefix), now - MINUTE)|;
      SameReads(audit, token.prefix, now);
      if recent >= LIMIT {
        return RateLimited;
      }
      tokens := tokens[hash := token.(lastUsedAt := Some(now))];
      InsertRead(Audit(Actor(token.prefix), READ, stamp));
      return Authorized;
    }

    method InsertRead(row: Audit)
      modifies this`audit, this`admitted, this`nextId
      ensures audit == old(audit)[old(nextId) := row] && admitted == old(admitted)[old(nextId) := row]
      ensures nextId == old(nextId) + 1
    {
      audit := audit[nextId := row];
      admitted := admitted[nextId := row];
      nextId := nextId + 1;
    }
  }
}
