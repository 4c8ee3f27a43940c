/**
 The data migration of message authentication records to schema version 1 and its reverse:
 what each does to one record, when going there and back is the identity, and the batched
 loops that do it to a whole table.
 */
module AuthenticationSchema {
  import opened Wrappers

  datatype Json =
    | Null | Bool(value: bool) | Num(number: real) | Str(text: string) | List(items: seq<Json>) | Obj(fields: Fields)
  type Fields = map<string, Json>

  const METHODS: set<string> := {"spf", "dkim", "dmarc", "arc"}
  const BATCH := 500

  // `message.authentication or {}`, and {} for anything that is not a dictionary.
  function FieldsOf(j: Json): Fields { if j.Obj? then j.fields else map[] }

  function Get(f: Fields, key: string, otherwise: Json): Json { if key in f then f[key] else otherwise }

  // schema_version == 1, which in Python True equals as well.
  predicate IsCurrent(j: Json) { Get(FieldsOf(j), "schema_version", Null) in {Num(1.0), Bool(true)} }

  function Methods(f: Fields): Fields { map m | m in METHODS :: Get(f, m, Str("unknown")) }

  const NOTHING_VERIFIED := Obj(map["dkim" := Obj(map["result" := Str("none"), "signatures" := List([])])])

  function Migrate(j: Json): Json {
    if IsCurrent(j) then j
    else
      var claims := Methods(FieldsOf(j))["authserv_id" := Get(FieldsOf(j), "authserv_id", Str(""))];
      Obj(map["schema_version" := Num(1.0), "provider_claims" := Obj(claims), "independent" := NOTHING_VERIFIED])
  }

  // None: claims of another type have no get and it raises.
  function Restore(j: Json): Option<Json> {
    if !IsCurrent(j) then Some(j)
    else
      var claims := Get(FieldsOf(j), "provider_claims", Obj(map[]));
      if claims.Obj? then Some(Obj(Methods(claims.fields))) else None
  }

  // ---------- Field by field ----------

  // A record of version 1: the migration leaves it alone, and only it is restored.
  predicate HasVersionOne(j: Json) {
    && j.Obj? && "schema_version" in j.fields
    && (j.fields["schema_version"] == Num(1.0) || j.fields["schema_version"] == Bool(true))
  }

  // The value of a method in a flat record; records of other shapes have none.
  function Claim(j: Json, method': string): Json {
    if j.Obj? && method' in j.fields then j.fields[method'] else Str("unknown")
  }

  /** What a migrated record holds: version 1; the four methods as they were claimed, "unknown" where
      they were not, with the server's ID, empty where it was absent; and nothing verified. */
  lemma MigratedFields(j: Json)
    ensures HasVersionOne(j) ==> Migrate(j) == j
    ensures !HasVersionOne(j) ==>
              && Migrate(j).Obj? && Migrate(j).fields.Keys == {"schema_version", "provider_claims", "independent"}
              && Migrate(j).fields["schema_version"] == Num(1.0)
              && Migrate(j).fields["provider_claims"] == Obj(map[
                   "spf" := Claim(j, "spf"), "dkim" := Claim(j, "dkim"), "dmarc" := Claim(j, "dmarc"),
                   "arc" := Claim(j, "arc"),
                   "authserv_id" := if j.Obj? && "authserv_id" in j.fields then j.fields["authserv_id"] else Str("")])
              && Migrate(j).fields["independent"] ==
                   Obj(map["dkim" := Obj(map["result" := Str("none"), "signatures" := List([])])])
  {
    if !HasVersionOne(j) {
      var f := FieldsOf(j);
      assert METHODS == {"spf", "dkim", "dmarc", "arc"};
      assert Methods(f)["authserv_id" := Get(f, "authserv_id", Str(""))] == map[
          "spf" := Claim(j, "spf"), "dkim" := Claim(j, "dkim"), "dmarc" := Claim(j, "dmarc"), "arc" := Claim(j, "arc"),
          "authserv_id" := if j.Obj? && "authserv_id" in j.fields then j.fields["authserv_id"] else Str("")];
    }
  }

  /** What a restored record holds: the four methods of its claims, "unknown" where one is absent, and
      nothing else; the restoration fails exactly on claims that are no dictionary. */
  lemma RestoredFields(j: Json)
    ensures !HasVersionOne(j) ==> Restore(j) == Some(j)
    ensures HasVersionOne(j) ==> (
              var claims := if "provider_claims" in j.fields then j.fields["provider_claims"] else Obj(map[]);
              if claims.Obj? then
                Restore(j) == Some(Obj(map[
                  "spf" := Claim(claims, "spf"), "dkim" := Claim(claims, "dkim"), "dmarc" := Claim(claims, "dmarc"),
                  "arc" := Claim(claims, "arc")]))
              else Restore(j) == None)
  {
    if HasVersionOne(j) {
      var claims := if "provider_claims" in j.fields then j.fields["provider_claims"] else Obj(map[]);
      if claims.Obj? {
        assert METHODS == {"spf", "dkim", "dmarc", "arc"};
        assert Methods(claims.fields) == map[
            "spf" := Claim(claims, "spf"), "dkim" := Claim(claims, "dkim"), "dmarc" := Claim(claims, "dmarc"),
            "arc" := Claim(claims, "arc")];
      }
    }
  }

  // ---------- There and back ----------

  /** Migrating twice is migrating once. */
  lemma MigrateOnce(j: Json)
    ensures IsCurrent(Migrate(j)) && Migrate(Migrate(j)) == Migrate(j)
  {
    if !IsCurrent(j) { assert Get(FieldsOf(Migrate(j)), "schema_version", Null) == Num(1.0); }
  }

  lemma BackFromMigrated(j: Json)
    requires !IsCurrent(j)
    ensures Restore(Migrate(j)) == Some(Obj(Methods(FieldsOf(j))))
  {
    var claims := Methods(FieldsOf(j))["authserv_id" := Get(FieldsOf(j), "authserv_id", Str(""))];
    MigrateOnce(j);
    assert FieldsOf(Migrate(j))["provider_claims"] == Obj(claims);
    assert Methods(claims) == Methods(FieldsOf(j));
  }

  /** The reverse migration undoes the migration exactly for records that hold the four methods
      and nothing else: it drops the server ID and fills in what was absent. */
  lemma RoundTripCondition(j: Json)
    ensures Restore(Migrate(j)) == Some(j) <==> j.Obj? && j.fields.Keys == METHODS
  {
    if IsCurrent(j) {
      assert "schema_version" in j.fields;
      assert Restore(j).Some? ==> "schema_version" !in Restore(j).value.fields;
    } else {
      BackFromMigrated(j);
      if j.Obj? && j.fields.Keys == METHODS { assert Methods(j.fields) == j.fields; }
      assert Methods(FieldsOf(j)).Keys == METHODS;
    }
  }

  /** What the reverse migration forgets: the authentication server's ID. */
  lemma ServerIdIsLost(claims: Fields, id: Json)
    requires claims.Keys == METHODS
    ensures Restore(Migrate(Obj(claims["authserv_id" := id]))) == Some(Obj(claims))
  {
    var j := Obj(claims["authserv_id" := id]);
    BackFromMigrated(j);
    assert Methods(j.fields) == claims;
  }

  // ---------- The batched loops ----------

  type Rows = map<nat, Json>

  function MigrateRows(rows: Rows): Rows { map id | id in rows :: Migrate(rows[id]) }

  predicate AllRestore(rows: Rows) { forall id :: id in rows ==> Restore(rows[id]).Some? }

  function RestoreRows(rows: Rows): Rows
    requires AllRestore(rows)
  {
    map id | id in rows :: Restore(rows[id]).value
  }

  // The loop is at `left`: rows before it have their new value, or will when `pending` is written.
  ghost predicate Underway(saved: Rows, target: Rows, rows: Rows, left: set<nat>, pending: Rows) {
    && rows.Keys == saved.Keys == target.Keys && left <= rows.Keys && pending.Keys <= rows.Keys - left
    && (forall id :: id in pending ==> pending[id] == target[id])
    && (forall id :: id in rows ==> rows[id] == if id in left || id in pending then saved[id] else target[id])
  }

  lemma Skip(saved: Rows, target: Rows, rows: Rows, left: set<nat>, pending: Rows, id: nat)
    requires Underway(saved, target, rows, left, pending) && id in left && target[id] == saved[id]
    ensures Underway(saved, target, rows, left - {id}, pending)
  {
  }

  lemma Queue(saved: Rows, target: Rows, rows: Rows, left: set<nat>, pending: Rows, id: nat)
    requires Underway(saved, target, rows, left, pending) && id in left
    ensures Underway(saved, target, rows, left - {id}, pending[id := target[id]])
  {
  }

  lemma Flush(saved: Rows, target: Rows, rows: Rows, left: set<nat>, pending: Rows)
    requires Underway(saved, target, rows, left, pending)
    ensures Underway(saved, target, rows + pending, left, map[])
  {
  }

  // What the reverse loop writes up to the first record it cannot read.
  function RestoreWhatCanBe(rows: Rows): Rows {
    map id | id in rows :: if Restore(rows[id]).Some? then Restore(rows[id]).value else rows[id]
  }

  class MessageTable {
    var rows: Rows

    constructor (rows: Rows)
      ensures this.rows == rows
    {
      this.rows := rows;
    }

    method BulkUpdate(pending: Rows)
      requires pending.Keys <= rows.Keys
      modifies this
      ensures rows == old(rows) + pending
    {
      rows := rows + pending;
    }

    // Writes the batch once it is full, or at the end whatever it holds.
    method Write(pending: Rows, least: nat, ghost saved: Rows, ghost target: Rows, ghost left: set<nat>)
      returns (rest: Rows)
      requires Underway(saved, target, rows, left, pending) && 0 < least
      modifies this
      ensures Underway(saved, target, rows, left, rest) && (|pending| < least ==> rest == pending)
      ensures |rest| < least
    {
      rest := pending;
      if |pending| >= least {
        Flush(saved, target, rows, left, pending);
        BulkUpdate(pending);
        rest := map[];
      }
    }

    method QueueMigrated(id: nat, pending: Rows, ghost saved: Rows, ghost target: Rows, ghost left: set<nat>)
      returns (more: Rows)
      requires Underway(saved, target, rows, left, pending) && id in left && target == MigrateRows(saved)
      ensures Underway(saved, target, rows, left - {id}, more) && |more| <= |pending| + 1
    {
      if IsCurrent(rows[id]) {
        Skip(saved, target, rows, left, pending, id);
        return pending;
      }
      Queue(saved, target, rows, left, pending, id);
      return pending[id := Migrate(rows[id])];
    }

    /** migrate_authentication_schema: every row is migrated, in whatever order it is read and
        however the batches fall. */
    method MigrateAll()
      modifies this
      ensures rows == MigrateRows(old(rows))
    {
      ghost var saved, target := rows, MigrateRows(rows);
      var left := rows.Keys;
      var pending: Rows := map[];
      while left != {}
        invariant Underway(saved, target, rows, left, pending) && |pending| < BATCH
        decreases left
      {
        var id :| id in left;
        pending := QueueMigrated(id, pending, saved, target, left);
        left := left - {id};
        pending := Write(pending, BATCH, saved, target, left);
      }
      pending := Write(pending, 1, saved, target, left);
    }

    method QueueRestored(id: nat, pending: Rows, ghost saved: Rows, ghost target: Rows, ghost left: set<nat>)
      returns (more: Option<Rows>)
      requires Underway(saved, target, rows, left, pending) && id in left && target == RestoreWhatCanBe(saved)
      ensures more.None? <==> Restore(saved[id]).None?
      ensures more.Some? ==> Underway(saved, target, rows, left - {id}, more.value) && |more.value| <= |pending| + 1
    {
      if !IsCurrent(rows[id]) {
        Skip(saved, target, rows, left, pending, id);
        return Some(pending);
      }
      var flat := Restore(rows[id]);
      if flat.None? { return None; }
      Queue(saved, target, rows, left, pending, id);
      return Some(pending[id := flat.value]);
    }

    /** restore_flat_authentication: all rows, or after an error, rolled back, none. */
    method RestoreAll() returns (ok: bool)
      modifies this
      ensures ok <==> AllRestore(old(rows))
      ensures rows == if ok then RestoreRows(old(rows)) else old(rows)
    {
      var saved := rows;
      ghost var target := RestoreWhatCanBe(rows);
      var left := rows.Keys;
      var pending: Rows := map[];
      while left != {}
        invariant Underway(saved, target, rows, left, pending) && |pending| < BATCH
        invariant forall id :: id in saved && id !in left ==> Restore(saved[id]).Some?
        decreases left
      {
        var id :| id in left;
        var more := QueueRestored(id, pending, saved, target, left);
        if more.None? {
          rows := saved;
          return false;
        }
        left := left - {id};
        pending := Write(more.value, BATCH, saved, target, left);
      }
      pending := Write(pending, 1, saved, target, left);
      return true;
    }
  }
}
