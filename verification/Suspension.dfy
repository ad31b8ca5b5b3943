/** Suspending and restoring subdomains (server/internal/service/audit_service.go): provider records go first, a
    database transaction follows, and a failure is answered by compensating calls that may fail themselves. This module
    says what each operation makes of the world; AuditServices runs them step by step. */
module Suspension {
  import opened Wrappers
  import opened Provider

  datatype Status = Active | Suspended

  datatype Row = Row(id: nat, sub: nat, key: Key, settings: Settings, providerId: nat, status: Status)

  datatype SubRow = SubRow(user: nat, status: Status, reason: string, suspendedAt: Option<int>)

  /** `rows` lists the DNS records in the order in which queries return them. */
  datatype Database = Database(subs: map<nat, SubRow>, rows: seq<Row>)

  /** A subdomain as loaded into memory, with its records. */
  datatype Subdomain = Subdomain(id: nat, status: Status, records: seq<Row>)

  /** `calls` numbers the provider calls, database statements and commits made so far. */
  datatype World = World(zones: Zones, db: Database, calls: nat)

  /** Which calls fail, and the time at each call. A call that fails changes nothing. */
  datatype Env = Env(fails: nat -> bool, clock: nat -> int)

  datatype Step = Step(world: World, ok: bool)

  function Called(w: World): World { w.(calls := w.calls + 1) }

  // ---------- the database ----------

  function WithStatus(rows: seq<Row>, status: Status): seq<Row> {
    if rows == [] then []
    else
      var last := rows[|rows| - 1];
      WithStatus(rows[..|rows| - 1], status) + (if last.status == status then [last] else [])
  }

  function OfSub(rows: seq<Row>, sub: nat): seq<Row> {
    if rows == [] then []
    else
      var last := rows[|rows| - 1];
      OfSub(rows[..|rows| - 1], sub) + (if last.sub == sub then [last] else [])
  }

  function Load(db: Database, sub: nat): Subdomain
    requires sub in db.subs
  {
    Subdomain(sub, db.subs[sub].status, OfSub(db.rows, sub))
  }

  /** UPDATE dns_records SET status, and the provider id if one is given, WHERE id. */
  function SetRow(rows: seq<Row>, id: nat, status: Status, providerId: nat): seq<Row> {
    seq(|rows|, i requires 0 <= i < |rows| =>
      if rows[i].id != id then rows[i]
      else if providerId == NO_ID then rows[i].(status := status)
      else rows[i].(status := status, providerId := providerId))
  }

  function SetSub(subs: map<nat, SubRow>, sub: nat, status: Status, reason: string, at: Option<int>): map<nat, SubRow> {
    if sub in subs then subs[sub := SubRow(subs[sub].user, status, reason, at)] else subs
  }

  /** `n` statements in a row, of which the first failure ends the transaction: the calls made, and whether all went well. */
  function Statements(env: Env, calls: nat, n: nat): (nat, bool)
    decreases n
  {
    if n == 0 then (calls, true)
    else if env.fails(calls) then (calls + 1, false)
    else Statements(env, calls + 1, n - 1)
  }

  // ---------- one provider record ----------

  /** deleteProviderRecord: get a client, look the id up if none is stored, delete. */
  function DeleteRecord(env: Env, w: World, r: Row): Step {
    if env.fails(w.calls) then Step(Called(w), false)
    else DeleteWithClient(env, Called(w), r)
  }

  function DeleteWithClient(env: Env, w: World, r: Row): Step {
    if r.providerId != NO_ID then DeleteById(env, w, r.key.zone, r.providerId)
    else if env.fails(w.calls) || r.key !in w.zones.live then Step(Called(w), false)
    else DeleteById(env, Called(w), r.key.zone, w.zones.live[r.key].id)
  }

  function DeleteById(env: Env, w: World, zone: string, id: nat): Step {
    if env.fails(w.calls) then Step(Called(w), false)
    else Step(Called(w).(zones := w.zones.(live := Delete(w.zones.live, zone, id))), true)
  }

  /** recreateProviderRecord: the world afterwards and the provider's id, or none. */
  function CreateRecord(env: Env, w: World, r: Row): (World, Option<nat>) {
    if env.fails(w.calls) then (Called(w), None)
    else if env.fails(w.calls + 1) then (Called(Called(w)), None)
    else
      var zones := Create(w.zones, r.key, r.settings);
      (Called(Called(w)).(zones := zones), Some(zones.live[r.key].id))
  }

  // ---------- suspending ----------

  /** `done` records were deleted before the first failure, if there was one. */
  datatype Deletion = Deletion(world: World, done: nat, ok: bool)

  function DeleteRecords(env: Env, w: World, rows: seq<Row>): (d: Deletion)
    ensures d.done <= |rows| && (d.ok ==> d.done == |rows|)
    decreases |rows|
  {
    if rows == [] then Deletion(w, 0, true)
    else
      var step := DeleteRecord(env, w, rows[0]);
      if !step.ok then Deletion(step.world, 0, false)
      else
        var rest := DeleteRecords(env, step.world, rows[1..]);
        rest.(done := rest.done + 1)
  }

  datatype Repair = Repair(world: World, failed: nat)

  /** compensateProviderRecords: every record is tried; the new ids are not stored. */
  function Recreate(env: Env, w: World, rows: seq<Row>): Repair
    decreases |rows|
  {
    if rows == [] then Repair(w, 0)
    else
      var step := CreateRecord(env, w, rows[0]);
      var rest := Recreate(env, step.0, rows[1..]);
      if step.1.None? then rest.(failed := rest.failed + 1) else rest
  }

  function MarkSuspended(rows: seq<Row>, records: seq<Row>): seq<Row>
    decreases |records|
  {
    if records == [] then rows else MarkSuspended(SetRow(rows, records[0].id, Suspended, NO_ID), records[1..])
  }

  function SuspendedDb(db: Database, sub: nat, records: seq<Row>, reason: string, at: int): Database {
    Database(SetSub(db.subs, sub, Suspended, reason, Some(at)), MarkSuspended(db.rows, records))
  }

  /** `failed` counts the compensating calls that failed. */
  datatype Outcome = Outcome(world: World, ok: bool, failed: nat)

  /** suspendSubdomain: the statements are one per record, the subdomain, the log entry and the commit. */
  function Suspend(env: Env, w: World, sub: Subdomain, reason: string): Outcome {
    if sub.status == Suspended then Outcome(w, true, 0)
    else
      var records := WithStatus(sub.records, Active);
      var d := DeleteRecords(env, w, records);
      var (calls, ok) := if d.ok then Statements(env, d.world.calls, |records| + 3) else (d.world.calls, false);
      if ok then
        Outcome(World(d.world.zones, SuspendedDb(w.db, sub.id, records, reason, env.clock(d.world.calls)), calls), true, 0)
      else
        var repair := Recreate(env, d.world.(calls := calls), records[..d.done]);
        Outcome(repair.world, false, repair.failed)
  }

  // ---------- restoring ----------

  datatype Restored = Restored(row: nat, zone: string, providerId: nat)

  datatype Creation = Creation(world: World, restored: seq<Restored>, ok: bool)

  function CreateRecords(env: Env, w: World, rows: seq<Row>): Creation
    decreases |rows|
  {
    if rows == [] then Creation(w, [], true)
    else
      var step := CreateRecord(env, w, rows[0]);
      if step.1.None? then Creation(step.0, [], false)
      else
        var rest := CreateRecords(env, step.0, rows[1..]);
        rest.(restored := [Restored(rows[0].id, rows[0].key.zone, step.1.value)] + rest.restored)
  }

  /** compensateRestoredProviderRecords: without a client nothing is tried. */
  function DeleteRestored(env: Env, w: World, restored: seq<Restored>): Repair {
    if restored == [] then Repair(w, 0)
    else if env.fails(w.calls) then Repair(Called(w), |restored|)
    else DeleteEach(env, Called(w), restored)
  }

  function DeleteEach(env: Env, w: World, restored: seq<Restored>): Repair
    decreases |restored|
  {
    if restored == [] then Repair(w, 0)
    else
      var step := DeleteById(env, w, restored[0].zone, restored[0].providerId);
      var rest := DeleteEach(env, step.world, restored[1..]);
      if step.ok then rest else rest.(failed := rest.failed + 1)
  }

  function MarkRestored(rows: seq<Row>, restored: seq<Restored>): seq<Row>
    decreases |restored|
  {
    if restored == [] then rows
    else MarkRestored(SetRow(rows, restored[0].row, Active, restored[0].providerId), restored[1..])
  }

  function RestoredDb(db: Database, sub: nat, restored: seq<Restored>): Database {
    Database(SetSub(db.subs, sub, Active, "", None), MarkRestored(db.rows, restored))
  }

  /** RestoreSubdomain: only the loaded status is tested; the records are listed anew. */
  function Restore(env: Env, w: World, sub: Subdomain): Outcome {
    if sub.status != Suspended then Outcome(w, false, 0)
    else if env.fails(w.calls) then Outcome(Called(w), false, 0)
    else
      var records := WithStatus(OfSub(w.db.rows, sub.id), Suspended);
      var c := CreateRecords(env, Called(w), records);
      var (calls, ok) := if c.ok then Statements(env, c.world.calls, |records| + 2) else (c.world.calls, false);
      if ok then Outcome(World(c.world.zones, RestoredDb(w.db, sub.id, c.restored), calls), true, 0)
      else
        var repair := DeleteRestored(env, c.world.(calls := calls), c.restored);
        Outcome(repair.world, false, repair.failed)
  }
}
