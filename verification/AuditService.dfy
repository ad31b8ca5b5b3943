/** Suspension and restoration step by step, as server/internal/service/audit_service.go runs them: every provider
    call, every statement and every commit changes the state in turn. */
module AuditServices {
  import opened Wrappers
  import opened Provider
  import opened Suspension
  import opened UserSuspension

  class AuditService {
    var zones: Zones
    var db: Database
    var calls: nat
    const env: Env

    constructor (zones: Zones, db: Database, env: Env)
      ensures this.env == env && View() == World(zones, db, 0)
    {
      this.zones, this.db, this.calls, this.env := zones, db, 0, env;
    }

    function View(): World
      reads this
    {
      World(zones, db, calls)
    }

    /** One call to the provider or the database. */
    method Call() returns (ok: bool)
      modifies this`calls
      ensures ok == !env.fails(old(calls)) && calls == old(calls) + 1
    {
      ok := !env.fails(calls);
      calls := calls + 1;
    }

    method DeleteProviderRecord(r: Row) returns (ok: bool)
      modifies this`zones, this`calls
      ensures Step(View(), ok) == DeleteRecord(env, old(View()), r)
    {
      ok := Call();
      if !ok { return; }
      var id := r.providerId;
      if id == NO_ID {
        ok := Call();
        if !ok || r.key !in zones.live { return false; }
        id := zones.live[r.key].id;
      }
      ok := Call();
      if ok { zones := zones.(live := Delete(zones.live, r.key.zone, id)); }
    }

    method RecreateProviderRecord(r: Row) returns (id: Option<nat>)
      modifies this`zones, this`calls
      ensures (View(), id) == CreateRecord(env, old(View()), r)
    {
      var ok := Call();
      if !ok { return None; }
      ok := Call();
      if !ok { return None; }
      zones := Create(zones, r.key, r.settings);
      return Some(zones.live[r.key].id);
    }

    method CompensateProviderRecords(records: seq<Row>) returns (failed: nat)
      modifies this`zones, this`calls
      ensures Repair(View(), failed) == Recreate(env, old(View()), records)
    {
      failed := 0;
      for i := 0 to |records|
        invariant db == old(db)
        invariant var rest := Recreate(env, View(), records[i..]);
          Recreate(env, old(View()), records) == rest.(failed := failed + rest.failed)
      {
        assert records[i..][1..] == records[i + 1..];
        var id := RecreateProviderRecord(records[i]);
        if id.None? { failed := failed + 1; }
      }
    }

    /** A transaction works on a copy that replaces the tables when it commits. */
    method SuspendTransaction(sub: nat, records: seq<Row>, reason: string) returns (ok: bool)
      modifies this`db, this`calls
      ensures (calls, ok) == Statements(env, old(calls), |records| + 3)
      ensures db == if ok then SuspendedDb(old(db), sub, records, reason, env.clock(old(calls))) else old(db)
    {
      var now := env.clock(calls);
      var rows := db.rows;
      for i := 0 to |records|
        invariant db == old(db)
        invariant Statements(env, calls, |records| + 3 - i) == Statements(env, old(calls), |records| + 3)
        invariant MarkSuspended(rows, records[i..]) == MarkSuspended(db.rows, records)
      {
        assert records[i..][1..] == records[i + 1..];
        ok := Call();
        if !ok { return; }
        rows := SetRow(rows, records[i].id, Suspended, NO_ID);
      }
      ok := Call();
      if !ok { return; }
      assert Statements(env, calls, 2) == Statements(env, old(calls), |records| + 3);
      var subs := SetSub(db.subs, sub, Suspended, reason, Some(now));
      ok := Call();
      if !ok { return; }
      ok := Call();
      if ok { db := Database(subs, rows); }
    }

    /** The deleting loop of suspendSubdomain: up to the first record that cannot be deleted. */
    method DeleteProviderRecords(records: seq<Row>) returns (deleted: seq<Row>, ok: bool)
      modifies this`zones, this`calls
      ensures |deleted| <= |records| && deleted == records[..|deleted|]
      ensures Deletion(View(), |deleted|, ok) == DeleteRecords(env, old(View()), records)
    {
      deleted := [];
      for i := 0 to |records|
        invariant db == old(db) && deleted == records[..i]
        invariant var rest := DeleteRecords(env, View(), records[i..]);
          DeleteRecords(env, old(View()), records) == rest.(done := i + rest.done)
      {
        assert records[i..][1..] == records[i + 1..];
        ok := DeleteProviderRecord(records[i]);
        if !ok { return; }
        deleted := deleted + [records[i]];
      }
      ok := true;
    }

    method SuspendSubdomain(sub: Subdomain, reason: string) returns (ok: bool)
      modifies this
      ensures var o := Suspend(env, old(View()), sub, reason); View() == o.world && ok == o.ok
    {
      if sub.status == Suspended { return true; }
      var records: seq<Row> := [];
      for i := 0 to |sub.records|
        invariant records == WithStatus(sub.records[..i], Active) && View() == old(View())
      {
        assert sub.records[..i + 1][..i] == sub.records[..i];
        if sub.records[i].status == Active { records := records + [sub.records[i]]; }
      }
      assert sub.records[..|sub.records|] == sub.records;

      var deleted;
      deleted, ok := DeleteProviderRecords(records);
      if ok { ok := SuspendTransaction(sub.id, records, reason); }
      if !ok {
        var _ := CompensateProviderRecords(deleted);
      }
    }

    method CompensateRestoredProviderRecords(restored: seq<Restored>) returns (failed: nat)
      modifies this`zones, this`calls
      ensures Repair(View(), failed) == DeleteRestored(env, old(View()), restored)
    {
      if restored == [] { return 0; }
      var ok := Call();
      if !ok { return |restored|; }
      failed := 0;
      ghost var started := View();
      for i := 0 to |restored|
        invariant db == old(db)
        invariant var rest := DeleteEach(env, View(), restored[i..]);
          DeleteEach(env, started, restored) == rest.(failed := failed + rest.failed)
      {
        assert restored[i..][1..] == restored[i + 1..];
        ok := Call();
        if ok { zones := zones.(live := Delete(zones.live, restored[i].zone, restored[i].providerId)); }
        else { failed := failed + 1; }
      }
    }

    method RestoreTransaction(sub: nat, restored: seq<Restored>) returns (ok: bool)
      modifies this`db, this`calls
      ensures (calls, ok) == Statements(env, old(calls), |restored| + 2)
      ensures db == if ok then RestoredDb(old(db), sub, restored) else old(db)
    {
      var rows := db.rows;
      for i := 0 to |restored|
        invariant db == old(db)
        invariant Statements(env, calls, |restored| + 2 - i) == Statements(env, old(calls), |restored| + 2)
        invariant MarkRestored(rows, restored[i..]) == MarkRestored(db.rows, restored)
      {
        assert restored[i..][1..] == restored[i + 1..];
        ok := Call();
        if !ok { return; }
        rows := SetRow(rows, restored[i].row, Active, restored[i].providerId);
      }
      ok := Call();
      if !ok { return; }
      var subs := SetSub(db.subs, sub, Active, "", None);
      ok := Call();
      if ok { db := Database(subs, rows); }
    }

    /** The loop of RestoreSubdomain: up to the first record that cannot be re-created. */
    method RecreateProviderRecords(records: seq<Row>) returns (restored: seq<Restored>, ok: bool)
      modifies this`zones, this`calls
      ensures Creation(View(), restored, ok) == CreateRecords(env, old(View()), records)
    {
      restored := [];
      for i := 0 to |records|
        invariant db == old(db)
        invariant var rest := CreateRecords(env, View(), records[i..]);
          CreateRecords(env, old(View()), records) == rest.(restored := restored + rest.restored)
      {
        assert records[i..][1..] == records[i + 1..];
        var id := RecreateProviderRecord(records[i]);
        if id.None? {
          assert restored + [] == restored;
          return restored, false;
        }
        restored := restored + [Restored(records[i].id, records[i].key.zone, id.value)];
      }
      ok := true;
    }

    method RestoreSubdomain(sub: Subdomain) returns (ok: bool)
      modifies this
      ensures var o := Restore(env, old(View()), sub); View() == o.world && ok == o.ok
    {
      if sub.status != Suspended { return false; }
      ok := Call();
      if !ok { return; }
      var records := WithStatus(OfSub(db.rows, sub.id), Suspended);
      var restored;
      restored, ok := RecreateProviderRecords(records);
      if ok {
        CreatedAll(env, Called(old(View())), records);
        ok := RestoreTransaction(sub.id, restored);
      }
      if !ok {
        var _ := CompensateRestoredProviderRecords(restored);
      }
    }

    /** The loop of suspendUserSubdomains that restores what was suspended before a failure. */
    method RollBack(succeeded: seq<Subdomain>)
      modifies this
      ensures View() == RestoreEach(env, old(View()), succeeded).world
    {
      for j := 0 to |succeeded|
        invariant RestoreEach(env, View(), succeeded[j..]).world == RestoreEach(env, old(View()), succeeded).world
      {
        assert succeeded[j..][1..] == succeeded[j + 1..];
        var _ := RestoreSubdomain(succeeded[j]);
      }
    }

    /** `subs` is what the query for the user's active subdomains returns. */
    method SuspendUserSubdomains(subs: seq<Subdomain>, reason: string)
      modifies this
      ensures View() == SuspendUser(env, old(View()), subs, reason)
    {
      var ok := Call();
      if !ok { return; }
      var succeeded: seq<Subdomain> := [];
      ghost var started := View();
      for i := 0 to |subs|
        invariant succeeded == subs[..i]
        invariant var rest := SuspendEach(env, View(), subs[i..], reason);
          SuspendEach(env, started, subs, reason) == rest.(done := i + rest.done)
      {
        assert subs[i..][1..] == subs[i + 1..];
        ok := SuspendSubdomain(subs[i], reason);
        if !ok {
          RollBack(succeeded);
          return;
        }
        succeeded := succeeded + [subs[i]];
      }
    }
  }

  lemma {:induction false} CreatedAll(env: Env, w: World, rows: seq<Row>)
    requires CreateRecords(env, w, rows).ok
    ensures |CreateRecords(env, w, rows).restored| == |rows|
    decreases |rows|
  {
    if rows != [] { CreatedAll(env, CreateRecord(env, w, rows[0]).0, rows[1..]); }
  }
}
