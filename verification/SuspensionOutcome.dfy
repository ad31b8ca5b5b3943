/** When suspending succeeds, in terms of what can be known before: which calls will fail, and which records without a
    stored id the provider has. */
module SuspensionOutcome {
  import opened Wrappers
  import opened Provider
  import opened Suspension
  import opened SuspensionLaws

  ghost predicate AllSucceed(env: Env, from: nat, to: nat) { forall c :: from <= c < to ==> !env.fails(c) }

  /** Two calls for a record with a stored id, and one more to look up one without. */
  function DeletionCost(rows: seq<Row>): nat {
    if rows == [] then 0 else (if rows[0].providerId == NO_ID then 3 else 2) + DeletionCost(rows[1..])
  }

  function Cost(sub: Subdomain): nat {
    var records := WithStatus(sub.records, Active);
    DeletionCost(records) + |records| + 3
  }

  /** Every active record without a stored id can be found. */
  ghost predicate Findable(live: Records, rows: seq<Row>) {
    forall r :: r in rows && r.status == Active && r.providerId == NO_ID ==> r.key in live
  }

  lemma {:induction false} StatementsSucceedIff(env: Env, calls: nat, n: nat)
    ensures Statements(env, calls, n).1 <==> AllSucceed(env, calls, calls + n)
    ensures Statements(env, calls, n).1 ==> Statements(env, calls, n).0 == calls + n
    decreases n
  {
    if n > 0 { StatementsSucceedIff(env, calls + 1, n - 1); }
  }

  lemma DeleteRecordSucceedsIff(env: Env, w: World, r: Row)
    ensures var s := DeleteRecord(env, w, r);
      && (s.ok <==> AllSucceed(env, w.calls, w.calls + DeletionCost([r])) && (r.providerId == NO_ID ==> r.key in w.zones.live))
      && (s.ok ==> s.world.calls == w.calls + DeletionCost([r]))
  {
    assert [r][1..] == [] && DeletionCost([]) == 0;
    var n := DeletionCost([r]);
    assert n == if r.providerId == NO_ID then 3 else 2;
    if AllSucceed(env, w.calls, w.calls + n) {
      assert !env.fails(w.calls) && !env.fails(w.calls + 1) && (n == 3 ==> !env.fails(w.calls + 2));
    }
  }

  lemma AllSucceedSplit(env: Env, from: nat, mid: nat, to: nat)
    requires from <= mid <= to
    ensures AllSucceed(env, from, to) <==> AllSucceed(env, from, mid) && AllSucceed(env, mid, to)
  {
  }

  lemma FindableSplit(live: Records, live1: Records, rows: seq<Row>)
    requires rows != [] && DistinctKeys(rows) && forall r :: r in rows ==> r.status == Active
    requires live1 == live || live1 == live - {rows[0].key}
    ensures Findable(live, rows) <==> (rows[0].providerId == NO_ID ==> rows[0].key in live) && Findable(live1, rows[1..])
  {
    KeysSplit(rows);
    assert forall r :: r in rows <==> r == rows[0] || r in rows[1..];
    assert forall r :: r in rows[1..] ==> r.key in Keys(rows[1..]);
  }

  lemma {:induction false} DeleteRecordsSucceedIff(env: Env, w: World, rows: seq<Row>)
    requires Valid(w.zones) && DistinctKeys(rows)
    requires forall r :: r in rows ==> r.status == Active && NoForeignId(w.zones.live, r)
    ensures var d := DeleteRecords(env, w, rows);
      && (d.ok <==> AllSucceed(env, w.calls, w.calls + DeletionCost(rows)) && Findable(w.zones.live, rows))
      && (d.ok ==> d.world.calls == w.calls + DeletionCost(rows))
    decreases |rows|
  {
    if rows != [] {
      var r, rest := rows[0], rows[1..];
      var s := DeleteRecord(env, w, r);
      var mid := w.calls + DeletionCost([r]);
      DeleteRecordSucceedsIff(env, w, r);
      DeleteRecordEffect(env, w, r);
      assert [r][1..] == [] && DeletionCost(rows) == DeletionCost([r]) + DeletionCost(rest);
      AllSucceedSplit(env, w.calls, mid, w.calls + DeletionCost(rows));
      FindableSplit(w.zones.live, s.world.zones.live, rows);
      if s.ok {
        forall r2 | r2 in rest ensures NoForeignId(s.world.zones.live, r2) { assert NoForeignId(w.zones.live, r2); }
        KeysSplit(rows);
        DeleteRecordsSucceedIff(env, s.world, rest);
      }
    }
  }

  /** A suspension succeeds if and only if none of its calls fails, of which there is a fixed number, and every active
      record without a stored id is live. So one record stored without an id and missing at the provider keeps its
      subdomain from ever being suspended. */
  lemma SuspendSucceedsIff(env: Env, w: World, sub: Subdomain, reason: string)
    requires Suspendable(w, sub) && DistinctKeys(sub.records)
    ensures var o := Suspend(env, w, sub, reason);
      && (o.ok <==> AllSucceed(env, w.calls, w.calls + Cost(sub)) && Findable(w.zones.live, sub.records))
      && (o.ok ==> o.world.calls == w.calls + Cost(sub))
  {
    var records := WithStatus(sub.records, Active);
    WithStatusMembers(sub.records, Active);
    DistinctAfterFilter(sub.records, Active);
    DeleteRecordsSucceedIff(env, w, records);
    var mid := w.calls + DeletionCost(records);
    AllSucceedSplit(env, w.calls, mid, w.calls + Cost(sub));
    StatementsSucceedIff(env, mid, |records| + 3);
    assert Findable(w.zones.live, records) <==> Findable(w.zones.live, sub.records);
  }

  /** With a record that cannot be found no pattern of calls lets the suspension succeed. */
  lemma MissingRecordBlocksSuspension(env: Env, w: World, sub: Subdomain, reason: string, r: Row)
    requires Suspendable(w, sub) && DistinctKeys(sub.records)
    requires r in sub.records && r.status == Active && r.providerId == NO_ID && r.key !in w.zones.live
    ensures !Suspend(env, w, sub, reason).ok
  {
    SuspendSucceedsIff(env, w, sub, reason);
  }

  // ---------- an input on which a retry spares a record ----------

  const KEY := Key("zone", "A", "a.example", "192.0.2.1")
  const RECORD := Row(1, 1, KEY, Settings(300, false), 1, Active)
  const START := World(Zones(map[KEY := Entry(1, Settings(300, false))], 2),
                       Database(map[1 := SubRow(9, Active, "", None)], [RECORD]), 0)

  function FailingAt(call: nat): Env { Env((c: nat) => c == call, (c: nat) => 0) }

  lemma StartIsLoaded()
    ensures Load(START.db, 1) == Subdomain(1, Active, [RECORD]) && Loaded(START.db, Load(START.db, 1))
  {
    LoadIsLoaded(START.db, 1);
    assert [RECORD][..0] == [] && OfSub([], 1) == [];
    assert OfSub([RECORD], 1) == [RECORD];
  }

  lemma ActiveOfOne(r: Row)
    requires r.status == Active
    ensures WithStatus([r], Active) == [r] && DistinctKeys([r])
  {
    assert [r][..0] == [] && WithStatus([], Active) == [];
  }

  lemma StartIsWellNamed()
    ensures WellNamed(START, Subdomain(1, Active, [RECORD])) && HandedOut(START, Subdomain(1, Active, [RECORD]))
  {
    StartIsLoaded();
    assert Valid(START.zones) && Names(START.zones.live, RECORD);
    forall r | r in [RECORD] ensures r == RECORD && NoForeignId(START.zones.live, r) { NamesIsAligned(START.zones, RECORD); }
  }

  /** The first statement of the transaction fails: the record is deleted and re-created under another id. */
  lemma FirstAttempt(sub: Subdomain)
    requires sub == Subdomain(1, Active, [RECORD])
    ensures Suspend(FailingAt(2), START, sub, "first")
         == Outcome(START.(zones := Zones(map[KEY := Entry(2, Settings(300, false))], 3), calls := 5), false, 0)
  {
    ActiveOfOne(RECORD);
    var env := FailingAt(2);
    var gone := START.(zones := Zones(map[], 2), calls := 2);
    assert [RECORD][1..] == [];
    assert Delete(START.zones.live, "zone", 1) == map[];
    assert DeleteRecord(env, START, RECORD) == Step(gone, true);
    assert DeleteRecords(env, gone, []) == Deletion(gone, 0, true);
    assert DeleteRecords(env, START, [RECORD]) == Deletion(gone, 1, true);
    assert Statements(env, 2, 4) == (3, false);
    var back := gone.(zones := Zones(map[KEY := Entry(2, Settings(300, false))], 3), calls := 5);
    assert CreateRecord(env, gone.(calls := 3), RECORD) == (back, Some(2));
    assert Recreate(env, back, []) == Repair(back, 0);
    assert Recreate(env, gone.(calls := 3), [RECORD]) == Repair(back, 0);
    assert [RECORD][..1] == [RECORD];
  }

  /** One record, one failing statement: the retry, with no failing call at all, reports success, and the record that
      the database calls suspended is live. */
  lemma RetryCanSpareARecord(env2: Env)
    requires forall c :: !env2.fails(c)
    ensures var sub := Load(START.db, 1);
      var first := Suspend(FailingAt(2), START, sub, "first");
      var second := Suspend(env2, first.world, sub, "second");
      && WellNamed(START, sub) && !first.ok && first.failed == 0
      && second.ok && KEY in second.world.zones.live
      && second.world.db.rows == [RECORD.(status := Suspended)]
  {
    var sub := Load(START.db, 1);
    StartIsLoaded();
    ActiveOfOne(RECORD);
    StartIsWellNamed();
    FirstAttempt(sub);
    var w := Suspend(FailingAt(2), START, sub, "first").world;
    FailureKeepsSuspendable(FailingAt(2), START, sub, "first");
    SuspendSucceedsIff(env2, w, sub, "second");
    SurvivesIffMissed(env2, w, sub, "second", RECORD);
    SuspendedMeans(env2, w, sub, "second");
    assert AllSuspended([RECORD], 1) == [RECORD.(status := Suspended)];
  }
}
