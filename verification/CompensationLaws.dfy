/** Compensation goes on after a failed call (server/internal/service/audit_service.go:404-455): which call is whose, how
    many fail, and so which records a failed suspension misses and a failed restore leaves. */
module CompensationLaws {
  import opened Wrappers
  import opened Provider
  import opened Suspension
  import opened SuspensionLaws
  import opened SuspensionOutcome
  import opened RestoreLaws

  /** How many of the calls from `from` up to `to` fail. */
  function FailedCalls(env: Env, from: nat, to: nat): nat
    decreases to - from
  {
    if from >= to then 0 else (if env.fails(from) then 1 else 0) + FailedCalls(env, from + 1, to)
  }

  lemma {:induction false} FailedCallsSplit(env: Env, from: nat, mid: nat, to: nat)
    requires from <= mid <= to
    ensures FailedCalls(env, from, to) == FailedCalls(env, from, mid) + FailedCalls(env, mid, to)
    decreases mid - from
  {
    if from < mid { FailedCallsSplit(env, from + 1, mid, to); }
  }

  // ---------- re-creating ----------

  /** The first call for record i: getting a client and, with one, creating take a call each. */
  function Turn(env: Env, calls: nat, i: nat): nat {
    if i == 0 then calls
    else
      var t := Turn(env, calls, i - 1);
      if env.fails(t) then t + 1 else t + 2
  }

  /** Both calls for record i succeed. */
  predicate TurnSucceeds(env: Env, calls: nat, i: nat) {
    var t := Turn(env, calls, i);
    !env.fails(t) && !env.fails(t + 1)
  }

  lemma {:induction false} TurnOfRest(env: Env, calls: nat, i: nat)
    ensures Turn(env, calls, i + 1) == Turn(env, if env.fails(calls) then calls + 1 else calls + 2, i)
  {
    if i > 0 { TurnOfRest(env, calls, i - 1); }
  }

  lemma CreateRecordTurn(env: Env, w: World, r: Row)
    requires Valid(w.zones)
    ensures var (w1, id) := CreateRecord(env, w, r);
      && Valid(w1.zones) && w1.calls == Turn(env, w.calls, 1)
      && (id.Some? <==> TurnSucceeds(env, w.calls, 0))
      && w1.zones.live.Keys == w.zones.live.Keys + (if TurnSucceeds(env, w.calls, 0) then {r.key} else {})
      && FailedCalls(env, w.calls, w1.calls) == (if id.Some? then 0 else 1)
  {
    CreateRecordEffect(env, w, r);
    assert Turn(env, w.calls, 0) == w.calls;
    FailedOfTwo(env, w.calls);
  }

  lemma FailedOfTwo(env: Env, from: nat)
    ensures FailedCalls(env, from, from + 1) == (if env.fails(from) then 1 else 0)
    ensures FailedCalls(env, from, from + 2) == (if env.fails(from) then 1 else 0) + (if env.fails(from + 1) then 1 else 0)
  {
    assert FailedCalls(env, from + 1, from + 1) == 0 && FailedCalls(env, from + 2, from + 2) == 0;
    assert FailedCalls(env, from + 1, from + 2) == if env.fails(from + 1) then 1 else 0;
  }

  /** Compensation makes calls for every record, one or two, and reports exactly the calls that failed. */
  lemma {:induction false} RecreateTriesAll(env: Env, w: World, rows: seq<Row>)
    requires Valid(w.zones)
    ensures var p := Recreate(env, w, rows);
      && p.world.calls == Turn(env, w.calls, |rows|) && p.failed == FailedCalls(env, w.calls, p.world.calls)
      && w.calls + |rows| <= p.world.calls <= w.calls + 2 * |rows|
    decreases |rows|
  {
    if rows != [] {
      var w1 := CreateRecord(env, w, rows[0]).0;
      CreateRecordTurn(env, w, rows[0]);
      RecreateTriesAll(env, w1, rows[1..]);
      TurnOfRest(env, w.calls, |rows| - 1);
      FailedCallsSplit(env, w.calls, w1.calls, Recreate(env, w, rows).world.calls);
    }
  }

  /** Each record for itself: it is live afterwards if and only if it was before or both its calls succeeded, whatever
      became of the records before it. */
  lemma {:induction false} RecreatedIff(env: Env, w: World, rows: seq<Row>, i: nat)
    requires Valid(w.zones) && DistinctKeys(rows) && i < |rows|
    ensures rows[i].key in Recreate(env, w, rows).world.zones.live
       <==> rows[i].key in w.zones.live || TurnSucceeds(env, w.calls, i)
    decreases |rows|
  {
    var w1 := CreateRecord(env, w, rows[0]).0;
    CreateRecordTurn(env, w, rows[0]);
    if i == 0 {
      FirstIsSettled(env, w1, rows);
    } else {
      TurnSucceedsInRest(env, w.calls, w1.calls, i);
      RestIsDistinct(rows, i);
      RecreatedIff(env, w1, rows[1..], i - 1);
    }
  }

  lemma TurnSucceedsInRest(env: Env, calls: nat, next: nat, i: nat)
    requires i > 0 && next == Turn(env, calls, 1)
    ensures TurnSucceeds(env, calls, i) <==> TurnSucceeds(env, next, i - 1)
  {
    TurnOfRest(env, calls, i - 1);
  }

  lemma RestIsDistinct(rows: seq<Row>, i: nat)
    requires DistinctKeys(rows) && 0 < i < |rows|
    ensures DistinctKeys(rows[1..]) && rows[1..][i - 1] == rows[i] && rows[i].key != rows[0].key
  {
    KeysSplit(rows);
  }

  lemma FirstIsSettled(env: Env, w: World, rows: seq<Row>)
    requires Valid(w.zones) && DistinctKeys(rows) && rows != []
    ensures rows[0].key in Recreate(env, w, rows[1..]).world.zones.live <==> rows[0].key in w.zones.live
  {
    KeysSplit(rows);
    RecreateEffect(env, w, rows[1..]);
  }

  lemma {:induction false} TurnsGrow(env: Env, calls: nat, i: nat, j: nat)
    requires i <= j
    ensures Turn(env, calls, i) + (j - i) <= Turn(env, calls, j)
    decreases j
  {
    if i < j { TurnsGrow(env, calls, i, j - 1); }
  }

  /** So once no more calls fail, every record that is still to come is live. */
  lemma LaterRecordsAreRecreated(env: Env, w: World, rows: seq<Row>, last: nat, i: nat)
    requires Valid(w.zones) && DistinctKeys(rows) && i < |rows|
    requires forall c :: last < c < Recreate(env, w, rows).world.calls ==> !env.fails(c)
    requires last < Turn(env, w.calls, i)
    ensures rows[i].key in Recreate(env, w, rows).world.zones.live
  {
    RecreateTriesAll(env, w, rows);
    TurnIsWithin(env, w.calls, i, |rows|);
    RecreatedIff(env, w, rows, i);
  }

  lemma TurnIsWithin(env: Env, calls: nat, i: nat, n: nat)
    requires i < n
    ensures Turn(env, calls, i) < Turn(env, calls, n)
    ensures !env.fails(Turn(env, calls, i)) ==> Turn(env, calls, i) + 1 < Turn(env, calls, n)
  {
    TurnsGrow(env, calls, i + 1, n);
  }

  // ---------- a suspension that fails ----------

  /** What is reported as failed are the calls that failed while compensating, and at least one call was made for every
      record that was tried. */
  lemma FailedSuspendTriesAll(env: Env, w: World, sub: Subdomain, reason: string)
    requires Suspendable(w, sub) && !Suspend(env, w, sub, reason).ok
    ensures var (o, from) := (Suspend(env, w, sub, reason), BeforeRepair(env, w, sub).calls);
      && o.failed == FailedCalls(env, from, o.world.calls)
      && o.world.calls == Turn(env, from, |Tried(env, w, sub)|) >= from + |Tried(env, w, sub)|
  {
    FailedSuspendCompensates(env, w, sub, reason);
    TriedAreGone(env, w, sub);
    RecreateTriesAll(env, BeforeRepair(env, w, sub), Tried(env, w, sub));
  }

  /** Exactly which of the records that were tried a failed suspension leaves live: those that their stored ids missed,
      and those whose calls succeeded. */
  lemma FailedSuspendLeavesIff(env: Env, w: World, sub: Subdomain, reason: string, i: nat)
    requires Suspendable(w, sub) && DistinctKeys(sub.records) && !Suspend(env, w, sub, reason).ok
    requires i < |Tried(env, w, sub)|
    ensures var r := Tried(env, w, sub)[i];
      r.key in Suspend(env, w, sub, reason).world.zones.live
      <==> (r.key in w.zones.live && !Aligned(w.zones.live, r)) || TurnSucceeds(env, BeforeRepair(env, w, sub).calls, i)
  {
    var tried := Tried(env, w, sub);
    FailedSuspendCompensates(env, w, sub, reason);
    TriedAreGone(env, w, sub);
    DistinctTried(env, w, sub);
    RecreatedIff(env, BeforeRepair(env, w, sub), tried, i);
    OnlyOneHasKey(w.zones.live, tried, i);
  }

  lemma OnlyOneHasKey(live: Records, rows: seq<Row>, i: nat)
    requires DistinctKeys(rows) && i < |rows|
    ensures rows[i].key in AlignedKeys(live, rows) <==> Aligned(live, rows[i])
  {
    if r :| r in rows && Aligned(live, r) && r.key == rows[i].key {
      var j :| 0 <= j < |rows| && rows[j] == r;
      assert j == i;
    }
    assert rows[i] in rows;
  }

  // ---------- deleting what was restored ----------

  /** Every delete is tried, one call each, and exactly those that fail are reported. */
  lemma {:induction false} DeleteEachTriesAll(env: Env, w: World, restored: seq<Restored>)
    ensures var p := DeleteEach(env, w, restored);
      p.world.calls == w.calls + |restored| && p.failed == FailedCalls(env, w.calls, w.calls + |restored|)
    decreases |restored|
  {
    if restored != [] { DeleteEachTriesAll(env, DeleteById(env, w, restored[0].zone, restored[0].providerId).world, restored[1..]); }
  }

  /** Each record for itself: it is gone if and only if its own call succeeds. */
  lemma {:induction false} DeletedIff(env: Env, w: World, rows: seq<Row>, restored: seq<Restored>, i: nat)
    requires Valid(w.zones) && OwnIds(w.zones.live, rows, restored) && DistinctKeys(rows) && i < |rows|
    ensures rows[i].key in DeleteEach(env, w, restored).world.zones.live
       <==> rows[i].key in w.zones.live && env.fails(w.calls + i)
    decreases |rows|
  {
    var s := DeleteById(env, w, restored[0].zone, restored[0].providerId);
    DeleteOwn(env, w, rows[0].key, restored[0]);
    KeysSplit(rows);
    OwnIdsOfRest(w.zones.live, s.world.zones.live, rows, restored);
    assert Valid(s.world.zones);
    if i == 0 {
      FirstStaysDeleted(env, s.world, rows, restored);
    } else {
      DeletedIff(env, s.world, rows[1..], restored[1..], i - 1);
      assert rows[1..][i - 1] == rows[i] && rows[0].key != rows[i].key;
    }
  }

  lemma FirstStaysDeleted(env: Env, w: World, rows: seq<Row>, restored: seq<Restored>)
    requires Valid(w.zones) && rows != [] && |restored| == |rows| && DistinctKeys(rows)
    requires OwnIds(w.zones.live, rows[1..], restored[1..])
    ensures rows[0].key in DeleteEach(env, w, restored[1..]).world.zones.live <==> rows[0].key in w.zones.live
  {
    KeysSplit(rows);
    DeleteEachEffect(env, w, rows[1..], restored[1..]);
  }

  lemma CleanupLeavesIff(env: Env, b: World, rows: seq<Row>, restored: seq<Restored>, i: nat)
    requires Valid(b.zones) && OwnIds(b.zones.live, rows, restored) && DistinctKeys(rows) && i < |rows|
    requires rows[i].key in b.zones.live
    ensures rows[i].key in DeleteRestored(env, b, restored).world.zones.live
       <==> env.fails(b.calls) || env.fails(b.calls + 1 + i)
  {
    if !env.fails(b.calls) { DeletedIff(env, Called(b), rows, restored, i); }
  }

  lemma CleanupTriesAll(env: Env, b: World, restored: seq<Restored>)
    requires restored != []
    ensures var (p, n) := (DeleteRestored(env, b, restored), |restored|);
      if env.fails(b.calls) then p.failed == n && p.world.calls == b.calls + 1
      else p.failed == FailedCalls(env, b.calls + 1, b.calls + 1 + n) && p.world.calls == b.calls + 1 + n
  {
    DeleteEachTriesAll(env, Called(b), restored);
  }

  lemma AttemptedMeansTried(env: Env, w: World, sub: Subdomain)
    requires Valid(w.zones) && !Restore(env, w, sub).ok && Attempted(env, w, sub) != []
    ensures var (b, rows, restored) := (BeforeCleanup(env, w, sub), Attempted(env, w, sub), Created(env, w, sub).restored);
      && Valid(b.zones) && OwnIds(b.zones.live, rows, restored) && Keys(rows) <= b.zones.live.Keys
      && Restore(env, w, sub).world == DeleteRestored(env, b, restored).world
      && Restore(env, w, sub).failed == DeleteRestored(env, b, restored).failed
  {
    FailedRestoreCompensates(env, w, sub);
    CreatedAndOwned(env, w, sub);
  }

  /** Exactly which of the attempted records a failed restore leaves: all of them if there is no client, and otherwise
      those whose own delete fails. */
  lemma FailedRestoreLeavesIff(env: Env, w: World, sub: Subdomain, i: nat)
    requires Valid(w.zones) && !Restore(env, w, sub).ok && DistinctKeys(Attempted(env, w, sub))
    requires i < |Attempted(env, w, sub)|
    ensures var from := BeforeCleanup(env, w, sub).calls;
      Attempted(env, w, sub)[i].key in Restore(env, w, sub).world.zones.live <==> env.fails(from) || env.fails(from + 1 + i)
  {
    var rows := Attempted(env, w, sub);
    AttemptedMeansTried(env, w, sub);
    assert rows[i].key in Keys(rows);
    CleanupLeavesIff(env, BeforeCleanup(env, w, sub), rows, Created(env, w, sub).restored, i);
  }

  /** What is reported as failed: every record without a client, and otherwise the calls that failed, one having been
      made for each record. */
  lemma FailedRestoreTriesAll(env: Env, w: World, sub: Subdomain)
    requires Valid(w.zones) && !Restore(env, w, sub).ok && Attempted(env, w, sub) != []
    ensures var (o, from, n) := (Restore(env, w, sub), BeforeCleanup(env, w, sub).calls, |Attempted(env, w, sub)|);
      if env.fails(from) then o.failed == n && o.world.calls == from + 1
      else o.failed == FailedCalls(env, from + 1, from + 1 + n) && o.world.calls == from + 1 + n
  {
    AttemptedMeansTried(env, w, sub);
    CleanupTriesAll(env, BeforeCleanup(env, w, sub), Created(env, w, sub).restored);
  }

  // ---------- transactions and outcomes ----------

  /** A transaction ends with its first failing statement. */
  lemma {:induction false} StatementsEndAtFirst(env: Env, calls: nat, n: nat)
    ensures var (next, ok) := Statements(env, calls, n);
      if ok then next == calls + n && AllSucceed(env, calls, next)
      else calls < next <= calls + n && env.fails(next - 1) && AllSucceed(env, calls, next - 1)
    decreases n
  {
    if n > 0 && !env.fails(calls) { StatementsEndAtFirst(env, calls + 1, n - 1); }
  }

  /** A copy that says suspended is done at once, without a call. */
  lemma SuspendedCopiesAreDone(env: Env, w: World, sub: Subdomain, reason: string)
    requires sub.status == Suspended
    ensures Suspend(env, w, sub, reason) == Outcome(w, true, 0)
  {
  }

  /** The time of a suspension is read when the transaction begins, after all provider calls. */
  lemma SuspendedAtTransaction(env: Env, w: World, sub: Subdomain, reason: string)
    requires Suspendable(w, sub) && DistinctKeys(sub.records) && Suspend(env, w, sub, reason).ok
    ensures var o := Suspend(env, w, sub, reason);
      && sub.id in o.world.db.subs
      && o.world.db.subs[sub.id].suspendedAt == Some(env.clock(w.calls + DeletionCost(WithStatus(sub.records, Active))))
  {
    SuspendSucceedsIff(env, w, sub, reason);
    var records := WithStatus(sub.records, Active);
    var d := DeleteRecords(env, w, records);
    StatementsEndAtFirst(env, d.world.calls, |records| + 3);
  }

  lemma {:induction false} CreateRecordsSucceedIff(env: Env, w: World, rows: seq<Row>)
    ensures var c := CreateRecords(env, w, rows);
      && (c.ok <==> AllSucceed(env, w.calls, w.calls + 2 * |rows|))
      && (c.ok ==> c.world.calls == w.calls + 2 * |rows|)
    decreases |rows|
  {
    if rows != [] {
      var (w1, id) := CreateRecord(env, w, rows[0]);
      CreateRecordsSucceedIff(env, w1, rows[1..]);
      if id.Some? { assert w1.calls == w.calls + 2; }
    }
  }

  /** A restore succeeds if and only if its copy says suspended and none of its calls fails: the listing, two for each
      record, one statement for each, the subdomain and the commit. */
  lemma RestoreSucceedsIff(env: Env, w: World, sub: Subdomain)
    ensures Restore(env, w, sub).ok <==>
      sub.status == Suspended && AllSucceed(env, w.calls, w.calls + 3 * |Listed(w, sub)| + 3)
  {
    if sub.status == Suspended && !env.fails(w.calls) {
      var n := |Listed(w, sub)|;
      CreateRecordsSucceedIff(env, Called(w), Listed(w, sub));
      StatementsEndAtFirst(env, w.calls + 1 + 2 * n, n + 2);
    }
  }
}
