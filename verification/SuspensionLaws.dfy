/** What suspending one subdomain does to the two sides, for every pattern of failing calls. */
module SuspensionLaws {
  import opened Wrappers
  import opened Provider
  import opened Suspension

  // ---------- stored ids ----------

  /** The stored id is empty or names the live record. */
  ghost predicate Names(live: Records, r: Row) {
    r.providerId == NO_ID || (r.key in live && live[r.key].id == r.providerId)
  }

  /** The stored id does not miss the live record. */
  ghost predicate Aligned(live: Records, r: Row) {
    r.providerId == NO_ID || r.key !in live || live[r.key].id == r.providerId
  }

  /** The stored id names no other record. */
  ghost predicate NoForeignId(live: Records, r: Row) {
    r.providerId == NO_ID
    || forall k :: k in live && k.zone == r.key.zone && live[k].id == r.providerId ==> k == r.key
  }

  lemma NamesIsAligned(z: Zones, r: Row)
    requires Valid(z) && Names(z.live, r)
    ensures Aligned(z.live, r) && NoForeignId(z.live, r)
  {
  }

  function Keys(rows: seq<Row>): set<Key> { set r | r in rows :: r.key }

  ghost function AlignedKeys(live: Records, rows: seq<Row>): set<Key> {
    set r | r in rows && Aligned(live, r) :: r.key
  }

  // ---------- deleting ----------

  lemma DeleteRecordEffect(env: Env, w: World, r: Row)
    requires Valid(w.zones) && NoForeignId(w.zones.live, r)
    ensures var s := DeleteRecord(env, w, r);
      && s.world.db == w.db && s.world.zones.next == w.zones.next
      && s.world.zones.live == if s.ok && Aligned(w.zones.live, r) then w.zones.live - {r.key} else w.zones.live
  {
    var live := w.zones.live;
    if r.providerId != NO_ID {
      if r.key in live && live[r.key].id == r.providerId {
        DeleteRemovesOne(w.zones, r.key);
      } else {
        assert Delete(live, r.key.zone, r.providerId) == live;
        assert r.key !in live ==> live - {r.key} == live;
      }
    } else if r.key in live {
      DeleteRemovesOne(w.zones, r.key);
    }
  }

  /** The records tried before the first failure are gone, as far as their stored ids did not miss them. */
  lemma {:induction false} DeleteRecordsEffect(env: Env, w: World, rows: seq<Row>)
    requires Valid(w.zones) && forall r :: r in rows ==> NoForeignId(w.zones.live, r)
    ensures var d := DeleteRecords(env, w, rows);
      && d.world.db == w.db && Valid(d.world.zones) && d.world.zones.next == w.zones.next
      && d.world.zones.live == w.zones.live - AlignedKeys(w.zones.live, rows[..d.done])
    decreases |rows|
  {
    var live := w.zones.live;
    if rows == [] {
      assert live - AlignedKeys(live, []) == live;
    } else {
      var step := DeleteRecord(env, w, rows[0]);
      DeleteRecordEffect(env, w, rows[0]);
      var live1 := step.world.zones.live;
      if step.ok {
        forall r | r in rows[1..] ensures NoForeignId(live1, r) { assert NoForeignId(live, r); }
        var rest := DeleteRecords(env, step.world, rows[1..]);
        DeleteRecordsEffect(env, step.world, rows[1..]);
        AlignedKeysOfRest(live, live1, rows, rest.done + 1);
      } else {
        assert rows[..0] == [] && live - AlignedKeys(live, []) == live;
      }
    }
  }

  lemma AlignedKeysOfRest(live: Records, live1: Records, rows: seq<Row>, n: nat)
    requires 0 < n <= |rows|
    requires live1 == if Aligned(live, rows[0]) then live - {rows[0].key} else live
    ensures live1 - AlignedKeys(live1, rows[1..][..n - 1]) == live - AlignedKeys(live, rows[..n])
  {
    assert forall r :: r in rows[..n] <==> r == rows[0] || r in rows[1..][..n - 1] by {
      assert rows[..n] == [rows[0]] + rows[1..][..n - 1];
    }
    var left, right := live1 - AlignedKeys(live1, rows[1..][..n - 1]), live - AlignedKeys(live, rows[..n]);
    forall k ensures k in left <==> k in right {
      if k in live && k in AlignedKeys(live, rows[..n]) && k in live1 {
        var r :| r in rows[..n] && Aligned(live, r) && r.key == k;
        assert Aligned(live1, r) && r != rows[0];
      }
      if k in live1 && k in AlignedKeys(live1, rows[1..][..n - 1]) {
        var r :| r in rows[1..][..n - 1] && Aligned(live1, r) && r.key == k;
        assert Aligned(live, r);
      }
    }
    assert left == right;
  }

  // ---------- compensating ----------

  /** `z2` is `z` with some of the records' keys added. */
  ghost predicate Extends(z: Zones, z2: Zones, rows: seq<Row>) {
    && Valid(z2) && z.next <= z2.next
    && (forall k :: k in z.live ==> k in z2.live && z2.live[k] == z.live[k])
    && (forall k :: k in z2.live && k !in z.live ==> k in Keys(rows) && z.next <= z2.live[k].id)
  }

  ghost predicate SettingsFrom(z: Zones, z2: Zones, rows: seq<Row>) {
    forall k :: k in z2.live && k !in z.live ==> exists r :: r in rows && r.key == k && r.settings == z2.live[k].settings
  }

  lemma CreateRecordEffect(env: Env, w: World, r: Row)
    requires Valid(w.zones)
    ensures var (w2, id) := CreateRecord(env, w, r);
      && w2.db == w.db && Extends(w.zones, w2.zones, [r]) && SettingsFrom(w.zones, w2.zones, [r])
      && (id.Some? ==> r.key in w2.zones.live && w2.zones.live[r.key].id == id.value)
      && (id.None? ==> w2.zones == w.zones)
  {
    CreateKeepsValid(w.zones, r.key, r.settings);
    assert r in [r];
  }

  /** Compensation adds nothing but the records' keys; it adds them all if no call fails, and if they are distinct and
      were all gone, then only if no call fails. */
  lemma {:induction false} RecreateEffect(env: Env, w: World, rows: seq<Row>)
    requires Valid(w.zones)
    ensures var p := Recreate(env, w, rows);
      && p.world.db == w.db && p.failed <= |rows|
      && Extends(w.zones, p.world.zones, rows) && SettingsFrom(w.zones, p.world.zones, rows)
      && (p.failed == 0 ==> Keys(rows) <= p.world.zones.live.Keys)
    decreases |rows|
  {
    if rows != [] {
      var (w1, id) := CreateRecord(env, w, rows[0]);
      var p := Recreate(env, w1, rows[1..]);
      CreateRecordEffect(env, w, rows[0]);
      RecreateEffect(env, w1, rows[1..]);
      assert forall r :: r in rows <==> r == rows[0] || r in rows[1..];
      assert forall k :: k in Keys(rows) <==> k == rows[0].key || k in Keys(rows[1..]);
      assert forall k :: k in Keys([rows[0]]) ==> k == rows[0].key;
    }
  }

  predicate DistinctKeys(rows: seq<Row>) {
    forall i, j :: 0 <= i < j < |rows| ==> rows[i].key != rows[j].key
  }

  lemma KeysSplit(rows: seq<Row>)
    requires rows != []
    ensures Keys(rows) == {rows[0].key} + Keys(rows[1..])
    ensures DistinctKeys(rows) ==> rows[0].key !in Keys(rows[1..]) && DistinctKeys(rows[1..])
  {
    assert forall r :: r in rows <==> r == rows[0] || r in rows[1..];
  }

  lemma MissingSplit(k: Key, rest: set<Key>, live: set<Key>)
    requires k !in rest
    ensures |({k} + rest) - live| == |rest - live| + (if k in live then 0 else 1)
  {
    assert ({k} + rest) - live == if k in live then rest - live else {k} + (rest - live);
  }

  lemma CreateRecordKeys(env: Env, w: World, r: Row)
    requires Valid(w.zones) && r.key !in w.zones.live
    ensures var (w1, id) := CreateRecord(env, w, r);
      Valid(w1.zones) && w1.zones.live.Keys == w.zones.live.Keys + (if id.None? then {} else {r.key})
  {
    CreateKeepsValid(w.zones, r.key, r.settings);
  }

  lemma FirstIsThereIfCreated(env: Env, w: World, rows: seq<Row>)
    requires Valid(w.zones) && rows != [] && DistinctKeys(rows) && rows[0].key !in w.zones.live
    ensures rows[0].key in Recreate(env, w, rows).world.zones.live <==> CreateRecord(env, w, rows[0]).1.Some?
  {
    CreateRecordKeys(env, w, rows[0]);
    KeysSplit(rows);
    RecreateEffect(env, CreateRecord(env, w, rows[0]).0, rows[1..]);
  }

  /** The records that compensation leaves missing are as many as its failed calls. */
  lemma {:induction false} RecreateMisses(env: Env, w: World, rows: seq<Row>)
    requires Valid(w.zones) && DistinctKeys(rows) && forall k :: k in Keys(rows) ==> k !in w.zones.live
    ensures var p := Recreate(env, w, rows); |Keys(rows) - p.world.zones.live.Keys| == p.failed
    decreases |rows|
  {
    if rows != [] {
      KeysSplit(rows);
      CreateRecordKeys(env, w, rows[0]);
      FirstIsThereIfCreated(env, w, rows);
      RecreateMisses(env, CreateRecord(env, w, rows[0]).0, rows[1..]);
      MissingSplit(rows[0].key, Keys(rows[1..]), Recreate(env, w, rows).world.zones.live.Keys);
    }
  }

  // ---------- the database ----------

  ghost predicate UniqueIds(rows: seq<Row>) {
    forall i, j :: 0 <= i < j < |rows| ==> rows[i].id != rows[j].id
  }

  /** The copy holds the subdomain and its records as they are stored. */
  ghost predicate Loaded(db: Database, sub: Subdomain) {
    && sub.id in db.subs && sub.status == db.subs[sub.id].status
    && forall r :: r in sub.records <==> r in db.rows && r.sub == sub.id
  }

  lemma WithStatusMembers(rows: seq<Row>, status: Status)
    ensures forall r :: r in WithStatus(rows, status) <==> r in rows && r.status == status
  {
    if rows != [] {
      WithStatusMembers(rows[..|rows| - 1], status);
      assert rows == rows[..|rows| - 1] + [rows[|rows| - 1]];
    }
  }

  lemma OfSubMembers(rows: seq<Row>, sub: nat)
    ensures forall r :: r in OfSub(rows, sub) <==> r in rows && r.sub == sub
  {
    if rows != [] {
      OfSubMembers(rows[..|rows| - 1], sub);
      assert rows == rows[..|rows| - 1] + [rows[|rows| - 1]];
    }
  }

  lemma LoadIsLoaded(db: Database, sub: nat)
    requires sub in db.subs
    ensures Loaded(db, Load(db, sub))
  {
    OfSubMembers(db.rows, sub);
  }

  lemma {:induction false} DistinctAfterFilter(rows: seq<Row>, status: Status)
    requires DistinctKeys(rows)
    ensures DistinctKeys(WithStatus(rows, status))
  {
    if rows != [] {
      var init := rows[..|rows| - 1];
      DistinctAfterFilter(init, status);
      WithStatusMembers(init, status);
      forall r | r in WithStatus(init, status) ensures r.key != rows[|rows| - 1].key {
        var i :| 0 <= i < |init| && init[i] == r;
        assert rows[i] == r;
      }
    }
  }

  /** All of a subdomain's records with one status. */
  function AllSuspended(rows: seq<Row>, sub: nat): seq<Row> {
    seq(|rows|, i requires 0 <= i < |rows| => if rows[i].sub == sub then rows[i].(status := Suspended) else rows[i])
  }

  lemma {:induction false} MarkSuspendedAt(rows: seq<Row>, records: seq<Row>, i: nat)
    requires i < |rows|
    ensures |MarkSuspended(rows, records)| == |rows|
    ensures MarkSuspended(rows, records)[i]
         == if exists r :: r in records && r.id == rows[i].id then rows[i].(status := Suspended) else rows[i]
    decreases |records|
  {
    if records != [] {
      var rows1 := SetRow(rows, records[0].id, Suspended, NO_ID);
      MarkSuspendedAt(rows1, records[1..], i);
      if r :| r in records && r.id == rows[i].id {
        assert r == records[0] || r in records[1..];
      }
    }
  }

  lemma SuspendedDbIs(db: Database, sub: Subdomain, reason: string, at: int)
    requires UniqueIds(db.rows) && Loaded(db, sub)
    ensures SuspendedDb(db, sub.id, WithStatus(sub.records, Active), reason, at)
         == Database(db.subs[sub.id := SubRow(db.subs[sub.id].user, Suspended, reason, Some(at))],
                     AllSuspended(db.rows, sub.id))
  {
    var records, rows := WithStatus(sub.records, Active), db.rows;
    WithStatusMembers(sub.records, Active);
    if rows == [] { MarkSuspendedNothing(records); } else { MarkSuspendedAt(rows, records, 0); }
    forall i | 0 <= i < |rows| ensures MarkSuspended(rows, records)[i] == AllSuspended(rows, sub.id)[i] {
      MarkSuspendedAt(rows, records, i);
      assert rows[i] in rows;
      if r :| r in records && r.id == rows[i].id {
        assert r in rows;
        var j :| 0 <= j < |rows| && rows[j] == r;
        assert i == j;
      }
    }
  }

  lemma {:induction false} MarkSuspendedNothing(records: seq<Row>)
    ensures MarkSuspended([], records) == []
    decreases |records|
  {
    if records != [] { MarkSuspendedNothing(records[1..]); }
  }

  // ---------- suspending ----------

  /** What a caller of suspendSubdomain holds: an active subdomain as it is stored, with ids that name nothing foreign. */
  ghost predicate Suspendable(w: World, sub: Subdomain) {
    && Valid(w.zones) && UniqueIds(w.db.rows) && Loaded(w.db, sub) && sub.status == Active
    && forall r :: r in sub.records && r.status == Active ==> NoForeignId(w.zones.live, r)
  }

  /** And every stored id of an active record is empty or names the live record. */
  ghost predicate WellNamed(w: World, sub: Subdomain) {
    && Suspendable(w, sub)
    && forall r :: r in sub.records && r.status == Active ==> Names(w.zones.live, r)
  }

  /** A suspension that reports success has suspended the subdomain and all its records, and the provider has lost
      exactly the active records that the stored ids did not miss. */
  lemma SuspendedMeans(env: Env, w: World, sub: Subdomain, reason: string)
    requires Suspendable(w, sub)
    ensures var o := Suspend(env, w, sub, reason); o.ok ==>
      && (exists at :: o.world.db == Database(w.db.subs[sub.id := SubRow(w.db.subs[sub.id].user, Suspended, reason, Some(at))],
                                              AllSuspended(w.db.rows, sub.id)))
      && o.world.zones.live == w.zones.live - AlignedKeys(w.zones.live, WithStatus(sub.records, Active))
      && Valid(o.world.zones) && o.world.zones.next == w.zones.next
  {
    var records := WithStatus(sub.records, Active);
    WithStatusMembers(sub.records, Active);
    DeleteRecordsEffect(env, w, records);
    var d := DeleteRecords(env, w, records);
    if d.ok {
      assert records[..d.done] == records;
      SuspendedDbIs(w.db, sub, reason, env.clock(d.world.calls));
    }
  }

  /** With well-named records the provider holds none of them afterwards and everything else as before. */
  lemma SuspendedRecordsAreGone(env: Env, w: World, sub: Subdomain, reason: string)
    requires WellNamed(w, sub) && Suspend(env, w, sub, reason).ok
    ensures Suspend(env, w, sub, reason).world.zones.live == w.zones.live - Keys(WithStatus(sub.records, Active))
  {
    SuspendedMeans(env, w, sub, reason);
    var records := WithStatus(sub.records, Active);
    WithStatusMembers(sub.records, Active);
    forall r | r in records ensures Aligned(w.zones.live, r) { NamesIsAligned(w.zones, r); }
    assert AlignedKeys(w.zones.live, records) == Keys(records);
  }

  /** Exactly: an active record survives a successful suspension if and only if its stored id misses it. */
  lemma SurvivesIffMissed(env: Env, w: World, sub: Subdomain, reason: string, r: Row)
    requires Suspendable(w, sub) && DistinctKeys(sub.records) && Suspend(env, w, sub, reason).ok
    requires r in sub.records && r.status == Active
    ensures r.key in Suspend(env, w, sub, reason).world.zones.live <==> !Aligned(w.zones.live, r)
  {
    SuspendedMeans(env, w, sub, reason);
    WithStatusMembers(sub.records, Active);
    assert Aligned(w.zones.live, r) ==> r.key in AlignedKeys(w.zones.live, WithStatus(sub.records, Active));
    assert forall r2 :: r2 in sub.records && r2.key == r.key ==> r2 == r;
  }

  /** The records that a failed suspension deleted before it compensated. */
  function Tried(env: Env, w: World, sub: Subdomain): seq<Row> {
    var records := WithStatus(sub.records, Active);
    records[..DeleteRecords(env, w, records).done]
  }

  /** The world in which a failed suspension starts to compensate. */
  function BeforeRepair(env: Env, w: World, sub: Subdomain): World {
    var records := WithStatus(sub.records, Active);
    var d := DeleteRecords(env, w, records);
    d.world.(calls := if d.ok then Statements(env, d.world.calls, |records| + 3).0 else d.world.calls)
  }

  lemma FailedSuspendCompensates(env: Env, w: World, sub: Subdomain, reason: string)
    requires !Suspend(env, w, sub, reason).ok
    ensures sub.status == Active
    ensures var (o, p) := (Suspend(env, w, sub, reason), Recreate(env, BeforeRepair(env, w, sub), Tried(env, w, sub)));
      o.world == p.world && o.failed == p.failed
  {
  }

  lemma {:induction false} DeleteRecordsKeepDatabase(env: Env, w: World, rows: seq<Row>)
    ensures DeleteRecords(env, w, rows).world.db == w.db
    decreases |rows|
  {
    if rows != [] { DeleteRecordsKeepDatabase(env, DeleteRecord(env, w, rows[0]).world, rows[1..]); }
  }

  lemma {:induction false} RecreateKeepsDatabase(env: Env, w: World, rows: seq<Row>)
    ensures Recreate(env, w, rows).world.db == w.db
    decreases |rows|
  {
    if rows != [] { RecreateKeepsDatabase(env, CreateRecord(env, w, rows[0]).0, rows[1..]); }
  }

  /** Whatever copy it was given and whatever the provider holds: a suspension that reports failure has left the
      database alone. */
  lemma FailedSuspendLeavesDatabase(env: Env, w: World, sub: Subdomain, reason: string)
    requires !Suspend(env, w, sub, reason).ok
    ensures Suspend(env, w, sub, reason).world.db == w.db
  {
    FailedSuspendCompensates(env, w, sub, reason);
    DeleteRecordsKeepDatabase(env, w, WithStatus(sub.records, Active));
    RecreateKeepsDatabase(env, BeforeRepair(env, w, sub), Tried(env, w, sub));
  }

  lemma TriedAreGone(env: Env, w: World, sub: Subdomain)
    requires Suspendable(w, sub)
    ensures var z := BeforeRepair(env, w, sub).zones;
      Valid(z) && z.next == w.zones.next && z.live == w.zones.live - AlignedKeys(w.zones.live, Tried(env, w, sub))
  {
    WithStatusMembers(sub.records, Active);
    DeleteRecordsEffect(env, w, WithStatus(sub.records, Active));
  }

  lemma DistinctTried(env: Env, w: World, sub: Subdomain)
    requires DistinctKeys(sub.records)
    ensures DistinctKeys(Tried(env, w, sub))
  {
    DistinctAfterFilter(sub.records, Active);
  }

  /** What a suspension that reports failure leaves at the provider: records it did not delete are as they were, those
      it re-created have new ids, and nothing else is there. If no compensating call failed, it holds what it held and
      every record that was tried. */
  lemma FailedSuspendMeans(env: Env, w: World, sub: Subdomain, reason: string)
    requires Suspendable(w, sub) && !Suspend(env, w, sub, reason).ok
    ensures var (o, live, tried) := (Suspend(env, w, sub, reason), w.zones.live, Tried(env, w, sub));
      var live2 := o.world.zones.live;
      && Valid(o.world.zones) && w.zones.next <= o.world.zones.next
      && live2.Keys <= live.Keys + Keys(tried)
      && (forall k :: k in live && k !in AlignedKeys(live, tried) ==> k in live2 && live2[k] == live[k])
      && (forall k :: k in live2 && !(k in live && live2[k] == live[k]) ==> k in Keys(tried) && live2[k].id >= w.zones.next)
      && (forall k :: k in live2 && k in AlignedKeys(live, tried) ==> live2[k].id >= w.zones.next)
      && (o.failed == 0 ==> live2.Keys == live.Keys + Keys(tried))
  {
    FailedSuspendCompensates(env, w, sub, reason);
    TriedAreGone(env, w, sub);
    RecreateEffect(env, BeforeRepair(env, w, sub), Tried(env, w, sub));
  }

  /** So, when no compensating call failed, the provider holds the same records as before if and only if every record
      that was tried had been there: one whose stored id names nothing, and which is gone, is created anew. */
  lemma FailedSuspendIsCleanIff(env: Env, w: World, sub: Subdomain, reason: string)
    requires Suspendable(w, sub) && !Suspend(env, w, sub, reason).ok && Suspend(env, w, sub, reason).failed == 0
    ensures Suspend(env, w, sub, reason).world.zones.live.Keys == w.zones.live.Keys
       <==> forall r :: r in Tried(env, w, sub) ==> r.key in w.zones.live
  {
    FailedSuspendMeans(env, w, sub, reason);
    var live, tried := w.zones.live, Tried(env, w, sub);
    if r :| r in tried && r.key !in live {
      assert r.key in Keys(tried);
    } else {
      assert Keys(tried) <= live.Keys;
      assert live.Keys + Keys(tried) == live.Keys;
    }
  }

  ghost predicate HadRecord(live: Records, r: Row) { r.providerId == NO_ID || r.key in live }

  /** A record without a stored id is found before it is deleted, so with well-named records all that was tried had
      been there. */
  lemma {:induction false} DeletedWereThere(env: Env, w: World, rows: seq<Row>, live: Records)
    requires w.zones.live.Keys <= live.Keys && forall r :: r in rows ==> HadRecord(live, r)
    ensures Keys(rows[..DeleteRecords(env, w, rows).done]) <= live.Keys
    decreases |rows|
  {
    if rows != [] {
      var step := DeleteRecord(env, w, rows[0]);
      if step.ok {
        assert rows[0].key in live by { assert HadRecord(live, rows[0]); }
        DeletedWereThere(env, step.world, rows[1..], live);
        var n := DeleteRecords(env, step.world, rows[1..]).done;
        assert rows[..n + 1] == [rows[0]] + rows[1..][..n];
      }
    }
  }

  lemma TriedWereNamed(env: Env, w: World, sub: Subdomain)
    requires WellNamed(w, sub)
    ensures AlignedKeys(w.zones.live, Tried(env, w, sub)) == Keys(Tried(env, w, sub)) <= w.zones.live.Keys
  {
    var records := WithStatus(sub.records, Active);
    WithStatusMembers(sub.records, Active);
    forall r | r in records ensures Aligned(w.zones.live, r) && HadRecord(w.zones.live, r) {
      NamesIsAligned(w.zones, r);
    }
    DeletedWereThere(env, w, records, w.zones.live);
  }

  /** Exactly as many records are missing as compensating calls failed. */
  lemma FailedSuspendMisses(env: Env, w: World, sub: Subdomain, reason: string)
    requires WellNamed(w, sub) && DistinctKeys(sub.records) && !Suspend(env, w, sub, reason).ok
    ensures var o := Suspend(env, w, sub, reason); |w.zones.live.Keys - o.world.zones.live.Keys| == o.failed
  {
    var tried, live2 := Tried(env, w, sub), Suspend(env, w, sub, reason).world.zones.live;
    FailedSuspendMeans(env, w, sub, reason);
    TriedWereNamed(env, w, sub);
    TriedAreMissing(env, w, sub, reason);
    MissingAreTried(w.zones.live.Keys, live2.Keys, Keys(tried));
  }

  lemma TriedAreMissing(env: Env, w: World, sub: Subdomain, reason: string)
    requires WellNamed(w, sub) && DistinctKeys(sub.records) && !Suspend(env, w, sub, reason).ok
    ensures var o := Suspend(env, w, sub, reason); |Keys(Tried(env, w, sub)) - o.world.zones.live.Keys| == o.failed
  {
    FailedSuspendCompensates(env, w, sub, reason);
    TriedAreGone(env, w, sub);
    TriedWereNamed(env, w, sub);
    DistinctTried(env, w, sub);
    RecreateMisses(env, BeforeRepair(env, w, sub), Tried(env, w, sub));
  }

  lemma MissingAreTried(live: set<Key>, live2: set<Key>, tried: set<Key>)
    requires live - tried <= live2 && tried <= live
    ensures live - live2 == tried - live2
  {
  }

  ghost predicate Mirrored(live: Records, rows: seq<Row>) {
    forall r :: r in rows && r.key in live ==> live[r.key].settings == r.settings
  }

  lemma RepairedContents(live: Records, z1: Zones, z2: Zones, gone: set<Key>, rows: seq<Row>)
    requires z1.live == live - gone && Mirrored(live, rows)
    requires Extends(z1, z2, rows) && SettingsFrom(z1, z2, rows) && z2.live.Keys == live.Keys
    ensures Contents(z2.live) == Contents(live)
  {
    forall k | k in live ensures z2.live[k].settings == live[k].settings {
      if k !in z1.live {
        var r :| r in rows && r.key == k && r.settings == z2.live[k].settings;
      }
    }
  }

  lemma TriedAreRecords(env: Env, w: World, sub: Subdomain)
    ensures forall r :: r in Tried(env, w, sub) ==> r in sub.records && r.status == Active
  {
    WithStatusMembers(sub.records, Active);
  }

  /** Ids aside, a failed suspension whose compensating calls all succeed leaves the provider as it was, type, name,
      content, TTL and proxy flag, if and only if every record that was tried had been there. */
  lemma FailedSuspendKeepsContentsIff(env: Env, w: World, sub: Subdomain, reason: string)
    requires Suspendable(w, sub) && Mirrored(w.zones.live, sub.records) && !Suspend(env, w, sub, reason).ok
    requires Suspend(env, w, sub, reason).failed == 0
    ensures Contents(Suspend(env, w, sub, reason).world.zones.live) == Contents(w.zones.live)
       <==> forall r :: r in Tried(env, w, sub) ==> r.key in w.zones.live
  {
    FailedSuspendIsCleanIff(env, w, sub, reason);
    var live2 := Suspend(env, w, sub, reason).world.zones.live;
    assert Contents(live2).Keys == live2.Keys && Contents(w.zones.live).Keys == w.zones.live.Keys;
    if live2.Keys == w.zones.live.Keys {
      SameKeysSameContents(env, w, sub, reason);
    }
  }

  lemma SameKeysSameContents(env: Env, w: World, sub: Subdomain, reason: string)
    requires Suspendable(w, sub) && Mirrored(w.zones.live, sub.records) && !Suspend(env, w, sub, reason).ok
    requires Suspend(env, w, sub, reason).world.zones.live.Keys == w.zones.live.Keys
    ensures Contents(Suspend(env, w, sub, reason).world.zones.live) == Contents(w.zones.live)
  {
    var tried := Tried(env, w, sub);
    FailedSuspendCompensates(env, w, sub, reason);
    TriedAreGone(env, w, sub);
    TriedAreRecords(env, w, sub);
    RecreateEffect(env, BeforeRepair(env, w, sub), tried);
    RepairedContents(w.zones.live, BeforeRepair(env, w, sub).zones, Suspend(env, w, sub, reason).world.zones,
                     AlignedKeys(w.zones.live, tried), tried);
  }

  // ---------- after a failed suspension ----------

  /** Every stored id was handed out at some time. */
  ghost predicate HandedOut(w: World, sub: Subdomain) {
    forall r :: r in sub.records && r.status == Active ==> r.providerId < w.zones.next
  }

  lemma StillNotForeign(env: Env, w: World, sub: Subdomain, reason: string, r: Row)
    requires Suspendable(w, sub) && !Suspend(env, w, sub, reason).ok
    requires r in sub.records && r.status == Active && r.providerId < w.zones.next
    ensures NoForeignId(Suspend(env, w, sub, reason).world.zones.live, r)
  {
    FailedSuspendMeans(env, w, sub, reason);
    assert NoForeignId(w.zones.live, r);
  }

  /** A failed suspension leaves a state from which all of the above holds again, for the same copy. */
  lemma FailureKeepsSuspendable(env: Env, w: World, sub: Subdomain, reason: string)
    requires Suspendable(w, sub) && HandedOut(w, sub) && !Suspend(env, w, sub, reason).ok
    ensures Suspendable(Suspend(env, w, sub, reason).world, sub) && HandedOut(Suspend(env, w, sub, reason).world, sub)
  {
    FailedSuspendLeavesDatabase(env, w, sub, reason);
    FailedSuspendMeans(env, w, sub, reason);
    forall r | r in sub.records && r.status == Active
      ensures NoForeignId(Suspend(env, w, sub, reason).world.zones.live, r)
    {
      StillNotForeign(env, w, sub, reason, r);
    }
  }

  /** A record that was deleted and re-created has lost its stored id. */
  lemma RecreatedIsMissed(env: Env, w: World, sub: Subdomain, reason: string, r: Row)
    requires Suspendable(w, sub) && HandedOut(w, sub) && !Suspend(env, w, sub, reason).ok
    requires r in Tried(env, w, sub) && r.providerId != NO_ID && Aligned(w.zones.live, r)
    requires r.key in Suspend(env, w, sub, reason).world.zones.live
    ensures !Aligned(Suspend(env, w, sub, reason).world.zones.live, r)
  {
    FailedSuspendMeans(env, w, sub, reason);
    TriedAreRecords(env, w, sub);
    assert r.key in AlignedKeys(w.zones.live, Tried(env, w, sub));
  }

  /** The new ids are thrown away: after a failed suspension the stored ids of the records it had deleted and
      re-created miss them, so a later suspension that reports success leaves those records in place. */
  lemma RetrySparesRecreated(env: Env, w: World, sub: Subdomain, reason: string, env2: Env, reason2: string, r: Row)
    requires Suspendable(w, sub) && HandedOut(w, sub) && DistinctKeys(sub.records) && !Suspend(env, w, sub, reason).ok
    requires r in Tried(env, w, sub) && r.providerId != NO_ID && Aligned(w.zones.live, r)
    requires r.key in Suspend(env, w, sub, reason).world.zones.live
    requires Suspend(env2, Suspend(env, w, sub, reason).world, sub, reason2).ok
    ensures r.key in Suspend(env2, Suspend(env, w, sub, reason).world, sub, reason2).world.zones.live
  {
    TriedAreRecords(env, w, sub);
    FailureKeepsSuspendable(env, w, sub, reason);
    RecreatedIsMissed(env, w, sub, reason, r);
    SurvivesIffMissed(env2, Suspend(env, w, sub, reason).world, sub, reason2, r);
  }
}
