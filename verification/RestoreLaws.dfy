/** What restoring a subdomain does to the two sides, and that it undoes a suspension. */
module RestoreLaws {
  import opened Wrappers
  import opened Provider
  import opened Suspension
  import opened SuspensionLaws
  import opened SuspensionOutcome

  // ---------- creating ----------

  /** Entry i of `restored` says under which id record i is live. */
  ghost predicate Recorded(live: Records, rows: seq<Row>, restored: seq<Restored>) {
    && |rows| == |restored|
    && forall i :: 0 <= i < |rows| ==>
         && rows[i].key in live
         && restored[i] == Restored(rows[i].id, rows[i].key.zone, live[rows[i].key].id)
  }

  lemma ExtendsFurther(z: Zones, z1: Zones, z2: Zones, r: Row, rest: seq<Row>, rows: seq<Row>)
    requires rows == [r] + rest
    requires Extends(z, z1, [r]) && SettingsFrom(z, z1, [r]) && Extends(z1, z2, rest) && SettingsFrom(z1, z2, rest)
    ensures Extends(z, z2, rows) && SettingsFrom(z, z2, rows)
  {
    assert forall x :: x in rows <==> x == r || x in rest;
    assert forall x :: x in [r] <==> x == r;
    forall k | k in z2.live && k !in z.live ensures exists x :: x in rows && x.key == k && x.settings == z2.live[k].settings {
      if k in z1.live { assert r in rows && r.key == k; }
    }
    assert Keys(rows) == {r.key} + Keys(rest);
  }

  lemma ExtendsNothing(z: Zones)
    requires Valid(z)
    ensures Extends(z, z, []) && SettingsFrom(z, z, [])
  {
  }

  lemma {:induction false} CreateRecordsLength(env: Env, w: World, rows: seq<Row>)
    ensures var c := CreateRecords(env, w, rows);
      |c.restored| <= |rows| && (c.ok ==> |c.restored| == |rows|) && c.world.db == w.db
    decreases |rows|
  {
    if rows != [] && CreateRecord(env, w, rows[0]).1.Some? {
      CreateRecordsLength(env, CreateRecord(env, w, rows[0]).0, rows[1..]);
    }
  }

  /** The records that were created or adopted. */
  function CreatedRows(env: Env, w: World, rows: seq<Row>): seq<Row> {
    CreateRecordsLength(env, w, rows);
    rows[..|CreateRecords(env, w, rows).restored|]
  }

  lemma CreatedRowsSplit(env: Env, w: World, rows: seq<Row>)
    requires rows != []
    ensures var (w1, id) := CreateRecord(env, w, rows[0]);
      CreatedRows(env, w, rows) == if id.None? then [] else [rows[0]] + CreatedRows(env, w1, rows[1..])
  {
    var (w1, id) := CreateRecord(env, w, rows[0]);
    if id.Some? {
      CreateRecordsLength(env, w1, rows[1..]);
      var n := |CreateRecords(env, w1, rows[1..]).restored|;
      assert rows[..n + 1] == [rows[0]] + rows[1..][..n];
    }
  }

  lemma {:induction false} CreatedRowsExtend(env: Env, w: World, rows: seq<Row>)
    requires Valid(w.zones)
    ensures var z := CreateRecords(env, w, rows).world.zones;
      Extends(w.zones, z, CreatedRows(env, w, rows)) && SettingsFrom(w.zones, z, CreatedRows(env, w, rows))
    decreases |rows|
  {
    ExtendsNothing(w.zones);
    if rows != [] {
      var (w1, id) := CreateRecord(env, w, rows[0]);
      CreateRecordEffect(env, w, rows[0]);
      CreatedRowsSplit(env, w, rows);
      if id.Some? {
        CreatedRowsExtend(env, w1, rows[1..]);
        ExtendsFurther(w.zones, w1.zones, CreateRecords(env, w1, rows[1..]).world.zones,
                       rows[0], CreatedRows(env, w1, rows[1..]), CreatedRows(env, w, rows));
      }
    }
  }

  /** Records are created up to the first failure. */
  lemma CreateRecordsEffect(env: Env, w: World, rows: seq<Row>)
    requires Valid(w.zones)
    ensures var c := CreateRecords(env, w, rows); var n := |c.restored|;
      && n <= |rows| && (c.ok ==> n == |rows|) && c.world.db == w.db
      && Extends(w.zones, c.world.zones, rows[..n]) && SettingsFrom(w.zones, c.world.zones, rows[..n])
  {
    CreateRecordsLength(env, w, rows);
    CreatedRowsExtend(env, w, rows);
  }

  lemma RecordedFurther(live: Records, r: Row, id: nat, rest: seq<Row>, restored: seq<Restored>)
    requires Recorded(live, rest, restored) && r.key in live && live[r.key].id == id
    ensures Recorded(live, [r] + rest, [Restored(r.id, r.key.zone, id)] + restored)
  {
  }

  lemma {:induction false} CreatedRowsRecorded(env: Env, w: World, rows: seq<Row>)
    requires Valid(w.zones)
    ensures var c := CreateRecords(env, w, rows); Recorded(c.world.zones.live, CreatedRows(env, w, rows), c.restored)
    decreases |rows|
  {
    if rows != [] {
      var (w1, id) := CreateRecord(env, w, rows[0]);
      CreateRecordEffect(env, w, rows[0]);
      CreatedRowsSplit(env, w, rows);
      if id.Some? {
        CreatedRowsRecorded(env, w1, rows[1..]);
        CreatedRowsExtend(env, w1, rows[1..]);
        var c := CreateRecords(env, w1, rows[1..]);
        RecordedFurther(c.world.zones.live, rows[0], id.value, CreatedRows(env, w1, rows[1..]), c.restored);
      }
    }
  }

  /** Each is live under the id that is reported for it. */
  lemma CreateRecordsRecorded(env: Env, w: World, rows: seq<Row>)
    requires Valid(w.zones)
    ensures var c := CreateRecords(env, w, rows);
      |c.restored| <= |rows| && Recorded(c.world.zones.live, rows[..|c.restored|], c.restored)
  {
    CreateRecordsLength(env, w, rows);
    CreatedRowsRecorded(env, w, rows);
  }

  // ---------- compensating ----------

  /** The id belongs to that record and to no other. */
  ghost predicate OwnId(live: Records, key: Key, r: Restored) {
    r.zone == key.zone && forall k :: k in live && k.zone == key.zone ==> (live[k].id == r.providerId <==> k == key)
  }

  ghost predicate OwnIds(live: Records, rows: seq<Row>, restored: seq<Restored>) {
    |rows| == |restored| && forall i :: 0 <= i < |rows| ==> OwnId(live, rows[i].key, restored[i])
  }

  lemma RecordsAreOwn(z: Zones, rows: seq<Row>, restored: seq<Restored>)
    requires Valid(z) && Recorded(z.live, rows, restored)
    ensures OwnIds(z.live, rows, restored)
  {
  }

  lemma DeleteOwn(env: Env, w: World, key: Key, r: Restored)
    requires OwnId(w.zones.live, key, r)
    ensures var s := DeleteById(env, w, r.zone, r.providerId);
      && s.world.db == w.db && s.world.zones.next == w.zones.next
      && s.world.zones.live == if s.ok then w.zones.live - {key} else w.zones.live
  {
    assert Delete(w.zones.live, r.zone, r.providerId) == w.zones.live - {key};
  }

  lemma OwnIdsOfRest(live: Records, live1: Records, rows: seq<Row>, restored: seq<Restored>)
    requires OwnIds(live, rows, restored) && rows != []
    requires live1 == live || live1 == live - {rows[0].key}
    ensures OwnIds(live1, rows[1..], restored[1..])
  {
    forall i | 0 <= i < |rows| - 1 ensures OwnId(live1, rows[1..][i].key, restored[1..][i]) {
      assert OwnId(live, rows[i + 1].key, restored[i + 1]);
    }
  }

  /** `z2` is `z` without some of the keys. */
  ghost predicate Shrinks(z: Zones, z2: Zones, keys: set<Key>) {
    && Valid(z2) && z2.live.Keys <= z.live.Keys && (forall k :: k in z2.live ==> z2.live[k] == z.live[k])
    && (forall k :: k in z.live && k !in keys ==> k in z2.live)
  }

  lemma {:induction false} DeleteEachEffect(env: Env, w: World, rows: seq<Row>, restored: seq<Restored>)
    requires Valid(w.zones) && OwnIds(w.zones.live, rows, restored)
    ensures var p := DeleteEach(env, w, restored);
      && p.world.db == w.db && Shrinks(w.zones, p.world.zones, Keys(rows))
      && (p.failed == 0 ==> forall k :: k in Keys(rows) ==> k !in p.world.zones.live)
    decreases |rows|
  {
    if rows != [] {
      DeleteOwn(env, w, rows[0].key, restored[0]);
      var s := Suspension.DeleteById(env, w, restored[0].zone, restored[0].providerId);
      OwnIdsOfRest(w.zones.live, s.world.zones.live, rows, restored);
      assert Valid(s.world.zones);
      DeleteEachEffect(env, s.world, rows[1..], restored[1..]);
      KeysSplit(rows);
    }
  }

  /** The keys that are left over are as many as the calls that failed. */
  lemma {:induction false} DeleteEachLeaves(env: Env, w: World, rows: seq<Row>, restored: seq<Restored>)
    requires Valid(w.zones) && OwnIds(w.zones.live, rows, restored) && DistinctKeys(rows)
    requires forall k :: k in Keys(rows) ==> k in w.zones.live
    ensures var p := DeleteEach(env, w, restored); |Keys(rows) * p.world.zones.live.Keys| == p.failed
    decreases |rows|
  {
    if rows != [] {
      KeysSplit(rows);
      DeleteOwn(env, w, rows[0].key, restored[0]);
      var s := Suspension.DeleteById(env, w, restored[0].zone, restored[0].providerId);
      OwnIdsOfRest(w.zones.live, s.world.zones.live, rows, restored);
      DeleteEachLeaves(env, s.world, rows[1..], restored[1..]);
      DeleteEachEffect(env, s.world, rows[1..], restored[1..]);
      LeftSplit(rows[0].key, Keys(rows[1..]), DeleteEach(env, w, restored).world.zones.live.Keys);
    }
  }

  lemma LeftSplit(k: Key, rest: set<Key>, live: set<Key>)
    requires k !in rest
    ensures |({k} + rest) * live| == |rest * live| + (if k in live then 1 else 0)
  {
    assert ({k} + rest) * live == if k in live then {k} + rest * live else rest * live;
  }

  // ---------- a restore that fails ----------

  /** The records that a restore lists, and those of them that it created or adopted before a failure. */
  function Listed(w: World, sub: Subdomain): seq<Row> { WithStatus(OfSub(w.db.rows, sub.id), Suspended) }

  function Created(env: Env, w: World, sub: Subdomain): Creation { CreateRecords(env, Called(w), Listed(w, sub)) }

  function Attempted(env: Env, w: World, sub: Subdomain): seq<Row>
    requires Valid(w.zones)
  {
    if sub.status != Suspended || env.fails(w.calls) then []
    else
      CreateRecordsEffect(env, Called(w), Listed(w, sub));
      Listed(w, sub)[..|Created(env, w, sub).restored|]
  }

  /** The world in which a failed restore starts to compensate. */
  function BeforeCleanup(env: Env, w: World, sub: Subdomain): World {
    var c := Created(env, w, sub);
    c.world.(calls := if c.ok then Statements(env, c.world.calls, |Listed(w, sub)| + 2).0 else c.world.calls)
  }

  lemma FailedRestoreCompensates(env: Env, w: World, sub: Subdomain)
    requires sub.status == Suspended && !env.fails(w.calls) && !Restore(env, w, sub).ok
    ensures var (o, p) := (Restore(env, w, sub), DeleteRestored(env, BeforeCleanup(env, w, sub), Created(env, w, sub).restored));
      o.world == p.world && o.failed == p.failed
  {
  }

  lemma CreatedAndOwned(env: Env, w: World, sub: Subdomain)
    requires Valid(w.zones) && sub.status == Suspended && !env.fails(w.calls)
    ensures var (b, rows, restored) := (BeforeCleanup(env, w, sub), Attempted(env, w, sub), Created(env, w, sub).restored);
      && b.db == w.db && Extends(w.zones, b.zones, rows) && SettingsFrom(w.zones, b.zones, rows)
      && OwnIds(b.zones.live, rows, restored) && Keys(rows) <= b.zones.live.Keys
  {
    var listed := Listed(w, sub);
    CreateRecordsEffect(env, Called(w), listed);
    CreateRecordsRecorded(env, Called(w), listed);
    RecordsAreOwn(BeforeCleanup(env, w, sub).zones, Attempted(env, w, sub), Created(env, w, sub).restored);
  }

  lemma DeleteRestoredEffect(env: Env, w: World, rows: seq<Row>, restored: seq<Restored>)
    requires Valid(w.zones) && OwnIds(w.zones.live, rows, restored)
    ensures var p := DeleteRestored(env, w, restored);
      && p.world.db == w.db && Shrinks(w.zones, p.world.zones, Keys(rows))
      && (p.failed == 0 ==> forall k :: k in Keys(rows) ==> k !in p.world.zones.live)
  {
    DeleteEachEffect(env, Called(w), rows, restored);
  }

  lemma DeleteRestoredLeaves(env: Env, w: World, rows: seq<Row>, restored: seq<Restored>)
    requires Valid(w.zones) && OwnIds(w.zones.live, rows, restored)
    requires DistinctKeys(rows) && Keys(rows) <= w.zones.live.Keys
    ensures var p := DeleteRestored(env, w, restored); |Keys(rows) * p.world.zones.live.Keys| == p.failed
  {
    DeleteEachLeaves(env, Called(w), rows, restored);
    AsManyKeys(rows);
    assert Keys(rows) * w.zones.live.Keys == Keys(rows);
  }

  lemma {:induction false} AsManyKeys(rows: seq<Row>)
    requires DistinctKeys(rows)
    ensures |Keys(rows)| == |rows|
  {
    if rows != [] {
      KeysSplit(rows);
      AsManyKeys(rows[1..]);
    }
  }

  lemma ThereAndBack(z: Zones, z1: Zones, z2: Zones, rows: seq<Row>)
    requires Extends(z, z1, rows) && Shrinks(z1, z2, Keys(rows)) && Keys(rows) <= z1.live.Keys
    ensures forall k :: k in z2.live ==> k in z.live || k in Keys(rows)
    ensures forall k :: k in z.live && k !in Keys(rows) ==> k in z2.live
    ensures forall k :: k in z.live && k in z2.live ==> z2.live[k] == z.live[k]
    ensures (forall k :: k in Keys(rows) ==> k !in z2.live) ==> z2.live == z.live - Keys(rows)
  {
  }

  /** A failed restore leaves the database alone, and the provider as it was but for the records it attempted. If the
      compensating deletes succeed, those are gone, whether it had created them or found them there. */
  lemma FailedRestoreMeans(env: Env, w: World, sub: Subdomain)
    requires Valid(w.zones) && !Restore(env, w, sub).ok
    ensures var (o, tried) := (Restore(env, w, sub), Keys(Attempted(env, w, sub))); var live2 := o.world.zones.live;
      && o.world.db == w.db && Valid(o.world.zones)
      && (forall k :: k in live2 ==> k in w.zones.live || k in tried)
      && (forall k :: k in w.zones.live && k !in tried ==> k in live2)
      && (forall k :: k in w.zones.live && k in live2 ==> live2[k] == w.zones.live[k])
      && (o.failed == 0 ==> live2 == w.zones.live - tried)
  {
    if sub.status == Suspended && !env.fails(w.calls) {
      FailedRestoreCompensates(env, w, sub);
      CreatedAndOwned(env, w, sub);
      var b := BeforeCleanup(env, w, sub);
      DeleteRestoredEffect(env, b, Attempted(env, w, sub), Created(env, w, sub).restored);
      ThereAndBack(w.zones, b.zones, Restore(env, w, sub).world.zones, Attempted(env, w, sub));
    } else {
      assert Keys(Attempted(env, w, sub)) == {};
    }
  }

  /** So it leaves the provider as it was, ids included, if and only if no attempted record had been live before: an
      adopted record is deleted. */
  lemma FailedRestoreIsCleanIff(env: Env, w: World, sub: Subdomain)
    requires Valid(w.zones) && !Restore(env, w, sub).ok && Restore(env, w, sub).failed == 0
    ensures Restore(env, w, sub).world.zones.live == w.zones.live
       <==> forall r :: r in Attempted(env, w, sub) ==> r.key !in w.zones.live
  {
    FailedRestoreMeans(env, w, sub);
    var rows := Attempted(env, w, sub);
    if r :| r in rows && r.key in w.zones.live {
      assert r.key in Keys(rows);
    } else {
      assert w.zones.live - Keys(rows) == w.zones.live;
    }
  }

  lemma AttemptedAreListed(env: Env, w: World, sub: Subdomain)
    requires Valid(w.zones)
    ensures forall r :: r in Attempted(env, w, sub) ==> r in Listed(w, sub)
    ensures DistinctKeys(Listed(w, sub)) ==> DistinctKeys(Attempted(env, w, sub))
  {
    CreateRecordsEffect(env, Called(w), Listed(w, sub));
  }

  lemma CleanupCounts(env: Env, w: World, sub: Subdomain)
    requires Valid(w.zones) && !Restore(env, w, sub).ok && DistinctKeys(Attempted(env, w, sub))
    ensures var o := Restore(env, w, sub); |Keys(Attempted(env, w, sub)) * o.world.zones.live.Keys| == o.failed
  {
    var rows := Attempted(env, w, sub);
    if sub.status == Suspended && !env.fails(w.calls) {
      FailedRestoreCompensates(env, w, sub);
      CreatedAndOwned(env, w, sub);
      DeleteRestoredLeaves(env, BeforeCleanup(env, w, sub), rows, Created(env, w, sub).restored);
    } else {
      assert Keys(rows) * Restore(env, w, sub).world.zones.live.Keys == {};
    }
  }

  lemma AddedKeys(live: set<Key>, live2: set<Key>, tried: set<Key>)
    requires live2 <= live + tried && live !! tried
    ensures live2 - live == tried * live2
  {
  }

  /** When none of the suspended records is live, what a failed restore leaves behind is as much as its failed calls. */
  lemma FailedRestoreLeaves(env: Env, w: World, sub: Subdomain)
    requires Valid(w.zones) && !Restore(env, w, sub).ok
    requires DistinctKeys(Listed(w, sub)) && forall r :: r in Listed(w, sub) ==> r.key !in w.zones.live
    ensures var o := Restore(env, w, sub); |o.world.zones.live.Keys - w.zones.live.Keys| == o.failed
  {
    FailedRestoreMeans(env, w, sub);
    AttemptedAreListed(env, w, sub);
    CleanupCounts(env, w, sub);
    AddedKeys(w.zones.live.Keys, Restore(env, w, sub).world.zones.live.Keys, Keys(Attempted(env, w, sub)));
  }

  // ---------- a restore that succeeds ----------

  /** The subdomain's suspended records are active again, each with the id under which it is live. */
  function AllRestored(rows: seq<Row>, sub: nat, live: Records): seq<Row> {
    seq(|rows|, i requires 0 <= i < |rows| =>
      if rows[i].sub == sub && rows[i].status == Suspended && rows[i].key in live
      then rows[i].(status := Active, providerId := live[rows[i].key].id)
      else rows[i])
  }

  lemma {:induction false} MarkRestoredAt(rows: seq<Row>, restored: seq<Restored>, i: nat, id: nat)
    requires i < |rows|
    requires forall x :: x in restored && x.row == rows[i].id ==> x.providerId == id && id != NO_ID
    ensures |MarkRestored(rows, restored)| == |rows|
    ensures MarkRestored(rows, restored)[i] == if exists x :: x in restored && x.row == rows[i].id
                                               then rows[i].(status := Active, providerId := id) else rows[i]
    decreases |restored|
  {
    if restored != [] {
      var rows1 := SetRow(rows, restored[0].row, Active, restored[0].providerId);
      assert restored[0] in restored;
      MarkRestoredAt(rows1, restored[1..], i, id);
      if x :| x in restored && x.row == rows[i].id {
        assert x == restored[0] || x in restored[1..];
      }
    }
  }

  lemma {:induction false} MarkRestoredLength(rows: seq<Row>, restored: seq<Restored>)
    ensures |MarkRestored(rows, restored)| == |rows|
    decreases |restored|
  {
    if restored != [] {
      MarkRestoredLength(SetRow(rows, restored[0].row, Active, restored[0].providerId), restored[1..]);
    }
  }

  lemma ListedMembers(w: World, sub: Subdomain)
    ensures forall r :: r in Listed(w, sub) <==> r in w.db.rows && r.sub == sub.id && r.status == Suspended
  {
    OfSubMembers(w.db.rows, sub.id);
    WithStatusMembers(OfSub(w.db.rows, sub.id), Suspended);
  }

  lemma RestoredRowAt(w: World, sub: Subdomain, z: Zones, restored: seq<Restored>, i: nat)
    requires UniqueIds(w.db.rows) && Valid(z) && Recorded(z.live, Listed(w, sub), restored) && i < |w.db.rows|
    ensures |MarkRestored(w.db.rows, restored)| == |w.db.rows|
    ensures MarkRestored(w.db.rows, restored)[i] == AllRestored(w.db.rows, sub.id, z.live)[i]
  {
    var rows, listed := w.db.rows, Listed(w, sub);
    var r := rows[i];
    ListedMembers(w, sub);
    assert r in rows;
    forall x | x in restored && x.row == r.id
      ensures r in listed && x.providerId == z.live[r.key].id && x.providerId != NO_ID
    {
      var j :| 0 <= j < |restored| && restored[j] == x;
      assert listed[j] in listed && listed[j].id == r.id;
      var l :| 0 <= l < |rows| && rows[l] == listed[j];
      assert l == i;
    }
    MarkRestoredAt(rows, restored, i, if r.key in z.live then z.live[r.key].id else NO_ID);
    if r in listed {
      var j :| 0 <= j < |listed| && listed[j] == r;
      assert restored[j] in restored && restored[j].row == r.id;
    }
  }

  /** A restore that reports success has made the subdomain and its suspended records active, all of them are live at
      the provider, which has gained nothing else, and every restored record's stored id names its live record. */
  lemma RestoredMeans(env: Env, w: World, sub: Subdomain)
    requires Valid(w.zones) && UniqueIds(w.db.rows) && sub.id in w.db.subs && Restore(env, w, sub).ok
    ensures var o := Restore(env, w, sub); var live2 := o.world.zones.live;
      && o.world.db == Database(w.db.subs[sub.id := SubRow(w.db.subs[sub.id].user, Active, "", None)],
                                AllRestored(w.db.rows, sub.id, live2))
      && Extends(w.zones, o.world.zones, Listed(w, sub)) && SettingsFrom(w.zones, o.world.zones, Listed(w, sub))
      && Keys(Listed(w, sub)) <= live2.Keys
  {
    var rows, listed := w.db.rows, Listed(w, sub);
    var c := Created(env, w, sub);
    CreateRecordsEffect(env, Called(w), listed);
    CreateRecordsRecorded(env, Called(w), listed);
    assert listed[..|c.restored|] == listed;
    MarkRestoredLength(rows, c.restored);
    forall i | 0 <= i < |rows| ensures MarkRestored(rows, c.restored)[i] == AllRestored(rows, sub.id, c.world.zones.live)[i] {
      RestoredRowAt(w, sub, c.world.zones, c.restored, i);
    }
    assert MarkRestored(rows, c.restored) == AllRestored(rows, sub.id, c.world.zones.live);
  }

  // ---------- suspending, then restoring ----------

  /** Two lists of rows that differ in provider ids at most. */
  ghost predicate SameButIds(rows: seq<Row>, rows2: seq<Row>) {
    |rows| == |rows2| && forall i :: 0 <= i < |rows| ==> rows2[i] == rows[i].(providerId := rows2[i].providerId)
  }

  /** After a suspension a restore lists every record of the subdomain. */
  lemma SuspendedAreListed(env: Env, w: World, sub: Subdomain, reason: string, sub2: Subdomain)
    requires WellNamed(w, sub) && Suspend(env, w, sub, reason).ok && sub2.id == sub.id
    ensures var w1 := Suspend(env, w, sub, reason).world;
      && UniqueIds(w1.db.rows)
      && (forall r :: r in Listed(w1, sub2) ==> r in sub.records || r.(status := Active) in sub.records)
      && (forall r :: r in sub.records ==> r.(status := Suspended) in Listed(w1, sub2))
      && Keys(Listed(w1, sub2)) == Keys(sub.records)
  {
    SuspendedMeans(env, w, sub, reason);
    var w1 := Suspend(env, w, sub, reason).world;
    var listed := Listed(w1, sub2);
    ListedMembers(w1, sub2);
    forall r | r in listed ensures r in sub.records || r.(status := Active) in sub.records {
      var i :| 0 <= i < |w1.db.rows| && w1.db.rows[i] == r;
      assert w.db.rows[i] in w.db.rows;
    }
    forall r | r in sub.records ensures r.(status := Suspended) in listed {
      var i :| 0 <= i < |w.db.rows| && w.db.rows[i] == r;
      assert w1.db.rows[i] == r.(status := Suspended);
    }
    SameKeysBut(sub.records, listed);
  }

  lemma SameKeysBut(rows: seq<Row>, listed: seq<Row>)
    requires forall r :: r in listed ==> r in rows || r.(status := Active) in rows
    requires forall r :: r in rows ==> r.(status := Suspended) in listed
    ensures Keys(listed) == Keys(rows)
  {
    forall k | k in Keys(rows) ensures k in Keys(listed) {
      var r :| r in rows && r.key == k;
      assert r.(status := Suspended) in listed;
    }
    forall k | k in Keys(listed) ensures k in Keys(rows) {
      var r :| r in listed && r.key == k;
      assert r.(status := Active).key == k;
    }
  }

  lemma GoneAndBack(z: Zones, z1: Zones, z2: Zones, gone: set<Key>, listed: seq<Row>)
    requires z1.live == z.live - gone && gone <= z.live.Keys && gone <= Keys(listed)
    requires Extends(z1, z2, listed) && SettingsFrom(z1, z2, listed) && Keys(listed) <= z2.live.Keys
    ensures z2.live.Keys == z.live.Keys + Keys(listed)
    ensures forall k :: k in z.live && k !in Keys(listed) ==> z2.live[k] == z.live[k]
    ensures Mirrored(z.live, listed) ==> forall k :: k in z.live ==> z2.live[k].settings == z.live[k].settings
  {
    forall k | k in z.live && Mirrored(z.live, listed) ensures z2.live[k].settings == z.live[k].settings {
      if k !in z1.live {
        var r :| r in listed && r.key == k && r.settings == z2.live[k].settings;
      }
    }
  }

  lemma ActiveWereLive(env: Env, w: World, sub: Subdomain, reason: string)
    requires WellNamed(w, sub) && Suspend(env, w, sub, reason).ok
    ensures Keys(WithStatus(sub.records, Active)) <= w.zones.live.Keys
  {
    TriedWereNamed(env, w, sub);
    assert Tried(env, w, sub) == WithStatus(sub.records, Active);
  }

  lemma StatusIsNotMirrored(live: Records, rows: seq<Row>, listed: seq<Row>)
    requires forall r :: r in listed ==> r in rows || r.(status := Active) in rows
    ensures Mirrored(live, rows) ==> Mirrored(live, listed)
  {
    if Mirrored(live, rows) {
      forall r | r in listed && r.key in live ensures live[r.key].settings == r.settings {
        assert r in rows || r.(status := Active).settings == r.settings;
      }
    }
  }

  /** Restoring undoes a suspension at the provider, whatever calls fail in between: what it held it holds again, and
      of the subdomain's records it holds them all. */
  lemma RestoreUndoesSuspendAtProvider(env: Env, w: World, sub: Subdomain, reason: string, env2: Env, sub2: Subdomain)
    requires WellNamed(w, sub) && Suspend(env, w, sub, reason).ok
    requires sub2.id == sub.id && Restore(env2, Suspend(env, w, sub, reason).world, sub2).ok
    ensures var live, live2 := w.zones.live, Restore(env2, Suspend(env, w, sub, reason).world, sub2).world.zones.live;
      && live2.Keys == live.Keys + Keys(sub.records)
      && (forall k :: k in live && k !in Keys(sub.records) ==> live2[k] == live[k])
      && (Mirrored(live, sub.records) ==> forall k :: k in live ==> live2[k].settings == live[k].settings)
  {
    var w1 := Suspend(env, w, sub, reason).world;
    WithStatusMembers(sub.records, Active);
    SuspendedMeans(env, w, sub, reason);
    SuspendedRecordsAreGone(env, w, sub, reason);
    SuspendedAreListed(env, w, sub, reason, sub2);
    ActiveWereLive(env, w, sub, reason);
    RestoredMeans(env2, w1, sub2);
    StatusIsNotMirrored(w.zones.live, sub.records, Listed(w1, sub2));
    GoneAndBack(w.zones, w1.zones, Restore(env2, w1, sub2).world.zones, Keys(WithStatus(sub.records, Active)), Listed(w1, sub2));
  }

  /** The same records and no others, if none had been suspended before. */
  lemma RestoreUndoesSuspendOfContents(env: Env, w: World, sub: Subdomain, reason: string, env2: Env, sub2: Subdomain)
    requires WellNamed(w, sub) && Suspend(env, w, sub, reason).ok
    requires sub2.id == sub.id && Restore(env2, Suspend(env, w, sub, reason).world, sub2).ok
    requires Mirrored(w.zones.live, sub.records) && forall r :: r in sub.records ==> r.status == Active
    ensures Contents(Restore(env2, Suspend(env, w, sub, reason).world, sub2).world.zones.live) == Contents(w.zones.live)
  {
    var live2 := Restore(env2, Suspend(env, w, sub, reason).world, sub2).world.zones.live;
    RestoreUndoesSuspendAtProvider(env, w, sub, reason, env2, sub2);
    AllActiveWereLive(env, w, sub, reason);
    assert live2.Keys == w.zones.live.Keys;
  }

  lemma AllActiveWereLive(env: Env, w: World, sub: Subdomain, reason: string)
    requires WellNamed(w, sub) && Suspend(env, w, sub, reason).ok && forall r :: r in sub.records ==> r.status == Active
    ensures Keys(sub.records) <= w.zones.live.Keys
  {
    ActiveWereLive(env, w, sub, reason);
    WithStatusMembers(sub.records, Active);
    assert Keys(sub.records) == Keys(WithStatus(sub.records, Active));
  }

  function Reactivated(rows: seq<Row>, sub: nat, live: Records): seq<Row> {
    seq(|rows|, i requires 0 <= i < |rows| =>
      if rows[i].sub == sub && rows[i].key in live then rows[i].(status := Active, providerId := live[rows[i].key].id)
      else rows[i])
  }

  lemma ReactivatedRows(rows: seq<Row>, sub: nat, live: Records)
    requires forall r :: r in rows && r.sub == sub ==> r.key in live
    ensures AllRestored(AllSuspended(rows, sub), sub, live) == Reactivated(rows, sub, live)
    ensures forall r :: r in Reactivated(rows, sub, live) && r.sub == sub ==>
              r.status == Active && r.key in live && live[r.key].id == r.providerId
    ensures SameButIds(rows, Reactivated(rows, sub, live)) <==> forall r :: r in rows && r.sub == sub ==> r.status == Active
  {
    var rows2 := Reactivated(rows, sub, live);
    if r :| r in rows && r.sub == sub && r.status != Active {
      var i :| 0 <= i < |rows| && rows[i] == r;
      assert rows2[i].status == Active;
    } else {
      forall i | 0 <= i < |rows| ensures rows2[i] == rows[i].(providerId := rows2[i].providerId) {
        assert rows[i] in rows;
      }
    }
  }

  lemma BackInDatabase(w: World, suspended: Database, w2: World, sub: Subdomain)
    requires Loaded(w.db, sub) && Keys(sub.records) <= w2.zones.live.Keys
    requires suspended.rows == AllSuspended(w.db.rows, sub.id)
    requires w2.db.rows == AllRestored(suspended.rows, sub.id, w2.zones.live)
    ensures forall r :: r in w2.db.rows && r.sub == sub.id ==>
              r.status == Active && r.key in w2.zones.live && w2.zones.live[r.key].id == r.providerId
    ensures SameButIds(w.db.rows, w2.db.rows) <==> forall r :: r in sub.records ==> r.status == Active
  {
    forall r | r in w.db.rows && r.sub == sub.id ensures r.key in w2.zones.live {
      assert r in sub.records && r.key in Keys(sub.records);
    }
    ReactivatedRows(w.db.rows, sub.id, w2.zones.live);
  }

  lemma BothTransactions(env: Env, w: World, sub: Subdomain, reason: string, env2: Env, sub2: Subdomain)
    requires WellNamed(w, sub) && Suspend(env, w, sub, reason).ok
    requires sub2.id == sub.id && Restore(env2, Suspend(env, w, sub, reason).world, sub2).ok
    ensures var w1 := Suspend(env, w, sub, reason).world; var w2 := Restore(env2, w1, sub2).world;
      && w1.db.rows == AllSuspended(w.db.rows, sub.id)
      && w2.db.subs == w.db.subs[sub.id := SubRow(w.db.subs[sub.id].user, Active, "", None)]
      && w2.db.rows == AllRestored(w1.db.rows, sub.id, w2.zones.live)
      && Keys(sub.records) <= w2.zones.live.Keys
  {
    var w1 := Suspend(env, w, sub, reason).world;
    SuspendedMeans(env, w, sub, reason);
    SuspendedAreListed(env, w, sub, reason, sub2);
    RestoredMeans(env2, w1, sub2);
  }

  /** And in the database: the subdomain is active, an active subdomain having neither reason nor time of suspension;
      its records are active and each id names the live record. Provider ids aside, the record table is what it was if
      and only if no record had been suspended before. */
  lemma RestoreUndoesSuspendInDatabase(env: Env, w: World, sub: Subdomain, reason: string, env2: Env, sub2: Subdomain)
    requires WellNamed(w, sub) && Suspend(env, w, sub, reason).ok
    requires sub2.id == sub.id && Restore(env2, Suspend(env, w, sub, reason).world, sub2).ok
    ensures var w2 := Restore(env2, Suspend(env, w, sub, reason).world, sub2).world;
      && w2.db.subs == w.db.subs[sub.id := SubRow(w.db.subs[sub.id].user, Active, "", None)]
      && (forall r :: r in w2.db.rows && r.sub == sub.id ==>
            r.status == Active && r.key in w2.zones.live && w2.zones.live[r.key].id == r.providerId)
      && (SameButIds(w.db.rows, w2.db.rows) <==> forall r :: r in sub.records ==> r.status == Active)
  {
    var w1 := Suspend(env, w, sub, reason).world;
    BothTransactions(env, w, sub, reason, env2, sub2);
    BackInDatabase(w, w1.db, Restore(env2, w1, sub2).world, sub);
  }

  /** A restore of a suspended subdomain that fails, but whose compensating deletes succeed, leaves both sides as the
      suspension left them. */
  lemma FailedRestoreAfterSuspend(env: Env, w: World, sub: Subdomain, reason: string, env2: Env, sub2: Subdomain)
    requires WellNamed(w, sub) && Suspend(env, w, sub, reason).ok && forall r :: r in sub.records ==> r.status == Active
    requires var o := Restore(env2, Suspend(env, w, sub, reason).world, sub2);
      sub2.id == sub.id && !o.ok && o.failed == 0
    ensures var w1 := Suspend(env, w, sub, reason).world; var o := Restore(env2, w1, sub2);
      o.world.db == w1.db && o.world.zones.live == w1.zones.live
  {
    var w1 := Suspend(env, w, sub, reason).world;
    WithStatusMembers(sub.records, Active);
    SuspendedMeans(env, w, sub, reason);
    SuspendedRecordsAreGone(env, w, sub, reason);
    SuspendedAreListed(env, w, sub, reason, sub2);
    AttemptedAreListed(env2, w1, sub2);
    assert Keys(sub.records) == Keys(WithStatus(sub.records, Active));
    forall r | r in Attempted(env2, w1, sub2) ensures r.key !in w1.zones.live {
      assert r.key in Keys(Listed(w1, sub2));
    }
    FailedRestoreMeans(env2, w1, sub2);
    FailedRestoreIsCleanIff(env2, w1, sub2);
  }

  // ---------- an adopted record ----------

  lemma OneIsAdopted(w: World, sub: Subdomain, r: Row)
    requires Valid(w.zones) && sub.status == Suspended && Listed(w, sub) == [r] && r.key in w.zones.live
    ensures var env := FailingAt(w.calls + 3); var id := w.zones.live[r.key].id;
      Created(env, w, sub) == Creation(w.(calls := w.calls + 3), [Restored(r.id, r.key.zone, id)], true)
  {
    var env := FailingAt(w.calls + 3);
    var id := w.zones.live[r.key].id;
    var next := w.(calls := w.calls + 3);
    assert CreateRecord(env, Called(w), r) == (next, Some(id));
    assert [r][1..] == [] && CreateRecords(env, next, []) == Creation(next, [], true);
    assert [Restored(r.id, r.key.zone, id)] + [] == [Restored(r.id, r.key.zone, id)];
  }

  lemma OneIsDeleted(env: Env, w: World, x: Restored)
    requires !env.fails(w.calls) && !env.fails(w.calls + 1) && !env.fails(w.calls + 2)
    ensures var p := DeleteRestored(env, w, [x]);
      p.failed == 0 && p.world.zones.live == Delete(w.zones.live, x.zone, x.providerId)
  {
    assert [x][1..] == [];
    assert DeleteEach(env, DeleteById(env, Called(w), x.zone, x.providerId).world, []).failed == 0;
  }

  /** One failing statement is enough: the only record was live before, is adopted, and then deleted. */
  lemma AdoptedRecordIsDeleted(w: World, sub: Subdomain, r: Row)
    requires Valid(w.zones) && sub.status == Suspended && Listed(w, sub) == [r] && r.key in w.zones.live
    ensures var o := Restore(FailingAt(w.calls + 3), w, sub);
      !o.ok && o.failed == 0 && o.world.db == w.db && r.key !in o.world.zones.live
  {
    var env := FailingAt(w.calls + 3);
    OneIsAdopted(w, sub, r);
    assert Statements(env, w.calls + 3, 3) == (w.calls + 4, false);
    OneIsDeleted(env, w.(calls := w.calls + 4), Restored(r.id, r.key.zone, w.zones.live[r.key].id));
    FailedRestoreMeans(env, w, sub);
  }

  /** It happens after RetryCanSpareARecord: the record that the retry left live is lost in a failed restore. */
  lemma SparedRecordIsLost(env2: Env)
    requires forall c :: !env2.fails(c)
    ensures var first := Suspend(FailingAt(2), START, Load(START.db, 1), "first");
      var w := Suspend(env2, first.world, Load(START.db, 1), "second").world;
      && 1 in w.db.subs && KEY in w.zones.live
      && var o := Restore(FailingAt(w.calls + 3), w, Load(w.db, 1));
         !o.ok && o.failed == 0 && o.world.db == w.db && KEY !in o.world.zones.live
  {
    var sub := Load(START.db, 1);
    var w1 := Suspend(FailingAt(2), START, sub, "first").world;
    var w := Suspend(env2, w1, sub, "second").world;
    var r := RECORD.(status := Suspended);
    RetryCanSpareARecord(env2);
    StartIsWellNamed();
    StartIsLoaded();
    FailureKeepsSuspendable(FailingAt(2), START, sub, "first");
    FailedSuspendLeavesDatabase(FailingAt(2), START, sub, "first");
    SuspendedMeans(env2, w1, sub, "second");
    OnlySuspendedRow(r);
    AdoptedRecordIsDeleted(w, Load(w.db, 1), r);
  }

  lemma OnlySuspendedRow(r: Row)
    requires r.status == Suspended
    ensures OfSub([r], r.sub) == [r] && WithStatus([r], Suspended) == [r]
  {
    assert [r][..0] == [] && OfSub([], r.sub) == [] && WithStatus([], Suspended) == [];
  }
}
