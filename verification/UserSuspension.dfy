/** Suspending all of a user's subdomains (server/internal/service/audit_service.go:338-362). */
module UserSuspension {
  import opened Wrappers
  import opened Provider
  import opened Suspension
  import opened SuspensionLaws
  import opened SuspensionOutcome
  import opened RestoreLaws

  /** `done` subdomains were suspended before the first that was not; `failed` counts the latter's failed repairs. */
  datatype Sweep = Sweep(world: World, done: nat, ok: bool, failed: nat)

  function SuspendEach(env: Env, w: World, subs: seq<Subdomain>, reason: string): (s: Sweep)
    ensures s.done <= |subs|
    decreases |subs|
  {
    if subs == [] then Sweep(w, 0, true, 0)
    else
      var o := Suspend(env, w, subs[0], reason);
      if !o.ok then Sweep(o.world, 0, false, o.failed)
      else
        var rest := SuspendEach(env, o.world, subs[1..], reason);
        rest.(done := rest.done + 1)
  }

  /** Every copy is tried; `failed` counts the restores that were refused or went wrong. */
  function RestoreEach(env: Env, w: World, subs: seq<Subdomain>): Repair
    decreases |subs|
  {
    if subs == [] then Repair(w, 0)
    else
      var o := Restore(env, w, subs[0]);
      var rest := RestoreEach(env, o.world, subs[1..]);
      if o.ok then rest else rest.(failed := rest.failed + 1)
  }

  /** suspendUserSubdomains, where `subs` is what the query for the user's active subdomains returns. */
  function SuspendUser(env: Env, w: World, subs: seq<Subdomain>, reason: string): World {
    if env.fails(w.calls) then Called(w)
    else
      var s := SuspendEach(env, Called(w), subs, reason);
      if s.ok then s.world else RestoreEach(env, s.world, subs[..s.done]).world
  }

  /** The same with a rollback that restores refreshed copies. */
  function SuspendUserRefreshed(env: Env, w: World, subs: seq<Subdomain>, reason: string): World {
    if env.fails(w.calls) then Called(w)
    else
      var s := SuspendEach(env, Called(w), subs, reason);
      if s.ok then s.world else RestoreEach(env, s.world, Refreshed(subs[..s.done])).world
  }

  function Refreshed(subs: seq<Subdomain>): (r: seq<Subdomain>)
    ensures |r| == |subs| && forall i :: 0 <= i < |r| ==> r[i] == subs[i].(status := Suspended)
  {
    seq(|subs|, i requires 0 <= i < |subs| => subs[i].(status := Suspended))
  }

  // ---------- some subdomains suspended ----------

  function Ids(subs: seq<Subdomain>): set<nat> { set s | s in subs :: s.id }

  function RowsSuspended(rows: seq<Row>, subs: set<nat>): seq<Row> {
    seq(|rows|, i requires 0 <= i < |rows| => if rows[i].sub in subs then rows[i].(status := Suspended) else rows[i])
  }

  /** Record ids are unique, and no two subdomains have a record in common: a record's name ends in its subdomain's. */
  ghost predicate WellStored(rows: seq<Row>) {
    UniqueIds(rows) && forall r, r2 :: r in rows && r2 in rows && r.key == r2.key ==> r.sub == r2.sub
  }

  ghost predicate SubsSuspended(subs0: map<nat, SubRow>, subs: map<nat, SubRow>, some: set<nat>, reason: string) {
    && subs.Keys == subs0.Keys
    && forall s :: s in subs0 ==>
         if s in some then subs[s] == SubRow(subs0[s].user, Suspended, reason, subs[s].suspendedAt) && subs[s].suspendedAt.Some?
         else subs[s] == subs0[s]
  }

  /** The database of `w` is that of `w0` with those subdomains suspended. */
  ghost predicate DbSuspended(w0: World, w: World, subs: set<nat>, reason: string) {
    w.db.rows == RowsSuspended(w0.db.rows, subs) && SubsSuspended(w0.db.subs, w.db.subs, subs, reason)
  }

  /** The keys that suspending these subdomains takes from the provider. */
  ghost function TakenKeys(w0: World, subs: set<nat>): set<Key> {
    set r | r in w0.db.rows && r.sub in subs && r.status == Active && Aligned(w0.zones.live, r) :: r.key
  }

  ghost predicate ExactlySuspended(w0: World, w: World, subs: set<nat>, reason: string) {
    && DbSuspended(w0, w, subs, reason) && Valid(w.zones) && w.zones.next == w0.zones.next
    && w.zones.live == w0.zones.live - TakenKeys(w0, subs)
  }

  /** What the query returns: distinct active subdomains as they are stored. */
  ghost predicate Listing(w0: World, subs: seq<Subdomain>) {
    && WellStored(w0.db.rows)
    && (forall s :: s in subs ==> Suspendable(w0, s))
    && (forall i, j :: 0 <= i < j < |subs| ==> subs[i].id != subs[j].id)
  }

  lemma StillLoaded(w0: World, w: World, some: set<nat>, sub: Subdomain, reason: string)
    requires DbSuspended(w0, w, some, reason) && Loaded(w0.db, sub) && sub.id !in some
    ensures Loaded(w.db, sub)
  {
    var rows := w.db.rows;
    forall r ensures r in sub.records <==> r in rows && r.sub == sub.id {
      if r in sub.records {
        var i :| 0 <= i < |w0.db.rows| && w0.db.rows[i] == r;
        assert rows[i] == r;
      }
      if r in rows && r.sub == sub.id {
        var i :| 0 <= i < |rows| && rows[i] == r;
        assert w0.db.rows[i] == r;
      }
    }
  }

  /** The records of subdomains not yet reached are as they were. */
  lemma NotTaken(w0: World, some: set<nat>, sub: Subdomain, r: Row)
    requires WellStored(w0.db.rows) && Loaded(w0.db, sub) && sub.id !in some && r in sub.records
    ensures r.key !in TakenKeys(w0, some)
  {
  }

  lemma StillThere(w0: World, w: World, some: set<nat>, sub: Subdomain, reason: string)
    requires WellStored(w0.db.rows) && ExactlySuspended(w0, w, some, reason) && Loaded(w0.db, sub) && sub.id !in some
    ensures forall r :: r in sub.records ==> (r.key in w.zones.live <==> r.key in w0.zones.live)
    ensures forall r :: r in sub.records ==> (Aligned(w.zones.live, r) <==> Aligned(w0.zones.live, r))
    ensures forall r :: r in sub.records && Names(w0.zones.live, r) ==> Names(w.zones.live, r)
  {
    forall r | r in sub.records ensures r.key !in TakenKeys(w0, some) { NotTaken(w0, some, sub, r); }
  }

  /** Subdomains not yet suspended are still as they were loaded, and with them their records at the provider. */
  lemma StillSuspendable(w0: World, w: World, some: set<nat>, sub: Subdomain, reason: string)
    requires WellStored(w0.db.rows) && ExactlySuspended(w0, w, some, reason) && Suspendable(w0, sub) && sub.id !in some
    ensures Suspendable(w, sub)
    ensures WellNamed(w0, sub) ==> WellNamed(w, sub)
    ensures Findable(w.zones.live, sub.records) <==> Findable(w0.zones.live, sub.records)
  {
    StillLoaded(w0, w, some, sub, reason);
    StillThere(w0, w, some, sub, reason);
    forall r | r in sub.records && r.status == Active ensures NoForeignId(w.zones.live, r) {
      assert NoForeignId(w0.zones.live, r);
    }
  }

  lemma OneMoreRows(rows: seq<Row>, some: set<nat>, id: nat)
    ensures AllSuspended(RowsSuspended(rows, some), id) == RowsSuspended(rows, some + {id})
  {
  }

  lemma OneMoreKeys(w0: World, w: World, some: set<nat>, sub: Subdomain, reason: string)
    requires WellStored(w0.db.rows) && ExactlySuspended(w0, w, some, reason) && Loaded(w0.db, sub) && sub.id !in some
    ensures TakenKeys(w0, some + {sub.id})
         == TakenKeys(w0, some) + AlignedKeys(w.zones.live, WithStatus(sub.records, Active))
  {
    WithStatusMembers(sub.records, Active);
    StillThere(w0, w, some, sub, reason);
  }

  lemma OneMoreSuspended(env: Env, w0: World, w: World, some: set<nat>, sub: Subdomain, reason: string)
    requires WellStored(w0.db.rows) && ExactlySuspended(w0, w, some, reason) && Suspendable(w0, sub) && sub.id !in some
    requires Suspend(env, w, sub, reason).ok
    ensures ExactlySuspended(w0, Suspend(env, w, sub, reason).world, some + {sub.id}, reason)
  {
    StillSuspendable(w0, w, some, sub, reason);
    SuspendedMeans(env, w, sub, reason);
    OneMoreInDatabase(w0, w, Suspend(env, w, sub, reason).world, some, sub.id, reason);
    OneMoreKeys(w0, w, some, sub, reason);
  }

  lemma OneMoreInDatabase(w0: World, w: World, w2: World, some: set<nat>, id: nat, reason: string)
    requires DbSuspended(w0, w, some, reason) && id in w0.db.subs && id !in some
    requires exists at :: w2.db == Database(w.db.subs[id := SubRow(w.db.subs[id].user, Suspended, reason, Some(at))],
                                            AllSuspended(w.db.rows, id))
    ensures DbSuspended(w0, w2, some + {id}, reason)
  {
    OneMoreRows(w0.db.rows, some, id);
  }

  /** The world in which the first subdomain that cannot be suspended is tried, or the last world. */
  function Stop(env: Env, w: World, subs: seq<Subdomain>, reason: string): World
    decreases |subs|
  {
    if subs == [] then w
    else
      var o := Suspend(env, w, subs[0], reason);
      if o.ok then Stop(env, o.world, subs[1..], reason) else w
  }

  /** Suspending one after the other suspends exactly the prefix before the first failure; what follows is the failed
      attempt at the next. */
  lemma {:induction false} SuspendEachEffect(env: Env, w0: World, w: World, some: set<nat>, subs: seq<Subdomain>, reason: string)
    requires Listing(w0, subs) && ExactlySuspended(w0, w, some, reason) && Ids(subs) !! some
    ensures var s, stop := SuspendEach(env, w, subs, reason), Stop(env, w, subs, reason);
      && ExactlySuspended(w0, stop, some + Ids(subs[..s.done]), reason)
      && (s.ok ==> s.done == |subs| && s.world == stop && s.failed == 0)
      && (!s.ok ==> s.done < |subs| && !Suspend(env, stop, subs[s.done], reason).ok
                    && s.world == Suspend(env, stop, subs[s.done], reason).world
                    && s.failed == Suspend(env, stop, subs[s.done], reason).failed)
    decreases |subs|
  {
    if subs == [] {
      assert some + Ids([]) == some;
    } else {
      var sub := subs[0];
      var o := Suspend(env, w, sub, reason);
      assert sub.id in Ids(subs);
      if o.ok {
        OneMoreSuspended(env, w0, w, some, sub, reason);
        assert Ids(subs[1..]) !! (some + {sub.id});
        SuspendEachEffect(env, w0, o.world, some + {sub.id}, subs[1..], reason);
        var n := SuspendEach(env, o.world, subs[1..], reason).done;
        IdsSplit(subs, n);
        assert some + {sub.id} + Ids(subs[1..][..n]) == some + Ids(subs[..n + 1]);
      } else {
        assert some + Ids(subs[..0]) == some;
      }
    }
  }

  lemma IdsSplit(subs: seq<Subdomain>, n: nat)
    requires subs != [] && n < |subs|
    ensures Ids(subs[..n + 1]) == {subs[0].id} + Ids(subs[1..][..n])
  {
    assert subs[..n + 1] == [subs[0]] + subs[1..][..n];
  }

  // ---------- the rollback as written ----------

  /** Copies that still say active are refused: no call is made and nothing changes. */
  lemma {:induction false} ActiveCopiesAreRefused(env: Env, w: World, subs: seq<Subdomain>)
    requires forall s :: s in subs ==> s.status == Active
    ensures RestoreEach(env, w, subs) == Repair(w, |subs|)
    decreases |subs|
  {
    if subs != [] {
      ActiveCopiesAreRefused(env, w, subs[1..]);
    }
  }

  lemma NoneIsSuspended(w0: World, w: World, reason: string)
    requires Valid(w0.zones) && w.zones == w0.zones && w.db == w0.db
    ensures ExactlySuspended(w0, w, {}, reason)
  {
    assert RowsSuspended(w0.db.rows, {}) == w0.db.rows;
    assert w0.zones.live - TakenKeys(w0, {}) == w0.zones.live;
  }

  /** How many subdomains come before the first that cannot be suspended. */
  function Done(env: Env, w: World, subs: seq<Subdomain>, reason: string): (n: nat)
    ensures n <= |subs|
  {
    if env.fails(w.calls) then 0 else SuspendEach(env, Called(w), subs, reason).done
  }

  function Prefix(env: Env, w: World, subs: seq<Subdomain>, reason: string): set<nat> {
    Ids(subs[..Done(env, w, subs, reason)])
  }

  lemma RunOfAll(env: Env, w: World, subs: seq<Subdomain>, reason: string)
    requires Valid(w.zones) && Listing(w, subs) && !env.fails(w.calls)
    ensures var s, stop := SuspendEach(env, Called(w), subs, reason), Stop(env, Called(w), subs, reason);
      && SuspendUser(env, w, subs, reason) == s.world
      && ExactlySuspended(w, stop, Prefix(env, w, subs, reason), reason)
      && (s.ok ==> s.done == |subs| && s.world == stop && s.failed == 0)
      && (!s.ok ==> s.done < |subs| && Suspendable(stop, subs[s.done])
                    && !Suspend(env, stop, subs[s.done], reason).ok
                    && s.world == Suspend(env, stop, subs[s.done], reason).world
                    && s.failed == Suspend(env, stop, subs[s.done], reason).failed)
  {
    NoneIsSuspended(w, Called(w), reason);
    SuspendEachEffect(env, w, Called(w), {}, subs, reason);
    var s, stop := SuspendEach(env, Called(w), subs, reason), Stop(env, Called(w), subs, reason);
    assert {} + Ids(subs[..s.done]) == Prefix(env, w, subs, reason);
    if !s.ok {
      forall c | c in subs[..s.done] ensures c.status == Active { assert c in subs && Suspendable(w, c); }
      ActiveCopiesAreRefused(env, s.world, subs[..s.done]);
      NextIsLater(subs, s.done);
      StillSuspendable(w, stop, Prefix(env, w, subs, reason), subs[s.done], reason);
    }
  }

  lemma NextIsLater(subs: seq<Subdomain>, n: nat)
    requires n < |subs| && forall i, j :: 0 <= i < j < |subs| ==> subs[i].id != subs[j].id
    ensures subs[n].id !in Ids(subs[..n])
  {
  }

  /** The user-level suspension as written, in the database: exactly the subdomains before the first failure end up
      suspended; the rollback undoes none of them. */
  lemma PrefixStaysSuspended(env: Env, w: World, subs: seq<Subdomain>, reason: string)
    requires Valid(w.zones) && Listing(w, subs)
    ensures DbSuspended(w, SuspendUser(env, w, subs, reason), Prefix(env, w, subs, reason), reason)
  {
    if env.fails(w.calls) {
      NoneIsSuspended(w, Called(w), reason);
      assert subs[..0] == [] && Ids([]) == {};
    } else {
      RunOfAll(env, w, subs, reason);
      var s, stop := SuspendEach(env, Called(w), subs, reason), Stop(env, Called(w), subs, reason);
      if !s.ok { FailedSuspendLeavesDatabase(env, stop, subs[s.done], reason); }
    }
  }

  /** And at the provider: it has lost exactly the records of that prefix, as far as stored ids did not miss them, up
      to the records of the subdomain whose suspension failed. */
  lemma PrefixIsTaken(env: Env, w: World, subs: seq<Subdomain>, reason: string, k: Key)
    requires Valid(w.zones) && Listing(w, subs)
    requires var n := Done(env, w, subs, reason); n < |subs| ==> k !in Keys(subs[n].records)
    ensures var live2, some := SuspendUser(env, w, subs, reason).zones.live, Prefix(env, w, subs, reason);
      && (k in live2 <==> k in w.zones.live && k !in TakenKeys(w, some))
      && (k in live2 ==> live2[k] == w.zones.live[k])
  {
    if env.fails(w.calls) {
      NoneIsSuspended(w, Called(w), reason);
      assert subs[..0] == [] && Ids([]) == {};
    } else {
      RunOfAll(env, w, subs, reason);
      var s, stop := SuspendEach(env, Called(w), subs, reason), Stop(env, Called(w), subs, reason);
      if !s.ok {
        FailedSuspendMeans(env, stop, subs[s.done], reason);
        TriedAreRecords(env, stop, subs[s.done]);
        assert k !in Keys(Tried(env, stop, subs[s.done]));
      }
    }
  }

  /** With well-named records, and if no compensating call failed, the provider's contents are those without the active
      records of the prefix. */
  lemma PrefixIsTakenExactly(env: Env, w: World, subs: seq<Subdomain>, reason: string)
    requires Valid(w.zones) && Listing(w, subs) && Mirrored(w.zones.live, w.db.rows)
    requires forall s :: s in subs ==> WellNamed(w, s)
    requires !env.fails(w.calls) ==> SuspendEach(env, Called(w), subs, reason).failed == 0
    ensures Contents(SuspendUser(env, w, subs, reason).zones.live)
         == Contents(w.zones.live - TakenKeys(w, Prefix(env, w, subs, reason)))
  {
    if env.fails(w.calls) {
      NoneIsSuspended(w, Called(w), reason);
      assert subs[..0] == [] && Ids([]) == {};
    } else {
      RunOfAll(env, w, subs, reason);
      var s, stop := SuspendEach(env, Called(w), subs, reason), Stop(env, Called(w), subs, reason);
      if !s.ok {
        var sub := subs[s.done];
        NextIsLater(subs, s.done);
        StillSuspendable(w, stop, Prefix(env, w, subs, reason), sub, reason);
        TriedWereNamed(env, stop, sub);
        assert forall r :: r in Tried(env, stop, sub) ==> r.key in Keys(Tried(env, stop, sub));
        FailedSuspendKeepsContentsIff(env, stop, sub, reason);
      }
    }
  }

  // ---------- when it is all or nothing ----------

  function TotalCost(subs: seq<Subdomain>): nat {
    if subs == [] then 0 else Cost(subs[0]) + TotalCost(subs[1..])
  }

  ghost predicate AllFindable(live: Records, subs: seq<Subdomain>) {
    forall s :: s in subs ==> Findable(live, s.records)
  }

  ghost predicate DistinctRecords(subs: seq<Subdomain>) {
    forall s :: s in subs ==> DistinctKeys(s.records)
  }

  lemma ListingRest(w0: World, subs: seq<Subdomain>)
    requires Listing(w0, subs) && DistinctRecords(subs) && subs != []
    ensures Listing(w0, subs[1..]) && DistinctRecords(subs[1..])
    ensures subs[0].id !in Ids(subs[1..]) && Ids(subs) == {subs[0].id} + Ids(subs[1..])
    ensures forall live :: AllFindable(live, subs) <==> Findable(live, subs[0].records) && AllFindable(live, subs[1..])
  {
    assert forall s :: s in subs <==> s == subs[0] || s in subs[1..];
  }

  /** Whether a subdomain can be suspended by the calls from `from` on. */
  ghost predicate CanSuspend(env: Env, from: nat, live: Records, sub: Subdomain) {
    AllSucceed(env, from, from + Cost(sub)) && Findable(live, sub.records)
  }

  ghost predicate CanSuspendAll(env: Env, from: nat, live: Records, subs: seq<Subdomain>) {
    AllSucceed(env, from, from + TotalCost(subs)) && AllFindable(live, subs)
  }

  lemma FirstCanBeSuspendedIff(env: Env, w0: World, w: World, some: set<nat>, sub: Subdomain, reason: string)
    requires WellStored(w0.db.rows) && ExactlySuspended(w0, w, some, reason) && Suspendable(w0, sub) && sub.id !in some
    requires DistinctKeys(sub.records)
    ensures var o := Suspend(env, w, sub, reason);
      && (o.ok <==> CanSuspend(env, w.calls, w0.zones.live, sub))
      && (o.ok ==> o.world.calls == w.calls + Cost(sub) && ExactlySuspended(w0, o.world, some + {sub.id}, reason))
  {
    StillSuspendable(w0, w, some, sub, reason);
    SuspendSucceedsIff(env, w, sub, reason);
    if Suspend(env, w, sub, reason).ok { OneMoreSuspended(env, w0, w, some, sub, reason); }
  }

  /** All of a list are suspended if and only if none of the calls they take together fails, and every active record
      without a stored id is live. */
  lemma {:induction false} SuspendEachSucceedsIff(env: Env, w0: World, w: World, some: set<nat>, subs: seq<Subdomain>, reason: string)
    requires Listing(w0, subs) && DistinctRecords(subs) && ExactlySuspended(w0, w, some, reason) && Ids(subs) !! some
    ensures SuspendEach(env, w, subs, reason).ok <==> CanSuspendAll(env, w.calls, w0.zones.live, subs)
    decreases |subs|
  {
    if subs != [] {
      var sub := subs[0];
      var o := Suspend(env, w, sub, reason);
      assert sub.id in Ids(subs) && sub in subs;
      ListingRest(w0, subs);
      FirstCanBeSuspendedIff(env, w0, w, some, sub, reason);
      AllSucceedSplit(env, w.calls, w.calls + Cost(sub), w.calls + TotalCost(subs));
      if o.ok { SuspendEachSucceedsIff(env, w0, o.world, some + {sub.id}, subs[1..], reason); }
    }
  }

  lemma DoneDecides(env: Env, w: World, subs: seq<Subdomain>, reason: string)
    requires Valid(w.zones) && Listing(w, subs) && DistinctRecords(subs) && !env.fails(w.calls) && subs != []
    ensures Done(env, w, subs, reason) == 0 <==> !CanSuspend(env, w.calls + 1, w.zones.live, subs[0])
    ensures Done(env, w, subs, reason) == |subs| <==> CanSuspendAll(env, w.calls + 1, w.zones.live, subs)
  {
    NoneIsSuspended(w, Called(w), reason);
    assert subs[0] in subs;
    FirstCanBeSuspendedIff(env, w, Called(w), {}, subs[0], reason);
    SuspendEachSucceedsIff(env, w, Called(w), {}, subs, reason);
    SuspendEachEffect(env, w, Called(w), {}, subs, reason);
  }

  /** The user-level suspension as written is all or nothing if and only if the listing fails, or there is nothing to
      suspend, or the first subdomain cannot be suspended, or all can. */
  lemma AllOrNothingIff(env: Env, w: World, subs: seq<Subdomain>, reason: string)
    requires Valid(w.zones) && Listing(w, subs) && DistinctRecords(subs)
    ensures var w2 := SuspendUser(env, w, subs, reason);
      DbSuspended(w, w2, {}, reason) || DbSuspended(w, w2, Ids(subs), reason)
      <==> || env.fails(w.calls)
           || subs == []
           || !CanSuspend(env, w.calls + 1, w.zones.live, subs[0])
           || CanSuspendAll(env, w.calls + 1, w.zones.live, subs)
  {
    PrefixDecides(env, w, subs, reason);
    if !env.fails(w.calls) && subs != [] { DoneDecides(env, w, subs, reason); }
  }

  lemma PrefixDecides(env: Env, w: World, subs: seq<Subdomain>, reason: string)
    requires Valid(w.zones) && Listing(w, subs)
    ensures var (w2, n) := (SuspendUser(env, w, subs, reason), Done(env, w, subs, reason));
      && (DbSuspended(w, w2, {}, reason) <==> n == 0)
      && (DbSuspended(w, w2, Ids(subs), reason) <==> n == |subs|)
  {
    var w2, n := SuspendUser(env, w, subs, reason), Done(env, w, subs, reason);
    PrefixStaysSuspended(env, w, subs, reason);
    if n == 0 { assert subs[..0] == [] && Ids([]) == {}; }
    if n == |subs| { assert subs[..n] == subs; }
    if n > 0 { SuspendedInTable(w, w2, subs, 0, n, reason); }
    if n < |subs| { SuspendedInTable(w, w2, subs, n, n, reason); }
  }

  /** Whether subdomain i is before the first failure can be seen in the table. */
  lemma SuspendedInTable(w: World, w2: World, subs: seq<Subdomain>, i: nat, n: nat, reason: string)
    requires Listing(w, subs) && i < |subs| && n <= |subs| && DbSuspended(w, w2, Ids(subs[..n]), reason)
    ensures subs[i].id in w2.db.subs && (w2.db.subs[subs[i].id].status == Suspended <==> i < n)
    ensures w.db.subs[subs[i].id].status == Active && subs[i].id in Ids(subs)
  {
    assert subs[i] in subs && Suspendable(w, subs[i]);
    if i < n {
      assert subs[..n][i] in subs[..n];
    } else {
      assert subs[i].id !in Ids(subs[..n]);
    }
  }

  // ---------- an input on which it is neither ----------

  const RECORD2 := Row(2, 2, KEY.(name := "b.example"), Settings(300, false), 2, Active)
  const START2 := World(Zones(map[KEY := Entry(1, Settings(300, false)), RECORD2.key := Entry(2, Settings(300, false))], 3),
                        Database(map[1 := SubRow(9, Active, "", None), 2 := SubRow(9, Active, "", None)], [RECORD, RECORD2]), 0)
  const SUBS := [Subdomain(1, Active, [RECORD]), Subdomain(2, Active, [RECORD2])]

  lemma SubsAreListed()
    ensures Valid(START2.zones) && Listing(START2, SUBS) && DistinctRecords(SUBS)
  {
    RecordsOfTwo();
    forall s | s in SUBS ensures Suspendable(START2, s) && DistinctKeys(s.records) { assert s == SUBS[0] || s == SUBS[1]; }
  }

  lemma RecordsOfTwo()
    ensures forall r :: r in [RECORD] ==> r == RECORD && NoForeignId(START2.zones.live, r)
    ensures forall r :: r in [RECORD2] ==> r == RECORD2 && NoForeignId(START2.zones.live, r)
  {
  }

  lemma CostsOfSubs()
    ensures Cost(SUBS[0]) == 6 && Cost(SUBS[1]) == 6 && TotalCost(SUBS) == 12
  {
    ActiveOfOne(RECORD);
    ActiveOfOne(RECORD2);
    assert [RECORD][1..] == [] && [RECORD2][1..] == [] && DeletionCost([]) == 0;
    assert SUBS[1..] == [SUBS[1]] && [SUBS[1]][1..] == [] && TotalCost([]) == 0;
    assert TotalCost([SUBS[1]]) == 6;
  }

  /** Two subdomains with one record each; the first call for the second fails. The first stays suspended. */
  lemma TwoSubdomainsOneSuspended()
    ensures Valid(START2.zones) && Listing(START2, SUBS)
    ensures var w2 := SuspendUser(FailingAt(7), START2, SUBS, "rule");
      !DbSuspended(START2, w2, {}, "rule") && !DbSuspended(START2, w2, Ids(SUBS), "rule")
  {
    var env := FailingAt(7);
    SubsAreListed();
    CostsOfSubs();
    assert CanSuspend(env, 1, START2.zones.live, SUBS[0]);
    assert !CanSuspendAll(env, 1, START2.zones.live, SUBS) by { assert 1 <= 7 < 13 && env.fails(7); }
    AllOrNothingIff(env, START2, SUBS, "rule");
  }

  // ---------- a rollback that sees the refreshed status ----------

  function ActiveKeys(rows: seq<Row>, subs: set<nat>): set<Key> {
    set r | r in rows && r.sub in subs && r.status == Active :: r.key
  }

  /** The provider holds what it held before but for the active records of those subdomains, all of which it had; with
      the same settings, if the table tells the settings. */
  ghost predicate LiveWithout(w0: World, w: World, subs: set<nat>) {
    && Valid(w.zones)
    && ActiveKeys(w0.db.rows, subs) <= w0.zones.live.Keys
    && w.zones.live.Keys == w0.zones.live.Keys - ActiveKeys(w0.db.rows, subs)
    && (Mirrored(w0.zones.live, w0.db.rows) ==>
          forall k :: k in w.zones.live ==> w.zones.live[k].settings == w0.zones.live[k].settings)
  }

  /** The statuses are those of `w0` with those subdomains suspended; provider ids may differ. */
  ghost predicate StatusesSuspended(w0: World, w: World, subs: set<nat>, reason: string) {
    && SameButIds(RowsSuspended(w0.db.rows, subs), w.db.rows) && UniqueIds(w0.db.rows)
    && SubsSuspended(w0.db.subs, w.db.subs, subs, reason) && LiveWithout(w0, w, subs)
  }

  /** An active subdomain has neither reason nor time of suspension, and none of its records is suspended. */
  ghost predicate CleanlyActive(db: Database, sub: nat) {
    && sub in db.subs && db.subs[sub] == SubRow(db.subs[sub].user, Active, "", None)
    && forall r :: r in db.rows && r.sub == sub ==> r.status == Active
  }

  lemma OneLessRows(rows0: seq<Row>, rows: seq<Row>, some: set<nat>, id: nat, live: Records)
    requires SameButIds(RowsSuspended(rows0, some), rows) && id in some
    requires forall r :: r in rows0 && r.sub == id ==> r.status == Active
    requires forall r :: r in rows && r.sub == id ==> r.key in live
    ensures SameButIds(RowsSuspended(rows0, some - {id}), AllRestored(rows, id, live))
  {
    var rows2 := AllRestored(rows, id, live);
    forall i | 0 <= i < |rows0|
      ensures rows2[i] == RowsSuspended(rows0, some - {id})[i].(providerId := rows2[i].providerId)
    {
      assert rows0[i] in rows0 && rows[i] in rows;
    }
  }

  /** A restore lists the subdomain's rows as they were but for status and id. */
  lemma ListedFrom(w0: World, w: World, some: set<nat>, sub: Subdomain, reason: string)
    requires StatusesSuspended(w0, w, some, reason) && CleanlyActive(w0.db, sub.id) && sub.id in some
    ensures Keys(Listed(w, sub)) == ActiveKeys(w0.db.rows, {sub.id})
    ensures forall r :: r in w.db.rows && r.sub == sub.id ==> r.key in Keys(Listed(w, sub))
    ensures Mirrored(w0.zones.live, w0.db.rows) ==> Mirrored(w0.zones.live, Listed(w, sub))
  {
    var listed := Listed(w, sub);
    ListedMembers(w, sub);
    forall r | r in w.db.rows && r.sub == sub.id
      ensures r in listed && r.key in ActiveKeys(w0.db.rows, {sub.id})
      ensures Mirrored(w0.zones.live, w0.db.rows) && r.key in w0.zones.live ==> w0.zones.live[r.key].settings == r.settings
    {
      var i :| 0 <= i < |w.db.rows| && w.db.rows[i] == r;
      assert w0.db.rows[i] in w0.db.rows;
    }
    forall k | k in ActiveKeys(w0.db.rows, {sub.id}) ensures k in Keys(listed) {
      var r :| r in w0.db.rows && r.sub == sub.id && r.key == k;
      var i :| 0 <= i < |w0.db.rows| && w0.db.rows[i] == r;
      assert w.db.rows[i] in w.db.rows;
    }
  }

  lemma OneLessKeys(rows: seq<Row>, some: set<nat>, id: nat, live: set<Key>)
    requires WellStored(rows) && id in some && ActiveKeys(rows, some) <= live
    ensures live - ActiveKeys(rows, some) + ActiveKeys(rows, {id}) == live - ActiveKeys(rows, some - {id})
    ensures ActiveKeys(rows, some - {id}) <= live
  {
    assert ActiveKeys(rows, some) == ActiveKeys(rows, some - {id}) + ActiveKeys(rows, {id});
    forall k | k in ActiveKeys(rows, {id}) ensures k !in ActiveKeys(rows, some - {id}) {
      var r :| r in rows && r.sub == id && r.status == Active && r.key == k;
      assert forall r2 :: r2 in rows && r2.key == k ==> r2.sub == id;
    }
  }

  lemma UniqueButIds(rows: seq<Row>, rows2: seq<Row>)
    requires UniqueIds(rows) && SameButIds(rows, rows2)
    ensures UniqueIds(rows2)
  {
  }

  lemma OneLessLive(w0: World, w: World, w2: World, some: set<nat>, id: nat, listed: seq<Row>)
    requires WellStored(w0.db.rows) && LiveWithout(w0, w, some) && id in some
    requires Keys(listed) == ActiveKeys(w0.db.rows, {id})
    requires Mirrored(w0.zones.live, w0.db.rows) ==> Mirrored(w0.zones.live, listed)
    requires Extends(w.zones, w2.zones, listed) && SettingsFrom(w.zones, w2.zones, listed) && Keys(listed) <= w2.zones.live.Keys
    ensures LiveWithout(w0, w2, some - {id})
  {
    OneLessKeys(w0.db.rows, some, id, w0.zones.live.Keys);
    assert w2.zones.live.Keys == w.zones.live.Keys + Keys(listed);
    forall k | k in w2.zones.live && Mirrored(w0.zones.live, w0.db.rows)
      ensures w2.zones.live[k].settings == w0.zones.live[k].settings
    {
      if k !in w.zones.live {
        var r :| r in listed && r.key == k && r.settings == w2.zones.live[k].settings;
      }
    }
  }

  lemma OneLessSuspended(env: Env, w0: World, w: World, some: set<nat>, sub: Subdomain, reason: string)
    requires WellStored(w0.db.rows) && StatusesSuspended(w0, w, some, reason) && CleanlyActive(w0.db, sub.id)
    requires sub.id in some && Restore(env, w, sub).ok
    ensures StatusesSuspended(w0, Restore(env, w, sub).world, some - {sub.id}, reason)
  {
    UniqueButIds(RowsSuspended(w0.db.rows, some), w.db.rows);
    RestoredMeans(env, w, sub);
    ListedFrom(w0, w, some, sub, reason);
    OneLessLive(w0, w, Restore(env, w, sub).world, some, sub.id, Listed(w, sub));
    OneLessRows(w0.db.rows, w.db.rows, some, sub.id, Restore(env, w, sub).world.zones.live);
  }

  lemma {:induction false} RestoreEachEffect(env: Env, w0: World, w: World, some: set<nat>, subs: seq<Subdomain>, reason: string)
    requires WellStored(w0.db.rows) && StatusesSuspended(w0, w, some, reason)
    requires forall s :: s in subs ==> CleanlyActive(w0.db, s.id) && s.id in some
    requires forall i, j :: 0 <= i < j < |subs| ==> subs[i].id != subs[j].id
    requires RestoreEach(env, w, subs).failed == 0
    ensures StatusesSuspended(w0, RestoreEach(env, w, subs).world, some - Ids(subs), reason)
    decreases |subs|
  {
    if subs == [] {
      assert some - Ids([]) == some;
    } else {
      var sub := subs[0];
      assert sub in subs;
      OneLessSuspended(env, w0, w, some, sub, reason);
      RestoreEachEffect(env, w0, Restore(env, w, sub).world, some - {sub.id}, subs[1..], reason);
      IdsSplit(subs, |subs| - 1);
      assert subs[..|subs|] == subs && subs[1..][..|subs| - 1] == subs[1..];
      assert some - {sub.id} - Ids(subs[1..]) == some - Ids(subs);
    }
  }

  /** The rollback tries every copy in turn, whatever becomes of those before it, and counts those that are not restored. */
  lemma {:induction false} RestoreEachGoesOn(env: Env, w: World, subs: seq<Subdomain>, i: nat)
    requires i < |subs|
    ensures var before := RestoreEach(env, w, subs[..i]); var o := Restore(env, before.world, subs[i]);
      RestoreEach(env, w, subs[..i + 1]) == Repair(o.world, before.failed + (if o.ok then 0 else 1))
    decreases i
  {
    var o := Restore(env, w, subs[0]);
    assert subs[..i + 1][0] == subs[0] && subs[..i + 1][1..] == subs[1..][..i];
    if i == 0 {
      assert subs[1..][..0] == [] && subs[..0] == [];
      assert RestoreEach(env, o.world, []) == Repair(o.world, 0);
    } else {
      assert subs[..i][0] == subs[0] && subs[..i][1..] == subs[1..][..i - 1];
      RestoreEachGoesOn(env, o.world, subs[1..], i - 1);
    }
  }

  lemma RefreshedIds(subs: seq<Subdomain>)
    ensures Ids(Refreshed(subs)) == Ids(subs)
  {
    forall s | s in subs ensures s.id in Ids(Refreshed(subs)) {
      var i :| 0 <= i < |subs| && subs[i] == s;
      assert Refreshed(subs)[i] in Refreshed(subs);
    }
  }

  ghost predicate NamedListing(w0: World, subs: seq<Subdomain>) {
    Listing(w0, subs) && forall s :: s in subs ==> WellNamed(w0, s)
  }

  lemma FirstWasLive(env: Env, w0: World, w: World, some: set<nat>, sub: Subdomain, reason: string)
    requires WellStored(w0.db.rows) && WellNamed(w0, sub) && ExactlySuspended(w0, w, some, reason) && sub.id !in some
    requires Suspend(env, w, sub, reason).ok
    ensures ActiveKeys(w0.db.rows, {sub.id}) <= w0.zones.live.Keys
  {
    StillSuspendable(w0, w, some, sub, reason);
    ActiveWereLive(env, w, sub, reason);
    ActiveOfLoaded(w0, sub);
  }

  /** What was suspended had been live. */
  lemma {:induction false} PrefixWasLive(env: Env, w0: World, w: World, some: set<nat>, subs: seq<Subdomain>, reason: string)
    requires NamedListing(w0, subs) && ExactlySuspended(w0, w, some, reason) && Ids(subs) !! some
    ensures ActiveKeys(w0.db.rows, Ids(subs[..SuspendEach(env, w, subs, reason).done])) <= w0.zones.live.Keys
    decreases |subs|
  {
    if subs == [] || !Suspend(env, w, subs[0], reason).ok {
      assert subs[..0] == [] && Ids([]) == {};
    } else {
      var sub, rest := subs[0], subs[1..];
      var w1 := Suspend(env, w, sub, reason).world;
      assert sub in subs && sub.id in Ids(subs);
      FirstWasLive(env, w0, w, some, sub, reason);
      OneMoreSuspended(env, w0, w, some, sub, reason);
      assert Ids(rest) !! (some + {sub.id});
      PrefixWasLive(env, w0, w1, some + {sub.id}, rest, reason);
      var n := SuspendEach(env, w1, rest, reason).done;
      IdsSplit(subs, n);
      assert ActiveKeys(w0.db.rows, Ids(subs[..n + 1]))
          == ActiveKeys(w0.db.rows, {sub.id}) + ActiveKeys(w0.db.rows, Ids(rest[..n]));
    }
  }

  lemma ActiveOfLoaded(w0: World, sub: Subdomain)
    requires Loaded(w0.db, sub)
    ensures ActiveKeys(w0.db.rows, {sub.id}) == Keys(WithStatus(sub.records, Active))
  {
    WithStatusMembers(sub.records, Active);
  }

  lemma TakenIsActive(w0: World, subs: seq<Subdomain>, n: nat)
    requires NamedListing(w0, subs) && n <= |subs|
    ensures TakenKeys(w0, Ids(subs[..n])) == ActiveKeys(w0.db.rows, Ids(subs[..n]))
  {
    forall r | r in w0.db.rows && r.sub in Ids(subs[..n]) && r.status == Active ensures Aligned(w0.zones.live, r) {
      var s :| s in subs[..n] && s.id == r.sub;
      assert s in subs && r in s.records;
      NamesIsAligned(w0.zones, r);
    }
  }

  /** The state from which a rollback starts. */
  lemma RollbackStart(env: Env, w: World, subs: seq<Subdomain>, reason: string)
    requires Valid(w.zones) && NamedListing(w, subs) && !env.fails(w.calls)
    requires var s := SuspendEach(env, Called(w), subs, reason); !s.ok && s.failed == 0
    ensures StatusesSuspended(w, SuspendEach(env, Called(w), subs, reason).world, Prefix(env, w, subs, reason), reason)
  {
    var s, stop, some := SuspendEach(env, Called(w), subs, reason), Stop(env, Called(w), subs, reason), Prefix(env, w, subs, reason);
    RunOfAll(env, w, subs, reason);
    NoneIsSuspended(w, Called(w), reason);
    PrefixWasLive(env, w, Called(w), {}, subs, reason);
    TakenIsActive(w, subs, s.done);
    FailedSuspendLeavesDatabase(env, stop, subs[s.done], reason);
    FailedTryKeepsLive(env, w, stop, some, subs[s.done], reason);
  }

  lemma FailedTryKeepsLive(env: Env, w0: World, w: World, some: set<nat>, sub: Subdomain, reason: string)
    requires WellStored(w0.db.rows) && ExactlySuspended(w0, w, some, reason) && WellNamed(w0, sub) && sub.id !in some
    requires TakenKeys(w0, some) == ActiveKeys(w0.db.rows, some) <= w0.zones.live.Keys
    requires !Suspend(env, w, sub, reason).ok && Suspend(env, w, sub, reason).failed == 0
    ensures LiveWithout(w0, Suspend(env, w, sub, reason).world, some)
  {
    StillSuspendable(w0, w, some, sub, reason);
    TriedWereNamed(env, w, sub);
    FailedSuspendMeans(env, w, sub, reason);
    var live2 := Suspend(env, w, sub, reason).world.zones.live;
    assert live2.Keys == w.zones.live.Keys;
    if Mirrored(w0.zones.live, w0.db.rows) {
      assert Mirrored(w.zones.live, sub.records);
      SameKeysSameContents(env, w, sub, reason);
      forall k | k in live2 ensures live2[k].settings == w0.zones.live[k].settings {
        assert Contents(live2)[k] == Contents(w.zones.live)[k];
      }
    }
  }

  /** With the refreshed status the user-level suspension is all or nothing: if all repairs and restores go well, then
      either every listed subdomain is suspended, or all statuses are what they were, and so is the provider, ids
      aside. */
  lemma RefreshedRollbackIsAllOrNothing(env: Env, w: World, subs: seq<Subdomain>, reason: string)
    requires Valid(w.zones) && NamedListing(w, subs) && forall s :: s in subs ==> CleanlyActive(w.db, s.id)
    requires !env.fails(w.calls) ==> var s := SuspendEach(env, Called(w), subs, reason);
      s.failed == 0 && (!s.ok ==> RestoreEach(env, s.world, Refreshed(subs[..s.done])).failed == 0)
    ensures var w2 := SuspendUserRefreshed(env, w, subs, reason);
      || ExactlySuspended(w, w2, Ids(subs), reason)
      || (SameButIds(w.db.rows, w2.db.rows) && w2.db.subs == w.db.subs && w2.zones.live.Keys == w.zones.live.Keys
          && (Mirrored(w.zones.live, w.db.rows) ==> Contents(w2.zones.live) == Contents(w.zones.live)))
  {
    if !env.fails(w.calls) {
      var s := SuspendEach(env, Called(w), subs, reason);
      RunOfAll(env, w, subs, reason);
      if s.ok {
        assert subs[..s.done] == subs;
      } else {
        RollbackStart(env, w, subs, reason);
        RolledBack(env, w, s.world, subs, s.done, reason);
      }
    }
  }

  lemma NoneLeftSuspended(w0: World, w: World, reason: string)
    requires StatusesSuspended(w0, w, {}, reason)
    ensures SameButIds(w0.db.rows, w.db.rows) && w.db.subs == w0.db.subs && w.zones.live.Keys == w0.zones.live.Keys
    ensures Mirrored(w0.zones.live, w0.db.rows) ==> Contents(w.zones.live) == Contents(w0.zones.live)
  {
    assert RowsSuspended(w0.db.rows, {}) == w0.db.rows && ActiveKeys(w0.db.rows, {}) == {};
  }

  lemma RolledBack(env: Env, w: World, w1: World, subs: seq<Subdomain>, n: nat, reason: string)
    requires NamedListing(w, subs) && n <= |subs| && forall s :: s in subs ==> CleanlyActive(w.db, s.id)
    requires StatusesSuspended(w, w1, Ids(subs[..n]), reason)
    requires RestoreEach(env, w1, Refreshed(subs[..n])).failed == 0
    ensures var w2 := RestoreEach(env, w1, Refreshed(subs[..n])).world;
      && SameButIds(w.db.rows, w2.db.rows) && w2.db.subs == w.db.subs && w2.zones.live.Keys == w.zones.live.Keys
      && (Mirrored(w.zones.live, w.db.rows) ==> Contents(w2.zones.live) == Contents(w.zones.live))
  {
    var copies := Refreshed(subs[..n]);
    RefreshedIds(subs[..n]);
    RestoreEachEffect(env, w, w1, Ids(copies), copies, reason);
    assert Ids(copies) - Ids(copies) == {};
    NoneLeftSuspended(w, RestoreEach(env, w1, copies).world, reason);
  }
}
