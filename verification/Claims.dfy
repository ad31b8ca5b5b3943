/** Claiming subdomains and deleting a domain with refund (server/internal/handler/subdomain.go and domain.go). */
module Claims {
  import opened Wrappers
  import opened Ledger

  /** A subdomain row as far as the refund reads it; user 0 means no owner. */
  datatype Sub = Sub(user: nat, cost: int, fqdn: string)

  datatype RefundItem = RefundItem(user: nat, cost: int, fqdn: string)

  /** Negation of a signed 64-bit integer: the least value is its own negation. */
  function Neg64(x: int): int { if x == MIN_INT64 then MIN_INT64 else -x }

  // ---------- Claim ----------

  /** A positive cost is charged, a negative one is a reward. */
  function ClaimOps(sub: Sub): seq<Op> {
    if sub.cost > 0 then [Op(Deduct, sub.user, sub.cost, Note(sub.fqdn))]
    else if sub.cost < 0 then [Op(Grant, sub.user, Neg64(sub.cost), Note(sub.fqdn))]
    else []
  }

  class Registry {
    const repo: Repository
    var subs: seq<Sub>

    constructor (repo: Repository)
      ensures this.repo == repo && subs == []
    {
      this.repo, subs := repo, [];
    }

    /** The transaction of a claim; `inserted` is false when the subdomain row or its log row cannot be inserted. */
    method Claim(user: nat, cost: int, fqdn: string, fault: Fault, inserted: bool) returns (err: Option<Error>)
      modifies this, repo
      ensures err.None? ==> && ApplyAll(old(repo.View()), ClaimOps(Sub(user, cost, fqdn))) == Ok(repo.View())
                            && subs == old(subs) + [Sub(user, cost, fqdn)]
      ensures err.Some? ==> repo.View() == old(repo.View()) && subs == old(subs)
      ensures fault == NoFault && inserted && err.Some?
              ==> ApplyAll(old(repo.View()), ClaimOps(Sub(user, cost, fqdn))) == Err(err.value)
    {
      err := repo.Transaction(ClaimOps(Sub(user, cost, fqdn)), (_: nat) => fault, inserted);
      if err.None? { subs := subs + [Sub(user, cost, fqdn)]; }
    }

    /** The refunds of a deletion; `price` is the current price of the owner's group, where there is one. They are
        collected before the provider records are deleted, and other requests come in between. */
    method CollectRefunds(refund: bool, price: nat -> Option<int>) returns (items: seq<RefundItem>)
      ensures items == if refund then RefundItems(subs, price) else []
    {
      items := [];
      if !refund { return; }
      for i := 0 to |subs|
        invariant items + RefundItems(subs[i..], price) == RefundItems(subs, price)
      {
        var sub := subs[i];
        assert subs[i..][0] == sub && subs[i..][1..] == subs[i + 1..];
        FirstRow(subs[i..], price);
        RefundOfRow(sub, price);
        Regrouped(items, RefundItems([sub], price), RefundItems(subs[i + 1..], price));
        assert items + [] == items;
        if sub.user == 0 { continue; }
        var cost := sub.cost;
        if cost == 0 {
          var current := price(sub.user);
          if current.None? { continue; }
          cost := current.value;
        }
        if cost == 0 { continue; }
        items := items + [RefundItem(sub.user, cost, sub.fqdn)];
      }
    }

    /** The transaction of AdminDelete: the refunds that were collected, and the deletion of the rows there are now;
        `deleted` is false when a later statement fails. */
    method AdminDelete(items: seq<RefundItem>, faults: nat -> Fault, deleted: bool) returns (err: Option<Error>)
      modifies this, repo
      ensures err.None? ==> ApplyAll(old(repo.View()), RefundOps(items)) == Ok(repo.View()) && subs == []
      ensures err.Some? ==> repo.View() == old(repo.View()) && subs == old(subs)
      ensures deleted && Faultless(faults) && err.Some? ==> ApplyAll(old(repo.View()), RefundOps(items)) == Err(err.value)
    {
      err := repo.Transaction(RefundOps(items), faults, deleted);
      if err.None? { subs := []; }
    }
  }

  // ---------- AdminDelete ----------

  function RefundItems(subs: seq<Sub>, price: nat -> Option<int>): seq<RefundItem> {
    if subs == [] then []
    else
      var sub := subs[0];
      var cost := if sub.cost == 0 then (match price(sub.user) case None => 0 case Some(c) => c) else sub.cost;
      (if sub.user == 0 || cost == 0 then [] else [RefundItem(sub.user, cost, sub.fqdn)])
      + RefundItems(subs[1..], price)
  }

  function RefundOps(items: seq<RefundItem>): seq<Op> {
    if items == [] then []
    else
      var item := items[0];
      (if item.cost > 0 then [Op(Refund, item.user, item.cost, Note(item.fqdn))]
       else if item.cost < 0 then [Op(Deduct, item.user, Neg64(item.cost), Note(item.fqdn))]
       else []) + RefundOps(items[1..])
  }

  // ---------- the two cancel out ----------

  function Balance(db: Db, user: nat): int { if user in db.balances then db.balances[user] else 0 }

  /** What the operations add to a user's balance. */
  function Delta(ops: seq<Op>, user: nat): int {
    if ops == [] then 0 else (if ops[0].user == user then Signed(ops[0]) else 0) + Delta(ops[1..], user)
  }

  function Charged(subs: seq<Sub>, user: nat): int {
    if subs == [] then 0 else (if subs[0].user == user then subs[0].cost else 0) + Charged(subs[1..], user)
  }

  /** Owned subdomains claimed at a price that is not zero. */
  predicate Priced(subs: seq<Sub>) {
    forall i :: 0 <= i < |subs| ==> subs[i].user != 0 && subs[i].cost != 0
  }

  lemma {:induction false} AppliedDelta(db: Db, ops: seq<Op>, user: nat)
    requires ApplyAll(db, ops).Ok?
    ensures Balance(ApplyAll(db, ops).value, user) == Balance(db, user) + Delta(ops, user)
    ensures forall i :: 0 <= i < |ops| ==> ops[i].amount > 0
    decreases |ops|
  {
    if ops != [] { AppliedDelta(Apply(db, ops[0]).value, ops[1..], user); }
  }

  lemma {:induction false} DeltaConcat(a: seq<Op>, b: seq<Op>, user: nat)
    ensures Delta(a + b, user) == Delta(a, user) + Delta(b, user)
  {
    if a == [] {
      assert a + b == b;
    } else {
      DeltaConcat(a[1..], b, user);
      assert (a + b)[1..] == a[1..] + b;
    }
  }

  lemma ClaimDelta(db: Db, sub: Sub, user: nat)
    requires ApplyAll(db, ClaimOps(sub)).Ok?
    ensures Balance(ApplyAll(db, ClaimOps(sub)).value, user) == Balance(db, user) - Charged([sub], user)
  {
    var ops := ClaimOps(sub);
    AppliedDelta(db, ops, user);
    assert [sub][1..] == [];
    if ops != [] { assert ops[1..] == []; }
  }

  lemma {:induction false} RefundDelta(subs: seq<Sub>, price: nat -> Option<int>, user: nat)
    requires Priced(subs)
    requires forall i :: 0 <= i < |RefundOps(RefundItems(subs, price))| ==> RefundOps(RefundItems(subs, price))[i].amount > 0
    ensures Delta(RefundOps(RefundItems(subs, price)), user) == Charged(subs, user)
  {
    if subs != [] {
      var items := RefundItems(subs, price);
      assert items[0] == RefundItem(subs[0].user, subs[0].cost, subs[0].fqdn);
      assert items[1..] == RefundItems(subs[1..], price);
      var ops, rest := RefundOps(items), RefundOps(items[1..]);
      var first := ops[..1];
      assert ops == first + rest;
      assert forall i :: 0 <= i < |rest| ==> rest[i] == ops[i + 1];
      RefundDelta(subs[1..], price, user);
      DeltaConcat(first, rest, user);
      assert first[0] == ops[0] && first[1..] == [];
    }
  }

  lemma {:induction false} ChargedConcat(a: seq<Sub>, b: seq<Sub>, user: nat)
    ensures Charged(a + b, user) == Charged(a, user) + Charged(b, user)
  {
    if a == [] {
      assert a + b == b;
    } else {
      ChargedConcat(a[1..], b, user);
      assert (a + b)[1..] == a[1..] + b;
    }
  }

  lemma FirstElsewhere(a: seq<Sub>, b: seq<Sub>) returns (i: nat)
    requires multiset(a) == multiset(b) && a != []
    ensures i < |b| && b[i] == a[0] && multiset(a[1..]) == multiset(b[..i] + b[i + 1..])
  {
    assert a == [a[0]] + a[1..];
    assert a[0] in multiset(a);
    i :| 0 <= i < |b| && b[i] == a[0];
    WithoutOne(b, i);
    assert multiset(a[1..]) == multiset(a) - multiset{a[0]};
  }

  lemma WithoutOne(b: seq<Sub>, i: nat)
    requires i < |b|
    ensures multiset(b[..i] + b[i + 1..]) == multiset(b) - multiset{b[i]}
  {
    assert b == b[..i] + [b[i]] + b[i + 1..];
  }

  /** The total charged does not depend on the order in which the rows are listed. */
  lemma {:induction false} ChargedOfPermutation(a: seq<Sub>, b: seq<Sub>, user: nat)
    requires multiset(a) == multiset(b)
    ensures Charged(a, user) == Charged(b, user)
  {
    if a == [] {
      assert |multiset(b)| == 0;
    } else {
      var i := FirstElsewhere(a, b);
      var l, r := b[..i], b[i + 1..];
      ChargedOfPermutation(a[1..], l + r, user);
      ChargedConcat(l, r, user);
      ChargedConcat(l, b[i..], user);
      assert l + b[i..] == b && b[i..][1..] == r;
    }
  }

  // ---------- every row, at whatever cost ----------

  /** What a deletion owes for a row: nothing without an owner, its cost, or, if that is zero, the current price of the
      owner's group, where there is one. */
  function Owed(sub: Sub, price: nat -> Option<int>): int {
    if sub.user == 0 then 0
    else if sub.cost != 0 then sub.cost
    else if price(sub.user).Some? then price(sub.user).value else 0
  }

  function TotalOwed(subs: seq<Sub>, price: nat -> Option<int>, user: nat): int {
    if subs == [] then 0 else (if subs[0].user == user then Owed(subs[0], price) else 0) + TotalOwed(subs[1..], price, user)
  }

  /** The refund of one row, if it has one: not without an owner, and not at zero. */
  lemma RefundOfRow(sub: Sub, price: nat -> Option<int>)
    ensures RefundItems([sub], price) == if sub.user == 0 || Owed(sub, price) == 0 then []
                                         else [RefundItem(sub.user, Owed(sub, price), sub.fqdn)]
    ensures sub.user != 0 && sub.cost == 0 && price(sub.user) == None ==> RefundItems([sub], price) == []
  {
    assert [sub][1..] == [] && RefundItems([], price) == [];
  }

  lemma Regrouped<T>(a: seq<T>, b: seq<T>, c: seq<T>)
    ensures (a + b) + c == a + (b + c)
  {
  }

  lemma FirstRow(subs: seq<Sub>, price: nat -> Option<int>)
    requires subs != []
    ensures RefundItems(subs, price) == RefundItems([subs[0]], price) + RefundItems(subs[1..], price)
  {
    assert [subs[0]][1..] == [] && RefundItems([], price) == [];
  }

  /** Rows are refunded in the order in which they are listed. */
  lemma {:induction false} RefundsInOrder(a: seq<Sub>, b: seq<Sub>, price: nat -> Option<int>)
    ensures RefundItems(a + b, price) == RefundItems(a, price) + RefundItems(b, price)
  {
    if a == [] {
      assert a + b == b;
    } else {
      RefundsInOrder(a[1..], b, price);
      assert (a + b)[0] == a[0] && (a + b)[1..] == a[1..] + b;
      FirstRow(a, price);
      FirstRow(a + b, price);
      Regrouped(RefundItems([a[0]], price), RefundItems(a[1..], price), RefundItems(b, price));
    }
  }

  lemma FirstItem(items: seq<RefundItem>)
    requires items != []
    ensures RefundOps(items) == RefundOps([items[0]]) + RefundOps(items[1..])
  {
    assert [items[0]][1..] == [] && RefundOps([]) == [];
  }

  lemma DeltaOfItem(item: RefundItem, user: nat)
    requires forall i :: 0 <= i < |RefundOps([item])| ==> RefundOps([item])[i].amount > 0
    ensures Delta(RefundOps([item]), user) == if item.user == user then item.cost else 0
  {
    var ops := RefundOps([item]);
    assert [item][1..] == [] && RefundOps([]) == [];
    if ops != [] { assert ops[1..] == []; }
  }

  lemma {:induction false} DeltaOfItems(items: seq<RefundItem>, user: nat)
    requires forall i :: 0 <= i < |RefundOps(items)| ==> RefundOps(items)[i].amount > 0
    ensures Delta(RefundOps(items), user) == TotalOf(items, user)
  {
    if items != [] {
      var first, rest := RefundOps([items[0]]), RefundOps(items[1..]);
      FirstItem(items);
      assert forall i :: 0 <= i < |first| ==> first[i] == RefundOps(items)[i];
      assert forall i :: 0 <= i < |rest| ==> rest[i] == RefundOps(items)[|first| + i];
      DeltaOfItem(items[0], user);
      DeltaOfItems(items[1..], user);
      DeltaConcat(first, rest, user);
    }
  }

  function TotalOf(items: seq<RefundItem>, user: nat): int {
    if items == [] then 0 else (if items[0].user == user then items[0].cost else 0) + TotalOf(items[1..], user)
  }

  lemma {:induction false} TotalOfRefunds(subs: seq<Sub>, price: nat -> Option<int>, user: nat)
    ensures TotalOf(RefundItems(subs, price), user) == TotalOwed(subs, price, user)
  {
    if subs != [] {
      var rest := RefundItems(subs[1..], price);
      TotalOfRefunds(subs[1..], price, user);
      FirstRow(subs, price);
      RefundOfRow(subs[0], price);
      if RefundItems([subs[0]], price) == [] {
        assert [] + rest == rest;
      } else {
        assert RefundItems(subs, price)[1..] == rest;
      }
    }
  }

  /** Rows of whatever cost, with or without an owner: a deletion with refund that goes through gives every user exactly
      what is owed for their rows, at the current price where the cost is zero, and nobody anything for rows without an
      owner. */
  lemma DeletionPaysWhatIsOwed(db: Db, listed: seq<Sub>, price: nat -> Option<int>, user: nat)
    requires ApplyAll(db, RefundOps(RefundItems(listed, price))).Ok?
    ensures Balance(ApplyAll(db, RefundOps(RefundItems(listed, price))).value, user)
         == Balance(db, user) + TotalOwed(listed, price, user)
    ensures TotalOwed(listed, price, 0) == 0
  {
    AppliedDelta(db, RefundOps(RefundItems(listed, price)), user);
    DeltaOfItems(RefundItems(listed, price), user);
    TotalOfRefunds(listed, price, user);
    NobodyIsOwed(listed, price);
  }

  lemma {:induction false} NobodyIsOwed(subs: seq<Sub>, price: nat -> Option<int>)
    ensures TotalOwed(subs, price, 0) == 0
  {
    if subs != [] { NobodyIsOwed(subs[1..], price); }
  }

  // ---------- claims among other movements ----------

  /** A claim, or any other movement of credits; each is a transaction that goes through or is rolled back. */
  datatype Movement = ClaimOf(sub: Sub) | Other(ops: seq<Op>)

  function OpsOf(m: Movement): seq<Op> { if m.ClaimOf? then ClaimOps(m.sub) else m.ops }

  function After(db: Db, m: Movement): Db {
    match ApplyAll(db, OpsOf(m)) case Ok(next) => next case Err(_) => db
  }

  function AfterAll(db: Db, ms: seq<Movement>): Db
    decreases |ms|
  {
    if ms == [] then db else AfterAll(After(db, ms[0]), ms[1..])
  }

  /** The subdomains whose claims went through. */
  function Claimed(db: Db, ms: seq<Movement>): seq<Sub>
    decreases |ms|
  {
    if ms == [] then []
    else
      (if ms[0].ClaimOf? && ApplyAll(db, OpsOf(ms[0])).Ok? then [ms[0].sub] else []) + Claimed(After(db, ms[0]), ms[1..])
  }

  /** What the claims of the history have added to a user's balance, other movements aside. */
  function ClaimedDelta(db: Db, ms: seq<Movement>, user: nat): int
    decreases |ms|
  {
    if ms == [] then 0
    else
      var next := After(db, ms[0]);
      (if ms[0].ClaimOf? then Balance(next, user) - Balance(db, user) else 0) + ClaimedDelta(next, ms[1..], user)
  }

  lemma {:induction false} ClaimsTakeWhatTheyCharge(db: Db, ms: seq<Movement>, user: nat)
    ensures ClaimedDelta(db, ms, user) == -Charged(Claimed(db, ms), user)
    decreases |ms|
  {
    if ms != [] {
      var first, rest := if ms[0].ClaimOf? && ApplyAll(db, OpsOf(ms[0])).Ok? then [ms[0].sub] else [],
                         Claimed(After(db, ms[0]), ms[1..]);
      ClaimsTakeWhatTheyCharge(After(db, ms[0]), ms[1..], user);
      if ms[0].ClaimOf? && ApplyAll(db, OpsOf(ms[0])).Ok? { ClaimDelta(db, ms[0].sub, user); }
      ChargedConcat(first, rest, user);
    }
  }

  /** Whatever claims and other movements there were, and in whatever order the claimed rows are listed: a deletion with
      refund that goes through gives each user exactly the opposite of what all their claims did, of either sign. */
  lemma DeletionRefundsExactlyWhatClaimsTook(before: Db, ms: seq<Movement>, listed: seq<Sub>, price: nat -> Option<int>, user: nat)
    requires Priced(listed) && multiset(listed) == multiset(Claimed(before, ms))
    requires ApplyAll(AfterAll(before, ms), RefundOps(RefundItems(listed, price))).Ok?
    ensures var db := AfterAll(before, ms);
      Balance(ApplyAll(db, RefundOps(RefundItems(listed, price))).value, user) - Balance(db, user)
      == -ClaimedDelta(before, ms, user)
  {
    AppliedDelta(AfterAll(before, ms), RefundOps(RefundItems(listed, price)), user);
    ClaimsTakeWhatTheyCharge(before, ms, user);
    RefundDelta(listed, price, user);
    ChargedOfPermutation(Claimed(before, ms), listed, user);
  }

  // ---------- claims between collecting the refunds and deleting ----------

  lemma {:induction false} HistoryConcat(db: Db, ms: seq<Movement>, later: seq<Movement>)
    ensures AfterAll(db, ms + later) == AfterAll(AfterAll(db, ms), later)
    ensures Claimed(db, ms + later) == Claimed(db, ms) + Claimed(AfterAll(db, ms), later)
    decreases |ms|
  {
    if ms == [] {
      assert ms + later == later;
    } else {
      var both := ms + later;
      assert both[0] == ms[0] && both[1..] == ms[1..] + later;
      HistoryConcat(After(db, ms[0]), ms[1..], later);
    }
  }

  /** The deletion gives a user the opposite of what all their claims in the history did. */
  predicate RefundIsExact(before: Db, history: seq<Movement>, listed: seq<Sub>, price: nat -> Option<int>, user: nat)
    requires ApplyAll(AfterAll(before, history), RefundOps(RefundItems(listed, price))).Ok?
  {
    var db := AfterAll(before, history);
    Balance(ApplyAll(db, RefundOps(RefundItems(listed, price))).value, user) - Balance(db, user)
    == -ClaimedDelta(before, history, user)
  }

  /** The deletion takes all rows, those claimed since the refunds were collected included. What a user gets back is
      the opposite of what all their claims did if and only if the later claims have cost them nothing on balance. */
  lemma RefundIsExactIff(before: Db, ms: seq<Movement>, later: seq<Movement>, listed: seq<Sub>, price: nat -> Option<int>,
                         user: nat)
    requires Priced(listed) && multiset(listed) == multiset(Claimed(before, ms))
    requires ApplyAll(AfterAll(before, ms + later), RefundOps(RefundItems(listed, price))).Ok?
    ensures RefundIsExact(before, ms + later, listed, price, user) <==> Charged(Claimed(AfterAll(before, ms), later), user) == 0
  {
    var db := AfterAll(before, ms + later);
    AppliedDelta(db, RefundOps(RefundItems(listed, price)), user);
    ClaimsTakeWhatTheyCharge(before, ms + later, user);
    RefundDelta(listed, price, user);
    ChargedOfPermutation(Claimed(before, ms), listed, user);
    HistoryConcat(before, ms, later);
    ChargedConcat(Claimed(before, ms), Claimed(AfterAll(before, ms), later), user);
  }

  lemma {:induction false} ChargedAtLeast(subs: seq<Sub>, i: nat)
    requires i < |subs| && forall j :: 0 <= j < |subs| ==> subs[j].cost > 0
    ensures Charged(subs, subs[i].user) > 0
  {
    ChargedIsPositive(subs[1..], subs[i].user);
    if i > 0 { ChargedAtLeast(subs[1..], i - 1); }
  }

  lemma {:induction false} ChargedIsPositive(subs: seq<Sub>, user: nat)
    requires forall i :: 0 <= i < |subs| ==> subs[i].cost > 0
    ensures Charged(subs, user) >= 0
  {
    if subs != [] { ChargedIsPositive(subs[1..], user); }
  }

  /** If the later claims were charges, everybody gets back exactly what their claims took if and only if the rows at
      the deletion are those collected. */
  lemma EveryRefundIsExactIff(before: Db, ms: seq<Movement>, later: seq<Movement>, listed: seq<Sub>, price: nat -> Option<int>)
    requires Priced(listed) && multiset(listed) == multiset(Claimed(before, ms))
    requires ApplyAll(AfterAll(before, ms + later), RefundOps(RefundItems(listed, price))).Ok?
    requires var late := Claimed(AfterAll(before, ms), later); forall i :: 0 <= i < |late| ==> late[i].cost > 0
    ensures (forall user: nat :: RefundIsExact(before, ms + later, listed, price, user))
       <==> Claimed(before, ms + later) == Claimed(before, ms)
  {
    var late := Claimed(AfterAll(before, ms), later);
    HistoryConcat(before, ms, later);
    forall user: nat ensures RefundIsExact(before, ms + later, listed, price, user) <==> Charged(late, user) == 0 {
      RefundIsExactIff(before, ms, later, listed, price, user);
    }
    if late != [] {
      ChargedAtLeast(late, 0);
      assert !RefundIsExact(before, ms + later, listed, price, late[0].user);
      assert |Claimed(before, ms + later)| > |Claimed(before, ms)|;
    }
  }

  lemma OneClaimGoesThrough(db: Db, sub: Sub)
    requires sub.cost > 0 && sub.user in db.balances && db.balances[sub.user] >= sub.cost
    ensures ApplyAll(db, ClaimOps(sub)) == Apply(db, ClaimOps(sub)[0])
    ensures AfterAll(db, [ClaimOf(sub)]) == Apply(db, ClaimOps(sub)[0]).value && Claimed(db, [ClaimOf(sub)]) == [sub]
  {
    var next := Apply(db, ClaimOps(sub)[0]).value;
    assert ClaimOps(sub)[1..] == [] && ApplyAll(next, []) == Ok(next);
    assert [ClaimOf(sub)][1..] == [] && AfterAll(next, []) == next && Claimed(next, []) == [];
  }

  /** It happens: a second subdomain claimed for 5 when the refund of the first is already collected. */
  lemma LateClaimIsNotRefunded(price: nat -> Option<int>)
    ensures var before, first, late := Db(map[7 := 10], []), Sub(7, 5, "a"), Sub(7, 5, "b");
      var history := [ClaimOf(first)] + [ClaimOf(late)];
      && Claimed(before, history) == [first, late]
      && ApplyAll(AfterAll(before, history), RefundOps(RefundItems([first], price))).Ok?
      && !RefundIsExact(before, history, [first], price, 7)
  {
    var before, first, late := Db(map[7 := 10], []), Sub(7, 5, "a"), Sub(7, 5, "b");
    var ms, later := [ClaimOf(first)], [ClaimOf(late)];
    OneClaimGoesThrough(before, first);
    OneClaimGoesThrough(AfterAll(before, ms), late);
    HistoryConcat(before, ms, later);
    assert [first] + [late] == [first, late];
    assert [first][..1] == [first] && Charged([first], 7) == 5;
    ChargesCanAlwaysBeRefunded(AfterAll(before, ms + later), [first], price);
    ChargedAtLeast([late], 0);
    RefundIsExactIff(before, ms, later, [first], price, 7);
  }

  // ---------- when a deletion with refund goes through ----------

  /** Row n is refunded last of the first n: its owner has a balance, and what the rows so far add up to leaves it in
      range. Negating the least 64-bit cost gives no positive amount, and the refund is refused. */
  ghost predicate Refundable(db: Db, listed: seq<Sub>, n: nat)
    requires 0 < n <= |listed|
  {
    var sub := listed[n - 1];
    && sub.cost != MIN_INT64 && sub.user in db.balances
    && var after := db.balances[sub.user] + Charged(listed[..n], sub.user);
       if sub.cost > 0 then after <= MAX_INT64 else 0 <= after
  }

  lemma RefundsSplit(listed: seq<Sub>, price: nat -> Option<int>)
    requires Priced(listed) && listed != []
    ensures RefundOps(RefundItems(listed, price)) == [FirstRefund(listed[0])] + RefundOps(RefundItems(listed[1..], price))
  {
    RefundOpsSplit(RefundItem(listed[0].user, listed[0].cost, listed[0].fqdn), RefundItems(listed[1..], price));
  }

  lemma RefundOpsSplit(item: RefundItem, rest: seq<RefundItem>)
    ensures RefundOps([item] + rest)
         == (if item.cost > 0 then [Op(Refund, item.user, item.cost, Note(item.fqdn))]
             else if item.cost < 0 then [Op(Deduct, item.user, Neg64(item.cost), Note(item.fqdn))] else [])
            + RefundOps(rest)
  {
    assert ([item] + rest)[1..] == rest;
  }

  function FirstRefund(sub: Sub): Op {
    if sub.cost > 0 then Op(Refund, sub.user, sub.cost, Note(sub.fqdn)) else Op(Deduct, sub.user, Neg64(sub.cost), Note(sub.fqdn))
  }

  lemma ChargedOfFirst(listed: seq<Sub>)
    requires listed != []
    ensures Charged(listed[..1], listed[0].user) == listed[0].cost
  {
    assert listed[..1][1..] == [] && Charged([], listed[0].user) == 0;
  }

  lemma FirstIsRefundableIff(db: Db, listed: seq<Sub>)
    requires Priced(listed) && listed != []
    ensures Apply(db, FirstRefund(listed[0])).Ok? <==> Refundable(db, listed, 1)
    ensures Apply(db, FirstRefund(listed[0])).Ok? ==>
      var next := Apply(db, FirstRefund(listed[0])).value;
      next.balances == db.balances[listed[0].user := db.balances[listed[0].user] + listed[0].cost]
  {
    ChargedOfFirst(listed);
  }

  lemma RestIsRefundableIff(db: Db, next: Db, listed: seq<Sub>, n: nat)
    requires listed != [] && listed[0].user in db.balances && 0 < n < |listed|
    requires next.balances == db.balances[listed[0].user := db.balances[listed[0].user] + listed[0].cost]
    ensures Refundable(next, listed[1..], n) <==> Refundable(db, listed, n + 1)
  {
    assert listed[..n + 1][1..] == listed[1..][..n];
  }

  ghost predicate AllRefundable(db: Db, listed: seq<Sub>) {
    forall n :: 0 < n <= |listed| ==> Refundable(db, listed, n)
  }

  lemma AllRefundableSplit(db: Db, next: Db, listed: seq<Sub>)
    requires listed != [] && listed[0].user in db.balances
    requires next.balances == db.balances[listed[0].user := db.balances[listed[0].user] + listed[0].cost]
    ensures AllRefundable(db, listed) <==> Refundable(db, listed, 1) && AllRefundable(next, listed[1..])
  {
    forall n | 0 < n < |listed| ensures Refundable(next, listed[1..], n) <==> Refundable(db, listed, n + 1) {
      RestIsRefundableIff(db, next, listed, n);
    }
    if Refundable(db, listed, 1) && AllRefundable(next, listed[1..]) {
      forall n | 0 < n <= |listed| ensures Refundable(db, listed, n) {
        if n > 1 { assert Refundable(next, listed[1..], n - 1) <==> Refundable(db, listed, n - 1 + 1); }
      }
    }
    if AllRefundable(db, listed) {
      forall n | 0 < n <= |listed[1..]| ensures Refundable(next, listed[1..], n) {
        assert Refundable(db, listed, n + 1);
      }
    }
  }

  /** A deletion with refund goes through, as far as balances are concerned, if and only if every row is refundable in
      its turn. */
  lemma {:induction false} RefundsGoThroughIff(db: Db, listed: seq<Sub>, price: nat -> Option<int>)
    requires Priced(listed)
    ensures ApplyAll(db, RefundOps(RefundItems(listed, price))).Ok? <==> AllRefundable(db, listed)
    decreases |listed|
  {
    if listed != [] {
      var op, rest := FirstRefund(listed[0]), RefundOps(RefundItems(listed[1..], price));
      RefundsSplit(listed, price);
      FirstIsRefundableIff(db, listed);
      assert ([op] + rest)[1..] == rest;
      if Apply(db, op).Ok? {
        var next := Apply(db, op).value;
        AllRefundableSplit(db, next, listed);
        RefundsGoThroughIff(next, listed[1..], price);
      }
    }
  }

  lemma SpentIsNotRefundable(db: Db, listed: seq<Sub>)
    requires listed != [] && listed[0].cost < 0
    requires listed[0].user in db.balances && db.balances[listed[0].user] < -listed[0].cost
    ensures !Refundable(db, listed, 1)
  {
    ChargedOfFirst(listed);
  }

  /** A reward that its owner has spent since keeps the domain from being deleted with refund. */
  lemma SpentRewardBlocksDeletion(db: Db, listed: seq<Sub>, price: nat -> Option<int>)
    requires Priced(listed) && listed != [] && listed[0].cost < 0
    requires listed[0].user in db.balances && db.balances[listed[0].user] < -listed[0].cost
    ensures ApplyAll(db, RefundOps(RefundItems(listed, price))).Err?
  {
    RefundsGoThroughIff(db, listed, price);
    SpentIsNotRefundable(db, listed);
  }

  /** It happens: a reward of 10 claimed first, of which 5 go into a second claim. */
  lemma RewardSpentOnAClaimBlocksDeletion(price: nat -> Option<int>)
    ensures var a, b := Sub(7, -10, "a"), Sub(7, 5, "b");
      var ms := [ClaimOf(a), ClaimOf(b)];
      && Claimed(Db(map[], []), ms) == [a, b]
      && ApplyAll(AfterAll(Db(map[], []), ms), RefundOps(RefundItems([a, b], price))).Err?
  {
    var a, b, none := Sub(7, -10, "a"), Sub(7, 5, "b"), Db(map[], []);
    var grant, deduct := Op(Grant, 7, 10, Note("a")), Op(Deduct, 7, 5, Note("b"));
    var one := Apply(none, grant).value;
    var two := Apply(one, deduct).value;
    assert ClaimOps(a) == [grant] && ClaimOps(b) == [deduct] && [grant][1..] == [] && [deduct][1..] == [];
    assert ApplyAll(one, []) == Ok(one) && ApplyAll(two, []) == Ok(two);
    assert ApplyAll(none, [grant]) == Ok(one) && ApplyAll(one, [deduct]) == Ok(two);
    assert [ClaimOf(a), ClaimOf(b)][1..] == [ClaimOf(b)] && [ClaimOf(b)][1..] == [];
    assert AfterAll(two, []) == two && Claimed(two, []) == [];
    assert AfterAll(one, [ClaimOf(b)]) == two && Claimed(one, [ClaimOf(b)]) == [b];
    assert two.balances[7] == 5;
    SpentRewardBlocksDeletion(two, [a, b], price);
  }

  /** The least 64-bit cost cannot be given back, but neither can it be claimed: its negation is no positive amount. */
  lemma LeastCostIsRefused(db: Db, listed: seq<Sub>, price: nat -> Option<int>, n: nat)
    requires Priced(listed) && 0 < n <= |listed| && listed[n - 1].cost == MIN_INT64
    ensures ApplyAll(db, RefundOps(RefundItems(listed, price))).Err?
    ensures ApplyAll(db, ClaimOps(listed[n - 1])).Err?
  {
    RefundsGoThroughIff(db, listed, price);
    assert !Refundable(db, listed, n);
  }

  /** With charges only, a deletion with refund goes through in any order of the rows, as soon as each owner has a
      balance that does not overflow by all their refunds. */
  lemma ChargesCanAlwaysBeRefunded(db: Db, listed: seq<Sub>, price: nat -> Option<int>)
    requires forall i :: 0 <= i < |listed| ==> listed[i].user != 0 && listed[i].cost > 0 && listed[i].user in db.balances
    requires forall u :: u in db.balances ==> db.balances[u] + Charged(listed, u) <= MAX_INT64
    ensures ApplyAll(db, RefundOps(RefundItems(listed, price))).Ok?
  {
    RefundsGoThroughIff(db, listed, price);
    forall n | 0 < n <= |listed| ensures Refundable(db, listed, n) {
      ChargedSoFar(listed, n, listed[n - 1].user);
    }
  }

  lemma ChargedSoFar(listed: seq<Sub>, n: nat, user: nat)
    requires n <= |listed| && forall i :: 0 <= i < |listed| ==> listed[i].cost > 0
    ensures Charged(listed[..n], user) <= Charged(listed, user)
  {
    ChargedConcat(listed[..n], listed[n..], user);
    assert listed == listed[..n] + listed[n..];
    ChargedIsPositive(listed[n..], user);
  }
}
