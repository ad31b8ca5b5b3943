/** Payment callbacks, which the gateways repeat (server/internal/handler/payment.go). */
module Payments {
  import opened Wrappers
  import opened Ledger

  datatype OrderType = Credits | Realname

  datatype Order = Order(user: nat, credits: int, typ: OrderType, paid: bool)

  datatype Shop = Shop(db: Db, orders: map<string, Order>)

  /** How the statements of one callback's transaction come out: the update of the order row, then the grant of the
      credits or the hook of the identity-verification service. */
  datatype Attempt = Attempt(updateOk: bool, grant: Fault, hookOk: bool)

  /** An order is credited on payment unless it is an identity-verification order and that service is configured. */
  predicate IsRecharge(order: Order, realname: bool) { order.typ == Credits || !realname }

  /** The update by the row's key, which also succeeds when the row is gone. */
  function MarkPaid(s: Shop, no: string): Shop {
    if no in s.orders then s.(orders := s.orders[no := s.orders[no].(paid := true)]) else s
  }

  /** The transaction of a callback that read `order` before: it updates the row by its key, without looking at the
      status again, and grants the credits of the copy. */
  function Commit(s: Shop, no: string, order: Order, realname: bool, a: Attempt): Shop {
    if !a.updateOk then s
    else if !IsRecharge(order, realname) then (if a.hookOk then MarkPaid(s, no) else s)
    else if a.grant != NoFault then s
    else match Apply(s.db, Op(Grant, order.user, order.credits, Recharge(no)))
      case Err(_) => s
      case Ok(db) => MarkPaid(s, no).(db := db)
  }

  /** A whole callback, its query and its transaction not interleaved with another callback. */
  function Callback(s: Shop, no: string, realname: bool, a: Attempt): Shop {
    if no !in s.orders || s.orders[no].paid then s else Commit(s, no, s.orders[no], realname, a)
  }

  class PaymentHandler {
    const realname: bool
    const repo: Repository
    var orders: map<string, Order>

    constructor (repo: Repository, realname: bool)
      ensures this.repo == repo && this.realname == realname && View() == Shop(repo.View(), map[])
    {
      this.repo, this.realname, orders := repo, realname, map[];
    }

    function View(): Shop
      reads this, repo
    {
      Shop(repo.View(), orders)
    }

    method ProcessPayment(no: string, a: Attempt)
      modifies this, repo
      ensures View() == Callback(old(View()), no, realname, a)
    {
      if no !in orders || orders[no].paid { return; }
      var order := orders[no];
      var ordersBefore, balancesBefore, txnsBefore := orders, repo.balances, repo.txns;
      if !a.updateOk { return; }
      orders := orders[no := order.(paid := true)];
      if !IsRecharge(order, realname) {
        if !a.hookOk { orders := ordersBefore; }
        return;
      }
      var err := repo.GrantCredits(order.user, order.credits, Recharge(no), a.grant);
      if err.Some? {
        orders, repo.balances, repo.txns := ordersBefore, balancesBefore, txnsBefore;
      }
    }
  }

  // ---------- paid exactly when credited once ----------

  /** Who was credited how much for an order. */
  function Credited(txns: seq<Txn>, no: string): seq<(nat, int)> {
    if txns == [] then []
    else
      var last := txns[|txns| - 1];
      Credited(txns[..|txns| - 1], no) + (if last.purpose == Recharge(no) then [(last.user, last.amount)] else [])
  }

  function Due(s: Shop, no: string, realname: bool): seq<(nat, int)> {
    if no in s.orders && s.orders[no].paid && IsRecharge(s.orders[no], realname)
    then [(s.orders[no].user, s.orders[no].credits)] else []
  }

  /** Every recharge order is credited its credits once if it is paid and not at all otherwise. */
  ghost predicate Settled(s: Shop, realname: bool) {
    forall no :: Credited(s.db.txns, no) == Due(s, no, realname)
  }

  datatype Event =
    | NewOrder(no: string, order: Order)
    | Notify(no: string, attempt: Attempt)
    | Other(ev: Ledger.Event)
    | RemoveUser(user: nat)

  /** Other uses of the ledger do not pose as recharges, and accounts are deleted with their orders. */
  predicate Ordinary(ev: Event) {
    ev.Other? ==> (!ev.ev.DeleteUser? && (ev.ev.Transact? ==>
                     forall i :: 0 <= i < |ev.ev.ops| ==> ev.ev.ops[i].purpose.Note?))
  }

  function Step(s: Shop, ev: Event, realname: bool): Shop {
    match ev
    case NewOrder(no, order) => if no in s.orders then s else s.(orders := s.orders[no := order.(paid := false)])
    case Notify(no, a) => Callback(s, no, realname, a)
    case Other(e) => s.(db := Ledger.Step(s.db, e))
    case RemoveUser(u) =>
      Shop(Ledger.Step(s.db, DeleteUser(u)), map no | no in s.orders && s.orders[no].user != u :: s.orders[no])
  }

  function Run(events: seq<Event>, realname: bool): Shop {
    if events == [] then Shop(Db(map[], []), map[])
    else Step(Run(events[..|events| - 1], realname), events[|events| - 1], realname)
  }

  lemma CreditedAfter(db: Db, op: Op, no: string)
    requires Apply(db, op).Ok?
    ensures Credited(Apply(db, op).value.txns, no)
         == Credited(db.txns, no) + (if op.purpose == Recharge(no) then [(op.user, Signed(op))] else [])
  {
    var t := Apply(db, op).value.txns;
    assert t[..|t| - 1] == db.txns;
  }

  /** The transaction of a recharge with this copy of its order reaches its commit. */
  predicate GoesThrough(s: Shop, no: string, order: Order, realname: bool, a: Attempt) {
    && IsRecharge(order, realname) && a.updateOk && a.grant == NoFault
    && Apply(s.db, Op(Grant, order.user, order.credits, Recharge(no))).Ok?
  }

  /** `order` is a copy of the order's row, if there still is one, as it was while pending. */
  predicate IsCopy(s: Shop, no: string, order: Order) {
    !order.paid && (no in s.orders ==> s.orders[no].(paid := false) == order)
  }

  lemma CommitCredits(s: Shop, no: string, order: Order, realname: bool, a: Attempt, n: string)
    requires GoesThrough(s, no, order, realname, a)
    ensures var t := Commit(s, no, order, realname, a);
            Credited(t.db.txns, n) == Credited(s.db.txns, n) + (if n == no then [(order.user, order.credits)] else [])
  {
    CreditedAfter(s.db, Op(Grant, order.user, order.credits, Recharge(no)), n);
  }

  lemma PendingCommitSettles(s: Shop, no: string, order: Order, realname: bool, a: Attempt)
    requires Settled(s, realname) && GoesThrough(s, no, order, realname, a) && IsCopy(s, no, order)
    requires no in s.orders && !s.orders[no].paid
    ensures Settled(Commit(s, no, order, realname, a), realname)
  {
    var t := Commit(s, no, order, realname, a);
    forall n ensures Credited(t.db.txns, n) == Due(t, n, realname) {
      assert Credited(s.db.txns, n) == Due(s, n, realname);
      CommitCredits(s, no, order, realname, a, n);
    }
  }

  lemma LateCommitUnsettles(s: Shop, no: string, order: Order, realname: bool, a: Attempt)
    requires Settled(s, realname) && GoesThrough(s, no, order, realname, a) && IsCopy(s, no, order)
    requires no in s.orders ==> s.orders[no].paid
    ensures !Settled(Commit(s, no, order, realname, a), realname)
  {
    var t := Commit(s, no, order, realname, a);
    assert Credited(s.db.txns, no) == Due(s, no, realname);
    CommitCredits(s, no, order, realname, a, no);
    assert |Credited(t.db.txns, no)| == |Due(s, no, realname)| + 1;
    assert |Due(t, no, realname)| <= |Due(s, no, realname)|;
  }

  /** Committing a copy of an order credits it exactly once if and only if the row is still pending at that moment. */
  lemma CommitSettlesIffStillPending(s: Shop, no: string, order: Order, realname: bool, a: Attempt)
    requires Settled(s, realname) && GoesThrough(s, no, order, realname, a) && IsCopy(s, no, order)
    ensures Settled(Commit(s, no, order, realname, a), realname) <==> (no in s.orders && !s.orders[no].paid)
  {
    if no in s.orders && !s.orders[no].paid {
      PendingCommitSettles(s, no, order, realname, a);
    } else {
      LateCommitUnsettles(s, no, order, realname, a);
    }
  }

  /** A callback pays its order if and only if the order is there and pending, the update of its row succeeds, and then,
      for credits, or for an identity verification while that service is missing, the grant of a positive amount that
      does not overflow, and otherwise the hook of the service. */
  lemma CallbackPaysIff(s: Shop, no: string, realname: bool, a: Attempt)
    ensures Callback(s, no, realname, a) != s <==>
      && no in s.orders && !s.orders[no].paid && a.updateOk
      && var o := s.orders[no];
         if o.typ == Credits || !realname
         then a.grant == NoFault && 0 < o.credits && (o.user in s.db.balances ==> s.db.balances[o.user] <= MAX_INT64 - o.credits)
              && (o.user !in s.db.balances ==> o.credits <= MAX_INT64)
         else a.hookOk
    ensures Callback(s, no, realname, a) != s ==>
      var (o, t) := (s.orders[no], Callback(s, no, realname, a));
      && t.orders == s.orders[no := Order(o.user, o.credits, o.typ, true)]
      && (o.typ == Realname && realname ==> t.db == s.db)
      && (o.typ == Credits || !realname ==>
            t.db.balances == s.db.balances[o.user := (if o.user in s.db.balances then s.db.balances[o.user] else 0) + o.credits])
  {
    if no in s.orders && !s.orders[no].paid {
      assert MarkPaid(s, no).orders[no].paid;
    }
  }

  /** A callback either pays and credits the order together or changes nothing, and a repeated one changes nothing. */
  lemma CallbackIsAllOrNothing(s: Shop, no: string, realname: bool, a: Attempt, again: Attempt)
    ensures var t := Callback(s, no, realname, a);
            && (t != s ==> no in s.orders && !s.orders[no].paid && t.orders == s.orders[no := s.orders[no].(paid := true)])
            && (t != s && IsRecharge(s.orders[no], realname) ==>
                  Apply(s.db, Op(Grant, s.orders[no].user, s.orders[no].credits, Recharge(no))) == Ok(t.db))
            && (t != s && !IsRecharge(s.orders[no], realname) ==> t.db == s.db)
            && (t != s ==> Callback(t, no, realname, again) == t)
  {
  }

  lemma {:induction false} NotesCreditNothing(db: Db, ops: seq<Op>, no: string)
    requires forall i :: 0 <= i < |ops| ==> ops[i].purpose.Note?
    requires ApplyAll(db, ops).Ok?
    ensures Credited(ApplyAll(db, ops).value.txns, no) == Credited(db.txns, no)
    decreases |ops|
  {
    if ops != [] {
      CreditedAfter(db, ops[0], no);
      NotesCreditNothing(Apply(db, ops[0]).value, ops[1..], no);
    }
  }

  function DropUser(rows: seq<(nat, int)>, user: nat): seq<(nat, int)> {
    if rows == [] then []
    else
      var last := rows[|rows| - 1];
      DropUser(rows[..|rows| - 1], user) + (if last.0 == user then [] else [last])
  }

  lemma {:induction false} CreditedWithoutUser(txns: seq<Txn>, user: nat, no: string)
    ensures Credited(WithoutUser(txns, user), no) == DropUser(Credited(txns, no), user)
  {
    if txns != [] {
      var init, last := txns[..|txns| - 1], txns[|txns| - 1];
      CreditedWithoutUser(init, user, no);
      var c := Credited(txns, no);
      if last.purpose == Recharge(no) {
        assert c[..|c| - 1] == Credited(init, no) && c[|c| - 1] == (last.user, last.amount);
      } else {
        assert c == Credited(init, no);
      }
      if last.user != user {
        var r := WithoutUser(txns, user);
        assert r[..|r| - 1] == WithoutUser(init, user) && r[|r| - 1] == last;
        assert Credited(r, no) == Credited(WithoutUser(init, user), no)
                                  + (if last.purpose == Recharge(no) then [(last.user, last.amount)] else []);
      }
      assert DropUser(Credited(init, no), user) + [] == DropUser(Credited(init, no), user);
    }
  }

  lemma DropUserFromDue(s: Shop, no: string, realname: bool, user: nat)
    ensures DropUser(Due(s, no, realname), user) == Due(Step(s, RemoveUser(user), realname), no, realname)
  {
    var d := Due(s, no, realname);
    if d != [] { assert d[..0] == []; }
  }

  lemma StepKeepsSettled(s: Shop, ev: Event, realname: bool)
    requires Settled(s, realname) && Ordinary(ev)
    ensures Settled(Step(s, ev, realname), realname)
  {
    var t := Step(s, ev, realname);
    if ev.Notify? && t != s && IsRecharge(s.orders[ev.no], realname) {
      PendingCommitSettles(s, ev.no, s.orders[ev.no], realname, ev.attempt);
    } else {
      forall no ensures Credited(t.db.txns, no) == Due(t, no, realname) {
        assert Credited(s.db.txns, no) == Due(s, no, realname);
        match ev
        case NewOrder(_, _) =>
        case Notify(_, _) =>
        case Other(e) =>
          if e.Transact? && e.commits && ApplyAll(s.db, e.ops).Ok? { NotesCreditNothing(s.db, e.ops, no); }
        case RemoveUser(u) =>
          CreditedWithoutUser(s.db.txns, u, no);
          DropUserFromDue(s, no, realname, u);
      }
    }
  }

  /** Whatever order of new orders, repeated callbacks, failures, other credit movements and deleted accounts: a
      recharge order is paid exactly when it has been credited its credits once. */
  lemma {:induction false} EverySerialRunSettles(events: seq<Event>, realname: bool)
    requires forall i :: 0 <= i < |events| ==> Ordinary(events[i])
    ensures Settled(Run(events, realname), realname)
  {
    if events != [] {
      EverySerialRunSettles(events[..|events| - 1], realname);
      StepKeepsSettled(Run(events[..|events| - 1], realname), events[|events| - 1], realname);
    }
  }
}
