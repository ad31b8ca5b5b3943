/** Callbacks whose query and transaction are separate events, so that others come between them
    (server/internal/handler/payment.go). */
module PaymentRaces {
  import opened Ledger
  import opened Payments

  /** The copy of a pending order that a callback holds between its query and its transaction. */
  datatype Copy = Copy(no: string, order: Order)

  /** `used` are the numbers given to orders so far. A number holds the time and the account, so none is given twice. */
  datatype State = State(shop: Shop, used: set<string>, held: seq<Copy>)

  datatype Moment =
    | Query(no: string)
    | Transaction(i: nat, attempt: Attempt)
    | Between(ev: Payments.Event)

  function Next(s: State, m: Moment, realname: bool): State {
    match m
    case Query(no) =>
      if no !in s.shop.orders || s.shop.orders[no].paid then s else s.(held := s.held + [Copy(no, s.shop.orders[no])])
    case Transaction(i, a) =>
      if i >= |s.held| then s
      else s.(shop := Commit(s.shop, s.held[i].no, s.held[i].order, realname, a), held := s.held[..i] + s.held[i + 1..])
    case Between(ev) =>
      if ev.NewOrder? && ev.no in s.used then s
      else s.(shop := Payments.Step(s.shop, ev, realname), used := s.used + (if ev.NewOrder? then {ev.no} else {}))
  }

  const EMPTY := State(Shop(Db(map[], []), map[]), {}, [])

  function Interleaved(moments: seq<Moment>, realname: bool): State {
    if moments == [] then EMPTY
    else Next(Interleaved(moments[..|moments| - 1], realname), moments[|moments| - 1], realname)
  }

  ghost predicate AllOrdinary(moments: seq<Moment>) {
    forall i :: 0 <= i < |moments| ==> (moments[i].Between? ==> Ordinary(moments[i].ev))
  }

  /** What a callback holds is a copy of its order's row, for as long as there is that row. */
  ghost predicate Faithful(s: State) {
    && s.shop.orders.Keys <= s.used
    && forall i :: 0 <= i < |s.held| ==> s.held[i].no in s.used && IsCopy(s.shop, s.held[i].no, s.held[i].order)
  }

  /** A recharge goes through with a copy whose row has been paid or deleted since it was read. */
  predicate Late(s: State, m: Moment, realname: bool) {
    && m.Transaction? && m.i < |s.held|
    && var c := s.held[m.i];
       GoesThrough(s.shop, c.no, c.order, realname, m.attempt) && (c.no in s.shop.orders ==> s.shop.orders[c.no].paid)
  }

  /** A callback that nothing comes between is its query followed by its transaction. */
  lemma CallbackIsQueryThenTransaction(s: State, no: string, realname: bool, a: Attempt)
    requires no in s.shop.orders && !s.shop.orders[no].paid
    ensures Next(Next(s, Query(no), realname), Transaction(|s.held|, a), realname)
         == s.(shop := Callback(s.shop, no, realname, a))
  {
    var c := Copy(no, s.shop.orders[no]);
    assert (s.held + [c])[..|s.held|] + (s.held + [c])[|s.held| + 1..] == s.held;
  }

  lemma CommitKeepsCopies(s: Shop, no: string, order: Order, realname: bool, a: Attempt, n: string, copy: Order)
    requires IsCopy(s, n, copy)
    ensures Commit(s, no, order, realname, a).orders.Keys == s.orders.Keys
    ensures IsCopy(Commit(s, no, order, realname, a), n, copy)
  {
  }

  lemma StepKeepsCopies(s: Shop, ev: Payments.Event, realname: bool, n: string, copy: Order)
    requires IsCopy(s, n, copy)
    requires ev.NewOrder? ==> ev.no != n
    ensures IsCopy(Payments.Step(s, ev, realname), n, copy)
  {
    if ev.Notify? && n in s.orders && ev.no in s.orders {
      CommitKeepsCopies(s, ev.no, s.orders[ev.no], realname, ev.attempt, n, copy);
    }
  }

  lemma NextKeepsFaithful(s: State, m: Moment, realname: bool)
    requires Faithful(s)
    ensures Faithful(Next(s, m, realname))
  {
    var t := Next(s, m, realname);
    forall j | 0 <= j < |t.held| ensures t.held[j].no in t.used && IsCopy(t.shop, t.held[j].no, t.held[j].order) {
      match m
      case Query(_) =>
      case Transaction(i, a) =>
        if i < |s.held| {
          var k := if j < i then j else j + 1;
          assert t.held[j] == s.held[k];
          CommitKeepsCopies(s.shop, s.held[i].no, s.held[i].order, realname, a, s.held[k].no, s.held[k].order);
        }
      case Between(ev) =>
        if t != s { StepKeepsCopies(s.shop, ev, realname, s.held[j].no, s.held[j].order); }
    }
  }

  lemma NextSettlesIff(s: State, m: Moment, realname: bool)
    requires Faithful(s) && Settled(s.shop, realname)
    requires m.Between? ==> Ordinary(m.ev)
    ensures Settled(Next(s, m, realname).shop, realname) <==> !Late(s, m, realname)
  {
    match m
    case Query(_) =>
    case Between(ev) => StepKeepsSettled(s.shop, ev, realname);
    case Transaction(i, a) =>
      if i < |s.held| {
        var c := s.held[i];
        if GoesThrough(s.shop, c.no, c.order, realname, a) {
          CommitSettlesIffStillPending(s.shop, c.no, c.order, realname, a);
        } else {
          IdleCommit(s.shop, c.no, c.order, realname, a);
        }
      }
  }

  lemma IdleCommit(s: Shop, no: string, order: Order, realname: bool, a: Attempt)
    requires Settled(s, realname) && !GoesThrough(s, no, order, realname, a) && IsCopy(s, no, order)
    ensures Settled(Commit(s, no, order, realname, a), realname)
  {
    var t := Commit(s, no, order, realname, a);
    forall n ensures Credited(t.db.txns, n) == Due(t, n, realname) {
      assert Credited(s.db.txns, n) == Due(s, n, realname);
    }
  }

  lemma {:induction false} EveryRunIsFaithful(moments: seq<Moment>, realname: bool)
    ensures Faithful(Interleaved(moments, realname))
  {
    if moments != [] {
      EveryRunIsFaithful(moments[..|moments| - 1], realname);
      NextKeepsFaithful(Interleaved(moments[..|moments| - 1], realname), moments[|moments| - 1], realname);
    }
  }

  /** Every moment of the run left the shop settled. */
  ghost predicate StaysSettled(moments: seq<Moment>, realname: bool) {
    forall n :: 0 <= n <= |moments| ==> SettledAt(moments, n, realname)
  }

  ghost predicate SettledAt(moments: seq<Moment>, n: nat, realname: bool)
    requires n <= |moments|
  {
    Settled(Interleaved(moments[..n], realname).shop, realname)
  }

  lemma SettledInPrefix(moments: seq<Moment>, k: nat, n: nat, realname: bool)
    requires n <= k <= |moments|
    ensures SettledAt(moments[..k], n, realname) <==> SettledAt(moments, n, realname)
  {
    assert moments[..k][..n] == moments[..n];
  }

  ghost predicate NeverLate(moments: seq<Moment>, realname: bool) {
    forall n :: 0 <= n < |moments| ==> !Late(Interleaved(moments[..n], realname), moments[n], realname)
  }

  /** However callbacks are interleaved with each other and with everything else, all recharge orders stay paid exactly
      when credited once if and only if no transaction goes through with a row paid or deleted since it was read. */
  lemma {:induction false} StaysSettledIffNeverLate(moments: seq<Moment>, realname: bool)
    requires AllOrdinary(moments)
    ensures StaysSettled(moments, realname) <==> NeverLate(moments, realname)
  {
    if moments != [] {
      var k := |moments| - 1;
      var init, s := moments[..k], Interleaved(moments[..k], realname);
      StaysSettledIffNeverLate(init, realname);
      EveryRunIsFaithful(init, realname);
      OneMoreSettled(moments, realname);
      OneMoreLate(moments, realname);
      if StaysSettled(init, realname) {
        assert init[..k] == init && SettledAt(init, k, realname);
        NextSettlesIff(s, moments[k], realname);
      }
    }
  }

  lemma OneMoreSettled(moments: seq<Moment>, realname: bool)
    requires moments != []
    ensures StaysSettled(moments, realname) <==>
            (StaysSettled(moments[..|moments| - 1], realname) && Settled(Interleaved(moments, realname).shop, realname))
  {
    var k := |moments| - 1;
    assert moments[..k + 1] == moments;
    assert SettledAt(moments, k + 1, realname) <==> Settled(Interleaved(moments, realname).shop, realname);
    if StaysSettled(moments, realname) {
      forall n | 0 <= n <= |moments[..k]| ensures SettledAt(moments[..k], n, realname) {
        SettledInPrefix(moments, k, n, realname);
      }
    } else if StaysSettled(moments[..k], realname) {
      LastIsUnsettled(moments, realname);
    }
  }

  lemma LastIsUnsettled(moments: seq<Moment>, realname: bool)
    requires moments != [] && !StaysSettled(moments, realname) && StaysSettled(moments[..|moments| - 1], realname)
    ensures !SettledAt(moments, |moments|, realname)
  {
    var k := |moments| - 1;
    var n :| 0 <= n <= |moments| && !SettledAt(moments, n, realname);
    if n <= k { SettledInPrefix(moments, k, n, realname); }
  }

  lemma OneMoreLate(moments: seq<Moment>, realname: bool)
    requires moments != []
    ensures var k := |moments| - 1;
            NeverLate(moments, realname) <==>
            (NeverLate(moments[..k], realname) && !Late(Interleaved(moments[..k], realname), moments[k], realname))
  {
    var k := |moments| - 1;
    forall n: nat | n < k ensures moments[..k][..n] == moments[..n] {}
  }

  // ---------- two callbacks of one order ----------

  const ORDER := Order(1, 10, Credits, false)
  const WORKS := Attempt(true, NoFault, true)
  const NUMBER := "P1"

  /** The gateway notifies twice; both callbacks have read the order before either commits. */
  const TWICE: seq<Moment> :=
    [Between(NewOrder(NUMBER, ORDER)), Query(NUMBER), Query(NUMBER), Transaction(0, WORKS), Transaction(0, WORKS)]

  lemma {:induction false} InterleavedOne(moments: seq<Moment>, m: Moment, realname: bool)
    ensures Interleaved(moments + [m], realname) == Next(Interleaved(moments, realname), m, realname)
  {
    assert (moments + [m])[..|moments|] == moments;
  }

  lemma BothRead(realname: bool)
    ensures Interleaved(TWICE[..3], realname)
         == State(Shop(Db(map[], []), map[NUMBER := ORDER]), {NUMBER}, [Copy(NUMBER, ORDER), Copy(NUMBER, ORDER)])
  {
    assert TWICE[..0] == [] && TWICE[..1] == TWICE[..0] + [TWICE[0]];
    assert TWICE[..2] == TWICE[..1] + [TWICE[1]] && TWICE[..3] == TWICE[..2] + [TWICE[2]];
    InterleavedOne(TWICE[..0], TWICE[0], realname);
    InterleavedOne(TWICE[..1], TWICE[1], realname);
    InterleavedOne(TWICE[..2], TWICE[2], realname);
  }

  const FIRST := Txn(1, 10, Grant, Recharge(NUMBER), 10)
  const SECOND := Txn(1, 10, Grant, Recharge(NUMBER), 20)

  lemma BothCommitted(realname: bool)
    ensures Interleaved(TWICE, realname)
         == State(Shop(Db(map[1 := 20], [FIRST, SECOND]), map[NUMBER := ORDER.(paid := true)]), {NUMBER}, [])
    ensures Late(Interleaved(TWICE[..4], realname), TWICE[4], realname)
  {
    BothRead(realname);
    assert TWICE[..4] == TWICE[..3] + [TWICE[3]] && TWICE == TWICE[..4] + [TWICE[4]];
    InterleavedOne(TWICE[..3], TWICE[3], realname);
    FirstCommits(realname);
    InterleavedOne(TWICE[..4], TWICE[4], realname);
    SecondCommits(realname);
  }

  const PAID := map[NUMBER := ORDER.(paid := true)]
  const ONE_LEFT := State(Shop(Db(map[1 := 10], [FIRST]), PAID), {NUMBER}, [Copy(NUMBER, ORDER)])

  lemma FirstCommits(realname: bool)
    ensures var read := State(Shop(Db(map[], []), map[NUMBER := ORDER]), {NUMBER}, [Copy(NUMBER, ORDER), Copy(NUMBER, ORDER)]);
      Next(read, Transaction(0, WORKS), realname) == ONE_LEFT
  {
    var db := Apply(Db(map[], []), Op(Grant, 1, 10, Recharge(NUMBER))).value;
    assert db.balances == map[1 := 10] && db.txns == [FIRST];
  }

  lemma SecondCommits(realname: bool)
    ensures Next(ONE_LEFT, Transaction(0, WORKS), realname) == State(Shop(Db(map[1 := 20], [FIRST, SECOND]), PAID), {NUMBER}, [])
    ensures Late(ONE_LEFT, Transaction(0, WORKS), realname)
  {
    var db := Apply(ONE_LEFT.shop.db, Op(Grant, 1, 10, Recharge(NUMBER))).value;
    assert db.balances == map[1 := 20] && db.txns == [FIRST, SECOND];
  }

  lemma CreditedBoth()
    ensures Credited([FIRST, SECOND], NUMBER) == [(1, 10), (1, 10)]
  {
    assert [FIRST][..0] == [] && Credited([], NUMBER) == [];
    assert Credited([FIRST], NUMBER) == [(1, 10)];
    assert [FIRST, SECOND][..1] == [FIRST];
  }

  /** From the empty shop one order of ten is paid once and credited twenty. */
  lemma OneOrderCreditedTwice(realname: bool)
    ensures AllOrdinary(TWICE) && !StaysSettled(TWICE, realname)
    ensures Interleaved(TWICE, realname).shop.orders == map[NUMBER := ORDER.(paid := true)]
    ensures Interleaved(TWICE, realname).shop.db.balances == map[1 := 20]
    ensures Credited(Interleaved(TWICE, realname).shop.db.txns, NUMBER) == [(1, 10), (1, 10)]
  {
    BothCommitted(realname);
    CreditedBoth();
    StaysSettledIffNeverLate(TWICE, realname);
  }
}
