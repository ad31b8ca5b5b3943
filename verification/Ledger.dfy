/** Credit balances and their transaction log (server/internal/repository/credit.go). Amounts are signed 64-bit
    integers in tenths of a credit. */
module Ledger {
  import opened Wrappers

  const MAX_INT64 := 0x7FFF_FFFF_FFFF_FFFF
  const MIN_INT64 := -0x8000_0000_0000_0000

  datatype Kind = Grant | Deduct | Refund

  /** What a transaction row says it is for; a recharge row names its payment order. */
  datatype Purpose = Recharge(orderNo: string) | Note(text: string)

  datatype Txn = Txn(user: nat, amount: int, kind: Kind, purpose: Purpose, balanceAfter: int)

  datatype Db = Db(balances: map<nat, int>, txns: seq<Txn>)

  datatype Op = Op(kind: Kind, user: nat, amount: int, purpose: Purpose)

  datatype Error = InvalidAmount | NoBalance | Insufficient | Overflow | DatabaseFault

  /** Which database statement of an operation fails, if one does. */
  datatype Fault = NoFault | OnRead | OnSave | OnInsert

  // ---------- one operation ----------

  function Signed(op: Op): int { if op.kind == Deduct then -op.amount else op.amount }

  function Apply(db: Db, op: Op): Result<Db, Error> {
    if op.amount <= 0 then Err(InvalidAmount)
    else if op.user !in db.balances && op.kind != Grant then Err(NoBalance)
    else
      var balance := if op.user in db.balances then db.balances[op.user] else 0;
      if op.kind == Deduct && balance < op.amount then Err(Insufficient)
      else if op.kind != Deduct && balance > MAX_INT64 - op.amount then Err(Overflow)
      else
        var after := balance + Signed(op);
        Ok(Db(db.balances[op.user := after], db.txns + [Txn(op.user, Signed(op), op.kind, op.purpose, after)]))
  }

  /** Several operations in one database transaction: the first error ends it. */
  function ApplyAll(db: Db, ops: seq<Op>): Result<Db, Error>
    decreases |ops|
  {
    if ops == [] then Ok(db)
    else match Apply(db, ops[0])
      case Err(e) => Err(e)
      case Ok(next) => ApplyAll(next, ops[1..])
  }

  ghost predicate Faultless(faults: nat -> Fault) { forall i: nat :: faults(i) == NoFault }

  class Repository {
    var balances: map<nat, int>
    var txns: seq<Txn>

    constructor ()
      ensures View() == Db(map[], [])
    {
      balances, txns := map[], [];
    }

    function View(): Db
      reads this
    {
      Db(balances, txns)
    }

    /** The outcome of one operation inside a transaction. After an error the transaction will be rolled back. */
    static ghost predicate Posted(before: Db, after: Db, op: Op, fault: Fault, err: Option<Error>) {
      && (err.None? ==> Apply(before, op) == Ok(after))
      && (fault != NoFault ==> err.Some?)
      && (fault == NoFault && err.Some? ==> Apply(before, op) == Err(err.value))
    }

    method DeductCredits(user: nat, amount: int, purpose: Purpose, fault: Fault) returns (err: Option<Error>)
      modifies this
      ensures Posted(old(View()), View(), Op(Deduct, user, amount, purpose), fault, err)
    {
      if amount <= 0 { return Some(InvalidAmount); }
      if fault == OnRead { return Some(DatabaseFault); }
      if user !in balances { return Some(NoBalance); }
      var balance := balances[user];
      if balance < amount { return Some(Insufficient); }
      balance := balance - amount;
      if fault == OnSave { return Some(DatabaseFault); }
      balances := balances[user := balance];
      if fault == OnInsert { return Some(DatabaseFault); }
      txns := txns + [Txn(user, -amount, Deduct, purpose, balance)];
      return None;
    }

    method GrantCredits(user: nat, amount: int, purpose: Purpose, fault: Fault) returns (err: Option<Error>)
      modifies this
      ensures Posted(old(View()), View(), Op(Grant, user, amount, purpose), fault, err)
    {
      if amount <= 0 { return Some(InvalidAmount); }
      if fault == OnRead { return Some(DatabaseFault); }
      if user !in balances { balances := balances[user := 0]; }
      var balance := balances[user];
      if balance > MAX_INT64 - amount { return Some(Overflow); }
      balance := balance + amount;
      if fault == OnSave { return Some(DatabaseFault); }
      balances := balances[user := balance];
      if fault == OnInsert { return Some(DatabaseFault); }
      txns := txns + [Txn(user, amount, Grant, purpose, balance)];
      assert balances == old(balances)[user := balance];
      return None;
    }

    method RefundCredits(user: nat, amount: int, purpose: Purpose, fault: Fault) returns (err: Option<Error>)
      modifies this
      ensures Posted(old(View()), View(), Op(Refund, user, amount, purpose), fault, err)
    {
      if amount <= 0 { return Some(InvalidAmount); }
      if fault == OnRead { return Some(DatabaseFault); }
      if user !in balances { return Some(NoBalance); }
      var balance := balances[user];
      if balance > MAX_INT64 - amount { return Some(Overflow); }
      balance := balance + amount;
      if fault == OnSave { return Some(DatabaseFault); }
      balances := balances[user := balance];
      if fault == OnInsert { return Some(DatabaseFault); }
      txns := txns + [Txn(user, amount, Refund, purpose, balance)];
      return None;
    }

    /** Repository.Transaction around a list of operations; `commits` is false when a statement after them fails. */
    method Transaction(ops: seq<Op>, faults: nat -> Fault, commits: bool) returns (err: Option<Error>)
      modifies this
      ensures err.None? ==> ApplyAll(old(View()), ops) == Ok(View()) && commits
      ensures err.Some? ==> View() == old(View())
      ensures commits && Faultless(faults) && err.Some? ==> ApplyAll(old(View()), ops) == Err(err.value)
    {
      var balancesBefore, txnsBefore := balances, txns;
      for i := 0 to |ops|
        invariant ApplyAll(View(), ops[i..]) == ApplyAll(old(View()), ops)
        invariant balancesBefore == old(balances) && txnsBefore == old(txns)
      {
        var op := ops[i];
        assert ops[i..][0] == op && ops[i..][1..] == ops[i + 1..];
        match op.kind {
          case Deduct => err := DeductCredits(op.user, op.amount, op.purpose, faults(i));
          case Grant => err := GrantCredits(op.user, op.amount, op.purpose, faults(i));
          case Refund => err := RefundCredits(op.user, op.amount, op.purpose, faults(i));
        }
        if err.Some? {
          balances, txns := balancesBefore, txnsBefore;
          return;
        }
      }
      if !commits {
        balances, txns := balancesBefore, txnsBefore;
        return Some(DatabaseFault);
      }
      return None;
    }
  }

  // ---------- the invariant of every run ----------

  function Sum(txns: seq<Txn>, user: nat): int {
    if txns == [] then 0
    else
      var last := txns[|txns| - 1];
      Sum(txns[..|txns| - 1], user) + (if last.user == user then last.amount else 0)
  }

  /** Every row carries the sum of its user's rows up to and including itself. */
  predicate RunningBalances(txns: seq<Txn>) {
    txns == [] ||
    (RunningBalances(txns[..|txns| - 1]) && txns[|txns| - 1].balanceAfter == Sum(txns, txns[|txns| - 1].user))
  }

  ghost predicate Consistent(db: Db) {
    && (forall u :: u in db.balances ==> 0 <= db.balances[u] <= MAX_INT64 && db.balances[u] == Sum(db.txns, u))
    && (forall k :: 0 <= k < |db.txns| ==> db.txns[k].user in db.balances)
    && RunningBalances(db.txns)
  }

  /** The rows of a deleted user are removed with the balance. */
  function WithoutUser(txns: seq<Txn>, user: nat): (r: seq<Txn>)
    ensures forall k :: 0 <= k < |r| ==> r[k] in txns && r[k].user != user
  {
    if txns == [] then []
    else
      var rest := WithoutUser(txns[..|txns| - 1], user);
      if txns[|txns| - 1].user == user then rest else rest + [txns[|txns| - 1]]
  }

  /** A transaction of operations that commits or rolls back, the first look at a balance, a deleted account. */
  datatype Event = Transact(ops: seq<Op>, commits: bool) | EnsureBalance(user: nat) | DeleteUser(user: nat)

  function Step(db: Db, ev: Event): Db {
    match ev
    case Transact(ops, commits) => if commits && ApplyAll(db, ops).Ok? then ApplyAll(db, ops).value else db
    case EnsureBalance(u) => if u in db.balances then db else db.(balances := db.balances[u := 0])
    case DeleteUser(u) => Db(db.balances - {u}, WithoutUser(db.txns, u))
  }

  function Run(events: seq<Event>): Db {
    if events == [] then Db(map[], []) else Step(Run(events[..|events| - 1]), events[|events| - 1])
  }

  lemma {:induction false} SumOfStranger(txns: seq<Txn>, user: nat)
    requires forall k :: 0 <= k < |txns| ==> txns[k].user != user
    ensures Sum(txns, user) == 0
  {
    if txns != [] { SumOfStranger(txns[..|txns| - 1], user); }
  }

  lemma ApplyKeepsConsistent(db: Db, op: Op)
    requires Consistent(db) && Apply(db, op).Ok?
    ensures Consistent(Apply(db, op).value)
  {
    var next := Apply(db, op).value;
    assert next.txns[..|next.txns| - 1] == db.txns;
    if op.user !in db.balances { SumOfStranger(db.txns, op.user); }
  }

  lemma {:induction false} ApplyAllKeepsConsistent(db: Db, ops: seq<Op>)
    requires Consistent(db) && ApplyAll(db, ops).Ok?
    ensures Consistent(ApplyAll(db, ops).value)
    decreases |ops|
  {
    if ops != [] {
      ApplyKeepsConsistent(db, ops[0]);
      ApplyAllKeepsConsistent(Apply(db, ops[0]).value, ops[1..]);
    }
  }

  lemma {:induction false} RemovalKeepsSums(txns: seq<Txn>, user: nat, other: nat)
    requires other != user
    ensures Sum(WithoutUser(txns, user), other) == Sum(txns, other)
  {
    if txns != [] {
      var init, last := txns[..|txns| - 1], txns[|txns| - 1];
      RemovalKeepsSums(init, user, other);
      if last.user != user {
        var r := WithoutUser(txns, user);
        assert r[..|r| - 1] == WithoutUser(init, user);
      }
    }
  }

  lemma {:induction false} RemovalKeepsRunningBalances(txns: seq<Txn>, user: nat)
    requires RunningBalances(txns)
    ensures RunningBalances(WithoutUser(txns, user))
  {
    if txns != [] {
      var init, last := txns[..|txns| - 1], txns[|txns| - 1];
      RemovalKeepsRunningBalances(init, user);
      if last.user != user {
        var r := WithoutUser(txns, user);
        assert r[..|r| - 1] == WithoutUser(init, user) && r[|r| - 1] == last;
        RemovalKeepsSums(txns, user, last.user);
      }
    }
  }

  /** In every run, committed or rolled back: each balance is the sum of its user's rows and stays within
      [0, MaxInt64], and each row's balance is the matching prefix sum. */
  lemma {:induction false} EveryRunIsConsistent(events: seq<Event>)
    ensures Consistent(Run(events))
  {
    if events != [] {
      var before, ev := Run(events[..|events| - 1]), events[|events| - 1];
      EveryRunIsConsistent(events[..|events| - 1]);
      match ev
      case Transact(ops, commits) =>
        if commits && ApplyAll(before, ops).Ok? { ApplyAllKeepsConsistent(before, ops); }
      case EnsureBalance(u) =>
        if u !in before.balances { SumOfStranger(before.txns, u); }
      case DeleteUser(u) =>
        forall v | v in before.balances && v != u ensures Sum(WithoutUser(before.txns, u), v) == Sum(before.txns, v) {
          RemovalKeepsSums(before.txns, u, v);
        }
        RemovalKeepsRunningBalances(before.txns, u);
    }
  }

  lemma {:induction false} RunningBalanceAt(txns: seq<Txn>, k: nat)
    requires RunningBalances(txns) && k < |txns|
    ensures txns[k].balanceAfter == Sum(txns[..k + 1], txns[k].user)
  {
    if k == |txns| - 1 {
      assert txns[..k + 1] == txns;
    } else {
      RunningBalanceAt(txns[..|txns| - 1], k);
      assert txns[..|txns| - 1][..k + 1] == txns[..k + 1];
    }
  }

  /** The guards refuse exactly the operations that would leave the range or touch a missing balance. */
  lemma GuardsAreExact(db: Db, op: Op)
    requires Consistent(db)
    ensures Apply(db, op).Ok? <==>
              && op.amount > 0
              && (op.user in db.balances || op.kind == Grant)
              && 0 <= (if op.user in db.balances then db.balances[op.user] else 0) + Signed(op) <= MAX_INT64
  {
  }
}
