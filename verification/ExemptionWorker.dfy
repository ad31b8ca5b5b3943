/** The exemption rows, their worker and the scans' enforcement decision as they run, one statement at a time. Each
    method is a run of the events of module Exemption. */
module ExemptionWorkers {
  import opened Wrappers
  import opened Exemption

  datatype Lookup = Found | Missing | Unreadable

  datatype Fault = NoFault | OnFind | OnCheck | OnInsert

  class AuditExemptions {
    var rows: seq<Row>
    var claimed: multiset<Pair>
    var queued: multiset<Pair>
    var running: multiset<Pair>
    var now: int
    var enforced: seq<Hit>

    constructor (now: int)
      ensures View() == Initial(now)
    {
      rows, claimed, queued, running, enforced := [], multiset{}, multiset{}, multiset{}, [];
      this.now := now;
    }

    function View(): State
      reads this
    {
      State(rows, claimed, queued, running, now, enforced)
    }

    /** CreateExemptionPending: the second query for an unfinished row, then the insert. */
    method CreateExemptionPending(p: Pair, recheckAt: int, fault: Fault) returns (ok: bool)
      modifies this`rows
      ensures ok == (fault != OnCheck && (Blocking(old(rows), p) || fault != OnInsert))
      ensures rows == if ok && !Blocking(old(rows), p) then Insert(old(rows), p, recheckAt) else old(rows)
    {
      if fault == OnCheck { return false; }
      if Blocking(rows, p) { return true; }
      if fault == OnInsert { return false; }
      if !HasRow(rows, p) { rows := rows + [Row(p, recheckAt, Pending)]; }
      ok := true;
    }

    /** tryHandleViolationExemption: whether the hit is exempt. */
    method TryHandleViolationExemption(p: Pair, exempt: bool, minutes: nat, fault: Fault) returns (handled: bool)
      modifies this`rows
      ensures fault == NoFault ==> handled == exempt
      ensures handled ==> exempt && View() == Step(old(View()), OrdinaryHit(p, true, minutes, Blocking(old(rows), p), false))
      ensures !handled ==> rows == old(rows)
    {
      if !exempt { return false; }
      if fault == OnFind { return false; }
      if Blocking(rows, p) { return true; }
      handled := CreateExemptionPending(p, now + 60 * minutes, fault);
    }

    /** The branch of ScanSubdomain that a hit takes: `task` is the recheck task the scan serves, if it serves one. */
    method HandleHit(p: Pair, exempt: bool, minutes: nat, task: Option<Pair>, fault: Fault)
      requires task.Some? ==> task.value in running && task.value.sub == p.sub
      modifies this`rows, this`enforced
      ensures task.Some? ==> View() == Step(old(View()), RecheckHit(task.value, p.rule, exempt))
      ensures task.None? && fault == NoFault ==>
                View() == Step(old(View()), OrdinaryHit(p, exempt, minutes, Blocking(old(rows), p), false))
      ensures task.None? && fault != NoFault ==>
                exists seen, failed :: View() == Step(old(View()), OrdinaryHit(p, exempt, minutes, seen, failed))
      // only an exempt hit of an ordinary scan is spared, and its grace period begins unless its pair has had one
      ensures task.Some? || !exempt ==> rows == old(rows) && enforced == old(enforced) + [Hit(p, exempt, task, now)]
      ensures task.None? && exempt && fault == NoFault ==>
                enforced == old(enforced)
                && rows == (if HasRow(old(rows), p) then old(rows) else old(rows) + [Row(p, now + 60 * minutes, Pending)])
    {
      if task.None? {
        var handled := TryHandleViolationExemption(p, exempt, minutes, fault);
        if handled { return; }
        ghost var e := OrdinaryHit(p, exempt, minutes, true, fault != NoFault);
        enforced := enforced + [Hit(p, exempt, task, now)];
        assert View() == Step(old(View()), e);
      } else {
        enforced := enforced + [Hit(p, exempt, task, now)];
      }
    }

    method ClaimOne(p: Pair) returns (taken: bool)
      modifies this`rows, this`claimed
      ensures View() == Step(old(View()), Claim(p))
      ensures claimed == if taken then old(claimed) + multiset{p} else old(claimed)
    {
      taken := Due(rows, p, now);
      if taken {
        rows := Move(rows, p, Pending, Rechecking);
        claimed := claimed + multiset{p};
      }
    }

    /** The updates of the claim, up to the first that fails; update i is statement i + 1. */
    method ClaimEach(due: seq<Pair>, fault: nat) returns (taken: seq<Pair>, ok: bool)
      modifies this`rows, this`claimed
      ensures ok <==> !(1 <= fault <= |due|)
      ensures ok ==> View() == Run(old(View()), Claims(due)) && claimed == old(claimed) + multiset(taken)
    {
      taken := [];
      for i := 0 to |due|
        invariant !(1 <= fault <= i)
        invariant Run(View(), Claims(due[i..])) == Run(old(View()), Claims(due))
        invariant claimed == old(claimed) + multiset(taken)
      {
        if fault == i + 1 { return taken, false; }
        ClaimsSplit(due, i);
        RunStep(View(), Claim(due[i]), Claims(due[i + 1..]));
        var one := ClaimOne(due[i]);
        if one {
          OneMore(old(claimed), taken, due[i]);
          taken := taken + [due[i]];
        }
      }
      ok := true;
    }

    /** ClaimDueExemptions: `due` is what the query selects and locks; a row that changed meanwhile is passed over. The
        query, the updates and the commit are the statements of one transaction; `fault` is the number of the one that
        fails, and beyond the last if none does. */
    method ClaimDueExemptions(due: seq<Pair>, fault: nat) returns (taken: seq<Pair>, ok: bool)
      modifies this`rows, this`claimed
      ensures ok <==> fault > |due| + 1
      ensures View() == if ok then Run(old(View()), Claims(due)) else old(View())
      ensures claimed == old(claimed) + multiset(taken)
      ensures ok ==> forall p :: p in taken <==> p in due && Due(old(rows), p, now)
      ensures ok && UniquePairs(old(rows)) ==> |rows| == |old(rows)| && forall i :: 0 <= i < |rows| ==>
                rows[i] == if old(rows)[i].pair in taken then old(rows)[i].(status := Rechecking) else old(rows)[i]
    {
      var rowsBefore, claimedBefore := rows, claimed;
      if fault == 0 { return [], false; }
      taken, ok := ClaimEach(due, fault);
      if !ok || fault == |due| + 1 {
        rows, claimed := rowsBefore, claimedBefore;
        return [], false;
      }
      TakenAre(old(View()), due, taken);
      if UniquePairs(old(rows)) { TakenRows(old(View()), due, taken); }
    }

    /** One round of processDue's loop: hand the task to the queue, complete its row if the subdomain is gone, or give it
        back. */
    method Dispose(p: Pair, lookup: Lookup, accepted: bool, fails: bool)
      requires p in claimed
      modifies this`rows, this`claimed, this`queued
      ensures View() == Step(old(View()), Disposal(p, lookup, accepted, fails))
      ensures claimed == old(claimed) - multiset{p}
    {
      claimed := claimed - multiset{p};
      if lookup != Found {
        if !fails { rows := Move(rows, p, Rechecking, Completed); }
      } else if accepted {
        queued := queued + multiset{p};
      } else {
        if !fails { rows := Move(rows, p, Rechecking, Pending); }
      }
    }

    /** processDue: a run of claims and then of one disposal for each claim, or nothing if the claim is rolled back. */
    method ProcessDue(due: seq<Pair>, claimFault: nat, lookup: Pair -> Lookup, accepts: Pair -> bool, fails: Pair -> bool)
      returns (taken: seq<Pair>, ok: bool)
      modifies this`rows, this`claimed, this`queued
      ensures ok <==> claimFault > |due| + 1
      ensures View() == if ok then Run(Run(old(View()), Claims(due)), Disposals(taken, lookup, accepts, fails)) else old(View())
      ensures ok ==> Run(old(View()), Claims(due)).claimed == old(claimed) + multiset(taken)
      ensures claimed == old(claimed) && enforced == old(enforced)
      // taken are the pairs of `due` whose rows are pending and due
      ensures ok ==> forall p :: p in taken <==>
                p in due && exists i :: 0 <= i < |old(rows)| && old(rows)[i] == Row(p, old(rows)[i].recheckAt, Pending)
                                         && old(rows)[i].recheckAt <= now
      // a taken pair is queued if and only if its subdomain was found and the queue accepted it
      ensures ok ==> forall p :: queued[p] == old(queued)[p] + (if p in taken && lookup(p) == Found && accepts(p) then 1 else 0)
      // its row is then rechecking; refused it is pending again, and without a subdomain completed, unless that fails
      ensures ok && UniquePairs(old(rows)) ==> |rows| == |old(rows)| && forall i :: 0 <= i < |rows| ==>
                var (r, p) := (old(rows)[i], old(rows)[i].pair);
                rows[i] == if p !in taken then r
                           else if lookup(p) == Found && accepts(p) then r.(status := Rechecking)
                           else if fails(p) then r.(status := Rechecking)
                           else if lookup(p) == Found then r.(status := Pending)
                           else r.(status := Completed)
    {
      taken, ok := ClaimDueExemptions(due, claimFault);
      if !ok { return; }
      ghost var started := View();
      RoundMeans(old(View()), due, taken, lookup, accepts, fails);
      forall p ensures Due(old(rows), p, now) <==>
                         exists i :: 0 <= i < |old(rows)| && old(rows)[i] == Row(p, old(rows)[i].recheckAt, Pending)
                                     && old(rows)[i].recheckAt <= now {
        DueMeans(old(rows), p, now);
      }
      for i := 0 to |taken|
        invariant claimed == old(claimed) + multiset(taken[i..])
        invariant Run(View(), Disposals(taken[i..], lookup, accepts, fails)) == Run(started, Disposals(taken, lookup, accepts, fails))
      {
        var p := taken[i];
        OneLess(old(claimed), taken[i..]);
        assert taken[i..][1..] == taken[i + 1..];
        RunStep(View(), Disposal(p, lookup(p), accepts(p), fails(p)), Disposals(taken[i + 1..], lookup, accepts, fails));
        Dispose(p, lookup(p), accepts(p), fails(p));
      }
    }

    /** A recheck scan ends: the deferred completion. */
    method CompleteExemptionPending(p: Pair, fails: bool)
      requires p in running
      modifies this`rows, this`running
      ensures View() == Step(old(View()), Finish(p, fails))
      ensures |rows| == |old(rows)| && forall i :: 0 <= i < |rows| ==>
                rows[i] == if old(rows)[i].pair == p && old(rows)[i].status == Rechecking && !fails
                           then old(rows)[i].(status := Completed) else old(rows)[i]
    {
      running := running - multiset{p};
      if !fails { rows := Move(rows, p, Rechecking, Completed); }
    }
  }

  function Claims(due: seq<Pair>): seq<Event>
    decreases |due|
  {
    if due == [] then [] else [Claim(due[0])] + Claims(due[1..])
  }

  lemma ClaimsSplit(due: seq<Pair>, i: nat)
    requires i < |due|
    ensures Claims(due[i..]) == [Claim(due[i])] + Claims(due[i + 1..])
  {
    assert due[i..][1..] == due[i + 1..];
  }

  function Disposal(p: Pair, lookup: Lookup, accepted: bool, fails: bool): Event {
    if lookup != Found then Abandon(p, fails) else if accepted then HandOver(p) else GiveBack(p, fails)
  }

  function Disposals(taken: seq<Pair>, lookup: Pair -> Lookup, accepts: Pair -> bool, fails: Pair -> bool): seq<Event>
    decreases |taken|
  {
    if taken == [] then []
    else
      var p := taken[0];
      [Disposal(p, lookup(p), accepts(p), fails(p))] + Disposals(taken[1..], lookup, accepts, fails)
  }

  // ---------- what a round does, row by row ----------

  predicate IsDue(r: Row, now: int) { r.status == Pending && r.recheckAt <= now }

  /** Claims of these pairs leave the rows so. */
  function ClaimedRow(r: Row, due: seq<Pair>, now: int): Row {
    if r.pair in due && IsDue(r, now) then r.(status := Rechecking) else r
  }

  lemma ClaimStep(s: State, p: Pair)
    requires UniquePairs(s.rows)
    ensures var s1 := Step(s, Claim(p));
      && s1.now == s.now && |s1.rows| == |s.rows| && UniquePairs(s1.rows)
      && forall i :: 0 <= i < |s.rows| ==> s1.rows[i] == ClaimedRow(s.rows[i], [p], s.now)
  {
    if Due(s.rows, p, s.now) {
      var j :| 0 <= j < |s.rows| && s.rows[j].pair == p && IsDue(s.rows[j], s.now);
      forall i | 0 <= i < |s.rows| && s.rows[i].pair == p ensures i == j { }
    }
  }

  lemma {:induction false} ClaimsMeanRows(s: State, due: seq<Pair>)
    requires UniquePairs(s.rows)
    ensures var s2 := Run(s, Claims(due));
      && |s2.rows| == |s.rows| && forall i :: 0 <= i < |s.rows| ==> s2.rows[i] == ClaimedRow(s.rows[i], due, s.now)
    decreases |due|
  {
    if due != [] {
      var s1 := Step(s, Claim(due[0]));
      ClaimStep(s, due[0]);
      ClaimsSplit(due, 0);
      assert due[0..] == due;
      RunStep(s, Claim(due[0]), Claims(due[1..]));
      ClaimsMeanRows(s1, due[1..]);
      assert forall p :: p in due <==> p == due[0] || p in due[1..];
    }
  }

  lemma ClaimStepTakes(s: State, p: Pair)
    ensures var s1 := Step(s, Claim(p));
      && s1.claimed == s.claimed + (if Due(s.rows, p, s.now) then multiset{p} else multiset{})
      && s1.queued == s.queued && s1.enforced == s.enforced && s1.now == s.now
      && forall q :: Due(s1.rows, q, s.now) <==> Due(s.rows, q, s.now) && q != p
  {
    var s1 := Step(s, Claim(p));
    forall q ensures Due(s1.rows, q, s.now) <==> Due(s.rows, q, s.now) && q != p {
      if i :| 0 <= i < |s.rows| && s.rows[i].pair == q && s.rows[i].status == Pending && s.rows[i].recheckAt <= s.now {
        if q != p { assert s1.rows[i] == s.rows[i]; } else { assert Due(s.rows, p, s.now); }
      }
    }
  }

  lemma {:induction false} ClaimsTake(s: State, due: seq<Pair>)
    ensures var s2 := Run(s, Claims(due));
      && s2.queued == s.queued && s2.enforced == s.enforced && s2.now == s.now
      && forall p :: s2.claimed[p] == s.claimed[p] + (if p in due && Due(s.rows, p, s.now) then 1 else 0)
    decreases |due|
  {
    if due != [] {
      ClaimStepTakes(s, due[0]);
      ClaimsSplit(due, 0);
      assert due[0..] == due;
      RunStep(s, Claim(due[0]), Claims(due[1..]));
      ClaimsTake(Step(s, Claim(due[0])), due[1..]);
      assert forall p :: p in due <==> p == due[0] || p in due[1..];
    }
  }

  /** What becomes of a rechecking row whose task is disposed of. */
  function DisposedRow(r: Row, taken: seq<Pair>, lookup: Pair -> Lookup, accepts: Pair -> bool, fails: Pair -> bool): Row {
    if r.pair !in taken || r.status != Rechecking || fails(r.pair) || (lookup(r.pair) == Found && accepts(r.pair)) then r
    else r.(status := if lookup(r.pair) == Found then Pending else Completed)
  }

  lemma {:induction false} DisposalsMean(s: State, taken: seq<Pair>, lookup: Pair -> Lookup, accepts: Pair -> bool, fails: Pair -> bool)
    requires forall p :: multiset(taken)[p] <= 1
    requires forall p :: p in taken ==> p in s.claimed
    ensures var s2 := Run(s, Disposals(taken, lookup, accepts, fails));
      && s2.enforced == s.enforced && |s2.rows| == |s.rows|
      && (forall i :: 0 <= i < |s.rows| ==> s2.rows[i] == DisposedRow(s.rows[i], taken, lookup, accepts, fails))
      && (forall p :: s2.queued[p] == s.queued[p] + (if p in taken && lookup(p) == Found && accepts(p) then 1 else 0))
    decreases |taken|
  {
    if taken != [] {
      var p, rest := taken[0], taken[1..];
      var s1 := Step(s, Disposal(p, lookup(p), accepts(p), fails(p)));
      assert taken == [p] + rest;
      assert multiset(taken)[p] == 1 + multiset(rest)[p];
      assert p !in rest;
      RunStep(s, Disposal(p, lookup(p), accepts(p), fails(p)), Disposals(rest, lookup, accepts, fails));
      DisposalStep(s, p, lookup, accepts, fails);
      OthersAreStillTaken(s.claimed, taken);
      DisposalsMean(s1, rest, lookup, accepts, fails);
      assert forall q :: q in taken <==> q == p || q in rest;
    }
  }

  lemma OthersAreStillTaken(claimed: multiset<Pair>, taken: seq<Pair>)
    requires taken != [] && (forall p :: multiset(taken)[p] <= 1) && forall p :: p in taken ==> p in claimed
    ensures forall p :: multiset(taken[1..])[p] <= 1
    ensures forall p :: p in taken[1..] ==> p in claimed - multiset{taken[0]}
  {
    var first, rest := taken[0], taken[1..];
    assert taken == [first] + rest;
    forall p ensures multiset(taken)[p] == multiset(rest)[p] + (if p == first then 1 else 0) { }
    forall p | p in rest ensures p in claimed - multiset{first} {
      assert multiset(rest)[p] > 0 && p != first && p in taken;
    }
  }

  lemma DisposalStep(s: State, p: Pair, lookup: Pair -> Lookup, accepts: Pair -> bool, fails: Pair -> bool)
    requires p in s.claimed
    ensures var s1 := Step(s, Disposal(p, lookup(p), accepts(p), fails(p)));
      && s1.enforced == s.enforced && s1.claimed == s.claimed - multiset{p} && |s1.rows| == |s.rows|
      && (forall i :: 0 <= i < |s.rows| ==> s1.rows[i] == DisposedRow(s.rows[i], [p], lookup, accepts, fails))
      && forall q :: s1.queued[q] == s.queued[q] + (if q == p && lookup(p) == Found && accepts(p) then 1 else 0)
  {
    DisposalKeepsRows(s, p, lookup, accepts, fails);
    if lookup(p) == Found && accepts(p) {
      assert Step(s, HandOver(p)).queued == s.queued + multiset{p};
    } else if lookup(p) == Found {
      assert Step(s, GiveBack(p, fails(p))).queued == s.queued;
    } else {
      assert Step(s, Abandon(p, fails(p))).queued == s.queued;
    }
  }

  lemma DisposalKeepsRows(s: State, p: Pair, lookup: Pair -> Lookup, accepts: Pair -> bool, fails: Pair -> bool)
    requires p in s.claimed
    ensures var s1 := Step(s, Disposal(p, lookup(p), accepts(p), fails(p)));
      |s1.rows| == |s.rows| && forall i :: 0 <= i < |s.rows| ==> s1.rows[i] == DisposedRow(s.rows[i], [p], lookup, accepts, fails)
  {
    assert forall q :: q in [p] <==> q == p;
  }

  lemma TakenAre(s: State, due: seq<Pair>, taken: seq<Pair>)
    requires Run(s, Claims(due)).claimed == s.claimed + multiset(taken)
    ensures forall p :: multiset(taken)[p] == if p in due && Due(s.rows, p, s.now) then 1 else 0
    ensures forall p :: p in taken <==> p in due && Due(s.rows, p, s.now)
  {
    forall p ensures multiset(taken)[p] == if p in due && Due(s.rows, p, s.now) then 1 else 0 { OneTaken(s, due, taken, p); }
    forall p ensures p in taken <==> multiset(taken)[p] > 0 { }
  }

  lemma TakenRows(s: State, due: seq<Pair>, taken: seq<Pair>)
    requires UniquePairs(s.rows) && forall p :: p in taken <==> p in due && Due(s.rows, p, s.now)
    ensures var rows2 := Run(s, Claims(due)).rows;
      |rows2| == |s.rows| && forall i :: 0 <= i < |s.rows| ==>
        rows2[i] == if s.rows[i].pair in taken then s.rows[i].(status := Rechecking) else s.rows[i]
  {
    ClaimsMeanRows(s, due);
    forall i | 0 <= i < |s.rows| ensures s.rows[i].pair in taken <==> s.rows[i].pair in due && IsDue(s.rows[i], s.now) {
      OnlyRowIsDue(s.rows, i, s.now);
    }
  }

  lemma OneTaken(s: State, due: seq<Pair>, taken: seq<Pair>, p: Pair)
    requires Run(s, Claims(due)).claimed == s.claimed + multiset(taken)
    ensures multiset(taken)[p] == if p in due && Due(s.rows, p, s.now) then 1 else 0
  {
    ClaimsTake(s, due);
    assert Run(s, Claims(due)).claimed[p] == s.claimed[p] + multiset(taken)[p];
  }

  lemma DueMeans(rows: seq<Row>, p: Pair, now: int)
    ensures Due(rows, p, now) <==>
      exists i :: 0 <= i < |rows| && rows[i] == Row(p, rows[i].recheckAt, Pending) && rows[i].recheckAt <= now
  {
    if i :| 0 <= i < |rows| && rows[i].pair == p && rows[i].status == Pending && rows[i].recheckAt <= now {
      assert rows[i] == Row(p, rows[i].recheckAt, Pending);
    }
  }

  lemma OnlyRowIsDue(rows: seq<Row>, i: nat, now: int)
    requires UniquePairs(rows) && i < |rows|
    ensures Due(rows, rows[i].pair, now) <==> IsDue(rows[i], now)
  {
  }

  /** A round, claim by claim and task by task. */
  lemma RoundMeans(s: State, due: seq<Pair>, taken: seq<Pair>, lookup: Pair -> Lookup, accepts: Pair -> bool, fails: Pair -> bool)
    requires Run(s, Claims(due)).claimed == s.claimed + multiset(taken)
    ensures forall p :: p in taken <==> p in due && Due(s.rows, p, s.now)
    ensures var s2 := Run(Run(s, Claims(due)), Disposals(taken, lookup, accepts, fails));
      && s2.enforced == s.enforced
      && (forall p :: s2.queued[p] == s.queued[p] + (if p in taken && lookup(p) == Found && accepts(p) then 1 else 0))
      && (UniquePairs(s.rows) ==> |s2.rows| == |s.rows| && forall i :: 0 <= i < |s.rows| ==>
            var (r, p) := (s.rows[i], s.rows[i].pair);
            s2.rows[i] == if p !in taken then r
                          else if lookup(p) == Found && accepts(p) then r.(status := Rechecking)
                          else if fails(p) then r.(status := Rechecking)
                          else if lookup(p) == Found then r.(status := Pending)
                          else r.(status := Completed))
  {
    var s1 := Run(s, Claims(due));
    TakenAre(s, due, taken);
    ClaimsTake(s, due);
    DisposalsMean(s1, taken, lookup, accepts, fails);
    if UniquePairs(s.rows) { TakenRows(s, due, taken); }
  }

  lemma RunStep(s: State, e: Event, rest: seq<Event>)
    ensures Run(s, [e] + rest) == Run(Step(s, e), rest)
  {
    assert ([e] + rest)[1..] == rest;
  }

  lemma OneMore(before: multiset<Pair>, ps: seq<Pair>, p: Pair)
    ensures before + multiset(ps) + multiset{p} == before + multiset(ps + [p])
  {
  }

  lemma OneLess(before: multiset<Pair>, ps: seq<Pair>)
    requires ps != []
    ensures ps[0] in before + multiset(ps)
    ensures before + multiset(ps) - multiset{ps[0]} == before + multiset(ps[1..])
  {
    assert ps == [ps[0]] + ps[1..];
  }
}
