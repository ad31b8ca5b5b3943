/** The grace period between a rule's first hit on a subdomain and its enforcement: exemption rows
    (server/internal/repository/audit.go:396-491), the worker that claims the due ones
    (server/internal/worker/audit_exemption_worker.go) and the scans (server/internal/service/audit_service.go).
    Any number of workers and scans interleave; each event below is one statement, hand-over or decision of one of them. */
module Exemption {
  import opened Wrappers

  datatype Status = Pending | Rechecking | Completed

  datatype Pair = Pair(sub: nat, rule: nat)

  datatype Row = Row(pair: Pair, recheckAt: int, status: Status)

  /** An enforced hit: of an exempt-enabled rule or not, and by which recheck task, if by one. */
  datatype Hit = Hit(pair: Pair, exempt: bool, task: Option<Pair>, at: int)

  /** Recheck tasks are in the hands of a worker, in the queue, or being scanned. */
  datatype State = State(rows: seq<Row>, claimed: multiset<Pair>, queued: multiset<Pair>, running: multiset<Pair>,
                         now: int, enforced: seq<Hit>)

  // ---------- statements ----------

  predicate HasRow(rows: seq<Row>, p: Pair) { exists i :: 0 <= i < |rows| && rows[i].pair == p }

  predicate Blocking(rows: seq<Row>, p: Pair) {
    exists i :: 0 <= i < |rows| && rows[i].pair == p && rows[i].status != Completed
  }

  predicate Due(rows: seq<Row>, p: Pair, now: int) {
    exists i :: 0 <= i < |rows| && rows[i].pair == p && rows[i].status == Pending && rows[i].recheckAt <= now
  }

  /** INSERT; the unique index on the pair refuses a second row, and the refusal is not an error. */
  function Insert(rows: seq<Row>, p: Pair, recheckAt: int): seq<Row> {
    if HasRow(rows, p) then rows else rows + [Row(p, recheckAt, Pending)]
  }

  /** UPDATE ... SET status WHERE the pair and the present status. */
  function Move(rows: seq<Row>, p: Pair, from: Status, to: Status): seq<Row> {
    seq(|rows|, i requires 0 <= i < |rows| =>
      if rows[i].pair == p && rows[i].status == from then rows[i].(status := to) else rows[i])
  }

  // ---------- events ----------

  datatype Event =
    | Tick(to: int)
      /** An ordinary scan hit a rule. `sawBlocking` is what its two queries for an unfinished row said, at whatever
          moment before; `fault` is whether one of its statements failed. */
    | OrdinaryHit(pair: Pair, exempt: bool, minutes: nat, sawBlocking: bool, fault: bool)
    | Claim(pair: Pair)
    | HandOver(pair: Pair)
      /** The queue refused the task: back to pending. */
    | GiveBack(pair: Pair, fault: bool)
      /** The subdomain is gone. */
    | Abandon(pair: Pair, fault: bool)
    | Receive(pair: Pair)
      /** The recheck scan hit a rule, its own or another. */
    | RecheckHit(task: Pair, rule: nat, exempt: bool)
    | Finish(pair: Pair, fault: bool)
      /** A process stops with the task in its hands. */
    | Lost(pair: Pair)

  predicate Faultless(e: Event) {
    match e
    case OrdinaryHit(_, _, _, _, fault) => !fault
    case GiveBack(_, fault) => !fault
    case Abandon(_, fault) => !fault
    case Finish(_, fault) => !fault
    case Lost(_) => false
    case _ => true
  }

  function Step(s: State, e: Event): State {
    match e
    case Tick(to) => if to >= s.now then s.(now := to) else s
    case OrdinaryHit(p, exempt, minutes, sawBlocking, fault) =>
      if !exempt || fault then s.(enforced := s.enforced + [Hit(p, exempt, None, s.now)])
      else if sawBlocking then s
      else s.(rows := Insert(s.rows, p, s.now + 60 * minutes))
    case Claim(p) =>
      if Due(s.rows, p, s.now) then s.(rows := Move(s.rows, p, Pending, Rechecking), claimed := s.claimed + multiset{p})
      else s
    case HandOver(p) =>
      if p in s.claimed then s.(claimed := s.claimed - multiset{p}, queued := s.queued + multiset{p}) else s
    case GiveBack(p, fault) =>
      if p !in s.claimed then s
      else s.(claimed := s.claimed - multiset{p}, rows := if fault then s.rows else Move(s.rows, p, Rechecking, Pending))
    case Abandon(p, fault) =>
      if p !in s.claimed then s
      else s.(claimed := s.claimed - multiset{p}, rows := if fault then s.rows else Move(s.rows, p, Rechecking, Completed))
    case Receive(p) =>
      if p in s.queued then s.(queued := s.queued - multiset{p}, running := s.running + multiset{p}) else s
    case RecheckHit(task, rule, exempt) =>
      if task in s.running then s.(enforced := s.enforced + [Hit(Pair(task.sub, rule), exempt, Some(task), s.now)]) else s
    case Finish(p, fault) =>
      if p !in s.running then s
      else s.(running := s.running - multiset{p}, rows := if fault then s.rows else Move(s.rows, p, Rechecking, Completed))
    case Lost(p) =>
      if p in s.claimed then s.(claimed := s.claimed - multiset{p})
      else if p in s.queued then s.(queued := s.queued - multiset{p})
      else s.(running := s.running - multiset{p})
  }

  function Run(s: State, events: seq<Event>): State
    decreases |events|
  {
    if events == [] then s else Run(Step(s, events[0]), events[1..])
  }

  // ---------- what every run keeps ----------

  predicate UniquePairs(rows: seq<Row>) {
    forall i, j :: 0 <= i < j < |rows| ==> rows[i].pair != rows[j].pair
  }

  function InFlight(s: State): multiset<Pair> { s.claimed + s.queued + s.running }

  function RecheckingPairs(rows: seq<Row>): set<Pair> { set r | r in rows && r.status == Rechecking :: r.pair }

  /** A hit enforced by a recheck task is one of that task's subdomain, and the task's row was due. Of a row of the hit
      rule, which may be another than the task's, nothing is said. */
  predicate AfterGrace(rows: seq<Row>, h: Hit) {
    h.task.Some? ==>
      && h.task.value.sub == h.pair.sub
      && exists j :: 0 <= j < |rows| && rows[j].pair == h.task.value && rows[j].recheckAt <= h.at
  }

  predicate TaskHitsAfterGrace(rows: seq<Row>, hits: seq<Hit>) {
    forall i :: 0 <= i < |hits| ==> AfterGrace(rows, hits[i])
  }

  /** Exempt-enabled rules are enforced by recheck tasks only. */
  predicate ExemptByTaskOnly(hits: seq<Hit>) {
    forall i :: 0 <= i < |hits| && hits[i].exempt ==> hits[i].task.Some?
  }

  /** With or without faults: one row a pair, at most one task a pair, tasks only for rechecking rows, rechecking only
      when due, and enforcement by tasks only after the grace period. */
  ghost predicate Sound(s: State) {
    && UniquePairs(s.rows)
    && Covered(InFlight(s), RecheckingPairs(s.rows))
    && DueOnly(s.rows, s.now)
    && TaskHitsAfterGrace(s.rows, s.enforced)
  }

  ghost predicate Covered(tasks: multiset<Pair>, rows: set<Pair>) {
    forall p :: p in tasks ==> tasks[p] == 1 && p in rows
  }

  predicate DueOnly(rows: seq<Row>, now: int) {
    forall i :: 0 <= i < |rows| && rows[i].status == Rechecking ==> rows[i].recheckAt <= now
  }

  /** Without faults: exactly one task for every rechecking row, and exempt-enabled rules enforced by tasks only. */
  ghost predicate Tight(s: State) {
    Sound(s) && InFlight(s) == multiset(RecheckingPairs(s.rows)) && ExemptByTaskOnly(s.enforced)
  }

  function Initial(now: int): State { State([], multiset{}, multiset{}, multiset{}, now, []) }

  /** What a step may do to a status. */
  predicate Allowed(from: Status, to: Status) {
    || from == to
    || (from == Pending && to == Rechecking)
    || (from == Rechecking && to != Rechecking)
  }

  /** Rows are only added, and keep their pair and their time. */
  predicate Follows(rows: seq<Row>, rows2: seq<Row>) {
    && |rows| <= |rows2|
    && (forall i :: 0 <= i < |rows| ==> rows2[i] == rows[i].(status := rows2[i].status) && Allowed(rows[i].status, rows2[i].status))
    && (forall i :: |rows| <= i < |rows2| ==> rows2[i].status == Pending)
  }

  lemma MoveFollows(rows: seq<Row>, p: Pair, from: Status, to: Status)
    requires Allowed(from, to)
    ensures Follows(rows, Move(rows, p, from, to))
    ensures UniquePairs(rows) ==> UniquePairs(Move(rows, p, from, to))
  {
  }

  lemma InsertFollows(rows: seq<Row>, p: Pair, at: int)
    ensures Follows(rows, Insert(rows, p, at)) && HasRow(Insert(rows, p, at), p)
    ensures UniquePairs(rows) ==> UniquePairs(Insert(rows, p, at))
  {
    if !HasRow(rows, p) { assert Insert(rows, p, at)[|rows|].pair == p; }
  }

  lemma SameFollows(rows: seq<Row>)
    ensures Follows(rows, rows)
  {
  }

  /** The five ways in which a step may write rows. */
  lemma StepWrites(s: State, e: Event)
    ensures var rows := Step(s, e).rows;
      || rows == s.rows
      || (e.OrdinaryHit? && rows == Insert(s.rows, e.pair, s.now + 60 * e.minutes))
      || (e.Claim? && rows == Move(s.rows, e.pair, Pending, Rechecking))
      || (e.GiveBack? && rows == Move(s.rows, e.pair, Rechecking, Pending))
      || ((e.Abandon? || e.Finish?) && rows == Move(s.rows, e.pair, Rechecking, Completed))
  {
  }

  /** A status moves from pending to rechecking and from there to pending or completed, in no other way. */
  lemma StepFollows(s: State, e: Event)
    ensures Follows(s.rows, Step(s, e).rows)
    ensures UniquePairs(s.rows) ==> UniquePairs(Step(s, e).rows)
  {
    StepWrites(s, e);
    SameFollows(s.rows);
    if e.OrdinaryHit? { InsertFollows(s.rows, e.pair, s.now + 60 * e.minutes); }
    else if e.Claim? { MoveFollows(s.rows, e.pair, Pending, Rechecking); }
    else if e.GiveBack? { MoveFollows(s.rows, e.pair, Rechecking, Pending); }
    else if e.Abandon? || e.Finish? { MoveFollows(s.rows, e.pair, Rechecking, Completed); }
  }

  lemma MoveRechecking(rows: seq<Row>, p: Pair, to: Status)
    requires UniquePairs(rows) && to != Rechecking
    ensures RecheckingPairs(Move(rows, p, Rechecking, to)) == RecheckingPairs(rows) - {p}
  {
    var rows2 := Move(rows, p, Rechecking, to);
    forall q ensures q in RecheckingPairs(rows2) <==> q in RecheckingPairs(rows) && q != p {
      if q in RecheckingPairs(rows) && q != p {
        var i :| 0 <= i < |rows| && rows[i].status == Rechecking && rows[i].pair == q;
        assert rows2[i] in rows2;
      }
      if q in RecheckingPairs(rows2) {
        var i :| 0 <= i < |rows2| && rows2[i].status == Rechecking && rows2[i].pair == q;
        assert rows[i] in rows;
      }
    }
  }

  lemma ClaimRechecking(rows: seq<Row>, p: Pair, now: int)
    requires UniquePairs(rows) && Due(rows, p, now)
    ensures p !in RecheckingPairs(rows)
    ensures RecheckingPairs(Move(rows, p, Pending, Rechecking)) == RecheckingPairs(rows) + {p}
  {
    var rows2 := Move(rows, p, Pending, Rechecking);
    forall q ensures q in RecheckingPairs(rows2) <==> q in RecheckingPairs(rows) || q == p {
      if q in RecheckingPairs(rows) {
        var i :| 0 <= i < |rows| && rows[i].status == Rechecking && rows[i].pair == q;
        assert rows2[i] in rows2;
      }
      if q in RecheckingPairs(rows2) {
        var i :| 0 <= i < |rows2| && rows2[i].status == Rechecking && rows2[i].pair == q;
        assert rows[i] in rows;
      }
      var j :| 0 <= j < |rows| && rows[j].pair == p && rows[j].status == Pending && rows[j].recheckAt <= now;
      assert rows2[j] in rows2;
    }
  }

  lemma InsertRechecking(rows: seq<Row>, p: Pair, at: int)
    ensures RecheckingPairs(Insert(rows, p, at)) == RecheckingPairs(rows)
  {
  }

  lemma StepKeepsDue(s: State, e: Event)
    requires UniquePairs(s.rows) && DueOnly(s.rows, s.now)
    ensures DueOnly(Step(s, e).rows, Step(s, e).now)
  {
    match e
    case OrdinaryHit(p, _, minutes, _, _) => assert DueOnly(Insert(s.rows, p, s.now + 60 * minutes), s.now);
    case Claim(p) =>
      if Due(s.rows, p, s.now) {
        var j :| 0 <= j < |s.rows| && s.rows[j].pair == p && s.rows[j].status == Pending && s.rows[j].recheckAt <= s.now;
        assert forall i :: 0 <= i < |s.rows| && s.rows[i].pair == p ==> i == j;
      }
    case GiveBack(p, _) => assert DueOnly(Move(s.rows, p, Rechecking, Pending), s.now);
    case Abandon(p, _) => assert DueOnly(Move(s.rows, p, Rechecking, Completed), s.now);
    case Finish(p, _) => assert DueOnly(Move(s.rows, p, Rechecking, Completed), s.now);
    case _ =>
  }

  /** The steps that add a task to those in flight, and those that take one out. */
  predicate Puts(s: State, e: Event) { e.Claim? && Due(s.rows, e.pair, s.now) }

  predicate Takes(s: State, e: Event) {
    match e
    case GiveBack(p, _) => p in s.claimed
    case Abandon(p, _) => p in s.claimed
    case Finish(p, _) => p in s.running
    case Lost(p) => p in InFlight(s)
    case _ => false
  }

  lemma FromFirst(a: multiset<Pair>, b: multiset<Pair>, c: multiset<Pair>, p: Pair)
    requires p in a
    ensures a - multiset{p} + b + c == a + b + c - multiset{p}
    ensures a - multiset{p} + (b + multiset{p}) + c == a + b + c
  {
  }

  lemma FromSecond(a: multiset<Pair>, b: multiset<Pair>, c: multiset<Pair>, p: Pair)
    requires p in b
    ensures a + (b - multiset{p}) + c == a + b + c - multiset{p}
    ensures a + (b - multiset{p}) + (c + multiset{p}) == a + b + c
  {
  }

  lemma FromThird(a: multiset<Pair>, b: multiset<Pair>, c: multiset<Pair>, p: Pair)
    requires p in c
    ensures a + b + (c - multiset{p}) == a + b + c - multiset{p}
  {
  }

  lemma TaskChangesHands(s: State, e: Event)
    requires e.HandOver? || e.Receive?
    ensures InFlight(Step(s, e)) == InFlight(s)
  {
    if e.HandOver? && e.pair in s.claimed { FromFirst(s.claimed, s.queued, s.running, e.pair); }
    if e.Receive? && e.pair in s.queued { FromSecond(s.claimed, s.queued, s.running, e.pair); }
  }

  lemma TaskEnds(s: State, e: Event)
    requires (e.GiveBack? || e.Abandon? || e.Finish?) && Takes(s, e)
    ensures InFlight(Step(s, e)) == InFlight(s) - multiset{e.pair}
  {
    if e.Finish? { FromThird(s.claimed, s.queued, s.running, e.pair); }
    else { FromFirst(s.claimed, s.queued, s.running, e.pair); }
  }

  lemma TaskIsLost(s: State, e: Event)
    requires e.Lost? && Takes(s, e)
    ensures InFlight(Step(s, e)) == InFlight(s) - multiset{e.pair}
  {
    if e.pair in s.claimed { FromFirst(s.claimed, s.queued, s.running, e.pair); }
    else if e.pair in s.queued { FromSecond(s.claimed, s.queued, s.running, e.pair); }
    else { FromThird(s.claimed, s.queued, s.running, e.pair); }
  }

  lemma TaskIsClaimed(s: State, e: Event)
    requires Puts(s, e)
    ensures InFlight(Step(s, e)) == InFlight(s) + multiset{e.pair}
  {
  }

  lemma NoTaskMoves(s: State, e: Event)
    requires !Puts(s, e) && !Takes(s, e) && !e.HandOver? && !e.Receive?
    ensures Step(s, e).claimed == s.claimed && Step(s, e).queued == s.queued && Step(s, e).running == s.running
  {
  }

  lemma StepMovesTasks(s: State, e: Event)
    ensures InFlight(Step(s, e)) == if Puts(s, e) then InFlight(s) + multiset{e.pair}
                                    else if Takes(s, e) then InFlight(s) - multiset{e.pair}
                                    else InFlight(s)
  {
    if Puts(s, e) { TaskIsClaimed(s, e); }
    else if e.HandOver? || e.Receive? { TaskChangesHands(s, e); }
    else if Takes(s, e) { if e.Lost? { TaskIsLost(s, e); } else { TaskEnds(s, e); } }
    else { NoTaskMoves(s, e); }
  }

  lemma RowsStay(s: State, e: Event)
    requires !Puts(s, e) && !(Takes(s, e) && Faultless(e))
    ensures RecheckingPairs(Step(s, e).rows) == RecheckingPairs(s.rows)
  {
    if e.OrdinaryHit? { InsertRechecking(s.rows, e.pair, s.now + 60 * e.minutes); }
    else { assert Step(s, e).rows == s.rows; }
  }

  /** The rechecking rows after a step. */
  lemma StepRechecking(s: State, e: Event)
    requires UniquePairs(s.rows)
    ensures RecheckingPairs(Step(s, e).rows) == if Puts(s, e) then RecheckingPairs(s.rows) + {e.pair}
                                           else if Takes(s, e) && Faultless(e) then RecheckingPairs(s.rows) - {e.pair}
                                           else RecheckingPairs(s.rows)
    ensures Puts(s, e) ==> e.pair !in RecheckingPairs(s.rows)
  {
    if Puts(s, e) { ClaimRechecking(s.rows, e.pair, s.now); }
    else if Takes(s, e) && Faultless(e) { MoveRechecking(s.rows, e.pair, if e.GiveBack? then Pending else Completed); }
    else { RowsStay(s, e); }
  }

  lemma TakesFromFlight(s: State, e: Event)
    requires Takes(s, e)
    ensures e.pair in InFlight(s)
  {
  }

  lemma CoveredWithOneMore(tasks: multiset<Pair>, rows: set<Pair>, p: Pair)
    requires Covered(tasks, rows) && p !in rows
    ensures Covered(tasks + multiset{p}, rows + {p})
  {
  }

  lemma CoveredWithOneLess(tasks: multiset<Pair>, rows: set<Pair>, p: Pair)
    requires Covered(tasks, rows) && p in tasks
    ensures Covered(tasks - multiset{p}, rows) && Covered(tasks - multiset{p}, rows - {p})
  {
  }

  lemma StepKeepsCovered(s: State, e: Event)
    requires UniquePairs(s.rows) && Covered(InFlight(s), RecheckingPairs(s.rows))
    ensures Covered(InFlight(Step(s, e)), RecheckingPairs(Step(s, e).rows))
  {
    var tasks, rows := InFlight(s), RecheckingPairs(s.rows);
    StepMovesTasks(s, e);
    StepRechecking(s, e);
    if Puts(s, e) {
      CoveredWithOneMore(tasks, rows, e.pair);
    } else if Takes(s, e) {
      TakesFromFlight(s, e);
      CoveredWithOneLess(tasks, rows, e.pair);
    }
  }

  /** A row goes on with its pair and its time. */
  lemma GraceGoesOn(rows: seq<Row>, rows2: seq<Row>, hits: seq<Hit>)
    requires TaskHitsAfterGrace(rows, hits) && Follows(rows, rows2)
    ensures TaskHitsAfterGrace(rows2, hits)
  {
    forall i | 0 <= i < |hits| ensures AfterGrace(rows2, hits[i]) {
      var h := hits[i];
      if h.task.Some? {
        var j :| 0 <= j < |rows| && rows[j].pair == h.task.value && rows[j].recheckAt <= h.at;
        assert rows2[j].pair == h.task.value;
      }
    }
  }

  lemma TaskIsDue(s: State, p: Pair)
    requires Covered(InFlight(s), RecheckingPairs(s.rows)) && DueOnly(s.rows, s.now) && p in s.running
    ensures exists j :: 0 <= j < |s.rows| && s.rows[j].pair == p && s.rows[j].recheckAt <= s.now
  {
    assert p in InFlight(s) && p in RecheckingPairs(s.rows);
    var j :| 0 <= j < |s.rows| && s.rows[j].status == Rechecking && s.rows[j].pair == p;
  }

  /** The hit that a step enforces, if it enforces one. */
  lemma StepEnforces(s: State, e: Event)
    ensures var hits := Step(s, e).enforced;
      || hits == s.enforced
      || (e.OrdinaryHit? && (!e.exempt || e.fault) && hits == s.enforced + [Hit(e.pair, e.exempt, None, s.now)])
      || (e.RecheckHit? && e.task in s.running
          && hits == s.enforced + [Hit(Pair(e.task.sub, e.rule), e.exempt, Some(e.task), s.now)])
  {
  }

  lemma StepKeepsGrace(s: State, e: Event)
    requires Sound(s)
    ensures TaskHitsAfterGrace(Step(s, e).rows, Step(s, e).enforced)
  {
    StepFollows(s, e);
    StepEnforces(s, e);
    if e.RecheckHit? && e.task in s.running { TaskIsDue(s, e.task); }
    assert TaskHitsAfterGrace(s.rows, Step(s, e).enforced);
    GraceGoesOn(s.rows, Step(s, e).rows, Step(s, e).enforced);
  }

  lemma StepKeepsSound(s: State, e: Event)
    requires Sound(s)
    ensures Sound(Step(s, e))
  {
    StepFollows(s, e);
    StepKeepsDue(s, e);
    StepKeepsCovered(s, e);
    StepKeepsGrace(s, e);
  }

  lemma WithAndWithout(pairs: set<Pair>, p: Pair)
    ensures p in pairs ==> multiset(pairs - {p}) == multiset(pairs) - multiset{p}
    ensures p !in pairs ==> multiset(pairs + {p}) == multiset(pairs) + multiset{p}
  {
  }

  lemma StepKeepsCorrespondence(s: State, e: Event)
    requires UniquePairs(s.rows) && InFlight(s) == multiset(RecheckingPairs(s.rows)) && Faultless(e)
    ensures InFlight(Step(s, e)) == multiset(RecheckingPairs(Step(s, e).rows))
  {
    StepMovesTasks(s, e);
    StepRechecking(s, e);
    if Takes(s, e) {
      TakesFromFlight(s, e);
      WithAndWithout(RecheckingPairs(s.rows), e.pair);
    } else if Puts(s, e) {
      WithAndWithout(RecheckingPairs(s.rows), e.pair);
    }
  }

  lemma StepKeepsTight(s: State, e: Event)
    requires Tight(s) && Faultless(e)
    ensures Tight(Step(s, e))
  {
    StepKeepsSound(s, e);
    StepKeepsCorrespondence(s, e);
    StepEnforces(s, e);
  }

  /** In every run, faults and losses included: one row a pair, no task without its rechecking row, no second task for a
      pair, rechecking only when due, and a task enforces hits of its own subdomain only, after its row's grace period. */
  lemma {:induction false} EveryRunIsSound(s: State, events: seq<Event>)
    requires Sound(s)
    ensures Sound(Run(s, events))
    decreases |events|
  {
    if events != [] {
      StepKeepsSound(s, events[0]);
      EveryRunIsSound(Step(s, events[0]), events[1..]);
    }
  }

  /** In every run without faults and losses, moreover, tasks in flight and rechecking rows correspond one to one, and an
      exempt-enabled rule is enforced by recheck tasks only. */
  lemma {:induction false} EveryFaultlessRunIsTight(s: State, events: seq<Event>)
    requires Tight(s) && forall e :: e in events ==> Faultless(e)
    ensures Tight(Run(s, events))
    decreases |events|
  {
    if events != [] {
      StepKeepsTight(s, events[0]);
      EveryFaultlessRunIsTight(Step(s, events[0]), events[1..]);
    }
  }

  lemma StartsTight(now: int, events: seq<Event>)
    requires forall e :: e in events ==> Faultless(e)
    ensures Tight(Run(Initial(now), events))
  {
    assert RecheckingPairs([]) == {};
    EveryFaultlessRunIsTight(Initial(now), events);
  }

  /** In every run rows are only added and statuses move only forward, or back from rechecking to pending. */
  lemma {:induction false} RowsArePermanent(s: State, events: seq<Event>, i: nat)
    requires i < |s.rows|
    ensures i < |Run(s, events).rows| && Run(s, events).rows[i].pair == s.rows[i].pair
    ensures Run(s, events).rows[i].recheckAt == s.rows[i].recheckAt
    ensures s.rows[i].status == Completed ==> Run(s, events).rows[i].status == Completed
    decreases |events|
  {
    if events != [] {
      StepFollows(s, events[0]);
      RowsArePermanent(Step(s, events[0]), events[1..], i);
    }
  }

  // ---------- ends of the road ----------

  /** Whether a row is in its last state: completed, or rechecking with no task left that could move it. */
  ghost predicate Final(s: State, i: nat)
    requires i < |s.rows|
  {
    s.rows[i].pair !in InFlight(s) && s.rows[i].status != Pending
  }

  lemma FinalIsNotDue(s: State, p: Pair, i: nat)
    requires UniquePairs(s.rows) && i < |s.rows| && s.rows[i].status != Pending && Due(s.rows, p, s.now)
    ensures p != s.rows[i].pair
  {
  }

  lemma FinalRowStays(s: State, e: Event, i: nat)
    requires UniquePairs(s.rows) && i < |s.rows| && Final(s, i)
    ensures i < |Step(s, e).rows| && Step(s, e).rows[i] == s.rows[i]
  {
    if Puts(s, e) {
      FinalIsNotDue(s, e.pair, i);
    } else if e.GiveBack? || e.Abandon? || e.Finish? {
      assert Takes(s, e) ==> e.pair in InFlight(s);
    }
  }

  lemma FinalStays(s: State, e: Event, i: nat)
    requires Sound(s) && i < |s.rows| && Final(s, i)
    ensures i < |Step(s, e).rows| && Step(s, e).rows[i] == s.rows[i] && Final(Step(s, e), i)
  {
    FinalRowStays(s, e, i);
    StepMovesTasks(s, e);
    if Puts(s, e) { FinalIsNotDue(s, e.pair, i); }
  }

  /** A completed row, and likewise a rechecking row whose task is lost, never changes again and never gets a task
      again; so the pair stays exempt: without a fault of that very scan, no ordinary scan's hit is enforced, however
      the run goes on. */
  lemma {:induction false} FinalForever(s: State, events: seq<Event>, i: nat)
    requires Sound(s) && i < |s.rows| && Final(s, i)
    ensures var s2 := Run(s, events); i < |s2.rows| && s2.rows[i] == s.rows[i] && Final(s2, i)
    ensures var s2 := Run(s, events); forall minutes, seen ::
      Step(s2, OrdinaryHit(s.rows[i].pair, true, minutes, seen, false)) == s2
    decreases |events|
  {
    if events != [] {
      FinalStays(s, events[0], i);
      StepKeepsSound(s, events[0]);
      FinalForever(Step(s, events[0]), events[1..], i);
    }
  }

  /** Sound states have a completed row's pair out of flight, so its row is final. */
  lemma CompletedIsFinal(s: State, i: nat)
    requires Sound(s) && i < |s.rows| && s.rows[i].status == Completed
    ensures Final(s, i)
  {
    forall r | r in s.rows && r.status == Rechecking ensures r.pair != s.rows[i].pair {
      var j :| 0 <= j < |s.rows| && s.rows[j] == r;
    }
  }

  /** ListActiveScanTargets skips a subdomain with an unfinished exemption, of whatever rule. */
  predicate Scheduled(rows: seq<Row>, sub: nat) {
    forall i :: 0 <= i < |rows| && rows[i].pair.sub == sub ==> rows[i].status == Completed
  }

  lemma LostRecheckEndsScheduling(s: State, events: seq<Event>, i: nat)
    requires Sound(s) && i < |s.rows| && s.rows[i].status == Rechecking && s.rows[i].pair !in InFlight(s)
    ensures !Scheduled(Run(s, events).rows, s.rows[i].pair.sub)
  {
    FinalForever(s, events, i);
    assert Run(s, events).rows[i] == s.rows[i];
  }

  // ---------- finishing what is open ----------

  /** Nothing is lost for the subdomain: each of its rechecking rows still has its task. */
  ghost predicate NoneLost(s: State, sub: nat) {
    forall i :: 0 <= i < |s.rows| && s.rows[i].pair.sub == sub && s.rows[i].status == Rechecking ==> s.rows[i].pair in InFlight(s)
  }

  lemma {:induction false} RunConcat(s: State, a: seq<Event>, b: seq<Event>)
    ensures Run(s, a + b) == Run(Run(s, a), b)
    decreases |a|
  {
    if a == [] {
      assert a + b == b;
    } else {
      var both := a + b;
      assert both[0] == a[0] && both[1..] == a[1..] + b;
      RunConcat(Step(s, a[0]), a[1..], b);
    }
  }

  /** Only row i has changed, and only the task of its pair. */
  ghost predicate OnlyRow(s: State, s2: State, i: nat)
    requires i < |s.rows|
  {
    && |s2.rows| == |s.rows|
    && (forall j :: 0 <= j < |s.rows| && j != i ==> s2.rows[j] == s.rows[j])
    && s2.rows[i].pair == s.rows[i].pair
    && (forall p :: p != s.rows[i].pair ==> InFlight(s2)[p] == InFlight(s)[p])
  }

  lemma OnlyRowTwice(s: State, s2: State, s3: State, i: nat)
    requires i < |s.rows| && OnlyRow(s, s2, i) && OnlyRow(s2, s3, i)
    ensures OnlyRow(s, s3, i)
  {
  }

  /** A step about the pair of a row touches that row and that pair's task only. */
  lemma StepOfPair(s: State, e: Event, i: nat)
    requires Sound(s) && i < |s.rows|
    requires e.Tick? || ((e.Claim? || e.HandOver? || e.Receive? || e.Finish?) && e.pair == s.rows[i].pair)
    ensures OnlyRow(s, Step(s, e), i)
  {
    StepMovesTasks(s, e);
    StepWrites(s, e);
    StepFollows(s, e);
  }

  /** A running recheck finishes. */
  lemma FinishRow(s: State, i: nat)
    requires Sound(s) && i < |s.rows| && s.rows[i].status == Rechecking && s.rows[i].pair in s.running
    ensures var s2 := Step(s, Finish(s.rows[i].pair, false)); OnlyRow(s, s2, i) && Sound(s2) && s2.rows[i].status == Completed
  {
    StepOfPair(s, Finish(s.rows[i].pair, false), i);
    StepKeepsSound(s, Finish(s.rows[i].pair, false));
  }

  lemma ReceiveRow(s: State, i: nat)
    requires Sound(s) && i < |s.rows| && s.rows[i].status == Rechecking && s.rows[i].pair in s.queued
    ensures var s2 := Step(s, Receive(s.rows[i].pair));
      OnlyRow(s, s2, i) && Sound(s2) && s2.rows[i] == s.rows[i] && s2.rows[i].pair in s2.running
  {
    StepOfPair(s, Receive(s.rows[i].pair), i);
    StepKeepsSound(s, Receive(s.rows[i].pair));
  }

  lemma HandOverRow(s: State, i: nat)
    requires Sound(s) && i < |s.rows| && s.rows[i].status == Rechecking && s.rows[i].pair in s.claimed
    ensures var s2 := Step(s, HandOver(s.rows[i].pair));
      OnlyRow(s, s2, i) && Sound(s2) && s2.rows[i] == s.rows[i] && s2.rows[i].pair in s2.queued
  {
    StepOfPair(s, HandOver(s.rows[i].pair), i);
    StepKeepsSound(s, HandOver(s.rows[i].pair));
  }

  lemma ClaimRow(s: State, i: nat)
    requires Sound(s) && i < |s.rows| && s.rows[i].status == Pending && s.rows[i].recheckAt <= s.now
    ensures var s2 := Step(s, Claim(s.rows[i].pair));
      OnlyRow(s, s2, i) && Sound(s2) && s2.rows[i].status == Rechecking && s2.rows[i].pair in s2.claimed
  {
    assert Due(s.rows, s.rows[i].pair, s.now);
    StepOfPair(s, Claim(s.rows[i].pair), i);
    StepKeepsSound(s, Claim(s.rows[i].pair));
  }

  lemma TickRow(s: State, to: int, i: nat)
    requires Sound(s) && i < |s.rows| && to >= s.now
    ensures OnlyRow(s, Step(s, Tick(to)), i) && Sound(Step(s, Tick(to))) && Step(s, Tick(to)) == s.(now := to)
  {
    StepOfPair(s, Tick(to), i);
    StepKeepsSound(s, Tick(to));
  }

  lemma CloseRunning(s: State, i: nat) returns (events: seq<Event>)
    requires Sound(s) && i < |s.rows| && s.rows[i].status == Rechecking && s.rows[i].pair in s.running
    ensures var s2 := Run(s, events); Sound(s2) && OnlyRow(s, s2, i) && s2.rows[i].status == Completed
  {
    FinishRow(s, i);
    events := [Finish(s.rows[i].pair, false)];
    assert events[1..] == [];
  }

  lemma CloseQueued(s: State, i: nat) returns (events: seq<Event>)
    requires Sound(s) && i < |s.rows| && s.rows[i].status == Rechecking && s.rows[i].pair in s.queued
    ensures var s2 := Run(s, events); Sound(s2) && OnlyRow(s, s2, i) && s2.rows[i].status == Completed
  {
    ReceiveRow(s, i);
    var e := Receive(s.rows[i].pair);
    var rest := CloseRunning(Step(s, e), i);
    OnlyRowTwice(s, Step(s, e), Run(Step(s, e), rest), i);
    events := [e] + rest;
    assert events[1..] == rest;
  }

  lemma CloseClaimed(s: State, i: nat) returns (events: seq<Event>)
    requires Sound(s) && i < |s.rows| && s.rows[i].status == Rechecking && s.rows[i].pair in s.claimed
    ensures var s2 := Run(s, events); Sound(s2) && OnlyRow(s, s2, i) && s2.rows[i].status == Completed
  {
    HandOverRow(s, i);
    var e := HandOver(s.rows[i].pair);
    var rest := CloseQueued(Step(s, e), i);
    OnlyRowTwice(s, Step(s, e), Run(Step(s, e), rest), i);
    events := [e] + rest;
    assert events[1..] == rest;
  }

  lemma CloseDue(s: State, i: nat) returns (events: seq<Event>)
    requires Sound(s) && i < |s.rows| && s.rows[i].status == Pending && s.rows[i].recheckAt <= s.now
    ensures var s2 := Run(s, events); Sound(s2) && OnlyRow(s, s2, i) && s2.rows[i].status == Completed
  {
    ClaimRow(s, i);
    var e := Claim(s.rows[i].pair);
    var rest := CloseClaimed(Step(s, e), i);
    OnlyRowTwice(s, Step(s, e), Run(Step(s, e), rest), i);
    events := [e] + rest;
    assert events[1..] == rest;
  }

  lemma ClosePending(s: State, i: nat) returns (events: seq<Event>)
    requires Sound(s) && i < |s.rows| && s.rows[i].status == Pending
    ensures var s2 := Run(s, events); Sound(s2) && OnlyRow(s, s2, i) && s2.rows[i].status == Completed
  {
    var to := if s.rows[i].recheckAt > s.now then s.rows[i].recheckAt else s.now;
    TickRow(s, to, i);
    var e := Tick(to);
    var rest := CloseDue(Step(s, e), i);
    OnlyRowTwice(s, Step(s, e), Run(Step(s, e), rest), i);
    events := [e] + rest;
    assert events[1..] == rest;
  }

  /** Every row that is not lost can be brought to its end without touching any other. */
  lemma CloseRow(s: State, i: nat) returns (events: seq<Event>)
    requires Sound(s) && i < |s.rows|
    requires s.rows[i].status == Rechecking ==> s.rows[i].pair in InFlight(s)
    ensures var s2 := Run(s, events); Sound(s2) && OnlyRow(s, s2, i) && s2.rows[i].status == Completed
  {
    var p := s.rows[i].pair;
    if s.rows[i].status == Completed { events := []; }
    else if s.rows[i].status == Pending { events := ClosePending(s, i); }
    else if p in s.claimed { events := CloseClaimed(s, i); }
    else if p in s.queued { events := CloseQueued(s, i); }
    else { events := CloseRunning(s, i); }
  }

  lemma NoneLostAfter(s: State, s2: State, sub: nat, i: nat)
    requires UniquePairs(s.rows) && i < |s.rows| && NoneLost(s, sub) && OnlyRow(s, s2, i) && s2.rows[i].status == Completed
    ensures NoneLost(s2, sub)
  {
    forall j | 0 <= j < |s2.rows| && s2.rows[j].pair.sub == sub && s2.rows[j].status == Rechecking
      ensures s2.rows[j].pair in InFlight(s2)
    {
      assert s2.rows[j] == s.rows[j] && s.rows[j].pair != s.rows[i].pair;
    }
  }

  /** The first n rows are done with, as far as they are the subdomain's. */
  predicate DoneUpTo(s: State, sub: nat, n: nat)
    requires n <= |s.rows|
  {
    forall i :: 0 <= i < n && s.rows[i].pair.sub == sub ==> s.rows[i].status == Completed
  }

  lemma {:induction false} CloseFrom(s: State, sub: nat, n: nat) returns (events: seq<Event>)
    requires Sound(s) && NoneLost(s, sub) && n <= |s.rows| && DoneUpTo(s, sub, n)
    ensures Scheduled(Run(s, events).rows, sub)
    decreases |s.rows| - n
  {
    if n == |s.rows| {
      events := [];
    } else if s.rows[n].pair.sub != sub {
      events := CloseFrom(s, sub, n + 1);
    } else {
      var first := CloseRow(s, n);
      var s2 := Run(s, first);
      NoneLostAfter(s, s2, sub, n);
      var rest := CloseFrom(s2, sub, n + 1);
      RunConcat(s, first, rest);
      events := first + rest;
    }
  }

  predicate ScheduledAfter(s: State, events: seq<Event>, sub: nat) { Scheduled(Run(s, events).rows, sub) }

  /** A subdomain can be scheduled for a scan again, by some continuation of the run, if and only if none of its
      rechecking rows has lost its task. */
  lemma ScheduledAgainIff(s: State, sub: nat)
    requires Sound(s)
    ensures (exists events :: ScheduledAfter(s, events, sub)) <==> NoneLost(s, sub)
  {
    if NoneLost(s, sub) {
      var events := CloseFrom(s, sub, 0);
      assert ScheduledAfter(s, events, sub);
    } else {
      var i :| 0 <= i < |s.rows| && s.rows[i].pair.sub == sub && s.rows[i].status == Rechecking && s.rows[i].pair !in InFlight(s);
      forall events ensures !ScheduledAfter(s, events, sub) {
        LostRecheckEndsScheduling(s, events, i);
      }
    }
  }

  lemma RunOfFour(s0: State, s1: State, s2: State, s3: State, s4: State, events: seq<Event>)
    requires |events| == 4 && Step(s0, events[0]) == s1 && Step(s1, events[1]) == s2
    requires Step(s2, events[2]) == s3 && Step(s3, events[3]) == s4
    ensures Run(s0, events) == s4
  {
    RunConcat(s0, events[..2], events[2..]);
    assert events == events[..2] + events[2..] && events[..2] == [events[0], events[1]] && events[2..] == [events[2], events[3]];
    RunOfTwo(s0, events[0], events[1]);
    RunOfTwo(s2, events[2], events[3]);
  }

  lemma RunOfTwo(s: State, e0: Event, e1: Event)
    ensures Run(s, [e0, e1]) == Step(Step(s, e0), e1)
  {
    var s1 := Step(s, e0);
    assert [e0, e1][1..] == [e1] && [e1][1..] == [];
    assert Run(Step(s1, e1), []) == Step(s1, e1);
    assert Run(s1, [e1]) == Step(s1, e1);
  }

  lemma StartsSound(now: int)
    ensures Sound(Initial(now))
  {
  }

  function Waiting(p: Pair, due: int): State { State([Row(p, due, Pending)], multiset{}, multiset{}, multiset{}, due, []) }

  function Taken(p: Pair, due: int): State { State([Row(p, due, Rechecking)], multiset{p}, multiset{}, multiset{}, due, []) }

  lemma HitInserts(now: int, p: Pair, minutes: nat)
    ensures Step(Initial(now), OrdinaryHit(p, true, minutes, false, false)) == Waiting(p, now + 60 * minutes).(now := now)
  {
  }

  lemma TimePasses(now: int, p: Pair, due: int)
    requires now <= due
    ensures Step(Waiting(p, due).(now := now), Tick(due)) == Waiting(p, due)
  {
  }

  lemma ClaimWaiting(p: Pair, due: int)
    ensures Step(Waiting(p, due), Claim(p)) == Taken(p, due)
  {
    var s := Waiting(p, due);
    assert s.rows[0].pair == p && Due(s.rows, p, due);
    assert Move(s.rows, p, Pending, Rechecking) == [Row(p, due, Rechecking)];
  }

  lemma LoseTaken(p: Pair, due: int)
    ensures var s := Step(Taken(p, due), Lost(p)); s.rows == [Row(p, due, Rechecking)] && !NoneLost(s, p.sub)
  {
    var s := Step(Taken(p, due), Lost(p));
    assert s.rows[0].pair == p && p !in InFlight(s);
  }

  function LossRun(now: int, p: Pair, minutes: nat): seq<Event> {
    [OrdinaryHit(p, true, minutes, false, false), Tick(now + 60 * minutes), Claim(p), Lost(p)]
  }

  lemma LossRunEnds(now: int, p: Pair, minutes: nat)
    ensures Run(Initial(now), LossRun(now, p, minutes)) == Step(Taken(p, now + 60 * minutes), Lost(p))
  {
    var due := now + 60 * minutes;
    HitInserts(now, p, minutes);
    TimePasses(now, p, due);
    ClaimWaiting(p, due);
    var taken := Taken(p, due);
    RunOfFour(Initial(now), Waiting(p, due).(now := now), Waiting(p, due), taken, Step(taken, Lost(p)), LossRun(now, p, minutes));
  }

  /** It happens: a hit, a claim after the grace period, and a worker that stops with the task in its hands. */
  lemma ATaskCanBeLost(now: int, p: Pair, minutes: nat)
    ensures var s := Run(Initial(now), LossRun(now, p, minutes));
      Sound(s) && s.rows == [Row(p, now + 60 * minutes, Rechecking)] && !NoneLost(s, p.sub)
  {
    StartsSound(now);
    EveryRunIsSound(Initial(now), LossRun(now, p, minutes));
    LossRunEnds(now, p, minutes);
    LoseTaken(p, now + 60 * minutes);
  }

  // ---------- a rule enforced without its own grace period ----------

  function OtherRuleRun(now: int, p: Pair, minutes: nat, rule: nat): seq<Event> {
    [OrdinaryHit(p, true, minutes, false, false), Tick(now + 60 * minutes), Claim(p), HandOver(p)]
    + [Receive(p), RecheckHit(p, rule, true)]
  }

  function Scanned(p: Pair, due: int, rule: nat): State {
    State([Row(p, due, Rechecking)], multiset{}, multiset{}, multiset{p}, due, [Hit(Pair(p.sub, rule), true, Some(p), due)])
  }

  lemma TakenIsScanned(p: Pair, due: int, rule: nat)
    ensures var queued := Step(Taken(p, due), HandOver(p));
      Step(Step(queued, Receive(p)), RecheckHit(p, rule, true)) == Scanned(p, due, rule)
  {
    var queued := Step(Taken(p, due), HandOver(p));
    assert multiset{p} - multiset{p} == multiset{} && multiset{} + multiset{p} == multiset{p};
    assert queued == State([Row(p, due, Rechecking)], multiset{}, multiset{p}, multiset{}, due, []);
    assert Step(queued, Receive(p)) == State([Row(p, due, Rechecking)], multiset{}, multiset{}, multiset{p}, due, []);
  }

  lemma OtherRuleRunEnds(now: int, p: Pair, minutes: nat, rule: nat)
    ensures Run(Initial(now), OtherRuleRun(now, p, minutes, rule)) == Scanned(p, now + 60 * minutes, rule)
  {
    var due := now + 60 * minutes;
    var taken := Taken(p, due);
    var queued := Step(taken, HandOver(p));
    var four := OtherRuleRun(now, p, minutes, rule)[..4];
    HitInserts(now, p, minutes);
    TimePasses(now, p, due);
    ClaimWaiting(p, due);
    RunOfFour(Initial(now), Waiting(p, due).(now := now), Waiting(p, due), taken, queued, four);
    RunConcat(Initial(now), four, [Receive(p), RecheckHit(p, rule, true)]);
    RunOfTwo(queued, Receive(p), RecheckHit(p, rule, true));
    TakenIsScanned(p, due, rule);
  }

  /** The grace period is the task's. From the empty table, without a fault: the recheck of one rule enforces another
      exempt-enabled rule, of which there has never been a row. */
  lemma OtherRuleWithoutGrace(now: int, p: Pair, minutes: nat, rule: nat)
    requires rule != p.rule
    ensures var s := Run(Initial(now), OtherRuleRun(now, p, minutes, rule));
      s.enforced == [Hit(Pair(p.sub, rule), true, Some(p), now + 60 * minutes)] && !HasRow(s.rows, Pair(p.sub, rule))
    ensures forall i :: 0 <= i < 6 ==> Faultless(OtherRuleRun(now, p, minutes, rule)[i])
  {
    OtherRuleRunEnds(now, p, minutes, rule);
  }
}
