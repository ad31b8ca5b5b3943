/** The per-model token bucket of the AI client (server/internal/service/ai_llm_service.go). Times are nanoseconds. */
module RateLimiting {

  const MINUTE := 60_000_000_000

  datatype Bucket = Bucket(maxRPM: int, tokens: int, lastFill: int)

  /** int(elapsed.Minutes()): towards zero, also for a clock that steps back. */
  function WholeMinutes(elapsed: int): int {
    if elapsed >= 0 then elapsed / MINUTE else -(-elapsed / MINUTE)
  }

  const MAX_INT64 := 0x7FFF_FFFF_FFFF_FFFF

  /** The value of a 64-bit integer after an overflow. */
  function Wrap64(n: int): (r: int)
    ensures -MAX_INT64 - 1 <= r <= MAX_INT64
    ensures -MAX_INT64 - 1 <= n <= MAX_INT64 ==> r == n
  {
    (n + MAX_INT64 + 1) % 0x1_0000_0000_0000_0000 - MAX_INT64 - 1
  }

  function Refill(b: Bucket, now: int): Bucket {
    var toAdd := Wrap64(WholeMinutes(now - b.lastFill) * b.maxRPM);
    if toAdd > 0
    then
      var sum := Wrap64(b.tokens + toAdd);
      Bucket(b.maxRPM, if sum > b.maxRPM then b.maxRPM else sum, now)
    else b
  }

  function Acquire(b: Bucket, now: int): (Bucket, bool) {
    var f := Refill(b, now);
    if f.tokens <= 0 then (f, false) else (f.(tokens := f.tokens - 1), true)
  }

  /** The limiters of a service, one per model configuration; a limit of zero or less means no limiter. */
  function AcquireFrom(table: map<nat, Bucket>, id: nat, maxRPM: int, now: int): (map<nat, Bucket>, bool) {
    if maxRPM <= 0 then (table, true)
    else
      var (b, ok) := Acquire(if id in table then table[id] else Bucket(maxRPM, maxRPM, now), now);
      (table[id := b], ok)
  }

  /** A limit of zero or less lets everything through and leaves no trace. Otherwise a new configuration starts with a
      full bucket, of which one token is taken, a known one goes on with its own, and no other bucket changes. */
  lemma LimitersAreApart(table: map<nat, Bucket>, id: nat, maxRPM: int, now: int)
    ensures var (t, ok) := AcquireFrom(table, id, maxRPM, now);
      && (maxRPM <= 0 ==> t == table && ok)
      && (maxRPM > 0 && id !in table ==> t == table[id := Bucket(maxRPM, maxRPM - 1, now)] && ok)
      && (maxRPM > 0 && id in table ==> (t, ok) == (table[id := Acquire(table[id], now).0], Acquire(table[id], now).1))
      && (forall other :: other in table && other != id ==> other in t && t[other] == table[other])
  {
    assert Wrap64(0 * maxRPM) == 0;
  }

  /** Whether a call passes: exactly if there is a token after the refill, which is then taken. */
  lemma PassesIff(b: Bucket, now: int)
    ensures var (after, ok) := Acquire(b, now);
      && (ok <==> Refill(b, now).tokens > 0)
      && after == (if ok then Refill(b, now).(tokens := Refill(b, now).tokens - 1) else Refill(b, now))
  {
  }

  class RateLimiter {
    var maxRPM: int
    var tokens: int
    var lastFill: int

    constructor (maxRPM: int, now: int)
      ensures View() == Bucket(maxRPM, maxRPM, now)
    {
      this.maxRPM, tokens, lastFill := maxRPM, maxRPM, now;
    }

    function View(): Bucket
      reads this
    {
      Bucket(maxRPM, tokens, lastFill)
    }

    /** The part of tryAcquire that runs under the limiter's lock. */
    method Take(now: int) returns (ok: bool)
      modifies this
      ensures (View(), ok) == Acquire(old(View()), now)
    {
      var tokensToAdd := Wrap64(WholeMinutes(now - lastFill) * maxRPM);
      if tokensToAdd > 0 {
        tokens := Wrap64(tokens + tokensToAdd);
        if tokens > maxRPM { tokens := maxRPM; }
        lastFill := now;
      }
      ok := tokens > 0;
      if ok { tokens := tokens - 1; }
    }
  }

  class AILLMService {
    var rateLimiters: map<nat, RateLimiter>

    /** Every configuration has a limiter of its own. */
    ghost predicate Valid()
      reads this
    {
      forall a, b :: a in rateLimiters && b in rateLimiters && rateLimiters[a] == rateLimiters[b] ==> a == b
    }

    ghost function View(): map<nat, Bucket>
      reads this, rateLimiters.Values
    {
      map id | id in rateLimiters :: rateLimiters[id].View()
    }

    constructor ()
      ensures Valid() && View() == map[]
    {
      rateLimiters := map[];
    }

    method TryAcquire(id: nat, maxRPM: int, now: int) returns (ok: bool)
      requires Valid()
      modifies this, rateLimiters.Values
      ensures Valid() && fresh(rateLimiters.Values - old(rateLimiters.Values))
      ensures (View(), ok) == AcquireFrom(old(View()), id, maxRPM, now)
    {
      if maxRPM <= 0 { return true; }
      if id !in rateLimiters {
        var created := new RateLimiter(maxRPM, now);
        rateLimiters := rateLimiters[id := created];
      }
      var rl := rateLimiters[id];
      ok := rl.Take(now);
      assert View() == old(View())[id := rl.View()];
    }
  }

  // ---------- runs ----------

  /** Tokens can be negative, after an overflow. */
  predicate ValidBucket(b: Bucket) { b.maxRPM > 0 && b.tokens <= b.maxRPM }

  /** The limit times the minutes until then, and once more, is a 64-bit integer. */
  predicate Fits(b: Bucket, minutes: int) { (minutes + 1) * b.maxRPM <= MAX_INT64 }

  predicate NonDecreasing(times: seq<int>) { forall i, j :: 0 <= i < j < |times| ==> times[i] <= times[j] }

  datatype RunState = RunState(bucket: Bucket, admitted: nat, refills: nat)

  function Call(s: RunState, now: int): RunState {
    var (after, ok) := Acquire(s.bucket, now);
    RunState(after, s.admitted + (if ok then 1 else 0), s.refills + (if Refill(s.bucket, now) != s.bucket then 1 else 0))
  }

  /** One limiter called at the given times, with what it let through and how often it was refilled. */
  function Run(b: Bucket, times: seq<int>): RunState {
    if times == [] then RunState(b, 0, 0) else Call(Run(b, times[..|times| - 1]), times[|times| - 1])
  }

  /** Whatever overflows, a refill leaves no more than the limit and comes a whole minute after the one before. */
  lemma RefillKeepsLimit(b: Bucket, now: int)
    requires ValidBucket(b) && b.lastFill <= now
    ensures var f := Refill(b, now);
            && ValidBucket(f) && f.maxRPM == b.maxRPM
            && (f != b ==> f.lastFill == now && now - b.lastFill >= MINUTE)
  {
    if WholeMinutes(now - b.lastFill) == 0 { assert Wrap64(0 * b.maxRPM) == 0; }
  }

  /** While nothing overflows it fills the bucket completely, as soon as a minute has passed. */
  lemma RefillFillsCompletely(b: Bucket, now: int)
    requires ValidBucket(b) && 0 <= b.tokens && b.lastFill <= now
    requires now - b.lastFill >= MINUTE ==> b.tokens + WholeMinutes(now - b.lastFill) * b.maxRPM <= MAX_INT64
    ensures Refill(b, now) == if now - b.lastFill >= MINUTE then Bucket(b.maxRPM, b.maxRPM, now) else b
  {
    var m := WholeMinutes(now - b.lastFill);
    if m >= 1 { TimesAtLeast(m, b.maxRPM); } else { assert Wrap64(0 * b.maxRPM) == 0; }
  }

  /** A huge limit of which two minutes' worth overflows is not refilled after two minutes. */
  lemma OverflowStopsRefills(tokens: int)
    ensures var b := Bucket(0x4000_0000_0000_0000, tokens, 0); Refill(b, 2 * MINUTE) == b && !Fits(b, 2)
  {
  }

  /** What r refills can add. */
  function Supply(r: nat, maxRPM: int): int { if r == 0 then 0 else Supply(r - 1, maxRPM) + maxRPM }

  lemma {:induction false} SupplyIsProduct(r: nat, maxRPM: int)
    ensures Supply(r, maxRPM) == r * maxRPM
  {
    if r > 0 { SupplyIsProduct(r - 1, maxRPM); }
  }

  lemma {:induction false} SupplyGrows(r: nat, s: nat, maxRPM: int)
    requires r <= s && maxRPM > 0
    ensures Supply(r, maxRPM) <= Supply(s, maxRPM)
  {
    if r < s { SupplyGrows(r, s - 1, maxRPM); }
  }

  lemma TimesAtLeast(m: int, x: int)
    requires m >= 1 && x > 0
    ensures m * x >= x
  {
  }

  lemma TimesGrows(m: int, n: int, x: int)
    requires m <= n && x > 0
    ensures m * x <= n * x
  {
  }

  lemma OneMoreTimes(m: int, x: int)
    ensures (m + 1) * x == m * x + x
  {
  }

  lemma FitsEarlier(b: Bucket, minutes: int, more: int)
    requires b.maxRPM > 0 && minutes <= more && Fits(b, more)
    ensures Fits(b, minutes)
  {
    TimesGrows(minutes + 1, more + 1, b.maxRPM);
  }

  /** In every run the tokens never exceed the limit. */
  lemma {:induction false} RunKeepsLimit(b: Bucket, times: seq<int>)
    requires ValidBucket(b) && NonDecreasing(times) && (times != [] ==> b.lastFill <= times[0])
    ensures var s := Run(b, times).bucket;
            ValidBucket(s) && s.maxRPM == b.maxRPM && b.lastFill <= s.lastFill
            && (if times == [] then s == b else s.lastFill <= times[|times| - 1])
  {
    if times != [] {
      var init := times[..|times| - 1];
      RunKeepsLimit(b, init);
      RefillKeepsLimit(Run(b, init).bucket, times[|times| - 1]);
    }
  }

  /** And while nothing overflows they never fall below zero, and every call after a whole minute finds a full bucket. */
  lemma {:induction false} RunKeepsBounds(b: Bucket, times: seq<int>)
    requires ValidBucket(b) && 0 <= b.tokens && NonDecreasing(times) && (times != [] ==> b.lastFill <= times[0])
    requires times != [] ==> Fits(b, WholeMinutes(times[|times| - 1] - b.lastFill))
    ensures 0 <= Run(b, times).bucket.tokens
    ensures times != [] ==>
              var s := Run(b, times[..|times| - 1]).bucket; var now := times[|times| - 1];
              Refill(s, now) == if now - s.lastFill >= MINUTE then Bucket(b.maxRPM, b.maxRPM, now) else s
  {
    if times != [] {
      var init, now := times[..|times| - 1], times[|times| - 1];
      var s := Run(b, init).bucket;
      RunKeepsLimit(b, init);
      if init != [] { FitsEarlier(b, WholeMinutes(init[|init| - 1] - b.lastFill), WholeMinutes(now - b.lastFill)); }
      RunKeepsBounds(b, init);
      var m := WholeMinutes(now - s.lastFill);
      FitsEarlier(b, m, WholeMinutes(now - b.lastFill));
      OneMoreTimes(m, b.maxRPM);
      RefillFillsCompletely(s, now);
    }
  }

  function Usable(tokens: int): nat { if tokens > 0 then tokens else 0 }

  /** What was let through between s and e is paid for by the tokens of s and by the refills since, and all
      refills after the first one, which came no earlier than t, are a minute apart. */
  ghost predicate Paid(s: RunState, e: RunState, t: int) {
    var r := e.refills - s.refills;
    && r >= 0
    && e.admitted - s.admitted + Usable(e.bucket.tokens) <= Usable(s.bucket.tokens) + Supply(r, s.bucket.maxRPM)
    && (r == 0 || (r - 1) * MINUTE <= e.bucket.lastFill - t)
  }

  lemma CallIsPaidFor(s: RunState, p: RunState, now: int, t: int)
    requires ValidBucket(s.bucket) && ValidBucket(p.bucket) && s.bucket.maxRPM == p.bucket.maxRPM
    requires Paid(s, p, t) && t <= now && p.bucket.lastFill <= now
    ensures Paid(s, Call(p, now), t)
  {
    RefillKeepsLimit(p.bucket, now);
  }

  lemma {:induction false} WindowIsPaidFor(b: Bucket, times: seq<int>, i: nat, j: nat)
    requires ValidBucket(b) && NonDecreasing(times) && i < j <= |times| && b.lastFill <= times[0]
    ensures Paid(Run(b, times[..i]), Run(b, times[..j]), times[i])
    decreases j
  {
    LimitAfter(b, times, i);
    LimitAfter(b, times, j - 1);
    var s, p := Run(b, times[..i]), Run(b, times[..j - 1]);
    assert times[..j][..j - 1] == times[..j - 1] && Run(b, times[..j]) == Call(p, times[j - 1]);
    if i < j - 1 { WindowIsPaidFor(b, times, i, j - 1); } else { assert Paid(s, p, times[i]); }
    CallIsPaidFor(s, p, times[j - 1], times[i]);
  }

  lemma MinutesWithin(r: int, w: nat)
    requires (r - 1) * MINUTE <= w
    ensures r <= w / MINUTE + 1
  {
  }

  lemma PaidBound(s: RunState, e: RunState, t: int, w: nat)
    requires ValidBucket(s.bucket) && ValidBucket(e.bucket) && s.bucket.maxRPM == e.bucket.maxRPM
    requires Paid(s, e, t) && e.bucket.lastFill <= t + w
    ensures e.admitted - s.admitted <= (w / MINUTE + 2) * s.bucket.maxRPM
  {
    var r := e.refills - s.refills;
    if r > 0 { MinutesWithin(r, w); }
    SupplyGrows(r + 1, w / MINUTE + 2, s.bucket.maxRPM);
    SupplyIsProduct(w / MINUTE + 2, s.bucket.maxRPM);
  }

  lemma LimitAfter(b: Bucket, times: seq<int>, j: nat)
    requires ValidBucket(b) && NonDecreasing(times) && j <= |times| && (times != [] ==> b.lastFill <= times[0])
    ensures var s := Run(b, times[..j]).bucket;
            ValidBucket(s) && s.maxRPM == b.maxRPM && (j > 0 ==> s.lastFill <= times[j - 1])
  {
    RunKeepsLimit(b, times[..j]);
  }

  /** Whatever overflows, any calls within W nanoseconds get at most (floor(W / minute) + 2) times the limit through. */
  lemma WindowBound(b: Bucket, times: seq<int>, i: nat, j: nat, w: nat)
    requires ValidBucket(b) && NonDecreasing(times) && i < j <= |times| && b.lastFill <= times[0]
    requires times[j - 1] - times[i] <= w
    ensures Run(b, times[..j]).admitted - Run(b, times[..i]).admitted <= (w / MINUTE + 2) * b.maxRPM
  {
    WindowIsPaidFor(b, times, i, j);
    LimitAfter(b, times, i);
    LimitAfter(b, times, j);
    PaidBound(Run(b, times[..i]), Run(b, times[..j]), times[i], w);
  }

  lemma TokenSpent(s: RunState, at: int)
    requires ValidBucket(s.bucket) && s.bucket.lastFill <= at < s.bucket.lastFill + MINUTE && s.bucket.tokens > 0
    ensures Call(s, at) == RunState(s.bucket.(tokens := s.bucket.tokens - 1), s.admitted + 1, s.refills)
  {
    RefillFillsCompletely(s.bucket, at);
  }

  lemma {:induction false} BurstAfter(b: Bucket, before: seq<int>, at: int, n: nat)
    requires var s := Run(b, before).bucket;
             ValidBucket(s) && s.lastFill <= at < s.lastFill + MINUTE && n <= s.tokens
    ensures var s := Run(b, before);
            Run(b, before + seq(n, _ => at))
            == RunState(s.bucket.(tokens := s.bucket.tokens - n), s.admitted + n, s.refills)
  {
    var times := before + seq(n, _ => at);
    if n == 0 {
      assert times == before;
    } else {
      BurstAfter(b, before, at, n - 1);
      assert times[..|times| - 1] == before + seq(n - 1, _ => at);
      TokenSpent(Run(b, times[..|times| - 1]), at);
    }
  }

  lemma EmptyThenRefill(n: nat)
    requires n + 1 <= MAX_INT64
    ensures Run(Bucket(n + 1, n + 1, 0), seq(n + 1, _ => MINUTE - 1) + [MINUTE])
         == RunState(Bucket(n + 1, n, MINUTE), n + 2, 1)
  {
    var b, first := Bucket(n + 1, n + 1, 0), seq(n + 1, _ => MINUTE - 1);
    BurstAfter(b, [], MINUTE - 1, n + 1);
    assert [] + first == first;
    assert (first + [MINUTE])[..n + 1] == first;
    RefillFillsCompletely(Run(b, first).bucket, MINUTE);
  }

  /** The bound is reached, so it cannot be lowered: within one nanosecond, so with floor(W / minute) == 0,
      a full bucket is emptied just before the minute and again right after it. */
  lemma WindowBoundIsReached(n: nat)
    requires n + 1 <= MAX_INT64
    ensures var times := seq(n + 1, _ => MINUTE - 1) + [MINUTE] + seq(n, _ => MINUTE);
            && NonDecreasing(times) && times[|times| - 1] - times[0] <= 1
            && Run(Bucket(n + 1, n + 1, 0), times).admitted == 2 * (n + 1)
  {
    EmptyThenRefill(n);
    BurstAfter(Bucket(n + 1, n + 1, 0), seq(n + 1, _ => MINUTE - 1) + [MINUTE], MINUTE, n);
  }
}
