/** The shortcut of a scan whose content is unchanged since the last clean one (server/internal/service/audit_service.go:69-149):
    when it skips rule matching, and when that is right. Each scan is one step. */
module CleanHash {
  import opened Wrappers
  import opened Fetching
  import opened RuleEngine

  /** The fetcher, the library functions of matching, and the root domain of each subdomain. */
  datatype Context = Context(fetcher: Fetcher, lib: Library, domainOf: nat -> nat)

  datatype StoredRule = StoredRule(rule: Rule, updatedAt: int)

  datatype ScanStatus = Clean | Violation | SiteDown | Error

  datatype Scan = Scan(sub: nat, status: ScanStatus, hash: Hash, createdAt: int)

  datatype State = State(rules: map<nat, StoredRule>, scans: seq<Scan>)

  datatype Event =
    | SaveRule(id: nat, rule: Rule, at: int)
    | DeleteRule(id: nat, at: int)
      /** `first` and `second` are what the two tries return; `loadFails`: the rules cannot be read; `lookupFails`: the
          last clean scan or the rules' times cannot be read; `insertFails`: the scan cannot be stored. */
    | ScanPage(sub: nat, first: Dual, second: Dual, loadFails: bool, lookupFails: bool, insertFails: bool, at: int)

  function StatusFromProbe(p: Probe): ScanStatus {
    if HasPrivateIP(p.primary) then Error
    else if ConfirmedUnreachable(p) then SiteDown
    else if p.primary.https.fetch.truncated || p.primary.http.fetch.truncated then Error
    else Clean
  }

  function LatestClean(scans: seq<Scan>, sub: nat): Option<Scan> {
    if scans == [] then None
    else
      var last := scans[|scans| - 1];
      if last.sub == sub && last.status == Clean then Some(last) else LatestClean(scans[..|scans| - 1], sub)
  }

  predicate UpdatedSince(rules: map<nat, StoredRule>, t: int) {
    exists id :: id in rules && rules[id].rule.enabled && rules[id].updatedAt > t
  }

  /** Matching an enabled rule does not simply miss: the rule hits, or the matching panics. */
  predicate Touches(cx: Context, r: Rule, sub: nat, p: Probe) {
    r.enabled && (OnProbe(cx.lib, r, cx.domainOf(sub), p) != [] || Panics(cx.lib, r, cx.domainOf(sub), p))
  }

  predicate AnyTouches(cx: Context, rules: map<nat, StoredRule>, sub: nat, p: Probe) {
    exists id :: id in rules && Touches(cx, rules[id].rule, sub, p)
  }

  /** The shortcut: the last clean scan has this hash, and no enabled rule was updated since. */
  predicate Shortcut(s: State, sub: nat, hash: Hash) {
    var prev := LatestClean(s.scans, sub);
    prev.Some? && prev.value.hash == hash && !UpdatedSince(s.rules, prev.value.createdAt)
  }

  function ProbeOf(e: Event): Probe
    requires e.ScanPage?
  {
    Confirm(e.first, e.second)
  }

  predicate Skips(s: State, e: Event)
    requires e.ScanPage?
  {
    !e.lookupFails && Shortcut(s, e.sub, CombinedContentHash(ProbeOf(e).primary))
  }

  /** The rules are matched. */
  predicate MatchingRuns(s: State, e: Event)
    requires e.ScanPage?
  {
    !ProbeOf(e).skipRuleMatch && !Skips(s, e) && !HasPrivateIP(ProbeOf(e).primary) && !e.loadFails
  }

  /** And the matching panics, which ends the scan. */
  predicate Breaks(cx: Context, s: State, e: Event)
    requires e.ScanPage?
  {
    MatchingRuns(s, e) && exists id :: id in s.rules && s.rules[id].rule.enabled
                                  && Panics(cx.lib, s.rules[id].rule, cx.domainOf(e.sub), ProbeOf(e))
  }

  predicate Matched(cx: Context, s: State, e: Event)
    requires e.ScanPage?
  {
    MatchingRuns(s, e) && !Breaks(cx, s, e) && AnyTouches(cx, s.rules, e.sub, ProbeOf(e))
  }

  function Recorded(cx: Context, s: State, e: Event): Scan
    requires e.ScanPage?
  {
    var p := ProbeOf(e);
    Scan(e.sub, if Matched(cx, s, e) then Violation else StatusFromProbe(p), CombinedContentHash(p.primary), e.at)
  }

  function Step(cx: Context, s: State, e: Event): State {
    match e
    case SaveRule(id, rule, at) => s.(rules := s.rules[id := StoredRule(rule, at)])
    case DeleteRule(id, _) => s.(rules := s.rules - {id})
    case ScanPage(_, _, _, _, _, insertFails, _) =>
      if insertFails || Breaks(cx, s, e) then s else s.(scans := s.scans + [Recorded(cx, s, e)])
  }

  function Run(cx: Context, s: State, events: seq<Event>): State
    decreases |events|
  {
    if events == [] then s else Run(cx, Step(cx, s, events[0]), events[1..])
  }

  class ScanHistory {
    var rules: map<nat, StoredRule>
    var scans: seq<Scan>
    const cx: Context

    constructor (cx: Context)
      ensures View() == Start() && this.cx == cx
    {
      rules, scans := map[], [];
      this.cx := cx;
    }

    function View(): State
      reads this
    {
      State(rules, scans)
    }

    /** ScanSubdomain up to the decision to enforce. `ready` is whether the subdomain was found, is active and has a
        record that can be scanned; if not, nothing happens. A hit is enforced if its scan could be stored. A panic
        leaves the method without a trace. */
    method ScanSubdomain(ready: bool, sub: nat, first: Dual, second: Dual,
                         loadFails: bool, lookupFails: bool, insertFails: bool, now: int)
      returns (enforce: bool)
      modifies this`scans
      ensures var e := ScanPage(sub, first, second, loadFails, lookupFails, insertFails, now);
        && View() == (if ready then Step(cx, old(View()), e) else old(View()))
        && (enforce <==> ready && !insertFails && Matched(cx, old(View()), e))
    {
      if !ready { return false; }
      var probe := Confirm(first, second);
      var hash := CombinedContentHash(probe.primary);
      var status := StatusFromProbe(probe);
      var skipRuleMatch := probe.skipRuleMatch;
      if !lookupFails {
        var prev := LatestClean(scans, sub);
        if prev.Some? && prev.value.hash == hash && !UpdatedSince(rules, prev.value.createdAt) { skipRuleMatch := true; }
      }
      enforce := false;
      if !skipRuleMatch && !HasPrivateIP(probe.primary) && !loadFails {
        if exists id :: id in rules && rules[id].rule.enabled && Panics(cx.lib, rules[id].rule, cx.domainOf(sub), probe) {
          return false;
        }
        enforce := AnyTouches(cx, rules, sub, probe);
      }
      if enforce { status := Violation; }
      if insertFails { return false; }
      scans := scans + [Scan(sub, status, hash, now)];
    }
  }

  /** What the step asks of the rules is what the engine computes from the list of enabled rules. */
  lemma AnyTouchesIffMatched(cx: Context, rules: map<nat, StoredRule>, listed: seq<Rule>, sub: nat, p: Probe)
    requires forall r :: r in listed <==> exists id :: id in rules && rules[id].rule == r && r.enabled
    requires !p.skipRuleMatch
    ensures AnyTouches(cx, rules, sub, p) <==>
      (AnyPanics(cx.lib, listed, cx.domainOf(sub), p) || Matches(cx.lib, listed, cx.domainOf(sub), p) != [])
    ensures AnyPanics(cx.lib, listed, cx.domainOf(sub), p) <==>
      exists id :: id in rules && rules[id].rule.enabled && Panics(cx.lib, rules[id].rule, cx.domainOf(sub), p)
  {
    var domain := cx.domainOf(sub);
    var ms := Matches(cx.lib, listed, domain, p);
    if ms != [] {
      MatchesIff(cx.lib, listed, domain, p, ms[0]);
      assert ms[0] in ms && ms[0].rule in listed;
      var id :| id in rules && rules[id].rule == ms[0].rule && ms[0].rule.enabled;
      assert Touches(cx, rules[id].rule, sub, p);
    }
    if id :| id in rules && Touches(cx, rules[id].rule, sub, p) && OnProbe(cx.lib, rules[id].rule, domain, p) != [] {
      var r := rules[id].rule;
      var m := OnProbe(cx.lib, r, domain, p)[0];
      assert r in listed && m in OnProbe(cx.lib, r, domain, p);
      OnProbeIsOfRule(cx.lib, r, domain, p);
      MatchesIff(cx.lib, listed, domain, p, m);
    }
    if r :| r in listed && Panics(cx.lib, r, domain, p) {
      var id :| id in rules && rules[id].rule == r && r.enabled;
      assert Touches(cx, rules[id].rule, sub, p);
    }
  }

  lemma OnProbeIsOfRule(lib: Library, r: Rule, domain: nat, p: Probe)
    ensures forall m :: m in OnProbe(lib, r, domain, p) ==> m.rule == r
  {
  }

  // ---------- the invariant ----------

  /** A probe of pages that the fetcher can return, on which rules are matched. */
  predicate WellProbed(cx: Context, p: Probe) {
    && FetchedDual(cx.fetcher, p.first) && (p.second.Some? ==> FetchedDual(cx.fetcher, p.second.value))
    && p == Confirm(p.first, if p.second.Some? then p.second.value else p.first)
  }

  predicate Usable(cx: Context, p: Probe) { WellProbed(cx, p) && !p.skipRuleMatch }

  /** Rules hit by a page that a clean scan stands for. */
  ghost predicate TouchesSince(cx: Context, c: Scan, r: Rule) {
    exists p :: Usable(cx, p) && CombinedContentHash(p.primary) == c.hash && Touches(cx, r, c.sub, p)
  }

  /** Every enabled rule that hits what a scan once found clean was updated after that scan. */
  ghost predicate Sound(cx: Context, s: State) {
    forall c, id :: c in s.scans && c.status == Clean && id in s.rules && TouchesSince(cx, c, s.rules[id].rule)
      ==> s.rules[id].updatedAt > c.createdAt
  }

  /** All that has happened has happened before. */
  predicate Before(s: State, t: int) {
    && (forall id :: id in s.rules ==> s.rules[id].updatedAt < t)
    && (forall c :: c in s.scans ==> c.createdAt < t)
  }

  /** The hash decides a rule: if it hits a page, it hits every readable page with the same hash. */
  ghost predicate HashDecides(cx: Context, r: Rule) {
    forall sub, p, q ::
      && Usable(cx, p) && Usable(cx, q) && StatusFromProbe(p) == Clean
      && CombinedContentHash(p.primary) == CombinedContentHash(q.primary) && Touches(cx, r, sub, q)
      ==> Touches(cx, r, sub, p)
  }

  ghost predicate AllDecided(cx: Context, s: State) { forall id :: id in s.rules ==> HashDecides(cx, s.rules[id].rule) }

  lemma LatestCleanIsOne(scans: seq<Scan>, sub: nat)
    ensures var c := LatestClean(scans, sub);
      c.Some? ==> c.value in scans && c.value.sub == sub && c.value.status == Clean
  {
  }

  /** Scan i is a clean scan of the subdomain, after which there is none. */
  predicate IsLatestClean(scans: seq<Scan>, sub: nat, i: nat) {
    && i < |scans| && scans[i].sub == sub && scans[i].status == Clean
    && forall j :: i < j < |scans| ==> !(scans[j].sub == sub && scans[j].status == Clean)
  }

  /** The scan compared with is the last clean one of the subdomain, and there is one if there is any. */
  lemma {:induction false} LatestCleanIs(scans: seq<Scan>, sub: nat, i: nat)
    ensures IsLatestClean(scans, sub, i) ==> LatestClean(scans, sub) == Some(scans[i])
    ensures LatestClean(scans, sub).Some? <==> exists c :: c in scans && c.sub == sub && c.status == Clean
    decreases |scans|
  {
    if scans != [] {
      var init, last := scans[..|scans| - 1], scans[|scans| - 1];
      LatestCleanIs(init, sub, i);
      assert forall c :: c in scans <==> c == last || c in init;
      if IsLatestClean(scans, sub, i) && i < |init| {
        assert scans[i] == init[i] && IsLatestClean(init, sub, i);
      }
    }
  }

  lemma {:induction false} LatestCleanAt(scans: seq<Scan>, sub: nat) returns (i: nat)
    requires LatestClean(scans, sub).Some?
    ensures IsLatestClean(scans, sub, i) && LatestClean(scans, sub) == Some(scans[i])
    decreases |scans|
  {
    var last := scans[|scans| - 1];
    if last.sub == sub && last.status == Clean {
      i := |scans| - 1;
    } else {
      i := LatestCleanAt(scans[..|scans| - 1], sub);
    }
  }

  predicate Timed(scans: seq<Scan>) { forall i, j :: 0 <= i < j < |scans| ==> scans[i].createdAt < scans[j].createdAt }

  /** So, if scans are stored in the order of their times, it is the clean one with the greatest time. */
  lemma LatestCleanIsNewest(scans: seq<Scan>, sub: nat, c: Scan)
    requires Timed(scans) && c in scans && c.sub == sub && c.status == Clean
    ensures LatestClean(scans, sub).Some? && c.createdAt <= LatestClean(scans, sub).value.createdAt
  {
    LatestCleanIs(scans, sub, 0);
    var i := LatestCleanAt(scans, sub);
    var j :| 0 <= j < |scans| && scans[j] == c;
    assert j <= i;
  }

  /** A scan is skipped if and only if the last clean scan of the subdomain has this hash and no enabled rule was updated
      after it. */
  lemma ShortcutIff(s: State, sub: nat, hash: Hash)
    ensures Shortcut(s, sub, hash) <==>
      exists i: nat :: && IsLatestClean(s.scans, sub, i) && s.scans[i].hash == hash
                       && forall id :: id in s.rules && s.rules[id].rule.enabled ==> s.rules[id].updatedAt <= s.scans[i].createdAt
  {
    if Shortcut(s, sub, hash) {
      var i := LatestCleanAt(s.scans, sub);
      assert IsLatestClean(s.scans, sub, i) && s.scans[i].hash == hash;
    }
    if i: nat :| IsLatestClean(s.scans, sub, i) && s.scans[i].hash == hash
                 && forall id :: id in s.rules && s.rules[id].rule.enabled ==> s.rules[id].updatedAt <= s.scans[i].createdAt {
      LatestCleanIs(s.scans, sub, i);
    }
  }

  /** The status that is recorded. */
  lemma RecordedStatusIs(cx: Context, s: State, e: Event)
    requires e.ScanPage?
    ensures var (p, st) := (ProbeOf(e), Recorded(cx, s, e).status);
      var (a, b) := (p.primary.https.fetch, p.primary.http.fetch);
      && (st == Violation <==> Matched(cx, s, e))
      && (st == SiteDown <==> !Matched(cx, s, e) && !a.privateIP && !b.privateIP
                              && SiteUnreachable(e.first) && SiteUnreachable(e.second))
      && (st == Clean <==> !Matched(cx, s, e) && !a.privateIP && !b.privateIP && !a.truncated && !b.truncated
                           && !(SiteUnreachable(e.first) && SiteUnreachable(e.second)))
    ensures Recorded(cx, s, e).sub == e.sub && Recorded(cx, s, e).createdAt == e.at
  {
  }

  /** A scan that the shortcut skips would not have matched. */
  lemma SkipIsRight(cx: Context, s: State, sub: nat, p: Probe)
    requires Sound(cx, s) && Usable(cx, p) && Shortcut(s, sub, CombinedContentHash(p.primary))
    ensures !AnyTouches(cx, s.rules, sub, p)
  {
    LatestCleanIsOne(s.scans, sub);
    var c := LatestClean(s.scans, sub).value;
    forall id | id in s.rules ensures !Touches(cx, s.rules[id].rule, sub, p) {
      assert Touches(cx, s.rules[id].rule, sub, p) ==> TouchesSince(cx, c, s.rules[id].rule);
    }
  }

  lemma NoHitOnTheHash(cx: Context, sub: nat, p: Probe, c: Scan, r: Rule)
    requires HashDecides(cx, r) && Usable(cx, p) && StatusFromProbe(p) == Clean && !Touches(cx, r, sub, p)
    requires c.sub == sub && c.hash == CombinedContentHash(p.primary)
    ensures !TouchesSince(cx, c, r)
  {
    forall q | Usable(cx, q) && CombinedContentHash(q.primary) == c.hash ensures !Touches(cx, r, c.sub, q) {
    }
  }

  /** The page of a probe whose first try failed, as a first try would have found it. */
  function Plain(p: Probe): Probe { if p.skipRuleMatch then Probe(p.primary, p.primary, None, false) else p }

  lemma PlainIsSame(cx: Context, p: Probe, r: Rule, sub: nat)
    requires WellProbed(cx, p)
    ensures Usable(cx, Plain(p)) && Plain(p).primary == p.primary && StatusFromProbe(Plain(p)) == StatusFromProbe(p)
    ensures Touches(cx, r, sub, Plain(p)) <==> Touches(cx, r, sub, p)
  {
  }

  lemma RecordKeepsSoundIff(cx: Context, s: State, c: Scan)
    requires Sound(cx, s)
    ensures Sound(cx, s.(scans := s.scans + [c]))
       <==> forall id :: c.status == Clean && id in s.rules && TouchesSince(cx, c, s.rules[id].rule) ==> s.rules[id].updatedAt > c.createdAt
  {
    var s2 := s.(scans := s.scans + [c]);
    assert s2.scans[|s.scans|] == c && c in s2.scans;
    assert forall d :: d in s2.scans <==> d == c || d in s.scans;
  }

  /** A scan keeps the invariant if and only if it does not record as clean a page that rules hit; and that happens
      exactly when the probe or a failure to load the rules bypasses a hit. */
  lemma ScanKeepsSoundIff(cx: Context, s: State, e: Event)
    requires Sound(cx, s) && AllDecided(cx, s) && e.ScanPage? && !e.insertFails && Before(s, e.at)
    requires FetchedDual(cx.fetcher, e.first) && FetchedDual(cx.fetcher, e.second)
    ensures var p := ProbeOf(e);
      Sound(cx, Step(cx, s, e))
      <==> !(StatusFromProbe(p) == Clean && (p.skipRuleMatch || e.loadFails) && AnyTouches(cx, s.rules, e.sub, p))
  {
    var p, c := ProbeOf(e), Recorded(cx, s, e);
    RecordKeepsSoundIff(cx, s, c);
    if Skips(s, e) { SkippedIsUntouched(cx, s, e.sub, p); }
    if c.status == Clean {
      if AnyTouches(cx, s.rules, e.sub, p) {
        BypassedIsNoticed(cx, s, c, p, e.sub);
      } else {
        UntouchedIsClean(cx, s, c, p, e.sub);
      }
    }
  }

  lemma SkippedIsUntouched(cx: Context, s: State, sub: nat, p: Probe)
    requires Sound(cx, s) && WellProbed(cx, p) && Shortcut(s, sub, CombinedContentHash(p.primary))
    ensures !AnyTouches(cx, s.rules, sub, p)
  {
    forall id | id in s.rules ensures !Touches(cx, s.rules[id].rule, sub, p) {
      PlainIsSame(cx, p, s.rules[id].rule, sub);
      SkipIsRight(cx, s, sub, Plain(p));
      assert AnyTouches(cx, s.rules, sub, Plain(p)) <== Touches(cx, s.rules[id].rule, sub, Plain(p));
    }
  }

  lemma BypassedIsNoticed(cx: Context, s: State, c: Scan, p: Probe, sub: nat)
    requires WellProbed(cx, p) && c.sub == sub && c.hash == CombinedContentHash(p.primary) && Before(s, c.createdAt)
    requires AnyTouches(cx, s.rules, sub, p)
    ensures exists id :: id in s.rules && TouchesSince(cx, c, s.rules[id].rule) && s.rules[id].updatedAt < c.createdAt
  {
    var id :| id in s.rules && Touches(cx, s.rules[id].rule, sub, p);
    PlainIsSame(cx, p, s.rules[id].rule, sub);
    assert TouchesSince(cx, c, s.rules[id].rule);
  }

  lemma UntouchedIsClean(cx: Context, s: State, c: Scan, p: Probe, sub: nat)
    requires WellProbed(cx, p) && c.sub == sub && c.hash == CombinedContentHash(p.primary) && AllDecided(cx, s)
    requires !AnyTouches(cx, s.rules, sub, p) && StatusFromProbe(p) == Clean
    ensures forall id :: id in s.rules ==> !TouchesSince(cx, c, s.rules[id].rule)
  {
    forall id | id in s.rules ensures !TouchesSince(cx, c, s.rules[id].rule) {
      PlainIsSame(cx, p, s.rules[id].rule, sub);
      NoHitOnTheHash(cx, sub, Plain(p), c, s.rules[id].rule);
    }
  }

  /** Saving a rule keeps the invariant if and only if no clean scan at that time or later is hit by it: an edit in
      the same instant as a scan is not seen by the strict comparison. */
  lemma SaveKeepsSoundIff(cx: Context, s: State, e: Event)
    requires Sound(cx, s) && e.SaveRule?
    ensures Sound(cx, Step(cx, s, e)) <==>
      forall c :: c in s.scans && c.status == Clean && c.createdAt >= e.at ==> !TouchesSince(cx, c, e.rule)
  {
    var s2 := Step(cx, s, e);
    if c :| c in s.scans && c.status == Clean && c.createdAt >= e.at && TouchesSince(cx, c, e.rule) {
      assert s2.rules[e.id] == StoredRule(e.rule, e.at);
    }
  }

  // ---------- whole histories ----------

  /** No two events at the same time, no probe or load failure that bypasses the rules, and only such rules as are
      allowed. */
  predicate Orderly(cx: Context, allowed: Rule -> bool, events: seq<Event>) {
    && (forall i, j :: 0 <= i < j < |events| ==> events[i].at < events[j].at)
    && (forall e :: e in events ==> OrderlyEvent(cx, allowed, e))
  }

  predicate OrderlyEvent(cx: Context, allowed: Rule -> bool, e: Event) {
    match e
    case SaveRule(_, rule, _) => allowed(rule)
    case DeleteRule(_, _) => true
    case ScanPage(_, first, second, loadFails, _, _, _) =>
      FetchedDual(cx.fetcher, first) && FetchedDual(cx.fetcher, second) && !Confirm(first, second).skipRuleMatch && !loadFails
  }

  function Start(): State { State(map[], []) }

  ghost predicate Decided(cx: Context, allowed: Rule -> bool) { forall r :: allowed(r) ==> HashDecides(cx, r) }

  lemma StepKeepsSound(cx: Context, allowed: Rule -> bool, s: State, e: Event)
    requires Sound(cx, s) && AllDecided(cx, s) && Decided(cx, allowed) && OrderlyEvent(cx, allowed, e) && Before(s, e.at)
    ensures Sound(cx, Step(cx, s, e)) && AllDecided(cx, Step(cx, s, e))
    ensures forall t :: t > e.at ==> Before(Step(cx, s, e), t)
  {
    if e.ScanPage? && !e.insertFails { ScanKeepsSoundIff(cx, s, e); }
    else if e.SaveRule? { SaveKeepsSoundIff(cx, s, e); }
  }

  lemma {:induction false} OrderlyRunIsSound(cx: Context, allowed: Rule -> bool, s: State, events: seq<Event>)
    requires Sound(cx, s) && AllDecided(cx, s) && Decided(cx, allowed) && Orderly(cx, allowed, events)
    requires events != [] ==> Before(s, events[0].at)
    ensures Sound(cx, Run(cx, s, events))
    decreases |events|
  {
    if events != [] {
      assert events[0] in events;
      StepKeepsSound(cx, allowed, s, events[0]);
      if |events| > 1 { assert events[0].at < events[1].at; }
      OrderlyRunIsSound(cx, allowed, Step(cx, s, events[0]), events[1..]);
    }
  }

  /** In such histories scans are stored in the order of their times. */
  lemma {:induction false} OrderlyRunIsTimed(cx: Context, allowed: Rule -> bool, s: State, events: seq<Event>)
    requires Timed(s.scans) && Orderly(cx, allowed, events)
    requires events != [] ==> forall c :: c in s.scans ==> c.createdAt < events[0].at
    ensures Timed(Run(cx, s, events).scans)
    decreases |events|
  {
    if events != [] {
      var s1 := Step(cx, s, events[0]);
      forall c | c in s1.scans ensures c.createdAt <= events[0].at { }
      if |events| > 1 { assert events[0].at < events[1].at; }
      OrderlyRunIsTimed(cx, allowed, s1, events[1..]);
    }
  }

  /** Whether event k, if it is a scan that the shortcut skips, skips nothing that would have matched. */
  predicate RightAt(cx: Context, events: seq<Event>, k: nat)
    requires k < |events|
  {
    var s := Run(cx, Start(), events[..k]);
    events[k].ScanPage? && Skips(s, events[k]) ==> !AnyTouches(cx, s.rules, events[k].sub, ProbeOf(events[k]))
  }

  ghost predicate AlwaysRight(cx: Context, allowed: Rule -> bool) {
    forall events: seq<Event>, k: nat :: k < |events| && Orderly(cx, allowed, events) ==> RightAt(cx, events, k)
  }

  /** In every orderly history every skipped scan would have found no match, when the hash decides the allowed rules. */
  lemma EverySkipIsRight(cx: Context, allowed: Rule -> bool, events: seq<Event>, k: nat)
    requires Decided(cx, allowed) && Orderly(cx, allowed, events) && k < |events|
    ensures RightAt(cx, events, k)
  {
    forall e | e in events[..k] ensures e in events { }
    OrderlyRunIsSound(cx, allowed, Start(), events[..k]);
    var s, e := Run(cx, Start(), events[..k]), events[k];
    assert e in events;
    if e.ScanPage? && Skips(s, e) { SkipIsRight(cx, s, e.sub, ProbeOf(e)); }
  }

  function ScanOf(sub: nat, p: Probe, at: int): Event {
    ScanPage(sub, p.first, if p.second.Some? then p.second.value else p.first, false, false, false, at)
  }

  /** Save a rule, scan a page that it does not hit, scan a page with the same hash that it hits. */
  function Witness(r: Rule, sub: nat, p: Probe, q: Probe): seq<Event> {
    [SaveRule(0, r, 0), ScanOf(sub, p, 1), ScanOf(sub, q, 2)]
  }

  lemma RunOfTwo(cx: Context, s: State, e0: Event, e1: Event)
    ensures Run(cx, s, [e0, e1]) == Step(cx, Step(cx, s, e0), e1)
  {
    var s1 := Step(cx, s, e0);
    assert [e0, e1][1..] == [e1] && [e1][1..] == [];
    assert Run(cx, Step(cx, s1, e1), []) == Step(cx, s1, e1);
    assert Run(cx, s1, [e1]) == Step(cx, s1, e1);
  }

  lemma CleanScanIsRecorded(cx: Context, r: Rule, sub: nat, p: Probe)
    requires Usable(cx, p) && StatusFromProbe(p) == Clean && !Touches(cx, r, sub, p)
    ensures Step(cx, State(map[0 := StoredRule(r, 0)], []), ScanOf(sub, p, 1))
         == State(map[0 := StoredRule(r, 0)], [Scan(sub, Clean, CombinedContentHash(p.primary), 1)])
  {
    var s := State(map[0 := StoredRule(r, 0)], []);
    assert !AnyTouches(cx, s.rules, sub, p);
    assert ProbeOf(ScanOf(sub, p, 1)) == p;
  }

  lemma WitnessIsWrong(cx: Context, allowed: Rule -> bool, r: Rule, sub: nat, p: Probe, q: Probe)
    requires allowed(r) && Usable(cx, p) && Usable(cx, q) && StatusFromProbe(p) == Clean
    requires CombinedContentHash(p.primary) == CombinedContentHash(q.primary) && Touches(cx, r, sub, q) && !Touches(cx, r, sub, p)
    ensures Orderly(cx, allowed, Witness(r, sub, p, q)) && !RightAt(cx, Witness(r, sub, p, q), 2)
  {
    var events := Witness(r, sub, p, q);
    WitnessIsOrderly(cx, allowed, r, sub, p, q);
    assert events[..2] == [events[0], events[1]];
    RunOfTwo(cx, Start(), events[0], events[1]);
    assert Step(cx, Start(), events[0]) == State(map[0 := StoredRule(r, 0)], []);
    CleanScanIsRecorded(cx, r, sub, p);
    SameHashIsSkipped(cx, r, sub, q);
  }

  lemma WitnessIsOrderly(cx: Context, allowed: Rule -> bool, r: Rule, sub: nat, p: Probe, q: Probe)
    requires allowed(r) && Usable(cx, p) && Usable(cx, q)
    ensures Orderly(cx, allowed, Witness(r, sub, p, q))
  {
    assert ProbeOf(ScanOf(sub, p, 1)) == p && ProbeOf(ScanOf(sub, q, 2)) == q;
  }

  lemma SameHashIsSkipped(cx: Context, r: Rule, sub: nat, q: Probe)
    requires Usable(cx, q) && Touches(cx, r, sub, q)
    ensures var s := State(map[0 := StoredRule(r, 0)], [Scan(sub, Clean, CombinedContentHash(q.primary), 1)]);
      var e := ScanOf(sub, q, 2);
      Skips(s, e) && ProbeOf(e) == q && AnyTouches(cx, s.rules, sub, q)
  {
    var s := State(map[0 := StoredRule(r, 0)], [Scan(sub, Clean, CombinedContentHash(q.primary), 1)]);
    assert ProbeOf(ScanOf(sub, q, 2)) == q;
    assert LatestClean(s.scans, sub) == Some(s.scans[0]);
    assert 0 in s.rules && Touches(cx, s.rules[0].rule, sub, q);
  }

  /** The shortcut agrees with full matching in all orderly histories if and only if the hash decides every rule that
      may be saved. */
  lemma AlwaysRightIffDecided(cx: Context, allowed: Rule -> bool)
    ensures AlwaysRight(cx, allowed) <==> Decided(cx, allowed)
  {
    if Decided(cx, allowed) {
      forall events: seq<Event>, k: nat | k < |events| && Orderly(cx, allowed, events) ensures RightAt(cx, events, k) {
        EverySkipIsRight(cx, allowed, events, k);
      }
    } else {
      var r :| allowed(r) && !HashDecides(cx, r);
      var sub, p, q :| Usable(cx, p) && Usable(cx, q) && StatusFromProbe(p) == Clean
                       && CombinedContentHash(p.primary) == CombinedContentHash(q.primary)
                       && Touches(cx, r, sub, q) && !Touches(cx, r, sub, p);
      WitnessIsWrong(cx, allowed, r, sub, p, q);
      assert !RightAt(cx, Witness(r, sub, p, q), 2);
    }
  }
}
