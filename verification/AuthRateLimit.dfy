/** The sliding-window limits on authentication requests (server/internal/handler/email_auth.go). Times are seconds. */
module AuthRateLimit {
  import opened Strings

  const LIMIT := 10
  const WINDOW := 15 * 60

  datatype Action = RegistrationRequest | ActivationRequest | PasswordForgot | Login

  datatype Event = Event(action: Action, email: string, ip: string, at: int)

  // ---------- the repository's counts ----------

  datatype Subject = Email(email: string) | Ip(ip: string)

  predicate Concerns(e: Event, action: Action, who: Subject) {
    e.action == action && match who case Email(m) => e.email == m case Ip(h) => e.ip == h
  }

  /** The events of one action and one account or network with from <= created_at <= to. */
  function CountBetween(log: seq<Event>, action: Action, who: Subject, from: int, to: int): nat {
    if log == [] then 0
    else
      var e := log[|log| - 1];
      CountBetween(log[..|log| - 1], action, who, from, to)
      + (if Concerns(e, action, who) && from <= e.at <= to then 1 else 0)
  }

  function Text(who: Subject): string { match who case Email(m) => m case Ip(h) => h }

  predicate Blank(who: Subject) { AllSpace(Text(who)) }

  /** Blank values are not counted at all. */
  function CountRecent(log: seq<Event>, action: Action, who: Subject, since: int): nat {
    if Blank(who) then 0
    else if log == [] then 0
    else
      var e := log[|log| - 1];
      CountRecent(log[..|log| - 1], action, who, since) + (if Concerns(e, action, who) && since <= e.at then 1 else 0)
  }

  // ---------- the handlers ----------

  /** A request as far as the limits are concerned: `email` is None when it cannot be normalised, `now` is when the
      limits are checked and `at` when the outcome is recorded; `records` is whether the handler gets to record one. */
  datatype Request = Request(action: Action, email: EmailInput, ip: string, now: int, at: int, records: bool)

  datatype EmailInput = Malformed | Normalized(email: string)

  predicate Allowed(log: seq<Event>, action: Action, email: string, ip: string, now: int) {
    && CountRecent(log, action, Email(email), now - WINDOW) < LIMIT
    && (ip == "" || CountRecent(log, action, Ip(ip), now - WINDOW) < LIMIT)
  }

  /** The log after a request. A login whose email cannot be normalised is recorded with an empty email and without a
      check; the other handlers answer such a request at once. */
  function Handle(log: seq<Event>, r: Request): seq<Event> {
    match r.email
    case Malformed => if r.action == Login && r.records then log + [Event(Login, "", r.ip, r.at)] else log
    case Normalized(email) =>
      if Allowed(log, r.action, email, r.ip, r.now) && r.records then log + [Event(r.action, email, r.ip, r.at)] else log
  }

  class EmailAuthHandler {
    var log: seq<Event>

    constructor ()
      ensures log == []
    {
      log := [];
    }

    /** SELECT count(*) over the event table. */
    method CountRecentEvents(action: Action, who: Subject, since: int) returns (count: nat)
      ensures count == CountRecent(log, action, who, since)
    {
      count := 0;
      var blank := IsBlank(Text(who));
      if blank { return; }
      for i := 0 to |log|
        invariant count == CountRecent(log[..i], action, who, since)
      {
        assert log[..i + 1][..i] == log[..i];
        if Concerns(log[i], action, who) && since <= log[i].at { count := count + 1; }
      }
      assert log[..|log|] == log;
    }

    method AllowAuthRequest(action: Action, email: string, ip: string, now: int) returns (ok: bool)
      ensures ok == Allowed(log, action, email, ip, now)
    {
      var since := now - WINDOW;
      var emailCount := CountRecentEvents(action, Email(email), since);
      if emailCount >= LIMIT { return false; }
      if ip == "" { return true; }
      var ipCount := CountRecentEvents(action, Ip(ip), since);
      return ipCount < LIMIT;
    }

    method Serve(r: Request)
      modifies this
      ensures log == Handle(old(log), r)
    {
      if r.email == Malformed {
        if r.action == Login && r.records { log := log + [Event(Login, "", r.ip, r.at)]; }
        return;
      }
      var ok := AllowAuthRequest(r.action, r.email.email, r.ip, r.now);
      if ok && r.records { log := log + [Event(r.action, r.email.email, r.ip, r.at)]; }
    }
  }

  // ---------- when a request is refused ----------

  /** The places in the log of the events of an action that concern an email and that a check at this time looks at. */
  function OfEmail(log: seq<Event>, action: Action, email: string, since: int): set<nat> {
    set i: nat | i < |log| && log[i].action == action && log[i].email == email && log[i].at >= since
  }

  function OfIp(log: seq<Event>, action: Action, ip: string, since: int): set<nat> {
    set i: nat | i < |log| && log[i].action == action && log[i].ip == ip && log[i].at >= since
  }

  function Places(log: seq<Event>, action: Action, who: Subject, since: int): set<nat> {
    set i: nat | i < |log| && Concerns(log[i], action, who) && since <= log[i].at
  }

  lemma PlacesSplit(log: seq<Event>, action: Action, who: Subject, since: int)
    requires log != []
    ensures var (n, init) := (|log| - 1, Places(log[..|log| - 1], action, who, since));
      && n !in init
      && Places(log, action, who, since)
         == init + (if Concerns(log[n], action, who) && since <= log[n].at then {n} else {})
  {
    var n := |log| - 1;
    forall i: nat | i < n ensures log[..n][i] == log[i] { }
  }

  lemma CountSplit(log: seq<Event>, action: Action, who: Subject, since: int)
    requires log != [] && !Blank(who)
    ensures var n := |log| - 1;
      CountRecent(log, action, who, since) == CountRecent(log[..n], action, who, since)
                                              + (if Concerns(log[n], action, who) && since <= log[n].at then 1 else 0)
  {
  }

  lemma {:induction false} CountsPlaces(log: seq<Event>, action: Action, who: Subject, since: int)
    requires !Blank(who)
    ensures CountRecent(log, action, who, since) == |Places(log, action, who, since)|
  {
    if log == [] {
      assert Places(log, action, who, since) == {};
    } else {
      CountSplit(log, action, who, since);
      PlacesSplit(log, action, who, since);
      CountsPlaces(log[..|log| - 1], action, who, since);
    }
  }

  lemma CountsEmail(log: seq<Event>, action: Action, email: string, since: int)
    ensures CountRecent(log, action, Email(email), since) == if AllSpace(email) then 0 else |OfEmail(log, action, email, since)|
  {
    if !AllSpace(email) {
      CountsPlaces(log, action, Email(email), since);
      assert Places(log, action, Email(email), since) == OfEmail(log, action, email, since);
    }
  }

  lemma CountsIp(log: seq<Event>, action: Action, ip: string, since: int)
    ensures CountRecent(log, action, Ip(ip), since) == if AllSpace(ip) then 0 else |OfIp(log, action, ip, since)|
  {
    if !AllSpace(ip) {
      CountsPlaces(log, action, Ip(ip), since);
      assert Places(log, action, Ip(ip), since) == OfIp(log, action, ip, since);
    }
  }

  /** A request is refused if and only if the 900 seconds before it hold ten events of its action and its email, or of
      its action and its network, where an email or a network is known. */
  lemma RefusedIff(log: seq<Event>, action: Action, email: string, ip: string, now: int)
    ensures !Allowed(log, action, email, ip, now) <==>
      || (!AllSpace(email) && |OfEmail(log, action, email, now - 900)| >= 10)
      || (!AllSpace(ip) && |OfIp(log, action, ip, now - 900)| >= 10)
  {
    CountsEmail(log, action, email, now - WINDOW);
    CountsIp(log, action, ip, now - WINDOW);
  }

  /** What a request leaves in the log: nothing if it is refused or its handler records nothing, or if its email is
      malformed, except for a login, which is recorded without an email. */
  lemma RecordedIff(log: seq<Event>, r: Request)
    ensures Handle(log, r) ==
      match r.email
      case Normalized(email) =>
        if r.records && !(!AllSpace(email) && |OfEmail(log, r.action, email, r.now - 900)| >= 10)
           && !(!AllSpace(r.ip) && |OfIp(log, r.action, r.ip, r.now - 900)| >= 10)
        then log + [Event(r.action, email, r.ip, r.at)] else log
      case Malformed => if r.records && r.action == Login then log + [Event(Login, "", r.ip, r.at)] else log
  {
    if r.email.Normalized? { RefusedIff(log, r.action, r.email.email, r.ip, r.now); }
  }

  // ---------- serial histories ----------

  function Run(requests: seq<Request>): seq<Event> {
    if requests == [] then [] else Handle(Run(requests[..|requests| - 1]), requests[|requests| - 1])
  }

  /** One request after the other on a clock that does not run backwards. */
  predicate Serial(requests: seq<Request>) {
    && (forall i :: 0 <= i < |requests| ==> requests[i].now <= requests[i].at)
    && (forall i, j :: 0 <= i < j < |requests| ==> requests[i].at <= requests[j].now)
  }

  function InWindow(log: seq<Event>, action: Action, who: Subject, from: int): nat {
    CountBetween(log, action, who, from, from + WINDOW)
  }

  /** No closed window of 15 minutes, wherever it starts, holds more than ten events. */
  ghost predicate WithinLimit(log: seq<Event>, action: Action, who: Subject) {
    forall from :: InWindow(log, action, who, from) <= LIMIT
  }

  lemma {:induction false} WindowAfterSince(log: seq<Event>, action: Action, who: Subject, since: int, from: int, to: int)
    requires !Blank(who) && since <= from
    ensures CountBetween(log, action, who, from, to) <= CountRecent(log, action, who, since)
  {
    if log != [] { WindowAfterSince(log[..|log| - 1], action, who, since, from, to); }
  }

  lemma AppendCounts(log: seq<Event>, e: Event, action: Action, who: Subject, from: int, to: int)
    ensures CountBetween(log + [e], action, who, from, to)
         == CountBetween(log, action, who, from, to) + (if Concerns(e, action, who) && from <= e.at <= to then 1 else 0)
  {
    assert (log + [e])[..|log|] == log;
  }

  /** An event recorded after a passed check keeps the limit: a window that holds it starts after the check looked back. */
  lemma CheckedEventKeepsLimit(log: seq<Event>, e: Event, action: Action, who: Subject, now: int)
    requires WithinLimit(log, action, who) && !Blank(who) && now <= e.at
    requires Concerns(e, action, who) ==> CountRecent(log, action, who, now - WINDOW) < LIMIT
    ensures WithinLimit(log + [e], action, who)
  {
    forall from ensures InWindow(log + [e], action, who, from) <= LIMIT {
      var to := from + WINDOW;
      assert InWindow(log, action, who, from) <= LIMIT;
      AppendCounts(log, e, action, who, from, to);
      if Concerns(e, action, who) && from <= e.at <= to { WindowAfterSince(log, action, who, now - WINDOW, from, to); }
    }
  }

  /** The event a request adds, if it adds one. */
  function Added(r: Request): Event {
    Event(r.action, match r.email case Malformed => "" case Normalized(m) => m, r.ip, r.at)
  }

  lemma HandleAddsAtMostOne(log: seq<Event>, r: Request)
    ensures Handle(log, r) == log || Handle(log, r) == log + [Added(r)]
    ensures Handle(log, r) != log && r.email != Malformed ==> Allowed(log, r.action, r.email.email, r.ip, r.now)
  {
  }

  lemma EmptyIsBlank()
    ensures Blank(Email("")) && Blank(Ip(""))
  {
  }

  lemma HandleKeepsEmailLimit(log: seq<Event>, r: Request, action: Action, email: string)
    requires WithinLimit(log, action, Email(email)) && !Blank(Email(email)) && r.now <= r.at
    ensures WithinLimit(Handle(log, r), action, Email(email))
  {
    HandleAddsAtMostOne(log, r);
    if Handle(log, r) != log {
      AddedWasChecked(log, r, action, email);
      CheckedEventKeepsLimit(log, Added(r), action, Email(email), r.now);
    }
  }

  lemma AddedWasChecked(log: seq<Event>, r: Request, action: Action, email: string)
    requires !Blank(Email(email)) && Handle(log, r) != log
    ensures Concerns(Added(r), action, Email(email)) ==> CountRecent(log, action, Email(email), r.now - WINDOW) < LIMIT
  {
    EmptyIsBlank();
    HandleAddsAtMostOne(log, r);
  }

  lemma SerialPrefix(requests: seq<Request>, n: nat)
    requires Serial(requests) && n <= |requests|
    ensures Serial(requests[..n])
  {
  }

  /** Per account: in every serial history, for every action and every email that is not blank. */
  lemma {:induction false} EmailLimitHolds(requests: seq<Request>, action: Action, email: string)
    requires Serial(requests) && !Blank(Email(email))
    ensures WithinLimit(Run(requests), action, Email(email))
  {
    if requests != [] {
      var n := |requests| - 1;
      SerialPrefix(requests, n);
      EmailLimitHolds(requests[..n], action, email);
      HandleKeepsEmailLimit(Run(requests[..n]), requests[n], action, email);
    }
  }

  // ---------- per network ----------

  /** Request k records a login without a check at a moment at which the check would have refused it. */
  predicate Overruns(requests: seq<Request>, k: nat, ip: string)
    requires k < |requests|
  {
    var r := requests[k];
    && r.action == Login && r.email == Malformed && r.records && r.ip == ip
    && CountRecent(Run(requests[..k]), Login, Ip(ip), r.at - WINDOW) >= LIMIT
  }

  lemma {:induction false} RunIsPast(requests: seq<Request>, t: int)
    requires Serial(requests) && (requests != [] ==> requests[|requests| - 1].at <= t)
    ensures forall i :: 0 <= i < |Run(requests)| ==> Run(requests)[i].at <= t
  {
    if requests != [] {
      var init := requests[..|requests| - 1];
      RunIsPast(init, t);
    }
  }

  lemma {:induction false} RecentIsWindow(log: seq<Event>, action: Action, who: Subject, since: int, to: int)
    requires !Blank(who) && forall i :: 0 <= i < |log| ==> log[i].at <= to
    ensures CountRecent(log, action, who, since) == CountBetween(log, action, who, since, to)
  {
    if log != [] {
      assert log[|log| - 1].at <= to;
      RecentIsWindow(log[..|log| - 1], action, who, since, to);
    }
  }

  lemma {:induction false} CountsNeverFall(requests: seq<Request>, k: nat, action: Action, who: Subject, from: int, to: int)
    requires k <= |requests|
    ensures CountBetween(Run(requests[..k]), action, who, from, to) <= CountBetween(Run(requests), action, who, from, to)
    decreases |requests| - k
  {
    if k == |requests| {
      assert requests[..k] == requests;
    } else {
      CountsNeverFall(requests, k + 1, action, who, from, to);
      assert requests[..k + 1][..k] == requests[..k];
      var log := Run(requests[..k]);
      if Handle(log, requests[k]) != log {
        AppendCounts(log, Handle(log, requests[k])[|log|], action, who, from, to);
      }
    }
  }

  lemma HandleKeepsIpLimit(log: seq<Event>, r: Request, action: Action, ip: string)
    requires WithinLimit(log, action, Ip(ip)) && !Blank(Ip(ip)) && r.now <= r.at
    requires action == Login && r.action == Login && r.email == Malformed && r.records && r.ip == ip
             ==> CountRecent(log, Login, Ip(ip), r.at - WINDOW) < LIMIT
    ensures WithinLimit(Handle(log, r), action, Ip(ip))
  {
    HandleAddsAtMostOne(log, r);
    if Handle(log, r) != log {
      EmptyIsBlank();
      CheckedEventKeepsLimit(log, Added(r), action, Ip(ip), if r.email == Malformed then r.at else r.now);
    }
  }

  lemma NoneOverrunsBefore(requests: seq<Request>, n: nat, ip: string)
    requires n <= |requests| && forall k :: 0 <= k < |requests| ==> !Overruns(requests, k, ip)
    ensures forall k :: 0 <= k < n ==> !Overruns(requests[..n], k, ip)
  {
    forall k | 0 <= k < n ensures !Overruns(requests[..n], k, ip) {
      assert requests[..n][..k] == requests[..k] && !Overruns(requests, k, ip);
    }
  }

  lemma {:induction false} IpLimitKept(requests: seq<Request>, action: Action, ip: string)
    requires Serial(requests) && !Blank(Ip(ip))
    requires action == Login ==> forall k :: 0 <= k < |requests| ==> !Overruns(requests, k, ip)
    ensures WithinLimit(Run(requests), action, Ip(ip))
  {
    if requests != [] {
      var n := |requests| - 1;
      SerialPrefix(requests, n);
      if action == Login { NoneOverrunsBefore(requests, n, ip); }
      IpLimitKept(requests[..n], action, ip);
      LastKeepsIpLimit(requests, action, ip);
    }
  }

  lemma LastKeepsIpLimit(requests: seq<Request>, action: Action, ip: string)
    requires requests != [] && Serial(requests) && !Blank(Ip(ip))
    requires action == Login ==> !Overruns(requests, |requests| - 1, ip)
    requires WithinLimit(Run(requests[..|requests| - 1]), action, Ip(ip))
    ensures WithinLimit(Run(requests), action, Ip(ip))
  {
    var n := |requests| - 1;
    HandleKeepsIpLimit(Run(requests[..n]), requests[n], action, ip);
  }

  /** An unchecked record after ten others leaves more than ten in the window that ends with it. */
  lemma UncheckedRecordOverruns(log: seq<Event>, e: Event, who: Subject)
    requires !Blank(who) && Concerns(e, Login, who) && forall i :: 0 <= i < |log| ==> log[i].at <= e.at
    requires CountRecent(log, Login, who, e.at - WINDOW) >= LIMIT
    ensures CountBetween(log + [e], Login, who, e.at - WINDOW, e.at) > LIMIT
  {
    RecentIsWindow(log, Login, who, e.at - WINDOW, e.at);
    AppendCounts(log, e, Login, who, e.at - WINDOW, e.at);
  }

  lemma PastAt(requests: seq<Request>, k: nat)
    requires Serial(requests) && k < |requests|
    ensures forall i :: 0 <= i < |Run(requests[..k])| ==> Run(requests[..k])[i].at <= requests[k].at
  {
    SerialPrefix(requests, k);
    RunIsPast(requests[..k], requests[k].at);
  }

  lemma RunOfPrefix(requests: seq<Request>, k: nat)
    requires k < |requests|
    ensures Run(requests[..k + 1]) == Handle(Run(requests[..k]), requests[k])
  {
    assert requests[..k + 1][..k] == requests[..k];
  }

  lemma OverrunCountsThen(requests: seq<Request>, k: nat, ip: string)
    requires Serial(requests) && !Blank(Ip(ip)) && k < |requests| && Overruns(requests, k, ip)
    ensures InWindow(Run(requests[..k + 1]), Login, Ip(ip), requests[k].at - WINDOW) > LIMIT
  {
    PastAt(requests, k);
    UncheckedRecordOverruns(Run(requests[..k]), Added(requests[k]), Ip(ip));
    RunOfPrefix(requests, k);
  }

  /** The window that ends with such a record holds more than ten, then and at the end of the run. */
  lemma OverrunCounts(requests: seq<Request>, k: nat, ip: string)
    requires Serial(requests) && !Blank(Ip(ip)) && k < |requests| && Overruns(requests, k, ip)
    ensures InWindow(Run(requests), Login, Ip(ip), requests[k].at - WINDOW) > LIMIT
  {
    OverrunCountsThen(requests, k, ip);
    var from := requests[k].at - WINDOW;
    CountsNeverFall(requests, k + 1, Login, Ip(ip), from, from + WINDOW);
  }

  /** Per network, for registration, activation and forgotten passwords: in every serial history. */
  lemma IpLimitHoldsExceptLogin(requests: seq<Request>, action: Action, ip: string)
    requires Serial(requests) && !Blank(Ip(ip)) && action != Login
    ensures WithinLimit(Run(requests), action, Ip(ip))
  {
    IpLimitKept(requests, action, ip);
  }

  /** For login the network limit holds in a serial history if and only if none of its unchecked records arrived when
      the check it skipped would have refused it. */
  lemma LoginIpLimitExactly(requests: seq<Request>, ip: string)
    requires Serial(requests) && !Blank(Ip(ip))
    ensures WithinLimit(Run(requests), Login, Ip(ip)) <==> forall k :: 0 <= k < |requests| ==> !Overruns(requests, k, ip)
  {
    if forall k :: 0 <= k < |requests| ==> !Overruns(requests, k, ip) {
      IpLimitKept(requests, Login, ip);
    } else {
      var k: nat :| k < |requests| && Overruns(requests, k, ip);
      OverrunCounts(requests, k, ip);
    }
  }

  lemma OneMalformedMore(ip: string, n: nat)
    requires n > 0
    ensures Run(MalformedLogins(ip, n)) == Run(MalformedLogins(ip, n - 1)) + [Event(Login, "", ip, 0)]
  {
    assert MalformedLogins(ip, n)[..n - 1] == MalformedLogins(ip, n - 1);
  }

  /** Malformed logins from one network are recorded without any limit: n at one moment leave n events. */
  lemma {:induction false} MalformedLoginsAreNotLimited(ip: string, n: nat)
    requires !Blank(Ip(ip))
    ensures Serial(MalformedLogins(ip, n))
    ensures InWindow(Run(MalformedLogins(ip, n)), Login, Ip(ip), 0) == n
  {
    if n > 0 {
      MalformedLoginsAreNotLimited(ip, n - 1);
      var e := Event(Login, "", ip, 0);
      OneMalformedMore(ip, n);
      AppendCounts(Run(MalformedLogins(ip, n - 1)), e, Login, Ip(ip), 0, 0 + WINDOW);
    }
  }

  function MalformedLogins(ip: string, n: nat): seq<Request> {
    seq(n, _ => Request(Login, EmailInput.Malformed, ip, 0, 0, true))
  }
}
