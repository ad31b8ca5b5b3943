/** One-time tokens, credentials and session versions (server/internal/repository/auth.go). The code consumes a token,
    then derives a slow hash outside any transaction, then applies it: three steps that the steps of other clients
    come between. Every function below is one database transaction; a transaction that fails is a step that did not
    happen. */
module AuthTokens {
  import opened Wrappers
  import opened Strings

  datatype Purpose = RegistrationVerify | AccountActivation | PasswordReset | RestoreChallenge

  datatype AuthToken = AuthToken(purpose: Purpose, userID: Option<nat>, email: string, hash: string,
                                 expiresAt: int, consumedAt: Option<int>, createdAt: int)

  datatype Credential = Credential(email: string, passwordHash: string, passwordSetAt: Option<int>,
                                   sessionVersion: nat, activationRequired: bool)

  /** Tokens by their key, credentials by their user. */
  datatype Db = Db(tokens: map<nat, AuthToken>, credentials: map<nat, Credential>)

  datatype Error = TokenUnavailable | CredentialNotFound | InvalidInput

  const HASH_LENGTH := 64

  predicate SetsPassword(p: Purpose) { p == AccountActivation || p == PasswordReset }

  predicate Revocable(p: Purpose) { SetsPassword(p) || p == RestoreChallenge }

  // ---------- the transactions ----------

  /** The unique index on the token hash refuses a second row with the same hash. */
  function Issue(db: Db, id: nat, token: AuthToken): Result<Db, Error> {
    if token.email == "" || |token.hash| != HASH_LENGTH || id in db.tokens
       || exists k :: k in db.tokens && db.tokens[k].hash == token.hash
    then Err(InvalidInput)
    else Ok(db.(tokens := db.tokens[id := token.(consumedAt := None)]))
  }

  function Consumable(db: Db, hash: string, purposes: set<Purpose>, now: int): set<nat> {
    set id | id in db.tokens && db.tokens[id].hash == hash && db.tokens[id].purpose in purposes
             && db.tokens[id].consumedAt.None? && db.tokens[id].expiresAt > now
  }

  /** UPDATE ... SET consumed_at = now on a set of rows. */
  function MarkConsumed(tokens: map<nat, AuthToken>, ids: set<nat>, now: int): map<nat, AuthToken> {
    map id | id in tokens :: if id in ids then tokens[id].(consumedAt := Some(now)) else tokens[id]
  }

  function Consume(db: Db, hash: string, purposes: set<Purpose>, now: int): Result<Db, Error> {
    if |hash| != HASH_LENGTH || |Consumable(db, hash, purposes, now)| != 1 then Err(TokenUnavailable)
    else Ok(db.(tokens := MarkConsumed(db.tokens, Consumable(db, hash, purposes, now), now)))
  }

  function Outstanding(db: Db, user: nat): set<nat> {
    set id | id in db.tokens && db.tokens[id].userID == Some(user) && Revocable(db.tokens[id].purpose)
             && db.tokens[id].consumedAt.None?
  }

  /** The stored row of a consumed token that may set this user's password, whatever the client's copy says. */
  predicate StoredTokenFits(db: Db, user: nat, id: nat, copy: AuthToken) {
    && id in db.tokens && db.tokens[id].userID == Some(user) && db.tokens[id].email == copy.email
    && SetsPassword(db.tokens[id].purpose) && db.tokens[id].consumedAt.Some?
  }

  /** The password was never set, or it was set before the token was issued. */
  predicate IssuedAfterPassword(c: Credential, t: AuthToken) {
    c.passwordSetAt.None? || c.passwordSetAt.value < t.createdAt
  }

  /** Without a token this is the rehash at login. */
  function UpdatePassword(db: Db, user: nat, passwordHash: string, now: int, token: Option<(nat, AuthToken)>):
    Result<Db, Error>
  {
    if user == 0 || AllSpace(passwordHash) then Err(InvalidInput)
    else if user !in db.credentials then Err(CredentialNotFound)
    else
      var c := db.credentials[user];
      if token.Some? && !(StoredTokenFits(db, user, token.value.0, token.value.1)
                          && c.email == db.tokens[token.value.0].email
                          && IssuedAfterPassword(c, db.tokens[token.value.0]))
      then Err(TokenUnavailable)
      else Ok(WithPassword(db, user, passwordHash, now, token.Some?))
  }

  function WithPassword(db: Db, user: nat, passwordHash: string, now: int, revokes: bool): Db
    requires user in db.credentials
  {
    var c := db.credentials[user];
    var changed := c.(passwordHash := passwordHash, passwordSetAt := Some(now), activationRequired := false,
                      sessionVersion := if revokes then c.sessionVersion + 1 else c.sessionVersion);
    Db(MarkConsumed(db.tokens, Outstanding(db, user), now), db.credentials[user := changed])
  }

  function UpdatePasswordFromToken(db: Db, id: nat, copy: AuthToken, passwordHash: string, now: int): Result<Db, Error> {
    if id == 0 || copy.userID.None? || !SetsPassword(copy.purpose) then Err(TokenUnavailable)
    else UpdatePassword(db, copy.userID.value, passwordHash, now, Some((id, copy)))
  }

  function IncrementSessionVersion(db: Db, user: nat): Result<Db, Error> {
    if user !in db.credentials then Err(CredentialNotFound)
    else
      var c := db.credentials[user];
      Ok(db.(credentials := db.credentials[user := c.(sessionVersion := c.sessionVersion + 1)]))
  }

  /** A new user's credential; the unique index refuses a second one. */
  function Register(db: Db, user: nat, c: Credential): Result<Db, Error> {
    if user in db.credentials then Err(InvalidInput)
    else Ok(db.(credentials := db.credentials[user := c.(sessionVersion := 1)]))
  }

  // ---------- the repository as an object ----------

  class Repository {
    var tokens: map<nat, AuthToken>
    var credentials: map<nat, Credential>

    constructor ()
      ensures View() == Db(map[], map[])
    {
      tokens, credentials := map[], map[];
    }

    function View(): Db
      reads this
    {
      Db(tokens, credentials)
    }

    method ConsumeAuthToken(hash: string, purposes: set<Purpose>, now: int) returns (r: Result<(nat, AuthToken), Error>)
      modifies this`tokens
      ensures match r
              case Err(e) => View() == old(View()) && Consume(old(View()), hash, purposes, now) == Err(e)
              case Ok((id, t)) =>
                && Consume(old(View()), hash, purposes, now) == Ok(View())
                && id in old(tokens) && old(tokens)[id].hash == hash && old(tokens)[id].purpose in purposes
                && t == tokens[id] && t.consumedAt == Some(now) && now < t.expiresAt
    {
      if |hash| != HASH_LENGTH { return Err(TokenUnavailable); }
      var ids := Consumable(View(), hash, purposes, now);
      if |ids| != 1 { return Err(TokenUnavailable); }
      var id :| id in ids;
      tokens := MarkConsumed(tokens, ids, now);
      return Ok((id, tokens[id]));
    }

    method UpdateCredentialPassword(user: nat, passwordHash: string, now: int, token: Option<(nat, AuthToken)>)
      returns (r: Result<Credential, Error>)
      modifies this
      ensures match r
              case Err(e) => View() == old(View()) && UpdatePassword(old(View()), user, passwordHash, now, token) == Err(e)
              case Ok(c) =>
                && UpdatePassword(old(View()), user, passwordHash, now, token) == Ok(View())
                && user in credentials && c == credentials[user] && c.passwordHash == passwordHash
    {
      var blank := IsBlank(passwordHash);
      if user == 0 || blank { return Err(InvalidInput); }
      if user !in credentials { return Err(CredentialNotFound); }
      var c := credentials[user];
      if token.Some? {
        var (id, copy) := token.value;
        if !StoredTokenFits(View(), user, id, copy) { return Err(TokenUnavailable); }
        if c.email != tokens[id].email || !IssuedAfterPassword(c, tokens[id]) { return Err(TokenUnavailable); }
        c := c.(sessionVersion := c.sessionVersion + 1);
      }
      c := c.(passwordHash := passwordHash, passwordSetAt := Some(now), activationRequired := false);
      credentials := credentials[user := c];
      tokens := MarkConsumed(tokens, Outstanding(View(), user), now);
      assert Outstanding(Db(old(tokens), credentials), user) == Outstanding(old(View()), user);
      assert View() == WithPassword(old(View()), user, passwordHash, now, token.Some?);
      return Ok(c);
    }

    method BumpSessionVersion(user: nat) returns (r: Result<(), Error>)
      modifies this`credentials
      ensures match r
              case Err(e) => View() == old(View()) && IncrementSessionVersion(old(View()), user) == Err(e)
              case Ok(_) => IncrementSessionVersion(old(View()), user) == Ok(View())
    {
      if user !in credentials { return Err(CredentialNotFound); }
      var c := credentials[user];
      credentials := credentials[user := c.(sessionVersion := c.sessionVersion + 1)];
      return Ok(());
    }
  }

  // ---------- runs: the steps of any number of clients in any order ----------

  datatype Event =
    | IssueToken(id: nat, token: AuthToken)
    | ConsumeToken(hash: string, purposes: set<Purpose>, now: int)
    | ApplyToken(id: nat, copy: AuthToken, passwordHash: string, now: int)
    | Rehash(user: nat, passwordHash: string, now: int)
    | Bump(user: nat)
    | NewCredential(user: nat, credential: Credential)

  function Outcome(db: Db, ev: Event): Result<Db, Error> {
    match ev
    case IssueToken(id, t) => Issue(db, id, t)
    case ConsumeToken(hash, purposes, now) => Consume(db, hash, purposes, now)
    case ApplyToken(id, copy, h, now) => UpdatePasswordFromToken(db, id, copy, h, now)
    case Rehash(user, h, now) => UpdatePassword(db, user, h, now, None)
    case Bump(user) => IncrementSessionVersion(db, user)
    case NewCredential(user, c) => Register(db, user, c)
  }

  function Run(events: seq<Event>): Db {
    if events == [] then Db(map[], map[])
    else
      var before := Run(events[..|events| - 1]);
      match Outcome(before, events[|events| - 1]) case Ok(db) => db case Err(_) => before
  }

  /** Event k of the run, tried in the state the events before it left. */
  predicate Succeeds(events: seq<Event>, k: nat)
    requires k < |events|
  {
    Outcome(Run(events[..k]), events[k]).Ok?
  }

  lemma NextState(events: seq<Event>, k: nat)
    requires k < |events|
    ensures Run(events[..k + 1]) == if Succeeds(events, k) then Outcome(Run(events[..k]), events[k]).value
                                    else Run(events[..k])
  {
    assert events[..k + 1][..k] == events[..k];
  }

  // ---------- a token is consumed at most once ----------

  ghost predicate UniqueHashes(db: Db) {
    forall a, b :: a in db.tokens && b in db.tokens && db.tokens[a].hash == db.tokens[b].hash ==> a == b
  }

  /** What no step undoes: rows stay with their contents, only `consumedAt` is filled in, and session versions grow. */
  ghost predicate Grows(a: Db, b: Db) {
    && (forall id :: id in a.tokens ==>
          && id in b.tokens
          && b.tokens[id].(consumedAt := a.tokens[id].consumedAt) == a.tokens[id]
          && (a.tokens[id].consumedAt.Some? ==> b.tokens[id].consumedAt == a.tokens[id].consumedAt))
    && (forall u :: u in a.credentials ==>
          u in b.credentials && a.credentials[u].sessionVersion <= b.credentials[u].sessionVersion)
  }

  lemma WithPasswordGrows(db: Db, user: nat, passwordHash: string, now: int, revokes: bool)
    requires UniqueHashes(db) && user in db.credentials
    ensures var db2 := WithPassword(db, user, passwordHash, now, revokes); UniqueHashes(db2) && Grows(db, db2)
  {
  }

  lemma PasswordSetIs(db: Db, ev: Event)
    requires (ev.ApplyToken? || ev.Rehash?) && Outcome(db, ev).Ok?
    ensures var user := if ev.Rehash? then ev.user else ev.copy.userID.value;
            user in db.credentials && Outcome(db, ev).value == WithPassword(db, user, ev.passwordHash, ev.now, ev.ApplyToken?)
    ensures ev.ApplyToken? ==> ev.copy.userID.Some?
  {
  }

  lemma ConsumeGrows(db: Db, hash: string, purposes: set<Purpose>, now: int)
    requires UniqueHashes(db) && Consume(db, hash, purposes, now).Ok?
    ensures var db2 := Consume(db, hash, purposes, now).value; UniqueHashes(db2) && Grows(db, db2)
  {
    var ids := Consumable(db, hash, purposes, now);
  }

  lemma StepGrows(db: Db, ev: Event)
    requires UniqueHashes(db) && Outcome(db, ev).Ok?
    ensures UniqueHashes(Outcome(db, ev).value) && Grows(db, Outcome(db, ev).value)
  {
    if ev.ConsumeToken? {
      ConsumeGrows(db, ev.hash, ev.purposes, ev.now);
    } else if ev.ApplyToken? || ev.Rehash? {
      PasswordSetIs(db, ev);
      WithPasswordGrows(db, if ev.Rehash? then ev.user else ev.copy.userID.value, ev.passwordHash, ev.now, ev.ApplyToken?);
    }
  }

  lemma OneStepGrows(events: seq<Event>, k: nat)
    requires k < |events| && UniqueHashes(Run(events[..k]))
    ensures UniqueHashes(Run(events[..k + 1])) && Grows(Run(events[..k]), Run(events[..k + 1]))
  {
    NextState(events, k);
    if Succeeds(events, k) { StepGrows(Run(events[..k]), events[k]); }
  }

  lemma {:induction false} RunIsUnique(events: seq<Event>, k: nat)
    requires k <= |events|
    ensures UniqueHashes(Run(events[..k]))
  {
    if k > 0 {
      RunIsUnique(events, k - 1);
      OneStepGrows(events, k - 1);
    }
  }

  lemma GrowsOn(a: Db, b: Db, c: Db)
    requires Grows(a, b) && Grows(b, c)
    ensures Grows(a, c)
  {
  }

  lemma {:induction false} RunGrows(events: seq<Event>, i: nat, j: nat)
    requires i <= j <= |events|
    ensures UniqueHashes(Run(events[..i])) && UniqueHashes(Run(events[..j]))
    ensures Grows(Run(events[..i]), Run(events[..j]))
    decreases j
  {
    RunIsUnique(events, i);
    RunIsUnique(events, j);
    if i < j {
      RunGrows(events, i, j - 1);
      OneStepGrows(events, j - 1);
      GrowsOn(Run(events[..i]), Run(events[..j - 1]), Run(events[..j]));
    }
  }

  lemma ConsumeMarksTheToken(db: Db, hash: string, purposes: set<Purpose>, now: int)
    requires Consume(db, hash, purposes, now).Ok?
    ensures exists id :: && id in db.tokens && db.tokens[id].hash == hash && db.tokens[id].consumedAt.None?
                         && Consume(db, hash, purposes, now).value.tokens[id].consumedAt == Some(now)
  {
    var ids := Consumable(db, hash, purposes, now);
    assert ids != {} by { assert |ids| == 1; }
    var id :| id in ids;
    assert Consume(db, hash, purposes, now).value.tokens[id].consumedAt == Some(now);
  }

  lemma SpentTokenIsRefused(db: Db, id: nat, purposes: set<Purpose>, now: int)
    requires UniqueHashes(db) && id in db.tokens && db.tokens[id].consumedAt.Some?
    ensures Consume(db, db.tokens[id].hash, purposes, now).Err?
  {
    assert Consumable(db, db.tokens[id].hash, purposes, now) == {};
  }

  /** In every interleaving, of all attempts to consume one token at most one succeeds. */
  lemma TokenConsumedAtMostOnce(events: seq<Event>, i: nat, j: nat)
    requires i < j < |events| && events[i].ConsumeToken? && events[j].ConsumeToken? && events[i].hash == events[j].hash
    requires Succeeds(events, i)
    ensures !Succeeds(events, j)
  {
    var a := Run(events[..i]);
    ConsumeMarksTheToken(a, events[i].hash, events[i].purposes, events[i].now);
    NextState(events, i);
    var id :| && id in a.tokens && a.tokens[id].hash == events[i].hash
              && Run(events[..i + 1]).tokens[id].consumedAt == Some(events[i].now);
    RunGrows(events, i, i + 1);
    RunGrows(events, i + 1, j);
    SpentTokenIsRefused(Run(events[..j]), id, events[j].purposes, events[j].now);
  }

  // ---------- once a token has set the password, older siblings cannot ----------

  /** A client reads the clock for its transaction after the token it holds was issued. */
  predicate CausalClock(events: seq<Event>) {
    forall k :: 0 <= k < |events| && events[k].ApplyToken? && events[k].id in Run(events[..k]).tokens
                ==> Run(events[..k]).tokens[events[k].id].createdAt <= events[k].now
  }

  /** No rehash writes a time before the one that is stored. */
  predicate NoStaleRehash(events: seq<Event>) {
    forall k :: 0 <= k < |events| && events[k].Rehash? ==> !StaleRehash(Run(events[..k]), events[k].user, events[k].now)
  }

  predicate StaleRehash(db: Db, user: nat, now: int) {
    user in db.credentials && db.credentials[user].passwordSetAt.Some? && now < db.credentials[user].passwordSetAt.value
  }

  predicate PasswordSetAtOrAfter(db: Db, user: nat, s: int) {
    user in db.credentials && db.credentials[user].passwordSetAt.Some? && s <= db.credentials[user].passwordSetAt.value
  }

  lemma StepKeepsPasswordTime(db: Db, ev: Event, user: nat, s: int)
    requires PasswordSetAtOrAfter(db, user, s) && Outcome(db, ev).Ok?
    requires ev.ApplyToken? && ev.id in db.tokens ==> db.tokens[ev.id].createdAt <= ev.now
    requires ev.Rehash? ==> !StaleRehash(db, ev.user, ev.now)
    ensures PasswordSetAtOrAfter(Outcome(db, ev).value, user, s)
  {
  }

  lemma {:induction false} PasswordTimeNeverFalls(events: seq<Event>, i: nat, j: nat, user: nat, s: int)
    requires i <= j <= |events| && CausalClock(events) && NoStaleRehash(events)
    requires PasswordSetAtOrAfter(Run(events[..i]), user, s)
    ensures PasswordSetAtOrAfter(Run(events[..j]), user, s)
    decreases j
  {
    if i < j {
      PasswordTimeNeverFalls(events, i, j - 1, user, s);
      NextState(events, j - 1);
      if Succeeds(events, j - 1) { StepKeepsPasswordTime(Run(events[..j - 1]), events[j - 1], user, s); }
    }
  }

  /** After a token set the password at time s, only a token issued later than s sets it again: siblings that were
      still unconsumed, siblings already consumed and mid-hash, and the token itself are all refused. */
  lemma OnlyTokensIssuedLaterSetThePasswordAgain(events: seq<Event>, i: nat, j: nat)
    requires i < j < |events| && CausalClock(events) && NoStaleRehash(events)
    requires events[i].ApplyToken? && events[j].ApplyToken? && Succeeds(events, i) && Succeeds(events, j)
    requires events[i].copy.userID == events[j].copy.userID
    ensures events[j].id in Run(events[..j]).tokens
    ensures Run(events[..j]).tokens[events[j].id].createdAt > events[i].now
  {
    var user := events[i].copy.userID.value;
    NextState(events, i);
    PasswordTimeNeverFalls(events, i + 1, j, user, events[i].now);
  }

  // ---------- what each transaction does, row by row ----------

  /** A token can be consumed if and only if there is an unconsumed, unexpired one with this hash and one of these
      purposes; then it is marked and nothing else changes. */
  lemma ConsumesIff(db: Db, hash: string, purposes: set<Purpose>, now: int)
    requires UniqueHashes(db)
    ensures Consume(db, hash, purposes, now).Ok? <==>
      |hash| == 64 && exists id :: && id in db.tokens && db.tokens[id].hash == hash && db.tokens[id].purpose in purposes
                                   && db.tokens[id].consumedAt.None? && now < db.tokens[id].expiresAt
    ensures Consume(db, hash, purposes, now).Ok? ==>
      var db2 := Consume(db, hash, purposes, now).value;
      db2.credentials == db.credentials && db2.tokens.Keys == db.tokens.Keys
      && forall id :: id in db.tokens ==>
           db2.tokens[id] == if db.tokens[id].hash == hash then db.tokens[id].(consumedAt := Some(now)) else db.tokens[id]
  {
    var ids := Consumable(db, hash, purposes, now);
    if id :| id in db.tokens && db.tokens[id].hash == hash && db.tokens[id].purpose in purposes
             && db.tokens[id].consumedAt.None? && now < db.tokens[id].expiresAt {
      assert forall k :: k in db.tokens && db.tokens[k].hash == hash ==> k == id;
      assert ids == {id};
    } else {
      assert ids == {};
    }
  }

  /** An activation, reset or restore token of the user that nobody has consumed. */
  predicate IsOutstanding(t: AuthToken, user: nat) {
    && t.userID == Some(user) && t.consumedAt.None?
    && (t.purpose == AccountActivation || t.purpose == PasswordReset || t.purpose == RestoreChallenge)
  }

  /** Every write of a password, be it by a token or a login rehash, consumes exactly the outstanding tokens of its user. */
  lemma WriteConsumesOutstanding(db: Db, ev: Event, user: nat)
    requires WritesPassword(ev, user) && Outcome(db, ev).Ok?
    ensures var db2 := Outcome(db, ev).value;
      db2.tokens.Keys == db.tokens.Keys
      && forall id :: id in db.tokens ==>
           db2.tokens[id] == if IsOutstanding(db.tokens[id], user) then db.tokens[id].(consumedAt := Some(ev.now)) else db.tokens[id]
  {
    PasswordSetIs(db, ev);
  }

  /** So right after it no activation, reset or restore token of the user is unconsumed ... */
  lemma NoneIsOutstanding(events: seq<Event>, i: nat, user: nat)
    requires i < |events| && WritesPassword(events[i], user) && Succeeds(events, i)
    ensures var db := Run(events[..i + 1]); forall id :: id in db.tokens ==> !IsOutstanding(db.tokens[id], user)
  {
    NextState(events, i);
    WriteConsumesOutstanding(Run(events[..i]), events[i], user);
  }

  /** ... and every activation, reset or restore token of the user that existed then can never be consumed any more. */
  lemma OutstandingTokensDie(events: seq<Event>, i: nat, j: nat, user: nat, id: nat)
    requires i < j < |events| && WritesPassword(events[i], user) && Succeeds(events, i)
    requires id in Run(events[..i]).tokens && Run(events[..i]).tokens[id].userID == Some(user)
    requires Run(events[..i]).tokens[id].purpose in {AccountActivation, PasswordReset, RestoreChallenge}
    requires events[j].ConsumeToken? && events[j].hash == Run(events[..i]).tokens[id].hash
    ensures !Succeeds(events, j)
  {
    var t := Run(events[..i]).tokens[id];
    TokenGoesOn(events, i, i + 1, id);
    NoneIsOutstanding(events, i, user);
    assert Run(events[..i + 1]).tokens[id].consumedAt.Some?;
    TokenGoesOn(events, i + 1, j, id);
    RunGrows(events, j, j);
    SpentTokenIsRefused(Run(events[..j]), id, events[j].purposes, events[j].now);
  }

  lemma TokenGoesOn(events: seq<Event>, i: nat, j: nat, id: nat)
    requires i <= j <= |events| && id in Run(events[..i]).tokens
    ensures id in Run(events[..j]).tokens
    ensures var (t, u) := (Run(events[..i]).tokens[id], Run(events[..j]).tokens[id]);
      && u.userID == t.userID && u.purpose == t.purpose && u.hash == t.hash
      && (t.consumedAt.Some? ==> u.consumedAt == t.consumedAt)
  {
    RunGrows(events, i, j);
  }

  /** What a write makes of the credential; the version rises with a token only. */
  lemma WriteChangesCredential(db: Db, ev: Event, user: nat)
    requires WritesPassword(ev, user) && Outcome(db, ev).Ok?
    ensures var db2 := Outcome(db, ev).value;
      && user in db.credentials
      && db2.credentials == db.credentials[user := Credential(db.credentials[user].email, ev.passwordHash, Some(ev.now),
                                                              db.credentials[user].sessionVersion + (if ev.ApplyToken? then 1 else 0), false)]
  {
    PasswordSetIs(db, ev);
  }

  /** A rehash goes through if and only if the user has a credential and the hash is not blank. */
  lemma RehashesIff(db: Db, ev: Event)
    requires ev.Rehash?
    ensures Outcome(db, ev).Ok? <==> ev.user != 0 && ev.user in db.credentials && !AllSpace(ev.passwordHash)
  {
  }

  /** A token sets a password if and only if: its row is a consumed activation or reset token of a user with a
      credential, with the email of the copy and of the credential, created after the password was last set. */
  lemma AppliesExactly(db: Db, id: nat, copy: AuthToken, user: nat, passwordHash: string, now: int)
    requires id in db.tokens && copy.userID == Some(user) && user in db.credentials
    ensures var (t, c) := (db.tokens[id], db.credentials[user]);
      UpdatePasswordFromToken(db, id, copy, passwordHash, now).Ok? <==>
        && id != 0 && user != 0 && !AllSpace(passwordHash)
        && (copy.purpose == AccountActivation || copy.purpose == PasswordReset)
        && (t.purpose == AccountActivation || t.purpose == PasswordReset)
        && t.userID == Some(user) && t.email == copy.email && t.email == c.email && t.consumedAt.Some?
        && (c.passwordSetAt.None? || c.passwordSetAt.value < t.createdAt)
  {
  }

  /** Without its row, its user or a credential a token sets nothing. */
  lemma AppliesToNobody(db: Db, id: nat, copy: AuthToken, passwordHash: string, now: int)
    requires id !in db.tokens || copy.userID.None? || copy.userID.value !in db.credentials
    ensures UpdatePasswordFromToken(db, id, copy, passwordHash, now).Err?
  {
  }

  // ---------- rehashes at login ----------

  /** Whose password an event writes, if it goes through. */
  predicate WritesPassword(ev: Event, user: nat) {
    (ev.ApplyToken? && ev.copy.userID == Some(user)) || (ev.Rehash? && ev.user == user)
  }

  /** Event w is the last before event j that wrote the user's password. */
  ghost predicate LastWrite(events: seq<Event>, w: nat, j: nat, user: nat) {
    && w < j <= |events| && WritesPassword(events[w], user) && Succeeds(events, w)
    && forall k :: w < k < j && WritesPassword(events[k], user) ==> !Succeeds(events, k)
  }

  lemma {:induction false} LastWriteExists(events: seq<Event>, i: nat, j: nat, user: nat) returns (w: nat)
    requires i < j <= |events| && WritesPassword(events[i], user) && Succeeds(events, i)
    ensures i <= w && LastWrite(events, w, j, user)
    decreases j - i
  {
    if k :| i < k < j && WritesPassword(events[k], user) && Succeeds(events, k) {
      w := LastWriteExists(events, k, j, user);
    } else {
      w := i;
    }
  }

  lemma WriteIs(db: Db, ev: Event, user: nat)
    requires WritesPassword(ev, user) && Outcome(db, ev).Ok?
    ensures var db2 := Outcome(db, ev).value;
      user in db2.credentials && db2.credentials[user].passwordSetAt == Some(ev.now)
      && db2.credentials[user].passwordHash == ev.passwordHash
  {
    PasswordSetIs(db, ev);
  }

  lemma OtherStepKeepsPassword(db: Db, ev: Event, user: nat)
    requires user in db.credentials && !WritesPassword(ev, user) && Outcome(db, ev).Ok?
    ensures var db2 := Outcome(db, ev).value;
      user in db2.credentials && db2.credentials[user].passwordSetAt == db.credentials[user].passwordSetAt
      && db2.credentials[user].passwordHash == db.credentials[user].passwordHash
  {
    if ev.ApplyToken? || ev.Rehash? { PasswordSetIs(db, ev); }
  }

  /** A user's password and its time are those of the last write, be it a reset or a rehash. */
  lemma {:induction false} PasswordIsOfLastWrite(events: seq<Event>, w: nat, j: nat, user: nat)
    requires LastWrite(events, w, j, user)
    ensures var db := Run(events[..j]);
      user in db.credentials && db.credentials[user].passwordSetAt == Some(events[w].now)
      && db.credentials[user].passwordHash == events[w].passwordHash
    decreases j
  {
    NextState(events, j - 1);
    if w == j - 1 {
      WriteIs(Run(events[..w]), events[w], user);
    } else {
      PasswordIsOfLastWrite(events, w, j - 1, user);
      if Succeeds(events, j - 1) { OtherStepKeepsPassword(Run(events[..j - 1]), events[j - 1], user); }
    }
  }

  /** Everything about applying this token is in order, its time against the password's aside. */
  predicate InOrder(db: Db, ev: Event) {
    && ev.ApplyToken? && ev.id != 0 && SetsPassword(ev.copy.purpose) && !AllSpace(ev.passwordHash)
    && ev.copy.userID.Some? && ev.copy.userID.value != 0 && ev.copy.userID.value in db.credentials
    && StoredTokenFits(db, ev.copy.userID.value, ev.id, ev.copy) && db.credentials[ev.copy.userID.value].email == ev.copy.email
  }

  lemma AppliesIff(db: Db, ev: Event)
    requires ev.ApplyToken?
    ensures Outcome(db, ev).Ok? <==>
            InOrder(db, ev) && IssuedAfterPassword(db.credentials[ev.copy.userID.value], db.tokens[ev.id])
  {
  }

  /** In every run, after a password was written, a token sets it again if and only if it was issued later than the time
      of the last write. */
  lemma SetsAgainIff(events: seq<Event>, i: nat, j: nat, user: nat) returns (w: nat)
    requires i < j < |events| && WritesPassword(events[i], user) && Succeeds(events, i)
    requires InOrder(Run(events[..j]), events[j]) && events[j].copy.userID == Some(user)
    ensures i <= w && LastWrite(events, w, j, user)
    ensures Succeeds(events, j) <==> events[w].now < Run(events[..j]).tokens[events[j].id].createdAt
  {
    w := LastWriteExists(events, i, j, user);
    PasswordIsOfLastWrite(events, w, j, user);
    AppliesIff(Run(events[..j]), events[j]);
  }

  /** So, after the last token that set the password, at time s, one issued at s or before sets it again if and only if
      the last write is a login rehash with a time before that issue. */
  lemma OlderTokenSetsAgainIff(events: seq<Event>, i: nat, j: nat, user: nat) returns (w: nat)
    requires i < j < |events| && events[i].ApplyToken? && events[i].copy.userID == Some(user) && Succeeds(events, i)
    requires forall k :: i < k < j && events[k].ApplyToken? && events[k].copy.userID == Some(user) ==> !Succeeds(events, k)
    requires InOrder(Run(events[..j]), events[j]) && events[j].copy.userID == Some(user)
    requires Run(events[..j]).tokens[events[j].id].createdAt <= events[i].now
    ensures i <= w && LastWrite(events, w, j, user)
    ensures Succeeds(events, j) <==> events[w].Rehash? && events[w].now < Run(events[..j]).tokens[events[j].id].createdAt
  {
    w := SetsAgainIff(events, i, j, user);
  }

  /** And whatever tokens came between: some rehash wrote a time before s. */
  lemma {:induction false} OlderTokenNeedsRehash(events: seq<Event>, i: nat, j: nat, user: nat) returns (k: nat)
    requires i < j < |events| && CausalClock(events)
    requires WritesPassword(events[i], user) && Succeeds(events, i)
    requires events[j].ApplyToken? && events[j].copy.userID == Some(user) && Succeeds(events, j)
    requires Run(events[..j]).tokens[events[j].id].createdAt <= events[i].now
    ensures i < k < j && events[k].Rehash? && events[k].user == user && Succeeds(events, k) && events[k].now < events[i].now
    decreases j
  {
    AppliesIff(Run(events[..j]), events[j]);
    var w := SetsAgainIff(events, i, j, user);
    if events[w].Rehash? {
      k := w;
    } else {
      AppliesIff(Run(events[..w]), events[w]);
      assert Run(events[..w]).tokens[events[w].id].createdAt <= events[w].now;
      k := OlderTokenNeedsRehash(events, i, w, user);
    }
  }

  /** In one step: a consumed sibling mid-hash passes after a rehash if and only if the rehash wrote a time before the
      sibling was issued, whatever a token had set before. */
  lemma RehashDecidesForTheSibling(db: Db, user: nat, rehash: string, at: int, id: nat, copy: AuthToken,
                                   passwordHash: string, now: int)
    requires user != 0 && !AllSpace(rehash) && !AllSpace(passwordHash) && user in db.credentials
    requires id != 0 && copy.userID == Some(user) && SetsPassword(copy.purpose) && StoredTokenFits(db, user, id, copy)
    requires db.credentials[user].email == copy.email
    ensures UpdatePassword(db, user, rehash, at, None).Ok?
    ensures UpdatePasswordFromToken(UpdatePassword(db, user, rehash, at, None).value, id, copy, passwordHash, now).Ok?
            <==> at < db.tokens[id].createdAt
  {
  }

  // ---------- a rehash that waits for a reset ----------

  function HashOf(c: char): string { seq(HASH_LENGTH, _ => c) }

  function ResetToken(c: char, createdAt: int): AuthToken {
    AuthToken(PasswordReset, Some(1), "m", HashOf(c), 100, None, createdAt)
  }

  const RESETS: set<Purpose> := {PasswordReset}

  const OLD := Credential("m", "old", None, 1, false)

  /** Token 1 is issued and consumed; a login reads the clock, 5, and waits for the row; token 2 is issued and consumed;
      token 1 is applied at 10; the login goes on and writes the rehashed old password; token 2 is applied. */
  const LATE_REHASH: seq<Event> :=
    [ NewCredential(1, OLD), IssueToken(1, ResetToken('a', 1)), ConsumeToken(HashOf('a'), RESETS, 2),
      IssueToken(2, ResetToken('b', 7)), ConsumeToken(HashOf('b'), RESETS, 8),
      ApplyToken(1, ResetToken('a', 1), "new", 10), Rehash(1, "old2", 5), ApplyToken(2, ResetToken('b', 7), "newer", 12) ]

  function Holds(a: Option<int>, b: Option<AuthToken>, c: Credential): Db {
    Db(map[1 := ResetToken('a', 1).(consumedAt := a)] + (if b.Some? then map[2 := b.value] else map[]), map[1 := c])
  }

  const AT_EIGHT := Some(ResetToken('b', 7).(consumedAt := Some(8)))

  lemma OneMore(k: nat)
    requires k < |LATE_REHASH|
    ensures Succeeds(LATE_REHASH, k) <==> Outcome(Run(LATE_REHASH[..k]), LATE_REHASH[k]).Ok?
    ensures Run(LATE_REHASH[..k + 1]) == if Succeeds(LATE_REHASH, k) then Outcome(Run(LATE_REHASH[..k]), LATE_REHASH[k]).value
                                         else Run(LATE_REHASH[..k])
  {
    NextState(LATE_REHASH, k);
  }

  lemma HashesDiffer()
    ensures HashOf('a') != HashOf('b')
  {
    assert HashOf('a')[0] != HashOf('b')[0];
  }

  lemma FirstConsumed()
    ensures Run(LATE_REHASH[..3]) == Holds(Some(2), None, OLD)
  {
    assert LATE_REHASH[..0] == [];
    OneMore(0);
    OneMore(1);
    OneMore(2);
    assert Run(LATE_REHASH[..2]) == Holds(None, None, OLD);
    assert Consumable(Holds(None, None, OLD), HashOf('a'), RESETS, 2) == {1};
  }

  lemma SecondIssued()
    ensures Run(LATE_REHASH[..4]) == Holds(Some(2), Some(ResetToken('b', 7)), OLD)
  {
    FirstConsumed();
    HashesDiffer();
    OneMore(3);
  }

  lemma BothConsumed()
    ensures Run(LATE_REHASH[..5]) == Holds(Some(2), AT_EIGHT, OLD)
  {
    SecondIssued();
    HashesDiffer();
    OneMore(4);
    assert Consumable(Holds(Some(2), Some(ResetToken('b', 7)), OLD), HashOf('b'), RESETS, 8) == {2};
  }

  lemma PasswordOnHolds(c: Credential, passwordHash: string, now: int, revokes: bool)
    ensures WithPassword(Holds(Some(2), AT_EIGHT, c), 1, passwordHash, now, revokes)
         == Holds(Some(2), AT_EIGHT, Credential(c.email, passwordHash, Some(now),
                                                if revokes then c.sessionVersion + 1 else c.sessionVersion, false))
  {
    assert Outstanding(Holds(Some(2), AT_EIGHT, c), 1) == {};
  }

  lemma Visible()
    ensures !AllSpace("old2") && !AllSpace("new") && !AllSpace("newer")
  {
    assert !IsSpace("old2"[0]) && !IsSpace("new"[0]) && !IsSpace("newer"[0]);
  }

  lemma AppliedOnHolds(c: Credential, ev: Event)
    requires ev in {LATE_REHASH[5], LATE_REHASH[7]} && c.email == "m"
    requires c.passwordSetAt.Some? ==> c.passwordSetAt.value < ev.copy.createdAt
    ensures Outcome(Holds(Some(2), AT_EIGHT, c), ev)
         == Ok(WithPassword(Holds(Some(2), AT_EIGHT, c), 1, ev.passwordHash, ev.now, true))
  {
    Visible();
    AppliesIff(Holds(Some(2), AT_EIGHT, c), ev);
    PasswordSetIs(Holds(Some(2), AT_EIGHT, c), ev);
  }

  const RESET := Credential("m", "new", Some(10), 2, false)

  lemma FirstApplied()
    ensures Run(LATE_REHASH[..6]) == Holds(Some(2), AT_EIGHT, RESET) && Succeeds(LATE_REHASH, 5)
  {
    BothConsumed();
    OneMore(5);
    AppliedOnHolds(OLD, LATE_REHASH[5]);
    PasswordOnHolds(OLD, "new", 10, true);
  }

  const UNDONE := Credential("m", "old2", Some(5), 2, false)

  lemma OldIsBack()
    ensures Run(LATE_REHASH[..7]) == Holds(Some(2), AT_EIGHT, UNDONE) && Succeeds(LATE_REHASH, 6)
  {
    FirstApplied();
    Visible();
    OneMore(6);
    PasswordOnHolds(RESET, "old2", 5, false);
  }

  lemma SecondApplied()
    ensures Succeeds(LATE_REHASH, 7)
  {
    OldIsBack();
    OneMore(7);
    AppliedOnHolds(UNDONE, LATE_REHASH[7]);
  }

  lemma LateRehashIsCausal()
    ensures CausalClock(LATE_REHASH)
  {
    BothConsumed();
    OldIsBack();
    forall k | 0 <= k < |LATE_REHASH| && LATE_REHASH[k].ApplyToken? ensures k == 5 || k == 7 { }
  }

  /** It happens with clocks that agree: the reset is undone, the old password is stored again with time 5, and the
      token of 7 then sets the password although token 1 had set it at 10. */
  lemma LateRehashUndoesReset()
    ensures CausalClock(LATE_REHASH)
    ensures Succeeds(LATE_REHASH, 5) && Succeeds(LATE_REHASH, 6) && Succeeds(LATE_REHASH, 7)
    ensures Run(LATE_REHASH[..7]).credentials[1].passwordHash == "old2"
    ensures Run(LATE_REHASH[..7]).tokens[2].createdAt <= LATE_REHASH[5].now
  {
    LateRehashIsCausal();
    FirstApplied();
    OldIsBack();
    SecondApplied();
  }

  // ---------- revoked sessions stay revoked ----------

  /** The claims of a session token that the middleware compares with the credential. */
  datatype Jwt = Jwt(user: nat, version: nat)

  predicate Accepted(db: Db, jwt: Jwt) {
    jwt.version != 0 && jwt.user in db.credentials && db.credentials[jwt.user].sessionVersion == jwt.version
  }

  predicate Revokes(ev: Event, user: nat) {
    (ev.ApplyToken? && ev.copy.userID == Some(user)) || ev == Bump(user)
  }

  /** A password set through a token and a bump raise the version; a login rehash keeps every session. */
  lemma VersionRisesExactlyOnRevocation(db: Db, ev: Event, user: nat)
    requires user in db.credentials && Outcome(db, ev).Ok?
    ensures user in Outcome(db, ev).value.credentials
    ensures Outcome(db, ev).value.credentials[user].sessionVersion
            == db.credentials[user].sessionVersion + (if Revokes(ev, user) then 1 else 0)
  {
  }

  /** A session token minted from a credential read at any time up to a revocation is rejected ever after. */
  lemma RevocationIsPermanent(events: seq<Event>, read: nat, i: nat, j: nat, jwt: Jwt)
    requires read <= i < j <= |events|
    requires Accepted(Run(events[..read]), jwt)
    requires Revokes(events[i], jwt.user) && Succeeds(events, i)
    ensures !Accepted(Run(events[..j]), jwt)
  {
    RunGrows(events, read, i);
    NextState(events, i);
    VersionRisesExactlyOnRevocation(Run(events[..i]), events[i], jwt.user);
    RunGrows(events, i + 1, j);
  }

  /** Without a revocation the session token stays valid, whatever else happens. */
  lemma {:induction false} SessionsSurviveEverythingElse(events: seq<Event>, read: nat, j: nat, jwt: Jwt)
    requires read <= j <= |events| && Accepted(Run(events[..read]), jwt)
    requires forall k :: read <= k < j && Revokes(events[k], jwt.user) ==> !Succeeds(events, k)
    ensures Accepted(Run(events[..j]), jwt)
    decreases j
  {
    if read < j {
      SessionsSurviveEverythingElse(events, read, j - 1, jwt);
      NextState(events, j - 1);
      if Succeeds(events, j - 1) {
        VersionRisesExactlyOnRevocation(Run(events[..j - 1]), events[j - 1], jwt.user);
      }
    }
  }
}
