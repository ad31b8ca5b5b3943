/** In-process deduplication of scan requests (server/internal/service/audit_enqueue.go:39-66). Times are seconds. */
module AuditDedups {
  const DEFAULT_TTL := 5 * 60

  datatype Offer = Offer(key: string, ttl: int, at: int)

  function Ttl(o: Offer): int { if o.ttl <= 0 then DEFAULT_TTL else o.ttl }

  function Expiry(o: Offer): int { o.at + Ttl(o) }

  function Purged(items: map<string, int>, now: int): map<string, int> {
    map k | k in items && items[k] >= now :: items[k]
  }

  predicate Admits(items: map<string, int>, o: Offer) { o.key in items ==> o.at >= items[o.key] }

  function Handle(items: map<string, int>, o: Offer): map<string, int> {
    var kept := Purged(items, o.at);
    if Admits(kept, o) then kept[o.key := Expiry(o)] else kept
  }

  class InprocAuditDedup {
    var items: map<string, int>

    constructor ()
      ensures items == map[]
    {
      items := map[];
    }

    method TryEnqueue(key: string, ttl: int, now: int) returns (ok: bool)
      modifies this
      ensures items == Handle(old(items), Offer(key, ttl, now))
      ensures ok == Admits(old(items), Offer(key, ttl, now))
    {
      var span := if ttl <= 0 then DEFAULT_TTL else ttl;
      var keys := items.Keys;
      while keys != {}
        invariant keys <= old(items).Keys
        invariant forall k :: k in items <==> k in old(items) && (k in keys || old(items)[k] >= now)
        invariant forall k :: k in items ==> items[k] == old(items)[k]
        decreases |keys|
      {
        var k :| k in keys;
        keys := keys - {k};
        if now > items[k] { items := items - {k}; }
      }
      assert items == Purged(old(items), now);
      if key in items && now < items[key] { return false; }
      items := items[key := now + span];
      ok := true;
    }
  }

  /** A request purges exactly the entries that have expired; if it is accepted, its own entry is renewed, and all others
      that have not expired stay. */
  lemma HandlePurges(items: map<string, int>, o: Offer)
    ensures var t := Handle(items, o);
      && (forall k :: k in t && k != o.key ==> k in items && t[k] == items[k] >= o.at)
      && (forall k :: k in items && k != o.key && items[k] >= o.at ==> k in t)
      && (if Admits(items, o) then o.key in t && t[o.key] == o.at + (if o.ttl <= 0 then 300 else o.ttl)
          else o.key in items && o.key in t && t[o.key] == items[o.key] > o.at)
  {
  }

  // ---------- whole runs ----------

  function Run(offers: seq<Offer>): map<string, int> {
    if offers == [] then map[] else Handle(Run(offers[..|offers| - 1]), offers[|offers| - 1])
  }

  predicate Accepted(offers: seq<Offer>, j: nat)
    requires j < |offers|
  {
    Admits(Run(offers[..j]), offers[j])
  }

  predicate Timed(offers: seq<Offer>) {
    forall i, j :: 0 <= i < j < |offers| ==> offers[i].at <= offers[j].at
  }

  /** An accepted offer has expired before t, or the table says so of a time no earlier than its expiry. */
  predicate Kept(items: map<string, int>, o: Offer, t: int) {
    Expiry(o) < t || (o.key in items && Expiry(o) <= items[o.key])
  }

  ghost predicate Remembers(offers: seq<Offer>, n: nat, t: int)
    requires n <= |offers|
  {
    forall i :: 0 <= i < n && Accepted(offers, i) ==> Kept(Run(offers[..n]), offers[i], t)
  }

  /** Every entry is the expiry of an accepted offer. */
  ghost predicate Genuine(offers: seq<Offer>, n: nat, k: string, expiry: int)
    requires n <= |offers|
  {
    exists i :: 0 <= i < n && Accepted(offers, i) && offers[i].key == k && expiry == Expiry(offers[i])
  }

  lemma HandleKeeps(items: map<string, int>, o: Offer, new_: Offer)
    requires Kept(items, o, new_.at)
    ensures Kept(Handle(items, new_), o, new_.at)
    ensures Admits(items, new_) ==> Kept(Handle(items, new_), new_, new_.at)
  {
  }

  lemma RunOfPrefix(offers: seq<Offer>, n: nat)
    requires 0 < n <= |offers|
    ensures Run(offers[..n]) == Handle(Run(offers[..n - 1]), offers[n - 1])
  {
    assert offers[..n][..n - 1] == offers[..n - 1];
  }

  lemma {:induction false} RunRemembers(offers: seq<Offer>, n: nat)
    requires Timed(offers) && 0 < n <= |offers|
    ensures Remembers(offers, n, offers[n - 1].at)
    decreases n
  {
    var o, before := offers[n - 1], Run(offers[..n - 1]);
    RunOfPrefix(offers, n);
    if n > 1 { RunRemembers(offers, n - 1); }
    forall i | 0 <= i < n && Accepted(offers, i) ensures Kept(Run(offers[..n]), offers[i], o.at) {
      if i < n - 1 {
        assert Kept(before, offers[i], offers[n - 2].at) && offers[n - 2].at <= o.at;
        HandleKeeps(before, offers[i], o);
      }
    }
  }

  lemma {:induction false} RunIsGenuine(offers: seq<Offer>, n: nat, k: string)
    requires n <= |offers| && k in Run(offers[..n])
    ensures Genuine(offers, n, k, Run(offers[..n])[k])
    decreases n
  {
    if n > 0 {
      RunOfPrefix(offers, n);
      if Accepted(offers, n - 1) && offers[n - 1].key == k {
        assert Run(offers[..n])[k] == Expiry(offers[n - 1]);
      } else {
        RunIsGenuine(offers, n - 1, k);
      }
    }
  }

  /** A request is refused if and only if an earlier accepted one for the same key has not expired. */
  lemma AcceptedIffNoneIsAlive(offers: seq<Offer>, j: nat)
    requires Timed(offers) && j < |offers|
    ensures Accepted(offers, j) <==>
      forall i :: 0 <= i < j && Accepted(offers, i) && offers[i].key == offers[j].key ==>
        offers[i].at + (if offers[i].ttl <= 0 then 300 else offers[i].ttl) <= offers[j].at
  {
    var o, items := offers[j], Run(offers[..j]);
    if Accepted(offers, j) {
      forall i | 0 <= i < j && Accepted(offers, i) && offers[i].key == o.key ensures Expiry(offers[i]) <= o.at {
        RunRemembers(offers, j);
        assert Kept(items, offers[i], offers[j - 1].at);
      }
    } else {
      RunIsGenuine(offers, j, o.key);
    }
  }
}
