/** What a scan fetches of a site (server/pkg/audit/fetcher.go, inaccessible.go and fetch_confirm.go): two channels, and a
    second try if neither is accessible. */
module Fetching {
  import opened Wrappers
  import opened ByteStrings

  datatype FetchStatus = FetchClean | FetchUnreachable | FetchError

  /** `read` is what was read of the body, all of which goes into the content hash; `body` is what was kept of it. */
  datatype Fetch = Fetch(read: Bytes, body: Bytes, title: Bytes, finalURL: Bytes, statusCode: int, status: FetchStatus,
                         truncated: bool, privateIP: bool)

  /** A channel that was not fetched has an empty scheme. */
  datatype Channel = Channel(scheme: Bytes, fetch: Fetch)

  /** `summary` says why the channels are inaccessible. */
  datatype Dual = Dual(https: Channel, http: Channel, summary: Bytes)

  datatype Probe = Probe(primary: Dual, first: Dual, second: Option<Dual>, skipRuleMatch: bool)

  const HTTP: Bytes := [0x68, 0x74, 0x74, 0x70]
  const HTTPS: Bytes := [0x68, 0x74, 0x74, 0x70, 0x73]

  predicate StatusInaccessible(code: int) {
    code >= 500 || (code >= 400 && code != 401 && code != 404 && code != 429)
  }

  predicate ChannelInaccessible(f: Fetch) {
    match f.status
    case FetchUnreachable => true
    case FetchError => !f.privateIP
    case FetchClean => StatusInaccessible(f.statusCode)
  }

  predicate SiteUnreachable(d: Dual) { ChannelInaccessible(d.https.fetch) && ChannelInaccessible(d.http.fetch) }

  predicate HasPrivateIP(d: Dual) { d.https.fetch.privateIP || d.http.fetch.privateIP }

  /** FetchDualConfirmed, where `second` is what a second try would return. */
  function Confirm(first: Dual, second: Dual): Probe {
    if !SiteUnreachable(first) || HasPrivateIP(first) then Probe(first, first, None, false)
    else if !SiteUnreachable(second) then Probe(second, first, Some(second), true)
    else Probe(first, first, Some(second), false)
  }

  predicate ConfirmedUnreachable(p: Probe) {
    SiteUnreachable(p.first) && p.second.Some? && SiteUnreachable(p.second.value)
  }

  /** A second try decides if the first found the site inaccessible, and not because of a private address: it is what
      is matched if it finds the site accessible, though no rule is then, and otherwise confirms that it is not. */
  lemma ConfirmMeans(first: Dual, second: Dual)
    ensures var (p, again) := (Confirm(first, second), SiteUnreachable(first) && !first.https.fetch.privateIP && !first.http.fetch.privateIP);
      && (ConfirmedUnreachable(p) <==> again && SiteUnreachable(second))
      && (p.skipRuleMatch <==> again && !SiteUnreachable(second))
      && p.primary == (if p.skipRuleMatch then second else first)
      && p.first == first && p.second == (if again then Some(second) else None)
  {
  }

  /** CombinedContentHash covers content hashes and fetch statuses; equal hashes are taken to mean equal inputs. */
  datatype Hash = Hash(httpsRead: Bytes, httpRead: Bytes, httpsStatus: FetchStatus, httpStatus: FetchStatus)

  function CombinedContentHash(d: Dual): Hash {
    Hash(d.https.fetch.read, d.http.fetch.read, d.https.fetch.status, d.http.fetch.status)
  }

  // ---------- fetched pages ----------

  /** The size limit of bodies, the title of a body, which an empty one has not, and the URLs that a request can have in
      the end, after redirects. */
  datatype Fetcher = Fetcher(maxBody: nat, titleOf: Bytes -> Bytes, urls: Bytes -> bool)

  /** The status codes of a response that is not informational, and of one that switches protocols. */
  predicate FinalCode(code: int) { code == 101 || 0 <= code < 100 || 200 <= code <= 999 }

  /** A result that the fetcher can return: body, title and truncation come from what was read, every response has the
      URL of its request and a final status, and without a response there is nothing. */
  predicate Fetched(fetcher: Fetcher, f: Fetch) {
    && f.truncated == (|f.read| > fetcher.maxBody)
    && f.body == (if f.truncated then f.read[..fetcher.maxBody] else f.read)
    && f.title == (if f.read == [] then [] else fetcher.titleOf(f.read))
    && (f.truncated ==> f.status == FetchError)
    && (f.privateIP ==> f.status == FetchError && !f.truncated)
    && (if f.status == FetchClean || f.truncated then fetcher.urls(f.finalURL) && FinalCode(f.statusCode)
        else f.read == [] && f.finalURL == [] && f.statusCode == 0)
  }

  predicate FetchedDual(fetcher: Fetcher, d: Dual) {
    d.https.scheme == HTTPS && d.http.scheme == HTTP && Fetched(fetcher, d.https.fetch) && Fetched(fetcher, d.http.fetch)
  }

  /** Pages with the same hash have the same bodies and titles. */
  lemma HashDecidesTexts(fetcher: Fetcher, a: Dual, b: Dual)
    requires FetchedDual(fetcher, a) && FetchedDual(fetcher, b) && CombinedContentHash(a) == CombinedContentHash(b)
    ensures a.https.fetch.body == b.https.fetch.body && a.https.fetch.title == b.https.fetch.title
    ensures a.http.fetch.body == b.http.fetch.body && a.http.fetch.title == b.http.fetch.title
    ensures a.https.fetch.truncated == b.https.fetch.truncated && a.http.fetch.truncated == b.http.fetch.truncated
  {
  }
}
