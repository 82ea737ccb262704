/** The offline cache of the site's service worker: the storage of named,
    versioned buckets, and the `install`, `activate` and `fetch` handlers
    that fill it, prune it and serve from it. */
module ServiceWorker {
  import opened Wrappers

  /** The version string naming the current bucket. */
  const CacheName := "austen-academy-v2.0.0"

  /** The assets `install` stores: the site's own pages, styles, script,
      images and manifest, then the two cross-origin stylesheets. */
  const UrlsToCache: seq<string> := [
    "/",
    "/index.html",
    "/styles.css",
    "/script.js",
    "/Logo.jpeg",
    "/Austen Academy Students in Kénitra.png",
    "/manifest.json",
    "https://fonts.googleapis.com/css2?family=Montserrat:wght@300;400;500;600;700&display=swap",
    "https://cdnjs.cloudflare.com/ajax/libs/font-awesome/6.4.0/css/all.min.css"
  ]

  /** The document every navigation falls back to when offline. */
  const OfflinePage := "/index.html"

  /** `Response.type` of the Fetch standard. */
  datatype ResponseType = Basic | Cors | Opaque | OpaqueRedirect | ErrorType

  datatype Response = Response(status: int, kind: ResponseType, body: string)

  /** A request as the handlers see it: its URL, its HTTP method (`verb`) and its
      `destination` ("document" for a page navigation). */
  datatype Request = Request(url: string, verb: string, destination: string)

  /** What `caches.match('/index.html')` looks up: a GET for that URL. */
  function GetRequest(url: string): Request {
    Request(url, "GET", "")
  }

  /** The outcome of one `fetch()`: a response of any status, or a rejection. */
  datatype NetResult = Fetched(response: Response) | NetworkFailure

  /** What `cache.addAll` accepts from the network: an ok status other than 206
      (partial content); a failed fetch or an error response rejects it. */
  predicate Loadable(n: NetResult) {
    n.Fetched? && 200 <= n.response.status <= 299 && n.response.status != 206
  }

  /** What the `fetch` handler stores: status 200 from the site's own origin. */
  predicate Cacheable(r: Response) {
    r.status == 200 && r.kind == Basic
  }

  type Bucket = map<string, Response>

  predicate AllLoadable(urls: seq<string>, net: string -> NetResult) {
    forall i :: 0 <= i < |urls| ==> Loadable(net(urls[i]))
  }

  /** The entries `cache.addAll(urls)` writes: each URL with a loadable
      answer, mapped to that answer. */
  function Downloaded(urls: seq<string>, net: string -> NetResult): (b: Bucket)
    ensures forall u :: u in b <==> u in urls && Loadable(net(u))
  {
    map u | u in urls && Loadable(net(u)) :: net(u).response
  }

  /** One more URL extends the downloads by its answer, if that is loadable. */
  lemma DownloadedStep(urls: seq<string>, i: nat, net: string -> NetResult)
    requires i < |urls|
    ensures AllLoadable(urls[..i + 1], net) <==> AllLoadable(urls[..i], net) && Loadable(net(urls[i]))
    ensures Downloaded(urls[..i + 1], net) ==
      if Loadable(net(urls[i])) then Downloaded(urls[..i], net)[urls[i] := net(urls[i]).response]
      else Downloaded(urls[..i], net)
  {
    assert urls[..i + 1] == urls[..i] + [urls[i]];
    assert forall k :: 0 <= k < i ==> urls[..i + 1][k] == urls[..i][k];
  }

  /** After a successful `addAll`, every listed URL maps to its download and
      every other entry of the bucket is as it was. */
  lemma AddAllStoresEveryUrl(before: Bucket, urls: seq<string>, net: string -> NetResult)
    requires AllLoadable(urls, net)
    ensures forall u :: u in urls ==> u in before + Downloaded(urls, net)
                                      && (before + Downloaded(urls, net))[u] == net(u).response
    ensures forall u :: u in before && u !in urls ==> (before + Downloaded(urls, net))[u] == before[u]
  {
    forall u | u in urls ensures Loadable(net(u)) {
      var i :| 0 <= i < |urls| && urls[i] == u;
    }
  }

  // ------------------------------------------------- lookups, pure

  /** `caches.match(url)` over buckets listed in creation order: the entry
      of the first bucket that holds the URL. */
  function MatchIn(names: seq<string>, buckets: map<string, Bucket>, url: string): (r: Option<Response>)
    ensures r.Some? <==> exists i :: 0 <= i < |names| && names[i] in buckets && url in buckets[names[i]]
    ensures r.Some? ==> exists i :: 0 <= i < |names| && names[i] in buckets && url in buckets[names[i]]
                                     && buckets[names[i]][url] == r.value
  {
    if names == [] then None
    else if names[0] in buckets && url in buckets[names[0]] then Some(buckets[names[0]][url])
    else
      var r := MatchIn(names[1..], buckets, url);
      assert forall i :: 1 <= i < |names| ==> names[i] == names[1..][i - 1];
      r
  }

  /** The entry found is that of the first listed bucket holding the URL:
      every bucket listed before it lacks the URL. */
  lemma {:induction false} MatchInFirst(names: seq<string>, buckets: map<string, Bucket>, url: string)
    returns (i: nat)
    requires MatchIn(names, buckets, url).Some?
    ensures i < |names| && names[i] in buckets && url in buckets[names[i]]
    ensures MatchIn(names, buckets, url) == Some(buckets[names[i]][url])
    ensures forall j :: 0 <= j < i ==> names[j] !in buckets || url !in buckets[names[j]]
  {
    if names[0] in buckets && url in buckets[names[0]] {
      i := 0;
    } else {
      var k := MatchInFirst(names[1..], buckets, url);
      i := k + 1;
      assert forall j :: 1 <= j <= i ==> names[j] == names[1..][j - 1];
    }
  }

  /** With a single bucket left, a match is a plain lookup in it. */
  lemma MatchInSingleBucket(b: Bucket, url: string)
    ensures MatchIn([CacheName], map[CacheName := b], url) == if url in b then Some(b[url]) else None
  {
  }

  /** Storing into a listed bucket makes the URL matchable; it is matched to
      the new response unless an older bucket already holds that URL. */
  lemma {:induction false} MatchAfterPut(names: seq<string>, buckets: map<string, Bucket>, name: string,
                                         url: string, r: Response)
    requires name in names && name in buckets
    ensures var after := buckets[name := buckets[name][url := r]];
      && MatchIn(names, after, url).Some?
      && ((forall i :: 0 <= i < |names| && names[i] != name ==> names[i] !in buckets || url !in buckets[names[i]])
          ==> MatchIn(names, after, url) == Some(r))
  {
    var after := buckets[name := buckets[name][url := r]];
    if names[0] != name {
      assert name in names[1..];
      MatchAfterPut(names[1..], buckets, name, url, r);
      assert forall i :: 1 <= i < |names| ==> names[i] == names[1..][i - 1];
    }
  }

  /** The names of `names` that are not in `gone`, in their order. */
  function Keep(names: seq<string>, gone: set<string>): (r: seq<string>)
    ensures forall n :: n in r <==> n in names && n !in gone
    ensures |r| <= |names|
  {
    if names == [] then []
    else if names[0] in gone then Keep(names[1..], gone)
    else [names[0]] + Keep(names[1..], gone)
  }

  /** Dropping names works piecewise, so the survivors keep their order. */
  lemma {:induction false} KeepConcat(a: seq<string>, b: seq<string>, gone: set<string>)
    ensures Keep(a + b, gone) == Keep(a, gone) + Keep(b, gone)
  {
    if a == [] {
      assert a + b == b;
    } else {
      assert (a + b)[0] == a[0] && (a + b)[1..] == a[1..] + b;
      KeepConcat(a[1..], b, gone);
    }
  }

  predicate Distinct(names: seq<string>) {
    forall i, j :: 0 <= i < j < |names| ==> names[i] != names[j]
  }

  /** Dropping names keeps the rest distinct. */
  lemma {:induction false} KeepDistinct(names: seq<string>, gone: set<string>)
    requires Distinct(names)
    ensures Distinct(Keep(names, gone))
  {
    if names != [] {
      KeepDistinct(names[1..], gone);
      assert names[0] !in names[1..];
    }
  }

  /** Dropping nothing keeps the list. */
  lemma {:induction false} KeepNothing(names: seq<string>)
    ensures Keep(names, {}) == names
  {
    if names != [] {
      KeepNothing(names[1..]);
    }
  }

  /** Dropping two sets of names one after the other drops their union. */
  lemma {:induction false} KeepTwice(names: seq<string>, a: set<string>, b: set<string>)
    ensures Keep(Keep(names, a), b) == Keep(names, a + b)
  {
    if names != [] {
      KeepTwice(names[1..], a, b);
    }
  }

  /** Dropping every name but `c` from a list without repeats leaves `c` alone, if present. */
  lemma {:induction false} KeepOnly(names: seq<string>, gone: set<string>, c: string)
    requires Distinct(names) && c !in gone
    requires forall n :: n in names ==> n in gone || n == c
    ensures Keep(names, gone) == if c in names then [c] else []
  {
    if names != [] {
      assert forall n :: n in names[1..] ==> n in names;
      KeepOnly(names[1..], gone, c);
      if names[0] == c {
        assert c !in names[1..];
      }
    }
  }

  /** The state of the `activate` loop after the first `i` listed names were
      visited: those other than the current version are in `gone`, and gone
      from the list and from the buckets; the remaining buckets are as they
      were in `original`. */
  ghost predicate PrunedUpTo(listed: seq<string>, i: nat, gone: set<string>, original: map<string, Bucket>,
                       names: seq<string>, buckets: map<string, Bucket>)
  {
    && i <= |listed|
    && (forall n :: n in gone <==> n in listed[..i] && n != CacheName)
    && names == Keep(listed, gone)
    && (forall n :: n in buckets <==> n in original && n !in gone)
    && (forall n :: n in buckets ==> buckets[n] == original[n])
  }

  /** Visiting one more name keeps the current version and deletes any other. */
  lemma PruneAdvances(listed: seq<string>, i: nat, gone: set<string>, original: map<string, Bucket>,
                      names: seq<string>, buckets: map<string, Bucket>)
    requires i < |listed| && PrunedUpTo(listed, i, gone, original, names, buckets)
    ensures var n := listed[i];
      if n == CacheName then PrunedUpTo(listed, i + 1, gone, original, names, buckets)
      else PrunedUpTo(listed, i + 1, gone + {n}, original, Keep(names, {n}), buckets - {n})
  {
    var n := listed[i];
    assert listed[..i + 1] == listed[..i] + [n];
    if n != CacheName {
      var gone' := gone + {n};
      assert Keep(names, {n}) == Keep(listed, gone') by {
        KeepTwice(listed, gone, {n});
      }
      assert forall m :: m in gone' <==> m in listed[..i + 1] && m != CacheName;
      assert forall m :: m in buckets - {n} <==> m in original && m !in gone';
    }
  }

  /** Once every listed name but the current one is gone, the current bucket
      (if it existed) is all that remains, with its contents. */
  lemma PrunedToCurrent(listed: seq<string>, gone: set<string>, before: map<string, Bucket>,
                        after: map<string, Bucket>)
    requires Distinct(listed) && forall n :: n in before <==> n in listed
    requires forall n :: n in gone <==> n in listed && n != CacheName
    requires forall n :: n in after <==> n in before && n !in gone
    requires forall n :: n in after ==> after[n] == before[n]
    ensures Keep(listed, gone) == if CacheName in before then [CacheName] else []
    ensures after == if CacheName in before then map[CacheName := before[CacheName]] else map[]
  {
    KeepOnly(listed, gone, CacheName);
    if CacheName in before {
      assert after.Keys == {CacheName};
    } else {
      assert after.Keys == {};
    }
  }

  // ------------------------------------------------- the cache storage

  /** `self.caches`: the buckets by name, the names in creation order, and
      every URL the worker asked the network for. */
  class CacheStorage {
    var names: seq<string>
    var buckets: map<string, Bucket>
    var fetchLog: seq<string>

    ghost predicate Valid()
      reads this
    {
      Distinct(names) && forall n :: n in buckets <==> n in names
    }

    constructor ()
      ensures Valid() && names == [] && buckets == map[] && fetchLog == []
    {
      names, buckets, fetchLog := [], map[], [];
    }

    /** `caches.match(request)`: only GET requests match. */
    function Match(req: Request): (r: Option<Response>)
      reads this
      ensures req.verb != "GET" ==> r == None
    {
      if req.verb != "GET" then None else MatchIn(names, buckets, req.url)
    }

    /** `caches.open(name)`: the bucket of that name, created empty and listed
        last if it does not exist yet. */
    method Open(name: string)
      requires Valid()
      modifies this
      ensures Valid() && name in buckets && fetchLog == old(fetchLog)
      ensures name in old(buckets) ==> names == old(names) && buckets == old(buckets)
      ensures name !in old(buckets) ==> names == old(names) + [name] && buckets == old(buckets)[name := map[]]
    {
      if name !in buckets {
        names := names + [name];
        buckets := buckets[name := map[]];
      }
    }

    /** `caches.delete(name)`. */
    method Delete(name: string)
      requires Valid()
      modifies this
      ensures Valid() && fetchLog == old(fetchLog)
      ensures names == Keep(old(names), {name}) && buckets == old(buckets) - {name}
    {
      KeepDistinct(names, {name});
      names := Keep(names, {name});
      buckets := buckets - {name};
    }

    /** `cache.addAll(urls)` on the bucket `name`, where `net` answers each
        request: every URL is requested, and the bucket receives all the
        answers or, if one of them is not loadable, none. */
    method AddAll(name: string, urls: seq<string>, net: string -> NetResult) returns (ok: bool)
      requires Valid() && name in buckets
      modifies this
      ensures Valid() && names == old(names) && fetchLog == old(fetchLog) + urls
      ensures ok <==> AllLoadable(urls, net)
      ensures buckets == old(buckets)[name := if ok then old(buckets)[name] + Downloaded(urls, net) else old(buckets)[name]]
    {
      var staged: Bucket := map[];
      ok := true;
      for i := 0 to |urls|
        invariant fetchLog == old(fetchLog) + urls[..i]
        invariant ok <==> AllLoadable(urls[..i], net)
        invariant staged == Downloaded(urls[..i], net)
        invariant buckets == old(buckets) && names == old(names)
      {
        var u := urls[i];
        var answer := net(u);
        DownloadedStep(urls, i, net);
        fetchLog := fetchLog + [u];
        assert urls[..i + 1] == urls[..i] + [u];
        if Loadable(answer) {
          staged := staged[u := answer.response];
        } else {
          ok := false;
        }
      }
      assert urls[..|urls|] == urls;
      if ok {
        buckets := buckets[name := buckets[name] + staged];
      }
    }

    /** The `install` handler: open the current bucket, then add every asset
        of the list to it. */
    method Install(net: string -> NetResult) returns (ok: bool)
      requires Valid()
      modifies this
      ensures Valid() && CacheName in buckets
      ensures fetchLog == old(fetchLog) + UrlsToCache
      ensures ok <==> AllLoadable(UrlsToCache, net)
      ensures names == if CacheName in old(buckets) then old(names) else old(names) + [CacheName]
      ensures var before := if CacheName in old(buckets) then old(buckets)[CacheName] else map[];
        buckets == old(buckets)[CacheName := if ok then before + Downloaded(UrlsToCache, net) else before]
    {
      Open(CacheName);
      ok := AddAll(CacheName, UrlsToCache, net);
    }

    /** One round of the `activate` loop: delete the `i`-th listed name unless
        it is the current version. */
    method PruneStep(listed: seq<string>, i: nat, ghost gone: set<string>, ghost original: map<string, Bucket>)
      returns (ghost gone': set<string>)
      requires i < |listed| && Valid() && PrunedUpTo(listed, i, gone, original, names, buckets)
      modifies this
      ensures Valid() && PrunedUpTo(listed, i + 1, gone', original, names, buckets) && fetchLog == old(fetchLog)
    {
      var n := listed[i];
      PruneAdvances(listed, i, gone, original, names, buckets);
      if n == CacheName {
        gone' := gone;
      } else {
        Delete(n);
        gone' := gone + {n};
      }
    }

    /** The `activate` handler: list the bucket names, then delete each one
        that is not the current version. */
    method Activate()
      requires Valid()
      modifies this
      ensures Valid() && fetchLog == old(fetchLog)
      ensures names == if CacheName in old(buckets) then [CacheName] else []
      ensures buckets == if CacheName in old(buckets) then map[CacheName := old(buckets)[CacheName]] else map[]
    {
      var listed := names;
      ghost var gone: set<string> := {};
      KeepNothing(listed);
      for i := 0 to |listed|
        invariant Valid() && PrunedUpTo(listed, i, gone, old(buckets), names, buckets)
        invariant fetchLog == old(fetchLog)
      {
        gone := PruneStep(listed, i, gone, old(buckets));
      }
      assert listed[..|listed|] == listed;
      PrunedToCurrent(listed, gone, old(buckets), buckets);
    }

    /** The `fetch` handler for `req`, with `reply` what the network would
        answer. A cached match is served as it is. Otherwise the network is
        asked; an answer that is not a 200 from the site's own origin is
        passed through untouched, and a 200 one is stored in the current
        bucket (GET requests only) and passed through. When the network
        fails, a page navigation gets the cached start page, if any, and any
        other request gets nothing. */
    method Fetch(req: Request, reply: NetResult) returns (res: Option<Response>)
      requires Valid()
      modifies this
      ensures Valid()
      ensures old(Match(req)).Some? ==>
        res == old(Match(req)) && names == old(names) && buckets == old(buckets) && fetchLog == old(fetchLog)
      ensures old(Match(req)).None? ==> fetchLog == old(fetchLog) + [req.url]
      ensures old(Match(req)).None? && reply.Fetched? && !Cacheable(reply.response) ==>
        res == Some(reply.response) && names == old(names) && buckets == old(buckets)
      ensures old(Match(req)).None? && reply.Fetched? && Cacheable(reply.response) ==>
        && res == Some(reply.response)
        && names == (if CacheName in old(buckets) then old(names) else old(names) + [CacheName])
        && var before := if CacheName in old(buckets) then old(buckets)[CacheName] else map[];
           buckets == old(buckets)[CacheName := if req.verb == "GET" then before[req.url := reply.response] else before]
      ensures old(Match(req)).None? && reply.NetworkFailure? ==>
        && res == (if req.destination == "document" then old(Match(GetRequest(OfflinePage))) else None)
        && names == old(names) && buckets == old(buckets)
    {
      var hit := Match(req);
      if hit.Some? {
        return hit;
      }
      fetchLog := fetchLog + [req.url];
      match reply {
        case Fetched(response) =>
          if !Cacheable(response) {
            return Some(response);
          }
          Open(CacheName);
          if req.verb == "GET" {
            buckets := buckets[CacheName := buckets[CacheName][req.url := response]];
          }
          return Some(response);
        case NetworkFailure =>
          if req.destination == "document" {
            return Match(GetRequest(OfflinePage));
          }
          return None;
      }
    }
  }

  /** A visitor who was online once and then lost the network: after an
      install whose every download succeeded and the activation that follows,
      each page navigation to a cached asset is served from the cache without
      touching the network, and a navigation to any other page gets the
      start page. */
  method OfflineAfterInstall(net: string -> NetResult, url: string) returns (served: Option<Response>)
    requires forall i :: 0 <= i < |UrlsToCache| ==> Loadable(net(UrlsToCache[i]))
    ensures url in UrlsToCache ==> net(url).Fetched? && served == Some(net(url).response)
    ensures url !in UrlsToCache ==> net(OfflinePage).Fetched? && served == Some(net(OfflinePage).response)
  {
    var storage := new CacheStorage();
    var ok := storage.Install(net);
    storage.Activate();
    MatchInSingleBucket(storage.buckets[CacheName], url);
    MatchInSingleBucket(storage.buckets[CacheName], OfflinePage);
    assert OfflinePage in UrlsToCache;
    served := storage.Fetch(Request(url, "GET", "document"), NetworkFailure);
  }

  /** After a GET that nothing matched was stored by the `fetch` handler
      (opening the current bucket if need be), the URL matches what was
      stored. */
  lemma MatchAfterStore(names: seq<string>, buckets: map<string, Bucket>, url: string, r: Response)
    requires forall n :: n in buckets <==> n in names
    requires MatchIn(names, buckets, url).None?
    ensures var listed := if CacheName in buckets then names else names + [CacheName];
      var before := if CacheName in buckets then buckets[CacheName] else map[];
      MatchIn(listed, buckets[CacheName := before[url := r]], url) == Some(r)
  {
    var listed := if CacheName in buckets then names else names + [CacheName];
    var before := if CacheName in buckets then buckets[CacheName] else map[];
    var withBucket := buckets[CacheName := before];
    forall i | 0 <= i < |listed| && listed[i] != CacheName
      ensures listed[i] !in withBucket || url !in withBucket[listed[i]]
    {
      assert listed[i] == names[i];
    }
    MatchAfterPut(listed, withBucket, CacheName, url, r);
  }

  /** Cache-first in action: a GET that nothing matched is fetched once and
      stored, and asking again, with the network now down, is served the same
      response from the cache without a second request. */
  method FetchThenRevisit(storage: CacheStorage, req: Request, r: Response)
    returns (first: Option<Response>, second: Option<Response>)
    requires storage.Valid() && req.verb == "GET" && storage.Match(req).None? && Cacheable(r)
    modifies storage
    ensures first == Some(r) && second == Some(r)
    ensures storage.fetchLog == old(storage.fetchLog) + [req.url]
    ensures storage.Valid()
    ensures storage.names == if CacheName in old(storage.buckets) then old(storage.names) else old(storage.names) + [CacheName]
    ensures var before := if CacheName in old(storage.buckets) then old(storage.buckets)[CacheName] else map[];
      storage.buckets == old(storage.buckets)[CacheName := before[req.url := r]]
  {
    MatchAfterStore(storage.names, storage.buckets, req.url, r);
    first := storage.Fetch(req, Fetched(r));
    second := storage.Fetch(req, NetworkFailure);
  }
}
