/** The site's service worker: the URL classifier, the fetch dispatch, the three cache
    policies (cache-first with a time-to-live read from the `date` header, network-first
    racing a timeout, stale-while-revalidate), install / activate, and the message protocol.

    The browser's CacheStorage is a map from cache name to a map from request URL to the
    stored response, held in the class `Worker`.  The network is an oracle parameter
    (`NetOutcome`), time is an integer number of milliseconds, and every asynchronous step
    is taken in program order. */
module ServiceWorker {
  import opened Js

  const CacheName: string := "heritage-site-v1.0.0"
  const OfflinePage: string := "offline.html"

  /** cacheFirst's default time-to-live and the two overrides used by the dispatch. */
  const OneHour: int := 3600000
  const OneDay: int := 86400000
  const ThirtyDays: int := 2592000000
  /** networkFirst's default timeout. */
  const NetworkTimeout: int := 3000

  const Static: seq<string> := [
    "/", "/index.html", "/about.html", "/single-project.html", "/blog-post.html",
    "/contacts.html", "/privacy-policy.html", "/search-results.html",
    "/css/bootstrap.css", "/css/fonts.css", "/css/style.css", "/css/local-fonts.css",
    "/css/performance.css", "/js/core.min.js", "/js/script.js", "/js/font-fallback.js",
    "/js/performance-optimizer.js", "/images/favicon.ico", "/images/logo-default-152x94.png"]

  const ImagePatterns: seq<string> := [
    "/images/", "https://www.ihchina.cn/Uploads/Picture/", "https://bkimg.cdn.bcebos.com/",
    "https://vodpub6.v.news.cn/"]

  const FontPatterns: seq<string> := [
    "https://fonts.googleapis.com/", "https://fonts.gstatic.com/", "/fonts/"]

  const ApiPatterns: seq<string> := ["/api/", "/bat/"]

  const ImageExtensions: seq<string> := [".jpg", ".jpeg", ".png", ".gif", ".webp", ".svg", ".ico"]

  const FontExtensions: seq<string> := [".woff", ".woff2", ".ttf", ".eot", ".otf"]

  // ---------------------------------------------------------------- URLs and requests

  /** A parsed URL: origin (scheme, host, port), pathname and search. */
  datatype Url = Url(origin: string, pathname: string, search: string)
  {
    /** URL.href; it is also the key a request is cached under. */
    function Href(): string { origin + pathname + search }
  }

  /** A request: its HTTP method (`verb`) and URL. */
  datatype Request = Request(verb: string, url: Url)

  /** The key of the offline page, resolved against the worker's script at the site root. */
  function OfflineKey(origin: string): string { origin + "/" + OfflinePage }

  // ---------------------------------------------------------------- classifiers

  /** Some pattern of pats occurs in s (Array.prototype.some over String.prototype.includes). */
  predicate IncludesAny(s: string, pats: seq<string>) {
    exists i | 0 <= i < |pats| :: Includes(s, pats[i])
  }

  predicate IsStaticResource(u: Url) {
    exists i | 0 <= i < |Static| :: Includes(u.pathname, Static[i]) || u.pathname == Static[i]
  }

  predicate IsImageResource(u: Url) {
    IncludesAny(u.pathname, ImageExtensions) || IncludesAny(u.Href(), ImagePatterns)
  }

  predicate IsFontResource(u: Url) {
    IncludesAny(u.pathname, FontExtensions) || IncludesAny(u.Href(), FontPatterns)
  }

  predicate IsApiResource(u: Url) { IncludesAny(u.pathname, ApiPatterns) }

  predicate IsHtmlPage(u: Url) {
    EndsWith(u.pathname, ".html") || EndsWith(u.pathname, "/") || u.pathname == ""
    || !Includes(u.pathname, ".")
  }

  /** Because "/" is in the static list and matching is by substring, every pathname that
      contains a slash is classified static. */
  lemma SlashPathIsStatic(u: Url)
    requires Includes(u.pathname, "/")
    ensures IsStaticResource(u)
  {
    assert Static[0] == "/";
  }

  /** The resource classifiers on typical pathnames: an image under `/images/`, a font
      under `/fonts/`, an API call. */
  lemma ResourceExamples(origin: string)
    ensures IsImageResource(Url(origin, "/images/logo.png", ""))
    ensures IsFontResource(Url(origin, "/fonts/a.woff2", ""))
    ensures IsApiResource(Url(origin, "/api/items", ""))
  {
    assert OccursAt("/images/logo.png", ImageExtensions[2], 12);
    assert OccursAt("/fonts/a.woff2", FontExtensions[0], 8);
    assert OccursAt("/api/items", ApiPatterns[0], 0);
  }

  /** An extension-less page and an `.html` page are HTML pages, a stylesheet is not. */
  lemma HtmlPageExamples(origin: string)
    ensures IsHtmlPage(Url(origin, "/about", "")) && IsHtmlPage(Url(origin, "/about.html", ""))
    ensures !IsHtmlPage(Url(origin, "/css/style.css", ""))
  {
    NotIncludesSomeChar("/about", ".", 0);
    assert "/about.html"[6..] == ".html";
    var css := "/css/style.css";
    assert OccursAt(css, ".", 10);
    assert css[|css| - 5..][1] != ".html"[1] && css[|css| - 1..] != "/";
  }

  /** The empty pathname (a URL without a path) is no static resource, but an HTML page. */
  lemma EmptyPathExamples(origin: string)
    ensures !IsStaticResource(Url(origin, "", "")) && IsHtmlPage(Url(origin, "", ""))
  {
    forall i | 0 <= i < |Static|
      ensures !Includes("", Static[i]) && "" != Static[i]
    {
      assert |Static[i]| > 0;
    }
  }

  // ---------------------------------------------------------------- dispatch

  datatype Strategy = CacheFirst(maxAge: int) | NetworkFirst | StaleWhileRevalidate

  /** The fetch listener: None when the request is not intercepted (it goes to the browser). */
  function Route(req: Request): Option<Strategy> {
    if req.verb != "GET" then None
    else if IsStaticResource(req.url) then Some(CacheFirst(OneHour))
    else if IsImageResource(req.url) then Some(CacheFirst(OneDay))
    else if IsFontResource(req.url) then Some(CacheFirst(ThirtyDays))
    else if IsApiResource(req.url) then Some(NetworkFirst)
    else if IsHtmlPage(req.url) then Some(StaleWhileRevalidate)
    else Some(NetworkFirst)
  }

  /** The classifier results in the order the dispatch tests them; the last guard is the
      default branch. */
  function Guards(u: Url): (g: seq<bool>)
    ensures |g| == 6 && g[5]
  {
    [IsStaticResource(u), IsImageResource(u), IsFontResource(u), IsApiResource(u),
     IsHtmlPage(u), true]
  }

  /** The policy attached to each guard. */
  const Policies: seq<Strategy> := [
    CacheFirst(OneHour), CacheFirst(OneDay), CacheFirst(ThirtyDays), NetworkFirst,
    StaleWhileRevalidate, NetworkFirst]

  /** A GET request gets the policy of the first guard that holds, and exactly one guard is
      the first to hold; any other method is never intercepted. */
  lemma RouteIsFirstMatch(req: Request)
    ensures req.verb != "GET" <==> Route(req) == None
    ensures req.verb == "GET" ==>
      exists i :: 0 <= i < 6 && Guards(req.url)[i]
        && (forall j :: 0 <= j < i ==> !Guards(req.url)[j])
        && Route(req) == Some(Policies[i])
  {
    if req.verb == "GET" {
      var g := Guards(req.url);
      var i := if g[0] then 0 else if g[1] then 1 else if g[2] then 2
               else if g[3] then 3 else if g[4] then 4 else 5;
      assert g[i] && forall j :: 0 <= j < i ==> !g[j];
      assert Route(req) == Some(Policies[i]);
    }
  }

  /** For every GET whose pathname contains a slash (every http(s) URL) the dispatch picks
      cacheFirst with the one-hour lifetime: the image, font, API and HTML branches and the
      default branch are never reached for such URLs. */
  lemma RouteSlashPath(req: Request)
    requires req.verb == "GET" && Includes(req.url.pathname, "/")
    ensures Route(req) == Some(CacheFirst(OneHour))
  {
    SlashPathIsStatic(req.url);
  }

  lemma ApiUrlGoesCacheFirst(origin: string, rest: string)
    ensures Route(Request("GET", Url(origin, "/api/" + rest, ""))) == Some(CacheFirst(OneHour))
  {
    var u := Url(origin, "/api/" + rest, "");
    assert OccursAt(u.pathname, "/", 0);
    RouteSlashPath(Request("GET", u));
  }

  // ---------------------------------------------------------------- responses

  /** The parsed `date` header of a response: absent, unparseable, or a time in ms. */
  datatype DateHeader = Missing | Invalid | At(ms: int)

  datatype Response = Response(status: int, date: DateHeader, size: nat)
  {
    /** Response.ok */
    predicate Ok() { 200 <= status <= 299 }
  }

  /** What cache.put and cache.addAll accept: an ok response that is not partial content. */
  predicate Storable(r: Response) { r.Ok() && r.status != 206 }

  /** `now - new Date(cachedResponse.headers.get('date')) < maxAge`: a missing header gives
      `new Date(null)`, the epoch; an unparseable one gives an invalid date, whose difference
      is NaN and never compares below maxAge. */
  predicate Fresh(d: DateHeader, now: int, maxAge: int) {
    match d
    case Missing => now - 0 < maxAge
    case Invalid => false
    case At(ms) => now - ms < maxAge
  }

  /** A fresh entry only gets staler with time, and a missing or unparseable date is stale
      at every time later than maxAge ms after the epoch. */
  lemma FreshAntitone(d: DateHeader, t1: int, t2: int, maxAge: int)
    requires t1 <= t2
    ensures Fresh(d, t2, maxAge) ==> Fresh(d, t1, maxAge)
    ensures !d.At? && t2 >= maxAge ==> !Fresh(d, t2, maxAge)
  {
  }

  /** What the network does for one request: a response after some delay, or an error. */
  datatype NetOutcome = Arrives(resp: Response, after: nat) | Fails(after: nat)

  /** What a policy's promise settles to: a response, a rejection (the page sees a network
      error) or `undefined`. */
  datatype Reply = Respond(resp: Response) | Rejected | Undefined

  // ---------------------------------------------------------------- cache storage

  type Bucket = map<string, Response>
  type Storage = map<string, Bucket>

  /** `caches.open(CACHE_NAME)` creates the cache when it does not exist. */
  function Opened(c: Storage): (r: Storage)
    ensures CacheName in r && r[CacheName] == (if CacheName in c then c[CacheName] else map[])
    ensures forall n :: n != CacheName ==> (n in r <==> n in c)
    ensures forall n :: n in c ==> n in r && r[n] == c[n]
  {
    if CacheName in c then c else c[CacheName := map[]]
  }

  /** cache.addAll(keys): atomic.  Either every key is fetched with a storable response and
      they are all stored, or (a failed fetch, an unacceptable response, a duplicate key)
      nothing is. */
  function AddAll(b: Bucket, keys: seq<string>, net: map<string, Response>): (r: Bucket)
    ensures r == b || AllFetched(keys, net)
    ensures AllFetched(keys, net) ==>
      (forall k :: k in r <==> k in b || k in keys)
      && (forall i :: 0 <= i < |keys| ==> r[keys[i]] == net[keys[i]])
      && (forall k :: k in b && k !in keys ==> r[k] == b[k])
  {
    if AllFetched(keys, net) then b + map k | k in keys :: net[k] else b
  }

  predicate Distinct(keys: seq<string>) {
    forall i, j :: 0 <= i < j < |keys| ==> keys[i] != keys[j]
  }

  predicate AllFetched(keys: seq<string>, net: map<string, Response>) {
    Distinct(keys) && forall k :: k in keys ==> k in net && Storable(net[k])
  }

  /** The static list, resolved against the site's origin. */
  function StaticKeys(origin: string): (r: seq<string>)
    ensures |r| == |Static| && forall i :: 0 <= i < |r| ==> r[i] == origin + Static[i]
  {
    seq(|Static|, i requires 0 <= i < |Static| => origin + Static[i])
  }

  lemma PrefixInjective(o: string, a: string, b: string)
    requires a != b
    ensures o + a != o + b
  {
    assert (o + a)[|o|..] == a && (o + b)[|o|..] == b;
  }

  /** The static list has no duplicate, so install stores all of it as soon as every entry
      is fetched with an acceptable response. */
  lemma InstallCanSucceed(origin: string, net: map<string, Response>)
    requires forall i :: 0 <= i < |Static| ==>
      origin + Static[i] in net && Storable(net[origin + Static[i]])
    ensures AllFetched(StaticKeys(origin), net)
  {
    var keys := StaticKeys(origin);
    forall i, j | 0 <= i < j < |keys|
      ensures keys[i] != keys[j]
    {
      assert Static[i] != Static[j];
      PrefixInjective(origin, Static[i], Static[j]);
    }
  }

  /** The total body size of the entries stored under the keys ks of b. */
  ghost function SumOver(b: Bucket, ks: set<string>): nat
    requires ks <= b.Keys
    decreases |ks|
  {
    if ks == {} then 0
    else
      var k :| k in ks;
      b[k].size + SumOver(b, ks - {k})
  }

  /** The sum does not depend on the order in which the keys are taken. */
  lemma {:induction false} SumOverRemove(b: Bucket, ks: set<string>, k: string)
    requires ks <= b.Keys && k in ks
    ensures SumOver(b, ks) == b[k].size + SumOver(b, ks - {k})
    decreases |ks|
  {
    var k' :| k' in ks && SumOver(b, ks) == b[k'].size + SumOver(b, ks - {k'});
    if k' != k {
      SumOverRemove(b, ks - {k'}, k);
      SumOverRemove(b, ks - {k}, k');
      assert ks - {k'} - {k} == ks - {k} - {k'};
    }
  }

  /** Storing a response under a new key adds its size to the total; replacing one swaps
      the old size for the new. */
  lemma {:induction false} SumOverPut(b: Bucket, k: string, r: Response)
    ensures SumOver(b[k := r], b.Keys + {k}) + (if k in b then b[k].size else 0)
         == SumOver(b, b.Keys) + r.size
  {
    var b' := b[k := r];
    SumOverRemove(b', b'.Keys, k);
    assert b'.Keys == b.Keys + {k};
    SumOverSame(b', b, b'.Keys - {k});
    if k in b {
      SumOverRemove(b, b.Keys, k);
      assert b.Keys - {k} == b'.Keys - {k};
    } else {
      assert b.Keys == b'.Keys - {k};
    }
  }

  /** Two buckets that agree on ks have the same total over ks. */
  lemma {:induction false} SumOverSame(b1: Bucket, b2: Bucket, ks: set<string>)
    requires ks <= b1.Keys && ks <= b2.Keys
    requires forall k :: k in ks ==> b1[k] == b2[k]
    ensures SumOver(b1, ks) == SumOver(b2, ks)
    decreases |ks|
  {
    if ks != {} {
      var k :| k in ks && SumOver(b1, ks) == b1[k].size + SumOver(b1, ks - {k});
      SumOverRemove(b2, ks, k);
      SumOverSame(b1, b2, ks - {k});
    }
  }

  /** The loop of getCacheSize: every key's response is present, and its size is added. */
  method BucketSize(b: Bucket) returns (total: nat)
    ensures total == SumOver(b, b.Keys)
  {
    total := 0;
    var todo := b.Keys;
    while todo != {}
      invariant todo <= b.Keys
      invariant total + SumOver(b, todo) == SumOver(b, b.Keys)
      decreases |todo|
    {
      var k :| k in todo;
      SumOverRemove(b, todo, k);
      total := total + b[k].size;
      todo := todo - {k};
    }
  }

  lemma TwoEntrySize(k1: string, k2: string, r1: Response, r2: Response)
    requires k1 != k2 && r1.size == 100 && r2.size == 250
    ensures SumOver(map[k1 := r1, k2 := r2], {k1, k2}) == 350
  {
    var b := map[k1 := r1, k2 := r2];
    SumOverRemove(b, {k1, k2}, k1);
    assert {k1, k2} - {k1} == {k2};
    SumOverRemove(b, {k2}, k2);
  }

  // ---------------------------------------------------------------- messages

  datatype Message = CacheUrls(urls: seq<string>, net: map<string, Response>)
                   | ClearCache
                   | GetCacheSize
                   | Unknown(kind: string)

  /** notificationclick opens `data.url || '/'`. */
  function NotificationTarget(url: Option<string>): (r: string)
    ensures Truthy(r)
    ensures url.Some? && Truthy(url.value) ==> r == url.value
  {
    if url.Some? && Truthy(url.value) then url.value else "/"
  }

  /** The push handler attaches `{url: '/'}`, so a click on its notification opens the root. */
  const PushData: Option<string> := Some("/")

  // ---------------------------------------------------------------- the worker

  class Worker {
    /** The origin the worker script is served from, at the site root; relative URLs in
        the script (the static list, the offline page) resolve against it. */
    const siteOrigin: string
    /** CacheStorage: cache name -> request URL -> stored response. */
    var caches: Storage

    /** Every stored response was accepted by cache.put or cache.addAll. */
    ghost predicate Valid()
      reads this
    {
      forall n, k :: n in caches && k in caches[n] ==> Storable(caches[n][k])
    }

    constructor(siteOrigin: string)
      ensures Valid() && caches == map[] && this.siteOrigin == siteOrigin
    {
      this.siteOrigin := siteOrigin;
      caches := map[];
    }

    method Open() returns (bucket: Bucket)
      requires Valid()
      modifies this
      ensures Valid()
      ensures caches == Opened(old(caches)) && bucket == caches[CacheName]
    {
      if CacheName !in caches {
        caches := caches[CacheName := map[]];
      }
      bucket := caches[CacheName];
    }

    /** cache.put(key, response) on the current cache (an unacceptable response is
        refused and the cache is left as it was). */
    method Put(key: string, resp: Response)
      requires Valid() && CacheName in caches
      modifies this
      ensures Valid()
      ensures caches == old(caches)[CacheName :=
        if Storable(resp) then old(caches)[CacheName][key := resp] else old(caches)[CacheName]]
    {
      if Storable(resp) {
        caches := caches[CacheName := caches[CacheName][key := resp]];
      }
    }

    /** The install handler: pre-cache the static list; a failure is swallowed. */
    method Install(net: map<string, Response>)
      requires Valid()
      modifies this
      ensures Valid()
      ensures caches == Opened(old(caches))[CacheName :=
        AddAll(Opened(old(caches))[CacheName], StaticKeys(siteOrigin), net)]
    {
      var b := Open();
      caches := caches[CacheName := AddAll(b, StaticKeys(siteOrigin), net)];
    }

    /** The activate handler: every cache but the current one is deleted. */
    method Activate()
      requires Valid()
      modifies this
      ensures Valid()
      ensures caches.Keys <= {CacheName}
      ensures CacheName in old(caches) ==> caches == map[CacheName := old(caches)[CacheName]]
      ensures CacheName !in old(caches) ==> caches == map[]
    {
      var names := caches.Keys;
      while names != {}
        invariant names <= caches.Keys
        invariant forall n :: n in caches <==> n in old(caches) && (n in names || n == CacheName)
        invariant forall n :: n in caches ==> caches[n] == old(caches)[n]
        decreases |names|
      {
        var n :| n in names;
        if n != CacheName {
          caches := caches - {n};
        }
        names := names - {n};
      }
    }

    /** CLEAR_CACHE: every cache is deleted. */
    method ClearAll()
      modifies this
      ensures Valid() && caches == map[]
    {
      var names := caches.Keys;
      while names != {}
        invariant caches.Keys == names
        decreases |names|
      {
        var n :| n in names;
        caches := caches - {n};
        names := names - {n};
      }
    }

    /** cacheUrls(urls): open the current cache and addAll; a failure is swallowed. */
    method CacheUrlList(urls: seq<string>, net: map<string, Response>)
      requires Valid()
      modifies this
      ensures Valid()
      ensures caches == Opened(old(caches))[CacheName :=
        AddAll(Opened(old(caches))[CacheName], urls, net)]
    {
      var b := Open();
      caches := caches[CacheName := AddAll(b, urls, net)];
    }

    /** getCacheSize: open the current cache and sum the body sizes of its entries. */
    method CacheSize() returns (total: nat)
      requires Valid()
      modifies this
      ensures Valid() && caches == Opened(old(caches))
      ensures total == SumOver(caches[CacheName], caches[CacheName].Keys)
    {
      var b := Open();
      total := BucketSize(b);
    }

    /** The message listener; the result is what is posted back on the reply port. */
    method OnMessage(m: Message) returns (posted: Option<nat>)
      requires Valid()
      modifies this
      ensures Valid()
      ensures posted.Some? <==> m.GetCacheSize?
      ensures m.Unknown? ==> caches == old(caches)
      ensures m.ClearCache? ==> caches == map[]
      ensures m.CacheUrls? ==> caches == Opened(old(caches))[CacheName :=
        AddAll(Opened(old(caches))[CacheName], m.urls, m.net)]
      ensures m.GetCacheSize? ==>
        caches == Opened(old(caches))
        && posted.value == SumOver(caches[CacheName], caches[CacheName].Keys)
    {
      posted := None;
      match m {
        case CacheUrls(urls, net) =>
          CacheUrlList(urls, net);
        case ClearCache =>
          ClearAll();
        case GetCacheSize =>
          var size := CacheSize();
          posted := Some(size);
        case Unknown(_) =>
      }
    }

    /** cacheFirst(request, maxAge). */
    method CacheFirstPolicy(u: Url, maxAge: int, now: int, net: NetOutcome) returns (reply: Reply)
      requires Valid()
      modifies this
      ensures Valid()
      // a fresh entry is answered from the cache, without the network
      ensures var b := Opened(old(caches))[CacheName];
        u.Href() in b && Fresh(b[u.Href()].date, now, maxAge) ==>
          reply == Respond(b[u.Href()]) && caches == Opened(old(caches))
      // otherwise the network response is returned, and stored only when acceptable
      ensures var b := Opened(old(caches))[CacheName];
        !(u.Href() in b && Fresh(b[u.Href()].date, now, maxAge)) && net.Arrives? ==>
          reply == Respond(net.resp)
          && caches == Opened(old(caches))[CacheName :=
               if Storable(net.resp) then b[u.Href() := net.resp] else b]
      // a network error yields the stored offline page for HTML pages and rethrows otherwise
      ensures var b := Opened(old(caches))[CacheName];
        !(u.Href() in b && Fresh(b[u.Href()].date, now, maxAge)) && net.Fails? ==>
          caches == Opened(old(caches))
          && reply == (if !IsHtmlPage(u) then Rejected
                       else if OfflineKey(siteOrigin) in b then Respond(b[OfflineKey(siteOrigin)])
                       else Undefined)
      // the 503 "offline" response is never produced
      ensures net.Fails? && reply.Respond? ==> Storable(reply.resp)
    {
      var b := Open();
      var key := u.Href();
      if key in b && Fresh(b[key].date, now, maxAge) {
        return Respond(b[key]);
      }
      match net {
        case Arrives(resp, _) =>
          Put(key, resp);
          reply := Respond(resp);
        case Fails(_) =>
          if IsHtmlPage(u) {
            var off := Open();
            var offKey := OfflineKey(siteOrigin);
            reply := if offKey in off then Respond(off[offKey]) else Undefined;
          } else {
            reply := Rejected;
          }
      }
    }

    /** networkFirst(request, timeout): the network wins the race iff it answers before
        the timeout; a lost race or a network error falls back to the cache. */
    method NetworkFirstPolicy(u: Url, timeout: int, net: NetOutcome) returns (reply: Reply)
      requires Valid()
      modifies this
      ensures Valid()
      ensures net.Arrives? && net.after < timeout ==>
        reply == Respond(net.resp)
        && caches == (if !net.resp.Ok() then old(caches)
                      else var b := Opened(old(caches))[CacheName];
                        Opened(old(caches))[CacheName :=
                          if Storable(net.resp) then b[u.Href() := net.resp] else b])
      ensures !(net.Arrives? && net.after < timeout) ==>
        var b := Opened(old(caches))[CacheName];
        caches == Opened(old(caches))
        && reply == (if u.Href() in b then Respond(b[u.Href()]) else Rejected)
    {
      if net.Arrives? && net.after < timeout {
        if net.resp.Ok() {
          var _ := Open();
          Put(u.Href(), net.resp);
        }
        reply := Respond(net.resp);
      } else {
        var b := Open();
        reply := if u.Href() in b then Respond(b[u.Href()]) else Rejected;
      }
    }

    /** staleWhileRevalidate(request): answer from the cache when possible, and refresh the
        entry from the network in every case. */
    method StaleWhileRevalidatePolicy(u: Url, net: NetOutcome) returns (reply: Reply)
      requires Valid()
      modifies this
      ensures Valid()
      ensures var b := Opened(old(caches))[CacheName];
        reply == (if u.Href() in b then Respond(b[u.Href()])
                  else if net.Arrives? then Respond(net.resp)
                  else Undefined)
      ensures var b := Opened(old(caches))[CacheName];
        caches == Opened(old(caches))[CacheName :=
          if net.Arrives? && Storable(net.resp) then b[u.Href() := net.resp] else b]
    {
      var b := Open();
      var key := u.Href();
      var cached := if key in b then Some(b[key]) else None;
      if net.Arrives? {
        Put(key, net.resp);
      }
      if cached.Some? {
        reply := Respond(cached.value);
      } else if net.Arrives? {
        reply := Respond(net.resp);
      } else {
        reply := Undefined;
      }
    }

    /** The fetch listener: None when the request is left to the browser; otherwise the
        reply and the new cache are those of the policy the route picks. */
    method HandleFetch(req: Request, now: int, net: NetOutcome) returns (reply: Option<Reply>)
      requires Valid()
      modifies this
      ensures Valid()
      ensures reply.None? <==> req.verb != "GET"
      ensures req.verb != "GET" ==> caches == old(caches)
      // cache-first, with the time-to-live the route picks
      ensures Route(req).Some? && Route(req).value.CacheFirst? ==>
        var u, maxAge, b := req.url, Route(req).value.maxAge, Opened(old(caches))[CacheName];
        reply.Some? &&
        if u.Href() in b && Fresh(b[u.Href()].date, now, maxAge) then
          reply.value == Respond(b[u.Href()]) && caches == Opened(old(caches))
        else if net.Arrives? then
          reply.value == Respond(net.resp)
          && caches == Opened(old(caches))[CacheName := if Storable(net.resp) then b[u.Href() := net.resp] else b]
        else
          caches == Opened(old(caches))
          && reply.value == (if !IsHtmlPage(u) then Rejected
                             else if OfflineKey(siteOrigin) in b then Respond(b[OfflineKey(siteOrigin)])
                             else Undefined)
      // network-first, racing the three second timeout
      ensures Route(req) == Some(NetworkFirst) ==>
        var u, b := req.url, Opened(old(caches))[CacheName];
        reply.Some? &&
        if net.Arrives? && net.after < NetworkTimeout then
          reply.value == Respond(net.resp)
          && caches == (if !net.resp.Ok() then old(caches)
                        else Opened(old(caches))[CacheName := if Storable(net.resp) then b[u.Href() := net.resp] else b])
        else
          caches == Opened(old(caches)) && reply.value == (if u.Href() in b then Respond(b[u.Href()]) else Rejected)
      // stale-while-revalidate
      ensures Route(req) == Some(StaleWhileRevalidate) ==>
        var u, b := req.url, Opened(old(caches))[CacheName];
        reply == Some(if u.Href() in b then Respond(b[u.Href()])
                      else if net.Arrives? then Respond(net.resp)
                      else Undefined)
        && caches == Opened(old(caches))[CacheName :=
             if net.Arrives? && Storable(net.resp) then b[u.Href() := net.resp] else b]
    {
      match Route(req) {
        case None =>
          reply := None;
        case Some(CacheFirst(maxAge)) =>
          var r := CacheFirstPolicy(req.url, maxAge, now, net);
          reply := Some(r);
        case Some(NetworkFirst) =>
          var r := NetworkFirstPolicy(req.url, NetworkTimeout, net);
          reply := Some(r);
        case Some(StaleWhileRevalidate) =>
          var r := StaleWhileRevalidatePolicy(req.url, net);
          reply := Some(r);
      }
    }
  }

  /** After a fetch whose fresh network response was cached, a second request for the same
      URL within the lifetime is answered from the cache without the network. */
  method RepeatedFetchHitsCache(w: Worker, u: Url, maxAge: int, now: int, later: int,
                                resp: Response, second: NetOutcome)
      returns (first: Reply, again: Reply)
    requires w.Valid() && Storable(resp) && resp.date == At(now) && now <= later < now + maxAge
    requires u.Href() !in Opened(w.caches)[CacheName]
    modifies w
    ensures w.Valid()
    ensures first == Respond(resp) && again == Respond(resp)
  {
    first := w.CacheFirstPolicy(u, maxAge, now, Arrives(resp, 0));
    again := w.CacheFirstPolicy(u, maxAge, later, second);
  }
}
