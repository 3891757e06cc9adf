/** The page-side prefetcher: which links count as internal, the set of pages already
    prefetched, the timers that append `<link rel="prefetch">` elements to the document head,
    the page order used to prefetch the next page, and the delay chosen from the connection
    type. Timers are kept as a list of pending callbacks; which one fires next is chosen by
    the caller. */
module PerformanceOptimizer {
  import opened Js

  /** isInternalLink */
  predicate IsInternalLink(href: string) {
    Truthy(href)
    && (StartsWith(href, "./") || StartsWith(href, "/")
        || (Includes(href, ".html") && !StartsWith(href, "http")) || StartsWith(href, "#"))
  }

  /** The empty href is never internal; any other href is internal exactly when one of the
      four prefixes or the `.html` rule applies. */
  lemma InternalLinkRule(href: string)
    ensures href == "" ==> !IsInternalLink(href)
    ensures href != "" ==>
      (IsInternalLink(href) <==>
         StartsWith(href, "./") || StartsWith(href, "/") || StartsWith(href, "#")
         || (Includes(href, ".html") && !StartsWith(href, "http")))
  {
  }

  /** A plain page name such as `about.html` is internal, and an absolute `http` url is not,
      even when it names an HTML page. */
  lemma InternalLinkExamples()
    ensures IsInternalLink("about.html")
    ensures !IsInternalLink("http://example.com/about.html")
  {
    assert OccursAt("about.html", ".html", 5);
    assert "about.html"[..4][0] == 'a';
    var u := "http://example.com/about.html";
    assert u[..4] == "http";
    assert u[0] != '.' && u[0] != '/' && u[0] != '#';
  }

  const CriticalPages: seq<string> := ["index.html", "about.html", "contacts.html", "single-project.html"]

  const PageOrder: seq<string> := ["/index.html", "/about.html", "/single-project.html", "/blog-post.html", "/contacts.html"]

  /** `s.replace('/', '')`: the first slash removed. */
  function RemoveFirstSlash(s: string): (r: string)
    ensures |s| > 0 && s[0] == '/' ==> r == s[1..]
  {
    if s == "" then ""
    else if s[0] == '/' then s[1..]
    else [s[0]] + RemoveFirstSlash(s[1..])
  }

  predicate MatchesPage(currentPage: string, page: string) {
    Includes(currentPage, RemoveFirstSlash(page))
  }

  /** Entry i of PageOrder is the first one whose name occurs in the location path. */
  predicate FirstMatch(currentPage: string, i: int) {
    0 <= i < |PageOrder| && MatchesPage(currentPage, PageOrder[i])
    && forall j :: 0 <= j < i ==> !MatchesPage(currentPage, PageOrder[j])
  }

  /** `pageOrder.findIndex(...)` for a location path. */
  function CurrentIndex(currentPage: string): (r: int)
    ensures -1 <= r < |PageOrder|
    ensures r >= 0 ==> FirstMatch(currentPage, r)
    ensures r == -1 <==> forall j :: 0 <= j < |PageOrder| ==> !MatchesPage(currentPage, PageOrder[j])
  {
    FindIndex(PageOrder, (page: string) => MatchesPage(currentPage, page))
  }

  /** The page prefetchNextPage prefetches for a location path: the entry after the first
      entry of PageOrder whose name occurs in the path; none for the last entry or when no
      entry matches. */
  function NextPage(currentPage: string): (r: Option<string>)
    ensures forall i :: FirstMatch(currentPage, i) ==>
      r == if i < |PageOrder| - 1 then Some(PageOrder[i + 1]) else None
    ensures (forall i :: 0 <= i < |PageOrder| ==> !MatchesPage(currentPage, PageOrder[i])) ==> r == None
  {
    var currentIndex := CurrentIndex(currentPage);
    assert currentIndex >= 0 ==> FirstMatch(currentPage, currentIndex);
    if 0 <= currentIndex < |PageOrder| - 1 then Some(PageOrder[currentIndex + 1]) else None
  }

  lemma PagesAreHtml(i: nat)
    requires i < |PageOrder|
    ensures Includes(PageOrder[i], ".html")
  {
    assert EndsWith(PageOrder[i], ".html");
    EndsWithIncludes(PageOrder[i], ".html");
  }

  /** NextPage read off the index prefetchNextPage computes. */
  lemma NextPageByIndex(currentPage: string)
    ensures var i := CurrentIndex(currentPage);
      NextPage(currentPage) == if 0 <= i < |PageOrder| - 1 then Some(PageOrder[i + 1]) else None
  {
  }

  /** The pages follow one another in the listed order, and the last page has no successor. */
  lemma NextPageExamples()
    ensures NextPage("/about.html") == Some("/single-project.html")
    ensures NextPage("/contacts.html") == None
  {
    assert RemoveFirstSlash("/index.html") == "index.html";
    assert RemoveFirstSlash("/about.html") == "about.html";
    assert !MatchesPage("/about.html", "/index.html") by {
      forall k | 0 <= k <= |"/about.html"| - |"index.html"| ensures !OccursAt("/about.html", "index.html", k) {
        assert "/about.html"[k] != "index.html"[0];
      }
    }
    assert OccursAt("/about.html", "about.html", 1);
    assert FirstMatch("/about.html", 1);
    ContactsIsLast();
  }

  lemma ContactsIsLast()
    ensures NextPage("/contacts.html") == None
  {
    var c := "/contacts.html";
    assert RemoveFirstSlash(PageOrder[4]) == "contacts.html";
    assert OccursAt(c, "contacts.html", 1);
    assert |c| == 14;
    assert !MatchesPage(c, PageOrder[0]) by {
      assert RemoveFirstSlash(PageOrder[0]) == "index.html";
      forall k | 0 <= k <= 4 ensures !OccursAt(c, "index.html", k) {
        assert c[k] != "index.html"[0];
      }
    }
    assert !MatchesPage(c, PageOrder[1]) by {
      assert RemoveFirstSlash(PageOrder[1]) == "about.html";
      forall k | 0 <= k <= 4 ensures !OccursAt(c, "about.html", k) {
        assert c[k] != "about.html"[0];
      }
    }
    assert !MatchesPage(c, PageOrder[2]) by {
      assert |RemoveFirstSlash(PageOrder[2])| == 19;
    }
    assert !MatchesPage(c, PageOrder[3]) by {
      assert RemoveFirstSlash(PageOrder[3]) == "blog-post.html";
      assert |"blog-post.html"| == 14;
      assert !OccursAt(c, "blog-post.html", 0) by { assert c[0] != 'b'; }
    }
  }

  /** The delay handleConnectionChange picks for an effective connection type. */
  function ConnectionDelay(effectiveType: string, current: nat): (d: nat)
    ensures effectiveType == "slow-2g" || effectiveType == "2g" ==> d == 1000
    ensures effectiveType == "4g" ==> d == 50
    ensures effectiveType !in {"slow-2g", "2g", "4g"} ==> d == current
  {
    if effectiveType == "slow-2g" || effectiveType == "2g" then 1000
    else if effectiveType == "4g" then 50
    else current
  }

  /** A callback waiting on setTimeout. */
  datatype Timer =
    | CallPrefetch(page: string, delay: nat)   // prefetchCriticalPages: prefetchPage(page) later
    | AppendLink(url: string, delay: nat)      // prefetchPage: append the link and record the url later

  /** The urls of the pending link appends, in timer order. */
  function PendingLinks(timers: seq<Timer>): (r: seq<string>)
    ensures |r| <= |timers|
    ensures forall u :: u in r <==> exists i :: 0 <= i < |timers| && timers[i].AppendLink? && timers[i].url == u
  {
    if timers == [] then []
    else
      var rest := PendingLinks(timers[1..]);
      assert forall i :: 1 <= i < |timers| ==> timers[1..][i - 1] == timers[i];
      if timers[0].AppendLink? then [timers[0].url] + rest else rest
  }

  lemma {:induction false} PendingConcat(a: seq<Timer>, b: seq<Timer>)
    ensures PendingLinks(a + b) == PendingLinks(a) + PendingLinks(b)
  {
    if a != [] {
      assert (a + b)[0] == a[0] && (a + b)[1..] == a[1..] + b;
      PendingConcat(a[1..], b);
    } else {
      assert a + b == b;
    }
  }

  predicate Distinct(s: seq<string>) {
    forall i, j :: 0 <= i < j < |s| ==> s[i] != s[j]
  }

  function Without<T>(s: seq<T>, i: nat): (r: seq<T>)
    requires i < |s|
    ensures |r| == |s| - 1
    ensures forall k :: 0 <= k < i ==> r[k] == s[k]
    ensures forall k :: i <= k < |r| ==> r[k] == s[k + 1]
  {
    s[..i] + s[i + 1..]
  }

  class Optimizer {
    var prefetchedPages: set<string>
    var prefetchDelay: nat
    /** The hrefs of the prefetch links appended to the document head, in order. */
    var headLinks: seq<string>
    var timers: seq<Timer>

    /** Every appended link is a recorded HTML page. */
    ghost predicate Valid()
      reads this`headLinks, this`prefetchedPages, this`timers
    {
      (forall i :: 0 <= i < |headLinks| ==> headLinks[i] in prefetchedPages && Includes(headLinks[i], ".html"))
      && forall i :: 0 <= i < |timers| && timers[i].AppendLink? ==> Includes(timers[i].url, ".html")
    }

    constructor()
      ensures Valid()
      ensures prefetchedPages == {} && prefetchDelay == 100 && headLinks == [] && timers == []
    {
      prefetchedPages := {};
      prefetchDelay := 100;
      headLinks := [];
      timers := [];
    }

    /** prefetchPage: a page already prefetched or without `.html` is ignored; otherwise a
        link append is scheduled after the current delay. */
    method PrefetchPage(url: string)
      requires Valid()
      modifies this
      ensures Valid()
      ensures prefetchedPages == old(prefetchedPages) && headLinks == old(headLinks)
      ensures prefetchDelay == old(prefetchDelay)
      ensures if url in old(prefetchedPages) || !Includes(url, ".html") then timers == old(timers)
              else timers == old(timers) + [AppendLink(url, prefetchDelay)]
    {
      if url in prefetchedPages {
        return;
      }
      if !EndsWith(url, ".html") && !Includes(url, ".html") {
        return;
      }
      if EndsWith(url, ".html") {
        EndsWithIncludes(url, ".html");
      }
      timers := timers + [AppendLink(url, prefetchDelay)];
    }

    /** The i-th pending timer fires. */
    method FireTimer(i: nat)
      requires Valid() && i < |timers|
      modifies this
      ensures Valid()
      ensures old(prefetchedPages) <= prefetchedPages
      ensures prefetchDelay == old(prefetchDelay)
      ensures old(timers[i]).AppendLink? ==>
        headLinks == old(headLinks) + [old(timers[i]).url]
        && prefetchedPages == old(prefetchedPages) + {old(timers[i]).url}
        && timers == Without(old(timers), i)
      ensures old(timers[i]).CallPrefetch? ==>
        headLinks == old(headLinks) && prefetchedPages == old(prefetchedPages)
        && timers == Without(old(timers), i)
           + (if old(timers[i]).page in prefetchedPages || !Includes(old(timers[i]).page, ".html") then []
              else [AppendLink(old(timers[i]).page, prefetchDelay)])
    {
      var t := timers[i];
      timers := Without(timers, i);
      match t {
        case AppendLink(url, _) =>
          headLinks := headLinks + [url];
          prefetchedPages := prefetchedPages + {url};
        case CallPrefetch(page, _) =>
          PrefetchPage(page);
      }
    }

    /** prefetchCriticalPages: one prefetch call per critical page, each after 1000 ms. */
    method PrefetchCriticalPages()
      requires Valid()
      modifies this
      ensures Valid()
      ensures prefetchedPages == old(prefetchedPages) && headLinks == old(headLinks)
      ensures prefetchDelay == old(prefetchDelay)
      ensures |timers| == |old(timers)| + |CriticalPages|
      ensures timers[..|old(timers)|] == old(timers)
      ensures forall k :: 0 <= k < |CriticalPages| ==> timers[|old(timers)| + k] == CallPrefetch(CriticalPages[k], 1000)
    {
      var k := 0;
      while k < |CriticalPages|
        invariant 0 <= k <= |CriticalPages| && Valid()
        invariant prefetchedPages == old(prefetchedPages) && headLinks == old(headLinks)
        invariant prefetchDelay == old(prefetchDelay)
        invariant |timers| == |old(timers)| + k && timers[..|old(timers)|] == old(timers)
        invariant forall j :: 0 <= j < k ==> timers[|old(timers)| + j] == CallPrefetch(CriticalPages[j], 1000)
      {
        timers := timers + [CallPrefetch(CriticalPages[k], 1000)];
        k := k + 1;
      }
    }

    /** setupLinkPrefetch: every internal link is marked for prefetching (and prefetches on
        hover or touch); then the critical pages are scheduled. */
    method SetupLinkPrefetch(hrefs: seq<string>) returns (marked: seq<bool>)
      requires Valid()
      modifies this
      ensures Valid()
      ensures |marked| == |hrefs| && forall i :: 0 <= i < |hrefs| ==> marked[i] == IsInternalLink(hrefs[i])
      ensures prefetchedPages == old(prefetchedPages) && headLinks == old(headLinks)
      ensures prefetchDelay == old(prefetchDelay)
      ensures |timers| == |old(timers)| + |CriticalPages|
      ensures timers[..|old(timers)|] == old(timers)
      ensures forall k :: 0 <= k < |CriticalPages| ==> timers[|old(timers)| + k] == CallPrefetch(CriticalPages[k], 1000)
    {
      marked := [];
      var i := 0;
      while i < |hrefs|
        invariant 0 <= i <= |hrefs|
        invariant |marked| == i && forall j :: 0 <= j < i ==> marked[j] == IsInternalLink(hrefs[j])
      {
        marked := marked + [IsInternalLink(hrefs[i])];
        i := i + 1;
      }
      PrefetchCriticalPages();
    }

    /** prefetchNextPage for the current location path. */
    method PrefetchNextPage(currentPage: string)
      requires Valid()
      modifies this
      ensures Valid()
      ensures prefetchedPages == old(prefetchedPages) && headLinks == old(headLinks)
      ensures prefetchDelay == old(prefetchDelay)
      ensures NextPage(currentPage).None? ==> timers == old(timers)
      ensures NextPage(currentPage).Some? ==>
        var next := NextPage(currentPage).value;
        timers == old(timers) + (if next in prefetchedPages then [] else [AppendLink(next, prefetchDelay)])
    {
      var currentIndex := CurrentIndex(currentPage);
      NextPageByIndex(currentPage);
      if 0 <= currentIndex < |PageOrder| - 1 {
        var nextPage := PageOrder[currentIndex + 1];
        PagesAreHtml(currentIndex + 1);
        PrefetchPage(nextPage);
      }
    }

    /** handleConnectionChange: the delay follows the connection type when the browser
        reports one. */
    method HandleConnectionChange(hasConnection: bool, effectiveType: string)
      modifies this
      ensures prefetchDelay == if hasConnection then ConnectionDelay(effectiveType, old(prefetchDelay)) else old(prefetchDelay)
      ensures prefetchedPages == old(prefetchedPages) && headLinks == old(headLinks) && timers == old(timers)
    {
      if hasConnection {
        if effectiveType == "slow-2g" || effectiveType == "2g" {
          prefetchDelay := 1000;
        } else if effectiveType == "4g" {
          prefetchDelay := 50;
        }
      }
    }

    // ------------------------------------------------------------ one link per page

    /** No page is linked or pending twice, and every linked or pending page is recorded. */
    ghost predicate LinksUnique()
      reads this
    {
      Distinct(headLinks + PendingLinks(timers))
      && forall u :: u in headLinks + PendingLinks(timers) ==> u in prefetchedPages
    }

    /** prefetchPage with the url recorded when the link is scheduled rather than when it is
        appended, so a second call before the timer fires is ignored. */
    method PrefetchPageOnce(url: string)
      requires Valid() && LinksUnique()
      modifies this
      ensures Valid() && LinksUnique()
      ensures headLinks == old(headLinks) && prefetchDelay == old(prefetchDelay)
      ensures if url in old(prefetchedPages) || !Includes(url, ".html") then
                timers == old(timers) && prefetchedPages == old(prefetchedPages)
              else timers == old(timers) + [AppendLink(url, prefetchDelay)]
                   && prefetchedPages == old(prefetchedPages) + {url}
    {
      if url in prefetchedPages || !Includes(url, ".html") {
        return;
      }
      ghost var before := headLinks + PendingLinks(timers);
      timers := timers + [AppendLink(url, prefetchDelay)];
      prefetchedPages := prefetchedPages + {url};
      PendingConcat(old(timers), [AppendLink(url, prefetchDelay)]);
      assert PendingLinks([AppendLink(url, prefetchDelay)]) == [url];
      assert headLinks + PendingLinks(timers) == before + [url];
      assert url !in before;
    }

    /** A pending link append fires: the page moves from pending to linked. */
    method FireLinkOnce(i: nat)
      requires Valid() && LinksUnique() && i < |timers| && timers[i].AppendLink?
      modifies this
      ensures Valid() && LinksUnique()
      ensures headLinks == old(headLinks) + [old(timers[i]).url]
      ensures prefetchedPages == old(prefetchedPages) && timers == Without(old(timers), i)
    {
      var url := timers[i].url;
      ghost var before, after := timers[..i], timers[i + 1..];
      assert timers == before + [timers[i]] + after;
      PendingConcat(before + [timers[i]], after);
      PendingConcat(before, [timers[i]]);
      assert PendingLinks([timers[i]]) == [url];
      timers := Without(timers, i);
      headLinks := headLinks + [url];
      assert timers == before + after;
      PendingConcat(before, after);
      ghost var pa, pb := PendingLinks(before), PendingLinks(after);
      assert old(headLinks) + PendingLinks(old(timers)) == old(headLinks) + pa + [url] + pb;
      assert headLinks + PendingLinks(timers) == old(headLinks) + [url] + pa + pb;
      DistinctMove(old(headLinks), pa, url, pb);
    }
  }

  /** Moving one element of a duplicate-free sequence to an earlier place keeps it free of
      duplicates. */
  lemma DistinctMove(a: seq<string>, b: seq<string>, u: string, c: seq<string>)
    requires Distinct(a + b + [u] + c)
    ensures Distinct(a + [u] + b + c)
  {
    var s := a + b + [u] + c;
    var t := a + [u] + b + c;
    forall i, j | 0 <= i < j < |t| ensures t[i] != t[j] {
      var pi := Position(|a|, |b|, i);
      var pj := Position(|a|, |b|, j);
      assert s[pi] == t[i] && s[pj] == t[j];
      assert pi != pj;
    }
  }

  /** Where element i of a + [u] + b + c sits in a + b + [u] + c. */
  function Position(na: nat, nb: nat, i: nat): nat {
    if i < na then i else if i == na then na + nb else if i <= na + nb then i - 1 else i
  }

  /** As written, a touch on a link fires touchstart and then the emulated mouseenter within
      the prefetch delay: both calls pass the membership test, and the page is linked twice. */
  method DoubleTouchPrefetch() returns (links: seq<string>)
    ensures links == ["about.html", "about.html"]
  {
    var o := new Optimizer();
    assert OccursAt("about.html", ".html", 5);
    o.PrefetchPage("about.html");
    o.PrefetchPage("about.html");
    assert o.timers == [AppendLink("about.html", 100), AppendLink("about.html", 100)];
    o.FireTimer(0);
    o.FireTimer(0);
    links := o.headLinks;
  }

  /** With the url recorded when the link is scheduled, the second touch is ignored. */
  method DoubleTouchPrefetchOnce() returns (links: seq<string>)
    ensures links == ["about.html"]
  {
    var o := new Optimizer();
    assert OccursAt("about.html", ".html", 5);
    o.PrefetchPageOnce("about.html");
    o.PrefetchPageOnce("about.html");
    assert o.timers == [AppendLink("about.html", 100)];
    o.FireLinkOnce(0);
    links := o.headLinks;
  }
}
