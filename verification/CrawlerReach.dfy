/**
 What a crawl finds: pages at their shortest distance from the seeds, each once.
 */
module CrawlerReach {
  import opened Wrappers
  import opened Crawlers
  import opened UrlNormal

  /** The pages that a page leads to; those of its own domain, when the crawl is to stay there. */
  function Targets(config: Config, web: Web, url: Url): set<Url> {
    var page := web.fetch(url);
    if page.Page? && !page.failed then
      set href | href in page.hrefs && web.onion(href) && Leads(config, web, url, web.normal(href)) :: web.normal(href)
    else {}
  }

  predicate StaysOn(config: Config, web: Web, url: Url, link: Url) {
    config.stayOnDomain ==> web.domain(link) == web.domain(url)
  }

  /** Whether a link is followed from a page, if there is room and it is new. */
  predicate Leads(config: Config, web: Web, url: Url, link: Url) {
    web.onion(link) && StaysOn(config, web, url, link)
  }

  lemma {:induction false} LinkIsNormalised(web: Web, hrefs: seq<Url>, link: Url) returns (href: Url)
    requires link in Links(web, hrefs)
    ensures href in hrefs && web.onion(href) && link == web.normal(href)
  {
    if web.onion(hrefs[0]) && link == web.normal(hrefs[0]) {
      href := hrefs[0];
    } else {
      href := LinkIsNormalised(web, hrefs[1..], link);
    }
  }

  lemma {:induction false} LinkIsFound(web: Web, hrefs: seq<Url>, href: Url)
    requires href in hrefs && web.onion(href)
    ensures web.normal(href) in Links(web, hrefs)
  {
    if hrefs[0] != href {
      LinkIsFound(web, hrefs[1..], href);
    }
  }

  /** What `_extract_links` gives is every link to an onion address, as it is normalised, and nothing else. */
  lemma LinksIff(web: Web, hrefs: seq<Url>, link: Url)
    ensures link in Links(web, hrefs) <==> exists href :: href in hrefs && web.onion(href) && link == web.normal(href)
  {
    if link in Links(web, hrefs) {
      var href := LinkIsNormalised(web, hrefs, link);
    }
    if href :| href in hrefs && web.onion(href) && link == web.normal(href) {
      LinkIsFound(web, hrefs, href);
    }
  }

  /** There are `d` links from a seed to the page. */
  ghost predicate Walk(config: Config, web: Web, roots: set<Url>, url: Url, d: nat)
    decreases d
  {
    if d == 0 then url in roots else exists p :: Walk(config, web, roots, p, d - 1) && url in Targets(config, web, p)
  }

  /** The pages within `d` links of a seed. */
  function Within(config: Config, web: Web, roots: set<Url>, d: nat): set<Url> {
    if d == 0 then roots else Within(config, web, roots, d - 1) + LinkedFrom(config, web, Within(config, web, roots, d - 1))
  }

  function LinkedFrom(config: Config, web: Web, pages: set<Url>): set<Url> {
    set p, link | p in pages && link in Targets(config, web, p) :: link
  }

  lemma WalkIsWithin(config: Config, web: Web, roots: set<Url>, url: Url, d: nat, limit: nat)
    requires Walk(config, web, roots, url, d) && d <= limit
    ensures url in Within(config, web, roots, limit)
  {
    WalkIsWithinIts(config, web, roots, url, d);
    WithinGrows(config, web, roots, url, d, limit);
  }

  lemma {:induction false} WalkIsWithinIts(config: Config, web: Web, roots: set<Url>, url: Url, d: nat)
    requires Walk(config, web, roots, url, d)
    ensures url in Within(config, web, roots, d)
    decreases d
  {
    if d > 0 {
      var p := WalkBefore(config, web, roots, url, d);
      WalkIsWithinIts(config, web, roots, p, d - 1);
      LinkIsWithin(config, web, roots, p, url, d);
    }
  }

  lemma {:induction false} WithinGrows(config: Config, web: Web, roots: set<Url>, url: Url, d: nat, limit: nat)
    requires d <= limit && url in Within(config, web, roots, d)
    ensures url in Within(config, web, roots, limit)
    decreases limit
  {
    if d < limit {
      WithinGrows(config, web, roots, url, d, limit - 1);
      LinkIsWithin(config, web, roots, url, url, limit);
    }
  }

  lemma WalkBefore(config: Config, web: Web, roots: set<Url>, url: Url, d: nat) returns (p: Url)
    requires Walk(config, web, roots, url, d) && d > 0
    ensures Walk(config, web, roots, p, d - 1) && url in Targets(config, web, p)
  {
    p :| Walk(config, web, roots, p, d - 1) && url in Targets(config, web, p);
  }

  lemma LinkIsWithin(config: Config, web: Web, roots: set<Url>, p: Url, url: Url, limit: nat)
    requires limit > 0 && p in Within(config, web, roots, limit - 1) && (p == url || url in Targets(config, web, p))
    ensures url in Within(config, web, roots, limit)
  {
    var near := Within(config, web, roots, limit - 1);
    assert p == url || url in LinkedFrom(config, web, near);
  }

  /** A page is as near as one link less, or one link from such a page. */
  lemma WithinStep(config: Config, web: Web, roots: set<Url>, url: Url, limit: nat) returns (p: Url)
    requires limit > 0 && url in Within(config, web, roots, limit)
    ensures p in Within(config, web, roots, limit - 1) && (p == url || url in Targets(config, web, p))
  {
    p := url;
    if url !in Within(config, web, roots, limit - 1) {
      assert url in LinkedFrom(config, web, Within(config, web, roots, limit - 1));
      p :| p in Within(config, web, roots, limit - 1) && url in Targets(config, web, p);
    }
  }

  lemma WalkOn(config: Config, web: Web, roots: set<Url>, p: Url, url: Url, d: nat)
    requires Walk(config, web, roots, p, d) && url in Targets(config, web, p)
    ensures Walk(config, web, roots, url, d + 1)
  {
    assert Walk(config, web, roots, p, (d + 1) - 1);
  }

  lemma {:induction false} WithinHasWalk(config: Config, web: Web, roots: set<Url>, url: Url, limit: nat) returns (d: nat)
    requires url in Within(config, web, roots, limit)
    ensures d <= limit && Walk(config, web, roots, url, d)
    decreases limit
  {
    if limit > 0 {
      var p := WithinStep(config, web, roots, url, limit);
      var shorter := WithinHasWalk(config, web, roots, p, limit - 1);
      d := LongerWalk(config, web, roots, p, url, shorter);
    } else {
      d := 0;
    }
  }

  lemma LongerWalk(config: Config, web: Web, roots: set<Url>, p: Url, url: Url, shorter: nat) returns (d: nat)
    requires Walk(config, web, roots, p, shorter) && (p == url || url in Targets(config, web, p))
    ensures d <= shorter + 1 && Walk(config, web, roots, url, d)
  {
    d := shorter;
    if p != url {
      WalkOn(config, web, roots, p, url, shorter);
      d := shorter + 1;
    }
  }

  // ---------------------------------------------------------------- the log of a crawl

  /** Everything that was ever in the queue, in order. */
  function Log(st: State): seq<Item> {
    st.done + st.queue
  }

  function Urls(log: seq<Item>): set<Url> {
    set i | 0 <= i < |log| :: log[i].url
  }

  predicate Sorted(log: seq<Item>) {
    forall i, j | 0 <= i < j < |log| :: log[i].depth <= log[j].depth
  }

  predicate UpTo(log: seq<Item>, depth: int) {
    forall i | 0 <= i < |log| :: log[i].depth <= depth
  }

  predicate Distinct(log: seq<Item>) {
    forall i, j | 0 <= i < j < |log| :: log[i].url != log[j].url
  }

  /** The origin of an item is the domain of its page, when the crawl is to stay there. */
  predicate AtHome(config: Config, web: Web, item: Item) {
    config.stayOnDomain ==> web.domain(item.url) == item.origin
  }

  ghost predicate Allowed(config: Config, web: Web, roots: set<Url>, item: Item) {
    && Walk(config, web, roots, item.url, item.depth) && (item.depth == 0 || item.depth <= config.maxDepth)
    && AtHome(config, web, item)
  }

  /** Of all crawls: the log is sorted by depth, the queue spans two depths, and every depth is that of a walk. */
  ghost predicate Sound(config: Config, web: Web, roots: set<Url>, st: State) {
    var log := Log(st);
    && Sorted(log)
    && (st.queue != [] ==> UpTo(log, st.queue[0].depth + 1))
    && (forall i | 0 <= i < |log| :: Allowed(config, web, roots, log[i]))
    && Urls(log) <= st.visited
  }

  /** While the links of `item` are added. */
  ghost predicate Adding(config: Config, web: Web, roots: set<Url>, log: seq<Item>, visited: set<Url>, depth: nat) {
    && Sorted(log) && UpTo(log, depth + 1)
    && (forall i | 0 <= i < |log| :: Allowed(config, web, roots, log[i]))
    && Urls(log) <= visited
  }

  predicate IsPrefix(a: seq<Item>, b: seq<Item>) {
    |a| <= |b| && a == b[..|a|]
  }

  lemma UrlsAppend(log: seq<Item>, item: Item)
    ensures Urls(log + [item]) == Urls(log) + {item.url}
  {
    var longer := log + [item];
    forall url | url in Urls(log) ensures url in Urls(longer) {
      var i :| 0 <= i < |log| && log[i].url == url;
      assert longer[i].url == url;
    }
    assert longer[|log|].url == item.url;
  }

  lemma EnqueueLog(config: Config, web: Web, st: State, item: Item, link: Url)
    ensures var after := Enqueue(config, web, st, item, link);
      && after.done == st.done && after.counts == st.counts
      && (Log(after) == Log(st) || Log(after) == Log(st) + [Item(link, item.depth + 1, item.origin)])
      && (Log(after) == Log(st) ==> after == st)
      && (after != st ==> after.visited == st.visited + {link})
  {
    var added := Item(link, item.depth + 1, item.origin);
    assert st.done + (st.queue + [added]) == (st.done + st.queue) + [added];
  }

  lemma EnqueueKeeps(config: Config, web: Web, roots: set<Url>, st: State, item: Item, link: Url)
    requires Adding(config, web, roots, Log(st), st.visited, item.depth)
    requires Allowed(config, web, roots, Item(link, item.depth + 1, item.origin))
    ensures var after := Enqueue(config, web, st, item, link);
      Adding(config, web, roots, Log(after), after.visited, item.depth)
  {
    EnqueueLog(config, web, st, item, link);
    UrlsAppend(Log(st), Item(link, item.depth + 1, item.origin));
  }

  lemma EnqueueTarget(config: Config, web: Web, roots: set<Url>, st: State, item: Item, link: Url)
    requires Adding(config, web, roots, Log(st), st.visited, item.depth)
    requires Walk(config, web, roots, item.url, item.depth) && item.depth < config.maxDepth && AtHome(config, web, item)
    requires Leads(config, web, item.url, link) ==> link in Targets(config, web, item.url)
    ensures var after := Enqueue(config, web, st, item, link);
      Adding(config, web, roots, Log(after), after.visited, item.depth)
  {
    if Enqueue(config, web, st, item, link) != st {
      WalkOn(config, web, roots, item.url, link, item.depth);
      EnqueueKeeps(config, web, roots, st, item, link);
    }
  }

  lemma {:induction false} EnqueueAllKeeps(
    config: Config, web: Web, roots: set<Url>, st: State, item: Item, links: seq<Url>)
    requires Adding(config, web, roots, Log(st), st.visited, item.depth)
    requires Walk(config, web, roots, item.url, item.depth) && item.depth < config.maxDepth && AtHome(config, web, item)
    requires AddsTargets(config, web, item.url, links)
    ensures var after := EnqueueAll(config, web, st, item, links);
      && Adding(config, web, roots, Log(after), after.visited, item.depth)
      && after.done == st.done && after.counts == st.counts && IsPrefix(Log(st), Log(after))
    decreases |links|
  {
    if links != [] {
      var next := Enqueue(config, web, st, item, links[0]);
      EnqueueLog(config, web, st, item, links[0]);
      assert links[0] in links;
      EnqueueTarget(config, web, roots, st, item, links[0]);
      EnqueueAllKeeps(config, web, roots, next, item, links[1..]);
    }
  }

  /** The state after the first of the queue was taken and looked at, before its links are added. */
  function Taken(st: State): State
    requires st.queue != []
  {
    st.(queue := st.queue[1..], done := st.done + [st.queue[0]])
  }

  function Next(config: Config, web: Web, st: State): State
    requires st.queue != []
  {
    Process(config, web, st.(queue := st.queue[1..]), st.queue[0])
  }

  lemma TakenLog(st: State)
    requires st.queue != []
    ensures Log(Taken(st)) == Log(st)
  {
  }

  /** The links that the first of the queue adds. */
  function NewLinks(config: Config, web: Web, st: State): seq<Url>
    requires st.queue != []
  {
    var page := web.fetch(st.queue[0].url);
    if Follows(config, page, st.queue[0].depth) then Links(web, page.hrefs) else []
  }

  function NewCounts(web: Web, st: State): map<string, nat>
    requires st.queue != []
  {
    if web.fetch(st.queue[0].url).Broken? then st.counts else Counted(web, st.counts, st.queue[0].url)
  }

  lemma NextIsEnqueue(config: Config, web: Web, st: State)
    requires st.queue != []
    ensures Next(config, web, st)
         == EnqueueAll(config, web, Taken(st).(counts := NewCounts(web, st)), st.queue[0], NewLinks(config, web, st))
  {
  }

  predicate AddsTargets(config: Config, web: Web, url: Url, links: seq<Url>) {
    forall link | link in links && Leads(config, web, url, link) :: link in Targets(config, web, url)
  }

  lemma NewLinksAreTargets(config: Config, web: Web, st: State)
    requires st.queue != []
    ensures AddsTargets(config, web, st.queue[0].url, NewLinks(config, web, st))
  {
    var url, links := st.queue[0].url, NewLinks(config, web, st);
    forall link | link in links && Leads(config, web, url, link) ensures link in Targets(config, web, url) {
      LinksIff(web, web.fetch(url).hrefs, link);
    }
  }

  lemma NextKeepsSound(config: Config, web: Web, roots: set<Url>, st: State)
    requires Sound(config, web, roots, st) && st.queue != []
    ensures var after := Next(config, web, st);
      && Sound(config, web, roots, after) && IsPrefix(Log(st), Log(after))
      && after.done == st.done + [st.queue[0]] && after.counts == NewCounts(web, st)
      && UpTo(Log(after), st.queue[0].depth + 1)
  {
    var item, links := st.queue[0], NewLinks(config, web, st);
    var taken := Taken(st).(counts := NewCounts(web, st));
    TakenLog(st);
    NextIsEnqueue(config, web, st);
    NewLinksAreTargets(config, web, st);
    assert Log(st)[|st.done|] == item;
    if links != [] {
      EnqueueAllKeeps(config, web, roots, taken, item, links);
    }
    var after := Next(config, web, st);
    if after.queue != [] {
      var log := Log(after);
      assert log[|st.done|] == item && log[|st.done| + 1] == after.queue[0];
    }
  }

  // ---------------------------------------------------------------- each page once

  /** Normalising the links of the page once more does not change them. */
  ghost predicate SettledLinks(web: Web, hrefs: seq<Url>) {
    forall link | link in Links(web, hrefs) && web.onion(link) :: web.normal(link) == link
  }

  /** So it is for every page of the web. */
  ghost predicate Settled(web: Web) {
    forall url: Url :: var page := web.fetch(url); page.Page? ==> SettledLinks(web, page.hrefs)
  }

  ghost predicate Once(st: State) {
    Distinct(Log(st)) && Urls(Log(st)) <= st.visited
  }

  lemma LinksAreNormal(web: Web, url: Url, link: Url)
    requires Settled(web) && web.fetch(url).Page? && link in Links(web, web.fetch(url).hrefs) && web.onion(link)
    ensures web.normal(link) == link
  {
    assert SettledLinks(web, web.fetch(url).hrefs);
  }

  /** On this link, and on what it becomes, the web normalises as the program does. */
  predicate Shipped(web: Web, href: Url) {
    && IsWeb(href) && web.normal(href) == NormalizeUrl(href)
    && IsWeb(web.normal(href)) && web.normal(web.normal(href)) == NormalizeUrl(web.normal(href))
  }

  ghost predicate LinkOf(web: Web, url: Url, href: Url) {
    web.fetch(url).Page? && href in web.fetch(url).hrefs && web.onion(href)
  }

  /** With the normaliser of the program, a web is settled if and only if no link of a page is one that changes twice. */
  lemma ShippedIsSettled(web: Web)
    requires forall url: Url, href: Url | LinkOf(web, url, href) :: Shipped(web, href) && web.onion(web.normal(href))
    ensures Settled(web) <==> forall url: Url, href: Url | LinkOf(web, url, href) :: !ChangesTwice(href)
  {
    if forall url: Url, href: Url | LinkOf(web, url, href) :: !ChangesTwice(href) {
      forall url: Url | web.fetch(url).Page? ensures SettledLinks(web, web.fetch(url).hrefs) {
        var hrefs := web.fetch(url).hrefs;
        forall link | link in Links(web, hrefs) ensures web.normal(link) == link {
          var href := LinkIsNormalised(web, hrefs, link);
          assert LinkOf(web, url, href);
          NormalTwice(href);
        }
      }
    }
    if Settled(web) {
      forall url: Url, href: Url | LinkOf(web, url, href) ensures !ChangesTwice(href) {
        LinkIsFound(web, web.fetch(url).hrefs, href);
        LinksAreNormal(web, url, web.normal(href));
        NormalTwice(href);
      }
    }
  }

  lemma EnqueueOnce(config: Config, web: Web, st: State, item: Item, link: Url)
    requires Once(st) && (web.onion(link) ==> web.normal(link) == link)
    ensures Once(Enqueue(config, web, st, item, link))
  {
    EnqueueLog(config, web, st, item, link);
    UrlsAppend(Log(st), Item(link, item.depth + 1, item.origin));
    var log := Log(st);
    forall i | 0 <= i < |log| ensures log[i].url in st.visited {
      assert log[i].url in Urls(log);
    }
  }

  lemma {:induction false} EnqueueAllOnce(config: Config, web: Web, st: State, item: Item, links: seq<Url>)
    requires Once(st) && forall link | link in links && web.onion(link) :: web.normal(link) == link
    ensures Once(EnqueueAll(config, web, st, item, links))
    decreases |links|
  {
    if links != [] {
      assert links[0] in links;
      EnqueueOnce(config, web, st, item, links[0]);
      EnqueueAllOnce(config, web, Enqueue(config, web, st, item, links[0]), item, links[1..]);
    }
  }

  lemma NextKeepsOnce(config: Config, web: Web, st: State)
    requires Settled(web) && Once(st) && st.queue != []
    ensures Once(Next(config, web, st))
  {
    TakenLog(st);
    NextIsEnqueue(config, web, st);
    var links := NewLinks(config, web, st);
    forall link | link in links && web.onion(link) ensures web.normal(link) == link {
      LinksAreNormal(web, st.queue[0].url, link);
    }
    EnqueueAllOnce(config, web, Taken(st).(counts := NewCounts(web, st)), st.queue[0], links);
  }

  // ---------------------------------------------------------------- the page limit

  function OfDomain(web: Web, urls: set<Url>, domain: string): set<Url> {
    set url | url in urls && web.domain(url) == domain
  }

  /** The pages of a domain that were counted are among those that were looked at. */
  ghost predicate CountsFit(web: Web, counts: map<string, nat>, done: seq<Item>) {
    forall domain :: CountOf(counts, domain) <= |OfDomain(web, Urls(done), domain)|
  }

  lemma NextKeepsCounts(config: Config, web: Web, st: State)
    requires CountsFit(web, st.counts, st.done) && Once(st) && st.queue != []
    ensures CountsFit(web, NewCounts(web, st), Taken(st).done)
  {
    var item := st.queue[0];
    UrlsAppend(st.done, item);
    var log := Log(st);
    forall i | 0 <= i < |st.done| ensures st.done[i].url != item.url {
      assert log[i].url != log[|st.done|].url;
    }
    forall domain ensures CountOf(NewCounts(web, st), domain) <= |OfDomain(web, Urls(Taken(st).done), domain)| {
      assert CountOf(st.counts, domain) <= |OfDomain(web, Urls(st.done), domain)|;
      OfDomainAdd(web, Urls(st.done), item.url, domain);
    }
  }

  lemma OfDomainAdd(web: Web, urls: set<Url>, url: Url, domain: string)
    requires url !in urls
    ensures |OfDomain(web, urls + {url}, domain)|
         == |OfDomain(web, urls, domain)| + (if web.domain(url) == domain then 1 else 0)
  {
    var before, after := OfDomain(web, urls, domain), OfDomain(web, urls + {url}, domain);
    assert after == if web.domain(url) == domain then before + {url} else before;
  }

  /** The limits of the configuration turn no page away. */
  ghost predicate Roomy(config: Config, web: Web, roots: set<Url>) {
    forall domain :: |OfDomain(web, Within(config, web, roots, Reach(config)), domain)| <= config.maxPagesPerDomain
  }

  /** How far a crawl goes. */
  function Reach(config: Config): nat {
    if config.maxDepth > 0 then config.maxDepth else 0
  }

  lemma AllowedIsWithin(config: Config, web: Web, roots: set<Url>, item: Item)
    requires Allowed(config, web, roots, item)
    ensures item.url in Within(config, web, roots, Reach(config))
  {
    WalkIsWithin(config, web, roots, item.url, item.depth, Reach(config));
  }

  /** A link is turned away only when it is in the queue or was fetched already. */
  lemma NoneTurnedAway(config: Config, web: Web, roots: set<Url>, st: State, item: Item, link: Url)
    requires Roomy(config, web, roots) && CountsFit(web, st.counts, st.done)
    requires Adding(config, web, roots, Log(st), st.visited, item.depth)
    requires Allowed(config, web, roots, Item(link, item.depth + 1, item.origin))
    requires web.onion(link) && web.normal(link) == link
    ensures ShouldCrawl(config, web, st.visited, st.counts, link, item.origin) <==> link !in st.visited
  {
    if link !in st.visited {
      var domain := web.domain(link);
      var all := OfDomain(web, Within(config, web, roots, Reach(config)), domain);
      var seen := OfDomain(web, Urls(st.done), domain);
      AllowedIsWithin(config, web, roots, Item(link, item.depth + 1, item.origin));
      forall url | url in seen ensures url in all && url != link {
        var i :| 0 <= i < |st.done| && st.done[i].url == url;
        assert Log(st)[i] == st.done[i];
        AllowedIsWithin(config, web, roots, Log(st)[i]);
        assert url in Urls(Log(st));
      }
      SubsetSize(seen + {link}, all);
      assert CountOf(st.counts, domain) <= |seen|;
    }
  }

  // ---------------------------------------------------------------- every page within reach

  ghost predicate Known(log: seq<Item>, url: Url, depth: int) {
    exists i :: 0 <= i < |log| && log[i].url == url && log[i].depth <= depth
  }

  /** The pages that an item leads to are in the log, at most one link deeper. */
  ghost predicate LinksKnown(config: Config, web: Web, log: seq<Item>, item: Item) {
    item.depth < config.maxDepth ==>
      forall link | link in Targets(config, web, item.url) :: Known(log, link, item.depth + 1)
  }

  ghost predicate Followed(config: Config, web: Web, st: State) {
    forall i | 0 <= i < |st.done| :: LinksKnown(config, web, Log(st), st.done[i])
  }

  /** All that an exact crawl keeps. */
  ghost predicate Exact(config: Config, web: Web, roots: set<Url>, st: State) {
    && Sound(config, web, roots, st) && Once(st) && st.visited == Urls(Log(st))
    && CountsFit(web, st.counts, st.done) && Followed(config, web, st)
  }

  lemma KnownLater(a: seq<Item>, b: seq<Item>, url: Url, depth: int)
    requires IsPrefix(a, b) && Known(a, url, depth)
    ensures Known(b, url, depth)
  {
    var i :| 0 <= i < |a| && a[i].url == url && a[i].depth <= depth;
    assert b[i] == a[i];
  }

  lemma LinksKnownLater(config: Config, web: Web, a: seq<Item>, b: seq<Item>, item: Item)
    requires IsPrefix(a, b) && LinksKnown(config, web, a, item)
    ensures LinksKnown(config, web, b, item)
  {
    if item.depth < config.maxDepth {
      forall link | link in Targets(config, web, item.url) ensures Known(b, link, item.depth + 1) {
        KnownLater(a, b, link, item.depth + 1);
      }
    }
  }

  /** Adding the links makes every one of them visited, and nothing else. */
  lemma {:induction false} EnqueueAllVisits(
    config: Config, web: Web, roots: set<Url>, st: State, item: Item, links: seq<Url>)
    requires Roomy(config, web, roots) && CountsFit(web, st.counts, st.done)
    requires Adding(config, web, roots, Log(st), st.visited, item.depth) && st.visited == Urls(Log(st))
    requires Walk(config, web, roots, item.url, item.depth) && item.depth < config.maxDepth && AtHome(config, web, item)
    requires AddsTargets(config, web, item.url, links)
    requires forall link | link in links && web.onion(link) :: web.normal(link) == link
    ensures var after := EnqueueAll(config, web, st, item, links);
      && after.visited == Urls(Log(after)) && st.visited <= after.visited
      && forall link | link in links && Leads(config, web, item.url, link) :: link in after.visited
    decreases |links|
  {
    if links != [] {
      var link := links[0];
      var next := Enqueue(config, web, st, item, link);
      assert link in links;
      EnqueueLog(config, web, st, item, link);
      UrlsAppend(Log(st), Item(link, item.depth + 1, item.origin));
      if Leads(config, web, item.url, link) {
        WalkOn(config, web, roots, item.url, link, item.depth);
        NoneTurnedAway(config, web, roots, st, item, link);
        EnqueueKeeps(config, web, roots, st, item, link);
      }
      EnqueueAllVisits(config, web, roots, next, item, links[1..]);
    }
  }

  lemma NextVisits(config: Config, web: Web, roots: set<Url>, st: State)
    requires Settled(web) && Roomy(config, web, roots) && Exact(config, web, roots, st) && st.queue != []
    ensures var after := Next(config, web, st);
      && after.visited == Urls(Log(after))
      && forall link | link in NewLinks(config, web, st) && Leads(config, web, st.queue[0].url, link) ::
           link in after.visited
  {
    var item, links := st.queue[0], NewLinks(config, web, st);
    TakenLog(st);
    NextIsEnqueue(config, web, st);
    NewLinksAreTargets(config, web, st);
    NextKeepsCounts(config, web, st);
    assert Log(st)[|st.done|] == item;
    forall link | link in links && web.onion(link) ensures web.normal(link) == link {
      LinksAreNormal(web, item.url, link);
    }
    if links != [] {
      EnqueueAllVisits(config, web, roots, Taken(st).(counts := NewCounts(web, st)), item, links);
    }
  }

  lemma NextFollows(config: Config, web: Web, roots: set<Url>, st: State)
    requires Settled(web) && Roomy(config, web, roots) && Exact(config, web, roots, st) && st.queue != []
    ensures LinksKnown(config, web, Log(Next(config, web, st)), st.queue[0])
  {
    var item, log := st.queue[0], Log(Next(config, web, st));
    NextVisits(config, web, roots, st);
    NextKeepsSound(config, web, roots, st);
    if item.depth < config.maxDepth {
      forall link | link in Targets(config, web, item.url) ensures Known(log, link, item.depth + 1) {
        LinksIff(web, web.fetch(item.url).hrefs, link);
        assert link in NewLinks(config, web, st) && Leads(config, web, item.url, link);
        assert link in Urls(log);
      }
    }
  }

  lemma NextKeepsExact(config: Config, web: Web, roots: set<Url>, st: State)
    requires Settled(web) && Roomy(config, web, roots) && Exact(config, web, roots, st) && st.queue != []
    ensures Exact(config, web, roots, Next(config, web, st))
  {
    var after := Next(config, web, st);
    NextKeepsSound(config, web, roots, st);
    NextKeepsOnce(config, web, st);
    NextKeepsCounts(config, web, st);
    NextVisits(config, web, roots, st);
    NextFollows(config, web, roots, st);
    forall i | 0 <= i < |after.done| ensures LinksKnown(config, web, Log(after), after.done[i]) {
      if i < |st.done| {
        assert after.done[i] == st.done[i];
        LinksKnownLater(config, web, Log(st), Log(after), st.done[i]);
      }
    }
  }

  // ---------------------------------------------------------------- whole crawls

  lemma {:induction false} SearchKeepsSound(config: Config, web: Web, roots: set<Url>, st: State)
    requires Sound(config, web, roots, st)
    ensures var end := Search(config, web, st);
      Sound(config, web, roots, end) && end.queue == [] && IsPrefix(Log(st), end.done)
    decreases Load(config, web, st.queue)
  {
    if st.queue != [] {
      ProcessLoad(config, web, st.(queue := st.queue[1..]), st.queue[0]);
      NextKeepsSound(config, web, roots, st);
      SearchKeepsSound(config, web, roots, Next(config, web, st));
    }
  }

  lemma {:induction false} SearchKeepsOnce(config: Config, web: Web, st: State)
    requires Settled(web) && Once(st)
    ensures Once(Search(config, web, st))
    decreases Load(config, web, st.queue)
  {
    if st.queue != [] {
      ProcessLoad(config, web, st.(queue := st.queue[1..]), st.queue[0]);
      NextKeepsOnce(config, web, st);
      SearchKeepsOnce(config, web, Next(config, web, st));
    }
  }

  lemma {:induction false} SearchKeepsExact(config: Config, web: Web, roots: set<Url>, st: State)
    requires Settled(web) && Roomy(config, web, roots) && Exact(config, web, roots, st)
    ensures Exact(config, web, roots, Search(config, web, st))
    decreases Load(config, web, st.queue)
  {
    if st.queue != [] {
      ProcessLoad(config, web, st.(queue := st.queue[1..]), st.queue[0]);
      NextKeepsExact(config, web, roots, st);
      SearchKeepsExact(config, web, roots, Next(config, web, st));
    }
  }

  /** At the end a page that a walk reaches is known at no greater depth. */
  lemma {:induction false} WalkIsKnown(config: Config, web: Web, roots: set<Url>, st: State, url: Url, d: nat)
    requires Exact(config, web, roots, st) && st.queue == [] && Walk(config, web, roots, url, d) && d <= Reach(config)
    requires forall root | root in roots :: Known(st.done, root, 0)
    ensures Known(st.done, url, d)
    decreases d
  {
    if d > 0 {
      var p :| Walk(config, web, roots, p, d - 1) && url in Targets(config, web, p);
      WalkIsKnown(config, web, roots, st, p, d - 1);
      var i :| 0 <= i < |st.done| && st.done[i].url == p && st.done[i].depth <= d - 1;
      assert LinksKnown(config, web, Log(st), st.done[i]);
      assert Log(st) == st.done;
      KnownDeeper(st.done, url, st.done[i].depth + 1, d);
    }
  }

  lemma KnownDeeper(log: seq<Item>, url: Url, a: int, b: int)
    requires Known(log, url, a) && a <= b
    ensures Known(log, url, b)
  {
  }

  // ---------------------------------------------------------------- a crawl from its seeds

  /** The search from its seeds, by a crawler that has visited nothing. */
  function Crawled(config: Config, web: Web, seeds: seq<Url>): seq<Item> {
    Search(config, web, Start(web, seeds, {}, map[])).done
  }

  function Roots(web: Web, seeds: seq<Url>): set<Url> {
    Urls(SeedItems(web, seeds))
  }

  lemma {:induction false} SeedItemsFacts(web: Web, seeds: seq<Url>)
    ensures forall item | item in SeedItems(web, seeds) :: item.depth == 0 && item.origin == web.domain(item.url)
  {
    if seeds != [] {
      SeedItemsFacts(web, seeds[1..]);
    }
  }

  lemma UrlsPrepend(item: Item, log: seq<Item>)
    ensures Urls([item] + log) == {item.url} + Urls(log)
  {
    var longer := [item] + log;
    assert longer[0] == item;
    forall url | url in Urls(log) ensures url in Urls(longer) {
      var i :| 0 <= i < |log| && log[i].url == url;
      assert longer[i + 1].url == url;
    }
  }

  lemma {:induction false} StartVisits(web: Web, seeds: seq<Url>)
    ensures SeedUrls(web, seeds) == Roots(web, seeds)
  {
    if seeds != [] {
      StartVisits(web, seeds[1..]);
      if web.onion(seeds[0]) {
        var url := web.normal(seeds[0]);
        UrlsPrepend(Item(url, 0, web.domain(url)), SeedItems(web, seeds[1..]));
      } else {
        assert SeedItems(web, seeds) == SeedItems(web, seeds[1..]);
      }
    }
  }

  lemma StartIsSound(config: Config, web: Web, seeds: seq<Url>, visited: set<Url>, counts: map<string, nat>)
    ensures var st := Start(web, seeds, visited, counts);
      && Sound(config, web, Roots(web, seeds), st) && st.visited == visited + Urls(Log(st))
      && Log(st) == SeedItems(web, seeds)
  {
    var st := Start(web, seeds, visited, counts);
    StartVisits(web, seeds);
    assert Log(st) == st.queue;
    SeedsAreAllowed(config, web, seeds);
    FreshIsSound(config, web, Roots(web, seeds), st);
  }

  lemma FreshIsSound(config: Config, web: Web, roots: set<Url>, st: State)
    requires Log(st) == st.queue && Sorted(st.queue) && UpTo(st.queue, 0) && Urls(st.queue) <= st.visited
    requires forall i | 0 <= i < |st.queue| :: Allowed(config, web, roots, st.queue[i])
    ensures Sound(config, web, roots, st)
  {
  }

  lemma SeedsAreAllowed(config: Config, web: Web, seeds: seq<Url>)
    ensures Sorted(SeedItems(web, seeds)) && UpTo(SeedItems(web, seeds), 0)
    ensures forall i | 0 <= i < |SeedItems(web, seeds)| :: Allowed(config, web, Roots(web, seeds), SeedItems(web, seeds)[i])
  {
    var items := SeedItems(web, seeds);
    SeedItemsFacts(web, seeds);
    forall i | 0 <= i < |items| ensures items[i].depth == 0 && Allowed(config, web, Roots(web, seeds), items[i]) {
      assert items[i] in items && items[i].url in Urls(items);
    }
  }

  /**
   Every crawl: what is fetched lies on a walk from a seed of the length that is recorded, within
   the depth limit, and the depths never fall.
   */
  lemma CrawlIsSound(config: Config, web: Web, seeds: seq<Url>)
    ensures var done := Crawled(config, web, seeds);
      Sorted(done) && forall i | 0 <= i < |done| :: Allowed(config, web, Roots(web, seeds), done[i])
  {
    EndOfCrawl(config, web, seeds);
  }

  /** When links stay as they are normalised: every page is fetched once if and only if no seed is given twice. */
  lemma FetchedOnce(config: Config, web: Web, seeds: seq<Url>)
    requires Settled(web)
    ensures Distinct(Crawled(config, web, seeds)) <==> Distinct(SeedItems(web, seeds))
  {
    var st := Start(web, seeds, {}, map[]);
    StartIsSound(config, web, seeds, {}, map[]);
    EndOfCrawl(config, web, seeds);
    if Distinct(SeedItems(web, seeds)) {
      SearchKeepsOnce(config, web, st);
    } else {
      PrefixIsDistinct(SeedItems(web, seeds), Crawled(config, web, seeds));
    }
  }

  lemma PrefixIsDistinct(a: seq<Item>, b: seq<Item>)
    requires IsPrefix(a, b)
    ensures Distinct(b) ==> Distinct(a)
  {
    assert forall i | 0 <= i < |a| :: a[i] == b[i];
  }

  lemma EndOfCrawl(config: Config, web: Web, seeds: seq<Url>)
    ensures var end := Search(config, web, Start(web, seeds, {}, map[]));
      && end.queue == [] && Log(end) == end.done && end.done == Crawled(config, web, seeds)
      && IsPrefix(SeedItems(web, seeds), end.done) && Sound(config, web, Roots(web, seeds), end)
  {
    StartIsSound(config, web, seeds, {}, map[]);
    SearchKeepsSound(config, web, Roots(web, seeds), Start(web, seeds, {}, map[]));
  }

  /**
   On a web whose links stay as they are normalised, from distinct seeds, with room enough: the
   crawl fetches exactly the pages within its depth, each once and at its shortest distance.
   */
  lemma ShortestDistances(config: Config, web: Web, seeds: seq<Url>)
    requires Settled(web) && Distinct(SeedItems(web, seeds)) && Roomy(config, web, Roots(web, seeds))
    ensures var done := Crawled(config, web, seeds);
      && Distinct(done) && Sorted(done)
      && Urls(done) == Within(config, web, Roots(web, seeds), Reach(config))
      && forall i | 0 <= i < |done| :: IsDistance(config, web, Roots(web, seeds), done[i].url, done[i].depth)
  {
    var roots := Roots(web, seeds);
    StartIsSound(config, web, seeds, {}, map[]);
    SearchKeepsExact(config, web, roots, Start(web, seeds, {}, map[]));
    EndOfCrawl(config, web, seeds);
    RootsAreKnown(web, seeds, Crawled(config, web, seeds));
    EndReaches(config, web, roots, Search(config, web, Start(web, seeds, {}, map[])));
  }

  lemma EndReaches(config: Config, web: Web, roots: set<Url>, end: State)
    requires Exact(config, web, roots, end) && end.queue == [] && Log(end) == end.done
    requires forall root | root in roots :: Known(end.done, root, 0)
    ensures Urls(end.done) == Within(config, web, roots, Reach(config))
    ensures forall i | 0 <= i < |end.done| :: IsDistance(config, web, roots, end.done[i].url, end.done[i].depth)
  {
    forall url | url in Within(config, web, roots, Reach(config)) ensures url in Urls(end.done) {
      var d := WithinHasWalk(config, web, roots, url, Reach(config));
      WalkIsKnown(config, web, roots, end, url, d);
    }
    forall i | 0 <= i < |end.done|
      ensures IsDistance(config, web, roots, end.done[i].url, end.done[i].depth)
      ensures end.done[i].url in Within(config, web, roots, Reach(config))
    {
      assert Allowed(config, web, roots, Log(end)[i]);
      AllowedIsWithin(config, web, roots, end.done[i]);
      NoShorterWalk(config, web, roots, end, i);
    }
  }

  lemma {:induction false} YieldedIff(web: Web, done: seq<Item>, item: Item)
    ensures item in Yields(web, done) <==> item in done && web.fetch(item.url).Page?
  {
    if done != [] {
      var before, last := done[..|done| - 1], done[|done| - 1];
      YieldedIff(web, before, item);
      assert done == before + [last];
    }
  }

  /** So what it yields is each page that answers within the depth, with its distance. */
  lemma YieldsNearPages(config: Config, web: Web, seeds: seq<Url>, url: Url, d: nat)
    requires Settled(web) && Distinct(SeedItems(web, seeds)) && Roomy(config, web, Roots(web, seeds))
    ensures (exists item :: item in Yields(web, Crawled(config, web, seeds)) && item.url == url && item.depth == d)
       <==> web.fetch(url).Page? && d <= Reach(config) && IsDistance(config, web, Roots(web, seeds), url, d)
  {
    var done, roots := Crawled(config, web, seeds), Roots(web, seeds);
    ShortestDistances(config, web, seeds);
    CrawlIsSound(config, web, seeds);
    if item :| item in Yields(web, done) && item.url == url && item.depth == d {
      YieldedIff(web, done, item);
      var i :| 0 <= i < |done| && done[i] == item;
      assert Allowed(config, web, roots, done[i]);
    }
    if web.fetch(url).Page? && d <= Reach(config) && IsDistance(config, web, roots, url, d) {
      WalkIsWithin(config, web, roots, url, d, Reach(config));
      var i :| 0 <= i < |done| && done[i].url == url;
      assert IsDistance(config, web, roots, done[i].url, done[i].depth);
      YieldedIff(web, done, done[i]);
    }
  }

  ghost predicate IsDistance(config: Config, web: Web, roots: set<Url>, url: Url, d: nat) {
    Walk(config, web, roots, url, d) && forall k: nat | Walk(config, web, roots, url, k) :: d <= k
  }

  lemma NoShorterWalk(config: Config, web: Web, roots: set<Url>, end: State, i: nat)
    requires Exact(config, web, roots, end) && end.queue == [] && i < |end.done|
    requires forall root | root in roots :: Known(end.done, root, 0)
    ensures IsDistance(config, web, roots, end.done[i].url, end.done[i].depth)
  {
    var item := end.done[i];
    assert Log(end) == end.done;
    assert Allowed(config, web, roots, Log(end)[i]);
    forall k: nat | Walk(config, web, roots, item.url, k) ensures item.depth <= k {
      if k < item.depth {
        WalkIsKnown(config, web, roots, end, item.url, k);
        KnownAtItsDepth(end.done, i, k);
      }
    }
  }

  lemma KnownAtItsDepth(log: seq<Item>, i: nat, depth: int)
    requires Distinct(log) && i < |log| && Known(log, log[i].url, depth)
    ensures log[i].depth <= depth
  {
    var j :| 0 <= j < |log| && log[j].url == log[i].url && log[j].depth <= depth;
    assert i == j;
  }

  lemma RootsAreKnown(web: Web, seeds: seq<Url>, done: seq<Item>)
    requires IsPrefix(SeedItems(web, seeds), done)
    ensures forall root | root in Roots(web, seeds) :: Known(done, root, 0)
  {
    var items := SeedItems(web, seeds);
    SeedItemsFacts(web, seeds);
    forall root | root in Roots(web, seeds) ensures Known(done, root, 0) {
      var i :| 0 <= i < |items| && items[i].url == root;
      assert done[i] == items[i];
    }
  }

  // ---------------------------------------------------------------- when normalising twice matters

  lemma {:induction false} EnqueueAllExtends(config: Config, web: Web, st: State, item: Item, links: seq<Url>)
    ensures IsPrefix(Log(st), Log(EnqueueAll(config, web, st, item, links)))
    decreases |links|
  {
    if links != [] {
      EnqueueLog(config, web, st, item, links[0]);
      EnqueueAllExtends(config, web, Enqueue(config, web, st, item, links[0]), item, links[1..]);
    }
  }

  lemma {:induction false} SearchExtends(config: Config, web: Web, st: State)
    ensures IsPrefix(Log(st), Search(config, web, st).done)
    decreases Load(config, web, st.queue)
  {
    if st.queue != [] {
      ProcessLoad(config, web, st.(queue := st.queue[1..]), st.queue[0]);
      TakenLog(st);
      NextIsEnqueue(config, web, st);
      EnqueueAllExtends(config, web, Taken(st).(counts := NewCounts(web, st)), st.queue[0], NewLinks(config, web, st));
      SearchExtends(config, web, Next(config, web, st));
    }
  }

  /** A web in which every page links to one address. */
  function LinkingTo(web: Web, href: Url): Web {
    web.(fetch := (_: Url) => Page([href], false))
  }

  /**
   The condition is needed: if normalising some address twice differs from normalising it once, then
   there is a web whose pages this crawler fetches twice, although one seed is given.
   */
  lemma UnsettledIsFetchedTwice(config: Config, web: Web, href: Url)
    requires web.onion(href) && web.onion(web.normal(href)) && web.normal(web.normal(href)) != web.normal(href)
    requires config.maxDepth >= 1 && config.maxPagesPerDomain >= 2
    ensures !Distinct(Crawled(config, LinkingTo(web, href), [href]))
  {
    var loop, link := LinkingTo(web, href), web.normal(href);
    var seed := Item(link, 0, web.domain(link));
    var st := Start(loop, [href], {}, map[]);
    assert SeedItems(loop, [href]) == [seed] by {
      assert [href][1..] == [];
    }
    assert SeedUrls(loop, [href]) == {link} by {
      assert [href][1..] == [];
    }
    var again := Item(link, 1, seed.origin);
    assert Links(loop, [href]) == [link] by {
      assert [href][1..] == [];
    }
    NextIsEnqueue(config, loop, st);
    var taken := Taken(st).(counts := NewCounts(loop, st));
    assert ShouldCrawl(config, loop, taken.visited, taken.counts, link, seed.origin);
    assert EnqueueAll(config, loop, taken, seed, [link]) == Enqueue(config, loop, taken, seed, link) by {
      assert [link][1..] == [];
    }
    EnqueueLog(config, loop, taken, seed, link);
    var after := Next(config, loop, st);
    assert Log(after)[0].url == Log(after)[1].url;
    ProcessLoad(config, loop, st.(queue := st.queue[1..]), st.queue[0]);
    SearchExtends(config, loop, after);
    assert Crawled(config, loop, [href])[0] == Log(after)[0] && Crawled(config, loop, [href])[1] == Log(after)[1];
  }

  /**
   The program meets it: whatever link changes twice, such as `http://x.onion/a?/` and `http://x.onion/a;/`, a page
   that links to itself by it is fetched twice from one seed.
   */
  lemma ShippedCrawlerFetchesTwice(config: Config, web: Web, href: Url)
    requires Shipped(web, href) && web.onion(href) && web.onion(web.normal(href)) && ChangesTwice(href)
    requires config.maxDepth >= 1 && config.maxPagesPerDomain >= 2
    ensures !Distinct(Crawled(config, LinkingTo(web, href), [href]))
  {
    NormalTwice(href);
    UnsettledIsFetchedTwice(config, web, href);
  }
}
