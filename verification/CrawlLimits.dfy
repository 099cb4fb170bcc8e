/**
 What the limits of a crawl turn away: with `stayOnDomain` it keeps to the domain of a seed, and no link
 is queued once `maxPagesPerDomain` pages of its domain have answered.
 */
module CrawlLimits {
  import opened Crawlers
  import opened CrawlerReach

  // ---------------------------------------------------------------- the domain of the seed

  /** Each page links to the one after it. */
  ghost predicate IsChain(web: Web, pages: seq<Url>) {
    forall k | 0 <= k < |pages| - 1 :: IsLink(web, pages[k], pages[k + 1])
  }

  ghost predicate IsLink(web: Web, url: Url, link: Url) {
    var page := web.fetch(url);
    && page.Page? && !page.failed && web.onion(link)
    && exists href :: href in page.hrefs && web.onion(href) && link == web.normal(href)
  }

  predicate OnDomain(web: Web, pages: seq<Url>, domain: string) {
    forall k | 0 <= k < |pages| :: web.domain(pages[k]) == domain
  }

  /** A walk is a chain of links from a seed; on the domain where it ends, if it is to stay there. */
  lemma {:induction false} WalkIsChain(config: Config, web: Web, roots: set<Url>, url: Url, d: nat)
    returns (pages: seq<Url>)
    requires Walk(config, web, roots, url, d)
    ensures |pages| == d + 1 && pages[0] in roots && pages[d] == url && IsChain(web, pages)
    ensures config.stayOnDomain ==> OnDomain(web, pages, web.domain(url))
    decreases d
  {
    pages := [url];
    if d > 0 {
      var p :| Walk(config, web, roots, p, d - 1) && url in Targets(config, web, p);
      var before := WalkIsChain(config, web, roots, p, d - 1);
      pages := before + [url];
    }
  }

  /** And every such chain is a walk. */
  lemma {:induction false} ChainIsWalk(config: Config, web: Web, roots: set<Url>, pages: seq<Url>)
    requires pages != [] && pages[0] in roots && IsChain(web, pages)
    requires config.stayOnDomain ==> OnDomain(web, pages, web.domain(pages[0]))
    ensures Walk(config, web, roots, pages[|pages| - 1], |pages| - 1)
    decreases |pages|
  {
    if |pages| > 1 {
      var n := |pages| - 1;
      ChainIsWalk(config, web, roots, pages[..n]);
      assert IsLink(web, pages[n - 1], pages[n - 1 + 1]);
      WalkOn(config, web, roots, pages[n - 1], pages[n], n - 1);
    }
  }

  /**
   Everything a crawl fetches ends a chain of links from a seed, as long as the depth says. If the crawl is to
   stay on the domain, the whole chain is on one domain, which is the origin of the item.
   */
  lemma FetchedByChain(config: Config, web: Web, seeds: seq<Url>, item: Item) returns (pages: seq<Url>)
    requires item in Crawled(config, web, seeds)
    ensures |pages| == item.depth + 1 && pages[0] in Roots(web, seeds) && pages[item.depth] == item.url
    ensures IsChain(web, pages) && (item.depth == 0 || item.depth <= config.maxDepth)
    ensures config.stayOnDomain ==> OnDomain(web, pages, item.origin)
  {
    CrawlIsSound(config, web, seeds);
    pages := AllowedByChain(config, web, Roots(web, seeds), item);
  }

  /** So it is for what a crawl yields, which may be stopped at any time. */
  lemma AllowedByChain(config: Config, web: Web, roots: set<Url>, item: Item) returns (pages: seq<Url>)
    requires Allowed(config, web, roots, item)
    ensures |pages| == item.depth + 1 && pages[0] in roots && pages[item.depth] == item.url
    ensures IsChain(web, pages) && (item.depth == 0 || item.depth <= config.maxDepth)
    ensures config.stayOnDomain ==> OnDomain(web, pages, item.origin)
  {
    pages := WalkIsChain(config, web, roots, item.url, item.depth);
  }

  /** What is queued first is every seed that is an onion address, as it is normalised, and nothing else. */
  lemma {:induction false} SeedItemIff(web: Web, seeds: seq<Url>, item: Item)
    ensures item in SeedItems(web, seeds)
       <==> exists seed :: seed in seeds && web.onion(seed)
                           && item == Item(web.normal(seed), 0, web.domain(web.normal(seed)))
  {
    if seeds != [] {
      SeedItemIff(web, seeds[1..], item);
      var rest := SeedItems(web, seeds[1..]);
      assert item in SeedItems(web, seeds)
        <==> item in rest
             || (web.onion(seeds[0]) && item == Item(web.normal(seeds[0]), 0, web.domain(web.normal(seeds[0]))));
      assert forall seed :: seed in seeds <==> seed == seeds[0] || seed in seeds[1..];
    }
  }

  /** So every such seed is fetched at depth 0, before any link. */
  lemma SeedsAreFetched(config: Config, web: Web, seeds: seq<Url>, seed: Url)
    requires seed in seeds && web.onion(seed)
    ensures var done, first := Crawled(config, web, seeds), |SeedItems(web, seeds)|;
      first <= |done| && Item(web.normal(seed), 0, web.domain(web.normal(seed))) in done[..first]
  {
    EndOfCrawl(config, web, seeds);
    SeedItemIff(web, seeds, Item(web.normal(seed), 0, web.domain(web.normal(seed))));
  }

  // ---------------------------------------------------------------- the pages of a domain

  /** How many pages of the domain answered. */
  function Answered(web: Web, done: seq<Item>, domain: string): nat {
    if done == [] then 0
    else
      var last := done[|done| - 1].url;
      Answered(web, done[..|done| - 1], domain)
      + if web.fetch(last).Page? && web.domain(last) == domain then 1 else 0
  }

  ghost predicate CountsAre(web: Web, counts: map<string, nat>, done: seq<Item>) {
    forall domain :: CountOf(counts, domain) == Answered(web, done, domain)
  }

  /** Item `p` links to a page that may be fetched when the answer to the item has been counted. */
  ghost predicate Wanted(config: Config, web: Web, done: seq<Item>, p: nat, link: Url)
    requires p < |done|
  {
    && done[p].depth < config.maxDepth && IsLink(web, done[p].url, link)
    && (config.stayOnDomain ==> web.domain(link) == done[p].origin)
    && Answered(web, done[..p + 1], web.domain(link)) < config.maxPagesPerDomain
  }

  /** Item `k` of the log was queued for a link of item `p`. */
  ghost predicate QueuedFor(config: Config, web: Web, done: seq<Item>, log: seq<Item>, p: nat, k: nat)
    requires p < |done| && k < |log|
  {
    && p < k && Wanted(config, web, done, p, log[k].url)
    && log[k] == Item(log[k].url, done[p].depth + 1, done[p].origin)
    && web.normal(log[k].url) !in Urls(log[..k])
  }

  ghost predicate Queued(config: Config, web: Web, done: seq<Item>, log: seq<Item>, k: nat)
    requires k < |log|
  {
    exists p :: 0 <= p < |done| && QueuedFor(config, web, done, log, p, k)
  }

  /** The link is in the log, as it stands or as it is normalised once more. */
  predicate Met(web: Web, urls: set<Url>, link: Url) {
    link in urls || web.normal(link) in urls
  }

  ghost predicate AllMet(config: Config, web: Web, done: seq<Item>, urls: set<Url>, p: nat)
    requires p < |done|
  {
    forall link | Wanted(config, web, done, p, link) :: Met(web, urls, link)
  }

  /** After the first `seeds` items, the log holds exactly what is wanted; `heard` items have had their turn. */
  ghost predicate Limited(config: Config, web: Web, seeds: nat, st: State, heard: nat) {
    && st.visited == Urls(Log(st)) && CountsAre(web, st.counts, st.done)
    && seeds <= |Log(st)| && heard <= |st.done|
    && (forall k | seeds <= k < |Log(st)| :: Queued(config, web, st.done, Log(st), k))
    && (forall p | 0 <= p < heard :: AllMet(config, web, st.done, st.visited, p))
  }

  lemma QueuedLater(config: Config, web: Web, done: seq<Item>, log: seq<Item>, done': seq<Item>, log': seq<Item>, k: nat)
    requires k < |log| && Queued(config, web, done, log, k) && IsPrefix(done, done') && IsPrefix(log, log')
    ensures Queued(config, web, done', log', k)
  {
    var p :| 0 <= p < |done| && QueuedFor(config, web, done, log, p, k);
    assert done'[p] == done[p] && done'[..p + 1] == done[..p + 1];
    assert log'[k] == log[k] && log'[..k] == log[..k];
    assert QueuedFor(config, web, done', log', p, k);
  }

  lemma AllMetLater(config: Config, web: Web, done: seq<Item>, urls: set<Url>, more: set<Url>, p: nat)
    requires p < |done| && AllMet(config, web, done, urls, p) && urls <= more
    ensures AllMet(config, web, done, more, p)
  {
    forall link | Wanted(config, web, done, p, link) ensures Met(web, more, link) {
      assert Met(web, urls, link);
    }
  }

  /** One link of the item that was looked at last: it is queued if and only if it is wanted and new. */
  lemma EnqueueIsLimited(config: Config, web: Web, seeds: nat, st: State, heard: nat, link: Url)
    requires Limited(config, web, seeds, st, heard) && st.done != []
    requires var item := st.done[|st.done| - 1];
      Follows(config, web.fetch(item.url), item.depth) && link in Links(web, web.fetch(item.url).hrefs)
    ensures var p, after := |st.done| - 1, Enqueue(config, web, st, st.done[|st.done| - 1], link);
      && Limited(config, web, seeds, after, heard) && after.done == st.done && st.visited <= after.visited
      && (Wanted(config, web, st.done, p, link) ==> Met(web, after.visited, link))
  {
    var p := |st.done| - 1;
    var item := st.done[p];
    var after := Enqueue(config, web, st, item, link);
    assert st.done[..p + 1] == st.done;
    LinksIff(web, web.fetch(item.url).hrefs, link);
    EnqueueLog(config, web, st, item, link);
    if after != st {
      UrlsAppend(Log(st), Item(link, item.depth + 1, item.origin));
      var log, k := Log(after), |Log(st)|;
      assert log[..k] == Log(st) && QueuedFor(config, web, st.done, log, p, k);
      forall i | 0 <= i < heard ensures AllMet(config, web, st.done, after.visited, i) {
        AllMetLater(config, web, st.done, st.visited, after.visited, i);
      }
      forall i | seeds <= i < |log| ensures Queued(config, web, st.done, log, i) {
        if i < k {
          QueuedLater(config, web, st.done, Log(st), st.done, log, i);
        }
      }
    }
  }

  lemma {:induction false} EnqueueAllIsLimited(
    config: Config, web: Web, seeds: nat, st: State, heard: nat, links: seq<Url>)
    requires Limited(config, web, seeds, st, heard) && st.done != []
    requires var item := st.done[|st.done| - 1];
      && Follows(config, web.fetch(item.url), item.depth)
      && forall link | link in links :: link in Links(web, web.fetch(item.url).hrefs)
    ensures var p, after := |st.done| - 1, EnqueueAll(config, web, st, st.done[|st.done| - 1], links);
      && Limited(config, web, seeds, after, heard) && after.done == st.done && st.visited <= after.visited
      && forall link | link in links && Wanted(config, web, st.done, p, link) :: Met(web, after.visited, link)
    decreases |links|
  {
    if links != [] {
      assert links[0] in links;
      EnqueueIsLimited(config, web, seeds, st, heard, links[0]);
      var next := Enqueue(config, web, st, st.done[|st.done| - 1], links[0]);
      EnqueueAllIsLimited(config, web, seeds, next, heard, links[1..]);
    }
  }

  lemma TakenIsLimited(config: Config, web: Web, seeds: nat, st: State)
    requires Limited(config, web, seeds, st, |st.done|) && st.queue != []
    ensures Limited(config, web, seeds, Taken(st).(counts := NewCounts(web, st)), |st.done|)
  {
    var taken, log := Taken(st), Log(st);
    TakenLog(st);
    assert taken.done[..|st.done|] == st.done;
    forall k | seeds <= k < |log| ensures Queued(config, web, taken.done, log, k) {
      QueuedLater(config, web, st.done, log, taken.done, log, k);
    }
    forall p | 0 <= p < |st.done| ensures AllMet(config, web, taken.done, st.visited, p) {
      assert AllMet(config, web, st.done, st.visited, p);
      assert taken.done[..p + 1] == st.done[..p + 1];
    }
  }

  lemma NextIsLimited(config: Config, web: Web, seeds: nat, st: State)
    requires Limited(config, web, seeds, st, |st.done|) && st.queue != []
    ensures var after := Next(config, web, st);
      Limited(config, web, seeds, after, |after.done|)
  {
    var taken, links := Taken(st).(counts := NewCounts(web, st)), NewLinks(config, web, st);
    TakenIsLimited(config, web, seeds, st);
    NextIsEnqueue(config, web, st);
    var after := Next(config, web, st);
    if links != [] {
      EnqueueAllIsLimited(config, web, seeds, taken, |st.done|, links);
    }
    forall link | Wanted(config, web, after.done, |st.done|, link) ensures Met(web, after.visited, link) {
      LinksIff(web, web.fetch(st.queue[0].url).hrefs, link);
      assert link in links;
    }
    assert AllMet(config, web, after.done, after.visited, |st.done|);
  }

  lemma {:induction false} SearchIsLimited(config: Config, web: Web, seeds: nat, st: State)
    requires Limited(config, web, seeds, st, |st.done|)
    ensures var end := Search(config, web, st);
      Limited(config, web, seeds, end, |end.done|)
    decreases Load(config, web, st.queue)
  {
    if st.queue != [] {
      ProcessLoad(config, web, st.(queue := st.queue[1..]), st.queue[0]);
      NextIsLimited(config, web, seeds, st);
      SearchIsLimited(config, web, seeds, Next(config, web, st));
    }
  }

  /**
   Every crawl, whatever its limits: after the seeds it fetches only links of pages it had fetched, found on an
   allowed domain, each new, while fewer than `maxPagesPerDomain` pages of its domain had answered; and it passes over
   no such link, unless that is in the log as it is normalised once more. The counts are of the pages that answered.
   */
  lemma FetchesWhatIsWanted(config: Config, web: Web, seeds: seq<Url>)
    ensures var end, done := Search(config, web, Start(web, seeds, {}, map[])), Crawled(config, web, seeds);
      && (forall k | |SeedItems(web, seeds)| <= k < |done| :: Queued(config, web, done, done, k))
      && (forall p | 0 <= p < |done| :: AllMet(config, web, done, Urls(done), p))
      && CountsAre(web, end.counts, done) && end.visited == Urls(done)
  {
    var st := Start(web, seeds, {}, map[]);
    StartIsSound(config, web, seeds, {}, map[]);
    SearchIsLimited(config, web, |SeedItems(web, seeds)|, st);
    EndOfCrawl(config, web, seeds);
  }

  /** Once that many pages of the domain have answered, nothing of it is queued any more. */
  lemma NoPageBeyondLimit(config: Config, web: Web, seeds: seq<Url>, n: nat, k: nat)
    requires n <= k < |Crawled(config, web, seeds)| && |SeedItems(web, seeds)| <= k
    requires var done := Crawled(config, web, seeds);
      Answered(web, done[..n], web.domain(done[k].url)) >= config.maxPagesPerDomain
    ensures var done := Crawled(config, web, seeds);
      exists p :: 0 <= p < n - 1 && IsLink(web, done[p].url, done[k].url)
  {
    var done := Crawled(config, web, seeds);
    FetchesWhatIsWanted(config, web, seeds);
    assert Queued(config, web, done, done, k);
    var p :| 0 <= p < |done| && QueuedFor(config, web, done, done, p, k);
    if p + 1 >= n {
      AnsweredGrows(web, done, n, p + 1, web.domain(done[k].url));
    }
  }

  lemma {:induction false} AnsweredGrows(web: Web, done: seq<Item>, n: nat, m: nat, domain: string)
    requires n <= m <= |done|
    ensures Answered(web, done[..n], domain) <= Answered(web, done[..m], domain)
    decreases m
  {
    if n < m {
      assert done[..m][..m - 1] == done[..m - 1];
      AnsweredGrows(web, done, n, m - 1, domain);
    }
  }
}
