/**
 The crawl of crawler.py: a breadth-first search that fetches its queue in batches.

 A page gives the same answer whenever it is fetched. URLs are strings that `normal`,
 `domain` and `onion` take apart, whatever they do; UrlNormal has what `_normalize_url` does inside.
 */
module Crawlers {

  type Url = string

  /** The addresses that a page links to, absolute; `failed` is a page that came with an error. */
  datatype Fetched = Broken | Page(hrefs: seq<Url>, failed: bool)

  datatype Web = Web(fetch: Url -> Fetched, normal: Url -> Url, domain: Url -> string, onion: Url -> bool)

  datatype Config = Config(maxDepth: int, maxConcurrent: nat, maxPagesPerDomain: int, stayOnDomain: bool)

  datatype Item = Item(url: Url, depth: nat, origin: string)

  /** `done` holds the items whose fetch has been looked at, in order. */
  datatype State = State(queue: seq<Item>, visited: set<Url>, counts: map<string, nat>, done: seq<Item>)

  /** `_extract_links` */
  function Links(web: Web, hrefs: seq<Url>): seq<Url> {
    if hrefs == [] then []
    else (if web.onion(hrefs[0]) then [web.normal(hrefs[0])] else []) + Links(web, hrefs[1..])
  }

  function CountOf(counts: map<string, nat>, domain: string): nat {
    if domain in counts then counts[domain] else 0
  }

  /** `_should_crawl`: the link is looked up as it is normalised once more. */
  predicate ShouldCrawl(config: Config, web: Web, visited: set<Url>, counts: map<string, nat>, link: Url, origin: string) {
    && web.normal(link) !in visited
    && web.onion(link)
    && (config.stayOnDomain ==> web.domain(link) == origin)
    && CountOf(counts, web.domain(link)) < config.maxPagesPerDomain
  }

  function Enqueue(config: Config, web: Web, st: State, item: Item, link: Url): State {
    if !ShouldCrawl(config, web, st.visited, st.counts, link, item.origin) then st
    else st.(visited := st.visited + {link}, queue := st.queue + [Item(link, item.depth + 1, item.origin)])
  }

  function EnqueueAll(config: Config, web: Web, st: State, item: Item, links: seq<Url>): State
    decreases |links|
  {
    if links == [] then st else EnqueueAll(config, web, Enqueue(config, web, st, item, links[0]), item, links[1..])
  }

  function Counted(web: Web, counts: map<string, nat>, url: Url): map<string, nat> {
    counts[web.domain(url) := CountOf(counts, web.domain(url)) + 1]
  }

  predicate Follows(config: Config, page: Fetched, depth: int) {
    page.Page? && depth < config.maxDepth && !page.failed
  }

  /** What the crawl does with the answer to one item. */
  function Process(config: Config, web: Web, st: State, item: Item): State {
    var page := web.fetch(item.url);
    var seen := st.(done := st.done + [item]);
    if page.Broken? then seen
    else
      var counted := seen.(counts := Counted(web, st.counts, item.url));
      if Follows(config, page, item.depth) then EnqueueAll(config, web, counted, item, Links(web, page.hrefs))
      else counted
  }

  // ---------------------------------------------------------------- every crawl ends

  /** The fetches that an item leads to at most. */
  function Weight(config: Config, web: Web, url: Url, depth: int): nat
    decreases config.maxDepth - depth, 1, 0
  {
    var page := web.fetch(url);
    1 + if Follows(config, page, depth) then WeightOf(config, web, Links(web, page.hrefs), depth + 1) else 0
  }

  function WeightOf(config: Config, web: Web, links: seq<Url>, depth: int): nat
    decreases config.maxDepth - depth, 2, |links|
  {
    if links == [] then 0 else Weight(config, web, links[0], depth) + WeightOf(config, web, links[1..], depth)
  }

  function Load(config: Config, web: Web, queue: seq<Item>): nat {
    if queue == [] then 0
    else Weight(config, web, queue[0].url, queue[0].depth) + Load(config, web, queue[1..])
  }

  lemma {:induction false} LoadAppend(config: Config, web: Web, queue: seq<Item>, item: Item)
    ensures Load(config, web, queue + [item]) == Load(config, web, queue) + Weight(config, web, item.url, item.depth)
  {
    if queue == [] {
      assert [item][1..] == [];
    } else {
      assert (queue + [item])[1..] == queue[1..] + [item];
      LoadAppend(config, web, queue[1..], item);
    }
  }

  lemma {:induction false} EnqueueAllLoad(config: Config, web: Web, st: State, item: Item, links: seq<Url>)
    ensures Load(config, web, EnqueueAll(config, web, st, item, links).queue)
         <= Load(config, web, st.queue) + WeightOf(config, web, links, item.depth + 1)
    decreases |links|
  {
    if links != [] {
      LoadAppend(config, web, st.queue, Item(links[0], item.depth + 1, item.origin));
      EnqueueAllLoad(config, web, Enqueue(config, web, st, item, links[0]), item, links[1..]);
    }
  }

  lemma ProcessLoad(config: Config, web: Web, st: State, item: Item)
    ensures Load(config, web, Process(config, web, st, item).queue)
          < Load(config, web, st.queue) + Weight(config, web, item.url, item.depth)
  {
    var page := web.fetch(item.url);
    if Follows(config, page, item.depth) {
      var counted := st.(done := st.done + [item], counts := Counted(web, st.counts, item.url));
      EnqueueAllLoad(config, web, counted, item, Links(web, page.hrefs));
    }
  }

  /** The search one page at a time. */
  function Search(config: Config, web: Web, st: State): State
    decreases Load(config, web, st.queue)
  {
    if st.queue == [] then st
    else
      ProcessLoad(config, web, st.(queue := st.queue[1..]), st.queue[0]);
      Search(config, web, Process(config, web, st.(queue := st.queue[1..]), st.queue[0]))
  }

  // ---------------------------------------------------------------- batches do not matter

  function Behind(st: State, front: seq<Item>): State {
    st.(queue := front + st.queue)
  }

  lemma {:induction false} EnqueueAllBehind(
    config: Config, web: Web, st: State, front: seq<Item>, item: Item, links: seq<Url>)
    ensures EnqueueAll(config, web, Behind(st, front), item, links)
         == Behind(EnqueueAll(config, web, st, item, links), front)
    decreases |links|
  {
    if links != [] {
      var added := Item(links[0], item.depth + 1, item.origin);
      assert front + st.queue + [added] == front + (st.queue + [added]);
      EnqueueAllBehind(config, web, Enqueue(config, web, st, item, links[0]), front, item, links[1..]);
    }
  }

  lemma ProcessBehind(config: Config, web: Web, st: State, front: seq<Item>, item: Item)
    ensures Process(config, web, Behind(st, front), item) == Behind(Process(config, web, st, item), front)
  {
    var page := web.fetch(item.url);
    if Follows(config, page, item.depth) {
      var counted := st.(done := st.done + [item], counts := Counted(web, st.counts, item.url));
      EnqueueAllBehind(config, web, counted, front, item, Links(web, page.hrefs));
    }
  }

  /** Taking the first of a batch is what the search does next. */
  lemma SearchTakesFirst(config: Config, web: Web, st: State, batch: seq<Item>)
    requires batch != []
    ensures Search(config, web, Behind(st, batch))
         == Search(config, web, Behind(Process(config, web, st, batch[0]), batch[1..]))
  {
    var all := Behind(st, batch);
    assert all.queue[1..] == batch[1..] + st.queue && all.queue[0] == batch[0];
    ProcessBehind(config, web, st, batch[1..], batch[0]);
  }

  // ---------------------------------------------------------------- the crawler

  /** The seeds that are fetched at all. */
  function SeedItems(web: Web, seeds: seq<Url>): seq<Item> {
    if seeds == [] then []
    else
      var url := web.normal(seeds[0]);
      (if web.onion(seeds[0]) then [Item(url, 0, web.domain(url))] else []) + SeedItems(web, seeds[1..])
  }

  function SeedUrls(web: Web, seeds: seq<Url>): set<Url> {
    if seeds == [] then {}
    else (if web.onion(seeds[0]) then {web.normal(seeds[0])} else {}) + SeedUrls(web, seeds[1..])
  }

  function Start(web: Web, seeds: seq<Url>, visited: set<Url>, counts: map<string, nat>): State {
    State(SeedItems(web, seeds), visited + SeedUrls(web, seeds), counts, [])
  }

  /** What the crawl yields: the answers that are not exceptions. */
  function Yields(web: Web, done: seq<Item>): seq<Item> {
    if done == [] then []
    else
      Yields(web, done[..|done| - 1])
      + (if web.fetch(done[|done| - 1].url).Page? then [done[|done| - 1]] else [])
  }

  lemma YieldsAppend(web: Web, done: seq<Item>, item: Item)
    ensures Yields(web, done + [item]) == Yields(web, done) + (if web.fetch(item.url).Page? then [item] else [])
  {
    assert (done + [item])[..|done|] == done;
  }

  lemma {:induction false} SeedItemsAppend(web: Web, seeds: seq<Url>, url: Url)
    ensures SeedItems(web, seeds + [url]) == SeedItems(web, seeds) + SeedItems(web, [url])
    ensures SeedUrls(web, seeds + [url]) == SeedUrls(web, seeds) + SeedUrls(web, [url])
  {
    if seeds == [] {
      assert [] + [url] == [url];
    } else {
      assert (seeds + [url])[1..] == seeds[1..] + [url];
      SeedItemsAppend(web, seeds[1..], url);
    }
  }
}
