/**
 What a quick scan tries: every URL of its sources, and then the pages that these lead to, nearest first.
 */
module QuickScanReach {
  import opened Wrappers
  import opened QuickScans

  // ---------------------------------------------------------------- the URLs of the sources

  function Entries(urls: seq<Url>, name: string): seq<Entry> {
    seq(|urls|, k requires 0 <= k < |urls| => Entry(urls[k], 0, name))
  }

  /** All that the sources give, in order. */
  function Given(sources: seq<Source>): seq<Entry> {
    if sources == [] then [] else Entries(sources[0].urls, sources[0].name) + Given(sources[1..])
  }

  /** No URL that was given before is the same once normalised. */
  predicate IsFirst(web: Web, given: seq<Entry>, k: int) {
    0 <= k < |given| && forall j | 0 <= j < k :: web.normal(given[j].url) != web.normal(given[k].url)
  }

  ghost predicate FromFirst(web: Web, given: seq<Entry>, entry: Entry) {
    exists k :: IsFirst(web, given, k) && given[k] == entry
  }

  ghost predicate AllQueued(web: Web, given: seq<Entry>, queue: seq<Entry>) {
    forall k | IsFirst(web, given, k) :: given[k] in queue
  }

  /** When `given` was added to an empty frontier. */
  ghost predicate Seeded(web: Web, given: seq<Entry>, st: State) {
    && st.done == [] && InBudget(web, st)
    && (forall entry | entry in st.queue :: FromFirst(web, given, entry))
    && (|st.visited| < MAX_URLS_PER_SCAN ==> AllQueued(web, given, st.queue) && Norms(web, given) <= st.visited)
  }

  lemma FirstLater(web: Web, given: seq<Entry>, more: seq<Entry>, entry: Entry)
    requires FromFirst(web, given, entry)
    ensures FromFirst(web, given + more, entry)
  {
    var k :| IsFirst(web, given, k) && given[k] == entry;
    assert IsFirst(web, given + more, k) && (given + more)[k] == entry;
  }

  lemma SeededOnceMore(web: Web, given: seq<Entry>, st: State, entry: Entry)
    requires Seeded(web, given, st) && web.normal(entry.url) in st.visited
    ensures Seeded(web, given + [entry], st)
  {
    var longer := given + [entry];
    NormsAppend(web, given, entry);
    forall other | other in st.queue ensures FromFirst(web, longer, other) {
      FirstLater(web, given, [entry], other);
    }
    if |st.visited| < MAX_URLS_PER_SCAN {
      var j := GivenBefore(web, given, st, entry);
      QueuedOnceMore(web, given, st.queue, entry, j);
    }
  }

  lemma GivenBefore(web: Web, given: seq<Entry>, st: State, entry: Entry) returns (j: nat)
    requires Seeded(web, given, st) && web.normal(entry.url) in st.visited
    ensures j < |given| && web.normal(given[j].url) == web.normal(entry.url)
  {
    assert Log(st) == st.queue;
    var i :| 0 <= i < |st.queue| && web.normal(st.queue[i].url) == web.normal(entry.url);
    assert st.queue[i] in st.queue;
    j :| IsFirst(web, given, j) && given[j] == st.queue[i];
  }

  lemma QueuedOnceMore(web: Web, given: seq<Entry>, queue: seq<Entry>, entry: Entry, j: nat)
    requires AllQueued(web, given, queue) && j < |given| && web.normal(given[j].url) == web.normal(entry.url)
    ensures AllQueued(web, given + [entry], queue)
  {
    var longer := given + [entry];
    assert longer[j] == given[j] && longer[|given|] == entry;
    forall k | IsFirst(web, longer, k) ensures longer[k] in queue {
      assert k != |given|;
      FirstBefore(web, given, [entry], k);
    }
  }

  lemma FirstBefore(web: Web, given: seq<Entry>, more: seq<Entry>, k: nat)
    requires k < |given|
    ensures IsFirst(web, given + more, k) ==> IsFirst(web, given, k) && (given + more)[k] == given[k]
  {
    var longer := given + more;
    assert forall j | 0 <= j <= k :: longer[j] == given[j];
  }

  lemma SeededFull(web: Web, given: seq<Entry>, st: State, more: seq<Entry>)
    requires Seeded(web, given, st) && |st.visited| >= MAX_URLS_PER_SCAN
    ensures Seeded(web, given + more, st)
  {
    forall other | other in st.queue ensures FromFirst(web, given + more, other) {
      FirstLater(web, given, more, other);
    }
  }

  lemma SeededOne(web: Web, given: seq<Entry>, st: State, entry: Entry)
    requires Seeded(web, given, st) && entry.depth == 0
    requires web.normal(entry.url) !in st.visited && |st.visited| < MAX_URLS_PER_SCAN
    ensures Seeded(web, given + [entry], Added(web, st, entry))
  {
    var longer, after := given + [entry], Added(web, st, entry);
    AddOne(web, st, entry);
    NormsAppend(web, given, entry);
    NewIsFirst(web, given, st.visited, entry);
    forall other | other in after.queue ensures FromFirst(web, longer, other) {
      if other in st.queue {
        FirstLater(web, given, [entry], other);
      }
    }
    QueuedOne(web, given, st.queue, entry);
  }

  lemma NewIsFirst(web: Web, given: seq<Entry>, visited: set<Url>, entry: Entry)
    requires Norms(web, given) <= visited && web.normal(entry.url) !in visited
    ensures FromFirst(web, given + [entry], entry)
  {
    var longer := given + [entry];
    forall k | 0 <= k < |given| ensures web.normal(longer[k].url) != web.normal(entry.url) {
      assert web.normal(given[k].url) in Norms(web, given);
    }
    assert IsFirst(web, longer, |given|) && longer[|given|] == entry;
  }

  lemma QueuedOne(web: Web, given: seq<Entry>, queue: seq<Entry>, entry: Entry)
    requires AllQueued(web, given, queue)
    ensures AllQueued(web, given + [entry], queue + [entry])
  {
    var longer := given + [entry];
    forall k | IsFirst(web, longer, k) ensures longer[k] in queue + [entry] {
      if k < |given| {
        FirstBefore(web, given, [entry], k);
      }
    }
  }

  lemma {:induction false} UrlsAreSeeded(web: Web, given: seq<Entry>, st: State, urls: seq<Url>, name: string)
    requires Seeded(web, given, st)
    ensures Seeded(web, given + Entries(urls, name), AddAll(web, st, urls, 0, name))
    decreases |urls|
  {
    var all := Entries(urls, name);
    if urls == [] {
      assert given + all == given;
    } else {
      var entry, rest := Entry(urls[0], 0, name), Entries(urls[1..], name);
      assert all == [entry] + rest && given + all == given + [entry] + rest;
      if web.normal(urls[0]) in st.visited {
        SeededOnceMore(web, given, st, entry);
        UrlsAreSeeded(web, given + [entry], st, urls[1..], name);
      } else if |st.visited| >= MAX_URLS_PER_SCAN {
        SeededFull(web, given, st, all);
      } else {
        SeededOne(web, given, st, entry);
        UrlsAreSeeded(web, given + [entry], Added(web, st, entry), urls[1..], name);
      }
    }
  }

  lemma {:induction false} SourcesAreSeeded(web: Web, given: seq<Entry>, st: State, sources: seq<Source>)
    requires Seeded(web, given, st)
    ensures Seeded(web, given + Given(sources), AddSources(web, st, sources))
    decreases |sources|
  {
    if sources == [] {
      assert given + Given(sources) == given;
    } else {
      var entries := Entries(sources[0].urls, sources[0].name);
      UrlsAreSeeded(web, given, st, sources[0].urls, sources[0].name);
      SourcesAreSeeded(web, given + entries, AddAll(web, st, sources[0].urls, 0, sources[0].name), sources[1..]);
      Regrouped(given, entries, Given(sources[1..]));
    }
  }

  lemma Regrouped(a: seq<Entry>, b: seq<Entry>, c: seq<Entry>)
    ensures a + (b + c) == a + b + c
  {
  }

  lemma {:induction false} GivenIff(sources: seq<Source>, entry: Entry)
    ensures entry in Given(sources)
       <==> exists source ::
              source in sources && entry.url in source.urls && entry.source == source.name && entry.depth == 0
  {
    if sources != [] {
      var entries := Entries(sources[0].urls, sources[0].name);
      GivenIff(sources[1..], entry);
      if entry.url in sources[0].urls && entry.source == sources[0].name && entry.depth == 0 {
        var k :| 0 <= k < |sources[0].urls| && sources[0].urls[k] == entry.url;
        assert entries[k] == entry;
      }
      assert forall source :: source in sources <==> source == sources[0] || source in sources[1..];
    }
  }

  // ---------------------------------------------------------------- the pages they lead to

  predicate Sorted(log: seq<Entry>) {
    forall i, j | 0 <= i < j < |log| :: log[i].depth <= log[j].depth
  }

  predicate UpTo(log: seq<Entry>, depth: int) {
    forall i | 0 <= i < |log| :: log[i].depth <= depth
  }

  predicate LedBy(web: Web, p: Entry, entry: Entry) {
    entry.depth == p.depth + 1 && entry.source == p.source && entry.url in LinksOf(web, p)
  }

  /** Entry `j` was added for a link of an earlier one. */
  ghost predicate Led(web: Web, log: seq<Entry>, j: nat)
    requires j < |log|
  {
    exists p :: 0 <= p < j && LedBy(web, log[p], log[j])
  }

  ghost predicate Near(web: Web, log: seq<Entry>, norm: Url, depth: int) {
    exists i :: 0 <= i < |log| && web.normal(log[i].url) == norm && log[i].depth <= depth
  }

  ghost predicate LinksNear(web: Web, log: seq<Entry>, entry: Entry) {
    forall link | link in LinksOf(web, entry) :: Near(web, log, web.normal(link), entry.depth + 1)
  }

  /** What the search keeps after `start` entries of the sources. */
  ghost predicate Spreading(web: Web, start: nat, st: State) {
    var log := Log(st);
    && start <= |log| && Sorted(log) && (st.queue != [] ==> UpTo(log, st.queue[0].depth + 1))
    && (forall j | start <= j < |log| :: Led(web, log, j))
    && (|st.visited| < MAX_URLS_PER_SCAN ==> forall i | 0 <= i < |st.done| :: LinksNear(web, log, st.done[i]))
  }

  /** The links that are added go to the end of the queue. */
  lemma {:induction false} AddAllEntries(web: Web, st: State, links: seq<Url>, depth: nat, source: string)
    ensures var queue := AddAll(web, st, links, depth, source).queue;
      && IsPrefix(st.queue, queue)
      && forall k | |st.queue| <= k < |queue| ::
           queue[k].url in links && queue[k].depth == depth && queue[k].source == source
    decreases |links|
  {
    if links != [] {
      if web.normal(links[0]) in st.visited {
        AddAllEntries(web, st, links[1..], depth, source);
      } else if |st.visited| < MAX_URLS_PER_SCAN {
        AddAllEntries(web, Added(web, st, Entry(links[0], depth, source)), links[1..], depth, source);
      }
    }
  }

  /** Whatever the next turn adds is led to by the entry that was looked at. */
  lemma NextEntries(web: Web, st: State)
    requires InBudget(web, st) && st.queue != []
    ensures var log, after := Log(st), Log(Next(web, st));
      IsPrefix(log, after) && forall k | |log| <= k < |after| :: LedBy(web, st.queue[0], after[k])
  {
    var entry := st.queue[0];
    NextKeeps(web, st);
    NextFalls(web, st);
    AddAllEntries(web, Taken(st), LinksOf(web, entry), entry.depth + 1, entry.source);
    var queue, log, after := Next(web, st).queue, Log(st), Log(Next(web, st));
    forall k | |log| <= k < |after| ensures LedBy(web, entry, after[k]) {
      assert after[k] == queue[k - |st.done| - 1];
    }
  }

  lemma LedLater(web: Web, log: seq<Entry>, after: seq<Entry>, j: nat)
    requires j < |log| && IsPrefix(log, after) && Led(web, log, j)
    ensures Led(web, after, j)
  {
    var p :| 0 <= p < j && LedBy(web, log[p], log[j]);
    assert after[p] == log[p] && after[j] == log[j];
  }

  lemma NearLater(web: Web, log: seq<Entry>, after: seq<Entry>, entry: Entry)
    requires IsPrefix(log, after) && LinksNear(web, log, entry)
    ensures LinksNear(web, after, entry)
  {
    forall link | link in LinksOf(web, entry) ensures Near(web, after, web.normal(link), entry.depth + 1) {
      assert Near(web, log, web.normal(link), entry.depth + 1);
      var i :| 0 <= i < |log| && web.normal(log[i].url) == web.normal(link) && log[i].depth <= entry.depth + 1;
      assert after[i] == log[i];
    }
  }

  lemma NextIsSorted(web: Web, st: State)
    requires InBudget(web, st) && st.queue != [] && Sorted(Log(st)) && UpTo(Log(st), st.queue[0].depth + 1)
    ensures var after := Next(web, st);
      && Sorted(Log(after)) && UpTo(Log(after), st.queue[0].depth + 1)
      && (after.queue != [] ==> UpTo(Log(after), after.queue[0].depth + 1))
  {
    var after := Next(web, st);
    NextKeeps(web, st);
    NextEntries(web, st);
    SortedOn(Log(st), Log(after), |st.done|);
    if after.queue != [] {
      assert Log(after)[|st.done| + 1] == after.queue[0];
    }
  }

  /** Entries one link deeper than entry `n` may follow when no entry is deeper than they are. */
  lemma SortedOn(log: seq<Entry>, after: seq<Entry>, n: nat)
    requires n < |log| && Sorted(log) && UpTo(log, log[n].depth + 1) && IsPrefix(log, after)
    requires forall k | |log| <= k < |after| :: after[k].depth == log[n].depth + 1
    ensures Sorted(after) && UpTo(after, log[n].depth + 1)
    ensures n + 1 < |after| ==> UpTo(after, after[n + 1].depth + 1)
  {
    assert forall i | 0 <= i < |log| :: after[i] == log[i];
  }

  lemma NextLinksNear(web: Web, st: State)
    requires InBudget(web, st) && st.queue != [] && UpTo(Log(Next(web, st)), st.queue[0].depth + 1)
    ensures var after := Next(web, st);
      |after.visited| < MAX_URLS_PER_SCAN ==> LinksNear(web, Log(after), st.queue[0])
  {
    var after, entry := Next(web, st), st.queue[0];
    NextKeeps(web, st);
    NextVisits(web, st);
    if |after.visited| < MAX_URLS_PER_SCAN {
      forall link | link in LinksOf(web, entry) ensures Near(web, Log(after), web.normal(link), entry.depth + 1) {
        assert web.normal(link) in Norms(web, Log(after));
      }
    }
  }

  lemma NextSpreads(web: Web, start: nat, st: State)
    requires InBudget(web, st) && st.queue != [] && Spreading(web, start, st)
    ensures Spreading(web, start, Next(web, st))
  {
    var log, after := Log(st), Next(web, st);
    NextKeeps(web, st);
    NextEntries(web, st);
    NextIsSorted(web, st);
    NextVisits(web, st);
    NextLinksNear(web, st);
    SubsetSize(st.visited, after.visited);
    forall j | start <= j < |Log(after)| ensures Led(web, Log(after), j) {
      if j < |log| {
        LedLater(web, log, Log(after), j);
      } else {
        assert Log(after)[|st.done|] == st.queue[0];
      }
    }
    if |after.visited| < MAX_URLS_PER_SCAN {
      forall i | 0 <= i < |after.done| ensures LinksNear(web, Log(after), after.done[i]) {
        if i < |st.done| {
          NearLater(web, log, Log(after), st.done[i]);
        }
      }
    }
  }

  lemma {:induction false} SearchSpreads(web: Web, start: nat, st: State)
    requires InBudget(web, st) && Spreading(web, start, st)
    ensures Spreading(web, start, Search(web, st))
    decreases Room(st)
  {
    if st.queue != [] {
      NextKeeps(web, st);
      NextFalls(web, st);
      NextSpreads(web, start, st);
      SearchSpreads(web, start, Next(web, st));
    }
  }

  // ---------------------------------------------------------------- whole scans

  /** The part of a scan that comes from its sources. */
  function FromSources(web: Web, sources: seq<Source>): seq<Entry> {
    AddSources(web, State([], {}, []), sources).queue
  }

  lemma ScanSpreads(web: Web, sources: seq<Source>)
    ensures var first, end := FromSources(web, sources), Scanned(web, sources);
      && Seeded(web, Given(sources), AddSources(web, State([], {}, []), sources))
      && IsPrefix(first, end.done) && Spreading(web, |first|, end) && InBudget(web, end) && Log(end) == end.done
      && AddSources(web, State([], {}, []), sources).visited <= end.visited
  {
    var start, end := AddSources(web, State([], {}, []), sources), Scanned(web, sources);
    StartSpreads(web, sources);
    SearchSpreads(web, |start.queue|, start);
    assert Log(end) == end.done && Log(start) == start.queue;
    VisitedLater(web, start, end);
  }

  lemma StartSpreads(web: Web, sources: seq<Source>)
    ensures var start := AddSources(web, State([], {}, []), sources);
      Seeded(web, Given(sources), start) && Spreading(web, |start.queue|, start)
  {
    var start := AddSources(web, State([], {}, []), sources);
    SourcesAreSeeded(web, [], State([], {}, []), sources);
    assert [] + Given(sources) == Given(sources) && Log(start) == start.queue;
    forall entry | entry in start.queue ensures entry.depth == 0 {
      FirstIsGiven(web, sources, entry);
    }
    FlatSpreads(web, start);
  }

  lemma FlatSpreads(web: Web, st: State)
    requires st.done == [] && forall entry | entry in st.queue :: entry.depth == 0
    ensures Spreading(web, |st.queue|, st)
  {
    assert Log(st) == st.queue;
    assert forall i | 0 <= i < |st.queue| :: st.queue[i] in st.queue;
  }

  lemma VisitedLater(web: Web, start: State, end: State)
    requires InBudget(web, start) && InBudget(web, end) && IsPrefix(Log(start), Log(end))
    ensures start.visited <= end.visited
  {
    forall norm | norm in start.visited ensures norm in end.visited {
      var i :| 0 <= i < |Log(start)| && web.normal(Log(start)[i].url) == norm;
      assert Log(end)[i] == Log(start)[i];
    }
  }

  lemma FirstIsGiven(web: Web, sources: seq<Source>, entry: Entry)
    requires FromFirst(web, Given(sources), entry)
    ensures entry.depth == 0
    ensures exists source :: source in sources && entry.url in source.urls && entry.source == source.name
  {
    var k :| IsFirst(web, Given(sources), k) && Given(sources)[k] == entry;
    assert Given(sources)[k] in Given(sources);
    GivenIff(sources, entry);
  }

  /**
   A scan that is never stopped tries each URL of each source: at depth 0, as the first source gives it whose URL
   is the same once normalised, unless the budget is used up; and nothing else comes from the sources.
   */
  lemma SourcesAreTried(web: Web, sources: seq<Source>)
    ensures var end, given := Scanned(web, sources), Given(sources);
      && (|end.visited| == MAX_URLS_PER_SCAN
          || forall k | IsFirst(web, given, k) :: given[k] in end.done && web.normal(given[k].url) in end.visited)
      && (forall entry | entry in end.done && entry.depth == 0 :: FromFirst(web, given, entry))
  {
    var end, given := Scanned(web, sources), Given(sources);
    ScanSpreads(web, sources);
    if |end.visited| < MAX_URLS_PER_SCAN {
      forall k | IsFirst(web, given, k) ensures given[k] in end.done && web.normal(given[k].url) in end.visited {
        FirstIsTried(web, sources, k);
      }
    }
    forall i | 0 <= i < |end.done| && end.done[i].depth == 0 ensures FromFirst(web, given, end.done[i]) {
      TriedIsFirst(web, sources, i);
    }
  }

  lemma FirstIsTried(web: Web, sources: seq<Source>, k: nat)
    requires IsFirst(web, Given(sources), k) && |Scanned(web, sources).visited| < MAX_URLS_PER_SCAN
    ensures var end, entry := Scanned(web, sources), Given(sources)[k];
      entry in end.done && web.normal(entry.url) in end.visited
  {
    ScanSpreads(web, sources);
    var first, end, entry := FromSources(web, sources), Scanned(web, sources), Given(sources)[k];
    SubsetSize(AddSources(web, State([], {}, []), sources).visited, end.visited);
    assert entry in first;
    var i :| 0 <= i < |first| && first[i] == entry;
    assert end.done[i] == entry;
  }

  lemma TriedIsFirst(web: Web, sources: seq<Source>, i: nat)
    requires i < |Scanned(web, sources).done| && Scanned(web, sources).done[i].depth == 0
    ensures FromFirst(web, Given(sources), Scanned(web, sources).done[i])
  {
    ScanSpreads(web, sources);
    var first, done := FromSources(web, sources), Scanned(web, sources).done;
    assert i < |first| || Led(web, done, i);
    assert done[i] == first[i] && first[i] in first;
  }

  /** So every URL of every source is visited, unless the budget is used up. */
  lemma EverySourceIsVisited(web: Web, sources: seq<Source>, source: Source, url: Url)
    requires source in sources && url in source.urls
    ensures var end := Scanned(web, sources);
      |end.visited| == MAX_URLS_PER_SCAN || web.normal(url) in end.visited
  {
    ScanSpreads(web, sources);
    SubsetSize(AddSources(web, State([], {}, []), sources).visited, Scanned(web, sources).visited);
    GivenIff(sources, Entry(url, 0, source.name));
    var k :| 0 <= k < |Given(sources)| && Given(sources)[k] == Entry(url, 0, source.name);
    assert web.normal(Given(sources)[k].url) in Norms(web, Given(sources));
  }

  /** The links of a page. */
  function PageLinks(web: Web, url: Url): seq<Url> {
    if web.fetch(url).Page? then web.fetch(url).links else []
  }

  predicate IsChain(web: Web, pages: seq<Url>) {
    forall k | 0 <= k < |pages| - 1 :: pages[k + 1] in PageLinks(web, pages[k])
  }

  predicate Gives(source: Source, name: string, url: Url) {
    source.name == name && url in source.urls
  }

  lemma SourceGives(web: Web, sources: seq<Source>, entry: Entry)
    requires FromFirst(web, Given(sources), entry)
    ensures IsGiven(sources, entry)
  {
    FirstIsGiven(web, sources, entry);
    var source :| source in sources && entry.url in source.urls && entry.source == source.name;
    assert Gives(source, entry.source, entry.url);
  }

  ghost predicate IsGiven(sources: seq<Source>, entry: Entry) {
    entry.depth == 0 && exists source :: source in sources && Gives(source, entry.source, entry.url)
  }

  /** Every entry ends a chain of links from a URL of its source, as long as its depth; and depths never fall. */
  lemma TriedByChain(web: Web, sources: seq<Source>, i: nat) returns (pages: seq<Url>)
    requires i < |Scanned(web, sources).done|
    ensures Sorted(Scanned(web, sources).done)
    ensures var entry := Scanned(web, sources).done[i];
      && |pages| == entry.depth + 1 <= MAX_DEPTH + 1 && pages[entry.depth] == entry.url && IsChain(web, pages)
      && exists source :: source in sources && Gives(source, entry.source, pages[0])
  {
    ScanSpreads(web, sources);
    var first, done := FromSources(web, sources), Scanned(web, sources).done;
    forall j | 0 <= j < |first| ensures IsGiven(sources, done[j]) {
      assert done[j] == first[j] && first[j] in first;
      SourceGives(web, sources, done[j]);
    }
    pages := LedByChain(web, sources, done, |first|, i);
  }

  lemma {:induction false} LedByChain(web: Web, sources: seq<Source>, log: seq<Entry>, start: nat, i: nat)
    returns (pages: seq<Url>)
    requires i < |log| && forall j | 0 <= j < start && j < |log| :: IsGiven(sources, log[j])
    requires forall j | start <= j < |log| :: Led(web, log, j)
    ensures var entry := log[i];
      && |pages| == entry.depth + 1 && pages[entry.depth] == entry.url && IsChain(web, pages)
      && exists source :: source in sources && Gives(source, entry.source, pages[0])
  {
    if i < start {
      pages := [log[i].url];
      assert IsGiven(sources, log[i]);
    } else {
      assert Led(web, log, i);
      var p :| 0 <= p < i && LedBy(web, log[p], log[i]);
      var before := LedByChain(web, sources, log, start, p);
      ChainGrows(web, before, log[i].url);
      pages := before + [log[i].url];
    }
  }

  lemma ChainGrows(web: Web, pages: seq<Url>, url: Url)
    requires pages != [] && IsChain(web, pages) && url in PageLinks(web, pages[|pages| - 1])
    ensures IsChain(web, pages + [url])
  {
  }

  /** URLs that are the same once normalised have the same links. */
  ghost predicate Consistent(web: Web) {
    forall a, b | web.normal(a) == web.normal(b) :: PageLinks(web, a) == PageLinks(web, b)
  }

  /**
   On a web where that is so, no page is nearer than the scan says: wherever a chain of links from a source leads
   within the depth, the scan was there by no longer a chain, unless its budget is used up.
   */
  lemma {:induction false} NearestFirst(web: Web, sources: seq<Source>, source: Source, pages: seq<Url>)
    requires Consistent(web) && source in sources
    requires 1 <= |pages| <= MAX_DEPTH + 1 && pages[0] in source.urls && IsChain(web, pages)
    ensures var end := Scanned(web, sources);
      |end.visited| == MAX_URLS_PER_SCAN || Near(web, end.done, web.normal(pages[|pages| - 1]), |pages| - 1)
    decreases |pages|
  {
    var end, n := Scanned(web, sources), |pages| - 1;
    if n == 0 {
      SourceIsNear(web, sources, source, pages[0]);
    } else {
      NearestFirst(web, sources, source, pages[..n]);
      assert pages[n - 1 + 1] in PageLinks(web, pages[n - 1]);
      NearGoesOn(web, sources, pages[n - 1], pages[n], n - 1);
    }
  }

  lemma NearGoesOn(web: Web, sources: seq<Source>, page: Url, link: Url, depth: nat)
    requires Consistent(web) && depth < MAX_DEPTH && link in PageLinks(web, page)
    ensures var end := Scanned(web, sources);
      |end.visited| < MAX_URLS_PER_SCAN && Near(web, end.done, web.normal(page), depth)
      ==> Near(web, end.done, web.normal(link), depth + 1)
  {
    ScanSpreads(web, sources);
    var end := Scanned(web, sources);
    var log := end.done;
    if |end.visited| < MAX_URLS_PER_SCAN && Near(web, log, web.normal(page), depth) {
      var i :| 0 <= i < |log| && web.normal(log[i].url) == web.normal(page) && log[i].depth <= depth;
      assert PageLinks(web, log[i].url) == PageLinks(web, page);
      assert LinksNear(web, log, log[i]) && link in LinksOf(web, log[i]);
      assert Near(web, log, web.normal(link), log[i].depth + 1);
    }
  }

  lemma SourceIsNear(web: Web, sources: seq<Source>, source: Source, url: Url)
    requires source in sources && url in source.urls
    ensures var end := Scanned(web, sources);
      |end.visited| == MAX_URLS_PER_SCAN || Near(web, end.done, web.normal(url), 0)
  {
    ScanSpreads(web, sources);
    var start, end := AddSources(web, State([], {}, []), sources), Scanned(web, sources);
    SubsetSize(start.visited, end.visited);
    if |end.visited| < MAX_URLS_PER_SCAN {
      GivenIff(sources, Entry(url, 0, source.name));
      var k :| 0 <= k < |Given(sources)| && Given(sources)[k] == Entry(url, 0, source.name);
      assert web.normal(Given(sources)[k].url) in Norms(web, Given(sources)) && Log(start) == start.queue;
      var i :| 0 <= i < |start.queue| && web.normal(start.queue[i].url) == web.normal(url);
      assert start.queue[i] in start.queue;
      FirstIsGiven(web, sources, start.queue[i]);
      assert end.done[i] == start.queue[i];
    }
  }
}
