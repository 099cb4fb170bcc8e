/**
 The crawler itself: it takes a batch from its queue, fetches it, and looks at the answers
 in order. Whatever the size of its batches, it finds what the search finds page by page.
 */
module BatchedCrawls {
  import opened Crawlers
  import opened CrawlerReach

  /** When the crawl is told to stop: before a round, or before the fetch of an item of a round. */
  datatype Stops = Stops(round: nat -> bool, item: (nat, nat) -> bool)

  ghost predicate NeverStops(stops: Stops) {
    (forall round :: !stops.round(round)) && (forall round, i :: !stops.item(round, i))
  }

  /** The first of the queue is passed over: the stop came before its fetch. */
  function Dropped(st: State): State
    requires st.queue != []
  {
    Taken(st)
  }

  /** What holds of a crawl that may be stopped at any time. */
  ghost predicate Safe(config: Config, web: Web, seeds: seq<Url>, st: State) {
    && Sound(config, web, Roots(web, seeds), st)
    && (Settled(web) && Distinct(SeedItems(web, seeds)) ==> Once(st))
  }

  /** What was yielded was looked at, in that order. */
  ghost predicate YieldsOf(yielded: seq<Item>, done: seq<Item>) {
    && (forall i | 0 <= i < |yielded| :: yielded[i] in done)
    && Sorted(yielded) && (Distinct(done) ==> Distinct(yielded))
  }

  lemma StartIsSafe(config: Config, web: Web, seeds: seq<Url>, visited: set<Url>, counts: map<string, nat>)
    ensures Safe(config, web, seeds, Start(web, seeds, visited, counts))
  {
    StartIsSound(config, web, seeds, visited, counts);
  }

  lemma NextIsSafe(config: Config, web: Web, seeds: seq<Url>, st: State)
    requires Safe(config, web, seeds, st) && st.queue != []
    ensures Safe(config, web, seeds, Next(config, web, st))
    ensures Next(config, web, st).done == st.done + [st.queue[0]]
    ensures Load(config, web, Next(config, web, st).queue) < Load(config, web, st.queue)
  {
    NextKeepsSound(config, web, Roots(web, seeds), st);
    ProcessLoad(config, web, st.(queue := st.queue[1..]), st.queue[0]);
    if Settled(web) && Distinct(SeedItems(web, seeds)) {
      NextKeepsOnce(config, web, st);
    }
  }

  lemma DroppedIsSafe(config: Config, web: Web, seeds: seq<Url>, st: State)
    requires Safe(config, web, seeds, st) && st.queue != []
    ensures Safe(config, web, seeds, Dropped(st))
    ensures Load(config, web, Dropped(st).queue) < Load(config, web, st.queue)
  {
    TakenLog(st);
    var log := Log(st);
    if Dropped(st).queue != [] {
      assert log[|st.done|] == st.queue[0] && log[|st.done| + 1] == Dropped(st).queue[0];
    }
  }

  lemma YieldOne(yielded: seq<Item>, st: State)
    requires YieldsOf(yielded, st.done) && st.queue != [] && Sorted(Log(st))
    ensures YieldsOf(yielded, st.done + [st.queue[0]])
    ensures YieldsOf(yielded + [st.queue[0]], st.done + [st.queue[0]])
  {
    var item, log, longer := st.queue[0], Log(st), st.done + [st.queue[0]];
    assert forall i | 0 <= i < |longer| :: longer[i] == log[i];
    forall i | 0 <= i < |yielded| ensures yielded[i] in longer && yielded[i].depth <= item.depth
                                  ensures Distinct(longer) ==> yielded[i].url != item.url
    {
      var j :| 0 <= j < |st.done| && st.done[j] == yielded[i];
      assert longer[j] == yielded[i] && longer[|st.done|] == item;
    }
    PrefixIsDistinct(st.done, longer);
  }

  // ---------------------------------------------------------------- where a stop leaves a crawl

  /** A crawl on its way: its state, and what it has yielded. */
  datatype Progress = Progress(st: State, yielded: seq<Item>)

  /** The next of the queue is passed over when the stop came before its fetch, and looked at otherwise. */
  function Turn(config: Config, web: Web, p: Progress, stopped: bool): Progress {
    if p.st.queue == [] then p
    else if stopped then Progress(Dropped(p.st), p.yielded)
    else
      var item := p.st.queue[0];
      Progress(Next(config, web, p.st), p.yielded + if web.fetch(item.url).Page? then [item] else [])
  }

  ghost function Turns(config: Config, web: Web, stops: Stops, round: nat, p: Progress, n: nat): Progress {
    if n == 0 then p else Turn(config, web, Turns(config, web, stops, round, p, n - 1), stops.item(round, n - 1))
  }

  function BatchSize(config: Config, queue: seq<Item>): nat {
    if |queue| < config.maxConcurrent then |queue| else config.maxConcurrent
  }

  ghost function Rounds(config: Config, web: Web, stops: Stops, p: Progress, rounds: nat): Progress {
    if rounds == 0 then p
    else
      var before := Rounds(config, web, stops, p, rounds - 1);
      Turns(config, web, stops, rounds - 1, before, BatchSize(config, before.st.queue))
  }

  /** The crawl ends before this round: with nothing left, or because it is told to. */
  ghost predicate EndsBefore(config: Config, web: Web, stops: Stops, p: Progress, rounds: nat) {
    && (Rounds(config, web, stops, p, rounds).st.queue == [] || stops.round(rounds))
    && forall r | 0 <= r < rounds :: !stops.round(r) && Rounds(config, web, stops, p, r).st.queue != []
  }

  /** What is left and was yielded then. */
  ghost predicate EndsAs(config: Config, web: Web, stops: Stops, p: Progress, rounds: nat,
                         yielded: seq<Item>, visited: set<Url>, counts: map<string, nat>) {
    var end := Rounds(config, web, stops, p, rounds);
    EndsBefore(config, web, stops, p, rounds)
    && yielded == end.yielded && visited == end.st.visited && counts == end.st.counts
  }

  /** What holds of a crawl from `start` before a round. */
  ghost predicate Underway(
    config: Config, web: Web, seeds: seq<Url>, stops: Stops, start: Progress, p: Progress, round: nat)
  {
    && Safe(config, web, seeds, p.st) && YieldsOf(p.yielded, p.st.done)
    && (NeverStops(stops) ==>
          Search(config, web, p.st) == Search(config, web, start.st) && p.yielded == Yields(web, p.st.done))
    && p == Rounds(config, web, stops, start, round)
    && forall r | 0 <= r < round :: !stops.round(r) && Rounds(config, web, stops, start, r).st.queue != []
  }

  lemma NextRound(config: Config, web: Web, seeds: seq<Url>, stops: Stops, start: Progress, p: Progress, next: Progress,
                  round: nat)
    requires Underway(config, web, seeds, stops, start, p, round) && p.st.queue != [] && !stops.round(round)
    requires next == Turns(config, web, stops, round, p, BatchSize(config, p.st.queue))
    requires Safe(config, web, seeds, next.st) && YieldsOf(next.yielded, next.st.done)
    requires NeverStops(stops) ==>
      Search(config, web, next.st) == Search(config, web, p.st) && next.yielded == Yields(web, next.st.done)
    ensures Underway(config, web, seeds, stops, start, next, round + 1)
  {
  }

  class Crawler {
    const config: Config
    var visited: set<Url>
    var domainCounts: map<string, nat>

    constructor (config: Config)
      ensures this.config == config && visited == {} && domainCounts == map[]
    {
      this.config := config;
      visited, domainCounts := {}, map[];
    }

    method Reset()
      modifies this
      ensures visited == {} && domainCounts == map[]
    {
      visited, domainCounts := {}, map[];
    }

    ghost function StateOf(queue: seq<Item>, done: seq<Item>): State
      reads this
    {
      State(queue, visited, domainCounts, done)
    }

    method AddSeeds(web: Web, seeds: seq<Url>) returns (queue: seq<Item>)
      modifies this`visited
      ensures queue == SeedItems(web, seeds) && visited == old(visited) + SeedUrls(web, seeds)
    {
      queue := [];
      for n := 0 to |seeds|
        invariant queue == SeedItems(web, seeds[..n]) && visited == old(visited) + SeedUrls(web, seeds[..n])
      {
        SeedItemsAppend(web, seeds[..n], seeds[n]);
        assert seeds[..n + 1] == seeds[..n] + [seeds[n]] && [seeds[n]][1..] == [];
        if web.onion(seeds[n]) {
          var normalized := web.normal(seeds[n]);
          queue := queue + [Item(normalized, 0, web.domain(normalized))];
          visited := visited + {normalized};
        }
      }
      assert seeds[..|seeds|] == seeds;
    }

    method AddLinks(web: Web, item: Item, links: seq<Url>, queue: seq<Item>, ghost done: seq<Item>)
      returns (longer: seq<Item>)
      modifies this`visited
      ensures EnqueueAll(config, web, old(StateOf(queue, done)), item, links) == StateOf(longer, done)
    {
      longer := queue;
      ghost var goal := EnqueueAll(config, web, StateOf(queue, done), item, links);
      for n := 0 to |links|
        invariant EnqueueAll(config, web, StateOf(longer, done), item, links[n..]) == goal
      {
        assert links[n..][0] == links[n] && links[n..][1..] == links[n + 1..];
        if ShouldCrawl(config, web, visited, domainCounts, links[n], item.origin) {
          visited := visited + {links[n]};
          longer := longer + [Item(links[n], item.depth + 1, item.origin)];
        }
      }
    }

    /** One answer of a batch; `answered` tells that it is passed on to the caller. */
    method Look(web: Web, item: Item, queue: seq<Item>, ghost done: seq<Item>)
      returns (longer: seq<Item>, answered: bool)
      modifies this
      ensures StateOf(longer, done + [item]) == Process(config, web, old(StateOf(queue, done)), item)
      ensures answered <==> web.fetch(item.url).Page?
    {
      longer := queue;
      var page := web.fetch(item.url);
      answered := page.Page?;
      if page.Page? {
        domainCounts := Counted(web, domainCounts, item.url);
        if item.depth < config.maxDepth && !page.failed {
          longer := AddLinks(web, item, Links(web, page.hrefs), queue, done + [item]);
        }
      }
    }

    /** The answers to a batch, in order. */
    method LookAtBatch(
      web: Web, batch: seq<Item>, queue: seq<Item>, yielded: seq<Item>, stops: Stops, round: nat,
      ghost seeds: seq<Url>, ghost done: seq<Item>)
      returns (rest: seq<Item>, passed: seq<Item>, ghost looked: seq<Item>)
      requires batch != [] && Safe(config, web, seeds, StateOf(batch + queue, done)) && YieldsOf(yielded, done)
      modifies this
      ensures Safe(config, web, seeds, StateOf(rest, looked)) && YieldsOf(passed, looked)
      ensures Load(config, web, rest) < Load(config, web, batch + queue)
      ensures Progress(StateOf(rest, looked), passed)
        == old(Turns(config, web, stops, round, Progress(StateOf(batch + queue, done), yielded), |batch|))
      ensures NeverStops(stops) ==>
        Search(config, web, StateOf(rest, looked)) == old(Search(config, web, StateOf(batch + queue, done)))
      ensures NeverStops(stops) && yielded == Yields(web, done) ==> passed == Yields(web, looked)
    {
      rest, passed, looked := queue, yielded, done;
      ghost var goal := Search(config, web, StateOf(batch + queue, done));
      ghost var start := Progress(StateOf(batch + queue, done), yielded);
      assert batch[0..] + queue == batch + queue;
      for i := 0 to |batch|
        invariant Safe(config, web, seeds, StateOf(batch[i..] + rest, looked)) && YieldsOf(passed, looked)
        invariant NeverStops(stops) ==> Search(config, web, StateOf(batch[i..] + rest, looked)) == goal
        invariant NeverStops(stops) && yielded == Yields(web, done) ==> passed == Yields(web, looked)
        invariant Load(config, web, batch[i..] + rest) <= Load(config, web, batch + queue) - i
        invariant Progress(StateOf(batch[i..] + rest, looked), passed) == Turns(config, web, stops, round, start, i)
      {
        ghost var st := StateOf(batch[i..] + rest, looked);
        HeadOfBatch(st, batch, i, rest);
        YieldOne(passed, st);
        if stops.item(round, i) {
          DroppedIsSafe(config, web, seeds, st);
        } else {
          NextIsSafe(config, web, seeds, st);
          ProcessBehind(config, web, StateOf(rest, looked), batch[i + 1..], batch[i]);
          YieldsAppend(web, looked, batch[i]);
          var answered;
          rest, answered := Look(web, batch[i], rest, looked);
          if answered {
            passed := passed + [batch[i]];
          }
        }
        looked := looked + [batch[i]];
      }
      assert batch[|batch|..] + rest == rest;
    }

    /**
     `crawl`. Stopped at any time, it ends before the first round for which it is told to, passes over the items
     whose fetch the stop came before, and yields the other ones that answered. These lie on walks of the recorded
     lengths, by depth, none twice if links stay as they are normalised and no seed is given twice. Never stopped,
     it yields what the search yields, for every batch size.
     */
    method Crawl(web: Web, seeds: seq<Url>, stops: Stops) returns (yielded: seq<Item>)
      requires config.maxConcurrent >= 1
      modifies this
      ensures NeverStops(stops) ==>
        var end := Search(config, web, Start(web, seeds, old(visited), old(domainCounts)));
        yielded == Yields(web, end.done) && visited == end.visited && domainCounts == end.counts
      ensures var start := Progress(Start(web, seeds, old(visited), old(domainCounts)), []);
        exists rounds: nat :: EndsAs(config, web, stops, start, rounds, yielded, visited, domainCounts)
      ensures Sorted(yielded)
      ensures forall i | 0 <= i < |yielded| :: Allowed(config, web, Roots(web, seeds), yielded[i])
      ensures Settled(web) && Distinct(SeedItems(web, seeds)) ==> Distinct(yielded)
    {
      ghost var start := Progress(Start(web, seeds, visited, domainCounts), []);
      StartIsSafe(config, web, seeds, visited, domainCounts);
      var queue := AddSeeds(web, seeds);
      yielded := [];
      ghost var done: seq<Item> := [];
      var round := 0;
      while queue != [] && !stops.round(round)
        invariant Underway(config, web, seeds, stops, start, Progress(StateOf(queue, done), yielded), round)
        decreases Load(config, web, queue)
      {
        var size := BatchSize(config, queue);
        assert queue[..size] + queue[size..] == queue;
        ghost var before := Progress(StateOf(queue, done), yielded);
        queue, yielded, done :=
          LookAtBatch(web, queue[..size], queue[size..], yielded, stops, round, seeds, done);
        NextRound(config, web, seeds, stops, start, before, Progress(StateOf(queue, done), yielded), round);
        round := round + 1;
      }
      assert EndsAs(config, web, stops, start, round, yielded, visited, domainCounts);
      YieldsAreSafe(config, web, seeds, StateOf(queue, done), yielded);
    }
  }

  lemma YieldsAreSafe(config: Config, web: Web, seeds: seq<Url>, st: State, yielded: seq<Item>)
    requires Safe(config, web, seeds, st) && YieldsOf(yielded, st.done)
    ensures forall i | 0 <= i < |yielded| :: Allowed(config, web, Roots(web, seeds), yielded[i])
    ensures Settled(web) && Distinct(SeedItems(web, seeds)) ==> Distinct(yielded)
  {
    var log := Log(st);
    forall i | 0 <= i < |yielded| ensures Allowed(config, web, Roots(web, seeds), yielded[i]) {
      var j :| 0 <= j < |st.done| && st.done[j] == yielded[i];
      assert log[j] == yielded[i];
    }
    PrefixIsDistinct(st.done, log);
  }

  lemma HeadOfBatch(st: State, batch: seq<Item>, i: nat, queue: seq<Item>)
    requires i < |batch| && st.queue == batch[i..] + queue
    ensures st.queue != [] && st.queue[0] == batch[i] && st.queue[1..] == batch[i + 1..] + queue
  {
  }
}
