/**
 The frontier of `run_quick_scan` in quick_scan.py: a breadth-first search with a budget of
 URLs. A page gives the same answer whenever it is fetched.
 */
module QuickScans {
  import opened PageMatches

  const MAX_DEPTH := 2
  const MAX_URLS_PER_SCAN := 100

  type Url = string

  /** What becomes of one URL: no answer, a page, or an error after some findings were stored. */
  datatype Answer = NoAnswer | Page(text: string, links: seq<Url>) | Fails(text: string, stored: nat)

  datatype Web = Web(fetch: Url -> Answer, normal: Url -> Url, low: Lowering)

  datatype Entry = Entry(url: Url, depth: nat, source: string)

  datatype Source = Source(name: string, urls: seq<Url>)

  datatype Finding = Finding(source: string, url: Url, found: Match)

  datatype State = State(queue: seq<Entry>, visited: set<Url>, done: seq<Entry>)

  function Added(web: Web, st: State, entry: Entry): State {
    st.(visited := st.visited + {web.normal(entry.url)}, queue := st.queue + [entry])
  }

  /** The links up to the first new one that the budget has no room for. */
  function AddAll(web: Web, st: State, links: seq<Url>, depth: nat, source: string): State
    decreases |links|
  {
    if links == [] then st
    else
      var norm := web.normal(links[0]);
      if norm in st.visited then AddAll(web, st, links[1..], depth, source)
      else if |st.visited| >= MAX_URLS_PER_SCAN then st
      else AddAll(web, Added(web, st, Entry(links[0], depth, source)), links[1..], depth, source)
  }

  function AddSources(web: Web, st: State, sources: seq<Source>): State
    decreases |sources|
  {
    if sources == [] then st
    else AddSources(web, AddAll(web, st, sources[0].urls, 0, sources[0].name), sources[1..])
  }

  function LinksOf(web: Web, entry: Entry): seq<Url> {
    var answer := web.fetch(entry.url);
    if answer.Page? && entry.depth < MAX_DEPTH then answer.links else []
  }

  /** The first of the queue is looked at. */
  function Taken(st: State): State
    requires st.queue != []
  {
    st.(queue := st.queue[1..], done := st.done + [st.queue[0]])
  }

  /** The next round of a search with batches of one. */
  function Next(web: Web, st: State): State
    requires st.queue != []
  {
    var entry := st.queue[0];
    AddAll(web, Taken(st), LinksOf(web, entry), entry.depth + 1, entry.source)
  }

  // ---------------------------------------------------------------- what every scan keeps

  function Log(st: State): seq<Entry> {
    st.done + st.queue
  }

  function Norms(web: Web, log: seq<Entry>): set<Url> {
    set i | 0 <= i < |log| :: web.normal(log[i].url)
  }

  /** One URL that is visited for each entry there ever was, and no more than the budget. */
  ghost predicate Budgeted(web: Web, log: seq<Entry>, visited: set<Url>) {
    && visited == Norms(web, log) && |visited| == |log| <= MAX_URLS_PER_SCAN
    && forall i | 0 <= i < |log| :: log[i].depth <= MAX_DEPTH
  }

  ghost predicate InBudget(web: Web, st: State) {
    Budgeted(web, Log(st), st.visited)
  }

  lemma NormsAppend(web: Web, log: seq<Entry>, entry: Entry)
    ensures Norms(web, log + [entry]) == Norms(web, log) + {web.normal(entry.url)}
  {
    var longer := log + [entry];
    assert longer[|log|] == entry;
    forall norm | norm in Norms(web, log) ensures norm in Norms(web, longer) {
      var i :| 0 <= i < |log| && web.normal(log[i].url) == norm;
      assert longer[i] == log[i];
    }
  }

  predicate NormsDiffer(web: Web, log: seq<Entry>) {
    forall i, j | 0 <= i < j < |log| :: web.normal(log[i].url) != web.normal(log[j].url)
  }

  lemma {:induction false} NormsAreFew(web: Web, log: seq<Entry>)
    ensures |Norms(web, log)| <= |log|
    ensures |Norms(web, log)| == |log| ==> NormsDiffer(web, log)
  {
    if log != [] {
      var last := |log| - 1;
      var before := log[..last];
      NormsAreFew(web, before);
      assert log == before + [log[last]];
      NormsAppend(web, before, log[last]);
      if |Norms(web, log)| == |log| {
        forall i, j | 0 <= i < j < |log| ensures web.normal(log[i].url) != web.normal(log[j].url) {
          assert before[i] == log[i];
          assert web.normal(before[i].url) in Norms(web, before);
          assert j < last ==> before[j] == log[j];
        }
      }
    }
  }

  lemma AddOne(web: Web, st: State, entry: Entry)
    requires InBudget(web, st) && entry.depth <= MAX_DEPTH
    requires web.normal(entry.url) !in st.visited && |st.visited| < MAX_URLS_PER_SCAN
    ensures InBudget(web, Added(web, st, entry))
  {
    assert Log(Added(web, st, entry)) == Log(st) + [entry];
    BudgetOne(web, Log(st), st.visited, entry);
  }

  lemma BudgetOne(web: Web, log: seq<Entry>, visited: set<Url>, entry: Entry)
    requires Budgeted(web, log, visited) && entry.depth <= MAX_DEPTH
    requires web.normal(entry.url) !in visited && |visited| < MAX_URLS_PER_SCAN
    ensures Budgeted(web, log + [entry], visited + {web.normal(entry.url)})
  {
    NormsAppend(web, log, entry);
  }

  predicate IsPrefix(a: seq<Entry>, b: seq<Entry>) {
    |a| <= |b| && a == b[..|a|]
  }

  lemma {:induction false} AddAllKeeps(web: Web, st: State, links: seq<Url>, depth: nat, source: string)
    requires InBudget(web, st) && depth <= MAX_DEPTH
    ensures var after := AddAll(web, st, links, depth, source);
      InBudget(web, after) && after.done == st.done
    decreases |links|
  {
    if links != [] {
      var norm := web.normal(links[0]);
      if norm in st.visited {
        AddAllKeeps(web, st, links[1..], depth, source);
      } else if |st.visited| < MAX_URLS_PER_SCAN {
        var entry := Entry(links[0], depth, source);
        AddOne(web, st, entry);
        AddAllKeeps(web, Added(web, st, entry), links[1..], depth, source);
      }
    }
  }

  lemma {:induction false} AddAllExtends(web: Web, st: State, links: seq<Url>, depth: nat, source: string)
    ensures var after := AddAll(web, st, links, depth, source);
      after.done == st.done && IsPrefix(st.queue, after.queue)
      && |after.queue| - |st.queue| == |after.visited| - |st.visited|
    decreases |links|
  {
    if links != [] {
      var norm := web.normal(links[0]);
      if norm in st.visited {
        AddAllExtends(web, st, links[1..], depth, source);
      } else if |st.visited| < MAX_URLS_PER_SCAN {
        AddAllExtends(web, Added(web, st, Entry(links[0], depth, source)), links[1..], depth, source);
      }
    }
  }

  lemma {:induction false} AddSourcesKeeps(web: Web, st: State, sources: seq<Source>)
    requires InBudget(web, st)
    ensures InBudget(web, AddSources(web, st, sources)) && AddSources(web, st, sources).done == st.done
    decreases |sources|
  {
    if sources != [] {
      AddAllKeeps(web, st, sources[0].urls, 0, sources[0].name);
      AddSourcesKeeps(web, AddAll(web, st, sources[0].urls, 0, sources[0].name), sources[1..]);
    }
  }

  /** Room for new URLs and entries that wait: it falls with every entry that is looked at. */
  function Room(st: State): int {
    MAX_URLS_PER_SCAN - |st.visited| + |st.queue|
  }

  lemma PassedOver(web: Web, st: State)
    requires InBudget(web, st) && st.queue != []
    ensures InBudget(web, Taken(st)) && Log(Taken(st)) == Log(st) && 0 <= Room(Taken(st)) == Room(st) - 1
  {
    assert Log(Taken(st)) == Log(st);
  }

  lemma NextKeeps(web: Web, st: State)
    requires InBudget(web, st) && st.queue != []
    ensures InBudget(web, Next(web, st)) && Next(web, st).done == st.done + [st.queue[0]]
  {
    var entry := st.queue[0];
    PassedOver(web, st);
    assert Log(st)[|st.done|] == entry;
    if LinksOf(web, entry) != [] {
      AddAllKeeps(web, Taken(st), LinksOf(web, entry), entry.depth + 1, entry.source);
    }
  }

  lemma NextFalls(web: Web, st: State)
    requires InBudget(web, st) && st.queue != []
    ensures IsPrefix(Log(st), Log(Next(web, st))) && 0 <= Room(Next(web, st)) == Room(st) - 1
  {
    var entry := st.queue[0];
    NextKeeps(web, st);
    PassedOver(web, st);
    AddAllExtends(web, Taken(st), LinksOf(web, entry), entry.depth + 1, entry.source);
  }

  /** The search, one URL at a time. */
  ghost function Search(web: Web, st: State): (end: State)
    requires InBudget(web, st)
    ensures InBudget(web, end) && end.queue == [] && IsPrefix(Log(st), end.done)
    decreases Room(st)
  {
    if st.queue == [] then st
    else
      NextKeeps(web, st);
      NextFalls(web, st);
      Search(web, Next(web, st))
  }

  /** The links of every page that was looked at are visited, unless the budget is used up. */
  ghost predicate Complete(web: Web, st: State) {
    |st.visited| >= MAX_URLS_PER_SCAN
    || forall i | 0 <= i < |st.done| :: Visits(web, st.visited, LinksOf(web, st.done[i]))
  }

  ghost predicate Visits(web: Web, visited: set<Url>, links: seq<Url>) {
    forall k | 0 <= k < |links| :: web.normal(links[k]) in visited
  }

  lemma {:induction false} AddAllVisits(web: Web, st: State, links: seq<Url>, depth: nat, source: string)
    ensures var after := AddAll(web, st, links, depth, source);
      && st.visited <= after.visited
      && (|after.visited| >= MAX_URLS_PER_SCAN || Visits(web, after.visited, links))
    decreases |links|
  {
    if links != [] {
      var norm, rest := web.normal(links[0]), links[1..];
      if norm in st.visited {
        AddAllVisits(web, st, rest, depth, source);
      } else if |st.visited| < MAX_URLS_PER_SCAN {
        AddAllVisits(web, Added(web, st, Entry(links[0], depth, source)), rest, depth, source);
      }
      assert forall k | 1 <= k < |links| :: links[k] == rest[k - 1];
    }
  }

  lemma NextVisits(web: Web, st: State)
    requires st.queue != []
    ensures var after := Next(web, st);
      && after.done == st.done + [st.queue[0]] && st.visited <= after.visited
      && (|after.visited| >= MAX_URLS_PER_SCAN || Visits(web, after.visited, LinksOf(web, st.queue[0])))
  {
    var entry := st.queue[0];
    AddAllVisits(web, Taken(st), LinksOf(web, entry), entry.depth + 1, entry.source);
    AddAllExtends(web, Taken(st), LinksOf(web, entry), entry.depth + 1, entry.source);
  }

  lemma CompleteLater(web: Web, st: State, after: State, entry: Entry)
    requires Complete(web, st) && after.done == st.done + [entry] && st.visited <= after.visited
    requires |after.visited| >= MAX_URLS_PER_SCAN || Visits(web, after.visited, LinksOf(web, entry))
    ensures Complete(web, after)
  {
    if |after.visited| < MAX_URLS_PER_SCAN {
      assert after.visited == st.visited + (after.visited - st.visited);
      forall i | 0 <= i < |after.done| ensures Visits(web, after.visited, LinksOf(web, after.done[i])) {
        if i < |st.done| {
          assert after.done[i] == st.done[i] && Visits(web, st.visited, LinksOf(web, st.done[i]));
        }
      }
    }
  }

  lemma NextIsComplete(web: Web, st: State)
    requires st.queue != [] && Complete(web, st)
    ensures Complete(web, Next(web, st))
  {
    NextVisits(web, st);
    CompleteLater(web, st, Next(web, st), st.queue[0]);
  }

  lemma {:induction false} SearchIsComplete(web: Web, st: State)
    requires InBudget(web, st) && Complete(web, st)
    ensures Complete(web, Search(web, st))
    decreases Room(st)
  {
    if st.queue != [] {
      NextKeeps(web, st);
      NextFalls(web, st);
      NextIsComplete(web, st);
      SearchIsComplete(web, Next(web, st));
    }
  }

  // ---------------------------------------------------------------- batches

  function Behind(st: State, front: seq<Entry>): State {
    st.(queue := front + st.queue)
  }

  lemma {:induction false} AddAllBehind(
    web: Web, st: State, front: seq<Entry>, links: seq<Url>, depth: nat, source: string)
    ensures AddAll(web, Behind(st, front), links, depth, source) == Behind(AddAll(web, st, links, depth, source), front)
    decreases |links|
  {
    if links != [] {
      var norm, entry := web.normal(links[0]), Entry(links[0], depth, source);
      if norm in st.visited {
        AddAllBehind(web, st, front, links[1..], depth, source);
      } else if |st.visited| < MAX_URLS_PER_SCAN {
        assert front + st.queue + [entry] == front + (st.queue + [entry]);
        AddAllBehind(web, Added(web, st, entry), front, links[1..], depth, source);
      }
    }
  }

  /** When the scan is cancelled or out of time: before a source, a round, or an entry of a round. */
  datatype Stops = Stops(source: nat -> bool, round: nat -> bool, entry: (nat, nat) -> bool)

  ghost predicate NeverStops(stops: Stops) {
    && (forall n :: !stops.source(n)) && (forall round :: !stops.round(round))
    && (forall round, i :: !stops.entry(round, i))
  }

  // ---------------------------------------------------------------- findings

  /** A finding is a match of a variant in the page of its URL. */
  ghost predicate IsTrue(web: Web, variants: seq<string>, f: Finding) {
    var answer := web.fetch(f.url);
    !answer.NoAnswer? && f.found.variant in variants && IsMatch(web.low, answer.text, f.found)
  }

  ghost predicate IsFrom(entries: seq<Entry>, f: Finding) {
    exists i :: 0 <= i < |entries| && entries[i].url == f.url && entries[i].source == f.source
  }

  /** How many findings are stored for the URL: one for each variant on its page, up to an error. */
  function FoundOn(web: Web, variants: seq<string>, url: Url): nat {
    var answer := web.fetch(url);
    var matches := if answer.NoAnswer? || answer.text == "" then 0 else |Present(web.low, answer.text, variants)|;
    if answer.Fails? && answer.stored < matches then answer.stored else matches
  }

  function Answers(web: Web, entries: seq<Entry>): nat {
    if entries == [] then 0
    else
      var n := |entries| - 1;
      Answers(web, entries[..n]) + if web.fetch(entries[n].url).NoAnswer? then 0 else 1
  }

  function FoundFor(web: Web, variants: seq<string>, entries: seq<Entry>): nat {
    if entries == [] then 0
    else
      var n := |entries| - 1;
      FoundFor(web, variants, entries[..n]) + FoundOn(web, variants, entries[n].url)
  }

  lemma {:induction false} CountsJoin(web: Web, variants: seq<string>, a: seq<Entry>, b: seq<Entry>)
    ensures Answers(web, a + b) == Answers(web, a) + Answers(web, b)
    ensures FoundFor(web, variants, a + b) == FoundFor(web, variants, a) + FoundFor(web, variants, b)
    decreases |b|
  {
    if b == [] {
      assert a + b == a;
    } else {
      var n := |b| - 1;
      assert (a + b)[..|a| + n] == a + b[..n] && (a + b)[|a| + n] == b[n];
      CountsJoin(web, variants, a, b[..n]);
    }
  }

  ghost predicate Has(findings: seq<Finding>, entry: Entry, variant: string) {
    exists k :: 0 <= k < |findings|
                && findings[k].url == entry.url && findings[k].source == entry.source
                && findings[k].found.variant == variant
  }

  /** Every variant that is on the page of the entry was found. */
  ghost predicate AllFound(web: Web, variants: seq<string>, findings: seq<Finding>, entry: Entry) {
    var answer := web.fetch(entry.url);
    answer.Page? && answer.text != "" ==>
      forall variant | variant in variants && Sought(web.low, answer.text, variant) :: Has(findings, entry, variant)
  }

  /** What a scan has stored for the entries it has fetched, `answered` of which gave an answer. */
  ghost predicate Reported(
    web: Web, variants: seq<string>, entries: seq<Entry>, answered: nat, findings: seq<Finding>)
  {
    && answered == Answers(web, entries) <= |entries|
    && |findings| == FoundFor(web, variants, entries) <= answered * |variants|
    && (forall k | 0 <= k < |findings| :: IsTrue(web, variants, findings[k]) && IsFrom(entries, findings[k]))
    && (forall i | 0 <= i < |entries| :: AllFound(web, variants, findings, entries[i]))
  }

  lemma {:induction false} PresentHas(low: Lowering, text: string, variants: seq<string>)
    ensures forall variant :: variant in Present(low, text, variants) <==> variant in variants && Sought(low, text, variant)
    decreases |variants|
  {
    if variants != [] {
      var n := |variants| - 1;
      PresentHas(low, text, variants[..n]);
      assert variants == variants[..n] + [variants[n]];
    }
  }

  lemma FoundIsKept(web: Web, variants: seq<string>, a: seq<Finding>, b: seq<Finding>, entry: Entry)
    requires AllFound(web, variants, a, entry) || AllFound(web, variants, b, entry)
    ensures AllFound(web, variants, a + b, entry)
  {
    var answer := web.fetch(entry.url);
    if answer.Page? && answer.text != "" {
      forall variant | variant in variants && Sought(web.low, answer.text, variant) ensures Has(a + b, entry, variant) {
        if Has(a, entry, variant) {
          var k :| 0 <= k < |a| && a[k].url == entry.url && a[k].source == entry.source && a[k].found.variant == variant;
          assert (a + b)[k] == a[k];
        } else {
          assert Has(b, entry, variant);
          var k :| 0 <= k < |b| && b[k].url == entry.url && b[k].source == entry.source && b[k].found.variant == variant;
          assert (a + b)[|a| + k] == b[k];
        }
      }
    }
  }

  /** The findings that are stored for the first `n` matches. */
  method Store(entry: Entry, matches: seq<Match>, n: nat) returns (found: seq<Finding>)
    requires n <= |matches|
    ensures |found| == n
    ensures forall k | 0 <= k < n :: found[k] == Finding(entry.source, entry.url, matches[k])
  {
    found := [];
    for k := 0 to n
      invariant |found| == k
      invariant forall m | 0 <= m < k :: found[m] == Finding(entry.source, entry.url, matches[m])
    {
      found := found + [Finding(entry.source, entry.url, matches[k])];
    }
  }

  /** One URL: its findings, and the links of its page. */
  method ProcessOne(web: Web, variants: seq<string>, entry: Entry)
    returns (answered: bool, found: seq<Finding>, links: seq<Url>)
    ensures answered <==> !web.fetch(entry.url).NoAnswer?
    ensures |found| == FoundOn(web, variants, entry.url) <= if answered then |variants| else 0
    ensures forall k | 0 <= k < |found| ::
      found[k].url == entry.url && found[k].source == entry.source && IsTrue(web, variants, found[k])
    ensures AllFound(web, variants, found, entry)
    ensures links == if web.fetch(entry.url).Page? then web.fetch(entry.url).links else []
  {
    var answer := web.fetch(entry.url);
    found, links, answered := [], [], !answer.NoAnswer?;
    if answer.NoAnswer? {
      return;
    }
    var matches := FindMatches(web.low, answer.text, variants);
    MatchesAreOfVariants(web.low, answer.text, variants, matches);
    var stored := if answer.Fails? && answer.stored < |matches| then answer.stored else |matches|;
    found := Store(entry, matches, stored);
    if answer.Page? {
      links := answer.links;
      StoredAll(web, variants, entry, matches, found);
    }
  }

  lemma MatchesAreOfVariants(low: Lowering, text: string, variants: seq<string>, matches: seq<Match>)
    requires forall k | 0 <= k < |matches| ::
      k < |Present(low, text, variants)| && matches[k].variant == Present(low, text, variants)[k]
    ensures forall k | 0 <= k < |matches| :: matches[k].variant in variants
  {
    PresentHas(low, text, variants);
    forall k | 0 <= k < |matches| ensures matches[k].variant in variants {
      assert matches[k].variant in Present(low, text, variants);
    }
  }

  lemma StoredAll(web: Web, variants: seq<string>, entry: Entry, matches: seq<Match>, found: seq<Finding>)
    requires web.fetch(entry.url).Page? && |found| == |matches|
    requires forall k | 0 <= k < |matches| :: found[k] == Finding(entry.source, entry.url, matches[k])
    requires var text := web.fetch(entry.url).text;
      text != "" ==>
        |matches| == |Present(web.low, text, variants)|
        && forall k | 0 <= k < |matches| :: matches[k].variant == Present(web.low, text, variants)[k]
    ensures AllFound(web, variants, found, entry)
  {
    var text := web.fetch(entry.url).text;
    PresentHas(web.low, text, variants);
    if text != "" {
      forall variant | variant in variants && Sought(web.low, text, variant) ensures Has(found, entry, variant) {
        var k :| 0 <= k < |matches| && Present(web.low, text, variants)[k] == variant;
        assert found[k].found.variant == variant;
      }
    }
  }

  /** What each entry of a batch leads to. */
  ghost predicate LinksFit(web: Web, batch: seq<Entry>, results: seq<seq<Url>>, stops: Stops, round: nat) {
    && |results| == |batch|
    && forall i | 0 <= i < |batch| :: Fits(web, batch[i], results[i], stops.entry(round, i))
  }

  /** The links that are followed are those of the page; or none, if the scan was stopped before it. */
  predicate Fits(web: Web, entry: Entry, result: seq<Url>, stopped: bool) {
    (if entry.depth < MAX_DEPTH then result else []) == if stopped then [] else LinksOf(web, entry)
  }

  /** Those of the first `n` entries of a round that the scan was not stopped before. */
  ghost function Fetched(batch: seq<Entry>, stops: Stops, round: nat, n: nat): seq<Entry>
    requires n <= |batch|
  {
    if n == 0 then []
    else Fetched(batch, stops, round, n - 1) + (if stops.entry(round, n - 1) then [] else [batch[n - 1]])
  }

  method Gather(web: Web, variants: seq<string>, batch: seq<Entry>, round: nat, stops: Stops)
    returns (answered: nat, found: seq<Finding>, results: seq<seq<Url>>)
    ensures Reported(web, variants, Fetched(batch, stops, round, |batch|), answered, found)
    ensures LinksFit(web, batch, results, stops, round)
  {
    answered, found, results := 0, [], [];
    for i := 0 to |batch|
      invariant Reported(web, variants, Fetched(batch, stops, round, i), answered, found)
      invariant LinksFit(web, batch[..i], results, stops, round)
    {
      var result;
      answered, found, result := GatherOne(
        web, variants, batch[i], stops.entry(round, i), answered, found, Fetched(batch, stops, round, i));
      LinksFitOneMore(web, batch[..i], results, batch[i], result, stops, round);
      results := results + [result];
      assert batch[..i + 1] == batch[..i] + [batch[i]];
      assert Fetched(batch, stops, round, i + 1)
          == Fetched(batch, stops, round, i) + if stops.entry(round, i) then [] else [batch[i]];
    }
    assert batch[..|batch|] == batch;
  }

  /** One entry of a batch, after the findings so far; none when the scan was stopped before it. */
  method GatherOne(web: Web, variants: seq<string>, entry: Entry, stopped: bool, sofar: nat, stored: seq<Finding>,
                   ghost entries: seq<Entry>)
    returns (answered: nat, found: seq<Finding>, result: seq<Url>)
    requires Reported(web, variants, entries, sofar, stored)
    ensures Reported(web, variants, entries + (if stopped then [] else [entry]), answered, found)
    ensures Fits(web, entry, result, stopped)
  {
    if stopped {
      answered, found, result := sofar, stored, [];
      assert entries + [] == entries;
    } else {
      var one, more, links := ProcessOne(web, variants, entry);
      OneReported(web, variants, entry, one, more);
      JoinFound(web, variants, entries, sofar, stored, [entry], if one then 1 else 0, more);
      answered, found, result := sofar + (if one then 1 else 0), stored + more, links;
    }
  }

  lemma LinksFitOneMore(
    web: Web, batch: seq<Entry>, results: seq<seq<Url>>, entry: Entry, result: seq<Url>, stops: Stops, round: nat)
    requires LinksFit(web, batch, results, stops, round) && Fits(web, entry, result, stops.entry(round, |batch|))
    ensures LinksFit(web, batch + [entry], results + [result], stops, round)
  {
  }

  lemma OneReported(web: Web, variants: seq<string>, entry: Entry, answered: bool, found: seq<Finding>)
    requires answered <==> !web.fetch(entry.url).NoAnswer?
    requires |found| == FoundOn(web, variants, entry.url) <= if answered then |variants| else 0
    requires forall k | 0 <= k < |found| ::
      found[k].url == entry.url && found[k].source == entry.source && IsTrue(web, variants, found[k])
    requires AllFound(web, variants, found, entry)
    ensures Reported(web, variants, [entry], if answered then 1 else 0, found)
  {
    CountsOfOne(web, variants, entry);
    forall k | 0 <= k < |found| ensures IsFrom([entry], found[k]) {
      assert [entry][0] == entry;
    }
  }

  lemma CountsOfOne(web: Web, variants: seq<string>, entry: Entry)
    ensures Answers(web, [entry]) == if web.fetch(entry.url).NoAnswer? then 0 else 1
    ensures FoundFor(web, variants, [entry]) == FoundOn(web, variants, entry.url)
  {
    assert [entry][..0] == [] && [entry][0] == entry;
  }

  // ---------------------------------------------------------------- the scan

  method AddLinks(web: Web, links: seq<Url>, depth: nat, source: string, waiting: seq<Entry>, seen: set<Url>,
                  ghost done: seq<Entry>)
    returns (queue: seq<Entry>, visited: set<Url>)
    ensures State(queue, visited, done) == AddAll(web, State(waiting, seen, done), links, depth, source)
  {
    queue, visited := waiting, seen;
    for n := 0 to |links|
      invariant AddAll(web, State(queue, visited, done), links[n..], depth, source)
             == AddAll(web, State(waiting, seen, done), links, depth, source)
    {
      assert links[n..][0] == links[n] && links[n..][1..] == links[n + 1..];
      var norm := web.normal(links[n]);
      if norm in visited {
        continue;
      }
      if |visited| >= MAX_URLS_PER_SCAN {
        return;
      }
      visited := visited + {norm};
      queue := queue + [Entry(links[n], depth, source)];
    }
  }

  // ---------------------------------------------------------------- where a stop leaves a scan

  /** A scan on its way: its state, and the entries that it has fetched. */
  datatype Progress = Progress(st: State, fetched: seq<Entry>)

  /** The next of the queue is passed over when the stop came before its fetch, and looked at otherwise. */
  function Turn(web: Web, p: Progress, stopped: bool): Progress {
    if p.st.queue == [] then p
    else if stopped then Progress(Taken(p.st), p.fetched)
    else Progress(Next(web, p.st), p.fetched + [p.st.queue[0]])
  }

  ghost function Turns(web: Web, stops: Stops, round: nat, p: Progress, n: nat): Progress {
    if n == 0 then p else Turn(web, Turns(web, stops, round, p, n - 1), stops.entry(round, n - 1))
  }

  function BatchSize(queue: seq<Entry>, maxConcurrent: nat): nat {
    if |queue| < maxConcurrent then |queue| else maxConcurrent
  }

  ghost function Rounds(web: Web, stops: Stops, maxConcurrent: nat, p: Progress, rounds: nat): Progress {
    if rounds == 0 then p
    else
      var before := Rounds(web, stops, maxConcurrent, p, rounds - 1);
      Turns(web, stops, rounds - 1, before, BatchSize(before.st.queue, maxConcurrent))
  }

  /** The scan begins with the sources before the one at which it is told to stop, or with all of them. */
  ghost predicate BeginsWith(web: Web, sources: seq<Source>, stops: Stops, n: nat, st: State) {
    && n <= |sources| && (n == |sources| || stops.source(n)) && (forall m | 0 <= m < n :: !stops.source(m))
    && st == AddSources(web, State([], {}, []), sources[..n])
  }

  /** It ends before this round: with nothing left, or because it is told to. */
  ghost predicate EndsBefore(web: Web, stops: Stops, maxConcurrent: nat, p: Progress, rounds: nat) {
    && (Rounds(web, stops, maxConcurrent, p, rounds).st.queue == [] || stops.round(rounds))
    && NotOver(web, stops, maxConcurrent, p, rounds)
  }

  ghost predicate NotOver(web: Web, stops: Stops, maxConcurrent: nat, p: Progress, rounds: nat) {
    forall r | 0 <= r < rounds :: !stops.round(r) && Rounds(web, stops, maxConcurrent, p, r).st.queue != []
  }

  /** What every scan keeps; one that is never stopped stays on the way of the search, and fetches all it takes. */
  ghost predicate OnTheWay(web: Web, start: State, p: Progress, exact: bool)
    requires InBudget(web, start)
  {
    && InBudget(web, p.st) && |p.fetched| <= |p.st.done| && (forall e | e in p.fetched :: e in p.st.done)
    && (exact ==> Search(web, p.st) == Search(web, start) && p.fetched == p.st.done)
  }

  lemma TurnKeeps(web: Web, start: State, p: Progress, stopped: bool, exact: bool)
    requires InBudget(web, start) && OnTheWay(web, start, p, exact) && p.st.queue != [] && (stopped ==> !exact)
    ensures var next := Turn(web, p, stopped);
      && OnTheWay(web, start, next, exact) && 0 <= Room(next.st) == Room(p.st) - 1
      && |next.st.queue| >= |p.st.queue| - 1
  {
    if stopped {
      PassedOver(web, p.st);
    } else {
      NextKeeps(web, p.st);
      NextFalls(web, p.st);
      NextQueue(web, p.st);
    }
  }

  lemma NextQueue(web: Web, st: State)
    requires st.queue != []
    ensures |Next(web, st).queue| >= |st.queue| - 1
  {
    AddAllExtends(web, Taken(st), LinksOf(web, st.queue[0]), st.queue[0].depth + 1, st.queue[0].source);
  }

  lemma {:induction false} TurnsKeep(web: Web, start: State, stops: Stops, round: nat, p: Progress, n: nat)
    requires InBudget(web, start) && OnTheWay(web, start, p, NeverStops(stops)) && n <= |p.st.queue|
    ensures var next := Turns(web, stops, round, p, n);
      && OnTheWay(web, start, next, NeverStops(stops)) && Room(next.st) == Room(p.st) - n && (n > 0 ==> 0 <= Room(next.st))
      && |next.st.queue| >= |p.st.queue| - n
    decreases n
  {
    if n > 0 {
      TurnsKeep(web, start, stops, round, p, n - 1);
      TurnKeeps(web, start, Turns(web, stops, round, p, n - 1), stops.entry(round, n - 1), NeverStops(stops));
    }
  }

  /** The turn of an entry, with the rest of its batch still in front of the queue. */
  lemma TurnBehind(web: Web, st: State, entry: Entry, rest: seq<Entry>, fetched: seq<Entry>, stopped: bool)
    ensures var links := if stopped then [] else LinksOf(web, entry);
      var after := AddAll(web, st.(done := st.done + [entry]), links, entry.depth + 1, entry.source);
      Turn(web, Progress(Behind(st, [entry] + rest), fetched), stopped).st == Behind(after, rest)
  {
    var front := [entry] + rest;
    assert (front + st.queue)[1..] == rest + st.queue && front[0] == entry;
    assert Taken(Behind(st, front)) == Behind(st.(done := st.done + [entry]), rest);
    if !stopped {
      AddAllBehind(web, st.(done := st.done + [entry]), rest, LinksOf(web, entry), entry.depth + 1, entry.source);
    }
  }

  /** The entries of a batch are taken in turn, and those that the stop does not come before are fetched. */
  lemma {:induction false} TurnsFetch(web: Web, stops: Stops, round: nat, p: Progress, batch: seq<Entry>, n: nat)
    requires IsPrefix(batch, p.st.queue) && n <= |batch|
    ensures var next := Turns(web, stops, round, p, n);
      && next.fetched == p.fetched + Fetched(batch, stops, round, n)
      && next.st.done == p.st.done + batch[..n] && IsPrefix(batch[n..], next.st.queue)
    decreases n
  {
    if n == 0 {
      assert p.fetched + [] == p.fetched && p.st.done + batch[..0] == p.st.done && batch[0..] == batch;
    } else {
      var before := Turns(web, stops, round, p, n - 1);
      TurnsFetch(web, stops, round, p, batch, n - 1);
      TurnOf(batch, p.st.done, n - 1);
      TurnTakes(web, before, stops.entry(round, n - 1), batch[n - 1], batch[n..]);
      FetchedNext(batch, p.fetched, stops, round, n - 1);
    }
  }

  lemma TurnTakes(web: Web, p: Progress, stopped: bool, entry: Entry, rest: seq<Entry>)
    requires IsPrefix([entry] + rest, p.st.queue)
    ensures var next := Turn(web, p, stopped);
      && next.st.done == p.st.done + [entry] && next.fetched == p.fetched + (if stopped then [] else [entry])
      && IsPrefix(rest, next.st.queue)
  {
    assert p.st.queue[0] == ([entry] + rest)[0] && rest == ([entry] + rest)[1..];
    assert IsPrefix(rest, p.st.queue[1..]);
    AddAllExtends(web, Taken(p.st), LinksOf(web, p.st.queue[0]), p.st.queue[0].depth + 1, p.st.queue[0].source);
    assert p.fetched + [] == p.fetched;
  }

  /** What the round does with the links that were gathered for an entry. */
  method Follow(web: Web, entry: Entry, result: seq<Url>, waiting: seq<Entry>, seen: set<Url>, ghost done: seq<Entry>)
    returns (queue: seq<Entry>, visited: set<Url>)
    ensures var links := if entry.depth < MAX_DEPTH then result else [];
      State(queue, visited, done) == AddAll(web, State(waiting, seen, done), links, entry.depth + 1, entry.source)
  {
    queue, visited := waiting, seen;
    if entry.depth < MAX_DEPTH {
      queue, visited := AddLinks(web, result, entry.depth + 1, entry.source, waiting, seen, done);
    }
  }

  method Spread(web: Web, batch: seq<Entry>, results: seq<seq<Url>>, waiting: seq<Entry>, seen: set<Url>,
                ghost start: Progress, ghost stops: Stops, ghost round: nat)
    returns (queue: seq<Entry>, visited: set<Url>)
    requires LinksFit(web, batch, results, stops, round) && start.st == State(batch + waiting, seen, start.st.done)
    ensures State(queue, visited, start.st.done + batch) == Turns(web, stops, round, start, |batch|).st
  {
    queue, visited := waiting, seen;
    StartReaches(web, batch, stops, round, start, waiting);
    for i := 0 to |batch|
      invariant Reaches(web, batch, stops, round, start, i, queue, visited)
    {
      queue, visited := OneTurn(web, batch, i, results[i], queue, visited, stops, round, start);
    }
    EndReached(web, batch, stops, round, start, queue, visited);
  }

  /** The scan is where the first `i` turns of the round lead from `start`. */
  ghost predicate Reaches(web: Web, batch: seq<Entry>, stops: Stops, round: nat, start: Progress, i: nat,
                          queue: seq<Entry>, visited: set<Url>)
    requires i <= |batch|
  {
    Behind(State(queue, visited, start.st.done + batch[..i]), batch[i..]) == Turns(web, stops, round, start, i).st
  }

  lemma StartReaches(web: Web, batch: seq<Entry>, stops: Stops, round: nat, start: Progress, queue: seq<Entry>)
    requires start.st.queue == batch + queue
    ensures Reaches(web, batch, stops, round, start, 0, queue, start.st.visited)
  {
    assert batch[0..] == batch && start.st.done + batch[..0] == start.st.done;
  }

  lemma EndReached(web: Web, batch: seq<Entry>, stops: Stops, round: nat, start: Progress,
                   queue: seq<Entry>, visited: set<Url>)
    requires Reaches(web, batch, stops, round, start, |batch|, queue, visited)
    ensures State(queue, visited, start.st.done + batch) == Turns(web, stops, round, start, |batch|).st
  {
    assert batch[|batch|..] + queue == queue && batch[..|batch|] == batch;
  }

  method OneTurn(web: Web, batch: seq<Entry>, i: nat, result: seq<Url>, waiting: seq<Entry>, seen: set<Url>,
                 ghost stops: Stops, ghost round: nat, ghost start: Progress)
    returns (queue: seq<Entry>, visited: set<Url>)
    requires i < |batch| && Fits(web, batch[i], result, stops.entry(round, i))
    requires Reaches(web, batch, stops, round, start, i, waiting, seen)
    ensures Reaches(web, batch, stops, round, start, i + 1, queue, visited)
  {
    ghost var done, p := start.st.done + batch[..i], Turns(web, stops, round, start, i);
    queue, visited := Follow(web, batch[i], result, waiting, seen, done + [batch[i]]);
    TurnBehind(web, State(waiting, seen, done), batch[i], batch[i + 1..], p.fetched, stops.entry(round, i));
    TurnOf(batch, start.st.done, i);
    assert p == Progress(Behind(State(waiting, seen, done), [batch[i]] + batch[i + 1..]), p.fetched);
  }

  lemma TurnOf(batch: seq<Entry>, before: seq<Entry>, i: nat)
    requires i < |batch|
    ensures batch[i..] == [batch[i]] + batch[i + 1..] && before + batch[..i + 1] == before + batch[..i] + [batch[i]]
  {
  }

  lemma FetchedNext(batch: seq<Entry>, fetched: seq<Entry>, stops: Stops, round: nat, i: nat)
    requires i < |batch|
    ensures fetched + Fetched(batch, stops, round, i + 1)
         == fetched + Fetched(batch, stops, round, i) + (if stops.entry(round, i) then [] else [batch[i]])
  {
  }

  lemma {:induction false} AddSourcesAppend(web: Web, st: State, sources: seq<Source>, source: Source)
    ensures AddSources(web, st, sources + [source])
         == AddAll(web, AddSources(web, st, sources), source.urls, 0, source.name)
    decreases |sources|
  {
    if sources == [] {
      assert [source][1..] == [];
    } else {
      assert (sources + [source])[1..] == sources[1..] + [source];
      AddSourcesAppend(web, AddAll(web, st, sources[0].urls, 0, sources[0].name), sources[1..], source);
    }
  }

  method QueueSources(web: Web, sources: seq<Source>, stops: Stops)
    returns (queue: seq<Entry>, visited: set<Url>)
    ensures exists n: nat :: BeginsWith(web, sources, stops, n, State(queue, visited, []))
  {
    queue, visited := [], {};
    var k := 0;
    while k < |sources| && !stops.source(k)
      invariant 0 <= k <= |sources| && forall m | 0 <= m < k :: !stops.source(m)
      invariant State(queue, visited, []) == AddSources(web, State([], {}, []), sources[..k])
    {
      AddSourcesAppend(web, State([], {}, []), sources[..k], sources[k]);
      assert sources[..k + 1] == sources[..k] + [sources[k]];
      queue, visited := AddLinks(web, sources[k].urls, 0, sources[k].name, queue, visited, []);
      k := k + 1;
    }
    assert BeginsWith(web, sources, stops, k, State(queue, visited, []));
  }

  /** The scan of a web that answers all its sources, without a stop. */
  ghost function Scanned(web: Web, sources: seq<Source>): State {
    AddSourcesKeeps(web, State([], {}, []), sources);
    Search(web, AddSources(web, State([], {}, []), sources))
  }

  /**
   A scan that is never stopped tries every normalised URL at most once, goes no deeper than the limit, and
   visits every link of every page above that depth, unless its budget is used up.
   */
  lemma ScanIsComplete(web: Web, sources: seq<Source>)
    ensures var end := Scanned(web, sources);
      && NormsDiffer(web, end.done) && end.visited == Norms(web, end.done)
      && (forall i | 0 <= i < |end.done| :: end.done[i].depth <= MAX_DEPTH)
      && (|end.visited| == MAX_URLS_PER_SCAN
          || forall i | 0 <= i < |end.done| :: Visits(web, end.visited, LinksOf(web, end.done[i])))
  {
    var start := AddSources(web, State([], {}, []), sources);
    AddSourcesKeeps(web, State([], {}, []), sources);
    SearchIsComplete(web, start);
    var end := Search(web, start);
    assert Log(end) == end.done;
    NormsAreFew(web, end.done);
  }

  /** What a scan leaves: which URLs it has visited, and what it has stored for the entries that it has fetched. */
  ghost predicate EndsAs(
    web: Web, sources: seq<Source>, variants: seq<string>, maxConcurrent: nat, stops: Stops, n: nat, start: State,
    rounds: nat, visited: set<Url>, answered: nat, findings: seq<Finding>)
  {
    var p := Progress(start, []);
    var end := Rounds(web, stops, maxConcurrent, p, rounds);
    && BeginsWith(web, sources, stops, n, start) && EndsBefore(web, stops, maxConcurrent, p, rounds)
    && visited == end.st.visited && Reported(web, variants, end.fetched, answered, findings)
  }

  /**
   Stopped at any time, the scan ends before the first source, round or entry for which it is told to, has visited what
   the rounds before it visit, and has stored exactly the findings of the pages it has fetched. It stays within its
   budget: it tries no more URLs than it has marked as visited, and stores at most one finding for each variant
   and page. Never stopped, it visits what the search visits, for every batch size, and finds every variant on every page.
   */
  method RunQuickScan(web: Web, sources: seq<Source>, variants: seq<string>, maxConcurrent: nat, stops: Stops)
    returns (visited: set<Url>, urlsVisited: nat, findings: seq<Finding>)
    requires maxConcurrent >= 1
    ensures exists n, start, rounds: nat ::
      EndsAs(web, sources, variants, maxConcurrent, stops, n, start, rounds, visited, urlsVisited, findings)
    ensures urlsVisited <= |visited| <= MAX_URLS_PER_SCAN
    ensures |findings| <= urlsVisited * |variants| <= MAX_URLS_PER_SCAN * |variants|
    ensures forall k | 0 <= k < |findings| :: IsTrue(web, variants, findings[k]) && web.normal(findings[k].url) in visited
    ensures NeverStops(stops) ==>
      var end := Scanned(web, sources);
      visited == end.visited && Reported(web, variants, end.done, urlsVisited, findings)
  {
    var queue;
    queue, visited := QueueSources(web, sources, stops);
    ghost var n: nat :| BeginsWith(web, sources, stops, n, State(queue, visited, []));
    urlsVisited, findings := 0, [];
    ghost var start, p := State(queue, visited, []), Progress(State(queue, visited, []), []);
    StartIsUnderWay(web, sources, variants, stops, maxConcurrent, n, start);
    var round := 0;
    while queue != [] && !stops.round(round)
      invariant InBudget(web, start) && p.st.queue == queue && p.st.visited == visited
      invariant UnderWay(web, variants, stops, maxConcurrent, start, p, round, urlsVisited, findings)
      decreases Room(p.st)
    {
      ghost var next := Turns(web, stops, round, p, BatchSize(queue, maxConcurrent));
      queue, visited, urlsVisited, findings :=
        OneRound(web, variants, maxConcurrent, queue, visited, urlsVisited, findings, round, stops, start, p);
      p := next;
      round := round + 1;
    }
    EndOfScan(web, sources, variants, stops, maxConcurrent, n, start, p, round, urlsVisited, findings);
  }

  /** A batch is taken off the queue and fetched; then its links are added, entry by entry. */
  method OneRound(web: Web, variants: seq<string>, maxConcurrent: nat, waiting: seq<Entry>, seen: set<Url>, sofar: nat,
                  stored: seq<Finding>, round: nat, stops: Stops, ghost start: State, ghost p: Progress)
    returns (queue: seq<Entry>, visited: set<Url>, urlsVisited: nat, findings: seq<Finding>)
    requires maxConcurrent >= 1 && InBudget(web, start) && waiting == p.st.queue != [] && seen == p.st.visited
    requires UnderWay(web, variants, stops, maxConcurrent, start, p, round, sofar, stored) && !stops.round(round)
    ensures var next := Turns(web, stops, round, p, BatchSize(waiting, maxConcurrent));
      && queue == next.st.queue && visited == next.st.visited && 0 <= Room(next.st) < Room(p.st)
      && UnderWay(web, variants, stops, maxConcurrent, start, next, round + 1, urlsVisited, findings)
  {
    var size := BatchSize(waiting, maxConcurrent);
    var answered, found;
    queue, visited, answered, found := FetchAndSpread(web, variants, waiting, seen, size, round, stops, p);
    ghost var next := Turns(web, stops, round, p, size);
    NextRound(web, variants, stops, maxConcurrent, start, p, next, round, sofar, stored, answered, found);
    urlsVisited, findings := sofar + answered, stored + found;
  }

  method FetchAndSpread(web: Web, variants: seq<string>, waiting: seq<Entry>, seen: set<Url>, size: nat, round: nat,
                        stops: Stops, ghost p: Progress)
    returns (queue: seq<Entry>, visited: set<Url>, answered: nat, found: seq<Finding>)
    requires size <= |waiting| && waiting == p.st.queue && seen == p.st.visited
    ensures var next := Turns(web, stops, round, p, size); queue == next.st.queue && visited == next.st.visited
    ensures Reported(web, variants, Fetched(waiting[..size], stops, round, size), answered, found)
  {
    var batch, rest := waiting[..size], waiting[size..];
    assert batch + rest == waiting;
    var results;
    answered, found, results := Gather(web, variants, batch, round, stops);
    queue, visited := Spread(web, batch, results, rest, seen, p, stops, round);
  }

  /** What holds before every round. */
  ghost predicate UnderWay(
    web: Web, variants: seq<string>, stops: Stops, maxConcurrent: nat, start: State, p: Progress, round: nat,
    answered: nat, findings: seq<Finding>)
    requires InBudget(web, start)
  {
    && OnTheWay(web, start, p, NeverStops(stops)) && Reported(web, variants, p.fetched, answered, findings)
    && p == Rounds(web, stops, maxConcurrent, Progress(start, []), round)
    && NotOver(web, stops, maxConcurrent, Progress(start, []), round)
  }

  lemma StartIsUnderWay(
    web: Web, sources: seq<Source>, variants: seq<string>, stops: Stops, maxConcurrent: nat, n: nat, start: State)
    requires BeginsWith(web, sources, stops, n, start)
    ensures InBudget(web, start) && start.done == []
    ensures UnderWay(web, variants, stops, maxConcurrent, start, Progress(start, []), 0, 0, [])
    ensures NeverStops(stops) ==> Search(web, start) == Scanned(web, sources)
  {
    AddSourcesKeeps(web, State([], {}, []), sources[..n]);
    if NeverStops(stops) {
      assert n == |sources| && sources[..n] == sources;
    }
  }

  lemma NextRound(
    web: Web, variants: seq<string>, stops: Stops, maxConcurrent: nat, start: State, p: Progress, next: Progress,
    round: nat, answered: nat, findings: seq<Finding>, more: nat, found: seq<Finding>)
    requires InBudget(web, start) && maxConcurrent >= 1 && p.st.queue != [] && !stops.round(round)
    requires UnderWay(web, variants, stops, maxConcurrent, start, p, round, answered, findings)
    requires next == Turns(web, stops, round, p, BatchSize(p.st.queue, maxConcurrent))
    requires var size := BatchSize(p.st.queue, maxConcurrent);
      Reported(web, variants, Fetched(p.st.queue[..size], stops, round, size), more, found)
    ensures UnderWay(web, variants, stops, maxConcurrent, start, next, round + 1, answered + more, findings + found)
    ensures 0 <= Room(next.st) < Room(p.st)
  {
    var size := BatchSize(p.st.queue, maxConcurrent);
    TurnsKeep(web, start, stops, round, p, size);
    TurnsFetch(web, stops, round, p, p.st.queue[..size], size);
    RoundsNext(web, stops, maxConcurrent, Progress(start, []), p, round);
    JoinFound(web, variants, p.fetched, answered, findings, Fetched(p.st.queue[..size], stops, round, size), more, found);
  }

  lemma RoundsNext(web: Web, stops: Stops, maxConcurrent: nat, start: Progress, p: Progress, round: nat)
    requires p == Rounds(web, stops, maxConcurrent, start, round) && p.st.queue != [] && !stops.round(round)
    requires NotOver(web, stops, maxConcurrent, start, round)
    ensures Turns(web, stops, round, p, BatchSize(p.st.queue, maxConcurrent))
         == Rounds(web, stops, maxConcurrent, start, round + 1)
    ensures NotOver(web, stops, maxConcurrent, start, round + 1)
  {
  }

  lemma EndOfScan(
    web: Web, sources: seq<Source>, variants: seq<string>, stops: Stops, maxConcurrent: nat, n: nat, start: State,
    p: Progress, round: nat, answered: nat, findings: seq<Finding>)
    requires BeginsWith(web, sources, stops, n, start) && InBudget(web, start)
    requires UnderWay(web, variants, stops, maxConcurrent, start, p, round, answered, findings)
    requires p.st.queue == [] || stops.round(round)
    ensures EndsAs(web, sources, variants, maxConcurrent, stops, n, start, round, p.st.visited, answered, findings)
    ensures answered <= |p.st.visited| <= MAX_URLS_PER_SCAN
    ensures |findings| <= answered * |variants| <= MAX_URLS_PER_SCAN * |variants|
    ensures forall k | 0 <= k < |findings| ::
      IsTrue(web, variants, findings[k]) && web.normal(findings[k].url) in p.st.visited
    ensures NeverStops(stops) ==>
      var end := Scanned(web, sources);
      p.st.visited == end.visited && Reported(web, variants, end.done, answered, findings)
  {
    FinalBudget(web, p.st, answered, |variants|);
    FoundIsVisited(web, variants, p, findings);
    StartIsUnderWay(web, sources, variants, stops, maxConcurrent, n, start);
  }

  lemma FoundIsVisited(web: Web, variants: seq<string>, p: Progress, findings: seq<Finding>)
    requires InBudget(web, p.st) && forall e | e in p.fetched :: e in p.st.done
    requires forall k | 0 <= k < |findings| :: IsFrom(p.fetched, findings[k])
    ensures forall k | 0 <= k < |findings| :: web.normal(findings[k].url) in p.st.visited
  {
    forall k | 0 <= k < |findings| ensures web.normal(findings[k].url) in p.st.visited {
      assert IsFrom(p.fetched, findings[k]);
      var i :| 0 <= i < |p.fetched| && p.fetched[i].url == findings[k].url;
      assert p.fetched[i] in p.fetched;
      var j :| 0 <= j < |p.st.done| && p.st.done[j] == p.fetched[i];
      DoneIsVisited(web, p.st, j);
    }
  }

  lemma MulAdd(a: nat, b: nat, k: nat)
    ensures (a + b) * k == a * k + b * k
  {
  }

  lemma JoinFound(web: Web, variants: seq<string>, before: seq<Entry>, n: nat, a: seq<Finding>,
                  batch: seq<Entry>, m: nat, b: seq<Finding>)
    requires Reported(web, variants, before, n, a) && Reported(web, variants, batch, m, b)
    ensures Reported(web, variants, before + batch, n + m, a + b)
  {
    MulAdd(n, m, |variants|);
    CountsJoin(web, variants, before, batch);
    forall k | 0 <= k < |a + b| ensures IsFrom(before + batch, (a + b)[k]) {
      if k < |a| {
        assert IsFrom(before, a[k]);
        var i :| 0 <= i < |before| && before[i].url == a[k].url && before[i].source == a[k].source;
        assert (before + batch)[i] == before[i];
      } else {
        assert IsFrom(batch, b[k - |a|]);
        var i :| 0 <= i < |batch| && batch[i].url == b[k - |a|].url && batch[i].source == b[k - |a|].source;
        assert (before + batch)[|before| + i] == batch[i];
      }
    }
    forall i | 0 <= i < |before + batch| ensures AllFound(web, variants, a + b, (before + batch)[i]) {
      FoundIsKept(web, variants, a, b, (before + batch)[i]);
    }
  }

  lemma FinalBudget(web: Web, st: State, answered: nat, k: nat)
    requires InBudget(web, st) && answered <= |st.done|
    ensures answered <= |st.visited| <= MAX_URLS_PER_SCAN && answered * k <= MAX_URLS_PER_SCAN * k
  {
    assert answered <= |st.visited| <= MAX_URLS_PER_SCAN;
    MulMono(answered, MAX_URLS_PER_SCAN, k);
  }

  lemma MulMono(a: nat, b: nat, k: nat)
    requires a <= b
    ensures a * k <= b * k
  {
  }

  lemma DoneIsVisited(web: Web, st: State, i: nat)
    requires InBudget(web, st) && i < |st.done|
    ensures web.normal(st.done[i].url) in st.visited
  {
    assert Log(st)[i] == st.done[i];
  }
}
