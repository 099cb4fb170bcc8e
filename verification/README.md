# Verification of the dark web scanner's hard cores

This project models, in Dafny, the parts of the scanner whose correctness is not visible
from one function body, and proves what they promise for all inputs, runs and interleavings.

- **Checks of user patterns** (`Regex*.dfy`). A pattern tree gets a meaning: the list of the ends of all
  ways to match, and the number of steps that trying all of them takes. The analyses are proved sound
  against it, and the check is proved to do what it is for on conditions that can be read off a pattern and a text: an
  accepted pattern costs work that is polynomial in its size and quadratic in the text, at each place, when no repeat
  that may do more rounds than it needs can do one that takes nothing, its classes are covered by the sets made for
  them under the flags in force, its look-arounds hold no choice, and its characters fold on the text as `_fold` has
  it. Without any one of these it fails: `RegexIdle.dfy` and `RegexExplosion.dfy` have accepted patterns of
  exponential work, and what the check does keep out. What it lets through is exact as well: `AcceptedIff` says which
  trees are accepted, from the characters their parts can take and nothing else. The order of the files is `RegexTree`
  (the analyses and the check), `RegexExact` (what the check decides, said without its lists), `RegexWays` (the
  meaning), `RegexSound` (one way that goes on), `RegexSpan` (one way for each piece of text), `RegexWork`, `RegexDead`,
  `RegexLinear`, `RegexCost` and `RegexSize` (the bounds), `RegexFiner` (smaller sets), `RegexLoops` (the analyses as the
  loops they are written as), `RegexClasses` (character classes and flags), `RegexBuild` and `RegexBuildExact` (the trees
  of parsed patterns), `RegexExplosion` and `RegexIdle`.
- **Single-flight cache** (`UpstreamCache.dfy`, `UpstreamRuns.dfy`, `UpstreamOrder.dfy`). The class does the locked
  pieces of a call; the runs interleave the pieces of any number of calls.
- **Limits** (`JobLimiter.dfy`, `RateWindow.dfy`, `FanOut.dfy`, `FanOutResults.dfy`). Slots, the sliding window, the
  shared pool.
- **Crawl frontiers** (`UrlNormal.dfy`, `Crawler.dfy`, `CrawlerReach.dfy`, `CrawlLimits.dfy`, `BatchedCrawl.dfy`,
  `PageMatches.dfy`, `QuickScan.dfy`, `QuickScanReach.dfy`). Batched breadth-first searches against a search page by
  page.
- **Stored protocols** (`CrawlSessions.dfy`, `CrawlRuns.dfy`, `Throttle.dfy`, `Totp.dfy`). Rows as maps,
  transactions as steps.
- **Channel Monitor** (`Utf16.dfy`, `Segments.dfy`, `MonitorJobs.dfy`). Message segments, and jobs under crashes.

State that the program changes in place is in classes. Their methods are proved to do what a function on
values says, and the properties are proved of that function, over every run.

## What the model takes as given

- Of Python's character tables: decimal digits are word characters, and no white space is one (`Tables.Valid`).
  The other cases of a character are two given maps, that of `_fold` and that of the matcher; under the ASCII flag the
  matcher's categories are smaller and only ASCII letters have another case. The parse tree of `re` is the input of
  `Build`, with the flags of every group.
- Zero-width items always succeed, and atomic groups and possessive repeats give nothing up; both only add ways. Past
  its lower bound a repeat does one round that takes nothing and no second one at that place, as the matcher does.
- The clock that a rate window reads and its decision are one step, and decision times do not fall. Times of the
  lockout and of crawl sessions are whole seconds; those of crawl sessions do not fall.
- The cache has room for one entry at least. A wait may end at any time, because it has a time limit.
- A page answers in the same way whenever it is fetched. Batch sizes are at least 1. How URLs are taken apart,
  what makes a link safe, the code of a time step and lower-casing are functions that are given. So is normalising,
  except in `UrlNormal.dfy`: there of every http address with a host that `urlparse` does not refuse.
- A step of the search for a pattern is a visit of a node of its tree. All ways are tried, those of look-arounds as well.
- An outcome of reading or writing files and of the calls of users is a parameter or an event of the run.

## Where the code does not keep its promise

- **The check of patterns lets exponential ones through**, in these families and in no others (`AcceptedPatternIsBounded`):
  - A repeat whose body can match nothing: the matcher tries one empty round and then goes on twice. `(?:(?:x?)?c)*y` is
    accepted and takes at least 2^n steps on n times `c` (`IdleRoundExplodes`), and `(?:)*` written k times takes 2^k
    on any text (`EmptyRoundsExplode`). `GoesOnOnceIff` says that this is exactly where repeats go on twice.
  - Classes for which `_class_chars` makes too small a set; `ClassCharsCovers` says which. `[\s\S]` is taken for `[\S]`,
    so `(?:[\s\S]*\s)*x` is accepted and takes at least 2^n steps on n spaces (`AnySpacePatternExplodes`). No flag
    but `s` is followed into a group, so `(?:(?a:\W)*\w)*x` does the same on `é` (`AsciiPatternExplodes`).
  - The bodies of look-arounds, which are not checked: `(?=(?:(a)|(a)){m}x)` takes at least 2^m steps
    (`LookAroundExplodes`).
  - Characters that the matcher takes for cases of each other and `_fold` does not: `(?:i*İ)*x` is accepted and takes
    at least 2^n steps (`FoldingExplodes`).
- A link is stored as it is but looked up as normalised once more. Where that differs the crawler fetches a
  page twice: `http://x.onion/a?/` and `http://x.onion/a;/` are such links (`ShippedCrawlerFetchesTwice`), and links
  with a query of slashes, or with empty parameters before the slashes at the end of the path, are the only ones
  (`NormalTwice`). A seed that is given twice is fetched twice as well (`FetchedOnce`).
- The end of a crawl that is read before and written after a pass over stale sessions overwrites the interruption and
  keeps its reason (`LateEndOverwrites`); `InterruptedIff` says when it cannot.
- Two beginnings of a crawl on a database without the advisory lock may both go on (`UnlockedCrawlsMeet`).
- A job that has ended is shown as archived while its job.json cannot be read (`UnreadableLookChanges`), and after a
  deletion that failed part of the way (`FailedDeletionChanges`). `ShownStatusSettles` says when it is not.
- A match position is counted in the lower-cased page and used in the page itself, so the window may miss the match
  (`ContextMayBeEmpty`); `EveryMatchHasPlace` says when it does not.
- A code of six digits outside ASCII raises an error where "no match" is documented (`MatchStep`, `OtherDigitsAreRefused`).

## Model

| member | source | states |
|---|---|---|
| RegexTree.DisjointPairSound | src/darkweb_scanner/regex_safety.py:139-158 | When `_disjoint_pair` says yes, no character is in both sets (negated sets and categories included). |
| RegexTree.DisjointSound | src/darkweb_scanner/regex_safety.py:161-162 | The same for two lists of sets: no character starts both. |
| RegexExact.DisjointPairExact | src/darkweb_scanner/regex_safety.py:139-158 | Two sets are told apart if and only if both were worked out and no alphabet that agrees on the characters they list has one in both; so `\w` and `\s` are, and no two negated sets. |
| RegexExact.FirstIs | src/darkweb_scanner/regex_safety.py:246-261 | A set is in `_first` if and only if a path to it is empty before it: nothing is listed that the node cannot start with. |
| RegexExact.PrefixIs | src/darkweb_scanner/regex_safety.py:267-284 | `_prefix` adds exactly the plain pieces that the node starts with, each of them that begins before the limit. |
| RegexExact.TriesIs | src/darkweb_scanner/regex_safety.py:311-319 | `_is_choice` holds if and only if some repeat in the node is variable, or some alternation has two branches that meet in their first characters and nowhere differ in their plain starts, or a branch that can match nothing. |
| RegexExact.FollowOfIs | src/darkweb_scanner/regex_safety.py:344-361 | What `_check` keeps of the rest of the pattern is what can come next there, whether a choice comes later, and whether the pattern ends there. |
| RegexExact.AcceptedIff | src/darkweb_scanner/regex_safety.py:375-400 | The check accepts a tree if and only if, in every place of it, each variable repeat and each alternation that is not told apart is separated from what can come next, whenever a choice comes later. |
| RegexExact.FaultReason | src/darkweb_scanner/regex_safety.py:380-400 | Why a node is refused by itself: a repeat, or an alternation with one empty branch, overlaps with what can come next; or more than one branch can match there. |
| RegexBuildExact.BuiltIff | src/darkweb_scanner/regex_safety.py:181-230 | A tree is built if and only if the pattern has no back-reference, no unknown construct and nothing that varies in a look-around. |
| RegexBuildExact.SetIsExact | src/darkweb_scanner/regex_safety.py:184-192 | The set of a literal, of its negation, of a dot and of a class that was worked out without a category beside its complement holds what the item takes, in either case, and nothing else. |
| RegexBuildExact.PatternAcceptedIff | src/darkweb_scanner/regex_safety.py:406-425 | A parsed pattern is accepted if and only if a tree is built for it and that tree is separated. |
| RegexExplosion.WordsAreAccepted | src/darkweb_scanner/regex_safety.py:139-158 | `(?:\w*\s)*x` is accepted, under all flags. |
| RegexSound.NullableIff | src/darkweb_scanner/regex_safety.py:233-243 | `_nullable` holds if and only if the node has a way to match that takes no character, at every place of every text. |
| RegexSound.FirstSound | src/darkweb_scanner/regex_safety.py:246-261 | The first character of every match that takes one is in a set of `_first`. |
| RegexSound.PrefixSound | src/darkweb_scanner/regex_safety.py:267-284 | Every match goes through the sets that `_prefix` collects, one by one, and is just that long when the answer is true. |
| RegexSound.ExcludesSound | src/darkweb_scanner/regex_safety.py:302-307 | Two branches set apart by `_deterministic` never both match at one place of any text. |
| RegexSound.DeterministicAlt | src/darkweb_scanner/regex_safety.py:287-308 | A deterministic alternation matches, at each place, as one of its branches alone does. |
| RegexSound.OneWay | src/darkweb_scanner/regex_safety.py:311-319 | A node that `_is_choice` denies has at most one way to match at every place of every text. |
| RegexSound.ViableUnique | src/darkweb_scanner/regex_safety.py:375-400 | Viable uniqueness: an accepted node with a choice after it, and in which no repeat that may do more rounds than it needs has a nullable body, has at most one way that ends at the end of the text or where the rest can go on. |
| RegexIdle.GoesOnOnceIff | src/darkweb_scanner/regex_safety.py:380-388 | That condition is exact: an accepted repeat before a later choice goes on in at most one way, from every place of every text, if and only if its body is not nullable. |
| RegexSound.SeqUnique | src/darkweb_scanner/regex_safety.py:376-378 | Viable uniqueness for a sequence, whose items are checked under what follows each of them. |
| RegexSound.RepUnique | src/darkweb_scanner/regex_safety.py:380-388 | Viable uniqueness for a repeat of more than one round, whose body is checked under another round or what follows. |
| RegexSound.AltUnique | src/darkweb_scanner/regex_safety.py:389-400 | Viable uniqueness for an alternation: a deterministic one, or an optional branch apart from what follows. |
| RegexSpan.SpanUnique | src/darkweb_scanner/regex_safety.py:375-400 | Such a node matches each piece of text in at most one way. |
| RegexSpan.FewWays | src/darkweb_scanner/regex_safety.py:375-400 | So it has no more ways than there are places to end at. |
| RegexWork.WaysWithinWork | src/darkweb_scanner/regex_safety.py:3-7 | Partner of the cost: there are never more ways than steps of the exhaustive search. |
| RegexWork.NoChoiceCost | src/darkweb_scanner/regex_safety.py:311-319 | A node without choice has at most one way and costs no more than a constant that adds up over its parts. |
| RegexDead.DeadOnce | src/darkweb_scanner/regex_safety.py:344-361 | Where the next character is in none of its first sets, an accepted node that is followed by a choice has at most one way and costs a constant that adds up over its parts. |
| RegexDead.DeadSeqWork | src/darkweb_scanner/regex_safety.py:375-400 | A whole accepted sequence costs such a constant there, whatever comes after it. |
| RegexDead.ExcludedFails | src/darkweb_scanner/regex_safety.py:287-308 | Of two branches that exclude each other, one fails after constant work where the other matches. |
| RegexLinear.LinearWays | src/darkweb_scanner/regex_safety.py:344-361 | With no choice after it, but not at the end of the pattern, an accepted node has linearly many ways. |
| RegexLinear.TailWork | src/darkweb_scanner/regex_safety.py:331-341 | The simple repeat or alternation at the very end, which does not count as a later choice, costs linear work in each try. |
| RegexCost.WorkBound | src/darkweb_scanner/regex_safety.py:375-400 | The work of such an accepted node in any context is at most its factor times the text length times the distance to where the rest goes on. |
| RegexCost.AcceptedIsQuadratic | src/darkweb_scanner/regex_safety.py:15-26 | For the sets of an accepted tree whose repeats move on: matching at one place takes at most a factor of the tree times the square of the text length, and has no more ways than that. |
| RegexSize.FactorFits | src/darkweb_scanner/regex_safety.py:15-26 | When no look-around holds a choice, the factor is at most twice the fourth power of the number of nodes of the tree with its repeats unrolled. |
| RegexSize.AcceptedIsPolynomial | src/darkweb_scanner/regex_safety.py:15-26 | No blow-up: such an accepted tree whose repeats move on takes work polynomial in its size and quadratic in the text length, at each place. |
| RegexCost.AcceptedSearch | src/darkweb_scanner/regex_safety.py:462-467 | A search over all start places is at most the text length times that. |
| RegexFiner.FinerWays | src/darkweb_scanner/regex_safety.py:97-106 | A tree whose sets have fewer characters of the text has a sub-list of the ways of the tree with the larger ones. |
| RegexFiner.FinerWork | src/darkweb_scanner/regex_safety.py:97-106 | And no more work: a bound for sets that hold too much is one for what the classes match. |
| RegexExplosion.NestedRepeatExplodes | src/darkweb_scanner/regex_safety.py:4-5 | The partner: `(a+)+` over any set has 2^n - 1 ways on n such characters, and the check refuses it as overlapping. |
| RegexIdle.IdleRoundExplodes | src/darkweb_scanner/regex_safety.py:380-388 | Where the main property fails, first: `(?:(?:x?)?c)*y` is accepted, all other conditions hold of it, and its work is at least 2^n on n times `c`, since `re` does one round that takes nothing and goes on twice. |
| RegexIdle.EmptyRoundsExplode | src/darkweb_scanner/regex_safety.py:380-388 | The same in the pattern: `(?:)*` written k times before a character is accepted, and its work is at least 2^k on any text. |
| RegexExplosion.LostCharacterExplodes | src/darkweb_scanner/regex_safety.py:131-136 | Second: whenever a class, in a group with any flags, matches a character that is not in the set made for it, there is an accepted pattern with that class whose work is at least 2^n on n such characters. |
| RegexExplosion.UncoveredClassExplodes | src/darkweb_scanner/regex_safety.py:131-136 | So it is for every class outside the condition of `ClassCharsCovers`, for some alphabet. |
| RegexExplosion.AnySpacePatternExplodes | src/darkweb_scanner/regex_safety.py:125-136 | A concrete input: `(?:[\s\S]*\s)*x` is accepted, and its work is at least 2^n on n white-space characters. |
| RegexExplosion.AsciiPatternExplodes | src/darkweb_scanner/regex_safety.py:195-197 | Another one: `(?:(?a:\W)*\w)*x` is accepted, as the flag is not followed into the group, and its work is at least 2^n on n word characters outside ASCII. |
| RegexExplosion.FoldingExplodes | src/darkweb_scanner/regex_safety.py:97-106 | And where `re` takes a character for another case of two that share none for `_fold`, `(?:a*b)*x` is accepted, with work of at least 2^n on n such characters. |
| RegexExplosion.LookAroundExplodes | src/darkweb_scanner/regex_safety.py:206-215 | Third: `(?=(?:(a)\|(a)){m}x)` and `(?<=(?:(a)\|(a)){m}x)` are accepted, and their work is at least 2^m on any longer text of that character. |
| RegexLoops.CollectPrefix | src/darkweb_scanner/regex_safety.py:267-284 | The recursion that fills its list in place leaves in it, and answers, what the function says that `PrefixSound` is about. |
| RegexLoops.DeterministicLoop | src/darkweb_scanner/regex_safety.py:287-308 | The nested loops over branches decide the predicate that `DeterministicAlt` is about. |
| RegexLoops.SomePairApart | src/darkweb_scanner/regex_safety.py:306 | The inner search over the zipped prefixes. |
| RegexLoops.FollowOfLoop | src/darkweb_scanner/regex_safety.py:344-361 | The two loops over the rest compute what comes next, as `ViableUnique` uses it. |
| RegexClasses.ClassCharsLoop | src/darkweb_scanner/regex_safety.py:109-136 | The loop over a class computes the set that the next five rows are about. |
| RegexClasses.UnknownIff | src/darkweb_scanner/regex_safety.py:109-136 | The set is given up on if and only if the class has a wide range, an unknown category, or a complement beside characters or another category. |
| RegexClasses.ClassCharsExact | src/darkweb_scanner/regex_safety.py:109-136 | A class that was worked out contains exactly the characters it matches, unless it has a category and its complement. |
| RegexClasses.ClassCharsCovers | src/darkweb_scanner/regex_safety.py:109-136 | No character that the class matches under the flags in force is left out, for every alphabet, if and only if `Covered`: unless a category and its complement alone stand in a class that is not negated, the ASCII flag meets a complement that is not negated or a category in a negated class, or a negated class lists a character whose other case does not count under the flags. |
| RegexClasses.PlainFlagsCovered | src/darkweb_scanner/regex_safety.py:131-136 | With case ignored and without the ASCII flag only the first of these is left: a category and its complement alone, not negated. |
| RegexClasses.AnySpaceCollapses | src/darkweb_scanner/regex_safety.py:125-136 | The failing case: the set made for `[\s\S]` has no white space. |
| RegexClasses.MeaningIs | src/darkweb_scanner/regex_safety.py:109-136 | The set that a class is given when the work is counted holds exactly what the class matches. |
| RegexBuild.BuildWellFormed | src/darkweb_scanner/regex_safety.py:181-220 | Every tree that `_build` makes has the shape the analyses rely on: sequences as bodies and branches, no variable repeat in a look-around. |
| RegexBuild.BuildFiner | src/darkweb_scanner/regex_safety.py:181-220 | When each class is covered under the flags in force for it, and the characters of the pattern fold on the text as they do for `_fold`, the tree that `re` matches is finer on the text than the tree that is checked. |
| RegexBuild.AcceptedPatternIsCubic | src/darkweb_scanner/regex_safety.py:449-467 | Then an accepted pattern whose repeats move on is looked for, as `re` reads it, in cubic work in the length of the text. |
| RegexBuild.AcceptedPatternIsBounded | src/darkweb_scanner/regex_safety.py:449-467 | If also no look-around holds a choice, the search in a clipped text takes at most 1001^3 steps times twice the fourth power of the unrolled size. |
| RegexBuild.ClipIsMiddle | src/darkweb_scanner/regex_safety.py:449-459 | What is left of a text is its middle, with at most one character more cut off after it than before it; a short text is left whole. |
| UpstreamCache.TTLCache.Begin | src/darkweb_scanner/dashboard/upstream_cache.py:85-105 | The locked part of `get` that decides: hit, stale, default, fetch or wait, on the state it leaves. |
| UpstreamCache.TTLCache.Shrink | src/darkweb_scanner/dashboard/upstream_cache.py:90-94 | The eviction loop leaves what the eviction function says. |
| UpstreamCache.TTLCache.Waited | src/darkweb_scanner/dashboard/upstream_cache.py:109-114 | What a call that waited answers. |
| UpstreamCache.TTLCache.FinishValue | src/darkweb_scanner/dashboard/upstream_cache.py:137-145 | Publishing a value: the value, its time, no failure, no flight. |
| UpstreamCache.TTLCache.FinishFailure | src/darkweb_scanner/dashboard/upstream_cache.py:118-131 | Publishing a failure: its time, no flight, and the stale answer or the default. |
| UpstreamCache.TTLCache.FinishAbort | src/darkweb_scanner/dashboard/upstream_cache.py:132-136 | An exception that is not an `Exception` clears the flight and nothing else. |
| UpstreamCache.TTLCache.Peek | src/darkweb_scanner/dashboard/upstream_cache.py:147-154 | `peek` answers in date or not at all, and counts a hit. |
| UpstreamCache.EvictSuffix | src/darkweb_scanner/dashboard/upstream_cache.py:90-94 | Eviction takes keys from the old end only, and never all. |
| UpstreamCache.EvictKeeps | src/darkweb_scanner/dashboard/upstream_cache.py:92-94 | No entry in flight is evicted, and those that stay are the same. |
| UpstreamCache.EvictStops | src/darkweb_scanner/dashboard/upstream_cache.py:90-93 | Eviction stops when the size fits or the least recently used entry is in flight. |
| UpstreamCache.EvictNoMore | src/darkweb_scanner/dashboard/upstream_cache.py:90-94 | Eviction drops no more entries than the size asks for. |
| UpstreamRuns.StepKeepsInvariant | src/darkweb_scanner/dashboard/upstream_cache.py:85-145 | Every step of every call keeps: flights are held by one fetching call for the entry in the table, every flight is tracked, values come from what was published, failures are remembered. |
| UpstreamRuns.SingleFlight | src/darkweb_scanner/dashboard/upstream_cache.py:101-105 | In every interleaving at most one call fetches a key at a time, and its entry is in the table. |
| UpstreamRuns.FlightIsSignalled | src/darkweb_scanner/dashboard/upstream_cache.py:116-144 | A flight that is not signalled is held by one call, whose next step clears it or signals it, on success, failure and abort alike. |
| UpstreamRuns.CallAnswer | src/darkweb_scanner/dashboard/upstream_cache.py:79-114 | In every run, from what was published, what failed, who fetches and the clock: a call for a key in the table whose last value is younger than `ttl` gets it and starts no fetch; otherwise, while the last failure is recent or another call fetches and there is a value, it gets that value if it is younger than `ttl + stale_for` and the default if it is not; otherwise it waits for the call that fetches, or fetches. |
| UpstreamRuns.WaitAnswer | src/darkweb_scanner/dashboard/upstream_cache.py:109-114 | A call that waited gets the last published value of its entry when it is younger than `ttl + stale_for`, as a hit when it is younger than `ttl`, and the default only when there is none so young. |
| UpstreamRuns.FailureAnswer | src/darkweb_scanner/dashboard/upstream_cache.py:118-131 | A call whose fetch failed gets the last published value of its entry when it is younger than `ttl + stale_for`, and the default only when there is none so young. |
| UpstreamRuns.OwnAnswer | src/darkweb_scanner/dashboard/upstream_cache.py:137-145 | A fetch that succeeds publishes its value and answers its own call with it. |
| UpstreamRuns.LastIsOfKey | src/darkweb_scanner/dashboard/upstream_cache.py:79-114 | The last value published for an entry was published for its key. |
| UpstreamRuns.CountersCount | src/darkweb_scanner/dashboard/upstream_cache.py:85-131 | The counters count hits of calls, fetches that succeeded, fetches that failed and stale answers. |
| UpstreamRuns.BackOff | src/darkweb_scanner/dashboard/upstream_cache.py:99-105 | No fetch starts within `error_ttl` of a failure of the entry. |
| UpstreamRuns.SizeAfterInsert | src/darkweb_scanner/dashboard/upstream_cache.py:88-95 | After an insertion the size fits, or the least recently used entry is in flight; the new key is last. |
| UpstreamOrder.OrderOfUse | src/darkweb_scanner/dashboard/upstream_cache.py:88-95 | In every run the table is in the order in which its keys were asked for last, so what is evicted first is what nobody has asked for the longest. |
| JobLimits.JobLimiter.Acquire | src/darkweb_scanner/dashboard/jobs.py:104-116 | A slot and both counts up, or refused with the reason and nothing changed. |
| JobLimits.JobLimiter.Return | src/darkweb_scanner/dashboard/jobs.py:118-125 | Both counts down, the user's entry dropped at zero. |
| JobLimits.Slot.Release | src/darkweb_scanner/dashboard/jobs.py:68-73 | Gives the slot back the first time and never again. |
| JobLimits.SlotsAreConserved | src/darkweb_scanner/dashboard/jobs.py:104-125 | In every interleaving of acquiring and of repeated, concurrent releasing: the total is the sum over the users and the number of slots not given back, and both limits hold. |
| JobLimits.RefusedIff | src/darkweb_scanner/dashboard/jobs.py:104-116 | In every run a slot is refused if and only if the slots of the user, or of all, that are not given back are at the limit; the reason says which. |
| JobLimits.ClampIsIdle | src/darkweb_scanner/dashboard/jobs.py:120-125 | The clamp at zero never takes effect. |
| JobLimits.ReturnedStays | src/darkweb_scanner/dashboard/jobs.py:68-73 | A slot that was given back stays so; further releases change nothing. |
| JobLimits.AllReturned | src/darkweb_scanner/dashboard/jobs.py:118-125 | When all slots are given back, no count is left. |
| RateWindows.RateWindow.TryTake | src/darkweb_scanner/dashboard/jobs.py:294-302 | Expires old calls, then counts this one if there is room. |
| RateWindows.RateWindow.SecondsUntilFree | src/darkweb_scanner/dashboard/jobs.py:304-310 | The time until the oldest counted call is too old. |
| RateWindows.RateHolds | src/darkweb_scanner/dashboard/jobs.py:281-302 | Any `max_calls + 1` consecutive grants of a run span at least `per` seconds. |
| RateWindows.GrantedIff | src/darkweb_scanner/dashboard/jobs.py:294-302 | A call is granted if and only if fewer than `max_calls` of all earlier grants are younger than `per`. |
| RateWindows.WaitIsExact | src/darkweb_scanner/dashboard/jobs.py:304-310 | With no grant in between, there is room at a later time if and only if the announced seconds are over. |
| FanOuts.RunInline | src/darkweb_scanner/dashboard/jobs.py:231-235 | The inline branch gives the map, with the default for items the time does not reach, and lets through exceptions that are not an `Exception`. |
| FanOuts.ReturnsTheMap | src/darkweb_scanner/dashboard/jobs.py:237-259 | In every schedule a call returns one entry per item, in order, each the function's or the default; without a time limit it is the map. The next two rows say which entry it is with one. |
| FanOutResults.ReturnsWhatFinished | src/darkweb_scanner/dashboard/jobs.py:237-259 | In every schedule, with a time limit or without: the entry of an item is the function's if an event that ended the item came before the return, and the default if none did. |
| FanOutResults.InTimeReturnsTheMap | src/darkweb_scanner/dashboard/jobs.py:237-259 | A call that no time limit has cut short, one with a time limit included, returns the map. |
| FanOutResults.UsesPoolIff | src/darkweb_scanner/dashboard/jobs.py:231-240 | A call goes to the pool if and only if it has more than one item and no pool thread makes it. |
| FanOutResults.CallStays | src/darkweb_scanner/dashboard/jobs.py:237-259 | Its items, its default, its limit and whether it is timed stay those it was made with. |
| FanOutResults.GateIsOpen | src/darkweb_scanner/dashboard/jobs.py:238-254 | An item can be handed to the pool if and only if fewer than `parallel` of its call are there. |
| FanOuts.GateHolds | src/darkweb_scanner/dashboard/jobs.py:238-254 | At most `parallel` items of one call wait in the pool or run there. |
| FanOuts.ReturnedStays | src/darkweb_scanner/dashboard/jobs.py:258-259 | Items that end after the return do not change the list that was returned. |
| FanOuts.PoolThreadRunsInline | src/darkweb_scanner/dashboard/jobs.py:213-235 | A pool thread that runs an item never makes a call that waits for the pool. |
| FanOuts.NoDeadlock | src/darkweb_scanner/dashboard/jobs.py:213-255 | With any number of calls on the pool, as long as one is not over some event can happen without a time limit. |
| FanOuts.RankFalls | src/darkweb_scanner/dashboard/jobs.py:250-259 | Every event but a new call brings the calls nearer to their end. |
| FanOuts.SchedulesAreShort | src/darkweb_scanner/dashboard/jobs.py:250-259 | Every schedule without new calls is no longer than the rank of its start. |
| FanOuts.EveryCallEnds | src/darkweb_scanner/dashboard/jobs.py:250-259 | From every reachable state some schedule without time limits ends every call. |
| BatchedCrawls.Crawler.Crawl | src/darkweb_scanner/crawler.py:240-291 | Stopped at any time, the crawl ends before the first round for which it is told to, passes over the items the stop came before, and yields the others that answered: pages at depths of real walks, which stay on their domain with `stay_on_domain`, in order of depth, none twice under the conditions of `FetchedOnce`. Never stopped, it yields what a search page by page yields, for every batch size. |
| BatchedCrawls.Crawler.LookAtBatch | src/darkweb_scanner/crawler.py:265-289 | A batch leaves the search where its items one by one leave it. |
| BatchedCrawls.Crawler.AddLinks | src/darkweb_scanner/crawler.py:284-289 | The loop over the links of a page. |
| BatchedCrawls.Crawler.AddSeeds | src/darkweb_scanner/crawler.py:245-252 | The loop over the seeds. |
| BatchedCrawls.Crawler.Reset | src/darkweb_scanner/crawler.py:293-296 | Forgets what was visited and the counts of the domains. |
| Crawlers.SearchTakesFirst | src/darkweb_scanner/crawler.py:260-289 | Looking at the first item of a batch is what the search does next, whatever stands in the queue behind it. |
| Crawlers.ProcessLoad | src/darkweb_scanner/crawler.py:284-289 | Every item looked at lowers the number of fetches that can follow, so every crawl ends. |
| CrawlerReach.NextKeepsSound | src/darkweb_scanner/crawler.py:260-289 | One step keeps the queue sorted by depth with a spread of at most one, and every depth that of a walk from a seed. |
| CrawlerReach.NoneTurnedAway | src/darkweb_scanner/crawler.py:165-178 | When the limits leave room, a link is turned away only because it was visited. |
| CrawlerReach.CrawlIsSound | src/darkweb_scanner/crawler.py:240-291 | For every web: what is fetched lies on a walk of the recorded length, within the depth limit, each page of it on the domain of the one before when `stay_on_domain` is set, and depths never fall. |
| CrawlLimits.FetchedByChain | src/darkweb_scanner/crawler.py:165-178 | The walk spelled out: what is fetched ends a chain of links from a seed, as long as its depth; with `stay_on_domain` every page of the chain is on the domain of the seed. |
| CrawlLimits.AllowedByChain | src/darkweb_scanner/crawler.py:268-289 | So it is for what a crawl yields that is stopped at any time. |
| CrawlLimits.ChainIsWalk | src/darkweb_scanner/crawler.py:165-178 | Every chain of links from a seed, on its domain if that is asked for, is a walk in the sense of `ShortestDistances`. |
| CrawlLimits.FetchesWhatIsWanted | src/darkweb_scanner/crawler.py:165-178 | Whatever the limits: every page after the seeds was queued for a link of an earlier one, on an allowed domain, new, while fewer than `max_pages_per_domain` pages of its domain had answered; no such link is passed over unless it is known once normalised; the counts are those of the pages that answered. |
| CrawlLimits.NoPageBeyondLimit | src/darkweb_scanner/crawler.py:174-177 | A page that is fetched after that many pages of its domain have answered was linked by a page looked at before. |
| CrawlLimits.SeedsAreFetched | src/darkweb_scanner/crawler.py:245-252 | Every seed that is an onion address is fetched at depth 0, as it is normalised, before any link. |
| CrawlerReach.LinksIff | src/darkweb_scanner/crawler.py:146-163 | The links of a page are those to onion addresses, as they are normalised, and no others. |
| CrawlerReach.FetchedOnce | src/darkweb_scanner/crawler.py:245-252 | When the onion links on every page stay as they are once normalised: every page is fetched once if and only if no seed is given twice. |
| CrawlerReach.ShortestDistances | src/darkweb_scanner/crawler.py:240-291 | With room enough and distinct seeds, exactly the pages within the depth limit are fetched, each once and at its shortest distance; with `stay_on_domain`, over walks within the domain. |
| CrawlerReach.YieldsNearPages | src/darkweb_scanner/crawler.py:268-282 | Under the same conditions a page is yielded with a depth if and only if it answers, the depth is its distance, and the distance is within the limit. |
| CrawlerReach.UnsettledIsFetchedTwice | src/darkweb_scanner/crawler.py:165-168 | The condition on normalising is needed: for any address it changes twice there is a web with a page fetched twice. |
| UrlNormal.NormalTwice | src/darkweb_scanner/crawler.py:141-144 | Normalising once more changes nothing if and only if the address has neither a query made of slashes alone nor, with no query, the mark of empty parameters before the slashes at the end of its path. |
| UrlNormal.FragmentIsDropped | src/darkweb_scanner/crawler.py:141-144 | What follows the host is normalised without its fragment. |
| UrlNormal.SlashQueryAddress | src/darkweb_scanner/crawler.py:141-144 | `http://x.onion/a?/` becomes `http://x.onion/a?`, and that becomes `http://x.onion/a`; so it is for every host and every plain path. |
| UrlNormal.EmptyParamsAddress | src/darkweb_scanner/crawler.py:141-144 | `http://x.onion/a;/` becomes `http://x.onion/a;`, and that becomes `http://x.onion/a`; so it is for every host and every plain path without `;`. |
| UrlNormal.SiteAddresses | src/darkweb_scanner/crawler.py:141-144 | The two addresses themselves change twice. |
| CrawlerReach.ShippedIsSettled | src/darkweb_scanner/crawler.py:141-163 | When the links of the pages are normalised as the program does it, the condition of `FetchedOnce` holds of a web if and only if none of its links is one that changes twice. |
| CrawlerReach.ShippedCrawlerFetchesTwice | src/darkweb_scanner/crawler.py:165-168 | A page that links to itself by such a link, normalised as the program does it, is fetched twice. |
| PageMatches.Find | src/darkweb_scanner/quick_scan.py:177-179 | The first occurrence, or none. |
| PageMatches.FindMatches | src/darkweb_scanner/quick_scan.py:160-188 | One match for each variant on the page, in order, with the window around its first occurrence. |
| PageMatches.EveryMatchHasPlace | src/darkweb_scanner/quick_scan.py:153-157 | Every match has its place on the page; the context, in lower case, holds the variant wherever the characters gained by lower-casing what precedes the place shift the window by at most 100 and the match ends within the other 100. |
| PageMatches.KeptTextHoldsMatch | src/darkweb_scanner/quick_scan.py:153-157 | So it does wherever lower-casing keeps lengths up to the end of the match, whatever comes after it. |
| PageMatches.ContextMayBeEmpty | src/darkweb_scanner/quick_scan.py:172-180 | Where it does not hold, a match may come with an empty context. |
| PageMatches.WindowIsAround | src/darkweb_scanner/quick_scan.py:153-157 | Around a place on the page the context has up to 100 characters on each side, fewer only at the ends of the page. |
| PageMatches.KeywordIsSignal | src/darkweb_scanner/quick_scan.py:145-150 | A keyword anywhere in the context, in any case, makes a finding one of high signal. |
| PageMatches.SignalHasKeyword | src/darkweb_scanner/quick_scan.py:145-150 | And a context of high signal has a keyword in it once it is lowered; it is never the empty one. |
| QuickScans.RunQuickScan | src/darkweb_scanner/quick_scan.py:369-416 | Stopped at any time, it ends before the first source, round or entry for which it is told to, and has stored exactly the true findings of the pages fetched until then, one for each variant that is on the page, under the name of its source: at most 100 URLs visited, no more tried; never stopped, it visits what the search visits, for every batch size. |
| QuickScans.ProcessOne | src/darkweb_scanner/quick_scan.py:328-367 | One URL: its findings, true and complete, and its links. |
| QuickScans.TurnsKeep | src/darkweb_scanner/quick_scan.py:403-416 | The turns of a batch keep every scan within its budget and lower the room by one each; never stopped, they leave the search where its entries one by one leave it. |
| QuickScans.NextFalls | src/darkweb_scanner/quick_scan.py:391-416 | Every entry lowers the budget that is left plus the queue by one, so the loop ends. |
| QuickScans.ScanIsComplete | src/darkweb_scanner/quick_scan.py:391-416 | A scan that is not stopped tries each normalised URL once, no deeper than the limit, and visits every link above it unless the budget is used up. |
| QuickScanReach.SourcesAreTried | src/darkweb_scanner/quick_scan.py:369-383 | A scan that is not stopped tries each URL of each source at depth 0, unless its budget is used up, as the first source gives it whose URL is the same once normalised; and nothing else is tried at depth 0. |
| QuickScanReach.EverySourceIsVisited | src/darkweb_scanner/quick_scan.py:371-383 | Every URL of every source is visited, as it is normalised, unless the budget is used up. |
| QuickScanReach.TriedByChain | src/darkweb_scanner/quick_scan.py:391-416 | Every URL that is tried ends a chain of links from a URL of the source it is reported under, as long as its depth, and depths never fall. |
| QuickScanReach.NearestFirst | src/darkweb_scanner/quick_scan.py:391-416 | When URLs that are the same once normalised have the same links: what a chain of at most two links from a source leads to is tried at no greater depth, unless the budget is used up. |
| CrawlSessions.SessionTable.Begin | src/darkweb_scanner/storage.py:454-495 | A crawl begins if and only if no crawl session is alive; stale ones are ended first. |
| CrawlSessions.SessionTable.InterruptStale | src/darkweb_scanner/storage.py:522-574 | One pass alone ends exactly the running sessions that are not alive and counts them. |
| CrawlSessions.SweptHasReason | src/darkweb_scanner/storage.py:529-562 | Each with its reason, which is that nobody owned it, that its owner has started again, or that the owner has been silent and since when; nothing else of it changes. |
| CrawlSessions.BeatsCount | src/darkweb_scanner/storage.py:497-520 | After any heartbeats of a running session each of its two counts is the one last given for it, and the heartbeat is the last one. |
| CrawlSessions.SessionTable.Heartbeat | src/darkweb_scanner/storage.py:497-520 | True if and only if the session runs, and only then refreshed. |
| CrawlSessions.SessionTable.Update | src/darkweb_scanner/storage.py:576-596 | Writes the end, except over an interruption of a session with an owner. |
| CrawlSessions.SessionTable.Create | src/darkweb_scanner/storage.py:439-452 | A new running row; a heartbeat only when there is an owner with a name. |
| CrawlRuns.StepKeeps | src/darkweb_scanner/storage.py:454-596 | Every step of every interleaving keeps the ownership invariant, and rows only move on. |
| CrawlRuns.OneCrawl | src/darkweb_scanner/storage.py:477-493 | With the lock that PostgreSQL gives: in every interleaving at most one session that was begun for an owner runs. |
| CrawlRuns.UnlockedCrawlsMeet | src/darkweb_scanner/storage.py:463-493 | Without that lock two beginnings may both find no crawl before either has written, and both run. |
| CrawlRuns.SettleIsExact | src/darkweb_scanner/storage.py:539-555 | Whatever came between reading and update, the update ends the session if and only if it is not alive then. |
| CrawlRuns.BeginsIffNoneAlive | src/darkweb_scanner/storage.py:474-485 | When its pass is done, a beginning goes on if and only if no crawl is alive, and then none runs. |
| CrawlRuns.EndedForGood | src/darkweb_scanner/storage.py:497-520 | A session that has ended never runs or takes a heartbeat again. |
| CrawlRuns.InterruptedForGood | src/darkweb_scanner/storage.py:576-596 | A session with an owner that was interrupted keeps that, with the reason and the time, in every run, once every writer of its end has read it so. |
| CrawlRuns.InterruptedIff | src/darkweb_scanner/storage.py:585-596 | The condition is exact: an interrupted session keeps its end in every run if and only if no writer of its end has read it while it was running. |
| CrawlRuns.LateEndOverwrites | src/darkweb_scanner/storage.py:585-596 | And it can fail: a crawl that reads its session before a pass ends it, and writes after, leaves it completed with the reason of an interruption. |
| CrawlRuns.SilentSession | src/darkweb_scanner/storage.py:539-555 | A state in which this can happen: a pass has read a session that is silent for too long. |
| CrawlRuns.BeatingIsKept | src/darkweb_scanner/storage.py:543-555 | A crawl that is alive at the start of every pass, and does not end itself, is never ended by any interleaving. |
| Throttles.ThrottleTable.CountFailure | src/darkweb_scanner/storage.py:925-943 | The row after a failure, and whether the key is locked; other keys unchanged. |
| Throttles.ThrottleTable.Clear | src/darkweb_scanner/storage.py:952-955 | Forgets the failures of one key and of no other. |
| Throttles.ThrottleTable.LockedFor | src/darkweb_scanner/auth.py:236-239 | The longest lock of the keys, 0 when none is locked. |
| Throttles.ThrottleTable.NotePasswordFailure | src/darkweb_scanner/auth.py:242-245 | Counts on the account and on the address, with their limits. |
| Throttles.ThrottleTable.NoteTotpFailure | src/darkweb_scanner/auth.py:248-252 | Counts on the address and on the codes of the user; tells whether the codes are locked. |
| Throttles.LockoutBound | src/darkweb_scanner/storage.py:918-943 | Although the window tumbles: at most `2 * limit - 1` failures count in any half-open period of one window, when each is counted while the key is not locked. |
| Throttles.LockoutInFlight | src/darkweb_scanner/auth.py:236-252 | With c attempts at a time between the look at the lock and the count, at most `2 * limit - 1 + (c - 1)` failures count in such a period. |
| Throttles.LockoutBoundIsMet | src/darkweb_scanner/storage.py:925-943 | For every limit and every window of at least 2 seconds there is a run that reaches the bound. |
| Throttles.WithinOnePeriod | src/darkweb_scanner/storage.py:933-941 | Within one period the window tumbles at most once. |
| Throttles.LockHasReason | src/darkweb_scanner/storage.py:925-943 | A failure locks a key only as the last of `limit` failures within one window, none of which locked it before. |
| Throttles.PauseStartsWindow | src/darkweb_scanner/storage.py:933-935 | A failure more than a window after the one before starts a new count, whatever was counted. |
| Throttles.CountsFromStart | src/darkweb_scanner/storage.py:933-941 | From a failure that starts a window on, the count is of the failures since. |
| Throttles.LimitLocks | src/darkweb_scanner/storage.py:936-943 | So exactly the failure number `limit` of a window locks the key, and for `lock_seconds`. |
| TotpCodes.MatchStep | src/darkweb_scanner/auth.py:314-325 | The latest of the three steps whose code it is; none otherwise; an error for digits outside ASCII. |
| TotpCodes.OtherDigitsAreRefused | src/darkweb_scanner/auth.py:316-324 | Six Arabic-Indic digits pass the test for digits and are not ASCII: the case of the error. |
| TotpCodes.TotpStore.UseCode | src/darkweb_scanner/auth.py:333-340 | A code is taken if and only if the user has a secret and the latest step next to now with that code is later than the recorded one; that step is recorded then, and nothing otherwise. |
| TotpCodes.SpaceIsRemoved | src/darkweb_scanner/auth.py:316 | A space in a code makes no difference, wherever it stands; without spaces a code is what it is. |
| TotpCodes.StripsEnds | src/darkweb_scanner/auth.py:316 | White space is taken off both ends of a code, all of it and nothing else. |
| TotpCodes.TotpStore.AcceptStep | src/darkweb_scanner/storage.py:887-900 | One conditional update after the row is made. |
| TotpCodes.TotpStore.EnableTotp | src/darkweb_scanner/storage.py:797-809 | Enrolment records its step. |
| TotpCodes.TotpStore.DisableTotp | src/darkweb_scanner/storage.py:811-822 | The recorded step of the user is forgotten, and that of no other. |
| TotpCodes.TotpStore.DeleteUser | src/darkweb_scanner/storage.py:839-846 | The user goes with the row of recorded steps. |
| TotpCodes.EnrolmentOf | src/darkweb_scanner/storage.py:797-846 | A user has a secret from the enrolment until it is taken away, and no other user is concerned. |
| TotpCodes.StepsIncrease | src/darkweb_scanner/storage.py:887-900 | Between enrolments the accepted steps of a user strictly increase in every run, and the last is what is recorded. |
| TotpCodes.SpentOnce | src/darkweb_scanner/storage.py:797-809 | Neither the step that confirmed the enrolment nor an accepted one is accepted again. |
| Utf16.RoundTrip | src/darkweb_scanner/channel_monitor.py:388-390 | Decoding undoes encoding if and only if the text has no half of a surrogate pair. |
| Utf16.PairOf | src/darkweb_scanner/channel_monitor.py:399-400 | A character beyond U+FFFF becomes the pair of units that RFC 2781 has for it. |
| Utf16.DecodeParts | src/darkweb_scanner/channel_monitor.py:388-390 | Decoding a text in two parts gives the whole, or one character more when the cut is inside a pair. |
| Utf16.PiecesJoin | src/darkweb_scanner/channel_monitor.py:420-428 | Decoded pieces make up the text if and only if it has no half pair and no cut makes one. |
| Segments.CollectSpans | src/darkweb_scanner/channel_monitor.py:402-418 | The loop that makes spans of entities. |
| Segments.BuildSegments | src/darkweb_scanner/channel_monitor.py:393-429 | The segments between the sorted cuts, which run from 0 to the end; none for an empty text. |
| Segments.SegmentsArePainted | src/darkweb_scanner/channel_monitor.py:420-428 | For every unit, its segment has exactly the styles of the entities that cover it and the first usable link among them. |
| Segments.CutIff | src/darkweb_scanner/channel_monitor.py:420-422 | The message is cut between two units if and only if an entity marks just one of them. |
| Segments.MarkedIsPiece | src/darkweb_scanner/channel_monitor.py:404-418 | The units an entity marks, those from its offset on as long as it is, within the message, are the piece that its link is made from. |
| Segments.StylesAreByName | src/darkweb_scanner/channel_monitor.py:424-426 | The styles of a segment are in the order of their names, none of them twice. |
| Segments.TextIsKept | src/darkweb_scanner/channel_monitor.py:420-428 | The texts of the segments are the message if and only if it has no half pair and no entity begins or ends inside one. |
| MonitorJobs.JobStore.Start | src/darkweb_scanner/dashboard/channel_monitor_routes.py:814-850 | Busy, not created, or begun and stored as running. |
| MonitorJobs.JobStore.Finish | src/darkweb_scanner/dashboard/channel_monitor_routes.py:864-882 | The final state if it could be stored, and a free slot in any case. |
| MonitorJobs.JobStore.Snapshot | src/darkweb_scanner/dashboard/channel_monitor_routes.py:304-331 | What is shown of a job, and the interruption that showing stores. |
| MonitorJobs.JobStore.Delete | src/darkweb_scanner/dashboard/channel_monitor_routes.py:692-715 | Refused for the running job, not found, deleted when the removal succeeds, which takes the folder away, or not deleted; no other job changes. |
| MonitorJobs.FolderIff | src/darkweb_scanner/dashboard/channel_monitor_routes.py:692-715 | In every run a job has a folder if and only if it had one at the start or a start has made one, and no removal that succeeded has taken it away since, while it did not run. |
| MonitorJobs.StepKeepsOneJob | src/darkweb_scanner/dashboard/channel_monitor_routes.py:814-911 | Every step, crashes included, keeps: a job in the slot is stored as running and one thread works for it. |
| MonitorJobs.OneWorker | src/darkweb_scanner/dashboard/channel_monitor_routes.py:814-911 | In every run with crashes at most one thread works, for the job in the slot, whose folder no deletion removed. |
| MonitorJobs.RunAgrees | src/darkweb_scanner/dashboard/channel_monitor_routes.py:197-213 | What was shown of a job, in every run, is what its looks and the disk say. |
| MonitorJobs.ShownStatusSettles | src/darkweb_scanner/dashboard/channel_monitor_routes.py:304-331 | In every run with crashes, lost writes and failed deletions, what is shown of a job goes from running to one status for good, if and only if no look found its stored state while another one found none. |
| MonitorJobs.UndisturbedSettles | src/darkweb_scanner/dashboard/channel_monitor_routes.py:304-331 | So it does when no look fails to read and no deletion leaves a folder without its state. |
| MonitorJobs.UnreadableLookChanges | src/darkweb_scanner/dashboard/channel_monitor_routes.py:197-213 | The exception does happen: a failed read shows a completed job as archived. |
| MonitorJobs.FailedDeletionChanges | src/darkweb_scanner/dashboard/channel_monitor_routes.py:705-709 | So does the other one: a deletion that fails part of the way leaves a folder without its state, and a completed job is shown as archived. |
| MonitorJobs.CrashInterrupts | src/darkweb_scanner/dashboard/channel_monitor_routes.py:281-301 | A job that ran when the server stopped reads as interrupted from then on, at one and the same time once a look has stored it. |
| MonitorJobs.FinishIsShown | src/darkweb_scanner/dashboard/channel_monitor_routes.py:864-882 | The final status is what is shown, or interrupted when it could not be stored. |

## Left out

- LockoutBound: is about the failures of one key between two clears, as the counter promises nothing across a clear;
  `LockoutInFlight` has the bound when attempts are in flight.
- AcceptedPatternIsBounded: gives a number of steps that depends on the pattern, not seconds.
- SingleFlight: is about a cache that is never cleared; `clear()`, which drops entries in flight,
  is called by `clear_all` alone, and that by no part of the program.
- OneCrawl: is about owners given by `begin_crawl_session`; `create_crawl_session` makes an owned session beside them
  when it is called with an owner, which the program never does.
- ShippedIsSettled: is about webs whose onion links stay onion links when normalised; the other lemmas take any web.
- AcceptedIsQuadratic: has a factor that is exponential when a look-around holds a choice; `FactorFits` is for the rest.
- Parsing of patterns, compiling them, and the memory of accepted ones (`lru_cache`).
- Copies of cached values (`copy_values`) and the log.
- `wait_take`, `call_all` and the paced queue: loops around what is modelled.
- Network, Tor, pages as HTML, and the request handlers around the cores.
- NoPageBeyondLimit: `max_pages_per_domain` is looked at when a link is queued, so more pages of a domain may be fetched;
  the lemma says which.
- Counters of a crawl that only the log shows (`_pages_crawled`), and the rotation of circuits.
- Database mechanics: a transaction that is rolled back is one that did not happen, an update with a condition is one
  step, and when SQLite lets two transactions interleave is not part of this model.
- The decision that the caller of a clean-up runs no crawl of its own (`idle_owner`) is one step with the start of the pass.
- Retention sweeps, download archives and the log lines of Channel Monitor jobs; who may see which job.
- Pending secrets, QR codes, password hashes and session versions of the sign-in.
- The ends of quick-scan sessions in the database; detection of target types and expansion of variants.
