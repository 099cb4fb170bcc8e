/**
 The single-flight cache of upstream_cache.py. `get` runs in up to three pieces:
 it decides under the lock, fetches or waits outside it, and publishes under it.
 Each piece is one step here, and the system lets any number of calls interleave.

 An entry object outlives its place in the table: a call that waits keeps it. So
 entries are kept in `heap`, by the order they were made in, and the table maps keys to them.
 */
module UpstreamCache {
  import opened Wrappers

  datatype Key = Key(name: string)
  datatype Value = Value(content: string)

  datatype Config = Config(ttl: real, staleFor: real, errorTtl: real, maxEntries: nat) {
    ghost predicate Valid() {
      maxEntries >= 1
    }
  }

  /** `key` is the key the entry was made for; `value` also stands for `has_value`. */
  datatype Entry = Entry(key: Key, value: Option<Value>, fetchedAt: real, failedAt: Option<real>, flight: Option<nat>)

  datatype Counters = Counters(hits: nat, fetches: nat, failures: nat, staleServed: nat)

  /** `order` is the order of the ordered dictionary, least recently used first. */
  datatype Cache = Cache(table: map<Key, nat>, order: seq<Key>, heap: seq<Entry>, flights: nat, counters: Counters)

  datatype Answer = Hit(value: Value) | Stale(value: Value) | Default | Own(value: Value) | Raised

  datatype Decision = Answered(answer: Answer) | Fetch(entry: nat, flight: nat) | Wait(entry: nat, flight: nat)

  ghost predicate Distinct(order: seq<Key>) {
    forall i, j | 0 <= i < j < |order| :: order[i] != order[j]
  }

  ghost predicate Consistent(c: Cache) {
    && Distinct(c.order)
    && (forall k :: k in c.table <==> k in c.order)
    && (forall k | k in c.table :: c.table[k] < |c.heap| && c.heap[c.table[k]].key == k)
  }

  // ---------------------------------------------------------------- the steps, as functions

  function NewEntry(key: Key): Entry {
    Entry(key, None, 0.0, None, None)
  }

  function Insert(c: Cache, key: Key): Cache {
    c.(table := c.table[key := |c.heap|], order := c.order + [key], heap := c.heap + [NewEntry(key)])
  }

  function DropOldest(c: Cache): (r: Cache)
    requires Consistent(c) && c.order != []
    ensures Consistent(r)
  {
    var r := c.(table := c.table - {c.order[0]}, order := c.order[1..]);
    assert c.order == [c.order[0]] + r.order;
    r
  }

  /** Drops least recently used entries until the size fits or the next one is in flight. */
  function Evict(config: Config, c: Cache): (r: Cache)
    requires Consistent(c)
    ensures Consistent(r) && r.heap == c.heap && r.flights == c.flights && r.counters == c.counters
    decreases |c.order|
  {
    if |c.order| <= config.maxEntries || c.heap[c.table[c.order[0]]].flight.Some? then c
    else Evict(config, DropOldest(c))
  }

  function Remove(order: seq<Key>, key: Key): (r: seq<Key>)
    ensures forall k :: k in r <==> k in order && k != key
    ensures Distinct(order) ==> Distinct(r)
  {
    if order == [] then []
    else
      var rest := Remove(order[1..], key);
      assert order == [order[0]] + order[1..];
      assert Distinct(order) ==> order[0] !in order[1..];
      if order[0] == key then rest else [order[0]] + rest
  }

  function MoveToEnd(c: Cache, key: Key): (r: Cache)
    requires Consistent(c) && key in c.table
    ensures Consistent(r) && r.order != [] && r.order[|r.order| - 1] == key
  {
    c.(order := Remove(c.order, key) + [key])
  }

  /** The entry of the key, made when there is none, and now the most recently used one. */
  function Touch(config: Config, c: Cache, key: Key): (r: Cache)
    requires Consistent(c) && config.Valid()
    ensures Consistent(r) && key in r.table
  {
    if key in c.table then MoveToEnd(c, key) else Added(config, c, key)
  }

  /** A new entry, made room for. */
  function Added(config: Config, c: Cache, key: Key): (r: Cache)
    requires Consistent(c) && config.Valid() && key !in c.table
    ensures Consistent(r) && key in r.table
  {
    InsertConsistent(c, key);
    EvictKeepsLast(config, Insert(c, key));
    Evict(config, Insert(c, key))
  }

  function Fresh(config: Config, e: Entry, now: real): bool {
    e.value.Some? && now - e.fetchedAt < config.ttl
  }

  /** `_stale` */
  function StaleAnswer(config: Config, e: Entry, now: real): Answer {
    if e.value.Some? && now - e.fetchedAt < config.ttl + config.staleFor then Stale(e.value.value) else Default
  }

  function CountStale(counters: Counters, answer: Answer): Counters {
    if answer.Stale? then counters.(staleServed := counters.staleServed + 1) else counters
  }

  /** The first piece of `get`, under the lock. */
  function Decide(config: Config, c: Cache, key: Key, now: real): (Cache, Decision)
    requires Consistent(c) && config.Valid()
  {
    DecideAt(config, Touch(config, c, key), key, now)
  }

  /** The decision, once the entry is in the table. */
  function DecideAt(config: Config, c: Cache, key: Key, now: real): (Cache, Decision)
    requires Consistent(c) && key in c.table
  {
    var id := c.table[key];
    var e := c.heap[id];
    if Fresh(config, e, now) then
      (c.(counters := c.counters.(hits := c.counters.hits + 1)), Answered(Hit(e.value.value)))
    else if (e.failedAt.Some? && now - e.failedAt.value < config.errorTtl) || (e.flight.Some? && e.value.Some?) then
      var answer := StaleAnswer(config, e, now);
      (c.(counters := CountStale(c.counters, answer)), Answered(answer))
    else if e.flight.None? then
      (c.(heap := c.heap[id := e.(flight := Some(c.flights))], flights := c.flights + 1), Fetch(id, c.flights))
    else
      (c, Wait(id, e.flight.value))
  }

  /** What a call that waited gets, under the lock again. */
  function AfterWait(config: Config, c: Cache, id: nat, now: real): (Cache, Answer)
    requires id < |c.heap|
  {
    var e := c.heap[id];
    if Fresh(config, e, now) then (c, Hit(e.value.value))
    else
      var answer := StaleAnswer(config, e, now);
      (c.(counters := CountStale(c.counters, answer)), answer)
  }

  function PublishValue(c: Cache, id: nat, value: Value, now: real): Cache
    requires id < |c.heap|
  {
    c.(heap := c.heap[id := c.heap[id].(value := Some(value), fetchedAt := now, failedAt := None, flight := None)],
       counters := c.counters.(fetches := c.counters.fetches + 1))
  }

  /** The fetch raised an Exception. */
  function PublishFailure(config: Config, c: Cache, id: nat, now: real): (Cache, Answer)
    requires id < |c.heap|
  {
    var answer := StaleAnswer(config, c.heap[id], now);
    var counters := c.counters.(failures := c.counters.failures + 1);
    (c.(heap := c.heap[id := c.heap[id].(failedAt := Some(now), flight := None)],
        counters := CountStale(counters, answer)),
     answer)
  }

  /** The fetch raised something else (BaseException). */
  function PublishAbort(c: Cache, id: nat): Cache
    requires id < |c.heap|
  {
    c.(heap := c.heap[id := c.heap[id].(flight := None)])
  }

  lemma InsertConsistent(c: Cache, key: Key)
    requires Consistent(c) && key !in c.table
    ensures Consistent(Insert(c, key))
  {
  }

  /** What `Added` does, and the new key is last. */
  lemma AddedEndsWith(config: Config, c: Cache, key: Key)
    requires Consistent(c) && config.Valid() && key !in c.table
    ensures Consistent(Insert(c, key))
    ensures var r := Added(config, c, key);
      r == Evict(config, Insert(c, key)) && r.order != [] && r.order[|r.order| - 1] == key
  {
    InsertConsistent(c, key);
    EvictKeepsLast(config, Insert(c, key));
  }

  /** The least recently used entry is dropped: there are too many, and it is not in flight. */
  ghost predicate Drops(config: Config, c: Cache)
    requires Consistent(c)
  {
    |c.order| > config.maxEntries && c.heap[c.table[c.order[0]]].flight.None?
  }

  /** Eviction takes keys from the old end only, and never all of them. */
  lemma {:induction false} EvictSuffix(config: Config, c: Cache) returns (n: nat)
    requires Consistent(c) && config.Valid()
    ensures n <= |c.order| && Evict(config, c).order == c.order[n..] && (c.order != [] ==> n < |c.order|)
    decreases |c.order|
  {
    n := 0;
    if Drops(config, c) {
      n := EvictSuffix(config, DropOldest(c));
      n := n + 1;
    }
  }

  lemma EvictKeepsLast(config: Config, c: Cache)
    requires Consistent(c) && config.Valid() && c.order != []
    ensures var r := Evict(config, c);
      r.order != [] && r.order[|r.order| - 1] == c.order[|c.order| - 1] && c.order[|c.order| - 1] in r.table
  {
    var n := EvictSuffix(config, c);
    var r, last := Evict(config, c), c.order[|c.order| - 1];
    SuffixLast(c.order, n);
    assert r.order[|r.order| - 1] == last;
    assert last in r.order;
  }

  lemma SuffixLast(order: seq<Key>, n: nat)
    requires n < |order|
    ensures order[n..] != [] && order[n..][|order[n..]| - 1] == order[|order| - 1]
  {
  }

  /** Entries that stay are the same, and no entry in flight is dropped. */
  ghost predicate Kept(c: Cache, r: Cache)
    requires Consistent(c)
  {
    && (forall k | k in r.table :: k in c.table && r.table[k] == c.table[k])
    && (forall k | k in c.table && c.heap[c.table[k]].flight.Some? :: k in r.table)
  }

  lemma {:induction false} EvictKeeps(config: Config, c: Cache)
    requires Consistent(c)
    ensures Kept(c, Evict(config, c))
    decreases |c.order|
  {
    if Drops(config, c) {
      EvictKeeps(config, DropOldest(c));
      KeptTwice(config, c, Evict(config, c));
    }
  }

  lemma KeptTwice(config: Config, c: Cache, r: Cache)
    requires Consistent(c) && Drops(config, c) && Kept(DropOldest(c), r)
    ensures Kept(c, r)
  {
  }

  /** Eviction stops when the size fits or the least recently used entry is in flight. */
  lemma {:induction false} EvictStops(config: Config, c: Cache)
    requires Consistent(c)
    ensures var r := Evict(config, c);
      |r.order| <= config.maxEntries || r.heap[r.table[r.order[0]]].flight.Some?
    decreases |c.order|
  {
    if Drops(config, c) {
      EvictStops(config, DropOldest(c));
    }
  }

  /** And it drops no more than it has to. */
  lemma {:induction false} EvictNoMore(config: Config, c: Cache)
    requires Consistent(c)
    ensures |Evict(config, c).order| >= if |c.order| <= config.maxEntries then |c.order| else config.maxEntries
    decreases |c.order|
  {
    if Drops(config, c) {
      EvictNoMore(config, DropOldest(c));
    }
  }

  /** What looking up and making an entry does to the cache. */
  ghost predicate Touched(c: Cache, r: Cache, key: Key) {
    && Consistent(c) && Consistent(r) && key in r.table && r.flights == c.flights
    && r.heap == (if key in c.table then c.heap else c.heap + [NewEntry(key)])
    && r.table[key] == (if key in c.table then c.table[key] else |c.heap|)
    && (forall k | k in r.table && k != key :: k in c.table && r.table[k] == c.table[k])
    && (forall k | k in c.table && c.heap[c.table[k]].flight.Some? :: k in r.table && r.table[k] == c.table[k])
  }

  lemma TouchFacts(config: Config, c: Cache, key: Key)
    requires Consistent(c) && config.Valid()
    ensures Touched(c, Touch(config, c, key), key)
  {
    if key !in c.table {
      InsertConsistent(c, key);
      EvictKeeps(config, Insert(c, key));
    }
  }

  // ---------------------------------------------------------------- the class

  /** The cache itself. `get` is its pieces: `Begin`, one of the `Finish` methods, `Waited`. */
  class TTLCache {
    const config: Config
    var table: map<Key, nat>
    var order: seq<Key>
    var heap: seq<Entry>
    var flights: nat
    var counters: Counters

    ghost function Contents(): Cache
      reads this
    {
      Cache(table, order, heap, flights, counters)
    }

    constructor (config: Config)
      ensures this.config == config && Contents() == Cache(map[], [], [], 0, Counters(0, 0, 0, 0))
    {
      this.config := config;
      table, order, heap, flights, counters := map[], [], [], 0, Counters(0, 0, 0, 0);
    }

    method StaleOut(id: nat, now: real) returns (answer: Answer)
      requires id < |heap|
      modifies this`counters
      ensures answer == StaleAnswer(config, heap[id], now) && counters == CountStale(old(counters), answer)
    {
      var e := heap[id];
      if e.value.Some? && now - e.fetchedAt < config.ttl + config.staleFor {
        counters := counters.(staleServed := counters.staleServed + 1);
        return Stale(e.value.value);
      }
      answer := Default;
    }

    /** The eviction loop. */
    method Shrink()
      requires Consistent(Contents()) && config.Valid()
      modifies this`table, this`order
      ensures Contents() == Evict(config, old(Contents()))
    {
      while |order| > config.maxEntries
        invariant Consistent(Contents())
        invariant Evict(config, Contents()) == Evict(config, old(Contents()))
        decreases |order|
      {
        var oldest := order[0];
        if heap[table[oldest]].flight.Some? {
          break;
        }
        ghost var dropped := DropOldest(Contents());
        table := table - {oldest};
        order := order[1..];
        assert Contents() == dropped;
      }
    }

    /** Looks the key up, makes its entry when there is none, and moves it to the end. */
    method Use(key: Key)
      requires Consistent(Contents()) && config.Valid()
      modifies this`table, this`order, this`heap
      ensures Contents() == Touch(config, old(Contents()), key) && Consistent(Contents())
    {
      if key !in table {
        Add(key);
        RemoveLast(order, key);
      }
      order := Remove(order, key) + [key];
    }

    method Add(key: Key)
      requires Consistent(Contents()) && config.Valid() && key !in table
      modifies this`table, this`order, this`heap
      ensures Contents() == Added(config, old(Contents()), key) && Consistent(Contents())
      ensures order != [] && order[|order| - 1] == key
    {
      ghost var inserted := Insert(Contents(), key);
      AddedEndsWith(config, Contents(), key);
      table := table[key := |heap|];
      order := order + [key];
      heap := heap + [NewEntry(key)];
      assert Contents() == inserted;
      Shrink();
    }

    method Begin(key: Key, now: real) returns (decision: Decision)
      requires Consistent(Contents()) && config.Valid()
      modifies this
      ensures (Contents(), decision) == Decide(config, old(Contents()), key, now)
      ensures Consistent(Contents())
    {
      Use(key);
      decision := DecideNow(key, now);
    }

    /** The decision on an entry that is in the table. */
    method DecideNow(key: Key, now: real) returns (decision: Decision)
      requires Consistent(Contents()) && key in table
      modifies this`heap, this`flights, this`counters
      ensures (Contents(), decision) == DecideAt(config, old(Contents()), key, now)
      ensures Consistent(Contents())
    {
      var id := table[key];
      var e := heap[id];
      if e.value.Some? && now - e.fetchedAt < config.ttl {
        counters := counters.(hits := counters.hits + 1);
        return Answered(Hit(e.value.value));
      }
      if e.failedAt.Some? && now - e.failedAt.value < config.errorTtl {
        var answer := StaleOut(id, now);
        return Answered(answer);
      }
      if e.flight.Some? && e.value.Some? {
        var answer := StaleOut(id, now);
        return Answered(answer);
      }
      if e.flight.None? {
        heap := heap[id := e.(flight := Some(flights))];
        flights := flights + 1;
        return Fetch(id, flights - 1);
      }
      decision := Wait(id, e.flight.value);
    }

    method Waited(id: nat, now: real) returns (answer: Answer)
      requires id < |heap|
      modifies this`counters
      ensures (Contents(), answer) == AfterWait(config, old(Contents()), id, now)
    {
      var e := heap[id];
      if e.value.Some? && now - e.fetchedAt < config.ttl {
        return Hit(e.value.value);
      }
      answer := StaleOut(id, now);
    }

    method FinishValue(id: nat, value: Value, now: real)
      requires id < |heap|
      modifies this
      ensures Contents() == PublishValue(old(Contents()), id, value, now)
    {
      counters := counters.(fetches := counters.fetches + 1);
      heap := heap[id := heap[id].(value := Some(value))];
      heap := heap[id := heap[id].(fetchedAt := now)];
      heap := heap[id := heap[id].(failedAt := None)];
      heap := heap[id := heap[id].(flight := None)];
    }

    method FinishFailure(id: nat, now: real) returns (answer: Answer)
      requires id < |heap|
      modifies this
      ensures (Contents(), answer) == PublishFailure(config, old(Contents()), id, now)
    {
      counters := counters.(failures := counters.failures + 1);
      heap := heap[id := heap[id].(failedAt := Some(now))];
      answer := StaleOut(id, now);
      heap := heap[id := heap[id].(flight := None)];
      assert heap == old(heap)[id := old(heap[id]).(failedAt := Some(now), flight := None)];
    }

    method FinishAbort(id: nat)
      requires id < |heap|
      modifies this`heap
      ensures Contents() == PublishAbort(old(Contents()), id)
    {
      heap := heap[id := heap[id].(flight := None)];
    }

    /** `peek`: an answer in date or nothing; the order of the entries stays as it is. */
    method Peek(key: Key, now: real) returns (found: Option<Value>)
      requires Consistent(Contents())
      modifies this`counters
      ensures found == if key in table && Fresh(config, heap[table[key]], now) then heap[table[key]].value else None
      ensures counters == old(counters).(hits := old(counters.hits) + (if found.Some? then 1 else 0))
    {
      if key in table && Fresh(config, heap[table[key]], now) {
        counters := counters.(hits := counters.hits + 1);
        return heap[table[key]].value;
      }
      found := None;
    }
  }

  lemma {:induction false} RemoveLast(order: seq<Key>, key: Key)
    requires order != [] && order[|order| - 1] == key
    requires Distinct(order)
    ensures Remove(order, key) + [key] == order
    decreases |order|
  {
    if |order| > 1 {
      RemoveLast(order[1..], key);
      assert order == [order[0]] + order[1..];
    } else {
      assert order == [key];
      assert Remove(order[1..], key) == [];
    }
  }
}
