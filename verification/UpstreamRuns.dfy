/**
 All interleavings of calls to the cache of upstream_cache.py.

 A run is any list of events; an event that is not possible in a state changes
 nothing. A wait may end at any time, because it has a time limit.
 */
module UpstreamRuns {
  import opened Wrappers
  import opened UpstreamCache

  /** What a call is doing; `Setting` has cleared its flight and is about to signal it. */
  datatype Thread =
    | Fetching(key: Key, entry: nat, flight: nat)
    | Waiting(key: Key, entry: nat, flight: nat)
    | Setting(key: Key, flight: nat, answer: Answer)
    | Done(key: Key, answer: Answer)

  /** A fetch that succeeded. */
  datatype Good = Good(key: Key, entry: nat, value: Value, at: real)

  /**
   `holder` says which call started a flight; `goods` and `lastFailure` record what was
   published. They are the history that the properties speak of.
   */
  datatype System = System(
    cache: Cache, threads: map<nat, Thread>, signalled: set<nat>, now: real,
    holder: map<nat, nat>, goods: seq<Good>, lastFailure: map<nat, real>)

  datatype Event =
    | Call(thread: nat, key: Key)
    | Succeed(thread: nat, value: Value)
    | Fail(thread: nat)
    | Abort(thread: nat)
    | Signal(thread: nat)
    | Resume(thread: nat)
    | Pass(time: real)

  const START := System(Cache(map[], [], [], 0, Counters(0, 0, 0, 0)), map[], {}, 0.0, map[], [], map[])

  predicate Possible(s: System, ev: Event) {
    match ev
    case Call(t, _) => t !in s.threads
    case Succeed(t, _) => t in s.threads && s.threads[t].Fetching?
    case Fail(t) => t in s.threads && s.threads[t].Fetching?
    case Abort(t) => t in s.threads && s.threads[t].Fetching?
    case Signal(t) => t in s.threads && s.threads[t].Setting?
    case Resume(t) => t in s.threads && s.threads[t].Waiting?
    case Pass(time) => time >= 0.0
  }

  /** What the steps need to be defined. */
  ghost predicate Sane(s: System) {
    && Consistent(s.cache)
    && (forall t | t in s.threads && (s.threads[t].Fetching? || s.threads[t].Waiting?) ::
          s.threads[t].entry < |s.cache.heap| && s.cache.heap[s.threads[t].entry].key == s.threads[t].key)
  }

  /** The rest of a call, once its entry is in the table. */
  function CallAt(config: Config, s: System, t: nat, key: Key): System
    requires Sane(s) && key in s.cache.table
  {
    var (cache, decision) := DecideAt(config, s.cache, key, s.now);
    match decision
    case Answered(answer) => s.(cache := cache, threads := s.threads[t := Done(key, answer)])
    case Wait(id, flight) => s.(cache := cache, threads := s.threads[t := Waiting(key, id, flight)])
    case Fetch(id, flight) =>
      s.(cache := cache, threads := s.threads[t := Fetching(key, id, flight)], holder := s.holder[flight := t])
  }

  function CallStep(config: Config, s: System, t: nat, key: Key): System
    requires config.Valid() && Sane(s)
  {
    TouchFacts(config, s.cache, key);
    TouchKeepsSane(s, Touch(config, s.cache, key), key);
    CallAt(config, s.(cache := Touch(config, s.cache, key)), t, key)
  }

  function SucceedStep(s: System, t: nat, value: Value): System
    requires Sane(s) && t in s.threads && s.threads[t].Fetching?
  {
    var c := s.threads[t];
    s.(cache := PublishValue(s.cache, c.entry, value, s.now),
       threads := s.threads[t := Setting(c.key, c.flight, Own(value))],
       goods := s.goods + [Good(c.key, c.entry, value, s.now)])
  }

  function FailStep(config: Config, s: System, t: nat): System
    requires Sane(s) && t in s.threads && s.threads[t].Fetching?
  {
    var c := s.threads[t];
    var (cache, answer) := PublishFailure(config, s.cache, c.entry, s.now);
    s.(cache := cache, threads := s.threads[t := Setting(c.key, c.flight, answer)],
       lastFailure := s.lastFailure[c.entry := s.now])
  }

  function AbortStep(s: System, t: nat): System
    requires Sane(s) && t in s.threads && s.threads[t].Fetching?
  {
    var c := s.threads[t];
    s.(cache := PublishAbort(s.cache, c.entry), threads := s.threads[t := Setting(c.key, c.flight, Raised)])
  }

  function SignalStep(s: System, t: nat): System
    requires t in s.threads && s.threads[t].Setting?
  {
    var c := s.threads[t];
    s.(signalled := s.signalled + {c.flight}, threads := s.threads[t := Done(c.key, c.answer)])
  }

  function ResumeStep(config: Config, s: System, t: nat): System
    requires Sane(s) && t in s.threads && s.threads[t].Waiting?
  {
    var c := s.threads[t];
    var (cache, answer) := AfterWait(config, s.cache, c.entry, s.now);
    s.(cache := cache, threads := s.threads[t := Done(c.key, answer)])
  }

  function Step(config: Config, s: System, ev: Event): System
    requires config.Valid() && Sane(s)
  {
    if !Possible(s, ev) then s
    else match ev
      case Call(t, key) => CallStep(config, s, t, key)
      case Succeed(t, value) => SucceedStep(s, t, value)
      case Fail(t) => FailStep(config, s, t)
      case Abort(t) => AbortStep(s, t)
      case Signal(t) => SignalStep(s, t)
      case Resume(t) => ResumeStep(config, s, t)
      case Pass(time) => s.(now := s.now + time)
  }

  // ---------------------------------------------------------------- the invariants

  /** A flight that is on is held by the one call that fetches, for the entry in the table. */
  ghost predicate Held(s: System) {
    && (forall t | t in s.threads && s.threads[t].Fetching? ::
          var c := s.threads[t];
          && c.key in s.cache.table && s.cache.table[c.key] == c.entry
          && c.entry < |s.cache.heap| && s.cache.heap[c.entry].flight == Some(c.flight)
          && c.flight in s.holder && s.holder[c.flight] == t)
    && (forall e | 0 <= e < |s.cache.heap| && s.cache.heap[e].flight.Some? ::
          var f := s.cache.heap[e].flight.value;
          f in s.holder && s.holder[f] in s.threads && s.threads[s.holder[f]] == Fetching(s.cache.heap[e].key, e, f))
  }

  /** Every flight that was started is still fetched, about to be signalled, or signalled. */
  ghost predicate Tracked(s: System) {
    && (forall f: nat :: f in s.holder <==> f < s.cache.flights)
    && (forall f | f in s.holder ::
          && s.holder[f] in s.threads
          && (var c := s.threads[s.holder[f]];
              f in s.signalled || (c.Fetching? && c.flight == f) || (c.Setting? && c.flight == f)))
    && (forall t | t in s.threads && s.threads[t].Setting? ::
          s.threads[t].flight in s.holder && s.holder[s.threads[t].flight] == t)
    && (forall t | t in s.threads && s.threads[t].Waiting? :: s.threads[t].flight in s.holder)
  }

  function LastOfEntry(goods: seq<Good>, e: nat): Option<Good> {
    if goods == [] then None
    else if goods[|goods| - 1].entry == e then Some(goods[|goods| - 1])
    else LastOfEntry(goods[..|goods| - 1], e)
  }

  /** The last good answer there was for the key. */
  function LastOfKey(goods: seq<Good>, key: Key): Option<Good> {
    if goods == [] then None
    else if goods[|goods| - 1].key == key then Some(goods[|goods| - 1])
    else LastOfKey(goods[..|goods| - 1], key)
  }

  /** An entry holds what was last published to it; in the table, what was last published for its key. */
  ghost predicate Provenance(s: System) {
    && (forall i | 0 <= i < |s.goods| ::
          s.goods[i].entry < |s.cache.heap| && s.cache.heap[s.goods[i].entry].key == s.goods[i].key)
    && (forall e | 0 <= e < |s.cache.heap| ::
          match LastOfEntry(s.goods, e)
          case None => s.cache.heap[e].value.None?
          case Some(g) => s.cache.heap[e].value == Some(g.value) && s.cache.heap[e].fetchedAt == g.at)
    && (forall k | k in s.cache.table :: LastOfEntry(s.goods, s.cache.table[k]).Some? ==>
          LastOfKey(s.goods, k) == LastOfEntry(s.goods, s.cache.table[k]))
  }

  /** After a failure an entry remembers it, or `error_ttl` has passed; a fetch never runs before that. */
  ghost predicate BacksOff(config: Config, s: System) {
    && (forall e | e in s.lastFailure ::
          && e < |s.cache.heap|
          && s.lastFailure[e] <= s.now
          && (s.cache.heap[e].failedAt == Some(s.lastFailure[e]) || s.now - s.lastFailure[e] >= config.errorTtl)
          && (s.cache.heap[e].flight.Some? ==> s.now - s.lastFailure[e] >= config.errorTtl))
  }

  /** What an entry remembers of a failure is the last one. */
  ghost predicate Remembers(s: System) {
    forall e | 0 <= e < |s.cache.heap| && s.cache.heap[e].failedAt.Some? ::
      e in s.lastFailure && s.lastFailure[e] == s.cache.heap[e].failedAt.value
  }

  ghost predicate Invariant(config: Config, s: System) {
    Sane(s) && Held(s) && Tracked(s) && Provenance(s) && BacksOff(config, s) && Remembers(s)
  }

  // ---------------------------------------------------------------- making an entry keeps them

  lemma TouchKeepsSane(s: System, r: Cache, key: Key)
    requires Sane(s) && Touched(s.cache, r, key)
    ensures Sane(s.(cache := r))
  {
  }

  lemma TouchKeepsHeld(s: System, r: Cache, key: Key)
    requires Sane(s) && Held(s) && Touched(s.cache, r, key)
    ensures Held(s.(cache := r))
  {
  }

  lemma {:induction false} NoGoodsOf(goods: seq<Good>, e: nat)
    requires forall i | 0 <= i < |goods| :: goods[i].entry != e
    ensures LastOfEntry(goods, e).None?
    decreases |goods|
  {
    if goods != [] {
      NoGoodsOf(goods[..|goods| - 1], e);
    }
  }

  lemma TouchKeepsProvenance(s: System, r: Cache, key: Key)
    requires Provenance(s) && Touched(s.cache, r, key)
    ensures Provenance(s.(cache := r))
  {
    if key !in s.cache.table {
      NoGoodsOf(s.goods, |s.cache.heap|);
    }
  }

  lemma TouchKeepsBackOff(config: Config, s: System, r: Cache, key: Key)
    requires BacksOff(config, s) && Touched(s.cache, r, key)
    ensures BacksOff(config, s.(cache := r))
  {
  }

  lemma TouchKeeps(config: Config, s: System, r: Cache, key: Key)
    requires Invariant(config, s) && Touched(s.cache, r, key)
    ensures Invariant(config, s.(cache := r))
  {
    TouchKeepsSane(s, r, key);
    TouchKeepsHeld(s, r, key);
    TouchKeepsProvenance(s, r, key);
    TouchKeepsBackOff(config, s, r, key);
  }

  // ---------------------------------------------------------------- so does every step

  /** The table and the keys of the entries are the same. */
  ghost predicate SameKeys(c: Cache, r: Cache) {
    && r.table == c.table && r.order == c.order && |r.heap| == |c.heap|
    && forall i | 0 <= i < |c.heap| :: r.heap[i].key == c.heap[i].key
  }

  lemma DecideKeepsKeys(config: Config, c: Cache, key: Key, now: real)
    requires Consistent(c) && key in c.table
    ensures SameKeys(c, DecideAt(config, c, key, now).0)
    ensures DecideAt(config, c, key, now).1.Fetch? ==> DecideAt(config, c, key, now).1.entry == c.table[key]
    ensures DecideAt(config, c, key, now).1.Wait? ==> DecideAt(config, c, key, now).1.entry == c.table[key]
  {
  }

  lemma ThreadKeepsSane(s: System, r: System, t: nat)
    requires Sane(s) && SameKeys(s.cache, r.cache) && t in r.threads && r.threads == s.threads[t := r.threads[t]]
    requires var c := r.threads[t];
      c.Fetching? || c.Waiting? ==> c.entry < |r.cache.heap| && r.cache.heap[c.entry].key == c.key
    ensures Sane(r)
  {
  }

  lemma CallKeepsSane(config: Config, s: System, t: nat, key: Key)
    requires Sane(s) && key in s.cache.table && t !in s.threads
    ensures Sane(CallAt(config, s, t, key))
  {
    DecideKeepsKeys(config, s.cache, key, s.now);
    ThreadKeepsSane(s, CallAt(config, s, t, key), t);
  }

  lemma CallKeepsHeld(config: Config, s: System, t: nat, key: Key)
    requires Sane(s) && Held(s) && Tracked(s) && key in s.cache.table && t !in s.threads
    ensures Held(CallAt(config, s, t, key))
  {
    var (cache, decision) := DecideAt(config, s.cache, key, s.now);
    if decision.Fetch? {
      FetchKeepsHeld(s, CallAt(config, s, t, key), t, key);
    } else {
      OtherKeepsHeld(s, CallAt(config, s, t, key), t);
    }
  }

  lemma OtherKeepsHeld(s: System, r: System, t: nat)
    requires Held(s) && t !in s.threads && r.cache.table == s.cache.table && r.cache.heap == s.cache.heap
    requires r.holder == s.holder && t in r.threads && !r.threads[t].Fetching?
    requires r.threads == s.threads[t := r.threads[t]]
    ensures Held(r)
  {
  }

  /** A new flight, for an entry that had none. */
  ghost predicate StartsFlight(s: System, r: System, t: nat, key: Key)
    requires key in s.cache.table && s.cache.table[key] < |s.cache.heap|
  {
    var e, f := s.cache.table[key], s.cache.flights;
    && s.cache.heap[e].flight.None? && s.cache.heap[e].key == key
    && r.cache.table == s.cache.table && r.cache.heap == s.cache.heap[e := s.cache.heap[e].(flight := Some(f))]
    && r.holder == s.holder[f := t] && r.threads == s.threads[t := Fetching(key, e, f)]
  }

  lemma FetchKeepsHeld(s: System, r: System, t: nat, key: Key)
    requires Sane(s) && Held(s) && Tracked(s) && key in s.cache.table && t !in s.threads
    requires StartsFlight(s, r, t, key)
    ensures Held(r)
  {
  }

  lemma CallKeepsTracked(config: Config, s: System, t: nat, key: Key)
    requires Sane(s) && Held(s) && Tracked(s) && key in s.cache.table && t !in s.threads
    ensures Tracked(CallAt(config, s, t, key))
  {
    var r := CallAt(config, s, t, key);
    if r.threads[t].Fetching? {
      FetchKeepsTracked(s, r, t);
    } else {
      NewCallKeepsTracked(s, r, t);
    }
  }

  /** A new call that is answered, or waits for a flight that is held. */
  lemma NewCallKeepsTracked(s: System, r: System, t: nat)
    requires Tracked(s) && t !in s.threads && t in r.threads && r.threads == s.threads[t := r.threads[t]]
    requires r.cache.flights == s.cache.flights && r.holder == s.holder && r.signalled == s.signalled
    requires r.threads[t].Done? || (r.threads[t].Waiting? && r.threads[t].flight in s.holder)
    ensures Tracked(r)
  {
  }

  /** A new call that fetches holds the new flight. */
  lemma FetchKeepsTracked(s: System, r: System, t: nat)
    requires Tracked(s) && t !in s.threads && t in r.threads && r.threads == s.threads[t := r.threads[t]]
    requires r.cache.flights == s.cache.flights + 1 && r.holder == s.holder[s.cache.flights := t]
    requires r.signalled == s.signalled && r.threads[t].Fetching? && r.threads[t].flight == s.cache.flights
    ensures Tracked(r)
  {
  }

  ghost predicate SameValues(c: Cache, r: Cache) {
    && r.table == c.table && |r.heap| == |c.heap|
    && forall i | 0 <= i < |c.heap| ::
         r.heap[i].key == c.heap[i].key && r.heap[i].value == c.heap[i].value && r.heap[i].fetchedAt == c.heap[i].fetchedAt
  }

  lemma DecideKeepsValues(config: Config, c: Cache, key: Key, now: real)
    requires Consistent(c) && key in c.table
    ensures SameValues(c, DecideAt(config, c, key, now).0)
  {
  }

  lemma ValuesKeepProvenance(s: System, r: System)
    requires Sane(s) && Provenance(s) && SameValues(s.cache, r.cache) && r.goods == s.goods
    ensures Provenance(r)
  {
  }

  lemma CallKeepsProvenance(config: Config, s: System, t: nat, key: Key)
    requires Sane(s) && Provenance(s) && key in s.cache.table && t !in s.threads
    ensures Provenance(CallAt(config, s, t, key))
  {
    DecideKeepsValues(config, s.cache, key, s.now);
    ValuesKeepProvenance(s, CallAt(config, s, t, key));
  }

  lemma CallKeepsBackOff(config: Config, s: System, t: nat, key: Key)
    requires Sane(s) && BacksOff(config, s) && key in s.cache.table && t !in s.threads
    ensures BacksOff(config, CallAt(config, s, t, key))
  {
  }

  lemma CallKeepsRemembers(config: Config, s: System, t: nat, key: Key)
    requires Sane(s) && Remembers(s) && key in s.cache.table
    ensures Remembers(CallAt(config, s, t, key))
  {
  }

  lemma TouchKeepsRemembers(s: System, r: Cache, key: Key)
    requires Remembers(s) && Touched(s.cache, r, key)
    ensures Remembers(s.(cache := r))
  {
  }

  lemma CallKeeps(config: Config, s: System, t: nat, key: Key)
    requires config.Valid() && Invariant(config, s) && t !in s.threads
    ensures Invariant(config, CallStep(config, s, t, key))
  {
    var r := s.(cache := Touch(config, s.cache, key));
    TouchFacts(config, s.cache, key);
    TouchKeeps(config, s, r.cache, key);
    CallKeepsSane(config, r, t, key);
    CallKeepsHeld(config, r, t, key);
    CallKeepsTracked(config, r, t, key);
    CallKeepsProvenance(config, r, t, key);
    CallKeepsBackOff(config, r, t, key);
    CallKeepsRemembers(config, r, t, key);
  }

  lemma LastAfter(goods: seq<Good>, g: Good)
    ensures forall e :: LastOfEntry(goods + [g], e) == (if e == g.entry then Some(g) else LastOfEntry(goods, e))
    ensures forall k :: LastOfKey(goods + [g], k) == (if k == g.key then Some(g) else LastOfKey(goods, k))
  {
    assert (goods + [g])[..|goods|] == goods;
  }

  lemma SucceedKeepsSane(config: Config, s: System, t: nat, value: Value)
    requires Sane(s) && Possible(s, Succeed(t, value))
    ensures Sane(SucceedStep(s, t, value))
  {
  }

  lemma SucceedKeepsHeld(config: Config, s: System, t: nat, value: Value)
    requires Sane(s) && Held(s) && Tracked(s) && Possible(s, Succeed(t, value))
    ensures Held(SucceedStep(s, t, value))
  {
  }

  lemma SucceedKeepsTracked(config: Config, s: System, t: nat, value: Value)
    requires Sane(s) && Held(s) && Tracked(s) && Possible(s, Succeed(t, value))
    ensures Tracked(SucceedStep(s, t, value))
  {
  }

  lemma SucceedKeepsProvenance(config: Config, s: System, t: nat, value: Value)
    requires Sane(s) && Held(s) && Provenance(s) && Possible(s, Succeed(t, value))
    ensures Provenance(SucceedStep(s, t, value))
  {
    var r := SucceedStep(s, t, value);
    LastAfter(s.goods, r.goods[|s.goods|]);
  }

  lemma SucceedKeepsBackOff(config: Config, s: System, t: nat, value: Value)
    requires Sane(s) && Held(s) && BacksOff(config, s) && Possible(s, Succeed(t, value))
    ensures BacksOff(config, SucceedStep(s, t, value))
  {
  }

  lemma SucceedKeeps(config: Config, s: System, t: nat, value: Value)
    requires Invariant(config, s) && Possible(s, Succeed(t, value))
    ensures Invariant(config, SucceedStep(s, t, value))
  {
    SucceedKeepsSane(config, s, t, value);
    SucceedKeepsHeld(config, s, t, value);
    SucceedKeepsTracked(config, s, t, value);
    SucceedKeepsProvenance(config, s, t, value);
    SucceedKeepsBackOff(config, s, t, value);
  }

  lemma FailKeepsSane(config: Config, s: System, t: nat)
    requires Sane(s) && Possible(s, Fail(t))
    ensures Sane(FailStep(config, s, t))
  {
  }

  lemma FailKeepsHeld(config: Config, s: System, t: nat)
    requires Sane(s) && Held(s) && Tracked(s) && Possible(s, Fail(t))
    ensures Held(FailStep(config, s, t))
  {
  }

  lemma FailKeepsTracked(config: Config, s: System, t: nat)
    requires Sane(s) && Held(s) && Tracked(s) && Possible(s, Fail(t))
    ensures Tracked(FailStep(config, s, t))
  {
  }

  lemma FailKeepsProvenance(config: Config, s: System, t: nat)
    requires Sane(s) && Held(s) && Provenance(s) && Possible(s, Fail(t))
    ensures Provenance(FailStep(config, s, t))
  {
  }

  lemma FailKeepsBackOff(config: Config, s: System, t: nat)
    requires Sane(s) && Held(s) && BacksOff(config, s) && Possible(s, Fail(t))
    ensures BacksOff(config, FailStep(config, s, t))
  {
  }

  lemma FailKeeps(config: Config, s: System, t: nat)
    requires Invariant(config, s) && Possible(s, Fail(t))
    ensures Invariant(config, FailStep(config, s, t))
  {
    FailKeepsSane(config, s, t);
    FailKeepsHeld(config, s, t);
    FailKeepsTracked(config, s, t);
    FailKeepsProvenance(config, s, t);
    FailKeepsBackOff(config, s, t);
  }

  lemma AbortKeepsSane(config: Config, s: System, t: nat)
    requires Sane(s) && Possible(s, Abort(t))
    ensures Sane(AbortStep(s, t))
  {
  }

  lemma AbortKeepsHeld(config: Config, s: System, t: nat)
    requires Sane(s) && Held(s) && Tracked(s) && Possible(s, Abort(t))
    ensures Held(AbortStep(s, t))
  {
  }

  lemma AbortKeepsTracked(config: Config, s: System, t: nat)
    requires Sane(s) && Held(s) && Tracked(s) && Possible(s, Abort(t))
    ensures Tracked(AbortStep(s, t))
  {
  }

  lemma AbortKeepsProvenance(config: Config, s: System, t: nat)
    requires Sane(s) && Held(s) && Provenance(s) && Possible(s, Abort(t))
    ensures Provenance(AbortStep(s, t))
  {
  }

  lemma AbortKeepsBackOff(config: Config, s: System, t: nat)
    requires Sane(s) && Held(s) && BacksOff(config, s) && Possible(s, Abort(t))
    ensures BacksOff(config, AbortStep(s, t))
  {
  }

  lemma AbortKeeps(config: Config, s: System, t: nat)
    requires Invariant(config, s) && Possible(s, Abort(t))
    ensures Invariant(config, AbortStep(s, t))
  {
    AbortKeepsSane(config, s, t);
    AbortKeepsHeld(config, s, t);
    AbortKeepsTracked(config, s, t);
    AbortKeepsProvenance(config, s, t);
    AbortKeepsBackOff(config, s, t);
  }

  lemma SignalKeeps(config: Config, s: System, t: nat)
    requires Invariant(config, s) && Possible(s, Signal(t))
    ensures Invariant(config, SignalStep(s, t))
  {
    SignalKeepsHeld(s, t);
    SignalKeepsTracked(s, t);
  }

  lemma SignalKeepsHeld(s: System, t: nat)
    requires Held(s) && Possible(s, Signal(t))
    ensures Held(SignalStep(s, t))
  {
  }

  lemma SignalKeepsTracked(s: System, t: nat)
    requires Tracked(s) && Possible(s, Signal(t))
    ensures Tracked(SignalStep(s, t))
  {
  }

  lemma ResumeKeeps(config: Config, s: System, t: nat)
    requires Invariant(config, s) && Possible(s, Resume(t))
    ensures Invariant(config, ResumeStep(config, s, t))
  {
    ResumeKeepsSane(config, s, t);
    ResumeKeepsHeld(config, s, t);
    ResumeKeepsTracked(config, s, t);
    ResumeKeepsProvenance(config, s, t);
  }

  lemma ResumeKeepsSane(config: Config, s: System, t: nat)
    requires Sane(s) && Possible(s, Resume(t))
    ensures Sane(ResumeStep(config, s, t))
  {
  }

  lemma ResumeKeepsProvenance(config: Config, s: System, t: nat)
    requires Sane(s) && Provenance(s) && Possible(s, Resume(t))
    ensures Provenance(ResumeStep(config, s, t))
  {
  }

  lemma ResumeKeepsHeld(config: Config, s: System, t: nat)
    requires Sane(s) && Held(s) && Possible(s, Resume(t))
    ensures Held(ResumeStep(config, s, t))
  {
  }

  lemma ResumeKeepsTracked(config: Config, s: System, t: nat)
    requires Sane(s) && Tracked(s) && Possible(s, Resume(t))
    ensures Tracked(ResumeStep(config, s, t))
  {
  }

  lemma StepKeepsInvariant(config: Config, s: System, ev: Event)
    requires config.Valid() && Invariant(config, s)
    ensures Invariant(config, Step(config, s, ev))
  {
    if Possible(s, ev) {
      match ev
      case Call(t, key) =>
        CallKeeps(config, s, t, key);
      case Succeed(t, value) => SucceedKeeps(config, s, t, value);
      case Fail(t) => FailKeeps(config, s, t);
      case Abort(t) => AbortKeeps(config, s, t);
      case Signal(t) => SignalKeeps(config, s, t);
      case Resume(t) => ResumeKeeps(config, s, t);
      case Pass(_) =>
    }
  }

  // ---------------------------------------------------------------- runs

  /** The state that a list of events leads to. */
  ghost function Run(config: Config, events: seq<Event>): (s: System)
    requires config.Valid()
    ensures Invariant(config, s)
  {
    if events == [] then START
    else
      var before := Run(config, events[..|events| - 1]);
      StepKeepsInvariant(config, before, events[|events| - 1]);
      Step(config, before, events[|events| - 1])
  }

  /** Single flight: in every run, at most one call fetches a key at any time, and its entry is in the table. */
  lemma SingleFlight(config: Config, events: seq<Event>, t1: nat, t2: nat)
    requires config.Valid()
    ensures var s := Run(config, events);
      t1 in s.threads && t2 in s.threads && s.threads[t1].Fetching? && s.threads[t2].Fetching?
      && s.threads[t1].key == s.threads[t2].key ==>
        && t1 == t2
        && s.threads[t1].key in s.cache.table && s.cache.table[s.threads[t1].key] == s.threads[t1].entry
  {
    var s := Run(config, events);
    assert Held(s);
  }

  /** A call that has cleared its flight is about to signal it. */
  ghost predicate IsSetting(s: System, t: nat, f: nat) {
    t in s.threads && s.threads[t].Setting? && s.threads[t].flight == f
  }

  lemma SignalEnds(config: Config, s: System, t: nat, f: nat)
    requires config.Valid() && Sane(s) && IsSetting(s, t, f)
    ensures f in Step(config, s, Signal(t)).signalled
  {
  }

  /** However a fetch ends, it clears its flight, and the call goes on to signal it. */
  ghost predicate Clears(s: System, r: System, t: nat, f: nat)
    requires t in s.threads && s.threads[t].Fetching?
  {
    var e := s.threads[t].entry; e < |r.cache.heap| && r.cache.heap[e].flight.None? && IsSetting(r, t, f)
  }

  lemma FetchEnds(config: Config, s: System, t: nat, value: Value)
    requires config.Valid() && Sane(s) && t in s.threads && s.threads[t].Fetching?
    ensures Clears(s, Step(config, s, Succeed(t, value)), t, s.threads[t].flight)
    ensures Clears(s, Step(config, s, Fail(t)), t, s.threads[t].flight)
    ensures Clears(s, Step(config, s, Abort(t)), t, s.threads[t].flight)
  {
  }

  /** Every flight ends signalled: while it is not, one call holds it and its next step clears or signals it. */
  lemma FlightIsSignalled(config: Config, events: seq<Event>, f: nat, value: Value)
    requires config.Valid() && f < Run(config, events).cache.flights && f !in Run(config, events).signalled
    ensures var s := Run(config, events);
      && f in s.holder && s.holder[f] in s.threads
      && var t := s.holder[f];
         || (IsSetting(s, t, f) && f in Step(config, s, Signal(t)).signalled)
         || (s.threads[t].Fetching? && s.threads[t].flight == f
             && Clears(s, Step(config, s, Succeed(t, value)), t, f)
             && Clears(s, Step(config, s, Fail(t)), t, f)
             && Clears(s, Step(config, s, Abort(t)), t, f))
  {
    var s := Run(config, events);
    HolderOf(config, s, f);
    var t := s.holder[f];
    if s.threads[t].Setting? {
      SignalEnds(config, s, t, f);
    } else {
      FetchEnds(config, s, t, value);
    }
  }

  lemma HolderOf(config: Config, s: System, f: nat)
    requires Invariant(config, s) && f < s.cache.flights && f !in s.signalled
    ensures f in s.holder && s.holder[f] in s.threads
    ensures var c := s.threads[s.holder[f]]; (c.Setting? || c.Fetching?) && c.flight == f
  {
    assert Tracked(s);
  }

  /** The answer from a recorded value at a time: in date, usable in place of a failed fetch, or none. */
  function FromLast(config: Config, last: Option<Good>, now: real): Answer {
    if last.Some? && now - last.value.at < config.ttl then Hit(last.value.value) else StaleFromLast(config, last, now)
  }

  function StaleFromLast(config: Config, last: Option<Good>, now: real): Answer {
    if last.Some? && now - last.value.at < config.ttl + config.staleFor then Stale(last.value.value) else Default
  }

  /** Some call fetches the key now. */
  ghost predicate IsFetched(s: System, key: Key) {
    exists t :: t in s.threads && s.threads[t].Fetching? && s.threads[t].key == key
  }

  /** The last fetch for the entry that failed did so less than `error_ttl` ago. */
  predicate JustFailed(config: Config, s: System, e: nat) {
    e in s.lastFailure && s.now - s.lastFailure[e] < config.errorTtl
  }

  /** What a call is to become, told from what was published, what failed, who fetches, and the clock. */
  ghost predicate IsRight(config: Config, s: System, key: Key, call: Thread) {
    if key !in s.cache.table then call.Fetching?
    else
      var e := s.cache.table[key];
      var last := LastOfEntry(s.goods, e);
      if last.Some? && s.now - last.value.at < config.ttl then call == Done(key, Hit(last.value.value))
      else if JustFailed(config, s, e) || (IsFetched(s, key) && last.Some?) then
        call == Done(key, StaleFromLast(config, last, s.now))
      else if IsFetched(s, key) then call.Waiting? && call.entry == e
      else call.Fetching? && call.entry == e
  }

  /**
   A call is answered from what was published for its key, in date or usable, whenever it is not to fetch: a value in
   date is a hit and starts no fetch, and a usable one is served while the upstream fails or is asked.
   */
  lemma CallAnswer(config: Config, events: seq<Event>, t: nat, key: Key)
    requires config.Valid() && t !in Run(config, events).threads
    ensures var s := Run(config, events);
      var r := Step(config, s, Call(t, key));
      && t in r.threads && r.threads[t].key == key && IsRight(config, s, key, r.threads[t])
      && (key in s.cache.table ==> LastOfEntry(s.goods, s.cache.table[key]).Some? ==>
            LastOfKey(s.goods, key) == LastOfEntry(s.goods, s.cache.table[key]))
  {
    CallIsRight(config, Run(config, events), t, key);
  }

  lemma CallIsRight(config: Config, s: System, t: nat, key: Key)
    requires config.Valid() && Invariant(config, s) && t !in s.threads
    ensures var r := Step(config, s, Call(t, key));
      t in r.threads && r.threads[t].key == key && IsRight(config, s, key, r.threads[t])
  {
    var r := Touch(config, s.cache, key);
    TouchFacts(config, s.cache, key);
    TouchKeepsSane(s, r, key);
    if key in s.cache.table {
      CallAtIsRight(config, s, r, t, key);
    } else {
      NewKeyIsFetched(config, s.(cache := r), t, key);
    }
  }

  lemma NewKeyIsFetched(config: Config, s: System, t: nat, key: Key)
    requires Sane(s) && key in s.cache.table && s.cache.heap[s.cache.table[key]] == NewEntry(key)
    ensures var r := CallAt(config, s, t, key); t in r.threads && r.threads[t].key == key && r.threads[t].Fetching?
  {
  }

  lemma CallAtIsRight(config: Config, s: System, r: Cache, t: nat, key: Key)
    requires Invariant(config, s) && key in s.cache.table && Touched(s.cache, r, key) && Sane(s.(cache := r))
    ensures var after := CallAt(config, s.(cache := r), t, key);
      t in after.threads && after.threads[t].key == key && IsRight(config, s, key, after.threads[t])
  {
    var e := s.cache.table[key];
    FetchedIff(config, s, key);
    JustFailedIff(config, s, e);
    EntryIsLast(s, e);
    DecidesFor(config, s.cache.heap[e], r, key, e, s.now);
  }

  lemma EntryIsLast(s: System, e: nat)
    requires Provenance(s) && e < |s.cache.heap|
    ensures match LastOfEntry(s.goods, e)
            case None => s.cache.heap[e].value.None?
            case Some(g) => s.cache.heap[e].value == Some(g.value) && s.cache.heap[e].fetchedAt == g.at
  {
  }

  /** The decision, from the entry alone. */
  lemma DecidesFor(config: Config, entry: Entry, c: Cache, key: Key, e: nat, now: real)
    requires Consistent(c) && key in c.table && c.table[key] == e < |c.heap| && c.heap[e] == entry
    ensures var d := DecideAt(config, c, key, now).1;
      if entry.value.Some? && now - entry.fetchedAt < config.ttl then d == Answered(Hit(entry.value.value))
      else if (entry.failedAt.Some? && now - entry.failedAt.value < config.errorTtl)
              || (entry.flight.Some? && entry.value.Some?) then
        d == Answered(if entry.value.Some? && now - entry.fetchedAt < config.ttl + config.staleFor
                      then Stale(entry.value.value) else Default)
      else if entry.flight.Some? then d == Wait(e, entry.flight.value)
      else d.Fetch? && d.entry == e
  {
  }

  /** A flight of the entry in the table is a call that fetches the key. */
  lemma FetchedIff(config: Config, s: System, key: Key)
    requires Sane(s) && Held(s) && key in s.cache.table
    ensures IsFetched(s, key) <==> s.cache.heap[s.cache.table[key]].flight.Some?
  {
    var e := s.cache.table[key];
    if s.cache.heap[e].flight.Some? {
      var f := s.cache.heap[e].flight.value;
      assert s.threads[s.holder[f]] == Fetching(key, e, f);
    }
  }

  lemma JustFailedIff(config: Config, s: System, e: nat)
    requires Remembers(s) && BacksOff(config, s) && e < |s.cache.heap|
    ensures var failedAt := s.cache.heap[e].failedAt;
      JustFailed(config, s, e) <==> failedAt.Some? && s.now - failedAt.value < config.errorTtl
  {
  }

  /**
   A call that waited gets what was last published for its entry, in date or usable, and the default only when
   there is no such value.
   */
  lemma WaitAnswer(config: Config, events: seq<Event>, t: nat)
    requires config.Valid() && t in Run(config, events).threads && Run(config, events).threads[t].Waiting?
    ensures var s := Run(config, events);
      var c := s.threads[t];
      Step(config, s, Resume(t)).threads[t] == Done(c.key, FromLast(config, LastOfEntry(s.goods, c.entry), s.now))
  {
    WaitIsAnswered(config, Run(config, events), t);
  }

  lemma WaitIsAnswered(config: Config, s: System, t: nat)
    requires Sane(s) && Provenance(s) && t in s.threads && s.threads[t].Waiting?
    ensures var c := s.threads[t];
      ResumeStep(config, s, t).threads[t] == Done(c.key, FromLast(config, LastOfEntry(s.goods, c.entry), s.now))
  {
    EntryIsLast(s, s.threads[t].entry);
    AnswersFor(config, s.cache, s.threads[t].entry, s.now);
  }

  lemma FailureIsAnswered(config: Config, s: System, t: nat)
    requires Sane(s) && Provenance(s) && t in s.threads && s.threads[t].Fetching?
    ensures var c := s.threads[t];
      FailStep(config, s, t).threads[t]
      == Setting(c.key, c.flight, StaleFromLast(config, LastOfEntry(s.goods, c.entry), s.now))
  {
    EntryIsLast(s, s.threads[t].entry);
    AnswersFor(config, s.cache, s.threads[t].entry, s.now);
  }

  /** The answers of later pieces, from the entry alone. */
  lemma AnswersFor(config: Config, c: Cache, id: nat, now: real)
    requires id < |c.heap|
    ensures var e := c.heap[id];
      var young := e.value.Some? && now - e.fetchedAt < config.ttl + config.staleFor;
      var stale := if young then Stale(e.value.value) else Default;
      && AfterWait(config, c, id, now).1
         == (if e.value.Some? && now - e.fetchedAt < config.ttl then Hit(e.value.value) else stale)
      && PublishFailure(config, c, id, now).1 == stale
  {
  }

  /** So does one whose fetch failed, except that a value in date is served as a usable one. */
  lemma FailureAnswer(config: Config, events: seq<Event>, t: nat)
    requires config.Valid() && t in Run(config, events).threads && Run(config, events).threads[t].Fetching?
    ensures var s := Run(config, events);
      var c := s.threads[t];
      Step(config, s, Fail(t)).threads[t]
      == Setting(c.key, c.flight, StaleFromLast(config, LastOfEntry(s.goods, c.entry), s.now))
  {
    FailureIsAnswered(config, Run(config, events), t);
  }

  /** The answer that an event gives a call, if it gives one. */
  function AnswerOf(s: System, ev: Event): Option<Answer> {
    if (ev.Call? || ev.Resume? || ev.Fail?) && ev.thread in s.threads
       && (s.threads[ev.thread].Done? || s.threads[ev.thread].Setting?)
    then Some(s.threads[ev.thread].answer) else None
  }

  /** The counters count hits of calls, fetches that succeeded, fetches that failed, and answers past their date. */
  lemma CountersCount(config: Config, s: System, ev: Event)
    requires config.Valid() && Sane(s) && Possible(s, ev)
    ensures var r := Step(config, s, ev);
      var before, after, answer := s.cache.counters, r.cache.counters, AnswerOf(r, ev);
      && after.hits == before.hits + (if ev.Call? && answer.Some? && answer.value.Hit? then 1 else 0)
      && after.fetches == before.fetches + (if ev.Succeed? then 1 else 0)
      && after.failures == before.failures + (if ev.Fail? then 1 else 0)
      && after.staleServed == before.staleServed + (if answer.Some? && answer.value.Stale? then 1 else 0)
  {
    match ev
    case Call(t, key) =>
      TouchFacts(config, s.cache, key);
      TouchKeepsSane(s, Touch(config, s.cache, key), key);
      TouchCounts(config, s.cache, key);
      CallCounts(config, s.(cache := Touch(config, s.cache, key)), t, key);
    case Resume(t) => ResumeCounts(config, s, t);
    case Fail(t) => FailCounts(config, s, t);
    case _ =>
  }

  /** One more, or as many. */
  function More(n: nat, one: bool): nat {
    if one then n + 1 else n
  }

  lemma CallCounts(config: Config, s: System, t: nat, key: Key)
    requires Sane(s) && key in s.cache.table
    ensures var r := CallAt(config, s, t, key);
      var c := r.threads[t];
      var hit, stale := c.Done? && c.answer.Hit?, c.Done? && c.answer.Stale?;
      && !c.Setting?
      && r.cache.counters
         == s.cache.counters.(hits := More(s.cache.counters.hits, hit),
                              staleServed := More(s.cache.counters.staleServed, stale))
  {
  }

  lemma ResumeCounts(config: Config, s: System, t: nat)
    requires Sane(s) && t in s.threads && s.threads[t].Waiting?
    ensures var r := ResumeStep(config, s, t);
      r.threads[t].Done?
      && r.cache.counters
         == s.cache.counters.(staleServed := More(s.cache.counters.staleServed, r.threads[t].answer.Stale?))
  {
  }

  lemma FailCounts(config: Config, s: System, t: nat)
    requires Sane(s) && t in s.threads && s.threads[t].Fetching?
    ensures var r := FailStep(config, s, t);
      r.threads[t].Setting?
      && r.cache.counters
         == s.cache.counters.(failures := s.cache.counters.failures + 1,
                              staleServed := More(s.cache.counters.staleServed, r.threads[t].answer.Stale?))
  {
  }

  lemma TouchCounts(config: Config, c: Cache, key: Key)
    requires config.Valid() && Consistent(c)
    ensures Touch(config, c, key).counters == c.counters
  {
  }

  /** A fetch that succeeds is answered with its own value, which is published; what a fetch has set is then answered. */
  lemma OwnAnswer(config: Config, s: System, t: nat, value: Value)
    requires config.Valid() && Sane(s) && t in s.threads
    ensures var c := s.threads[t];
      && (c.Fetching? ==>
            var r := Step(config, s, Succeed(t, value));
            r.threads[t] == Setting(c.key, c.flight, Own(value))
            && LastOfEntry(r.goods, c.entry) == Some(Good(c.key, c.entry, value, s.now)))
      && (c.Setting? ==> Step(config, s, Signal(t)).threads[t] == Done(c.key, c.answer))
  {
  }

  /** What was last published for an entry was published for its key. */
  lemma LastIsOfKey(config: Config, events: seq<Event>, e: nat, g: Good)
    requires config.Valid() && LastOfEntry(Run(config, events).goods, e) == Some(g)
    ensures var s := Run(config, events); g in s.goods && e < |s.cache.heap| && g.key == s.cache.heap[e].key
  {
    var s := Run(config, events);
    LastIsGood(s.goods, e);
    var i :| 0 <= i < |s.goods| && s.goods[i] == g;
    assert Provenance(s);
  }

  lemma {:induction false} LastIsGood(goods: seq<Good>, e: nat)
    ensures forall g | LastOfEntry(goods, e) == Some(g) :: g in goods && g.entry == e
    decreases |goods|
  {
    if goods != [] {
      LastIsGood(goods[..|goods| - 1], e);
      assert forall g | g in goods[..|goods| - 1] :: g in goods;
    }
  }

  /** Back-off: a fetch only ever starts when the last failure of the entry is `error_ttl` ago. */
  lemma BackOff(config: Config, events: seq<Event>, key: Key)
    requires config.Valid()
    ensures var s := Run(config, events);
      var d := Decide(config, s.cache, key, s.now).1;
      d.Fetch? && d.entry in s.lastFailure ==> s.now - s.lastFailure[d.entry] >= config.errorTtl
  {
    BackOffAt(config, Run(config, events), key);
  }

  lemma BackOffAt(config: Config, s: System, key: Key)
    requires config.Valid() && Invariant(config, s)
    ensures var d := Decide(config, s.cache, key, s.now).1;
      d.Fetch? && d.entry in s.lastFailure ==> s.now - s.lastFailure[d.entry] >= config.errorTtl
  {
    var r := Touch(config, s.cache, key);
    TouchFacts(config, s.cache, key);
    TouchKeepsBackOff(config, s, r, key);
  }

  /** After an insertion the size fits, or the least recently used entry is in flight. */
  lemma SizeAfterInsert(config: Config, c: Cache, key: Key, now: real)
    requires config.Valid() && Consistent(c) && key !in c.table
    ensures var r := Decide(config, c, key, now).0;
      && r.order != [] && r.order[|r.order| - 1] == key
      && (|r.order| <= config.maxEntries || r.heap[r.table[r.order[0]]].flight.Some?)
  {
    AddedSize(config, c, key);
    DecideKeepsSize(config, Touch(config, c, key), key, now);
  }

  lemma AddedSize(config: Config, c: Cache, key: Key)
    requires config.Valid() && Consistent(c) && key !in c.table
    ensures var r := Added(config, c, key);
      && r.order != [] && r.order[|r.order| - 1] == key && r.order[0] in r.table
      && (|r.order| <= config.maxEntries || r.heap[r.table[r.order[0]]].flight.Some?)
  {
    InsertConsistent(c, key);
    EvictStops(config, Insert(c, key));
    EvictKeepsLast(config, Insert(c, key));
  }

  lemma DecideKeepsSize(config: Config, c: Cache, key: Key, now: real)
    requires Consistent(c) && key in c.table
    ensures var r := DecideAt(config, c, key, now).0;
      && r.order == c.order && r.table == c.table && |r.heap| == |c.heap|
      && (forall e | 0 <= e < |c.heap| && c.heap[e].flight.Some? :: r.heap[e].flight.Some?)
      && c.order != [] && c.order[0] in c.table
  {
    assert key in c.order;
  }
}
