/**
 Crawl sessions over all interleavings of the processes that use them. A pass over stale
 sessions takes its time, reads the running sessions and ends them one by one, and other
 steps come in between. The lock of `begin_crawl_session` covers its pass, its check and
 its insertion. `update_crawl_session` reads the row, and writes what it has changed later.
 */
module CrawlRuns {
  import opened Wrappers
  import opened CrawlSessions

  datatype Claim = ForCrawl(seeds: seq<string>, owner: string) | ForCleanup(idleOwner: Option<string>)

  /** `left` holds the sessions that the pass has read and not settled yet. */
  datatype Worker =
    | Starting(claim: Claim, staleAfter: nat)
    | Reading(claim: Claim, pass: Pass)
    | Sweeping(claim: Claim, pass: Pass, read: map<nat, Row>, left: set<nat>)
    | Inserting(claim: Claim)

  /** The end of a session that was read and is not written yet. */
  datatype Ending = Ending(
    id: nat, read: Row, pages: int, hits: int, status: Status, error: Option<Reason>, at: int)
  {
    function Wanted(): Row { End(read, pages, hits, status, error, at) }
  }

  datatype System = System(
    rows: map<nat, Row>, next: nat, workers: map<nat, Worker>, endings: map<nat, Ending>, lock: Option<nat>, clock: int,
    locking: bool)

  datatype Event =
    | Tick(seconds: nat)
    | Create(seeds: seq<string>)
    | Start(worker: nat, claim: Claim, staleAfter: nat)
    | TakeTime(worker: nat)
    | Read(worker: nat)
    | SettleOne(worker: nat, id: nat)
    | Check(worker: nat)
    | Insert(worker: nat)
    | Heartbeat(id: nat, newPages: Option<int>, newHits: Option<int>)
    | ReadEnd(writer: nat, id: nat, pages: int, hits: int, status: Status, error: Option<Reason>)
    | WriteEnd(writer: nat)

  /** Whether the database has the lock is a fact about it: PostgreSQL does. */
  function Empty(clock: int, locking: bool): System {
    System(map[], 1, map[], map[], None, clock, locking)
  }

  /** An event that is not possible changes nothing: a beginning waits while another one holds the lock. */
  predicate Possible(s: System, ev: Event) {
    match ev
    case Tick(_) => true
    case Create(_) => true
    case Start(w, claim, _) => w !in s.workers && (claim.ForCrawl? ==> s.lock.None?)
    case TakeTime(w) => w in s.workers && s.workers[w].Starting?
    case Read(w) => w in s.workers && s.workers[w].Reading?
    case SettleOne(w, id) => w in s.workers && s.workers[w].Sweeping? && id in s.workers[w].left
    case Check(w) => w in s.workers && s.workers[w].Sweeping? && s.workers[w].left == {}
    case Insert(w) => w in s.workers && s.workers[w].Inserting?
    case Heartbeat(id, _, _) => id in s.rows
    case ReadEnd(w, id, _, _, status, _) => w !in s.endings && id in s.rows && !status.Running?
    case WriteEnd(w) => w in s.endings && s.endings[w].id in s.rows
  }

  ghost predicate CrawlIsRunning(rows: map<nat, Row>) {
    exists id :: id in rows && IsCrawl(rows[id])
  }

  function IdleOwner(claim: Claim): Option<string> {
    if claim.ForCrawl? then None else claim.idleOwner
  }

  function WithRow(s: System, id: nat, row: Row): System {
    s.(rows := s.rows[id := row])
  }

  function WithWorker(s: System, w: nat, worker: Worker): System {
    s.(workers := s.workers[w := worker])
  }

  /** The worker is done: its transaction ends, and with it its lock. */
  function Without(s: System, w: nat): System {
    s.(workers := s.workers - {w}, lock := if s.lock == Some(w) then None else s.lock)
  }

  function StartStep(s: System, w: nat, claim: Claim, staleAfter: nat): System {
    WithWorker(s.(lock := if claim.ForCrawl? && s.locking then Some(w) else s.lock), w, Starting(claim, staleAfter))
  }

  function RunningRows(rows: map<nat, Row>): map<nat, Row> {
    map id | id in rows && rows[id].status.Running? :: rows[id]
  }

  function ReadStep(s: System, w: nat): System
    requires w in s.workers && s.workers[w].Reading?
  {
    var read := RunningRows(s.rows);
    WithWorker(s, w, Sweeping(s.workers[w].claim, s.workers[w].pass, read, read.Keys))
  }

  function SettledRow(s: System, w: nat, id: nat): Row
    requires w in s.workers && s.workers[w].Sweeping? && id in s.workers[w].read && id in s.rows
  {
    Settle(s.workers[w].pass, Judge(s.workers[w].pass, s.workers[w].read[id]), s.rows[id])
  }

  function SettleStep(s: System, w: nat, id: nat): System
    requires w in s.workers && s.workers[w].Sweeping? && id in s.workers[w].read && id in s.rows
  {
    var worker := s.workers[w];
    WithWorker(WithRow(s, id, SettledRow(s, w, id)), w, worker.(left := worker.left - {id}))
  }

  ghost function CheckStep(s: System, w: nat): System
    requires w in s.workers && s.workers[w].Sweeping?
  {
    var claim := s.workers[w].claim;
    if claim.ForCleanup? || CrawlIsRunning(s.rows) then Without(s, w) else WithWorker(s, w, Inserting(claim))
  }

  function InsertStep(s: System, w: nat): System
    requires w in s.workers && s.workers[w].Inserting? && s.workers[w].claim.ForCrawl?
  {
    var claim := s.workers[w].claim;
    var row := NewRow(claim.seeds, Some(claim.owner), Some(s.clock), s.clock);
    Without(WithRow(s, s.next, row).(next := s.next + 1), w)
  }

  /** A column is written if its value is not the one that was read. */
  function Column<T(==)>(read: T, wanted: T, stored: T): T {
    if wanted == read then stored else wanted
  }

  function Written(e: Ending, row: Row): Row {
    var wanted := e.Wanted();
    row.(pages := Column(e.read.pages, wanted.pages, row.pages), hits := Column(e.read.hits, wanted.hits, row.hits),
         status := Column(e.read.status, wanted.status, row.status),
         error := Column(e.read.error, wanted.error, row.error),
         endedAt := Column(e.read.endedAt, wanted.endedAt, row.endedAt))
  }

  function WriteStep(s: System, w: nat): System
    requires w in s.endings && s.endings[w].id in s.rows
  {
    var e := s.endings[w];
    WithRow(s, e.id, Written(e, s.rows[e.id])).(endings := s.endings - {w})
  }

  ghost function Step(s: System, ev: Event): System
    requires Sane(s)
  {
    if !Possible(s, ev) then s
    else
      match ev
      case Tick(seconds) => s.(clock := s.clock + seconds)
      case Create(seeds) => WithRow(s, s.next, NewRow(seeds, None, None, s.clock)).(next := s.next + 1)
      case Start(w, claim, staleAfter) => StartStep(s, w, claim, staleAfter)
      case TakeTime(w) =>
        var worker := s.workers[w];
        WithWorker(s, w, Reading(worker.claim, Pass(s.clock, worker.staleAfter, IdleOwner(worker.claim))))
      case Read(w) => ReadStep(s, w)
      case SettleOne(w, id) => SettleStep(s, w, id)
      case Check(w) => CheckStep(s, w)
      case Insert(w) => InsertStep(s, w)
      case Heartbeat(id, pages, hits) => WithRow(s, id, Beat(s.rows[id], pages, hits, s.clock))
      case ReadEnd(w, id, pages, hits, status, error) =>
        s.(endings := s.endings[w := Ending(id, s.rows[id], pages, hits, status, error, s.clock)])
      case WriteEnd(w) => WriteStep(s, w)
  }

  // ---------------------------------------------------------------- the invariant

  /** How a row changes: it never runs again, and its heartbeat never goes back. */
  ghost predicate Later(before: Row, after: Row) {
    && after.owner == before.owner && after.startedAt == before.startedAt
    && (after.status.Running? ==> before.status.Running?)
    && (before.heartbeatAt.Some? ==>
          after.heartbeatAt.Some? && before.heartbeatAt.value <= after.heartbeatAt.value)
  }

  /** What a sweep has read is there still, as it was or later. */
  ghost predicate ReadIsThere(rows: map<nat, Row>, worker: Worker)
    requires worker.Sweeping?
  {
    && worker.left <= worker.read.Keys
    && (forall id | id in worker.read :: id in rows && Later(worker.read[id], rows[id]))
    && (forall id | id in worker.read && IsCrawl(worker.read[id]) :: worker.read[id].heartbeatAt.Some?)
  }

  ghost predicate Sane(s: System) {
    forall w | w in s.workers ::
      && (s.workers[w].Sweeping? ==> ReadIsThere(s.rows, s.workers[w]))
      && (s.workers[w].Inserting? ==> s.workers[w].claim.ForCrawl?)
  }

  ghost predicate EndingsAreSound(s: System) {
    forall w | w in s.endings :: s.endings[w].id in s.rows && !s.endings[w].status.Running?
  }

  ghost predicate AtMostOneCrawl(rows: map<nat, Row>) {
    forall i, j | i in rows && j in rows && IsCrawl(rows[i]) && IsCrawl(rows[j]) :: i == j
  }

  ghost predicate TimelyRow(row: Row, clock: int) {
    && (row.heartbeatAt.Some? ==> row.heartbeatAt.value <= clock)
    && (IsCrawl(row) ==> row.heartbeatAt.Some?)
  }

  ghost predicate Timely(s: System) {
    forall id | id in s.rows :: id < s.next && TimelyRow(s.rows[id], s.clock)
  }

  ghost predicate LockIsHeld(s: System) {
    && s.locking
    && (forall w | w in s.workers :: s.workers[w].claim.ForCrawl? <==> s.lock == Some(w))
    && (s.lock.Some? ==> s.lock.value in s.workers)
  }

  /** What a pass has settled is ended or alive; a beginning has read every crawl that runs. */
  ghost predicate SweepIsSound(rows: map<nat, Row>, worker: Worker)
    requires worker.Sweeping? && ReadIsThere(rows, worker)
  {
    && (forall id | id in worker.read && id !in worker.left && rows[id].status.Running? :: Alive(worker.pass, rows[id]))
    && (worker.claim.ForCrawl? ==> forall id | id in rows && IsCrawl(rows[id]) :: id in worker.read)
  }

  ghost predicate WorkerIsSound(rows: map<nat, Row>, clock: int, worker: Worker)
    requires worker.Sweeping? ==> ReadIsThere(rows, worker)
  {
    && (worker.Reading? || worker.Sweeping? ==>
          worker.pass.now <= clock && worker.pass.idleOwner == IdleOwner(worker.claim))
    && (worker.Sweeping? ==> SweepIsSound(rows, worker))
    && (worker.Inserting? ==> worker.claim.ForCrawl? && !CrawlIsRunning(rows))
  }

  ghost predicate WorkersAreSound(s: System)
    requires Sane(s)
  {
    forall w | w in s.workers :: WorkerIsSound(s.rows, s.clock, s.workers[w])
  }

  ghost predicate Invariant(s: System) {
    && Sane(s) && EndingsAreSound(s)
    && AtMostOneCrawl(s.rows) && Timely(s) && LockIsHeld(s) && WorkersAreSound(s)
  }

  // ---------------------------------------------------------------- what happens to one row

  lemma BeatIsLater(row: Row, pages: Option<int>, hits: Option<int>, now: int)
    requires TimelyRow(row, now)
    ensures Later(row, Beat(row, pages, hits, now)) && TimelyRow(Beat(row, pages, hits, now), now)
  {
  }

  lemma WrittenIsLater(e: Ending, row: Row, now: int)
    requires !e.status.Running? && TimelyRow(row, now)
    ensures Later(row, Written(e, row)) && TimelyRow(Written(e, row), now)
  {
  }

  lemma SettleIsLater(pass: Pass, judgement: Judgement, row: Row, now: int)
    requires TimelyRow(row, now)
    ensures var after := Settle(pass, judgement, row); Later(row, after) && TimelyRow(after, now)
  {
  }

  /** A row that was alive for a pass and runs on is alive still. */
  lemma LaterIsAlive(pass: Pass, before: Row, after: Row)
    requires Later(before, after) && after.status.Running? && Alive(pass, before)
    requires IsCrawl(before) ==> before.heartbeatAt.Some?
    ensures Alive(pass, after)
  {
  }

  /** Whatever came in between, what a pass has judged and settled is ended or alive. */
  lemma SettledIsAlive(pass: Pass, read: Row, row: Row)
    requires Later(read, row) && (IsCrawl(read) ==> read.heartbeatAt.Some?)
    requires Settle(pass, Judge(pass, read), row).status.Running?
    ensures Alive(pass, Settle(pass, Judge(pass, read), row))
  {
  }

  lemma LaterIsTransitive(a: Row, b: Row, c: Row)
    requires Later(a, b) && Later(b, c)
    ensures Later(a, c)
  {
  }

  // ---------------------------------------------------------------- every step keeps the invariant

  ghost predicate RowsLater(before: map<nat, Row>, after: map<nat, Row>) {
    forall id | id in before :: id in after && Later(before[id], after[id])
  }

  ghost predicate NoNewCrawl(before: map<nat, Row>, after: map<nat, Row>) {
    forall id | id in after && IsCrawl(after[id]) :: id in before
  }

  lemma ReadStays(before: map<nat, Row>, after: map<nat, Row>, worker: Worker)
    requires worker.Sweeping? && ReadIsThere(before, worker) && RowsLater(before, after)
    ensures ReadIsThere(after, worker)
  {
    forall id | id in worker.read ensures id in after && Later(worker.read[id], after[id]) {
      LaterIsTransitive(worker.read[id], before[id], after[id]);
    }
  }

  lemma SweepStays(before: map<nat, Row>, after: map<nat, Row>, worker: Worker)
    requires worker.Sweeping? && ReadIsThere(before, worker) && ReadIsThere(after, worker)
    requires SweepIsSound(before, worker) && RowsLater(before, after)
    requires forall id | id in before && IsCrawl(before[id]) :: before[id].heartbeatAt.Some?
    requires worker.claim.ForCrawl? ==> NoNewCrawl(before, after)
    ensures SweepIsSound(after, worker)
  {
    forall id | id in worker.read && id !in worker.left && after[id].status.Running?
      ensures Alive(worker.pass, after[id])
    {
      LaterIsAlive(worker.pass, before[id], after[id]);
    }
    if worker.claim.ForCrawl? {
      forall id | id in after && IsCrawl(after[id]) ensures id in worker.read {
        assert IsCrawl(before[id]);
      }
    }
  }

  /** Other steps leave a worker sound, as long as no crawl begins while it has the lock. */
  lemma WorkerStays(before: map<nat, Row>, after: map<nat, Row>, clock: int, time: int, worker: Worker)
    requires worker.Sweeping? ==> ReadIsThere(before, worker)
    requires WorkerIsSound(before, clock, worker) && RowsLater(before, after) && clock <= time
    requires forall id | id in before && IsCrawl(before[id]) :: before[id].heartbeatAt.Some?
    requires worker.claim.ForCrawl? ==> NoNewCrawl(before, after)
    ensures worker.Sweeping? ==> ReadIsThere(after, worker)
    ensures WorkerIsSound(after, time, worker)
  {
    if worker.Sweeping? {
      ReadStays(before, after, worker);
      SweepStays(before, after, worker);
    }
  }

  /** Workers other than the one that moves are the same, and as sound as before. */
  lemma OthersStay(s: System, t: System, mover: Option<nat>)
    requires Invariant(s) && RowsLater(s.rows, t.rows) && s.clock <= t.clock
    requires forall v | v in t.workers && Some(v) != mover :: v in s.workers && t.workers[v] == s.workers[v]
    requires NoNewCrawl(s.rows, t.rows) || (s.lock.Some? && s.lock == mover)
    ensures forall v | v in t.workers && Some(v) != mover ::
              && (t.workers[v].Sweeping? ==> ReadIsThere(t.rows, t.workers[v]))
              && WorkerIsSound(t.rows, t.clock, t.workers[v])
  {
    forall v | v in t.workers && Some(v) != mover
      ensures t.workers[v].Sweeping? ==> ReadIsThere(t.rows, t.workers[v])
      ensures WorkerIsSound(t.rows, t.clock, t.workers[v])
    {
      WorkerStays(s.rows, t.rows, s.clock, t.clock, s.workers[v]);
    }
  }

  lemma RowStep(s: System, id: nat, row: Row)
    requires Invariant(s) && id in s.rows && Later(s.rows[id], row) && TimelyRow(row, s.clock)
    ensures RowsLater(s.rows, WithRow(s, id, row).rows) && Invariant(WithRow(s, id, row))
  {
    var t := WithRow(s, id, row);
    assert RowsLater(s.rows, t.rows) && NoNewCrawl(s.rows, t.rows);
    OthersStay(s, t, None);
  }

  lemma RowsStay(rows: map<nat, Row>)
    ensures RowsLater(rows, rows) && NoNewCrawl(rows, rows)
  {
  }

  /** One worker changes, the rows do not. */
  lemma WorkerStep(s: System, t: System, w: nat)
    requires Invariant(s) && t.rows == s.rows && t.next == s.next && t.clock == s.clock && t.endings == s.endings
    requires forall v | v in t.workers && v != w :: v in s.workers && t.workers[v] == s.workers[v]
    requires w in t.workers ==>
               && (t.workers[w].Sweeping? ==> ReadIsThere(t.rows, t.workers[w]))
               && WorkerIsSound(t.rows, t.clock, t.workers[w])
    requires LockIsHeld(t)
    ensures Invariant(t)
  {
    RowsStay(s.rows);
    OthersStay(s, t, Some(w));
  }

  lemma TickStep(s: System, seconds: nat)
    requires Invariant(s)
    ensures Invariant(s.(clock := s.clock + seconds))
  {
    RowsStay(s.rows);
    OthersStay(s, s.(clock := s.clock + seconds), None);
  }

  lemma CreateStep(s: System, seeds: seq<string>)
    requires Invariant(s)
    ensures var t := Step(s, Create(seeds)); RowsLater(s.rows, t.rows) && Invariant(t)
  {
    var t := Step(s, Create(seeds));
    assert RowsLater(s.rows, t.rows) && NoNewCrawl(s.rows, t.rows);
    OthersStay(s, t, None);
  }

  lemma StartKeeps(s: System, w: nat, claim: Claim, staleAfter: nat)
    requires Invariant(s) && w !in s.workers && (claim.ForCrawl? ==> s.lock.None?)
    ensures Invariant(StartStep(s, w, claim, staleAfter))
  {
    WorkerStep(s, StartStep(s, w, claim, staleAfter), w);
  }

  lemma TakeTimeKeeps(s: System, w: nat)
    requires Invariant(s) && w in s.workers && s.workers[w].Starting?
    ensures Invariant(Step(s, TakeTime(w)))
  {
    WorkerStep(s, Step(s, TakeTime(w)), w);
  }

  lemma ReadKeeps(s: System, w: nat)
    requires Invariant(s) && w in s.workers && s.workers[w].Reading?
    ensures Invariant(ReadStep(s, w))
  {
    WorkerStep(s, ReadStep(s, w), w);
  }

  lemma SettleKeeps(s: System, w: nat, id: nat)
    requires Invariant(s) && w in s.workers && s.workers[w].Sweeping? && id in s.workers[w].left
    ensures RowsLater(s.rows, SettleStep(s, w, id).rows) && Invariant(SettleStep(s, w, id))
  {
    var worker, row := s.workers[w], SettledRow(s, w, id);
    SettleIsLater(worker.pass, Judge(worker.pass, worker.read[id]), s.rows[id], s.clock);
    RowStep(s, id, row);
    if row.status.Running? {
      SettledIsAlive(worker.pass, worker.read[id], s.rows[id]);
    }
    WorkerStep(WithRow(s, id, row), SettleStep(s, w, id), w);
  }

  lemma WithoutKeeps(s: System, w: nat)
    requires Invariant(s)
    ensures Invariant(Without(s, w))
  {
    WorkerStep(s, Without(s, w), w);
  }

  lemma CheckKeeps(s: System, w: nat)
    requires Invariant(s) && w in s.workers && s.workers[w].Sweeping?
    ensures Invariant(CheckStep(s, w))
  {
    WithoutKeeps(s, w);
    if s.workers[w].claim.ForCrawl? && !CrawlIsRunning(s.rows) {
      WorkerStep(s, CheckStep(s, w), w);
    }
  }

  lemma InsertKeeps(s: System, w: nat)
    requires Invariant(s) && w in s.workers && s.workers[w].Inserting?
    ensures RowsLater(s.rows, InsertStep(s, w).rows) && Invariant(InsertStep(s, w))
  {
    var t := InsertStep(s, w);
    assert WorkerIsSound(s.rows, s.clock, s.workers[w]);
    assert RowsLater(s.rows, t.rows);
    OthersStay(s, t, Some(w));
  }

  lemma EndingsChange(s: System, endings: map<nat, Ending>)
    requires Invariant(s) && EndingsAreSound(s.(endings := endings))
    ensures Invariant(s.(endings := endings))
  {
    RowsStay(s.rows);
    OthersStay(s, s.(endings := endings), None);
  }

  lemma WriteKeeps(s: System, w: nat)
    requires Invariant(s) && w in s.endings
    ensures RowsLater(s.rows, WriteStep(s, w).rows) && Invariant(WriteStep(s, w))
  {
    var e := s.endings[w];
    WrittenIsLater(e, s.rows[e.id], s.clock);
    RowStep(s, e.id, Written(e, s.rows[e.id]));
    EndingsChange(WithRow(s, e.id, Written(e, s.rows[e.id])), s.endings - {w});
  }

  lemma StepKeeps(s: System, ev: Event)
    requires Invariant(s)
    ensures Invariant(Step(s, ev)) && RowsLater(s.rows, Step(s, ev).rows)
  {
    RowsStay(s.rows);
    if Possible(s, ev) {
      match ev
      case Tick(seconds) => TickStep(s, seconds);
      case Create(seeds) => CreateStep(s, seeds);
      case Start(w, claim, staleAfter) => StartKeeps(s, w, claim, staleAfter);
      case TakeTime(w) => TakeTimeKeeps(s, w);
      case Read(w) => ReadKeeps(s, w);
      case SettleOne(w, id) => SettleKeeps(s, w, id);
      case Check(w) => CheckKeeps(s, w);
      case Insert(w) => InsertKeeps(s, w);
      case Heartbeat(id, pages, hits) =>
        BeatIsLater(s.rows[id], pages, hits, s.clock);
        RowStep(s, id, Beat(s.rows[id], pages, hits, s.clock));
      case ReadEnd(w, id, pages, hits, status, error) =>
        EndingsChange(s, s.endings[w := Ending(id, s.rows[id], pages, hits, status, error, s.clock)]);
      case WriteEnd(w) => WriteKeeps(s, w);
    }
  }

  // ---------------------------------------------------------------- runs

  ghost function Run(s: System, events: seq<Event>): (t: System)
    requires Invariant(s)
    ensures Invariant(t)
    decreases |events|
  {
    if events == [] then s
    else
      var before := Run(s, events[..|events| - 1]);
      StepKeeps(before, events[|events| - 1]);
      Step(before, events[|events| - 1])
  }

  lemma EmptyIsSound(clock: int)
    ensures Invariant(Empty(clock, true))
  {
  }

  /** With the lock, whatever the processes do, in whatever order: never two crawls at once. */
  lemma OneCrawl(clock: int, events: seq<Event>, i: nat, j: nat)
    ensures Invariant(Empty(clock, true))
    ensures var rows := Run(Empty(clock, true), events).rows;
      i in rows && j in rows && IsCrawl(rows[i]) && IsCrawl(rows[j]) ==> i == j
  {
    EmptyIsSound(clock);
  }

  // ---------------------------------------------------------------- a database without the lock

  ghost predicate Leads(s: System, events: seq<Event>, t: System)
    decreases |events|
  {
    if events == [] then s == t else Sane(s) && Leads(Step(s, events[0]), events[1..], t)
  }

  lemma LeadsFrom(s: System, ev: Event, events: seq<Event>, t: System)
    requires Sane(s) && Leads(Step(s, ev), events, t)
    ensures Leads(s, [ev] + events, t)
  {
    assert ([ev] + events)[1..] == events;
  }

  function Look(w: nat, claim: Claim): seq<Event> {
    [Start(w, claim, 60)] + ([TakeTime(w)] + ([Read(w)] + [Check(w)]))
  }

  function Swept(s: System, w: nat, claim: Claim): System {
    WithWorker(s, w, Sweeping(claim, Pass(s.clock, 60, None), map[], {}))
  }

  lemma WorkerTwice(s: System, w: nat, x: Worker, y: Worker)
    ensures WithWorker(WithWorker(s, w, x), w, y) == WithWorker(s, w, y)
  {
    assert s.workers[w := x][w := y] == s.workers[w := y];
  }

  lemma ReadsNothing(s: System, w: nat, claim: Claim)
    requires s.rows == map[]
    ensures ReadStep(WithWorker(s, w, Reading(claim, Pass(s.clock, 60, None))), w) == Swept(s, w, claim)
  {
    var worker := Reading(claim, Pass(s.clock, 60, None));
    WorkerTwice(s, w, worker, Sweeping(claim, worker.pass, map[], {}));
    assert RunningRows(s.rows) == map[] && RunningRows(s.rows).Keys == {};
  }

  lemma SweptGoesOn(s: System, w: nat, claim: Claim)
    requires s.rows == map[] && claim.ForCrawl?
    ensures CheckStep(Swept(s, w, claim), w) == WithWorker(s, w, Inserting(claim))
  {
    var c := Swept(s, w, claim);
    WorkerTwice(s, w, c.workers[w], Inserting(claim));
    assert !CrawlIsRunning(c.rows);
  }

  /** A beginning that finds no session goes on. */
  lemma LooksAlone(s: System, w: nat, claim: Claim, events: seq<Event>, t: System)
    requires Sane(s) && s.rows == map[] && !s.locking && s.lock.None? && claim.ForCrawl? && w !in s.workers
    requires Leads(WithWorker(s, w, Inserting(claim)), events, t)
    ensures Leads(s, Look(w, claim) + events, t)
  {
    var later := [Read(w)] + ([Check(w)] + events);
    var starting, reading := Starting(claim, 60), Reading(claim, Pass(s.clock, 60, None));
    ReadsOn(s, w, claim, events, t);
    WorkerTwice(s, w, starting, reading);
    LeadsFrom(WithWorker(s, w, starting), TakeTime(w), later, t);
    LeadsFrom(s, Start(w, claim, 60), [TakeTime(w)] + later, t);
    assert Look(w, claim) + events == [Start(w, claim, 60)] + ([TakeTime(w)] + later);
  }

  lemma ReadsOn(s: System, w: nat, claim: Claim, events: seq<Event>, t: System)
    requires Sane(s) && s.rows == map[] && claim.ForCrawl?
    requires Leads(WithWorker(s, w, Inserting(claim)), events, t)
    ensures Leads(WithWorker(s, w, Reading(claim, Pass(s.clock, 60, None))), [Read(w)] + ([Check(w)] + events), t)
  {
    SweptGoesOn(s, w, claim);
    LeadsFrom(Swept(s, w, claim), Check(w), events, t);
    ReadsNothing(s, w, claim);
    LeadsFrom(WithWorker(s, w, Reading(claim, Pass(s.clock, 60, None))), Read(w), [Check(w)] + events, t);
  }

  /** Without the lock two beginnings may both look before either has written, and two crawls run. */
  lemma UnlockedCrawlsMeet(clock: int, first: Claim, second: Claim) returns (t: System)
    requires first.ForCrawl? && second.ForCrawl?
    ensures Leads(Empty(clock, false), Look(1, first) + (Look(2, second) + ([Insert(1)] + [Insert(2)])), t)
    ensures 1 in t.rows && 2 in t.rows && IsCrawl(t.rows[1]) && IsCrawl(t.rows[2])
  {
    var a := WithWorker(Empty(clock, false), 1, Inserting(first));
    var b := WithWorker(a, 2, Inserting(second));
    var c := InsertStep(b, 1);
    t := InsertStep(c, 2);
    LeadsFrom(c, Insert(2), [], t);
    LeadsFrom(b, Insert(1), [Insert(2)], t);
    LooksAlone(a, 2, second, [Insert(1)] + [Insert(2)], t);
    LooksAlone(Empty(clock, false), 1, first, Look(2, second) + ([Insert(1)] + [Insert(2)]), t);
  }

  lemma {:induction false} RunIsLater(s: System, events: seq<Event>)
    requires Invariant(s)
    ensures RowsLater(s.rows, Run(s, events).rows)
    decreases |events|
  {
    RowsStay(s.rows);
    if events != [] {
      var before := Run(s, events[..|events| - 1]);
      RunIsLater(s, events[..|events| - 1]);
      StepKeeps(before, events[|events| - 1]);
      forall id | id in s.rows ensures id in Run(s, events).rows && Later(s.rows[id], Run(s, events).rows[id]) {
        LaterIsTransitive(s.rows[id], before.rows[id], Run(s, events).rows[id]);
      }
    }
  }

  /** No session that has ended runs again, and no heartbeat of it is taken any more. */
  lemma EndedForGood(s: System, events: seq<Event>, id: nat, pages: Option<int>, hits: Option<int>, now: int)
    requires Invariant(s) && id in s.rows && !s.rows[id].status.Running?
    ensures var rows := Run(s, events).rows;
      id in rows && !rows[id].status.Running? && Beat(rows[id], pages, hits, now) == rows[id]
  {
    RunIsLater(s, events);
  }

  // ---------------------------------------------------------------- interrupted for good

  predicate SameEnd(a: Row, b: Row) {
    a.status == b.status && a.error == b.error && a.endedAt == b.endedAt
  }

  /** The session was interrupted, and whoever is about to write its end has seen that. */
  ghost predicate Kept(s: System, id: nat) {
    && id in s.rows && KeepsItsEnd(s.rows[id])
    && forall w | w in s.endings && s.endings[w].id == id :: KeepsItsEnd(s.endings[w].read)
  }

  lemma KeptStep(s: System, ev: Event, id: nat)
    requires Invariant(s) && Kept(s, id)
    ensures Kept(Step(s, ev), id) && SameEnd(Step(s, ev).rows[id], s.rows[id])
  {
    if Possible(s, ev) {
      match ev
      case WriteEnd(w) => KeptWrite(s, w, id);
      case SettleOne(w, other) => KeptSettle(s, w, other, id);
      case _ => RowIsSame(s, ev, id);
    }
  }

  /** Other steps leave its row alone, and new writers of its end see the interruption. */
  lemma RowIsSame(s: System, ev: Event, id: nat)
    requires Invariant(s) && Possible(s, ev) && !ev.WriteEnd? && !ev.SettleOne?
    requires id in s.rows && KeepsItsEnd(s.rows[id])
    ensures id in Step(s, ev).rows && Step(s, ev).rows[id] == s.rows[id]
    ensures forall w | w in Step(s, ev).endings ::
      (w in s.endings && Step(s, ev).endings[w] == s.endings[w])
      || Step(s, ev).endings[w].id != id || Step(s, ev).endings[w].read == s.rows[id]
  {
  }

  lemma KeptWrite(s: System, w: nat, id: nat)
    requires Invariant(s) && Kept(s, id) && w in s.endings
    ensures Kept(WriteStep(s, w), id) && SameEnd(WriteStep(s, w).rows[id], s.rows[id])
  {
  }

  lemma KeptSettle(s: System, w: nat, other: nat, id: nat)
    requires Invariant(s) && Kept(s, id) && Possible(s, SettleOne(w, other))
    ensures Kept(SettleStep(s, w, other), id) && SameEnd(SettleStep(s, w, other).rows[id], s.rows[id])
  {
  }

  /** From then on its interruption stays, with the reason and the time, whatever happens. */
  lemma {:induction false} InterruptedForGood(s: System, events: seq<Event>, id: nat)
    requires Invariant(s) && Kept(s, id)
    ensures Kept(Run(s, events), id) && SameEnd(Run(s, events).rows[id], s.rows[id])
    decreases |events|
  {
    if events != [] {
      InterruptedForGood(s, events[..|events| - 1], id);
      KeptStep(Run(s, events[..|events| - 1]), events[|events| - 1], id);
    }
  }

  /** The writers of its end have read it running or interrupted, and none of them writes an interruption. */
  ghost predicate Ordinary(s: System, id: nat) {
    forall w | w in s.endings && s.endings[w].id == id ::
      !s.endings[w].status.Interrupted? && (s.endings[w].read.status.Running? || KeepsItsEnd(s.endings[w].read))
  }

  /**
   The condition is exact: an interrupted session keeps its end in every run if and only if no writer of its end has
   read it while it was running.
   */
  lemma InterruptedIff(s: System, id: nat)
    requires Invariant(s) && id in s.rows && KeepsItsEnd(s.rows[id]) && Ordinary(s, id)
    ensures (forall events: seq<Event> :: id in Run(s, events).rows && SameEnd(Run(s, events).rows[id], s.rows[id]))
       <==> !exists w :: w in s.endings && s.endings[w].id == id && s.endings[w].read.status.Running?
  {
    if w :| w in s.endings && s.endings[w].id == id && s.endings[w].read.status.Running? {
      RunOne(s, WriteEnd(w));
      assert Run(s, [WriteEnd(w)]).rows[id].status == s.endings[w].status;
    } else {
      forall events: seq<Event> ensures id in Run(s, events).rows && SameEnd(Run(s, events).rows[id], s.rows[id]) {
        InterruptedForGood(s, events, id);
      }
    }
  }

  lemma RunOne(s: System, ev: Event)
    requires Invariant(s)
    ensures Run(s, [ev]) == Step(s, ev)
  {
    assert [ev][..0] == [] && Run(s, []) == s;
  }

  /**
   And it can fail: where a pass has a reason to end a session, its crawl may read it before that and write its end
   afterwards. The session is then completed, with the reason of an interruption.
   */
  lemma LateEndOverwrites(s: System, sweeper: nat, writer: nat, id: nat, pages: int, hits: int)
    returns (a: System, b: System, c: System)
    requires Invariant(s) && Possible(s, SettleOne(sweeper, id)) && writer !in s.endings
    requires s.rows[id].status.Running? && s.rows[id].error.None? && !Alive(s.workers[sweeper].pass, s.rows[id])
    ensures Invariant(a) && Invariant(b) && Invariant(c)
    ensures a == Step(s, ReadEnd(writer, id, pages, hits, Completed, None))
    ensures b == Step(a, SettleOne(sweeper, id)) && c == Step(b, WriteEnd(writer))
    ensures id in b.rows && id in c.rows
    ensures b.rows[id].status.Interrupted? && b.rows[id].error.Some?
    ensures c.rows[id].status.Completed? && c.rows[id].error == b.rows[id].error
  {
    var ev := ReadEnd(writer, id, pages, hits, Completed, None);
    StepKeeps(s, ev);
    a := Step(s, ev);
    b := PassEnds(a, sweeper, id);
    assert b.endings[writer] == Ending(id, s.rows[id], pages, hits, Completed, None, s.clock);
    c := LateWrite(b, writer);
  }

  lemma PassEnds(s: System, sweeper: nat, id: nat) returns (t: System)
    requires Invariant(s) && Possible(s, SettleOne(sweeper, id))
    requires s.rows[id].status.Running? && !Alive(s.workers[sweeper].pass, s.rows[id])
    ensures t == Step(s, SettleOne(sweeper, id)) && Invariant(t) && t.endings == s.endings
    ensures id in t.rows && t.rows[id].status.Interrupted? && t.rows[id].error.Some?
  {
    t := SettleStep(s, sweeper, id);
    SettleIsExact(s, sweeper, id);
    StepKeeps(s, SettleOne(sweeper, id));
    SettledHasReason(s.workers[sweeper].pass, s.workers[sweeper].read[id], s.rows[id]);
  }

  lemma LateWrite(s: System, writer: nat) returns (t: System)
    requires Invariant(s) && writer in s.endings
    requires var e := s.endings[writer];
      e.read.status.Running? && e.read.error.None? && e.status.Completed? && e.error.None?
    ensures t == Step(s, WriteEnd(writer)) && Invariant(t)
    ensures var id := s.endings[writer].id;
      id in t.rows && t.rows[id].status.Completed? && t.rows[id].error == s.rows[id].error
  {
    t := WriteStep(s, writer);
    StepKeeps(s, WriteEnd(writer));
  }

  lemma SettledHasReason(pass: Pass, read: Row, row: Row)
    requires row.status.Running?
    ensures Settle(pass, Judge(pass, read), row) == row || Settle(pass, Judge(pass, read), row).error.Some?
  {
  }

  /** There is such a state: a session that is silent for longer than a pass allows, which the pass has just read. */
  lemma SilentSession(clock: int, owner: string) returns (s: System)
    ensures Invariant(s) && Possible(s, SettleOne(2, 1)) && s.endings == map[]
    ensures s.rows[1].status.Running? && s.rows[1].error.None? && !Alive(s.workers[2].pass, s.rows[1])
  {
    var row := NewRow([], Some(owner), Some(clock - 61), clock - 61);
    var sweep := Sweeping(ForCleanup(None), Pass(clock, 60, None), map[1 := row], {1});
    s := System(map[1 := row], 2, map[2 := sweep], map[], None, clock, true);
  }

  /**
   Whatever came between the reading and the update, the update ends the session if and only if
   the session is not alive at that moment; a fresh heartbeat keeps it, unless its owner is idle.
   */
  lemma SettleIsExact(s: System, w: nat, id: nat)
    requires Invariant(s) && w in s.workers && s.workers[w].Sweeping? && id in s.workers[w].left
    requires s.rows[id].status.Running?
    ensures Alive(s.workers[w].pass, s.rows[id]) <==> SettledRow(s, w, id).status.Running?
    ensures SettledRow(s, w, id).status.Running? ==> SettledRow(s, w, id) == s.rows[id]
    ensures !SettledRow(s, w, id).status.Running? ==> SettledRow(s, w, id).status.Interrupted?
  {
    var worker := s.workers[w];
    if SettledRow(s, w, id).status.Running? {
      SettledIsAlive(worker.pass, worker.read[id], s.rows[id]);
    }
  }

  /** When a beginning has swept, it goes on if and only if no crawl is alive, and then none runs. */
  lemma BeginsIffNoneAlive(s: System, w: nat)
    requires Invariant(s) && Possible(s, Check(w)) && s.workers[w].claim.ForCrawl?
    ensures var go := w in CheckStep(s, w).workers && CheckStep(s, w).workers[w].Inserting?;
      && (go <==> !exists id :: id in s.rows && IsCrawl(s.rows[id]) && Alive(s.workers[w].pass, s.rows[id]))
      && (go ==> !CrawlIsRunning(s.rows))
  {
    assert WorkerIsSound(s.rows, s.clock, s.workers[w]);
    if CrawlIsRunning(s.rows) {
      var id :| id in s.rows && IsCrawl(s.rows[id]);
      assert Alive(s.workers[w].pass, s.rows[id]);
    }
  }

  // ---------------------------------------------------------------- a crawl that beats is never ended

  /** The session runs, and no pass that is under way has a reason to end it. */
  ghost predicate Safe(s: System, id: nat) {
    && id in s.rows && IsCrawl(s.rows[id])
    && forall w | w in s.workers && (s.workers[w].Reading? || s.workers[w].Sweeping?) ::
         Alive(s.workers[w].pass, s.rows[id])
  }

  /** The crawl does not end itself, and at the start of every pass its heartbeat is recent enough. */
  ghost predicate InTime(s: System, ev: Event, id: nat) {
    && id in s.rows
    && (ev.WriteEnd? && Possible(s, ev) ==> s.endings[ev.writer].id != id)
    && (ev.TakeTime? && Possible(s, ev) ==>
          var worker := s.workers[ev.worker];
          Alive(Pass(s.clock, worker.staleAfter, IdleOwner(worker.claim)), s.rows[id]))
  }

  lemma StaysSafe(s: System, t: System, id: nat)
    requires Invariant(s) && Safe(s, id) && RowsLater(s.rows, t.rows)
    requires t.rows[id].status.Running?
    requires forall w | w in t.workers && (t.workers[w].Reading? || t.workers[w].Sweeping?) ::
               || Alive(t.workers[w].pass, s.rows[id])
               || Alive(t.workers[w].pass, t.rows[id])
    ensures Safe(t, id)
  {
    forall w | w in t.workers && (t.workers[w].Reading? || t.workers[w].Sweeping?)
      ensures Alive(t.workers[w].pass, t.rows[id])
    {
      if Alive(t.workers[w].pass, s.rows[id]) {
        LaterIsAlive(t.workers[w].pass, s.rows[id], t.rows[id]);
      }
    }
  }

  lemma RunsOn(s: System, ev: Event, id: nat)
    requires Invariant(s) && Safe(s, id) && InTime(s, ev, id)
    ensures id in Step(s, ev).rows && Step(s, ev).rows[id].status.Running?
  {
    if ev.SettleOne? && Possible(s, ev) && ev.id == id {
      SettleIsExact(s, ev.worker, id);
    }
  }

  lemma SafeStep(s: System, ev: Event, id: nat)
    requires Invariant(s) && Safe(s, id) && InTime(s, ev, id)
    ensures Safe(Step(s, ev), id)
  {
    StepKeeps(s, ev);
    RunsOn(s, ev, id);
    PassesSeeIt(s, ev, id);
    StaysSafe(s, Step(s, ev), id);
  }

  /** A pass that is new has taken its time while the heartbeat is recent enough. */
  lemma PassesSeeIt(s: System, ev: Event, id: nat)
    requires Invariant(s) && Safe(s, id) && InTime(s, ev, id)
    ensures var workers := Step(s, ev).workers;
      forall w | w in workers && (workers[w].Reading? || workers[w].Sweeping?) :: Alive(workers[w].pass, s.rows[id])
  {
  }

  ghost predicate AlwaysInTime(s: System, events: seq<Event>, id: nat)
    requires Invariant(s)
    decreases |events|
  {
    events == []
    || (AlwaysInTime(s, events[..|events| - 1], id)
        && InTime(Run(s, events[..|events| - 1]), events[|events| - 1], id))
  }

  lemma {:induction false} BeatingIsKept(s: System, events: seq<Event>, id: nat)
    requires Invariant(s) && Safe(s, id) && AlwaysInTime(s, events, id)
    ensures Safe(Run(s, events), id)
    decreases |events|
  {
    if events != [] {
      BeatingIsKept(s, events[..|events| - 1], id);
      SafeStep(Run(s, events[..|events| - 1]), events[|events| - 1], id);
    }
  }
}
