/**
 The crawl sessions of storage.py: rows that several processes begin, refresh, end and
 interrupt. Times are whole seconds.
 */
module CrawlSessions {
  import opened Wrappers

  datatype Status = Running | Completed | Stopped | Failed | Interrupted

  /** The texts of `error`: those of `_interrupt_stale`, or one that the caller gives. */
  datatype Reason = NeverEnded | Restarted | Silent(owner: string, since: Option<int>) | Given(text: string)

  datatype Row = Row(
    seeds: seq<string>, status: Status, owner: Option<string>, startedAt: Option<int>,
    heartbeatAt: Option<int>, endedAt: Option<int>, error: Option<Reason>, pages: int, hits: int)

  const UNOWNED_MAX_AGE := 24 * 60 * 60

  function NewRow(seeds: seq<string>, owner: Option<string>, beat: Option<int>, now: int): Row {
    Row(seeds, Running, owner, Some(now), beat, None, None, 0, 0)
  }

  /** A crawl: what `begin_crawl_session` allows only one of. */
  predicate IsCrawl(row: Row) {
    row.status.Running? && row.owner.Some?
  }

  function Beat(row: Row, pages: Option<int>, hits: Option<int>, now: int): Row {
    if !row.status.Running? then row
    else row.(heartbeatAt := Some(now),
              pages := if pages.Some? then pages.value else row.pages,
              hits := if hits.Some? then hits.value else row.hits)
  }

  /** Where the code tests the owner itself, an empty one is none. */
  predicate Named(owner: Option<string>) {
    owner.Some? && owner.value != ""
  }

  datatype BeatOf = BeatOf(pages: Option<int>, hits: Option<int>, now: int)

  function Beats(row: Row, beats: seq<BeatOf>): Row {
    if beats == [] then row
    else
      var last := beats[|beats| - 1];
      Beat(Beats(row, beats[..|beats| - 1]), last.pages, last.hits, last.now)
  }

  /** The count was last given by heartbeat `k`; or by none of them, and is what it was. */
  ghost predicate LastGiven(counts: seq<Option<int>>, k: int, was: int, count: int) {
    && -1 <= k < |counts|
    && (forall i | k < i < |counts| :: counts[i].None?)
    && if k == -1 then count == was else counts[k] == Some(count)
  }

  function PagesOf(beats: seq<BeatOf>): seq<Option<int>> {
    seq(|beats|, i requires 0 <= i < |beats| => beats[i].pages)
  }

  function HitsOf(beats: seq<BeatOf>): seq<Option<int>> {
    seq(|beats|, i requires 0 <= i < |beats| => beats[i].hits)
  }

  lemma GivenNext(counts: seq<Option<int>>, k: int, was: int, count: int, next: Option<int>) returns (later: int)
    requires LastGiven(counts, k, was, count)
    ensures LastGiven(counts + [next], later, was, if next.Some? then next.value else count)
  {
    later := if next.Some? then |counts| else k;
  }

  /** After any heartbeats of a running session, each of its counts is the one that was last given for it. */
  lemma {:induction false} BeatsCount(row: Row, beats: seq<BeatOf>) returns (p: int, h: int)
    requires row.status.Running?
    ensures var after := Beats(row, beats);
      && LastGiven(PagesOf(beats), p, row.pages, after.pages) && LastGiven(HitsOf(beats), h, row.hits, after.hits)
      && after.heartbeatAt == (if beats == [] then row.heartbeatAt else Some(beats[|beats| - 1].now))
      && after == row.(pages := after.pages, hits := after.hits, heartbeatAt := after.heartbeatAt)
    decreases |beats|
  {
    p, h := -1, -1;
    if beats != [] {
      var n := |beats| - 1;
      var before := Beats(row, beats[..n]);
      p, h := BeatsCount(row, beats[..n]);
      p := GivenNext(PagesOf(beats[..n]), p, row.pages, before.pages, beats[n].pages);
      h := GivenNext(HitsOf(beats[..n]), h, row.hits, before.hits, beats[n].hits);
      assert PagesOf(beats) == PagesOf(beats[..n]) + [beats[n].pages];
      assert HitsOf(beats) == HitsOf(beats[..n]) + [beats[n].hits];
    }
  }

  predicate KeepsItsEnd(row: Row) {
    Named(row.owner) && row.status.Interrupted?
  }

  function End(row: Row, pages: int, hits: int, status: Status, error: Option<Reason>, now: int): Row {
    var counted := row.(pages := pages, hits := hits);
    if KeepsItsEnd(row) then counted
    else counted.(endedAt := Some(now), status := status, error := error)
  }

  // ---------------------------------------------------------------- one pass over stale sessions

  /** What a pass of `_interrupt_stale` fixes at its start. */
  datatype Pass = Pass(now: int, staleAfter: nat, idleOwner: Option<string>) {
    function Cutoff(): int { now - staleAfter }
    function UnownedCutoff(): int { now - UNOWNED_MAX_AGE }
  }

  /** What the pass decides on the row it has read; a silent owner is looked at again by the update. */
  datatype Judgement = Leave | Interrupt(reason: Reason)

  function Judge(pass: Pass, read: Row): Judgement {
    if read.owner.None? then
      if read.startedAt.Some? && read.startedAt.value >= pass.UnownedCutoff() then Leave else Interrupt(NeverEnded)
    else if pass.idleOwner.Some? && read.owner == pass.idleOwner then Interrupt(Restarted)
    else
      var beat := if read.heartbeatAt.Some? then read.heartbeatAt else read.startedAt;
      if beat.Some? && beat.value >= pass.Cutoff() then Leave
      else Interrupt(Silent(read.owner.value, beat))
  }

  /** The conditional update. */
  function Settle(pass: Pass, judgement: Judgement, row: Row): Row {
    if judgement.Leave? || !row.status.Running? then row
    else if judgement.reason.Silent? && row.heartbeatAt.Some? && row.heartbeatAt.value >= pass.Cutoff() then row
    else row.(status := Interrupted, endedAt := Some(pass.now), error := Some(judgement.reason))
  }

  /** A session that a pass has no reason to end. */
  predicate Alive(pass: Pass, row: Row) {
    if row.owner.None? then row.startedAt.Some? && row.startedAt.value >= pass.UnownedCutoff()
    else
      && row.owner != pass.idleOwner
      && var beat := (if row.heartbeatAt.Some? then row.heartbeatAt else row.startedAt);
         beat.Some? && beat.value >= pass.Cutoff()
  }

  /** Why a session ended: nobody owned it, its owner has started again, or its owner has been silent since a time. */
  function ReasonFor(pass: Pass, row: Row): Reason {
    match row.owner
    case None => NeverEnded
    case Some(owner) =>
      if pass.idleOwner == Some(owner) then Restarted
      else Silent(owner, if row.heartbeatAt.Some? then row.heartbeatAt else row.startedAt)
  }

  /** Without a heartbeat in between, a pass ends exactly the running sessions that are not alive. */
  function Swept(pass: Pass, row: Row): (after: Row)
    ensures after.status.Running? <==> row.status.Running? && Alive(pass, row)
    ensures after != row <==> row.status.Running? && !Alive(pass, row)
    ensures after == row || (after.status.Interrupted? && after.error.Some?)
  {
    if row.status.Running? then Settle(pass, Judge(pass, row), row) else row
  }

  /** It ends a session with its reason, and changes nothing else of it. */
  lemma SweptHasReason(pass: Pass, row: Row)
    requires row.status.Running? && !Alive(pass, row)
    ensures Swept(pass, row)
         == row.(status := Interrupted, endedAt := Some(pass.now), error := Some(ReasonFor(pass, row)))
  {
  }

  /** The sessions with a number below `n` that a pass ends. */
  function Ended(pass: Pass, rows: map<nat, Row>, n: nat): set<nat> {
    set id | id in rows && id < n && Swept(pass, rows[id]) != rows[id]
  }

  lemma EndedNext(pass: Pass, rows: map<nat, Row>, n: nat)
    ensures |Ended(pass, rows, n + 1)|
         == |Ended(pass, rows, n)| + (if n in rows && Swept(pass, rows[n]) != rows[n] then 1 else 0)
  {
    var before, after := Ended(pass, rows, n), Ended(pass, rows, n + 1);
    if n in rows && Swept(pass, rows[n]) != rows[n] {
      assert after == before + {n};
    } else {
      assert after == before;
    }
  }

  // ---------------------------------------------------------------- the table, one caller at a time

  class SessionTable {
    var rows: map<nat, Row>
    var next: nat

    ghost predicate Valid()
      reads this
    {
      forall id | id in rows :: id < next
    }

    constructor ()
      ensures Valid() && rows == map[]
    {
      rows, next := map[], 1;
    }

    method Create(seeds: seq<string>, owner: Option<string>, now: int) returns (id: nat)
      requires Valid()
      modifies this
      ensures Valid() && id !in old(rows)
      ensures var beat := if Named(owner) then Some(now) else None;
        rows == old(rows)[id := Row(seeds, Running, owner, Some(now), beat, None, None, 0, 0)]
    {
      id := next;
      rows := rows[id := NewRow(seeds, owner, if Named(owner) then Some(now) else None, now)];
      next := next + 1;
    }

    method Heartbeat(id: nat, pages: Option<int>, hits: Option<int>, now: int) returns (running: bool)
      requires Valid()
      modifies this
      ensures Valid()
      ensures running <==> id in old(rows) && old(rows)[id].status.Running?
      ensures rows == if id in old(rows) then old(rows)[id := Beat(old(rows)[id], pages, hits, now)] else old(rows)
    {
      running := id in rows && rows[id].status.Running?;
      ghost var before := rows;
      if running {
        var row := rows[id];
        row := row.(heartbeatAt := Some(now));
        if pages.Some? {
          row := row.(pages := pages.value);
        }
        if hits.Some? {
          row := row.(hits := hits.value);
        }
        rows := rows[id := row];
      }
      assert id in before && !running ==> rows == before[id := before[id]];
    }

    method Update(id: nat, pages: int, hits: int, status: Status, error: Option<Reason>, now: int)
      requires Valid()
      modifies this
      ensures Valid()
      ensures rows == if id in old(rows) then old(rows)[id := End(old(rows)[id], pages, hits, status, error, now)]
                      else old(rows)
      ensures id in old(rows) ==>
        var was, row := old(rows)[id], rows[id];
        if Named(was.owner) && was.status.Interrupted? then row == was.(pages := pages, hits := hits)
        else row == Row(was.seeds, status, was.owner, was.startedAt, was.heartbeatAt, Some(now), error, pages, hits)
    {
      if id in rows {
        var row := rows[id].(pages := pages, hits := hits);
        if !(Named(row.owner) && row.status.Interrupted?) {
          row := row.(endedAt := Some(now), status := status, error := error);
        }
        rows := rows[id := row];
      }
    }

    method InterruptStale(pass: Pass) returns (changed: nat)
      requires Valid()
      modifies this`rows
      ensures Valid() && rows.Keys == old(rows).Keys
      ensures forall id | id in rows :: rows[id] == Swept(pass, old(rows)[id])
      ensures changed == |set id | id in rows && rows[id] != old(rows)[id]|
    {
      var read := rows;
      changed := 0;
      for id := 0 to next
        invariant rows.Keys == read.Keys
        invariant forall i | i in rows :: rows[i] == if i < id then Swept(pass, read[i]) else read[i]
        invariant changed == |Ended(pass, read, id)|
      {
        EndedNext(pass, read, id);
        if id in read && read[id].status.Running? {
          var row := Settle(pass, Judge(pass, read[id]), rows[id]);
          changed := changed + if row != rows[id] then 1 else 0;
          rows := rows[id := row];
        }
      }
      assert (set id | id in rows && rows[id] != old(rows)[id]) == Ended(pass, read, next);
    }

    /** A crawl begins if and only if no session of a crawl is alive. */
    method Begin(seeds: seq<string>, owner: string, staleAfter: nat, now: int) returns (begun: Option<nat>)
      requires Valid()
      modifies this
      ensures Valid()
      ensures var pass := Pass(now, staleAfter, None);
        && (begun.None? <==> exists id :: id in old(rows) && IsCrawl(old(rows)[id]) && Alive(pass, old(rows)[id]))
        && (forall id | id in old(rows) :: id in rows && rows[id] == Swept(pass, old(rows)[id]))
        && (begun.None? ==> rows.Keys == old(rows).Keys)
        && (begun.Some? ==> begun.value !in old(rows) && rows.Keys == old(rows).Keys + {begun.value})
        && (begun.Some? ==>
              rows[begun.value] == Row(seeds, Running, Some(owner), Some(now), Some(now), None, None, 0, 0))
    {
      var pass := Pass(now, staleAfter, None);
      var _ := InterruptStale(pass);
      var running := exists id :: id in rows && IsCrawl(rows[id]);
      if running {
        return None;
      }
      begun := Some(next);
      rows := rows[next := NewRow(seeds, Some(owner), Some(now), now)];
      next := next + 1;
    }
  }
}
