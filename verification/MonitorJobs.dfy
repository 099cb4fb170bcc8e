/**
 Channel Monitor jobs of channel_monitor_routes.py: the one running job is in memory,
 every other one is what its folder says. The server may stop between any two steps; a stop
 inside a locked section leaves what one of the outcomes below leaves.
 */
module MonitorJobs {
  import opened Wrappers

  datatype Id = Id(name: string)

  /** `Archived` is never stored: it is shown for a folder without a usable job.json. */
  datatype Status = Running | Completed | Error | Interrupted | Archived

  datatype Stored = Stored(status: Status, error: Option<string>, endedAt: Option<int>)

  datatype Folder = Folder(state: Option<Stored>)

  const INTERRUPTED := Some("The server restarted while this job was running.")

  /** `active` is the job of `_active`; in memory its status is always running. */
  datatype Store = Store(active: Option<Id>, disk: map<Id, Folder>)

  /** How making a job folder ends: `LeftBehind` is a folder without job.json. */
  datatype Making = Made | NotMade | LeftBehind

  /** How removing a folder ends: it may fail after job.json is gone, or before. */
  datatype Removing = Removed | LeftWithoutState | LeftWhole

  datatype Started = Begun | Busy | NotCreated
  datatype Deletion = Deleted | StillRunning | NotFound | NotDeleted

  /** Whether job.json can be read and written now, and when the folder was last written to. */
  datatype Io = Io(readable: bool, writable: bool, lastWrite: int)

  /** The state that is shown for a folder of a job that does not run. */
  function Settled(state: Option<Stored>, io: Io): Stored {
    if state.None? || !io.readable then Stored(Archived, None, Some(io.lastWrite))
    else if state.value.status.Running? then Stored(Interrupted, INTERRUPTED, Some(io.lastWrite))
    else state.value
  }

  function Show(store: Store, id: Id, io: Io): Option<Stored> {
    if store.active == Some(id) then Some(Stored(Running, None, None))
    else if id !in store.disk then None
    else Some(Settled(store.disk[id].state, io))
  }

  /** Showing stores the interruption of a job that an earlier process left. */
  function AfterShow(store: Store, id: Id, io: Io): Store {
    if store.active == Some(id) || id !in store.disk || store.disk[id].state.None? then store
    else if store.disk[id].state.value.status.Running? && io.readable && io.writable then
      store.(disk := store.disk[id := Folder(Some(Settled(store.disk[id].state, io)))])
    else store
  }

  function AfterStart(store: Store, id: Id, making: Making): Store {
    if store.active.Some? || making.NotMade? then store
    else if making.LeftBehind? then store.(disk := store.disk[id := Folder(None)])
    else Store(Some(id), store.disk[id := Folder(Some(Stored(Running, None, None)))])
  }

  function AfterFinish(store: Store, id: Id, end: Stored, written: bool): Store {
    Store(if store.active == Some(id) then None else store.active,
          if written then store.disk[id := Folder(Some(end))] else store.disk)
  }

  function AfterDelete(store: Store, id: Id, removing: Removing): Store {
    if store.active == Some(id) || id !in store.disk || removing.LeftWhole? then store
    else if removing.Removed? then store.(disk := store.disk - {id})
    else store.(disk := store.disk[id := Folder(None)])
  }

  class JobStore {
    var active: Option<Id>
    var disk: map<Id, Folder>

    ghost function State(): Store
      reads this
    {
      Store(active, disk)
    }

    constructor (disk: map<Id, Folder>)
      ensures State() == Store(None, disk)
    {
      this.disk := disk;
      active := None;
    }

    /** The locked part of `api_cm_start`, for the new id that it has drawn. */
    method Start(id: Id, making: Making) returns (started: Started)
      requires id !in disk
      modifies this
      ensures State() == AfterStart(old(State()), id, making)
      ensures started.Busy? <==> old(active).Some?
      ensures started.Begun? <==> old(active).None? && making.Made?
    {
      if active.Some? {
        return Busy;
      }
      if making.NotMade? {
        return NotCreated;
      }
      disk := disk[id := Folder(None)];
      if making.LeftBehind? {
        return NotCreated;
      }
      disk := disk[id := Folder(Some(Stored(Running, None, None)))];
      active := Some(id);
      started := Begun;
    }

    method Finish(id: Id, end: Stored, written: bool)
      modifies this
      ensures State() == AfterFinish(old(State()), id, end, written)
    {
      if written {
        disk := disk[id := Folder(Some(end))];
      }
      if active == Some(id) {
        active := None;
      }
    }

    method Snapshot(id: Id, io: Io) returns (shown: Option<Stored>)
      modifies this`disk
      ensures shown == Show(old(State()), id, io)
      ensures State() == AfterShow(old(State()), id, io)
      ensures shown.Some? && shown.value.status.Archived? && NeverStoresArchived(old(disk)) ==>
        shown == Some(Stored(Archived, None, Some(io.lastWrite)))
    {
      if active == Some(id) {
        return Some(Stored(Running, None, None));
      }
      if id !in disk {
        return None;
      }
      var state := if io.readable then disk[id].state else None;
      if state.None? {
        return Some(Stored(Archived, None, Some(io.lastWrite)));
      }
      if state.value.status.Running? {
        var job := Stored(Interrupted, INTERRUPTED, Some(io.lastWrite));
        if io.writable {
          disk := disk[id := Folder(Some(job))];
        }
        return Some(job);
      }
      shown := state;
    }

    /** The locked part of `api_cm_job_delete`. */
    method Delete(id: Id, removing: Removing) returns (answer: Deletion)
      modifies this`disk
      ensures State() == AfterDelete(old(State()), id, removing)
      ensures answer.StillRunning? <==> old(active) == Some(id)
      ensures answer.NotFound? <==> old(active) != Some(id) && id !in old(disk)
      ensures answer.Deleted? <==> old(active) != Some(id) && id in old(disk) && removing.Removed?
      ensures answer.Deleted? ==> id !in disk
      ensures !answer.Deleted? ==> disk.Keys == old(disk).Keys
      ensures forall other | other in old(disk) && other != id :: other in disk && disk[other] == old(disk)[other]
    {
      if active == Some(id) {
        return StillRunning;
      }
      if id !in disk {
        return NotFound;
      }
      if removing.LeftWhole? {
        return NotDeleted;
      }
      if removing.LeftWithoutState? {
        disk := disk[id := Folder(None)];
        return NotDeleted;
      }
      disk := disk - {id};
      answer := Deleted;
    }
  }

  // ---------------------------------------------------------------- runs

  /** The thread of a request that has begun a job, then the worker before and after it looked for the job. */
  datatype Thread = Launching(id: Id) | Launched(id: Id) | Working(id: Id)

  /** `shown` holds what was shown of each job since its folder was made. */
  datatype System = System(store: Store, threads: map<nat, Thread>, shown: map<Id, seq<Status>>)

  datatype Event =
    | StartJob(thread: nat, id: Id, making: Making)
    | Launch(thread: nat, ok: bool, error: string, now: int, written: bool)
    | BeginWork(thread: nat)
    | FinishJob(thread: nat, end: Stored, written: bool)
    | ShowJob(id: Id, io: Io)
    | DeleteJob(id: Id, removing: Removing)
    | Crash

  predicate IsEnd(end: Stored) {
    end.status.Completed? || end.status.Error? || end.status.Interrupted?
  }

  predicate Possible(s: System, ev: Event) {
    match ev
    case StartJob(t, id, _) => t !in s.threads && id !in s.store.disk
    case Launch(t, _, _, _, _) => t in s.threads && s.threads[t].Launching?
    case BeginWork(t) => t in s.threads && s.threads[t].Launched?
    case FinishJob(t, end, _) => t in s.threads && s.threads[t].Working? && IsEnd(end)
    case ShowJob(id, _) => s.store.active == Some(id) || id in s.store.disk
    case DeleteJob(id, _) => true
    case Crash => true
  }

  function Finished(s: System, t: nat, end: Stored, written: bool): System
    requires t in s.threads
  {
    System(AfterFinish(s.store, s.threads[t].id, end, written), s.threads - {t}, s.shown)
  }

  function History(s: System, id: Id): seq<Status> {
    if id in s.shown then s.shown[id] else []
  }

  function Step(s: System, ev: Event): System {
    if !Possible(s, ev) then s
    else
      match ev
      case StartJob(t, id, making) =>
        var begins := s.store.active.None? && making.Made?;
        System(AfterStart(s.store, id, making),
               if begins then s.threads[t := Launching(id)] else s.threads,
               s.shown - {id})
      case Launch(t, ok, error, now, written) =>
        if ok then s.(threads := s.threads[t := Launched(s.threads[t].id)])
        else Finished(s, t, Stored(Error, Some(error), Some(now)), written)
      case BeginWork(t) =>
        if s.store.active == Some(s.threads[t].id) then s.(threads := s.threads[t := Working(s.threads[t].id)])
        else s.(threads := s.threads - {t})
      case FinishJob(t, end, written) => Finished(s, t, end, written)
      case ShowJob(id, io) =>
        System(AfterShow(s.store, id, io), s.threads,
               s.shown[id := History(s, id) + [Show(s.store, id, io).value.status]])
      case DeleteJob(id, removing) =>
        var after := AfterDelete(s.store, id, removing);
        System(after, s.threads, if id in after.disk then s.shown else s.shown - {id})
      case Crash => System(s.store.(active := None), map[], s.shown)
  }

  function Run(s: System, events: seq<Event>): System {
    if events == [] then s else Step(Run(s, events[..|events| - 1]), events[|events| - 1])
  }

  function Boot(disk: map<Id, Folder>): System {
    System(Store(None, disk), map[], map[])
  }

  // ---------------------------------------------------------------- the invariant

  /** A job that runs is stored as running, and exactly one thread is at work for it. */
  ghost predicate OneJob(s: System) {
    && (s.store.active.Some? ==>
          && s.store.active.value in s.store.disk
          && s.store.disk[s.store.active.value].state == Some(Stored(Running, None, None))
          && exists t :: t in s.threads)
    && (forall t | t in s.threads :: s.store.active == Some(s.threads[t].id))
    && (forall t, u | t in s.threads && u in s.threads :: t == u)
  }

  ghost predicate NeverStoresArchived(disk: map<Id, Folder>) {
    forall id | id in disk && disk[id].state.Some? :: !disk[id].state.value.status.Archived?
  }

  /** The status that a look at the job shows when its job.json can be read. */
  function Current(store: Store, id: Id): Status
    requires id in store.disk
  {
    if store.active == Some(id) then Running
    else if store.disk[id].state.None? then Archived
    else if store.disk[id].state.value.status.Running? then Interrupted
    else store.disk[id].state.value.status
  }

  ghost predicate Invariant(s: System) {
    OneJob(s) && NeverStoresArchived(s.store.disk)
  }

  lemma StepKeepsOneJob(s: System, ev: Event)
    requires OneJob(s)
    ensures OneJob(Step(s, ev))
  {
    var t := Step(s, ev);
    if ev.StartJob? || ev.Launch? || ev.BeginWork? {
      assert t.store.active.Some? && t.store.active != s.store.active ==> ev.thread in t.threads;
      assert ev.thread in s.threads && t.store.active.Some? ==> ev.thread in t.threads;
    }
  }

  lemma StepKeepsStored(s: System, ev: Event)
    requires NeverStoresArchived(s.store.disk)
    ensures NeverStoresArchived(Step(s, ev).store.disk)
  {
  }

  lemma {:induction false} RunKeeps(s: System, events: seq<Event>)
    requires Invariant(s)
    ensures Invariant(Run(s, events))
    decreases |events|
  {
    if events != [] {
      var before := Run(s, events[..|events| - 1]);
      RunKeeps(s, events[..|events| - 1]);
      StepKeepsOneJob(before, events[|events| - 1]);
      StepKeepsStored(before, events[|events| - 1]);
    }
  }

  // ---------------------------------------------------------------- the properties

  /**
   At any time at most one thread works, and it works for the job that holds the slot; the
   folder of that job is there, whatever was deleted.
   */
  lemma OneWorker(disk: map<Id, Folder>, events: seq<Event>)
    requires NeverStoresArchived(disk)
    ensures var s := Run(Boot(disk), events);
      && (forall t, u | t in s.threads && u in s.threads :: t == u)
      && (forall t | t in s.threads :: s.store.active == Some(s.threads[t].id) && s.threads[t].id in s.store.disk)
      && (s.store.active.Some? ==> exists t :: t in s.threads)
  {
    RunKeeps(Boot(disk), events);
  }

  /** Whether the events have left a folder of the job: the last one made of it was not taken away. */
  predicate Left(boot: System, events: seq<Event>, id: Id) {
    if events == [] then id in boot.store.disk
    else
      var before, ev := events[..|events| - 1], events[|events| - 1];
      var active := Run(boot, before).store.active;
      if ev.StartJob? && ev.id == id && Possible(Run(boot, before), ev) then active.None? && !ev.making.NotMade?
      else if ev == DeleteJob(id, Removed) && active != Some(id) then false
      else Left(boot, before, id)
  }

  /**
   In every run a job has a folder if and only if it had one at the start or a start has made one, and no removal has
   taken it away since; the one that runs is not taken away.
   */
  lemma {:induction false} FolderIff(boot: System, events: seq<Event>, id: Id)
    requires Invariant(boot)
    ensures id in Run(boot, events).store.disk <==> Left(boot, events, id)
    decreases |events|
  {
    if events != [] {
      FolderIff(boot, events[..|events| - 1], id);
      RunKeeps(boot, events[..|events| - 1]);
      FolderStep(Run(boot, events[..|events| - 1]), events[|events| - 1], id);
    }
  }

  lemma FolderStep(s: System, ev: Event, id: Id)
    requires Invariant(s)
    ensures id in Step(s, ev).store.disk <==>
      if ev.StartJob? && ev.id == id && Possible(s, ev) then s.store.active.None? && !ev.making.NotMade?
      else if ev == DeleteJob(id, Removed) && s.store.active != Some(id) then false
      else id in s.store.disk
  {
  }

  // ---------------------------------------------------------------- what the looks at a job find

  /** A look finds the job running, finds a state in its folder, or none: there is none, or job.json cannot be read. */
  datatype Look = Live | Held | Bare

  function LookAt(store: Store, id: Id, io: Io): Look
    requires store.active == Some(id) || id in store.disk
  {
    if store.active == Some(id) then Live
    else if io.readable && store.disk[id].state.Some? then Held
    else Bare
  }

  /** The looks at a job since its folder was made, told from the events and the disk. */
  function Looks(boot: System, events: seq<Event>, id: Id): seq<Look> {
    if events == [] then []
    else
      var before := events[..|events| - 1];
      NextLooks(Run(boot, before), events[|events| - 1], id, Looks(boot, before, id))
  }

  function NextLooks(s: System, ev: Event, id: Id, looks: seq<Look>): seq<Look> {
    if !Possible(s, ev) then looks
    else if ev.ShowJob? && ev.id == id then looks + [LookAt(s.store, id, ev.io)]
    else if (ev.StartJob? && ev.id == id) || (ev.DeleteJob? && id !in Step(s, ev).store.disk) then []
    else looks
  }

  /** What the looks have shown, and what the folder still says of it. */
  ghost predicate Agrees(history: seq<Status>, looks: seq<Look>, store: Store, id: Id) {
    && |history| == |looks| && (looks != [] ==> id in store.disk)
    && (forall i | 0 <= i < |looks| :: LookAgrees(history[i], looks[i], store, id))
    && (forall i, j | 0 <= i < j < |looks| && looks[j].Live? :: looks[i].Live?)
    && (forall i, j | 0 <= i < j < |looks| && looks[i].Held? && looks[j].Held? :: history[i] == history[j])
  }

  ghost predicate LookAgrees(status: Status, look: Look, store: Store, id: Id)
    requires id in store.disk
  {
    && (look.Live? <==> status.Running?)
    && (look.Bare? <==> status.Archived?)
    && (!look.Live? ==> store.active != Some(id))
    && (look.Held? && store.disk[id].state.Some? ==> status == Current(store, id))
  }

  /** An event that does not look at the job leaves what was shown and what the folder says of it. */
  lemma OtherEventAgrees(s: System, ev: Event, id: Id, look: Look, status: Status)
    requires OneJob(s) && id in s.store.disk && LookAgrees(status, look, s.store, id)
    requires Possible(s, ev) && id in Step(s, ev).store.disk && !(ev.StartJob? && ev.id == id)
    ensures LookAgrees(status, look, Step(s, ev).store, id)
  {
  }

  lemma NewLookAgrees(s: System, id: Id, io: Io)
    requires OneJob(s) && NeverStoresArchived(s.store.disk) && (s.store.active == Some(id) || id in s.store.disk)
    ensures id in s.store.disk
    ensures LookAgrees(Show(s.store, id, io).value.status, LookAt(s.store, id, io), AfterShow(s.store, id, io), id)
  {
  }

  lemma StepAgrees(s: System, ev: Event, id: Id, looks: seq<Look>)
    requires Invariant(s) && Agrees(History(s, id), looks, s.store, id)
    ensures Agrees(History(Step(s, ev), id), NextLooks(s, ev, id, looks), Step(s, ev).store, id)
  {
    var t := Step(s, ev);
    if Possible(s, ev) && ev.ShowJob? && ev.id == id {
      LookStepAgrees(s, id, ev.io, looks);
    } else if Possible(s, ev) && NextLooks(s, ev, id, looks) == looks != [] {
      assert History(t, id) == History(s, id);
      forall i | 0 <= i < |looks| ensures LookAgrees(History(t, id)[i], looks[i], t.store, id) {
        OtherEventAgrees(s, ev, id, looks[i], History(s, id)[i]);
      }
    }
  }

  lemma LookStepAgrees(s: System, id: Id, io: Io, looks: seq<Look>)
    requires Invariant(s) && Agrees(History(s, id), looks, s.store, id) && Possible(s, ShowJob(id, io))
    ensures var t := Step(s, ShowJob(id, io));
      Agrees(History(t, id), looks + [LookAt(s.store, id, io)], t.store, id)
  {
    var t, look := Step(s, ShowJob(id, io)), LookAt(s.store, id, io);
    NewLookAgrees(s, id, io);
    forall i | 0 <= i < |looks| ensures LookAgrees(History(t, id)[i], looks[i], t.store, id) {
      OtherEventAgrees(s, ShowJob(id, io), id, looks[i], History(s, id)[i]);
    }
  }

  lemma {:induction false} RunAgrees(boot: System, events: seq<Event>, id: Id)
    requires Invariant(boot) && boot.shown == map[]
    ensures Agrees(History(Run(boot, events), id), Looks(boot, events, id), Run(boot, events).store, id)
    decreases |events|
  {
    if events != [] {
      var before := events[..|events| - 1];
      RunAgrees(boot, before, id);
      RunKeeps(boot, before);
      StepAgrees(Run(boot, before), events[|events| - 1], id, Looks(boot, before, id));
    }
  }

  // ---------------------------------------------------------------- when the shown status settles

  /** What is shown goes from running to one status and never changes. */
  ghost predicate Settles(history: seq<Status>) {
    forall i, j | 0 <= i < j < |history| :: history[i].Running? || history[i] == history[j]
  }

  /** One look found a state, another one found none. */
  ghost predicate Mixed(looks: seq<Look>) {
    exists i, j :: 0 <= i < |looks| && 0 <= j < |looks| && looks[i].Held? && looks[j].Bare?
  }

  /**
   In every run, with crashes, lost writes, failed reads and failed deletions: what is shown of a job
   goes from running to one status and stays there, if and only if there were not both a look that found
   a state in its folder and one that found none.
   */
  lemma ShownStatusSettles(disk: map<Id, Folder>, events: seq<Event>, id: Id)
    requires NeverStoresArchived(disk)
    ensures Settles(History(Run(Boot(disk), events), id)) <==> !Mixed(Looks(Boot(disk), events, id))
  {
    RunAgrees(Boot(disk), events, id);
    AgreeingSettles(History(Run(Boot(disk), events), id), Looks(Boot(disk), events, id), Run(Boot(disk), events).store, id);
  }

  lemma AgreeingSettles(history: seq<Status>, looks: seq<Look>, store: Store, id: Id)
    requires Agrees(history, looks, store, id)
    ensures Settles(history) <==> !Mixed(looks)
  {
    if i, j :| 0 <= i < |looks| && 0 <= j < |looks| && looks[i].Held? && looks[j].Bare? {
      assert LookAgrees(history[i], looks[i], store, id) && LookAgrees(history[j], looks[j], store, id);
      assert i < j || j < i;
    } else {
      forall i, j | 0 <= i < j < |history| ensures history[i].Running? || history[i] == history[j] {
        assert LookAgrees(history[i], looks[i], store, id) && LookAgrees(history[j], looks[j], store, id);
        assert !(looks[i].Held? && looks[j].Bare?) && !(looks[j].Held? && looks[i].Bare?);
      }
    }
  }

  /** A look that cannot read the state that is there, or a removal that leaves the folder without it. */
  predicate Disturbs(s: System, ev: Event, id: Id) {
    && s.store.active != Some(id) && id in s.store.disk && s.store.disk[id].state.Some?
    && ((ev.ShowJob? && ev.id == id && !ev.io.readable)
        || (ev.DeleteJob? && ev.id == id && ev.removing.LeftWithoutState?))
  }

  predicate Undisturbed(boot: System, events: seq<Event>, id: Id) {
    events == []
    || (Undisturbed(boot, events[..|events| - 1], id)
        && !Disturbs(Run(boot, events[..|events| - 1]), events[|events| - 1], id))
  }

  /** Looks find a state as long as there is one, and none when there is none. */
  ghost predicate Uniform(looks: seq<Look>, store: Store, id: Id) {
    looks != [] ==>
      && id in store.disk
      && (forall i | 0 <= i < |looks| :: looks[i].Held? ==> store.disk[id].state.Some?)
      && (forall i | 0 <= i < |looks| :: looks[i].Bare? ==> store.disk[id].state.None?)
  }

  lemma StepUniform(s: System, ev: Event, id: Id, looks: seq<Look>)
    requires Invariant(s) && Uniform(looks, s.store, id) && !Disturbs(s, ev, id)
    requires Agrees(History(s, id), looks, s.store, id)
    ensures Uniform(NextLooks(s, ev, id, looks), Step(s, ev).store, id)
  {
  }

  lemma {:induction false} RunUniform(boot: System, events: seq<Event>, id: Id)
    requires Invariant(boot) && boot.shown == map[] && Undisturbed(boot, events, id)
    ensures Uniform(Looks(boot, events, id), Run(boot, events).store, id)
    decreases |events|
  {
    if events != [] {
      var before := events[..|events| - 1];
      RunUniform(boot, before, id);
      RunAgrees(boot, before, id);
      RunKeeps(boot, before);
      StepUniform(Run(boot, before), events[|events| - 1], id, Looks(boot, before, id));
    }
  }

  /**
   So the status settles in every run in which no look fails to read a state that is there, and no
   removal leaves the folder without its state.
   */
  lemma UndisturbedSettles(disk: map<Id, Folder>, events: seq<Event>, id: Id)
    requires NeverStoresArchived(disk) && Undisturbed(Boot(disk), events, id)
    ensures Settles(History(Run(Boot(disk), events), id))
  {
    RunUniform(Boot(disk), events, id);
    ShownStatusSettles(disk, events, id);
  }

  lemma RunOfMore(s: System, events: seq<Event>, ev: Event)
    ensures Run(s, events + [ev]) == Step(Run(s, events), ev)
  {
    assert (events + [ev])[..|events|] == events;
  }

  lemma CompletedRun(id: Id, end: Stored) returns (events: seq<Event>)
    requires end.status.Completed?
    ensures Run(Boot(map[]), events) == System(Store(None, map[id := Folder(Some(end))]), map[], map[])
  {
    var boot := Boot(map[]);
    RunOfMore(boot, [], StartJob(0, id, Made));
    events := [] + [StartJob(0, id, Made)];
    RunOfMore(boot, events, Launch(0, true, "", 0, true));
    events := events + [Launch(0, true, "", 0, true)];
    RunOfMore(boot, events, BeginWork(0));
    events := events + [BeginWork(0)];
    RunOfMore(boot, events, FinishJob(0, end, true));
    events := events + [FinishJob(0, end, true)];
  }

  /** After a completed job was shown, the event and another look show it as archived. */
  lemma DisturbedChanges(id: Id, end: Stored, ev: Event, last: Io) returns (events: seq<Event>)
    requires end.status.Completed?
    requires (ev == ShowJob(id, Io(false, true, 0)) && last.readable) || ev == DeleteJob(id, LeftWithoutState)
    ensures ev in events && !Settles(History(Run(Boot(map[]), events), id))
  {
    var boot, good := Boot(map[]), Io(true, true, 0);
    var work := CompletedRun(id, end);
    RunOfMore(boot, work, ShowJob(id, good));
    var one := work + [ShowJob(id, good)];
    RunOfMore(boot, one, ev);
    var two := one + [ev];
    assert two[|one|] == ev;
    RunOfMore(boot, two, ShowJob(id, last));
    events := two + [ShowJob(id, last)];
    assert events[|one|] == ev;
    var history := History(Run(boot, events), id);
    assert |history| >= 2 && history[0].Completed? && history[1].Archived?;
  }

  /** It does happen: one failed read shows a completed job as archived, and the next one as completed again. */
  lemma UnreadableLookChanges()
    ensures exists events, id :: !Settles(History(Run(Boot(map[]), events), id))
  {
    var id := Id("0123456789ab");
    var look := ShowJob(id, Io(false, true, 0));
    var events := DisturbedChanges(id, Stored(Completed, None, Some(0)), look, Io(true, true, 0));
  }

  /** So does a removal of the folder that fails after job.json is gone: from then on the job is shown as archived. */
  lemma FailedDeletionChanges(last: Io) returns (events: seq<Event>, id: Id)
    ensures !Settles(History(Run(Boot(map[]), events), id)) && DeleteJob(id, LeftWithoutState) in events
  {
    id := Id("0123456789ab");
    events := DisturbedChanges(id, Stored(Completed, None, Some(0)), DeleteJob(id, LeftWithoutState), last);
  }

  /**
   A job that was running when the server stopped reads as interrupted from then on; once a look has stored that, also
   the time it was interrupted stays the same.
   */
  lemma CrashInterrupts(s: System, id: Id, io: Io, later: Io)
    requires Invariant(s) && s.store.active == Some(id) && io.readable
    ensures var after := Step(s, Crash);
      && Show(after.store, id, io) == Some(Stored(Interrupted, INTERRUPTED, Some(io.lastWrite)))
      && Current(after.store, id).Interrupted?
      && Show(AfterShow(after.store, id, io), id, io) == Show(after.store, id, io)
      && (io.writable && later.readable ==> Show(AfterShow(after.store, id, io), id, later) == Show(after.store, id, io))
  {
  }

  /** The status that a job ends with is what is shown from then on, or interrupted if it could not be stored. */
  lemma FinishIsShown(s: System, t: nat, end: Stored, written: bool, io: Io)
    requires Invariant(s) && Possible(s, FinishJob(t, end, written)) && io.readable
    ensures var id := s.threads[t].id; var after := Step(s, FinishJob(t, end, written));
      && after.store.active.None? && id in after.store.disk
      && (written ==> Show(after.store, id, io) == Some(end))
      && (!written ==> Show(after.store, id, io) == Some(Stored(Interrupted, INTERRUPTED, Some(io.lastWrite))))
  {
  }
}
