/**
 What a fan-out returns, told from the events of its schedule: every item that has finished by then, and the
 default for the others.
 */
module FanOutResults {
  import opened Wrappers
  import opened FanOuts

  // ---------------------------------------------------------------- the events that matter

  /** The state before the event `n` of a schedule. */
  function Before(threads: nat, events: seq<Event>, n: nat): System
    requires n <= |events|
  {
    Run(Idle(threads), events[..n])
  }

  /** The event `n` is the end of the item `i` of the call `c`. */
  ghost predicate FinishesAt(threads: nat, events: seq<Event>, n: nat, c: nat, i: nat)
    requires n < |events|
  {
    var s := Before(threads, events, n);
    events[n].Finish? && Possible(s, events[n]) && s.workers[events[n].worker] == Some(Task(c, i))
  }

  ghost predicate HasFinished(threads: nat, events: seq<Event>, c: nat, i: nat) {
    exists n :: 0 <= n < |events| && FinishesAt(threads, events, n, c, i)
  }

  /** The event `n` is a time limit of the call: no more items are started, or none is waited for. */
  ghost predicate TimesOutAt(threads: nat, events: seq<Event>, n: nat, c: nat)
    requires n < |events|
  {
    (events[n] == GiveUp(c) || events[n] == TimeUp(c)) && Possible(Before(threads, events, n), events[n])
  }

  ghost predicate HasTimedOut(threads: nat, events: seq<Event>, c: nat) {
    exists n :: 0 <= n < |events| && TimesOutAt(threads, events, n, c)
  }

  lemma {:induction false} RunLast(s: System, events: seq<Event>, ev: Event)
    ensures Run(s, events + [ev]) == Step(Run(s, events), ev)
    decreases |events|
  {
    if events == [] {
      assert [ev][1..] == [] && [] + [ev] == [ev];
      assert Run(Step(s, ev), []) == Step(s, ev);
    } else {
      assert (events + [ev])[0] == events[0] && (events + [ev])[1..] == events[1..] + [ev];
      RunLast(Step(s, events[0]), events[1..], ev);
    }
  }

  lemma EarlierEvents(threads: nat, events: seq<Event>, ev: Event, n: nat)
    requires n <= |events|
    ensures Before(threads, events + [ev], n) == Before(threads, events, n)
  {
    assert (events + [ev])[..n] == events[..n];
  }

  lemma FinishedMore(threads: nat, events: seq<Event>, ev: Event, c: nat, i: nat)
    ensures HasFinished(threads, events + [ev], c, i)
       <==> HasFinished(threads, events, c, i) || FinishesAt(threads, events + [ev], |events|, c, i)
  {
    var longer := events + [ev];
    forall n | 0 <= n < |events| ensures FinishesAt(threads, longer, n, c, i) <==> FinishesAt(threads, events, n, c, i) {
      EarlierEvents(threads, events, ev, n);
    }
    if n :| 0 <= n < |events| && FinishesAt(threads, events, n, c, i) {
      assert FinishesAt(threads, longer, n, c, i);
    }
  }

  lemma TimedOutMore(threads: nat, events: seq<Event>, ev: Event, c: nat)
    ensures HasTimedOut(threads, events + [ev], c)
       <==> HasTimedOut(threads, events, c) || TimesOutAt(threads, events + [ev], |events|, c)
  {
    var longer := events + [ev];
    forall n | 0 <= n < |events| ensures TimesOutAt(threads, longer, n, c) <==> TimesOutAt(threads, events, n, c) {
      EarlierEvents(threads, events, ev, n);
    }
    if n :| 0 <= n < |events| && TimesOutAt(threads, events, n, c) {
      assert TimesOutAt(threads, longer, n, c);
    }
  }

  // ---------------------------------------------------------------- finished items have their results

  predicate HasTask(s: System, c: nat, i: nat) {
    c < |s.calls| && i < |s.calls[c].phases|
  }

  /** An item has a result exactly when it has finished. */
  ghost predicate Finished(threads: nat, events: seq<Event>, s: System) {
    forall c: nat, i: nat ::
      (HasTask(s, c, i) && HasResult(s.calls[c].phases[i])) <==> HasFinished(threads, events, c, i)
  }

  /** One event gives an item its result: the end of that item. */
  lemma ResultStep(s: System, ev: Event, c: nat, i: nat)
    requires Invariant(s)
    ensures var t := Step(s, ev);
      (HasTask(t, c, i) && HasResult(t.calls[c].phases[i]))
      <==> (HasTask(s, c, i) && HasResult(s.calls[c].phases[i]))
           || (ev.Finish? && Possible(s, ev) && s.workers[ev.worker] == Some(Task(c, i)))
  {
    if Possible(s, ev) && OfWorker(ev) {
      WorkerResult(s, ev, c, i);
    } else if Possible(s, ev) {
      CallerResult(s, ev, c, i);
    }
  }

  lemma WorkerResult(s: System, ev: Event, c: nat, i: nat)
    requires Invariant(s) && Possible(s, ev) && OfWorker(ev)
    ensures var t := Step(s, ev);
      (HasTask(t, c, i) && HasResult(t.calls[c].phases[i]))
      <==> (HasTask(s, c, i) && HasResult(s.calls[c].phases[i]))
           || (ev.Finish? && s.workers[ev.worker] == Some(Task(c, i)))
  {
    var task := TaskOf(s, ev);
    assert Step(s, ev).calls
        == s.calls[task.call := Step(s, ev).calls[task.call]];
    assert Step(s, ev).calls[task.call].phases == s.calls[task.call].phases[task.index := NextPhase(ev)];
  }

  lemma CallerResult(s: System, ev: Event, c: nat, i: nat)
    requires Invariant(s) && Possible(s, ev) && !OfWorker(ev)
    ensures var t := Step(s, ev);
      (HasTask(t, c, i) && HasResult(t.calls[c].phases[i])) <==> (HasTask(s, c, i) && HasResult(s.calls[c].phases[i]))
  {
    if !ev.Start? && c == ev.call {
      assert CallIsRight(s.calls[c]);
    }
  }

  lemma {:induction false} RunFinished(threads: nat, events: seq<Event>)
    ensures Invariant(Run(Idle(threads), events)) && Finished(threads, events, Run(Idle(threads), events))
    decreases |events|
  {
    RunKeeps(Idle(threads), events);
    if events != [] {
      var before, ev := events[..|events| - 1], events[|events| - 1];
      assert events == before + [ev];
      RunFinished(threads, before);
      RunLast(Idle(threads), before, ev);
      assert events[..|before|] == before;
      forall c: nat, i: nat
        ensures (HasTask(Run(Idle(threads), events), c, i) && HasResult(Run(Idle(threads), events).calls[c].phases[i]))
           <==> HasFinished(threads, events, c, i)
      {
        ResultStep(Run(Idle(threads), before), ev, c, i);
        FinishedMore(threads, before, ev, c, i);
      }
    }
  }

  /**
   Whenever a call returns, with a time limit or without one: its list has, for every item that has finished
   by then, what the function gave for it, and the default for every other one.
   */
  lemma ReturnsWhatFinished(threads: nat, events: seq<Event>, c: nat)
    requires Possible(Run(Idle(threads), events), Return(c))
    ensures var call := Run(Idle(threads), events).calls[c];
      var after := Run(Idle(threads), events + [Return(c)]);
      && c < |after.calls| && after.calls[c].stage.Returned?
      && var list := after.calls[c].stage.list;
         && |list| == |call.outcomes|
         && forall i | 0 <= i < |list| ::
              list[i] ==
                if HasFinished(threads, events, c, i) then MapOf(call.outcomes, call.default_)[i] else call.default_
  {
    var s := Run(Idle(threads), events);
    RunFinished(threads, events);
    RunLast(Idle(threads), events, Return(c));
    assert CallIsRight(s.calls[c]);
  }

  // ---------------------------------------------------------------- in time

  /** A call that has not timed out goes on only when all its items are done. */
  ghost predicate InTime(call: Call) {
    && (call.stage.Waiting? ==> call.submitted == |call.phases|)
    && (call.stage.Cancelling? || call.stage.Returned? ==> AllDone(call))
    && (call.stage.Returned? ==> call.stage.list == MapOf(call.outcomes, call.default_))
  }

  lemma DoneIsTheMap(call: Call)
    requires CallIsRight(call) && AllDone(call)
    ensures call.results == MapOf(call.outcomes, call.default_)
  {
  }

  lemma InTimeStep(s: System, ev: Event, c: nat)
    requires Invariant(s) && c < |Step(s, ev).calls| && (c < |s.calls| ==> InTime(s.calls[c]))
    requires Possible(s, ev) ==> ev != GiveUp(c) && ev != TimeUp(c)
    ensures InTime(Step(s, ev).calls[c])
  {
    if ev == Return(c) && Possible(s, ev) {
      DoneIsTheMap(s.calls[c]);
    }
  }

  lemma {:induction false} RunInTime(threads: nat, events: seq<Event>, c: nat)
    requires !HasTimedOut(threads, events, c) && c < |Run(Idle(threads), events).calls|
    ensures InTime(Run(Idle(threads), events).calls[c])
    decreases |events|
  {
    if events != [] {
      var before, ev := events[..|events| - 1], events[|events| - 1];
      assert events == before + [ev];
      RunFinished(threads, before);
      RunLast(Idle(threads), before, ev);
      TimedOutMore(threads, before, ev, c);
      assert events[..|before|] == before;
      if c < |Run(Idle(threads), before).calls| {
        RunInTime(threads, before, c);
      }
      InTimeStep(Run(Idle(threads), before), ev, c);
    }
  }

  /** A call whose time limit was not reached returns the map. */
  lemma InTimeReturnsTheMap(threads: nat, events: seq<Event>, c: nat)
    requires !HasTimedOut(threads, events, c)
    ensures var s := Run(Idle(threads), events);
      c < |s.calls| && s.calls[c].stage.Returned? ==>
        s.calls[c].stage.list == MapOf(s.calls[c].outcomes, s.calls[c].default_)
  {
    if c < |Run(Idle(threads), events).calls| {
      RunInTime(threads, events, c);
    }
  }

  // ---------------------------------------------------------------- what a call is, and how it goes on

  /** A call of more than one item goes to the pool, unless a pool thread makes it while it runs an item. */
  lemma UsesPoolIff(s: System, ev: Event)
    requires Invariant(s) && ev.Start? && Possible(s, ev)
    ensures UsesPool(s, ev) <==> |ev.outcomes| > 1 && ev.caller.None?
    ensures var t := Step(s, ev);
      if |ev.outcomes| > 1 && ev.caller.None? then
        |t.calls| == |s.calls| + 1 && t.calls[..|s.calls|] == s.calls
        && IsCallOf(t.calls[|s.calls|], ev) && t.calls[|s.calls|].submitted == 0
      else t == s
  {
  }

  /** The call is the one that the event began: its items, its default and its limits. */
  predicate IsCallOf(call: Call, ev: Event)
    requires ev.Start?
  {
    call.outcomes == ev.outcomes && call.default_ == ev.default_ && call.timed == ev.timed && call.parallel == ev.parallel
  }

  /** It stays that one. */
  lemma {:induction false} CallStays(s: System, events: seq<Event>, c: nat, ev: Event)
    requires c < |s.calls| && ev.Start? && IsCallOf(s.calls[c], ev)
    ensures c < |Run(s, events).calls| && IsCallOf(Run(s, events).calls[c], ev)
    decreases |events|
  {
    if events != [] {
      CallStaysOnce(s, events[0], c, ev);
      CallStays(Step(s, events[0]), events[1..], c, ev);
    }
  }

  lemma CallStaysOnce(s: System, next: Event, c: nat, ev: Event)
    requires c < |s.calls| && ev.Start? && IsCallOf(s.calls[c], ev)
    ensures c < |Step(s, next).calls| && IsCallOf(Step(s, next).calls[c], ev)
  {
  }

  /**
   The gate opens as far as it may: a call with items left can hand one to the pool if and only if fewer than `parallel`,
   and in any case one, of its items are there.
   */
  lemma GateIsOpen(s: System, c: nat)
    requires Invariant(s) && c < |s.calls| && s.calls[c].stage.Submitting? && s.calls[c].submitted < |s.calls[c].phases|
    ensures Possible(s, Submit(c)) <==>
              InPool(s.calls[c].phases) < if s.calls[c].parallel > 1 then s.calls[c].parallel else 1
  {
    assert CallIsRight(s.calls[c]);
    NoneCancelled(s.calls[c].phases);
  }

  lemma {:induction false} NoneCancelled(phases: seq<Phase>)
    requires forall i | 0 <= i < |phases| :: !phases[i].Cancelled?
    ensures InPool(phases) == Holding(phases)
  {
    if phases != [] {
      var rest := phases[1..];
      forall i | 0 <= i < |rest| ensures !rest[i].Cancelled? {
        assert rest[i] == phases[i + 1];
      }
      NoneCancelled(rest);
    }
  }
}
