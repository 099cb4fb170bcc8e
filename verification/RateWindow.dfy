/**
 The sliding rate window of jobs.py. Each call reads the clock and decides in one
 step, at times that do not decrease.
 */
module RateWindows {

  function Expire(calls: seq<real>, per: real, now: real): seq<real> {
    if calls != [] && now - calls[0] >= per then Expire(calls[1..], per, now) else calls
  }

  class RateWindow {
    const maxCalls: nat
    const per: real
    var calls: seq<real>

    constructor (maxCalls: int, per: real)
      ensures this.maxCalls == (if maxCalls >= 1 then maxCalls else 1) && this.per == per && calls == []
    {
      this.maxCalls := if maxCalls >= 1 then maxCalls else 1;
      this.per := per;
      calls := [];
    }

    method DropExpired(now: real)
      modifies this
      ensures calls == Expire(old(calls), per, now)
    {
      while calls != [] && now - calls[0] >= per
        invariant Expire(calls, per, now) == Expire(old(calls), per, now)
        decreases |calls|
      {
        calls := calls[1..];
      }
    }

    method TryTake(now: real) returns (granted: bool)
      modifies this
      ensures granted == (|Expire(old(calls), per, now)| < maxCalls)
      ensures calls == Expire(old(calls), per, now) + (if granted then [now] else [])
    {
      DropExpired(now);
      if |calls| >= maxCalls {
        return false;
      }
      calls := calls + [now];
      granted := true;
    }

    method SecondsUntilFree(now: real) returns (seconds: real)
      requires maxCalls >= 1
      modifies this
      ensures calls == Expire(old(calls), per, now)
      ensures seconds == Remaining(calls, maxCalls, per, now)
    {
      DropExpired(now);
      if |calls| < maxCalls {
        return 0.0;
      }
      var left := per - (now - calls[0]);
      seconds := if left > 0.0 then left else 0.0;
    }
  }

  function Remaining(calls: seq<real>, maxCalls: nat, per: real, now: real): real
    requires maxCalls >= 1
  {
    if |calls| < maxCalls then 0.0
    else if per - (now - calls[0]) > 0.0 then per - (now - calls[0]) else 0.0
  }

  // ---------------------------------------------------------------- runs

  /** A call of the window: one that asks to be counted, or one that only looks. */
  datatype Event = Take(at: real) | Look(at: real)

  /** `grants` is the history of all granted calls. */
  datatype Window = Window(calls: seq<real>, grants: seq<real>, last: real)

  ghost predicate InOrder(times: seq<real>) {
    forall i, j | 0 <= i < j < |times| :: times[i] <= times[j]
  }

  ghost predicate EventsInOrder(events: seq<Event>) {
    forall i, j | 0 <= i < j < |events| :: events[i].at <= events[j].at
  }

  function Run(maxCalls: nat, per: real, events: seq<Event>): Window {
    if events == [] then Window([], [], 0.0)
    else Next(maxCalls, per, Run(maxCalls, per, events[..|events| - 1]), events[|events| - 1])
  }

  function Next(maxCalls: nat, per: real, w: Window, ev: Event): Window {
    var kept := Expire(w.calls, per, ev.at);
    if ev.Take? && |kept| < maxCalls then Window(kept + [ev.at], w.grants + [ev.at], ev.at)
    else Window(kept, w.grants, ev.at)
  }

  /** The grants that are younger than `per` at a time. */
  function Younger(grants: seq<real>, per: real, now: real): seq<real> {
    if grants == [] then []
    else Younger(grants[..|grants| - 1], per, now)
         + (if now - grants[|grants| - 1] < per then [grants[|grants| - 1]] else [])
  }

  /** The window keeps a final part of the grants, and what it dropped was old enough. */
  ghost predicate Tail(w: Window, maxCalls: nat, per: real, n: nat) {
    && n <= |w.grants| && w.calls == w.grants[n..] && |w.calls| <= maxCalls
    && InOrder(w.grants)
    && (forall i | 0 <= i < |w.grants| :: w.grants[i] <= w.last)
    && (forall i | 0 <= i < n :: w.last - w.grants[i] >= per)
  }

  lemma {:induction false} ExpireTail(calls: seq<real>, per: real, now: real) returns (n: nat)
    requires InOrder(calls)
    ensures n <= |calls| && Expire(calls, per, now) == calls[n..]
    ensures forall i | 0 <= i < n :: now - calls[i] >= per
    ensures forall i | n <= i < |calls| :: now - calls[i] < per
    decreases |calls|
  {
    n := 0;
    if calls != [] && now - calls[0] >= per {
      n := ExpireTail(calls[1..], per, now);
      assert calls[1..][n..] == calls[n + 1..];
      forall i | 0 <= i < n + 1 ensures now - calls[i] >= per {
        if i > 0 {
          assert calls[i] == calls[1..][i - 1];
        }
      }
      forall i | n + 1 <= i < |calls| ensures now - calls[i] < per {
        assert calls[i] == calls[1..][i - 1];
      }
      n := n + 1;
    }
  }

  /** Expiring at a later time leaves the grants that are younger than `per` then, all of them. */
  lemma ExpireIsYounger(w: Window, maxCalls: nat, per: real, n: nat, now: real) returns (m: nat)
    requires Tail(w, maxCalls, per, n) && now >= w.last
    ensures n <= m <= |w.grants| && Expire(w.calls, per, now) == w.grants[m..] == Younger(w.grants, per, now)
    ensures forall i | 0 <= i < m :: now - w.grants[i] >= per
    ensures forall i | m <= i < |w.grants| :: now - w.grants[i] < per
  {
    assert forall i, j | 0 <= i < j < |w.calls| :: w.calls[i] == w.grants[n + i] && w.calls[j] == w.grants[n + j];
    var k := ExpireTail(w.calls, per, now);
    m := n + k;
    assert w.grants[n..][k..] == w.grants[m..];
    forall i | m <= i < |w.grants| ensures now - w.grants[i] < per {
      assert w.grants[i] == w.calls[i - n];
    }
    forall i | 0 <= i < m ensures now - w.grants[i] >= per {
      if i >= n {
        assert w.grants[i] == w.calls[i - n];
      }
    }
    YoungerIsTail(w.grants, per, now, m);
  }

  lemma {:induction false} YoungerIsTail(grants: seq<real>, per: real, now: real, m: nat)
    requires m <= |grants|
    requires forall i | 0 <= i < m :: now - grants[i] >= per
    requires forall i | m <= i < |grants| :: now - grants[i] < per
    ensures Younger(grants, per, now) == grants[m..]
    decreases |grants|
  {
    if grants != [] {
      var n := |grants| - 1;
      var before := grants[..n];
      assert forall i | 0 <= i < n :: before[i] == grants[i];
      var k := if m <= n then m else n;
      YoungerIsTail(before, per, now, k);
      TailOfMore(grants, n, m);
    }
  }

  lemma TailOfMore(grants: seq<real>, n: nat, m: nat)
    requires |grants| == n + 1 && m <= |grants|
    ensures grants[m..] == if m <= n then grants[..n][m..] + [grants[n]] else []
  {
  }

  lemma {:induction false} RunTail(maxCalls: nat, per: real, events: seq<Event>) returns (n: nat)
    requires maxCalls >= 1 && EventsInOrder(events) && (events != [] ==> events[0].at >= 0.0)
    ensures Tail(Run(maxCalls, per, events), maxCalls, per, n)
    ensures events != [] ==> Run(maxCalls, per, events).last == events[|events| - 1].at
    decreases |events|
  {
    n := 0;
    if events != [] {
      var before, ev := events[..|events| - 1], events[|events| - 1];
      n := RunTail(maxCalls, per, before);
      n := NextTail(maxCalls, per, Run(maxCalls, per, before), n, ev);
    }
  }

  lemma NextTail(maxCalls: nat, per: real, w: Window, n: nat, ev: Event) returns (m: nat)
    requires Tail(w, maxCalls, per, n) && ev.at >= w.last
    ensures Tail(Next(maxCalls, per, w, ev), maxCalls, per, m)
  {
    m := ExpireIsYounger(w, maxCalls, per, n, ev.at);
    var kept := w.grants[m..];
    assert Next(maxCalls, per, w, ev)
        == if ev.Take? && |kept| < maxCalls then Window(kept + [ev.at], w.grants + [ev.at], ev.at)
           else Window(kept, w.grants, ev.at);
    if ev.Take? && |kept| < maxCalls {
      GrantedTail(w.grants, maxCalls, per, m, ev.at);
    }
  }

  lemma GrantedTail(grants: seq<real>, maxCalls: nat, per: real, m: nat, at: real)
    requires InOrder(grants) && m <= |grants| && |grants| - m < maxCalls
    requires forall i | 0 <= i < |grants| :: grants[i] <= at
    requires forall i | 0 <= i < m :: at - grants[i] >= per
    ensures Tail(Window(grants[m..] + [at], grants + [at], at), maxCalls, per, m)
  {
    assert (grants + [at])[m..] == grants[m..] + [at];
  }

  /** The rate holds: any `maxCalls + 1` consecutive grants span at least `per` seconds. */
  lemma {:induction false} RateHolds(maxCalls: nat, per: real, events: seq<Event>, i: nat)
    requires maxCalls >= 1 && EventsInOrder(events) && (events != [] ==> events[0].at >= 0.0)
    requires i + maxCalls < |Run(maxCalls, per, events).grants|
    ensures var grants := Run(maxCalls, per, events).grants; grants[i + maxCalls] - grants[i] >= per
    decreases |events|
  {
    var before, ev := events[..|events| - 1], events[|events| - 1];
    var w := Run(maxCalls, per, before);
    if i + maxCalls < |w.grants| {
      RateHolds(maxCalls, per, before, i);
    } else {
      var n := RunTail(maxCalls, per, before);
      var m := ExpireIsYounger(w, maxCalls, per, n, ev.at);
      assert i < m;
    }
  }

  /** A call is granted exactly when fewer than `maxCalls` grants are younger than `per`. */
  lemma GrantedIff(maxCalls: nat, per: real, events: seq<Event>, now: real)
    requires maxCalls >= 1 && EventsInOrder(events + [Take(now)]) && (events + [Take(now)])[0].at >= 0.0
    ensures var w, r := Run(maxCalls, per, events), Run(maxCalls, per, events + [Take(now)]);
      (r.grants == w.grants + [now] <==> |Younger(w.grants, per, now)| < maxCalls)
      && (r.grants != w.grants + [now] ==> r.grants == w.grants)
  {
    var all := events + [Take(now)];
    assert all[..|all| - 1] == events;
    EarlierInOrder(events, Take(now));
    var n := RunTail(maxCalls, per, events);
    var m := ExpireIsYounger(Run(maxCalls, per, events), maxCalls, per, n, now);
  }

  lemma EarlierInOrder(events: seq<Event>, ev: Event)
    requires EventsInOrder(events + [ev]) && (events + [ev])[0].at >= 0.0
    ensures EventsInOrder(events) && (events != [] ==> events[0].at >= 0.0 && events[|events| - 1].at <= ev.at)
    ensures ev.at >= 0.0
  {
    var all := events + [ev];
    assert forall i | 0 <= i < |events| :: all[i] == events[i];
    assert all[|events|] == ev;
  }

  /** `seconds_until_free` is the wait: with no grant in between, a call is granted just when it is over. */
  lemma WaitIsExact(maxCalls: nat, per: real, events: seq<Event>, now: real, later: real)
    requires maxCalls >= 1 && EventsInOrder(events + [Look(now)]) && (events + [Look(now)])[0].at >= 0.0 && later >= now
    ensures var w := Run(maxCalls, per, events + [Look(now)]);
      var seconds := Remaining(w.calls, maxCalls, per, now);
      |Expire(w.calls, per, later)| < maxCalls <==> later >= now + seconds
  {
    var all := events + [Look(now)];
    assert all[..|all| - 1] == events;
    EarlierInOrder(events, Look(now));
    var n := RunTail(maxCalls, per, all);
    var w := Run(maxCalls, per, all);
    var m := ExpireIsYounger(w, maxCalls, per, n, later);
    var k := ExpireIsYounger(w, maxCalls, per, n, now);
    if |w.calls| == maxCalls {
      assert w.calls[0] == w.grants[n];
      assert m > n <==> later - w.grants[n] >= per;
      LookedIsYoung(maxCalls, per, events, now);
    }
  }

  /** After a look no call that is kept is old enough to go. */
  lemma LookedIsYoung(maxCalls: nat, per: real, events: seq<Event>, now: real)
    requires maxCalls >= 1 && EventsInOrder(events + [Look(now)]) && (events + [Look(now)])[0].at >= 0.0
    ensures var w := Run(maxCalls, per, events + [Look(now)]);
      forall i | 0 <= i < |w.calls| :: now - w.calls[i] < per
  {
    var all := events + [Look(now)];
    assert all[..|all| - 1] == events;
    EarlierInOrder(events, Look(now));
    var n := RunTail(maxCalls, per, events);
    var w := Run(maxCalls, per, events);
    var m := ExpireIsYounger(w, maxCalls, per, n, now);
    forall i | 0 <= i < |w.grants[m..]| ensures now - w.grants[m..][i] < per {
      assert w.grants[m..][i] == w.grants[m + i];
    }
  }
}
