/** The order in which the keys of the cache were asked for, in all interleavings. */
module UpstreamOrder {
  import opened UpstreamCache
  import opened UpstreamRuns

  /** When the key was asked for last: the number of that event, or 0. */
  ghost function LastUse(config: Config, events: seq<Event>, key: Key): nat
    requires config.Valid()
    decreases |events|
  {
    if events == [] then 0
    else
      var before, ev := events[..|events| - 1], events[|events| - 1];
      if ev.Call? && ev.key == key && Possible(Run(config, before), ev) then |events| else LastUse(config, before, key)
  }

  ghost predicate Rises(config: Config, events: seq<Event>, order: seq<Key>)
    requires config.Valid()
  {
    forall i, j | 0 <= i < j < |order| :: LastUse(config, events, order[i]) < LastUse(config, events, order[j])
  }

  lemma {:induction false} LastUseBound(config: Config, events: seq<Event>, key: Key)
    requires config.Valid()
    ensures LastUse(config, events, key) <= |events|
    decreases |events|
  {
    if events != [] {
      LastUseBound(config, events[..|events| - 1], key);
    }
  }

  lemma NewGoesLast(config: Config, c: Cache, key: Key) returns (n: nat)
    requires config.Valid() && Consistent(c) && key !in c.table
    ensures n <= |c.order| && Added(config, c, key).order == c.order[n..] + [key]
  {
    InsertConsistent(c, key);
    n := EvictSuffix(config, Insert(c, key));
    assert (c.order + [key])[n..] == c.order[n..] + [key];
  }

  /** Whatever is asked for goes to the end of the order, and keys are dropped from its front. */
  lemma UsedGoesLast(config: Config, c: Cache, key: Key) returns (n: nat)
    requires config.Valid() && Consistent(c)
    ensures n <= |Remove(c.order, key)| && Touch(config, c, key).order == Remove(c.order, key)[n..] + [key]
  {
    if key in c.table {
      n := 0;
      assert Remove(c.order, key)[0..] == Remove(c.order, key);
    } else {
      RemoveNone(c.order, key);
      n := NewGoesLast(config, c, key);
    }
  }

  lemma {:induction false} RemoveNone(order: seq<Key>, key: Key)
    requires key !in order
    ensures Remove(order, key) == order
  {
    if order != [] {
      RemoveNone(order[1..], key);
    }
  }

  lemma {:induction false} RemoveRises(config: Config, events: seq<Event>, order: seq<Key>, key: Key)
    requires config.Valid() && Rises(config, events, order)
    ensures Rises(config, events, Remove(order, key))
    decreases |order|
  {
    if order != [] {
      var rest := order[1..];
      assert forall i | 0 <= i < |rest| :: rest[i] == order[i + 1];
      RemoveRises(config, events, rest, key);
      var kept := Remove(rest, key);
      forall i | 0 <= i < |kept| ensures LastUse(config, events, order[0]) < LastUse(config, events, kept[i]) {
        assert kept[i] in rest;
        var j :| 0 <= j < |rest| && rest[j] == kept[i];
        assert order[j + 1] == kept[i];
      }
    }
  }

  /** The table is in the order of use: what is dropped first is what nobody has asked for the longest. */
  lemma {:induction false} OrderOfUse(config: Config, events: seq<Event>)
    requires config.Valid()
    ensures Rises(config, events, Run(config, events).cache.order)
    decreases |events|
  {
    if events != [] {
      var before, ev := events[..|events| - 1], events[|events| - 1];
      OrderOfUse(config, before);
      if ev.Call? && Possible(Run(config, before), ev) {
        UsedRises(config, before, events, ev);
      } else {
        OtherRises(config, before, events, ev);
      }
    }
  }

  lemma OtherRises(config: Config, before: seq<Event>, events: seq<Event>, ev: Event)
    requires config.Valid() && events == before + [ev] && !(ev.Call? && Possible(Run(config, before), ev))
    requires Rises(config, before, Run(config, before).cache.order)
    ensures Rises(config, events, Step(config, Run(config, before), ev).cache.order)
  {
    assert events[..|events| - 1] == before && events[|events| - 1] == ev;
    OtherKeepsOrder(config, Run(config, before), ev);
  }

  lemma OtherKeepsOrder(config: Config, s: System, ev: Event)
    requires config.Valid() && Sane(s) && !(ev.Call? && Possible(s, ev))
    ensures Step(config, s, ev).cache.order == s.cache.order
  {
  }

  lemma UsedRises(config: Config, before: seq<Event>, events: seq<Event>, ev: Event)
    requires config.Valid() && events == before + [ev] && ev.Call? && Possible(Run(config, before), ev)
    requires Rises(config, before, Run(config, before).cache.order)
    ensures Rises(config, events, Step(config, Run(config, before), ev).cache.order)
  {
    var s := Run(config, before);
    var n := UsedGoesLast(config, s.cache, ev.key);
    var rest := Remove(s.cache.order, ev.key);
    RemoveRises(config, before, s.cache.order, ev.key);
    RemoveGone(s.cache.order, ev.key);
    RisesLater(config, before, rest, n);
    LastUseOfCall(config, before, events, ev);
    RisesMore(config, before, events, rest[n..], ev.key);
    CallKeepsOrder(config, s, ev.thread, ev.key);
  }

  lemma RisesLater(config: Config, events: seq<Event>, order: seq<Key>, n: nat)
    requires config.Valid() && Rises(config, events, order) && n <= |order|
    ensures Rises(config, events, order[n..])
  {
    forall i, j | 0 <= i < j < |order[n..]|
      ensures LastUse(config, events, order[n..][i]) < LastUse(config, events, order[n..][j])
    {
      assert order[n..][i] == order[i + n] && order[n..][j] == order[j + n];
    }
  }

  lemma {:induction false} RemoveGone(order: seq<Key>, key: Key)
    ensures key !in Remove(order, key)
  {
    if order != [] {
      RemoveGone(order[1..], key);
    }
  }

  lemma LastUseOfCall(config: Config, before: seq<Event>, events: seq<Event>, ev: Event)
    requires config.Valid() && events == before + [ev] && ev.Call? && Possible(Run(config, before), ev)
    ensures LastUse(config, events, ev.key) == |events|
    ensures forall k | k != ev.key :: LastUse(config, events, k) == LastUse(config, before, k)
  {
    assert events[..|events| - 1] == before && events[|events| - 1] == ev;
  }

  lemma RisesMore(config: Config, before: seq<Event>, events: seq<Event>, rest: seq<Key>, key: Key)
    requires config.Valid() && Rises(config, before, rest) && key !in rest && |events| == |before| + 1
    requires LastUse(config, events, key) == |events|
    requires forall k | k != key :: LastUse(config, events, k) == LastUse(config, before, k)
    ensures Rises(config, events, rest + [key])
  {
    forall i | 0 <= i < |rest|
      ensures LastUse(config, events, rest[i]) == LastUse(config, before, rest[i]) < |events|
    {
      assert rest[i] in rest;
      LastUseBound(config, before, rest[i]);
    }
    var longer := rest + [key];
    forall i, j | 0 <= i < j < |longer| ensures LastUse(config, events, longer[i]) < LastUse(config, events, longer[j]) {
      assert j < |rest| ==> LastUse(config, before, rest[i]) < LastUse(config, before, rest[j]);
    }
  }

  lemma CallKeepsOrder(config: Config, s: System, t: nat, key: Key)
    requires config.Valid() && Sane(s)
    ensures CallStep(config, s, t, key).cache.order == Touch(config, s.cache, key).order
  {
    TouchFacts(config, s.cache, key);
    TouchKeepsSane(s, Touch(config, s.cache, key), key);
    DecideKeepsSize(config, Touch(config, s.cache, key), key, s.now);
  }
}
