/**
 The limit on heavy operations of jobs.py: slots that are taken and given back by any
 number of threads. `release` marks the slot under its own lock and gives it back
 under the lock of the limiter, so the two are separate steps.
 */
module JobLimits {

  datatype User = User(name: string)

  /** `_total` and `_per_user`. */
  datatype Counts = Counts(total: int, perUser: map<User, int>)

  datatype Busy = TooManyOfUser(mine: int) | TooMany
  datatype Taken = Taken(counts: Counts) | Refused(busy: Busy)

  datatype Limits = Limits(maxTotal: nat, maxPerUser: nat)

  function CountOf(perUser: map<User, int>, user: User): int {
    if user in perUser then perUser[user] else 0
  }

  function Take(limits: Limits, c: Counts, user: User): Taken {
    var mine := CountOf(c.perUser, user);
    if mine >= limits.maxPerUser then Refused(TooManyOfUser(mine))
    else if c.total >= limits.maxTotal then Refused(TooMany)
    else Taken(Counts(c.total + 1, c.perUser[user := mine + 1]))
  }

  function GiveBack(c: Counts, user: User): Counts {
    var left := CountOf(c.perUser, user) - 1;
    Counts(if c.total - 1 > 0 then c.total - 1 else 0,
           if left > 0 then c.perUser[user := left] else c.perUser - {user})
  }

  // ---------------------------------------------------------------- the classes

  class JobLimiter {
    const limits: Limits
    var total: int
    var perUser: map<User, int>

    ghost function State(): Counts
      reads this
    {
      Counts(total, perUser)
    }

    constructor (limits: Limits)
      ensures this.limits == limits && State() == Counts(0, map[])
    {
      this.limits := limits;
      total, perUser := 0, map[];
    }

    method Acquire(user: User) returns (slot: Slot?, busy: Busy)
      modifies this
      ensures match Take(limits, old(State()), user)
              case Taken(counts) =>
                State() == counts && slot != null && fresh(slot)
                && slot.limiter == this && slot.user == user && !slot.released
              case Refused(reason) => State() == old(State()) && slot == null && busy == reason
    {
      busy := TooMany;
      slot := null;
      var mine := if user in perUser then perUser[user] else 0;
      if mine >= limits.maxPerUser {
        busy := TooManyOfUser(mine);
        return;
      }
      if total >= limits.maxTotal {
        return;
      }
      total := total + 1;
      perUser := perUser[user := mine + 1];
      slot := new Slot(this, user);
    }

    method Return(user: User)
      modifies this
      ensures State() == GiveBack(old(State()), user)
    {
      total := if total - 1 > 0 then total - 1 else 0;
      var left := (if user in perUser then perUser[user] else 0) - 1;
      if left > 0 {
        perUser := perUser[user := left];
      } else {
        perUser := perUser - {user};
      }
    }
  }

  class Slot {
    const limiter: JobLimiter
    const user: User
    var released: bool

    constructor (limiter: JobLimiter, user: User)
      ensures this.limiter == limiter && this.user == user && !released
    {
      this.limiter := limiter;
      this.user := user;
      released := false;
    }

    /** The part of `release` under the lock of the slot: whether this call gives it back. */
    method Mark() returns (mine: bool)
      modifies this`released
      ensures released && mine == !old(released)
    {
      mine := !released;
      released := true;
    }

    /** A release that no other thread interrupts. */
    method Release()
      modifies this`released, limiter
      ensures released
      ensures limiter.State() == if old(released) then old(limiter.State()) else GiveBack(old(limiter.State()), user)
    {
      var mine := Mark();
      if mine {
        limiter.Return(user);
      }
    }
  }

  // ---------------------------------------------------------------- all interleavings

  /** A slot is marked by the first release, and given back in a later step of the same call. */
  datatype Phase = Held | Marked | Returned
  datatype SlotState = SlotState(user: User, phase: Phase)

  datatype System = System(counts: Counts, slots: seq<SlotState>)

  datatype Event = Acquire(user: User) | Mark(slot: nat) | Return(slot: nat)

  const START := System(Counts(0, map[]), [])

  function Step(limits: Limits, s: System, ev: Event): System {
    match ev
    case Acquire(user) =>
      (match Take(limits, s.counts, user)
       case Taken(counts) => System(counts, s.slots + [SlotState(user, Held)])
       case Refused(_) => s)
    case Mark(i) =>
      if i < |s.slots| && s.slots[i].phase == Held then s.(slots := s.slots[i := s.slots[i].(phase := Marked)]) else s
    case Return(i) =>
      if i < |s.slots| && s.slots[i].phase == Marked then
        System(GiveBack(s.counts, s.slots[i].user), s.slots[i := s.slots[i].(phase := Returned)])
      else s
  }

  /** The slots that are not given back yet. */
  function Open(slots: seq<SlotState>): nat {
    if slots == [] then 0
    else Open(slots[..|slots| - 1]) + (if slots[|slots| - 1].phase == Returned then 0 else 1)
  }

  function OpenOf(slots: seq<SlotState>, user: User): nat {
    if slots == [] then 0
    else OpenOf(slots[..|slots| - 1], user)
         + (if slots[|slots| - 1].phase != Returned && slots[|slots| - 1].user == user then 1 else 0)
  }

  ghost predicate Invariant(limits: Limits, s: System) {
    && s.counts.total == Open(s.slots) <= limits.maxTotal
    && (forall user :: CountOf(s.counts.perUser, user) == OpenOf(s.slots, user) <= limits.maxPerUser)
    && (forall user | user in s.counts.perUser :: s.counts.perUser[user] > 0)
  }

  /** Changing the phase of one slot changes the counts by that slot. */
  lemma {:induction false} OpenUpdate(slots: seq<SlotState>, i: nat, phase: Phase, user: User)
    requires i < |slots|
    ensures var was, now := if slots[i].phase == Returned then 0 else 1, if phase == Returned then 0 else 1;
      && Open(slots[i := slots[i].(phase := phase)]) == Open(slots) + now - was
      && OpenOf(slots[i := slots[i].(phase := phase)], user)
         == OpenOf(slots, user) + (if slots[i].user == user then now - was else 0)
    decreases |slots|
  {
    var n := |slots| - 1;
    var changed := slots[i := slots[i].(phase := phase)];
    if i < n {
      OpenUpdate(slots[..n], i, phase, user);
      assert changed[..n] == slots[..n][i := slots[..n][i].(phase := phase)];
    } else {
      assert changed[..n] == slots[..n];
    }
  }

  lemma {:induction false} OpenAppend(slots: seq<SlotState>, slot: SlotState, user: User)
    ensures Open(slots + [slot]) == Open(slots) + (if slot.phase == Returned then 0 else 1)
    ensures OpenOf(slots + [slot], user)
         == OpenOf(slots, user) + (if slot.phase != Returned && slot.user == user then 1 else 0)
  {
    assert (slots + [slot])[..|slots|] == slots;
  }

  /** An open slot is counted: its user has one, and so has the total. */
  lemma {:induction false} OpenCounts(slots: seq<SlotState>, i: nat)
    requires i < |slots| && slots[i].phase != Returned
    ensures Open(slots) >= OpenOf(slots, slots[i].user) >= 1
    decreases |slots|
  {
    var n := |slots| - 1;
    if i < n {
      OpenCounts(slots[..n], i);
    } else {
      OpenOfWithin(slots, slots[i].user);
    }
  }

  lemma {:induction false} OpenOfWithin(slots: seq<SlotState>, user: User)
    ensures OpenOf(slots, user) <= Open(slots)
    decreases |slots|
  {
    if slots != [] {
      OpenOfWithin(slots[..|slots| - 1], user);
    }
  }

  lemma StepKeepsInvariant(limits: Limits, s: System, ev: Event)
    requires Invariant(limits, s)
    ensures Invariant(limits, Step(limits, s, ev))
  {
    match ev
    case Acquire(user) => AcquireKeepsInvariant(limits, s, user);
    case Mark(i) =>
      if i < |s.slots| && s.slots[i].phase == Held {
        MarkKeepsInvariant(limits, s, i);
      }
    case Return(i) =>
      if i < |s.slots| && s.slots[i].phase == Marked {
        ReturnKeepsInvariant(limits, s, i);
      }
  }

  lemma AcquireKeepsInvariant(limits: Limits, s: System, user: User)
    requires Invariant(limits, s)
    ensures Invariant(limits, Step(limits, s, Acquire(user)))
  {
    var longer := s.slots + [SlotState(user, Held)];
    forall u ensures OpenOf(longer, u) == OpenOf(s.slots, u) + (if u == user then 1 else 0) {
      OpenAppend(s.slots, SlotState(user, Held), u);
    }
    OpenAppend(s.slots, SlotState(user, Held), user);
  }

  lemma MarkKeepsInvariant(limits: Limits, s: System, i: nat)
    requires Invariant(limits, s) && i < |s.slots| && s.slots[i].phase == Held
    ensures Invariant(limits, Step(limits, s, Mark(i)))
  {
    var marked := s.slots[i := s.slots[i].(phase := Marked)];
    forall u ensures OpenOf(marked, u) == OpenOf(s.slots, u) {
      OpenUpdate(s.slots, i, Marked, u);
    }
    OpenUpdate(s.slots, i, Marked, s.slots[i].user);
  }

  lemma ReturnKeepsInvariant(limits: Limits, s: System, i: nat)
    requires Invariant(limits, s) && i < |s.slots| && s.slots[i].phase == Marked
    ensures Invariant(limits, Step(limits, s, Return(i)))
  {
    var user, r := s.slots[i].user, Step(limits, s, Return(i));
    OpenCounts(s.slots, i);
    OpenUpdate(s.slots, i, Returned, user);
    forall u ensures CountOf(r.counts.perUser, u) == OpenOf(r.slots, u) <= limits.maxPerUser {
      OpenUpdate(s.slots, i, Returned, u);
      assert CountOf(s.counts.perUser, u) == OpenOf(s.slots, u);
    }
  }

  ghost function Run(limits: Limits, events: seq<Event>): (s: System)
    ensures Invariant(limits, s)
  {
    if events == [] then START
    else
      var before := Run(limits, events[..|events| - 1]);
      StepKeepsInvariant(limits, before, events[|events| - 1]);
      Step(limits, before, events[|events| - 1])
  }

  /** In every run: a slot is refused if and only if as many as a limit allows are not given back yet. */
  lemma RefusedIff(limits: Limits, events: seq<Event>, user: User)
    ensures var s := Run(limits, events);
      && (Take(limits, s.counts, user).Refused? <==>
            OpenOf(s.slots, user) == limits.maxPerUser || Open(s.slots) == limits.maxTotal)
      && (Take(limits, s.counts, user).Refused? ==>
            Take(limits, s.counts, user).busy ==
              if OpenOf(s.slots, user) == limits.maxPerUser then TooManyOfUser(limits.maxPerUser) else TooMany)
  {
    var s := Run(limits, events);
    assert CountOf(s.counts.perUser, user) == OpenOf(s.slots, user) <= limits.maxPerUser;
  }

  function Sum(users: seq<User>, perUser: map<User, int>): int {
    if users == [] then 0 else CountOf(perUser, users[0]) + Sum(users[1..], perUser)
  }

  ghost predicate Enumerates(users: seq<User>, keys: set<User>) {
    && (forall i, j | 0 <= i < j < |users| :: users[i] != users[j])
    && (forall u :: u in users <==> u in keys)
  }

  function OpenSum(users: seq<User>, slots: seq<SlotState>): nat {
    if users == [] then 0 else OpenOf(slots, users[0]) + OpenSum(users[1..], slots)
  }

  lemma {:induction false} OpenSumStep(users: seq<User>, slots: seq<SlotState>)
    requires slots != [] && forall i, j | 0 <= i < j < |users| :: users[i] != users[j]
    ensures var last := slots[|slots| - 1];
      OpenSum(users, slots) == OpenSum(users, slots[..|slots| - 1])
        + (if last.phase != Returned && last.user in users then 1 else 0)
    decreases |users|
  {
    if users != [] {
      OpenSumStep(users[1..], slots);
      assert users == [users[0]] + users[1..];
    }
  }

  /** When the list holds every user of an open slot, the open slots of its users are all of them. */
  lemma {:induction false} OpenSumIsOpen(users: seq<User>, slots: seq<SlotState>)
    requires forall i, j | 0 <= i < j < |users| :: users[i] != users[j]
    requires forall k | 0 <= k < |slots| && slots[k].phase != Returned :: slots[k].user in users
    ensures OpenSum(users, slots) == Open(slots)
    decreases |slots|
  {
    if slots == [] {
      OpenSumEmpty(users);
    } else {
      OpenSumStep(users, slots);
      var before := slots[..|slots| - 1];
      assert forall k | 0 <= k < |before| :: before[k] == slots[k];
      OpenSumIsOpen(users, before);
    }
  }

  lemma {:induction false} OpenSumEmpty(users: seq<User>)
    ensures OpenSum(users, []) == 0
    decreases |users|
  {
    if users != [] {
      OpenSumEmpty(users[1..]);
    }
  }

  lemma {:induction false} SumIsOpenSum(users: seq<User>, perUser: map<User, int>, slots: seq<SlotState>)
    requires forall u :: CountOf(perUser, u) == OpenOf(slots, u)
    ensures Sum(users, perUser) == OpenSum(users, slots)
    decreases |users|
  {
    if users != [] {
      SumIsOpenSum(users[1..], perUser, slots);
    }
  }

  /**
   Conservation: in every run the total is the sum of the per-user counts and the number
   of slots not given back, and both limits hold.
   */
  lemma SlotsAreConserved(limits: Limits, events: seq<Event>, users: seq<User>)
    requires Enumerates(users, Run(limits, events).counts.perUser.Keys)
    ensures var s := Run(limits, events);
      && s.counts.total == Open(s.slots) == Sum(users, s.counts.perUser)
      && s.counts.total <= limits.maxTotal
      && forall u :: CountOf(s.counts.perUser, u) == OpenOf(s.slots, u) <= limits.maxPerUser
  {
    var s := Run(limits, events);
    SumIsOpenSum(users, s.counts.perUser, s.slots);
    forall k | 0 <= k < |s.slots| && s.slots[k].phase != Returned ensures s.slots[k].user in users {
      OpenCounts(s.slots, k);
      assert CountOf(s.counts.perUser, s.slots[k].user) >= 1;
    }
    OpenSumIsOpen(users, s.slots);
  }

  /** The clamp at zero never takes effect: what is given back was counted, in total and for its user. */
  lemma ClampIsIdle(limits: Limits, events: seq<Event>, i: nat)
    requires i < |Run(limits, events).slots| && Run(limits, events).slots[i].phase == Marked
    ensures var s := Run(limits, events);
      var r := Step(limits, s, Return(i));
      && r.counts.total == s.counts.total - 1 >= 0
      && CountOf(r.counts.perUser, s.slots[i].user) == CountOf(s.counts.perUser, s.slots[i].user) - 1 >= 0
  {
    OpenCounts(Run(limits, events).slots, i);
  }

  /** A slot is given back once, however often and wherever it is released. */
  lemma ReturnedStays(limits: Limits, events: seq<Event>, ev: Event, i: nat)
    requires i < |Run(limits, events).slots| && Run(limits, events).slots[i].phase == Returned
    ensures var s := Run(limits, events);
      && i < |Step(limits, s, ev).slots| && Step(limits, s, ev).slots[i].phase == Returned
      && Step(limits, s, Mark(i)) == s && Step(limits, s, Return(i)) == s
  {
  }

  /** When every slot is given back nothing is left counted. */
  lemma AllReturned(limits: Limits, events: seq<Event>)
    requires forall k | 0 <= k < |Run(limits, events).slots| :: Run(limits, events).slots[k].phase == Returned
    ensures Run(limits, events).counts == Counts(0, map[])
  {
    var s := Run(limits, events);
    OpenSumIsOpen([], s.slots);
    forall u ensures u !in s.counts.perUser {
      OpenOfWithin(s.slots, u);
    }
    assert s.counts.perUser == map[];
  }
}
