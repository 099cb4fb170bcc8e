/**
 What the check is for: exploring every way to match an accepted pattern from one
 place takes at most a constant of the pattern times the square of the text length.
 */
module RegexCost {
  import opened RegexTree
  import opened RegexWays
  import opened RegexSound
  import opened RegexSpan
  import opened RegexWork
  import opened RegexDead
  import opened RegexLinear

  // ---------------------------------------------------------------- the constants of a pattern

  /** The work on a node for every character that it takes, for each character of the text. */
  function Slope(u: Tables, node: Node): nat
    decreases node, 0
  {
    match node
    case Seq(items) => SeqSlope(u, items)
    case Alt(items) => AltSlope(u, items)
    case Repeat(body, _, high) => if high == 0 then 0 else Slope(u, body) + Base(u, body) + Cost(u, node)
    case _ => 0
  }

  function SeqSlope(u: Tables, items: seq<Node>): nat
    decreases items, 1
  {
    if items == [] then 0
    else Slope(u, items[0]) + SeqSlope(u, items[1..]) + Times(LineFactor(items[0]), SumCost(u, items[1..]))
  }

  function AltSlope(u: Tables, items: seq<Node>): nat
    decreases items, 1
  {
    if items == [] then 0 else Slope(u, items[0]) + AltSlope(u, items[1..])
  }

  /** The work on a node that takes nothing, for each character of the text. */
  function Base(u: Tables, node: Node): nat
    decreases node, 0
  {
    match node
    case Seq(items) => 1 + SeqBase(u, items)
    case Alt(items) => 1 + AltBase(u, items)
    case Repeat(body, low, high) =>
      Cost(u, node) + if high == 1 then Base(u, body) else Times(low, Base(u, body) + RoundsCost(u, body, low, high))
    case _ => Cost(u, node)
  }

  function SeqBase(u: Tables, items: seq<Node>): nat
    decreases items, 1
  {
    if items == [] then 0
    else Base(u, items[0]) + SeqBase(u, items[1..]) + SeqDeadCost(u, items[1..])
         + Times(LineFactor(items[0]), SumCost(u, items[1..]))
  }

  function AltBase(u: Tables, items: seq<Node>): nat
    decreases items, 1
  {
    if items == [] then 0 else Base(u, items[0]) + Cost(u, items[0]) + AltBase(u, items[1..])
  }

  function RoundsCost(u: Tables, body: Node, low: nat, high: nat): nat {
    Times(Rounds(low, high), Cost(u, body))
  }

  // ---------------------------------------------------------------- the bound

  /** The bound on work between two places: `slope` for each character in between, and `base`. */
  ghost function Bound(t: seq<int>, slope: nat, base: nat, i: nat, stop: nat): nat
    requires i <= stop
  {
    Times(|t| + 1, Times(slope, stop - i) + base)
  }

  lemma BoundMono(t: seq<int>, a: nat, c: nat, i: nat, stop: nat, b: nat, d: nat, j: nat, later: nat)
    requires j <= i <= stop <= later && a <= b && c <= d
    ensures c <= Times(|t| + 1, c) <= Bound(t, a, c, i, stop) <= Bound(t, b, d, j, later)
  {
    TimesMono(a, stop - i, b, later - j);
    TimesMono(|t| + 1, Times(a, stop - i) + c, |t| + 1, Times(b, later - j) + d);
    TimesMono(|t| + 1, c, |t| + 1, Times(a, stop - i) + c);
  }

  lemma BoundAdd(t: seq<int>, a: nat, c: nat, b: nat, d: nat, i: nat, stop: nat)
    requires i <= stop
    ensures Bound(t, a, c, i, stop) + Bound(t, b, d, i, stop) == Bound(t, a + b, c + d, i, stop)
  {
    TimesAdd(a, b, stop - i);
    TimesSum(|t| + 1, Times(a, stop - i) + c, Times(b, stop - i) + d);
  }

  lemma BoundBase(t: seq<int>, c: nat, i: nat, stop: nat)
    requires i <= stop
    ensures Bound(t, 0, c, i, stop) == Times(|t| + 1, c)
  {
  }

  /**
   Where the work on a node may be taken to stop: at the end of the text or,
   before a later choice, at the one end from which the rest can go on.
   */
  ghost predicate Stop(u: Tables, t: seq<int>, follow: Follow, ws: seq<nat>, stop: nat) {
    stop == |t| || (stop < |t| && follow.choice && stop in ws && Viable(u, t, follow.first, stop))
  }

  ghost function NodeBound(u: Tables, t: seq<int>, node: Node, i: nat, stop: nat): nat
    requires i <= stop
  {
    Bound(t, Slope(u, node), Base(u, node), i, stop)
  }

  /** The end that goes on is an end of the rest, taken from the one viable end of the first item. */
  lemma StopThroughRest(u: Tables, t: seq<int>, items: seq<Node>, follow: Follow, i: nat, stop: nat)
    returns (v: nat)
    requires u.Valid() && i <= |t| && AllWellFormed(items) && items != [] && stop < |t|
    requires Stop(u, t, follow, SeqWays(u, t, items, i), stop)
    ensures v in Ways(u, t, items[0], i) && v <= stop && stop in SeqWays(u, t, items[1..], v)
    ensures Viable(u, t, FollowOf(u, items[1..], follow).first, v)
  {
    v := SeqOverMember(u, t, items[1..], Ways(u, t, items[0], i), i, stop);
    if !Viable(u, t, FollowOf(u, items[1..], follow).first, v) {
      NonViableSeq(u, t, items[1..], follow, v);
      CountMember(u, t, follow.first, SeqWays(u, t, items[1..], v), stop);
    }
  }

  /**
   Exploring all ways to match an accepted node takes at most the text length times
   what its slope gives for the distance to where the work may be taken to stop, and its base.
   */
  lemma {:induction false} WorkBound(u: Tables, t: seq<int>, node: Node, follow: Follow, i: nat, stop: nat)
    requires u.Valid() && i <= stop <= |t| && WellFormed(node) && Moves(node) && Ok(u, node, follow)
    requires Stop(u, t, follow, Ways(u, t, node, i), stop)
    ensures Work(u, t, node, i) <= NodeBound(u, t, node, i, stop)
    decreases node, 2, 0, 0
  {
    match node
    case Seq(items) =>
      SeqBound(u, t, items, follow, i, stop);
      OneMore(t, SeqSlope(u, items), SeqBase(u, items), i, stop);
    case Alt(items) =>
      AltBound(u, t, items, follow, i, stop);
      OneMore(t, AltSlope(u, items), AltBase(u, items), i, stop);
    case Repeat(body, low, high) =>
      RepeatBound(u, t, node, follow, i, stop);
    case _ =>
      NoChoiceCost(u, t, node, i);
      BoundMono(t, 0, Cost(u, node), i, stop, 0, Cost(u, node), i, stop);
  }

  lemma OneMore(t: seq<int>, a: nat, c: nat, i: nat, stop: nat)
    requires i <= stop
    ensures 1 + Bound(t, a, c, i, stop) <= Bound(t, a, 1 + c, i, stop)
  {
    BoundAdd(t, a, c, 0, 1, i, stop);
    BoundMono(t, 0, 1, i, stop, 0, 1, i, stop);
  }

  // ---------------------------------------------------------------- sequences

  ghost function ItemsBound(u: Tables, t: seq<int>, items: seq<Node>, i: nat, stop: nat): nat
    requires i <= stop
  {
    Bound(t, SeqSlope(u, items), SeqBase(u, items), i, stop)
  }

  /** The work after the last choice of a sequence. */
  ghost function EndBound(u: Tables, t: seq<int>, items: seq<Node>, i: nat, stop: nat): nat
    requires items != [] && i <= stop
  {
    var c := Times(LineFactor(items[0]), SumCost(u, items[1..])); Bound(t, c, c, i, stop)
  }

  lemma {:induction false} SeqBound(u: Tables, t: seq<int>, items: seq<Node>, follow: Follow, i: nat, stop: nat)
    requires u.Valid() && i <= stop <= |t| && AllWellFormed(items) && AllMove(items)
    requires CheckSeq(u, items, follow).Accepted?
    requires Stop(u, t, follow, SeqWays(u, t, items, i), stop)
    ensures SeqWork(u, t, items, i) <= ItemsBound(u, t, items, i, stop)
    decreases items, 1, 0, 0
  {
    if items != [] {
      var ws, rest := Ways(u, t, items[0], i), items[1..];
      var next := FollowOf(u, rest, follow);
      SeqBoundParts(u, t, items, i, stop);
      if !next.choice {
        SeqEndBound(u, t, items, follow, i);
      } else if stop < |t| {
        var v := StopThroughRest(u, t, items, follow, i, stop);
        SeqViableBound(u, t, items, follow, i, stop, v);
      } else if v :| v in ws && v <= |t| && Viable(u, t, next.first, v) {
        SeqViableBound(u, t, items, follow, i, stop, v);
      } else {
        SeqDeadBound(u, t, items, follow, i);
      }
    }
  }

  lemma SeqBoundParts(u: Tables, t: seq<int>, items: seq<Node>, i: nat, stop: nat)
    requires items != [] && i <= stop
    ensures ItemsBound(u, t, items, i, stop)
         == NodeBound(u, t, items[0], i, stop) + ItemsBound(u, t, items[1..], i, stop)
            + Times(|t| + 1, SeqDeadCost(u, items[1..])) + EndBound(u, t, items, i, stop)
  {
    var x, rest := items[0], items[1..];
    var c := Times(LineFactor(x), SumCost(u, rest));
    BoundParts(t, Slope(u, x), Base(u, x), SeqSlope(u, rest), SeqBase(u, rest), SeqDeadCost(u, rest), c,
               SeqSlope(u, items), SeqBase(u, items), i, stop);
  }

  lemma BoundParts(
      t: seq<int>, a: nat, c: nat, b: nat, d: nat, dead: nat, e: nat, slope: nat, base: nat, i: nat, stop: nat)
    requires i <= stop && slope == a + b + e && base == c + d + dead + e
    ensures Bound(t, slope, base, i, stop)
         == Bound(t, a, c, i, stop) + Bound(t, b, d, i, stop) + Times(|t| + 1, dead) + Bound(t, e, e, i, stop)
  {
    BoundAdd(t, a, c, b, d, i, stop);
    BoundBase(t, dead, i, stop);
    BoundAdd(t, a + b, c + d, 0, dead, i, stop);
    BoundAdd(t, a + b, c + d + dead, e, e, i, stop);
  }

  /** No end of the first item goes on: from each the rest costs a constant. */
  lemma {:induction false} SeqDeadBound(u: Tables, t: seq<int>, items: seq<Node>, follow: Follow, i: nat)
    requires u.Valid() && i <= |t| && AllWellFormed(items) && AllMove(items) && CheckSeq(u, items, follow).Accepted?
    requires items != []
    requires FollowOf(u, items[1..], follow).choice
    requires forall v | v in Ways(u, t, items[0], i) && v <= |t| :: !Viable(u, t, FollowOf(u, items[1..], follow).first, v)
    ensures SeqWork(u, t, items, i)
         <= NodeBound(u, t, items[0], i, |t|) + Times(|t| + 1, SeqDeadCost(u, items[1..]))
    decreases items, 0, 0, 0
  {
    var ws, rest := Ways(u, t, items[0], i), items[1..];
    var next := FollowOf(u, rest, follow);
    WorkBound(u, t, items[0], next, i, |t|);
    forall w | w in ws && w <= |t| ensures SeqWork(u, t, rest, w) <= SeqDeadCost(u, rest) {
      NonViableSeq(u, t, rest, follow, w);
      DeadSeqWork(u, t, rest, follow, w);
    }
    SeqWorkEach(u, t, rest, ws, i, SeqDeadCost(u, rest));
    FewWays(u, t, items[0], next, i);
    TimesMono(|ws|, SeqDeadCost(u, rest), |t| + 1, SeqDeadCost(u, rest));
  }

  /** One end of the first item goes on: the work up to it and after it adds up. */
  lemma {:induction false} SeqViableBound(
      u: Tables, t: seq<int>, items: seq<Node>, follow: Follow, i: nat, stop: nat, v: nat)
    requires u.Valid() && i <= v <= stop <= |t|
    requires AllWellFormed(items) && AllMove(items) && CheckSeq(u, items, follow).Accepted? && items != []
    requires FollowOf(u, items[1..], follow).choice && Stop(u, t, follow, SeqWays(u, t, items, i), stop)
    requires v in Ways(u, t, items[0], i) && Viable(u, t, FollowOf(u, items[1..], follow).first, v)
    ensures SeqWork(u, t, items, i)
         <= NodeBound(u, t, items[0], i, stop) + ItemsBound(u, t, items[1..], i, stop)
            + Times(|t| + 1, SeqDeadCost(u, items[1..]))
    decreases items, 0, 0, 0
  {
    var x, ws, rest := items[0], Ways(u, t, items[0], i), items[1..];
    var next := FollowOf(u, rest, follow);
    WorkBound(u, t, x, next, i, v);
    BoundMono(t, Slope(u, x), Base(u, x), i, v, Slope(u, x), Base(u, x), i, stop);
    ViableUnique(u, t, x, next, i);
    if stop < |t| {
      var w := StopThroughRest(u, t, items, follow, i, stop);
      OneViable(u, t, next.first, ws, v, w);
    }
    SeqBound(u, t, rest, follow, v, stop);
    BoundMono(t, SeqSlope(u, rest), SeqBase(u, rest), v, stop, SeqSlope(u, rest), SeqBase(u, rest), i, stop);
    SeqAfterViable(u, t, items, follow, i, v, ItemsBound(u, t, rest, v, stop));
  }

  /** From the one end that goes on the rest costs `big`, from the others a constant. */
  lemma SeqAfterViable(u: Tables, t: seq<int>, items: seq<Node>, follow: Follow, i: nat, v: nat, big: nat)
    requires u.Valid() && i <= v <= |t| && AllWellFormed(items) && AllMove(items)
    requires CheckSeq(u, items, follow).Accepted? && items != []
    requires var next := FollowOf(u, items[1..], follow);
      next.choice && v in Ways(u, t, items[0], i) && Viable(u, t, next.first, v)
      && Count(u, t, next.first, Ways(u, t, items[0], i)) <= 1
    requires SeqWork(u, t, items[1..], v) <= big
    ensures SeqWorkOver(u, t, items[1..], Ways(u, t, items[0], i), i)
         <= Times(|t| + 1, SeqDeadCost(u, items[1..])) + big
  {
    var ws, rest, k := Ways(u, t, items[0], i), items[1..], SeqDeadCost(u, items[1..]);
    var next := FollowOf(u, rest, follow);
    forall w | w in ws && w <= |t|
      ensures SeqWork(u, t, rest, w) <= k + (if Viable(u, t, next.first, w) then big else 0)
    {
      if Viable(u, t, next.first, w) {
        OneViable(u, t, next.first, ws, v, w);
      } else {
        NonViableSeq(u, t, rest, follow, w);
        DeadSeqWork(u, t, rest, follow, w);
      }
    }
    SeqWorkSum(u, t, rest, ws, i, next.first, k, big);
    FewWays(u, t, items[0], next, i);
    TimesMono(|ws|, k, |t| + 1, k);
    TimesMono(Count(u, t, next.first, ws), big, 1, big);
  }

  /** The last choice of a sequence: what is left after it is plain, or a simple end of the pattern. */
  lemma {:induction false} SeqEndBound(u: Tables, t: seq<int>, items: seq<Node>, follow: Follow, i: nat)
    requires u.Valid() && i <= |t| && AllWellFormed(items) && AllMove(items) && CheckSeq(u, items, follow).Accepted?
    requires items != []
    requires !FollowOf(u, items[1..], follow).choice
    ensures SeqWork(u, t, items, i) <= NodeBound(u, t, items[0], i, |t|) + EndBound(u, t, items, i, |t|)
    decreases items, 0, 0, 0
  {
    var ws, rest := Ways(u, t, items[0], i), items[1..];
    var next := FollowOf(u, rest, follow);
    WorkBound(u, t, items[0], next, i, |t|);
    if rest == [] {
      EndWork(u, t, ws, i);
    } else {
      LinearWays(u, t, items[0], next, i);
      var each := Times(|t| + 1, SumCost(u, rest));
      forall w | w in ws && w <= |t| ensures SeqWork(u, t, rest, w) <= each {
        TailWork(u, t, rest, follow.end, w);
      }
      SeqWorkEach(u, t, rest, ws, i, each);
      TimesMono(|ws|, each, Times(LineFactor(items[0]), |t| + 1 - i), each);
      EndFits(t, LineFactor(items[0]), SumCost(u, rest), i);
    }
  }

  lemma EndFits(t: seq<int>, a: nat, c: nat, i: nat)
    requires i <= |t|
    ensures Times(Times(a, |t| + 1 - i), Times(|t| + 1, c)) == Bound(t, Times(a, c), Times(a, c), i, |t|)
  {
    var d := |t| - i;
    Regroup(a, d + 1, |t| + 1, c);
    TimesSum(Times(a, c), d, 1);
    TimesSwap(Times(a, c), 1);
    TimesNested(|t| + 1, 1, 0);
    TimesSwap(Times(a, c), d + 1);
    TimesSwap(Times(|t| + 1, d + 1), Times(a, c));
    TimesNested(|t| + 1, d + 1, Times(a, c));
  }

  lemma Regroup(a: nat, d: nat, n: nat, c: nat)
    ensures Times(Times(a, d), Times(n, c)) == Times(Times(a, c), Times(n, d))
  {
    TimesNested(a, d, Times(n, c));
    TimesNested(a, c, Times(n, d));
    TimesSwap(d, Times(n, c));
    TimesNested(n, c, d);
    TimesSwap(c, d);
    TimesNested(n, d, c);
    TimesSwap(Times(n, d), c);
  }

  // ---------------------------------------------------------------- alternations

  lemma {:induction false} AltBound(
      u: Tables, t: seq<int>, items: seq<Node>, follow: Follow, i: nat, stop: nat)
    requires u.Valid() && i <= stop <= |t| && WellFormed(Alt(items)) && Moves(Alt(items)) && Ok(u, Alt(items), follow)
    requires Stop(u, t, follow, AltWays(u, t, items, i), stop)
    ensures AltWork(u, t, items, i) <= Bound(t, AltSlope(u, items), AltBase(u, items), i, stop)
    decreases items, 1, 0, 0
  {
    forall k | 0 <= k < |items| ensures BranchFits(u, t, items[k], i, stop) {
      BranchBound(u, t, items, follow, i, stop, k);
    }
    AltSum(u, t, items, i, stop);
  }

  ghost predicate BranchFits(u: Tables, t: seq<int>, item: Node, i: nat, stop: nat)
    requires i <= stop <= |t|
  {
    Work(u, t, item, i) <= Bound(t, Slope(u, item), Base(u, item) + Cost(u, item), i, stop)
  }

  lemma {:induction false} AltSum(u: Tables, t: seq<int>, items: seq<Node>, i: nat, stop: nat)
    requires i <= stop <= |t| && forall k | 0 <= k < |items| :: BranchFits(u, t, items[k], i, stop)
    ensures AltWork(u, t, items, i) <= Bound(t, AltSlope(u, items), AltBase(u, items), i, stop)
    decreases |items|
  {
    if items != [] {
      var x, rest := items[0], items[1..];
      forall k | 0 <= k < |rest| ensures BranchFits(u, t, rest[k], i, stop) {
        assert rest[k] == items[k + 1];
      }
      AltSum(u, t, rest, i, stop);
      assert BranchFits(u, t, x, i, stop);
      BoundAdd(t, Slope(u, x), Base(u, x) + Cost(u, x), AltSlope(u, rest), AltBase(u, rest), i, stop);
    }
  }

  lemma {:induction false} BranchBound(
      u: Tables, t: seq<int>, items: seq<Node>, follow: Follow, i: nat, stop: nat, k: nat)
    requires u.Valid() && i <= stop <= |t| && WellFormed(Alt(items)) && Moves(Alt(items)) && Ok(u, Alt(items), follow)
    requires k < |items|
    requires Stop(u, t, follow, AltWays(u, t, items, i), stop)
    ensures BranchFits(u, t, items[k], i, stop)
    decreases items, 0, 0, 0
  {
    var x := items[k];
    WellFormedAt(items, k);
    MovesAt(items, k);
    BranchOk(u, items, follow, k);
    BoundMono(t, Slope(u, x), Base(u, x), i, stop, Slope(u, x), Base(u, x) + Cost(u, x), i, stop);
    BoundMono(t, 0, Cost(u, x), i, stop, Slope(u, x), Base(u, x) + Cost(u, x), i, stop);
    if stop == |t| {
      WorkBound(u, t, x, follow, i, stop);
    } else {
      var b := AltMember(u, t, items, i, stop);
      if k == b {
        WorkBound(u, t, x, follow, i, stop);
      } else {
        OtherBranchFails(u, t, items, follow, i, stop, k, b);
      }
    }
  }

  /** Where one branch reaches the end that goes on, every other branch fails after constant work. */
  lemma OtherBranchFails(
      u: Tables, t: seq<int>, items: seq<Node>, follow: Follow, i: nat, stop: nat, k: nat, b: nat)
    requires u.Valid() && i <= stop < |t| && WellFormed(Alt(items)) && Moves(Alt(items)) && Ok(u, Alt(items), follow)
    requires follow.choice
    requires k < |items| && b < |items| && k != b && stop in Ways(u, t, items[b], i) && Viable(u, t, follow.first, stop)
    ensures Work(u, t, items[k], i) <= Cost(u, items[k])
  {
    WellFormedAt(items, k);
    WellFormedAt(items, b);
    MovesAt(items, k);
    BranchOk(u, items, follow, k);
    if Deterministic(u, items) {
      ExcludedFails(u, t, items[k], items[b], follow, i);
    } else if Items(items[k]) == [] {
      DeadOnce(u, t, items[k], follow, i);
    } else if Items(items[b]) == [] {
      assert Ways(u, t, items[b], i) == [i];
      OptionalStops(u, t, items, follow.first, i);
      if Starts(u, First(items[k]), t[i]) {
        AltFirstPart(u, items, k, t[i]);
      }
      DeadOnce(u, t, items[k], follow, i);
    } else {
      PlainPair(u, items, k, b);
      ExcludedFails(u, t, items[k], items[b], follow, i);
    }
  }

  lemma {:induction false} AltFirstPart(u: Tables, items: seq<Node>, k: nat, code: int)
    requires k < |items| && Starts(u, First(items[k]), code)
    ensures Starts(u, AltFirst(items), code)
    decreases |items|
  {
    StartsAppend(u, First(items[0]), AltFirst(items[1..]), code);
    if k > 0 {
      assert items[1..][k - 1] == items[k];
      AltFirstPart(u, items[1..], k - 1, code);
    }
  }

  lemma {:induction false} PlainAppend(a: seq<Node>, b: seq<Node>)
    ensures Plain(a + b) == Plain(a) + Plain(b)
    decreases |a|
  {
    if a == [] {
      assert a + b == b;
    } else {
      var first, rest := a[0], a[1..];
      PlainAppend(rest, b);
      assert a == [first] + rest && a + b == [first] + (rest + b);
      PlainCons(first, rest);
      PlainCons(first, rest + b);
      PlainJoin(if Items(first) != [] then [first] else [], Plain(rest), Plain(b), Plain(a), Plain(a + b));
    }
  }

  lemma PlainJoin(head: seq<Node>, rest: seq<Node>, b: seq<Node>, a: seq<Node>, all: seq<Node>)
    requires a == head + rest && all == head + (rest + b)
    ensures all == a + b
  {
  }

  lemma PlainCons(head: Node, tail: seq<Node>)
    ensures Plain([head] + tail) == (if Items(head) != [] then [head] else []) + Plain(tail)
  {
    assert ([head] + tail)[1..] == tail;
  }

  /** A plain branch keeps its place among the plain branches. */
  lemma PlainAt(items: seq<Node>, k: nat)
    requires k < |items| && Items(items[k]) != []
    ensures |Plain(items[..k])| < |Plain(items)| && Plain(items)[|Plain(items[..k])|] == items[k]
    ensures |Plain(items[..k + 1])| == |Plain(items[..k])| + 1
  {
    var before, after := items[..k], items[k + 1..];
    assert items[..k + 1] == before + [items[k]];
    assert items == items[..k + 1] + after;
    PlainCons(items[k], []);
    assert [items[k]] + [] == [items[k]];
    PlainAppend(before, [items[k]]);
    PlainAppend(items[..k + 1], after);
  }

  lemma PlainOrder(items: seq<Node>, k: nat, b: nat)
    requires k < b < |items| && Items(items[k]) != []
    ensures |Plain(items[..k])| < |Plain(items[..b])|
  {
    PlainAt(items, k);
    var first, rest := items[..k + 1], items[k + 1..b];
    assert items[..b] == first + rest;
    PlainAppend(first, rest);
  }

  lemma PlainPair(u: Tables, items: seq<Node>, k: nat, b: nat)
    requires k < |items| && b < |items| && k != b && Items(items[k]) != [] && Items(items[b]) != []
    requires Deterministic(u, Plain(items))
    ensures Excludes(u, items[k], items[b]) || Excludes(u, items[b], items[k])
    ensures !Nullable(items[b])
  {
    var plain, p, q := Plain(items), |Plain(items[..k])|, |Plain(items[..b])|;
    PlainAt(items, k);
    PlainAt(items, b);
    if k < b {
      PlainOrder(items, k, b);
      assert Excludes(u, plain[p], plain[q]);
    } else {
      PlainOrder(items, b, k);
      assert Excludes(u, plain[q], plain[p]);
    }
  }

  // ---------------------------------------------------------------- repeats

  lemma {:induction false} RepeatBound(u: Tables, t: seq<int>, node: Node, follow: Follow, i: nat, stop: nat)
    requires u.Valid() && i <= stop <= |t| && node.Repeat? && WellFormed(node) && Moves(node) && Ok(u, node, follow)
    requires Stop(u, t, follow, Ways(u, t, node, i), stop)
    ensures Work(u, t, node, i) <= NodeBound(u, t, node, i, stop)
    decreases node, 1, 0, 0
  {
    var body, low, high := node.body, node.low, node.high;
    var inner := Inner(u, body, high, follow);
    BoundMono(t, 0, Cost(u, node), i, stop, Slope(u, node), Base(u, node), i, stop);
    if high == 1 {
      SingleBound(u, t, node, follow, i, stop);
    } else if high > 1 && inner.choice {
      RoundsBound(u, t, body, low, high, RoundsCost(u, body, low, high), inner, follow.first, i, stop);
      RoundsFit(u, t, node, i, stop);
    } else if high > 1 {
      SimpleLastWork(u, t, node, i);
    }
  }

  lemma {:induction false} SingleBound(u: Tables, t: seq<int>, node: Node, follow: Follow, i: nat, stop: nat)
    requires u.Valid() && i <= stop <= |t| && node.Repeat? && node.high == 1 && WellFormed(node) && Moves(node)
    requires Ok(u, node, follow)
    requires Stop(u, t, follow, Ways(u, t, node, i), stop)
    ensures Work(u, t, node, i) <= NodeBound(u, t, node, i, stop)
    decreases node, 0, 0, 0
  {
    var body, low := node.body, node.low;
    OneRoundWork(u, t, body, low, i);
    SingleRound(u, t, body, low, 1, i);
    BoundMono(t, 0, Cost(u, node), i, stop, Slope(u, node), Base(u, node), i, stop);
    if stop == |t| || stop in Ways(u, t, body, i) {
      WorkBound(u, t, body, follow, i, stop);
      SingleFits(u, t, node, i, stop);
    } else {
      SingleDead(u, t, body, low, follow, i, stop);
      RoundsPositive(u, body, low, 1);
    }
  }

  lemma SingleFits(u: Tables, t: seq<int>, node: Node, i: nat, stop: nat)
    requires i <= stop && node.Repeat? && node.high == 1
    ensures 1 + NodeBound(u, t, node.body, i, stop) <= NodeBound(u, t, node, i, stop)
  {
    var a, c := Slope(u, node.body), Base(u, node.body);
    OneMore(t, a, c, i, stop);
    BoundMono(t, a, 1 + c, i, stop, Slope(u, node), Base(u, node), i, stop);
  }

  lemma RoundsPositive(u: Tables, body: Node, low: nat, high: nat)
    requires low <= high && high > 0
    ensures Cost(u, body) <= RoundsCost(u, body, low, high)
  {
    TimesMono(1, Cost(u, body), Rounds(low, high), Cost(u, body));
  }

  /** The optional body is skipped: what goes on cannot start it. */
  lemma SingleDead(u: Tables, t: seq<int>, body: Node, low: nat, follow: Follow, i: nat, stop: nat)
    requires u.Valid() && i <= stop < |t| && WellFormed(body) && Moves(body) && low <= 1 && Ok(u, body, follow)
    requires follow.choice
    requires low == 1 || (Disjoint(u, First(body), follow.first) && !Nullable(body))
    requires stop in RepWays(u, t, body, low, 1, i) && stop !in Ways(u, t, body, i) && Viable(u, t, follow.first, stop)
    ensures Work(u, t, body, i) <= Cost(u, body)
  {
    SingleRound(u, t, body, low, 1, i);
    assert low == 0 && stop == i;
    StopsWhereViable(u, t, body, follow.first, i);
    DeadOnce(u, t, body, follow, i);
  }

  /** The bound on the rounds of a repeat that still needs `low` of them; `dead` is the cost of giving up. */
  ghost function RoundsRoom(u: Tables, t: seq<int>, body: Node, dead: nat, i: nat, stop: nat, low: nat): nat
    requires i <= stop
  {
    Room(t, Slope(u, body), Base(u, body) + dead, dead, i, stop, low)
  }

  ghost function Room(t: seq<int>, a: nat, b: nat, dead: nat, i: nat, stop: nat, low: nat): nat
    requires i <= stop
  {
    Times(|t| + 1, Times(a, stop - i) + Times(b, stop - i + low) + dead)
  }

  lemma RoundsFit(u: Tables, t: seq<int>, node: Node, i: nat, stop: nat)
    requires i <= stop && node.Repeat? && node.high > 1
    ensures var dead := RoundsCost(u, node.body, node.low, node.high);
      1 + RoundsRoom(u, t, node.body, dead, i, stop, node.low) <= NodeBound(u, t, node, i, stop)
  {
    var a, c, low := Slope(u, node.body), Base(u, node.body), node.low;
    var dead := RoundsCost(u, node.body, low, node.high);
    var sum, base := a + c + dead, 1 + Times(low, c + dead) + dead;
    RoomIsBound(t, a, c + dead, dead, i, stop, low, sum, base);
    BoundMono(t, sum, base, i, stop, Slope(u, node), Base(u, node), i, stop);
  }

  lemma RoomIsBound(
      t: seq<int>, a: nat, b: nat, dead: nat, i: nat, stop: nat, low: nat, sum: nat, base: nat)
    requires i <= stop && sum == a + b && base == 1 + Times(low, b) + dead
    ensures 1 + Room(t, a, b, dead, i, stop, low) <= Bound(t, sum, base, i, stop)
  {
    var n, d := |t| + 1, stop - i;
    RoomTimes(n, a, b, dead, d, low, sum, base);
  }

  lemma RoomTimes(n: nat, a: nat, b: nat, dead: nat, d: nat, low: nat, sum: nat, base: nat)
    requires n > 0 && sum == a + b && base == 1 + Times(low, b) + dead
    ensures 1 + Times(n, Times(a, d) + Times(b, d + low) + dead) <= Times(n, Times(sum, d) + base)
  {
    RoomInside(a, b, d, low);
    OneMoreTimes(n, Times(a, d) + Times(b, d + low) + dead);
  }

  lemma RoomInside(a: nat, b: nat, d: nat, low: nat)
    ensures Times(a, d) + Times(b, d + low) == Times(a + b, d) + Times(low, b)
  {
    TimesSum(b, d, low);
    TimesAdd(a, b, d);
    TimesSwap(b, low);
  }

  lemma OneMoreTimes(n: nat, x: nat)
    requires n > 0
    ensures 1 + Times(n, x) <= Times(n, 1 + x)
  {
    TimesSum(n, 1, x);
    TimesSwap(n, 1);
  }

  /** `Stop` for the rounds of a repeat that `more` follows. */
  ghost predicate RoundsStop(
      u: Tables, t: seq<int>, body: Node, low: nat, high: nat, more: seq<Chars>, i: nat, stop: nat)
    requires i <= |t|
  {
    stop == |t|
    || (stop < |t| && (low == high || Disjoint(u, First(body), more))
        && stop in RepWays(u, t, body, low, high, i) && Viable(u, t, more, stop))
  }

  /** The rounds of a body that is unique before another round or before `more`. */
  lemma {:induction false} RoundsBound(
      u: Tables, t: seq<int>, body: Node, low: nat, high: nat, dead: nat, inner: Follow, more: seq<Chars>,
      i: nat, stop: nat)
    requires u.Valid() && i <= stop <= |t| && WellFormed(body) && Moves(body) && low <= high && low < MAX_REPEAT
    requires RoundsCost(u, body, low, high) <= dead
    requires Ok(u, body, inner) && inner.choice && inner.first == First(body) + more
    requires RoundsStop(u, t, body, low, high, more, i, stop)
    ensures RepWork(u, t, body, low, high, i) <= RoundsRoom(u, t, body, dead, i, stop, low)
    decreases body, 3, |t| + 1 - i + low, 1
  {
    if high > 0 {
      if low == 0 && stop == i {
        if stop < |t| {
          StopsWhereViable(u, t, body, more, i);
        }
        DeadOnce(u, t, body, inner, i);
        DeadRounds(u, t, body, low, high, i);
        DeadFits(t, Slope(u, body), Base(u, body) + dead, dead, i, stop, low);
      } else {
        RoundBound(u, t, body, low, high, dead, inner, more, i, stop);
      }
    }
  }

  lemma DeadFits(t: seq<int>, a: nat, b: nat, dead: nat, i: nat, stop: nat, low: nat)
    requires i <= stop
    ensures dead <= Room(t, a, b, dead, i, stop, low)
  {
    var base := Times(b, stop - i + low) + dead;
    BoundMono(t, a, base, i, stop, a, base, i, stop);
  }

  /** The rounds that one more round leaves to be done. */
  function Fewer(low: nat): nat {
    if low > 0 then low - 1 else 0
  }

  /** Where the next round of a repeat may start: past its lower bound, only further on. */
  ghost function Next(u: Tables, t: seq<int>, body: Node, low: nat, i: nat): (r: seq<nat>)
    requires i <= |t|
    ensures Within(r, From(low, i), |t|)
  {
    if low > 0 then Ways(u, t, body, i) else After(Ways(u, t, body, i), i)
  }

  function From(low: nat, i: nat): nat {
    if low > 0 then i else i + 1
  }

  lemma RepWorkStep(u: Tables, t: seq<int>, body: Node, low: nat, high: nat, i: nat)
    requires i <= |t| && high > 0
    ensures RepWork(u, t, body, low, high, i)
         == Work(u, t, body, i)
            + RepWorkOver(u, t, body, Fewer(low), Less(high), Next(u, t, body, low, i), From(low, i))
  {
  }

  /** One more round, and the rounds after it. */
  lemma {:induction false} RoundBound(
      u: Tables, t: seq<int>, body: Node, low: nat, high: nat, dead: nat, inner: Follow, more: seq<Chars>,
      i: nat, stop: nat)
    requires u.Valid() && i <= stop <= |t| && WellFormed(body) && Moves(body) && low <= high && low < MAX_REPEAT
    requires high > 0
    requires RoundsCost(u, body, low, high) <= dead
    requires Ok(u, body, inner) && inner.choice && inner.first == First(body) + more
    requires RoundsStop(u, t, body, low, high, more, i, stop) && (low > 0 || stop != i)
    ensures RepWork(u, t, body, low, high, i) <= RoundsRoom(u, t, body, dead, i, stop, low)
    decreases body, 3, |t| + 1 - i + low, 0
  {
    var next, from := Next(u, t, body, low, i), From(low, i);
    RepWorkStep(u, t, body, low, high, i);
    FewNext(u, t, body, low, inner, i);
    if stop < |t| {
      var v := StopThroughRound(u, t, body, low, high, more, i, stop);
      ViableRoundBound(u, t, body, low, high, dead, inner, more, next, from, i, stop, v);
    } else if v :| v in next && v <= |t| && Viable(u, t, inner.first, v) {
      ViableRoundBound(u, t, body, low, high, dead, inner, more, next, from, i, stop, v);
    } else {
      DeadRoundBound(u, t, body, low, high, dead, inner, more, next, from, i);
    }
  }

  lemma FewNext(u: Tables, t: seq<int>, body: Node, low: nat, inner: Follow, i: nat)
    requires u.Valid() && i <= |t| && WellFormed(body) && Moves(body) && Ok(u, body, inner) && inner.choice
    ensures var next := Next(u, t, body, low, i);
      |next| <= |t| + 1 && Within(next, 0, |t|) && Count(u, t, inner.first, next) <= 1
      && forall w | w in next :: w in Ways(u, t, body, i)
  {
    ViableUnique(u, t, body, inner, i);
    FewWays(u, t, body, inner, i);
    if low == 0 {
      FewAfter(u, t, inner.first, Ways(u, t, body, i), i);
    }
  }

  lemma FewAfter(u: Tables, t: seq<int>, first: seq<Chars>, ws: seq<nat>, i: nat)
    requires Within(ws, i, |t|)
    ensures var next := After(ws, i);
      && |next| <= |ws| && Within(next, 0, |t|) && Count(u, t, first, next) <= Count(u, t, first, ws)
      && forall w | w in next :: w in ws
  {
    CountAfter(u, t, first, ws, i);
  }

  lemma {:induction false} DeadRoundBound(
      u: Tables, t: seq<int>, body: Node, low: nat, high: nat, dead: nat, inner: Follow, more: seq<Chars>,
      next: seq<nat>, from: nat, i: nat)
    requires u.Valid() && i <= |t| && WellFormed(body) && Moves(body) && low <= high && low < MAX_REPEAT && high > 0
    requires RoundsCost(u, body, low, high) <= dead && (low > 0 || |t| != i)
    requires Ok(u, body, inner) && inner.choice && inner.first == First(body) + more
    requires from <= |t| + 1 && Within(next, from, |t|) && |next| <= |t| + 1
    requires forall v | v in next && v <= |t| :: !Viable(u, t, inner.first, v)
    ensures Work(u, t, body, i) + RepWorkOver(u, t, body, Fewer(low), Less(high), next, from)
         <= RoundsRoom(u, t, body, dead, i, |t|, low)
    decreases body, 2, 1, 0
  {
    WorkBound(u, t, body, inner, i, |t|);
    forall w | w in next && w <= |t| ensures RepWork(u, t, body, Fewer(low), Less(high), w) <= dead {
      DeadRound(u, t, body, low, high, dead, inner, more, w);
    }
    RepWorkEach(u, t, body, Fewer(low), Less(high), next, from, dead);
    TimesMono(|next|, dead, |t| + 1, dead);
    LastRoundFits(t, Slope(u, body), Base(u, body), dead, i, |t|, low);
  }

  lemma LastRoundFits(t: seq<int>, a: nat, c: nat, dead: nat, i: nat, stop: nat, low: nat)
    requires i <= stop && stop - i + low > 0
    ensures Bound(t, a, c, i, stop) + Times(|t| + 1, dead) <= Room(t, a, c + dead, dead, i, stop, low)
  {
    var b := c + dead;
    BoundBase(t, dead, i, stop);
    BoundAdd(t, a, c, 0, dead, i, stop);
    TimesMono(1, 1, stop - i + low, 1);
    TimesSwap(1, b);
    TimesMono(b, 1, b, stop - i + low);
    BoundMono(t, a, b, i, stop, a, Times(b, stop - i + low) + dead, i, stop);
  }

  /** An end of a repeat, other than where it began, is one of the rounds after the first. */
  lemma RoundMember(u: Tables, t: seq<int>, body: Node, low: nat, high: nat, i: nat, stop: nat) returns (v: nat)
    requires i <= |t| && high > 0 && stop in RepWays(u, t, body, low, high, i) && (low > 0 || stop != i)
    ensures v in Next(u, t, body, low, i) && v <= |t| && stop in RepWays(u, t, body, Fewer(low), Less(high), v)
  {
    var ws := Ways(u, t, body, i);
    if low > 0 {
      v := RepOverMember(u, t, body, low - 1, Less(high), ws, i, stop);
    } else {
      v := PastLowMember(u, t, body, Less(high), ws, i, stop);
    }
  }

  lemma StopThroughRound(
      u: Tables, t: seq<int>, body: Node, low: nat, high: nat, more: seq<Chars>, i: nat, stop: nat)
    returns (v: nat)
    requires u.Valid() && i <= stop < |t| && WellFormed(body) && low <= high && low < MAX_REPEAT && high > 0
    requires RoundsStop(u, t, body, low, high, more, i, stop) && (low > 0 || stop != i)
    ensures v in Next(u, t, body, low, i) && v <= stop && RoundsStop(u, t, body, Fewer(low), Less(high), more, v, stop)
    ensures Viable(u, t, First(body) + more, v)
  {
    v := RoundMember(u, t, body, low, high, i, stop);
    if !Viable(u, t, First(body) + more, v) {
      NonViableRep(u, t, body, Fewer(low), Less(high), more, v);
      CountMember(u, t, more, RepWays(u, t, body, Fewer(low), Less(high), v), stop);
    }
  }

  /** A round that cannot start is given up. */
  lemma DeadRound(
      u: Tables, t: seq<int>, body: Node, low: nat, high: nat, dead: nat, inner: Follow, more: seq<Chars>, w: nat)
    requires u.Valid() && w <= |t| && WellFormed(body) && Moves(body) && low <= high && low < MAX_REPEAT && high > 0
    requires RoundsCost(u, body, low, high) <= dead
    requires Ok(u, body, inner) && inner.choice && inner.first == First(body) + more && !Viable(u, t, inner.first, w)
    ensures RepWork(u, t, body, Fewer(low), Less(high), w) <= dead
  {
    NonViableRep(u, t, body, Fewer(low), Less(high), more, w);
    DeadOnce(u, t, body, inner, w);
    DeadRounds(u, t, body, Fewer(low), Less(high), w);
    FewerRounds(u, body, low, high);
  }

  lemma FewerRounds(u: Tables, body: Node, low: nat, high: nat)
    requires low <= high && low < MAX_REPEAT && high > 0
    ensures Fewer(low) <= Less(high) && RoundsCost(u, body, Fewer(low), Less(high)) <= RoundsCost(u, body, low, high)
  {
    TimesMono(Rounds(Fewer(low), Less(high)), Cost(u, body), Rounds(low, high), Cost(u, body));
  }

  lemma {:induction false} ViableRoundBound(
      u: Tables, t: seq<int>, body: Node, low: nat, high: nat, dead: nat, inner: Follow, more: seq<Chars>,
      next: seq<nat>, from: nat, i: nat, stop: nat, v: nat)
    requires u.Valid() && i <= v <= stop <= |t| && WellFormed(body) && Moves(body) && low <= high && low < MAX_REPEAT
    requires high > 0
    requires RoundsCost(u, body, low, high) <= dead
    requires Ok(u, body, inner) && inner.choice && inner.first == First(body) + more
    requires from == From(low, i) && Within(next, from, |t|) && |next| <= |t| + 1
    requires v in next && v in Ways(u, t, body, i) && Viable(u, t, inner.first, v)
    requires Within(next, 0, |t|) && Count(u, t, inner.first, next) <= 1
    requires RoundsStop(u, t, body, Fewer(low), Less(high), more, v, stop)
    ensures Work(u, t, body, i) + RepWorkOver(u, t, body, Fewer(low), Less(high), next, from)
         <= RoundsRoom(u, t, body, dead, i, stop, low)
    decreases body, 3, |t| + 1 - v + Fewer(low), 2
  {
    WorkBound(u, t, body, inner, i, v);
    FewerRounds(u, body, low, high);
    RoundsBound(u, t, body, Fewer(low), Less(high), dead, inner, more, v, stop);
    RoundTogether(u, t, body, low, high, dead, inner, more, next, from, i, stop, v);
  }

  lemma RoundTogether(
      u: Tables, t: seq<int>, body: Node, low: nat, high: nat, dead: nat, inner: Follow, more: seq<Chars>,
      next: seq<nat>, from: nat, i: nat, stop: nat, v: nat)
    requires u.Valid() && i <= v <= stop <= |t| && WellFormed(body) && Moves(body) && low <= high && low < MAX_REPEAT
    requires high > 0 && RoundsCost(u, body, low, high) <= dead
    requires Ok(u, body, inner) && inner.choice && inner.first == First(body) + more
    requires from == From(low, i) && Within(next, from, |t|) && |next| <= |t| + 1
    requires v in next && Viable(u, t, inner.first, v)
    requires Within(next, 0, |t|) && Count(u, t, inner.first, next) <= 1
    requires Work(u, t, body, i) <= Bound(t, Slope(u, body), Base(u, body), i, v)
    requires RepWork(u, t, body, Fewer(low), Less(high), v) <= RoundsRoom(u, t, body, dead, v, stop, Fewer(low))
    ensures Work(u, t, body, i) + RepWorkOver(u, t, body, Fewer(low), Less(high), next, from)
         <= RoundsRoom(u, t, body, dead, i, stop, low)
  {
    AfterRounds(u, t, body, low, high, dead, inner, more, next, from, v, RoundsRoom(u, t, body, dead, v, stop, Fewer(low)));
    RoundFits(t, Slope(u, body), Base(u, body), dead, Base(u, body) + dead, i, v, stop, low);
  }

  /** A round and the rounds after it fit into the room of all of them. */
  lemma RoundFits(t: seq<int>, a: nat, c: nat, dead: nat, b: nat, i: nat, v: nat, stop: nat, low: nat)
    requires From(low, i) <= v <= stop && b == c + dead
    ensures Bound(t, a, c, i, v) + Times(|t| + 1, dead) + Room(t, a, b, dead, v, stop, Fewer(low))
         <= Room(t, a, b, dead, i, stop, low)
  {
    var n, d, e, all := |t| + 1, v - i, stop - v, stop - i;
    RoundsLeft(i, v, stop, low);
    RoomAdds(n, a, c, dead, b, d, e, all, e + Fewer(low), all + low);
  }

  lemma RoundsLeft(i: nat, v: nat, stop: nat, low: nat)
    requires From(low, i) <= v <= stop
    ensures 1 + (stop - v + Fewer(low)) <= stop - i + low
  {
  }

  lemma RoomAdds(
      n: nat, a: nat, c: nat, dead: nat, b: nat, d: nat, e: nat, all: nat, before: nat, after: nat)
    requires 1 + before <= after && b == c + dead && all == d + e
    ensures Times(n, Times(a, d) + c) + Times(n, dead) + Times(n, Times(a, e) + Times(b, before) + dead)
         <= Times(n, Times(a, all) + Times(b, after) + dead)
  {
    TimesSum(a, d, e);
    RoundMore(b, before, after);
    ThreeTerms(n, Times(a, d) + c, dead, Times(a, e) + Times(b, before) + dead, Times(a, all) + Times(b, after) + dead);
  }

  lemma RoundMore(b: nat, before: nat, after: nat)
    requires 1 + before <= after
    ensures b + Times(b, before) <= Times(b, after)
  {
    TimesSum(b, 1, before);
    TimesSwap(b, 1);
    TimesMono(b, 1 + before, b, after);
  }

  lemma {:induction false} ThreeTerms(n: nat, x: nat, y: nat, z: nat, sum: nat)
    requires x + y + z <= sum
    ensures Times(n, x) + Times(n, y) + Times(n, z) <= Times(n, sum)
    decreases n
  {
    if n > 0 {
      ThreeTerms(n - 1, x, y, z, sum);
    }
  }

  /** From the one end that goes on the rounds cost `big`, from the others a constant. */
  lemma AfterRounds(
      u: Tables, t: seq<int>, body: Node, low: nat, high: nat, dead: nat, inner: Follow, more: seq<Chars>,
      next: seq<nat>, from: nat, v: nat, big: nat)
    requires u.Valid() && WellFormed(body) && Moves(body) && low <= high && low < MAX_REPEAT && high > 0
    requires RoundsCost(u, body, low, high) <= dead && Ok(u, body, inner) && inner.choice
    requires from <= |t| + 1 && Within(next, from, |t|) && |next| <= |t| + 1
    requires inner.first == First(body) + more && Within(next, 0, |t|) && Count(u, t, inner.first, next) <= 1
    requires v in next && v <= |t| && Viable(u, t, inner.first, v)
    requires RepWork(u, t, body, Fewer(low), Less(high), v) <= big
    ensures RepWorkOver(u, t, body, Fewer(low), Less(high), next, from) <= Times(|t| + 1, dead) + big
  {
    forall w | w in next && w <= |t|
      ensures RepWork(u, t, body, Fewer(low), Less(high), w) <= dead + (if Viable(u, t, inner.first, w) then big else 0)
    {
      if Viable(u, t, inner.first, w) {
        OneViable(u, t, inner.first, next, v, w);
      } else {
        DeadRound(u, t, body, low, high, dead, inner, more, w);
      }
    }
    RepWorkSum(u, t, body, Fewer(low), Less(high), next, from, inner.first, dead, big);
    TimesMono(|next|, dead, |t| + 1, dead);
    TimesMono(Count(u, t, inner.first, next), big, 1, big);
  }

  // ---------------------------------------------------------------- what the check guarantees

  /** All the work of looking for the pattern at every place from `i` on. */
  ghost function SearchWork(u: Tables, t: seq<int>, node: Node, i: nat): nat
    requires i <= |t|
    decreases |t| - i
  {
    Work(u, t, node, i) + (if i == |t| then 0 else SearchWork(u, t, node, i + 1))
  }

  /** The constant of a pattern. */
  function Factor(u: Tables, node: Node): nat {
    Slope(u, node) + Base(u, node)
  }

  /**
   From one place, exploring every way to match a pattern tree that the check accepts
   takes at most `Factor(u, node) * (n + 1) * (n + 1)` steps. The factor of a pattern with a choice inside a
   look-around is not bounded by its size: the check does not look there.
   */
  lemma AcceptedIsQuadratic(u: Tables, t: seq<int>, node: Node, i: nat)
    requires u.Valid() && i <= |t| && WellFormed(node) && Moves(node) && Check(u, node, TOP) == Accepted
    ensures Work(u, t, node, i) <= Factor(u, node) * ((|t| + 1) * (|t| + 1))
    ensures |Ways(u, t, node, i)| <= Factor(u, node) * ((|t| + 1) * (|t| + 1))
  {
    AcceptedBound(u, t, node, i);
    BoundIsQuadratic(t, Slope(u, node), Base(u, node), i);
  }

  lemma AcceptedBound(u: Tables, t: seq<int>, node: Node, i: nat)
    requires u.Valid() && i <= |t| && WellFormed(node) && Moves(node) && Check(u, node, TOP) == Accepted
    ensures |Ways(u, t, node, i)| <= Work(u, t, node, i) <= Bound(t, Slope(u, node), Base(u, node), i, |t|)
  {
    WorkBound(u, t, node, TOP, i, |t|);
    WaysWithinWork(u, t, node, i);
  }

  lemma BoundIsQuadratic(t: seq<int>, a: nat, c: nat, i: nat)
    requires i <= |t|
    ensures Bound(t, a, c, i, |t|) <= (a + c) * ((|t| + 1) * (|t| + 1))
  {
    var n := |t| + 1;
    TimesMono(a, |t| - i, a, n);
    TimesSwap(n, c);
    TimesMono(1, c, n, c);
    TimesAdd(a, c, n);
    TimesMono(n, Times(a, |t| - i) + c, n, Times(a + c, n));
    TimesSwap(n, Times(a + c, n));
    TimesNested(a + c, n, n);
    TimesIsProduct(n, n);
    TimesIsProduct(a + c, Times(n, n));
  }

  /** A search in the whole text is at most cubic. */
  lemma {:induction false} AcceptedSearch(u: Tables, t: seq<int>, node: Node, i: nat)
    requires u.Valid() && i <= |t| && WellFormed(node) && Moves(node) && Check(u, node, TOP) == Accepted
    ensures SearchWork(u, t, node, i) <= (|t| + 1 - i) * (Factor(u, node) * ((|t| + 1) * (|t| + 1)))
    decreases |t| - i
  {
    AcceptedIsQuadratic(u, t, node, i);
    var each := Factor(u, node) * ((|t| + 1) * (|t| + 1));
    if i < |t| {
      AcceptedSearch(u, t, node, i + 1);
      assert (|t| + 1 - i) * each == (|t| - i) * each + each;
    } else {
      assert (|t| + 1 - i) * each == each;
    }
  }
}
