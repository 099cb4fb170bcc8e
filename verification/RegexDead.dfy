/**
 Places where a part of an accepted pattern can take no character: there each of its
 parts is visited once, or as often as the last choice of the pattern has empty ways.
 */
module RegexDead {
  import opened RegexTree
  import opened RegexWays
  import opened RegexSound
  import opened RegexSpan
  import opened RegexWork

  /** A place where nothing that starts with one of these sets can take a character. */
  ghost predicate Dead(u: Tables, t: seq<int>, first: seq<Chars>, i: nat)
    requires i <= |t|
  {
    i == |t| || !Starts(u, first, t[i])
  }

  lemma DeadTakesNothing(u: Tables, t: seq<int>, body: Node, i: nat)
    requires i <= |t| && WellFormed(body) && Dead(u, t, First(body), i)
    ensures forall w | w in Ways(u, t, body, i) :: w == i
    ensures After(Ways(u, t, body, i), i) == []
  {
    forall w | w in Ways(u, t, body, i) ensures w == i {
      if w > i {
        FirstSound(u, t, body, i, w);
      }
    }
    if After(Ways(u, t, body, i), i) != [] {
      assert After(Ways(u, t, body, i), i)[0] in Ways(u, t, body, i);
    }
  }

  /** At a dead place of a sequence its first item takes nothing, and where it matches the rest is dead as well. */
  lemma DeadRest(u: Tables, t: seq<int>, items: seq<Node>, i: nat)
    requires i <= |t| && AllWellFormed(items) && items != [] && Dead(u, t, SeqFirst(items), i)
    ensures Dead(u, t, First(items[0]), i)
    ensures forall w | w in Ways(u, t, items[0], i) :: w == i
    ensures Ways(u, t, items[0], i) != [] ==> Dead(u, t, SeqFirst(items[1..]), i)
  {
    if i < |t| {
      StartsAppend(u, First(items[0]), SeqFirst(items[1..]), t[i]);
    }
    DeadTakesNothing(u, t, items[0], i);
    NullableIff(u, t, items[0], i);
    if Ways(u, t, items[0], i) != [] {
      assert Ways(u, t, items[0], i)[0] in Ways(u, t, items[0], i);
    }
  }

  lemma DeadBranches(u: Tables, t: seq<int>, items: seq<Node>, i: nat)
    requires i <= |t| && items != [] && Dead(u, t, AltFirst(items), i)
    ensures Dead(u, t, First(items[0]), i) && Dead(u, t, AltFirst(items[1..]), i)
  {
    if i < |t| {
      StartsAppend(u, First(items[0]), AltFirst(items[1..]), t[i]);
    }
  }

  /** A repeat whose body has at most one way here, and takes nothing. */
  lemma {:induction false} DeadRounds(u: Tables, t: seq<int>, body: Node, low: nat, high: nat, i: nat)
    requires i <= |t| && WellFormed(body) && Dead(u, t, First(body), i) && low <= high && low < MAX_REPEAT
    requires |Ways(u, t, body, i)| <= 1 && Work(u, t, body, i) <= Cost(u, body)
    ensures RepWork(u, t, body, low, high, i) <= Times(Rounds(low, high), Cost(u, body))
    decreases low
  {
    if high > 0 && low > 0 {
      DeadRounds(u, t, body, low - 1, Less(high), i);
      DeadRoundStep(u, t, body, low, high, i);
    } else if high > 0 {
      DeadTakesNothing(u, t, body, i);
    }
  }

  lemma DeadRoundStep(u: Tables, t: seq<int>, body: Node, low: nat, high: nat, i: nat)
    requires i <= |t| && WellFormed(body) && Dead(u, t, First(body), i) && 0 < low <= high
    requires |Ways(u, t, body, i)| <= 1
    ensures RepWork(u, t, body, low, high, i) <= Work(u, t, body, i) + RepWork(u, t, body, low - 1, Less(high), i)
  {
    var ws := Ways(u, t, body, i);
    DeadTakesNothing(u, t, body, i);
    if ws != [] {
      assert ws[0] in ws;
      assert RepWorkOver(u, t, body, low - 1, Less(high), ws[1..], i) == 0;
    }
  }

  // ---------------------------------------------------------------- before a later choice

  /** Before a later choice an accepted node has at most one way at a dead place, and visits each of its parts once. */
  lemma {:induction false} DeadOnce(u: Tables, t: seq<int>, node: Node, follow: Follow, i: nat)
    requires u.Valid() && i <= |t| && WellFormed(node) && Moves(node) && Ok(u, node, follow) && follow.choice
    requires Dead(u, t, First(node), i)
    ensures |Ways(u, t, node, i)| <= 1 && Work(u, t, node, i) <= Cost(u, node)
    decreases node, 0
  {
    DeadOneWay(u, t, node, follow, i);
    match node
    case Char(_) =>
    case Zero =>
    case Look(body) => AroundCost(u, t, body, i);
    case Behind(body) =>
      if Width(body) <= i {
        AroundCost(u, t, body, i - Width(body));
      }
    case Seq(items) => DeadOnceSeq(u, t, items, follow, i);
    case Alt(items) => DeadOnceAlt(u, t, items, follow, i);
    case Repeat(body, low, high) =>
      DeadOnce(u, t, body, Inner(u, body, high, follow), i);
      DeadRounds(u, t, body, low, high, i);
  }

  lemma DeadOneWay(u: Tables, t: seq<int>, node: Node, follow: Follow, i: nat)
    requires u.Valid() && i <= |t| && WellFormed(node) && Moves(node) && Ok(u, node, follow) && follow.choice
    requires Dead(u, t, First(node), i)
    ensures |Ways(u, t, node, i)| <= 1
  {
    var ws := Ways(u, t, node, i);
    DeadTakesNothing(u, t, node, i);
    SpanUnique(u, t, node, follow, i, i);
    assert Within(ws, i, i);
    DistinctIsShort(ws, i, i);
  }

  lemma {:induction false} DeadOnceAlt(u: Tables, t: seq<int>, items: seq<Node>, follow: Follow, i: nat)
    requires u.Valid() && i <= |t| && AllWellFormed(items) && AllMove(items)
    requires CheckBranches(u, items, follow).Accepted? && follow.choice
    requires Dead(u, t, AltFirst(items), i)
    ensures AltWork(u, t, items, i) <= SumCost(u, items)
    decreases items, 1
  {
    if items != [] {
      DeadBranches(u, t, items, i);
      DeadOnce(u, t, items[0], follow, i);
      DeadOnceAlt(u, t, items[1..], follow, i);
    }
  }

  lemma {:induction false} DeadOnceSeq(u: Tables, t: seq<int>, items: seq<Node>, follow: Follow, i: nat)
    requires u.Valid() && i <= |t| && AllWellFormed(items) && AllMove(items) && CheckSeq(u, items, follow).Accepted?
    requires follow.choice
    requires Dead(u, t, SeqFirst(items), i)
    ensures SeqWork(u, t, items, i) <= SumCost(u, items)
    decreases items, 1
  {
    if items != [] {
      var ws, rest := Ways(u, t, items[0], i), items[1..];
      DeadRest(u, t, items, i);
      DeadOnce(u, t, items[0], FollowOf(u, rest, follow), i);
      if ws != [] {
        assert ws[0] in ws;
        DeadOnceSeq(u, t, rest, follow, i);
      }
      SeqOverOne(u, t, rest, ws, i);
    }
  }

  // ---------------------------------------------------------------- with no choice after it

  /** How many empty ways the last choice inside a node can have. */
  function DeadWays(node: Node): nat
    decreases node, 0
  {
    match node
    case Seq(items) => SeqDeadWays(items)
    case Alt(items) => AltDeadWays(items)
    case Repeat(body, _, high) => if high == 0 then 1 else 1 + DeadWays(body)
    case _ => 1
  }

  function SeqDeadWays(items: seq<Node>): nat
    decreases items, 1
  {
    if items == [] then 1 else DeadWays(items[0]) + SeqDeadWays(items[1..])
  }

  function AltDeadWays(items: seq<Node>): nat
    decreases items, 1
  {
    if items == [] then 0 else DeadWays(items[0]) + AltDeadWays(items[1..])
  }

  lemma {:induction false} NoLaterChoice(u: Tables, rest: seq<Node>)
    requires !LaterChoice(u, rest, false)
    ensures !AnyChoice(u, rest)
    decreases |rest|
  {
    if rest != [] {
      NoLaterChoice(u, rest[1..]);
    }
  }

  lemma {:induction false} DeadFew(u: Tables, t: seq<int>, node: Node, follow: Follow, i: nat)
    requires u.Valid() && i <= |t| && WellFormed(node) && Moves(node) && Ok(u, node, follow) && !follow.choice
    requires !follow.end
    requires Dead(u, t, First(node), i)
    ensures |Ways(u, t, node, i)| <= DeadWays(node)
    decreases node, 0
  {
    match node
    case Seq(items) => DeadFewSeq(u, t, items, follow, i);
    case Alt(items) => DeadFewAlt(u, t, items, follow, i);
    case Repeat(body, low, high) => DeadFewRounds(u, t, body, low, high, follow, i);
    case _ =>
  }

  lemma {:induction false} DeadFewAlt(u: Tables, t: seq<int>, items: seq<Node>, follow: Follow, i: nat)
    requires u.Valid() && i <= |t| && AllWellFormed(items) && AllMove(items)
    requires CheckBranches(u, items, follow).Accepted?
    requires !follow.choice && !follow.end && Dead(u, t, AltFirst(items), i)
    ensures |AltWays(u, t, items, i)| <= AltDeadWays(items)
    decreases items, 1
  {
    if items != [] {
      DeadBranches(u, t, items, i);
      DeadFew(u, t, items[0], follow, i);
      DeadFewAlt(u, t, items[1..], follow, i);
    }
  }

  lemma {:induction false} DeadFewSeq(u: Tables, t: seq<int>, items: seq<Node>, follow: Follow, i: nat)
    requires u.Valid() && i <= |t| && AllWellFormed(items) && AllMove(items) && CheckSeq(u, items, follow).Accepted?
    requires !follow.choice && !follow.end && Dead(u, t, SeqFirst(items), i)
    ensures |SeqWays(u, t, items, i)| <= SeqDeadWays(items)
    decreases items, 1
  {
    if items != [] {
      var ws, rest := Ways(u, t, items[0], i), items[1..];
      var next := FollowOf(u, rest, follow);
      DeadRest(u, t, items, i);
      if next.choice {
        DeadOneWay(u, t, items[0], next, i);
        if ws != [] {
          assert ws[0] in ws;
          DeadFewSeq(u, t, rest, follow, i);
          assert SeqOver(u, t, rest, ws[1..], i) == [];
        }
      } else {
        DeadFew(u, t, items[0], next, i);
        NoLaterChoice(u, rest);
        forall w | w in ws && w <= |t| ensures |SeqWays(u, t, rest, w)| <= 1 {
          SeqOneWay(u, t, rest, w);
        }
        SeqWaysEach(u, t, rest, ws, i, 1);
        TimesSwap(|ws|, 1);
      }
    }
  }

  lemma {:induction false} DeadFewRounds(
      u: Tables, t: seq<int>, body: Node, low: nat, high: nat, follow: Follow, i: nat)
    requires u.Valid() && i <= |t| && WellFormed(body) && low <= high && low < MAX_REPEAT
    requires Moves(Repeat(body, low, high))
    requires Ok(u, body, Inner(u, body, high, follow)) && !follow.choice && !follow.end
    requires Dead(u, t, First(body), i)
    ensures |RepWays(u, t, body, low, high, i)| <= if high == 0 then 1 else 1 + DeadWays(body)
    decreases body, 1
  {
    DeadTakesNothing(u, t, body, i);
    if high <= 1 {
      SingleRound(u, t, body, low, high, i);
      if high == 1 {
        DeadFew(u, t, body, follow, i);
      }
    } else {
      if IsChoice(u, body) {
        DeadOneWay(u, t, body, Inner(u, body, high, follow), i);
      } else {
        OneWay(u, t, body, i);
      }
      DeadRoundsOnce(u, t, body, low, high, i);
    }
  }

  lemma {:induction false} DeadRoundsOnce(u: Tables, t: seq<int>, body: Node, low: nat, high: nat, i: nat)
    requires i <= |t| && WellFormed(body) && Dead(u, t, First(body), i) && |Ways(u, t, body, i)| <= 1
    requires low <= high && low < MAX_REPEAT && (low == high || !Nullable(body))
    ensures |RepWays(u, t, body, low, high, i)| <= 1
    decreases low
  {
    var ws := Ways(u, t, body, i);
    DeadTakesNothing(u, t, body, i);
    if high > 0 && low == 0 {
      MovingRepeat(u, t, body, high, i);
    } else if high > 0 && ws != [] {
      assert ws[0] in ws;
      DeadRoundsOnce(u, t, body, low - 1, Less(high), i);
      assert RepOver(u, t, body, low - 1, Less(high), ws[1..], i) == [];
    }
  }

  /** The work on a node at a dead place, with no choice after it. */
  function DeadCost(u: Tables, node: Node): nat
    decreases node, 0
  {
    match node
    case Seq(items) => 1 + SeqDeadCost(u, items)
    case Alt(items) => 1 + AltDeadCost(u, items)
    case Repeat(body, _, high) => Cost(u, node) + if high == 1 then DeadCost(u, body) else 0
    case _ => Cost(u, node)
  }

  function SeqDeadCost(u: Tables, items: seq<Node>): nat
    decreases items, 1
  {
    if items == [] then 0
    else Cost(u, items[0]) + DeadCost(u, items[0]) + SeqDeadCost(u, items[1..])
         + Times(DeadWays(items[0]), SumCost(u, items[1..]))
  }

  function AltDeadCost(u: Tables, items: seq<Node>): nat
    decreases items, 1
  {
    if items == [] then 0 else DeadCost(u, items[0]) + AltDeadCost(u, items[1..])
  }

  lemma {:induction false} DeadWork(u: Tables, t: seq<int>, node: Node, follow: Follow, i: nat)
    requires u.Valid() && i <= |t| && WellFormed(node) && Moves(node) && Ok(u, node, follow) && !follow.choice
    requires Dead(u, t, First(node), i)
    ensures Work(u, t, node, i) <= DeadCost(u, node)
    decreases node, 0
  {
    match node
    case Char(_) =>
    case Zero =>
    case Look(body) => AroundCost(u, t, body, i);
    case Behind(body) =>
      if Width(body) <= i {
        AroundCost(u, t, body, i - Width(body));
      }
    case Seq(items) => DeadSeqWork(u, t, items, follow, i);
    case Alt(items) => DeadAltWork(u, t, items, follow, i);
    case Repeat(body, low, high) => DeadRepeatWork(u, t, body, low, high, follow, i);
  }

  lemma {:induction false} DeadAltWork(u: Tables, t: seq<int>, items: seq<Node>, follow: Follow, i: nat)
    requires u.Valid() && i <= |t| && AllWellFormed(items) && AllMove(items)
    requires CheckBranches(u, items, follow).Accepted?
    requires !follow.choice && Dead(u, t, AltFirst(items), i)
    ensures AltWork(u, t, items, i) <= AltDeadCost(u, items)
    decreases items, 1
  {
    if items != [] {
      DeadBranches(u, t, items, i);
      DeadWork(u, t, items[0], follow, i);
      DeadAltWork(u, t, items[1..], follow, i);
    }
  }

  /** A sequence at a dead place, whatever comes after it. */
  lemma {:induction false} DeadSeqWork(u: Tables, t: seq<int>, items: seq<Node>, follow: Follow, i: nat)
    requires u.Valid() && i <= |t| && AllWellFormed(items) && AllMove(items) && CheckSeq(u, items, follow).Accepted?
    requires Dead(u, t, SeqFirst(items), i)
    ensures SeqWork(u, t, items, i) <= SeqDeadCost(u, items)
    decreases items, 1
  {
    if items != [] {
      var ws, rest := Ways(u, t, items[0], i), items[1..];
      var next := FollowOf(u, rest, follow);
      DeadRest(u, t, items, i);
      if next.choice {
        DeadOnce(u, t, items[0], next, i);
        if ws != [] {
          assert ws[0] in ws;
          DeadSeqWork(u, t, rest, follow, i);
        }
        SeqOverOne(u, t, rest, ws, i);
      } else {
        DeadWork(u, t, items[0], next, i);
        DeadTailWork(u, t, items, follow, i);
      }
    }
  }

  /** What comes after the last choice, from each of its empty ways. */
  lemma DeadTailWork(u: Tables, t: seq<int>, items: seq<Node>, follow: Follow, i: nat)
    requires u.Valid() && i <= |t| && AllWellFormed(items) && AllMove(items) && CheckSeq(u, items, follow).Accepted?
    requires items != []
    requires Dead(u, t, SeqFirst(items), i) && !FollowOf(u, items[1..], follow).choice
    ensures SeqWorkOver(u, t, items[1..], Ways(u, t, items[0], i), i)
         <= Times(DeadWays(items[0]), SumCost(u, items[1..]))
  {
    var ws, rest := Ways(u, t, items[0], i), items[1..];
    DeadRest(u, t, items, i);
    if rest == [] {
      SeqWorkEach(u, t, rest, ws, i, 0);
      TimesSwap(|ws|, 0);
    } else {
      DeadFew(u, t, items[0], FollowOf(u, rest, follow), i);
      forall w | w in ws && w <= |t| ensures SeqWork(u, t, rest, w) <= SumCost(u, rest) {
        DeadTail(u, t, rest, follow.end, i);
      }
      SeqWorkEach(u, t, rest, ws, i, SumCost(u, rest));
      TimesMono(|ws|, SumCost(u, rest), DeadWays(items[0]), SumCost(u, rest));
    }
  }

  /** Parts without a choice, and a simple last one, at a dead place. */
  lemma {:induction false} DeadTail(u: Tables, t: seq<int>, rest: seq<Node>, end: bool, i: nat)
    requires u.Valid() && i <= |t| && AllWellFormed(rest) && !LaterChoice(u, rest, end)
    requires Dead(u, t, SeqFirst(rest), i)
    ensures SeqWork(u, t, rest, i) <= SumCost(u, rest)
    decreases |rest|
  {
    if rest != [] {
      var ws, more := Ways(u, t, rest[0], i), rest[1..];
      DeadRest(u, t, rest, i);
      if IsChoice(u, rest[0]) {
        DeadSimple(u, t, rest[0], i);
        SeqWorkEach(u, t, more, ws, i, 0);
        TimesSwap(|ws|, 0);
      } else {
        NoChoiceCost(u, t, rest[0], i);
        if ws != [] {
          assert ws[0] in ws;
          DeadTail(u, t, more, end, i);
        }
        SeqOverOne(u, t, more, ws, i);
      }
    }
  }

  lemma DeadSimple(u: Tables, t: seq<int>, node: Node, i: nat)
    requires u.Valid() && i <= |t| && WellFormed(node) && SimpleLast(u, node) && Dead(u, t, First(node), i)
    ensures Work(u, t, node, i) <= Cost(u, node)
  {
    match node
    case Alt(items) => NoChoiceAlt(u, t, items, i);
    case Repeat(body, low, high) =>
      NoChoiceCost(u, t, body, i);
      DeadRounds(u, t, body, low, high, i);
  }

  lemma {:induction false} DeadRepeatWork(
      u: Tables, t: seq<int>, body: Node, low: nat, high: nat, follow: Follow, i: nat)
    requires u.Valid() && i <= |t| && WellFormed(body) && Moves(body) && low <= high && low < MAX_REPEAT
    requires Ok(u, body, Inner(u, body, high, follow)) && !follow.choice && Dead(u, t, First(body), i)
    ensures RepWork(u, t, body, low, high, i)
         <= Times(Rounds(low, high), Cost(u, body)) + if high == 1 then DeadCost(u, body) else 0
    decreases body, 1
  {
    if high == 1 {
      OneRoundWork(u, t, body, low, i);
      DeadWork(u, t, body, follow, i);
    } else if high > 1 {
      if IsChoice(u, body) {
        DeadOnce(u, t, body, Inner(u, body, high, follow), i);
      } else {
        NoChoiceCost(u, t, body, i);
      }
      DeadRounds(u, t, body, low, high, i);
    }
  }

  /** After the only round of a repeat nothing is left to do. */
  lemma OneRoundWork(u: Tables, t: seq<int>, body: Node, low: nat, i: nat)
    requires i <= |t| && low <= 1
    ensures RepWork(u, t, body, low, 1, i) == Work(u, t, body, i)
  {
    if low == 1 {
      NoRounds(u, t, body, Ways(u, t, body, i), i);
    } else {
      NoRounds(u, t, body, After(Ways(u, t, body, i), i), i + 1);
    }
  }

  lemma {:induction false} NoRounds(u: Tables, t: seq<int>, body: Node, ws: seq<nat>, from: nat)
    requires from <= |t| + 1 && Within(ws, from, |t|)
    ensures RepWorkOver(u, t, body, 0, 0, ws, from) == 0
    decreases |ws|
  {
    if ws != [] {
      NoRounds(u, t, body, ws[1..], from);
    }
  }

  // ---------------------------------------------------------------- branches that exclude each other

  /** Of two branches that exclude each other, one fails where the other matches, and visits no part of it twice. */
  lemma ExcludedFails(u: Tables, t: seq<int>, a: Node, b: Node, follow: Follow, i: nat)
    requires u.Valid() && i <= |t| && WellFormed(a) && Moves(a) && WellFormed(b) && Ok(u, a, follow) && follow.choice
    requires (Excludes(u, a, b) || Excludes(u, b, a)) && !Nullable(b) && Ways(u, t, b, i) != []
    ensures Work(u, t, a, i) <= Cost(u, a)
  {
    StartsWithFirst(u, t, b, i);
    StartsWithPrefix(u, t, b, i);
    var p, q := Prefix(a, []).0, Prefix(b, []).0;
    if Disjoint(u, First(a), First(b)) {
      DisjointSound(u, First(a), First(b), t[i]);
      DeadOnce(u, t, a, follow, i);
    } else if Disjoint(u, First(b), First(a)) {
      DisjointSound(u, First(b), First(a), t[i]);
      DeadOnce(u, t, a, follow, i);
    } else {
      MismatchOf(u, t, p, q, i);
      assert p[0..] == p;
      PrefixFails(u, t, a, [], i);
    }
  }
}
