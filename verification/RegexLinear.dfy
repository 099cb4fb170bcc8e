/**
 The parts of an accepted pattern that no choice comes after: at most linearly many
 ways, and linear work for a simple end of the pattern.
 */
module RegexLinear {
  import opened RegexTree
  import opened RegexWays
  import opened RegexSound
  import opened RegexSpan
  import opened RegexWork
  import opened RegexDead

  // ---------------------------------------------------------------- one chain of rounds

  /** A repeat of a body without a choice has one chain of rounds. */
  lemma {:induction false} ChainWays(u: Tables, t: seq<int>, body: Node, low: nat, high: nat, i: nat)
    requires u.Valid() && i <= |t| && WellFormed(body) && !IsChoice(u, body)
    requires low <= high && low < MAX_REPEAT && (low == high || !Nullable(body))
    ensures |RepWays(u, t, body, low, high, i)| <= |t| + 1 - i
    decreases |t| + 1 - i + low, 0
  {
    if high > 0 {
      OneWay(u, t, body, i);
      if low > 0 {
        RepNeeded(u, t, body, low, high, i);
        ChainWaysFrom(u, t, body, low - 1, Less(high), Ways(u, t, body, i), i);
      } else {
        MovingRepeat(u, t, body, high, i);
        ChainWaysFrom(u, t, body, 0, Less(high), After(Ways(u, t, body, i), i), i + 1);
      }
    }
  }

  lemma {:induction false} ChainWaysFrom(
      u: Tables, t: seq<int>, body: Node, low: nat, high: nat, ws: seq<nat>, from: nat)
    requires u.Valid() && from <= |t| + 1 && Within(ws, from, |t|) && |ws| <= 1
    requires WellFormed(body) && !IsChoice(u, body)
    requires low <= high && low < MAX_REPEAT && (low == high || !Nullable(body))
    ensures |RepOver(u, t, body, low, high, ws, from)| <= |t| + 1 - from
    decreases |t| + 1 - from + low, 1
  {
    if ws != [] {
      ChainWays(u, t, body, low, high, ws[0]);
      RepOverOne(u, t, body, low, high, ws, from);
    }
  }

  lemma RepOverOne(u: Tables, t: seq<int>, body: Node, low: nat, high: nat, ws: seq<nat>, from: nat)
    requires from <= |t| + 1 && Within(ws, from, |t|) && |ws| == 1
    ensures RepOver(u, t, body, low, high, ws, from) == RepWays(u, t, body, low, high, ws[0])
    ensures RepWorkOver(u, t, body, low, high, ws, from) == RepWork(u, t, body, low, high, ws[0])
  {
    assert RepOver(u, t, body, low, high, ws[1..], from) == [];
  }

  lemma {:induction false} ChainWork(u: Tables, t: seq<int>, body: Node, low: nat, high: nat, i: nat)
    requires u.Valid() && i <= |t| && WellFormed(body) && !IsChoice(u, body)
    ensures RepWork(u, t, body, low, high, i) <= Times(|t| + 1 - i + low, Cost(u, body))
    decreases |t| + 1 - i + low, 0
  {
    if high > 0 {
      NoChoiceCost(u, t, body, i);
      if low > 0 {
        ChainWorkFrom(u, t, body, low - 1, Less(high), Ways(u, t, body, i), i);
      } else {
        ChainWorkFrom(u, t, body, 0, Less(high), After(Ways(u, t, body, i), i), i + 1);
      }
    }
  }

  lemma {:induction false} ChainWorkFrom(
      u: Tables, t: seq<int>, body: Node, low: nat, high: nat, ws: seq<nat>, from: nat)
    requires u.Valid() && from <= |t| + 1 && Within(ws, from, |t|) && |ws| <= 1
    requires WellFormed(body) && !IsChoice(u, body)
    ensures RepWorkOver(u, t, body, low, high, ws, from) <= Times(|t| + 1 - from + low, Cost(u, body))
    decreases |t| + 1 - from + low, 1
  {
    if ws != [] {
      ChainWork(u, t, body, low, high, ws[0]);
      RepOverOne(u, t, body, low, high, ws, from);
      TimesMono(|t| + 1 - ws[0] + low, Cost(u, body), |t| + 1 - from + low, Cost(u, body));
    }
  }

  // ---------------------------------------------------------------- linearly many ways

  /** The factor in the number of ways of a node with no choice after it, not at the end of the pattern. */
  function LineFactor(node: Node): nat
    decreases node, 0
  {
    match node
    case Seq(items) => SeqLineFactor(items)
    case Alt(items) => AltLineFactor(items)
    case Repeat(body, _, high) => if high == 0 then 1 else 1 + LineFactor(body)
    case _ => 1
  }

  function SeqLineFactor(items: seq<Node>): nat
    decreases items, 1
  {
    if items == [] then 1
    else SeqDeadWays(items[1..]) + SeqLineFactor(items[1..]) + LineFactor(items[0])
  }

  function AltLineFactor(items: seq<Node>): nat
    decreases items, 1
  {
    if items == [] then 0 else LineFactor(items[0]) + AltLineFactor(items[1..])
  }

  /** Two viable members are one and the same when only one is counted. */
  lemma {:induction false} OneViable(u: Tables, t: seq<int>, first: seq<Chars>, ws: seq<nat>, v: nat, w: nat)
    requires Within(ws, 0, |t|) && Count(u, t, first, ws) <= 1
    requires v in ws && w in ws && v <= |t| && w <= |t| && Viable(u, t, first, v) && Viable(u, t, first, w)
    ensures v == w
    decreases |ws|
  {
    if ws[0] == v || ws[0] == w {
      if v in ws[1..] {
        CountMember(u, t, first, ws[1..], v);
      }
      if w in ws[1..] {
        CountMember(u, t, first, ws[1..], w);
      }
    } else {
      OneViable(u, t, first, ws[1..], v, w);
    }
  }

  lemma {:induction false} LinearWays(u: Tables, t: seq<int>, node: Node, follow: Follow, i: nat)
    requires u.Valid() && i <= |t| && WellFormed(node) && Moves(node) && Ok(u, node, follow) && !follow.choice
    requires !follow.end
    ensures |Ways(u, t, node, i)| <= Times(LineFactor(node), |t| + 1 - i)
    decreases node, 0
  {
    match node
    case Seq(items) => LinearSeq(u, t, items, follow, i);
    case Alt(items) => LinearAlt(u, t, items, follow, i);
    case Repeat(body, low, high) => LinearRep(u, t, body, low, high, follow, i);
    case _ =>
  }

  lemma {:induction false} LinearRep(
      u: Tables, t: seq<int>, body: Node, low: nat, high: nat, follow: Follow, i: nat)
    requires u.Valid() && i <= |t| && WellFormed(body) && low <= high && low < MAX_REPEAT
    requires Moves(Repeat(body, low, high))
    requires Ok(u, body, Inner(u, body, high, follow)) && !follow.choice && !follow.end
    ensures |RepWays(u, t, body, low, high, i)| <= Times(if high == 0 then 1 else 1 + LineFactor(body), |t| + 1 - i)
    decreases body, 1
  {
    AtLeastOnce(LineFactor(body), |t| + 1 - i);
    if high <= 1 {
      SingleRound(u, t, body, low, high, i);
      if high == 1 {
        LinearWays(u, t, body, follow, i);
      }
    } else if IsChoice(u, body) {
      FewRounds(u, t, body, low, high, Inner(u, body, high, follow), follow.first, i);
    } else {
      ChainWays(u, t, body, low, high, i);
    }
  }

  lemma AtLeastOnce(f: nat, d: nat)
    requires d > 0
    ensures 1 <= d == Times(1, d) <= Times(1 + f, d) && 1 + Times(f, d) <= Times(1 + f, d)
  {
    TimesAdd(1, f, d);
  }

  lemma {:induction false} LinearAlt(u: Tables, t: seq<int>, items: seq<Node>, follow: Follow, i: nat)
    requires u.Valid() && i <= |t| && AllWellFormed(items) && AllMove(items)
    requires CheckBranches(u, items, follow).Accepted?
    requires !follow.choice && !follow.end
    ensures |AltWays(u, t, items, i)| <= Times(AltLineFactor(items), |t| + 1 - i)
    decreases items, 1
  {
    if items != [] {
      LinearWays(u, t, items[0], follow, i);
      LinearAlt(u, t, items[1..], follow, i);
      TimesAdd(LineFactor(items[0]), AltLineFactor(items[1..]), |t| + 1 - i);
    }
  }

  lemma {:induction false} LinearSeq(u: Tables, t: seq<int>, items: seq<Node>, follow: Follow, i: nat)
    requires u.Valid() && i <= |t| && AllWellFormed(items) && AllMove(items) && CheckSeq(u, items, follow).Accepted?
    requires !follow.choice && !follow.end
    ensures |SeqWays(u, t, items, i)| <= Times(SeqLineFactor(items), |t| + 1 - i)
    decreases items, 1
  {
    if items != [] {
      var ws, rest, d := Ways(u, t, items[0], i), items[1..], |t| + 1 - i;
      var next := FollowOf(u, rest, follow);
      TimesAdd(SeqDeadWays(rest) + SeqLineFactor(rest), LineFactor(items[0]), d);
      if next.choice {
        LinearSeqViable(u, t, items, follow, i);
        TimesAdd(SeqDeadWays(rest), SeqLineFactor(rest), d);
      } else {
        NoLaterChoice(u, rest);
        LinearWays(u, t, items[0], next, i);
        forall w | w in ws && w <= |t| ensures |SeqWays(u, t, rest, w)| <= 1 {
          SeqOneWay(u, t, rest, w);
        }
        SeqWaysEach(u, t, rest, ws, i, 1);
        TimesSwap(|ws|, 1);
      }
    }
  }

  /** When a choice comes after the first item, one of its ends goes on and the others are dead. */
  lemma {:induction false} LinearSeqViable(u: Tables, t: seq<int>, items: seq<Node>, follow: Follow, i: nat)
    requires u.Valid() && i <= |t| && AllWellFormed(items) && AllMove(items) && CheckSeq(u, items, follow).Accepted?
    requires items != []
    requires !follow.choice && !follow.end && FollowOf(u, items[1..], follow).choice
    ensures |SeqWays(u, t, items, i)|
         <= Times(SeqDeadWays(items[1..]), |t| + 1 - i) + Times(SeqLineFactor(items[1..]), |t| + 1 - i)
    decreases items, 0
  {
    var ws, rest, d := Ways(u, t, items[0], i), items[1..], |t| + 1 - i;
    var next := FollowOf(u, rest, follow);
    var big := Times(SeqLineFactor(rest), d);
    forall w | w in ws && w <= |t|
      ensures |SeqWays(u, t, rest, w)| <= SeqDeadWays(rest) + (if Viable(u, t, next.first, w) then big else 0)
    {
      LinearSeqRest(u, t, items, follow, i, w);
    }
    SeqWaysSum(u, t, rest, ws, i, next.first, SeqDeadWays(rest), big);
    ViableUnique(u, t, items[0], next, i);
    FewWays(u, t, items[0], next, i);
    TimesMono(|ws|, SeqDeadWays(rest), d, SeqDeadWays(rest));
    TimesMono(Count(u, t, next.first, ws), big, 1, big);
    TimesSwap(d, SeqDeadWays(rest));
  }

  lemma {:induction false} LinearSeqRest(u: Tables, t: seq<int>, items: seq<Node>, follow: Follow, i: nat, w: nat)
    requires u.Valid() && i <= w <= |t| && AllWellFormed(items) && AllMove(items)
    requires CheckSeq(u, items, follow).Accepted? && items != []
    requires !follow.choice && !follow.end
    ensures |SeqWays(u, t, items[1..], w)|
         <= SeqDeadWays(items[1..])
            + (if Viable(u, t, FollowOf(u, items[1..], follow).first, w)
               then Times(SeqLineFactor(items[1..]), |t| + 1 - i) else 0)
    decreases items[1..], 2
  {
    var rest := items[1..];
    if Viable(u, t, FollowOf(u, rest, follow).first, w) {
      LinearSeq(u, t, rest, follow, w);
      TimesMono(SeqLineFactor(rest), |t| + 1 - w, SeqLineFactor(rest), |t| + 1 - i);
    } else {
      NonViableSeq(u, t, rest, follow, w);
      DeadFewSeq(u, t, rest, follow, w);
    }
  }

  // ---------------------------------------------------------------- the end of the pattern

  /** A part without a choice, or a simple repeat or alternation. */
  lemma SimpleLastWork(u: Tables, t: seq<int>, node: Node, i: nat)
    requires u.Valid() && i <= |t| && WellFormed(node) && (!IsChoice(u, node) || SimpleLast(u, node))
    ensures Work(u, t, node, i) <= Times(|t| + 1, Cost(u, node))
  {
    TimesMono(1, Cost(u, node), |t| + 1, Cost(u, node));
    if !IsChoice(u, node) {
      NoChoiceCost(u, t, node, i);
    } else if node.Alt? {
      NoChoiceAlt(u, t, node.items, i);
    } else {
      ChainWork(u, t, node.body, node.low, node.high, i);
      ChainBound(|t| + 1, i, node.low, Cost(u, node.body));
      TimesSum(|t| + 1, 1, Times(1 + node.low, Cost(u, node.body)));
      TimesSwap(|t| + 1, 1);
    }
  }

  lemma ChainBound(n: nat, i: nat, low: nat, c: nat)
    requires i < n
    ensures Times(n - i + low, c) <= Times(n, Times(1 + low, c))
  {
    TimesNested(n, 1 + low, c);
    TimesIsProduct(n, 1 + low);
    assert n * (1 + low) >= n + low by {
      assert n * (1 + low) == n + low + (n - 1) * low;
    }
    TimesMono(n - i + low, c, Times(n, 1 + low), c);
  }

  lemma {:induction false} TailWork(u: Tables, t: seq<int>, rest: seq<Node>, end: bool, i: nat)
    requires u.Valid() && i <= |t| && AllWellFormed(rest) && !LaterChoice(u, rest, end)
    ensures SeqWork(u, t, rest, i) <= Times(|t| + 1, SumCost(u, rest))
    decreases |rest|
  {
    if rest != [] {
      var ws, more := Ways(u, t, rest[0], i), rest[1..];
      SimpleLastWork(u, t, rest[0], i);
      TimesSum(|t| + 1, Cost(u, rest[0]), SumCost(u, more));
      if IsChoice(u, rest[0]) {
        EndWork(u, t, ws, i);
      } else {
        NoChoiceCost(u, t, rest[0], i);
        if ws != [] {
          TailWork(u, t, more, end, ws[0]);
        }
        SeqOverOne(u, t, more, ws, i);
      }
    }
  }

  /** After the last item nothing is left to do. */
  lemma EndWork(u: Tables, t: seq<int>, ws: seq<nat>, i: nat)
    requires Within(ws, i, |t|)
    ensures SeqWorkOver(u, t, [], ws, i) == 0
  {
    SeqWorkEach(u, t, [], ws, i, 0);
    TimesSwap(|ws|, 0);
  }
}
