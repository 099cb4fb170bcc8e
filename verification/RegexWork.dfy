/**
 How much work exhaustive backtracking does, and where that work is bounded by
 a constant of the pattern: in parts without a choice, and at places where the plain
 start of a part does not match.
 */
module RegexWork {
  import opened RegexTree
  import opened RegexWays
  import opened RegexSound

  // ---------------------------------------------------------------- products

  /** `n * x`, written as a repeated sum so that proofs about bounds stay linear. */
  function Times(n: nat, x: nat): nat {
    if n == 0 then 0 else x + Times(n - 1, x)
  }

  lemma {:induction false} TimesIsProduct(n: nat, x: nat)
    ensures Times(n, x) == n * x
  {
    if n > 0 {
      TimesIsProduct(n - 1, x);
      assert n * x == (n - 1) * x + x;
    }
  }

  lemma {:induction false} TimesMono(a: nat, x: nat, b: nat, y: nat)
    requires a <= b && x <= y
    ensures Times(a, x) <= Times(b, y)
    decreases b
  {
    if a > 0 {
      TimesMono(a - 1, x, b - 1, y);
    }
  }

  lemma {:induction false} TimesAdd(a: nat, b: nat, x: nat)
    ensures Times(a + b, x) == Times(a, x) + Times(b, x)
    decreases a
  {
    if a > 0 {
      TimesAdd(a - 1, b, x);
    }
  }

  lemma {:induction false} TimesSum(n: nat, x: nat, y: nat)
    ensures Times(n, x + y) == Times(n, x) + Times(n, y)
    decreases n
  {
    if n > 0 {
      TimesSum(n - 1, x, y);
    }
  }

  lemma TimesSwap(a: nat, b: nat)
    ensures Times(a, b) == Times(b, a)
  {
    TimesIsProduct(a, b);
    TimesIsProduct(b, a);
  }

  lemma {:induction false} TimesNested(a: nat, b: nat, x: nat)
    ensures Times(Times(a, b), x) == Times(a, Times(b, x))
    decreases a
  {
    if a > 0 {
      TimesNested(a - 1, b, x);
      TimesAdd(b, Times(a - 1, b), x);
    }
  }

  // ---------------------------------------------------------------- the work

  /** How far back a look-behind looks: its body takes a fixed number of characters. */
  function Width(node: Node): nat
    decreases node, 0
  {
    match node
    case Char(_) => 1
    case Seq(items) => SeqWidth(items)
    case Alt(items) => if items == [] then 0 else Width(items[0])
    case Repeat(body, low, _) => Times(low, Width(body))
    case _ => 0
  }

  function SeqWidth(items: seq<Node>): nat
    decreases items, 1
  {
    if items == [] then 0 else Width(items[0]) + SeqWidth(items[1..])
  }

  /** The nodes that are visited when every way to match the node at `i` is explored. */
  ghost function Work(u: Tables, t: seq<int>, node: Node, i: nat): nat
    requires i <= |t|
    decreases node, 0, 0, 0, 0
  {
    match node
    case Char(_) => 1
    case Zero => 1
    case Look(body) => 1 + Work(u, t, body, i)
    case Behind(body) => 1 + if Width(body) <= i then Work(u, t, body, i - Width(body)) else 0
    case Seq(items) => 1 + SeqWork(u, t, items, i)
    case Alt(items) => 1 + AltWork(u, t, items, i)
    case Repeat(body, low, high) => 1 + RepWork(u, t, body, low, high, i)
  }

  ghost function SeqWork(u: Tables, t: seq<int>, items: seq<Node>, i: nat): nat
    requires i <= |t|
    decreases items, 0, 0, 0, 0
  {
    if items == [] then 0
    else Work(u, t, items[0], i) + SeqWorkOver(u, t, items[1..], Ways(u, t, items[0], i), i)
  }

  ghost function SeqWorkOver(u: Tables, t: seq<int>, rest: seq<Node>, ws: seq<nat>, i: nat): nat
    requires Within(ws, i, |t|)
    decreases rest, 1, |ws|, 0, 0
  {
    if ws == [] then 0 else SeqWork(u, t, rest, ws[0]) + SeqWorkOver(u, t, rest, ws[1..], i)
  }

  ghost function AltWork(u: Tables, t: seq<int>, items: seq<Node>, i: nat): nat
    requires i <= |t|
    decreases items, 0, 0, 0, 0
  {
    if items == [] then 0 else Work(u, t, items[0], i) + AltWork(u, t, items[1..], i)
  }

  ghost function RepWork(u: Tables, t: seq<int>, body: Node, low: nat, high: nat, i: nat): nat
    requires i <= |t|
    decreases body, 1, |t| + 1 - i + low, 0, 0
  {
    if high == 0 then 0
    else if low > 0 then
      Work(u, t, body, i) + RepWorkOver(u, t, body, low - 1, Less(high), Ways(u, t, body, i), i)
    else
      Work(u, t, body, i) + RepWorkOver(u, t, body, 0, Less(high), After(Ways(u, t, body, i), i), i + 1)
  }

  ghost function RepWorkOver(u: Tables, t: seq<int>, body: Node, low: nat, high: nat, ws: seq<nat>, from: nat): nat
    requires from <= |t| + 1 && Within(ws, from, |t|)
    decreases body, 1, |t| + 1 - from + low, 1, |ws|
  {
    if ws == [] then 0
    else RepWork(u, t, body, low, high, ws[0]) + RepWorkOver(u, t, body, low, high, ws[1..], from)
  }

  // ---------------------------------------------------------------- every way costs a step

  lemma {:induction false} WaysWithinWork(u: Tables, t: seq<int>, node: Node, i: nat)
    requires i <= |t|
    ensures |Ways(u, t, node, i)| <= Work(u, t, node, i)
    decreases node, 0, 0, 0, 0
  {
    match node
    case Seq(items) => SeqWaysWithinWork(u, t, items, i);
    case Alt(items) => AltWaysWithinWork(u, t, items, i);
    case Repeat(body, low, high) => RepWaysWithinWork(u, t, body, low, high, i);
    case _ =>
  }

  lemma {:induction false} SeqWaysWithinWork(u: Tables, t: seq<int>, items: seq<Node>, i: nat)
    requires i <= |t|
    ensures |SeqWays(u, t, items, i)| <= if items == [] then 1 else SeqWork(u, t, items, i)
    decreases items, 0, 0, 0, 0
  {
    if items != [] {
      WaysWithinWork(u, t, items[0], i);
      SeqOverWithinWork(u, t, items[1..], Ways(u, t, items[0], i), i);
    }
  }

  lemma {:induction false} SeqOverWithinWork(u: Tables, t: seq<int>, rest: seq<Node>, ws: seq<nat>, i: nat)
    requires Within(ws, i, |t|)
    ensures |SeqOver(u, t, rest, ws, i)| <= if rest == [] then |ws| else SeqWorkOver(u, t, rest, ws, i)
    decreases rest, 1, |ws|, 0, 0
  {
    if ws != [] {
      SeqWaysWithinWork(u, t, rest, ws[0]);
      SeqOverWithinWork(u, t, rest, ws[1..], i);
    }
  }

  lemma {:induction false} AltWaysWithinWork(u: Tables, t: seq<int>, items: seq<Node>, i: nat)
    requires i <= |t|
    ensures |AltWays(u, t, items, i)| <= AltWork(u, t, items, i)
    decreases items, 0, 0, 0, 0
  {
    if items != [] {
      WaysWithinWork(u, t, items[0], i);
      AltWaysWithinWork(u, t, items[1..], i);
    }
  }

  lemma {:induction false} RepWaysWithinWork(u: Tables, t: seq<int>, body: Node, low: nat, high: nat, i: nat)
    requires i <= |t|
    ensures |RepWays(u, t, body, low, high, i)| <= 1 + RepWork(u, t, body, low, high, i)
    decreases body, 1, |t| + 1 - i + low, 0, 0
  {
    if high > 0 {
      WaysWithinWork(u, t, body, i);
      if low > 0 {
        RepOverWithinWork(u, t, body, low - 1, Less(high), Ways(u, t, body, i), i);
      } else {
        PastLowWithinWork(u, t, body, Less(high), Ways(u, t, body, i), i);
      }
    }
  }

  lemma {:induction false} PastLowWithinWork(u: Tables, t: seq<int>, body: Node, high: nat, ws: seq<nat>, i: nat)
    requires i <= |t| && Within(ws, i, |t|)
    ensures |PastLow(u, t, body, high, ws, i)| <= |ws| + RepWorkOver(u, t, body, 0, high, After(ws, i), i + 1)
    decreases body, 1, |t| - i, 2, |ws|
  {
    if ws != [] {
      var w, rest := ws[0], ws[1..];
      PastLowWithinWork(u, t, body, high, rest, i);
      PastLowStep(u, t, body, high, ws, i);
      AfterStep(ws, i);
      if w > i {
        RepWaysWithinWork(u, t, body, 0, high, w);
        RepWorkOverStep(u, t, body, 0, high, w, After(rest, i), i + 1);
      }
    }
  }

  lemma RepWorkOverStep(u: Tables, t: seq<int>, body: Node, low: nat, high: nat, w: nat, ws: seq<nat>, from: nat)
    requires from <= w <= |t| && Within(ws, from, |t|)
    ensures Within([w] + ws, from, |t|)
    ensures RepWorkOver(u, t, body, low, high, [w] + ws, from)
         == RepWork(u, t, body, low, high, w) + RepWorkOver(u, t, body, low, high, ws, from)
  {
    assert ([w] + ws)[1..] == ws;
  }

  lemma {:induction false} RepOverWithinWork(
      u: Tables, t: seq<int>, body: Node, low: nat, high: nat, ws: seq<nat>, from: nat)
    requires from <= |t| + 1 && Within(ws, from, |t|)
    ensures |RepOver(u, t, body, low, high, ws, from)| <= |ws| + RepWorkOver(u, t, body, low, high, ws, from)
    decreases body, 1, |t| + 1 - from + low, 1, |ws|
  {
    if ws != [] {
      RepWaysWithinWork(u, t, body, low, high, ws[0]);
      RepOverWithinWork(u, t, body, low, high, ws[1..], from);
    }
  }

  // ---------------------------------------------------------------- constants of the pattern

  /**
   As many ways as a node without a variable repeat can have. The product over a sequence
   is what the ways of its alternations multiply to.
   */
  function FlatWays(node: Node): nat
    decreases node, 0, 0
  {
    match node
    case Seq(items) => SeqFlatWays(items)
    case Alt(items) => AltFlatWays(items)
    case Repeat(body, low, _) => RepFlatWays(body, low)
    case _ => 1
  }

  function SeqFlatWays(items: seq<Node>): nat
    decreases items, 1, 0
  {
    if items == [] then 1 else Times(FlatWays(items[0]), SeqFlatWays(items[1..]))
  }

  function AltFlatWays(items: seq<Node>): nat
    decreases items, 1, 0
  {
    if items == [] then 0 else FlatWays(items[0]) + AltFlatWays(items[1..])
  }

  function RepFlatWays(body: Node, low: nat): nat
    decreases body, 1, low
  {
    if low == 0 then 1 else Times(FlatWays(body), RepFlatWays(body, low - 1))
  }

  /** The work that goes with them. */
  function FlatCost(node: Node): nat
    decreases node, 0, 0
  {
    match node
    case Char(_) => 1
    case Zero => 1
    case Look(body) => 1 + FlatCost(body)
    case Behind(body) => 1 + FlatCost(body)
    case Seq(items) => 1 + SeqFlatCost(items)
    case Alt(items) => 1 + AltFlatCost(items)
    case Repeat(body, low, _) => 1 + RepFlatCost(body, low)
  }

  function SeqFlatCost(items: seq<Node>): nat
    decreases items, 1, 0
  {
    if items == [] then 0 else FlatCost(items[0]) + Times(FlatWays(items[0]), SeqFlatCost(items[1..]))
  }

  function AltFlatCost(items: seq<Node>): nat
    decreases items, 1, 0
  {
    if items == [] then 0 else FlatCost(items[0]) + AltFlatCost(items[1..])
  }

  function RepFlatCost(body: Node, low: nat): nat
    decreases body, 1, low
  {
    if low == 0 then 0 else FlatCost(body) + Times(FlatWays(body), RepFlatCost(body, low - 1))
  }

  /** The rounds that a repeat may try in one place: the needed ones, and one more if it may do more. */
  function Rounds(low: nat, high: nat): nat {
    if low == high then low else low + 1
  }

  /**
   The work on a node where each of its parts is visited once: the size of the pattern with
   its repeats written out. Only the body of a look-around that has a choice, which is never
   checked, is charged with all that its ways multiply to.
   */
  function Cost(u: Tables, node: Node): nat
    decreases node, 0
  {
    match node
    case Char(_) => 1
    case Zero => 1
    case Look(body) => 1 + if IsChoice(u, body) then FlatCost(body) else Cost(u, body)
    case Behind(body) => 1 + if IsChoice(u, body) then FlatCost(body) else Cost(u, body)
    case Seq(items) => 1 + SumCost(u, items)
    case Alt(items) => 1 + SumCost(u, items)
    case Repeat(body, low, high) => 1 + Times(Rounds(low, high), Cost(u, body))
  }

  function SumCost(u: Tables, items: seq<Node>): nat
    decreases items, 1
  {
    if items == [] then 0 else Cost(u, items[0]) + SumCost(u, items[1..])
  }

  // ---------------------------------------------------------------- sums over ends

  /**
   Work continued from every end in the list: at most `k` from each, and `big`
   more from those that are viable before `first`.
   */
  lemma {:induction false} SeqWorkSum(
      u: Tables, t: seq<int>, rest: seq<Node>, ws: seq<nat>, i: nat, first: seq<Chars>, k: nat, big: nat)
    requires Within(ws, i, |t|)
    requires forall w | w in ws && w <= |t| :: SeqWork(u, t, rest, w) <= k + (if Viable(u, t, first, w) then big else 0)
    ensures SeqWorkOver(u, t, rest, ws, i) <= Times(|ws|, k) + Times(Count(u, t, first, ws), big)
    decreases |ws|
  {
    if ws != [] {
      SeqWorkSum(u, t, rest, ws[1..], i, first, k, big);
      assert ws[0] in ws;
    }
  }

  lemma {:induction false} SeqWaysSum(
      u: Tables, t: seq<int>, rest: seq<Node>, ws: seq<nat>, i: nat, first: seq<Chars>, k: nat, big: nat)
    requires Within(ws, i, |t|)
    requires forall w | w in ws && w <= |t| :: |SeqWays(u, t, rest, w)| <= k + (if Viable(u, t, first, w) then big else 0)
    ensures |SeqOver(u, t, rest, ws, i)| <= Times(|ws|, k) + Times(Count(u, t, first, ws), big)
    decreases |ws|
  {
    if ws != [] {
      SeqWaysSum(u, t, rest, ws[1..], i, first, k, big);
      assert ws[0] in ws;
    }
  }

  lemma {:induction false} RepWorkSum(
      u: Tables, t: seq<int>, body: Node, low: nat, high: nat, ws: seq<nat>, from: nat,
      first: seq<Chars>, k: nat, big: nat)
    requires from <= |t| + 1 && Within(ws, from, |t|)
    requires forall w | w in ws && w <= |t| ::
      RepWork(u, t, body, low, high, w) <= k + (if Viable(u, t, first, w) then big else 0)
    ensures RepWorkOver(u, t, body, low, high, ws, from) <= Times(|ws|, k) + Times(Count(u, t, first, ws), big)
    decreases |ws|
  {
    if ws != [] {
      RepWorkSum(u, t, body, low, high, ws[1..], from, first, k, big);
      assert ws[0] in ws;
    }
  }

  lemma {:induction false} RepWaysSum(
      u: Tables, t: seq<int>, body: Node, low: nat, high: nat, ws: seq<nat>, from: nat, k: nat)
    requires from <= |t| + 1 && Within(ws, from, |t|)
    requires forall w | w in ws && w <= |t| :: |RepWays(u, t, body, low, high, w)| <= k
    ensures |RepOver(u, t, body, low, high, ws, from)| <= Times(|ws|, k)
    decreases |ws|
  {
    if ws != [] {
      RepWaysSum(u, t, body, low, high, ws[1..], from, k);
      assert ws[0] in ws;
    }
  }

  lemma SeqWorkEach(u: Tables, t: seq<int>, rest: seq<Node>, ws: seq<nat>, i: nat, k: nat)
    requires Within(ws, i, |t|) && forall w | w in ws && w <= |t| :: SeqWork(u, t, rest, w) <= k
    ensures SeqWorkOver(u, t, rest, ws, i) <= Times(|ws|, k)
  {
    SeqWorkSum(u, t, rest, ws, i, [], k, 0);
    TimesSwap(Count(u, t, [], ws), 0);
  }

  lemma SeqWaysEach(u: Tables, t: seq<int>, rest: seq<Node>, ws: seq<nat>, i: nat, k: nat)
    requires Within(ws, i, |t|) && forall w | w in ws && w <= |t| :: |SeqWays(u, t, rest, w)| <= k
    ensures |SeqOver(u, t, rest, ws, i)| <= Times(|ws|, k)
  {
    SeqWaysSum(u, t, rest, ws, i, [], k, 0);
    TimesSwap(Count(u, t, [], ws), 0);
  }

  lemma RepWorkEach(u: Tables, t: seq<int>, body: Node, low: nat, high: nat, ws: seq<nat>, from: nat, k: nat)
    requires from <= |t| + 1 && Within(ws, from, |t|)
    requires forall w | w in ws && w <= |t| :: RepWork(u, t, body, low, high, w) <= k
    ensures RepWorkOver(u, t, body, low, high, ws, from) <= Times(|ws|, k)
  {
    RepWorkSum(u, t, body, low, high, ws, from, [], k, 0);
    TimesSwap(Count(u, t, [], ws), 0);
  }

  // ---------------------------------------------------------------- no variable repeat

  lemma {:induction false} FlatNode(u: Tables, t: seq<int>, node: Node, i: nat)
    requires i <= |t| && WellFormed(node) && !HasVariableRepeat(node)
    ensures |Ways(u, t, node, i)| <= FlatWays(node) && Work(u, t, node, i) <= FlatCost(node)
    decreases node, 0, 0
  {
    match node
    case Char(_) =>
    case Zero =>
    case Look(body) => FlatNode(u, t, body, i);
    case Behind(body) =>
      if Width(body) <= i {
        FlatNode(u, t, body, i - Width(body));
      }
    case Seq(items) => FlatSeq(u, t, items, i);
    case Alt(items) => FlatAlt(u, t, items, i);
    case Repeat(body, low, high) => FlatRep(u, t, body, low, i);
  }

  lemma {:induction false} FlatAlt(u: Tables, t: seq<int>, items: seq<Node>, i: nat)
    requires i <= |t| && AllWellFormed(items) && !AnyVariableRepeat(items)
    ensures |AltWays(u, t, items, i)| <= AltFlatWays(items) && AltWork(u, t, items, i) <= AltFlatCost(items)
    decreases items, 0, 0
  {
    if items != [] {
      FlatNode(u, t, items[0], i);
      FlatAlt(u, t, items[1..], i);
    }
  }

  lemma {:induction false} FlatSeq(u: Tables, t: seq<int>, items: seq<Node>, i: nat)
    requires i <= |t| && AllWellFormed(items) && !AnyVariableRepeat(items)
    ensures |SeqWays(u, t, items, i)| <= SeqFlatWays(items) && SeqWork(u, t, items, i) <= SeqFlatCost(items)
    decreases items, 0, 0
  {
    if items != [] {
      var ws, rest := Ways(u, t, items[0], i), items[1..];
      FlatNode(u, t, items[0], i);
      forall w | w in ws && w <= |t|
        ensures |SeqWays(u, t, rest, w)| <= SeqFlatWays(rest) && SeqWork(u, t, rest, w) <= SeqFlatCost(rest)
      {
        FlatSeq(u, t, rest, w);
      }
      SeqWaysEach(u, t, rest, ws, i, SeqFlatWays(rest));
      SeqWorkEach(u, t, rest, ws, i, SeqFlatCost(rest));
      TimesMono(|ws|, SeqFlatWays(rest), FlatWays(items[0]), SeqFlatWays(rest));
      TimesMono(|ws|, SeqFlatCost(rest), FlatWays(items[0]), SeqFlatCost(rest));
    }
  }

  lemma {:induction false} FlatRep(u: Tables, t: seq<int>, body: Node, low: nat, i: nat)
    requires i <= |t| && WellFormed(body) && !HasVariableRepeat(body) && low < MAX_REPEAT
    ensures |RepWays(u, t, body, low, low, i)| <= RepFlatWays(body, low)
    ensures RepWork(u, t, body, low, low, i) <= RepFlatCost(body, low)
    decreases body, 1, low
  {
    if low > 0 {
      var ws := Ways(u, t, body, i);
      FlatNode(u, t, body, i);
      forall w | w in ws && w <= |t|
        ensures |RepWays(u, t, body, low - 1, low - 1, w)| <= RepFlatWays(body, low - 1)
        ensures RepWork(u, t, body, low - 1, low - 1, w) <= RepFlatCost(body, low - 1)
      {
        FlatRep(u, t, body, low - 1, w);
      }
      RepWaysSum(u, t, body, low - 1, low - 1, ws, i, RepFlatWays(body, low - 1));
      RepWorkEach(u, t, body, low - 1, low - 1, ws, i, RepFlatCost(body, low - 1));
      FlatRound(u, t, body, low, i);
    }
  }

  lemma FlatRound(u: Tables, t: seq<int>, body: Node, low: nat, i: nat)
    requires i <= |t| && 0 < low < MAX_REPEAT
    requires |Ways(u, t, body, i)| <= FlatWays(body) && Work(u, t, body, i) <= FlatCost(body)
    requires |RepOver(u, t, body, low - 1, low - 1, Ways(u, t, body, i), i)|
          <= Times(|Ways(u, t, body, i)|, RepFlatWays(body, low - 1))
    requires RepWorkOver(u, t, body, low - 1, low - 1, Ways(u, t, body, i), i)
          <= Times(|Ways(u, t, body, i)|, RepFlatCost(body, low - 1))
    ensures |RepWays(u, t, body, low, low, i)| <= RepFlatWays(body, low)
    ensures RepWork(u, t, body, low, low, i) <= RepFlatCost(body, low)
  {
    var n := |Ways(u, t, body, i)|;
    RepNeeded(u, t, body, low, low, i);
    TimesMono(n, RepFlatWays(body, low - 1), FlatWays(body), RepFlatWays(body, low - 1));
    TimesMono(n, RepFlatCost(body, low - 1), FlatWays(body), RepFlatCost(body, low - 1));
  }

  // ---------------------------------------------------------------- no choice: each part once

  lemma {:induction false} NoChoiceNoVariable(u: Tables, node: Node)
    requires WellFormed(node) && !IsChoice(u, node)
    ensures !HasVariableRepeat(node)
    decreases node, 0
  {
    match node
    case Seq(items) => NoChoicesNoVariable(u, items);
    case Alt(items) => NoChoicesNoVariable(u, items);
    case Repeat(body, _, _) => NoChoiceNoVariable(u, body);
    case _ =>
  }

  lemma {:induction false} NoChoicesNoVariable(u: Tables, items: seq<Node>)
    requires AllWellFormed(items) && !AnyChoice(u, items)
    ensures !AnyVariableRepeat(items)
    decreases items, 1
  {
    if items != [] {
      NoChoiceNoVariable(u, items[0]);
      NoChoicesNoVariable(u, items[1..]);
    }
  }

  /** The work on a look-around. */
  lemma {:induction false} AroundCost(u: Tables, t: seq<int>, body: Node, i: nat)
    requires u.Valid() && i <= |t| && WellFormed(body) && !HasVariableRepeat(body)
    ensures Work(u, t, body, i) <= if IsChoice(u, body) then FlatCost(body) else Cost(u, body)
    decreases body, 1, 0
  {
    if IsChoice(u, body) {
      FlatNode(u, t, body, i);
    } else {
      NoChoiceCost(u, t, body, i);
    }
  }

  /** A node without a choice: at most one way, and each of its parts is visited once. */
  lemma {:induction false} NoChoiceCost(u: Tables, t: seq<int>, node: Node, i: nat)
    requires u.Valid() && i <= |t| && WellFormed(node) && !IsChoice(u, node)
    ensures |Ways(u, t, node, i)| <= 1 && Work(u, t, node, i) <= Cost(u, node)
    decreases node, 0, 0
  {
    OneWay(u, t, node, i);
    match node
    case Char(_) =>
    case Zero =>
    case Look(body) => AroundCost(u, t, body, i);
    case Behind(body) =>
      if Width(body) <= i {
        AroundCost(u, t, body, i - Width(body));
      }
    case Seq(items) => NoChoiceSeq(u, t, items, i);
    case Alt(items) => NoChoiceAlt(u, t, items, i);
    case Repeat(body, low, high) => NoChoiceRep(u, t, body, low, i);
  }

  /** Also of branches that are not deterministic. */
  lemma {:induction false} NoChoiceAlt(u: Tables, t: seq<int>, items: seq<Node>, i: nat)
    requires u.Valid() && i <= |t| && AllWellFormed(items) && !AnyChoice(u, items)
    ensures AltWork(u, t, items, i) <= SumCost(u, items)
    decreases items, 0, 0
  {
    if items != [] {
      NoChoiceCost(u, t, items[0], i);
      NoChoiceAlt(u, t, items[1..], i);
    }
  }

  lemma {:induction false} NoChoiceSeq(u: Tables, t: seq<int>, items: seq<Node>, i: nat)
    requires u.Valid() && i <= |t| && AllWellFormed(items) && !AnyChoice(u, items)
    ensures SeqWork(u, t, items, i) <= SumCost(u, items)
    decreases items, 0, 0
  {
    if items != [] {
      var ws, rest := Ways(u, t, items[0], i), items[1..];
      NoChoiceCost(u, t, items[0], i);
      if ws != [] {
        NoChoiceSeq(u, t, rest, ws[0]);
      }
      SeqOverOne(u, t, rest, ws, i);
    }
  }

  /** With one end at most, the rest is done once. */
  lemma SeqOverOne(u: Tables, t: seq<int>, rest: seq<Node>, ws: seq<nat>, i: nat)
    requires Within(ws, i, |t|) && |ws| <= 1
    ensures SeqWorkOver(u, t, rest, ws, i) == if ws == [] then 0 else SeqWork(u, t, rest, ws[0])
  {
    if ws != [] {
      assert SeqWorkOver(u, t, rest, ws[1..], i) == 0;
    }
  }

  lemma {:induction false} NoChoiceRep(u: Tables, t: seq<int>, body: Node, low: nat, i: nat)
    requires u.Valid() && i <= |t| && WellFormed(body) && !IsChoice(u, body) && low < MAX_REPEAT
    ensures RepWork(u, t, body, low, low, i) <= Times(low, Cost(u, body))
    decreases body, 1, low
  {
    if low > 0 {
      var ws := Ways(u, t, body, i);
      NoChoiceCost(u, t, body, i);
      if ws != [] {
        NoChoiceRep(u, t, body, low - 1, ws[0]);
        assert RepWorkOver(u, t, body, low - 1, low - 1, ws[1..], i) == 0;
      }
    }
  }

  // ---------------------------------------------------------------- plain starts that do not match

  /** What `_prefix` collects to the end has no choice. */
  lemma {:induction false} FullPrefixIsPlain(u: Tables, node: Node, out: seq<Chars>)
    requires Prefix(node, out).1
    ensures !IsChoice(u, node)
    decreases node, 0
  {
    match node
    case Seq(items) => FullPrefixesArePlain(u, items, out);
    case Repeat(_, _, _) => PlainRepeatIsPlain(u, node);
    case _ =>
  }

  lemma PlainRepeatIsPlain(u: Tables, node: Node)
    requires PlainRepeat(node)
    ensures !IsChoice(u, node)
  {
    var items := node.body.items;
    assert items[1..] == [];
    assert !AnyChoice(u, items[1..]) && !IsChoice(u, items[0]);
    assert !AnyChoice(u, items);
    assert !IsChoice(u, node.body);
  }

  lemma {:induction false} FullPrefixesArePlain(u: Tables, items: seq<Node>, out: seq<Chars>)
    requires PrefixAll(items, out).1
    ensures !AnyChoice(u, items)
    decreases items, 1
  {
    if items != [] {
      FullPrefixIsPlain(u, items[0], out);
      FullPrefixesArePlain(u, items[1..], Prefix(items[0], out).0);
    }
  }

  /** Where its plain start does not match, a node fails, and no part of it is visited twice. */
  lemma {:induction false} PrefixFails(u: Tables, t: seq<int>, node: Node, out: seq<Chars>, i: nat)
    requires u.Valid() && i <= |t| && WellFormed(node) && !Agrees(u, t, Prefix(node, out).0[|out|..], i)
    ensures Ways(u, t, node, i) == [] && Work(u, t, node, i) <= Cost(u, node)
    decreases node, 0
  {
    if Ways(u, t, node, i) != [] {
      PrefixSound(u, t, node, out, i, Ways(u, t, node, i)[0]);
    }
    match node
    case Seq(items) => SeqPrefixFails(u, t, items, out, i);
    case Repeat(_, _, _) =>
      PlainRepeatIsPlain(u, node);
      NoChoiceCost(u, t, node, i);
    case _ =>
  }

  lemma {:induction false} SeqPrefixFails(u: Tables, t: seq<int>, items: seq<Node>, out: seq<Chars>, i: nat)
    requires u.Valid() && i <= |t| && AllWellFormed(items) && !Agrees(u, t, PrefixAll(items, out).0[|out|..], i)
    ensures SeqWork(u, t, items, i) <= SumCost(u, items)
    decreases items, 1
  {
    var (more, full) := Prefix(items[0], out);
    var added := more[|out|..];
    if !Agrees(u, t, added, i) {
      PrefixFails(u, t, items[0], out, i);
    } else {
      var ws, rest := Ways(u, t, items[0], i), items[1..];
      FullPrefixIsPlain(u, items[0], out);
      NoChoiceCost(u, t, items[0], i);
      if ws != [] {
        PrefixSound(u, t, items[0], out, i, ws[0]);
        LaterMismatch(u, t, items, out, i, ws[0]);
        SeqPrefixFails(u, t, rest, more, ws[0]);
      }
      SeqOverOne(u, t, rest, ws, i);
    }
  }

  lemma LaterMismatch(u: Tables, t: seq<int>, items: seq<Node>, out: seq<Chars>, i: nat, w: nat)
    requires items != [] && i <= |t| && Prefix(items[0], out).1
    requires Agrees(u, t, Prefix(items[0], out).0[|out|..], i) && w == i + |Prefix(items[0], out).0| - |out|
    requires !Agrees(u, t, PrefixAll(items, out).0[|out|..], i)
    ensures !Agrees(u, t, PrefixAll(items[1..], Prefix(items[0], out).0).0[|Prefix(items[0], out).0|..], w)
  {
    var more := Prefix(items[0], out).0;
    var all := PrefixAll(items[1..], more).0;
    var a, b := more[|out|..], all[|more|..];
    assert all[|out|..] == a + b by {
      assert all[..|more|] == more;
    }
  }

  lemma MismatchOf(u: Tables, t: seq<int>, p: seq<Chars>, q: seq<Chars>, i: nat)
    requires u.Valid() && Agrees(u, t, q, i)
    requires
      || (exists k :: 0 <= k < |p| && k < |q| && DisjointPair(u, p[k], q[k]))
      || (exists k :: 0 <= k < |q| && k < |p| && DisjointPair(u, q[k], p[k]))
    ensures !Agrees(u, t, p, i)
  {
    if Agrees(u, t, p, i) {
      if k :| 0 <= k < |p| && k < |q| && DisjointPair(u, p[k], q[k]) {
        DisjointPairSound(u, p[k], q[k], t[i + k]);
      } else {
        var k :| 0 <= k < |q| && k < |p| && DisjointPair(u, q[k], p[k]);
        DisjointPairSound(u, q[k], p[k], t[i + k]);
      }
    }
  }
}
