/**
 What matching a pattern tree means: the end positions of all the ways to match,
 with multiplicity, in the order a greedy backtracking matcher tries them.

 Past its lower bound a repeat does one round that takes no character, and no further one at
 the same place; `re` stops there as well. Zero-width nodes always succeed here, which
 only adds ways to what `re` explores.
 */
module RegexWays {
  import opened RegexTree

  ghost predicate Within(ws: seq<nat>, low: nat, high: nat) {
    forall k | 0 <= k < |ws| :: low <= ws[k] <= high
  }

  /** The upper bound of a repeat after one more round. */
  function Less(high: nat): nat
    requires high > 0
  {
    if high == MAX_REPEAT then high else high - 1
  }

  /** The ends that lie after `i`. */
  ghost function After(ws: seq<nat>, i: nat): (r: seq<nat>)
    ensures |r| <= |ws|
    ensures forall k | 0 <= k < |r| :: r[k] > i && r[k] in ws
    ensures forall w :: w in ws && w > i ==> w in r
  {
    if ws == [] then [] else (if ws[0] > i then [ws[0]] else []) + After(ws[1..], i)
  }

  ghost function Ways(u: Tables, t: seq<int>, node: Node, i: nat): (ws: seq<nat>)
    requires i <= |t|
    ensures Within(ws, i, |t|)
    decreases node, 0, 0, 0, 0
  {
    match node
    case Char(chars) => if i < |t| && chars.Contains(u, t[i]) then [i + 1] else []
    case Zero => [i]
    case Look(_) => [i]
    case Behind(_) => [i]
    case Seq(items) => SeqWays(u, t, items, i)
    case Alt(items) => AltWays(u, t, items, i)
    case Repeat(body, low, high) => RepWays(u, t, body, low, high, i)
  }

  ghost function SeqWays(u: Tables, t: seq<int>, items: seq<Node>, i: nat): (ws: seq<nat>)
    requires i <= |t|
    ensures Within(ws, i, |t|)
    decreases items, 0, 0, 0, 0
  {
    if items == [] then [i] else SeqOver(u, t, items[1..], Ways(u, t, items[0], i), i)
  }

  /** The rest of a sequence, continued from every end in `ws`. */
  ghost function SeqOver(u: Tables, t: seq<int>, rest: seq<Node>, ws: seq<nat>, i: nat): (r: seq<nat>)
    requires Within(ws, i, |t|)
    ensures Within(r, i, |t|)
    decreases rest, 1, |ws|, 0, 0
  {
    if ws == [] then [] else SeqWays(u, t, rest, ws[0]) + SeqOver(u, t, rest, ws[1..], i)
  }

  ghost function AltWays(u: Tables, t: seq<int>, items: seq<Node>, i: nat): (ws: seq<nat>)
    requires i <= |t|
    ensures Within(ws, i, |t|)
    decreases items, 0, 0, 0, 0
  {
    if items == [] then [] else Ways(u, t, items[0], i) + AltWays(u, t, items[1..], i)
  }

  /** A repeat that still needs `low` rounds and may do `high`. */
  ghost function RepWays(u: Tables, t: seq<int>, body: Node, low: nat, high: nat, i: nat): (ws: seq<nat>)
    requires i <= |t|
    ensures Within(ws, i, |t|)
    decreases body, 1, |t| + 1 - i + low, 0, 0
  {
    if high == 0 then (if low == 0 then [i] else [])
    else if low > 0 then RepOver(u, t, body, low - 1, Less(high), Ways(u, t, body, i), i)
    else PastLow(u, t, body, Less(high), Ways(u, t, body, i), i) + [i]
  }

  /** What comes after the rounds that began at `i`. */
  ghost function PastLow(u: Tables, t: seq<int>, body: Node, high: nat, ws: seq<nat>, i: nat): (r: seq<nat>)
    requires Within(ws, i, |t|) && i <= |t|
    ensures Within(r, i, |t|)
    decreases body, 1, |t| - i, 2, |ws|
  {
    if ws == [] then []
    else LaterRound(u, t, body, high, ws[0], i) + PastLow(u, t, body, high, ws[1..], i)
  }

  /** A round that ended where it began is the last one; any other one may be followed by more. */
  ghost function LaterRound(u: Tables, t: seq<int>, body: Node, high: nat, w: nat, i: nat): (r: seq<nat>)
    requires i <= w <= |t|
    ensures Within(r, i, |t|)
    decreases body, 1, |t| - i, 1, 0
  {
    if w == i then [i] else RepWays(u, t, body, 0, high, w)
  }

  ghost function RepOver(u: Tables, t: seq<int>, body: Node, low: nat, high: nat, ws: seq<nat>, from: nat): (r: seq<nat>)
    requires from <= |t| + 1 && Within(ws, from, |t|)
    ensures Within(r, from, |t|)
    decreases body, 1, |t| + 1 - from + low, 1, |ws|
  {
    if ws == [] then []
    else RepWays(u, t, body, low, high, ws[0]) + RepOver(u, t, body, low, high, ws[1..], from)
  }

  // ---------------------------------------------------------------- one step of a repeat

  lemma RepOverStep(u: Tables, t: seq<int>, body: Node, low: nat, high: nat, w: nat, ws: seq<nat>, from: nat)
    requires from <= w <= |t| && Within(ws, from, |t|)
    ensures Within([w] + ws, from, |t|)
    ensures RepOver(u, t, body, low, high, [w] + ws, from)
         == RepWays(u, t, body, low, high, w) + RepOver(u, t, body, low, high, ws, from)
  {
    assert ([w] + ws)[1..] == ws;
  }

  lemma PastLowStep(u: Tables, t: seq<int>, body: Node, high: nat, ws: seq<nat>, i: nat)
    requires i <= |t| && Within(ws, i, |t|) && ws != []
    ensures |PastLow(u, t, body, high, ws, i)|
         == |LaterRound(u, t, body, high, ws[0], i)| + |PastLow(u, t, body, high, ws[1..], i)|
  {
  }

  lemma AfterStep(ws: seq<nat>, i: nat)
    requires ws != []
    ensures After(ws, i) == if ws[0] > i then [ws[0]] + After(ws[1..], i) else After(ws[1..], i)
  {
  }

  lemma RepNeeded(u: Tables, t: seq<int>, body: Node, low: nat, high: nat, i: nat)
    requires i <= |t| && low > 0 && high > 0
    ensures RepWays(u, t, body, low, high, i) == RepOver(u, t, body, low - 1, Less(high), Ways(u, t, body, i), i)
  {
  }

  lemma RepPastLow(u: Tables, t: seq<int>, body: Node, high: nat, i: nat)
    requires i <= |t| && high > 0
    ensures RepWays(u, t, body, 0, high, i) == PastLow(u, t, body, Less(high), Ways(u, t, body, i), i) + [i]
  {
  }

  lemma {:induction false} AllAfter(ws: seq<nat>, i: nat)
    requires forall k | 0 <= k < |ws| :: ws[k] > i
    ensures After(ws, i) == ws
  {
    if ws != [] {
      AllAfter(ws[1..], i);
    }
  }

  /** Where the body takes a character, more rounds may come after every one. */
  lemma MovingRound(u: Tables, t: seq<int>, body: Node, high: nat, i: nat)
    requires i <= |t| && high > 0 && i !in Ways(u, t, body, i)
    ensures After(Ways(u, t, body, i), i) == Ways(u, t, body, i)
    ensures RepWays(u, t, body, 0, high, i)
         == RepOver(u, t, body, 0, Less(high), After(Ways(u, t, body, i), i), i + 1) + [i]
  {
    var ws := Ways(u, t, body, i);
    forall k | 0 <= k < |ws| ensures ws[k] > i {
      assert ws[k] in ws;
    }
    AllAfter(ws, i);
    MovingRounds(u, t, body, Less(high), ws, i);
  }

  lemma {:induction false} MovingRounds(u: Tables, t: seq<int>, body: Node, high: nat, ws: seq<nat>, i: nat)
    requires i <= |t| && Within(ws, i + 1, |t|)
    ensures PastLow(u, t, body, high, ws, i) == RepOver(u, t, body, 0, high, ws, i + 1)
    decreases |ws|
  {
    if ws != [] {
      MovingRounds(u, t, body, high, ws[1..], i);
    }
  }

  // ---------------------------------------------------------------- members of the lists

  lemma {:induction false} SeqOverMember(u: Tables, t: seq<int>, rest: seq<Node>, ws: seq<nat>, i: nat, w: nat)
    returns (j: nat)
    requires Within(ws, i, |t|) && w in SeqOver(u, t, rest, ws, i)
    ensures j in ws && j <= |t| && w in SeqWays(u, t, rest, j)
    decreases |ws|
  {
    if w in SeqWays(u, t, rest, ws[0]) {
      j := ws[0];
    } else {
      j := SeqOverMember(u, t, rest, ws[1..], i, w);
    }
  }

  lemma {:induction false} SeqOverContains(u: Tables, t: seq<int>, rest: seq<Node>, ws: seq<nat>, i: nat, j: nat, w: nat)
    requires Within(ws, i, |t|) && j in ws && j <= |t| && w in SeqWays(u, t, rest, j)
    ensures w in SeqOver(u, t, rest, ws, i)
    decreases |ws|
  {
    if ws[0] != j {
      SeqOverContains(u, t, rest, ws[1..], i, j, w);
    }
  }

  lemma {:induction false} RepOverMember(
      u: Tables, t: seq<int>, body: Node, low: nat, high: nat, ws: seq<nat>, from: nat, w: nat)
    returns (j: nat)
    requires from <= |t| + 1 && Within(ws, from, |t|) && w in RepOver(u, t, body, low, high, ws, from)
    ensures j in ws && j <= |t| && w in RepWays(u, t, body, low, high, j)
    decreases |ws|
  {
    if w in RepWays(u, t, body, low, high, ws[0]) {
      j := ws[0];
    } else {
      j := RepOverMember(u, t, body, low, high, ws[1..], from, w);
    }
  }

  lemma {:induction false} RepOverContains(
      u: Tables, t: seq<int>, body: Node, low: nat, high: nat, ws: seq<nat>, from: nat, j: nat, w: nat)
    requires from <= |t| + 1 && Within(ws, from, |t|) && j in ws && j <= |t|
    requires w in RepWays(u, t, body, low, high, j)
    ensures w in RepOver(u, t, body, low, high, ws, from)
    decreases |ws|
  {
    if ws[0] != j {
      RepOverContains(u, t, body, low, high, ws[1..], from, j, w);
    }
  }

  lemma {:induction false} PastLowMember(
      u: Tables, t: seq<int>, body: Node, high: nat, ws: seq<nat>, i: nat, w: nat)
    returns (j: nat)
    requires i <= |t| && Within(ws, i, |t|) && w in PastLow(u, t, body, high, ws, i)
    ensures j in ws && i <= j <= |t| && if j == i then w == i else w in RepWays(u, t, body, 0, high, j)
    decreases |ws|
  {
    if w in PastLow(u, t, body, high, ws[1..], i) {
      j := PastLowMember(u, t, body, high, ws[1..], i, w);
    } else {
      j := ws[0];
    }
  }

  /** A way of an alternation is a way of one of its branches. */
  lemma {:induction false} AltMember(u: Tables, t: seq<int>, items: seq<Node>, i: nat, w: nat) returns (k: nat)
    requires i <= |t| && w in AltWays(u, t, items, i)
    ensures k < |items| && w in Ways(u, t, items[k], i)
    decreases |items|
  {
    if w in Ways(u, t, items[0], i) {
      k := 0;
    } else {
      k := AltMember(u, t, items[1..], i, w);
      k := k + 1;
    }
  }

  lemma {:induction false} MovesAt(items: seq<Node>, k: nat)
    requires AllMove(items) && k < |items|
    ensures Moves(items[k])
    decreases |items|
  {
    if k > 0 {
      MovesAt(items[1..], k - 1);
      assert items[1..][k - 1] == items[k];
    }
  }

  lemma {:induction false} WellFormedAt(items: seq<Node>, k: nat)
    requires AllWellFormed(items) && k < |items|
    ensures WellFormed(items[k])
    decreases |items|
  {
    if k > 0 {
      WellFormedAt(items[1..], k - 1);
      assert items[1..][k - 1] == items[k];
    }
  }
}
