/**
 How many ways a part of an accepted pattern has: before a later choice at most
 one for each piece of text, and elsewhere at most a constant times the length.
 */
module RegexSpan {
  import opened RegexTree
  import opened RegexWays
  import opened RegexSound

  // ---------------------------------------------------------------- cutting the text short

  /** The ends that lie no later than `m`. */
  ghost function UpTo(ws: seq<nat>, m: nat): (r: seq<nat>)
    ensures forall k | 0 <= k < |r| :: r[k] <= m && r[k] in ws
  {
    if ws == [] then [] else (if ws[0] <= m then [ws[0]] else []) + UpTo(ws[1..], m)
  }

  lemma {:induction false} UpToAppend(a: seq<nat>, b: seq<nat>, m: nat)
    ensures UpTo(a + b, m) == UpTo(a, m) + UpTo(b, m)
    decreases |a|
  {
    if a == [] {
      assert a + b == b;
    } else {
      UpToAppend(a[1..], b, m);
      assert (a + b)[1..] == a[1..] + b;
    }
  }

  lemma UpToStep(ws: seq<nat>, m: nat)
    requires ws != []
    ensures UpTo(ws, m) == if ws[0] <= m then [ws[0]] + UpTo(ws[1..], m) else UpTo(ws[1..], m)
  {
  }

  lemma {:induction false} UpToNone(ws: seq<nat>, m: nat)
    requires forall k | 0 <= k < |ws| :: ws[k] > m
    ensures UpTo(ws, m) == []
    decreases |ws|
  {
    if ws != [] {
      UpToNone(ws[1..], m);
    }
  }

  /** On a text that is cut short, a node has just the ways that end by the cut. */
  lemma {:induction false} CutWays(u: Tables, t: seq<int>, s: seq<int>, node: Node, i: nat)
    requires i <= |s| && s <= t
    ensures Ways(u, s, node, i) == UpTo(Ways(u, t, node, i), |s|)
    decreases node, 0, 0, 0, 0
  {
    match node
    case Seq(items) => CutSeq(u, t, s, items, i);
    case Alt(items) => CutAlt(u, t, s, items, i);
    case Repeat(body, low, high) => CutRep(u, t, s, body, low, high, i);
    case _ =>
  }

  lemma {:induction false} CutSeq(u: Tables, t: seq<int>, s: seq<int>, items: seq<Node>, i: nat)
    requires i <= |s| && s <= t
    ensures SeqWays(u, s, items, i) == UpTo(SeqWays(u, t, items, i), |s|)
    decreases items, 0, 0, 0, 0
  {
    if items != [] {
      CutWays(u, t, s, items[0], i);
      CutSeqOver(u, t, s, items[1..], Ways(u, t, items[0], i), i);
    }
  }

  lemma {:induction false} CutSeqOver(u: Tables, t: seq<int>, s: seq<int>, rest: seq<Node>, ws: seq<nat>, i: nat)
    requires s <= t && Within(ws, i, |t|)
    ensures Within(UpTo(ws, |s|), i, |s|)
    ensures SeqOver(u, s, rest, UpTo(ws, |s|), i) == UpTo(SeqOver(u, t, rest, ws, i), |s|)
    decreases rest, 1, |ws|, 0, 0
  {
    if ws != [] {
      CutSeqOver(u, t, s, rest, ws[1..], i);
      UpToAppend(SeqWays(u, t, rest, ws[0]), SeqOver(u, t, rest, ws[1..], i), |s|);
      UpToStep(ws, |s|);
      if ws[0] <= |s| {
        CutSeq(u, t, s, rest, ws[0]);
        assert UpTo(ws, |s|)[1..] == UpTo(ws[1..], |s|);
      } else {
        UpToNone(SeqWays(u, t, rest, ws[0]), |s|);
        assert SeqOver(u, s, rest, UpTo(ws, |s|), i) == SeqOver(u, s, rest, UpTo(ws[1..], |s|), i);
      }
    }
  }

  lemma {:induction false} CutAlt(u: Tables, t: seq<int>, s: seq<int>, items: seq<Node>, i: nat)
    requires i <= |s| && s <= t
    ensures AltWays(u, s, items, i) == UpTo(AltWays(u, t, items, i), |s|)
    decreases items, 0, 0, 0, 0
  {
    if items != [] {
      CutWays(u, t, s, items[0], i);
      CutAlt(u, t, s, items[1..], i);
      UpToAppend(Ways(u, t, items[0], i), AltWays(u, t, items[1..], i), |s|);
    }
  }

  lemma {:induction false} CutRep(u: Tables, t: seq<int>, s: seq<int>, body: Node, low: nat, high: nat, i: nat)
    requires i <= |s| && s <= t
    ensures RepWays(u, s, body, low, high, i) == UpTo(RepWays(u, t, body, low, high, i), |s|)
    decreases body, 1, |t| + 1 - i + low, 0, 0
  {
    if high == 0 {
    } else if low > 0 {
      RepNeeded(u, t, body, low, high, i);
      RepNeeded(u, s, body, low, high, i);
      CutWays(u, t, s, body, i);
      CutRepOver(u, t, s, body, low - 1, Less(high), Ways(u, t, body, i), i);
    } else {
      RepPastLow(u, t, body, high, i);
      RepPastLow(u, s, body, high, i);
      CutWays(u, t, s, body, i);
      CutPastLow(u, t, s, body, Less(high), Ways(u, t, body, i), i);
      UpToAppend(PastLow(u, t, body, Less(high), Ways(u, t, body, i), i), [i], |s|);
      assert UpTo([i], |s|) == [i];
    }
  }

  lemma {:induction false} CutPastLow(u: Tables, t: seq<int>, s: seq<int>, body: Node, high: nat, ws: seq<nat>, i: nat)
    requires i <= |s| && s <= t && Within(ws, i, |t|)
    ensures Within(UpTo(ws, |s|), i, |s|)
    ensures PastLow(u, s, body, high, UpTo(ws, |s|), i) == UpTo(PastLow(u, t, body, high, ws, i), |s|)
    decreases body, 1, |t| - i, 3, |ws|
  {
    if ws != [] {
      var w, rest := ws[0], ws[1..];
      CutPastLow(u, t, s, body, high, rest, i);
      CutLaterRound(u, t, s, body, high, w, i);
      UpToAppend(LaterRound(u, t, body, high, w, i), PastLow(u, t, body, high, rest, i), |s|);
      UpToStep(ws, |s|);
      if w <= |s| {
        assert ([w] + UpTo(rest, |s|))[1..] == UpTo(rest, |s|);
      }
    }
  }

  lemma {:induction false} CutLaterRound(
      u: Tables, t: seq<int>, s: seq<int>, body: Node, high: nat, w: nat, i: nat)
    requires i <= |s| && s <= t && i <= w <= |t|
    ensures UpTo(LaterRound(u, t, body, high, w, i), |s|) == if w <= |s| then LaterRound(u, s, body, high, w, i) else []
    decreases body, 1, |t| - i, 2, 0
  {
    if w == i {
      assert UpTo([i], |s|) == [i];
    } else {
      CutRepAt(u, t, s, body, 0, high, w);
    }
  }

  lemma {:induction false} CutRepAt(u: Tables, t: seq<int>, s: seq<int>, body: Node, low: nat, high: nat, w: nat)
    requires w <= |t| && s <= t
    ensures UpTo(RepWays(u, t, body, low, high, w), |s|)
         == if w <= |s| then RepWays(u, s, body, low, high, w) else []
    decreases body, 1, |t| + 1 - w + low, 1, 0
  {
    if w <= |s| {
      CutRep(u, t, s, body, low, high, w);
    } else {
      UpToNone(RepWays(u, t, body, low, high, w), |s|);
    }
  }

  lemma {:induction false} CutRepOver(
      u: Tables, t: seq<int>, s: seq<int>, body: Node, low: nat, high: nat, ws: seq<nat>, from: nat)
    requires from <= |s| + 1 && s <= t && Within(ws, from, |t|)
    ensures Within(UpTo(ws, |s|), from, |s|)
    ensures RepOver(u, s, body, low, high, UpTo(ws, |s|), from) == UpTo(RepOver(u, t, body, low, high, ws, from), |s|)
    decreases body, 1, |t| + 1 - from + low, 1, |ws|
  {
    if ws != [] {
      var rest := ws[1..];
      assert ws == [ws[0]] + rest;
      CutRepOver(u, t, s, body, low, high, rest, from);
      CutRepAt(u, t, s, body, low, high, ws[0]);
      CutRepJoin(u, t, s, body, low, high, ws[0], rest, from);
    }
  }

  lemma CutRepJoin(
      u: Tables, t: seq<int>, s: seq<int>, body: Node, low: nat, high: nat, w: nat, rest: seq<nat>, from: nat)
    requires from <= |s| + 1 && s <= t && Within([w] + rest, from, |t|) && Within(rest, from, |t|)
    requires Within(UpTo(rest, |s|), from, |s|)
    requires RepOver(u, s, body, low, high, UpTo(rest, |s|), from) == UpTo(RepOver(u, t, body, low, high, rest, from), |s|)
    requires w <= |t| && UpTo(RepWays(u, t, body, low, high, w), |s|)
                         == if w <= |s| then RepWays(u, s, body, low, high, w) else []
    ensures Within(UpTo([w] + rest, |s|), from, |s|)
    ensures RepOver(u, s, body, low, high, UpTo([w] + rest, |s|), from)
         == UpTo(RepOver(u, t, body, low, high, [w] + rest, from), |s|)
  {
    var ws := [w] + rest;
    assert ws[0] == w && ws[1..] == rest;
    UpToStep(ws, |s|);
    RepOverStep(u, t, body, low, high, w, rest, from);
    UpToAppend(RepWays(u, t, body, low, high, w), RepOver(u, t, body, low, high, rest, from), |s|);
    if w <= |s| {
      RepOverStep(u, s, body, low, high, w, UpTo(rest, |s|), from);
    }
  }

  // ---------------------------------------------------------------- one way for each piece of text

  /** How often an end occurs in the list. */
  ghost function Occurs(ws: seq<nat>, w: nat): nat {
    if ws == [] then 0 else (if ws[0] == w then 1 else 0) + Occurs(ws[1..], w)
  }

  lemma {:induction false} OccursAppend(a: seq<nat>, b: seq<nat>, w: nat)
    ensures Occurs(a + b, w) == Occurs(a, w) + Occurs(b, w)
    decreases |a|
  {
    if a == [] {
      assert a + b == b;
    } else {
      OccursAppend(a[1..], b, w);
      assert (a + b)[1..] == a[1..] + b;
    }
  }

  /** At the end of a cut text everything is viable. */
  lemma {:induction false} OccursIsViable(u: Tables, t: seq<int>, first: seq<Chars>, ws: seq<nat>, w: nat)
    requires w <= |t| && Within(UpTo(ws, w), 0, |t[..w]|)
    ensures Occurs(ws, w) <= Count(u, t[..w], first, UpTo(ws, w))
    decreases |ws|
  {
    if ws != [] {
      var tail := UpTo(ws[1..], w);
      if ws[0] <= w {
        assert UpTo(ws, w)[1..] == tail && UpTo(ws, w)[0] == ws[0];
        forall k | 0 <= k < |tail| ensures 0 <= tail[k] <= |t[..w]| {
          assert tail[k] == UpTo(ws, w)[k + 1];
        }
      } else {
        assert UpTo(ws, w) == tail;
      }
      OccursIsViable(u, t, first, ws[1..], w);
    }
  }

  /** An accepted node before a later choice, whose repeats move on, matches each piece of text in at most one way. */
  lemma SpanUnique(u: Tables, t: seq<int>, node: Node, follow: Follow, i: nat, w: nat)
    requires u.Valid() && i <= w <= |t| && WellFormed(node) && Moves(node) && Ok(u, node, follow) && follow.choice
    ensures Occurs(Ways(u, t, node, i), w) <= 1
  {
    CutWays(u, t, t[..w], node, i);
    OccursIsViable(u, t, follow.first, Ways(u, t, node, i), w);
    ViableUnique(u, t[..w], node, follow, i);
  }

  /** So does a repeat of such a body, whatever comes after the repeat. */
  lemma RepSpanUnique(
      u: Tables, t: seq<int>, body: Node, low: nat, high: nat, inner: Follow, more: seq<Chars>, i: nat, w: nat)
    requires u.Valid() && i <= w <= |t| && WellFormed(body) && low <= high && low < MAX_REPEAT
    requires Moves(Repeat(body, low, high))
    requires Ok(u, body, inner) && inner.choice && inner.first == First(body) + more
    ensures Occurs(RepWays(u, t, body, low, high, i), w) <= 1
  {
    CutRep(u, t, t[..w], body, low, high, i);
    OccursIsViable(u, t, [], RepWays(u, t, body, low, high, i), w);
    RepUnique(u, t[..w], body, low, high, inner, more, [], i);
  }

  // ---------------------------------------------------------------- distinct ends are few

  /** The list without the value `w`. */
  ghost function Without(ws: seq<nat>, w: nat): (r: seq<nat>)
    ensures |r| + Occurs(ws, w) == |ws|
    ensures forall k | 0 <= k < |r| :: r[k] in ws && r[k] != w
  {
    if ws == [] then [] else (if ws[0] == w then [] else [ws[0]]) + Without(ws[1..], w)
  }

  lemma {:induction false} WithoutOccurs(ws: seq<nat>, w: nat, v: nat)
    ensures Occurs(Without(ws, w), v) <= Occurs(ws, v)
    decreases |ws|
  {
    if ws != [] {
      WithoutOccurs(ws[1..], w, v);
      OccursAppend(if ws[0] == w then [] else [ws[0]], Without(ws[1..], w), v);
    }
  }

  lemma {:induction false} DistinctIsShort(ws: seq<nat>, low: nat, high: nat)
    requires Within(ws, low, high) && low <= high + 1
    requires forall w | low <= w <= high :: Occurs(ws, w) <= 1
    ensures |ws| <= high + 1 - low
    decreases high + 1 - low
  {
    if low == high + 1 {
      assert ws == [];
    } else {
      var less := Without(ws, low);
      forall w | low + 1 <= w <= high ensures Occurs(less, w) <= 1 {
        WithoutOccurs(ws, low, w);
      }
      DistinctIsShort(less, low + 1, high);
    }
  }

  /** Before a later choice an accepted node has no more ways than there are places to end. */
  lemma FewWays(u: Tables, t: seq<int>, node: Node, follow: Follow, i: nat)
    requires u.Valid() && i <= |t| && WellFormed(node) && Moves(node) && Ok(u, node, follow) && follow.choice
    ensures |Ways(u, t, node, i)| <= |t| + 1 - i
  {
    forall w | i <= w <= |t| ensures Occurs(Ways(u, t, node, i), w) <= 1 {
      SpanUnique(u, t, node, follow, i, w);
    }
    DistinctIsShort(Ways(u, t, node, i), i, |t|);
  }

  lemma FewRounds(
      u: Tables, t: seq<int>, body: Node, low: nat, high: nat, inner: Follow, more: seq<Chars>, i: nat)
    requires u.Valid() && i <= |t| && WellFormed(body) && low <= high && low < MAX_REPEAT
    requires Moves(Repeat(body, low, high))
    requires Ok(u, body, inner) && inner.choice && inner.first == First(body) + more
    ensures |RepWays(u, t, body, low, high, i)| <= |t| + 1 - i
  {
    forall w | i <= w <= |t| ensures Occurs(RepWays(u, t, body, low, high, i), w) <= 1 {
      RepSpanUnique(u, t, body, low, high, inner, more, i, w);
    }
    DistinctIsShort(RepWays(u, t, body, low, high, i), i, |t|);
  }
}
