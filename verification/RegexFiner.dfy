/**
 Trees of one shape whose sets of characters differ on a text: with smaller sets there are
 fewer ways, and less work.
 */
module RegexFiner {
  import opened RegexTree
  import opened RegexWays
  import opened RegexWork
  import opened RegexCost

  /** The same shape, and every character of the text that a set of `a` has is in the one of `b`. */
  ghost predicate Finer(u: Tables, t: seq<int>, a: Node, b: Node)
    decreases a, 0
  {
    match (a, b)
    case (Char(small), Char(large)) => forall k | 0 <= k < |t| && small.Contains(u, t[k]) :: large.Contains(u, t[k])
    case (Zero, Zero) => true
    case (Look(x), Look(y)) => Finer(u, t, x, y)
    case (Behind(x), Behind(y)) => Finer(u, t, x, y)
    case (Seq(xs), Seq(ys)) => AllFiner(u, t, xs, ys)
    case (Alt(xs), Alt(ys)) => AllFiner(u, t, xs, ys)
    case (Repeat(x, low, high), Repeat(y, low2, high2)) => low == low2 && high == high2 && Finer(u, t, x, y)
    case _ => false
  }

  ghost predicate AllFiner(u: Tables, t: seq<int>, xs: seq<Node>, ys: seq<Node>)
    decreases xs, 1
  {
    |xs| == |ys| && (xs == [] || (Finer(u, t, xs[0], ys[0]) && AllFiner(u, t, xs[1..], ys[1..])))
  }

  /** The list with some of its members left out. */
  ghost predicate Sub(a: seq<nat>, b: seq<nat>)
    decreases |b|
  {
    a == [] || (b != [] && ((a[0] == b[0] && Sub(a[1..], b[1..])) || Sub(a, b[1..])))
  }

  lemma {:induction false} SubRefl(a: seq<nat>)
    ensures Sub(a, a)
  {
    if a != [] {
      SubRefl(a[1..]);
    }
  }

  lemma {:induction false} SubAppend(a: seq<nat>, b: seq<nat>, c: seq<nat>, d: seq<nat>)
    requires Sub(a, b) && Sub(c, d)
    ensures Sub(a + c, b + d)
    decreases |b|
  {
    if b == [] {
      assert a + c == c && b + d == d;
    } else {
      assert (b + d)[1..] == b[1..] + d && (b + d)[0] == b[0];
      if a == [] {
        SubAppend(a, b[1..], c, d);
      } else if a[0] == b[0] && Sub(a[1..], b[1..]) {
        SubAppend(a[1..], b[1..], c, d);
        assert (a + c)[1..] == a[1..] + c;
      } else {
        SubAppend(a, b[1..], c, d);
      }
    }
  }

  lemma {:induction false} SubAfter(a: seq<nat>, b: seq<nat>, i: nat)
    requires Sub(a, b)
    ensures Sub(After(a, i), After(b, i))
    decreases |b|
  {
    if a != [] {
      if a[0] == b[0] && Sub(a[1..], b[1..]) {
        SubAfter(a[1..], b[1..], i);
        var head := if a[0] > i then [a[0]] else [];
        SubRefl(head);
        SubAppend(head, head, After(a[1..], i), After(b[1..], i));
      } else {
        SubAfter(a, b[1..], i);
        var head := if b[0] > i then [b[0]] else [];
        SubAppend([], head, After(a, i), After(b[1..], i));
        assert [] + After(a, i) == After(a, i);
      }
    }
  }

  lemma {:induction false} SubIsShorter(a: seq<nat>, b: seq<nat>)
    requires Sub(a, b)
    ensures |a| <= |b|
    decreases |b|
  {
    if a != [] {
      if a[0] == b[0] && Sub(a[1..], b[1..]) {
        SubIsShorter(a[1..], b[1..]);
      } else {
        SubIsShorter(a, b[1..]);
      }
    }
  }

  // ---------------------------------------------------------------- fewer ways

  lemma {:induction false} FinerWays(u: Tables, t: seq<int>, a: Node, b: Node, i: nat)
    requires i <= |t| && Finer(u, t, a, b)
    ensures Sub(Ways(u, t, a, i), Ways(u, t, b, i))
    decreases a, 0, 0, 0, 0
  {
    match (a, b)
    case (Char(small), Char(large)) => SubRefl(Ways(u, t, a, i));
    case (Seq(xs), Seq(ys)) => FinerSeqWays(u, t, xs, ys, i);
    case (Alt(xs), Alt(ys)) => FinerAltWays(u, t, xs, ys, i);
    case (Repeat(x, low, high), Repeat(y, low2, high2)) => FinerRepWays(u, t, x, y, low, high, i);
    case _ => SubRefl([i]);
  }

  lemma {:induction false} FinerAltWays(u: Tables, t: seq<int>, xs: seq<Node>, ys: seq<Node>, i: nat)
    requires i <= |t| && AllFiner(u, t, xs, ys)
    ensures Sub(AltWays(u, t, xs, i), AltWays(u, t, ys, i))
    decreases xs, 0, 0, 0, 0
  {
    if xs != [] {
      FinerWays(u, t, xs[0], ys[0], i);
      FinerAltWays(u, t, xs[1..], ys[1..], i);
      SubAppend(Ways(u, t, xs[0], i), Ways(u, t, ys[0], i), AltWays(u, t, xs[1..], i), AltWays(u, t, ys[1..], i));
    }
  }

  lemma {:induction false} FinerSeqWays(u: Tables, t: seq<int>, xs: seq<Node>, ys: seq<Node>, i: nat)
    requires i <= |t| && AllFiner(u, t, xs, ys)
    ensures Sub(SeqWays(u, t, xs, i), SeqWays(u, t, ys, i))
    decreases xs, 0, 0, 0, 0
  {
    if xs != [] {
      FinerWays(u, t, xs[0], ys[0], i);
      FinerSeqOver(u, t, xs[1..], ys[1..], Ways(u, t, xs[0], i), Ways(u, t, ys[0], i), i);
    } else {
      SubRefl([i]);
    }
  }

  lemma {:induction false} FinerSeqOver(
      u: Tables, t: seq<int>, xs: seq<Node>, ys: seq<Node>, ws: seq<nat>, vs: seq<nat>, i: nat)
    requires AllFiner(u, t, xs, ys) && Within(ws, i, |t|) && Within(vs, i, |t|) && Sub(ws, vs)
    ensures Sub(SeqOver(u, t, xs, ws, i), SeqOver(u, t, ys, vs, i))
    decreases xs, 1, |vs|, 0, 0
  {
    if ws != [] {
      if ws[0] == vs[0] && Sub(ws[1..], vs[1..]) {
        FinerSeqWays(u, t, xs, ys, ws[0]);
        FinerSeqOver(u, t, xs, ys, ws[1..], vs[1..], i);
        SubAppend(SeqWays(u, t, xs, ws[0]), SeqWays(u, t, ys, ws[0]),
                  SeqOver(u, t, xs, ws[1..], i), SeqOver(u, t, ys, vs[1..], i));
      } else {
        FinerSeqOver(u, t, xs, ys, ws, vs[1..], i);
        SubAppend([], SeqWays(u, t, ys, vs[0]), SeqOver(u, t, xs, ws, i), SeqOver(u, t, ys, vs[1..], i));
        assert [] + SeqOver(u, t, xs, ws, i) == SeqOver(u, t, xs, ws, i);
      }
    }
  }

  lemma {:induction false} FinerRepWays(u: Tables, t: seq<int>, x: Node, y: Node, low: nat, high: nat, i: nat)
    requires i <= |t| && Finer(u, t, x, y)
    ensures Sub(RepWays(u, t, x, low, high, i), RepWays(u, t, y, low, high, i))
    decreases x, 1, |t| + 1 - i + low, 0, 0
  {
    if high == 0 {
      SubRefl(RepWays(u, t, x, low, high, i));
    } else if low > 0 {
      FinerWays(u, t, x, y, i);
      FinerRepOver(u, t, x, y, low - 1, Less(high), Ways(u, t, x, i), Ways(u, t, y, i), i);
      RepNeeded(u, t, x, low, high, i);
      RepNeeded(u, t, y, low, high, i);
    } else {
      FinerMore(u, t, x, y, high, i);
    }
  }

  lemma {:induction false} FinerMore(u: Tables, t: seq<int>, x: Node, y: Node, high: nat, i: nat)
    requires i <= |t| && high > 0 && Finer(u, t, x, y)
    ensures Sub(RepWays(u, t, x, 0, high, i), RepWays(u, t, y, 0, high, i))
    decreases x, 1, |t| - i, 3, 0
  {
    var ws, vs := Ways(u, t, x, i), Ways(u, t, y, i);
    FinerWays(u, t, x, y, i);
    FinerPastLow(u, t, x, y, Less(high), ws, vs, i);
    SubRefl([i]);
    SubAppend(PastLow(u, t, x, Less(high), ws, i), PastLow(u, t, y, Less(high), vs, i), [i], [i]);
    RepPastLow(u, t, x, high, i);
    RepPastLow(u, t, y, high, i);
  }

  lemma {:induction false} FinerPastLow(
      u: Tables, t: seq<int>, x: Node, y: Node, high: nat, ws: seq<nat>, vs: seq<nat>, i: nat)
    requires Finer(u, t, x, y) && i <= |t| && Within(ws, i, |t|) && Within(vs, i, |t|) && Sub(ws, vs)
    ensures Sub(PastLow(u, t, x, high, ws, i), PastLow(u, t, y, high, vs, i))
    decreases x, 1, |t| - i, 2, |vs|
  {
    if ws != [] {
      var rest := PastLow(u, t, y, high, vs[1..], i);
      if ws[0] == vs[0] && Sub(ws[1..], vs[1..]) {
        FinerLaterRound(u, t, x, y, high, ws[0], i);
        FinerPastLow(u, t, x, y, high, ws[1..], vs[1..], i);
        SubAppend(LaterRound(u, t, x, high, ws[0], i), LaterRound(u, t, y, high, ws[0], i),
                  PastLow(u, t, x, high, ws[1..], i), rest);
      } else {
        FinerPastLow(u, t, x, y, high, ws, vs[1..], i);
        SubAppend([], LaterRound(u, t, y, high, vs[0], i), PastLow(u, t, x, high, ws, i), rest);
        assert [] + PastLow(u, t, x, high, ws, i) == PastLow(u, t, x, high, ws, i);
      }
    }
  }

  lemma {:induction false} FinerLaterRound(u: Tables, t: seq<int>, x: Node, y: Node, high: nat, w: nat, i: nat)
    requires Finer(u, t, x, y) && i <= w <= |t|
    ensures Sub(LaterRound(u, t, x, high, w, i), LaterRound(u, t, y, high, w, i))
    decreases x, 1, |t| - i, 1, 0
  {
    if w == i {
      SubRefl([i]);
    } else {
      FinerRepWays(u, t, x, y, 0, high, w);
    }
  }

  lemma {:induction false} FinerRepOver(
      u: Tables, t: seq<int>, x: Node, y: Node, low: nat, high: nat, ws: seq<nat>, vs: seq<nat>, from: nat)
    requires Finer(u, t, x, y) && from <= |t| + 1 && Within(ws, from, |t|) && Within(vs, from, |t|) && Sub(ws, vs)
    ensures Sub(RepOver(u, t, x, low, high, ws, from), RepOver(u, t, y, low, high, vs, from))
    decreases x, 1, |t| + 1 - from + low, 1, |vs|
  {
    if ws != [] {
      if ws[0] == vs[0] && Sub(ws[1..], vs[1..]) {
        FinerRepWays(u, t, x, y, low, high, ws[0]);
        FinerRepOver(u, t, x, y, low, high, ws[1..], vs[1..], from);
        SubAppend(RepWays(u, t, x, low, high, ws[0]), RepWays(u, t, y, low, high, ws[0]),
                  RepOver(u, t, x, low, high, ws[1..], from), RepOver(u, t, y, low, high, vs[1..], from));
      } else {
        FinerRepOver(u, t, x, y, low, high, ws, vs[1..], from);
        SubAppend([], RepWays(u, t, y, low, high, vs[0]),
                  RepOver(u, t, x, low, high, ws, from), RepOver(u, t, y, low, high, vs[1..], from));
        assert [] + RepOver(u, t, x, low, high, ws, from) == RepOver(u, t, x, low, high, ws, from);
      }
    }
  }

  // ---------------------------------------------------------------- less work

  lemma {:induction false} FinerWidth(u: Tables, t: seq<int>, a: Node, b: Node)
    requires Finer(u, t, a, b)
    ensures Width(a) == Width(b)
    decreases a, 0
  {
    match (a, b)
    case (Seq(xs), Seq(ys)) => FinerSeqWidth(u, t, xs, ys);
    case (Alt(xs), Alt(ys)) =>
      if xs != [] {
        FinerWidth(u, t, xs[0], ys[0]);
      }
    case (Repeat(x, _, _), Repeat(y, _, _)) => FinerWidth(u, t, x, y);
    case _ =>
  }

  lemma {:induction false} FinerSeqWidth(u: Tables, t: seq<int>, xs: seq<Node>, ys: seq<Node>)
    requires AllFiner(u, t, xs, ys)
    ensures SeqWidth(xs) == SeqWidth(ys)
    decreases xs, 1
  {
    if xs != [] {
      FinerWidth(u, t, xs[0], ys[0]);
      FinerSeqWidth(u, t, xs[1..], ys[1..]);
    }
  }

  lemma {:induction false} FinerWork(u: Tables, t: seq<int>, a: Node, b: Node, i: nat)
    requires i <= |t| && Finer(u, t, a, b)
    ensures Work(u, t, a, i) <= Work(u, t, b, i)
    decreases a, 0, 0, 0, 0
  {
    match (a, b)
    case (Look(x), Look(y)) => FinerWork(u, t, x, y, i);
    case (Behind(x), Behind(y)) =>
      FinerWidth(u, t, x, y);
      if Width(x) <= i {
        FinerWork(u, t, x, y, i - Width(x));
      }
    case (Seq(xs), Seq(ys)) => FinerSeqWork(u, t, xs, ys, i);
    case (Alt(xs), Alt(ys)) => FinerAltWork(u, t, xs, ys, i);
    case (Repeat(x, low, high), Repeat(y, low2, high2)) => FinerRepWork(u, t, x, y, low, high, i);
    case _ =>
  }

  lemma {:induction false} FinerAltWork(u: Tables, t: seq<int>, xs: seq<Node>, ys: seq<Node>, i: nat)
    requires i <= |t| && AllFiner(u, t, xs, ys)
    ensures AltWork(u, t, xs, i) <= AltWork(u, t, ys, i)
    decreases xs, 0, 0, 0, 0
  {
    if xs != [] {
      FinerWork(u, t, xs[0], ys[0], i);
      FinerAltWork(u, t, xs[1..], ys[1..], i);
    }
  }

  lemma {:induction false} FinerSeqWork(u: Tables, t: seq<int>, xs: seq<Node>, ys: seq<Node>, i: nat)
    requires i <= |t| && AllFiner(u, t, xs, ys)
    ensures SeqWork(u, t, xs, i) <= SeqWork(u, t, ys, i)
    decreases xs, 0, 0, 0, 0
  {
    if xs != [] {
      FinerWork(u, t, xs[0], ys[0], i);
      FinerWays(u, t, xs[0], ys[0], i);
      FinerSeqWorkOver(u, t, xs[1..], ys[1..], Ways(u, t, xs[0], i), Ways(u, t, ys[0], i), i);
    }
  }

  lemma {:induction false} FinerSeqWorkOver(
      u: Tables, t: seq<int>, xs: seq<Node>, ys: seq<Node>, ws: seq<nat>, vs: seq<nat>, i: nat)
    requires AllFiner(u, t, xs, ys) && Within(ws, i, |t|) && Within(vs, i, |t|) && Sub(ws, vs)
    ensures SeqWorkOver(u, t, xs, ws, i) <= SeqWorkOver(u, t, ys, vs, i)
    decreases xs, 1, |vs|, 0, 0
  {
    if ws != [] {
      if ws[0] == vs[0] && Sub(ws[1..], vs[1..]) {
        FinerSeqWork(u, t, xs, ys, ws[0]);
        FinerSeqWorkOver(u, t, xs, ys, ws[1..], vs[1..], i);
      } else {
        FinerSeqWorkOver(u, t, xs, ys, ws, vs[1..], i);
      }
    }
  }

  lemma {:induction false} FinerRepWork(u: Tables, t: seq<int>, x: Node, y: Node, low: nat, high: nat, i: nat)
    requires i <= |t| && Finer(u, t, x, y)
    ensures RepWork(u, t, x, low, high, i) <= RepWork(u, t, y, low, high, i)
    decreases x, 1, |t| + 1 - i + low, 0, 0
  {
    if high > 0 {
      var ws, vs := Next(u, t, x, low, i), Next(u, t, y, low, i);
      FinerWork(u, t, x, y, i);
      FinerNext(u, t, x, y, low, i);
      FinerRepWorkOver(u, t, x, y, Fewer(low), Less(high), ws, vs, From(low, i));
      RepWorkStep(u, t, x, low, high, i);
      RepWorkStep(u, t, y, low, high, i);
    }
  }

  lemma FinerNext(u: Tables, t: seq<int>, x: Node, y: Node, low: nat, i: nat)
    requires i <= |t| && Finer(u, t, x, y)
    ensures Sub(Next(u, t, x, low, i), Next(u, t, y, low, i))
  {
    FinerWays(u, t, x, y, i);
    SubAfter(Ways(u, t, x, i), Ways(u, t, y, i), i);
  }

  lemma {:induction false} FinerRepWorkOver(
      u: Tables, t: seq<int>, x: Node, y: Node, low: nat, high: nat, ws: seq<nat>, vs: seq<nat>, from: nat)
    requires Finer(u, t, x, y) && from <= |t| + 1 && Within(ws, from, |t|) && Within(vs, from, |t|) && Sub(ws, vs)
    ensures RepWorkOver(u, t, x, low, high, ws, from) <= RepWorkOver(u, t, y, low, high, vs, from)
    decreases x, 1, |t| + 1 - from + low, 1, |vs|
  {
    if ws != [] {
      if ws[0] == vs[0] && Sub(ws[1..], vs[1..]) {
        FinerRepWork(u, t, x, y, low, high, ws[0]);
        FinerRepWorkOver(u, t, x, y, low, high, ws[1..], vs[1..], from);
      } else {
        FinerRepWorkOver(u, t, x, y, low, high, ws, vs[1..], from);
      }
    }
  }

  /** Looking for a pattern with smaller sets takes no more work. */
  lemma {:induction false} FinerSearch(u: Tables, t: seq<int>, a: Node, b: Node, i: nat)
    requires i <= |t| && Finer(u, t, a, b)
    ensures SearchWork(u, t, a, i) <= SearchWork(u, t, b, i)
    decreases |t| - i
  {
    FinerWork(u, t, a, b, i);
    if i < |t| {
      FinerSearch(u, t, a, b, i + 1);
    }
  }
}
