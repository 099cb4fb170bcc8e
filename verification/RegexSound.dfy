/**
 The analyses of regex_safety.py say something true about matching, and a part
 of a pattern that the check accepts before a later choice matches in at most one viable way.
 */
module RegexSound {
  import opened RegexTree
  import opened RegexWays

  // ---------------------------------------------------------------- the empty match

  /** `_nullable` is exactly "can match without taking a character". */
  lemma {:induction false} NullableIff(u: Tables, t: seq<int>, node: Node, i: nat)
    requires i <= |t| && WellFormed(node)
    ensures Nullable(node) <==> i in Ways(u, t, node, i)
    decreases node, 0, 0
  {
    match node
    case Seq(items) => SeqNullableIff(u, t, items, i);
    case Alt(items) => AltNullableIff(u, t, items, i);
    case Repeat(body, low, high) => RepNullableIff(u, t, body, low, high, i);
    case _ =>
  }

  lemma {:induction false} SeqNullableIff(u: Tables, t: seq<int>, items: seq<Node>, i: nat)
    requires i <= |t| && AllWellFormed(items)
    ensures AllNullable(items) <==> i in SeqWays(u, t, items, i)
    decreases items, 0, 0
  {
    if items != [] {
      var ws := Ways(u, t, items[0], i);
      NullableIff(u, t, items[0], i);
      SeqNullableIff(u, t, items[1..], i);
      if i in SeqWays(u, t, items, i) {
        var j := SeqOverMember(u, t, items[1..], ws, i, i);
        assert j == i;
      }
      if AllNullable(items) {
        SeqOverContains(u, t, items[1..], ws, i, i, i);
      }
    }
  }

  lemma {:induction false} AltNullableIff(u: Tables, t: seq<int>, items: seq<Node>, i: nat)
    requires i <= |t| && AllWellFormed(items)
    ensures AnyNullable(items) <==> i in AltWays(u, t, items, i)
    decreases items, 0, 0
  {
    if items != [] {
      NullableIff(u, t, items[0], i);
      AltNullableIff(u, t, items[1..], i);
    }
  }

  lemma {:induction false} RepNullableIff(u: Tables, t: seq<int>, body: Node, low: nat, high: nat, i: nat)
    requires i <= |t| && WellFormed(body) && low <= high
    ensures (low == 0 || Nullable(body)) <==> i in RepWays(u, t, body, low, high, i)
    decreases body, 1, low
  {
    if low > 0 {
      var ws := Ways(u, t, body, i);
      NullableIff(u, t, body, i);
      RepNullableIff(u, t, body, low - 1, Less(high), i);
      if i in RepWays(u, t, body, low, high, i) {
        var j := RepOverMember(u, t, body, low - 1, Less(high), ws, i, i);
        assert j == i;
      }
      if Nullable(body) {
        RepOverContains(u, t, body, low - 1, Less(high), ws, i, i, i);
      }
    }
  }

  // ---------------------------------------------------------------- first characters

  /** The character that a non-empty match takes first is in one of the sets of `_first`. */
  lemma {:induction false} FirstSound(u: Tables, t: seq<int>, node: Node, i: nat, w: nat)
    requires i <= |t| && WellFormed(node) && w in Ways(u, t, node, i) && w > i
    ensures i < |t| && Starts(u, First(node), t[i])
    decreases node, 0, 0
  {
    match node
    case Seq(items) => SeqFirstSound(u, t, items, i, w);
    case Alt(items) => AltFirstSound(u, t, items, i, w);
    case Repeat(body, low, high) => RepFirstSound(u, t, body, low, high, i, w);
    case Char(chars) => assert First(node)[0].Contains(u, t[i]);
    case _ =>
  }

  lemma {:induction false} SeqFirstSound(u: Tables, t: seq<int>, items: seq<Node>, i: nat, w: nat)
    requires i <= |t| && AllWellFormed(items) && w in SeqWays(u, t, items, i) && w > i
    ensures i < |t| && Starts(u, SeqFirst(items), t[i])
    decreases items, 0, 0
  {
    var j := SeqOverMember(u, t, items[1..], Ways(u, t, items[0], i), i, w);
    StartsAppend(u, First(items[0]), SeqFirst(items[1..]), t[i]);
    if j > i {
      FirstSound(u, t, items[0], i, j);
    } else {
      NullableIff(u, t, items[0], i);
      SeqFirstSound(u, t, items[1..], i, w);
    }
  }

  lemma {:induction false} AltFirstSound(u: Tables, t: seq<int>, items: seq<Node>, i: nat, w: nat)
    requires i <= |t| && AllWellFormed(items) && w in AltWays(u, t, items, i) && w > i
    ensures i < |t| && Starts(u, AltFirst(items), t[i])
    decreases items, 0, 0
  {
    StartsAppend(u, First(items[0]), AltFirst(items[1..]), t[i]);
    if w in Ways(u, t, items[0], i) {
      FirstSound(u, t, items[0], i, w);
    } else {
      AltFirstSound(u, t, items[1..], i, w);
    }
  }

  lemma {:induction false} RepFirstSound(u: Tables, t: seq<int>, body: Node, low: nat, high: nat, i: nat, w: nat)
    requires i <= |t| && WellFormed(body) && w in RepWays(u, t, body, low, high, i) && w > i
    ensures i < |t| && Starts(u, First(body), t[i])
    decreases body, 1, low
  {
    var ws := Ways(u, t, body, i);
    if low > 0 {
      var j := RepOverMember(u, t, body, low - 1, Less(high), ws, i, w);
      if j > i {
        FirstSound(u, t, body, i, j);
      } else {
        RepFirstSound(u, t, body, low - 1, Less(high), i, w);
      }
    } else {
      var j := PastLowMember(u, t, body, Less(high), ws, i, w);
      FirstSound(u, t, body, i, j);
    }
  }

  // ---------------------------------------------------------------- plain starts

  /** The text at `i` goes through the listed sets one by one. */
  ghost predicate Agrees(u: Tables, t: seq<int>, sets: seq<Chars>, i: nat) {
    i + |sets| <= |t| && forall k | 0 <= k < |sets| :: sets[k].Contains(u, t[i + k])
  }

  /**
   What `_prefix` adds to its list is a plain start of every match: the match is
   at least as long, goes through it set by set, and is just as long when the answer is true.
   */
  lemma {:induction false} PrefixSound(u: Tables, t: seq<int>, node: Node, out: seq<Chars>, i: nat, w: nat)
    requires i <= |t| && w in Ways(u, t, node, i)
    ensures var (all, full) := Prefix(node, out);
            var added := all[|out|..];
            Agrees(u, t, added, i) && i + |added| <= w && (full ==> w == i + |added|)
    decreases node, 0
  {
    match node
    case Seq(items) =>
      if |out| < MAX_PREFIX {
        SeqPrefixSound(u, t, items, out, i, w);
      }
    case Repeat(body, low, high) =>
      if |out| < MAX_PREFIX && PlainRepeat(node) {
        assert body == Seq([Char(body.items[0].chars)]);
        PlainRepeatWays(u, t, body.items[0].chars, low, i, w);
        assert (out + Copies(body.items[0].chars, low))[|out|..] == Copies(body.items[0].chars, low);
      }
    case _ =>
  }

  lemma {:induction false} SeqPrefixSound(u: Tables, t: seq<int>, items: seq<Node>, out: seq<Chars>, i: nat, w: nat)
    requires i <= |t| && w in SeqWays(u, t, items, i)
    ensures var (all, full) := PrefixAll(items, out);
            var added := all[|out|..];
            Agrees(u, t, added, i) && i + |added| <= w && (full ==> w == i + |added|)
    decreases items, 1
  {
    if items != [] {
      var j := SeqOverMember(u, t, items[1..], Ways(u, t, items[0], i), i, w);
      var (more, full) := Prefix(items[0], out);
      PrefixSound(u, t, items[0], out, i, j);
      if full {
        SeqPrefixSound(u, t, items[1..], more, j, w);
        var all := PrefixAll(items[1..], more).0;
        assert all[|out|..] == more[|out|..] + all[|more|..] by {
          assert all[..|more|] == more;
        }
      }
    }
  }

  lemma {:induction false} PlainRepeatWays(u: Tables, t: seq<int>, chars: Chars, n: nat, i: nat, w: nat)
    requires i <= |t| && n <= MAX_PREFIX && w in RepWays(u, t, Seq([Char(chars)]), n, n, i)
    ensures Agrees(u, t, Copies(chars, n), i) && w == i + n
    decreases n
  {
    if n > 0 {
      var body := Seq([Char(chars)]);
      var j := RepOverMember(u, t, body, n - 1, n - 1, Ways(u, t, body, i), i, w);
      assert j in SeqWays(u, t, body.items, i);
      var m := SeqOverMember(u, t, body.items[1..], Ways(u, t, body.items[0], i), i, j);
      assert body.items[1..] == [];
      PlainRepeatWays(u, t, chars, n - 1, j, w);
      forall k | 0 <= k < n ensures Copies(chars, n)[k].Contains(u, t[i + k]) {
        if k > 0 {
          assert Copies(chars, n - 1)[k - 1].Contains(u, t[j + (k - 1)]);
        }
      }
    }
  }

  // ---------------------------------------------------------------- determinism

  /** Branches that `_deterministic` sets apart never both match at one place. */
  lemma ExcludesSound(u: Tables, t: seq<int>, a: Node, b: Node, i: nat)
    requires u.Valid() && i <= |t| && WellFormed(a) && WellFormed(b)
    requires Excludes(u, a, b) && !Nullable(a) && !Nullable(b)
    ensures Ways(u, t, a, i) == [] || Ways(u, t, b, i) == []
  {
    if Ways(u, t, a, i) != [] && Ways(u, t, b, i) != [] {
      if Disjoint(u, First(a), First(b)) {
        StartsWithFirst(u, t, a, i);
        StartsWithFirst(u, t, b, i);
        DisjointSound(u, First(a), First(b), t[i]);
      } else {
        StartsWithPrefix(u, t, a, i);
        StartsWithPrefix(u, t, b, i);
        var p, q := Prefix(a, []).0, Prefix(b, []).0;
        var k :| 0 <= k < |p| && k < |q| && DisjointPair(u, p[k], q[k]);
        DisjointPairSound(u, p[k], q[k], t[i + k]);
      }
    }
  }

  lemma StartsWithFirst(u: Tables, t: seq<int>, node: Node, i: nat)
    requires i <= |t| && WellFormed(node) && !Nullable(node) && Ways(u, t, node, i) != []
    ensures i < |t| && Starts(u, First(node), t[i])
  {
    NullableIff(u, t, node, i);
    FirstSound(u, t, node, i, Ways(u, t, node, i)[0]);
  }

  lemma StartsWithPrefix(u: Tables, t: seq<int>, node: Node, i: nat)
    requires i <= |t| && Ways(u, t, node, i) != []
    ensures Agrees(u, t, Prefix(node, []).0, i)
  {
    PrefixSound(u, t, node, [], i, Ways(u, t, node, i)[0]);
    assert Prefix(node, []).0[0..] == Prefix(node, []).0;
  }

  lemma {:induction false} AltAllEmpty(u: Tables, t: seq<int>, items: seq<Node>, i: nat)
    requires i <= |t| && forall k | 0 <= k < |items| :: Ways(u, t, items[k], i) == []
    ensures AltWays(u, t, items, i) == []
    decreases |items|
  {
    if items != [] {
      forall k | 0 <= k < |items[1..]| ensures Ways(u, t, items[1..][k], i) == [] {
        assert items[1..][k] == items[k + 1];
      }
      AltAllEmpty(u, t, items[1..], i);
    }
  }

  /** A deterministic alternation matches, at one place, as just one of its branches does. */
  lemma {:induction false} DeterministicAlt(u: Tables, t: seq<int>, items: seq<Node>, i: nat)
    requires u.Valid() && i <= |t| && AllWellFormed(items) && Deterministic(u, items)
    ensures
      || AltWays(u, t, items, i) == []
      || exists p :: 0 <= p < |items| && AltWays(u, t, items, i) == Ways(u, t, items[p], i)
    decreases |items|
  {
    if items != [] {
      var rest := items[1..];
      assert Deterministic(u, rest) by {
        forall p, q | 0 <= p < q < |rest| ensures Excludes(u, rest[p], rest[q]) {
          assert rest[p] == items[p + 1] && rest[q] == items[q + 1];
        }
      }
      DeterministicAlt(u, t, rest, i);
      if Ways(u, t, items[0], i) == [] {
        if AltWays(u, t, rest, i) != [] {
          var p :| 0 <= p < |rest| && AltWays(u, t, rest, i) == Ways(u, t, rest[p], i);
          assert items[p + 1] == rest[p];
        }
      } else {
        forall k | 0 <= k < |rest| ensures Ways(u, t, rest[k], i) == [] {
          assert rest[k] == items[k + 1];
          WellFormedAt(items, k + 1);
          ExcludesSound(u, t, items[0], items[k + 1], i);
        }
        AltAllEmpty(u, t, rest, i);
        assert AltWays(u, t, items, i) == Ways(u, t, items[0], i);
      }
    }
  }

  lemma {:induction false} NoChoiceAt(u: Tables, items: seq<Node>, k: nat)
    requires !AnyChoice(u, items) && k < |items|
    ensures !IsChoice(u, items[k])
    decreases |items|
  {
    if k > 0 {
      NoChoiceAt(u, items[1..], k - 1);
      assert items[1..][k - 1] == items[k];
    }
  }

  /** A node that `_is_choice` calls no choice matches in at most one way at every place. */
  lemma {:induction false} OneWay(u: Tables, t: seq<int>, node: Node, i: nat)
    requires u.Valid() && i <= |t| && WellFormed(node) && !IsChoice(u, node)
    ensures |Ways(u, t, node, i)| <= 1
    decreases node, 0, 0
  {
    match node
    case Seq(items) => SeqOneWay(u, t, items, i);
    case Alt(items) =>
      DeterministicAlt(u, t, items, i);
      if AltWays(u, t, items, i) != [] {
        var p :| 0 <= p < |items| && AltWays(u, t, items, i) == Ways(u, t, items[p], i);
        NoChoiceAt(u, items, p);
        WellFormedAt(items, p);
        OneWay(u, t, items[p], i);
      }
    case Repeat(body, low, high) => RepOneWay(u, t, body, low, i);
    case _ =>
  }

  lemma {:induction false} SeqOneWay(u: Tables, t: seq<int>, items: seq<Node>, i: nat)
    requires u.Valid() && i <= |t| && AllWellFormed(items) && !AnyChoice(u, items)
    ensures |SeqWays(u, t, items, i)| <= 1
    decreases items, 1, 0
  {
    if items != [] {
      var ws := Ways(u, t, items[0], i);
      OneWay(u, t, items[0], i);
      if ws != [] {
        SeqOneWay(u, t, items[1..], ws[0]);
        assert SeqOver(u, t, items[1..], ws[1..], i) == [];
      }
    }
  }

  lemma {:induction false} RepOneWay(u: Tables, t: seq<int>, body: Node, n: nat, i: nat)
    requires u.Valid() && i <= |t| && WellFormed(body) && !IsChoice(u, body) && n < MAX_REPEAT
    ensures |RepWays(u, t, body, n, n, i)| <= 1
    decreases body, 1, n
  {
    if n > 0 {
      var ws := Ways(u, t, body, i);
      OneWay(u, t, body, i);
      if ws != [] {
        RepOneWay(u, t, body, n - 1, ws[0]);
        assert RepOver(u, t, body, n - 1, n - 1, ws[1..], i) == [];
      }
    }
  }

  // ---------------------------------------------------------------- viable ends

  /** An end from which what follows can go on: the end of the text, or one of its first characters. */
  ghost predicate Viable(u: Tables, t: seq<int>, first: seq<Chars>, w: nat)
    requires w <= |t|
  {
    w == |t| || Starts(u, first, t[w])
  }

  /** How many of the listed ways end viably. */
  ghost function Count(u: Tables, t: seq<int>, first: seq<Chars>, ws: seq<nat>): nat
    requires Within(ws, 0, |t|)
  {
    if ws == [] then 0
    else (if Viable(u, t, first, ws[0]) then 1 else 0) + Count(u, t, first, ws[1..])
  }

  lemma {:induction false} CountAppend(u: Tables, t: seq<int>, first: seq<Chars>, a: seq<nat>, b: seq<nat>)
    requires Within(a, 0, |t|) && Within(b, 0, |t|)
    ensures Within(a + b, 0, |t|)
    ensures Count(u, t, first, a + b) == Count(u, t, first, a) + Count(u, t, first, b)
    decreases |a|
  {
    if a == [] {
      assert a + b == b;
    } else {
      CountAppend(u, t, first, a[1..], b);
      assert (a + b)[1..] == a[1..] + b;
    }
  }

  lemma {:induction false} CountZero(u: Tables, t: seq<int>, first: seq<Chars>, ws: seq<nat>)
    requires Within(ws, 0, |t|) && forall k | 0 <= k < |ws| :: !Viable(u, t, first, ws[k])
    ensures Count(u, t, first, ws) == 0
    decreases |ws|
  {
    if ws != [] {
      CountZero(u, t, first, ws[1..]);
    }
  }

  lemma {:induction false} CountAfter(u: Tables, t: seq<int>, first: seq<Chars>, ws: seq<nat>, i: nat)
    requires Within(ws, 0, |t|)
    ensures Within(After(ws, i), 0, |t|)
    ensures Count(u, t, first, After(ws, i)) <= Count(u, t, first, ws)
    decreases |ws|
  {
    if ws != [] {
      CountAfter(u, t, first, ws[1..], i);
      CountAppend(u, t, first, if ws[0] > i then [ws[0]] else [], After(ws[1..], i));
    }
  }

  /** Members of the list that are viable are counted; two of them are the same when the count is one. */
  lemma {:induction false} CountMember(u: Tables, t: seq<int>, first: seq<Chars>, ws: seq<nat>, w: nat)
    requires Within(ws, 0, |t|) && w in ws && w <= |t| && Viable(u, t, first, w)
    ensures Count(u, t, first, ws) >= 1
    decreases |ws|
  {
    if ws[0] != w {
      CountMember(u, t, first, ws[1..], w);
    }
  }

  lemma {:induction false} SeqOverCount(
      u: Tables, t: seq<int>, rest: seq<Node>, ws: seq<nat>, i: nat, middle: seq<Chars>, first: seq<Chars>)
    requires Within(ws, i, |t|)
    requires forall k | 0 <= k < |ws| ::
      Count(u, t, first, SeqWays(u, t, rest, ws[k])) <= (if Viable(u, t, middle, ws[k]) then 1 else 0)
    ensures Count(u, t, first, SeqOver(u, t, rest, ws, i)) <= Count(u, t, middle, ws)
    decreases |ws|
  {
    if ws != [] {
      forall k | 0 <= k < |ws[1..]|
        ensures Count(u, t, first, SeqWays(u, t, rest, ws[1..][k])) <= (if Viable(u, t, middle, ws[1..][k]) then 1 else 0)
      {
        assert ws[1..][k] == ws[k + 1];
      }
      SeqOverCount(u, t, rest, ws[1..], i, middle, first);
      CountAppend(u, t, first, SeqWays(u, t, rest, ws[0]), SeqOver(u, t, rest, ws[1..], i));
    }
  }

  /** From a place where neither the rest nor what follows it can go on, the rest ends nowhere viable. */
  lemma NonViableSeq(u: Tables, t: seq<int>, rest: seq<Node>, follow: Follow, j: nat)
    requires j <= |t| && AllWellFormed(rest) && !Viable(u, t, FollowOf(u, rest, follow).first, j)
    ensures Count(u, t, follow.first, SeqWays(u, t, rest, j)) == 0
    ensures forall w | w in SeqWays(u, t, rest, j) :: w == j
    ensures !Starts(u, SeqFirst(rest), t[j])
  {
    var ws := SeqWays(u, t, rest, j);
    StartsAppend(u, SeqFirst(rest), if AllNullable(rest) then follow.first else [], t[j]);
    forall w | w in ws ensures w == j {
      if w > j {
        SeqFirstSound(u, t, rest, j, w);
      }
    }
    forall k | 0 <= k < |ws| ensures !Viable(u, t, follow.first, ws[k]) {
      assert ws[k] in ws;
      SeqNullableIff(u, t, rest, j);
    }
    CountZero(u, t, follow.first, ws);
  }

  lemma NonViableRep(u: Tables, t: seq<int>, body: Node, low: nat, high: nat, first: seq<Chars>, j: nat)
    requires j <= |t| && WellFormed(body) && !Viable(u, t, First(body) + first, j)
    ensures Count(u, t, first, RepWays(u, t, body, low, high, j)) == 0
    ensures !Starts(u, First(body), t[j])
  {
    var ws := RepWays(u, t, body, low, high, j);
    StartsAppend(u, First(body), first, t[j]);
    forall k | 0 <= k < |ws| ensures !Viable(u, t, first, ws[k]) {
      if ws[k] > j {
        RepFirstSound(u, t, body, low, high, j, ws[k]);
      }
    }
    CountZero(u, t, first, ws);
  }

  /** A place where a repeat may stop viably is one where its body cannot go on. */
  lemma StopsWhereViable(u: Tables, t: seq<int>, body: Node, first: seq<Chars>, i: nat)
    requires u.Valid() && i <= |t| && WellFormed(body)
    requires Disjoint(u, First(body), first) && Viable(u, t, first, i)
    ensures i < |t| ==> !Starts(u, First(body), t[i])
    ensures After(Ways(u, t, body, i), i) == []
  {
    if i < |t| {
      DisjointSound(u, First(body), first, t[i]);
    }
    var later := After(Ways(u, t, body, i), i);
    if later != [] {
      FirstSound(u, t, body, i, later[0]);
    }
  }

  // ---------------------------------------------------------------- optional alternatives

  lemma PlainStep(items: seq<Node>)
    requires items != []
    ensures Plain(items) == (if Items(items[0]) != [] then [items[0]] + Plain(items[1..]) else Plain(items[1..]))
  {
  }

  lemma {:induction false} PlainParts(items: seq<Node>)
    requires AllWellFormed(items)
    ensures AllWellFormed(Plain(items))
    ensures forall b | b in Plain(items) :: b in items
    decreases |items|
  {
    if items != [] {
      PlainParts(items[1..]);
      PlainStep(items);
      if Items(items[0]) != [] {
        assert Plain(items)[1..] == Plain(items[1..]);
      }
      assert forall b | b in items[1..] :: b in items;
    }
  }

  lemma {:induction false} PlainFirst(u: Tables, items: seq<Node>, code: int)
    requires Starts(u, AltFirst(Plain(items)), code)
    ensures Starts(u, AltFirst(items), code)
    decreases |items|
  {
    if items != [] {
      var rest := items[1..];
      PlainStep(items);
      StartsAppend(u, First(items[0]), AltFirst(rest), code);
      if Items(items[0]) != [] {
        assert ([items[0]] + Plain(rest))[1..] == Plain(rest);
        StartsAppend(u, First(items[0]), AltFirst(Plain(rest)), code);
      }
      if Starts(u, AltFirst(Plain(rest)), code) {
        PlainFirst(u, rest, code);
      }
    }
  }

  /** Ways of an alternation of seq nodes: those of its plain branches, and one empty way for each other branch. */
  lemma {:induction false} PlainCount(u: Tables, t: seq<int>, items: seq<Node>, first: seq<Chars>, i: nat)
    requires i <= |t| && forall k | 0 <= k < |items| :: items[k].Seq?
    ensures |Plain(items)| <= |items|
    ensures Count(u, t, first, AltWays(u, t, items, i))
         == Count(u, t, first, AltWays(u, t, Plain(items), i))
            + (if Viable(u, t, first, i) then |items| - |Plain(items)| else 0)
    decreases |items|
  {
    if items != [] {
      var rest := items[1..];
      PlainCount(u, t, rest, first, i);
      CountAppend(u, t, first, Ways(u, t, items[0], i), AltWays(u, t, rest, i));
      if Items(items[0]) != [] {
        assert Plain(items)[0] == items[0] && Plain(items)[1..] == Plain(rest);
        CountAppend(u, t, first, Ways(u, t, items[0], i), AltWays(u, t, Plain(rest), i));
      } else {
        assert Plain(items) == Plain(rest);
        assert Ways(u, t, items[0], i) == [i];
      }
    }
  }

  lemma {:induction false} NotNullableAlt(u: Tables, items: seq<Node>)
    requires forall k | 0 <= k < |items| :: !Nullable(items[k])
    ensures !AnyNullable(items)
    decreases |items|
  {
    if items != [] {
      assert forall k | 0 <= k < |items[1..]| :: items[1..][k] == items[k + 1];
      NotNullableAlt(u, items[1..]);
    }
  }

  /** Where what follows can start, or at the end of the text, no plain branch of "x or nothing" matches. */
  lemma OptionalStops(u: Tables, t: seq<int>, items: seq<Node>, first: seq<Chars>, i: nat)
    requires u.Valid() && i <= |t| && AllWellFormed(items) && Deterministic(u, Plain(items))
    requires Disjoint(u, AltFirst(items), first) && Viable(u, t, first, i)
    ensures i < |t| ==> !Starts(u, AltFirst(items), t[i])
    ensures AltWays(u, t, Plain(items), i) == []
  {
    if i < |t| {
      DisjointSound(u, AltFirst(items), first, t[i]);
    }
    PlainParts(items);
    if i < |t| && Starts(u, AltFirst(Plain(items)), t[i]) {
      PlainFirst(u, items, t[i]);
    }
    PlainNeedsFirst(u, t, Plain(items), i);
  }

  lemma PlainNeedsFirst(u: Tables, t: seq<int>, branches: seq<Node>, i: nat)
    requires i <= |t| && AllWellFormed(branches)
    requires forall k | 0 <= k < |branches| :: !Nullable(branches[k])
    requires i < |t| ==> !Starts(u, AltFirst(branches), t[i])
    ensures AltWays(u, t, branches, i) == []
  {
    var ws := AltWays(u, t, branches, i);
    if ws != [] {
      NotNullableAlt(u, branches);
      AltNullableIff(u, t, branches, i);
      AltFirstSound(u, t, branches, i, ws[0]);
    }
  }

  // ---------------------------------------------------------------- the main theorem

  /** Whether `_check` accepts the node before what follows it. */
  predicate Ok(u: Tables, node: Node, follow: Follow) {
    Check(u, node, follow).Accepted?
  }

  lemma {:induction false} BranchOk(u: Tables, items: seq<Node>, follow: Follow, k: nat)
    requires CheckBranches(u, items, follow).Accepted? && k < |items|
    ensures Ok(u, items[k], follow)
    decreases |items|
  {
    if k > 0 {
      BranchOk(u, items[1..], follow, k - 1);
      assert items[1..][k - 1] == items[k];
    }
  }

  /**
   Viable uniqueness: when a choice comes later, an accepted node whose repeats move on has, at every
   place of every text, at most one way that ends where the rest can go on.
   */
  lemma {:induction false} ViableUnique(u: Tables, t: seq<int>, node: Node, follow: Follow, i: nat)
    requires u.Valid() && i <= |t| && WellFormed(node) && Moves(node) && Ok(u, node, follow) && follow.choice
    ensures Count(u, t, follow.first, Ways(u, t, node, i)) <= 1
    decreases node, 0, 0, 0
  {
    match node
    case Seq(items) => SeqUnique(u, t, items, follow, i);
    case Repeat(body, low, high) =>
      if high > 1 {
        RepUnique(u, t, body, low, high, Inner(u, body, high, follow), follow.first, follow.first, i);
      } else {
        ViableUnique(u, t, body, follow, i);
        SingleRoundUnique(u, t, body, low, high, follow.first, i);
      }
    case Alt(items) => AltUnique(u, t, items, follow, i);
    case _ =>
  }

  lemma {:induction false} SeqUnique(u: Tables, t: seq<int>, items: seq<Node>, follow: Follow, i: nat)
    requires u.Valid() && i <= |t| && AllWellFormed(items) && AllMove(items)
    requires CheckSeq(u, items, follow).Accepted? && follow.choice
    ensures Count(u, t, follow.first, SeqWays(u, t, items, i)) <= 1
    decreases items, 1, 0, 0
  {
    if items != [] {
      var rest := items[1..];
      var next := FollowOf(u, rest, follow);
      var ws := Ways(u, t, items[0], i);
      ViableUnique(u, t, items[0], next, i);
      forall k | 0 <= k < |ws|
        ensures Count(u, t, follow.first, SeqWays(u, t, rest, ws[k])) <= (if Viable(u, t, next.first, ws[k]) then 1 else 0)
      {
        SeqUnique(u, t, rest, follow, ws[k]);
        if !Viable(u, t, next.first, ws[k]) {
          NonViableSeq(u, t, rest, follow, ws[k]);
        }
      }
      SeqOverCount(u, t, rest, ws, i, next.first, follow.first);
    }
  }

  /**
   Rounds of a body that is unique before another round or before `more` add up
   to at most one way with a viable end, before `more` or before nothing at all.
   */
  lemma {:induction false} RepUnique(
      u: Tables, t: seq<int>, body: Node, low: nat, high: nat, inner: Follow, more: seq<Chars>, first: seq<Chars>, i: nat)
    requires u.Valid() && i <= |t| && WellFormed(body) && Moves(body) && low <= high && low < MAX_REPEAT
    requires Ok(u, body, inner) && inner.choice && inner.first == First(body) + more && (first == more || first == [])
    requires low == high || (Disjoint(u, First(body), first) && !Nullable(body))
    ensures Count(u, t, first, RepWays(u, t, body, low, high, i)) <= 1
    decreases body, 1, |t| + 1 - i + low, 1
  {
    if high == 0 {
    } else if low > 0 {
      RepOverUnique(u, t, body, low - 1, Less(high), inner, more, first, Ways(u, t, body, i), i);
      ViableUnique(u, t, body, inner, i);
    } else if Viable(u, t, first, i) {
      StopsWhereViable(u, t, body, first, i);
      MovingRepeat(u, t, body, high, i);
    } else {
      LaterRoundsUnique(u, t, body, high, inner, more, first, i);
      PastLowCount(u, t, body, high, first, i);
    }
  }

  lemma {:induction false} LaterRoundsUnique(
      u: Tables, t: seq<int>, body: Node, high: nat, inner: Follow, more: seq<Chars>, first: seq<Chars>, i: nat)
    requires u.Valid() && i <= |t| && WellFormed(body) && Moves(body) && 0 < high
    requires Ok(u, body, inner) && inner.choice && inner.first == First(body) + more && (first == more || first == [])
    requires Disjoint(u, First(body), first) && !Nullable(body)
    ensures Count(u, t, first, RepOver(u, t, body, 0, Less(high), After(Ways(u, t, body, i), i), i + 1)) <= 1
    decreases body, 1, |t| + 1 - i, 0
  {
    MovingRepeat(u, t, body, high, i);
    var ws := Ways(u, t, body, i);
    assert ws == After(ws, i);
    RepOverUnique(u, t, body, 0, Less(high), inner, more, first, ws, i + 1);
    ViableUnique(u, t, body, inner, i);
  }

  /** A body that cannot match nothing has no empty way. */
  lemma MovingRepeat(u: Tables, t: seq<int>, body: Node, high: nat, i: nat)
    requires i <= |t| && WellFormed(body) && !Nullable(body) && 0 < high
    ensures After(Ways(u, t, body, i), i) == Ways(u, t, body, i)
    ensures RepWays(u, t, body, 0, high, i)
         == RepOver(u, t, body, 0, Less(high), After(Ways(u, t, body, i), i), i + 1) + [i]
  {
    NullableIff(u, t, body, i);
    MovingRound(u, t, body, high, i);
  }

  /** Past its lower bound such a repeat may stop, or do another round. */
  lemma PastLowCount(u: Tables, t: seq<int>, body: Node, high: nat, first: seq<Chars>, i: nat)
    requires i <= |t| && WellFormed(body) && !Nullable(body) && 0 < high
    ensures Count(u, t, first, RepWays(u, t, body, 0, high, i))
         == Count(u, t, first, RepOver(u, t, body, 0, Less(high), After(Ways(u, t, body, i), i), i + 1))
            + (if Viable(u, t, first, i) then 1 else 0)
  {
    MovingRepeat(u, t, body, high, i);
    CountAppend(u, t, first, RepOver(u, t, body, 0, Less(high), After(Ways(u, t, body, i), i), i + 1), [i]);
  }

  lemma {:induction false} RepOverUnique(
      u: Tables, t: seq<int>, body: Node, low: nat, high: nat, inner: Follow, more: seq<Chars>, first: seq<Chars>,
      ws: seq<nat>, from: nat)
    requires u.Valid() && from <= |t| + 1 && Within(ws, from, |t|)
    requires WellFormed(body) && Moves(body) && low <= high && low < MAX_REPEAT
    requires Ok(u, body, inner) && inner.choice && inner.first == First(body) + more && (first == more || first == [])
    requires low == high || (Disjoint(u, First(body), first) && !Nullable(body))
    ensures Count(u, t, first, RepOver(u, t, body, low, high, ws, from)) <= Count(u, t, inner.first, ws)
    decreases body, 1, |t| + 1 - from + low, 3, |ws|
  {
    if ws != [] {
      NextRoundUnique(u, t, body, low, high, inner, more, first, ws[0]);
      RepOverUnique(u, t, body, low, high, inner, more, first, ws[1..], from);
      CountAppend(u, t, first, RepWays(u, t, body, low, high, ws[0]), RepOver(u, t, body, low, high, ws[1..], from));
    }
  }

  lemma {:induction false} NextRoundUnique(
      u: Tables, t: seq<int>, body: Node, low: nat, high: nat, inner: Follow, more: seq<Chars>, first: seq<Chars>, j: nat)
    requires u.Valid() && j <= |t| && WellFormed(body) && Moves(body) && low <= high && low < MAX_REPEAT
    requires Ok(u, body, inner) && inner.choice && inner.first == First(body) + more && (first == more || first == [])
    requires low == high || (Disjoint(u, First(body), first) && !Nullable(body))
    ensures Count(u, t, first, RepWays(u, t, body, low, high, j)) <= (if Viable(u, t, inner.first, j) then 1 else 0)
    decreases body, 1, |t| + 1 - j + low, 2
  {
    if Viable(u, t, inner.first, j) {
      RepUnique(u, t, body, low, high, inner, more, first, j);
    } else {
      StartsAppend(u, First(body), more, t[j]);
      StartsAppend(u, First(body), first, t[j]);
      NonViableRep(u, t, body, low, high, first, j);
    }
  }

  lemma SingleRoundUnique(u: Tables, t: seq<int>, body: Node, low: nat, high: nat, first: seq<Chars>, i: nat)
    requires u.Valid() && i <= |t| && WellFormed(body) && low <= high <= 1
    requires low == high || (Disjoint(u, First(body), first) && !Nullable(body))
    requires Count(u, t, first, Ways(u, t, body, i)) <= 1
    ensures Count(u, t, first, RepWays(u, t, body, low, high, i)) <= 1
  {
    SingleRound(u, t, body, low, high, i);
    if low == 0 && high == 1 {
      CountAppend(u, t, first, After(Ways(u, t, body, i), i), [i]);
      if Viable(u, t, first, i) {
        StopsWhereViable(u, t, body, first, i);
      } else {
        CountAfter(u, t, first, Ways(u, t, body, i), i);
      }
    }
  }

  /** A repeat of at most one round. */
  lemma SingleRound(u: Tables, t: seq<int>, body: Node, low: nat, high: nat, i: nat)
    requires i <= |t| && WellFormed(body) && low <= high <= 1 && (low == high || !Nullable(body))
    ensures RepWays(u, t, body, low, high, i)
         == if high == 0 then [i]
            else if low == 1 then Ways(u, t, body, i)
            else After(Ways(u, t, body, i), i) + [i]
  {
    if high == 1 && low == 1 {
      RepNeeded(u, t, body, low, high, i);
      LastRound(u, t, body, Ways(u, t, body, i), i);
    } else if high == 1 {
      OptionalRound(u, t, body, i);
    }
  }

  lemma OptionalRound(u: Tables, t: seq<int>, body: Node, i: nat)
    requires i <= |t| && WellFormed(body) && !Nullable(body)
    ensures RepWays(u, t, body, 0, 1, i) == After(Ways(u, t, body, i), i) + [i]
  {
    MovingRepeat(u, t, body, 1, i);
    LastRound(u, t, body, After(Ways(u, t, body, i), i), i + 1);
  }

  lemma {:induction false} LastRound(u: Tables, t: seq<int>, body: Node, ws: seq<nat>, from: nat)
    requires from <= |t| + 1 && Within(ws, from, |t|)
    ensures RepOver(u, t, body, 0, 0, ws, from) == ws
    decreases |ws|
  {
    if ws != [] {
      LastRound(u, t, body, ws[1..], from);
    }
  }

  lemma {:induction false} AltUnique(u: Tables, t: seq<int>, items: seq<Node>, follow: Follow, i: nat)
    requires u.Valid() && i <= |t| && WellFormed(Alt(items)) && AllMove(items)
    requires Ok(u, Alt(items), follow) && follow.choice
    ensures Count(u, t, follow.first, AltWays(u, t, items, i)) <= 1
    decreases items, 1, 0, 0
  {
    if Deterministic(u, items) {
      DeterministicAlt(u, t, items, i);
      if AltWays(u, t, items, i) != [] {
        var p :| 0 <= p < |items| && AltWays(u, t, items, i) == Ways(u, t, items[p], i);
        WellFormedAt(items, p);
        MovesAt(items, p);
        BranchOk(u, items, follow, p);
        ViableUnique(u, t, items[p], follow, i);
      }
    } else {
      var plain := Plain(items);
      PlainParts(items);
      PlainCount(u, t, items, follow.first, i);
      if Viable(u, t, follow.first, i) {
        OptionalStops(u, t, items, follow.first, i);
      } else {
        DeterministicAlt(u, t, plain, i);
        if AltWays(u, t, plain, i) != [] {
          var p :| 0 <= p < |plain| && AltWays(u, t, plain, i) == Ways(u, t, plain[p], i);
          assert plain[p] in items;
          var q :| 0 <= q < |items| && items[q] == plain[p];
          WellFormedAt(items, q);
          MovesAt(items, q);
          BranchOk(u, items, follow, q);
          ViableUnique(u, t, items[q], follow, i);
        }
      }
    }
  }
}
