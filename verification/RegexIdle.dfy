/**
 Rounds that take no character. `re` does one of them past the lower bound of a repeat, goes on, and
 goes on once more without it, so that the same end is reached twice. The check does not look for this.
 */
module RegexIdle {
  import opened RegexTree
  import opened RegexWays
  import opened RegexSound
  import opened RegexWork
  import opened RegexCost
  import opened RegexSize
  import opened RegexClasses
  import opened RegexBuild
  import opened RegexExplosion

  // ---------------------------------------------------------------- exactly when a repeat goes on in one way

  lemma {:induction false} PastLowHas(u: Tables, t: seq<int>, body: Node, high: nat, ws: seq<nat>, i: nat)
    requires i <= |t| && Within(ws, i, |t|) && i in ws
    ensures PastLow(u, t, body, high, ws, i) != []
    decreases |ws|
  {
    if ws[0] != i {
      PastLowHas(u, t, body, high, ws[1..], i);
    }
  }

  lemma {:induction false} RepOverHas(
      u: Tables, t: seq<int>, body: Node, low: nat, high: nat, ws: seq<nat>, from: nat, w: nat)
    requires from <= |t| + 1 && Within(ws, from, |t|) && w in ws && w <= |t|
    ensures |RepWays(u, t, body, low, high, w)| <= |RepOver(u, t, body, low, high, ws, from)|
    decreases |ws|
  {
    if ws[0] != w {
      RepOverHas(u, t, body, low, high, ws[1..], from, w);
    }
  }

  /** Where its body can match nothing, a repeat that may do more rounds than it needs stays there in two ways. */
  lemma {:induction false} IdleTwice(u: Tables, t: seq<int>, body: Node, low: nat, high: nat, i: nat)
    requires i <= |t| && low < high && low < MAX_REPEAT && i in Ways(u, t, body, i)
    ensures |RepWays(u, t, body, low, high, i)| >= 2
    decreases low
  {
    if low == 0 {
      RepPastLow(u, t, body, high, i);
      PastLowHas(u, t, body, Less(high), Ways(u, t, body, i), i);
    } else {
      IdleTwice(u, t, body, low - 1, Less(high), i);
      RepNeeded(u, t, body, low, high, i);
      RepOverHas(u, t, body, low - 1, Less(high), Ways(u, t, body, i), i, i);
    }
  }

  lemma {:induction false} CountAll(u: Tables, t: seq<int>, first: seq<Chars>, ws: seq<nat>)
    requires Within(ws, |t|, |t|)
    ensures Count(u, t, first, ws) == |ws|
    decreases |ws|
  {
    if ws != [] {
      CountAll(u, t, first, ws[1..]);
    }
  }

  /**
   An accepted repeat before a later choice goes on in at most one way, from every place of every text, if and only
   if its body cannot match nothing.
   */
  lemma GoesOnOnceIff(u: Tables, body: Node, low: nat, high: nat, follow: Follow)
    requires u.Valid() && WellFormed(Repeat(body, low, high)) && low < high && Moves(body)
    requires Ok(u, Repeat(body, low, high), follow) && follow.choice
    ensures (forall t: seq<int>, i: nat | i <= |t| ::
              Count(u, t, follow.first, Ways(u, t, Repeat(body, low, high), i)) <= 1)
       <==> !Nullable(body)
  {
    if !Nullable(body) {
      forall t: seq<int>, i: nat | i <= |t| ensures Count(u, t, follow.first, Ways(u, t, Repeat(body, low, high), i)) <= 1 {
        ViableUnique(u, t, Repeat(body, low, high), follow, i);
      }
    } else {
      var t: seq<int> := [];
      var ws := Ways(u, t, Repeat(body, low, high), 0);
      NullableIff(u, t, body, 0);
      IdleTwice(u, t, body, low, high, 0);
      CountAll(u, t, follow.first, ws);
      assert Count(u, t, follow.first, Ways(u, t, Repeat(body, low, high), 0)) >= 2;
    }
  }

  // ---------------------------------------------------------------- exponential in the text

  /** `(?:x?)?` */
  function Maybe(x: Chars): Node {
    Repeat(Seq([Repeat(One(x), 0, 1)]), 0, 1)
  }

  /** `(?:x?)?c` */
  function Round(x: Chars, c: Chars): Node {
    Seq([Maybe(x), Char(c)])
  }

  lemma {:induction false} NoneTaken(u: Tables, t: seq<int>, body: Node, i: nat)
    requires i <= |t| && Ways(u, t, body, i) == []
    ensures RepWays(u, t, body, 0, 1, i) == [i]
  {
    RepPastLow(u, t, body, 1, i);
  }

  lemma MaybeWays(u: Tables, t: seq<int>, x: Chars, i: nat)
    requires i <= |t| && (i < |t| ==> !x.Contains(u, t[i]))
    ensures Ways(u, t, Maybe(x), i) == [i, i]
  {
    var inner := Repeat(One(x), 0, 1);
    SeqOfOne(u, t, Char(x), i);
    NoneTaken(u, t, One(x), i);
    SeqOfOne(u, t, inner, i);
    assert Ways(u, t, Seq([inner]), i) == [i];
    RepPastLow(u, t, Seq([inner]), 1, i);
    assert [i][1..] == [];
    assert PastLow(u, t, Seq([inner]), 0, [i], i) == [i] + [];
  }

  lemma RoundWays(u: Tables, t: seq<int>, x: Chars, c: Chars, i: nat)
    requires i < |t| && !x.Contains(u, t[i]) && c.Contains(u, t[i])
    ensures Ways(u, t, Round(x, c), i) == [i + 1, i + 1]
  {
    var items := [Maybe(x), Char(c)];
    MaybeWays(u, t, x, i);
    assert items[0] == Maybe(x) && items[1..] == [Char(c)];
    SeqOfOne(u, t, Char(c), i);
    assert SeqWays(u, t, [Char(c)], i) == [i + 1];
    SeqOverBoth(u, t, [Char(c)], i);
    assert SeqWays(u, t, items, i) == SeqOver(u, t, [Char(c)], [i, i], i);
  }

  /** The rest of a sequence after two ways that took nothing. */
  lemma SeqOverBoth(u: Tables, t: seq<int>, rest: seq<Node>, i: nat)
    requires i <= |t|
    ensures SeqOver(u, t, rest, [i, i], i) == SeqWays(u, t, rest, i) + SeqWays(u, t, rest, i)
    ensures SeqWorkOver(u, t, rest, [i, i], i) == 2 * SeqWork(u, t, rest, i)
  {
    assert [i, i][1..] == [i] && [i][1..] == [];
    assert SeqOver(u, t, rest, [i], i) == SeqWays(u, t, rest, i) + [];
    assert SeqWorkOver(u, t, rest, [i], i) == SeqWork(u, t, rest, i);
  }

  /** The rounds on a text of `c` alone: with every character the ways double. */
  lemma {:induction false} RoundsDoubled(u: Tables, t: seq<int>, x: Chars, c: Chars, i: nat)
    requires i <= |t| && AllIn(u, c, t) && forall k | 0 <= k < |t| :: !x.Contains(u, t[k])
    ensures |RepWays(u, t, Round(x, c), 0, MAX_REPEAT, i)| >= Power(|t| - i)
    decreases |t| - i
  {
    var body := Round(x, c);
    RepPastLow(u, t, body, MAX_REPEAT, i);
    if i < |t| {
      RoundsDoubled(u, t, x, c, i + 1);
      RoundWays(u, t, x, c, i);
      TwiceLater(u, t, body, MAX_REPEAT, i + 1, i);
    }
  }

  lemma TwiceLater(u: Tables, t: seq<int>, body: Node, high: nat, w: nat, i: nat)
    requires i < w <= |t|
    ensures |PastLow(u, t, body, high, [w, w], i)| == 2 * |RepWays(u, t, body, 0, high, w)|
  {
    assert [w, w][1..] == [w] && [w][1..] == [];
    assert PastLow(u, t, body, high, [w], i) == RepWays(u, t, body, 0, high, w) + [];
  }

  lemma MaybeAccepted(u: Tables, x: Chars, follow: Follow)
    requires !follow.choice || Disjoint(u, [x], follow.first)
    ensures First(Maybe(x)) == [x] && Nullable(Maybe(x)) && IsChoice(u, Maybe(x))
    ensures Check(u, Maybe(x), follow) == Accepted
  {
    var inner := Repeat(One(x), 0, 1);
    SeqOfOneFacts(u, Char(x), follow);
    assert [inner][0] == inner && [inner][1..] == [];
    assert SeqFirst([inner]) == [x] + [];
    assert FollowOf(u, [], follow).first == follow.first && FollowOf(u, [], follow).choice == follow.choice;
    assert Check(u, inner, FollowOf(u, [], follow)) == Accepted by {
      SeqOfOneFacts(u, Char(x), FollowOf(u, [], follow));
    }
    assert CheckSeq(u, [], follow) == Accepted && CheckSeq(u, [inner], follow) == Accepted;
  }

  lemma RoundAccepted(u: Tables, x: Chars, c: Chars, y: Chars)
    requires DisjointPair(u, x, c)
    ensures Check(u, Seq([Repeat(Round(x, c), 0, MAX_REPEAT), Char(y)]), TOP) == Accepted
  {
    var body, after := Round(x, c), Follow([y], false, false);
    var inner := Inner(u, body, MAX_REPEAT, after);
    CheckPair(u, Repeat(body, 0, MAX_REPEAT), Char(y), TOP);
    assert Disjoint(u, [x], [c]);
    MaybeAccepted(u, x, Follow([c], true, false));
    assert IsChoice(u, body) by {
      assert [Maybe(x), Char(c)][0] == Maybe(x) && AnyChoice(u, [Maybe(x), Char(c)]);
    }
    CheckPair(u, Maybe(x), Char(c), inner);
    assert Check(u, Repeat(body, 0, MAX_REPEAT), after) == Check(u, body, inner);
  }

  function MaybeOp(x: int): Op {
    RepeatOp(0, 1, [RepeatOp(0, 1, [LiteralOp(x)])])
  }

  /** `(?:(?:x?)?c)*y` */
  function IdlePattern(x: int, c: int, y: int): seq<Op> {
    [RepeatOp(0, MAX_REPEAT, [MaybeOp(x), LiteralOp(c)]), LiteralOp(y)]
  }

  lemma BuildIdle(of: Reading, flags: Flags, x: int, c: int, y: int)
    ensures var body := Round(Listing(of.Folds(flags, x)), Listing(of.Folds(flags, c)));
      Build(of, IdlePattern(x, c, y), flags)
      == Tree(Seq([Repeat(body, 0, MAX_REPEAT), Char(Listing(of.Folds(flags, y)))]))
  {
    BuildOne(of, LiteralOp(x), flags);
    BuildOne(of, RepeatOp(0, 1, [LiteralOp(x)]), flags);
    BuildTwo(of, MaybeOp(x), LiteralOp(c), flags);
    BuildTwo(of, RepeatOp(0, MAX_REPEAT, [MaybeOp(x), LiteralOp(c)]), LiteralOp(y), flags);
  }

  lemma ParsedIdle(x: int, c: int, y: int)
    ensures Parsed(IdlePattern(x, c, y))
  {
    ParsedOne(LiteralOp(x));
    ParsedOne(RepeatOp(0, 1, [LiteralOp(x)]));
    ParsedTwo(MaybeOp(x), LiteralOp(c));
    ParsedTwo(RepeatOp(0, MAX_REPEAT, [MaybeOp(x), LiteralOp(c)]), LiteralOp(y));
  }

  lemma CoveredTwo(flags: Flags, cases: Cases, a: Op, b: Op)
    requires CoveredOp(flags, cases, a) && CoveredOp(flags, cases, b)
    ensures AllCovered(flags, cases, [a]) && AllCovered(flags, cases, [a, b])
  {
    assert AllCovered(flags, cases, []);
    assert [a][0] == a && [a][1..] == [] && [b][0] == b && [b][1..] == [];
    assert AllCovered(flags, cases, [b]);
    assert [a, b][0] == a && [a, b][1..] == [b];
  }

  lemma IdleIsCovered(flags: Flags, cases: Cases, x: int, c: int, y: int)
    ensures AllCovered(flags, cases, IdlePattern(x, c, y))
  {
    CoveredTwo(flags, cases, LiteralOp(x), LiteralOp(x));
    CoveredTwo(flags, cases, RepeatOp(0, 1, [LiteralOp(x)]), LiteralOp(x));
    CoveredTwo(flags, cases, MaybeOp(x), LiteralOp(c));
    CoveredTwo(flags, cases, RepeatOp(0, MAX_REPEAT, [MaybeOp(x), LiteralOp(c)]), LiteralOp(y));
  }

  lemma PlainTwo(u: Tables, a: Node, b: Node)
    requires PlainLooks(u, a) && PlainLooks(u, b)
    ensures PlainLooks(u, Seq([a])) && PlainLooks(u, Seq([a, b]))
  {
    assert AllPlainLooks(u, []);
    assert [a][0] == a && [a][1..] == [] && [b][0] == b && [b][1..] == [];
    assert AllPlainLooks(u, [b]);
    assert [a, b][0] == a && [a, b][1..] == [b];
  }

  lemma IdleHasNoLooks(u: Tables, x: Chars, c: Chars, y: Chars)
    ensures PlainLooks(u, Seq([Repeat(Round(x, c), 0, MAX_REPEAT), Char(y)]))
  {
    PlainTwo(u, Char(x), Char(x));
    PlainTwo(u, Repeat(One(x), 0, 1), Char(x));
    PlainTwo(u, Maybe(x), Char(c));
    PlainTwo(u, Repeat(Round(x, c), 0, MAX_REPEAT), Char(y));
  }

  lemma IdleWork(u: Tables, t: seq<int>, x: Chars, c: Chars, y: Chars)
    requires AllIn(u, c, t) && forall k | 0 <= k < |t| :: !x.Contains(u, t[k])
    ensures Power(|t|) <= SearchWork(u, t, Seq([Repeat(Round(x, c), 0, MAX_REPEAT), Char(y)]), 0)
  {
    var outer := Repeat(Round(x, c), 0, MAX_REPEAT);
    RoundsDoubled(u, t, x, c, 0);
    WaysWithinWork(u, t, outer, 0);
    assert [outer, Char(y)][0] == outer;
    assert Work(u, t, outer, 0) <= SeqWork(u, t, [outer, Char(y)], 0);
  }

  /**
   The condition on repeats is needed: `(?:(?:x?)?c)*y` is accepted and meets the other conditions of
   `AcceptedPatternIsBounded`, and its work doubles with every `c`.
   */
  lemma IdleRoundExplodes(e: Engine, cases: Cases, flags: Flags, x: int, c: int, y: int, t: seq<int>)
    requires Fold(cases, x) !! Fold(cases, c) && c !in Fold(e.cases, x) && forall k | 0 <= k < |t| :: t[k] == c
    ensures var pattern := IdlePattern(x, c, y);
      && Parsed(pattern) && PatternAccepted(e.unicode, cases, pattern, flags)
      && AllCovered(flags, cases, pattern) && PlainLooks(e.unicode, CheckedTree(cases, pattern, flags))
      && Power(|t|) <= PatternWork(e, pattern, flags, t)
  {
    var u, made, meant := e.unicode, Made(cases), Meant(e);
    var x1, c1, y1 := Listing(made.Folds(flags, x)), Listing(made.Folds(flags, c)), Listing(made.Folds(flags, y));
    BuildIdle(made, flags, x, c, y);
    BuildIdle(meant, flags, x, c, y);
    ParsedIdle(x, c, y);
    IdleIsCovered(flags, cases, x, c, y);
    IdleHasNoLooks(u, x1, c1, y1);
    RoundAccepted(u, x1, c1, y1);
    FoldUnder(flags, e.cases, x);
    IdleWork(u, t, Listing(meant.Folds(flags, x)), Listing(meant.Folds(flags, c)), Listing(meant.Folds(flags, y)));
  }

  // ---------------------------------------------------------------- exponential in the pattern

  /** `(?:)*` */
  const EMPTY_ROUNDS := Repeat(Seq([]), 0, MAX_REPEAT)

  function EmptyRounds(k: nat, x: Chars): seq<Node> {
    if k == 0 then [Char(x)] else [EMPTY_ROUNDS] + EmptyRounds(k - 1, x)
  }

  /** `(?:)*` written `k` times, and a character. */
  function EmptyRoundsPattern(k: nat, x: int): seq<Op> {
    if k == 0 then [LiteralOp(x)] else [RepeatOp(0, MAX_REPEAT, [])] + EmptyRoundsPattern(k - 1, x)
  }

  lemma EmptyRoundsWays(u: Tables, t: seq<int>, i: nat)
    requires i <= |t|
    ensures Ways(u, t, EMPTY_ROUNDS, i) == [i, i]
  {
    assert Ways(u, t, Seq([]), i) == [i];
    RepPastLow(u, t, Seq([]), MAX_REPEAT, i);
    assert [i][1..] == [];
    assert PastLow(u, t, Seq([]), MAX_REPEAT, [i], i) == [i] + [];
  }

  lemma {:induction false} EmptyRoundsWork(u: Tables, t: seq<int>, k: nat, x: Chars, i: nat)
    requires i <= |t|
    ensures Power(k) <= SeqWork(u, t, EmptyRounds(k, x), i)
    decreases k
  {
    var items := EmptyRounds(k, x);
    if k > 0 {
      EmptyRoundsWays(u, t, i);
      EmptyRoundsWork(u, t, k - 1, x, i);
      assert items[0] == EMPTY_ROUNDS && items[1..] == EmptyRounds(k - 1, x);
      TwiceTheRest(u, t, items, i);
    }
  }

  lemma TwiceTheRest(u: Tables, t: seq<int>, items: seq<Node>, i: nat)
    requires i <= |t| && items != [] && Ways(u, t, items[0], i) == [i, i]
    ensures SeqWork(u, t, items, i) >= 2 * SeqWork(u, t, items[1..], i)
  {
    SeqOverBoth(u, t, items[1..], i);
  }

  lemma {:induction false} EmptyRoundsAccepted(u: Tables, k: nat, x: Chars, follow: Follow)
    ensures CheckSeq(u, EmptyRounds(k, x), follow) == Accepted
    decreases k
  {
    var items := EmptyRounds(k, x);
    if k > 0 {
      EmptyRoundsAccepted(u, k - 1, x, follow);
      assert items[0] == EMPTY_ROUNDS && items[1..] == EmptyRounds(k - 1, x);
      var next := FollowOf(u, items[1..], follow);
      assert First(Seq([])) == [] && Check(u, Seq([]), Inner(u, Seq([]), MAX_REPEAT, next)) == Accepted;
      assert Check(u, EMPTY_ROUNDS, next) == Accepted;
    }
  }

  lemma {:induction false} BuildEmptyRounds(of: Reading, flags: Flags, k: nat, x: int)
    ensures BuildItems(of, EmptyRoundsPattern(k, x), flags) == Tree(EmptyRounds(k, Listing(of.Folds(flags, x))))
    ensures Parsed(EmptyRoundsPattern(k, x))
    decreases k
  {
    var ops := EmptyRoundsPattern(k, x);
    if k > 0 {
      BuildEmptyRounds(of, flags, k - 1, x);
      assert ops[0] == RepeatOp(0, MAX_REPEAT, []) && ops[1..] == EmptyRoundsPattern(k - 1, x);
      assert BuildItems(of, [], flags) == Tree([]) && Parsed([]);
    } else {
      BuildOne(of, LiteralOp(x), flags);
      ParsedOne(LiteralOp(x));
    }
  }

  /** Nor is the work a polynomial of the pattern: `(?:)*` written `k` times is accepted, and costs `2^k` on any text. */
  lemma EmptyRoundsExplode(e: Engine, cases: Cases, flags: Flags, k: nat, x: int, t: seq<int>)
    ensures var pattern := EmptyRoundsPattern(k, x);
      && Parsed(pattern) && PatternAccepted(e.unicode, cases, pattern, flags)
      && Power(k) <= PatternWork(e, pattern, flags, t)
  {
    BuildEmptyRounds(Made(cases), flags, k, x);
    BuildEmptyRounds(Meant(e), flags, k, x);
    EmptyRoundsAccepted(e.unicode, k, Listing(Made(cases).Folds(flags, x)), TOP);
    EmptyRoundsWork(e.unicode, t, k, Listing(Meant(e).Folds(flags, x)), 0);
  }
}
