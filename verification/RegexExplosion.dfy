/**
 Patterns of exponential cost: `(a+)+`, which the check of regex_safety.py refuses, and
 families that it lets through, for the sets of characters and for look-arounds.
 */
module RegexExplosion {
  import opened RegexTree
  import opened RegexWays
  import opened RegexWork
  import opened RegexCost
  import opened RegexClasses
  import opened RegexBuild

  function Power(n: nat): nat {
    if n == 0 then 1 else 2 * Power(n - 1)
  }

  /** `a+` for a set of characters, and the same repeated. */
  function One(c: Chars): Node {
    Seq([Char(c)])
  }

  function Plus(c: Chars): Node {
    Seq([Repeat(One(c), 1, MAX_REPEAT)])
  }

  function Nested(c: Chars): Node {
    Seq([Repeat(Plus(c), 1, MAX_REPEAT)])
  }

  ghost predicate AllIn(u: Tables, c: Chars, t: seq<int>) {
    forall k | 0 <= k < |t| :: c.Contains(u, t[k])
  }

  /** The positions from the last down to `j`. */
  function Down(n: nat, j: nat): (r: seq<nat>)
    requires j <= n + 1
    ensures forall k | 0 <= k < |r| :: j <= r[k] <= n
    decreases n + 1 - j
  {
    if j == n + 1 then [] else Down(n, j + 1) + [j]
  }

  lemma OneWays(u: Tables, t: seq<int>, c: Chars, i: nat)
    requires i <= |t| && AllIn(u, c, t)
    ensures Ways(u, t, One(c), i) == if i < |t| then [i + 1] else []
  {
    SeqOfOne(u, t, Char(c), i);
  }

  lemma SeqOfOne(u: Tables, t: seq<int>, item: Node, i: nat)
    requires i <= |t|
    ensures Ways(u, t, Seq([item]), i) == Ways(u, t, item, i)
  {
    assert [item][1..] == [];
    EmptyRest(u, t, Ways(u, t, item, i), i);
  }

  lemma {:induction false} EmptyRest(u: Tables, t: seq<int>, ws: seq<nat>, i: nat)
    requires Within(ws, i, |t|)
    ensures SeqOver(u, t, [], ws, i) == ws
    decreases |ws|
  {
    if ws != [] {
      EmptyRest(u, t, ws[1..], i);
    }
  }

  /** The body takes any one character. */
  ghost predicate TakesOne(u: Tables, t: seq<int>, body: Node) {
    forall i | 0 <= i <= |t| :: Ways(u, t, body, i) == if i < |t| then [i + 1] else []
  }

  /** The body may end at any later place. */
  ghost predicate TakesSome(u: Tables, t: seq<int>, body: Node) {
    forall i | 0 <= i <= |t| :: Ways(u, t, body, i) == Down(|t|, i + 1)
  }

  lemma RoundsOfOne(u: Tables, t: seq<int>, body: Node, low: nat, w: nat, from: nat)
    requires from <= w <= |t|
    ensures RepOver(u, t, body, low, MAX_REPEAT, [w], from) == RepWays(u, t, body, low, MAX_REPEAT, w)
  {
    RepOverStep(u, t, body, low, MAX_REPEAT, w, [], from);
    assert [w] + [] == [w];
  }

  lemma StarRound(u: Tables, t: seq<int>, body: Node, i: nat)
    requires i <= |t| && TakesOne(u, t, body)
    ensures RepWays(u, t, body, 0, MAX_REPEAT, i)
         == (if i < |t| then RepWays(u, t, body, 0, MAX_REPEAT, i + 1) else []) + [i]
  {
    var ws := Ways(u, t, body, i);
    assert ws == if i < |t| then [i + 1] else [];
    MovingRound(u, t, body, MAX_REPEAT, i);
    if i < |t| {
      RoundsOfOne(u, t, body, 0, i + 1, i + 1);
    }
  }

  /** A repeat of one character may end at every place after it. */
  lemma {:induction false} StarWays(u: Tables, t: seq<int>, body: Node, i: nat)
    requires i <= |t| && TakesOne(u, t, body)
    ensures RepWays(u, t, body, 0, MAX_REPEAT, i) == Down(|t|, i)
    decreases |t| - i
  {
    StarRound(u, t, body, i);
    if i < |t| {
      StarWays(u, t, body, i + 1);
    } else {
      assert Down(|t|, |t|) == Down(|t|, |t| + 1) + [|t|];
    }
  }

  lemma PlusWays(u: Tables, t: seq<int>, c: Chars)
    requires AllIn(u, c, t)
    ensures TakesSome(u, t, Plus(c))
  {
    var one := One(c);
    forall i | 0 <= i <= |t| ensures Ways(u, t, one, i) == if i < |t| then [i + 1] else [] {
      OneWays(u, t, c, i);
    }
    assert TakesOne(u, t, one);
    forall i | 0 <= i <= |t| ensures Ways(u, t, Plus(c), i) == Down(|t|, i + 1) {
      SeqOfOne(u, t, Repeat(one, 1, MAX_REPEAT), i);
      RepNeeded(u, t, one, 1, MAX_REPEAT, i);
      if i < |t| {
        StarWays(u, t, one, i + 1);
        RoundsOfOne(u, t, one, 0, i + 1, i);
      }
    }
  }

  lemma {:induction false} RepOverAppend(u: Tables, t: seq<int>, body: Node, ws: seq<nat>, w: nat, from: nat)
    requires from <= w <= |t| && Within(ws, from, |t|)
    ensures Within(ws + [w], from, |t|)
    ensures |RepOver(u, t, body, 0, MAX_REPEAT, ws + [w], from)|
         == |RepOver(u, t, body, 0, MAX_REPEAT, ws, from)| + |RepWays(u, t, body, 0, MAX_REPEAT, w)|
    decreases |ws|
  {
    if ws == [] {
      assert ws + [w] == [w] + [];
      RepOverStep(u, t, body, 0, MAX_REPEAT, w, [], from);
    } else {
      var rest := ws[1..];
      assert ws == [ws[0]] + rest && ws + [w] == [ws[0]] + (rest + [w]);
      RepOverAppend(u, t, body, rest, w, from);
      RepOverStep(u, t, body, 0, MAX_REPEAT, ws[0], rest, from);
      RepOverStep(u, t, body, 0, MAX_REPEAT, ws[0], rest + [w], from);
    }
  }

  /** The rounds that may follow from each of the places down to `j`. */
  lemma {:induction false} RoundsDouble(u: Tables, t: seq<int>, body: Node, j: nat, from: nat)
    requires from <= j <= |t| + 1 && TakesSome(u, t, body)
    ensures Within(Down(|t|, j), from, |t|)
    ensures |RepOver(u, t, body, 0, MAX_REPEAT, Down(|t|, j), from)| == Power(|t| + 1 - j) - 1
    decreases |t| + 1 - j, 1
  {
    if j <= |t| {
      RoundsDouble(u, t, body, j + 1, from);
      NestedRounds(u, t, body, j);
      DownStep(u, t, body, j, from);
      assert Power(|t| + 1 - j) == 2 * Power(|t| - j);
    }
  }

  lemma DownStep(u: Tables, t: seq<int>, body: Node, j: nat, from: nat)
    requires from <= j <= |t| && Within(Down(|t|, j + 1), from, |t|)
    ensures Within(Down(|t|, j), from, |t|)
    ensures |RepOver(u, t, body, 0, MAX_REPEAT, Down(|t|, j), from)|
         == |RepOver(u, t, body, 0, MAX_REPEAT, Down(|t|, j + 1), from)| + |RepWays(u, t, body, 0, MAX_REPEAT, j)|
  {
    RepOverAppend(u, t, body, Down(|t|, j + 1), j, from);
  }

  lemma {:induction false} NestedRounds(u: Tables, t: seq<int>, body: Node, i: nat)
    requires i <= |t| && TakesSome(u, t, body)
    ensures |RepWays(u, t, body, 0, MAX_REPEAT, i)| == Power(|t| - i)
    decreases |t| + 1 - i, 0
  {
    RoundsDouble(u, t, body, i + 1, i + 1);
    NestedRound(u, t, body, i);
  }

  lemma NestedRound(u: Tables, t: seq<int>, body: Node, i: nat)
    requires i <= |t| && TakesSome(u, t, body) && Within(Down(|t|, i + 1), i + 1, |t|)
    ensures |RepWays(u, t, body, 0, MAX_REPEAT, i)|
         == |RepOver(u, t, body, 0, MAX_REPEAT, Down(|t|, i + 1), i + 1)| + 1
  {
    MovingRound(u, t, body, MAX_REPEAT, i);
  }

  /** `(a+)+` on a text of `n` such characters has `2^n - 1` ways, and the check refuses it. */
  lemma NestedRepeatExplodes(u: Tables, t: seq<int>, c: Chars)
    requires u.Valid() && t != [] && AllIn(u, c, t)
    ensures |Ways(u, t, Nested(c), 0)| == Power(|t|) - 1
    ensures Check(u, Nested(c), TOP) == Refused(Overlap)
  {
    SeqOfOne(u, t, Repeat(Plus(c), 1, MAX_REPEAT), 0);
    PlusWays(u, t, c);
    RepNeeded(u, t, Plus(c), 1, MAX_REPEAT, 0);
    RoundsDouble(u, t, Plus(c), 1, 0);
    NestedIsRefused(u, c, t[0]);
  }

  lemma SeqOfOneFacts(u: Tables, item: Node, follow: Follow)
    requires !Nullable(item)
    ensures First(Seq([item])) == First(item) && !Nullable(Seq([item]))
    ensures IsChoice(u, Seq([item])) <==> IsChoice(u, item)
    ensures Check(u, Seq([item]), follow) == Check(u, item, follow)
  {
    var items := [item];
    assert items[0] == item && items[1..] == [];
    assert SeqFirst(items) == First(item);
    assert !AllNullable(items);
    assert !AnyChoice(u, []) && (AnyChoice(u, items) <==> IsChoice(u, item));
    assert FollowOf(u, [], follow) == follow by {
      assert SeqFirst([]) == [] && AllNullable([]) && !LaterChoice(u, [], follow.end);
    }
    assert CheckSeq(u, [], follow) == Accepted;
    assert CheckSeq(u, items, follow) == Check(u, item, follow);
  }

  lemma NestedIsRefused(u: Tables, c: Chars, code: int)
    requires u.Valid() && c.Contains(u, code)
    ensures Check(u, Nested(c), TOP) == Refused(Overlap)
  {
    var inner := Follow([c], true, false);
    var plus, nested := Repeat(One(c), 1, MAX_REPEAT), Repeat(Plus(c), 1, MAX_REPEAT);
    SeqOfOneFacts(u, Char(c), TOP);
    SeqOfOneFacts(u, plus, inner);
    SeqOfOneFacts(u, nested, TOP);
    assert First(One(c)) == [c] && First(Plus(c)) == [c];
    SelfOverlap(u, c, code);
    assert IsChoice(u, plus);
    assert Inner(u, Plus(c), MAX_REPEAT, TOP) == inner by {
      assert [c] + [] == [c];
    }
    assert Check(u, plus, inner) == Refused(Overlap);
  }

  lemma SelfOverlap(u: Tables, c: Chars, code: int)
    requires u.Valid() && c.Contains(u, code)
    ensures !Disjoint(u, [c], [c])
  {
    if Disjoint(u, [c], [c]) {
      assert DisjointPair(u, [c][0], [c][0]);
      DisjointPairSound(u, c, c, code);
    }
  }

  // ---------------------------------------------------------------- a class that is not covered

  /** A node that takes one character of a set; it may stand in a group. */
  predicate TakesChar(body: Node, c: Chars) {
    body == One(c) || body == Seq([One(c)])
  }

  /** `C*d`: any number of characters, then one of a set. */
  function UpToOne(body: Node, d: Chars): Node {
    Seq([Repeat(body, 0, MAX_REPEAT), Char(d)])
  }

  /** `(?:C*d)*x` */
  function UpToOnes(body: Node, d: Chars, x: Chars): Node {
    Seq([Repeat(UpToOne(body, d), 0, MAX_REPEAT), Char(x)])
  }

  lemma TakesCharFacts(u: Tables, body: Node, c: Chars, follow: Follow)
    requires TakesChar(body, c)
    ensures First(body) == [c] && !Nullable(body) && !IsChoice(u, body) && Check(u, body, follow) == Accepted
  {
    SeqOfOneFacts(u, Char(c), follow);
    SeqOfOneFacts(u, One(c), follow);
  }

  lemma TakesCharWays(u: Tables, t: seq<int>, body: Node, c: Chars)
    requires TakesChar(body, c) && AllIn(u, c, t)
    ensures TakesOne(u, t, body)
  {
    forall i | 0 <= i <= |t| ensures Ways(u, t, body, i) == if i < |t| then [i + 1] else [] {
      OneWays(u, t, c, i);
      SeqOfOne(u, t, One(c), i);
    }
  }

  lemma CheckPair(u: Tables, a: Node, b: Node, follow: Follow)
    requires !Nullable(b) && !IsChoice(u, b) && Check(u, b, follow) == Accepted
    ensures Check(u, Seq([a, b]), follow) == Check(u, a, Follow(First(b), follow.choice, false))
  {
    var items := [a, b];
    assert items[0] == a && items[1..] == [b];
    SeqOfOneFacts(u, b, follow);
    assert [b][0] == b && [b][1..] == [];
    assert !LaterChoice(u, [b][1..], follow.end);
    assert FollowOf(u, [b], follow) == Follow(First(b), follow.choice, false) by {
      assert SeqFirst([b]) == First(b) && !AllNullable([b]);
      assert First(b) + [] == First(b);
    }
    assert CheckSeq(u, [b], follow) == Accepted by {
      assert Check(u, Seq([b]), follow) == CheckSeq(u, [b], follow);
    }
  }

  /** The check accepts it when no character is in both sets. */
  lemma UpToOnesAccepted(u: Tables, body: Node, c: Chars, d: Chars, x: Chars)
    requires TakesChar(body, c) && DisjointPair(u, c, d)
    ensures Check(u, UpToOnes(body, d, x), TOP) == Accepted
  {
    var star, round := Repeat(body, 0, MAX_REPEAT), UpToOne(body, d);
    var after := Follow([x], false, false);
    var inner := Inner(u, round, MAX_REPEAT, after);
    CheckPair(u, Repeat(round, 0, MAX_REPEAT), Char(x), TOP);
    assert IsChoice(u, round) by {
      assert [star, Char(d)][0] == star && IsChoice(u, star);
    }
    assert inner.choice;
    CheckPair(u, star, Char(d), inner);
    TakesCharFacts(u, body, c, Inner(u, body, MAX_REPEAT, Follow([d], true, false)));
    assert Disjoint(u, [c], [d]);
    assert Check(u, star, Follow([d], true, false)) == Accepted;
    assert Check(u, Repeat(round, 0, MAX_REPEAT), after) == Check(u, round, inner);
  }

  lemma {:induction false} SeqOverAppend(u: Tables, t: seq<int>, rest: seq<Node>, ws: seq<nat>, w: nat, i: nat)
    requires i <= w <= |t| && Within(ws, i, |t|)
    ensures Within(ws + [w], i, |t|)
    ensures SeqOver(u, t, rest, ws + [w], i) == SeqOver(u, t, rest, ws, i) + SeqWays(u, t, rest, w)
    decreases |ws|
  {
    if ws == [] {
      assert [] + [w] == [w] && [w][1..] == [];
    } else {
      assert (ws + [w])[0] == ws[0] && (ws + [w])[1..] == ws[1..] + [w];
      SeqOverAppend(u, t, rest, ws[1..], w, i);
    }
  }

  /** One character more from each of the places. */
  lemma {:induction false} OneFurther(u: Tables, t: seq<int>, d: Chars, i: nat, j: nat)
    requires i <= j <= |t| && AllIn(u, d, t)
    ensures Within(Down(|t|, j), i, |t|)
    ensures SeqOver(u, t, [Char(d)], Down(|t|, j), i) == Down(|t|, j + 1)
    decreases |t| - j
  {
    SeqOfOne(u, t, Char(d), j);
    if j == |t| {
      assert Down(|t|, j) == [] + [j];
      SeqOverAppend(u, t, [Char(d)], [], j, i);
    } else {
      OneFurther(u, t, d, i, j + 1);
      SeqOverAppend(u, t, [Char(d)], Down(|t|, j + 1), j, i);
    }
  }

  lemma UpToOneWays(u: Tables, t: seq<int>, body: Node, c: Chars, d: Chars)
    requires TakesChar(body, c) && AllIn(u, c, t) && AllIn(u, d, t)
    ensures TakesSome(u, t, UpToOne(body, d))
  {
    TakesCharWays(u, t, body, c);
    forall i | 0 <= i <= |t| ensures Ways(u, t, UpToOne(body, d), i) == Down(|t|, i + 1) {
      var items := [Repeat(body, 0, MAX_REPEAT), Char(d)];
      assert items[0] == Repeat(body, 0, MAX_REPEAT) && items[1..] == [Char(d)];
      StarWays(u, t, body, i);
      OneFurther(u, t, d, i, i);
      assert Ways(u, t, items[0], i) == Down(|t|, i);
      assert SeqWays(u, t, items, i) == SeqOver(u, t, [Char(d)], Down(|t|, i), i);
      assert UpToOne(body, d) == Seq(items);
    }
  }

  /** On characters that both sets have, the work doubles with every one. */
  lemma UpToOnesExplodes(u: Tables, t: seq<int>, body: Node, c: Chars, d: Chars, x: Chars)
    requires TakesChar(body, c) && AllIn(u, c, t) && AllIn(u, d, t)
    ensures Power(|t|) <= SearchWork(u, t, UpToOnes(body, d, x), 0)
  {
    var outer := Repeat(UpToOne(body, d), 0, MAX_REPEAT);
    var items := [outer, Char(x)];
    UpToOneWays(u, t, body, c, d);
    NestedRounds(u, t, UpToOne(body, d), 0);
    WaysWithinWork(u, t, outer, 0);
    assert items[0] == outer;
    assert Work(u, t, outer, 0) <= SeqWork(u, t, items, 0);
    assert UpToOnes(body, d, x) == Seq(items);
  }

  lemma BuildOne(of: Reading, op: Op, flags: Flags)
    ensures Build(of, [op], flags)
         == (match BuildOp(of, op, flags) case Tree(node) => Tree(Seq([node])) case NoTree(reason) => NoTree(reason))
  {
    assert [op][0] == op && [op][1..] == [];
    assert BuildItems(of, [], flags) == Tree([]);
    if BuildOp(of, op, flags).Tree? {
      assert [BuildOp(of, op, flags).value] + [] == [BuildOp(of, op, flags).value];
    }
  }

  lemma BuildTwo(of: Reading, a: Op, b: Op, flags: Flags)
    requires BuildOp(of, a, flags).Tree? && BuildOp(of, b, flags).Tree?
    ensures Build(of, [a, b], flags) == Tree(Seq([BuildOp(of, a, flags).value, BuildOp(of, b, flags).value]))
  {
    var x, y := BuildOp(of, a, flags).value, BuildOp(of, b, flags).value;
    assert [a, b][0] == a && [a, b][1..] == [b];
    BuildOne(of, b, flags);
    assert BuildItems(of, [b], flags) == Tree([y]);
    assert [x] + [y] == [x, y];
  }

  /** The pattern `(?:C*d)*x` */
  function LoopPattern(inner: Op, last: Op, x: int): seq<Op> {
    [RepeatOp(0, MAX_REPEAT, [RepeatOp(0, MAX_REPEAT, [inner]), last]), LiteralOp(x)]
  }

  /** A class, in a group when flags change for it. */
  function Grouped(add: Flags, drop: Flags, items: seq<ClassItem>): Op {
    if add == {} && drop == {} then InOp(items) else GroupOp(add, drop, [InOp(items)])
  }

  lemma BuildLoop(of: Reading, inner: Op, last: Op, x: int, flags: Flags, node: Node, d: Chars)
    requires BuildOp(of, inner, flags) == Tree(node) && BuildOp(of, last, flags) == Tree(Char(d))
    ensures Build(of, LoopPattern(inner, last, x), flags) == Tree(UpToOnes(Seq([node]), d, Listing(of.Folds(flags, x))))
  {
    var star := RepeatOp(0, MAX_REPEAT, [inner]);
    BuildOne(of, inner, flags);
    BuildTwo(of, star, last, flags);
    BuildTwo(of, RepeatOp(0, MAX_REPEAT, [star, last]), LiteralOp(x), flags);
  }

  function Listing(points: set<int>): Chars {
    Chars(points, {}, false, false)
  }

  lemma BuildGrouped(of: Reading, add: Flags, drop: Flags, items: seq<ClassItem>, flags: Flags) returns (node: Node)
    ensures BuildOp(of, Grouped(add, drop, items), flags) == Tree(node)
    ensures TakesChar(Seq([node]), of.Class(of.Inside(flags, add, drop), items))
  {
    if add == {} && drop == {} {
      node := Char(of.Class(flags, items));
      assert of.Inside(flags, add, drop) == flags;
    } else {
      BuildOne(of, InOp(items), of.Inside(flags, add, drop));
      node := One(of.Class(of.Inside(flags, add, drop), items));
    }
  }

  /**
   A class and an item with no character in both of the sets that are made, and a text of characters that both
   match: the pattern `(?:C*d)*x` is accepted, and its work doubles with every character.
   */
  lemma LoopExplodes(e: Engine, flags: Flags, add: Flags, drop: Flags, items: seq<ClassItem>, d: ClassItem, x: int)
    requires DisjointPair(e.unicode, ClassChars(e.cases, items), ClassChars(e.cases, [d]))
    ensures var pattern := LoopPattern(Grouped(add, drop, items), InOp([d]), x);
      && Parsed(pattern) && PatternAccepted(e.unicode, e.cases, pattern, flags)
      && forall t: seq<int> | MatchedByBoth(e, flags, add, drop, items, d, t) ::
           Power(|t|) <= PatternWork(e, pattern, flags, t)
  {
    var pattern, made, meant := LoopPattern(Grouped(add, drop, items), InOp([d]), x), Made(e.cases), Meant(e);
    var inside := Combined(flags, add, drop);
    var node := BuildGrouped(made, add, drop, items, flags);
    BuildLoop(made, Grouped(add, drop, items), InOp([d]), x, flags, node, ClassChars(e.cases, [d]));
    UpToOnesAccepted(e.unicode, Seq([node]), ClassChars(e.cases, items), ClassChars(e.cases, [d]),
                     Listing(made.Folds(flags, x)));
    ParsedLoop(add, drop, items, d, x);
    var true_ := BuildGrouped(meant, add, drop, items, flags);
    BuildLoop(meant, Grouped(add, drop, items), InOp([d]), x, flags, true_, meant.Class(flags, [d]));
    forall t: seq<int> | MatchedByBoth(e, flags, add, drop, items, d, t)
      ensures Power(|t|) <= PatternWork(e, pattern, flags, t)
    {
      MatchedIsIn(e, inside, items, t);
      MatchedIsIn(e, flags, [d], t);
      UpToOnesExplodes(e.unicode, t, Seq([true_]), meant.Class(inside, items), meant.Class(flags, [d]),
                       Listing(meant.Folds(flags, x)));
    }
  }

  ghost predicate MatchedByBoth(
      e: Engine, flags: Flags, add: Flags, drop: Flags, items: seq<ClassItem>, d: ClassItem, t: seq<int>) {
    AllMatch(e, Combined(flags, add, drop), items, t) && AllMatch(e, flags, [d], t)
  }

  ghost predicate AllMatch(e: Engine, flags: Flags, items: seq<ClassItem>, t: seq<int>) {
    forall k | 0 <= k < |t| :: e.Matches(flags, items, t[k])
  }

  lemma MatchedIsIn(e: Engine, flags: Flags, items: seq<ClassItem>, t: seq<int>)
    requires AllMatch(e, flags, items, t)
    ensures AllIn(e.unicode, Meant(e).Class(flags, items), t)
  {
    var v, cases := e.TablesUnder(flags), CasesUnder(flags, e.cases);
    forall k | 0 <= k < |t| ensures Meant(e).Class(flags, items).Contains(e.unicode, t[k]) {
      MeaningIs(v, cases, items, t[k]);
      assert e.Matches(flags, items, t[k]);
    }
  }

  lemma ParsedLoop(add: Flags, drop: Flags, items: seq<ClassItem>, d: ClassItem, x: int)
    ensures Parsed(LoopPattern(Grouped(add, drop, items), InOp([d]), x))
  {
    var inner := Grouped(add, drop, items);
    var star := RepeatOp(0, MAX_REPEAT, [inner]);
    ParsedOne(InOp(items));
    ParsedOne(inner);
    ParsedTwo(star, InOp([d]));
    ParsedTwo(RepeatOp(0, MAX_REPEAT, [star, InOp([d])]), LiteralOp(x));
  }

  /** `(?:\w*\s)*x`, a pattern of words, is accepted under all flags: a word and a space have no character in common. */
  lemma WordsAreAccepted(u: Tables, cases: Cases, flags: Flags, x: int)
    ensures var pattern := LoopPattern(InOp([CategoryItem(Word, false)]), InOp([CategoryItem(Space, false)]), x);
      Parsed(pattern) && PatternAccepted(u, cases, pattern, flags)
  {
    var word, space, made := CategoryItem(Word, false), CategoryItem(Space, false), Made(cases);
    var c, d := ClassChars(cases, [word]), ClassChars(cases, [space]);
    SingleItem(cases, word);
    SingleItem(cases, space);
    BuildLoop(made, InOp([word]), InOp([space]), x, flags, Char(c), d);
    assert {Word, Space} != {Digit, Word} by {
      assert Digit !in {Word, Space};
    }
    UpToOnesAccepted(u, One(c), c, d, Listing(made.Folds(flags, x)));
    ParsedLoop({}, {}, [word], space, x);
  }

  lemma SingleItem(cases: Cases, d: ClassItem)
    requires d.Literal? || (d.CategoryItem? && !d.isNot)
    ensures ClassChars(cases, [d])
         == if d.Literal? then Chars(Fold(cases, d.code), {}, false, false) else Chars({}, {d.cat}, false, false)
  {
    assert [d][..0] == [] && [d][0] == d;
    assert ScanItems(cases, []) == Scan({}, {}, false, 0);
    assert ScanItems(cases, [d]) == ScanItem(cases, Scan({}, {}, false, 0), d);
  }

  /** The item is a literal or a category, and the character is one of its own. */
  predicate Holds(e: Engine, d: ClassItem, code: int) {
    match d
    case Literal(p) => code in Fold(e.cases, p)
    case CategoryItem(cat, isNot) => !isNot && e.unicode.Is(cat, code)
    case _ => false
  }

  lemma SingleMatches(e: Engine, flags: Flags, d: ClassItem, code: int)
    requires IgnoreCase in flags && Ascii !in flags
    requires Holds(e, d, code)
    ensures e.Matches(flags, [d], code)
  {
    assert [d][0] == d && Negate !in [d];
    assert ItemMatches(e.TablesUnder(flags), CasesUnder(flags, e.cases), [d][0], code);
  }

  /** Where a listed character comes from. */
  lemma {:induction false} PointOf(cases: Cases, items: seq<ClassItem>, code: int) returns (p: int)
    requires code in Points(cases, items)
    ensures code in Fold(cases, p) && Fold(cases, p) <= Points(cases, items)
    decreases |items|
  {
    var before, last := items[..|items| - 1], items[|items| - 1];
    if code in Points(cases, before) {
      p := PointOf(cases, before, code);
    } else if last.Literal? {
      p := last.code;
    } else {
      p := RangePoint(cases, last.low, last.high, code);
    }
  }

  lemma {:induction false} RangePoint(cases: Cases, low: int, high: int, code: int) returns (p: int)
    requires code in FoldRange(cases, low, high)
    ensures code in Fold(cases, p) && Fold(cases, p) <= FoldRange(cases, low, high)
    decreases high - low
  {
    if code in Fold(cases, low) {
      p := low;
    } else {
      p := RangePoint(cases, low + 1, high, code);
    }
  }

  /**
   The condition on classes is needed: whenever a class, in a group with any flags, matches a character that is not
   in the set made for it, there is a pattern with that class which the check accepts, and whose work doubles
   with every such character.
   */
  lemma LostCharacterExplodes(
      e: Engine, flags: Flags, add: Flags, drop: Flags, items: seq<ClassItem>, code: int, x: int)
    returns (d: ClassItem)
    requires e.Valid() && IgnoreCase in flags && Ascii !in flags
    requires e.Matches(Combined(flags, add, drop), items, code) && !ClassChars(e.cases, items).Contains(e.unicode, code)
    ensures e.Matches(flags, [d], code)
    ensures var pattern := LoopPattern(Grouped(add, drop, items), InOp([d]), x);
      && Parsed(pattern) && PatternAccepted(e.unicode, e.cases, pattern, flags)
      && forall t: seq<int> | MatchedByBoth(e, flags, add, drop, items, d, t) ::
           Power(|t|) <= PatternWork(e, pattern, flags, t)
  {
    d := LostItem(e, Combined(flags, add, drop), items, code);
    SingleMatches(e, flags, d, code);
    LoopExplodes(e, flags, add, drop, items, d, x);
  }

  /** So every class that is not covered makes such a pattern, for some alphabet. */
  lemma UncoveredClassExplodes(
      cases: Cases, flags: Flags, add: Flags, drop: Flags, items: seq<ClassItem>, x: int)
    returns (e: Engine, d: ClassItem, code: int)
    requires IgnoreCase in flags && Ascii !in flags && !Covered(Combined(flags, add, drop), cases, items)
    ensures e.Valid() && e.cases == cases
    ensures var pattern := LoopPattern(Grouped(add, drop, items), InOp([d]), x);
      && Parsed(pattern) && PatternAccepted(e.unicode, cases, pattern, flags)
      && forall t: seq<int> | (forall k | 0 <= k < |t| :: t[k] == code) :: Power(|t|) <= PatternWork(e, pattern, flags, t)
  {
    e, code := UncoveredLoses(Combined(flags, add, drop), cases, items);
    d := LostCharacterExplodes(e, flags, add, drop, items, code, x);
    var pattern := LoopPattern(Grouped(add, drop, items), InOp([d]), x);
    forall t: seq<int> | (forall k | 0 <= k < |t| :: t[k] == code) ensures Power(|t|) <= PatternWork(e, pattern, flags, t) {
      assert MatchedByBoth(e, flags, add, drop, items, d, t);
    }
  }

  /** An item that matches the lost character, and nothing that is in the set made for the class. */
  lemma LostItem(e: Engine, inside: Flags, items: seq<ClassItem>, code: int) returns (d: ClassItem)
    requires e.Valid() && e.Matches(inside, items, code) && !ClassChars(e.cases, items).Contains(e.unicode, code)
    ensures Holds(e, d, code)
    ensures DisjointPair(e.unicode, ClassChars(e.cases, items), ClassChars(e.cases, [d]))
  {
    var u, v, under := e.unicode, e.TablesUnder(inside), CasesUnder(inside, e.cases);
    UnknownIff(e.cases, items);
    if Flips(items) {
      var cat := FlippedClass(v, e.cases, under, items, code);
      d := CategoryItem(cat, false);
      SingleItem(e.cases, d);
    } else {
      PlainClass(v, e.cases, under, items, code);
      PointsUnder(inside, e.cases, items);
      if code in Points(e.cases, items) {
        var p := PointOf(e.cases, items, code);
        d := Literal(p);
      } else {
        var cat :| cat in ScanItems(e.cases, items).cats && u.Is(cat, code);
        d := CategoryItem(cat, false);
      }
      SingleItem(e.cases, d);
    }
  }

  lemma ParsedTwo(a: Op, b: Op)
    requires ParsedOp(a) && ParsedOp(b)
    ensures Parsed([a, b])
  {
    var ops := [a, b];
    ParsedOne(b);
    assert ops[0] == a && ops[1..] == [b];
  }

  lemma ParsedOne(op: Op)
    requires ParsedOp(op)
    ensures Parsed([op])
  {
    var ops := [op];
    assert ops[0] == op && ops[1..] == [] && Parsed([]);
  }

  /** `(?:[\s\S]*\s)*x` is accepted, and its work doubles with every space. */
  lemma AnySpacePatternExplodes(e: Engine, flags: Flags, x: int, t: seq<int>)
    requires IgnoreCase in flags && Ascii !in flags && forall k | 0 <= k < |t| :: t[k] in e.unicode.space
    ensures var any := [CategoryItem(Space, false), CategoryItem(Space, true)];
      var pattern := LoopPattern(InOp(any), InOp([CategoryItem(Space, false)]), x);
      && Parsed(pattern) && PatternAccepted(e.unicode, e.cases, pattern, flags)
      && Power(|t|) <= PatternWork(e, pattern, flags, t)
  {
    var any, space := [CategoryItem(Space, false), CategoryItem(Space, true)], CategoryItem(Space, false);
    AnySpaceUncovered(any);
    BothSignsMeaning(e.unicode, e.cases, any, Space, 0);
    SingleItem(e.cases, space);
    LoopExplodes(e, flags, {}, {}, any, space, x);
    SpacesMatch(e, flags, any, t);
  }

  lemma SpacesMatch(e: Engine, flags: Flags, any: seq<ClassItem>, t: seq<int>)
    requires IgnoreCase in flags && Ascii !in flags && forall k | 0 <= k < |t| :: t[k] in e.unicode.space
    requires WorkedOut(any) && CategoryItem(Space, true) in any && CategoryItem(Space, false) in any && Negate !in any
    ensures MatchedByBoth(e, flags, {}, {}, any, CategoryItem(Space, false), t)
  {
    var space := CategoryItem(Space, false);
    assert Combined(flags, {}, {}) == flags;
    forall k | 0 <= k < |t| ensures e.Matches(flags, any, t[k]) && e.Matches(flags, [space], t[k]) {
      BothSignsMeaning(e.unicode, CasesUnder(flags, e.cases), any, Space, t[k]);
      SingleMatches(e, flags, space, t[k]);
    }
  }

  lemma AnySpaceUncovered(items: seq<ClassItem>)
    requires items == [CategoryItem(Space, false), CategoryItem(Space, true)]
    ensures WorkedOut(items) && CategoryItem(Space, true) in items && CategoryItem(Space, false) in items
    ensures Negate !in items
  {
    assert items[0] in items && items[1] in items;
    assert forall i | 0 <= i < |items| :: OnlyOf(items[i], Space);
  }

  /** `(?:(?a:\W)*\w)*x` is accepted, and its work doubles with every word character that is not ASCII, as in `é`. */
  lemma AsciiPatternExplodes(e: Engine, flags: Flags, x: int, t: seq<int>)
    requires IgnoreCase in flags && Ascii !in flags
    requires forall k | 0 <= k < |t| :: t[k] in e.unicode.word && t[k] !in e.ascii.word
    ensures var pattern := LoopPattern(GroupOp({Ascii}, {}, [InOp([CategoryItem(Word, true)])]),
                                 InOp([CategoryItem(Word, false)]), x);
      && Parsed(pattern) && PatternAccepted(e.unicode, e.cases, pattern, flags)
      && Power(|t|) <= PatternWork(e, pattern, flags, t)
  {
    var other, word, inside := [CategoryItem(Word, true)], CategoryItem(Word, false), Combined(flags, {Ascii}, {});
    ComplementChars(e.cases, other);
    SingleItem(e.cases, word);
    LoopExplodes(e, flags, {Ascii}, {}, other, word, x);
    assert Ascii in inside && Ascii in {Ascii};
    forall k | 0 <= k < |t| ensures e.Matches(inside, other, t[k]) && e.Matches(flags, [word], t[k]) {
      assert ItemMatches(e.ascii, CasesUnder(inside, e.cases), other[0], t[k]);
      SingleMatches(e, flags, word, t[k]);
    }
    assert MatchedByBoth(e, flags, {Ascii}, {}, other, word, t);
  }

  lemma ComplementChars(cases: Cases, items: seq<ClassItem>)
    requires items == [CategoryItem(Word, true)]
    ensures ClassChars(cases, items) == Chars({}, {Word}, true, false) && Negate !in items
  {
    assert items[..0] == [] && items[0] == CategoryItem(Word, true);
    assert ScanItems(cases, []) == Scan({}, {}, false, 0);
    assert ScanItems(cases, items) == Scan({}, {Word}, false, 1);
  }

  /**
   The condition on folding is needed: where `re` takes a character for another case of two that have no case in common
   for `_fold`, `(?:a*b)*x` is accepted, and its work doubles with every such character.
   */
  lemma FoldingExplodes(e: Engine, cases: Cases, flags: Flags, a: int, b: int, x: int, t: seq<int>)
    requires IgnoreCase in flags && Ascii !in flags && Fold(cases, a) !! Fold(cases, b)
    requires forall k | 0 <= k < |t| :: t[k] in Fold(e.cases, a) && t[k] in Fold(e.cases, b)
    ensures var pattern := LoopPattern(LiteralOp(a), LiteralOp(b), x);
      && Parsed(pattern) && PatternAccepted(e.unicode, cases, pattern, flags)
      && Power(|t|) <= PatternWork(e, pattern, flags, t)
  {
    var made, meant, u := Made(cases), Meant(e), e.unicode;
    var c, d, x1 := Listing(Fold(cases, a)), Listing(Fold(cases, b)), Listing(made.Folds(flags, x));
    var c2, d2, x2 := Listing(meant.Folds(flags, a)), Listing(meant.Folds(flags, b)), Listing(meant.Folds(flags, x));
    BuildLoop(made, LiteralOp(a), LiteralOp(b), x, flags, Char(c), d);
    BuildLoop(meant, LiteralOp(a), LiteralOp(b), x, flags, Char(c2), d2);
    UpToOnesAccepted(u, One(c), c, d, x1);
    UpToOnesExplodes(u, t, One(c2), c2, d2, x2);
    ParsedOne(LiteralOp(a));
    var star := RepeatOp(0, MAX_REPEAT, [LiteralOp(a)]);
    ParsedTwo(star, LiteralOp(b));
    ParsedTwo(RepeatOp(0, MAX_REPEAT, [star, LiteralOp(b)]), LiteralOp(x));
  }

  // ---------------------------------------------------------------- a choice inside a look-around

  /** `(?:(a)|(a))` for a set of characters; groups do not change what matches. */
  function Either(c: Chars): Node {
    Seq([Alt([Group(c), Group(c)])])
  }

  function Group(c: Chars): Node {
    Seq([One(c)])
  }

  lemma EitherWays(u: Tables, t: seq<int>, c: Chars, i: nat)
    requires i < |t| && AllIn(u, c, t)
    ensures Ways(u, t, Either(c), i) == [i + 1, i + 1]
  {
    var branches := [Group(c), Group(c)];
    SeqOfOne(u, t, Alt(branches), i);
    SeqOfOne(u, t, One(c), i);
    OneWays(u, t, c, i);
    assert branches[1..] == [Group(c)] && [Group(c)][1..] == [];
    assert AltWays(u, t, [Group(c)], i) == [i + 1] + [];
  }

  /** `m` rounds of it take `m` characters, in `2^m` ways. */
  lemma {:induction false} EitherRounds(u: Tables, t: seq<int>, c: Chars, m: nat, i: nat)
    requires i + m <= |t| && m < MAX_REPEAT && AllIn(u, c, t)
    ensures |RepWays(u, t, Either(c), m, m, i)| == Power(m)
    decreases m
  {
    if m > 0 {
      EitherWays(u, t, c, i);
      EitherRounds(u, t, c, m - 1, i + 1);
      RepNeeded(u, t, Either(c), m, m, i);
      SameEndTwice(u, t, Either(c), m - 1, i + 1, i);
    }
  }

  lemma SameEndTwice(u: Tables, t: seq<int>, body: Node, m: nat, w: nat, from: nat)
    requires from <= w <= |t|
    ensures |RepOver(u, t, body, m, m, [w, w], from)| == 2 * |RepWays(u, t, body, m, m, w)|
  {
    assert [w, w] == [w] + [w] && [w] == [w] + [];
    RepOverStep(u, t, body, m, m, w, [w], from);
    RepOverStep(u, t, body, m, m, w, [], from);
  }

  /** `(?=(?:(a)|(a)){m}x)` and `(?<=(?:(a)|(a)){m}x)` */
  function LookPattern(ahead: bool, m: nat, code: int, x: int): seq<Op> {
    [AssertOp(ahead, [RepeatOp(m, m, [EitherOp(code)]), LiteralOp(x)])]
  }

  function EitherOp(code: int): Op {
    BranchOp([GroupBranch(code), GroupBranch(code)])
  }

  function GroupBranch(code: int): Branch {
    Branch([GroupOp({}, {}, [LiteralOp(code)])])
  }

  function LookBody(c: Chars, m: nat, x: Chars): Node {
    Seq([Repeat(Either(c), m, m), Char(x)])
  }

  lemma BuildEither(of: Reading, flags: Flags, code: int)
    ensures Build(of, [EitherOp(code)], flags) == Tree(Either(Listing(of.Folds(flags, code))))
  {
    var c, branch := Listing(of.Folds(flags, code)), GroupBranch(code);
    BuildOne(of, LiteralOp(code), flags);
    assert of.Inside(flags, {}, {}) == flags;
    BuildOne(of, GroupOp({}, {}, [LiteralOp(code)]), flags);
    assert [branch, branch][0] == branch && [branch, branch][1..] == [branch];
    assert [branch][0] == branch && [branch][1..] == [];
    assert BuildBranches(of, [], flags) == Tree([]);
    assert [Group(c)] + [] == [Group(c)];
    assert BuildBranches(of, [branch], flags) == Tree([Group(c)]);
    assert [Group(c)] + [Group(c)] == [Group(c), Group(c)];
    assert BuildOp(of, EitherOp(code), flags) == Tree(Alt([Group(c), Group(c)]));
    BuildOne(of, EitherOp(code), flags);
  }

  lemma BuildLookPattern(of: Reading, flags: Flags, ahead: bool, m: nat, code: int, x: int)
    ensures var body := LookBody(Listing(of.Folds(flags, code)), m, Listing(of.Folds(flags, x)));
      Build(of, LookPattern(ahead, m, code, x), flags) == Tree(Seq([if ahead then Look(body) else Behind(body)]))
  {
    var rep := RepeatOp(m, m, [EitherOp(code)]);
    BuildEither(of, flags, code);
    BuildTwo(of, rep, LiteralOp(x), flags);
    FixedLength(Listing(of.Folds(flags, code)), m, Listing(of.Folds(flags, x)));
    BuildOne(of, AssertOp(ahead, [rep, LiteralOp(x)]), flags);
  }

  /** A sequence of one item that is of fixed length is so too. */
  lemma FixedOne(item: Node)
    requires !HasVariableRepeat(item)
    ensures !HasVariableRepeat(Seq([item])) && Width(Seq([item])) == Width(item)
  {
    assert [item][1..] == [] && !AnyVariableRepeat([item]);
    assert SeqWidth([item]) == Width([item][0]) + SeqWidth([]);
  }

  lemma FixedEither(c: Chars)
    ensures !HasVariableRepeat(Either(c)) && Width(Either(c)) == 1
  {
    var groups := [Group(c), Group(c)];
    FixedOne(Char(c));
    FixedOne(One(c));
    assert groups[1..] == [Group(c)] && [Group(c)][1..] == [];
    assert !AnyVariableRepeat([Group(c)]) && !AnyVariableRepeat(groups);
    assert Width(Alt(groups)) == Width(groups[0]);
    FixedOne(Alt(groups));
  }

  lemma FixedLength(c: Chars, m: nat, x: Chars)
    ensures !HasVariableRepeat(LookBody(c, m, x)) && Width(LookBody(c, m, x)) == m + 1
  {
    var rep := Repeat(Either(c), m, m);
    FixedEither(c);
    TimesIsProduct(m, 1);
    assert Width(rep) == m && !HasVariableRepeat(rep);
    assert [rep, Char(x)][1..] == [Char(x)] && [Char(x)][1..] == [];
    assert !AnyVariableRepeat([Char(x)]) && !AnyVariableRepeat([rep, Char(x)]);
    assert SeqWidth([Char(x)]) == 1;
  }

  lemma ParsedLookPattern(ahead: bool, m: nat, code: int, x: int)
    requires m < MAX_REPEAT
    ensures Parsed(LookPattern(ahead, m, code, x))
  {
    var branch, rep := GroupBranch(code), RepeatOp(m, m, [EitherOp(code)]);
    ParsedOne(LiteralOp(code));
    ParsedOne(GroupOp({}, {}, [LiteralOp(code)]));
    assert [branch, branch][1..] == [branch] && [branch][1..] == [];
    assert ParsedBranches([branch]) && ParsedBranches([branch, branch]);
    ParsedOne(EitherOp(code));
    ParsedTwo(rep, LiteralOp(x));
    ParsedOne(AssertOp(ahead, [rep, LiteralOp(x)]));
  }

  lemma {:induction false} SearchAtLeast(u: Tables, t: seq<int>, node: Node, i: nat, j: nat)
    requires i <= j <= |t|
    ensures Work(u, t, node, j) <= SearchWork(u, t, node, i)
    decreases j - i
  {
    if i < j {
      SearchAtLeast(u, t, node, i + 1, j);
    }
  }

  /**
   The condition on look-arounds is needed: no repeat in there may be open-ended, but alternatives that match the
   same text are not refused. The check accepts `m` rounds of them, ahead or behind, and they cost `2^m` at least.
   */
  lemma LookAroundExplodes(
      e: Engine, cases: Cases, flags: Flags, ahead: bool, m: nat, code: int, x: int, t: seq<int>)
    requires m < MAX_REPEAT && m < |t| && forall k | 0 <= k < |t| :: t[k] == code
    ensures var pattern := LookPattern(ahead, m, code, x);
      && Parsed(pattern) && PatternAccepted(e.unicode, cases, pattern, flags)
      && Power(m) <= PatternWork(e, pattern, flags, t)
  {
    var c, x2 := Listing(Meant(e).Folds(flags, code)), Listing(Meant(e).Folds(flags, x));
    var body, at := LookBody(c, m, x2), if ahead then 0 else m + 1;
    var node := if ahead then Look(body) else Behind(body);
    BuildLookPattern(Made(cases), flags, ahead, m, code, x);
    BuildLookPattern(Meant(e), flags, ahead, m, code, x);
    ParsedLookPattern(ahead, m, code, x);
    LookAccepted(e.unicode, CheckedTree(cases, LookPattern(ahead, m, code, x), flags).items[0]);
    LookBodyWork(e.unicode, t, c, m, x2);
    FixedLength(c, m, x2);
    assert Power(m) <= Work(e.unicode, t, node, at);
    assert [node][0] == node;
    SearchAtLeast(e.unicode, t, Seq([node]), 0, at);
  }

  lemma LookBodyWork(u: Tables, t: seq<int>, c: Chars, m: nat, x: Chars)
    requires m < MAX_REPEAT && m <= |t| && AllIn(u, c, t)
    ensures Power(m) <= Work(u, t, LookBody(c, m, x), 0)
  {
    var rep := Repeat(Either(c), m, m);
    EitherRounds(u, t, c, m, 0);
    WaysWithinWork(u, t, rep, 0);
    assert [rep, Char(x)][0] == rep;
  }

  lemma LookAccepted(u: Tables, node: Node)
    requires node.Look? || node.Behind?
    ensures Check(u, Seq([node]), TOP) == Accepted
  {
    var items := [node];
    assert items[0] == node && items[1..] == [];
    assert CheckSeq(u, [], TOP) == Accepted;
    assert Check(u, items[0], FollowOf(u, items[1..], TOP)) == Accepted;
    assert CheckSeq(u, items, TOP) == Accepted;
  }
}
