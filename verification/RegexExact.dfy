/**
 What the check decides, said without its lists: a pattern tree is accepted if and only if, in every place of
 it, each repeat and each alternation that a later choice comes after is apart from what can come next.
 Two sets of characters are apart when no alphabet has a character in both.
 */
module RegexExact {
  import opened RegexTree

  // ---------------------------------------------------------------- sets that can share a character

  /** The alphabets agree on these characters. */
  ghost predicate Alike(u: Tables, v: Tables, points: set<int>) {
    forall code, cat | code in points :: u.Is(cat, code) <==> v.Is(cat, code)
  }

  /** The character is in both sets, for an alphabet that agrees on all that the sets list. */
  ghost predicate Shares(u: Tables, v: Tables, a: Chars, b: Chars, code: int) {
    v.Valid() && Alike(u, v, a.points + b.points) && a.Contains(v, code) && b.Contains(v, code)
  }

  /** An unknown set may hold anything. */
  ghost predicate Meet(u: Tables, a: Chars, b: Chars) {
    a.unknown || b.unknown || exists v, code :: Shares(u, v, a, b, code)
  }

  lemma HasAlike(u: Tables, v: Tables, c: Chars, points: set<int>, code: int)
    requires Alike(u, v, points) && code in points
    ensures c.Has(u, code) <==> c.Has(v, code)
  {
    assert forall cat :: u.Is(cat, code) <==> v.Is(cat, code);
  }

  lemma ApartAlike(u: Tables, v: Tables, a: Chars, b: Chars)
    requires Alike(u, v, a.points + b.points) && DisjointPair(u, a, b)
    ensures DisjointPair(v, a, b)
  {
    var points := a.points + b.points;
    forall code | code in points
      ensures a.Has(u, code) <==> a.Has(v, code)
      ensures b.Has(u, code) <==> b.Has(v, code)
    {
      HasAlike(u, v, a, points, code);
      HasAlike(u, v, b, points, code);
    }
  }

  /** A character that no set lists and no category has. */
  lemma Unlisted(u: Tables, a: Chars, b: Chars) returns (code: int)
    ensures code !in a.points && code !in b.points && forall cat :: !u.Is(cat, code)
  {
    code := Fresh(a.points + b.points + u.digit + u.space + u.word);
  }

  /** The alphabet with one character more. */
  function With(u: Tables, cat: Category, code: int): Tables {
    match cat
    case Digit => u.(digit := u.digit + {code}, word := u.word + {code})
    case Space => u.(space := u.space + {code})
    case Word => u.(word := u.word + {code})
  }

  lemma WithFacts(u: Tables, cat: Category, code: int, points: set<int>)
    requires u.Valid() && code !in points && forall c :: !u.Is(c, code)
    ensures var v := With(u, cat, code);
      && v.Valid() && Alike(u, v, points)
      && forall c :: v.Is(c, code) <==> c == cat || (cat == Digit && c == Word)
  {
    assert !u.Is(Digit, code) && !u.Is(Space, code) && !u.Is(Word, code);
  }

  lemma SharedAt(u: Tables, v: Tables, a: Chars, b: Chars, code: int)
    requires Shares(u, v, a, b, code)
    ensures Meet(u, a, b)
  {
  }

  /** Two sets of which neither is negated. */
  lemma PlainMeet(u: Tables, a: Chars, b: Chars)
    requires u.Valid() && !a.unknown && !b.unknown && !a.negated && !b.negated && !DisjointPair(u, a, b)
    ensures Meet(u, a, b)
  {
    if code :| code in a.points && b.Has(u, code) {
      SharedAt(u, u, a, b, code);
    } else if code :| code in b.points && a.Has(u, code) {
      SharedAt(u, u, a, b, code);
    } else {
      NoCommonPoint(a, b, u);
      var x, y :| x in a.cats && y in b.cats && (x == y || {x, y} == {Digit, Word});
      var cat := if x == y then x else Digit;
      assert x != y ==> x in {Digit, Word} && y in {Digit, Word};
      var code := Unlisted(u, a, b);
      WithFacts(u, cat, code, a.points + b.points);
      SharedAt(u, With(u, cat, code), a, b, code);
    }
  }

  lemma NoCommonPoint(a: Chars, b: Chars, u: Tables)
    requires forall code | code in a.points :: !b.Has(u, code)
    ensures a.points * b.points == {}
  {
    forall code | code in a.points ensures code !in b.points {
      assert !b.Has(u, code);
    }
  }

  /** A plain set that is not inside what a negated one leaves out. */
  lemma NegatedMeet(u: Tables, a: Chars, b: Chars)
    requires u.Valid() && !a.unknown && !b.unknown && !a.negated && b.negated && !InsideExcluded(u, a, b)
    ensures Meet(u, a, b) && Meet(u, b, a)
  {
    if code :| code in a.points && !b.Has(u, code) {
      SharedAt(u, u, a, b, code);
      SharedAt(u, u, b, a, code);
    } else {
      var cat :| cat in a.cats && cat !in b.cats && (cat == Digit ==> Word !in b.cats);
      var code := Unlisted(u, a, b);
      WithFacts(u, cat, code, a.points + b.points);
      WithFacts(u, cat, code, b.points + a.points);
      SharedAt(u, With(u, cat, code), a, b, code);
      SharedAt(u, With(u, cat, code), b, a, code);
    }
  }

  /** Two sets are told apart if and only if no alphabet that agrees on what they list has a character in both. */
  lemma DisjointPairExact(u: Tables, a: Chars, b: Chars)
    requires u.Valid()
    ensures DisjointPair(u, a, b) <==> !Meet(u, a, b)
  {
    if DisjointPair(u, a, b) {
      forall v, code | Shares(u, v, a, b, code) ensures false {
        ApartAlike(u, v, a, b);
        DisjointPairSound(v, a, b, code);
      }
    } else if !a.unknown && !b.unknown {
      if a.negated && b.negated {
        var code := Unlisted(u, a, b);
        SharedAt(u, u, a, b, code);
      } else if a.negated {
        NegatedMeet(u, b, a);
      } else if b.negated {
        NegatedMeet(u, a, b);
      } else {
        PlainMeet(u, a, b);
      }
    }
  }

  // ---------------------------------------------------------------- what a node can take first

  ghost predicate EmptyBefore(items: seq<Node>, k: nat)
    requires k <= |items|
  {
    forall j | 0 <= j < k :: Nullable(items[j])
  }

  /** The node can start with the set, or look at it first. */
  ghost predicate Takes(node: Node, c: Chars)
    decreases node
  {
    match node
    case Char(x) => x == c
    case Look(body) => Takes(body, c)
    case Repeat(body, _, _) => Takes(body, c)
    case Alt(items) => exists k :: 0 <= k < |items| && Takes(items[k], c)
    case Seq(items) => exists k :: 0 <= k < |items| && EmptyBefore(items, k) && Takes(items[k], c)
    case _ => false
  }

  ghost predicate ItemsTake(items: seq<Node>, c: Chars) {
    exists k :: 0 <= k < |items| && EmptyBefore(items, k) && Takes(items[k], c)
  }

  lemma {:induction false} FirstIs(node: Node, c: Chars)
    ensures c in First(node) <==> Takes(node, c)
    decreases node, 0
  {
    match node
    case Look(body) => FirstIs(body, c);
    case Repeat(body, _, _) => FirstIs(body, c);
    case Alt(items) => AltFirstIs(items, c);
    case Seq(items) => SeqFirstIs(items, c);
    case _ =>
  }

  lemma {:induction false} AltFirstIs(items: seq<Node>, c: Chars)
    ensures c in AltFirst(items) <==> exists k :: 0 <= k < |items| && Takes(items[k], c)
    decreases items, 1
  {
    if items != [] {
      var rest := items[1..];
      FirstIs(items[0], c);
      AltFirstIs(rest, c);
      assert forall k | 0 <= k < |rest| :: rest[k] == items[k + 1];
      if k :| 0 <= k < |items| && Takes(items[k], c) && k > 0 {
        assert Takes(rest[k - 1], c);
      }
    }
  }

  lemma {:induction false} SeqFirstIs(items: seq<Node>, c: Chars)
    ensures c in SeqFirst(items) <==> ItemsTake(items, c)
    decreases items, 1
  {
    if items != [] {
      FirstIs(items[0], c);
      SeqFirstIs(items[1..], c);
      ItemsTakeStep(items, c);
    }
  }

  lemma ItemsTakeStep(items: seq<Node>, c: Chars)
    requires items != []
    ensures ItemsTake(items, c) <==> Takes(items[0], c) || (Nullable(items[0]) && ItemsTake(items[1..], c))
  {
    var rest := items[1..];
    assert forall k | 0 <= k < |rest| :: rest[k] == items[k + 1];
    if k :| 0 <= k < |items| && EmptyBefore(items, k) && Takes(items[k], c) && k > 0 {
      assert EmptyBefore(rest, k - 1) && Takes(rest[k - 1], c);
    }
    if Takes(items[0], c) {
      assert EmptyBefore(items, 0);
    }
    if Nullable(items[0]) && ItemsTake(rest, c) {
      var k :| 0 <= k < |rest| && EmptyBefore(rest, k) && Takes(rest[k], c);
      assert EmptyBefore(items, k + 1) && Takes(items[k + 1], c);
    }
  }

  lemma {:induction false} AllNullableIs(items: seq<Node>)
    ensures AllNullable(items) <==> EmptyBefore(items, |items|)
    decreases |items|
  {
    if items != [] {
      AllNullableIs(items[1..]);
      assert forall k | 0 <= k < |items[1..]| :: items[1..][k] == items[k + 1];
    }
  }

  /** No set that one list has meets one of the other. */
  lemma DisjointIs(u: Tables, first: seq<Chars>, second: seq<Chars>)
    requires u.Valid()
    ensures Disjoint(u, first, second) <==> forall c, d | c in first && d in second :: !Meet(u, c, d)
  {
    forall i, j | 0 <= i < |first| && 0 <= j < |second|
      ensures DisjointPair(u, first[i], second[j]) <==> !Meet(u, first[i], second[j])
    {
      DisjointPairExact(u, first[i], second[j]);
    }
    if forall c, d | c in first && d in second :: !Meet(u, c, d) {
      forall i, j | 0 <= i < |first| && 0 <= j < |second| ensures DisjointPair(u, first[i], second[j]) {
        assert first[i] in first && second[j] in second;
      }
    }
  }

  // ---------------------------------------------------------------- plain starts

  /** The plain pieces that a node starts with, and whether it is made of them alone. */
  function Spelled(node: Node): (seq<seq<Chars>>, bool)
    decreases node, 0
  {
    match node
    case Char(c) => ([[c]], true)
    case Zero => ([], true)
    case Behind(_) => ([], true)
    case Seq(items) => SpelledAll(items)
    case Repeat(body, low, high) =>
      if low == high <= MAX_PREFIX && body.Seq? && |body.items| == 1 && body.items[0].Char?
      then ([seq(low, _ => body.items[0].chars)], true) else ([], false)
    case _ => ([], false)
  }

  function SpelledAll(items: seq<Node>): (seq<seq<Chars>>, bool)
    decreases items, 1
  {
    if items == [] then ([], true)
    else
      var (head, full) := Spelled(items[0]);
      if !full then (head, false)
      else var (tail, all) := SpelledAll(items[1..]); (head + tail, all)
  }

  /** The pieces that begin before the limit, one after the other. */
  function Joined(pieces: seq<seq<Chars>>, n: nat): seq<Chars> {
    if pieces == [] || n >= MAX_PREFIX then [] else pieces[0] + Joined(pieces[1..], n + |pieces[0]|)
  }

  lemma {:induction false} JoinedAppend(a: seq<seq<Chars>>, b: seq<seq<Chars>>, n: nat, m: nat)
    requires m == n + |Joined(a, n)|
    ensures Joined(a + b, n) == Joined(a, n) + Joined(b, m)
    decreases |a|
  {
    if a == [] {
      assert a + b == b;
    } else if n < MAX_PREFIX {
      var later := n + |a[0]|;
      assert (a + b)[0] == a[0] && (a + b)[1..] == a[1..] + b;
      JoinedAppend(a[1..], b, later, m);
      Regrouped(a[0], Joined(a[1..], later), Joined(b, m));
    }
  }

  /** `_prefix` adds these pieces to its list, and its answer is true only when they are all of the node. */
  lemma {:induction false} PrefixIs(node: Node, out: seq<Chars>)
    ensures Prefix(node, out).0 == out + Joined(Spelled(node).0, |out|)
    ensures Prefix(node, out).1 ==> Spelled(node).1
    ensures Spelled(node).1 && !Prefix(node, out).1 ==> |Prefix(node, out).0| >= MAX_PREFIX
    decreases node, 0
  {
    match node
    case Char(c) => assert Joined([[c]], |out|) == if |out| >= MAX_PREFIX then [] else [c] + [];
    case Seq(items) => PrefixAllIs(items, out);
    case Repeat(body, low, high) =>
      if PlainRepeat(node) {
        var piece := seq(low, _ => body.items[0].chars);
        assert Copies(body.items[0].chars, low) == piece;
        assert Joined([piece], |out|) == if |out| >= MAX_PREFIX then [] else piece + [];
      }
    case _ =>
  }

  lemma {:induction false} PrefixAllIs(items: seq<Node>, out: seq<Chars>)
    ensures PrefixAll(items, out).0 == out + Joined(SpelledAll(items).0, |out|)
    ensures PrefixAll(items, out).1 ==> SpelledAll(items).1
    ensures SpelledAll(items).1 && !PrefixAll(items, out).1 ==> |PrefixAll(items, out).0| >= MAX_PREFIX
    decreases items, 1
  {
    if items != [] {
      var (more, full) := Prefix(items[0], out);
      var (head, whole) := Spelled(items[0]);
      PrefixIs(items[0], out);
      if full {
        PrefixAllIs(items[1..], more);
      }
      if whole {
        JoinedTwo(out, head, SpelledAll(items[1..]).0, more);
      }
    }
  }

  lemma JoinedTwo(out: seq<Chars>, head: seq<seq<Chars>>, tail: seq<seq<Chars>>, more: seq<Chars>)
    requires more == out + Joined(head, |out|)
    ensures out + Joined(head + tail, |out|) == more + Joined(tail, |more|)
    ensures |more| >= MAX_PREFIX ==> Joined(tail, |more|) == []
  {
    JoinedAppend(head, tail, |out|, |more|);
    Regrouped(out, Joined(head, |out|), Joined(tail, |more|));
  }

  lemma Regrouped(a: seq<Chars>, b: seq<Chars>, c: seq<Chars>)
    ensures (a + b) + c == a + (b + c)
  {
  }

  // ---------------------------------------------------------------- alternatives and choices

  function Start(node: Node): seq<Chars> {
    Joined(Spelled(node).0, 0)
  }

  /** Two branches that differ in their first characters, or somewhere in their plain starts. */
  ghost predicate Differ(u: Tables, a: Node, b: Node) {
    || (forall c, d | Takes(a, c) && Takes(b, d) :: !Meet(u, c, d))
    || PlacesApart(u, Start(a), Start(b))
  }

  /** No branch can match nothing, and any two differ. */
  ghost predicate Told(u: Tables, items: seq<Node>) {
    && (forall k | 0 <= k < |items| :: !Nullable(items[k]))
    && (forall i, j | 0 <= i < j < |items| :: Differ(u, items[i], items[j]))
  }

  /** One branch is empty, and the others are told apart. */
  ghost predicate OneEmpty(u: Tables, items: seq<Node>) {
    exists e :: IsOnlyEmpty(items, e) && Told(u, items[..e] + items[e + 1..])
  }

  ghost predicate IsOnlyEmpty(items: seq<Node>, e: int) {
    && 0 <= e < |items| && Items(items[e]) == []
    && forall k | 0 <= k < |items| && k != e :: Items(items[k]) != []
  }

  /** Somewhere in the node there is more than one way to go on. */
  ghost predicate Tries(u: Tables, node: Node)
    decreases node
  {
    match node
    case Repeat(body, low, high) => low != high || Tries(u, body)
    case Alt(items) => !Told(u, items) || exists k :: 0 <= k < |items| && Tries(u, items[k])
    case Seq(items) => exists k :: 0 <= k < |items| && Tries(u, items[k])
    case _ => false
  }

  ghost predicate SomeTries(u: Tables, items: seq<Node>) {
    exists k :: 0 <= k < |items| && Tries(u, items[k])
  }

  lemma StartIs(node: Node)
    ensures Prefix(node, []).0 == Start(node)
  {
    PrefixIs(node, []);
    assert [] + Start(node) == Start(node);
  }

  lemma FirstApartIs(u: Tables, a: Node, b: Node)
    requires u.Valid()
    ensures Disjoint(u, First(a), First(b)) <==> forall c, d | Takes(a, c) && Takes(b, d) :: !Meet(u, c, d)
  {
    DisjointIs(u, First(a), First(b));
    forall c ensures c in First(a) <==> Takes(a, c) ensures c in First(b) <==> Takes(b, c) {
      FirstIs(a, c);
      FirstIs(b, c);
    }
  }

  ghost predicate PlacesApart(u: Tables, p: seq<Chars>, q: seq<Chars>) {
    exists k :: 0 <= k < |p| && k < |q| && !Meet(u, p[k], q[k])
  }

  lemma PlacesApartIs(u: Tables, p: seq<Chars>, q: seq<Chars>)
    requires u.Valid()
    ensures (exists k | 0 <= k < |p| && k < |q| :: DisjointPair(u, p[k], q[k])) <==> PlacesApart(u, p, q)
  {
    forall k | 0 <= k < |p| && k < |q| ensures DisjointPair(u, p[k], q[k]) <==> !Meet(u, p[k], q[k]) {
      DisjointPairExact(u, p[k], q[k]);
    }
  }

  lemma ExcludesIs(u: Tables, a: Node, b: Node)
    requires u.Valid()
    ensures Excludes(u, a, b) <==> Differ(u, a, b)
  {
    StartIs(a);
    StartIs(b);
    FirstApartIs(u, a, b);
    PlacesApartIs(u, Start(a), Start(b));
  }

  lemma ToldIs(u: Tables, items: seq<Node>)
    requires u.Valid()
    ensures Deterministic(u, items) <==> Told(u, items)
  {
    forall i, j | 0 <= i < j < |items| ensures Excludes(u, items[i], items[j]) <==> Differ(u, items[i], items[j]) {
      ExcludesIs(u, items[i], items[j]);
    }
  }

  lemma {:induction false} TriesIs(u: Tables, node: Node)
    requires u.Valid()
    ensures IsChoice(u, node) <==> Tries(u, node)
    decreases node, 0
  {
    match node
    case Repeat(body, _, _) => TriesIs(u, body);
    case Alt(items) =>
      ToldIs(u, items);
      SomeTriesIs(u, items);
    case Seq(items) => SomeTriesIs(u, items);
    case _ =>
  }

  lemma {:induction false} SomeTriesIs(u: Tables, items: seq<Node>)
    requires u.Valid()
    ensures AnyChoice(u, items) <==> SomeTries(u, items)
    decreases items, 1
  {
    if items != [] {
      var rest := items[1..];
      TriesIs(u, items[0]);
      SomeTriesIs(u, rest);
      assert forall k | 0 <= k < |rest| :: rest[k] == items[k + 1];
      if k :| 0 <= k < |items| && Tries(u, items[k]) && k > 0 {
        assert Tries(u, rest[k - 1]);
      }
    }
  }

  // ---------------------------------------------------------------- what comes next

  /** What comes after a place of the pattern: its end, the rest of a sequence, or another round of a repeat. */
  datatype Cont = End | Then(items: seq<Node>, after: Cont) | Again(body: Node, after: Cont)

  /** What comes next can start with the set. */
  ghost predicate NextTakes(k: Cont, c: Chars) {
    match k
    case End => false
    case Then(items, after) => ItemsTake(items, c) || (EmptyBefore(items, |items|) && NextTakes(after, c))
    case Again(body, after) => Takes(body, c) || NextTakes(after, c)
  }

  predicate AtEnd(k: Cont) {
    k.End? || (k.Then? && k.items == [] && AtEnd(k.after))
  }

  /** A repeat or an alternation of plain parts. */
  ghost predicate Simple(u: Tables, node: Node) {
    match node
    case Repeat(body, _, _) => !Tries(u, body)
    case Alt(items) => !SomeTries(u, items)
    case _ => false
  }

  /** An item that counts as a choice: not a simple one that ends the pattern. */
  ghost predicate Counts(u: Tables, items: seq<Node>, k: int, end: bool) {
    0 <= k < |items| && Tries(u, items[k]) && !(k == |items| - 1 && end && Simple(u, items[k]))
  }

  ghost predicate Later(u: Tables, k: Cont) {
    match k
    case End => false
    case Then(items, after) => (exists i :: Counts(u, items, i, AtEnd(after))) || Later(u, after)
    case Again(body, after) => Tries(u, body) || Later(u, after)
  }

  /** The follow of a place is what comes next there. */
  ghost predicate Follows(u: Tables, follow: Follow, k: Cont) {
    && (forall c :: c in follow.first <==> NextTakes(k, c))
    && (follow.choice <==> Later(u, k)) && (follow.end <==> AtEnd(k))
  }

  lemma SimpleIs(u: Tables, node: Node)
    requires u.Valid()
    ensures SimpleLast(u, node) <==> Simple(u, node)
  {
    match node
    case Repeat(body, _, _) => TriesIs(u, body);
    case Alt(items) => SomeTriesIs(u, items);
    case _ =>
  }

  lemma {:induction false} LaterChoiceIs(u: Tables, items: seq<Node>, end: bool)
    requires u.Valid()
    ensures LaterChoice(u, items, end) <==> exists i :: Counts(u, items, i, end)
    decreases |items|
  {
    if items != [] {
      var rest := items[1..];
      TriesIs(u, items[0]);
      SimpleIs(u, items[0]);
      LaterChoiceIs(u, rest, end);
      assert forall k | 0 <= k < |rest| :: rest[k] == items[k + 1];
      if i :| Counts(u, items, i, end) && i > 0 {
        assert Counts(u, rest, i - 1, end);
      }
      if i :| Counts(u, rest, i, end) {
        assert Counts(u, items, i + 1, end);
      }
      assert Counts(u, items, 0, end) <==> IsChoice(u, items[0]) && !(|items| == 1 && end && SimpleLast(u, items[0]));
    }
  }

  lemma FollowOfIs(u: Tables, rest: seq<Node>, follow: Follow, k: Cont)
    requires u.Valid() && Follows(u, follow, k)
    ensures Follows(u, FollowOf(u, rest, follow), Then(rest, k))
  {
    LaterChoiceIs(u, rest, follow.end);
    AllNullableIs(rest);
    forall c ensures c in FollowOf(u, rest, follow).first <==> NextTakes(Then(rest, k), c) {
      SeqFirstIs(rest, c);
    }
  }

  lemma InnerIs(u: Tables, body: Node, high: nat, follow: Follow, k: Cont)
    requires u.Valid() && Follows(u, follow, k)
    ensures Follows(u, Inner(u, body, high, follow), if high > 1 then Again(body, k) else k)
  {
    TriesIs(u, body);
    forall c ensures c in First(body) <==> Takes(body, c) {
      FirstIs(body, c);
    }
  }

  // ---------------------------------------------------------------- exactly what is accepted

  /** Nothing that the node can start with meets anything that can come next. */
  ghost predicate Apart(u: Tables, node: Node, k: Cont) {
    forall c, d | Takes(node, c) && NextTakes(k, d) :: !Meet(u, c, d)
  }

  /**
   Before a later choice, every variable repeat is apart from what comes next; and so is every alternation whose
   branches are not told apart, which is then one of something or nothing.
   */
  ghost predicate Separated(u: Tables, node: Node, k: Cont)
    decreases node
  {
    match node
    case Seq(items) => forall i | 0 <= i < |items| :: Separated(u, items[i], Then(items[i + 1..], k))
    case Repeat(body, low, high) =>
      && (low != high && Later(u, k) ==> Apart(u, body, k))
      && Separated(u, body, if high > 1 then Again(body, k) else k)
    case Alt(items) =>
      && (Later(u, k) && !Told(u, items) ==> OneEmpty(u, items) && Apart(u, node, k))
      && forall i | 0 <= i < |items| :: Separated(u, items[i], k)
    case _ => true
  }

  lemma ApartIs(u: Tables, node: Node, follow: Follow, k: Cont)
    requires u.Valid() && Follows(u, follow, k)
    ensures Disjoint(u, First(node), follow.first) <==> Apart(u, node, k)
  {
    DisjointIs(u, First(node), follow.first);
    forall c ensures c in First(node) <==> Takes(node, c) {
      FirstIs(node, c);
    }
  }

  lemma {:induction false} PlainLength(items: seq<Node>)
    ensures |Plain(items)| <= |items|
    ensures |Plain(items)| == |items| <==> forall k | 0 <= k < |items| :: Items(items[k]) != []
    ensures |Plain(items)| == |items| ==> Plain(items) == items
    decreases |items|
  {
    if items != [] {
      PlainLength(items[1..]);
      AllLater(items);
      PlainFirst(items);
    }
  }

  lemma PlainFirst(items: seq<Node>)
    requires items != []
    ensures var rest := Plain(items[1..]);
      && |Plain(items)| == (if Items(items[0]) != [] then 1 else 0) + |rest|
      && (Items(items[0]) != [] && rest == items[1..] ==> Plain(items) == items)
  {
    assert items == [items[0]] + items[1..];
  }

  lemma AllLater(items: seq<Node>)
    requires items != []
    ensures (forall k | 0 <= k < |items| :: Items(items[k]) != [])
       <==> Items(items[0]) != [] && forall k | 0 <= k < |items[1..]| :: Items(items[1..][k]) != []
  {
    assert forall k | 0 <= k < |items[1..]| :: items[1..][k] == items[k + 1];
  }

  /** With one branch left out, it was the only empty one. */
  lemma {:induction false} PlainButOne(items: seq<Node>) returns (e: nat)
    requires |Plain(items)| == |items| - 1
    ensures IsOnlyEmpty(items, e) && Plain(items) == items[..e] + items[e + 1..]
    decreases |items|
  {
    var rest := items[1..];
    if Items(items[0]) == [] {
      e := 0;
      PlainLength(rest);
      assert forall k | 0 <= k < |rest| :: rest[k] == items[k + 1];
      assert items[..0] + items[1..] == rest;
    } else {
      assert Plain(items) == [items[0]] + Plain(rest);
      var f := PlainButOne(rest);
      e := f + 1;
      EmptyEarlier(items, e);
    }
  }

  lemma {:induction false} OnlyEmptyIsLeftOut(items: seq<Node>, e: nat)
    requires IsOnlyEmpty(items, e)
    ensures |Plain(items)| == |items| - 1 && Plain(items) == items[..e] + items[e + 1..]
    decreases |items|
  {
    var rest := items[1..];
    if e == 0 {
      PlainLength(rest);
      assert forall k | 0 <= k < |rest| :: rest[k] == items[k + 1];
      assert items[..0] + items[1..] == rest;
    } else {
      EmptyLater(items, e);
      OnlyEmptyIsLeftOut(rest, e - 1);
      assert Plain(items) == [items[0]] + Plain(rest);
    }
  }

  lemma EmptyEarlier(items: seq<Node>, e: nat)
    requires items != [] && e > 0 && IsOnlyEmpty(items[1..], e - 1) && Items(items[0]) != []
    ensures IsOnlyEmpty(items, e)
    ensures items[..e] + items[e + 1..] == [items[0]] + (items[1..][..e - 1] + items[1..][e..])
  {
    assert forall k | 0 <= k < |items[1..]| :: items[1..][k] == items[k + 1];
  }

  lemma EmptyLater(items: seq<Node>, e: nat)
    requires IsOnlyEmpty(items, e) && e > 0
    ensures IsOnlyEmpty(items[1..], e - 1) && Items(items[0]) != []
    ensures items[..e] + items[e + 1..] == [items[0]] + (items[1..][..e - 1] + items[1..][e..])
  {
    assert forall k | 0 <= k < |items[1..]| :: items[1..][k] == items[k + 1];
  }

  lemma OptionalIs(u: Tables, items: seq<Node>)
    requires u.Valid()
    ensures Optional(u, items) <==> OneEmpty(u, items)
  {
    ToldIs(u, Plain(items));
    if Optional(u, items) {
      var e := PlainButOne(items);
      assert IsOnlyEmpty(items, e);
    }
    if e :| IsOnlyEmpty(items, e) && Told(u, items[..e] + items[e + 1..]) {
      OnlyEmptyIsLeftOut(items, e);
    }
  }

  lemma {:induction false} CheckIs(u: Tables, node: Node, follow: Follow, k: Cont)
    requires u.Valid() && Follows(u, follow, k)
    ensures Check(u, node, follow).Accepted? <==> Separated(u, node, k)
    decreases node, 0
  {
    match node
    case Seq(items) => CheckSeqIs(u, items, follow, k);
    case Repeat(body, low, high) =>
      ApartIs(u, body, follow, k);
      InnerIs(u, body, high, follow, k);
      CheckIs(u, body, Inner(u, body, high, follow), if high > 1 then Again(body, k) else k);
    case Alt(items) =>
      ToldIs(u, items);
      OptionalIs(u, items);
      ApartIs(u, node, follow, k);
      CheckBranchesIs(u, items, follow, k);
    case _ =>
  }

  lemma {:induction false} CheckSeqIs(u: Tables, items: seq<Node>, follow: Follow, k: Cont)
    requires u.Valid() && Follows(u, follow, k)
    ensures CheckSeq(u, items, follow).Accepted?
       <==> forall i | 0 <= i < |items| :: Separated(u, items[i], Then(items[i + 1..], k))
    decreases items, 1
  {
    if items != [] {
      var rest := items[1..];
      FollowOfIs(u, rest, follow, k);
      CheckIs(u, items[0], FollowOf(u, rest, follow), Then(rest, k));
      CheckSeqIs(u, rest, follow, k);
      forall i | 0 <= i < |rest|
        ensures Separated(u, rest[i], Then(rest[i + 1..], k)) <==> Separated(u, items[i + 1], Then(items[i + 2..], k))
      {
        assert rest[i] == items[i + 1] && rest[i + 1..] == items[i + 2..];
      }
      if forall i | 0 <= i < |items| :: Separated(u, items[i], Then(items[i + 1..], k)) {
        forall i | 0 <= i < |rest| ensures Separated(u, rest[i], Then(rest[i + 1..], k)) {
          assert Separated(u, items[i + 1], Then(items[i + 1 + 1..], k));
        }
      }
    }
  }

  lemma {:induction false} CheckBranchesIs(u: Tables, items: seq<Node>, follow: Follow, k: Cont)
    requires u.Valid() && Follows(u, follow, k)
    ensures CheckBranches(u, items, follow).Accepted? <==> forall i | 0 <= i < |items| :: Separated(u, items[i], k)
    decreases items, 1
  {
    if items != [] {
      var rest := items[1..];
      CheckIs(u, items[0], follow, k);
      CheckBranchesIs(u, rest, follow, k);
      assert forall i | 0 <= i < |rest| :: rest[i] == items[i + 1];
    }
  }

  /** Why a node is refused by itself: it overlaps with what can come next, or more than one branch can match there. */
  lemma FaultReason(u: Tables, node: Node, follow: Follow, k: Cont)
    requires u.Valid() && Follows(u, follow, k) && Later(u, k)
    ensures node.Repeat? && node.low != node.high && !Apart(u, node.body, k) ==>
      Check(u, node, follow) == Refused(Overlap)
    ensures node.Alt? && !Told(u, node.items) && !OneEmpty(u, node.items) ==>
      Check(u, node, follow) == Refused(Ambiguous)
    ensures node.Alt? && !Told(u, node.items) && OneEmpty(u, node.items) && !Apart(u, node, k) ==>
      Check(u, node, follow) == Refused(Overlap)
  {
    if node.Repeat? {
      ApartIs(u, node.body, follow, k);
    } else if node.Alt? {
      ToldIs(u, node.items);
      OptionalIs(u, node.items);
      ApartIs(u, node, follow, k);
    }
  }

  /** A pattern tree is accepted if and only if it is separated, up to its end. */
  lemma AcceptedIff(u: Tables, node: Node)
    requires u.Valid()
    ensures Check(u, node, TOP) == Accepted <==> Separated(u, node, End)
  {
    CheckIs(u, node, TOP, End);
  }
}
