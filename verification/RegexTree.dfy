/**
 The pattern tree of regex_safety.py and the analyses that its check is built from.

 Character categories are given by tables of code points, because what
 isdecimal, isspace and isalnum hold of is a fact about Unicode, not about this program.
 */
module RegexTree {

  const MAX_RANGE := 512
  const MAX_PREFIX := 64
  const MAX_REPEAT := 4294967295

  // ---------------------------------------------------------------- characters

  datatype Category = Digit | Space | Word

  /** The code points of which each category test is true. */
  datatype Tables = Tables(digit: set<int>, space: set<int>, word: set<int>) {
    /** The two facts about Unicode that the check relies on. */
    ghost predicate Valid() {
      digit <= word && space !! word
    }

    predicate Is(cat: Category, code: int) {
      match cat
      case Digit => code in digit
      case Space => code in space
      case Word => code in word
    }
  }

  datatype Chars = Chars(points: set<int>, cats: set<Category>, negated: bool, unknown: bool) {
    /** `_Chars.has`: whether the listed characters include the code, ignoring `negated`. */
    predicate Has(u: Tables, code: int) {
      code in points || exists cat | cat in cats :: u.Is(cat, code)
    }

    /** The characters the set stands for; an unknown set may contain anything. */
    predicate Contains(u: Tables, code: int) {
      unknown || (Has(u, code) != negated)
    }
  }

  /** All of `a` lies among the characters that the negated set `b` leaves out. */
  predicate InsideExcluded(u: Tables, a: Chars, b: Chars) {
    && (forall code | code in a.points :: b.Has(u, code))
    && (forall cat | cat in a.cats :: cat in b.cats || (cat == Digit && Word in b.cats))
  }

  predicate DisjointPair(u: Tables, a: Chars, b: Chars) {
    if a.unknown || b.unknown || (a.negated && b.negated) then false
    else if a.negated then InsideExcluded(u, b, a)
    else if b.negated then InsideExcluded(u, a, b)
    else
      && a.points * b.points == {}
      && (forall code | code in a.points :: !b.Has(u, code))
      && (forall code | code in b.points :: !a.Has(u, code))
      && (forall x, y | x in a.cats && y in b.cats :: x != y && {x, y} != {Digit, Word})
  }

  predicate Disjoint(u: Tables, first: seq<Chars>, second: seq<Chars>) {
    forall i, j | 0 <= i < |first| && 0 <= j < |second| :: DisjointPair(u, first[i], second[j])
  }

  /** Some set of the list contains the code. */
  predicate Starts(u: Tables, sets: seq<Chars>, code: int) {
    exists k | 0 <= k < |sets| :: sets[k].Contains(u, code)
  }

  lemma DisjointPairSound(u: Tables, a: Chars, b: Chars, code: int)
    requires u.Valid() && DisjointPair(u, a, b)
    ensures !(a.Contains(u, code) && b.Contains(u, code))
  {
    if a.Contains(u, code) && b.Contains(u, code) {
      if a.negated {
        InsideExcludedSound(u, b, a, code);
      } else if b.negated {
        InsideExcludedSound(u, a, b, code);
      } else {
        var x :| x in a.cats && u.Is(x, code);
        var y :| y in b.cats && u.Is(y, code);
        PlainCategoriesApart(u, x, y, code);
        assert false;
      }
    }
  }

  lemma PlainCategoriesApart(u: Tables, x: Category, y: Category, code: int)
    requires u.Valid() && u.Is(x, code) && u.Is(y, code)
    ensures x == y || {x, y} == {Digit, Word}
  {
  }

  lemma InsideExcludedSound(u: Tables, a: Chars, b: Chars, code: int)
    requires u.Valid() && InsideExcluded(u, a, b) && a.Has(u, code)
    ensures b.Has(u, code)
  {
    if code !in a.points {
      var cat :| cat in a.cats && u.Is(cat, code);
      if cat !in b.cats {
        assert u.Is(Word, code);
      }
    }
  }

  lemma DisjointSound(u: Tables, first: seq<Chars>, second: seq<Chars>, code: int)
    requires u.Valid() && Disjoint(u, first, second)
    ensures !(Starts(u, first, code) && Starts(u, second, code))
  {
    if Starts(u, first, code) && Starts(u, second, code) {
      var i :| 0 <= i < |first| && first[i].Contains(u, code);
      var j :| 0 <= j < |second| && second[j].Contains(u, code);
      DisjointPairSound(u, first[i], second[j], code);
    }
  }

  /** A code point above all of the set. */
  lemma {:induction false} Fresh(s: set<int>) returns (code: int)
    ensures forall c | c in s :: c < code
    decreases s
  {
    if c :| c in s {
      var rest := s - {c};
      var above := Fresh(rest);
      code := if above <= c then c + 1 else above;
      forall d | d in s ensures d < code {
        assert d == c || d in rest;
      }
    } else {
      code := 0;
    }
  }

  lemma StartsAppend(u: Tables, a: seq<Chars>, b: seq<Chars>, code: int)
    ensures Starts(u, a + b, code) <==> Starts(u, a, code) || Starts(u, b, code)
  {
    if Starts(u, a, code) {
      var k :| 0 <= k < |a| && a[k].Contains(u, code);
      assert (a + b)[k].Contains(u, code);
    }
    if Starts(u, b, code) {
      var k :| 0 <= k < |b| && b[k].Contains(u, code);
      assert (a + b)[|a| + k].Contains(u, code);
    }
  }

  // ---------------------------------------------------------------- the tree

  /**
   `Behind` is a look-behind. `_build` makes a plain zero node of it, so no analysis
   reads its body; the body is kept for what it costs.
   */
  datatype Node =
    | Char(chars: Chars)
    | Zero
    | Look(body: Node)
    | Behind(body: Node)
    | Seq(items: seq<Node>)
    | Alt(items: seq<Node>)
    | Repeat(body: Node, low: nat, high: nat)

  /** `node.items`, which is the empty list for the kinds that have none. */
  function Items(node: Node): seq<Node> {
    if node.Seq? || node.Alt? then node.items else []
  }

  predicate HasVariableRepeat(node: Node)
    decreases node, 0
  {
    match node
    case Repeat(body, low, high) => low != high || HasVariableRepeat(body)
    case Seq(items) => AnyVariableRepeat(items)
    case Alt(items) => AnyVariableRepeat(items)
    case Look(body) => HasVariableRepeat(body)
    case _ => false
  }

  predicate AnyVariableRepeat(items: seq<Node>)
    decreases items, 1
  {
    items != [] && (HasVariableRepeat(items[0]) || AnyVariableRepeat(items[1..]))
  }

  /**
   The shape of the trees that `_build` makes: bodies and branches are seq
   nodes, a look-around holds no variable repeat, and the bounds of a repeat are in order.
   */
  predicate WellFormed(node: Node)
    decreases node, 0
  {
    match node
    case Char(_) => true
    case Zero => true
    case Look(body) => body.Seq? && WellFormed(body) && !HasVariableRepeat(body)
    case Behind(body) => body.Seq? && WellFormed(body) && !HasVariableRepeat(body)
    case Seq(items) => AllWellFormed(items)
    case Alt(items) => AllWellFormed(items) && forall k | 0 <= k < |items| :: items[k].Seq?
    case Repeat(body, low, high) => body.Seq? && WellFormed(body) && low <= high && low < MAX_REPEAT
  }

  predicate AllWellFormed(items: seq<Node>)
    decreases items, 1
  {
    items == [] || (WellFormed(items[0]) && AllWellFormed(items[1..]))
  }

  predicate Nullable(node: Node)
    decreases node, 0
  {
    match node
    case Char(_) => false
    case Zero => true
    case Look(_) => true
    case Behind(_) => true
    case Seq(items) => AllNullable(items)
    case Alt(items) => AnyNullable(items)
    case Repeat(body, low, _) => low == 0 || Nullable(body)
  }

  predicate AllNullable(items: seq<Node>)
    decreases items, 1
  {
    items == [] || (Nullable(items[0]) && AllNullable(items[1..]))
  }

  predicate AnyNullable(items: seq<Node>)
    decreases items, 1
  {
    items != [] && (Nullable(items[0]) || AnyNullable(items[1..]))
  }

  /** The sets of characters the node can start with, or look at first. */
  function First(node: Node): seq<Chars>
    decreases node, 0
  {
    match node
    case Char(chars) => [chars]
    case Zero => []
    case Look(body) => First(body)
    case Behind(_) => []
    case Repeat(body, _, _) => First(body)
    case Alt(items) => AltFirst(items)
    case Seq(items) => SeqFirst(items)
  }

  function AltFirst(items: seq<Node>): seq<Chars>
    decreases items, 1
  {
    if items == [] then [] else First(items[0]) + AltFirst(items[1..])
  }

  function SeqFirst(items: seq<Node>): seq<Chars>
    decreases items, 1
  {
    if items == [] then []
    else if Nullable(items[0]) then First(items[0]) + SeqFirst(items[1..])
    else First(items[0])
  }

  function Copies(chars: Chars, n: nat): (r: seq<Chars>)
    ensures |r| == n && forall k | 0 <= k < n :: r[k] == chars
  {
    seq(n, _ => chars)
  }

  /** Every repeat that may do more rounds than it needs takes a character in each round. */
  predicate Moves(node: Node)
    decreases node, 0
  {
    match node
    case Seq(items) => AllMove(items)
    case Alt(items) => AllMove(items)
    case Repeat(body, low, high) => Moves(body) && (low == high || !Nullable(body))
    case _ => true
  }

  predicate AllMove(items: seq<Node>)
    decreases items, 1
  {
    items == [] || (Moves(items[0]) && AllMove(items[1..]))
  }

  /** A repeat that `_prefix` unrolls: a fixed count of one plain character. */
  predicate PlainRepeat(node: Node) {
    && node.Repeat? && node.low == node.high && node.low <= MAX_PREFIX
    && node.body.Seq? && |node.body.items| == 1 && node.body.items[0].Char?
  }

  /** What `_prefix` leaves in its list when it starts with `out`, and its answer. */
  function Prefix(node: Node, out: seq<Chars>): (r: (seq<Chars>, bool))
    ensures |out| <= |r.0| && r.0[..|out|] == out
    decreases node, 0
  {
    if |out| >= MAX_PREFIX then (out, false)
    else match node
      case Char(chars) => (out + [chars], true)
      case Zero => (out, true)
      case Behind(_) => (out, true)
      case Seq(items) => PrefixAll(items, out)
      case Repeat(body, low, _) =>
        if PlainRepeat(node) then (out + Copies(body.items[0].chars, low), true) else (out, false)
      case _ => (out, false)
  }

  function PrefixAll(items: seq<Node>, out: seq<Chars>): (r: (seq<Chars>, bool))
    ensures |out| <= |r.0| && r.0[..|out|] == out
    decreases items, 1
  {
    if items == [] then (out, true)
    else
      var (more, full) := Prefix(items[0], out);
      if full then
        var r := PrefixAll(items[1..], more);
        assert r.0[..|out|] == r.0[..|more|][..|out|];
        r
      else (more, false)
  }

  /** Two branches that cannot both get past their plain start. */
  predicate Excludes(u: Tables, a: Node, b: Node) {
    || Disjoint(u, First(a), First(b))
    || (var p, q := Prefix(a, []).0, Prefix(b, []).0;
        exists k | 0 <= k < |p| && k < |q| :: DisjointPair(u, p[k], q[k]))
  }

  predicate Deterministic(u: Tables, branches: seq<Node>) {
    && (forall i | 0 <= i < |branches| :: !Nullable(branches[i]))
    && (forall i, j | 0 <= i < j < |branches| :: Excludes(u, branches[i], branches[j]))
  }

  /** Whether matching the node can be tried in more than one way. */
  predicate IsChoice(u: Tables, node: Node)
    decreases node, 0
  {
    match node
    case Repeat(body, low, high) => low != high || IsChoice(u, body)
    case Alt(items) => !Deterministic(u, items) || AnyChoice(u, items)
    case Seq(items) => AnyChoice(u, items)
    case _ => false
  }

  predicate AnyChoice(u: Tables, items: seq<Node>)
    decreases items, 1
  {
    items != [] && (IsChoice(u, items[0]) || AnyChoice(u, items[1..]))
  }

  // ---------------------------------------------------------------- the check

  /** What comes after a piece of the pattern. */
  datatype Follow = Follow(first: seq<Chars>, choice: bool, end: bool)

  const TOP := Follow([], false, true)

  predicate SimpleLast(u: Tables, node: Node) {
    match node
    case Repeat(body, _, _) => !IsChoice(u, body)
    case Alt(items) => !AnyChoice(u, items)
    case _ => false
  }

  /** Some item is a choice that counts: not a simple one at the very end of the pattern. */
  predicate LaterChoice(u: Tables, rest: seq<Node>, end: bool) {
    rest != [] &&
    ((IsChoice(u, rest[0]) && !(|rest| == 1 && end && SimpleLast(u, rest[0])))
     || LaterChoice(u, rest[1..], end))
  }

  function FollowOf(u: Tables, rest: seq<Node>, follow: Follow): Follow {
    Follow(SeqFirst(rest) + (if AllNullable(rest) then follow.first else []),
           follow.choice || LaterChoice(u, rest, follow.end),
           follow.end && rest == [])
  }

  datatype Reason = Overlap | Ambiguous
  datatype Verdict = Accepted | Refused(reason: Reason)

  /** The branches with something in them. */
  function Plain(branches: seq<Node>): seq<Node> {
    if branches == [] then []
    else (if Items(branches[0]) != [] then [branches[0]] else []) + Plain(branches[1..])
  }

  predicate Optional(u: Tables, branches: seq<Node>) {
    |Plain(branches)| == |branches| - 1 && Deterministic(u, Plain(branches))
  }

  /** What comes after one round of a repeat. */
  function Inner(u: Tables, body: Node, high: nat, follow: Follow): Follow {
    if high > 1 then Follow(First(body) + follow.first, IsChoice(u, body) || follow.choice, false)
    else follow
  }

  function Check(u: Tables, node: Node, follow: Follow): Verdict
    decreases node, 0
  {
    match node
    case Seq(items) => CheckSeq(u, items, follow)
    case Repeat(body, low, high) =>
      if low != high && follow.choice && !Disjoint(u, First(body), follow.first) then Refused(Overlap)
      else Check(u, body, Inner(u, body, high, follow))
    case Alt(items) =>
      if !Deterministic(u, items) && follow.choice && !Optional(u, items) then Refused(Ambiguous)
      else if !Deterministic(u, items) && follow.choice && !Disjoint(u, First(node), follow.first)
        then Refused(Overlap)
      else CheckBranches(u, items, follow)
    case _ => Accepted
  }

  function CheckSeq(u: Tables, items: seq<Node>, follow: Follow): Verdict
    decreases items, 1
  {
    if items == [] then Accepted
    else
      var head := Check(u, items[0], FollowOf(u, items[1..], follow));
      if head.Refused? then head else CheckSeq(u, items[1..], follow)
  }

  function CheckBranches(u: Tables, items: seq<Node>, follow: Follow): Verdict
    decreases items, 1
  {
    if items == [] then Accepted
    else
      var head := Check(u, items[0], follow);
      if head.Refused? then head else CheckBranches(u, items[1..], follow)
  }
}
