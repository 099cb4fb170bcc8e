/**
 From the parse tree of `re` to the tree that is checked: `_build`, with `check_pattern`
 and `clip` on top, and what the pattern itself costs.
 */
module RegexBuild {
  import opened RegexTree
  import opened RegexWays
  import opened RegexCost
  import opened RegexSize
  import opened RegexFiner
  import opened RegexClasses

  // ---------------------------------------------------------------- the tree

  datatype Op =
    | LiteralOp(code: int)
    | NotLiteralOp(code: int)
    | AnyOp
    | InOp(class_: seq<ClassItem>)
    | AtOp
    | RepeatOp(low: nat, high: nat, sub: seq<Op>)
    | GroupOp(add: Flags, drop: Flags, sub: seq<Op>)
    | BranchOp(subs: seq<Branch>)
    | AssertOp(ahead: bool, sub: seq<Op>)
    | BackReferenceOp
    | OtherOp

  datatype Branch = Branch(ops: seq<Op>)

  datatype NoTree = VariableAssertion | BackReference | NotAccepted
  datatype Built<T> = Tree(value: T) | NoTree(reason: NoTree)

  /**
   How the characters of a pattern are read: as `_build` does, which follows `s` into a group and
   no other flag, and ignores case throughout; or as `re` matches them.
   */
  datatype Reading = Made(cases: Cases) | Meant(engine: Engine) {
    function Class(flags: Flags, items: seq<ClassItem>): Chars {
      match this
      case Made(cases) => ClassChars(cases, items)
      case Meant(e) => Meaning(e.TablesUnder(flags), CasesUnder(flags, e.cases), items)
    }

    function Folds(flags: Flags, code: int): set<int> {
      match this
      case Made(cases) => Fold(cases, code)
      case Meant(e) => Fold(CasesUnder(flags, e.cases), code)
    }

    function Inside(flags: Flags, add: Flags, drop: Flags): Flags {
      match this
      case Made(_) => flags + (add * {DotAll})
      case Meant(_) => Combined(flags, add, drop)
    }
  }

  function CharNode(points: set<int>, negated: bool): Node {
    Char(Chars(points, {}, negated, false))
  }

  function BuildOp(of: Reading, op: Op, flags: Flags): Built<Node>
    decreases op, 0
  {
    match op
    case LiteralOp(code) => Tree(CharNode(of.Folds(flags, code), false))
    case NotLiteralOp(code) => Tree(CharNode(of.Folds(flags, code), true))
    case AnyOp => Tree(CharNode(if DotAll in flags then {} else {10}, true))
    case InOp(items) => Tree(Char(of.Class(flags, items)))
    case AtOp => Tree(Zero)
    case RepeatOp(low, high, sub) =>
      (match Build(of, sub, flags)
       case Tree(body) => Tree(Repeat(body, low, high))
       case NoTree(reason) => NoTree(reason))
    case GroupOp(add, drop, sub) => Build(of, sub, of.Inside(flags, add, drop))
    case BranchOp(subs) =>
      (match BuildBranches(of, subs, flags)
       case Tree(branches) => Tree(Alt(branches))
       case NoTree(reason) => NoTree(reason))
    case AssertOp(ahead, sub) =>
      (match Build(of, sub, flags)
       case Tree(body) =>
         if HasVariableRepeat(body) then NoTree(VariableAssertion)
         else if ahead then Tree(Look(body))
         else Tree(Behind(body))
       case NoTree(reason) => NoTree(reason))
    case BackReferenceOp => NoTree(BackReference)
    case OtherOp => NoTree(NotAccepted)
  }

  function BuildItems(of: Reading, parsed: seq<Op>, flags: Flags): Built<seq<Node>>
    decreases parsed, 0
  {
    if parsed == [] then Tree([])
    else match BuildOp(of, parsed[0], flags)
      case NoTree(reason) => NoTree(reason)
      case Tree(head) =>
        match BuildItems(of, parsed[1..], flags)
        case NoTree(reason) => NoTree(reason)
        case Tree(tail) => Tree([head] + tail)
  }

  function Build(of: Reading, parsed: seq<Op>, flags: Flags): Built<Node>
    decreases parsed, 1
  {
    match BuildItems(of, parsed, flags)
    case Tree(items) => Tree(Seq(items))
    case NoTree(reason) => NoTree(reason)
  }

  function BuildBranches(of: Reading, subs: seq<Branch>, flags: Flags): Built<seq<Node>>
    decreases subs, 0
  {
    if subs == [] then Tree([])
    else match Build(of, subs[0].ops, flags)
      case NoTree(reason) => NoTree(reason)
      case Tree(head) =>
        match BuildBranches(of, subs[1..], flags)
        case NoTree(reason) => NoTree(reason)
        case Tree(tail) => Tree([head] + tail)
  }

  /** What the parser of `re` guarantees of the bounds of a repeat. */
  predicate Parsed(parsed: seq<Op>)
    decreases parsed, 1
  {
    parsed == [] || (ParsedOp(parsed[0]) && Parsed(parsed[1..]))
  }

  predicate ParsedOp(op: Op)
    decreases op, 0
  {
    match op
    case RepeatOp(low, high, sub) => low <= high && low < MAX_REPEAT && Parsed(sub)
    case GroupOp(_, _, sub) => Parsed(sub)
    case AssertOp(_, sub) => Parsed(sub)
    case BranchOp(subs) => ParsedBranches(subs)
    case _ => true
  }

  predicate ParsedBranches(subs: seq<Branch>)
    decreases subs, 0
  {
    subs == [] || (Parsed(subs[0].ops) && ParsedBranches(subs[1..]))
  }

  /** Every tree that is built has the shape that the analyses rely on. */
  lemma {:induction false} BuildWellFormed(of: Reading, parsed: seq<Op>, flags: Flags)
    requires Parsed(parsed) && Build(of, parsed, flags).Tree?
    ensures var node := Build(of, parsed, flags).value; node.Seq? && WellFormed(node)
    decreases parsed, 1
  {
    if parsed != [] {
      BuildOpWellFormed(of, parsed[0], flags);
      BuildWellFormed(of, parsed[1..], flags);
      var items := BuildItems(of, parsed, flags).value;
      assert items[1..] == BuildItems(of, parsed[1..], flags).value;
    }
  }

  lemma {:induction false} BuildOpWellFormed(of: Reading, op: Op, flags: Flags)
    requires ParsedOp(op) && BuildOp(of, op, flags).Tree?
    ensures WellFormed(BuildOp(of, op, flags).value)
    decreases op, 0
  {
    match op
    case RepeatOp(_, _, sub) => BuildWellFormed(of, sub, flags);
    case GroupOp(add, drop, sub) => BuildWellFormed(of, sub, of.Inside(flags, add, drop));
    case AssertOp(_, sub) => BuildWellFormed(of, sub, flags);
    case BranchOp(subs) => BuildBranchesWellFormed(of, subs, flags);
    case _ =>
  }

  lemma {:induction false} BuildBranchesWellFormed(of: Reading, subs: seq<Branch>, flags: Flags)
    requires ParsedBranches(subs) && BuildBranches(of, subs, flags).Tree?
    ensures WellFormed(Alt(BuildBranches(of, subs, flags).value))
    decreases subs, 0
  {
    if subs != [] {
      BuildWellFormed(of, subs[0].ops, flags);
      BuildBranchesWellFormed(of, subs[1..], flags);
      var all := BuildBranches(of, subs, flags).value;
      assert all[1..] == BuildBranches(of, subs[1..], flags).value;
      forall k | 0 <= k < |all| ensures all[k].Seq? {
        if k > 0 {
          assert all[k] == all[1..][k - 1];
        }
      }
    }
  }

  // ---------------------------------------------------------------- larger sets give coarser trees

  /** Every class of the pattern is one that `_class_chars` leaves no character out of, under the flags in force. */
  predicate AllCovered(flags: Flags, cases: Cases, parsed: seq<Op>)
    decreases parsed, 1
  {
    parsed == [] || (CoveredOp(flags, cases, parsed[0]) && AllCovered(flags, cases, parsed[1..]))
  }

  predicate CoveredOp(flags: Flags, cases: Cases, op: Op)
    decreases op, 0
  {
    match op
    case NotLiteralOp(code) => Fold(cases, code) <= Fold(CasesUnder(flags, cases), code)
    case InOp(items) => Covered(flags, cases, items)
    case RepeatOp(_, _, sub) => AllCovered(flags, cases, sub)
    case GroupOp(add, drop, sub) => AllCovered(Combined(flags, add, drop), cases, sub)
    case AssertOp(_, sub) => AllCovered(flags, cases, sub)
    case BranchOp(subs) => CoveredBranches(flags, cases, subs)
    case _ => true
  }

  predicate CoveredBranches(flags: Flags, cases: Cases, subs: seq<Branch>)
    decreases subs, 0
  {
    subs == [] || (AllCovered(flags, cases, subs[0].ops) && CoveredBranches(flags, cases, subs[1..]))
  }

  /** On the text, two ways to fold agree for every character that the pattern lists. */
  ghost predicate AllAlike(a: Cases, b: Cases, parsed: seq<Op>, text: seq<int>)
    decreases parsed, 1
  {
    parsed == [] || (AlikeOp(a, b, parsed[0], text) && AllAlike(a, b, parsed[1..], text))
  }

  ghost predicate AlikeOp(a: Cases, b: Cases, op: Op, text: seq<int>)
    decreases op, 0
  {
    match op
    case LiteralOp(code) => FoldsAlike(a, b, [Literal(code)], text)
    case NotLiteralOp(code) => FoldsAlike(a, b, [Literal(code)], text)
    case InOp(items) => FoldsAlike(a, b, items, text)
    case RepeatOp(_, _, sub) => AllAlike(a, b, sub, text)
    case GroupOp(_, _, sub) => AllAlike(a, b, sub, text)
    case AssertOp(_, sub) => AllAlike(a, b, sub, text)
    case BranchOp(subs) => AlikeBranches(a, b, subs, text)
    case _ => true
  }

  ghost predicate AlikeBranches(a: Cases, b: Cases, subs: seq<Branch>, text: seq<int>)
    decreases subs, 0
  {
    subs == [] || (AllAlike(a, b, subs[0].ops, text) && AlikeBranches(a, b, subs[1..], text))
  }

  lemma {:induction false} SameShapes(u: Tables, t: seq<int>, a: Node, b: Node)
    requires Finer(u, t, a, b)
    ensures HasVariableRepeat(a) == HasVariableRepeat(b)
    decreases a, 0
  {
    match (a, b)
    case (Look(x), Look(y)) => SameShapes(u, t, x, y);
    case (Seq(xs), Seq(ys)) => SameShapesAll(u, t, xs, ys);
    case (Alt(xs), Alt(ys)) => SameShapesAll(u, t, xs, ys);
    case (Repeat(x, _, _), Repeat(y, _, _)) => SameShapes(u, t, x, y);
    case _ =>
  }

  lemma {:induction false} SameShapesAll(u: Tables, t: seq<int>, xs: seq<Node>, ys: seq<Node>)
    requires AllFiner(u, t, xs, ys)
    ensures AnyVariableRepeat(xs) == AnyVariableRepeat(ys)
    decreases xs, 1
  {
    if xs != [] {
      SameShapes(u, t, xs[0], ys[0]);
      SameShapesAll(u, t, xs[1..], ys[1..]);
    }
  }

  /** What is asked of a pattern and a text for the tree that is checked to be the coarser one. */
  ghost predicate Faithful(e: Engine, cases: Cases, parsed: seq<Op>, flags: Flags, made: Flags, text: seq<int>) {
    && e.Valid() && (DotAll in flags ==> DotAll in made)
    && AllCovered(flags, cases, parsed) && AllAlike(e.cases, cases, parsed, text)
  }

  /**
   Both trees of a pattern are built or neither is; where its classes are covered and its characters fold on the text
   as they do for `_fold`, the tree that `re` matches is finer than the one that is checked.
   */
  lemma {:induction false} BuildFiner(
      e: Engine, cases: Cases, parsed: seq<Op>, flags: Flags, made: Flags, text: seq<int>)
    requires Faithful(e, cases, parsed, flags, made, text) && Build(Made(cases), parsed, made).Tree?
    ensures Build(Meant(e), parsed, flags).Tree?
    ensures Finer(e.unicode, text, Build(Meant(e), parsed, flags).value, Build(Made(cases), parsed, made).value)
    decreases parsed, 1
  {
    BuildItemsFiner(e, cases, parsed, flags, made, text);
  }

  lemma {:induction false} BuildItemsFiner(
      e: Engine, cases: Cases, parsed: seq<Op>, flags: Flags, made: Flags, text: seq<int>)
    requires Faithful(e, cases, parsed, flags, made, text) && BuildItems(Made(cases), parsed, made).Tree?
    ensures BuildItems(Meant(e), parsed, flags).Tree?
    ensures AllFiner(e.unicode, text,
                     BuildItems(Meant(e), parsed, flags).value, BuildItems(Made(cases), parsed, made).value)
    decreases parsed, 0
  {
    if parsed != [] {
      BuildOpFiner(e, cases, parsed[0], flags, made, text);
      BuildItemsFiner(e, cases, parsed[1..], flags, made, text);
      var xs, ys := BuildItems(Meant(e), parsed, flags).value, BuildItems(Made(cases), parsed, made).value;
      assert xs[1..] == BuildItems(Meant(e), parsed[1..], flags).value;
      assert ys[1..] == BuildItems(Made(cases), parsed[1..], made).value;
    }
  }

  lemma {:induction false} BuildOpFiner(e: Engine, cases: Cases, op: Op, flags: Flags, made: Flags, text: seq<int>)
    requires e.Valid() && (DotAll in flags ==> DotAll in made)
    requires CoveredOp(flags, cases, op) && AlikeOp(e.cases, cases, op, text) && BuildOp(Made(cases), op, made).Tree?
    ensures BuildOp(Meant(e), op, flags).Tree?
    ensures Finer(e.unicode, text, BuildOp(Meant(e), op, flags).value, BuildOp(Made(cases), op, made).value)
    decreases op, 0
  {
    match op
    case LiteralOp(code) => LiteralFiner(e, cases, code, flags, text);
    case NotLiteralOp(code) => LiteralFiner(e, cases, code, flags, text);
    case InOp(items) => ClassFiner(e, cases, items, flags, text);
    case RepeatOp(_, _, sub) => BuildFiner(e, cases, sub, flags, made, text);
    case GroupOp(add, drop, sub) =>
      BuildFiner(e, cases, sub, Combined(flags, add, drop), made + (add * {DotAll}), text);
    case AssertOp(_, sub) =>
      BuildFiner(e, cases, sub, flags, made, text);
      SameShapes(e.unicode, text, Build(Meant(e), sub, flags).value, Build(Made(cases), sub, made).value);
    case BranchOp(subs) => BuildBranchesFiner(e, cases, subs, flags, made, text);
    case _ =>
  }

  /** A literal with its other cases under the flags, on the text. */
  lemma LiteralFiner(e: Engine, cases: Cases, code: int, flags: Flags, text: seq<int>)
    requires FoldsAlike(e.cases, cases, [Literal(code)], text)
    ensures forall k | 0 <= k < |text| ::
      text[k] in Fold(CasesUnder(flags, e.cases), code) <==> text[k] in Fold(CasesUnder(flags, cases), code)
    ensures Fold(CasesUnder(flags, cases), code) <= Fold(cases, code)
  {
    forall k | 0 <= k < |text|
      ensures text[k] in Fold(CasesUnder(flags, e.cases), code) <==> text[k] in Fold(CasesUnder(flags, cases), code)
    {
      assert ItemFoldsAlike(e.cases, cases, [Literal(code)][0], text[k]);
      FoldAlikeUnder(flags, e.cases, cases, code, text[k]);
    }
    FoldUnder(flags, cases, code);
  }

  lemma ClassFiner(e: Engine, cases: Cases, items: seq<ClassItem>, flags: Flags, text: seq<int>)
    requires e.Valid() && Covered(flags, cases, items) && FoldsAlike(e.cases, cases, items, text)
    ensures Finer(e.unicode, text, Char(Meant(e).Class(flags, items)), Char(ClassChars(cases, items)))
  {
    var v, like := e.TablesUnder(flags), e.(cases := cases);
    forall k | 0 <= k < |text| && Meant(e).Class(flags, items).Contains(e.unicode, text[k])
      ensures ClassChars(cases, items).Contains(e.unicode, text[k])
    {
      assert Meaning(v, CasesUnder(flags, e.cases), items).Contains(v, text[k]);
      MeaningIs(v, CasesUnder(flags, e.cases), items, text[k]);
      ClassAlike(v, flags, e.cases, cases, items, text, k);
      CoveredContains(like, flags, items, text[k]);
    }
  }

  lemma {:induction false} BuildBranchesFiner(
      e: Engine, cases: Cases, subs: seq<Branch>, flags: Flags, made: Flags, text: seq<int>)
    requires e.Valid() && (DotAll in flags ==> DotAll in made)
    requires CoveredBranches(flags, cases, subs) && AlikeBranches(e.cases, cases, subs, text)
    requires BuildBranches(Made(cases), subs, made).Tree?
    ensures BuildBranches(Meant(e), subs, flags).Tree?
    ensures AllFiner(e.unicode, text,
                     BuildBranches(Meant(e), subs, flags).value, BuildBranches(Made(cases), subs, made).value)
    decreases subs, 0
  {
    if subs != [] {
      BuildFiner(e, cases, subs[0].ops, flags, made, text);
      BuildBranchesFiner(e, cases, subs[1..], flags, made, text);
      var xs, ys := BuildBranches(Meant(e), subs, flags).value, BuildBranches(Made(cases), subs, made).value;
      assert xs[1..] == BuildBranches(Meant(e), subs[1..], flags).value;
      assert ys[1..] == BuildBranches(Made(cases), subs[1..], made).value;
    }
  }

  // ---------------------------------------------------------------- what users get

  /** `check_pattern` from the parse tree on; the flags are those of the pattern as a whole. */
  predicate PatternAccepted(u: Tables, cases: Cases, parsed: seq<Op>, flags: Flags) {
    Build(Made(cases), parsed, flags).Tree? && Check(u, Build(Made(cases), parsed, flags).value, TOP) == Accepted
  }

  /** The tree with the sets that the check has used. */
  function CheckedTree(cases: Cases, parsed: seq<Op>, flags: Flags): Node
    requires Build(Made(cases), parsed, flags).Tree?
  {
    Build(Made(cases), parsed, flags).value
  }

  /** The work of looking for the pattern, as `re` reads it. */
  ghost function PatternWork(e: Engine, parsed: seq<Op>, flags: Flags, text: seq<int>): nat {
    match Build(Meant(e), parsed, flags)
    case Tree(node) => SearchWork(e.unicode, text, node, 0)
    case NoTree(_) => 0
  }

  const MAX_MATCH_TEXT := 1000

  /** At most `limit` characters from the middle of the text. */
  function Clip(text: seq<int>, limit: nat): (r: seq<int>)
    ensures |r| == (if |text| <= limit then |text| else limit)
  {
    if |text| <= limit then text
    else
      var start := (|text| - limit) / 2;
      text[start..start + limit]
  }

  /** What is left is the middle of the text: as much is cut off before it as after it, or one character more after it. */
  lemma ClipIsMiddle(text: seq<int>, limit: nat) returns (before: seq<int>, after: seq<int>)
    ensures text == before + Clip(text, limit) + after && 0 <= |after| - |before| <= 1
    ensures |text| <= limit ==> before == after == []
  {
    var start := if |text| <= limit then 0 else (|text| - limit) / 2;
    before, after := text[..start], text[start + |Clip(text, limit)|..];
  }

  /**
   An accepted pattern whose classes are covered, whose characters fold on the text as they do for
   `_fold`, and whose repeats move on is looked for in a cubic number of steps in the length of the text.
   */
  lemma AcceptedPatternIsCubic(e: Engine, cases: Cases, parsed: seq<Op>, flags: Flags, text: seq<int>)
    requires Parsed(parsed) && PatternAccepted(e.unicode, cases, parsed, flags)
    requires Faithful(e, cases, parsed, flags, flags, text) && Moves(CheckedTree(cases, parsed, flags))
    ensures var n := |text| + 1;
      PatternWork(e, parsed, flags, text) <= n * (Factor(e.unicode, CheckedTree(cases, parsed, flags)) * (n * n))
  {
    var u, node := e.unicode, CheckedTree(cases, parsed, flags);
    BuildWellFormed(Made(cases), parsed, flags);
    BuildFiner(e, cases, parsed, flags, flags, text);
    FinerSearch(u, text, Build(Meant(e), parsed, flags).value, node, 0);
    AcceptedSearch(u, text, node, 0);
  }

  /**
   What users get: if no look-around of it has a choice inside either, a pattern is looked for in the
   clipped text in a number of steps that is a polynomial of its size.
   */
  lemma AcceptedPatternIsBounded(e: Engine, cases: Cases, parsed: seq<Op>, flags: Flags, text: seq<int>)
    requires Parsed(parsed) && PatternAccepted(e.unicode, cases, parsed, flags)
    requires Faithful(e, cases, parsed, flags, flags, Clip(text, MAX_MATCH_TEXT))
    requires Moves(CheckedTree(cases, parsed, flags)) && PlainLooks(e.unicode, CheckedTree(cases, parsed, flags))
    ensures var n := MAX_MATCH_TEXT + 1;
      PatternWork(e, parsed, flags, Clip(text, MAX_MATCH_TEXT))
      <= n * (2 * Fourth(Size(CheckedTree(cases, parsed, flags))) * (n * n))
  {
    var u, node, t, n := e.unicode, CheckedTree(cases, parsed, flags), Clip(text, MAX_MATCH_TEXT), MAX_MATCH_TEXT + 1;
    BuildWellFormed(Made(cases), parsed, flags);
    AcceptedPatternIsCubic(e, cases, parsed, flags, t);
    FactorFits(u, node);
    ProductMono(|t| + 1, |t| + 1, n, n);
    ProductMono(Factor(u, node), (|t| + 1) * (|t| + 1), 2 * Fourth(Size(node)), n * n);
    ProductMono(|t| + 1, Factor(u, node) * ((|t| + 1) * (|t| + 1)), n, 2 * Fourth(Size(node)) * (n * n));
  }
}
