/**
 Which patterns a tree is built for, which sets stand in it, and so which patterns are accepted.
 */
module RegexBuildExact {
  import opened RegexTree
  import opened RegexClasses
  import opened RegexBuild
  import opened RegexExact

  // ---------------------------------------------------------------- what is never accepted

  /** Something of the pattern can be repeated more or less often, look-behinds aside. */
  predicate Varies(parsed: seq<Op>)
    decreases parsed, 1
  {
    parsed != [] && (VariesOp(parsed[0]) || Varies(parsed[1..]))
  }

  predicate VariesOp(op: Op)
    decreases op, 0
  {
    match op
    case RepeatOp(low, high, sub) => low != high || Varies(sub)
    case GroupOp(_, _, sub) => Varies(sub)
    case BranchOp(subs) => VariesSome(subs)
    case AssertOp(ahead, sub) => ahead && Varies(sub)
    case _ => false
  }

  predicate VariesSome(subs: seq<Branch>)
    decreases subs, 0
  {
    subs != [] && (Varies(subs[0].ops) || VariesSome(subs[1..]))
  }

  /** No back-reference, no unknown construct, and nothing that varies in a look-around. */
  predicate Buildable(parsed: seq<Op>)
    decreases parsed, 1
  {
    parsed == [] || (BuildableOp(parsed[0]) && Buildable(parsed[1..]))
  }

  predicate BuildableOp(op: Op)
    decreases op, 0
  {
    match op
    case RepeatOp(_, _, sub) => Buildable(sub)
    case GroupOp(_, _, sub) => Buildable(sub)
    case BranchOp(subs) => BuildableAll(subs)
    case AssertOp(_, sub) => Buildable(sub) && !Varies(sub)
    case BackReferenceOp => false
    case OtherOp => false
    case _ => true
  }

  predicate BuildableAll(subs: seq<Branch>)
    decreases subs, 0
  {
    subs == [] || (Buildable(subs[0].ops) && BuildableAll(subs[1..]))
  }

  /** A tree is built for exactly these, and it has a variable repeat when the pattern varies. */
  lemma {:induction false} BuiltIff(of: Reading, parsed: seq<Op>, flags: Flags)
    ensures Build(of, parsed, flags).Tree? <==> Buildable(parsed)
    ensures Buildable(parsed) ==> (HasVariableRepeat(Build(of, parsed, flags).value) <==> Varies(parsed))
    decreases parsed, 1
  {
    if parsed != [] {
      OpBuiltIff(of, parsed[0], flags);
      BuiltIff(of, parsed[1..], flags);
      if Buildable(parsed) {
        var items := BuildItems(of, parsed, flags).value;
        assert items[0] == BuildOp(of, parsed[0], flags).value && items[1..] == BuildItems(of, parsed[1..], flags).value;
      }
    }
  }

  lemma {:induction false} OpBuiltIff(of: Reading, op: Op, flags: Flags)
    ensures BuildOp(of, op, flags).Tree? <==> BuildableOp(op)
    ensures BuildableOp(op) ==> (HasVariableRepeat(BuildOp(of, op, flags).value) <==> VariesOp(op))
    decreases op, 0
  {
    match op
    case RepeatOp(_, _, sub) => BuiltIff(of, sub, flags);
    case GroupOp(add, drop, sub) => BuiltIff(of, sub, of.Inside(flags, add, drop));
    case AssertOp(_, sub) => BuiltIff(of, sub, flags);
    case BranchOp(subs) => BranchesBuiltIff(of, subs, flags);
    case _ =>
  }

  lemma {:induction false} BranchesBuiltIff(of: Reading, subs: seq<Branch>, flags: Flags)
    ensures BuildBranches(of, subs, flags).Tree? <==> BuildableAll(subs)
    ensures BuildableAll(subs) ==> (AnyVariableRepeat(BuildBranches(of, subs, flags).value) <==> VariesSome(subs))
    decreases subs, 0
  {
    if subs != [] {
      BuiltIff(of, subs[0].ops, flags);
      BranchesBuiltIff(of, subs[1..], flags);
      if BuildableAll(subs) {
        var all := BuildBranches(of, subs, flags).value;
        assert all[0] == Build(of, subs[0].ops, flags).value && all[1..] == BuildBranches(of, subs[1..], flags).value;
      }
    }
  }

  // ---------------------------------------------------------------- the sets of the tree

  /** The character matches the item of a pattern, in either of its cases. */
  ghost predicate TakenBy(u: Tables, cases: Cases, op: Op, flags: Flags, code: int) {
    match op
    case LiteralOp(c) => code == c || IsCaseOf(cases, c, code)
    case NotLiteralOp(c) => code != c && !IsCaseOf(cases, c, code)
    case AnyOp => DotAll in flags || code != 10
    case InOp(items) => ClassMatches(u, cases, items, code)
    case _ => false
  }

  predicate IsCaseOf(cases: Cases, c: int, code: int) {
    c in cases && code in cases[c]
  }

  /** Where the set was worked out and no class has both signs, it holds what the item takes and nothing else. */
  lemma SetIsExact(u: Tables, cases: Cases, op: Op, flags: Flags, code: int)
    requires op.LiteralOp? || op.NotLiteralOp? || op.AnyOp? || op.InOp?
    requires op.InOp? ==> WorkedOut(op.class_) && !BothSigns(op.class_)
    ensures var built := BuildOp(Made(cases), op, flags);
      && built.Tree? && built.value.Char?
      && (built.value.chars.Contains(u, code) <==> TakenBy(u, cases, op, flags, code))
  {
    if op.InOp? {
      ClassCharsExact(u, cases, op.class_, code);
    }
  }

  // ---------------------------------------------------------------- what users may store

  ghost predicate IsSeparated(u: Tables, built: Built<Node>) {
    built.Tree? && Separated(u, built.value, End)
  }

  /** A pattern is accepted if and only if a tree is built for it and the tree is separated, up to its end. */
  lemma PatternAcceptedIff(u: Tables, cases: Cases, parsed: seq<Op>, flags: Flags)
    requires u.Valid()
    ensures Buildable(parsed) <==> Build(Made(cases), parsed, flags).Tree?
    ensures PatternAccepted(u, cases, parsed, flags)
       <==> IsSeparated(u, Build(Made(cases), parsed, flags))
  {
    BuiltIff(Made(cases), parsed, flags);
    if Buildable(parsed) {
      AcceptedIff(u, CheckedTree(cases, parsed, flags));
    }
  }
}
