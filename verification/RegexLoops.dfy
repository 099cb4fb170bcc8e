/** The analyses that regex_safety.py writes as loops, proved to compute what RegexTree says. */
module RegexLoops {
  import opened RegexTree

  /** The list that `_prefix` fills. */
  class CharList {
    var items: seq<Chars>

    constructor ()
      ensures items == []
    {
      items := [];
    }
  }

  /** `_prefix`: fills `out` in place. */
  method CollectPrefix(node: Node, out: CharList) returns (full: bool)
    modifies out
    ensures (out.items, full) == Prefix(node, old(out.items))
    decreases node
  {
    if |out.items| >= MAX_PREFIX {
      return false;
    }
    match node
    case Char(chars) =>
      out.items := out.items + [chars];
      full := true;
    case Zero =>
      full := true;
    case Behind(_) =>
      full := true;
    case Seq(items) =>
      for k := 0 to |items|
        invariant PrefixAll(items[k..], out.items) == PrefixAll(items, old(out.items))
      {
        assert items[k..][1..] == items[k + 1..];
        full := CollectPrefix(items[k], out);
        if !full {
          return;
        }
      }
      full := true;
    case Repeat(body, low, high) =>
      if low == high && body.Seq? && |body.items| == 1 && body.items[0].Char? && low <= MAX_PREFIX {
        out.items := out.items + Copies(body.items[0].chars, low);
        return true;
      }
      full := false;
    case _ =>
      full := false;
  }

  method DeterministicLoop(u: Tables, branches: seq<Node>) returns (yes: bool)
    ensures yes == Deterministic(u, branches)
  {
    var firsts: seq<seq<Chars>>, prefixes: seq<seq<Chars>> := [], [];
    for k := 0 to |branches|
      invariant |firsts| == |prefixes| == k
      invariant forall i | 0 <= i < k :: !Nullable(branches[i])
      invariant forall i | 0 <= i < k :: firsts[i] == First(branches[i]) && prefixes[i] == Prefix(branches[i], []).0
    {
      if Nullable(branches[k]) {
        return false;
      }
      firsts := firsts + [First(branches[k])];
      var prefix := new CharList();
      var full := CollectPrefix(branches[k], prefix);
      prefixes := prefixes + [prefix.items];
    }
    for i := 0 to |branches|
      invariant forall a, b | 0 <= a < i && a < b < |branches| :: Excludes(u, branches[a], branches[b])
    {
      for j := i + 1 to |branches|
        invariant forall b | i < b < j :: Excludes(u, branches[i], branches[b])
      {
        if Disjoint(u, firsts[i], firsts[j]) {
          continue;
        }
        var apart := SomePairApart(u, prefixes[i], prefixes[j]);
        if !apart {
          return false;
        }
      }
    }
    yes := true;
  }

  /** `any(_disjoint_pair(a, b) for a, b in zip(p, q))` */
  method SomePairApart(u: Tables, p: seq<Chars>, q: seq<Chars>) returns (apart: bool)
    ensures apart <==> exists k | 0 <= k < |p| && k < |q| :: DisjointPair(u, p[k], q[k])
  {
    var k := 0;
    while k < |p| && k < |q|
      invariant 0 <= k <= |p| && k <= |q|
      invariant forall m | 0 <= m < k :: !DisjointPair(u, p[m], q[m])
    {
      if DisjointPair(u, p[k], q[k]) {
        return true;
      }
      k := k + 1;
    }
    apart := false;
  }

  method FollowOfLoop(u: Tables, rest: seq<Node>, follow: Follow) returns (next: Follow)
    ensures next == FollowOf(u, rest, follow)
  {
    var first, nullable := FirstOfRest(rest);
    if nullable {
      first := first + follow.first;
    }
    var choice := ChoiceInRest(u, rest, follow);
    next := Follow(first, choice, follow.end && rest == []);
  }

  /** The first loop of `_follow_of`. */
  method FirstOfRest(rest: seq<Node>) returns (first: seq<Chars>, nullable: bool)
    ensures first == SeqFirst(rest) && nullable == AllNullable(rest)
  {
    first, nullable := [], true;
    for k := 0 to |rest|
      invariant nullable && SeqFirst(rest) == first + SeqFirst(rest[k..]) && AllNullable(rest) == AllNullable(rest[k..])
    {
      assert rest[k..][1..] == rest[k + 1..];
      first := first + First(rest[k]);
      if !Nullable(rest[k]) {
        nullable := false;
        break;
      }
    }
  }

  /** The second loop of `_follow_of`. */
  method ChoiceInRest(u: Tables, rest: seq<Node>, follow: Follow) returns (choice: bool)
    ensures choice == (follow.choice || LaterChoice(u, rest, follow.end))
  {
    choice := follow.choice;
    for index := 0 to |rest|
      invariant (follow.choice || LaterChoice(u, rest, follow.end)) == (choice || LaterChoice(u, rest[index..], follow.end))
    {
      if choice {
        break;
      }
      assert rest[index..][1..] == rest[index + 1..];
      if IsChoice(u, rest[index]) {
        var last := index == |rest| - 1 && follow.end;
        choice := !(last && SimpleLast(u, rest[index]));
      }
    }
  }
}
