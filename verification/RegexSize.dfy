/**
 The constant of an accepted pattern is a power of its size, unless a look-around has
 a choice inside: the bodies of look-arounds are never checked.
 */
module RegexSize {
  import opened RegexTree
  import opened RegexWays
  import opened RegexWork
  import opened RegexDead
  import opened RegexLinear
  import opened RegexCost

  /** The nodes of a pattern, with a repeat written out: the needed rounds, and one more if it may do more. */
  function Size(node: Node): nat
    decreases node, 0
  {
    match node
    case Char(_) => 1
    case Zero => 1
    case Look(body) => 1 + Size(body)
    case Behind(body) => 1 + Size(body)
    case Seq(items) => 1 + SumSize(items)
    case Alt(items) => 1 + SumSize(items)
    case Repeat(body, low, high) => 1 + Times(Rounds(low, high), Size(body))
  }

  function SumSize(items: seq<Node>): nat
    decreases items, 1
  {
    if items == [] then 0 else Size(items[0]) + SumSize(items[1..])
  }

  /** No look-around has a choice inside. */
  predicate PlainLooks(u: Tables, node: Node)
    decreases node, 0
  {
    match node
    case Look(body) => !IsChoice(u, body) && PlainLooks(u, body)
    case Behind(body) => !IsChoice(u, body) && PlainLooks(u, body)
    case Seq(items) => AllPlainLooks(u, items)
    case Alt(items) => AllPlainLooks(u, items)
    case Repeat(body, _, _) => PlainLooks(u, body)
    case _ => true
  }

  predicate AllPlainLooks(u: Tables, items: seq<Node>)
    decreases items, 1
  {
    items == [] || (PlainLooks(u, items[0]) && AllPlainLooks(u, items[1..]))
  }

  // ---------------------------------------------------------------- cost and ways

  lemma {:induction false} CostIsSize(u: Tables, node: Node)
    requires PlainLooks(u, node)
    ensures Cost(u, node) == Size(node) >= 1
    decreases node, 0
  {
    match node
    case Look(body) => CostIsSize(u, body);
    case Behind(body) => CostIsSize(u, body);
    case Seq(items) => SumIsSize(u, items);
    case Alt(items) => SumIsSize(u, items);
    case Repeat(body, _, _) => CostIsSize(u, body);
    case _ =>
  }

  lemma {:induction false} SumIsSize(u: Tables, items: seq<Node>)
    requires AllPlainLooks(u, items)
    ensures SumCost(u, items) == SumSize(items)
    decreases items, 1
  {
    if items != [] {
      CostIsSize(u, items[0]);
      SumIsSize(u, items[1..]);
    }
  }

  /** A repeat that may do a round is larger than its body. */
  lemma RepeatSize(body: Node, low: nat, high: nat)
    requires low <= high && high > 0
    ensures Size(Repeat(body, low, high)) >= 1 + Size(body)
  {
    TimesMono(1, Size(body), Rounds(low, high), Size(body));
  }

  lemma {:induction false} DeadWaysFit(node: Node)
    requires WellFormed(node)
    ensures DeadWays(node) <= Size(node)
    decreases node, 0
  {
    match node
    case Seq(items) => SeqDeadWaysFit(items);
    case Alt(items) => AltDeadWaysFit(items);
    case Repeat(body, low, high) =>
      DeadWaysFit(body);
      if high > 0 {
        RepeatSize(body, low, high);
      }
    case _ =>
  }

  lemma {:induction false} SeqDeadWaysFit(items: seq<Node>)
    requires AllWellFormed(items)
    ensures SeqDeadWays(items) <= 1 + SumSize(items)
    decreases items, 1
  {
    if items != [] {
      DeadWaysFit(items[0]);
      SeqDeadWaysFit(items[1..]);
    }
  }

  lemma {:induction false} AltDeadWaysFit(items: seq<Node>)
    requires AllWellFormed(items)
    ensures AltDeadWays(items) <= SumSize(items)
    decreases items, 1
  {
    if items != [] {
      DeadWaysFit(items[0]);
      AltDeadWaysFit(items[1..]);
    }
  }

  // ---------------------------------------------------------------- powers

  function Square(s: nat): nat { s * s }
  function Cube(s: nat): nat { s * Square(s) }
  function Fourth(s: nat): nat { s * Cube(s) }

  lemma ProductMono(a: nat, b: nat, c: nat, d: nat)
    requires a <= c && b <= d
    ensures 0 <= a * b <= c * d
  {
    assert c * d - a * b == c * (d - b) + (c - a) * b;
    assert c * (d - b) >= 0 && (c - a) * b >= 0;
  }

  lemma PowersMono(a: nat, b: nat)
    requires a <= b
    ensures Square(a) <= Square(b) && Cube(a) <= Cube(b) && Fourth(a) <= Fourth(b)
  {
    ProductMono(a, a, b, b);
    ProductMono(a, Square(a), b, Square(b));
    ProductMono(a, Cube(a), b, Cube(b));
  }

  lemma PowersRise(a: nat)
    ensures a <= Square(a) <= Cube(a) <= Fourth(a)
  {
    if a > 0 {
      ProductMono(1, a, a, a);
      ProductMono(1, Square(a), a, Square(a));
      ProductMono(1, Cube(a), a, Cube(a));
    }
  }

  lemma SquareOfSum(a: nat, b: nat)
    ensures Square(a + b) == Square(a) + Square(b) + 2 * (a * b)
  {
  }

  lemma CubeOfSum(a: nat, b: nat)
    ensures Cube(a + b) == Cube(a) + Cube(b) + 3 * (Square(a) * b) + 3 * (a * Square(b))
  {
    SquareOfSum(a, b);
    assert a * (a * b) == Square(a) * b && b * (a * b) == a * Square(b);
    assert (a + b) * (Square(a) + Square(b) + 2 * (a * b))
        == a * Square(a) + b * Square(a) + a * Square(b) + b * Square(b) + 2 * (a * (a * b)) + 2 * (b * (a * b));
  }

  lemma FourthOfSum(a: nat, b: nat)
    ensures Fourth(a + b) >= Fourth(a) + Fourth(b) + Square(a) * b * b + b * Cube(a)
  {
    CubeOfSum(a, b);
    var x, y := Square(a) * b, a * Square(b);
    Distribute(a, Cube(a), Cube(b), x, y);
    Distribute(b, Cube(a), Cube(b), x, y);
    Distribute2(a, b, Cube(a + b));
    ProductMono(0, 0, a, Cube(b));
    ProductMono(0, 0, a, x);
    ProductMono(0, 0, a, y);
    ProductMono(0, 0, b, y);
    assert b * x == Square(a) * b * b;
    ProductMono(0, 0, b, x);
  }

  lemma Distribute(a: nat, c: nat, d: nat, x: nat, y: nat)
    ensures a * (c + d + 3 * x + 3 * y) == a * c + a * d + 3 * (a * x) + 3 * (a * y)
  {
  }

  lemma Distribute2(a: nat, b: nat, c: nat)
    ensures (a + b) * c == a * c + b * c
  {
  }

  // ---------------------------------------------------------------- dead places: the square of the size

  lemma {:induction false} DeadCostFits(u: Tables, node: Node)
    requires WellFormed(node) && PlainLooks(u, node)
    ensures DeadCost(u, node) <= Square(Size(node))
    decreases node, 0
  {
    CostIsSize(u, node);
    PowersRise(Size(node));
    match node
    case Seq(items) =>
      SeqDeadCostFits(u, items);
      SquareOfSum(1, SumSize(items));
    case Alt(items) =>
      AltDeadCostFits(u, items);
      SquareOfSum(1, SumSize(items));
    case Repeat(body, low, high) =>
      DeadCostFits(u, body);
      if high == 1 {
        RepeatSize(body, low, high);
        SquareOfSum(1, Size(body));
        SquareStep(Size(body), Size(node));
      }
    case _ =>
  }

  lemma SquareStep(b: nat, s: nat)
    requires 1 + b <= s
    ensures s + Square(b) <= Square(s)
  {
    ProductMono(1 + b, s, s, s);
    ProductMono(b, b, b, s);
  }

  lemma {:induction false} AltDeadCostFits(u: Tables, items: seq<Node>)
    requires AllWellFormed(items) && AllPlainLooks(u, items)
    ensures AltDeadCost(u, items) <= Square(SumSize(items))
    decreases items, 1
  {
    if items != [] {
      DeadCostFits(u, items[0]);
      AltDeadCostFits(u, items[1..]);
      SquareOfSum(Size(items[0]), SumSize(items[1..]));
    }
  }

  lemma {:induction false} SeqDeadCostFits(u: Tables, items: seq<Node>)
    requires AllWellFormed(items) && AllPlainLooks(u, items)
    ensures SeqDeadCost(u, items) <= Square(SumSize(items)) + SumSize(items)
    decreases items, 1
  {
    if items != [] {
      var x, s := Size(items[0]), SumSize(items[1..]);
      CostIsSize(u, items[0]);
      SumIsSize(u, items[1..]);
      DeadCostFits(u, items[0]);
      SeqDeadCostFits(u, items[1..]);
      DeadWaysFit(items[0]);
      TimesMono(DeadWays(items[0]), s, x, s);
      TimesIsProduct(x, s);
      SquareOfSum(x, s);
    }
  }

  // ---------------------------------------------------------------- ways: the square of the size

  lemma {:induction false} LineFactorFits(node: Node)
    requires WellFormed(node)
    ensures 1 <= Size(node) && LineFactor(node) <= Square(Size(node))
    decreases node, 0
  {
    PowersRise(Size(node));
    match node
    case Seq(items) =>
      SeqLineFactorFits(items);
      SquareOfSum(1, SumSize(items));
    case Alt(items) =>
      AltLineFactorFits(items);
      SquareOfSum(1, SumSize(items));
    case Repeat(body, low, high) =>
      LineFactorFits(body);
      if high > 0 {
        RepeatSize(body, low, high);
        SquareStep(Size(body), Size(node));
      }
    case _ =>
  }

  lemma {:induction false} AltLineFactorFits(items: seq<Node>)
    requires AllWellFormed(items)
    ensures AltLineFactor(items) <= Square(SumSize(items))
    decreases items, 1
  {
    if items != [] {
      LineFactorFits(items[0]);
      AltLineFactorFits(items[1..]);
      SquareOfSum(Size(items[0]), SumSize(items[1..]));
    }
  }

  lemma {:induction false} SeqLineFactorFits(items: seq<Node>)
    requires AllWellFormed(items)
    ensures SeqLineFactor(items) <= 1 + SumSize(items) + Square(SumSize(items))
    decreases items, 1
  {
    if items != [] {
      var x, s := Size(items[0]), SumSize(items[1..]);
      LineFactorFits(items[0]);
      SeqLineFactorFits(items[1..]);
      SeqDeadWaysFit(items[1..]);
      SquareOfSum(x, s);
      ProductMono(1, s, x, s);
    }
  }

  /** What is left after the last choice of a sequence. */
  lemma EndFactorFits(u: Tables, items: seq<Node>)
    requires AllWellFormed(items) && AllPlainLooks(u, items) && items != []
    ensures Times(LineFactor(items[0]), SumCost(u, items[1..])) <= Square(Size(items[0])) * SumSize(items[1..])
  {
    var x, s := Square(Size(items[0])), SumSize(items[1..]);
    LineFactorFits(items[0]);
    SumIsSize(u, items[1..]);
    TimesMono(LineFactor(items[0]), s, x, s);
    TimesIsProduct(x, s);
  }

  // ---------------------------------------------------------------- the base: the cube of the size

  lemma {:induction false} BaseFits(u: Tables, node: Node)
    requires WellFormed(node) && PlainLooks(u, node)
    ensures Base(u, node) <= Cube(Size(node))
    decreases node, 0
  {
    CostIsSize(u, node);
    PowersRise(Size(node));
    match node
    case Seq(items) =>
      SeqBaseFits(u, items);
      CubeOfSum(1, SumSize(items));
    case Alt(items) =>
      AltBaseFits(u, items);
      CubeOfSum(1, SumSize(items));
    case Repeat(body, low, high) =>
      BaseFits(u, body);
      CostIsSize(u, body);
      if high == 1 {
        RepeatSize(body, low, high);
        CubeStep(Size(body), Size(node));
      } else {
        RoundsFit(u, body, low, high);
      }
    case _ =>
  }

  lemma CubeStep(b: nat, s: nat)
    requires 1 + b <= s
    ensures s + Cube(b) <= Cube(s)
  {
    var m := s - 1;
    PowersMono(b, m);
    CubeOfSum(m, 1);
    PowersRise(m);
  }

  lemma RoundsFit(u: Tables, body: Node, low: nat, high: nat)
    requires low <= high && Base(u, body) <= Cube(Size(body)) && Cost(u, body) == Size(body) >= 1
    ensures Size(Repeat(body, low, high)) + Times(low, Base(u, body) + RoundsCost(u, body, low, high))
         <= Cube(Size(Repeat(body, low, high)))
  {
    var r, b := Rounds(low, high), Size(body);
    TimesIsProduct(r, b);
    TimesIsProduct(low, Base(u, body) + r * b);
    ProductMono(low, Base(u, body) + r * b, r, Cube(b) + r * b);
    RoundsStep(r, b, r * b);
  }

  lemma RoundsStep(r: nat, b: nat, m: nat)
    requires m == r * b && b >= 1
    ensures 1 + m + r * (Cube(b) + m) <= Cube(1 + m)
  {
    CubeOfSum(1, m);
    ProductMono(r, 1, r, b);
    ProductMono(r, m, m, m);
    CubeOfProduct(r, b);
    SumTimes(r, Cube(b), m);
  }

  lemma SumTimes(r: nat, x: nat, y: nat)
    ensures r * (x + y) == r * x + r * y
  {
  }

  lemma CubeOfProduct(r: nat, b: nat)
    ensures r * Cube(b) <= Cube(r * b)
  {
    PowersRise(r);
    ProductMono(r, Cube(b), Cube(r), Cube(b));
    Swapped(r, b, r, b);
    Swapped(r, b, Square(r), Square(b));
  }

  lemma Swapped(a: nat, b: nat, c: nat, d: nat)
    ensures (a * b) * (c * d) == (a * c) * (b * d)
  {
    var e := c * d;
    assert (a * b) * e == a * (b * e);
    assert b * e == c * (b * d);
    assert a * (c * (b * d)) == (a * c) * (b * d);
  }

  lemma {:induction false} AltBaseFits(u: Tables, items: seq<Node>)
    requires AllWellFormed(items) && AllPlainLooks(u, items)
    ensures AltBase(u, items) <= Cube(SumSize(items)) + SumSize(items)
    decreases items, 1
  {
    if items != [] {
      CostIsSize(u, items[0]);
      BaseFits(u, items[0]);
      AltBaseFits(u, items[1..]);
      CubeAdd(Size(items[0]), SumSize(items[1..]));
    }
  }

  lemma CubeAdd(x: nat, s: nat)
    ensures Cube(x) + Cube(s) <= Cube(x + s)
  {
    CubeOfSum(x, s);
    ProductMono(0, 0, Square(x), s);
    ProductMono(0, 0, x, Square(s));
  }

  lemma {:induction false} SeqBaseFits(u: Tables, items: seq<Node>)
    requires AllWellFormed(items) && AllPlainLooks(u, items)
    ensures SeqBase(u, items) <= Cube(SumSize(items))
    decreases items, 1
  {
    if items != [] {
      CostIsSize(u, items[0]);
      BaseFits(u, items[0]);
      SeqBaseFits(u, items[1..]);
      SeqDeadCostFits(u, items[1..]);
      EndFactorFits(u, items);
      CubeSum(Size(items[0]), SumSize(items[1..]));
    }
  }

  lemma CubeSum(x: nat, s: nat)
    requires x >= 1
    ensures Cube(x) + Cube(s) + (Square(s) + s) + Square(x) * s <= Cube(x + s)
  {
    CubeOfSum(x, s);
    PowersRise(x);
    ProductMono(1, Square(s), x, Square(s));
    ProductMono(1, s, Square(x), s);
  }

  // ---------------------------------------------------------------- the slope: the fourth power of the size

  lemma {:induction false} SlopeFits(u: Tables, node: Node)
    requires WellFormed(node) && PlainLooks(u, node)
    ensures Slope(u, node) <= Fourth(Size(node))
    decreases node, 0
  {
    match node
    case Seq(items) =>
      SeqSlopeFits(u, items);
      PowersMono(SumSize(items), Size(node));
    case Alt(items) =>
      AltSlopeFits(u, items);
      PowersMono(SumSize(items), Size(node));
    case Repeat(body, low, high) =>
      SlopeFits(u, body);
      BaseFits(u, body);
      CostIsSize(u, node);
      if high > 0 {
        RepeatSize(body, low, high);
        SlopeStep(Size(body), Size(node));
      }
    case _ =>
  }

  lemma SlopeStep(b: nat, s: nat)
    requires 1 + b <= s
    ensures Fourth(b) + Cube(b) + s <= Fourth(s)
  {
    var m := s - 1;
    PowersMono(b, m);
    FourthOfSum(m, 1);
    PowersRise(m);
  }

  lemma {:induction false} AltSlopeFits(u: Tables, items: seq<Node>)
    requires AllWellFormed(items) && AllPlainLooks(u, items)
    ensures AltSlope(u, items) <= Fourth(SumSize(items))
    decreases items, 1
  {
    if items != [] {
      SlopeFits(u, items[0]);
      AltSlopeFits(u, items[1..]);
      FourthAdd(Size(items[0]), SumSize(items[1..]));
    }
  }

  lemma FourthAdd(x: nat, s: nat)
    ensures Fourth(x) + Fourth(s) <= Fourth(x + s)
  {
    FourthOfSum(x, s);
    ProductMono(0, 0, Square(x) * s, s);
    ProductMono(0, 0, s, Cube(x));
  }

  lemma {:induction false} SeqSlopeFits(u: Tables, items: seq<Node>)
    requires AllWellFormed(items) && AllPlainLooks(u, items)
    ensures SeqSlope(u, items) <= Fourth(SumSize(items))
    decreases items, 1
  {
    if items != [] {
      CostIsSize(u, items[0]);
      SlopeFits(u, items[0]);
      SeqSlopeFits(u, items[1..]);
      EndFactorFits(u, items);
      FourthSum(Size(items[0]), SumSize(items[1..]));
    }
  }

  lemma FourthSum(x: nat, s: nat)
    requires x >= 1
    ensures Fourth(x) + Fourth(s) + Square(x) * s <= Fourth(x + s)
  {
    FourthOfSum(x, s);
    PowersRise(x);
    ProductMono(s, Square(x), s, Cube(x));
    ProductMono(0, 0, Square(x) * s, s);
  }

  // ---------------------------------------------------------------- no blow-up

  /** The constant of a pattern whose look-arounds hold no choice is at most twice the fourth power of its size. */
  lemma FactorFits(u: Tables, node: Node)
    requires WellFormed(node) && PlainLooks(u, node)
    ensures Factor(u, node) <= 2 * Fourth(Size(node))
  {
    SlopeFits(u, node);
    BaseFits(u, node);
    PowersRise(Size(node));
  }

  /**
   No blow-up: an accepted pattern whose look-arounds hold no choice is explored from one
   place in a number of steps that is a polynomial of its size and of the length of the text.
   */
  lemma AcceptedIsPolynomial(u: Tables, t: seq<int>, node: Node, i: nat)
    requires u.Valid() && i <= |t| && WellFormed(node) && Moves(node) && Check(u, node, TOP) == Accepted
    requires PlainLooks(u, node)
    ensures Work(u, t, node, i) <= 2 * Fourth(Size(node)) * ((|t| + 1) * (|t| + 1))
  {
    AcceptedIsQuadratic(u, t, node, i);
    FactorFits(u, node);
    ProductMono(Factor(u, node), (|t| + 1) * (|t| + 1), 2 * Fourth(Size(node)), (|t| + 1) * (|t| + 1));
  }
}
