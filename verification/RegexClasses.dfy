/**
 Character classes: `_class_chars`, what a class matches, and where the two differ.
 */
module RegexClasses {
  import opened RegexTree

  // ---------------------------------------------------------------- character classes

  datatype ClassItem =
    | Negate
    | Literal(code: int)
    | Range(low: int, high: int)
    | CategoryItem(cat: Category, isNot: bool)
    | OtherItem

  /** The other case of each code point that has one. */
  type Cases = map<int, set<int>>

  function Fold(cases: Cases, code: int): set<int> {
    {code} + (if code in cases then cases[code] else {})
  }

  function FoldRange(cases: Cases, low: int, high: int): (r: set<int>)
    decreases high - low
  {
    if low > high then {} else Fold(cases, low) + FoldRange(cases, low + 1, high)
  }

  /** What the loop of `_class_chars` has gathered, or that it gave up. */
  datatype Scan = Scan(points: set<int>, cats: set<Category>, negated: bool, flipped: nat) | GaveUp

  function ScanItem(cases: Cases, scan: Scan, item: ClassItem): Scan {
    if scan.GaveUp? then GaveUp
    else match item
      case Negate => scan.(negated := true)
      case Literal(code) => scan.(points := scan.points + Fold(cases, code))
      case Range(low, high) =>
        if high - low > MAX_RANGE then GaveUp
        else scan.(points := scan.points + FoldRange(cases, low, high))
      case CategoryItem(cat, isNot) =>
        scan.(cats := scan.cats + {cat}, flipped := scan.flipped + (if isNot then 1 else 0))
      case OtherItem => GaveUp
  }

  function ScanItems(cases: Cases, items: seq<ClassItem>): Scan {
    if items == [] then Scan({}, {}, false, 0)
    else ScanItem(cases, ScanItems(cases, items[..|items| - 1]), items[|items| - 1])
  }

  const UNKNOWN := Chars({}, {}, false, true)

  function ScanResult(scan: Scan): Chars {
    if scan.GaveUp? then UNKNOWN
    else if scan.flipped > 0 then
      if |scan.cats| != 1 || scan.points != {} then UNKNOWN
      else Chars({}, scan.cats, !scan.negated, false)
    else Chars(scan.points, scan.cats, scan.negated, false)
  }

  function ClassChars(cases: Cases, items: seq<ClassItem>): Chars {
    ScanResult(ScanItems(cases, items))
  }

  /** The loop as it is written. */
  method ClassCharsLoop(cases: Cases, items: seq<ClassItem>) returns (chars: Chars)
    ensures chars == ClassChars(cases, items)
  {
    var points: set<int>, cats: set<Category>, negated, flipped := {}, {}, false, 0;
    for k := 0 to |items|
      invariant ScanItems(cases, items[..k]) == Scan(points, cats, negated, flipped)
    {
      assert items[..k + 1][..k] == items[..k];
      assert ScanItems(cases, items[..k + 1]) == ScanItem(cases, ScanItems(cases, items[..k]), items[k]);
      match items[k]
      case Negate => negated := true;
      case Literal(code) => points := points + Fold(cases, code);
      case Range(low, high) =>
        if high - low > MAX_RANGE {
          GivenUpStays(cases, items, k + 1);
          return UNKNOWN;
        }
        points := AddRange(cases, low, high, points);
      case CategoryItem(cat, isNot) =>
        cats := cats + {cat};
        flipped := flipped + (if isNot then 1 else 0);
      case OtherItem =>
        GivenUpStays(cases, items, k + 1);
        return UNKNOWN;
    }
    assert items[..|items|] == items;
    if flipped > 0 {
      if |cats| != 1 || points != {} {
        return UNKNOWN;
      }
      negated := !negated;
    }
    chars := Chars(points, cats, negated, false);
  }

  /** The inner loop, over a range. */
  method AddRange(cases: Cases, low: int, high: int, before: set<int>) returns (points: set<int>)
    ensures points == before + FoldRange(cases, low, high)
  {
    points := before;
    var code := low;
    while code <= high
      invariant low <= code && (code <= high + 1 || high < low)
      invariant before + FoldRange(cases, low, high) == points + FoldRange(cases, code, high)
    {
      points := points + Fold(cases, code);
      code := code + 1;
    }
  }

  lemma {:induction false} GivenUpStays(cases: Cases, items: seq<ClassItem>, k: nat)
    requires k <= |items| && ScanItems(cases, items[..k]).GaveUp?
    ensures ScanItems(cases, items).GaveUp?
    decreases |items| - k
  {
    if k < |items| {
      assert items[..k + 1][..k] == items[..k];
      GivenUpStays(cases, items, k + 1);
    } else {
      assert items[..k] == items;
    }
  }

  /** What one item of a class matches. */
  ghost predicate ItemMatches(u: Tables, cases: Cases, item: ClassItem, code: int) {
    match item
    case Negate => false
    case Literal(c) => code in Fold(cases, c)
    case Range(low, high) => exists c | low <= c <= high :: code in Fold(cases, c)
    case CategoryItem(cat, isNot) => u.Is(cat, code) != isNot
    case OtherItem => false
  }

  ghost predicate SomeItemMatches(u: Tables, cases: Cases, items: seq<ClassItem>, code: int) {
    exists k :: 0 <= k < |items| && ItemMatches(u, cases, items[k], code)
  }

  /** What the class as a whole matches: with a leading `^`, all that no item matches. */
  ghost predicate ClassMatches(u: Tables, cases: Cases, items: seq<ClassItem>, code: int) {
    SomeItemMatches(u, cases, items, code) != (Negate in items)
  }

  /** An item that makes the loop give up. */
  predicate GivesUp(item: ClassItem) {
    item.OtherItem? || (item.Range? && item.high - item.low > MAX_RANGE)
  }

  /** A literal, or a range that is not empty. */
  predicate HoldsCodes(item: ClassItem) {
    item.Literal? || (item.Range? && item.low <= item.high)
  }

  /** Beside `\S` and its like there are only items of that one category. */
  predicate OneCategory(items: seq<ClassItem>) {
    && (forall i | 0 <= i < |items| :: !HoldsCodes(items[i]))
    && (forall i, j | 0 <= i < |items| && 0 <= j < |items| && items[i].CategoryItem? && items[j].CategoryItem? ::
          items[i].cat == items[j].cat)
  }

  predicate Flips(items: seq<ClassItem>) {
    exists i :: 0 <= i < |items| && items[i].CategoryItem? && items[i].isNot
  }

  /** The classes that `_class_chars` works out, told from their items. */
  predicate WorkedOut(items: seq<ClassItem>) {
    && (forall i | 0 <= i < |items| :: !GivesUp(items[i]))
    && (Flips(items) ==> OneCategory(items))
  }

  /** A category and its own complement, and nothing else that holds a character: `[\s\S]`. */
  predicate BothSigns(items: seq<ClassItem>) {
    exists cat | cat in {Digit, Space, Word} ::
      && CategoryItem(cat, true) in items && CategoryItem(cat, false) in items
      && forall i | 0 <= i < |items| :: OnlyOf(items[i], cat)
  }

  predicate OnlyOf(item: ClassItem, cat: Category) {
    item == Negate || (item.CategoryItem? && item.cat == cat) || (item.Range? && item.low > item.high)
  }

  lemma {:induction false} FoldRangeIs(cases: Cases, low: int, high: int, code: int)
    ensures code in FoldRange(cases, low, high) <==> exists c | low <= c <= high :: code in Fold(cases, c)
    decreases high - low
  {
    if low <= high {
      FoldRangeIs(cases, low + 1, high, code);
    }
  }

  /** What the loop has gathered says which of the items read so far match. */
  lemma {:induction false} ScanMeaning(u: Tables, cases: Cases, items: seq<ClassItem>, code: int)
    requires ScanItems(cases, items).Scan?
    ensures var s := ScanItems(cases, items);
      && (s.negated <==> Negate in items)
      && (s.flipped > 0 <==> exists cat :: CategoryItem(cat, true) in items)
      && (forall cat :: cat in s.cats <==> CategoryItem(cat, true) in items || CategoryItem(cat, false) in items)
      && SomeItemMatches(u, cases, items, code)
         == (code in s.points
             || (exists cat | cat in s.cats :: CategoryItem(cat, false) in items && u.Is(cat, code))
             || (exists cat | cat in s.cats :: CategoryItem(cat, true) in items && !u.Is(cat, code)))
    decreases |items|
  {
    if items != [] {
      var n := |items| - 1;
      var before := items[..n];
      ScanMeaning(u, cases, before, code);
      SomeMatchesStep(u, cases, items, code);
      LastItem(items);
      match items[n]
      case Range(low, high) => FoldRangeIs(cases, low, high, code);
      case CategoryItem(cat, isNot) => assert ItemMatches(u, cases, items[n], code) == (u.Is(cat, code) != isNot);
      case _ =>
    }
  }

  lemma LastItem(items: seq<ClassItem>)
    requires items != []
    ensures forall item :: item in items <==> item in items[..|items| - 1] || item == items[|items| - 1]
  {
    assert items == items[..|items| - 1] + [items[|items| - 1]];
  }

  lemma SomeMatchesStep(u: Tables, cases: Cases, items: seq<ClassItem>, code: int)
    requires items != []
    ensures SomeItemMatches(u, cases, items, code)
         == (SomeItemMatches(u, cases, items[..|items| - 1], code) || ItemMatches(u, cases, items[|items| - 1], code))
  {
    var n := |items| - 1;
    if SomeItemMatches(u, cases, items[..n], code) {
      var k :| 0 <= k < n && ItemMatches(u, cases, items[..n][k], code);
      assert items[k] == items[..n][k];
    }
    if SomeItemMatches(u, cases, items, code) && !ItemMatches(u, cases, items[n], code) {
      var k :| 0 <= k < |items| && ItemMatches(u, cases, items[k], code);
      assert items[..n][k] == items[k];
    }
  }

  /** When the loop gives up, and when it has gathered a code point. */
  lemma {:induction false} ScanShape(cases: Cases, items: seq<ClassItem>)
    ensures ScanItems(cases, items).GaveUp? <==> exists i :: 0 <= i < |items| && GivesUp(items[i])
    ensures ScanItems(cases, items).Scan? ==>
      (ScanItems(cases, items).points == {} <==> forall i | 0 <= i < |items| :: !HoldsCodes(items[i]))
    decreases |items|
  {
    if items != [] {
      var n := |items| - 1;
      var before, last := items[..n], items[n];
      ScanShape(cases, before);
      assert forall i | 0 <= i < n :: before[i] == items[i];
      if last.Range? && last.low <= last.high {
        assert last.low in FoldRange(cases, last.low, last.high);
      } else if last.Literal? {
        assert last.code in Fold(cases, last.code);
      }
    }
  }

  /** Whether a class is worked out can be told from its items. */
  lemma UnknownIff(cases: Cases, items: seq<ClassItem>)
    ensures ClassChars(cases, items).unknown <==> !WorkedOut(items)
  {
    ScanShape(cases, items);
    var s := ScanItems(cases, items);
    if s.Scan? {
      ScanCategories(cases, items);
      if Flips(items) && s.points == {} {
        var i :| 0 <= i < |items| && items[i].CategoryItem? && items[i].isNot;
        OneCategoryIff(items, s.cats, items[i].cat);
      }
    }
  }

  lemma ScanCategories(cases: Cases, items: seq<ClassItem>)
    requires ScanItems(cases, items).Scan?
    ensures var s := ScanItems(cases, items);
      && (s.flipped > 0 <==> Flips(items))
      && (forall cat :: cat in s.cats <==> exists i :: 0 <= i < |items| && items[i].CategoryItem? && items[i].cat == cat)
  {
    var s := ScanItems(cases, items);
    ScanMeaning(Tables({}, {}, {}), cases, items, 0);
    if cat :| CategoryItem(cat, true) in items {
      var i :| 0 <= i < |items| && items[i] == CategoryItem(cat, true);
      assert Flips(items);
    }
    if Flips(items) {
      var i :| 0 <= i < |items| && items[i].CategoryItem? && items[i].isNot;
      assert CategoryItem(items[i].cat, true) in items;
    }
    forall cat ensures cat in s.cats <==> exists i :: 0 <= i < |items| && items[i].CategoryItem? && items[i].cat == cat {
      if i :| 0 <= i < |items| && items[i].CategoryItem? && items[i].cat == cat {
        assert items[i] == CategoryItem(cat, items[i].isNot);
      }
    }
  }

  lemma OneCategoryIff(items: seq<ClassItem>, cats: set<Category>, cat: Category)
    requires cat in cats
    requires forall c :: c in cats <==> exists i :: 0 <= i < |items| && items[i].CategoryItem? && items[i].cat == c
    requires forall i | 0 <= i < |items| :: !HoldsCodes(items[i])
    ensures |cats| == 1 <==> OneCategory(items)
  {
    if |cats| == 1 {
      OnlyMember(cats, cat);
      forall i | 0 <= i < |items| && items[i].CategoryItem? ensures items[i].cat == cat {
        assert items[i].cat in cats;
      }
    }
    if OneCategory(items) {
      forall c | c in cats ensures c == cat {
        var i :| 0 <= i < |items| && items[i].CategoryItem? && items[i].cat == c;
        var j :| 0 <= j < |items| && items[j].CategoryItem? && items[j].cat == cat;
      }
      assert cats == {cat};
    }
  }

  lemma OnlyMember(cats: set<Category>, cat: Category)
    requires |cats| == 1 && cat in cats
    ensures cats == {cat}
  {
    assert |cats - {cat}| == 0;
    assert cats - {cat} == {};
  }

  // ---------------------------------------------------------------- the set and the class

  /** Unless it holds a category and its complement, a class that was worked out is exact. */
  lemma ClassCharsExact(u: Tables, cases: Cases, items: seq<ClassItem>, code: int)
    requires WorkedOut(items) && !BothSigns(items)
    ensures ClassChars(cases, items).Contains(u, code) <==> ClassMatches(u, cases, items, code)
  {
    UnknownIff(cases, items);
    ScanCategories(cases, items);
    if Flips(items) {
      FlippedExact(u, cases, items, code);
    } else {
      ScanMeaning(u, cases, items, code);
      var c := ClassChars(cases, items);
      assert c.Has(u, code) == SomeItemMatches(u, cases, items, code);
    }
  }

  /** `[\S]` is everything but `\s`. */
  lemma FlippedExact(u: Tables, cases: Cases, items: seq<ClassItem>, code: int)
    requires WorkedOut(items) && !BothSigns(items) && Flips(items)
    ensures ClassChars(cases, items).Contains(u, code) <==> ClassMatches(u, cases, items, code)
  {
    var cat := FlippedParts(cases, items);
    if CategoryItem(cat, false) in items {
      SignsOfOne(items, cat);
    }
    ScanMeaning(u, cases, items, code);
    assert ClassChars(cases, items).Has(u, code) == u.Is(cat, code);
    assert SomeItemMatches(u, cases, items, code) == !u.Is(cat, code);
  }

  /** A class with a complement in it, once worked out, is about one category. */
  lemma FlippedParts(cases: Cases, items: seq<ClassItem>) returns (cat: Category)
    requires WorkedOut(items) && Flips(items)
    ensures CategoryItem(cat, true) in items && OneCategory(items)
    ensures ScanItems(cases, items).Scan?
    ensures ScanItems(cases, items).cats == {cat} && ScanItems(cases, items).points == {}
    ensures ClassChars(cases, items) == Chars({}, {cat}, Negate !in items, false)
  {
    UnknownIff(cases, items);
    ScanShape(cases, items);
    ScanCategories(cases, items);
    ScanMeaning(Tables({}, {}, {}), cases, items, 0);
    var i :| 0 <= i < |items| && items[i].CategoryItem? && items[i].isNot;
    cat := items[i].cat;
    assert items[i] == CategoryItem(cat, true);
    OnlyMember(ScanItems(cases, items).cats, cat);
  }

  lemma SignsOfOne(items: seq<ClassItem>, cat: Category)
    requires WorkedOut(items) && CategoryItem(cat, true) in items && CategoryItem(cat, false) in items
    ensures BothSigns(items)
  {
    var i :| 0 <= i < |items| && items[i] == CategoryItem(cat, true);
    assert Flips(items);
    forall j | 0 <= j < |items| ensures OnlyOf(items[j], cat) {
      assert !GivesUp(items[j]) && !HoldsCodes(items[j]);
    }
    assert cat in {Digit, Space, Word};
  }

  lemma BothSignsParts(items: seq<ClassItem>) returns (cat: Category)
    requires BothSigns(items)
    ensures CategoryItem(cat, true) in items && CategoryItem(cat, false) in items && WorkedOut(items) && Flips(items)
  {
    cat :| cat in {Digit, Space, Word} && CategoryItem(cat, true) in items && CategoryItem(cat, false) in items
      && forall i | 0 <= i < |items| :: OnlyOf(items[i], cat);
    var k :| 0 <= k < |items| && items[k] == CategoryItem(cat, true);
    forall i | 0 <= i < |items| ensures !GivesUp(items[i]) && !HoldsCodes(items[i]) {
      assert OnlyOf(items[i], cat);
    }
    forall i, j | 0 <= i < |items| && 0 <= j < |items| && items[i].CategoryItem? && items[j].CategoryItem?
      ensures items[i].cat == items[j].cat
    {
      assert OnlyOf(items[i], cat) && OnlyOf(items[j], cat);
    }
  }

  /** There every character matches, and the set that is made leaves the category out. */
  lemma BothSignsMeaning(u: Tables, cases: Cases, items: seq<ClassItem>, cat: Category, code: int)
    requires WorkedOut(items) && CategoryItem(cat, true) in items && CategoryItem(cat, false) in items
    ensures ClassMatches(u, cases, items, code) <==> Negate !in items
    ensures ClassChars(cases, items) == Chars({}, {cat}, Negate !in items, false)
  {
    var i :| 0 <= i < |items| && items[i] == CategoryItem(cat, true);
    assert Flips(items);
    var one := FlippedParts(cases, items);
    var j :| 0 <= j < |items| && items[j] == CategoryItem(one, true);
    assert one == cat;
    ScanMeaning(u, cases, items, code);
  }

  // ---------------------------------------------------------------- the flags in force

  /** The flags that matter: `x` and `m` change no set of characters. */
  datatype Flag = IgnoreCase | Ascii | Unicode | DotAll

  type Flags = set<Flag>

  /** How the compiler of `re` changes the flags inside a group such as `(?a-i:...)`. */
  function Combined(flags: Flags, add: Flags, drop: Flags): Flags {
    (if add * {Ascii, Unicode} == {} then flags else flags - {Ascii, Unicode}) + add - drop
  }

  const ASCII_LIMIT := 128

  function AsciiCases(cases: Cases): Cases {
    map c | c in cases && c < ASCII_LIMIT :: set d | d in cases[c] && d < ASCII_LIMIT
  }

  /** The other cases that count under the flags. */
  function CasesUnder(flags: Flags, cases: Cases): Cases {
    if IgnoreCase !in flags then map[] else if Ascii in flags then AsciiCases(cases) else cases
  }

  /** What the matcher of `re` goes by: its categories, with and without the ASCII flag, and its other cases. */
  datatype Engine = Engine(unicode: Tables, ascii: Tables, cases: Cases) {
    ghost predicate Valid() {
      unicode.Valid() && ascii.digit <= unicode.digit && ascii.space <= unicode.space && ascii.word <= unicode.word
    }

    function TablesUnder(flags: Flags): Tables {
      if Ascii in flags then ascii else unicode
    }

    ghost predicate Matches(flags: Flags, items: seq<ClassItem>, code: int) {
      ClassMatches(TablesUnder(flags), CasesUnder(flags, cases), items, code)
    }
  }

  function ItemPoints(cases: Cases, item: ClassItem): set<int> {
    match item
    case Literal(code) => Fold(cases, code)
    case Range(low, high) => FoldRange(cases, low, high)
    case _ => {}
  }

  /** The characters that a class lists one by one, with their other cases. */
  function Points(cases: Cases, items: seq<ClassItem>): set<int> {
    if items == [] then {} else Points(cases, items[..|items| - 1]) + ItemPoints(cases, items[|items| - 1])
  }

  predicate HasCategory(items: seq<ClassItem>) {
    exists i :: 0 <= i < |items| && items[i].CategoryItem?
  }

  /** The classes of which `_class_chars`, which knows no flags, leaves no character out. */
  predicate Covered(flags: Flags, cases: Cases, items: seq<ClassItem>) {
    if !WorkedOut(items) then true
    else if Flips(items) then Negate in items || (Ascii !in flags && !BothSigns(items))
    else Negate in items ==>
      && (Ascii in flags ==> !HasCategory(items))
      && Points(cases, items) <= Points(CasesUnder(flags, cases), items)
  }

  lemma {:induction false} ScanPoints(cases: Cases, items: seq<ClassItem>)
    requires ScanItems(cases, items).Scan?
    ensures ScanItems(cases, items).points == Points(cases, items)
    decreases |items|
  {
    if items != [] {
      ScanPoints(cases, items[..|items| - 1]);
    }
  }

  /** Whether the loop gives up, and the categories it gathers, do not depend on cases. */
  lemma {:induction false} ScanAlike(a: Cases, b: Cases, items: seq<ClassItem>)
    ensures var s, r := ScanItems(a, items), ScanItems(b, items);
      && (s.GaveUp? <==> r.GaveUp?)
      && (s.Scan? ==> s.cats == r.cats && s.negated == r.negated && s.flipped == r.flipped)
    decreases |items|
  {
    if items != [] {
      ScanAlike(a, b, items[..|items| - 1]);
    }
  }

  lemma FoldUnder(flags: Flags, cases: Cases, code: int)
    ensures Fold(CasesUnder(flags, cases), code) <= Fold(cases, code)
  {
  }

  lemma {:induction false} FoldRangeUnder(flags: Flags, cases: Cases, low: int, high: int)
    ensures FoldRange(CasesUnder(flags, cases), low, high) <= FoldRange(cases, low, high)
    decreases high - low
  {
    if low <= high {
      FoldUnder(flags, cases, low);
      FoldRangeUnder(flags, cases, low + 1, high);
    }
  }

  lemma {:induction false} PointsUnder(flags: Flags, cases: Cases, items: seq<ClassItem>)
    ensures Points(CasesUnder(flags, cases), items) <= Points(cases, items)
    decreases |items|
  {
    if items != [] {
      var last := items[|items| - 1];
      PointsUnder(flags, cases, items[..|items| - 1]);
      match last
      case Literal(code) => FoldUnder(flags, cases, code);
      case Range(low, high) => FoldRangeUnder(flags, cases, low, high);
      case _ =>
    }
  }

  /** A class without a complement: what it matches, and the set that is made for it. */
  lemma PlainClass(v: Tables, made: Cases, under: Cases, items: seq<ClassItem>, code: int)
    requires WorkedOut(items) && !Flips(items)
    ensures ScanItems(made, items).Scan?
    ensures var cats := ScanItems(made, items).cats;
      && (cats == {} <==> !HasCategory(items))
      && ClassChars(made, items) == Chars(Points(made, items), cats, Negate in items, false)
      && (SomeItemMatches(v, under, items, code)
          <==> code in Points(under, items) || exists cat | cat in cats :: v.Is(cat, code))
  {
    ScanShape(made, items);
    ScanAlike(made, under, items);
    ScanCategories(made, items);
    ScanPoints(made, items);
    ScanPoints(under, items);
    ScanMeaning(v, under, items, code);
    PlainCategories(items, ScanItems(made, items).cats);
  }

  lemma PlainCategories(items: seq<ClassItem>, cats: set<Category>)
    requires !Flips(items)
    requires forall c :: c in cats <==> exists i :: 0 <= i < |items| && items[i].CategoryItem? && items[i].cat == c
    ensures cats == {} <==> !HasCategory(items)
    ensures forall c :: c in cats <==> CategoryItem(c, false) in items
    ensures forall c :: CategoryItem(c, true) !in items
  {
    if HasCategory(items) {
      var i :| 0 <= i < |items| && items[i].CategoryItem?;
      assert items[i].cat in cats;
    }
    forall c | c in cats ensures CategoryItem(c, false) in items {
      var i :| 0 <= i < |items| && items[i].CategoryItem? && items[i].cat == c;
      assert items[i] == CategoryItem(c, false);
    }
  }

  /** A class with a complement: it is about one category. */
  lemma FlippedClass(v: Tables, made: Cases, under: Cases, items: seq<ClassItem>, code: int) returns (cat: Category)
    requires WorkedOut(items) && Flips(items)
    ensures CategoryItem(cat, true) in items
    ensures ClassChars(made, items) == Chars({}, {cat}, Negate !in items, false)
    ensures SomeItemMatches(v, under, items, code) <==> !v.Is(cat, code) || BothSigns(items)
  {
    cat := FlippedParts(made, items);
    var other := FlippedParts(under, items);
    OneSuch(items, cat, other);
    ScanMeaning(v, under, items, code);
    if CategoryItem(cat, false) in items {
      SignsOfOne(items, cat);
    } else if BothSigns(items) {
      var both := BothSignsParts(items);
      OneSuch(items, cat, both);
    }
  }

  lemma OneSuch(items: seq<ClassItem>, a: Category, b: Category)
    requires OneCategory(items) && CategoryItem(a, true) in items && CategoryItem(b, true) in items
    ensures a == b
  {
    var i :| 0 <= i < |items| && items[i] == CategoryItem(a, true);
    var j :| 0 <= j < |items| && items[j] == CategoryItem(b, true);
    assert items[i].cat == items[j].cat;
  }

  lemma CoveredContains(e: Engine, flags: Flags, items: seq<ClassItem>, code: int)
    requires e.Valid() && Covered(flags, e.cases, items) && e.Matches(flags, items, code)
    ensures ClassChars(e.cases, items).Contains(e.unicode, code)
  {
    var v, under := e.TablesUnder(flags), CasesUnder(flags, e.cases);
    UnknownIff(e.cases, items);
    if WorkedOut(items) && Flips(items) {
      var cat := FlippedClass(v, e.cases, under, items, code);
    } else if WorkedOut(items) {
      PlainClass(v, e.cases, under, items, code);
      PointsUnder(flags, e.cases, items);
    }
  }

  const NONE := Tables({}, {}, {})

  /** Tables with one character in a category. */
  function SomeTables(cat: Category, code: int): (u: Tables)
    ensures u.Valid() && u.Is(cat, code)
  {
    if cat == Space then Tables({}, {code}, {}) else Tables({code}, {}, {code})
  }

  lemma Missing(a: set<int>, b: set<int>) returns (code: int)
    requires !(a <= b)
    ensures code in a && code !in b
  {
    if c :| c in a && c !in b {
      code := c;
    } else {
      assert forall c | c in a :: c in b;
    }
  }

  /** A class that is not covered loses a character of some alphabet. */
  lemma UncoveredLoses(flags: Flags, cases: Cases, items: seq<ClassItem>) returns (e: Engine, code: int)
    requires !Covered(flags, cases, items)
    ensures e.Valid() && e.cases == cases && e.Matches(flags, items, code)
    ensures !ClassChars(cases, items).Contains(e.unicode, code)
  {
    var under := CasesUnder(flags, cases);
    if Flips(items) {
      var cat := FlippedClass(NONE, cases, under, items, 0);
      e, code := Engine(SomeTables(cat, 0), NONE, cases), 0;
      var again := FlippedClass(e.TablesUnder(flags), cases, under, items, 0);
    } else if Ascii in flags && HasCategory(items) {
      code := Fresh(Points(under, items));
      PlainClass(NONE, cases, under, items, code);
      var cat :| cat in ScanItems(cases, items).cats;
      e := Engine(SomeTables(cat, code), NONE, cases);
    } else {
      code := Missing(Points(cases, items), Points(under, items));
      e := Engine(NONE, NONE, cases);
      PlainClass(NONE, cases, under, items, code);
    }
  }

  /**
   `_class_chars` leaves out no character that the class matches under the flags in force, whatever the
   alphabet is, except for exactly these: a category together with its complement and nothing else, not negated;
   under the ASCII flag a complement that is not negated, or a category in a negated class; and a
   negated class with a character whose other case does not count under the flags.
   */
  lemma ClassCharsCovers(flags: Flags, cases: Cases, items: seq<ClassItem>)
    ensures (forall e: Engine, code: int | e.Valid() && e.cases == cases && e.Matches(flags, items, code) ::
              ClassChars(cases, items).Contains(e.unicode, code))
       <==> Covered(flags, cases, items)
  {
    if Covered(flags, cases, items) {
      forall e: Engine, code: int | e.Valid() && e.cases == cases && e.Matches(flags, items, code)
        ensures ClassChars(cases, items).Contains(e.unicode, code)
      {
        CoveredContains(e, flags, items, code);
      }
    } else {
      var e, code := UncoveredLoses(flags, cases, items);
    }
  }

  /** Without the ASCII flag, and with case ignored, it is only the first kind. */
  lemma PlainFlagsCovered(flags: Flags, cases: Cases, items: seq<ClassItem>)
    requires Ascii !in flags && IgnoreCase in flags
    ensures Covered(flags, cases, items) <==> Negate in items || !BothSigns(items)
  {
    if BothSigns(items) {
      var cat := BothSignsParts(items);
    }
  }

  // ---------------------------------------------------------------- other cases on a text

  /** Two ways to fold agree on whether a character is another case of one that the item lists. */
  ghost predicate ItemFoldsAlike(a: Cases, b: Cases, item: ClassItem, code: int) {
    match item
    case Literal(c) => code in Fold(a, c) <==> code in Fold(b, c)
    case Range(low, high) => forall c | low <= c <= high :: code in Fold(a, c) <==> code in Fold(b, c)
    case _ => true
  }

  ghost predicate FoldsAlike(a: Cases, b: Cases, items: seq<ClassItem>, text: seq<int>) {
    forall i, k | 0 <= i < |items| && 0 <= k < |text| :: ItemFoldsAlike(a, b, items[i], text[k])
  }

  lemma FoldAlikeUnder(flags: Flags, a: Cases, b: Cases, c: int, code: int)
    requires code in Fold(a, c) <==> code in Fold(b, c)
    ensures code in Fold(CasesUnder(flags, a), c) <==> code in Fold(CasesUnder(flags, b), c)
  {
  }

  lemma ItemAlike(v: Tables, flags: Flags, a: Cases, b: Cases, item: ClassItem, code: int)
    requires ItemFoldsAlike(a, b, item, code)
    ensures ItemMatches(v, CasesUnder(flags, a), item, code) <==> ItemMatches(v, CasesUnder(flags, b), item, code)
  {
    match item
    case Literal(c) => FoldAlikeUnder(flags, a, b, c, code);
    case Range(low, high) =>
      forall c | low <= c <= high
        ensures code in Fold(CasesUnder(flags, a), c) <==> code in Fold(CasesUnder(flags, b), c)
      {
        FoldAlikeUnder(flags, a, b, c, code);
      }
    case _ =>
  }

  /** On a text where both fold alike, a class matches the same with either. */
  lemma ClassAlike(v: Tables, flags: Flags, a: Cases, b: Cases, items: seq<ClassItem>, text: seq<int>, k: nat)
    requires k < |text| && FoldsAlike(a, b, items, text)
    ensures ClassMatches(v, CasesUnder(flags, a), items, text[k]) <==> ClassMatches(v, CasesUnder(flags, b), items, text[k])
  {
    forall i | 0 <= i < |items|
      ensures ItemMatches(v, CasesUnder(flags, a), items[i], text[k])
         <==> ItemMatches(v, CasesUnder(flags, b), items[i], text[k])
    {
      ItemAlike(v, flags, a, b, items[i], text[k]);
    }
  }

  // ---------------------------------------------------------------- the set of a class

  /** Sets that list code points, or all but those. */
  predicate Listed(c: Chars) {
    c.cats == {} && !c.unknown
  }

  function Union(a: Chars, b: Chars): (r: Chars)
    requires Listed(a) && Listed(b)
    ensures Listed(r)
  {
    if a.negated && b.negated then Chars(a.points * b.points, {}, true, false)
    else if a.negated then Chars(a.points - b.points, {}, true, false)
    else if b.negated then Chars(b.points - a.points, {}, true, false)
    else Chars(a.points + b.points, {}, false, false)
  }

  lemma UnionIs(u: Tables, a: Chars, b: Chars, code: int)
    requires Listed(a) && Listed(b)
    ensures Union(a, b).Contains(u, code) <==> a.Contains(u, code) || b.Contains(u, code)
  {
  }

  function CategorySet(u: Tables, cat: Category): set<int> {
    match cat case Digit => u.digit case Space => u.space case Word => u.word
  }

  function ItemSet(u: Tables, cases: Cases, item: ClassItem): (r: Chars)
    ensures Listed(r)
  {
    match item
    case Literal(code) => Chars(Fold(cases, code), {}, false, false)
    case Range(low, high) => Chars(FoldRange(cases, low, high), {}, false, false)
    case CategoryItem(cat, isNot) => Chars(CategorySet(u, cat), {}, isNot, false)
    case _ => Chars({}, {}, false, false)
  }

  function ItemsSet(u: Tables, cases: Cases, items: seq<ClassItem>): (r: Chars)
    ensures Listed(r)
  {
    if items == [] then Chars({}, {}, false, false)
    else Union(ItemsSet(u, cases, items[..|items| - 1]), ItemSet(u, cases, items[|items| - 1]))
  }

  /** What a class matches, as a set. */
  function Meaning(u: Tables, cases: Cases, items: seq<ClassItem>): Chars {
    var s := ItemsSet(u, cases, items); s.(negated := s.negated != (Negate in items))
  }

  lemma {:induction false} ItemsSetIs(u: Tables, cases: Cases, items: seq<ClassItem>, code: int)
    ensures ItemsSet(u, cases, items).Contains(u, code) <==> SomeItemMatches(u, cases, items, code)
    decreases |items|
  {
    if items != [] {
      var n := |items| - 1;
      ItemsSetIs(u, cases, items[..n], code);
      SomeMatchesStep(u, cases, items, code);
      UnionIs(u, ItemsSet(u, cases, items[..n]), ItemSet(u, cases, items[n]), code);
      if items[n].Range? {
        FoldRangeIs(cases, items[n].low, items[n].high, code);
      }
    }
  }

  lemma MeaningIs(u: Tables, cases: Cases, items: seq<ClassItem>, code: int)
    ensures Meaning(u, cases, items).Contains(u, code) <==> ClassMatches(u, cases, items, code)
  {
    ItemsSetIs(u, cases, items, code);
  }

  /** `[\s\S]` matches a space, and the set made for it does not contain one. */
  lemma AnySpaceCollapses(u: Tables, code: int)
    requires u.Valid() && code in u.space
    ensures var items := [CategoryItem(Space, false), CategoryItem(Space, true)];
      ClassMatches(u, map[], items, code) && !ClassChars(map[], items).Contains(u, code)
  {
    var items := [CategoryItem(Space, false), CategoryItem(Space, true)];
    assert items[0] in items && items[1] in items;
    BothSignsMeaning(u, map[], items, Space, code);
  }
}
