/**
 `find_matches` of quick_scan.py: the first occurrence of each variant in a page, with the
 text around it.
 */
module PageMatches {

  const CONTEXT_SIDE := 100

  datatype Match = Match(variant: string, context: string, highSignal: bool)

  /** What `str.lower` makes of one character: at times more than one. */
  type Lowering = char -> string

  function Lower(low: Lowering, s: string): string {
    if s == "" then "" else low(s[0]) + Lower(low, s[1..])
  }

  predicate OccursAt(haystack: string, needle: string, at: int) {
    0 <= at && at + |needle| <= |haystack| && haystack[at..at + |needle|] == needle
  }

  predicate Occurs(haystack: string, needle: string) {
    exists at :: 0 <= at <= |haystack| && OccursAt(haystack, needle, at)
  }

  /** `str.find`: the first occurrence, or -1. */
  method Find(haystack: string, needle: string) returns (at: int)
    ensures at == -1 <==> !Occurs(haystack, needle)
    ensures at != -1 ==> OccursAt(haystack, needle, at) && forall k | 0 <= k < at :: !OccursAt(haystack, needle, k)
  {
    at := 0;
    while at + |needle| <= |haystack|
      invariant 0 <= at <= |haystack| + 1
      invariant forall k | 0 <= k < at :: !OccursAt(haystack, needle, k)
    {
      if OccursAt(haystack, needle, at) {
        return;
      }
      at := at + 1;
    }
    at := -1;
  }

  function ExtractContext(text: string, start: nat, end: nat): string {
    var lo := if start > CONTEXT_SIDE then start - CONTEXT_SIDE else 0;
    var hi := if end + CONTEXT_SIDE < |text| then end + CONTEXT_SIDE else |text|;
    if lo <= hi then text[lo..hi] else ""
  }

  function Side(room: int): int {
    if room < CONTEXT_SIDE then room else CONTEXT_SIDE
  }

  /** For a place on the page: up to 100 characters before it, the place, and up to 100 after it, fewer only at its ends. */
  lemma WindowIsAround(text: string, start: nat, end: nat) returns (front: string, a: string, b: string, back: string)
    requires start <= end <= |text|
    ensures ExtractContext(text, start, end) == a + text[start..end] + b
    ensures text[..start] == front + a && text[end..] == b + back
    ensures |a| == Side(start) && |b| == Side(|text| - end)
  {
    var lo, hi := start - Side(start), end + Side(|text| - end);
    front, a := text[0..lo], text[lo..start];
    b, back := text[end..hi], text[hi..|text|];
    InTwo(text, 0, lo, start);
    InTwo(text, lo, end, hi);
    InTwo(text, lo, start, end);
    InTwo(text, end, hi, |text|);
  }

  lemma InTwo(text: string, a: nat, b: nat, c: nat)
    requires a <= b <= c <= |text|
    ensures text[a..c] == text[a..b] + text[b..c]
  {
  }

  const HIGH_SIGNAL_KEYWORDS :=
    ["leaked", "leak", "dump", "combo", "credentials", "database", "breach", "hacked", "for sale", "selling", "buy"]

  predicate IsHighSignal(low: Lowering, context: string) {
    exists k :: 0 <= k < |HIGH_SIGNAL_KEYWORDS| && Occurs(Lower(low, context), HIGH_SIGNAL_KEYWORDS[k])
  }

  /** A keyword anywhere in the context, however it is written, makes the match one of high signal. */
  lemma KeywordIsSignal(low: Lowering, before: string, word: string, after: string, k: nat)
    requires k < |HIGH_SIGNAL_KEYWORDS| && Lower(low, word) == HIGH_SIGNAL_KEYWORDS[k]
    ensures IsHighSignal(low, before + word + after)
  {
    LowerAppend(low, before + word, after);
    LowerAppend(low, before, word);
    var lowered, keyword := Lower(low, before + word + after), HIGH_SIGNAL_KEYWORDS[k];
    assert lowered == Lower(low, before) + keyword + Lower(low, after);
    assert OccursAt(lowered, keyword, |Lower(low, before)|);
  }

  /** Nothing else does: a context of high signal has a keyword between two parts once it is lowered. */
  lemma SignalHasKeyword(low: Lowering, context: string) returns (before: string, k: nat, after: string)
    requires IsHighSignal(low, context)
    ensures k < |HIGH_SIGNAL_KEYWORDS| && Lower(low, context) == before + HIGH_SIGNAL_KEYWORDS[k] + after
    ensures context != ""
  {
    k :| k < |HIGH_SIGNAL_KEYWORDS| && Occurs(Lower(low, context), HIGH_SIGNAL_KEYWORDS[k]);
    var lowered, keyword := Lower(low, context), HIGH_SIGNAL_KEYWORDS[k];
    before, after := OccursBetween(lowered, keyword);
    assert keyword != "";
  }

  lemma OccursBetween(haystack: string, needle: string) returns (before: string, after: string)
    requires Occurs(haystack, needle)
    ensures haystack == before + needle + after
  {
    var at :| 0 <= at <= |haystack| && OccursAt(haystack, needle, at);
    before, after := haystack[..at], haystack[at + |needle|..];
  }

  predicate Sought(low: Lowering, text: string, variant: string) {
    variant != "" && Occurs(Lower(low, text), Lower(low, variant))
  }

  /** The variants that the page has, in their order. */
  function Present(low: Lowering, text: string, variants: seq<string>): seq<string> {
    if variants == [] then []
    else
      var n := |variants| - 1;
      Present(low, text, variants[..n]) + (if Sought(low, text, variants[n]) then [variants[n]] else [])
  }

  /** The window around the first occurrence. */
  predicate IsMatchAt(low: Lowering, text: string, m: Match, at: nat) {
    && OccursAt(Lower(low, text), Lower(low, m.variant), at)
    && (forall k | 0 <= k < at :: !OccursAt(Lower(low, text), Lower(low, m.variant), k))
    && m.context == ExtractContext(text, at, at + |m.variant|)
    && m.highSignal == IsHighSignal(low, m.context)
  }

  ghost predicate IsMatch(low: Lowering, text: string, m: Match) {
    exists at: nat :: IsMatchAt(low, text, m, at)
  }

  lemma PresentAppend(low: Lowering, text: string, variants: seq<string>, variant: string)
    ensures Present(low, text, variants + [variant])
         == Present(low, text, variants) + (if Sought(low, text, variant) then [variant] else [])
  {
    assert (variants + [variant])[..|variants|] == variants;
  }

  /** One match for each of the variants that the page has, in order. */
  ghost predicate Matched(low: Lowering, text: string, variants: seq<string>, results: seq<Match>) {
    && |results| == |Present(low, text, variants)| <= |variants|
    && forall k | 0 <= k < |results| ::
         results[k].variant == Present(low, text, variants)[k] && IsMatch(low, text, results[k])
  }

  lemma MatchedMore(low: Lowering, text: string, variants: seq<string>, n: nat, results: seq<Match>, m: Match, at: nat)
    requires n < |variants| && Matched(low, text, variants[..n], results)
    requires m.variant == variants[n] != "" && IsMatchAt(low, text, m, at)
    ensures Matched(low, text, variants[..n + 1], results + [m])
  {
    PresentAppend(low, text, variants[..n], m.variant);
    assert variants[..n + 1] == variants[..n] + [m.variant];
    assert Sought(low, text, m.variant) && IsMatch(low, text, m);
  }

  lemma MatchedSame(low: Lowering, text: string, variants: seq<string>, n: nat, results: seq<Match>)
    requires n < |variants| && Matched(low, text, variants[..n], results) && !Sought(low, text, variants[n])
    ensures Matched(low, text, variants[..n + 1], results)
  {
    PresentAppend(low, text, variants[..n], variants[n]);
    assert variants[..n + 1] == variants[..n] + [variants[n]];
    assert Present(low, text, variants[..n]) + [] == Present(low, text, variants[..n]);
  }

  method FindMatches(low: Lowering, text: string, variants: seq<string>) returns (results: seq<Match>)
    ensures text == "" ==> results == []
    ensures text != "" ==> |results| == |Present(low, text, variants)|
    ensures forall k | 0 <= k < |results| ::
      k < |Present(low, text, variants)| && results[k].variant == Present(low, text, variants)[k]
      && IsMatch(low, text, results[k])
    ensures |results| <= |variants|
  {
    results := [];
    if text == "" {
      return;
    }
    var haystack := Lower(low, text);
    for n := 0 to |variants|
      invariant Matched(low, text, variants[..n], results)
    {
      var variant := variants[n];
      if variant == "" {
        MatchedSame(low, text, variants, n, results);
        continue;
      }
      var at := Find(haystack, Lower(low, variant));
      if at == -1 {
        MatchedSame(low, text, variants, n, results);
        continue;
      }
      var context := ExtractContext(text, at, at + |variant|);
      var m := Match(variant, context, IsHighSignal(low, context));
      MatchedMore(low, text, variants, n, results, m, at);
      results := results + [m];
    }
    assert variants[..|variants|] == variants;
  }

  // ---------------------------------------------------------------- the context holds the match

  lemma {:induction false} LowerAppend(low: Lowering, a: string, b: string)
    ensures Lower(low, a + b) == Lower(low, a) + Lower(low, b)
  {
    if a == "" {
      assert a + b == b;
    } else {
      assert (a + b)[0] == a[0] && (a + b)[1..] == a[1..] + b;
      LowerAppend(low, a[1..], b);
    }
  }

  /** Where the first `k` characters end in the lower-cased text. */
  function Ends(low: Lowering, text: string, k: nat): nat
    requires k <= |text|
  {
    |Lower(low, text[..k])|
  }

  lemma EndsRise(low: Lowering, text: string, j: nat, k: nat)
    requires j <= k <= |text|
    ensures Lower(low, text[..k]) == Lower(low, text[..j]) + Lower(low, text[j..k])
    ensures Ends(low, text, j) <= Ends(low, text, k) <= |Lower(low, text)|
  {
    InTwo(text, 0, j, k);
    InTwo(text, 0, k, |text|);
    LowerWhole(low, text[..k], text[..j], text[j..k]);
    LowerWhole(low, text, text[..k], text[k..]);
  }

  lemma LowerWhole(low: Lowering, whole: string, a: string, b: string)
    requires a + b == whole
    ensures Lower(low, whole) == Lower(low, a) + Lower(low, b)
  {
    LowerAppend(low, a, b);
  }

  lemma LowerSlice(low: Lowering, text: string, from: nat, to: nat)
    requires from <= to <= |text|
    ensures Ends(low, text, from) <= Ends(low, text, to) <= |Lower(low, text)|
    ensures Lower(low, text[from..to]) == Lower(low, text)[Ends(low, text, from)..Ends(low, text, to)]
  {
    EndsRise(low, text, from, to);
    EndsRise(low, text, to, |text|);
    assert text[..|text|] == text;
    var a, b, c := Lower(low, text[..from]), Lower(low, text[from..to]), Lower(low, text[to..]);
    assert Lower(low, text) == (a + b) + c;
  }

  /** The characters of the page from `p` to `q` are those that the match touches in the lower-cased page. */
  predicate IsPlace(low: Lowering, text: string, at: nat, length: nat, p: nat, q: nat) {
    && p < q <= |text|
    && Ends(low, text, p) <= at < Ends(low, text, p + 1)
    && Ends(low, text, q - 1) < at + length <= Ends(low, text, q)
  }

  lemma {:induction false} CharacterAt(low: Lowering, text: string, k: nat, at: nat) returns (p: nat)
    requires k <= |text| && at < Ends(low, text, k)
    ensures p < k && Ends(low, text, p) <= at < Ends(low, text, p + 1)
    decreases k
  {
    if at < Ends(low, text, k - 1) {
      p := CharacterAt(low, text, k - 1, at);
    } else {
      p := k - 1;
    }
  }

  /** Every match has its place. */
  lemma PlaceOf(low: Lowering, text: string, needle: string, at: nat) returns (p: nat, q: nat)
    requires OccursAt(Lower(low, text), needle, at) && needle != ""
    ensures IsPlace(low, text, at, |needle|, p, q)
  {
    assert text[..|text|] == text;
    p := CharacterAt(low, text, |text|, at);
    q := CharacterAt(low, text, |text|, at + |needle| - 1);
    if q < p {
      EndsRise(low, text, q + 1, p);
    }
    q := q + 1;
  }

  /** The characters that lower-casing has made more. */
  function Gained(low: Lowering, s: string): int {
    |Lower(low, s)| - |s|
  }

  /** The window around a position covers the characters from `p` to `q`. */
  predicate WindowCovers(text: string, at: nat, width: nat, p: nat, q: nat) {
    && (if at > CONTEXT_SIDE then at - CONTEXT_SIDE else 0) <= p
    && q <= (if at + width + CONTEXT_SIDE < |text| then at + width + CONTEXT_SIDE else |text|)
  }

  /**
   The position is counted in the lower-cased page and used in the page itself. The window covers the
   place of the match if and only if what was gained before the match shifts it by no more than
   the side of the window, and the match ends within the other side.
   */
  lemma WindowCoversIff(low: Lowering, text: string, variant: string, at: nat, p: nat, q: nat)
    requires IsPlace(low, text, at, |Lower(low, variant)|, p, q)
    ensures WindowCovers(text, at, |variant|, p, q)
       <==> Gained(low, text[..p]) + (at - Ends(low, text, p)) <= CONTEXT_SIDE
            && q <= p + Gained(low, text[..p]) + (at - Ends(low, text, p)) + |variant| + CONTEXT_SIDE
  {
    assert Gained(low, text[..p]) == Ends(low, text, p) - p;
  }

  lemma OccursInSlice(haystack: string, needle: string, at: nat, lo: nat, hi: nat)
    requires OccursAt(haystack, needle, at) && lo <= at && at + |needle| <= hi <= |haystack|
    ensures OccursAt(haystack[lo..hi], needle, at - lo)
  {
    var slice := haystack[lo..hi];
    forall k | 0 <= k < |needle| ensures slice[at - lo..at - lo + |needle|][k] == needle[k] {
      assert slice[at - lo + k] == haystack[at + k] && haystack[at..at + |needle|][k] == haystack[at + k];
    }
  }

  /** And then the context, in lower case, has the variant in it. */
  lemma ContextHoldsMatch(low: Lowering, text: string, m: Match, at: nat, p: nat, q: nat)
    requires IsMatchAt(low, text, m, at) && IsPlace(low, text, at, |Lower(low, m.variant)|, p, q)
    requires Gained(low, text[..p]) + (at - Ends(low, text, p)) <= CONTEXT_SIDE
    requires q <= p + Gained(low, text[..p]) + (at - Ends(low, text, p)) + |m.variant| + CONTEXT_SIDE
    ensures WindowCovers(text, at, |m.variant|, p, q) && Occurs(Lower(low, m.context), Lower(low, m.variant))
  {
    var needle, width := Lower(low, m.variant), |m.variant|;
    WindowCoversIff(low, text, m.variant, at, p, q);
    var lo := if at > CONTEXT_SIDE then at - CONTEXT_SIDE else 0;
    var hi := if at + width + CONTEXT_SIDE < |text| then at + width + CONTEXT_SIDE else |text|;
    assert m.context == text[lo..hi];
    SliceHolds(low, text, needle, at, lo, p, q, hi);
  }

  lemma SliceHolds(low: Lowering, text: string, needle: string, at: nat, lo: nat, p: nat, q: nat, hi: nat)
    requires OccursAt(Lower(low, text), needle, at) && lo <= p <= q <= hi <= |text|
    requires Ends(low, text, p) <= at && at + |needle| <= Ends(low, text, q)
    ensures Occurs(Lower(low, text[lo..hi]), needle)
  {
    LowerSlice(low, text, lo, hi);
    EndsRise(low, text, lo, p);
    EndsRise(low, text, q, hi);
    OccursInSlice(Lower(low, text), needle, at, Ends(low, text, lo), Ends(low, text, hi));
    assert OccursAt(Lower(low, text[lo..hi]), needle, at - Ends(low, text, lo));
  }

  /** Lower-casing keeps the length of every character. */
  predicate KeepsLength(low: Lowering, s: string) {
    forall k | 0 <= k < |s| :: |low(s[k])| == 1
  }

  lemma {:induction false} KeptLength(low: Lowering, s: string)
    requires KeepsLength(low, s)
    ensures |Lower(low, s)| == |s|
  {
    if s != "" {
      KeptLength(low, s[1..]);
    }
  }

  /** So it is where no length changes up to the end of the match, whatever comes after it. */
  lemma PlainPrefixHoldsMatch(low: Lowering, text: string, m: Match, at: nat, p: nat, q: nat)
    requires IsMatchAt(low, text, m, at) && IsPlace(low, text, at, |Lower(low, m.variant)|, p, q)
    requires KeepsLength(low, text[..q]) && |Lower(low, m.variant)| <= |m.variant| + CONTEXT_SIDE
    ensures Occurs(Lower(low, m.context), Lower(low, m.variant))
  {
    KeptPrefix(low, text, p, q);
    KeptPrefix(low, text, p + 1, q);
    KeptPrefix(low, text, q - 1, q);
    ContextHoldsMatch(low, text, m, at, p, q);
  }

  lemma KeptPrefix(low: Lowering, text: string, k: nat, q: nat)
    requires k <= q <= |text| && KeepsLength(low, text[..q])
    ensures Ends(low, text, k) == k
  {
    forall i | 0 <= i < k ensures |low(text[..k][i])| == 1 {
      assert text[..k][i] == text[..q][i];
    }
    KeptLength(low, text[..k]);
  }

  /**
   Every match has its place on the page, and its context, in lower case, has the variant in it wherever what was gained
   before the place is no more than the side of the window and the match ends within the other side.
   */
  lemma EveryMatchHasPlace(low: Lowering, text: string, m: Match) returns (at: nat, p: nat, q: nat)
    requires IsMatch(low, text, m) && Lower(low, m.variant) != ""
    ensures IsMatchAt(low, text, m, at) && IsPlace(low, text, at, |Lower(low, m.variant)|, p, q)
    ensures WindowCovers(text, at, |m.variant|, p, q) ==> Occurs(Lower(low, m.context), Lower(low, m.variant))
    ensures Gained(low, text[..p]) + (at - Ends(low, text, p)) <= CONTEXT_SIDE
            && q <= p + Gained(low, text[..p]) + (at - Ends(low, text, p)) + |m.variant| + CONTEXT_SIDE
            ==> Occurs(Lower(low, m.context), Lower(low, m.variant))
  {
    at :| IsMatchAt(low, text, m, at);
    p, q := PlaceOf(low, text, Lower(low, m.variant), at);
    WindowCoversIff(low, text, m.variant, at, p, q);
    if WindowCovers(text, at, |m.variant|, p, q) {
      ContextHoldsMatch(low, text, m, at, p, q);
    }
  }

  /** A match before which, and in which, no character changes its length is in its context. */
  lemma KeptTextHoldsMatch(low: Lowering, text: string, m: Match, at: nat)
    requires IsMatchAt(low, text, m, at) && Lower(low, m.variant) != ""
    requires var e := at + |Lower(low, m.variant)|;
      e <= |text| && KeepsLength(low, text[..e]) && |Lower(low, m.variant)| <= |m.variant| + CONTEXT_SIDE
    ensures Occurs(Lower(low, m.context), Lower(low, m.variant))
  {
    var e := at + |Lower(low, m.variant)|;
    var p, q := PlaceOf(low, text, Lower(low, m.variant), at);
    KeptPrefix(low, text, e, e);
    if e < q {
      EndsRise(low, text, e, q - 1);
    }
    forall k | 0 <= k < q ensures |low(text[..q][k])| == 1 {
      assert text[..q][k] == text[..e][k];
    }
    PlainPrefixHoldsMatch(low, text, m, at, p, q);
  }

  const DOTTED_I := '\U{130}'

  /** A capital I with a dot becomes an i and a dot above. */
  function LowerDotted(c: char): string {
    if c == DOTTED_I then "i\U{307}" else [c]
  }

  function Repeat(c: char, n: nat): string {
    if n == 0 then "" else [c] + Repeat(c, n - 1)
  }

  lemma {:induction false} LowerRepeat(n: nat)
    ensures |Repeat(DOTTED_I, n)| == n
    ensures |Lower(LowerDotted, Repeat(DOTTED_I, n) + "x")| == 2 * n + 1
    ensures Lower(LowerDotted, Repeat(DOTTED_I, n) + "x")[2 * n] == 'x'
    ensures forall k | 0 <= k < 2 * n :: Lower(LowerDotted, Repeat(DOTTED_I, n) + "x")[k] != 'x'
  {
    var text := Repeat(DOTTED_I, n) + "x";
    if n == 0 {
      assert text == "x" && text[1..] == "";
    } else {
      LowerRepeat(n - 1);
      assert text[0] == DOTTED_I && text[1..] == Repeat(DOTTED_I, n - 1) + "x";
      assert LowerDotted(DOTTED_I) == "i\U{307}";
    }
  }

  /** Where it does not, a match may come with an empty context: the place is counted in the longer text. */
  lemma ContextMayBeEmpty()
    ensures exists text, m :: IsMatch(LowerDotted, text, m) && m.variant == "x" && m.context == ""
  {
    var n := 2 * CONTEXT_SIDE;
    var text := Repeat(DOTTED_I, n) + "x";
    LowerRepeat(n);
    LowerX();
    EmptyContext(text, n);
  }

  lemma LowerX()
    ensures Lower(LowerDotted, "x") == "x"
  {
    assert "x"[1..] == "";
  }

  lemma EmptyContext(text: string, n: nat)
    requires n == 2 * CONTEXT_SIDE && |text| == n + 1 && Lower(LowerDotted, "x") == "x"
    requires OccursAt(Lower(LowerDotted, text), "x", 2 * n)
    requires forall k | 0 <= k < 2 * n :: !OccursAt(Lower(LowerDotted, text), "x", k)
    ensures exists m :: IsMatch(LowerDotted, text, m) && m.variant == "x" && m.context == ""
  {
    var context := ExtractContext(text, 2 * n, 2 * n + 1);
    assert context == "";
    var m := Match("x", context, IsHighSignal(LowerDotted, context));
    assert IsMatchAt(LowerDotted, text, m, 2 * n);
    assert IsMatch(LowerDotted, text, m);
  }
}
