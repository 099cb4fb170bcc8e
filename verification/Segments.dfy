/**
 `build_segments` of channel_monitor.py: a message cut at the ends of its entities, against
 a painting of every UTF-16 unit by the entities that cover it.
 */
module Segments {
  import opened Wrappers
  import opened Utf16

  datatype Style = Bold | Code | Hashtag | Italic | Mention | Pre

  /** The order of the style names. */
  const STYLES := [Bold, Code, Hashtag, Italic, Mention, Pre]

  datatype Kind = TextUrl(url: Option<Text>) | Url | Styled(style: Style) | Other

  /** Offset and length are missing when they are not whole numbers. */
  datatype Entity = Entity(offset: Option<int>, length: Option<int>, kind: Kind)

  datatype Span = Span(from: nat, to: nat, style: Option<Style>, href: Option<Text>)

  datatype Segment = Segment(text: Text, styles: seq<Style>, href: Option<Text>)

  /** `safe_link` is a parameter: a link, or none when the address is not safe. */
  type Link = Option<Text> -> Option<Text>

  // ---------------------------------------------------------------- painting unit by unit

  /** The entity marks the unit, as far as the message goes. */
  predicate Covers(ent: Entity, length: nat, u: int) {
    && ent.offset.Some? && ent.length.Some? && !ent.kind.Other?
    && 0 <= u < length && ent.offset.value <= u < ent.offset.value + ent.length.value
  }

  ghost function StylesAt(entities: seq<Entity>, length: nat, u: int): set<Style> {
    set e, style | 0 <= e < |entities| && Covers(entities[e], length, u) && entities[e].kind == Styled(style) :: style
  }

  /** The place of a style by its name. */
  function Rank(style: Style): nat {
    match style
    case Bold => 0
    case Code => 1
    case Hashtag => 2
    case Italic => 3
    case Mention => 4
    case Pre => 5
  }

  predicate ByName(styles: seq<Style>) {
    forall i, j | 0 <= i < j < |styles| :: Rank(styles[i]) < Rank(styles[j])
  }

  predicate Usable(href: Option<Text>) {
    href.Some? && href.value != []
  }

  /** The units that the entity marks, among the first `n`. */
  function Marked(ent: Entity, units: Units, n: nat): Units
    requires n <= |units|
  {
    if n == 0 then []
    else Marked(ent, units, n - 1) + (if Covers(ent, |units|, n - 1) then [units[n - 1]] else [])
  }

  /** The link of an entity: from its own address, or from the text that it marks. */
  function LinkOf(ent: Entity, units: Units, link: Link): Option<Text> {
    match ent.kind
    case TextUrl(url) => link(url)
    case Url => link(Some(Decode(Marked(ent, units, |units|))))
    case _ => None
  }

  /** The first link that covers the unit. */
  function HrefAt(entities: seq<Entity>, units: Units, link: Link, u: int): Option<Text> {
    if entities == [] then None
    else if Covers(entities[0], |units|, u) && Usable(LinkOf(entities[0], units, link)) then
      LinkOf(entities[0], units, link)
    else HrefAt(entities[1..], units, link, u)
  }

  // ---------------------------------------------------------------- spans and cuts

  function Begin(ent: Entity): nat
    requires ent.offset.Some?
  {
    if ent.offset.value > 0 then ent.offset.value else 0
  }

  function End(ent: Entity, length: nat): int
    requires ent.offset.Some? && ent.length.Some?
  {
    if ent.offset.value + ent.length.value < length then ent.offset.value + ent.length.value else length
  }

  function HrefOf(ent: Entity, units: Units, link: Link): Option<Text>
    requires ent.offset.Some? && ent.length.Some? && Begin(ent) < End(ent, |units|)
  {
    match ent.kind
    case TextUrl(url) => link(url)
    case Url => link(Some(Decode(units[Begin(ent)..End(ent, |units|)])))
    case _ => None
  }

  function SpanOf(ent: Entity, units: Units, link: Link): seq<Span> {
    if ent.offset.None? || ent.length.None? || Begin(ent) >= End(ent, |units|) || ent.kind.Other? then []
    else
      [Span(Begin(ent), End(ent, |units|),
            if ent.kind.Styled? then Some(ent.kind.style) else None,
            HrefOf(ent, units, link))]
  }

  function SpansOf(entities: seq<Entity>, units: Units, link: Link): seq<Span> {
    if entities == [] then [] else SpanOf(entities[0], units, link) + SpansOf(entities[1..], units, link)
  }

  function Ends(spans: seq<Span>): set<nat> {
    (set k | 0 <= k < |spans| :: spans[k].from) + (set k | 0 <= k < |spans| :: spans[k].to)
  }

  /** The members of a set below `n`, in order. */
  function Sorted(points: set<nat>, n: nat): seq<nat> {
    if n == 0 then [] else Sorted(points, n - 1) + (if n - 1 in points then [n - 1] else [])
  }

  function Cuts(spans: seq<Span>, length: nat): seq<nat> {
    Sorted(Ends(spans) + {0, length}, length + 1)
  }

  predicate Inside(span: Span, a: int, b: int) {
    span.from <= a && b <= span.to
  }

  function FirstHref(spans: seq<Span>, a: int, b: int): Option<Text> {
    if spans == [] then None
    else if Inside(spans[0], a, b) && Usable(spans[0].href) then spans[0].href
    else FirstHref(spans[1..], a, b)
  }

  predicate HasStyle(spans: seq<Span>, a: int, b: int, style: Style) {
    exists k :: 0 <= k < |spans| && Inside(spans[k], a, b) && spans[k].style == Some(style)
  }

  function StylesOf(spans: seq<Span>, a: int, b: int, styles: seq<Style>): seq<Style> {
    if styles == [] then []
    else (if HasStyle(spans, a, b, styles[0]) then [styles[0]] else []) + StylesOf(spans, a, b, styles[1..])
  }

  function SegmentOf(units: Units, spans: seq<Span>, a: nat, b: nat): Segment
    requires a <= b <= |units|
  {
    Segment(Decode(units[a..b]), StylesOf(spans, a, b, STYLES), FirstHref(spans, a, b))
  }

  lemma {:induction false} SortedFacts(points: set<nat>, n: nat)
    ensures var list := Sorted(points, n);
      && Rising(list)
      && (forall k | 0 <= k < |list| :: list[k] in points && list[k] < n)
      && (forall p | p in points && p < n :: p in list)
  {
    if n > 0 {
      SortedFacts(points, n - 1);
    }
  }

  predicate FitIn(spans: seq<Span>, length: nat) {
    forall k | 0 <= k < |spans| :: spans[k].from < spans[k].to <= length
  }

  lemma {:induction false} SpansFit(entities: seq<Entity>, units: Units, link: Link)
    ensures FitIn(SpansOf(entities, units, link), |units|)
  {
    if entities != [] {
      SpansFit(entities[1..], units, link);
      var first, rest := SpanOf(entities[0], units, link), SpansOf(entities[1..], units, link);
      var spans: seq<Span> := first + rest;
      forall k | 0 <= k < |spans| ensures spans[k].from < spans[k].to <= |units| {
        assert k >= |first| ==> spans[k] == rest[k - |first|];
      }
    }
  }

  lemma CutsFacts(spans: seq<Span>, length: nat)
    requires FitIn(spans, length)
    ensures IsCutting(Cuts(spans, length), length)
    ensures forall k | 0 <= k < |spans| :: spans[k].from in Cuts(spans, length) && spans[k].to in Cuts(spans, length)
  {
    var points := Ends(spans) + {0, length};
    SortedFacts(points, length + 1);
    var cuts := Cuts(spans, length);
    assert 0 in cuts && length in cuts;
  }

  // ---------------------------------------------------------------- the method

  function SegmentsFrom(units: Units, spans: seq<Span>, cuts: seq<nat>, n: nat): seq<Segment>
    requires IsCutting(cuts, |units|) && n < |cuts|
  {
    if n == 0 then []
    else
      assert cuts[n - 1] < cuts[n] && (n < |cuts| - 1 ==> cuts[n] < cuts[|cuts| - 1]);
      SegmentsFrom(units, spans, cuts, n - 1) + [SegmentOf(units, spans, cuts[n - 1], cuts[n])]
  }

  lemma {:induction false} SpansAppend(a: seq<Entity>, ent: Entity, units: Units, link: Link)
    ensures SpansOf(a + [ent], units, link) == SpansOf(a, units, link) + SpanOf(ent, units, link)
  {
    if a == [] {
      assert [ent][1..] == [];
    } else {
      assert (a + [ent])[1..] == a[1..] + [ent];
      SpansAppend(a[1..], ent, units, link);
    }
  }

  method CollectSpans(entities: seq<Entity>, units: Units, link: Link) returns (spans: seq<Span>)
    ensures spans == SpansOf(entities, units, link)
  {
    spans := [];
    for n := 0 to |entities|
      invariant spans == SpansOf(entities[..n], units, link)
    {
      var ent := entities[n];
      SpansAppend(entities[..n], ent, units, link);
      assert entities[..n + 1] == entities[..n] + [ent];
      if ent.offset.None? || ent.length.None? {
        continue;
      }
      var start, end := Begin(ent), End(ent, |units|);
      if start >= end {
        continue;
      }
      match ent.kind {
        case TextUrl(url) => spans := spans + [Span(start, end, None, link(url))];
        case Url => spans := spans + [Span(start, end, None, link(Some(Decode(units[start..end]))))];
        case Styled(style) => spans := spans + [Span(start, end, Some(style), None)];
        case Other =>
      }
    }
    assert entities[..|entities|] == entities;
  }

  method BuildSegments(text: Text, entities: seq<Entity>, link: Link) returns (segments: seq<Segment>)
    ensures text == [] ==> segments == []
    ensures text != [] ==>
      var units := Encode(text); var spans := SpansOf(entities, units, link); var cuts := Cuts(spans, |units|);
      IsCutting(cuts, |units|) && segments == SegmentsFrom(units, spans, cuts, |cuts| - 1)
  {
    segments := [];
    if text == [] {
      return;
    }
    var units := Encode(text);
    var spans := CollectSpans(entities, units, link);
    SpansFit(entities, units, link);
    CutsFacts(spans, |units|);
    var cuts := Cuts(spans, |units|);
    for n := 1 to |cuts|
      invariant segments == SegmentsFrom(units, spans, cuts, n - 1)
    {
      assert cuts[n - 1] < cuts[n] && (n < |cuts| - 1 ==> cuts[n] < cuts[|cuts| - 1]);
      segments := segments + [SegmentOf(units, spans, cuts[n - 1], cuts[n])];
    }
  }

  // ---------------------------------------------------------------- segments agree with painting

  /** Between two cuts nothing begins and nothing ends. */
  predicate Uncut(spans: seq<Span>, a: int, b: int) {
    forall k | 0 <= k < |spans| ::
      (spans[k].from <= a || b <= spans[k].from) && (spans[k].to <= a || b <= spans[k].to)
  }

  lemma BetweenCuts(spans: seq<Span>, length: nat, n: nat)
    requires FitIn(spans, length)
    requires n + 1 < |Cuts(spans, length)|
    ensures Uncut(spans, Cuts(spans, length)[n], Cuts(spans, length)[n + 1])
  {
    CutsFacts(spans, length);
    var cuts := Cuts(spans, length);
    forall k | 0 <= k < |spans|
      ensures spans[k].from <= cuts[n] || cuts[n + 1] <= spans[k].from
      ensures spans[k].to <= cuts[n] || cuts[n + 1] <= spans[k].to
    {
      NothingBetween(cuts, n, spans[k].from);
      NothingBetween(cuts, n, spans[k].to);
    }
  }

  lemma NothingBetween(cuts: seq<nat>, n: nat, p: nat)
    requires Rising(cuts) && n + 1 < |cuts| && p in cuts
    ensures p <= cuts[n] || cuts[n + 1] <= p
  {
    var i :| 0 <= i < |cuts| && cuts[i] == p;
  }

  /** What an entity marks is one piece of the text, from its beginning to its end. */
  lemma {:induction false} MarkedIsPiece(ent: Entity, units: Units, n: nat)
    requires n <= |units| && ent.offset.Some? && ent.length.Some? && !ent.kind.Other? && Begin(ent) < End(ent, |units|)
    ensures var last := if n < End(ent, |units|) then n else End(ent, |units|);
      Marked(ent, units, n) == if Begin(ent) < last then units[Begin(ent)..last] else []
    decreases n
  {
    if n > 0 {
      MarkedIsPiece(ent, units, n - 1);
      var first, end := Begin(ent), End(ent, |units|);
      assert Covers(ent, |units|, n - 1) <==> first < n <= end;
      if first < n <= end {
        assert units[first..n] == units[first..n - 1] + [units[n - 1]];
      }
    }
  }

  lemma HrefIsLink(ent: Entity, units: Units, link: Link)
    requires ent.offset.Some? && ent.length.Some? && !ent.kind.Other? && Begin(ent) < End(ent, |units|)
    ensures HrefOf(ent, units, link) == LinkOf(ent, units, link)
  {
    MarkedIsPiece(ent, units, |units|);
  }

  /** A span that an entity gives covers a piece if and only if the entity covers any unit of it. */
  lemma SpanCovers(ent: Entity, units: Units, link: Link, a: nat, b: nat, u: nat)
    requires a <= u < b <= |units| && Uncut(SpanOf(ent, units, link), a, b)
    ensures var spans := SpanOf(ent, units, link);
      && (Covers(ent, |units|, u) <==> spans != [] && Inside(spans[0], a, b))
      && (spans != [] ==> spans[0].href == LinkOf(ent, units, link))
      && (spans != [] ==> forall style :: spans[0].style == Some(style) <==> ent.kind == Styled(style))
  {
    var spans := SpanOf(ent, units, link);
    if spans != [] {
      HrefIsLink(ent, units, link);
      assert spans[0].from <= a || b <= spans[0].from;
      assert spans[0].to <= a || b <= spans[0].to;
    }
  }

  lemma UncutParts(s: seq<Span>, t: seq<Span>, a: int, b: int)
    requires Uncut(s + t, a, b)
    ensures Uncut(s, a, b) && Uncut(t, a, b)
  {
    forall k | 0 <= k < |s|
      ensures (s[k].from <= a || b <= s[k].from) && (s[k].to <= a || b <= s[k].to)
    {
      assert (s + t)[k] == s[k];
    }
    forall k | 0 <= k < |t|
      ensures (t[k].from <= a || b <= t[k].from) && (t[k].to <= a || b <= t[k].to)
    {
      assert (s + t)[|s| + k] == t[k];
    }
  }

  lemma {:induction false} HrefAgrees(entities: seq<Entity>, units: Units, link: Link, a: nat, b: nat, u: nat)
    requires a <= u < b <= |units| && Uncut(SpansOf(entities, units, link), a, b)
    ensures FirstHref(SpansOf(entities, units, link), a, b) == HrefAt(entities, units, link, u)
  {
    if entities != [] {
      var first, rest := SpanOf(entities[0], units, link), SpansOf(entities[1..], units, link);
      UncutParts(first, rest, a, b);
      SpanCovers(entities[0], units, link, a, b, u);
      HrefAgrees(entities[1..], units, link, a, b, u);
      if first != [] {
        assert (first + rest)[1..] == rest;
      } else {
        assert first + rest == rest;
      }
    }
  }

  predicate Paints(entities: seq<Entity>, length: nat, u: int, style: Style) {
    exists e :: 0 <= e < |entities| && Covers(entities[e], length, u) && entities[e].kind == Styled(style)
  }

  lemma PaintsFirst(entities: seq<Entity>, length: nat, u: int, style: Style)
    requires entities != []
    ensures Paints(entities, length, u, style)
       <==> (Covers(entities[0], length, u) && entities[0].kind == Styled(style))
            || Paints(entities[1..], length, u, style)
  {
    var rest := entities[1..];
    if Paints(rest, length, u, style) {
      var e :| 0 <= e < |rest| && Covers(rest[e], length, u) && rest[e].kind == Styled(style);
      assert entities[e + 1] == rest[e];
    }
    if Paints(entities, length, u, style) {
      var e :| 0 <= e < |entities| && Covers(entities[e], length, u) && entities[e].kind == Styled(style);
      if e > 0 {
        assert rest[e - 1] == entities[e];
      }
    }
  }

  lemma HasStyleParts(s: seq<Span>, t: seq<Span>, a: int, b: int, style: Style)
    ensures HasStyle(s + t, a, b, style) <==> HasStyle(s, a, b, style) || HasStyle(t, a, b, style)
  {
    if HasStyle(s, a, b, style) {
      var k :| 0 <= k < |s| && Inside(s[k], a, b) && s[k].style == Some(style);
      assert (s + t)[k] == s[k];
    }
    if HasStyle(t, a, b, style) {
      var k :| 0 <= k < |t| && Inside(t[k], a, b) && t[k].style == Some(style);
      assert (s + t)[|s| + k] == t[k];
    }
  }

  lemma {:induction false} StyleAgrees(
    entities: seq<Entity>, units: Units, link: Link, a: nat, b: nat, u: nat, style: Style)
    requires a <= u < b <= |units| && Uncut(SpansOf(entities, units, link), a, b)
    ensures HasStyle(SpansOf(entities, units, link), a, b, style) <==> Paints(entities, |units|, u, style)
  {
    if entities != [] {
      var first, rest := SpanOf(entities[0], units, link), SpansOf(entities[1..], units, link);
      UncutParts(first, rest, a, b);
      SpanCovers(entities[0], units, link, a, b, u);
      StyleAgrees(entities[1..], units, link, a, b, u, style);
      HasStyleParts(first, rest, a, b, style);
      PaintsFirst(entities, |units|, u, style);
    }
  }

  lemma {:induction false} StylesOfFacts(spans: seq<Span>, a: int, b: int, styles: seq<Style>)
    ensures forall style :: style in StylesOf(spans, a, b, styles) <==> style in styles && HasStyle(spans, a, b, style)
  {
    if styles != [] {
      StylesOfFacts(spans, a, b, styles[1..]);
    }
  }

  lemma {:induction false} StylesByName(spans: seq<Span>, a: int, b: int, styles: seq<Style>)
    requires ByName(styles)
    ensures ByName(StylesOf(spans, a, b, styles))
  {
    if styles != [] {
      var rest := StylesOf(spans, a, b, styles[1..]);
      StylesByName(spans, a, b, styles[1..]);
      StylesOfFacts(spans, a, b, styles[1..]);
      forall j | 0 <= j < |rest| ensures Rank(styles[0]) < Rank(rest[j]) {
        assert rest[j] in rest && rest[j] in styles[1..];
      }
    }
  }

  lemma {:induction false} SegmentsAt(units: Units, spans: seq<Span>, cuts: seq<nat>, n: nat, k: nat)
    requires IsCutting(cuts, |units|) && k < n < |cuts|
    ensures |SegmentsFrom(units, spans, cuts, n)| == n && cuts[k] < cuts[k + 1] <= |units|
    ensures SegmentsFrom(units, spans, cuts, n)[k] == SegmentOf(units, spans, cuts[k], cuts[k + 1])
    decreases n
  {
    assert cuts[k] < cuts[k + 1] && (k + 1 < |cuts| - 1 ==> cuts[k + 1] < cuts[|cuts| - 1]);
    if k < n - 1 {
      SegmentsAt(units, spans, cuts, n - 1, k);
    } else if n > 1 {
      SegmentsAt(units, spans, cuts, n - 1, 0);
    }
  }

  /** A piece between two cuts is painted as each of its units is. */
  lemma PieceIsPainted(entities: seq<Entity>, units: Units, link: Link, a: nat, b: nat, u: nat)
    requires a <= u < b <= |units| && Uncut(SpansOf(entities, units, link), a, b)
    ensures var segment := SegmentOf(units, SpansOf(entities, units, link), a, b);
      && (forall style :: style in segment.styles <==> style in StylesAt(entities, |units|, u))
      && segment.href == HrefAt(entities, units, link, u)
  {
    var spans := SpansOf(entities, units, link);
    HrefAgrees(entities, units, link, a, b, u);
    StylesOfFacts(spans, a, b, STYLES);
    forall style
      ensures style in STYLES
      ensures HasStyle(spans, a, b, style) <==> style in StylesAt(entities, |units|, u)
    {
      StyleAgrees(entities, units, link, a, b, u, style);
      EveryStyle(style);
    }
  }

  /**
   For every unit of the message, its segment has exactly the styles of the entities that cover
   it, and the first usable link among them.
   */
  lemma SegmentsArePainted(text: Text, entities: seq<Entity>, link: Link, n: nat, u: nat)
    requires var units := Encode(text); var cuts := Cuts(SpansOf(entities, units, link), |units|);
      text != [] && n + 1 < |cuts| && cuts[n] <= u < cuts[n + 1]
    ensures var units := Encode(text); var spans := SpansOf(entities, units, link); var cuts := Cuts(spans, |units|);
      && IsCutting(cuts, |units|) && |SegmentsFrom(units, spans, cuts, |cuts| - 1)| == |cuts| - 1
      && var segment := SegmentsFrom(units, spans, cuts, |cuts| - 1)[n];
         && (forall style :: style in segment.styles <==> style in StylesAt(entities, |units|, u))
         && segment.href == HrefAt(entities, units, link, u)
  {
    var units := Encode(text);
    var spans := SpansOf(entities, units, link);
    var cuts := Cuts(spans, |units|);
    SpansFit(entities, units, link);
    CutsFacts(spans, |units|);
    BetweenCuts(spans, |units|, n);
    SegmentsAt(units, spans, cuts, |cuts| - 1, n);
    PieceIsPainted(entities, units, link, cuts[n], cuts[n + 1], u);
  }

  /** The styles of a segment are by their names, none of them twice. */
  lemma StylesAreByName(units: Units, spans: seq<Span>, cuts: seq<nat>, segment: Segment)
    requires IsCutting(cuts, |units|) && segment in SegmentsFrom(units, spans, cuts, |cuts| - 1)
    ensures ByName(segment.styles)
  {
    SegmentsAt(units, spans, cuts, |cuts| - 1, 0);
    var k :| 0 <= k < |cuts| - 1 && SegmentsFrom(units, spans, cuts, |cuts| - 1)[k] == segment;
    SegmentsAt(units, spans, cuts, |cuts| - 1, k);
    StylesByName(spans, cuts[k], cuts[k + 1], STYLES);
  }

  lemma EveryStyle(style: Style)
    ensures style in STYLES
  {
    assert STYLES[Rank(style)] == style;
  }

  /** The message is cut between two units if and only if some entity marks just one of them. */
  lemma CutIff(entities: seq<Entity>, units: Units, link: Link, c: nat)
    requires 0 < c < |units|
    ensures c in Cuts(SpansOf(entities, units, link), |units|)
       <==> exists e :: 0 <= e < |entities| && Covers(entities[e], |units|, c - 1) != Covers(entities[e], |units|, c)
  {
    SortedFacts(Ends(SpansOf(entities, units, link)) + {0, |units|}, |units| + 1);
    EndIff(entities, units, link, c);
  }

  lemma {:induction false} EndIff(entities: seq<Entity>, units: Units, link: Link, c: nat)
    requires 0 < c < |units|
    ensures c in Ends(SpansOf(entities, units, link))
       <==> exists e :: 0 <= e < |entities| && Covers(entities[e], |units|, c - 1) != Covers(entities[e], |units|, c)
    decreases |entities|
  {
    if entities != [] {
      var first, rest := SpanOf(entities[0], units, link), SpansOf(entities[1..], units, link);
      EndIff(entities[1..], units, link, c);
      EndsJoin(first, rest);
      SpanEnds(entities[0], units, link, c);
      assert forall e | 1 <= e < |entities| :: entities[e] == entities[1..][e - 1];
    }
  }

  lemma SpanEnds(ent: Entity, units: Units, link: Link, c: nat)
    requires 0 < c < |units|
    ensures c in Ends(SpanOf(ent, units, link)) <==> Covers(ent, |units|, c - 1) != Covers(ent, |units|, c)
  {
    var spans := SpanOf(ent, units, link);
    if spans != [] {
      var span := spans[0];
      assert spans == [span];
      assert Ends([span]) == {span.from, span.to} by {
        assert [span][0] == span;
      }
    }
  }

  lemma EndsJoin(s: seq<Span>, t: seq<Span>)
    ensures Ends(s + t) == Ends(s) + Ends(t)
  {
    forall k | 0 <= k < |t| ensures t[k].from in Ends(s + t) && t[k].to in Ends(s + t) {
      assert (s + t)[|s| + k] == t[k];
    }
    forall k | 0 <= k < |s| ensures s[k].from in Ends(s + t) && s[k].to in Ends(s + t) {
      assert (s + t)[k] == s[k];
    }
  }

  function JoinedTexts(segments: seq<Segment>): Text {
    if segments == [] then [] else JoinedTexts(segments[..|segments| - 1]) + segments[|segments| - 1].text
  }

  lemma JoinedAppend(segments: seq<Segment>, segment: Segment)
    ensures JoinedTexts(segments + [segment]) == JoinedTexts(segments) + segment.text
  {
    assert (segments + [segment])[..|segments|] == segments;
  }

  lemma {:induction false} TextsAreJoined(units: Units, spans: seq<Span>, cuts: seq<nat>, n: nat)
    requires IsCutting(cuts, |units|) && n < |cuts|
    ensures JoinedTexts(SegmentsFrom(units, spans, cuts, n)) == Joined(units, cuts, n)
    decreases n
  {
    if n > 0 {
      TextsAreJoined(units, spans, cuts, n - 1);
      CutsFit(cuts, |units|, n);
      JoinedAppend(SegmentsFrom(units, spans, cuts, n - 1), SegmentOf(units, spans, cuts[n - 1], cuts[n]));
    }
  }

  lemma CutsFit(cuts: seq<nat>, length: nat, n: nat)
    requires IsCutting(cuts, length) && 0 < n < |cuts|
    ensures cuts[n - 1] < cuts[n] <= length
  {
    assert n < |cuts| - 1 ==> cuts[n] < cuts[|cuts| - 1];
  }

  /**
   The texts of the segments, one after the other, are the message if and only if the message has
   no half of a surrogate pair and no entity begins or ends inside a pair.
   */
  lemma TextIsKept(text: Text, entities: seq<Entity>, link: Link)
    requires text != []
    ensures var units := Encode(text); var spans := SpansOf(entities, units, link); var cuts := Cuts(spans, |units|);
      && IsCutting(cuts, |units|)
      && (JoinedTexts(SegmentsFrom(units, spans, cuts, |cuts| - 1)) == text
          <==> HasNoSurrogate(text) && KeepsPairs(units, spans))
  {
    var units := Encode(text);
    var spans := SpansOf(entities, units, link);
    var cuts := Cuts(spans, |units|);
    SpansFit(entities, units, link);
    CutsFacts(spans, |units|);
    TextsAreJoined(units, spans, cuts, |cuts| - 1);
    PiecesJoin(text, cuts);
    CutsSplit(units, spans);
  }

  /** No span begins or ends inside a pair. */
  predicate KeepsPairs(units: Units, spans: seq<Span>) {
    forall k | 0 <= k < |spans| :: !SplitsPair(units, spans[k].from) && !SplitsPair(units, spans[k].to)
  }

  lemma CutsSplit(units: Units, spans: seq<Span>)
    requires FitIn(spans, |units|)
    ensures SplitsNoPair(units, Cuts(spans, |units|), |Cuts(spans, |units|)|) <==> KeepsPairs(units, spans)
  {
    var cuts := Cuts(spans, |units|);
    SortedFacts(Ends(spans) + {0, |units|}, |units| + 1);
    if SplitsNoPair(units, cuts, |cuts|) {
      forall k | 0 <= k < |spans| ensures !SplitsPair(units, spans[k].from) && !SplitsPair(units, spans[k].to) {
        assert spans[k].from in cuts && spans[k].to in cuts;
      }
    }
  }
}
