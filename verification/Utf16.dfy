/**
 Text as code points and as UTF-16 code units: `add_surrogate` and `_from_utf16` of
 channel_monitor.py (RFC 2781, sections 2.1 and 2.2).
 */
module Utf16 {

  type Point = c: int | 0 <= c <= 0x10FFFF
  type Unit = u: int | 0 <= u <= 0xFFFF

  type Text = seq<Point>
  type Units = seq<Unit>

  const REPLACEMENT: Point := 0xFFFD

  predicate IsHigh(u: int) { 0xD800 <= u <= 0xDBFF }
  predicate IsLow(u: int) { 0xDC00 <= u <= 0xDFFF }
  predicate IsSurrogate(u: int) { IsHigh(u) || IsLow(u) }

  /** A code point as one or two units; half a pair passes as it is. */
  function EncodePoint(c: Point): (units: Units)
    ensures |units| == if c < 0x10000 then 1 else 2
  {
    if c < 0x10000 then [c] else [0xD800 + (c - 0x10000) / 0x400, 0xDC00 + (c - 0x10000) % 0x400]
  }

  function Encode(text: Text): Units {
    if text == [] then [] else EncodePoint(text[0]) + Encode(text[1..])
  }

  /** The pair stands for the character (RFC 2781, section 2.1). */
  lemma PairOf(c: Point)
    requires c >= 0x10000
    ensures var units := EncodePoint(c);
      var high: int, low: int := units[0], units[1];
      && 0xD800 <= high < 0xDC00 <= low < 0xE000
      && 1024 * (high - 0xD800) + (low - 0xDC00) == c - 0x10000
  {
    var rest := c - 0x10000;
    assert rest < 0x400 * 0x400 && rest == rest / 0x400 * 0x400 + rest % 0x400;
  }

  function Combine(high: Unit, low: Unit): Point
    requires IsHigh(high) && IsLow(low)
  {
    0x10000 + (high - 0xD800) * 0x400 + (low - 0xDC00)
  }

  predicate StartsPair(units: Units) {
    |units| >= 2 && IsHigh(units[0]) && IsLow(units[1])
  }

  /** Half a pair becomes the replacement character. */
  function Decode(units: Units): Text {
    if units == [] then []
    else if StartsPair(units) then [Combine(units[0], units[1])] + Decode(units[2..])
    else [if IsSurrogate(units[0]) then REPLACEMENT else units[0]] + Decode(units[1..])
  }

  // ---------------------------------------------------------------- round trip

  predicate HasNoSurrogate(text: Text) {
    forall i | 0 <= i < |text| :: !IsSurrogate(text[i])
  }

  lemma {:induction false} DecodedHasNoSurrogate(units: Units)
    ensures HasNoSurrogate(Decode(units))
  {
    if units != [] {
      if StartsPair(units) {
        DecodedHasNoSurrogate(units[2..]);
      } else {
        DecodedHasNoSurrogate(units[1..]);
      }
    }
  }

  lemma DecodeFirst(c: Point, rest: Units)
    requires !IsSurrogate(c)
    ensures Decode(EncodePoint(c) + rest) == [c] + Decode(rest)
  {
    var units := EncodePoint(c) + rest;
    if c >= 0x10000 {
      assert units[2..] == rest;
    } else {
      assert units[1..] == rest;
    }
  }

  lemma {:induction false} DecodeEncode(text: Text)
    requires HasNoSurrogate(text)
    ensures Decode(Encode(text)) == text
  {
    if text != [] {
      DecodeFirst(text[0], Encode(text[1..]));
      DecodeEncode(text[1..]);
    }
  }

  /** Decoding undoes encoding if and only if the text has no half of a pair. */
  lemma RoundTrip(text: Text)
    ensures Decode(Encode(text)) == text <==> HasNoSurrogate(text)
  {
    DecodedHasNoSurrogate(Encode(text));
    if HasNoSurrogate(text) {
      DecodeEncode(text);
    }
  }

  // ---------------------------------------------------------------- cutting

  predicate SplitsPair(units: Units, cut: nat) {
    0 < cut < |units| && IsHigh(units[cut - 1]) && IsLow(units[cut])
  }

  /** What is decoded before and after the cut is the whole, or one character more. */
  predicate PartsFit(units: Units, cut: nat)
    requires cut <= |units|
  {
    var parts := Decode(units[..cut]) + Decode(units[cut..]);
    if SplitsPair(units, cut) then |parts| == |Decode(units)| + 1 else parts == Decode(units)
  }

  lemma CutInPair(units: Units)
    requires StartsPair(units)
    ensures PartsFit(units, 1)
  {
    assert units[..1] == [units[0]] && units[1..][1..] == units[2..];
    assert Decode([units[0]]) == [REPLACEMENT] + Decode([units[0]][1..]);
    assert !StartsPair(units[1..]);
    assert |Decode(units[1..])| == 1 + |Decode(units[2..])|;
  }

  function Width(units: Units): nat {
    if StartsPair(units) then 2 else 1
  }

  function FirstOf(units: Units): Point
    requires units != []
  {
    if StartsPair(units) then Combine(units[0], units[1])
    else if IsSurrogate(units[0]) then REPLACEMENT
    else units[0]
  }

  lemma FirstOfPart(units: Units, cut: nat)
    requires 1 <= Width(units) <= cut <= |units|
    ensures Decode(units[..cut]) == [FirstOf(units)] + Decode(units[Width(units)..][..cut - Width(units)])
  {
    var part := units[..cut];
    assert Width(part) == Width(units) && FirstOf(part) == FirstOf(units);
    assert part[Width(units)..] == units[Width(units)..][..cut - Width(units)];
  }

  lemma CutLater(units: Units, cut: nat)
    requires 1 <= Width(units) <= cut <= |units| && PartsFit(units[Width(units)..], cut - Width(units))
    ensures PartsFit(units, cut)
  {
    var width := Width(units);
    var rest := units[width..];
    FirstOfPart(units, cut);
    SplitsLater(units, width, cut);
    TailOfPart(units, rest, cut, cut - width);
    var head, middle, tail := [FirstOf(units)], Decode(rest[..cut - width]), Decode(rest[cut - width..]);
    OneInFront(head, middle, tail, Decode(rest), Decode(units[..cut]), Decode(units));
  }

  lemma TailOfPart(units: Units, rest: Units, cut: nat, k: nat)
    requires units != [] && Width(units) <= |units| && rest == units[Width(units)..]
    requires cut == Width(units) + k <= |units|
    ensures Decode(units[cut..]) == Decode(rest[k..]) && Decode(units) == [FirstOf(units)] + Decode(rest)
  {
    assert units[cut..] == rest[k..];
  }

  lemma OneInFront(head: Text, middle: Text, tail: Text, rest: Text, part: Text, whole: Text)
    requires part == head + middle && whole == head + rest
    ensures |part + tail| - |whole| == |middle + tail| - |rest|
    ensures middle + tail == rest ==> part + tail == whole
  {
    assert part + tail == head + (middle + tail);
  }

  /** A cut after the first character is in a pair of the rest if it is in a pair at all. */
  lemma SplitsLater(units: Units, width: nat, cut: nat)
    requires width == Width(units) <= cut <= |units|
    ensures SplitsPair(units[width..], cut - width) <==> SplitsPair(units, cut)
  {
  }

  lemma {:induction false} DecodeParts(units: Units, cut: nat)
    requires cut <= |units|
    ensures PartsFit(units, cut)
    decreases |units|
  {
    if cut == 0 {
      assert units[..cut] == [] && units[cut..] == units;
    } else if !StartsPair(units) {
      DecodeParts(units[1..], cut - 1);
      CutLater(units, cut);
    } else if cut == 1 {
      CutInPair(units);
    } else {
      DecodeParts(units[2..], cut - 2);
      CutLater(units, cut);
    }
  }

  /** A text in pieces at rising positions, the last of which is the end. */
  predicate Rising(cuts: seq<nat>) {
    forall i, j | 0 <= i < j < |cuts| :: cuts[i] < cuts[j]
  }

  predicate IsCutting(cuts: seq<nat>, length: nat) {
    Rising(cuts) && |cuts| > 0 && cuts[0] == 0 && cuts[|cuts| - 1] == length
  }

  /** The decoded pieces up to piece `n`, one after the other. */
  function Joined(units: Units, cuts: seq<nat>, n: nat): Text
    requires IsCutting(cuts, |units|) && n < |cuts|
  {
    if n == 0 then []
    else
      assert cuts[n - 1] < cuts[n] && (n < |cuts| - 1 ==> cuts[n] < cuts[|cuts| - 1]);
      Joined(units, cuts, n - 1) + Decode(units[cuts[n - 1]..cuts[n]])
  }

  predicate SplitsNoPair(units: Units, cuts: seq<nat>, n: nat)
    requires n <= |cuts|
  {
    forall k | 0 <= k < n :: !SplitsPair(units, cuts[k])
  }

  lemma {:induction false} JoinedPrefix(units: Units, cuts: seq<nat>, n: nat)
    requires IsCutting(cuts, |units|) && n < |cuts|
    ensures cuts[n] <= |units| && |Joined(units, cuts, n)| >= |Decode(units[..cuts[n]])|
    ensures SplitsNoPair(units, cuts, n) ==> Joined(units, cuts, n) == Decode(units[..cuts[n]])
    ensures !SplitsNoPair(units, cuts, n) ==> |Joined(units, cuts, n)| > |Decode(units[..cuts[n]])|
    decreases n
  {
    assert n < |cuts| - 1 ==> cuts[n] < cuts[|cuts| - 1];
    if n > 0 {
      JoinedPrefix(units, cuts, n - 1);
      assert cuts[n - 1] < cuts[n];
      var head, cut := units[..cuts[n]], cuts[n - 1];
      assert head[..cut] == units[..cut] && head[cut..] == units[cut..cuts[n]];
      DecodeParts(head, cut);
      assert SplitsPair(head, cut) <==> SplitsPair(units, cut);
    }
  }

  /** The decoded pieces of an encoded text are the text if and only if it has no half pair and no cut makes one. */
  lemma PiecesJoin(text: Text, cuts: seq<nat>)
    requires IsCutting(cuts, |Encode(text)|)
    ensures Joined(Encode(text), cuts, |cuts| - 1) == text
       <==> HasNoSurrogate(text) && SplitsNoPair(Encode(text), cuts, |cuts|)
  {
    var units, last := Encode(text), |cuts| - 1;
    JoinedPrefix(units, cuts, last);
    JoinedHasNoSurrogate(units, cuts, last);
    assert units[..cuts[last]] == units;
    RoundTrip(text);
    assert !SplitsPair(units, cuts[last]);
  }

  lemma {:induction false} JoinedHasNoSurrogate(units: Units, cuts: seq<nat>, n: nat)
    requires IsCutting(cuts, |units|) && n < |cuts|
    ensures HasNoSurrogate(Joined(units, cuts, n))
    decreases n
  {
    if n > 0 {
      JoinedHasNoSurrogate(units, cuts, n - 1);
      assert cuts[n - 1] < cuts[n] && (n < |cuts| - 1 ==> cuts[n] < cuts[|cuts| - 1]);
      DecodedHasNoSurrogate(units[cuts[n - 1]..cuts[n]]);
    }
  }
}
