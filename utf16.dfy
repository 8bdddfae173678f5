/**
  The already-normalized branch of the index map. The span is a Java string
  of UTF-16 code units; it is read code point by code point (String.codePointAt,
  Character.charCount), and the index map records the code-unit offset of
  every code point boundary.
*/
module Utf16 {

  predicate IsCodeUnit(u: int) { 0 <= u <= 0xFFFF }
  predicate IsHighSurrogate(u: int) { 0xD800 <= u <= 0xDBFF }
  predicate IsLowSurrogate(u: int) { 0xDC00 <= u <= 0xDFFF }

  predicate AllCodeUnits(units: seq<int>) {
    forall k :: 0 <= k < |units| ==> IsCodeUnit(units[k])
  }

  /** A high surrogate followed by a low surrogate starts at `index`. */
  predicate PairAt(units: seq<int>, index: nat) {
    index + 1 < |units| && IsHighSurrogate(units[index]) && IsLowSurrogate(units[index + 1])
  }

  /** String.codePointAt: a surrogate pair is combined, any other unit stands for itself. */
  function CodePointAt(units: seq<int>, index: nat): (cp: int)
    requires index < |units| && AllCodeUnits(units)
    ensures PairAt(units, index) <==> cp >= 0x10000
    ensures PairAt(units, index) ==> cp <= 0x10FFFF
    ensures !PairAt(units, index) ==> cp == units[index]
  {
    if PairAt(units, index) then
      (units[index] - 0xD800) * 0x400 + (units[index + 1] - 0xDC00) + 0x10000
    else
      units[index]
  }

  /** Character.charCount: supplementary code points take two code units. */
  function CharCount(cp: int): (n: nat)
    ensures 1 <= n <= 2
  {
    if cp >= 0x10000 then 2 else 1
  }

  /** The offset of the code point that follows the one starting at `index`. */
  function NextIndex(units: seq<int>, index: nat): (next: nat)
    requires index < |units| && AllCodeUnits(units)
    ensures index < next <= |units|
  {
    index + CharCount(CodePointAt(units, index))
  }

  /** The code points of `units[index..]`, in order. */
  function CodePointsFrom(units: seq<int>, index: nat): (cps: seq<int>)
    requires index <= |units| && AllCodeUnits(units)
    ensures index < |units| <==> |cps| >= 1
    decreases |units| - index
  {
    if index == |units| then [] else [CodePointAt(units, index)] + CodePointsFrom(units, NextIndex(units, index))
  }

  function CodePoints(units: seq<int>): (cps: seq<int>)
    requires AllCodeUnits(units)
  {
    CodePointsFrom(units, 0)
  }

  /**
    The code point boundaries of `units[index..]`, as offsets into `units`:
    `index` itself, then the offset after each code point.
  */
  function PositionsFrom(units: seq<int>, index: nat): (p: seq<int>)
    requires index <= |units| && AllCodeUnits(units)
    ensures |p| == |CodePointsFrom(units, index)| + 1 && p[0] == index
    decreases |units| - index
  {
    if index == |units| then [index] else [index] + PositionsFrom(units, NextIndex(units, index))
  }

  /** The index map of a normalized span (charPositions). */
  function CharPositions(units: seq<int>): (p: seq<int>)
    requires AllCodeUnits(units)
    ensures |p| == |CodePoints(units)| + 1 && p[0] == 0
  {
    PositionsFrom(units, 0)
  }

  /**
    `p` is an index map for the code points `cps` of `units`: one entry more
    than there are code points, each step the width of its code point, and
    each code point read at the boundary before it.
  */
  predicate MapsCodePoints(p: seq<int>, cps: seq<int>, units: seq<int>)
    requires AllCodeUnits(units)
  {
    && |p| == |cps| + 1
    && forall k :: 0 <= k < |cps| ==>
         0 <= p[k] < |units| && p[k + 1] == p[k] + CharCount(cps[k]) && CodePointAt(units, p[k]) == cps[k]
  }

  /** UTF-16 encoding of one code point, the inverse of CodePointAt. */
  function Encode(cp: int): (units: seq<int>) {
    if cp >= 0x10000 then [(cp - 0x10000) / 0x400 + 0xD800, (cp - 0x10000) % 0x400 + 0xDC00] else [cp]
  }

  function EncodeAll(cps: seq<int>): (units: seq<int>) {
    if cps == [] then [] else Encode(cps[0]) + EncodeAll(cps[1..])
  }

  lemma EncodeCodePointAt(units: seq<int>, index: nat)
    requires index < |units| && AllCodeUnits(units)
    ensures Encode(CodePointAt(units, index)) == units[index..NextIndex(units, index)]
  {
    if PairAt(units, index) {
      var h, l := units[index] - 0xD800, units[index + 1] - 0xDC00;
      assert 0 <= l < 0x400;
      assert (h * 0x400 + l) / 0x400 == h && (h * 0x400 + l) % 0x400 == l;
    }
  }

  /**
    Decoding loses nothing: re-encoding the code points read from a span
    gives back its code units, unpaired surrogates included.
  */
  lemma {:induction false} RoundTrip(units: seq<int>, index: nat)
    requires index <= |units| && AllCodeUnits(units)
    ensures EncodeAll(CodePointsFrom(units, index)) == units[index..]
    decreases |units| - index
  {
    if index < |units| {
      var next := NextIndex(units, index);
      var cps := CodePointsFrom(units, index);
      assert cps[0] == CodePointAt(units, index) && cps[1..] == CodePointsFrom(units, next);
      RoundTrip(units, next);
      EncodeCodePointAt(units, index);
      assert units[index..] == units[index..next] + units[next..];
    }
  }

  lemma {:induction false} PositionsFromShape(units: seq<int>, index: nat)
    requires index <= |units| && AllCodeUnits(units)
    ensures var p, cps := PositionsFrom(units, index), CodePointsFrom(units, index);
      && MapsCodePoints(p, cps, units)
      && p[0] == index && p[|cps|] == |units|
      && |cps| <= |units| - index
    decreases |units| - index
  {
    if index < |units| {
      var next := NextIndex(units, index);
      PositionsFromShape(units, next);
      var p, cps := PositionsFrom(units, index), CodePointsFrom(units, index);
      assert p[1..] == PositionsFrom(units, next) && cps[1..] == CodePointsFrom(units, next);
      forall k | 1 <= k < |cps|
        ensures 0 <= p[k] < |units| && p[k + 1] == p[k] + CharCount(cps[k]) && CodePointAt(units, p[k]) == cps[k]
      {
        assert p[k] == p[1..][k - 1] && p[k + 1] == p[1..][k] && cps[k] == cps[1..][k - 1];
      }
    }
  }

  /**
    The index map of a normalized span starts at 0, has one entry per code
    point plus one, grows by each code point's width (so it is strictly
    increasing), and ends at the span's length.
  */
  lemma CharPositionsShape(units: seq<int>)
    requires AllCodeUnits(units)
    ensures var p, cps := CharPositions(units), CodePoints(units);
      && MapsCodePoints(p, cps, units)
      && p[0] == 0 && p[|cps|] == |units| && |cps| <= |units|
      && (forall k, m :: 0 <= k < m <= |cps| ==> p[k] < p[m])
  {
    PositionsFromShape(units, 0);
    var p := CharPositions(units);
    StrictlyIncreasingFromSteps(p);
  }

  lemma StrictlyIncreasingFromSteps(p: seq<int>)
    requires forall k :: 0 <= k < |p| - 1 ==> p[k] < p[k + 1]
    ensures forall k, m :: 0 <= k < m < |p| ==> p[k] < p[m]
  {
    forall k, m | 0 <= k < m < |p| ensures p[k] < p[m] {
      var j := k + 1;
      while j < m
        invariant k < j <= m && p[k] < p[j]
      {
        j := j + 1;
      }
    }
  }

  /**
    The normalized branch of the index map (lines 94-101), over the
    `inputLength + 1` slots the source allocates.
  */
  method BuildCharPositions(units: seq<int>) returns (numChars: nat, charPositions: seq<int>)
    requires AllCodeUnits(units)
    ensures numChars == |CodePoints(units)|
    ensures charPositions == CharPositions(units)
  {
    var positions := new int[|units| + 1];
    var index := 0;
    numChars := 0;
    positions[0] := 0;
    while index < |units|
      invariant 0 <= index <= |units| && numChars <= index
      invariant positions[numChars] == index
      invariant positions[..numChars] + PositionsFrom(units, index) == CharPositions(units)
      invariant numChars + |CodePointsFrom(units, index)| == |CodePoints(units)|
      decreases |units| - index
    {
      ghost var before := positions[..numChars];
      var codepoint := CodePointAt(units, index);
      ghost var rest := PositionsFrom(units, NextIndex(units, index));
      assert PositionsFrom(units, index) == [index] + rest;
      assert CodePointsFrom(units, index) == [codepoint] + CodePointsFrom(units, NextIndex(units, index));
      index := index + CharCount(codepoint);
      numChars := numChars + 1;
      positions[numChars] := index;
      assert positions[..numChars] == before + [index - CharCount(codepoint)];
      assert before + ([index - CharCount(codepoint)] + rest) == (before + [index - CharCount(codepoint)]) + rest;
    }
    charPositions := positions[..numChars + 1];
    assert positions[..numChars + 1] == positions[..numChars] + [index];
  }
}
