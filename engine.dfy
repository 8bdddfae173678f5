/**
  findBreaks as a whole: copy the range, build the index map, run the
  forward pass, backtrack, and merge the breaks into the caller's stack.
*/
module Engine {
  import opened Scripts
  import opened Utf16
  import opened Segmenter
  import opened ForwardSearch
  import opened Backtrack
  import opened Merge

  /**
    How the range reaches the pass. AlreadyNormalized: the range passed the
    NFKC check and the pass reads its own code points. Renormalized: the
    range was rewritten to NFKC; `chars` are the normalized code points and
    `offsets[k]` the offset into the range that the normalizer reported after
    handing out the first k + 1 of them.
  */
  datatype NormalForm = AlreadyNormalized | Renormalized(chars: seq<int>, offsets: seq<int>)

  /** The normalizer hands out at least one code point, and one offset with each. */
  predicate WellFormed(form: NormalForm) {
    form.Renormalized? ==> |form.chars| >= 1 && |form.offsets| == |form.chars|
  }

  /** The code points the forward pass runs over. */
  function PassText(span: seq<int>, form: NormalForm): (text: seq<int>)
    requires AllCodeUnits(span) && |span| >= 1 && WellFormed(form)
    ensures |text| >= 1
    ensures form.AlreadyNormalized? ==> text == CodePoints(span)
    ensures form.Renormalized? ==> text == form.chars
  {
    match form
    case AlreadyNormalized => CodePoints(span)
    case Renormalized(chars, _) => chars
  }

  /** charPositions: offset into the range of each position of the pass, and of its end. */
  function Positions(span: seq<int>, form: NormalForm): (positions: seq<int>)
    requires AllCodeUnits(span) && |span| >= 1 && WellFormed(form)
    ensures |positions| == |PassText(span, form)| + 1 && positions[0] == 0
  {
    match form
    case AlreadyNormalized => CharPositions(span)
    case Renormalized(_, offsets) => [0] + offsets
  }

  /**
    The stack findBreaks leaves for the range units[startPos..endPos] on top
    of `items`: the backtracked boundaries of the forward pass over the
    range, merged.
  */
  ghost function RangeBreaks(dict: Matcher, span: seq<int>, form: NormalForm, startPos: int, endPos: int, items: seq<int>): (r: seq<int>)
    requires MatcherContract(dict) && AllCodeUnits(span) && |span| >= 1 && WellFormed(form)
  {
    var text := PassText(span, form);
    var t := Forward(dict, text, |text|).table;
    var bs := Boundaries(t, |text|);
    Merged(items, bs, Positions(span, form), startPos, endPos)
  }

  /** Lines 79-87: copy the range out of the iterator, one code unit at a time. */
  method CopyRange(units: seq<int>, startPos: nat, endPos: nat) returns (s: seq<int>)
    requires startPos <= endPos <= |units|
    ensures s == units[startPos..endPos]
  {
    s := [];
    var index := startPos;
    while index < endPos
      invariant startPos <= index <= endPos && s == units[startPos..index]
    {
      s := s + [units[index]];
      index := index + 1;
    }
  }

  /**
    Lines 88-115: the text of the pass and its index map, from the range's
    own code points when it is already normalized and from the normalizer's
    output otherwise.
  */
  method IndexMap(span: seq<int>, form: NormalForm) returns (text: seq<int>, positions: seq<int>)
    requires AllCodeUnits(span) && |span| >= 1 && WellFormed(form)
    ensures text == PassText(span, form) && positions == Positions(span, form)
  {
    if form.AlreadyNormalized? {
      var numChars;
      numChars, positions := BuildCharPositions(span);
      text := CodePoints(span);
    } else {
      text, positions := form.chars, [0] + form.offsets;
    }
  }

  /**
    Lines 72-218: findBreaks on the range [startPos, endPos) of the
    iterator's text `units`. `reverse` and `breakType` are not read.
  */
  method FindBreaks(units: seq<int>, startPos: int, endPos: int, reverse: bool, breakType: int,
                    form: NormalForm, dict: Matcher, foundBreaks: BreakStack) returns (r: int)
    requires MatcherContract(dict)
    requires startPos < endPos ==> 0 <= startPos && endPos <= |units| && AllCodeUnits(units[startPos..endPos]) && WellFormed(form)
    modifies foundBreaks
    ensures r == 0
    ensures startPos >= endPos ==> foundBreaks.items == old(foundBreaks.items)
    ensures startPos < endPos ==>
      foundBreaks.items == RangeBreaks(dict, units[startPos..endPos], form, startPos, endPos, old(foundBreaks.items))
  {
    if startPos >= endPos {
      return 0;
    }
    var span := CopyRange(units, startPos, endPos);
    SegmentRange(span, form, dict, foundBreaks, startPos, endPos);
    return 0;
  }

  /** The backtrack of the arrays is the backtrack of the functional tables; stated apart so that `SegmentRange` does not unfold `Boundaries`. */
  lemma SameBoundaries(best: seq<int>, prev: seq<int>, t: Table, n: nat)
    requires Table(best, prev) == t && |best| == n + 1 && Linked(t)
    ensures Boundaries(Table(best, prev), |best| - 1) == Boundaries(t, n)
  {
  }

  /** Lines 88-217: segment the copied range and merge its breaks into the stack. */
  method SegmentRange(span: seq<int>, form: NormalForm, dict: Matcher, foundBreaks: BreakStack, startPos: int, endPos: int)
    requires MatcherContract(dict) && AllCodeUnits(span) && |span| >= 1 && WellFormed(form)
    modifies foundBreaks
    ensures foundBreaks.items == RangeBreaks(dict, span, form, startPos, endPos, old(foundBreaks.items))
  {
    var text, positions := IndexMap(span, form);
    var best, prev := ForwardPass(dict, text);
    ghost var t := Forward(dict, text, |text|).table;
    assert Linked(t) && |t.best| == |text| + 1;
    assert Table(best, prev) == t;
    var boundary, numBreaks := Collect(best, prev);
    ghost var bs := Boundaries(t, |text|);
    SameBoundaries(best, prev, t, |text|);
    ghost var items := foundBreaks.items;
    MergeBreaks(foundBreaks, boundary, numBreaks, positions, startPos, endPos);
    assert foundBreaks.items == Merged(items, bs, positions, startPos, endPos);
  }

  /**
    Over a range that reaches the pass as its own code points, position i of
    the pass is the code point that starts at the i-th boundary of the index
    map, read within the range.
  */
  lemma PassTextReadsRange(span: seq<int>)
    requires AllCodeUnits(span) && |span| >= 1
    ensures var text, positions := PassText(span, AlreadyNormalized), Positions(span, AlreadyNormalized);
      forall i :: 0 <= i < |text| ==>
        0 <= positions[i] < |span| && text[i] == CodePointAt(span, positions[i])
  {
    CharPositionsShape(span);
  }

  /**
    What the forward pass of the already-normalized branch reads at position
    i: it moves the caller's iterator, which spans the whole text, to index i
    and reads the code point there.
  */
  function CursorRead(units: seq<int>, i: nat): (cp: int)
    requires i < |units| && AllCodeUnits(units)
    ensures 0 <= cp <= 0x10FFFF
  {
    CodePointAt(units, i)
  }

  /**
    A range that does not start at 0: the pass is meant to see the Katakana
    letter at the range start, but the shared iterator shows it the
    ideograph before the range.
  */
  lemma CursorMisreadsOffsetRange()
    ensures var units := [0x4E00, 0x30A2];
      && CursorRead(units, 0) == 0x4E00 && !IsKatakana(CursorRead(units, 0))
      && PassText(units[1..2], AlreadyNormalized)[0] == 0x30A2 && IsKatakana(PassText(units[1..2], AlreadyNormalized)[0])
  {
    var span := [0x30A2];
    assert CodePointsFrom(span, 1) == [];
  }

  /**
    A range at 0 that opens with a surrogate pair: position 1 of the pass is
    meant to be the Katakana letter after the pair, but index 1 of the
    iterator is the pair's low half.
  */
  lemma CursorMisreadsAfterPair()
    ensures var units := [0xD840, 0xDC00, 0x30A2];
      && CursorRead(units, 1) == 0xDC00 && !IsKatakana(CursorRead(units, 1))
      && PassText(units, AlreadyNormalized)[1] == 0x30A2 && IsKatakana(PassText(units, AlreadyNormalized)[1])
  {
    var units := [0xD840, 0xDC00, 0x30A2];
    assert PairAt(units, 0) && !PairAt(units, 2);
    assert CodePointsFrom(units, 3) == [];
    assert CodePointsFrom(units, 2) == [0x30A2];
  }

  /**
    The index map rises strictly from 0 to the span length: always for an
    already-normalized span, and for a renormalized one when its offsets do.
  */
  lemma PositionsShape(span: seq<int>, form: NormalForm)
    requires AllCodeUnits(span) && |span| >= 1 && WellFormed(form)
    requires form.Renormalized? ==> Increasing(Positions(span, form)) && form.offsets[|form.offsets| - 1] == |span|
    ensures var positions := Positions(span, form);
      Increasing(positions) && positions[0] == 0 && positions[|positions| - 1] == |span|
  {
    if form.AlreadyNormalized? {
      CharPositionsShape(span);
    }
  }

  /**
    Whatever the dictionary, a range that reaches the pass increasing from 0
    to its length (always so when it is already normalized) adds to a stack
    that lacks the range end only positions strictly inside the range, in
    increasing order and none of them on the stack before; the stack below
    them is kept.
  */
  lemma RangeBreaksAppendInside(dict: Matcher, span: seq<int>, form: NormalForm, startPos: int, endPos: int, items: seq<int>)
    requires MatcherContract(dict) && AllCodeUnits(span) && |span| >= 1 && WellFormed(form)
    requires endPos - startPos == |span|
    requires form.Renormalized? ==> Increasing(Positions(span, form)) && form.offsets[|form.offsets| - 1] == |span|
    requires endPos !in items
    ensures AppendsInside(items, RangeBreaks(dict, span, form, startPos, endPos, items), startPos, endPos)
  {
    var text := PassText(span, form);
    var n := |text|;
    var t := Forward(dict, text, n).table;
    var positions := Positions(span, form);
    PositionsShape(span, form);
    var bs := Boundaries(t, n);
    if t.best[n] != UNREACHED {
      ChainDecreasing(t, n);
    }
    MergeAppendsInside(items, bs, positions, startPos, endPos);
  }
}
