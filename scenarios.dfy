/**
  The engine on inputs whose outcome is known in advance. With a dictionary
  that knows no words, text without Katakana or Hangul falls apart into
  single characters, while a short Katakana run stays one word.
*/
module Scenarios {
  import opened Int32
  import opened Scripts
  import opened Utf16
  import opened Segmenter
  import opened Optimality
  import opened Backtrack
  import opened Merge
  import opened Engine

  /** A dictionary that knows no words. */
  function NoWords(text: seq<int>, i: nat, maxLen: nat): (ms: seq<Match>)
    ensures ValidMatches(ms, maxLen)
  {
    []
  }

  lemma NoWordsContract()
    ensures MatcherContract(NoWords)
  {
    forall text, i, maxLen
      ensures ValidMatches(NoWords(text, i, maxLen), maxLen)
    {
    }
  }

  /** No character is Katakana or Hangul. */
  predicate Plain(text: seq<int>) {
    forall k :: 0 <= k < |text| ==> !IsKatakana(text[k]) && !IsHangulSyllable(text[k])
  }

  /**
    The tables after the pass has gone over positions 0..i-1 of a plain text
    with no dictionary words: every position up to i is reached from the one
    before it at 255 per character, and nothing beyond i is reached.
  */
  predicate SingleSteps(t: Table, numChars: nat, i: nat)
    requires i <= numChars
  {
    && Sized(t, numChars)
    && (forall k :: 0 <= k <= i ==> t.best[k] == MAX_SNLP * k)
    && (forall k :: 1 <= k <= i ==> t.prev[k] == k - 1)
    && (forall k :: i < k <= numChars ==> t.best[k] == UNREACHED && t.prev[k] == -1)
  }

  /** The only edge from a position of a plain text, with no dictionary words, is the fallback. */
  lemma OnlyFallbackEdge(text: seq<int>, i: nat, prevKatakana: bool)
    requires Plain(text) && i < |text|
    ensures MatcherContract(NoWords)
    ensures Edges(NoWords, text, i, prevKatakana) == [Edge(i + 1, MAX_SNLP)]
  {
    NoWordsContract();
    assert Candidates(NoWords, text, i) == [Match(1, MAX_SNLP)];
    assert KatakanaEdges(text, i, prevKatakana) == [];
  }

  lemma SingleStepsStep(text: seq<int>, s: Pass, i: nat)
    requires Plain(text) && i < |text| && MAX_SNLP * |text| < INT32_MAX
    requires SingleSteps(s.table, |text|, i)
    ensures MatcherContract(NoWords)
    ensures SingleSteps(Step(NoWords, text, s, i).table, |text|, i + 1)
  {
    OnlyFallbackEdge(text, i, s.prevKatakana);
    var t := s.table;
    var e := Edge(i + 1, MAX_SNLP);
    assert t.best[i] == MAX_SNLP * i < UNREACHED;
    assert RelaxAll(t, i, [e]) == Relax(t, i, e) by {
      assert [e][..0] == [];
    }
    assert Add(t.best[i], MAX_SNLP) == MAX_SNLP * (i + 1);
  }

  lemma {:induction false} SingleStepsForward(text: seq<int>, i: nat)
    requires Plain(text) && i <= |text| && MAX_SNLP * |text| < INT32_MAX
    ensures MatcherContract(NoWords)
    ensures SingleSteps(Forward(NoWords, text, i).table, |text|, i)
  {
    NoWordsContract();
    if i > 0 {
      var j := i - 1;
      SingleStepsForward(text, j);
      ForwardUnfold(NoWords, text, j);
      SingleStepsStep(text, Forward(NoWords, text, j), j);
    }
  }

  /** n, n-1, ..., 1. */
  function Descending(n: nat): (d: seq<int>)
    ensures |d| == n
    ensures forall m :: 0 <= m < n ==> d[m] == n - m
  {
    if n == 0 then [] else [n] + Descending(n - 1)
  }

  lemma {:induction false} ChainOfSingleSteps(t: Table, numChars: nat, k: nat)
    requires SingleSteps(t, numChars, numChars) && Linked(t) && k <= numChars
    ensures t.best[k] != UNREACHED && Chain(t, k) == Descending(k)
  {
    assert t.best[k] == MAX_SNLP * k;
    if k > 0 {
      var j := k - 1;
      ChainOfSingleSteps(t, numChars, j);
      assert t.prev[k] == j;
    }
  }

  /**
    A plain text of n characters and no dictionary words: the pass reaches
    the end at 255 per character, and the backtrack yields every position
    n, n-1, ..., 1.
  */
  lemma FallbackSplitsEverywhere(text: seq<int>)
    requires Plain(text) && MAX_SNLP * |text| < INT32_MAX
    ensures MatcherContract(NoWords)
    ensures Forward(NoWords, text, |text|).table.best[|text|] == MAX_SNLP * |text|
    ensures Boundaries(Forward(NoWords, text, |text|).table, |text|) == Descending(|text|)
  {
    SingleStepsForward(text, |text|);
    ChainOfSingleSteps(Forward(NoWords, text, |text|).table, |text|, |text|);
  }

  /** The offsets of positions 1..m of the index map, shifted by the range start. */
  function Inner(positions: seq<int>, startPos: int, m: nat): (s: seq<int>)
    requires m < |positions|
    ensures |s| == m
    ensures forall k :: 0 <= k < m ==> s[k] == startPos + positions[k + 1]
  {
    seq(m, k requires 0 <= k < m => startPos + positions[k + 1])
  }

  /** Read backwards and mapped, n, n-1, ..., 1 are the offsets of positions 1..n. */
  lemma PushOrderDescending(n: nat, positions: seq<int>, startPos: int)
    requires |positions| == n + 1
    ensures PushOrder(Descending(n), positions, startPos) == Inner(positions, startPos, n)
  {
  }

  /** For a strictly increasing index map, the shifted offsets are distinct, never the range start, and end at the range end. */
  lemma InnerShape(n: nat, positions: seq<int>, startPos: int, endPos: int)
    requires n >= 1 && |positions| == n + 1 && positions[0] == 0 && Increasing(positions)
    requires positions[n] == endPos - startPos
    ensures var ps := Inner(positions, startPos, n);
      && Distinct(ps) && ps[n - 1] == endPos
      && forall k :: 0 <= k < n ==> ps[k] != startPos
  {
    var ps := Inner(positions, startPos, n);
    forall a, b | 0 <= a < b < n
      ensures ps[a] != ps[b]
    {
      assert positions[a + 1] < positions[b + 1];
    }
    forall k | 0 <= k < n
      ensures ps[k] != startPos
    {
      assert positions[0] < positions[k + 1];
    }
  }

  lemma InnerPrefix(positions: seq<int>, startPos: int, m: nat)
    requires m + 1 < |positions|
    ensures Inner(positions, startPos, m + 1)[..m] == Inner(positions, startPos, m)
  {
  }

  /** Pushing distinct offsets, none of them the range start, onto an empty stack and dropping the range end at the top. */
  lemma PushAllDropEnd(ps: seq<int>, startPos: int, endPos: int)
    requires ps != [] && ps[|ps| - 1] == endPos && Distinct(ps)
    requires forall k :: 0 <= k < |ps| ==> ps[k] != startPos
    ensures DropEnd(PushNew([], ps, startPos), endPos) == ps[..|ps| - 1]
  {
    PushNewAllNew([], ps, startPos);
    assert [] + ps == ps;
  }

  /** The merge of n, n-1, ..., 1 into an empty stack: every inner boundary, in order. */
  lemma MergeDescending(n: nat, positions: seq<int>, startPos: int, endPos: int)
    requires n >= 1 && |positions| == n + 1 && positions[0] == 0 && Increasing(positions)
    requires positions[n] == endPos - startPos
    ensures Merged([], Descending(n), positions, startPos, endPos) == Inner(positions, startPos, n - 1)
  {
    InjectionIsNoOp([], Descending(n), positions, startPos, endPos);
    PushOrderDescending(n, positions, startPos);
    InnerShape(n, positions, startPos, endPos);
    PushAllDropEnd(Inner(positions, startPos, n), startPos, endPos);
    InnerPrefix(positions, startPos, n - 1);
  }

  /** The merge of the fallback segmentation of a plain text, for any index map. */
  lemma FallbackMerge(text: seq<int>, positions: seq<int>, startPos: int, endPos: int)
    requires Plain(text) && MAX_SNLP * |text| < INT32_MAX && |text| >= 1
    requires |positions| == |text| + 1 && positions[0] == 0 && Increasing(positions)
    requires positions[|text|] == endPos - startPos
    ensures MatcherContract(NoWords)
    ensures var n := |text|;
      Merged([], Boundaries(Forward(NoWords, text, n).table, n), positions, startPos, endPos)
        == Inner(positions, startPos, n - 1)
  {
    FallbackSplitsEverywhere(text);
    MergeDescending(|text|, positions, startPos, endPos);
  }

  /**
    The single-unit fallback end to end: a span whose stream is plain, with
    no dictionary words, merged into an empty stack, yields a break after
    every character of the stream except the last.
  */
  lemma FallbackBreaksEveryCharacter(span: seq<int>, form: NormalForm, startPos: int, endPos: int)
    requires AllCodeUnits(span) && |span| >= 1 && WellFormed(form) && endPos - startPos == |span|
    requires Plain(PassText(span, form)) && MAX_SNLP * |PassText(span, form)| < INT32_MAX
    requires form.Renormalized? ==> Increasing(Positions(span, form)) && form.offsets[|form.offsets| - 1] == |span|
    ensures MatcherContract(NoWords)
    ensures var n, positions := |PassText(span, form)|, Positions(span, form);
      RangeBreaks(NoWords, span, form, startPos, endPos, [])
        == Inner(positions, startPos, n - 1)
  {
    NoWordsContract();
    PositionsShape(span, form);
    FallbackMerge(PassText(span, form), Positions(span, form), startPos, endPos);
  }

  /** No code unit is a surrogate. */
  predicate NoSurrogates(units: seq<int>) {
    forall k :: 0 <= k < |units| ==> !IsHighSurrogate(units[k]) && !IsLowSurrogate(units[k])
  }

  /** A code unit that is not a surrogate is a character of its own. */
  lemma PlainStep(units: seq<int>, index: nat)
    requires AllCodeUnits(units) && NoSurrogates(units) && index < |units|
    ensures CodePointAt(units, index) == units[index] && NextIndex(units, index) == index + 1
    ensures CodePointsFrom(units, index) == [units[index]] + CodePointsFrom(units, index + 1)
    ensures PositionsFrom(units, index) == [index] + PositionsFrom(units, index + 1)
  {
    assert !PairAt(units, index);
  }

  /** Without surrogates every code unit is one character. */
  lemma {:induction false} CodePointsWithoutSurrogates(units: seq<int>, index: nat)
    requires AllCodeUnits(units) && NoSurrogates(units) && index <= |units|
    ensures CodePointsFrom(units, index) == units[index..]
    decreases |units| - index
  {
    if index < |units| {
      PlainStep(units, index);
      CodePointsWithoutSurrogates(units, index + 1);
      assert units[index..] == [units[index]] + units[index + 1..];
    }
  }

  /** from, from + 1, ..., from + len - 1. */
  function Count(from: int, len: nat): (c: seq<int>)
    ensures |c| == len
    ensures forall k :: 0 <= k < len ==> c[k] == from + k
  {
    seq(len, k requires 0 <= k < len => from + k)
  }

  lemma CountCons(from: int, len: nat)
    ensures [from] + Count(from + 1, len) == Count(from, len + 1)
  {
  }

  /** Without surrogates the index map from index counts up by one. */
  lemma {:induction false} PositionsWithoutSurrogates(units: seq<int>, index: nat)
    requires AllCodeUnits(units) && NoSurrogates(units) && index <= |units|
    ensures PositionsFrom(units, index) == Count(index, |units| - index + 1)
    decreases |units| - index
  {
    if index < |units| {
      PlainStep(units, index);
      PositionsWithoutSurrogates(units, index + 1);
      CountCons(index, |units| - index);
    } else {
      assert Count(index, 1) == [index];
    }
  }

  /** Without surrogates a normalized span is its own stream, and its index map is the identity. */
  lemma IdentityIndexMap(span: seq<int>)
    requires AllCodeUnits(span) && NoSurrogates(span) && |span| >= 1
    ensures PassText(span, AlreadyNormalized) == span
    ensures Positions(span, AlreadyNormalized) == Count(0, |span| + 1)
  {
    CodePointsWithoutSurrogates(span, 0);
    PositionsWithoutSurrogates(span, 0);
    assert span[0..] == span;
  }

  /** Without surrogates the shifted inner offsets are every offset strictly inside the range. */
  lemma IdentityOffsets(span: seq<int>, startPos: int)
    requires AllCodeUnits(span) && NoSurrogates(span) && |span| >= 1
    ensures |PassText(span, AlreadyNormalized)| == |span|
    ensures Inner(Positions(span, AlreadyNormalized), startPos, |span| - 1) == Count(startPos + 1, |span| - 1)
  {
    IdentityIndexMap(span);
  }

  /**
    The single-unit fallback on a normalized span without surrogate pairs:
    a break at every offset strictly inside the span.
  */
  lemma FallbackBreaksEveryOffset(span: seq<int>, startPos: int, endPos: int)
    requires AllCodeUnits(span) && NoSurrogates(span) && |span| >= 1 && endPos - startPos == |span|
    requires Plain(span) && MAX_SNLP * |span| < INT32_MAX
    ensures MatcherContract(NoWords)
    ensures RangeBreaks(NoWords, span, AlreadyNormalized, startPos, endPos, []) == Count(startPos + 1, |span| - 1)
  {
    IdentityIndexMap(span);
    FallbackBreaksEveryCharacter(span, AlreadyNormalized, startPos, endPos);
    IdentityOffsets(span, startPos);
  }

  /** Every character is Katakana. */
  predicate AllKatakana(text: seq<int>) {
    forall k :: 0 <= k < |text| ==> IsKatakana(text[k])
  }

  /**
    The tables after the pass has gone over positions 0..i-1 (i >= 1) of an
    all-Katakana text of n characters with no dictionary words: the group
    edge from 0 has reached the end at the grouped cost, and positions up to
    i inside the run are reached one fallback step at a time.
  */
  predicate GroupedSteps(t: Table, n: nat, i: nat)
    requires 1 <= i <= n
  {
    && Sized(t, n)
    && t.best[0] == 0 && t.prev[0] == -1
    && (forall k :: 1 <= k <= i && k < n ==> t.best[k] == MAX_SNLP * k && t.prev[k] == k - 1)
    && (forall k :: i < k < n ==> t.best[k] == UNREACHED && t.prev[k] == -1)
    && t.best[n] == KatakanaCost(n) && t.prev[n] == 0
  }

  /** From the start of a run of 2 to 8 Katakana: the fallback edge and the edge over the whole run. */
  lemma GroupedFirstEdges(text: seq<int>)
    requires AllKatakana(text) && 2 <= |text| <= KATAKANA_MAX_LENGTH
    ensures MatcherContract(NoWords)
    ensures Edges(NoWords, text, 0, false) == [Edge(1, MAX_SNLP), Edge(|text|, KatakanaCost(|text|))]
  {
    NoWordsContract();
    KatakanaHasSingleStep(NoWords, text, 0);
    assert Candidates(NoWords, text, 0) == [Match(1, MAX_SNLP)];
    assert KatakanaRunEnd(text, 0) == |text|;
  }

  lemma RelaxTwo(t: Table, i: nat, e1: Edge, e2: Edge)
    requires |t.best| == |t.prev| && i < e1.target < |t.best| && i < e2.target < |t.best|
    requires 0 <= e1.cost <= INT32_MAX && 0 <= e2.cost <= INT32_MAX
    ensures EdgesFrom([e1, e2], i, |t.best| - 1)
    ensures RelaxAll(t, i, [e1, e2]) == Relax(Relax(t, i, e1), i, e2)
  {
    assert [e1, e2][..1] == [e1];
    assert [e1][..0] == [];
    assert RelaxAll(t, i, [e1]) == Relax(t, i, e1);
  }

  /** The group edge and the fallback edge from position 0, applied to the initial tables. */
  lemma GroupedFirstRelax(n: nat)
    requires 2 <= n <= KATAKANA_MAX_LENGTH
    ensures var e1, e2 := Edge(1, MAX_SNLP), Edge(n, KatakanaCost(n));
      EdgesFrom([e1, e2], 0, n) &&
      GroupedSteps(RelaxAll(InitialTable(n), 0, [e1, e2]), n, 1)
  {
    var t := InitialTable(n);
    var e1, e2 := Edge(1, MAX_SNLP), Edge(n, KatakanaCost(n));
    RelaxTwo(t, 0, e1, e2);
    assert Add(0, MAX_SNLP) == MAX_SNLP && Add(0, KatakanaCost(n)) == KatakanaCost(n);
    var r1 := Relax(t, 0, e1);
    assert r1.best[1] == MAX_SNLP && r1.prev[1] == 0;
    var r2 := Relax(r1, 0, e2);
    assert r2.best[n] == KatakanaCost(n) && r2.prev[n] == 0;
  }

  lemma GroupedFirstStep(text: seq<int>, i: nat)
    requires AllKatakana(text) && 2 <= |text| <= KATAKANA_MAX_LENGTH && i == 1
    ensures MatcherContract(NoWords)
    ensures GroupedSteps(Forward(NoWords, text, i).table, |text|, i)
  {
    var n := |text|;
    GroupedFirstEdges(text);
    ForwardUnfold(NoWords, text, 0);
    var s := Forward(NoWords, text, 0);
    assert s == Pass(InitialTable(n), false);
    GroupedFirstRelax(n);
    assert Step(NoWords, text, s, 0).table
        == RelaxAll(InitialTable(n), 0, [Edge(1, MAX_SNLP), Edge(n, KatakanaCost(n))]);
  }

  /** Inside the run only the fallback edge is tried. */
  lemma GroupedInnerEdges(text: seq<int>, i: nat)
    requires AllKatakana(text) && 1 <= i < |text|
    ensures MatcherContract(NoWords)
    ensures Edges(NoWords, text, i, true) == [Edge(i + 1, MAX_SNLP)]
  {
    NoWordsContract();
    KatakanaHasSingleStep(NoWords, text, i);
    assert Candidates(NoWords, text, i) == [Match(1, MAX_SNLP)];
    assert KatakanaEdges(text, i, true) == [];
  }

  /** The fallback edge inside the run never undercuts the group edge at the end. */
  lemma GroupedInnerRelax(t: Table, n: nat, i: nat)
    requires 2 <= n <= KATAKANA_MAX_LENGTH && 1 <= i < n && GroupedSteps(t, n, i)
    ensures EdgesFrom([Edge(i + 1, MAX_SNLP)], i, n)
    ensures GroupedSteps(RelaxAll(t, i, [Edge(i + 1, MAX_SNLP)]), n, i + 1)
  {
    var e := Edge(i + 1, MAX_SNLP);
    assert t.best[i] == MAX_SNLP * i < UNREACHED;
    assert RelaxAll(t, i, [e]) == Relax(t, i, e) by {
      assert [e][..0] == [];
    }
    assert Add(t.best[i], MAX_SNLP) == MAX_SNLP * (i + 1);
    GroupingBeatsFallback(n);
  }

  lemma GroupedStep(text: seq<int>, s: Pass, i: nat)
    requires AllKatakana(text) && 2 <= |text| <= KATAKANA_MAX_LENGTH && 1 <= i < |text|
    requires GroupedSteps(s.table, |text|, i) && s.prevKatakana == PrevKatakana(text, s.table.best, i)
    ensures MatcherContract(NoWords)
    ensures GroupedSteps(Step(NoWords, text, s, i).table, |text|, i + 1)
  {
    GroupedPrevKatakana(text, s.table, i);
    GroupedInnerEdges(text, i);
    GroupedInnerRelax(s.table, |text|, i);
    assert s.table.best[i] != UNREACHED;
  }

  /** Inside the run the position before is reached and Katakana. */
  lemma GroupedPrevKatakana(text: seq<int>, t: Table, i: nat)
    requires AllKatakana(text) && 2 <= |text| && 1 <= i <= |text| && GroupedSteps(t, |text|, i)
    ensures PrevKatakana(text, t.best, i)
  {
    assert t.best[i - 1] != UNREACHED;
  }

  lemma {:induction false} GroupedForward(text: seq<int>, i: nat)
    requires AllKatakana(text) && 2 <= |text| <= KATAKANA_MAX_LENGTH && 1 <= i <= |text|
    ensures MatcherContract(NoWords)
    ensures GroupedSteps(Forward(NoWords, text, i).table, |text|, i)
  {
    NoWordsContract();
    if i > 1 {
      var j := i - 1;
      GroupedForward(text, j);
      GroupedForwardStep(text, j);
      assert Forward(NoWords, text, j + 1) == Forward(NoWords, text, i);
    } else {
      GroupedFirstStep(text, i);
    }
  }

  lemma GroupedForwardStep(text: seq<int>, j: nat)
    requires AllKatakana(text) && 2 <= |text| <= KATAKANA_MAX_LENGTH && 1 <= j < |text|
    requires MatcherContract(NoWords)
    requires GroupedSteps(Forward(NoWords, text, j).table, |text|, j)
    ensures GroupedSteps(Forward(NoWords, text, j + 1).table, |text|, j + 1)
  {
    ForwardUnfold(NoWords, text, j);
    GroupedStep(text, Forward(NoWords, text, j), j);
  }

  /**
    A run of 2 to 8 Katakana with no dictionary words is one word: the pass
    reaches the end at the grouped cost, cheaper than one fallback word per
    character, and the backtrack yields the end alone.
  */
  lemma KatakanaRunIsOneWord(text: seq<int>)
    requires AllKatakana(text) && 2 <= |text| <= KATAKANA_MAX_LENGTH
    ensures MatcherContract(NoWords)
    ensures Forward(NoWords, text, |text|).table.best[|text|] == KatakanaCost(|text|) < MAX_SNLP * |text|
    ensures Boundaries(Forward(NoWords, text, |text|).table, |text|) == [|text|]
  {
    var n := |text|;
    GroupedForward(text, n);
    GroupingBeatsFallback(n);
    var t := Forward(NoWords, text, n).table;
    assert Chain(t, n) == [n] + Chain(t, 0);
  }

  /** Merging the end alone into an empty stack pushes the range end and drops it again. */
  lemma MergeEndAlone(n: nat, positions: seq<int>, startPos: int, endPos: int)
    requires n >= 1 && |positions| == n + 1 && positions[0] == 0 && positions[n] == endPos - startPos
    requires startPos < endPos
    ensures Merged([], [n], positions, startPos, endPos) == []
  {
    InjectionIsNoOp([], [n], positions, startPos, endPos);
    assert PushOrder([n], positions, startPos) == [endPos];
    assert PushNew([], [endPos], startPos) == [endPos] by {
      assert [endPos][..0] == [];
    }
  }

  /**
    End to end: a span whose stream is a run of 2 to 8 Katakana, with no
    dictionary words, merged into an empty stack, adds no break at all (the
    range end itself is dropped).
  */
  lemma KatakanaRunHasNoInnerBreak(span: seq<int>, form: NormalForm, startPos: int, endPos: int)
    requires AllCodeUnits(span) && |span| >= 1 && WellFormed(form) && endPos - startPos == |span|
    requires AllKatakana(PassText(span, form)) && 2 <= |PassText(span, form)| <= KATAKANA_MAX_LENGTH
    requires form.Renormalized? ==> Increasing(Positions(span, form)) && form.offsets[|form.offsets| - 1] == |span|
    ensures MatcherContract(NoWords)
    ensures RangeBreaks(NoWords, span, form, startPos, endPos, []) == []
  {
    var text := PassText(span, form);
    KatakanaRunIsOneWord(text);
    PositionsShape(span, form);
    MergeEndAlone(|text|, Positions(span, form), startPos, endPos);
  }
}
