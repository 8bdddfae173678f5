/**
  The dynamic-programming core of the CJK word segmenter: candidate words at
  each position of the normalized stream, the Katakana run heuristic, and the
  forward minimum-cost pass that fills the cost table (bestSnlp) and the
  predecessor table (prev).
*/
module Segmenter {
  import opened Int32
  import opened Scripts

  /** maxWordSize: the dictionary is never asked for words longer than this. */
  const MAX_WORD_SIZE: nat := 20
  /** kMaxKatakanaGroupLength. */
  const KATAKANA_GROUP_MAX: nat := 20
  /** kint32max: the cost of a position that no path reaches (yet). */
  const UNREACHED: int := INT32_MAX

  /** One dictionary candidate at a position: a word of `len` characters costing `cost`. */
  datatype Match = Match(len: int, cost: int)

  /**
    The dictionary matcher: given the normalized stream, a position and the
    maximum word length, the candidates it reports there, in its own order.
  */
  type Matcher = (seq<int>, nat, nat) -> seq<Match>

  /**
    What a dictionary answer looks like: at most `maxLen` entries (the limit
    passed to `matches`), word lengths in 1..maxLen listed shortest first, and
    non-negative Java `int` costs.
  */
  predicate ValidMatches(ms: seq<Match>, maxLen: nat) {
    && |ms| <= maxLen
    && (forall k :: 0 <= k < |ms| ==> 1 <= ms[k].len <= maxLen && 0 <= ms[k].cost <= INT32_MAX)
    && (forall k, k' :: 0 <= k < k' < |ms| ==> ms[k].len < ms[k'].len)
  }

  ghost predicate MatcherContract(dict: Matcher) {
    forall text, i, maxLen :: ValidMatches(dict(text, i, maxLen), maxLen)
  }

  /** maxSearchLength: the lookahead at position i of a stream of numChars characters. */
  function MaxSearchLength(i: nat, numChars: nat): (m: nat)
    requires i < numChars
    ensures 1 <= m <= MAX_WORD_SIZE && i + m <= numChars
    ensures m == MAX_WORD_SIZE || i + m == numChars
  {
    if i + MAX_WORD_SIZE < numChars then MAX_WORD_SIZE else numChars - i
  }

  lemma {:induction false} LengthsGrow(ms: seq<Match>, maxLen: nat, k: nat)
    requires ValidMatches(ms, maxLen) && k < |ms|
    ensures ms[k].len >= ms[0].len + k
  {
    if k > 0 {
      LengthsGrow(ms, maxLen, k - 1);
    }
  }

  /**
    A dictionary answer whose first word is not one character long leaves
    room for the fallback candidate within the `maxLen` buffer slots.
  */
  lemma RoomForFallback(found: seq<Match>, maxLen: nat)
    requires maxLen >= 1 && ValidMatches(found, maxLen) && (|found| == 0 || found[0].len != 1)
    ensures |found| < maxLen
  {
    if |found| > 0 {
      LengthsGrow(found, maxLen, |found| - 1);
    }
  }

  /**
    The unknown-character fallback applies when the first candidate is not a
    one-character word (or there is none) and the character is not Hangul.
  */
  predicate NeedsFallback(found: seq<Match>, c: int) {
    (|found| == 0 || found[0].len != 1) && !IsHangulSyllable(c)
  }

  /**
    The candidates tried at position i: the dictionary's, then the synthetic
    one-character word of cost maxSnlp when the fallback applies.
  */
  function Candidates(dict: Matcher, text: seq<int>, i: nat): (ms: seq<Match>)
    requires MatcherContract(dict) && i < |text|
    ensures var m := MaxSearchLength(i, |text|);
      var found := dict(text, i, m);
      && |ms| <= m
      && (forall k :: 0 <= k < |ms| ==> 1 <= ms[k].len <= m && 0 <= ms[k].cost <= INT32_MAX)
      && |found| <= |ms| <= |found| + 1 && ms[..|found|] == found
      && (|ms| == |found| + 1 <==> NeedsFallback(found, text[i]))
      && (|ms| == |found| + 1 ==> ms[|found|] == Match(1, MAX_SNLP))
      && (!NeedsFallback(found, text[i]) ==> ms == found)
      && (!IsHangulSyllable(text[i]) ==> exists k :: 0 <= k < |ms| && ms[k].len == 1)
  {
    var m := MaxSearchLength(i, |text|);
    var found := dict(text, i, m);
    assert ValidMatches(found, m);
    if NeedsFallback(found, text[i]) then
      RoomForFallback(found, m);
      found + [Match(1, MAX_SNLP)]
    else
      found
  }

  /** A candidate edge: from the position being relaxed to `target`, at `cost`. */
  datatype Edge = Edge(target: int, cost: int)

  predicate EdgesFrom(es: seq<Edge>, i: nat, numChars: nat) {
    forall k :: 0 <= k < |es| ==> i < es[k].target <= numChars && 0 <= es[k].cost <= INT32_MAX
  }

  function DictionaryEdges(dict: Matcher, text: seq<int>, i: nat): (es: seq<Edge>)
    requires MatcherContract(dict) && i < |text|
    ensures EdgesFrom(es, i, |text|)
    ensures |es| == |Candidates(dict, text, i)|
  {
    var ms := Candidates(dict, text, i);
    seq(|ms|, k requires 0 <= k < |ms| => Edge(i + ms[k].len, ms[k].cost))
  }

  /**
    A Katakana character is never a Hangul syllable, so it always gets a
    one-character candidate: the fallback `(1, maxSnlp)` is appended exactly
    when the dictionary's first word is not one character long. The Katakana
    run heuristic relies on this: inside a run, where no run edge is offered,
    each position still has an edge to the next one.
  */
  lemma KatakanaHasSingleStep(dict: Matcher, text: seq<int>, i: nat)
    requires MatcherContract(dict) && i < |text| && IsKatakana(text[i])
    ensures var found := dict(text, i, MaxSearchLength(i, |text|));
      (|found| == 0 || found[0].len != 1) ==> Candidates(dict, text, i) == found + [Match(1, MAX_SNLP)]
    ensures exists k :: 0 <= k < |DictionaryEdges(dict, text, i)| && DictionaryEdges(dict, text, i)[k].target == i + 1
  {
    HangulIsNotKatakana(text[i]);
    var found := dict(text, i, MaxSearchLength(i, |text|));
    var ms := Candidates(dict, text, i);
    if |found| == 0 || found[0].len != 1 {
      assert ms == ms[..|found|] + [ms[|found|]];
    }
    var k :| 0 <= k < |ms| && ms[k].len == 1;
    assert DictionaryEdges(dict, text, i)[k].target == i + 1;
  }

  /**
    The scan of the Katakana run heuristic: from j, advance while the
    character is Katakana, the stream lasts and the run from i is shorter
    than kMaxKatakanaGroupLength.
  */
  function RunScan(text: seq<int>, i: nat, j: nat): (r: nat)
    requires i < j <= |text| && j - i <= KATAKANA_GROUP_MAX
    ensures j <= r <= |text| && r - i <= KATAKANA_GROUP_MAX
    ensures forall t :: j <= t < r ==> IsKatakana(text[t])
    ensures r < |text| && r - i < KATAKANA_GROUP_MAX ==> !IsKatakana(text[r])
    decreases |text| - j
  {
    if j < |text| && j - i < KATAKANA_GROUP_MAX && IsKatakana(text[j]) then RunScan(text, i, j + 1) else j
  }

  /** Where the Katakana run starting at i ends (capped at 20 characters). */
  function KatakanaRunEnd(text: seq<int>, i: nat): (j: nat)
    requires i < |text|
  {
    RunScan(text, i, i + 1)
  }

  /**
    The pseudo-word of the Katakana run heuristic: tried only where a run
    starts, when the run is shorter than 20 characters, and it covers exactly
    the run.
  */
  function KatakanaEdges(text: seq<int>, i: nat, prevKatakana: bool): (es: seq<Edge>)
    requires i < |text|
    ensures EdgesFrom(es, i, |text|) && |es| <= 1
    ensures |es| == 1 <==> !prevKatakana && IsKatakana(text[i]) && KatakanaRunEnd(text, i) - i < KATAKANA_GROUP_MAX
    ensures |es| == 1 ==> var j := es[0].target;
      && (forall t :: i <= t < j ==> IsKatakana(text[t]))
      && (j == |text| || !IsKatakana(text[j]))
      && es[0].cost == KatakanaCost(j - i)
  {
    var j := KatakanaRunEnd(text, i);
    if !prevKatakana && IsKatakana(text[i]) && j - i < KATAKANA_GROUP_MAX then [Edge(j, KatakanaCost(j - i))] else []
  }

  /** Every edge tried from a reachable position i, in the order it is tried. */
  function Edges(dict: Matcher, text: seq<int>, i: nat, prevKatakana: bool): (es: seq<Edge>)
    requires MatcherContract(dict) && i < |text|
    ensures EdgesFrom(es, i, |text|)
  {
    DictionaryEdges(dict, text, i) + KatakanaEdges(text, i, prevKatakana)
  }

  /** The two best-path tables, bestSnlp and prev, taken together. */
  datatype Table = Table(best: seq<int>, prev: seq<int>)

  predicate Sized(t: Table, numChars: nat) {
    |t.best| == numChars + 1 && |t.prev| == numChars + 1
  }

  /**
    The invariant linking the two tables: position 0 costs 0 and has no
    predecessor; every cost is a Java int no larger than the sentinel; a
    position has a predecessor exactly when it is reachable, and that
    predecessor is an earlier reachable position.
  */
  predicate Linked(t: Table) {
    && |t.best| == |t.prev| >= 1
    && t.best[0] == 0 && t.prev[0] == -1
    && (forall k :: 0 <= k < |t.best| ==> IsInt32(t.best[k]) && t.best[k] <= UNREACHED)
    && (forall k {:trigger t.prev[k]} :: 1 <= k < |t.best| ==> (t.best[k] == UNREACHED <==> t.prev[k] == -1))
    && (forall k {:trigger t.prev[k]} :: 1 <= k < |t.best| && t.best[k] != UNREACHED ==>
          0 <= t.prev[k] < k && t.best[t.prev[k]] != UNREACHED)
  }

  /**
    One relaxation: the path through i and `e` replaces the best path to
    `e.target` only when it is strictly cheaper, so an earlier edge wins a tie.
  */
  function Relax(t: Table, i: nat, e: Edge): (r: Table)
    requires |t.best| == |t.prev| && i < e.target < |t.best|
    ensures |r.best| == |t.best| && |r.prev| == |t.prev|
    ensures forall k :: 0 <= k < |t.best| && k != e.target ==> r.best[k] == t.best[k] && r.prev[k] == t.prev[k]
    ensures r.best[e.target] <= t.best[e.target]
    ensures Add(t.best[i], e.cost) < t.best[e.target] ==> r.best[e.target] == Add(t.best[i], e.cost) && r.prev[e.target] == i
    ensures Add(t.best[i], e.cost) >= t.best[e.target] ==> r == t
    ensures Linked(t) && t.best[i] != UNREACHED ==> Linked(r)
  {
    var newSnlp := Add(t.best[i], e.cost);
    if newSnlp < t.best[e.target] then Table(t.best[e.target := newSnlp], t.prev[e.target := i]) else t
  }

  /** Relaxing the edges `es` from i, one after the other. */
  function RelaxAll(t: Table, i: nat, es: seq<Edge>): (r: Table)
    requires |t.best| == |t.prev| && i < |t.best| && EdgesFrom(es, i, |t.best| - 1)
    ensures |r.best| == |t.best| && |r.prev| == |t.prev|
    ensures forall k :: 0 <= k <= i ==> r.best[k] == t.best[k] && r.prev[k] == t.prev[k]
    ensures forall k :: 0 <= k < |t.best| ==> r.best[k] <= t.best[k]
    ensures Linked(t) && t.best[i] != UNREACHED ==> Linked(r)
    decreases |es|
  {
    if es == [] then t else
      var es' := es[..|es| - 1];
      assert EdgesFrom(es', i, |t.best| - 1);
      Relax(RelaxAll(t, i, es'), i, es[|es| - 1])
  }

  /** Relaxing two lists of edges one after the other is relaxing their concatenation. */
  lemma {:induction false} RelaxAllAppend(t: Table, i: nat, es: seq<Edge>, fs: seq<Edge>)
    requires |t.best| == |t.prev| && i < |t.best|
    requires EdgesFrom(es, i, |t.best| - 1) && EdgesFrom(fs, i, |t.best| - 1)
    ensures EdgesFrom(es + fs, i, |t.best| - 1)
    ensures RelaxAll(t, i, es + fs) == RelaxAll(RelaxAll(t, i, es), i, fs)
    decreases |fs|
  {
    if fs != [] {
      var fs' := fs[..|fs| - 1];
      assert (es + fs)[..|es + fs| - 1] == es + fs';
      RelaxAllAppend(t, i, es, fs');
    } else {
      assert es + fs == es;
    }
  }

  /**
    is_prev_katakana when position i is reached: the Katakana test of the last
    earlier position that was reachable when the pass went over it (the flag
    is not updated at skipped positions), false if there is none.
  */
  function PrevKatakana(text: seq<int>, best: seq<int>, i: nat): (r: bool)
    requires i <= |text| && i <= |best|
  {
    if i == 0 then false
    else if best[i - 1] != UNREACHED then IsKatakana(text[i - 1])
    else PrevKatakana(text, best, i - 1)
  }

  lemma {:induction false} PrevKatakanaPrefix(text: seq<int>, best: seq<int>, best': seq<int>, i: nat)
    requires i <= |text| && i <= |best| && i <= |best'|
    requires forall k :: 0 <= k < i ==> best[k] == best'[k]
    ensures PrevKatakana(text, best, i) == PrevKatakana(text, best', i)
  {
    if i > 0 {
      PrevKatakanaPrefix(text, best, best', i - 1);
    }
  }

  /**
    is_prev_katakana at position i is the Katakana test of the last reachable
    position before i, and false when there is none: unreachable positions
    skip the update.
  */
  lemma {:induction false} PrevKatakanaLastReached(text: seq<int>, best: seq<int>, i: nat)
    requires i <= |text| && i <= |best|
    ensures PrevKatakana(text, best, i) <==>
      exists k :: 0 <= k < i && best[k] != UNREACHED && IsKatakana(text[k]) &&
        forall m :: k < m < i ==> best[m] == UNREACHED
  {
    if i > 0 {
      var j := i - 1;
      PrevKatakanaLastReached(text, best, j);
      if best[j] != UNREACHED {
        if !IsKatakana(text[j]) {
          forall k | 0 <= k < i && best[k] != UNREACHED && IsKatakana(text[k])
            ensures exists m :: k < m < i && best[m] != UNREACHED
          {
            assert k < j;
          }
        }
      } else {
        if PrevKatakana(text, best, i) {
          var k :| 0 <= k < j && best[k] != UNREACHED && IsKatakana(text[k]) &&
            forall m :: k < m < j ==> best[m] == UNREACHED;
          assert forall m :: k < m < i ==> best[m] == UNREACHED;
        } else {
          forall k | 0 <= k < i && best[k] != UNREACHED && IsKatakana(text[k])
            ensures exists m :: k < m < i && best[m] != UNREACHED
          {
            assert k < j;
            assert !(forall m :: k < m < j ==> best[m] == UNREACHED);
          }
        }
      }
    }
  }

  /** The state of the forward pass: the tables and is_prev_katakana. */
  datatype Pass = Pass(table: Table, prevKatakana: bool)

  /** The tables as initialized: position 0 costs 0, the rest is unreached, no predecessors. */
  function InitialTable(numChars: nat): (t: Table)
    ensures Sized(t, numChars) && Linked(t)
    ensures forall k :: 1 <= k <= numChars ==> t.best[k] == UNREACHED
    ensures forall k :: 0 <= k <= numChars ==> t.prev[k] == -1
  {
    Table([0] + seq(numChars, _ => UNREACHED), seq(numChars + 1, _ => -1))
  }

  /** One iteration of the forward pass, at position i. */
  function Step(dict: Matcher, text: seq<int>, s: Pass, i: nat): (r: Pass)
    requires MatcherContract(dict) && i < |text| && Sized(s.table, |text|)
    ensures Sized(r.table, |text|)
    ensures forall k :: 0 <= k <= i ==> r.table.best[k] == s.table.best[k] && r.table.prev[k] == s.table.prev[k]
    ensures forall k :: 0 <= k <= |text| ==> r.table.best[k] <= s.table.best[k]
    ensures Linked(s.table) ==> Linked(r.table)
  {
    if s.table.best[i] == UNREACHED then s
    else Pass(RelaxAll(s.table, i, Edges(dict, text, i, s.prevKatakana)), IsKatakana(text[i]))
  }

  /** The state after the forward pass has gone over positions 0..i-1. */
  function Forward(dict: Matcher, text: seq<int>, i: nat): (s: Pass)
    requires MatcherContract(dict) && i <= |text|
    ensures Sized(s.table, |text|) && Linked(s.table)
    ensures s.prevKatakana == PrevKatakana(text, s.table.best, i)
  {
    if i == 0 then Pass(InitialTable(|text|), false)
    else
      var s := Forward(dict, text, i - 1);
      var r := Step(dict, text, s, i - 1);
      PrevKatakanaPrefix(text, s.table.best, r.table.best, i - 1);
      r
  }
}

module ForwardSearch {
  import opened Int32
  import opened Scripts
  import opened Segmenter

  /** Lines 119-128: the cost table and the predecessor table as allocated and initialized. */
  method InitTables(numChars: nat) returns (bestSnlp: array<int>, prev: array<int>)
    ensures fresh(bestSnlp) && fresh(prev)
    ensures Table(bestSnlp[..], prev[..]) == InitialTable(numChars)
  {
    bestSnlp := new int[numChars + 1];
    prev := new int[numChars + 1];
    bestSnlp[0] := 0;
    for i := 1 to numChars + 1
      invariant bestSnlp[0] == 0
      invariant forall k :: 1 <= k < i ==> bestSnlp[k] == UNREACHED
    {
      bestSnlp[i] := UNREACHED;
    }
    for i := 0 to numChars + 1
      invariant bestSnlp[0] == 0
      invariant forall k :: 1 <= k <= numChars ==> bestSnlp[k] == UNREACHED
      invariant forall k :: 0 <= k < i ==> prev[k] == -1
    {
      prev[i] := -1;
    }
    ghost var init := InitialTable(numChars);
    assert forall k :: 0 <= k <= numChars ==> bestSnlp[k] == init.best[k];
    assert bestSnlp[..] == init.best;
  }

  /**
    Lines 157-163: relax every candidate at reachable position i, in the
    matcher's order.
  */
  method RelaxCandidates(best: array<int>, pred: array<int>, i: nat, candidates: seq<Match>, ghost edges: seq<Edge>)
    requires best != pred && best.Length == pred.Length && i < best.Length
    requires |edges| == |candidates| && EdgesFrom(edges, i, best.Length - 1)
    requires forall k :: 0 <= k < |candidates| ==> edges[k] == Edge(i + candidates[k].len, candidates[k].cost)
    modifies best, pred
    ensures Table(best[..], pred[..]) == RelaxAll(Table(old(best[..]), old(pred[..])), i, edges)
  {
    ghost var t0 := Table(best[..], pred[..]);
    var j := 0;
    while j < |candidates|
      invariant 0 <= j <= |candidates|
      invariant Table(best[..], pred[..]) == RelaxAll(t0, i, edges[..j])
    {
      var target := i + candidates[j].len;
      var newSnlp := Add(best[i], candidates[j].cost);
      assert edges[..j + 1][..j] == edges[..j];
      if newSnlp < best[target] {
        best[target] := newSnlp;
        pred[target] := i;
      }
      j := j + 1;
    }
    assert edges[..|candidates|] == edges;
  }

  /**
    Lines 172-187: where a Katakana run starts at i, find its end and relax
    the run as one word when it is shorter than kMaxKatakanaGroupLength.
  */
  method RelaxKatakanaRun(best: array<int>, pred: array<int>, text: seq<int>, i: nat, isPrevKatakana: bool)
    requires best != pred && best.Length == pred.Length == |text| + 1 && i < |text|
    modifies best, pred
    ensures Table(best[..], pred[..]) == RelaxAll(Table(old(best[..]), old(pred[..])), i, KatakanaEdges(text, i, isPrevKatakana))
  {
    var numChars := |text|;
    if !isPrevKatakana && IsKatakana(text[i]) {
      var j := i + 1;
      while j < numChars && j - i < KATAKANA_GROUP_MAX && IsKatakana(text[j])
        invariant i < j <= numChars && j - i <= KATAKANA_GROUP_MAX
        invariant RunScan(text, i, j) == KatakanaRunEnd(text, i)
        decreases numChars - j
      {
        j := j + 1;
      }
      if j - i < KATAKANA_GROUP_MAX {
        var newSnlp := Add(best[i], KatakanaCost(j - i));
        if newSnlp < best[j] {
          best[j] := newSnlp;
          pred[j] := i;
        }
      }
    }
  }

  /** Lines 136-163: the dictionary candidates (and the fallback) at reachable position i. */
  method RelaxDictionary(best: array<int>, pred: array<int>, dict: Matcher, text: seq<int>, i: nat)
    requires MatcherContract(dict)
    requires best != pred && best.Length == pred.Length == |text| + 1 && i < |text|
    modifies best, pred
    ensures Table(best[..], pred[..]) == RelaxAll(Table(old(best[..]), old(pred[..])), i, DictionaryEdges(dict, text, i))
  {
    var maxSearchLength := MaxSearchLength(i, |text|);
    var candidates := dict(text, i, maxSearchLength);
    if NeedsFallback(candidates, text[i]) {
      candidates := candidates + [Match(1, MAX_SNLP)];
    }
    assert candidates == Candidates(dict, text, i);
    ghost var dictEdges := DictionaryEdges(dict, text, i);
    assert forall k :: 0 <= k < |candidates| ==> dictEdges[k] == Edge(i + candidates[k].len, candidates[k].cost);
    RelaxCandidates(best, pred, i, candidates, dictEdges);
  }

  /** Lines 135-188: one iteration of the forward pass, at position i. */
  method ProcessPosition(best: array<int>, pred: array<int>, dict: Matcher, text: seq<int>, i: nat, isPrevKatakana: bool)
    returns (isKatakana: bool)
    requires MatcherContract(dict)
    requires best != pred && best.Length == pred.Length == |text| + 1 && i < |text|
    modifies best, pred
    ensures Pass(Table(best[..], pred[..]), isKatakana) == Step(dict, text, Pass(Table(old(best[..]), old(pred[..])), isPrevKatakana), i)
  {
    if best[i] == UNREACHED {
      return isPrevKatakana;
    }
    ghost var t := Table(best[..], pred[..]);
    RelaxDictionary(best, pred, dict, text, i);
    RelaxKatakanaRun(best, pred, text, i, isPrevKatakana);
    RelaxAllAppend(t, i, DictionaryEdges(dict, text, i), KatakanaEdges(text, i, isPrevKatakana));
    isKatakana := IsKatakana(text[i]);
  }

  /**
    Lines 119-189: the forward pass over positions 0..numChars-1, updating
    the two tables in place and tracking is_prev_katakana.
  */
  method ForwardPass(dict: Matcher, text: seq<int>) returns (bestSnlp: seq<int>, prev: seq<int>)
    requires MatcherContract(dict)
    ensures Table(bestSnlp, prev) == Forward(dict, text, |text|).table
  {
    var numChars := |text|;
    var best, pred := InitTables(numChars);
    var isPrevKatakana := false;
    var i := 0;
    while i < numChars
      invariant 0 <= i <= numChars
      invariant best.Length == numChars + 1 && pred.Length == numChars + 1
      invariant Pass(Table(best[..], pred[..]), isPrevKatakana) == Forward(dict, text, i)
    {
      isPrevKatakana := ProcessPosition(best, pred, dict, text, i, isPrevKatakana);
      i := i + 1;
    }
    bestSnlp, prev := best[..], pred[..];
  }
}
