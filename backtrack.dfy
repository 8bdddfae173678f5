/**
  The backtrack of findBreaks: reading the break positions off the
  predecessor table, from the end of the text back to its start.
*/
module Backtrack {
  import opened Segmenter
  import opened Optimality

  /**
    The predecessor chain from k back to the start: k, prev[k], prev[prev[k]],
    ..., stopping before 0. Its entries are reachable positions in 1..k, and
    the last of them has predecessor 0.
  */
  function Chain(t: Table, k: nat): (c: seq<int>)
    requires Linked(t) && k < |t.best| && t.best[k] != UNREACHED
    ensures |c| <= k
    ensures k == 0 <==> c == []
    ensures forall m :: 0 <= m < |c| ==> 1 <= c[m] <= k && t.best[c[m]] != UNREACHED
    ensures c != [] ==> c[0] == k && t.prev[c[|c| - 1]] == 0
    decreases k
  {
    if k == 0 then [] else [k] + Chain(t, t.prev[k])
  }

  /** Each entry of the chain after the first is the predecessor of the entry before it. */
  lemma {:induction false} ChainLinks(t: Table, k: nat)
    requires Linked(t) && k < |t.best| && t.best[k] != UNREACHED
    ensures forall m :: 1 <= m < |Chain(t, k)| ==> Chain(t, k)[m] == t.prev[Chain(t, k)[m - 1]]
    decreases k
  {
    if k > 0 {
      var j := t.prev[k];
      ChainLinks(t, j);
      var c, rest := Chain(t, k), Chain(t, j);
      assert c == [k] + rest;
      forall m | 1 <= m < |c|
        ensures c[m] == t.prev[c[m - 1]]
      {
        assert c[m] == rest[m - 1];
        if m > 1 {
          assert c[m - 1] == rest[m - 2];
          assert rest[m - 1] == t.prev[rest[m - 2]];
        } else {
          assert rest != [] && rest[0] == j;
        }
      }
    }
  }

  /** The chain is strictly decreasing. */
  lemma {:induction false} ChainDecreasing(t: Table, k: nat)
    requires Linked(t) && k < |t.best| && t.best[k] != UNREACHED
    ensures forall m, m' :: 0 <= m < m' < |Chain(t, k)| ==> Chain(t, k)[m] > Chain(t, k)[m']
    decreases k
  {
    if k > 0 {
      var j := t.prev[k];
      ChainDecreasing(t, j);
      var c, rest := Chain(t, k), Chain(t, j);
      assert c == [k] + rest;
      forall m, m' | 0 <= m < m' < |c|
        ensures c[m] > c[m']
      {
        assert c[m'] == rest[m' - 1];
        assert rest[m' - 1] <= j < k;
        if m > 0 {
          assert c[m] == rest[m - 1];
          assert rest[m - 1] > rest[m' - 1];
        }
      }
    }
  }

  /**
    The contents of t_boundary after the backtrack: the chain from numChars
    when the end is reachable, and numChars alone when it is not.
  */
  function Boundaries(t: Table, numChars: nat): (bs: seq<int>)
    requires Linked(t) && |t.best| == numChars + 1
    ensures forall m :: 0 <= m < |bs| ==> 0 <= bs[m] <= numChars
  {
    if t.best[numChars] == UNREACHED then [numChars] else Chain(t, numChars)
  }

  /** Position k got its entries from a winning trial. */
  ghost predicate Settled(t: Table, ts: seq<Trial>, k: nat)
    requires |t.best| >= 1 && TrialsFit(ts, |t.best| - 1) && k < |t.prev|
  {
    exists q :: 0 <= q < |ts| && Winner(t, ts, k, q)
  }

  lemma WinnerExists(t: Table, ts: seq<Trial>, k: nat)
    requires Linked(t) && TrialsFit(ts, |t.best| - 1) && PrevsWon(t, ts)
    requires k < |t.prev| && t.prev[k] != -1
    ensures Settled(t, ts, k)
  {
  }

  /** Along a chain every link was made by a winning relaxation, when all set predecessors were. */
  lemma ChainWon(t: Table, ts: seq<Trial>, k: nat)
    requires Linked(t) && TrialsFit(ts, |t.best| - 1) && PrevsWon(t, ts)
    requires k < |t.best| && t.best[k] != UNREACHED
    ensures forall m :: 0 <= m < |Chain(t, k)| ==> Settled(t, ts, Chain(t, k)[m])
  {
    var c := Chain(t, k);
    forall m | 0 <= m < |c|
      ensures Settled(t, ts, c[m])
    {
      var target := c[m];
      assert t.prev[target] != -1;
      WinnerExists(t, ts, target);
    }
  }

  /**
    Along a reachable chain every link was made by the relaxation that first
    reached the final cost of its target: the chain, read from the start, is a
    segmentation into words the pass tried, each of them a cheapest way in.
  */
  lemma ChainLinksWon(dict: Matcher, text: seq<int>)
    requires MatcherContract(dict)
    ensures var t, ts := Forward(dict, text, |text|).table, Trials(dict, text, |text|);
      t.best[|text|] != UNREACHED ==>
        forall m :: 0 <= m < |Chain(t, |text|)| ==> Settled(t, ts, Chain(t, |text|)[m])
  {
    var n := |text|;
    ForwardOptimal(dict, text);
    var t, ts := Forward(dict, text, n).table, Trials(dict, text, n);
    if t.best[n] != UNREACHED {
      ChainWon(t, ts, n);
    }
  }

  /**
    A walk of positions that starts at k, follows the predecessor links and
    stops at a position whose predecessor is 0 is the chain from k.
  */
  lemma {:induction false} WalkIsChain(t: Table, k: nat, w: seq<int>)
    requires Linked(t) && k < |t.best| && t.best[k] != UNREACHED
    requires w != [] && w[0] == k
    requires forall m :: 0 <= m < |w| ==> 1 <= w[m] < |t.best|
    requires forall m {:trigger t.prev[w[m]]} :: 0 <= m < |w| - 1 ==> w[m + 1] == t.prev[w[m]]
    requires t.prev[w[|w| - 1]] == 0
    ensures w == Chain(t, k)
    decreases |w|
  {
    var j := t.prev[k];
    if |w| == 1 {
      assert Chain(t, k) == [k] + Chain(t, j);
    } else {
      var w' := w[1..];
      assert w'[0] == w[1] == t.prev[w[0]] == j;
      forall m | 0 <= m < |w'| - 1
        ensures w'[m + 1] == t.prev[w'[m]]
      {
        assert w'[m] == w[m + 1] && w'[m + 1] == w[m + 2];
        assert w[m + 2] == t.prev[w[m + 1]];
      }
      WalkIsChain(t, j, w');
      assert w == [k] + w';
    }
  }

  /**
    Lines 196-201: follow the predecessors from the reachable end, writing
    each position into t_boundary, and check that the walk ends at a position
    whose predecessor is 0.
  */
  method WalkChain(best: seq<int>, prev: seq<int>, boundary: array<int>) returns (numBreaks: nat)
    requires Linked(Table(best, prev)) && |best| >= 2 && best[|best| - 1] != UNREACHED
    requires boundary.Length == |best|
    modifies boundary
    ensures 1 <= numBreaks < boundary.Length
    ensures boundary[0] == |best| - 1
    ensures forall m :: 0 <= m < numBreaks ==> 1 <= boundary[m] < |best|
    ensures forall m {:trigger prev[boundary[m]]} :: 0 <= m < numBreaks - 1 ==> boundary[m + 1] == prev[boundary[m]]
    ensures prev[boundary[numBreaks - 1]] == 0
  {
    var numChars := |best| - 1;
    numBreaks := 0;
    var i := numChars;
    while i > 0
      invariant 0 <= i <= numChars && best[i] != UNREACHED
      invariant numBreaks <= numChars - i
      invariant numBreaks == 0 <==> i == numChars
      invariant numBreaks > 0 ==> boundary[0] == numChars
      invariant forall m :: 0 <= m < numBreaks ==> 1 <= boundary[m] <= numChars
      invariant numBreaks > 0 ==> i == prev[boundary[numBreaks - 1]]
      invariant forall m {:trigger prev[boundary[m]]} :: 0 <= m < numBreaks - 1 ==> boundary[m + 1] == prev[boundary[m]]
      decreases i
    {
      boundary[numBreaks] := i;
      numBreaks := numBreaks + 1;
      i := prev[i];
    }
    assert prev[boundary[numBreaks - 1]] == 0;
  }

  /**
    Lines 191-202: fill t_boundary (an array of numChars + 1 entries) with
    the break positions, last first: numChars alone when the end is
    unreachable, the predecessor chain otherwise.
  */
  method Collect(best: seq<int>, prev: seq<int>) returns (boundary: array<int>, numBreaks: nat)
    requires Linked(Table(best, prev)) && |best| >= 2
    ensures fresh(boundary) && boundary.Length == |best|
    ensures numBreaks < boundary.Length
    ensures boundary[..numBreaks] == Boundaries(Table(best, prev), |best| - 1)
    ensures forall m :: 0 <= m < numBreaks ==> 0 <= boundary[m] < |best|
  {
    var numChars := |best| - 1;
    boundary := new int[numChars + 1];
    if best[numChars] == UNREACHED {
      boundary[0] := numChars;
      numBreaks := 1;
      assert boundary[..numBreaks] == [numChars];
    } else {
      numBreaks := WalkChain(best, prev, boundary);
      WalkIsChain(Table(best, prev), numChars, boundary[..numBreaks]);
    }
  }
}
