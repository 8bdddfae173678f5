/**
  What the forward pass computes. Every relaxation the pass performs is
  recorded as a trial (a source position and an edge); the final tables
  satisfy Bellman's condition for every trial, and each predecessor entry is
  the source of the first trial that reached the final cost. Together these
  say that bestSnlp is the minimum-cost table and prev the earliest-found
  minimum-cost predecessor.
*/
module Optimality {
  import opened Int32
  import opened Scripts
  import opened Segmenter

  /** One relaxation: the edge `edge` tried from position `source`. */
  datatype Trial = Trial(source: nat, edge: Edge)

  predicate TrialsFit(ts: seq<Trial>, numChars: nat) {
    forall q :: 0 <= q < |ts| ==>
      ts[q].source < ts[q].edge.target <= numChars && 0 <= ts[q].edge.cost <= INT32_MAX
  }

  predicate SourcesInOrder(ts: seq<Trial>) {
    forall q, q' :: 0 <= q < q' < |ts| ==> ts[q].source <= ts[q'].source
  }

  predicate SourcesBelow(ts: seq<Trial>, i: nat) {
    forall q :: 0 <= q < |ts| ==> ts[q].source < i
  }

  /** Performing the relaxations `ts` in order. */
  function RelaxTrials(t: Table, ts: seq<Trial>): (r: Table)
    requires |t.best| == |t.prev| >= 1 && TrialsFit(ts, |t.best| - 1)
    ensures |r.best| == |t.best| && |r.prev| == |t.prev|
    decreases |ts|
  {
    if ts == [] then t else
      var ts' := ts[..|ts| - 1];
      assert TrialsFit(ts', |t.best| - 1);
      Relax(RelaxTrials(t, ts'), ts[|ts| - 1].source, ts[|ts| - 1].edge)
  }

  /** The edges `es` tried from position i. */
  function TrialsAt(i: nat, es: seq<Edge>): (ts: seq<Trial>)
    ensures |ts| == |es|
  {
    seq(|es|, q requires 0 <= q < |es| => Trial(i, es[q]))
  }

  lemma {:induction false} RelaxAllAsTrials(t: Table, i: nat, es: seq<Edge>)
    requires |t.best| == |t.prev| && i < |t.best| && EdgesFrom(es, i, |t.best| - 1)
    ensures TrialsFit(TrialsAt(i, es), |t.best| - 1)
    ensures RelaxAll(t, i, es) == RelaxTrials(t, TrialsAt(i, es))
    decreases |es|
  {
    if es != [] {
      var es' := es[..|es| - 1];
      assert EdgesFrom(es', i, |t.best| - 1);
      assert TrialsAt(i, es)[..|es| - 1] == TrialsAt(i, es');
      RelaxAllAsTrials(t, i, es');
    }
  }

  lemma {:induction false} RelaxTrialsAppend(t: Table, a: seq<Trial>, b: seq<Trial>)
    requires |t.best| == |t.prev| >= 1
    requires TrialsFit(a, |t.best| - 1) && TrialsFit(b, |t.best| - 1)
    ensures TrialsFit(a + b, |t.best| - 1)
    ensures RelaxTrials(t, a + b) == RelaxTrials(RelaxTrials(t, a), b)
    decreases |b|
  {
    if b == [] {
      assert a + b == a;
    } else {
      var b' := b[..|b| - 1];
      assert TrialsFit(b', |t.best| - 1);
      assert (a + b)[..|a + b| - 1] == a + b';
      RelaxTrialsAppend(t, a, b');
    }
  }

  /** The relaxations performed at position i, given the pass state on arrival there. */
  function TriedAt(dict: Matcher, text: seq<int>, s: Pass, i: nat): (ts: seq<Trial>)
    requires MatcherContract(dict) && i < |text| && Sized(s.table, |text|)
    ensures TrialsFit(ts, |text|)
    ensures forall q :: 0 <= q < |ts| ==> ts[q].source == i
  {
    var es := Edges(dict, text, i, s.prevKatakana);
    if s.table.best[i] == UNREACHED then [] else TrialsAt(i, es)
  }

  lemma FitAppend(a: seq<Trial>, b: seq<Trial>, numChars: nat)
    requires TrialsFit(a, numChars) && TrialsFit(b, numChars)
    ensures TrialsFit(a + b, numChars)
  {
    forall q | 0 <= q < |a + b|
      ensures (a + b)[q] == if q < |a| then a[q] else b[q - |a|]
    {
    }
  }

  lemma AppendPosition(ts: seq<Trial>, here: seq<Trial>, numChars: nat, i: nat)
    requires TrialsFit(ts, numChars) && SourcesInOrder(ts) && TrialsFit(here, numChars)
    requires SourcesBelow(ts, i)
    requires forall q :: 0 <= q < |here| ==> here[q].source == i
    ensures TrialsFit(ts + here, numChars) && SourcesInOrder(ts + here)
    ensures SourcesBelow(ts + here, i + 1)
  {
    var all := ts + here;
    forall q | 0 <= q < |all|
      ensures all[q] == if q < |ts| then ts[q] else here[q - |ts|]
    {
    }
  }

  /** Every relaxation the pass performs at positions 0..i-1, in order. */
  ghost function Trials(dict: Matcher, text: seq<int>, i: nat): (ts: seq<Trial>)
    requires MatcherContract(dict) && i <= |text|
    ensures TrialsFit(ts, |text|)
  {
    if i == 0 then [] else
      var j := i - 1;
      var ts := Trials(dict, text, j);
      var here := TriedAt(dict, text, Forward(dict, text, j), j);
      FitAppend(ts, here, |text|);
      ts + here
  }

  lemma ForwardUnfold(dict: Matcher, text: seq<int>, j: nat)
    requires MatcherContract(dict) && j < |text|
    ensures Forward(dict, text, j + 1) == Step(dict, text, Forward(dict, text, j), j)
  {
  }

  lemma TrialsUnfold(dict: Matcher, text: seq<int>, j: nat)
    requires MatcherContract(dict) && j < |text|
    ensures Trials(dict, text, j + 1) == Trials(dict, text, j) + TriedAt(dict, text, Forward(dict, text, j), j)
  {
  }

  lemma TrialsInOrderStep(dict: Matcher, text: seq<int>, j: nat)
    requires MatcherContract(dict) && j < |text|
    requires SourcesInOrder(Trials(dict, text, j)) && SourcesBelow(Trials(dict, text, j), j)
    ensures SourcesInOrder(Trials(dict, text, j + 1)) && SourcesBelow(Trials(dict, text, j + 1), j + 1)
  {
    var ts := Trials(dict, text, j);
    var here := TriedAt(dict, text, Forward(dict, text, j), j);
    AppendPosition(ts, here, |text|, j);
    TrialsUnfold(dict, text, j);
  }

  /** The pass relaxes from positions in increasing order. */
  lemma {:induction false} TrialsInOrder(dict: Matcher, text: seq<int>, i: nat)
    requires MatcherContract(dict) && i <= |text|
    ensures SourcesInOrder(Trials(dict, text, i)) && SourcesBelow(Trials(dict, text, i), i)
  {
    if i > 0 {
      var j := i - 1;
      TrialsInOrder(dict, text, j);
      TrialsInOrderStep(dict, text, j);
    }
  }

  /** One iteration of the pass relaxes exactly the trials it records at that position. */
  lemma StepIsRelaxTrials(dict: Matcher, text: seq<int>, s: Pass, j: nat)
    requires MatcherContract(dict) && j < |text| && Sized(s.table, |text|)
    ensures Step(dict, text, s, j).table == RelaxTrials(s.table, TriedAt(dict, text, s, j))
  {
    if s.table.best[j] != UNREACHED {
      var es := Edges(dict, text, j, s.prevKatakana);
      RelaxAllAsTrials(s.table, j, es);
    }
  }

  lemma ForwardIsRelaxTrialsStep(dict: Matcher, text: seq<int>, j: nat)
    requires MatcherContract(dict) && j < |text|
    requires Forward(dict, text, j).table == RelaxTrials(InitialTable(|text|), Trials(dict, text, j))
    ensures Forward(dict, text, j + 1).table == RelaxTrials(InitialTable(|text|), Trials(dict, text, j + 1))
  {
    var init, s := InitialTable(|text|), Forward(dict, text, j);
    var before, here := Trials(dict, text, j), TriedAt(dict, text, s, j);
    ForwardUnfold(dict, text, j);
    StepIsRelaxTrials(dict, text, s, j);
    RelaxTrialsAppend(init, before, here);
    TrialsUnfold(dict, text, j);
  }

  /** The forward pass is the sequence of its relaxations applied to the initial tables. */
  lemma {:induction false} ForwardIsRelaxTrials(dict: Matcher, text: seq<int>, i: nat)
    requires MatcherContract(dict) && i <= |text|
    ensures Forward(dict, text, i).table == RelaxTrials(InitialTable(|text|), Trials(dict, text, i))
  {
    if i > 0 {
      var j := i - 1;
      ForwardIsRelaxTrials(dict, text, j);
      ForwardIsRelaxTrialsStep(dict, text, j);
    }
  }

  /** The cost of the path that a trial offers, under table t. */
  ghost function Offer(t: Table, tr: Trial): (cost: int)
    requires tr.source < |t.best|
  {
    Add(t.best[tr.source], tr.edge.cost)
  }

  /** Bellman's condition: no trial offers a cheaper path than the table holds. */
  ghost predicate Bellman(t: Table, ts: seq<Trial>)
    requires |t.best| >= 1 && TrialsFit(ts, |t.best| - 1)
  {
    forall q :: 0 <= q < |ts| ==> t.best[ts[q].edge.target] <= Offer(t, ts[q])
  }

  /**
    Trial q is where position k got its entries: its source is prev[k], it
    lands on k and offers exactly bestSnlp[k], and every earlier trial landing
    on k offered strictly more.
  */
  ghost predicate Winner(t: Table, ts: seq<Trial>, k: nat, q: nat)
    requires |t.best| >= 1 && TrialsFit(ts, |t.best| - 1) && k < |t.prev| && q < |ts|
  {
    && ts[q].source == t.prev[k]
    && ts[q].edge.target == k
    && Offer(t, ts[q]) == t.best[k]
    && forall q' :: 0 <= q' < q && ts[q'].edge.target == k ==> Offer(t, ts[q']) > t.best[k]
  }

  /** Every predecessor entry that is set was set by its winning trial. */
  ghost predicate PrevsWon(t: Table, ts: seq<Trial>)
    requires |t.best| >= 1 && TrialsFit(ts, |t.best| - 1) && |t.best| == |t.prev|
  {
    forall k :: 0 <= k < |t.prev| && t.prev[k] != -1 ==> exists q :: 0 <= q < |ts| && Winner(t, ts, k, q)
  }

  /**
    Relaxing one more trial leaves the offers of earlier trials unchanged:
    it only changes the cost of its own target, which lies beyond every source
    relaxed so far.
  */
  lemma OffersStable(r: Table, ts': seq<Trial>, tr: Trial)
    requires |r.best| == |r.prev| >= 1 && TrialsFit(ts', |r.best| - 1)
    requires tr.source < tr.edge.target < |r.best| && 0 <= tr.edge.cost <= INT32_MAX
    requires forall q :: 0 <= q < |ts'| ==> ts'[q].source <= tr.source
    ensures forall q :: 0 <= q < |ts'| ==> Offer(Relax(r, tr.source, tr.edge), ts'[q]) == Offer(r, ts'[q])
  {
    forall q | 0 <= q < |ts'|
      ensures Offer(Relax(r, tr.source, tr.edge), ts'[q]) == Offer(r, ts'[q])
    {
      assert ts'[q].source <= tr.source < tr.edge.target;
    }
  }

  lemma BellmanStep(r: Table, ts': seq<Trial>, tr: Trial)
    requires |r.best| == |r.prev| >= 1 && TrialsFit(ts', |r.best| - 1)
    requires tr.source < tr.edge.target < |r.best| && 0 <= tr.edge.cost <= INT32_MAX
    requires forall q :: 0 <= q < |ts'| ==> ts'[q].source <= tr.source
    requires Bellman(r, ts')
    ensures TrialsFit(ts' + [tr], |r.best| - 1)
    ensures Bellman(Relax(r, tr.source, tr.edge), ts' + [tr])
  {
    assert forall q :: 0 <= q < |ts'| ==> (ts' + [tr])[q] == ts'[q];
    var ts, r' := ts' + [tr], Relax(r, tr.source, tr.edge);
    OffersStable(r, ts', tr);
    forall q | 0 <= q < |ts|
      ensures r'.best[ts[q].edge.target] <= Offer(r', ts[q])
    {
      if q < |ts'| {
        assert ts[q] == ts'[q];
        assert r'.best[ts[q].edge.target] <= r.best[ts'[q].edge.target];
      } else {
        assert ts[q] == tr && r'.best[tr.source] == r.best[tr.source];
      }
    }
  }

  lemma PrevsWonStep(r: Table, ts': seq<Trial>, tr: Trial)
    requires |r.best| == |r.prev| >= 1 && TrialsFit(ts', |r.best| - 1)
    requires tr.source < tr.edge.target < |r.best| && 0 <= tr.edge.cost <= INT32_MAX
    requires forall q :: 0 <= q < |ts'| ==> ts'[q].source <= tr.source
    requires Bellman(r, ts') && PrevsWon(r, ts')
    ensures TrialsFit(ts' + [tr], |r.best| - 1)
    ensures PrevsWon(Relax(r, tr.source, tr.edge), ts' + [tr])
  {
    assert forall q :: 0 <= q < |ts'| ==> (ts' + [tr])[q] == ts'[q];
    var ts, r' := ts' + [tr], Relax(r, tr.source, tr.edge);
    OffersStable(r, ts', tr);
    assert forall q :: 0 <= q < |ts'| ==> ts[q] == ts'[q];
    var target := tr.edge.target;
    forall k | 0 <= k < |r'.prev| && r'.prev[k] != -1
      ensures exists q :: 0 <= q < |ts| && Winner(r', ts, k, q)
    {
      if Offer(r, tr) < r.best[target] && k == target {
        assert r'.best[tr.source] == r.best[tr.source];
        assert Offer(r', tr) == r'.best[k] && ts[|ts'|] == tr;
        forall q' | 0 <= q' < |ts'| && ts[q'].edge.target == k
          ensures Offer(r', ts[q']) > r'.best[k]
        {
          assert Offer(r, ts'[q']) >= r.best[k];
        }
        assert Winner(r', ts, k, |ts'|);
      } else {
        assert r'.prev[k] == r.prev[k] && r'.best[k] == r.best[k];
        var q :| 0 <= q < |ts'| && Winner(r, ts', k, q);
        assert Winner(r', ts, k, q);
      }
    }
  }

  /**
    Relaxing trials whose sources come in non-decreasing order, starting from
    tables without predecessors, ends in tables that satisfy Bellman's
    condition and whose predecessors are the first winners.
  */
  lemma {:induction false} RelaxTrialsOptimal(t0: Table, ts: seq<Trial>)
    requires |t0.best| == |t0.prev| >= 1 && TrialsFit(ts, |t0.best| - 1) && SourcesInOrder(ts)
    requires forall k :: 0 <= k < |t0.prev| ==> t0.prev[k] == -1
    ensures Bellman(RelaxTrials(t0, ts), ts) && PrevsWon(RelaxTrials(t0, ts), ts)
    decreases |ts|
  {
    if ts != [] {
      var ts', tr := ts[..|ts| - 1], ts[|ts| - 1];
      assert ts == ts' + [tr];
      assert TrialsFit(ts', |t0.best| - 1) && SourcesInOrder(ts');
      assert forall q :: 0 <= q < |ts'| ==> ts'[q] == ts[q] && ts[q].source <= ts[|ts| - 1].source;
      RelaxTrialsOptimal(t0, ts');
      var r := RelaxTrials(t0, ts');
      BellmanStep(r, ts', tr);
      PrevsWonStep(r, ts', tr);
    }
  }

  /**
    The tables of the whole forward pass are optimal for the relaxations it
    performed: Bellman's condition holds for each, and every predecessor is
    the source of the first relaxation that reached the final cost.
  */
  lemma ForwardOptimal(dict: Matcher, text: seq<int>)
    requires MatcherContract(dict)
    ensures var t, ts := Forward(dict, text, |text|).table, Trials(dict, text, |text|);
      Bellman(t, ts) && PrevsWon(t, ts)
  {
    ForwardIsRelaxTrials(dict, text, |text|);
    TrialsInOrder(dict, text, |text|);
    RelaxTrialsOptimal(InitialTable(|text|), Trials(dict, text, |text|));
  }
}
