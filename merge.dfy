/**
  The last step of findBreaks: merging the break positions of one range
  into the caller's stack of breaks found so far.
*/
module Merge {

  /** The caller's java.util.Stack of break positions, top last. */
  class BreakStack {
    var items: seq<int>

    constructor ()
      ensures items == []
    {
      items := [];
    }

    function Size(): (n: nat)
      reads this
    {
      |items|
    }

    predicate IsEmpty()
      reads this
    {
      items == []
    }

    function Peek(): (top: int)
      reads this
      requires items != []
    {
      items[|items| - 1]
    }

    predicate Contains(x: int)
      reads this
    {
      x in items
    }

    method Push(x: int)
      modifies this
      ensures items == old(items) + [x]
    {
      items := items + [x];
    }

    method Pop() returns (x: int)
      requires items != []
      modifies this
      ensures x == old(items)[|old(items)| - 1]
      ensures items == old(items)[..|old(items)| - 1]
    {
      x := items[|items| - 1];
      items := items[..|items| - 1];
    }
  }

  predicate Distinct(s: seq<int>) {
    forall a, b :: 0 <= a < b < |s| ==> s[a] != s[b]
  }

  predicate Increasing(s: seq<int>) {
    forall a, b :: 0 <= a < b < |s| ==> s[a] < s[b]
  }

  /**
    Lines 209-213: the stack after pushing the positions ps in order, each
    one only when it is neither on the stack already nor the range start.
  */
  function PushNew(items: seq<int>, ps: seq<int>, startPos: int): (r: seq<int>)
    decreases |ps|
  {
    if ps == [] then items else
      var s := PushNew(items, ps[..|ps| - 1], startPos);
      var p := ps[|ps| - 1];
      if p in s || p == startPos then s else s + [p]
  }

  /** Lines 214-215: the stack after dropping the range end from its top. */
  function DropEnd(items: seq<int>, endPos: int): (r: seq<int>)
    ensures |items| - 1 <= |r| <= |items| && r == items[..|r|]
    ensures items != [] ==> (endPos !in items[..|items| - 1] ==> endPos !in r)
    ensures items != [] && items[|items| - 1] == endPos <==> |r| < |items|
  {
    if items != [] && items[|items| - 1] == endPos then items[..|items| - 1] else items
  }

  /**
    Line 204-205: t_boundary gets a 0 appended when the stack is empty or its
    top lies before the range.
  */
  function Injected(bs: seq<int>, items: seq<int>, startPos: int): (r: seq<int>) {
    if items == [] || items[|items| - 1] < startPos then bs + [0] else bs
  }

  /** Lines 208-209: the positions to push, in push order: t_boundary read backwards, mapped through charPositions and shifted by startPos. */
  function PushOrder(bs: seq<int>, positions: seq<int>, startPos: int): (ps: seq<int>)
    requires forall m :: 0 <= m < |bs| ==> 0 <= bs[m] < |positions|
    ensures |ps| == |bs|
    ensures forall k :: 0 <= k < |ps| ==> ps[k] == positions[bs[|bs| - 1 - k]] + startPos
  {
    seq(|bs|, k requires 0 <= k < |bs| => positions[bs[|bs| - 1 - k]] + startPos)
  }

  /** Lines 204-215: the stack after merging the breaks of one range. */
  function Merged(items: seq<int>, bs: seq<int>, positions: seq<int>, startPos: int, endPos: int): (r: seq<int>)
    requires forall m :: 0 <= m < |bs| ==> 0 <= bs[m] < |positions|
    requires |positions| >= 1
  {
    var bs' := Injected(bs, items, startPos);
    assert forall m :: 0 <= m < |bs'| ==> 0 <= bs'[m] < |positions| by {
      assert forall m :: 0 <= m < |bs| ==> bs'[m] == bs[m];
    }
    DropEnd(PushNew(items, PushOrder(bs', positions, startPos), startPos), endPos)
  }

  /**
    Pushing only adds on top: the old stack stays as it was underneath, and
    a position ends up on the stack exactly when it was there before or is
    one of ps other than the range start.
  */
  lemma {:induction false} PushNewContents(items: seq<int>, ps: seq<int>, startPos: int)
    ensures var r := PushNew(items, ps, startPos);
      |items| <= |r| && r[..|items|] == items
    ensures forall x :: x in PushNew(items, ps, startPos) <==> x in items || (x in ps && x != startPos)
    decreases |ps|
  {
    if ps != [] {
      var ps', p := ps[..|ps| - 1], ps[|ps| - 1];
      PushNewContents(items, ps', startPos);
      assert ps == ps' + [p];
      var s := PushNew(items, ps', startPos);
      if !(p in s || p == startPos) {
        assert (s + [p])[..|items|] == s[..|items|];
      }
    }
  }

  /** What is pushed goes on top once: a stack without repeats keeps none. */
  lemma {:induction false} PushNewDistinct(items: seq<int>, ps: seq<int>, startPos: int)
    requires Distinct(items)
    ensures Distinct(PushNew(items, ps, startPos))
    decreases |ps|
  {
    if ps != [] {
      PushNewDistinct(items, ps[..|ps| - 1], startPos);
    }
  }

  /** The part pushed keeps the order of ps: increasing positions are pushed in increasing order. */
  lemma {:induction false} PushNewIncreasing(items: seq<int>, ps: seq<int>, startPos: int)
    requires Increasing(ps)
    ensures var r := PushNew(items, ps, startPos);
      |items| <= |r| && Increasing(r[|items|..])
    ensures var r := PushNew(items, ps, startPos);
      forall a :: |items| <= a < |r| ==> r[a] in ps
    decreases |ps|
  {
    PushNewContents(items, ps, startPos);
    if ps != [] {
      var ps', p := ps[..|ps| - 1], ps[|ps| - 1];
      assert Increasing(ps');
      PushNewIncreasing(items, ps', startPos);
      PushNewContents(items, ps', startPos);
      var s := PushNew(items, ps', startPos);
      if !(p in s || p == startPos) {
        var r := s + [p];
        assert forall a :: |items| <= a < |s| ==> s[a] in ps' && s[a] < p by {
          forall a | |items| <= a < |s|
            ensures s[a] in ps' && s[a] < p
          {
            var k :| 0 <= k < |ps'| && ps'[k] == s[a];
            assert ps[k] == ps'[k];
          }
        }
        assert r[|items|..] == s[|items|..] + [p];
      }
    }
  }

  /** The 0 appended to t_boundary maps to the range start, which is never pushed. */
  lemma {:induction false} PushStartIsNoOp(items: seq<int>, ps: seq<int>, startPos: int)
    ensures PushNew(items, [startPos] + ps, startPos) == PushNew(items, ps, startPos)
    decreases |ps|
  {
    if ps != [] {
      var ps' := ps[..|ps| - 1];
      assert ([startPos] + ps)[..|ps|] == [startPos] + ps';
      PushStartIsNoOp(items, ps', startPos);
    } else {
      assert PushNew(items, [startPos], startPos) == PushNew(items, [], startPos);
    }
  }

  /**
    Because charPositions[0] is 0, the 0 appended to t_boundary only ever
    offers the range start, which the guard refuses: merging with or without
    it leaves the same stack.
  */
  lemma InjectionIsNoOp(items: seq<int>, bs: seq<int>, positions: seq<int>, startPos: int, endPos: int)
    requires forall m :: 0 <= m < |bs| ==> 0 <= bs[m] < |positions|
    requires |positions| >= 1 && positions[0] == 0
    ensures Merged(items, bs, positions, startPos, endPos) == DropEnd(PushNew(items, PushOrder(bs, positions, startPos), startPos), endPos)
  {
    var ps := PushOrder(bs, positions, startPos);
    if items == [] || items[|items| - 1] < startPos {
      assert PushOrder(bs + [0], positions, startPos) == [startPos] + ps;
      PushStartIsNoOp(items, ps, startPos);
    }
  }

  /**
    Lines 208-213: push the break positions, t_boundary read from its last
    entry down to its first, skipping those already on the stack and the
    range start.
  */
  method PushBreaks(foundBreaks: BreakStack, boundary: array<int>, numBreaks: nat, positions: seq<int>, startPos: int)
    requires numBreaks <= boundary.Length
    requires forall m :: 0 <= m < numBreaks ==> 0 <= boundary[m] < |positions|
    modifies foundBreaks
    ensures foundBreaks.items == PushNew(old(foundBreaks.items), PushOrder(boundary[..numBreaks], positions, startPos), startPos)
  {
    ghost var items := foundBreaks.items;
    ghost var ps := PushOrder(boundary[..numBreaks], positions, startPos);
    var i := numBreaks - 1;
    while i >= 0
      invariant -1 <= i < numBreaks
      invariant foundBreaks.items == PushNew(items, ps[..numBreaks - 1 - i], startPos)
      decreases i
    {
      var pos := positions[boundary[i]] + startPos;
      assert ps[..numBreaks - i][..numBreaks - 1 - i] == ps[..numBreaks - 1 - i];
      assert ps[numBreaks - 1 - i] == pos;
      if !(foundBreaks.Contains(pos) || pos == startPos) {
        foundBreaks.Push(positions[boundary[i]] + startPos);
      }
      i := i - 1;
    }
    assert ps[..numBreaks] == ps;
  }

  /**
    Lines 204-215: append the 0 to t_boundary when the stack is empty or its
    top lies before the range, push the breaks, and drop the range end from
    the top of the stack.
  */
  method MergeBreaks(foundBreaks: BreakStack, boundary: array<int>, numBreaks: nat, positions: seq<int>, startPos: int, endPos: int)
    requires numBreaks < boundary.Length && |positions| >= 1
    requires forall m :: 0 <= m < numBreaks ==> 0 <= boundary[m] < |positions|
    modifies foundBreaks, boundary
    ensures foundBreaks.items == Merged(old(foundBreaks.items), old(boundary[..numBreaks]), positions, startPos, endPos)
  {
    ghost var items := foundBreaks.items;
    ghost var bs := boundary[..numBreaks];
    var count := numBreaks;
    if foundBreaks.Size() == 0 || foundBreaks.Peek() < startPos {
      boundary[count] := 0;
      count := count + 1;
      assert boundary[..count] == bs + [0];
    }
    assert boundary[..count] == Injected(bs, items, startPos);
    PushBreaks(foundBreaks, boundary, count, positions, startPos);
    if !foundBreaks.IsEmpty() && foundBreaks.Peek() == endPos {
      var _ := foundBreaks.Pop();
    }
  }

  /** Nothing pushed was on the stack before. */
  lemma {:induction false} PushNewFresh(items: seq<int>, ps: seq<int>, startPos: int)
    ensures var r := PushNew(items, ps, startPos);
      |items| <= |r| && forall a :: |items| <= a < |r| ==> r[a] !in items
    decreases |ps|
  {
    if ps != [] {
      var ps', p := ps[..|ps| - 1], ps[|ps| - 1];
      PushNewFresh(items, ps', startPos);
      PushNewContents(items, ps', startPos);
    }
  }

  /**
    `r` is the stack `items` with positions added on top that lie strictly
    inside (startPos, endPos), increase from bottom to top, and were not on
    the stack before.
  */
  predicate AppendsInside(items: seq<int>, r: seq<int>, startPos: int, endPos: int) {
    && |items| <= |r| && r[..|items|] == items
    && Increasing(r[|items|..])
    && forall a :: |items| <= a < |r| ==> startPos < r[a] < endPos && r[a] !in items
  }

  /**
    The end-to-end shape of a merge over a range whose boundaries run down
    from the last position (as the backtrack produces them) and whose index
    map is increasing from 0 to the range length: the old stack is kept, and
    what is added lies strictly inside the range, in increasing order, none
    of it on the stack before. The range end itself is pushed and popped.
  */
  lemma MergeAppendsInside(items: seq<int>, bs: seq<int>, positions: seq<int>, startPos: int, endPos: int)
    requires |positions| >= 1 && positions[0] == 0 && Increasing(positions)
    requires positions[|positions| - 1] == endPos - startPos
    requires bs != [] && bs[0] == |positions| - 1
    requires forall m :: 0 <= m < |bs| ==> 1 <= bs[m] < |positions|
    requires forall m, m' :: 0 <= m < m' < |bs| ==> bs[m] > bs[m']
    requires endPos !in items
    ensures AppendsInside(items, Merged(items, bs, positions, startPos, endPos), startPos, endPos)
  {
    InjectionIsNoOp(items, bs, positions, startPos, endPos);
    var ps := PushOrder(bs, positions, startPos);
    PushOrderShape(bs, positions, startPos, endPos);
    assert positions[0] < positions[|positions| - 1];
    PushedBeforeEnd(items, ps, startPos, endPos);
  }

  /** Read backwards and mapped, boundaries that run down from the last position give increasing positions ending at the range end. */
  lemma PushOrderShape(bs: seq<int>, positions: seq<int>, startPos: int, endPos: int)
    requires |positions| >= 1 && positions[0] == 0 && Increasing(positions)
    requires positions[|positions| - 1] == endPos - startPos
    requires bs != [] && bs[0] == |positions| - 1
    requires forall m :: 0 <= m < |bs| ==> 1 <= bs[m] < |positions|
    requires forall m, m' :: 0 <= m < m' < |bs| ==> bs[m] > bs[m']
    ensures var ps := PushOrder(bs, positions, startPos);
      && ps[|ps| - 1] == endPos
      && Increasing(ps[..|ps| - 1])
      && forall k :: 0 <= k < |ps| - 1 ==> startPos < ps[k] < endPos
  {
    var ps := PushOrder(bs, positions, startPos);
    var n := |ps|;
    forall a, b | 0 <= a < b < n
      ensures ps[a] < ps[b]
    {
      assert bs[n - 1 - a] < bs[n - 1 - b];
    }
    forall k | 0 <= k < n - 1
      ensures startPos < ps[k]
    {
      assert positions[bs[n - 1 - k]] > positions[0];
    }
  }

  /**
    Pushing increasing positions strictly inside the range and then the
    range end, and popping the end again, adds those positions that were
    not on the stack, in increasing order.
  */
  lemma PushedBeforeEnd(items: seq<int>, ps: seq<int>, startPos: int, endPos: int)
    requires ps != [] && ps[|ps| - 1] == endPos && Increasing(ps[..|ps| - 1])
    requires forall k :: 0 <= k < |ps| - 1 ==> startPos < ps[k] < endPos
    requires endPos !in items && startPos < endPos
    ensures AppendsInside(items, DropEnd(PushNew(items, ps, startPos), endPos), startPos, endPos)
  {
    var ps' := ps[..|ps| - 1];
    var s := PushNew(items, ps', startPos);
    PushNewContents(items, ps', startPos);
    PushNewIncreasing(items, ps', startPos);
    PushNewFresh(items, ps', startPos);
    assert endPos !in s;
    assert PushNew(items, ps, startPos) == s + [endPos];
    assert DropEnd(s + [endPos], endPos) == s;
    forall a | |items| <= a < |s|
      ensures startPos < s[a] < endPos
    {
      var k :| 0 <= k < |ps'| && ps'[k] == s[a];
    }
  }

  /** Offsets that are all new, distinct and not the range start are all pushed, in order. */
  lemma {:induction false} PushNewAllNew(items: seq<int>, ps: seq<int>, startPos: int)
    requires Distinct(ps)
    requires forall k :: 0 <= k < |ps| ==> ps[k] !in items && ps[k] != startPos
    ensures PushNew(items, ps, startPos) == items + ps
    decreases |ps|
  {
    if ps != [] {
      var ps', p := ps[..|ps| - 1], ps[|ps| - 1];
      assert Distinct(ps');
      PushNewAllNew(items, ps', startPos);
      assert p !in ps';
      assert items + ps == (items + ps') + [p];
    }
  }
}
