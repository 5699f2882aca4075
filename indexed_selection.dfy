/**
 * Numbering the files of a sorted listing 0, 1, 2, ... and keeping those whose
 * (position, file) pair a predicate accepts: the selection both enumerators perform.
 */
module IndexedSelection {
  import opened GroupArith

  /**
   * Walks the sequence front to back with a counter that advances for every element,
   * keeping the elements the predicate accepts at their position.
   */
  function Selected<T>(s: seq<T>, p: (int, T) -> bool): (r: seq<T>)
    ensures |r| <= |s|
    ensures forall k :: 0 <= k < |r| ==> r[k] in s
  {
    if s == [] then []
    else
      var n := |s| - 1;
      Selected(s[..n], p) + (if p(n, s[n]) then [s[n]] else [])
  }

  /** The positions of `s` that `p` accepts, as a rule over positions. */
  function PositionRule<T>(s: seq<T>, p: (int, T) -> bool): int -> bool {
    i => 0 <= i < |s| && p(i, s[i])
  }

  /** The elements of `s` at the given positions, in the order of the positions. */
  function Pick<T>(s: seq<T>, positions: seq<int>): (r: seq<T>)
    requires forall i :: i in positions ==> 0 <= i < |s|
    ensures |r| == |positions|
  {
    seq(|positions|, k requires 0 <= k < |positions| => assert positions[k] in positions; s[positions[k]])
  }

  /** Picking one more position, the last one, appends the last element. */
  lemma PickSnoc<T>(s: seq<T>, before: seq<int>, takeLast: bool)
    requires s != [] && forall i :: i in before ==> 0 <= i < |s| - 1
    ensures Pick(s, before + (if takeLast then [|s| - 1] else []))
            == Pick(s[..|s| - 1], before) + (if takeLast then [s[|s| - 1]] else [])
  {
    var n := |s| - 1;
    var picked := Pick(s, before + (if takeLast then [n] else []));
    forall k | 0 <= k < |before| ensures picked[k] == Pick(s[..n], before)[k] {
      assert before[k] in before;
    }
  }

  /**
   * The selection is the elements at exactly the accepted positions, in increasing
   * position order: an order-preserving subsequence in which every position is tested once.
   */
  lemma {:induction false} SelectedIsPick<T>(s: seq<T>, p: (int, T) -> bool)
    ensures Selected(s, p) == Pick(s, SelectedIndices(PositionRule(s, p), |s|))
  {
    if s != [] {
      var n := |s| - 1;
      SelectedIsPick(s[..n], p);
      var rule := PositionRule(s, p);
      SelectedIndicesAgree(PositionRule(s[..n], p), rule, n);
      PickSnoc(s, SelectedIndices(rule, n), rule(n));
    }
  }

  /** A predicate that accepts every position selects the whole sequence. */
  lemma {:induction false} SelectedAll<T>(s: seq<T>, p: (int, T) -> bool)
    requires forall i :: 0 <= i < |s| ==> p(i, s[i])
    ensures Selected(s, p) == s
  {
    if s != [] {
      var n := |s| - 1;
      SelectedAll(s[..n], p);
      assert s == s[..n] + [s[n]];
    }
  }

  /** A predicate that accepts no position (in particular any predicate on an empty sequence) selects nothing. */
  lemma {:induction false} SelectedNone<T>(s: seq<T>, p: (int, T) -> bool)
    requires forall i :: 0 <= i < |s| ==> !p(i, s[i])
    ensures Selected(s, p) == []
  {
    if s != [] {
      SelectedNone(s[..|s| - 1], p);
    }
  }

  /** The predicate on (position, element) pairs that applies `rule` to the position only. */
  function AtPosition<T>(rule: int -> bool): (int, T) -> bool {
    (i, _) => rule(i)
  }

  /**
   * A predicate that looks only at the position selects the elements at the positions the
   * positional rule picks out of `0 .. |s| - 1`.
   */
  lemma SelectedByPosition<T>(s: seq<T>, rule: int -> bool)
    ensures Selected(s, AtPosition(rule)) == Pick(s, SelectedIndices(rule, |s|))
  {
    var p := AtPosition(rule);
    SelectedIsPick(s, p);
    SelectedIndicesAgree(PositionRule(s, p), rule, |s|);
  }
}
