/**
 * Positional selection rules of the SmartFileSelector.Core library
 * (src/SmartFileSelector.Core/FileSelectorRules.cs). Each factory validates its
 * arguments and returns a predicate over the 0-based position of a file in the
 * sorted listing.
 */
module FileSelectorRules {
  import opened Wrappers
  import opened GroupArith

  /**
   * Groups of `interval + 1` positions counted from `startOffset`; the last position of
   * every group is selected, positions before the offset never are.
   */
  function EveryNth(interval: int, startOffset: int := 0): (r: Result<int -> bool>)
    ensures r.Ok? <==> interval > 0 && startOffset >= 0
    ensures interval <= 0 ==> r.Err? && r.error == ArgumentOutOfRange("interval")
    ensures interval > 0 && startOffset < 0 ==> r.Err? && r.error == ArgumentOutOfRange("startOffset")
  {
    if interval <= 0 then Err(ArgumentOutOfRange("interval"))
    else if startOffset < 0 then Err(ArgumentOutOfRange("startOffset"))
    else
      var groupSize := interval + 1;
      Ok(index =>
        var adjustedIndex := index - startOffset;
        if adjustedIndex < 0 then false
        else Rem(adjustedIndex, groupSize) == interval)
  }

  /**
   * Groups of `keepCount + seleteCount` positions counted from 0; in every group the first
   * `keepCount` positions are kept and the rest are selected.
   */
  function KeepThenSelete(keepCount: int, seleteCount: int): (r: Result<int -> bool>)
    ensures r.Ok? <==> keepCount > 0 && seleteCount > 0
    ensures keepCount <= 0 ==> r.Err? && r.error == ArgumentOutOfRange("keepCount")
    ensures keepCount > 0 && seleteCount <= 0 ==> r.Err? && r.error == ArgumentOutOfRange("seleteCount")
  {
    if keepCount <= 0 then Err(ArgumentOutOfRange("keepCount"))
    else if seleteCount <= 0 then Err(ArgumentOutOfRange("seleteCount"))
    else
      var groupSize := keepCount + seleteCount;
      Ok(index =>
        var positionInGroup := Rem(index, groupSize);
        positionInGroup >= keepCount)
  }

  /** No position before the offset is selected, so an offset past the listing selects nothing. */
  lemma EveryNthBeforeOffset(interval: int, startOffset: int, index: int)
    requires EveryNth(interval, startOffset).Ok? && index < startOffset
    ensures !EveryNth(interval, startOffset).value(index)
  {
  }

  /** In the g-th group of `interval + 1` positions after the offset, exactly the last one is selected. */
  lemma EveryNthGroup(interval: int, startOffset: int, g: nat, j: int)
    requires EveryNth(interval, startOffset).Ok? && 0 <= j <= interval
    ensures EveryNth(interval, startOffset).value(startOffset + g * (interval + 1) + j) <==> j == interval
  {
    RemInGroup(g, interval + 1, j);
  }

  /** Without an offset the first file (position 0) is never selected. */
  lemma EveryNthKeepsFirst(interval: int)
    requires interval > 0
    ensures EveryNth(interval).Ok? && !EveryNth(interval).value(0)
  {
    RemInGroup(0, interval + 1, 0);
  }

  /** m whole groups after the offset hold exactly m selected positions. */
  lemma {:induction false} EveryNthCount(interval: int, startOffset: int, m: nat)
    requires EveryNth(interval, startOffset).Ok?
    ensures Count(EveryNth(interval, startOffset).value, 0, startOffset + m * (interval + 1)) == m
  {
    var p := EveryNth(interval, startOffset).value;
    var size := interval + 1;
    if m == 0 {
      CountNone(p, 0, startOffset);
    } else {
      EveryNthCount(interval, startOffset, m - 1);
      var lo := startOffset + (m - 1) * size;
      assert lo + size == startOffset + m * size;
      MulMono(m - 1, 0, size);
      CountSplit(p, 0, lo, lo + size);
      EveryNthGroupCount(interval, startOffset, m - 1);
    }
  }

  /** Each whole group after the offset holds exactly one selected position, its last. */
  lemma EveryNthGroupCount(interval: int, startOffset: int, g: nat)
    requires EveryNth(interval, startOffset).Ok?
    ensures var lo := startOffset + g * (interval + 1);
            Count(EveryNth(interval, startOffset).value, lo, lo + interval + 1) == 1
  {
    var p := EveryNth(interval, startOffset).value;
    var lo := startOffset + g * (interval + 1);
    forall j | lo <= j < lo + interval + 1
      ensures p(j) <==> j >= lo + interval
    {
      EveryNthGroup(interval, startOffset, g, j - lo);
    }
    CountThreshold(p, lo, lo + interval, lo + interval + 1);
  }

  /** In the g-th group of `keepCount + seleteCount` positions, position j is selected iff j >= keepCount. */
  lemma KeepThenSeleteGroup(keepCount: int, seleteCount: int, g: nat, j: int)
    requires KeepThenSelete(keepCount, seleteCount).Ok? && 0 <= j < keepCount + seleteCount
    ensures KeepThenSelete(keepCount, seleteCount).value(g * (keepCount + seleteCount) + j) <==> j >= keepCount
  {
    RemInGroup(g, keepCount + seleteCount, j);
  }

  /** C#'s remainder is never positive for a negative index, so no negative index is selected. */
  lemma KeepThenSeleteNegative(keepCount: int, seleteCount: int, index: int)
    requires KeepThenSelete(keepCount, seleteCount).Ok? && index < 0
    ensures !KeepThenSelete(keepCount, seleteCount).value(index)
  {
  }

  /** m whole groups hold exactly m * seleteCount selected positions. */
  lemma {:induction false} KeepThenSeleteWholeGroups(keepCount: int, seleteCount: int, m: nat)
    requires KeepThenSelete(keepCount, seleteCount).Ok?
    ensures Count(KeepThenSelete(keepCount, seleteCount).value, 0, m * (keepCount + seleteCount)) == m * seleteCount
  {
    var p := KeepThenSelete(keepCount, seleteCount).value;
    var size := keepCount + seleteCount;
    if m > 0 {
      KeepThenSeleteWholeGroups(keepCount, seleteCount, m - 1);
      var lo := (m - 1) * size;
      MulPred(m, size);
      MulPred(m, seleteCount);
      MulMono(m - 1, 0, size);
      CountSplit(p, 0, lo, lo + size);
      forall j | lo <= j < lo + size
        ensures p(j) <==> j >= lo + keepCount
      {
        KeepThenSeleteGroup(keepCount, seleteCount, m - 1, j - lo);
      }
      CountThreshold(p, lo, lo + keepCount, lo + size);
    }
  }

  /**
   * m whole groups followed by r more positions hold m * seleteCount selected positions,
   * plus those of the incomplete last group that lie at or past `keepCount`.
   */
  lemma KeepThenSeleteCount(keepCount: int, seleteCount: int, m: nat, r: int)
    requires KeepThenSelete(keepCount, seleteCount).Ok? && 0 <= r < keepCount + seleteCount
    ensures Count(KeepThenSelete(keepCount, seleteCount).value, 0, m * (keepCount + seleteCount) + r)
            == m * seleteCount + (if r > keepCount then r - keepCount else 0)
  {
    var p := KeepThenSelete(keepCount, seleteCount).value;
    var lo := m * (keepCount + seleteCount);
    MulMono(m, 0, keepCount + seleteCount);
    KeepThenSeleteWholeGroups(keepCount, seleteCount, m);
    CountSplit(p, 0, lo, lo + r);
    KeepThenSeletePartialGroup(keepCount, seleteCount, m, r);
  }

  /** The first r positions of group m hold the selected positions at or past `keepCount`. */
  lemma KeepThenSeletePartialGroup(keepCount: int, seleteCount: int, m: nat, r: int)
    requires KeepThenSelete(keepCount, seleteCount).Ok? && 0 <= r < keepCount + seleteCount
    ensures Count(KeepThenSelete(keepCount, seleteCount).value, m * (keepCount + seleteCount),
                  m * (keepCount + seleteCount) + r)
            == if r > keepCount then r - keepCount else 0
  {
    var p := KeepThenSelete(keepCount, seleteCount).value;
    var lo := m * (keepCount + seleteCount);
    var t := lo + (if r > keepCount then keepCount else r);
    forall j | lo <= j < lo + r
      ensures p(j) <==> j >= t
    {
      KeepThenSeleteGroup(keepCount, seleteCount, m, j - lo);
    }
    CountThreshold(p, lo, t, lo + r);
  }

  /** EveryNth(n) and KeepThenSelete(n, 1) select the same positions. */
  lemma EveryNthIsKeepThenSelete(n: int, index: int)
    requires n > 0
    ensures EveryNth(n).Ok? && KeepThenSelete(n, 1).Ok?
    ensures EveryNth(n).value(index) <==> KeepThenSelete(n, 1).value(index)
  {
  }

  /** Interval 2 among ten files: groups of three, the last of each selected. */
  lemma EveryNthExample()
    ensures SelectedIndices(EveryNth(2).value, 10) == [2, 5, 8]
  {
    var p := EveryNth(2).value;
    forall i | 0 <= i < 10 ensures p(i) <==> i == 2 || i == 5 || i == 8 {
      assert Rem(i, 3) == i % 3;
    }
    SelectedIndicesUnique(p, 10, [2, 5, 8]);
  }

  /** Interval 1 among ten files: every second file. */
  lemma EveryNthOneExample()
    ensures SelectedIndices(EveryNth(1).value, 10) == [1, 3, 5, 7, 9]
  {
    var p := EveryNth(1).value;
    forall i | 0 <= i < 10 ensures p(i) <==> i == 1 || i == 3 || i == 5 || i == 7 || i == 9 {
      assert Rem(i, 2) == i % 2;
    }
    SelectedIndicesUnique(p, 10, [1, 3, 5, 7, 9]);
  }

  /** Interval 2 from offset 1 among ten files: the groups start one position later. */
  lemma EveryNthOffsetExample()
    ensures SelectedIndices(EveryNth(2, 1).value, 10) == [3, 6, 9]
  {
    var p := EveryNth(2, 1).value;
    forall i | 0 <= i < 10 ensures p(i) <==> i == 3 || i == 6 || i == 9 {
      if i >= 1 { assert Rem(i - 1, 3) == (i - 1) % 3; }
    }
    SelectedIndicesUnique(p, 10, [3, 6, 9]);
  }

  /** An interval longer than the listing selects nothing. */
  lemma EveryNthLongIntervalExample()
    ensures SelectedIndices(EveryNth(100).value, 10) == []
  {
    var p := EveryNth(100).value;
    forall i | 0 <= i < 10 ensures !p(i) {
      assert Rem(i, 101) == i;
    }
    SelectedIndicesUnique(p, 10, []);
  }

  /** Keep two, select one among ten files. */
  lemma KeepThenSeleteExample()
    ensures SelectedIndices(KeepThenSelete(2, 1).value, 10) == [2, 5, 8]
  {
    var p := KeepThenSelete(2, 1).value;
    forall i | 0 <= i < 10 ensures p(i) <==> i == 2 || i == 5 || i == 8 {
      assert Rem(i, 3) == i % 3;
    }
    SelectedIndicesUnique(p, 10, [2, 5, 8]);
  }

  /** Keep two, select two among ten files. */
  lemma KeepThenSeleteTwoTwoExample()
    ensures SelectedIndices(KeepThenSelete(2, 2).value, 10) == [2, 3, 6, 7]
  {
    var p := KeepThenSelete(2, 2).value;
    forall i | 0 <= i < 10 ensures p(i) <==> i == 2 || i == 3 || i == 6 || i == 7 {
      assert Rem(i, 4) == i % 4;
    }
    SelectedIndicesUnique(p, 10, [2, 3, 6, 7]);
  }

  /** Keep three, select two among seven files: the incomplete second group selects nothing. */
  lemma KeepThenSeleteIncompleteGroupExample()
    ensures SelectedIndices(KeepThenSelete(3, 2).value, 7) == [3, 4]
  {
    var p := KeepThenSelete(3, 2).value;
    forall i | 0 <= i < 7 ensures p(i) <==> i == 3 || i == 4 {
      assert Rem(i, 5) == i % 5;
    }
    SelectedIndicesUnique(p, 7, [3, 4]);
  }

  /** Keep one, select one among ten files: the odd positions, as with interval 1. */
  lemma KeepOneSeleteOneExample()
    ensures SelectedIndices(KeepThenSelete(1, 1).value, 10) == [1, 3, 5, 7, 9]
  {
    var p := KeepThenSelete(1, 1).value;
    forall i | 0 <= i < 10 ensures p(i) <==> i == 1 || i == 3 || i == 5 || i == 7 || i == 9 {
      assert Rem(i, 2) == i % 2;
    }
    SelectedIndicesUnique(p, 10, [1, 3, 5, 7, 9]);
  }
}
