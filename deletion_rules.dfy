/**
 * The deletion rules of the BatchFileDeleter library (BatchFileDeleter/DeletionRules.cs):
 * the same two predicate factories as the selection rules of the core library, under the
 * names `EveryNth` and `KeepThenDelete`.
 */
module DeletionRules {
  import opened Wrappers
  import opened GroupArith
  import FileSelectorRules

  /** Groups of `interval + 1` positions from `startOffset`; the last of every group is deleted. */
  function EveryNth(interval: int, startOffset: int := 0): (r: Result<int -> bool>)
    ensures r.Ok? <==> interval > 0 && startOffset >= 0
    ensures interval <= 0 ==> r.Err? && r.error == ArgumentOutOfRange("interval")
    ensures interval > 0 && startOffset < 0 ==> r.Err? && r.error == ArgumentOutOfRange("startOffset")
  {
    if interval <= 0 then Err(ArgumentOutOfRange("interval"))
    else if startOffset < 0 then Err(ArgumentOutOfRange("startOffset"))
    else
      var groupSize := interval + 1;
      Ok(index =>
        var adjustedIndex := index - startOffset;
        if adjustedIndex < 0 then false
        else Rem(adjustedIndex, groupSize) == interval)
  }

  /** Groups of `keepCount + deleteCount` positions; the first `keepCount` of each are kept. */
  function KeepThenDelete(keepCount: int, deleteCount: int): (r: Result<int -> bool>)
    ensures r.Ok? <==> keepCount > 0 && deleteCount > 0
    ensures keepCount <= 0 ==> r.Err? && r.error == ArgumentOutOfRange("keepCount")
    ensures keepCount > 0 && deleteCount <= 0 ==> r.Err? && r.error == ArgumentOutOfRange("deleteCount")
  {
    if keepCount <= 0 then Err(ArgumentOutOfRange("keepCount"))
    else if deleteCount <= 0 then Err(ArgumentOutOfRange("deleteCount"))
    else
      var groupSize := keepCount + deleteCount;
      Ok(index =>
        var positionInGroup := Rem(index, groupSize);
        positionInGroup >= keepCount)
  }

  /** The deleter's `EveryNth` accepts and selects exactly as the selector's `EveryNth`. */
  lemma EveryNthAgrees(interval: int, startOffset: int, index: int)
    ensures EveryNth(interval, startOffset).Ok? == FileSelectorRules.EveryNth(interval, startOffset).Ok?
    ensures EveryNth(interval, startOffset).Ok? ==>
              (EveryNth(interval, startOffset).value(index) <==> FileSelectorRules.EveryNth(interval, startOffset).value(index))
  {
  }

  /** The deleter's `KeepThenDelete` accepts and selects exactly as the selector's `KeepThenSelete`. */
  lemma KeepThenDeleteAgrees(keepCount: int, deleteCount: int, index: int)
    ensures KeepThenDelete(keepCount, deleteCount).Ok? == FileSelectorRules.KeepThenSelete(keepCount, deleteCount).Ok?
    ensures KeepThenDelete(keepCount, deleteCount).Ok? ==>
              (KeepThenDelete(keepCount, deleteCount).value(index) <==> FileSelectorRules.KeepThenSelete(keepCount, deleteCount).value(index))
  {
  }

  /** Positions before the offset are never deleted. */
  lemma EveryNthBeforeOffset(interval: int, startOffset: int, index: int)
    requires EveryNth(interval, startOffset).Ok? && index < startOffset
    ensures !EveryNth(interval, startOffset).value(index)
  {
  }

  /**
   * Every block of `interval + 1` consecutive positions that starts at the offset plus a
   * multiple of the block size holds exactly one deleted position, the block's last.
   */
  lemma EveryNthBlock(interval: int, startOffset: int, g: nat)
    requires EveryNth(interval, startOffset).Ok?
    ensures var lo := startOffset + g * (interval + 1);
            Count(EveryNth(interval, startOffset).value, lo, lo + interval + 1) == 1
            && EveryNth(interval, startOffset).value(lo + interval)
  {
    var p := EveryNth(interval, startOffset).value;
    var lo := startOffset + g * (interval + 1);
    forall j | lo <= j < lo + interval + 1
      ensures p(j) <==> j >= lo + interval
    {
      RemInGroup(g, interval + 1, j - lo);
    }
    CountThreshold(p, lo, lo + interval, lo + interval + 1);
  }

  /** In the g-th group the first `keepCount` positions are kept and the next `deleteCount` deleted. */
  lemma KeepThenDeleteGroup(keepCount: int, deleteCount: int, g: nat, j: int)
    requires KeepThenDelete(keepCount, deleteCount).Ok? && 0 <= j < keepCount + deleteCount
    ensures KeepThenDelete(keepCount, deleteCount).value(g * (keepCount + deleteCount) + j) <==> j >= keepCount
  {
    RemInGroup(g, keepCount + deleteCount, j);
  }

  /** Interval 2 among six files: the third and the sixth are deleted. */
  lemma EveryNthExample()
    ensures SelectedIndices(EveryNth(2).value, 6) == [2, 5]
  {
    var p := EveryNth(2).value;
    forall i | 0 <= i < 6 ensures p(i) <==> i == 2 || i == 5 {
      assert Rem(i, 3) == i % 3;
    }
    SelectedIndicesUnique(p, 6, [2, 5]);
  }

  /** Interval 100 among three files deletes nothing. */
  lemma EveryNthLongIntervalExample()
    ensures SelectedIndices(EveryNth(100).value, 3) == []
  {
    var p := EveryNth(100).value;
    forall i | 0 <= i < 3 ensures !p(i) {
      assert Rem(i, 101) == i;
    }
    SelectedIndicesUnique(p, 3, []);
  }

  /** Keep two, delete one among five files: the third is deleted. */
  lemma KeepThenDeleteExample()
    ensures SelectedIndices(KeepThenDelete(2, 1).value, 5) == [2]
  {
    var p := KeepThenDelete(2, 1).value;
    forall i | 0 <= i < 5 ensures p(i) <==> i == 2 {
      assert Rem(i, 3) == i % 3;
    }
    SelectedIndicesUnique(p, 5, [2]);
  }

  /** Keep one, delete one among four files: the second and the fourth are deleted. */
  lemma KeepOneDeleteOneExample()
    ensures SelectedIndices(KeepThenDelete(1, 1).value, 4) == [1, 3]
  {
    var p := KeepThenDelete(1, 1).value;
    forall i | 0 <= i < 4 ensures p(i) <==> i == 1 || i == 3 {
      assert Rem(i, 2) == i % 2;
    }
    SelectedIndicesUnique(p, 4, [1, 3]);
  }
}
