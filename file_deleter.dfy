/**
 * The enumerator and the older positional rules of the BatchFileDeleter library
 * (BatchFileDeleter/FileDeleter.cs).
 */
module FileDeleter {
  import opened Wrappers
  import opened Strings
  import opened GroupArith
  import opened FileSystem
  import opened OrderBy
  import opened IndexedSelection
  import DeletionRules
  import FileInfoComparer

  /** The deleter's own comparer of files by name; `null` stands for a missing file. */
  datatype FileInfoNameComparer = FileInfoNameComparer(nameComparer: StringComparer) {

    function Compare(x: FileInfo?, y: FileInfo?): (r: int)
      ensures -1 <= r <= 1
      ensures x == y ==> r == 0
      ensures x == null && y != null ==> r == -1
      ensures x != null && y == null ==> r == 1
      ensures x != null && y != null ==> (r == 0 <==> nameComparer.Key(x.name) == nameComparer.Key(y.name))
    {
      if x == y then 0
      else if x == null then -1
      else if y == null then 1
      else nameComparer.Compare(x.name, y.name)
    }
  }

  /** The default order of the enumerator: by name, ignoring case. */
  const OrdinalIgnoreCase := FileInfoNameComparer(Strings.OrdinalIgnoreCase)

  /** The deleter's comparer orders any two files exactly as the library's `FileNameComparer`. */
  lemma CompareAgrees(sc: StringComparer, x: FileInfo?, y: FileInfo?)
    ensures FileInfoNameComparer(sc).Compare(x, y) == FileInfoComparer.FileNameComparer(sc).Compare(x, y)
  {
  }

  /** On files that are present the comparer is the string comparer on their names. */
  lemma CompareIsNameOrder(c: FileInfoNameComparer, x: FileInfo, y: FileInfo)
    ensures c.Compare(x, y) == c.nameComparer.Compare(x.name, y.name)
  {
    FileInfoComparer.CompareIsNameOrder(FileInfoComparer.FileNameComparer(c.nameComparer), x, y);
  }

  /** The name order the enumerator sorts by: the given comparer's, or ignore-case by default. */
  function SortOrder(comparer: Option<FileInfoNameComparer>): (sc: StringComparer)
    ensures comparer.None? ==> sc == Strings.OrdinalIgnoreCase
    ensures comparer.Some? ==> sc == comparer.value.nameComparer
  {
    comparer.GetOr(OrdinalIgnoreCase).nameComparer
  }

  /**
   * Lists the candidates for deletion: the folder's files sorted by name, numbered from 0 in
   * that order, and kept when `shouldDelete(position, file)` holds. The folder's existence
   * and its listing (already filtered by the search pattern) are inputs.
   */
  method EnumerateFilesForDeletion(folderPath: Option<string>, shouldDelete: Option<(int, FileInfo) -> bool>,
                                   folderExists: bool, listing: seq<FileInfo>, comparer: Option<FileInfoNameComparer>)
    returns (r: Result<seq<FileInfo>>)
    ensures IsNullOrWhiteSpace(folderPath) ==> r == Err(ArgumentNull("folderPath"))
    ensures !IsNullOrWhiteSpace(folderPath) && shouldDelete.None? ==> r == Err(ArgumentNull("shouldDelete"))
    ensures !IsNullOrWhiteSpace(folderPath) && shouldDelete.Some? && !folderExists ==> r == Err(DirectoryNotFound)
    ensures r.Ok? <==> !IsNullOrWhiteSpace(folderPath) && shouldDelete.Some? && folderExists
    ensures r.Ok? ==> r.value == Selected(SortByName(listing, SortOrder(comparer)), shouldDelete.value)
  {
    if IsNullOrWhiteSpace(folderPath) {
      return Err(ArgumentNull("folderPath"));
    }
    if shouldDelete.None? {
      return Err(ArgumentNull("shouldDelete"));
    }
    if !folderExists {
      return Err(DirectoryNotFound);
    }
    var files := SortByName(listing, SortOrder(comparer));
    var p := shouldDelete.value;
    var selected := [];
    var i := 0;
    while i < |files|
      invariant 0 <= i <= |files|
      invariant selected == Selected(files[..i], p)
    {
      assert files[..i + 1][..i] == files[..i];
      if p(i, files[i]) {
        selected := selected + [files[i]];
      }
      i := i + 1;
    }
    assert files[..i] == files;
    return Ok(selected);
  }

  /**
   * Deletion candidates chosen by position only. A missing rule is refused before anything
   * else; otherwise the result is the files at the positions the rule picks out of the
   * sorted listing.
   */
  method SelectFilesForDeletion(folderPath: Option<string>, shouldDeleteIndex: Option<int -> bool>,
                                folderExists: bool, listing: seq<FileInfo>, comparer: Option<FileInfoNameComparer>)
    returns (r: Result<seq<FileInfo>>)
    ensures shouldDeleteIndex.None? ==> r == Err(ArgumentNull("shouldDeleteIndex"))
    ensures shouldDeleteIndex.Some? && IsNullOrWhiteSpace(folderPath) ==> r == Err(ArgumentNull("folderPath"))
    ensures shouldDeleteIndex.Some? && !IsNullOrWhiteSpace(folderPath) && !folderExists ==> r == Err(DirectoryNotFound)
    ensures r.Ok? <==> shouldDeleteIndex.Some? && !IsNullOrWhiteSpace(folderPath) && folderExists
    ensures r.Ok? ==>
              var sorted := SortByName(listing, SortOrder(comparer));
              r.value == Pick(sorted, SelectedIndices(shouldDeleteIndex.value, |sorted|))
  {
    if shouldDeleteIndex.None? {
      return Err(ArgumentNull("shouldDeleteIndex"));
    }
    var rule := shouldDeleteIndex.value;
    var sorted := SortByName(listing, SortOrder(comparer));
    SelectedByPosition<FileInfo>(sorted, rule);
    r := EnumerateFilesForDeletion(folderPath, Some(AtPosition<FileInfo>(rule)), folderExists, listing, comparer);
  }

  /**
   * With the default order and a predicate that accepts everything, the enumerator returns the
   * D, c, B, a folder as a, B, c, D.
   */
  lemma DeterministicOrderExample(p: (int, FileInfo) -> bool, d: FileInfo, c: FileInfo, b: FileInfo, a: FileInfo)
    requires forall i, f :: p(i, f)
    requires d.name == "D.txt" && c.name == "c.txt" && b.name == "B.txt" && a.name == "a.txt"
    ensures Selected(SortByName([d, c, b, a], SortOrder(None)), p) == [a, b, c, d]
  {
    FileInfoComparer.ByNameIgnoreCaseExample(d, c, b, a);
    SelectedAll([a, b, c, d], p);
  }

  /** Deletes position i when it lies at least `n` past the offset and a multiple of `n` past it. */
  function DeleteEveryNth(n: int, offset: int := 0): (r: Result<int -> bool>)
    ensures r.Ok? <==> n > 0 && offset >= 0
    ensures n <= 0 ==> r.Err? && r.error == ArgumentOutOfRange("n")
    ensures n > 0 && offset < 0 ==> r.Err? && r.error == ArgumentOutOfRange("offset")
  {
    if n <= 0 then Err(ArgumentOutOfRange("n"))
    else if offset < 0 then Err(ArgumentOutOfRange("offset"))
    else Ok(i => i >= offset + n && Rem(i - offset, n) == 0)
  }

  /**
   * Counting blocks of `n` positions from the offset, the first position of every block but
   * the first is deleted, and nothing before the offset is.
   */
  lemma DeleteEveryNthBlock(n: int, offset: int, g: nat, j: int)
    requires DeleteEveryNth(n, offset).Ok? && 0 <= j < n
    ensures DeleteEveryNth(n, offset).value(offset + g * n + j) <==> g >= 1 && j == 0
    ensures forall i :: i < offset + n ==> !DeleteEveryNth(n, offset).value(i)
  {
    RemInGroup(g, n, j);
    if g >= 1 {
      MulMono(g, 1, n);
    }
  }

  /**
   * For n >= 2 the old rule is the newer `EveryNth(n - 1)` moved one position later: it
   * deletes the offset plus n, 2n, ... where `EveryNth(n - 1, offset)` deletes offset plus
   * n - 1, 2n - 1, ....
   */
  lemma DeleteEveryNthIsShiftedEveryNth(n: int, offset: int, i: int)
    requires n >= 2 && offset >= 0
    ensures DeleteEveryNth(n, offset).Ok? && DeletionRules.EveryNth(n - 1, offset + 1).Ok?
    ensures DeleteEveryNth(n, offset).value(i) <==> DeletionRules.EveryNth(n - 1, offset + 1).value(i)
  {
    var x := i - (offset + 1);
    if x >= 0 {
      RemSucc(x, n);
      assert Rem(i - offset, n) == (x + 1) % n;
      assert Rem(x, n - 1 + 1) == x % n;
    }
  }

  /** Every second file among six: positions 2 and 4, not 0. */
  lemma DeleteEveryNthExample()
    ensures SelectedIndices(DeleteEveryNth(2).value, 6) == [2, 4]
  {
    var p := DeleteEveryNth(2).value;
    forall i | 0 <= i < 6 ensures p(i) <==> i == 2 || i == 4 {
      assert Rem(i, 2) == i % 2;
    }
    SelectedIndicesUnique(p, 6, [2, 4]);
  }

  /** n = 100 among three files deletes nothing. */
  lemma DeleteEveryNthLongExample()
    ensures SelectedIndices(DeleteEveryNth(100).value, 3) == []
  {
    var p := DeleteEveryNth(100).value;
    forall i | 0 <= i < 3 ensures !p(i) {
      assert Rem(i, 100) == i;
    }
    SelectedIndicesUnique(p, 3, []);
  }

  /**
   * Groups of `take + skip` positions from 0; the first `take` of each are kept, the rest
   * deleted. A group of size zero is refused too, although the two checks before it already
   * exclude it.
   */
  function DeleteByTakeSkip(take: int, skip: int): (r: Result<int -> bool>)
    ensures r.Ok? <==> take > 0 && skip >= 0
    ensures take <= 0 ==> r.Err? && r.error == ArgumentOutOfRange("take")
    ensures take > 0 && skip < 0 ==> r.Err? && r.error == ArgumentOutOfRange("skip")
  {
    if take <= 0 then Err(ArgumentOutOfRange("take"))
    else if skip < 0 then Err(ArgumentOutOfRange("skip"))
    else
      var group := take + skip;
      if group == 0 then Err(ArgumentOutOfRange("skip"))
      else Ok(i => Rem(i, group) >= take)
  }

  /** In the g-th group, position j is deleted iff j >= take. */
  lemma DeleteByTakeSkipGroup(take: int, skip: int, g: nat, j: int)
    requires DeleteByTakeSkip(take, skip).Ok? && 0 <= j < take + skip
    ensures DeleteByTakeSkip(take, skip).value(g * (take + skip) + j) <==> j >= take
  {
    RemInGroup(g, take + skip, j);
  }

  /** With `skip == 0` nothing is ever deleted. */
  lemma DeleteByTakeSkipZeroSkip(take: int, n: nat)
    requires take > 0
    ensures DeleteByTakeSkip(take, 0).Ok?
    ensures forall i :: !DeleteByTakeSkip(take, 0).value(i)
    ensures SelectedIndices(DeleteByTakeSkip(take, 0).value, n) == []
  {
  }

  /** With at least one position skipped, the rule is the library's `KeepThenDelete(take, skip)`. */
  lemma DeleteByTakeSkipAgrees(take: int, skip: int, i: int)
    requires take > 0 && skip > 0
    ensures DeleteByTakeSkip(take, skip).Ok? && DeletionRules.KeepThenDelete(take, skip).Ok?
    ensures DeleteByTakeSkip(take, skip).value(i) <==> DeletionRules.KeepThenDelete(take, skip).value(i)
  {
  }

  /** Take two, skip one among five files: position 2. */
  lemma DeleteByTakeSkipExample()
    ensures SelectedIndices(DeleteByTakeSkip(2, 1).value, 5) == [2]
  {
    var p := DeleteByTakeSkip(2, 1).value;
    forall i | 0 <= i < 5 ensures p(i) <==> i == 2 {
      assert Rem(i, 3) == i % 3;
    }
    SelectedIndicesUnique(p, 5, [2]);
  }

  /** Take one, skip one among four files: positions 1 and 3. */
  lemma DeleteByTakeSkipAlternateExample()
    ensures SelectedIndices(DeleteByTakeSkip(1, 1).value, 4) == [1, 3]
  {
    var p := DeleteByTakeSkip(1, 1).value;
    forall i | 0 <= i < 4 ensures p(i) <==> i == 1 || i == 3 {
      assert Rem(i, 2) == i % 2;
    }
    SelectedIndicesUnique(p, 4, [1, 3]);
  }
}
