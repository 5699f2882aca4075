/**
 * The enumerator of the SmartFileSelector library (src/SmartFileSelector/ConditionalFileSelector.cs):
 * validate the inputs, sort the listing by name, pair every file with its position, keep the
 * pairs the predicate accepts and return their files.
 */
module ConditionalFileSelector {
  import opened Wrappers
  import opened Strings
  import opened GroupArith
  import opened FileSystem
  import opened OrderBy
  import opened IndexedSelection
  import opened FileInfoComparer

  /** A path that is missing or blank is refused first, then a missing predicate. */
  function ValidateInputs(folderPath: Option<string>, shouldDelete: Option<(int, FileInfo) -> bool>): (o: Outcome)
    ensures IsNullOrWhiteSpace(folderPath) ==> o == Fail(Argument(Some("folderPath")))
    ensures !IsNullOrWhiteSpace(folderPath) && shouldDelete.None? ==> o == Fail(ArgumentNull("shouldDelete"))
    ensures o == Pass <==> !IsNullOrWhiteSpace(folderPath) && shouldDelete.Some?
  {
    if IsNullOrWhiteSpace(folderPath) then Fail(Argument(Some("folderPath")))
    else if shouldDelete.None? then Fail(ArgumentNull("shouldDelete"))
    else Pass
  }

  /** `Select((file, index) => new { File = file, Index = index })`: every element with its position. */
  function WithIndex<T>(s: seq<T>): (r: seq<(T, int)>)
    ensures |r| == |s|
  {
    seq(|s|, i requires 0 <= i < |s| => (s[i], i))
  }

  /** `Where(f)`: the elements `f` accepts, in order. */
  function Where<U>(xs: seq<U>, f: U -> bool): (r: seq<U>)
    ensures |r| <= |xs|
    ensures forall x :: x in r ==> x in xs && f(x)
  {
    if xs == [] then []
    else
      var n := |xs| - 1;
      Where(xs[..n], f) + (if f(xs[n]) then [xs[n]] else [])
  }

  /** `Select(item => item.File)`. */
  function Files<T>(items: seq<(T, int)>): (r: seq<T>)
    ensures |r| == |items|
  {
    seq(|items|, i requires 0 <= i < |items| => items[i].0)
  }

  /** The `Where` condition: the predicate applied to the pair's position and file. */
  function ItemRule<T>(shouldDelete: (int, T) -> bool): ((T, int)) -> bool {
    (item: (T, int)) => shouldDelete(item.1, item.0)
  }

  /** The pipeline keeps exactly the elements the counter-based walk of `Selected` keeps. */
  lemma {:induction false} PipelineIsSelected<T>(s: seq<T>, p: (int, T) -> bool)
    ensures Files(Where(WithIndex(s), ItemRule(p))) == Selected(s, p)
  {
    if s != [] {
      var n := |s| - 1;
      PipelineIsSelected(s[..n], p);
      var indexed := WithIndex(s);
      WithIndexSnoc(s);
      var before := Where(indexed[..n], ItemRule(p));
      var last := if p(n, s[n]) then [(s[n], n)] else [];
      assert Where(indexed, ItemRule(p)) == before + last;
      FilesAppend(before, last);
    }
  }

  /** Numbering a sequence numbers its prefix the same way and gives the last element the last position. */
  lemma WithIndexSnoc<T>(s: seq<T>)
    requires s != []
    ensures WithIndex(s)[..|s| - 1] == WithIndex(s[..|s| - 1])
    ensures WithIndex(s)[|s| - 1] == (s[|s| - 1], |s| - 1)
  {
  }

  lemma FilesAppend<T>(a: seq<(T, int)>, b: seq<(T, int)>)
    ensures Files(a + b) == Files(a) + Files(b)
  {
  }

  /**
   * The files to delete: the listing (already filtered by the search pattern) sorted by the
   * given comparer, ignoring case by default, numbered from 0, kept when the predicate accepts
   * (position, file).
   */
  function EnumerateFilesForDeletion(folderPath: Option<string>, shouldDelete: Option<(int, FileInfo) -> bool>,
                                     folderExists: bool, listing: seq<FileInfo>, comparer: Option<FileNameComparer>)
    : (r: Result<seq<FileInfo>>)
    ensures IsNullOrWhiteSpace(folderPath) ==> r == Err(Argument(Some("folderPath")))
    ensures !IsNullOrWhiteSpace(folderPath) && shouldDelete.None? ==> r == Err(ArgumentNull("shouldDelete"))
    ensures !IsNullOrWhiteSpace(folderPath) && shouldDelete.Some? && !folderExists ==> r == Err(DirectoryNotFound)
    ensures r.Ok? <==> !IsNullOrWhiteSpace(folderPath) && shouldDelete.Some? && folderExists
    ensures r.Ok? ==> r.value == Selected<FileInfo>(SortByName(listing, comparer.GetOr(ByNameIgnoreCase).nameComparer), shouldDelete.value)
  {
    match ValidateInputs(folderPath, shouldDelete)
    case Fail(e) => Err(e)
    case Pass =>
      if !folderExists then Err(DirectoryNotFound)
      else
        var sortedFiles := SortByName(listing, comparer.GetOr(ByNameIgnoreCase).nameComparer);
        PipelineIsSelected<FileInfo>(sortedFiles, shouldDelete.value);
        Ok(Files(Where(WithIndex(sortedFiles), ItemRule(shouldDelete.value))))
  }

  /**
   * Files chosen by position only. A missing rule is refused before the other inputs are
   * looked at; otherwise the result is the files at the positions the rule picks.
   */
  function SelectFilesByIndex(folderPath: Option<string>, shouldDeleteIndex: Option<int -> bool>,
                              folderExists: bool, listing: seq<FileInfo>, comparer: Option<FileNameComparer>)
    : (r: Result<seq<FileInfo>>)
    ensures shouldDeleteIndex.None? ==> r == Err(ArgumentNull("shouldDeleteIndex"))
    ensures shouldDeleteIndex.Some? && IsNullOrWhiteSpace(folderPath) ==> r == Err(Argument(Some("folderPath")))
    ensures shouldDeleteIndex.Some? && !IsNullOrWhiteSpace(folderPath) && !folderExists ==> r == Err(DirectoryNotFound)
    ensures r.Ok? <==> shouldDeleteIndex.Some? && !IsNullOrWhiteSpace(folderPath) && folderExists
    ensures r.Ok? ==>
              var sorted := SortByName(listing, comparer.GetOr(ByNameIgnoreCase).nameComparer);
              r.value == Pick(sorted, SelectedIndices(shouldDeleteIndex.value, |sorted|))
  {
    match shouldDeleteIndex
    case None => Err(ArgumentNull("shouldDeleteIndex"))
    case Some(rule) =>
      SelectedByPosition<FileInfo>(SortByName(listing, comparer.GetOr(ByNameIgnoreCase).nameComparer), rule);
      EnumerateFilesForDeletion(folderPath, Some(AtPosition<FileInfo>(rule)), folderExists, listing, comparer)
  }

  /** A predicate that accepts everything returns the whole listing in sorted order. */
  lemma AlwaysTrueSelectsAll(folderPath: Option<string>, p: (int, FileInfo) -> bool, listing: seq<FileInfo>,
                             comparer: Option<FileNameComparer>)
    requires !IsNullOrWhiteSpace(folderPath) && forall i, f :: p(i, f)
    ensures var r := EnumerateFilesForDeletion(folderPath, Some(p), true, listing, comparer);
            r.Ok? && r.value == SortByName(listing, comparer.GetOr(ByNameIgnoreCase).nameComparer)
  {
    var sorted := SortByName(listing, comparer.GetOr(ByNameIgnoreCase).nameComparer);
    SortByNamePermutation(listing, comparer.GetOr(ByNameIgnoreCase).nameComparer);
    forall i | 0 <= i < |sorted| ensures p(i, sorted[i]) {
      assert sorted[i] in multiset(listing);
    }
    SelectedAll<FileInfo>(sorted, p);
  }

  /** A predicate that accepts nothing, or an empty folder, returns nothing. */
  lemma NothingSelected(folderPath: Option<string>, p: (int, FileInfo) -> bool, listing: seq<FileInfo>,
                        comparer: Option<FileNameComparer>)
    requires !IsNullOrWhiteSpace(folderPath)
    requires listing == [] || forall i, f :: !p(i, f)
    ensures var r := EnumerateFilesForDeletion(folderPath, Some(p), true, listing, comparer);
            r.Ok? && r.value == []
  {
    var sorted := SortByName(listing, comparer.GetOr(ByNameIgnoreCase).nameComparer);
    SortByNamePermutation(listing, comparer.GetOr(ByNameIgnoreCase).nameComparer);
    forall i | 0 <= i < |sorted| ensures !p(i, sorted[i]) {
      assert sorted[i] in multiset(listing);
    }
    SelectedNone<FileInfo>(sorted, p);
  }

  /** The D, c, B, a folder with an accept-all predicate lists a, B, c, D. */
  lemma DeterministicOrderExample(folderPath: Option<string>, p: (int, FileInfo) -> bool,
                                  d: FileInfo, c: FileInfo, b: FileInfo, a: FileInfo)
    requires !IsNullOrWhiteSpace(folderPath) && forall i, f :: p(i, f)
    requires d.name == "D.txt" && c.name == "c.txt" && b.name == "B.txt" && a.name == "a.txt"
    ensures var r := EnumerateFilesForDeletion(folderPath, Some(p), true, [d, c, b, a], None);
            r.Ok? && r.value == [a, b, c, d]
  {
    AlwaysTrueSelectsAll(folderPath, p, [d, c, b, a], None);
    ByNameIgnoreCaseExample(d, c, b, a);
  }
}
