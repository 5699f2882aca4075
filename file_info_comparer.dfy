/**
 * The file comparers of the BatchFileDeleter library (BatchFileDeleter/FileInfoComparer.cs):
 * files are ordered by name under a string comparer, with the same reference equal to itself
 * and a missing file before any file.
 */
module FileInfoComparer {
  import opened Wrappers
  import opened Strings
  import opened FileSystem
  import opened OrderBy

  /** A comparer of files that orders them by name under `nameComparer`. */
  datatype FileNameComparer = FileNameComparer(nameComparer: StringComparer) {

    /** `Compare(x, y)`; `null` stands for a missing file. */
    function Compare(x: FileInfo?, y: FileInfo?): (r: int)
      ensures -1 <= r <= 1
      ensures x == y ==> r == 0
      ensures x == null && y != null ==> r == -1
      ensures x != null && y == null ==> r == 1
      ensures x != null && y != null ==> (r == 0 <==> nameComparer.Key(x.name) == nameComparer.Key(y.name))
    {
      if x == y then 0
      else if x == null then -1
      else if y == null then 1
      else nameComparer.Compare(x.name, y.name)
    }
  }

  /** Orders files by name ignoring case. */
  const ByNameIgnoreCase := FileNameComparer(OrdinalIgnoreCase)

  /** Orders files by name, case-sensitive. */
  const ByName := FileNameComparer(Ordinal)

  /** Builds a comparer for a string comparer; a missing string comparer is refused. */
  function CreateNameComparer(stringComparer: Option<StringComparer>): (r: Result<FileNameComparer>)
    ensures r.Ok? <==> stringComparer.Some?
    ensures stringComparer.None? ==> r == Err(ArgumentNull("nameComparer"))
    ensures r.Ok? ==> r.value.nameComparer == stringComparer.value
  {
    match stringComparer
    case None => Err(ArgumentNull("nameComparer"))
    case Some(sc) => Ok(FileNameComparer(sc))
  }

  /**
   * On files that are present the comparer is exactly the string comparer on their names,
   * which is why sorting a listing with it is sorting by name.
   */
  lemma CompareIsNameOrder(c: FileNameComparer, x: FileInfo, y: FileInfo)
    ensures c.Compare(x, y) == c.nameComparer.Compare(x.name, y.name)
  {
    CompareIsTotalPreorder(c.nameComparer, x.name, y.name, y.name);
  }

  /** Two pairs of present files with the same names compare alike, whatever the objects. */
  lemma CompareDependsOnNamesOnly(c: FileNameComparer, x: FileInfo, y: FileInfo, x': FileInfo, y': FileInfo)
    requires x.name == x'.name && y.name == y'.name
    ensures c.Compare(x, y) == c.Compare(x', y')
  {
    CompareIsNameOrder(c, x, y);
    CompareIsNameOrder(c, x', y');
  }

  /** The case-sensitive comparer puts "B.txt" before "a.txt". */
  lemma ByNameIsCaseSensitive(b: FileInfo, a: FileInfo)
    requires b.name == "B.txt" && a.name == "a.txt"
    ensures ByName.Compare(b, a) < 0 && ByName.Compare(a, b) > 0
  {
    CaseSensitivity();
    CompareIsNameOrder(ByName, b, a);
    CompareIsNameOrder(ByName, a, b);
    CompareIsTotalPreorder(Ordinal, "B.txt", "a.txt", "a.txt");
  }

  /** The ignore-case order of the four example names: a < B < c < D. */
  lemma IgnoreCaseNamesExample()
    ensures OrdinalIgnoreCase.Compare("a.txt", "B.txt") < 0
    ensures OrdinalIgnoreCase.Compare("B.txt", "c.txt") < 0
    ensures OrdinalIgnoreCase.Compare("c.txt", "D.txt") < 0
  {
    assert Upper("a.txt")[0] == 'A' && Upper("B.txt")[0] == 'B';
    assert Upper("c.txt")[0] == 'C' && Upper("D.txt")[0] == 'D';
    CompareFirstChar(Upper("a.txt"), Upper("B.txt"));
    CompareFirstChar(Upper("B.txt"), Upper("c.txt"));
    CompareFirstChar(Upper("c.txt"), Upper("D.txt"));
  }

  /** A file that sorts before every file already sorted ends up first. */
  lemma SortStep(init: seq<FileInfo>, x: FileInfo, sc: StringComparer, sortedInit: seq<FileInfo>)
    requires SortByName(init, sc) == sortedInit && sortedInit != [] && sc.Compare(sortedInit[0].name, x.name) > 0
    ensures SortByName(init + [x], sc) == [x] + sortedInit
  {
    SortByNameSnoc(init, x, sc);
    InsertFront(sortedInit, x, sc);
  }

  /** Files listed in strictly descending name order sort into the reverse order. */
  lemma SortDescendingTwo(d: FileInfo, c: FileInfo, sc: StringComparer)
    requires sc.Compare(d.name, c.name) > 0
    ensures SortByName([d, c], sc) == [c, d]
  {
    SortByNameSnoc([], d, sc);
    assert [] + [d] == [d];
    SortStep([d], c, sc, [d]);
    assert [d] + [c] == [d, c];
  }

  lemma SortDescendingThree(d: FileInfo, c: FileInfo, b: FileInfo, sc: StringComparer)
    requires sc.Compare(d.name, c.name) > 0 && sc.Compare(c.name, b.name) > 0
    ensures SortByName([d, c, b], sc) == [b, c, d]
  {
    SortDescendingTwo(d, c, sc);
    SortStep([d, c], b, sc, [c, d]);
    assert [d, c] + [b] == [d, c, b];
  }

  lemma SortDescendingFour(d: FileInfo, c: FileInfo, b: FileInfo, a: FileInfo, sc: StringComparer)
    requires sc.Compare(d.name, c.name) > 0 && sc.Compare(c.name, b.name) > 0 && sc.Compare(b.name, a.name) > 0
    ensures SortByName([d, c, b, a], sc) == [a, b, c, d]
  {
    SortDescendingThree(d, c, b, sc);
    SortStep([d, c, b], a, sc, [b, c, d]);
    assert [d, c, b] + [a] == [d, c, b, a];
  }

  /** Sorting d.txt, c.txt, b.txt, a.txt ignoring case gives a, b, c, d. */
  lemma LowerCaseNamesExample(d: FileInfo, c: FileInfo, b: FileInfo, a: FileInfo)
    requires d.name == "d.txt" && c.name == "c.txt" && b.name == "b.txt" && a.name == "a.txt"
    ensures SortByName([d, c, b, a], ByNameIgnoreCase.nameComparer) == [a, b, c, d]
  {
    var sc := OrdinalIgnoreCase;
    assert Upper("a.txt")[0] == 'A' && Upper("b.txt")[0] == 'B';
    assert Upper("c.txt")[0] == 'C' && Upper("d.txt")[0] == 'D';
    CompareFirstChar(Upper("b.txt"), Upper("a.txt"));
    CompareFirstChar(Upper("c.txt"), Upper("b.txt"));
    CompareFirstChar(Upper("d.txt"), Upper("c.txt"));
    SortDescendingFour(d, c, b, a, sc);
  }

  /** Sorting D.txt, c.txt, B.txt, a.txt ignoring case gives a, B, c, D. */
  lemma ByNameIgnoreCaseExample(d: FileInfo, c: FileInfo, b: FileInfo, a: FileInfo)
    requires d.name == "D.txt" && c.name == "c.txt" && b.name == "B.txt" && a.name == "a.txt"
    ensures SortByName([d, c, b, a], ByNameIgnoreCase.nameComparer) == [a, b, c, d]
  {
    var sc := OrdinalIgnoreCase;
    IgnoreCaseNamesExample();
    CompareIsTotalPreorder(sc, a.name, b.name, c.name);
    CompareIsTotalPreorder(sc, b.name, c.name, d.name);
    CompareIsTotalPreorder(sc, c.name, d.name, d.name);
    SortDescendingFour(d, c, b, a, sc);
  }
}
