/**
 * The batch renamer of the SmartFileSelector library (src/SmartFileSelector/FileRenamer.cs):
 * the files of a folder, sorted by name, are renamed one after the other to the custom name
 * followed by their 1-based position padded with zeros and by their own extension.
 */
module FileRenamer {
  import opened Wrappers
  import opened Strings
  import opened FileSystem
  import opened OrderBy
  import opened FileInfoComparer
  import opened RenamePatternRegex
  import RenamePatternParser

  /** What `Path.GetExtension` can return: nothing, or a dot and what follows it. */
  predicate IsExtension(ext: string) {
    ext == [] || ext[0] == '.'
  }

  /**
   * The new name of the file at 1-based position `index`: the custom name, the position as
   * at least `digitCount` decimal digits, then the extension.
   */
  function NewName(customName: string, index: nat, digitCount: nat, ext: string): (n: string)
    ensures |n| >= |customName| + digitCount + |ext|
  {
    customName + FormatD(index, digitCount) + ext
  }

  /**
   * A new name reads back as its parts: it starts with the custom name, ends with the
   * extension, and what lies between is at least `digitCount` digits denoting the position.
   */
  lemma NewNameParts(customName: string, index: nat, digitCount: nat, ext: string)
    ensures var n := NewName(customName, index, digitCount, ext);
            && |n| >= |customName| + digitCount + |ext|
            && n[..|customName|] == customName && n[|n| - |ext|..] == ext
            && var digits := n[|customName|..|n| - |ext|];
               AllDigits(digits) && DecimalValue(digits) == index && |digits| >= digitCount
  {
    var n := NewName(customName, index, digitCount, ext);
    assert n[..|customName|] == customName;
    assert n[|n| - |ext|..] == ext;
    assert n[|customName|..|n| - |ext|] == FormatD(index, digitCount);
  }

  /** The number of decimal digits `y` starts with. */
  function LeadingDigits(y: string): (k: nat)
    ensures k <= |y|
  {
    if y == [] || !IsDigit(y[0]) then 0 else 1 + LeadingDigits(y[1..])
  }

  /** An extension never starts with a digit, so the digits before it are exactly the leading ones. */
  lemma {:induction false} LeadingDigitsBeforeExtension(a: string, e: string)
    requires AllDigits(a) && IsExtension(e)
    ensures LeadingDigits(a + e) == |a|
  {
    if a != [] {
      assert (a + e)[1..] == a[1..] + e;
      LeadingDigitsBeforeExtension(a[1..], e);
    }
  }

  lemma SuffixAfter(x: string, y: string)
    ensures (x + y)[|x|..] == y
  {
  }

  /** A run of digits followed by an extension splits in only one way. */
  lemma DigitsThenExtension(a: string, b: string, e1: string, e2: string)
    requires AllDigits(a) && AllDigits(b) && IsExtension(e1) && IsExtension(e2)
    requires a + e1 == b + e2
    ensures a == b && e1 == e2
  {
    var y := a + e1;
    LeadingDigitsBeforeExtension(a, e1);
    LeadingDigitsBeforeExtension(b, e2);
    assert a == y[..|a|] == b;
    assert e1 == y[|a|..] == e2;
  }

  /**
   * Two new names built from the same custom name and width are equal only for the same
   * position and extension: the extension cannot start with a digit, so it cannot absorb
   * digits of the number.
   */
  lemma NewNameInjective(customName: string, i: nat, j: nat, digitCount: nat, e1: string, e2: string)
    requires IsExtension(e1) && IsExtension(e2)
    requires NewName(customName, i, digitCount, e1) == NewName(customName, j, digitCount, e2)
    ensures i == j && e1 == e2
  {
    var a, b := FormatD(i, digitCount), FormatD(j, digitCount);
    assert a + e1 == b + e2 by {
      SuffixAfter(customName, a + e1);
      SuffixAfter(customName, b + e2);
      assert NewName(customName, i, digitCount, e1) == customName + a + e1;
      assert NewName(customName, j, digitCount, e2) == customName + b + e2;
      assert customName + a + e1 == customName + (a + e1);
      assert customName + b + e2 == customName + (b + e2);
    }
    DigitsThenExtension(a, b, e1, e2);
    FormatDInjective(i, j, digitCount);
  }

  lemma NewNameExamples()
    ensures NewName("RenamFiles_", 1, 2, ".jpg") == "RenamFiles_01.jpg"
    ensures NewName("RenamFiles_", 3, 2, ".GIF") == "RenamFiles_03.GIF"
    ensures NewName("Data_", 4, 3, ".dat") == "Data_004.dat"
    ensures NewName("X_", 123, 2, "") == "X_123"
  {
    FormatDExamples();
    assert NewName("RenamFiles_", 1, 2, ".jpg") == "RenamFiles_" + "01" + ".jpg";
    assert NewName("RenamFiles_", 3, 2, ".GIF") == "RenamFiles_" + "03" + ".GIF";
    assert NewName("Data_", 4, 3, ".dat") == "Data_" + "004" + ".dat";
    assert NewName("X_", 123, 2, "") == "X_" + "123" + "";
  }

  /** One `File.Move` from the old name to the new name. */
  datatype Rename = Rename(source: string, dest: string)

  /** The folder's files after a run of moves, and whether the run threw. */
  datatype Run = Run(entries: Entries, outcome: Outcome)

  /** The moves the renamer makes, in order: the file at position i goes to number i + 1. */
  function RenamePlan(sorted: seq<FileInfo>, customName: string, digitCount: nat): (plan: seq<Rename>)
    ensures |plan| == |sorted|
    ensures forall i :: 0 <= i < |plan| ==>
              plan[i].source == sorted[i].name && plan[i].dest == NewName(customName, i + 1, digitCount, sorted[i].extension)
  {
    seq(|sorted|, i requires 0 <= i < |sorted| =>
      Rename(sorted[i].name, NewName(customName, i + 1, digitCount, sorted[i].extension)))
  }

  /**
   * The moves made one after the other: the first move that throws ends the run, and the
   * moves already made stay made.
   */
  function RunMoves(entries: Entries, moves: seq<Rename>): (r: Run)
    ensures |r.entries| == |entries|
  {
    if moves == [] then Run(entries, Pass)
    else
      var n := |moves| - 1;
      var before := RunMoves(entries, moves[..n]);
      if before.outcome.Fail? then before
      else
        match MoveEntry(before.entries, moves[n].source, moves[n].dest)
        case Err(e) => Run(before.entries, Fail(e))
        case Ok(next) =>
          MoveKeepsCount(before.entries, moves[n].source, moves[n].dest);
          Run(next, Pass)
  }

  /** Once a move has thrown, the moves after it are never made. */
  lemma {:induction false} RunMovesStops(entries: Entries, moves: seq<Rename>, k: nat)
    requires k <= |moves| && RunMoves(entries, moves[..k]).outcome.Fail?
    ensures RunMoves(entries, moves) == RunMoves(entries, moves[..k])
    decreases |moves| - k
  {
    if k < |moves| {
      assert moves[..k + 1][..k] == moves[..k];
      RunMovesStops(entries, moves, k + 1);
    } else {
      assert moves[..k] == moves;
    }
  }

  /** After a prefix of moves that all succeeded, the next move decides the next state. */
  lemma RunMovesNext(entries: Entries, moves: seq<Rename>, k: nat)
    requires k < |moves| && RunMoves(entries, moves[..k]).outcome == Pass
    ensures var before := RunMoves(entries, moves[..k]).entries;
            var m := MoveEntry(before, moves[k].source, moves[k].dest);
            RunMoves(entries, moves[..k + 1]) == if m.Ok? then Run(m.value, Pass) else Run(before, Fail(m.error))
  {
    assert moves[..k + 1][..k] == moves[..k];
  }

  /**
   * The state after the next move, as `Directory.Move` leaves it: a move that succeeds extends
   * the run by one, a move that throws ends the whole run there.
   */
  lemma RunMovesAfterMove(entries: Entries, moves: seq<Rename>, k: nat, source: string, dest: string,
                          before: Entries, after: Entries, o: Outcome)
    requires k < |moves| && moves[k] == Rename(source, dest)
    requires RunMoves(entries, moves[..k]) == Run(before, Pass)
    requires MoveEntry(before, source, dest).Ok? ==> o == Pass && after == MoveEntry(before, source, dest).value
    requires MoveEntry(before, source, dest).Err? ==> o == Fail(MoveEntry(before, source, dest).error) && after == before
    ensures o == Pass ==> RunMoves(entries, moves[..k + 1]) == Run(after, Pass)
    ensures o.Fail? ==> RunMoves(entries, moves) == Run(after, o)
  {
    RunMovesNext(entries, moves, k);
    if o.Fail? {
      RunMovesStops(entries, moves, k + 1);
    }
  }

  /** The names moves leave and the names they arrive at. */
  function Sources(moves: seq<Rename>): set<string> {
    set i | 0 <= i < |moves| :: moves[i].source
  }

  function Dests(moves: seq<Rename>): set<string> {
    set i | 0 <= i < |moves| :: moves[i].dest
  }

  /**
   * Moves that cannot collide: each leaves a different file of the folder and arrives at a
   * different name the folder does not hold.
   */
  predicate Fresh(entries: Entries, moves: seq<Rename>) {
    (forall i :: 0 <= i < |moves| ==> moves[i].source in entries && moves[i].dest !in entries)
    && (forall i, j :: 0 <= i < j < |moves| ==> moves[i].source != moves[j].source && moves[i].dest != moves[j].dest)
  }

  /**
   * The folder after moves that did not collide: every moved file under its new name, the
   * files not moved where they were, and nothing else.
   */
  predicate Placed(entries: Entries, moves: seq<Rename>, result: Entries)
    requires forall i :: 0 <= i < |moves| ==> moves[i].source in entries
  {
    && result.Keys == entries.Keys - Sources(moves) + Dests(moves)
    && (forall i :: 0 <= i < |moves| ==> result[moves[i].dest] == entries[moves[i].source])
    && (forall name :: name in entries && name !in Sources(moves) ==> result[name] == entries[name])
  }

  /** The last of a run of moves that cannot collide is new to the folder and to the moves before it. */
  lemma FreshLast(entries: Entries, init: seq<Rename>, m: Rename)
    requires Fresh(entries, init + [m])
    ensures Fresh(entries, init)
    ensures m.source in entries && m.dest !in entries
    ensures m.source !in Sources(init) && m.dest !in Dests(init)
  {
    var moves := init + [m];
    assert moves[|init|] == m;
    forall i | 0 <= i < |init| ensures init[i] == moves[i] { }
  }

  lemma SourcesDestsSnoc(init: seq<Rename>, m: Rename)
    ensures Sources(init + [m]) == Sources(init) + {m.source}
    ensures Dests(init + [m]) == Dests(init) + {m.dest}
  {
    var moves := init + [m];
    assert moves[|init|] == m;
    forall i | 0 <= i < |init| ensures moves[i] == init[i] { }
  }

  /** One more move that collides with neither the folder nor the earlier moves succeeds. */
  lemma PlacedStep(entries: Entries, init: seq<Rename>, m: Rename, before: Entries)
    requires forall i :: 0 <= i < |init| ==> init[i].source in entries && init[i].dest !in entries
    requires m.source in entries && m.dest !in entries
    requires m.source !in Sources(init) && m.dest !in Dests(init)
    requires Placed(entries, init, before)
    ensures MoveEntry(before, m.source, m.dest).Ok?
    ensures Placed(entries, init + [m], MoveEntry(before, m.source, m.dest).value)
  {
    var moves := init + [m];
    var after := MoveEntry(before, m.source, m.dest).value;
    SourcesDestsSnoc(init, m);
    assert after.Keys == entries.Keys - Sources(moves) + Dests(moves);
    PlacedStepMoved(entries, init, m, before);
    assert forall name :: name in entries && name !in Sources(moves) ==> after[name] == entries[name];
  }

  lemma PlacedStepMoved(entries: Entries, init: seq<Rename>, m: Rename, before: Entries)
    requires forall i :: 0 <= i < |init| ==> init[i].source in entries && init[i].dest !in entries
    requires m.source in entries && m.dest !in entries
    requires m.source !in Sources(init) && m.dest !in Dests(init)
    requires Placed(entries, init, before)
    ensures MoveEntry(before, m.source, m.dest).Ok?
    ensures var moves, after := init + [m], MoveEntry(before, m.source, m.dest).value;
            forall i :: 0 <= i < |moves| ==> moves[i].dest in after && after[moves[i].dest] == entries[moves[i].source]
  {
    var moves := init + [m];
    var after := MoveEntry(before, m.source, m.dest).value;
    forall i | 0 <= i < |moves| ensures moves[i].dest in after && after[moves[i].dest] == entries[moves[i].source] {
      if i < |init| {
        assert moves[i] == init[i];
        assert init[i].dest in Dests(init);
      } else {
        assert moves[i] == m;
      }
    }
  }

  /**
   * Moves that cannot collide all succeed, leaving every moved file under its new name, the
   * files not moved where they were, and nothing else in the folder.
   */
  lemma {:induction false} RunFreshMoves(entries: Entries, moves: seq<Rename>)
    requires Fresh(entries, moves)
    ensures RunMoves(entries, moves).outcome == Pass
    ensures Placed(entries, moves, RunMoves(entries, moves).entries)
  {
    if moves != [] {
      var n := |moves| - 1;
      var init, m := moves[..n], moves[n];
      assert moves == init + [m];
      FreshLast(entries, init, m);
      RunFreshMoves(entries, init);
      PlacedStep(entries, init, m, RunMoves(entries, init).entries);
    }
  }

  /** A move whose destination is taken makes the run throw an IO error before anything changes. */
  lemma FirstMoveCollides(entries: Entries, moves: seq<Rename>)
    requires moves != [] && moves[0].source in entries && moves[0].dest in entries
    ensures RunMoves(entries, moves) == Run(entries, Fail(IOError))
  {
    assert moves[..1][..0] == [];
    RunMovesStops(entries, moves, 1);
  }

  /** The files of a folder listing: each lies in the folder under its own name, no name twice. */
  predicate Listed(entries: Entries, listing: seq<FileInfo>) {
    (forall i :: 0 <= i < |listing| ==> listing[i].name in entries && entries[listing[i].name] == listing[i])
    && (forall i, j :: 0 <= i < j < |listing| ==> listing[i].name != listing[j].name)
  }

  lemma {:induction false} NoRepeatCount(s: seq<FileInfo>, x: FileInfo)
    requires forall i, j :: 0 <= i < j < |s| ==> s[i] != s[j]
    ensures multiset(s)[x] <= 1
  {
    if s != [] {
      assert s == [s[0]] + s[1..];
      NoRepeatCount(s[1..], x);
      if x == s[0] {
        assert x !in s[1..];
      }
    }
  }

  lemma RepeatCount(s: seq<FileInfo>, i: int, j: int)
    requires 0 <= i < j < |s| && s[i] == s[j]
    ensures multiset(s)[s[i]] >= 2
  {
    assert s == s[..j] + [s[j]] + s[j + 1..];
    assert s[i] in s[..j];
  }

  /** Sorting a listing keeps each of its files once, so the sorted names are distinct too. */
  lemma SortedListed(entries: Entries, listing: seq<FileInfo>, sc: StringComparer)
    requires Listed(entries, listing)
    ensures Listed(entries, SortByName(listing, sc))
  {
    var sorted := SortByName(listing, sc);
    SortByNamePermutation(listing, sc);
    forall i | 0 <= i < |sorted|
      ensures sorted[i].name in entries && entries[sorted[i].name] == sorted[i]
    {
      assert sorted[i] in multiset(listing);
    }
    forall i, j | 0 <= i < j < |sorted| ensures sorted[i].name != sorted[j].name {
      if sorted[i].name == sorted[j].name {
        assert sorted[i] == sorted[j];
        RepeatCount(sorted, i, j);
        forall a, b | 0 <= a < b < |listing| ensures listing[a] != listing[b] {
        }
        NoRepeatCount(listing, sorted[i]);
      }
    }
  }

  /** Files with proper extensions get pairwise different new names. */
  lemma PlanDestsDistinct(sorted: seq<FileInfo>, customName: string, digitCount: nat)
    requires forall i :: 0 <= i < |sorted| ==> IsExtension(sorted[i].extension)
    ensures var plan := RenamePlan(sorted, customName, digitCount);
            forall i, j :: 0 <= i < j < |plan| ==> plan[i].dest != plan[j].dest
  {
    var plan := RenamePlan(sorted, customName, digitCount);
    forall i, j | 0 <= i < j < |plan| ensures plan[i].dest != plan[j].dest {
      if plan[i].dest == plan[j].dest {
        NewNameInjective(customName, i + 1, j + 1, digitCount, sorted[i].extension, sorted[j].extension);
      }
    }
  }

  /** The moves planned for a listed, sorted folder whose target names are free cannot collide. */
  lemma PlanIsFresh(entries: Entries, sorted: seq<FileInfo>, customName: string, digitCount: nat)
    requires Listed(entries, sorted)
    requires forall i :: 0 <= i < |sorted| ==> IsExtension(sorted[i].extension)
    requires forall i :: 0 <= i < |sorted| ==> NewName(customName, i + 1, digitCount, sorted[i].extension) !in entries
    ensures Fresh(entries, RenamePlan(sorted, customName, digitCount))
  {
    PlanDestsDistinct(sorted, customName, digitCount);
  }

  /**
   * Renaming a listed, sorted folder whose target names are free succeeds: the file at
   * position i is found under its numbered name and the other files keep their names.
   */
  lemma RenameListed(entries: Entries, sorted: seq<FileInfo>, customName: string, digitCount: nat)
    requires Listed(entries, sorted)
    requires forall i :: 0 <= i < |sorted| ==> IsExtension(sorted[i].extension)
    requires forall i :: 0 <= i < |sorted| ==> NewName(customName, i + 1, digitCount, sorted[i].extension) !in entries
    ensures var r := RunMoves(entries, RenamePlan(sorted, customName, digitCount));
            && r.outcome == Pass
            && (forall i :: 0 <= i < |sorted| ==>
                  var n := NewName(customName, i + 1, digitCount, sorted[i].extension);
                  n in r.entries && r.entries[n] == sorted[i])
            && (forall name :: name in entries && (forall i :: 0 <= i < |sorted| ==> sorted[i].name != name) ==>
                  name in r.entries && r.entries[name] == entries[name])
  {
    var plan := RenamePlan(sorted, customName, digitCount);
    PlanIsFresh(entries, sorted, customName, digitCount);
    RunFreshMoves(entries, plan);
    var r := RunMoves(entries, plan);
    forall i | 0 <= i < |sorted|
      ensures var n := NewName(customName, i + 1, digitCount, sorted[i].extension);
              n in r.entries && r.entries[n] == sorted[i]
    {
      assert plan[i].dest in Dests(plan);
    }
    forall name | name in entries && (forall i :: 0 <= i < |sorted| ==> sorted[i].name != name)
      ensures name !in Sources(plan)
    {
    }
  }

  /**
   * After such a renaming the folder holds no other names: each is a numbered name or the
   * unchanged name of a file that was not renamed.
   */
  lemma RenameListedNames(entries: Entries, sorted: seq<FileInfo>, customName: string, digitCount: nat)
    requires Listed(entries, sorted)
    requires forall i :: 0 <= i < |sorted| ==> IsExtension(sorted[i].extension)
    requires forall i :: 0 <= i < |sorted| ==> NewName(customName, i + 1, digitCount, sorted[i].extension) !in entries
    ensures var r := RunMoves(entries, RenamePlan(sorted, customName, digitCount));
            forall n :: n in r.entries ==>
              (exists i :: 0 <= i < |sorted| && n == NewName(customName, i + 1, digitCount, sorted[i].extension))
              || (n in entries && forall i :: 0 <= i < |sorted| ==> sorted[i].name != n)
  {
    var plan := RenamePlan(sorted, customName, digitCount);
    PlanIsFresh(entries, sorted, customName, digitCount);
    RunFreshMoves(entries, plan);
    PlacedNames(entries, sorted, customName, digitCount, RunMoves(entries, plan).entries);
  }

  /** Once the plan is placed, each name in the folder is a numbered name or a name nobody moved. */
  lemma PlacedNames(entries: Entries, sorted: seq<FileInfo>, customName: string, digitCount: nat, result: Entries)
    requires forall i :: 0 <= i < |sorted| ==> sorted[i].name in entries
    requires Placed(entries, RenamePlan(sorted, customName, digitCount), result)
    ensures forall n :: n in result ==>
              (exists i :: 0 <= i < |sorted| && n == NewName(customName, i + 1, digitCount, sorted[i].extension))
              || (n in entries && forall i :: 0 <= i < |sorted| ==> sorted[i].name != n)
  {
    forall n | n in result
      ensures (exists i :: 0 <= i < |sorted| && n == NewName(customName, i + 1, digitCount, sorted[i].extension))
              || (n in entries && forall i :: 0 <= i < |sorted| ==> sorted[i].name != n)
    {
      if n in Dests(RenamePlan(sorted, customName, digitCount)) {
        PlannedDest(sorted, customName, digitCount, n);
      } else {
        UnplannedSource(sorted, customName, digitCount, n);
      }
    }
  }

  /** A destination of the plan is the numbered name of some position. */
  lemma PlannedDest(sorted: seq<FileInfo>, customName: string, digitCount: nat, n: string)
    requires n in Dests(RenamePlan(sorted, customName, digitCount))
    ensures exists i :: 0 <= i < |sorted| && n == NewName(customName, i + 1, digitCount, sorted[i].extension)
  {
    var plan := RenamePlan(sorted, customName, digitCount);
    var i :| 0 <= i < |plan| && plan[i].dest == n;
  }

  /** A name the plan does not move away from is the name of no listed file. */
  lemma UnplannedSource(sorted: seq<FileInfo>, customName: string, digitCount: nat, n: string)
    requires n !in Sources(RenamePlan(sorted, customName, digitCount))
    ensures forall i :: 0 <= i < |sorted| ==> sorted[i].name != n
  {
    var plan := RenamePlan(sorted, customName, digitCount);
    forall i | 0 <= i < |sorted| ensures sorted[i].name != n {
      assert plan[i].source in Sources(plan);
    }
  }

  /**
   * Renaming a listed folder whose target names are all free succeeds: the file at sorted
   * position i is found under its numbered name, the files not listed keep their names, and
   * the folder holds the same number of files.
   */
  lemma RenameSucceeds(entries: Entries, listing: seq<FileInfo>, sc: StringComparer, customName: string, digitCount: nat)
    requires Listed(entries, listing)
    requires forall f :: f in listing ==> IsExtension(f.extension)
    requires forall i, f :: 1 <= i <= |listing| && f in listing ==> NewName(customName, i, digitCount, f.extension) !in entries
    ensures var sorted := SortByName(listing, sc);
            var r := RunMoves(entries, RenamePlan(sorted, customName, digitCount));
            && r.outcome == Pass
            && (forall i :: 0 <= i < |sorted| ==>
                  var n := NewName(customName, i + 1, digitCount, sorted[i].extension);
                  n in r.entries && r.entries[n] == sorted[i])
            && (forall name :: name in entries && (forall f :: f in listing ==> f.name != name) ==>
                  name in r.entries && r.entries[name] == entries[name])
            && |r.entries| == |entries|
  {
    var sorted := SortByName(listing, sc);
    SortedListed(entries, listing, sc);
    SortedFromListing(listing, sc);
    forall i | 0 <= i < |sorted|
      ensures IsExtension(sorted[i].extension)
      ensures NewName(customName, i + 1, digitCount, sorted[i].extension) !in entries
    {
      assert sorted[i] in listing;
    }
    RenameListed(entries, sorted, customName, digitCount);
  }

  /** Every file of the sorted listing comes from the listing. */
  lemma SortedFromListing(listing: seq<FileInfo>, sc: StringComparer)
    ensures |SortByName(listing, sc)| == |listing|
    ensures forall i :: 0 <= i < |SortByName(listing, sc)| ==> SortByName(listing, sc)[i] in listing
  {
    var sorted := SortByName(listing, sc);
    SortByNamePermutation(listing, sc);
    forall i | 0 <= i < |sorted| ensures sorted[i] in listing {
      assert sorted[i] in multiset(listing);
    }
  }

  /** The four names the example produces. */
  lemma OutNames()
    ensures NewName("Out_", 1, 3, ".txt") == "Out_001.txt" && NewName("Out_", 2, 3, ".txt") == "Out_002.txt"
    ensures NewName("Out_", 3, 3, ".txt") == "Out_003.txt" && NewName("Out_", 4, 3, ".txt") == "Out_004.txt"
  {
    OutName(1, "001");
    OutName(2, "002");
    OutName(3, "003");
    OutName(4, "004");
  }

  lemma OutName(k: nat, digits: string)
    requires digits == FormatD(k, 3)
    ensures NewName("Out_", k, 3, ".txt") == "Out_" + digits + ".txt"
  {
  }

  /** No name starting with "Out_" is one of the example's original names. */
  lemma OutNamesFree(i: nat, e: string)
    ensures NewName("Out_", i, 3, e) !in {"d.txt", "c.txt", "b.txt", "a.txt"}
  {
    var n := NewName("Out_", i, 3, e);
    NewNameParts("Out_", i, 3, e);
    assert n[0] == n[..4][0] == 'O';
  }

  /** The pattern text of the example reads as the prefix "Out_" and three digits. */
  lemma OutPatternParses()
    ensures RenamePatternParser.Parse(Some("Out_{000}")) == Ok(RenamePattern("Out_", 3))
  {
    var p := RenamePattern("Out_", 3);
    assert Zeros(3) == "000";
    assert Render(p) == "Out_{000}";
    RenamePatternParser.ParseRoundTrip(p);
  }

  /** The example folder lists its four files. */
  lemma ExampleListed(entries: Entries, d: FileInfo, c: FileInfo, b: FileInfo, a: FileInfo)
    requires d.name == "d.txt" && c.name == "c.txt" && b.name == "b.txt" && a.name == "a.txt"
    requires entries == map["d.txt" := d, "c.txt" := c, "b.txt" := b, "a.txt" := a]
    ensures Listed(entries, [a, b, c, d]) && |entries| == 4
  {
    assert entries.Keys == {"d.txt", "c.txt", "b.txt", "a.txt"};
  }

  /** None of the numbered names of the example is taken. */
  lemma ExampleNamesFree(entries: Entries, d: FileInfo, c: FileInfo, b: FileInfo, a: FileInfo)
    requires d.name == "d.txt" && c.name == "c.txt" && b.name == "b.txt" && a.name == "a.txt"
    requires d.extension == c.extension == b.extension == a.extension == ".txt"
    requires entries == map["d.txt" := d, "c.txt" := c, "b.txt" := b, "a.txt" := a]
    ensures forall i :: 0 <= i < 4 ==> IsExtension([a, b, c, d][i].extension)
    ensures forall i :: 0 <= i < 4 ==> NewName("Out_", i + 1, 3, [a, b, c, d][i].extension) !in entries
  {
    var sorted := [a, b, c, d];
    forall i | 0 <= i < 4 ensures sorted[i].extension == ".txt" {
      if i == 0 {} else if i == 1 {} else if i == 2 {} else {}
    }
    forall i | 0 <= i < 4 ensures NewName("Out_", i + 1, 3, sorted[i].extension) !in entries {
      OutNamesFree(i + 1, ".txt");
    }
  }

  /** Renaming the four example files, already in order a, b, c, d, with prefix "Out_" and three digits. */
  lemma RenameSortedExample(entries: Entries, d: FileInfo, c: FileInfo, b: FileInfo, a: FileInfo)
    requires d.name == "d.txt" && c.name == "c.txt" && b.name == "b.txt" && a.name == "a.txt"
    requires d.extension == c.extension == b.extension == a.extension == ".txt"
    requires entries == map["d.txt" := d, "c.txt" := c, "b.txt" := b, "a.txt" := a]
    ensures var r := RunMoves(entries, RenamePlan([a, b, c, d], "Out_", 3));
            && r.outcome == Pass && |r.entries| == 4
            && "Out_001.txt" in r.entries && r.entries["Out_001.txt"] == a
            && "Out_002.txt" in r.entries && r.entries["Out_002.txt"] == b
            && "Out_003.txt" in r.entries && r.entries["Out_003.txt"] == c
            && "Out_004.txt" in r.entries && r.entries["Out_004.txt"] == d
  {
    var sorted := [a, b, c, d];
    ExampleListed(entries, d, c, b, a);
    ExampleNamesFree(entries, d, c, b, a);
    RenameListed(entries, sorted, "Out_", 3);
    var r := RunMoves(entries, RenamePlan(sorted, "Out_", 3));
    OutNames();
    assert "Out_001.txt" in r.entries && r.entries["Out_001.txt"] == a by {
      assert NewName("Out_", 0 + 1, 3, sorted[0].extension) == "Out_001.txt";
    }
    assert "Out_002.txt" in r.entries && r.entries["Out_002.txt"] == b by {
      assert NewName("Out_", 1 + 1, 3, sorted[1].extension) == "Out_002.txt";
    }
    assert "Out_003.txt" in r.entries && r.entries["Out_003.txt"] == c by {
      assert NewName("Out_", 2 + 1, 3, sorted[2].extension) == "Out_003.txt";
    }
    assert "Out_004.txt" in r.entries && r.entries["Out_004.txt"] == d by {
      assert NewName("Out_", 3 + 1, 3, sorted[3].extension) == "Out_004.txt";
    }
  }

  /**
   * The pattern "Out_{000}" applied to four text files d, c, b and a: the pattern reads as
   * "Out_" and three digits, and, sorted ignoring case, a becomes Out_001.txt, b Out_002.txt,
   * c Out_003.txt and d Out_004.txt.
   */
  lemma RenameExample(entries: Entries, d: FileInfo, c: FileInfo, b: FileInfo, a: FileInfo)
    requires d.name == "d.txt" && c.name == "c.txt" && b.name == "b.txt" && a.name == "a.txt"
    requires d.extension == c.extension == b.extension == a.extension == ".txt"
    requires entries == map["d.txt" := d, "c.txt" := c, "b.txt" := b, "a.txt" := a]
    ensures RenamePatternParser.Parse(Some("Out_{000}")).Ok?
    ensures var p := RenamePatternParser.Parse(Some("Out_{000}")).value;
            var sorted := SortByName([d, c, b, a], ByNameIgnoreCase.nameComparer);
            var r := RunMoves(entries, RenamePlan(sorted, p.customName, p.digitCount));
            && r.outcome == Pass && |r.entries| == 4
            && "Out_001.txt" in r.entries && r.entries["Out_001.txt"] == a
            && "Out_002.txt" in r.entries && r.entries["Out_002.txt"] == b
            && "Out_003.txt" in r.entries && r.entries["Out_003.txt"] == c
            && "Out_004.txt" in r.entries && r.entries["Out_004.txt"] == d
  {
    OutPatternParses();
    LowerCaseNamesExample(d, c, b, a);
    RenameSortedExample(entries, d, c, b, a);
  }

  /**
   * `RenameFiles`: a missing folder throws DirectoryNotFound; otherwise the listing is sorted
   * (ignoring case by default) and the files are renamed in that order.
   */
  method RenameFiles(folder: Directory?, customName: string, digitCount: nat, listing: seq<FileInfo>,
                     comparer: Option<FileNameComparer>) returns (o: Outcome)
    modifies folder
    ensures folder == null ==> o == Fail(DirectoryNotFound)
    ensures folder != null ==>
              var sorted := SortByName(listing, comparer.GetOr(ByNameIgnoreCase).nameComparer);
              Run(folder.entries, o) == RunMoves(old(folder.entries), RenamePlan(sorted, customName, digitCount))
  {
    if folder == null {
      return Fail(DirectoryNotFound);
    }
    var sorted := SortByName(listing, comparer.GetOr(ByNameIgnoreCase).nameComparer);
    o := RenameInOrder(folder, customName, digitCount, sorted);
  }

  /** The move the plan makes at position k. */
  lemma PlanAt(sorted: seq<FileInfo>, customName: string, digitCount: nat, k: nat)
    requires k < |sorted|
    ensures RenamePlan(sorted, customName, digitCount)[k]
              == Rename(sorted[k].name, NewName(customName, k + 1, digitCount, sorted[k].extension))
  {
  }

  /**
   * The renaming loop: the files are moved in the given order, numbered from 1. The first move
   * that throws ends the renaming and leaves the earlier moves made.
   */
  method RenameInOrder(folder: Directory, customName: string, digitCount: nat, sorted: seq<FileInfo>) returns (o: Outcome)
    modifies folder
    ensures Run(folder.entries, o) == RunMoves(old(folder.entries), RenamePlan(sorted, customName, digitCount))
  {
    ghost var plan := RenamePlan(sorted, customName, digitCount);
    ghost var start := folder.entries;
    var index := 1;
    while index <= |sorted|
      invariant 1 <= index <= |sorted| + 1
      invariant Run(folder.entries, Pass) == RunMoves(start, plan[..index - 1])
    {
      var file := sorted[index - 1];
      var ext := file.extension;
      var newName := NewName(customName, index, digitCount, ext);
      PlanAt(sorted, customName, digitCount, index - 1);
      ghost var before := folder.entries;
      var moved := folder.Move(file.name, newName);
      RunMovesAfterMove(start, plan, index - 1, file.name, newName, before, folder.entries, moved);
      if moved.Fail? {
        return moved;
      }
      index := index + 1;
    }
    assert plan[..|sorted|] == plan;
    return Pass;
  }

  /**
   * `RenameFilesWithPattern`: the pattern is parsed first, so a malformed or missing pattern
   * throws before the folder is looked at or touched; then the parsed name and width drive
   * `RenameFiles`.
   */
  method RenameFilesWithPattern(folder: Directory?, pattern: Option<string>, listing: seq<FileInfo>,
                                comparer: Option<FileNameComparer>) returns (o: Outcome)
    modifies folder
    ensures RenamePatternParser.Parse(pattern).Err? ==>
              o == Fail(RenamePatternParser.Parse(pattern).error) && (folder != null ==> folder.entries == old(folder.entries))
    ensures RenamePatternParser.Parse(pattern).Ok? && folder == null ==> o == Fail(DirectoryNotFound)
    ensures RenamePatternParser.Parse(pattern).Ok? && folder != null ==>
              var p := RenamePatternParser.Parse(pattern).value;
              var sorted := SortByName(listing, comparer.GetOr(ByNameIgnoreCase).nameComparer);
              Run(folder.entries, o) == RunMoves(old(folder.entries), RenamePlan(sorted, p.customName, p.digitCount))
  {
    var parsed := RenamePatternParser.Parse(pattern);
    if parsed.Err? {
      return Fail(parsed.error);
    }
    o := RenameFiles(folder, parsed.value.customName, parsed.value.digitCount, listing, comparer);
  }
}
