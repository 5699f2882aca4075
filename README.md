# Renamo: positional file selection and batch renaming, in Dafny

This project models the core of Renamo, a pair of C# libraries for thinning out and renaming the files of a folder:

- **Positional selection rules.** Predicates over the 0-based position of a file in a sorted listing:
  - `FileSelectorRules.EveryNth` and `KeepThenSelete` (SmartFileSelector.Core);
  - `DeletionRules.EveryNth` and `KeepThenDelete` (BatchFileDeleter);
  - the older `FileDeleter.DeleteEveryNth` and `DeleteByTakeSkip`.

  Each factory checks its arguments and reports the offending parameter name. The C# `%` truncates toward zero, and it is modelled as such (`GroupArith.Rem`).
- **Deterministic enumeration.** `FileDeleter.EnumerateFilesForDeletion` / `SelectFilesForDeletion` and `ConditionalFileSelector.EnumerateFilesForDeletion` / `SelectFilesByIndex` work in four steps:
  1. validate the path and the predicate;
  2. require the folder to exist;
  3. sort the listing with a name comparer (ignore-case by default; `OrderBy` is a stable sort);
  4. number the files from 0 and keep those the predicate accepts.

  The deleter's counter loop is a `method` with a loop invariant. The selector's LINQ pipeline (`Select` with index, `Where`, `Select`) is a function proved equal to the same selection.
- **File comparers.** `FileInfoComparer.FileNameComparer` and `FileDeleter.FileInfoNameComparer` order files by name under `StringComparer.Ordinal` or `OrdinalIgnoreCase`. The same reference compares equal to itself, and `null` sorts first.
- **Rename patterns.** Both `RenamePatternParser.Parse` methods apply the regular expression `^(.*)\{(0+)\}$` under the .NET defaults:
  - `.` does not match a line feed;
  - `$` also matches before one final line feed.

  A pattern yields the name prefix and the number of zeros. The Core parser refuses `null` itself; the other one gets the same refusal from `Regex.Match`.
- **Sequential renaming.** `FileRenamer.RenameFiles` walks the sorted listing and moves each file to `customName + index.ToString("D" + digitCount) + extension`, numbering from 1. It is a method over a `Directory` object whose entry map each `Move` updates. The first move that throws ends the run, and the moves already made stay made. `RenameFilesWithPattern` parses first, then renames.

The file system is represented by a folder's entry map (name to `FileInfo`). The folder listing, and whether the folder exists, are inputs.

## Model

| member | source | states |
|---|---|---|
| GroupArith.Rem | src/SmartFileSelector.Core/FileSelectorRules.cs:22 | C#'s remainder for a positive divisor: for a non-negative dividend it is the usual remainder in `[0, b)`; for a negative dividend it lies in `(-b, 0]` |
| GroupArith.SelectedIndices | tests/SmartFileSelector.Tests/TestDeletionRules.cs:14-23 | `Enumerable.Range(0, n).Where(p)`: it has as many elements as `p` selects in `[0, n)`, holds exactly the indices `p` accepts, and is strictly increasing |
| Strings.BlankPaths | src/SmartFileSelector/ConditionalFileSelector.cs:71 | `null`, `""` and white-space-only paths are blank; a path with any other character is not |
| Strings.IsNullOrWhiteSpace | src/SmartFileSelector/ConditionalFileSelector.cs:71 | `string.IsNullOrWhiteSpace`: a null or empty path is blank, and a path holding any non-white-space character is not |
| Strings.CodeUnits | BatchFileDeleter/FileInfoComparer.cs:46 | a character is one UTF-16 code unit below U+10000 and otherwise a high surrogate followed by a low surrogate; a single unit is never a surrogate, and the units decode back to the character |
| Strings.Utf16 | BatchFileDeleter/FileInfoComparer.cs:46 | a string's code units number between its length and twice its length, each in 0..0xFFFF |
| Strings.Utf16Injective | BatchFileDeleter/FileInfoComparer.cs:46 | two strings have the same UTF-16 encoding if and only if they are equal |
| Strings.CompareUnits | BatchFileDeleter/FileInfoComparer.cs:46 | lexicographic order of code units gives -1, 0 or 1, and 0 exactly for equal sequences |
| Strings.CompareUnitsAntisymmetric | BatchFileDeleter/FileInfoComparer.cs:46 | swapping the arguments negates the code-unit comparison |
| Strings.CompareUnitsTransitive | BatchFileDeleter/FileInfoComparer.cs:46 | the code-unit order is transitive |
| Strings.CompareUnitsCommonPrefix | BatchFileDeleter/FileInfoComparer.cs:46 | a shared prefix does not change the code-unit comparison |
| Strings.CompareOrdinal | BatchFileDeleter/FileInfoComparer.cs:46 | `string.CompareOrdinal` compares the UTF-16 code units of the two strings; it has sign -1, 0 or 1, and is 0 exactly for equal strings |
| Strings.FirstCharsDiffer | BatchFileDeleter/FileInfoComparer.cs:46 | the code units of two different characters first differ where their ranks say: units below U+D800, then characters above U+FFFF, then U+E000..U+FFFF |
| Strings.CompareOrdinalByRank | BatchFileDeleter/FileInfoComparer.cs:46 | the code-unit order equals the character-by-character order of ranks, an independent reference definition |
| Strings.SupplementaryBeforeHighBmp | BatchFileDeleter/FileInfoComparer.cs:46 | a string starting above U+FFFF sorts before one starting in U+E000..U+FFFF, although its first code point is larger |
| Strings.SurrogateOrderExample | BatchFileDeleter/FileInfoComparer.cs:13-20 | under both comparers, the U+1F600 name sorts before the U+FF21 name |
| Strings.CompareFirstChar | BatchFileDeleter/FileInfoComparer.cs:46 | when two strings start with different characters below U+D800, the smaller first character decides |
| Strings.StringComparer.Compare | BatchFileDeleter/FileInfoComparer.cs:13-20 | both comparers order the UTF-16 code units of their key (the name itself, or the name upper-cased); they give -1, 0 or 1, and 0 exactly when the two names have the same key |
| Strings.CompareIsTotalPreorder | BatchFileDeleter/FileInfoComparer.cs:46 | every name comparer is reflexive, antisymmetric in sign and transitive, so sorting by it is well defined |
| Strings.OrdinalIsCaseSensitive | BatchFileDeleter/FileInfoComparer.cs:19-20 | ordinal order puts "B.txt" before "a.txt" and tells "FILE.TXT" from "file.txt" |
| Strings.IgnoreCaseFoldsLetters | BatchFileDeleter/FileInfoComparer.cs:13-14 | the ignore-case order puts "a.txt" before "B.txt" and ties "FILE.TXT" with "file.txt" |
| Strings.CaseSensitivity | BatchFileDeleter/FileInfoComparer.cs:13-20 | ordinal order puts "B.txt" before "a.txt" and tells "FILE.TXT" from "file.txt"; the ignore-case order does neither |
| Strings.FormatD | src/SmartFileSelector/FileRenamer.cs:35 | `k.ToString("D" + width)`: all digits; length is the larger of the width and the digit count, so it pads but never truncates; it denotes `k` |
| Strings.FormatDInjective | src/SmartFileSelector/FileRenamer.cs:35 | two different numbers never format to the same text at the same width |
| Strings.FormatDExamples | tests/SmartFileSelector.Tests/FileRenamerTests.cs:44-60 | "01", "03", "001" through "004"; 123 at width 2 is "123" and 7 at width 0 is "7" |
| FileSelectorRules.EveryNth | src/SmartFileSelector.Core/FileSelectorRules.cs:8-25 | the rule is built exactly when interval > 0 and offset >= 0; otherwise ArgumentOutOfRange names `interval` (checked first) or `startOffset` |
| FileSelectorRules.KeepThenSelete | src/SmartFileSelector.Core/FileSelectorRules.cs:28-41 | the rule is built exactly when both counts are positive; otherwise ArgumentOutOfRange names `keepCount` (checked first) or `seleteCount` |
| FileSelectorRules.EveryNthBeforeOffset | src/SmartFileSelector.Core/FileSelectorRules.cs:19-20 | no position before the offset is selected, so an offset past the listing selects nothing |
| FileSelectorRules.EveryNthGroup | src/SmartFileSelector.Core/FileSelectorRules.cs:15-23 | in every group of interval + 1 positions counted from the offset, exactly the last position is selected |
| FileSelectorRules.EveryNthKeepsFirst | tests/SmartFileSelector.Tests/TestDeletionRules.cs:289-297 | without an offset, position 0 is never selected, whatever the interval |
| FileSelectorRules.EveryNthGroupCount | src/SmartFileSelector.Core/FileSelectorRules.cs:15-23 | every whole group of interval + 1 positions after the offset holds exactly one selected position |
| FileSelectorRules.EveryNthCount | tests/SmartFileSelector.Tests/TestDeletionRules.cs:400-417 | m whole groups after the offset hold exactly m selected positions, which is one in interval + 1 |
| FileSelectorRules.KeepThenSeleteGroup | src/SmartFileSelector.Core/FileSelectorRules.cs:35-40 | in every group of keep + selete positions, position j is selected exactly when j >= keepCount |
| FileSelectorRules.KeepThenSeleteNegative | src/SmartFileSelector.Core/FileSelectorRules.cs:38 | because C#'s remainder of a negative index is not positive, no negative index is ever selected |
| FileSelectorRules.KeepThenSeleteWholeGroups | tests/SmartFileSelector.Tests/TestDeletionRules.cs:419-434 | m whole groups hold exactly m * seleteCount selected positions |
| FileSelectorRules.KeepThenSeleteCount | tests/SmartFileSelector.Tests/TestDeletionRules.cs:113-121 | m whole groups followed by r more positions hold m * seleteCount selected positions, plus those of the last, incomplete group that lie past keepCount |
| FileSelectorRules.KeepThenSeletePartialGroup | src/SmartFileSelector.Core/FileSelectorRules.cs:35-40 | the first r positions of a group hold max(r - keepCount, 0) selected positions |
| FileSelectorRules.EveryNthIsKeepThenSelete | tests/SmartFileSelector.Tests/TestDeletionRules.cs:187-213 | `EveryNth(n)` and `KeepThenSelete(n, 1)` both build and select the same positions, for every index |
| FileSelectorRules.EveryNthExample | tests/SmartFileSelector.Tests/TestDeletionRules.cs:8 | interval 2 over ten positions selects 2, 5, 8 |
| FileSelectorRules.EveryNthOneExample | tests/SmartFileSelector.Tests/TestDeletionRules.cs:7 | interval 1 over ten positions selects 1, 3, 5, 7, 9 |
| FileSelectorRules.EveryNthOffsetExample | tests/SmartFileSelector.Tests/TestDeletionRules.cs:26 | interval 2 from offset 1 over ten positions selects 3, 6, 9 |
| FileSelectorRules.EveryNthLongIntervalExample | tests/SmartFileSelector.Tests/TestDeletionRules.cs:13 | interval 100 over ten positions selects nothing |
| FileSelectorRules.KeepThenSeleteExample | tests/SmartFileSelector.Tests/TestDeletionRules.cs:87 | keep 2, select 1 over ten positions selects 2, 5, 8 |
| FileSelectorRules.KeepThenSeleteTwoTwoExample | tests/SmartFileSelector.Tests/TestDeletionRules.cs:89 | keep 2, select 2 over ten positions selects 2, 3, 6, 7 |
| FileSelectorRules.KeepThenSeleteIncompleteGroupExample | tests/SmartFileSelector.Tests/TestDeletionRules.cs:113-121 | keep 3, select 2 over seven positions selects only 3, 4 |
| FileSelectorRules.KeepOneSeleteOneExample | tests/SmartFileSelector.Tests/TestDeletionRules.cs:86 | keep 1, select 1 over ten positions selects 1, 3, 5, 7, 9 |
| DeletionRules.EveryNth | BatchFileDeleter/DeletionRules.cs:20-37 | the rule is built exactly when interval > 0 and offset >= 0; otherwise ArgumentOutOfRange names `interval` (checked first) or `startOffset` |
| DeletionRules.KeepThenDelete | BatchFileDeleter/DeletionRules.cs:51-64 | the rule is built exactly when both counts are positive; otherwise ArgumentOutOfRange names `keepCount` (checked first) or `deleteCount` |
| DeletionRules.EveryNthAgrees | BatchFileDeleter/DeletionRules.cs:20-37 | the deleter's `EveryNth` accepts the same arguments as the selector's and deletes the same positions |
| DeletionRules.KeepThenDeleteAgrees | BatchFileDeleter/DeletionRules.cs:51-64 | `KeepThenDelete` accepts the same arguments as `KeepThenSelete` and deletes the same positions |
| DeletionRules.EveryNthBeforeOffset | BatchFileDeleter/DeletionRules.cs:31-32 | no position before the offset is deleted |
| DeletionRules.EveryNthBlock | BatchFileDeleter/DeletionRules.cs:9-10 | every block of interval + 1 positions from the offset holds exactly one deleted position, and it is the block's last |
| DeletionRules.KeepThenDeleteGroup | BatchFileDeleter/DeletionRules.cs:46-50 | in every group the first keepCount positions are kept and the remaining deleteCount are deleted |
| DeletionRules.EveryNthExample | tests/SmartFileSelector.Tests/ConditionalFileSelectorTests.cs:90-102 | interval 2 over six files deletes the 3rd and 6th (c, f) |
| DeletionRules.EveryNthLongIntervalExample | tests/SmartFileSelector.Tests/ConditionalFileSelectorTests.cs:105-117 | interval 100 over three files deletes nothing |
| DeletionRules.KeepThenDeleteExample | tests/SmartFileSelector.Tests/ConditionalFileSelectorTests.cs:121-133 | keep 2, delete 1 over five files deletes only the 3rd |
| DeletionRules.KeepOneDeleteOneExample | tests/SmartFileSelector.Tests/ConditionalFileSelectorTests.cs:136-148 | keep 1, delete 1 over four files deletes the 2nd and 4th |
| FileSystem.MoveEntry | src/SmartFileSelector/FileRenamer.cs:38 | `File.Move` in one folder: a missing source is FileNotFound and an existing destination is an IO error; otherwise the file leaves its old name for the new one and every other file stays where it was |
| FileSystem.MoveKeepsCount | src/SmartFileSelector/FileRenamer.cs:38 | a successful move neither creates nor loses a file |
| FileSystem.Directory.Move | src/SmartFileSelector/FileRenamer.cs:38 | the folder's new entries are those `MoveEntry` gives; on failure it reports the error and leaves the folder unchanged |
| OrderBy.SortByName | src/SmartFileSelector/ConditionalFileSelector.cs:30-32 | `OrderBy` by name (insertion of each file after every file that does not sort after it) returns as many files as it is given; its order, stability and permutation are the three lemmas below |
| OrderBy.SortByNamePermutation | src/SmartFileSelector/ConditionalFileSelector.cs:30-32 | sorting the listing neither loses nor duplicates a file (same multiset, same length) |
| OrderBy.SortByNameSorted | src/SmartFileSelector/ConditionalFileSelector.cs:30-32 | the sorted listing is ordered by name under the comparer |
| OrderBy.SortByNameStable | src/SmartFileSelector/ConditionalFileSelector.cs:30-32 | `OrderBy` is stable: files whose names compare equal keep their listing order |
| IndexedSelection.Selected | BatchFileDeleter/FileDeleter.cs:32-38 | the counter walk returns no more files than the listing holds, and only files of the listing; `SelectedIsPick` states exactly which |
| IndexedSelection.SelectedIsPick | BatchFileDeleter/FileDeleter.cs:32-38 | the counter walk returns the files at exactly the positions the predicate accepts, in increasing position order: an order-preserving subsequence in which each position is tested once |
| IndexedSelection.SelectedAll | TestRenamo/FileDeleterTests.cs:76-87 | a predicate that accepts every position returns the whole sorted listing |
| IndexedSelection.SelectedNone | TestRenamo/FileDeleterTests.cs:152-164 | a predicate that accepts nothing, or an empty listing, returns nothing |
| IndexedSelection.SelectedByPosition | BatchFileDeleter/FileDeleter.cs:53-59 | a predicate that ignores the file returns the files at the positions the positional rule selects in `[0, count)` |
| FileInfoComparer.FileNameComparer.Compare | BatchFileDeleter/FileInfoComparer.cs:41-47 | the same reference (or two nulls) compare 0; null sorts before any file; two files compare 0 exactly when their names have the same key |
| FileInfoComparer.CreateNameComparer | BatchFileDeleter/FileInfoComparer.cs:27-39 | a comparer is built exactly when a string comparer is given, and it uses that one; otherwise ArgumentNull names `nameComparer` |
| FileInfoComparer.CompareIsNameOrder | BatchFileDeleter/FileInfoComparer.cs:46 | on two present files the comparer is the string comparer applied to their names |
| FileInfoComparer.CompareDependsOnNamesOnly | BatchFileDeleter/FileInfoComparer.cs:46 | files with the same names compare alike, whichever objects they are |
| FileInfoComparer.ByNameIsCaseSensitive | BatchFileDeleter/FileInfoComparer.cs:19-20 | `ByName` puts "B.txt" before "a.txt" |
| FileInfoComparer.IgnoreCaseNamesExample | BatchFileDeleter/FileInfoComparer.cs:13-14 | ignoring case, a.txt < B.txt < c.txt < D.txt |
| FileInfoComparer.SortDescendingFour | src/SmartFileSelector/ConditionalFileSelector.cs:30-32 | four files listed in strictly descending name order sort into the reverse order |
| FileInfoComparer.LowerCaseNamesExample | tests/SmartFileSelector.Tests/FileRenamerTests.cs:44-60 | sorting d.txt, c.txt, b.txt, a.txt with `ByNameIgnoreCase` gives a, b, c, d |
| FileInfoComparer.ByNameIgnoreCaseExample | tests/SmartFileSelector.Tests/ConditionalFileSelectorTests.cs:75-86 | sorting D.txt, c.txt, B.txt, a.txt with `ByNameIgnoreCase` gives a, B, c, D |
| FileDeleter.FileInfoNameComparer.Compare | BatchFileDeleter/FileDeleter.cs:73-79 | the same reference compares 0; null sorts first; two files compare 0 exactly when their names have the same key |
| FileDeleter.CompareAgrees | BatchFileDeleter/FileDeleter.cs:73-79 | the deleter's own comparer orders every pair of files exactly as `FileInfoComparer`'s name comparer with the same string comparer |
| FileDeleter.CompareIsNameOrder | BatchFileDeleter/FileDeleter.cs:78 | on two present files the comparer is the string comparer applied to their names |
| FileDeleter.SortOrder | BatchFileDeleter/FileDeleter.cs:30 | `comparer ?? FileInfoNameComparer.OrdinalIgnoreCase`: without a comparer the name order ignores case, and with one it is that comparer's |
| FileDeleter.EnumerateFilesForDeletion | BatchFileDeleter/FileDeleter.cs:12-39 | errors are checked in the source's order: a blank path is ArgumentNull(`folderPath`), then a missing predicate is ArgumentNull(`shouldDelete`), then a missing folder is DirectoryNotFound; otherwise it returns the files, sorted by the comparer (ignore-case by default) and numbered from 0, that the predicate accepts |
| FileDeleter.SelectFilesForDeletion | BatchFileDeleter/FileDeleter.cs:44-60 | a missing rule is refused before anything else; otherwise the enumerator's errors apply, and success returns the sorted files at the positions the rule selects |
| FileDeleter.DeterministicOrderExample | TestRenamo/FileDeleterTests.cs:76-87 | with the default order and an accept-all predicate, the D, c, B, a folder is listed as a, B, c, D |
| FileDeleter.DeleteEveryNth | BatchFileDeleter/FileDeleter.cs:86-91 | the rule is built exactly when n > 0 and offset >= 0; otherwise ArgumentOutOfRange names `n` (checked first) or `offset` |
| FileDeleter.DeleteEveryNthBlock | BatchFileDeleter/FileDeleter.cs:90 | counting blocks of n from the offset, exactly the first position of every block but the first is deleted; nothing below offset + n is |
| FileDeleter.DeleteEveryNthIsShiftedEveryNth | BatchFileDeleter/FileDeleter.cs:90 | for n >= 2 the old rule equals `DeletionRules.EveryNth(n - 1)` with the offset moved one position later |
| FileDeleter.DeleteEveryNthExample | TestRenamo/FileDeleterTests.cs:91-103 | n = 2 over six files deletes positions 2 and 4 (c, e), not 0 |
| FileDeleter.DeleteEveryNthLongExample | TestRenamo/FileDeleterTests.cs:106-118 | n = 100 over three files deletes nothing |
| FileDeleter.DeleteByTakeSkip | BatchFileDeleter/FileDeleter.cs:97-110 | the rule is built exactly when take > 0 and skip >= 0; otherwise ArgumentOutOfRange names `take` (checked first) or `skip` |
| FileDeleter.DeleteByTakeSkipGroup | BatchFileDeleter/FileDeleter.cs:105-109 | in every group of take + skip positions, position j is deleted exactly when j >= take |
| FileDeleter.DeleteByTakeSkipZeroSkip | BatchFileDeleter/FileDeleter.cs:100-108 | skip = 0 is accepted and then deletes nothing |
| FileDeleter.DeleteByTakeSkipAgrees | BatchFileDeleter/FileDeleter.cs:97-110 | with skip > 0, `DeleteByTakeSkip(take, skip)` deletes the same positions as `DeletionRules.KeepThenDelete(take, skip)` |
| FileDeleter.DeleteByTakeSkipExample | TestRenamo/FileDeleterTests.cs:122-134 | take 2, skip 1 over five files deletes only position 2 |
| FileDeleter.DeleteByTakeSkipAlternateExample | TestRenamo/FileDeleterTests.cs:137-149 | take 1, skip 1 over four files deletes positions 1 and 3 |
| ConditionalFileSelector.ValidateInputs | src/SmartFileSelector/ConditionalFileSelector.cs:69-75 | a blank path is an ArgumentException naming `folderPath`; next, a missing predicate is ArgumentNull(`shouldDelete`); it passes exactly when neither applies |
| ConditionalFileSelector.WithIndex | src/SmartFileSelector/ConditionalFileSelector.cs:35 | `Select((file, index) => …)` pairs every file with its position and keeps the length |
| ConditionalFileSelector.Where | src/SmartFileSelector/ConditionalFileSelector.cs:36 | `Where` returns no more elements than it is given, each one of them and each accepted by the condition |
| ConditionalFileSelector.Files | src/SmartFileSelector/ConditionalFileSelector.cs:37 | `Select(item => item.File)` keeps one file per item |
| ConditionalFileSelector.PipelineIsSelected | src/SmartFileSelector/ConditionalFileSelector.cs:34-37 | the `Select`-with-index / `Where` / `Select` pipeline keeps exactly the files the counter walk keeps |
| ConditionalFileSelector.EnumerateFilesForDeletion | src/SmartFileSelector/ConditionalFileSelector.cs:17-38 | validation errors come first, then DirectoryNotFound; it succeeds exactly otherwise, returning the accepted files of the listing sorted by the comparer (ignore-case by default) and numbered from 0 |
| ConditionalFileSelector.SelectFilesByIndex | src/SmartFileSelector/ConditionalFileSelector.cs:49-64 | a missing rule is refused first; otherwise the enumerator's errors apply, and success returns the sorted files at the positions the rule selects |
| ConditionalFileSelector.AlwaysTrueSelectsAll | tests/SmartFileSelector.Tests/ConditionalFileSelectorTests.cs:75-86 | an accept-all predicate returns the whole listing in sorted order |
| ConditionalFileSelector.NothingSelected | tests/SmartFileSelector.Tests/ConditionalFileSelectorTests.cs:151-163 | an always-false predicate, or an empty folder, returns nothing |
| ConditionalFileSelector.DeterministicOrderExample | tests/SmartFileSelector.Tests/ConditionalFileSelectorTests.cs:75-86 | the D, c, B, a folder with an accept-all predicate is listed as a, B, c, D |
| RenamePatternRegex.Render | src/SmartFileSelector.Core/RenamePatternParser.cs:7 | the text of a pattern is the prefix, '{', the zeros and '}': its length is the prefix's plus the zero count plus two, with '{' right after the prefix and '}' last |
| RenamePatternRegex.WellFormed | src/SmartFileSelector.Core/RenamePatternParser.cs:7 | a pattern the regular expression can capture (`0+` and a `.*` prefix) has a '0' right after the brace and no line feed anywhere in its text |
| RenamePatternRegex.MatchLine | src/SmartFileSelector.Core/RenamePatternParser.cs:7 | on a text without the final line feed, a match gives a well-formed pattern whose text is exactly the input |
| RenamePatternRegex.Match | src/SmartFileSelector.Core/RenamePatternParser.cs:7 | a match gives a prefix with no line feed and at least one zero, and the input is exactly that pattern's text, optionally followed by one line feed |
| RenamePatternRegex.RoundTrip | src/SmartFileSelector.Core/RenamePatternParser.cs:7 | the text of every well-formed pattern matches back to that pattern, with or without one final line feed |
| RenamePatternRegex.FinalLineFeed | src/SmartFileSelector.Core/RenamePatternParser.cs:7 | `$` ignores one final line feed after a text that does not already end in one |
| RenamePatternRegex.RejectedExamples | tests/SmartFileSelector.Tests/RenamePatternParser.Tests.cs:32-47 | missing braces, a non-zero or blank inside the braces, empty braces, the empty string, "{01}" and "BadPattern" do not match |
| RenamePatternRegex.AcceptedExample | tests/SmartFileSelector.Tests/RenamePatternParser.Tests.cs:8 | "MyFile_{00}" gives prefix "MyFile_" (trailing underscore kept) and 2 digits |
| RenamePatternRegex.AcceptedSpaceExample | tests/SmartFileSelector.Tests/RenamePatternParser.Tests.cs:10 | "Data Set_{00}" gives prefix "Data Set_" and 2 digits |
| RenamePatternRegex.AcceptedThreeDigitsExample | tests/SmartFileSelector.Tests/RenamePatternParser.Tests.cs:12 | "A_X_{000}" gives prefix "A_X_" and 3 digits |
| CoreRenamePatternParser.Parse | src/SmartFileSelector.Core/RenamePatternParser.cs:53-64 | null is ArgumentNull(`input`); any other failure is an ArgumentException without a parameter name; success gives a well-formed pattern whose text is the input (less one final line feed) |
| CoreRenamePatternParser.ParseRoundTrip | src/SmartFileSelector.Core/RenamePatternParser.cs:61-62 | the text of every well-formed pattern parses back to that prefix and digit count |
| CoreRenamePatternParser.ParseAcceptsExactlyPatterns | src/SmartFileSelector.Core/RenamePatternParser.cs:57-59 | an input is accepted if and only if it is the text of a well-formed pattern, optionally followed by one line feed |
| CoreRenamePatternParser.ParseExamples | src/SmartFileSelector.Core/RenamePatternParser.cs:30-38 | null gives ArgumentNull; empty, "MyFile_00", "{0a}", blank inside braces, "{}", no braces and "{01}" give ArgumentException |
| CoreRenamePatternParser.ParseValidExamples | tests/SmartFileSelector.Tests/RenamePatternParser.Tests.cs:7-22 | "MyFile_{00}", "Data Set_{00}" and "A_X_{000}" parse to their prefix and zero count |
| RenamePatternParser.RegexMatch | src/SmartFileSelector/RenamePatternParser.cs:11 | `Regex.Match` refuses exactly a null input, with ArgumentNull(`input`), and otherwise reports the match |
| RenamePatternParser.Parse | src/SmartFileSelector/RenamePatternParser.cs:9-19 | null is ArgumentNull(`input`); no match is an ArgumentException; success gives a well-formed pattern whose text is the input (less one final line feed) |
| RenamePatternParser.ParsersAgree | src/SmartFileSelector/RenamePatternParser.cs:9-19 | the two parsers return the same pattern or the same error on every input, null included |
| RenamePatternParser.ParseRoundTrip | src/SmartFileSelector/RenamePatternParser.cs:15-16 | the text of every well-formed pattern parses back to that pattern |
| FileRenamer.NewName | src/SmartFileSelector/FileRenamer.cs:35 | the new name is at least as long as the custom name, the width and the extension together; `NewNameParts` reads it back |
| FileRenamer.NewNameParts | src/SmartFileSelector/FileRenamer.cs:35 | a new name reads back as custom name, then at least digitCount digits denoting the 1-based index, then the extension |
| FileRenamer.NewNameInjective | src/SmartFileSelector/FileRenamer.cs:34-35 | with the same custom name and width, two new names are equal only for the same index and extension |
| FileRenamer.NewNameExamples | tests/SmartFileSelector.Tests/FileRenamerTests.cs:25-41 | "RenamFiles_01.jpg", "RenamFiles_03.GIF", "Data_004.dat", and "X_123" when the index outgrows the width |
| FileRenamer.RenamePlan | src/SmartFileSelector/FileRenamer.cs:31-39 | one move per sorted file, in order: the file at position i leaves its name for the name numbered i + 1 with its own extension |
| FileRenamer.RunMoves | src/SmartFileSelector/FileRenamer.cs:32-40 | the moves made one after the other, stopping at the first that throws: however the run ends, the folder holds as many files as before |
| FileRenamer.RunMovesStops | src/SmartFileSelector/FileRenamer.cs:32-40 | once a move has thrown, no later move is made and earlier moves stay made |
| FileRenamer.RunFreshMoves | src/SmartFileSelector/FileRenamer.cs:32-40 | moves with distinct sources in the folder and distinct destinations outside it all succeed; each moved file is under its new name, the others are untouched, and nothing else is present |
| FileRenamer.FirstMoveCollides | src/SmartFileSelector/FileRenamer.cs:38 | if the first target name is taken, the run throws an IO error with the folder unchanged |
| FileRenamer.SortedListed | src/SmartFileSelector/FileRenamer.cs:27-29 | sorting a listing of a folder yields a listing of the same folder, each name still once |
| FileRenamer.PlanDestsDistinct | src/SmartFileSelector/FileRenamer.cs:34-35 | files with proper extensions are given pairwise different new names |
| FileRenamer.PlanIsFresh | src/SmartFileSelector/FileRenamer.cs:31-39 | for a listed folder whose target names are free, the planned moves cannot collide |
| FileRenamer.RenameListed | src/SmartFileSelector/FileRenamer.cs:31-40 | renaming a listed, sorted folder whose target names are free succeeds; the file at position i is found under its numbered name, and unlisted files keep theirs |
| FileRenamer.PlacedNames | src/SmartFileSelector/FileRenamer.cs:31-40 | once every planned move is made, each name in the folder is a numbered name or the name of a file no move touched |
| FileRenamer.PlannedDest | src/SmartFileSelector/FileRenamer.cs:35 | every destination of the plan is the numbered name of some position |
| FileRenamer.UnplannedSource | src/SmartFileSelector/FileRenamer.cs:38 | a name the plan never moves away from belongs to no listed file |
| FileRenamer.RenameListedNames | src/SmartFileSelector/FileRenamer.cs:31-40 | afterwards every name in the folder is a numbered name or the unchanged name of an unlisted file |
| FileRenamer.RenameSucceeds | src/SmartFileSelector/FileRenamer.cs:27-40 | for any listing of a folder and any comparer, when no numbered name (1 to the file count, with the extension of a listed file) is taken, the renaming succeeds: sorted file i is found as number i + 1, unlisted files keep their names, and the file count is unchanged |
| FileRenamer.OutPatternParses | tests/SmartFileSelector.Tests/FileRenamerTests.cs:44-60 | "Out_{000}" parses to prefix "Out_" and three digits |
| FileRenamer.ExampleListed | tests/SmartFileSelector.Tests/FileRenamerTests.cs:44-60 | the example's folder of d, c, b, a (.txt) holds exactly those four files |
| FileRenamer.ExampleNamesFree | tests/SmartFileSelector.Tests/FileRenamerTests.cs:44-60 | none of Out_001.txt to Out_004.txt is taken in that folder |
| FileRenamer.RenameSortedExample | tests/SmartFileSelector.Tests/FileRenamerTests.cs:44-60 | renaming a, b, c, d in that order with "Out_" and three digits succeeds and puts them under Out_001.txt to Out_004.txt, four files in all |
| FileRenamer.RenameExample | tests/SmartFileSelector.Tests/FileRenamerTests.cs:44-60 | `RenameFilesWithPattern(dir, "Out_{000}")` on d, c, b, a (.txt): the pattern parses, and renaming the ignore-case sorted listing makes a Out_001.txt, b Out_002.txt, c Out_003.txt and d Out_004.txt, four files in all |
| FileRenamer.RenameFiles | src/SmartFileSelector/FileRenamer.cs:15-41 | a missing folder is DirectoryNotFound; otherwise the folder's new state and the outcome are exactly those of running the rename plan of the sorted listing move by move, stopping at the first move that throws |
| FileRenamer.PlanAt | src/SmartFileSelector/FileRenamer.cs:34-38 | the plan's move at position k takes sorted file k to the name numbered k + 1 |
| FileRenamer.RenameInOrder | src/SmartFileSelector/FileRenamer.cs:31-40 | the `foreach` loop over the sorted files: the folder's new state and the outcome are those of the rename plan run move by move, stopping at the first move that throws |
| FileRenamer.RenameFilesWithPattern | src/SmartFileSelector/FileRenamer.cs:43-52 | a pattern that fails to parse throws that error with the folder untouched; otherwise the parsed prefix and digit count drive `RenameFiles` |

## Left out

- Directory listing (`GetFiles` with its search pattern and `SearchOption`), `Directory.Exists` and `Path.GetExtension` are not modelled; the enumerators take the listing, already filtered, and a folder-exists flag as inputs, the renamer a nullable `Directory` and the listing, and each `FileInfo` carries its extension as a field.
- `Path.Combine`: new names are treated as plain names inside the folder; a custom name containing directory separators, which would move files elsewhere, is not modelled.
- FileDeleter.EnumerateFilesForDeletion: the C# method is a lazy iterator whose argument checks run when enumeration starts, and `OrderBy`/`Where` in the selector are lazy too; the model returns errors and results at the call.
- FileDeleter.EnumerateFilesForDeletion: a caller-supplied `IComparer<FileInfo>` is restricted to the name comparers of the two libraries; an arbitrary comparer is not modelled. The same holds for ConditionalFileSelector.EnumerateFilesForDeletion and FileRenamer.RenameFiles.
- FileDeleter.FileInfoNameComparer.Compare: the constructor's argument is taken as present; the null `StringComparer` the C# constructor accepts, which fails later with a NullReferenceException, is not modelled.
- Strings.CodeUnits: a `char` here is a Unicode scalar value, so a .NET string holding an unpaired surrogate code unit cannot be written down; file names with one are not modelled. Well-formed names are compared by their UTF-16 code units, as .NET does.
- Strings.ToUpper: the ignore-case comparer folds only ASCII letters; .NET's `OrdinalIgnoreCase` also folds other letters.
- FileRenamer.RenameFiles: `digitCount` is a natural number, so the FormatException a negative width raises in `ToString("D-1")` is not modelled; `customName` is a string, so the null custom name (formatted as empty) is not either.
- FileRenamer.RenameFiles: the index is unbounded; the 32-bit overflow after 2^31 - 1 files is not modelled, and neither is a culture in `ToString`.
- FileSystem.MoveEntry: names are compared exactly, as on a case-sensitive file system, and moving a file onto its own name is an IO error; the behaviour of case-insensitive file systems and of other I/O failures (permissions, locked files) is not modelled.
- GroupArith.Rem: all arithmetic is on unbounded integers; 32-bit overflow in `interval + 1`, `keepCount + seleteCount`, `offset + n` and `index - startOffset` for values near `int.MaxValue` is not modelled.
- FileSelectorRules.EveryNthCount: the tests' floating-point deletion ratios are stated as exact counts over whole groups (as is FileSelectorRules.KeepThenSeleteWholeGroups).
- The WPF front end (`MainWindow`, `SmartFileSelectorController`) is not part of this model.
- The `FileInfoComparer` class of the SmartFileSelector library, which the selector and the renamer use by default, is not part of this model; it is taken to behave as the BatchFileDeleter `FileInfoComparer` modelled here (name order, ignore-case by default).

## Notes

- The doc comment of `FileDeleter.DeleteEveryNth` (BatchFileDeleter/FileDeleter.cs:82-85) gives the example "n=2, offset=0 deletes 0, 2, 4, 6". The code requires `i >= offset + n`, so position 0 is never deleted, and the test at TestRenamo/FileDeleterTests.cs:91-103 expects c and e (positions 2 and 4). The model follows the code (`FileDeleter.DeleteEveryNthBlock`, `FileDeleter.DeleteEveryNthExample`).
- The test names "DeletesOnlyIndex0" (TestRenamo/FileDeleterTests.cs:106) and "DeletesIndex2" (for a result of two files) disagree with what those tests assert. The model follows the assertions.
- A blank folder path is reported differently by the two enumerators: BatchFileDeleter throws ArgumentNullException, while SmartFileSelector throws ArgumentException. Both are modelled as written.
- `DeleteByTakeSkip`'s check that take + skip is not zero (BatchFileDeleter/FileDeleter.cs:103) can never fire after the two checks before it; the model keeps the check.
