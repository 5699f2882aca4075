/**
 * The pieces of the .NET base library the core relies on for text:
 * `string.IsNullOrWhiteSpace`, `StringComparer.Ordinal` / `StringComparer.OrdinalIgnoreCase`
 * and `int.ToString("D<width>")`.
 */
module Strings {
  import opened Wrappers

  /** `char.IsWhiteSpace`: the Unicode separators (Zs, Zl, Zp) and the controls U+0009..U+000D, U+0085. */
  predicate IsWhiteSpace(c: char) {
    c == ' ' || ('\t' <= c <= '\r') || c == '\U{0085}' || c == '\U{00A0}' || c == '\U{1680}'
    || ('\U{2000}' <= c <= '\U{200A}') || c == '\U{2028}' || c == '\U{2029}' || c == '\U{202F}'
    || c == '\U{205F}' || c == '\U{3000}'
  }

  /** `string.IsNullOrWhiteSpace`: null, empty, or made only of white space. */
  predicate IsNullOrWhiteSpace(s: Option<string>): (b: bool)
    ensures s.None? || s == Some("") ==> b
    ensures s.Some? && (exists i :: 0 <= i < |s.value| && !IsWhiteSpace(s.value[i])) ==> !b
  {
    match s
    case None => true
    case Some(t) => forall i :: 0 <= i < |t| ==> IsWhiteSpace(t[i])
  }

  lemma BlankPaths()
    ensures IsNullOrWhiteSpace(None) && IsNullOrWhiteSpace(Some(""))
    ensures IsNullOrWhiteSpace(Some(" \t\r\n"))
    ensures !IsNullOrWhiteSpace(Some(" C:\\logs "))
  {
    var s := " C:\\logs ";
    assert !IsWhiteSpace(s[1]);
  }

  /** A UTF-16 code unit that is half of a surrogate pair; no `char` is one. */
  predicate IsSurrogate(u: int) {
    0xD800 <= u < 0xE000
  }

  /** The code point a single code unit or a surrogate pair stands for. */
  function DecodeUnits(u: seq<int>): int
    requires |u| == 1 || |u| == 2
  {
    if |u| == 1 then u[0] else 0x10000 + (u[0] - 0xD800) * 0x400 + (u[1] - 0xDC00)
  }

  /**
   * The UTF-16 encoding of one character, as .NET stores it in a `string`: one code unit
   * below U+10000, otherwise a high surrogate followed by a low surrogate.
   */
  function CodeUnits(c: char): (u: seq<int>)
    ensures |u| == (if c as int < 0x10000 then 1 else 2)
    ensures |u| == 1 ==> !IsSurrogate(u[0])
    ensures |u| == 2 ==> 0xD800 <= u[0] < 0xDC00 && 0xDC00 <= u[1] < 0xE000
    ensures forall i :: 0 <= i < |u| ==> 0 <= u[i] < 0x10000
    ensures DecodeUnits(u) == c as int
  {
    var v := c as int;
    if v < 0x10000 then [v] else [0xD800 + (v - 0x10000) / 0x400, 0xDC00 + (v - 0x10000) % 0x400]
  }

  /** The code units of a string: those of its characters, in order. */
  function Utf16(s: string): (u: seq<int>)
    ensures |s| <= |u| <= 2 * |s|
    ensures forall i :: 0 <= i < |u| ==> 0 <= u[i] < 0x10000
  {
    if s == [] then [] else CodeUnits(s[0]) + Utf16(s[1..])
  }

  /** Different strings have different encodings: the first code unit tells how long a character's encoding is. */
  lemma {:induction false} Utf16Injective(a: string, b: string)
    ensures Utf16(a) == Utf16(b) <==> a == b
    decreases |a|
  {
    if Utf16(a) == Utf16(b) && a != [] && b != [] {
      var u := Utf16(a);
      var ua, ub := CodeUnits(a[0]), CodeUnits(b[0]);
      assert u == ua + Utf16(a[1..]) && u == ub + Utf16(b[1..]);
      assert |ua| == |ub| by {
        assert u[0] == ua[0] && u[0] == ub[0];
      }
      assert ua == u[..|ua|] == ub;
      assert a[0] as int == DecodeUnits(ua) == DecodeUnits(ub) == b[0] as int;
      assert Utf16(a[1..]) == u[|ua|..] == Utf16(b[1..]);
      Utf16Injective(a[1..], b[1..]);
      assert a == [a[0]] + a[1..] && b == [b[0]] + b[1..];
    }
  }

  /** Lexicographic comparison of code-unit sequences (sign only); a proper prefix comes first. */
  function CompareUnits(a: seq<int>, b: seq<int>): (r: int)
    ensures -1 <= r <= 1
    ensures r == 0 <==> a == b
    decreases |a|
  {
    if a == [] then (if b == [] then 0 else -1)
    else if b == [] then 1
    else if a[0] < b[0] then -1
    else if a[0] > b[0] then 1
    else
      var r := CompareUnits(a[1..], b[1..]);
      assert a == [a[0]] + a[1..] && b == [b[0]] + b[1..];
      r
  }

  lemma {:induction false} CompareUnitsAntisymmetric(a: seq<int>, b: seq<int>)
    ensures CompareUnits(a, b) == -CompareUnits(b, a)
    decreases |a|
  {
    if a != [] && b != [] && a[0] == b[0] {
      CompareUnitsAntisymmetric(a[1..], b[1..]);
    }
  }

  lemma {:induction false} CompareUnitsTransitive(a: seq<int>, b: seq<int>, c: seq<int>)
    requires CompareUnits(a, b) <= 0 && CompareUnits(b, c) <= 0
    ensures CompareUnits(a, c) <= 0
    decreases |a|
  {
    if a != [] && b != [] && c != [] && a[0] == b[0] == c[0] {
      CompareUnitsTransitive(a[1..], b[1..], c[1..]);
    }
  }

  /** A common prefix does not change the comparison. */
  lemma {:induction false} CompareUnitsCommonPrefix(p: seq<int>, x: seq<int>, y: seq<int>)
    ensures CompareUnits(p + x, p + y) == CompareUnits(x, y)
    decreases |p|
  {
    if p == [] {
      assert p + x == x && p + y == y;
    } else {
      assert (p + x)[0] == (p + y)[0] == p[0];
      assert (p + x)[1..] == p[1..] + x && (p + y)[1..] == p[1..] + y;
      CompareUnitsCommonPrefix(p[1..], x, y);
    }
  }

  /**
   * `string.CompareOrdinal` (sign only): lexicographic order of the UTF-16 code units,
   * a string before every longer string it begins.
   */
  function CompareOrdinal(a: string, b: string): (r: int)
    ensures -1 <= r <= 1
    ensures r == 0 <==> a == b
  {
    Utf16Injective(a, b);
    CompareUnits(Utf16(a), Utf16(b))
  }

  /**
   * Where a character falls in code-unit order: the characters below U+D800 first, then those
   * above U+FFFF (whose high surrogates lie in U+D800..U+DBFF), then U+E000..U+FFFF.
   */
  function Rank(c: char): int {
    var v := c as int;
    if v < 0xD800 then v else if v >= 0x10000 then 0xD800 + (v - 0x10000) else v + 0x100000
  }

  /** Character-by-character comparison of ranks (sign only): a reference for `CompareOrdinal`. */
  function CompareRanks(a: string, b: string): int
    decreases |a|
  {
    if a == [] then (if b == [] then 0 else -1)
    else if b == [] then 1
    else if Rank(a[0]) < Rank(b[0]) then -1
    else if Rank(a[0]) > Rank(b[0]) then 1
    else CompareRanks(a[1..], b[1..])
  }

  /** Two different characters compare by their first differing code unit, which agrees with their ranks. */
  lemma FirstCharsDiffer(c: char, d: char, x: seq<int>, y: seq<int>)
    requires c != d
    ensures CompareUnits(CodeUnits(c) + x, CodeUnits(d) + y) == if Rank(c) < Rank(d) then -1 else 1
  {
    var cu, du := CodeUnits(c), CodeUnits(d);
    var u, w := cu + x, du + y;
    assert u[0] == cu[0] && w[0] == du[0];
    if cu[0] == du[0] {
      assert |cu| == 2 && |du| == 2;
      assert u[1..] == [cu[1]] + x && w[1..] == [du[1]] + y;
      assert cu[1] != du[1];
    }
  }

  /** The ordinal order is the character-by-character order of ranks. */
  lemma {:induction false} CompareOrdinalByRank(a: string, b: string)
    ensures CompareOrdinal(a, b) == CompareRanks(a, b)
    decreases |a|
  {
    if a != [] && b != [] {
      assert Utf16(a) == CodeUnits(a[0]) + Utf16(a[1..]);
      assert Utf16(b) == CodeUnits(b[0]) + Utf16(b[1..]);
      if a[0] == b[0] {
        CompareUnitsCommonPrefix(CodeUnits(a[0]), Utf16(a[1..]), Utf16(b[1..]));
        CompareOrdinalByRank(a[1..], b[1..]);
      } else {
        FirstCharsDiffer(a[0], b[0], Utf16(a[1..]), Utf16(b[1..]));
      }
    }
  }

  /**
   * Where the code-unit order departs from the order of code points: a string that starts
   * with a character above U+FFFF sorts before one that starts in U+E000..U+FFFF.
   */
  lemma SupplementaryBeforeHighBmp(a: string, b: string)
    requires a != [] && b != [] && a[0] as int >= 0x10000 && 0xE000 <= b[0] as int < 0x10000
    ensures a[0] > b[0] && CompareOrdinal(a, b) == -1 && CompareOrdinal(b, a) == 1
  {
    CompareOrdinalByRank(a, b);
    CompareOrdinalByRank(b, a);
  }

  /** The smiley U+1F600 sorts before the fullwidth letter U+FF21 under both comparers, though its code point is larger. */
  lemma SurrogateOrderExample()
    ensures Ordinal.Compare("\U{1F600}.txt", "\U{FF21}.txt") == -1
    ensures OrdinalIgnoreCase.Compare("\U{1F600}.txt", "\U{FF21}.txt") == -1
  {
    SupplementaryBeforeHighBmp("\U{1F600}.txt", "\U{FF21}.txt");
    var a, b := Upper("\U{1F600}.txt"), Upper("\U{FF21}.txt");
    assert a[0] == '\U{1F600}' && b[0] == '\U{FF21}';
    SupplementaryBeforeHighBmp(a, b);
  }

  /** Below U+D800, the first differing character decides. */
  lemma CompareFirstChar(a: string, b: string)
    requires a != [] && b != [] && a[0] != b[0] && a[0] as int < 0xD800 && b[0] as int < 0xD800
    ensures CompareOrdinal(a, b) == if a[0] < b[0] then -1 else 1
  {
    CompareOrdinalByRank(a, b);
  }

  /** The simple upper-case fold applied by the ignore-case comparer (ASCII letters only). */
  function ToUpper(c: char): char {
    if 'a' <= c <= 'z' then (c as int - 32) as char else c
  }

  function Upper(s: string): string {
    seq(|s|, i requires 0 <= i < |s| => ToUpper(s[i]))
  }

  /** The two string comparers the system names. */
  datatype StringComparer = Ordinal | OrdinalIgnoreCase {

    /** The string a comparer actually orders by. */
    function Key(s: string): string {
      match this
      case Ordinal => s
      case OrdinalIgnoreCase => Upper(s)
    }

    /** `StringComparer.Compare` (sign only). */
    function Compare(a: string, b: string): (r: int)
      ensures -1 <= r <= 1
      ensures r == 0 <==> Key(a) == Key(b)
    {
      CompareOrdinal(Key(a), Key(b))
    }
  }

  /** Every comparer is a total preorder: reflexive, antisymmetric in sign, transitive. */
  lemma CompareIsTotalPreorder(sc: StringComparer, a: string, b: string, c: string)
    ensures sc.Compare(a, a) == 0
    ensures sc.Compare(a, b) == -sc.Compare(b, a)
    ensures sc.Compare(a, b) <= 0 && sc.Compare(b, c) <= 0 ==> sc.Compare(a, c) <= 0
  {
    CompareUnitsAntisymmetric(Utf16(sc.Key(a)), Utf16(sc.Key(b)));
    if sc.Compare(a, b) <= 0 && sc.Compare(b, c) <= 0 {
      CompareUnitsTransitive(Utf16(sc.Key(a)), Utf16(sc.Key(b)), Utf16(sc.Key(c)));
    }
  }

  /** Ordinal order is case-sensitive: "B" before "a", and "FILE.TXT" differs from "file.txt". */
  lemma OrdinalIsCaseSensitive()
    ensures Ordinal.Compare("B.txt", "a.txt") < 0
    ensures Ordinal.Compare("FILE.TXT", "file.txt") != 0
  {
    CompareFirstChar("B.txt", "a.txt");
    assert "FILE.TXT"[0] != "file.txt"[0];
  }

  /** The ignore-case order folds ASCII letters: "a" before "B", and "FILE.TXT" ties with "file.txt". */
  lemma IgnoreCaseFoldsLetters()
    ensures OrdinalIgnoreCase.Compare("a.txt", "B.txt") < 0
    ensures OrdinalIgnoreCase.Compare("FILE.TXT", "file.txt") == 0
  {
    assert Upper("a.txt")[0] == 'A' && Upper("B.txt")[0] == 'B';
    CompareFirstChar(Upper("a.txt"), Upper("B.txt"));
    assert Upper("FILE.TXT") == Upper("file.txt");
  }

  /** Ordinal order is case-sensitive ("B" before "a"); the ignore-case order is not. */
  lemma CaseSensitivity()
    ensures Ordinal.Compare("B.txt", "a.txt") < 0
    ensures OrdinalIgnoreCase.Compare("a.txt", "B.txt") < 0
    ensures OrdinalIgnoreCase.Compare("FILE.TXT", "file.txt") == 0
    ensures Ordinal.Compare("FILE.TXT", "file.txt") != 0
  {
    OrdinalIsCaseSensitive();
    IgnoreCaseFoldsLetters();
  }

  predicate IsDigit(c: char) {
    '0' <= c <= '9'
  }

  predicate AllDigits(s: string) {
    forall i :: 0 <= i < |s| ==> IsDigit(s[i])
  }

  function DigitChar(d: int): char
    requires 0 <= d <= 9
  {
    ('0' as int + d) as char
  }

  /** `k.ToString()` for a non-negative number: its decimal digits, most significant first. */
  function Digits(k: nat): (s: string)
    ensures |s| >= 1 && AllDigits(s)
    decreases k
  {
    if k < 10 then [DigitChar(k)] else Digits(k / 10) + [DigitChar(k % 10)]
  }

  /** The number a string of decimal digits denotes. */
  function DecimalValue(s: string): nat
    requires AllDigits(s)
  {
    if s == [] then 0 else DecimalValue(s[..|s| - 1]) * 10 + (s[|s| - 1] as int - '0' as int)
  }

  function Zeros(n: nat): (s: string)
    ensures |s| == n && AllDigits(s)
  {
    seq(n, _ => '0')
  }

  lemma {:induction false} DigitsValue(k: nat)
    ensures DecimalValue(Digits(k)) == k
    decreases k
  {
    if k >= 10 {
      DigitsValue(k / 10);
      var s := Digits(k);
      assert s[..|s| - 1] == Digits(k / 10);
    }
  }

  lemma {:induction false} LeadingZerosValue(n: nat, s: string)
    requires AllDigits(s)
    ensures DecimalValue(Zeros(n) + s) == DecimalValue(s)
    decreases |s|
  {
    var t := Zeros(n) + s;
    if s == [] {
      assert t == Zeros(n);
      ZerosValue(n);
    } else {
      assert t[..|t| - 1] == Zeros(n) + s[..|s| - 1];
      LeadingZerosValue(n, s[..|s| - 1]);
    }
  }

  lemma {:induction false} ZerosValue(n: nat)
    ensures DecimalValue(Zeros(n)) == 0
  {
    if n > 0 {
      assert Zeros(n)[..n - 1] == Zeros(n - 1);
      ZerosValue(n - 1);
    }
  }

  /**
   * `k.ToString("D" + width)`: the decimal digits of k, left-padded with '0' to at least
   * `width` characters and never truncated.
   */
  function FormatD(k: nat, width: nat): (s: string)
    ensures |s| == if width > |Digits(k)| then width else |Digits(k)|
    ensures AllDigits(s) && DecimalValue(s) == k
  {
    var d := Digits(k);
    var pad: nat := if width > |d| then width - |d| else 0;
    LeadingZerosValue(pad, d);
    DigitsValue(k);
    Zeros(pad) + d
  }

  /** Distinct numbers never format to the same text, whatever the width. */
  lemma FormatDInjective(k1: nat, k2: nat, width: nat)
    requires FormatD(k1, width) == FormatD(k2, width)
    ensures k1 == k2
  {
  }

  lemma FormatDExamples()
    ensures FormatD(1, 2) == "01" && FormatD(3, 2) == "03"
    ensures FormatD(1, 3) == "001" && FormatD(2, 3) == "002"
    ensures FormatD(3, 3) == "003" && FormatD(4, 3) == "004"
    ensures FormatD(123, 2) == "123"
    ensures FormatD(7, 0) == "7"
  {
    assert Digits(123) == Digits(12) + [DigitChar(3)];
    assert Digits(12) == Digits(1) + [DigitChar(2)];
  }
}
