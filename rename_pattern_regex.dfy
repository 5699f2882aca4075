/**
 * The regular expression `^(.*)\{(0+)\}$` both rename-pattern parsers apply, under .NET's
 * default options: `.` matches any character but a line feed, and `$` matches at the end of
 * the input or just before a line feed that ends it.
 */
module RenamePatternRegex {
  import opened Wrappers
  import opened Strings

  /** The two captured groups: the name prefix and the number of zeros. */
  datatype RenamePattern = RenamePattern(customName: string, digitCount: nat)

  /** The text a pattern is written as: prefix, '{', the zeros, '}'. */
  function Render(p: RenamePattern): (s: string)
    ensures |s| == |p.customName| + p.digitCount + 2
    ensures s[|p.customName|] == '{' && s[|s| - 1] == '}'
  {
    p.customName + "{" + Zeros(p.digitCount) + "}"
  }

  /** A pattern the regular expression can produce: at least one zero and no line feed in the prefix. */
  predicate WellFormed(p: RenamePattern): (b: bool)
    ensures b ==> Render(p)[|p.customName| + 1] == '0'
    ensures b ==> forall i :: 0 <= i < |Render(p)| ==> Render(p)[i] != '\n'
  {
    p.digitCount >= 1 && '\n' !in p.customName
  }

  /** The length of the run of '0' characters that ends `s`. */
  function TrailingZeros(s: string): (k: nat)
    ensures k <= |s|
    ensures forall i :: |s| - k <= i < |s| ==> s[i] == '0'
    ensures k < |s| ==> s[|s| - k - 1] != '0'
  {
    if s == [] || s[|s| - 1] != '0' then 0 else TrailingZeros(s[..|s| - 1]) + 1
  }

  /**
   * `Regex.Match(s)`: the captured groups if the whole input, less one final line feed (which
   * `$` allows), is the text of a pattern.
   */
  function Match(s: string): (m: Option<RenamePattern>)
    ensures m.Some? ==> WellFormed(m.value)
    ensures m.Some? ==> s == Render(m.value) || s == Render(m.value) + "\n"
  {
    if |s| > 0 && s[|s| - 1] == '\n' then
      assert s == s[..|s| - 1] + "\n";
      MatchLine(s[..|s| - 1])
    else MatchLine(s)
  }

  /**
   * The match on one line: a prefix without line feeds, '{', one or more '0' and '}'. The
   * greedy prefix and the brace before the zeros make the zeros the whole trailing run.
   */
  function MatchLine(body: string): (m: Option<RenamePattern>)
    ensures m.Some? ==> WellFormed(m.value) && body == Render(m.value)
  {
    if |body| == 0 || body[|body| - 1] != '}' then None
    else
      var inner := body[..|body| - 1];
      var k := TrailingZeros(inner);
      if k == 0 || k == |inner| || inner[|inner| - k - 1] != '{' then None
      else
        var prefix := inner[..|inner| - k - 1];
        if '\n' in prefix then None
        else
          assert inner[|inner| - k..] == Zeros(k);
          assert inner == prefix + "{" + Zeros(k);
          assert body == inner + "}";
          Some(RenamePattern(prefix, k))
  }

  lemma {:induction false} TrailingZerosAfter(a: string, k: nat)
    requires a != [] && a[|a| - 1] != '0'
    ensures TrailingZeros(a + Zeros(k)) == k
  {
    if k > 0 {
      var s := a + Zeros(k);
      assert s[..|s| - 1] == a + Zeros(k - 1);
      TrailingZerosAfter(a, k - 1);
    } else {
      assert a + Zeros(0) == a;
    }
  }

  /** Every well-formed pattern is matched back from its text, with or without a final line feed. */
  lemma RoundTrip(p: RenamePattern)
    requires WellFormed(p)
    ensures Match(Render(p)) == Some(p)
    ensures Match(Render(p) + "\n") == Some(p)
  {
    MatchRender(p);
    FinalLineFeed(Render(p));
  }

  lemma MatchRender(p: RenamePattern)
    requires WellFormed(p)
    ensures Match(Render(p)) == Some(p)
  {
    var head := p.customName + "{";
    var inner := head + Zeros(p.digitCount);
    var s := Render(p);
    assert s == inner + "}";
    assert s[|s| - 1] == '}' && s[..|s| - 1] == inner;
    TrailingZerosAfter(head, p.digitCount);
    assert inner[|inner| - p.digitCount - 1] == '{';
    assert inner[..|inner| - p.digitCount - 1] == p.customName;
  }

  /** One line feed after a text that does not end in one is ignored. */
  lemma FinalLineFeed(t: string)
    requires t != [] && t[|t| - 1] != '\n'
    ensures Match(t + "\n") == Match(t)
  {
    assert (t + "\n")[..|t|] == t;
  }

  /** Inputs that are not the text of a pattern are rejected. */
  lemma RejectedExamples()
    ensures Match("MyFile_00").None?
    ensures Match("MyFile_{0a}").None?
    ensures Match("MyFile_{ 00 }").None?
    ensures Match("MyFile_{}").None?
    ensures Match("MyFile_").None?
    ensures Match("").None?
    ensures Match("{01}").None?
    ensures Match("BadPattern").None?
  {
    assert TrailingZeros("MyFile_{") == 0;
    assert TrailingZeros("{01") == 0;
  }

  /** The prefix is kept exactly, trailing underscore included. */
  lemma AcceptedExample()
    ensures Match("MyFile_{00}") == Some(RenamePattern("MyFile_", 2))
  {
    var p := RenamePattern("MyFile_", 2);
    assert Zeros(2) == "00";
    assert Render(p) == "MyFile_{00}";
    RoundTrip(p);
  }

  /** Spaces in the prefix are kept. */
  lemma AcceptedSpaceExample()
    ensures Match("Data Set_{00}") == Some(RenamePattern("Data Set_", 2))
  {
    var p := RenamePattern("Data Set_", 2);
    assert Zeros(2) == "00";
    assert Render(p) == "Data Set_{00}";
    RoundTrip(p);
  }

  /** Three zeros give three digits; underscores inside the prefix are kept too. */
  lemma AcceptedThreeDigitsExample()
    ensures Match("A_X_{000}") == Some(RenamePattern("A_X_", 3))
  {
    var p := RenamePattern("A_X_", 3);
    assert Zeros(3) == "000";
    assert Render(p) == "A_X_{000}";
    RoundTrip(p);
  }
}
