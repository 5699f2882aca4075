/**
 * The rename-pattern parser of the SmartFileSelector.Core library
 * (src/SmartFileSelector.Core/RenamePatternParser.cs): a null input is refused explicitly,
 * then the input must be a name prefix followed by `{`, one or more `0` and `}`.
 */
module CoreRenamePatternParser {
  import opened Wrappers
  import opened RenamePatternRegex

  /**
   * The name prefix and the number of digits a pattern asks for. A null input is an
   * ArgumentNullException for `input`, an input that does not match an ArgumentException
   * without a parameter name.
   */
  function Parse(input: Option<string>): (r: Result<RenamePattern>)
    ensures input.None? ==> r == Err(ArgumentNull("input"))
    ensures input.Some? && r.Err? ==> r.error == Argument(None)
    ensures r.Ok? ==> WellFormed(r.value)
    ensures r.Ok? ==> input.value == Render(r.value) || input.value == Render(r.value) + "\n"
  {
    match input
    case None => Err(ArgumentNull("input"))
    case Some(s) =>
      match Match(s)
      case None => Err(Argument(None))
      case Some(p) => Ok(p)
  }

  /** The text of every well-formed pattern parses back to that pattern. */
  lemma ParseRoundTrip(p: RenamePattern)
    requires WellFormed(p)
    ensures Parse(Some(Render(p))) == Ok(p)
  {
    RoundTrip(p);
  }

  /**
   * Exactly the texts of well-formed patterns are accepted (the regular expression's `$`
   * also lets one final line feed through).
   */
  lemma ParseAcceptsExactlyPatterns(s: string)
    ensures Parse(Some(s)).Ok? <==>
            exists p :: WellFormed(p) && (s == Render(p) || s == Render(p) + "\n")
  {
    if p :| WellFormed(p) && (s == Render(p) || s == Render(p) + "\n") {
      RoundTrip(p);
    }
  }

  /** Null, empty and malformed inputs are refused. */
  lemma ParseExamples()
    ensures Parse(None) == Err(ArgumentNull("input"))
    ensures Parse(Some("")) == Err(Argument(None))
    ensures Parse(Some("MyFile_00")) == Err(Argument(None))
    ensures Parse(Some("MyFile_{0a}")) == Err(Argument(None))
    ensures Parse(Some("MyFile_{ 00 }")) == Err(Argument(None))
    ensures Parse(Some("MyFile_{}")) == Err(Argument(None))
    ensures Parse(Some("MyFile_")) == Err(Argument(None))
    ensures Parse(Some("{01}")) == Err(Argument(None))
  {
    RejectedExamples();
  }

  /** The valid patterns: the prefix is kept whole and the zeros are counted. */
  lemma ParseValidExamples()
    ensures Parse(Some("MyFile_{00}")) == Ok(RenamePattern("MyFile_", 2))
    ensures Parse(Some("Data Set_{00}")) == Ok(RenamePattern("Data Set_", 2))
    ensures Parse(Some("A_X_{000}")) == Ok(RenamePattern("A_X_", 3))
  {
    AcceptedExample();
    AcceptedSpaceExample();
    AcceptedThreeDigitsExample();
  }
}
