/**
 * The rename-pattern parser of the SmartFileSelector library
 * (src/SmartFileSelector/RenamePatternParser.cs), the one the renamer calls. It has no null
 * check of its own: `Regex.Match` refuses a null input with an ArgumentNullException for its
 * parameter `input`.
 */
module RenamePatternParser {
  import opened Wrappers
  import opened RenamePatternRegex
  import CoreRenamePatternParser

  /** `Regex.Match(input)`: a null input is refused, any other input matched. */
  function RegexMatch(input: Option<string>): (r: Result<Option<RenamePattern>>)
    ensures input.None? <==> r.Err?
    ensures r.Err? ==> r.error == ArgumentNull("input")
    ensures r.Ok? ==> r.value == Match(input.value)
  {
    if input.None? then Err(ArgumentNull("input")) else Ok(Match(input.value))
  }

  function Parse(input: Option<string>): (r: Result<RenamePattern>)
    ensures input.None? ==> r == Err(ArgumentNull("input"))
    ensures input.Some? && r.Err? ==> r.error == Argument(None)
    ensures r.Ok? ==> WellFormed(r.value)
    ensures r.Ok? ==> input.value == Render(r.value) || input.value == Render(r.value) + "\n"
  {
    match RegexMatch(input)
    case Err(e) => Err(e)
    case Ok(m) =>
      if m.None? then Err(Argument(None))
      else Ok(m.value)
  }

  /** The two parsers give the same pattern or the same error on every input, null included. */
  lemma ParsersAgree(input: Option<string>)
    ensures Parse(input) == CoreRenamePatternParser.Parse(input)
  {
  }

  /** The text of every well-formed pattern parses back to that pattern. */
  lemma ParseRoundTrip(p: RenamePattern)
    requires WellFormed(p)
    ensures Parse(Some(Render(p))) == Ok(p)
  {
    CoreRenamePatternParser.ParseRoundTrip(p);
  }
}
