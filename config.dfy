/**
 * The process-wide policy constants and the collaborators the rule engine
 * consumes but does not model: the regex patterns, the date parser and the clock.
 */
module Config {
  import opened Common
  import Patterns

  /** The engine lifecycle rules, passed explicitly rather than read from globals. */
  datatype Policy = Policy(tboHours: nat, midlifeHours: nat, annualUsage: Positive)

  /** `tbo_hours = 8000`, `midlife_hours = 4000`, `annual_usage = 450`. */
  const DefaultPolicy := Policy(8000, 4000, 450)

  /**
   * Opaque collaborators: `today` is `TODAY` as a day number; `ttafPatterns` are the
   * three TTAF patterns of `extract_ttaf_from_ad`; `remainingPatterns` is
   * `LEFT_PATTERNS`; `programPattern` says whether `PROG_PATTERN` is found in a
   * text; `parseDate` is dateutil's parser, a day number or a parse failure.
   */
  datatype Environment = Environment(
    today: int,
    ttafPatterns: seq<Patterns.Matcher>,
    remainingPatterns: seq<Patterns.Matcher>,
    programPattern: string -> bool,
    parseDate: string -> Option<int>)
}
