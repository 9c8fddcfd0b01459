/**
 * The regex fallbacks: an ordered list of patterns tried one after the other
 * on the ad text, the first that matches giving the value.
 */
module Patterns {
  import opened Common

  /** One pattern with its parser: `int(re.search(p, text, re.I).group(1))` when
      the pattern matches, `None` when it does not. The captured group is `\d+`,
      so a hit is a natural number. */
  type Matcher = string -> Option<nat>

  /** The first pattern of `patterns` (in list order) that matches `text` decides. */
  function ExtractNumber(text: string, patterns: seq<Matcher>): (r: Option<nat>)
    ensures r.None? <==> forall i :: 0 <= i < |patterns| ==> patterns[i](text).None?
    ensures r.Some? ==>
      exists i :: 0 <= i < |patterns| && patterns[i](text) == r &&
        forall j :: 0 <= j < i ==> patterns[j](text).None?
  {
    if patterns == [] then None
    else if patterns[0](text).Some? then patterns[0](text)
    else
      var rest := ExtractNumber(text, patterns[1..]);
      assert forall i :: 1 <= i < |patterns| ==> patterns[i] == patterns[1..][i - 1];
      rest
  }

  /** Conversely, a pattern that matches while every earlier one misses is the
      one whose value is returned: later patterns are never consulted. */
  lemma ExtractNumberFirstHit(text: string, patterns: seq<Matcher>, i: nat)
    requires i < |patterns| && patterns[i](text).Some?
    requires forall j :: 0 <= j < i ==> patterns[j](text).None?
    ensures ExtractNumber(text, patterns) == patterns[i](text)
  {
  }

  /** Patterns appended after a pattern that already matches change nothing. */
  lemma {:induction false} ExtractNumberPrefix(text: string, patterns: seq<Matcher>, more: seq<Matcher>)
    requires ExtractNumber(text, patterns).Some?
    ensures ExtractNumber(text, patterns + more) == ExtractNumber(text, patterns)
  {
    var i :| 0 <= i < |patterns| && patterns[i](text) == ExtractNumber(text, patterns) &&
      forall j :: 0 <= j < i ==> patterns[j](text).None?;
    ExtractNumberFirstHit(text, patterns + more, i);
  }
}
