/**
 * The overhaul due date and the operating life derived from it. Dates are day
 * numbers; a date plus a `timedelta` of fractional days keeps the floor of the
 * day count, which integer division by a positive divisor gives.
 */
module DueDates {
  import opened Common
  import opened Config

  /** The calendar-overhaul policy: 20 years after the last overhaul, 365 days a year. */
  const OverhaulCalendarYears := 20
  const DaysPerYear := 365
  /** The year length used to turn the days left into years. */
  const AverageYearLength: real := 365.25

  /** Days until TBO at the annual usage rate, from `used` hours:
      `timedelta(days=(tbo_hours - used) / annual_usage * 365)`, whole days. */
  function UsageDays(policy: Policy, used: int): (days: int)
    ensures days * policy.annualUsage <= (policy.tboHours - used) * DaysPerYear
    ensures (policy.tboHours - used) * DaysPerYear < (days + 1) * policy.annualUsage
  {
    (policy.tboHours - used) * DaysPerYear / policy.annualUsage
  }

  /**
   * The candidate due dates, in the source's order: the calendar limit after the
   * last overhaul, then today plus the usage days left, counted from TSML when it is
   * known and from TSN otherwise (subtracted from the TBO interval in both cases).
   */
  function DueCandidates(policy: Policy, today: int, lastOverhaul: Option<int>,
                         tsml: Option<int>, tsn: Option<int>): (cands: seq<int>)
    ensures lastOverhaul.Some? ==> lastOverhaul.value + OverhaulCalendarYears * DaysPerYear in cands
    ensures tsml.Some? ==> today + UsageDays(policy, tsml.value) in cands
    ensures tsml.None? && tsn.Some? ==> today + UsageDays(policy, tsn.value) in cands
    ensures forall c :: c in cands ==>
      (lastOverhaul.Some? && c == lastOverhaul.value + OverhaulCalendarYears * DaysPerYear) ||
      (tsml.Some? && c == today + UsageDays(policy, tsml.value)) ||
      (tsml.None? && tsn.Some? && c == today + UsageDays(policy, tsn.value))
    ensures |cands| == (if lastOverhaul.Some? then 1 else 0) + (if tsml.Some? || tsn.Some? then 1 else 0)
  {
    var calendar := if lastOverhaul.Some? then [lastOverhaul.value + OverhaulCalendarYears * DaysPerYear] else [];
    var usage := if tsml.Some? || tsn.Some? then
                   var used := if tsml.Some? then tsml.value else tsn.value;
                   [today + UsageDays(policy, used)]
                 else [];
    calendar + usage
  }

  /** Python's `min` over a non-empty list. */
  function MinOf(s: seq<int>): (m: int)
    requires |s| > 0
    ensures m in s
    ensures forall x :: x in s ==> m <= x
  {
    if |s| == 1 then s[0]
    else
      var rest := MinOf(s[1..]);
      assert forall x :: x in s ==> x == s[0] || x in s[1..];
      if s[0] <= rest then s[0] else rest
  }

  /** The earliest candidate: whichever overhaul trigger fires first governs.
      There is none only when neither the last overhaul date, TSML nor TSN is known. */
  function ResolveDueDate(policy: Policy, today: int, lastOverhaul: Option<int>,
                          tsml: Option<int>, tsn: Option<int>): (due: Option<int>)
    ensures due.None? <==> lastOverhaul.None? && tsml.None? && tsn.None?
    ensures due.Some? ==>
      var cands := DueCandidates(policy, today, lastOverhaul, tsml, tsn);
      due.value in cands && forall c :: c in cands ==> due.value <= c
  {
    var cands := DueCandidates(policy, today, lastOverhaul, tsml, tsn);
    if cands == [] then None else Some(MinOf(cands))
  }

  /** With both triggers known, the due date is the nearer of the calendar limit
      and the usage limit. */
  lemma EarliestTriggerGoverns(policy: Policy, today: int, lastOverhaul: int, tsml: Option<int>, tsn: Option<int>)
    requires tsml.Some? || tsn.Some?
    ensures var calendar := lastOverhaul + OverhaulCalendarYears * DaysPerYear;
      var usage := today + UsageDays(policy, if tsml.Some? then tsml.value else tsn.value);
      ResolveDueDate(policy, today, Some(lastOverhaul), tsml, tsn) ==
        Some(if calendar <= usage then calendar else usage)
  {
  }

  /** A known TSML makes TSN irrelevant to the due date. */
  lemma MidLifeShadowsNew(policy: Policy, today: int, lastOverhaul: Option<int>, m: int, tsn1: Option<int>, tsn2: Option<int>)
    ensures ResolveDueDate(policy, today, lastOverhaul, Some(m), tsn1) ==
            ResolveDueDate(policy, today, lastOverhaul, Some(m), tsn2)
  {
  }

  /** Years left and the average-hours figure of one engine. */
  datatype OperatingLife = OperatingLife(yearsLeft: Option<ExtReal>, avgHoursLeft: Option<ExtReal>)

  function AsReal(e: ExtInt): ExtReal {
    match e
    case Infinite => InfiniteReal
    case Finite(x) => FiniteReal(x as real)
  }

  function Scale(e: ExtReal, k: real): ExtReal {
    match e
    case InfiniteReal => InfiniteReal
    case FiniteReal(x) => FiniteReal(x * k)
  }

  /** Hours spread over years at `annualUsage` hours a year. */
  function PerYear(hours: ExtInt, annualUsage: Positive): (years: ExtReal)
    ensures Scale(years, annualUsage as real) == AsReal(hours)
  {
    match hours
    case Infinite => InfiniteReal
    case Finite(h) =>
      var a := annualUsage as real;
      var y := h as real / a;
      assert y * a == h as real;
      assert Scale(FiniteReal(y), a) == FiniteReal(y * a);
      FiniteReal(y)
  }

  /**
   * When a due date was given, years left is the remaining figure over the annual
   * usage and the average-hours figure is the remaining figure itself. Otherwise
   * both are recomputed from the resolved due date (years as days over 365.25, hours
   * as years times the annual usage), and both are unset when there is no candidate.
   * A recomputed years-left of exactly zero leaves the hours figure unset, because
   * the source tests the number's truth value rather than its presence.
   */
  function ProjectOperatingLife(policy: Policy, today: int, dueGiven: bool,
                                resolvedDue: Option<int>, remaining: ExtInt): (o: OperatingLife)
    ensures o.avgHoursLeft.Some? ==>
      o.yearsLeft.Some? && o.avgHoursLeft.value == Scale(o.yearsLeft.value, policy.annualUsage as real)
    ensures dueGiven ==> o.yearsLeft.Some? && o.avgHoursLeft == Some(AsReal(remaining))
    ensures !dueGiven ==> (o.yearsLeft.Some? <==> resolvedDue.Some?)
    ensures !dueGiven && resolvedDue.Some? ==>
      o.yearsLeft == Some(FiniteReal((resolvedDue.value - today) as real / AverageYearLength))
    ensures o.yearsLeft.Some? && o.avgHoursLeft.None? ==> !dueGiven && resolvedDue == Some(today)
    ensures !dueGiven && resolvedDue == Some(today) ==> o.avgHoursLeft.None?
  {
    if dueGiven then
      OperatingLife(Some(PerYear(remaining, policy.annualUsage)), Some(AsReal(remaining)))
    else if resolvedDue.None? then
      OperatingLife(None, None)
    else
      var years := (resolvedDue.value - today) as real / AverageYearLength;
      assert Scale(FiniteReal(years), policy.annualUsage as real) == FiniteReal(years * policy.annualUsage as real);
      OperatingLife(Some(FiniteReal(years)), if years != 0.0 then Some(FiniteReal(years * policy.annualUsage as real)) else None)
  }

  /** A due-date example under the default policy: TSN 7000 leaves 1000 h,
      811 days at 450 h a year, and the due date is the nearer of that and the
      calendar limit 7300 days after the last overhaul. */
  lemma DefaultPolicyDueDate(today: int, lastOverhaul: int)
    ensures ResolveDueDate(DefaultPolicy, today, Some(lastOverhaul), None, Some(7000)) ==
      Some(if lastOverhaul + 7300 <= today + 811 then lastOverhaul + 7300 else today + 811)
  {
  }
}
