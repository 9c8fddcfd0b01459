/**
 * The central rule: from one engine's facts, pick the basis of the
 * "time remaining before overhaul" figure, first applicable rule wins.
 */
module BasisResolver {
  import opened Common
  import opened Config

  datatype Basis = Program | Explicit | SinceMidLife | SinceOverhaul | SinceNew

  /** The label written to the "Basis of Calculation" column. */
  function Label(b: Basis): string {
    match b
    case Program => "program"
    case Explicit => "explicit"
    case SinceMidLife => "Time Since Mid-Life(TSML)"
    case SinceOverhaul => "time since last overhaul(TSOH)"
    case SinceNew => "Time Since New(TSN)"
  }

  datatype Resolution = Resolution(remaining: ExtInt, basis: Basis)

  /** Python's `<` between numbers and `float("inf")`. */
  predicate Below(a: ExtInt, b: ExtInt) {
    match a
    case Infinite => false
    case Finite(x) => b.Infinite? || x < b.value
  }

  /** Python's `max(0, e)`. */
  function AtLeastZero(e: ExtInt): ExtInt {
    match e
    case Infinite => Infinite
    case Finite(x) => Finite(if x < 0 then 0 else x)
  }

  /** `tbo_hours - tsn`, or infinity when TSN is unknown. */
  function EstimateBySinceNew(policy: Policy, tsn: Option<int>): ExtInt {
    if tsn.Some? then Finite(policy.tboHours - tsn.value) else Infinite
  }

  /** `midlife_hours - tsoh`, or infinity when TSOH is unknown (the mid-life
      interval, not the overhaul interval, is what the source subtracts from). */
  function EstimateBySinceOverhaul(policy: Policy, tsoh: Option<int>): ExtInt {
    if tsoh.Some? then Finite(policy.midlifeHours - tsoh.value) else Infinite
  }

  /**
   * The precedence chain: a matched maintenance program, then an explicit
   * "N hrs left" figure found in the ad, then TSML, then the smaller of the
   * TSOH and TSN estimates (ties and double absence go to TSN).
   */
  function ResolveBasis(policy: Policy, programMatched: bool, explicit: Option<nat>,
                        tsml: Option<int>, tsn: Option<int>, tsoh: Option<int>): (r: Resolution)
    ensures r.remaining.Finite? ==> r.remaining.value >= 0
    ensures programMatched ==> r == Resolution(Finite(policy.tboHours), Program)
    ensures r.remaining.Infinite? <==>
      !programMatched && explicit.None? && tsml.None? && tsn.None? && tsoh.None?
    ensures r.remaining.Infinite? ==> r.basis == SinceNew
  {
    if programMatched then Resolution(Finite(policy.tboHours), Program)
    else if explicit.Some? then Resolution(Finite(explicit.value), Explicit)
    else if tsml.Some? then Resolution(AtLeastZero(Finite(policy.midlifeHours - tsml.value)), SinceMidLife)
    else
      var byTsn := EstimateBySinceNew(policy, tsn);
      var byTsoh := EstimateBySinceOverhaul(policy, tsoh);
      if Below(byTsoh, byTsn) then Resolution(AtLeastZero(byTsoh), SinceOverhaul)
      else Resolution(AtLeastZero(byTsn), SinceNew)
  }

  /** Without a program, an explicit figure is taken literally, whatever TSML,
      TSN and TSOH say. */
  lemma ExplicitBeatsCounters(policy: Policy, n: nat, tsml: Option<int>, tsn: Option<int>, tsoh: Option<int>)
    ensures ResolveBasis(policy, false, Some(n), tsml, tsn, tsoh) == Resolution(Finite(n), Explicit)
  {
  }

  /** Without a program or explicit figure, a known TSML decides, floored at zero,
      whatever TSN and TSOH say. */
  lemma MidLifeRule(policy: Policy, m: int, tsn: Option<int>, tsoh: Option<int>)
    ensures var r := ResolveBasis(policy, false, None, Some(m), tsn, tsoh);
      r.basis == SinceMidLife &&
      r.remaining == Finite(if m <= policy.midlifeHours then policy.midlifeHours - m else 0)
  {
  }

  /** With TSML unknown too, the TSOH basis is chosen exactly when its estimate is
      strictly below the TSN estimate, an unknown TSN counting as infinity. */
  lemma SinceOverhaulChosenIff(policy: Policy, tsn: Option<int>, tsoh: Option<int>)
    ensures var r := ResolveBasis(policy, false, None, None, tsn, tsoh);
      r.basis == SinceOverhaul <==>
        tsoh.Some? && (tsn.None? || policy.midlifeHours - tsoh.value < policy.tboHours - tsn.value)
  {
  }

  /** With both TSN and TSOH known, the figure is the more conservative of the two
      estimates, floored at zero; on a tie the TSN basis is recorded. */
  lemma MoreConservativeEstimate(policy: Policy, tsn: int, tsoh: int)
    ensures var r := ResolveBasis(policy, false, None, None, Some(tsn), Some(tsoh));
      var byTsn := policy.tboHours - tsn;
      var byTsoh := policy.midlifeHours - tsoh;
      var least := if byTsoh < byTsn then byTsoh else byTsn;
      && r.remaining == Finite(if least < 0 then 0 else least)
      && (byTsoh == byTsn ==> r.basis == SinceNew)
  {
  }

  /** Every path sets a basis together with the remaining figure, and the basis
      agrees with which rule applied. */
  lemma BasisMatchesFirstApplicableRule(policy: Policy, programMatched: bool, explicit: Option<nat>,
                                        tsml: Option<int>, tsn: Option<int>, tsoh: Option<int>)
    ensures var r := ResolveBasis(policy, programMatched, explicit, tsml, tsn, tsoh);
      && (r.basis == Program <==> programMatched)
      && (r.basis == Explicit <==> !programMatched && explicit.Some?)
      && (r.basis == SinceMidLife <==> !programMatched && explicit.None? && tsml.Some?)
      && (r.basis == SinceOverhaul <==>
            && !programMatched && explicit.None? && tsml.None? && tsoh.Some?
            && (tsn.None? || policy.midlifeHours - tsoh.value < policy.tboHours - tsn.value))
      && (r.basis == SinceNew <==>
            && !programMatched && explicit.None? && tsml.None?
            && (tsoh.None? || (tsn.Some? && policy.tboHours - tsn.value <= policy.midlifeHours - tsoh.value)))
      && (r.basis == SinceNew ==> tsn.Some? || tsoh.None?)
  {
  }

  /** With only one of TSN and TSOH known (and no program, explicit figure or TSML),
      that counter decides: TSN against the TBO interval, TSOH against the mid-life
      interval, each floored at zero. */
  lemma OneCounterKnown(policy: Policy, tsn: int, tsoh: int)
    ensures var byTsn := policy.tboHours - tsn;
      ResolveBasis(policy, false, None, None, Some(tsn), None) ==
        Resolution(Finite(if byTsn < 0 then 0 else byTsn), SinceNew)
    ensures var byTsoh := policy.midlifeHours - tsoh;
      ResolveBasis(policy, false, None, None, None, Some(tsoh)) ==
        Resolution(Finite(if byTsoh < 0 then 0 else byTsoh), SinceOverhaul)
  {
  }

  /** Worked examples under the default policy (TBO 8000 h, mid-life 4000 h):
      TSOH 3500 against TSN 6000 leaves 500 h on the overhaul basis, and a
      TSML of 9000 is floored at zero on the mid-life basis. */
  lemma DefaultPolicyExamples()
    ensures ResolveBasis(DefaultPolicy, false, None, None, Some(6000), Some(3500)) ==
      Resolution(Finite(500), SinceOverhaul)
    ensures ResolveBasis(DefaultPolicy, false, None, Some(9000), None, None) ==
      Resolution(Finite(0), SinceMidLife)
  {
  }
}
