/**
 * `compute_metrics`: one output record per extracted engine, combining the
 * basis resolution, the due-date resolution and the pass-through facts.
 */
module MetricsComputer {
  import opened Common
  import opened Facts
  import opened Config
  import opened BasisResolver
  import opened DueDates
  import opened FactExtractor
  import Patterns

  /** One row of the output table. Raw facts are carried as the extractor gave them;
      the two date columns hold the raw extracted values, not the resolved due date. */
  datatype EngineRecord = EngineRecord(
    id: Value,
    text: string,
    ttaf: Value,
    position: Value,
    tsn: Value,
    csn: Value,
    tsoh: Value,
    earlyTbo: Value,
    hoursSinceHsi: Value,
    dateOfLastHsi: Value,
    timeRemaining: ExtInt,
    onCondition: bool,
    basis: string,
    dateOfLastOverhaul: Value,
    dateOfOverhaulDue: Value,
    yearsLeft: Option<ExtReal>,
    avgHoursLeft: Option<ExtReal>,
    programName: string)

  /** The maintenance-program search: a non-empty program field is the only text
      searched; the ad text is searched only when that field is empty or null. */
  predicate ProgramFound(env: Environment, adText: string, fields: Fields): (found: bool)
    requires TextOrFalsy(Lookup(fields, ProgramKey))
    ensures Lookup(fields, ProgramKey).Text? && Lookup(fields, ProgramKey).s != "" ==>
      found == env.programPattern(Lookup(fields, ProgramKey).s)
    ensures !Truthy(Lookup(fields, ProgramKey)) ==> found == env.programPattern(adText)
  {
    var prog := ProgramField(fields);
    env.programPattern(if prog != "" then prog else adText)
  }

  /** The last overhaul date: a string is parsed (a failure reads as unknown); a
      value Python treats as false is no date. */
  function LastOverhaul(env: Environment, fields: Fields): (last: Option<int>)
    ensures last.Some? ==>
      Lookup(fields, DateOfLastOverhaulKey).Text? && last == env.parseDate(Lookup(fields, DateOfLastOverhaulKey).s)
    ensures Lookup(fields, DateOfLastOverhaulKey).Text? ==>
      last == env.parseDate(Lookup(fields, DateOfLastOverhaulKey).s)
    ensures !Lookup(fields, DateOfLastOverhaulKey).Text? && !Truthy(Lookup(fields, DateOfLastOverhaulKey)) ==> last.None?
  {
    match Lookup(fields, DateOfLastOverhaulKey)
    case Text(s) => env.parseDate(s)
    case _ => None
  }

  /** Whether a due date counts as given: a string that parses, or any other value
      Python treats as true. */
  predicate DueGiven(env: Environment, fields: Fields): (given: bool)
    ensures Lookup(fields, DateOfOverhaulDueKey).Text? ==>
      (given <==> env.parseDate(Lookup(fields, DateOfOverhaulDueKey).s).Some?)
    ensures !Lookup(fields, DateOfOverhaulDueKey).Text? ==> (given <==> Truthy(Lookup(fields, DateOfOverhaulDueKey)))
  {
    match Lookup(fields, DateOfOverhaulDueKey)
    case Text(s) => env.parseDate(s).Some?
    case v => Truthy(v)
  }

  /** Whether TSML takes part in the arithmetic: in the basis chain when no program
      matched and the ad states no remaining figure, and in the due-date candidates
      when no due date was given. */
  predicate TsmlRead(env: Environment, adText: string, fields: Fields)
    requires WellTyped(fields)
  {
    || !DueGiven(env, fields)
    || (!ProgramFound(env, adText, fields) && Patterns.ExtractNumber(adText, env.remainingPatterns).None?)
  }

  /**
   * The facts `compute_metrics` processes without raising `TypeError`: TSN, TSOH and
   * the program name always, TSML where it is read, and the last overhaul date
   * when no due date was given (a truthy non-string date cannot be added to).
   */
  predicate Computable(env: Environment, adText: string, fields: Fields) {
    && WellTyped(fields)
    && (TsmlRead(env, adText, fields) ==> IsNumeric(Lookup(fields, TsmlKey)))
    && (!DueGiven(env, fields) ==> TextOrFalsy(Lookup(fields, DateOfLastOverhaulKey)))
  }

  /** A reply whose two sides are computable for this ad. */
  predicate ReplyComputable(env: Environment, adText: string, reply: Reply) {
    reply.Some? ==> Computable(env, adText, reply.value.0) && Computable(env, adText, reply.value.1)
  }

  /** The record `compute_metrics` appends for one engine of an ad. */
  function EngineMetrics(env: Environment, policy: Policy, adText: string, adId: Value, fields: Fields): (rec: EngineRecord)
    requires Computable(env, adText, fields)
    ensures rec.timeRemaining.Finite? ==> rec.timeRemaining.value >= 0
    ensures ProgramFound(env, adText, fields) ==>
      rec.basis == Label(Program) && rec.timeRemaining == Finite(policy.tboHours)
    ensures var r := ResolveBasis(policy, ProgramFound(env, adText, fields),
                                  Patterns.ExtractNumber(adText, env.remainingPatterns),
                                  NumberOrUnknown(Lookup(fields, TsmlKey)),
                                  NumField(fields, TsnKey), NumField(fields, TsohKey));
      rec.timeRemaining == r.remaining && rec.basis == Label(r.basis)
    ensures var due := ResolveDueDate(policy, env.today, LastOverhaul(env, fields),
                                      NumberOrUnknown(Lookup(fields, TsmlKey)), NumField(fields, TsnKey));
      var life := ProjectOperatingLife(policy, env.today, DueGiven(env, fields), due, rec.timeRemaining);
      rec.yearsLeft == life.yearsLeft && rec.avgHoursLeft == life.avgHoursLeft
    ensures DueGiven(env, fields) ==> rec.avgHoursLeft == Some(AsReal(rec.timeRemaining))
    ensures !DueGiven(env, fields) ==>
      (rec.yearsLeft.None? <==>
        LastOverhaul(env, fields).None? && NumField(fields, TsmlKey).None? && NumField(fields, TsnKey).None?)
    ensures rec.id == adId && rec.text == adText && rec.programName == ProgramField(fields)
    ensures && rec.ttaf == Lookup(fields, TtafKey) && rec.position == Lookup(fields, PositionKey)
            && rec.tsn == Lookup(fields, TsnKey) && rec.csn == Lookup(fields, CsnKey)
            && rec.tsoh == Lookup(fields, TsohKey) && rec.earlyTbo == Lookup(fields, EarlyTboKey)
            && rec.hoursSinceHsi == Lookup(fields, HoursSinceHsiKey)
            && rec.dateOfLastHsi == Lookup(fields, DateOfLastHsiKey)
            && rec.onCondition == Truthy(Lookup(fields, OnConditionKey))
            && rec.dateOfLastOverhaul == Lookup(fields, DateOfLastOverhaulKey)
            && rec.dateOfOverhaulDue == Lookup(fields, DateOfOverhaulDueKey)
  {
    var tsn := NumField(fields, TsnKey);
    var tsml := NumberOrUnknown(Lookup(fields, TsmlKey));
    var tsoh := NumField(fields, TsohKey);
    var explicit := Patterns.ExtractNumber(adText, env.remainingPatterns);
    var resolution := ResolveBasis(policy, ProgramFound(env, adText, fields), explicit, tsml, tsn, tsoh);
    var due := ResolveDueDate(policy, env.today, LastOverhaul(env, fields), tsml, tsn);
    var life := ProjectOperatingLife(policy, env.today, DueGiven(env, fields), due, resolution.remaining);
    EngineRecord(
      adId, adText,
      Lookup(fields, TtafKey), Lookup(fields, PositionKey),
      Lookup(fields, TsnKey), Lookup(fields, CsnKey), Lookup(fields, TsohKey),
      Lookup(fields, EarlyTboKey), Lookup(fields, HoursSinceHsiKey), Lookup(fields, DateOfLastHsiKey),
      resolution.remaining, Truthy(Lookup(fields, OnConditionKey)), Label(resolution.basis),
      Lookup(fields, DateOfLastOverhaulKey), Lookup(fields, DateOfOverhaulDueKey),
      life.yearsLeft, life.avgHoursLeft,
      ProgramField(fields))
  }

  /** Computability depends only on the six facts it names. */
  lemma ComputableReadsSixFacts(env: Environment, adText: string, f: Fields, g: Fields)
    requires forall key :: key in {TsnKey, TsohKey, TsmlKey, ProgramKey, DateOfLastOverhaulKey, DateOfOverhaulDueKey} ==>
      Lookup(f, key) == Lookup(g, key)
    ensures Computable(env, adText, f) == Computable(env, adText, g)
  {
  }

  /** The extractor leaves every fact the computation reads as it found it, so the
      engines of a computable reply are computable. */
  lemma ExtractedEnginesComputable(env: Environment, adText: string, adId: Value, reply: Reply)
    requires ReplyComputable(env, adText, reply)
    ensures var engines := ExtractedEngines(env, adText, adId, reply);
      forall i :: 0 <= i < |engines| ==> Computable(env, adText, engines[i])
  {
    if reply.Some? {
      var (left, right) := reply.value;
      var engines := ExtractedEngines(env, adText, adId, reply);
      forall key | key in {TsnKey, TsohKey, TsmlKey, ProgramKey, DateOfLastOverhaulKey, DateOfOverhaulDueKey}
        ensures Lookup(engines[0], key) == Lookup(left, key) && Lookup(engines[1], key) == Lookup(right, key)
      {
        ExtractionKeepsFacts(env, adText, adId, left, right, key);
      }
      ComputableReadsSixFacts(env, adText, engines[0], left);
      ComputableReadsSixFacts(env, adText, engines[1], right);
    }
  }

  /** The records of a sequence of engines, one per engine, in order. */
  function MetricsOf(env: Environment, policy: Policy, adText: string, adId: Value, engines: seq<Fields>): seq<EngineRecord>
    requires forall i :: 0 <= i < |engines| ==> Computable(env, adText, engines[i])
  {
    seq(|engines|, i requires 0 <= i < |engines| => EngineMetrics(env, policy, adText, adId, engines[i]))
  }

  /** `compute_metrics(ad_text, ad_id)`: extract, then append one record per engine. */
  method ComputeMetrics(env: Environment, policy: Policy, adText: string, adId: Value, reply: Reply)
    returns (results: seq<EngineRecord>)
    requires ReplyComputable(env, adText, reply)
    ensures (ExtractedEnginesComputable(env, adText, adId, reply);
      results == MetricsOf(env, policy, adText, adId, ExtractedEngines(env, adText, adId, reply)))
  {
    ExtractedEnginesComputable(env, adText, adId, reply);
    var engines := CallLlmExtraction(env, adText, adId, reply);
    results := [];
    for i := 0 to |engines|
      invariant |results| == i
      invariant forall k :: 0 <= k < i ==> results[k] == EngineMetrics(env, policy, adText, adId, engines[k])
    {
      results := results + [EngineMetrics(env, policy, adText, adId, engines[i])];
    }
  }

  /** A non-empty program field is the only text searched: the ad text is then irrelevant. */
  lemma ProgramFieldShadowsAdText(env: Environment, text1: string, text2: string, fields: Fields)
    requires TextOrFalsy(Lookup(fields, ProgramKey))
    requires ProgramField(fields) != ""
    ensures ProgramFound(env, text1, fields) == ProgramFound(env, text2, fields)
  {
  }

  /** The program precedence on whole records: a matched program gives the full TBO
      with the program basis whatever TSML, TSN, TSOH or an explicit figure say. */
  lemma ProgramOverridesCounters(env: Environment, policy: Policy, adText: string, adId: Value,
                                 fields: Fields, key: string, v: Value)
    requires Computable(env, adText, fields) && ProgramFound(env, adText, fields)
    requires key in {TsnKey, TsmlKey, TsohKey} && IsNumeric(v)
    ensures var rec := EngineMetrics(env, policy, adText, adId, fields[key := v]);
      rec.basis == Label(Program) && rec.timeRemaining == Finite(policy.tboHours)
  {
  }
}
