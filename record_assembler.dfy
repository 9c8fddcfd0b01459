/**
 * The main loop: every ad is processed once, in input order, and its records
 * are appended to one output table.
 */
module RecordAssembler {
  import opened Common
  import opened Facts
  import opened Config
  import opened BasisResolver
  import opened FactExtractor
  import opened MetricsComputer

  /** One input row (its ID and Description) with the extractor's reply for it. */
  datatype Ad = Ad(id: Value, description: string, reply: Reply)

  /** Ads whose replies `compute_metrics` processes without raising. */
  predicate AdsComputable(env: Environment, ads: seq<Ad>) {
    forall i :: 0 <= i < |ads| ==> ReplyComputable(env, ads[i].description, ads[i].reply)
  }

  /** What `compute_metrics` returns for one ad. */
  function AdRecords(env: Environment, policy: Policy, ad: Ad): seq<EngineRecord>
    requires ReplyComputable(env, ad.description, ad.reply)
  {
    ExtractedEnginesComputable(env, ad.description, ad.id, ad.reply);
    MetricsOf(env, policy, ad.description, ad.id, ExtractedEngines(env, ad.description, ad.id, ad.reply))
  }

  /** The records of every ad, one table per ad, in ad order. */
  function PerAd(env: Environment, policy: Policy, ads: seq<Ad>): (tables: seq<seq<EngineRecord>>)
    requires AdsComputable(env, ads)
    ensures |tables| == |ads|
  {
    seq(|ads|, i requires 0 <= i < |ads| => AdRecords(env, policy, ads[i]))
  }

  /** The output table: the records of every ad, concatenated in ad order. */
  function AllRecords(env: Environment, policy: Policy, ads: seq<Ad>): seq<EngineRecord>
    requires AdsComputable(env, ads)
  {
    Flatten(PerAd(env, policy, ads))
  }

  /** The number of ads whose extraction succeeded. */
  function ExtractedAds(ads: seq<Ad>): nat {
    if ads == [] then 0 else (if ads[0].reply.Some? then 1 else 0) + ExtractedAds(ads[1..])
  }

  /** The main loop: `all_records.extend(compute_metrics(...))` for every ad. */
  method RunAll(env: Environment, policy: Policy, ads: seq<Ad>) returns (records: seq<EngineRecord>)
    requires AdsComputable(env, ads)
    ensures records == AllRecords(env, policy, ads)
  {
    ghost var tables := PerAd(env, policy, ads);
    records := [];
    for i := 0 to |ads|
      invariant records == Flatten(tables[..i])
    {
      var metrics := ComputeMetrics(env, policy, ads[i].description, ads[i].id, ads[i].reply);
      FlattenAppend(tables[..i], [metrics]);
      assert tables[..i + 1] == tables[..i] + [metrics];
      assert Flatten([metrics]) == metrics + Flatten([]);
      records := records + metrics;
    }
    assert tables[..|ads|] == tables;
  }

  /** A failed extraction contributes no record; a successful one exactly two, LEFT
      then RIGHT, both carrying the ad's identifier. */
  lemma AdRecordsShape(env: Environment, policy: Policy, ad: Ad)
    requires ReplyComputable(env, ad.description, ad.reply)
    ensures var recs := AdRecords(env, policy, ad);
      && (ad.reply.None? ==> recs == [])
      && (ad.reply.Some? ==>
            && |recs| == 2
            && recs[0].position == Text("LEFT") && recs[1].position == Text("RIGHT")
            && recs[0].id == ad.id && recs[1].id == ad.id)
  {
  }

  /** Two records per successfully extracted ad, none for the others. */
  lemma {:induction false} AllRecordsCount(env: Environment, policy: Policy, ads: seq<Ad>)
    requires AdsComputable(env, ads)
    ensures |AllRecords(env, policy, ads)| == 2 * ExtractedAds(ads)
  {
    if ads != [] {
      var tables := PerAd(env, policy, ads);
      assert tables[1..] == PerAd(env, policy, ads[1..]);
      AdRecordsShape(env, policy, ads[0]);
      AllRecordsCount(env, policy, ads[1..]);
    }
  }

  /** An ad naming a maintenance program in its text, whose extracted facts name no
      program, gives both engines the full TBO on the program basis. */
  lemma ProgramInAdText(env: Environment, policy: Policy, ad: Ad)
    requires ad.reply.Some? && ReplyComputable(env, ad.description, ad.reply)
    requires ProgramField(ad.reply.value.0) == "" && ProgramField(ad.reply.value.1) == ""
    requires env.programPattern(ad.description)
    ensures forall r :: r in AdRecords(env, policy, ad) ==>
      r.basis == Label(Program) && r.timeRemaining == Finite(policy.tboHours)
  {
    var (left, right) := ad.reply.value;
    ExtractionKeepsFacts(env, ad.description, ad.id, left, right, ProgramKey);
  }
}
