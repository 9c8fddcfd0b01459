/**
 * The post-processing `call_llm_extraction` applies to the language model's
 * answer: TTAF de-duplication or regex fallback, then position and ad tagging.
 * The model call and the JSON decoding are a collaborator: their outcome is a
 * `Reply`, the LEFT and RIGHT objects, or `None` when anything raised.
 */
module FactExtractor {
  import opened Common
  import opened Facts
  import opened Config
  import Patterns

  type Reply = Option<(Fields, Fields)>

  /** `extract_ttaf_from_ad`: the first TTAF pattern, in list order, that matches the ad. */
  function ExtractTtafFromAd(env: Environment, adText: string): (ttaf: Option<nat>)
    ensures ttaf.None? <==> forall i :: 0 <= i < |env.ttafPatterns| ==> env.ttafPatterns[i](adText).None?
    ensures ttaf.Some? ==>
      exists i :: 0 <= i < |env.ttafPatterns| && env.ttafPatterns[i](adText) == ttaf &&
        forall j :: 0 <= j < i ==> env.ttafPatterns[j](adText).None?
  {
    Patterns.ExtractNumber(adText, env.ttafPatterns)
  }

  function Tag(engine: Fields, position: string, adId: Value): Fields {
    engine[PositionKey := Text(position)][IdKey := adId]
  }

  /**
   * The engines handed to the metrics computation: none when the extraction
   * failed, otherwise LEFT then RIGHT, tagged with their position and the ad.
   * When both sides carry a TTAF key, RIGHT's is dropped; otherwise a TTAF found in
   * the ad text is written to LEFT only.
   */
  function ExtractedEngines(env: Environment, adText: string, adId: Value, reply: Reply): (engines: seq<Fields>)
    ensures |engines| == if reply.Some? then 2 else 0
  {
    match reply
    case None => []
    case Some((left, right)) =>
      if TtafKey in left && TtafKey in right then
        [Tag(left, "LEFT", adId), Tag(right - {TtafKey}, "RIGHT", adId)]
      else
        var ttaf := ExtractTtafFromAd(env, adText);
        var left' := if ttaf.Some? then left[TtafKey := Num(ttaf.value)] else left;
        [Tag(left', "LEFT", adId), Tag(right, "RIGHT", adId)]
  }

  /** `call_llm_extraction` after the model call: edits the two objects in place. */
  method CallLlmExtraction(env: Environment, adText: string, adId: Value, reply: Reply)
    returns (engines: seq<Fields>)
    ensures engines == ExtractedEngines(env, adText, adId, reply)
  {
    if reply.None? {
      return [];
    }
    var left, right := reply.value.0, reply.value.1;
    if TtafKey in left && TtafKey in right {
      right := right - {TtafKey};
    } else {
      var ttaf := ExtractTtafFromAd(env, adText);
      if ttaf.Some? {
        left := left[TtafKey := Num(ttaf.value)];
      }
    }
    left := left[PositionKey := Text("LEFT")];
    left := left[IdKey := adId];
    right := right[PositionKey := Text("RIGHT")];
    right := right[IdKey := adId];
    engines := [left, right];
  }

  /** A failed extraction yields no engines; a successful one yields exactly LEFT
      then RIGHT, each tagged with its position and the ad identifier. */
  lemma ExtractionShape(env: Environment, adText: string, adId: Value, reply: Reply)
    ensures var engines := ExtractedEngines(env, adText, adId, reply);
      && (reply.None? ==> engines == [])
      && (reply.Some? ==>
            && Lookup(engines[0], PositionKey) == Text("LEFT")
            && Lookup(engines[1], PositionKey) == Text("RIGHT")
            && Lookup(engines[0], IdKey) == adId
            && Lookup(engines[1], IdKey) == adId)
  {
  }

  /** The TTAF rule: kept on LEFT and removed from RIGHT when both carry it;
      otherwise RIGHT keeps its own and LEFT takes the ad-text TTAF if there is one. */
  lemma TtafDeduplication(env: Environment, adText: string, adId: Value, left: Fields, right: Fields)
    ensures var engines := ExtractedEngines(env, adText, adId, Some((left, right)));
      var ttaf := ExtractTtafFromAd(env, adText);
      if TtafKey in left && TtafKey in right then
        Lookup(engines[0], TtafKey) == left[TtafKey] && TtafKey !in engines[1]
      else
        && (TtafKey in engines[1] <==> TtafKey in right)
        && Lookup(engines[1], TtafKey) == Lookup(right, TtafKey)
        && Lookup(engines[0], TtafKey) == (if ttaf.Some? then Num(ttaf.value) else Lookup(left, TtafKey))
  {
  }

  /** Every other fact reaches the metrics computation as the extractor gave it. */
  lemma ExtractionKeepsFacts(env: Environment, adText: string, adId: Value, left: Fields, right: Fields, key: string)
    requires key != TtafKey && key != PositionKey && key != IdKey
    ensures var engines := ExtractedEngines(env, adText, adId, Some((left, right)));
      Lookup(engines[0], key) == Lookup(left, key) && Lookup(engines[1], key) == Lookup(right, key)
  {
  }
}
