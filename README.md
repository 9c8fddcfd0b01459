# Engine lifecycle rule engine for aircraft-sale ads

This project models, in Dafny, the decision logic of `LLM_data_extraction_from_aircraft_ads.py`:
the script that takes free-text aircraft advertisements, lets a language model extract
per-engine facts (TSN, TSML, TSOH, dates, program name, ...), and computes for every engine
the time remaining before overhaul, the basis of that figure, a due date and the years and
average hours of operation left.

Modules, one per component of the script:

- `Common` (common.dfy): `Option`, integers and reals extended with `float("inf")`, and the
  concatenation of a list of lists (repeated `extend`).
- `Facts` (facts.dfy): the extracted facts as a JSON object (`map<string, Value>`), with Python's
  `dict.get` and truth-value rules.
- `Patterns` (patterns.dfy): the first-match-wins regex fallback (`extract_number`); each pattern
  is an opaque matcher `string -> Option<nat>`.
- `Config` (config.dfy): the policy constants (TBO 8000 h, mid-life 4000 h, 450 h/year) as an
  immutable `Policy` value, and the opaque collaborators (`TODAY`, the pattern lists, the
  program-name search, the date parser) as an `Environment` value.
- `BasisResolver` (basis_resolver.dfy): the five-way precedence chain program > explicit >
  TSML > TSOH-vs-TSN.
- `DueDates` (due_dates.dfy): due-date candidates, the earliest one, and years/average hours left.
- `FactExtractor` (fact_extractor.dfy): what `call_llm_extraction` does with the model's reply
  (TTAF de-duplication or fallback, LEFT/RIGHT tagging, empty result on failure); the reply is a
  parameter, `None` standing for any exception.
- `MetricsComputer` (metrics_computer.dfy): the record of one engine and the per-ad loop.
- `RecordAssembler` (record_assembler.dfy): the main loop concatenating the records of all ads.

Dates are day numbers. A date plus `timedelta(days=x)` keeps the floor of `x`, so the usage
candidate is `today + (tbo - used) * 365 / 450` with integer (floor) division. Dafny functions
are deterministic, so running the resolver twice on the same facts gives the same record.

Behaviour of the code a reader may not expect, which the model follows:

- With TSN and TSOH both unknown (and no other rule applicable), the code sets the TSN basis
  with an infinite remaining time; it does not leave the basis unset.
- The TSML rule and the TSOH estimate subtract from the `midlife_hours` constant; the extracted
  `EarlyTBO` is only passed through.
- The TSOH estimate is `midlife_hours - tsoh`, while the usage due-date candidate subtracts TSML
  (or TSN) from `tbo_hours`.
- The explicit "N hrs left" search runs on the ad text whenever no program matched, not only when
  a structured field is absent.
- A TTAF found by regex is written to LEFT only.
- When no due date is given and no candidate exists, years left and average hours become unset;
  they are not derived from the remaining time. A recomputed years-left of exactly 0 leaves the
  average hours unset (`if years_left` tests truth, not presence).
- The output's "Date of Last Overhaul" and "Date of Overhaul Due" columns hold the raw extracted
  values, not the resolved due date, and the program column holds the raw `prog` string.
- A reply whose LEFT object has no `TTAF` key is never asked for RIGHT by the TTAF test, so a
  missing RIGHT reads as the empty object `{}` and still yields two engines.
- TSML and the last overhaul date are read only on some paths (see `Computable`), so a value of
  the wrong type there is harmless on the other paths.

## Model

| member | source | states |
|---|---|---|
| `Patterns.ExtractNumber` | LLM-data-extraction/LLM_data_extraction_from_aircraft_ads.py:216-224 | the result is absent iff no pattern matches; a present result is the value of a pattern that matches while every earlier pattern misses |
| `Patterns.ExtractNumberFirstHit` | LLM-data-extraction/LLM_data_extraction_from_aircraft_ads.py:220-223 | conversely, the earliest matching pattern's value is the result |
| `Patterns.ExtractNumberPrefix` | LLM-data-extraction/LLM_data_extraction_from_aircraft_ads.py:220-223 | patterns after a matching one are never consulted |
| `FactExtractor.ExtractTtafFromAd` | LLM-data-extraction/LLM_data_extraction_from_aircraft_ads.py:163-174 | TTAF is the value of the first TTAF pattern, in list order, that matches the ad; absent iff none matches |
| `FactExtractor.ExtractedEngines` | LLM-data-extraction/LLM_data_extraction_from_aircraft_ads.py:193-212 | zero engines on failure, exactly two otherwise; the lemmas below give their contents |
| `FactExtractor.CallLlmExtraction` | LLM-data-extraction/LLM_data_extraction_from_aircraft_ads.py:193-212 | the in-place edits of the two objects produce exactly the specified engine list |
| `FactExtractor.ExtractionShape` | LLM-data-extraction/LLM_data_extraction_from_aircraft_ads.py:204-212 | failure gives `[]`; success gives LEFT then RIGHT, each tagged with its position and the ad ID |
| `FactExtractor.TtafDeduplication` | LLM-data-extraction/LLM_data_extraction_from_aircraft_ads.py:195-202 | both sides with TTAF: LEFT keeps its own, RIGHT loses it; otherwise RIGHT is untouched and LEFT gets the regex TTAF when one is found |
| `FactExtractor.ExtractionKeepsFacts` | LLM-data-extraction/LLM_data_extraction_from_aircraft_ads.py:193-208 | every field other than TTAF, Position and ID reaches the computation unchanged |
| `BasisResolver.ResolveBasis` | LLM-data-extraction/LLM_data_extraction_from_aircraft_ads.py:263-283 | every finite remaining figure is at least 0; a program match gives TBO with the program basis; the figure is infinite iff no rule had any input, and then the basis is TSN |
| `BasisResolver.OneCounterKnown` | LLM-data-extraction/LLM_data_extraction_from_aircraft_ads.py:263-283 | with only TSN known the figure is max(0, TBO - tsn) on the TSN basis; with only TSOH known it is max(0, mid-life - tsoh) on the TSOH basis |
| `BasisResolver.DefaultPolicyExamples` | LLM-data-extraction/LLM_data_extraction_from_aircraft_ads.py:263-283 | under TBO 8000 and mid-life 4000: TSOH 3500 with TSN 6000 gives 500 on the TSOH basis; TSML 9000 gives 0 on the TSML basis |
| `BasisResolver.ExplicitBeatsCounters` | LLM-data-extraction/LLM_data_extraction_from_aircraft_ads.py:269-273 | without a program, an explicit figure n gives n with the explicit basis whatever TSML, TSN and TSOH are |
| `BasisResolver.MidLifeRule` | LLM-data-extraction/LLM_data_extraction_from_aircraft_ads.py:274-276 | without program or explicit figure, TSML m gives max(0, 4000 - m) with the TSML basis whatever TSN and TSOH are |
| `BasisResolver.SinceOverhaulChosenIff` | LLM-data-extraction/LLM_data_extraction_from_aircraft_ads.py:263-283 | with TSML unknown too, the TSOH basis is chosen iff TSOH is known and (TSN is unknown or 4000 - tsoh < 8000 - tsn) |
| `BasisResolver.MoreConservativeEstimate` | LLM-data-extraction/LLM_data_extraction_from_aircraft_ads.py:277-283 | with TSN and TSOH known, the figure is the smaller estimate floored at 0; ties go to TSN |
| `BasisResolver.BasisMatchesFirstApplicableRule` | LLM-data-extraction/LLM_data_extraction_from_aircraft_ads.py:266-283 | each of the five bases is recorded exactly when its rule is the first applicable one: program, explicit figure, TSML, TSOH when its estimate is strictly below the TSN estimate (an unknown value counting as infinity), TSN otherwise |
| `DueDates.UsageDays` | LLM-data-extraction/LLM_data_extraction_from_aircraft_ads.py:305-307 | the whole days to TBO are the floor of (tbo - used) * 365 / annual usage |
| `DueDates.DueCandidates` | LLM-data-extraction/LLM_data_extraction_from_aircraft_ads.py:300-307 | the candidates are exactly: last overhaul + 7300 days when known, today + usage days from TSML (else TSN) when either is known |
| `DueDates.MinOf` | LLM-data-extraction/LLM_data_extraction_from_aircraft_ads.py:308 | the minimum is a candidate and no candidate is smaller |
| `DueDates.ResolveDueDate` | LLM-data-extraction/LLM_data_extraction_from_aircraft_ads.py:299-308 | the due date is absent iff no last overhaul date, TSML or TSN is known; otherwise it is the earliest candidate |
| `DueDates.EarliestTriggerGoverns` | LLM-data-extraction/LLM_data_extraction_from_aircraft_ads.py:300-308 | with both triggers known, the due date is the nearer of the calendar and the usage limit |
| `DueDates.MidLifeShadowsNew` | LLM-data-extraction/LLM_data_extraction_from_aircraft_ads.py:303-304 | a known TSML makes TSN irrelevant to the due date |
| `DueDates.DefaultPolicyDueDate` | LLM-data-extraction/LLM_data_extraction_from_aircraft_ads.py:299-308 | TSN 7000 under the default policy gives today + 811 days as usage candidate, and the due date is the nearer of that and last overhaul + 7300 days |
| `DueDates.PerYear` | LLM-data-extraction/LLM_data_extraction_from_aircraft_ads.py:286 | years left times the annual usage gives back the remaining hours |
| `DueDates.ProjectOperatingLife` | LLM-data-extraction/LLM_data_extraction_from_aircraft_ads.py:286-312 | a given due date keeps the basis-derived figures; otherwise years left is present iff a due date resolved, equal to its days over 365.25; hours are always years times 450; a recomputed years-left is 0 (hours unset) exactly when the due date is today |
| `MetricsComputer.ProgramFound` | LLM-data-extraction/LLM_data_extraction_from_aircraft_ads.py:253-255 | a non-empty program string is the text searched; a program value Python treats as false makes the ad text the text searched |
| `MetricsComputer.LastOverhaul` | LLM-data-extraction/LLM_data_extraction_from_aircraft_ads.py:241-249 | a string is parsed, a failed parse giving no date; any other value gives no date (the truthy non-strings that reach this point are excluded by `Computable`, the false-like ones are skipped by `if last_ov`); any date present came from a string |
| `MetricsComputer.DueGiven` | LLM-data-extraction/LLM_data_extraction_from_aircraft_ads.py:289-297 | a string counts as a given due date iff it parses; any other value counts iff Python treats it as true |
| `MetricsComputer.EngineMetrics` | LLM-data-extraction/LLM_data_extraction_from_aircraft_ads.py:236-334 | remaining figure and basis label are those of the precedence chain on the engine's TSN, TSML, TSOH, the program search and the explicit figure; years and hours are the operating-life projection from the given or resolved due date; the program column is `prog`; every raw column is the extracted value; the remaining figure is never negative and a program match gives TBO with the label "program" |
| `MetricsComputer.ExtractedEnginesComputable` | LLM-data-extraction/LLM_data_extraction_from_aircraft_ads.py:193-212 | the engines of a reply whose two sides the computation accepts are accepted too, since tagging leaves every fact it reads unchanged |
| `MetricsComputer.ComputeMetrics` | LLM-data-extraction/LLM_data_extraction_from_aircraft_ads.py:228-336 | one record per extracted engine, in extraction order |
| `MetricsComputer.ProgramFieldShadowsAdText` | LLM-data-extraction/LLM_data_extraction_from_aircraft_ads.py:253-255 | a non-empty program field is the only text searched for a program |
| `MetricsComputer.ProgramOverridesCounters` | LLM-data-extraction/LLM_data_extraction_from_aircraft_ads.py:266-268 | with a program match, changing TSN, TSML or TSOH does not change the program basis or the TBO figure |
| `RecordAssembler.RunAll` | LLM-data-extraction/LLM_data_extraction_from_aircraft_ads.py:343-347 | the output table is the concatenation of every ad's records in ad order |
| `Common.FlattenAppend` | LLM-data-extraction/LLM_data_extraction_from_aircraft_ads.py:343-347 | extending the table with two batches of per-ad records gives the two batches' tables one after the other, so ad order is preserved |
| `RecordAssembler.AdRecordsShape` | LLM-data-extraction/LLM_data_extraction_from_aircraft_ads.py:230-233 | a failed extraction gives no record; a successful one gives LEFT then RIGHT with the ad's ID |
| `RecordAssembler.AllRecordsCount` | LLM-data-extraction/LLM_data_extraction_from_aircraft_ads.py:343-347 | the table has two records per successfully extracted ad |
| `RecordAssembler.ProgramInAdText` | LLM-data-extraction/LLM_data_extraction_from_aircraft_ads.py:253-268 | a program named in the ad text, with no program field extracted, gives both engines TBO with the label "program" |

## Left out

- The OpenAI chat call and the JSON decoding (lines 179-191): a network call and library parsing. Their outcome is the `Reply` parameter, `None` for every exception: a reply without `LEFT`, a reply without `RIGHT` whose LEFT has a `TTAF` key, sides that are not objects, or any decoding or network failure. A reply without `RIGHT` whose LEFT has no `TTAF` key does not raise and is `Some((left, {}))`.
- Excel loading and writing, `.env` loading and path set-up (lines 60-75, 340-358): I/O plumbing. The main loop takes the ads as a sequence.
- `SYSTEM_PROMPT` (lines 90-159): prompt text, not behaviour.
- Regex semantics: every pattern, `PROG_PATTERN` included, is an opaque matcher. `LEFT_PATTERNS` as written match literal backslashes; the model does not reproduce that. `DATE_PATTERNS` is unused by the code.
- dateutil parsing: an opaque `string -> Option<int>` of day numbers.
- `round(..., 2)` on the basis-derived years left, and binary floating point in general: reals are exact here.
- The microsecond rounding of `timedelta(days=float)`: the usage candidate uses exact floor division, which can differ by a day from the float computation at exact day boundaries.
- TSOH is a float in the source; the model reads it as an integer.
- `OverflowError` when a candidate date falls outside years 1-9999: day numbers are unbounded.
- `print` logging (lines 211, 358).
- Inputs that make `compute_metrics` raise `TypeError` are excluded by `Computable`, because the source does not catch that error and the run stops. These are a non-numeric TSN or TSOH, or a truthy non-string program name, on every path (lines 253-254, 263-264). They include a non-numeric, non-null TSML when no program matched and there is no explicit figure (line 275), or when no due date is given (line 305). They also include a truthy non-string last overhaul date when no due date is given (line 302).
