/**
 * The raw per-engine facts as the extractor hands them over: a JSON object,
 * i.e. a map from field name to a JSON value, any field possibly missing or null.
 */
module Facts {
  import opened Common

  /** A JSON value as the extractor can produce it; arrays and objects are only
      observed through their size (which decides their Python truthiness). */
  datatype Value = Null | Bool(b: bool) | Num(n: int) | Text(s: string) | Composite(size: nat)

  type Fields = map<string, Value>

  const TtafKey := "TTAF"
  const TsnKey := "TSN"
  const CsnKey := "CSN"
  const TsmlKey := "TSML"
  const TsohKey := "TSOH"
  const EarlyTboKey := "EarlyTBO"
  const HoursSinceHsiKey := "HoursSinceHSI"
  const DateOfLastHsiKey := "DateOfLastHSI"
  const OnConditionKey := "OnCondition_R"
  const ProgramKey := "EngineProgramNameOngoingOrEnrolled_1"
  const DateOfLastOverhaulKey := "DateOfLastOverhaul"
  const DateOfOverhaulDueKey := "DateOfOverhaulDue"
  const PositionKey := "Position"
  const IdKey := "ID"

  /** `fields.get(key)`: a missing key reads as null. */
  function Lookup(fields: Fields, key: string): Value {
    if key in fields then fields[key] else Null
  }

  /** Python's `bool(v)`. */
  predicate Truthy(v: Value) {
    match v
    case Null => false
    case Bool(b) => b
    case Num(n) => n != 0
    case Text(s) => s != ""
    case Composite(size) => size != 0
  }

  /** Values Python's arithmetic accepts (a bool counts as 0 or 1) or null. */
  predicate IsNumeric(v: Value) {
    v.Null? || v.Bool? || v.Num?
  }

  /** A string, or a value Python treats as false (so that `v or ''` is a string). */
  predicate TextOrFalsy(v: Value) {
    v.Text? || !Truthy(v)
  }

  /** The numeric reading of a value, `None` for null. */
  function AsNumber(v: Value): Option<int>
    requires IsNumeric(v)
  {
    match v
    case Num(n) => Some(n)
    case Bool(b) => Some(if b then 1 else 0)
    case Null => None
  }

  function NumField(fields: Fields, key: string): Option<int>
    requires IsNumeric(Lookup(fields, key))
  {
    AsNumber(Lookup(fields, key))
  }

  /** A number when the value is one, unknown otherwise. */
  function NumberOrUnknown(v: Value): Option<int> {
    if IsNumeric(v) then AsNumber(v) else None
  }

  /**
   * The facts `compute_metrics` reads on every path without raising: TSN and
   * TSOH are subtracted from the policy constants (or are null), and the program
   * name is searched (a string, or a value Python treats as false, which it
   * replaces by the empty string). TSML and the last overhaul date are read only
   * on some paths; their conditions depend on the ad and are stated with the
   * metrics computation.
   */
  predicate WellTyped(fields: Fields) {
    && IsNumeric(Lookup(fields, TsnKey))
    && IsNumeric(Lookup(fields, TsohKey))
    && TextOrFalsy(Lookup(fields, ProgramKey))
  }

  /** `fields.get(ProgramKey) or ''`. */
  function ProgramField(fields: Fields): string
    requires TextOrFalsy(Lookup(fields, ProgramKey))
  {
    match Lookup(fields, ProgramKey)
    case Text(s) => s
    case _ => ""
  }
}
