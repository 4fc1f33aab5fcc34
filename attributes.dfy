/**
 * Required attributes of a parameter (validate_parameter_attributes) and of
 * the file's root (validate_root_attribute), which follow-up validators run,
 * and the duration and start_timestamp root attribute checks.
 *
 * The follow-up validators themselves belong to another library and are
 * only named here.
 */
module Attributes {
  import opened Wrappers
  import opened Logging

  /** Attributes every parameter needs. */
  const PARAMETER_REQUIRED: seq<string> := ["data_type", "frequency", "lfl", "name", "supf_offset"]

  /** Data types whose parameters carry no 'units' attribute. */
  const UNITLESS_TYPES: set<string> :=
    {"Discrete", "Multi-state", "ASCII", "Enumerated Discrete", "Derived Multistate"}

  /** Attributes the file's root needs. */
  const ROOT_REQUIRED: seq<string> := ["duration", "reliable_frame_counter", "reliable_subframe_counter"]

  ghost predicate NoDuplicates(s: seq<string>) {
    forall i, j :: 0 <= i < j < |s| ==> s[i] != s[j]
  }

  /** 'units' is expected unless the data type is one of the five discrete or text types (a missing type needs units). */
  predicate NeedsUnits(dataType: Option<string>) {
    !(dataType.Some? && dataType.value in UNITLESS_TYPES)
  }

  /** The attributes of `expected` that are not present, in the order of `expected`. */
  function Missing(expected: seq<string>, present: set<string>): (m: seq<string>)
    ensures forall a :: a in m <==> a in expected && a !in present
    ensures |m| <= |expected|
    ensures NoDuplicates(expected) ==> NoDuplicates(m)
  {
    if expected == [] then []
    else
      var rest := Missing(expected[1..], present);
      if expected[0] in present then rest else [expected[0]] + rest
  }

  function ExpectedParameterAttributes(dataType: Option<string>): seq<string>
  {
    PARAMETER_REQUIRED + (if NeedsUnits(dataType) then ["units"] else [])
  }

  /**
   * The attributes reported missing for a parameter: each of the five always
   * required ones that is absent, and 'units' when the data type needs it.
   * Each is reported once.
   */
  function MissingParameterAttributes(dataType: Option<string>, present: set<string>): (m: seq<string>)
    ensures forall a :: a in PARAMETER_REQUIRED ==> (a in m <==> a !in present)
    ensures "units" in m <==> NeedsUnits(dataType) && "units" !in present
    ensures forall a :: a in m ==> a in PARAMETER_REQUIRED || a == "units"
    ensures NoDuplicates(m)
  {
    assert NoDuplicates(ExpectedParameterAttributes(dataType));
    Missing(ExpectedParameterAttributes(dataType), present)
  }

  /** The root attributes reported missing, each once. */
  function MissingRootAttributes(present: set<string>): (m: seq<string>)
    ensures forall a :: a in m <==> a in ROOT_REQUIRED && a !in present
    ensures NoDuplicates(m)
  {
    Missing(ROOT_REQUIRED, present)
  }

  /** One ERROR record per missing attribute. */
  function MissingLevels(missing: seq<string>): (levels: seq<int>)
    ensures |levels| == |missing|
  {
    seq(|missing|, _ => ERROR)
  }

  /** Each missing attribute counts as exactly one error. */
  lemma {:induction false} MissingLevelsErrors(missing: seq<string>)
    ensures ErrorsIn(MissingLevels(missing)) == |missing|
    ensures WarningsIn(MissingLevels(missing)) == 0
  {
    if missing != [] {
      MissingLevelsErrors(missing[1..]);
      assert MissingLevels(missing)[1..] == MissingLevels(missing[1..]);
    }
  }

  /** With no attribute present, every expected attribute is reported, in order. */
  lemma {:induction false} MissingFromNothing(expected: seq<string>)
    ensures Missing(expected, {}) == expected
  {
    if expected != [] {
      MissingFromNothing(expected[1..]);
    }
  }

  /** A bare parameter lacks six attributes, or five when its type is unitless. */
  lemma BareParameter(dataType: Option<string>)
    ensures |MissingParameterAttributes(dataType, {})| == if NeedsUnits(dataType) then 6 else 5
  {
    MissingFromNothing(ExpectedParameterAttributes(dataType));
  }

  // ---------------------------------------------------------------------------
  // Which follow-up validators run

  datatype ParameterValidator =
    | Arinc429 | SourceName | SupfOffset | ValuesMapping
    | DataType | Frequency | HdfFrequency | Lfl | Name | Units

  /** Every parameter validator, in the order the source calls them. */
  const PARAMETER_VALIDATORS: seq<ParameterValidator> :=
    [Arinc429, SourceName, SupfOffset, ValuesMapping, DataType, Frequency, HdfFrequency, Lfl, Name, Units]

  /** The attribute whose presence lets a validator run; `None` for the four that always run. */
  function Trigger(v: ParameterValidator): Option<string>
  {
    match v
    case DataType => Some("data_type")
    case Frequency => Some("frequency")
    case HdfFrequency => Some("frequency")
    case Lfl => Some("lfl")
    case Name => Some("name")
    case Units => Some("units")
    case _ => None
  }

  lemma AllParameterValidators()
    ensures forall x :: x in PARAMETER_VALIDATORS
  {
    var all := PARAMETER_VALIDATORS;
    forall x ensures x in all {
      match x
      case Arinc429 => assert all[0] == x;
      case SourceName => assert all[1] == x;
      case SupfOffset => assert all[2] == x;
      case ValuesMapping => assert all[3] == x;
      case DataType => assert all[4] == x;
      case Frequency => assert all[5] == x;
      case HdfFrequency => assert all[6] == x;
      case Lfl => assert all[7] == x;
      case Name => assert all[8] == x;
      case Units => assert all[9] == x;
    }
  }

  function SelectValidators(all: seq<ParameterValidator>, present: set<string>): (r: seq<ParameterValidator>)
    ensures forall v :: v in r <==> v in all && (Trigger(v).None? || Trigger(v).value in present)
    ensures |r| <= |all|
  {
    if all == [] then []
    else
      var v := all[0];
      (if Trigger(v).None? || Trigger(v).value in present then [v] else []) + SelectValidators(all[1..], present)
  }

  /**
   * The validators run for a parameter, in order: four always, and each
   * attribute-specific one only when its attribute is present (the frequency
   * attribute also triggers the comparison with the root frequencies).
   */
  function ParameterFollowUps(present: set<string>): (v: seq<ParameterValidator>)
    ensures forall x :: x in v <==> Trigger(x).None? || Trigger(x).value in present
  {
    AllParameterValidators();
    SelectValidators(PARAMETER_VALIDATORS, present)
  }

  datatype RootValidator =
    | Duration | Frequencies | ReliableFrameCounter | ReliableSubframeCounter
    | StartTimestamp | SuperframePresent

  /** The root checks run: frequencies, start_timestamp and superframe_present always, the others when present. */
  function RootFollowUps(present: set<string>): (v: seq<RootValidator>)
    ensures Frequencies in v && StartTimestamp in v && SuperframePresent in v
    ensures Duration in v <==> "duration" in present
    ensures ReliableFrameCounter in v <==> "reliable_frame_counter" in present
    ensures ReliableSubframeCounter in v <==> "reliable_subframe_counter" in present
  {
    (if "duration" in present then [Duration] else [])
    + [Frequencies]
    + (if "reliable_frame_counter" in present then [ReliableFrameCounter] else [])
    + (if "reliable_subframe_counter" in present then [ReliableSubframeCounter] else [])
    + [StartTimestamp, SuperframePresent]
  }

  // ---------------------------------------------------------------------------
  // validate_duration_attribute and validate_start_timestamp_attribute

  /** A root attribute whose value is checked for its type (the type name is given, not sniffed). */
  datatype TypedReport = Absent | RightType | WrongType

  /**
   * validate_duration_attribute: a missing or zero duration is an error, a
   * duration that is not an int is an error, otherwise nothing is wrong.
   */
  function DurationCheck(duration: Option<real>, isInt: bool): (r: TypedReport)
    ensures r.Absent? <==> duration.None? || duration.value == 0.0
    ensures r.WrongType? <==> duration.Some? && duration.value != 0.0 && !isInt
  {
    if duration.Some? && duration.value != 0.0 then (if isInt then RightType else WrongType) else Absent
  }

  /** The levels logged for a duration report: the heading, then the value and its type, or the missing error. */
  function DurationLevels(r: TypedReport): seq<int>
  {
    match r
    case Absent => [INFO] + [ERROR]
    case RightType => [INFO, INFO] + [DEBUG]
    case WrongType => [INFO, INFO] + [ERROR]
  }

  /**
   * validate_start_timestamp_attribute: the attribute is optional; if set it
   * must be a float. It decides like DurationCheck, with the float test in
   * place of the int test; the two checks differ in what they log, which
   * StartTimestampLevels and DurationLevels keep apart, and each mirrors its
   * own function of the validator.
   */
  function StartTimestampCheck(start: Option<real>, isFloat: bool): (r: TypedReport)
    ensures r.Absent? <==> start.None? || start.value == 0.0
    ensures r.WrongType? <==> start.Some? && start.value != 0.0 && !isFloat
  {
    if start.Some? && start.value != 0.0 then (if isFloat then RightType else WrongType) else Absent
  }

  /**
   * The levels logged for a start_timestamp report: the heading, then the
   * presence, the time, the epoch value and its type, or the absence.
   */
  function StartTimestampLevels(r: TypedReport): seq<int>
  {
    match r
    case Absent => [INFO] + [INFO]
    case RightType => [INFO, INFO, INFO, INFO] + [INFO]
    case WrongType => [INFO, INFO, INFO, INFO] + [ERROR]
  }

  /** Duration is required and must be an int: one error unless it is set, non-zero and an int. */
  lemma DurationErrors(duration: Option<real>, isInt: bool)
    ensures ErrorsIn(DurationLevels(DurationCheck(duration, isInt))) ==
            if duration.Some? && duration.value != 0.0 && isInt then 0 else 1
  {
    var r := DurationCheck(duration, isInt);
    var head := if r.Absent? then [INFO] else [INFO, INFO];
    var last := if r.Absent? || r.WrongType? then ERROR else DEBUG;
    assert DurationLevels(r) == head + [last];
    ErrorsInZero(head);
    ErrorsInConcat(head, [last]);
  }

  /** start_timestamp is optional: one error only when it is set but not a float. */
  lemma StartTimestampErrors(start: Option<real>, isFloat: bool)
    ensures ErrorsIn(StartTimestampLevels(StartTimestampCheck(start, isFloat))) ==
            if start.Some? && start.value != 0.0 && !isFloat then 1 else 0
  {
    var r := StartTimestampCheck(start, isFloat);
    var head := if r.Absent? then [INFO] else [INFO, INFO, INFO, INFO];
    var last := if r.WrongType? then ERROR else INFO;
    assert StartTimestampLevels(r) == head + [last];
    ErrorsInZero(head);
    ErrorsInConcat(head, [last]);
  }
}
