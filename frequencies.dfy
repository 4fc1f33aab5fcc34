/**
 * The frequency checks: validate_hdf_frequency (is a parameter's frequency
 * listed in the root attribute `frequencies`?) and
 * validate_frequencies_attribute (are the listed values floats, and does the
 * list cover exactly the frequencies the parameters use?).
 *
 * The source inspects Python type names ('array', 'list', 'float'); here the
 * shape of the root attribute is a datatype and each value carries a flag
 * saying whether its type name contains 'float'.
 */
module Frequencies {
  import opened Wrappers
  import opened Logging

  /** One value of the root attribute: its number and whether it is a float. */
  datatype FreqValue = FreqValue(hz: real, isFloat: bool)

  /** The root attribute `frequencies`, by the kind of object it is read as. */
  datatype RootFrequencies =
    | ArrayOf(items: seq<FreqValue>)   // a numpy array: type name contains 'array'
    | ListOf(items: seq<FreqValue>)    // a Python list: type name contains 'list'
    | Scalar(item: FreqValue)          // a single value
  {
    predicate IsContainer() { ArrayOf? || ListOf? }
  }

  /** The numbers listed by the root attribute. */
  function Listed(root: RootFrequencies): (xs: set<real>)
    ensures root.IsContainer() ==> forall i :: 0 <= i < |root.items| ==> root.items[i].hz in xs
    ensures root.IsContainer() ==> forall x :: x in xs ==> exists i :: 0 <= i < |root.items| && root.items[i].hz == x
    ensures root.Scalar? ==> xs == {root.item.hz}
  {
    if root.IsContainer() then set i | 0 <= i < |root.items| :: root.items[i].hz else {root.item.hz}
  }

  // ---------------------------------------------------------------------------
  // validate_hdf_frequency
  // ---------------------------------------------------------------------------

  /**
   * validate_hdf_frequency as written: only an object whose type name
   * contains 'array' is searched; anything else, a list included, is
   * compared with the frequency as a whole, and a list never equals a number.
   * So it warns about every list, and otherwise exactly when the frequency
   * is not listed.
   */
  function HdfFrequencyWarnsAsWritten(root: Option<RootFrequencies>, frequency: Option<real>): (w: bool)
    ensures w ==> root.Some? && frequency.Some?
    ensures root.Some? && frequency.Some? && root.value.ListOf? ==> w
    ensures root.Some? && frequency.Some? && !root.value.ListOf? ==>
              (w <==> frequency.value !in Listed(root.value))
  {
    if root.Some? && frequency.Some? then
      match root.value
      case ArrayOf(items) => !(exists i :: 0 <= i < |items| && items[i].hz == frequency.value)
      case ListOf(_) => true
      case Scalar(item) => frequency.value != item.hz
    else false
  }

  /** The as-written check warns about every list, even one that lists the frequency. */
  lemma ListedFrequencyWarnsAsWritten()
    ensures HdfFrequencyWarnsAsWritten(Some(ListOf([FreqValue(1.0, true)])), Some(1.0))
    ensures 1.0 in Listed(ListOf([FreqValue(1.0, true)]))
  {
    assert ListOf([FreqValue(1.0, true)]).items[0].hz == 1.0;
  }

  /**
   * validate_hdf_frequency as intended: a list is searched like an array,
   * as validate_frequencies_attribute treats both as containers. It warns
   * exactly when both are set and the frequency is not listed.
   */
  function HdfFrequencyWarns(root: Option<RootFrequencies>, frequency: Option<real>): (w: bool)
    ensures w <==> root.Some? && frequency.Some? && frequency.value !in Listed(root.value)
  {
    if root.Some? && frequency.Some? then
      match root.value
      case ArrayOf(items) => !(exists i :: 0 <= i < |items| && items[i].hz == frequency.value)
      case ListOf(items) => !(exists i :: 0 <= i < |items| && items[i].hz == frequency.value)
      case Scalar(item) => frequency.value != item.hz
    else false
  }

  /** The two readings agree on everything except lists. */
  lemma AsWrittenDiffersOnlyOnLists(root: Option<RootFrequencies>, frequency: Option<real>)
    requires root.None? || !root.value.ListOf?
    ensures HdfFrequencyWarnsAsWritten(root, frequency) == HdfFrequencyWarns(root, frequency)
  {
  }

  // ---------------------------------------------------------------------------
  // validate_frequencies_attribute
  // ---------------------------------------------------------------------------

  /** How the root set compares with the set of parameter frequencies (331-342). */
  datatype Comparison =
    | Covers                        // equal sets
    | Unused(unused: set<Option<real>>)     // rootfreq - paramsfreq, when not empty
    | NotListed(notListed: set<Option<real>>) // paramsfreq - rootfreq, otherwise

  /** The comparison of the root frequencies with the parameters' frequencies. */
  function CompareFrequencies(rootFreq: set<Option<real>>, paramsFreq: set<Option<real>>): (c: Comparison)
    ensures c.Covers? <==> rootFreq == paramsFreq
    ensures c.Unused? ==> c.unused != {} && c.unused == rootFreq - paramsFreq
    ensures c.NotListed? ==> rootFreq < paramsFreq && c.notListed == paramsFreq - rootFreq
  {
    if rootFreq == paramsFreq then Covers
    else if rootFreq - paramsFreq != {} then Unused(rootFreq - paramsFreq)
    else
      assert rootFreq <= paramsFreq by {
        forall x | x in rootFreq ensures x in paramsFreq { assert x !in rootFreq - paramsFreq; }
      }
      NotListed(paramsFreq - rootFreq)
  }

  /** When both differences are non-empty only the unused values are reported. */
  lemma BothDifferencesReportUnused(rootFreq: set<Option<real>>, paramsFreq: set<Option<real>>, x: Option<real>, y: Option<real>)
    requires x in rootFreq && x !in paramsFreq && y in paramsFreq && y !in rootFreq
    ensures CompareFrequencies(rootFreq, paramsFreq) == Unused(rootFreq - paramsFreq)
  {
    assert x in rootFreq - paramsFreq;
  }

  /** set(list(hdf.frequencies)) or set([hdf.frequencies]), with Python's None beside the numbers. */
  function RootSet(root: RootFrequencies): (s: set<Option<real>>)
    ensures forall x :: Some(x) in s <==> x in Listed(root)
    ensures None !in s
  {
    set x | x in Listed(root) :: Some(x)
  }

  /** set([v.frequency for _, v in hdf.items()]). */
  function ParamsSet(frequencies: seq<Option<real>>): (s: set<Option<real>>)
    ensures forall x :: x in s <==> x in frequencies
  {
    set i | 0 <= i < |frequencies| :: frequencies[i]
  }

  /** The number of values whose type is a float, counted off from the last value back. */
  function FloatCount(items: seq<FreqValue>): (n: nat)
    ensures n <= |items|
    ensures n == |items| <==> forall i :: 0 <= i < |items| ==> items[i].isFloat
  {
    if items == [] then 0
    else FloatCount(items[..|items| - 1]) + if items[|items| - 1].isFloat then 1 else 0
  }

  /** One ERROR logged for each value that is not a float, in order. */
  function NonFloatErrors(items: seq<FreqValue>): (levels: seq<int>)
  {
    if items == [] then []
    else NonFloatErrors(items[..|items| - 1]) + if items[|items| - 1].isFloat then [] else [ERROR]
  }

  /** NonFloatErrors holds an error for every non-float value and nothing else. */
  lemma {:induction false} NonFloatErrorsCount(items: seq<FreqValue>)
    ensures |NonFloatErrors(items)| == |items| - FloatCount(items)
    ensures ErrorsIn(NonFloatErrors(items)) == |items| - FloatCount(items)
  {
    if items != [] {
      var front := items[..|items| - 1];
      NonFloatErrorsCount(front);
      ErrorsInConcat(NonFloatErrors(front), if items[|items| - 1].isFloat then [] else [ERROR]);
    }
  }

  /** What validate_frequencies_attribute found. */
  datatype FrequenciesReport =
    | FrequenciesAbsent                                           // optional, not present
    | FrequenciesChecked(nonFloats: nat, comparison: Comparison)  // values checked and compared
    | RootFrequenciesUnbound                                      // a non-float scalar: `rootfreq` is never bound

  /**
   * The outcome validate_frequencies_attribute should reach: nothing when the
   * attribute is absent, an unbound `rootfreq` for a non-float scalar, and
   * otherwise the number of non-float values and the comparison.
   */
  function FrequenciesOutcome(root: Option<RootFrequencies>, paramFrequencies: seq<Option<real>>): (r: FrequenciesReport)
    ensures r.FrequenciesAbsent? <==> root.None?
    ensures r.RootFrequenciesUnbound? <==> root.Some? && root.value.Scalar? && !root.value.item.isFloat
  {
    if root.None? then FrequenciesAbsent
    else if root.value.IsContainer() then
      FrequenciesChecked(|root.value.items| - FloatCount(root.value.items),
                         CompareFrequencies(RootSet(root.value), ParamsSet(paramFrequencies)))
    else if root.value.item.isFloat then
      FrequenciesChecked(0, CompareFrequencies(RootSet(root.value), ParamsSet(paramFrequencies)))
    else RootFrequenciesUnbound
  }

  /**
   * A checked outcome counts no non-float value exactly when every listed
   * value is a float, and finds the root list covering the parameters exactly
   * when every parameter has a frequency and they use exactly the listed values.
   */
  lemma FrequenciesCheckedMeaning(root: Option<RootFrequencies>, paramFrequencies: seq<Option<real>>)
    ensures var r := FrequenciesOutcome(root, paramFrequencies);
            r.FrequenciesChecked? ==>
              (r.nonFloats == 0 <==> root.value.IsContainer() ==> forall i :: 0 <= i < |root.value.items| ==> root.value.items[i].isFloat)
    ensures var r := FrequenciesOutcome(root, paramFrequencies);
            r.FrequenciesChecked? ==>
              (r.comparison.Covers? <==>
                 None !in paramFrequencies && forall x :: Some(x) in paramFrequencies <==> x in Listed(root.value))
  {
    if root.Some? {
      CoversIff(root.value, paramFrequencies);
    }
  }

  /** The root set equals the parameters' set iff no parameter lacks a frequency and they use exactly the listed values. */
  lemma CoversIff(root: RootFrequencies, paramFrequencies: seq<Option<real>>)
    ensures RootSet(root) == ParamsSet(paramFrequencies) <==>
              None !in paramFrequencies && forall x :: Some(x) in paramFrequencies <==> x in Listed(root)
  {
    var rs, ps := RootSet(root), ParamsSet(paramFrequencies);
    if None !in paramFrequencies && forall x :: Some(x) in paramFrequencies <==> x in Listed(root) {
      forall o | o in rs ensures o in ps { }
      forall o | o in ps ensures o in rs {
        assert o in paramFrequencies && o.Some?;
      }
    }
  }

  /** The levels validate_frequencies_attribute logs, in order. */
  function FrequenciesLevels(root: Option<RootFrequencies>): seq<int>
  {
    if root.None? then [INFO, INFO]
    else if root.value.IsContainer() then
      [INFO, INFO] + NonFloatErrors(root.value.items)
      + (if FloatCount(root.value.items) == |root.value.items| then [INFO] else [ERROR]) + [INFO]
    else if root.value.item.isFloat then [INFO, INFO, INFO, INFO]
    else [INFO, INFO, ERROR]
  }

  /**
   * validate_frequencies_attribute: walks the listed values counting floats
   * and logging an error for each other value, then compares the root set
   * with the parameters' frequencies.
   */
  method ValidateFrequenciesAttribute(root: Option<RootFrequencies>, paramFrequencies: seq<Option<real>>)
    returns (levels: seq<int>, report: FrequenciesReport)
    ensures report == FrequenciesOutcome(root, paramFrequencies)
    ensures levels == FrequenciesLevels(root)
  {
    levels := [INFO];
    if root.None? {
      levels := levels + [INFO];
      return levels, FrequenciesAbsent;
    }
    levels := levels + [INFO];
    var r := root.value;
    var rootFreq: set<Option<real>>;
    var nonFloats := 0;
    if r.IsContainer() {
      var floatCount := 0;
      rootFreq := RootSet(r);
      var i := 0;
      while i < |r.items|
        invariant 0 <= i <= |r.items|
        invariant floatCount == FloatCount(r.items[..i])
        invariant levels == [INFO, INFO] + NonFloatErrors(r.items[..i])
      {
        assert r.items[..i + 1][..i] == r.items[..i];
        if r.items[i].isFloat {
          floatCount := floatCount + 1;
        } else {
          levels := levels + [ERROR];
        }
        i := i + 1;
      }
      assert r.items[..i] == r.items;
      if floatCount == |r.items| {
        levels := levels + [INFO];
      } else {
        levels := levels + [ERROR];
      }
      nonFloats := |r.items| - floatCount;
    } else if r.item.isFloat {
      levels := levels + [INFO];
      rootFreq := RootSet(r);
    } else {
      levels := levels + [ERROR];
      return levels, RootFrequenciesUnbound;
    }
    var paramsFreq := ParamsSet(paramFrequencies);
    levels := levels + [INFO];
    report := FrequenciesChecked(nonFloats, CompareFrequencies(rootFreq, paramsFreq));
  }

  /**
   * The frequencies check counts one error per non-float value plus one
   * summary error when there is any, one error for a non-float scalar, and
   * none otherwise; it never warns.
   */
  lemma FrequenciesErrors(root: Option<RootFrequencies>, paramFrequencies: seq<Option<real>>)
    ensures var n := ErrorsIn(FrequenciesLevels(root));
            match FrequenciesOutcome(root, paramFrequencies)
            case FrequenciesAbsent => n == 0
            case FrequenciesChecked(nonFloats, _) => n == nonFloats + (if nonFloats > 0 then 1 else 0)
            case RootFrequenciesUnbound => n == 1
    ensures WarningsIn(FrequenciesLevels(root)) == 0
  {
    if root.Some? && root.value.IsContainer() {
      var items := root.value.items;
      var tail := if FloatCount(items) == |items| then [INFO] else [ERROR];
      NonFloatErrorsCount(items);
      NonFloatWarningsZero(items);
      ErrorsInConcat([INFO, INFO], NonFloatErrors(items));
      ErrorsInConcat([INFO, INFO] + NonFloatErrors(items), tail);
      ErrorsInConcat([INFO, INFO] + NonFloatErrors(items) + tail, [INFO]);
      WarningsInConcat([INFO, INFO], NonFloatErrors(items));
      WarningsInConcat([INFO, INFO] + NonFloatErrors(items), tail);
      WarningsInConcat([INFO, INFO] + NonFloatErrors(items) + tail, [INFO]);
    } else if root.Some? && root.value.item.isFloat {
      ErrorsInConcat([INFO, INFO], [INFO, INFO]);
      WarningsInConcat([INFO, INFO], [INFO, INFO]);
    } else if root.Some? {
      ErrorsInConcat([INFO, INFO], [ERROR]);
      WarningsInConcat([INFO, INFO], [ERROR]);
    }
  }

  lemma {:induction false} NonFloatWarningsZero(items: seq<FreqValue>)
    ensures WarningsIn(NonFloatErrors(items)) == 0
  {
    if items != [] {
      var front := items[..|items| - 1];
      NonFloatWarningsZero(front);
      WarningsInConcat(NonFloatErrors(front), if items[|items| - 1].isFloat then [] else [ERROR]);
    }
  }

  /** A list of floats that matches the parameters exactly is accepted without errors. */
  lemma FloatListCovers()
    ensures FrequenciesOutcome(Some(ListOf([FreqValue(1.0, true), FreqValue(4.0, true)])), [Some(4.0), Some(1.0), Some(4.0)])
            == FrequenciesChecked(0, Covers)
  {
    var root := ListOf([FreqValue(1.0, true), FreqValue(4.0, true)]);
    assert Listed(root) == {1.0, 4.0};
    assert RootSet(root) == {Some(1.0), Some(4.0)};
    assert ParamsSet([Some(4.0), Some(1.0), Some(4.0)]) == {Some(1.0), Some(4.0)};
  }
}
