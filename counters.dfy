/**
 * Reliability of the 'Frame Counter' and 'Subframe Counter' parameters, and
 * the check of the root attributes that record it (reliable_frame_counter,
 * reliable_subframe_counter).
 *
 * A counter is a masked integer array: each sample is `Some(v)` or `None`
 * (masked). A difference of two neighbours is masked when either is.
 */
module Counters {
  import opened Wrappers
  import opened Logging

  type Samples = seq<Option<int>>

  /** Largest value of a 12-bit frame counter; it wraps from here to 0. */
  const FRAME_COUNTER_MAX: int := 4095

  /** Differences of neighbouring samples (numpy.ma.diff). */
  function Diff(s: Samples): (d: Samples)
    ensures |d| == if |s| == 0 then 0 else |s| - 1
    ensures forall i :: 0 <= i < |d| ==> (d[i].Some? <==> s[i].Some? && s[i + 1].Some?)
    ensures forall i :: 0 <= i < |d| && d[i].Some? ==> d[i].value == s[i + 1].value - s[i].value
  {
    if |s| <= 1 then []
    else seq(|s| - 1, i requires 0 <= i < |s| - 1 =>
               if s[i].Some? && s[i + 1].Some? then Some(s[i + 1].value - s[i].value) else None)
  }

  /** Unmasked samples lying outside [lo, hi]: masked_inside(s, lo, hi).count(). */
  function CountOutside(s: Samples, lo: int, hi: int): (n: nat)
    ensures n <= |s|
  {
    if s == [] then 0
    else (if s[0].Some? && !(lo <= s[0].value <= hi) then 1 else 0) + CountOutside(s[1..], lo, hi)
  }

  /** Unmasked samples whose value is not in `allowed`: the count left after masked_equal on each. */
  function CountOtherThan(s: Samples, allowed: set<int>): (n: nat)
    ensures n <= |s|
  {
    if s == [] then 0
    else (if s[0].Some? && s[0].value !in allowed then 1 else 0) + CountOtherThan(s[1..], allowed)
  }

  lemma {:induction false} CountOutsideZero(s: Samples, lo: int, hi: int)
    ensures CountOutside(s, lo, hi) == 0 <==> forall i :: 0 <= i < |s| && s[i].Some? ==> lo <= s[i].value <= hi
  {
    if s != [] {
      CountOutsideZero(s[1..], lo, hi);
      assert forall i :: 1 <= i < |s| ==> s[i] == s[1..][i - 1];
    }
  }

  lemma {:induction false} CountOtherThanZero(s: Samples, allowed: set<int>)
    ensures CountOtherThan(s, allowed) == 0 <==> forall i :: 0 <= i < |s| && s[i].Some? ==> s[i].value in allowed
  {
    if s != [] {
      CountOtherThanZero(s[1..], allowed);
      assert forall i :: 1 <= i < |s| ==> s[i] == s[1..][i - 1];
    }
  }

  /** Every unmasked value of the counter lies in [0, 4095]. */
  ghost predicate InRange(s: Samples) {
    forall i :: 0 <= i < |s| && s[i].Some? ==> 0 <= s[i].value <= FRAME_COUNTER_MAX
  }

  /** Every step between two unmasked neighbours is +1, or -4095 (the wrap from 4095 to 0). */
  ghost predicate CountsUp(s: Samples) {
    forall i :: 0 <= i < |s| - 1 && s[i].Some? && s[i + 1].Some? ==>
      s[i + 1].value - s[i].value in {1, -FRAME_COUNTER_MAX}
  }

  /**
   * is_reliable_frame_counter: `fc` is the 'Frame Counter' array, `None` when
   * the parameter is absent. The counter is reliable iff it exists, stays in
   * range and only counts up by one (with wrap).
   */
  function IsReliableFrameCounter(fc: Option<Samples>): (r: bool)
    ensures r <==> fc.Some? && InRange(fc.value) && CountsUp(fc.value)
  {
    if fc.None? then false
    else
      FrameCounterReliableIff(fc.value);
      CountOutside(fc.value, 0, FRAME_COUNTER_MAX) == 0
      && CountOtherThan(Diff(fc.value), {1, -FRAME_COUNTER_MAX}) == 0
  }

  /** The two masked counts are zero iff the samples stay in range and only count up by one (with wrap). */
  lemma FrameCounterReliableIff(s: Samples)
    ensures (CountOutside(s, 0, FRAME_COUNTER_MAX) == 0 && CountOtherThan(Diff(s), {1, -FRAME_COUNTER_MAX}) == 0)
            <==> InRange(s) && CountsUp(s)
  {
    var d := Diff(s);
    CountOutsideZero(s, 0, FRAME_COUNTER_MAX);
    CountOtherThanZero(d, {1, -FRAME_COUNTER_MAX});
    if CountOtherThan(d, {1, -FRAME_COUNTER_MAX}) == 0 {
      forall i | 0 <= i < |s| - 1 && s[i].Some? && s[i + 1].Some?
        ensures s[i + 1].value - s[i].value in {1, -FRAME_COUNTER_MAX}
      {
        assert d[i].Some?;
      }
    }
    if CountsUp(s) {
      forall i | 0 <= i < |d| && d[i].Some?
        ensures d[i].value in {1, -FRAME_COUNTER_MAX}
      {
        assert s[i].Some? && s[i + 1].Some?;
      }
    }
  }

  /** A present frame counter of at most one sample is reliable when in range. */
  lemma ShortFrameCounterReliable(s: Samples)
    requires |s| <= 1 && InRange(s)
    ensures IsReliableFrameCounter(Some(s))
  {
  }

  /** A frame counter holding an unmasked value outside [0, 4095] is never reliable. */
  lemma OutOfRangeUnreliable(s: Samples, i: nat)
    requires i < |s| && s[i].Some? && (s[i].value < 0 || s[i].value > FRAME_COUNTER_MAX)
    ensures !IsReliableFrameCounter(Some(s))
  {
  }

  /** Unmasked steps of the subframe counter that are not +1. */
  function IrregularSubframeSteps(s: Samples): (n: nat)
    ensures n <= |Diff(s)|
  {
    CountOtherThan(Diff(s), {1})
  }

  /**
   * is_reliable_subframe_counter, reading `len(sfc.array) / 4095` as Python 3
   * true division: fewer irregular steps than one per 4095 samples, that is,
   * the integer comparison count * 4095 < len.
   */
  function IsReliableSubframeCounter(sfc: Option<Samples>): (r: bool)
    ensures r <==> sfc.Some? && IrregularSubframeSteps(sfc.value) * 4095 < |sfc.value|
  {
    if sfc.None? then false
    else
      var c := IrregularSubframeSteps(sfc.value) as real;
      var n := |sfc.value| as real;
      assert c < n / 4095.0 <==> c * 4095.0 < n;
      c < n / 4095.0
  }

  /**
   * The same test read with Python 2 floor division of the two integers: it
   * passes exactly when one more irregular step would still fit in a whole
   * 4095 samples per step. It is stricter: it passes only counters the
   * true-division test passes, and none shorter than 4095 samples.
   */
  function IsReliableSubframeCounterFloorDivision(sfc: Option<Samples>): (r: bool)
    ensures r <==> sfc.Some? && (IrregularSubframeSteps(sfc.value) + 1) * 4095 <= |sfc.value|
    ensures r ==> IsReliableSubframeCounter(sfc)
    ensures sfc.Some? && |sfc.value| < 4095 ==> !r
  {
    if sfc.None? then false
    else
      var c := IrregularSubframeSteps(sfc.value);
      var n := |sfc.value|;
      var q := n / 4095;
      assert n == q * 4095 + n % 4095 && 0 <= n % 4095 < 4095;
      assert c < q <==> (c + 1) * 4095 <= n;
      c < n / 4095
  }

  /**
   * A subframe counter of 1 to 4095 samples is reliable iff every step between
   * unmasked neighbours is +1; an empty one is never reliable.
   */
  lemma ShortSubframeCounter(s: Samples)
    requires |s| <= 4095
    ensures IsReliableSubframeCounter(Some(s)) <==>
            |s| > 0 && forall i :: 0 <= i < |s| - 1 && s[i].Some? && s[i + 1].Some? ==> s[i + 1].value - s[i].value == 1
  {
    var d := Diff(s);
    CountOtherThanZero(d, {1});
    if CountOtherThan(d, {1}) == 0 {
      forall i | 0 <= i < |s| - 1 && s[i].Some? && s[i + 1].Some?
        ensures s[i + 1].value - s[i].value == 1
      {
        assert d[i].Some?;
      }
    }
    if forall i :: 0 <= i < |s| - 1 && s[i].Some? && s[i + 1].Some? ==> s[i + 1].value - s[i].value == 1 {
      forall i | 0 <= i < |d| && d[i].Some?
        ensures d[i].value in {1}
      {
        assert s[i].Some? && s[i + 1].Some?;
      }
    }
  }

  // ---------------------------------------------------------------------------
  // validate_reliable_frame_counter_attribute / validate_reliable_subframe_counter_attribute

  /** A counter root attribute: absent, or present with its truth value and whether it is a bool. */
  datatype Attribute = AttributeAbsent | AttributePresent(truthy: bool, isBool: bool)

  /** The six cases the validator distinguishes between the counter parameter and the attribute. */
  datatype Agreement =
    | PresentReliableMarked | PresentReliableUnmarked
    | PresentUnreliableMarked | PresentUnreliableUnmarked
    | AbsentMarked | AbsentUnmarked
  {
    predicate ParameterExists() { !(AbsentMarked? || AbsentUnmarked?) }
    predicate Reliable() { PresentReliableMarked? || PresentReliableUnmarked? }
    predicate Marked() { PresentReliableMarked? || PresentUnreliableMarked? || AbsentMarked? }
  }

  datatype CounterAttributeReport =
    | AttributeMissing
    | AttributeChecked(agreement: Agreement, wrongType: bool)

  /** The decision of the reliable-counter attribute check, from the counter's state and the attribute. */
  function CounterAttributeCheck(parameterExists: bool, reliable: bool, attribute: Attribute): (r: CounterAttributeReport)
    ensures r.AttributeMissing? <==> attribute.AttributeAbsent?
    ensures r.AttributeChecked? ==>
              && r.agreement.ParameterExists() == parameterExists
              && r.agreement.Marked() == attribute.truthy
              && (parameterExists ==> r.agreement.Reliable() == reliable)
              && r.wrongType == !attribute.isBool
  {
    match attribute
    case AttributeAbsent => AttributeMissing
    case AttributePresent(value, isBool) =>
      var agreement :=
        if parameterExists && reliable && value then PresentReliableMarked
        else if parameterExists && reliable then PresentReliableUnmarked
        else if parameterExists && value then PresentUnreliableMarked
        else if parameterExists then PresentUnreliableUnmarked
        else if value then AbsentMarked
        else AbsentUnmarked;
      AttributeChecked(agreement, !isBool)
  }

  /** The levels logged for a counter attribute report. */
  function CounterAttributeLevels(r: CounterAttributeReport): seq<int>
  {
    match r
    case AttributeMissing => [INFO, ERROR]
    case AttributeChecked(_, wrongType) => [INFO, INFO, INFO] + (if wrongType then [ERROR] else [])
  }

  /** One error is logged iff the attribute is missing or is not a bool; none otherwise. */
  lemma CounterAttributeErrors(parameterExists: bool, reliable: bool, attribute: Attribute)
    ensures ErrorsIn(CounterAttributeLevels(CounterAttributeCheck(parameterExists, reliable, attribute))) ==
            if attribute.AttributeAbsent? || !attribute.isBool then 1 else 0
  {
    if attribute.AttributePresent? {
      ErrorsInZero([INFO, INFO, INFO]);
      ErrorsInConcat([INFO, INFO, INFO], if !attribute.isBool then [ERROR] else []);
    } else {
      ErrorsInConcat([INFO], [ERROR]);
    }
  }

  /**
   * validate_reliable_frame_counter_attribute: the attribute is missing iff it
   * is absent; otherwise the report says whether 'Frame Counter' exists,
   * whether the attribute marks it reliable, and, for an existing counter,
   * whether it really is reliable.
   */
  function FrameCounterAttributeCheck(fc: Option<Samples>, attribute: Attribute): (r: CounterAttributeReport)
    ensures r.AttributeMissing? <==> attribute.AttributeAbsent?
    ensures r.AttributeChecked? ==>
              && r.agreement.ParameterExists() == fc.Some?
              && r.agreement.Marked() == attribute.truthy
              && r.wrongType == !attribute.isBool
    ensures r.AttributeChecked? && fc.Some? ==>
              (r.agreement.Reliable() <==> InRange(fc.value) && CountsUp(fc.value))
  {
    CounterAttributeCheck(fc.Some?, IsReliableFrameCounter(fc), attribute)
  }

  /** validate_reliable_subframe_counter_attribute, the same decision over the subframe counter's test. */
  function SubframeCounterAttributeCheck(sfc: Option<Samples>, attribute: Attribute): (r: CounterAttributeReport)
    ensures r.AttributeMissing? <==> attribute.AttributeAbsent?
    ensures r.AttributeChecked? ==>
              && r.agreement.ParameterExists() == sfc.Some?
              && r.agreement.Marked() == attribute.truthy
              && r.wrongType == !attribute.isBool
    ensures r.AttributeChecked? && sfc.Some? ==>
              (r.agreement.Reliable() <==> IrregularSubframeSteps(sfc.value) * 4095 < |sfc.value|)
  {
    CounterAttributeCheck(sfc.Some?, IsReliableSubframeCounter(sfc), attribute)
  }
}
