/**
 * expected_size_check: a parameter's array must hold duration * frequency
 * samples once the duration is padded up to the next frame boundary (4
 * seconds) or, when superframes are present, superframe boundary (64 seconds).
 *
 * The duration is a whole number of seconds and the frequency an exact
 * rational (`real`), so the rounding of Python floats is not modelled.
 */
module Sizes {
  import opened Wrappers
  import opened Logging

  /** Seconds per frame boundary: 64 with superframes, 4 otherwise. */
  function Boundary(superframePresent: bool): (b: nat)
    ensures b > 0
  {
    if superframePresent then 64 else 4
  }

  /** Python's int() of a float: truncation toward zero. */
  function Truncate(x: real): (t: int)
    ensures 0.0 <= x ==> t as real <= x < t as real + 1.0
    ensures x < 0.0 ==> t as real - 1.0 < x <= t as real
  {
    if x >= 0.0 then x.Floor else -((-x).Floor)
  }

  /** math.ceil(duration / boundary) for a whole number of seconds. */
  function CeilDiv(duration: nat, boundary: nat): (c: nat)
    requires boundary > 0
    ensures (c - 1) * boundary < duration <= c * boundary
  {
    if duration % boundary == 0 then duration / boundary else duration / boundary + 1
  }

  /** ceil(duration / boundary) * boundary: the duration padded up to the next boundary. */
  function AlignedDuration(duration: nat, boundary: nat): nat
    requires boundary > 0
  {
    CeilDiv(duration, boundary) * boundary
  }

  /** The aligned duration is a whole number of boundaries, at least the duration and less than one boundary more. */
  lemma AlignedDurationBounds(duration: nat, boundary: nat)
    requires boundary > 0
    ensures AlignedDuration(duration, boundary) % boundary == 0
    ensures duration <= AlignedDuration(duration, boundary) < duration + boundary
  {
    var c := CeilDiv(duration, boundary);
    assert (c - 1) * boundary == c * boundary - boundary;
    MultipleMod(c, boundary);
  }

  lemma MultipleMod(c: nat, b: nat)
    requires b > 0
    ensures (c * b) % b == 0
  {
    var q, r := (c * b) / b, (c * b) % b;
    var d := c - q;
    assert d * b == r;
    if d >= 1 {
      MultiplyAtLeast(d, b);
    } else if d <= -1 {
      assert d * b == -((-d) * b);
      MultiplyAtLeast(-d, b);
    }
    assert d == 0;
  }

  lemma MultiplyAtLeast(m: int, b: nat)
    requires m >= 1
    ensures m * b >= b
  {
    assert m * b == (m - 1) * b + b;
  }

  /** `if duration:` and `if frequency:` in Python: set and not zero. */
  predicate Truthy(x: Option<real>) { x.Some? && x.value != 0.0 }

  predicate TruthyDuration(x: Option<nat>) { x.Some? && x.value != 0 }

  /** The frame-aligned number of samples expected: ceil(duration / boundary) * boundary * frequency. */
  function ExpectedDataSize(superframePresent: bool, duration: nat, frequency: real): real
  {
    AlignedDuration(duration, Boundary(superframePresent)) as real * frequency
  }

  datatype SizeReport =
    | NotEnoughInformation
    | SizeAsExpected(expected: int)
    | SizeMismatch(expected: int, padding: int)   // padding: the extra masked samples needed

  /**
   * expected_size_check. Without a (non-zero) duration and frequency it
   * reports an error and compares nothing; otherwise it compares the exact
   * expected size with the array size and reports the padding still needed.
   */
  function ExpectedSizeCheck(superframePresent: bool, duration: Option<nat>, frequency: Option<real>, size: nat): (r: SizeReport)
    ensures r.NotEnoughInformation? <==> !(TruthyDuration(duration) && Truthy(frequency))
    ensures !r.NotEnoughInformation? ==>
              r.expected == Truncate(ExpectedDataSize(superframePresent, duration.value, frequency.value))
    ensures r.SizeMismatch? <==>
              TruthyDuration(duration) && Truthy(frequency)
              && ExpectedDataSize(superframePresent, duration.value, frequency.value) != size as real
    ensures r.SizeMismatch? ==> r.padding == r.expected - size
  {
    if TruthyDuration(duration) && Truthy(frequency) then
      var expected := ExpectedDataSize(superframePresent, duration.value, frequency.value);
      if expected != size as real then SizeMismatch(Truncate(expected), Truncate(expected) - size)
      else SizeAsExpected(Truncate(expected))
    else NotEnoughInformation
  }

  /** The levels logged by expected_size_check. */
  function ExpectedSizeLevels(r: SizeReport): seq<int>
  {
    [INFO] + match r
             case NotEnoughInformation => [ERROR]
             case SizeAsExpected(_) => [INFO, DEBUG, INFO]
             case SizeMismatch(_, _) => [INFO, DEBUG, ERROR]
  }

  /** The size check counts one error exactly when it cannot compute the size or the size is wrong. */
  lemma ExpectedSizeErrors(r: SizeReport)
    ensures ErrorsIn(ExpectedSizeLevels(r)) == if r.SizeAsExpected? then 0 else 1
  {
    match r
    case NotEnoughInformation =>
    case SizeAsExpected(_) => ErrorsInConcat([INFO, INFO], [DEBUG, INFO]);
    case SizeMismatch(_, _) => ErrorsInConcat([INFO, INFO], [DEBUG, ERROR]);
  }

  /** With a whole frequency the expected size is exact: a multiple of boundary * frequency. */
  lemma WholeExpectedSize(superframePresent: bool, duration: nat, frequency: nat, size: nat)
    requires duration != 0 && frequency != 0
    ensures var r := ExpectedSizeCheck(superframePresent, Some(duration), Some(frequency as real), size);
            && r.expected as real == ExpectedDataSize(superframePresent, duration, frequency as real)
            && r.expected % (Boundary(superframePresent) * frequency) == 0
  {
    var b := Boundary(superframePresent);
    var c := CeilDiv(duration, b);
    AlignedProduct(c, b, frequency);
    var e := c * (b * frequency);
    assert ExpectedDataSize(superframePresent, duration, frequency as real) == e as real;
    assert Truncate(e as real) == e;
  }

  /** c boundaries of b seconds at f Hz: the same whole number as reals, and a multiple of b * f. */
  lemma AlignedProduct(c: nat, b: nat, f: nat)
    requires b > 0 && f > 0
    ensures ((c * b) as real) * (f as real) == (c * (b * f)) as real
    ensures (c * (b * f)) % (b * f) == 0
  {
    assert c * b * f == c * (b * f);
    MultipleMod(c, b * f);
  }

  /** Ten seconds without superframes at 1 Hz needs 12 samples: a 10-sample array lacks 2. */
  lemma TenSecondsAtOneHertz()
    ensures ExpectedSizeCheck(false, Some(10), Some(1.0), 10) == SizeMismatch(12, 2)
  {
  }

  /** 100 seconds with superframes at 4 Hz needs two superframes: 512 samples. */
  lemma HundredSecondsWithSuperframes()
    ensures ExpectedSizeCheck(true, Some(100), Some(4.0), 512) == SizeAsExpected(512)
  {
  }
}
