/**
 * Downsampling of a parameter series for display, as fixed by the
 * downsample tests: the series is cut into width / 2 equal buckets and each
 * bucket contributes two output slots. Numeric data keeps the bucket's
 * minimum and maximum in the order they occur; labels (and integer codes
 * read through their values mapping) keep the bucket's most common label in
 * both slots. A masked sample is `None`; a bucket with no unmasked sample
 * yields two masked slots.
 *
 * Only series whose length is a multiple of the bucket count are modelled,
 * and ties (equal extremes, equally common labels) go to the earliest sample.
 */
module Downsampling {
  import opened Wrappers

  /** Some sample of b[..n] is unmasked. */
  predicate HasValue<T>(b: seq<Option<T>>, n: nat)
    requires n <= |b|
  {
    exists k :: 0 <= k < n && b[k].Some?
  }

  /**
   * The earliest unmasked sample of b[..n] whose score is the largest:
   * no unmasked sample scores more, and every earlier one scores less.
   */
  function Best<T>(b: seq<Option<T>>, score: T -> int, n: nat): (r: nat)
    requires n <= |b| && HasValue(b, n)
    ensures r < n && b[r].Some?
    ensures forall k :: 0 <= k < n && b[k].Some? ==> score(b[k].value) <= score(b[r].value)
    ensures forall k :: 0 <= k < r && b[k].Some? ==> score(b[k].value) < score(b[r].value)
    decreases n
  {
    if !HasValue(b, n - 1) then n - 1
    else
      var r := Best(b, score, n - 1);
      if b[n - 1].Some? && score(b[n - 1].value) > score(b[r].value) then n - 1 else r
  }

  // ---------------------------------------------------------------------------
  // Numeric buckets: minimum and maximum in order of occurrence
  // ---------------------------------------------------------------------------

  /** v is no larger than any unmasked sample of b. */
  predicate IsMin(b: seq<Option<int>>, v: int)
  {
    forall k :: 0 <= k < |b| && b[k].Some? ==> v <= b[k].value
  }

  /** v is no smaller than any unmasked sample of b. */
  predicate IsMax(b: seq<Option<int>>, v: int)
  {
    forall k :: 0 <= k < |b| && b[k].Some? ==> b[k].value <= v
  }

  /** The earliest index of a minimal unmasked sample. */
  function ArgMin(b: seq<Option<int>>): nat
    requires HasValue(b, |b|)
  {
    Best(b, x => -x, |b|)
  }

  /** The earliest index of a maximal unmasked sample. */
  function ArgMax(b: seq<Option<int>>): nat
    requires HasValue(b, |b|)
  {
    Best(b, x => x, |b|)
  }

  /**
   * The two slots of a numeric bucket: its minimum and maximum, the one that
   * occurs first placed first; two masked slots when every sample is masked.
   */
  function MinMaxBucket(b: seq<Option<int>>): (r: seq<Option<int>>)
    ensures |r| == 2
    ensures r == [None, None] <==> !HasValue(b, |b|)
    ensures HasValue(b, |b|) ==>
              exists i, j :: 0 <= i <= j < |b| && b[i] == r[0] && b[j] == r[1]
    ensures HasValue(b, |b|) ==>
              r[0].Some? && r[1].Some?
              && ((IsMin(b, r[0].value) && IsMax(b, r[1].value)) || (IsMax(b, r[0].value) && IsMin(b, r[1].value)))
  {
    if !HasValue(b, |b|) then [None, None]
    else
      var lo, hi := ArgMin(b), ArgMax(b);
      assert forall k :: 0 <= k < |b| && b[k].Some? ==> -b[k].value <= -b[lo].value;
      if lo <= hi then [b[lo], b[hi]] else [b[hi], b[lo]]
  }

  /** A bucket of unmasked samples in strictly increasing or strictly decreasing order. */
  predicate Monotone(b: seq<Option<int>>)
  {
    && (forall k :: 0 <= k < |b| ==> b[k].Some?)
    && ((forall k :: 0 < k < |b| ==> b[k - 1].value < b[k].value)
        || (forall k :: 0 < k < |b| ==> b[k - 1].value > b[k].value))
  }

  /** A monotone bucket keeps its first and its last sample, in that order. */
  lemma MonotoneBucket(b: seq<Option<int>>)
    requires |b| > 0 && Monotone(b)
    ensures MinMaxBucket(b) == [b[0], b[|b| - 1]]
  {
    assert b[0].Some?;
    MonotonePair(b, MinMaxBucket(b));
  }

  /** Two extremes of a monotone bucket, taken in order of occurrence, are its first and last samples. */
  lemma MonotonePair(b: seq<Option<int>>, r: seq<Option<int>>)
    requires |b| > 0 && Monotone(b) && |r| == 2
    requires exists i, j :: 0 <= i <= j < |b| && b[i] == r[0] && b[j] == r[1]
    requires r[0].Some? && r[1].Some?
    requires (IsMin(b, r[0].value) && IsMax(b, r[1].value)) || (IsMax(b, r[0].value) && IsMin(b, r[1].value))
    ensures r == [b[0], b[|b| - 1]]
  {
    var i, j :| 0 <= i <= j < |b| && b[i] == r[0] && b[j] == r[1];
    MonotoneExtremes(b);
  }

  /** In a monotone bucket only the first and the last sample can be extremes. */
  lemma MonotoneExtremes(b: seq<Option<int>>)
    requires |b| > 0 && Monotone(b)
    ensures forall i :: 0 < i < |b| - 1 ==> !IsMin(b, b[i].value) && !IsMax(b, b[i].value)
    ensures (IsMin(b, b[0].value) && IsMax(b, b[|b| - 1].value)) || (IsMax(b, b[0].value) && IsMin(b, b[|b| - 1].value))
    ensures |b| > 1 ==> !(IsMin(b, b[0].value) && IsMax(b, b[0].value))
    ensures |b| > 1 ==> !(IsMin(b, b[|b| - 1].value) && IsMax(b, b[|b| - 1].value))
  {
    if forall k :: 0 < k < |b| ==> b[k - 1].value < b[k].value {
      IncreasingBetween(b);
      OrderedExtremes(b, true);
    } else {
      DecreasingBetween(b);
      OrderedExtremes(b, false);
    }
  }

  lemma OrderedExtremes(b: seq<Option<int>>, up: bool)
    requires |b| > 0 && forall k :: 0 <= k < |b| ==> b[k].Some?
    requires up ==> forall i, j :: 0 <= i < j < |b| ==> b[i].value < b[j].value
    requires !up ==> forall i, j :: 0 <= i < j < |b| ==> b[i].value > b[j].value
    ensures forall i :: 0 < i < |b| - 1 ==> !IsMin(b, b[i].value) && !IsMax(b, b[i].value)
    ensures up ==> IsMin(b, b[0].value) && IsMax(b, b[|b| - 1].value)
    ensures !up ==> IsMax(b, b[0].value) && IsMin(b, b[|b| - 1].value)
    ensures |b| > 1 ==> !(IsMin(b, b[0].value) && IsMax(b, b[0].value))
    ensures |b| > 1 ==> !(IsMin(b, b[|b| - 1].value) && IsMax(b, b[|b| - 1].value))
  {
    var last := |b| - 1;
    forall i | 0 < i < last ensures !IsMin(b, b[i].value) && !IsMax(b, b[i].value) {
      assert b[0].value != b[i].value && b[i].value != b[last].value;
    }
    if last > 0 {
      assert b[0].value != b[last].value;
    }
  }

  lemma IncreasingBetween(b: seq<Option<int>>)
    requires forall k :: 0 <= k < |b| ==> b[k].Some?
    requires forall k :: 0 < k < |b| ==> b[k - 1].value < b[k].value
    ensures forall i, j :: 0 <= i < j < |b| ==> b[i].value < b[j].value
  {
    forall i, j | 0 <= i < j < |b| ensures b[i].value < b[j].value {
      var k := i + 1;
      while k < j
        invariant i < k <= j
        invariant b[i].value < b[k].value
      {
        k := k + 1;
      }
    }
  }

  lemma DecreasingBetween(b: seq<Option<int>>)
    requires forall k :: 0 <= k < |b| ==> b[k].Some?
    requires forall k :: 0 < k < |b| ==> b[k - 1].value > b[k].value
    ensures forall i, j :: 0 <= i < j < |b| ==> b[i].value > b[j].value
  {
    forall i, j | 0 <= i < j < |b| ensures b[i].value > b[j].value {
      var k := i + 1;
      while k < j
        invariant i < k <= j
        invariant b[i].value > b[k].value
      {
        k := k + 1;
      }
    }
  }

  // ---------------------------------------------------------------------------
  // Categorical buckets: the most common label
  // ---------------------------------------------------------------------------

  /** How many samples of b are the unmasked value x. */
  function Occurrences<T(==)>(b: seq<Option<T>>, x: T): (n: nat)
    ensures n <= |b|
    ensures n > 0 <==> Some(x) in b
  {
    if b == [] then 0 else (if b[0] == Some(x) then 1 else 0) + Occurrences(b[1..], x)
  }

  lemma {:induction false} OccurrencesConcat<T>(a: seq<Option<T>>, b: seq<Option<T>>, x: T)
    ensures Occurrences(a + b, x) == Occurrences(a, x) + Occurrences(b, x)
  {
    if a == [] {
      assert a + b == b;
    } else {
      assert (a + b)[1..] == a[1..] + b;
      OccurrencesConcat(a[1..], b, x);
    }
  }

  /**
   * The most common unmasked value of b: no value occurs more often, and
   * every value met earlier in b occurs less often.
   */
  function MostCommon<T(==)>(b: seq<Option<T>>): (m: T)
    requires HasValue(b, |b|)
    ensures Some(m) in b
    ensures forall k :: 0 <= k < |b| && b[k].Some? ==> Occurrences(b, b[k].value) <= Occurrences(b, m)
    ensures exists r :: 0 <= r < |b| && b[r] == Some(m)
                        && forall k :: 0 <= k < r && b[k].Some? ==> Occurrences(b, b[k].value) < Occurrences(b, m)
  {
    var r := Best(b, x => Occurrences(b, x), |b|);
    assert b[r] == Some(b[r].value);
    b[r].value
  }

  /** The two slots of a categorical bucket: its most common label twice, or two masked slots. */
  function ModeBucket<T(==)>(b: seq<Option<T>>): (r: seq<Option<T>>)
    ensures |r| == 2 && r[0] == r[1]
    ensures r[0].None? <==> !HasValue(b, |b|)
    ensures r[0].Some? ==> Some(r[0].value) in b
                           && forall k :: 0 <= k < |b| && b[k].Some? ==> Occurrences(b, b[k].value) <= Occurrences(b, r[0].value)
  {
    if HasValue(b, |b|) then [Some(MostCommon(b)), Some(MostCommon(b))] else [None, None]
  }

  /** A value that occurs more often than any other is the mode. */
  lemma UniqueMode<T>(b: seq<Option<T>>, x: T)
    requires forall k :: 0 <= k < |b| && b[k].Some? && b[k].value != x ==> Occurrences(b, b[k].value) < Occurrences(b, x)
    requires Some(x) in b
    ensures ModeBucket(b) == [Some(x), Some(x)]
  {
    var k :| 0 <= k < |b| && b[k] == Some(x);
    assert HasValue(b, |b|);
    var m := MostCommon(b);
    var i :| 0 <= i < |b| && b[i] == Some(m);
    assert Occurrences(b, b[k].value) <= Occurrences(b, m);
  }

  // ---------------------------------------------------------------------------
  // Buckets and series
  // ---------------------------------------------------------------------------

  /** All of the chunks, one after the other. */
  function Flatten<T>(cs: seq<seq<T>>): seq<T>
  {
    if cs == [] then [] else cs[0] + Flatten(cs[1..])
  }

  /** s cut into n consecutive chunks of m samples. */
  function Chunks<T>(s: seq<T>, n: nat, m: nat): (cs: seq<seq<T>>)
    requires |s| == n * m
    ensures |cs| == n
    ensures forall j :: 0 <= j < n ==> |cs[j]| == m
    ensures Flatten(cs) == s
    decreases n
  {
    if n == 0 then []
    else
      assert |s[m..]| == (n - 1) * m;
      var rest := Chunks(s[m..], n - 1, m);
      assert ([s[..m]] + rest)[1..] == rest;
      [s[..m]] + rest
  }

  /** Integer codes replaced by their labels; a masked code stays masked. */
  function MapCodes(codes: seq<Option<int>>, mapping: map<int, string>): (labels: seq<Option<string>>)
    requires forall k :: 0 <= k < |codes| && codes[k].Some? ==> codes[k].value in mapping
    ensures |labels| == |codes|
    ensures forall k :: 0 <= k < |codes| ==>
              labels[k] == if codes[k].Some? then Some(mapping[codes[k].value]) else None
  {
    seq(|codes|, k requires 0 <= k < |codes| => if codes[k].Some? then Some(mapping[codes[k].value]) else None)
  }

  /** A series to downsample: numbers, labels, or codes with their values mapping. */
  datatype Series =
    | Numbers(numbers: seq<Option<int>>)
    | Labels(labels: seq<Option<string>>)
    | Codes(codes: seq<Option<int>>, mapping: map<int, string>)
  {
    function Length(): nat
    {
      match this
      case Numbers(s) => |s|
      case Labels(s) => |s|
      case Codes(s, _) => |s|
    }

    predicate Mapped()
    {
      Codes? ==> forall k :: 0 <= k < |codes| && codes[k].Some? ==> codes[k].value in mapping
    }
  }

  /** One output slot's value: a number or a label. */
  datatype Point = Num(n: int) | Text(s: string)

  /** The widths and lengths modelled: an even width, and a length that is a positive multiple of width / 2. */
  predicate Divisible(length: nat, width: nat)
  {
    width >= 2 && width % 2 == 0 && length >= width / 2 && length % (width / 2) == 0
  }

  /** The series cut into width / 2 buckets. */
  function Buckets<T>(s: seq<T>, width: nat): (cs: seq<seq<T>>)
    requires Divisible(|s|, width)
    ensures |cs| == width / 2
    ensures forall j :: 0 <= j < |cs| ==> |cs[j]| == |s| / (width / 2)
    ensures Flatten(cs) == s
  {
    Chunks(s, width / 2, |s| / (width / 2))
  }

  function AsNum(x: Option<int>): Option<Point>
  {
    if x.Some? then Some(Num(x.value)) else None
  }

  function AsText(x: Option<string>): Option<Point>
  {
    if x.Some? then Some(Text(x.value)) else None
  }

  /** downsample_most_common_value on labels: each bucket's mode in both of its slots. */
  function ModeLabels(labels: seq<Option<string>>, width: nat): (out: seq<Option<Point>>)
    requires Divisible(|labels|, width)
    ensures |out| == width
    ensures forall i :: 0 <= i < width ==> out[i] == AsText(ModeBucket(Buckets(labels, width)[i / 2])[i % 2])
  {
    var cs := Buckets(labels, width);
    seq(width, i requires 0 <= i < width => AsText(ModeBucket(cs[i / 2])[i % 2]))
  }

  /** The labels a non-numeric series reads as: its strings, or its codes through the mapping. */
  function LabelsOf(series: Series): (labels: seq<Option<string>>)
    requires !series.Numbers? && series.Mapped()
    ensures |labels| == series.Length()
  {
    match series
    case Labels(s) => s
    case Codes(c, m) => MapCodes(c, m)
  }

  /** downsample_most_common_value: each bucket of the labels reduced to its mode. */
  function DownsampleMostCommonValue(series: Series, width: nat): (out: seq<Option<Point>>)
    requires !series.Numbers? && series.Mapped() && Divisible(series.Length(), width)
    ensures |out| == width
  {
    ModeLabels(LabelsOf(series), width)
  }

  /**
   * Each output slot of downsample_most_common_value is masked exactly when
   * its bucket is, and otherwise holds a label of that bucket that no other
   * label of the bucket outnumbers.
   */
  lemma MostCommonValueSlots(series: Series, width: nat, i: nat)
    requires !series.Numbers? && series.Mapped() && Divisible(series.Length(), width)
    requires i < width
    ensures var b := Buckets(LabelsOf(series), width)[i / 2];
            var out := DownsampleMostCommonValue(series, width);
            && (out[i].None? <==> !HasValue(b, |b|))
            && (out[i].Some? ==>
                  && out[i].value.Text?
                  && Some(out[i].value.s) in b
                  && forall k :: 0 <= k < |b| && b[k].Some? ==> Occurrences(b, b[k].value) <= Occurrences(b, out[i].value.s))
  {
  }

  /**
   * downsample: numbers keep each bucket's minimum and maximum in order of
   * occurrence; any other series is reduced by its most common value.
   */
  function Downsample(series: Series, width: nat): (out: seq<Option<Point>>)
    requires series.Mapped() && Divisible(series.Length(), width)
    ensures |out| == width
    ensures series.Numbers? ==>
              forall i :: 0 <= i < width ==> out[i] == AsNum(MinMaxBucket(Buckets(series.numbers, width)[i / 2])[i % 2])
  {
    match series
    case Numbers(s) =>
      var cs := Buckets(s, width);
      seq(width, i requires 0 <= i < width => AsNum(MinMaxBucket(cs[i / 2])[i % 2]))
    case _ => DownsampleMostCommonValue(series, width)
  }

  /** For non-numeric series downsample is downsample_most_common_value. */
  lemma NonNumericUsesMostCommon(series: Series, width: nat)
    requires !series.Numbers? && series.Mapped() && Divisible(series.Length(), width)
    ensures Downsample(series, width) == DownsampleMostCommonValue(series, width)
  {
  }

  /** Codes are downsampled exactly as the labels they map to. */
  lemma CodesAsLabels(codes: seq<Option<int>>, mapping: map<int, string>, width: nat)
    requires Codes(codes, mapping).Mapped() && Divisible(|codes|, width)
    ensures Downsample(Codes(codes, mapping), width) == Downsample(Labels(MapCodes(codes, mapping)), width)
  {
  }

  /** With two buckets a numeric series yields the first half's minimum and maximum, then the second half's. */
  lemma TwoNumberBuckets(s: seq<Option<int>>)
    requires Divisible(|s|, 4)
    ensures Downsample(Numbers(s), 4)
            == [AsNum(MinMaxBucket(s[..|s| / 2])[0]), AsNum(MinMaxBucket(s[..|s| / 2])[1]),
                AsNum(MinMaxBucket(s[|s| / 2..])[0]), AsNum(MinMaxBucket(s[|s| / 2..])[1])]
  {
    TwoChunks(s);
    var out, m := Downsample(Numbers(s), 4), |s| / 2;
    assert out[0] == AsNum(MinMaxBucket(s[..m])[0]) && out[1] == AsNum(MinMaxBucket(s[..m])[1]);
    assert out[2] == AsNum(MinMaxBucket(s[m..])[0]) && out[3] == AsNum(MinMaxBucket(s[m..])[1]);
  }

  /** With two buckets a label series yields the first half's mode twice, then the second half's. */
  lemma TwoLabelBuckets(s: seq<Option<string>>)
    requires Divisible(|s|, 4)
    ensures Downsample(Labels(s), 4)
            == [AsText(ModeBucket(s[..|s| / 2])[0]), AsText(ModeBucket(s[..|s| / 2])[1]),
                AsText(ModeBucket(s[|s| / 2..])[0]), AsText(ModeBucket(s[|s| / 2..])[1])]
  {
    TwoChunks(s);
  }

  lemma TwoChunks<T>(s: seq<T>)
    requires Divisible(|s|, 4)
    ensures Buckets(s, 4) == [s[..|s| / 2], s[|s| / 2..]]
  {
    var m := |s| / 2;
    var cs := Buckets(s, 4);
    assert cs == Chunks(s, 2, m);
    assert cs == [s[..m]] + Chunks(s[m..], 1, m);
    assert Chunks(s[m..], 1, m) == [s[m..][..m]] + Chunks(s[m..][m..], 0, m);
    assert s[m..][..m] == s[m..];
  }
}
