/**
 * The downsample test scenarios: a 100-sample series downsampled to width 4
 * (two buckets of 50), as numbers, reversed, half masked, as labels and as
 * mapped codes.
 */
module DownsampleScenarios {
  import opened Wrappers
  import opened Downsampling

  /** range(n), every sample unmasked. */
  function Range(n: nat): (s: seq<Option<int>>)
    ensures |s| == n && forall i :: 0 <= i < n ==> s[i] == Some(i)
  {
    seq(n, i => Some(i))
  }

  /** s[::-1]. */
  function Reversed<T>(s: seq<T>): (r: seq<T>)
    ensures |r| == |s| && forall i :: 0 <= i < |s| ==> r[i] == s[|s| - 1 - i]
  {
    seq(|s|, i requires 0 <= i < |s| => s[|s| - 1 - i])
  }

  /** The samples of s with the mask set, masked. */
  function Masked<T>(s: seq<Option<T>>, mask: seq<bool>): (r: seq<Option<T>>)
    requires |mask| == |s|
    ensures |r| == |s| && forall i :: 0 <= i < |s| ==> r[i] == if mask[i] then None else s[i]
  {
    seq(|s|, i requires 0 <= i < |s| => if mask[i] then None else s[i])
  }

  /** mask = zeros(100); mask[:50] = True. */
  function FirstHalfMask(): (m: seq<bool>)
    ensures |m| == 100 && forall i :: 0 <= i < 100 ==> m[i] == (i < 50)
  {
    seq(100, i => i < 50)
  }

  /** p * n: n copies of p, one after the other. */
  function Repeat<T>(p: seq<T>, n: nat): (r: seq<T>)
    ensures |r| == n * |p|
  {
    if n == 0 then [] else p + Repeat(p, n - 1)
  }

  lemma {:induction false} RepeatSplit<T>(p: seq<T>, a: nat, b: nat)
    ensures Repeat(p, a + b) == Repeat(p, a) + Repeat(p, b)
  {
    if a > 0 {
      RepeatSplit(p, a - 1, b);
      assert Repeat(p, a + b) == p + Repeat(p, a - 1 + b);
    }
  }

  lemma {:induction false} RepeatOccurrences<T>(p: seq<Option<T>>, n: nat, x: T)
    ensures Occurrences(Repeat(p, n), x) == n * Occurrences(p, x)
  {
    if n > 0 {
      var o := Occurrences(p, x);
      RepeatOccurrences(p, n - 1, x);
      OccurrencesConcat(p, Repeat(p, n - 1), x);
      assert n * o == (n - 1) * o + o;
    }
  }

  lemma {:induction false} RepeatMembers<T>(p: seq<T>, n: nat)
    ensures forall x :: x in Repeat(p, n) ==> x in p
  {
    if n > 0 {
      RepeatMembers(p, n - 1);
    }
  }

  lemma {:induction false} MapCodesConcat(a: seq<Option<int>>, b: seq<Option<int>>, mapping: map<int, string>)
    requires Codes(a, mapping).Mapped() && Codes(b, mapping).Mapped()
    ensures Codes(a + b, mapping).Mapped()
    ensures MapCodes(a + b, mapping) == MapCodes(a, mapping) + MapCodes(b, mapping)
  {
    assert forall k :: 0 <= k < |a + b| ==> (a + b)[k] == if k < |a| then a[k] else b[k - |a|];
  }

  lemma {:induction false} MapCodesRepeat(p: seq<Option<int>>, n: nat, mapping: map<int, string>)
    requires Codes(p, mapping).Mapped()
    ensures Codes(Repeat(p, n), mapping).Mapped()
    ensures MapCodes(Repeat(p, n), mapping) == Repeat(MapCodes(p, mapping), n)
  {
    if n > 0 {
      MapCodesRepeat(p, n - 1, mapping);
      MapCodesConcat(p, Repeat(p, n - 1), mapping);
    }
  }

  /** Masking codes and then mapping them to labels is mapping then masking. */
  lemma MapCodesMasked(codes: seq<Option<int>>, mask: seq<bool>, mapping: map<int, string>)
    requires |mask| == |codes| && Codes(codes, mapping).Mapped()
    ensures Codes(Masked(codes, mask), mapping).Mapped()
    ensures MapCodes(Masked(codes, mask), mapping) == Masked(MapCodes(codes, mapping), mask)
  {
  }

  const PATTERN: seq<Option<string>> := [Some("one"), Some("two"), Some("three"), Some("four"), Some("one")]
  const CODES: seq<Option<int>> := [Some(1), Some(2), Some(3), Some(4), Some(1)]
  const MAPPING: map<int, string> := map[1 := "one", 2 := "two", 3 := "three", 4 := "four"]

  function Num(n: int): Option<Point> { Some(Point.Num(n)) }
  function Text(s: string): Option<Point> { Some(Point.Text(s)) }

  /** The two halves of a repeated pattern of 100 samples are the pattern ten times each. */
  lemma PatternHalves<T>(p: seq<T>)
    requires |p| == 5
    ensures Repeat(p, 20)[..50] == Repeat(p, 10) && Repeat(p, 20)[50..] == Repeat(p, 10)
  {
    RepeatSplit(p, 10, 10);
  }

  /** The test pattern [a, b, c, d, a] of four labels. */
  function PatternOf<T>(a: T, b: T, c: T, d: T): (p: seq<Option<T>>)
    ensures |p| == 5
  {
    [Some(a), Some(b), Some(c), Some(d), Some(a)]
  }

  /** In [a, b, c, d, a] the first label occurs twice and the others once. */
  lemma PatternCounts<T>(a: T, b: T, c: T, d: T)
    requires a != b && a != c && a != d && b != c && b != d && c != d
    ensures Occurrences(PatternOf(a, b, c, d), a) == 2
    ensures forall k :: 0 <= k < 5 && PatternOf(a, b, c, d)[k].value != a ==>
              Occurrences(PatternOf(a, b, c, d), PatternOf(a, b, c, d)[k].value) == 1
  {
    var p := PatternOf(a, b, c, d);
    assert p == [Some(a), Some(b)] + [Some(c), Some(d)] + [Some(a)];
    forall v ensures Occurrences(p, v) == Occurrences([Some(a), Some(b)], v) + Occurrences([Some(c), Some(d)], v) + Occurrences([Some(a)], v) {
      OccurrencesConcat([Some(a), Some(b)], [Some(c), Some(d)], v);
      OccurrencesConcat([Some(a), Some(b)] + [Some(c), Some(d)], [Some(a)], v);
    }
  }

  /** The first label is the most common of the pattern repeated ten times. */
  lemma PatternMode<T>(a: T, b: T, c: T, d: T)
    requires a != b && a != c && a != d && b != c && b != d && c != d
    ensures ModeBucket(Repeat(PatternOf(a, b, c, d), 10)) == [Some(a), Some(a)]
  {
    var p := PatternOf(a, b, c, d);
    var s := Repeat(p, 10);
    RepeatMembers(p, 10);
    RepeatOccurrences(p, 10, a);
    PatternCounts(a, b, c, d);
    forall k | 0 <= k < |s| && s[k].Some? && s[k].value != a
      ensures Occurrences(s, s[k].value) < Occurrences(s, a)
    {
      assert s[k] in s;
      var i :| 0 <= i < |p| && p[i] == s[k];
      RepeatOccurrences(p, 10, s[k].value);
    }
    assert s[0] == p[0];
    UniqueMode(s, a);
  }

  /** The labels of the test are distinct, so 'one' is the mode of every ten repetitions. */
  lemma OneIsMode()
    ensures PATTERN == PatternOf("one", "two", "three", "four")
    ensures ModeBucket(Repeat(PATTERN, 10)) == [Some("one"), Some("one")]
  {
    assert "one"[1] != "two"[1] && "one"[0] != "three"[0] && "one"[0] != "four"[0];
    assert "two"[1] != "three"[1] && "two"[0] != "four"[0] && "three"[0] != "four"[0];
    PatternMode("one", "two", "three", "four");
  }

  // test_downsample_list and test_downsample_array (lines 10-26)

  /** A bucket counting up by one from start to last keeps those two samples. */
  lemma CountingUp(b: seq<Option<int>>, start: int, last: int)
    requires |b| > 0 && last == start + |b| - 1
    requires forall k :: 0 <= k < |b| ==> b[k] == Some(start + k)
    ensures MinMaxBucket(b) == [Some(start), Some(last)]
  {
    assert Monotone(b);
    MonotoneBucket(b);
  }

  /** A bucket counting down by one from start to last keeps those two samples. */
  lemma CountingDown(b: seq<Option<int>>, start: int, last: int)
    requires |b| > 0 && last == start - |b| + 1
    requires forall k :: 0 <= k < |b| ==> b[k] == Some(start - k)
    ensures MinMaxBucket(b) == [Some(start), Some(last)]
  {
    assert Monotone(b);
    MonotoneBucket(b);
  }

  /** 100 samples at width 4: two buckets of 50, each reduced to its pair. */
  lemma TwoHalves(s: seq<Option<int>>, x0: Option<int>, x1: Option<int>, x2: Option<int>, x3: Option<int>)
    requires |s| == 100
    requires MinMaxBucket(s[..50]) == [x0, x1] && MinMaxBucket(s[50..]) == [x2, x3]
    ensures Downsample(Numbers(s), 4) == [AsNum(x0), AsNum(x1), AsNum(x2), AsNum(x3)]
  {
    TwoNumberBuckets(s);
  }

  lemma RangeLowerHalf()
    ensures MinMaxBucket(Range(100)[..50]) == [Some(0), Some(49)]
  {
    var s := Range(100);
    var lo := s[..50];
    assert forall k :: 0 <= k < 50 ==> lo[k] == Some(k);
    CountingUp(lo, 0, 49);
  }

  lemma RangeUpperHalf()
    ensures MinMaxBucket(Range(100)[50..]) == [Some(50), Some(99)]
  {
    var s := Range(100);
    var hi := s[50..];
    assert forall k :: 0 <= k < 50 ==> hi[k] == s[50 + k];
    CountingUp(hi, 50, 99);
  }

  lemma RangeDownsample()
    ensures Downsample(Numbers(Range(100)), 4) == [Num(0), Num(49), Num(50), Num(99)]
  {
    var s := Range(100);
    assert Downsample(Numbers(s), 4) == [AsNum(Some(0)), AsNum(Some(49)), AsNum(Some(50)), AsNum(Some(99))] by {
      RangeLowerHalf();
      RangeUpperHalf();
      TwoHalves(s, Some(0), Some(49), Some(50), Some(99));
    }
  }

  lemma ReversedLowerHalf()
    ensures MinMaxBucket(Reversed(Range(100))[..50]) == [Some(99), Some(50)]
  {
    var s := Reversed(Range(100));
    var lo := s[..50];
    assert forall k :: 0 <= k < 50 ==> lo[k] == s[k];
    CountingDown(lo, 99, 50);
  }

  lemma ReversedUpperHalf()
    ensures MinMaxBucket(Reversed(Range(100))[50..]) == [Some(49), Some(0)]
  {
    var s := Reversed(Range(100));
    var hi := s[50..];
    assert forall k :: 0 <= k < 50 ==> hi[k] == s[50 + k];
    CountingDown(hi, 49, 0);
  }

  lemma ReversedRangeDownsample()
    ensures Downsample(Numbers(Reversed(Range(100))), 4) == [Num(99), Num(50), Num(49), Num(0)]
  {
    var s := Reversed(Range(100));
    assert Downsample(Numbers(s), 4) == [AsNum(Some(99)), AsNum(Some(50)), AsNum(Some(49)), AsNum(Some(0))] by {
      ReversedLowerHalf();
      ReversedUpperHalf();
      TwoHalves(s, Some(99), Some(50), Some(49), Some(0));
    }
  }

  // test_downsample_array_masked (lines 28-38)

  lemma MaskedLowerHalf()
    ensures MinMaxBucket(Masked(Range(100), FirstHalfMask())[..50]) == [None, None]
  {
    var s := Masked(Range(100), FirstHalfMask());
    var lo := s[..50];
    assert forall k :: 0 <= k < 50 ==> lo[k] == s[k];
    assert !HasValue(lo, 50);
  }

  lemma MaskedUpperHalf()
    ensures MinMaxBucket(Masked(Range(100), FirstHalfMask())[50..]) == [Some(50), Some(99)]
  {
    var s := Masked(Range(100), FirstHalfMask());
    var hi := s[50..];
    assert forall k :: 0 <= k < 50 ==> hi[k] == s[50 + k];
    CountingUp(hi, 50, 99);
  }

  lemma MaskedRangeDownsample()
    ensures Downsample(Numbers(Masked(Range(100), FirstHalfMask())), 4) == [None, None, Num(50), Num(99)]
  {
    var s := Masked(Range(100), FirstHalfMask());
    assert Downsample(Numbers(s), 4) == [AsNum(None), AsNum(None), AsNum(Some(50)), AsNum(Some(99))] by {
      MaskedLowerHalf();
      MaskedUpperHalf();
      TwoHalves(s, None, None, Some(50), Some(99));
    }
  }

  lemma ReversedMaskedLowerHalf()
    ensures MinMaxBucket(Reversed(Masked(Range(100), FirstHalfMask()))[..50]) == [Some(99), Some(50)]
  {
    var s := Reversed(Masked(Range(100), FirstHalfMask()));
    var lo := s[..50];
    assert forall k :: 0 <= k < 50 ==> lo[k] == s[k];
    CountingDown(lo, 99, 50);
  }

  lemma ReversedMaskedUpperHalf()
    ensures MinMaxBucket(Reversed(Masked(Range(100), FirstHalfMask()))[50..]) == [None, None]
  {
    var s := Reversed(Masked(Range(100), FirstHalfMask()));
    var hi := s[50..];
    assert forall k :: 0 <= k < 50 ==> hi[k] == s[50 + k];
    assert !HasValue(hi, 50);
  }

  lemma ReversedMaskedRangeDownsample()
    ensures Downsample(Numbers(Reversed(Masked(Range(100), FirstHalfMask()))), 4) == [Num(99), Num(50), None, None]
  {
    var s := Reversed(Masked(Range(100), FirstHalfMask()));
    assert Downsample(Numbers(s), 4) == [AsNum(Some(99)), AsNum(Some(50)), AsNum(None), AsNum(None)] by {
      ReversedMaskedLowerHalf();
      ReversedMaskedUpperHalf();
      TwoHalves(s, Some(99), Some(50), None, None);
    }
  }

  // test_downsample_list_of_strings and test_downsample_array_of_strings (lines 40-54)

  /** 100 labels at width 4: two buckets of 50, each reduced to its mode. */
  lemma TwoLabelHalves(s: seq<Option<string>>, x: Option<string>, y: Option<string>)
    requires |s| == 100
    requires ModeBucket(s[..50]) == [x, x] && ModeBucket(s[50..]) == [y, y]
    ensures Downsample(Labels(s), 4) == [AsText(x), AsText(x), AsText(y), AsText(y)]
  {
    TwoLabelBuckets(s);
  }

  lemma StringHalves()
    ensures ModeBucket(Repeat(PATTERN, 20)[..50]) == [Some("one"), Some("one")]
    ensures ModeBucket(Repeat(PATTERN, 20)[50..]) == [Some("one"), Some("one")]
  {
    PatternHalves(PATTERN);
    OneIsMode();
  }

  lemma StringsDownsample()
    ensures Downsample(Labels(Repeat(PATTERN, 20)), 4) == DownsampleMostCommonValue(Labels(Repeat(PATTERN, 20)), 4)
    ensures Downsample(Labels(Repeat(PATTERN, 20)), 4) == [Text("one"), Text("one"), Text("one"), Text("one")]
  {
    var s := Repeat(PATTERN, 20);
    NonNumericUsesMostCommon(Labels(s), 4);
    assert Downsample(Labels(s), 4) == [AsText(Some("one")), AsText(Some("one")), AsText(Some("one")), AsText(Some("one"))] by {
      StringHalves();
      TwoLabelHalves(s, Some("one"), Some("one"));
    }
  }

  // test_downsample_array_of_strings_masked (lines 56-65)

  lemma MaskedStringHalves()
    ensures ModeBucket(Masked(Repeat(PATTERN, 20), FirstHalfMask())[..50]) == [None, None]
    ensures ModeBucket(Masked(Repeat(PATTERN, 20), FirstHalfMask())[50..]) == [Some("one"), Some("one")]
  {
    var s := Masked(Repeat(PATTERN, 20), FirstHalfMask());
    var lo := s[..50];
    assert forall k :: 0 <= k < 50 ==> lo[k] == s[k];
    assert !HasValue(lo, 50);
    assert s[50..] == Repeat(PATTERN, 20)[50..];
    StringHalves();
  }

  lemma MaskedStringsDownsample()
    ensures Downsample(Labels(Masked(Repeat(PATTERN, 20), FirstHalfMask())), 4)
            == DownsampleMostCommonValue(Labels(Masked(Repeat(PATTERN, 20), FirstHalfMask())), 4)
    ensures Downsample(Labels(Masked(Repeat(PATTERN, 20), FirstHalfMask())), 4) == [None, None, Text("one"), Text("one")]
  {
    var s := Masked(Repeat(PATTERN, 20), FirstHalfMask());
    NonNumericUsesMostCommon(Labels(s), 4);
    assert Downsample(Labels(s), 4) == [AsText(None), AsText(None), AsText(Some("one")), AsText(Some("one"))] by {
      MaskedStringHalves();
      TwoLabelHalves(s, None, Some("one"));
    }
  }

  // test_downsample_mapped_array (lines 67-74)

  lemma MappedDownsample()
    ensures Codes(Repeat(CODES, 20), MAPPING).Mapped()
    ensures Downsample(Codes(Repeat(CODES, 20), MAPPING), 4) == DownsampleMostCommonValue(Codes(Repeat(CODES, 20), MAPPING), 4)
    ensures Downsample(Codes(Repeat(CODES, 20), MAPPING), 4) == [Text("one"), Text("one"), Text("one"), Text("one")]
  {
    assert MapCodes(CODES, MAPPING) == PATTERN;
    MapCodesRepeat(CODES, 20, MAPPING);
    CodesAsLabels(Repeat(CODES, 20), MAPPING, 4);
    StringsDownsample();
  }

  // test_downsample_mapped_array_masked (lines 76-85)

  lemma MaskedMappedDownsample()
    ensures Codes(Masked(Repeat(CODES, 20), FirstHalfMask()), MAPPING).Mapped()
    ensures Downsample(Codes(Masked(Repeat(CODES, 20), FirstHalfMask()), MAPPING), 4)
            == DownsampleMostCommonValue(Codes(Masked(Repeat(CODES, 20), FirstHalfMask()), MAPPING), 4)
    ensures Downsample(Codes(Masked(Repeat(CODES, 20), FirstHalfMask()), MAPPING), 4) == [None, None, Text("one"), Text("one")]
  {
    assert MapCodes(CODES, MAPPING) == PATTERN;
    MapCodesRepeat(CODES, 20, MAPPING);
    MapCodesMasked(Repeat(CODES, 20), FirstHalfMask(), MAPPING);
    CodesAsLabels(Masked(Repeat(CODES, 20), FirstHalfMask()), MAPPING, 4);
    MaskedStringsDownsample();
  }
}
