/**
 * The running maximum/minimum pass used by both Sobel implementations and by
 * the threshold step: every value is compared against the running maximum
 * first, and only when it does not raise the maximum is it compared against
 * the running minimum (`if (v > max) max = v; else if (v < min) min = v;`).
 * The trackers are C `double`s; every value fed to them is a whole number of
 * at most 11 bits, so they are modelled exactly as reals.
 */
module Extremes {

  /** DBL_MAX of <float.h>: the largest finite double, (2^53 - 1) * 2^971. */
  const DblMax: real := 179769313486231570814527423731704356798070567525844996598917476803157260780028538760589558632766878171540458953514382464234321326889464182768467546703537516986049910576551282076245490090389328944075868508455133942304583236903222948165808559332123348274797826204144723168738177180919299881250404026184124858368.0

  /** DBL_MIN of <float.h>: the smallest positive normalised double, 2^-1022 (not the most negative double). */
  const DblMin: real := 1.0 / 44942328371557897693232629769725618340449424473557664318357520289433168951375240783177119330601884005280028469967848339414697442203604155623211857659868531094441973356216371319075554900311523529863270738021251442209537670585615720368478277635206809290837627671146574559986811484619929076208839082406056034304.0

  /** The pair of running trackers. */
  datatype Tracker = Tracker(max: real, min: real)

  /** One iteration of the `if … else if …` update. */
  function Step(e: Tracker, x: int): (r: Tracker)
    ensures r.max >= e.max && r.min <= e.min
    ensures r.max == e.max || r.max == x as real
    ensures r.min == e.min || r.min == x as real
  {
    if x as real > e.max then e.(max := x as real)
    else if (x as real) < e.min then e.(min := x as real)
    else e
  }

  /** The trackers after feeding the values of `s` in order, starting from `e`. */
  function Scan(s: seq<int>, e: Tracker): Tracker
  {
    if s == [] then e else Step(Scan(s[..|s| - 1], e), s[|s| - 1])
  }

  /** Feeding one more value is one more `Step`. */
  lemma ScanAppend(s: seq<int>, x: int, e: Tracker)
    ensures Scan(s + [x], e) == Step(Scan(s, e), x)
  {
    assert (s + [x])[..|s|] == s;
  }

  /** Feeding the prefix of length j + 1 is feeding the prefix of length j, then s[j]. */
  lemma ScanPrefix(s: seq<int>, j: int, e: Tracker)
    requires 0 <= j < |s|
    ensures Scan(s[..j + 1], e) == Step(Scan(s[..j], e), s[j])
  {
    assert s[..j + 1][..j] == s[..j];
  }

  /** Feeding a then b is feeding a, then feeding b from where a left the trackers. */
  lemma {:induction false} ScanConcat(a: seq<int>, b: seq<int>, e: Tracker)
    ensures Scan(a + b, e) == Scan(b, Scan(a, e))
    decreases |b|
  {
    if b == [] {
      assert a + b == a;
    } else {
      assert (a + b)[..|a + b| - 1] == a + b[..|b| - 1];
      ScanConcat(a, b[..|b| - 1], e);
    }
  }

  /**
   * The running maximum is exact: it bounds the start value and every value
   * fed, and it is the start value or one of the values.
   */
  lemma {:induction false} ScanMax(s: seq<int>, e: Tracker)
    ensures Scan(s, e).max >= e.max
    ensures forall t :: 0 <= t < |s| ==> s[t] as real <= Scan(s, e).max
    ensures Scan(s, e).max == e.max || exists t :: 0 <= t < |s| && Scan(s, e).max == s[t] as real
  {
    if s != [] {
      var init := s[..|s| - 1];
      ScanMax(init, e);
      assert forall t :: 0 <= t < |init| ==> s[t] == init[t];
    }
  }

  /** Started below every value, the running maximum ends as the largest value. */
  lemma ScanMaxIsLargest(s: seq<int>, e: Tracker)
    requires |s| > 0 && forall t :: 0 <= t < |s| ==> e.max < s[t] as real
    ensures forall t :: 0 <= t < |s| ==> s[t] as real <= Scan(s, e).max
    ensures exists t :: 0 <= t < |s| && Scan(s, e).max == s[t] as real
  {
    ScanMax(s, e);
  }

  /** The running minimum never goes above the start value and is the start value or one of the values fed. */
  lemma {:induction false} ScanMin(s: seq<int>, e: Tracker)
    ensures Scan(s, e).min <= e.min
    ensures Scan(s, e).min == e.min || exists t :: 0 <= t < |s| && Scan(s, e).min == s[t] as real
  {
    if s != [] {
      var init := s[..|s| - 1];
      ScanMin(init, e);
      assert forall t :: 0 <= t < |init| ==> s[t] == init[t];
    }
  }

  /**
   * The running minimum is the minimum of exactly the values that did not
   * raise the running maximum when they arrived: it bounds each of them, and
   * it is the start value or one of them. Values that raised the maximum are
   * never seen by the minimum.
   */
  lemma ScanMinSeesNonRaising(s: seq<int>, e: Tracker)
    ensures forall t :: 0 <= t < |s| && s[t] as real <= Scan(s[..t], e).max ==> Scan(s, e).min <= s[t] as real
    ensures Scan(s, e).min == e.min ||
            exists t :: 0 <= t < |s| && s[t] as real <= Scan(s[..t], e).max && Scan(s, e).min == s[t] as real
  {
    ScanMinBelowNonRaising(s, e);
    ScanMinIsNonRaising(s, e);
  }

  /** The running minimum bounds every value that did not raise the running maximum when it arrived. */
  lemma {:induction false} ScanMinBelowNonRaising(s: seq<int>, e: Tracker)
    ensures forall t :: 0 <= t < |s| && s[t] as real <= Scan(s[..t], e).max ==> Scan(s, e).min <= s[t] as real
  {
    if s != [] {
      var n := |s| - 1;
      var init := s[..n];
      ScanMinBelowNonRaising(init, e);
      forall t | 0 <= t < |s| && s[t] as real <= Scan(s[..t], e).max
        ensures Scan(s, e).min <= s[t] as real
      {
        if t < n {
          assert s[t] == init[t] && s[..t] == init[..t];
        }
      }
    }
  }

  /** The running minimum is its start value or a value that did not raise the running maximum when it arrived. */
  lemma {:induction false} ScanMinIsNonRaising(s: seq<int>, e: Tracker)
    ensures Scan(s, e).min == e.min ||
            exists t :: 0 <= t < |s| && s[t] as real <= Scan(s[..t], e).max && Scan(s, e).min == s[t] as real
  {
    if s != [] {
      var n := |s| - 1;
      var init := s[..n];
      var before := Scan(init, e);
      assert Scan(s, e) == Step(before, s[n]);
      ScanMinIsNonRaising(init, e);
      if !(s[n] as real > before.max) && (s[n] as real) < before.min {
        assert Scan(s[..n], e).max == before.max;
        assert Scan(s, e).min == s[n] as real;
      } else if Scan(s, e).min != e.min {
        assert Scan(s, e).min == before.min;
        var t :| 0 <= t < |init| && init[t] as real <= Scan(init[..t], e).max && before.min == init[t] as real;
        assert s[t] == init[t] && s[..t] == init[..t];
      }
    }
  }

  /** Hence the running minimum never drops below a common lower bound of the start value and the values. */
  lemma ScanMinAboveLowest(s: seq<int>, e: Tracker, lo: real)
    requires lo <= e.min && forall t :: 0 <= t < |s| ==> lo <= s[t] as real
    ensures lo <= Scan(s, e).min
  {
    ScanMin(s, e);
  }

  /**
   * When every value raises the maximum (a strictly increasing sequence that
   * starts above the start maximum) the minimum is never touched.
   */
  lemma {:induction false} ScanIncreasing(s: seq<int>, e: Tracker)
    requires forall t :: 0 < t < |s| ==> s[t - 1] < s[t]
    requires |s| > 0 ==> e.max < s[0] as real
    ensures Scan(s, e).min == e.min
    ensures |s| > 0 ==> Scan(s, e).max == s[|s| - 1] as real
  {
    if s != [] {
      var init := s[..|s| - 1];
      ScanIncreasing(init, e);
    }
  }

  /**
   * When no value exceeds the start maximum, the maximum stays put and the
   * minimum is the exact minimum of the start value and the values.
   */
  lemma {:induction false} ScanBelowMax(s: seq<int>, e: Tracker)
    requires forall t :: 0 <= t < |s| ==> s[t] as real <= e.max
    ensures Scan(s, e).max == e.max
    ensures Scan(s, e).min <= e.min
    ensures forall t :: 0 <= t < |s| ==> Scan(s, e).min <= s[t] as real
  {
    if s != [] {
      var init := s[..|s| - 1];
      ScanBelowMax(init, e);
      assert forall t :: 0 <= t < |init| ==> s[t] == init[t];
    }
  }

  /**
   * pgm.c starts its maxima at DBL_MIN, a tiny positive number: when no
   * gradient is positive (a flat image, for one) the maximum stays at
   * DBL_MIN and the minimum is the true minimum.
   */
  lemma SobelStartNoPositive(s: seq<int>)
    requires forall t :: 0 <= t < |s| ==> s[t] <= 0
    ensures Scan(s, Tracker(DblMin, DblMax)).max == DblMin
    ensures forall t :: 0 <= t < |s| ==> Scan(s, Tracker(DblMin, DblMax)).min <= s[t] as real
  {
    ScanBelowMax(s, Tracker(DblMin, DblMax));
  }

  /**
   * The threshold scan of ImageProcess.c starts at (-DBL_MAX, DBL_MAX) and
   * reads the zero border first: the first 0 sets the maximum, the second sets
   * the minimum, so the trackers end as (largest value, 0).
   */
  lemma ThresholdScanFromZeroBorder(s: seq<int>)
    requires |s| >= 2 && s[0] == 0 && s[1] == 0
    requires forall t :: 0 <= t < |s| ==> 0 <= s[t]
    ensures Scan(s, Tracker(-DblMax, DblMax)).min == 0.0
    ensures forall t :: 0 <= t < |s| ==> s[t] as real <= Scan(s, Tracker(-DblMax, DblMax)).max
    ensures exists t :: 0 <= t < |s| && Scan(s, Tracker(-DblMax, DblMax)).max == s[t] as real
  {
    var e := Tracker(-DblMax, DblMax);
    ScanMaxIsLargest(s, e);
    assert Scan(s[..1], e) == Tracker(0.0, DblMax) by {
      assert s[..1][..0] == [];
    }
    assert Scan(s[..2], e) == Tracker(0.0, 0.0) by {
      assert s[..2][..1] == s[..1];
    }
    ZeroMinStays(s, e, 2);
  }

  /** Once the minimum is 0, values that are all >= 0 never move it. */
  lemma {:induction false} ZeroMinStays(s: seq<int>, e: Tracker, n: int)
    requires 0 <= n <= |s| && Scan(s[..n], e).min == 0.0
    requires forall t :: 0 <= t < |s| ==> 0 <= s[t]
    ensures Scan(s, e).min == 0.0
    decreases |s| - n
  {
    if n < |s| {
      ScanAppend(s[..n], s[n], e);
      assert s[..n] + [s[n]] == s[..n + 1];
      ZeroMinStays(s, e, n + 1);
    } else {
      assert s[..n] == s;
    }
  }
}
