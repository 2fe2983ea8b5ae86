/** The running peak (`cummax`), the drawdown from it at every point and the
    maximum drawdown, over exact reals. */
module Drawdown {
  import opened Returns

  function Max(a: real, b: real): real {
    if a >= b then a else b
  }

  /** `cummax()`: at every point, the highest price seen up to and including it. */
  function CumMax(p: seq<real>): (m: seq<real>)
    ensures |m| == |p|
    ensures forall i, j :: 0 <= j <= i < |p| ==> p[j] <= m[i]
    ensures forall i :: 0 <= i < |p| ==> exists j :: 0 <= j <= i && m[i] == p[j]
    ensures forall i, j :: 0 <= i <= j < |p| ==> m[i] <= m[j]
    decreases |p|
  {
    if p == [] then []
    else
      var front := p[..|p| - 1];
      var m := CumMax(front);
      var x := p[|p| - 1];
      var peak := if |m| == 0 then x else Max(m[|m| - 1], x);
      assert forall j :: 0 <= j < |front| ==> front[j] == p[j];
      assert forall j :: 0 <= j < |p| - 1 ==> p[j] <= peak by {
        forall j | 0 <= j < |p| - 1 ensures p[j] <= peak {
          assert front[j] <= m[|m| - 1];
        }
      }
      assert exists j :: 0 <= j < |p| && peak == p[j] by {
        if |m| > 0 && m[|m| - 1] >= x {
          var j :| 0 <= j <= |m| - 1 && m[|m| - 1] == front[j];
          assert peak == p[j];
        } else {
          assert peak == p[|p| - 1];
        }
      }
      m + [peak]
  }

  /** A price at or above every earlier price is its own running peak. */
  lemma CumMaxAtNewHigh(p: seq<real>, i: nat)
    requires i < |p| && forall j :: 0 <= j <= i ==> p[j] <= p[i]
    ensures CumMax(p)[i] == p[i]
  {
    var m := CumMax(p);
    var j :| 0 <= j <= i && m[i] == p[j];
  }

  /** The first price is its own running peak. */
  lemma CumMaxFirst(p: seq<real>)
    requires |p| > 0
    ensures CumMax(p)[0] == p[0]
  {
    CumMaxAtNewHigh(p, 0);
  }

  /** With no zero price, no running peak is zero. */
  lemma CumMaxNonZero(p: seq<real>)
    requires NonZero(p)
    ensures NonZero(CumMax(p))
  {
    var m := CumMax(p);
    forall i | 0 <= i < |m| ensures m[i] != 0.0 {
      var j :| 0 <= j <= i && m[i] == p[j];
    }
  }

  /** With positive prices, every running peak is positive. */
  lemma CumMaxPositive(p: seq<real>)
    requires Positive(p)
    ensures Positive(CumMax(p))
  {
    var m := CumMax(p);
    forall i | 0 <= i < |m| ensures m[i] > 0.0 {
      var j :| 0 <= j <= i && m[i] == p[j];
    }
  }

  /** `(price / rolling_max) - 1` at every point. */
  function Drawdowns(p: seq<real>): (d: seq<real>)
    requires NonZero(CumMax(p))
    ensures |d| == |p|
  {
    var m := CumMax(p);
    seq(|p|, i requires 0 <= i < |p| => p[i] / m[i] - 1.0)
  }

  /** `drawdown.min()`: the smallest element. */
  function MinOf(s: seq<real>): (r: real)
    requires |s| > 0
    ensures forall i :: 0 <= i < |s| ==> r <= s[i]
    ensures exists i :: 0 <= i < |s| && r == s[i]
  {
    if |s| == 1 then s[0]
    else
      var rest := MinOf(s[1..]);
      assert forall i :: 1 <= i < |s| ==> s[i] == s[1..][i - 1];
      if s[0] <= rest then s[0] else rest
  }

  lemma MinOfOne(s: seq<real>)
    requires |s| == 1
    ensures MinOf(s) == s[0]
  {
  }

  /** The maximum drawdown: the deepest fall below the running peak, at most
      every drawdown and equal to one of them. */
  function MaxDrawdown(p: seq<real>): (r: real)
    requires |p| > 0 && NonZero(CumMax(p))
    ensures forall i :: 0 <= i < |p| ==> r <= Drawdowns(p)[i]
    ensures exists i :: 0 <= i < |p| && r == Drawdowns(p)[i]
  {
    MinOf(Drawdowns(p))
  }

  /** A non-negative price over a positive peak at least as high lies in
      [0, 1]: the drawdown is 0 exactly at the peak and -1 exactly at zero. */
  lemma RatioToPeak(x: real, peak: real)
    requires 0.0 <= x <= peak && peak > 0.0
    ensures -1.0 <= x / peak - 1.0 <= 0.0
    ensures x / peak - 1.0 == 0.0 <==> x == peak
    ensures x / peak - 1.0 == -1.0 <==> x == 0.0
  {
    var q := x / peak;
    assert q * peak == x;
    assert (1.0 - q) * peak == peak - x;
    NonNegativeFactor(1.0 - q, peak);
    NonNegativeFactor(q, peak);
    QuotientFacts(x, peak);
  }

  /** For non-negative prices every running peak is at least the first price. */
  lemma CumMaxNonNegative(p: seq<real>, i: nat)
    requires NonNegative(p) && NonZero(CumMax(p)) && i < |p|
    ensures CumMax(p)[i] > 0.0
  {
    var m := CumMax(p);
    assert p[0] <= m[i];
  }

  /** Drawdown i is the price over its running peak, less one. */
  lemma DrawdownAt(p: seq<real>, i: nat)
    requires NonNegative(p) && NonZero(CumMax(p)) && i < |p|
    ensures -1.0 <= Drawdowns(p)[i] <= 0.0
    ensures Drawdowns(p)[i] == 0.0 <==> p[i] == CumMax(p)[i]
    ensures Drawdowns(p)[i] == -1.0 <==> p[i] == 0.0
  {
    var m := CumMax(p);
    CumMaxNonNegative(p, i);
    assert Drawdowns(p)[i] == p[i] / m[i] - 1.0;
    RatioToPeak(p[i], m[i]);
  }

  /** For non-negative prices every drawdown lies in [-1, 0], it is 0 exactly
      at a running peak and -1 exactly at a zero price. */
  lemma DrawdownBounds(p: seq<real>)
    requires NonNegative(p) && NonZero(CumMax(p))
    ensures var d := Drawdowns(p);
      forall i :: 0 <= i < |p| ==> -1.0 <= d[i] <= 0.0
    ensures var d, m := Drawdowns(p), CumMax(p);
      forall i :: 0 <= i < |p| ==> (d[i] == 0.0 <==> p[i] == m[i])
    ensures var d := Drawdowns(p);
      forall i :: 0 <= i < |p| ==> (d[i] == -1.0 <==> p[i] == 0.0)
  {
    forall i | 0 <= i < |p| {
      DrawdownAt(p, i);
    }
  }

  /** The first point is its own running peak, so its drawdown is 0. */
  lemma FirstDrawdownZero(p: seq<real>)
    requires |p| > 0 && NonZero(CumMax(p))
    ensures Drawdowns(p)[0] == 0.0
  {
    CumMaxFirst(p);
    QuotientFacts(p[0], p[0]);
  }

  /** For non-negative prices the maximum drawdown lies in [-1, 0]; it is -1
      exactly when some price is zero, so above -1 for positive prices. */
  lemma MaxDrawdownBounds(p: seq<real>)
    requires |p| > 0 && NonNegative(p) && NonZero(CumMax(p))
    ensures -1.0 <= MaxDrawdown(p) <= 0.0
    ensures MaxDrawdown(p) == -1.0 <==> exists i :: 0 <= i < |p| && p[i] == 0.0
    ensures Positive(p) ==> -1.0 < MaxDrawdown(p)
  {
    var d := Drawdowns(p);
    var k :| 0 <= k < |d| && MaxDrawdown(p) == d[k];
    DrawdownAt(p, k);
    if exists i :: 0 <= i < |p| && p[i] == 0.0 {
      var i :| 0 <= i < |p| && p[i] == 0.0;
      DrawdownAt(p, i);
      assert MaxDrawdown(p) <= d[i];
    }
  }

  predicate NonDecreasing(p: seq<real>) {
    forall i, j :: 0 <= i <= j < |p| ==> p[i] <= p[j]
  }

  /** For non-negative prices the maximum drawdown is 0 exactly when the
      prices never fall. */
  lemma MaxDrawdownZero(p: seq<real>)
    requires |p| > 0 && NonNegative(p) && NonZero(CumMax(p))
    ensures MaxDrawdown(p) == 0.0 <==> NonDecreasing(p)
  {
    if NonDecreasing(p) {
      RisingHasNoDrawdown(p);
    }
    if MaxDrawdown(p) == 0.0 {
      NoDrawdownIsRising(p);
    }
  }

  lemma RisingHasNoDrawdown(p: seq<real>)
    requires |p| > 0 && NonNegative(p) && NonZero(CumMax(p)) && NonDecreasing(p)
    ensures MaxDrawdown(p) == 0.0
  {
    var d := Drawdowns(p);
    forall i | 0 <= i < |p| ensures d[i] == 0.0 {
      CumMaxAtNewHigh(p, i);
      DrawdownAt(p, i);
    }
    var i :| 0 <= i < |d| && MaxDrawdown(p) == d[i];
  }

  lemma NoDrawdownIsRising(p: seq<real>)
    requires |p| > 0 && NonNegative(p) && NonZero(CumMax(p)) && MaxDrawdown(p) == 0.0
    ensures NonDecreasing(p)
  {
    var m := CumMax(p);
    var d := Drawdowns(p);
    forall i, j | 0 <= i <= j < |p| ensures p[i] <= p[j] {
      DrawdownAt(p, i);
      DrawdownAt(p, j);
      assert d[i] == 0.0 && d[j] == 0.0;
    }
  }
}
