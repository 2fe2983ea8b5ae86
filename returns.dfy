/** Period returns (`pct_change`) and the total return of a price series,
    over exact reals. */
module Returns {

  /** No price is zero: every division by a price is defined. */
  predicate NonZero(p: seq<real>) {
    forall i :: 0 <= i < |p| ==> p[i] != 0.0
  }

  predicate Positive(p: seq<real>) {
    forall i :: 0 <= i < |p| ==> p[i] > 0.0
  }

  /** No price is negative; a coin that went to zero ends at zero. */
  predicate NonNegative(p: seq<real>) {
    forall i :: 0 <= i < |p| ==> p[i] >= 0.0
  }

  /** Every price a return divides by is non-zero: all prices but the last. */
  predicate NonZeroBeforeLast(p: seq<real>) {
    forall i :: 0 <= i < |p| - 1 ==> p[i] != 0.0
  }

  /** `pct_change()` without its leading missing value: one return per pair of
      consecutive prices. */
  function PctChange(p: seq<real>): (r: seq<real>)
    requires NonZeroBeforeLast(p)
    ensures |r| == if |p| == 0 then 0 else |p| - 1
  {
    if |p| < 2 then [] else [p[1] / p[0] - 1.0] + PctChange(p[1..])
  }

  /** Return i compares price i + 1 with price i. */
  lemma {:induction false} PctChangeAt(p: seq<real>, i: nat)
    requires NonZeroBeforeLast(p) && i + 1 < |p|
    ensures PctChange(p)[i] == p[i + 1] / p[i] - 1.0
  {
    if i > 0 {
      PctChangeAt(p[1..], i - 1);
    }
  }

  lemma Regrow(a: real, b: real, r: real)
    requires a != 0.0 && r == b / a - 1.0
    ensures b == a * (1.0 + r)
  {
  }

  /** The prices obtained from `start` by applying the returns one after another. */
  function Compound(start: real, r: seq<real>): (p: seq<real>)
    ensures |p| == |r| + 1 && p[0] == start
    decreases |r|
  {
    if r == [] then [start] else [start] + Compound(start * (1.0 + r[0]), r[1..])
  }

  lemma CompoundStep(start: real, next: real, r: seq<real>)
    requires r != [] && next == start * (1.0 + r[0])
    ensures Compound(start, r) == [start] + Compound(next, r[1..])
  {
  }

  /** The returns after the first are the returns of the series without its
      first price. */
  lemma PctChangeTail(p: seq<real>)
    requires |p| > 1 && NonZeroBeforeLast(p)
    ensures PctChange(p)[1..] == PctChange(p[1..])
  {
  }

  /** The returns determine the series from its first price. */
  lemma {:induction false} CompoundPctChange(p: seq<real>)
    requires |p| > 0 && NonZeroBeforeLast(p)
    ensures Compound(p[0], PctChange(p)) == p
  {
    if |p| > 1 {
      var r := PctChange(p);
      PctChangeTail(p);
      CompoundPctChange(p[1..]);
      Regrow(p[0], p[1], r[0]);
      CompoundStep(p[0], p[1], r);
      assert p == [p[0]] + p[1..];
    } else {
      assert p == [p[0]];
    }
  }

  /** The growth factor of a sequence of returns: the product of 1 + r. */
  function Growth(r: seq<real>): real {
    if r == [] then 1.0 else (1.0 + r[0]) * Growth(r[1..])
  }

  /** The total return: the last price over the first, minus one. It is 0
      for a single price, and -1 exactly when the last price is zero. */
  function TotalReturn(p: seq<real>): (r: real)
    requires |p| > 0 && p[0] != 0.0
    ensures |p| == 1 ==> r == 0.0
    ensures r == -1.0 <==> p[|p| - 1] == 0.0
  {
    QuotientFacts(p[|p| - 1], p[0]);
    p[|p| - 1] / p[0] - 1.0
  }

  /** A number over itself is one, and a quotient is zero exactly when its
      numerator is. */
  lemma QuotientFacts(a: real, b: real)
    requires b != 0.0
    ensures a == b ==> a / b == 1.0
    ensures a / b == 0.0 <==> a == 0.0
  {
    if a == b {
      CancelFactor(a, b, 1.0);
    }
    if a == 0.0 {
      CancelFactor(a, b, 0.0);
    } else {
      QuotientNonZero(a, b);
    }
  }

  lemma QuotientNonZero(a: real, b: real)
    requires a != 0.0 && b != 0.0
    ensures a / b != 0.0
  {
    var q := a / b;
    assert q * b == a;
  }

  /** The last compounded price is the start grown by every return. */
  lemma {:induction false} CompoundLast(start: real, r: seq<real>)
    ensures Compound(start, r)[|r|] == start * Growth(r)
    decreases |r|
  {
    if r != [] {
      var next := start * (1.0 + r[0]);
      CompoundStep(start, next, r);
      CompoundLast(next, r[1..]);
      Associate(start, 1.0 + r[0], Growth(r[1..]));
    }
  }

  lemma Associate(a: real, b: real, c: real)
    ensures (a * b) * c == a * (b * c)
  {
  }

  /** The total return of the prices compounded from a series of returns is
      their growth factor less one: total return compounds period returns. */
  lemma TotalReturnCompounds(start: real, r: seq<real>)
    requires start != 0.0
    ensures TotalReturn(Compound(start, r)) == Growth(r) - 1.0
  {
    var c := Compound(start, r);
    CompoundLast(start, r);
    assert c[|c| - 1] == c[|r|];
    CancelFactor(c[|r|], start, Growth(r));
  }

  lemma CancelFactor(x: real, a: real, g: real)
    requires a != 0.0 && x == a * g
    ensures x / a == g
  {
  }

  /** A one-point series has total return 0; a series of non-negative prices
      never loses more than everything, and a positive one never loses all. */
  lemma TotalReturnBounds(p: seq<real>)
    requires |p| > 0 && p[0] != 0.0
    ensures |p| == 1 ==> TotalReturn(p) == 0.0
    ensures NonNegative(p) ==> TotalReturn(p) >= -1.0
    ensures Positive(p) ==> TotalReturn(p) > -1.0
  {
    if NonNegative(p) {
      NonNegativeQuotient(p[|p| - 1], p[0]);
    }
  }

  lemma NonNegativeQuotient(a: real, b: real)
    requires a >= 0.0 && b > 0.0
    ensures a / b >= 0.0
  {
    var q := a / b;
    assert q * b == a;
    NonNegativeFactor(q, b);
  }

  lemma NonNegativeFactor(a: real, b: real)
    requires b > 0.0 && a * b >= 0.0
    ensures a >= 0.0
  {
  }
}
