/**
 * Megawatt quantities are reals. pandas' `.round(1)` is numpy's round-half-to-even
 * at one decimal; on reals it is exact, so the model states it once here and proves
 * the facts the bid code relies on: rounding a value that already has one decimal
 * changes nothing, sums of such values keep one decimal, and rounding commutes with
 * negation.
 */
module Numeric {

  /** The integer nearest to y, ties to the even neighbour (numpy's rint). */
  function RoundHalfEven(y: real): (n: int)
    ensures -0.5 <= n as real - y <= 0.5
    ensures y.Floor as real == y ==> n as real == y
  {
    var f := y.Floor;
    var frac := y - f as real;
    if frac < 0.5 then f
    else if frac > 0.5 then f + 1
    else if f % 2 == 0 then f
    else f + 1
  }

  /** True when x has at most one decimal. */
  predicate IsTenths(x: real) {
    (x * 10.0).Floor as real == x * 10.0
  }

  /** Series.round(1): the nearest value with one decimal, ties to an even last digit. */
  function Round1(x: real): (r: real)
    ensures IsTenths(r)
    ensures -0.05 <= r - x <= 0.05
  {
    var n := RoundHalfEven(x * 10.0);
    var r := n as real / 10.0;
    assert r * 10.0 == n as real;
    assert (n as real).Floor == n;
    r
  }

  /** Each element strictly above the one before it. */
  predicate StrictlyIncreasing(s: seq<int>) {
    forall i, j :: 0 <= i < j < |s| ==> s[i] < s[j]
  }

  function Abs(x: real): (r: real)
    ensures r >= 0.0
    ensures r == x || r == -x
  {
    if x < 0.0 then -x else x
  }

  /** Column sum: pandas adds the values of a column (or of a row, with axis=1). */
  function Sum(xs: seq<real>): real
  {
    if xs == [] then 0.0 else xs[0] + Sum(xs[1..])
  }

  lemma Round1OfTenths(x: real)
    requires IsTenths(x)
    ensures Round1(x) == x
  {
    var n := RoundHalfEven(x * 10.0);
    assert n as real == x * 10.0;
  }

  lemma TenthsClosed(x: real, y: real)
    requires IsTenths(x) && IsTenths(y)
    ensures IsTenths(x + y) && IsTenths(-x) && IsTenths(x - y)
  {
    var a := (x * 10.0).Floor;
    var b := (y * 10.0).Floor;
    assert (x + y) * 10.0 == x * 10.0 + y * 10.0 == (a + b) as real;
    assert ((a + b) as real).Floor == a + b;
    assert -x * 10.0 == (-a) as real;
    assert ((-a) as real).Floor == -a;
    assert (x - y) * 10.0 == x * 10.0 - y * 10.0 == (a - b) as real;
    assert ((a - b) as real).Floor == a - b;
  }

  /** Rounding commutes with negation: round-half-even is symmetric about zero. */
  lemma Round1Neg(x: real)
    ensures Round1(-x) == -Round1(x)
  {
    var y := x * 10.0;
    var f := y.Floor;
    assert -x * 10.0 == -y;
    if f as real == y {
      assert (-y).Floor == -f;
      assert RoundHalfEven(-y) == -f;
    } else {
      assert (-y).Floor == -f - 1;
      var frac := y - f as real;
      assert -y - (-f - 1) as real == 1.0 - frac;
      if frac == 0.5 {
        if f % 2 == 0 {
          assert (-f - 1) % 2 == 1;
        } else {
          assert (-f - 1) % 2 == 0;
        }
      }
      assert RoundHalfEven(-y) == -RoundHalfEven(y);
    }
  }

  /** Rounding gives a positive value exactly above 0.05: at 0.05 the tie goes to an even 0.0. */
  lemma Round1AboveZero(x: real)
    ensures Round1(x) > 0.0 <==> x > 0.05
  {
    var y := x * 10.0;
    var n := RoundHalfEven(y);
    assert Round1(x) == n as real / 10.0;
    if y > 0.5 {
      assert n >= 1;
    } else if y < 0.5 {
      assert n <= 0;
    } else {
      assert y.Floor == 0;
      assert n == 0;
    }
  }

  /** Rounding gives a negative value exactly below -0.05. */
  lemma Round1BelowZero(x: real)
    ensures Round1(x) < 0.0 <==> x < -0.05
  {
    Round1Neg(-x);
    Round1AboveZero(-x);
  }

  lemma {:induction false} SumOfTenths(xs: seq<real>)
    requires forall i :: 0 <= i < |xs| ==> IsTenths(xs[i])
    ensures IsTenths(Sum(xs))
  {
    if xs == [] {
      assert 0.0 * 10.0 == 0 as real;
    } else {
      SumOfTenths(xs[1..]);
      TenthsClosed(xs[0], Sum(xs[1..]));
    }
  }

  lemma {:induction false} SumAppend(xs: seq<real>, ys: seq<real>)
    ensures Sum(xs + ys) == Sum(xs) + Sum(ys)
  {
    if xs == [] {
      assert xs + ys == ys;
    } else {
      assert (xs + ys)[1..] == xs[1..] + ys;
      SumAppend(xs[1..], ys);
    }
  }

  lemma {:induction false} SumOfZeros(xs: seq<real>)
    requires forall i :: 0 <= i < |xs| ==> xs[i] == 0.0
    ensures Sum(xs) == 0.0
  {
    if xs != [] {
      SumOfZeros(xs[1..]);
    }
  }

  /** The sum of a column of one-decimal values needs no further rounding. */
  lemma RoundedSumOfTenths(xs: seq<real>)
    requires forall i :: 0 <= i < |xs| ==> IsTenths(xs[i])
    ensures Round1(Sum(xs)) == Sum(xs)
  {
    SumOfTenths(xs);
    Round1OfTenths(Sum(xs));
  }
  function Negated(xs: seq<real>): (ys: seq<real>)
    ensures |ys| == |xs| && forall i :: 0 <= i < |xs| ==> ys[i] == -xs[i]
  {
    seq(|xs|, i requires 0 <= i < |xs| => -xs[i])
  }

  lemma {:induction false} SumNegated(xs: seq<real>)
    ensures Sum(Negated(xs)) == -Sum(xs)
  {
    if xs != [] {
      assert Negated(xs)[1..] == Negated(xs[1..]);
      SumNegated(xs[1..]);
    }
  }

  /** Cell-by-cell sum of two equally long rows. */
  function Plus(xs: seq<real>, ys: seq<real>): (zs: seq<real>)
    requires |xs| == |ys|
    ensures |zs| == |xs| && forall i :: 0 <= i < |xs| ==> zs[i] == xs[i] + ys[i]
  {
    seq(|xs|, i requires 0 <= i < |xs| => xs[i] + ys[i])
  }

  lemma {:induction false} SumPlus(xs: seq<real>, ys: seq<real>)
    requires |xs| == |ys|
    ensures Sum(Plus(xs, ys)) == Sum(xs) + Sum(ys)
  {
    if xs != [] {
      assert Plus(xs, ys)[1..] == Plus(xs[1..], ys[1..]);
      SumPlus(xs[1..], ys[1..]);
    }
  }
}
