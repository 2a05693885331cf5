/** The statistics helpers of the preprocessing: LINQ's `Sum` and `Average` over a
    list of doubles and `MathExt.StdDev`, over the reals. */
module MathExt {

  /** Sum of a sequence, accumulated from the left as LINQ's `Sum` does. */
  function Sum(xs: seq<real>): real
  {
    if |xs| == 0 then 0.0 else Sum(xs[..|xs| - 1]) + xs[|xs| - 1]
  }

  /** LINQ's `Average`: sum divided by count. The source throws on an empty list. */
  function Average(xs: seq<real>): real
    requires |xs| > 0
  {
    Sum(xs) / (|xs| as real)
  }

  function Square(x: real): real
  {
    x * x
  }

  /** Sum of the squared deviations from `avg`. */
  function SquaredDeviations(xs: seq<real>, avg: real): real
  {
    if |xs| == 0 then 0.0
    else SquaredDeviations(xs[..|xs| - 1], avg) + Square(xs[|xs| - 1] - avg)
  }

  /** `sqrt` behaves as the square root on the non-negative reals. */
  ghost predicate IsSqrt(sqrt: real -> real)
  {
    forall x :: 0.0 <= x ==> 0.0 <= sqrt(x) && Square(sqrt(x)) == x
  }

  /** `MathExt.StdDev`: 0 for fewer than two values, otherwise the population
      standard deviation (divisor `count`). `sqrt` stands for `Math.Sqrt`. */
  function StdDev(xs: seq<real>, sqrt: real -> real): (r: real)
    ensures |xs| <= 1 ==> r == 0.0
  {
    if |xs| > 1 then sqrt(SquaredDeviations(xs, Average(xs)) / (|xs| as real)) else 0.0
  }

  lemma ProductPositive(a: real, b: real, q: real)
    requires a > 0.0 && b > 0.0 && q == a * b
    ensures q > 0.0
  {
  }

  /** A square is non-negative, and zero only for zero. */
  lemma SquareSign(d: real)
    ensures Square(d) >= 0.0
    ensures Square(d) == 0.0 <==> d == 0.0
  {
    if d > 0.0 {
      ProductPositive(d, d, Square(d));
    } else if d < 0.0 {
      ProductPositive(-d, -d, Square(d));
    }
  }

  lemma ScaledSquare(y: real, b: real, d: real)
    requires y * b == d
    ensures Square(y) * Square(b) == Square(d)
  {
  }

  lemma {:induction false} SquaredDeviationsNonNegative(xs: seq<real>, avg: real)
    ensures SquaredDeviations(xs, avg) >= 0.0
  {
    if |xs| > 0 {
      SquaredDeviationsNonNegative(xs[..|xs| - 1], avg);
      SquareSign(xs[|xs| - 1] - avg);
    }
  }

  /** The squared deviations vanish exactly when every value equals `avg`. */
  lemma {:induction false} SquaredDeviationsZero(xs: seq<real>, avg: real)
    ensures SquaredDeviations(xs, avg) == 0.0 <==> forall i :: 0 <= i < |xs| ==> xs[i] == avg
  {
    if |xs| > 0 {
      var init := xs[..|xs| - 1];
      SquaredDeviationsZero(init, avg);
      SquaredDeviationsNonNegative(init, avg);
      SquareSign(xs[|xs| - 1] - avg);
      if forall i :: 0 <= i < |xs| ==> xs[i] == avg {
        forall i | 0 <= i < |init| ensures init[i] == avg {
          assert init[i] == xs[i];
        }
      }
      if SquaredDeviations(xs, avg) == 0.0 {
        forall i | 0 <= i < |xs| ensures xs[i] == avg {
          if i < |init| {
            assert xs[i] == init[i];
          }
        }
      }
    }
  }

  /** The sum of `n` copies of `x` is `n * x`. */
  lemma {:induction false} SumConstant(xs: seq<real>, x: real)
    requires forall i :: 0 <= i < |xs| ==> xs[i] == x
    ensures Sum(xs) == (|xs| as real) * x
  {
    if |xs| > 0 {
      var init := xs[..|xs| - 1];
      forall i | 0 <= i < |init| ensures init[i] == x {
        assert init[i] == xs[i];
      }
      SumConstant(init, x);
    }
  }

  /** The prefix of two sequences related pointwise by `ys[i] * b == xs[i] - a`
      are related the same way. */
  lemma AffinePrefix(xs: seq<real>, ys: seq<real>, xi: seq<real>, yi: seq<real>, a: real, b: real)
    requires |xs| == |ys| > 0 && xi == xs[..|xs| - 1] && yi == ys[..|ys| - 1]
    requires forall i :: 0 <= i < |xs| ==> ys[i] * b == xs[i] - a
    ensures forall i :: 0 <= i < |xi| ==> yi[i] * b == xi[i] - a
  {
    forall i | 0 <= i < |xi| ensures yi[i] * b == xi[i] - a {
      assert yi[i] == ys[i] && xi[i] == xs[i];
    }
  }

  lemma DistributeSum(p: real, q: real, k: real, pk: real, qk: real)
    requires p * k == pk && q * k == qk
    ensures (p + q) * k == pk + qk
  {
  }


  /** Summing an affine image: if `ys[i] * b == xs[i] - a` for every i, then
      `Sum(ys) * b == Sum(xs) - n * a`. */
  lemma {:induction false} SumAffine(xs: seq<real>, ys: seq<real>, a: real, b: real)
    requires |xs| == |ys|
    requires forall i :: 0 <= i < |xs| ==> ys[i] * b == xs[i] - a
    ensures Sum(ys) * b == Sum(xs) - (|xs| as real) * a
  {
    var n := |xs|;
    if n > 0 {
      var xi, yi := xs[..n - 1], ys[..n - 1];
      AffinePrefix(xs, ys, xi, yi, a, b);
      SumAffine(xi, yi, a, b);
      DistributeSum(Sum(yi), ys[n - 1], b, Sum(xi) - ((n - 1) as real) * a, xs[n - 1] - a);
    }
  }

  /** Squared deviations of an affine image: if `ys[i] * b == xs[i] - a` for every i,
      then the squared deviations of `ys` from 0, times `b * b`, are those of `xs`
      from `a`. */
  lemma {:induction false} SquaredDeviationsAffine(xs: seq<real>, ys: seq<real>, a: real, b: real)
    requires |xs| == |ys|
    requires forall i :: 0 <= i < |xs| ==> ys[i] * b == xs[i] - a
    ensures SquaredDeviations(ys, 0.0) * Square(b) == SquaredDeviations(xs, a)
  {
    var n := |xs|;
    if n > 0 {
      var xi, yi := xs[..n - 1], ys[..n - 1];
      AffinePrefix(xs, ys, xi, yi, a, b);
      SquaredDeviationsAffine(xi, yi, a, b);
      ScaledSquare(ys[n - 1] - 0.0, b, xs[n - 1] - a);
      DistributeSum(SquaredDeviations(yi, 0.0), Square(ys[n - 1] - 0.0), Square(b),
                    SquaredDeviations(xi, a), Square(xs[n - 1] - a));
    }
  }

  /** A square root of `x` is 0 exactly when `x` is 0. */
  lemma SqrtZero(sqrt: real -> real, x: real)
    requires IsSqrt(sqrt) && 0.0 <= x
    ensures sqrt(x) == 0.0 <==> x == 0.0
  {
    SquareSign(sqrt(x));
  }

  /** With a true square root, StdDev is the population standard deviation: it is
      non-negative and its square is the squared deviations divided by `count`
      (not `count - 1`). */
  lemma StdDevIsPopulation(xs: seq<real>, sqrt: real -> real)
    requires IsSqrt(sqrt) && |xs| > 1
    ensures StdDev(xs, sqrt) >= 0.0
    ensures Square(StdDev(xs, sqrt)) == SquaredDeviations(xs, Average(xs)) / (|xs| as real)
  {
    SquaredDeviationsNonNegative(xs, Average(xs));
  }

  /** For two or more values, StdDev is 0 exactly when all values are equal. */
  lemma StdDevZeroIffConstant(xs: seq<real>, sqrt: real -> real)
    requires IsSqrt(sqrt) && |xs| > 1
    ensures StdDev(xs, sqrt) == 0.0 <==> forall i :: 0 <= i < |xs| ==> xs[i] == xs[0]
  {
    var n := |xs| as real;
    var avg := Average(xs);
    var sd := SquaredDeviations(xs, avg);
    SquaredDeviationsNonNegative(xs, avg);
    SqrtZero(sqrt, sd / n);
    assert sd / n == 0.0 <==> sd == 0.0;
    SquaredDeviationsZero(xs, avg);
    if forall i :: 0 <= i < |xs| ==> xs[i] == xs[0] {
      SumConstant(xs, xs[0]);
      assert avg == xs[0];
    }
  }
}
