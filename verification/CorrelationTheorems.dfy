/** What the reported correlation means: it lies in [-1, 1], is 0 for a constant series, reaches the
    ends exactly for linearly related series, and does not depend on the units. */
module CorrelationTheorems {
  import opened Correlation
  import opened Counting

  predicate Constant(xs: seq<real>) { forall i, j :: 0 <= i < |xs| && 0 <= j < |xs| ==> xs[i] == xs[j] }

  /** ys is slope * xs + offset, sample by sample. */
  predicate Affine(xs: seq<real>, ys: seq<real>, slope: real, offset: real) {
    |xs| == |ys| && forall i :: 0 <= i < |xs| ==> ys[i] == slope * xs[i] + offset
  }

  // ---------------------------------------------------------------- means and deviations

  lemma {:induction false} SumAffine(xs: seq<real>, ys: seq<real>, slope: real, offset: real)
    requires Affine(xs, ys, slope, offset)
    ensures Sum(ys) == slope * Sum(xs) + |xs| as real * offset
  {
    if xs != [] {
      var n := |xs| - 1;
      SumAffine(xs[..n], ys[..n], slope, offset);
      OneMore(slope, offset, Sum(xs[..n]), xs[n], n as real);
    }
  }

  lemma OneMore(slope: real, offset: real, sum: real, x: real, n: real)
    ensures slope * sum + n * offset + (slope * x + offset) == slope * (sum + x) + (n + 1.0) * offset
  {
    Distribute(slope, sum, x);
  }

  lemma MeanAffine(xs: seq<real>, ys: seq<real>, slope: real, offset: real)
    requires Affine(xs, ys, slope, offset) && xs != []
    ensures Mean(ys) == slope * Mean(xs) + offset
  {
    var n, mx, my := |xs| as real, Mean(xs), Mean(ys);
    SumAffine(xs, ys, slope, offset);
    Quotient(Sum(xs), n);
    Quotient(Sum(ys), n);
    SameMean(n, slope, offset, mx, my, Sum(xs), Sum(ys));
  }

  lemma SameMean(n: real, slope: real, offset: real, mx: real, my: real, sx: real, sy: real)
    requires n > 0.0 && mx * n == sx && my * n == sy && sy == slope * sx + n * offset
    ensures my == slope * mx + offset
  {
    var e := my - (slope * mx + offset);
    assert e * n == my * n - slope * (mx * n) - offset * n;
    SameSign(e, n);
  }

  predicate Scaled(a: seq<real>, c: seq<real>, slope: real) {
    |a| == |c| && forall i :: 0 <= i < |a| ==> c[i] == slope * a[i]
  }

  lemma DeviationsAffine(xs: seq<real>, ys: seq<real>, slope: real, offset: real)
    requires Affine(xs, ys, slope, offset) && xs != []
    ensures Scaled(Deviations(xs, Mean(xs)), Deviations(ys, Mean(ys)), slope)
  {
    MeanAffine(xs, ys, slope, offset);
    forall i | 0 <= i < |xs|
      ensures ys[i] - Mean(ys) == slope * (xs[i] - Mean(xs))
    {
      LinearDifference(slope, offset, xs[i], Mean(xs));
    }
  }

  lemma LinearDifference(slope: real, offset: real, x: real, m: real)
    ensures slope * x + offset - (slope * m + offset) == slope * (x - m)
  {
  }

  /** A series is constant exactly when its sum of squared deviations is 0. */
  lemma ConstantIff(xs: seq<real>)
    requires xs != []
    ensures var a := Deviations(xs, Mean(xs)); Dot(a, a) >= 0.0 && (Dot(a, a) == 0.0 <==> Constant(xs))
  {
    var a := Deviations(xs, Mean(xs));
    SquaresVanish(a);
    if Constant(xs) {
      assert Affine(xs, xs, 0.0, xs[0]);
      MeanAffine(xs, xs, 0.0, xs[0]);
    }
    if Dot(a, a) == 0.0 {
      forall i | 0 <= i < |xs|
        ensures xs[i] == Mean(xs)
      {
        assert a[i] == 0.0;
      }
    }
  }

  // ---------------------------------------------------------------- the quotient

  lemma RatioBounds(num: real, r: real, d: real)
    requires r >= 0.0 && r * r == d && d > 0.0 && num * num <= d
    ensures r > 0.0 && -1.0 <= num / r <= 1.0
    ensures num / r == 1.0 <==> num == r
    ensures num / r == -1.0 <==> num == -r
  {
    Square(r, d);
    if num > r || num < -r {
      LargerSquare(num, r, num * num, d);
    }
    RatioOf(num, r);
  }

  lemma LargerSquare(x: real, r: real, xx: real, rr: real)
    requires (x > r || x < -r) && r >= 0.0 && xx == x * x && rr == r * r
    ensures xx > rr
  {
    SquareDifference(x, r);
    if x > r {
      BothPositive(x - r, x + r, xx - rr);
    } else {
      BothNegative(x - r, x + r, xx - rr);
    }
  }

  lemma SquareDifference(x: real, r: real)
    ensures x * x - r * r == (x - r) * (x + r)
  {
  }

  lemma RatioOf(num: real, r: real)
    requires r > 0.0
    ensures num / r <= 1.0 <==> num <= r
    ensures num / r >= -1.0 <==> num >= -r
    ensures num / r == 1.0 <==> num == r
    ensures num / r == -1.0 <==> num == -r
  {
    var q := num / r;
    Quotient(num, r);
    assert (q - 1.0) * r == num - r && (q + 1.0) * r == num + r;
    SameSign(q - 1.0, r);
    SameSign(q + 1.0, r);
  }

  lemma UniqueRoot(x: real, y: real)
    requires x >= 0.0 && y >= 0.0 && x * x == y * y
    ensures x == y
  {
    if x > y {
      LargerSquare(x, y, x * x, y * y);
    } else if y > x {
      LargerSquare(y, x, y * y, x * x);
    }
  }

  // ---------------------------------------------------------------- theorems

  lemma PearsonIs(xs: seq<real>, ys: seq<real>, root: real -> real, x: real, y: real, num: real)
    requires |xs| == |ys| && xs != [] && IsRoot(root)
    requires var a, b := Deviations(xs, Mean(xs)), Deviations(ys, Mean(ys));
      x == Dot(a, a) && y == Dot(b, b) && num == Dot(a, b)
    ensures x >= 0.0 && y >= 0.0 && num * num <= x * y
    ensures x == 0.0 <==> Constant(xs)
    ensures y == 0.0 <==> Constant(ys)
    ensures Pearson(xs, ys, root) == Correlate(num, x, y, root)
  {
    ConstantIff(xs);
    ConstantIff(ys);
    CauchySchwarz(Deviations(xs, Mean(xs)), Deviations(ys, Mean(ys)));
  }

  lemma CorrelateBounds(num: real, x: real, y: real, root: real -> real)
    requires IsRoot(root) && x > 0.0 && y > 0.0 && num * num <= x * y
    ensures -1.0 <= Correlate(num, x, y, root) <= 1.0
    ensures Correlate(num, x, y, root) == 1.0 <==> num == root(x * y)
    ensures Correlate(num, x, y, root) == -1.0 <==> num == -root(x * y)
  {
    var d := x * y;
    Positive(x, y);
    RatioBounds(num, root(d), d);
  }

  /** The reported correlation lies in [-1, 1], and is exactly 0 when either series is constant. */
  lemma PearsonBounds(xs: seq<real>, ys: seq<real>, root: real -> real)
    requires |xs| == |ys| && xs != [] && IsRoot(root)
    ensures -1.0 <= Pearson(xs, ys, root) <= 1.0
    ensures Constant(xs) || Constant(ys) ==> Pearson(xs, ys, root) == 0.0
  {
    var a, b := Deviations(xs, Mean(xs)), Deviations(ys, Mean(ys));
    var x, y, num := Dot(a, a), Dot(b, b), Dot(a, b);
    PearsonIs(xs, ys, root, x, y, num);
    if x > 0.0 && y > 0.0 {
      CorrelateBounds(num, x, y, root);
    }
  }

  // ---------------------------------------------------------------- linear relations

  lemma {:induction false} ScaledDot(x: seq<real>, a: seq<real>, c: seq<real>, slope: real)
    requires |x| == |a| && Scaled(a, c, slope)
    ensures Dot(x, c) == slope * Dot(x, a)
  {
    if a != [] {
      var n := |a| - 1;
      ScaledDot(x[..n], a[..n], c[..n], slope);
      ScaledTerm(slope, x[n], a[n], c[n], Dot(x[..n], a[..n]));
    }
  }

  lemma ScaledTerm(slope: real, x: real, a: real, c: real, sum: real)
    requires c == slope * a
    ensures slope * sum + x * c == slope * (sum + x * a)
  {
    Distribute(slope, sum, x * a);
  }

  lemma AffineMoments(xs: seq<real>, ys: seq<real>, slope: real, offset: real, x: real, num: real)
    requires Affine(xs, ys, slope, offset) && xs != []
    requires var a, b := Deviations(xs, Mean(xs)), Deviations(ys, Mean(ys)); x == Dot(a, a) && num == Dot(a, b)
    ensures var b := Deviations(ys, Mean(ys)); num == slope * x && Dot(b, b) == slope * num
  {
    DeviationsAffine(xs, ys, slope, offset);
    MomentsOfScaled(Deviations(xs, Mean(xs)), Deviations(ys, Mean(ys)), slope, x, num);
  }

  lemma MomentsOfScaled(a: seq<real>, b: seq<real>, slope: real, x: real, num: real)
    requires Scaled(a, b, slope) && x == Dot(a, a) && num == Dot(a, b)
    ensures num == slope * x && Dot(b, b) == slope * num
  {
    ScaledDot(a, a, b, slope);
    SpreadOfScaled(a, b, slope, num);
  }

  lemma SpreadOfScaled(a: seq<real>, b: seq<real>, slope: real, num: real)
    requires Scaled(a, b, slope) && num == Dot(a, b)
    ensures Dot(b, b) == slope * num
  {
    ScaledDot(b, a, b, slope);
    DotSymmetric(a, b);
  }

  lemma RootOfSquare(root: real -> real, x: real, slope: real, num: real, y: real)
    requires IsRoot(root) && x > 0.0 && num == slope * x && y == slope * num
    ensures x * y >= 0.0
    ensures root(x * y) == if slope >= 0.0 then num else -num
  {
    Square(num, num * num);
    assert x * y == num * num;
    SameSign(slope, x);
    if slope >= 0.0 {
      UniqueRoot(root(x * y), num);
    } else {
      assert -num * -num == num * num;
      UniqueRoot(root(x * y), -num);
    }
  }

  lemma AffineGivesEnd(xs: seq<real>, ys: seq<real>, root: real -> real, slope: real, offset: real)
    requires xs != [] && IsRoot(root) && !Constant(xs)
    requires Affine(xs, ys, slope, offset) && slope != 0.0
    ensures Pearson(xs, ys, root) == if slope > 0.0 then 1.0 else -1.0
  {
    var a, b := Deviations(xs, Mean(xs)), Deviations(ys, Mean(ys));
    var x, y, num := Dot(a, a), Dot(b, b), Dot(a, b);
    PearsonIs(xs, ys, root, x, y, num);
    AffineMoments(xs, ys, slope, offset, x, num);
    RootOfSquare(root, x, slope, num, y);
    NotZero(slope, x, num);
    NotZero(slope, num, y);
    CorrelateBounds(num, x, y, root);
  }

  lemma NotZero(p: real, q: real, t: real)
    requires p != 0.0 && q != 0.0 && t == p * q
    ensures t != 0.0
  {
    if q > 0.0 {
      SameSign(p, q);
    } else {
      SameSign(p, -q);
      assert p * -q == -(p * q);
    }
  }

  lemma EndMoments(xs: seq<real>, ys: seq<real>, root: real -> real, x: real, y: real, num: real)
    requires |xs| == |ys| && xs != [] && IsRoot(root)
    requires var a, b := Deviations(xs, Mean(xs)), Deviations(ys, Mean(ys));
      x == Dot(a, a) && y == Dot(b, b) && num == Dot(a, b)
    requires Pearson(xs, ys, root) == 1.0 || Pearson(xs, ys, root) == -1.0
    ensures !Constant(xs) && x > 0.0 && x * y - num * num == 0.0
    ensures if Pearson(xs, ys, root) == 1.0 then num > 0.0 else num < 0.0
  {
    PearsonIs(xs, ys, root, x, y, num);
    CorrelateBounds(num, x, y, root);
    AtTheEnd(x, y, num, root(x * y), x * y - num * num);
  }

  lemma DeviationsToAffine(xs: seq<real>, ys: seq<real>, slope: real)
    requires |xs| == |ys| && xs != []
    requires Scaled(Deviations(xs, Mean(xs)), Deviations(ys, Mean(ys)), slope)
    ensures Affine(xs, ys, slope, Mean(ys) - slope * Mean(xs))
  {
    var a, b := Deviations(xs, Mean(xs)), Deviations(ys, Mean(ys));
    forall i | 0 <= i < |xs|
      ensures ys[i] == slope * xs[i] + (Mean(ys) - slope * Mean(xs))
    {
      assert b[i] == slope * a[i];
      LinearDifference(slope, 0.0, xs[i], Mean(xs));
    }
  }

  lemma SlopeOf(a: seq<real>, b: seq<real>, x: real, y: real, num: real) returns (slope: real)
    requires |a| == |b| && x == Dot(a, a) && y == Dot(b, b) && num == Dot(a, b)
    requires x > 0.0 && x * y - num * num == 0.0
    ensures Scaled(a, b, slope) && (num > 0.0 ==> slope > 0.0) && (num < 0.0 ==> slope < 0.0)
  {
    slope := num / x;
    Quotient(num, x);
    SameSign(slope, x);
    Lagrange(a, b, x, num, 0.0);
    Proportional(a, b, x, num, slope);
  }

  /** At the ends every deviation of one series is the same multiple of the other's. */
  lemma EndGivesAffine(xs: seq<real>, ys: seq<real>, root: real -> real) returns (slope: real, offset: real)
    requires |xs| == |ys| && xs != [] && IsRoot(root)
    requires Pearson(xs, ys, root) == 1.0 || Pearson(xs, ys, root) == -1.0
    ensures !Constant(xs) && Affine(xs, ys, slope, offset)
    ensures if Pearson(xs, ys, root) == 1.0 then slope > 0.0 else slope < 0.0
  {
    var a, b := Deviations(xs, Mean(xs)), Deviations(ys, Mean(ys));
    var x, y, num := Dot(a, a), Dot(b, b), Dot(a, b);
    EndMoments(xs, ys, root, x, y, num);
    slope := SlopeOf(a, b, x, y, num);
    offset := Mean(ys) - slope * Mean(xs);
    DeviationsToAffine(xs, ys, slope);
  }

  lemma Proportional(a: seq<real>, b: seq<real>, x: real, num: real, slope: real)
    requires |a| == |b| && x > 0.0 && slope * x == num
    requires var c := Combination(a, b, x, num); Dot(c, c) == 0.0
    ensures Scaled(a, b, slope)
  {
    var c := Combination(a, b, x, num);
    SquaresVanish(c);
    forall i | 0 <= i < |a|
      ensures b[i] == slope * a[i]
    {
      assert c[i] == x * b[i] - num * a[i];
      SamePoint(x, num, slope, a[i], b[i]);
    }
  }

  lemma AtTheEnd(x: real, y: real, num: real, r: real, d: real)
    requires x > 0.0 && y > 0.0 && r >= 0.0 && r * r == x * y && (num == r || num == -r)
    requires d == x * y - num * num
    ensures d == 0.0 && num != 0.0 && (num > 0.0 <==> num == r)
  {
    Positive(x, y);
    Square(r, x * y);
    if num == -r {
      assert num * num == r * r;
    }
  }

  lemma SamePoint(x: real, num: real, slope: real, a: real, b: real)
    requires x > 0.0 && slope * x == num && x * b - num * a == 0.0
    ensures b == slope * a
  {
    var e := b - slope * a;
    assert e * x == x * b - slope * x * a;
    SameSign(e, x);
  }

  /** The correlation is 1, or -1, exactly when throughput is an increasing, or decreasing, linear
      function of the frequency over a series that is not constant. */
  lemma EndsIff(xs: seq<real>, ys: seq<real>, root: real -> real)
    requires |xs| == |ys| && xs != [] && IsRoot(root)
    ensures Pearson(xs, ys, root) == 1.0
            <==> !Constant(xs) && exists slope, offset :: slope > 0.0 && Affine(xs, ys, slope, offset)
    ensures Pearson(xs, ys, root) == -1.0
            <==> !Constant(xs) && exists slope, offset :: slope < 0.0 && Affine(xs, ys, slope, offset)
  {
    if Pearson(xs, ys, root) == 1.0 || Pearson(xs, ys, root) == -1.0 {
      var slope, offset := EndGivesAffine(xs, ys, root);
      assert Affine(xs, ys, slope, offset);
    }
    forall slope, offset | slope != 0.0 && Affine(xs, ys, slope, offset) && !Constant(xs)
      ensures Pearson(xs, ys, root) == if slope > 0.0 then 1.0 else -1.0
    {
      AffineGivesEnd(xs, ys, root, slope, offset);
    }
  }

  // ---------------------------------------------------------------- units

  lemma Symmetric(xs: seq<real>, ys: seq<real>, root: real -> real)
    requires |xs| == |ys| && xs != [] && IsRoot(root)
    ensures Pearson(xs, ys, root) == Pearson(ys, xs, root)
  {
    var a, b := Deviations(xs, Mean(xs)), Deviations(ys, Mean(ys));
    DotSymmetric(a, b);
    Commute(Dot(a, a), Dot(b, b));
  }

  lemma ScaledMoments(xs: seq<real>, scaled: seq<real>, ys: seq<real>, slope: real, offset: real, x: real, num: real)
      returns (mixed: real)
    requires |xs| == |ys| && xs != [] && Affine(xs, scaled, slope, offset)
    requires var a, b := Deviations(xs, Mean(xs)), Deviations(ys, Mean(ys)); x == Dot(a, a) && num == Dot(a, b)
    ensures var a', b := Deviations(scaled, Mean(scaled)), Deviations(ys, Mean(ys));
      Dot(a', b) == slope * num && mixed == slope * x && Dot(a', a') == slope * mixed
  {
    var a, a', b := Deviations(xs, Mean(xs)), Deviations(scaled, Mean(scaled)), Deviations(ys, Mean(ys));
    mixed := Dot(a, a');
    AffineMoments(xs, scaled, slope, offset, x, mixed);
    DeviationsAffine(xs, scaled, slope, offset);
    ScaledDot(b, a, a', slope);
    DotSymmetric(b, a');
    DotSymmetric(b, a);
  }

  lemma ScaledCorrelate(num: real, x: real, y: real, root: real -> real, slope: real, num': real, mixed: real, x': real)
    requires IsRoot(root) && slope > 0.0 && x >= 0.0 && y >= 0.0
    requires num' == slope * num && mixed == slope * x && x' == slope * mixed
    ensures Correlate(num', x', y, root) == Correlate(num, x, y, root)
  {
    if x > 0.0 && y > 0.0 {
      Positive(slope, x);
      Positive(slope, mixed);
      var r, r' := root(x * y), root(x' * y);
      CorrelateIs(num, x, y, root, r);
      CorrelateIs(num', x', y, root, r');
      ScaledRoot(x, y, slope, mixed, x', r, r');
      ScaledRatio(num, r, slope, num', r');
    } else if x == 0.0 {
      SameFactor(slope, x, 0.0);
      SameFactor(slope, mixed, 0.0);
      assert x' == 0.0;
    }
  }

  lemma CorrelateIs(num: real, x: real, y: real, root: real -> real, r: real)
    requires IsRoot(root) && x > 0.0 && y > 0.0 && r == root(x * y)
    ensures r > 0.0 && r * r == x * y && Correlate(num, x, y, root) == num / r
  {
    Positive(x, y);
    Square(r, x * y);
  }

  lemma ScaledRoot(x: real, y: real, slope: real, mixed: real, x': real, r: real, r': real)
    requires slope > 0.0 && r >= 0.0 && r' >= 0.0 && r * r == x * y && r' * r' == x' * y
    requires mixed == slope * x && x' == slope * mixed
    ensures r' == slope * r
  {
    assert slope * r >= 0.0;
    assert (slope * r) * (slope * r) == slope * (slope * (r * r));
    UniqueRoot(r', slope * r);
  }

  lemma ScaledRatio(num: real, r: real, slope: real, num': real, r': real)
    requires r > 0.0 && slope > 0.0 && num' == slope * num && r' == slope * r
    ensures r' > 0.0 && num' / r' == num / r
  {
    Positive(slope, r);
    var q, q' := num / r, num' / r';
    Quotient(num, r);
    Quotient(num', r');
    assert (q' - q) * r' == q' * r' - slope * (q * r);
    SameSign(q' - q, r');
  }

  /** The unit and the origin in which a series is measured do not matter. */
  lemma UnitsIrrelevant(xs: seq<real>, scaled: seq<real>, ys: seq<real>, slope: real, offset: real, root: real -> real)
    requires |xs| == |ys| && xs != [] && IsRoot(root) && slope > 0.0 && Affine(xs, scaled, slope, offset)
    ensures Pearson(scaled, ys, root) == Pearson(xs, ys, root)
    ensures Pearson(ys, scaled, root) == Pearson(ys, xs, root)
  {
    var a, a', b := Deviations(xs, Mean(xs)), Deviations(scaled, Mean(scaled)), Deviations(ys, Mean(ys));
    var x, y, num := Dot(a, a), Dot(b, b), Dot(a, b);
    var mixed := ScaledMoments(xs, scaled, ys, slope, offset, x, num);
    SquaresVanish(a);
    SquaresVanish(b);
    ScaledCorrelate(num, x, y, root, slope, Dot(a', b), mixed, Dot(a', a'));
    Symmetric(scaled, ys, root);
    Symmetric(xs, ys, root);
  }

  // ---------------------------------------------------------------- the mean

  lemma {:induction false} SumJoin(xs: seq<real>, ys: seq<real>)
    ensures Sum(xs + ys) == Sum(xs) + Sum(ys)
    decreases |ys|
  {
    if ys == [] {
      assert xs + ys == xs;
    } else {
      var n := |ys| - 1;
      SumJoin(xs, ys[..n]);
      assert (xs + ys)[..|xs + ys| - 1] == xs + ys[..n];
    }
  }

  /** The sum of squared deviations from m, multiplied out. */
  lemma {:induction false} SquaresAround(xs: seq<real>, n: real, m: real, sum: real, xx: real, d: real)
    requires n == |xs| as real && sum == Sum(xs) && xx == Dot(xs, xs)
    requires d == Dot(Deviations(xs, m), Deviations(xs, m))
    ensures d == xx - 2.0 * m * sum + n * (m * m)
    decreases |xs|
  {
    if xs != [] {
      var ys, x := xs[..|xs| - 1], xs[|xs| - 1];
      var sum', xx', d' := Sum(ys), Dot(ys, ys), Dot(Deviations(ys, m), Deviations(ys, m));
      SquaresAround(ys, n - 1.0, m, sum', xx', d');
      FrontDeviations(xs, m);
      OneMoreSquare(m, x, x - m, xx', sum', n - 1.0, d', d, xx, sum, n);
    }
  }

  lemma FrontDeviations(xs: seq<real>, m: real)
    requires xs != []
    ensures Deviations(xs, m)[..|xs| - 1] == Deviations(xs[..|xs| - 1], m)
  {
  }

  lemma OneMoreSquare(m: real, x: real, d: real, xx: real, sum: real, n: real, dd: real,
                      newDd: real, newXx: real, newSum: real, newN: real)
    requires d == x - m && dd == xx - 2.0 * m * sum + n * (m * m)
    requires newDd == dd + d * d && newXx == xx + x * x && newSum == sum + x && newN == n + 1.0
    ensures newDd == newXx - 2.0 * m * newSum + newN * (m * m)
  {
    assert d * d == x * x - 2.0 * m * x + m * m;
    Distribute(2.0 * m, sum, x);
    Distribute(m * m, n, 1.0);
  }

  lemma SumOfMean(xs: seq<real>, mean: real)
    requires xs != [] && mean == Mean(xs)
    ensures mean * |xs| as real == Sum(xs)
  {
    Quotient(Sum(xs), |xs| as real);
  }

  /** Around any other number than the mean the squared deviations are larger, by the number of
      samples times the squared distance. */
  lemma SquaresOff(xs: seq<real>, n: real, m: real, mean: real, sum: real, e: real, d: real, best: real)
    requires n == |xs| as real && sum == Sum(xs) && n > 0.0 && mean * n == sum && e == m - mean
    requires d == Dot(Deviations(xs, m), Deviations(xs, m))
    requires best == Dot(Deviations(xs, mean), Deviations(xs, mean))
    ensures d == best + n * (e * e)
    ensures best <= d && (best == d <==> m == mean)
  {
    var xx := Dot(xs, xs);
    SquaresAround(xs, n, m, sum, xx, d);
    SquaresAround(xs, n, mean, sum, xx, best);
    FartherOff(n, m, mean, sum, e, xx, d, best);
  }

  /** The mean is the one number around which the squared deviations are smallest. */
  lemma MeanIsBest(xs: seq<real>, m: real)
    requires xs != []
    ensures var d, best := Deviations(xs, m), Deviations(xs, Mean(xs));
      Dot(best, best) <= Dot(d, d) && (Dot(best, best) == Dot(d, d) <==> m == Mean(xs))
  {
    var d, best := Deviations(xs, m), Deviations(xs, Mean(xs));
    SumOfMean(xs, Mean(xs));
    SquaresOff(xs, |xs| as real, m, Mean(xs), Sum(xs), m - Mean(xs), Dot(d, d), Dot(best, best));
  }

  lemma FartherOff(n: real, m: real, mean: real, sum: real, e: real, xx: real, d: real, best: real)
    requires n > 0.0 && mean * n == sum && e == m - mean
    requires d == xx - 2.0 * m * sum + n * (m * m) && best == xx - 2.0 * mean * sum + n * (mean * mean)
    ensures d == best + n * (e * e)
    ensures best <= d && (best == d <==> m == mean)
  {
    var ee := e * e;
    ExpandSquare(n, m, mean, sum, e);
    Square(e, ee);
    SameSign(ee, n);
    Commute(ee, n);
  }

  lemma ExpandSquare(n: real, m: real, mean: real, sum: real, e: real)
    requires mean * n == sum && e == m - mean
    ensures n * (e * e) == n * (m * m) - 2.0 * m * sum + 2.0 * mean * sum - n * (mean * mean)
  {
    assert e * e == m * m - 2.0 * (m * mean) + mean * mean;
    assert m * sum == n * (m * mean);
    assert mean * sum == n * (mean * mean);
    assert n * (e * e) == n * (m * m) - 2.0 * (n * (m * mean)) + n * (mean * mean);
  }

  // ---------------------------------------------------------------- the order of the samples

  function SumBy<T>(s: seq<T>, f: T -> real): real {
    if s == [] then 0.0 else SumBy(s[..|s| - 1], f) + f(s[|s| - 1])
  }

  lemma {:induction false} SumByJoin<T>(s: seq<T>, t: seq<T>, f: T -> real)
    ensures SumBy(s + t, f) == SumBy(s, f) + SumBy(t, f)
    decreases |t|
  {
    if t == [] {
      assert s + t == s;
    } else {
      SumByJoin(s, t[..|t| - 1], f);
      assert (s + t)[..|s + t| - 1] == s + t[..|t| - 1];
    }
  }

  lemma SumByOne<T>(x: T, f: T -> real)
    ensures SumBy([x], f) == f(x)
  {
    assert [x][..0] == [];
  }

  lemma SumByAround<T>(before: seq<T>, x: T, after: seq<T>, f: T -> real)
    ensures SumBy(before + ([x] + after), f) == f(x) + SumBy(before + after, f)
  {
    SumByJoin(before, [x] + after, f);
    SumByJoin([x], after, f);
    SumByOne(x, f);
    SumByJoin(before, after, f);
  }

  lemma SumByWithout<T>(s: seq<T>, i: nat, f: T -> real)
    requires i < |s|
    ensures SumBy(s, f) == f(s[i]) + SumBy(Without(s, i), f)
  {
    Around(s, i);
    SumByAround(s[..i], s[i], s[i + 1..], f);
  }

  lemma {:induction false} SumByOrder<T>(s: seq<T>, t: seq<T>, f: T -> real)
    requires multiset(s) == multiset(t)
    ensures SumBy(s, f) == SumBy(t, f)
    decreases |s|
  {
    if s == [] {
      assert |t| == |multiset(t)| == 0;
    } else {
      var i := FindFirst(s, t);
      WithoutCounts(s, 0);
      WithoutCounts(t, i);
      SumByOrder(Without(s, 0), Without(t, i), f);
      SumByWithout(s, 0, f);
      SumByWithout(t, i, f);
    }
  }

  lemma {:induction false} SumAsBy<T>(xs: seq<real>, s: seq<T>, f: T -> real)
    requires |xs| == |s| && forall i :: 0 <= i < |s| ==> xs[i] == f(s[i])
    ensures Sum(xs) == SumBy(s, f)
  {
    if s != [] {
      SumAsBy(xs[..|s| - 1], s[..|s| - 1], f);
    }
  }

  lemma {:induction false} DotAsBy<T>(a: seq<real>, b: seq<real>, s: seq<T>, f: T -> real)
    requires |a| == |b| == |s| && forall i :: 0 <= i < |s| ==> a[i] * b[i] == f(s[i])
    ensures Dot(a, b) == SumBy(s, f)
  {
    if s != [] {
      var n := |s| - 1;
      assert forall i :: 0 <= i < n ==> a[..n][i] * b[..n][i] == f(s[..n][i]);
      DotAsBy(a[..n], b[..n], s[..n], f);
    }
  }

  /** A series read off the elements of a list. */
  function Series<T>(s: seq<T>, f: T -> real): (r: seq<real>)
    ensures |r| == |s|
  {
    seq(|s|, i requires 0 <= i < |s| => f(s[i]))
  }

  lemma MeanOrder<T>(s: seq<T>, t: seq<T>, f: T -> real)
    requires multiset(s) == multiset(t) && s != []
    ensures t != [] && Mean(Series(s, f)) == Mean(Series(t, f))
  {
    assert |s| == |multiset(s)| == |multiset(t)| == |t|;
    SumAsBy(Series(s, f), s, f);
    SumAsBy(Series(t, f), t, f);
    SumByOrder(s, t, f);
  }

  /** One product of deviations. */
  function Product<T>(f: T -> real, g: T -> real, mf: real, mg: real): T -> real {
    (x: T) => (f(x) - mf) * (g(x) - mg)
  }

  lemma SeriesDot<T>(s: seq<T>, f: T -> real, g: T -> real, mf: real, mg: real)
    ensures Dot(Deviations(Series(s, f), mf), Deviations(Series(s, g), mg)) == SumBy(s, Product(f, g, mf, mg))
  {
    DotAsBy(Deviations(Series(s, f), mf), Deviations(Series(s, g), mg), s, Product(f, g, mf, mg));
  }

  lemma DotOrder<T>(s: seq<T>, t: seq<T>, f: T -> real, g: T -> real, mf: real, mg: real)
    requires multiset(s) == multiset(t)
    ensures Dot(Deviations(Series(s, f), mf), Deviations(Series(s, g), mg))
            == Dot(Deviations(Series(t, f), mf), Deviations(Series(t, g), mg))
  {
    SeriesDot(s, f, g, mf, mg);
    SeriesDot(t, f, g, mf, mg);
    SumByOrder(s, t, Product(f, g, mf, mg));
  }

  /** Only which pairs of readings occur, and how often, matters: not their order. */
  lemma PearsonOrder<T>(s: seq<T>, t: seq<T>, f: T -> real, g: T -> real, root: real -> real)
    requires multiset(s) == multiset(t) && s != [] && IsRoot(root)
    ensures t != [] && Pearson(Series(s, f), Series(s, g), root) == Pearson(Series(t, f), Series(t, g), root)
  {
    MeanOrder(s, t, f);
    MeanOrder(s, t, g);
    var mf, mg := Mean(Series(s, f)), Mean(Series(s, g));
    DotOrder(s, t, f, g, mf, mg);
    DotOrder(s, t, f, f, mf, mf);
    DotOrder(s, t, g, g, mg, mg);
  }

  /** The samples of a benchmark in any order have the same correlation. */
  lemma SampleOrderIrrelevant(s: seq<Sample>, t: seq<Sample>, root: real -> real)
    requires multiset(s) == multiset(t) && s != [] && IsRoot(root)
    ensures t != [] && Pearson(Throughputs(s), Freqs(s), root) == Pearson(Throughputs(t), Freqs(t), root)
  {
    var f, g := (x: Sample) => x.throughput.UnwrapOr(0.0), (x: Sample) => x.cpuFreq.UnwrapOr(0.0);
    PearsonOrder(s, t, f, g, root);
    assert Throughputs(s) == Series(s, f) && Throughputs(t) == Series(t, f);
    assert Freqs(s) == Series(s, g) && Freqs(t) == Series(t, g);
  }
}
