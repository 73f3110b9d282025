/** The two `evaluate` functions over exact arithmetic.

  The library square root is a parameter that is required to be one; a mean over no elements is NaN in the
  source and `None` here. */
module Metrics {
  import opened NamedArithmetic
  import opened Words

  const TINY := 0.000000000001
  const PASS := 0.9999

  function Max(x: real, y: real): real { if x < y then y else x }

  ghost predicate IsRoot(sqrt: real -> real)
  {
    forall a: real | a >= 0.0 :: sqrt(a) >= 0.0 && sqrt(a) * sqrt(a) == a
  }

  // ---- sums over the first n elements ----

  function Dot(x: seq<real>, y: seq<real>, n: nat): real
    requires n <= |x| && n <= |y|
  {
    if n == 0 then 0.0 else Dot(x, y, n - 1) + x[n - 1] * y[n - 1]
  }

  /** The sum of squares of `x - t y`. */
  function Residual(x: seq<real>, y: seq<real>, t: real, n: nat): real
    requires n <= |x| && n <= |y|
  {
    if n == 0 then 0.0
    else Residual(x, y, t, n - 1) + (x[n - 1] - t * y[n - 1]) * (x[n - 1] - t * y[n - 1])
  }

  function AbsSum(x: seq<real>, y: seq<real>, n: nat): real
    requires n <= |x| && n <= |y|
  {
    if n == 0 then 0.0 else AbsSum(x, y, n - 1) + AbsReal(x[n - 1] - y[n - 1])
  }

  function MaxError(x: seq<real>, y: seq<real>, n: nat): real
    requires n <= |x| && n <= |y|
  {
    if n == 0 then 0.0 else Max(MaxError(x, y, n - 1), AbsReal(x[n - 1] - y[n - 1]))
  }

  // ---- the two evaluators ----

  datatype KernelMetrics = KernelMetrics(
    latency: real, throughput: real, bandwidth: real, maxAbsError: real, meanAbsError: Option<real>,
    relativeL2: real, cosine: real, passed: bool)

  datatype XdnaKernelMetrics = XdnaKernelMetrics(
    latency: real, bandwidth: real, cosine: real, maxAbsError: real, activeColumns: nat, activeTiles: nat,
    hardwareExecuted: bool, passed: bool)

  function Ratio(dot: real, denom: real): real { if denom > TINY then dot / denom else 0.0 }

  function Cosine(sqrt: real -> real, dot: real, nAct: real, nRef: real): real
  {
    Ratio(dot, Scaled(sqrt(nAct), sqrt(nRef)))
  }

  function Bandwidth(bytes: nat, duration: real): real
  {
    if duration > 0.0 then bytes as real / (duration * 0.000001) / 1000000000.0 else 0.0
  }

  /** `Q4GemvEngine::evaluate`. */
  method EvaluateCpu(sqrt: real -> real, actual: seq<real>, reference: seq<real>, count: nat, weightBytes: nat,
                     duration: real) returns (m: KernelMetrics)
    requires count <= |actual| && count <= |reference|
    ensures m.maxAbsError == MaxError(actual, reference, count)
    ensures m.meanAbsError == if count == 0 then None else Some(AbsSum(actual, reference, count) / count as real)
    ensures m.cosine ==
            Cosine(sqrt, Dot(actual, reference, count), Dot(actual, actual, count), Dot(reference, reference, count))
    ensures m.relativeL2 == if Dot(reference, reference, count) > 0.000000000001
                            then sqrt(Residual(actual, reference, 1.0, count) / Dot(reference, reference, count))
                            else 0.0
    ensures m.passed <==> m.cosine >= 0.9999
    ensures m.latency == duration && m.bandwidth == Bandwidth(weightBytes, duration)
    ensures m.throughput == if duration > 0.0 then 1000000.0 / duration else 0.0
  {
    hide Cosine, Bandwidth, AbsReal, Max;
    var throughput := 0.0;
    if duration > 0.0 {
      throughput := 1000000.0 / duration;
    }
    var dot, nAct, nRef, l2Diff, absSum, maxErr := 0.0, 0.0, 0.0, 0.0, 0.0, 0.0;
    for i := 0 to count
      invariant dot == Dot(actual, reference, i)
      invariant nAct == Dot(actual, actual, i) && nRef == Dot(reference, reference, i)
      invariant l2Diff == Residual(actual, reference, 1.0, i) && absSum == AbsSum(actual, reference, i)
      invariant maxErr == MaxError(actual, reference, i)
    {
      var a, r := actual[i], reference[i];
      var diff := AbsReal(a - r);
      maxErr := Max(maxErr, diff);
      absSum := absSum + diff;
      l2Diff := l2Diff + (a - r) * (a - r);
      dot := dot + a * r;
      nAct := nAct + a * a;
      nRef := nRef + r * r;
    }
    var cosine := Cosine(sqrt, dot, nAct, nRef);
    m := KernelMetrics(duration, throughput, Bandwidth(weightBytes, duration), maxErr,
                       if count == 0 then None else Some(absSum / count as real),
                       if nRef > TINY then sqrt(l2Diff / nRef) else 0.0, cosine, cosine >= PASS);
  }

  /** `XdnaGemvEngine::evaluate`. */
  method EvaluateXdna(sqrt: real -> real, actual: seq<real>, reference: seq<real>, count: nat, packedBytes: nat,
                      duration: real, hardware: bool) returns (m: XdnaKernelMetrics)
    requires count <= |actual| && count <= |reference|
    ensures m.maxAbsError == MaxError(actual, reference, count)
    ensures m.cosine ==
            Cosine(sqrt, Dot(actual, reference, count), Dot(actual, actual, count), Dot(reference, reference, count))
    ensures m.passed <==> m.cosine >= 0.9999
    ensures m.latency == duration && m.bandwidth == Bandwidth(packedBytes, duration)
    ensures m.hardwareExecuted == hardware && m.activeColumns == 4 && m.activeTiles == 16
  {
    hide Cosine, Bandwidth, AbsReal, Max;
    var dot, nAct, nRef, maxErr := 0.0, 0.0, 0.0, 0.0;
    for i := 0 to count
      invariant dot == Dot(actual, reference, i)
      invariant nAct == Dot(actual, actual, i) && nRef == Dot(reference, reference, i)
      invariant maxErr == MaxError(actual, reference, i)
    {
      var a, r := actual[i], reference[i];
      dot := dot + a * r;
      nAct := nAct + a * a;
      nRef := nRef + r * r;
      maxErr := Max(maxErr, AbsReal(a - r));
    }
    var cosine := Cosine(sqrt, dot, nAct, nRef);
    m := XdnaKernelMetrics(duration, Bandwidth(packedBytes, duration), cosine, maxErr, 4, 16, hardware, cosine >= PASS);
  }

  /** The engines judge any pair of vectors alike. */
  method EvaluateBoth(sqrt: real -> real, actual: seq<real>, reference: seq<real>, count: nat, bytes: nat,
                      duration: real, hardware: bool) returns (cpu: KernelMetrics, xdna: XdnaKernelMetrics)
    requires IsRoot(sqrt) && count <= |actual| && count <= |reference|
    ensures cpu.cosine == xdna.cosine ==
            Cosine(sqrt, Dot(actual, reference, count), Dot(actual, actual, count), Dot(reference, reference, count))
    ensures cpu.maxAbsError == xdna.maxAbsError == MaxError(actual, reference, count)
    ensures cpu.passed == xdna.passed == (cpu.cosine >= 0.9999)
    ensures cpu.meanAbsError == if count == 0 then None else Some(AbsSum(actual, reference, count) / count as real)
    ensures -1.0 <= cpu.cosine <= 1.0
    ensures cpu.meanAbsError.Some? ==> 0.0 <= cpu.meanAbsError.value <= cpu.maxAbsError
  {
    hide Cosine, Bandwidth, Dot, Residual, AbsSum, MaxError, IsRoot;
    cpu := EvaluateCpu(sqrt, actual, reference, count, bytes, duration);
    xdna := EvaluateXdna(sqrt, actual, reference, count, bytes, duration, hardware);
    CosineBounded(sqrt, actual, reference, count);
    AbsSumBound(actual, reference, count);
    if count > 0 {
      MeanBelow(AbsSum(actual, reference, count), MaxError(actual, reference, count), count);
    }
  }

  // ---- what the sums satisfy ----

  lemma SquareNonNegative(x: real)
    ensures x * x >= 0.0
  {
  }

  lemma Expand(x: real, y: real, t: real, d: real, r: real)
    ensures (x - t * y) * (x - t * y) == x * x - 2.0 * t * (x * y) + t * t * (y * y)
    ensures 2.0 * t * (d + x * y) == 2.0 * t * d + 2.0 * t * (x * y)
    ensures t * t * (r + y * y) == t * t * r + t * t * (y * y)
  {
  }

  /** The sum of squares is a quadratic in `t`; at `t = 1` it is the squared distance. */
  lemma {:induction false} ResidualIs(x: seq<real>, y: seq<real>, t: real, n: nat)
    requires n <= |x| && n <= |y|
    ensures Residual(x, y, t, n) == Dot(x, x, n) - 2.0 * t * Dot(x, y, n) + t * t * Dot(y, y, n)
    ensures Residual(x, y, t, n) >= 0.0
  {
    if n != 0 {
      ResidualIs(x, y, t, n - 1);
      Expand(x[n - 1], y[n - 1], t, Dot(x, y, n - 1), Dot(y, y, n - 1));
      SquareNonNegative(x[n - 1] - t * y[n - 1]);
    }
  }

  /** `l2_diff = n_act + n_ref - 2 dot`. */
  lemma DistanceIs(x: seq<real>, y: seq<real>, n: nat)
    requires n <= |x| && n <= |y|
    ensures Residual(x, y, 1.0, n) == Dot(x, x, n) + Dot(y, y, n) - 2.0 * Dot(x, y, n) >= 0.0
  {
    ResidualIs(x, y, 1.0, n);
  }

  lemma {:induction false} NormIsZero(x: seq<real>, y: seq<real>, n: nat)
    requires n <= |x| && n <= |y|
    ensures Dot(y, y, n) >= 0.0
    ensures Dot(y, y, n) == 0.0 ==> Dot(x, y, n) == 0.0
  {
    if n != 0 {
      NormIsZero(x, y, n - 1);
      SquareNonNegative(y[n - 1]);
      if y[n - 1] != 0.0 {
        SquarePositive(y[n - 1]);
      }
    }
  }

  lemma SquarePositive(x: real)
    requires x != 0.0
    ensures x * x > 0.0
  {
  }

  /** Cauchy-Schwarz for vectors of any length. */
  lemma CauchySchwarz(x: seq<real>, y: seq<real>, n: nat)
    requires n <= |x| && n <= |y|
    ensures Dot(x, y, n) * Dot(x, y, n) <= Dot(x, x, n) * Dot(y, y, n)
  {
    hide Dot, Residual;
    NormIsZero(x, y, n);
    var a, d, b := Dot(x, x, n), Dot(x, y, n), Dot(y, y, n);
    if b > 0.0 {
      var t := d / b;
      ResidualIs(x, y, t, n);
      Discriminant(a, d, b, t);
    } else {
      assert d * d == 0.0 && a * b == 0.0;
    }
  }

  lemma Discriminant(a: real, d: real, b: real, t: real)
    requires b > 0.0 && t * b == d && a - 2.0 * t * d + t * t * b >= 0.0
    ensures d * d <= a * b
  {
  }

  /** The reported cosine is a cosine. */
  lemma CosineBounded(sqrt: real -> real, x: seq<real>, y: seq<real>, n: nat)
    requires IsRoot(sqrt) && n <= |x| && n <= |y|
    ensures -1.0 <= Cosine(sqrt, Dot(x, y, n), Dot(x, x, n), Dot(y, y, n)) <= 1.0
  {
    hide Dot, Scaled, Ratio;
    CauchySchwarz(x, y, n);
    NormIsZero(x, x, n);
    NormIsZero(y, y, n);
    var a, b := Dot(x, x, n), Dot(y, y, n);
    QuotientOfRoots(sqrt(a), sqrt(b), a, b, Dot(x, y, n));
  }

  lemma QuotientOfRoots(p: real, q: real, a: real, b: real, d: real)
    requires p * p == a && q * q == b && d * d <= a * b
    ensures -1.0 <= Ratio(d, Scaled(p, q)) <= 1.0
  {
    var denom := Scaled(p, q);
    RootProduct(p, q, a, b);
    if denom > TINY {
      SquareOrder(d, denom);
      QuotientBounded(d, denom);
    }
  }

  lemma RootProduct(p: real, q: real, a: real, b: real)
    requires p * p == a && q * q == b
    ensures Scaled(p, q) * Scaled(p, q) == a * b
  {
  }

  lemma GreaterSquare(a: real, b: real)
    requires a > 0.0
    ensures a < b ==> a * a < b * b
  {
  }

  lemma SquareOrder(d: real, m: real)
    requires m > 0.0 && d * d <= m * m
    ensures -m <= d <= m
  {
    GreaterSquare(m, d);
    GreaterSquare(m, -d);
    assert (-d) * (-d) == d * d;
  }

  lemma QuotientBounded(d: real, m: real)
    requires m > 0.0 && -m <= d <= m
    ensures -1.0 <= d / m <= 1.0
  {
  }

  /** The maximum error is one: no element's error is above it. */
  lemma {:induction false} MaxErrorCovers(x: seq<real>, y: seq<real>, n: nat)
    requires n <= |x| && n <= |y|
    ensures 0.0 <= MaxError(x, y, n) && forall i :: 0 <= i < n ==> AbsReal(x[i] - y[i]) <= MaxError(x, y, n)
    ensures n == 0 || exists i :: 0 <= i < n && AbsReal(x[i] - y[i]) == MaxError(x, y, n)
  {
    if n != 0 {
      MaxErrorCovers(x, y, n - 1);
      assert AbsReal(x[n - 1] - y[n - 1]) <= MaxError(x, y, n);
      if MaxError(x, y, n) == MaxError(x, y, n - 1) && n > 1 {
        var i :| 0 <= i < n - 1 && AbsReal(x[i] - y[i]) == MaxError(x, y, n - 1);
        assert AbsReal(x[i] - y[i]) == MaxError(x, y, n);
      } else {
        assert AbsReal(x[n - 1] - y[n - 1]) == MaxError(x, y, n);
      }
    }
  }

  /** `abs_sum <= count * max_err`, so the mean error is never above the maximum. */
  lemma {:induction false} AbsSumBound(x: seq<real>, y: seq<real>, n: nat)
    requires n <= |x| && n <= |y|
    ensures 0.0 <= MaxError(x, y, n) <= AbsSum(x, y, n) <= n as real * MaxError(x, y, n)
  {
    hide AbsReal;
    if n != 0 {
      AbsSumBound(x, y, n - 1);
      AbsAtLeast(x[n - 1] - y[n - 1]);
      MoreOf(n, MaxError(x, y, n - 1), MaxError(x, y, n), AbsSum(x, y, n - 1), AbsReal(x[n - 1] - y[n - 1]));
    }
  }

  lemma AbsAtLeast(a: real)
    ensures AbsReal(a) >= 0.0
  {
  }

  lemma MoreOf(n: nat, before: real, after: real, sum: real, next: real)
    requires n > 0 && before <= after && next <= after && sum <= (n - 1) as real * before
    ensures sum + next <= n as real * after
  {
  }

  lemma MeanBelow(sum: real, max: real, n: nat)
    requires n > 0 && 0.0 <= sum <= n as real * max
    ensures 0.0 <= sum / n as real <= max
  {
  }

  /** A vector compared with itself has no error, and passes exactly when its squared norm is above the
    threshold: an all-zero result is reported as failed. */
  lemma IdenticalPassesIff(sqrt: real -> real, x: seq<real>, n: nat)
    requires IsRoot(sqrt) && n <= |x|
    ensures MaxError(x, x, n) == 0.0
    ensures Cosine(sqrt, Dot(x, x, n), Dot(x, x, n), Dot(x, x, n)) >= 0.9999 <==> Dot(x, x, n) > 0.000000000001
  {
    NormIsZero(x, x, n);
    SelfError(x, n);
    var a := Dot(x, x, n);
    assert sqrt(a) * sqrt(a) == a;
    if a > TINY {
      OverItself(a);
    }
  }

  lemma OverItself(a: real)
    requires a > 0.0
    ensures a / a == 1.0
  {
  }

  lemma {:induction false} SelfError(x: seq<real>, n: nat)
    requires n <= |x|
    ensures MaxError(x, x, n) == 0.0
  {
    if n != 0 {
      SelfError(x, n - 1);
    }
  }

  /** The threshold is 0.9999: of two pairs with rational cosines just at it and just below, one passes. */
  lemma Threshold(sqrt: real -> real)
    requires IsRoot(sqrt)
    ensures var x, y := [1.0, 0.0, 0.0, 0.0, 0.0], [9999.0, 141.0, 10.0, 3.0, 3.0];
            Cosine(sqrt, Dot(x, y, 5), Dot(x, x, 5), Dot(y, y, 5)) == 0.9999 == PASS
    ensures var x, y := [1.0, 0.0, 0.0, 0.0, 0.0], [9998.0, 199.0, 19.0, 5.0, 3.0];
            Cosine(sqrt, Dot(x, y, 5), Dot(x, x, 5), Dot(y, y, 5)) == 0.9998 < PASS
  {
    hide Cosine;
    var x := [1.0, 0.0, 0.0, 0.0, 0.0];
    FiveDot(x, x);
    FiveDot(x, [9999.0, 141.0, 10.0, 3.0, 3.0]);
    FiveDot([9999.0, 141.0, 10.0, 3.0, 3.0], [9999.0, 141.0, 10.0, 3.0, 3.0]);
    FiveDot(x, [9998.0, 199.0, 19.0, 5.0, 3.0]);
    FiveDot([9998.0, 199.0, 19.0, 5.0, 3.0], [9998.0, 199.0, 19.0, 5.0, 3.0]);
    RationalCosine(sqrt, 9999.0);
    RationalCosine(sqrt, 9998.0);
  }

  lemma FiveDot(x: seq<real>, y: seq<real>)
    requires |x| == |y| == 5
    ensures Dot(x, y, 5) == x[0] * y[0] + x[1] * y[1] + x[2] * y[2] + x[3] * y[3] + x[4] * y[4]
  {
    assert Dot(x, y, 1) == x[0] * y[0];
    assert Dot(x, y, 2) == Dot(x, y, 1) + x[1] * y[1];
    assert Dot(x, y, 3) == Dot(x, y, 2) + x[2] * y[2];
    assert Dot(x, y, 4) == Dot(x, y, 3) + x[3] * y[3];
  }

  lemma RationalCosine(sqrt: real -> real, d: real)
    requires IsRoot(sqrt)
    ensures Cosine(sqrt, d, 1.0, 100000000.0) == d / 10000.0
  {
    RootIs(sqrt, 1.0);
    RootIs(sqrt, 10000.0);
  }

  lemma RootIs(sqrt: real -> real, r: real)
    requires IsRoot(sqrt) && r > 0.0
    ensures sqrt(r * r) == r
  {
    assert r * r >= 0.0;
    EqualSquares(sqrt(r * r), r);
  }

  lemma EqualSquares(s: real, r: real)
    requires s >= 0.0 && r > 0.0 && s * s == r * r
    ensures s == r
  {
    assert (s - r) * (s + r) == s * s - r * r == 0.0;
    if s > r {
      PositiveProduct(s - r, s + r);
    } else if s < r {
      PositiveProduct(r - s, s + r);
    }
  }

  lemma PositiveProduct(a: real, b: real)
    requires a > 0.0 && b > 0.0
    ensures a * b > 0.0
  {
  }

  /** Gigabytes a second from bytes and microseconds: a thousand times the rate times the time is the bytes. */
  lemma BandwidthMeans(bytes: nat, duration: real)
    ensures duration > 0.0 ==> 1000.0 * Bandwidth(bytes, duration) * duration == bytes as real
    ensures duration <= 0.0 ==> Bandwidth(bytes, duration) == 0.0
  {
    if duration > 0.0 {
      Rate(bytes as real, duration);
    }
  }

  lemma Rate(b: real, d: real)
    requires d > 0.0
    ensures 1000.0 * (b / (d * 0.000001) / 1000000000.0) * d == b
  {
    var e := d * 0.000001;
    var q := b / e;
    assert q * e == b;
    assert 1000.0 * (q / 1000000000.0) * d == q * (d * 0.000001);
  }

  /** The sums and the maximum over one pair. */
  lemma OneElement(a: real, b: real)
    ensures Dot([a], [b], 1) == a * b && Residual([a], [b], 1.0, 1) == (a - b) * (a - b)
    ensures AbsSum([a], [b], 1) == MaxError([a], [b], 1) == if a < b then b - a else a - b
  {
    assert Dot([a], [b], 0) == 0.0 && Residual([a], [b], 1.0, 0) == 0.0;
    assert AbsSum([a], [b], 0) == 0.0 && MaxError([a], [b], 0) == 0.0;
  }

  /** Over two stretches they add up, and the maximum is the larger one. */
  lemma {:induction false} Stretches(x: seq<real>, y: seq<real>, u: seq<real>, v: seq<real>)
    requires |x| == |y| && |u| == |v|
    ensures var m, n := |x|, |u|;
            Dot(x + u, y + v, m + n) == Dot(x, y, m) + Dot(u, v, n) &&
            Residual(x + u, y + v, 1.0, m + n) == Residual(x, y, 1.0, m) + Residual(u, v, 1.0, n) &&
            AbsSum(x + u, y + v, m + n) == AbsSum(x, y, m) + AbsSum(u, v, n) &&
            MaxError(x + u, y + v, m + n) == Max(MaxError(x, y, m), MaxError(u, v, n))
    decreases |u|
  {
    hide AbsReal, Max, Dot, Residual, AbsSum, MaxError;
    var m, n := |x|, |u|;
    if n == 0 {
      assert x + u == x && y + v == y;
      NoElement(u, v);
      MaxErrorNonNegative(x, y, m);
      MaxZero(MaxError(x, y, m));
    } else {
      var u', v' := u[..n - 1], v[..n - 1];
      Stretches(x, y, u', v');
      SameFront(x + u', y + v', x + u, y + v, m + n - 1);
      SameFront(u', v', u, v, n - 1);
      assert (x + u)[m + n - 1] == u[n - 1] && (y + v)[m + n - 1] == v[n - 1];
      LastElement(x + u, y + v, m + n);
      LastElement(u, v, n);
      MaxOfThree(MaxError(x, y, m), MaxError(u', v', n - 1), AbsReal(u[n - 1] - v[n - 1]));
    }
  }

  lemma NoElement(x: seq<real>, y: seq<real>)
    ensures Dot(x, y, 0) == Residual(x, y, 1.0, 0) == AbsSum(x, y, 0) == MaxError(x, y, 0) == 0.0
  {
  }

  lemma LastElement(x: seq<real>, y: seq<real>, n: nat)
    requires 0 < n <= |x| && n <= |y|
    ensures var a, b := x[n - 1], y[n - 1];
            Dot(x, y, n) == Dot(x, y, n - 1) + a * b &&
            Residual(x, y, 1.0, n) == Residual(x, y, 1.0, n - 1) + (a - b) * (a - b) &&
            AbsSum(x, y, n) == AbsSum(x, y, n - 1) + AbsReal(a - b) &&
            MaxError(x, y, n) == Max(MaxError(x, y, n - 1), AbsReal(a - b))
  {
    hide AbsReal, Max;
  }

  lemma MaxZero(a: real)
    requires a >= 0.0
    ensures Max(a, 0.0) == a
  {
  }

  lemma MaxOfThree(a: real, b: real, c: real)
    ensures Max(Max(a, b), c) == Max(a, Max(b, c))
  {
  }

  lemma {:induction false} MaxErrorNonNegative(x: seq<real>, y: seq<real>, n: nat)
    requires n <= |x| && n <= |y|
    ensures MaxError(x, y, n) >= 0.0
  {
    if n > 0 {
      MaxErrorNonNegative(x, y, n - 1);
    }
  }

  /** The sums over the first elements do not depend on the others. */
  lemma {:induction false} SameFront(x: seq<real>, y: seq<real>, u: seq<real>, v: seq<real>, n: nat)
    requires n <= |x| <= |u| && n <= |y| <= |v| && x == u[..|x|] && y == v[..|y|]
    ensures Dot(x, y, n) == Dot(u, v, n) && Residual(x, y, 1.0, n) == Residual(u, v, 1.0, n)
    ensures AbsSum(x, y, n) == AbsSum(u, v, n) && MaxError(x, y, n) == MaxError(u, v, n)
  {
    hide AbsReal, Max;
    if n > 0 {
      SameFront(x, y, u, v, n - 1);
      assert x[n - 1] == u[n - 1] && y[n - 1] == v[n - 1];
    }
  }
}
