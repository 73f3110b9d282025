/** The bit patterns of the three binary formats the reference converts between, and what they are worth.

  A pattern is a natural number and bit fields are taken with `/` and `%`.  The worth of a finite
  binary32 pattern is an integer count of 2^-149 (its smallest subnormal), that of a binary16 pattern a
  count of 2^-24, so every statement here is exact. Infinities and NaNs have no worth. */
module FloatFormats {
  import opened Words
  import opened NamedArithmetic

  const F23 := 0x80_0000
  const F31 := 0x8000_0000

  function Pow2(n: nat): (p: nat)
    ensures p >= 1
  {
    if n == 0 then 1 else 2 * Pow2(n - 1)
  }

  lemma {:induction false} Pow2Add(a: nat, b: nat)
    ensures Pow2(a + b) == Pow2(a) * Pow2(b)
  {
    if a != 0 {
      Pow2Add(a - 1, b);
      var p, q := Pow2(a - 1), Pow2(b);
      assert (2 * p) * q == 2 * (p * q);
    }
  }

  function Abs(x: int): nat { if x < 0 then -x else x }

  function Signed(sign: int, mag: int): int { if sign == 0 then mag else -mag }

  // ---- binary32 ----

  /** Magnitude of the pattern with the sign bit cleared, in units of 2^-149. */
  function Mag(x: nat): nat
  {
    if x / F23 == 0 then x % F23 else (F23 + x % F23) * Pow2(x / F23 - 1)
  }

  /** The spacing of binary32 values at `x`. */
  function Ulp(x: nat): (p: nat)
    ensures p >= 1
  {
    if x / F23 == 0 then 1 else Pow2(x / F23 - 1)
  }

  predicate FiniteFloat(u: u32) { (u % F31) / F23 < 255 }

  predicate NormalFloat(u: u32) { 1 <= (u % F31) / F23 < 255 }

  function FloatUnits(u: u32): int
  {
    Signed(u / F31, Mag(u % F31))
  }

  // ---- binary16 (section 3.4 of IEEE 754-2019) ----

  predicate FiniteHalf(h: u16) { (h / 1024) % 32 < 31 }

  function HalfMag(e: nat, m: nat): nat
  {
    if e == 0 then m else (1024 + m) * Pow2(e - 1)
  }

  function HalfUnits(h: u16): int
  {
    Signed(h / 0x8000, HalfMag((h / 1024) % 32, h % 1024))
  }

  /** The normalising loop's effect: double the significand until bit 10 is set. */
  function Normalized(m: nat, e: int): (int, int)
    requires 0 < m < 2048
    decreases 2048 - m
  {
    if (m / 1024) % 2 == 0 then Normalized(2 * m, e - 1) else (m, e)
  }

  /** The exponent and significand fields of the widened pattern. */
  function WidenedMag(e: nat, m: nat): (x: nat)
    requires e < 32 && m < 1024
    ensures x < F31
  {
    if e == 0 then
      if m == 0 then 0
      else
        NormalizedBounds(m, -14);
        var (m', e') := Normalized(m, -14);
        (e' + 127) * F23 + (m' % 1024) * 8192
    else if e == 31 then 0x7f80_0000 + m * 8192
    else (e - 15 + 127) * F23 + m * 8192
  }

  function WidenedHalf(h: u16): u32
  {
    (h / 0x8000) * F31 + WidenedMag((h / 1024) % 32, h % 1024)
  }

  lemma {:induction false} NormalizedBounds(m: nat, e: int)
    requires 0 < m < 2048
    ensures var (m', e') := Normalized(m, e);
            1024 <= m' < 2048 && e - 10 <= e' <= e && m' == m * Pow2(e - e')
  {
    hide Pow2;
    Pow2Of10();
    if m < 1024 {
      NormalizedShift(m, e, 10);
    } else {
      Pow2Next(0);
    }
  }

  lemma {:induction false} NormalizedShift(m: nat, e: int, k: nat)
    requires 0 < m < 2048 && Mul(m, Pow2(k)) >= 1024
    ensures var (m', e') := Normalized(m, e);
            1024 <= m' < 2048 && e - k <= e' <= e && m' == Mul(m, Pow2(e - e'))
    decreases k
  {
    hide Pow2, Mul;
    Pow2Next(0);
    MulBy(m, 1);
    if m < 1024 {
      assert k > 0;
      Pow2Next(k - 1);
      MulDouble(m, Pow2(k - 1));
      NormalizedShift(2 * m, e - 1, k - 1);
      var (m', e') := Normalized(2 * m, e - 1);
      Pow2Next(e - 1 - e');
      MulDouble(m, Pow2(e - 1 - e'));
    }
  }

  lemma MulDouble(a: nat, p: nat)
    ensures Mul(a, 2 * p) == Mul(2 * a, p)
  {
  }

  lemma Pow2Next(n: nat)
    ensures Pow2(n + 1) == 2 * Pow2(n) && Pow2(0) == 1
  {
  }

  /** `fp16_to_float`, with its loop over the subnormal significand. */
  method Fp16ToFloat(bits: u16) returns (r: u32)
    ensures r == WidenedHalf(bits)
  {
    var sign := (bits / 0x8000) * F31;
    var exponent := (bits / 1024) % 32;
    var mantissa := bits % 1024;
    if exponent == 0 {
      if mantissa == 0 {
        r := sign;
      } else {
        var significand, unbiased := NormalizeSubnormal(mantissa);
        r := sign + (unbiased + 127) * F23 + significand % 1024 * 8192;
      }
    } else if exponent == 31 {
      r := sign + 0x7f80_0000 + mantissa * 8192;
    } else {
      r := sign + (exponent - 15 + 127) * F23 + mantissa * 8192;
    }
  }

  /** The loop over a subnormal significand. */
  method NormalizeSubnormal(start: nat) returns (mantissa: nat, unbiased: int)
    requires 0 < start < 1024
    ensures (mantissa, unbiased) == Normalized(start, -14) && 1024 <= mantissa < 2048 && -24 <= unbiased <= -14
  {
    mantissa, unbiased := start, -14;
    NormalizedBounds(mantissa, unbiased);
    hide Pow2;
    while (mantissa / 1024) % 2 == 0
      invariant 0 < mantissa < 2048
      invariant Normalized(mantissa, unbiased) == Normalized(start, -14)
      decreases 2048 - mantissa
    {
      mantissa := mantissa * 2;
      unbiased := unbiased - 1;
    }
  }

  lemma Fields(e: nat, m: nat)
    requires m < F23
    ensures (e * F23 + m) / F23 == e && (e * F23 + m) % F23 == m
  {
  }

  lemma MulAssoc(a: int, b: int, c: int)
    ensures (a * b) * c == a * (b * c)
  {
  }

  lemma SubnormalUnits(m: nat, m': nat, k: nat)
    requires 1024 <= m' < 2048 && k <= 112 && m' == m * Pow2(112 - k)
    ensures (F23 + (m' % 1024) * 8192) * Pow2(k) == m * Pow2(125)
  {
    hide Pow2;
    Pow2Add(112 - k, 13 + k);
    MulAssoc(m, Pow2(112 - k), Pow2(13 + k));
    WideningUnits(m', k, m * Pow2(125));
  }

  lemma NormalUnits(m: nat, k: nat)
    requires m < 1024
    ensures (F23 + m * 8192) * Pow2(k + 112) == ((1024 + m) * Pow2(k)) * Pow2(125)
  {
    hide Pow2;
    Pow2Add(k, 125);
    MulAssoc(1024 + m, Pow2(k), Pow2(125));
    WideningUnits(1024 + m, k + 112, (1024 + m) * Pow2(k + 125));
  }

  /** Widening is exact on magnitudes and gives a normal pattern, or zero for zero. */
  lemma WideningMagExact(e: nat, m: nat)
    requires e < 31 && m < 1024
    ensures var x := WidenedMag(e, m);
            Mag(x) == HalfMag(e, m) * Pow2(125) && x % 8192 == 0 &&
            (x == 0 || 1 <= x / F23 <= 142)
  {
    if e == 0 {
      SubnormalMagExact(m);
    } else {
      NormalMagExact(e, m);
    }
  }

  lemma SubnormalPattern(m: nat, m': nat, e: nat)
    requires 1024 <= m' < 2048 && 1 <= e <= 113 && m' == m * Pow2(113 - e)
    ensures var x := e * F23 + (m' % 1024) * 8192;
            Mag(x) == m * Pow2(125) && x % 8192 == 0 && x / F23 == e
  {
    hide Mag, Pow2;
    SubnormalUnits(m, m', e - 1);
    PatternMag(e, (m' % 1024) * 8192);
  }

  lemma SubnormalMagExact(m: nat)
    requires m < 1024
    ensures var x := WidenedMag(0, m);
            Mag(x) == m * Pow2(125) && x % 8192 == 0 && (x == 0 || 1 <= x / F23 <= 142)
  {
    if m != 0 {
      hide Mag, Pow2, Normalized;
      NormalizedBounds(m, -14);
      var (m', e') := Normalized(m, -14);
      SubnormalPattern(m, m', e' + 127);
    }
  }

  lemma NormalMagExact(e: nat, m: nat)
    requires 0 < e < 31 && m < 1024
    ensures var x := WidenedMag(e, m);
            Mag(x) == HalfMag(e, m) * Pow2(125) && x % 8192 == 0 && 1 <= x / F23 <= 142
  {
    hide Pow2, Mag;
    NormalUnits(m, e - 1);
    PatternMag(e + 112, m * 8192);
  }

  lemma PatternMag(e: nat, m: nat)
    requires 1 <= e && m < F23 && m % 8192 == 0
    ensures var x := e * F23 + m;
            Mag(x) == (F23 + m) * Pow2(e - 1) && x % 8192 == 0 && x / F23 == e
  {
    hide Pow2;
    Fields(e, m);
    Multiple8192(e, m);
  }

  lemma Multiple8192(e: nat, m: nat)
    requires m % 8192 == 0
    ensures (e * F23 + m) % 8192 == 0
  {
  }

  /** `fp16_to_float` is exact for every finite half, subnormals included. */
  lemma WideningExact(h: u16)
    requires FiniteHalf(h)
    ensures var u := WidenedHalf(h);
            FloatUnits(u) == HalfUnits(h) * Pow2(125) &&
            (NormalFloat(u) || u % F31 == 0) && (u % F31) / F23 <= 142 && u % 8192 == 0
  {
    hide Mag, HalfMag, Pow2, WidenedMag;
    var s, e, m := h / 0x8000, (h / 1024) % 32, h % 1024;
    var x := WidenedMag(e, m);
    WideningMagExact(e, m);
    SignField(s, x);
    SignedMul(s, HalfMag(e, m), Pow2(125));
  }

  lemma SignField(s: nat, x: nat)
    requires s <= 1 && x < F31
    ensures (s * F31 + x) / F31 == s && (s * F31 + x) % F31 == x && (s * F31 + x) % 8192 == x % 8192
  {
  }

  lemma SignedMul(sign: int, mag: int, p: int)
    ensures Signed(sign, mag) * p == Signed(sign, mag * p)
    ensures mag >= 0 ==> Abs(Signed(sign, mag)) == mag
  {
  }

  lemma WideningUnits(m: nat, k: nat, want: nat)
    requires 1024 <= m < 2048 && m * Pow2(13 + k) == want
    ensures (F23 + (m % 1024) * 8192) * Pow2(k) == want
  {
    hide Pow2;
    Pow2Add(13, k);
    Pow2Of13();
    assert m % 1024 == m - 1024;
    assert F23 + (m % 1024) * 8192 == m * 8192;
    MulAssoc(m, 8192, Pow2(k));
  }

  lemma Pow2Of13()
    ensures Pow2(13) == 8192
  {
    Pow2Add(6, 7);
  }

  // ---- order of the magnitudes ----

  /** Between consecutive patterns the magnitude grows by one ulp, across binade boundaries too. */
  lemma MagNext(x: nat)
    ensures Mag(x + 1) == Mag(x) + Ulp(x)
  {
  }

  lemma {:induction false} MagMonotone(x: nat, y: nat)
    requires x <= y
    ensures Mag(x) <= Mag(y)
    ensures x < y ==> Mag(x) < Mag(y)
    decreases y - x
  {
    if x < y {
      MagMonotone(x, y - 1);
      MagNext(y - 1);
    }
  }

  /** Within the 65536 patterns that share a BF16 prefix the magnitude is linear, end point included. */
  lemma MagLinear(t: nat, d: nat)
    requires d <= 65536
    ensures Mag(t * 65536 + d) == Mag(t * 65536) + d * Ulp(t * 65536)
  {
    hide Mag, Ulp, Pow2;
    var e, m := t / 128, (t % 128) * 65536;
    assert t * 65536 == e * F23 + m && m + 65536 <= F23;
    MagOf(e, m);
    var p := Ulp(t * 65536);
    if m + d < F23 {
      MagOf(e, m + d);
      MulSum(F23 + m, d, p);
      assert t * 65536 + d == e * F23 + (m + d);
    } else {
      MagOf(e + 1, 0);
      MulSum(F23 + m, d, p);
      assert t * 65536 + d == (e + 1) * F23 + 0;
      assert d == 65536 && (F23 + m) + d == 2 * F23;
      DoubleFactor(F23, p);
    }
  }

  lemma DoubleFactor(a: nat, p: nat)
    ensures (2 * a) * p == a * (2 * p)
  {
  }

  lemma MulSum(a: nat, b: nat, p: nat)
    ensures (a + b) * p == a * p + b * p
  {
  }

  /** Magnitude and spacing from the exponent and significand fields. */
  lemma MagOf(e: nat, m: nat)
    requires m < F23
    ensures var x := e * F23 + m;
            Ulp(x) == (if e == 0 then 1 else Pow2(e - 1)) && Mag(x) == if e == 0 then m else (F23 + m) * Pow2(e - 1)
    ensures e > 1 ==> Pow2(e - 1) == 2 * Pow2(e - 2)
    ensures Pow2(0) == 1
  {
  }

  // ---- bfloat16 ----

  /** `bf16_to_float`: the pattern becomes the upper half of a binary32 pattern. */
  function Bf16ToFloat(b: u16): u32 { b * 65536 }

  predicate FiniteBf16(b: u16) { FiniteFloat(Bf16ToFloat(b)) }

  /** `float_to_bf16`: add the rounding bias modulo 2^32 and keep the upper half. */
  function FloatToBf16(u: u32): u16
  {
    var lsb := (u / 65536) % 2;
    var v := (u + (0x7FFF + lsb)) % U32_LIMIT;
    v / 65536
  }

  function Bf16Units(b: u16): int { FloatUnits(Bf16ToFloat(b)) }

  /** Distance of a BF16 value from a binary32 value. */
  function Distance(b: u16, u: u32): nat { Abs(Bf16Units(b) - FloatUnits(u)) }

  /** The upper half after the bias is added: `t` or its successor. */
  function Picked(t: nat, d: nat): nat { if d < 0x8000 || (d == 0x8000 && t % 2 == 0) then t else t + 1 }

  lemma BiasAdded(high: nat, d: nat)
    requires high < 0x1_0000 - 1 && d < 65536
    ensures FloatToBf16(high * 65536 + d) == Picked(high, d)
  {
    var u, bias := high * 65536 + d, 0x7FFF + high % 2;
    assert u / 65536 == high;
    assert u + bias < U32_LIMIT;
  }

  /** The rounding add leaves the sign alone and picks the prefix or its successor. */
  lemma RoundingPicks(u: u32)
    requires FiniteFloat(u)
    ensures var s, x := u / F31, u % F31;
            var q := Picked(x / 65536, x % 65536);
            q < 0x8000 && FloatToBf16(u) == s * 0x8000 + q &&
            Bf16ToFloat(FloatToBf16(u)) / F31 == s && Bf16ToFloat(FloatToBf16(u)) % F31 == q * 65536
  {
    hide FloatToBf16;
    var s, x := u / F31, u % F31;
    var t, d := x / 65536, x % 65536;
    assert x < 255 * F23 && t < 0x7F80;
    assert u == (s * 0x8000 + t) * 65536 + d;
    BiasAdded(s * 0x8000 + t, d);
    assert (s * 0x8000 + t) % 2 == t % 2;
    SignedPattern(s * 0x8000 + Picked(t, d));
  }

  lemma SignedPattern(b: u16)
    ensures Bf16ToFloat(b) / F31 == b / 0x8000 && Bf16ToFloat(b) % F31 == (b % 0x8000) * 65536
  {
  }

  /** The two BF16 neighbours of a magnitude, and where it lies between them. */
  lemma Neighbours(x: nat, q: nat)
    ensures var t, d := x / 65536, x % 65536;
            var low, ulp := Mag(t * 65536), Ulp(t * 65536);
            Mag(x) == low + d * ulp && Mag((t + 1) * 65536) == low + 65536 * ulp && ulp >= 1 &&
            (q <= t ==> Mag(q * 65536) <= low) &&
            (q > t ==> Mag(q * 65536) >= low + 65536 * ulp)
  {
    hide Mag, Ulp;
    var t, d := x / 65536, x % 65536;
    MagLinear(t, d);
    MagLinear(t, 65536);
    assert Ulp(t * 65536) >= 1;
    if q <= t {
      MagMonotone(q * 65536, t * 65536);
    } else {
      MagMonotone((t + 1) * 65536, q * 65536);
    }
  }

  /** The same choice on the number line: `x = low + d*ulp` between `low` and `low + 65536*ulp`, against
    a competitor of magnitude `m` that is not strictly between them. */
  lemma NearestOnLine(low: nat, ulp: nat, d: nat, m: nat, even: bool, sameSign: bool)
    requires d < 65536 && 1 <= ulp && (m <= low || m >= low + 65536 * ulp)
    ensures var x := low + d * ulp;
            var down := d < 0x8000 || (d == 0x8000 && even);
            var mine := Abs((if down then low else low + 65536 * ulp) - x);
            var its := if sameSign then Abs(m - x) else m + x;
            mine <= its &&
            (mine == its ==>
               (if down then low else low + 65536 * ulp) == (if sameSign then m else -m) ||
               (if down then even else !even))
  {
  }

  lemma SignedDistance(sign: int, a: nat, b: nat, x: nat, same: bool)
    ensures var s' := if same then sign else 1 - sign;
            (sign == 0 || sign == 1) ==>
            Abs(Signed(sign, a) - Signed(sign, x)) == Abs(a - x) &&
            Abs(Signed(s', b) - Signed(sign, x)) == (if same then Abs(b - x) else b + x) &&
            (Signed(sign, a) == Signed(s', b) <==> a == if same then b else 0 - b)
  {
  }

  /** The worth of a BF16 pattern, and of the pattern the rounding picks, by sign and magnitude. */
  lemma RoundedUnits(u: u32, other: u16)
    requires FiniteFloat(u)
    ensures var s, x := u / F31, u % F31;
            var t, d := x / 65536, x % 65536;
            var down := d < 0x8000 || (d == 0x8000 && t % 2 == 0);
            var b := FloatToBf16(u);
            Bf16Units(b) == Signed(s, if down then Mag(t * 65536) else Mag((t + 1) * 65536)) &&
            (b % 2 == 0 <==> down == (t % 2 == 0)) &&
            Bf16Units(other) == Signed(other / 0x8000, Mag((other % 0x8000) * 65536))
  {
    hide Mag, FloatToBf16, Bf16ToFloat;
    RoundingPicks(u);
    SignedPattern(other);
  }

  /** `float_to_bf16` is roundTiesToEven (section 4.3.1 of IEEE 754-2019): of all finite BF16 values the
    result is a nearest one, and on a tie the one with an even pattern. */
  lemma RoundsToNearestEven(u: u32, other: u16)
    requires FiniteFloat(u) && FiniteBf16(other)
    ensures var b := FloatToBf16(u);
            Distance(b, u) <= Distance(other, u) &&
            (Distance(b, u) == Distance(other, u) && Bf16Units(b) != Bf16Units(other) ==> b % 2 == 0)
  {
    hide Mag, Ulp, FloatToBf16, Bf16ToFloat, Bf16Units, Signed, Abs;
    RoundedUnits(u, other);
    var s, x := u / F31, u % F31;
    var t, d := x / 65536, x % 65536;
    var m := Mag((other % 0x8000) * 65536);
    var low, ulp := Mag(t * 65536), Ulp(t * 65536);
    Neighbours(x, other % 0x8000);
    var even := t % 2 == 0;
    NearestOnLine(low, ulp, d, m, even, other / 0x8000 == s);
    SignedDistance(s, if d < 0x8000 || (d == 0x8000 && even) then low else low + 65536 * ulp, m, Mag(x),
                   other / 0x8000 == s);
  }

  lemma RelativeOnLine(low: nat, ulp: nat, d: nat, f: nat, even: bool)
    requires d < 65536 && low + d * ulp == (F23 + f) * ulp
    ensures var x := low + d * ulp;
            var down := d < 0x8000 || (d == 0x8000 && even);
            256 * Abs((if down then low else low + 65536 * ulp) - x) <= x
  {
  }

  lemma MagInBinade(x: nat)
    requires 1 <= x / F23
    ensures Mag(x) == (F23 + x % F23) * Ulp((x / 65536) * 65536)
  {
  }

  /** The magnitude picked for a magnitude, and how far it is from a normal one. */
  function PickedMag(x: nat): nat { Mag(Picked(x / 65536, x % 65536) * 65536) }

  lemma PickedRelative(x: nat)
    requires 1 <= x / F23
    ensures 256 * Abs(PickedMag(x) - Mag(x)) <= Mag(x)
  {
    hide Mag, Ulp;
    var t, d := x / 65536, x % 65536;
    MagInBinade(x);
    Neighbours(x, 0);
    RelativeOnLine(Mag(t * 65536), Ulp(t * 65536), d, x % F23, t % 2 == 0);
  }

  lemma SameSignDistance(s: nat, a: nat, b: nat)
    ensures Abs(Signed(s, a) - Signed(s, b)) == Abs(a - b) && Abs(Signed(s, b)) == b
  {
  }

  lemma RoundingDistance(u: u32)
    requires FiniteFloat(u)
    ensures Distance(FloatToBf16(u), u) == Abs(PickedMag(u % F31) - Mag(u % F31)) && Abs(FloatUnits(u)) == Mag(u % F31)
  {
    hide Mag, FloatToBf16, Bf16ToFloat, Abs;
    RoundingPicks(u);
    SameSignDistance(u / F31, PickedMag(u % F31), Mag(u % F31));
  }

  /** Rounding a normal float moves it by at most 2^-8 of its magnitude. */
  lemma RoundingRelativeError(u: u32)
    requires NormalFloat(u) || u % F31 == 0
    ensures 256 * Distance(FloatToBf16(u), u) <= Abs(FloatUnits(u))
  {
    RoundingDistance(u);
    var x := u % F31;
    if x == 0 {
      assert PickedMag(0) == Mag(0) == 0;
    } else {
      PickedRelative(x);
    }
  }

  /** The rounding overflows to infinity exactly from the midpoint above the largest BF16 value on. */
  lemma RoundingFiniteIff(u: u32)
    requires FiniteFloat(u)
    ensures FiniteBf16(FloatToBf16(u)) <==> u % F31 < 0x7F7F_8000
  {
    RoundingPicks(u);
  }

  /** A float survives the rounding unchanged exactly when its lower 16 bits are zero. */
  lemma RoundingExactIff(u: u32)
    requires FiniteFloat(u)
    ensures Bf16Units(FloatToBf16(u)) == FloatUnits(u) <==> u % 65536 == 0
  {
    hide Mag, FloatToBf16, Bf16ToFloat;
    RoundingPicks(u);
    var x := u % F31;
    assert u % 65536 == x % 65536;
    PickedEqual(x);
  }

  lemma PickedEqual(x: nat)
    ensures PickedMag(x) == Mag(x) <==> x % 65536 == 0
  {
    hide Mag;
    var t, d := x / 65536, x % 65536;
    if d != 0 {
      MagMonotone(t * 65536, x);
      MagMonotone(x, (t + 1) * 65536);
    }
  }

  /** BF16 patterns come back unchanged from a trip through binary32. */
  lemma Bf16RoundTrip(b: u16)
    requires FiniteBf16(b)
    ensures FloatToBf16(Bf16ToFloat(b)) == b
  {
  }

  // ---- the scale conversion of the prepacker ----

  /** The worth of a scale after `float_to_bf16(fp16_to_float(h))`, as a count of 2^-149. */
  function RoundedScale(h: u16): u16 { FloatToBf16(WidenedHalf(h)) }

  /** No finite half is rounded to infinity, and the rounded scale is within 2^-8 of the scale. */
  lemma ScaleRounding(h: u16)
    requires FiniteHalf(h)
    ensures FiniteBf16(RoundedScale(h))
    ensures 256 * Abs(Bf16Units(RoundedScale(h)) - HalfUnits(h) * Pow2(125)) <= Abs(HalfUnits(h)) * Pow2(125)
  {
    hide Mag, FloatToBf16, Bf16ToFloat, WidenedHalf, Pow2;
    WideningExact(h);
    RoundingFiniteIff(WidenedHalf(h));
    RoundingRelativeError(WidenedHalf(h));
    SignedMul(h / 0x8000, HalfMag((h / 1024) % 32, h % 1024), Pow2(125));
  }

  /** The packed scale is roundTiesToEven of the half itself (section 4.3.1 of IEEE 754-2019): it keeps the sign, no
    finite BF16 value is nearer, and on a tie its pattern is even. */
  lemma ScaleRoundsToNearestEven(h: u16, other: u16)
    requires FiniteHalf(h) && FiniteBf16(other)
    ensures var x, b := HalfUnits(h) * Pow2(125), RoundedScale(h);
            b / 0x8000 == h / 0x8000 && Abs(Bf16Units(b) - x) <= Abs(Bf16Units(other) - x) &&
            (Abs(Bf16Units(b) - x) == Abs(Bf16Units(other) - x) && Bf16Units(b) != Bf16Units(other) ==> b % 2 == 0)
  {
    hide FloatToBf16, Bf16ToFloat, WidenedHalf, Pow2, HalfUnits, FloatUnits;
    WideningExact(h);
    WideningSign(h);
    RoundsToNearestEven(WidenedHalf(h), other);
    RoundedSign(WidenedHalf(h));
  }

  lemma RoundedSign(u: u32)
    requires FiniteFloat(u)
    ensures FloatToBf16(u) / 0x8000 == u / F31
  {
    hide FloatToBf16;
    RoundingPicks(u);
    SignedPattern(FloatToBf16(u));
  }

  // ---- infinities and NaNs ----

  /** Neither conversion loses a sign or a special value on the way up: exponent field 31 becomes 255 and the payload
    moves to the upper bits. */
  lemma WideningSign(h: u16)
    ensures WidenedHalf(h) / F31 == h / 0x8000
    ensures (h / 1024) % 32 == 31 ==>
              (WidenedHalf(h) % F31) / F23 == 255 && WidenedHalf(h) % F23 == (h % 1024) * 8192
  {
    hide WidenedMag;
    var x := WidenedMag((h / 1024) % 32, h % 1024);
    SignField(h / 0x8000, x);
    if (h / 1024) % 32 == 31 {
      SpecialMag(h % 1024);
      assert F31 == 256 * F23;
    }
  }

  lemma SpecialMag(m: nat)
    requires m < 1024
    ensures WidenedMag(31, m) == 255 * F23 + m * 8192
  {
  }

  /** Infinity and NaN of binary32, and of BF16 as the upper half. */
  predicate IsInfinity(u: u32) { u % F31 == 0x7F80_0000 }

  predicate IsNan(u: u32) { u % F31 > 0x7F80_0000 }

  /** The rounding add does not treat special patterns: an infinity stays itself, and a NaN stays a NaN exactly between
    two bounds; up to the lower one it becomes an infinity, from the upper one on a zero of the other sign. */
  lemma SpecialRounding(u: u32)
    ensures var v := Bf16ToFloat(FloatToBf16(u));
            (IsInfinity(u) ==> v == u) &&
            (IsNan(u) ==>
               (IsNan(v) <==> 0x7F80_8000 < u % F31 < 0x7FFF_8000) &&
               (u % F31 <= 0x7F80_8000 ==> IsInfinity(v) && v / F31 == u / F31) &&
               (u % F31 >= 0x7FFF_8000 ==> v % F31 == 0 && v / F31 != u / F31))
  {
    hide FloatToBf16, Bf16ToFloat;
    var s, x := u / F31, u % F31;
    var t, d := x / 65536, x % 65536;
    if x >= 0x7F80_0000 {
      assert 0x7F80 <= t <= 0x7FFF;
      assert u == (s * 0x8000 + t) * 65536 + d;
      SpecialPicked(s, t, d);
      SignedPattern(FloatToBf16(u));
      assert IsInfinity(u) ==> Bf16ToFloat(FloatToBf16(u)) == s * F31 + 0x7F80_0000 by {
        assert IsInfinity(u) ==> FloatToBf16(u) == s * 0x8000 + 0x7F80;
        PatternOf(s * 0x8000 + 0x7F80);
      }
    }
  }

  lemma PatternOf(b: u16)
    ensures Bf16ToFloat(b) == b * 65536
  {
  }

  lemma SpecialPicked(s: nat, t: nat, d: nat)
    requires s <= 1 && 0x7F80 <= t <= 0x7FFF && d < 65536
    ensures FloatToBf16((s * 0x8000 + t) * 65536 + d) ==
            if Picked(t, d) < 0x8000 then s * 0x8000 + Picked(t, d) else (1 - s) * 0x8000
  {
    if s * 0x8000 + t < 0xFFFF {
      hide FloatToBf16;
      BiasAdded(s * 0x8000 + t, d);
    } else {
      TopPattern(d);
    }
  }

  /** The upper half is all ones: from the middle on the sum wraps. */
  lemma TopPattern(d: nat)
    requires d < 65536
    ensures FloatToBf16(0xFFFF * 65536 + d) == if d < 0x8000 then 0xFFFF else 0
  {
  }

  /** A NaN scale is packed as a NaN exactly when its payload is from 5 to 1019; smaller ones become infinities, larger
    ones zeros. */
  lemma ScaleNanIff(h: u16)
    requires (h / 1024) % 32 == 31 && h % 1024 != 0
    ensures var v := Bf16ToFloat(RoundedScale(h));
            (IsNan(v) <==> 5 <= h % 1024 <= 1019) && (h % 1024 <= 4 ==> IsInfinity(v)) &&
            (h % 1024 >= 1020 ==> v % F31 == 0)
  {
    hide FloatToBf16, WidenedHalf, Bf16ToFloat;
    WideningSign(h);
    var u := WidenedHalf(h);
    assert u % F31 == 255 * F23 + u % F23;
    SpecialRounding(u);
  }

  /** What the units are: one is 2^24 of the smallest half and 2^149 of the smallest float, in all three formats. */
  lemma UnitsOfOne()
    ensures HalfUnits(0x3C00) == Pow2(24) && FloatUnits(0x3F80_0000) == Pow2(149) && Bf16Units(0x3F80) == Pow2(149)
  {
    hide Pow2, Mag;
    Pow2Of13();
    Pow2Of10();
    Pow2Add(10, 13);
    Pow2Add(10, 14);
    Pow2Add(23, 126);
    MagOf(127, 0);
    assert 127 * F23 + 0 == 0x3F80_0000;
  }

  lemma Pow2Of10()
    ensures Pow2(10) == 1024
  {
    Pow2Add(5, 5);
  }

  // ---- exactness of one dequantized value ----

  /** Every integer of at most 24 bits times a power of two is a binary32 value. */
  lemma {:induction false} Representable(n: nat, k: nat) returns (x: nat)
    requires n <= 0x100_0000 && k <= 200
    ensures x < 255 * F23 && Mag(x) == n * Pow2(k)
    decreases k
  {
    if n == 0x100_0000 {
      x := (k + 2) * F23;
      assert Pow2(k + 1) == 2 * Pow2(k);
      assert F23 * (2 * Pow2(k)) == n * Pow2(k);
    } else if n >= F23 {
      x := (k + 1) * F23 + (n - F23);
    } else if k == 0 {
      x := n;
      assert Pow2(0) == 1;
    } else {
      x := Representable(2 * n, k - 1);
      assert (2 * n) * Pow2(k - 1) == n * (2 * Pow2(k - 1));
    }
  }

  /** A half's magnitude as an 11-bit significand and a power of two. */
  lemma HalfSignificand(e: nat, m: nat) returns (sig: nat, k: nat)
    requires e < 31 && m < 1024
    ensures sig < 2048 && k <= 200 && HalfMag(e, m) * Pow2(125) == sig * Pow2(k)
  {
    hide Pow2;
    if e == 0 {
      sig, k := m, 125;
    } else {
      sig, k := 1024 + m, e - 1 + 125;
      Pow2Add(e - 1, 125);
      assert sig * (Pow2(e - 1) * Pow2(125)) == sig * Pow2(e - 1) * Pow2(125);
    }
  }

  lemma SignedProduct(q: int, sign: int, p: nat)
    ensures q * Signed(sign, p) == Signed(if (q < 0) != (sign != 0) then 1 else 0, Abs(q) * p)
  {
  }

  /** `(q - 8) * d` needs no rounding in binary32, whatever the nibble and the finite scale. */
  lemma ProductExact(q: int, h: u16) returns (u: u32)
    requires -8 <= q <= 7 && FiniteHalf(h)
    ensures FiniteFloat(u) && FloatUnits(u) == q * (HalfUnits(h) * Pow2(125))
  {
    hide Mag, HalfMag, Pow2;
    var s, e, m := h / 0x8000, (h / 1024) % 32, h % 1024;
    var sig, k := HalfSignificand(e, m);
    assert Abs(q) * sig <= 8 * sig;
    var x := Representable(Abs(q) * sig, k);
    var p := HalfMag(e, m) * Pow2(125);
    MulAssoc(Abs(q), sig, Pow2(k));
    SignedMul(s, HalfMag(e, m), Pow2(125));
    SignedProduct(q, s, p);
    var sign := if (q < 0) != (s != 0) then 1 else 0;
    SignField(sign, x);
    u := sign * F31 + x;
  }
}
