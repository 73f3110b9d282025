/** How far rounding the scales to BF16 can move a dot product, over exact arithmetic, and the three forms
  of the product that the precision audit compares. */
module Precision {
  import opened Words
  import opened NamedArithmetic
  import opened FloatFormats
  import opened Q4Reference
  import opened Prepack

  /** The real number a finite half stands for. */
  function HalfWorth(h: u16): real { HalfUnits(h) as real / Pow2(24) as real }

  /** The real number a finite BF16 pattern stands for. */
  function Bf16Worth(b: u16): real { Bf16Units(b) as real / Pow2(149) as real }

  /** Exact arithmetic on what the patterns stand for. */
  function Worth(): FloatOps<real>
  {
    FloatOps(0.0, (a: real, b: real) => a + b, (a: real, b: real) => a * b, (i: int) => i as real,
             (h: u16) => HalfWorth(h), (b: u16) => Bf16Worth(b))
  }

  lemma WorthExact()
    ensures Exact(Worth()) && Exact(Rounded(Worth()))
  {
  }

  lemma AbsAgrees(i: int)
    ensures AbsReal(i as real) == Abs(i) as real
  {
  }

  lemma Division(a: real, b: real, c: real)
    requires c > 0.0
    ensures (a - b) / c == a / c - b / c
    ensures AbsReal(a / c) == AbsReal(a) / c
    ensures a <= b ==> a / c <= b / c
  {
  }

  lemma HalfOverCommonUnit(h: u16)
    ensures HalfWorth(h) == (HalfUnits(h) * Pow2(125)) as real / Pow2(149) as real
  {
    hide Pow2, HalfUnits;
    Pow2Add(24, 125);
    CommonUnit(HalfUnits(h), Pow2(24), Pow2(125), Pow2(149));
  }

  lemma CommonUnit(u: int, a: nat, b: nat, c: nat)
    requires 0 < a && 0 < b && c == a * b
    ensures 0 < c && u as real / a as real == (u * b) as real / c as real
  {
  }

  /** The rounded scale differs from the scale by at most a 256th of it. */
  lemma ScaleWorth(h: u16)
    requires FiniteHalf(h)
    ensures 256.0 * AbsReal(Bf16Worth(RoundedScale(h)) - HalfWorth(h)) <= AbsReal(HalfWorth(h))
  {
    hide Bf16Units, HalfUnits, RoundedScale, Pow2, HalfWorth;
    ScaleRounding(h);
    HalfOverCommonUnit(h);
    OverUnit(Bf16Units(RoundedScale(h)), HalfUnits(h), Pow2(125), Pow2(149));
  }

  lemma OverUnit(b: int, u: int, p: nat, c: nat)
    requires 0 < c && 256 * Abs(b - u * p) <= Abs(u) * p
    ensures var x, y := b as real / c as real, (u * p) as real / c as real;
            256.0 * AbsReal(x - y) <= AbsReal(y)
  {
    assert Abs(u) * p == Abs(u * p) by {
      SignedMul(if u < 0 then 1 else 0, Abs(u), p);
    }
    Hundredths(b, u * p, c);
  }

  lemma Hundredths(b: int, v: int, c: nat)
    requires 0 < c && 256 * Abs(b - v) <= Abs(v)
    ensures 256.0 * AbsReal(b as real / c as real - v as real / c as real) <= AbsReal(v as real / c as real)
  {
    var r := c as real;
    Division(b as real, v as real, r);
    Division(b as real - v as real, v as real, r);
    Division(v as real, 0.0, r);
    AbsAgrees(b - v);
    AbsAgrees(v);
    var m, n := AbsReal(b as real - v as real), AbsReal(v as real);
    assert 256.0 * m <= n;
    Division(256.0 * m, n, r);
    DivScale(256.0, m, r);
  }

  lemma DivScale(k: real, m: real, r: real)
    requires r > 0.0
    ensures (k * m) / r == k * (m / r)
  {
  }

  // ---- the error bound ----

  /** Sum of the magnitudes of the products. */
  ghost function AbsDot(w: seq<real>, x: seq<real>, n: nat): real
    requires n <= |w| && n <= |x|
  {
    if n == 0 then 0.0 else AbsDot(w, x, n - 1) + AbsReal(Scaled(w[n - 1], x[n - 1]))
  }

  lemma OneTerm(w: real, v: real, x: real)
    requires 256.0 * AbsReal(v - w) <= AbsReal(w)
    ensures 256.0 * AbsReal(Scaled(v, x) - Scaled(w, x)) <= AbsReal(Scaled(w, x))
  {
  }

  /** Weights that are each off by at most 2^-8 of themselves move a dot product of any length by at most
    2^-8 of the sum of the magnitudes of its terms. */
  lemma {:induction false} DotErrorBound(ops: FloatOps<real>, w: seq<real>, v: seq<real>, x: seq<real>, n: nat)
    requires Exact(ops) && n <= |w| && n <= |v| && n <= |x|
    requires forall i :: 0 <= i < n ==> 256.0 * AbsReal(v[i] - w[i]) <= AbsReal(w[i])
    ensures 256.0 * AbsReal(Fold(ops, v, x, n) - Fold(ops, w, x, n)) <= AbsDot(w, x, n)
  {
    if n != 0 {
      DotErrorBound(ops, w, v, x, n - 1);
      OneTerm(w[n - 1], v[n - 1], x[n - 1]);
      FoldNext(ops, v, x, n);
      FoldNext(ops, w, x, n);
      hide Fold, Scaled;
    } else {
      FoldNothing(ops, v, x);
      FoldNothing(ops, w, x);
    }
  }

  ghost predicate FiniteScales(data: seq<byte>, base: nat, G: nat)
    requires HoldsRow(data, base, Width(G))
  {
    forall b :: 0 <= b < G ==> FiniteHalf(ScaleBits(data, base, b))
  }

  /** Row `row` of a packable matrix, starting at `base`, with finite scales. */
  ghost predicate AuditedRow(data: seq<byte>, cols: nat, R: nat, G: nat, row: nat, base: nat)
  {
    RowOfMatrix(data, cols, R, G, row) && base == RowBase(G, row) &&
    HoldsRow(data, base, Width(G)) && FiniteScales(data, base, G)
  }

  lemma WeightIs<F>(ops: FloatOps<F>, data: seq<byte>, base: nat, values: nat, i: nat)
    requires HoldsRow(data, base, values) && values % 32 == 0 && i < values
    ensures base + (i / 32) * 18 + 18 <= |data|
    ensures DequantizedRow(ops, data, base, values)[i] ==
            ops.mul(ops.ofInt(Nibble(data, base, i)), ops.ofHalf(ScaleBits(data, base, i / 32)))
  {
  }

  lemma WorthOf(q: int, h: u16)
    ensures Worth().mul(Worth().ofInt(q), Worth().ofHalf(h)) == Scaled(q as real, HalfWorth(h))
    ensures Rounded(Worth()).mul(Rounded(Worth()).ofInt(q), Rounded(Worth()).ofHalf(h)) ==
            Scaled(q as real, Bf16Worth(RoundedScale(h)))
  {
    hide HalfWorth, Bf16Worth, RoundedScale;
  }

  /** Element `i` of the row, exactly and with the rounded scale. */
  lemma WeightWorth(data: seq<byte>, base: nat, G: nat, i: nat)
    requires HoldsRow(data, base, Width(G)) && i < Width(G)
    ensures base + (i / 32) * 18 + 18 <= |data| && i / 32 < G
    ensures var h, q := ScaleBits(data, base, i / 32), Nibble(data, base, i) as real;
            DequantizedRow(Worth(), data, base, Width(G))[i] == Scaled(q, HalfWorth(h)) &&
            DequantizedRow(Rounded(Worth()), data, base, Width(G))[i] == Scaled(q, Bf16Worth(RoundedScale(h)))
  {
    hide HalfWorth, Bf16Worth, RoundedScale, Nibble, ScaleBits, Worth, Rounded, DequantizedRow, HoldsRow, Scaled;
    WeightIs(Worth(), data, base, Width(G), i);
    WeightIs(Rounded(Worth()), data, base, Width(G), i);
    WorthOf(Nibble(data, base, i), ScaleBits(data, base, i / 32));
  }

  lemma WeightError(data: seq<byte>, base: nat, G: nat, i: nat)
    requires HoldsRow(data, base, Width(G)) && FiniteScales(data, base, G) && i < Width(G)
    ensures var w, v := DequantizedRow(Worth(), data, base, Width(G)),
                        DequantizedRow(Rounded(Worth()), data, base, Width(G));
            256.0 * AbsReal(v[i] - w[i]) <= AbsReal(w[i])
  {
    hide Bf16Worth, HalfWorth, RoundedScale, FiniteHalf, DequantizedRow, Worth, Rounded, Scaled, Nibble,
      ScaleBits, HoldsRow;
    WeightWorth(data, base, G, i);
    var h, q := ScaleBits(data, base, i / 32), Nibble(data, base, i) as real;
    ScaleWorth(h);
    OneTerm(HalfWorth(h), Bf16Worth(RoundedScale(h)), q);
    ScaledSwap(HalfWorth(h), q);
    ScaledSwap(Bf16Worth(RoundedScale(h)), q);
  }

  lemma ScaledSwap(a: real, b: real)
    ensures Scaled(a, b) == Scaled(b, a)
  {
  }

  /** For every matrix with finite scales, every column count and every activation vector: the exact dot
    product over the packed and re-read row differs from the one over the reference row by at most
    2^-8 of the sum of |w_i * x_i|. */
  lemma PackedDotError(data: seq<byte>, cols: nat, R: nat, G: nat, row: nat, base: nat, rest: seq<byte>, x: seq<real>)
    requires AuditedRow(data, cols, R, G, row, base) && Width(G) <= |x|
    ensures var w := DequantizedRow(Worth(), data, base, Width(G));
            var v := ReadBack(Worth(), data, cols, R, G, row, rest);
            256.0 * AbsReal(Fold(Worth(), v, x, Width(G)) - Fold(Worth(), w, x, Width(G))) <= AbsDot(w, x, Width(G))
  {
    hide RowOfMatrix, RowBase, FiniteScales, DequantizedRow, ReadBack, Fold, AbsDot, Worth,
      Rounded, HoldsRow, Exact, AbsReal;
    WorthExact();
    ImageReadBack(Worth(), data, cols, R, G, row, rest);
    var w, v := DequantizedRow(Worth(), data, base, Width(G)), DequantizedRow(Rounded(Worth()), data, base, Width(G));
    forall i | 0 <= i < Width(G)
      ensures 256.0 * AbsReal(v[i] - w[i]) <= AbsReal(w[i])
    {
      WeightError(data, base, G, i);
    }
    DotErrorBound(Worth(), w, v, x, Width(G));
  }

  // ---- exactness ----

  /** Some BF16 pattern stands for exactly the number the half stands for. */
  ghost predicate Bf16Representable(h: u16)
  {
    exists b: u16 :: FiniteBf16(b) && Bf16Units(b) == HalfUnits(h) * Pow2(125)
  }

  /** A scale survives the conversion exactly when BF16 can represent it, which the widened pattern shows
    by its lower 16 bits. */
  lemma ScaleSurvivesIff(h: u16)
    requires FiniteHalf(h)
    ensures Bf16Units(RoundedScale(h)) == HalfUnits(h) * Pow2(125) <==> Bf16Representable(h)
    ensures Bf16Representable(h) <==> WidenedHalf(h) % 65536 == 0
  {
    hide Bf16Units, FloatUnits, HalfUnits, WidenedHalf, Pow2, FloatToBf16, FiniteBf16;
    WideningExact(h);
    ScaleRounding(h);
    RoundingExactIff(WidenedHalf(h));
    if Bf16Representable(h) {
      var b: u16 :| FiniteBf16(b) && Bf16Units(b) == HalfUnits(h) * Pow2(125);
      RoundsToNearestEven(WidenedHalf(h), b);
    }
  }

  /** The block's scale is a BF16 value, or there is nothing for it to scale. */
  ghost predicate BlockSurvives(data: seq<byte>, base: nat, b: nat)
    requires base + b * 18 + 18 <= |data|
  {
    Bf16Representable(ScaleBits(data, base, b)) ||
    forall i: nat :: i / 32 == b ==> Nibble(data, base, i) == 0
  }

  lemma SameWorthIff(h: u16)
    requires FiniteHalf(h)
    ensures Bf16Worth(RoundedScale(h)) == HalfWorth(h) <==> Bf16Representable(h)
  {
    hide Bf16Units, HalfUnits, RoundedScale, Pow2, HalfWorth, Bf16Representable;
    ScaleSurvivesIff(h);
    HalfOverCommonUnit(h);
    SameQuotient(Bf16Units(RoundedScale(h)), HalfUnits(h) * Pow2(125), Pow2(149));
  }

  lemma SameQuotient(a: int, b: int, c: nat)
    requires 0 < c
    ensures a as real / c as real == b as real / c as real <==> a == b
  {
  }

  lemma SameProduct(q: real, a: real, b: real)
    ensures Scaled(q, a) == Scaled(q, b) <==> q == 0.0 || a == b
  {
  }

  /** Element `i` comes back unchanged exactly when its nibble is zero or its scale is representable. */
  lemma ElementSurvivesIff(data: seq<byte>, base: nat, G: nat, i: nat)
    requires HoldsRow(data, base, Width(G)) && FiniteScales(data, base, G) && i < Width(G)
    ensures base + (i / 32) * 18 + 18 <= |data|
    ensures DequantizedRow(Rounded(Worth()), data, base, Width(G))[i] ==
            DequantizedRow(Worth(), data, base, Width(G))[i]
            <==> Nibble(data, base, i) == 0 || Bf16Representable(ScaleBits(data, base, i / 32))
  {
    hide Bf16Worth, HalfWorth, RoundedScale, FiniteHalf, DequantizedRow, Worth, Rounded, Scaled, Nibble, ScaleBits,
         HoldsRow, Bf16Representable;
    WeightWorth(data, base, G, i);
    var h, q := ScaleBits(data, base, i / 32), Nibble(data, base, i);
    SameWorthIff(h);
    SameProduct(q as real, Bf16Worth(RoundedScale(h)), HalfWorth(h));
  }

  lemma BlocksHeld(data: seq<byte>, base: nat, G: nat)
    requires HoldsRow(data, base, Width(G))
    ensures forall b :: 0 <= b < G ==> base + b * 18 + 18 <= |data|
  {
  }

  /** The packed row is the reference row exactly when every block survives: its scale is representable, or
    all its values are zero anyway. */
  lemma PackedRowExactIff(data: seq<byte>, cols: nat, R: nat, G: nat, row: nat, base: nat, rest: seq<byte>)
    requires AuditedRow(data, cols, R, G, row, base)
    ensures forall b :: 0 <= b < G ==> base + b * 18 + 18 <= |data|
    ensures ReadBack(Worth(), data, cols, R, G, row, rest) == DequantizedRow(Worth(), data, base, Width(G))
            <==> forall b :: 0 <= b < G ==> BlockSurvives(data, base, b)
  {
    hide RowOfMatrix, RowBase, DequantizedRow, ReadBack, Worth, Rounded, HoldsRow, Bf16Representable, Nibble, ScaleBits,
         FiniteScales;
    ImageReadBack(Worth(), data, cols, R, G, row, rest);
    BlocksHeld(data, base, G);
    var w, v := DequantizedRow(Worth(), data, base, Width(G)), DequantizedRow(Rounded(Worth()), data, base, Width(G));
    if v == w {
      forall b | 0 <= b < G
        ensures BlockSurvives(data, base, b)
      {
        forall i: nat | i / 32 == b
          ensures Nibble(data, base, i) == 0 || Bf16Representable(ScaleBits(data, base, b))
        {
          ElementSurvivesIff(data, base, G, i);
        }
      }
    }
    if forall b :: 0 <= b < G ==> BlockSurvives(data, base, b) {
      forall i | 0 <= i < Width(G)
        ensures v[i] == w[i]
      {
        ElementSurvivesIff(data, base, G, i);
        assert BlockSurvives(data, base, i / 32);
      }
    }
  }

  // ---- the audit's forms A, B and C ----

  /** Exact sum of the products from `from` to `to`. */
  ghost function RangeDot(w: seq<real>, x: seq<real>, from: nat, to: nat): real
    requires from <= to <= |w| && to <= |x|
  {
    if from == to then 0.0 else RangeDot(w, x, from, to - 1) + Scaled(w[to - 1], x[to - 1])
  }

  lemma {:induction false} FoldIsRange(ops: FloatOps<real>, w: seq<real>, x: seq<real>, from: nat, to: nat)
    requires Exact(ops) && from <= to <= |w| && to <= |x|
    ensures Fold(ops, w, x, to) == Fold(ops, w, x, from) + RangeDot(w, x, from, to)
  {
    if from != to {
      FoldIsRange(ops, w, x, from, to - 1);
      FoldNext(ops, w, x, to);
      hide Fold, Scaled;
    }
  }

  /** Forms A and B: block by block, value `i` and value `16 + i` added in turn.  Form B is form A under the
    rounded arithmetic. */
  method InterleavedDot(ops: FloatOps<real>, data: seq<byte>, base: nat, G: nat, x: seq<real>) returns (sum: real)
    requires Exact(ops) && HoldsRow(data, base, Width(G)) && Width(G) <= |x|
    ensures sum == Fold(ops, DequantizedRow(ops, data, base, Width(G)), x, Width(G))
  {
    hide HoldsRow, DequantizedRow, Fold;
    ghost var w := DequantizedRow(ops, data, base, Width(G));
    sum := 0.0;
    assert Fold(ops, w, x, 0) == 0.0 by { FoldNothing(ops, w, x); }
    for b := 0 to G
      invariant sum == Fold(ops, w, x, b * 32)
    {
      sum := InterleavedBlock(ops, data, base, G, x, b, sum);
    }
  }

  lemma FoldNothing(ops: FloatOps<real>, w: seq<real>, x: seq<real>)
    requires Exact(ops)
    ensures Fold(ops, w, x, 0) == 0.0
  {
  }

  method InterleavedBlock(ops: FloatOps<real>, data: seq<byte>, base: nat, G: nat, x: seq<real>, b: nat, start: real)
    returns (sum: real)
    requires Exact(ops) && HoldsRow(data, base, Width(G)) && Width(G) <= |x| && b < G
    requires start == Fold(ops, DequantizedRow(ops, data, base, Width(G)), x, b * 32)
    ensures sum == Fold(ops, DequantizedRow(ops, data, base, Width(G)), x, b * 32 + 32)
  {
    hide HoldsRow, DequantizedRow, Fold, Scaled, Exact;
    BlockInRow(data, base, Width(G), b);
    ghost var w := DequantizedRow(ops, data, base, Width(G));
    var block := base + b * 18;
    var at := b * 32;
    var d := ops.ofHalf(LoadU16(data[block], data[block + 1]));
    sum := start;
    for i := 0 to 16
      invariant sum == start + RangeDot(w, x, at, at + i) + RangeDot(w, x, at + 16, at + 16 + i)
    {
      var packed := data[block + 2 + i];
      RowPair(ops, data, base, Width(G), b, i);
      sum := sum + Scaled(ops.mul(ops.ofInt((packed as int) % 16 - 8), d), x[at + i]);
      sum := sum + Scaled(ops.mul(ops.ofInt((packed as int) / 16 - 8), d), x[at + 16 + i]);
    }
    FoldIsRange(ops, w, x, at, at + 16);
    FoldIsRange(ops, w, x, at + 16, at + 32);
  }

  /** Form C: a plain loop over the dequantized packed row. */
  method DenseDot(ghost ops: FloatOps<real>, w: seq<real>, x: seq<real>, K: nat) returns (sum: real)
    requires Exact(ops) && K <= |w| && K <= |x|
    ensures sum == Fold(ops, w, x, K)
  {
    sum := 0.0;
    for col := 0 to K
      invariant sum == Fold(ops, w, x, col)
    {
      FoldNext(ops, w, x, col + 1);
      sum := sum + Scaled(w[col], x[col]);
    }
  }

  /** All three forms of one row: C equals B exactly, and A differs from both by at most the bound. */
  method AuditRow(data: seq<byte>, cols: nat, R: nat, G: nat, row: nat, base: nat, x: seq<real>)
    returns (a: real, b: real, c: real)
    requires AuditedRow(data, cols, R, G, row, base) && Width(G) <= |x|
    ensures a == Fold(Worth(), DequantizedRow(Worth(), data, base, Width(G)), x, Width(G))
    ensures b == Fold(Rounded(Worth()), DequantizedRow(Rounded(Worth()), data, base, Width(G)), x, Width(G))
    ensures c == Fold(Worth(), ReadBack(Worth(), data, cols, R, G, row, []), x, Width(G))
    ensures c == b
    ensures 256.0 * AbsReal(b - a) <= AbsDot(DequantizedRow(Worth(), data, base, Width(G)), x, Width(G))
  {
    hide RowOfMatrix, RowBase, FiniteScales, DequantizedRow, ReadBack, Fold, AbsDot, Worth,
      Rounded, HoldsRow, Exact, AbsReal;
    WorthExact();
    a := InterleavedDot(Worth(), data, base, G, x);
    b := InterleavedDot(Rounded(Worth()), data, base, G, x);
    var read := ReadBack(Worth(), data, cols, R, G, row, []);
    c := DenseDot(Worth(), read, x, Width(G));
    ImageReadBack(Worth(), data, cols, R, G, row, []);
    PackedDotError(data, cols, R, G, row, base, [], x);
    FoldSame(Worth(), Rounded(Worth()), read, x, Width(G));
  }
}
