/** What the reference's rows, checks and products mean, independently of how they are computed: a row is its blocks
  written one after the other, a product is the rows' dot products in row order, and every refusal has its reason. */
module Q4Products {
  import opened Words
  import opened Q4Reference

  // ---- rows as blocks ----

  /** A scale and 32 values between 0 and 15. */
  datatype Block = Block(scale: u16, q: seq<int>)

  predicate Good(b: Block) { |b.q| == 32 && forall k :: 0 <= k < 32 ==> 0 <= b.q[k] < 16 }

  /** The scale with its low byte first, then the first sixteen values in low halves and the others in high halves. */
  function EncodeBlock(b: Block): (bytes: seq<byte>)
    requires Good(b)
    ensures |bytes| == 18
  {
    [b.scale % 256, b.scale / 256] + seq(16, j requires 0 <= j < 16 => b.q[j] + 16 * b.q[j + 16])
  }

  function EncodeRow(bs: seq<Block>): (bytes: seq<byte>)
    requires forall b :: 0 <= b < |bs| ==> Good(bs[b])
    ensures |bytes| == 18 * |bs|
  {
    if bs == [] then [] else EncodeBlock(bs[0]) + EncodeRow(bs[1..])
  }

  lemma {:induction false} EncodedAt(bs: seq<Block>, b: nat)
    requires b < |bs| && forall k :: 0 <= k < |bs| ==> Good(bs[k])
    ensures EncodeRow(bs)[b * 18..b * 18 + 18] == EncodeBlock(bs[b])
    decreases |bs|
  {
    if b > 0 {
      EncodedAt(bs[1..], b - 1);
      var first, rest := EncodeBlock(bs[0]), EncodeRow(bs[1..]);
      assert (first + rest)[b * 18..b * 18 + 18] == rest[(b - 1) * 18..(b - 1) * 18 + 18];
    }
  }

  lemma BlockBytes(data: seq<byte>, base: nat, b: Block, k: nat)
    requires Good(b) && base + 18 <= |data| && data[base..base + 18] == EncodeBlock(b) && k < 32
    ensures LoadU16(data[base], data[base + 1]) == b.scale
    ensures NibbleOf(data[base + 2 + LaneOf(k)], k) == b.q[k] - 8
  {
    var e, j := EncodeBlock(b), LaneOf(k);
    assert data[base] == e[0] && data[base + 1] == e[1] && data[base + 2 + j] == e[2 + j];
    assert e[2 + j] == b.q[j] + 16 * b.q[j + 16];
  }

  /** Dequantizing written blocks gives back every value: its number less eight, times its own block's scale. */
  lemma RowRoundTrip<F>(ops: FloatOps<F>, bs: seq<Block>, b: nat, k: nat)
    requires b < |bs| && k < 32 && forall i :: 0 <= i < |bs| ==> Good(bs[i])
    ensures HoldsRow(EncodeRow(bs), 0, Width(|bs|)) && b * 32 + k < Width(|bs|)
    ensures DequantizedRow(ops, EncodeRow(bs), 0, Width(|bs|))[b * 32 + k] ==
            ops.mul(ops.ofInt(bs[b].q[k] - 8), ops.ofHalf(bs[b].scale))
  {
    hide DequantizedRow, EncodeRow, EncodeBlock, HoldsRow;
    EncodedLength(bs);
    EncodedAt(bs, b);
    BlockValue(ops, EncodeRow(bs), Width(|bs|), bs[b], b, k);
  }

  /** The value of a block that stands at its place in a row. */
  lemma BlockValue<F>(ops: FloatOps<F>, data: seq<byte>, values: nat, block: Block, b: nat, k: nat)
    requires HoldsRow(data, 0, values) && values % 32 == 0 && b < values / 32 && k < 32 && b * 18 + 18 <= |data|
    requires Good(block) && data[b * 18..b * 18 + 18] == EncodeBlock(block)
    ensures b * 32 + k < values
    ensures DequantizedRow(ops, data, 0, values)[b * 32 + k] ==
            ops.mul(ops.ofInt(block.q[k] - 8), ops.ofHalf(block.scale))
  {
    hide DequantizedRow, EncodeBlock, HoldsRow, NibbleOf, LoadU16, Good;
    RowAt(ops, data, 0, values, b, k);
    BlockBytes(data, b * 18, block, k);
  }

  lemma EncodedLength(bs: seq<Block>)
    requires forall i :: 0 <= i < |bs| ==> Good(bs[i])
    ensures HoldsRow(EncodeRow(bs), 0, Width(|bs|))
  {
    hide EncodeRow, Good;
  }

  // ---- a row wherever it lies ----

  /** A row reads the same inside a matrix and on its own. */
  lemma RowAlone<F>(ops: FloatOps<F>, data: seq<byte>, base: nat, values: nat)
    requires HoldsRow(data, base, values) && values % 32 == 0
    ensures HoldsRow(data[base..base + RowBytes(values)], 0, values)
    ensures DequantizedRow(ops, data, base, values) ==
            DequantizedRow(ops, data[base..base + RowBytes(values)], 0, values)
  {
    var row := data[base..base + RowBytes(values)];
    forall i | 0 <= i < values
      ensures DequantizedRow(ops, data, base, values)[i] == DequantizedRow(ops, row, 0, values)[i]
    {
      hide DequantizedRow, NibbleOf, LoadU16;
      SameValue(ops, data, base, values, row, i / 32, i % 32);
      assert i / 32 * 32 + i % 32 == i;
    }
  }

  lemma SameValue<F>(ops: FloatOps<F>, data: seq<byte>, base: nat, values: nat, row: seq<byte>, b: nat, k: nat)
    requires HoldsRow(data, base, values) && values % 32 == 0 && row == data[base..base + RowBytes(values)]
    requires b < values / 32 && k < 32
    ensures b * 32 + k < values
    ensures DequantizedRow(ops, data, base, values)[b * 32 + k] == DequantizedRow(ops, row, 0, values)[b * 32 + k]
  {
    hide DequantizedRow, NibbleOf, LoadU16;
    RowAt(ops, data, base, values, b, k);
    RowAt(ops, row, 0, values, b, k);
  }

  // ---- products ----

  /** Entry `r` of a product, from the row's bytes alone. */
  lemma EntryAlone<F>(ops: FloatOps<F>, data: seq<byte>, rows: nat, values: nat, x: seq<F>, r: nat, base: nat)
    requires r < rows && rows * RowBytes(values) <= |data| && values % 32 == 0 && values <= |x|
    requires base == r * RowBytes(values)
    ensures HoldsRow(data, base, values) && base + RowBytes(values) <= |data|
    ensures HoldsRow(data[base..base + RowBytes(values)], 0, values)
    ensures GemvSpec(ops, data, rows, values, x)[r] ==
            Fold(ops, DequantizedRow(ops, data[base..base + RowBytes(values)], 0, values), x, values)
  {
    RowInMatrix(data, rows, values, r);
    hide RowBytes, DequantizedRow, Fold;
    RowAlone(ops, data, base, values);
  }

  /** Entry `r` of a product is what the dot product returns for the bytes of row `r` alone. */
  lemma EntryIsRowDot<F>(ops: FloatOps<F>, data: seq<byte>, rows: nat, values: nat, x: seq<F>, r: nat)
    requires r < rows && rows * RowBytes(values) <= |data| && values % 32 == 0 && values <= |x|
    requires RowBytes(values) < U64_LIMIT
    ensures r * RowBytes(values) + RowBytes(values) <= |data|
    ensures var row := data[r * RowBytes(values)..r * RowBytes(values) + RowBytes(values)];
            DotCheck(|row|, values, values).Ok? &&
            GemvSpec(ops, data, rows, values, x)[r] == DotSpec(ops, row, values, x[..values], v => v)
  {
    hide RowBytes, GemvSpec, DotCheck, DotSpec;
    EntryDotAt(ops, data, rows, values, x, r, r * RowBytes(values));
  }

  lemma RowChecked(values: nat)
    requires values % 32 == 0 && RowBytes(values) < U64_LIMIT
    ensures DotCheck(RowBytes(values), values, values).Ok?
  {
    RowAcceptedIff(values, RowBytes(values));
  }

  lemma EntryDotAt<F>(ops: FloatOps<F>, data: seq<byte>, rows: nat, values: nat, x: seq<F>, r: nat, base: nat)
    requires r < rows && rows * RowBytes(values) <= |data| && values % 32 == 0 && values <= |x|
    requires RowBytes(values) < U64_LIMIT && base == r * RowBytes(values)
    ensures base + RowBytes(values) <= |data|
    ensures var row := data[base..base + RowBytes(values)];
            DotCheck(|row|, values, values).Ok? &&
            GemvSpec(ops, data, rows, values, x)[r] == DotSpec(ops, row, values, x[..values], v => v)
  {
    hide RowBytes, DequantizedRow, Fold, GemvSpec, DotCheck;
    EntryAlone(ops, data, rows, values, x, r, base);
    RowChecked(values);
    var row := data[base..base + RowBytes(values)];
    FoldOfPrefix(ops, DequantizedRow(ops, row, 0, values), x, Converted(x[..values], v => v), values);
  }

  lemma {:induction false} FoldOfPrefix<F>(ops: FloatOps<F>, w: seq<F>, x: seq<F>, y: seq<F>, n: nat)
    requires n <= |w| && n <= |x| && n <= |y| && forall i :: 0 <= i < n ==> x[i] == y[i]
    ensures Fold(ops, w, x, n) == Fold(ops, w, y, n)
  {
    if n != 0 {
      FoldOfPrefix(ops, w, x, y, n - 1);
    }
  }

  /** The product of two matrices stacked on each other is the product of the upper followed by that of the lower. */
  lemma StackedProduct<F>(ops: FloatOps<F>, upper: seq<byte>, lower: seq<byte>, m: nat, n: nat, values: nat, x: seq<F>)
    requires m * RowBytes(values) == |upper| && n * RowBytes(values) <= |lower|
    requires values % 32 == 0 && values <= |x|
    ensures (m + n) * RowBytes(values) <= |upper + lower|
    ensures GemvSpec(ops, upper + lower, m + n, values, x) ==
            GemvSpec(ops, upper, m, values, x) + GemvSpec(ops, lower, n, values, x)
  {
    hide RowBytes, GemvSpec;
    StackedBytes(upper, lower, m, n, values);
    var both := GemvSpec(ops, upper + lower, m + n, values, x);
    var first, second := GemvSpec(ops, upper, m, values, x), GemvSpec(ops, lower, n, values, x);
    forall r | 0 <= r < m + n
      ensures both[r] == (first + second)[r]
    {
      if r < m {
        UpperEntry(ops, upper, lower, m, n, values, x, r);
      } else {
        LowerEntry(ops, upper, lower, m, n, values, x, r - m);
      }
    }
  }

  lemma StackedBytes(upper: seq<byte>, lower: seq<byte>, m: nat, n: nat, values: nat)
    requires m * RowBytes(values) == |upper| && n * RowBytes(values) <= |lower|
    ensures (m + n) * RowBytes(values) <= |upper + lower|
  {
    assert (m + n) * RowBytes(values) == m * RowBytes(values) + n * RowBytes(values);
  }

  lemma UpperEntry<F>(ops: FloatOps<F>, upper: seq<byte>, lower: seq<byte>, m: nat, n: nat,
                      values: nat, x: seq<F>, r: nat)
    requires m * RowBytes(values) == |upper| && (m + n) * RowBytes(values) <= |upper + lower| && r < m
    requires values % 32 == 0 && values <= |x|
    ensures GemvSpec(ops, upper + lower, m + n, values, x)[r] == GemvSpec(ops, upper, m, values, x)[r]
  {
    hide RowBytes, GemvSpec;
    UpperRow(upper, lower, m, values, r);
    var base := r * RowBytes(values);
    SameRowSameEntry(ops, upper + lower, m + n, r, upper, m, r, values, x, base, base);
  }

  lemma LowerEntry<F>(ops: FloatOps<F>, upper: seq<byte>, lower: seq<byte>, m: nat, n: nat,
                      values: nat, x: seq<F>, r: nat)
    requires m * RowBytes(values) == |upper| && n * RowBytes(values) <= |lower|
    requires (m + n) * RowBytes(values) <= |upper + lower| && r < n && values % 32 == 0 && values <= |x|
    ensures GemvSpec(ops, upper + lower, m + n, values, x)[m + r] == GemvSpec(ops, lower, n, values, x)[r]
  {
    hide RowBytes, GemvSpec;
    LowerRow(upper, lower, m, n, values, r);
    var base := r * RowBytes(values);
    SameRowSameEntry(ops, upper + lower, m + n, m + r, lower, n, r, values, x, |upper| + base, base);
  }

  lemma UpperRow(upper: seq<byte>, lower: seq<byte>, m: nat, values: nat, r: nat)
    requires m * RowBytes(values) == |upper| && r < m
    ensures r * RowBytes(values) + RowBytes(values) <= |upper|
    ensures var at, to := r * RowBytes(values), r * RowBytes(values) + RowBytes(values);
            (upper + lower)[at..to] == upper[at..to]
  {
    RowInMatrix(upper, m, values, r);
  }

  lemma LowerRow(upper: seq<byte>, lower: seq<byte>, m: nat, n: nat, values: nat, r: nat)
    requires m * RowBytes(values) == |upper| && n * RowBytes(values) <= |lower| && r < n
    ensures r * RowBytes(values) + RowBytes(values) <= |lower|
    ensures (m + r) * RowBytes(values) == |upper| + r * RowBytes(values)
    ensures var at, to := r * RowBytes(values), r * RowBytes(values) + RowBytes(values);
            (upper + lower)[|upper| + at..|upper| + to] == lower[at..to]
  {
    RowInMatrix(lower, n, values, r);
    assert (m + r) * RowBytes(values) == m * RowBytes(values) + r * RowBytes(values);
  }

  /** Two products whose rows `r` and `s` have the same bytes agree there. */
  lemma SameRowSameEntry<F>(ops: FloatOps<F>, data: seq<byte>, rows: nat, r: nat, other: seq<byte>, others: nat, s: nat,
                            values: nat, x: seq<F>, base: nat, base': nat)
    requires r < rows && rows * RowBytes(values) <= |data| && s < others && others * RowBytes(values) <= |other|
    requires values % 32 == 0 && values <= |x| && base == r * RowBytes(values) && base' == s * RowBytes(values)
    requires HoldsRow(data, base, values) && HoldsRow(other, base', values)
    requires data[base..base + RowBytes(values)] == other[base'..base' + RowBytes(values)]
    ensures GemvSpec(ops, data, rows, values, x)[r] == GemvSpec(ops, other, others, values, x)[s]
  {
    hide RowBytes, DequantizedRow, Fold, GemvSpec;
    EntryAlone(ops, data, rows, values, x, r, base);
    EntryAlone(ops, other, others, values, x, s, base');
  }

  /** The vector with a one in place `j`. */
  function Unit(j: nat, n: nat): (x: seq<real>)
    ensures |x| == n
  {
    seq(n, i => if i == j then 1.0 else 0.0)
  }

  lemma {:induction false} FoldUnit(ops: FloatOps<real>, w: seq<real>, j: nat, len: nat, n: nat)
    requires Exact(ops) && n <= |w| && n <= len
    ensures Fold(ops, w, Unit(j, len), n) == if j < n then w[j] else 0.0
  {
    hide Fold, Exact;
    if n != 0 {
      FoldUnit(ops, w, j, len, n - 1);
      FoldNext(ops, w, Unit(j, len), n);
    } else {
      FoldZero(ops, w, Unit(j, len));
    }
  }

  lemma FoldZero(ops: FloatOps<real>, w: seq<real>, x: seq<real>)
    requires Exact(ops)
    ensures Fold(ops, w, x, 0) == 0.0
  {
  }

  /** Over exact arithmetic the product with a unit vector is a column of the matrix, in row order. */
  lemma UnitProduct(ops: FloatOps<real>, data: seq<byte>, rows: nat, values: nat, j: nat, r: nat)
    requires Exact(ops) && rows * RowBytes(values) <= |data| && values % 32 == 0 && j < values && r < rows
    ensures HoldsRow(data, r * RowBytes(values), values)
    ensures GemvSpec(ops, data, rows, values, Unit(j, values))[r] ==
            DequantizedRow(ops, data, r * RowBytes(values), values)[j]
  {
    hide Fold, DequantizedRow, RowBytes;
    RowInMatrix(data, rows, values, r);
    FoldUnit(ops, DequantizedRow(ops, data, r * RowBytes(values), values), j, values, values);
  }

  // ---- who is refused, and why ----

  /** A row span is accepted exactly when it is whole blocks of which every byte is there. */
  lemma RowAcceptedIff(values: nat, bytes: nat)
    ensures ValidateRow(values, bytes).Ok? <==>
            values % 32 == 0 && values / 32 * 18 < U64_LIMIT && bytes == values / 32 * 18
  {
    QuotientTest(BYTES_PER_BLOCK, values / VALUES_PER_BLOCK, U64_LIMIT - 1);
  }

  /** The first of these that applies is the reason a dot product gives; if none does, it is computed. */
  lemma DotReason(bytes: nat, values: nat, activations: nat)
    ensures DotCheck(bytes, values, activations) ==
            if values % 32 != 0 then InvalidArgument(RowLength)
            else if values / 32 * 18 >= U64_LIMIT then InvalidArgument(SpanOverflow)
            else if bytes != values / 32 * 18 then InvalidArgument(SpanMismatch)
            else if activations != values then InvalidArgument(ActivationCount)
            else Ok(())
  {
    QuotientTest(BYTES_PER_BLOCK, values / VALUES_PER_BLOCK, U64_LIMIT - 1);
  }

  /** The same for a matrix-vector product; an overflow is one of the true product. */
  lemma GemvReason(rows: nat, values: nat, bytes: nat, activations: nat, outputs: nat)
    ensures GemvCheck(rows, values, bytes, activations, outputs) ==
            if values % 32 != 0 then InvalidArgument(RowLength)
            else if values / 32 * 18 >= U64_LIMIT || rows * (values / 32 * 18) >= U64_LIMIT
            then InvalidArgument(SpanOverflow)
            else if bytes != rows * (values / 32 * 18) then InvalidArgument(SpanMismatch)
            else if activations != values then InvalidArgument(ActivationCount)
            else if outputs != rows then InvalidArgument(OutputCount)
            else Ok(())
  {
    QuotientTest(BYTES_PER_BLOCK, values / VALUES_PER_BLOCK, U64_LIMIT - 1);
    if rows != 0 {
      QuotientTest(rows, RowBytes(values), U64_LIMIT - 1);
    }
  }
}
