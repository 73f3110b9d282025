/** The scalar Q4_0 reference: span validation, dequantization and fused dot products.

  Everything is parameterised by the arithmetic (`FloatOps`), so what is proved here holds for any
  rounding: the order of operations is part of the statement. */
module Q4Reference {
  import opened Words
  import opened NamedArithmetic

  const VALUES_PER_BLOCK := 32
  const PACKED_BYTES_PER_BLOCK := 16
  const BYTES_PER_BLOCK := 18

  /** A float type `F` with its conversions and the two operations the kernels use. */
  datatype FloatOps<!F> = FloatOps(
    zero: F, add: (F, F) -> F, mul: (F, F) -> F, ofInt: int -> F, ofHalf: u16 -> F, ofBf16: u16 -> F)

  /** Exact arithmetic, whatever a scale or a BF16 activation is worth. */
  ghost predicate Exact(ops: FloatOps<real>)
  {
    && ops.zero == 0.0
    && (forall a, b :: ops.add(a, b) == a + b)
    && (forall a, b :: ops.mul(a, b) == a * b)
    && (forall i :: ops.ofInt(i) == i as real)
  }

  datatype Reason = RowLength | SpanOverflow | SpanMismatch | ActivationCount | OutputCount

  datatype Check<+T> = Ok(value: T) | InvalidArgument(reason: Reason)

  // ---- span validation ----

  function EncodedBytesForValues(values: nat): Check<nat>
  {
    if values % VALUES_PER_BLOCK != 0 then InvalidArgument(RowLength)
    else
      var blocks := values / VALUES_PER_BLOCK;
      if blocks > (U64_LIMIT - 1) / BYTES_PER_BLOCK then InvalidArgument(SpanOverflow)
      else Ok(blocks * BYTES_PER_BLOCK)
  }

  function EncodedBytesForMatrix(rows: nat, values: nat): Check<nat>
  {
    var row := EncodedBytesForValues(values);
    if row.InvalidArgument? then row
    else if rows != 0 && row.value > (U64_LIMIT - 1) / rows then InvalidArgument(SpanOverflow)
    else Ok(rows * row.value)
  }

  function ValidateMatrix(rows: nat, values: nat, bytes: nat): Check<()>
  {
    var expected := EncodedBytesForMatrix(rows, values);
    if expected.InvalidArgument? then InvalidArgument(expected.reason)
    else if bytes != expected.value then InvalidArgument(SpanMismatch)
    else Ok(())
  }

  function ValidateRow(values: nat, bytes: nat): Check<()>
  {
    var expected := EncodedBytesForValues(values);
    if expected.InvalidArgument? then InvalidArgument(expected.reason)
    else if bytes != expected.value then InvalidArgument(SpanMismatch)
    else Ok(())
  }

  /** Values in a row of `G` groups. */
  function Width(G: nat): (v: nat)
    ensures v == G * 32 && v % 32 == 0 && v / 32 == G
  {
    G * 32
  }

  function RowBytes(values: nat): nat { (values / VALUES_PER_BLOCK) * BYTES_PER_BLOCK }

  /** The quotient test in front of the multiplication is exactly the test that the product fits. */
  lemma QuotientTest(a: nat, b: nat, limit: nat)
    requires 0 < a
    ensures b <= limit / a <==> a * b <= limit
  {
    assert limit == a * (limit / a) + limit % a;
    if b <= limit / a {
      assert a * b <= a * (limit / a);
    } else {
      assert a * (limit / a + 1) <= a * b;
    }
  }

  /** A matrix span is accepted exactly when rows are whole blocks, the true product fits in 64 bits and
    the given byte count is that product. */
  lemma MatrixAcceptedIff(rows: nat, values: nat, bytes: nat)
    ensures ValidateMatrix(rows, values, bytes).Ok? <==>
            values % 32 == 0 && RowBytes(values) < U64_LIMIT && rows * RowBytes(values) < U64_LIMIT &&
            bytes == rows * RowBytes(values)
  {
    QuotientTest(BYTES_PER_BLOCK, values / VALUES_PER_BLOCK, U64_LIMIT - 1);
    if rows != 0 {
      QuotientTest(rows, RowBytes(values), U64_LIMIT - 1);
    }
  }

  // ---- the encoded row ----

  predicate HoldsRow(data: seq<byte>, base: nat, values: nat)
  {
    base + RowBytes(values) <= |data|
  }

  /** `load_little_endian_u16`. */
  function LoadU16(low: byte, high: byte): u16 { (low as int) + 256 * (high as int) }

  function ScaleBits(data: seq<byte>, base: nat, b: nat): u16
    requires base + b * 18 + 18 <= |data|
  {
    LoadU16(data[base + b * 18], data[base + b * 18 + 1])
  }

  /** Byte `j` of the nibbles of block `b`. */
  function PackedByte(data: seq<byte>, base: nat, b: nat, j: nat): byte
    requires base + b * 18 + 18 <= |data| && j < 16
  {
    data[base + b * 18 + 2 + j]
  }

  /** Value `k` of 32 packed into 16 bytes: low nibbles first, then high nibbles, zero at 8. */
  function NibbleOf(packed: byte, k: nat): int
  {
    (if k < 16 then (packed as int) % 16 else (packed as int) / 16) - 8
  }

  /** The byte that holds value `k` of a block. */
  function LaneOf(k: nat): nat { if k < 16 then k else k - 16 }

  function Nibble(data: seq<byte>, base: nat, i: nat): (q: int)
    requires base + (i / 32) * 18 + 18 <= |data|
    ensures -8 <= q <= 7
  {
    NibbleOf(PackedByte(data, base, i / 32, LaneOf(i % 32)), i % 32)
  }

  /** Element `i` of the row, as the format defines it. */
  function Weight<F>(ops: FloatOps<F>, data: seq<byte>, base: nat, i: nat): F
    requires base + (i / 32) * 18 + 18 <= |data|
  {
    ops.mul(ops.ofInt(Nibble(data, base, i)), ops.ofHalf(ScaleBits(data, base, i / 32)))
  }

  lemma InRow(data: seq<byte>, base: nat, values: nat, i: nat)
    requires HoldsRow(data, base, values) && i < values - values % 32
    ensures base + (i / 32) * 18 + 18 <= |data|
  {
  }

  lemma BlockInRow(data: seq<byte>, base: nat, values: nat, b: nat)
    requires HoldsRow(data, base, values) && values % 32 == 0 && b < values / 32
    ensures base + b * 18 + 18 <= |data| && b * 32 + 32 <= values
  {
  }

  function DequantizedRow<F>(ops: FloatOps<F>, data: seq<byte>, base: nat, values: nat): (w: seq<F>)
    requires HoldsRow(data, base, values) && values % 32 == 0
    ensures |w| == values
  {
    seq(values, i requires 0 <= i < values => InRow(data, base, values, i); Weight(ops, data, base, i))
  }

  /** `dequantize_row` on the row starting at `base`. */
  method DequantizeRow<F>(ops: FloatOps<F>, row: seq<byte>, values: nat, output: array<F>) returns (c: Check<()>)
    requires values <= output.Length
    modifies output
    ensures c == ValidateRow(values, |row|)
    ensures c.InvalidArgument? ==> output[..] == old(output[..])
    ensures c.Ok? ==> HoldsRow(row, 0, values) && values % 32 == 0 &&
                      output[..] == DequantizedRow(ops, row, 0, values) + old(output[values..])
  {
    c := ValidateRow(values, |row|);
    if c.InvalidArgument? {
      return;
    }
    ghost var before, w := output[..], DequantizedRow(ops, row, 0, values);
    var blocks := values / VALUES_PER_BLOCK;
    for b := 0 to blocks
      invariant forall i :: 0 <= i < output.Length ==>
        output[i] == if i < b * 32 then w[i] else before[i]
    {
      DequantizeBlock(ops, row, values, output, b);
    }
    assert output[..] == w + before[values..];
  }

  /** One block of `dequantize_row`. */
  method DequantizeBlock<F>(ops: FloatOps<F>, row: seq<byte>, values: nat, output: array<F>, b: nat)
    requires values <= output.Length && HoldsRow(row, 0, values) && values % 32 == 0 && b < values / 32
    modifies output
    ensures b * 32 + 32 <= values
    ensures forall i :: 0 <= i < output.Length ==>
      output[i] == if b * 32 <= i < b * 32 + 32 then DequantizedRow(ops, row, 0, values)[i] else old(output[i])
  {
    hide Weight, HoldsRow, DequantizedRow, NibbleOf, LaneOf;
    BlockInRow(row, 0, values, b);
    ghost var before, w := output[..], DequantizedRow(ops, row, 0, values);
    var d := ops.ofHalf(LoadU16(row[b * 18], row[b * 18 + 1]));
    var offset := b * VALUES_PER_BLOCK;
    for j := 0 to PACKED_BYTES_PER_BLOCK
      invariant forall i :: offset <= i < offset + j ==> output[i] == w[i]
      invariant forall i :: offset + 16 <= i < offset + 16 + j ==> output[i] == w[i]
      invariant forall i :: 0 <= i < offset || offset + 32 <= i < output.Length ==> output[i] == before[i]
    {
      var packed := row[b * 18 + 2 + j];
      var x0 := (packed as int) % 16 - 8;
      var x1 := (packed as int) / 16 - 8;
      RowPair(ops, row, 0, values, b, j);
      output[offset + j] := ops.mul(ops.ofInt(x0), d);
      output[offset + j + 16] := ops.mul(ops.ofInt(x1), d);
    }
  }

  /** Value `k` of block `b` of a dequantized row. */
  lemma RowAt<F>(ops: FloatOps<F>, data: seq<byte>, base: nat, values: nat, b: nat, k: nat)
    requires HoldsRow(data, base, values) && values % 32 == 0 && b < values / 32 && k < 32
    ensures base + b * 18 + 18 <= |data| && b * 32 + k < values
    ensures DequantizedRow(ops, data, base, values)[b * 32 + k] ==
            ops.mul(ops.ofInt(NibbleOf(data[base + b * 18 + 2 + LaneOf(k)], k)), ops.ofHalf(ScaleBits(data, base, b)))
  {
    WeightAt(ops, data, base, b, k);
    InRow(data, base, values, b * 32 + k);
  }

  lemma RowPair<F>(ops: FloatOps<F>, data: seq<byte>, base: nat, values: nat, b: nat, j: nat)
    requires HoldsRow(data, base, values) && values % 32 == 0 && b < values / 32 && j < 16
    ensures base + b * 18 + 18 <= |data| && b * 32 + 32 <= values
    ensures var w := DequantizedRow(ops, data, base, values);
            var packed, d := data[base + b * 18 + 2 + j] as int, ops.ofHalf(ScaleBits(data, base, b));
            w[b * 32 + j] == ops.mul(ops.ofInt(packed % 16 - 8), d) &&
            w[b * 32 + j + 16] == ops.mul(ops.ofInt(packed / 16 - 8), d)
  {
    hide DequantizedRow, HoldsRow;
    BlockInRow(data, base, values, b);
    RowAt(ops, data, base, values, b, j);
    RowAt(ops, data, base, values, b, j + 16);
  }

  lemma BlockIndex(b: nat, k: nat)
    requires k < 32
    ensures (b * 32 + k) / 32 == b && (b * 32 + k) % 32 == k
  {
  }

  lemma WeightAt<F>(ops: FloatOps<F>, data: seq<byte>, base: nat, b: nat, k: nat)
    requires k < 32 && base + b * 18 + 18 <= |data|
    ensures (b * 32 + k) / 32 == b
    ensures Weight(ops, data, base, b * 32 + k) ==
            ops.mul(ops.ofInt(NibbleOf(data[base + b * 18 + 2 + LaneOf(k)], k)), ops.ofHalf(ScaleBits(data, base, b)))
  {
  }

  // ---- the fused dot product ----

  /** The left fold, in index order, of the products of two sequences. */
  function Fold<F>(ops: FloatOps<F>, w: seq<F>, x: seq<F>, n: nat): F
    requires n <= |w| && n <= |x|
  {
    if n == 0 then ops.zero else ops.add(Fold(ops, w, x, n - 1), ops.mul(w[n - 1], x[n - 1]))
  }

  function Converted<A, F>(x: seq<A>, convert: A -> F): (y: seq<F>)
    ensures |y| == |x|
  {
    seq(|x|, i requires 0 <= i < |x| => convert(x[i]))
  }

  lemma DotStep<F>(ops: FloatOps<F>, data: seq<byte>, base: nat, values: nat, y: seq<F>, b: nat, k: nat)
    requires HoldsRow(data, base, values) && values % 32 == 0 && values <= |y| && b < values / 32 && k < 32
    ensures b * 32 + k < values
    ensures var w := DequantizedRow(ops, data, base, values);
            Fold(ops, w, y, b * 32 + k + 1) ==
            ops.add(Fold(ops, w, y, b * 32 + k),
                    ops.mul(ops.mul(ops.ofInt(NibbleOf(data[base + b * 18 + 2 + LaneOf(k)], k)),
                                    ops.ofHalf(ScaleBits(data, base, b))), y[b * 32 + k]))
  {
    RowAt(ops, data, base, values, b, k);
  }

  /** One block of `dot_unchecked`: the low nibbles, then the high nibbles, added to the running sum. */
  method AccumulateBlock<A, F>(ops: FloatOps<F>, data: seq<byte>, base: nat, values: nat, x: seq<A>,
                               convert: A -> F, b: nat, start: F) returns (sum: F)
    requires HoldsRow(data, base, values) && values % 32 == 0 && values <= |x| && b < values / 32
    requires start == Fold(ops, DequantizedRow(ops, data, base, values), Converted(x, convert), b * 32)
    ensures b * 32 + 32 <= values
    ensures sum == Fold(ops, DequantizedRow(ops, data, base, values), Converted(x, convert), b * 32 + 32)
  {
    hide Fold, DequantizedRow, HoldsRow, Weight;
    BlockInRow(data, base, values, b);
    ghost var w, y := DequantizedRow(ops, data, base, values), Converted(x, convert);
    var block, offset := base + b * BYTES_PER_BLOCK, b * VALUES_PER_BLOCK;
    var d := ops.ofHalf(LoadU16(data[block], data[block + 1]));
    sum := start;
    for j := 0 to PACKED_BYTES_PER_BLOCK
      invariant sum == Fold(ops, w, y, offset + j)
    {
      var q0 := ops.ofInt((data[block + 2 + j] as int) % 16 - 8);
      var w0 := ops.mul(q0, d);
      DotStep(ops, data, base, values, y, b, j);
      sum := ops.add(sum, ops.mul(w0, convert(x[offset + j])));
    }
    for j := 0 to PACKED_BYTES_PER_BLOCK
      invariant sum == Fold(ops, w, y, offset + 16 + j)
    {
      var q1 := ops.ofInt((data[block + 2 + j] as int) / 16 - 8);
      var w1 := ops.mul(q1, d);
      DotStep(ops, data, base, values, y, b, j + 16);
      sum := ops.add(sum, ops.mul(w1, convert(x[offset + j + 16])));
    }
  }

  /** `dot_unchecked`: dequantization fused into the accumulation. */
  method DotUnchecked<A, F>(ops: FloatOps<F>, data: seq<byte>, base: nat, values: nat, x: seq<A>, convert: A -> F)
    returns (sum: F)
    requires HoldsRow(data, base, values) && values % 32 == 0 && values <= |x|
    ensures sum == Fold(ops, DequantizedRow(ops, data, base, values), Converted(x, convert), values)
  {
    sum := ops.zero;
    var blocks := values / VALUES_PER_BLOCK;
    for b := 0 to blocks
      invariant sum == Fold(ops, DequantizedRow(ops, data, base, values), Converted(x, convert), b * 32)
    {
      hide Fold, DequantizedRow, Converted;
      sum := AccumulateBlock(ops, data, base, values, x, convert, b, sum);
    }
  }

  /** The checks of `dot_f32` and `dot_bf16`, in order. */
  function DotCheck(bytes: nat, values: nat, activations: nat): Check<()>
  {
    var c := ValidateRow(values, bytes);
    if c.InvalidArgument? then c
    else if values != activations then InvalidArgument(ActivationCount)
    else Ok(())
  }

  /** The checks of `gemv_f32` and `gemv_bf16`, in order. */
  function GemvCheck(rows: nat, values: nat, bytes: nat, activations: nat, outputs: nat): Check<()>
  {
    var c := ValidateMatrix(rows, values, bytes);
    if c.InvalidArgument? then c
    else if values != activations then InvalidArgument(ActivationCount)
    else if outputs != rows then InvalidArgument(OutputCount)
    else Ok(())
  }

  /** What both dot products return for a row they accept: a fold over the dequantized row. */
  ghost function DotSpec<A, F>(ops: FloatOps<F>, row: seq<byte>, values: nat, x: seq<A>, convert: A -> F): F
    requires DotCheck(|row|, values, |x|).Ok?
  {
    Fold(ops, DequantizedRow(ops, row, 0, values), Converted(x, convert), values)
  }

  method DotF32<F>(ops: FloatOps<F>, row: seq<byte>, values: nat, x: seq<F>) returns (r: Check<F>)
    ensures r.InvalidArgument? <==> DotCheck(|row|, values, |x|).InvalidArgument?
    ensures r.InvalidArgument? ==> r.reason == DotCheck(|row|, values, |x|).reason
    ensures r.Ok? ==> r.value == DotSpec(ops, row, values, x, v => v)
  {
    var c := ValidateRow(values, |row|);
    if c.InvalidArgument? {
      return InvalidArgument(c.reason);
    }
    if values != |x| {
      return InvalidArgument(ActivationCount);
    }
    var convert := v => v;
    var sum := DotUnchecked(ops, row, 0, values, x, convert);
    assert Converted(x, convert) == x == Converted(x, v => v);
    return Ok(sum);
  }

  method DotBf16<F>(ops: FloatOps<F>, row: seq<byte>, values: nat, x: seq<u16>) returns (r: Check<F>)
    ensures r.InvalidArgument? <==> DotCheck(|row|, values, |x|).InvalidArgument?
    ensures r.InvalidArgument? ==> r.reason == DotCheck(|row|, values, |x|).reason
    ensures r.Ok? ==> r.value == DotSpec(ops, row, values, x, ops.ofBf16)
  {
    var c := ValidateRow(values, |row|);
    if c.InvalidArgument? {
      return InvalidArgument(c.reason);
    }
    if values != |x| {
      return InvalidArgument(ActivationCount);
    }
    var sum := DotUnchecked(ops, row, 0, values, x, ops.ofBf16);
    return Ok(sum);
  }

  /** The BF16 dot product is the float one on the widened activations, whatever the rounding. */
  lemma Bf16IsF32OnWidened<F>(ops: FloatOps<F>, row: seq<byte>, values: nat, x: seq<u16>)
    requires DotCheck(|row|, values, |x|).Ok?
    ensures DotSpec(ops, row, values, x, ops.ofBf16) ==
            DotSpec(ops, row, values, Converted(x, ops.ofBf16), v => v)
  {
    assert Converted(Converted(x, ops.ofBf16), v => v) == Converted(x, ops.ofBf16);
  }

  /** Over exact arithmetic the fold adds plain products, so it does not depend on the conversions. */
  lemma FoldNext(ops: FloatOps<real>, w: seq<real>, x: seq<real>, n: nat)
    requires Exact(ops) && 0 < n <= |w| && n <= |x|
    ensures Fold(ops, w, x, n) == Fold(ops, w, x, n - 1) + Scaled(w[n - 1], x[n - 1])
  {
  }

  lemma {:induction false} FoldSame(ops: FloatOps<real>, ops': FloatOps<real>, w: seq<real>, x: seq<real>, n: nat)
    requires Exact(ops) && Exact(ops') && n <= |w| && n <= |x|
    ensures Fold(ops, w, x, n) == Fold(ops', w, x, n)
  {
    if n != 0 {
      FoldSame(ops, ops', w, x, n - 1);
      FoldNext(ops, w, x, n);
      FoldNext(ops', w, x, n);
    }
  }

  // ---- the matrix-vector product ----

  lemma RowInMatrix(data: seq<byte>, rows: nat, values: nat, r: nat)
    requires r < rows && rows * RowBytes(values) <= |data|
    ensures HoldsRow(data, r * RowBytes(values), values)
  {
    assert (r + 1) * RowBytes(values) <= rows * RowBytes(values);
    assert (r + 1) * RowBytes(values) == r * RowBytes(values) + RowBytes(values);
  }

  /** Entry `r` of the reference product. */
  function GemvEntry<F>(ops: FloatOps<F>, data: seq<byte>, rows: nat, values: nat, x: seq<F>, r: nat): F
    requires r < rows && rows * RowBytes(values) <= |data| && values % 32 == 0 && values <= |x|
  {
    RowInMatrix(data, rows, values, r);
    Fold(ops, DequantizedRow(ops, data, r * RowBytes(values), values), x, values)
  }

  function GemvSpec<F>(ops: FloatOps<F>, data: seq<byte>, rows: nat, values: nat, x: seq<F>): (y: seq<F>)
    requires rows * RowBytes(values) <= |data| && values % 32 == 0 && values <= |x|
    ensures |y| == rows
  {
    seq(rows, r requires 0 <= r < rows => GemvEntry(ops, data, rows, values, x, r))
  }

  /** `gemv_f32` and `gemv_bf16`, which differ only in the conversion of an activation. */
  method Gemv<A, F>(ops: FloatOps<F>, data: seq<byte>, rows: nat, values: nat, x: seq<A>, convert: A -> F,
                    output: array<F>) returns (c: Check<()>)
    modifies output
    ensures c == GemvCheck(rows, values, |data|, |x|, output.Length)
    ensures c.InvalidArgument? ==> output[..] == old(output[..])
    ensures c.Ok? ==> rows * RowBytes(values) == |data| && values % 32 == 0 &&
                      output[..] == GemvSpec(ops, data, rows, values, Converted(x, convert))
  {
    c := ValidateMatrix(rows, values, |data|);
    if c.InvalidArgument? {
      return;
    }
    if values != |x| {
      return InvalidArgument(ActivationCount);
    }
    if output.Length != rows {
      return InvalidArgument(OutputCount);
    }
    MatrixAcceptedIff(rows, values, |data|);
    var rowBytes := RowBytes(values);
    ghost var y := Converted(x, convert);
    var r := 0;
    while r < rows
      invariant r <= rows
      invariant forall k :: 0 <= k < r ==> output[k] == GemvEntry(ops, data, rows, values, y, k)
    {
      RowInMatrix(data, rows, values, r);
      var sum := DotUnchecked(ops, data, r * rowBytes, values, x, convert);
      output[r] := sum;
      r := r + 1;
    }
    assert output[..] == GemvSpec(ops, data, rows, values, y);
  }
}
