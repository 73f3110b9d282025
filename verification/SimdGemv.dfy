/** The AVX2 path of the CPU engine, over exact arithmetic.

  A 128-bit integer register is 16 bytes, a 256-bit float register is 8 reals; each intrinsic used by
  the kernel is a function on those.  Row pairs may be processed in any order. */
module SimdGemv {
  import opened Words
  import opened NamedArithmetic
  import opened Q4Reference

  type Bytes16 = v: seq<byte> | |v| == 16 witness seq(16, _ => 0)
  type Words8 = v: seq<int> | |v| == 8 witness seq(8, _ => 0)
  type Lanes8 = v: seq<real> | |v| == 8 witness seq(8, _ => 0.0)
  type Lanes4 = v: seq<real> | |v| == 4 witness seq(4, _ => 0.0)

  // ---- intrinsics ----

  /** `_mm_and_si128` with `_mm_set1_epi8(0x0F)`. */
  function MaskNibbles(v: Bytes16): Bytes16
  {
    seq(16, i requires 0 <= i < 16 => (v[i] as int) % 16)
  }

  /** The 16-bit lane that contains byte `i`, shifted right by four. */
  function ShiftedWord(v: Bytes16, i: nat): int
    requires i < 16
  {
    ((v[i - i % 2] as int) + 256 * (v[i - i % 2 + 1] as int)) / 16
  }

  /** `_mm_srli_epi16(v, 4)`: 16-bit lanes, so bits cross from the upper byte into the lower. */
  function ShiftWords4(v: Bytes16): Bytes16
  {
    seq(16, i requires 0 <= i < 16 =>
      if i % 2 == 0 then ShiftedWord(v, i) % 256 else (ShiftedWord(v, i) / 256) % 256)
  }

  /** `_mm_srli_si128(v, 8)`. */
  function ShiftBytes8(v: Bytes16): Bytes16 { v[8..] + seq(8, _ => 0) }

  /** `_mm_cvtepi8_epi16`: sign-extend the lower eight bytes. */
  function SignExtend(v: Bytes16): Words8
  {
    seq(8, i requires 0 <= i < 8 => if v[i] < 128 then v[i] as int else (v[i] as int) - 256)
  }

  /** `_mm_sub_epi16` with `_mm_set1_epi16(8)`, modulo 2^16 in two's complement. */
  function Sub8(v: Words8): Words8
  {
    seq(8, i requires 0 <= i < 8 => (v[i] - 8 + 0x8000) % 0x1_0000 - 0x8000)
  }

  /** `_mm256_cvtepi32_ps(_mm256_cvtepi16_epi32(v))`. */
  function ToFloat(v: Words8): Lanes8 { seq(8, i requires 0 <= i < 8 => v[i] as real) }

  function Load8(x: seq<real>, at: nat): Lanes8
    requires at + 8 <= |x|
  {
    x[at..at + 8]
  }

  function MulLanes(a: Lanes8, b: Lanes8): Lanes8 { seq(8, i requires 0 <= i < 8 => Scaled(a[i], b[i])) }
  function AddLanes(a: Lanes8, b: Lanes8): Lanes8 { seq(8, i requires 0 <= i < 8 => a[i] + b[i]) }
  function Fmadd(a: Lanes8, b: Lanes8, c: Lanes8): Lanes8 { seq(8, i requires 0 <= i < 8 => Scaled(a[i], b[i]) + c[i]) }
  function Set1(d: real): Lanes8 { seq(8, _ => d) }
  function Add4(a: Lanes4, b: Lanes4): Lanes4 { [a[0] + b[0], a[1] + b[1], a[2] + b[2], a[3] + b[3]] }

  /** `_mm_movehl_ps(h, h)`. */
  function MoveHighLow(h: Lanes4): Lanes4 { [h[2], h[3], h[2], h[3]] }

  /** `_mm_shuffle_ps(h, h, 1)`. */
  function Shuffle1(h: Lanes4): Lanes4 { [h[1], h[0], h[0], h[0]] }

  /** `_mm_add_ss`: only the lowest lane. */
  function AddLowest(a: Lanes4, b: Lanes4): Lanes4 { [a[0] + b[0], a[1], a[2], a[3]] }

  /** The three-step horizontal add that ends a row. */
  function HorizontalAdd(acc: Lanes8): real
  {
    var h := Add4(acc[..4], acc[4..]);
    var h' := Add4(h, MoveHighLow(h));
    AddLowest(h', Shuffle1(h'))[0]
  }

  function Total(v: Lanes8): real { v[0] + v[1] + v[2] + v[3] + v[4] + v[5] + v[6] + v[7] }

  /** The horizontal add sums all eight lanes. */
  lemma HorizontalAddTotal(acc: Lanes8)
    ensures HorizontalAdd(acc) == Total(acc)
  {
  }

  // ---- nibble extraction ----

  /** Shifting 16-bit lanes by four and masking leaves the high nibble of every byte: what crosses over
    from the neighbouring byte is masked away. */
  lemma HighNibbles(v: Bytes16, i: nat)
    requires i < 16
    ensures MaskNibbles(ShiftWords4(v))[i] == (v[i] as int) / 16
  {
    Crossing(v[i - i % 2] as int, v[i - i % 2 + 1] as int);
  }

  lemma Crossing(lo: int, hi: int)
    requires 0 <= lo < 256 && 0 <= hi < 256
    ensures ((lo + 256 * hi) / 16) % 256 % 16 == lo / 16
    ensures ((lo + 256 * hi) / 16) / 256 % 256 % 16 == hi / 16
  {
    var q, a, b := lo / 16, hi / 16, hi % 16;
    var w := (lo + 256 * hi) / 16;
    assert w == q + 16 * b + 256 * a;
    assert w % 256 == q + 16 * b && w / 256 == a;
  }

  /** The kernel's four groups of eight signed values, as the reference defines values 0 to 31. */
  function Group(raw: Bytes16, g: nat): Lanes8
    requires g < 4
  {
    var nibbles := if g < 2 then MaskNibbles(raw) else MaskNibbles(ShiftWords4(raw));
    ToFloat(Sub8(SignExtend(if g % 2 == 0 then nibbles else ShiftBytes8(nibbles))))
  }

  lemma GroupValue(raw: Bytes16, g: nat, l: nat)
    requires g < 4 && l < 8
    ensures Group(raw, g)[l] == NibbleOf(raw[LaneOf(8 * g + l)], 8 * g + l) as real
  {
    hide ShiftWords4, ShiftedWord, ToFloat, MaskNibbles, ShiftBytes8;
    var nibbles := if g < 2 then MaskNibbles(raw) else MaskNibbles(ShiftWords4(raw));
    var half := if g % 2 == 0 then nibbles else ShiftBytes8(nibbles);
    LaneValue(half, l);
    HalfLane(nibbles, g % 2, l);
    if g >= 2 {
      HighNibbles(raw, 8 * (g - 2) + l);
    } else {
      LowNibbles(raw, 8 * g + l);
    }
  }

  lemma LaneValue(half: Bytes16, l: nat)
    requires l < 8
    ensures ToFloat(Sub8(SignExtend(half)))[l] == Sub8(SignExtend(half))[l] as real
  {
  }

  lemma HalfLane(nibbles: Bytes16, h: nat, l: nat)
    requires h < 2 && l < 8
    ensures (if h == 0 then nibbles else ShiftBytes8(nibbles))[l] == nibbles[8 * h + l]
  {
  }

  lemma LowNibbles(v: Bytes16, i: nat)
    requires i < 16
    ensures MaskNibbles(v)[i] == v[i] % 16
  {
  }

  // ---- one block ----

  /** The kernel's accumulator after one block. */
  function BlockStep(raw: Bytes16, d: real, x: seq<real>, at: nat, acc: Lanes8): Lanes8
    requires at + 32 <= |x|
  {
    var prod0 := MulLanes(Group(raw, 0), Load8(x, at));
    var prod1 := MulLanes(Group(raw, 1), Load8(x, at + 8));
    var prod2 := MulLanes(Group(raw, 2), Load8(x, at + 16));
    var prod3 := MulLanes(Group(raw, 3), Load8(x, at + 24));
    Fmadd(AddLanes(AddLanes(prod0, prod1), AddLanes(prod2, prod3)), Set1(d), acc)
  }

  /** Value `k` of a block times its activation. */
  function Term(raw: Bytes16, x: seq<real>, at: nat, k: nat): real
    requires k < 32 && at + k < |x|
  {
    Scaled(NibbleOf(raw[LaneOf(k)], k) as real, x[at + k])
  }

  /** The exact dot product of the first `k` signed nibbles of a block with the activations at `at`. */
  function NibbleDot(raw: Bytes16, x: seq<real>, at: nat, k: nat): real
    requires k <= 32 && at + k <= |x|
  {
    if k == 0 then 0.0
    else NibbleDot(raw, x, at, k - 1) + Term(raw, x, at, k - 1)
  }

  lemma LaneTerm(raw: Bytes16, x: seq<real>, at: nat, g: nat, l: nat)
    requires g < 4 && l < 8 && at + 32 <= |x|
    ensures MulLanes(Group(raw, g), Load8(x, at + 8 * g))[l] == Term(raw, x, at, 8 * g + l)
  {
    hide Group, NibbleOf, Scaled;
    GroupValue(raw, g, l);
  }

  lemma GroupTotal(raw: Bytes16, x: seq<real>, at: nat, g: nat, first: nat, from: nat)
    requires g < 4 && at + 32 <= |x| && first == 8 * g && from == at + first
    ensures Total(MulLanes(Group(raw, g), Load8(x, from))) ==
            NibbleDot(raw, x, at, first + 8) - NibbleDot(raw, x, at, first)
  {
    hide Group, MulLanes, Load8, Term, NibbleDot, Partial, Total;
    var p := MulLanes(Group(raw, g), Load8(x, from));
    forall l | 0 <= l < 8
      ensures p[l] == Term(raw, x, at, first + l)
    {
      LaneTerm(raw, x, at, g, l);
    }
    PartialSum(raw, x, at, first, 8, p);
    PartialTotal(p);
  }

  function Partial(v: Lanes8, n: nat): real
    requires n <= 8
  {
    if n == 0 then 0.0 else Partial(v, n - 1) + v[n - 1]
  }

  lemma PartialTotal(v: Lanes8)
    ensures Partial(v, 8) == Total(v)
  {
    assert Partial(v, 1) == v[0];
    assert Partial(v, 2) == v[0] + v[1];
    assert Partial(v, 3) == v[0] + v[1] + v[2];
    assert Partial(v, 4) == v[0] + v[1] + v[2] + v[3];
    assert Partial(v, 6) == Partial(v, 4) + v[4] + v[5];
    assert Partial(v, 8) == Partial(v, 6) + v[6] + v[7];
  }

  lemma {:induction false} PartialSum(raw: Bytes16, x: seq<real>, at: nat, first: nat, n: nat, p: Lanes8)
    requires n <= 8 && first + 8 <= 32 && at + 32 <= |x|
    requires forall l :: 0 <= l < 8 ==> p[l] == Term(raw, x, at, first + l)
    ensures Partial(p, n) == NibbleDot(raw, x, at, first + n) - NibbleDot(raw, x, at, first)
  {
    hide Term;
    if n != 0 {
      PartialSum(raw, x, at, first, n - 1, p);
      assert p[n - 1] == Term(raw, x, at, first + (n - 1));
    }
  }

  lemma TotalFmadd(s: Lanes8, d: real, acc: Lanes8)
    ensures Total(Fmadd(s, Set1(d), acc)) == Scaled(d, Total(s)) + Total(acc)
  {
    var r := Fmadd(s, Set1(d), acc);
    assert forall i :: 0 <= i < 8 ==> r[i] == d * s[i] + acc[i];
    assert d * Total(s) == d * s[0] + d * s[1] + d * s[2] + d * s[3] + d * s[4] + d * s[5] + d * s[6] + d * s[7];
  }

  /** A block adds `d` times its exact nibble dot product to the lane total. */
  lemma BlockStepTotal(raw: Bytes16, d: real, x: seq<real>, at: nat, acc: Lanes8)
    requires at + 32 <= |x|
    ensures Total(BlockStep(raw, d, x, at, acc)) == Total(acc) + Scaled(d, NibbleDot(raw, x, at, 32))
  {
    NibbleDotZero(raw, x, at);
    hide Group, NibbleDot, Total, MulLanes, AddLanes, Fmadd, Scaled, Load8, Set1;
    var p0, p1 := MulLanes(Group(raw, 0), Load8(x, at)), MulLanes(Group(raw, 1), Load8(x, at + 8));
    var p2, p3 := MulLanes(Group(raw, 2), Load8(x, at + 16)), MulLanes(Group(raw, 3), Load8(x, at + 24));
    GroupTotal(raw, x, at, 0, 0, at);
    GroupTotal(raw, x, at, 1, 8, at + 8);
    GroupTotal(raw, x, at, 2, 16, at + 16);
    GroupTotal(raw, x, at, 3, 24, at + 24);
    TotalAdd(p0, p1);
    TotalAdd(p2, p3);
    var s := AddLanes(AddLanes(p0, p1), AddLanes(p2, p3));
    TotalAdd(AddLanes(p0, p1), AddLanes(p2, p3));
    assert Total(s) == NibbleDot(raw, x, at, 32);
    TotalFmadd(s, d, acc);
  }

  lemma NibbleDotZero(raw: Bytes16, x: seq<real>, at: nat)
    requires at <= |x|
    ensures NibbleDot(raw, x, at, 0) == 0.0
  {
  }

  lemma NibbleDotNext(raw: Bytes16, x: seq<real>, at: nat, k: nat)
    requires 0 < k <= 32 && at + k <= |x|
    ensures NibbleDot(raw, x, at, k) == NibbleDot(raw, x, at, k - 1) + Term(raw, x, at, k - 1)
  {
  }

  lemma TotalAdd(a: Lanes8, b: Lanes8)
    ensures Total(AddLanes(a, b)) == Total(a) + Total(b)
  {
  }

  // ---- one row ----

  function RawBlock(data: seq<byte>, base: nat, b: nat): Bytes16
    requires base + b * 18 + 18 <= |data|
  {
    data[base + b * 18 + 2..base + b * 18 + 18]
  }

  lemma ExactStep(ops: FloatOps<real>, f: real, q: int, d: real, y: real)
    requires Exact(ops)
    ensures ops.add(f, ops.mul(ops.mul(ops.ofInt(q), d), y)) == f + Scaled(d, Scaled(q as real, y))
  {
  }

  /** The reference's fold advances by the same amount over the block. */
  lemma {:induction false} FoldBlock(ops: FloatOps<real>, data: seq<byte>, base: nat, values: nat, x: seq<real>,
                                     b: nat, k: nat)
    requires Exact(ops)
    requires HoldsRow(data, base, values) && values % 32 == 0 && values <= |x| && k <= 32
    requires base + b * 18 + 18 <= |data| && b * 32 + 32 <= values
    ensures var w := DequantizedRow(ops, data, base, values);
            Fold(ops, w, x, b * 32 + k) == Fold(ops, w, x, b * 32) +
              Scaled(ops.ofHalf(ScaleBits(data, base, b)), NibbleDot(RawBlock(data, base, b), x, b * 32, k))
  {
    hide Fold, DequantizedRow, HoldsRow, ScaleBits, Exact, Scaled, Term, NibbleDot, RawBlock;
    var d, raw := ops.ofHalf(ScaleBits(data, base, b)), RawBlock(data, base, b);
    if k == 0 {
      NibbleDotZero(raw, x, b * 32);
      Distribute(d, 0.0, 0.0);
    } else {
      FoldBlock(ops, data, base, values, x, b, k - 1);
      FoldOne(ops, data, base, values, x, b, k - 1);
      NibbleDotNext(raw, x, b * 32, k);
      Distribute(d, NibbleDot(raw, x, b * 32, k - 1), Term(raw, x, b * 32, k - 1));
    }
  }

  lemma FoldOne(ops: FloatOps<real>, data: seq<byte>, base: nat, values: nat, x: seq<real>, b: nat, k: nat)
    requires Exact(ops)
    requires HoldsRow(data, base, values) && values % 32 == 0 && values <= |x| && k < 32
    requires base + b * 18 + 18 <= |data| && b * 32 + 32 <= values
    ensures var w := DequantizedRow(ops, data, base, values);
            Fold(ops, w, x, b * 32 + k + 1) == Fold(ops, w, x, b * 32 + k) +
              Scaled(ops.ofHalf(ScaleBits(data, base, b)), Term(RawBlock(data, base, b), x, b * 32, k))
  {
    hide Fold, DequantizedRow, HoldsRow, ScaleBits, Exact, NibbleOf, Scaled;
    var w := DequantizedRow(ops, data, base, values);
    var packed := data[base + b * 18 + 2 + LaneOf(k)];
    assert RawBlock(data, base, b)[LaneOf(k)] == packed;
    DotStep(ops, data, base, values, x, b, k);
    ExactStep(ops, Fold(ops, w, x, b * 32 + k), NibbleOf(packed, k), ops.ofHalf(ScaleBits(data, base, b)),
              x[b * 32 + k]);
  }

  /** The values of a row that lie in whole blocks. */
  function Whole(K: nat): (v: nat)
    ensures v % 32 == 0 && v <= K && v / 32 == K / 32
  {
    K - K % 32
  }

  /** The exact result both kernels owe for a row: the reference's fold over its whole blocks. */
  ghost function RowDot(ops: FloatOps<real>, data: seq<byte>, base: nat, K: nat, x: seq<real>, blocks: nat): real
    requires HoldsRow(data, base, K) && Whole(K) <= |x| && blocks * 32 <= Whole(K)
  {
    Fold(ops, DequantizedRow(ops, data, base, Whole(K)), x, blocks * 32)
  }

  lemma WholeBlocks(data: seq<byte>, base: nat, K: nat, b: nat)
    requires HoldsRow(data, base, K) && b < K / 32
    ensures HoldsRow(data, base, Whole(K)) && Whole(K) % 32 == 0 && Whole(K) / 32 == K / 32
    ensures base + b * 18 + 18 <= |data| && b * 32 + 32 <= Whole(K)
  {
  }

  /** The loop body shared by the one-row and the two-row kernel. */
  method AccumulateLanes(ghost ops: FloatOps<real>, data: seq<byte>, base: nat, K: nat, x: seq<real>,
                         b: nat, d: real, acc: Lanes8) returns (acc': Lanes8)
    requires Exact(ops) && HoldsRow(data, base, K) && HoldsRow(data, base, Whole(K)) && Whole(K) <= |x|
    requires b * 32 + 32 <= Whole(K)
    requires base + b * 18 + 18 <= |data| && d == ops.ofHalf(ScaleBits(data, base, b))
    requires Total(acc) == RowDot(ops, data, base, K, x, b)
    ensures Total(acc') == RowDot(ops, data, base, K, x, b + 1)
  {
    hide Fold, DequantizedRow, Total, BlockStep, NibbleDot, HoldsRow, Exact, Whole, ScaleBits, Scaled, RawBlock;
    var raw := RawBlock(data, base, b);
    acc' := BlockStep(raw, d, x, b * 32, acc);
    BlockStepTotal(raw, d, x, b * 32, acc);
    FoldBlock(ops, data, base, Whole(K), x, b, 32);
  }

  lemma ZeroTotal(ops: FloatOps<real>, data: seq<byte>, base: nat, K: nat, x: seq<real>)
    requires Exact(ops) && HoldsRow(data, base, K) && Whole(K) <= |x|
    ensures Total(Set1(0.0)) == RowDot(ops, data, base, K, x, 0)
  {
  }

  /** `dot_q4_0_f32_fast`. */
  method DotFast(ops: FloatOps<real>, data: seq<byte>, base: nat, K: nat, x: seq<real>) returns (r: real)
    requires Exact(ops) && HoldsRow(data, base, K) && Whole(K) <= |x|
    ensures r == RowDot(ops, data, base, K, x, K / 32)
  {
    hide Total, RowDot, Set1, Whole, Exact, HoldsRow;
    var nb := K / 32;
    var acc: Lanes8 := Set1(0.0);
    ZeroTotal(ops, data, base, K, x);
    for b := 0 to nb
      invariant Total(acc) == RowDot(ops, data, base, K, x, b)
    {
      WholeBlocks(data, base, K, b);
      var d := ops.ofHalf(LoadU16(data[base + b * 18], data[base + b * 18 + 1]));
      acc := AccumulateLanes(ops, data, base, K, x, b, d, acc);
    }
    HorizontalAddTotal(acc);
    r := HorizontalAdd(acc);
  }

  /** `dot_q4_0_f32_2rows`: two rows against one load of the activations. */
  method DotTwoRows(ops: FloatOps<real>, data: seq<byte>, base0: nat, base1: nat, K: nat, x: seq<real>)
    returns (out0: real, out1: real)
    requires Exact(ops) && HoldsRow(data, base0, K) && HoldsRow(data, base1, K) && Whole(K) <= |x|
    ensures out0 == RowDot(ops, data, base0, K, x, K / 32)
    ensures out1 == RowDot(ops, data, base1, K, x, K / 32)
  {
    hide Total, RowDot, Set1, Whole, Exact, HoldsRow;
    var nb := K / 32;
    var acc0: Lanes8, acc1: Lanes8 := Set1(0.0), Set1(0.0);
    ZeroTotal(ops, data, base0, K, x);
    ZeroTotal(ops, data, base1, K, x);
    for b := 0 to nb
      invariant Total(acc0) == RowDot(ops, data, base0, K, x, b)
      invariant Total(acc1) == RowDot(ops, data, base1, K, x, b)
    {
      WholeBlocks(data, base0, K, b);
      var d0 := ops.ofHalf(LoadU16(data[base0 + b * 18], data[base0 + b * 18 + 1]));
      acc0 := AccumulateLanes(ops, data, base0, K, x, b, d0, acc0);
      WholeBlocks(data, base1, K, b);
      var d1 := ops.ofHalf(LoadU16(data[base1 + b * 18], data[base1 + b * 18 + 1]));
      acc1 := AccumulateLanes(ops, data, base1, K, x, b, d1, acc1);
    }
    HorizontalAddTotal(acc0);
    HorizontalAddTotal(acc1);
    out0, out1 := HorizontalAdd(acc0), HorizontalAdd(acc1);
  }

  // ---- the engine ----

  /** The buffer test of `run`: the size it asks for is a product in 64 bits. */
  predicate Refused(bytes: nat, needed: nat) { bytes < needed % U64_LIMIT }

  /** How a run ends.  Overrun: a short buffer has passed the test, and the loops read past its end. */
  datatype Verdict = Refusal | Product | Overrun

  function VerdictOn(bytes: nat, needed: nat): Verdict
  {
    if Refused(bytes, needed) then Refusal else if bytes < needed then Overrun else Product
  }

  /** The test refuses the short buffers and no others exactly for matrices of fewer than 2^64 bytes. */
  lemma GuardExactIff(needed: nat)
    ensures (forall bytes: nat :: Refused(bytes, needed) <==> bytes < needed) <==> needed < U64_LIMIT
    ensures (forall bytes: nat :: VerdictOn(bytes, needed) != Overrun) <==> needed < U64_LIMIT
  {
    if needed >= U64_LIMIT {
      var bytes := needed % U64_LIMIT;
      assert !Refused(bytes, needed) && bytes < needed && VerdictOn(bytes, needed) == Overrun;
    }
  }

  /** 2^34 rows of 2^35 values need 18 * 2^64 bytes, and an empty buffer passes for them. */
  lemma EmptyBufferPasses()
    ensures 0x4_0000_0000 * RowBytes(0x8_0000_0000) == 18 * U64_LIMIT
    ensures VerdictOn(0, 0x4_0000_0000 * RowBytes(0x8_0000_0000)) == Overrun
  {
  }

  /** `Q4GemvEngine::run`.  Trailing activations of a row that is not whole blocks are ignored, and the
    weight buffer may be longer than the matrix.  Nothing is said of the output after an overrun. */
  method Run(ops: FloatOps<real>, weights: seq<byte>, N: nat, K: nat, x: seq<real>, output: array<real>)
    returns (verdict: Verdict)
    requires Exact(ops) && N <= output.Length && Whole(K) <= |x|
    modifies output
    ensures verdict == VerdictOn(|weights|, N * RowBytes(K))
    ensures verdict == Refusal ==> output[..] == old(output[..])
    ensures verdict == Product ==> N * RowBytes(Whole(K)) <= |weights| &&
                                   output[..] == GemvSpec(ops, weights, N, Whole(K), x) + old(output[N..])
  {
    var bytesPerRow := (K / 32) * 18;
    if |weights| < N * bytesPerRow % U64_LIMIT {
      return Refusal;
    } else if |weights| < N * bytesPerRow {
      return Overrun;
    }
    verdict := Product;
    ghost var before, want := output[..], GemvSpec(ops, weights, N, Whole(K), x);
    if N <= 256 {
      RunSingleCore(ops, weights, N, K, x, output, want);
    } else {
      RunThreads(ops, weights, N, K, x, output, want);
    }
    assert output[..] == want + before[N..];
  }

  /** The path without threads: pairs of rows in order, then the odd last row. */
  method RunSingleCore(ops: FloatOps<real>, weights: seq<byte>, N: nat, K: nat, x: seq<real>, output: array<real>,
                       ghost want: seq<real>)
    requires Exact(ops) && N <= output.Length && Whole(K) <= |x| && N * RowBytes(K) <= |weights|
    requires N * RowBytes(Whole(K)) <= |weights| && want == GemvSpec(ops, weights, N, Whole(K), x)
    modifies output
    ensures forall i :: 0 <= i < output.Length ==> output[i] == if i < N then want[i] else old(output[i])
  {
    hide GemvSpec, RowBytes, Exact, Whole;
    var r := 0;
    while r + 1 < N
      invariant r <= N
      invariant forall i :: 0 <= i < output.Length ==> output[i] == if i < r then want[i] else old(output[i])
    {
      RunPair(ops, weights, N, K, x, output, r, want);
      r := r + 2;
    }
    if r < N {
      RunPair(ops, weights, N, K, x, output, r, want);
    }
  }

  /** The row of the pair that iteration handles index `i`. */
  function PairOf(i: nat): nat { i - i % 2 }

  lemma EvenPair(r: nat)
    requires r % 2 == 0
    ensures forall i: nat :: PairOf(i) == r <==> i == r || i == r + 1
  {
  }

  /** The OpenMP loop over row pairs: its iterations in whatever order the threads take them. */
  method RunThreads(ops: FloatOps<real>, weights: seq<byte>, N: nat, K: nat, x: seq<real>, output: array<real>,
                    ghost want: seq<real>)
    requires Exact(ops) && N <= output.Length && Whole(K) <= |x| && N * RowBytes(K) <= |weights|
    requires N * RowBytes(Whole(K)) <= |weights| && want == GemvSpec(ops, weights, N, Whole(K), x)
    modifies output
    ensures forall i :: 0 <= i < output.Length ==> output[i] == if i < N then want[i] else old(output[i])
  {
    var pending := set r | 0 <= r < N && r % 2 == 0;
    assert forall i :: 0 <= i < N ==> PairOf(i) in pending;
    hide GemvSpec, RowBytes, Exact, Whole, PairOf;
    while pending != {}
      invariant forall r :: r in pending ==> 0 <= r < N && r % 2 == 0
      invariant forall i :: 0 <= i < output.Length ==>
        output[i] == if i < N && PairOf(i) !in pending then want[i] else old(output[i])
    {
      var r :| r in pending;
      EvenPair(r);
      RunPair(ops, weights, N, K, x, output, r, want);
      pending := pending - {r};
    }
  }

  /** The body of both row loops: a pair of rows, or the odd last row. */
  method RunPair(ops: FloatOps<real>, weights: seq<byte>, N: nat, K: nat, x: seq<real>, output: array<real>,
                 r: nat, ghost want: seq<real>)
    requires Exact(ops) && r < N <= output.Length && Whole(K) <= |x| && N * RowBytes(K) <= |weights|
    requires N * RowBytes(Whole(K)) <= |weights| && want == GemvSpec(ops, weights, N, Whole(K), x)
    modifies output
    ensures forall i :: 0 <= i < output.Length ==>
      output[i] == if i == r || (i == r + 1 && r + 1 < N) then want[i] else old(output[i])
  {
    hide Whole, HoldsRow, Exact;
    var bytesPerRow := (K / 32) * 18;
    RowInMatrix(weights, N, K, r);
    if r + 1 < N {
      RowInMatrix(weights, N, K, r + 1);
      var out0, out1 := DotTwoRows(ops, weights, r * bytesPerRow, (r + 1) * bytesPerRow, K, x);
      output[r], output[r + 1] := out0, out1;
    } else {
      output[r] := DotFast(ops, weights, r * bytesPerRow, K, x);
    }
  }

  /** `Q4GemvEngine::run_bf16`: widen, then run. */
  method RunBf16(ops: FloatOps<real>, weights: seq<byte>, N: nat, K: nat, x: seq<u16>, output: array<real>)
    returns (verdict: Verdict)
    requires Exact(ops) && N <= output.Length && K <= |x|
    modifies output
    ensures verdict == VerdictOn(|weights|, N * RowBytes(K))
    ensures verdict == Refusal ==> output[..] == old(output[..])
    ensures verdict == Product ==> N * RowBytes(Whole(K)) <= |weights|
    ensures verdict == Product ==>
      output[..] == GemvSpec(ops, weights, N, Whole(K), Converted(x[..K], ops.ofBf16)) + old(output[N..])
  {
    var widened := Converted(x[..K], ops.ofBf16);
    verdict := Run(ops, weights, N, K, widened, output);
  }
}
