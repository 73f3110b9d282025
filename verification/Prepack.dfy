/** `Q4Prepacker`: from interleaved Q4_0 blocks to the column-partitioned planar layout and back. */
module Prepack {
  import opened Words
  import opened NamedArithmetic
  import opened FloatFormats
  import opened Q4Reference
  import opened PackedLayout
  import opened WriteLog

  datatype Layout = Layout(
    M: nat, K: nat, columns: nat, rowsPerColumn: nat, groupSize: nat, groupsPerRow: nat,
    weightBytesPerRow: nat, scaleBytesPerRow: nat, packedBytesPerRow: nat, totalPackedBytes: nat)

  datatype LayoutCheck = Laid(layout: Layout) | RowNotWholeGroups | RowsNotDivisible

  function ColumnsOr4(numColumns: nat): nat { if numColumns == 0 then 4 else numColumns }

  function GroupOr32(groupSize: nat): nat { if groupSize == 0 then 32 else groupSize }

  /** `compute_layout`, which replaces zero arguments by its defaults and computes sizes in 64 bits. */
  function ComputeLayout(M: nat, K: nat, numColumns: nat, groupSize: nat): LayoutCheck
  {
    var columns, group := ColumnsOr4(numColumns), GroupOr32(groupSize);
    if K % group != 0 then RowNotWholeGroups
    else if M % columns != 0 then RowsNotDivisible
    else
      var groups := Quot(K, group);
      var scales := groups * 2 % U64_LIMIT;
      var packed := (K / 2 + scales) % U64_LIMIT;
      Laid(Layout(M, K, columns, Quot(M, columns), group, groups, K / 2, scales, packed, Mul(M, packed) % U64_LIMIT))
  }

  /** The planes the loops fill. */
  function PlanesOf(l: Layout): Planes { Planes(l.columns, l.rowsPerColumn, l.groupsPerRow, l.weightBytesPerRow) }

  /** For any arguments: when there is a layout, what its groups are, how they compare with the 16 bytes that the loops
    use for each, and that its size is the image's in 64 bits. */
  lemma LayoutMeaning(M: nat, K: nat, numColumns: nat, groupSize: nat)
    ensures var check, group := ComputeLayout(M, K, numColumns, groupSize), if groupSize == 0 then 32 else groupSize;
            var columns := if numColumns == 0 then 4 else numColumns;
            (check.Laid? <==> K % group == 0 && M % columns == 0) &&
            (check.RowNotWholeGroups? <==> K % group != 0) &&
            (check.Laid? ==>
               var l, p := check.layout, PlanesOf(check.layout);
               p.cols == columns && Rows(p) == M == l.M && l.K == K && p.W == K / 2 &&
               Mul(p.G, group) == K && (16 * p.G <= p.W <==> group >= 32 || K == 0) &&
               (16 * p.G == p.W <==> group == 32 || K == 0 || group == K == 33) &&
               l.scaleBytesPerRow == 2 * p.G % U64_LIMIT && l.packedBytesPerRow == (K / 2 + 2 * p.G) % U64_LIMIT &&
               l.totalPackedBytes == ImageBytes(p) % U64_LIMIT)
  {
    var columns, group := ColumnsOr4(numColumns), GroupOr32(groupSize);
    if K % group == 0 && M % columns == 0 {
      hide Mul, Quot, ImageBytes;
      var R, G := Quot(M, columns), Quot(K, group);
      WholeQuotient(M, columns);
      WholeQuotient(K, group);
      GroupsAgainst32(G, group);
      LayoutSize(columns, R, G, K / 2);
    }
  }

  lemma WholeQuotient(n: nat, d: nat)
    requires 0 < d && n % d == 0
    ensures Mul(Quot(n, d), d) == n == Mul(d, Quot(n, d))
  {
    assert n == d * (n / d);
  }

  lemma GroupsAgainst32(G: nat, group: nat)
    requires 0 < group
    ensures var K := Mul(G, group);
            (16 * G <= K / 2 <==> group >= 32 || K == 0) &&
            (16 * G == K / 2 <==> group == 32 || K == 0 || group == K == 33)
  {
    assert Mul(G, group) == group * G;
    if group < 32 {
      MulMono(group, 31, G);
    } else if group > 33 {
      MulMono(34, group, G);
    } else {
      assert group == 33 ==> group * G == 33 * G;
      assert group == 32 ==> group * G == 32 * G;
    }
  }

  lemma LayoutSize(columns: nat, R: nat, G: nat, W: nat)
    ensures Mul(Mul(columns, R), (W + G * 2 % U64_LIMIT) % U64_LIMIT) % U64_LIMIT ==
            ImageBytes(Planes(columns, R, G, W)) % U64_LIMIT
    ensures (W + G * 2 % U64_LIMIT) % U64_LIMIT == (W + 2 * G) % U64_LIMIT
  {
    SumMod(W, G);
    RowsTimes(columns, R, G, W);
    hide Mul, ImageBytes;
    ModFactor(Mul(columns, R), W + G * 2, U64_LIMIT);
  }

  lemma SumMod(W: nat, G: nat)
    ensures (W + G * 2 % U64_LIMIT) % U64_LIMIT == (W + 2 * G) % U64_LIMIT == (W + G * 2) % U64_LIMIT
  {
  }

  lemma RowsTimes(columns: nat, R: nat, G: nat, W: nat)
    ensures Mul(Mul(columns, R), W + G * 2) == ImageBytes(Planes(columns, R, G, W))
  {
    assert R * (W + G * 2) == R * W + R * (G * 2);
    assert (columns * R) * (W + G * 2) == columns * (R * (W + G * 2));
  }

  // ---- the sequence of writes ----

  /** The matrix in GGML form: `rows` rows of `G` blocks of 18 bytes. */
  predicate HoldsMatrix(data: seq<byte>, rows: nat, G: nat) { Mul(rows, G * 18) <= |data| }

  function RowBase(G: nat, row: nat): nat { Mul(row, G * 18) }

  lemma BlockInMatrix(data: seq<byte>, rows: nat, G: nat, row: nat, g: nat)
    requires HoldsMatrix(data, rows, G) && row < rows && g < G
    ensures RowBase(G, row) + g * 18 + 18 <= |data|
  {
    hide Mul;
    Below(row, rows, g * 18 + 17, G * 18);
  }

  /** The byte that belongs in a slot: a nibble byte as it is, or a byte of the BF16 scale, lower first. */
  function SlotByte(data: seq<byte>, p: Planes, s: Slot): byte
    requires HoldsMatrix(data, Rows(p), p.G) && InLayout(p, s)
  {
    BlockInMatrix(data, Rows(p), p.G, s.row, s.g);
    match s
    case Nibbles(row, g, j) => PackedByte(data, RowBase(p.G, row), g, j)
    case Scale(row, g, h) =>
      var bits := RoundedScale(ScaleBits(data, RowBase(p.G, row), g));
      if h == 0 then bits % 256 else bits / 256
  }

  /** The `k`-th byte written for a group: sixteen nibble bytes, then the scale. */
  function SlotOf(row: nat, g: nat, k: nat): Slot { if k < 16 then Nibbles(row, g, k) else Scale(row, g, k - 16) }

  /** How many writes come before group `g` of a row, with `w` writes a group. */
  function Before(p: Planes, w: nat, row: nat, g: nat): nat { Mul(Mul(row, p.G) + g, w) }

  function Steps(p: Planes, w: nat): nat { Before(p, w, Rows(p), 0) }

  /** Row, group and place within the group of write `n`. */
  function PlaceOf(p: Planes, w: nat, n: nat): (nat, nat, nat)
    requires 0 < p.G && 0 < w
  {
    var group := Quot(n, w);
    (Quot(group, p.G), Rem(group, p.G), Rem(n, w))
  }

  lemma PlaceOfStep(p: Planes, w: nat, n: nat)
    requires 0 < w && n < Steps(p, w)
    ensures 0 < p.G && 0 < p.R
    ensures var (row, g, k) := PlaceOf(p, w, n); row < Rows(p) && g < p.G && k < w && Before(p, w, row, g) + k == n
  {
    Quotient(n, w, Mul(Rows(p), p.G));
    assert 0 < p.G && 0 < p.R;
    hide Mul, Quot, Rem;
    Quotient(Quot(n, w), p.G, Rows(p));
  }

  lemma StepOfPlace(p: Planes, w: nat, row: nat, g: nat, k: nat)
    requires row < Rows(p) && g < p.G && k < w
    ensures Before(p, w, row, g) + k < Steps(p, w) && PlaceOf(p, w, Before(p, w, row, g) + k) == (row, g, k)
  {
    hide Mul, Quot, Rem;
    Below(row, Rows(p), g, p.G);
    Below(Mul(row, p.G) + g, Mul(Rows(p), p.G), k, w);
    DivModOf(Mul(row, p.G) + g, w, k);
    DivModOf(row, p.G, g);
  }

  lemma NextGroup(p: Planes, w: nat, row: nat, g: nat)
    requires row < Rows(p) && g < p.G
    ensures Before(p, w, row, g + 1) == Before(p, w, row, g) + w <= Steps(p, w)
  {
    hide Mul;
    MulNext(Mul(row, p.G) + g, w);
    if w > 0 {
      StepOfPlace(p, w, row, g, w - 1);
    } else {
      assert Before(p, w, row, g) == 0 by { MulBy(Mul(row, p.G) + g, 0); }
    }
  }

  lemma NextRow(p: Planes, w: nat, row: nat)
    ensures Before(p, w, row, p.G) == Before(p, w, row + 1, 0) && Before(p, w, 0, 0) == 0
    ensures row <= Rows(p) ==> Before(p, w, row, 0) <= Steps(p, w)
  {
    MulNext(row, p.G);
    MulNext(0, p.G);
    MulNext(0, w);
    if row <= Rows(p) {
      MulMono(row, Rows(p), p.G);
      MulMono(Mul(row, p.G), Mul(Rows(p), p.G), w);
    }
  }

  /** The slot of write `n` of `pack`, and the write of a slot. */
  function SlotAt(p: Planes, n: nat): Slot
    requires 0 < p.G
  {
    var (row, g, k) := PlaceOf(p, 18, n);
    SlotOf(row, g, k)
  }

  function StepOf(p: Planes, s: Slot): nat
  {
    Before(p, 18, s.row, s.g) + match s case Nibbles(_, _, j) => j case Scale(_, _, h) => 16 + h
  }

  lemma SlotOfStep(p: Planes, n: nat)
    requires n < Steps(p, 18)
    ensures 0 < p.G && 0 < p.R && InLayout(p, SlotAt(p, n)) && StepOf(p, SlotAt(p, n)) == n
  {
    hide Before, PlaceOf;
    PlaceOfStep(p, 18, n);
  }

  lemma StepOfSlot(p: Planes, s: Slot)
    requires InLayout(p, s)
    ensures StepOf(p, s) < Steps(p, 18) && SlotAt(p, StepOf(p, s)) == s
  {
    hide Before, PlaceOf;
    StepOfPlace(p, 18, s.row, s.g, match s case Nibbles(_, _, j) => j case Scale(_, _, h) => 16 + h);
  }

  function PackWrite(data: seq<byte>, p: Planes, n: nat): Write<byte>
    requires HoldsMatrix(data, Rows(p), p.G) && n < Steps(p, 18)
  {
    SlotOfStep(p, n);
    Write(OffsetOf(p, SlotAt(p, n)), SlotByte(data, p, SlotAt(p, n)))
  }

  /** What `pack` writes, in the order of its loops. */
  function PackLog(data: seq<byte>, p: Planes): (log: seq<Write<byte>>)
    requires HoldsMatrix(data, Rows(p), p.G)
    ensures |log| == Steps(p, 18)
  {
    seq(Steps(p, 18), n requires 0 <= n < Steps(p, 18) => PackWrite(data, p, n))
  }

  /** All slots lie below `length`. */
  ghost predicate Reaches(p: Planes, length: nat)
  {
    p.R == 0 || forall s :: InLayout(p, s) ==> OffsetOf(p, s) < length
  }

  // ---- packing ----

  lemma PackStep(data: seq<byte>, p: Planes, col: nat, r: nat, g: nat, k: nat)
    requires HoldsMatrix(data, Rows(p), p.G) && col < p.cols && r < p.R && g < p.G && k < 18
    ensures var s, n := SlotOf(Mul(col, p.R) + r, g, k), Before(p, 18, Mul(col, p.R) + r, g) + k;
            s.row < Rows(p) && n < Steps(p, 18) && InLayout(p, s) &&
            PackLog(data, p)[n] == Write(OffsetOf(p, s), SlotByte(data, p, s)) &&
            OffsetOf(p, s) == if k < 16 then NibbleOffset(p, col, r, g, k) else ScaleOffset(p, col, r, g, k - 16)
  {
    Below(col, p.cols, r, p.R);
    DivModOf(col, p.R, r);
    hide Mul, Quot, Rem, SlotByte, NibbleOffset, ScaleOffset, Before, SlotAt;
    var s := SlotOf(Mul(col, p.R) + r, g, k);
    StepOfSlot(p, s);
  }

  /** One group: the 16-byte copy and the two-byte store of the rounded scale. */
  method PackGroup(data: seq<byte>, p: Planes, col: nat, r: nat, g: nat, packed: array<byte>, ghost before: seq<byte>)
    requires HoldsMatrix(data, Rows(p), p.G) && Reaches(p, packed.Length) && |before| == packed.Length
    requires col < p.cols && r < p.R && g < p.G && Before(p, 18, Mul(col, p.R) + r, g) + 18 <= Steps(p, 18)
    requires packed[..] == Apply(before, PackLog(data, p)[..Before(p, 18, Mul(col, p.R) + r, g)])
    modifies packed
    ensures packed[..] == Apply(before, PackLog(data, p)[..Before(p, 18, Mul(col, p.R) + r, g) + 18])
  {
    hide Mul, NibbleOffset, ScaleOffset, OffsetOf, RoundedScale, Apply, PackLog, HoldsMatrix, InLayout,
      Before, Rows, Steps;
    var row := Mul(col, p.R) + r;
    ghost var log, start := PackLog(data, p), Before(p, 18, row, g);
    assert row < Rows(p) by { PackStep(data, p, col, r, g, 0); }
    BlockInMatrix(data, Rows(p), p.G, row, g);
    var block := RowBase(p.G, row) + g * 18;
    for j := 0 to 16
      invariant packed[..] == Apply(before, log[..start + j])
    {
      PackStep(data, p, col, r, g, j);
      ApplyStep(before, log, start + j);
      packed[NibbleOffset(p, col, r, g, j)] := data[block + 2 + j];
    }
    var bits := RoundedScale(LoadU16(data[block], data[block + 1]));
    PackStep(data, p, col, r, g, 16);
    ApplyStep(before, log, start + 16);
    packed[ScaleOffset(p, col, r, g, 0)] := bits % 256;
    PackStep(data, p, col, r, g, 17);
    ApplyStep(before, log, start + 17);
    packed[ScaleOffset(p, col, r, g, 1)] := bits / 256;
  }

  /** `pack`, for any group size.  With zero columns the layout is checked for four, but the loops do nothing; otherwise
    its writes fall in their order, and make up the image when the groups of a row fill its bytes. */
  method Pack(data: seq<byte>, M: nat, K: nat, packed: array<byte>, numColumns: nat, groupSize: nat)
    returns (check: LayoutCheck)
    requires var check := ComputeLayout(M, K, numColumns, groupSize);
             check.Laid? && 0 < numColumns ==>
               HoldsMatrix(data, M, check.layout.groupsPerRow) && Reaches(PlanesOf(check.layout), packed.Length)
    modifies packed
    ensures check == ComputeLayout(M, K, numColumns, groupSize)
    ensures !check.Laid? || numColumns == 0 ==> packed[..] == old(packed[..])
    ensures check.Laid? && 0 < numColumns ==>
      var p := PlanesOf(check.layout);
      p.cols == numColumns && Rows(p) == M && packed[..] == Apply(old(packed[..]), PackLog(data, p)) &&
      (p.W == 16 * p.G ==>
         ImageBytes(p) <= packed.Length && packed[..] == Image(data, p) + old(packed[ImageBytes(p)..]))
  {
    check := ComputeLayout(M, K, numColumns, groupSize);
    if !check.Laid? || numColumns == 0 {
      return;
    }
    LayoutMeaning(M, K, numColumns, groupSize);
    var p := PlanesOf(check.layout);
    ghost var before := packed[..];
    PackColumns(data, p, packed);
    if p.W == 16 * p.G {
      ImageWritten(data, p, before);
    }
  }

  method PackColumns(data: seq<byte>, p: Planes, packed: array<byte>)
    requires HoldsMatrix(data, Rows(p), p.G) && Reaches(p, packed.Length)
    modifies packed
    ensures packed[..] == Apply(old(packed[..]), PackLog(data, p))
  {
    hide Mul, HoldsMatrix, Apply, PackLog, Reaches, Before;
    ghost var before, log := packed[..], PackLog(data, p);
    NothingApplied(before, log);
    MulNext(0, p.R);
    NextRow(p, 18, 0);
    for col := 0 to p.cols
      invariant Before(p, 18, Mul(col, p.R), 0) <= |log|
      invariant packed[..] == Apply(before, log[..Before(p, 18, Mul(col, p.R), 0)])
    {
      for r := 0 to p.R
        invariant Before(p, 18, Mul(col, p.R) + r, 0) <= |log|
        invariant packed[..] == Apply(before, log[..Before(p, 18, Mul(col, p.R) + r, 0)])
      {
        Below(col, p.cols, r, p.R);
        for g := 0 to p.G
          invariant Before(p, 18, Mul(col, p.R) + r, g) <= |log|
          invariant packed[..] == Apply(before, log[..Before(p, 18, Mul(col, p.R) + r, g)])
        {
          NextGroup(p, 18, Mul(col, p.R) + r, g);
          PackGroup(data, p, col, r, g, packed, before);
        }
        NextRow(p, 18, Mul(col, p.R) + r);
      }
      MulNext(col, p.R);
    }
    assert log[..|log|] == log;
  }

  // ---- what packing leaves ----

  /** Every slot holds its byte. */
  ghost predicate HoldsSlots(packed: seq<byte>, data: seq<byte>, p: Planes)
    requires HoldsMatrix(data, Rows(p), p.G)
  {
    Reaches(p, |packed|) && forall s :: InLayout(p, s) ==> packed[OffsetOf(p, s)] == SlotByte(data, p, s)
  }

  lemma SlotWritten(data: seq<byte>, p: Planes, mem: seq<byte>, s: Slot)
    requires HoldsMatrix(data, Rows(p), p.G) && 0 < p.R && 16 * p.G <= p.W && InLayout(p, s)
    ensures Writes(PackLog(data, p), OffsetOf(p, s)) == 1
    ensures OffsetOf(p, s) < |mem| ==> Apply(mem, PackLog(data, p))[OffsetOf(p, s)] == SlotByte(data, p, s)
  {
    hide OffsetOf, InLayout, HoldsMatrix, SlotByte, SlotAt, StepOf, Steps, Apply, Writes;
    var log, k := PackLog(data, p), StepOf(p, s);
    StepOfSlot(p, s);
    forall q | 0 <= q < |log| && q != k
      ensures log[q].at != log[k].at
    {
      SlotOfStep(p, q);
      LocateOffset(p, s);
      LocateOffset(p, SlotAt(p, q));
    }
    WrittenOnce(log, k);
    if log[k].at < |mem| {
      LastWrite(mem, log, k);
    }
  }

  lemma OthersUntouched(data: seq<byte>, p: Planes, mem: seq<byte>, i: nat)
    requires HoldsMatrix(data, Rows(p), p.G) && (p.R == 0 || !Taken(p, i))
    ensures Writes(PackLog(data, p), i) == 0 && (i < |mem| ==> Apply(mem, PackLog(data, p))[i] == mem[i])
  {
    hide OffsetOf, InLayout, HoldsMatrix, SlotByte, SlotAt, StepOf, Steps, Apply, Writes;
    var log := PackLog(data, p);
    forall q | 0 <= q < |log|
      ensures log[q].at != i
    {
      SlotOfStep(p, q);
    }
    Unwritten(mem, log, i);
  }

  /** Each byte of the image is written once, and nothing else is, exactly when the groups of a row fill its bytes. */
  lemma WrittenOnceIff(data: seq<byte>, p: Planes)
    requires HoldsMatrix(data, Rows(p), p.G) && Filled(p)
    ensures (forall i: nat :: Writes(PackLog(data, p), i) == if i < ImageBytes(p) then 1 else 0) <==> p.W == 16 * p.G
  {
    hide OffsetOf, InLayout, HoldsMatrix, Writes, PackLog, ImageBytes;
    if p.W == 16 * p.G {
      OntoIff(p);
      forall i: nat
        ensures Writes(PackLog(data, p), i) == if i < ImageBytes(p) then 1 else 0
      {
        if i < ImageBytes(p) {
          assert Taken(p, i);
          var s :| InLayout(p, s) && OffsetOf(p, s) == i;
          SlotWritten(data, p, [], s);
        } else {
          OthersUntouched(data, p, [], i);
        }
      }
    } else if p.W < 16 * p.G {
      var s, t := Overlap(p);
      SharedByte(data, p, s, t);
    } else {
      SpareByte(p);
      forall s | InLayout(p, s)
        ensures OffsetOf(p, s) != 16 * p.G < ImageBytes(p)
      {
        Gap(p, s);
      }
      OthersUntouched(data, p, [], 16 * p.G);
    }
  }

  lemma SpareByte(p: Planes)
    requires Filled(p) && 16 * p.G < p.W
    ensures 16 * p.G < ImageBytes(p)
  {
    Products(p);
  }

  lemma SharedByte(data: seq<byte>, p: Planes, s: Slot, t: Slot)
    requires HoldsMatrix(data, Rows(p), p.G) && 0 < p.R
    requires InLayout(p, s) && InLayout(p, t) && s != t && OffsetOf(p, s) == OffsetOf(p, t)
    ensures Writes(PackLog(data, p), OffsetOf(p, s)) >= 2
  {
    hide OffsetOf, InLayout, HoldsMatrix, SlotByte, SlotAt, StepOf, Steps, Writes;
    StepOfSlot(p, s);
    StepOfSlot(p, t);
    if StepOf(p, s) < StepOf(p, t) {
      WrittenTwice(PackLog(data, p), StepOf(p, s), StepOf(p, t));
    } else {
      WrittenTwice(PackLog(data, p), StepOf(p, t), StepOf(p, s));
    }
  }

  /** Byte `b` of block `g` of a row. */
  function BlockByte(G: nat, row: nat, g: nat, b: nat): nat { RowBase(G, row) + g * 18 + b }

  lemma BlockBytesDiffer(G: nat, row: nat, g: nat, b: nat, row': nat, g': nat, b': nat)
    requires g < G && b < 18 && g' < G && b' < 18 && BlockByte(G, row, g, b) == BlockByte(G, row', g', b')
    ensures row == row' && g == g' && b == b'
  {
    hide Mul, Quot, Rem;
    DivModOf(row, G * 18, g * 18 + b);
    DivModOf(row', G * 18, g' * 18 + b');
    assert g * 18 + b == g' * 18 + b';
  }

  lemma ZeroScale()
    ensures RoundedScale(0) == 0
  {
  }

  function Zeros(n: nat): (z: seq<byte>)
    ensures |z| == n && forall i :: 0 <= i < n ==> z[i] == 0
  {
    seq(n, _ => 0)
  }

  /** A matrix of zeros but for byte `b` of one block. */
  function Telling(p: Planes, row: nat, g: nat, b: nat): (data: seq<byte>)
    requires row < Rows(p) && g < p.G && b < 18
    ensures HoldsMatrix(data, Rows(p), p.G)
  {
    BlockInMatrix(Zeros(Mul(Rows(p), p.G * 18)), Rows(p), p.G, row, g);
    Zeros(Mul(Rows(p), p.G * 18))[BlockByte(p.G, row, g, b) := 1]
  }

  lemma TellingByte(p: Planes, row: nat, g: nat, b: nat, row': nat, g': nat, b': nat)
    requires row < Rows(p) && g < p.G && b < 18 && row' < Rows(p) && g' < p.G && b' < 18
    ensures BlockByte(p.G, row', g', b') < |Telling(p, row, g, b)|
    ensures Telling(p, row, g, b)[BlockByte(p.G, row', g', b')] ==
            if row == row' && g == g' && b == b' then 1 else 0
  {
    hide Mul, Rows;
    var zeros := Zeros(Mul(Rows(p), p.G * 18));
    BlockInMatrix(zeros, Rows(p), p.G, row, g);
    BlockInMatrix(zeros, Rows(p), p.G, row', g');
    if BlockByte(p.G, row, g, b) == BlockByte(p.G, row', g', b') {
      BlockBytesDiffer(p.G, row, g, b, row', g', b');
    }
  }

  /** It tells the slot of that byte from any other. */
  lemma TellingSlots(p: Planes, s: Slot, t: Slot)
    requires InLayout(p, s) && InLayout(p, t) && s != t && s.Nibbles?
    ensures var data := Telling(p, s.row, s.g, 2 + s.j); SlotByte(data, p, s) == 1 && SlotByte(data, p, t) == 0
  {
    hide Mul, RoundedScale, Telling, Rows, HoldsMatrix;
    var data := Telling(p, s.row, s.g, 2 + s.j);
    ZeroScale();
    SlotByteAt(data, p, s);
    TellingByte(p, s.row, s.g, 2 + s.j, s.row, s.g, 2 + s.j);
    SlotByteAt(data, p, t);
    match t
    case Nibbles(row, g, j) => TellingByte(p, s.row, s.g, 2 + s.j, row, g, 2 + j);
    case Scale(row, g, _) =>
      TellingByte(p, s.row, s.g, 2 + s.j, row, g, 0);
      TellingByte(p, s.row, s.g, 2 + s.j, row, g, 1);
  }

  lemma SlotByteAt(data: seq<byte>, p: Planes, s: Slot)
    requires HoldsMatrix(data, Rows(p), p.G) && InLayout(p, s)
    ensures RowBase(p.G, s.row) + s.g * 18 + 18 <= |data|
    ensures var block := RowBase(p.G, s.row) + s.g * 18;
            SlotByte(data, p, s) == match s
              case Nibbles(_, _, j) => data[block + 2 + j]
              case Scale(_, _, h) =>
                var bits := RoundedScale(LoadU16(data[block], data[block + 1]));
                if h == 0 then bits % 256 else bits / 256
  {
    hide Mul, RoundedScale, Rows;
    BlockInMatrix(data, Rows(p), p.G, s.row, s.g);
  }

  /** Packing keeps the bytes of every matrix exactly when a row's bytes hold its groups. */
  lemma LosslessIff(p: Planes, mem: seq<byte>)
    requires Filled(p) && Reaches(p, |mem|)
    ensures (forall data :: HoldsMatrix(data, Rows(p), p.G) ==> HoldsSlots(Apply(mem, PackLog(data, p)), data, p)) <==>
            16 * p.G <= p.W
  {
    hide OffsetOf, InLayout, HoldsMatrix, SlotByte, PackLog, Apply;
    if 16 * p.G <= p.W {
      forall data | HoldsMatrix(data, Rows(p), p.G)
        ensures HoldsSlots(Apply(mem, PackLog(data, p)), data, p)
      {
        SlotsHeld(data, p, mem);
      }
    } else {
      var s, t := Overlap(p);
      TellingSlots(p, s, t);
      assert s.row < Rows(p) && s.g < p.G && s.j < 16 by { InLayoutGroup(p, s); }
      assert HoldsMatrix(Telling(p, s.row, s.g, 2 + s.j), Rows(p), p.G);
    }
  }

  lemma SlotsHeld(data: seq<byte>, p: Planes, mem: seq<byte>)
    requires HoldsMatrix(data, Rows(p), p.G) && 16 * p.G <= p.W && Reaches(p, |mem|)
    ensures HoldsSlots(Apply(mem, PackLog(data, p)), data, p)
  {
    hide OffsetOf, HoldsMatrix, SlotByte, PackLog, Apply;
    forall s | InLayout(p, s)
      ensures Apply(mem, PackLog(data, p))[OffsetOf(p, s)] == SlotByte(data, p, s)
    {
      SlotWritten(data, p, mem, s);
    }
  }

  /** The image of a matrix whose rows are filled by their groups. */
  function Image(data: seq<byte>, p: Planes): (image: seq<byte>)
    requires HoldsMatrix(data, Rows(p), p.G) && p.W == 16 * p.G
    ensures |image| == ImageBytes(p)
  {
    seq(ImageBytes(p), i requires 0 <= i < ImageBytes(p) => ImageByte(data, p, i))
  }

  function ImageByte(data: seq<byte>, p: Planes, i: nat): byte
    requires HoldsMatrix(data, Rows(p), p.G) && p.W == 16 * p.G && i < ImageBytes(p)
  {
    NotEmpty(p);
    OffsetLocate(p, i);
    SlotByte(data, p, Locate(p, i))
  }

  lemma NotEmpty(p: Planes)
    requires p.W == 16 * p.G
    ensures 0 < ImageBytes(p) ==> Filled(p)
  {
  }

  /** Everything in front is the image, and what lies behind it stays. */
  lemma ImageWritten(data: seq<byte>, p: Planes, mem: seq<byte>)
    requires HoldsMatrix(data, Rows(p), p.G) && p.W == 16 * p.G && Reaches(p, |mem|)
    ensures ImageBytes(p) <= |mem| && Apply(mem, PackLog(data, p)) == Image(data, p) + mem[ImageBytes(p)..]
  {
    hide OffsetOf, InLayout, HoldsMatrix, SlotByte, PackLog, Apply, ImageBytes, Locate;
    NotEmpty(p);
    if 0 < ImageBytes(p) {
      OffsetLocate(p, ImageBytes(p) - 1);
    }
    var after := Apply(mem, PackLog(data, p));
    forall i | 0 <= i < |mem|
      ensures after[i] == if i < ImageBytes(p) then Image(data, p)[i] else mem[i]
    {
      if i < ImageBytes(p) {
        OffsetLocate(p, i);
        SlotWritten(data, p, mem, Locate(p, i));
      } else {
        BehindImage(p, i);
        OthersUntouched(data, p, mem, i);
      }
    }
  }

  lemma BehindImage(p: Planes, i: nat)
    requires 16 * p.G <= p.W && ImageBytes(p) <= i
    ensures p.R == 0 || !Taken(p, i)
  {
    if 0 < p.R {
      forall s | InLayout(p, s)
        ensures OffsetOf(p, s) != i
      {
        OffsetInside(p, s);
      }
    }
  }

  /** The image holds every slot, whatever follows it. */
  lemma ImageHolds(data: seq<byte>, p: Planes, rest: seq<byte>)
    requires HoldsMatrix(data, Rows(p), p.G) && p.W == 16 * p.G
    ensures HoldsSlots(Image(data, p) + rest, data, p)
  {
    hide OffsetOf, HoldsMatrix, SlotByte, ImageBytes, Locate;
    forall s | InLayout(p, s)
      ensures 0 < p.R && OffsetOf(p, s) < |Image(data, p)| && Image(data, p)[OffsetOf(p, s)] == SlotByte(data, p, s)
    {
      SlotRow(p, s);
      OffsetInside(p, s);
      LocateOffset(p, s);
    }
  }

  lemma SlotRow(p: Planes, s: Slot)
    requires InLayout(p, s)
    ensures 0 < p.R
  {
  }

  // ---- reading the planes ----

  /** The scale pattern `dequantize_packed` loads for a group. */
  function PackedScale(packed: seq<byte>, p: Planes, row: nat, g: nat): u16
    requires 0 < p.R && OffsetOf(p, Scale(row, g, 0)) < |packed| && OffsetOf(p, Scale(row, g, 1)) < |packed|
  {
    LoadU16(packed[OffsetOf(p, Scale(row, g, 0))], packed[OffsetOf(p, Scale(row, g, 1))])
  }

  lemma GroupReached(p: Planes, length: nat, row: nat, g: nat)
    requires Reaches(p, length) && row < Rows(p) && g < p.G
    ensures 0 < p.R && OffsetOf(p, Scale(row, g, 0)) < length && OffsetOf(p, Scale(row, g, 1)) < length
    ensures forall j :: 0 <= j < 16 ==> OffsetOf(p, Nibbles(row, g, j)) < length
  {
    hide OffsetOf;
    SlotRow(p, Scale(row, g, 0));
    assert InLayout(p, Scale(row, g, 0)) && InLayout(p, Scale(row, g, 1));
    forall j | 0 <= j < 16
      ensures OffsetOf(p, Nibbles(row, g, j)) < length
    {
      assert InLayout(p, Nibbles(row, g, j));
    }
  }

  /** Value `k` of group `g` of a row, read from the planes. */
  function PackedValue<F>(ops: FloatOps<F>, packed: seq<byte>, p: Planes, row: nat, g: nat, k: nat): F
    requires Reaches(p, |packed|) && row < Rows(p) && g < p.G && k < 32
  {
    GroupReached(p, |packed|, row, g);
    ops.mul(ops.ofInt(NibbleOf(packed[OffsetOf(p, Nibbles(row, g, LaneOf(k)))], k)),
            ops.ofBf16(PackedScale(packed, p, row, g)))
  }

  /** The values of a row, 32 for each of its groups. */
  function PackedRow<F>(ops: FloatOps<F>, packed: seq<byte>, p: Planes, row: nat): (w: seq<F>)
    requires Reaches(p, |packed|) && row < Rows(p)
    ensures |w| == p.G * 32
  {
    seq(p.G * 32, i requires 0 <= i < p.G * 32 => PackedValue(ops, packed, p, row, i / 32, i % 32))
  }

  function OutputOffset(K: nat, row: nat, g: nat, k: nat): nat { Mul(row, K) + g * 32 + k }

  /** The values of a group are stored in pairs: `j` and `j + 16`. */
  function LaneOfWrite(q: nat): nat { q / 2 + q % 2 * 16 }

  function WriteOfLane(k: nat): nat { if k < 16 then 2 * k else 2 * k - 31 }

  lemma Lanes(k: nat)
    requires k < 32
    ensures WriteOfLane(k) < 32 && LaneOfWrite(WriteOfLane(k)) == k
    ensures LaneOfWrite(k) < 32 && WriteOfLane(LaneOfWrite(k)) == k
  {
  }

  function OutputWrite<F>(ops: FloatOps<F>, packed: seq<byte>, p: Planes, K: nat, n: nat): Write<F>
    requires Reaches(p, |packed|) && n < Steps(p, 32)
  {
    PlaceOfStep(p, 32, n);
    var (row, g, q) := PlaceOf(p, 32, n);
    Write(OutputOffset(K, row, g, LaneOfWrite(q)), PackedValue(ops, packed, p, row, g, LaneOfWrite(q)))
  }

  /** What `dequantize_packed` writes, in the order of its loops. */
  function OutputLog<F>(ops: FloatOps<F>, packed: seq<byte>, p: Planes, K: nat): (log: seq<Write<F>>)
    requires Reaches(p, |packed|)
    ensures |log| == Steps(p, 32)
  {
    seq(Steps(p, 32), n requires 0 <= n < Steps(p, 32) => OutputWrite(ops, packed, p, K, n))
  }

  /** All values lie below `length`. */
  ghost predicate OutputReaches(p: Planes, K: nat, length: nat)
  {
    forall row, g, k :: 0 <= row < Rows(p) && 0 <= g < p.G && 0 <= k < 32 ==> OutputOffset(K, row, g, k) < length
  }

  lemma OutputStep<F>(ops: FloatOps<F>, packed: seq<byte>, p: Planes, K: nat, row: nat, g: nat, k: nat)
    requires Reaches(p, |packed|) && row < Rows(p) && g < p.G && k < 32
    ensures var n := Before(p, 32, row, g) + WriteOfLane(k);
            n < Steps(p, 32) &&
            OutputLog(ops, packed, p, K)[n] == Write(OutputOffset(K, row, g, k), PackedValue(ops, packed, p, row, g, k))
  {
    hide Mul, PackedValue, OutputOffset, Before, PlaceOf, Rows, Steps, Reaches, LaneOfWrite, WriteOfLane;
    Lanes(k);
    StepOfPlace(p, 32, row, g, WriteOfLane(k));
  }

  /** One group of `dequantize_packed`. */
  method DequantizeGroup<F>(ops: FloatOps<F>, packed: seq<byte>, p: Planes, K: nat, col: nat, r: nat, g: nat,
                            output: array<F>, ghost before: seq<F>)
    requires Reaches(p, |packed|) && OutputReaches(p, K, output.Length) && |before| == output.Length
    requires col < p.cols && r < p.R && g < p.G && Before(p, 32, Mul(col, p.R) + r, g) + 32 <= Steps(p, 32)
    requires output[..] == Apply(before, OutputLog(ops, packed, p, K)[..Before(p, 32, Mul(col, p.R) + r, g)])
    modifies output
    ensures output[..] == Apply(before, OutputLog(ops, packed, p, K)[..Before(p, 32, Mul(col, p.R) + r, g) + 32])
  {
    hide Mul, NibbleOffset, ScaleOffset, Apply, OutputLog, Reaches, Before, Rows, Steps, OutputReaches, PackedValue,
      OutputOffset;
    var row := Mul(col, p.R) + r;
    GroupAddresses(p, |packed|, col, r, g);
    ghost var log, start := OutputLog(ops, packed, p, K), Before(p, 32, row, g);
    var d := ops.ofBf16(LoadU16(packed[ScaleOffset(p, col, r, g, 0)], packed[ScaleOffset(p, col, r, g, 1)]));
    for j := 0 to 16
      invariant output[..] == Apply(before, log[..start + 2 * j])
    {
      var b := packed[NibbleOffset(p, col, r, g, j)];
      var v0 := (b as int) % 16 - 8;
      var v1 := (b as int) / 16 - 8;
      ValuePair(ops, packed, p, col, r, g, j);
      OutputInside(p, K, output.Length, row, g, j);
      OutputStep(ops, packed, p, K, row, g, j);
      ApplyStep(before, log, start + 2 * j);
      output[OutputOffset(K, row, g, j)] := ops.mul(ops.ofInt(v0), d);
      OutputInside(p, K, output.Length, row, g, j + 16);
      OutputStep(ops, packed, p, K, row, g, j + 16);
      ApplyStep(before, log, start + 2 * j + 1);
      output[OutputOffset(K, row, g, j + 16)] := ops.mul(ops.ofInt(v1), d);
    }
  }

  lemma OutputInside(p: Planes, K: nat, length: nat, row: nat, g: nat, k: nat)
    requires OutputReaches(p, K, length) && row < Rows(p) && g < p.G && k < 32
    ensures OutputOffset(K, row, g, k) < length
  {
  }

  lemma GroupAddresses(p: Planes, length: nat, col: nat, r: nat, g: nat)
    requires Reaches(p, length) && col < p.cols && r < p.R && g < p.G
    ensures Mul(col, p.R) + r < Rows(p)
    ensures ScaleOffset(p, col, r, g, 0) == OffsetOf(p, Scale(Mul(col, p.R) + r, g, 0)) < length
    ensures ScaleOffset(p, col, r, g, 1) == OffsetOf(p, Scale(Mul(col, p.R) + r, g, 1)) < length
    ensures forall j :: 0 <= j < 16 ==>
      NibbleOffset(p, col, r, g, j) == OffsetOf(p, Nibbles(Mul(col, p.R) + r, g, j)) < length
  {
    Below(col, p.cols, r, p.R);
    DivModOf(col, p.R, r);
    GroupReached(p, length, Mul(col, p.R) + r, g);
  }

  lemma ValuePair<F>(ops: FloatOps<F>, packed: seq<byte>, p: Planes, col: nat, r: nat, g: nat, j: nat)
    requires Reaches(p, |packed|) && col < p.cols && r < p.R && g < p.G && j < 16
    ensures var row := Mul(col, p.R) + r;
            row < Rows(p) && NibbleOffset(p, col, r, g, j) < |packed| &&
            ScaleOffset(p, col, r, g, 0) < |packed| && ScaleOffset(p, col, r, g, 1) < |packed| &&
            var b := packed[NibbleOffset(p, col, r, g, j)] as int;
            var d := ops.ofBf16(LoadU16(packed[ScaleOffset(p, col, r, g, 0)], packed[ScaleOffset(p, col, r, g, 1)]));
            PackedValue(ops, packed, p, row, g, j) == ops.mul(ops.ofInt(b % 16 - 8), d) &&
            PackedValue(ops, packed, p, row, g, j + 16) == ops.mul(ops.ofInt(b / 16 - 8), d)
  {
    hide Mul, OffsetOf, Rows, Reaches, ScaleOffset, NibbleOffset;
    GroupAddresses(p, |packed|, col, r, g);
  }

  /** `dequantize_packed`, for any group size. */
  method DequantizePacked<F>(ops: FloatOps<F>, packed: seq<byte>, M: nat, K: nat, output: array<F>,
                             numColumns: nat, groupSize: nat) returns (check: LayoutCheck)
    requires var check := ComputeLayout(M, K, numColumns, groupSize);
             check.Laid? && 0 < numColumns ==>
               Reaches(PlanesOf(check.layout), |packed|) && OutputReaches(PlanesOf(check.layout), K, output.Length)
    modifies output
    ensures check == ComputeLayout(M, K, numColumns, groupSize)
    ensures !check.Laid? || numColumns == 0 ==> output[..] == old(output[..])
    ensures check.Laid? && 0 < numColumns ==>
      var p := PlanesOf(check.layout);
      p.cols == numColumns && Rows(p) == M && output[..] == Apply(old(output[..]), OutputLog(ops, packed, p, K))
  {
    check := ComputeLayout(M, K, numColumns, groupSize);
    if !check.Laid? || numColumns == 0 {
      return;
    }
    LayoutMeaning(M, K, numColumns, groupSize);
    DequantizeColumns(ops, packed, PlanesOf(check.layout), K, output);
  }

  method DequantizeColumns<F>(ops: FloatOps<F>, packed: seq<byte>, p: Planes, K: nat, output: array<F>)
    requires Reaches(p, |packed|) && OutputReaches(p, K, output.Length)
    modifies output
    ensures output[..] == Apply(old(output[..]), OutputLog(ops, packed, p, K))
  {
    hide Mul, Apply, OutputLog, Reaches, OutputReaches, Before;
    ghost var before, log := output[..], OutputLog(ops, packed, p, K);
    NothingApplied(before, log);
    MulNext(0, p.R);
    NextRow(p, 32, 0);
    for col := 0 to p.cols
      invariant Before(p, 32, Mul(col, p.R), 0) <= |log|
      invariant output[..] == Apply(before, log[..Before(p, 32, Mul(col, p.R), 0)])
    {
      for r := 0 to p.R
        invariant Before(p, 32, Mul(col, p.R) + r, 0) <= |log|
        invariant output[..] == Apply(before, log[..Before(p, 32, Mul(col, p.R) + r, 0)])
      {
        Below(col, p.cols, r, p.R);
        for g := 0 to p.G
          invariant Before(p, 32, Mul(col, p.R) + r, g) <= |log|
          invariant output[..] == Apply(before, log[..Before(p, 32, Mul(col, p.R) + r, g)])
        {
          NextGroup(p, 32, Mul(col, p.R) + r, g);
          DequantizeGroup(ops, packed, p, K, col, r, g, output, before);
        }
        NextRow(p, 32, Mul(col, p.R) + r);
      }
      MulNext(col, p.R);
    }
    assert log[..|log|] == log;
  }

  /** Whatever the group size, column `c` of a row ends as the row's own value of that number, although earlier rows may
    have written there, and keeps its old value when the row's groups do not reach it. */
  lemma OutputMeaning<F>(ops: FloatOps<F>, packed: seq<byte>, p: Planes, K: nat, mem: seq<F>, row: nat, c: nat)
    requires Reaches(p, |packed|) && row < Rows(p) && c < K && Mul(row, K) + c < |mem|
    ensures Apply(mem, OutputLog(ops, packed, p, K))[Mul(row, K) + c] ==
            if c < p.G * 32 then PackedRow(ops, packed, p, row)[c] else mem[Mul(row, K) + c]
  {
    hide Mul, Apply, PackedValue, Before, PlaceOf, Rows, Steps, Reaches, LaneOfWrite, WriteOfLane;
    var log := OutputLog(ops, packed, p, K);
    forall n | 0 <= n < |log| && log[n].at == Mul(row, K) + c
      ensures c < p.G * 32 && n <= Before(p, 32, row, c / 32) + WriteOfLane(c % 32)
    {
      WriterOf(ops, packed, p, K, row, c, n);
    }
    if c < p.G * 32 {
      OutputStep(ops, packed, p, K, row, c / 32, c % 32);
      assert OutputOffset(K, row, c / 32, c % 32) == Mul(row, K) + c;
      LastWrite(mem, log, Before(p, 32, row, c / 32) + WriteOfLane(c % 32));
    } else {
      Unwritten(mem, log, Mul(row, K) + c);
    }
  }

  /** Who writes column `c` of a row: its own group, or a row before it. */
  lemma WriterOf<F>(ops: FloatOps<F>, packed: seq<byte>, p: Planes, K: nat, row: nat, c: nat, n: nat)
    requires Reaches(p, |packed|) && row < Rows(p) && c < K && n < Steps(p, 32)
    requires OutputLog(ops, packed, p, K)[n].at == Mul(row, K) + c
    ensures c < p.G * 32 && n <= Before(p, 32, row, c / 32) + WriteOfLane(c % 32)
  {
    hide Mul, PackedValue, Rows, Reaches, Steps, PlaceOf, LaneOfWrite, WriteOfLane;
    PlaceOfStep(p, 32, n);
    var (row', g', q') := PlaceOf(p, 32, n);
    var k' := LaneOfWrite(q');
    Lanes(q');
    var c' := g' * 32 + k';
    assert Mul(row', K) + c' == Mul(row, K) + c;
    if row' == row {
      BlockIndex(g', k');
    } else if row' > row {
      RowsApart(row, row', K);
    } else {
      RowsApart(row', row, K);
      EarlierRow(p, row, c / 32, row', g', q');
    }
  }

  lemma RowsApart(row: nat, row': nat, K: nat)
    requires row < row'
    ensures Mul(row', K) >= Mul(row, K) + K
  {
    MulMono(row + 1, row', K);
    assert (row + 1) * K == row * K + K;
  }

  lemma EarlierRow(p: Planes, row: nat, g: nat, row': nat, g': nat, q': nat)
    requires row' < row && g' < p.G && q' < 32
    ensures Before(p, 32, row', g') + q' < Before(p, 32, row, g)
  {
    hide Mul;
    RowsApart(row', row, p.G);
    RowsApart(Mul(row', p.G) + g', Mul(row, p.G) + g, 32);
  }

  // ---- packing then reading back ----

  /** The same arithmetic with every scale first rounded to BF16. */
  function Rounded<F>(ops: FloatOps<F>): FloatOps<F>
  {
    ops.(ofHalf := (h: u16) => ops.ofBf16(RoundedScale(h)))
  }

  lemma LoadStored(bits: u16)
    ensures LoadU16(bits % 256, bits / 256) == bits
  {
  }

  lemma RowHeld(data: seq<byte>, rows: nat, G: nat, row: nat)
    requires HoldsMatrix(data, rows, G) && row < rows
    ensures HoldsRow(data, RowBase(G, row), Width(G))
  {
    RowsApart(row, rows, G * 18);
  }

  /** Value `k` of group `g`, packed and read back. */
  lemma PackedElement<F>(ops: FloatOps<F>, data: seq<byte>, packed: seq<byte>, p: Planes, row: nat, g: nat, k: nat)
    requires HoldsMatrix(data, Rows(p), p.G) && HoldsSlots(packed, data, p) && row < Rows(p) && g < p.G && k < 32
    requires HoldsRow(data, RowBase(p.G, row), Width(p.G))
    ensures PackedValue(ops, packed, p, row, g, k) ==
            DequantizedRow(Rounded(ops), data, RowBase(p.G, row), Width(p.G))[g * 32 + k]
  {
    hide Mul, OffsetOf, RoundedScale, HoldsMatrix, HoldsRow, RowBase, DequantizedRow, Rows, Reaches;
    GroupReached(p, |packed|, row, g);
    SlotByteAt(data, p, Nibbles(row, g, LaneOf(k)));
    SlotByteAt(data, p, Scale(row, g, 0));
    SlotByteAt(data, p, Scale(row, g, 1));
    LoadStored(RoundedScale(ScaleBits(data, RowBase(p.G, row), g)));
    RowAt(Rounded(ops), data, RowBase(p.G, row), Width(p.G), g, k);
  }

  /** Reading a row of planes that hold a matrix gives the dequantized row of the original blocks with only the scale
    replaced by its BF16 rounding, whatever the number of columns and the group size and whatever else is there. */
  lemma PackThenDequantize<F>(ops: FloatOps<F>, data: seq<byte>, packed: seq<byte>, p: Planes, row: nat)
    requires HoldsMatrix(data, Rows(p), p.G) && HoldsSlots(packed, data, p) && row < Rows(p)
    ensures HoldsRow(data, RowBase(p.G, row), Width(p.G))
    ensures PackedRow(ops, packed, p, row) == DequantizedRow(Rounded(ops), data, RowBase(p.G, row), Width(p.G))
  {
    hide Mul, HoldsMatrix, HoldsRow, RowBase, DequantizedRow, PackedValue, Rows, Reaches;
    RowHeld(data, Rows(p), p.G, row);
    var want := DequantizedRow(Rounded(ops), data, RowBase(p.G, row), Width(p.G));
    forall i | 0 <= i < p.G * 32
      ensures PackedRow(ops, packed, p, row)[i] == want[i]
    {
      PackedElement(ops, data, packed, p, row, i / 32, i % 32);
      assert i / 32 * 32 + i % 32 == i;
    }
  }

  /** Planes without gaps. */
  function Dense(cols: nat, R: nat, G: nat): Planes { Planes(cols, R, G, 16 * G) }

  /** The row and the matrix it lies in fit together. */
  predicate RowOfMatrix(data: seq<byte>, cols: nat, R: nat, G: nat, row: nat)
  {
    HoldsMatrix(data, Mul(cols, R), G) && row < Mul(cols, R)
  }

  /** A row of the image as `dequantize_packed` reads it; `rest` is whatever follows the image. */
  function ReadBack<F>(ops: FloatOps<F>, data: seq<byte>, cols: nat, R: nat, G: nat, row: nat, rest: seq<byte>)
    : (w: seq<F>)
    requires RowOfMatrix(data, cols, R, G, row)
    ensures |w| == G * 32
  {
    var p := Dense(cols, R, G);
    ImageHolds(data, p, rest);
    PackedRow(ops, Image(data, p) + rest, p, row)
  }

  lemma ImageReadBack<F>(ops: FloatOps<F>, data: seq<byte>, cols: nat, R: nat, G: nat, row: nat, rest: seq<byte>)
    requires RowOfMatrix(data, cols, R, G, row)
    ensures HoldsRow(data, RowBase(G, row), Width(G))
    ensures ReadBack(ops, data, cols, R, G, row, rest) == DequantizedRow(Rounded(ops), data, RowBase(G, row), Width(G))
  {
    var p := Dense(cols, R, G);
    ImageHolds(data, p, rest);
    PackThenDequantize(ops, data, Image(data, p) + rest, p, row);
  }

  /** Row `row` of `M` times `K` values: its groups as they dequantize with rounded scales, then columns not written. */
  ghost predicate RowRestored<F>(ops: FloatOps<F>, data: seq<byte>, G: nat, K: nat, row: nat, w: seq<F>)
  {
    HoldsRow(data, RowBase(G, row), Width(G)) && Width(G) <= K && Mul(row, K) + K <= |w| &&
    w[Mul(row, K)..Mul(row, K) + K] ==
    DequantizedRow(Rounded(ops), data, RowBase(G, row), Width(G)) + seq(K - Width(G), _ => ops.zero)
  }

  /** The whole matrix through `pack` and `dequantize_packed` with groups of 32 values or more: the values of each row's
    groups come back as its dequantized self with only the scales rounded, and the rest of the row is not written. */
  method PackAndReadBack<F>(ops: FloatOps<F>, data: seq<byte>, M: nat, K: nat, numColumns: nat, groupSize: nat)
    returns (output: array<F>)
    requires 0 < numColumns && K % GroupOr32(groupSize) == 0 && M % numColumns == 0
    requires 32 <= GroupOr32(groupSize) || K == 0
    requires HoldsMatrix(data, M, K / GroupOr32(groupSize))
    requires ImageBytes(PlanesOf(ComputeLayout(M, K, numColumns, groupSize).layout)) < U64_LIMIT
    ensures output.Length == Mul(M, K)
    ensures forall row :: 0 <= row < M ==> RowRestored(ops, data, K / GroupOr32(groupSize), K, row, output[..])
  {
    hide Mul, Rows, ImageBytes, HoldsMatrix, RowBase, ComputeLayout, PackLog, OutputLog, Apply, Reaches, OutputReaches,
      RowRestored;
    LayoutMeaning(M, K, numColumns, groupSize);
    var layout := ComputeLayout(M, K, numColumns, groupSize).layout;
    ghost var p := PlanesOf(layout);
    GroupsIn(M, K, numColumns, groupSize);
    var packed := new byte[layout.totalPackedBytes](_ => 0);
    output := new F[Mul(M, K)](_ => ops.zero);
    ghost var mem, zeros := packed[..], output[..];
    Roomy(p, K, packed.Length, output.Length);
    var check := Pack(data, M, K, packed, numColumns, groupSize);
    SlotsHeld(data, p, mem);
    var again := DequantizePacked(ops, packed[..], M, K, output, numColumns, groupSize);
    forall row | 0 <= row < M
      ensures RowRestored(ops, data, p.G, K, row, output[..])
    {
      RowRead(ops, data, packed[..], p, K, zeros, row);
    }
  }

  lemma GroupsIn(M: nat, K: nat, numColumns: nat, groupSize: nat)
    requires ComputeLayout(M, K, numColumns, groupSize).Laid?
    ensures ComputeLayout(M, K, numColumns, groupSize).layout.groupsPerRow == K / GroupOr32(groupSize)
  {
  }

  /** Buffers of the sizes the layout gives hold all that the loops touch when a row's bytes hold its groups. */
  lemma Roomy(p: Planes, K: nat, length: nat, outputs: nat)
    requires 16 * p.G <= p.W == K / 2 && ImageBytes(p) <= length && Mul(Rows(p), K) <= outputs
    ensures Reaches(p, length) && OutputReaches(p, K, outputs)
  {
    hide Mul, OffsetOf, ImageBytes, Rows;
    forall s | InLayout(p, s)
      ensures 0 < p.R ==> OffsetOf(p, s) < length
    {
      if 0 < p.R {
        OffsetInside(p, s);
      }
    }
    forall row, g, k | 0 <= row < Rows(p) && 0 <= g < p.G && 0 <= k < 32
      ensures OutputOffset(K, row, g, k) < outputs
    {
      RowsApart(row, Rows(p), K);
    }
  }

  lemma RowRead<F>(ops: FloatOps<F>, data: seq<byte>, packed: seq<byte>, p: Planes, K: nat, zeros: seq<F>, row: nat)
    requires HoldsMatrix(data, Rows(p), p.G) && HoldsSlots(packed, data, p)
    requires row < Rows(p) && p.G * 32 <= K && Mul(Rows(p), K) == |zeros|
    requires forall i :: 0 <= i < |zeros| ==> zeros[i] == ops.zero
    ensures RowRestored(ops, data, p.G, K, row, Apply(zeros, OutputLog(ops, packed, p, K)))
  {
    hide Mul, Rows, OutputLog, Apply, PackedRow, HoldsMatrix, HoldsRow, RowBase, DequantizedRow, Reaches,
      OffsetOf, SlotByte;
    PackThenDequantize(ops, data, packed, p, row);
    RowsApart(row, Rows(p), K);
    RowWritten(ops, packed, p, K, zeros, row);
  }

  lemma RowWritten<F>(ops: FloatOps<F>, packed: seq<byte>, p: Planes, K: nat, zeros: seq<F>, row: nat)
    requires Reaches(p, |packed|) && row < Rows(p) && p.G * 32 <= K && Mul(row, K) + K <= |zeros|
    requires forall i :: 0 <= i < |zeros| ==> zeros[i] == ops.zero
    ensures Apply(zeros, OutputLog(ops, packed, p, K))[Mul(row, K)..Mul(row, K) + K] ==
            PackedRow(ops, packed, p, row) + seq(K - p.G * 32, _ => ops.zero)
  {
    hide Mul, Rows, OutputLog, Apply, Reaches, PackedRow;
    var got := Apply(zeros, OutputLog(ops, packed, p, K))[Mul(row, K)..Mul(row, K) + K];
    var want := PackedRow(ops, packed, p, row) + seq(K - p.G * 32, _ => ops.zero);
    forall c | 0 <= c < K
      ensures got[c] == want[c]
    {
      OutputMeaning(ops, packed, p, K, zeros, row, c);
    }
  }
}
