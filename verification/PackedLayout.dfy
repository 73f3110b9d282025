/** Where the prepacker puts things: per AIE column first all nibbles of its rows, then all BF16 scales. */
module PackedLayout {

  import opened NamedArithmetic

  /** `cols` columns of `R` rows of `G` groups each.  A row has `W` bytes of the nibble plane, of which its groups
    use 16 each, and two bytes a group of the scale plane. */
  datatype Planes = Planes(cols: nat, R: nat, G: nat, W: nat)

  /** What one packed byte holds: byte `j` of the nibbles of a group, or byte `h` of its scale. */
  datatype Slot = Nibbles(row: nat, g: nat, j: nat) | Scale(row: nat, g: nat, h: nat)

  function Rows(p: Planes): nat { Mul(p.cols, p.R) }

  function NibblePlane(p: Planes): nat { Mul(p.R, p.W) }

  function ColumnBytes(p: Planes): (n: nat)
    ensures 0 < p.R && 0 < p.G ==> 0 < n
  {
    Positive(p.R, p.G * 2);
    NibblePlane(p) + Mul(p.R, p.G * 2)
  }

  function ImageBytes(p: Planes): nat { Mul(p.cols, ColumnBytes(p)) }

  /** There are groups to pack. */
  predicate Filled(p: Planes) { 0 < p.cols && 0 < p.R && 0 < p.G }

  /** The source's pointer arithmetic for row `r` of column `col`. */
  function NibbleOffset(p: Planes, col: nat, r: nat, g: nat, j: nat): nat
  {
    Mul(col, ColumnBytes(p)) + Mul(r, p.W) + g * 16 + j
  }

  function ScaleOffset(p: Planes, col: nat, r: nat, g: nat, h: nat): nat
  {
    Mul(col, ColumnBytes(p)) + NibblePlane(p) + (Mul(r, p.G) + g) * 2 + h
  }

  predicate InLayout(p: Planes, s: Slot)
  {
    s.row < Rows(p) && s.g < p.G && match s case Nibbles(_, _, j) => j < 16 case Scale(_, _, h) => h < 2
  }

  function OffsetOf(p: Planes, s: Slot): nat
    requires 0 < p.R
  {
    match s
    case Nibbles(row, g, j) => NibbleOffset(p, Quot(row, p.R), Rem(row, p.R), g, j)
    case Scale(row, g, h) => ScaleOffset(p, Quot(row, p.R), Rem(row, p.R), g, h)
  }

  /** The slot that lives at byte `i`; in the part of a row that its groups leave free, one of a group too many. */
  function Locate(p: Planes, i: nat): Slot
    requires 0 < p.R && 0 < p.G && 0 < p.W
  {
    var col, rem := Quot(i, ColumnBytes(p)), Rem(i, ColumnBytes(p));
    if rem < NibblePlane(p) then LocateInNibbles(p, col, rem) else LocateInScales(p, col, rem - NibblePlane(p))
  }

  function LocateInNibbles(p: Planes, col: nat, rem: nat): Slot
    requires 0 < p.W
  {
    var q := Rem(rem, p.W);
    Nibbles(Mul(col, p.R) + Quot(rem, p.W), Quot(q, 16), Rem(q, 16))
  }

  function LocateInScales(p: Planes, col: nat, q: nat): Slot
    requires 0 < p.G
  {
    var u := Quot(q, 2);
    Scale(Mul(col, p.R) + Quot(u, p.G), Rem(u, p.G), Rem(q, 2))
  }

  /** The address of every slot: column by column, the nibble plane in front of the scale plane, row by row. */
  lemma SlotAddress(p: Planes, col: nat, r: nat, g: nat, b: nat)
    requires r < p.R
    ensures OffsetOf(p, Nibbles(col * p.R + r, g, b)) == col * (p.R * p.W + p.R * (2 * p.G)) + r * p.W + 16 * g + b
    ensures OffsetOf(p, Scale(col * p.R + r, g, b)) ==
            col * (p.R * p.W + p.R * (2 * p.G)) + p.R * p.W + 2 * (r * p.G + g) + b
  {
    DivModOf(col, p.R, r);
    assert Mul(col, p.R) + r == col * p.R + r;
    assert ColumnBytes(p) == p.R * p.W + p.R * (2 * p.G);
  }

  lemma NibbleInside(p: Planes, r: nat, g: nat, j: nat)
    requires r < p.R && g < p.G && j < 16 && 16 * p.G <= p.W
    ensures Mul(r, p.W) + g * 16 + j < NibblePlane(p) <= ColumnBytes(p)
  {
    hide Mul;
    Below(r, p.R, g * 16 + j, p.W);
  }

  lemma ScaleInside(p: Planes, r: nat, g: nat, h: nat)
    requires r < p.R && g < p.G && h < 2
    ensures NibblePlane(p) + (Mul(r, p.G) + g) * 2 + h < ColumnBytes(p)
  {
    hide Mul;
    Below(r, p.R, g, p.G);
    Doubled(p.R, p.G);
  }

  /** The byte written for a slot is the byte the slot is located at. */
  lemma LocateNibbles(p: Planes, col: nat, r: nat, g: nat, j: nat)
    requires r < p.R && g < p.G && j < 16 && 16 * p.G <= p.W
    ensures Locate(p, NibbleOffset(p, col, r, g, j)) == Nibbles(Mul(col, p.R) + r, g, j)
  {
    NibbleInside(p, r, g, j);
    MulBy(g, 16);
    hide Mul, Quot, Rem, ColumnBytes, NibblePlane;
    DivModOf(col, ColumnBytes(p), Mul(r, p.W) + g * 16 + j);
    DivModOf(r, p.W, g * 16 + j);
    DivModOf(g, 16, j);
  }

  lemma LocateScale(p: Planes, col: nat, r: nat, g: nat, h: nat)
    requires r < p.R && g < p.G && h < 2 && 0 < p.W
    ensures Locate(p, ScaleOffset(p, col, r, g, h)) == Scale(Mul(col, p.R) + r, g, h)
  {
    ScaleInside(p, r, g, h);
    var u := Mul(r, p.G) + g;
    MulBy(u, 2);
    hide Mul, Quot, Rem, ColumnBytes, NibblePlane;
    DivModOf(col, ColumnBytes(p), NibblePlane(p) + u * 2 + h);
    DivModOf(u, 2, h);
    DivModOf(r, p.G, g);
  }

  /** When the groups of a row fit, every slot has its own byte: locating after placing gives the slot back. */
  lemma LocateOffset(p: Planes, s: Slot)
    requires 0 < p.R && InLayout(p, s) && 16 * p.G <= p.W
    ensures Locate(p, OffsetOf(p, s)) == s
  {
    hide Mul, Quot, Rem, Locate;
    Quotient(s.row, p.R, p.cols);
    match s
    case Nibbles(row, g, j) => LocateNibbles(p, Quot(row, p.R), Rem(row, p.R), g, j);
    case Scale(row, g, h) => LocateScale(p, Quot(row, p.R), Rem(row, p.R), g, h);
  }

  /** And then a slot is placed inside the image. */
  lemma OffsetInside(p: Planes, s: Slot)
    requires 0 < p.R && InLayout(p, s) && 16 * p.G <= p.W
    ensures OffsetOf(p, s) < ImageBytes(p)
  {
    hide Mul, Quot, Rem, ColumnBytes, NibblePlane;
    Quotient(s.row, p.R, p.cols);
    var col, r := Quot(s.row, p.R), Rem(s.row, p.R);
    match s
    case Nibbles(_, g, j) =>
      NibbleInside(p, r, g, j);
      Below(col, p.cols, Mul(r, p.W) + g * 16 + j, ColumnBytes(p));
    case Scale(_, g, h) =>
      ScaleInside(p, r, g, h);
      Below(col, p.cols, NibblePlane(p) + (Mul(r, p.G) + g) * 2 + h, ColumnBytes(p));
  }

  /** When the groups of a row fill its bytes, every byte of the image belongs to a slot, placed exactly there. */
  lemma OffsetLocate(p: Planes, i: nat)
    requires 0 < p.R && 0 < p.G && p.W == 16 * p.G && i < ImageBytes(p)
    ensures InLayout(p, Locate(p, i)) && OffsetOf(p, Locate(p, i)) == i
  {
    hide Mul, Quot, Rem, ColumnBytes, NibblePlane, OffsetOf, LocateInNibbles, LocateInScales;
    var col, rem := Quot(i, ColumnBytes(p)), Rem(i, ColumnBytes(p));
    Quotient(i, ColumnBytes(p), p.cols);
    if rem < NibblePlane(p) {
      NibblesFrom(p, col, rem);
    } else {
      ScalesFrom(p, col, rem - NibblePlane(p));
    }
  }

  lemma NibblesFrom(p: Planes, col: nat, rem: nat)
    requires 0 < p.R && 0 < p.G && p.W == 16 * p.G && col < p.cols && rem < NibblePlane(p)
    ensures var s := LocateInNibbles(p, col, rem);
            InLayout(p, s) && OffsetOf(p, s) == Mul(col, ColumnBytes(p)) + rem
  {
    MulBy(p.G, 16);
    var q := Rem(rem, p.W);
    MulBy(Quot(q, 16), 16);
    hide Mul, Quot, Rem, ColumnBytes;
    Quotient(rem, p.W, p.R);
    Quotient(q, 16, p.G);
    Below(col, p.cols, Quot(rem, p.W), p.R);
    DivModOf(col, p.R, Quot(rem, p.W));
  }

  lemma ScalesFrom(p: Planes, col: nat, q: nat)
    requires 0 < p.R && 0 < p.G && col < p.cols && NibblePlane(p) + q < ColumnBytes(p)
    ensures var s := LocateInScales(p, col, q);
            InLayout(p, s) && OffsetOf(p, s) == Mul(col, ColumnBytes(p)) + NibblePlane(p) + q
  {
    var u := Quot(q, 2);
    MulBy(u, 2);
    assert q < Mul(p.R, p.G * 2);
    hide Mul, Quot, Rem, ColumnBytes, NibblePlane;
    Doubled(p.R, p.G);
    Quotient(q, 2, Mul(p.R, p.G));
    Quotient(u, p.G, p.R);
    Below(col, p.cols, Quot(u, p.G), p.R);
    DivModOf(col, p.R, Quot(u, p.G));
  }

  // ---- rows that are too short or too long for their groups ----

  /** When a row's bytes do not hold its groups, byte `W` of the image has two slots: one of the first row's groups,
    and the first of the next row or, in a column of one row, of the scales. */
  lemma Overlap(p: Planes) returns (s: Slot, t: Slot)
    requires Filled(p) && p.W < 16 * p.G
    ensures InLayout(p, s) && InLayout(p, t) && s != t && s.Nibbles? && OffsetOf(p, s) == OffsetOf(p, t) == p.W
    ensures p.W < ImageBytes(p)
  {
    s := Nibbles(0, p.W / 16, p.W % 16);
    t := if p.R > 1 then Nibbles(1, 0, 0) else Scale(0, 0, 0);
    Products(p);
    assert Quot(0, p.R) == 0 && Rem(0, p.R) == 0;
    assert p.R > 1 ==> Quot(1, p.R) == 0 && Rem(1, p.R) == 1;
    hide Mul, Quot, Rem;
  }

  lemma Products(p: Planes)
    requires Filled(p)
    ensures forall b :: Mul(0, b) == 0
    ensures Mul(1, p.W) == p.W && p.R <= Rows(p) && p.W <= NibblePlane(p) && (p.R == 1 ==> NibblePlane(p) == p.W)
    ensures NibblePlane(p) < ColumnBytes(p) <= ImageBytes(p)
  {
    MulMono(1, p.cols, p.R);
    MulMono(1, p.R, p.W);
    Positive(p.R, p.G * 2);
    MulMono(1, p.cols, ColumnBytes(p));
  }

  /** When a row has more bytes than its groups use, byte `16*G` of the image has no slot. */
  lemma Gap(p: Planes, s: Slot)
    requires Filled(p) && 16 * p.G < p.W && InLayout(p, s)
    ensures OffsetOf(p, s) != 16 * p.G < ImageBytes(p)
  {
    LocateOffset(p, s);
    Products(p);
    MulBy(p.G, 16);
    assert 16 * p.G == Mul(0, p.W) + 16 * p.G == Mul(0, ColumnBytes(p)) + 16 * p.G;
    hide Mul, Quot, Rem, ColumnBytes, NibblePlane, OffsetOf, InLayout;
    DivModOf(0, ColumnBytes(p), 16 * p.G);
    DivModOf(0, p.W, 16 * p.G);
    DivModOf(p.G, 16, 0);
    assert Locate(p, 16 * p.G).g == p.G;
    hide Locate;
    assert s.g < p.G by { InLayoutGroup(p, s); }
  }

  lemma InLayoutGroup(p: Planes, s: Slot)
    requires InLayout(p, s)
    ensures s.g < p.G && s.row < Rows(p) && (s.Nibbles? ==> s.j < 16)
  {
  }

  ghost predicate Distinct(p: Planes)
    requires 0 < p.R
  {
    forall s, t :: InLayout(p, s) && InLayout(p, t) && OffsetOf(p, s) == OffsetOf(p, t) ==> s == t
  }

  /** No two slots share an address exactly when a row's bytes hold its groups. */
  lemma DistinctIff(p: Planes)
    requires Filled(p)
    ensures Distinct(p) <==> 16 * p.G <= p.W
  {
    if 16 * p.G <= p.W {
      forall s, t | InLayout(p, s) && InLayout(p, t) && OffsetOf(p, s) == OffsetOf(p, t)
        ensures s == t
      {
        LocateOffset(p, s);
        LocateOffset(p, t);
      }
    } else {
      var s, t := Overlap(p);
    }
  }

  /** Byte `i` is the address of a slot. */
  ghost predicate Taken(p: Planes, i: nat)
    requires 0 < p.R
  {
    exists s :: InLayout(p, s) && OffsetOf(p, s) == i
  }

  /** Slots that have their own bytes take the whole image exactly when the groups of a row fill its bytes. */
  lemma OntoIff(p: Planes)
    requires Filled(p) && 16 * p.G <= p.W
    ensures (forall i: nat :: Taken(p, i) <==> i < ImageBytes(p)) <==> p.W == 16 * p.G
  {
    forall i: nat | Taken(p, i)
      ensures i < ImageBytes(p)
    {
      var s :| InLayout(p, s) && OffsetOf(p, s) == i;
      OffsetInside(p, s);
    }
    if p.W == 16 * p.G {
      forall i: nat | i < ImageBytes(p)
        ensures Taken(p, i)
      {
        OffsetLocate(p, i);
      }
    } else {
      Products(p);
      forall s | InLayout(p, s)
        ensures OffsetOf(p, s) != 16 * p.G
      {
        Gap(p, s);
      }
      assert !Taken(p, 16 * p.G) && 16 * p.G < ImageBytes(p);
    }
  }
}
