/** The byte and count inventory of the GGUF tool and its shape histogram: every tensor is counted once, in every
  breakdown it belongs to. */
module GgufInventory {
  import opened Words
  import opened GgufTensors
  import Decimal
  import NamedArithmetic

  const Q4_0 := 2

  function TypeName(kind: nat): string
  {
    match kind
    case 0 => "F32" case 1 => "F16" case 2 => "Q4_0" case 3 => "Q4_1" case 6 => "Q5_0" case 7 => "Q5_1"
    case 8 => "Q8_0" case 9 => "Q8_1" case 10 => "Q2_K" case 11 => "Q3_K" case 12 => "Q4_K" case 13 => "Q5_K"
    case 14 => "Q6_K" case 15 => "Q8_K" case 16 => "IQ2_XXS" case 17 => "IQ2_XS" case 18 => "IQ3_XXS"
    case 19 => "IQ1_S" case 20 => "IQ4_NL" case 21 => "IQ3_S" case 22 => "IQ2_S" case 23 => "IQ4_XS"
    case 24 => "I8" case 25 => "I16" case 26 => "I32" case 27 => "I64" case 28 => "F64" case 29 => "IQ1_M"
    case 30 => "BF16" case _ => "UNKNOWN"
  }

  function BlockSize(kind: nat): (n: nat)
    ensures n > 0
  {
    match kind
    case 2 => 32 case 3 => 32 case 6 => 32 case 7 => 32 case 8 => 32 case 9 => 32 case 20 => 32
    case 10 => 256 case 11 => 256 case 12 => 256 case 13 => 256 case 14 => 256 case 15 => 256 case 16 => 256
    case 17 => 256 case 18 => 256 case 19 => 256 case 21 => 256 case 22 => 256 case 23 => 256 case 29 => 256
    case _ => 1
  }

  function TypeSize(kind: nat): nat
  {
    match kind
    case 0 => 4 case 1 => 2 case 30 => 2 case 24 => 1 case 25 => 2 case 26 => 4 case 27 => 8 case 28 => 8
    case 2 => 18 case 3 => 20 case 6 => 22 case 7 => 24 case 8 => 34 case 9 => 36
    case 10 => 128 case 11 => 108 case 12 => 144 case 13 => 176 case 14 => 210 case 15 => 260
    case _ => 1
  }

  /** The product of the dimensions in 64 bits, multiplied up in order. */
  function Elements(dims: seq<nat>): (n: nat)
    ensures n < U64_LIMIT
  {
    if dims == [] then 1 else Elements(dims[..|dims| - 1]) * dims[|dims| - 1] % U64_LIMIT
  }

  function ByteSize(t: Tensor): nat { Elements(t.dims) / BlockSize(t.kind) * TypeSize(t.kind) % U64_LIMIT }

  /** A Q4_0 matrix whose rows are whole blocks. */
  predicate Capable(t: Tensor) { t.kind == Q4_0 && |t.dims| == 2 && t.dims[0] % 32 == 0 }

  predicate IsMatrix(t: Tensor) { |t.dims| == 2 }

  /** The histogram's key for a matrix. */
  function ShapeText(t: Tensor): string
    requires IsMatrix(t)
  {
    Decimal.Digits(t.dims[0]) + " x " + Decimal.Digits(t.dims[1])
  }

  // ---- true sums over a table ----

  function BytesOf(ts: seq<Tensor>, p: Tensor -> bool): nat
  {
    if ts == [] then 0
    else BytesOf(ts[..|ts| - 1], p) + if p(ts[|ts| - 1]) then ByteSize(ts[|ts| - 1]) else 0
  }

  function CountOf(ts: seq<Tensor>, p: Tensor -> bool): nat
  {
    if ts == [] then 0 else CountOf(ts[..|ts| - 1], p) + if p(ts[|ts| - 1]) then 1 else 0
  }

  function Any(): Tensor -> bool { (t: Tensor) => true }

  function IsCapable(): Tensor -> bool { (t: Tensor) => Capable(t) }

  function IsOther(): Tensor -> bool { (t: Tensor) => !Capable(t) }

  function IsQ4(): Tensor -> bool { (t: Tensor) => t.kind == Q4_0 }

  function Named(name: string): Tensor -> bool { (t: Tensor) => TypeName(t.kind) == name }

  function Matrices(): Tensor -> bool { (t: Tensor) => IsMatrix(t) }

  function Shaped(name: string): Tensor -> bool { (t: Tensor) => IsMatrix(t) && ShapeText(t) == name }

  function WithDims(dims: seq<nat>): Tensor -> bool { (t: Tensor) => t.dims == dims }

  // ---- the loop ----

  datatype Totals = Totals(
    totalBytes: nat, capableBytes: nat, otherBytes: nat, capable: nat, q4: nat,
    typeCounts: map<string, nat>, typeBytes: map<string, nat>, shapes: map<string, nat>)

  function Names(ts: seq<Tensor>): set<string> { set i | 0 <= i < |ts| :: TypeName(ts[i].kind) }

  function Shapes(ts: seq<Tensor>): set<string>
  {
    set i | 0 <= i < |ts| && IsMatrix(ts[i]) :: ShapeText(ts[i])
  }

  /** What the totals say about the tensors seen: 64-bit and 32-bit sums of the right tensors. */
  predicate Summed(r: Totals, ts: seq<Tensor>)
  {
    && r.totalBytes == BytesOf(ts, Any()) % U64_LIMIT
    && r.capableBytes == BytesOf(ts, IsCapable()) % U64_LIMIT && r.otherBytes == BytesOf(ts, IsOther()) % U64_LIMIT
    && r.capable == CountOf(ts, IsCapable()) % U32_LIMIT && r.q4 == CountOf(ts, IsQ4()) % U32_LIMIT
  }

  /** The same for the two breakdowns by type name. */
  predicate BrokenDown(r: Totals, ts: seq<Tensor>)
  {
    && r.typeCounts.Keys == r.typeBytes.Keys == Names(ts)
    && forall name <- r.typeBytes ::
         r.typeCounts[name] == CountOf(ts, Named(name)) % U32_LIMIT &&
         r.typeBytes[name] == BytesOf(ts, Named(name)) % U64_LIMIT
  }

  /** And for the histogram of matrix shapes. */
  predicate Histogram(r: Totals, ts: seq<Tensor>)
  {
    && r.shapes.Keys == Shapes(ts)
    && forall name <- r.shapes :: r.shapes[name] == CountOf(ts, Shaped(name)) % U32_LIMIT
  }

  predicate Tallied(r: Totals, ts: seq<Tensor>) { Summed(r, ts) && BrokenDown(r, ts) && Histogram(r, ts) }

  /** `map[key] += n` starts from zero when the key is new. */
  function Bumped(m: map<string, nat>, name: string, n: nat, limit: nat): map<string, nat>
    requires limit > 0
  {
    m[name := ((if name in m then m[name] else 0) + n) % limit]
  }

  lemma AddMod(a: nat, b: nat, limit: nat)
    requires limit > 0
    ensures (a % limit + b) % limit == (a + b) % limit
  {
    NamedArithmetic.Unique(a, limit, a / limit, a % limit);
    var q := a / limit;
    assert a + b == q * limit + (a % limit + b);
    NamedArithmetic.ModShift(q, limit, a % limit + b);
  }

  lemma {:induction false} AbsentIsZero(ts: seq<Tensor>, name: string)
    requires forall i :: 0 <= i < |ts| ==> TypeName(ts[i].kind) != name
    ensures CountOf(ts, Named(name)) == 0 && BytesOf(ts, Named(name)) == 0
  {
    if ts != [] {
      AbsentIsZero(ts[..|ts| - 1], name);
    }
  }

  const NOTHING := Totals(0, 0, 0, 0, 0, map[], map[], map[])

  /** One turn of the tensor loop. */
  function Counted(r: Totals, t: Tensor): Totals
  {
    var size, name := ByteSize(t), TypeName(t.kind);
    Totals(
      (r.totalBytes + size) % U64_LIMIT,
      if Capable(t) then (r.capableBytes + size) % U64_LIMIT else r.capableBytes,
      if Capable(t) then r.otherBytes else (r.otherBytes + size) % U64_LIMIT,
      if Capable(t) then (r.capable + 1) % U32_LIMIT else r.capable,
      if t.kind == Q4_0 then (r.q4 + 1) % U32_LIMIT else r.q4,
      Bumped(r.typeCounts, name, 1, U32_LIMIT), Bumped(r.typeBytes, name, size, U64_LIMIT),
      if IsMatrix(t) then Bumped(r.shapes, ShapeText(t), 1, U32_LIMIT) else r.shapes)
  }

  lemma SumSnoc(ts: seq<Tensor>, t: Tensor, p: Tensor -> bool)
    ensures BytesOf(ts + [t], p) == BytesOf(ts, p) + (if p(t) then ByteSize(t) else 0)
    ensures CountOf(ts + [t], p) == CountOf(ts, p) + if p(t) then 1 else 0
  {
  }

  /** A sum kept modulo `limit` stays right when a tensor is counted. */
  lemma KeptSum(ts: seq<Tensor>, t: Tensor, p: Tensor -> bool)
    ensures BytesOf(ts + [t], p) % U64_LIMIT ==
            if p(t) then (BytesOf(ts, p) % U64_LIMIT + ByteSize(t)) % U64_LIMIT else BytesOf(ts, p) % U64_LIMIT
    ensures CountOf(ts + [t], p) % U32_LIMIT ==
            if p(t) then (CountOf(ts, p) % U32_LIMIT + 1) % U32_LIMIT else CountOf(ts, p) % U32_LIMIT
  {
    hide BytesOf, CountOf, ByteSize;
    SumSnoc(ts, t, p);
    AddMod(BytesOf(ts, p), ByteSize(t), U64_LIMIT);
    AddMod(CountOf(ts, p), 1, U32_LIMIT);
  }

  lemma NamesSnoc(ts: seq<Tensor>, t: Tensor)
    ensures Names(ts + [t]) == Names(ts) + {TypeName(t.kind)}
  {
    hide TypeName;
    var all := ts + [t];
    forall name | name in Names(ts) + {TypeName(t.kind)}
      ensures name in Names(all)
    {
      if name == TypeName(t.kind) {
        assert all[|ts|] == t;
      } else {
        var i :| 0 <= i < |ts| && name == TypeName(ts[i].kind);
        assert all[i] == ts[i];
      }
    }
  }

  lemma CountedSums(r: Totals, ts: seq<Tensor>, t: Tensor)
    requires Summed(r, ts)
    ensures Summed(Counted(r, t), ts + [t])
  {
    hide ByteSize, TypeName, BytesOf, CountOf, Bumped, Capable;
    KeptSum(ts, t, Any());
    KeptSum(ts, t, IsCapable());
    KeptSum(ts, t, IsOther());
    KeptSum(ts, t, IsQ4());
  }

  lemma CountedBreakdown(r: Totals, ts: seq<Tensor>, t: Tensor)
    requires BrokenDown(r, ts)
    ensures BrokenDown(Counted(r, t), ts + [t])
  {
    hide ByteSize, TypeName, BytesOf, CountOf, Names, Capable;
    NamesSnoc(ts, t);
    var after := Counted(r, t);
    forall name <- after.typeBytes
      ensures after.typeCounts[name] == CountOf(ts + [t], Named(name)) % U32_LIMIT
      ensures after.typeBytes[name] == BytesOf(ts + [t], Named(name)) % U64_LIMIT
    {
      KeptSum(ts, t, Named(name));
      if name !in r.typeBytes {
        NotNamed(ts, name);
      }
    }
  }

  lemma NotNamed(ts: seq<Tensor>, name: string)
    requires name !in Names(ts)
    ensures CountOf(ts, Named(name)) == 0 && BytesOf(ts, Named(name)) == 0
  {
  }

  lemma ShapesSnoc(ts: seq<Tensor>, t: Tensor)
    ensures Shapes(ts + [t]) == Shapes(ts) + if IsMatrix(t) then {ShapeText(t)} else {}
  {
    hide ShapeText;
    var all := ts + [t];
    forall name | name in Shapes(ts) + if IsMatrix(t) then {ShapeText(t)} else {}
      ensures name in Shapes(all)
    {
      if i :| 0 <= i < |ts| && IsMatrix(ts[i]) && name == ShapeText(ts[i]) {
        assert all[i] == ts[i];
      } else {
        assert all[|ts|] == t;
      }
    }
  }

  lemma {:induction false} NotShaped(ts: seq<Tensor>, name: string)
    requires name !in Shapes(ts)
    ensures CountOf(ts, Shaped(name)) == 0
  {
    hide ShapeText;
    if ts != [] {
      var before, t := ts[..|ts| - 1], ts[|ts| - 1];
      assert ts == before + [t];
      ShapesSnoc(before, t);
      NotShaped(before, name);
    }
  }

  lemma CountedShape(r: Totals, ts: seq<Tensor>, t: Tensor)
    requires Histogram(r, ts)
    ensures Histogram(Counted(r, t), ts + [t])
  {
    hide ByteSize, TypeName, ShapeText, BytesOf, CountOf, Shapes, Capable;
    ShapesSnoc(ts, t);
    var after := Counted(r, t);
    forall name <- after.shapes
      ensures after.shapes[name] == CountOf(ts + [t], Shaped(name)) % U32_LIMIT
    {
      KeptSum(ts, t, Shaped(name));
      if name !in r.shapes {
        NotShaped(ts, name);
      }
    }
  }

  method Summarize(ts: seq<Tensor>) returns (r: Totals)
    ensures Tallied(r, ts)
  {
    hide Summed, BrokenDown, Histogram, Counted;
    r := NOTHING;
    NothingTallied();
    for i := 0 to |ts|
      invariant Tallied(r, ts[..i])
    {
      CountedSums(r, ts[..i], ts[i]);
      CountedBreakdown(r, ts[..i], ts[i]);
      CountedShape(r, ts[..i], ts[i]);
      assert ts[..i + 1] == ts[..i] + [ts[i]];
      r := Counted(r, ts[i]);
    }
    assert ts[..|ts|] == ts;
  }

  lemma NothingTallied()
    ensures Tallied(NOTHING, [])
  {
  }

  // ---- conservation ----

  /** Capable and CPU-only bytes make up the total, and every capable tensor is one of the Q4_0 tensors. */
  lemma {:induction false} SplitOf(ts: seq<Tensor>)
    ensures BytesOf(ts, IsCapable()) + BytesOf(ts, IsOther()) == BytesOf(ts, Any())
    ensures CountOf(ts, IsCapable()) <= CountOf(ts, IsQ4()) == CountOf(ts, Named("Q4_0")) <= CountOf(ts, Any()) == |ts|
  {
    hide ByteSize;
    if ts != [] {
      SplitOf(ts[..|ts| - 1]);
      OnlyQ4(ts[|ts| - 1].kind);
    }
  }

  lemma OnlyQ4(kind: nat)
    ensures TypeName(kind) == "Q4_0" <==> kind == Q4_0
  {
  }

  /** Sum of a breakdown over the type names. */
  ghost function Over(names: set<string>, f: string -> nat): nat
  {
    if names == {} then 0
    else
      var name :| name in names;
      f(name) + Over(names - {name}, f)
  }

  lemma {:induction false} OverTake(names: set<string>, f: string -> nat, name: string)
    requires name in names
    ensures Over(names, f) == f(name) + Over(names - {name}, f)
    decreases |names|
  {
    var first :| first in names && Over(names, f) == f(first) + Over(names - {first}, f);
    if first != name {
      OverTake(names - {first}, f, name);
      OverTake(names - {name}, f, first);
      assert names - {first} - {name} == names - {name} - {first};
    }
  }

  lemma {:induction false} OverSame(names: set<string>, f: string -> nat, g: string -> nat)
    requires forall name <- names :: f(name) == g(name)
    ensures Over(names, f) == Over(names, g)
    decreases |names|
  {
    if names != {} {
      var name :| name in names;
      OverTake(names, f, name);
      OverTake(names, g, name);
      OverSame(names - {name}, f, g);
    }
  }

  ghost function BytesByName(ts: seq<Tensor>): string -> nat { name => BytesOf(ts, Named(name)) }

  ghost function CountByName(ts: seq<Tensor>): string -> nat { name => CountOf(ts, Named(name)) }

  lemma {:induction false} OverZero(names: set<string>, f: string -> nat)
    requires forall name <- names :: f(name) == 0
    ensures Over(names, f) == 0
    decreases |names|
  {
    if names != {} {
      var name :| name in names;
      OverTake(names, f, name);
      OverZero(names - {name}, f);
    }
  }

  /** The per-type breakdowns add up to all bytes and all tensors, over any set of names that has them all. */
  lemma {:induction false} BreakdownAddsUp(ts: seq<Tensor>, names: set<string>)
    requires forall i :: 0 <= i < |ts| ==> TypeName(ts[i].kind) in names
    ensures Over(names, BytesByName(ts)) == BytesOf(ts, Any())
    ensures Over(names, CountByName(ts)) == |ts|
  {
    hide ByteSize, TypeName;
    if ts == [] {
      OverZero(names, BytesByName(ts));
      OverZero(names, CountByName(ts));
    } else {
      var before, t := ts[..|ts| - 1], ts[|ts| - 1];
      var name := TypeName(t.kind);
      BreakdownAddsUp(before, names);
      OverTake(names, BytesByName(ts), name);
      OverTake(names, BytesByName(before), name);
      OverSame(names - {name}, BytesByName(ts), BytesByName(before));
      OverTake(names, CountByName(ts), name);
      OverTake(names, CountByName(before), name);
      OverSame(names - {name}, CountByName(ts), CountByName(before));
    }
  }

  /** A printed breakdown as a function of the name. */
  ghost function Entry(m: map<string, nat>): string -> nat { name => if name in m then m[name] else 0 }

  /** When all bytes and tensors fit their counters, the printed totals are conserved exactly. */
  lemma Conservation(r: Totals, ts: seq<Tensor>)
    requires Tallied(r, ts) && BytesOf(ts, Any()) < U64_LIMIT && |ts| < U32_LIMIT
    ensures r.capableBytes + r.otherBytes == r.totalBytes && r.capable <= r.q4 <= |ts|
    ensures Over(r.typeBytes.Keys, Entry(r.typeBytes)) == r.totalBytes
    ensures Over(r.typeCounts.Keys, Entry(r.typeCounts)) == |ts|
  {
    hide ByteSize, TypeName, BytesOf, CountOf, Names, BrokenDown, Over, Histogram, Summed;
    TotalsFit(r, ts);
    BreakdownConserved(r, ts);
  }

  lemma TotalsFit(r: Totals, ts: seq<Tensor>)
    requires Summed(r, ts) && BytesOf(ts, Any()) < U64_LIMIT && |ts| < U32_LIMIT
    ensures r.totalBytes == BytesOf(ts, Any()) == r.capableBytes + r.otherBytes && r.capable <= r.q4 <= |ts|
  {
    hide ByteSize, BytesOf, CountOf;
    SplitOf(ts);
    SmallMod(BytesOf(ts, Any()), U64_LIMIT);
    SmallMod(BytesOf(ts, IsCapable()), U64_LIMIT);
    SmallMod(BytesOf(ts, IsOther()), U64_LIMIT);
    SmallMod(CountOf(ts, IsCapable()), U32_LIMIT);
    SmallMod(CountOf(ts, IsQ4()), U32_LIMIT);
  }

  lemma SmallMod(a: nat, limit: nat)
    requires a < limit
    ensures a % limit == a
  {
  }

  lemma EntryIs(r: Totals, ts: seq<Tensor>, name: string)
    requires BrokenDown(r, ts) && BytesOf(ts, Any()) < U64_LIMIT && |ts| < U32_LIMIT
    ensures r.typeCounts.Keys == r.typeBytes.Keys
    ensures name in r.typeBytes ==>
              Entry(r.typeBytes)(name) == BytesByName(ts)(name) && Entry(r.typeCounts)(name) == CountByName(ts)(name)
  {
    hide BytesOf, CountOf, Names;
    PartOf(ts, Named(name));
    SmallMod(BytesOf(ts, Named(name)), U64_LIMIT);
    SmallMod(CountOf(ts, Named(name)), U32_LIMIT);
  }

  lemma HasName(r: Totals, ts: seq<Tensor>, i: nat)
    requires BrokenDown(r, ts) && i < |ts|
    ensures TypeName(ts[i].kind) in r.typeBytes.Keys
  {
  }

  lemma BreakdownConserved(r: Totals, ts: seq<Tensor>)
    requires BrokenDown(r, ts) && BytesOf(ts, Any()) < U64_LIMIT && |ts| < U32_LIMIT
    ensures Over(r.typeBytes.Keys, Entry(r.typeBytes)) == BytesOf(ts, Any())
    ensures Over(r.typeCounts.Keys, Entry(r.typeCounts)) == |ts|
  {
    hide TypeName, BytesOf, CountOf, Over, BrokenDown, Entry, BytesByName, CountByName;
    var names := r.typeBytes.Keys;
    EntryIs(r, ts, "");
    forall i | 0 <= i < |ts|
      ensures TypeName(ts[i].kind) in names
    {
      HasName(r, ts, i);
    }
    BreakdownAddsUp(ts, names);
    forall name <- names
      ensures Entry(r.typeBytes)(name) == BytesByName(ts)(name) && Entry(r.typeCounts)(name) == CountByName(ts)(name)
    {
      EntryIs(r, ts, name);
    }
    OverSame(names, Entry(r.typeBytes), BytesByName(ts));
    OverSame(names, Entry(r.typeCounts), CountByName(ts));
  }

  lemma {:induction false} PartOf(ts: seq<Tensor>, p: Tensor -> bool)
    ensures BytesOf(ts, p) <= BytesOf(ts, Any()) && CountOf(ts, p) <= |ts|
  {
    hide ByteSize;
    if ts != [] {
      PartOf(ts[..|ts| - 1], p);
    }
  }

  // ---- the histogram ----

  lemma FrontOf(a: string, b: string)
    requires Decimal.AllDigits(a)
    ensures var s := a + " x " + b;
            s[|a|] == ' ' && (forall i :: 0 <= i < |a| ==> Decimal.IsDigit(s[i])) && s[..|a|] == a && s[|a| + 3..] == b
  {
  }

  lemma DigitsInFront(a: string, b: string, c: string, d: string)
    requires Decimal.AllDigits(a) && Decimal.AllDigits(c) && a + " x " + b == c + " x " + d
    ensures a == c && b == d
  {
    FrontOf(a, b);
    FrontOf(c, d);
    assert |a| == |c|;
  }

  /** Two matrices share a key exactly when they have the same dimensions. */
  lemma ShapeTextIff(s: Tensor, t: Tensor)
    requires IsMatrix(s) && IsMatrix(t)
    ensures ShapeText(s) == ShapeText(t) <==> s.dims == t.dims
  {
    hide Decimal.Digits, Decimal.ValueOf;
    Decimal.DigitsValue(s.dims[0]);
    Decimal.DigitsValue(s.dims[1]);
    Decimal.DigitsValue(t.dims[0]);
    Decimal.DigitsValue(t.dims[1]);
    if ShapeText(s) == ShapeText(t) {
      DigitsInFront(Decimal.Digits(s.dims[0]), Decimal.Digits(s.dims[1]),
                    Decimal.Digits(t.dims[0]), Decimal.Digits(t.dims[1]));
      assert s.dims == [s.dims[0], s.dims[1]] && t.dims == [t.dims[0], t.dims[1]];
    }
  }

  /** An entry of the histogram counts the matrices with these dimensions, and all of them. */
  lemma {:induction false} ShapeCounts(ts: seq<Tensor>, s: Tensor)
    requires IsMatrix(s)
    ensures CountOf(ts, Shaped(ShapeText(s))) == CountOf(ts, WithDims(s.dims))
  {
    hide ShapeText;
    if ts != [] {
      var t := ts[|ts| - 1];
      ShapeCounts(ts[..|ts| - 1], s);
      if IsMatrix(t) {
        ShapeTextIff(t, s);
      }
    }
  }

  ghost function CountByShape(ts: seq<Tensor>): string -> nat { name => CountOf(ts, Shaped(name)) }

  /** The histogram's entries add up to the matrices of the table. */
  lemma {:induction false} HistogramAddsUp(ts: seq<Tensor>, names: set<string>)
    requires Shapes(ts) <= names
    ensures Over(names, CountByShape(ts)) == CountOf(ts, Matrices())
  {
    hide ShapeText, Over;
    if ts == [] {
      OverZero(names, CountByShape(ts));
    } else {
      var before, t := ts[..|ts| - 1], ts[|ts| - 1];
      assert ts == before + [t];
      ShapesSnoc(before, t);
      HistogramAddsUp(before, names);
      if IsMatrix(t) {
        var name := ShapeText(t);
        OverTake(names, CountByShape(ts), name);
        OverTake(names, CountByShape(before), name);
        OverSame(names - {name}, CountByShape(ts), CountByShape(before));
      } else {
        OverSame(names, CountByShape(ts), CountByShape(before));
      }
    }
  }

  lemma KeyText(t: Tensor)
    requires IsMatrix(t)
    ensures ShapeText(t) == Decimal.Digits(t.dims[0]) + " x " + Decimal.Digits(t.dims[1])
  {
  }

  /** The printed histogram: one entry for each shape that occurs, the number of matrices with those dimensions
    modulo 2^32, and all matrices in total. */
  lemma HistogramMeans(r: Totals, ts: seq<Tensor>)
    requires Tallied(r, ts)
    ensures forall i :: 0 <= i < |ts| && |ts[i].dims| == 2 ==>
      var key := Decimal.Digits(ts[i].dims[0]) + " x " + Decimal.Digits(ts[i].dims[1]);
      key in r.shapes && r.shapes[key] == CountOf(ts, WithDims(ts[i].dims)) % U32_LIMIT
    ensures Over(r.shapes.Keys, Entry(r.shapes)) % U32_LIMIT == CountOf(ts, Matrices()) % U32_LIMIT
  {
    hide ShapeText, CountOf, Over, BrokenDown, Summed;
    forall i | 0 <= i < |ts| && IsMatrix(ts[i])
      ensures ShapeText(ts[i]) in r.shapes
      ensures r.shapes[ShapeText(ts[i])] == CountOf(ts, WithDims(ts[i].dims)) % U32_LIMIT
    {
      assert ShapeText(ts[i]) in Shapes(ts);
      ShapeCounts(ts, ts[i]);
    }
    forall i | 0 <= i < |ts| && IsMatrix(ts[i])
      ensures ShapeText(ts[i]) == Decimal.Digits(ts[i].dims[0]) + " x " + Decimal.Digits(ts[i].dims[1])
    {
      KeyText(ts[i]);
    }
    HistogramAddsUp(ts, r.shapes.Keys);
    OverMod(r.shapes.Keys, CountByShape(ts), Entry(r.shapes), U32_LIMIT);
  }

  // ---- conservation, whatever overflows ----

  lemma {:induction false} OverMod(names: set<string>, f: string -> nat, g: string -> nat, limit: nat)
    requires limit > 0 && forall name <- names :: g(name) == f(name) % limit
    ensures Over(names, g) % limit == Over(names, f) % limit
    decreases |names|
  {
    if names != {} {
      var name :| name in names;
      OverTake(names, f, name);
      OverTake(names, g, name);
      var rest := names - {name};
      OverMod(rest, f, g, limit);
      AddMods(f(name), Over(rest, f), Over(rest, g), limit);
    }
  }

  lemma AddMods(a: nat, b: nat, c: nat, limit: nat)
    requires limit > 0 && b % limit == c % limit
    ensures (a % limit + c) % limit == (a + b) % limit
  {
    AddMod(a, c, limit);
    AddMod(b, a, limit);
    AddMod(c, a, limit);
  }

  lemma EntryMod(r: Totals, ts: seq<Tensor>, name: string)
    requires BrokenDown(r, ts) && name in r.typeBytes
    ensures r.typeCounts.Keys == r.typeBytes.Keys
    ensures Entry(r.typeBytes)(name) == BytesByName(ts)(name) % U64_LIMIT
    ensures Entry(r.typeCounts)(name) == CountByName(ts)(name) % U32_LIMIT
  {
  }

  /** Whatever overflows, the printed totals are conserved in the counters' own arithmetic: modulo 2^64 for
    bytes and modulo 2^32 for counts. */
  lemma ConservedModulo(r: Totals, ts: seq<Tensor>)
    requires Tallied(r, ts)
    ensures (r.capableBytes + r.otherBytes) % U64_LIMIT == r.totalBytes
    ensures Over(r.typeBytes.Keys, Entry(r.typeBytes)) % U64_LIMIT == r.totalBytes
    ensures Over(r.typeCounts.Keys, Entry(r.typeCounts)) % U32_LIMIT == |ts| % U32_LIMIT
  {
    hide ByteSize, TypeName, BytesOf, CountOf, Names, BrokenDown, Over, Entry, BytesByName, CountByName;
    SplitOf(ts);
    SmallMod(r.otherBytes, U64_LIMIT);
    AddMods(BytesOf(ts, IsCapable()), BytesOf(ts, IsOther()), r.otherBytes, U64_LIMIT);
    var names := r.typeBytes.Keys;
    SameNames(r, ts);
    forall i | 0 <= i < |ts|
      ensures TypeName(ts[i].kind) in names
    {
      HasName(r, ts, i);
    }
    BreakdownAddsUp(ts, names);
    forall name <- names
      ensures Entry(r.typeBytes)(name) == BytesByName(ts)(name) % U64_LIMIT
      ensures Entry(r.typeCounts)(name) == CountByName(ts)(name) % U32_LIMIT
    {
      EntryMod(r, ts, name);
    }
    OverMod(names, BytesByName(ts), Entry(r.typeBytes), U64_LIMIT);
    OverMod(names, CountByName(ts), Entry(r.typeCounts), U32_LIMIT);
  }

  lemma SameNames(r: Totals, ts: seq<Tensor>)
    requires BrokenDown(r, ts)
    ensures r.typeCounts.Keys == r.typeBytes.Keys
  {
  }

  lemma TwoDims(k: nat, n: nat)
    requires k < U64_LIMIT && k * n < U64_LIMIT
    ensures Elements([k, n]) == k * n
  {
    assert [k, n][..1] == [k] && [k][..0] == [];
    assert Elements([k]) == 1 * k % U64_LIMIT;
    SmallMod(k, U64_LIMIT);
    SmallMod(k * n, U64_LIMIT);
  }

  lemma BlocksOf(k: nat, n: nat, b: nat)
    requires k == b * 32
    ensures k * n / 32 * 18 == n * (b * 18)
  {
    assert k * n == (n * b) * 32;
    NamedArithmetic.Unique(k * n, 32, n * b, 0);
    assert (n * b) * 18 == n * (b * 18);
  }

  /** The inventory's size of a capable tensor is what the Q4_0 engine requires of its weight buffer. */
  lemma CapableBytes(t: Tensor)
    requires Capable(t) && t.dims[0] < U64_LIMIT && t.dims[0] * t.dims[1] < U64_LIMIT
    requires Q4Reference.EncodedBytesForMatrix(t.dims[1], t.dims[0]).Ok?
    ensures ByteSize(t) == Q4Reference.EncodedBytesForMatrix(t.dims[1], t.dims[0]).value
  {
    hide Elements;
    var k, n := t.dims[0], t.dims[1];
    assert t.dims == [k, n];
    TwoDims(k, n);
    BlocksOf(k, n, k / 32);
    EncodedFits(n, k);
  }

  lemma EncodedFits(rows: nat, values: nat)
    requires Q4Reference.EncodedBytesForMatrix(rows, values).Ok?
    ensures Q4Reference.EncodedBytesForMatrix(rows, values).value == rows * (values / 32 * 18) < U64_LIMIT
  {
    Q4Reference.MatrixAcceptedIff(rows, values, rows * (values / 32 * 18));
    Q4Reference.MatrixAcceptedIff(rows, values, Q4Reference.EncodedBytesForMatrix(rows, values).value);
  }

  // ---- the types ----

  /** The names of the tensor types. */
  lemma LegacyNames()
    ensures TypeName(0) == "F32" && TypeName(1) == "F16" && TypeName(2) == "Q4_0" && TypeName(3) == "Q4_1" &&
            TypeName(6) == "Q5_0" && TypeName(7) == "Q5_1" && TypeName(8) == "Q8_0" && TypeName(9) == "Q8_1"
  {
  }

  lemma SuperblockNames()
    ensures TypeName(10) == "Q2_K" && TypeName(11) == "Q3_K" && TypeName(12) == "Q4_K" && TypeName(13) == "Q5_K" &&
            TypeName(14) == "Q6_K" && TypeName(15) == "Q8_K"
  {
  }

  lemma LowBitNames()
    ensures TypeName(16) == "IQ2_XXS" && TypeName(17) == "IQ2_XS" && TypeName(18) == "IQ3_XXS" &&
            TypeName(19) == "IQ1_S" && TypeName(20) == "IQ4_NL" && TypeName(21) == "IQ3_S" &&
            TypeName(22) == "IQ2_S" && TypeName(23) == "IQ4_XS"
  {
  }

  lemma PlainNames()
    ensures TypeName(24) == "I8" && TypeName(25) == "I16" && TypeName(26) == "I32" && TypeName(27) == "I64" &&
            TypeName(28) == "F64" && TypeName(29) == "IQ1_M" && TypeName(30) == "BF16"
  {
  }

  /** Values in a block of each type. */
  lemma BlockSizeIs(kind: nat)
    ensures BlockSize(kind) ==
            if kind == 2 || kind == 3 || 6 <= kind <= 9 || kind == 20 then 32
            else if 10 <= kind <= 19 || 21 <= kind <= 23 || kind == 29 then 256
            else 1
  {
  }

  /** The bytes the tool counts for a block of each type. */
  lemma PlainSizes()
    ensures TypeSize(0) == 4 && TypeSize(1) == 2 && TypeSize(24) == 1 && TypeSize(25) == 2 && TypeSize(26) == 4 &&
            TypeSize(27) == 8 && TypeSize(28) == 8 && TypeSize(30) == 2
  {
  }

  lemma LegacySizes()
    ensures TypeSize(2) == 18 && TypeSize(3) == 20 && TypeSize(6) == 22 && TypeSize(7) == 24 &&
            TypeSize(8) == 34 && TypeSize(9) == 36
  {
  }

  lemma SuperblockSizes()
    ensures TypeSize(10) == 256 / 16 * 4 + 256 / 4 && TypeSize(11) == 256 / 8 + 256 / 4 + 12 &&
            TypeSize(12) == 2 * 2 + 256 / 2 + 12 && TypeSize(13) == 2 * 2 + 256 / 2 + 256 / 8 + 12 &&
            TypeSize(14) == 2 + 256 / 2 + 256 / 4 + 256 / 16 && TypeSize(15) == 256 + 4
    ensures forall kind :: 16 <= kind <= 23 || kind == 29 ==> TypeSize(kind) == 1
  {
  }

  /** Any other number is an unknown type, counted as one byte a value. */
  lemma UnknownKind(kind: nat)
    requires kind == 4 || kind == 5 || kind > 30
    ensures TypeName(kind) == "UNKNOWN" && BlockSize(kind) == 1 && TypeSize(kind) == 1
  {
  }

  /** The number of values of a shape. */
  function Values(dims: seq<nat>): nat { if dims == [] then 1 else dims[0] * Values(dims[1..]) }

  lemma {:induction false} ValuesSnoc(dims: seq<nat>, d: nat)
    ensures Values(dims + [d]) == Values(dims) * d
  {
    if dims == [] {
      assert [d][1..] == [];
    } else {
      ValuesSnoc(dims[1..], d);
      assert (dims + [d])[1..] == dims[1..] + [d];
      assert dims[0] * (Values(dims[1..]) * d) == dims[0] * Values(dims[1..]) * d;
    }
  }

  /** The element count is the number of values, in 64 bits, and the size that of their blocks. */
  lemma {:induction false} ElementCount(dims: seq<nat>)
    ensures Elements(dims) == Values(dims) % U64_LIMIT
  {
    if dims != [] {
      var n := |dims| - 1;
      ElementCount(dims[..n]);
      assert dims[..n] + [dims[n]] == dims;
      ValuesSnoc(dims[..n], dims[n]);
      FactorMod(Values(dims[..n]), dims[n]);
    }
  }

  lemma FactorMod(a: nat, b: nat)
    ensures a % U64_LIMIT * b % U64_LIMIT == a * b % U64_LIMIT
  {
    NamedArithmetic.ModFactor(b, a, U64_LIMIT);
  }

  lemma SizeMeaning(t: Tensor)
    ensures ByteSize(t) == Values(t.dims) % U64_LIMIT / BlockSize(t.kind) * TypeSize(t.kind) % U64_LIMIT
  {
    ElementCount(t.dims);
  }

  /** A tensor is capable exactly when it is a Q4_0 matrix whose rows the reference can read. */
  lemma CapableIff(t: Tensor)
    ensures Capable(t) <==>
            t.kind == 2 && |t.dims| == 2 &&
            Q4Reference.EncodedBytesForValues(t.dims[0]) != Q4Reference.InvalidArgument(Q4Reference.RowLength)
  {
  }
}
