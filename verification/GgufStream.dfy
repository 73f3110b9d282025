/** The binary stream the GGUF walkers read, and skipping one metadata value.

  A read delivers the bytes that are there and fails if some are missing; a failed stream ignores every
  further read and seek.  A variable read into keeps its old high bytes when bytes are missing.  The two
  tools recurse into nested arrays; `depth` is the number of stack frames left, and running out of them is
  the only way a skip has no result. */
module GgufStream {
  import opened Words
  import opened LittleEndian

  /** `last` is the largest offset the file system lets a file have. */
  datatype Stream = Stream(data: seq<byte>, last: nat, pos: nat, failed: bool)

  /** The bytes that a read of `n` delivers. */
  function Available(s: Stream, n: nat): (got: seq<byte>)
    ensures |got| <= n
  {
    if s.failed || s.pos >= |s.data| then []
    else if s.pos + n <= |s.data| then s.data[s.pos..s.pos + n]
    else s.data[s.pos..]
  }

  function AfterRead(s: Stream, n: nat): Stream
  {
    if s.failed then s else var got := |Available(s, n)|; s.(pos := s.pos + got, failed := got < n)
  }

  /** A variable of `n` bytes that held `before` when the read began. */
  function Word(s: Stream, n: nat, before: nat): nat
  {
    var got := Available(s, n);
    Decode(got + Encode(before, n)[|got|..])
  }

  /** `seekg` to a place; it may lie past the end but not before the beginning or beyond the largest offset. */
  function SeekTo(s: Stream, at: int): Stream
  {
    if s.failed then s else if 0 <= at <= s.last then s.(pos := at) else s.(failed := true)
  }

  /** `seekg(offset, std::ios::cur)`. */
  function Seek(s: Stream, offset: int): Stream { SeekTo(s, s.pos + offset) }

  /** `tellg` in an unsigned variable. */
  function Tell(s: Stream): nat { if s.failed then U64_LIMIT - 1 else s.pos }

  /** An unsigned length handed to `seekg` is converted to a signed offset. */
  function SignedOffset(n: nat): int { if n < 0x8000_0000_0000_0000 then n else n - U64_LIMIT }

  class Ifstream {
    const data: seq<byte>
    const last: nat
    var pos: nat
    var failed: bool

    ghost function State(): Stream
      reads this
    {
      Stream(data, last, pos, failed)
    }

    constructor (data: seq<byte>, last: nat)
      ensures State() == Stream(data, last, 0, false)
    {
      this.data := data;
      this.last := last;
      pos := 0;
      failed := false;
    }

    method ReadBytes(n: nat) returns (got: seq<byte>)
      modifies this
      ensures State() == AfterRead(old(State()), n) && got == Available(old(State()), n)
    {
      got := [];
      if !failed {
        if pos < |data| {
          got := if pos + n <= |data| then data[pos..pos + n] else data[pos..];
        }
        pos := pos + |got|;
        failed := |got| < n;
      }
    }

    method ReadWord(n: nat, before: nat) returns (v: nat)
      modifies this
      ensures State() == AfterRead(old(State()), n) && v == Word(old(State()), n, before)
    {
      var got := ReadBytes(n);
      v := Decode(got + Encode(before, n)[|got|..]);
    }

    method Seekg(offset: int)
      modifies this
      ensures State() == Seek(old(State()), offset)
    {
      SeekgTo(pos + offset);
    }

    method SeekgTo(at: int)
      modifies this
      ensures State() == SeekTo(old(State()), at)
    {
      if !failed {
        if 0 <= at <= last {
          pos := at;
        } else {
          failed := true;
        }
      }
    }

    method Tellg() returns (at: nat)
      ensures at == Tell(State())
    {
      at := if failed then U64_LIMIT - 1 else pos;
    }
  }

  // ---- standing on an encoding ----

  /** The stream is good and `piece` comes next. */
  predicate At(s: Stream, piece: seq<byte>) { !s.failed && |s.data| <= s.last && Holds(s.data, s.pos, piece) }

  function Moved(s: Stream, n: nat): Stream { s.(pos := s.pos + n) }

  lemma AtSplit(s: Stream, a: seq<byte>, b: seq<byte>)
    requires At(s, a + b)
    ensures At(s, a) && At(Moved(s, |a|), b) && |a + b| == |a| + |b|
    ensures Moved(Moved(s, |a|), |b|) == Moved(s, |a + b|)
  {
    var whole := s.data[s.pos..s.pos + |a + b|];
    assert s.data[s.pos..s.pos + |a|] == whole[..|a|] == a;
    assert s.data[s.pos + |a|..s.pos + |a| + |b|] == whole[|a|..] == b;
  }

  lemma ReadExact(s: Stream, piece: seq<byte>)
    requires At(s, piece)
    ensures Available(s, |piece|) == piece && AfterRead(s, |piece|) == Moved(s, |piece|)
  {
  }

  lemma SeekExact(s: Stream, piece: seq<byte>)
    requires At(s, piece)
    ensures Seek(s, |piece|) == Moved(s, |piece|)
  {
  }

  lemma WordExact(s: Stream, v: nat, n: nat, before: nat)
    requires At(s, Encode(v, n)) && v < Limit(n)
    ensures Word(s, n, before) == v && AfterRead(s, n) == Moved(s, n)
  {
    ReadExact(s, Encode(v, n));
    DecodeEncode(v, n);
    assert Encode(v, n) + Encode(before, n)[n..] == Encode(v, n);
  }

  lemma Limits()
    ensures Limit(4) == U32_LIMIT && Limit(8) == U64_LIMIT
  {
  }

  // ---- values ----

  const STRING := 8
  const ARRAY := 9

  /** The size of a value of a fixed-size type. */
  function FixedWidth(t: nat): Option<nat>
  {
    match t
    case 0 => Some(1) case 1 => Some(1) case 7 => Some(1)
    case 2 => Some(2) case 3 => Some(2)
    case 4 => Some(4) case 5 => Some(4) case 6 => Some(4)
    case 10 => Some(8) case 11 => Some(8) case 12 => Some(8)
    case _ => None
  }

  /** Where skipping a value of type `t` leaves the stream; an unknown type skips nothing. */
  function Skip(s: Stream, t: nat, depth: nat): Option<Stream>
    decreases depth, 0
  {
    if depth == 0 then None
    else if FixedWidth(t).Some? then Some(Seek(s, FixedWidth(t).value))
    else if t == STRING then Some(Seek(AfterRead(s, 8), SignedOffset(Word(s, 8, 0))))
    else if t == ARRAY then
      var s' := AfterRead(s, 4);
      SkipMany(AfterRead(s', 8), Word(s, 4, 0), Word(s', 8, 0), depth - 1)
    else Some(s)
  }

  function SkipMany(s: Stream, t: nat, n: nat, depth: nat): Option<Stream>
    decreases depth, n
  {
    if n == 0 then Some(s)
    else
      var next := Skip(s, t, depth);
      if next.None? then None else SkipMany(next.value, t, n - 1, depth)
  }

  /** `skip_value` of the inventory tool: a switch over the named types. */
  method SkipValue(f: Ifstream, t: nat, depth: nat) returns (ok: bool)
    modifies f
    ensures var end := Skip(old(f.State()), t, depth); ok == end.Some? && (ok ==> f.State() == end.value)
    decreases depth
  {
    hide Word, AfterRead, Encode, Decode, Seek;
    if depth == 0 {
      return false;
    }
    match t {
      case 0 | 1 | 7 => f.Seekg(1);
      case 2 | 3 => f.Seekg(2);
      case 4 | 5 | 6 => f.Seekg(4);
      case 10 | 11 | 12 => f.Seekg(8);
      case 8 =>
        var len := f.ReadWord(8, 0);
        f.Seekg(SignedOffset(len));
      case 9 =>
        var elemType := f.ReadWord(4, 0);
        var count := f.ReadWord(8, 0);
        ghost var first := f.State();
        for i := 0 to count
          invariant SkipMany(first, elemType, count, depth - 1) == SkipMany(f.State(), elemType, count - i, depth - 1)
        {
          ok := SkipValue(f, elemType, depth - 1);
          if !ok {
            return false;
          }
        }
      case _ =>
    }
    ok := true;
  }

  /** `skip_meta` of the benchmark tool: comparisons of the raw type.  The contract is the same for every
    stream, type and depth, so the two tools move their cursors alike. */
  method SkipMeta(f: Ifstream, t: nat, depth: nat) returns (ok: bool)
    modifies f
    ensures var end := Skip(old(f.State()), t, depth); ok == end.Some? && (ok ==> f.State() == end.value)
    decreases depth
  {
    hide Word, AfterRead, Encode, Decode, Seek;
    if depth == 0 {
      return false;
    }
    if t <= 1 || t == 7 {
      f.Seekg(1);
    } else if t == 2 || t == 3 {
      f.Seekg(2);
    } else if t == 4 || t == 5 || t == 6 {
      f.Seekg(4);
    } else if t == 10 || t == 11 || t == 12 {
      f.Seekg(8);
    } else if t == 8 {
      var len := f.ReadWord(8, 0);
      f.Seekg(SignedOffset(len));
    } else if t == 9 {
      var elemType := f.ReadWord(4, 0);
      var count := f.ReadWord(8, 0);
      ghost var first := f.State();
      for j := 0 to count
        invariant SkipMany(first, elemType, count, depth - 1) == SkipMany(f.State(), elemType, count - j, depth - 1)
      {
        ok := SkipMeta(f, elemType, depth - 1);
        if !ok {
          return false;
        }
      }
    }
    ok := true;
  }

  // ---- well-formed values ----

  datatype Value = Scalar(bytes: seq<byte>) | Text(text: seq<byte>) | Array(elemType: u32, elems: Values)
  datatype Values = Nil | Cons(head: Value, tail: Values)

  function Count(vs: Values): nat { match vs case Nil => 0 case Cons(_, tail) => 1 + Count(tail) }

  /** The bytes of a number: UINT8 0, INT8 1 and BOOL 7 have one, UINT16 2 and INT16 3 two, UINT32 4, INT32 5 and
    FLOAT32 6 four, UINT64 10, INT64 11 and FLOAT64 12 eight. */
  predicate NumberOf(t: nat, bytes: nat)
  {
    || (bytes == 1 && (t == 0 || t == 1 || t == 7))
    || (bytes == 2 && (t == 2 || t == 3))
    || (bytes == 4 && (t == 4 || t == 5 || t == 6))
    || (bytes == 8 && (t == 10 || t == 11 || t == 12))
  }

  /** A value of GGUF type `t`, a number, a text (8) or an array (9), with lengths that fit their fields; a text must be
    shorter than a file can be. */
  predicate Typed(v: Value, t: nat)
  {
    match v
    case Scalar(bytes) => NumberOf(t, |bytes|)
    case Text(text) => t == 8 && |text| < 0x8000_0000_0000_0000
    case Array(elemType, elems) => t == 9 && Count(elems) < U64_LIMIT && AllTyped(elems, elemType)
  }

  /** Skipping moves a good stream exactly past a number of each type, and nowhere for a type that does not exist. */
  lemma NumberWidths(t: nat, bytes: nat)
    ensures NumberOf(t, bytes) <==> FixedWidth(t) == Some(bytes)
    ensures t > 12 ==> forall s, depth :: depth > 0 ==> Skip(s, t, depth) == Some(s)
  {
  }

  predicate AllTyped(vs: Values, t: nat)
  {
    match vs case Nil => true case Cons(v, tail) => Typed(v, t) && AllTyped(tail, t)
  }

  function EncodeText(text: seq<byte>): seq<byte> { Encode(|text|, 8) + text }

  function EncodeValue(v: Value): seq<byte>
  {
    match v
    case Scalar(bytes) => bytes
    case Text(text) => EncodeText(text)
    case Array(elemType, elems) => Encode(elemType, 4) + (Encode(Count(elems), 8) + EncodeValues(elems))
  }

  function EncodeValues(vs: Values): seq<byte>
  {
    match vs case Nil => [] case Cons(v, tail) => EncodeValue(v) + EncodeValues(tail)
  }

  /** How deeply arrays are nested, counting the value itself. */
  function Nesting(v: Value): nat { match v case Array(_, elems) => 1 + NestingOf(elems) case _ => 1 }

  function NestingOf(vs: Values): nat
  {
    match vs case Nil => 0 case Cons(v, tail) => if Nesting(v) > NestingOf(tail) then Nesting(v) else NestingOf(tail)
  }

  /** Whatever follows it, a well-formed value is skipped exactly, however deeply arrays are nested: all it
    takes is one stack frame for each level. */
  lemma {:induction false} SkipExact(s: Stream, v: Value, t: nat, depth: nat)
    requires Typed(v, t) && At(s, EncodeValue(v))
    ensures Skip(s, t, depth) == if depth >= Nesting(v) then Some(Moved(s, |EncodeValue(v)|)) else None
    decreases v
  {
    hide Encode, Decode, Word, AfterRead, Holds, Limit;
    Limits();
    match v
    case Scalar(bytes) => SeekExact(s, bytes);
    case Text(text) =>
      AtSplit(s, Encode(|text|, 8), text);
      WordExact(s, |text|, 8, 0);
      SeekExact(Moved(s, 8), text);
    case Array(elemType, elems) =>
      var count, body := Encode(Count(elems), 8), EncodeValues(elems);
      AtSplit(s, Encode(elemType, 4), count + body);
      WordExact(s, elemType, 4, 0);
      var s' := Moved(s, 4);
      AtSplit(s', count, body);
      WordExact(s', Count(elems), 8, 0);
      if depth > 0 {
        SkipManyExact(Moved(s', 8), elems, elemType, depth - 1);
      }
  }

  lemma {:induction false} SkipManyExact(s: Stream, vs: Values, t: nat, depth: nat)
    requires AllTyped(vs, t) && At(s, EncodeValues(vs))
    ensures SkipMany(s, t, Count(vs), depth) ==
            if depth >= NestingOf(vs) then Some(Moved(s, |EncodeValues(vs)|)) else None
    decreases vs
  {
    hide Encode, Decode, Word, AfterRead, Holds, Limit;
    match vs
    case Nil =>
    case Cons(v, tail) =>
      AtSplit(s, EncodeValue(v), EncodeValues(tail));
      SkipExact(s, v, t, depth);
      SkipManyExact(Moved(s, |EncodeValue(v)|), tail, t, depth);
  }

  // ---- streams that end too early ----

  /** A failed stream stays where it is, whatever is read, sought or skipped. */
  lemma FailedStays(s: Stream, n: nat, at: int, t: nat, depth: nat)
    requires s.failed
    ensures Available(s, n) == [] && AfterRead(s, n) == s && SeekTo(s, at) == s && Seek(s, at) == s
    ensures depth > 0 ==> Skip(s, t, depth) == Some(s)
  {
    WordKept(s, 4, 0);
    WordKept(s, 8, 0);
    if depth > 0 && t == 9 {
      assert SkipMany(s, 0, 0, depth - 1) == Some(s);
    }
  }

  /** When nothing can be read, a variable keeps its value. */
  lemma WordKept(s: Stream, n: nat, before: nat)
    requires Available(s, n) == [] && before < Limit(n)
    ensures Word(s, n, before) == before
  {
    DecodeEncode(before, n);
    assert [] + Encode(before, n) == Encode(before, n);
  }

  /** A seek may go past the end of a file; then the next read fails and delivers nothing. */
  lemma PastTheEnd(s: Stream, at: nat, n: nat)
    requires !s.failed && |s.data| <= at <= s.last && n > 0
    ensures var s' := SeekTo(s, at);
            !s'.failed && s'.pos == at && Available(s', n) == [] && AfterRead(s', n) == s'.(failed := true)
  {
  }

  /** A read that asks for more than is left delivers what is left, and fails. */
  lemma ShortRead(s: Stream, n: nat)
    requires !s.failed && s.pos <= |s.data| < s.pos + n
    ensures Available(s, n) == s.data[s.pos..] && AfterRead(s, n) == s.(pos := |s.data|, failed := true)
  {
  }

  /** A seek before the beginning or beyond the largest offset fails. */
  lemma SeekFails(s: Stream, offset: int)
    ensures !s.failed ==> (Seek(s, offset).failed <==> s.pos + offset < 0 || s.pos + offset > s.last)
    ensures Seek(s, offset).failed ==> Seek(s, offset).pos == s.pos
  {
  }

  /** A length of 2^63 or more is a seek backwards. */
  lemma HugeLength(n: nat)
    requires n < U64_LIMIT
    ensures SignedOffset(n) == if n < 0x8000_0000_0000_0000 then n else n - 0x1_0000_0000_0000_0000
  {
  }
}
