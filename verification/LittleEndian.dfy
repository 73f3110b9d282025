/** Little-endian words in a byte vector: the readers of the Gate-1 validator and the writers of its
  test fixture.  The readers' `|` of shifted bytes is written as a sum, since the bytes do not overlap. */
module LittleEndian {
  import opened Words
  import opened NamedArithmetic

  /** 256 to the power `n`: what `1 << (8 * n)` is. */
  function Limit(n: nat): (r: nat)
    ensures r >= 1
  {
    if n == 0 then 1 else 256 * Limit(n - 1)
  }

  function Encode(v: nat, n: nat): (r: seq<byte>)
    ensures |r| == n
  {
    if n == 0 then [] else [v % 256] + Encode(v / 256, n - 1)
  }

  function Decode(b: seq<byte>): nat
  {
    if b == [] then 0 else b[0] + 256 * Decode(b[1..])
  }

  lemma {:induction false} DecodeEncode(v: nat, n: nat)
    requires v < Limit(n)
    ensures Decode(Encode(v, n)) == v
  {
    if n != 0 {
      DecodeEncode(v / 256, n - 1);
      assert Encode(v, n)[1..] == Encode(v / 256, n - 1);
    }
  }

  lemma {:induction false} EncodeDecode(b: seq<byte>)
    ensures Decode(b) < Limit(|b|) && Encode(Decode(b), |b|) == b
  {
    if b != [] {
      EncodeDecode(b[1..]);
      var d := Decode(b[1..]);
      assert (b[0] + 256 * d) % 256 == b[0] && (b[0] + 256 * d) / 256 == d;
      assert b == [b[0]] + b[1..];
    }
  }

  lemma {:induction false} DecodeSnoc(b: seq<byte>, x: byte)
    ensures Decode(b + [x]) == Decode(b) + x as int * Limit(|b|)
  {
    if b == [] {
      assert [x][1..] == [];
    } else {
      DecodeSnoc(b[1..], x);
      assert (b + [x])[1..] == b[1..] + [x];
      var l := Limit(|b| - 1);
      assert 256 * (x * l) == x * (256 * l);
    }
  }

  lemma {:induction false} EncodedByte(v: nat, n: nat, k: nat)
    requires k < n
    ensures Encode(v, n)[k] == v / Limit(k) % 256
  {
    if k != 0 {
      EncodedByte(v / 256, n - 1, k - 1);
      DivDiv(v, Limit(k - 1));
    }
  }

  lemma DivDiv(v: nat, l: nat)
    requires l > 0
    ensures v / 256 / l == v / (256 * l)
  {
    var q := v / 256 / l;
    var r := v / 256 - q * l;
    assert 0 <= r < l by {
      assert v / 256 == q * l + v / 256 % l;
    }
    var s := v - 256 * (q * l + r);
    assert 0 <= s < 256;
    assert v == q * (256 * l) + (256 * r + s);
    Unique(v, 256 * l, q, 256 * r + s);
  }

  // ---- readers ----

  function ReadU16(image: seq<byte>, at: nat): (value: u16)
    requires at + 2 <= |image|
    ensures value == Decode(image[at..at + 2])
  {
    DecodeSnoc(image[at..at + 1], image[at + 1]);
    assert image[at..at + 2] == image[at..at + 1] + [image[at + 1]];
    var lo: int, hi: int := image[at], image[at + 1];
    lo + hi * 0x100
  }

  function ReadU32(image: seq<byte>, at: nat): (value: u32)
    requires at + 4 <= |image|
    ensures value == Decode(image[at..at + 4])
  {
    DecodeFour(image[at], image[at + 1], image[at + 2], image[at + 3]);
    assert image[at..at + 4] == [image[at], image[at + 1], image[at + 2], image[at + 3]];
    var a: int, b: int, c: int, d: int := image[at], image[at + 1], image[at + 2], image[at + 3];
    a + b * 0x100 + c * 0x1_0000 + d * 0x100_0000
  }

  lemma DecodeFour(a: byte, b: byte, c: byte, d: byte)
    ensures Decode([a, b, c, d]) == a as int + b as int * 0x100 + c as int * 0x1_0000 + d as int * 0x100_0000
  {
    assert [a, b, c, d][1..] == [b, c, d] && [b, c, d][1..] == [c, d] && [c, d][1..] == [d] && [d][1..] == [];
    assert Decode([d]) == d;
    assert Decode([c, d]) == c as int + 0x100 * d as int;
    assert Decode([b, c, d]) == b as int + 0x100 * Decode([c, d]);
  }

  // ---- the words written out ----

  function Word16(image: seq<byte>, at: nat): (v: nat)
    requires at + 2 <= |image|
  {
    image[at] as int + 0x100 * image[at + 1] as int
  }

  function Word32(image: seq<byte>, at: nat): (v: nat)
    requires at + 4 <= |image|
  {
    image[at] as int + 0x100 * image[at + 1] as int +
    0x1_0000 * image[at + 2] as int + 0x100_0000 * image[at + 3] as int
  }

  function Word64(image: seq<byte>, at: nat): (v: nat)
    requires at + 8 <= |image|
  {
    Word32(image, at) + 0x1_0000_0000 * Word32(image, at + 4)
  }

  /** The readers give the words with the lowest byte first. */
  lemma WordsRead(image: seq<byte>, at: nat)
    ensures at + 2 <= |image| ==> ReadU16(image, at) == Word16(image, at)
    ensures at + 4 <= |image| ==> ReadU32(image, at) == Word32(image, at)
    ensures at + 8 <= |image| ==> U64At(image, at) == Word64(image, at)
  {
    if at + 8 <= |image| {
      hide U64At;
      U64Bytes(image, at);
    }
  }

  lemma U64Bytes(image: seq<byte>, at: nat)
    requires at + 8 <= |image|
    ensures U64At(image, at) == Word64(image, at)
  {
    var b := image[at..at + 8];
    assert b[1..] == image[at + 1..at + 8];
    DecodeFour(image[at + 4], image[at + 5], image[at + 6], image[at + 7]);
    var upper := image[at + 4..at + 8];
    assert upper == [image[at + 4], image[at + 5], image[at + 6], image[at + 7]];
    DecodeNext(image, at, at + 8);
    DecodeNext(image, at + 1, at + 8);
    DecodeNext(image, at + 2, at + 8);
    DecodeNext(image, at + 3, at + 8);
  }

  lemma DecodeNext(image: seq<byte>, at: nat, to: nat)
    requires at < to <= |image|
    ensures Decode(image[at..to]) == image[at] as int + 256 * Decode(image[at + 1..to])
  {
    assert image[at..to][1..] == image[at + 1..to];
  }

  function U64At(image: seq<byte>, at: nat): u64
    requires at + 8 <= |image|
  {
    EncodeDecode(image[at..at + 8]);
    assert Limit(8) == U64_LIMIT;
    Decode(image[at..at + 8])
  }

  method ReadU64(image: seq<byte>, at: nat) returns (value: u64)
    requires at + 8 <= |image|
    ensures value == U64At(image, at)
  {
    var sum: nat := 0;
    for i := 0 to 8
      invariant sum == Decode(image[at..at + i])
    {
      DecodeSnoc(image[at..at + i], image[at + i]);
      assert image[at..at + i + 1] == image[at..at + i] + [image[at + i]];
      sum := sum + image[at + i] as int * Limit(i);
    }
    assert sum == U64At(image, at);
    value := sum;
  }

  // ---- placing bytes ----

  /** `piece` stands at `at`. */
  predicate Holds(image: seq<byte>, at: nat, piece: seq<byte>)
  {
    at + |piece| <= |image| && image[at..at + |piece|] == piece
  }

  function Put(image: seq<byte>, at: nat, piece: seq<byte>): (r: seq<byte>)
    requires at + |piece| <= |image|
    ensures |r| == |image| && Holds(r, at, piece)
  {
    image[..at] + piece + image[at + |piece|..]
  }

  predicate Apart(at: nat, n: nat, other: nat, m: nat) { at + n <= other || other + m <= at }

  /** Writing one piece leaves a piece elsewhere as it was. */
  lemma PutKeeps(image: seq<byte>, at: nat, piece: seq<byte>, other: nat, kept: seq<byte>)
    requires at + |piece| <= |image| && Holds(image, other, kept) && Apart(at, |piece|, other, |kept|)
    ensures Holds(Put(image, at, piece), other, kept)
  {
  }

  lemma AppendKeeps(image: seq<byte>, more: seq<byte>, other: nat, kept: seq<byte>)
    requires Holds(image, other, kept)
    ensures Holds(image + more, other, kept)
    ensures Holds(image + more, |image|, more)
  {
  }

  /** A word written is the word read. */
  lemma HeldWords(image: seq<byte>, at: nat, v: nat)
    ensures Holds(image, at, Encode(v, 2)) && v < 0x1_0000 ==> ReadU16(image, at) == v
    ensures Holds(image, at, Encode(v, 4)) && v < U32_LIMIT ==> ReadU32(image, at) == v
    ensures Holds(image, at, Encode(v, 8)) && v < U64_LIMIT ==> U64At(image, at) == v
  {
    assert Limit(2) == 0x1_0000 && Limit(4) == U32_LIMIT && Limit(8) == U64_LIMIT;
    if v < Limit(2) {
      DecodeEncode(v, 2);
    }
    if v < Limit(4) {
      DecodeEncode(v, 4);
    }
    if v < Limit(8) {
      DecodeEncode(v, 8);
    }
  }

  /** The `std::vector<std::uint8_t>` the fixture is built in. */
  class ByteVector {
    var bytes: seq<byte>

    constructor (size: nat)
      ensures bytes == seq(size, _ => 0)
    {
      bytes := seq(size, _ => 0);
    }

    method PutU16(at: nat, value: u16)
      requires at + 2 <= |bytes|
      modifies this
      ensures bytes == Put(old(bytes), at, Encode(value, 2))
    {
      bytes := bytes[at := value % 256];
      bytes := bytes[at + 1 := value / 256];
      assert Encode(value, 2) == [value % 256, value / 256];
    }

    /** The loop of `put_u32` and `put_u64`. */
    method PutWord(at: nat, value: nat, n: nat)
      requires at + n <= |bytes|
      modifies this
      ensures bytes == Put(old(bytes), at, Encode(value, n))
    {
      for i := 0 to n
        invariant |bytes| == |old(bytes)|
        invariant bytes == Put(old(bytes), at, Encode(value, n)[..i])
      {
        EncodedByte(value, n, i);
        assert Encode(value, n)[..i + 1] == Encode(value, n)[..i] + [Encode(value, n)[i]];
        bytes := bytes[at + i := value / Limit(i) % 256];
      }
      assert Encode(value, n)[..n] == Encode(value, n);
    }

    /** Copying a text or magic number into place, one byte at a time. */
    method PutBytes(at: nat, piece: seq<byte>)
      requires at + |piece| <= |bytes|
      modifies this
      ensures bytes == Put(old(bytes), at, piece)
    {
      for i := 0 to |piece|
        invariant |bytes| == |old(bytes)|
        invariant bytes == Put(old(bytes), at, piece[..i])
      {
        bytes := bytes[at + i := piece[i]];
      }
      assert piece[..|piece|] == piece;
    }

    /** `image.insert(image.end(), ...)`. */
    method Append(piece: seq<byte>)
      modifies this
      ensures bytes == old(bytes) + piece
    {
      bytes := bytes + piece;
    }
  }
}
