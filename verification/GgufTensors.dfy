/** The tensor tables of the two GGUF walkers and whole files. */
module GgufTensors {
  import opened Words
  import opened LittleEndian
  import opened GgufStream
  import opened GgufFile
  import Q4Reference

  datatype Tensor = Tensor(name: seq<byte>, dims: seq<nat>, kind: nat, offset: nat)

  predicate Fits(t: Tensor)
  {
    && |t.name| < U64_LIMIT && |t.dims| < U32_LIMIT
    && (forall d :: 0 <= d < |t.dims| ==> t.dims[d] < U64_LIMIT)
    && t.kind < U32_LIMIT && t.offset < U64_LIMIT
  }

  // ---- reading ----

  function Dims(s: Stream, n: nat): (r: (Stream, seq<nat>))
    decreases n
  {
    if n == 0 then (s, [])
    else var rest := Dims(AfterRead(s, 8), n - 1); (rest.0, [Word(s, 8, 0)] + rest.1)
  }

  /** A name of any length, as the benchmark tool reads it. */
  function AnyString(s: Stream): (Stream, seq<byte>)
  {
    var s', len := AfterRead(s, 8), Word(s, 8, 0);
    var got := Available(s', len);
    (AfterRead(s', len), got + seq(len - |got|, _ => 0))
  }

  function AfterName(named: (Stream, seq<byte>)): (Stream, Tensor)
  {
    var dims := Dims(AfterRead(named.0, 4), Word(named.0, 4, 0));
    var s := AfterRead(dims.0, 4);
    (AfterRead(s, 8), Tensor(named.1, dims.1, Word(dims.0, 4, 0), Word(s, 8, 0)))
  }

  function Table(s: Stream, n: nat): (Stream, seq<Tensor>)
    decreases n
  {
    if n == 0 then (s, [])
    else
      var t := AfterName(ReadString(s));
      var rest := Table(t.0, n - 1);
      (rest.0, [t.1] + rest.1)
  }

  /** The benchmark tool's search: the first entry with the name, and the stream behind it. */
  function Search(s: Stream, n: nat, target: seq<byte>): Option<(Stream, Tensor)>
    decreases n
  {
    if n == 0 then None
    else
      var t := AfterName(AnyString(s));
      if t.1.name == target then Some(t) else Search(t.0, n - 1, target)
  }

  lemma {:induction false} DimsSnoc(s: Stream, n: nat)
    ensures Dims(s, n + 1) ==
            (AfterRead(Dims(s, n).0, 8), Dims(s, n).1 + [Word(Dims(s, n).0, 8, 0)])
    decreases n
  {
    hide Word, AfterRead;
    var s' := AfterRead(s, 8);
    if n == 0 {
      assert Dims(s, 0) == (s, []) && Dims(s, 1) == (Dims(s', 0).0, [Word(s, 8, 0)] + Dims(s', 0).1);
      assert [Word(s, 8, 0)] + [] == [] + [Word(s, 8, 0)];
    } else {
      DimsSnoc(s', n - 1);
      var rest := Dims(s', n - 1);
      assert [Word(s, 8, 0)] + (rest.1 + [Word(rest.0, 8, 0)]) == ([Word(s, 8, 0)] + rest.1) + [Word(rest.0, 8, 0)];
    }
  }

  lemma {:induction false} TableSnoc(s: Stream, n: nat)
    ensures var t := AfterName(ReadString(Table(s, n).0));
            Table(s, n + 1) == (t.0, Table(s, n).1 + [t.1])
    decreases n
  {
    hide AfterName, ReadString;
    var first := AfterName(ReadString(s));
    if n == 0 {
      assert Table(s, 0) == (s, []) && Table(s, 1) == (Table(first.0, 0).0, [first.1] + Table(first.0, 0).1);
      assert [first.1] + [] == [] + [first.1];
    } else {
      TableSnoc(first.0, n - 1);
      var rest := Table(first.0, n - 1);
      var t := AfterName(ReadString(rest.0)).1;
      assert [first.1] + (rest.1 + [t]) == ([first.1] + rest.1) + [t];
    }
  }

  method ReadAfterName(f: Ifstream, name: seq<byte>) returns (t: Tensor)
    modifies f
    ensures var r := AfterName((old(f.State()), name)); f.State() == r.0 && t == r.1
  {
    hide Word, AfterRead;
    var n := f.ReadWord(4, 0);
    var dims := [];
    ghost var first := f.State();
    for d := 0 to n
      invariant Dims(first, d) == (f.State(), dims)
    {
      DimsSnoc(first, d);
      var dim := f.ReadWord(8, 0);
      dims := dims + [dim];
    }
    var kind := f.ReadWord(4, 0);
    var offset := f.ReadWord(8, 0);
    t := Tensor(name, dims, kind, offset);
  }

  /** The inventory tool's tensor loop. */
  method ReadTable(f: Ifstream, count: nat) returns (ts: seq<Tensor>)
    modifies f
    ensures Table(old(f.State()), count) == (f.State(), ts)
  {
    hide AfterName, ReadString;
    ts := [];
    ghost var first := f.State();
    for i := 0 to count
      invariant Table(first, i) == (f.State(), ts)
    {
      TableSnoc(first, i);
      var name := NextString(f);
      var t := ReadAfterName(f, name);
      ts := ts + [t];
    }
  }

  /** The benchmark tool's tensor loop. */
  method FindTensor(f: Ifstream, count: nat, target: seq<byte>) returns (found: Option<Tensor>)
    modifies f
    ensures var r := Search(old(f.State()), count, target);
            if r.None? then found.None? else found == Some(r.value.1) && f.State() == r.value.0
  {
    hide AfterName, Word, AfterRead;
    ghost var first := f.State();
    for i := 0 to count
      invariant Search(first, count, target) == Search(f.State(), count - i, target)
    {
      var len := f.ReadWord(8, 0);
      var got := f.ReadBytes(len);
      var t := ReadAfterName(f, got + seq(len - |got|, _ => 0));
      if t.name == target {
        return Some(t);
      }
    }
    found := None;
  }

  // ---- well-formed tables ----

  function EncodeDims(dims: seq<nat>): seq<byte>
  {
    if dims == [] then [] else Encode(dims[0], 8) + EncodeDims(dims[1..])
  }

  function EncodeTensor(t: Tensor): seq<byte>
  {
    EncodeText(t.name) + (Encode(|t.dims|, 4) + (EncodeDims(t.dims) + (Encode(t.kind, 4) + Encode(t.offset, 8))))
  }

  function EncodeTensors(ts: seq<Tensor>): seq<byte>
  {
    if ts == [] then [] else EncodeTensor(ts[0]) + EncodeTensors(ts[1..])
  }

  lemma {:induction false} DimsExact(s: Stream, dims: seq<nat>)
    requires At(s, EncodeDims(dims)) && forall d :: 0 <= d < |dims| ==> dims[d] < U64_LIMIT
    ensures Dims(s, |dims|) == (Moved(s, |EncodeDims(dims)|), dims)
    decreases |dims|
  {
    hide Word, Encode, Holds, AfterRead, Limit;
    Limits();
    if dims != [] {
      AtSplit(s, Encode(dims[0], 8), EncodeDims(dims[1..]));
      WordExact(s, dims[0], 8, 0);
      DimsExact(Moved(s, 8), dims[1..]);
      assert dims == [dims[0]] + dims[1..];
    }
  }

  /** Everything of an entry after its name comes back. */
  lemma AfterNameExact(s: Stream, t: Tensor)
    requires Fits(t)
    requires At(s, Encode(|t.dims|, 4) + (EncodeDims(t.dims) + (Encode(t.kind, 4) + Encode(t.offset, 8))))
    ensures AfterName((s, t.name)) == (Moved(s, 4 + |EncodeDims(t.dims)| + 12), t)
  {
    hide Word, Encode, Holds, AfterRead, Limit, Dims, EncodeDims;
    Limits();
    var tail := Encode(t.kind, 4) + Encode(t.offset, 8);
    AtSplit(s, Encode(|t.dims|, 4), EncodeDims(t.dims) + tail);
    WordExact(s, |t.dims|, 4, 0);
    var s1 := Moved(s, 4);
    AtSplit(s1, EncodeDims(t.dims), tail);
    DimsExact(s1, t.dims);
    var s2 := Moved(s1, |EncodeDims(t.dims)|);
    AtSplit(s2, Encode(t.kind, 4), Encode(t.offset, 8));
    WordExact(s2, t.kind, 4, 0);
    WordExact(Moved(s2, 4), t.offset, 8, 0);
  }

  lemma TensorExact(s: Stream, t: Tensor)
    requires Fits(t) && At(s, EncodeTensor(t))
    ensures AfterName(AnyString(s)) == (Moved(s, |EncodeTensor(t)|), t)
    ensures |t.name| <= 1_000_000 ==> AfterName(ReadString(s)) == (Moved(s, |EncodeTensor(t)|), t)
  {
    hide Word, Encode, Holds, AfterRead, Limit, EncodeDims, AfterName, ReadString, EncodeText, AnyString;
    var rest := Encode(|t.dims|, 4) + (EncodeDims(t.dims) + (Encode(t.kind, 4) + Encode(t.offset, 8)));
    AtSplit(s, EncodeText(t.name), rest);
    AfterNameExact(Moved(s, |EncodeText(t.name)|), t);
    AnyStringExact(s, t.name);
    ReadStringIff(s, t.name);
  }

  lemma AnyStringExact(s: Stream, text: seq<byte>)
    requires At(s, EncodeText(text)) && |text| < U64_LIMIT
    ensures AnyString(s) == (Moved(s, |EncodeText(text)|), text)
  {
    hide Word, Encode, Limit, Holds;
    Limits();
    AtSplit(s, Encode(|text|, 8), text);
    WordExact(s, |text|, 8, 0);
    ReadExact(Moved(s, 8), text);
    assert text + seq(0, _ => 0) == text;
  }

  /** The inventory tool recovers every name, dimension list, type and offset of a well-formed table. */
  lemma {:induction false} TableExact(s: Stream, ts: seq<Tensor>)
    requires At(s, EncodeTensors(ts))
    requires forall i :: 0 <= i < |ts| ==> Fits(ts[i]) && |ts[i].name| <= 1_000_000
    ensures Table(s, |ts|) == (Moved(s, |EncodeTensors(ts)|), ts)
    decreases |ts|
  {
    hide AfterName, ReadString, AnyString, EncodeTensor, Holds, Fits;
    if ts != [] {
      AtSplit(s, EncodeTensor(ts[0]), EncodeTensors(ts[1..]));
      TensorExact(s, ts[0]);
      TableExact(Moved(s, |EncodeTensor(ts[0])|), ts[1..]);
      assert ts == [ts[0]] + ts[1..];
    }
  }

  lemma FirstOf(ts: seq<Tensor>, n: nat)
    requires 0 < n <= |ts|
    ensures |EncodeTensors(ts[..n])| == |EncodeTensor(ts[0])| + |EncodeTensors(ts[1..][..n - 1])|
  {
    assert ts[..n][0] == ts[0] && ts[..n][1..] == ts[1..][..n - 1];
  }

  /** The benchmark tool finds the first entry with the name, whatever the names' lengths. */
  lemma {:induction false} SearchFindsFirst(s: Stream, ts: seq<Tensor>, target: seq<byte>) returns (at: nat)
    requires At(s, EncodeTensors(ts)) && forall i :: 0 <= i < |ts| ==> Fits(ts[i])
    ensures at <= |ts| && forall i :: 0 <= i < at ==> ts[i].name != target
    ensures at < |ts| ==>
      ts[at].name == target && Search(s, |ts|, target) == Some((Moved(s, |EncodeTensors(ts[..at + 1])|), ts[at]))
    ensures at == |ts| ==> Search(s, |ts|, target) == None
    decreases |ts|
  {
    hide AfterName, AnyString, EncodeTensor, Holds, Fits, ReadString;
    at := 0;
    if ts != [] {
      AtSplit(s, EncodeTensor(ts[0]), EncodeTensors(ts[1..]));
      TensorExact(s, ts[0]);
      if ts[0].name != target {
        var next := Moved(s, |EncodeTensor(ts[0])|);
        at := SearchFindsFirst(next, ts[1..], target);
        at := at + 1;
        if at < |ts| {
          FirstOf(ts, at + 1);
          assert Moved(next, |EncodeTensors(ts[1..][..at])|) == Moved(s, |EncodeTensors(ts[..at + 1])|);
        }
      } else {
        FirstOf(ts, 1);
      }
    }
  }

  // ---- whole files ----

  const GGUF: seq<byte> := [0x47, 0x47, 0x55, 0x46]

  function EncodeFile(version: nat, es: seq<Entry>, ts: seq<Tensor>): seq<byte>
  {
    [0x47, 0x47, 0x55, 0x46] +
    (Encode(version, 4) + (Encode(|ts|, 8) + (Encode(|es|, 8) + (EncodeEntries(es) + EncodeTensors(ts)))))
  }

  /** BadMagic: refused.  Exhausted: the stack ran out. */
  datatype Outcome<T> = BadMagic | Exhausted | Done(result: T)

  datatype Inventory = Inventory(version: nat, info: Info, tensors: seq<Tensor>)

  predicate Begins(s: Stream) { Available(s, 4) == GGUF }

  /** Position, version, tensor count and entry count after the file header. */
  function Preamble(s: Stream): (Stream, nat, nat, nat)
  {
    var s1 := AfterRead(s, 4);
    var s2 := AfterRead(s1, 4);
    var s3 := AfterRead(s2, 8);
    (AfterRead(s3, 8), Word(s1, 4, 0), Word(s2, 8, 0), Word(s3, 8, 0))
  }

  function ListFile(s: Stream, depth: nat): Outcome<Inventory>
  {
    if !Begins(s) then BadMagic
    else
      var p := Preamble(s);
      var meta := Entries(p.0, p.3, UNKNOWN, depth);
      if meta.None? then Exhausted else Done(Inventory(p.1, meta.value.1, Table(meta.value.0, p.2).1))
  }

  // The benchmark tool goes on to load the tensor.

  datatype Loaded = Loaded(N: nat, K: nat, data: seq<byte>)

  /** The next multiple of 32, in 64 bits. */
  function AlignUp(n: nat): nat { (n + 31) % U64_LIMIT / 32 * 32 }

  function DataBytes(t: Tensor): nat
    requires |t.dims| == 2
  {
    t.dims[1] * (t.dims[0] / 32) * 18
  }

  /** What follows the search: only tensors of two dimensions are loaded, from behind the entry found. */
  function Load(found: Option<(Stream, Tensor)>): Option<Loaded>
  {
    if found.None? || |found.value.1.dims| != 2 then None
    else
      var (s, t) := found.value;
      var s' := SeekTo(s, SignedOffset((AlignUp(Tell(s)) + t.offset) % U64_LIMIT));
      var n := DataBytes(t) % U64_LIMIT;
      var got := Available(s', n);
      Some(Loaded(t.dims[1], t.dims[0], got + seq(n - |got|, _ => 0)))
  }

  function LookUp(s: Stream, target: seq<byte>, depth: nat): Outcome<Option<Loaded>>
  {
    if !Begins(s) then BadMagic
    else
      var p := Preamble(s);
      var meta := BareEntries(p.0, p.3, depth);
      if meta.None? then Exhausted else Done(Load(Search(meta.value, p.2, target)))
  }

  method ReadPreamble(f: Ifstream) returns (ok: bool, version: nat, tensors: nat, entries: nat)
    modifies f
    ensures ok == Begins(old(f.State()))
    ensures ok ==> (f.State(), version, tensors, entries) == Preamble(old(f.State()))
  {
    hide Word, AfterRead, Available;
    version, tensors, entries := 0, 0, 0;
    var magic := f.ReadBytes(4);
    ok := magic == GGUF;
    if ok {
      version := f.ReadWord(4, 0);
      tensors := f.ReadWord(8, 0);
      entries := f.ReadWord(8, 0);
    }
  }

  method ListGguf(f: Ifstream, depth: nat) returns (r: Outcome<Inventory>)
    modifies f
    ensures r == ListFile(old(f.State()), depth)
  {
    hide Begins, Preamble, Entries, Table;
    var ok, version, tensors, entries := ReadPreamble(f);
    if !ok {
      return BadMagic;
    }
    var understood, info := ReadMetadata(f, entries, depth);
    if !understood {
      return Exhausted;
    }
    var ts := ReadTable(f, tensors);
    return Done(Inventory(version, info, ts));
  }

  /** `load_gguf_tensor`. */
  method LoadGgufTensor(f: Ifstream, target: seq<byte>, depth: nat) returns (r: Outcome<Option<Loaded>>)
    modifies f
    ensures r == LookUp(old(f.State()), target, depth)
  {
    hide Begins, Preamble, BareEntries, Search, Available, SignedOffset, DataBytes;
    var ok, version, tensors, entries := ReadPreamble(f);
    if !ok {
      return BadMagic;
    }
    var skipped := SkipMetadata(f, entries, depth);
    if !skipped {
      return Exhausted;
    }
    var found := FindTensor(f, tensors, target);
    if found.None? || |found.value.dims| != 2 {
      return Done(None);
    }
    var pos := f.Tellg();
    var dataStart := (pos + 31) % U64_LIMIT / 32 * 32;
    var n := DataBytes(found.value) % U64_LIMIT;
    f.SeekgTo(SignedOffset((dataStart + found.value.offset) % U64_LIMIT));
    var got := f.ReadBytes(n);
    return Done(Some(Loaded(found.value.dims[1], found.value.dims[0], got + seq(n - |got|, _ => 0))));
  }

  lemma PreambleExact(s: Stream, version: nat, es: seq<Entry>, ts: seq<Tensor>)
    requires At(s, EncodeFile(version, es, ts))
    requires version < U32_LIMIT && |es| < U64_LIMIT && |ts| < U64_LIMIT
    ensures Begins(s) && Preamble(s) == (Moved(s, 24), version, |ts|, |es|)
    ensures At(Moved(s, 24), EncodeEntries(es)) && At(Moved(s, 24 + |EncodeEntries(es)|), EncodeTensors(ts))
  {
    hide Word, Encode, Holds, AfterRead, Limit, EncodeEntries, EncodeTensors, Available;
    Limits();
    var body := EncodeEntries(es) + EncodeTensors(ts);
    var s1, s2, s3 := Moved(s, 4), Moved(s, 8), Moved(s, 16);
    AtSplit(s, GGUF, Encode(version, 4) + (Encode(|ts|, 8) + (Encode(|es|, 8) + body)));
    ReadExact(s, GGUF);
    AtSplit(s1, Encode(version, 4), Encode(|ts|, 8) + (Encode(|es|, 8) + body));
    WordExact(s1, version, 4, 0);
    AtSplit(s2, Encode(|ts|, 8), Encode(|es|, 8) + body);
    WordExact(s2, |ts|, 8, 0);
    AtSplit(s3, Encode(|es|, 8), body);
    WordExact(s3, |es|, 8, 0);
    AtSplit(Moved(s, 24), EncodeEntries(es), EncodeTensors(ts));
  }

  /** Listing a well-formed file gives back everything that was written into it. */
  lemma FileRoundTrip(s: Stream, version: nat, es: seq<Entry>, ts: seq<Tensor>, depth: nat)
    requires At(s, EncodeFile(version, es, ts))
    requires version < U32_LIMIT && |es| < U64_LIMIT && |ts| < U64_LIMIT
    requires forall k :: 0 <= k < |es| ==> GoodEntry(es[k], depth) && Readable(es[k])
    requires forall i :: 0 <= i < |ts| ==> Fits(ts[i]) && |ts[i].name| <= 1_000_000
    ensures ListFile(s, depth) == Done(Inventory(version, UnderstoodAll(UNKNOWN, es), ts))
  {
    hide Begins, Preamble, Entries, Table, EncodeFile, EncodeEntries, EncodeTensors, Holds, BareEntries,
      GoodEntry, Readable, Fits, UnderstoodAll;
    PreambleExact(s, version, es, ts);
    MetadataExact(Moved(s, 24), es, UNKNOWN, depth);
    TableExact(Moved(s, 24 + |EncodeEntries(es)|), ts);
  }

  /** Where the entries of a file up to entry `at` end. */
  function EndOfEntries(version: nat, es: seq<Entry>, ts: seq<Tensor>, at: nat): nat
    requires at <= |ts|
  {
    24 + |EncodeEntries(es)| + |EncodeTensors(ts[..at])|
  }

  /** Both tools see the same table: what is loaded under a name is loaded for the first tensor of the listing with
    that name, from the place behind its entry. */
  lemma ToolsAgree(s: Stream, version: nat, es: seq<Entry>, ts: seq<Tensor>, target: seq<byte>, depth: nat)
    returns (at: nat)
    requires At(s, EncodeFile(version, es, ts))
    requires version < U32_LIMIT && |es| < U64_LIMIT && |ts| < U64_LIMIT
    requires forall k :: 0 <= k < |es| ==> GoodEntry(es[k], depth)
    requires forall i :: 0 <= i < |ts| ==> Fits(ts[i])
    ensures at <= |ts| && forall i :: 0 <= i < at ==> ts[i].name != target
    ensures at < |ts| ==> ts[at].name == target
    ensures LookUp(s, target, depth) ==
            Done(Load(if at < |ts| then Some((Moved(s, EndOfEntries(version, es, ts, at + 1)), ts[at])) else None))
  {
    hide Begins, Preamble, BareEntries, Search, EncodeFile, EncodeEntries, EncodeTensors, Holds, GoodEntry, Fits, Load;
    PreambleExact(s, version, es, ts);
    BareMetadataExact(Moved(s, 24), es, depth);
    at := SearchFindsFirst(Moved(s, 24 + |EncodeEntries(es)|), ts, target);
  }

  // ---- the tensor data ----

  /** A file: the tables, zeros up to the next multiple of 32, and the tensors' data. */
  function WholeFile(head: seq<byte>, section: seq<byte>): seq<byte>
  {
    head + seq(Spare(|head|), _ => 0) + section
  }

  /** The bytes between `n` and the next multiple of 32. */
  function Spare(n: nat): (s: nat)
    ensures s < 32 && (n + s) % 32 == 0
  {
    (n + 31) / 32 * 32 - n
  }

  lemma {:induction false} TensorsSplit(ts: seq<Tensor>, at: nat)
    requires at <= |ts|
    ensures |EncodeTensors(ts)| == |EncodeTensors(ts[..at])| + |EncodeTensors(ts[at..])|
    decreases |ts|
  {
    if at != 0 {
      FirstOf(ts, at);
      TensorsSplit(ts[1..], at - 1);
      assert ts[1..][at - 1..] == ts[at..];
    } else {
      assert ts[at..] == ts;
    }
  }

  lemma HeadLength(version: nat, es: seq<Entry>, ts: seq<Tensor>, at: nat)
    requires at <= |ts|
    ensures |EncodeFile(version, es, ts)| == EndOfEntries(version, es, ts, at) + |EncodeTensors(ts[at..])|
  {
    hide EncodeEntries, EncodeTensors, Encode;
    TensorsSplit(ts, at);
  }

  /** Aligning the end of an entry gives the start of the data exactly when what follows the entry fits before the
    next multiple of 32. */
  lemma AlignedIff(p: nat, h: nat)
    requires p <= h
    ensures p + Spare(p) <= h + Spare(h) && (p + Spare(p) == h + Spare(h) <==> h - p <= Spare(p))
  {
    var i, j := (p + 31) / 32, (h + 31) / 32;
    assert 32 * i < p + 32 && 32 * j < h + 32;
  }

  /** Small sums are the same in 64 bits. */
  lemma InRange(p: nat, offset: nat)
    requires p + 31 < U64_LIMIT && p + Spare(p) + offset < 0x8000_0000_0000_0000
    ensures SignedOffset((AlignUp(p) + offset) % U64_LIMIT) == p + Spare(p) + offset
  {
    assert (p + 31) % U64_LIMIT == p + 31;
    var v := p + Spare(p) + offset;
    assert v % U64_LIMIT == v;
  }

  /** Loading takes the bytes that lie the tensor's offset behind the aligned end of its entry. */
  lemma LoadReads(s: Stream, t: Tensor)
    requires !s.failed && s.pos + 31 < U64_LIMIT && |t.dims| == 2
    requires s.pos + Spare(s.pos) + t.offset + DataBytes(t) <= |s.data| <= s.last < 0x8000_0000_0000_0000
    ensures var start := s.pos + Spare(s.pos) + t.offset;
            Load(Some((s, t))) == Some(Loaded(t.dims[1], t.dims[0], s.data[start..start + DataBytes(t)]))
  {
    hide DataBytes, Spare, AlignUp, SignedOffset;
    InRange(s.pos, t.offset);
    var start, n := s.pos + Spare(s.pos) + t.offset, DataBytes(t);
    assert n % U64_LIMIT == n;
    var got := s.data[start..start + n];
    ReadExact(s.(pos := start), got) by {
      assert |got| == n;
    }
    assert got + seq(0, _ => 0) == got;
  }

  /** The data section covers the tensor's own bytes. */
  predicate Covers(t: Tensor, section: seq<byte>)
    requires |t.dims| == 2
  {
    t.offset + DataBytes(t) <= |section|
  }

  /** Looking the tensor's name up from the beginning of the file loads the tensor's own bytes. */
  predicate LoadsOwn(head: seq<byte>, section: seq<byte>, last: nat, t: Tensor, depth: nat)
    requires |t.dims| == 2 && Covers(t, section)
  {
    LookUp(Stream(WholeFile(head, section), last, 0, false), t.name, depth) ==
    Done(Some(Loaded(t.dims[1], t.dims[0], section[t.offset..t.offset + DataBytes(t)])))
  }

  /** A data section that differs from what lies before it at the places compared. */
  lemma TellingSection(head: seq<byte>, start: nat, offset: nat, n: nat) returns (section: seq<byte>)
    requires start < |head| + Spare(|head|) && 0 < n
    ensures |section| == offset + n && WholeFile(head, section)[start + offset] != section[offset]
  {
    var front := head + seq(Spare(|head|), _ => 0);
    var mark := if start + offset < |front| && front[start + offset] == 1 then 2 else 1;
    var zeros: seq<byte> := seq(offset + n, _ => 0);
    section := zeros[offset := mark];
    assert WholeFile(head, section) == front + section;
    if start + offset >= |front| {
      assert (front + section)[start + offset] == section[start + offset - |front|];
    }
  }

  /** The tensor's table and name are well formed and it is the first of its name. */
  ghost predicate FoundAt(version: nat, es: seq<Entry>, ts: seq<Tensor>, at: nat, depth: nat)
  {
    && version < U32_LIMIT && |es| < U64_LIMIT && |ts| < U64_LIMIT
    && (forall k :: 0 <= k < |es| ==> GoodEntry(es[k], depth))
    && (forall i :: 0 <= i < |ts| ==> Fits(ts[i]))
    && at < |ts| && |ts[at].dims| == 2
    && forall i :: 0 <= i < at ==> ts[i].name != ts[at].name
  }

  lemma LoadedFrom(version: nat, es: seq<Entry>, ts: seq<Tensor>, at: nat, depth: nat, section: seq<byte>, last: nat)
    requires FoundAt(version, es, ts, at, depth) && Covers(ts[at], section)
    requires |WholeFile(EncodeFile(version, es, ts), section)| <= last < 0x8000_0000_0000_0000
    ensures var head, t := EncodeFile(version, es, ts), ts[at];
            var file, end := WholeFile(head, section), EndOfEntries(version, es, ts, at + 1);
            var start := end + Spare(end) + t.offset;
            start + DataBytes(t) <= |file| &&
            LookUp(Stream(file, last, 0, false), t.name, depth) ==
            Done(Some(Loaded(t.dims[1], t.dims[0], file[start..start + DataBytes(t)])))
  {
    hide EncodeFile, LookUp, Load, DataBytes, EncodeEntries, EncodeTensors, GoodEntry, Fits;
    var head, t := EncodeFile(version, es, ts), ts[at];
    var s := Stream(WholeFile(head, section), last, 0, false);
    var end := EndOfEntries(version, es, ts, at + 1);
    assert s.data[..|head|] == head;
    var found := ToolsAgree(s, version, es, ts, t.name, depth);
    assert found == at;
    HeadLength(version, es, ts, at + 1);
    AlignedIff(end, |head|);
    LoadReads(Moved(s, end), t);
  }

  /** The benchmark tool loads the tensor's own bytes, whatever the data, exactly when there are none or the table
    entries behind the tensor's fit before the next multiple of 32; with dimensions in every entry, exactly for the
    last. */
  lemma LoadsOwnDataIff(version: nat, es: seq<Entry>, ts: seq<Tensor>, at: nat, depth: nat, last: nat)
    requires FoundAt(version, es, ts, at, depth)
    requires var h := |EncodeFile(version, es, ts)|;
             h + Spare(h) + ts[at].offset + DataBytes(ts[at]) <= last < 0x8000_0000_0000_0000
    ensures var head, behind := EncodeFile(version, es, ts), |EncodeTensors(ts[at + 1..])|;
            (forall section :: Covers(ts[at], section) && |WholeFile(head, section)| <= last ==>
               LoadsOwn(head, section, last, ts[at], depth)) <==>
            DataBytes(ts[at]) == 0 || behind <= Spare(EndOfEntries(version, es, ts, at + 1))
    ensures (forall i :: 0 <= i < |ts| ==> ts[i].dims != []) ==>
            (|EncodeTensors(ts[at + 1..])| <= Spare(EndOfEntries(version, es, ts, at + 1)) <==> at + 1 == |ts|)
  {
    hide EncodeFile, LookUp, DataBytes, EncodeTensors, FoundAt, EndOfEntries;
    FoundHere(version, es, ts, at, depth);
    var head, t, end := EncodeFile(version, es, ts), ts[at], EndOfEntries(version, es, ts, at + 1);
    HeadLength(version, es, ts, at + 1);
    AlignedIff(end, |head|);
    var start := end + Spare(end);
    if DataBytes(t) == 0 || start == |head| + Spare(|head|) {
      forall section | Covers(t, section) && |WholeFile(head, section)| <= last
        ensures LoadsOwn(head, section, last, t, depth)
      {
        LoadedFrom(version, es, ts, at, depth, section, last);
        SameBytes(head, section, start, t.offset, DataBytes(t));
      }
    } else {
      var section := TellingSection(head, start, t.offset, DataBytes(t));
      LoadedFrom(version, es, ts, at, depth, section, last);
      var file := WholeFile(head, section);
      assert file[start + t.offset..start + t.offset + DataBytes(t)][0] !=
             section[t.offset..t.offset + DataBytes(t)][0];
      assert !LoadsOwn(head, section, last, t, depth);
    }
    if forall i :: 0 <= i < |ts| ==> ts[i].dims != [] {
      LongEntries(ts, at + 1);
    }
  }

  lemma FoundHere(version: nat, es: seq<Entry>, ts: seq<Tensor>, at: nat, depth: nat)
    requires FoundAt(version, es, ts, at, depth)
    ensures at < |ts| && |ts[at].dims| == 2
  {
  }

  lemma SameBytes(head: seq<byte>, section: seq<byte>, start: nat, offset: nat, n: nat)
    requires n == 0 || start == |head| + Spare(|head|)
    requires offset + n <= |section| && start + offset + n <= |WholeFile(head, section)|
    ensures WholeFile(head, section)[start + offset..start + offset + n] == section[offset..offset + n]
  {
  }

  lemma LongEntries(ts: seq<Tensor>, from: nat)
    requires from <= |ts| && forall i :: 0 <= i < |ts| ==> ts[i].dims != []
    ensures from < |ts| ==> |EncodeTensors(ts[from..])| >= 32
    ensures from == |ts| ==> EncodeTensors(ts[from..]) == []
  {
    if from < |ts| {
      assert ts[from..][0] == ts[from];
      assert |EncodeDims(ts[from].dims)| >= 8;
    }
  }

  /** The bytes loaded are those that the Q4_0 reference requires of a matrix of this shape, and no others. */
  lemma LoadedBytes(t: Tensor)
    requires |t.dims| == 2
    ensures DataBytes(t) == t.dims[1] * Q4Reference.RowBytes(t.dims[0])
    ensures t.dims[0] % 32 == 0 && DataBytes(t) < U64_LIMIT && t.dims[0] / 32 * 18 < U64_LIMIT ==>
            Q4Reference.ValidateMatrix(t.dims[1], t.dims[0], DataBytes(t)).Ok?
  {
    Q4Reference.MatrixAcceptedIff(t.dims[1], t.dims[0], DataBytes(t));
    assert t.dims[1] * (t.dims[0] / 32) * 18 == t.dims[1] * (t.dims[0] / 32 * 18);
  }

  /** Only a tensor of two dimensions is loaded, its first being K and its second N; the buffer has its byte count,
    and what the file does not have is zero. */
  lemma LoadedShape(found: Option<(Stream, Tensor)>)
    ensures Load(found).Some? <==> found.Some? && |found.value.1.dims| == 2
    ensures Load(found).Some? ==>
              var t, l := found.value.1, Load(found).value;
              l.K == t.dims[0] && l.N == t.dims[1] && |l.data| == DataBytes(t) % U64_LIMIT
    ensures found.Some? && found.value.0.failed && Load(found).Some? ==>
              forall i :: 0 <= i < |Load(found).value.data| ==> Load(found).value.data[i] == 0
  {
    hide DataBytes, AlignUp, SignedOffset;
  }
}
