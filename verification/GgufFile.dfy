/** The metadata loops of the two GGUF walkers: the inventory tool's, with its special keys, and the benchmark
  tool's bare skipper.  `GgufTensors` goes on to their tensor tables. */
module GgufFile {
  import opened Words
  import opened LittleEndian
  import opened GgufStream

  function Ascii(s: string): seq<byte> { seq(|s|, i requires 0 <= i < |s| => s[i] as int % 256) }

  const TEXT_LIMIT := 1_000_000
  const UINT32 := 4

  /** `read_string`: a text over the limit is not consumed and reads as empty. */
  function ReadString(s: Stream): (r: (Stream, seq<byte>))
  {
    var s', len := AfterRead(s, 8), Word(s, 8, 0);
    if s'.failed || len > TEXT_LIMIT then (s', [])
    else var got := Available(s', len); (AfterRead(s', len), got + seq(len - |got|, _ => 0))
  }

  // ---- metadata, as the inventory tool reads it ----

  datatype Info = Info(arch: seq<byte>, blocks: nat, embedding: nat, feedForward: nat, heads: nat, headsKv: nat)

  const UNKNOWN := Info(Ascii("unknown"), 0, 0, 0, 0, 0)

  datatype Field = Arch | Blocks | Embedding | FeedForward | Heads | HeadsKv | Other

  /** Which variable an entry goes to, given the architecture name read so far. */
  function FieldOf(key: seq<byte>, t: nat, arch: seq<byte>): Field
  {
    if key == Ascii("general.architecture") && t == STRING then Arch
    else if t != UINT32 then Other
    else if key == arch + Ascii(".block_count") || key == Ascii("general.block_count") then Blocks
    else if key == arch + Ascii(".embedding_length") || key == Ascii("general.embedding_length") then Embedding
    else if key == arch + Ascii(".feed_forward_length") || key == Ascii("general.feed_forward_length") then FeedForward
    else if key == arch + Ascii(".attention.head_count") then Heads
    else if key == arch + Ascii(".attention.head_count_kv") then HeadsKv
    else Other
  }

  function Number(i: Info, field: Field): nat
  {
    match field
    case Blocks => i.blocks
    case Embedding => i.embedding
    case FeedForward => i.feedForward
    case Heads => i.heads
    case HeadsKv => i.headsKv
    case _ => 0
  }

  function WithNumber(i: Info, field: Field, n: nat): Info
  {
    match field
    case Blocks => i.(blocks := n)
    case Embedding => i.(embedding := n)
    case FeedForward => i.(feedForward := n)
    case Heads => i.(heads := n)
    case HeadsKv => i.(headsKv := n)
    case _ => i
  }

  function ValueStep(s: Stream, key: seq<byte>, t: nat, i: Info, depth: nat): Option<(Stream, Info)>
  {
    match FieldOf(key, t, i.arch)
    case Arch => var r := ReadString(s); Some((r.0, i.(arch := r.1)))
    case Other => var end := Skip(s, t, depth); if end.None? then None else Some((end.value, i))
    case field => Some((AfterRead(s, 4), WithNumber(i, field, Word(s, 4, Number(i, field)))))
  }

  function EntryStep(s: Stream, i: Info, depth: nat): Option<(Stream, Info)>
  {
    var key := ReadString(s);
    ValueStep(AfterRead(key.0, 4), key.1, Word(key.0, 4, 0), i, depth)
  }

  function Entries(s: Stream, n: nat, i: Info, depth: nat): Option<(Stream, Info)>
    decreases n
  {
    if n == 0 then Some((s, i))
    else
      var r := EntryStep(s, i, depth);
      if r.None? then None else Entries(r.value.0, n - 1, r.value.1, depth)
  }

  method NextString(f: Ifstream) returns (text: seq<byte>)
    modifies f
    ensures f.State() == ReadString(old(f.State())).0 && text == ReadString(old(f.State())).1
  {
    hide Word, Available;
    var len := f.ReadWord(8, 0);
    if f.failed || len > TEXT_LIMIT {
      return [];
    }
    var got := f.ReadBytes(len);
    text := got + seq(len - |got|, _ => 0);
  }

  method ReadValue(f: Ifstream, key: seq<byte>, t: nat, before: Info, depth: nat) returns (ok: bool, i: Info)
    modifies f
    ensures var r := ValueStep(old(f.State()), key, t, before, depth);
            ok == r.Some? && (ok ==> f.State() == r.value.0 && i == r.value.1)
  {
    hide Skip, ReadString, Word, AfterRead, FieldOf, WithNumber, Number;
    i := before;
    ok := true;
    var field := FieldOf(key, t, i.arch);
    if field == Arch {
      var arch := NextString(f);
      i := i.(arch := arch);
    } else if field == Other {
      ok := SkipValue(f, t, depth);
    } else {
      var n := f.ReadWord(4, Number(i, field));
      i := WithNumber(i, field, n);
    }
  }

  /** The metadata loop. */
  method ReadMetadata(f: Ifstream, count: nat, depth: nat) returns (ok: bool, i: Info)
    modifies f
    ensures var r := Entries(old(f.State()), count, UNKNOWN, depth);
            ok == r.Some? && (ok ==> f.State() == r.value.0 && i == r.value.1)
  {
    hide ReadString, Word, AfterRead, ValueStep;
    i := UNKNOWN;
    ok := true;
    ghost var first := f.State();
    for k := 0 to count
      invariant Entries(first, count, UNKNOWN, depth) == Entries(f.State(), count - k, i, depth)
    {
      var key := NextString(f);
      var t := f.ReadWord(4, 0);
      ok, i := ReadValue(f, key, t, i, depth);
      if !ok {
        return;
      }
    }
    ok := true;
  }

  // ---- metadata, as the benchmark tool skips it ----

  function BareStep(s: Stream, depth: nat): Option<Stream>
  {
    var s' := Seek(AfterRead(s, 8), SignedOffset(Word(s, 8, 0)));
    Skip(AfterRead(s', 4), Word(s', 4, 0), depth)
  }

  function BareEntries(s: Stream, n: nat, depth: nat): Option<Stream>
    decreases n
  {
    if n == 0 then Some(s)
    else
      var r := BareStep(s, depth);
      if r.None? then None else BareEntries(r.value, n - 1, depth)
  }

  method SkipMetadata(f: Ifstream, count: nat, depth: nat) returns (ok: bool)
    modifies f
    ensures var r := BareEntries(old(f.State()), count, depth); ok == r.Some? && (ok ==> f.State() == r.value)
  {
    hide Skip, Word, AfterRead, Seek;
    ghost var first := f.State();
    for k := 0 to count
      invariant BareEntries(first, count, depth) == BareEntries(f.State(), count - k, depth)
    {
      var len := f.ReadWord(8, 0);
      f.Seekg(SignedOffset(len));
      var t := f.ReadWord(4, 0);
      ok := SkipMeta(f, t, depth);
      if !ok {
        return;
      }
    }
    ok := true;
  }

  // ---- well-formed metadata ----

  datatype Entry = Entry(key: seq<byte>, t: u32, value: Value)

  function EncodeEntry(e: Entry): seq<byte> { EncodeText(e.key) + (Encode(e.t, 4) + EncodeValue(e.value)) }

  function EncodeEntries(es: seq<Entry>): seq<byte>
  {
    if es == [] then [] else EncodeEntry(es[0]) + EncodeEntries(es[1..])
  }

  predicate GoodEntry(e: Entry, depth: nat)
  {
    |e.key| < 0x8000_0000_0000_0000 && Typed(e.value, e.t) && depth >= Nesting(e.value)
  }

  /** The key, and the text if this is the architecture name, are short enough for `read_string`. */
  predicate Readable(e: Entry)
  {
    && |e.key| <= 1_000_000
    && (e.key == Ascii("general.architecture") && e.t == 8 && e.value.Text? ==> |e.value.text| <= 1_000_000)
  }

  /** What an entry means: the architecture name, one of the five numbers, or nothing. */
  function Understood(i: Info, e: Entry): Info
  {
    match FieldOf(e.key, e.t, i.arch)
    case Arch => if e.value.Text? then i.(arch := e.value.text) else i
    case Other => i
    case field => if e.value.Scalar? then WithNumber(i, field, Decode(e.value.bytes)) else i
  }

  function UnderstoodAll(i: Info, es: seq<Entry>): Info
    decreases |es|
  {
    if es == [] then i else UnderstoodAll(Understood(i, es[0]), es[1..])
  }

  /** `read_string` returns the text and moves past it exactly when the text is within the limit. */
  lemma ReadStringIff(s: Stream, text: seq<byte>)
    requires At(s, EncodeText(text)) && |text| < U64_LIMIT
    ensures ReadString(s) == (Moved(s, |EncodeText(text)|), text) <==> |text| <= 1_000_000
    ensures |text| > 1_000_000 ==> ReadString(s) == (Moved(s, 8), [])
  {
    hide Word, Encode, Decode, Limit, Holds;
    Limits();
    AtSplit(s, Encode(|text|, 8), text);
    WordExact(s, |text|, 8, 0);
    ReadExact(Moved(s, 8), text);
    assert text + seq(0, _ => 0) == text;
  }

  /** A longer key is left in the stream, and its first bytes are taken for the type of the value. */
  lemma LongKeyMisread(s: Stream, key: seq<byte>)
    requires At(s, EncodeText(key)) && 1_000_000 < |key| < U64_LIMIT
    ensures Word(ReadString(s).0, 4, 0) == Decode(key[..4])
  {
    hide Word, Encode, Decode, Limit, Holds;
    ReadStringIff(s, key);
    AtSplit(s, Encode(|key|, 8), key);
    assert key == key[..4] + key[4..];
    AtSplit(Moved(s, 8), key[..4], key[4..]);
    FourBytes(Moved(s, 8), key[..4], 0);
  }

  lemma FourBytes(s: Stream, b: seq<byte>, before: nat)
    requires At(s, b) && |b| == 4
    ensures Word(s, 4, before) == Decode(b) && AfterRead(s, 4) == Moved(s, 4)
  {
  }

  /** One entry: the cursor ends behind it and the entry has been understood. */
  lemma EntryExact(s: Stream, e: Entry, i: Info, depth: nat)
    requires At(s, EncodeEntry(e)) && GoodEntry(e, depth) && Readable(e)
    ensures EntryStep(s, i, depth) == Some((Moved(s, |EncodeEntry(e)|), Understood(i, e)))
    ensures BareStep(s, depth) == Some(Moved(s, |EncodeEntry(e)|))
  {
    hide Word, Encode, Decode, Limit, Holds, Skip, EncodeText, EncodeValue, ReadString, AfterRead, FieldOf,
      WithNumber, Number, ValueStep, Understood;
    Limits();
    EntryParts(s, e);
    var s1 := Moved(s, |EncodeText(e.key)|);
    ReadStringIff(s, e.key);
    WordExact(s1, e.t, 4, 0);
    ValueExact(Moved(s1, 4), e, i, depth);
    SkipExact(Moved(s1, 4), e.value, e.t, depth);
    BareKey(s, e.key);
  }

  lemma EntryParts(s: Stream, e: Entry)
    requires At(s, EncodeEntry(e))
    ensures At(s, EncodeText(e.key)) && At(Moved(s, |EncodeText(e.key)|), Encode(e.t, 4))
    ensures At(Moved(Moved(s, |EncodeText(e.key)|), 4), EncodeValue(e.value))
    ensures Moved(Moved(Moved(s, |EncodeText(e.key)|), 4), |EncodeValue(e.value)|) == Moved(s, |EncodeEntry(e)|)
  {
    hide Encode, Holds, EncodeText, EncodeValue;
    var rest := Encode(e.t, 4) + EncodeValue(e.value);
    AtSplit(s, EncodeText(e.key), rest);
    AtSplit(Moved(s, |EncodeText(e.key)|), Encode(e.t, 4), EncodeValue(e.value));
  }

  lemma BareKey(s: Stream, key: seq<byte>)
    requires At(s, EncodeText(key)) && |key| < 0x8000_0000_0000_0000
    ensures Seek(AfterRead(s, 8), SignedOffset(Word(s, 8, 0))) == Moved(s, |EncodeText(key)|)
  {
    hide Word, Encode, Holds, Limit;
    Limits();
    AtSplit(s, Encode(|key|, 8), key);
    WordExact(s, |key|, 8, 0);
    SeekExact(Moved(s, 8), key);
  }

  lemma ValueExact(s: Stream, e: Entry, i: Info, depth: nat)
    requires At(s, EncodeValue(e.value)) && GoodEntry(e, depth) && Readable(e)
    ensures ValueStep(s, e.key, e.t, i, depth) == Some((Moved(s, |EncodeValue(e.value)|), Understood(i, e)))
  {
    hide Word, Encode, Decode, Limit, Holds, Skip, ReadString, AfterRead, WithNumber, Number, EncodeText;
    FieldTypes(e.key, e.t, i.arch);
    hide FieldOf;
    SkipExact(s, e.value, e.t, depth);
    match FieldOf(e.key, e.t, i.arch)
    case Arch => ReadStringIff(s, e.value.text);
    case Other =>
    case field => FourBytes(s, e.value.bytes, Number(i, field));
  }

  /** The architecture name is a string entry, every number a 32-bit one. */
  lemma FieldTypes(key: seq<byte>, t: nat, arch: seq<byte>)
    ensures FieldOf(key, t, arch) == Arch ==> t == STRING && key == Ascii("general.architecture")
    ensures FieldOf(key, t, arch) != Arch && FieldOf(key, t, arch) != Other ==> t == UINT32
  {
  }

  /** Over any well-formed metadata both tools reach the tensor table, and the inventory tool has understood
    every entry, each with the architecture name known at that point. */
  lemma {:induction false} MetadataExact(s: Stream, es: seq<Entry>, i: Info, depth: nat)
    requires At(s, EncodeEntries(es))
    requires forall k :: 0 <= k < |es| ==> GoodEntry(es[k], depth) && Readable(es[k])
    ensures Entries(s, |es|, i, depth) == Some((Moved(s, |EncodeEntries(es)|), UnderstoodAll(i, es)))
    ensures BareEntries(s, |es|, depth) == Some(Moved(s, |EncodeEntries(es)|))
    decreases |es|
  {
    hide EntryStep, BareStep, EncodeEntry, GoodEntry, Readable, Holds, Understood;
    if es != [] {
      AtSplit(s, EncodeEntry(es[0]), EncodeEntries(es[1..]));
      EntryExact(s, es[0], i, depth);
      MetadataExact(Moved(s, |EncodeEntry(es[0])|), es[1..], Understood(i, es[0]), depth);
    }
  }

  /** The benchmark tool has no limit on keys. */
  lemma {:induction false} BareMetadataExact(s: Stream, es: seq<Entry>, depth: nat)
    requires At(s, EncodeEntries(es)) && forall k :: 0 <= k < |es| ==> GoodEntry(es[k], depth)
    ensures BareEntries(s, |es|, depth) == Some(Moved(s, |EncodeEntries(es)|))
    decreases |es|
  {
    hide Word, Encode, Decode, Limit, Holds, Skip, EncodeText, EncodeValue, AfterRead, Seek, EncodeEntry, Typed;
    if es != [] {
      var e := es[0];
      Limits();
      AtSplit(s, EncodeEntry(e), EncodeEntries(es[1..]));
      EntryParts(s, e);
      BareKey(s, e.key);
      var s1 := Moved(s, |EncodeText(e.key)|);
      WordExact(s1, e.t, 4, 0);
      SkipExact(Moved(s1, 4), e.value, e.t, depth);
      BareMetadataExact(Moved(s, |EncodeEntry(e)|), es[1..], depth);
    }
  }

  // ---- which keys are understood ----

  /** An entry with a 32-bit number. */
  function Uint32Entry(key: seq<byte>, b: seq<byte>): Entry { Entry(key, 4, Scalar(b)) }

  /** The last characters of a name are those of its suffix. */
  lemma Suffix(a: seq<byte>, s: string, n: nat)
    requires n < |s|
    ensures var key := a + Ascii(s); |key| > n && key[|key| - 1 - n] == s[|s| - 1 - n] as int % 256
  {
  }

  lemma SuffixesDiffer(a: seq<byte>, s: string, b: seq<byte>, s': string, n: nat)
    requires n < |s| && n < |s'| && s[|s| - 1 - n] as int % 256 != s'[|s'| - 1 - n] as int % 256
    ensures a + Ascii(s) != b + Ascii(s')
  {
    Suffix(a, s, n);
    Suffix(b, s', n);
  }

  lemma GeneralKey(s: string)
    ensures Ascii("general" + s) == Ascii("general") + Ascii(s)
  {
  }

  /** The names behind the architecture's name, or behind `general`, differ from each other. */
  lemma NamesDiffer(a: seq<byte>, b: seq<byte>)
    ensures a + Ascii(".embedding_length") != b + Ascii(".block_count")
    ensures a + Ascii(".feed_forward_length") != b + Ascii(".block_count")
    ensures a + Ascii(".feed_forward_length") != b + Ascii(".embedding_length")
    ensures a + Ascii(".attention.head_count") != b + Ascii(".block_count")
    ensures a + Ascii(".attention.head_count") != b + Ascii(".embedding_length")
    ensures a + Ascii(".attention.head_count") != b + Ascii(".feed_forward_length")
    ensures a + Ascii(".attention.head_count_kv") != b + Ascii(".block_count")
    ensures a + Ascii(".attention.head_count_kv") != b + Ascii(".embedding_length")
    ensures a + Ascii(".attention.head_count_kv") != b + Ascii(".feed_forward_length")
    ensures a + Ascii(".attention.head_count_kv") != b + Ascii(".attention.head_count")
  {
    hide Ascii;
    SuffixesDiffer(a, ".embedding_length", b, ".block_count", 0);
    SuffixesDiffer(a, ".feed_forward_length", b, ".block_count", 0);
    SuffixesDiffer(a, ".feed_forward_length", b, ".embedding_length", 7);
    SuffixesDiffer(a, ".attention.head_count", b, ".block_count", 6);
    SuffixesDiffer(a, ".attention.head_count", b, ".embedding_length", 0);
    SuffixesDiffer(a, ".attention.head_count", b, ".feed_forward_length", 0);
    SuffixesDiffer(a, ".attention.head_count_kv", b, ".block_count", 0);
    SuffixesDiffer(a, ".attention.head_count_kv", b, ".embedding_length", 0);
    SuffixesDiffer(a, ".attention.head_count_kv", b, ".feed_forward_length", 0);
    SuffixesDiffer(a, ".attention.head_count_kv", b, ".attention.head_count", 0);
  }

  lemma GeneralNames()
    ensures Ascii("general.block_count") == Ascii("general") + Ascii(".block_count")
    ensures Ascii("general.embedding_length") == Ascii("general") + Ascii(".embedding_length")
    ensures Ascii("general.feed_forward_length") == Ascii("general") + Ascii(".feed_forward_length")
  {
    hide Ascii;
    GeneralKey(".block_count");
    GeneralKey(".embedding_length");
    GeneralKey(".feed_forward_length");
    assert "general" + ".block_count" == "general.block_count";
    assert "general" + ".embedding_length" == "general.embedding_length";
    assert "general" + ".feed_forward_length" == "general.feed_forward_length";
  }

  /** Which number each key sets: under the architecture's name five, and three of them under `general`. */
  lemma NumberKeys(i: Info, b: seq<byte>)
    ensures var v := Decode(b);
            Understood(i, Uint32Entry(i.arch + Ascii(".block_count"), b)) == i.(blocks := v) &&
            Understood(i, Uint32Entry(i.arch + Ascii(".embedding_length"), b)) == i.(embedding := v) &&
            Understood(i, Uint32Entry(i.arch + Ascii(".feed_forward_length"), b)) == i.(feedForward := v) &&
            Understood(i, Uint32Entry(i.arch + Ascii(".attention.head_count"), b)) == i.(heads := v) &&
            Understood(i, Uint32Entry(i.arch + Ascii(".attention.head_count_kv"), b)) == i.(headsKv := v)
    ensures var v := Decode(b);
            Understood(i, Uint32Entry(Ascii("general.block_count"), b)) == i.(blocks := v) &&
            Understood(i, Uint32Entry(Ascii("general.embedding_length"), b)) == i.(embedding := v) &&
            Understood(i, Uint32Entry(Ascii("general.feed_forward_length"), b)) == i.(feedForward := v)
  {
    hide Ascii, Decode;
    GeneralNames();
    NamesDiffer(i.arch, i.arch);
    NamesDiffer(i.arch, Ascii("general"));
    NamesDiffer(Ascii("general"), i.arch);
    NamesDiffer(Ascii("general"), Ascii("general"));
  }

  /** The architecture's name, and everything that is understood as nothing. */
  lemma OtherKeys(i: Info, e: Entry)
    ensures e.key == Ascii("general.architecture") && e.t == 8 && e.value.Text? ==>
            Understood(i, e) == i.(arch := e.value.text)
    ensures (e.key != Ascii("general.architecture") || e.t != 8) &&
            (e.t == 4 ==>
               e.key != i.arch + Ascii(".block_count") && e.key != Ascii("general.block_count") &&
               e.key != i.arch + Ascii(".embedding_length") && e.key != Ascii("general.embedding_length") &&
               e.key != i.arch + Ascii(".feed_forward_length") && e.key != Ascii("general.feed_forward_length") &&
               e.key != i.arch + Ascii(".attention.head_count") &&
               e.key != i.arch + Ascii(".attention.head_count_kv")) ==>
            Understood(i, e) == i
  {
    hide Ascii, Decode;
  }

  // ---- texts that are cut off ----

  /** Without a whole length there is no text, and without all its bytes the text is filled up with zeros. */
  lemma TruncatedText(s: Stream, len: nat, got: seq<byte>)
    ensures AfterRead(s, 8).failed ==> ReadString(s) == (AfterRead(s, 8), [])
    ensures At(s, Encode(len, 8) + got) && s.pos + 8 + |got| == |s.data| && |got| < len <= 1_000_000 ==>
            ReadString(s) == (Moved(s, 8 + |got|).(failed := true), got + seq(len - |got|, _ => 0))
  {
    hide Word, Encode, Limit, Holds, AfterRead, Available;
    if At(s, Encode(len, 8) + got) && s.pos + 8 + |got| == |s.data| && |got| < len <= 1_000_000 {
      Limits();
      AtSplit(s, Encode(len, 8), got);
      WordExact(s, len, 8, 0);
      ShortRead(Moved(s, 8), len);
      RestIs(Moved(s, 8), got);
    }
  }

  lemma RestIs(s: Stream, got: seq<byte>)
    requires At(s, got) && s.pos + |got| == |s.data|
    ensures s.data[s.pos..] == got
  {
  }
}
