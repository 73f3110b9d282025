/** Writing an image and reading it back.

  `Layout` says what bytes of an image the fixture fixes; `FixtureXclbin` is the writer, with its constants
  turned into parameters, and the round trip holds for any image with that layout, whatever the padding. */
module Gate1RoundTrip {
  import opened Words
  import opened LittleEndian
  import opened JsonText
  import opened Gate1
  import opened Gate1Texts

  datatype Fixture = Fixture(
    mode: u16, actionMask: u16, platform: string, vendor: string, boardId: string, name: string,
    driver: Driver, sectionWidth: u16, sectionStart: u16)

  /** Texts are made of bytes, and the platform is NUL-free and fits its field. */
  predicate Writable(f: Fixture)
  {
    && Bytewise(f.platform) && Bytewise(f.vendor) && Bytewise(f.boardId) && Bytewise(f.name)
    && |f.platform| <= PLATFORM_SIZE && forall i :: 0 <= i < |f.platform| ==> f.platform[i] as int != 0
  }

  const PARTITION_SIZE := 208
  const STARTS := 184
  const PAYLOAD := SECTIONS + 3 * SECTION_SIZE

  function Bytes(t: string): (b: seq<byte>)
    requires Bytewise(t)
    ensures |b| == |t|
  {
    seq(|t|, i requires 0 <= i < |t| => t[i] as int)
  }

  function BuildBytes(f: Fixture): seq<byte>
    requires Writable(f)
  {
    BuildBytewise(f.vendor, f.boardId, f.name);
    Bytes(BuildText(f.vendor, f.boardId, f.name))
  }

  function AieBytes(f: Fixture): seq<byte>
    requires Writable(f)
  {
    AieBytewise(f.driver);
    Bytes(AieText(f.driver))
  }

  // ---- the layout ----

  /** The platform field: the text and, unless it fills the field, a terminating zero. */
  predicate PlatformField(f: Fixture, image: seq<byte>)
    requires Writable(f)
  {
    && Holds(image, PLATFORM, Bytes(f.platform))
    && (|f.platform| < PLATFORM_SIZE ==> Holds(image, PLATFORM + |f.platform|, [0]))
  }

  predicate HeaderLayout(f: Fixture, image: seq<byte>)
    requires Writable(f)
  {
    && Holds(image, 0, MAGIC)
    && Holds(image, MODE, Encode(f.mode, 2)) && Holds(image, ACTION_MASK, Encode(f.actionMask, 2))
    && PlatformField(f, image)
    && Holds(image, SECTION_COUNT, Encode(3, 4))
  }

  predicate HasSection(image: seq<byte>, index: nat, kind: nat, offset: nat, payload: seq<byte>)
  {
    var header := SectionAt(index);
    && Holds(image, header, Encode(kind, 4))
    && Holds(image, header + 24, Encode(offset, 8)) && Holds(image, header + 32, Encode(|payload|, 8))
    && Holds(image, offset, payload)
  }

  predicate PartitionLayout(f: Fixture, p: seq<byte>)
  {
    && |p| == PARTITION_SIZE
    && Holds(p, WIDTH, Encode(f.sectionWidth, 2)) && Holds(p, START_COUNT, Encode(1, 4))
    && Holds(p, START_OFFSET, Encode(STARTS, 4)) && Holds(p, STARTS, Encode(f.sectionStart, 2))
  }

  predicate LayoutWith(f: Fixture, image: seq<byte>, p: seq<byte>)
    requires Writable(f)
  {
    var b, a := |BuildBytes(f)|, |AieBytes(f)|;
    && HeaderLayout(f, image) && Holds(image, HEADER, Encode(|image|, 8))
    && PartitionLayout(f, p)
    && |image| == PAYLOAD + b + a + PARTITION_SIZE
    && HasSection(image, 0, BUILD_METADATA, PAYLOAD, BuildBytes(f))
    && HasSection(image, 1, AIE_METADATA, PAYLOAD + b, AieBytes(f))
    && HasSection(image, 2, AIE_PARTITION, PAYLOAD + b + a, p)
  }

  /** The partition section is what ends the image. */
  predicate Layout(f: Fixture, image: seq<byte>)
    requires Writable(f)
  {
    |image| >= PARTITION_SIZE && LayoutWith(f, image, image[|image| - PARTITION_SIZE..])
  }

  // ---- the writer ----

  lemma HoldsKept(image: seq<byte>, image': seq<byte>, lo: nat, hi: nat, at: nat, piece: seq<byte>)
    requires hi <= |image| && hi <= |image'| && lo <= at && at + |piece| <= hi
    requires image[lo..hi] == image'[lo..hi] && Holds(image, at, piece)
    ensures Holds(image', at, piece)
  {
    forall i | 0 <= i < |piece|
      ensures image'[at + i] == piece[i]
    {
      assert piece[i] == image[at..at + |piece|][i];
      assert image[lo..hi][at - lo + i] == image'[lo..hi][at - lo + i];
    }
  }

  lemma PutElsewhere(image: seq<byte>, at: nat, piece: seq<byte>, i: nat)
    requires at + |piece| <= |image| && i < |image| && (i < at || at + |piece| <= i)
    ensures Put(image, at, piece)[i] == image[i]
  {
  }

  method WriteHeader(f: Fixture, image: ByteVector)
    requires Writable(f) && |image.bytes| == PAYLOAD && image.bytes == seq(PAYLOAD, _ => 0)
    modifies image
    ensures |image.bytes| == PAYLOAD && HeaderLayout(f, image.bytes)
  {
    hide Encode, Put, Bytes, Holds, Bytewise;
    image.PutBytes(0, MAGIC);
    var a := image.bytes;
    image.PutU16(MODE, f.mode);
    var b := image.bytes;
    PutKeeps(a, MODE, Encode(f.mode, 2), 0, MAGIC);
    image.PutU16(ACTION_MASK, f.actionMask);
    var c := image.bytes;
    PutKeeps(b, ACTION_MASK, Encode(f.actionMask, 2), 0, MAGIC);
    PutKeeps(b, ACTION_MASK, Encode(f.actionMask, 2), MODE, Encode(f.mode, 2));
    if |f.platform| < PLATFORM_SIZE {
      ZeroAt(a, b, c, f);
    }
    var text := Bytes(f.platform);
    image.PutBytes(PLATFORM, text);
    var d := image.bytes;
    PutKeeps(c, PLATFORM, text, 0, MAGIC);
    PutKeeps(c, PLATFORM, text, MODE, Encode(f.mode, 2));
    PutKeeps(c, PLATFORM, text, ACTION_MASK, Encode(f.actionMask, 2));
    if |f.platform| < PLATFORM_SIZE {
      PutKeeps(c, PLATFORM, text, PLATFORM + |text|, [0]);
    }
    image.PutWord(SECTION_COUNT, 3, 4);
    var count := Encode(3, 4);
    PutKeeps(d, SECTION_COUNT, count, 0, MAGIC);
    PutKeeps(d, SECTION_COUNT, count, MODE, Encode(f.mode, 2));
    PutKeeps(d, SECTION_COUNT, count, ACTION_MASK, Encode(f.actionMask, 2));
    PutKeeps(d, SECTION_COUNT, count, PLATFORM, text);
    if |f.platform| < PLATFORM_SIZE {
      PutKeeps(d, SECTION_COUNT, count, PLATFORM + |text|, [0]);
    }
  }

  /** The vector starts out zero, so the byte after the platform text is a terminator. */
  lemma ZeroAt(a: seq<byte>, b: seq<byte>, c: seq<byte>, f: Fixture)
    requires Writable(f) && |f.platform| < PLATFORM_SIZE
    requires a == Put(seq(PAYLOAD, _ => 0), 0, MAGIC) && b == Put(a, MODE, Encode(f.mode, 2))
    requires c == Put(b, ACTION_MASK, Encode(f.actionMask, 2))
    ensures Holds(c, PLATFORM + |f.platform|, [0])
  {
    hide Encode, Put;
    var at := PLATFORM + |f.platform|;
    PutElsewhere(seq(PAYLOAD, _ => 0), 0, MAGIC, at);
    PutElsewhere(a, MODE, Encode(f.mode, 2), at);
    PutElsewhere(b, ACTION_MASK, Encode(f.actionMask, 2), at);
    assert c[at] == 0;
  }

  /** One turn of the section loop: header fields, then the payload at the end. */
  method AddSection(image: ByteVector, index: nat, kind: nat, payload: seq<byte>)
    requires SectionAt(index + 1) <= |image.bytes|
    modifies image
    ensures |image.bytes| == |old(image.bytes)| + |payload|
    ensures HasSection(image.bytes, index, kind, |old(image.bytes)|, payload)
    ensures image.bytes[..SectionAt(index)] == old(image.bytes)[..SectionAt(index)]
    ensures image.bytes[SectionAt(index + 1)..|old(image.bytes)|] == old(image.bytes)[SectionAt(index + 1)..]
  {
    hide Encode, Holds;
    var header := SECTIONS + index * SECTION_SIZE;
    var offset := |image.bytes|;
    image.PutWord(header, kind, 4);
    var a := image.bytes;
    image.PutWord(header + 24, offset, 8);
    var b := image.bytes;
    PutKeeps(a, header + 24, Encode(offset, 8), header, Encode(kind, 4));
    image.PutWord(header + 32, |payload|, 8);
    var c := image.bytes;
    PutKeeps(b, header + 32, Encode(|payload|, 8), header, Encode(kind, 4));
    PutKeeps(b, header + 32, Encode(|payload|, 8), header + 24, Encode(offset, 8));
    image.Append(payload);
    AppendKeeps(c, payload, header, Encode(kind, 4));
    AppendKeeps(c, payload, header + 24, Encode(offset, 8));
    AppendKeeps(c, payload, header + 32, Encode(|payload|, 8));
  }

  lemma HeaderKept(f: Fixture, image: seq<byte>, image': seq<byte>)
    requires Writable(f) && |image| >= SECTIONS && |image'| >= SECTIONS
    requires image[..SECTIONS] == image'[..SECTIONS] && HeaderLayout(f, image)
    ensures HeaderLayout(f, image')
  {
    hide Encode, Holds, Bytes, Bytewise;
    HoldsKept(image, image', 0, SECTIONS, 0, MAGIC);
    HoldsKept(image, image', 0, SECTIONS, MODE, Encode(f.mode, 2));
    HoldsKept(image, image', 0, SECTIONS, ACTION_MASK, Encode(f.actionMask, 2));
    HoldsKept(image, image', 0, SECTIONS, PLATFORM, Bytes(f.platform));
    if |f.platform| < PLATFORM_SIZE {
      HoldsKept(image, image', 0, SECTIONS, PLATFORM + |f.platform|, [0]);
    }
    HoldsKept(image, image', 0, SECTIONS, SECTION_COUNT, Encode(3, 4));
  }

  /** Sections already written are kept when bytes around them change. */
  lemma SectionKept(image: seq<byte>, image': seq<byte>, index: nat, kind: nat, offset: nat,
                    payload: seq<byte>, next: nat)
    requires HasSection(image, index, kind, offset, payload)
    requires SectionAt(index + 1) <= next <= |image| <= |image'| && image[..next] == image'[..next]
    requires next + SECTION_SIZE <= offset && offset + |payload| <= |image|
    requires image[next + SECTION_SIZE..] == image'[next + SECTION_SIZE..|image|]
    ensures HasSection(image', index, kind, offset, payload)
  {
    hide Encode, Holds;
    var header := SectionAt(index);
    HoldsKept(image, image', 0, next, header, Encode(kind, 4));
    HoldsKept(image, image', 0, next, header + 24, Encode(offset, 8));
    HoldsKept(image, image', 0, next, header + 32, Encode(|payload|, 8));
    HoldsKept(image, image', next + SECTION_SIZE, |image|, offset, payload);
  }

  /** Rewriting the length field keeps the rest of the header and every section. */
  lemma LengthKept(f: Fixture, image: seq<byte>, piece: seq<byte>)
    requires Writable(f) && |image| >= PAYLOAD && |piece| == 8 && HeaderLayout(f, image)
    ensures HeaderLayout(f, Put(image, HEADER, piece))
  {
    hide Encode, Holds, Bytes, Bytewise, Put;
    PutKeeps(image, HEADER, piece, 0, MAGIC);
    PutKeeps(image, HEADER, piece, MODE, Encode(f.mode, 2));
    PutKeeps(image, HEADER, piece, ACTION_MASK, Encode(f.actionMask, 2));
    PutKeeps(image, HEADER, piece, PLATFORM, Bytes(f.platform));
    if |f.platform| < PLATFORM_SIZE {
      PutKeeps(image, HEADER, piece, PLATFORM + |f.platform|, [0]);
    }
    PutKeeps(image, HEADER, piece, SECTION_COUNT, Encode(3, 4));
  }

  lemma SectionLengthKept(image: seq<byte>, piece: seq<byte>, index: nat, kind: nat, offset: nat, payload: seq<byte>)
    requires |image| >= PAYLOAD && |piece| == 8 && offset >= PAYLOAD && HasSection(image, index, kind, offset, payload)
    ensures HasSection(Put(image, HEADER, piece), index, kind, offset, payload)
  {
    hide Encode, Holds, Put;
    var header := SectionAt(index);
    PutKeeps(image, HEADER, piece, header, Encode(kind, 4));
    PutKeeps(image, HEADER, piece, header + 24, Encode(offset, 8));
    PutKeeps(image, HEADER, piece, header + 32, Encode(|payload|, 8));
    PutKeeps(image, HEADER, piece, offset, payload);
  }

  method WritePartition(f: Fixture) returns (p: seq<byte>)
    ensures PartitionLayout(f, p)
  {
    hide Encode, Put, Holds;
    var partition := new ByteVector(PARTITION_SIZE);
    partition.PutU16(WIDTH, f.sectionWidth);
    var a := partition.bytes;
    partition.PutWord(START_COUNT, 1, 4);
    var b := partition.bytes;
    PutKeeps(a, START_COUNT, Encode(1, 4), WIDTH, Encode(f.sectionWidth, 2));
    partition.PutWord(START_OFFSET, STARTS, 4);
    var c := partition.bytes;
    PutKeeps(b, START_OFFSET, Encode(STARTS, 4), WIDTH, Encode(f.sectionWidth, 2));
    PutKeeps(b, START_OFFSET, Encode(STARTS, 4), START_COUNT, Encode(1, 4));
    partition.PutU16(STARTS, f.sectionStart);
    var starts := Encode(f.sectionStart, 2);
    PutKeeps(c, STARTS, starts, WIDTH, Encode(f.sectionWidth, 2));
    PutKeeps(c, STARTS, starts, START_COUNT, Encode(1, 4));
    PutKeeps(c, STARTS, starts, START_OFFSET, Encode(STARTS, 4));
    p := partition.bytes;
  }

  /** `fixture_xclbin`. */
  method FixtureXclbin(f: Fixture) returns (image: seq<byte>)
    requires Writable(f)
    ensures Layout(f, image)
  {
    hide Encode, Put, Holds, BuildBytes, AieBytes, HeaderLayout, HasSection, PartitionLayout;
    var partition := WritePartition(f);
    PartitionHasSize(f, partition);
    var v := new ByteVector(PAYLOAD);
    WriteHeader(f, v);
    var s0 := v.bytes;
    AddSection(v, 0, BUILD_METADATA, BuildBytes(f));
    var s1 := v.bytes;
    HeaderKept(f, s0, s1);
    AddSection(v, 1, AIE_METADATA, AieBytes(f));
    var s2 := v.bytes;
    assert s2[..SECTIONS] == s2[..SectionAt(1)][..SECTIONS] && s1[..SECTIONS] == s1[..SectionAt(1)][..SECTIONS];
    HeaderKept(f, s1, s2);
    SectionKept(s1, s2, 0, BUILD_METADATA, PAYLOAD, BuildBytes(f), SectionAt(1));
    AddSection(v, 2, AIE_PARTITION, partition);
    var s3 := v.bytes;
    assert s3[..SECTIONS] == s3[..SectionAt(2)][..SECTIONS] && s2[..SECTIONS] == s2[..SectionAt(2)][..SECTIONS];
    HeaderKept(f, s2, s3);
    SectionKept(s2, s3, 0, BUILD_METADATA, PAYLOAD, BuildBytes(f), SectionAt(2));
    SectionKept(s2, s3, 1, AIE_METADATA, |s1|, AieBytes(f), SectionAt(2));
    v.PutWord(HEADER, |v.bytes|, 8);
    var length := Encode(|s3|, 8);
    LengthKept(f, s3, length);
    SectionLengthKept(s3, length, 0, BUILD_METADATA, PAYLOAD, BuildBytes(f));
    SectionLengthKept(s3, length, 1, AIE_METADATA, |s1|, AieBytes(f));
    SectionLengthKept(s3, length, 2, AIE_PARTITION, |s2|, partition);
    image := v.bytes;
    SectionEndsImage(image, 2, AIE_PARTITION, |s2|, partition);
  }

  lemma SectionEndsImage(image: seq<byte>, index: nat, kind: nat, offset: nat, payload: seq<byte>)
    requires HasSection(image, index, kind, offset, payload) && |image| == offset + |payload|
    ensures image[offset..] == payload
  {
  }

  lemma PartitionHasSize(f: Fixture, p: seq<byte>)
    requires PartitionLayout(f, p)
    ensures |p| == PARTITION_SIZE
  {
  }

  // ---- reading it back ----

  lemma TextOfBytes(t: string)
    requires Bytewise(t)
    ensures Text(Bytes(t)) == t
  {
  }

  lemma {:induction false} FixedStringOf(t: string, field: seq<byte>)
    requires Bytewise(t) && |t| <= |field| && field[..|t|] == Bytes(t)
    requires forall i :: 0 <= i < |t| ==> t[i] as int != 0
    requires |t| < |field| ==> field[|t|] == 0
    ensures FixedString(field) == t
  {
    if t != [] {
      assert field[0] == field[..|t|][0] == Bytes(t)[0];
      assert field[1..][..|t| - 1] == field[..|t|][1..] == Bytes(t)[1..] == Bytes(t[1..]);
      FixedStringOf(t[1..], field[1..]);
      assert t == [t[0]] + t[1..];
    }
  }

  lemma PlatformRecovered(f: Fixture, image: seq<byte>)
    requires Writable(f) && PlatformField(f, image) && |image| >= SECTIONS
    ensures FixedString(image[PLATFORM..PLATFORM + PLATFORM_SIZE]) == f.platform
  {
    hide Bytes, FixedString;
    var field := image[PLATFORM..PLATFORM + PLATFORM_SIZE];
    var n := |f.platform|;
    assert field[..n] == image[PLATFORM..PLATFORM + n];
    if n < PLATFORM_SIZE {
      assert field[n] == image[PLATFORM + n] == image[PLATFORM + n..PLATFORM + n + 1][0];
    }
    FixedStringOf(f.platform, field);
  }

  /** The section header of a well-placed section says where the payload is. */
  lemma SectionRead(image: seq<byte>, index: nat, kind: u16, offset: nat, payload: seq<byte>)
    requires HasSection(image, index, kind, offset, payload) && |image| < U64_LIMIT
    ensures SectionAt(index + 1) <= |image| && offset + |payload| <= |image|
    ensures ReadU32(image, SectionAt(index)) == kind && InsideImage(image, SectionAt(index))
    ensures U64At(image, SectionAt(index) + 24) == offset && U64At(image, SectionAt(index) + 32) == |payload|
    ensures image[offset..offset + |payload|] == payload
  {
    hide Encode, ReadU32, U64At;
    var header := SectionAt(index);
    HeldWords(image, header, kind);
    HeldWords(image, header + 24, offset);
    HeldWords(image, header + 32, |payload|);
  }

  /** The three sections are found with their payloads. */
  lemma SectionsFound(f: Fixture, image: seq<byte>, p: seq<byte>)
    requires Writable(f) && LayoutWith(f, image, p) && |image| < U64_LIMIT
    ensures TableInside(image, 3) && forall i :: 0 <= i < 3 ==> InsideImage(image, SectionAt(i))
    ensures var b, a := BuildBytes(f), AieBytes(f);
            FindSection(image, BUILD_METADATA, 3, 0) == Some(Section(PAYLOAD, |b|)) &&
            FindSection(image, AIE_METADATA, 3, 0) == Some(Section(PAYLOAD + |b|, |a|)) &&
            FindSection(image, AIE_PARTITION, 3, 0) == Some(Section(PAYLOAD + |b| + |a|, PARTITION_SIZE)) &&
            image[PAYLOAD..PAYLOAD + |b|] == b && image[PAYLOAD + |b|..PAYLOAD + |b| + |a|] == a &&
            image[PAYLOAD + |b| + |a|..] == p
  {
    hide HasSection, HeaderLayout, PartitionLayout, BuildBytes, AieBytes, ReadU32, U64At, Holds, FindSection,
      InsideImage;
    PartitionHasSize(f, p);
    var b, a := BuildBytes(f), AieBytes(f);
    SectionRead(image, 0, BUILD_METADATA, PAYLOAD, b);
    SectionRead(image, 1, AIE_METADATA, PAYLOAD + |b|, a);
    SectionRead(image, 2, AIE_PARTITION, PAYLOAD + |b| + |a|, p);
    FindThird(image, BUILD_METADATA, 0);
    FindThird(image, AIE_METADATA, 1);
    FindThird(image, AIE_PARTITION, 2);
  }

  /** In a table of three kinds the search stops at the one asked for. */
  lemma FindThird(image: seq<byte>, kind: u16, i: nat)
    requires i < 3 && TableInside(image, 3) && InsideImage(image, SectionAt(i))
    requires ReadU32(image, SectionAt(i)) == kind
    requires forall j :: 0 <= j < i ==> ReadU32(image, SectionAt(j)) != kind
    ensures FindSection(image, kind, 3, 0) ==
            Some(Section(U64At(image, SectionAt(i) + 24), U64At(image, SectionAt(i) + 32)))
  {
    hide ReadU32, U64At, InsideImage;
    FindFrom(image, kind, i, i);
  }

  lemma {:induction false} FindFrom(image: seq<byte>, kind: u16, i: nat, steps: nat)
    requires steps <= i < 3 && TableInside(image, 3)
    requires forall j :: 0 <= j < i ==> ReadU32(image, SectionAt(j)) != kind
    ensures FindSection(image, kind, 3, i - steps) == FindSection(image, kind, 3, i)
  {
    hide ReadU32, U64At, InsideImage;
    if steps > 0 {
      FindFrom(image, kind, i, steps - 1);
      assert ReadU32(image, SectionAt(i - steps)) != kind;
    }
  }

  /** The header is accepted and its words come back. */
  lemma HeaderRecovered(f: Fixture, image: seq<byte>, p: seq<byte>)
    requires Writable(f) && LayoutWith(f, image, p) && |image| < U64_LIMIT
    ensures ContainerError(image) == "" && ReadU32(image, SECTION_COUNT) == 3
    ensures Header(image) == EMPTY.(containerValid := true, mode := f.mode, actionMask := f.actionMask,
                                    modeName := ModeName(f.mode), platform := f.platform)
  {
    hide HasSection, PartitionLayout, BuildBytes, AieBytes, ReadU32, ReadU16, U64At, FixedString, InsideImage,
      Encode, FindSection, PlatformField;
    SectionsFound(f, image, p);
    HeldWords(image, HEADER, |image|);
    HeldWords(image, SECTION_COUNT, 3);
    HeldWords(image, MODE, f.mode);
    HeldWords(image, ACTION_MASK, f.actionMask);
    PlatformRecovered(f, image);
  }

  /** What the parser should report for an image: the written fields, with the two DSA exceptions. */
  function Recovered(f: Fixture): Metadata
  {
    Judged(EMPTY.(containerValid := true, hasBuild := true, hasAie := true, hasPartition := true,
      mode := f.mode, actionMask := f.actionMask, modeName := ModeName(f.mode), platform := f.platform,
      vendor := f.vendor, boardId := Unless(Hijacks(f.vendor, "board_id"), f.boardId),
      name := Unless(Hijacks(f.vendor, "name") || Hijacks(f.boardId, "name"), f.name),
      hwGen := f.driver.hwGen, numRows := f.driver.numRows, numColumns := f.driver.numColumns,
      rowStart := f.driver.rowStart, rowCount := f.driver.rowCount,
      partitionColumns := f.driver.columns, partitionStart := f.driver.start,
      sectionWidth := f.sectionWidth, sectionStart := f.sectionStart))
  }

  lemma PartitionRecovered(f: Fixture, image: seq<byte>, p: seq<byte>, at: nat, m: Metadata)
    requires PartitionLayout(f, p) && at + PARTITION_SIZE == |image| && image[at..] == p
    ensures ParsePartition(image, Section(at, PARTITION_SIZE), m) ==
            Judged(m.(sectionWidth := f.sectionWidth, sectionStart := f.sectionStart))
  {
    hide Encode, ReadU16, ReadU32, Judged, Holds;
    ShiftedWord(image, p, at, WIDTH, Encode(f.sectionWidth, 2));
    ShiftedWord(image, p, at, START_COUNT, Encode(1, 4));
    ShiftedWord(image, p, at, START_OFFSET, Encode(STARTS, 4));
    ShiftedWord(image, p, at, STARTS, Encode(f.sectionStart, 2));
    HeldWords(image, at + WIDTH, f.sectionWidth);
    HeldWords(image, at + START_COUNT, 1);
    HeldWords(image, at + START_OFFSET, STARTS);
    HeldWords(image, at + STARTS, f.sectionStart);
  }

  lemma ShiftedWord(image: seq<byte>, p: seq<byte>, at: nat, offset: nat, piece: seq<byte>)
    requires at + |p| == |image| && image[at..] == p && Holds(p, offset, piece)
    ensures Holds(image, at + offset, piece)
  {
  }

  lemma TextsRecovered(f: Fixture, image: seq<byte>, p: seq<byte>, at: nat, m: Metadata)
    requires PartitionLayout(f, p) && at + PARTITION_SIZE == |image| && image[at..] == p
    ensures ParseTexts(image, BuildText(f.vendor, f.boardId, f.name), AieText(f.driver),
                       Section(at, PARTITION_SIZE), m) ==
            Judged(WithDriver(m.(vendor := f.vendor, boardId := Unless(Hijacks(f.vendor, "board_id"), f.boardId),
                     name := Unless(Hijacks(f.vendor, "name") || Hijacks(f.boardId, "name"), f.name)), f.driver)
                   .(sectionWidth := f.sectionWidth, sectionStart := f.sectionStart))
  {
    hide PartitionLayout, BuildText, AieText, ObjectIn, WithDsa, DriverOf, WithDriver, ParsePartition, Judged, Hijacks,
         Print, DsaFields, DriverFields, Unless;
    DsaObject(f.vendor, f.boardId, f.name);
    DriverObject(f.driver);
    DsaRecovered(m, f.vendor, f.boardId, f.name);
    DriverRecovered(f.driver);
    var dsa := Print(Obj(DsaFields(f.vendor, f.boardId, f.name)));
    PartitionRecovered(f, image, p, at, WithDriver(WithDsa(m, dsa), f.driver));
  }

  lemma TextsOf(f: Fixture)
    requires Writable(f)
    ensures Text(BuildBytes(f)) == BuildText(f.vendor, f.boardId, f.name) && Text(AieBytes(f)) == AieText(f.driver)
  {
    BuildBytewise(f.vendor, f.boardId, f.name);
    AieBytewise(f.driver);
    TextOfBytes(BuildText(f.vendor, f.boardId, f.name));
    TextOfBytes(AieText(f.driver));
  }

  /** Reading back any image that carries the written fields recovers every one of them. */
  lemma RoundTrip(f: Fixture, image: seq<byte>)
    requires Writable(f) && Layout(f, image) && |image| < U64_LIMIT
    ensures Parse(image) == Recovered(f)
  {
    hide HeaderLayout, HasSection, PartitionLayout, BuildBytes, AieBytes, BuildText, AieText, Text,
      ContainerError, Header, FindSection, ReadU32, ParseTexts, Judged, Hijacks, Unless, Holds;
    var p := image[|image| - PARTITION_SIZE..];
    HeaderRecovered(f, image, p);
    SectionsFound(f, image, p);
    PartitionHasSize(f, p);
    TextsOf(f);
    var at := PAYLOAD + |BuildBytes(f)| + |AieBytes(f)|;
    TextsRecovered(f, image, p, at, Header(image).(hasBuild := true, hasAie := true, hasPartition := true));
  }

  /** The writer followed by the parser, as the repository's test composes them. */
  method WriteThenParse(f: Fixture) returns (m: Metadata)
    requires Writable(f) && PAYLOAD + |BuildBytes(f)| + |AieBytes(f)| + PARTITION_SIZE < U64_LIMIT
    ensures m == Recovered(f)
  {
    hide Layout, Parse, Recovered, BuildBytes, AieBytes;
    var image := FixtureXclbin(f);
    ImageSize(f, image);
    m := ParseGate1Metadata(image);
    RoundTrip(f, image);
  }

  lemma ImageSize(f: Fixture, image: seq<byte>)
    requires Writable(f) && Layout(f, image)
    ensures |image| == PAYLOAD + |BuildBytes(f)| + |AieBytes(f)| + PARTITION_SIZE
  {
    hide BuildBytes, AieBytes;
  }

  /** Everything comes back as written exactly when no DSA string that is followed by a non-empty field is
    that field's key, or ends in a quote and that key; all other fields come back in any case. */
  lemma StringsRecoveredIff(f: Fixture, image: seq<byte>)
    requires Writable(f) && Layout(f, image) && |image| < U64_LIMIT
    ensures var m := Parse(image);
            m.vendor == f.vendor && m.platform == f.platform && m.mode == f.mode && m.actionMask == f.actionMask &&
            (m.boardId == f.boardId <==> f.boardId == "" || !Hijacks(f.vendor, "board_id")) &&
            (m.name == f.name <==> f.name == "" || (!Hijacks(f.vendor, "name") && !Hijacks(f.boardId, "name")))
  {
    hide Layout, Parse, Hijacks;
    RoundTrip(f, image);
  }

  /** A vendor called `name` hides the name that follows it. */
  lemma VendorHidesName(f: Fixture, image: seq<byte>)
    requires Writable(f) && Layout(f, image) && |image| < U64_LIMIT
    requires f.vendor == "name" && f.boardId == "v1" && f.name == "ipu"
    ensures Parse(image).name == "" != f.name
  {
    hide Layout, Parse, Hijacks;
    HijacksItself("name");
    RoundTrip(f, image);
  }

  /** The written fields satisfy the profile, with sums over the integers. */
  predicate FieldsMatch(f: Fixture)
  {
    && f.platform == "xilinx_v1_ipu_0_0" && f.vendor == "xilinx" && f.boardId == "v1" && f.name == "ipu"
    && f.driver.hwGen == 3 && f.driver.numRows == 6 && f.driver.numColumns == 5
    && f.driver.rowStart == 2 && f.driver.rowCount == 4
    && f.actionMask % 2 == 1
    && 0 < f.driver.columns && f.driver.start + f.driver.columns <= 5
    && f.sectionWidth == f.driver.columns && f.sectionStart == f.driver.start
  }

  /** An image is accepted as a target exactly when the written fields satisfy the profile, whatever else
    the texts contain, and as a hardware image when its mode is also 0. */
  lemma AcceptedIff(f: Fixture, image: seq<byte>)
    requires Writable(f) && Layout(f, image) && |image| < U64_LIMIT
    ensures Parse(image).targetValidated <==> FieldsMatch(f)
    ensures Parse(image).realHardware <==> FieldsMatch(f) && f.mode == 0
  {
    hide Layout, Parse, Hijacks;
    RoundTrip(f, image);
    if f.vendor == "xilinx" && f.boardId == "v1" {
      NotHijacked(f);
    }
  }

  lemma NotHijacked(f: Fixture)
    requires f.vendor == "xilinx" && f.boardId == "v1"
    ensures !Hijacks(f.vendor, "board_id") && !Hijacks(f.vendor, "name") && !Hijacks(f.boardId, "name")
  {
    assert |"xilinx"| == 6 && |"board_id"| == 8 && |"name"| == 4 && |"v1"| == 2;
    assert !EndsLikeKey(f.vendor, "name") by {
      assert f.vendor[1..][0] == 'i';
      assert ([JsonScan.QUOTE] + "name")[0] == JsonScan.QUOTE;
    }
  }
}
