/** Which images the validator accepts and refuses, with the offsets and byte orders of the format written out. */
module Gate1Conditions {
  import opened Words
  import opened LittleEndian
  import opened Gate1
  import opened JsonScan
  import opened JsonText
  import opened Decimal

  // ---- the container ----

  /** The section count, in the header that begins at byte 304. */
  function Count(image: seq<byte>): nat
    requires |image| >= 456
  {
    Word32(image, 448)
  }

  predicate SmallTable(image: seq<byte>)
    requires |image| >= 456
  {
    1 <= Count(image) <= 0x1_0000 && 456 + 40 * Count(image) <= |image|
  }

  predicate SectionInside(image: seq<byte>, i: nat)
    requires 456 + 40 * i + 40 <= |image|
  {
    Word64(image, 456 + 40 * i + 24) + Word64(image, 456 + 40 * i + 32) <= |image|
  }

  predicate SectionsInside(image: seq<byte>)
    requires |image| >= 456 && SmallTable(image)
  {
    forall i :: 0 <= i < Count(image) ==> SectionInside(image, i)
  }

  /** The bytes of "xclbin2" and a zero. */
  predicate HasMagic(image: seq<byte>)
    requires |image| >= 8
  {
    && image[0] == 0x78 && image[1] == 0x63 && image[2] == 0x6C && image[3] == 0x62
    && image[4] == 0x69 && image[5] == 0x6E && image[6] == 0x32 && image[7] == 0
  }

  predicate GoodContainer(image: seq<byte>)
  {
    |image| >= 456 && HasMagic(image) && Word64(image, 304) == |image| && SmallTable(image) && SectionsInside(image)
  }

  lemma MagicBytes(image: seq<byte>)
    requires |image| >= 8
    ensures HasMagic(image) <==> image[..8] == MAGIC
  {
    if HasMagic(image) {
      assert image[..8] == [image[0], image[1], image[2], image[3], image[4], image[5], image[6], image[7]];
    }
  }

  lemma InsideAgrees(image: seq<byte>, i: nat)
    requires 456 + 40 * i + 40 <= |image|
    ensures InsideImage(image, SectionAt(i)) <==> SectionInside(image, i)
  {
    hide U64At;
    WordsRead(image, 456 + 40 * i + 24);
    WordsRead(image, 456 + 40 * i + 32);
  }

  /** The message for a refused container, by the first condition that fails; a good one has none. */
  lemma ContainerMessage(image: seq<byte>)
    ensures ContainerError(image) ==
            if |image| < 456 then "xclbin is shorter than its axlf header"
            else if !HasMagic(image) then "xclbin magic is not xclbin2"
            else if Word64(image, 304) != |image| then "xclbin length does not match the selected file"
            else if !SmallTable(image) then "xclbin section table is outside the selected file"
            else if !SectionsInside(image) then "xclbin section extends beyond the selected file"
            else ""
  {
    hide Word64, Word32, ReadU32, U64At, InsideImage, SectionInside, HasMagic;
    if |image| >= 456 {
      MagicBytes(image);
      WordsRead(image, 304);
      WordsRead(image, 448);
      if SmallTable(image) {
        forall i | 0 <= i < Count(image)
          ensures InsideImage(image, SectionAt(i)) <==> SectionInside(image, i)
        {
          InsideAgrees(image, i);
        }
      }
    }
  }

  /** A container is reported as valid exactly when it is good; otherwise the record is empty but for the message. */
  lemma ContainerValidIff(image: seq<byte>)
    ensures Parse(image).containerValid <==> GoodContainer(image)
    ensures !GoodContainer(image) ==>
              Parse(image) == EMPTY.(error := ContainerError(image)) && ContainerError(image) != ""
  {
    hide SectionsInside, HasMagic, Word64, SmallTable, ContainerError;
    ContainerMessage(image);
    if GoodContainer(image) {
      KeepsHeader(image);
    }
  }

  /** Everything the parser goes on to do keeps the header's part of the record. */
  predicate SameHeader(m: Metadata, h: Metadata)
  {
    && m.containerValid == h.containerValid && m.mode == h.mode && m.actionMask == h.actionMask
    && m.modeName == h.modeName && m.platform == h.platform
  }

  lemma KeepsHeader(image: seq<byte>)
    requires ContainerError(image) == ""
    ensures SameHeader(Parse(image), Header(image))
  {
    hide ContainerError, FindSection, ParseTexts, FixedString, ReadU16, ReadU32, ModeName, SectionText;
    var count := ReadU32(image, SECTION_COUNT);
    var build := FindSection(image, BUILD_METADATA, count, 0);
    var aie := FindSection(image, AIE_METADATA, count, 0);
    var partition := FindSection(image, AIE_PARTITION, count, 0);
    if build.Some? && aie.Some? && partition.Some? {
      var m := Header(image).(hasBuild := true, hasAie := true, hasPartition := true);
      TextsKeepHeader(image, SectionText(image, build.value), SectionText(image, aie.value), partition.value, m);
    }
  }

  lemma MessageKeepsHeader(m: Metadata, error: string)
    ensures SameHeader(m.(error := error), m)
  {
  }

  lemma TextsKeepHeader(image: seq<byte>, build: string, aie: string, p: Section, m: Metadata)
    requires p.offset + p.size <= |image|
    ensures SameHeader(ParseTexts(image, build, aie, p, m), m)
  {
    hide ParsePartition, DriverOf, ObjectIn, WithDsa, WithDriver, SameHeader;
    var dsa := ObjectIn(build, "build_metadata", "dsa");
    var config := ObjectIn(aie, "aie_metadata", "driver_config");
    if dsa.None? || config.None? {
      MessageKeepsHeader(m, "BUILD_METADATA or AIE_METADATA is not valid JSON metadata");
    } else {
      var m', driver := WithDsa(m, dsa.value), DriverOf(config.value);
      if driver.None? {
        MessageKeepsHeader(m', "AIE_METADATA driver_config lacks required target fields");
        FieldsKeepHeader(m, dsa.value, Driver(0, 0, 0, 0, 0, 0, 0), ParseTexts(image, build, aie, p, m));
      } else {
        PartitionKeepsHeader(image, p, WithDriver(m', driver.value));
        FieldsKeepHeader(m, dsa.value, driver.value, ParsePartition(image, p, WithDriver(m', driver.value)));
      }
    }
  }

  /** What keeps the header of a record with the texts' fields filled in keeps the header of the record before. */
  lemma FieldsKeepHeader(m: Metadata, dsa: string, d: Driver, r: Metadata)
    ensures SameHeader(r, WithDsa(m, dsa)) || SameHeader(r, WithDriver(WithDsa(m, dsa), d)) ==> SameHeader(r, m)
  {
  }

  lemma PartitionKeepsHeader(image: seq<byte>, p: Section, m: Metadata)
    requires p.offset + p.size <= |image|
    ensures SameHeader(ParsePartition(image, p, m), m)
  {
    hide FirstStart, ReadU16, Judged, SameHeader;
    if p.size < START_OFFSET + 4 {
      MessageKeepsHeader(m, "AIE_PARTITION section is shorter than its public header");
    } else {
      var width, first := ReadU16(image, p.offset + WIDTH), FirstStart(image, p);
      if first.None? {
        MessageKeepsHeader(m.(sectionWidth := width), "AIE_PARTITION start_columns array is outside its section");
        ColumnsKeepHeader(m, width, 0, ParsePartition(image, p, m));
      } else {
        JudgedKeepsHeader(m.(sectionWidth := width, sectionStart := first.value));
        ColumnsKeepHeader(m, width, first.value, ParsePartition(image, p, m));
      }
    }
  }

  lemma ColumnsKeepHeader(m: Metadata, width: u16, start: u16, r: Metadata)
    ensures SameHeader(r, m.(sectionWidth := width)) ==> SameHeader(r, m)
    ensures SameHeader(r, m.(sectionWidth := width, sectionStart := start)) ==> SameHeader(r, m)
  {
  }

  lemma JudgedKeepsHeader(m: Metadata)
    ensures SameHeader(Judged(m), m)
  {
    hide ProfileMatches;
  }

  // ---- the header ----

  /** `t` is the text of a field's bytes, cut off at the first zero if there is one. */
  predicate TextOf(t: string, field: seq<byte>)
  {
    && |t| <= |field|
    && (forall i :: 0 <= i < |t| ==> field[i] != 0 && t[i] as int == field[i])
    && (|t| < |field| ==> field[|t|] == 0)
  }

  lemma {:induction false} FixedStringIs(field: seq<byte>)
    ensures TextOf(FixedString(field), field)
  {
    if field != [] && field[0] != 0 {
      FixedStringIs(field[1..]);
      var rest := FixedString(field[1..]);
      var t := [field[0] as char] + rest;
      forall i | 0 <= i < |t|
        ensures field[i] != 0 && t[i] as int == field[i]
      {
        if i > 0 {
          assert t[i] == rest[i - 1] && field[i] == field[1..][i - 1];
        }
      }
    }
  }

  function NameOfMode(mode: int): string
  {
    if mode == 0 then "hw" else if mode == 4 then "hw_emu" else if mode == 5 then "sw_emu"
    else if mode == 6 then "hw_emu_pr" else "unknown"
  }

  /** What a good container's record says of the header: two 16-bit words, the mode's name and the platform text. */
  lemma HeaderFields(image: seq<byte>)
    requires GoodContainer(image)
    ensures var m := Parse(image);
            m.mode == Word16(image, 332) && m.actionMask == Word16(image, 334) &&
            m.modeName == NameOfMode(Word16(image, 332)) && TextOf(m.platform, image[352..416])
  {
    hide ContainerError, FixedString, Parse, Word16, ReadU16;
    assert |image| >= 456;
    ContainerMessage(image);
    KeepsHeader(image);
    WordsRead(image, 332);
    WordsRead(image, 334);
    FixedStringIs(image[352..416]);
  }

  // ---- the sections ----

  predicate HasKind(image: seq<byte>, kind: nat)
    requires |image| >= 456 && SmallTable(image)
  {
    exists i :: 0 <= i < Count(image) && KindAt(image, i) == kind
  }

  function KindAt(image: seq<byte>, i: nat): nat
    requires 456 + 40 * i + 40 <= |image|
  {
    Word32(image, 456 + 40 * i)
  }

  lemma {:induction false} KindFound(image: seq<byte>, kind: nat, count: nat, index: nat)
    requires index <= count && 456 + 40 * count <= |image|
    requires forall i :: index <= i < count ==> SectionInside(image, i)
    ensures FindSection(image, kind, count, index).Some? <==> exists i :: index <= i < count && KindAt(image, i) == kind
    decreases count - index
  {
    hide ReadU32, InsideImage, SectionInside, KindAt, U64At;
    if index < count {
      KindRead(image, index);
      InsideAgrees(image, index);
      KindFound(image, kind, count, index + 1);
    }
  }

  /** Of several sections of a kind the first one is taken, with the offset and size in its header. */
  lemma {:induction false} FirstOfKind(image: seq<byte>, kind: nat, count: nat, index: nat, at: nat)
    requires index <= at < count && 456 + 40 * count <= |image|
    requires SectionInside(image, at) && KindAt(image, at) == kind
    requires forall i :: index <= i < at ==> KindAt(image, i) != kind
    ensures FindSection(image, kind, count, index) ==
            Some(Section(Word64(image, 456 + 40 * at + 24), Word64(image, 456 + 40 * at + 32)))
    decreases at - index
  {
    hide ReadU32, InsideImage, SectionInside, KindAt, U64At, Word64;
    KindRead(image, index);
    if index < at {
      FirstOfKind(image, kind, count, index + 1, at);
    } else {
      InsideAgrees(image, at);
      WordsRead(image, 456 + 40 * at + 24);
      WordsRead(image, 456 + 40 * at + 32);
    }
  }

  lemma KindRead(image: seq<byte>, i: nat)
    requires 456 + 40 * i + 40 <= |image|
    ensures ReadU32(image, SectionAt(i)) == KindAt(image, i)
  {
    WordsRead(image, 456 + 40 * i);
  }

  /** In a good container a section is reported exactly when the table has its kind, and a missing one is an error. */
  lemma SectionsReported(image: seq<byte>)
    requires GoodContainer(image)
    ensures var m := Parse(image);
            (m.hasBuild <==> HasKind(image, 14)) && (m.hasAie <==> HasKind(image, 25)) &&
            (m.hasPartition <==> HasKind(image, 32)) &&
            (!(m.hasBuild && m.hasAie && m.hasPartition) ==>
               m.error == MISSING && !m.targetValidated)
  {
    hide ContainerError, FindSection, ParseSections, Header, ReadU32, HasMagic, Word64, Word32, SectionInside, KindAt;
    ContainerMessage(image);
    WordsRead(image, 448);
    KindFound(image, 14, Count(image), 0);
    KindFound(image, 25, Count(image), 0);
    KindFound(image, 32, Count(image), 0);
    HeaderPending(image);
    SectionsParsed(image, Count(image), Header(image));
  }

  const MISSING := "xclbin is missing BUILD_METADATA, AIE_METADATA, or AIE_PARTITION"

  /** Either all three are found and the texts decide, or the record says which are missing. */
  lemma SectionsParsed(image: seq<byte>, count: nat, m: Metadata)
    requires TableInside(image, count) && Pending(m)
    ensures var r := ParseSections(image, count, m);
            r.hasBuild == FindSection(image, 14, count, 0).Some? &&
            r.hasAie == FindSection(image, 25, count, 0).Some? &&
            r.hasPartition == FindSection(image, 32, count, 0).Some? &&
            (!(r.hasBuild && r.hasAie && r.hasPartition) ==> r.error == MISSING && !r.targetValidated)
  {
    hide FindSection, ParseTexts, SectionText, Sound;
    var build := FindSection(image, 14, count, 0);
    var aie := FindSection(image, 25, count, 0);
    var partition := FindSection(image, 32, count, 0);
    if build.Some? && aie.Some? && partition.Some? {
      var m' := m.(hasBuild := true, hasAie := true, hasPartition := true);
      TextsSound(image, SectionText(image, build.value), SectionText(image, aie.value), partition.value, m');
    }
  }

  lemma HeaderPending(image: seq<byte>)
    requires |image| >= 456
    ensures Pending(Header(image))
  {
  }

  // ---- the partition section ----

  /** From byte 32 a 16-bit width, from 40 and 44 the count and the offset of the start columns. */
  predicate StartsInside(image: seq<byte>, p: Section)
    requires p.offset + p.size <= |image| && p.size >= 48
  {
    var count, start := Word32(image, p.offset + 40), Word32(image, p.offset + 44);
    count != 0 && start + 2 * count <= p.size
  }

  lemma FirstStartIs(image: seq<byte>, p: Section)
    requires p.offset + p.size <= |image| && p.size >= 48
    ensures StartsInside(image, p) ==> p.offset + Word32(image, p.offset + 44) + 2 <= |image|
    ensures FirstStart(image, p) ==
            if StartsInside(image, p) then Some(Word16(image, p.offset + Word32(image, p.offset + 44))) else None
  {
    hide Word16, Word32, ReadU16, ReadU32;
    WordsRead(image, p.offset + 40);
    WordsRead(image, p.offset + 44);
    if StartsInside(image, p) {
      WordsRead(image, p.offset + Word32(image, p.offset + 44));
    }
  }

  const SHORT := "AIE_PARTITION section is shorter than its public header"
  const OUTSIDE := "AIE_PARTITION start_columns array is outside its section"

  /** What is read from the section, or why it is refused. */
  lemma PartitionRead(image: seq<byte>, p: Section, m: Metadata)
    requires p.offset + p.size <= |image|
    ensures var r := ParsePartition(image, p, m);
            if p.size < 48 then r == m.(error := SHORT)
            else
              r.sectionWidth == Word16(image, p.offset + 32) &&
              if !StartsInside(image, p) then r.error == OUTSIDE && r.targetValidated == m.targetValidated
              else p.offset + Word32(image, p.offset + 44) + 2 <= |image| &&
                   r.sectionStart == Word16(image, p.offset + Word32(image, p.offset + 44))
  {
    hide Word16, Word32, ReadU16, StartsInside, FirstStart, ProfileMatches;
    if p.size >= 48 {
      WordsRead(image, p.offset + 32);
      FirstStartIs(image, p);
    }
  }

  // ---- the texts ----

  /** Blanks at both ends of a value are dropped and nothing else is. */
  lemma TrimMeaning(before: string, t: string, after: string)
    requires AllBlank(before) && AllBlank(after) && t != [] && !Blank(t[0]) && !Blank(t[|t| - 1])
    ensures Gate1.Trim(before + t + after) == t
  {
    assert before + t + after == before + (t + after);
    BlanksSkipped(before, t + after);
    DropBack(t, after);
  }

  lemma {:induction false} DropBack(t: string, b: string)
    requires AllBlank(b) && t != [] && !Blank(t[|t| - 1])
    ensures TrimEnd(t + b) == t
    decreases |b|
  {
    if b == [] {
      assert t + b == t;
    } else {
      assert (t + b)[..|t + b| - 1] == t + b[..|b| - 1];
      DropBack(t, b[..|b| - 1]);
    }
  }

  /** A 32-bit number is read with any blanks around it. */
  lemma BlankDecimal(before: string, v: nat, after: string)
    requires AllBlank(before) && AllBlank(after)
    ensures DecimalString(before + Digits(v) + after) == if v < U32_LIMIT then Some(v) else None
  {
    hide Gate1.Trim;
    DigitsValue(v);
    TrimMeaning(before, Digits(v), after);
    FromCharsOfDigits(v);
  }

  const NOT_JSON := "BUILD_METADATA or AIE_METADATA is not valid JSON metadata"
  const LACKS := "AIE_METADATA driver_config lacks required target fields"

  /** Some driver number is missing or is no 32-bit decimal. */
  predicate LacksNumber(config: string)
  {
    || DecimalAt(config, "hw_gen").None? || DecimalAt(config, "num_rows").None?
    || DecimalAt(config, "num_columns").None?
    || DecimalAt(config, "aie_tile_row_start").None? || DecimalAt(config, "aie_tile_num_rows").None?
    || DecimalAt(config, "partition_num_cols").None?
    || FirstArrayStringAt(config, "partition_overlay_start_cols").None?
    || DecimalString(FirstArrayStringAt(config, "partition_overlay_start_cols").value).None?
  }

  lemma DriverNoneIff(config: string)
    ensures DriverOf(config).None? <==> LacksNumber(config)
  {
    hide DecimalAt, DecimalString, FirstArrayStringAt;
  }

  /** The messages for texts that lack an object or a driver number. */
  lemma TextsMessage(image: seq<byte>, build: string, aie: string, p: Section, m: Metadata)
    requires p.offset + p.size <= |image|
    ensures var r := ParseTexts(image, build, aie, p, m);
            var dsa, config := ObjectIn(build, "build_metadata", "dsa"), ObjectIn(aie, "aie_metadata", "driver_config");
            (dsa.None? || config.None? ==> r == m.(error := NOT_JSON)) &&
            (dsa.Some? && config.Some? && LacksNumber(config.value) ==>
               r.error == LACKS && r.targetValidated == m.targetValidated)
  {
    hide ObjectIn, DriverOf, LacksNumber, ParsePartition, StringAt, OrEmpty;
    var config := ObjectIn(aie, "aie_metadata", "driver_config");
    if config.Some? {
      DriverNoneIff(config.value);
    }
  }

  const MISMATCH := "xclbin metadata does not match the Phoenix/NPU1/AIE2 profile"

  /** The verdict on a complete record: the profile decides, and mode 0 makes it hardware. */
  lemma JudgedMeaning(m: Metadata)
    ensures Judged(m) == if ProfileMatches(m) then m.(targetValidated := true, realHardware := m.mode == 0, error := "")
                         else m.(targetValidated := false, realHardware := false, error := MISMATCH)
  {
    hide ProfileMatches;
  }
}
