/** The xclbin validator: container bounds, section lookup, metadata extraction and the target profile.

  `Parse` says what the answer is for any image; `ParseGate1Metadata` is the source's code, filling the
  record field by field, and is proved to give that answer with every read inside the image. */
module Gate1 {
  import opened Words
  import opened LittleEndian
  import opened Decimal
  import opened JsonScan

  const HEADER := 304
  const MODE := HEADER + 28
  const ACTION_MASK := HEADER + 30
  const PLATFORM := HEADER + 48
  const PLATFORM_SIZE := 64
  const SECTION_COUNT := HEADER + 144
  const SECTIONS := 456
  const SECTION_SIZE := 40
  const MAGIC: seq<byte> := [0x78, 0x63, 0x6C, 0x62, 0x69, 0x6E, 0x32, 0]

  const BUILD_METADATA := 14
  const AIE_METADATA := 25
  const AIE_PARTITION := 32

  const WIDTH := 32
  const START_COUNT := 40
  const START_OFFSET := 44

  datatype Metadata = Metadata(
    containerValid: bool, hasBuild: bool, hasAie: bool, hasPartition: bool,
    targetValidated: bool, realHardware: bool,
    mode: u16, actionMask: u16, modeName: string, platform: string,
    vendor: string, boardId: string, name: string,
    hwGen: u32, numRows: u32, numColumns: u32, rowStart: u32, rowCount: u32,
    partitionColumns: u32, partitionStart: u32, sectionWidth: u32, sectionStart: u32,
    error: string)

  const EMPTY := Metadata(false, false, false, false, false, false, 0, 0, "", "", "", "", "",
                          0, 0, 0, 0, 0, 0, 0, 0, 0, "")

  datatype Section = Section(offset: nat, size: nat)

  // ---- texts ----

  function Text(b: seq<byte>): (t: string)
    ensures |t| == |b|
  {
    seq(|b|, i requires 0 <= i < |b| => b[i] as char)
  }

  /** A NUL-terminated text in a field of fixed size. */
  function FixedString(field: seq<byte>): string
  {
    if field == [] || field[0] == 0 then "" else [field[0] as char] + FixedString(field[1..])
  }

  function TrimEnd(t: string): string
  {
    if t != [] && IsBlank(t[|t| - 1]) then TrimEnd(t[..|t| - 1]) else t
  }

  function Trim(t: string): string { TrimEnd(SkipBlanks(t)) }

  function DecimalString(t: string): Option<u32> { FromChars(Trim(t)) }

  function DecimalAt(t: string, key: string): Option<u32>
  {
    var s := StringAt(t, key);
    if s.None? then None else DecimalString(s.value)
  }

  /** The object under `inner` inside the object under `outer`. */
  function ObjectIn(t: string, outer: string, inner: string): Option<string>
  {
    var root := ObjectAt(t, outer);
    if root.None? then None else ObjectAt(root.value, inner)
  }

  function OrEmpty(s: Option<string>): string { if s.None? then "" else s.value }

  // ---- the container ----

  function SectionAt(index: nat): nat { SECTIONS + index * SECTION_SIZE }

  predicate InsideImage(image: seq<byte>, header: nat)
    requires header + SECTION_SIZE <= |image|
  {
    U64At(image, header + 24) + U64At(image, header + 32) <= |image|
  }

  predicate TableInside(image: seq<byte>, count: nat) { SectionAt(count) <= |image| }

  /** Why the container is refused, or "". */
  function ContainerError(image: seq<byte>): (error: string)
    ensures error == "" ==> |image| >= SECTIONS && TableInside(image, ReadU32(image, SECTION_COUNT))
  {
    if |image| < SECTIONS then "xclbin is shorter than its axlf header"
    else if image[..8] != MAGIC then "xclbin magic is not xclbin2"
    else if U64At(image, HEADER) != |image| then "xclbin length does not match the selected file"
    else
      var count := ReadU32(image, SECTION_COUNT);
      if count == 0 || count > 0x1_0000 || !TableInside(image, count) then
        "xclbin section table is outside the selected file"
      else if exists i :: 0 <= i < count && !InsideImage(image, SectionAt(i)) then
        "xclbin section extends beyond the selected file"
      else ""
  }

  /** The first section of a kind from `index` on, unless it reaches outside the image. */
  function FindSection(image: seq<byte>, kind: nat, count: nat, index: nat): (s: Option<Section>)
    requires index <= count && TableInside(image, count)
    ensures s.Some? ==> s.value.offset + s.value.size <= |image|
    decreases count - index
  {
    var header := SectionAt(index);
    if index == count then None
    else if ReadU32(image, header) != kind then FindSection(image, kind, count, index + 1)
    else if InsideImage(image, header) then
      Some(Section(U64At(image, header + 24), U64At(image, header + 32)))
    else None
  }

  function ModeName(mode: u16): string
  {
    match mode
    case 0 => "hw"
    case 4 => "hw_emu"
    case 5 => "sw_emu"
    case 6 => "hw_emu_pr"
    case _ => "unknown"
  }

  // ---- the metadata ----

  datatype Driver = Driver(
    hwGen: u32, numRows: u32, numColumns: u32, rowStart: u32, rowCount: u32, columns: u32, start: u32)

  function DriverOf(config: string): Option<Driver>
  {
    var hwGen := DecimalAt(config, "hw_gen");
    var rows, cols := DecimalAt(config, "num_rows"), DecimalAt(config, "num_columns");
    var rowStart, rowCount := DecimalAt(config, "aie_tile_row_start"), DecimalAt(config, "aie_tile_num_rows");
    var columns := DecimalAt(config, "partition_num_cols");
    var overlay := FirstArrayStringAt(config, "partition_overlay_start_cols");
    var start := if overlay.None? then None else DecimalString(overlay.value);
    if hwGen.None? || rows.None? || cols.None? || rowStart.None? || rowCount.None? || columns.None? || start.None?
    then None
    else Some(Driver(hwGen.value, rows.value, cols.value, rowStart.value, rowCount.value, columns.value, start.value))
  }

  function WithDsa(m: Metadata, dsa: string): Metadata
  {
    m.(vendor := OrEmpty(StringAt(dsa, "vendor")), boardId := OrEmpty(StringAt(dsa, "board_id")),
       name := OrEmpty(StringAt(dsa, "name")))
  }

  function WithDriver(m: Metadata, d: Driver): Metadata
  {
    m.(hwGen := d.hwGen, numRows := d.numRows, numColumns := d.numColumns, rowStart := d.rowStart,
       rowCount := d.rowCount, partitionColumns := d.columns, partitionStart := d.start)
  }

  /** The Phoenix profile; the column sum is a 32-bit sum. */
  predicate ProfileMatches(m: Metadata)
  {
    && m.platform == "xilinx_v1_ipu_0_0"
    && m.vendor == "xilinx" && m.boardId == "v1" && m.name == "ipu"
    && m.hwGen == 3 && m.numRows == 6 && m.numColumns == 5 && m.rowStart == 2 && m.rowCount == 4
    && m.actionMask % 2 != 0
    && m.partitionColumns > 0
    && (m.partitionStart + m.partitionColumns) % U32_LIMIT <= m.numColumns
    && m.sectionWidth == m.partitionColumns && m.sectionStart == m.partitionStart
  }

  function Judged(m: Metadata): Metadata
  {
    var ok := ProfileMatches(m);
    m.(targetValidated := ok, realHardware := ok && m.mode == 0,
       error := if ok then "" else "xclbin metadata does not match the Phoenix/NPU1/AIE2 profile")
  }

  /** The binary partition section, cross-checked with what the texts said. */
  function ParsePartition(image: seq<byte>, p: Section, m: Metadata): Metadata
    requires p.offset + p.size <= |image|
  {
    if p.size < START_OFFSET + 4 then m.(error := "AIE_PARTITION section is shorter than its public header")
    else
      var m, first := m.(sectionWidth := ReadU16(image, p.offset + WIDTH)), FirstStart(image, p);
      if first.None? then m.(error := "AIE_PARTITION start_columns array is outside its section")
      else Judged(m.(sectionStart := first.value))
  }

  /** The first entry of the start-column array, if the whole array lies inside the section. */
  function FirstStart(image: seq<byte>, p: Section): Option<u16>
    requires p.offset + p.size <= |image| && p.size >= START_OFFSET + 4
  {
    var count, start := ReadU32(image, p.offset + START_COUNT), ReadU32(image, p.offset + START_OFFSET);
    if count == 0 || start + count * 2 > p.size then None else Some(ReadU16(image, p.offset + start))
  }

  function ParseTexts(image: seq<byte>, build: string, aie: string, p: Section, m: Metadata): Metadata
    requires p.offset + p.size <= |image|
  {
    var dsa := ObjectIn(build, "build_metadata", "dsa");
    var config := ObjectIn(aie, "aie_metadata", "driver_config");
    if dsa.None? || config.None? then
      m.(error := "BUILD_METADATA or AIE_METADATA is not valid JSON metadata")
    else
      var m, driver := WithDsa(m, dsa.value), DriverOf(config.value);
      if driver.None? then m.(error := "AIE_METADATA driver_config lacks required target fields")
      else ParsePartition(image, p, WithDriver(m, driver.value))
  }

  function SectionText(image: seq<byte>, s: Section): string
    requires s.offset + s.size <= |image|
  {
    Text(image[s.offset..s.offset + s.size])
  }

  function ParseSections(image: seq<byte>, count: nat, m: Metadata): Metadata
    requires TableInside(image, count)
  {
    var build := FindSection(image, BUILD_METADATA, count, 0);
    var aie := FindSection(image, AIE_METADATA, count, 0);
    var partition := FindSection(image, AIE_PARTITION, count, 0);
    var m := m.(hasBuild := build.Some?, hasAie := aie.Some?, hasPartition := partition.Some?);
    if build.None? || aie.None? || partition.None? then
      m.(error := "xclbin is missing BUILD_METADATA, AIE_METADATA, or AIE_PARTITION")
    else
      ParseTexts(image, SectionText(image, build.value), SectionText(image, aie.value), partition.value, m)
  }

  function Header(image: seq<byte>): Metadata
    requires |image| >= SECTIONS
  {
    var mode := ReadU16(image, MODE);
    EMPTY.(containerValid := true, mode := mode, actionMask := ReadU16(image, ACTION_MASK),
           modeName := ModeName(mode), platform := FixedString(image[PLATFORM..PLATFORM + PLATFORM_SIZE]))
  }

  function Parse(image: seq<byte>): Metadata
  {
    var error := ContainerError(image);
    if error != "" then EMPTY.(error := error)
    else ParseSections(image, ReadU32(image, SECTION_COUNT), Header(image))
  }

  // ---- the source's loops ----

  method ReadFixedString(image: seq<byte>, offset: nat, size: nat) returns (t: string)
    requires offset + size <= |image|
    ensures t == FixedString(image[offset..offset + size])
  {
    var end := offset;
    t := "";
    ghost var whole := FixedString(image[offset..offset + size]);
    while end < offset + size && image[end] != 0
      invariant offset <= end <= offset + size
      invariant whole == t + FixedString(image[end..offset + size])
    {
      assert image[end..offset + size][1..] == image[end + 1..offset + size];
      t := t + [image[end] as char];
      end := end + 1;
    }
  }

  method TrimBlanks(t: string) returns (r: string)
    ensures r == Trim(t)
  {
    var begin := SkipBlanksFrom(t, 0);
    assert t[0..] == t;
    var end := |t|;
    assert t[begin..end] == t[begin..];
    while end > begin && IsBlank(t[end - 1])
      invariant begin <= end <= |t|
      invariant TrimEnd(t[begin..end]) == Trim(t)
    {
      assert t[begin..end][..end - begin - 1] == t[begin..end - 1];
      end := end - 1;
    }
    r := t[begin..end];
  }

  method JsonDecimal(t: string, key: string) returns (r: Option<u32>)
    ensures r == DecimalAt(t, key)
  {
    var value := JsonString(t, key);
    if value.None? {
      return None;
    }
    var clean := TrimBlanks(value.value);
    r := FromChars(clean);
  }

  method FirstSection(image: seq<byte>, kind: nat, count: nat) returns (s: Option<Section>)
    requires TableInside(image, count)
    ensures s == FindSection(image, kind, count, 0)
  {
    for index := 0 to count
      invariant FindSection(image, kind, count, 0) == FindSection(image, kind, count, index)
    {
      var offset := SECTIONS + index * SECTION_SIZE;
      if ReadU32(image, offset) == kind {
        var at := ReadU64(image, offset + 24);
        var size := ReadU64(image, offset + 32);
        if at > |image| || size > |image| - at {
          return None;
        }
        return Some(Section(at, size));
      }
    }
    s := None;
  }

  method CheckContainer(image: seq<byte>) returns (error: string)
    ensures error == ContainerError(image)
  {
    hide InsideImage, U64At, ReadU32;
    if |image| < SECTIONS {
      return "xclbin is shorter than its axlf header";
    }
    if image[..8] != MAGIC {
      return "xclbin magic is not xclbin2";
    }
    var declared := ReadU64(image, HEADER);
    if declared != |image| {
      return "xclbin length does not match the selected file";
    }
    var count := ReadU32(image, SECTION_COUNT);
    if count == 0 || count > 0x1_0000 || count > (|image| - SECTIONS) / SECTION_SIZE {
      return "xclbin section table is outside the selected file";
    }
    var inside := SectionsInside(image, count);
    if !inside {
      return "xclbin section extends beyond the selected file";
    }
    return "";
  }

  /** The loop over the section table. */
  method SectionsInside(image: seq<byte>, count: nat) returns (inside: bool)
    requires TableInside(image, count)
    ensures inside <==> forall i :: 0 <= i < count ==> InsideImage(image, SectionAt(i))
  {
    hide U64At;
    for index := 0 to count
      invariant forall i :: 0 <= i < index ==> InsideImage(image, SectionAt(i))
    {
      var offset := SECTIONS + index * SECTION_SIZE;
      var at := ReadU64(image, offset + 24);
      var size := ReadU64(image, offset + 32);
      if at > |image| || size > |image| - at {
        assert !InsideImage(image, SectionAt(index));
        return false;
      }
    }
    return true;
  }

  method ReadDriver(config: string) returns (d: Option<Driver>)
    ensures d == DriverOf(config)
  {
    var hwGen := JsonDecimal(config, "hw_gen");
    var rows := JsonDecimal(config, "num_rows");
    var columns := JsonDecimal(config, "num_columns");
    var rowStart := JsonDecimal(config, "aie_tile_row_start");
    var rowCount := JsonDecimal(config, "aie_tile_num_rows");
    var partitionColumns := JsonDecimal(config, "partition_num_cols");
    var overlay := JsonFirstArrayString(config, "partition_overlay_start_cols");
    if hwGen.None? || rows.None? || columns.None? || rowStart.None? || rowCount.None?
       || partitionColumns.None? || overlay.None? {
      return None;
    }
    var clean := TrimBlanks(overlay.value);
    var start := FromChars(clean);
    if start.None? {
      return None;
    }
    return Some(Driver(hwGen.value, rows.value, columns.value, rowStart.value, rowCount.value,
                       partitionColumns.value, start.value));
  }

  method ReadPartition(image: seq<byte>, p: Section, before: Metadata) returns (m: Metadata)
    requires p.offset + p.size <= |image|
    ensures m == ParsePartition(image, p, before)
  {
    hide Judged, ReadU16, FirstStart;
    m := before;
    if p.size < START_OFFSET + 4 || p.size < WIDTH + 2 {
      m := m.(error := "AIE_PARTITION section is shorter than its public header");
      return;
    }
    m := m.(sectionWidth := ReadU16(image, p.offset + WIDTH));
    var first := ReadFirstStart(image, p);
    if first.None? {
      m := m.(error := "AIE_PARTITION start_columns array is outside its section");
      return;
    }
    m := m.(sectionStart := first.value);
    m := Judged(m);
  }

  /** The checks and the read of the start-column array. */
  method ReadFirstStart(image: seq<byte>, p: Section) returns (first: Option<u16>)
    requires p.offset + p.size <= |image| && p.size >= START_OFFSET + 4
    ensures first == FirstStart(image, p)
  {
    hide ReadU16, ReadU32;
    var count := ReadU32(image, p.offset + START_COUNT);
    var start := ReadU32(image, p.offset + START_OFFSET);
    if count == 0 || count > p.size / 2 || start > p.size || count as int * 2 > p.size - start {
      return None;
    }
    return Some(ReadU16(image, p.offset + start));
  }

  /** `parse_gate1_metadata`: it accepts any byte sequence at all. */
  method ParseGate1Metadata(image: seq<byte>) returns (m: Metadata)
    ensures m == Parse(image)
  {
    hide ContainerError, FindSection, ParsePartition, DriverOf, ObjectAt, StringAt;
    m := EMPTY;
    var error := CheckContainer(image);
    if error != "" {
      m := m.(error := error);
      return;
    }
    var count := ReadU32(image, SECTION_COUNT);
    m := m.(containerValid := true);
    m := m.(mode := ReadU16(image, MODE));
    m := m.(actionMask := ReadU16(image, ACTION_MASK));
    m := m.(modeName := ModeName(m.mode));
    var platform := ReadFixedString(image, PLATFORM, PLATFORM_SIZE);
    m := m.(platform := platform);

    var build := FirstSection(image, BUILD_METADATA, count);
    var aie := FirstSection(image, AIE_METADATA, count);
    var partition := FirstSection(image, AIE_PARTITION, count);
    m := m.(hasBuild := build.Some?);
    m := m.(hasAie := aie.Some?);
    m := m.(hasPartition := partition.Some?);
    if build.None? || aie.None? || partition.None? {
      m := m.(error := "xclbin is missing BUILD_METADATA, AIE_METADATA, or AIE_PARTITION");
      return;
    }
    m := ReadTexts(image, SectionText(image, build.value), SectionText(image, aie.value), partition.value, m);
  }

  method ReadObjectIn(t: string, outer: string, inner: string) returns (r: Option<string>)
    ensures r == ObjectIn(t, outer, inner)
  {
    var root := JsonObject(t, outer);
    if root.None? {
      return None;
    }
    r := JsonObject(root.value, inner);
  }

  method ReadDsa(dsa: string, before: Metadata) returns (m: Metadata)
    ensures m == WithDsa(before, dsa)
  {
    hide StringAt, OrEmpty;
    m := before;
    var vendor := JsonString(dsa, "vendor");
    m := m.(vendor := OrEmpty(vendor));
    var boardId := JsonString(dsa, "board_id");
    m := m.(boardId := OrEmpty(boardId));
    var name := JsonString(dsa, "name");
    m := m.(name := OrEmpty(name));
  }

  method ReadTexts(image: seq<byte>, build: string, aie: string, partition: Section, before: Metadata)
    returns (m: Metadata)
    requires partition.offset + partition.size <= |image|
    ensures m == ParseTexts(image, build, aie, partition, before)
  {
    hide ObjectIn, DriverOf, ParsePartition, WithDsa, WithDriver;
    m := before;
    var dsa := ReadObjectIn(build, "build_metadata", "dsa");
    var config := ReadObjectIn(aie, "aie_metadata", "driver_config");
    if dsa.None? || config.None? {
      m := m.(error := "BUILD_METADATA or AIE_METADATA is not valid JSON metadata");
      return;
    }
    m := ReadDsa(dsa.value, m);
    var driver := ReadDriver(config.value);
    if driver.None? {
      m := m.(error := "AIE_METADATA driver_config lacks required target fields");
      return;
    }
    m := WithDriver(m, driver.value);
    m := ReadPartition(image, partition, m);
  }

  // ---- what a verdict means, for any bytes ----

  /** Still undecided: nothing is claimed yet. */
  predicate Pending(m: Metadata) { !m.targetValidated && !m.realHardware && m.sectionWidth == 0 && m.sectionStart == 0 }

  /** The verdict and the error message agree, and a validated target has the whole profile. */
  predicate Sound(m: Metadata)
  {
    && (m.targetValidated <==> m.error == "")
    && (m.realHardware <==> m.targetValidated && m.mode == 0)
    && (m.targetValidated ==> ProfileMatches(m))
    && m.sectionWidth < 0x1_0000 && m.sectionStart < 0x1_0000
  }

  predicate SameSections(r: Metadata, m: Metadata)
  {
    r.hasBuild == m.hasBuild && r.hasAie == m.hasAie && r.hasPartition == m.hasPartition
  }

  lemma JudgedSound(m: Metadata)
    requires m.sectionWidth < 0x1_0000 && m.sectionStart < 0x1_0000
    ensures Sound(Judged(m)) && SameSections(Judged(m), m)
  {
  }

  lemma RefusedSound(m: Metadata, error: string)
    requires !m.targetValidated && !m.realHardware && m.sectionWidth < 0x1_0000 && m.sectionStart == 0 && error != ""
    ensures Sound(m.(error := error)) && SameSections(m.(error := error), m)
  {
  }

  lemma PartitionSound(image: seq<byte>, p: Section, m: Metadata)
    requires p.offset + p.size <= |image| && Pending(m)
    ensures Sound(ParsePartition(image, p, m)) && SameSections(ParsePartition(image, p, m), m)
  {
    hide Judged, ReadU16, FirstStart, Sound;
    if p.size < START_OFFSET + 4 {
      RefusedSound(m, "AIE_PARTITION section is shorter than its public header");
    } else {
      var m, first := m.(sectionWidth := ReadU16(image, p.offset + WIDTH)), FirstStart(image, p);
      if first.None? {
        RefusedSound(m, "AIE_PARTITION start_columns array is outside its section");
      } else {
        JudgedSound(m.(sectionStart := first.value));
      }
    }
  }

  lemma DsaPending(m: Metadata, dsa: string)
    requires Pending(m)
    ensures Pending(WithDsa(m, dsa)) && SameSections(WithDsa(m, dsa), m)
  {
  }

  lemma FieldsPending(m: Metadata, d: Driver)
    requires Pending(m)
    ensures Pending(WithDriver(m, d)) && SameSections(WithDriver(m, d), m)
  {
  }

  lemma TextsSound(image: seq<byte>, build: string, aie: string, p: Section, m: Metadata)
    requires p.offset + p.size <= |image| && Pending(m)
    ensures Sound(ParseTexts(image, build, aie, p, m)) && SameSections(ParseTexts(image, build, aie, p, m), m)
  {
    hide ParsePartition, DriverOf, ObjectIn, WithDsa, WithDriver, Sound;
    var dsa := ObjectIn(build, "build_metadata", "dsa");
    var config := ObjectIn(aie, "aie_metadata", "driver_config");
    if dsa.None? || config.None? {
      RefusedSound(m, "BUILD_METADATA or AIE_METADATA is not valid JSON metadata");
    } else {
      DsaPending(m, dsa.value);
      var m, driver := WithDsa(m, dsa.value), DriverOf(config.value);
      if driver.None? {
        RefusedSound(m, "AIE_METADATA driver_config lacks required target fields");
      } else {
        FieldsPending(m, driver.value);
        PartitionSound(image, p, WithDriver(m, driver.value));
      }
    }
  }

  /** A target is validated exactly when there is no error message, and then the container and all three
    sections are good and the whole profile holds; real hardware is that and mode 0. */
  lemma Verdict(image: seq<byte>)
    ensures var m := Parse(image);
            Sound(m) && (m.targetValidated ==> ContainerError(image) == "" && m.hasBuild && m.hasAie && m.hasPartition)
  {
    hide ContainerError, FindSection, ParseTexts, FixedString, ProfileMatches, ReadU16, ReadU32, ModeName, SectionText;
    if ContainerError(image) == "" {
      var count := ReadU32(image, SECTION_COUNT);
      var build := FindSection(image, BUILD_METADATA, count, 0);
      var aie := FindSection(image, AIE_METADATA, count, 0);
      var partition := FindSection(image, AIE_PARTITION, count, 0);
      if build.Some? && aie.Some? && partition.Some? {
        var m := Header(image).(hasBuild := true, hasAie := true, hasPartition := true);
        TextsSound(image, SectionText(image, build.value), SectionText(image, aie.value), partition.value, m);
      }
    }
  }

  /** The validated columns really fit: `start + width` is at most `num_columns` as integers, since the
    16-bit fields of the partition section leave no room for the 32-bit sum to wrap. */
  lemma ValidatedColumnsFit(image: seq<byte>)
    ensures var m := Parse(image);
            m.targetValidated ==> 0 < m.partitionColumns && m.partitionStart + m.partitionColumns <= m.numColumns
  {
    hide Parse;
    Verdict(image);
  }
}
