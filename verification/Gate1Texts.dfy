/** The two JSON texts of an image and what the validator extracts from them. */
module Gate1Texts {
  import opened Words
  import opened Decimal
  import opened TextSearch
  import opened JsonScan
  import opened JsonText
  import opened Gate1

  // ---- keys and fields ----

  /** Lower-case letters and underscores. */
  predicate IsWord(k: string) { k != [] && forall i :: 0 <= i < |k| ==> k[i] == '_' || 'a' <= k[i] <= 'z' }

  lemma WordsArePlain(k: string)
    requires IsWord(k)
    ensures PlainKey(k) && !IsDigit(k[0])
  {
  }

  /** String fields with these keys and values, in order. */
  function FieldsOf(keys: seq<string>, values: seq<string>): (ms: Members)
    requires |keys| == |values|
    ensures ms == NoMembers <==> keys == []
  {
    if keys == [] then NoMembers else Member(keys[0], Str(values[0]), FieldsOf(keys[1..], values[1..]))
  }

  lemma {:induction false} FieldsAreStrings(keys: seq<string>, values: seq<string>)
    requires |keys| == |values| && forall j :: 0 <= j < |keys| ==> PlainKey(keys[j])
    ensures StringFields(FieldsOf(keys, values)) && WellFormedMembers(FieldsOf(keys, values))
  {
    if keys != [] {
      FieldsAreStrings(keys[1..], values[1..]);
    }
  }

  /** What a search over such fields finds: the first field with the key or with a value that looks like
    the key decides. */
  lemma {:induction false} FieldsLookup(keys: seq<string>, values: seq<string>, k: string, i: nat)
    requires |keys| == |values| && forall j :: 0 <= j < |keys| ==> PlainKey(keys[j])
    requires i <= |keys| && forall j :: 0 <= j < i ==> keys[j] != k && !Hijacks(values[j], k)
    ensures StringFields(FieldsOf(keys, values))
    ensures i == |keys| ==> Lookup(FieldsOf(keys, values), k) == Absent
    ensures i < |keys| && keys[i] == k ==> Lookup(FieldsOf(keys, values), k) == At(values[i])
    ensures i < |keys| && keys[i] != k && Hijacks(values[i], k) ==> Lookup(FieldsOf(keys, values), k) == Hijacked
  {
    hide PlainKey, Hijacks;
    FieldsAreStrings(keys, values);
    if i > 0 {
      FieldsLookup(keys[1..], values[1..], k, i - 1);
    }
  }

  // ---- BUILD_METADATA ----

  const DSA_KEYS := ["vendor", "board_id", "name"]

  lemma DsaKeys()
    ensures IsWord("build_metadata") && IsWord("dsa")
    ensures forall j :: 0 <= j < 3 ==> PlainKey(DSA_KEYS[j])
    ensures DSA_KEYS[0] != DSA_KEYS[1] && DSA_KEYS[0] != DSA_KEYS[2] && DSA_KEYS[1] != DSA_KEYS[2]
  {
    hide PlainKey;
    WordsArePlain("vendor");
    WordsArePlain("board_id");
    WordsArePlain("name");
    assert |DSA_KEYS[0]| == 6 && |DSA_KEYS[1]| == 8 && |DSA_KEYS[2]| == 4;
  }

  function DsaFields(vendor: string, boardId: string, name: string): Members
  {
    FieldsOf(DSA_KEYS, [vendor, boardId, name])
  }

  function Nested(outer: string, inner: string, ms: Members): Json
  {
    Obj(Member(outer, Obj(Member(inner, Obj(ms), NoMembers)), NoMembers))
  }

  function BuildText(vendor: string, boardId: string, name: string): string
  {
    Print(Nested("build_metadata", "dsa", DsaFields(vendor, boardId, name)))
  }

  /** Two nested single-member objects are unwrapped to the inner object's text. */
  lemma NestedObject(outer: string, inner: string, ms: Members)
    requires IsWord(outer) && IsWord(inner) && WellFormedMembers(ms)
    ensures ObjectIn(Print(Nested(outer, inner, ms)), outer, inner) == Some(Print(Obj(ms)))
  {
    hide ObjectAt, Print, PlainKey;
    WordsArePlain(outer);
    WordsArePlain(inner);
    ObjectLookup(NoMembers, outer, Member(inner, Obj(ms), NoMembers), NoMembers);
    ObjectLookup(NoMembers, inner, ms, NoMembers);
  }

  lemma DsaObject(vendor: string, boardId: string, name: string)
    ensures ObjectIn(BuildText(vendor, boardId, name), "build_metadata", "dsa")
            == Some(Print(Obj(DsaFields(vendor, boardId, name))))
  {
    hide PlainKey, ObjectIn, Print, IsWord;
    DsaKeys();
    FieldsAreStrings(DSA_KEYS, [vendor, boardId, name]);
    NestedObject("build_metadata", "dsa", DsaFields(vendor, boardId, name));
  }

  /** What the validator makes of a field when an earlier value may look like its key. */
  function Unless(hijacked: bool, value: string): string { if hijacked then "" else value }

  /** The DSA strings come back whatever they contain, except that a value which is a later key, or ends in
    a quote and that key, makes the search stop there and the field reads as empty. */
  lemma DsaRecovered(m: Metadata, vendor: string, boardId: string, name: string)
    ensures WithDsa(m, Print(Obj(DsaFields(vendor, boardId, name)))) ==
            m.(vendor := vendor, boardId := Unless(Hijacks(vendor, "board_id"), boardId),
               name := Unless(Hijacks(vendor, "name") || Hijacks(boardId, "name"), name))
  {
    hide PlainKey, StringAt, PrintMembers, Hijacks, FieldsOf, Lookup;
    DsaKeys();
    var values := [vendor, boardId, name];
    var ms := DsaFields(vendor, boardId, name);
    assert Print(Obj(ms)) == "{" + PrintMembers(ms) + "}";
    FieldsLookup(DSA_KEYS, values, "vendor", 0);
    StringLookup(ms, "vendor", "}");
    FieldsLookup(DSA_KEYS, values, "board_id", if Hijacks(vendor, "board_id") then 0 else 1);
    StringLookup(ms, "board_id", "}");
    FieldsLookup(DSA_KEYS, values, "name",
                 if Hijacks(vendor, "name") then 0 else if Hijacks(boardId, "name") then 1 else 2);
    StringLookup(ms, "name", "}");
  }

  // ---- AIE_METADATA ----

  const DRIVER_KEYS := ["hw_gen", "num_rows", "num_columns", "aie_tile_row_start", "aie_tile_num_rows",
                        "partition_num_cols"]
  const OVERLAY := "partition_overlay_start_cols"

  function Numbers(d: Driver): (ns: seq<u32>)
    ensures |ns| == 6
  {
    [d.hwGen, d.numRows, d.numColumns, d.rowStart, d.rowCount, d.columns]
  }

  function NumberTexts(d: Driver): (texts: seq<string>)
    ensures |texts| == 6
  {
    [Digits(d.hwGen), Digits(d.numRows), Digits(d.numColumns),
     Digits(d.rowStart), Digits(d.rowCount), Digits(d.columns)]
  }

  function DriverStrings(d: Driver): Members { FieldsOf(DRIVER_KEYS, NumberTexts(d)) }

  function AddLast(ms: Members, k: string, v: Json): Members
  {
    match ms
    case NoMembers => Member(k, v, NoMembers)
    case Member(key, value, rest) => Member(key, value, AddLast(rest, k, v))
  }

  function DriverFields(d: Driver): Members
  {
    AddLast(DriverStrings(d), OVERLAY, Arr(Item(Str(Digits(d.start)), NoItems)))
  }

  function AieText(d: Driver): string { Print(Nested("aie_metadata", "driver_config", DriverFields(d))) }

  lemma {:induction false} PrintAddLast(ms: Members, k: string, v: Json)
    requires ms != NoMembers
    ensures PrintMembers(AddLast(ms, k, v)) == PrintMembers(ms) + ("," + (PrintString(k) + (":" + Print(v))))
    ensures WellFormedMembers(ms) && WellFormed(v) ==> WellFormedMembers(AddLast(ms, k, v))
    ensures BytewiseMembers(ms) && BytewiseValue(v) && Bytewise(k) ==> BytewiseMembers(AddLast(ms, k, v))
  {
    hide PrintString, Print, Bytewise;
    var Member(key, value, rest) := ms;
    if rest != NoMembers {
      PrintAddLast(rest, k, v);
      var head := PrintString(key) + ":" + Print(value) + ",";
      assert PrintMembers(AddLast(ms, k, v)) == head + PrintMembers(AddLast(rest, k, v));
    }
  }

  lemma DriverKeys()
    ensures IsWord("aie_metadata") && IsWord("driver_config") && IsWord(OVERLAY)
    ensures forall j :: 0 <= j < 6 ==> IsWord(DRIVER_KEYS[j]) && DRIVER_KEYS[j] != OVERLAY
    ensures forall j, i :: 0 <= j < i < 6 ==> DRIVER_KEYS[j] != DRIVER_KEYS[i]
  {
    hide IsWord;
    FirstWords();
    LastWords();
    assert |DRIVER_KEYS[0]| == 6 && |DRIVER_KEYS[1]| == 8 && |DRIVER_KEYS[2]| == 11 && |DRIVER_KEYS[4]| == 17;
    assert |DRIVER_KEYS[3]| == |DRIVER_KEYS[5]| == 18 && |OVERLAY| == 28;
    assert DRIVER_KEYS[3][0] != DRIVER_KEYS[5][0];
  }

  lemma FirstWords()
    ensures IsWord("aie_metadata") && IsWord("driver_config") && IsWord("hw_gen") && IsWord("num_rows")
    ensures IsWord("num_columns")
  {
  }

  lemma LastWords()
    ensures IsWord("aie_tile_row_start") && IsWord("aie_tile_num_rows")
    ensures IsWord("partition_num_cols") && IsWord(OVERLAY)
  {
  }

  lemma DriverObject(d: Driver)
    ensures ObjectIn(AieText(d), "aie_metadata", "driver_config") == Some(Print(Obj(DriverFields(d))))
  {
    hide ObjectIn, Print, IsWord, DriverFields, BytewiseMembers, WellFormedMembers;
    DriverKeys();
    DriverFieldsFine(d);
    NestedObject("aie_metadata", "driver_config", DriverFields(d));
  }

  /** A number is never mistaken for a key. */
  lemma DigitsHarmless(n: nat, k: string)
    requires IsWord(k)
    ensures !Hijacks(Digits(n), k)
  {
    DigitsValue(n);
    var v := Digits(n);
    if EndsLikeKey(v, k) {
      QuoteBeforeKey(v, k);
    }
  }

  lemma TrimDigits(s: string)
    requires AllDigits(s)
    ensures Trim(s) == s
  {
  }

  lemma DecimalOfDigits(n: u32)
    ensures DecimalString(Digits(n)) == Some(n)
  {
    hide Digits, ValueOf;
    DigitsValue(n);
    TrimDigits(Digits(n));
    FromCharsOfDigits(n);
  }

  /** The text after the six string fields. */
  function OverlayText(d: Driver): string
  {
    "," + (PrintString(OVERLAY) + (":[" + PrintString(Digits(d.start)) + "]}"))
  }

  lemma OneItem(v: Json)
    ensures Print(Arr(Item(v, NoItems))) == "[" + Print(v) + "]"
  {
  }

  lemma PrintObject(ms: Members)
    ensures Print(Obj(ms)) == "{" + PrintMembers(ms) + "}"
  {
  }

  lemma DriverText(d: Driver)
    ensures Print(Obj(DriverFields(d))) == "{" + PrintMembers(DriverStrings(d)) + OverlayText(d)
  {
    hide PrintString, PrintMembers, Print, Digits, FieldsOf, AddLast, WellFormedMembers, BytewiseMembers;
    var s := Str(Digits(d.start));
    PrintAddLast(DriverStrings(d), OVERLAY, Arr(Item(s, NoItems)));
    OneItem(s);
    PrintObject(DriverFields(d));
    Regroup("{" + PrintMembers(DriverStrings(d)), PrintString(OVERLAY), Print(s));
    assert Print(s) == PrintString(Digits(d.start)) by { PrintStr(Digits(d.start)); }
  }

  lemma PrintStr(s: string)
    ensures Print(Str(s)) == PrintString(s)
  {
  }

  lemma Regroup(a: string, b: string, c: string)
    ensures a + ("," + (b + (":" + ("[" + c + "]")))) + "}" == a + ("," + (b + (":[" + c + "]}")))
  {
  }

  lemma NumberTextAt(d: Driver, i: nat)
    requires i < 6
    ensures NumberTexts(d)[i] == Digits(Numbers(d)[i])
  {
  }

  /** Each of the six numbers comes back under its key, and the array key is not found among them. */
  lemma NumberRecovered(d: Driver, i: nat)
    requires i <= 6
    ensures i < 6 ==> DecimalAt(Print(Obj(DriverFields(d))), DRIVER_KEYS[i]) == Some(Numbers(d)[i])
    ensures i == 6 ==>
      AfterFirst(Print(Obj(DriverFields(d))), Quoted(OVERLAY)) == AfterFirst(OverlayText(d), Quoted(OVERLAY))
  {
    hide Hijacks, Digits, PlainKey, IsWord, Numbers, NumberTexts, OverlayText, Print, PrintMembers, Lookup, StringAt,
         AfterFirst, DecimalString, EndsField, FieldsOf, DriverFields;
    DriverKeys();
    var k := if i < 6 then DRIVER_KEYS[i] else OVERLAY;
    WordsArePlain(k);
    forall j | 0 <= j < 6
      ensures PlainKey(DRIVER_KEYS[j]) && !Hijacks(NumberTexts(d)[j], k)
    {
      WordsArePlain(DRIVER_KEYS[j]);
      NumberTextAt(d, j);
      DigitsHarmless(Numbers(d)[j], k);
    }
    FieldsLookup(DRIVER_KEYS, NumberTexts(d), k, i);
    DriverText(d);
    OverlayStarts(d);
    StringLookup(DriverStrings(d), k, OverlayText(d));
    if i < 6 {
      NumberTextAt(d, i);
      DecimalOfDigits(Numbers(d)[i]);
    }
  }

  lemma OverlayStarts(d: Driver)
    ensures EndsField(OverlayText(d))
  {
  }

  lemma {:induction false} ReadRaw(s: string, tail: string)
    requires PlainText(s)
    ensures ReadString(s + [QUOTE] + tail, false, true) == Some(s)
  {
    var t := s + [QUOTE] + tail;
    if s == [] {
      assert t[0] == QUOTE;
    } else {
      assert t[1..] == s[1..] + [QUOTE] + tail;
      ReadRaw(s[1..], tail);
      assert s == [s[0]] + s[1..];
    }
  }

  lemma DigitsPrint(s: string)
    requires AllDigits(s)
    ensures PrintString(s) == [QUOTE] + s + [QUOTE] && PlainText(s)
  {
    EscapePlain(s);
  }

  lemma OverlayValue(d: Driver)
    ensures ValueAfter(AfterFirst(OverlayText(d), Quoted(OVERLAY))) == Some("[" + PrintString(Digits(d.start)) + "]}")
  {
    hide PrintString, Digits, AfterFirst, PlainKey, Hijacks, IsWord;
    DriverKeys();
    WordsArePlain(OVERLAY);
    var value := "[" + PrintString(Digits(d.start)) + "]}";
    var rest := ":[" + PrintString(Digits(d.start)) + "]}";
    PastChar(',', PrintString(OVERLAY) + rest, OVERLAY);
    HijacksItself(OVERLAY);
    PastString(OVERLAY, rest, OVERLAY);
    assert SkipBlanks(rest) == rest;
    assert rest[1..] == value && SkipBlanks(value) == value;
  }

  /** The array scanner on the text of a one-number array. */
  lemma FirstItem(s: string)
    requires AllDigits(s)
    ensures var v := "[" + PrintString(s) + "]}";
            var after := AfterFirst(v[1..], [QUOTE]);
            after.Some? && ReadString(after.value, false, true) == Some(s)
  {
    DigitsPrint(s);
    var v := "[" + PrintString(s) + "]}";
    hide PrintString;
    assert v[1..] == [QUOTE] + (s + [QUOTE] + "]}");
    assert [QUOTE] <= v[1..] && v[1..][1..] == s + [QUOTE] + "]}";
    ReadRaw(s, "]}");
  }

  lemma OverlayRecovered(d: Driver)
    ensures FirstArrayStringAt(Print(Obj(DriverFields(d))), OVERLAY) == Some(Digits(d.start))
  {
    hide Digits, OverlayText, Print, PrintString, DriverFields, AfterFirst, ReadString, ValueAfter, ValueText;
    NumberRecovered(d, 6);
    OverlayValue(d);
    ValueTextIs(Print(Obj(DriverFields(d))), OVERLAY);
    DigitsValue(d.start);
    FirstItem(Digits(d.start));
  }

  /** Every number of the driver configuration comes back. */
  lemma DriverRecovered(d: Driver)
    ensures DriverOf(Print(Obj(DriverFields(d)))) == Some(d)
  {
    hide Digits, DriverFields, Print, DecimalAt, FirstArrayStringAt, DecimalString;
    NumberRecovered(d, 0);
    NumberRecovered(d, 1);
    NumberRecovered(d, 2);
    NumberRecovered(d, 3);
    NumberRecovered(d, 4);
    NumberRecovered(d, 5);
    OverlayRecovered(d);
    DecimalOfDigits(d.start);
  }

  // ---- texts of bytes ----

  predicate Bytewise(t: string) { forall i :: 0 <= i < |t| ==> t[i] as int < 0x100 }

  predicate BytewiseValue(v: Json)
  {
    match v
    case Str(s) => Bytewise(s)
    case Lit(text) => Bytewise(text)
    case Arr(items) => BytewiseItems(items)
    case Obj(ms) => BytewiseMembers(ms)
  }

  predicate BytewiseItems(items: Items)
  {
    match items case NoItems => true case Item(v, rest) => BytewiseValue(v) && BytewiseItems(rest)
  }

  predicate BytewiseMembers(ms: Members)
  {
    match ms case NoMembers => true case Member(k, v, rest) => Bytewise(k) && BytewiseValue(v) && BytewiseMembers(rest)
  }

  lemma {:induction false} EscapeBytewise(s: string)
    requires Bytewise(s)
    ensures Bytewise(Escape(s))
  {
    if s != [] {
      EscapeBytewise(s[1..]);
    }
  }

  lemma {:induction false} PrintBytewise(v: Json)
    requires BytewiseValue(v)
    ensures Bytewise(Print(v))
    decreases v
  {
    match v
    case Str(s) => EscapeBytewise(s);
    case Lit(_) =>
    case Arr(items) => ItemsBytewise(items);
    case Obj(ms) => MembersBytewise(ms);
  }

  lemma {:induction false} ItemsBytewise(items: Items)
    requires BytewiseItems(items)
    ensures Bytewise(PrintItems(items))
    decreases items
  {
    if items.Item? {
      PrintBytewise(items.value);
      ItemsBytewise(items.rest);
    }
  }

  lemma {:induction false} MembersBytewise(ms: Members)
    requires BytewiseMembers(ms)
    ensures Bytewise(PrintMembers(ms))
    decreases ms
  {
    if ms.Member? {
      EscapeBytewise(ms.key);
      PrintBytewise(ms.value);
      MembersBytewise(ms.rest);
    }
  }

  lemma {:induction false} FieldsBytewise(keys: seq<string>, values: seq<string>)
    requires |keys| == |values|
    requires forall j :: 0 <= j < |keys| ==> IsWord(keys[j]) && Bytewise(values[j])
    ensures BytewiseMembers(FieldsOf(keys, values))
  {
    if keys != [] {
      FieldsBytewise(keys[1..], values[1..]);
    }
  }

  lemma NestedBytewise(outer: string, inner: string, ms: Members)
    requires IsWord(outer) && IsWord(inner) && BytewiseMembers(ms)
    ensures Bytewise(Print(Nested(outer, inner, ms)))
  {
    var middle := Member(inner, Obj(ms), NoMembers);
    assert BytewiseMembers(middle);
    assert BytewiseMembers(Member(outer, Obj(middle), NoMembers));
    PrintBytewise(Nested(outer, inner, ms));
  }

  lemma BuildBytewise(vendor: string, boardId: string, name: string)
    requires Bytewise(vendor) && Bytewise(boardId) && Bytewise(name)
    ensures Bytewise(BuildText(vendor, boardId, name))
  {
    hide Bytewise, Print;
    assert IsWord("vendor") && IsWord("board_id") && IsWord("name");
    assert IsWord("build_metadata") && IsWord("dsa");
    hide IsWord;
    FieldsBytewise(DSA_KEYS, [vendor, boardId, name]);
    NestedBytewise("build_metadata", "dsa", DsaFields(vendor, boardId, name));
  }

  lemma DigitsBytewise(n: nat)
    ensures Bytewise(Digits(n))
  {
  }

  /** String fields followed by an array of one string print as well-formed JSON made of bytes. */
  lemma FieldsThenArray(keys: seq<string>, values: seq<string>, k: string, s: string)
    requires |keys| == |values| > 0 && IsWord(k) && Bytewise(s)
    requires forall j :: 0 <= j < |keys| ==> IsWord(keys[j]) && Bytewise(values[j])
    ensures var ms := AddLast(FieldsOf(keys, values), k, Arr(Item(Str(s), NoItems)));
            WellFormedMembers(ms) && BytewiseMembers(ms)
  {
    hide Bytewise, PlainKey, PrintMembers, Print;
    var starts := Arr(Item(Str(s), NoItems));
    assert WellFormedItems(starts.items) && BytewiseItems(starts.items) by {
      assert WellFormed(Str(s)) && BytewiseValue(Str(s));
      assert WellFormedItems(NoItems) && BytewiseItems(NoItems);
    }
    forall j | 0 <= j < |keys|
      ensures PlainKey(keys[j])
    {
      WordsArePlain(keys[j]);
    }
    FieldsAreStrings(keys, values);
    FieldsBytewise(keys, values);
    WordBytewise(k);
    PrintAddLast(FieldsOf(keys, values), k, starts);
  }

  lemma DriverFieldsFine(d: Driver)
    ensures WellFormedMembers(DriverFields(d)) && BytewiseMembers(DriverFields(d))
  {
    hide Digits, Bytewise, IsWord, NumberTexts, Numbers, FieldsOf, AddLast, WellFormedMembers, BytewiseMembers;
    forall j | 0 <= j < 6
      ensures Bytewise(NumberTexts(d)[j])
    {
      NumberTextAt(d, j);
      DigitsBytewise(Numbers(d)[j]);
    }
    DriverKeys();
    DigitsBytewise(d.start);
    FieldsThenArray(DRIVER_KEYS, NumberTexts(d), OVERLAY, Digits(d.start));
  }

  lemma AieBytewise(d: Driver)
    ensures Bytewise(AieText(d))
  {
    hide Print, Bytewise, IsWord, DriverFields, WellFormedMembers, BytewiseMembers;
    DriverKeys();
    DriverFieldsFine(d);
    NestedBytewise("aie_metadata", "driver_config", DriverFields(d));
  }

  lemma WordBytewise(k: string)
    requires IsWord(k)
    ensures Bytewise(k)
  {
  }
}
