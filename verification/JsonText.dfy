/** Printed JSON and what the scanner finds in it. */
module JsonText {
  import opened Words
  import opened TextSearch
  import opened JsonScan

  /** Objects, arrays, strings, and literals such as numbers. */
  datatype Json = Str(s: string) | Lit(text: string) | Arr(items: Items) | Obj(members: Members)
  datatype Items = NoItems | Item(value: Json, rest: Items)
  datatype Members = NoMembers | Member(key: string, value: Json, rest: Members)

  // ---- printing ----

  /** The two-character escapes of section 7 of RFC 8259; other characters stand for themselves. */
  function EscapeChar(c: char): string
  {
    match c
    case '\"' => "\\\""
    case '\\' => "\\\\"
    case '\U{0008}' => "\\b"
    case '\U{000C}' => "\\f"
    case '\n' => "\\n"
    case '\r' => "\\r"
    case '\t' => "\\t"
    case _ => [c]
  }

  function Escape(s: string): string
  {
    if s == [] then [] else EscapeChar(s[0]) + Escape(s[1..])
  }

  function PrintString(s: string): string { [QUOTE] + Escape(s) + [QUOTE] }

  function Print(v: Json): string
  {
    match v
    case Str(s) => PrintString(s)
    case Lit(text) => text
    case Arr(items) => "[" + PrintItems(items) + "]"
    case Obj(members) => "{" + PrintMembers(members) + "}"
  }

  function PrintItems(items: Items): string
  {
    match items
    case NoItems => ""
    case Item(v, NoItems) => Print(v)
    case Item(v, rest) => Print(v) + "," + PrintItems(rest)
  }

  function PrintMembers(ms: Members): string
  {
    match ms
    case NoMembers => ""
    case Member(k, v, NoMembers) => PrintString(k) + ":" + Print(v)
    case Member(k, v, rest) => PrintString(k) + ":" + Print(v) + "," + PrintMembers(rest)
  }

  /** Literals are written without quotes, backslashes and braces. */
  predicate PlainText(t: string)
  {
    forall i :: 0 <= i < |t| ==> t[i] != QUOTE && t[i] != BACKSLASH && t[i] != '{' && t[i] != '}'
  }

  predicate WellFormed(v: Json)
  {
    match v
    case Str(_) => true
    case Lit(text) => PlainText(text)
    case Arr(items) => WellFormedItems(items)
    case Obj(members) => WellFormedMembers(members)
  }

  predicate WellFormedItems(items: Items)
  {
    match items case NoItems => true case Item(v, rest) => WellFormed(v) && WellFormedItems(rest)
  }

  predicate WellFormedMembers(ms: Members)
  {
    match ms case NoMembers => true case Member(_, v, rest) => WellFormed(v) && WellFormedMembers(rest)
  }

  // ---- string literals ----

  /** `e` after a backslash is one of the two-character escapes of section 7 of RFC 8259, and stands for `c`. */
  predicate EscapeFor(e: char, c: char)
  {
    match e
    case '\"' => c == '\"'
    case '\\' => c == '\\'
    case '/' => c == '/'
    case 'b' => c == '\U{0008}'
    case 'f' => c == '\U{000C}'
    case 'n' => c == '\n'
    case 'r' => c == '\r'
    case 't' => c == '\t'
    case _ => false
  }

  /** The value of a hexadecimal digit, or 16 for any other character. */
  function HexDigit(c: char): (r: nat)
    ensures r < 16 ==> c != QUOTE && c != BACKSLASH
  {
    if '0' <= c <= '9' then c as int - '0' as int
    else if 'a' <= c <= 'f' then c as int - 'a' as int + 10
    else if 'A' <= c <= 'F' then c as int - 'A' as int + 10
    else 16
  }

  /** `h` begins with four hexadecimal digits. */
  predicate IsCode(h: string) { |h| >= 4 && forall i :: 0 <= i < 4 ==> HexDigit(h[i]) < 16 }

  function CodeOf(h: string): (v: nat)
    requires IsCode(h)
    ensures v < 0x1_0000
  {
    HexDigit(h[0]) * 4096 + HexDigit(h[1]) * 256 + HexDigit(h[2]) * 16 + HexDigit(h[3])
  }

  /** The bytes of a code point, as section 3 of RFC 3629 has them. */
  function Utf8(v: nat): (bytes: string)
    requires v < 0x11_0000
    ensures 1 <= |bytes| <= 4 && (v < 0x1_0000 ==> |bytes| <= 3)
  {
    if v < 0x80 then [v as char]
    else if v < 0x800 then [(0xC0 + v / 64) as char, (0x80 + v % 64) as char]
    else if v < 0x1_0000 then [(0xE0 + v / 4096) as char, (0x80 + v / 64 % 64) as char, (0x80 + v % 64) as char]
    else
      [(0xF0 + v / 262144) as char, (0x80 + v / 4096 % 64) as char,
       (0x80 + v / 64 % 64) as char, (0x80 + v % 64) as char]
  }

  predicate Surrogate(v: nat) { 0xD800 <= v < 0xE000 }

  /** A pair of surrogates, each behind its `\u`. */
  predicate IsPair(text: string)
  {
    && |text| >= 12 && IsCode(text[2..]) && text[6] == BACKSLASH && text[7] == 'u' && IsCode(text[8..])
    && 0xD800 <= CodeOf(text[2..]) < 0xDC00 <= CodeOf(text[8..]) < 0xE000
  }

  function PairOf(text: string): (v: nat)
    requires IsPair(text)
    ensures v < 0x11_0000
  {
    0x1_0000 + (CodeOf(text[2..]) - 0xD800) * 1024 + (CodeOf(text[8..]) - 0xDC00)
  }

  /** `text` is a way to write the bytes `s` between quotes as section 7 of RFC 8259 has it: each character plain,
    unless it is a quote or a backslash, or by a two-character escape, or by its code behind `\u`, beyond 16 bits by a
    pair of such codes, as the writer chooses. */
  predicate Spells(text: string, s: string)
    decreases |text|
  {
    if s == [] then text == []
    else
      text != [] &&
      if text[0] != BACKSLASH then text[0] == s[0] != QUOTE && Spells(text[1..], s[1..])
      else if |text| < 2 then false
      else if text[1] != 'u' then EscapeFor(text[1], s[0]) && Spells(text[2..], s[1..])
      else if IsPair(text) then Utf8(PairOf(text)) <= s && Spells(text[12..], s[|Utf8(PairOf(text))|..])
      else
        IsCode(text[2..]) && !Surrogate(CodeOf(text[2..])) &&
        Utf8(CodeOf(text[2..])) <= s && Spells(text[6..], s[|Utf8(CodeOf(text[2..]))|..])
  }

  /** The number of `\u` escapes in a spelling. */
  function Codes(text: string): nat
    decreases |text|
  {
    if text == [] then 0
    else if text[0] != BACKSLASH then Codes(text[1..])
    else if |text| < 2 then 0
    else if text[1] == 'u' then 1 + Codes(text[2..])
    else Codes(text[2..])
  }

  lemma PlainRead(c: char, t: string)
    requires c != QUOTE && c != BACKSLASH
    ensures ReadString([c] + t, false, false) == Prepend(c, ReadString(t, false, false))
    ensures Codes([c] + t) == Codes(t)
  {
    assert ([c] + t)[1..] == t;
  }

  lemma EscapedRead(e: char, t: string)
    ensures ReadString([BACKSLASH] + ([e] + t), false, false) == Prepend(Unescaped(e), ReadString(t, false, false))
    ensures Codes([BACKSLASH] + ([e] + t)) == (if e == 'u' then 1 else 0) + Codes(t)
  {
    var s := [BACKSLASH] + ([e] + t);
    assert s[1..] == [e] + t;
    assert s[1..][1..] == t;
    assert s[2..] == t;
  }

  lemma FourRead(a: char, b: char, c: char, d: char, t: string)
    requires forall x :: x in [a, b, c, d] ==> x != QUOTE && x != BACKSLASH
    ensures var s := [a] + ([b] + ([c] + ([d] + t)));
            ReadString(s, false, false) ==
            Prepend(a, Prepend(b, Prepend(c, Prepend(d, ReadString(t, false, false))))) && Codes(s) == Codes(t)
  {
    hide ReadString, Codes;
    assert forall i :: 0 <= i < 4 ==> [a, b, c, d][i] in [a, b, c, d];
    assert [a, b, c, d][0] == a && [a, b, c, d][1] == b && [a, b, c, d][2] == c && [a, b, c, d][3] == d;
    PlainRead(d, t);
    PlainRead(c, [d] + t);
    PlainRead(b, [c] + ([d] + t));
    PlainRead(a, [b] + ([c] + ([d] + t)));
  }

  /** A code is read as it stands but for the backslash: five characters. */
  lemma CodeRead(text: string, tail: string)
    requires |text| >= 6 && text[0] == BACKSLASH && text[1] == 'u' && IsCode(text[2..])
    ensures Codes(text) == 1 + Codes(text[6..])
    ensures ReadString(text + tail, false, false) ==
            Prepend('u', Prepend(text[2], Prepend(text[3], Prepend(text[4], Prepend(text[5],
              ReadString(text[6..] + tail, false, false))))))
  {
    hide ReadString, Codes, HexDigit;
    var h, rest := text[2..], text[6..];
    assert h[0] == text[2] && h[1] == text[3] && h[2] == text[4] && h[3] == text[5];
    assert forall i :: 0 <= i < 4 ==> HexDigit(h[i]) < 16 && h[i] != QUOTE && h[i] != BACKSLASH;
    FourRead(text[2], text[3], text[4], text[5], rest);
    FourRead(text[2], text[3], text[4], text[5], rest + tail);
    assert h == [text[2]] + ([text[3]] + ([text[4]] + ([text[5]] + rest)));
    assert h + tail == [text[2]] + ([text[3]] + ([text[4]] + ([text[5]] + (rest + tail))));
    EscapedRead('u', h);
    EscapedRead('u', h + tail);
    assert text == [BACKSLASH] + (['u'] + h);
    assert text + tail == [BACKSLASH] + (['u'] + (h + tail));
  }

  /** Reading behind something longer than what it stands for. */
  predicate ReadsAs(r: Option<string>, s: string, codes: nat)
  {
    r.Some? && |r.value| >= |s| + codes && (codes == 0 ==> r.value == s)
  }

  /** Any spelling of a string is read up to its closing quote, too long when there are `\u` escapes and right when
    there are none. */
  lemma {:induction false} SpellingRead(text: string, s: string, tail: string)
    requires Spells(text, s)
    ensures ReadsAs(ReadString(text + ([QUOTE] + tail), false, false), s, Codes(text))
    decreases |text|
  {
    hide ReadString, Codes, HexDigit, EscapeFor, Utf8, CodeOf, PairOf;
    var end := [QUOTE] + tail;
    if s == [] {
      NothingRead(tail);
      assert text + end == end;
    } else if text[0] != BACKSLASH {
      assert text == [text[0]] + text[1..];
      assert text + end == [text[0]] + (text[1..] + end);
      PlainRead(text[0], text[1..]);
      PlainRead(text[0], text[1..] + end);
      SpellingRead(text[1..], s[1..], tail);
    } else if text[1] != 'u' {
      var t := text[2..];
      assert text == [BACKSLASH] + ([text[1]] + t);
      assert text + end == [BACKSLASH] + ([text[1]] + (t + end));
      EscapedRead(text[1], t);
      EscapedRead(text[1], t + end);
      EscapeMeans(text[1], s[0]);
      SpellingRead(t, s[1..], tail);
    } else if IsPair(text) {
      CodeRead(text, end);
      assert text[6..][2..] == text[8..] && text[6..][6..] == text[12..];
      CodeRead(text[6..], end);
      SpellingRead(text[12..], s[|Utf8(PairOf(text))|..], tail);
    } else {
      CodeRead(text, end);
      SpellingRead(text[6..], s[|Utf8(CodeOf(text[2..]))|..], tail);
    }
  }

  lemma NothingRead(tail: string)
    ensures ReadString([QUOTE] + tail, false, false) == Some([]) && Codes([]) == 0
  {
  }

  lemma EscapeMeans(e: char, c: char)
    requires EscapeFor(e, c)
    ensures Unescaped(e) == c
  {
  }

  /** The scanner reads a spelling as the string it spells exactly when it holds no `\u` escape. */
  lemma SpellingRoundTripIff(text: string, s: string, tail: string)
    requires Spells(text, s)
    ensures ReadString(text + [QUOTE] + tail, false, false) == Some(s) <==> Codes(text) == 0
  {
    SpellingRead(text, s, tail);
    assert text + ([QUOTE] + tail) == text + [QUOTE] + tail;
  }

  /** The capital A written by its code comes out as five characters. */
  lemma CodeMisread(tail: string)
    ensures Spells("\\u0041", "A")
    ensures ReadString("\\u0041" + [QUOTE] + tail, false, false) == Some("u0041")
  {
    hide ReadString;
    var text, end := "\\u0041", [QUOTE] + tail;
    assert text[2..] == "0041" && text[6..] == [];
    assert CodeOf(text[2..]) == 0x41 && Utf8(0x41) == "A";
    CodeRead(text, end);
    NothingRead(tail);
    assert text[6..] + end == end;
    assert text + [QUOTE] + tail == text + end;
    assert ['u'] + (['0'] + (['0'] + (['4'] + (['1'] + [])))) == "u0041";
  }

  lemma EscapeCharMeans(c: char)
    ensures var e := EscapeChar(c);
            if c == QUOTE || c == BACKSLASH then e == [BACKSLASH, c] && EscapeFor(c, c) && c != 'u'
            else e == [c] || (|e| == 2 && e[0] == BACKSLASH && e[1] != 'u' && EscapeFor(e[1], c))
  {
  }

  lemma {:induction false} EscapeSpells(s: string)
    ensures Spells(Escape(s), s) && Codes(Escape(s)) == 0
  {
    hide EscapeChar, EscapeFor, CodeOf, PairOf, Utf8;
    if s != [] {
      EscapeSpells(s[1..]);
      EscapeCharMeans(s[0]);
      var e := EscapeChar(s[0]);
      assert Escape(s)[|e|..] == Escape(s[1..]);
    }
  }

  /** In particular the printer's text of any string reads as the string. */
  lemma StringRoundTrip(s: string, tail: string)
    ensures ReadString(Escape(s) + [QUOTE] + tail, false, false) == Some(s)
  {
    EscapeSpells(s);
    SpellingRoundTripIff(Escape(s), s, tail);
  }

  // ---- object extent ----

  /** Scanning the whole of `t` from `s` never closes the enclosing object and ends in `s'`. */
  ghost predicate Passes(t: string, s: Scan, s': Scan)
    decreases |t|
  {
    if t == [] then s == s'
    else !(!s.inString && t[0] == '}' && Step(s, t[0]).depth == 0) && Passes(t[1..], Step(s, t[0]), s')
  }

  lemma {:induction false} PassesThrough(a: string, b: string, s: Scan, m: Scan, e: Scan)
    requires Passes(a, s, m) && Passes(b, m, e)
    ensures Passes(a + b, s, e)
    decreases |a|
  {
    if a == [] {
      assert a + b == b;
    } else {
      assert (a + b)[1..] == a[1..] + b;
      PassesThrough(a[1..], b, Step(s, a[0]), m, e);
    }
  }

  lemma {:induction false} CloseAfter(a: string, b: string, s: Scan, m: Scan)
    requires Passes(a, s, m)
    ensures CloseAt(a + b, s) == Shifted(CloseAt(b, m), |a|)
    decreases |a|
  {
    if a == [] {
      assert a + b == b;
    } else {
      assert (a + b)[1..] == a[1..] + b;
      CloseAfter(a[1..], b, Step(s, a[0]), m);
    }
  }

  lemma PassesOne(c: char, s: Scan)
    requires s.inString || c != '}'
    ensures Passes([c], s, Step(s, c))
  {
  }

  lemma {:induction false} EscapedPasses(v: string, d: int)
    ensures Passes(Escape(v), Scan(d, true, false), Scan(d, true, false))
  {
    if v != [] {
      var inside := Scan(d, true, false);
      EscapedPasses(v[1..], d);
      var e := EscapeChar(v[0]);
      if |e| == 1 {
        PassesOne(e[0], inside);
      } else {
        PassesOne(e[0], inside);
        PassesOne(e[1], Scan(d, true, true));
        PassesThrough([e[0]], [e[1]], inside, Scan(d, true, true), inside);
        assert [e[0]] + [e[1]] == e;
      }
      PassesThrough(e, Escape(v[1..]), inside, inside, inside);
    }
  }

  lemma StringPasses(v: string, d: int)
    ensures Passes(PrintString(v), Scan(d, false, false), Scan(d, false, false))
  {
    var outside, inside := Scan(d, false, false), Scan(d, true, false);
    EscapedPasses(v, d);
    PassesOne(QUOTE, outside);
    PassesOne(QUOTE, inside);
    PassesThrough([QUOTE], Escape(v), outside, inside, inside);
    PassesThrough([QUOTE] + Escape(v), [QUOTE], outside, inside, outside);
  }

  lemma {:induction false} PlainPasses(t: string, d: int)
    requires PlainText(t)
    ensures Passes(t, Scan(d, false, false), Scan(d, false, false))
  {
    if t != [] {
      PlainPasses(t[1..], d);
    }
  }

  /** A printed value inside an object leaves the scanner where it was, at any nesting. */
  lemma {:induction false} ValuePasses(v: Json, d: int)
    requires WellFormed(v) && d >= 1
    ensures Passes(Print(v), Scan(d, false, false), Scan(d, false, false))
    decreases v
  {
    var out, deeper := Scan(d, false, false), Scan(d + 1, false, false);
    match v
    case Str(s) => StringPasses(s, d);
    case Lit(text) => PlainPasses(text, d);
    case Arr(items) =>
      ItemsPass(items, d);
      PassesOne('[', out);
      PassesOne(']', out);
      PassesThrough("[", PrintItems(items), out, out, out);
      PassesThrough("[" + PrintItems(items), "]", out, out, out);
    case Obj(members) =>
      MembersPass(members, d + 1);
      PassesOne('{', out);
      PassesThrough("{", PrintMembers(members), out, deeper, deeper);
      assert "}"[1..] == [];
      assert Passes("}", deeper, out);
      PassesThrough("{" + PrintMembers(members), "}", out, deeper, out);
  }

  lemma {:induction false} ItemsPass(items: Items, d: int)
    requires WellFormedItems(items) && d >= 1
    ensures Passes(PrintItems(items), Scan(d, false, false), Scan(d, false, false))
    decreases items
  {
    var out := Scan(d, false, false);
    match items
    case NoItems =>
    case Item(v, rest) =>
      ValuePasses(v, d);
      if rest != NoItems {
        ItemsPass(rest, d);
        PassesOne(',', out);
        PassesThrough(Print(v), ",", out, out, out);
        PassesThrough(Print(v) + ",", PrintItems(rest), out, out, out);
      }
  }

  lemma {:induction false} MembersPass(ms: Members, d: int)
    requires WellFormedMembers(ms) && d >= 1
    ensures Passes(PrintMembers(ms), Scan(d, false, false), Scan(d, false, false))
    decreases ms
  {
    var out := Scan(d, false, false);
    match ms
    case NoMembers =>
    case Member(k, v, rest) =>
      StringPasses(k, d);
      ValuePasses(v, d);
      PassesOne(':', out);
      PassesThrough(PrintString(k), ":", out, out, out);
      PassesThrough(PrintString(k) + ":", Print(v), out, out, out);
      if rest != NoMembers {
        MembersPass(rest, d);
        PassesOne(',', out);
        PassesThrough(PrintString(k) + ":" + Print(v), ",", out, out, out);
        PassesThrough(PrintString(k) + ":" + Print(v) + ",", PrintMembers(rest), out, out, out);
      }
  }

  /** For any printed object, whatever strings and objects it contains and whatever follows it, the
    extraction loop consumes exactly the object. */
  lemma ObjectExtent(ms: Members, tail: string)
    requires WellFormedMembers(ms)
    ensures CloseAt(Print(Obj(ms)) + tail, OUTSIDE) == Some(|Print(Obj(ms))|)
  {
    hide Passes, PrintMembers, CloseAt;
    var deeper := Scan(1, false, false);
    MembersPass(ms, 1);
    PassesOne('{', OUTSIDE);
    PassesThrough("{", PrintMembers(ms), OUTSIDE, deeper, deeper);
    var open := "{" + PrintMembers(ms);
    assert Print(Obj(ms)) + tail == open + ("}" + tail);
    CloseAfter(open, "}" + tail, OUTSIDE, deeper);
    ClosesHere(tail);
  }

  lemma ClosesHere(tail: string)
    ensures CloseAt("}" + tail, Scan(1, false, false)) == Some(1)
  {
  }

  // ---- finding a key ----

  /** A key as the validator's callers use it: printed as it is, without punctuation. */
  predicate PlainKey(k: string)
  {
    k != [] && EscapeFree(k) && forall i :: 0 <= i < |k| ==> !Punctuation(k[i])
  }

  predicate EscapeFree(k: string) { forall i :: 0 <= i < |k| ==> |EscapeChar(k[i])| == 1 }

  predicate Punctuation(c: char) { c == ':' || c == ',' || c == '}' || c == ']' }

  lemma {:induction false} EscapePlain(k: string)
    requires EscapeFree(k)
    ensures Escape(k) == k
  {
    if k != [] {
      EscapePlain(k[1..]);
      assert k == [k[0]] + k[1..];
    }
  }

  /** Just after a quote: the rest of the quoted key stands here. */
  predicate KeyHere(rest: string, k: string) { k + [QUOTE] <= rest }

  lemma AtQuote(rest: string, k: string)
    ensures AfterFirst([QUOTE] + rest, Quoted(k)) ==
            if KeyHere(rest, k) then Some(rest[|k| + 1..]) else AfterFirst(rest, Quoted(k))
  {
    var t := [QUOTE] + rest;
    assert t[1..] == rest;
    assert Quoted(k) == [QUOTE] + (k + [QUOTE]);
    PrefixCons(QUOTE, k + [QUOTE], QUOTE, rest);
    if KeyHere(rest, k) {
      assert t[|k| + 2..] == rest[|k| + 1..];
    }
  }

  lemma PrefixCons(a: char, x: string, b: char, y: string)
    ensures [a] + x <= [b] + y <==> a == b && x <= y
  {
    if [a] + x <= [b] + y {
      assert ([a] + x)[0] == ([b] + y)[0];
      assert forall i :: 0 <= i < |x| ==> x[i] == ([a] + x)[i + 1] == ([b] + y)[i + 1] == y[i];
    }
  }

  lemma PastChar(c: char, rest: string, k: string)
    requires c != QUOTE
    ensures AfterFirst([c] + rest, Quoted(k)) == AfterFirst(rest, Quoted(k))
  {
    var t := [c] + rest;
    assert t[1..] == rest;
    assert Quoted(k)[0] == QUOTE;
  }

  lemma PastEscape(c: char, rest: string, k: string)
    requires c != QUOTE
    ensures AfterFirst(EscapeChar(c) + rest, Quoted(k)) == AfterFirst(rest, Quoted(k))
  {
    var e := EscapeChar(c);
    if |e| == 1 {
      PastChar(e[0], rest, k);
    } else {
      assert e + rest == [e[0]] + ([e[1]] + rest);
      PastChar(e[0], [e[1]] + rest, k);
      PastChar(e[1], rest, k);
    }
  }

  /** What may follow a printed string. */
  predicate AfterString(rest: string) { rest == [] || Punctuation(rest[0]) }

  /** At the closing quote of a string the key is not found. */
  lemma PastClosingQuote(rest: string, k: string)
    requires PlainKey(k) && AfterString(rest)
    ensures AfterFirst([QUOTE] + rest, Quoted(k)) == AfterFirst(rest, Quoted(k))
  {
  }

  /** An escape-free text up to its quote starts a printed string only if it is that string. */
  lemma {:induction false} KeyPrefix(v: string, rest: string, k: string)
    requires EscapeFree(k)
    ensures KeyHere(Escape(v) + [QUOTE] + rest, k) <==> v == k
    decreases |v|
  {
    var t := Escape(v) + [QUOTE] + rest;
    if v == [] {
      assert t == [QUOTE] + rest;
      assert k != [] ==> (k + [QUOTE])[0] == k[0];
    } else {
      var e, u := EscapeChar(v[0]), Escape(v[1..]) + [QUOTE] + rest;
      assert t == e + u;
      if |e| == 2 {
        assert t[0] == BACKSLASH;
        assert (k + [QUOTE])[0] != BACKSLASH;
      } else if k == [] {
        assert (k + [QUOTE])[0] == QUOTE != t[0];
      } else {
        KeyPrefix(v[1..], rest, k[1..]);
        assert k + [QUOTE] == [k[0]] + (k[1..] + [QUOTE]);
        PrefixCons(k[0], k[1..] + [QUOTE], v[0], u);
        assert v == [v[0]] + v[1..] && k == [k[0]] + k[1..];
      }
    }
  }

  /** The value ends in a quote followed by the key, so its printed text ends in the quoted key. */
  predicate EndsLikeKey(v: string, k: string)
  {
    |v| > |k| && v[|v| - |k| - 1..] == [QUOTE] + k
  }

  /** A string value that the key search mistakes for the key `k`. */
  predicate Hijacks(v: string, k: string) { v == k || EndsLikeKey(v, k) }

  lemma EndsLikeKeyCons(v: string, k: string)
    requires v != []
    ensures EndsLikeKey(v, k) <==> EndsLikeKey(v[1..], k) || (v[0] == QUOTE && v[1..] == k)
  {
  }

  lemma EscapedText(v: string, rest: string)
    ensures v == [] ==> Escape(v) + [QUOTE] + rest == [QUOTE] + rest
    ensures v != [] ==> Escape(v) + [QUOTE] + rest == EscapeChar(v[0]) + (Escape(v[1..]) + [QUOTE] + rest)
    ensures EscapeChar(QUOTE) == [BACKSLASH] + [QUOTE]
  {
  }

  lemma PlainKeyEscapes(k: string)
    requires PlainKey(k)
    ensures EscapeFree(k)
  {
  }

  lemma EmptyEndsNothing(k: string)
    ensures !EndsLikeKey([], k)
  {
  }

  /** Searching on from inside a printed string: the key is found at its end exactly when the string ends
    like the key, and otherwise not before the string is over. */
  lemma {:induction false} InsideString(v: string, rest: string, k: string)
    requires PlainKey(k) && AfterString(rest)
    ensures AfterFirst(Escape(v) + [QUOTE] + rest, Quoted(k)) ==
            if EndsLikeKey(v, k) then Some(rest) else AfterFirst(rest, Quoted(k))
    decreases |v|
  {
    hide Escape, EscapeChar, PlainKey, EndsLikeKey, AfterFirst;
    EscapedText(v, rest);
    PlainKeyEscapes(k);
    if v == [] {
      EmptyEndsNothing(k);
      PastClosingQuote(rest, k);
    } else {
      var u := Escape(v[1..]) + [QUOTE] + rest;
      EndsLikeKeyCons(v, k);
      InsideString(v[1..], rest, k);
      if v[0] == QUOTE {
        assert EscapeChar(v[0]) + u == [BACKSLASH] + ([QUOTE] + u);
        PastChar(BACKSLASH, [QUOTE] + u, k);
        AtQuote(u, k);
        KeyPrefix(v[1..], rest, k);
        if v[1..] == k {
          EscapePlain(k);
          assert u[|k| + 1..] == rest;
        }
      } else {
        PastEscape(v[0], u, k);
      }
    }
  }

  /** Searching over a whole printed string. */
  lemma PastString(v: string, rest: string, k: string)
    requires PlainKey(k) && AfterString(rest)
    ensures AfterFirst(PrintString(v) + rest, Quoted(k)) ==
            if Hijacks(v, k) then Some(rest) else AfterFirst(rest, Quoted(k))
  {
    var u := Escape(v) + [QUOTE] + rest;
    assert PrintString(v) + rest == [QUOTE] + u;
    AtQuote(u, k);
    KeyPrefix(v, rest, k);
    InsideString(v, rest, k);
    if v == k {
      EscapePlain(k);
      assert u[|k| + 1..] == rest;
    }
  }

  // ---- looking up fields of a printed object ----

  /** The value a search continues with, given what follows the key. */
  function ValueAfter(after: Option<string>): Option<string>
  {
    if after.None? then None
    else
      var rest := SkipBlanks(after.value);
      if rest == [] || rest[0] != ':' then None else Some(SkipBlanks(rest[1..]))
  }

  lemma ValueTextIs(t: string, key: string)
    ensures ValueText(t, key) == ValueAfter(AfterFirst(t, Quoted(key)))
  {
  }

  /** All keys plain and all values strings. */
  predicate StringFields(ms: Members)
  {
    match ms case NoMembers => true case Member(k, v, rest) => PlainKey(k) && v.Str? && StringFields(rest)
  }

  datatype Search = At(v: string) | Hijacked | Absent

  /** Where the scanner's search for `k` ends up. */
  function Lookup(ms: Members, k: string): Search
    requires StringFields(ms)
  {
    match ms
    case NoMembers => Absent
    case Member(key, v, rest) => if key == k then At(v.s) else if Hijacks(v.s, k) then Hijacked else Lookup(rest, k)
  }

  lemma PlainKeysDiffer(key: string, k: string)
    requires PlainKey(key) && PlainKey(k)
    ensures Hijacks(key, k) <==> key == k
  {
    if EndsLikeKey(key, k) {
      QuoteBeforeKey(key, k);
    }
  }

  /** A text that ends like a key has a quote in it. */
  lemma QuoteBeforeKey(v: string, k: string)
    requires EndsLikeKey(v, k)
    ensures var i := |v| - |k| - 1; v[i] == QUOTE && |EscapeChar(v[i])| == 2
  {
  }

  /** A string field after its key, and what comes after the field. */
  function FieldTail(v: string, more: string): string { ":" + PrintString(v) + more }

  function AfterField(rest: Members, cont: string): string
  {
    if rest == NoMembers then cont else "," + (PrintMembers(rest) + cont)
  }

  lemma FieldText(key: string, v: string, rest: Members, cont: string)
    ensures PrintMembers(Member(key, Str(v), rest)) + cont ==
            PrintString(key) + FieldTail(v, AfterField(rest, cont))
  {
  }

  /** Searching past one string field whose key is another one. */
  lemma PastField(key: string, v: string, more: string, k: string)
    requires PlainKey(key) && PlainKey(k) && key != k && more != [] && Punctuation(more[0])
    ensures AfterFirst(PrintString(key) + FieldTail(v, more), Quoted(k)) ==
            if Hijacks(v, k) then Some(more) else AfterFirst(more, Quoted(k))
  {
    hide PrintString, AfterFirst, Hijacks, PlainKey;
    PastString(key, FieldTail(v, more), k);
    PlainKeysDiffer(key, k);
    assert FieldTail(v, more) == [':'] + (PrintString(v) + more);
    PastChar(':', PrintString(v) + more, k);
    PastString(v, more, k);
  }

  lemma NoValueAfter(more: string)
    requires more != [] && Punctuation(more[0]) && more[0] != ':'
    ensures ValueAfter(Some(more)) == None
  {
  }

  /** What may follow the last field: another field, or the end of the object. */
  predicate EndsField(cont: string) { cont != [] && (cont[0] == ',' || cont[0] == '}') }

  /** The search for `k` over printed string fields followed by `cont`: the value of the first field with
    that key, or nothing usable when an earlier value looks like the key, or else on to `cont`. */
  lemma {:induction false} FieldSearch(ms: Members, k: string, cont: string) returns (more: string)
    requires StringFields(ms) && ms != NoMembers && PlainKey(k) && EndsField(cont)
    ensures var after := AfterFirst(PrintMembers(ms) + cont, Quoted(k));
            match Lookup(ms, k)
            case At(v) => after == Some(FieldTail(v, more))
            case Hijacked => ValueAfter(after) == None
            case Absent => after == AfterFirst(cont, Quoted(k))
    decreases ms
  {
    hide PrintString, AfterFirst, Hijacks, PlainKey, PrintMembers, ValueAfter, FieldTail;
    var Member(key, Str(v), rest) := ms;
    more := AfterField(rest, cont);
    FieldText(key, v, rest, cont);
    if key == k {
      PastString(key, FieldTail(v, more), k) by { FieldTailStarts(v, more); }
      PlainKeysDiffer(key, k);
    } else {
      PastField(key, v, more, k);
      if Hijacks(v, k) {
        NoValueAfter(more);
        assert AfterFirst(PrintMembers(ms) + cont, Quoted(k)) == Some(more);
        assert ValueAfter(AfterFirst(PrintMembers(ms) + cont, Quoted(k))) == None;
      } else if rest != NoMembers {
        assert more == [','] + (PrintMembers(rest) + cont);
        PastChar(',', PrintMembers(rest) + cont, k);
        more := FieldSearch(rest, k, cont);
        assert Lookup(ms, k) == Lookup(rest, k);
        if Lookup(rest, k) == Hijacked {
          assert ValueAfter(AfterFirst(PrintMembers(rest) + cont, Quoted(k))) == None;
          assert AfterFirst(PrintMembers(ms) + cont, Quoted(k)) == AfterFirst(PrintMembers(rest) + cont, Quoted(k));
          assert ValueAfter(AfterFirst(PrintMembers(ms) + cont, Quoted(k))) == None;
        }
      } else {
        assert Lookup(ms, k) == Absent;
      }
    }
  }

  lemma FieldTailStarts(v: string, more: string)
    ensures AfterString(FieldTail(v, more))
  {
  }

  lemma StringFieldValue(v: string, more: string)
    ensures var value := ValueAfter(Some(FieldTail(v, more)));
            value.Some? && value.value != [] && value.value[0] == QUOTE &&
            ReadString(value.value[1..], false, false) == Some(v)
  {
    var t := FieldTail(v, more);
    assert SkipBlanks(t) == t;
    assert t[1..] == PrintString(v) + more;
    assert SkipBlanks(t[1..]) == t[1..];
    assert (PrintString(v) + more)[1..] == Escape(v) + [QUOTE] + more;
    StringRoundTrip(v, more);
  }

  /** What `json_string` returns for a key of a printed object whose fields are strings, or whose string
    fields come first and are followed by `cont`. */
  lemma StringLookup(ms: Members, k: string, cont: string)
    requires StringFields(ms) && ms != NoMembers && PlainKey(k) && EndsField(cont)
    ensures match Lookup(ms, k)
            case At(v) => StringAt("{" + PrintMembers(ms) + cont, k) == Some(v)
            case Hijacked => StringAt("{" + PrintMembers(ms) + cont, k) == None
            case Absent =>
              AfterFirst("{" + PrintMembers(ms) + cont, Quoted(k)) == AfterFirst(cont, Quoted(k))
  {
    hide AfterFirst, PlainKey, PrintMembers, ValueAfter, FieldTail;
    var t := "{" + PrintMembers(ms) + cont;
    assert t == ['{'] + (PrintMembers(ms) + cont);
    PastChar('{', PrintMembers(ms) + cont, k);
    ValueTextIs(t, k);
    var more := FieldSearch(ms, k, cont);
    match Lookup(ms, k)
    case At(v) => StringFieldValue(v, more);
    case _ =>
  }

  // ---- looking up objects among other members ----

  /** Some string in the value, at any depth, is one that the key search mistakes for the key `k`. */
  predicate Mentions(v: Json, k: string)
  {
    match v
    case Str(s) => Hijacks(s, k)
    case Lit(_) => false
    case Arr(items) => MentionedIn(items, k)
    case Obj(members) => MentionedAmong(members, k)
  }

  predicate MentionedIn(items: Items, k: string)
  {
    match items case NoItems => false case Item(v, rest) => Mentions(v, k) || MentionedIn(rest, k)
  }

  predicate MentionedAmong(ms: Members, k: string)
  {
    match ms
    case NoMembers => false
    case Member(key, v, rest) => Hijacks(key, k) || Mentions(v, k) || MentionedAmong(rest, k)
  }

  /** The search for a key passes over a printed value of any nesting that does not mention it. */
  lemma {:induction false} PastValue(v: Json, rest: string, k: string)
    requires WellFormed(v) && PlainKey(k) && !Mentions(v, k) && AfterString(rest)
    ensures AfterFirst(Print(v) + rest, Quoted(k)) == AfterFirst(rest, Quoted(k))
    decreases v
  {
    hide AfterFirst, PlainKey, Hijacks, PrintString, PrintItems, PrintMembers;
    match v
    case Str(s) => PastString(s, rest, k);
    case Lit(text) => AfterFirstSkip(text, rest, Quoted(k));
    case Arr(items) =>
      assert Print(v) + rest == ['['] + (PrintItems(items) + ([']'] + rest));
      PastChar('[', PrintItems(items) + ([']'] + rest), k);
      PastItems(items, [']'] + rest, k);
      PastChar(']', rest, k);
    case Obj(members) =>
      assert Print(v) + rest == ['{'] + (PrintMembers(members) + (['}'] + rest));
      PastChar('{', PrintMembers(members) + (['}'] + rest), k);
      PastMembers(members, ['}'] + rest, k);
      PastChar('}', rest, k);
  }

  lemma {:induction false} PastItems(items: Items, rest: string, k: string)
    requires WellFormedItems(items) && PlainKey(k) && !MentionedIn(items, k) && AfterString(rest)
    ensures AfterFirst(PrintItems(items) + rest, Quoted(k)) == AfterFirst(rest, Quoted(k))
    decreases items
  {
    hide AfterFirst, PlainKey, Print;
    match items
    case NoItems => assert PrintItems(items) + rest == rest;
    case Item(v, NoItems) => PastValue(v, rest, k);
    case Item(v, more) =>
      var tail := [','] + (PrintItems(more) + rest);
      assert PrintItems(items) + rest == Print(v) + tail;
      PastValue(v, tail, k);
      PastChar(',', PrintItems(more) + rest, k);
      PastItems(more, rest, k);
  }

  /** The text of members from the colon of the first one on. */
  function FromColon(v: Json, more: Members, rest: string): string
  {
    [':'] + (Print(v) + if more == NoMembers then rest else [','] + (PrintMembers(more) + rest))
  }

  lemma MembersText(key: string, v: Json, more: Members, rest: string)
    ensures PrintMembers(Member(key, v, more)) + rest == PrintString(key) + FromColon(v, more, rest)
  {
    hide Print, PrintString;
  }

  lemma {:induction false} PastMembers(ms: Members, rest: string, k: string)
    requires WellFormedMembers(ms) && PlainKey(k) && !MentionedAmong(ms, k) && AfterString(rest)
    ensures AfterFirst(PrintMembers(ms) + rest, Quoted(k)) == AfterFirst(rest, Quoted(k))
    decreases ms
  {
    hide AfterFirst, PlainKey, PrintString, Print, PrintMembers, Hijacks;
    match ms
    case NoMembers => NoMembersText(rest);
    case Member(key, v, more) =>
      var tail := if more == NoMembers then rest else [','] + (PrintMembers(more) + rest);
      MembersText(key, v, more, rest);
      PastString(key, FromColon(v, more, rest), k);
      PastChar(':', Print(v) + tail, k);
      PastValue(v, tail, k);
      if more != NoMembers {
        PastChar(',', PrintMembers(more) + rest, k);
        PastMembers(more, rest, k);
      }
  }

  lemma NoMembersText(rest: string)
    ensures PrintMembers(NoMembers) + rest == rest
  {
  }

  /** The blanks of section 2 of RFC 8259. */
  predicate Blank(c: char) { c == ' ' || c == '\t' || c == '\n' || c == '\r' }

  predicate AllBlank(b: string) { forall i :: 0 <= i < |b| ==> Blank(b[i]) }

  lemma {:induction false} BlanksSkipped(b: string, t: string)
    requires AllBlank(b) && t != [] && !Blank(t[0])
    ensures SkipBlanks(b + t) == t
  {
    if b == [] {
      assert b + t == t;
    } else {
      assert (b + t)[1..] == b[1..] + t;
      BlanksSkipped(b[1..], t);
    }
  }

  /** A quoted key, a colon with blanks around it, and what follows. */
  function Keyed(k: string, before: string, after: string, value: string): string
  {
    PrintString(k) + (before + ([':'] + (after + value)))
  }

  /** Behind any text that the search for the key passes over, the value is located, whatever blanks surround
    the colon. */
  lemma ValueBehindKey(front: string, k: string, before: string, after: string, value: string)
    requires PlainKey(k) && AllBlank(before) && AllBlank(after) && value != [] && !Blank(value[0])
    requires AfterFirst(front + Keyed(k, before, after, value), Quoted(k)) ==
             AfterFirst(Keyed(k, before, after, value), Quoted(k))
    ensures ValueText(front + Keyed(k, before, after, value), k) == Some(value)
  {
    hide AfterFirst, SkipBlanks;
    var colon := [':'] + (after + value);
    EscapePlain(k);
    AfterFirstHere(Quoted(k), before + colon);
    BlanksSkipped(before, colon);
    assert colon[1..] == after + value;
    BlanksSkipped(after, value);
  }

  /** What stands in front of a key when these members come first. */
  function Front(ms: Members): string { ['{'] + if ms == NoMembers then [] else PrintMembers(ms) + [','] }

  lemma PastFront(ms: Members, k: string, rest: string)
    requires PlainKey(k) && WellFormedMembers(ms) && !MentionedAmong(ms, k)
    ensures AfterFirst(Front(ms) + rest, Quoted(k)) == AfterFirst(rest, Quoted(k))
  {
    hide AfterFirst, PlainKey, PrintMembers;
    if ms == NoMembers {
      assert Front(ms) + rest == ['{'] + rest;
      PastChar('{', rest, k);
    } else {
      assert Front(ms) + rest == ['{'] + (PrintMembers(ms) + ([','] + rest));
      PastChar('{', PrintMembers(ms) + ([','] + rest), k);
      PastMembers(ms, [','] + rest, k);
      PastChar(',', rest, k);
    }
  }

  /** `json_object` finds the object under a key behind any members that do not mention the key, whatever blanks
    surround the colon and whatever follows the object. */
  lemma ObjectAmongMembers(ms: Members, k: string, before: string, after: string, inner: Members, tail: string)
    requires PlainKey(k) && WellFormedMembers(ms) && !MentionedAmong(ms, k) && WellFormedMembers(inner)
    requires AllBlank(before) && AllBlank(after)
    ensures ObjectAt(Front(ms) + Keyed(k, before, after, Print(Obj(inner)) + tail), k) == Some(Print(Obj(inner)))
  {
    hide AfterFirst, Print, CloseAt, ValueText, PlainKey, WellFormedMembers, Front, Keyed, MentionedAmong;
    var text := Print(Obj(inner));
    PrintedObjectStarts(inner);
    PastFront(ms, k, Keyed(k, before, after, text + tail));
    ValueBehindKey(Front(ms), k, before, after, text + tail);
    ObjectExtent(inner, tail);
    assert (text + tail)[..|text|] == text;
  }

  /** `json_string` finds the string under a key in the same way, however it is spelled, unless by `\u`. */
  lemma StringAmongMembers(ms: Members, k: string, before: string, after: string, text: string, s: string, tail: string)
    requires PlainKey(k) && WellFormedMembers(ms) && !MentionedAmong(ms, k) && Spells(text, s)
    requires AllBlank(before) && AllBlank(after)
    ensures StringAt(Front(ms) + Keyed(k, before, after, [QUOTE] + (text + [QUOTE] + tail)), k) == Some(s) <==>
            Codes(text) == 0
  {
    hide AfterFirst, ValueText, PlainKey, WellFormedMembers, Front, Keyed, MentionedAmong, Spells, ReadString;
    var value := [QUOTE] + (text + [QUOTE] + tail);
    PastFront(ms, k, Keyed(k, before, after, value));
    ValueBehindKey(Front(ms), k, before, after, value);
    assert value[1..] == text + [QUOTE] + tail;
    SpellingRoundTripIff(text, s, tail);
  }

  function Append(ms: Members, k: string, v: Json, rest: Members): Members
  {
    match ms case NoMembers => Member(k, v, rest) case Member(key, w, more) => Member(key, w, Append(more, k, v, rest))
  }

  lemma {:induction false} AppendText(ms: Members, k: string, v: Json, rest: Members)
    ensures PrintMembers(Append(ms, k, v, rest)) ==
            (if ms == NoMembers then [] else PrintMembers(ms) + [',']) + PrintMembers(Member(k, v, rest))
  {
    hide Print, PrintString;
    if ms != NoMembers {
      AppendText(ms.rest, k, v, rest);
    }
  }

  lemma PrintedMember(ms: Members, k: string, v: Json, rest: Members) returns (tail: string)
    ensures Print(Obj(Append(ms, k, v, rest))) == Front(ms) + Keyed(k, [], [], Print(v) + tail)
  {
    hide PrintString, PrintMembers, Append;
    AppendText(ms, k, v, rest);
    MembersText(k, v, rest, "}");
    tail := if rest == NoMembers then "}" else [','] + (PrintMembers(rest) + "}");
    hide Print;
    assert [] + (Print(v) + tail) == Print(v) + tail;
    assert [] + ([':'] + (Print(v) + tail)) == FromColon(v, rest, "}");
    ObjectText(Append(ms, k, v, rest));
  }

  lemma ObjectText(ms: Members)
    ensures Print(Obj(ms)) == ['{'] + (PrintMembers(ms) + "}")
  {
  }

  /** The object under a key of a printed object, at any place among its members, comes back as its own text when
    no member in front of it mentions the key. */
  lemma ObjectLookup(ms: Members, k: string, inner: Members, rest: Members)
    requires PlainKey(k) && WellFormedMembers(ms) && !MentionedAmong(ms, k) && WellFormedMembers(inner)
    ensures ObjectAt(Print(Obj(Append(ms, k, Obj(inner), rest))), k) == Some(Print(Obj(inner)))
  {
    hide Print, ObjectAt, PlainKey, WellFormedMembers, Front, Keyed, MentionedAmong;
    var tail := PrintedMember(ms, k, Obj(inner), rest);
    ObjectAmongMembers(ms, k, [], [], inner, tail);
  }

  lemma PrintedObjectStarts(ms: Members)
    ensures var t := Print(Obj(ms)); t != [] && t[0] == '{'
  {
  }

  lemma HijacksItself(k: string)
    ensures Hijacks(k, k)
  {
  }

  // ---- array literals, and values of another kind ----

  /** The text with the backslash of every escape left out and the character behind it kept as it is. */
  function Unslashed(text: string): string
    decreases |text|
  {
    if text == [] then []
    else if text[0] == BACKSLASH && |text| >= 2 then [text[1]] + Unslashed(text[2..])
    else [text[0]] + Unslashed(text[1..])
  }

  /** Every quote and every backslash stands behind a backslash. */
  predicate Escaped(text: string)
    decreases |text|
  {
    text == [] ||
    (if text[0] == BACKSLASH then |text| >= 2 && Escaped(text[2..]) else text[0] != QUOTE && Escaped(text[1..]))
  }

  lemma {:induction false} RawRead(text: string, tail: string)
    requires Escaped(text)
    ensures ReadString(text + ([QUOTE] + tail), false, true) == Some(Unslashed(text))
    decreases |text|
  {
    var end := [QUOTE] + tail;
    if text == [] {
      assert text + end == end;
    } else if text[0] == BACKSLASH {
      RawRead(text[2..], tail);
      assert (text + end)[1..][1..] == text[2..] + end;
      assert (text + end)[1..][0] == text[1];
    } else {
      RawRead(text[1..], tail);
      assert (text + end)[1..] == text[1..] + end;
    }
  }

  /** The first literal of the array under a key comes back without its backslashes, behind any members that do not
    mention the key and any characters but quotes in front of it. */
  lemma ArrayAmongMembers(ms: Members, k: string, before: string, after: string, gap: string, text: string,
                          tail: string)
    requires PlainKey(k) && WellFormedMembers(ms) && !MentionedAmong(ms, k) && Escaped(text)
    requires AllBlank(before) && AllBlank(after) && forall i :: 0 <= i < |gap| ==> gap[i] != QUOTE
    ensures var value := ['['] + (gap + ([QUOTE] + (text + ([QUOTE] + tail))));
            FirstArrayStringAt(Front(ms) + Keyed(k, before, after, value), k) == Some(Unslashed(text))
  {
    hide AfterFirst, ValueText, PlainKey, WellFormedMembers, Front, Keyed, MentionedAmong, Escaped,
      ReadString, Unslashed;
    var rest := text + ([QUOTE] + tail);
    var value := ['['] + (gap + ([QUOTE] + rest));
    PastFront(ms, k, Keyed(k, before, after, value));
    ValueBehindKey(Front(ms), k, before, after, value);
    assert value[1..] == gap + ([QUOTE] + rest);
    AfterFirstSkip(gap, [QUOTE] + rest, [QUOTE]);
    AfterFirstHere([QUOTE], rest);
    RawRead(text, tail);
  }

  /** A value of another kind, or none, is not taken for a string, an object or an array. */
  lemma OtherKinds(t: string, k: string)
    ensures var v := ValueText(t, k);
            (StringAt(t, k).Some? ==> v.Some? && v.value != [] && v.value[0] == '\"') &&
            (ObjectAt(t, k).Some? ==> v.Some? && v.value != [] && v.value[0] == '{') &&
            (FirstArrayStringAt(t, k).Some? ==> v.Some? && v.value != [] && v.value[0] == '[')
  {
    hide ValueText, ReadString, CloseAt, AfterFirst;
  }

  /** A literal without its closing quote is none. */
  lemma {:induction false} Unterminated(t: string, escaped: bool, raw: bool)
    requires forall i :: 0 <= i < |t| ==> t[i] != QUOTE
    ensures ReadString(t, escaped, raw) == None
    decreases |t|
  {
    if t != [] {
      Unterminated(t[1..], false, raw);
      Unterminated(t[1..], true, raw);
    }
  }
}
