/** Which topology texts the parser reads back, for all rows and columns. */
module TopologyRoundTrip {
  import opened Words
  import opened TextSearch
  import opened Decimal
  import opened Topology

  // ---- normalising leaves ordinary text alone ----

  /** No capital letters and no first byte of a multiplication sign. */
  predicate Plain(t: string) { forall i :: 0 <= i < |t| ==> !('A' <= t[i] <= 'Z') && t[i] != SIGN[0] }

  predicate Tight(t: string) { t != [] && !IsSpace(t[0]) && !IsSpace(t[|t| - 1]) }

  lemma {:induction false} RewritePast(a: string, b: string)
    requires Plain(a)
    ensures Rewrite(a + b) == a + Rewrite(b)
    decreases |a|
  {
    if a == [] {
      assert a + b == b;
    } else {
      assert (a + b)[0] == a[0] && (a + b)[1..] == a[1..] + b;
      RewritePast(a[1..], b);
      assert a == [a[0]] + a[1..];
    }
  }

  lemma NormalizedPlain(t: string)
    requires Plain(t) && Tight(t)
    ensures Normalized(t) == t
  {
    assert Trim(t) == t && Lower(t) == t;
    RewritePast(t, []);
    assert t + [] == t && Rewrite([]) == [];
  }

  // ---- numbers next to text ----

  /** A blank, tab, line feed, vertical tab, form feed or carriage return. */
  predicate Space(c: char) { c as int == 32 || 9 <= c as int <= 13 }

  predicate AllSpaces(t: string) { forall i :: 0 <= i < |t| ==> Space(t[i]) }

  predicate IsSeparator(c: char) { Space(c) || c == '=' || c == ':' }

  predicate Separators(t: string) { forall i :: 0 <= i < |t| ==> IsSeparator(t[i]) }

  predicate EndsBefore(q: string) { q == [] || !IsDigit(q[0]) }

  predicate StopsAfter(p: string) { p == [] || !IsDigit(p[|p| - 1]) }

  lemma {:induction false} LeadingDigits(d: string, q: string)
    requires AllDigits(d) && EndsBefore(q)
    ensures Leading(d + q) == |d|
    decreases |d|
  {
    if d == [] {
      assert d + q == q;
    } else {
      assert (d + q)[1..] == d[1..] + q;
      LeadingDigits(d[1..], q);
    }
  }

  lemma {:induction false} TrailingDigits(p: string, d: string)
    requires AllDigits(d) && StopsAfter(p)
    ensures Trailing(p + d) == |p|
    decreases |d|
  {
    if d == [] {
      assert p + d == p;
    } else {
      assert (p + d)[..|p + d| - 1] == p + d[..|d| - 1];
      TrailingDigits(p, d[..|d| - 1]);
    }
  }

  lemma {:induction false} DropsSeparators(s: string, q: string)
    requires Separators(s) && (q == [] || !IsSeparator(q[0]))
    ensures DropSeparators(s + q) == q
    decreases |s|
  {
    if s == [] {
      assert s + q == q;
    } else {
      assert (s + q)[1..] == s[1..] + q;
      DropsSeparators(s[1..], q);
    }
  }

  lemma {:induction false} DropsLastSpaces(p: string, s: string)
    requires AllSpaces(s) && (p == [] || !IsSpace(p[|p| - 1]))
    ensures DropLastSpaces(p + s) == p
    decreases |s|
  {
    if s == [] {
      assert p + s == p;
    } else {
      assert (p + s)[..|p + s| - 1] == p + s[..|s| - 1];
      DropsLastSpaces(p, s[..|s| - 1]);
    }
  }

  /** Separators and then a number. */
  lemma AfterSeparators(s: string, d: string, q: string)
    requires Separators(s) && d != [] && AllDigits(d) && EndsBefore(q)
    ensures NumberAfter(s + d + q) == ParseUint(d)
  {
    hide ParseUint, Leading, DropSeparators;
    assert s + d + q == s + (d + q);
    assert (d + q)[0] == d[0];
    DropsSeparators(s, d + q);
    LeadingDigits(d, q);
    assert (d + q)[..|d|] == d;
  }

  /** A number and then spaces. */
  lemma BeforeSpaces(p: string, d: string, s: string)
    requires AllSpaces(s) && d != [] && AllDigits(d) && StopsAfter(p)
    ensures NumberBefore(p + d + s) == ParseUint(d)
  {
    hide ParseUint, Trailing, DropLastSpaces;
    DropsLastSpaces(p + d, s) by { assert (p + d)[|p + d| - 1] == d[|d| - 1]; }
    TrailingDigits(p, d);
    assert (p + d)[|p|..] == d;
  }

  /** After separators comes something else than a number. */
  lemma NoNumberAfter(s: string, q: string)
    requires Separators(s) && (q == [] || (!IsSeparator(q[0]) && !IsDigit(q[0])))
    ensures NumberAfter(s + q) == None
  {
    DropsSeparators(s, q);
  }

  lemma ParsesDigits(n: u32)
    ensures ParseUint(Digits(n)) == if n == 0 then None else Some(n)
  {
    hide Digits, ValueOf;
    DigitsValue(n);
    assert Trim(Digits(n)) == Digits(n);
    FromCharsOfDigits(n);
  }

  /** A name is looked up at its first occurrence: the number behind it, or else the one before it. */
  lemma NamedAt(a: string, name: string, b: string)
    requires name != [] && forall i :: 0 <= i < |a| ==> a[i] != name[0]
    ensures NamedNumber(a + (name + b), name) == if NumberAfter(b).Some? then NumberAfter(b) else NumberBefore(a)
  {
    hide NumberAfter, NumberBefore, AfterFirst;
    AfterFirstSkip(a, name + b, name);
    AfterFirstHere(name, b);
    assert Before(a + (name + b), name, b) == a;
  }

  // ---- the printed form ----

  /** Text without the letters, digits and bytes that matter to the parser. */
  predicate Quiet(t: string)
  {
    Plain(t) && forall i :: 0 <= i < |t| ==> !IsDigit(t[i]) && t[i] != 'r' && t[i] != 'c'
  }

  lemma DigitText(n: nat)
    ensures var d := Digits(n); d != [] && AllDigits(d) && Plain(d)
  {
  }

  lemma TightEnds(text: string, first: string, middle: string, last: string)
    requires text == first + middle + last && first != [] && last != []
    requires !IsSpace(first[0]) && !IsSpace(last[|last| - 1])
    ensures Tight(text)
  {
  }

  lemma PlainParts(a: string, b: string, c: string, d: string, e: string)
    requires Plain(a) && Plain(b) && Plain(c) && Plain(d) && Plain(e)
    ensures Plain(a + b + c + d + e)
  {
  }

  /** When both names give a number, those are the topology. */
  lemma BothNamed(t: Topology, text: string)
    requires Plain(text) && Tight(text)
    requires NamedNumber(text, "rows") == Some(t.rows) && NamedNumber(text, "columns") == Some(t.columns)
    ensures Parse(text) == Some(t)
  {
    hide NamedNumber, NumbersIn, Normalized, Plain, Tight;
    NormalizedPlain(text);
  }

  lemma RowsPart(r: string, c: string, tail: string)
    requires r != [] && AllDigits(r)
    ensures NamedNumber(r + " rows x " + c + " columns" + tail, "rows") == ParseUint(r)
  {
    hide NumberAfter, NumberBefore, NamedNumber, ParseUint;
    var more := "x " + c + " columns" + tail;
    assert r + " rows x " + c + " columns" + tail == (r + " ") + ("rows" + (" " + more));
    NamedAt(r + " ", "rows", " " + more);
    NoNumberAfter(" ", more);
    BeforeSpaces("", r, " ");
    assert "" + r + " " == r + " ";
  }

  lemma ColumnsPart(r: string, c: string, tail: string)
    requires AllDigits(r) && c != [] && AllDigits(c) && NumberAfter(tail) == None
    ensures NamedNumber(r + " rows x " + c + " columns" + tail, "columns") == ParseUint(c)
  {
    hide NumberAfter, NumberBefore, NamedNumber, ParseUint;
    var before := r + " rows x " + c + " ";
    assert r + " rows x " + c + " columns" + tail == before + ("columns" + tail);
    NamedAt(before, "columns", tail);
    BeforeSpaces(r + " rows x ", c, " ");
  }

  lemma RowsByColumnsShape(r: string, c: string, tail: string)
    requires r != [] && AllDigits(r) && Plain(r) && Plain(c)
    requires Plain(tail) && (tail == [] || !IsSpace(tail[|tail| - 1]))
    ensures var text := r + " rows x " + c + " columns" + tail; Plain(text) && Tight(text)
  {
    var text := r + " rows x " + c + " columns" + tail;
    assert Plain(" rows x ") && Plain(" columns");
    hide Plain;
    PlainParts(r, " rows x ", c, " columns", tail);
    assert text[0] == r[0] && text[|text| - 1] == (" columns" + tail)[|" columns" + tail| - 1];
    assert !IsSpace(" columns"[|" columns"| - 1]);
  }

  /** `R rows x C columns` and any tail that does not begin with a number. */
  lemma RowsByColumns(t: Topology, tail: string)
    requires t.Valid()
    requires Plain(tail) && NumberAfter(tail) == None && (tail == [] || !IsSpace(tail[|tail| - 1]))
    ensures Parse(Digits(t.rows) + " rows x " + Digits(t.columns) + " columns" + tail) == Some(t)
  {
    hide Digits, NumberAfter, NamedNumber, Parse, ParseUint, Plain, Tight;
    var r, c := Digits(t.rows), Digits(t.columns);
    DigitText(t.rows);
    DigitText(t.columns);
    ParsesDigits(t.rows);
    ParsesDigits(t.columns);
    RowsByColumnsShape(r, c, tail);
    RowsPart(r, c, tail);
    ColumnsPart(r, c, tail);
    BothNamed(t, r + " rows x " + c + " columns" + tail);
  }

  function TilesText(t: Topology): string { " (" + Digits(t.rows as int * t.columns) + " compute tiles)" }

  lemma TilesTail(tiles: string)
    requires Plain(tiles)
    ensures var tail := " (" + tiles + " compute tiles)";
            Plain(tail) && NumberAfter(tail) == None && tail != [] && !IsSpace(tail[|tail| - 1])
  {
    var more := "(" + tiles + " compute tiles)";
    assert " (" + tiles + " compute tiles)" == " " + more;
    NoNumberAfter(" ", more);
  }

  lemma FormatText(t: Topology)
    requires t.Valid()
    ensures Format(t) == Digits(t.rows) + " rows x " + Digits(t.columns) + " columns" + TilesText(t)
  {
  }

  /** The printer's text is read back for every valid topology, and its `unknown` is not a topology. */
  lemma FormatRoundTrip(t: Topology)
    ensures Parse(Format(t)) == if t.Valid() then Some(t) else None
  {
    hide Digits, Parse, Plain, NumberAfter;
    if t.Valid() {
      DigitText(t.rows as int * t.columns);
      TilesTail(Digits(t.rows as int * t.columns));
      RowsByColumns(t, TilesText(t));
      FormatText(t);
    } else {
      UnknownText();
    }
  }

  lemma Unnamed(t: string)
    requires forall i :: 0 <= i < |t| ==> t[i] != 'r' && t[i] != 'c'
    ensures NamedNumber(t, "rows") == None && NamedNumber(t, "columns") == None && NamedNumber(t, "cols") == None
  {
    AfterFirstAbsent(t, "rows");
    AfterFirstAbsent(t, "columns");
    AfterFirstAbsent(t, "cols");
  }

  lemma UnknownText()
    ensures Parse("unknown") == None
  {
    hide NumbersIn, NamedNumber, Normalized;
    NormalizedPlain("unknown");
    Unnamed("unknown");
    NoNumbers("unknown");
  }

  lemma {:induction false} NoNumbers(t: string)
    requires forall i :: 0 <= i < |t| ==> !IsDigit(t[i])
    ensures NumbersIn(t) == []
    decreases |t|
  {
    if t != [] {
      NoNumbers(t[1..]);
    }
  }

  // ---- the other forms the header promises ----

  /** `rows=R columns=C`, with any spaces, `=` and `:` between name and number. */
  lemma NamedForm(t: Topology, s: string, u: string)
    requires t.Valid() && Separators(s) && Separators(u)
    ensures Parse("rows" + s + Digits(t.rows) + " columns" + u + Digits(t.columns)) == Some(t)
  {
    hide Digits, NamedNumber, ParseUint, Plain, Tight, Parse, Separators;
    var r, c := Digits(t.rows), Digits(t.columns);
    DigitText(t.rows);
    DigitText(t.columns);
    ParsesDigits(t.rows);
    ParsesDigits(t.columns);
    NamedShape(s, r, u, c);
    NamedRows(s, r, " columns" + u + c);
    Regroup("rows" + s + r, " columns", u, c);
    NamedColumns(s, r, u, c);
    BothNamed(t, "rows" + s + r + " columns" + u + c);
  }

  lemma Regroup(a: string, b: string, c: string, d: string)
    ensures a + b + c + d == a + (b + c + d)
  {
  }

  lemma NamedShape(s: string, r: string, u: string, c: string)
    requires Separators(s) && Separators(u) && Plain(r) && Plain(c) && c != [] && AllDigits(c)
    ensures var text := "rows" + s + r + " columns" + u + c; Plain(text) && Tight(text)
  {
  }

  lemma NamedRows(s: string, r: string, rest: string)
    requires Separators(s) && r != [] && AllDigits(r) && EndsBefore(rest)
    ensures ParseUint(r).Some? ==> NamedNumber("rows" + s + r + rest, "rows") == ParseUint(r)
  {
    hide NumberAfter, NumberBefore, NamedNumber, ParseUint, Separators;
    assert "rows" + s + r + rest == "" + ("rows" + (s + r + rest));
    NamedAt("", "rows", s + r + rest);
    AfterSeparators(s, r, rest);
  }

  lemma NamedColumns(s: string, r: string, u: string, c: string)
    requires Separators(s) && AllDigits(r) && Separators(u) && c != [] && AllDigits(c)
    ensures ParseUint(c).Some? ==> NamedNumber("rows" + s + r + " columns" + u + c, "columns") == ParseUint(c)
  {
    hide NumberAfter, NumberBefore, NamedNumber, ParseUint;
    var before := "rows" + s + r + " ";
    assert "rows" + s + r + " columns" + u + c == before + ("columns" + (u + c));
    NamedAt(before, "columns", u + c);
    AfterSeparators(u, c, "");
    assert u + c + "" == u + c;
  }

  /** `C columns x R rows`. */
  lemma ReversedForm(t: Topology)
    requires t.Valid()
    ensures Parse(Digits(t.columns) + " columns x " + Digits(t.rows) + " rows") == Some(t)
  {
    hide Digits, NamedNumber, ParseUint, Plain, Tight, Parse;
    var r, c := Digits(t.rows), Digits(t.columns);
    DigitText(t.rows);
    DigitText(t.columns);
    ParsesDigits(t.rows);
    ParsesDigits(t.columns);
    PlainWords();
    NumbersShape(c, " columns x ", r, " rows");
    ReversedParts(r, c);
    BothNamed(t, c + " columns x " + r + " rows");
  }

  lemma PlainWords()
    ensures Plain(" columns x ") && Plain(" rows") && Plain(" rows ") && Plain(" columns")
  {
  }

  lemma NumbersShape(a: string, b: string, c: string, d: string)
    requires a != [] && AllDigits(a) && Plain(a) && Plain(c) && Plain(b) && Plain(d) && d != [] && !IsSpace(d[|d| - 1])
    ensures var text := a + b + c + d; Plain(text) && Tight(text)
  {
  }

  lemma ReversedParts(r: string, c: string)
    requires r != [] && AllDigits(r) && c != [] && AllDigits(c)
    ensures NamedNumber(c + " columns x " + r + " rows", "columns") == ParseUint(c)
    ensures NamedNumber(c + " columns x " + r + " rows", "rows") == ParseUint(r)
  {
    hide NumberAfter, NumberBefore, NamedNumber, ParseUint;
    var rest := "x " + r + " rows";
    assert c + " columns x " + r + " rows" == (c + " ") + ("columns" + (" " + rest));
    NamedAt(c + " ", "columns", " " + rest);
    NoNumberAfter(" ", rest);
    BeforeSpaces("", c, " ");
    assert "" + c + " " == c + " ";
    assert " " + "rows" == " rows";
    LastName(c + " columns x ", r, "rows");
  }

  /** A text that ends in a number and a name. */
  lemma LastName(p: string, d: string, name: string)
    requires d != [] && AllDigits(d) && StopsAfter(p) && name != [] && !IsDigit(name[0]) && name[0] != ' '
    requires forall i :: 0 <= i < |p| ==> p[i] != name[0]
    ensures NamedNumber(p + d + (" " + name), name) == ParseUint(d)
  {
    hide NumberAfter, NumberBefore, NamedNumber, ParseUint;
    var before := p + d + " ";
    assert p + d + (" " + name) == before + (name + "");
    NamedAt(before, name, "");
    NoNumberAfter("", "");
    assert "" + "" == "";
    BeforeSpaces(p, d, " ");
  }

  /** `RxC`, `R×C` and any other two numbers with something between them that is neither a digit nor a letter
    of the names. */
  lemma CompactForm(t: Topology, between: string)
    requires t.Valid() && between != []
    requires Quiet(Rewrite(Lower(between)))
    ensures Parse(Digits(t.rows) + between + Digits(t.columns)) == Some(t)
  {
    hide Digits, ParseUint, NumbersIn, NamedNumber, Rewrite, Lower, Normalized;
    var r, c, m := Digits(t.rows), Digits(t.columns), Rewrite(Lower(between));
    DigitText(t.rows);
    DigitText(t.columns);
    ParsesDigits(t.rows);
    ParsesDigits(t.columns);
    CompactNormalized(r, between, c);
    Unnamed(r + m + c);
    RewriteNotEmpty(Lower(between));
    TwoNumbers(r, m, c);
  }

  lemma CompactNormalized(r: string, between: string, c: string)
    requires r != [] && c != [] && AllDigits(r) && AllDigits(c)
    ensures Normalized(r + between + c) == r + Rewrite(Lower(between)) + c
  {
    hide Rewrite;
    var text := r + between + c;
    TightEnds(text, r, between, c);
    assert Trim(text) == text;
    LowerBetween(r, between, c);
    RewritePast(r, Lower(between) + c);
    RewriteBefore(Lower(between), c);
    ConcatThree(r, Rewrite(Lower(between)), c);
  }

  lemma LowerBetween(r: string, between: string, c: string)
    requires AllDigits(r) && AllDigits(c)
    ensures Lower(r + between + c) == r + (Lower(between) + c)
  {
  }

  /** A sign begins `m + c` only if it begins `m`, when `c` is a number. */
  lemma SignInFront(m: string, c: string)
    requires m != [] && AllDigits(c)
    ensures SIGN <= m + c <==> SIGN <= m
  {
    SignBytes(m);
    SignBytes(m + c);
    assert |m| == 1 && c != [] ==> (m + c)[1] == c[0];
  }

  lemma SignBytes(t: string)
    ensures SIGN <= t <==> |t| >= 2 && t[0] == SIGN[0] && t[1] == SIGN[1]
  {
  }

  lemma {:induction false} RewriteBefore(m: string, c: string)
    requires AllDigits(c)
    ensures Rewrite(m + c) == Rewrite(m) + c
    decreases |m|
  {
    hide Rewrite, AllDigits;
    if m == [] {
      DigitsUnchanged(c);
      assert m + c == c;
    } else {
      SignInFront(m, c);
      RewriteStep(m);
      RewriteStep(m + c);
      if SIGN <= m {
        DropPrefix(m, c, 2);
        RewriteBefore(m[2..], c);
        ConcatThree(['x'], Rewrite(m[2..]), c);
      } else {
        DropPrefix(m, c, 1);
        RewriteBefore(m[1..], c);
        ConcatThree([m[0]], Rewrite(m[1..]), c);
      }
    }
  }

  lemma ConcatThree(a: string, b: string, c: string)
    ensures a + (b + c) == (a + b) + c
  {
  }

  lemma DropPrefix(m: string, c: string, n: nat)
    requires n <= |m|
    ensures (m + c)[n..] == m[n..] + c && (n > 0 ==> (m + c)[0] == m[0])
  {
  }

  lemma DigitsUnchanged(c: string)
    requires AllDigits(c)
    ensures Rewrite(c) == c && Rewrite([]) == []
  {
    RewritePast(c, []);
    assert c + [] == c;
  }

  lemma RewriteNotEmpty(t: string)
    requires t != []
    ensures Rewrite(t) != []
  {
  }

  lemma TwoNumbers(r: string, m: string, c: string)
    requires r != [] && AllDigits(r) && c != [] && AllDigits(c) && m != []
    requires forall i :: 0 <= i < |m| ==> !IsDigit(m[i])
    requires ParseUint(r).Some? && ParseUint(c).Some?
    ensures NumbersIn(r + m + c) == [ParseUint(r).value, ParseUint(c).value]
  {
    hide ParseUint;
    assert r + m + c == r + (m + c);
    LeadingDigits(r, m + c);
    assert (r + (m + c))[..|r|] == r && (r + (m + c))[|r|..] == m + c;
    SkipsText(m, c);
    LeadingDigits(c, "");
    assert c + "" == c && c[..|c|] == c && c[|c|..] == [];
    assert NumbersIn([]) == [];
  }

  lemma {:induction false} SkipsText(m: string, c: string)
    requires forall i :: 0 <= i < |m| ==> !IsDigit(m[i])
    ensures NumbersIn(m + c) == NumbersIn(c)
    decreases |m|
  {
    if m == [] {
      assert m + c == c;
    } else {
      assert (m + c)[1..] == m[1..] + c;
      SkipsText(m[1..], c);
    }
  }

  /** The multiplication sign and `x` are such texts. */
  lemma CompactSigns(t: Topology)
    requires t.Valid()
    ensures Parse(Digits(t.rows) + "x" + Digits(t.columns)) == Some(t)
    ensures Parse(Digits(t.rows) + "X" + Digits(t.columns)) == Some(t)
    ensures Parse(Digits(t.rows) + SIGN + Digits(t.columns)) == Some(t)
  {
    hide Digits, Parse;
    assert Lower("x") == "x" && Lower("X") == "x" && Lower(SIGN) == SIGN;
    RewritePast("x", []);
    assert "x" + [] == "x" && Rewrite([]) == [] && Rewrite("x") == "x";
    assert SIGN[2..] == [] && Rewrite(SIGN) == "x";
    CompactForm(t, "x");
    CompactForm(t, "X");
    CompactForm(t, SIGN);
  }

  // ---- what no text can do ----

  lemma {:induction false} NumbersPositive(t: string)
    ensures forall i :: 0 <= i < |NumbersIn(t)| ==> NumbersIn(t)[i] != 0
    decreases |t|
  {
    if t != [] {
      var n := Leading(t);
      if n == 0 {
        NumbersPositive(t[1..]);
      } else {
        NumbersPositive(t[n..]);
      }
    }
  }

  /** Whatever the text, a topology that is read is valid. */
  lemma ParsedIsValid(text: string)
    ensures Parse(text).Some? ==> Parse(text).value.Valid()
  {
    NumbersPositive(Normalized(text));
  }

  /** Without the `x` the number behind `rows` wins over the one before it, so the rows are lost. */
  lemma NumberBehindWins(t: Topology)
    requires t.Valid()
    ensures Parse(Digits(t.rows) + " rows " + Digits(t.columns) + " columns") == Some(Topology(t.columns, t.columns))
    ensures Parse(Digits(t.rows) + " rows " + Digits(t.columns) + " columns") == Some(t) <==> t.rows == t.columns
  {
    hide Digits, NamedNumber, ParseUint, Plain, Tight, Parse;
    var r, c := Digits(t.rows), Digits(t.columns);
    DigitText(t.rows);
    DigitText(t.columns);
    ParsesDigits(t.columns);
    PlainWords();
    NumbersShape(r, " rows ", c, " columns");
    BehindParts(r, c);
    BothNamed(Topology(t.columns, t.columns), r + " rows " + c + " columns");
  }

  lemma BehindParts(r: string, c: string)
    requires r != [] && AllDigits(r) && c != [] && AllDigits(c) && ParseUint(c).Some?
    ensures NamedNumber(r + " rows " + c + " columns", "rows") == ParseUint(c)
    ensures NamedNumber(r + " rows " + c + " columns", "columns") == ParseUint(c)
  {
    hide NumberAfter, NumberBefore, NamedNumber, ParseUint;
    var rest := " " + c + " columns";
    assert r + " rows " + c + " columns" == (r + " ") + ("rows" + rest);
    NamedAt(r + " ", "rows", rest);
    AfterSeparators(" ", c, " columns");
    assert " " + "columns" == " columns";
    LastName(r + " rows ", c, "columns");
  }
}
