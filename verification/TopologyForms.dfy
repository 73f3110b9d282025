/** More topology texts: the short name, capitals, spaces around, and texts that are none. */
module TopologyForms {
  import opened Words
  import opened TextSearch
  import opened Decimal
  import opened Topology
  import opened TopologyRoundTrip

  // ---- the short name of the columns ----

  /** The long name does not begin inside the short one. */
  lemma PastShortName(a: string, b: string)
    requires forall i :: 0 <= i < |a| ==> a[i] != 'c'
    ensures AfterFirst(a + ("cols" + b), "columns") == AfterFirst(b, "columns")
  {
    hide AfterFirst;
    var t := "cols" + b;
    AfterFirstSkip(a, t, "columns");
    NotHere(t);
    assert t[1..] == "ols" + b;
    AfterFirstSkip("ols", b, "columns");
  }

  lemma NotHere(t: string)
    requires |t| > 3 && t[3] == 's'
    ensures AfterFirst(t, "columns") == AfterFirst(t[1..], "columns")
  {
    assert "columns"[3] == 'u';
  }

  /** When the long name is not there, the short one counts. */
  lemma ShortNamed(t: Topology, text: string)
    requires Plain(text) && Tight(text) && AfterFirst(text, "columns").None?
    requires NamedNumber(text, "rows") == Some(t.rows) && NamedNumber(text, "cols") == Some(t.columns)
    ensures Parse(text) == Some(t)
  {
    hide NumberAfter, NumberBefore, NumbersIn, Normalized, Plain, Tight, AfterFirst;
    NormalizedPlain(text);
  }

  lemma RowsBefore(r: string, more: string)
    requires r != [] && AllDigits(r)
    ensures NamedNumber(r + " rows " + ("x" + more), "rows") == ParseUint(r)
  {
    hide NumberAfter, NumberBefore, NamedNumber, ParseUint;
    var rest := "x" + more;
    assert r + " rows " + rest == (r + " ") + ("rows" + (" " + rest));
    NamedAt(r + " ", "rows", " " + rest);
    NoNumberAfter(" ", rest);
    BeforeSpaces("", r, " ");
    assert "" + r + " " == r + " ";
  }

  lemma ShortColumns(before: string, c: string, tail: string)
    requires c != [] && AllDigits(c) && NumberAfter(tail) == None && StopsAfter(before)
    requires forall i :: 0 <= i < |before| ==> before[i] != 'c'
    ensures NamedNumber(before + c + " " + ("cols" + tail), "cols") == ParseUint(c)
  {
    hide NumberAfter, NumberBefore, NamedNumber, ParseUint;
    NamedAt(before + c + " ", "cols", tail);
    BeforeSpaces(before, c, " ");
  }

  lemma ShortShape(r: string, c: string, tail: string)
    requires r != [] && AllDigits(r) && Plain(r) && Plain(c)
    requires Plain(tail) && (tail == [] || !IsSpace(tail[|tail| - 1]))
    ensures var text := r + " rows x " + c + " cols" + tail; Plain(text) && Tight(text)
  {
    var text := r + " rows x " + c + " cols" + tail;
    assert Plain(" rows x ") && Plain(" cols");
    hide Plain;
    PlainParts(r, " rows x ", c, " cols", tail);
    assert text[0] == r[0] && text[|text| - 1] == (" cols" + tail)[|" cols" + tail| - 1];
    assert !IsSpace(" cols"[|" cols"| - 1]);
  }

  /** `R rows x C cols` and any tail that neither begins with a number nor holds the long name. */
  lemma RowsByCols(t: Topology, tail: string)
    requires t.Valid() && AfterFirst(tail, "columns").None?
    requires Plain(tail) && NumberAfter(tail) == None && (tail == [] || !IsSpace(tail[|tail| - 1]))
    ensures Parse(Digits(t.rows) + " rows x " + Digits(t.columns) + " cols" + tail) == Some(t)
  {
    hide Digits, NumberAfter, NamedNumber, Parse, ParseUint, Plain, Tight, AfterFirst;
    var r, c := Digits(t.rows), Digits(t.columns);
    DigitText(t.rows);
    DigitText(t.columns);
    ParsesDigits(t.rows);
    ParsesDigits(t.columns);
    var text := r + " rows x " + c + " cols" + tail;
    ShortShape(r, c, tail);
    assert text == r + " rows " + ("x" + (" " + c + " cols" + tail));
    RowsBefore(r, " " + c + " cols" + tail);
    assert text == (r + " rows x ") + c + " " + ("cols" + tail);
    ShortColumns(r + " rows x ", c, tail);
    PastShortName(r + " rows x " + c + " ", tail);
    ShortNamed(t, text);
  }

  /** `rows=R cols=C`, with any spaces, `=` and `:` between name and number. */
  lemma NamedShortForm(t: Topology, s: string, u: string)
    requires t.Valid() && Separators(s) && Separators(u)
    ensures Parse("rows" + s + Digits(t.rows) + " cols" + u + Digits(t.columns)) == Some(t)
  {
    hide Digits, NamedNumber, ParseUint, Plain, Tight, Parse, Separators, AfterFirst;
    var r, c := Digits(t.rows), Digits(t.columns);
    DigitText(t.rows);
    DigitText(t.columns);
    ParsesDigits(t.rows);
    ParsesDigits(t.columns);
    NamedShortShape(s, r, u, c);
    NamedRows(s, r, " cols" + u + c);
    Regroup("rows" + s + r, " cols", u, c);
    NamedShort(s, r, u, c);
    ShortNamed(t, "rows" + s + r + " cols" + u + c);
  }

  lemma NamedShortShape(s: string, r: string, u: string, c: string)
    requires Separators(s) && Separators(u) && Plain(r) && Plain(c) && c != [] && AllDigits(c)
    ensures var text := "rows" + s + r + " cols" + u + c; Plain(text) && Tight(text)
  {
  }

  lemma NamedShort(s: string, r: string, u: string, c: string)
    requires Separators(s) && AllDigits(r) && Separators(u) && c != [] && AllDigits(c)
    ensures var text := "rows" + s + r + " cols" + u + c;
            AfterFirst(text, "columns").None? && (ParseUint(c).Some? ==> NamedNumber(text, "cols") == ParseUint(c))
  {
    hide NumberAfter, NumberBefore, NamedNumber, ParseUint, AfterFirst;
    var before := "rows" + s + r + " ";
    assert "rows" + s + r + " cols" + u + c == before + ("cols" + (u + c));
    NamedAt(before, "cols", u + c);
    PastShortName(before, u + c);
    AfterFirstAbsent(u + c, "columns");
    AfterSeparators(u, c, "");
    assert u + c + "" == u + c;
  }

  // ---- capitals and spaces ----

  /** The same letter, capital or not, or the same character. */
  predicate SameLetter(c: char, d: char)
  {
    || c == d
    || ('A' <= c <= 'Z' && d as int == c as int + 32)
    || ('A' <= d <= 'Z' && c as int == d as int + 32)
  }

  predicate SameLetters(a: string, b: string) { |a| == |b| && forall i :: 0 <= i < |a| ==> SameLetter(a[i], b[i]) }

  lemma {:induction false} SameFront(a: string, b: string)
    requires SameLetters(a, b)
    ensures SameLetters(DropSpaces(a), DropSpaces(b))
  {
    if a != [] {
      assert SameLetter(a[0], b[0]);
      SameFront(a[1..], b[1..]);
    }
  }

  lemma {:induction false} SameEnd(a: string, b: string)
    requires SameLetters(a, b)
    ensures SameLetters(DropLastSpaces(a), DropLastSpaces(b))
  {
    if a != [] {
      var n := |a| - 1;
      assert SameLetter(a[n], b[n]);
      SameEnd(a[..n], b[..n]);
    }
  }

  /** Capitals do not matter: texts that differ only in them are read alike. */
  lemma CaseIgnored(a: string, b: string)
    requires SameLetters(a, b)
    ensures Parse(a) == Parse(b)
  {
    hide NamedNumber, NumbersIn, Rewrite;
    SameFront(a, b);
    SameEnd(DropSpaces(a), DropSpaces(b));
    var s, t := Lower(Trim(a)), Lower(Trim(b));
    forall i | 0 <= i < |s|
      ensures s[i] == t[i]
    {
      assert SameLetter(Trim(a)[i], Trim(b)[i]);
    }
    assert s == t;
  }

  lemma {:induction false} FrontSpaces(s: string, t: string)
    requires AllSpaces(s)
    ensures DropSpaces(s + t) == DropSpaces(t)
    decreases |s|
  {
    if s == [] {
      assert s + t == t;
    } else {
      assert (s + t)[1..] == s[1..] + t;
      FrontSpaces(s[1..], t);
    }
  }

  lemma {:induction false} EndSpaces(t: string, s: string)
    requires AllSpaces(s)
    ensures DropLastSpaces(t + s) == DropLastSpaces(t)
    decreases |s|
  {
    if s == [] {
      assert t + s == t;
    } else {
      assert (t + s)[..|t + s| - 1] == t + s[..|s| - 1];
      EndSpaces(t, s[..|s| - 1]);
    }
  }

  /** Dropping in front leaves the end alone, unless nothing is left. */
  lemma {:induction false} FrontKeepsEnd(t: string, s: string)
    requires AllSpaces(s)
    ensures DropSpaces(t + s) == if DropSpaces(t) == [] then [] else DropSpaces(t) + s
    decreases |t|
  {
    if t == [] {
      FrontSpaces(s, []);
      assert s + [] == s && t + s == s;
    } else {
      assert (t + s)[0] == t[0] && (t + s)[1..] == t[1..] + s;
      if IsSpace(t[0]) {
        FrontKeepsEnd(t[1..], s);
      }
    }
  }

  /** Spaces around a text do not matter. */
  lemma SpacesIgnored(before: string, text: string, after: string)
    requires AllSpaces(before) && AllSpaces(after)
    ensures Parse(before + text + after) == Parse(text)
  {
    hide NamedNumber, NumbersIn, Rewrite, DropSpaces, DropLastSpaces, Lower, AllSpaces;
    assert before + text + after == before + (text + after);
    FrontSpaces(before, text + after);
    FrontKeepsEnd(text, after);
    EndSpaces(DropSpaces(text), after);
    assert Trim(before + text + after) == Trim(text) by {
      assert DropSpaces(text) == [] ==> DropLastSpaces([]) == DropLastSpaces(DropSpaces(text));
    }
  }

  // ---- texts that are no topology ----

  lemma NumberThenText(d: string, q: string)
    requires d != [] && AllDigits(d) && EndsBefore(q)
    ensures NumbersIn(d + q) == (if ParseUint(d).Some? then [ParseUint(d).value] else []) + NumbersIn(q)
  {
    hide ParseUint;
    LeadingDigits(d, q);
    assert (d + q)[..|d|] == d && (d + q)[|d|..] == q;
  }

  lemma OneNumber(d: string)
    requires d != [] && AllDigits(d)
    ensures NumbersIn(d) == if ParseUint(d).Some? then [ParseUint(d).value] else []
  {
    hide ParseUint;
    NumberThenText(d, []);
    assert d + [] == d && NumbersIn([]) == [];
  }

  /** Two numbers that are not both in 1..2^32-1 are no topology. */
  lemma CompactZero(a: nat, m: string, b: nat)
    requires m != [] && Quiet(m) && (a == 0 || a >= U32_LIMIT || b == 0 || b >= U32_LIMIT)
    ensures Parse(Digits(a) + m + Digits(b)) == None
  {
    hide ParseUint, NumbersIn, NamedNumber, Digits, Normalized;
    var c, d := Digits(a), Digits(b);
    DigitText(a);
    DigitText(b);
    ParseOfDigits(a);
    ParseOfDigits(b);
    var text := c + m + d;
    QuietShape(c, m, d);
    NormalizedPlain(text);
    Unnamed(text);
    assert text == c + (m + d);
    NumberThenText(c, m + d);
    SkipsText(m, d);
    OneNumber(d);
  }

  lemma ParseOfDigits(n: nat)
    ensures ParseUint(Digits(n)) == if n == 0 || n >= U32_LIMIT then None else Some(n)
  {
    hide Digits, ValueOf;
    DigitsValue(n);
    assert Trim(Digits(n)) == Digits(n);
    FromCharsOfDigits(n);
  }

  lemma QuietShape(c: string, m: string, d: string)
    requires c != [] && AllDigits(c) && Plain(c) && d != [] && AllDigits(d) && Plain(d) && Quiet(m)
    ensures var text := c + m + d;
            Plain(text) && Tight(text) && forall i :: 0 <= i < |text| ==> text[i] != 'r' && text[i] != 'c'
  {
  }

  /** Neither a single number nor three of them are a topology. */
  lemma OneOrThree(a: nat, m: string, b: nat, m': string, c: nat)
    requires m != [] && Quiet(m) && m' != [] && Quiet(m')
    requires 0 < a < U32_LIMIT && 0 < b < U32_LIMIT && 0 < c < U32_LIMIT
    ensures Parse(Digits(a)) == None && Parse(Digits(a) + m + Digits(b) + m' + Digits(c)) == None
  {
    hide ParseUint, NumbersIn, NamedNumber, Digits, Normalized;
    var p, q, s := Digits(a), Digits(b), Digits(c);
    DigitText(a);
    DigitText(b);
    DigitText(c);
    ParseOfDigits(a);
    ParseOfDigits(b);
    ParseOfDigits(c);
    NormalizedPlain(p);
    Unnamed(p);
    OneNumber(p);
    var text := p + m + q + m' + s;
    ThreeShape(p, m, q, m', s);
    NormalizedPlain(text);
    Unnamed(text);
    assert text == p + (m + (q + (m' + s)));
    NumberThenText(p, m + (q + (m' + s)));
    SkipsText(m, q + (m' + s));
    NumberThenText(q, m' + s);
    SkipsText(m', s);
    OneNumber(s);
  }

  lemma ThreeShape(p: string, m: string, q: string, m': string, s: string)
    requires p != [] && AllDigits(p) && Plain(p) && AllDigits(q) && Plain(q) && s != [] && AllDigits(s) && Plain(s)
    requires Quiet(m) && Quiet(m')
    ensures var text := p + m + q + m' + s;
            Plain(text) && Tight(text) && forall i :: 0 <= i < |text| ==> text[i] != 'r' && text[i] != 'c'
  {
  }

  /** What the printer writes. */
  lemma Printed(t: Topology)
    ensures t.rows == 0 || t.columns == 0 ==> Format(t) == "unknown"
    ensures t.rows != 0 && t.columns != 0 ==>
              Format(t) == Digits(t.rows) + (" rows x " + (Digits(t.columns) +
                           (" columns (" + (Digits(t.rows as int * t.columns) + " compute tiles)"))))
  {
    hide Digits;
    if t.Valid() {
      var r, c, n := Digits(t.rows), Digits(t.columns), Digits(t.rows as int * t.columns);
      assert r + " rows x " + c + " columns (" + n + " compute tiles)" ==
             r + (" rows x " + (c + (" columns (" + (n + " compute tiles)"))));
    }
  }
}
