/** Topology text: the tolerant parser, the printer, and which texts come back as which array.

  Texts are bytes; the multiplication sign is its two UTF-8 bytes.  Character classes are those of the C
  locale. */
module Topology {
  import opened Words
  import opened TextSearch
  import opened Decimal

  datatype Topology = Topology(rows: u32, columns: u32)
  {
    predicate Valid() { rows != 0 && columns != 0 }
  }

  predicate IsSpace(c: char) { c == ' ' || '\t' <= c <= '\r' }

  const SIGN := "\U{00C3}\U{0097}"

  // ---- normalising ----

  function DropSpaces(t: string): (r: string)
    ensures |r| <= |t|
  {
    if t != [] && IsSpace(t[0]) then DropSpaces(t[1..]) else t
  }

  function DropLastSpaces(t: string): (r: string)
    ensures |r| <= |t|
  {
    if t != [] && IsSpace(t[|t| - 1]) then DropLastSpaces(t[..|t| - 1]) else t
  }

  function Trim(t: string): string { DropLastSpaces(DropSpaces(t)) }

  function LowerChar(c: char): char { if 'A' <= c <= 'Z' then (c as int + 32) as char else c }

  function Lower(t: string): (r: string)
    ensures |r| == |t|
  {
    seq(|t|, i requires 0 <= i < |t| => LowerChar(t[i]))
  }

  /** Every multiplication sign becomes an `x`. */
  function Rewrite(t: string): string
  {
    if SIGN <= t then ['x'] + Rewrite(t[2..])
    else if t == [] then []
    else [t[0]] + Rewrite(t[1..])
  }

  function Normalized(t: string): string { Rewrite(Lower(Trim(t))) }

  // ---- numbers ----

  function ParseUint(t: string): Option<u32>
  {
    var clean := Trim(t);
    if FromChars(clean) == Some(0) then None else FromChars(clean)
  }

  /** How many digits the text begins with. */
  function Leading(t: string): (n: nat)
    ensures n <= |t|
  {
    if t != [] && IsDigit(t[0]) then 1 + Leading(t[1..]) else 0
  }

  /** Where the digits that end the text begin. */
  function Trailing(t: string): (n: nat)
    ensures n <= |t|
  {
    if t != [] && IsDigit(t[|t| - 1]) then Trailing(t[..|t| - 1]) else |t|
  }

  function DropSeparators(t: string): string
  {
    if t != [] && (IsSpace(t[0]) || t[0] == '=' || t[0] == ':') then DropSeparators(t[1..]) else t
  }

  function NumberAfter(t: string): Option<u32>
  {
    var rest := DropSeparators(t);
    var n := Leading(rest);
    if n == 0 then None else ParseUint(rest[..n])
  }

  function NumberBefore(t: string): Option<u32>
  {
    var rest := DropLastSpaces(t);
    var n := Trailing(rest);
    if n == |rest| then None else ParseUint(rest[n..])
  }

  /** What stands before the first occurrence, when `after` stands behind it. */
  function Before(t: string, name: string, after: string): string
  {
    if |after| + |name| <= |t| then t[..|t| - |after| - |name|] else t
  }

  function NamedNumber(t: string, name: string): Option<u32>
  {
    var after := AfterFirst(t, name);
    if after.None? then None
    else if NumberAfter(after.value).Some? then NumberAfter(after.value)
    else NumberBefore(Before(t, name, after.value))
  }

  function NumbersIn(t: string): seq<u32>
    decreases |t|
  {
    if t == [] then []
    else
      var n := Leading(t);
      if n == 0 then NumbersIn(t[1..])
      else
        var v := ParseUint(t[..n]);
        (if v.Some? then [v.value] else []) + NumbersIn(t[n..])
  }

  // ---- the parser and the printer ----

  function Parse(text: string): Option<Topology>
  {
    var t := Normalized(text);
    var rows, columns, short := NamedNumber(t, "rows"), NamedNumber(t, "columns"), NamedNumber(t, "cols");
    if rows.Some? && columns.Some? then Some(Topology(rows.value, columns.value))
    else if rows.Some? && short.Some? then Some(Topology(rows.value, short.value))
    else
      var values := NumbersIn(t);
      if |values| == 2 then Some(Topology(values[0], values[1])) else None
  }

  function Format(t: Topology): string
  {
    if !t.Valid() then "unknown"
    else
      Digits(t.rows) + " rows x " + Digits(t.columns) +
      " columns (" + Digits(t.rows as int * t.columns) + " compute tiles)"
  }

  // ---- the source's loops ----

  lemma DropLast(t: string, first: nat, last: nat)
    requires first < last <= |t|
    ensures t[first..last][..|t[first..last]| - 1] == t[first..last - 1]
    ensures t[first..last][last - 1 - first] == t[last - 1]
  {
  }

  lemma SplitRun(t: string, start: nat, position: nat)
    requires start <= position <= |t|
    ensures t[start..][..position - start] == t[start..position] && t[start..][position - start..] == t[position..]
  {
  }

  method TrimSpaces(t: string) returns (r: string)
    ensures r == Trim(t)
  {
    var first := 0;
    assert t[0..] == t;
    while first < |t| && IsSpace(t[first])
      invariant first <= |t| && DropSpaces(t) == DropSpaces(t[first..])
    {
      assert t[first..][1..] == t[first + 1..];
      first := first + 1;
    }
    var last := |t|;
    assert t[first..last] == t[first..];
    while last > first && IsSpace(t[last - 1])
      invariant first <= last <= |t| && Trim(t) == DropLastSpaces(t[first..last])
    {
      DropLast(t, first, last);
      last := last - 1;
    }
    r := t[first..last];
  }

  method Lowercase(t: string) returns (r: string)
    ensures r == Lower(t)
  {
    r := [];
    for i := 0 to |t|
      invariant r == Lower(t)[..i]
    {
      r := r + [LowerChar(t[i])];
    }
  }

  lemma RewriteStep(t: string)
    requires t != []
    ensures Rewrite(t) == if SIGN <= t then ['x'] + Rewrite(t[2..]) else [t[0]] + Rewrite(t[1..])
  {
  }

  lemma RewriteAt(r: string, position: nat)
    requires position < |r|
    ensures Rewrite(r[position..]) ==
            if position + 1 < |r| && r[position] == SIGN[0] && r[position + 1] == SIGN[1]
            then ['x'] + Rewrite(r[position + 2..])
            else [r[position]] + Rewrite(r[position + 1..])
  {
  }

  lemma Replaced(r: string, position: nat)
    requires position + 1 < |r|
    ensures var n := r[..position] + "x" + r[position + 2..];
            n[..position + 1] == r[..position] + ['x'] && n[position + 1..] == r[position + 2..]
  {
  }

  /** The in-place replacement of multiplication signs. */
  method ReplaceSigns(t: string) returns (r: string)
    ensures r == Rewrite(t)
  {
    hide Rewrite;
    r := t;
    var position := 0;
    while position + 1 < |r|
      invariant position <= |r|
      invariant Rewrite(t) == r[..position] + Rewrite(r[position..])
      decreases |r| - position
    {
      RewriteAt(r, position);
      if r[position] == SIGN[0] && r[position + 1] == SIGN[1] {
        Replaced(r, position);
        r := r[..position] + "x" + r[position + 2..];
      } else {
        assert r[..position + 1] == r[..position] + [r[position]];
      }
      position := position + 1;
    }
    LastOne(r, position);
  }

  /** A sign needs two bytes. */
  lemma LastOne(r: string, position: nat)
    requires |r| - 1 <= position <= |r|
    ensures Rewrite(r[position..]) == r[position..] && r[..position] + r[position..] == r
  {
  }

  method ScanUint(t: string) returns (v: Option<u32>)
    ensures v == ParseUint(t)
  {
    var clean := TrimSpaces(t);
    v := FromChars(clean);
    if v == Some(0) {
      v := None;
    }
  }

  /** The digit loop shared by the scanners. */
  method PassDigits(t: string, start: nat) returns (position: nat)
    requires start <= |t|
    ensures position == start + Leading(t[start..])
  {
    position := start;
    while position < |t| && IsDigit(t[position])
      invariant start <= position <= |t| && Leading(t[start..]) == position - start + Leading(t[position..])
    {
      assert t[position..][1..] == t[position + 1..];
      position := position + 1;
    }
  }

  method ScanNumberAfter(t: string, from: nat) returns (v: Option<u32>)
    requires from <= |t|
    ensures v == NumberAfter(t[from..])
  {
    var position := from;
    while position < |t| && (IsSpace(t[position]) || t[position] == '=' || t[position] == ':')
      invariant from <= position <= |t| && DropSeparators(t[from..]) == DropSeparators(t[position..])
    {
      assert t[position..][1..] == t[position + 1..];
      position := position + 1;
    }
    var start := position;
    position := PassDigits(t, start);
    if start == position {
      return None;
    }
    assert t[start..][..position - start] == t[start..position];
    v := ScanUint(t[start..position]);
  }

  lemma DropEnd(t: string, n: nat)
    requires 0 < n <= |t|
    ensures |t[..n]| == n && t[..n][n - 1] == t[n - 1] && t[..n][..n - 1] == t[..n - 1]
  {
  }

  lemma Middle(t: string, from: nat, to: nat)
    requires from <= to <= |t|
    ensures t[..to][from..] == t[from..to]
  {
  }

  method ScanNumberBefore(t: string, to: nat) returns (v: Option<u32>)
    requires to <= |t|
    ensures v == NumberBefore(t[..to])
  {
    hide ParseUint;
    var position := to;
    while position > 0 && IsSpace(t[position - 1])
      invariant 0 <= position <= to && DropLastSpaces(t[..to]) == DropLastSpaces(t[..position])
    {
      DropEnd(t, position);
      position := position - 1;
    }
    var end := position;
    while position > 0 && IsDigit(t[position - 1])
      invariant 0 <= position <= end <= |t| && Trailing(t[..end]) == Trailing(t[..position])
    {
      DropEnd(t, position);
      position := position - 1;
    }
    if position == end {
      return None;
    }
    Middle(t, position, end);
    v := ScanUint(t[position..end]);
  }

  method FindNamedNumber(t: string, name: string) returns (v: Option<u32>)
    ensures v == NamedNumber(t, name)
  {
    var position := Find(t, name);
    if position.None? {
      return None;
    }
    v := ScanNumberAfter(t, position.value + |name|);
    if v.None? {
      v := ScanNumberBefore(t, position.value);
    }
  }

  /** One turn over a text: a character that is no digit is dropped, a run of digits is taken off. */
  lemma NumbersStep(t: string)
    requires t != []
    ensures !IsDigit(t[0]) ==> NumbersIn(t) == NumbersIn(t[1..])
    ensures IsDigit(t[0]) ==>
              var v := ParseUint(t[..Leading(t)]);
              Leading(t) > 0 && NumbersIn(t) == (if v.Some? then [v.value] else []) + NumbersIn(t[Leading(t)..])
  {
  }

  method FindNumbers(t: string) returns (numbers: seq<u32>)
    ensures numbers == NumbersIn(t)
  {
    hide ParseUint, Leading, NumbersIn;
    numbers := [];
    var position := 0;
    assert t[0..] == t;
    while position < |t|
      invariant position <= |t| && NumbersIn(t) == numbers + NumbersIn(t[position..])
    {
      NumbersStep(t[position..]);
      if !IsDigit(t[position]) {
        SplitRun(t, position, position + 1);
        position := position + 1;
      } else {
        var start := position;
        position := PassDigits(t, start);
        SplitRun(t, start, position);
        var v := ScanUint(t[start..position]);
        if v.Some? {
          numbers := numbers + [v.value];
        }
      }
    }
    NoNumbersLeft(t[position..]);
  }

  lemma NoNumbersLeft(t: string)
    requires t == []
    ensures NumbersIn(t) == []
  {
  }

  method ParseTopology(text: string) returns (r: Option<Topology>)
    ensures r == Parse(text)
  {
    hide NamedNumber, NumbersIn, Rewrite, Lower, Trim;
    var normalized := TrimSpaces(text);
    normalized := Lowercase(normalized);
    normalized := ReplaceSigns(normalized);
    var rows := FindNamedNumber(normalized, "rows");
    var columns := FindNamedNumber(normalized, "columns");
    if rows.Some? && columns.Some? {
      return Some(Topology(rows.value, columns.value));
    }
    var short := FindNamedNumber(normalized, "cols");
    if rows.Some? && short.Some? {
      return Some(Topology(rows.value, short.value));
    }
    var values := FindNumbers(normalized);
    if |values| == 2 {
      return Some(Topology(values[0], values[1]));
    }
    return None;
  }
}
