/** The hand-written JSON scanner of the Gate-1 validator: key search, string and object extraction.

  The functions here work on the rest of the text; the methods are the source's loops over positions and
  are proved to find exactly that rest. */
module JsonScan {
  import opened Words
  import opened TextSearch

  const QUOTE := '\"'
  const BACKSLASH := '\\'

  predicate IsBlank(c: char) { c == ' ' || c == '\n' || c == '\r' || c == '\t' }

  // ---- key search ----

  function SkipBlanks(t: string): string
  {
    if t != [] && IsBlank(t[0]) then SkipBlanks(t[1..]) else t
  }

  function Quoted(key: string): string { [QUOTE] + key + [QUOTE] }

  /** The text from the value of `key` on, as `json_value_start` locates it. */
  function ValueText(t: string, key: string): Option<string>
  {
    var after := AfterFirst(t, Quoted(key));
    if after.None? then None
    else
      var rest := SkipBlanks(after.value);
      if rest == [] || rest[0] != ':' then None else Some(SkipBlanks(rest[1..]))
  }

  lemma SkipBlanksStep(t: string, pos: nat)
    requires pos < |t| && IsBlank(t[pos])
    ensures SkipBlanks(t[pos..]) == SkipBlanks(t[pos + 1..])
  {
  }

  method SkipBlanksFrom(t: string, start: nat) returns (pos: nat)
    requires start <= |t|
    ensures start <= pos <= |t| && t[pos..] == SkipBlanks(t[start..])
  {
    pos := start;
    while pos < |t| && IsBlank(t[pos])
      invariant start <= pos <= |t| && SkipBlanks(t[pos..]) == SkipBlanks(t[start..])
    {
      SkipBlanksStep(t, pos);
      pos := pos + 1;
    }
  }

  method JsonValueStart(t: string, key: string) returns (start: Option<nat>)
    ensures start.None? <==> ValueText(t, key).None?
    ensures start.Some? ==> start.value <= |t| && t[start.value..] == ValueText(t, key).value
  {
    var needle := [QUOTE] + key + [QUOTE];
    var at := Find(t, needle);
    if at.None? {
      return None;
    }
    var pos := SkipBlanksFrom(t, at.value + |needle|);
    if pos >= |t| || t[pos] != ':' {
      return None;
    }
    assert t[pos..][1..] == t[pos + 1..];
    pos := SkipBlanksFrom(t, pos + 1);
    return Some(pos);
  }

  // ---- strings ----

  /** What the character after a backslash stands for; `\u` is not interpreted. */
  function Unescaped(c: char): char
  {
    match c
    case 'b' => '\U{0008}'
    case 'f' => '\U{000C}'
    case 'n' => '\n'
    case 'r' => '\r'
    case 't' => '\t'
    case _ => c
  }

  function Prepend(c: char, s: Option<string>): Option<string>
  {
    if s.None? then None else Some([c] + s.value)
  }

  /** The string literal whose opening quote has just been passed.  With `raw` an escaped character stands
    for itself, as in the array scanner. */
  function ReadString(t: string, escaped: bool, raw: bool): Option<string>
  {
    if t == [] then None
    else if escaped then Prepend(if raw then t[0] else Unescaped(t[0]), ReadString(t[1..], false, raw))
    else if t[0] == BACKSLASH then ReadString(t[1..], true, raw)
    else if t[0] == QUOTE then Some([])
    else Prepend(t[0], ReadString(t[1..], false, raw))
  }

  function StringAt(t: string, key: string): Option<string>
  {
    var v := ValueText(t, key);
    if v.None? || v.value == [] || v.value[0] != QUOTE then None else ReadString(v.value[1..], false, false)
  }

  function Joined(s: string, rest: Option<string>): Option<string>
  {
    if rest.None? then None else Some(s + rest.value)
  }

  lemma JoinedPrepend(s: string, c: char, rest: Option<string>)
    ensures Joined(s, Prepend(c, rest)) == Joined(s + [c], rest)
    ensures Joined(s, Some([])) == Some(s)
    ensures Joined([], rest) == rest
  {
    assert s + [] == s;
    if rest.Some? {
      assert [] + rest.value == rest.value;
      assert s + ([c] + rest.value) == s + [c] + rest.value;
    }
  }

  /** The scanning loop shared by `json_string` and `json_first_array_string`. */
  method ScanString(t: string, start: nat, raw: bool) returns (r: Option<string>)
    requires start <= |t|
    ensures r == ReadString(t[start..], false, raw)
  {
    var value := [];
    var escaped := false;
    var pos := start;
    JoinedPrepend([], QUOTE, ReadString(t[start..], false, raw));
    while pos < |t|
      invariant start <= pos <= |t|
      invariant ReadString(t[start..], false, raw) == Joined(value, ReadString(t[pos..], escaped, raw))
    {
      var c := t[pos];
      assert t[pos..][1..] == t[pos + 1..];
      JoinedPrepend(value, c, ReadString(t[pos + 1..], false, raw));
      JoinedPrepend(value, Unescaped(c), ReadString(t[pos + 1..], false, raw));
      if escaped {
        value := value + [if raw then c else Unescaped(c)];
        escaped := false;
      } else if c == BACKSLASH {
        escaped := true;
      } else if c == QUOTE {
        return Some(value);
      } else {
        value := value + [c];
      }
      pos := pos + 1;
    }
    return None;
  }

  method JsonString(t: string, key: string) returns (r: Option<string>)
    ensures r == StringAt(t, key)
  {
    var start := JsonValueStart(t, key);
    if start.None? || start.value >= |t| || t[start.value] != QUOTE {
      return None;
    }
    assert t[start.value..][1..] == t[start.value + 1..];
    r := ScanString(t, start.value + 1, false);
  }

  function FirstArrayStringAt(t: string, key: string): Option<string>
  {
    var v := ValueText(t, key);
    if v.None? || v.value == [] || v.value[0] != '[' then None
    else
      var after := AfterFirst(v.value[1..], [QUOTE]);
      if after.None? then None else ReadString(after.value, false, true)
  }

  method JsonFirstArrayString(t: string, key: string) returns (r: Option<string>)
    ensures r == FirstArrayStringAt(t, key)
  {
    var start := JsonValueStart(t, key);
    if start.None? || start.value >= |t| || t[start.value] != '[' {
      return None;
    }
    assert t[start.value..][1..] == t[start.value + 1..];
    var rest := t[start.value + 1..];
    var quote := Find(rest, [QUOTE]);
    if quote.None? {
      return None;
    }
    r := ScanString(rest, quote.value + 1, true);
  }

  // ---- objects ----

  datatype Scan = Scan(depth: int, inString: bool, escaped: bool)

  function Step(s: Scan, c: char): Scan
  {
    if s.inString then
      if s.escaped then s.(escaped := false)
      else if c == BACKSLASH then s.(escaped := true)
      else if c == QUOTE then s.(inString := false)
      else s
    else if c == QUOTE then s.(inString := true)
    else if c == '{' then s.(depth := s.depth + 1)
    else if c == '}' then s.(depth := s.depth - 1)
    else s
  }

  /** The state after a whole text. */
  function ScanAll(s: Scan, t: string): Scan
    decreases |t|
  {
    if t == [] then s else ScanAll(Step(s, t[0]), t[1..])
  }

  /** How many characters the loop consumes until a closing brace brings the depth to zero. */
  function CloseAt(t: string, s: Scan): Option<nat>
  {
    if t == [] then None
    else
      var s' := Step(s, t[0]);
      if !s.inString && t[0] == '}' && s'.depth == 0 then Some(1)
      else
        var n := CloseAt(t[1..], s');
        if n.None? then None else Some(n.value + 1)
  }

  const OUTSIDE := Scan(0, false, false)

  function ObjectAt(t: string, key: string): Option<string>
  {
    var v := ValueText(t, key);
    if v.None? || v.value == [] || v.value[0] != '{' then None
    else
      var n := CloseAt(v.value, OUTSIDE);
      if n.None? then None else CloseBound(v.value, OUTSIDE); Some(v.value[..n.value])
  }

  lemma {:induction false} CloseBound(t: string, s: Scan)
    ensures var n := CloseAt(t, s); n.Some? ==> 1 <= n.value <= |t|
  {
    if t != [] {
      CloseBound(t[1..], Step(s, t[0]));
    }
  }

  method JsonObject(t: string, key: string) returns (r: Option<string>)
    ensures r == ObjectAt(t, key)
  {
    var start := JsonValueStart(t, key);
    if start.None? || start.value >= |t| || t[start.value] != '{' {
      return None;
    }
    var end := ScanObject(t, start.value);
    ghost var v := t[start.value..];
    CloseBound(v, OUTSIDE);
    if end.None? {
      return None;
    }
    assert t[start.value..end.value] == v[..end.value - start.value];
    return Some(t[start.value..end.value]);
  }

  /** The depth-counting loop: where the object that opens at `start` ends. */
  method ScanObject(t: string, start: nat) returns (end: Option<nat>)
    requires start < |t| && t[start] == '{'
    ensures end == Shifted(CloseAt(t[start..], OUTSIDE), start)
  {
    hide CloseAt;
    var depth := 0;
    var inString := false;
    var escaped := false;
    var pos := start;
    while pos < |t|
      invariant start <= pos <= |t|
      invariant pos == start ==> depth == 0 && !inString && !escaped
      invariant pos > start ==> depth >= 1
      invariant Shifted(CloseAt(t[start..], OUTSIDE), start) ==
                Shifted(CloseAt(t[pos..], Scan(depth, inString, escaped)), pos)
    {
      var c := t[pos];
      CloseStep(t, pos, Scan(depth, inString, escaped));
      if inString {
        if escaped {
          escaped := false;
        } else if c == BACKSLASH {
          escaped := true;
        } else if c == QUOTE {
          inString := false;
        }
      } else if c == QUOTE {
        inString := true;
      } else if c == '{' {
        depth := depth + 1;
      } else if c == '}' {
        // The unsigned depth is never zero here.
        assert depth >= 1;
        depth := depth - 1;
        if depth == 0 {
          return Some(pos + 1);
        }
      }
      pos := pos + 1;
    }
    CloseNothing(t[pos..], Scan(depth, inString, escaped));
    return None;
  }

  function Shifted(n: Option<nat>, offset: nat): Option<nat>
  {
    if n.None? then None else Some(n.value + offset)
  }

  lemma CloseStep(t: string, pos: nat, s: Scan)
    requires pos < |t|
    ensures CloseAt(t[pos..], s) ==
            if !s.inString && t[pos] == '}' && s.depth == 1 then Some(1)
            else Shifted(CloseAt(t[pos + 1..], Step(s, t[pos])), 1)
  {
  }

  lemma CloseNothing(t: string, s: Scan)
    requires t == []
    ensures CloseAt(t, s) == None
  {
  }

  lemma ScanSnoc(s: Scan, t: string, n: nat)
    requires n < |t|
    ensures ScanAll(s, t[..n + 1]) == ScanAll(Step(s, t[0]), t[1..][..n])
    ensures n == 0 ==> ScanAll(s, t[..0]) == s
  {
    assert t[..n + 1][1..] == t[1..][..n];
  }

  /** `json_object` stops at the shortest non-empty prefix whose braces outside string literals balance, and
    gives up only when no prefix balances. */
  lemma ShortestBalanced(t: string)
    requires t != [] && t[0] == '{'
    ensures var n := CloseAt(t, OUTSIDE);
            (forall k :: 1 <= k <= |t| && (n.None? || k < n.value) ==> ScanAll(OUTSIDE, t[..k]).depth >= 1) &&
            (n.Some? ==> 1 <= n.value <= |t| && ScanAll(OUTSIDE, t[..n.value]).depth == 0)
  {
    CloseAtIsFirstZero(t[1..], Scan(1, false, false));
    CloseBound(t, OUTSIDE);
    forall k | 1 <= k <= |t|
      ensures ScanAll(OUTSIDE, t[..k]) == ScanAll(Scan(1, false, false), t[1..][..k - 1])
    {
      ScanSnoc(OUTSIDE, t, k - 1);
    }
  }

  lemma {:induction false} CloseAtIsFirstZero(t: string, s: Scan)
    requires s.depth >= 1
    ensures var n := CloseAt(t, s);
            (forall k :: 0 <= k <= |t| && (n.None? || k < n.value) ==> ScanAll(s, t[..k]).depth >= 1) &&
            (n.Some? ==> 1 <= n.value <= |t| && ScanAll(s, t[..n.value]).depth == 0)
  {
    CloseBound(t, s);
    if t != [] {
      var s' := Step(s, t[0]);
      forall k | 1 <= k <= |t|
        ensures ScanAll(s, t[..k]) == ScanAll(s', t[1..][..k - 1])
      {
        ScanSnoc(s, t, k - 1);
      }
      if s'.depth >= 1 {
        CloseAtIsFirstZero(t[1..], s');
      }
    }
  }
}
