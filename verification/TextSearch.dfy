/** `std::string::find`: the first occurrence of a text in another. */
module TextSearch {
  import opened Words

  /** What follows the first occurrence of `needle`. */
  function AfterFirst(t: string, needle: string): Option<string>
  {
    if needle <= t then Some(t[|needle|..])
    else if t == [] then None
    else AfterFirst(t[1..], needle)
  }

  /** `needle` stands at `at`. */
  predicate Occurs(t: string, needle: string, at: nat) { at + |needle| <= |t| && t[at..at + |needle|] == needle }

  /** A text is found exactly when it occurs, and what follows is behind its first occurrence. */
  lemma {:induction false} FirstOccurrence(t: string, needle: string) returns (at: nat)
    ensures AfterFirst(t, needle).Some? ==>
              Occurs(t, needle, at) && AfterFirst(t, needle) == Some(t[at + |needle|..]) &&
              forall i :: 0 <= i < at ==> !Occurs(t, needle, i)
    ensures AfterFirst(t, needle).None? ==> forall i :: 0 <= i <= |t| ==> !Occurs(t, needle, i)
  {
    at := 0;
    if needle <= t {
      assert t[0..|needle|] == needle;
    } else if t != [] {
      var u := t[1..];
      at := FirstOccurrence(u, needle);
      at := at + 1;
      assert !Occurs(t, needle, 0);
      forall i | 1 <= i <= |t|
        ensures Occurs(t, needle, i) <==> Occurs(u, needle, i - 1)
      {
        assert i + |needle| <= |t| ==> t[i..i + |needle|] == u[i - 1..i - 1 + |needle|];
      }
      assert AfterFirst(t, needle).Some? ==> t[at + |needle|..] == u[at - 1 + |needle|..];
    }
  }

  lemma AfterFirstStep(t: string, needle: string, pos: nat)
    requires pos < |t| && !(needle <= t[pos..])
    ensures AfterFirst(t[pos..], needle) == AfterFirst(t[pos + 1..], needle)
  {
  }

  /** `std::string_view::find`. */
  method Find(t: string, needle: string) returns (at: Option<nat>)
    ensures at.None? <==> AfterFirst(t, needle).None?
    ensures at.Some? ==> at.value + |needle| <= |t| && t[at.value + |needle|..] == AfterFirst(t, needle).value
  {
    var pos := 0;
    assert t[0..] == t;
    while pos < |t|
      invariant pos <= |t| && AfterFirst(t, needle) == AfterFirst(t[pos..], needle)
    {
      if needle <= t[pos..] {
        assert t[pos..][|needle|..] == t[pos + |needle|..];
        return Some(pos);
      }
      AfterFirstStep(t, needle, pos);
      pos := pos + 1;
    }
    at := if needle == [] then Some(|t|) else None;
  }

  /** A stretch without the first character of the text sought is passed over. */
  lemma {:induction false} AfterFirstSkip(a: string, b: string, needle: string)
    requires needle != [] && forall i :: 0 <= i < |a| ==> a[i] != needle[0]
    ensures AfterFirst(a + b, needle) == AfterFirst(b, needle)
    decreases |a|
  {
    if a == [] {
      assert a + b == b;
    } else {
      assert (a + b)[0] == a[0] && (a + b)[1..] == a[1..] + b;
      AfterFirstSkip(a[1..], b, needle);
    }
  }

  lemma AfterFirstHere(needle: string, b: string)
    ensures AfterFirst(needle + b, needle) == Some(b)
  {
  }

  /** Nothing is found in a text without the first character. */
  lemma AfterFirstAbsent(a: string, needle: string)
    requires needle != [] && forall i :: 0 <= i < |a| ==> a[i] != needle[0]
    ensures AfterFirst(a, needle) == None
  {
    AfterFirstSkip(a, [], needle);
    assert a + [] == a;
  }
}
