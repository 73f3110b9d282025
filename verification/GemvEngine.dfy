/** The XDNA engine's state: a scratch buffer that is reused between calls and the counters of a token
  profile.  Neither leaks into a result. */
module GemvEngine {
  import opened Words
  import opened Q4Reference
  import opened SimdGemv

  /** A product depends on no more of the activations than the values it multiplies. */
  lemma {:induction false} FoldPrefix(ops: FloatOps<real>, w: seq<real>, x: seq<real>, y: seq<real>, n: nat)
    requires n <= |w| && n <= |x| && n <= |y| && forall i :: 0 <= i < n ==> x[i] == y[i]
    ensures Fold(ops, w, x, n) == Fold(ops, w, y, n)
  {
    if n != 0 {
      FoldPrefix(ops, w, x, y, n - 1);
    }
  }

  lemma ProductPrefix(ops: FloatOps<real>, data: seq<byte>, rows: nat, values: nat, x: seq<real>, y: seq<real>)
    requires rows * RowBytes(values) <= |data| && values % 32 == 0 && values <= |x| && values <= |y|
    requires forall i :: 0 <= i < values ==> x[i] == y[i]
    ensures GemvSpec(ops, data, rows, values, x) == GemvSpec(ops, data, rows, values, y)
  {
    hide DequantizedRow, Fold, RowBytes;
    forall r | 0 <= r < rows
      ensures GemvEntry(ops, data, rows, values, x, r) == GemvEntry(ops, data, rows, values, y, r)
    {
      RowInMatrix(data, rows, values, r);
      FoldPrefix(ops, DequantizedRow(ops, data, r * RowBytes(values), values), x, y, values);
    }
  }

  // ---- calls and what they should answer ----

  /** The engine's entry points. */
  datatype Call =
    | StartProfile
    | EndProfile
    | RunF32(weights: seq<byte>, rows: nat, values: nat, x: seq<real>)
    | RunHalf(weights: seq<byte>, rows: nat, values: nat, bits: seq<u16>)

  predicate IsRun(c: Call) { c.RunF32? || c.RunHalf? }

  /** The activation pointer covers what a run reads. */
  predicate Supplied(c: Call)
  {
    match c
    case RunF32(_, _, values, x) => Whole(values) <= |x|
    case RunHalf(_, _, values, bits) => values <= |bits|
    case _ => true
  }

  /** The bytes of a run's matrix. */
  function Needed(c: Call): nat
    requires IsRun(c)
  {
    c.rows * RowBytes(c.values)
  }

  function RunVerdict(c: Call): Verdict
    requires IsRun(c)
  {
    VerdictOn(|c.weights|, Needed(c))
  }

  lemma WholeBytes(c: Call)
    requires IsRun(c)
    ensures c.rows * RowBytes(Whole(c.values)) == Needed(c)
  {
  }

  /** What comes back from a call.  Undefined: the run reads outside the weight buffer. */
  datatype Reply = Nothing | Thrown | Undefined | Result(y: seq<real>)

  /** What a call answers, from its arguments alone. */
  ghost function Answer(ops: FloatOps<real>, c: Call): Reply
    requires Supplied(c)
  {
    if !IsRun(c) then Nothing
    else
      WholeBytes(c);
      match RunVerdict(c)
      case Refusal => Thrown
      case Overrun => Undefined
      case Product =>
        Result(GemvSpec(ops, c.weights, c.rows, Whole(c.values),
                        if c.RunF32? then c.x else Converted(c.bits[..c.values], ops.ofBf16)))
  }

  lemma CountOne(d: u64)
    ensures (2 * d % U64_LIMIT + 2) % U64_LIMIT == 2 * ((d + 1) % U64_LIMIT) % U64_LIMIT
  {
  }

  lemma TakeDrop<T>(s: seq<T>, a: seq<T>, b: seq<T>)
    requires s == a + b
    ensures s[..|a|] == a && s[|a|..] == b
  {
  }

  // ---- the engine ----

  class XdnaGemvEngine {
    const ops: FloatOps<real>
    var persistentActF32: seq<real>
    var dispatches: u64
    var transitions: u64
    var tokenIndex: u64
    var tokenCounter: u64
    var profilingActive: bool

    ghost predicate Valid()
      reads this
    {
      Exact(ops) && transitions == 2 * dispatches % U64_LIMIT
    }

    constructor (ops: FloatOps<real>)
      requires Exact(ops)
      ensures Valid() && this.ops == ops && dispatches == 0 && persistentActF32 == []
    {
      this.ops := ops;
      persistentActF32 := [];
      dispatches, transitions, tokenIndex, tokenCounter, profilingActive := 0, 0, 0, 0, false;
    }

    method StartTokenProfile()
      requires Valid()
      modifies this
      ensures Valid() && dispatches == 0 && profilingActive && persistentActF32 == old(persistentActF32)
      ensures tokenIndex == tokenCounter == (old(tokenCounter) + 1) % U64_LIMIT
    {
      dispatches, transitions := 0, 0;
      tokenCounter := (tokenCounter + 1) % U64_LIMIT;
      tokenIndex := tokenCounter;
      profilingActive := true;
    }

    method EndTokenProfile() returns (numDispatches: u64, numTransitions: u64)
      requires Valid()
      modifies this
      ensures Valid() && !profilingActive && dispatches == old(dispatches) && transitions == old(transitions)
      ensures persistentActF32 == old(persistentActF32) && tokenCounter == old(tokenCounter)
      ensures numDispatches == dispatches && numTransitions == 2 * numDispatches % U64_LIMIT
    {
      profilingActive := false;
      numDispatches, numTransitions := dispatches, transitions;
    }

    /** The counters move before the engine below can throw. */
    method Run(weights: seq<byte>, rows: nat, values: nat, x: seq<real>, output: array<real>) returns (verdict: Verdict)
      requires Valid() && rows <= output.Length && Whole(values) <= |x|
      modifies this, output
      ensures Valid() && dispatches == (old(dispatches) + 1) % U64_LIMIT
      ensures persistentActF32 == old(persistentActF32) && tokenCounter == old(tokenCounter)
      ensures verdict == VerdictOn(|weights|, rows * RowBytes(values))
      ensures verdict == Refusal ==> output[..] == old(output[..])
      ensures verdict == Product ==> output[rows..] == old(output[rows..])
      ensures verdict == Product ==> rows * RowBytes(Whole(values)) <= |weights|
      ensures verdict == Product ==> output[..rows] == GemvSpec(ops, weights, rows, Whole(values), x)
    {
      hide GemvSpec, RowBytes, Whole, Exact;
      CountOne(dispatches);
      dispatches := (dispatches + 1) % U64_LIMIT;
      transitions := (transitions + 2) % U64_LIMIT;
      ghost var before := output[..];
      assert before[rows..] == output[rows..];
      verdict := SimdGemv.Run(ops, weights, rows, values, x, output);
      if verdict == Product {
        ghost var product := GemvSpec(ops, weights, rows, Whole(values), x);
        TakeDrop(output[..], product, before[rows..]);
        assert output[..][..rows] == output[..rows] && output[..][rows..] == output[rows..];
      }
    }

    /** Widening into the reused buffer: it grows when it is too short and keeps its tail when it is not. */
    method Widen(bits: seq<u16>, values: nat)
      requires values <= |bits|
      modifies this`persistentActF32
      ensures |persistentActF32| == if |old(persistentActF32)| < values then values else |old(persistentActF32)|
      ensures forall i :: 0 <= i < values ==> persistentActF32[i] == ops.ofBf16(bits[i])
      ensures forall i :: values <= i < |old(persistentActF32)| ==> persistentActF32[i] == old(persistentActF32)[i]
    {
      if |persistentActF32| < values {
        persistentActF32 := persistentActF32 + seq(values - |persistentActF32|, _ => 0.0);
      }
      ghost var resized := persistentActF32;
      for i := 0 to values
        invariant |persistentActF32| == |resized| >= values
        invariant forall k :: 0 <= k < i ==> persistentActF32[k] == ops.ofBf16(bits[k])
        invariant forall k :: i <= k < |resized| ==> persistentActF32[k] == resized[k]
      {
        persistentActF32 := persistentActF32[i := ops.ofBf16(bits[i])];
      }
    }

    method RunBf16(weights: seq<byte>, rows: nat, values: nat, bits: seq<u16>, output: array<real>)
      returns (verdict: Verdict)
      requires Valid() && rows <= output.Length && values <= |bits|
      modifies this, output
      ensures Valid() && dispatches == (old(dispatches) + 1) % U64_LIMIT && tokenCounter == old(tokenCounter)
      ensures |persistentActF32| >= |old(persistentActF32)|
      ensures verdict == VerdictOn(|weights|, rows * RowBytes(values))
      ensures verdict == Refusal ==> output[..] == old(output[..])
      ensures verdict == Product ==> output[rows..] == old(output[rows..])
      ensures verdict == Product ==> rows * RowBytes(Whole(values)) <= |weights|
      ensures verdict == Product ==>
        output[..rows] == GemvSpec(ops, weights, rows, Whole(values), Converted(bits[..values], ops.ofBf16))
    {
      hide GemvSpec, RowBytes, Exact;
      Widen(bits, values);
      verdict := Run(weights, rows, values, persistentActF32, output);
      if verdict == Product {
        ProductPrefix(ops, weights, rows, Whole(values), persistentActF32, Converted(bits[..values], ops.ofBf16));
      }
    }

    /** One call with an output buffer of its own. */
    method Perform(c: Call) returns (reply: Reply)
      requires Valid() && Supplied(c)
      modifies this
      ensures Valid() && reply == Answer(ops, c)
      ensures dispatches == DispatchesAfter(old(dispatches), c)
      ensures |persistentActF32| >= |old(persistentActF32)|
    {
      hide GemvSpec, RowBytes, Whole, Exact, Refused;
      match c
      case StartProfile =>
        StartTokenProfile();
        reply := Nothing;
      case EndProfile =>
        var d, t := EndTokenProfile();
        reply := Nothing;
      case RunF32(weights, rows, values, x) =>
        var output := new real[rows];
        var verdict := Run(weights, rows, values, x, output);
        assert output[..rows] == output[..];
        reply := ReplyFor(verdict, output[..]);
      case RunHalf(weights, rows, values, bits) =>
        var output := new real[rows];
        var verdict := RunBf16(weights, rows, values, bits, output);
        assert output[..rows] == output[..];
        reply := ReplyFor(verdict, output[..]);
    }

    /** Any sequence of calls, up to the first one that reads outside its buffer: every answer depends on its own
      arguments only, whatever came before and whatever the buffer held to begin with. */
    method Session(calls: seq<Call>) returns (replies: seq<Reply>)
      requires Valid() && forall i :: 0 <= i < |calls| ==> Supplied(calls[i])
      modifies this
      ensures Valid() && |replies| <= |calls|
      ensures forall i :: 0 <= i < |replies| ==> replies[i] == Answer(ops, calls[i])
      ensures forall i :: 0 <= i < |replies| - 1 ==> replies[i] != Undefined
      ensures |replies| < |calls| ==> replies != [] && replies[|replies| - 1] == Undefined
      ensures dispatches == DispatchesOver(old(dispatches), calls[..|replies|])
    {
      hide Answer, Exact, Supplied;
      replies := [];
      for i := 0 to |calls|
        invariant Valid() && |replies| == i
        invariant forall k :: 0 <= k < i ==> replies[k] == Answer(ops, calls[k]) && replies[k] != Undefined
        invariant dispatches == DispatchesOver(old(dispatches), calls[..i])
      {
        var reply := Perform(calls[i]);
        replies := replies + [reply];
        assert calls[..i + 1][..i] == calls[..i];
        if reply == Undefined {
          return;
        }
      }
    }
  }

  function ReplyFor(verdict: Verdict, y: seq<real>): Reply
  {
    match verdict case Refusal => Thrown case Overrun => Undefined case Product => Result(y)
  }

  // ---- the dispatch counter over a session ----

  function DispatchesAfter(d: u64, c: Call): u64
  {
    if c == StartProfile then 0 else if IsRun(c) then (d + 1) % U64_LIMIT else d
  }

  function DispatchesOver(d: u64, calls: seq<Call>): u64
  {
    if calls == [] then d else DispatchesAfter(DispatchesOver(d, calls[..|calls| - 1]), calls[|calls| - 1])
  }

  function Runs(calls: seq<Call>): nat
  {
    if calls == [] then 0 else Runs(calls[..|calls| - 1]) + if IsRun(calls[|calls| - 1]) then 1 else 0
  }

  /** The runs that do not throw. */
  function Completed(calls: seq<Call>): nat
  {
    if calls == [] then 0 else Completed(calls[..|calls| - 1]) + if Completes(calls[|calls| - 1]) then 1 else 0
  }

  predicate Completes(c: Call) { IsRun(c) && RunVerdict(c) != Refusal }

  lemma OneMore(d: u64, calls: seq<Call>, c: Call)
    ensures DispatchesOver(d, calls + [c]) == DispatchesAfter(DispatchesOver(d, calls), c)
    ensures Runs(calls + [c]) == Runs(calls) + if IsRun(c) then 1 else 0
  {
  }

  lemma CountUp(n: nat)
    ensures (n % U64_LIMIT + 1) % U64_LIMIT == (n + 1) % U64_LIMIT
  {
  }

  /** Since the last profile start the counter is the number of runs, thrown ones included, in 64 bits. */
  lemma {:induction false} CountsRuns(d: u64, before: seq<Call>, since: seq<Call>)
    requires StartProfile !in since
    ensures DispatchesOver(d, before + [StartProfile] + since) == Runs(since) % U64_LIMIT
  {
    hide DispatchesOver, Runs;
    var start := before + [StartProfile];
    if since == [] {
      assert start + since == start;
      OneMore(d, before, StartProfile);
      NoRuns();
    } else {
      var n := |since| - 1;
      var rest, last := since[..n], since[n];
      assert last in since && since == rest + [last] && start + since == (start + rest) + [last];
      CountsRuns(d, before, rest);
      OneMore(d, start + rest, last);
      OneMore(d, rest, last);
      CountUp(Runs(rest));
    }
  }

  lemma NoRuns()
    ensures Runs([]) == 0
  {
  }

  lemma {:induction false} RunsThatThrow(calls: seq<Call>)
    ensures Completed(calls) <= Runs(calls)
    ensures Completed(calls) == Runs(calls) <==>
            forall i :: 0 <= i < |calls| && IsRun(calls[i]) ==> Completes(calls[i])
  {
    if calls != [] {
      var n := |calls| - 1;
      RunsThatThrow(calls[..n]);
      if forall i :: 0 <= i < n && IsRun(calls[i]) ==> Completes(calls[i]) {
        assert forall i :: 0 <= i < n ==> calls[..n][i] == calls[i];
      } else {
        var i :| 0 <= i < n && IsRun(calls[i]) && !Completes(calls[i]);
        assert calls[..n][i] == calls[i];
      }
    }
  }

  /** Some run since the profile start was given fewer bytes than its matrix has. */
  predicate SomeShort(calls: seq<Call>)
  {
    exists i :: 0 <= i < |calls| && IsRun(calls[i]) && |calls[i].weights| < Needed(calls[i])
  }

  predicate SomeOverrun(calls: seq<Call>)
  {
    exists i :: 0 <= i < |calls| && IsRun(calls[i]) && RunVerdict(calls[i]) == Overrun
  }

  predicate SomeRefused(calls: seq<Call>)
  {
    exists i :: 0 <= i < |calls| && IsRun(calls[i]) && RunVerdict(calls[i]) == Refusal
  }

  /** The counter is the number of completed runs exactly when no run since the profile start was refused.  That
    this means every weight buffer was large enough is right exactly if a run was refused or none overran, and
    so whenever all matrices are smaller than 2^64 bytes. */
  lemma CountsCompletedIff(d: u64, before: seq<Call>, since: seq<Call>)
    requires StartProfile !in since && Runs(since) < U64_LIMIT
    ensures var exact := DispatchesOver(d, before + [StartProfile] + since) == Completed(since);
            (exact <==> !SomeRefused(since)) &&
            ((exact <==> !SomeShort(since)) <==> SomeRefused(since) || !SomeOverrun(since))
    ensures (forall i :: 0 <= i < |since| && IsRun(since[i]) ==> Needed(since[i]) < U64_LIMIT) ==> !SomeOverrun(since)
  {
    hide Needed;
    CountsRuns(d, before, since);
    RunsThatThrow(since);
    assert SomeRefused(since) <==> exists i :: 0 <= i < |since| && IsRun(since[i]) && !Completes(since[i]);
    forall i | 0 <= i < |since| && IsRun(since[i])
      ensures |since[i].weights| < Needed(since[i]) <==> RunVerdict(since[i]) != Product
      ensures Needed(since[i]) < U64_LIMIT ==> RunVerdict(since[i]) != Overrun
    {
      GuardExactIff(Needed(since[i]));
    }
    assert SomeShort(since) <==> SomeRefused(since) || SomeOverrun(since);
  }
}
