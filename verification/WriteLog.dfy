/** Memory as the outcome of a sequence of writes: what a loop leaves when its stores may fall on one another. */
module WriteLog {

  datatype Write<T> = Write(at: nat, value: T)

  /** Memory after the writes, in order; the last write to an element stays. */
  function Apply<T>(mem: seq<T>, log: seq<Write<T>>): (after: seq<T>)
    ensures |after| == |mem|
  {
    if log == [] then mem
    else
      var n := |log| - 1;
      var before := Apply(mem, log[..n]);
      if log[n].at < |mem| then before[log[n].at := log[n].value] else before
  }

  /** How often element `i` is written. */
  function Writes<T>(log: seq<Write<T>>, i: nat): nat
  {
    if log == [] then 0
    else
      var n := |log| - 1;
      Writes(log[..n], i) + if log[n].at == i then 1 else 0
  }

  lemma NothingApplied<T>(mem: seq<T>, log: seq<Write<T>>)
    ensures Apply(mem, log[..0]) == mem
  {
  }

  lemma ApplyStep<T>(mem: seq<T>, log: seq<Write<T>>, n: nat)
    requires n < |log| && log[n].at < |mem|
    ensures Apply(mem, log[..n + 1]) == Apply(mem, log[..n])[log[n].at := log[n].value]
  {
    assert log[..n + 1][..n] == log[..n];
  }

  /** An element that no write is for keeps its value. */
  lemma {:induction false} Unwritten<T>(mem: seq<T>, log: seq<Write<T>>, i: nat)
    requires forall k :: 0 <= k < |log| ==> log[k].at != i
    ensures Writes(log, i) == 0 && (i < |mem| ==> Apply(mem, log)[i] == mem[i])
  {
    if log != [] {
      var n := |log| - 1;
      assert log[n].at != i;
      Unwritten(mem, log[..n], i);
    }
  }

  /** An element has the value of the last write to it. */
  lemma {:induction false} LastWrite<T>(mem: seq<T>, log: seq<Write<T>>, k: nat)
    requires k < |log| && log[k].at < |mem|
    requires forall q :: k < q < |log| ==> log[q].at != log[k].at
    ensures Apply(mem, log)[log[k].at] == log[k].value
  {
    var n := |log| - 1;
    if k < n {
      LastWrite(mem, log[..n], k);
    }
  }

  lemma {:induction false} WrittenOnce<T>(log: seq<Write<T>>, k: nat)
    requires k < |log| && forall q :: 0 <= q < |log| && q != k ==> log[q].at != log[k].at
    ensures Writes(log, log[k].at) == 1
  {
    var n := |log| - 1;
    if k < n {
      assert log[n].at != log[k].at;
      WrittenOnce(log[..n], k);
    } else {
      Unwritten([], log[..n], log[k].at);
    }
  }

  lemma {:induction false} WrittenAtLeast<T>(log: seq<Write<T>>, k: nat)
    requires k < |log|
    ensures Writes(log, log[k].at) >= 1
  {
    var n := |log| - 1;
    if k < n {
      WrittenAtLeast(log[..n], k);
    }
  }

  lemma {:induction false} WrittenTwice<T>(log: seq<Write<T>>, j: nat, k: nat)
    requires j < k < |log| && log[j].at == log[k].at
    ensures Writes(log, log[k].at) >= 2
  {
    var n := |log| - 1;
    if k < n {
      WrittenTwice(log[..n], j, k);
    } else {
      WrittenAtLeast(log[..n], j);
    }
  }
}
