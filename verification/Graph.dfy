/** The backend's graph executor against a model of memory: which buffers hold what after each node.

  Two tensors share data exactly when they share an array; partial overlap is not modelled. */
module Graph {
  import opened Words
  import opened Q4Reference
  import opened SimdGemv
  import opened GemvEngine

  const MUL_MAT := 18
  const F32 := 0
  const Q4_0 := 2

  /** A ggml tensor.  Its data pointer is `blocks` for packed weights and `floats` otherwise. */
  class Tensor {
    const op: nat
    const kind: nat
    const ne0: int
    const ne1: int
    const src0: Tensor?
    const src1: Tensor?
    const blocks: Option<seq<byte>>
    const floats: array?<real>

    constructor (op: nat, kind: nat, ne0: int, ne1: int, src0: Tensor?, src1: Tensor?,
                 blocks: Option<seq<byte>>, floats: array?<real>)
      ensures this.op == op && this.kind == kind && this.ne0 == ne0 && this.ne1 == ne1 && this.src0 == src0
      ensures this.src1 == src1 && this.blocks == blocks && this.floats == floats
    {
      this.op, this.kind, this.ne0, this.ne1 := op, kind, ne0, ne1;
      this.src0, this.src1, this.blocks, this.floats := src0, src1, blocks, floats;
    }
  }

  /** A vector-matrix product of packed weights and floats. */
  predicate IsProduct(t: Tensor)
  {
    && t.op == MUL_MAT && t.src0 != null && t.src1 != null
    && t.src0.kind == Q4_0 && t.src1.kind == F32 && t.src1.ne1 == 1
  }

  /** `%` of the source truncates; a remainder is zero exactly when the Euclidean one is. */
  predicate SupportsOp(t: Tensor?)
  {
    t != null && IsProduct(t) && t.src0.ne0 % 32 == 0 && t.src0.ne1 % 4 == 0
  }

  /** All data pointers of a node are set. */
  predicate HasData(t: Tensor)
    requires t.src0 != null && t.src1 != null
  {
    t.floats != null && t.src0.blocks.Some? && t.src1.floats != null
  }

  /** What `compute_graph` runs; every other node is passed over. */
  predicate Runnable(t: Tensor?)
  {
    t != null && IsProduct(t) && HasData(t)
  }

  /** A supported node is run exactly when its three data pointers are set. */
  lemma SupportedRuns(t: Tensor?)
    requires SupportsOp(t)
    ensures Runnable(t) <==> HasData(t)
  {
  }

  /** Shapes agree with buffers, and the output is not the activations' own buffer. */
  predicate Sound(t: Tensor?)
  {
    Runnable(t) ==>
      && t.src0.ne0 >= 0 && t.src0.ne1 >= 0
      && t.src0.ne1 * RowBytes(t.src0.ne0) <= |t.src0.blocks.value|
      && Whole(t.src0.ne0) <= t.src1.floats.Length && t.src0.ne1 <= t.floats.Length
      && t.floats != t.src1.floats
  }

  // ---- memory ----

  type Memory = map<array<real>, seq<real>>

  ghost predicate Fits(m: Memory) { forall a <- m :: |m[a]| == a.Length }

  ghost predicate Covers(m: Memory, t: Tensor?) { Runnable(t) ==> t.floats in m && t.src1.floats in m }

  ghost predicate GoodGraph(nodes: seq<Tensor?>, m: Memory)
  {
    Fits(m) && forall i :: 0 <= i < |nodes| ==> Sound(nodes[i]) && Covers(m, nodes[i])
  }

  ghost function Snapshot(buffers: set<array<real>>): Memory
    reads buffers
  {
    map a | a in buffers :: a[..]
  }

  /** As many bytes of the weight buffer as the shape asks for. */
  function WeightBytes(t: Tensor): (w: seq<byte>)
    requires Runnable(t) && Sound(t)
    ensures |w| == t.src0.ne1 * RowBytes(t.src0.ne0)
  {
    t.src0.blocks.value[..t.src0.ne1 * RowBytes(t.src0.ne0)]
  }

  /** The reference product a node stands for, on the activations found in memory. */
  ghost function Product(ops: FloatOps<real>, m: Memory, t: Tensor): (y: seq<real>)
    requires Fits(m) && Runnable(t) && Sound(t) && Covers(m, t)
    ensures |y| == t.src0.ne1
  {
    assert RowBytes(Whole(t.src0.ne0)) == RowBytes(t.src0.ne0);
    GemvSpec(ops, WeightBytes(t), t.src0.ne1, Whole(t.src0.ne0), m[t.src1.floats])
  }

  /** Memory after one node: the product overwrites the front of the output buffer. */
  ghost function After(ops: FloatOps<real>, m: Memory, t: Tensor?): (m': Memory)
    requires Fits(m) && Sound(t) && Covers(m, t)
    ensures Fits(m') && m'.Keys == m.Keys
  {
    if !Runnable(t) then m else m[t.floats := Product(ops, m, t) + m[t.floats][t.src0.ne1..]]
  }

  /** Node-by-node composition. */
  ghost function Composed(ops: FloatOps<real>, m: Memory, nodes: seq<Tensor?>): (m': Memory)
    requires GoodGraph(nodes, m)
    ensures Fits(m') && m'.Keys == m.Keys
  {
    if nodes == [] then m
    else
      var n := |nodes| - 1;
      After(ops, Composed(ops, m, nodes[..n]), nodes[n])
  }

  function Products(nodes: seq<Tensor?>): nat
  {
    if nodes == [] then 0 else Products(nodes[..|nodes| - 1]) + if Runnable(nodes[|nodes| - 1]) then 1 else 0
  }

  lemma StillCovers(ops: FloatOps<real>, m: Memory, nodes: seq<Tensor?>, t: Tensor?)
    requires GoodGraph(nodes + [t], m)
    ensures GoodGraph(nodes, m) && Sound(t) && Covers(Composed(ops, m, nodes), t)
  {
    hide Sound, Runnable, After;
    assert (nodes + [t])[|nodes|] == t;
    forall i | 0 <= i < |nodes|
      ensures Sound(nodes[i]) && Covers(m, nodes[i])
    {
      assert (nodes + [t])[i] == nodes[i];
    }
  }

  lemma NextNode(ops: FloatOps<real>, m: Memory, nodes: seq<Tensor?>, i: nat)
    requires GoodGraph(nodes, m) && i < |nodes|
    ensures GoodGraph(nodes[..i], m) && GoodGraph(nodes[..i + 1], m)
    ensures Sound(nodes[i]) && Covers(Composed(ops, m, nodes[..i]), nodes[i])
    ensures Composed(ops, m, nodes[..i + 1]) == After(ops, Composed(ops, m, nodes[..i]), nodes[i])
    ensures Products(nodes[..i + 1]) == Products(nodes[..i]) + if Runnable(nodes[i]) then 1 else 0
  {
    hide Sound, Runnable, After;
    assert nodes[..i + 1] == nodes[..i] + [nodes[i]];
    assert nodes[..i + 1][..i] == nodes[..i];
    var part := nodes[..i + 1];
    forall k | 0 <= k < |part|
      ensures Sound(part[k]) && Covers(m, part[k])
    {
      assert part[k] == nodes[k];
    }
    StillCovers(ops, m, nodes[..i], nodes[i]);
  }

  lemma NoNode(ops: FloatOps<real>, m: Memory, nodes: seq<Tensor?>)
    requires GoodGraph(nodes, m)
    ensures Fits(m) && GoodGraph(nodes[..0], m) && Composed(ops, m, nodes[..0]) == m && Products(nodes[..0]) == 0
  {
  }

  lemma CountDispatch(d: u64, n: nat)
    ensures ((d + n) % U64_LIMIT + 1) % U64_LIMIT == (d + n + 1) % U64_LIMIT
  {
  }

  /** A node that is no product or lacks data changes nothing. */
  lemma PassedOver(ops: FloatOps<real>, m: Memory, t: Tensor?)
    requires Fits(m) && Sound(t) && Covers(m, t) && (t == null || !Runnable(t))
    ensures After(ops, m, t) == m && !Runnable(t)
  {
  }

  // ---- the executor ----

  class XdnaBackend {
    const engine: XdnaGemvEngine

    constructor (engine: XdnaGemvEngine)
      ensures this.engine == engine
    {
      this.engine := engine;
    }

    /** One product node handed to the engine, with the byte count that its shape asks for. */
    method RunNode(t: Tensor, ghost buffers: set<array<real>>)
      requires engine.Valid() && Runnable(t) && Sound(t) && Covers(Snapshot(buffers), t)
      requires engine !in (set b | b in buffers :: b as object)
      modifies engine, buffers
      ensures engine.Valid() && engine.dispatches == (old(engine.dispatches) + 1) % U64_LIMIT
      ensures Snapshot(buffers) == After(engine.ops, old(Snapshot(buffers)), t)
    {
      hide GemvSpec, RowBytes, Whole, Exact;
      var n, k := t.src0.ne1, t.src0.ne0;
      ghost var m := Snapshot(buffers);
      var verdict := engine.Run(WeightBytes(t), n, k, t.src1.floats[..], t.floats);
      assert verdict == SimdGemv.Product;
      assert t.floats[..] == t.floats[..n] + t.floats[n..];
      forall a | a in buffers
        ensures a[..] == After(engine.ops, m, t)[a]
      {
        if a != t.floats {
          assert a[..] == m[a];
        }
      }
    }

    /** `compute_graph`: refuses an empty graph, passes over the nodes that are null, no product or without data, and
      runs the others in order, without asking `supports_op`.  Memory ends as the node-by-node composition of
      reference products. */
    method ComputeGraph(nodes: seq<Tensor?>, ghost buffers: set<array<real>>) returns (ok: bool)
      requires engine.Valid() && GoodGraph(nodes, Snapshot(buffers))
      requires engine !in (set b | b in buffers :: b as object)
      modifies engine, buffers
      ensures engine.Valid() && ok == (nodes != [])
      ensures Snapshot(buffers) == Composed(engine.ops, old(Snapshot(buffers)), nodes)
      ensures engine.dispatches == (old(engine.dispatches) + Products(nodes)) % U64_LIMIT
    {
      hide After, Sound, Runnable, Exact, Composed, Products, GoodGraph, Covers;
      NoNode(engine.ops, Snapshot(buffers), nodes);
      if |nodes| == 0 {
        return false;
      }
      ghost var m := Snapshot(buffers);
      for i := 0 to |nodes|
        invariant engine.Valid()
        invariant GoodGraph(nodes[..i], m)
        invariant Snapshot(buffers) == Composed(engine.ops, m, nodes[..i])
        invariant engine.dispatches == (old(engine.dispatches) + Products(nodes[..i])) % U64_LIMIT
      {
        var node := nodes[i];
        NextNode(engine.ops, m, nodes, i);
        CountDispatch(old(engine.dispatches), Products(nodes[..i]));
        if node != null && Runnable(node) {
          RunNode(node, buffers);
        } else {
          PassedOver(engine.ops, Snapshot(buffers), node);
        }
      }
      assert nodes[..|nodes|] == nodes;
      ok := true;
    }
  }

  // ---- what the composition means ----

  /** Outputs are written once, and no node writes an input of itself or of an earlier node. */
  ghost predicate Dataflow(nodes: seq<Tensor?>)
  {
    forall i, j :: 0 <= i <= j < |nodes| && Runnable(nodes[i]) && Runnable(nodes[j]) ==>
      nodes[j].floats != nodes[i].src1.floats && (i < j ==> nodes[j].floats != nodes[i].floats)
  }

  lemma {:induction false} Untouched(ops: FloatOps<real>, m: Memory, nodes: seq<Tensor?>, a: array<real>)
    requires GoodGraph(nodes, m) && a in m
    requires forall i :: 0 <= i < |nodes| && Runnable(nodes[i]) ==> nodes[i].floats != a
    ensures Composed(ops, m, nodes)[a] == m[a]
  {
    hide Sound, Product;
    if nodes != [] {
      Untouched(ops, m, nodes[..|nodes| - 1], a);
    }
  }

  /** In a dataflow graph every equation holds in the final memory at once: each output is the reference
    product of its weights with the final contents of its activations, followed by what stood there before;
    and a buffer that is nobody's output keeps its contents. */
  lemma {:induction false} EquationsHold(ops: FloatOps<real>, m: Memory, nodes: seq<Tensor?>)
    requires GoodGraph(nodes, m) && Dataflow(nodes)
    ensures var final := Composed(ops, m, nodes);
            forall i :: 0 <= i < |nodes| && Runnable(nodes[i]) ==>
              Covers(final, nodes[i]) &&
              final[nodes[i].floats] == Product(ops, final, nodes[i]) + m[nodes[i].floats][nodes[i].src0.ne1..]
  {
    if nodes != [] {
      var n := |nodes| - 1;
      var before, last := nodes[..n], nodes[n];
      assert nodes == before + [last];
      StillCovers(ops, m, before, last);
      EquationsHold(ops, m, before);
      var prev, final := Composed(ops, m, before), Composed(ops, m, nodes);
      forall i | 0 <= i < |nodes| && Runnable(nodes[i])
        ensures final[nodes[i].floats] == Product(ops, final, nodes[i]) + m[nodes[i].floats][nodes[i].src0.ne1..]
      {
        EquationKept(ops, m, prev, final, nodes, i);
      }
    }
  }

  lemma EquationKept(ops: FloatOps<real>, m: Memory, prev: Memory, final: Memory, nodes: seq<Tensor?>, i: nat)
    requires GoodGraph(nodes, m) && Dataflow(nodes) && i < |nodes| && Runnable(nodes[i])
    requires GoodGraph(nodes[..|nodes| - 1], m) && prev == Composed(ops, m, nodes[..|nodes| - 1])
    requires Sound(nodes[|nodes| - 1]) && Covers(prev, nodes[|nodes| - 1])
    requires final == After(ops, prev, nodes[|nodes| - 1])
    requires Covers(prev, nodes[i])
    requires i < |nodes| - 1 ==>
      prev[nodes[i].floats] == Product(ops, prev, nodes[i]) + m[nodes[i].floats][nodes[i].src0.ne1..]
    ensures final[nodes[i].floats] == Product(ops, final, nodes[i]) + m[nodes[i].floats][nodes[i].src0.ne1..]
  {
    hide GemvSpec, Whole, RowBytes;
    var n := |nodes| - 1;
    SameActivations(ops, prev, final, nodes[i]) by {
      assert Runnable(nodes[n]) ==> nodes[n].floats != nodes[i].src1.floats;
    }
    if i == n {
      forall j | 0 <= j < n && Runnable(nodes[..n][j])
        ensures nodes[..n][j].floats != nodes[n].floats
      {
        assert nodes[..n][j] == nodes[j];
      }
      Untouched(ops, m, nodes[..n], nodes[n].floats);
    } else {
      assert Runnable(nodes[n]) ==> nodes[n].floats != nodes[i].floats;
    }
  }

  lemma SameActivations(ops: FloatOps<real>, m: Memory, m': Memory, t: Tensor)
    requires Fits(m) && Fits(m') && Runnable(t) && Sound(t) && Covers(m, t) && Covers(m', t)
    requires m[t.src1.floats] == m'[t.src1.floats]
    ensures Product(ops, m, t) == Product(ops, m', t)
  {
  }

  ghost predicate AllSupported(nodes: seq<Tensor?>)
  {
    forall i :: 0 <= i < |nodes| ==> SupportsOp(nodes[i]) && HasData(nodes[i])
  }

  lemma {:induction false} EveryNodeRuns(nodes: seq<Tensor?>)
    requires AllSupported(nodes)
    ensures Products(nodes) == |nodes|
  {
    if nodes != [] {
      EveryNodeRuns(nodes[..|nodes| - 1]);
      SupportedRuns(nodes[|nodes| - 1]);
    }
  }

  /** A graph of supported nodes with data: every one of them is run, and in a dataflow graph each output ends
    as the reference product over the full row length of its shape, with no activation left out. */
  lemma SupportedGraph(ops: FloatOps<real>, m: Memory, nodes: seq<Tensor?>)
    requires GoodGraph(nodes, m) && Dataflow(nodes) && AllSupported(nodes)
    ensures Products(nodes) == |nodes|
    ensures forall i :: 0 <= i < |nodes| ==>
      var t, final := nodes[i], Composed(ops, m, nodes);
      Runnable(t) && Sound(t) && Covers(final, t) && t.src0.ne0 <= |final[t.src1.floats]| && t.src0.ne0 % 32 == 0 &&
      final[t.floats] == GemvSpec(ops, WeightBytes(t), t.src0.ne1, t.src0.ne0, final[t.src1.floats]) +
                         m[t.floats][t.src0.ne1..]
  {
    hide GemvSpec, RowBytes, Composed, Products, After;
    EveryNodeRuns(nodes);
    EquationsHold(ops, m, nodes);
    var final := Composed(ops, m, nodes);
    forall i | 0 <= i < |nodes|
      ensures var t := nodes[i];
              Runnable(t) && Sound(t) && Covers(final, t) &&
              t.src0.ne0 <= |final[t.src1.floats]| && t.src0.ne0 % 32 == 0 &&
              Product(ops, final, t) == GemvSpec(ops, WeightBytes(t), t.src0.ne1, t.src0.ne0, final[t.src1.floats])
    {
      SupportedRuns(nodes[i]);
      assert Whole(nodes[i].src0.ne0) == nodes[i].src0.ne0;
    }
  }

  // ---- nodes that `supports_op` refuses ----

  predicate RefusedYetRun(t: Tensor?) { !SupportsOp(t) && Runnable(t) }

  /** The executor runs a refused node exactly when it is a product with data whose rows are not whole blocks or
    whose row count is not a multiple of four. */
  lemma RefusedYetRunIff(t: Tensor?)
    ensures RefusedYetRun(t) <==>
            t != null && t.op == 18 && t.src0 != null && t.src1 != null &&
            t.src0.kind == 2 && t.src1.kind == 0 && t.src1.ne1 == 1 && HasData(t) &&
            (t.src0.ne0 % 32 != 0 || t.src0.ne1 % 4 != 0)
  {
  }

  function SupportedPart(nodes: seq<Tensor?>): seq<Tensor?>
  {
    if nodes == [] then []
    else
      var n := |nodes| - 1;
      SupportedPart(nodes[..n]) + if SupportsOp(nodes[n]) then [nodes[n]] else []
  }

  lemma {:induction false} PartGood(m: Memory, nodes: seq<Tensor?>)
    requires GoodGraph(nodes, m)
    ensures GoodGraph(SupportedPart(nodes), m)
  {
    hide Sound, Covers, SupportsOp;
    if nodes != [] {
      PartGood(m, nodes[..|nodes| - 1]);
    }
  }

  lemma Appended(ops: FloatOps<real>, m: Memory, nodes: seq<Tensor?>, t: Tensor?)
    requires GoodGraph(nodes + [t], m)
    ensures GoodGraph(nodes, m) && Sound(t) && Covers(Composed(ops, m, nodes), t)
    ensures Composed(ops, m, nodes + [t]) == After(ops, Composed(ops, m, nodes), t)
    ensures Products(nodes + [t]) == Products(nodes) + if Runnable(t) then 1 else 0
  {
    hide Sound, Covers, Runnable, After;
    assert (nodes + [t])[..|nodes|] == nodes && (nodes + [t])[|nodes|] == t;
    StillCovers(ops, m, nodes, t);
  }

  /** The graph runs as its supported nodes alone would, node for node, exactly when it has no refused node that is
    run; then memory ends as theirs. */
  lemma {:induction false} SupportedAloneIff(ops: FloatOps<real>, m: Memory, nodes: seq<Tensor?>)
    requires GoodGraph(nodes, m)
    ensures GoodGraph(SupportedPart(nodes), m) && Products(SupportedPart(nodes)) <= Products(nodes)
    ensures Products(nodes) == Products(SupportedPart(nodes)) <==>
            forall i :: 0 <= i < |nodes| ==> !RefusedYetRun(nodes[i])
    ensures (forall i :: 0 <= i < |nodes| ==> !RefusedYetRun(nodes[i])) ==>
            Composed(ops, m, nodes) == Composed(ops, m, SupportedPart(nodes))
  {
    hide Sound, Covers, SupportsOp, Runnable, After, Composed, Products, GoodGraph;
    PartGood(m, nodes);
    if nodes != [] {
      var n := |nodes| - 1;
      var before, last := nodes[..n], nodes[n];
      assert nodes == before + [last];
      Appended(ops, m, before, last);
      PartGood(m, before);
      SupportedAloneIff(ops, m, before);
      assert (forall i :: 0 <= i < |nodes| ==> !RefusedYetRun(nodes[i])) <==>
             (forall i :: 0 <= i < |before| ==> !RefusedYetRun(before[i])) && !RefusedYetRun(last);
      if SupportsOp(last) {
        Appended(ops, m, SupportedPart(before), last);
      } else {
        assert SupportedPart(nodes) == SupportedPart(before);
        if !Runnable(last) {
          PassedOver(ops, Composed(ops, m, before), last);
        }
      }
    }
  }

  /** What a node writes depends on the activations of its whole blocks only, and a row that is not whole blocks
    has more. */
  lemma TailActivationsUnused(ops: FloatOps<real>, m: Memory, m': Memory, t: Tensor)
    requires Fits(m) && Fits(m') && Runnable(t) && Sound(t) && Covers(m, t) && Covers(m', t)
    requires m[t.src1.floats][..Whole(t.src0.ne0)] == m'[t.src1.floats][..Whole(t.src0.ne0)]
    ensures Product(ops, m, t) == Product(ops, m', t)
    ensures Whole(t.src0.ne0) < t.src0.ne0 <==> t.src0.ne0 % 32 != 0
  {
    hide GemvSpec;
    var x, y, values := m[t.src1.floats], m'[t.src1.floats], Whole(t.src0.ne0);
    assert RowBytes(values) == RowBytes(t.src0.ne0);
    forall i | 0 <= i < values
      ensures x[i] == y[i]
    {
      assert x[..values][i] == y[..values][i];
    }
    ProductPrefix(ops, WeightBytes(t), t.src0.ne1, values, x, y);
  }

  /** Three rows of forty values: refused, run, and the last eight activations are not looked at. */
  method RefusedExample() returns (t: Tensor)
    ensures RefusedYetRun(t) && Sound(t) && t.src0.ne0 == 40 && t.src0.ne1 == 3 && Whole(40) == 32
  {
    var x, y := new real[40], new real[3];
    var weights := new Tensor(0, Q4_0, 40, 3, null, null, Some(seq(54, _ => 0)), null);
    var activations := new Tensor(0, F32, 40, 1, null, null, None, x);
    t := new Tensor(MUL_MAT, F32, 3, 1, weights, activations, None, y);
  }
}
