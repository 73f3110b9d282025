/** Multiplication and division by name, so that a proof can hide what they are and use only the few facts
  about them that it needs. */
module NamedArithmetic {

  function Mul(a: nat, b: nat): nat { a * b }

  function Quot(n: nat, d: nat): nat
    requires 0 < d
  {
    n / d
  }

  function Rem(n: nat, d: nat): nat
    requires 0 < d
  {
    n % d
  }

  lemma MulMono(a: nat, b: nat, k: nat)
    requires a <= b
    ensures a * k <= b * k
  {
  }

  lemma Unique(n: nat, d: nat, q: nat, r: nat)
    requires r < d && n == q * d + r
    ensures n / d == q && n % d == r
  {
    var k := n / d;
    assert n == d * k + n % d == k * d + n % d;
    if k < q {
      MulMono(k + 1, q, d);
    } else if k > q {
      MulMono(q + 1, k, d);
    }
    assert (k + 1) * d == k * d + d && (q + 1) * d == q * d + d;
  }

  lemma DivModOf(q: nat, d: nat, r: nat)
    requires r < d
    ensures Quot(Mul(q, d) + r, d) == q && Rem(Mul(q, d) + r, d) == r
  {
    Unique(q * d + r, d, q, r);
  }

  lemma Below(a: nat, A: nat, b: nat, B: nat)
    requires a < A && b < B
    ensures Mul(a, B) + b < Mul(A, B)
  {
    MulMono(a + 1, A, B);
    assert (a + 1) * B == a * B + B;
  }

  lemma Quotient(n: nat, d: nat, k: nat)
    requires 0 < d && n < Mul(k, d)
    ensures Quot(n, d) < k && Rem(n, d) < d && n == Mul(Quot(n, d), d) + Rem(n, d)
  {
  }

  lemma Positive(a: nat, b: nat)
    ensures 0 < a && 0 < b ==> 0 < Mul(a, b)
  {
  }

  lemma Doubled(a: nat, b: nat)
    ensures Mul(a, b * 2) == Mul(a, b) * 2 == Mul(Mul(a, b), 2)
  {
  }

  lemma MulNext(a: nat, b: nat)
    ensures Mul(a + 1, b) == Mul(a, b) + b
    ensures Mul(0, b) == 0
  {
  }

  lemma MulBy(a: nat, b: nat)
    ensures Mul(a, b) == a * b
  {
  }

  lemma ModShift(k: nat, d: nat, b: nat)
    requires 0 < d
    ensures (k * d + b) % d == b % d
  {
    assert (k + b / d) * d == k * d + b / d * d;
    Unique(k * d + b, d, k + b / d, b % d);
  }

  /** A factor may be reduced before the product is. */
  lemma ModFactor(a: nat, b: nat, d: nat)
    requires 0 < d
    ensures Mul(a, b % d) % d == Mul(a, b) % d
  {
    var q, r := b / d, b % d;
    assert a * b == (a * q) * d + a * r by {
      assert b == q * d + r;
      assert a * (q * d) == (a * q) * d;
    }
    ModShift(a * q, d, a * r);
  }

  // ---- reals ----

  function AbsReal(a: real): real { if a < 0.0 then -a else a }

  function Scaled(d: real, s: real): real { d * s }

  lemma Distribute(d: real, s: real, t: real)
    ensures Scaled(d, s + t) == Scaled(d, s) + Scaled(d, t)
    ensures Scaled(d, 0.0) == 0.0
  {
  }
}
