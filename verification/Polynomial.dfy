/** Polynomials over GF(2), written as coefficients with the highest degree first,
    and schoolbook division by the CRC-8 generator. Nothing here mentions a register. */
module Polynomial {
  type Poly = seq<bool>

  /** x^8 + x^5 + x^4 + 1 */
  const GENERATOR: Poly := [true, false, false, true, true, false, false, false, true]

  function Zeros(n: nat): (z: Poly)
    ensures |z| == n
    ensures forall i :: 0 <= i < n ==> !z[i]
  {
    seq(n, i => false)
  }

  /** Addition, which over GF(2) is also subtraction. */
  function Add(p: Poly, q: Poly): (s: Poly)
    requires |p| == |q|
    ensures |s| == |p|
    ensures forall i :: 0 <= i < |s| ==> s[i] == (p[i] != q[i])
  {
    seq(|p|, i requires 0 <= i < |p| => p[i] != q[i])
  }

  function Scale(c: bool, p: Poly): (s: Poly)
    ensures |s| == |p|
  {
    if c then p else Zeros(|p|)
  }

  /** Schoolbook multiplication. */
  function Mul(a: Poly, b: Poly): (m: Poly)
    requires |b| >= 1
    ensures |m| == |a| + |b| - 1
  {
    if a == [] then Zeros(|b| - 1)
    else Add(Scale(a[0], b) + Zeros(|a| - 1), [false] + Mul(a[1..], b))
  }

  /** One line of long division by the generator: cancel the leading term and drop it. */
  function Reduce(p: Poly): (r: Poly)
    requires |p| > 8
    ensures |r| == |p| - 1
  {
    (if p[0] then Add(p, GENERATOR + Zeros(|p| - 9)) else p)[1..]
  }

  function Remainder(p: Poly): (r: Poly)
    requires |p| >= 8
    ensures |r| == 8
    decreases |p|
  {
    if |p| == 8 then p else Remainder(Reduce(p))
  }

  function Quotient(p: Poly): (q: Poly)
    requires |p| >= 8
    ensures |q| == |p| - 8
    decreases |p|
  {
    if |p| == 8 then [] else [p[0]] + Quotient(Reduce(p))
  }

  lemma AddAssociates(p: Poly, q: Poly, r: Poly)
    requires |p| == |q| == |r|
    ensures Add(Add(p, q), r) == Add(p, Add(q, r))
  {
  }

  lemma AddCons(p: Poly, q: Poly)
    requires |p| == |q|
    ensures Add([false] + p, [false] + q) == [false] + Add(p, q)
  {
  }

  /** A polynomial of degree `|rest|` whose leading coefficient is `c`, reduced to `rest`. */
  function Lead(c: bool, rest: Poly): (p: Poly)
    requires |rest| >= 8
    ensures |p| == |rest| + 1
  {
    Add(Scale(c, GENERATOR) + Zeros(|rest| - 8), [false] + rest)
  }

  lemma LeadReduces(c: bool, rest: Poly)
    requires |rest| >= 8
    ensures Lead(c, rest)[0] == c
    ensures Reduce(Lead(c, rest)) == rest
  {
    var z := Zeros(|rest| - 8);
    assert GENERATOR + z == Scale(true, GENERATOR) + z;
    assert Reduce(Lead(c, rest)) == rest;
  }

  lemma ReduceLeads(p: Poly)
    requires |p| > 8
    ensures p == Lead(p[0], Reduce(p))
  {
  }

  lemma MulLeads(q: Poly, m: Poly, low: Poly)
    requires q != [] && m == Mul(q[1..], GENERATOR) && |low| == |m|
    ensures Add(Mul(q, GENERATOR), [false] + low) == Lead(q[0], Add(m, low))
  {
    var g := Scale(q[0], GENERATOR) + Zeros(|q| - 1);
    assert Mul(q, GENERATOR) == Add(g, [false] + m);
    hide Add, Mul, Scale;
    AddCons(m, low);
    AddAssociates(g, [false] + m, [false] + low);
  }

  /** Long division is division: dividend = quotient * generator + remainder. */
  lemma {:induction false} DivisionCorrect(p: Poly)
    requires |p| >= 8
    ensures p == Add(Mul(Quotient(p), GENERATOR), Zeros(|p| - 8) + Remainder(p))
    decreases |p|
  {
    hide Add, Reduce, Lead;
    var n := |p| - 8;
    if n == 0 {
      assert Zeros(0) + p == p;
      AddZeros(p);
    } else {
      var rest := Reduce(p);
      var low := Zeros(n - 1) + Remainder(rest);
      DivisionCorrect(rest);
      ReduceLeads(p);
      assert Quotient(p)[1..] == Quotient(rest);
      assert Zeros(n) + Remainder(p) == [false] + low;
      MulLeads(Quotient(p), Mul(Quotient(rest), GENERATOR), low);
    }
  }

  lemma AddZeros(p: Poly)
    ensures Add(Zeros(|p|), p) == p
  {
  }

  /** The remainder of degree below eight, and its quotient, are the only ones. */
  lemma {:induction false} DivisionUnique(q: Poly, r: Poly)
    requires |r| == 8
    ensures Remainder(Add(Mul(q, GENERATOR), Zeros(|q|) + r)) == r
    ensures Quotient(Add(Mul(q, GENERATOR), Zeros(|q|) + r)) == q
    decreases |q|
  {
    if q == [] {
      assert Zeros(0) + r == r;
      AddZeros(r);
    } else {
      hide Add, Reduce, Lead, Mul, Scale;
      var m, low := Mul(q[1..], GENERATOR), Zeros(|q| - 1) + r;
      DivisionUnique(q[1..], r);
      assert Zeros(|q|) + r == [false] + low;
      MulLeads(q, m, low);
      LeadReduces(q[0], Add(m, low));
      assert q == [q[0]] + q[1..];
    }
  }
}
