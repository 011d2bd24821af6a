/** The Dallas/Maxim 1-Wire CRC-8 as HdlcFrame::calculateCrc computes it:
    reflected polynomial 0x8C (x^8 + x^5 + x^4 + 1), register started at 0xFF. */
module Crc8 {
  type byte = bv8

  const INITIAL: byte := 0xFF

  /** Exclusive or, as a named operation: the sum of two polynomials over GF(2). */
  function Plus(x: byte, y: byte): byte {
    x ^ y
  }

  /** One turn of the inner loop: shift right, fold the polynomial in when a one falls out. */
  function Shift(r: byte): byte {
    if r & 0x01 == 0x01 then (r >> 1) ^ 0x8C else r >> 1
  }

  function ShiftN(r: byte, n: nat): byte
    decreases n
  {
    if n == 0 then r else ShiftN(Shift(r), n - 1)
  }

  /** What one data byte does to the register. */
  function ByteStep(r: byte, b: byte): byte {
    ShiftN(Plus(r, b), 8)
  }

  /** The register after the bytes of `d`, from register `r`. */
  function CrcFrom(r: byte, d: seq<byte>): byte
    decreases d
  {
    if d == [] then r else CrcFrom(ByteStep(r, d[0]), d[1..])
  }

  function Crc(d: seq<byte>): byte {
    CrcFrom(INITIAL, d)
  }

  /** The two nested loops of the source. */
  method CalculateCrc(data: seq<byte>) returns (crc: byte)
    ensures crc == Crc(data)
  {
    crc := INITIAL;
    for k := 0 to |data|
      invariant CrcFrom(crc, data[k..]) == Crc(data)
    {
      ghost var next := ByteStep(crc, data[k]);
      assert data[k..][1..] == data[k + 1..];
      crc := Plus(crc, data[k]);
      for i := 0 to 8
        invariant ShiftN(crc, 8 - i) == next
      {
        if crc & 0x01 == 0x01 {
          crc := (crc >> 1) ^ 0x8C;
        } else {
          crc := crc >> 1;
        }
      }
    }
  }

  // ---------------------------------------------------------------- linearity

  lemma PlusCommutes(x: byte, y: byte)
    ensures Plus(x, y) == Plus(y, x)
  {
  }

  lemma PlusSelf(x: byte)
    ensures Plus(x, x) == 0 && Plus(x, 0) == x
  {
  }

  lemma PlusCancels(x: byte, y: byte)
    ensures Plus(x, Plus(x, y)) == y
  {
    assert x ^ (x ^ y) == y;
  }

  lemma PlusSolve(x: byte, y: byte, z: byte)
    ensures Plus(x, y) == z <==> y == Plus(x, z)
  {
    hide Plus;
    PlusCancels(x, y);
    PlusCancels(x, z);
  }

  lemma PlusAssociates(x: byte, y: byte, z: byte)
    ensures Plus(Plus(x, y), z) == Plus(x, Plus(y, z))
  {
    var a, b := Plus(x, y), Plus(y, z);
    assert a == x ^ y;
    assert b == y ^ z;
    assert (x ^ y) ^ z == x ^ (y ^ z);
  }

  lemma PlusRearrange(p: byte, q: byte, x: byte, y: byte)
    ensures Plus(Plus(p, q), Plus(x, y)) == Plus(Plus(p, x), Plus(q, y))
  {
    hide Plus;
    PlusAssociates(p, q, Plus(x, y));
    PlusAssociates(q, x, y);
    PlusCommutes(q, x);
    PlusAssociates(x, q, y);
    PlusAssociates(p, x, Plus(q, y));
  }

  lemma ShiftLinear(x: byte, y: byte)
    ensures Shift(Plus(x, y)) == Plus(Shift(x), Shift(y))
  {
  }

  lemma {:induction false} ShiftNLinear(x: byte, y: byte, n: nat)
    ensures ShiftN(Plus(x, y), n) == Plus(ShiftN(x, n), ShiftN(y, n))
    decreases n
  {
    hide Plus, Shift;
    if n != 0 {
      ShiftLinear(x, y);
      ShiftNLinear(Shift(x), Shift(y), n - 1);
    }
  }

  lemma ByteStepLinear(p: byte, q: byte, x: byte, y: byte)
    ensures ByteStep(Plus(p, q), Plus(x, y)) == Plus(ByteStep(p, x), ByteStep(q, y))
  {
    hide Plus, ShiftN;
    PlusRearrange(p, q, x, y);
    ShiftNLinear(Plus(p, x), Plus(q, y), 8);
  }

  lemma {:induction false} ShiftNZero(n: nat)
    ensures ShiftN(0, n) == 0
  {
    if n != 0 {
      ShiftNZero(n - 1);
    }
  }

  lemma {:induction false} ShiftNAdd(x: byte, m: nat, n: nat)
    ensures ShiftN(x, m + n) == ShiftN(ShiftN(x, m), n)
    decreases m
  {
    hide Shift;
    if m != 0 {
      ShiftNAdd(Shift(x), m - 1, n);
    }
  }

  /** Pointwise exclusive or: an error pattern laid over a message. */
  function Xor(a: seq<byte>, b: seq<byte>): (c: seq<byte>)
    requires |a| == |b|
    ensures |c| == |a|
    ensures forall i :: 0 <= i < |c| ==> c[i] == Plus(a[i], b[i])
  {
    seq(|a|, i requires 0 <= i < |a| => Plus(a[i], b[i]))
  }

  /** Superposition: two registers fed two messages add up bitwise. */
  lemma {:induction false} CrcLinear(p: byte, q: byte, a: seq<byte>, b: seq<byte>)
    requires |a| == |b|
    ensures CrcFrom(Plus(p, q), Xor(a, b)) == Plus(CrcFrom(p, a), CrcFrom(q, b))
    decreases a
  {
    hide Plus, ByteStep;
    if a != [] {
      ByteStepLinear(p, q, a[0], b[0]);
      assert Xor(a, b)[1..] == Xor(a[1..], b[1..]);
      CrcLinear(ByteStep(p, a[0]), ByteStep(q, b[0]), a[1..], b[1..]);
    }
  }

  lemma {:induction false} CrcAppend(r: byte, a: seq<byte>, b: seq<byte>)
    ensures CrcFrom(r, a + b) == CrcFrom(CrcFrom(r, a), b)
    decreases a
  {
    hide ByteStep;
    if a == [] {
      assert a + b == b;
    } else {
      assert (a + b)[1..] == a[1..] + b;
      CrcAppend(ByteStep(r, a[0]), a[1..], b);
    }
  }

  lemma CrcSnoc(r: byte, d: seq<byte>, b: byte)
    ensures CrcFrom(r, d + [b]) == ByteStep(CrcFrom(r, d), b)
  {
    hide ByteStep;
    CrcAppend(r, d, [b]);
    assert [b][1..] == [];
  }

  // ---------------------------------------------------------------- inverse

  /** The explicit inverse of Shift. */
  function Unshift(r: byte): byte {
    if r & 0x80 == 0x80 then ((r ^ 0x8C) << 1) | 0x01 else r << 1
  }

  function UnshiftN(r: byte, n: nat): byte {
    if n == 0 then r else Unshift(UnshiftN(r, n - 1))
  }

  lemma ShiftBijective(x: byte)
    ensures Unshift(Shift(x)) == x && Shift(Unshift(x)) == x
  {
  }

  lemma {:induction false} ShiftNBijective(x: byte, n: nat)
    ensures UnshiftN(ShiftN(x, n), n) == x
    ensures ShiftN(UnshiftN(x, n), n) == x
    decreases n
  {
    hide Shift, Unshift;
    if n != 0 {
      ShiftBijective(x);
      ShiftNBijective(Shift(x), n - 1);
      ShiftBijective(UnshiftN(x, n - 1));
      ShiftNBijective(x, n - 1);
    }
  }

  lemma ShiftNInverts(x: byte, n: nat, t: byte)
    ensures ShiftN(x, n) == t <==> x == UnshiftN(t, n)
  {
    hide ShiftN, UnshiftN;
    ShiftNBijective(x, n);
    ShiftNBijective(t, n);
  }

  lemma ShiftNZeroOnly(x: byte, n: nat)
    ensures ShiftN(x, n) == 0 <==> x == 0
  {
    hide ShiftN, UnshiftN;
    ShiftNInverts(x, n, 0);
    ShiftNInverts(0, n, 0);
    ShiftNZero(n);
  }

  /** One byte's effect is a bijection in the register and in the byte, with explicit inverses. */
  lemma ByteStepBijective(r: byte, b: byte, t: byte)
    ensures ByteStep(r, b) == t <==> b == Plus(UnshiftN(t, 8), r)
    ensures ByteStep(r, b) == t <==> r == Plus(UnshiftN(t, 8), b)
  {
    hide Plus, ShiftN, UnshiftN;
    var u := UnshiftN(t, 8);
    ShiftNInverts(Plus(r, b), 8, t);
    PlusSolve(r, b, u);
    PlusSolve(b, r, u);
    PlusCommutes(r, b);
    PlusCommutes(u, r);
    PlusCommutes(u, b);
  }

  /** The only last byte after prefix `p` that makes the checksum `t`. */
  function LastByteFor(p: seq<byte>, t: byte): byte {
    Plus(UnshiftN(t, 8), Crc(p))
  }

  lemma LastByteUnique(p: seq<byte>, b: byte, t: byte)
    ensures Crc(p + [b]) == t <==> b == LastByteFor(p, t)
  {
    hide ByteStep, Plus, UnshiftN, CrcFrom;
    CrcSnoc(INITIAL, p, b);
    ByteStepBijective(Crc(p), b, t);
  }

  /** Appending the checksum, and nothing else, brings the register to zero. */
  lemma ZeroResidue(d: seq<byte>, c: byte)
    ensures Crc(d + [c]) == 0 <==> c == Crc(d)
  {
    hide Plus, ShiftN, CrcFrom;
    CrcSnoc(INITIAL, d, c);
    ShiftNZeroOnly(Plus(Crc(d), c), 8);
    PlusSolve(Crc(d), c, 0);
    PlusSelf(Crc(d));
  }

  // ---------------------------------------------------------------- a known value

  lemma CrcOne(r: byte, b: byte, rest: seq<byte>)
    ensures CrcFrom(r, [b] + rest) == CrcFrom(ByteStep(r, b), rest)
  {
    hide ByteStep;
    assert ([b] + rest)[1..] == rest;
  }

  lemma ByteStepIs(r: byte, b: byte, x: byte, m: byte, t: byte)
    requires r ^ b == x && ShiftN(x, 4) == m && ShiftN(m, 4) == t
    ensures ByteStep(r, b) == t
  {
    ShiftNAdd(x, 4, 4);
    hide ShiftN;
  }

  /** The stuffing vector of the repository's own tests has checksum 0x48. */
  lemma TestVector()
    ensures Crc([0x00, 0x00, 0x03, 0x00, 0xFF, 0xFF, 0x00, 0x7E, 0x7D, 0x7E]) == 0x48
  {
    ByteStepIs(0xFF, 0x00, 0xFF, 0x7B, 0x35);
    ByteStepIs(0x35, 0x00, 0x35, 0xD8, 0x81);
    ByteStepIs(0x81, 0x03, 0x82, 0x2B, 0x30);
    ByteStepIs(0x30, 0x00, 0x30, 0x03, 0xBE);
    ByteStepIs(0xBE, 0xFF, 0x41, 0x99, 0x18);
    ByteStepIs(0x18, 0xFF, 0xE7, 0xF6, 0x6A);
    ByteStepIs(0x6A, 0x00, 0x6A, 0xA9, 0x1B);
    ByteStepIs(0x1B, 0x7E, 0x65, 0xDD, 0x5A);
    ByteStepIs(0x5A, 0x7D, 0x27, 0xFA, 0xA0);
    ByteStepIs(0xA0, 0x7E, 0xDE, 0xE4, 0x48);
    hide ByteStep, CrcFrom;
    CrcOne(0xFF, 0x00, [0x00, 0x03, 0x00, 0xFF, 0xFF, 0x00, 0x7E, 0x7D, 0x7E]);
    CrcOne(0x35, 0x00, [0x03, 0x00, 0xFF, 0xFF, 0x00, 0x7E, 0x7D, 0x7E]);
    CrcOne(0x81, 0x03, [0x00, 0xFF, 0xFF, 0x00, 0x7E, 0x7D, 0x7E]);
    CrcOne(0x30, 0x00, [0xFF, 0xFF, 0x00, 0x7E, 0x7D, 0x7E]);
    CrcOne(0xBE, 0xFF, [0xFF, 0x00, 0x7E, 0x7D, 0x7E]);
    CrcOne(0x18, 0xFF, [0x00, 0x7E, 0x7D, 0x7E]);
    CrcOne(0x6A, 0x00, [0x7E, 0x7D, 0x7E]);
    CrcOne(0x1B, 0x7E, [0x7D, 0x7E]);
    CrcOne(0x5A, 0x7D, [0x7E]);
    CrcOne(0xA0, 0x7E, []);
    CrcNothing(0x48);
  }

  lemma CrcNothing(r: byte)
    ensures CrcFrom(r, []) == r
  {
  }
}
