/** Which transmission errors the frame checksum detects. An error is a pattern `e` of
    flipped bits laid over a codeword `w`, a message followed by its checksum. */
module CrcDetection {
  import opened Crc8
  import opened Polynomial
  import opened CrcBits

  /** The check the decoder makes when a frame closes: the last byte is the checksum of the rest. */
  predicate CrcPasses(w: seq<byte>) {
    |w| >= 1 && w[|w| - 1] == Crc(w[..|w| - 1])
  }

  lemma PassesIffZeroResidue(w: seq<byte>)
    requires |w| >= 1
    ensures CrcPasses(w) <==> Crc(w) == 0
  {
    hide Crc;
    ZeroResidue(w[..|w| - 1], w[|w| - 1]);
    assert w == w[..|w| - 1] + [w[|w| - 1]];
  }

  /** The register an error pattern alone leaves. */
  function Syndrome(e: seq<byte>): byte {
    CrcFrom(0, e)
  }

  /** Whether a corruption is noticed depends on the error alone, never on the message. */
  lemma DetectedIffSyndrome(w: seq<byte>, e: seq<byte>)
    requires CrcPasses(w) && |e| == |w|
    ensures CrcPasses(Xor(w, e)) <==> Syndrome(e) == 0
  {
    hide Plus, CrcFrom, Xor;
    CrcLinear(INITIAL, 0, w, e);
    PlusSelf(INITIAL);
    PassesIffZeroResidue(w);
    PassesIffZeroResidue(Xor(w, e));
    PlusSolve(0, Syndrome(e), 0);
    PlusSelf(0);
  }

  // ---------------------------------------------------------------- streams of zeros

  lemma BitStepFalse(r: byte)
    ensures BitStep(r, false) == Shift(r)
  {
    PlusSelf(r);
  }

  lemma {:induction false} ZerosShift(r: byte, n: nat)
    ensures BitReg(r, Zeros(n)) == ShiftN(r, n)
    decreases n
  {
    hide BitStep, Shift;
    if n != 0 {
      BitStepFalse(r);
      assert Zeros(n)[1..] == Zeros(n - 1);
      ZerosShift(Shift(r), n - 1);
    }
  }

  /** Zeros before and after a pattern do not decide whether the register ends at zero. */
  lemma PaddedPattern(a: nat, s: seq<bool>, b: nat)
    ensures BitReg(0, Zeros(a) + s + Zeros(b)) == 0 <==> BitReg(0, s) == 0
  {
    hide BitReg, ShiftN, Zeros;
    BitRegAppend(0, Zeros(a) + s, Zeros(b));
    BitRegAppend(0, Zeros(a), s);
    ZerosShift(0, a);
    ShiftNZero(a);
    ZerosShift(BitReg(0, s), b);
    ShiftNZeroOnly(BitReg(0, s), b);
  }

  // ---------------------------------------------------------------- divisibility

  ghost predicate Divisible(p: Poly) {
    exists q :: p == Mul(q, GENERATOR)
  }

  lemma DivisibleIffNoRemainder(p: Poly)
    requires |p| >= 8
    ensures Divisible(p) <==> Remainder(p) == Zeros(8)
  {
    hide Mul, Remainder, Quotient;
    var n := |p| - 8;
    if Remainder(p) == Zeros(8) {
      DivisionCorrect(p);
      assert Add(Mul(Quotient(p), GENERATOR), Zeros(n) + Zeros(8)) == Mul(Quotient(p), GENERATOR);
    }
    if q :| p == Mul(q, GENERATOR) {
      DivisionUnique(q, Zeros(8));
      assert Add(p, Zeros(|q|) + Zeros(8)) == p;
    }
  }

  lemma OnlyZeroHasNoBits(x: byte)
    ensures BitsOf(x, 8) == Zeros(8) <==> x == 0
  {
    hide Plus, ShiftN, BitReg, BitsOf, Down;
    ZeroBits(8);
    FeedLowBits(0, x, 8);
    EightShiftsEmpty(x);
    PlusSelf(BitReg(0, BitsOf(x, 8)));
    PlusSelf(x);
    PlusCommutes(0, x);
    ZerosShift(0, 8);
    ShiftNZero(8);
    ShiftNZeroOnly(x, 8);
  }

  lemma ZeroRegisterIffDivisible(r: byte, s: seq<bool>)
    ensures BitReg(r, s) == 0 <==> Divisible(Dividend(r, s))
  {
    hide BitReg, BitsOf, Dividend, Remainder, Divisible;
    BitRegIsRemainder(r, s);
    OnlyZeroHasNoBits(BitReg(r, s));
    DivisibleIffNoRemainder(Dividend(r, s));
  }

  /** The check accepts exactly the multiples of the generator, and a corruption slips through
      exactly when the flipped bits, times x^8, are such a multiple. */
  lemma AcceptedIffDivisible(w: seq<byte>, e: seq<byte>)
    requires |w| >= 1 && |e| == |w|
    ensures CrcPasses(w) <==> Divisible(Dividend(INITIAL, Bits(w)))
    ensures CrcPasses(w) ==> (CrcPasses(Xor(w, e)) <==> Divisible(Dividend(0, Bits(e))))
  {
    hide BitReg, Dividend, Divisible, CrcPasses, CrcFrom, Bits, Xor;
    PassesIffZeroResidue(w);
    CrcIsBitSerial(INITIAL, w);
    ZeroRegisterIffDivisible(INITIAL, Bits(w));
    CrcIsBitSerial(0, e);
    ZeroRegisterIffDivisible(0, Bits(e));
    if CrcPasses(w) {
      DetectedIffSyndrome(w, e);
    }
  }

  // ---------------------------------------------------------------- parity

  function Ones(s: seq<bool>): nat {
    if s == [] then 0 else (if s[0] then 1 else 0) + Ones(s[1..])
  }

  predicate Odd(s: seq<bool>) {
    Ones(s) % 2 == 1
  }

  lemma {:induction false} OddAppend(s: seq<bool>, t: seq<bool>)
    ensures Odd(s + t) == (Odd(s) != Odd(t))
  {
    if s == [] {
      assert s + t == t;
    } else {
      assert (s + t)[1..] == s[1..] + t;
      OddAppend(s[1..], t);
    }
  }

  lemma {:induction false} OddAdd(p: Poly, q: Poly)
    requires |p| == |q|
    ensures Odd(Add(p, q)) == (Odd(p) != Odd(q))
  {
    if p != [] {
      assert Add(p, q)[1..] == Add(p[1..], q[1..]);
      OddAdd(p[1..], q[1..]);
    }
  }

  lemma {:induction false} OddZeros(n: nat)
    ensures !Odd(Zeros(n))
  {
    if n != 0 {
      assert Zeros(n)[1..] == Zeros(n - 1);
      OddZeros(n - 1);
    }
  }

  lemma GeneratorEven()
    ensures !Odd(GENERATOR)
  {
    assert GENERATOR == [true, false, false, true] + [true, false, false, false, true];
    OddAppend([true, false, false, true], [true, false, false, false, true]);
  }

  /** x + 1 divides the generator, so long division keeps the parity of the dividend. */
  lemma {:induction false} RemainderParity(p: Poly)
    requires |p| >= 8
    ensures Odd(Remainder(p)) == Odd(p)
    decreases |p|
  {
    if |p| > 8 {
      var z := Zeros(|p| - 9);
      hide Odd, Add;
      GeneratorEven();
      OddAppend(GENERATOR, z);
      OddZeros(|p| - 9);
      OddAdd(p, GENERATOR + z);
      var c := if p[0] then Add(p, GENERATOR + z) else p;
      assert !c[0];
      assert c == [false] + Reduce(p);
      OddAppend([false], Reduce(p));
      OddFalse();
      RemainderParity(Reduce(p));
    }
  }

  lemma OddFalse()
    ensures !Odd([false])
  {
  }

  lemma BitRegParity(r: byte, s: seq<bool>)
    ensures Odd(BitsOf(BitReg(r, s), 8)) == (Odd(BitsOf(r, 8)) != Odd(s))
  {
    hide Odd, Add, BitsOf, BitReg, Remainder;
    BitRegIsRemainder(r, s);
    RemainderParity(Dividend(r, s));
    OddAdd(BitsOf(r, 8) + Zeros(|s|), s + Zeros(8));
    OddAppend(BitsOf(r, 8), Zeros(|s|));
    OddAppend(s, Zeros(8));
    OddZeros(|s|);
    OddZeros(8);
  }

  lemma InitialEven()
    ensures !Odd(BitsOf(INITIAL, 8))
  {
    var h: byte := 0x0F;
    assert BitsOf(INITIAL, 8) == [true, true, true, true] + BitsOf(h, 4);
    assert BitsOf(h, 4) == [true, true, true, true];
    OddAppend([true, true, true, true], [true, true, true, true]);
  }

  /** The checksum has the parity of the message. */
  lemma CrcParity(d: seq<byte>)
    ensures Odd(BitsOf(Crc(d), 8)) == Odd(Bits(d))
  {
    hide Odd, BitsOf, BitReg, Bits, CrcFrom;
    CrcIsBitSerial(INITIAL, d);
    BitRegParity(INITIAL, Bits(d));
    InitialEven();
  }

  /** Every odd number of flipped bits is detected, wherever they lie. */
  lemma OddErrorsDetected(w: seq<byte>, e: seq<byte>)
    requires CrcPasses(w) && |e| == |w|
    requires Odd(Bits(e))
    ensures !CrcPasses(Xor(w, e))
  {
    hide Odd, BitsOf, BitReg, Bits, CrcFrom, CrcPasses, Xor;
    DetectedIffSyndrome(w, e);
    CrcIsBitSerial(0, e);
    BitRegParity(0, Bits(e));
    ZeroBits(8);
    OddZeros(8);
  }

  // ---------------------------------------------------------------- bursts

  /** Running backwards from a zero register: at most eight bits can have cancelled it only
      if the register held exactly those bits. */
  lemma {:induction false} ZeroAfterShortStream(r: byte, s: seq<bool>)
    requires |s| <= 8 && BitReg(r, s) == 0
    ensures BitsOf(r, 8) == s + Zeros(8 - |s|)
    decreases s
  {
    hide BitStep, BitsOf, Shift, Plus;
    if s == [] {
      ZeroBits(8);
    } else {
      var x: byte := if s[0] then 1 else 0;
      var t := Plus(r, x);
      assert BitStep(r, s[0]) == Shift(t) by {
        BitStepIsShift(r, s[0]);
      }
      ZeroAfterShortStream(Shift(t), s[1..]);
      ShiftBits(t);
      BitsLinear(r, x, 8);
      OneBit(s[0]);
      CancelLeadingBit(BitsOf(t, 8), BitsOf(r, 8), s);
    }
  }

  lemma BitStepIsShift(r: byte, x: bool)
    ensures BitStep(r, x) == Shift(Plus(r, if x then 1 else 0))
  {
  }

  lemma CancelLeadingBit(t: Poly, r: Poly, s: seq<bool>)
    requires |t| == |r| == 8 && 0 < |s| <= 8
    requires t == Add(r, [s[0]] + Zeros(7))
    requires Add(t[1..] + [false], Scale(t[0], GENERATOR[1..])) == s[1..] + Zeros(9 - |s|)
    ensures r == s + Zeros(8 - |s|)
  {
    TopCoefficientFalse(t, s);
    assert t[0] == (r[0] != s[0]);
    forall i | 0 <= i < 8
      ensures r[i] == (s + Zeros(8 - |s|))[i]
    {
      if i > 0 {
        assert t[i] == r[i];
        assert t[i] == (t[1..] + [false])[i - 1] == (s[1..] + Zeros(9 - |s|))[i - 1];
      }
    }
  }

  lemma TopCoefficientFalse(t: Poly, s: seq<bool>)
    requires |t| == 8 && 0 < |s| <= 8
    requires Add(t[1..] + [false], Scale(t[0], GENERATOR[1..])) == s[1..] + Zeros(9 - |s|)
    ensures !t[0] && t[1..] + [false] == s[1..] + Zeros(9 - |s|)
  {
    var u := Add(t[1..] + [false], Scale(t[0], GENERATOR[1..]));
    assert !u[7];
    if t[0] {
      assert false;
    }
  }

  /** The error bits lie within `size` consecutive positions starting at `k`. */
  predicate Within(s: seq<bool>, k: nat, size: nat) {
    k + size <= |s| && forall i :: 0 <= i < |s| && s[i] ==> k <= i < k + size
  }

  /** Every non-zero error confined to eight consecutive bits, even across a byte boundary, is detected. */
  lemma BurstDetected(w: seq<byte>, e: seq<byte>, k: nat)
    requires CrcPasses(w) && |e| == |w|
    requires Within(Bits(e), k, 8) && true in Bits(e)
    ensures !CrcPasses(Xor(w, e))
  {
    hide BitsOf, BitReg, Bits, CrcFrom, CrcPasses, Xor;
    DetectedIffSyndrome(w, e);
    CrcIsBitSerial(0, e);
    var s := Bits(e);
    var burst, b := s[k..k + 8], |s| - k - 8;
    assert s == Zeros(k) + burst + Zeros(b);
    PaddedPattern(k, burst, b);
    assert burst + Zeros(0) == burst;
    if BitReg(0, burst) == 0 {
      ZeroAfterShortStream(0, burst);
      ZeroBits(8);
    }
  }

  // ---------------------------------------------------------------- two flipped bits

  /** The shift map brings 1 back to 1 after 127 turns. */
  lemma OrbitCloses()
    ensures ShiftN(1, 127) == 1
  {
    assert ShiftN(0x01, 8) == 0x5E;
    assert ShiftN(0x5E, 8) == 0xC4;
    assert ShiftN(0xC4, 8) == 0xAB;
    assert ShiftN(0xAB, 8) == 0x8F;
    assert ShiftN(0x8F, 8) == 0xCD;
    assert ShiftN(0xCD, 8) == 0x37;
    assert ShiftN(0x37, 8) == 0x3D;
    assert ShiftN(0x3D, 8) == 0x43;
    assert ShiftN(0x43, 8) == 0xA4;
    assert ShiftN(0xA4, 8) == 0xCE;
    assert ShiftN(0xCE, 8) == 0xD5;
    assert ShiftN(0xD5, 8) == 0x68;
    assert ShiftN(0x68, 8) == 0xA7;
    assert ShiftN(0xA7, 8) == 0x2C;
    assert ShiftN(0x2C, 8) == 0x80;
    assert ShiftN(0x80, 7) == 0x01;
    hide ShiftN;
    ShiftNAdd(1, 8, 8);
    ShiftNAdd(1, 16, 8);
    ShiftNAdd(1, 24, 8);
    ShiftNAdd(1, 32, 8);
    ShiftNAdd(1, 40, 8);
    ShiftNAdd(1, 48, 8);
    ShiftNAdd(1, 56, 8);
    ShiftNAdd(1, 64, 8);
    ShiftNAdd(1, 72, 8);
    ShiftNAdd(1, 80, 8);
    ShiftNAdd(1, 88, 8);
    ShiftNAdd(1, 96, 8);
    ShiftNAdd(1, 104, 8);
    ShiftNAdd(1, 112, 8);
    ShiftNAdd(1, 120, 7);
  }

  /** Turns that fix 1 can be subtracted from each other. */
  lemma {:induction false} PeriodModulo(a: nat, n: nat)
    requires a > 0 && ShiftN(1, a) == 1
    ensures ShiftN(1, n) == ShiftN(1, n % a)
    decreases n
  {
    hide ShiftN;
    if n >= a {
      ShiftNAdd(1, a, n - a);
      PeriodModulo(a, n - a);
      ModuloStep(n, a);
    } else {
      assert n % a == n;
    }
  }

  lemma ModuloStep(n: nat, a: nat)
    requires 0 < a <= n
    ensures (n - a) % a == n % a
  {
    var q, p := n / a, (n - a) / a;
    var d := (n - a) % a - n % a;
    assert a * q + n % a == n;
    assert a * p + (n - a) % a == n - a;
    Distributes(a, q - 1, p);
    assert a * (q - 1 - p) == d;
    if q - 1 - p >= 1 {
      MulAtLeast(a, q - 1 - p);
    } else if q - 1 - p <= -1 {
      MulAtLeast(a, p - q + 1);
    }
  }

  lemma Distributes(a: int, x: int, y: int)
    ensures a * (x - y) == a * x - a * y && a * (x + 1) == a * x + a
    ensures a * (y - x) == -(a * (x - y))
  {
  }

  lemma MulAtLeast(a: nat, x: int)
    requires x >= 1
    ensures a * x >= a
  {
  }

  lemma OneTwentySevenPrime(k: nat)
    requires 1 < k < 127
    ensures 127 % k != 0
  {
  }

  /** Nothing shorter than 127 turns fixes 1, because 127 is prime and one turn does not. */
  lemma {:induction false} NoShorterPeriod(k: nat)
    requires 0 < k < 127
    ensures ShiftN(1, k) != 1
    decreases k
  {
    if k == 1 {
      assert ShiftN(1, 1) == 0x8C;
    } else if ShiftN(1, k) == 1 {
      hide ShiftN;
      OrbitCloses();
      PeriodModulo(k, 127);
      OneTwentySevenPrime(k);
      NoShorterPeriod(127 % k);
    }
  }

  lemma PeriodExact(n: nat)
    ensures ShiftN(1, n) == 1 <==> n % 127 == 0
  {
    hide ShiftN;
    OrbitCloses();
    PeriodModulo(127, n);
    if n % 127 == 0 {
      PeriodModulo(127, 127);
    } else {
      NoShorterPeriod(n % 127);
    }
  }

  /** Exactly the bits `i` and `j` are flipped. */
  predicate FlipsTwo(s: seq<bool>, i: nat, j: nat) {
    i < j < |s| && forall k :: 0 <= k < |s| ==> (s[k] <==> k == i || k == j)
  }

  lemma TwoBitRegister(n: nat)
    ensures BitReg(0, [true] + Zeros(n) + [true]) == 0 <==> ShiftN(1, n + 1) == 1
  {
    hide Plus, Shift;
    var s := [true] + Zeros(n);
    BitRegAppend(0, s, [true]);
    assert s[1..] == Zeros(n);
    PlusCommutes(0, 1);
    PlusSelf(1);
    assert BitReg(0, s) == BitReg(Shift(1), Zeros(n));
    ZerosShift(Shift(1), n);
    var r := ShiftN(1, n + 1);
    assert BitReg(0, s) == r;
    assert [true][1..] == [];
    assert BitReg(r, [true]) == Shift(Plus(r, 1));
    assert ShiftN(Plus(r, 1), 1) == Shift(Plus(r, 1));
    ShiftNZeroOnly(Plus(r, 1), 1);
    PlusCommutes(r, 1);
    PlusSolve(1, r, 0);
  }

  /** Two flipped bits go unnoticed exactly when they lie a multiple of 127 bits apart. */
  lemma DoubleErrorDetected(w: seq<byte>, e: seq<byte>, i: nat, j: nat)
    requires CrcPasses(w) && |e| == |w|
    requires FlipsTwo(Bits(e), i, j)
    ensures CrcPasses(Xor(w, e)) <==> (j - i) % 127 == 0
  {
    hide BitsOf, BitReg, Bits, CrcFrom, CrcPasses, Xor, ShiftN;
    DetectedIffSyndrome(w, e);
    CrcIsBitSerial(0, e);
    var s, n := Bits(e), j - i - 1;
    var pattern, b := [true] + Zeros(n) + [true], |s| - j - 1;
    assert s == Zeros(i) + pattern + Zeros(b);
    PaddedPattern(i, pattern, b);
    TwoBitRegister(n);
    PeriodExact(n + 1);
  }
}
