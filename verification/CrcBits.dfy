/** The byte-wise CRC loop against bit-serial polynomial long division. */
module CrcBits {
  import opened Crc8
  import opened Polynomial

  /** The low `n` bits of `b`, least significant first: the order the CRC consumes them in. */
  function BitsOf(b: byte, n: nat): (s: seq<bool>)
    ensures |s| == n
    decreases n
  {
    if n == 0 then [] else [b & 0x01 == 0x01] + BitsOf(b >> 1, n - 1)
  }

  function Bits(d: seq<byte>): (s: seq<bool>)
    ensures |s| == 8 * |d|
  {
    if d == [] then [] else BitsOf(d[0], 8) + Bits(d[1..])
  }

  function BitStep(r: byte, x: bool): byte {
    Shift(Plus(r, if x then 1 else 0))
  }

  /** The register after a stream of single bits. */
  function BitReg(r: byte, s: seq<bool>): byte
    decreases s
  {
    if s == [] then r else BitReg(BitStep(r, s[0]), s[1..])
  }

  lemma {:induction false} BitRegAppend(r: byte, s: seq<bool>, t: seq<bool>)
    ensures BitReg(r, s + t) == BitReg(BitReg(r, s), t)
    decreases s
  {
    hide BitStep;
    if s == [] {
      assert s + t == t;
    } else {
      assert (s + t)[1..] == s[1..] + t;
      BitRegAppend(BitStep(r, s[0]), s[1..], t);
    }
  }

  function Down(b: byte, n: nat): byte
    decreases n
  {
    if n == 0 then b else Down(b >> 1, n - 1)
  }

  lemma PeelBit(r: byte, b: byte)
    ensures Shift(Plus(r, b)) == Plus(BitStep(r, b & 0x01 == 0x01), b >> 1)
  {
  }

  lemma {:induction false} FeedLowBits(r: byte, b: byte, n: nat)
    ensures ShiftN(Plus(r, b), n) == Plus(BitReg(r, BitsOf(b, n)), Down(b, n))
    decreases n
  {
    hide Plus, Shift, BitStep;
    if n != 0 {
      PeelBit(r, b);
      FeedLowBits(BitStep(r, b & 0x01 == 0x01), b >> 1, n - 1);
      assert BitsOf(b, n)[1..] == BitsOf(b >> 1, n - 1);
    }
  }

  lemma EightShiftsEmpty(b: byte)
    ensures Down(b, 8) == 0
  {
    assert Down(b, 8) == Down(b >> 1 >> 1 >> 1 >> 1, 4);
    assert Down(b, 8) == b >> 1 >> 1 >> 1 >> 1 >> 1 >> 1 >> 1 >> 1;
  }

  lemma ByteStepIsEightBits(r: byte, b: byte)
    ensures ByteStep(r, b) == BitReg(r, BitsOf(b, 8))
  {
    hide Plus, ShiftN, BitReg, BitsOf, Down;
    FeedLowBits(r, b, 8);
    EightShiftsEmpty(b);
    PlusSelf(BitReg(r, BitsOf(b, 8)));
  }

  /** Feeding bytes is feeding their bits, least significant bit first. */
  lemma {:induction false} CrcIsBitSerial(r: byte, d: seq<byte>)
    ensures CrcFrom(r, d) == BitReg(r, Bits(d))
    decreases d
  {
    if d == [] {
    } else {
      hide ByteStep, BitsOf, BitReg;
      ByteStepIsEightBits(r, d[0]);
      CrcIsBitSerial(ByteStep(r, d[0]), d[1..]);
      BitRegAppend(r, BitsOf(d[0], 8), Bits(d[1..]));
    }
  }

  // ------------------------------------------------------- long division

  lemma LowBitLinear(a: byte, b: byte)
    ensures (Plus(a, b) & 0x01 == 0x01) == ((a & 0x01 == 0x01) != (b & 0x01 == 0x01))
    ensures Plus(a, b) >> 1 == Plus(a >> 1, b >> 1)
  {
  }

  lemma {:induction false} BitsLinear(a: byte, b: byte, n: nat)
    ensures BitsOf(Plus(a, b), n) == Add(BitsOf(a, n), BitsOf(b, n))
    decreases n
  {
    hide Plus;
    if n != 0 {
      LowBitLinear(a, b);
      BitsLinear(a >> 1, b >> 1, n - 1);
    }
  }

  lemma {:induction false} BitsSnoc(b: byte, n: nat)
    ensures BitsOf(b, n + 1) == BitsOf(b, n) + [Down(b, n) & 0x01 == 0x01]
    decreases n
  {
    if n != 0 {
      BitsSnoc(b >> 1, n - 1);
    }
  }

  /** Shifting the register right moves every coefficient one degree up. */
  lemma DownBits(t: byte)
    ensures [t & 0x01 == 0x01] + BitsOf(t >> 1, 8) == BitsOf(t, 8) + [false]
  {
    EightShiftsEmpty(t);
    BitsSnoc(t, 8);
    hide Down;
    assert BitsOf(t, 9) == [t & 0x01 == 0x01] + BitsOf(t >> 1, 8);
  }

  lemma {:induction false} ZeroBits(n: nat)
    ensures BitsOf(0, n) == Zeros(n)
  {
    if n != 0 {
      ZeroBits(n - 1);
      assert BitsOf(0, n) == [false] + BitsOf(0, n - 1);
    }
  }

  /** 0x8C is the generator without its leading term, lowest bit first. */
  lemma PolynomialBits()
    ensures BitsOf(0x8C, 8) == GENERATOR[1..]
  {
    assert BitsOf(0x8C, 8) == [false, false, true, true] + BitsOf(0x08, 4);
  }

  lemma ShiftSplits(t: byte)
    ensures Shift(t) == Plus(t >> 1, if t & 0x01 == 0x01 then 0x8C else 0)
  {
  }

  /** What one register shift does to the eight coefficients it holds. */
  lemma ShiftBits(t: byte)
    ensures BitsOf(t, 8)[0] == (t & 0x01 == 0x01)
    ensures BitsOf(Shift(t), 8) == Add(BitsOf(t, 8)[1..] + [false], Scale(t & 0x01 == 0x01, GENERATOR[1..]))
  {
    hide Plus, Shift, BitsOf, Add;
    var bit := t & 0x01 == 0x01;
    ShiftSplits(t);
    BitsLinear(t >> 1, if bit then 0x8C else 0, 8);
    DownBits(t);
    assert ([bit] + BitsOf(t >> 1, 8))[1..] == BitsOf(t >> 1, 8);
    assert ([bit] + BitsOf(t >> 1, 8))[0] == bit;
    assert (BitsOf(t, 8) + [false])[1..] == BitsOf(t, 8)[1..] + [false];
    PolynomialBits();
    ZeroBits(8);
  }

  /** The dividend a bit stream stands for: the stream times x^8, with the initial register
      added to its eight highest coefficients. */
  function Dividend(r: byte, s: seq<bool>): (p: Poly)
    ensures |p| == |s| + 8
  {
    Add(BitsOf(r, 8) + Zeros(|s|), s + Zeros(8))
  }

  lemma {:induction false} BitStepReduces(r: byte, s: seq<bool>)
    requires s != []
    ensures Reduce(Dividend(r, s)) == Dividend(BitStep(r, s[0]), s[1..])
  {
    hide Plus, Shift, BitsOf;
    var x: byte := if s[0] then 1 else 0;
    var t := Plus(r, x);
    BitsLinear(r, x, 8);
    OneBit(s[0]);
    ShiftBits(t);
    var p, q := Dividend(r, s), Dividend(BitStep(r, s[0]), s[1..]);
    forall i | 0 <= i < |q|
      ensures Reduce(p)[i] == q[i]
    {
    }
    assert Reduce(p) == q;
  }

  lemma OneBit(x: bool)
    ensures BitsOf(if x then 1 else 0, 8) == [x] + Zeros(7)
  {
    ZeroBits(7);
    assert BitsOf(1, 8) == [true] + BitsOf(0, 7);
    assert BitsOf(0, 8) == [false] + BitsOf(0, 7);
  }

  /** The register a bit stream leaves is the remainder of long division. */
  lemma {:induction false} BitRegIsRemainder(r: byte, s: seq<bool>)
    ensures Remainder(Dividend(r, s)) == BitsOf(BitReg(r, s), 8)
    decreases s
  {
    hide BitsOf, BitStep, Reduce;
    if s == [] {
      assert Dividend(r, s) == BitsOf(r, 8);
    } else {
      BitStepReduces(r, s);
      BitRegIsRemainder(BitStep(r, s[0]), s[1..]);
    }
  }

  /** The checksum is the remainder, on division by x^8 + x^5 + x^4 + 1, of the message bits
      (least significant first) times x^8, the first eight coefficients complemented. */
  lemma CrcIsRemainder(d: seq<byte>)
    ensures Remainder(Dividend(INITIAL, Bits(d))) == BitsOf(Crc(d), 8)
  {
    hide BitsOf, CrcFrom, BitReg, Dividend, Remainder, Bits;
    CrcIsBitSerial(INITIAL, d);
    BitRegIsRemainder(INITIAL, Bits(d));
  }
}
