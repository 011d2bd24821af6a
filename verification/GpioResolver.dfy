/** GpioResolver::resolveGpioPin: a signed pin number looked up in the unsigned index. */
module GpioResolver {
  import opened GpioMap
  import opened GpioOrder

  newtype int64 = x: int | -0x8000_0000_0000_0000 <= x < 0x8000_0000_0000_0000

  /** The implicit conversion of the lookup key to std::size_t. */
  function AsSize(pin: int64): (key: nat)
    ensures key < SIZE_RANGE && exists q: int :: pin as int == q * SIZE_RANGE + key
  {
    assert pin as int == (pin as int / SIZE_RANGE) * SIZE_RANGE + pin as int % SIZE_RANGE;
    pin as int % SIZE_RANGE
  }

  /** The two reference parameters of the source. */
  class PinSlot {
    var chip: string
    var line: nat

    constructor (chip: string, line: nat)
      ensures this.chip == chip && this.line == line
    {
      this.chip, this.line := chip, line;
    }
  }

  class Resolver {
    const gpioMap: PinMap

    constructor (m: PinMap)
      ensures gpioMap == m
    {
      gpioMap := m;
    }

    /** False stands for the exception; the reference parameters are then untouched. */
    method ResolveGpioPin(pin: int64, slot: PinSlot) returns (found: bool)
      modifies slot
      ensures found <==> AsSize(pin) in gpioMap
      ensures found ==> (slot.chip, slot.line) == gpioMap[AsSize(pin)]
      ensures !found ==> unchanged(slot)
    {
      var key := AsSize(pin);
      if key !in gpioMap {
        return false;
      }
      var pair := gpioMap[key];
      slot.chip := pair.0;
      slot.line := pair.1;
      return true;
    }
  }

  /** What the conversion makes of a pin. */
  lemma Converted(pin: int64)
    ensures WORD_BITS == 64 ==> AsSize(pin) == if pin < 0 then pin as int + SIZE_RANGE else pin as int
    ensures WORD_BITS == 32 && -0x1_0000_0000 <= pin < 0x1_0000_0000
        ==> AsSize(pin) == if pin < 0 then pin as int + SIZE_RANGE else pin as int
    ensures WORD_BITS == 32 ==> AsSize(pin) == pin as int % 0x1_0000_0000
  {
  }

  /** Over a map built from a listing, with a 64-bit std::size_t: a pin resolves iff it lies below the
      total line count, except that a negative pin resolves when the count exceeds 2^64 plus it. With a
      32-bit one every pin resolves as its remainder by 2^32. */
  lemma ResolvesExactly(es: seq<Entry>, m: PinMap, pin: int64)
    requires MapOf(es, m)
    ensures WORD_BITS == 64 ==> (AsSize(pin) in m
       <==> (0 <= pin && pin as int < Total(Chips(es))) || (pin < 0 && pin as int + SIZE_RANGE < Total(Chips(es))))
    ensures WORD_BITS == 32 ==> (AsSize(pin) in m <==> pin as int % 0x1_0000_0000 < Total(Chips(es)))
  {
    Dense(es, m);
    Converted(pin);
    hide AsSize, Total, Chips;
  }

  /** The most lines for which every negative pin is refused. */
  function NegativeLimit(): nat {
    if WORD_BITS == 64 then 0x8000_0000_0000_0000 else 0
  }

  /** Every negative pin is refused iff there are at most 2^63 lines, or, with a 32-bit size, none. */
  lemma NegativePinsRefused(es: seq<Entry>, m: PinMap)
    requires MapOf(es, m)
    ensures (forall pin: int64 :: pin < 0 ==> AsSize(pin) !in m) <==> Total(Chips(es)) <= NegativeLimit()
  {
    Dense(es, m);
    var least: int64 := if WORD_BITS == 64 then -0x8000_0000_0000_0000 else -0x1_0000_0000;
    Converted(least);
    forall pin: int64
      ensures WORD_BITS == 64 ==> AsSize(pin) == if pin < 0 then pin as int + SIZE_RANGE else pin as int
    {
      Converted(pin);
    }
    hide AsSize, Total, Chips;
    assert AsSize(least) == NegativeLimit();
  }

  /** The resolver knows exactly the pins below the line count, and each by its own number, iff there
      are no lines, or a 64-bit size and at most 2^63 of them. */
  lemma ResolvesAsNumbered(es: seq<Entry>, m: PinMap)
    requires MapOf(es, m)
    ensures (forall pin: int64 :: AsSize(pin) in m <==> 0 <= pin && pin as int < Total(Chips(es)))
       <==> Total(Chips(es)) <= NegativeLimit()
  {
    NegativePinsRefused(es, m);
    Dense(es, m);
    forall pin: int64
      ensures WORD_BITS == 64 ==> AsSize(pin) == if pin < 0 then pin as int + SIZE_RANGE else pin as int
    {
      Converted(pin);
    }
    hide AsSize, Total, Chips;
  }
}
