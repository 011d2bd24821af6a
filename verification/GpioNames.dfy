/** The names the kernel gives: "gpiochip" and a decimal number. In a directory, whose names are
    distinct, such chips have distinct ordinals; other names may share one. */
module GpioNames {
  import opened Wrappers
  import opened GpioMap
  import opened GpioOrder

  function DigitChar(n: nat): (c: char)
    requires n < 10
    ensures IsDigit(c) && c as nat - '0' as nat == n
  {
    ('0' as nat + n) as char
  }

  /** Decimal notation without leading zeros. */
  function Decimal(n: nat): (s: string)
    ensures s != []
  {
    if n < 10 then [DigitChar(n)] else Decimal(n / 10) + [DigitChar(n % 10)]
  }

  predicate AllDigits(s: string) {
    forall i :: 0 <= i < |s| ==> IsDigit(s[i])
  }

  lemma {:induction false} DigitsSnoc(s: string, c: char, acc: nat)
    requires AllDigits(s) && IsDigit(c)
    ensures Digits(s + [c], acc) == 10 * Digits(s, acc) + (c as nat - '0' as nat)
    decreases s
  {
    if s == [] {
      assert s + [c] == [c];
      assert [c][1..] == [];
    } else {
      assert (s + [c])[1..] == s[1..] + [c];
      DigitsSnoc(s[1..], c, 10 * acc + (s[0] as nat - '0' as nat));
    }
  }

  lemma {:induction false} DecimalDigits(n: nat)
    ensures AllDigits(Decimal(n)) && Digits(Decimal(n), 0) == n
  {
    if n < 10 {
      assert Decimal(n)[1..] == [];
    } else {
      DecimalDigits(n / 10);
      DigitsSnoc(Decimal(n / 10), DigitChar(n % 10), 0);
    }
  }

  /** std::stoul reads back what decimal notation writes, as far as it fits. */
  lemma StoulRoundTrip(n: nat)
    ensures Stoul(Decimal(n)) == if n < SIZE_RANGE then Some(n) else None
  {
    DecimalDigits(n);
    assert IsDigit(Decimal(n)[0]);
  }

  predicate KernelNamed(e: Entry, n: nat) {
    n < SIZE_RANGE && e.filename == PREFIX + Decimal(n)
  }

  /** Every chip of the listing has a kernel name, and no two entries have one name. */
  ghost predicate KernelListing(es: seq<Entry>) {
    && (forall i :: 0 <= i < |es| && IsChip(es[i]) ==> exists n :: KernelNamed(es[i], n))
    && (forall i, j :: 0 <= i < j < |es| ==> es[i].filename != es[j].filename)
  }

  lemma OrdinalOf(e: Entry, n: nat)
    requires IsChip(e) && KernelNamed(e, n)
    ensures ChipOf(e).ordinal == n
  {
    StoulRoundTrip(n);
    assert (PREFIX + Decimal(n))[|PREFIX|..] == Decimal(n);
  }

  lemma {:induction false} ChipsFrom(es: seq<Entry>, k: nat) returns (i: nat)
    requires k < |Chips(es)|
    ensures i < |es| && IsChip(es[i]) && Chips(es)[k] == ChipOf(es[i])
    decreases es
  {
    hide IsChip;
    var h := |ChipIn(es[0])|;
    if k < h {
      i := 0;
    } else {
      i := ChipsFrom(es[1..], k - h);
      i := i + 1;
    }
  }

  /** So for the names the kernel gives, the map does not depend on the order of the listing. */
  lemma {:induction false} KernelNamesDistinct(es: seq<Entry>)
    requires KernelListing(es)
    ensures DistinctOrdinals(Chips(es)) && Unambiguous(Chips(es))
    decreases es
  {
    if es != [] {
      KernelNamesDistinct(es[1..]);
      ChipsCons(es[0], es[1..]);
      assert es == [es[0]] + es[1..];
      if IsChip(es[0]) {
        var n :| KernelNamed(es[0], n);
        OrdinalOf(es[0], n);
        forall k | 0 <= k < |Chips(es[1..])|
          ensures Chips(es[1..])[k].ordinal != n
        {
          var i := ChipsFrom(es[1..], k);
          assert es[1..][i] == es[i + 1];
          var m :| KernelNamed(es[i + 1], m);
          OrdinalOf(es[i + 1], m);
        }
      }
    }
    DistinctUnambiguous(Chips(es));
  }

  // ------------------------------------------------------------ names that collide

  lemma OrdinalOne()
    ensures Stoul("1") == Some(1) && Stoul("01") == Some(1)
  {
    assert "1"[1..] == "" && "01"[1..] == "1";
    assert Digits("1", 0) == 1;
    assert Digits("01", 0) == 1;
  }

  /** A directory can hold competing chips: a chip, and a link to another one under a name with the same
      ordinal. Its map is then not determined. */
  lemma CompetingListing() returns (a: Entry, b: Entry, m: PinMap, n: PinMap)
    ensures a == Entry("gpiochip1", true, Some(ChipInfo("gpiochip1", 1)))
    ensures b == Entry("gpiochip01", true, Some(ChipInfo("gpiochip0", 1)))
    ensures !Unambiguous(Chips([a, b])) && MapOf([a, b], m) && MapOf([a, b], n) && m != n
  {
    a := Entry("gpiochip1", true, Some(ChipInfo("gpiochip1", 1)));
    b := Entry("gpiochip01", true, Some(ChipInfo("gpiochip0", 1)));
    var c, d := Chip(1, a.info), Chip(1, b.info);
    ChipOne("1", a.info);
    ChipOne("01", b.info);
    hide *;
    assert PREFIX + "1" == "gpiochip1" && PREFIX + "01" == "gpiochip01";
    TwoChips(a, b, c, d);
    m, n := CompetingChipsAmbiguous([a, b], c, d);
  }

  lemma ChipOne(digits: string, info: Option<ChipInfo>)
    requires digits == "1" || digits == "01"
    ensures ChipIn(Entry(PREFIX + digits, true, info)) == [Chip(1, info)]
  {
    OrdinalOne();
    assert (PREFIX + digits)[|PREFIX|..] == digits;
  }

  lemma TwoChips(a: Entry, b: Entry, c: Chip, d: Chip)
    requires ChipIn(a) == [c] && ChipIn(b) == [d] && Compete(c, d)
    ensures c in Chips([a, b]) && d in Chips([a, b]) && Compete(c, d) && !Unambiguous(Chips([a, b]))
  {
    hide ChipIn;
    ChipsCons(a, [b]);
    ChipsCons(b, []);
    assert [a] + [b] == [a, b] && [b] + [] == [b];
    assert Chips([a, b]) == [c, d];
  }
}
