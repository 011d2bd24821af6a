/** Which entries of a directory listing give pins: what std::stoul accepts, said without its scanning,
    and that nothing else in the listing matters. */
module GpioListing {
  import opened Wrappers
  import opened Sequences
  import opened GpioMap
  import opened GpioOrder
  import opened GpioNames

  // ------------------------------------------------------------ numbers in names

  predicate AllSpaces(s: string) {
    forall i :: 0 <= i < |s| ==> IsSpace(s[i])
  }

  /** Decimal value, most significant digit first. */
  function Value(digits: string): nat
    requires AllDigits(digits)
  {
    if digits == [] then 0
    else 10 * Value(digits[..|digits| - 1]) + (digits[|digits| - 1] as nat - '0' as nat)
  }

  function Signed(sign: string, v: nat): nat
    requires v < SIZE_RANGE
  {
    if sign == "-" && v > 0 then SIZE_RANGE - v else v
  }

  /** `s` is blanks, at most one sign, digits with a value in range, and a rest that no digit begins. */
  predicate SpelledAs(s: string, blanks: string, sign: string, digits: string, rest: string, n: nat) {
    && s == blanks + sign + digits + rest
    && AllSpaces(blanks) && (sign == "" || sign == "+" || sign == "-")
    && digits != [] && AllDigits(digits) && (rest == [] || !IsDigit(rest[0]))
    && Value(digits) < SIZE_RANGE && n == Signed(sign, Value(digits))
  }

  ghost predicate Spells(s: string, n: nat) {
    exists blanks, sign, digits, rest :: SpelledAs(s, blanks, sign, digits, rest, n)
  }

  lemma {:induction false} DigitsAreValue(d: string)
    requires AllDigits(d)
    ensures Digits(d, 0) == Value(d)
  {
    if d != [] {
      var e, c := d[..|d| - 1], d[|d| - 1];
      DigitsAreValue(e);
      DigitsSnoc(e, c, 0);
      assert d == e + [c];
    }
  }

  lemma {:induction false} DigitsStop(d: string, rest: string, acc: nat)
    requires AllDigits(d) && (rest == [] || !IsDigit(rest[0]))
    ensures Digits(d + rest, acc) == Digits(d, acc)
    decreases d
  {
    if d == [] {
      assert d + rest == rest;
    } else {
      assert (d + rest)[1..] == d[1..] + rest;
      DigitsStop(d[1..], rest, 10 * acc + (d[0] as nat - '0' as nat));
    }
  }

  lemma {:induction false} SpacesSkipped(blanks: string, t: string)
    requires AllSpaces(blanks) && (t == [] || !IsSpace(t[0]))
    ensures SkipSpaces(blanks + t) == t
    decreases blanks
  {
    if blanks == [] {
      assert blanks + t == t;
    } else {
      assert (blanks + t)[1..] == blanks[1..] + t;
      SpacesSkipped(blanks[1..], t);
    }
  }

  lemma {:induction false} SplitSpaces(s: string) returns (blanks: string)
    ensures AllSpaces(blanks) && s == blanks + SkipSpaces(s)
    decreases s
  {
    hide IsSpace;
    if s != [] && IsSpace(s[0]) {
      var b := SplitSpaces(s[1..]);
      blanks := [s[0]] + b;
      assert s == [s[0]] + s[1..];
    } else {
      blanks := [];
    }
  }

  lemma {:induction false} SplitDigits(u: string) returns (digits: string, rest: string)
    ensures u == digits + rest && AllDigits(digits) && (rest == [] || !IsDigit(rest[0]))
    ensures u != [] && IsDigit(u[0]) ==> digits != []
    decreases u
  {
    hide IsDigit;
    if u != [] && IsDigit(u[0]) {
      digits, rest := SplitDigits(u[1..]);
      digits := [u[0]] + digits;
    } else {
      digits, rest := [], u;
    }
  }

  lemma Unsigned(u: string, digits: string, rest: string)
    requires u == digits + rest && digits != [] && AllDigits(digits) && (rest == [] || !IsDigit(rest[0]))
    ensures u != [] && IsDigit(u[0]) && Digits(u, 0) == Value(digits)
  {
    DigitsStop(digits, rest, 0);
    DigitsAreValue(digits);
    assert u[0] == digits[0];
  }

  lemma SpelledParses(s: string, blanks: string, sign: string, digits: string, rest: string, n: nat)
    requires SpelledAs(s, blanks, sign, digits, rest, n)
    ensures Stoul(s) == Some(n)
  {
    var u := digits + rest;
    var t := sign + u;
    Unsigned(u, digits, rest);
    SignFirst(sign, u);
    hide Stoul, Digits, Value, SkipSpaces, IsDigit, IsSpace, AllDigits, AllSpaces, Signed;
    ConcatAssociates(blanks, sign, u);
    ConcatAssociates(blanks + sign, digits, rest);
    SpacesSkipped(blanks, t);
    ReadsAs(s, sign, u, Value(digits));
  }

  /** A sign is no blank, and a digit is neither. */
  lemma SignFirst(sign: string, u: string)
    requires (sign == "" || sign == "+" || sign == "-") && u != [] && IsDigit(u[0])
    ensures sign + u != [] && !IsSpace((sign + u)[0])
    ensures (sign + u)[|sign|..] == u
    ensures sign == "" <==> (sign + u)[0] != '-' && (sign + u)[0] != '+'
  {
    assert (sign + u)[0] == if sign == "" then u[0] else sign[0];
  }

  lemma ReadsAs(s: string, sign: string, u: string, v: nat)
    requires SkipSpaces(s) == sign + u && (sign == "" || sign == "+" || sign == "-")
    requires u != [] && IsDigit(u[0]) && Digits(u, 0) == v < SIZE_RANGE
    ensures Stoul(s) == Some(Signed(sign, v))
  {
    SignFirst(sign, u);
    hide IsDigit, IsSpace, SkipSpaces, Digits;
    assert sign == "" ==> sign + u == u;
    assert sign != "" ==> (sign + u)[1..] == u && (sign + u)[0] == sign[0];
  }

  lemma SignOf(t: string) returns (sign: string, u: string)
    ensures t == sign + u && (sign == "" || sign == "+" || sign == "-")
    ensures sign == "" <==> t == [] || (t[0] != '-' && t[0] != '+')
  {
    if t != [] && (t[0] == '-' || t[0] == '+') {
      sign, u := [t[0]], t[1..];
    } else {
      sign, u := "", t;
    }
  }

  lemma ParsedIsSpelled(s: string, n: nat)
    requires Stoul(s) == Some(n)
    ensures Spells(s, n)
  {
    var blanks := SplitSpaces(s);
    var t := SkipSpaces(s);
    var sign, u := SignOf(t);
    assert sign == "" ==> u == t;
    assert sign != "" ==> u == t[1..];
    assert sign == "-" <==> t != [] && t[0] == '-';
    var digits, rest := SplitDigits(u);
    assert u != [] && IsDigit(u[0]);
    Unsigned(u, digits, rest);
    assert n == Signed(sign, Value(digits));
    hide Stoul, Digits, Value, SkipSpaces, IsDigit, IsSpace, AllDigits, AllSpaces, Signed;
    ConcatAssociates(blanks, sign, u);
    ConcatAssociates(blanks + sign, digits, rest);
    assert SpelledAs(s, blanks, sign, digits, rest, n);
  }

  /** What std::stoul reads, and that it throws on everything else. */
  lemma StoulIff(s: string, n: nat)
    ensures Stoul(s) == Some(n) <==> Spells(s, n)
  {
    hide Stoul, SpelledAs;
    if Stoul(s) == Some(n) {
      ParsedIsSpelled(s, n);
    }
    if Spells(s, n) {
      var blanks, sign, digits, rest :| SpelledAs(s, blanks, sign, digits, rest, n);
      SpelledParses(s, blanks, sign, digits, rest, n);
    }
  }

  // ------------------------------------------------------------ entries without pins

  /** The entry is named as a chip, is one, holds a number, and opens. */
  ghost predicate Contributes(e: Entry) {
    && "gpiochip" <= e.filename && e.isGpio && e.info.Some?
    && exists n :: Spells(e.filename[8..], n)
  }

  ghost function Contributing(es: seq<Entry>): seq<Entry> {
    if es == [] then [] else (if Contributes(es[0]) then [es[0]] else []) + Contributing(es[1..])
  }

  lemma ContributesIff(e: Entry)
    ensures Contributes(e) <==> IsChip(e) && e.info.Some?
  {
    hide Stoul, Spells;
    if PREFIX <= e.filename {
      var s := e.filename[8..];
      if Stoul(s).Some? {
        StoulIff(s, Stoul(s).value);
      }
      if n :| Spells(s, n) {
        StoulIff(s, n);
      }
    }
  }

  /** The others leave no chip with lines. */
  lemma {:induction false} SameLined(es: seq<Entry>)
    ensures Lined(Chips(Contributing(es))) == Lined(Chips(es))
  {
    if es != [] {
      var e, rest := es[0], es[1..];
      SameLined(rest);
      ContributesIff(e);
      assert es == [e] + rest;
      hide Contributes, IsChip;
      ChipsCons(e, rest);
      ChipsCons(e, Contributing(rest));
      LinedAppend(ChipIn(e), Chips(rest));
      LinedAppend(ChipIn(e), Chips(Contributing(rest)));
      if !Contributes(e) {
        NoLines(e);
        assert Contributing(es) == Contributing(rest);
      }
    }
  }

  lemma NoLines(e: Entry)
    requires !(IsChip(e) && e.info.Some?)
    ensures Lined(ChipIn(e)) == []
  {
    hide Stoul;
    if IsChip(e) {
      assert [ChipOf(e)][1..] == [];
    }
  }

  ghost predicate MapOfChips(cs: seq<Chip>, m: PinMap) {
    exists ds: seq<Chip> :: Ordered(ds) && multiset(ds) == multiset(cs) && Numbers(m, Pins(ds))
  }

  function Unlined(cs: seq<Chip>): seq<Chip> {
    if cs == [] then [] else (if Lines(cs[0]) == 0 then [cs[0]] else []) + Unlined(cs[1..])
  }

  lemma {:induction false} LinedOrNot(cs: seq<Chip>)
    ensures multiset(cs) == multiset(Lined(cs)) + multiset(Unlined(cs))
    ensures forall c :: c in Unlined(cs) ==> Lines(c) == 0
  {
    if cs != [] {
      LinedOrNot(cs[1..]);
      assert cs == [cs[0]] + cs[1..];
    }
  }

  lemma PlacedQuietly(cs: seq<Chip>, c: Chip) returns (r: seq<Chip>)
    requires Ordered(cs) && Lines(c) == 0
    ensures Ordered(r) && multiset(r) == multiset(cs) + multiset{c} && Pins(r) == Pins(cs)
  {
    var j := |cs|;
    while j > 0 && c.ordinal < cs[j - 1].ordinal
      invariant 0 <= j <= |cs|
      invariant forall k :: j <= k < |cs| ==> c.ordinal < cs[k].ordinal
    {
      j := j - 1;
    }
    InsertOrdered(cs, j, c);
    InsertMultiset(cs, j, c);
    PinsUnchanged(cs, j, c);
    r := cs[..j] + [c] + cs[j..];
  }

  lemma PinsUnchanged(cs: seq<Chip>, j: nat, c: Chip)
    requires j <= |cs| && Lines(c) == 0
    ensures Pins(cs[..j] + [c] + cs[j..]) == Pins(cs)
  {
    hide *;
    var front, back := cs[..j], cs[j..];
    PinsAppend(front + [c], back);
    PinsAppend(front, [c]);
    PinsAppend(front, back);
    PinsOfNone(c);
    TakeThenDrop(cs, j);
    assert Pins(front) + [] == Pins(front);
  }

  lemma PinsOfNone(c: Chip)
    requires Lines(c) == 0
    ensures Pins([c]) == []
  {
    assert [c][1..] == [];
  }

  lemma {:induction false} AllPlaced(cs: seq<Chip>, more: seq<Chip>) returns (r: seq<Chip>)
    requires Ordered(cs) && forall c :: c in more ==> Lines(c) == 0
    ensures Ordered(r) && multiset(r) == multiset(cs) + multiset(more) && Pins(r) == Pins(cs)
    decreases more
  {
    hide Ordered, Pins, Lines;
    if more == [] {
      r := cs;
    } else {
      r := AllPlaced(cs, more[1..]);
      r := PlacedQuietly(r, more[0]);
      assert more == [more[0]] + more[1..];
    }
  }

  /** Only the chips with lines decide the map. */
  lemma LinedDecide(cs: seq<Chip>, m: PinMap)
    ensures MapOfChips(cs, m) <==> MapOfChips(Lined(cs), m)
  {
    hide Ordered, Pins, Lined, Numbers;
    if MapOfChips(cs, m) {
      var ds: seq<Chip> :| Ordered(ds) && multiset(ds) == multiset(cs) && Numbers(m, Pins(ds));
      LinedOrdered(ds);
      LinedPermute(ds, cs);
      LinedPins(ds);
    }
    if MapOfChips(Lined(cs), m) {
      var ds: seq<Chip> :| Ordered(ds) && multiset(ds) == multiset(Lined(cs)) && Numbers(m, Pins(ds));
      LinedOrNot(cs);
      var r := AllPlaced(ds, Unlined(cs));
    }
  }

  /** A listing gives the maps that its contributing entries alone would give: names without the prefix or
      without a number, other devices, and chips that do not open add no pins. */
  lemma OthersAddNothing(es: seq<Entry>, m: PinMap)
    ensures MapOf(es, m) <==> MapOf(Contributing(es), m)
  {
    hide *;
    SameLined(es);
    LinedDecide(Chips(es), m);
    LinedDecide(Chips(Contributing(es)), m);
    MapIsOfChips(es, m);
    MapIsOfChips(Contributing(es), m);
  }

  lemma MapIsOfChips(es: seq<Entry>, m: PinMap)
    ensures MapOf(es, m) <==> MapOfChips(Chips(es), m)
  {
    hide Ordered, Chips, Pins, Numbers;
  }

  /** A link called "gpiochips", though it opens to a chip with four lines, gives no pins. */
  lemma NamelessIgnored(m: PinMap)
    ensures MapOf([Entry("gpiochips", true, Some(ChipInfo("gpiochip0", 4)))], m) <==> m == map[]
  {
    var e := Entry("gpiochips", true, Some(ChipInfo("gpiochip0", 4)));
    assert e.filename[|PREFIX|..] == "s" && Stoul("s") == None;
    ContributesIff(e);
    OthersAddNothing([e], m);
    assert Contributing([e]) == [] by {
      assert [e][1..] == [];
    }
    hide *;
    EmptyListing(m);
  }

  lemma EmptyListing(m: PinMap)
    ensures MapOf([], m) <==> m == map[]
  {
    if m == map[] {
      var cs: seq<Chip> := [];
      assert Ordered(cs) && multiset(cs) == multiset(Chips([])) && Numbers(m, Pins(cs));
    }
    if MapOf([], m) {
      var cs: seq<Chip> :| Ordered(cs) && multiset(cs) == multiset(Chips([])) && Numbers(m, Pins(cs));
      assert |multiset(cs)| == |cs|;
      assert forall p: nat :: p !in m;
    }
  }
}
