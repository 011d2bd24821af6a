/** getGpioMap, libgpiod 2 path: one dense pin index over the GPIO chips of a directory listing,
    and the resolver that looks pins up in it. */
module GpioMap {
  import opened Wrappers
  import opened Sequences

  const PREFIX := "gpiochip"

  /** The width of std::size_t and of unsigned long, which agree on Linux: either of the two. */
  type WordBits = n: nat | n == 32 || n == 64 witness 64
  const WORD_BITS: WordBits
  const SIZE_RANGE: nat := if WORD_BITS == 32 then 0x1_0000_0000 else 0x1_0000_0000_0000_0000

  datatype ChipInfo = ChipInfo(name: string, lines: nat)

  /** A directory entry: whether the kernel says it is a GPIO chip, and what opening it reports,
      None when that throws. */
  datatype Entry = Entry(filename: string, isGpio: bool, info: Option<ChipInfo>)

  /** An element of the `chips` vector. */
  datatype Chip = Chip(ordinal: nat, info: Option<ChipInfo>)

  type PinMap = map<nat, (string, nat)>

  // ------------------------------------------------------------ std::stoul

  predicate IsSpace(c: char) {
    c == ' ' || '\t' <= c <= '\r'
  }

  predicate IsDigit(c: char) {
    '0' <= c <= '9'
  }

  function SkipSpaces(s: string): string {
    if s != [] && IsSpace(s[0]) then SkipSpaces(s[1..]) else s
  }

  /** The value of the leading digits, from `acc`. */
  function Digits(s: string, acc: nat): nat
    decreases s
  {
    if s != [] && IsDigit(s[0]) then Digits(s[1..], 10 * acc + (s[0] as nat - '0' as nat)) else acc
  }

  /** Base ten: blanks, an optional sign, digits, then anything. No digits, or a value out of
      range, throws; a minus sign negates modulo the range. */
  function Stoul(s: string): Option<nat> {
    var t := SkipSpaces(s);
    var signed := t != [] && (t[0] == '-' || t[0] == '+');
    var u := if signed then t[1..] else t;
    if u == [] || !IsDigit(u[0]) || Digits(u, 0) >= SIZE_RANGE then None
    else if signed && t[0] == '-' then Some((SIZE_RANGE - Digits(u, 0)) % SIZE_RANGE)
    else Some(Digits(u, 0))
  }

  // ------------------------------------------------------------ specification

  predicate IsChip(e: Entry) {
    PREFIX <= e.filename && e.isGpio && Stoul(e.filename[|PREFIX|..]).Some?
  }

  function ChipOf(e: Entry): Chip
    requires IsChip(e)
  {
    Chip(Stoul(e.filename[|PREFIX|..]).value, e.info)
  }

  /** Non-chips and names without an ordinal contribute nothing. */
  function ChipIn(e: Entry): seq<Chip> {
    if IsChip(e) then [ChipOf(e)] else []
  }

  /** The chips of a listing, in listing order. */
  function Chips(es: seq<Entry>): seq<Chip> {
    if es == [] then [] else ChipIn(es[0]) + Chips(es[1..])
  }

  /** A chip that cannot be opened has no lines. */
  function Lines(c: Chip): nat {
    if c.info.Some? then c.info.value.lines else 0
  }

  function Total(cs: seq<Chip>): nat {
    if cs == [] then 0 else Lines(cs[0]) + Total(cs[1..])
  }

  predicate Ordered(cs: seq<Chip>) {
    forall i, j :: 0 <= i < j < |cs| ==> cs[i].ordinal <= cs[j].ordinal
  }

  predicate DistinctOrdinals(cs: seq<Chip>) {
    forall i, j :: 0 <= i < j < |cs| ==> cs[i].ordinal != cs[j].ordinal
  }

  /** The first `n` lines of a chip, as the pairs the map holds. */
  function LinePairs(name: string, n: nat): (ps: seq<(string, nat)>)
    ensures |ps| == n
    ensures forall l :: 0 <= l < n ==> ps[l] == (name, l)
  {
    seq(n, l => (name, l))
  }

  function ChipPins(c: Chip): (ps: seq<(string, nat)>)
    ensures |ps| == Lines(c)
  {
    if c.info.Some? then LinePairs(c.info.value.name, c.info.value.lines) else []
  }

  /** The lines of the chips, one chip after another. */
  function Pins(cs: seq<Chip>): (ps: seq<(string, nat)>)
    ensures |ps| == Total(cs)
  {
    if cs == [] then [] else ChipPins(cs[0]) + Pins(cs[1..])
  }

  /** The map numbers the list densely from zero. */
  ghost predicate Numbers(m: PinMap, ps: seq<(string, nat)>) {
    && (forall p: nat :: p in m <==> p < |ps|)
    && (forall p: nat {:trigger m[p]} :: p < |ps| ==> m[p] == ps[p])
  }

  /** What the source may return: std::sort fixes the order up to chips of equal ordinal. */
  ghost predicate MapOf(es: seq<Entry>, m: PinMap) {
    exists cs: seq<Chip> :: Ordered(cs) && multiset(cs) == multiset(Chips(es)) && Numbers(m, Pins(cs))
  }

  // ------------------------------------------------------------ the algorithm

  lemma InsertOrdered(cs: seq<Chip>, j: nat, c: Chip)
    requires Ordered(cs) && j <= |cs|
    requires forall k :: 0 <= k < j ==> cs[k].ordinal <= c.ordinal
    requires forall k :: j <= k < |cs| ==> c.ordinal < cs[k].ordinal
    ensures Ordered(cs[..j] + [c] + cs[j..])
  {
  }

  lemma InsertMultiset(cs: seq<Chip>, j: nat, c: Chip)
    requires j <= |cs|
    ensures multiset(cs[..j] + [c] + cs[j..]) == multiset(cs) + multiset{c}
  {
    assert cs == cs[..j] + cs[j..];
  }

  /** std::sort with a comparison of ordinals. */
  method Sort(chips: seq<Chip>) returns (sorted: seq<Chip>)
    ensures Ordered(sorted) && multiset(sorted) == multiset(chips)
  {
    sorted := [];
    for i := 0 to |chips|
      invariant Ordered(sorted) && multiset(sorted) == multiset(chips[..i])
    {
      var c, j := chips[i], |sorted|;
      while j > 0 && c.ordinal < sorted[j - 1].ordinal
        invariant 0 <= j <= |sorted|
        invariant forall k :: j <= k < |sorted| ==> c.ordinal < sorted[k].ordinal
      {
        j := j - 1;
      }
      InsertOrdered(sorted, j, c);
      InsertMultiset(sorted, j, c);
      assert chips[..i + 1] == chips[..i] + [c];
      sorted := sorted[..j] + [c] + sorted[j..];
    }
    assert chips[..|chips|] == chips;
  }

  /** The directory loop. */
  method LoadChips(entries: seq<Entry>) returns (chips: seq<Chip>)
    ensures chips == Chips(entries)
  {
    chips := [];
    for i := 0 to |entries|
      invariant chips + Chips(entries[i..]) == Chips(entries)
    {
      var e := entries[i];
      assert entries[i..][1..] == entries[i + 1..];
      if PREFIX <= e.filename {
        if e.isGpio {
          var ordinal := Stoul(e.filename[|PREFIX|..]);
          if ordinal.Some? {
            chips := chips + [Chip(ordinal.value, e.info)];
          }
        }
      }
    }
  }

  lemma NumbersOneMore(m: PinMap, ps: seq<(string, nat)>, pin: (string, nat))
    requires Numbers(m, ps)
    ensures Numbers(m[|ps| := pin], ps + [pin])
  {
  }

  /** The inner loop: one chip's lines take the next pin numbers. */
  method NumberLines(m: PinMap, npin: nat, info: ChipInfo, ghost listed: seq<(string, nat)>)
    returns (r: PinMap, next: nat)
    requires Numbers(m, listed) && npin == |listed|
    ensures Numbers(r, listed + LinePairs(info.name, info.lines)) && next == npin + info.lines
  {
    r, next := m, npin;
    assert listed + LinePairs(info.name, 0) == listed;
    for line := 0 to info.lines
      invariant next == npin + line && Numbers(r, listed + LinePairs(info.name, line))
    {
      hide *;
      ghost var done := listed + LinePairs(info.name, line);
      NumbersOneMore(r, done, (info.name, line));
      assert done + [(info.name, line)] == listed + LinePairs(info.name, line + 1);
      r := r[next := (info.name, line)];
      next := next + 1;
    }
  }

  lemma PinsCons(c: Chip, cs: seq<Chip>)
    ensures Pins([c] + cs) == ChipPins(c) + Pins(cs)
  {
    assert ([c] + cs)[1..] == cs;
  }

  lemma {:induction false} PinsAppend(a: seq<Chip>, b: seq<Chip>)
    ensures Pins(a + b) == Pins(a) + Pins(b)
    decreases a
  {
    if a == [] {
      assert a + b == b;
    } else {
      hide Pins, ChipPins, Lines, Total;
      var c, rest := a[0], a[1..];
      PinsCons(c, rest);
      PinsCons(c, rest + b);
      PinsAppend(rest, b);
      ConcatAssociates(ChipPins(c), Pins(rest), Pins(b));
      ConcatAssociates([c], rest, b);
      assert a == [c] + rest;
    }
  }

  lemma PinsSnoc(cs: seq<Chip>, k: nat)
    requires k < |cs|
    ensures Pins(cs[..k + 1]) == Pins(cs[..k]) + ChipPins(cs[k])
  {
    PinsAppend(cs[..k], [cs[k]]);
    assert cs[..k + 1] == cs[..k] + [cs[k]];
    assert [cs[k]][1..] == [];
  }

  /** The outer loop. */
  method NumberPins(chips: seq<Chip>) returns (m: PinMap)
    ensures Numbers(m, Pins(chips))
  {
    m := map[];
    var npin: nat := 0;
    for k := 0 to |chips|
      invariant npin == |Pins(chips[..k])| && Numbers(m, Pins(chips[..k]))
    {
      PinsSnoc(chips, k);
      hide Numbers, Pins, Total;
      match chips[k].info {
        case None =>
        case Some(info) =>
          m, npin := NumberLines(m, npin, info, Pins(chips[..k]));
      }
    }
    assert chips[..|chips|] == chips;
  }

  method GetGpioMap(entries: seq<Entry>) returns (m: PinMap)
    ensures MapOf(entries, m)
  {
    var chips := LoadChips(entries);
    chips := Sort(chips);
    m := NumberPins(chips);
  }

  // ------------------------------------------------------------ prefix sums

  /** Pin `p` is line `at.1` of chip `k`, counted from the lines of the chips before it. */
  predicate IsLine(cs: seq<Chip>, k: nat, p: nat, at: (string, nat))
    requires k < |cs|
  {
    cs[k].info.Some? && at.0 == cs[k].info.value.name && at.1 < Lines(cs[k]) && p == Total(cs[..k]) + at.1
  }

  lemma IsLineShifts(c: Chip, cs: seq<Chip>, k: nat, p: nat, at: (string, nat))
    requires k < |cs|
    ensures IsLine([c] + cs, k + 1, p + Lines(c), at) <==> IsLine(cs, k, p, at)
  {
    assert ([c] + cs)[..k + 1][1..] == cs[..k];
  }

  lemma IsLineFirst(c: Chip, cs: seq<Chip>, p: nat, at: (string, nat))
    ensures IsLine([c] + cs, 0, p, at) <==> p < Lines(c) && ChipPins(c)[p] == at
  {
  }

  ghost predicate HasLine(cs: seq<Chip>, p: nat, at: (string, nat)) {
    exists k :: 0 <= k < |cs| && IsLine(cs, k, p, at)
  }

  lemma HasLineCons(c: Chip, cs: seq<Chip>, p: nat, at: (string, nat))
    ensures HasLine([c] + cs, p, at)
       <==> if p < Lines(c) then ChipPins(c)[p] == at else HasLine(cs, p - Lines(c), at)
  {
    hide IsLine;
    var all := [c] + cs;
    IsLineFirst(c, cs, p, at);
    if k :| 0 <= k < |all| && IsLine(all, k, p, at) {
      if k > 0 {
        IsLineShifts(c, cs, k - 1, if p < Lines(c) then p else p - Lines(c), at);
        if p < Lines(c) {
          LaterLinesLater(c, cs, k - 1, p, at);
        }
      }
    }
    if p >= Lines(c) && HasLine(cs, p - Lines(c), at) {
      var k :| 0 <= k < |cs| && IsLine(cs, k, p - Lines(c), at);
      IsLineShifts(c, cs, k, p - Lines(c), at);
    }
  }

  lemma LaterLinesLater(c: Chip, cs: seq<Chip>, k: nat, p: nat, at: (string, nat))
    requires k < |cs| && p < Lines(c)
    ensures !IsLine([c] + cs, k + 1, p, at)
  {
    assert ([c] + cs)[..k + 1][1..] == cs[..k];
  }

  /** Pin `p` is (chip, line) iff it is the line counts of the earlier chips plus the line. */
  lemma {:induction false} PrefixSums(cs: seq<Chip>, p: nat, at: (string, nat))
    ensures p < |Pins(cs)| && Pins(cs)[p] == at <==> HasLine(cs, p, at)
    decreases cs
  {
    if cs != [] {
      hide HasLine, ChipPins;
      assert cs == [cs[0]] + cs[1..];
      HasLineCons(cs[0], cs[1..], p, at);
      if p >= Lines(cs[0]) {
        PrefixSums(cs[1..], p - Lines(cs[0]), at);
      }
    }
  }
}
