/** What the pin index owes to the order of the directory listing: nothing, exactly when no two
    chips compete for an ordinal; and the numbering that then results. */
module GpioOrder {
  import opened Sequences
  import opened GpioMap

  // ------------------------------------------------------------ order independence

  lemma ChipsCons(e: Entry, es: seq<Entry>)
    ensures Chips([e] + es) == ChipIn(e) + Chips(es)
  {
    hide ChipIn;
    assert ([e] + es)[1..] == es;
  }

  lemma {:induction false} ChipsOfSplit(a: seq<Entry>, b: seq<Entry>)
    ensures Chips(a + b) == Chips(a) + Chips(b)
    decreases a
  {
    if a == [] {
      assert a + b == b;
    } else {
      hide Chips, ChipIn;
      var e, rest := a[0], a[1..];
      ChipsCons(e, rest);
      ChipsCons(e, rest + b);
      ChipsOfSplit(rest, b);
      ConcatAssociates(ChipIn(e), Chips(rest), Chips(b));
      ConcatAssociates([e], rest, b);
      assert a == [e] + rest;
    }
  }

  lemma RemoveAt<T>(s: seq<T>, j: nat)
    requires j < |s|
    ensures s == s[..j] + [s[j]] + s[j + 1..]
    ensures multiset(s[..j] + s[j + 1..]) == multiset(s) - multiset{s[j]}
  {
    var front, back := s[..j], s[j + 1..];
    assert s == front + [s[j]] + back;
    assert multiset(s) == multiset(front) + multiset{s[j]} + multiset(back);
  }

  lemma ChipsRemove(es: seq<Entry>, j: nat)
    requires j < |es|
    ensures multiset(Chips(es)) == multiset(Chips([es[j]])) + multiset(Chips(es[..j] + es[j + 1..]))
  {
    hide Chips;
    var front, e, back := es[..j], es[j], es[j + 1..];
    assert es == front + [e] + back;
    ChipsOfSplit(front, [e]);
    ChipsOfSplit(front + [e], back);
    ChipsOfSplit(front, back);
  }

  /** The chips found do not depend on the order of the listing. */
  lemma {:induction false} ChipsPermute(a: seq<Entry>, b: seq<Entry>)
    requires multiset(a) == multiset(b)
    ensures multiset(Chips(a)) == multiset(Chips(b))
    decreases |a|
  {
    hide Chips;
    if a == [] {
      assert |multiset(b)| == |b|;
    } else {
      assert a[0] in multiset(b);
      var j :| 0 <= j < |b| && b[j] == a[0];
      RemoveAt(a, 0);
      RemoveAt(b, j);
      ChipsRemove(a, 0);
      ChipsRemove(b, j);
      ChipsPermute(a[..0] + a[1..], b[..j] + b[j + 1..]);
    }
  }

  lemma {:induction false} DistinctPermutes(a: seq<Chip>, b: seq<Chip>)
    requires multiset(a) == multiset(b) && DistinctOrdinals(a)
    ensures DistinctOrdinals(b)
  {
    forall i, j | 0 <= i < j < |b|
      ensures b[i].ordinal != b[j].ordinal
    {
      if b[i].ordinal == b[j].ordinal {
        var x, y := b[i], b[j];
        assert b == b[..i] + [x] + b[i + 1..j] + [y] + b[j + 1..];
        assert multiset{x, y} <= multiset(b);
        assert x in multiset(a) && y in multiset(a);
        var p :| 0 <= p < |a| && a[p] == x;
        var q :| 0 <= q < |a| && a[q] == y;
        assert p == q;
        OccursOnce(a, p);
      }
    }
  }

  lemma OccursOnce(a: seq<Chip>, p: nat)
    requires DistinctOrdinals(a) && p < |a|
    ensures multiset(a)[a[p]] == 1
  {
    assert a == a[..p] + [a[p]] + a[p + 1..];
    assert a[p] !in a[..p] && a[p] !in a[p + 1..];
  }

  /** The chips that contribute pins. */
  function Lined(cs: seq<Chip>): seq<Chip> {
    if cs == [] then [] else (if Lines(cs[0]) > 0 then [cs[0]] else []) + Lined(cs[1..])
  }

  lemma {:induction false} LinedMembers(cs: seq<Chip>, i: nat)
    requires i < |Lined(cs)|
    ensures Lined(cs)[i] in cs && Lines(Lined(cs)[i]) > 0
    decreases cs
  {
    var h := if Lines(cs[0]) > 0 then 1 else 0;
    if i >= h {
      LinedMembers(cs[1..], i - h);
    }
  }

  lemma {:induction false} LinedOrdered(cs: seq<Chip>)
    requires Ordered(cs)
    ensures Ordered(Lined(cs))
    decreases cs
  {
    if cs != [] {
      LinedOrdered(cs[1..]);
      forall i | 0 <= i < |Lined(cs[1..])|
        ensures cs[0].ordinal <= Lined(cs[1..])[i].ordinal
      {
        LinedMembers(cs[1..], i);
      }
    }
  }

  lemma {:induction false} LinedPins(cs: seq<Chip>)
    ensures Pins(Lined(cs)) == Pins(cs)
    decreases cs
  {
    if cs != [] {
      LinedPins(cs[1..]);
      if Lines(cs[0]) > 0 {
        PinsCons(cs[0], Lined(cs[1..]));
      } else {
        assert ChipPins(cs[0]) == [];
        assert Lined(cs) == Lined(cs[1..]);
      }
    }
  }

  lemma {:induction false} LinedAppend(a: seq<Chip>, b: seq<Chip>)
    ensures Lined(a + b) == Lined(a) + Lined(b)
    decreases a
  {
    if a == [] {
      assert a + b == b;
    } else {
      hide Lines;
      assert (a + b)[1..] == a[1..] + b && (a + b)[0] == a[0];
      LinedAppend(a[1..], b);
    }
  }

  lemma LinedRemove(cs: seq<Chip>, j: nat)
    requires j < |cs|
    ensures multiset(Lined(cs)) == multiset(Lined([cs[j]])) + multiset(Lined(cs[..j] + cs[j + 1..]))
  {
    hide Lined;
    var front, c, back := cs[..j], cs[j], cs[j + 1..];
    assert cs == front + [c] + back;
    LinedAppend(front, [c]);
    LinedAppend(front + [c], back);
    LinedAppend(front, back);
  }

  lemma {:induction false} LinedPermute(a: seq<Chip>, b: seq<Chip>)
    requires multiset(a) == multiset(b)
    ensures multiset(Lined(a)) == multiset(Lined(b))
    decreases |a|
  {
    hide Lined;
    assert |multiset(a)| == |a| && |multiset(b)| == |b|;
    if a != [] {
      assert a[0] in multiset(b);
      var j :| 0 <= j < |b| && b[j] == a[0];
      RemoveAt(a, 0);
      RemoveAt(b, j);
      LinedRemove(a, 0);
      LinedRemove(b, j);
      LinedPermute(a[..0] + a[1..], b[..j] + b[j + 1..]);
    }
  }

  /** Two chips in competition for the same pins: equal ordinals, lines to offer, and not the same. */
  predicate Compete(c: Chip, d: Chip) {
    c.ordinal == d.ordinal && Lines(c) > 0 && Lines(d) > 0 && c != d
  }

  predicate Unambiguous(cs: seq<Chip>) {
    forall c, d :: c in cs && d in cs ==> !Compete(c, d)
  }

  lemma TailMultiset(a: seq<Chip>)
    requires a != []
    ensures a == [a[0]] + a[1..] && multiset(a[1..]) == multiset(a) - multiset{a[0]}
  {
    RemoveAt(a, 0);
    assert a[..0] + a[1..] == a[1..];
  }

  predicate NoTies(cs: seq<Chip>) {
    forall c, d :: c in cs && d in cs && c.ordinal == d.ordinal ==> c == d
  }

  lemma SameMinimum(a: seq<Chip>, b: seq<Chip>)
    requires a != [] && b != []
    requires Ordered(a) && Ordered(b) && multiset(a) == multiset(b) && NoTies(a)
    ensures a[0] == b[0]
  {
    assert b[0] in multiset(a) && a[0] in multiset(b);
    var i :| 0 <= i < |a| && a[i] == b[0];
    var j :| 0 <= j < |b| && b[j] == a[0];
    assert a[0].ordinal == b[0].ordinal;
  }

  lemma TailOrdered(a: seq<Chip>)
    requires a != [] && Ordered(a)
    ensures Ordered(a[1..]) && (NoTies(a) ==> NoTies(a[1..]))
  {
  }

  /** Chips without ties have one order. */
  lemma {:induction false} OrderUnique(a: seq<Chip>, b: seq<Chip>)
    requires Ordered(a) && Ordered(b) && multiset(a) == multiset(b) && NoTies(a)
    ensures a == b
    decreases |a|
  {
    hide Ordered, NoTies;
    assert |multiset(a)| == |a| && |multiset(b)| == |b|;
    if a != [] {
      SameMinimum(a, b);
      TailOrdered(a);
      TailOrdered(b);
      TailMultiset(a);
      TailMultiset(b);
      OrderUnique(a[1..], b[1..]);
    }
  }

  /** Dropping the chips without lines leaves no ties among chips that do not compete. */
  lemma LinedNoTies(listed: seq<Chip>, cs: seq<Chip>)
    requires Unambiguous(listed) && multiset(cs) == multiset(listed)
    ensures NoTies(Lined(cs))
  {
    hide Lined, Lines;
    forall c, d | c in Lined(cs) && d in Lined(cs) && c.ordinal == d.ordinal
      ensures c == d
    {
      var i :| 0 <= i < |Lined(cs)| && Lined(cs)[i] == c;
      var j :| 0 <= j < |Lined(cs)| && Lined(cs)[j] == d;
      LinedMembers(cs, i);
      LinedMembers(cs, j);
      assert c in multiset(listed) && d in multiset(listed);
      assert !Compete(c, d);
    }
  }

  lemma SamePins(listed: seq<Chip>, cs: seq<Chip>, ds: seq<Chip>)
    requires Unambiguous(listed) && Ordered(cs) && Ordered(ds)
    requires multiset(cs) == multiset(listed) == multiset(ds)
    ensures Pins(cs) == Pins(ds)
  {
    hide *;
    LinedPermute(cs, ds);
    LinedOrdered(cs);
    LinedOrdered(ds);
    LinedNoTies(listed, cs);
    OrderUnique(Lined(cs), Lined(ds));
    LinedPins(cs);
    LinedPins(ds);
  }

  /** Without competing chips the map is the same for every order of the listing. */
  lemma OrderIndependence(a: seq<Entry>, b: seq<Entry>, m: PinMap, n: PinMap)
    requires multiset(a) == multiset(b) && Unambiguous(Chips(a))
    requires MapOf(a, m) && MapOf(b, n)
    ensures m == n
  {
    hide Chips, Pins, Ordered, Unambiguous;
    ChipsPermute(a, b);
    var cs: seq<Chip> :| Ordered(cs) && multiset(cs) == multiset(Chips(a)) && Numbers(m, Pins(cs));
    var ds: seq<Chip> :| Ordered(ds) && multiset(ds) == multiset(Chips(b)) && Numbers(n, Pins(ds));
    SamePins(Chips(a), cs, ds);
  }

  lemma DistinctUnambiguous(cs: seq<Chip>)
    requires DistinctOrdinals(cs)
    ensures Unambiguous(cs)
  {
  }

  // ------------------------------------------------------------ and only then

  /** A sorted arrangement of `cs` around ordinal `o`. */
  lemma {:induction false} Arrange(cs: seq<Chip>, o: nat) returns (lo: seq<Chip>, hi: seq<Chip>)
    ensures Ordered(lo) && Ordered(hi) && multiset(lo) + multiset(hi) == multiset(cs)
    ensures forall x :: x in lo ==> x.ordinal < o
    ensures forall x :: x in hi ==> o <= x.ordinal
    decreases cs
  {
    if cs == [] {
      lo, hi := [], [];
    } else {
      TailMultiset(cs);
      lo, hi := Arrange(cs[1..], o);
      hide Ordered;
      if cs[0].ordinal < o {
        lo := Placed(lo, cs[0]);
      } else {
        hi := Placed(hi, cs[0]);
      }
    }
  }

  lemma Placed(cs: seq<Chip>, c: Chip) returns (r: seq<Chip>)
    requires Ordered(cs)
    ensures Ordered(r) && multiset(r) == multiset(cs) + multiset{c}
    ensures forall x :: x in r ==> x == c || x in cs
  {
    var j := |cs|;
    while j > 0 && c.ordinal < cs[j - 1].ordinal
      invariant 0 <= j <= |cs|
      invariant forall k :: j <= k < |cs| ==> c.ordinal < cs[k].ordinal
    {
      j := j - 1;
    }
    InsertOrdered(cs, j, c);
    InsertMultiset(cs, j, c);
    r := cs[..j] + [c] + cs[j..];
  }

  lemma AroundOrdered(lo: seq<Chip>, c: Chip, d: Chip, hi: seq<Chip>)
    requires Ordered(lo) && Ordered(hi) && c.ordinal == d.ordinal
    requires forall x :: x in lo ==> x.ordinal < c.ordinal
    requires forall x :: x in hi ==> c.ordinal <= x.ordinal
    ensures Ordered(lo + [c, d] + hi)
  {
  }

  lemma SwapDiffers(c: Chip, d: Chip)
    requires Compete(c, d)
    ensures ChipPins(c) + ChipPins(d) != ChipPins(d) + ChipPins(c)
  {
    var x, y := ChipPins(c) + ChipPins(d), ChipPins(d) + ChipPins(c);
    assert x[0] == (c.info.value.name, 0) && y[0] == (d.info.value.name, 0);
    if Lines(c) < Lines(d) {
      assert x[Lines(c)] == (d.info.value.name, 0) && y[Lines(c)] == (d.info.value.name, Lines(c));
    } else if Lines(d) < Lines(c) {
      assert x[Lines(d)] == (c.info.value.name, Lines(d)) && y[Lines(d)] == (c.info.value.name, 0);
    }
  }

  lemma PinsAround(lo: seq<Chip>, c: Chip, d: Chip, hi: seq<Chip>)
    ensures Pins(lo + [c, d] + hi) == Pins(lo) + (ChipPins(c) + ChipPins(d)) + Pins(hi)
  {
    hide Pins, ChipPins, Lines, Total;
    PinsAppend(lo + [c, d], hi);
    PinsAppend(lo, [c, d]);
    assert [c, d] == [c] + [d] && [d] == [d] + [];
    PinsCons(c, [d]);
    PinsCons(d, []);
    assert Pins([]) == [] by {
      NoPins();
    }
  }

  lemma NoPins()
    ensures Pins([]) == []
  {
  }

  function AsMap(ps: seq<(string, nat)>): (m: PinMap)
    ensures Numbers(m, ps)
  {
    map p: nat | p < |ps| :: ps[p]
  }

  lemma AroundMultiset(lo: seq<Chip>, c: Chip, d: Chip, hi: seq<Chip>)
    ensures multiset(lo + [c, d] + hi) == multiset(lo) + multiset(hi) + multiset{c, d}
  {
  }

  /** Two sorted orders of one vector, with competing chips swapped. */
  lemma TwoOrders(listed: seq<Chip>, c: Chip, d: Chip) returns (cs: seq<Chip>, ds: seq<Chip>)
    requires c in listed && d in listed && Compete(c, d)
    ensures Ordered(cs) && Ordered(ds) && multiset(cs) == multiset(listed) == multiset(ds)
    ensures |Pins(cs)| == |Pins(ds)| && Pins(cs) != Pins(ds)
  {
    var rest := WithoutBoth(listed, c, d);
    var lo, hi := Arrange(rest, c.ordinal);
    SwapDiffers(c, d);
    assert c.ordinal == d.ordinal;
    hide Pins, ChipPins, Compete, Lines, Total;
    AroundOrdered(lo, c, d, hi);
    AroundOrdered(lo, d, c, hi);
    hide Ordered;
    AroundMultiset(lo, c, d, hi);
    AroundMultiset(lo, d, c, hi);
    cs, ds := lo + [c, d] + hi, lo + [d, c] + hi;
    assert multiset{c, d} == multiset{d, c};
    PinsAround(lo, c, d, hi);
    PinsAround(lo, d, c, hi);
    MiddlesDiffer(Pins(lo), ChipPins(c) + ChipPins(d), ChipPins(d) + ChipPins(c), Pins(hi));
  }

  /** Competing chips in a listing leave two different maps possible. */
  lemma CompetingChipsAmbiguous(es: seq<Entry>, c: Chip, d: Chip) returns (m: PinMap, n: PinMap)
    requires c in Chips(es) && d in Chips(es) && Compete(c, d)
    ensures MapOf(es, m) && MapOf(es, n) && m != n
  {
    hide Chips, Pins, Ordered, Compete, Numbers;
    var cs, ds := TwoOrders(Chips(es), c, d);
    m, n := AsMap(Pins(cs)), AsMap(Pins(ds));
    MapsDiffer(m, Pins(cs), n, Pins(ds));
  }

  lemma MiddlesDiffer<T>(a: seq<T>, x: seq<T>, y: seq<T>, b: seq<T>)
    requires |x| == |y| && x != y
    ensures a + x + b != a + y + b
  {
    assert (a + x + b)[|a|..|a| + |x|] == x;
    assert (a + y + b)[|a|..|a| + |y|] == y;
  }

  lemma MapsDiffer(m: PinMap, ps: seq<(string, nat)>, n: PinMap, qs: seq<(string, nat)>)
    requires Numbers(m, ps) && Numbers(n, qs) && |ps| == |qs| && ps != qs
    ensures m != n
  {
    var i :| 0 <= i < |ps| && ps[i] != qs[i];
    assert m[i] != n[i];
  }

  lemma Without(cs: seq<Chip>, c: Chip) returns (rest: seq<Chip>)
    requires c in cs
    ensures multiset(rest) == multiset(cs) - multiset{c} && multiset(rest) + multiset{c} == multiset(cs)
  {
    var i :| 0 <= i < |cs| && cs[i] == c;
    RemoveAt(cs, i);
    rest := cs[..i] + cs[i + 1..];
    assert c in multiset(cs);
  }

  lemma WithoutBoth(cs: seq<Chip>, c: Chip, d: Chip) returns (rest: seq<Chip>)
    requires c in cs && d in cs && c != d
    ensures multiset(rest) + multiset{c, d} == multiset(cs)
  {
    var once := Without(cs, c);
    assert d in multiset(cs) && d in multiset(once);
    rest := Without(once, d);
    assert multiset{c, d} == multiset{d} + multiset{c};
  }

  /** A listing determines its map iff it holds no competing chips. */
  lemma DeterminedIff(es: seq<Entry>)
    ensures (forall m, n :: MapOf(es, m) && MapOf(es, n) ==> m == n) <==> Unambiguous(Chips(es))
  {
    if Unambiguous(Chips(es)) {
      forall m, n | MapOf(es, m) && MapOf(es, n)
        ensures m == n
      {
        OrderIndependence(es, es, m, n);
      }
    } else {
      var c, d :| c in Chips(es) && d in Chips(es) && Compete(c, d);
      var m, n := CompetingChipsAmbiguous(es, c, d);
    }
  }

  // ------------------------------------------------------------ the numbering by ordinals

  /** The lines of the chips with an ordinal below `o`, in whatever order they are listed. */
  function Below(cs: seq<Chip>, o: int): nat {
    if cs == [] then 0 else (if cs[0].ordinal < o then Lines(cs[0]) else 0) + Below(cs[1..], o)
  }

  lemma {:induction false} BelowAppend(a: seq<Chip>, b: seq<Chip>, o: int)
    ensures Below(a + b, o) == Below(a, o) + Below(b, o)
    decreases a
  {
    if a == [] {
      assert a + b == b;
    } else {
      assert (a + b)[1..] == a[1..] + b;
      BelowAppend(a[1..], b, o);
    }
  }

  lemma {:induction false} BelowPermutes(a: seq<Chip>, b: seq<Chip>, o: int)
    requires multiset(a) == multiset(b)
    ensures Below(a, o) == Below(b, o)
    decreases |a|
  {
    assert |multiset(a)| == |a| && |multiset(b)| == |b|;
    if a != [] {
      assert a[0] in multiset(b);
      var j :| 0 <= j < |b| && b[j] == a[0];
      RemoveAt(a, 0);
      RemoveAt(b, j);
      BelowRemove(a, 0, o);
      BelowRemove(b, j, o);
      hide Below;
      BelowPermutes(a[..0] + a[1..], b[..j] + b[j + 1..], o);
    }
  }

  lemma BelowRemove(cs: seq<Chip>, j: nat, o: int)
    requires j < |cs|
    ensures Below(cs, o) == (if cs[j].ordinal < o then Lines(cs[j]) else 0) + Below(cs[..j] + cs[j + 1..], o)
  {
    var front, back := cs[..j], cs[j + 1..];
    assert cs == front + ([cs[j]] + back);
    assert ([cs[j]] + back)[1..] == back;
    BelowAppend(front, [cs[j]] + back, o);
    BelowAppend(front, back, o);
  }

  lemma {:induction false} BelowAll(cs: seq<Chip>, o: int)
    ensures (forall i :: 0 <= i < |cs| ==> cs[i].ordinal < o) ==> Below(cs, o) == Total(cs)
    ensures (forall i :: 0 <= i < |cs| ==> cs[i].ordinal >= o) ==> Below(cs, o) == 0
    decreases cs
  {
    if cs != [] {
      BelowAll(cs[1..], o);
    }
  }

  /** In sorted order the chips with smaller ordinals are the chips before. */
  lemma BelowIsPrefix(cs: seq<Chip>, k: nat)
    requires Ordered(cs) && DistinctOrdinals(cs) && k < |cs|
    ensures Below(cs, cs[k].ordinal) == Total(cs[..k])
  {
    var o := cs[k].ordinal;
    assert cs == cs[..k] + cs[k..];
    BelowAppend(cs[..k], cs[k..], o);
    BelowAll(cs[..k], o);
    BelowAll(cs[k..], o);
  }

  /** Line `at` of a chip, numbered after all the lines of the chips with smaller ordinals. */
  predicate NumberedAt(c: Chip, cs: seq<Chip>, p: nat, at: (string, nat)) {
    c.info.Some? && at.0 == c.info.value.name && at.1 < Lines(c) && p == Below(cs, c.ordinal) + at.1
  }

  /** With distinct ordinals, pin `p` is (chip, line) iff the chip is in the listing and `p` is the
      lines of all chips with smaller ordinals plus the line: a numbering that mentions no order. */
  lemma NumberedByOrdinals(es: seq<Entry>, m: PinMap, p: nat, at: (string, nat))
    requires MapOf(es, m) && DistinctOrdinals(Chips(es))
    ensures p in m && m[p] == at <==> exists c :: c in Chips(es) && NumberedAt(c, Chips(es), p, at)
  {
    hide Chips, Pins, Below, Total, Lines;
    var listed := Chips(es);
    var cs: seq<Chip> :| Ordered(cs) && multiset(cs) == multiset(listed) && Numbers(m, Pins(cs));
    DistinctPermutes(listed, cs);
    PrefixSums(cs, p, at);
    forall k | 0 <= k < |cs|
      ensures cs[k] in listed && (IsLine(cs, k, p, at) <==> NumberedAt(cs[k], listed, p, at))
    {
      BelowPermutes(cs, listed, cs[k].ordinal);
      BelowIsPrefix(cs, k);
      assert cs[k] in multiset(listed);
    }
    if c :| c in listed && NumberedAt(c, listed, p, at) {
      assert c in multiset(cs);
      var k :| 0 <= k < |cs| && cs[k] == c;
      assert IsLine(cs, k, p, at);
    }
  }

  lemma {:induction false} AboveEverything(cs: seq<Chip>) returns (o: int)
    ensures forall i :: 0 <= i < |cs| ==> cs[i].ordinal < o
    decreases cs
  {
    if cs == [] {
      o := 0;
    } else {
      o := AboveEverything(cs[1..]);
      o := if cs[0].ordinal < o then o else cs[0].ordinal + 1;
    }
  }

  /** The map is dense: its keys are the numbers below the total line count, distinct ordinals or not. */
  lemma Dense(es: seq<Entry>, m: PinMap)
    requires MapOf(es, m)
    ensures forall p: nat :: p in m <==> p < Total(Chips(es))
  {
    var cs: seq<Chip> :| Ordered(cs) && multiset(cs) == multiset(Chips(es)) && Numbers(m, Pins(cs));
    hide Chips, Pins, Below, Total, Lines;
    var o := AboveEverything(cs);
    forall i | 0 <= i < |Chips(es)|
      ensures Chips(es)[i].ordinal < o
    {
      assert Chips(es)[i] in multiset(cs);
    }
    BelowAll(cs, o);
    BelowAll(Chips(es), o);
    BelowPermutes(cs, Chips(es), o);
  }
}
