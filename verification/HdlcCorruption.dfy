/** Corrupted frames: errors in the content, before stuffing, and errors on the wire, after it. */
module HdlcCorruption {
  import opened Wrappers
  import opened Sequences
  import opened Crc8
  import opened Polynomial
  import opened CrcBits
  import opened CrcDetection
  import opened Hdlc
  import opened HdlcLanguage
  import opened HdlcRoundTrip

  // ------------------------------------------------------------ errors in the content

  /** A frame whose content was damaged before stuffing raises the checksum error exactly when the
      damaged content fails the check. */
  lemma ContentErrorReported(s: State, d: seq<byte>, e: seq<byte>)
    requires Idle(s) && d != [] && |e| == |d| + 1
    ensures CrcPasses(d + [Crc(d)])
    ensures var w := Xor(d + [Crc(d)], e);
            FirstError(s, Framed(w)) == if CrcPasses(w) then None else Some(CrcMismatch)
  {
    hide Crc, Framed, Feed, FirstError, Xor;
    var w := d + [Crc(d)];
    assert w[..|w| - 1] == d;
    FramedOutcome(s, Xor(w, e));
  }

  /** In the content, every burst of at most eight bits, every odd number of flipped bits, and every
      pair of flipped bits not a multiple of 127 apart makes the decoder throw. */
  lemma ContentErrorsThrow(s: State, d: seq<byte>, e: seq<byte>)
    requires Idle(s) && d != [] && |e| == |d| + 1
    ensures var thrown := FirstError(s, Framed(Xor(d + [Crc(d)], e)));
            && ((exists k: nat :: Within(Bits(e), k, 8)) && true in Bits(e) ==> thrown == Some(CrcMismatch))
            && (Odd(Bits(e)) ==> thrown == Some(CrcMismatch))
            && (forall i: nat, j: nat | FlipsTwo(Bits(e), i, j) ::
                  thrown == if (j - i) % 127 == 0 then None else Some(CrcMismatch))
  {
    hide Crc, Framed, Feed, FirstError, Xor, Bits, CrcPasses, Odd, Within, FlipsTwo;
    var w := d + [Crc(d)];
    ContentErrorReported(s, d, e);
    if k: nat :| Within(Bits(e), k, 8) && true in Bits(e) {
      BurstDetected(w, e, k);
    }
    if Odd(Bits(e)) {
      OddErrorsDetected(w, e);
    }
    forall i: nat, j: nat | FlipsTwo(Bits(e), i, j)
      ensures CrcPasses(Xor(w, e)) <==> (j - i) % 127 == 0
    {
      DoubleErrorDetected(w, e, i, j);
    }
  }

  // ------------------------------------------------------------ where the content lies on the wire

  /** The octet of a stuffed string at which content octet `n` begins. */
  function Place(w: seq<byte>, n: nat): nat
    requires n <= |w|
  {
    |Stuff(w[..n])|
  }

  lemma StuffOne(b: byte)
    ensures Stuff([b]) == if Reserved(b) then [ESCAPE, FlipEscapeBit(b)] else [b]
  {
    StuffCons(b, []);
  }

  lemma StuffSplit(w: seq<byte>, n: nat)
    requires n < |w|
    ensures Stuff(w) == Stuff(w[..n]) + Stuff([w[n]]) + Stuff(w[n + 1..])
  {
    hide *;
    StuffAppend(w[..n], [w[n]]);
    StuffAppend(w[..n] + [w[n]], w[n + 1..]);
    SplitAt(w, n);
  }

  /** What a content octet looks like on the wire. */
  lemma OnTheWire(w: seq<byte>, n: nat)
    requires n < |w|
    ensures var u, x := Place(w, n), Stuff(w);
            if Reserved(w[n]) then u + 1 < |x| && x[u] == ESCAPE && x[u + 1] == FlipEscapeBit(w[n])
            else u < |x| && x[u] == w[n]
  {
    StuffSplit(w, n);
    StuffOne(w[n]);
    hide Stuff, FlipEscapeBit;
  }

  lemma PlaceNext(w: seq<byte>, n: nat)
    requires n < |w|
    ensures Place(w, n + 1) == Place(w, n) + if Reserved(w[n]) then 2 else 1
  {
    StuffAppend(w[..n], [w[n]]);
    StuffOne(w[n]);
    assert w[..n + 1] == w[..n] + [w[n]];
    hide Stuff, FlipEscapeBit;
  }

  /** Every octet of a stuffed string is the first, or the second, of a content octet. */
  lemma {:induction false} Locate(w: seq<byte>, u: nat) returns (n: nat)
    requires u < |Stuff(w)|
    ensures n < |w|
    ensures u == Place(w, n) || (Reserved(w[n]) && u == Place(w, n) + 1)
  {
    hide Stuff;
    n := 0;
    assert w[..0] == [];
    StuffNothing();
    assert w[..|w|] == w;
    while n < |w| && Place(w, n) + (if Reserved(w[n]) then 2 else 1) <= u
      invariant n <= |w| && Place(w, n) <= u
    {
      PlaceNext(w, n);
      n := n + 1;
    }
  }

  function Escapes(x: seq<byte>): nat {
    if x == [] then 0 else (if x[0] == ESCAPE then 1 else 0) + Escapes(x[1..])
  }

  lemma {:induction false} EscapesAppend(x: seq<byte>, y: seq<byte>)
    ensures Escapes(x + y) == Escapes(x) + Escapes(y)
  {
    if x == [] {
      assert x + y == y;
    } else {
      assert (x + y)[1..] == x[1..] + y;
      EscapesAppend(x[1..], y);
    }
  }

  lemma StuffedOctet(b: byte)
    ensures |Stuff([b])| == 1 + Escapes(Stuff([b]))
  {
    StuffOne(b);
    EscapeRoundTrip(b);
    hide Stuff, FlipEscapeBit, Escapes;
    EscapesOne(b);
    EscapesOne(ESCAPE);
    EscapesOne(FlipEscapeBit(b));
    EscapesAppend([ESCAPE], [FlipEscapeBit(b)]);
    assert [ESCAPE] + [FlipEscapeBit(b)] == [ESCAPE, FlipEscapeBit(b)];
  }

  lemma EscapesOne(b: byte)
    ensures Escapes([b]) == if b == ESCAPE then 1 else 0
  {
    assert [b][1..] == [];
  }

  /** Stuffing adds one octet for each escape. */
  lemma {:induction false} StuffedLength(w: seq<byte>)
    ensures |Stuff(w)| == |w| + Escapes(Stuff(w))
  {
    if w == [] {
      StuffNothing();
    } else {
      hide *;
      StuffedOctet(w[0]);
      StuffedLength(w[1..]);
      TakeThenDrop(w, 1);
      assert w[..1] == [w[0]];
      StuffAppend([w[0]], w[1..]);
      EscapesAppend(Stuff([w[0]]), Stuff(w[1..]));
    }
  }

  /** Between two content octets the wire is longer by its escapes. */
  lemma PlacesApart(w: seq<byte>, m: nat, n: nat)
    requires m <= n <= |w|
    ensures Place(w, m) <= Place(w, n) <= |Stuff(w)|
    ensures Place(w, n) - Place(w, m) == n - m + Escapes(Stuff(w)[Place(w, m)..Place(w, n)])
  {
    hide Stuff, Escapes;
    assert w[..n] == w[..m] + w[m..n] && w == w[..n] + w[n..];
    StuffAppend(w[..m], w[m..n]);
    StuffAppend(w[..n], w[n..]);
    SliceMiddle(Stuff(w[..m]), Stuff(w[m..n]), Stuff(w[n..]));
    StuffedLength(w[m..n]);
  }

  // ------------------------------------------------------------ wire errors that keep the stuffing

  /** The error turns no octet into or out of a flag or an escape, and touches none after an escape. */
  predicate KeepsStuffing(x: seq<byte>, e: seq<byte>)
    requires |e| == |x|
  {
    forall i :: 0 <= i < |x| && e[i] != 0 ==>
      !Reserved(x[i]) && !Reserved(Plus(x[i], e[i])) && (i > 0 ==> x[i - 1] != ESCAPE)
  }

  /** What an error `e` on the stuffing of `w` amounts to in the content. */
  function ContentError(w: seq<byte>, e: seq<byte>): (c: seq<byte>)
    requires |e| == |Stuff(w)|
    ensures |c| == |w|
  {
    if w == [] then []
    else if Reserved(w[0]) then [0] + ContentError(w[1..], e[2..])
    else [e[0]] + ContentError(w[1..], e[1..])
  }

  /** The first content octet and the rest, with their shares of the error. */
  lemma StuffedHead(w: seq<byte>, e: seq<byte>)
    requires w != [] && |e| == |Stuff(w)| && KeepsStuffing(Stuff(w), e)
    ensures |e| >= if Reserved(w[0]) then 2 else 1
    ensures var h := if Reserved(w[0]) then 2 else 1;
            && Stuff(w)[h..] == Stuff(w[1..])
            && Stuff(w)[..h] == Stuff([w[0]])
            && KeepsStuffing(Stuff(w[1..]), e[h..])
    ensures if Reserved(w[0]) then e[0] == 0 && e[1] == 0 else !Reserved(Plus(w[0], e[0]))
  {
    var x, h := Stuff(w), if Reserved(w[0]) then 2 else 1;
    EscapeRoundTrip(w[0]);
    PlusSelf(w[0]);
    StuffOne(w[0]);
    assert x == Stuff([w[0]]) + Stuff(w[1..]);
    hide FlipEscapeBit, Plus, Stuff;
    TakeDrop(Stuff([w[0]]), Stuff(w[1..]));
    forall i | 0 <= i < |x| - h && e[h..][i] != 0
      ensures x[h + i] == Stuff(w[1..])[i] && e[h + i] == e[h..][i]
      ensures i > 0 ==> x[h + i - 1] == Stuff(w[1..])[i - 1]
    {
    }
  }

  lemma XorSplit(x: seq<byte>, e: seq<byte>, h: nat)
    requires |e| == |x| && h <= |x|
    ensures Xor(x, e) == Xor(x[..h], e[..h]) + Xor(x[h..], e[h..])
  {
    hide Plus;
  }

  /** The share of one content octet: an escaped one is untouched, a plain one is changed alike. */
  lemma HeadError(a: byte, x: seq<byte>, e: seq<byte>)
    requires x == Stuff([a]) && |e| == |x|
    requires if Reserved(a) then e == [0, 0] else !Reserved(Plus(a, e[0]))
    ensures Xor(x, e) == Stuff([if Reserved(a) then a else Plus(a, e[0])])
  {
    StuffOne(a);
    PlusSelf(ESCAPE);
    PlusSelf(FlipEscapeBit(a));
    StuffOne(Plus(a, e[0]));
    hide Stuff, FlipEscapeBit, Plus;
  }

  lemma ContentErrorHead(w: seq<byte>, e: seq<byte>)
    requires w != [] && |e| == |Stuff(w)|
    ensures var h := if Reserved(w[0]) then 2 else 1;
            h <= |e| && |e| - h == |Stuff(w[1..])|
            && ContentError(w, e) == [if Reserved(w[0]) then 0 else e[0]] + ContentError(w[1..], e[h..])
            && Xor(w, ContentError(w, e))
            == [if Reserved(w[0]) then w[0] else Plus(w[0], e[0])] + Xor(w[1..], ContentError(w[1..], e[h..]))
  {
    var h, c0 := if Reserved(w[0]) then 2 else 1, if Reserved(w[0]) then 0 else e[0];
    PlusSelf(w[0]);
    hide Plus, FlipEscapeBit, Reserved;
    XorCons(w, c0, ContentError(w[1..], e[h..]));
  }

  lemma XorCons(w: seq<byte>, c0: byte, c: seq<byte>)
    requires |w| == 1 + |c|
    ensures Xor(w, [c0] + c) == [Plus(w[0], c0)] + Xor(w[1..], c)
  {
    hide Plus;
  }

  lemma {:induction false} StuffedError(w: seq<byte>, e: seq<byte>)
    requires |e| == |Stuff(w)| && KeepsStuffing(Stuff(w), e)
    ensures Xor(Stuff(w), e) == Stuff(Xor(w, ContentError(w, e)))
    decreases w
  {
    if w != [] {
      hide *;
      var x, h := Stuff(w), if Reserved(w[0]) then 2 else 1;
      StuffedHead(w, e);
      StuffedError(w[1..], e[h..]);
      XorSplit(x, e, h);
      StuffOne(w[0]);
      HeadError(w[0], x[..h], e[..h]);
      ContentErrorHead(w, e);
      StuffCons(if Reserved(w[0]) then w[0] else Plus(w[0], e[0]), Xor(w[1..], ContentError(w[1..], e[h..])));
    }
  }

  lemma {:induction false} BitsAppend(a: seq<byte>, b: seq<byte>)
    ensures Bits(a + b) == Bits(a) + Bits(b)
    decreases a
  {
    hide BitsOf;
    if a == [] {
      assert a + b == b;
    } else {
      assert (a + b)[1..] == a[1..] + b;
      BitsAppend(a[1..], b);
    }
  }

  lemma OddSplit(a: seq<byte>, b: seq<byte>)
    ensures Odd(Bits(a + b)) == (Odd(Bits(a)) != Odd(Bits(b)))
  {
    hide Bits, Odd;
    BitsAppend(a, b);
    OddAppend(Bits(a), Bits(b));
  }

  lemma ZeroOctetEven()
    ensures !Odd(Bits([0]))
  {
    hide Odd;
    ZeroBits(8);
    OddZeros(8);
    assert Bits([0]) == BitsOf(0, 8) + Bits([0][1..]);
    assert Bits([0]) == Zeros(8);
  }

  lemma {:induction false} ContentErrorParity(w: seq<byte>, e: seq<byte>)
    requires |e| == |Stuff(w)| && KeepsStuffing(Stuff(w), e)
    ensures Odd(Bits(ContentError(w, e))) == Odd(Bits(e))
    decreases w
  {
    if w != [] {
      hide *;
      var h := if Reserved(w[0]) then 2 else 1;
      StuffedHead(w, e);
      ContentErrorParity(w[1..], e[h..]);
      ContentErrorHead(w, e);
      OddSplit([if h == 2 then 0 else e[0]], ContentError(w[1..], e[h..]));
      ZeroOctetEven();
      OddSplit([0], [0]);
      OddSplit(e[..h], e[h..]);
      TakeThenDrop(e, h);
      assert e[..h] == if h == 2 then [0] + [0] else [e[0]];
    } else {
      EmptyStuffing(e);
    }
  }

  lemma EmptyStuffing(e: seq<byte>)
    requires |e| == |Stuff([])|
    ensures e == [] == ContentError([], e)
  {
  }

  /** The same for a whole frame: the error leaves both flags alone. */
  function FrameError(w: seq<byte>, e: seq<byte>): (c: seq<byte>)
    requires |e| == |Framed(w)|
    ensures |c| == |w|
  {
    ContentError(w, e[1..|e| - 1])
  }

  lemma InnerError(w: seq<byte>, e: seq<byte>)
    requires |e| == |Framed(w)| && KeepsStuffing(Framed(w), e)
    ensures e == [0] + e[1..|e| - 1] + [0] && KeepsStuffing(Stuff(w), e[1..|e| - 1])
  {
    var x, inner := Framed(w), e[1..|e| - 1];
    assert x[0] == FLAG && x[|x| - 1] == FLAG;
    hide Stuff, Plus;
    forall i | 0 <= i < |Stuff(w)| && inner[i] != 0
      ensures x[i + 1] == Stuff(w)[i] && e[i + 1] == inner[i]
      ensures i > 0 ==> x[i] == Stuff(w)[i - 1]
    {
    }
  }

  /** On the wire, then, such an error is an error in the content, of the same parity. */
  lemma WireErrorIsContentError(w: seq<byte>, e: seq<byte>)
    requires |e| == |Framed(w)| && KeepsStuffing(Framed(w), e)
    ensures Xor(Framed(w), e) == Framed(Xor(w, FrameError(w, e)))
    ensures Odd(Bits(FrameError(w, e))) == Odd(Bits(e))
  {
    var x, inner := Framed(w), e[1..|e| - 1];
    assert FrameError(w, e) == ContentError(w, inner);
    assert x == [FLAG] + Stuff(w) + [FLAG] && Framed(Xor(w, ContentError(w, inner)))
        == [FLAG] + Stuff(Xor(w, ContentError(w, inner))) + [FLAG];
    hide *;
    InnerError(w, e);
    StuffedError(w, inner);
    ContentErrorParity(w, inner);
    ZeroOctetEven();
    XorBetween(Stuff(w), inner);
    OddSplit([0] + inner, [0]);
    OddSplit([0], inner);
  }

  lemma XorBetween(x: seq<byte>, e: seq<byte>)
    requires |e| == |x|
    ensures Xor([FLAG] + x + [FLAG], [0] + e + [0]) == [FLAG] + Xor(x, e) + [FLAG]
  {
    PlusSelf(FLAG);
    hide Plus;
  }

  // ------------------------------------------------------------ the bits such an error flips

  lemma {:induction false} ContentErrorAt(w: seq<byte>, e: seq<byte>, n: nat)
    requires |e| == |Stuff(w)| && n < |w|
    ensures Place(w, n) < |e|
    ensures ContentError(w, e)[n] == if Reserved(w[n]) then 0 else e[Place(w, n)]
    decreases w
  {
    OnTheWire(w, n);
    if n > 0 {
      var h := if Reserved(w[0]) then 2 else 1;
      ContentErrorAt(w[1..], e[h..], n - 1);
      assert w[..n][1..] == w[1..][..n - 1];
      assert Place(w, n) == h + Place(w[1..], n - 1);
    }
  }

  lemma {:induction false} BitsAt(d: seq<byte>, i: nat)
    requires i < 8 * |d|
    ensures Bits(d)[i] == BitsOf(d[i / 8], 8)[i % 8]
    decreases d
  {
    hide BitsOf;
    if i >= 8 {
      BitsAt(d[1..], i - 8);
    }
  }

  lemma ZeroOctet(d: seq<byte>, i: nat)
    requires i < 8 * |d| && Bits(d)[i]
    ensures d[i / 8] != 0
  {
    BitsAt(d, i);
    ZeroBits(8);
  }

  /** Where bit `t` of the content travels on the wire. */
  function WireBit(w: seq<byte>, t: nat): nat
    requires t < 8 * |w|
  {
    8 * (1 + Place(w, t / 8)) + t % 8
  }

  lemma SameBit(c: seq<byte>, t: nat, e: seq<byte>, i: nat)
    requires t < 8 * |c| && i < 8 * |e| && t % 8 == i % 8 && c[t / 8] == e[i / 8]
    ensures Bits(c)[t] == Bits(e)[i]
  {
    hide Bits, BitsOf;
    BitsAt(c, t);
    BitsAt(e, i);
  }

  lemma Carried(w: seq<byte>, e: seq<byte>, t: nat)
    requires |e| == |Framed(w)| && t < 8 * |w| && Bits(FrameError(w, e))[t]
    ensures WireBit(w, t) < 8 * |e| && Bits(e)[WireBit(w, t)]
  {
    hide Bits, BitsOf, Stuff, Place, ContentError, Reserved;
    var c, n := FrameError(w, e), t / 8;
    ZeroOctet(c, t);
    ContentErrorAt(w, e[1..|e| - 1], n);
    SameBit(c, t, e, WireBit(w, t));
  }

  /** A damaged octet on the wire is a content octet that needed no escape. */
  lemma DamagedOctet(w: seq<byte>, e: seq<byte>, u: nat) returns (n: nat)
    requires |e| == |Framed(w)| && KeepsStuffing(Framed(w), e)
    requires u < |e| && e[u] != 0
    ensures n < |w| && u == 1 + Place(w, n) && FrameError(w, e)[n] == e[u]
  {
    hide Stuff, Place, ContentError, Plus, FlipEscapeBit;
    var x := Framed(w);
    assert x[0] == FLAG && x[|x| - 1] == FLAG;
    assert 0 < u < |x| - 1;
    n := Locate(w, u - 1);
    OnTheWire(w, n);
    assert forall i {:trigger x[i]} :: 0 < i < |x| - 1 ==> x[i] == Stuff(w)[i - 1];
    assert x[u - 1] != ESCAPE;
    ContentErrorAt(w, e[1..|e| - 1], n);
  }

  lemma Carrier(w: seq<byte>, e: seq<byte>, i: nat) returns (t: nat)
    requires |e| == |Framed(w)| && KeepsStuffing(Framed(w), e)
    requires i < 8 * |e| && Bits(e)[i]
    ensures t < 8 * |w| && WireBit(w, t) == i && Bits(FrameError(w, e))[t]
  {
    hide *;
    ZeroOctet(e, i);
    var n := DamagedOctet(w, e, i / 8);
    t := 8 * n + i % 8;
    SameBit(FrameError(w, e), t, e, i);
    WireBitIs(w, n, i % 8);
  }

  lemma WireBitIs(w: seq<byte>, n: nat, b: nat)
    requires n < |w| && b < 8
    ensures WireBit(w, 8 * n + b) == 8 * (1 + Place(w, n)) + b
  {
    hide Place;
  }

  /** Two content bits are at least as far apart on the wire, by eight bits for each escape between. */
  lemma Spread(w: seq<byte>, t: nat, v: nat)
    requires t <= v < 8 * |w|
    ensures WireBit(w, t) / 8 <= WireBit(w, v) / 8 <= |Framed(w)|
    ensures WireBit(w, v) - WireBit(w, t) == v - t + 8 * Escapes(Framed(w)[WireBit(w, t) / 8..WireBit(w, v) / 8])
  {
    var m, n, x := t / 8, v / 8, Stuff(w);
    PlacesApart(w, m, n);
    var a, b := Place(w, m), Place(w, n);
    hide Stuff, Place, Escapes;
    assert Framed(w)[a + 1..b + 1] == x[a..b];
  }

  lemma FirstBit(s: seq<bool>) returns (f: nat)
    requires true in s
    ensures f < |s| && s[f] && forall i :: 0 <= i < f ==> !s[i]
  {
    f := 0;
    while !s[f]
      invariant f < |s| && forall i :: 0 <= i < f ==> !s[i]
      decreases |s| - f
    {
      f := f + 1;
    }
  }

  /** A burst on the wire is a burst in the content. */
  lemma BurstCarried(w: seq<byte>, e: seq<byte>, k: nat) returns (l: nat)
    requires |e| == |Framed(w)| && KeepsStuffing(Framed(w), e)
    requires Within(Bits(e), k, 8) && true in Bits(e)
    ensures Within(Bits(FrameError(w, e)), l, 8) && true in Bits(FrameError(w, e))
  {
    hide *;
    var c := FrameError(w, e);
    var i: nat := FirstBit(Bits(e));
    var t := Carrier(w, e, i);
    assert Bits(c)[t];
    var f := FirstBit(Bits(c));
    l := if f <= 8 * |w| - 8 then f else 8 * |w| - 8;
    forall v | 0 <= v < |Bits(c)| && Bits(c)[v]
      ensures f <= v < f + 8
    {
      Carried(w, e, f);
      Carried(w, e, v);
      WithinBy(Bits(e), k, WireBit(w, f), WireBit(w, v));
      if f <= v {
        Spread(w, f, v);
      }
    }
    WithinIs(Bits(c), l);
  }

  lemma WithinBy(s: seq<bool>, k: nat, i: nat, j: nat)
    requires Within(s, k, 8) && i < |s| && j < |s| && s[i] && s[j]
    ensures j < i + 8
  {
  }

  lemma WithinIs(s: seq<bool>, l: nat)
    requires l + 8 <= |s| && forall v :: 0 <= v < |s| && s[v] ==> l <= v < l + 8
    ensures Within(s, l, 8)
  {
  }

  /** Two flipped wire bits are two flipped content bits, nearer by eight for each escape between. */
  lemma PairCarried(w: seq<byte>, e: seq<byte>, i: nat, j: nat) returns (t: nat, v: nat)
    requires |e| == |Framed(w)| && KeepsStuffing(Framed(w), e)
    requires FlipsTwo(Bits(e), i, j)
    ensures FlipsTwo(Bits(FrameError(w, e)), t, v)
    ensures v - t == j - i - 8 * Escapes(Framed(w)[i / 8..j / 8])
  {
    t := Carrier(w, e, i);
    v := Carrier(w, e, j);
    hide Bits, Stuff, KeepsStuffing, FrameError, WireBit, Escapes;
    if v <= t {
      Spread(w, v, t);
      assert false;
    }
    Spread(w, t, v);
    var c := FrameError(w, e);
    forall u | 0 <= u < |Bits(c)|
      ensures Bits(c)[u] <==> u == t || u == v
    {
      if Bits(c)[u] {
        Carried(w, e, u);
        if WireBit(w, u) == i {
          SameCarrier(w, u, t);
        } else {
          assert WireBit(w, u) == j;
          SameCarrier(w, u, v);
        }
      }
    }
  }

  lemma SameCarrier(w: seq<byte>, u: nat, t: nat)
    requires u < 8 * |w| && t < 8 * |w| && WireBit(w, u) == WireBit(w, t)
    ensures u == t
  {
    hide WireBit;
    if u <= t {
      Spread(w, u, t);
    } else {
      Spread(w, t, u);
    }
  }

  /** On the wire, among the errors that keep the stuffing: every burst of at most eight bits and every
      odd number of flipped bits makes the decoder throw; two flipped bits do unless their distance,
      less eight for each escape octet between them, is a multiple of 127. */
  lemma WireErrorsThrow(s: State, d: seq<byte>, e: seq<byte>)
    requires Idle(s) && d != []
    requires |e| == |Framed(d + [Crc(d)])| && KeepsStuffing(Framed(d + [Crc(d)]), e)
    ensures var x := Framed(d + [Crc(d)]); var thrown := FirstError(s, Xor(x, e));
            && ((exists k: nat :: Within(Bits(e), k, 8)) && true in Bits(e) ==> thrown == Some(CrcMismatch))
            && (Odd(Bits(e)) ==> thrown == Some(CrcMismatch))
            && (forall i: nat, j: nat | FlipsTwo(Bits(e), i, j) ::
                  thrown == if (j - i - 8 * Escapes(x[i / 8..j / 8])) % 127 == 0 then None else Some(CrcMismatch))
  {
    var w := d + [Crc(d)];
    hide Crc, Framed, Feed, FirstError, Xor, Bits, Odd, Within, FlipsTwo, FrameError, KeepsStuffing, Escapes;
    var x, c := Framed(w), FrameError(w, e);
    WireErrorIsContentError(w, e);
    ContentErrorsThrow(s, d, c);
    if k: nat :| Within(Bits(e), k, 8) && true in Bits(e) {
      var l := BurstCarried(w, e, k);
    }
    forall i: nat, j: nat | FlipsTwo(Bits(e), i, j)
      ensures i / 8 <= j / 8 <= |x|
      ensures FirstError(s, Xor(x, e))
           == if (j - i - 8 * Escapes(x[i / 8..j / 8])) % 127 == 0 then None else Some(CrcMismatch)
    {
      FlippedInside(Bits(e), i, j);
      var t, v := PairCarried(w, e, i, j);
    }
  }

  lemma FlippedInside(s: seq<bool>, i: nat, j: nat)
    requires FlipsTwo(s, i, j)
    ensures i < j < |s|
  {
  }

  // ------------------------------------------------------------ one octet replaced

  /** Reading a stuffed string back. */
  function Destuff(x: seq<byte>): seq<byte> {
    if |x| >= 2 && x[0] == ESCAPE then [FlipEscapeBit(x[1])] + Destuff(x[2..])
    else if x == [] then []
    else [x[0]] + Destuff(x[1..])
  }

  lemma {:induction false} StuffedBack(w: seq<byte>)
    ensures Destuff(Stuff(w)) == w
  {
    if w != [] {
      EscapeRoundTrip(w[0]);
      hide FlipEscapeBit;
      StuffedBack(w[1..]);
      var x, tail := Stuff(w), Stuff(w[1..]);
      if Reserved(w[0]) {
        assert x[2..] == tail;
      } else {
        assert x[1..] == tail;
      }
    }
  }

  /** The decoder takes a frame iff its content passes the check and holds more than the checksum. */
  lemma FramedInLanguage(w: seq<byte>, v: seq<byte>)
    ensures InLanguage(Framed(w), v) <==> |w| >= 2 && CrcPasses(w) && v == w[..|w| - 1]
  {
    hide InLanguage, Framed, Feed, FirstError, Crc;
    AcceptedLanguage(Framed(w), v);
    FramedOutcome(FRESH, w);
  }

  lemma {:induction false} FlagsAppend(a: seq<byte>, b: seq<byte>)
    ensures Flags(a + b) == Flags(a) + Flags(b)
  {
    if a == [] {
      assert a + b == b;
    } else {
      assert (a + b)[1..] == a[1..] + b;
      FlagsAppend(a[1..], b);
    }
  }

  lemma FlagsOne(b: byte)
    ensures Flags([b]) == if b == FLAG then 1 else 0
  {
    assert [b][1..] == [];
  }

  lemma FlagsUpdate(x: seq<byte>, k: nat, z: byte)
    requires k < |x|
    ensures Flags(x[k := z]) == Flags(x) - (if x[k] == FLAG then 1 else 0) + if z == FLAG then 1 else 0
  {
    var a, b := x[..k], x[k + 1..];
    assert x == a + [x[k]] + b && x[k := z] == a + [z] + b;
    hide Flags;
    FlagsAppend(a + [x[k]], b);
    FlagsAppend(a, [x[k]]);
    FlagsAppend(a + [z], b);
    FlagsAppend(a, [z]);
    FlagsOne(z);
    FlagsOne(x[k]);
  }

  lemma FramedFlags(w: seq<byte>)
    ensures Flags(Framed(w)) == 2
    ensures forall k :: 0 <= k < |Framed(w)| ==> (Framed(w)[k] == FLAG <==> k == 0 || k == |Framed(w)| - 1)
  {
    StuffFlagFree(w);
    NoFlags(Stuff(w));
    FlagsOne(FLAG);
    hide Stuff, Flags;
    FlagsAppend([FLAG] + Stuff(w), [FLAG]);
    FlagsAppend([FLAG], Stuff(w));
  }

  lemma OddFlagsRejected(y: seq<byte>, v: seq<byte>)
    requires Flags(y) % 2 == 1
    ensures !InLanguage(y, v)
  {
    hide InLanguage, Feed, FirstError, Flags;
    FlagParity(FRESH, y);
    AcceptedLanguage(y, v);
  }

  lemma EscapeRejected(p: seq<byte>, c: byte, rest: seq<byte>, v: seq<byte>)
    requires !Reserved(FlipEscapeBit(c))
    ensures !InLanguage([FLAG] + Stuff(p) + [ESCAPE, c] + rest, v)
  {
    hide *;
    var s := State([], true, false, Unset);
    var t := s.(data := p);
    AcceptedLanguage([FLAG] + Stuff(p) + [ESCAPE, c] + rest, v);
    StuffedTaken(s, p);
    assert s.data + p == p;
    EscapeThrows(t, c, rest);
    FeedAppend(s, Stuff(p), [ESCAPE, c] + rest);
    OpeningFlag();
    FeedAppend(FRESH, [FLAG], Stuff(p) + ([ESCAPE, c] + rest));
    ConcatAssociates([FLAG], Stuff(p), [ESCAPE, c] + rest);
    ConcatAssociates([FLAG] + Stuff(p), [ESCAPE, c], rest);
  }

  lemma OpeningFlag()
    ensures Feed(FRESH, [FLAG]) == State([], true, false, Unset) && FirstError(FRESH, [FLAG]) == None
  {
    FeedOne(FRESH, FLAG);
  }

  lemma EscapeThrows(t: State, c: byte, rest: seq<byte>)
    requires t.decoding && !t.escape && !Reserved(FlipEscapeBit(c))
    ensures FirstError(t, [ESCAPE, c] + rest) == Some(if c == FLAG then Abort else InvalidEscape)
  {
    FeedOne(t, ESCAPE);
    FeedOne(t.(escape := true), c);
    hide Feed, FirstError, FlipEscapeBit, Reserved;
    assert [ESCAPE, c] == [ESCAPE] + [c];
    FeedAppend(t, [ESCAPE], [c]);
    FeedAppend(t, [ESCAPE, c], rest);
  }

  lemma {:induction false} CrcFromInjective(r: byte, t: byte, d: seq<byte>)
    requires CrcFrom(r, d) == CrcFrom(t, d)
    ensures r == t
    decreases d
  {
    if d != [] {
      hide ByteStep, Plus, UnshiftN;
      CrcFromInjective(ByteStep(r, d[0]), ByteStep(t, d[0]), d[1..]);
      ByteStepBijective(r, d[0], ByteStep(r, d[0]));
      ByteStepBijective(t, d[0], ByteStep(r, d[0]));
    }
  }

  /** A content with one octet replaced fails the check. */
  lemma ReplacedFails(p: seq<byte>, a: byte, b: byte, q: seq<byte>)
    requires a != b && CrcPasses(p + [a] + q)
    ensures !CrcPasses(p + [b] + q)
  {
    hide CrcFrom, ByteStep, CrcPasses, Plus, UnshiftN;
    PassesIffZeroResidue(p + [a] + q);
    PassesIffZeroResidue(p + [b] + q);
    CrcAppend(INITIAL, p + [a], q);
    CrcAppend(INITIAL, p + [b], q);
    CrcSnoc(INITIAL, p, a);
    CrcSnoc(INITIAL, p, b);
    if CrcPasses(p + [b] + q) {
      CrcFromInjective(CrcFrom(INITIAL, p + [a]), CrcFrom(INITIAL, p + [b]), q);
      ByteStepBijective(Crc(p), a, ByteStep(Crc(p), a));
      ByteStepBijective(Crc(p), b, ByteStep(Crc(p), a));
    }
  }

  /** Replacing octet `k` by `z` takes an escape away, or puts one before an octet that can follow one. */
  predicate Misread(x: seq<byte>, k: nat, z: byte)
    requires k < |x|
  {
    && 0 < k < |x| - 1 && z != FLAG
    && (x[k] == ESCAPE || (z == ESCAPE && x[k - 1] != ESCAPE && Reserved(FlipEscapeBit(x[k + 1]))))
  }

  /** The data then taken: what is inside, without the checksum it must pass. */
  predicate ReadAs(x: seq<byte>, k: nat, z: byte, v: seq<byte>)
    requires k < |x| && |x| >= 2
  {
    var w := Inside(x[k := z]);
    Misread(x, k, z) && |w| >= 2 && CrcPasses(w) && v == w[..|w| - 1]
  }

  lemma LastNotEscape(p: seq<byte>)
    requires p != []
    ensures Stuff(p) != [] && Stuff(p)[|Stuff(p)| - 1] != ESCAPE
  {
    var n := |p| - 1;
    StuffSplit(p, n);
    StuffOne(p[n]);
    EscapeRoundTrip(p[n]);
    hide Stuff, FlipEscapeBit;
    assert p[n + 1..] == [];
    StuffNothing();
  }

  /** What a frame becomes around content octet `a`, whose stuffing is replaced by `t`. */
  function Around(p: seq<byte>, t: seq<byte>, q: seq<byte>): seq<byte> {
    [FLAG] + Stuff(p) + t + (Stuff(q) + [FLAG])
  }

  lemma AroundIsFramed(p: seq<byte>, m: seq<byte>, q: seq<byte>)
    ensures Around(p, Stuff(m), q) == Framed(p + m + q)
  {
    StuffAppend(p + m, q);
    StuffAppend(p, m);
    hide Stuff;
  }

  /** The replacement spoils a plain octet, or makes an escape of it. */
  lemma PlainReplaced(p: seq<byte>, a: byte, q: seq<byte>, z: byte, v: seq<byte>)
    requires CrcPasses(p + [a] + q) && z != a && z != FLAG
    ensures var y := Around(p, [z], q); var w := Inside(y); var c := (Stuff(q) + [FLAG])[0];
            && (InLanguage(y, v) <==>
                  z == ESCAPE && Reserved(FlipEscapeBit(c)) && |w| >= 2 && CrcPasses(w) && v == w[..|w| - 1])
            && (z == ESCAPE && Reserved(FlipEscapeBit(c)) ==> |w| == |p| + |q|)
  {
    var y, c := Around(p, [z], q), (Stuff(q) + [FLAG])[0];
    hide InLanguage, CrcPasses;
    StuffOne(z);
    if z != ESCAPE {
      AroundIsFramed(p, [z], q);
      FramedInLanguage(p + [z] + q, v);
      ReplacedFails(p, a, z, q);
    } else {
      EscapeTakes(p, q, v);
    }
  }

  /** What the decoder makes of an escape put in front of `q`. */
  lemma EscapeTakes(p: seq<byte>, q: seq<byte>, v: seq<byte>)
    ensures var y := Around(p, [ESCAPE], q); var w := Inside(y); var c := (Stuff(q) + [FLAG])[0];
            && (InLanguage(y, v) <==>
                  Reserved(FlipEscapeBit(c)) && |w| >= 2 && CrcPasses(w) && v == w[..|w| - 1])
            && (Reserved(FlipEscapeBit(c)) ==> |w| == |p| + |q|)
  {
    hide *;
    var follow := Stuff(q) + [FLAG];
    var c := follow[0];
    if Reserved(FlipEscapeBit(c)) {
      EscapeFollowed(p, q, c, v);
    } else {
      AroundBegins(p, q);
      EscapeRejected(p, c, follow[1..], v);
    }
  }

  lemma EscapeFollowed(p: seq<byte>, q: seq<byte>, c: byte, v: seq<byte>)
    requires c == (Stuff(q) + [FLAG])[0] && Reserved(FlipEscapeBit(c))
    ensures var y := Around(p, [ESCAPE], q); var w := Inside(y);
            |w| == |p| + |q| && (InLanguage(y, v) <==> |w| >= 2 && CrcPasses(w) && v == w[..|w| - 1])
  {
    hide *;
    FirstFollows(q, c);
    var b, w := FlipEscapeBit(c), p + [FlipEscapeBit(c)] + q[1..];
    AroundShifts(p, c, q);
    AroundIsFramed(p, [b], q[1..]);
    InsideFramed(w);
    FramedInLanguage(w, v);
  }

  lemma AroundShifts(p: seq<byte>, c: byte, q: seq<byte>)
    requires q != [] && Stuff(q) == [c] + Stuff(q[1..])
    ensures Around(p, [ESCAPE], q) == Around(p, [ESCAPE, c], q[1..])
  {
    hide Stuff;
  }

  lemma AroundBegins(p: seq<byte>, q: seq<byte>)
    ensures var follow := Stuff(q) + [FLAG];
            Around(p, [ESCAPE], q) == [FLAG] + Stuff(p) + [ESCAPE, follow[0]] + follow[1..]
  {
    hide Stuff;
  }

  lemma NeitherFollows()
    ensures !Reserved(FlipEscapeBit(FLAG)) && !Reserved(FlipEscapeBit(ESCAPE))
  {
  }

  /** What follows an escape and may do so is a plain content octet. */
  lemma FirstFollows(q: seq<byte>, c: byte)
    requires c == (Stuff(q) + [FLAG])[0] && Reserved(FlipEscapeBit(c))
    ensures q != [] && q[0] == c && Stuff(q) == [c] + Stuff(q[1..])
    ensures Stuff([FlipEscapeBit(c)]) == [ESCAPE, c]
  {
    hide *;
    NeitherFollows();
    StuffNothing();
    if q != [] {
      StuffCons(q[0], q[1..]);
      StuffOne(q[0]);
      TakeThenDrop(q, 1);
      assert q[..1] == [q[0]];
    }
    StuffOne(FlipEscapeBit(c));
    FlipTwice(c);
  }

  lemma FlipTwice(c: byte)
    ensures FlipEscapeBit(FlipEscapeBit(c)) == c
  {
  }

  /** What lies between the first and the last octet, read back. */
  function Inside(y: seq<byte>): seq<byte>
    requires |y| >= 2
  {
    Destuff(y[1..|y| - 1])
  }

  lemma InsideFramed(w: seq<byte>)
    ensures Inside(Framed(w)) == w
  {
    StuffedBack(w);
    hide Stuff, Destuff;
    assert Framed(w)[1..|Framed(w)| - 1] == Stuff(w);
  }

  /** The replacement takes an escape away: both octets after it stand for themselves. */
  lemma EscapeReplaced(p: seq<byte>, a: byte, q: seq<byte>, z: byte, v: seq<byte>)
    requires Reserved(a) && !Reserved(z)
    ensures var y := Around(p, [z, FlipEscapeBit(a)], q); var w := Inside(y);
            && |w| == |p| + 2 + |q|
            && (InLanguage(y, v) <==> CrcPasses(w) && v == w[..|w| - 1])
  {
    var f := FlipEscapeBit(a);
    EscapeRoundTrip(a);
    StuffOne(z);
    StuffOne(f);
    StuffCons(z, [f]);
    assert [z, f] == [z] + [f];
    hide InLanguage, CrcPasses, Stuff, FlipEscapeBit;
    AroundIsFramed(p, [z, f], q);
    InsideFramed(p + [z, f] + q);
    FramedInLanguage(p + [z, f] + q, v);
  }

  /** The replacement spoils an escaped octet. */
  lemma EscapedReplaced(p: seq<byte>, a: byte, q: seq<byte>, z: byte, v: seq<byte>)
    requires CrcPasses(p + [a] + q) && z != FlipEscapeBit(a)
    ensures !InLanguage(Around(p, [ESCAPE, z], q), v)
  {
    EscapeRoundTrip(a);
    EscapeRoundTrip(z);
    var b := FlipEscapeBit(z);
    StuffOne(b);
    hide InLanguage, CrcPasses, Stuff, FlipEscapeBit;
    if Reserved(b) {
      AroundIsFramed(p, [b], q);
      FramedInLanguage(p + [b] + q, v);
      ReplacedFails(p, a, b, q);
    } else {
      EscapeRejected(p, z, Stuff(q) + [FLAG], v);
    }
  }

  /** A frame around one of its content octets. */
  lemma FramedAround(w: seq<byte>, n: nat, t: seq<byte>)
    requires n < |w| && t == if Reserved(w[n]) then [ESCAPE, FlipEscapeBit(w[n])] else [w[n]]
    ensures w == w[..n] + [w[n]] + w[n + 1..]
    ensures Framed(w) == Around(w[..n], t, w[n + 1..])
    ensures Place(w, n) == |Stuff(w[..n])|
  {
    assert Place(w, n) == |Stuff(w[..n])|;
    hide *;
    StuffOne(w[n]);
    SplitAt(w, n);
    AroundIsFramed(w[..n], [w[n]], w[n + 1..]);
  }

  lemma BeforePlain(p: seq<byte>, x: seq<byte>, k: nat)
    requires k == 1 + |Stuff(p)| && k < |x| && x[..k] == [FLAG] + Stuff(p)
    ensures x[k - 1] != ESCAPE
  {
    hide Stuff;
    assert x[k - 1] == x[..k][k - 1];
    if p == [] {
      StuffNothing();
    } else {
      LastNotEscape(p);
    }
  }

  lemma HitEscaped(p: seq<byte>, a: byte, q: seq<byte>, z: byte, v: seq<byte>)
    requires Reserved(a) && CrcPasses(p + [a] + q) && z != FlipEscapeBit(a)
    ensures var x, k := Around(p, [ESCAPE, FlipEscapeBit(a)], q), 2 + |Stuff(p)|;
            !InLanguage(x[k := z], v) && !ReadAs(x, k, z, v) && !Misread(x, k, z)
  {
    var x, k := Around(p, [ESCAPE, FlipEscapeBit(a)], q), 2 + |Stuff(p)|;
    EscapeRoundTrip(a);
    hide Stuff, InLanguage, CrcPasses, FlipEscapeBit;
    EscapedReplaced(p, a, q, z, v);
    assert x[k := z] == Around(p, [ESCAPE, z], q);
  }

  lemma HitEscape(p: seq<byte>, a: byte, q: seq<byte>, z: byte, v: seq<byte>)
    requires Reserved(a) && !Reserved(z)
    ensures var x, k := Around(p, [ESCAPE, FlipEscapeBit(a)], q), 1 + |Stuff(p)|;
            && x[k] == ESCAPE && |Inside(x[k := z])| == |p| + 2 + |q|
            && (InLanguage(x[k := z], v) <==> ReadAs(x, k, z, v))
  {
    var x, k := Around(p, [ESCAPE, FlipEscapeBit(a)], q), 1 + |Stuff(p)|;
    hide Stuff, InLanguage, CrcPasses, FlipEscapeBit, Inside;
    EscapeReplaced(p, a, q, z, v);
    assert x[k := z] == Around(p, [z, FlipEscapeBit(a)], q);
    assert Misread(x, k, z);
  }

  lemma HitPlain(p: seq<byte>, a: byte, q: seq<byte>, z: byte, v: seq<byte>)
    requires !Reserved(a) && CrcPasses(p + [a] + q) && z != a && z != FLAG
    ensures var x, k := Around(p, [a], q), 1 + |Stuff(p)|;
            && x[k] != ESCAPE && (Misread(x, k, z) ==> |Inside(x[k := z])| == |p| + |q|)
            && (InLanguage(x[k := z], v) <==> ReadAs(x, k, z, v))
  {
    var x, k := Around(p, [a], q), 1 + |Stuff(p)|;
    hide Stuff, InLanguage, CrcPasses, FlipEscapeBit, Inside;
    PlainReplaced(p, a, q, z, v);
    assert x[k := z] == Around(p, [z], q);
    BeforePlain(p, x, k);
    assert x[k + 1] == (Stuff(q) + [FLAG])[0];
  }

  lemma OctetOf(p: seq<byte>, t: seq<byte>, q: seq<byte>)
    ensures |Around(p, t, q)| >= 2 + |Stuff(p)| + |t|
    ensures |t| > 0 ==> Around(p, t, q)[1 + |Stuff(p)|] == t[0]
    ensures |t| > 1 ==> Around(p, t, q)[2 + |Stuff(p)|] == t[1]
  {
    hide Stuff;
  }

  /** The three ways to hit content octet `n`: its second wire octet, its escape, or all of it. */
  lemma InsideReplaced(w: seq<byte>, n: nat, k: nat, z: byte, v: seq<byte>)
    requires n < |w| && CrcPasses(w) && 0 < k < |Framed(w)| - 1 && z != Framed(w)[k] && z != FLAG
    requires k == 1 + Place(w, n) || (Reserved(w[n]) && k == 2 + Place(w, n))
    ensures InLanguage(Framed(w)[k := z], v) <==> ReadAs(Framed(w), k, z, v)
    ensures Misread(Framed(w), k, z) ==>
              |Inside(Framed(w)[k := z])| == if Framed(w)[k] == ESCAPE then |w| + 1 else |w| - 1
  {
    hide Stuff, InLanguage, CrcPasses, FlipEscapeBit, Inside, Framed, Misread, Place, Around, ReadAs;
    var p, a, q := w[..n], w[n], w[n + 1..];
    var t := if Reserved(a) then [ESCAPE, FlipEscapeBit(a)] else [a];
    FramedAround(w, n, t);
    OctetOf(p, t, q);
    if k == 2 + |Stuff(p)| {
      HitEscaped(p, a, q, z, v);
    } else if Reserved(a) {
      HitEscape(p, a, q, z, v);
    } else {
      HitPlain(p, a, q, z, v);
    }
  }

  lemma FrameOctetReplaced(w: seq<byte>, k: nat, z: byte, v: seq<byte>)
    requires CrcPasses(w) && k < |Framed(w)| && z != Framed(w)[k]
    ensures InLanguage(Framed(w)[k := z], v) <==> ReadAs(Framed(w), k, z, v)
    ensures Misread(Framed(w), k, z) ==>
              |Inside(Framed(w)[k := z])| == if Framed(w)[k] == ESCAPE then |w| + 1 else |w| - 1
  {
    var x := Framed(w);
    FramedFlags(w);
    if x[k] == FLAG || z == FLAG {
      FlagsUpdate(x, k, z);
      hide Stuff, InLanguage, CrcPasses, FlipEscapeBit, Inside, Framed, Flags;
      OddFlagsRejected(x[k := z], v);
    } else {
      var n := Locate(w, k - 1);
      InsideReplaced(w, n, k, z, v);
    }
  }

  /** One octet of a valid frame replaced by any other, inside or at either end. What is read, if
      anything, is exactly this: an escape taken away or put in, nothing else disturbed, and the
      longer or shorter content passing the check by chance. Everything else is refused. */
  lemma OctetReplaced(d: seq<byte>, k: nat, z: byte, v: seq<byte>)
    requires d != [] && k < |Framed(d + [Crc(d)])| && z != Framed(d + [Crc(d)])[k]
    ensures var x := Framed(d + [Crc(d)]); InLanguage(x[k := z], v) <==> ReadAs(x, k, z, v)
    ensures var x := Framed(d + [Crc(d)]); ReadAs(x, k, z, v) ==> |v| == if x[k] == ESCAPE then |d| + 1 else |d| - 1
  {
    var w := d + [Crc(d)];
    assert w[..|w| - 1] == d;
    assert CrcPasses(w);
    hide Crc, CrcPasses, Framed, InLanguage, Inside;
    FrameOctetReplaced(w, k, z, v);
  }

  lemma {:induction false} StuffPlain(w: seq<byte>)
    requires forall i :: 0 <= i < |w| ==> !Reserved(w[i])
    ensures Stuff(w) == w
  {
    hide Reserved, FlipEscapeBit;
    if w != [] {
      StuffPlain(w[1..]);
    }
  }

  /** Two known checksums. */
  lemma KnownChecksums()
    ensures Crc([0x22, 0x7C, 0x5E]) == 0x36 && Crc([0x22, 0x7E]) == 0x36
  {
    ByteStepIs(0xFF, 0x22, 0xDD, 0x5A, 0xAA);
    ByteStepIs(0xAA, 0x7C, 0xD6, 0x68, 0x8A);
    ByteStepIs(0x8A, 0x5E, 0xD4, 0x4B, 0x36);
    ByteStepIs(0xAA, 0x7E, 0xD4, 0x4B, 0x36);
    hide ByteStep, CrcFrom;
    CrcOne(0xFF, 0x22, [0x7C, 0x5E]);
    CrcOne(0xAA, 0x7C, [0x5E]);
    CrcOne(0x8A, 0x5E, []);
    CrcOne(0xFF, 0x22, [0x7E]);
    CrcOne(0xAA, 0x7E, []);
    CrcNothing(0x36);
  }

  lemma KnownFrames()
    ensures Framed([0x22, 0x7C, 0x5E] + [0x36]) == [FLAG, 0x22, 0x7C, 0x5E, 0x36, FLAG]
    ensures Framed([0x22, 0x7E] + [0x36]) == [FLAG, 0x22, 0x7D, 0x5E, 0x36, FLAG]
  {
    PlainFrame([0x22, 0x7C, 0x5E] + [0x36]);
    var p: seq<byte>, q: seq<byte>, a: byte := [0x22], [0x36], 0x7E;
    EscapedFrame(p, a, q);
    assert [0x22, 0x7E] + q == p + [a] + q;
    assert FlipEscapeBit(a) == 0x5E;
  }

  lemma PlainFrame(w: seq<byte>)
    requires forall i :: 0 <= i < |w| ==> !Reserved(w[i])
    ensures Framed(w) == [FLAG] + w + [FLAG]
  {
    StuffPlain(w);
  }

  lemma EscapedFrame(p: seq<byte>, a: byte, q: seq<byte>)
    requires Reserved(a)
    requires forall i :: 0 <= i < |p| ==> !Reserved(p[i])
    requires forall i :: 0 <= i < |q| ==> !Reserved(q[i])
    ensures Framed(p + [a] + q) == [FLAG] + p + [ESCAPE, FlipEscapeBit(a)] + q + [FLAG]
  {
    hide Stuff, Reserved, FlipEscapeBit;
    StuffPlain(p);
    StuffPlain(q);
    StuffOne(a);
    StuffAppend(p + [a], q);
    StuffAppend(p, [a]);
  }

  lemma ValidFrameTaken(d: seq<byte>)
    requires d != []
    ensures InLanguage(Framed(d + [Crc(d)]), d)
  {
    hide Crc, InLanguage, Framed;
    assert (d + [Crc(d)])[..|d|] == d;
    FramedInLanguage(d + [Crc(d)], d);
  }

  /** Such frames exist: one flipped bit, 0x7C to 0x7D, and the decoder silently takes other data. */
  lemma SilentFlip()
    ensures var d, x := [0x22, 0x7C, 0x5E], [FLAG, 0x22, 0x7C, 0x5E, 0x36, FLAG];
            Encoding(d, Crc(d)) == x && InLanguage(x, d) && InLanguage(x[2 := 0x7D], [0x22, 0x7E])
  {
    assert EncodeByte(0x36) == 0x36;
    hide *;
    KnownChecksums();
    KnownFrames();
    EncodingIsFramed([0x22, 0x7C, 0x5E], 0x36);
    ValidFrameTaken([0x22, 0x7C, 0x5E]);
    ValidFrameTaken([0x22, 0x7E]);
    assert [FLAG, 0x22, 0x7C, 0x5E, 0x36, FLAG][2 := 0x7D] == [FLAG, 0x22, 0x7D, 0x5E, 0x36, FLAG];
  }
}
