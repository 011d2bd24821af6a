/** What the encoder's output means to the decoder, and what survives a whole run of a frame object. */
module HdlcRoundTrip {
  import opened Wrappers
  import opened Crc8
  import opened Hdlc
  import opened HdlcLanguage

  // ------------------------------------------------------------ stuffing

  lemma {:induction false} StuffAppend(a: seq<byte>, b: seq<byte>)
    ensures Stuff(a + b) == Stuff(a) + Stuff(b)
    decreases a
  {
    if a == [] {
      assert a + b == b;
    } else {
      hide FlipEscapeBit, Reserved;
      assert (a + b)[1..] == a[1..] + b;
      StuffAppend(a[1..], b);
    }
  }

  /** A flag inside the encoding is impossible: every flag on the line delimits a frame. */
  lemma {:induction false} StuffFlagFree(d: seq<byte>)
    ensures FlagFree(Stuff(d))
  {
    if d != [] {
      EscapeRoundTrip(d[0]);
      hide FlipEscapeBit;
      StuffFlagFree(d[1..]);
    }
  }

  lemma StuffInjective(a: seq<byte>, b: seq<byte>)
    requires Stuff(a) == Stuff(b)
    ensures a == b
  {
    hide Stuff, Feed, FirstError;
    var s := State([], true, false, Unset);
    StuffedTaken(s, a);
    StuffedTaken(s, b);
    assert [] + a == a && [] + b == b;
  }

  lemma FirstFlagUnique(x: seq<byte>, y: seq<byte>, p: seq<byte>, q: seq<byte>)
    requires FlagFree(x) && FlagFree(y)
    requires x + [FLAG] + p == y + [FLAG] + q
    ensures x == y && p == q
  {
    var u, v := x + [FLAG] + p, y + [FLAG] + q;
    assert u[|x|] == FLAG && v[|y|] == FLAG;
    assert u[..|x|] == x && v[..|x|] == y;
    assert u[|x| + 1..] == p && v[|x| + 1..] == q;
  }

  lemma BlockThenRest(b: Block, rest: seq<byte>)
    requires ValidBlock(b)
    ensures RenderBlock(b) + rest
         == b.noise + [FLAG] + (Stuff(b.payload + [Crc(b.payload)]) + [FLAG] + rest)
  {
    hide Stuff, Crc;
  }

  /** Framing is unambiguous: one accepted string has one reading, noise and payloads included. */
  lemma {:induction false} FramingUnambiguous(cs: seq<Block>, x: seq<byte>, bs: seq<Block>, y: seq<byte>)
    requires ValidBlocks(cs) && ValidBlocks(bs) && FlagFree(x) && FlagFree(y)
    requires Render(cs) + x == Render(bs) + y
    ensures cs == bs && x == y
    decreases |cs|
  {
    hide Stuff, Crc, RenderBlock;
    if cs == [] && bs == [] {
      assert Render(cs) + x == x && Render(bs) + y == y;
    } else if cs == [] {
      assert Render(cs) + x == x;
      FlagInside(bs, y);
    } else if bs == [] {
      assert Render(bs) + y == y;
      FlagInside(cs, x);
    } else {
      var p, q := Render(cs[1..]) + x, Render(bs[1..]) + y;
      assert Render(cs) + x == RenderBlock(cs[0]) + p;
      assert Render(bs) + y == RenderBlock(bs[0]) + q;
      SameFirstBlock(cs[0], p, bs[0], q);
      FramingUnambiguous(cs[1..], x, bs[1..], y);
      assert cs == [cs[0]] + cs[1..] && bs == [bs[0]] + bs[1..];
    }
  }

  lemma FlagInside(bs: seq<Block>, y: seq<byte>)
    requires bs != [] && ValidBlocks(bs)
    ensures !FlagFree(Render(bs) + y)
  {
    hide Stuff, Crc, Framed;
    BlockThenRest(bs[0], Render(bs[1..]) + y);
    assert Render(bs) + y == RenderBlock(bs[0]) + (Render(bs[1..]) + y);
    assert (Render(bs) + y)[|bs[0].noise|] == FLAG;
  }

  lemma SameFirstBlock(a: Block, p: seq<byte>, b: Block, q: seq<byte>)
    requires ValidBlock(a) && ValidBlock(b)
    requires RenderBlock(a) + p == RenderBlock(b) + q
    ensures a == b && p == q
  {
    hide Stuff, Crc, RenderBlock;
    var v, w := a.payload + [Crc(a.payload)], b.payload + [Crc(b.payload)];
    BlockThenRest(a, p);
    BlockThenRest(b, q);
    FirstFlagUnique(a.noise, b.noise, Stuff(v) + [FLAG] + p, Stuff(w) + [FLAG] + q);
    StuffFlagFree(v);
    StuffFlagFree(w);
    FirstFlagUnique(Stuff(v), Stuff(w), p, q);
    StuffInjective(v, w);
    assert a.payload == v[..|v| - 1] && b.payload == w[..|w| - 1];
  }

  // ------------------------------------------------------------ round trip

  lemma EncodeByteNeverReserved(c: byte)
    ensures !Reserved(EncodeByte(c))
    ensures EncodeByte(c) == c <==> !Reserved(c)
    ensures EncodeByte(c) == if c == 0x7E then 0x5E else if c == 0x7D then 0x5D else c
  {
  }

  /** The encoder's output is the framing of the data and the transformed, unescaped checksum byte. */
  lemma EncodingIsFramed(d: seq<byte>, c: byte)
    ensures Encoding(d, c) == Framed(d + [EncodeByte(c)])
  {
    hide FlipEscapeBit, EncodeByte;
    EncodeByteNeverReserved(c);
    StuffAppend(d, [EncodeByte(c)]);
    StuffCons(EncodeByte(c), []);
    assert [EncodeByte(c)] + [] == [EncodeByte(c)];
    hide Stuff;
    assert Encoding(d, c) == [FLAG] + (Stuff(d) + [EncodeByte(c)]) + [FLAG];
  }

  /** One escape octet, before a reserved checksum, is all that separates the encoder's output from the
      frame that would be accepted. */
  lemma MissingEscape(d: seq<byte>, c: byte)
    requires Reserved(c)
    ensures Encoding(d, c) == [FLAG] + Stuff(d) + [c ^ 0x20, FLAG]
    ensures [FLAG] + Stuff(d) + [ESCAPE, c ^ 0x20, FLAG] == Framed(d + [c])
  {
    var f := c ^ 0x20;
    assert EncodeByte(c) == f && FlipEscapeBit(c) == f;
    StuffCons(c, []);
    hide *;
    assert [c] + [] == [c];
    EscapedLast(d, c, f);
    EncodingEnds(d, c);
  }

  lemma EscapedLast(d: seq<byte>, c: byte, f: byte)
    requires Stuff([c]) == [ESCAPE, f]
    ensures Framed(d + [c]) == [FLAG] + Stuff(d) + [ESCAPE, f, FLAG]
  {
    hide Stuff;
    StuffAppend(d, [c]);
  }

  lemma EncodingEnds(d: seq<byte>, c: byte)
    ensures Encoding(d, c) == [FLAG] + Stuff(d) + [EncodeByte(c), FLAG]
  {
  }

  /** The exact round trip: a fresh frame's encoding decodes to its data iff the checksum is
      neither 0x7D nor 0x7E; for those two the decoder reports a checksum error, having read them with
      the escape bit flipped. */
  lemma RoundTrip(s: State, d: seq<byte>)
    requires Idle(s) && d != []
    ensures FirstError(s, Encoding(d, Crc(d))) == if Reserved(Crc(d)) then Some(CrcMismatch) else None
    ensures Idle(Feed(s, Encoding(d, Crc(d))))
    ensures Feed(s, Encoding(d, Crc(d))).data == d
    ensures var c := Crc(d);
            Feed(s, Encoding(d, c)).crc == Cached(if c == 0x7E then 0x5E else if c == 0x7D then 0x5D else c)
  {
    hide Crc, FirstError, Feed, EncodeByte, Reserved, Encoding, Framed;
    var c := EncodeByte(Crc(d));
    EncodingIsFramed(d, Crc(d));
    EncodeByteNeverReserved(Crc(d));
    FramedOutcome(s, d + [c]);
    assert (d + [c])[..|d|] == d;
  }

  /** After any prefix exactly two last bytes make the round trip fail. */
  lemma FailingLastBytes(p: seq<byte>, b: byte)
    ensures FirstError(FRESH, Encoding(p + [b], Crc(p + [b]))) != None
       <==> b == LastByteFor(p, FLAG) || b == LastByteFor(p, ESCAPE)
    ensures LastByteFor(p, FLAG) != LastByteFor(p, ESCAPE)
  {
    hide FirstError, Encoding, LastByteFor, Crc;
    RoundTrip(FRESH, p + [b]);
    LastByteUnique(p, b, FLAG);
    LastByteUnique(p, b, ESCAPE);
    LastByteUnique(p, LastByteFor(p, FLAG), FLAG);
    LastByteUnique(p, LastByteFor(p, FLAG), ESCAPE);
  }

  /** A frame another station escaped correctly re-encodes to the same bytes iff its checksum
      needed no escaping. */
  lemma ReEncode(s: State, d: seq<byte>)
    requires Idle(s) && d != []
    ensures var wire := Framed(d + [Crc(d)]);
            && FirstError(s, wire) == None
            && Emit(Feed(s, wire)) == Ok(Encoding(d, Crc(d)))
            && (Emit(Feed(s, wire)) == Ok(wire) <==> !Reserved(Crc(d)))
  {
    hide Crc, Stuff, FlipEscapeBit;
    var b, c := Block([], d), Crc(d);
    BlockAccepted(s, b);
    assert RenderBlock(b) == Framed(d + [c]);
    EncodingIsFramed(d, c);
    EncodeByteNeverReserved(c);
    if Framed(d + [EncodeByte(c)]) == Framed(d + [c]) {
      var u, v := d + [EncodeByte(c)], d + [c];
      assert Framed(u)[1..|Framed(u)| - 1] == Stuff(u);
      assert Framed(v)[1..|Framed(v)| - 1] == Stuff(v);
      StuffInjective(u, v);
      assert u[|d|] == v[|d|];
    }
  }

  /** Whatever checksum a received frame carried, right or wrong, it is re-encoded with that one. */
  lemma ReEncodesAsReceived(s: State, d: seq<byte>, c: byte)
    requires Idle(s) && d != []
    ensures FirstError(s, Framed(d + [c])) == if c == Crc(d) then None else Some(CrcMismatch)
    ensures Emit(Feed(s, Framed(d + [c]))) == Ok(Encoding(d, c))
  {
    hide Crc, Framed, Feed, FirstError, Encoding;
    FramedOutcome(s, d + [c]);
    assert (d + [c])[..|d|] == d;
  }

  // ------------------------------------------------------------ flag parity and resynchronisation

  function Flags(s: seq<byte>): nat {
    if s == [] then 0 else (if s[0] == FLAG then 1 else 0) + Flags(s[1..])
  }

  lemma {:induction false} NoFlags(s: seq<byte>)
    requires FlagFree(s)
    ensures Flags(s) == 0
  {
    if s != [] {
      NoFlags(s[1..]);
    }
  }

  lemma TakeTogglesOnFlag(s: State, b: byte)
    ensures Take(s, b).after.decoding == (s.decoding != (b == FLAG))
    ensures (s.decoding || !s.escape) ==> (Take(s, b).after.decoding || !Take(s, b).after.escape)
  {
  }

  /** Errors or not, each flag and nothing else toggles `decoding`. */
  lemma {:induction false} FlagParity(s: State, bytes: seq<byte>)
    requires s.decoding || !s.escape
    ensures Feed(s, bytes).decoding == (s.decoding != (Flags(bytes) % 2 == 1))
    ensures Feed(s, bytes).decoding || !Feed(s, bytes).escape
    decreases bytes
  {
    if bytes != [] {
      TakeTogglesOnFlag(s, bytes[0]);
      hide Take;
      FlagParity(Take(s, bytes[0]).after, bytes[1..]);
    }
  }

  /** After any bytes, errors ignored, encoding is refused as unfinished iff their flags are odd in number,
      and for want of data iff they are even and nothing is held. */
  lemma EncodeRefusals(bytes: seq<byte>)
    ensures Emit(Feed(FRESH, bytes)) == Err(NotDecoded) <==> Flags(bytes) % 2 == 1
    ensures Emit(Feed(FRESH, bytes)) == Err(NoData) <==> Flags(bytes) % 2 == 0 && Feed(FRESH, bytes).data == []
  {
    hide Feed, Flags, Encoding, CrcToSend;
    FlagParity(FRESH, bytes);
  }

  /** A decoder caught inside a frame reads the next frame's opening flag as a closing one. */
  lemma OutOfStep(s: State, d: seq<byte>, c: byte)
    requires s.decoding
    ensures Feed(s, Encoding(d, c)) == State([], true, false, Unset)
  {
    var body := Stuff(d) + [EncodeByte(c)];
    EncodeByteNeverReserved(c);
    StuffFlagFree(d);
    assert Encoding(d, c) == [FLAG] + (body + [FLAG]);
    FeedAppend(s, [FLAG], body + [FLAG]);
    FeedOne(s, FLAG);
    var t := Take(s, FLAG).after;
    assert Idle(t);
    FeedAppend(t, body, [FLAG]);
    NoiseIgnored(t, body);
    FeedOne(t, FLAG);
  }

  /** After arbitrary bytes, errors ignored: the next encoded frame is received iff the bytes
      held an even number of flags; otherwise the decoder ends inside a new, empty frame. */
  lemma Resynchronisation(bytes: seq<byte>, d: seq<byte>)
    requires d != [] && !Reserved(Crc(d))
    ensures var s, wire := Feed(FRESH, bytes), Encoding(d, Crc(d));
            && (FirstError(s, wire) == None && Idle(Feed(s, wire)) && Feed(s, wire).data == d
                <==> Flags(bytes) % 2 == 0)
            && (Flags(bytes) % 2 == 1 ==> Feed(s, wire) == State([], true, false, Unset))
  {
    hide Feed, FirstError, Encoding, Crc;
    FlagParity(FRESH, bytes);
    var s := Feed(FRESH, bytes);
    if s.decoding {
      OutOfStep(s, d, Crc(d));
    } else {
      RoundTrip(s, d);
    }
  }

  // ------------------------------------------------------------ the checksum cache over whole runs

  /** A call on a frame object; exceptions are caught by the caller. */
  datatype Call = DecodeByte(b: byte) | Encode

  function Perform(s: State, call: Call): State {
    match call
    case DecodeByte(b) => Take(s, b).after
    case Encode => AfterEmit(s)
  }

  function Run(s: State, calls: seq<Call>): State {
    if calls == [] then s else Perform(Run(s, calls[..|calls| - 1]), calls[|calls| - 1])
  }

  /** Some call threw a checksum error and no frame has been opened since. */
  predicate Tainted(s: State, calls: seq<Call>) {
    if calls == [] then false
    else
      var before, call := Run(s, calls[..|calls| - 1]), calls[|calls| - 1];
      if call.DecodeByte? && Take(before, call.b).thrown == Some(CrcMismatch) then true
      else if call.DecodeByte? && !before.decoding && call.b == FLAG then false
      else Tainted(s, calls[..|calls| - 1])
  }

  predicate Constructed(s: State) {
    s == FRESH || (s.data != [] && s == State(s.data, false, false, Cached(Crc(s.data))))
  }

  predicate Coherent(s: State, tainted: bool) {
    && (s.decoding ==> s.crc == Unset && !tainted)
    && (!s.decoding ==> !s.escape)
    && (s.crc.Cached? ==> (s.crc.value == Crc(s.data) <==> !tainted))
    && (tainted ==> s.crc.Cached?)
  }

  lemma PerformCoherent(s: State, call: Call, tainted: bool)
    requires Coherent(s, tainted)
    ensures var threw := call.DecodeByte? && Take(s, call.b).thrown == Some(CrcMismatch);
            var begins := call.DecodeByte? && !s.decoding && call.b == FLAG;
            Coherent(Perform(s, call), threw || (!begins && tainted))
  {
    hide Crc, FlipEscapeBit;
  }

  /** Over every run of a frame object: while decoding no checksum is cached; outside a frame no
      escape is pending; and a cached checksum is the data's own iff the run is not tainted. */
  lemma {:induction false} CacheCoherence(s: State, calls: seq<Call>)
    requires Constructed(s)
    ensures Coherent(Run(s, calls), Tainted(s, calls))
  {
    hide Crc;
    if calls != [] {
      var shorter := calls[..|calls| - 1];
      CacheCoherence(s, shorter);
      PerformCoherent(Run(s, shorter), calls[|calls| - 1], Tainted(s, shorter));
    }
  }

  /** Encoding twice gives the same bytes twice, and after any untainted run those bytes carry
      the data's own checksum. */
  lemma EncodeIdempotent(s: State, calls: seq<Call>)
    requires Constructed(s)
    ensures var t := Run(s, calls);
            && Emit(AfterEmit(t)) == Emit(t)
            && AfterEmit(AfterEmit(t)) == AfterEmit(t)
            && (Emit(t).Ok? && !Tainted(s, calls) ==> Emit(t).value == Encoding(t.data, Crc(t.data)))
  {
    hide Crc, Run, Tainted, Encoding;
    CacheCoherence(s, calls);
  }
}
