/** UartConnector::send and UartConnector::receive over a serial port. */
module UartLink {
  import opened Wrappers
  import opened Crc8
  import opened Hdlc
  import opened HdlcLanguage
  import opened HdlcRoundTrip
  import opened HdlcCorruption
  import opened HdlcReading

  datatype LinkError = Frame(error: FrameError) | PortFailed

  /** A port as the connector sees it: the bytes that will arrive before the next read times out
      or, when `broken`, fails; how many bytes the next write passes on before it times out or, when
      `refusing`, fails; and the bytes written so far. */
  class SerialPort {
    var pending: seq<byte>
    var broken: bool
    var room: nat
    var refusing: bool
    var written: seq<byte>

    constructor (room: nat, refusing: bool)
      ensures pending == [] && !broken && written == [] && this.room == room && this.refusing == refusing
    {
      pending, broken, written := [], false, [];
      this.room, this.refusing := room, refusing;
    }

    /** Blocking write: the number of bytes passed on, -1 on failure. */
    method BlockingWrite(bytes: seq<byte>) returns (count: int)
      modifies this`written
      ensures written == old(written) + Fitting(bytes, room)
      ensures count == if refusing then -1 else |Fitting(bytes, room)|
    {
      var part := Fitting(bytes, room);
      written := written + part;
      count := if refusing then -1 else |part|;
    }

    /** One-byte blocking read: 1 and the byte, 0 on timeout, -1 on failure. */
    method BlockingRead() returns (count: int, b: byte)
      modifies this`pending
      ensures old(pending) != [] ==> count == 1 && b == old(pending)[0] && pending == old(pending)[1..]
      ensures old(pending) == [] ==> count == (if broken then -1 else 0) && pending == []
    {
      if pending == [] {
        return if broken then -1 else 0, 0;
      }
      count, b := 1, pending[0];
      pending := pending[1..];
    }
  }

  /** What of `bytes` fits into `room`. */
  function Fitting(bytes: seq<byte>, room: nat): (part: seq<byte>)
    ensures part <= bytes && |part| <= room && (room < |bytes| ==> |part| == room)
    ensures |bytes| <= room ==> part == bytes
  {
    bytes[..if room < |bytes| then room else |bytes|]
  }

  /** The bytes left unread after the first one that makes the decoder throw. */
  function Unread(s: State, bytes: seq<byte>): seq<byte>
    decreases bytes
  {
    if bytes == [] then []
    else if Take(s, bytes[0]).thrown.Some? then bytes[1..]
    else Unread(Take(s, bytes[0]).after, bytes[1..])
  }

  /** The first `k` bytes are the shortest ones at whose end a fresh decoder throws. */
  predicate ThrowsAt(bytes: seq<byte>, k: nat) {
    && k <= |bytes| && FirstError(FRESH, bytes[..k]) != None
    && forall j :: 0 <= j < k ==> FirstError(FRESH, bytes[..j]) == None
  }

  lemma {:induction false} UnreadAt(s: State, bytes: seq<byte>) returns (k: nat)
    requires FirstError(s, bytes) != None
    ensures k <= |bytes| && Unread(s, bytes) == bytes[k..] && FirstError(s, bytes[..k]) == FirstError(s, bytes)
    ensures forall j :: 0 <= j < k ==> FirstError(s, bytes[..j]) == None
    decreases bytes
  {
    hide Take;
    var step := Take(s, bytes[0]);
    if step.thrown.Some? {
      k := 1;
      assert bytes[..1][1..] == [];
    } else {
      k := UnreadAt(step.after, bytes[1..]);
      forall j | 0 < j <= k + 1
        ensures bytes[..j][0] == bytes[0] && bytes[..j][1..] == bytes[1..][..j - 1]
      {
      }
      k := k + 1;
    }
  }

  lemma {:induction false} AllRead(s: State, bytes: seq<byte>)
    requires FirstError(s, bytes) == None
    ensures Unread(s, bytes) == []
    decreases bytes
  {
    hide Take;
    if bytes != [] {
      AllRead(Take(s, bytes[0]).after, bytes[1..]);
    }
  }

  lemma LeftUnread(bytes: seq<byte>)
    ensures FirstError(FRESH, bytes) == None ==> Unread(FRESH, bytes) == []
    ensures FirstError(FRESH, bytes) != None ==>
              exists k: nat :: ThrowsAt(bytes, k) && Unread(FRESH, bytes) == bytes[k..]
  {
    hide FirstError, Unread;
    if FirstError(FRESH, bytes) == None {
      AllRead(FRESH, bytes);
    } else {
      var k := UnreadAt(FRESH, bytes);
      assert ThrowsAt(bytes, k);
    }
  }

  lemma {:induction false} UnreadAppend(s: State, a: seq<byte>, b: seq<byte>)
    requires FirstError(s, a) == None
    ensures Unread(s, a + b) == Unread(Feed(s, a), b)
    decreases a
  {
    hide Take;
    if a == [] {
      assert a + b == b;
    } else {
      assert (a + b)[1..] == a[1..] + b;
      UnreadAppend(Take(s, a[0]).after, a[1..], b);
    }
  }

  /** A bad frame followed by a good one, in the port at once. The first call throws what is wrong with the
      bad frame. The second receives the good one, unless the fault was a wrong escape: then the bad
      frame's closing flag is taken for an opening one, and the good frame is lost. */
  lemma AfterBadFrame(z: seq<byte>, d: seq<byte>)
    requires FlagFree(z) && !GoodFrame(z) && d != []
    ensures var good := Framed(d + [Crc(d)]); var bytes := [FLAG] + z + [FLAG] + good;
            && FirstError(FRESH, bytes) == Verdict(z) != None
            && (Verdict(z) != Some(InvalidEscape) ==>
                  Unread(FRESH, bytes) == good && forall v :: InLanguage(Unread(FRESH, bytes), v) <==> v == d)
            && (Verdict(z) == Some(InvalidEscape) ==> forall v :: !InLanguage(Unread(FRESH, bytes), v))
  {
    var good := Framed(d + [Crc(d)]);
    var bad := [FLAG] + z + [FLAG];
    hide Crc, Framed, GoodFrame, Verdict, InLanguage, FirstError, Feed, Flags, Unread;
    FreshIsIdle();
    FrameRead(FRESH, z);
    FeedAppend(FRESH, bad, good);
    if Verdict(z) != Some(InvalidEscape) {
      ThrownAtTheFlag(z, good);
      forall v
        ensures InLanguage(good, v) <==> v == d
      {
        OnlyThatPayload(d, v);
      }
    } else {
      InvalidEscapeLosesNext(bad + good, z, d);
    }
  }

  lemma OnlyThatPayload(d: seq<byte>, v: seq<byte>)
    requires d != []
    ensures InLanguage(Framed(d + [Crc(d)]), v) <==> v == d
  {
    hide InLanguage, Framed, Crc;
    assert (d + [Crc(d)])[..|d|] == d;
    FramedInLanguage(d + [Crc(d)], v);
  }

  /** Every fault but a wrong escape is noticed at the closing flag. */
  lemma ThrownAtTheFlag(z: seq<byte>, rest: seq<byte>)
    requires FlagFree(z) && Verdict(z) != None && Verdict(z) != Some(InvalidEscape)
    ensures Unread(FRESH, [FLAG] + z + [FLAG] + rest) == rest
  {
    hide Verdict, FirstError, Feed, Unread;
    var begun := State([], true, false, Unset);
    FreshIsIdle();
    OpenedBy(FRESH);
    QuietInside(begun, z);
    FrameRead(FRESH, z);
    FeedAppend(FRESH, [FLAG], z);
    FeedAppend(FRESH, [FLAG] + z, [FLAG]);
    UnreadAppend(FRESH, [FLAG] + z, [FLAG] + rest);
    assert [FLAG] + z + [FLAG] + rest == [FLAG] + z + ([FLAG] + rest);
    var t := Feed(FRESH, [FLAG] + z);
    FeedOne(t, FLAG);
    UnreadThrown(t, rest);
  }

  lemma UnreadThrown(t: State, rest: seq<byte>)
    requires Take(t, FLAG).thrown.Some?
    ensures Unread(t, [FLAG] + rest) == rest
  {
    hide Take;
    assert ([FLAG] + rest)[1..] == rest;
  }

  lemma QuietInside(t: State, z: seq<byte>)
    requires t.decoding && !t.escape && FlagFree(z) && Verdict(z) != Some(InvalidEscape)
    ensures FirstError(t, z) == None
  {
    hide Feed, FirstError, WellEscaped, Stuff, Destuff;
    if WellEscaped(z) {
      WellEscapedIsStuffed(z);
      StuffedTaken(t, Destuff(z));
    } else {
      var y := z[..|z| - 1];
      assert z == y + [ESCAPE];
      WellEscapedIsStuffed(y);
      StuffedTaken(t, Destuff(y));
      FeedAppend(t, y, [ESCAPE]);
      FeedOne(Feed(t, y), ESCAPE);
    }
  }

  /** A call that stopped at a wrong escape leaves an odd number of flags behind. */
  lemma InvalidEscapeLosesNext(bytes: seq<byte>, z: seq<byte>, d: seq<byte>)
    requires FlagFree(z) && bytes == [FLAG] + z + [FLAG] + Framed(d + [Crc(d)])
    requires FirstError(FRESH, bytes) == Some(InvalidEscape)
    ensures forall v :: !InLanguage(Unread(FRESH, bytes), v)
  {
    hide InLanguage, FirstError, Feed, Unread, Flags, Crc, Framed;
    var k := UnreadAt(FRESH, bytes);
    var good := Framed(d + [Crc(d)]);
    FramedFlags(d + [Crc(d)]);
    FlagsAppend([FLAG] + z + [FLAG], good);
    FlagsAppend([FLAG] + z, [FLAG]);
    FlagsAppend([FLAG], z);
    FlagsOne(FLAG);
    NoFlags(z);
    assert bytes == bytes[..k] + bytes[k..];
    FlagsAppend(bytes[..k], bytes[k..]);
    EscapeErrorInside(bytes, k);
    FlagParity(FRESH, bytes[..k]);
    forall v
      ensures !InLanguage(bytes[k..], v)
    {
      OddFlagsRejected(bytes[k..], v);
    }
  }

  /** At a wrong escape the decoder stays inside the frame. */
  lemma EscapeErrorInside(bytes: seq<byte>, k: nat)
    requires k <= |bytes| && FirstError(FRESH, bytes[..k]) == Some(InvalidEscape)
    requires forall j :: 0 <= j < k ==> FirstError(FRESH, bytes[..j]) == None
    ensures Feed(FRESH, bytes[..k]).decoding
  {
    if k > 0 {
      var a, b := bytes[..k - 1], bytes[k - 1];
      assert bytes[..k] == a + [b];
      hide FirstError, Feed;
      FeedAppend(FRESH, a, [b]);
      FeedOne(Feed(FRESH, a), b);
      assert FirstError(FRESH, a) == None;
    }
  }

  /** A call receives `d` iff the port is sound and everything that arrived before the timeout is
      in the decoder's language with `d` its last payload. An exception leaves the bytes after
      the offending one in the port. */
  method Receive(port: SerialPort) returns (r: Result<seq<byte>, LinkError>)
    modifies port`pending
    ensures forall d :: r == Ok(d) <==> !port.broken && InLanguage(old(port.pending), d)
    ensures forall e | e != NotDecoded :: r == Err(Frame(e)) <==> FirstError(FRESH, old(port.pending)) == Some(e)
    ensures r == Err(PortFailed) <==> FirstError(FRESH, old(port.pending)) == None && port.broken
    ensures r == Err(Frame(NotDecoded))
       <==> FirstError(FRESH, old(port.pending)) == None && !port.broken && Flags(old(port.pending)) % 2 == 1
    ensures FirstError(FRESH, old(port.pending)) == None ==> port.pending == []
    ensures FirstError(FRESH, old(port.pending)) != None ==>
              exists k: nat :: ThrowsAt(old(port.pending), k) && port.pending == old(port.pending)[k..]
  {
    ghost var input := port.pending;
    LeftUnread(input);
    hide ThrowsAt;
    var frame := new HdlcFrame();
    var count, b := port.BlockingRead();
    while count > 0
      invariant fresh(frame)
      invariant count > 0 ==> count == 1
      invariant count <= 0 ==> port.pending == [] && count == if port.broken then -1 else 0
      invariant var rest := if count > 0 then [b] + port.pending else [];
                && FirstError(FRESH, input) == FirstError(frame.Fields(), rest)
                && Feed(FRESH, input) == Feed(frame.Fields(), rest)
                && Unread(FRESH, input) == Unread(frame.Fields(), rest)
      decreases count > 0, |port.pending|
    {
      ghost var rest := [b] + port.pending;
      assert rest[1..] == port.pending;
      var thrown := frame.DecodeByte(b);
      if thrown.Some? {
        LanguageOf(input);
        DecoderErrors(FRESH, input);
        return Err(Frame(thrown.value));
      }
      ghost var left := port.pending;
      count, b := port.BlockingRead();
      assert left == if count > 0 then [b] + port.pending else [];
    }
    LanguageOf(input);
    if count < 0 {
      return Err(PortFailed);
    }
    FlagParity(FRESH, input);
    var data := frame.GetData();
    r := match data case Ok(d) => Ok(d) case Err(e) => Err(Frame(e));
  }

  lemma LanguageOf(bytes: seq<byte>)
    ensures forall d :: InLanguage(bytes, d) <==>
              FirstError(FRESH, bytes) == None && !Feed(FRESH, bytes).decoding && Feed(FRESH, bytes).data == d
  {
    hide FirstError, Feed, InLanguage;
    forall d {
      AcceptedLanguage(bytes, d);
    }
  }

  lemma {:induction false} DecoderErrors(s: State, bytes: seq<byte>)
    ensures FirstError(s, bytes) != Some(NotDecoded)
    decreases bytes
  {
    if bytes != [] {
      DecoderErrors(Take(s, bytes[0]).after, bytes[1..]);
    }
  }

  /** Sending refuses empty data and writes the encoding of any other, reporting a failure of the
      port but not a write cut short. */
  method Send(port: SerialPort, data: seq<byte>) returns (r: Result<(), LinkError>)
    modifies port`written
    ensures r == if data == [] then Err(Frame(NoData)) else if port.refusing then Err(PortFailed) else Ok(())
    ensures port.written
         == old(port.written) + if data == [] then [] else Fitting(Encoding(data, Crc(data)), port.room)
  {
    if |data| == 0 {
      return Err(Frame(NoData));
    }
    var frame := HdlcFrame.FromData(data);
    var encoded := frame.Encode();
    var count := port.BlockingWrite(encoded.value);
    if count < 0 {
      return Err(PortFailed);
    }
    return Ok(());
  }

  /** A write cut short, which the sender takes for success: nothing of it is received, and unless not
      a byte of it went out, the next message is lost too and leaves the receiver inside a frame. */
  lemma ShortWrite(d: seq<byte>, room: nat, next: seq<byte>)
    requires d != [] && next != [] && room < |Encoding(d, Crc(d))|
    ensures var part, wire := Fitting(Encoding(d, Crc(d)), room), Encoding(next, Crc(next));
            && FirstError(FRESH, part) == None
            && (forall v :: InLanguage(part, v) <==> room == 0 && v == [])
            && (room == 0 ==> (InLanguage(part + wire, next) <==> !Reserved(Crc(next))))
            && (room > 0 ==> Feed(FRESH, part + wire) == State([], true, false, Unset))
            && (room > 0 ==> forall v :: !InLanguage(part + wire, v))
  {
    var part, wire := Fitting(Encoding(d, Crc(d)), room), Encoding(next, Crc(next));
    LanguageOf(part);
    LanguageOf(part + wire);
    RoundTrip(FRESH, next);
    if room == 0 {
      assert part == [] && part + wire == wire;
    } else {
      CutEncoding(d, Crc(d), room);
      hide Encoding, Feed, FirstError, InLanguage, Crc, Fitting;
      FeedAppend(FRESH, part, wire);
      OutOfStep(Feed(FRESH, part), next, Crc(next));
    }
  }

  /** An encoding cut anywhere inside: either part leaves a fresh decoder inside a frame, unalarmed. */
  lemma CutEncoding(d: seq<byte>, c: byte, k: nat)
    requires 0 < k < |Encoding(d, c)|
    ensures FirstError(FRESH, Encoding(d, c)[..k]) == None && Feed(FRESH, Encoding(d, c)[..k]).decoding
    ensures FirstError(FRESH, Encoding(d, c)[k..]) == None && Feed(FRESH, Encoding(d, c)[k..]).decoding
  {
    hide Crc, CloseFrame, FlipEscapeBit;
    EncodingIsFramed(d, c);
    var w := d + [EncodeByte(c)];
    var a, b := Stuff(w)[..k - 1], Stuff(w)[k - 1..];
    assert Encoding(d, c)[..k] == [FLAG] + a && Encoding(d, c)[k..] == b + [FLAG];
    StuffFlagFree(w);
    FrontOfFrame(w, a, b);
    hide *;
    FlagAfterNoise(b);
  }

  lemma FrontOfFrame(w: seq<byte>, a: seq<byte>, b: seq<byte>)
    requires Stuff(w) == a + b && FlagFree(a)
    ensures FirstError(FRESH, [FLAG] + a) == None && Feed(FRESH, [FLAG] + a).decoding
  {
    hide Crc, CloseFrame, FlipEscapeBit;
    var begun := State([], true, false, Unset);
    FeedOne(FRESH, FLAG);
    StuffedTaken(begun, w);
    hide Stuff;
    FeedAppend(begun, a, b);
    FeedAppend(FRESH, [FLAG], a);
    FlagParity(begun, a);
    NoFlags(a);
  }

  lemma FlagAfterNoise(b: seq<byte>)
    requires FlagFree(b)
    ensures FirstError(FRESH, b + [FLAG]) == None && Feed(FRESH, b + [FLAG]).decoding
  {
    NoiseIgnored(FRESH, b);
    FeedOne(FRESH, FLAG);
    hide Feed, FirstError;
    FeedAppend(FRESH, b, [FLAG]);
  }

  /** So a frame that straddles the read timeout, wherever it is cut, is received by neither call. */
  lemma StraddlingFrameLost(d: seq<byte>, c: byte, k: nat, v: seq<byte>)
    requires 0 < k < |Encoding(d, c)|
    ensures !InLanguage(Encoding(d, c)[..k], v) && !InLanguage(Encoding(d, c)[k..], v)
  {
    hide *;
    CutEncoding(d, c, k);
    AcceptedLanguage(Encoding(d, c)[..k], v);
    AcceptedLanguage(Encoding(d, c)[k..], v);
  }

  /** The wire after sending the messages one after another. */
  function Sent(messages: seq<seq<byte>>): seq<byte> {
    if messages == [] then [] else Encoding(messages[0], Crc(messages[0])) + Sent(messages[1..])
  }

  predicate Sendable(messages: seq<seq<byte>>) {
    forall i :: 0 <= i < |messages| ==> messages[i] != []
  }

  predicate NoReservedChecksum(messages: seq<seq<byte>>) {
    forall i :: 0 <= i < |messages| ==> !Reserved(Crc(messages[i]))
  }

  function AsBlocks(messages: seq<seq<byte>>): (bs: seq<Block>)
    ensures |bs| == |messages|
    ensures forall i :: 0 <= i < |bs| ==> bs[i] == Block([], messages[i])
  {
    seq(|messages|, i requires 0 <= i < |messages| => Block([], messages[i]))
  }

  lemma {:induction false} SentIsRendered(messages: seq<seq<byte>>)
    requires Sendable(messages) && NoReservedChecksum(messages)
    ensures Sent(messages) == Render(AsBlocks(messages))
  {
    hide Crc, Encoding, Framed, EncodeByte, Reserved;
    if messages != [] {
      var d := messages[0];
      EncodingIsFramed(d, Crc(d));
      EncodeByteNeverReserved(Crc(d));
      assert AsBlocks(messages)[1..] == AsBlocks(messages[1..]);
      assert RenderBlock(Block([], d)) == Framed(d + [Crc(d)]);
      SentIsRendered(messages[1..]);
    }
  }

  /** A message whose checksum is reserved stops the receiver, whatever follows it. */
  lemma {:induction false} ReservedChecksumStops(s: State, messages: seq<seq<byte>>, i: nat)
    requires Idle(s) && Sendable(messages) && i < |messages| && Reserved(Crc(messages[i]))
    ensures FirstError(s, Sent(messages)) == Some(CrcMismatch)
    decreases messages
  {
    hide Crc, Encoding, Reserved, Feed, FirstError;
    var d, rest := messages[0], Sent(messages[1..]);
    RoundTrip(s, d);
    FeedAppend(s, Encoding(d, Crc(d)), rest);
    if !Reserved(Crc(d)) {
      ReservedChecksumStops(Feed(s, Encoding(d, Crc(d))), messages[1..], i - 1);
    }
  }

  lemma PlainChecksumsAccepted(messages: seq<seq<byte>>)
    requires messages != [] && Sendable(messages) && NoReservedChecksum(messages)
    ensures InLanguage(Sent(messages), messages[|messages| - 1])
  {
    hide Crc, Sent, Render, Reserved;
    SentIsRendered(messages);
    var bs := AsBlocks(messages);
    assert Sent(messages) == Render(bs) + [];
    assert ValidBlocks(bs) && FlagFree([]) && messages[|messages| - 1] == LastPayload(bs, []);
  }

  /** Messages sent back to back and read in one call: the last one is received iff no checksum
      along the way is 0x7D or 0x7E; the earlier ones are overwritten. */
  lemma BackToBack(messages: seq<seq<byte>>)
    requires messages != [] && Sendable(messages)
    ensures InLanguage(Sent(messages), messages[|messages| - 1]) <==> NoReservedChecksum(messages)
  {
    if NoReservedChecksum(messages) {
      hide *;
      PlainChecksumsAccepted(messages);
    } else {
      var i :| 0 <= i < |messages| && Reserved(Crc(messages[i]));
      hide *;
      ReservedChecksumStops(FRESH, messages, i);
      AcceptedLanguage(Sent(messages), messages[|messages| - 1]);
    }
  }
}
