/** The exact language the decoder accepts. */
module HdlcLanguage {
  import opened Wrappers
  import opened Crc8
  import opened Hdlc

  predicate FlagFree(s: seq<byte>) {
    forall i :: 0 <= i < |s| ==> s[i] != FLAG
  }

  /** Bytes between two flags: `w` is the data with its checksum, before stuffing. */
  function Framed(w: seq<byte>): seq<byte> {
    [FLAG] + Stuff(w) + [FLAG]
  }

  /** Line noise followed by one well-formed frame. */
  datatype Block = Block(noise: seq<byte>, payload: seq<byte>)

  predicate ValidBlock(b: Block) {
    FlagFree(b.noise) && b.payload != []
  }

  function RenderBlock(b: Block): seq<byte> {
    b.noise + Framed(b.payload + [Crc(b.payload)])
  }

  function Render(bs: seq<Block>): seq<byte> {
    if bs == [] then [] else RenderBlock(bs[0]) + Render(bs[1..])
  }

  predicate ValidBlocks(bs: seq<Block>) {
    forall i :: 0 <= i < |bs| ==> ValidBlock(bs[i])
  }

  /** The payload of the last frame, or what was there before if there was none. */
  function LastPayload(bs: seq<Block>, before: seq<byte>): seq<byte> {
    if bs == [] then before else bs[|bs| - 1].payload
  }

  ghost predicate InLanguage(bytes: seq<byte>, d: seq<byte>) {
    exists bs: seq<Block>, tail: seq<byte> ::
      ValidBlocks(bs) && FlagFree(tail) && bytes == Render(bs) + tail && d == LastPayload(bs, [])
  }

  predicate Idle(s: State) {
    !s.decoding && !s.escape
  }

  predicate InFrame(s: State) {
    s.decoding && !s.escape && s.crc == Unset
  }

  // ------------------------------------------------------------ concatenation

  lemma {:induction false} FeedAppend(s: State, a: seq<byte>, b: seq<byte>)
    ensures Feed(s, a + b) == Feed(Feed(s, a), b)
    ensures FirstError(s, a + b) == if FirstError(s, a).Some? then FirstError(s, a) else FirstError(Feed(s, a), b)
    decreases a
  {
    hide Take;
    if a == [] {
      assert a + b == b;
    } else {
      assert (a + b)[1..] == a[1..] + b;
      FeedAppend(Take(s, a[0]).after, a[1..], b);
    }
  }

  lemma FeedOne(s: State, b: byte)
    ensures Feed(s, [b]) == Take(s, b).after && FirstError(s, [b]) == Take(s, b).thrown
  {
    hide Take;
    assert [b][1..] == [];
  }

  // ------------------------------------------------------------ printing is accepted

  lemma {:induction false} NoiseIgnored(s: State, noise: seq<byte>)
    requires !s.decoding && FlagFree(noise)
    ensures Feed(s, noise) == s && FirstError(s, noise) == None
    decreases noise
  {
    if noise != [] {
      NoiseIgnored(s, noise[1..]);
    }
  }

  /** The escape bit of a reserved octet flips it to an octet that flips back. */
  lemma EscapeRoundTrip(b: byte)
    ensures FlipEscapeBit(FlipEscapeBit(b)) == b
    ensures Reserved(b) ==> !Reserved(FlipEscapeBit(b))
  {
  }

  lemma StuffCons(b: byte, w: seq<byte>)
    ensures Stuff([b] + w) == Stuff([b]) + Stuff(w)
    ensures Stuff([b]) == if Reserved(b) then [ESCAPE, FlipEscapeBit(b)] else [b]
  {
    hide FlipEscapeBit;
    assert ([b] + w)[1..] == w;
    assert [b][1..] == [];
  }

  lemma TakeStuffed(s: State, b: byte)
    requires s.decoding && !s.escape
    ensures Feed(s, Stuff([b])) == s.(data := s.data + [b]) && FirstError(s, Stuff([b])) == None
  {
    EscapeRoundTrip(b);
    if Reserved(b) {
      var e := FlipEscapeBit(b);
      hide FlipEscapeBit;
      assert Stuff([b]) == [ESCAPE] + [e];
      FeedAppend(s, [ESCAPE], [e]);
      FeedOne(s, ESCAPE);
      FeedOne(s.(escape := true), e);
    } else {
      assert Stuff([b]) == [b];
      FeedOne(s, b);
    }
  }

  lemma {:induction false} StuffedTaken(s: State, w: seq<byte>)
    requires s.decoding && !s.escape
    ensures Feed(s, Stuff(w)) == s.(data := s.data + w) && FirstError(s, Stuff(w)) == None
    decreases w
  {
    if w == [] {
      assert s.data + w == s.data;
    } else {
      hide Feed, FirstError, Stuff;
      TakeStuffed(s, w[0]);
      assert w == [w[0]] + w[1..];
      StuffCons(w[0], w[1..]);
      FeedAppend(s, Stuff([w[0]]), Stuff(w[1..]));
      var t := s.(data := s.data + [w[0]]);
      StuffedTaken(t, w[1..]);
      assert t.data + w[1..] == s.data + w;
    }
  }

  /** What any stuffed string between two flags does to an idle decoder. */
  lemma FramedOutcome(s: State, w: seq<byte>)
    requires Idle(s)
    ensures Feed(s, Framed(w)) == CloseFrame(State(w, true, false, Unset)).after
    ensures FirstError(s, Framed(w)) == CloseFrame(State(w, true, false, Unset)).thrown
  {
    hide Stuff, CloseFrame;
    var begun, full := State([], true, false, Unset), State(w, true, false, Unset);
    FeedOne(s, FLAG);
    FeedAppend(s, [FLAG], Stuff(w));
    StuffedTaken(begun, w);
    assert [] + w == w;
    FeedAppend(s, [FLAG] + Stuff(w), [FLAG]);
    FeedOne(full, FLAG);
  }

  lemma BlockAccepted(s: State, b: Block)
    requires Idle(s) && ValidBlock(b)
    ensures Feed(s, RenderBlock(b)) == State(b.payload, false, false, Cached(Crc(b.payload)))
    ensures FirstError(s, RenderBlock(b)) == None
  {
    hide Stuff, Crc, Framed;
    var w := b.payload + [Crc(b.payload)];
    NoiseIgnored(s, b.noise);
    FeedAppend(s, b.noise, Framed(w));
    FramedOutcome(s, w);
    assert w[..|w| - 1] == b.payload;
  }

  lemma {:induction false} RenderAccepted(s: State, bs: seq<Block>, tail: seq<byte>)
    requires Idle(s) && ValidBlocks(bs) && FlagFree(tail)
    ensures FirstError(s, Render(bs) + tail) == None
    ensures Idle(Feed(s, Render(bs) + tail))
    ensures Feed(s, Render(bs) + tail).data == LastPayload(bs, s.data)
    decreases bs
  {
    hide Feed, FirstError, RenderBlock, ValidBlock, Crc;
    if bs == [] {
      assert Render(bs) + tail == tail;
      NoiseIgnored(s, tail);
    } else {
      BlockAccepted(s, bs[0]);
      var rest := Render(bs[1..]) + tail;
      assert Render(bs) + tail == RenderBlock(bs[0]) + rest;
      FeedAppend(s, RenderBlock(bs[0]), rest);
      RenderAccepted(Feed(s, RenderBlock(bs[0])), bs[1..], tail);
    }
  }

  // ------------------------------------------------------------ what is accepted was printed

  /** `bytes` closes a frame holding `w`, without an exception, and goes on with `rest`. */
  ghost predicate ClosesAs(bytes: seq<byte>, p: seq<byte>, w: seq<byte>, rest: seq<byte>, last: State) {
    && bytes == Stuff(p) + [FLAG] + rest
    && CloseFrame(State(w, true, false, Unset)).thrown == None
    && FirstError(CloseFrame(State(w, true, false, Unset)).after, rest) == None
    && Feed(CloseFrame(State(w, true, false, Unset)).after, rest) == last
  }

  lemma ClosesCons(b: byte, more: seq<byte>, p: seq<byte>, w: seq<byte>, rest: seq<byte>, last: State)
    requires ClosesAs(more, p, w, rest, last)
    ensures ClosesAs(Stuff([b]) + more, [b] + p, w, rest, last)
  {
    hide Stuff, CloseFrame, Feed, FirstError;
    StuffCons(b, p);
    assert Stuff([b]) + more == Stuff([b] + p) + [FLAG] + rest;
  }

  /** From inside a frame: an accepted string starts with the stuffing of something that closes well. */
  lemma {:induction false} ParseBody(s: State, bytes: seq<byte>) returns (p: seq<byte>, rest: seq<byte>)
    requires InFrame(s) && FirstError(s, bytes) == None && !Feed(s, bytes).decoding
    ensures ClosesAs(bytes, p, s.data + p, rest, Feed(s, bytes))
    decreases |bytes|
  {
    hide CloseFrame, FlipEscapeBit, Stuff;
    var b := bytes[0];
    if b == FLAG {
      p, rest := [], bytes[1..];
      assert s.data + p == s.data;
      assert Stuff([]) == [] by {
        StuffNothing();
      }
      assert bytes == Stuff(p) + [FLAG] + rest;
    } else {
      var plain, more := BodyOctet(s, bytes);
      hide ClosesAs, Feed, FirstError;
      var q;
      q, rest := ParseBody(s.(data := s.data + [plain]), more);
      p := [plain] + q;
      assert s.data + [plain] + q == s.data + p;
      ClosesCons(plain, more, q, s.data + p, rest, Feed(s, bytes));
    }
  }

  lemma StuffNothing()
    ensures Stuff([]) == []
  {
  }

  /** One octet of a frame's body, plain or escaped. */
  lemma BodyOctet(s: State, bytes: seq<byte>) returns (plain: byte, more: seq<byte>)
    requires InFrame(s) && FirstError(s, bytes) == None && !Feed(s, bytes).decoding
    requires bytes[0] != FLAG
    ensures bytes == Stuff([plain]) + more && |more| < |bytes|
    ensures FirstError(s.(data := s.data + [plain]), more) == None
    ensures Feed(s.(data := s.data + [plain]), more) == Feed(s, bytes)
  {
    hide CloseFrame, FlipEscapeBit, Stuff;
    var b := bytes[0];
    if b == ESCAPE {
      assert bytes[1..] != [];
      var e := bytes[1];
      plain, more := FlipEscapeBit(e), bytes[2..];
      assert bytes[1..][0] == e && bytes[1..][1..] == more;
      assert Reserved(plain);
      EscapeRoundTrip(e);
      assert bytes == [ESCAPE, e] + more;
    } else {
      plain, more := b, bytes[1..];
      assert bytes == [b] + more;
    }
    StuffCons(plain, []);
  }

  lemma ClosedWell(w: seq<byte>) returns (d: seq<byte>)
    requires CloseFrame(State(w, true, false, Unset)).thrown == None
    ensures d != [] && w == d + [Crc(d)]
    ensures CloseFrame(State(w, true, false, Unset)).after == State(d, false, false, Cached(Crc(d)))
  {
    hide Crc;
    d := w[..|w| - 1];
    assert w == d + [w[|w| - 1]];
  }

  lemma MoreNoise(b: byte, bs: seq<Block>, tail: seq<byte>) returns (cs: seq<Block>, rest: seq<byte>)
    requires b != FLAG && ValidBlocks(bs) && FlagFree(tail)
    ensures ValidBlocks(cs) && FlagFree(rest) && [b] + (Render(bs) + tail) == Render(cs) + rest
  {
    hide Framed, Crc;
    if bs == [] {
      cs, rest := [], [b] + tail;
      assert Render(cs) + rest == rest;
      assert Render(bs) + tail == tail;
    } else {
      var b0, more := Block([b] + bs[0].noise, bs[0].payload), bs[1..];
      assert RenderBlock(b0) == [b] + RenderBlock(bs[0]);
      cs, rest := [b0] + more, tail;
      assert cs[1..] == more;
      assert [b] + (Render(bs) + tail) == RenderBlock(b0) + Render(more) + tail;
    }
  }

  lemma {:induction false} Parse(s: State, bytes: seq<byte>) returns (bs: seq<Block>, tail: seq<byte>)
    requires Idle(s) && FirstError(s, bytes) == None && !Feed(s, bytes).decoding
    ensures ValidBlocks(bs) && FlagFree(tail) && bytes == Render(bs) + tail
    decreases |bytes|
  {
    if bytes == [] {
      bs, tail := [], [];
    } else {
      assert bytes == [bytes[0]] + bytes[1..];
      if bytes[0] != FLAG {
        bs, tail := Parse(s, bytes[1..]);
        hide *;
        bs, tail := MoreNoise(bytes[0], bs, tail);
      } else {
        var b0, next, rest := FirstBlock(s, bytes);
        hide *;
        var more;
        more, tail := Parse(next, rest);
        bs := [b0] + more;
        RenderCons(b0, more);
      }
    }
  }

  /** An accepted string that opens with a flag opens with a whole block. */
  lemma FirstBlock(s: State, bytes: seq<byte>) returns (b: Block, next: State, rest: seq<byte>)
    requires Idle(s) && FirstError(s, bytes) == None && !Feed(s, bytes).decoding
    requires bytes != [] && bytes[0] == FLAG
    ensures ValidBlock(b) && Idle(next) && |rest| < |bytes|
    ensures bytes == RenderBlock(b) + rest
    ensures FirstError(next, rest) == None && !Feed(next, rest).decoding
  {
    hide Crc, Stuff, CloseFrame;
    var w;
    w, rest := ParseBody(State([], true, false, Unset), bytes[1..]);
    hide Feed, FirstError;
    assert [] + w == w;
    var d := ClosedWell(w);
    b, next := Block([], d), State(d, false, false, Cached(Crc(d)));
    assert RenderBlock(b) == [FLAG] + Stuff(w) + [FLAG];
    assert bytes == [FLAG] + bytes[1..];
    assert bytes == RenderBlock(b) + rest;
  }

  lemma RenderCons(b: Block, bs: seq<Block>)
    ensures Render([b] + bs) == RenderBlock(b) + Render(bs)
    ensures ValidBlock(b) && ValidBlocks(bs) ==> ValidBlocks([b] + bs)
  {
    hide RenderBlock;
    assert ([b] + bs)[1..] == bs;
  }

  /** The accepted language, exactly: a fresh decoder reads a string without an exception and
      ends outside a frame, holding `d`, iff the string is flag-free noise interleaved with
      FLAG stuff(d ++ [crc(d)]) FLAG, and `d` is the last payload. */
  lemma AcceptedLanguage(bytes: seq<byte>, d: seq<byte>)
    ensures FirstError(FRESH, bytes) == None && !Feed(FRESH, bytes).decoding && Feed(FRESH, bytes).data == d
       <==> InLanguage(bytes, d)
  {
    hide Feed, FirstError, Render, FlagFree, ValidBlocks, LastPayload;
    if FirstError(FRESH, bytes) == None && !Feed(FRESH, bytes).decoding && Feed(FRESH, bytes).data == d {
      var bs, tail := Parse(FRESH, bytes);
      RenderAccepted(FRESH, bs, tail);
    }
    if InLanguage(bytes, d) {
      var bs, tail :| ValidBlocks(bs) && FlagFree(tail) && bytes == Render(bs) + tail && d == LastPayload(bs, []);
      RenderAccepted(FRESH, bs, tail);
    }
  }
}
