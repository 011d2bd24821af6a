/** The accepted language once more, as a procedure that reads any string flag by flag; and with it, what
    short bursts on the wire do. */
module HdlcReading {
  import opened Wrappers
  import opened Crc8
  import opened CrcBits
  import opened CrcDetection
  import opened Hdlc
  import opened HdlcLanguage
  import opened HdlcRoundTrip
  import opened HdlcCorruption

  /** Every escape stands before an octet that may follow one. */
  predicate WellEscaped(z: seq<byte>) {
    if z == [] then true
    else if z[0] == ESCAPE then |z| >= 2 && Reserved(FlipEscapeBit(z[1])) && WellEscaped(z[2..])
    else WellEscaped(z[1..])
  }

  /** What lies between two flags is a frame the decoder takes. */
  predicate GoodFrame(z: seq<byte>) {
    WellEscaped(z) && |Destuff(z)| >= 2 && CrcPasses(Destuff(z))
  }

  /** The position of the first flag, or the length if there is none. */
  function FlagAt(y: seq<byte>): (i: nat)
    ensures i <= |y| && FlagFree(y[..i]) && (i < |y| ==> y[i] == FLAG)
  {
    if y == [] || y[0] == FLAG then 0 else 1 + FlagAt(y[1..])
  }

  /** Flags pair off, each pair encloses a good frame, and the last one holds `v` with its checksum;
      `last` is what was held before. */
  predicate Reads(y: seq<byte>, last: seq<byte>, v: seq<byte>)
    decreases |y|
  {
    var i := FlagAt(y);
    if i == |y| then v == last
    else
      var rest := y[i + 1..];
      var j := FlagAt(rest);
      j < |rest| && GoodFrame(rest[..j])
      && Reads(rest[j + 1..], Destuff(rest[..j])[..|Destuff(rest[..j])| - 1], v)
  }

  // ------------------------------------------------------------ one frame

  lemma {:induction false} WellEscapedIsStuffed(z: seq<byte>)
    requires FlagFree(z) && WellEscaped(z)
    ensures Stuff(Destuff(z)) == z
    decreases |z|
  {
    if z != [] {
      if z[0] == ESCAPE {
        EscapeRoundTrip(z[1]);
        WellEscapedIsStuffed(z[2..]);
        StuffOne(FlipEscapeBit(z[1]));
        StuffCons(FlipEscapeBit(z[1]), Destuff(z[2..]));
        hide FlipEscapeBit, Stuff, Reserved;
        assert z == [z[0], z[1]] + z[2..];
      } else {
        WellEscapedIsStuffed(z[1..]);
        StuffOne(z[0]);
        StuffCons(z[0], Destuff(z[1..]));
        hide FlipEscapeBit, Stuff, Reserved;
        assert z == [z[0]] + z[1..];
      }
    }
  }

  /** The only wrong escape stands at the end, before the closing flag. */
  predicate EndsInEscape(z: seq<byte>) {
    z != [] && z[|z| - 1] == ESCAPE && WellEscaped(z[..|z| - 1])
  }

  /** A wrong escape makes the decoder throw before or at the closing flag. */
  lemma {:induction false} WrongEscapeThrows(t: State, z: seq<byte>)
    requires t.decoding && !t.escape && FlagFree(z) && !WellEscaped(z)
    ensures FirstError(t, z + [FLAG]) == Some(if EndsInEscape(z) then Abort else InvalidEscape)
    decreases |z|
  {
    hide FlipEscapeBit, FirstError, Feed, Stuff, Take, Reserved;
    NeitherFollows();
    if z[0] == ESCAPE && |z| == 1 {
      EscapeThrows(t, FLAG, []);
      assert z + [FLAG] == [ESCAPE, FLAG] + [];
    } else if z[0] == ESCAPE && !Reserved(FlipEscapeBit(z[1])) {
      EscapeThrows(t, z[1], z[2..] + [FLAG]);
      assert z + [FLAG] == [ESCAPE, z[1]] + (z[2..] + [FLAG]);
    } else {
      var h := if z[0] == ESCAPE then 2 else 1;
      var plain := if z[0] == ESCAPE then FlipEscapeBit(z[1]) else z[0];
      HeadOctet(z, h, plain);
      TakeStuffed(t, plain);
      FeedAppend(t, z[..h], z[h..] + [FLAG]);
      WrongEscapeThrows(t.(data := t.data + [plain]), z[h..]);
      assert z + [FLAG] == z[..h] + (z[h..] + [FLAG]);
      assert z[..|z| - 1][h..] == z[h..][..|z| - h - 1];
    }
  }

  lemma HeadOctet(z: seq<byte>, h: nat, plain: byte)
    requires z != [] && FlagFree(z) && h == if z[0] == ESCAPE then 2 else 1
    requires h <= |z| && (h == 2 ==> Reserved(FlipEscapeBit(z[1])))
    requires plain == if h == 2 then FlipEscapeBit(z[1]) else z[0]
    ensures z[..h] == Stuff([plain]) && FlagFree(z[h..])
  {
    StuffOne(plain);
    FlipTwice(z[h - 1]);
    hide Stuff, FlipEscapeBit;
    assert z[..h] == if h == 2 then [z[0], z[1]] else [z[0]];
  }

  /** What the decoder makes of a flag-free string between two flags: every exception, and when. */
  function Verdict(z: seq<byte>): Option<FrameError> {
    if !WellEscaped(z) then Some(if EndsInEscape(z) then Abort else InvalidEscape)
    else if z == [] then Some(EmptyFrame)
    else if |Destuff(z)| < 2 then Some(ShortFrame)
    else if !CrcPasses(Destuff(z)) then Some(CrcMismatch)
    else None
  }

  lemma FrameRead(s: State, z: seq<byte>)
    requires Idle(s) && FlagFree(z)
    ensures var y := [FLAG] + z + [FLAG];
            && FirstError(s, y) == Verdict(z)
            && (Verdict(z) == None <==> GoodFrame(z))
            && (GoodFrame(z) ==>
                  Idle(Feed(s, y)) && Feed(s, y).data == Destuff(z)[..|Destuff(z)| - 1])
  {
    hide Crc, Feed, FirstError, Stuff, Destuff, WellEscaped;
    if WellEscaped(z) {
      WellEscapedIsStuffed(z);
      DestuffedEmpty(z);
      FramedOutcome(s, Destuff(z));
    } else {
      WrongEscapeThrows(State([], true, false, Unset), z);
      OpenedBy(s);
      FeedAppend(s, [FLAG], z + [FLAG]);
      assert [FLAG] + z + [FLAG] == [FLAG] + (z + [FLAG]);
    }
  }

  lemma DestuffedEmpty(z: seq<byte>)
    ensures Destuff(z) == [] <==> z == []
  {
  }

  /** What a frame under way holds after more of it, exceptions ignored: wrong escapes are dropped with
      the octet after them. */
  function Salvage(z: seq<byte>): seq<byte> {
    if z == [] then []
    else if z[0] != ESCAPE then [z[0]] + Salvage(z[1..])
    else if |z| == 1 then []
    else (if Reserved(FlipEscapeBit(z[1])) then [FlipEscapeBit(z[1])] else []) + Salvage(z[2..])
  }

  lemma {:induction false} ErrorsIgnored(t: State, z: seq<byte>)
    requires t.decoding && !t.escape && FlagFree(z)
    ensures Feed(t, z).decoding && Feed(t, z).crc == t.crc && Feed(t, z).data == t.data + Salvage(z)
    decreases |z|
  {
    if z != [] {
      hide FlipEscapeBit, Reserved;
      if z[0] != ESCAPE {
        ErrorsIgnored(t.(data := t.data + [z[0]]), z[1..]);
      } else if |z| > 1 {
        var u := if Reserved(FlipEscapeBit(z[1])) then t.(data := t.data + [FlipEscapeBit(z[1])]) else t;
        assert z[1..][1..] == z[2..];
        ErrorsIgnored(u, z[2..]);
      }
    }
  }

  lemma OpenedBy(s: State)
    requires Idle(s)
    ensures Feed(s, [FLAG]) == State([], true, false, Unset) && FirstError(s, [FLAG]) == None
  {
    FeedOne(s, FLAG);
  }

  // ------------------------------------------------------------ any string

  /** The decoder takes `y` from `s` and ends outside a frame, holding `v`. */
  predicate Takes(s: State, y: seq<byte>, v: seq<byte>) {
    FirstError(s, y) == None && !Feed(s, y).decoding && Feed(s, y).data == v
  }

  lemma TakesAppend(s: State, a: seq<byte>, b: seq<byte>, v: seq<byte>)
    ensures Takes(s, a + b, v) <==> FirstError(s, a) == None && Takes(Feed(s, a), b, v)
  {
    hide Feed, FirstError;
    FeedAppend(s, a, b);
  }

  lemma {:induction false} ReadsFrom(s: State, y: seq<byte>, v: seq<byte>)
    requires Idle(s)
    ensures Takes(s, y, v) <==> Reads(y, s.data, v)
    decreases |y|
  {
    hide Feed, FirstError, GoodFrame, Destuff, FlagAt;
    var i := FlagAt(y);
    NoiseIgnored(s, y[..i]);
    if i == |y| {
      assert y[..i] == y;
    } else {
      var rest := y[i + 1..];
      var j := FlagAt(rest);
      assert y == y[..i] + ([FLAG] + rest);
      TakesAppend(s, y[..i], [FLAG] + rest, v);
      if j == |rest| {
        OpenedBy(s);
        assert rest[..j] == rest;
        TakesAppend(s, [FLAG], rest, v);
        UnclosedRejected(rest, v);
      } else {
        var z, more := rest[..j], rest[j + 1..];
        assert [FLAG] + rest == [FLAG] + z + [FLAG] + more;
        TakesAppend(s, [FLAG] + z + [FLAG], more, v);
        FrameRead(s, z);
        if GoodFrame(z) {
          ReadsFrom(Feed(s, [FLAG] + z + [FLAG]), more, v);
        }
      }
    }
  }

  lemma UnclosedRejected(rest: seq<byte>, v: seq<byte>)
    requires FlagFree(rest)
    ensures !Takes(State([], true, false, Unset), rest, v)
  {
    FlagParity(State([], true, false, Unset), rest);
    NoFlags(rest);
  }

  /** The decoder's language, decided for any string whatever. */
  lemma ReadsIff(y: seq<byte>, v: seq<byte>)
    ensures InLanguage(y, v) <==> Reads(y, [], v)
  {
    hide InLanguage, Reads, Feed, FirstError;
    AcceptedLanguage(y, v);
    ReadsFrom(FRESH, y, v);
  }

  /** A burst of at most eight bits on a valid frame, wherever it lies, is received as anything only if
      it disturbs the stuffing, and then exactly as what the damaged string reads. */
  lemma ShortBurst(d: seq<byte>, e: seq<byte>, k: nat, v: seq<byte>)
    requires d != [] && |e| == |Framed(d + [Crc(d)])|
    requires Within(Bits(e), k, 8) && true in Bits(e)
    ensures var x := Framed(d + [Crc(d)]);
            InLanguage(Xor(x, e), v) <==> !KeepsStuffing(x, e) && Reads(Xor(x, e), [], v)
  {
    hide *;
    var x := Framed(d + [Crc(d)]);
    ReadsIff(Xor(x, e), v);
    if KeepsStuffing(x, e) {
      FreshIsIdle();
      WireErrorsThrow(FRESH, d, e);
      AcceptedLanguage(Xor(x, e), v);
    }
  }

  lemma FreshIsIdle()
    ensures Idle(FRESH)
  {
  }
}
