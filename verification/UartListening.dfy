/** The UART connector's receive as the listening loop meets it. */
module UartListening {
  import opened Wrappers
  import opened Crc8
  import opened Hdlc
  import opened HdlcLanguage
  import opened UartLink
  import C = Connector

  /** What the loop gets from a call of receive that finds these bytes before its timeout: None when it
      throws, and a timeout in silence is an empty buffer. */
  function Received(bytes: seq<byte>): Option<seq<byte>> {
    if FirstError(FRESH, bytes) == None && !Feed(FRESH, bytes).decoding then Some(Feed(FRESH, bytes).data) else None
  }

  /** This is what the contract of Receive says about a sound port. */
  lemma ReceivedIff(bytes: seq<byte>, d: seq<byte>)
    ensures Received(bytes) == Some(d) <==> InLanguage(bytes, d)
    ensures Received([]) == Some([])
  {
    AcceptedLanguage(bytes, d);
    hide InLanguage;
  }

  /** A listener whose receive throws clears the flag and ends, and nothing is dispatched. */
  lemma ReceiveEndsLoop(s: C.State, g: nat)
    requires C.PcL(s, g).Receiving? && !s.terminated
    ensures var played := C.Play(s, [C.Receive(g, None), C.Die(g)]);
            && played.Some? && C.PcL(played.value, g).Finished? && !played.value.listening
            && played.value.trace == s.trace
  {
    var run := [C.Receive(g, None), C.Die(g)];
    var s1 := Throws(s, g);
    var s2 := Dies(s1, g);
    hide C.Enabled, C.Step, C.Play;
    C.PlayAt(s, run, 0);
    C.PlayAt(s1, run, 1);
    C.PlayEnds(s2, run);
    C.PlayEnds(s, run);
  }

  lemma Throws(s: C.State, g: nat) returns (s1: C.State)
    requires C.PcL(s, g).Receiving? && !s.terminated
    ensures C.Enabled(s, C.Receive(g, None)) && s1 == C.Step(s, C.Receive(g, None))
    ensures C.PcL(s1, g).Dying? && !s1.terminated && s1.trace == s.trace
  {
    s1 := C.Step(s, C.Receive(g, None));
  }

  lemma Dies(s: C.State, g: nat) returns (s1: C.State)
    requires C.PcL(s, g).Dying? && !s.terminated
    ensures C.Enabled(s, C.Die(g)) && s1 == C.Step(s, C.Die(g))
    ensures C.PcL(s1, g).Finished? && !s1.listening && s1.trace == s.trace
  {
    s1 := C.Step(s, C.Die(g));
  }

  /** One frame that straddles the timeout of receive ends the listening loop, in any interleaving, and a
      loop started again ends of its second part. */
  lemma StraddlingFrameEndsLoop(run: seq<C.Action>, g: nat, d: seq<byte>, c: byte, k: nat)
    requires C.Exec(run).Some? && !C.Exec(run).value.terminated && C.PcL(C.Exec(run).value, g).Receiving?
    requires 0 < k < |Encoding(d, c)|
    ensures forall part | part == Encoding(d, c)[..k] || part == Encoding(d, c)[k..] ::
              var after := C.Exec(run + [C.Receive(g, Received(part)), C.Die(g)]);
              && after.Some? && C.PcL(after.value, g).Finished? && !after.value.listening
              && after.value.trace == C.Exec(run).value.trace
  {
    hide *;
    StraddlingFrameThrows(d, c, k);
    ReceiveEndsLoop(C.Exec(run).value, g);
    C.ExecPlay(run, [C.Receive(g, None), C.Die(g)]);
  }

  lemma StraddlingFrameThrows(d: seq<byte>, c: byte, k: nat)
    requires 0 < k < |Encoding(d, c)|
    ensures Received(Encoding(d, c)[..k]) == None && Received(Encoding(d, c)[k..]) == None
  {
    CutEncoding(d, c, k);
    hide Encoding, FirstError, Feed;
  }
}
