/** The listening loop goes on: when a listener is alive, why one ends, and what it delivers. */
module ConnectorLoop {
  import opened Wrappers
  import opened Connector
  import opened ConnectorSafety
  import opened ConnectorLifecycle

  // ------------------------------------------------------------ alive while the flag is up

  ghost predicate AliveInv(s: State) {
    s.listening && !s.controller.Spawning? ==> s.next > 0 && Live(s, s.next - 1)
  }

  lemma ListenerStaysAlive(s: State, a: Action)
    requires ListenerEnabled(s, a) && AliveInv(s)
    ensures AliveInv(ListenerStep(s, a))
  {
    var s' := ListenerStep(s, a);
    EndsIff(s, a);
    hide GoesTo, Told;
    assert PcL(s', a.g) == GoesTo(s, a);
    assert forall g :: g != a.g ==> PcL(s', g) == PcL(s, g);
  }

  /** A listener's step ends it iff it finds the flag down or clears it. */
  lemma EndsIff(s: State, a: Action)
    requires ListenerEnabled(s, a)
    ensures GoesTo(s, a).Finished? <==> (a.Test? && !s.listening) || a.Die?
  {
  }

  lemma StepKeepsAlive(s: State, a: Action)
    requires Enabled(s, a) && AliveInv(s)
    ensures AliveInv(Step(s, a))
  {
    if ClientEnabled(s, a) {
      ClientFrame(s, a);
      hide ClientStep, ClientEnabled;
    } else if ListenerEnabled(s, a) {
      ListenerStaysAlive(s, a);
      hide ListenerStep, ListenerEnabled, ClientEnabled;
    } else {
      hide ClientEnabled, ListenerEnabled;
    }
  }

  lemma {:induction false} ReachableAlive(run: seq<Action>)
    requires Exec(run).Some?
    ensures AliveInv(Exec(run).value)
  {
    if run != [] {
      hide AliveInv;
      LastStep(run);
      ReachableAlive(run[..|run| - 1]);
      hide Exec, Step, Enabled;
      StepKeepsAlive(Exec(run[..|run| - 1]).value, run[|run| - 1]);
    }
  }

  /** Over every interleaving, while no listen or stopListen is under way, isListening answers whether a
      listener is running. */
  lemma ListeningIff(run: seq<Action>)
    requires Exec(run).Some? && Exec(run).value.controller.Ready?
    ensures var s := Exec(run).value; s.listening <==> exists g: nat :: Live(s, g)
  {
    ReachableAlive(run);
    ReachableLife(run);
    hide Exec, Live;
  }

  /** Over every interleaving, a listener ends only by a test that finds the flag down, or dying. */
  lemma EndsOnly(run: seq<Action>, g: nat)
    requires Exec(run).Some? && run != []
    ensures var s, a := Exec(run[..|run| - 1]).value, run[|run| - 1];
            Live(s, g) && !Live(Exec(run).value, g) ==> a == Die(g) || (a == Test(g) && !s.listening)
  {
    LastStep(run);
    var s, a := Exec(run[..|run| - 1]).value, run[|run| - 1];
    hide Exec;
    if ClientEnabled(s, a) {
      ClientFrame(s, a);
      hide ClientStep, ClientEnabled;
    } else if ListenerEnabled(s, a) {
      EndsIff(s, a);
      hide GoesTo, Told, ClientEnabled;
    } else {
      hide ClientEnabled, ListenerEnabled;
    }
  }

  // ------------------------------------------------------------ why a listener dies

  /** The last step of listener `g`. */
  function LastOf(run: seq<Action>, g: nat): Option<Action> {
    if run == [] then None
    else
      var a := run[|run| - 1];
      if ListenerAction(a) && a.g == g then Some(a) else LastOf(run[..|run| - 1], g)
  }

  predicate Deadly(a: Option<Action>, g: nat) {
    a == Some(Receive(g, None)) || a == Some(Unwind(g))
  }

  lemma DiesIff(s: State, a: Action)
    requires ListenerEnabled(s, a)
    ensures GoesTo(s, a).Dying? <==> Deadly(Some(a), a.g)
    ensures ListenerAction(a)
  {
  }

  lemma DyingStep(s: State, a: Action, g: nat)
    requires Enabled(s, a) && (a.Spawn? ==> s.next !in s.listeners)
    ensures PcL(Step(s, a), g).Dying?
       <==> if ListenerAction(a) && a.g == g then Deadly(Some(a), g) else PcL(s, g).Dying?
  {
    if ClientEnabled(s, a) {
      ClientFrame(s, a);
      hide ClientStep;
    } else if ListenerEnabled(s, a) {
      DiesIff(s, a);
      hide GoesTo, Told, ListenerEnabled, ClientEnabled, ControllerEnabled, ListenerAction;
    } else {
      hide ClientEnabled, ListenerEnabled;
    }
  }

  /** Over every interleaving, a listener is dying iff its last step was a receive that threw, or the
      unwinding out of a fault in the locked scope. */
  lemma {:induction false} DyingIff(run: seq<Action>, g: nat)
    requires Exec(run).Some?
    ensures PcL(Exec(run).value, g).Dying? <==> Deadly(LastOf(run, g), g)
  {
    if run != [] {
      LastStep(run);
      var shorter, a := run[..|run| - 1], run[|run| - 1];
      hide Exec, Step, Enabled, Deadly, ListenerAction;
      DyingIff(shorter, g);
      ReachableInv(shorter);
      var s := Exec(shorter).value;
      assert s.next !in s.listeners;
      DyingStep(s, a, g);
    }
  }

  /** A listener unwinds iff the last thing that happened under the lock was its fault. */
  lemma UnwindingIff(run: seq<Action>, g: nat, buf: Buffer)
    requires Exec(run).Some?
    ensures var s := Exec(run).value;
            PcL(s, g) == Unwinding(buf) <==> s.trace != [] && s.trace[|s.trace| - 1] == Faulted(g, buf)
  {
    ReachableInv(run);
    var s := Exec(run).value;
    hide Exec, Replay, Scan, ExclusiveRespected, AnswerInv;
    assert Held(s, Listener(g)) == if s.owner == Some(Listener(g)) then s.depth else 0;
    FailedIff(s.trace, g, buf);
  }

  lemma FailedIff(t: seq<Event>, g: nat, buf: Buffer)
    requires Scan(t) != Broken
    ensures Scan(t) == Failed(g, buf) <==> t != [] && t[|t| - 1] == Faulted(g, buf)
  {
    hide Replay;
  }

  /** A call step faults iff the handler throws or is missing. */
  predicate Faults(s: State, a: Action) {
    match a
    case CallPrimary(_, throws) => throws || (s.slots.exclusive == None && s.slots.normal == None)
    case CallSniffer(_, throws) => throws && s.slots.sniffer.Some?
    case _ => false
  }

  lemma FaultStep(s: State, a: Action)
    requires ListenerEnabled(s, a) && (a.CallPrimary? || a.CallSniffer?)
    requires PcL(s, a.g).Calling? ==> PcL(s, a.g).exclusive == s.slots.exclusive.Some?
    ensures PcL(ListenerStep(s, a), a.g).Unwinding? <==> Faults(s, a)
  {
    hide Told;
  }

  /** A handler that throws faults, always; and so does a primary call with no handler to make it to. */
  lemma ThrowFaults(run: seq<Action>)
    requires Exec(run).Some? && run != []
    requires run[|run| - 1].CallPrimary? || run[|run| - 1].CallSniffer?
    ensures PcL(Exec(run).value, run[|run| - 1].g).Unwinding?
       <==> Faults(Exec(run[..|run| - 1]).value, run[|run| - 1])
  {
    var s, a := Exec(run[..|run| - 1]).value, run[|run| - 1];
    LastStep(run);
    ReachableInv(run[..|run| - 1]);
    hide Exec, LockInv, TraceInv, ListenerStep, Faults;
    assert PcL(s, a.g).Calling? ==> PcL(s, a.g).exclusive == s.slots.exclusive.Some?;
    FaultStep(s, a);
  }

  lemma ListenerTakes(s: State, a: Action)
    requires ListenerEnabled(s, a) && !s.terminated
    ensures Enabled(s, a) && Step(s, a) == ListenerStep(s, a)
  {
    hide ListenerStep;
  }

  /** From a fault there is one way: the lock is released, the flag cleared, the listener ends. */
  lemma FaultEndsLoop(run: seq<Action>, g: nat)
    requires Exec(run).Some? && !Exec(run).value.terminated && PcL(Exec(run).value, g).Unwinding?
    ensures var s := Exec(run).value; var played := Play(s, [Unwind(g), Die(g)]);
            && played.Some? && PcL(played.value, g).Finished?
            && !played.value.listening && played.value.owner == None && played.value.depth == 0
            && played.value.trace == s.trace + [Dropped(g, PcL(s, g).buf)]
    ensures forall a :: Enabled(Exec(run).value, a) && ListenerAction(a) && a.g == g ==> a == Unwind(g)
  {
    var s := Exec(run).value;
    ReachableInv(run);
    hide Exec, AnswerInv, TraceInv;
    var steps := [Unwind(g), Die(g)];
    OnlyUnwinds(s, g);
    UnwindReleases(s, Unwind(g));
    hide LockInv, Play;
    ListenerTakes(s, Unwind(g));
    var s1 := Step(s, Unwind(g));
    var s2 := Dies(s1, g);
    hide Enabled, Step;
    PlayAt(s, steps, 0);
    PlayAt(s1, steps, 1);
    PlayEnds(s2, steps);
    PlayEnds(s, steps);
  }

  lemma OnlyUnwinds(s: State, g: nat)
    requires LockInv(s) && !s.terminated && PcL(s, g).Unwinding?
    ensures ListenerEnabled(s, Unwind(g))
    ensures var s1 := ListenerStep(s, Unwind(g));
            s1.trace == s.trace + [Dropped(g, PcL(s, g).buf)] && !s1.terminated
    ensures forall a :: Enabled(s, a) && ListenerAction(a) && a.g == g ==> a == Unwind(g)
  {
    assert Held(s, Listener(g)) == if s.owner == Some(Listener(g)) then s.depth else 0;
  }

  lemma Dies(s: State, g: nat) returns (t: State)
    requires PcL(s, g).Dying? && !s.terminated
    ensures Enabled(s, Die(g)) && t == Step(s, Die(g))
    ensures PcL(t, g).Finished? && !t.listening && t.trace == s.trace && t.owner == s.owner && t.depth == s.depth
  {
    ListenerTakes(s, Die(g));
    hide Enabled, Step;
    t := ListenerStep(s, Die(g));
  }

  // ------------------------------------------------------------ what it delivers

  /** The listener is about to test the flag, which is up; the lock is free; a message has a handler. */
  predicate Poised(s: State, g: nat) {
    && !s.terminated && s.listening && s.owner == None && s.depth == 0
    && g in s.listeners && s.listeners[g].Testing?
    && (s.slots.exclusive.Some? || s.slots.normal.Some?)
  }

  /** One turn of the loop that receives `buf`, no handler throwing. */
  function Turn(g: nat, buf: Buffer): seq<Action> {
    [Test(g), Receive(g, Some(buf)), Take(g), AskL(g), AnswerL(g),
     CallPrimary(g, false), CallSniffer(g, false), Drop(g)]
  }

  function PrimaryCall(s: Slots, g: nat, buf: Buffer): seq<Event> {
    if s.exclusive.Some? then [ToExclusive(g, s.exclusive.value, buf)]
    else if s.normal.Some? then [ToNormal(g, s.normal.value, buf)]
    else []
  }

  function SnifferCall(s: Slots, g: nat, buf: Buffer): seq<Event> {
    if s.sniffer.Some? then [ToSniffer(g, s.sniffer.value, buf)] else []
  }

  /** What it does: the exclusive handler if there is one, else the normal; then the sniffer if any. */
  function Delivery(s: Slots, g: nat, buf: Buffer): seq<Event> {
    [Took(g, buf)] + PrimaryCall(s, g, buf) + SnifferCall(s, g, buf) + [Dropped(g, buf)]
  }

  function Turns(g: nat, bufs: seq<Buffer>): seq<Action> {
    if bufs == [] then [] else Turn(g, bufs[0]) + Turns(g, bufs[1..])
  }

  function Deliveries(s: Slots, g: nat, bufs: seq<Buffer>): seq<Event> {
    if bufs == [] then [] else Delivery(s, g, bufs[0]) + Deliveries(s, g, bufs[1..])
  }

  lemma {:induction false} PlayAppend(s: State, a: seq<Action>, b: seq<Action>)
    requires Play(s, a).Some?
    ensures Play(s, a + b) == Play(Play(s, a).value, b)
    decreases a
  {
    hide Enabled, Step;
    if a == [] {
      assert a + b == b;
    } else {
      assert (a + b)[1..] == a[1..] + b;
      PlayAppend(Step(s, a[0]), a[1..], b);
    }
  }

  lemma TurnReceives(s: State, g: nat, buf: Buffer) returns (s1: State, s2: State, s3: State)
    requires Poised(s, g) && buf != []
    ensures Enabled(s, Test(g)) && s1 == Step(s, Test(g))
    ensures Enabled(s1, Receive(g, Some(buf))) && s2 == Step(s1, Receive(g, Some(buf)))
    ensures Enabled(s2, Take(g)) && s3 == Step(s2, Take(g))
    ensures s3 == s.(listeners := s.listeners[g := Routing(buf)], owner := Some(Listener(g)), depth := 1,
                     trace := s.trace + [Took(g, buf)])
  {
    hide Enabled, Step;
    s1 := MoveL(s, g, Receiving);
    assert s.trace + [] == s.trace;
    ListenerTakes(s, Test(g));
    s2 := MoveL(s1, g, Waiting(buf));
    ListenerTakes(s1, Receive(g, Some(buf)));
    s3 := Lock(MoveL(s2, g, Routing(buf)).(trace := s2.trace + [Took(g, buf)]), Listener(g));
    ListenerTakes(s2, Take(g));
    assert s.listeners[g := Receiving][g := Waiting(buf)][g := Routing(buf)] == s.listeners[g := Routing(buf)];
  }

  lemma TurnAsks(s: State, g: nat, buf: Buffer) returns (s4: State, s5: State)
    requires !s.terminated && s.owner == Some(Listener(g)) && s.depth == 1 && PcL(s, g) == Routing(buf)
    ensures Enabled(s, AskL(g)) && s4 == Step(s, AskL(g))
    ensures Enabled(s4, AnswerL(g)) && s5 == Step(s4, AnswerL(g))
    ensures s5 == s.(listeners := s.listeners[g := Calling(buf, s.slots.exclusive.Some?)])
  {
    hide Enabled, Step;
    assert s.trace + [] == s.trace;
    s4 := Lock(MoveL(s, g, AskingL(buf)), Listener(g));
    ListenerTakes(s, AskL(g));
    s5 := Unlock(MoveL(s4, g, Calling(buf, s.slots.exclusive.Some?)));
    ListenerTakes(s4, AnswerL(g));
    assert s.listeners[g := AskingL(buf)][g := Calling(buf, s.slots.exclusive.Some?)]
        == s.listeners[g := Calling(buf, s.slots.exclusive.Some?)];
  }

  lemma TurnCalls(s: State, g: nat, buf: Buffer) returns (s6: State, s7: State)
    requires !s.terminated && PcL(s, g) == Calling(buf, s.slots.exclusive.Some?)
    requires s.slots.exclusive.Some? || s.slots.normal.Some?
    ensures Enabled(s, CallPrimary(g, false)) && s6 == Step(s, CallPrimary(g, false))
    ensures Enabled(s6, CallSniffer(g, false)) && s7 == Step(s6, CallSniffer(g, false))
    ensures s7 == s.(listeners := s.listeners[g := Resting(buf)],
                     trace := s.trace + PrimaryCall(s.slots, g, buf) + SnifferCall(s.slots, g, buf))
  {
    hide Enabled, Step;
    s6 := MoveL(s, g, Sniffing(buf)).(trace := s.trace + PrimaryCall(s.slots, g, buf));
    assert forall e: Event :: [e] + [] == [e];
    ListenerTakes(s, CallPrimary(g, false));
    s7 := MoveL(s6, g, Resting(buf)).(trace := s6.trace + SnifferCall(s.slots, g, buf));
    ListenerTakes(s6, CallSniffer(g, false));
    assert s.listeners[g := Sniffing(buf)][g := Resting(buf)] == s.listeners[g := Resting(buf)];
  }

  lemma TurnEnds(s: State, g: nat, buf: Buffer) returns (s8: State)
    requires !s.terminated && s.owner == Some(Listener(g)) && s.depth == 1 && PcL(s, g) == Resting(buf)
    ensures Enabled(s, Drop(g)) && s8 == Step(s, Drop(g))
    ensures s8 == s.(listeners := s.listeners[g := Testing], owner := None, depth := 0,
                     trace := s.trace + [Dropped(g, buf)])
  {
    ListenerTakes(s, Drop(g));
    hide Enabled, Step;
    s8 := ListenerStep(s, Drop(g));
  }

  lemma DeliveryIs(t: seq<Event>, s: Slots, g: nat, buf: Buffer)
    ensures t + [Took(g, buf)] + PrimaryCall(s, g, buf) + SnifferCall(s, g, buf) + [Dropped(g, buf)]
         == t + Delivery(s, g, buf)
  {
  }

  /** One turn delivers its buffer and comes back to where it began. */
  lemma TurnPlayed(s: State, g: nat, buf: Buffer)
    requires Poised(s, g) && buf != []
    ensures Play(s, Turn(g, buf)) == Some(s.(trace := s.trace + Delivery(s.slots, g, buf)))
  {
    hide Enabled, Step, Play;
    var steps := Turn(g, buf);
    var s1, s2, s3 := TurnReceives(s, g, buf);
    var s4, s5 := TurnAsks(s3, g, buf);
    var s6, s7 := TurnCalls(s5, g, buf);
    var s8 := TurnEnds(s7, g, buf);
    DeliveryIs(s.trace, s.slots, g, buf);
    hide Delivery, PrimaryCall, SnifferCall;
    assert s8.listeners == s.listeners;
    assert s8 == s.(trace := s.trace + Delivery(s.slots, g, buf));
    hide *;
    PlaysEight(s, steps, s1, s2, s3, s4, s5, s6, s7, s8);
  }

  lemma PlaysEight(s: State, run: seq<Action>, s1: State, s2: State, s3: State, s4: State, s5: State,
                   s6: State, s7: State, s8: State)
    requires |run| == 8
    requires Enabled(s, run[0]) && s1 == Step(s, run[0]) && Enabled(s1, run[1]) && s2 == Step(s1, run[1])
    requires Enabled(s2, run[2]) && s3 == Step(s2, run[2]) && Enabled(s3, run[3]) && s4 == Step(s3, run[3])
    requires Enabled(s4, run[4]) && s5 == Step(s4, run[4]) && Enabled(s5, run[5]) && s6 == Step(s5, run[5])
    requires Enabled(s6, run[6]) && s7 == Step(s6, run[6]) && Enabled(s7, run[7]) && s8 == Step(s7, run[7])
    ensures Play(s, run) == Some(s8)
  {
    hide *;
    PlayAt(s, run, 0);
    PlayAt(s1, run, 1);
    PlayAt(s2, run, 2);
    PlayAt(s3, run, 3);
    PlayAt(s4, run, 4);
    PlayAt(s5, run, 5);
    PlayAt(s6, run, 6);
    PlayAt(s7, run, 7);
    PlayEnds(s8, run);
    PlayEnds(s, run);
  }

  /** From such a state any number of messages can be received, and are delivered in order, and the loop
      is back where it was. */
  lemma {:induction false} LoopDelivers(s: State, g: nat, bufs: seq<Buffer>)
    requires Poised(s, g) && forall i :: 0 <= i < |bufs| ==> bufs[i] != []
    ensures Play(s, Turns(g, bufs)) == Some(s.(trace := s.trace + Deliveries(s.slots, g, bufs)))
    decreases bufs
  {
    hide Enabled, Step, Turn, Delivery;
    if bufs == [] {
      assert s.trace + [] == s.trace;
    } else {
      var t := s.(trace := s.trace + Delivery(s.slots, g, bufs[0]));
      TurnPlayed(s, g, bufs[0]);
      assert Poised(t, g);
      LoopDelivers(t, g, bufs[1..]);
      hide Play;
      PlayAppend(s, Turn(g, bufs[0]), Turns(g, bufs[1..]));
      assert s.trace + Delivery(s.slots, g, bufs[0]) + Deliveries(s.slots, g, bufs[1..])
          == s.trace + Deliveries(s.slots, g, bufs);
    }
  }

  /** A receive that times out in silence also comes back to where it began. */
  lemma SilentTurn(s: State, g: nat)
    requires !s.terminated && s.listening && g in s.listeners && s.listeners[g].Testing?
    ensures Play(s, [Test(g), Receive(g, Some([]))]) == Some(s)
  {
    var steps := [Test(g), Receive(g, Some([]))];
    assert s.trace + [] == s.trace;
    var s1 := MoveL(s, g, Receiving);
    ListenerTakes(s, Test(g));
    assert ListenerStep(s, Test(g)) == s1;
    ListenerTakes(s1, Receive(g, Some([])));
    assert s1.listeners[g := Testing] == s.listeners;
    assert ListenerStep(s1, Receive(g, Some([]))) == s;
    hide *;
    PlayAt(s, steps, 0);
    PlayAt(s1, steps, 1);
    PlayEnds(s, steps);
  }
}
