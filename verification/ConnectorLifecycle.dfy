/** The listener's life under listen and stopListen, called by one controlling thread. */
module ConnectorLifecycle {
  import opened Wrappers
  import opened Connector
  import opened ConnectorSafety

  /** The last of listen and stopListen to be called was listen. */
  predicate Owed(run: seq<Action>) {
    if run == [] then false
    else
      match run[|run| - 1]
      case Listen => true
      case StopListen => false
      case _ => Owed(run[..|run| - 1])
  }

  /** Every listen after the first is preceded by a stopListen. */
  predicate Disciplined(run: seq<Action>) {
    run == [] || (Disciplined(run[..|run| - 1]) && (run[|run| - 1].Listen? ==> !Owed(run[..|run| - 1])))
  }

  /** The last listen that found the flag down was called while an earlier one was still owed its
      stopListen. A listen that finds the flag up is refused and does not matter. */
  predicate Overlapping(run: seq<Action>) {
    if run == [] then false
    else
      var before, a := run[..|run| - 1], run[|run| - 1];
      if a.Listen? && Exec(before).Some? && !Exec(before).value.listening then Owed(before) else Overlapping(before)
  }

  predicate ListenerAction(a: Action) {
    || a.Test? || a.Receive? || a.Take? || a.AskL? || a.AnswerL?
    || a.CallPrimary? || a.CallSniffer? || a.Drop? || a.Unwind? || a.Die?
  }

  /** Steps of listeners since stopListen cleared the flag, while no listen has set it again. */
  function StepsSinceStop(run: seq<Action>): Option<nat> {
    if run == [] then None
    else
      var before, a := StepsSinceStop(run[..|run| - 1]), run[|run| - 1];
      if a.StopListen? then Some(0)
      else if a.StoreTrue? then None
      else if ListenerAction(a) && before.Some? then Some(before.value + 1)
      else before
  }

  /** Buffers dispatched since stopListen cleared the flag, while no listen has set it again. */
  function SinceStop(run: seq<Action>): Option<nat> {
    if run == [] then None
    else
      var before := SinceStop(run[..|run| - 1]);
      match run[|run| - 1]
      case StopListen => Some(0)
      case StoreTrue => None
      case Take(_) => if before.Some? then Some(before.value + 1) else None
      case _ => before
  }

  predicate Live(s: State, g: nat) {
    !PcL(s, g).Finished?
  }

  predicate Busy(c: Controller) {
    c.Starting? || c.Spawning? || c.Assigning?
  }

  ghost predicate NoneLive(s: State) {
    forall g: nat {:trigger Live(s, g)} :: !Live(s, g)
  }

  /** Only the newest thread can be running, and it is the thread object's or about to be. */
  ghost predicate OneLive(s: State) {
    forall g: nat {:trigger Live(s, g)} ::
      Live(s, g) ==> g + 1 == s.next && (s.thread == Some(g) || s.controller == Assigning(g))
  }

  ghost predicate LifeInv(s: State) {
    && OneLive(s)
    && (!s.listening && (s.controller.Ready? || s.controller.Assigning?) ==> NoneLive(s))
    && (s.controller.Starting? || s.controller.Spawning? ==> NoneLive(s))
    && (s.controller.Spawning? ==> s.listening)
    && (s.controller.Ready? && s.thread == None ==> !s.listening)
    && (s.controller.Joining? ==> !s.listening)
    && (s.controller.Assigning? ==> s.controller.g + 1 == s.next)
  }

  ghost predicate OwedInv(s: State, owed: bool) {
    && (s.controller.Ready? ==> (owed <==> s.thread.Some?))
    && (s.controller.Joining? ==> !owed)
    && (Busy(s.controller) ==> owed)
  }

  ghost predicate DisciplineInv(s: State) {
    && !s.terminated
    && (Busy(s.controller) ==> s.thread == None)
  }

  ghost predicate StopInv(s: State, since: Option<nat>) {
    since.Some? ==>
      && !s.listening
      && since.value <= 1
      && forall g {:trigger PcL(s, g)} :: PcL(s, g).Receiving? || PcL(s, g).Waiting? ==> since.value == 0
  }

  /** What the threads' steps can do to the fields the life cycle is about. */
  lemma ClientFrame(s: State, a: Action)
    requires ClientEnabled(s, a)
    ensures var s' := ClientStep(s, a);
            && s'.listening == s.listening && s'.listeners == s.listeners && s'.next == s.next
            && s'.thread == s.thread && s'.controller == s.controller && s'.terminated == s.terminated
  {
  }

  lemma ListenerLife(s: State, a: Action)
    requires ListenerEnabled(s, a) && LifeInv(s)
    ensures LifeInv(ListenerStep(s, a))
  {
    var s' := ListenerStep(s, a);
    assert Live(s, a.g);
    hide GoesTo, Told;
    forall g {:trigger Live(s', g)} | Live(s', g)
      ensures Live(s, g) && (g == a.g ==> !a.Die?)
    {
      DieFinishes(s, a);
      assert g != a.g ==> PcL(s', g) == PcL(s, g);
    }
  }

  lemma DieFinishes(s: State, a: Action)
    requires ListenerEnabled(s, a)
    ensures a.Die? ==> GoesTo(s, a) == Finished
  {
  }

  lemma ControllerLife(s: State, a: Action)
    requires ControllerEnabled(s, a) && LifeInv(s)
    ensures LifeInv(ControllerStep(s, a))
  {
    var s' := ControllerStep(s, a);
    forall g {:trigger Live(s', g)} | Live(s', g)
      ensures if a.Spawn? then g == s.next else Live(s, g)
    {
      assert a.Spawn? && g != s.next ==> PcL(s', g) == PcL(s, g) && !Live(s, g);
    }
  }

  lemma ListenerStop(s: State, a: Action, since: Option<nat>)
    requires ListenerEnabled(s, a) && LifeInv(s) && StopInv(s, since)
    ensures StopInv(ListenerStep(s, a), if a.Take? && since.Some? then Some(since.value + 1) else since)
  {
    var s' := ListenerStep(s, a);
    assert Live(s, a.g);
    forall g {:trigger PcL(s', g)} | PcL(s', g).Receiving? || PcL(s', g).Waiting?
      ensures g == a.g && (s.listening || PcL(s, g).Receiving?) && !a.Take?
    {
      assert Live(s, g);
    }
  }

  lemma ClientKeepsLife(s: State, a: Action, since: Option<nat>)
    requires ClientEnabled(s, a) && LifeInv(s) && StopInv(s, since)
    ensures LifeInv(ClientStep(s, a)) && StopInv(ClientStep(s, a), since)
  {
    ClientFrame(s, a);
    var s' := ClientStep(s, a);
    hide ClientStep, ClientEnabled;
    assert forall g {:trigger PcL(s', g)} :: PcL(s', g) == PcL(s, g);
    assert forall g {:trigger Live(s', g)} :: Live(s', g) == Live(s, g);
  }

  lemma ControllerStop(s: State, a: Action, since: Option<nat>)
    requires ControllerEnabled(s, a) && LifeInv(s) && StopInv(s, since)
    ensures a.StopListen? ==> StopInv(ControllerStep(s, a), Some(0))
    ensures !a.StopListen? && !a.StoreTrue? ==> StopInv(ControllerStep(s, a), since)
  {
    var s' := ControllerStep(s, a);
    forall g {:trigger PcL(s', g)}
      ensures PcL(s', g) == PcL(s, g) || PcL(s', g) == Testing
    {
    }
  }

  /** The three invariants, carried over one step of any thread. */
  lemma StepKeepsLife(s: State, a: Action, owed: bool, since: Option<nat>)
    requires Enabled(s, a) && LifeInv(s) && OwedInv(s, owed) && StopInv(s, since)
    ensures LifeInv(Step(s, a))
    ensures OwedInv(Step(s, a), if a.Listen? then true else if a.StopListen? then false else owed)
    ensures StopInv(Step(s, a), if a.StopListen? then Some(0) else if a.StoreTrue? then None
                                else if a.Take? && since.Some? then Some(since.value + 1) else since)
    ensures DisciplineInv(s) && (a.Listen? ==> !owed) ==> DisciplineInv(Step(s, a))
  {
    if ClientEnabled(s, a) {
      ClientFrame(s, a);
      ClientKeepsLife(s, a, since);
      hide LifeInv, StopInv, ClientStep;
    } else if ListenerEnabled(s, a) {
      ListenerLife(s, a);
      ListenerStop(s, a, since);
      hide LifeInv, StopInv, GoesTo, Told;
    } else {
      ControllerLife(s, a);
      ControllerStop(s, a, since);
      assert s.controller.Ready? && s.thread == None ==> !s.listening;
      hide LifeInv, StopInv;
      if a.Listen? && s.listening {
        assert s.thread.Some?;
      }
    }
  }

  lemma {:induction false} ReachableLife(run: seq<Action>)
    requires Exec(run).Some?
    ensures LifeInv(Exec(run).value)
    ensures OwedInv(Exec(run).value, Owed(run))
    ensures StopInv(Exec(run).value, SinceStop(run))
    ensures Disciplined(run) ==> DisciplineInv(Exec(run).value)
  {
    if run != [] {
      hide LifeInv, OwedInv, StopInv, DisciplineInv, Enabled, Step;
      var shorter := run[..|run| - 1];
      ReachableLife(shorter);
      StepKeepsLife(Exec(shorter).value, run[|run| - 1], Owed(shorter), SinceStop(shorter));
    }
  }

  // ------------------------------------------------------------ the theorems

  /** Over every interleaving at most one listener runs, the newest. If moreover each listen after the
      first is preceded by stopListen, no joinable thread object is overwritten and listen is never
      refused. */
  lemma OneListener(run: seq<Action>)
    requires Exec(run).Some?
    ensures var s := Exec(run).value;
            && (forall g: nat, h: nat :: Live(s, g) && Live(s, h) ==> g == h && g + 1 == s.next)
            && (Disciplined(run) ==> !s.terminated)
            && (Disciplined(run) && run != [] && run[|run| - 1].Listen? ==> s.controller == Starting)
  {
    ReachableLife(run);
    if run != [] && run[|run| - 1].Listen? {
      ReachableLife(run[..|run| - 1]);
    }
  }

  /** When a listener dying of an exception writes false into the flag, no later listener exists
      and none is on its way: the flag it clears is its own. */
  lemma DyingClearsOwnFlag(run: seq<Action>)
    requires Exec(run).Some? && run != [] && run[|run| - 1].Die?
    ensures var s, g := Exec(run[..|run| - 1]).value, run[|run| - 1].g;
            g + 1 == s.next && !s.controller.Starting? && !s.controller.Spawning?
            && (s.controller.Assigning? ==> s.controller.g == g)
  {
    hide *;
    LastStep(run);
    ReachableLife(run[..|run| - 1]);
    DyingIsNewest(Exec(run[..|run| - 1]).value, run[|run| - 1]);
  }

  lemma DyingIsNewest(s: State, a: Action)
    requires LifeInv(s) && Enabled(s, a) && a.Die?
    ensures a.g + 1 == s.next && !s.controller.Starting? && !s.controller.Spawning?
    ensures s.controller.Assigning? ==> s.controller.g == a.g
  {
    assert Live(s, a.g);
  }

  /** After stopListen clears the flag at most one more buffer is dispatched before listen is
      called again, and when it returns no listener is running. */
  lemma StopBoundsDispatches(run: seq<Action>)
    requires Exec(run).Some?
    ensures SinceStop(run).Some? ==> SinceStop(run).value <= 1
    ensures run != [] && run[|run| - 1].Join? ==> NoneLive(Exec(run).value)
  {
    ReachableLife(run);
  }

  ghost predicate OverlapInv(s: State, run: seq<Action>) {
    && (Busy(s.controller) ==> (Overlapping(run) <==> s.thread.Some?))
    && (s.terminated <==> run != [] && run[|run| - 1].Assign? && Overlapping(run))
    && (s.terminated ==> s.controller.Assigning?)
  }

  lemma StepKeepsOverlap(s: State, a: Action, owed: bool, overlapping: bool)
    requires Enabled(s, a) && OwedInv(s, owed)
    requires Busy(s.controller) ==> (overlapping <==> s.thread.Some?)
    ensures var s', now := Step(s, a), if a.Listen? && !s.listening then owed else overlapping;
            && (Busy(s'.controller) ==> (now <==> s'.thread.Some?))
            && (s'.terminated <==> a.Assign? && now)
            && (s'.terminated ==> s'.controller.Assigning?)
  {
    if ClientEnabled(s, a) {
      ClientFrame(s, a);
      hide ClientStep;
    } else if ListenerEnabled(s, a) {
      hide GoesTo, Told;
    }
  }

  /** Over every interleaving: the process is terminated iff the thread just assigned was started by a
      listen that found the flag down while an earlier one was owed its stopListen. */
  lemma {:induction false} TerminatedIff(run: seq<Action>)
    requires Exec(run).Some?
    ensures Exec(run).value.terminated <==> run != [] && run[|run| - 1].Assign? && Overlapping(run)
    ensures OverlapInv(Exec(run).value, run)
  {
    if run != [] {
      hide OwedInv, Enabled, Step;
      var shorter := run[..|run| - 1];
      TerminatedIff(shorter);
      ReachableLife(shorter);
      NotTerminated(Exec(shorter).value, run[|run| - 1]);
      StepKeepsOverlap(Exec(shorter).value, run[|run| - 1], Owed(shorter), Overlapping(shorter));
    }
  }

  lemma NotTerminated(s: State, a: Action)
    requires Enabled(s, a)
    ensures !s.terminated
  {
  }

  /** What a listen does, called when the controlling thread is free: with the flag up it is refused and
      changes nothing; with the flag down it runs to its end, and ends the process iff an earlier
      listen was not followed by stopListen. */
  lemma ListenFatalIff(run: seq<Action>)
    requires Exec(run).Some?
    requires var s := Exec(run).value; s.controller.Ready? && !s.terminated
    ensures var s := Exec(run).value; s.listening ==> Exec(run + [Listen]) == Some(s)
    ensures var s, after := Exec(run).value, Exec(run + [Listen, StoreTrue, Spawn, Assign]);
            && (!s.listening ==> after.Some? && (after.value.terminated <==> Owed(run)))
            && (!s.listening && !Owed(run) ==>
                  after.value.controller.Ready? && after.value.listening && after.value.thread == Some(s.next)
                  && Live(after.value, s.next))
  {
    ReachableLife(run);
    var s0 := Exec(run).value;
    hide Exec, LifeInv, StopInv, Owed, Step, Enabled;
    ListenEnabled(s0);
    ExecOne(run, Listen);
    if !s0.listening {
      var s1, s2, s3 := ListenSteps(s0);
      ExecOne(run + [Listen], StoreTrue);
      ExecOne(run + [Listen] + [StoreTrue], Spawn);
      ExecOne(run + [Listen] + [StoreTrue] + [Spawn], Assign);
      assert run + [Listen, StoreTrue, Spawn, Assign] == run + [Listen] + [StoreTrue] + [Spawn] + [Assign];
    }
  }

  lemma ListenEnabled(s: State)
    requires s.controller.Ready? && !s.terminated
    ensures Enabled(s, Listen) && (s.listening ==> Step(s, Listen) == s)
  {
  }

  lemma ListenSteps(s: State) returns (s1: State, s2: State, s3: State)
    requires s.controller.Ready? && !s.terminated && !s.listening
    ensures Enabled(s, Listen) && s1 == Step(s, Listen)
    ensures Enabled(s1, StoreTrue) && s2 == Step(s1, StoreTrue)
    ensures Enabled(s2, Spawn) && s3 == Step(s2, Spawn)
    ensures Enabled(s3, Assign) && (Step(s3, Assign).terminated <==> s.thread.Some?)
    ensures var t := Step(s3, Assign);
            s.thread == None ==>
              t.controller.Ready? && t.listening && t.thread == Some(s.next) && Live(t, s.next)
  {
    hide ClientStep, ListenerStep;
    s1 := Step(s, Listen);
    s2 := Step(s1, StoreTrue);
    s3 := Step(s2, Spawn);
  }

  /** Such runs exist: the first listener dies of a failing receive, then listen is called again. */
  lemma TerminationReachable() returns (run: seq<Action>)
    ensures Exec(run).Some? && Exec(run).value.terminated
  {
    hide Owed, Exec;
    var first := [Listen, StoreTrue, Spawn, Assign, Test(0), Receive(0, None), Die(0)];
    FirstListenerDies(first);
    ListenFatalIff(first);
    run := first + [Listen, StoreTrue, Spawn, Assign];
  }

  lemma FirstListenerDies(run: seq<Action>)
    requires run == [Listen, StoreTrue, Spawn, Assign, Test(0), Receive(0, None), Die(0)]
    ensures Exec(run).Some? && Owed(run)
    ensures var s := Exec(run).value; s.controller.Ready? && !s.listening && !s.terminated
  {
    StillOwed([], run[1..]);
    assert run == [] + [Listen] + run[1..];
    var last := PlayFirst(run);
    assert Exec([]) == Some(INITIAL);
    hide Exec, Play, Owed;
    ExecPlay([], run);
    assert [] + run == run;
  }

  lemma PlayFirst(run: seq<Action>) returns (last: State)
    requires run == [Listen, StoreTrue, Spawn, Assign, Test(0), Receive(0, None), Die(0)]
    ensures Play(INITIAL, run) == Some(last)
    ensures last.controller.Ready? && !last.listening && !last.terminated
  {
    var s1, s2, s3, s4 := FirstListener();
    var s5, s6 := ListenerDies(s4);
    last := Step(s6, Die(0));
    hide *;
    PlayAt(INITIAL, run, 0);
    PlayAt(s1, run, 1);
    PlayAt(s2, run, 2);
    PlayAt(s3, run, 3);
    PlayAt(s4, run, 4);
    PlayAt(s5, run, 5);
    PlayAt(s6, run, 6);
    PlayEnds(last, run);
    PlayEnds(INITIAL, run);
  }

  lemma FirstListener() returns (s1: State, s2: State, s3: State, s4: State)
    ensures Enabled(INITIAL, Listen) && s1 == Step(INITIAL, Listen)
    ensures Enabled(s1, StoreTrue) && s2 == Step(s1, StoreTrue)
    ensures Enabled(s2, Spawn) && s3 == Step(s2, Spawn)
    ensures Enabled(s3, Assign) && s4 == Step(s3, Assign)
    ensures PcL(s4, 0).Testing? && s4.listening && !s4.terminated && s4.controller.Ready?
  {
    hide Enabled, Step;
    s1 := INITIAL.(controller := Starting);
    s2 := s1.(listening := true, controller := Spawning);
    s3 := MoveL(s2, 0, Testing).(next := 1, controller := Assigning(0));
    s4 := s3.(thread := Some(0), controller := Ready);
    ControllerTakes(INITIAL, Listen);
    ControllerTakes(s1, StoreTrue);
    ControllerTakes(s2, Spawn);
    ControllerTakes(s3, Assign);
  }

  lemma ControllerTakes(s: State, a: Action)
    requires ControllerEnabled(s, a) && !s.terminated
    ensures Enabled(s, a) && Step(s, a) == ControllerStep(s, a)
  {
    hide ControllerStep;
  }

  /** A call of listen stays owed its stopListen while neither is called. */
  lemma {:induction false} StillOwed(run: seq<Action>, more: seq<Action>)
    requires forall i :: 0 <= i < |more| ==> !more[i].Listen? && !more[i].StopListen?
    ensures Owed(run + [Listen] + more)
  {
    var all := run + [Listen] + more;
    if more == [] {
      assert all == run + [Listen];
    } else {
      var fewer := more[..|more| - 1];
      assert all[..|all| - 1] == run + [Listen] + fewer;
      StillOwed(run, fewer);
    }
  }

  /** A listener that finds the flag up and then fails to receive. */
  lemma ListenerDies(s: State) returns (s1: State, s2: State)
    requires PcL(s, 0).Testing? && s.listening && !s.terminated && s.controller.Ready?
    ensures Enabled(s, Test(0)) && s1 == Step(s, Test(0))
    ensures Enabled(s1, Receive(0, None)) && s2 == Step(s1, Receive(0, None))
    ensures Enabled(s2, Die(0))
    ensures var t := Step(s2, Die(0)); t.controller.Ready? && !t.listening && !t.terminated
  {
    hide ClientStep, ControllerStep;
    s1 := Step(s, Test(0));
    s2 := Step(s1, Receive(0, None));
  }

  // ------------------------------------------------------------ progress

  /** Steps a listener can still take once the flag is down. */
  function Rank(pc: ListenerPc): nat {
    match pc
    case Receiving => 8
    case Waiting(_) => 7
    case Routing(_) => 6
    case AskingL(_) => 5
    case Calling(_, _) => 4
    case Sniffing(_) => 3
    case Resting(_) => 2
    case Unwinding(_) => 2
    case Testing => 1
    case Dying => 1
    case Finished => 0
  }

  /** Steps a client holding the lock can take before it releases it. */
  function HolderRank(s: State): nat {
    if s.owner.Some? && s.owner.value.Client? then
      match Pc(s, s.owner.value.c)
      case Locked(_) => 4
      case Asking(_) => 3
      case Answered(_, _) => 2
      case Leaving => 1
      case _ => 0
    else 0
  }

  lemma ListenerRunsDown(s: State, a: Action)
    requires ListenerEnabled(s, a) && !s.listening
    ensures Rank(GoesTo(s, a)) < Rank(PcL(s, a.g)) <= 8
  {
  }

  /** The steps taken and the steps left of any live listener make at most eight. */
  ghost predicate RunDownInv(s: State, n: Option<nat>) {
    n.Some? ==>
      && !s.listening && n.value <= 8
      && forall g {:trigger Live(s, g)} :: Live(s, g) ==> n.value + Rank(PcL(s, g)) <= 8
  }

  lemma ListenerRunDown(s: State, a: Action, n: Option<nat>)
    requires ListenerEnabled(s, a) && LifeInv(s) && RunDownInv(s, n)
    ensures RunDownInv(ListenerStep(s, a), if n.Some? then Some(n.value + 1) else None)
  {
    var s' := ListenerStep(s, a);
    assert Live(s, a.g);
    if n.Some? {
      ListenerRunsDown(s, a);
      hide GoesTo, Told, Rank;
      assert s'.listening == false;
      assert PcL(s', a.g) == GoesTo(s, a);
      forall g {:trigger Live(s', g)} | Live(s', g)
        ensures g == a.g
      {
        assert g != a.g ==> PcL(s', g) == PcL(s, g) && Live(s, g);
      }
    }
  }

  lemma ControllerRunDown(s: State, a: Action, n: Option<nat>)
    requires ControllerEnabled(s, a) && LifeInv(s) && RunDownInv(s, n)
    ensures a.StopListen? ==> RunDownInv(ControllerStep(s, a), Some(0))
    ensures !a.StopListen? && !a.StoreTrue? ==> RunDownInv(ControllerStep(s, a), n)
  {
    var s' := ControllerStep(s, a);
    forall g {:trigger Live(s', g)} | !a.Spawn?
      ensures PcL(s', g) == PcL(s, g) && (Live(s', g) <==> Live(s, g))
    {
    }
  }

  lemma StepKeepsRunDown(s: State, a: Action, n: Option<nat>)
    requires Enabled(s, a) && LifeInv(s) && RunDownInv(s, n)
    ensures RunDownInv(Step(s, a), if a.StopListen? then Some(0) else if a.StoreTrue? then None
                                   else if ListenerAction(a) && n.Some? then Some(n.value + 1) else n)
  {
    if ClientEnabled(s, a) {
      ClientFrame(s, a);
      var s' := ClientStep(s, a);
      hide ClientStep;
      forall g {:trigger Live(s', g)}
        ensures PcL(s', g) == PcL(s, g) && (Live(s', g) <==> Live(s, g))
      {
      }
    } else if ListenerEnabled(s, a) {
      ListenerRunDown(s, a, n);
    } else {
      ControllerRunDown(s, a, n);
    }
  }

  /** Over every interleaving: from the moment stopListen clears the flag until a listen sets it again,
      the listeners take at most eight steps between them. */
  lemma {:induction false} StoppedListenerRunsDown(run: seq<Action>)
    requires Exec(run).Some?
    ensures StepsSinceStop(run).Some? ==> StepsSinceStop(run).value <= 8
    ensures RunDownInv(Exec(run).value, StepsSinceStop(run))
  {
    if run != [] {
      hide LifeInv, Enabled, Step, ListenerAction;
      var shorter := run[..|run| - 1];
      StoppedListenerRunsDown(shorter);
      ReachableLife(shorter);
      StepKeepsRunDown(Exec(shorter).value, run[|run| - 1], StepsSinceStop(shorter));
    }
    hide Rank, LifeInv;
  }

  /** Steps between listener `g` and its end, those of the client it may wait for included. */
  function Distance(s: State, g: nat): nat {
    Rank(PcL(s, g)) + HolderRank(s)
  }

  /** A step of a client or a listener towards the end of listener `g`. */
  predicate Nearer(s: State, s': State, g: nat) {
    && Distance(s', g) < Distance(s, g)
    && s'.controller == s.controller && s'.thread == s.thread && !s'.terminated
  }

  lemma ListenerMoves(s: State, g: nat) returns (a: Action)
    requires LockInv(s) && Live(s, g)
    requires s.owner.Some? && s.owner.value.Listener? ==> s.owner.value.g == g
    requires s.owner.Some? && s.owner.value.Client? ==> !PcL(s, g).Waiting?
    ensures ListenerEnabled(s, a) && a.g == g
  {
    var pc := PcL(s, g);
    assert Held(s, Listener(g)) == if s.owner == Some(Listener(g)) then s.depth else 0;
    a := match pc
      case Testing => Test(g)
      case Receiving => Receive(g, None)
      case Waiting(_) => Take(g)
      case Routing(_) => AskL(g)
      case AskingL(_) => AnswerL(g)
      case Calling(_, _) => CallPrimary(g, false)
      case Sniffing(_) => CallSniffer(g, false)
      case Resting(_) => Drop(g)
      case Unwinding(_) => Unwind(g)
      case Dying => Die(g);
  }

  lemma ListenerStepNearer(s: State, a: Action)
    requires LockInv(s) && ListenerEnabled(s, a) && !s.listening && !s.terminated
    ensures Enabled(s, a) && Nearer(s, Step(s, a), a.g)
  {
    ListenerRunsDown(s, a);
    HolderUnmoved(s, a);
    assert !ClientEnabled(s, a);
    hide GoesTo, Told, Rank, HolderRank, ListenerEnabled, ClientEnabled, ControllerEnabled;
    assert PcL(ListenerStep(s, a), a.g) == GoesTo(s, a);
  }

  lemma HolderUnmoved(s: State, a: Action)
    requires LockInv(s) && ListenerEnabled(s, a)
    ensures HolderRank(ListenerStep(s, a)) == HolderRank(s)
  {
    assert Held(s, Listener(a.g)) == if s.owner == Some(Listener(a.g)) then s.depth else 0;
    assert a.Take? || a.AskL? ==> MayLock(s, Listener(a.g));
    assert a.AnswerL? || a.Drop? || a.Unwind? ==> Held(s, Listener(a.g)) > 0;
    hide GoesTo, Told, ListenerEnabled;
  }

  lemma HolderMoves(s: State) returns (a: Action)
    requires LockInv(s) && AnswerInv(s) && s.owner.Some? && s.owner.value.Client?
    ensures ClientEnabled(s, a) && ClientStep(s, a).listeners == s.listeners
    ensures HolderRank(ClientStep(s, a)) < HolderRank(s)
  {
    var c := s.owner.value.c;
    var pc := Pc(s, c);
    assert Held(s, Client(c)) == s.depth;
    a := if pc.Asking? then Answer(c)
         else if pc.Leaving? then Release(c)
         else if ReadyToAct(pc) then Act(c, false)
         else Ask(c);
  }

  lemma ClientStepNearer(s: State, a: Action, g: nat)
    requires ClientEnabled(s, a) && !s.terminated && ClientStep(s, a).listeners == s.listeners
    requires HolderRank(ClientStep(s, a)) < HolderRank(s)
    ensures Enabled(s, a) && Nearer(s, Step(s, a), g)
  {
    ClientFrame(s, a);
    hide ClientStep, ClientEnabled, HolderRank, Rank;
  }

  lemma OnlyThisListenerHolds(s: State, g: nat)
    requires LockInv(s) && LifeInv(s) && s.controller.Joining? && s.thread == Some(g)
    ensures s.owner.Some? && s.owner.value.Listener? ==> s.owner.value.g == g
  {
    if s.owner.Some? && s.owner.value.Listener? {
      assert Held(s, s.owner.value) == s.depth;
      assert Live(s, s.owner.value.g);
    }
  }

  /** A joining stopListen is never stuck: some thread can always take a step that brings the
      listener, or the client it waits for, nearer its end. */
  lemma JoinNeverStuck(run: seq<Action>) returns (a: Action)
    requires Exec(run).Some?
    requires var s := Exec(run).value; s.controller.Joining? && !ControllerEnabled(s, Join)
    ensures var s := Exec(run).value;
            s.thread.Some? && Enabled(s, a) && Nearer(s, Step(s, a), s.thread.value)
  {
    hide *;
    var s := Exec(run).value;
    ReachableInv(run);
    ReachableLife(run);
    TerminatedIff(run);
    JoiningNotTerminated(s, run);
    JoiningState(s);
    var g := s.thread.value;
    if s.owner.Some? && s.owner.value.Client? && PcL(s, g).Waiting? {
      a := HolderMoves(s);
      ClientStepNearer(s, a, g);
    } else {
      a := ListenerMoves(s, g);
      ListenerStepNearer(s, a);
    }
  }

  lemma JoiningNotTerminated(s: State, run: seq<Action>)
    requires OverlapInv(s, run) && s.controller.Joining?
    ensures !s.terminated
  {
  }

  /** So from every reachable state in which stopListen joins, at most twelve steps of other threads lead
      to one where the join goes through. */
  lemma {:induction false} JoinReached(run: seq<Action>) returns (more: seq<Action>)
    requires Exec(run).Some? && Exec(run).value.controller.Joining?
    ensures Exec(run + more).Some? && Enabled(Exec(run + more).value, Join) && |more| <= 12
    ensures var after := Step(Exec(run + more).value, Join);
            after.controller.Ready? && after.thread == None && NoneLive(after)
  {
    hide *;
    more := JoinWithin(run);
    JoinReturns(Exec(run + more).value);
    ReachableLife(run + more);
    ExecOne(run + more, Join);
    StopBoundsDispatches(run + more + [Join]);
  }

  lemma JoinReturns(s: State)
    requires Enabled(s, Join)
    ensures var after := Step(s, Join); after.controller.Ready? && after.thread == None
  {
  }

  lemma {:induction false} JoinWithin(run: seq<Action>) returns (more: seq<Action>)
    requires Exec(run).Some? && Exec(run).value.controller.Joining?
    ensures Exec(run + more).Some? && Enabled(Exec(run + more).value, Join)
    ensures |more| <= DistanceToJoin(Exec(run).value) <= 12
    decreases DistanceToJoin(Exec(run).value)
  {
    hide *;
    var s := Exec(run).value;
    TerminatedIff(run);
    JoiningNotTerminated(s, run);
    DistanceBounded(s);
    if ControllerEnabled(s, Join) {
      JoinEnabled(s);
      more := [];
      assert run + more == run;
    } else {
      var a := JoinNeverStuck(run);
      ExecOne(run, a);
      NearerToJoin(s, Step(s, a));
      var rest := JoinWithin(run + [a]);
      more := [a] + rest;
      assert run + more == run + [a] + rest;
    }
  }

  lemma DistanceBounded(s: State)
    ensures DistanceToJoin(s) <= 12
  {
  }

  lemma JoinEnabled(s: State)
    requires ControllerEnabled(s, Join) && !s.terminated
    ensures Enabled(s, Join)
  {
    hide ControllerEnabled;
  }

  lemma NearerToJoin(s: State, s': State)
    requires s.thread.Some? && s.controller.Joining? && Nearer(s, s', s.thread.value)
    ensures DistanceToJoin(s') < DistanceToJoin(s) && s'.controller.Joining?
  {
    hide Distance;
  }

  function DistanceToJoin(s: State): nat {
    if s.thread.Some? then Distance(s, s.thread.value) else 0
  }

  lemma JoiningState(s: State)
    requires Inv(s) && LifeInv(s) && s.controller.Joining? && !ControllerEnabled(s, Join)
    ensures LockInv(s) && AnswerInv(s) && !s.listening
    ensures s.thread.Some? && Live(s, s.thread.value)
    ensures s.owner.Some? && s.owner.value.Listener? ==> s.owner.value.g == s.thread.value
  {
    assert LockInv(s) && AnswerInv(s);
    hide AnswerInv, TraceInv;
    OnlyThisListenerHolds(s, s.thread.value);
  }
}
