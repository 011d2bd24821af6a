/** Exclusive access and message routing, over every interleaving. The statements speak only of
    the trace of events; `Replay` and `Scan` are read off the trace alone. */
module ConnectorSafety {
  import opened Wrappers
  import opened Connector

  // ------------------------------------------------------------ reading a trace

  /** The handler slots the registrations of a trace amount to. */
  function Replay(t: seq<Event>): Slots {
    if t == [] then Slots(None, None, None) else SlotsAfter(Replay(t[..|t| - 1]), t[|t| - 1])
  }

  /** Registrations that put a handler into the exclusive slot. */
  function Acquisitions(t: seq<Event>): nat {
    if t == [] then 0
    else Acquisitions(t[..|t| - 1])
         + match t[|t| - 1] { case Registered(_, Exclusive, Some(_)) => 1 case _ => 0 }
  }

  /** Unregistrations that found a handler in the exclusive slot and cleared it. */
  function Clearings(t: seq<Event>): nat {
    if t == [] then 0
    else Clearings(t[..|t| - 1])
         + match t[|t| - 1] {
             case Unregistered(_, Exclusive) => if Replay(t[..|t| - 1]).exclusive.Some? then 1 else 0
             case _ => 0
           }
  }

  /** How far the listener has come with the buffer it holds the lock for. */
  datatype Phase =
    | Free
    | Holding(g: nat, buf: Buffer)
    | Routed(g: nat, buf: Buffer)
    | Done(g: nat, buf: Buffer)
    | Failed(g: nat, buf: Buffer)
    | Broken

  predicate ClientEvent(e: Event) {
    e.Sent? || e.Refused? || e.Registered? || e.Unregistered? || e.Queried?
  }

  function Advance(p: Phase, s: Slots, e: Event): Phase {
    match p
    case Free =>
      if ClientEvent(e) then Free
      else if e.Took? && e.buf != [] then Holding(e.g, e.buf)
      else Broken
    case Holding(g, buf) =>
      if s.exclusive.Some? then (if e == ToExclusive(g, s.exclusive.value, buf) then Routed(g, buf) else Broken)
      else if s.normal.Some? then (if e == ToNormal(g, s.normal.value, buf) then Routed(g, buf) else Broken)
      else (if e == Faulted(g, buf) then Failed(g, buf) else Broken)
    case Routed(g, buf) =>
      if e == Faulted(g, buf) then Failed(g, buf)
      else if s.sniffer.Some? then (if e == ToSniffer(g, s.sniffer.value, buf) then Done(g, buf) else Broken)
      else (if e == Dropped(g, buf) then Free else Broken)
    case Done(g, buf) =>
      if e == Dropped(g, buf) then Free
      else if e == Faulted(g, buf) then Failed(g, buf)
      else Broken
    case Failed(g, buf) => if e == Dropped(g, buf) then Free else Broken
    case Broken => Broken
  }

  /** The phase a trace ends in; Broken as soon as some event is out of place. */
  function Scan(t: seq<Event>): Phase {
    if t == [] then Free else Advance(Scan(t[..|t| - 1]), Replay(t[..|t| - 1]), t[|t| - 1])
  }

  /** No event is out of place with respect to the exclusive slot. */
  predicate RespectsExclusive(s: Slots, e: Event) {
    match e
    case Sent(_, token, _) => token != Sniffer && (token == Normal ==> s.exclusive == None)
    case Registered(_, access, _) => access == Exclusive ==> s.exclusive == None
    case Queried(_, answer) => answer == s.exclusive.Some?
    case _ => true
  }

  ghost predicate ExclusiveRespected(t: seq<Event>) {
    forall i {:trigger t[i]} :: 0 <= i < |t| ==> RespectsExclusive(Replay(t[..i]), t[i])
  }

  // ------------------------------------------------------------ the invariant

  function DepthOf(pc: ClientPc): nat {
    match pc
    case Locked(_) => 1
    case Asking(_) => 2
    case Answered(_, _) => 1
    case Leaving => 1
    case _ => 0
  }

  function DepthOfL(pc: ListenerPc): nat {
    match pc
    case Routing(_) => 1
    case AskingL(_) => 2
    case Calling(_, _) => 1
    case Sniffing(_) => 1
    case Resting(_) => 1
    case Unwinding(_) => 1
    case _ => 0
  }

  function Held(s: State, t: Thread): nat {
    match t
    case Client(c) => DepthOf(Pc(s, c))
    case Listener(g) => DepthOfL(PcL(s, g))
  }

  /** The recursive lock is held by exactly the thread that is inside a critical section, as often
      as that thread has locked it. */
  ghost predicate LockInv(s: State) {
    && (s.owner == None ==> s.depth == 0)
    && (forall t {:trigger Held(s, t)} :: Held(s, t) == if s.owner == Some(t) then s.depth else 0)
    && (s.owner.Some? ==> s.depth > 0)
  }

  /** What hasExclusiveAccess answered still holds when the answer is used. */
  ghost predicate AnswerInv(s: State) {
    && (forall c {:trigger Pc(s, c)} ::
          && (Pc(s, c).Answered? ==> AsksFirst(Pc(s, c).op) && Pc(s, c).exclusive == s.slots.exclusive.Some?)
          && (Pc(s, c).Asking? ==> AsksFirst(Pc(s, c).op)))
    && (forall g {:trigger PcL(s, g)} ::
          && (PcL(s, g).Calling? ==> PcL(s, g).exclusive == s.slots.exclusive.Some?)
          && (PcL(s, g).Waiting? ==> PcL(s, g).buf != []))
  }

  function PhaseOf(s: Slots, g: nat, pc: ListenerPc): Phase {
    match pc
    case Routing(buf) => Holding(g, buf)
    case AskingL(buf) => Holding(g, buf)
    case Calling(buf, _) => Holding(g, buf)
    case Sniffing(buf) => Routed(g, buf)
    case Resting(buf) => if s.sniffer.Some? then Done(g, buf) else Routed(g, buf)
    case Unwinding(buf) => Failed(g, buf)
    case _ => Free
  }

  ghost predicate TraceInv(s: State) {
    && Replay(s.trace) == s.slots
    && ExclusiveRespected(s.trace)
    && Scan(s.trace) == (if s.owner.Some? && s.owner.value.Listener?
                         then PhaseOf(s.slots, s.owner.value.g, PcL(s, s.owner.value.g)) else Free)
  }

  ghost predicate Inv(s: State) {
    LockInv(s) && AnswerInv(s) && TraceInv(s)
  }

  lemma Append(t: seq<Event>, e: Event)
    ensures Replay(t + [e]) == SlotsAfter(Replay(t), e)
    ensures Scan(t + [e]) == Advance(Scan(t), Replay(t), e)
    ensures ExclusiveRespected(t) && RespectsExclusive(Replay(t), e) ==> ExclusiveRespected(t + [e])
  {
    var u := t + [e];
    assert u[..|t|] == t;
    if ExclusiveRespected(t) && RespectsExclusive(Replay(t), e) {
      forall i | 0 <= i < |u|
        ensures RespectsExclusive(Replay(u[..i]), u[i])
      {
        if i < |t| {
          assert u[..i] == t[..i] && u[i] == t[i];
        }
      }
    }
  }

  lemma ClientKeepsLock(s: State, a: Action)
    requires LockInv(s) && AnswerInv(s) && ClientEnabled(s, a)
    ensures LockInv(ClientStep(s, a))
  {
    var s' := ClientStep(s, a);
    forall t {:trigger Held(s', t)}
      ensures Held(s', t) == if s'.owner == Some(t) then s'.depth else 0
    {
      assert Held(s, t) == if s.owner == Some(t) then s.depth else 0;
      assert Held(s, Client(a.c)) == if s.owner == Some(Client(a.c)) then s.depth else 0;
    }
  }

  lemma ClientKeepsAnswers(s: State, a: Action)
    requires LockInv(s) && AnswerInv(s) && ClientEnabled(s, a)
    ensures AnswerInv(ClientStep(s, a))
  {
    var s' := ClientStep(s, a);
    assert Held(s, Client(a.c)) == if s.owner == Some(Client(a.c)) then s.depth else 0;
    forall c {:trigger Pc(s', c)}
      ensures Pc(s', c).Answered? ==> AsksFirst(Pc(s', c).op) && Pc(s', c).exclusive == s'.slots.exclusive.Some?
      ensures Pc(s', c).Asking? ==> AsksFirst(Pc(s', c).op)
    {
      assert Held(s, Client(c)) == if s.owner == Some(Client(c)) then s.depth else 0;
      assert c != a.c ==> Pc(s', c) == Pc(s, c);
    }
    forall g {:trigger PcL(s', g)}
      ensures PcL(s', g).Calling? ==> PcL(s', g).exclusive == s'.slots.exclusive.Some?
      ensures PcL(s', g).Waiting? ==> PcL(s', g).buf != []
    {
      assert Held(s, Listener(g)) == if s.owner == Some(Listener(g)) then s.depth else 0;
      assert PcL(s', g) == PcL(s, g);
    }
  }

  lemma ClientKeepsTrace(s: State, a: Action)
    requires Inv(s) && ClientEnabled(s, a)
    ensures TraceInv(ClientStep(s, a))
  {
    hide Replay, Scan, ExclusiveRespected;
    assert Held(s, Client(a.c)) == if s.owner == Some(Client(a.c)) then s.depth else 0;
    if a.Act? {
      assert Pc(s, a.c).Answered? ==> AsksFirst(Pc(s, a.c).op);
      Append(s.trace, Outcome(s, a.c, Pc(s, a.c), a.fails));
    }
  }

  function LockChange(a: Action): int {
    if a.Take? || a.AskL? then 1 else if a.AnswerL? || a.Drop? || a.Unwind? then -1 else 0
  }

  lemma DepthFollows(s: State, a: Action)
    requires ListenerEnabled(s, a)
    ensures DepthOfL(GoesTo(s, a)) == DepthOfL(PcL(s, a.g)) + LockChange(a)
  {
  }

  lemma ListenerKeepsLock(s: State, a: Action)
    requires LockInv(s) && ListenerEnabled(s, a)
    ensures LockInv(ListenerStep(s, a))
  {
    var s' := ListenerStep(s, a);
    DepthFollows(s, a);
    assert LockChange(a) == 1 ==> MayLock(s, Listener(a.g));
    hide ListenerEnabled, DepthOfL, GoesTo, Told;
    assert PcL(s', a.g) == GoesTo(s, a);
    assert Held(s, Listener(a.g)) == if s.owner == Some(Listener(a.g)) then s.depth else 0;
    forall t {:trigger Held(s', t)}
      ensures Held(s', t) == if s'.owner == Some(t) then s'.depth else 0
    {
      assert Held(s, t) == if s.owner == Some(t) then s.depth else 0;
      assert t != Listener(a.g) ==> Held(s', t) == Held(s, t);
    }
  }

  lemma ListenerKeepsAnswers(s: State, a: Action)
    requires AnswerInv(s) && ListenerEnabled(s, a)
    ensures AnswerInv(ListenerStep(s, a))
  {
    var s', pc := ListenerStep(s, a), GoesTo(s, a);
    assert pc.Calling? ==> pc.exclusive == s.slots.exclusive.Some?;
    assert pc.Waiting? ==> pc.buf != [];
    hide ListenerEnabled, GoesTo, Told;
    assert s'.slots == s.slots;
    forall c {:trigger Pc(s', c)}
      ensures Pc(s', c) == Pc(s, c)
    {
    }
    forall g {:trigger PcL(s', g)}
      ensures PcL(s', g) == if g == a.g then pc else PcL(s, g)
    {
    }
  }

  /** The phase a listener's program counter stands for, when it holds the lock. */
  lemma TraceOfHolder(s: State, a: Action)
    requires Inv(s) && ListenerEnabled(s, a)
    ensures DepthOfL(PcL(s, a.g)) > 0 ==> s.owner == Some(Listener(a.g))
    ensures a.Take? ==> s.owner == None
    ensures a.Take? || DepthOfL(PcL(s, a.g)) > 0 ==> Scan(s.trace) == PhaseOf(s.slots, a.g, PcL(s, a.g))
  {
    hide Replay, Scan, ExclusiveRespected;
    assert Held(s, Listener(a.g)) == if s.owner == Some(Listener(a.g)) then s.depth else 0;
  }

  /** What a listener tells fits the trace, and leads to the phase of its next program counter. */
  lemma ToldFits(s: State, a: Action)
    requires Inv(s) && ListenerEnabled(s, a)
    requires a.Take? || DepthOfL(PcL(s, a.g)) > 0
    ensures var t := s.trace + Told(s, a);
            Replay(t) == s.slots && ExclusiveRespected(t) && Scan(t) == PhaseOf(s.slots, a.g, GoesTo(s, a))
  {
    hide Replay, Scan, ExclusiveRespected;
    TraceOfHolder(s, a);
    assert PcL(s, a.g).Waiting? ==> PcL(s, a.g).buf != [];
    assert PcL(s, a.g).Calling? ==> PcL(s, a.g).exclusive == s.slots.exclusive.Some?;
    hide LockInv, AnswerInv;
    var told := Told(s, a);
    if told == [] {
      assert s.trace + told == s.trace;
    } else {
      Append(s.trace, told[0]);
      if |told| == 1 {
        assert s.trace + told == s.trace + [told[0]];
      } else {
        assert s.trace + told == s.trace + [told[0]] + [told[1]];
        Append(s.trace + [told[0]], told[1]);
      }
    }
  }

  lemma ListenerKeepsTrace(s: State, a: Action)
    requires Inv(s) && ListenerEnabled(s, a)
    ensures TraceInv(ListenerStep(s, a))
  {
    hide Replay, Scan, ExclusiveRespected;
    var s' := ListenerStep(s, a);
    assert Held(s, Listener(a.g)) == if s.owner == Some(Listener(a.g)) then s.depth else 0;
    ListenerKeepsLock(s, a);
    DepthFollows(s, a);
    if a.Take? || DepthOfL(PcL(s, a.g)) > 0 {
      ToldFits(s, a);
      assert DepthOfL(GoesTo(s, a)) == 0 ==> PhaseOf(s.slots, a.g, GoesTo(s, a)) == Free;
      assert Held(s', Listener(a.g)) == DepthOfL(GoesTo(s, a));
      hide GoesTo, Told, ListenerEnabled, DepthOfL;
    } else {
      assert s.trace + Told(s, a) == s.trace;
      assert s'.owner == s.owner && s.owner != Some(Listener(a.g));
    }
  }

  lemma ControllerFrame(s: State, a: Action)
    requires ControllerEnabled(s, a) && s.next !in s.listeners
    ensures var s' := ControllerStep(s, a);
            && s'.slots == s.slots && s'.owner == s.owner && s'.depth == s.depth && s'.clients == s.clients
            && s'.trace == s.trace
            && forall g :: PcL(s', g) == PcL(s, g) || (PcL(s', g).Testing? && PcL(s, g).Finished?)
  {
  }

  lemma ControllerKeepsInv(s: State, a: Action)
    requires Inv(s) && ControllerEnabled(s, a) && s.next !in s.listeners
    ensures Inv(ControllerStep(s, a))
  {
    var s' := ControllerStep(s, a);
    ControllerFrame(s, a);
    hide Replay, Scan, ExclusiveRespected, ControllerStep, ControllerEnabled, PcL;
    forall c {:trigger Pc(s', c)}
      ensures Pc(s', c) == Pc(s, c)
    {
    }
    forall t {:trigger Held(s', t)}
      ensures Held(s', t) == Held(s, t)
    {
    }
  }

  // ------------------------------------------------------------ every run

  /** Thread numbers are handed out once. */
  ghost predicate Numbered(s: State) {
    forall g :: g in s.listeners ==> g < s.next
  }

  lemma StepKeepsInv(s: State, a: Action)
    requires Inv(s) && Numbered(s) && Enabled(s, a)
    ensures Inv(Step(s, a)) && Numbered(Step(s, a))
  {
    hide LockInv, AnswerInv, TraceInv, Told, GoesTo;
    if ClientEnabled(s, a) {
      ClientKeepsLock(s, a);
      ClientKeepsAnswers(s, a);
      ClientKeepsTrace(s, a);
    } else if ListenerEnabled(s, a) {
      ListenerKeepsLock(s, a);
      ListenerKeepsAnswers(s, a);
      ListenerKeepsTrace(s, a);
      assert a.g in s.listeners;
    } else {
      assert s.next !in s.listeners;
      ControllerKeepsInv(s, a);
    }
  }

  lemma LastStep(run: seq<Action>)
    requires Exec(run).Some? && run != []
    ensures var before, a := Exec(run[..|run| - 1]), run[|run| - 1];
            before.Some? && Enabled(before.value, a) && Exec(run).value == Step(before.value, a)
  {
    hide Enabled, Step;
  }

  lemma {:induction false} ReachableInv(run: seq<Action>)
    requires Exec(run).Some?
    ensures Inv(Exec(run).value) && Numbered(Exec(run).value)
  {
    hide Inv, Step, Enabled;
    if run == [] {
      InitialInv();
    } else {
      var shorter := run[..|run| - 1];
      ReachableInv(shorter);
      StepKeepsInv(Exec(shorter).value, run[|run| - 1]);
    }
  }

  lemma ReachableTrace(run: seq<Action>)
    requires Exec(run).Some?
    ensures Scan(Exec(run).value.trace) != Broken && ExclusiveRespected(Exec(run).value.trace)
    ensures Replay(Exec(run).value.trace) == Exec(run).value.slots
  {
    hide *;
    ReachableInv(run);
    InvTrace(Exec(run).value);
  }

  lemma InvTrace(s: State)
    requires Inv(s)
    ensures Scan(s.trace) != Broken && ExclusiveRespected(s.trace) && Replay(s.trace) == s.slots
  {
    hide Scan, Replay, ExclusiveRespected, LockInv, AnswerInv;
  }

  lemma InitialInv()
    ensures Inv(INITIAL) && Numbered(INITIAL)
  {
  }

  // ------------------------------------------------------------ exclusive access

  lemma {:induction false} Balance(t: seq<Event>)
    requires ExclusiveRespected(t)
    ensures Acquisitions(t) - Clearings(t) == if Replay(t).exclusive.Some? then 1 else 0
  {
    if t != [] {
      var u, e := t[..|t| - 1], t[|t| - 1];
      PrefixRespected(t, |t| - 1);
      Balance(u);
      assert RespectsExclusive(Replay(t[..|t| - 1]), t[|t| - 1]);
    }
  }

  lemma PrefixRespected(t: seq<Event>, k: nat)
    requires ExclusiveRespected(t) && k <= |t|
    ensures ExclusiveRespected(t[..k])
  {
    hide Replay, RespectsExclusive;
    forall i {:trigger t[..k][i]} | 0 <= i < k
      ensures RespectsExclusive(Replay(t[..k][..i]), t[..k][i])
    {
      assert t[..k][..i] == t[..i] && t[..k][i] == t[i];
    }
  }

  /** Over every interleaving: a send reaches the wire only with a normal or exclusive token, and
      with a normal one only while as many exclusive registrations have been cleared as were made;
      their difference is always 0 or 1, is what hasExclusiveAccess answers, and stands for the slot. */
  lemma ExclusiveSafety(run: seq<Action>)
    requires Exec(run).Some?
    ensures var t := Exec(run).value.trace;
            && Acquisitions(t) - Clearings(t) == (if Exec(run).value.slots.exclusive.Some? then 1 else 0)
            && forall i :: 0 <= i < |t| ==>
                 && (t[i].Sent? ==> t[i].token != Sniffer)
                 && (t[i].Sent? && t[i].token == Normal ==> Acquisitions(t[..i]) == Clearings(t[..i]))
                 && (t[i].Queried? ==> (t[i].answer <==> Acquisitions(t[..i]) == Clearings(t[..i]) + 1))
  {
    ReachableTrace(run);
    var t := Exec(run).value.trace;
    hide Exec, Replay, Acquisitions, Clearings, Scan;
    Balance(t);
    forall i | 0 <= i < |t|
      ensures Acquisitions(t[..i]) - Clearings(t[..i]) == if Replay(t[..i]).exclusive.Some? then 1 else 0
      ensures RespectsExclusive(Replay(t[..i]), t[i])
    {
      PrefixRespected(t, i);
      Balance(t[..i]);
    }
  }

  // ------------------------------------------------------------ routing

  lemma {:induction false} ScanPrefix(t: seq<Event>, k: nat)
    requires Scan(t) != Broken && k <= |t|
    ensures Scan(t[..k]) != Broken
    ensures k < |t| ==> Scan(t[..k + 1]) == Advance(Scan(t[..k]), Replay(t[..k]), t[k]) && Scan(t[..k + 1]) != Broken
    ensures k < |t| ==> Replay(t[..k + 1]) == SlotsAfter(Replay(t[..k]), t[k])
    decreases |t| - k
  {
    if k == |t| {
      assert t[..k] == t;
    } else {
      assert t[..k + 1][..k] == t[..k];
      if k + 1 < |t| {
        ScanPrefix(t, k + 1);
      } else {
        assert t[..k + 1] == t;
      }
    }
  }

  /** The first thing a listener does with a buffer, given the slots at lock acquisition. */
  function Primary(s: Slots, g: nat, buf: Buffer): Event {
    match (s.exclusive, s.normal)
    case (Some(h), _) => ToExclusive(g, h, buf)
    case (None, Some(h)) => ToNormal(g, h, buf)
    case (None, None) => Faulted(g, buf)
  }

  /** What follows the listener's lock acquisition at position `i`, as far as the trace goes:
      one primary call, then the sniffer if there is one, then the release; a throw cuts to the
      release. Nothing else comes between. */
  ghost predicate DispatchAt(t: seq<Event>, i: nat)
    requires i < |t| && t[i].Took?
  {
    var s, g, buf := Replay(t[..i]), t[i].g, t[i].buf;
    && buf != []
    && (i + 1 < |t| ==> t[i + 1] == Primary(s, g, buf))
    && (i + 2 < |t| && t[i + 1].Faulted? ==> t[i + 2] == Dropped(g, buf))
    && (i + 2 < |t| && !t[i + 1].Faulted? ==>
          t[i + 2] == Faulted(g, buf)
          || t[i + 2] == if s.sniffer.Some? then ToSniffer(g, s.sniffer.value, buf) else Dropped(g, buf))
    && (i + 3 < |t| && t[i + 2].Faulted? ==> t[i + 3] == Dropped(g, buf))
    && (i + 3 < |t| && t[i + 2].ToSniffer? ==> t[i + 3] == Dropped(g, buf) || t[i + 3] == Faulted(g, buf))
    && (i + 4 < |t| && t[i + 2].ToSniffer? && t[i + 3].Faulted? ==> t[i + 4] == Dropped(g, buf))
  }

  lemma FromHolding(t: seq<Event>, k: nat, g: nat, buf: Buffer)
    requires Scan(t) != Broken && k < |t| && Scan(t[..k]) == Holding(g, buf)
    ensures t[k] == Primary(Replay(t[..k]), g, buf) && Replay(t[..k + 1]) == Replay(t[..k])
    ensures Scan(t[..k + 1]) == if t[k].Faulted? then Failed(g, buf) else Routed(g, buf)
  {
    hide Scan, Replay;
    ScanPrefix(t, k);
  }

  lemma FromRouted(t: seq<Event>, k: nat, g: nat, buf: Buffer)
    requires Scan(t) != Broken && k < |t| && Scan(t[..k]) == Routed(g, buf)
    ensures var s := Replay(t[..k]).sniffer;
            t[k] == Faulted(g, buf) || t[k] == if s.Some? then ToSniffer(g, s.value, buf) else Dropped(g, buf)
    ensures t[k].Faulted? ==> Scan(t[..k + 1]) == Failed(g, buf)
    ensures t[k].ToSniffer? ==> Scan(t[..k + 1]) == Done(g, buf)
  {
    hide Scan, Replay;
    ScanPrefix(t, k);
  }

  lemma FromDone(t: seq<Event>, k: nat, g: nat, buf: Buffer)
    requires Scan(t) != Broken && k < |t| && Scan(t[..k]) == Done(g, buf)
    ensures t[k] == Dropped(g, buf) || t[k] == Faulted(g, buf)
    ensures t[k].Faulted? ==> Scan(t[..k + 1]) == Failed(g, buf)
  {
    hide Scan, Replay;
    ScanPrefix(t, k);
  }

  lemma FromFailed(t: seq<Event>, k: nat, g: nat, buf: Buffer)
    requires Scan(t) != Broken && k < |t| && Scan(t[..k]) == Failed(g, buf)
    ensures t[k] == Dropped(g, buf)
  {
    hide Scan, Replay;
    ScanPrefix(t, k);
  }

  lemma DispatchStarts(t: seq<Event>, i: nat)
    requires Scan(t) != Broken && i < |t| && t[i].Took?
    ensures t[i].buf != [] && Scan(t[..i + 1]) == Holding(t[i].g, t[i].buf) && Replay(t[..i + 1]) == Replay(t[..i])
  {
    hide Scan, Replay;
    ScanPrefix(t, i);
  }

  lemma DispatchFollows(t: seq<Event>, i: nat)
    requires Scan(t) != Broken && i < |t| && t[i].Took?
    ensures DispatchAt(t, i)
  {
    hide Scan, Replay, Primary;
    var g, buf, n := t[i].g, t[i].buf, |t|;
    DispatchStarts(t, i);
    if i + 1 < n {
      FromHolding(t, i + 1, g, buf);
    }
    if i + 2 < n {
      if t[i + 1].Faulted? {
        FromFailed(t, i + 2, g, buf);
      } else {
        FromRouted(t, i + 2, g, buf);
      }
    }
    if i + 3 < n {
      if t[i + 2].Faulted? {
        FromFailed(t, i + 3, g, buf);
      } else if t[i + 2].ToSniffer? {
        FromDone(t, i + 3, g, buf);
        if i + 4 < n && t[i + 3].Faulted? {
          FromFailed(t, i + 4, g, buf);
        }
      }
    }
  }

  /** A handler call belongs to a dispatch: the lock acquisition is one or two events back. */
  ghost predicate Preceded(t: seq<Event>, i: nat)
    requires i < |t|
  {
    && (t[i].ToExclusive? || t[i].ToNormal? ==> i > 0 && t[i - 1] == Took(t[i].g, t[i].buf))
    && (t[i].ToSniffer? ==> i > 1 && t[i - 2] == Took(t[i].g, t[i].buf))
  }

  /** What an unbroken step says about the phase it started from. */
  lemma Origin(p: Phase, s: Slots, e: Event)
    requires Advance(p, s, e) != Broken
    ensures Advance(p, s, e).Holding? ==> e == Took(Advance(p, s, e).g, Advance(p, s, e).buf)
    ensures Advance(p, s, e).Routed? ==> p == Holding(Advance(p, s, e).g, Advance(p, s, e).buf)
    ensures e.ToExclusive? || e.ToNormal? ==> p == Holding(e.g, e.buf)
    ensures e.ToSniffer? ==> p == Routed(e.g, e.buf)
  {
  }

  lemma NotAtStart(t: seq<Event>, k: nat)
    requires k <= |t| && Scan(t[..k]) != Free
    ensures k > 0
  {
    assert t[..0] == [];
  }

  lemma CallsPreceded(t: seq<Event>, i: nat)
    requires Scan(t) != Broken && i < |t|
    ensures Preceded(t, i)
  {
    hide Scan, Replay, Advance;
    ScanPrefix(t, i);
    Origin(Scan(t[..i]), Replay(t[..i]), t[i]);
    if t[i].ToExclusive? || t[i].ToNormal? || t[i].ToSniffer? {
      NotAtStart(t, i);
      ScanPrefix(t, i - 1);
      Origin(Scan(t[..i - 1]), Replay(t[..i - 1]), t[i - 1]);
    }
    if t[i].ToSniffer? {
      NotAtStart(t, i - 1);
      ScanPrefix(t, i - 2);
      Origin(Scan(t[..i - 2]), Replay(t[..i - 2]), t[i - 2]);
    }
  }

  /** Over every interleaving: each non-empty buffer goes to exactly one of the exclusive and the
      normal handler, by the slots at lock acquisition, then to the sniffer if registered; no client
      operation comes between; and every handler call is part of such a dispatch. */
  lemma Routing(run: seq<Action>)
    requires Exec(run).Some?
    ensures var t := Exec(run).value.trace;
            forall i :: 0 <= i < |t| ==> (t[i].Took? ==> DispatchAt(t, i)) && Preceded(t, i)
  {
    ReachableTrace(run);
    var t := Exec(run).value.trace;
    hide *;
    forall i | 0 <= i < |t|
      ensures (t[i].Took? ==> DispatchAt(t, i)) && Preceded(t, i)
    {
      CallsPreceded(t, i);
      if t[i].Took? {
        DispatchFollows(t, i);
      }
    }
  }

  // ------------------------------------------------------------ the lock

  /** Over every interleaving the lock is never shared, and is free exactly when no thread is
      inside a critical section. */
  lemma LockDiscipline(run: seq<Action>)
    requires Exec(run).Some?
    ensures var s := Exec(run).value;
            && (forall t, u :: Held(s, t) > 0 && Held(s, u) > 0 ==> t == u)
            && ((forall t :: Held(s, t) == 0) <==> s.owner == None && s.depth == 0)
  {
    ReachableInv(run);
    var s := Exec(run).value;
    hide Exec, Held;
    if s.owner.Some? {
      assert Held(s, s.owner.value) == s.depth;
    }
  }

  lemma UnwindReleases(s: State, a: Action)
    requires LockInv(s) && ListenerEnabled(s, a) && a.Unwind?
    ensures var s' := ListenerStep(s, a); s'.owner == None && s'.depth == 0 && PcL(s', a.g) == Dying
  {
    assert Held(s, Listener(a.g)) == if s.owner == Some(Listener(a.g)) then s.depth else 0;
  }

  /** A missing handler, or one that throws, ends the loop with the lock released. */
  lemma FaultReleasesLock(run: seq<Action>)
    requires Exec(run).Some? && run != [] && run[|run| - 1].Unwind?
    ensures Exec(run).value.owner == None && Exec(run).value.depth == 0
    ensures PcL(Exec(run).value, run[|run| - 1].g) == Dying
  {
    var shorter, a := run[..|run| - 1], run[|run| - 1];
    LastStep(run);
    ReachableInv(shorter);
    var s := Exec(shorter).value;
    hide Exec, LockInv, AnswerInv, TraceInv, ListenerStep;
    UnwindReleases(s, a);
  }
}
