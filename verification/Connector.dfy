/** IConnector as a state machine: client threads, listener threads and one controlling thread,
    interleaved between any two lock operations, flag accesses or handler calls. */
module Connector {
  import opened Wrappers

  /** The identity of a non-empty std::function. */
  type Handler = nat
  type Buffer = seq<bv8>

  datatype AccessType = Normal | Exclusive | Sniffer

  /** The three handler slots; None is an empty std::function. */
  datatype Slots = Slots(normal: Option<Handler>, exclusive: Option<Handler>, sniffer: Option<Handler>)

  datatype Thread = Client(c: nat) | Listener(g: nat)

  /** What a client calls; Send and Unregister present a token of the given type. */
  datatype Operation =
    | Send(data: Buffer, token: AccessType)
    | Register(handler: Option<Handler>, access: AccessType)
    | Unregister(token: AccessType)
    | HasExclusive

  /** Where a client thread stands inside a call. */
  datatype ClientPc =
    | Idle
    | Entering(op: Operation)
    | Locked(op: Operation)
    | Asking(op: Operation)
    | Answered(op: Operation, exclusive: bool)
    | Leaving

  /** Where a listener thread stands inside listeningLoop. */
  datatype ListenerPc =
    | Testing
    | Receiving
    | Waiting(buf: Buffer)
    | Routing(buf: Buffer)
    | AskingL(buf: Buffer)
    | Calling(buf: Buffer, exclusive: bool)
    | Sniffing(buf: Buffer)
    | Resting(buf: Buffer)
    | Unwinding(buf: Buffer)
    | Dying
    | Finished

  /** Where the controlling thread stands inside listen or stopListen. */
  datatype Controller = Ready | Starting | Spawning | Assigning(g: nat) | Joining

  /** What an observer inside the critical sections sees. */
  datatype Event =
    | Sent(c: nat, token: AccessType, data: Buffer)
    | Refused(c: nat)
    | Registered(c: nat, access: AccessType, handler: Option<Handler>)
    | Unregistered(c: nat, token: AccessType)
    | Queried(c: nat, answer: bool)
    | Took(g: nat, buf: Buffer)
    | ToExclusive(g: nat, h: Handler, buf: Buffer)
    | ToNormal(g: nat, h: Handler, buf: Buffer)
    | ToSniffer(g: nat, h: Handler, buf: Buffer)
    | Faulted(g: nat, buf: Buffer)
    | Dropped(g: nat, buf: Buffer)

  /** `tokens` says of which types each client holds an AccessToken. */
  datatype State = State(
    slots: Slots,
    tokens: map<nat, set<AccessType>>,
    owner: Option<Thread>,
    depth: nat,
    clients: map<nat, ClientPc>,
    listening: bool,
    listeners: map<nat, ListenerPc>,
    next: nat,
    thread: Option<nat>,
    controller: Controller,
    terminated: bool,
    trace: seq<Event>)

  const INITIAL: State :=
    State(Slots(None, None, None), map[], None, 0, map[], false, map[], 0, None, Ready, false, [])

  /** One atomic step of one thread. `fails` and `throws` are the environment's choice: the virtual
      send, receive and the handlers are not part of this model. */
  datatype Action =
    | Call(c: nat, op: Operation)
    | Acquire(c: nat)
    | Ask(c: nat)
    | Answer(c: nat)
    | Act(c: nat, fails: bool)
    | Release(c: nat)
    | HandOver(c: nat, to: nat, token: AccessType)
    | Bring(c: nat, token: AccessType)
    | Test(g: nat)
    | Receive(g: nat, got: Option<Buffer>)
    | Take(g: nat)
    | AskL(g: nat)
    | AnswerL(g: nat)
    | CallPrimary(g: nat, throws: bool)
    | CallSniffer(g: nat, throws: bool)
    | Drop(g: nat)
    | Unwind(g: nat)
    | Die(g: nat)
    | Listen
    | StoreTrue
    | Spawn
    | Assign
    | StopListen
    | Join

  function Pc(s: State, c: nat): ClientPc {
    if c in s.clients then s.clients[c] else Idle
  }

  function Tokens(s: State, c: nat): set<AccessType> {
    if c in s.tokens then s.tokens[c] else {}
  }

  function PcL(s: State, g: nat): ListenerPc {
    if g in s.listeners then s.listeners[g] else Finished
  }

  // ------------------------------------------------------------ client steps

  /** The branches of the source that call hasExclusiveAccess before acting. */
  predicate AsksFirst(op: Operation) {
    match op
    case Send(_, token) => token == Normal
    case Register(_, access) => access == Exclusive
    case Unregister(_) => false
    case HasExclusive => false
  }

  predicate ReadyToAct(pc: ClientPc) {
    pc.Answered? || (pc.Locked? && !AsksFirst(pc.op))
  }

  function Put(s: Slots, access: AccessType, h: Option<Handler>): Slots {
    match access
    case Normal => s.(normal := h)
    case Exclusive => s.(exclusive := h)
    case Sniffer => s.(sniffer := h)
  }

  /** The switch statements of send, registerResponseHandler and unregisterResponseHandler. */
  function Outcome(s: State, c: nat, pc: ClientPc, fails: bool): Event
    requires ReadyToAct(pc)
  {
    match pc.op
    case Send(data, token) =>
      if token == Sniffer || (token == Normal && pc.Answered? && pc.exclusive) || fails then Refused(c)
      else Sent(c, token, data)
    case Register(h, access) =>
      if access == Exclusive && pc.Answered? && pc.exclusive then Refused(c) else Registered(c, access, h)
    case Unregister(token) => Unregistered(c, token)
    case HasExclusive => Queried(c, s.slots.exclusive.Some?)
  }

  function SlotsAfter(s: Slots, e: Event): Slots {
    match e
    case Registered(_, access, h) => Put(s, access, h)
    case Unregistered(_, token) => Put(s, token, None)
    case _ => s
  }

  /** The constructor of AccessToken is private: send and unregisterResponseHandler can only be called
      with a token the client has. */
  predicate MayCall(s: State, c: nat, op: Operation) {
    match op
    case Send(_, token) => token in Tokens(s, c)
    case Unregister(token) => token in Tokens(s, c)
    case _ => true
  }

  function Grant(s: State, c: nat, token: AccessType): State {
    s.(tokens := s.tokens[c := Tokens(s, c) + {token}])
  }

  predicate MayLock(s: State, t: Thread) {
    s.owner == None || s.owner == Some(t)
  }

  predicate ClientEnabled(s: State, a: Action) {
    match a
    case Call(c, op) => Pc(s, c).Idle? && MayCall(s, c, op)
    case Acquire(c) => Pc(s, c).Entering? && MayLock(s, Client(c))
    case Ask(c) => Pc(s, c).Locked? && AsksFirst(Pc(s, c).op) && MayLock(s, Client(c))
    case Answer(c) => Pc(s, c).Asking? && s.depth > 0
    case Act(c, _) => ReadyToAct(Pc(s, c))
    case Release(c) => Pc(s, c).Leaving? && s.depth > 0
    case HandOver(c, _, token) => Pc(s, c).Idle? && token in Tokens(s, c)
    case Bring(c, _) => Pc(s, c).Idle?
    case _ => false
  }

  function Lock(s: State, t: Thread): State {
    s.(owner := Some(t), depth := s.depth + 1)
  }

  function Unlock(s: State): State
    requires s.depth > 0
  {
    s.(depth := s.depth - 1, owner := if s.depth == 1 then None else s.owner)
  }

  function Move(s: State, c: nat, pc: ClientPc): State {
    s.(clients := s.clients[c := pc])
  }

  /** A successful registration yields a token. Moving a token leaves its type in the object moved from,
      so neither handing it over nor a call that takes it by value uses it up; and a token names no
      connector, so a client may bring one that another connector issued. */
  function ClientStep(s: State, a: Action): State
    requires ClientEnabled(s, a)
  {
    match a
    case Call(c, op) => Move(s, c, Entering(op))
    case Acquire(c) => Lock(Move(s, c, Locked(Pc(s, c).op)), Client(c))
    case Ask(c) => Lock(Move(s, c, Asking(Pc(s, c).op)), Client(c))
    case Answer(c) => Unlock(Move(s, c, Answered(Pc(s, c).op, s.slots.exclusive.Some?)))
    case Act(c, fails) =>
      var e := Outcome(s, c, Pc(s, c), fails);
      var t := if e.Registered? then Grant(s, c, e.access) else s;
      Move(t, c, Leaving).(slots := SlotsAfter(s.slots, e), trace := s.trace + [e])
    case Release(c) => Unlock(Move(s, c, Idle))
    case HandOver(_, to, token) => Grant(s, to, token)
    case Bring(c, token) => Grant(s, c, token)
  }

  // ------------------------------------------------------------ listener steps

  predicate ListenerEnabled(s: State, a: Action) {
    match a
    case Test(g) => PcL(s, g).Testing?
    case Receive(g, _) => PcL(s, g).Receiving?
    case Take(g) => PcL(s, g).Waiting? && MayLock(s, Listener(g))
    case AskL(g) => PcL(s, g).Routing? && MayLock(s, Listener(g))
    case AnswerL(g) => PcL(s, g).AskingL? && s.depth > 0
    case CallPrimary(g, _) => PcL(s, g).Calling?
    case CallSniffer(g, _) => PcL(s, g).Sniffing?
    case Drop(g) => PcL(s, g).Resting? && s.depth > 0
    case Unwind(g) => PcL(s, g).Unwinding? && s.depth > 0
    case Die(g) => PcL(s, g).Dying?
    case _ => false
  }

  function MoveL(s: State, g: nat, pc: ListenerPc): State {
    s.(listeners := s.listeners[g := pc])
  }

  /** The handler the if statement of the loop calls. */
  function Target(s: State, pc: ListenerPc): Option<Handler>
    requires pc.Calling?
  {
    if pc.exclusive then s.slots.exclusive else s.slots.normal
  }

  /** Where the listener goes. An empty std::function throws bad_function_call, a handler may throw
      on its own, and either exception unwinds out of the locked scope. */
  function GoesTo(s: State, a: Action): ListenerPc
    requires ListenerEnabled(s, a)
  {
    var pc := PcL(s, a.g);
    match a
    case Test(_) => if s.listening then Receiving else Finished
    case Receive(_, got) => if got == None then Dying else if got.value == [] then Testing else Waiting(got.value)
    case Take(_) => Routing(pc.buf)
    case AskL(_) => AskingL(pc.buf)
    case AnswerL(_) => Calling(pc.buf, s.slots.exclusive.Some?)
    case CallPrimary(_, throws) => if Target(s, pc) == None || throws then Unwinding(pc.buf) else Sniffing(pc.buf)
    case CallSniffer(_, throws) => if s.slots.sniffer.Some? && throws then Unwinding(pc.buf) else Resting(pc.buf)
    case Drop(_) => Testing
    case Unwind(_) => Dying
    case Die(_) => Finished
  }

  function Told(s: State, a: Action): seq<Event>
    requires ListenerEnabled(s, a)
  {
    var pc := PcL(s, a.g);
    match a
    case Take(g) => [Took(g, pc.buf)]
    case CallPrimary(g, throws) =>
      if Target(s, pc) == None then [Faulted(g, pc.buf)]
      else
        var h := Target(s, pc).value;
        [if pc.exclusive then ToExclusive(g, h, pc.buf) else ToNormal(g, h, pc.buf)]
        + if throws then [Faulted(g, pc.buf)] else []
    case CallSniffer(g, throws) =>
      if s.slots.sniffer == None then []
      else [ToSniffer(g, s.slots.sniffer.value, pc.buf)] + if throws then [Faulted(g, pc.buf)] else []
    case Drop(g) => [Dropped(g, pc.buf)]
    case Unwind(g) => [Dropped(g, pc.buf)]
    case _ => []
  }

  function ListenerStep(s: State, a: Action): State
    requires ListenerEnabled(s, a)
  {
    var t := MoveL(s, a.g, GoesTo(s, a)).(trace := s.trace + Told(s, a), listening := s.listening && !a.Die?);
    if a.Take? || a.AskL? then Lock(t, Listener(a.g))
    else if a.AnswerL? || a.Drop? || a.Unwind? then Unlock(t)
    else t
  }

  // ------------------------------------------------------------ listen and stopListen

  predicate ControllerEnabled(s: State, a: Action) {
    match a
    case Listen => s.controller == Ready
    case StoreTrue => s.controller == Starting
    case Spawn => s.controller == Spawning
    case Assign => s.controller.Assigning?
    case StopListen => s.controller == Ready
    case Join => s.controller == Joining && (s.thread == None || PcL(s, s.thread.value).Finished?)
    case _ => false
  }

  /** Listen throws when the flag is set. The new thread runs before it is assigned to the thread
      object, and assigning over a joinable thread object calls std::terminate. */
  function ControllerStep(s: State, a: Action): State
    requires ControllerEnabled(s, a)
  {
    match a
    case Listen => if s.listening then s else s.(controller := Starting)
    case StoreTrue => s.(listening := true, controller := Spawning)
    case Spawn => MoveL(s, s.next, Testing).(next := s.next + 1, controller := Assigning(s.next))
    case Assign =>
      if s.thread.Some? then s.(terminated := true)
      else s.(thread := Some(s.controller.g), controller := Ready)
    case StopListen => s.(listening := false, controller := Joining)
    case Join => s.(thread := None, controller := Ready)
  }

  // ------------------------------------------------------------ runs

  predicate Enabled(s: State, a: Action) {
    !s.terminated && (ClientEnabled(s, a) || ListenerEnabled(s, a) || ControllerEnabled(s, a))
  }

  function Step(s: State, a: Action): State
    requires Enabled(s, a)
  {
    if ClientEnabled(s, a) then ClientStep(s, a)
    else if ListenerEnabled(s, a) then ListenerStep(s, a)
    else ControllerStep(s, a)
  }

  /** The state after an interleaving, None if some step was not possible where it was taken. */
  function Exec(run: seq<Action>): Option<State> {
    if run == [] then Some(INITIAL)
    else
      var before, a := Exec(run[..|run| - 1]), run[|run| - 1];
      if before.Some? && Enabled(before.value, a) then Some(Step(before.value, a)) else None
  }

  /** The same, played forward from a state. */
  function Play(s: State, more: seq<Action>): Option<State>
    decreases more
  {
    if more == [] then Some(s)
    else if Enabled(s, more[0]) then Play(Step(s, more[0]), more[1..])
    else None
  }

  lemma PlayAt(s: State, run: seq<Action>, i: nat)
    requires i < |run| && Enabled(s, run[i])
    ensures Play(s, run[i..]) == Play(Step(s, run[i]), run[i + 1..])
  {
    hide Enabled, Step;
    assert run[i..][1..] == run[i + 1..];
  }

  lemma PlayEnds(s: State, run: seq<Action>)
    ensures Play(s, run[|run|..]) == Some(s) && run[0..] == run
  {
  }

  lemma ExecOne(run: seq<Action>, a: Action)
    requires Exec(run).Some? && Enabled(Exec(run).value, a)
    ensures Exec(run + [a]) == Some(Step(Exec(run).value, a))
  {
    hide Enabled, Step;
    assert (run + [a])[..|run|] == run;
  }

  lemma {:induction false} ExecPlay(run: seq<Action>, more: seq<Action>)
    requires Exec(run).Some? && Play(Exec(run).value, more).Some?
    ensures Exec(run + more) == Play(Exec(run).value, more)
    decreases more
  {
    hide Enabled, Step;
    if more == [] {
      assert run + more == run;
    } else {
      ExecOne(run, more[0]);
      hide Exec;
      ExecPlay(run + [more[0]], more[1..]);
      assert run + more == run + [more[0]] + more[1..];
    }
  }
}
