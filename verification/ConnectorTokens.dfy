/** Access tokens: who can hold one, what it lets its holder do, and what the protocol does not enforce. */
module ConnectorTokens {
  import opened Wrappers
  import opened Connector
  import opened ConnectorSafety
  import opened ConnectorObject
  import opened ConnectorHandlers

  // ------------------------------------------------------------ where tokens come from

  /** Some registration of the trace yielded a token of this type. */
  ghost predicate Issued(t: seq<Event>, token: AccessType) {
    exists j :: 0 <= j < |t| && t[j].Registered? && t[j].access == token
  }

  /** The same, to this client. */
  ghost predicate IssuedTo(t: seq<Event>, c: nat, token: AccessType) {
    exists j :: 0 <= j < |t| && t[j].Registered? && t[j].access == token && t[j].c == c
  }

  /** Some client brought a token of this type from another connector. */
  ghost predicate Brought(run: seq<Action>, token: AccessType) {
    exists i :: 0 <= i < |run| && run[i].Bring? && run[i].token == token
  }

  /** Clients keep their tokens to themselves, and to this connector. */
  predicate Private(run: seq<Action>) {
    forall i :: 0 <= i < |run| ==> !run[i].HandOver? && !run[i].Bring?
  }

  ghost predicate Entitled(run: seq<Action>, t: seq<Event>, c: nat, token: AccessType) {
    (Issued(t, token) || Brought(run, token)) && (Private(run) ==> IssuedTo(t, c, token))
  }

  predicate Presents(e: Event) {
    e.Sent? || e.Unregistered?
  }

  function Presented(op: Operation): Option<AccessType> {
    match op
    case Send(_, token) => Some(token)
    case Unregister(token) => Some(token)
    case _ => None
  }

  /** The call a client is in, up to its effect. */
  function Current(pc: ClientPc): Option<Operation> {
    match pc
    case Entering(op) => Some(op)
    case Locked(op) => Some(op)
    case Asking(op) => Some(op)
    case Answered(op, _) => Some(op)
    case _ => None
  }

  /** A client inside a call has the token it presented. */
  ghost predicate CallInv(s: State) {
    forall c {:trigger Pc(s, c)} :: Current(Pc(s, c)).Some? ==> MayCall(s, c, Current(Pc(s, c)).value)
  }

  ghost predicate HolderInv(run: seq<Action>, s: State) {
    && (forall c, token :: token in Tokens(s, c) ==> Entitled(run, s.trace, c, token))
    && (forall c, token :: IssuedTo(s.trace, c, token) ==> token in Tokens(s, c))
  }

  ghost predicate UseInv(run: seq<Action>, t: seq<Event>) {
    forall i :: 0 <= i < |t| && Presents(t[i]) ==> Entitled(run, t[..i], t[i].c, t[i].token)
  }

  lemma EntitledLater(run: seq<Action>, t: seq<Event>, c: nat, token: AccessType, a: Action, more: seq<Event>)
    requires Entitled(run, t, c, token)
    ensures Entitled(run + [a], t + more, c, token)
  {
    var r, u := run + [a], t + more;
    assert forall j {:trigger t[j]} :: 0 <= j < |t| ==> u[j] == t[j];
    assert forall i {:trigger run[i]} :: 0 <= i < |run| ==> r[i] == run[i];
    if Private(r) {
      assert Private(run);
    }
  }

  lemma IssuedLater(t: seq<Event>, more: seq<Event>, c: nat, token: AccessType)
    ensures IssuedTo(t + more, c, token) <==> IssuedTo(t, c, token) || IssuedTo(more, c, token)
  {
    var u := t + more;
    assert forall j {:trigger t[j]} :: 0 <= j < |t| ==> u[j] == t[j];
    assert forall j {:trigger more[j]} :: 0 <= j < |more| ==> u[|t| + j] == more[j];
  }

  /** What a step adds to the trace, and who can gain a token by it. */
  lemma StepAdds(s: State, a: Action) returns (more: seq<Event>)
    requires Enabled(s, a)
    ensures Step(s, a).trace == s.trace + more
    ensures (exists e :: e in more && (Presents(e) || e.Registered?)) ==> ClientEnabled(s, a) && a.Act?
    ensures ClientEnabled(s, a) && a.Act? ==> more == [Outcome(s, a.c, Pc(s, a.c), a.fails)]
    ensures forall c, token :: token in Tokens(Step(s, a), c) <==> token in Tokens(s, c) || Gains(s, a, c, token)
  {
    if ClientEnabled(s, a) {
      ClientAdds(s, a);
      hide ClientStep, Outcome, ClientEnabled, Gains, Tokens;
      more := if a.Act? then [Outcome(s, a.c, Pc(s, a.c), a.fails)] else [];
    } else if ListenerEnabled(s, a) {
      ToldOnly(s, a);
      more := Told(s, a);
      hide Told, GoesTo, ListenerEnabled;
    } else {
      more := [];
      hide ClientEnabled, ListenerEnabled;
    }
  }

  lemma ClientAdds(s: State, a: Action)
    requires ClientEnabled(s, a)
    ensures ClientStep(s, a).trace == s.trace + if a.Act? then [Outcome(s, a.c, Pc(s, a.c), a.fails)] else []
    ensures forall c, token :: token in Tokens(ClientStep(s, a), c) <==> token in Tokens(s, c) || Gains(s, a, c, token)
  {
    hide Outcome;
    if a.Act? {
      OutcomeNames(s, a.c, a.fails);
    }
  }

  lemma ToldOnly(s: State, a: Action)
    requires ListenerEnabled(s, a)
    ensures forall e :: e in Told(s, a) ==> !Presents(e) && !e.Registered?
  {
  }

  /** The step gives client `c` a token of this type. */
  predicate Gains(s: State, a: Action, c: nat, token: AccessType) {
    && ClientEnabled(s, a)
    && match a
       case Act(d, fails) => c == d && Outcome(s, d, Pc(s, d), fails) == Registered(d, token, RegisteredWith(s, a))
       case HandOver(_, to, handed) => c == to && token == handed
       case Bring(d, brought) => c == d && token == brought
       case _ => false
  }

  function RegisteredWith(s: State, a: Action): Option<Handler> {
    if a.Act? && ReadyToAct(Pc(s, a.c)) && Outcome(s, a.c, Pc(s, a.c), a.fails).Registered?
    then Outcome(s, a.c, Pc(s, a.c), a.fails).handler else None
  }

  lemma OutcomeNames(s: State, c: nat, fails: bool)
    requires ReadyToAct(Pc(s, c))
    ensures var e := Outcome(s, c, Pc(s, c), fails);
            (Presents(e) ==> e.c == c && Presented(Pc(s, c).op) == Some(e.token)) && (e.Registered? ==> e.c == c)
  {
  }

  lemma HoldersStep(run: seq<Action>, s: State, a: Action)
    requires HolderInv(run, s) && Enabled(s, a)
    ensures HolderInv(run + [a], Step(s, a))
  {
    var s' := Step(s, a);
    var more := StepAdds(s, a);
    if ClientEnabled(s, a) && a.Act? {
      OutcomeNames(s, a.c, a.fails);
    }
    hide Step, Enabled, Tokens, Outcome, Entitled, IssuedTo;
    forall c, token | token in Tokens(s', c)
      ensures Entitled(run + [a], s'.trace, c, token)
    {
      if token in Tokens(s, c) {
        EntitledLater(run, s.trace, c, token, a, more);
      } else {
        GainEntitles(run, s, a, c, token, more);
      }
    }
    forall c, token | IssuedTo(s'.trace, c, token)
      ensures token in Tokens(s', c)
    {
      IssuedLater(s.trace, more, c, token);
      if !IssuedTo(s.trace, c, token) {
        IssuedNow(s, a, c, token, more);
      }
    }
  }

  lemma GainEntitles(run: seq<Action>, s: State, a: Action, c: nat, token: AccessType, more: seq<Event>)
    requires HolderInv(run, s) && Gains(s, a, c, token)
    requires a.Act? ==> more == [Outcome(s, a.c, Pc(s, a.c), a.fails)]
    ensures Entitled(run + [a], s.trace + more, c, token)
  {
    var r, t := run + [a], s.trace + more;
    assert r[|run|] == a;
    if a.Act? {
      assert t[|s.trace|] == more[0];
    } else if a.HandOver? {
      assert token in Tokens(s, a.c);
      EntitledLater(run, s.trace, a.c, token, a, more);
      assert !Private(r);
    } else {
      assert !Private(r) && Brought(r, token);
    }
  }

  lemma IssuedNow(s: State, a: Action, c: nat, token: AccessType, more: seq<Event>)
    requires IssuedTo(more, c, token)
    requires (exists e :: e in more && (Presents(e) || e.Registered?)) ==> ClientEnabled(s, a) && a.Act?
    requires ClientEnabled(s, a) && a.Act? ==> more == [Outcome(s, a.c, Pc(s, a.c), a.fails)]
    ensures Gains(s, a, c, token)
  {
    var j :| 0 <= j < |more| && more[j].Registered? && more[j].access == token && more[j].c == c;
    assert more[j] in more;
    OutcomeNames(s, a.c, a.fails);
    hide Outcome;
  }

  lemma CallsStep(s: State, a: Action)
    requires CallInv(s) && Enabled(s, a)
    ensures CallInv(Step(s, a))
  {
    var s' := Step(s, a);
    var more := StepAdds(s, a);
    forall c {:trigger Pc(s', c)} | Current(Pc(s', c)).Some?
      ensures MayCall(s', c, Current(Pc(s', c)).value)
    {
      CurrentFrom(s, a, c);
      hide Step, Enabled, Tokens, Gains;
      assert MayCall(s, c, Current(Pc(s', c)).value);
    }
  }

  lemma CurrentFrom(s: State, a: Action, c: nat)
    requires Enabled(s, a) && Current(Pc(Step(s, a), c)).Some?
    ensures var op := Current(Pc(Step(s, a), c)); op == Current(Pc(s, c)) || MayCall(s, c, op.value)
  {
    if ClientEnabled(s, a) {
      hide Outcome;
      assert c != a.c ==> Pc(ClientStep(s, a), c) == Pc(s, c);
    } else if ListenerEnabled(s, a) {
      hide GoesTo, Told;
    }
  }

  lemma UsesStep(run: seq<Action>, s: State, a: Action)
    requires CallInv(s) && HolderInv(run, s) && UseInv(run, s.trace) && Enabled(s, a)
    ensures UseInv(run + [a], Step(s, a).trace)
  {
    var more := StepAdds(s, a);
    var t := s.trace + more;
    if ClientEnabled(s, a) && a.Act? {
      OutcomeNames(s, a.c, a.fails);
      assert Current(Pc(s, a.c)) == Some(Pc(s, a.c).op);
    }
    hide Step, Enabled, Outcome, Entitled;
    forall i | 0 <= i < |t| && Presents(t[i])
      ensures Entitled(run + [a], t[..i], t[i].c, t[i].token)
    {
      if i < |s.trace| {
        assert t[..i] == s.trace[..i] && t[i] == s.trace[i];
        EntitledLater(run, s.trace[..i], t[i].c, t[i].token, a, []);
        assert s.trace[..i] + [] == s.trace[..i];
      } else {
        assert t[i] == more[i - |s.trace|] && t[i] in more;
        assert t[..i] == s.trace;
        assert MayCall(s, a.c, Pc(s, a.c).op);
        EntitledLater(run, s.trace, t[i].c, t[i].token, a, []);
        assert s.trace + [] == s.trace;
      }
    }
  }

  lemma NothingYet(c: nat)
    ensures Exec([]) == Some(INITIAL) && Private([]) && Quiescent(INITIAL, c)
  {
  }

  lemma NoTokensYet()
    ensures CallInv(INITIAL) && HolderInv([], INITIAL) && UseInv([], INITIAL.trace)
  {
  }

  lemma {:induction false} ReachableTokens(run: seq<Action>)
    requires Exec(run).Some?
    ensures CallInv(Exec(run).value) && HolderInv(run, Exec(run).value) && UseInv(run, Exec(run).value.trace)
  {
    hide *;
    if run == [] {
      NothingYet(0);
      NoTokensYet();
    } else {
      var shorter, a := run[..|run| - 1], run[|run| - 1];
      LastStep(run);
      ReachableTokens(shorter);
      var s := Exec(shorter).value;
      CallsStep(s, a);
      HoldersStep(shorter, s, a);
      UsesStep(shorter, s, a);
      assert run == shorter + [a];
    }
  }

  /** Over every interleaving, each send that reaches the wire and each unregistration presents a token of
      a type some client registered for before, unless one was brought from another connector; and if
      clients keep their tokens to themselves, of a type that very client registered for. */
  lemma TokensNeeded(run: seq<Action>)
    requires Exec(run).Some?
    ensures var t := Exec(run).value.trace;
            forall i :: 0 <= i < |t| && Presents(t[i]) ==>
              && (Issued(t[..i], t[i].token) || Brought(run, t[i].token))
              && (Private(run) ==> IssuedTo(t[..i], t[i].c, t[i].token))
  {
    ReachableTokens(run);
    hide Exec, Issued, IssuedTo, Brought, Private, CallInv, HolderInv;
  }

  /** Tokens are never revoked: clients that keep theirs hold exactly those they ever registered for. */
  lemma HeldIff(run: seq<Action>, c: nat, token: AccessType)
    requires Exec(run).Some? && Private(run)
    ensures var s := Exec(run).value; token in Tokens(s, c) <==> IssuedTo(s.trace, c, token)
  {
    ReachableTokens(run);
    hide Exec, IssuedTo, Private, CallInv, UseInv, Tokens;
  }

  // ------------------------------------------------------------ what a call achieves

  /** A whole call of a client, made while nobody else moves. */
  function Solo(c: nat, op: Operation): seq<Action> {
    [Call(c, op), Acquire(c)] + (if AsksFirst(op) then [Ask(c), Answer(c)] else []) + [Act(c, false), Release(c)]
  }

  /** The client is outside any call and the lock is free. */
  predicate Quiescent(s: State, c: nat) {
    !s.terminated && s.owner == None && s.depth == 0 && Pc(s, c).Idle?
  }

  lemma ClientTakes(s: State, a: Action)
    requires ClientEnabled(s, a) && !s.terminated
    ensures Enabled(s, a) && Step(s, a) == ClientStep(s, a)
  {
    hide ClientStep;
  }

  /** What is left after the call: its event, its effect on the slots, the token if it yields one. */
  function AfterCall(s: State, c: nat, op: Operation): State {
    var e := Atomic(s.slots, c, op, false);
    var t := if e.Registered? then Grant(s, c, e.access) else s;
    t.(clients := s.clients[c := Idle], slots := SlotsAfter(s.slots, e), trace := s.trace + [e])
  }

  lemma CallBegins(s: State, c: nat, op: Operation) returns (s1: State, s2: State)
    requires Quiescent(s, c) && MayCall(s, c, op)
    ensures Enabled(s, Call(c, op)) && s1 == Step(s, Call(c, op))
    ensures Enabled(s1, Acquire(c)) && s2 == Step(s1, Acquire(c))
    ensures s2 == s.(clients := s.clients[c := Locked(op)], owner := Some(Client(c)), depth := 1)
  {
    hide Enabled, Step, MayCall, ListenerEnabled, ControllerEnabled;
    ClientTakes(s, Call(c, op));
    s1 := Move(s, c, Entering(op));
    ClientTakes(s1, Acquire(c));
    s2 := Lock(Move(s1, c, Locked(op)), Client(c));
    assert s.clients[c := Entering(op)][c := Locked(op)] == s.clients[c := Locked(op)];
  }

  lemma CallAsks(s: State, c: nat, op: Operation) returns (s3: State, s4: State)
    requires !s.terminated && s.owner == Some(Client(c)) && s.depth == 1 && Pc(s, c) == Locked(op) && AsksFirst(op)
    ensures Enabled(s, Ask(c)) && s3 == Step(s, Ask(c))
    ensures Enabled(s3, Answer(c)) && s4 == Step(s3, Answer(c))
    ensures s4 == s.(clients := s.clients[c := Answered(op, s.slots.exclusive.Some?)])
  {
    hide Enabled, Step, ListenerEnabled, ControllerEnabled;
    ClientTakes(s, Ask(c));
    s3 := Lock(Move(s, c, Asking(op)), Client(c));
    ClientTakes(s3, Answer(c));
    s4 := Unlock(Move(s3, c, Answered(op, s3.slots.exclusive.Some?)));
    assert s.clients[c := Asking(op)][c := Answered(op, s.slots.exclusive.Some?)]
        == s.clients[c := Answered(op, s.slots.exclusive.Some?)];
  }

  lemma CallEnds(s: State, c: nat, op: Operation) returns (s5: State, s6: State)
    requires !s.terminated && s.owner == Some(Client(c)) && s.depth == 1
    requires (Pc(s, c) == Locked(op) && !AsksFirst(op))
          || (Pc(s, c) == Answered(op, s.slots.exclusive.Some?) && AsksFirst(op))
    ensures Enabled(s, Act(c, false)) && s5 == Step(s, Act(c, false))
    ensures Enabled(s5, Release(c)) && s6 == Step(s5, Release(c))
    ensures s6 == AfterCall(s, c, op).(owner := None, depth := 0)
  {
    hide Enabled, Step, ListenerEnabled, ControllerEnabled;
    var e := Outcome(s, c, Pc(s, c), false);
    assert e == Atomic(s.slots, c, op, false);
    hide Outcome, Atomic, SlotsAfter;
    ClientTakes(s, Act(c, false));
    var t := if e.Registered? then Grant(s, c, e.access) else s;
    s5 := Move(t, c, Leaving).(slots := SlotsAfter(s.slots, e), trace := s.trace + [e]);
    assert s5 == ClientStep(s, Act(c, false));
    ClientTakes(s5, Release(c));
    s6 := Unlock(Move(s5, c, Idle));
    assert s.clients[c := Leaving][c := Idle] == s.clients[c := Idle];
  }

  lemma AfterCallOf(s: State, t: State, c: nat, op: Operation)
    requires t.slots == s.slots && t.tokens == s.tokens && t.trace == s.trace
    requires t == s.(clients := t.clients, owner := t.owner, depth := t.depth)
    requires t.clients[c := Idle] == s.clients[c := Idle] && s.owner == None && s.depth == 0
    ensures AfterCall(t, c, op).(owner := None, depth := 0) == AfterCall(s, c, op)
  {
    hide Atomic, SlotsAfter;
  }

  lemma PlayAsking(s: State, c: nat, op: Operation, run: seq<Action>)
    requires Quiescent(s, c) && MayCall(s, c, op) && AsksFirst(op)
    requires run == [Call(c, op), Acquire(c), Ask(c), Answer(c), Act(c, false), Release(c)]
    ensures Play(s, run) == Some(AfterCall(s, c, op))
  {
    hide Enabled, Step, Play, AfterCall, MayCall;
    var s1, s2 := CallBegins(s, c, op);
    var s3, s4 := CallAsks(s2, c, op);
    var s5, s6 := CallEnds(s4, c, op);
    AfterCallOf(s, s4, c, op);
    hide *;
    PlayAt(s, run, 0);
    PlayAt(s1, run, 1);
    PlayAt(s2, run, 2);
    PlayAt(s3, run, 3);
    PlayAt(s4, run, 4);
    PlayAt(s5, run, 5);
    PlayEnds(s6, run);
    PlayEnds(s, run);
  }

  lemma PlayDirect(s: State, c: nat, op: Operation, run: seq<Action>)
    requires Quiescent(s, c) && MayCall(s, c, op) && !AsksFirst(op)
    requires run == [Call(c, op), Acquire(c), Act(c, false), Release(c)]
    ensures Play(s, run) == Some(AfterCall(s, c, op))
  {
    hide Enabled, Step, Play, AfterCall, MayCall;
    var s1, s2 := CallBegins(s, c, op);
    var s5, s6 := CallEnds(s2, c, op);
    AfterCallOf(s, s2, c, op);
    hide *;
    PlayAt(s, run, 0);
    PlayAt(s1, run, 1);
    PlayAt(s2, run, 2);
    PlayAt(s5, run, 3);
    PlayEnds(s6, run);
    PlayEnds(s, run);
  }

  lemma PlayBlocked(s: State, run: seq<Action>)
    requires run != [] && !Enabled(s, run[0])
    ensures Play(s, run) == None
  {
  }

  /** A call made alone does what its critical section does, and one whose token is missing cannot be made. */
  lemma SoloPlayed(s: State, c: nat, op: Operation)
    requires Quiescent(s, c)
    ensures Play(s, Solo(c, op)) == if MayCall(s, c, op) then Some(AfterCall(s, c, op)) else None
  {
    var run := Solo(c, op);
    if !MayCall(s, c, op) {
      assert !Enabled(s, run[0]);
      hide *;
      PlayBlocked(s, run);
    } else if AsksFirst(op) {
      assert run == [Call(c, op), Acquire(c), Ask(c), Answer(c), Act(c, false), Release(c)];
      hide *;
      PlayAsking(s, c, op, run);
    } else {
      assert run == [Call(c, op), Acquire(c), Act(c, false), Release(c)];
      hide *;
      PlayDirect(s, c, op, run);
    }
  }

  /** A send made alone reaches the wire. */
  predicate GoesOut(s: State, c: nat, data: Buffer, token: AccessType) {
    var played := Play(s, Solo(c, Send(data, token)));
    played.Some? && played.value.trace == s.trace + [Sent(c, token, data)]
  }

  /** It does iff the client holds the token and the token is exclusive, or normal while no exclusive handler
      is registered. Whether a handler is registered for the token itself does not matter. */
  lemma GoesOutIff(s: State, c: nat, data: Buffer, token: AccessType)
    requires Quiescent(s, c)
    ensures GoesOut(s, c, data, token)
       <==> token in Tokens(s, c) && (token == Exclusive || (token == Normal && s.slots.exclusive == None))
  {
    SoloPlayed(s, c, Send(data, token));
    hide Play, Solo, Tokens;
    var e := Atomic(s.slots, c, Send(data, token), false);
    assert (s.trace + [e])[|s.trace|] == e;
    assert (s.trace + [Sent(c, token, data)])[|s.trace|] == Sent(c, token, data);
  }

  /** The slots are those of before but for one. */
  predicate OnlyChanges(s: Slots, t: Slots, access: AccessType, h: Option<Handler>) {
    Slot(t, access) == h && forall other :: other != access ==> Slot(t, other) == Slot(s, other)
  }

  /** A registration made alone puts exactly its handler, empty or not, into its slot and yields its token,
      iff it is not exclusive while the exclusive slot is taken; refused, it changes nothing. */
  lemma RegistersIff(s: State, c: nat, h: Option<Handler>, access: AccessType)
    requires Quiescent(s, c)
    ensures var played := Play(s, Solo(c, Register(h, access)));
            && played.Some?
            && (played.value.trace == s.trace + [Registered(c, access, h)]
                <==> !(access == Exclusive && s.slots.exclusive.Some?))
            && (played.value.trace == s.trace + [Registered(c, access, h)] ==>
                  OnlyChanges(s.slots, played.value.slots, access, h) && access in Tokens(played.value, c))
            && (played.value.trace != s.trace + [Registered(c, access, h)] ==>
                  played.value.trace == s.trace + [Refused(c)]
                  && played.value.slots == s.slots && played.value.tokens == s.tokens)
  {
    var op := Register(h, access);
    SoloPlayed(s, c, op);
    hide Play, Solo;
    var e := Atomic(s.slots, c, op, false);
    assert (s.trace + [e])[|s.trace|] == e;
    assert (s.trace + [Registered(c, access, h)])[|s.trace|] == Registered(c, access, h);
  }

  /** An unregistration made alone, with a token of any type, empties that slot and no other. */
  lemma UnregistersAlone(s: State, c: nat, token: AccessType)
    requires Quiescent(s, c) && token in Tokens(s, c)
    ensures var played := Play(s, Solo(c, Unregister(token)));
            && played.Some? && played.value.trace == s.trace + [Unregistered(c, token)]
            && OnlyChanges(s.slots, played.value.slots, token, None) && played.value.tokens == s.tokens
  {
    SoloPlayed(s, c, Unregister(token));
    hide Play, Solo;
  }

  /** Over every interleaving: the effect of a send is that the data reach the wire iff the connector's own
      send does not fail and the token is exclusive, or normal while the registrations so far leave no
      exclusive handler; otherwise the call throws. */
  lemma SendIff(run: seq<Action>, c: nat, fails: bool)
    requires Exec(run).Some? && Enabled(Exec(run).value, Act(c, fails)) && Pc(Exec(run).value, c).op.Send?
    ensures var s, op := Exec(run).value, Pc(Exec(run).value, c).op;
            var t := Step(s, Act(c, fails)).trace;
            var goes := !fails && (op.token == Exclusive || (op.token == Normal && !Holds(s.trace, Exclusive)));
            t == s.trace + [if goes then Sent(c, op.token, op.data) else Refused(c)]
  {
    EffectsAtomic(run, c, fails);
    ReachableTrace(run);
    var s := Exec(run).value;
    hide Exec, Step, Enabled, Holds, Replay;
    SlotSetIff(s.trace, Exclusive);
  }

  /** While an exclusive handler is registered, a client can get a send onto the wire iff it holds an
      exclusive token; and clients that keep their tokens to themselves can iff they ever registered
      exclusively, whoever the handler belongs to now. */
  lemma IntruderIff(run: seq<Action>, c: nat, data: Buffer)
    requires Exec(run).Some? && Quiescent(Exec(run).value, c) && Exec(run).value.slots.exclusive.Some?
    ensures var s := Exec(run).value;
            && ((exists token :: GoesOut(s, c, data, token)) <==> Exclusive in Tokens(s, c))
            && (Private(run) ==>
                  ((exists token :: GoesOut(s, c, data, token)) <==> IssuedTo(s.trace, c, Exclusive)))
  {
    var s := Exec(run).value;
    hide Exec, GoesOut, Private, Tokens, IssuedTo;
    forall token
      ensures GoesOut(s, c, data, token) <==> token == Exclusive && Exclusive in Tokens(s, c)
    {
      GoesOutIff(s, c, data, token);
    }
    assert Exclusive in Tokens(s, c) ==> GoesOut(s, c, data, Exclusive);
    if Private(run) {
      HeldIff(run, c, Exclusive);
    }
  }

  // ------------------------------------------------------------ whether a handler is registered

  /** Over every interleaving, when a send reaches the wire a handler is registered for its token iff the
      last call about that type was a registration with a handler that is not empty. */
  lemma HandlerAtSendIff(run: seq<Action>, i: nat)
    requires Exec(run).Some? && i < |Exec(run).value.trace| && Exec(run).value.trace[i].Sent?
    ensures var t := Exec(run).value.trace;
            Slot(Replay(t[..i]), t[i].token).Some? <==> Holds(t[..i], t[i].token)
  {
    hide Exec;
    SlotSetIff(Exec(run).value.trace[..i], Exec(run).value.trace[i].token);
  }

  // ------------------------------------------------------------ the inputs

  /** A call made alone after a run, and what it leaves. */
  lemma ThenSolo(run: seq<Action>, c: nat, op: Operation) returns (longer: seq<Action>)
    requires Exec(run).Some? && Quiescent(Exec(run).value, c) && MayCall(Exec(run).value, c, op)
    ensures longer == run + Solo(c, op) && Exec(longer).Some?
    ensures Private(run) ==> Private(longer)
    ensures var s, s' := Exec(run).value, Exec(longer).value; var e := Atomic(s.slots, c, op, false);
            && s'.trace == s.trace + [e] && s'.slots == SlotsAfter(s.slots, e)
            && (forall d :: Quiescent(s, d) ==> Quiescent(s', d))
            && (e.Registered? ==> e.access in Tokens(s', c))
            && (forall d, token :: token in Tokens(s, d) ==> token in Tokens(s', d))
  {
    AfterCallFacts(Exec(run).value, c, op);
    assert forall a :: a in Solo(c, op) ==> !a.HandOver? && !a.Bring?;
    hide Exec, Play, Solo, AfterCall, Atomic, SlotsAfter, Quiescent, Tokens;
    SoloPlayed(Exec(run).value, c, op);
    ExecPlay(run, Solo(c, op));
    longer := run + Solo(c, op);
  }

  lemma AfterCallFacts(s: State, c: nat, op: Operation)
    ensures var s', e := AfterCall(s, c, op), Atomic(s.slots, c, op, false);
            && s'.trace == s.trace + [e] && s'.slots == SlotsAfter(s.slots, e)
            && (forall d :: Quiescent(s, d) ==> Quiescent(s', d))
            && (e.Registered? ==> e.access in Tokens(s', c))
            && (forall d, token :: token in Tokens(s, d) ==> token in Tokens(s', d))
  {
    hide Atomic, SlotsAfter;
  }

  /** Registering an empty function yields a token: a send reaches the wire with every slot empty. */
  lemma SendWithoutHandler() returns (run: seq<Action>)
    ensures Exec(run).Some? && Private(run)
    ensures Exec(run).value.trace == [Registered(0, Normal, None), Sent(0, Normal, [1])]
    ensures Exec(run).value.slots == Slots(None, None, None)
  {
    hide Exec, Solo, Private, Tokens, Quiescent;
    NothingYet(0);
    run := ThenSolo([], 0, Register(None, Normal));
    run := ThenSolo(run, 0, Send([1], Normal));
  }

  /** An exclusive token from an empty registration: its holder sends and unregisters while the exclusive
      handler of another client is registered. */
  lemma Intrusion() returns (run: seq<Action>)
    ensures Exec(run).Some? && Private(run)
    ensures Exec(run).value.trace == [Registered(1, Exclusive, None), Registered(0, Exclusive, Some(7)),
                                      Sent(1, Exclusive, [1]), Unregistered(1, Exclusive)]
    ensures Exec(run).value.slots.exclusive == None
  {
    hide Exec, Solo, Private, Tokens, Quiescent;
    NothingYet(0);
    NothingYet(1);
    run := ThenSolo([], 1, Register(None, Exclusive));
    run := ThenSolo(run, 0, Register(Some(7), Exclusive));
    run := ThenSolo(run, 1, Send([1], Exclusive));
    run := ThenSolo(run, 1, Unregister(Exclusive));
  }
}
