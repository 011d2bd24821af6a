/** IConnector as an object: each member's critical section run by one thread, and its place in the
    interleaved machine, where the same sections take effect as if they ran alone. */
module ConnectorObject {
  import opened Wrappers
  import opened Connector
  import opened ConnectorSafety

  /** What a client operation amounts to when its whole critical section runs on slots `s`. */
  function Atomic(s: Slots, c: nat, op: Operation, fails: bool): Event {
    match op
    case Send(data, token) =>
      if token == Sniffer || (token == Normal && s.exclusive.Some?) || fails then Refused(c) else Sent(c, token, data)
    case Register(h, access) =>
      if access == Exclusive && s.exclusive.Some? then Refused(c) else Registered(c, access, h)
    case Unregister(token) => Unregistered(c, token)
    case HasExclusive => Queried(c, s.exclusive.Some?)
  }

  /** What one pass of the listener through its locked scope amounts to. */
  function Dispatched(s: Slots, g: nat, buf: Buffer, primaryThrows: bool, snifferThrows: bool): seq<Event> {
    var first := Primary(s, g, buf);
    [Took(g, buf), first] + AfterPrimary(s, g, buf, first.Faulted?, primaryThrows, snifferThrows)
  }

  function AfterPrimary(s: Slots, g: nat, buf: Buffer, noHandler: bool, primaryThrows: bool, snifferThrows: bool)
    : seq<Event>
  {
    if noHandler then [Dropped(g, buf)]
    else if primaryThrows then [Faulted(g, buf), Dropped(g, buf)]
    else if s.sniffer == None then [Dropped(g, buf)]
    else if snifferThrows then [ToSniffer(g, s.sniffer.value, buf), Faulted(g, buf), Dropped(g, buf)]
    else [ToSniffer(g, s.sniffer.value, buf), Dropped(g, buf)]
  }

  class IConnector {
    var normalResponseHandler: Option<Handler>
    var exclusiveResponseHandler: Option<Handler>
    var snifferResponseHandler: Option<Handler>
    /** How often the running thread has locked the recursive mutex. */
    var guard: nat
    ghost var trace: seq<Event>

    ghost function Fields(): Slots
      reads this
    {
      Slots(normalResponseHandler, exclusiveResponseHandler, snifferResponseHandler)
    }

    constructor ()
      ensures Fields() == Slots(None, None, None) && guard == 0 && trace == []
    {
      normalResponseHandler, exclusiveResponseHandler, snifferResponseHandler := None, None, None;
      guard, trace := 0, [];
    }

    method HasExclusiveAccess() returns (answer: bool)
      modifies this`guard
      ensures answer == exclusiveResponseHandler.Some? && guard == old(guard)
    {
      guard := guard + 1;
      answer := exclusiveResponseHandler.Some?;
      guard := guard - 1;
    }

    /** `fails` is the outcome of the virtual send; the result says whether an exception left the call. */
    method SendWithToken(c: nat, data: Buffer, token: AccessType, fails: bool) returns (thrown: bool)
      modifies this`guard, this`trace
      ensures trace == old(trace) + [Atomic(Fields(), c, Send(data, token), fails)]
      ensures thrown == trace[|trace| - 1].Refused? && guard == old(guard)
    {
      guard := guard + 1;
      match token {
        case Normal =>
          var exclusive := HasExclusiveAccess();
          thrown := exclusive || fails;
        case Exclusive =>
          thrown := fails;
        case Sniffer =>
          thrown := true;
      }
      trace := trace + [if thrown then Refused(c) else Sent(c, token, data)];
      guard := guard - 1;
    }

    /** The token's type, None when the registration throws. */
    method RegisterResponseHandler(c: nat, handler: Option<Handler>, access: AccessType)
      returns (token: Option<AccessType>)
      modifies this
      ensures trace == old(trace) + [Atomic(old(Fields()), c, Register(handler, access), false)]
      ensures Fields() == SlotsAfter(old(Fields()), trace[|trace| - 1])
      ensures token == (if trace[|trace| - 1].Refused? then None else Some(access)) && guard == old(guard)
      ensures token == None <==> access == Exclusive && old(exclusiveResponseHandler).Some?
      ensures normalResponseHandler == if access == Normal then handler else old(normalResponseHandler)
      ensures snifferResponseHandler == if access == Sniffer then handler else old(snifferResponseHandler)
      ensures exclusiveResponseHandler
           == if access == Exclusive && token != None then handler else old(exclusiveResponseHandler)
    {
      guard := guard + 1;
      token := Some(access);
      match access {
        case Normal =>
          normalResponseHandler := handler;
        case Exclusive =>
          var taken := HasExclusiveAccess();
          if taken {
            token := None;
          } else {
            exclusiveResponseHandler := handler;
          }
        case Sniffer =>
          snifferResponseHandler := handler;
      }
      trace := trace + [if token == None then Refused(c) else Registered(c, access, handler)];
      guard := guard - 1;
    }

    method UnregisterResponseHandler(c: nat, token: AccessType)
      modifies this
      ensures trace == old(trace) + [Atomic(old(Fields()), c, Unregister(token), false)]
      ensures Fields() == SlotsAfter(old(Fields()), Unregistered(c, token)) && guard == old(guard)
      ensures normalResponseHandler == if token == Normal then None else old(normalResponseHandler)
      ensures exclusiveResponseHandler == if token == Exclusive then None else old(exclusiveResponseHandler)
      ensures snifferResponseHandler == if token == Sniffer then None else old(snifferResponseHandler)
    {
      guard := guard + 1;
      match token {
        case Normal => normalResponseHandler := None;
        case Exclusive => exclusiveResponseHandler := None;
        case Sniffer => snifferResponseHandler := None;
      }
      trace := trace + [Unregistered(c, token)];
      guard := guard - 1;
    }

    /** The locked scope of listeningLoop. True when an exception leaves it; the mutex is released either way. */
    method Dispatch(g: nat, buf: Buffer, primaryThrows: bool, snifferThrows: bool) returns (thrown: bool)
      modifies this`guard, this`trace
      ensures trace == old(trace) + Dispatched(Fields(), g, buf, primaryThrows, snifferThrows)
      ensures guard == old(guard)
      ensures thrown <==> Faulted(g, buf) in Dispatched(Fields(), g, buf, primaryThrows, snifferThrows)
    {
      guard := guard + 1;
      trace := trace + [Took(g, buf)];
      thrown := false;
      var exclusive := HasExclusiveAccess();
      var target := if exclusive then exclusiveResponseHandler else normalResponseHandler;
      if target == None {
        thrown := true;
      } else {
        trace := trace + [if exclusive then ToExclusive(g, target.value, buf) else ToNormal(g, target.value, buf)];
        thrown := primaryThrows;
      }
      if !thrown && snifferResponseHandler.Some? {
        trace := trace + [ToSniffer(g, snifferResponseHandler.value, buf)];
        thrown := snifferThrows;
      }
      if thrown {
        trace := trace + [Faulted(g, buf)];
      }
      trace := trace + [Dropped(g, buf)];
      guard := guard - 1;
    }
  }

  /** Over every interleaving a client's effect is the one its critical section would have if it ran
      alone on the current slots, although the check and the effect are separate steps. */
  lemma EffectsAtomic(run: seq<Action>, c: nat, fails: bool)
    requires Exec(run).Some? && Enabled(Exec(run).value, Act(c, fails))
    ensures var s := Exec(run).value;
            var s', e := Step(s, Act(c, fails)), Atomic(s.slots, c, Pc(s, c).op, fails);
            s'.trace == s.trace + [e] && s'.slots == SlotsAfter(s.slots, e)
  {
    ReachableInv(run);
    var s := Exec(run).value;
    hide Exec;
    assert Pc(s, c).Answered? ==> AsksFirst(Pc(s, c).op) && Pc(s, c).exclusive == s.slots.exclusive.Some?;
  }

  lemma AppendSeq(t: seq<Event>, e: Event, rest: seq<Event>)
    ensures t + ([e] + rest) == t + [e] + rest
  {
  }

  /** Running `es` from phase `p` with slots that the events leave alone. */
  function Phases(p: Phase, s: Slots, es: seq<Event>): Phase
    decreases es
  {
    if es == [] then p else Phases(Advance(p, s, es[0]), s, es[1..])
  }

  /** No event changes a slot. */
  predicate Quiet(es: seq<Event>) {
    forall e :: e in es ==> !e.Registered? && !e.Unregistered?
  }

  lemma DispatchedQuiet(s: Slots, g: nat, buf: Buffer, primaryThrows: bool, snifferThrows: bool)
    ensures Quiet(Dispatched(s, g, buf, primaryThrows, snifferThrows))
  {
  }

  lemma {:induction false} ScanPhases(t: seq<Event>, es: seq<Event>)
    requires Quiet(es)
    ensures Scan(t + es) == Phases(Scan(t), Replay(t), es) && Replay(t + es) == Replay(t)
    decreases es
  {
    hide Scan, Replay, Advance;
    if es == [] {
      assert t + es == t;
    } else {
      var e, rest := es[0], es[1..];
      assert es == [e] + rest;
      Append(t, e);
      AppendSeq(t, e, rest);
      ScanPhases(t + [e], rest);
    }
  }

  lemma PhasesCons(p: Phase, s: Slots, e: Event, rest: seq<Event>)
    ensures Phases(p, s, [e] + rest) == Phases(Advance(p, s, e), s, rest)
  {
    hide Advance;
    assert ([e] + rest)[1..] == rest;
  }

  lemma AfterPrimaryRouted(s: Slots, g: nat, buf: Buffer, noHandler: bool, primaryThrows: bool, snifferThrows: bool)
    ensures var p := if noHandler then Failed(g, buf) else Routed(g, buf);
            Phases(p, s, AfterPrimary(s, g, buf, noHandler, primaryThrows, snifferThrows)) == Free
  {
    var faulted, dropped := Faulted(g, buf), Dropped(g, buf);
    PhasesCons(Failed(g, buf), s, dropped, []);
    PhasesCons(Done(g, buf), s, dropped, []);
    PhasesCons(Routed(g, buf), s, dropped, []);
    PhasesCons(Routed(g, buf), s, faulted, [dropped]);
    PhasesCons(Done(g, buf), s, faulted, [dropped]);
    assert [faulted] + [dropped] == [faulted, dropped] && [dropped] + [] == [dropped];
    if s.sniffer.Some? {
      var told := ToSniffer(g, s.sniffer.value, buf);
      PhasesCons(Routed(g, buf), s, told, [dropped]);
      PhasesCons(Routed(g, buf), s, told, [faulted, dropped]);
      assert [told] + [dropped] == [told, dropped] && [told] + [faulted, dropped] == [told, faulted, dropped];
    }
  }

  /** A pass through the locked scope is a whole dispatch: it keeps any trace well routed. */
  lemma DispatchIsRouted(t: seq<Event>, g: nat, buf: Buffer, primaryThrows: bool, snifferThrows: bool)
    requires Scan(t) == Free && buf != []
    ensures Scan(t + Dispatched(Replay(t), g, buf, primaryThrows, snifferThrows)) == Free
  {
    var s := Replay(t);
    var first := Primary(s, g, buf);
    var rest := AfterPrimary(s, g, buf, first.Faulted?, primaryThrows, snifferThrows);
    DispatchedQuiet(s, g, buf, primaryThrows, snifferThrows);
    hide Scan, Replay, Phases, AfterPrimary, Quiet;
    ScanPhases(t, Dispatched(s, g, buf, primaryThrows, snifferThrows));
    AfterPrimaryRouted(s, g, buf, first.Faulted?, primaryThrows, snifferThrows);
    FirstTwo(s, g, buf, first, rest);
  }

  lemma FirstTwo(s: Slots, g: nat, buf: Buffer, first: Event, rest: seq<Event>)
    requires buf != [] && first == Primary(s, g, buf)
    ensures Phases(Free, s, [Took(g, buf), first] + rest)
         == Phases(if first.Faulted? then Failed(g, buf) else Routed(g, buf), s, rest)
  {
    hide Phases;
    assert [Took(g, buf), first] + rest == [Took(g, buf)] + ([first] + rest);
    PhasesCons(Free, s, Took(g, buf), [first] + rest);
    PhasesCons(Holding(g, buf), s, first, rest);
  }

  /** Between a lock acquisition and the release that follows it lies one pass through the locked scope. */
  lemma DispatchIsPass(t: seq<Event>, i: nat, j: nat) returns (p: bool, q: bool)
    requires Scan(t) != Broken && i < j < |t| && t[i].Took? && t[j].Dropped?
    requires forall k :: i < k < j ==> !t[k].Dropped?
    ensures t[i..j + 1] == Dispatched(Replay(t[..i]), t[i].g, t[i].buf, p, q)
  {
    DispatchFollows(t, i);
    hide Scan, Replay;
    var s, g, buf := Replay(t[..i]), t[i].g, t[i].buf;
    p := t[i + 2].Faulted?;
    q := i + 3 < |t| && t[i + 3].Faulted?;
    ReleaseSoon(t, i, j);
    if j == i + 2 {
      assert t[i..j + 1] == [t[i], t[i + 1], t[i + 2]];
    } else if j == i + 3 {
      assert t[i..j + 1] == [t[i], t[i + 1], t[i + 2], t[i + 3]];
    } else {
      assert t[i..j + 1] == [t[i], t[i + 1], t[i + 2], t[i + 3], t[i + 4]];
    }
  }

  lemma ReleaseSoon(t: seq<Event>, i: nat, j: nat)
    requires i < j < |t| && t[i].Took? && t[j].Dropped? && DispatchAt(t, i)
    requires forall k :: i < k < j ==> !t[k].Dropped?
    ensures i + 2 <= j <= i + 4
  {
    hide Replay;
  }

  /** Over every interleaving the listener's events from a lock acquisition to the next release are those
      of its locked scope run alone on the slots at the acquisition. */
  lemma ListenerAtomic(run: seq<Action>, i: nat, j: nat) returns (primaryThrows: bool, snifferThrows: bool)
    requires Exec(run).Some?
    requires var t := Exec(run).value.trace;
             i < j < |t| && t[i].Took? && t[j].Dropped? && forall k :: i < k < j ==> !t[k].Dropped?
    ensures var t := Exec(run).value.trace;
            t[i..j + 1] == Dispatched(Replay(t[..i]), t[i].g, t[i].buf, primaryThrows, snifferThrows)
  {
    hide *;
    ReachableTrace(run);
    primaryThrows, snifferThrows := DispatchIsPass(Exec(run).value.trace, i, j);
  }
}
