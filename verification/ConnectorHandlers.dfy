/** Which handler a slot holds and which one is called, told from the calls that registered them. */
module ConnectorHandlers {
  import opened Wrappers
  import opened Connector
  import opened ConnectorSafety

  function Slot(s: Slots, access: AccessType): Option<Handler> {
    match access
    case Normal => s.normal
    case Exclusive => s.exclusive
    case Sniffer => s.sniffer
  }

  predicate Concerns(e: Event, access: AccessType) {
    (e.Registered? && e.access == access) || (e.Unregistered? && e.token == access)
  }

  /** The last registration or unregistration of this type registered handler `h`. */
  ghost predicate LastRegisters(t: seq<Event>, access: AccessType, h: Handler) {
    exists j :: 0 <= j < |t| && t[j].Registered? && t[j].access == access && t[j].handler == Some(h)
                && forall k :: j < k < |t| ==> !Concerns(t[k], access)
  }

  lemma ReplayLast(t: seq<Event>)
    requires t != []
    ensures Replay(t) == SlotsAfter(Replay(t[..|t| - 1]), t[|t| - 1])
  {
    hide SlotsAfter;
  }

  lemma LastBefore(t: seq<Event>, access: AccessType, h: Handler)
    requires t != [] && !Concerns(t[|t| - 1], access)
    ensures LastRegisters(t, access, h) <==> LastRegisters(t[..|t| - 1], access, h)
  {
    var u := t[..|t| - 1];
    if LastRegisters(u, access, h) {
      var j :| 0 <= j < |u| && u[j].Registered? && u[j].access == access && u[j].handler == Some(h)
               && forall k :: j < k < |u| ==> !Concerns(u[k], access);
      assert t[j] == u[j];
      assert forall k :: j < k < |u| ==> t[k] == u[k];
    }
    if LastRegisters(t, access, h) {
      var j :| 0 <= j < |t| && t[j].Registered? && t[j].access == access && t[j].handler == Some(h)
               && forall k :: j < k < |t| ==> !Concerns(t[k], access);
      assert u[j] == t[j];
      assert forall k :: j < k < |u| ==> u[k] == t[k];
    }
  }

  lemma LastNow(t: seq<Event>, access: AccessType, h: Handler)
    requires t != [] && Concerns(t[|t| - 1], access)
    ensures LastRegisters(t, access, h) <==> t[|t| - 1].Registered? && t[|t| - 1].handler == Some(h)
  {
    if LastRegisters(t, access, h) {
      var j :| 0 <= j < |t| && t[j].Registered? && t[j].access == access && t[j].handler == Some(h)
               && forall k :: j < k < |t| ==> !Concerns(t[k], access);
      assert j == |t| - 1;
    }
  }

  /** A slot holds exactly the handler last registered for it, if it was not unregistered since. */
  lemma {:induction false} SlotHoldsIff(t: seq<Event>, access: AccessType, h: Handler)
    ensures Slot(Replay(t), access) == Some(h) <==> LastRegisters(t, access, h)
  {
    if t != [] {
      var u, e := t[..|t| - 1], t[|t| - 1];
      SlotHoldsIff(u, access, h);
      ReplayLast(t);
      hide Replay, LastRegisters;
      if Concerns(e, access) {
        LastNow(t, access, h);
      } else {
        LastBefore(t, access, h);
      }
    }
  }

  ghost predicate Holds(t: seq<Event>, access: AccessType) {
    exists h :: LastRegisters(t, access, h)
  }

  lemma SlotSetIff(t: seq<Event>, access: AccessType)
    ensures Slot(Replay(t), access).Some? <==> Holds(t, access)
  {
    hide Replay, LastRegisters;
    if Slot(Replay(t), access).Some? {
      SlotHoldsIff(t, access, Slot(Replay(t), access).value);
    }
    if h :| LastRegisters(t, access, h) {
      SlotHoldsIff(t, access, h);
    }
  }

  predicate HandlerCall(e: Event) {
    e.ToExclusive? || e.ToNormal? || e.ToSniffer?
  }

  /** A handler call, or the want of one, judged by the registrations before it. */
  ghost predicate CalledRightly(t: seq<Event>, i: nat)
    requires i < |t|
  {
    var u := t[..i];
    match t[i]
    case ToExclusive(_, h, _) => LastRegisters(u, Exclusive, h)
    case ToNormal(_, h, _) => LastRegisters(u, Normal, h) && !Holds(u, Exclusive)
    case ToSniffer(_, h, _) => LastRegisters(u, Sniffer, h)
    case Dropped(_, _) => i > 0 && (t[i - 1].ToExclusive? || t[i - 1].ToNormal? ==> !Holds(u, Sniffer))
    case Faulted(g, buf) =>
      && i > 0
      && if t[i - 1] == Took(g, buf) then !Holds(u, Exclusive) && !Holds(u, Normal)
         else HandlerCall(t[i - 1]) && t[i - 1].g == g && t[i - 1].buf == buf
    case _ => true
  }

  lemma CallFits(p: Phase, s: Slots, e: Event)
    requires Advance(p, s, e) != Broken
    ensures e.ToExclusive? ==> s.exclusive == Some(e.h)
    ensures e.ToNormal? ==> s.normal == Some(e.h) && s.exclusive == None
    ensures e.ToSniffer? ==> s.sniffer == Some(e.h)
    ensures e.Dropped? && p.Routed? ==> s.sniffer == None
    ensures e.Faulted? && p.Holding? ==> p == Holding(e.g, e.buf) && s.exclusive == None && s.normal == None
    ensures e.Faulted? && !p.Holding? ==> p == Routed(e.g, e.buf) || p == Done(e.g, e.buf)
    ensures e.Dropped? ==> p != Free
  {
  }

  /** Which event leads to a phase. */
  lemma CameFrom(p: Phase, s: Slots, e: Event)
    requires Advance(p, s, e) != Broken
    ensures var q := Advance(p, s, e);
            && (q.Holding? <==> e.Took?) && (q.Holding? ==> e == Took(q.g, q.buf))
            && (q.Routed? <==> e.ToExclusive? || e.ToNormal?) && (q.Routed? ==> e.g == q.g && e.buf == q.buf)
            && (q.Done? <==> e.ToSniffer?) && (q.Done? ==> e.g == q.g && e.buf == q.buf)
            && (q.Failed? <==> e.Faulted?) && (q.Failed? ==> e == Faulted(q.g, q.buf))
  {
  }

  lemma SlotsByHistory(u: seq<Event>)
    ensures forall access, h: Handler :: Slot(Replay(u), access) == Some(h) <==> LastRegisters(u, access, h)
    ensures forall access :: Slot(Replay(u), access) == None <==> !Holds(u, access)
  {
    hide Replay, LastRegisters, Holds, Slot;
    forall access, h: Handler
      ensures Slot(Replay(u), access) == Some(h) <==> LastRegisters(u, access, h)
    {
      SlotHoldsIff(u, access, h);
    }
    forall access
      ensures Slot(Replay(u), access) == None <==> !Holds(u, access)
    {
      SlotSetIff(u, access);
    }
  }

  lemma CallJudged(t: seq<Event>, i: nat)
    requires Scan(t) != Broken && i < |t|
    ensures CalledRightly(t, i)
  {
    var u := t[..i];
    ScanPrefix(t, i);
    SlotsByHistory(u);
    hide Scan, Replay, LastRegisters, Holds, Advance;
    CallFits(Scan(u), Replay(u), t[i]);
    var s := Replay(u);
    assert Slot(s, Exclusive) == s.exclusive && Slot(s, Normal) == s.normal && Slot(s, Sniffer) == s.sniffer;
    if t[i].Dropped? || t[i].Faulted? {
      NotAtStart(t, i);
      ScanPrefix(t, i - 1);
      CameFrom(Scan(t[..i - 1]), Replay(t[..i - 1]), t[i - 1]);
    }
  }

  /** Over every interleaving: the handler called is the one last registered for its type, the normal one
      only while no exclusive one is registered; the sniffer is passed over only if there is none; and a
      fault is a missing handler or a handler that threw. */
  lemma HandlersCalled(run: seq<Action>)
    requires Exec(run).Some?
    ensures var t := Exec(run).value.trace; forall i :: 0 <= i < |t| ==> CalledRightly(t, i)
  {
    hide *;
    ReachableTrace(run);
    var t := Exec(run).value.trace;
    forall i | 0 <= i < |t|
      ensures CalledRightly(t, i)
    {
      CallJudged(t, i);
    }
  }
}
