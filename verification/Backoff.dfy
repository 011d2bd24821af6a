/** The retry loop of TcpConnector::connect. */
module Backoff {
  const FIRST: nat := 2
  const MAX: nat := 64

  function Pow2(n: nat): nat {
    if n == 0 then 1 else 2 * Pow2(n - 1)
  }

  function Min(a: nat, b: nat): nat {
    if a < b then a else b
  }

  /** Seconds to wait after the n-th failed attempt, counted from one. */
  function Delay(n: nat): nat {
    Min(Pow2(n), MAX)
  }

  function Delays(n: nat): (ds: seq<nat>)
    ensures |ds| == n
    ensures forall i :: 0 <= i < n ==> ds[i] == Delay(i + 1)
  {
    seq(n, i requires 0 <= i => Delay(i + 1))
  }

  /** Failures before the first success, or all of them. */
  function Failures(outcomes: seq<bool>): nat {
    if outcomes == [] || outcomes[0] then 0 else 1 + Failures(outcomes[1..])
  }

  lemma {:induction false} FailuresBounded(outcomes: seq<bool>)
    ensures Failures(outcomes) <= |outcomes|
    ensures Failures(outcomes) < |outcomes| ==> outcomes[Failures(outcomes)]
    ensures forall i :: 0 <= i < Failures(outcomes) ==> !outcomes[i]
  {
    if outcomes != [] && !outcomes[0] {
      FailuresBounded(outcomes[1..]);
      forall i | 0 < i < Failures(outcomes)
        ensures !outcomes[i]
      {
        assert outcomes[i] == outcomes[1..][i - 1];
      }
    }
  }

  lemma {:induction false} Pow2Grows(n: nat)
    ensures Pow2(n) >= 1 && (n >= 6 ==> Pow2(n) >= 64)
  {
    if n > 6 {
      Pow2Grows(n - 1);
    } else if n == 6 {
      assert Pow2(6) == 64;
    } else if n > 0 {
      Pow2Grows(n - 1);
    }
  }

  lemma Pow2Below(n: nat)
    requires n <= 6
    ensures Pow2(n) <= 64 && (n < 6 ==> Pow2(n) <= 32)
  {
    assert Pow2(0) == 1 && Pow2(1) == 2 && Pow2(2) == 4 && Pow2(3) == 8;
    assert Pow2(4) == 16 && Pow2(5) == 32 && Pow2(6) == 64;
  }

  /** The source's update, whose guard is tested before doubling, steps from one delay to the next. */
  lemma NextDelay(n: nat)
    requires n >= 1
    ensures Delay(n + 1) == if Delay(n) < MAX then 2 * Delay(n) else MAX
    ensures 2 <= Delay(n) <= MAX
  {
    if n < 6 {
      Pow2Below(n);
      Pow2Grows(n - 1);
    } else {
      Pow2Grows(n);
    }
  }

  function Sum(ds: seq<nat>): nat {
    if ds == [] then 0 else Sum(ds[..|ds| - 1]) + ds[|ds| - 1]
  }

  /** The time spent waiting during n failures, in closed form. */
  lemma {:induction false} TotalDelay(n: nat)
    ensures Sum(Delays(n)) == if n <= 6 then Pow2(n + 1) - 2 else 126 + 64 * (n - 6)
  {
    if n > 0 {
      TotalDelay(n - 1);
      assert Delays(n)[..n - 1] == Delays(n - 1);
      if n <= 6 {
        Pow2Below(n);
      } else {
        Pow2Grows(n);
        if n == 7 {
          assert Pow2(7) == 128;
        }
      }
    }
  }

  class TcpConnector {
    var connecting: bool

    constructor ()
      ensures !connecting
    {
      connecting := false;
    }

    /** The attempts end as `outcomes` says; with no success among them the call is still trying
        when they run out. A call made while connecting returns at once. */
    method Connect(outcomes: seq<bool>) returns (returned: bool, delays: seq<nat>)
      modifies this
      ensures old(connecting) ==> returned && delays == [] && connecting
      ensures !old(connecting) ==>
        && delays == Delays(Failures(outcomes))
        && (returned <==> Failures(outcomes) < |outcomes|)
        && (connecting <==> outcomes != [] && !returned)
    {
      delays := [];
      if connecting {
        return true, delays;
      }
      var currentTimeout := FIRST;
      assert Pow2(1) == 2;
      FailuresBounded(outcomes);
      for i := 0 to |outcomes|
        invariant currentTimeout == Delay(i + 1)
        invariant delays == Delays(i) && i <= Failures(outcomes)
        invariant connecting <==> i > 0
      {
        connecting := true;
        if outcomes[i] {
          connecting := false;
          return true, delays;
        }
        delays := delays + [currentTimeout];
        NextDelay(i + 1);
        if currentTimeout < MAX {
          currentTimeout := currentTimeout * 2;
        } else {
          currentTimeout := MAX;
        }
      }
      returned := false;
    }
  }
}
