/** The removal countdown of `createRmCb` (src/package/init.ts): the
    continuation `rm` shared by all remove hooks of one vnode decrements a
    counter and detaches the host node when it reaches zero. */
module Countdowns {
  import opened Wrappers
  import opened VNodes

  /** The state captured by one `rm` closure: the host node to detach
      (`ch.elm`, undefined for a vnode never materialised) and the
      remaining listener count. */
  datatype Countdown = Countdown(elm: Option<HostId>, listeners: int)

  /** One call of `rm`: `--listeners === 0` decides whether this call detaches. */
  function Tick(c: Countdown): (r: (Countdown, bool))
    ensures r.0.elm == c.elm && r.0.listeners == c.listeners - 1
    ensures r.1 <==> c.listeners == 1
  {
    var next := c.(listeners := c.listeners - 1);
    (next, next.listeners == 0)
  }

  /** Whether each of `calls` successive calls of `rm` detaches, starting
      from `listeners`. */
  function Detaches(listeners: int, calls: nat): (r: seq<bool>)
    ensures |r| == calls
    decreases calls
  {
    if calls == 0 then []
    else
      var (_, detach) := Tick(Countdown(None, listeners));
      [detach] + Detaches(listeners - 1, calls - 1)
  }

  /** Started at `listeners` (the module remove hooks plus one), the
      countdown detaches on call number `listeners` and on no other: never
      earlier, and extra calls never detach again. */
  lemma {:induction false} DetachesExactlyOnce(listeners: int, calls: nat)
    ensures forall i :: 0 <= i < calls ==> (Detaches(listeners, calls)[i] <==> i == listeners - 1)
    decreases calls
  {
    if calls > 0 {
      DetachesExactlyOnce(listeners - 1, calls - 1);
      var r, rest := Detaches(listeners, calls), Detaches(listeners - 1, calls - 1);
      assert r[1..] == rest;
      forall i | 0 < i < calls ensures r[i] == rest[i - 1] {}
    }
  }

  /** The number of detaching calls among any number of calls is at most one. */
  function CountTrue(s: seq<bool>): nat
  {
    if s == [] then 0 else (if s[0] then 1 else 0) + CountTrue(s[1..])
  }

  lemma {:induction false} AtMostOneDetach(listeners: int, calls: nat)
    ensures CountTrue(Detaches(listeners, calls)) <= 1
    ensures CountTrue(Detaches(listeners, calls)) == 1 <==> 1 <= listeners <= calls
    decreases calls
  {
    if calls > 0 {
      AtMostOneDetach(listeners - 1, calls - 1);
      var r := Detaches(listeners, calls);
      assert r[1..] == Detaches(listeners - 1, calls - 1);
      if listeners == 1 {
        NoDetachBelowOne(0, calls - 1);
      }
    }
  }

  lemma {:induction false} NoDetachBelowOne(listeners: int, calls: nat)
    requires listeners < 1
    ensures CountTrue(Detaches(listeners, calls)) == 0
    decreases calls
  {
    if calls > 0 {
      NoDetachBelowOne(listeners - 1, calls - 1);
      assert Detaches(listeners, calls)[1..] == Detaches(listeners - 1, calls - 1);
    }
  }
}
