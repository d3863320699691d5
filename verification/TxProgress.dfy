/** Why concurrent transactions never deadlock: one lock order for all of them
    (persistence/memory_tx.go:251-285, 296-315). */
module TxProgress {
  import opened Runs
  import opened TxParticipants
  import opened TxStores
  import opened TxSystem

  predicate Wanting(c: Call) { c.phase.Locking? && c.phase.n < |c.locks| }

  function Awaited(c: Call): Participant
    requires Wanting(c)
  {
    c.locks[c.phase.n]
  }

  predicate WaitsFor(s: System, t: nat, u: nat) {
    && t < |s.calls| && Wanting(s.calls[t])
    && Awaited(s.calls[t]) in s.owner && s.owner[Awaited(s.calls[t])] == u
  }

  ghost predicate WaitChain(s: System, ts: seq<nat>) {
    |ts| >= 2 && forall i :: 0 <= i < |ts| - 1 ==> WaitsFor(s, ts[i], ts[i + 1])
  }

  /** Whoever is waited for wants only later locks. */
  lemma WaitRises(db0: Db, s: System, t: nat, u: nat)
    requires Inv(true, db0, s) && WaitsFor(s, t, u)
    ensures u < |s.calls| && Holds(s.calls[u], Awaited(s.calls[t]))
    ensures Wanting(s.calls[u]) ==> LockOrder(Awaited(s.calls[t])) < LockOrder(Awaited(s.calls[u]))
  {
    var c := s.calls[u];
    assert Holds(c, Awaited(s.calls[t])) && Wf(true, c);
    var i :| 0 <= i < |c.locks| && i < HeldCount(c) && c.locks[i] == Awaited(s.calls[t]);
  }

  lemma {:induction false} ChainRises(db0: Db, s: System, ts: seq<nat>)
    requires Inv(true, db0, s) && WaitChain(s, ts)
    requires ts[|ts| - 1] < |s.calls| && Wanting(s.calls[ts[|ts| - 1]])
    ensures WaitsFor(s, ts[0], ts[1])
    ensures LockOrder(Awaited(s.calls[ts[0]])) < LockOrder(Awaited(s.calls[ts[|ts| - 1]]))
    decreases |ts|
  {
    var (t, u) := (ts[|ts| - 2], ts[|ts| - 1]);
    assert WaitsFor(s, ts[|ts| - 2], ts[|ts| - 2 + 1]);
    WaitRises(db0, s, t, u);
    if |ts| > 2 {
      var init := ts[..|ts| - 1];
      forall i | 0 <= i < |init| - 1 ensures WaitsFor(s, init[i], init[i + 1]) { assert WaitsFor(s, ts[i], ts[i + 1]); }
      ChainRises(db0, s, init);
    }
    assert WaitsFor(s, ts[0], ts[0 + 1]);
  }

  /** In every reachable state the wait-for relation has no cycle. */
  lemma NoWaitCycle(db0: Db, es: seq<Event>, ts: seq<nat>)
    requires WaitChain(Run(true, Start(db0), es), ts)
    ensures ts[0] != ts[|ts| - 1]
  {
    var s := Run(true, Start(db0), es);
    RunKeeps(true, db0, Start(db0), es);
    if ts[0] == ts[|ts| - 1] {
      assert WaitsFor(s, ts[0], ts[0 + 1]);
      ChainRises(db0, s, ts);
    }
  }

  // ----- progress

  /** Steps a call still has to take, its body apart. */
  function Left(c: Call): nat {
    match c.phase
    case Locking(n) => if n <= |c.locks| then 2 * |c.locks| + 2 - n else 0
    case Running(_, _) => |c.locks| + 1
    case Unlocking(n) => n
  }

  function LeftOf(cs: seq<Call>): nat {
    if cs == [] then 0 else LeftOf(cs[..|cs| - 1]) + Left(cs[|cs| - 1])
  }

  lemma {:induction false} LeftUpdate(cs: seq<Call>, t: nat, c: Call)
    requires t < |cs|
    ensures LeftOf(cs[t := c]) == LeftOf(cs) - Left(cs[t]) + Left(c)
    decreases |cs|
  {
    var init := cs[..|cs| - 1];
    if t < |init| {
      assert cs[t := c][..|cs| - 1] == init[t := c];
      LeftUpdate(init, t, c);
    } else {
      assert cs[t := c][..|cs| - 1] == init;
    }
  }

  predicate Finished(c: Call) { c.phase == Unlocking(0) }

  function MaxOrder(cs: seq<Call>): (m: nat)
    ensures forall t :: 0 <= t < |cs| && Wanting(cs[t]) ==> LockOrder(Awaited(cs[t])) <= m
  {
    if cs == [] then 0
    else
      var m := MaxOrder(cs[..|cs| - 1]);
      var last := cs[|cs| - 1];
      if Wanting(last) && LockOrder(Awaited(last)) > m then LockOrder(Awaited(last)) else m
  }

  /** The next step of a call that is not blocked. */
  function NextOf(c: Call, t: nat): Event {
    match c.phase
    case Locking(n) => if n < |c.locks| then Acquire(t) else Enter(t)
    case Running(_, _) => Finish(t, false)
    case Unlocking(_) => Release(t)
  }

  /** A call that is neither finished nor waiting moves forward. */
  lemma Moves(db0: Db, s: System, t: nat)
    requires Inv(true, db0, s) && t < |s.calls| && !Finished(s.calls[t])
    requires Wanting(s.calls[t]) ==> Awaited(s.calls[t]) !in s.owner
    ensures LeftOf(Step(true, s, NextOf(s.calls[t], t)).calls) < LeftOf(s.calls)
  {
    var e := NextOf(s.calls[t], t);
    assert Wf(true, s.calls[t]);
    Local(true, s, e);
    LeftUpdate(s.calls, t, Step(true, s, e).calls[t]);
  }

  /** Following the waits from any unfinished call ends at a call that can move. */
  lemma Progress(db0: Db, s: System, t: nat) returns (e: Event)
    requires Inv(true, db0, s) && t < |s.calls| && !Finished(s.calls[t])
    ensures !e.Begin? && !e.Touch? && LeftOf(Step(true, s, e).calls) < LeftOf(s.calls)
    decreases if Wanting(s.calls[t]) then 1 + MaxOrder(s.calls) - LockOrder(Awaited(s.calls[t])) else 0
  {
    if Wanting(s.calls[t]) && Awaited(s.calls[t]) in s.owner {
      var u := s.owner[Awaited(s.calls[t])];
      WaitRises(db0, s, t, u);
      e := Progress(db0, s, u);
    } else {
      e := NextOf(s.calls[t], t);
      Moves(db0, s, t);
    }
  }

  ghost predicate AllFinished(s: System) {
    forall t :: 0 <= t < |s.calls| ==> Finished(s.calls[t])
  }

  /** Every call under way can be brought to its end. */
  lemma Finishes(db0: Db, s: System) returns (es: seq<Event>)
    requires Inv(true, db0, s)
    ensures AllFinished(Run(true, s, es))
    decreases LeftOf(s.calls)
  {
    if AllFinished(s) {
      es := [];
    } else {
      var t :| 0 <= t < |s.calls| && !Finished(s.calls[t]);
      var e := Progress(db0, s, t);
      StepKeeps(true, db0, s, e);
      var rest := Finishes(db0, Step(true, s, e));
      es := [e] + rest;
      assert es[1..] == rest;
    }
  }

  // ----- without the common order

  ghost predicate CanFinish(ordered: bool, s: System) {
    exists es :: AllFinished(Run(ordered, s, es))
  }

  ghost predicate NeverStuck(ordered: bool, db0: Db) {
    forall es :: CanFinish(ordered, Run(ordered, Start(db0), es))
  }

  const A := Repository(1)
  const B := Repository(2)

  ghost predicate Jammed(s: System) {
    && |s.calls| >= 2
    && s.calls[0] == Call([A, B], Locking(1)) && s.calls[1] == Call([B, A], Locking(1))
  }

  /** Each of the two calls wants the lock the other one holds. */
  lemma JamStep(db0: Db, s: System, e: Event)
    requires Inv(false, db0, s) && Jammed(s)
    ensures Jammed(Step(false, s, e))
  {
    assert s.calls[0].locks[0] == A && s.calls[1].locks[0] == B;
    assert Holds(s.calls[0], A) && Holds(s.calls[1], B);
    if !e.Begin? && Step(false, s, e) != s { Local(false, s, e); }
  }

  lemma {:induction false} JamLasts(db0: Db, s: System, fs: seq<Event>)
    requires Inv(false, db0, s) && Jammed(s)
    ensures Jammed(Run(false, s, fs))
    decreases |fs|
  {
    if fs != [] {
      JamStep(db0, s, fs[0]);
      StepKeeps(false, db0, s, fs[0]);
      JamLasts(db0, Step(false, s, fs[0]), fs[1..]);
    }
  }

  lemma JamReached(db0: Db) returns (es: seq<Event>)
    ensures Jammed(Run(false, Start(db0), es))
  {
    var begun: seq<Event> := [] + [Begin([A, B])] + [Begin([B, A])];
    FoldSnoc(Stepper(false), Start(db0), [], Begin([A, B]));
    FoldSnoc(Stepper(false), Start(db0), [] + [Begin([A, B])], Begin([B, A]));
    assert Run(false, Start(db0), begun) == System(db0, map[], [Call([A, B], Locking(0)), Call([B, A], Locking(0))], []);
    FoldSnoc(Stepper(false), Start(db0), begun, Acquire(0));
    FoldSnoc(Stepper(false), Start(db0), begun + [Acquire(0)], Acquire(1));
    es := begun + [Acquire(0)] + [Acquire(1)];
  }

  /** From every reachable state all transactions can finish, exactly when every runner takes its
      locks in the one common order. */
  lemma NeverStuckExactlyWhenOrdered(ordered: bool, db0: Db)
    ensures NeverStuck(ordered, db0) <==> ordered
  {
    if ordered {
      forall es ensures CanFinish(ordered, Run(ordered, Start(db0), es)) {
        RunKeeps(true, db0, Start(db0), es);
        var fs := Finishes(db0, Run(true, Start(db0), es));
      }
    } else {
      var es := JamReached(db0);
      RunKeeps(false, db0, Start(db0), es);
      forall fs ensures !AllFinished(Run(false, Run(false, Start(db0), es), fs)) {
        JamLasts(db0, Run(false, Start(db0), es), fs);
      }
      assert !CanFinish(false, Run(false, Start(db0), es));
    }
  }
}
