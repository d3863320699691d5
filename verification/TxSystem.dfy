/** Any number of concurrent Atomically calls over overlapping participants, one mutex step at a time
    (persistence/memory_tx.go:288-325). A single repository operation outside a transaction is a
    call over that one participant. */
module TxSystem {
  import opened Runs
  import opened TxParticipants
  import opened TxStores
  import NestedTx

  datatype Phase =
    | Locking(n: nat)                     // locks[..n] taken
    | Running(snap: Db, log: seq<Write>)  // every lock taken; the body's writes so far
    | Unlocking(n: nat)                   // locks[..n] not yet released

  datatype Call = Call(locks: seq<Participant>, phase: Phase)

  datatype System = System(db: Db, owner: map<Participant, nat>, calls: seq<Call>, committed: seq<Write>)

  datatype Event =
    | Begin(locks: seq<Participant>)
    | Acquire(t: nat)
    | Enter(t: nat)
    | Touch(t: nat, w: Write)
    | Finish(t: nat, fails: bool)
    | Release(t: nat)

  function InPhase(s: System, t: nat, ph: Phase): System
    requires t < |s.calls|
  {
    s.(calls := s.calls[t := s.calls[t].(phase := ph)])
  }

  /** One step; an event that does not apply changes nothing. With `ordered`, lock lists ascend. */
  ghost function Step(ordered: bool, s: System, e: Event): System {
    match e
    case Begin(locks) =>
      if Distinct(locks) && (ordered ==> Ascending(locks)) then s.(calls := s.calls + [Call(locks, Locking(0))]) else s
    case Acquire(t) =>
      if t < |s.calls| && s.calls[t].phase.Locking? && s.calls[t].phase.n < |s.calls[t].locks|
         && s.calls[t].locks[s.calls[t].phase.n] !in s.owner
      then
        var n := s.calls[t].phase.n;
        InPhase(s, t, Locking(n + 1)).(owner := s.owner[s.calls[t].locks[n] := t])
      else s
    case Enter(t) =>
      if t < |s.calls| && s.calls[t].phase == Locking(|s.calls[t].locks|) then InPhase(s, t, Running(s.db, [])) else s
    case Touch(t, w) =>
      if t < |s.calls| && s.calls[t].phase.Running? && w.p in s.calls[t].locks
      then InPhase(s, t, s.calls[t].phase.(log := s.calls[t].phase.log + [w])).(db := Put(s.db, w))
      else s
    case Finish(t, fails) =>
      if t < |s.calls| && s.calls[t].phase.Running?
      then
        var c := s.calls[t];
        var s' := InPhase(s, t, Unlocking(|c.locks|));
        if fails then s'.(db := NestedTx.Restored(s.db, c.phase.snap, Members(c.locks)))
        else s'.(committed := s.committed + c.phase.log)
      else s
    case Release(t) =>
      if t < |s.calls| && s.calls[t].phase.Unlocking? && 0 < s.calls[t].phase.n <= |s.calls[t].locks|
      then
        var n := s.calls[t].phase.n - 1;
        InPhase(s, t, Unlocking(n)).(owner := s.owner - {s.calls[t].locks[n]})
      else s
  }

  ghost function Stepper(ordered: bool): (System, Event) -> System { (s: System, e: Event) => Step(ordered, s, e) }

  ghost function Run(ordered: bool, s: System, es: seq<Event>): System { Fold(Stepper(ordered), s, es) }

  function Start(db0: Db): System { System(db0, map[], [], []) }

  // ----- what every step keeps

  function HeldCount(c: Call): nat {
    match c.phase
    case Locking(n) => n
    case Running(_, _) => |c.locks|
    case Unlocking(n) => n
  }

  predicate Holds(c: Call, p: Participant) {
    exists i :: 0 <= i < |c.locks| && i < HeldCount(c) && c.locks[i] == p
  }

  ghost predicate Wf(ordered: bool, c: Call) {
    && Distinct(c.locks) && (ordered ==> Ascending(c.locks)) && HeldCount(c) <= |c.locks|
    && (c.phase.Running? ==> Touches(c.phase.log, Members(c.locks)))
  }

  /** A mutex names its one holder. */
  ghost predicate Owned(s: System) {
    && (forall p :: p in s.owner ==> s.owner[p] < |s.calls|)
    && (forall t, p :: 0 <= t < |s.calls| ==> (Holds(s.calls[t], p) <==> p in s.owner && s.owner[p] == t))
  }

  /** The database reached by the committed transactions alone, one after another. */
  function Serial(db0: Db, s: System): Db { Applied(db0, s.committed) }

  predicate BodyOwns(s: System, p: Participant) {
    exists t :: 0 <= t < |s.calls| && s.calls[t].phase.Running? && p in s.calls[t].locks
  }

  /** A running body works on the serial state of its participants and nobody else's writes show. */
  ghost predicate Isolated(serial: Db, db: Db, c: Call) {
    c.phase.Running? ==>
      && c.phase.snap.Keys == db.Keys
      && forall p :: p in c.locks && p in db ==>
           p in serial && c.phase.snap[p] == serial[p] && Applied(serial, c.phase.log)[p] == db[p]
  }

  ghost predicate Data(db0: Db, s: System) {
    && s.db.Keys == db0.Keys
    && (forall t :: 0 <= t < |s.calls| ==> Isolated(Serial(db0, s), s.db, s.calls[t]))
    && (forall p :: p in s.db && !BodyOwns(s, p) ==> s.db[p] == Serial(db0, s)[p])
  }

  ghost predicate Inv(ordered: bool, db0: Db, s: System) {
    && (forall t :: 0 <= t < |s.calls| ==> Wf(ordered, s.calls[t]))
    && Owned(s) && Data(db0, s)
  }

  /** A step of one call replaces that call alone. */
  lemma Local(ordered: bool, s: System, e: Event)
    requires !e.Begin? && Step(ordered, s, e) != s
    ensures e.t < |s.calls| && |Step(ordered, s, e).calls| == |s.calls|
    ensures Step(ordered, s, e).calls == s.calls[e.t := Step(ordered, s, e).calls[e.t]]
    ensures Step(ordered, s, e).calls[e.t].locks == s.calls[e.t].locks
  {}

  lemma WfStep(ordered: bool, s: System, e: Event)
    requires !e.Begin? && e.t < |s.calls| && Wf(ordered, s.calls[e.t])
    ensures |Step(ordered, s, e).calls| == |s.calls| && Wf(ordered, Step(ordered, s, e).calls[e.t])
  {}

  lemma WfKept(ordered: bool, db0: Db, s: System, e: Event)
    requires Inv(ordered, db0, s)
    ensures forall t :: 0 <= t < |Step(ordered, s, e).calls| ==> Wf(ordered, Step(ordered, s, e).calls[t])
  {
    var s' := Step(ordered, s, e);
    if s' != s && !e.Begin? {
      Local(ordered, s, e);
      WfStep(ordered, s, e);
    }
  }

  lemma OwnedKept(ordered: bool, db0: Db, s: System, e: Event)
    requires Inv(ordered, db0, s)
    ensures Owned(Step(ordered, s, e))
  {
    var s' := Step(ordered, s, e);
    if s' != s {
      if e.Begin? {
        OwnedBegin(s, s');
      } else {
        Local(ordered, s, e);
        assert Wf(ordered, s.calls[e.t]);
        if e.Acquire? || e.Release? { OwnedMoves(ordered, s, e); } else { OwnedIdle(ordered, s, e); }
      }
    }
  }

  lemma OwnedIdle(ordered: bool, s: System, e: Event)
    requires (e.Enter? || e.Touch? || e.Finish?) && Step(ordered, s, e) != s && Owned(s)
    ensures Owned(Step(ordered, s, e))
  {
    Local(ordered, s, e);
    OwnedSame(s, Step(ordered, s, e), e.t);
  }

  lemma OwnedBegin(s: System, s': System)
    requires Owned(s) && |s'.calls| == |s.calls| + 1 && s'.calls[..|s.calls|] == s.calls && s'.owner == s.owner
    requires HeldCount(s'.calls[|s.calls|]) == 0
    ensures Owned(s')
  {
    forall t | 0 <= t < |s.calls| ensures s'.calls[t] == s.calls[t] { assert s'.calls[..|s.calls|][t] == s.calls[t]; }
  }

  lemma OwnedMoves(ordered: bool, s: System, e: Event)
    requires (e.Acquire? || e.Release?) && Step(ordered, s, e) != s && e.t < |s.calls| && Wf(ordered, s.calls[e.t]) && Owned(s)
    ensures Owned(Step(ordered, s, e))
  {
    var s' := Step(ordered, s, e);
    Local(ordered, s, e);
    var c, c' := s.calls[e.t], s'.calls[e.t];
    if e.Acquire? {
      AcquireHolds(c, c', c.phase.n);
      OwnedTaken(s, s', e.t, c.locks[c.phase.n]);
    } else {
      AcquireHolds(c', c, c'.phase.n);
      assert Holds(c, c.locks[c'.phase.n]);
      OwnedFreed(s, s', e.t, c.locks[c'.phase.n]);
    }
  }

  lemma OwnedSame(s: System, s': System, t: nat)
    requires Owned(s) && t < |s.calls| == |s'.calls| && s'.calls == s.calls[t := s'.calls[t]] && s'.owner == s.owner
    requires s'.calls[t].locks == s.calls[t].locks && HeldCount(s'.calls[t]) == HeldCount(s.calls[t])
    ensures Owned(s')
  {
    forall p ensures Holds(s'.calls[t], p) <==> Holds(s.calls[t], p) {}
  }

  lemma OwnedTaken(s: System, s': System, t: nat, p: Participant)
    requires Owned(s) && t < |s.calls| == |s'.calls| && s'.calls == s.calls[t := s'.calls[t]]
    requires p !in s.owner && s'.owner == s.owner[p := t]
    requires forall q :: Holds(s'.calls[t], q) <==> Holds(s.calls[t], q) || q == p
    ensures Owned(s')
  {}

  lemma OwnedFreed(s: System, s': System, t: nat, p: Participant)
    requires Owned(s) && t < |s.calls| == |s'.calls| && s'.calls == s.calls[t := s'.calls[t]]
    requires p in s.owner && s.owner[p] == t && s'.owner == s.owner - {p} && !Holds(s'.calls[t], p)
    requires forall q :: Holds(s.calls[t], q) <==> Holds(s'.calls[t], q) || q == p
    ensures Owned(s')
  {}

  /** Holding one lock more. */
  lemma AcquireHolds(c: Call, c': Call, n: nat)
    requires c.locks == c'.locks && Distinct(c.locks) && n < |c.locks| && HeldCount(c) == n && HeldCount(c') == n + 1
    ensures forall p :: Holds(c', p) <==> Holds(c, p) || p == c.locks[n]
    ensures !Holds(c, c.locks[n])
  {
    forall p ensures Holds(c', p) <==> Holds(c, p) || p == c.locks[n] {
      if Holds(c, p) {
        var i :| 0 <= i < |c.locks| && i < HeldCount(c) && c.locks[i] == p;
        assert i < HeldCount(c');
      }
      assert n < HeldCount(c') && c'.locks[n] == c.locks[n];
    }
  }

  /** Two bodies never share a participant. */
  lemma BodiesDisjoint(ordered: bool, db0: Db, s: System, t: nat, u: nat, p: Participant)
    requires Inv(ordered, db0, s) && t < |s.calls| && u < |s.calls|
    requires s.calls[t].phase.Running? && p in s.calls[t].locks && Holds(s.calls[u], p)
    ensures t == u
  {
    var i :| 0 <= i < |s.calls[t].locks| && s.calls[t].locks[i] == p;
    assert Holds(s.calls[t], p);
  }

  /** Steps that start or end no body leave the data alone. */
  lemma DataSame(db0: Db, s: System, s': System)
    requires Data(db0, s) && s'.db == s.db && s'.committed == s.committed && |s.calls| <= |s'.calls|
    requires forall t :: 0 <= t < |s.calls| && (s.calls[t].phase.Running? || s'.calls[t].phase.Running?) ==> s'.calls[t] == s.calls[t]
    requires forall t :: |s.calls| <= t < |s'.calls| ==> !s'.calls[t].phase.Running?
    ensures Data(db0, s')
  {
    forall p | BodyOwns(s, p) ensures BodyOwns(s', p) {
      var t :| 0 <= t < |s.calls| && s.calls[t].phase.Running? && p in s.calls[t].locks;
      assert s'.calls[t] == s.calls[t];
    }
  }

  lemma EnterData(ordered: bool, db0: Db, s: System, t: nat)
    requires Inv(ordered, db0, s) && t < |s.calls| && s.calls[t].phase == Locking(|s.calls[t].locks|)
    ensures Data(db0, Step(ordered, s, Enter(t)))
  {
    var s' := Step(ordered, s, Enter(t));
    forall p, u | p in s.calls[t].locks && 0 <= u < |s.calls| && s.calls[u].phase.Running? ensures p !in s.calls[u].locks {
      if p in s.calls[u].locks {
        assert Holds(s.calls[t], p);
        BodiesDisjoint(ordered, db0, s, u, t, p);
      }
    }
    forall p | BodyOwns(s, p) ensures BodyOwns(s', p) {
      var u :| 0 <= u < |s.calls| && s.calls[u].phase.Running? && p in s.calls[u].locks;
      assert s'.calls[u] == s.calls[u];
    }
    EnteredIsolated(Serial(db0, s), s.db, s'.calls[t]);
    forall u | 0 <= u < |s'.calls| && u != t ensures Isolated(Serial(db0, s'), s'.db, s'.calls[u]) {
      assert s'.calls[u] == s.calls[u];
    }
  }

  lemma EnteredIsolated(serial: Db, db: Db, c: Call)
    requires c.phase == Running(db, []) && serial.Keys == db.Keys && forall p :: p in c.locks && p in db ==> db[p] == serial[p]
    ensures Isolated(serial, db, c)
  {}

  /** Two running calls have no participant in common. */
  lemma RunningApart(ordered: bool, db0: Db, s: System, t: nat, u: nat)
    requires Inv(ordered, db0, s) && t < |s.calls| && u < |s.calls| && t != u
    requires s.calls[t].phase.Running? && s.calls[u].phase.Running?
    ensures Members(s.calls[t].locks) !! Members(s.calls[u].locks)
  {
    forall p | p in s.calls[t].locks && p in s.calls[u].locks ensures false {
      assert Holds(s.calls[u], p);
      BodiesDisjoint(ordered, db0, s, t, u, p);
    }
  }

  ghost predicate SameOutside(d: Db, d': Db, ps: set<Participant>) {
    d.Keys == d'.Keys && forall p :: p in d && p !in ps ==> d'[p] == d[p]
  }

  lemma StillIsolated(serial: Db, serial': Db, db: Db, db': Db, c: Call, ps: set<Participant>)
    requires Isolated(serial, db, c) && SameOutside(serial, serial', ps) && SameOutside(db, db', ps) && ps !! Members(c.locks)
    ensures Isolated(serial', db', c)
  {
    if c.phase.Running? {
      forall p | p in c.locks && p in db
        ensures p in serial' && c.phase.snap[p] == serial'[p] && Applied(serial', c.phase.log)[p] == db'[p]
      {
        assert p in Members(c.locks);
        AppliedLocally(serial, serial', c.phase.log, p);
      }
    }
  }

  lemma IdleKept(db0: Db, s: System, s': System, t: nat)
    requires Data(db0, s) && t < |s.calls| == |s'.calls| && s'.calls == s.calls[t := s'.calls[t]]
    requires SameOutside(s.db, s'.db, Members(s.calls[t].locks))
    requires SameOutside(Serial(db0, s), Serial(db0, s'), Members(s.calls[t].locks))
    ensures forall p :: p in s'.db && !BodyOwns(s', p) && p !in s.calls[t].locks ==> s'.db[p] == Serial(db0, s')[p]
  {
    forall p | BodyOwns(s, p) && p !in s.calls[t].locks ensures BodyOwns(s', p) {
      var u :| 0 <= u < |s.calls| && s.calls[u].phase.Running? && p in s.calls[u].locks;
      assert s'.calls[u] == s.calls[u];
    }
  }

  /** A step of a running call `t` has only its own participants to answer for. */
  lemma OthersKept(ordered: bool, db0: Db, s: System, s': System, t: nat)
    requires Inv(ordered, db0, s) && t < |s.calls| == |s'.calls| && s'.calls == s.calls[t := s'.calls[t]]
    requires s.calls[t].phase.Running? && s'.calls[t].locks == s.calls[t].locks
    requires SameOutside(s.db, s'.db, Members(s.calls[t].locks))
    requires SameOutside(Serial(db0, s), Serial(db0, s'), Members(s.calls[t].locks))
    requires Isolated(Serial(db0, s'), s'.db, s'.calls[t])
    requires s'.calls[t].phase.Running? || forall p :: p in s.db && p in s.calls[t].locks ==> s'.db[p] == Serial(db0, s')[p]
    ensures Data(db0, s')
  {
    forall u | 0 <= u < |s'.calls| ensures Isolated(Serial(db0, s'), s'.db, s'.calls[u]) {
      if u != t && s.calls[u].phase.Running? {
        RunningApart(ordered, db0, s, t, u);
        StillIsolated(Serial(db0, s), Serial(db0, s'), s.db, s'.db, s.calls[u], Members(s.calls[t].locks));
      }
    }
    IdleKept(db0, s, s', t);
    forall p | p in s'.db && !BodyOwns(s', p) ensures s'.db[p] == Serial(db0, s')[p] {
      if p in s.calls[t].locks { assert !s'.calls[t].phase.Running?; }
    }
  }

  lemma TouchData(ordered: bool, db0: Db, s: System, t: nat, w: Write)
    requires Inv(ordered, db0, s) && t < |s.calls| && s.calls[t].phase.Running? && w.p in s.calls[t].locks
    ensures Data(db0, Step(ordered, s, Touch(t, w)))
  {
    var s' := Step(ordered, s, Touch(t, w));
    assert Isolated(Serial(db0, s), s.db, s.calls[t]);
    TouchIsolated(Serial(db0, s), s.db, s.calls[t], w);
    OthersKept(ordered, db0, s, s', t);
  }

  lemma TouchIsolated(serial: Db, db: Db, c: Call, w: Write)
    requires c.phase.Running? && Isolated(serial, db, c) && w.p in c.locks && serial.Keys == db.Keys
    ensures Isolated(serial, Put(db, w), c.(phase := c.phase.(log := c.phase.log + [w])))
  {
    var log := c.phase.log;
    assert (log + [w])[..|log + [w]| - 1] == log;
    assert Applied(serial, log + [w]) == Put(Applied(serial, log), w);
  }

  lemma FinishData(ordered: bool, db0: Db, s: System, t: nat, fails: bool)
    requires Inv(ordered, db0, s) && t < |s.calls| && s.calls[t].phase.Running?
    ensures Data(db0, Step(ordered, s, Finish(t, fails)))
  {
    var s' := Step(ordered, s, Finish(t, fails));
    var c := s.calls[t];
    assert Isolated(Serial(db0, s), s.db, c) && Wf(ordered, c);
    if !fails {
      AppliedConcat(db0, s.committed, c.phase.log);
      AppliedElsewhere(Serial(db0, s), c.phase.log, Members(c.locks));
    }
    OthersKept(ordered, db0, s, s', t);
  }

  lemma DataKept(ordered: bool, db0: Db, s: System, e: Event)
    requires Inv(ordered, db0, s)
    ensures Data(db0, Step(ordered, s, e))
  {
    var s' := Step(ordered, s, e);
    if s' != s {
      match e
      case Enter(t) => EnterData(ordered, db0, s, t);
      case Touch(t, w) => TouchData(ordered, db0, s, t, w);
      case Finish(t, fails) => FinishData(ordered, db0, s, t, fails);
      case _ => DataSame(db0, s, s');
    }
  }

  lemma StepKeeps(ordered: bool, db0: Db, s: System, e: Event)
    requires Inv(ordered, db0, s)
    ensures Inv(ordered, db0, Step(ordered, s, e))
  {
    WfKept(ordered, db0, s, e);
    OwnedKept(ordered, db0, s, e);
    DataKept(ordered, db0, s, e);
  }

  lemma {:induction false} RunKeeps(ordered: bool, db0: Db, s: System, es: seq<Event>)
    requires Inv(ordered, db0, s)
    ensures Inv(ordered, db0, Run(ordered, s, es))
    decreases |es|
  {
    if es != [] {
      StepKeeps(ordered, db0, s, es[0]);
      RunKeeps(ordered, db0, Step(ordered, s, es[0]), es[1..]);
    }
  }

  /** Every interleaving is serial in commit order. What a body sees of its participants is the
      committed transactions followed by its own writes, and once no body runs the database is
      exactly the committed transactions, rolled-back ones leaving nothing. */
  lemma Serializable(ordered: bool, db0: Db, es: seq<Event>)
    ensures var s := Run(ordered, Start(db0), es);
            && (forall t, p :: 0 <= t < |s.calls| && s.calls[t].phase.Running? && p in s.calls[t].locks && p in db0 ==>
                  p in s.db && s.db[p] == Applied(db0, s.committed + s.calls[t].phase.log)[p])
            && ((forall t :: 0 <= t < |s.calls| ==> !s.calls[t].phase.Running?) ==> s.db == Applied(db0, s.committed))
  {
    RunKeeps(ordered, db0, Start(db0), es);
    var s := Run(ordered, Start(db0), es);
    forall t, p | 0 <= t < |s.calls| && s.calls[t].phase.Running? && p in s.calls[t].locks && p in db0
      ensures p in s.db && s.db[p] == Applied(db0, s.committed + s.calls[t].phase.log)[p]
    {
      AppliedConcat(db0, s.committed, s.calls[t].phase.log);
      assert Isolated(Serial(db0, s), s.db, s.calls[t]);
    }
  }

  /** No two bodies run over one participant at once. */
  lemma MutualExclusion(ordered: bool, db0: Db, es: seq<Event>, t: nat, u: nat)
    requires t < u < |Run(ordered, Start(db0), es).calls|
    requires Run(ordered, Start(db0), es).calls[t].phase.Running? && Run(ordered, Start(db0), es).calls[u].phase.Running?
    ensures Members(Run(ordered, Start(db0), es).calls[t].locks) !! Members(Run(ordered, Start(db0), es).calls[u].locks)
  {
    RunKeeps(ordered, db0, Start(db0), es);
    RunningApart(ordered, db0, Run(ordered, Start(db0), es), t, u);
  }

  // ----- what a body's steps achieve

  ghost function TouchAll(t: nat, ws: seq<Write>): seq<Event> { seq(|ws|, i requires 0 <= i < |ws| => Touch(t, ws[i])) }

  /** A running body's writes reach the database and its log, in order. */
  lemma {:induction false} BodyWrites(ordered: bool, s: System, t: nat, ws: seq<Write>)
    requires t < |s.calls| && s.calls[t].phase.Running? && Touches(ws, Members(s.calls[t].locks))
    ensures var s' := Run(ordered, s, TouchAll(t, ws));
            && s'.db == Applied(s.db, ws) && s'.committed == s.committed && |s'.calls| == |s.calls|
            && s'.calls[t] == s.calls[t].(phase := s.calls[t].phase.(log := s.calls[t].phase.log + ws))
    decreases |ws|
  {
    if ws == [] {
      assert s.calls[t].phase.log + ws == s.calls[t].phase.log;
    } else {
      var (front, w) := (ws[..|ws| - 1], ws[|ws| - 1]);
      BodyWrites(ordered, s, t, front);
      assert TouchAll(t, ws) == TouchAll(t, front) + [Touch(t, w)];
      FoldSnoc(Stepper(ordered), s, TouchAll(t, front), Touch(t, w));
      assert s.calls[t].phase.log + ws == s.calls[t].phase.log + front + [w];
    }
  }

  /** Entering takes the snapshot; a success commits exactly the writes of the body, a failure commits
      nothing and puts every participant back as it was at the start. */
  lemma BodyDecides(ordered: bool, s: System, t: nat, ws: seq<Write>, fails: bool)
    requires t < |s.calls| && s.calls[t].phase == Locking(|s.calls[t].locks|) && Touches(ws, Members(s.calls[t].locks))
    ensures var s' := Step(ordered, Run(ordered, Step(ordered, s, Enter(t)), TouchAll(t, ws)), Finish(t, fails));
            && s'.committed == (if fails then s.committed else s.committed + ws)
            && s'.db == (if fails then s.db else Applied(s.db, ws))
  {
    var entered := Step(ordered, s, Enter(t));
    BodyWrites(ordered, entered, t, ws);
    AppliedElsewhere(s.db, ws, Members(s.calls[t].locks));
    assert [] + ws == ws;
    if fails { NestedTx.RestoredWhole(Applied(s.db, ws), s.db, Members(s.calls[t].locks)); }
  }
}
