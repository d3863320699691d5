/** When the concurrent promises of MoveSystem hold, exactly: records rise in every run if and only
    if a fence or an event barrier is configured, and writes are single-writer if and only if a
    fence is. The negative halves are runs in which a driver with stale locals wins. */
module MoveLimits {
  import opened Options
  import opened Runs
  import opened Routes
  import opened Planes
  import opened MoveSystem

  ghost predicate Reachable(c: Config, s: System) { exists es :: s == Run(c, INIT, es) }

  lemma Go(c: Config, s: System, e: Event) returns (s': System)
    requires Reachable(c, s)
    ensures Reachable(c, s') && s' == Apply(c, s, e)
  {
    var es :| s == Run(c, INIT, es);
    FoldSnoc(Stepper(c), INIT, es, e);
    s' := Apply(c, s, e);
    assert s' == Run(c, INIT, es + [e]);
  }

  /** Driver `d` (1 or 2) and the other one facing the stored record `r`. */
  ghost predicate Facing(c: Config, s: System, r: TenantRoute, d: nat, mine: Pc, theirs: Pc) {
    && 1 <= d <= 2
    && Reachable(c, s) && s.shared.table == Some(r) && s.shared.history != []
    && s.shared.history[|s.shared.history| - 1] == r
    && PcOf(s, d) == mine && PcOf(s, 3 - d) == theirs
  }

  /** One undisturbed call of driver `d`. */
  lemma Call(c: Config, s: System, r: TenantRoute, d: nat, mine: Pc, theirs: Pc, r': TenantRoute, to: Pc) returns (s': System)
    requires Facing(c, s, r, d, mine, theirs)
    requires (Advance(c, s.shared, mine) == (s.shared, to) && r' == r) || Advance(c, s.shared, mine) == (Store(s.shared, r'), to)
    ensures Facing(c, s', r', d, to, theirs)
  {
    s' := Go(c, s, Step(d, Fine));
  }

  lemma Places(c: Config) returns (s: System)
    requires !c.fenced && c.tenant != ""
    ensures Facing(c, s, Placed(c.tenant, "a", ""), 1, Idle, Idle) && s.shared.history == [Placed(c.tenant, "a", "")]
    ensures s.shared.fence == None && s.tokens == [] && s.writes == []
  {
    assert INIT == Run(c, INIT, []);
    s := Go(c, INIT, Start(1, Assign("a", ""), false));
    s := Go(c, s, Step(1, Fine));
    assert PcOf(s, 1) == AssignCas("a", "") && s.shared == INIT.shared;
    s := Go(c, s, Step(1, Fine));
  }

  /** Driver `d` opens a barrier on a tenant resting on "a". */
  lemma Opens(c: Config, s0: System, r: TenantRoute, d: nat, theirs: Pc, to: string) returns (s: System)
    requires r.tenantId != "" && r.state == Active && r.activeCell == "a" != to && Facing(c, s0, r, d, Idle, theirs)
    ensures var q := Begun(r, MovePlan("", "a", to, "", false), "", 0);
            Facing(c, s, q, d, Phase(Locals(r.routeEpoch + 1, to), q), theirs)
  {
    var plan := MovePlan("", "a", to, "", false);
    s := Go(c, s0, Start(d, Move(plan, "", 0), false));
    var q := Begun(r, plan, "", 0);
    s := Call(c, s, r, d, Begin(r, plan, "", 0), theirs, q, Phase(Locals(r.routeEpoch + 1, to), q));
  }

  /** Driver `d` moves a tenant resting on "a" as far as COPYING. */
  lemma Copies(c: Config, s0: System, r: TenantRoute, d: nat, theirs: Pc, to: string) returns (s: System, copying: TenantRoute)
    requires !Guarded(c) && r.tenantId != "" && r.state == Active && r.activeCell == "a" != to
    requires Facing(c, s0, r, d, Idle, theirs)
    ensures copying == Caught(Begun(r, MovePlan("", "a", to, "", false), "", 0), r.routeEpoch + 1)
    ensures Facing(c, s, copying, d, Phase(Locals(r.routeEpoch + 1, to), copying), theirs)
  {
    var loc := Locals(r.routeEpoch + 1, to);
    s := Opens(c, s0, r, d, theirs, to);
    var q := Begun(r, MovePlan("", "a", to, "", false), "", 0);
    var dr := q.(state := Draining);
    s := Call(c, s, q, d, Phase(loc, q), theirs, dr, Phase(loc, dr));
    s := Call(c, s, dr, d, Phase(loc, dr), theirs, dr, Sealed(loc, dr));
    s := Call(c, s, dr, d, Sealed(loc, dr), theirs, dr, Paused(loc, dr));
    copying := Caught(q, r.routeEpoch + 1);
    s := Call(c, s, dr, d, Paused(loc, dr), theirs, copying, Phase(loc, copying));
  }

  /** Driver `d` is about to roll the tenant back. */
  lemma StartsRollback(c: Config, s0: System, r: TenantRoute, d: nat, theirs: Pc) returns (s: System)
    requires !Guarded(c) && r.state == Copying && Facing(c, s0, r, d, Idle, theirs)
    ensures Facing(c, s, r, d, RollbackCas(r), theirs)
  {
    s := Go(c, s0, Start(d, Rollback, false));
    s := Call(c, s, r, d, RollbackRead, theirs, r, RollbackOwn(r));
    s := Call(c, s, r, d, RollbackOwn(r), theirs, r, RollbackEvents(r));
    s := Call(c, s, r, d, RollbackEvents(r), theirs, r, RollbackCas(r));
  }

  /** Driver `d` rolls the tenant back to its source. */
  lemma RollsBack(c: Config, s0: System, r: TenantRoute, d: nat, theirs: Pc) returns (s: System, rested: TenantRoute)
    requires !Guarded(c) && r.tenantId != "" && r.state == Copying && r.barrierEpoch == r.routeEpoch + 1
    requires Facing(c, s0, r, d, Idle, theirs)
    ensures rested == Rested(r, RollbackCell(r), r.routeEpoch + 2) && Facing(c, s, rested, d, Idle, theirs)
  {
    s := StartsRollback(c, s0, r, d, theirs);
    rested := Rested(r, RollbackCell(r), r.routeEpoch + 2);
    s := Call(c, s, r, d, RollbackCas(r), theirs, rested, Idle);
  }

  /** Driver 1, still holding the locals of an earlier barrier, adopts COMMITTING at the next epoch
      and stores a second resting record of that same epoch. */
  lemma StaleDriverWins(c: Config) returns (s: System)
    requires !Guarded(c) && c.tenant != ""
    ensures Reachable(c, s) && !Rising(s.shared.history)
  {
    var old1, new1;
    s := Places(c);
    s, old1 := Copies(c, s, Placed(c.tenant, "a", ""), 1, Idle, "b");
    var stale := Phase(Locals(2, "b"), old1);
    var rested;
    s, rested := RollsBack(c, s, old1, 2, stale);
    s, new1 := Copies(c, s, rested, 2, stale, "c");
    var committing := new1.(state := Committing);
    var theirs := Phase(Locals(4, "c"), committing);
    s := Call(c, s, new1, 2, Phase(Locals(4, "c"), new1), stale, committing, theirs);
    s := StaleCommit(c, s, old1, committing, theirs);
  }

  lemma StaleCommit(c: Config, s0: System, old1: TenantRoute, r: TenantRoute, theirs: Pc) returns (s: System)
    requires !Guarded(c) && r.tenantId == old1.tenantId != ""
    requires old1.state == Copying && old1.routeEpoch == 1 && r.state == Committing && r.routeEpoch == 3
    requires Facing(c, s0, r, 1, Phase(Locals(2, "b"), old1), theirs)
    ensures Reachable(c, s) && !Rising(s.shared.history)
  {
    var loc := Locals(2, "b");
    s := Call(c, s0, r, 1, Phase(loc, old1), theirs, r, Reread(loc, old1, Committing));
    s := Call(c, s, r, 1, Reread(loc, old1, Committing), theirs, r, Phase(loc, r));
    s := Call(c, s, r, 1, Phase(loc, r), theirs, r, Owned(loc, r));
    s := Call(c, s, r, 1, Owned(loc, r), theirs, r, Resumed(loc, r));
    s := RepeatsEpoch(c, s, loc, r, theirs);
  }

  lemma RepeatsEpoch(c: Config, s0: System, loc: Locals, r: TenantRoute, theirs: Pc) returns (s: System)
    requires Facing(c, s0, r, 1, Resumed(loc, r), theirs) && r.tenantId != "" && loc.barrierEpoch + 1 == r.routeEpoch
    requires r.state == Committing
    ensures Reachable(c, s) && !Rising(s.shared.history)
  {
    var next := Rested(r, loc.target, r.routeEpoch);
    assert Advance(c, s0.shared, Resumed(loc, r)) == (Store(s0.shared, next), Idle);
    s := Go(c, s0, Step(1, Fine));
    var h := s.shared.history;
    assert h == s0.shared.history + [next];
    assert !Below(h[|h| - 2], h[|h| - 1]);
  }

  /** Without a fence an unrouted write lands after a routed one. */
  lemma UnfencedWrites(c: Config) returns (s: System)
    requires !c.fenced && c.tenant != ""
    ensures Reachable(c, s) && !SingleWriter(s.writes)
  {
    s := Places(c);
    s := Go(c, s, Admit(0));
    s := Go(c, s, AdmitDefault);
    s := Go(c, s, Write(0));
    s := Go(c, s, Write(1));
    assert s.writes[0].epoch == 1 && s.writes[1].epoch == 0;
  }

  lemma ExactlyWhenSafe(c: Config)
    requires c.tenant != ""
    ensures (forall s :: Reachable(c, s) ==> Rising(s.shared.history)) <==> c.fenced || c.evented
    ensures (forall s :: Reachable(c, s) ==> SingleWriter(s.writes)) <==> c.fenced
  {
    if !Guarded(c) { var s := StaleDriverWins(c); }
    if !c.fenced { var s := UnfencedWrites(c); }
    forall s | Reachable(c, s)
      ensures Guarded(c) ==> Rising(s.shared.history)
      ensures c.fenced ==> SingleWriter(s.writes)
    {
      var es :| s == Run(c, INIT, es);
      ConcurrentSafety(c, es);
    }
  }
}
