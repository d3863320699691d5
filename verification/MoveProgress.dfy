/** What one undisturbed driver of MoveSystem achieves (cells/move.go): moves and resumes end on the
    target, late and refused ones back on the source, placements where they were asked for. */
module MoveProgress {
  import opened Options
  import opened Routes
  import opened Planes
  import opened MoveSystem

  /** `n` calls of one driver with nobody in between. */
  function Solo(c: Config, sh: Shared, pc: Pc, n: nat): (Shared, Pc)
    decreases n
  {
    if n == 0 then (sh, pc)
    else
      var (sh', pc') := Advance(c, sh, pc);
      Solo(c, sh', pc', n - 1)
  }

  lemma {:induction false} SoloAdds(c: Config, sh: Shared, pc: Pc, m: nat, n: nat)
    ensures Solo(c, sh, pc, m + n) == Solo(c, Solo(c, sh, pc, m).0, Solo(c, sh, pc, m).1, n)
    decreases m
  {
    if m > 0 {
      var (sh', pc') := Advance(c, sh, pc);
      SoloAdds(c, sh', pc', m - 1, n);
    }
  }

  /** Neither plane is past `epoch`. */
  predicate PlanesUpTo(c: Config, sh: Shared, epoch: nat) {
    && (c.fenced && sh.fence.Some? ==> sh.fence.value.epoch <= epoch)
    && (c.evented && sh.events.Some? ==> sh.events.value.epoch <= epoch)
  }

  /** The tenant rests on `cell`, with the configured planes saying the same. */
  predicate Rests(c: Config, sh: Shared, cell: string, epoch: nat) {
    && sh.table.Some? && sh.table.value.state == Active
    && sh.table.value.activeCell == cell && sh.table.value.routeEpoch == epoch
    && (c.fenced ==> sh.fence == Some(Fence(cell, epoch, false)))
    && (c.evented ==> sh.events == Some(EventState(Normal, epoch)))
  }

  /** A move under way whose driver's locals are those of the record. */
  predicate UnderWay(c: Config, sh: Shared, r: TenantRoute, state: State) {
    sh.table == Some(r) && r.tenantId != "" && r.state == state && r.barrierEpoch == r.routeEpoch + 1
  }

  function LocalsOf(r: TenantRoute): Locals { Locals(r.barrierEpoch, r.targetCell) }

  function Ends(c: Config, sh: Shared, pc: Pc, n: nat, cell: string, epoch: nat): bool {
    var (sh', pc') := Solo(c, sh, pc, n);
    pc' == Idle && Rests(c, sh', cell, epoch)
  }

  lemma OneMore(c: Config, sh: Shared, pc: Pc, n: nat, cell: string, epoch: nat)
    requires Ends(c, Advance(c, sh, pc).0, Advance(c, sh, pc).1, n, cell, epoch)
    ensures Ends(c, sh, pc, n + 1, cell, epoch)
  {}

  /** The last call stores the resting record. */
  lemma LastCall(c: Config, sh: Shared, pc: Pc, cell: string, epoch: nat)
    requires Advance(c, sh, pc).1 == Idle && Rests(c, Advance(c, sh, pc).0, cell, epoch)
    ensures Ends(c, sh, pc, 1, cell, epoch)
  {
    assert Solo(c, Advance(c, sh, pc).0, Idle, 0) == (Advance(c, sh, pc).0, Idle);
  }

  /** The calls a driver at the record `r` still has to make. */
  function CallsLeft(r: TenantRoute): nat {
    match r.state
    case Quiescing => 8
    case Draining => 7
    case Copying => 4
    case Committing => 3
    case _ => 9
  }

  lemma FromCommitting(c: Config, sh: Shared, r: TenantRoute)
    requires UnderWay(c, sh, r, Committing) && PlanesUpTo(c, sh, r.routeEpoch + 2)
    ensures Ends(c, sh, Phase(LocalsOf(r), r), CallsLeft(r), r.targetCell, r.routeEpoch + 2)
  {
    var loc := LocalsOf(r);
    var sh1 := Advance(c, sh, Phase(loc, r)).0;
    var sh2 := Advance(c, sh1, Owned(loc, r)).0;
    LastCall(c, sh2, Resumed(loc, r), r.targetCell, r.routeEpoch + 2);
    OneMore(c, sh1, Owned(loc, r), 1, r.targetCell, r.routeEpoch + 2);
    OneMore(c, sh, Phase(loc, r), 2, r.targetCell, r.routeEpoch + 2);
  }

  lemma FromCopying(c: Config, sh: Shared, r: TenantRoute)
    requires UnderWay(c, sh, r, Copying) && PlanesUpTo(c, sh, r.routeEpoch + 2)
    ensures Ends(c, sh, Phase(LocalsOf(r), r), CallsLeft(r), r.targetCell, r.routeEpoch + 2)
  {
    var next := r.(state := Committing);
    FromCommitting(c, Store(sh, next), next);
    OneMore(c, sh, Phase(LocalsOf(r), r), CallsLeft(next), r.targetCell, r.routeEpoch + 2);
  }

  lemma FromDraining(c: Config, sh: Shared, r: TenantRoute)
    requires UnderWay(c, sh, r, Draining) && PlanesUpTo(c, sh, r.routeEpoch + 1)
    ensures Ends(c, sh, Phase(LocalsOf(r), r), CallsLeft(r), r.targetCell, r.routeEpoch + 2)
  {
    var loc := LocalsOf(r);
    var next := Caught(r, r.barrierEpoch);
    var sh1 := Advance(c, sh, Phase(loc, r)).0;
    var sh2 := Advance(c, sh1, Sealed(loc, r)).0;
    FromCopying(c, Store(sh2, next), next);
    var n := CallsLeft(next);
    OneMore(c, sh2, Paused(loc, r), n, r.targetCell, r.routeEpoch + 2);
    OneMore(c, sh1, Sealed(loc, r), n + 1, r.targetCell, r.routeEpoch + 2);
    OneMore(c, sh, Phase(loc, r), n + 2, r.targetCell, r.routeEpoch + 2);
  }

  lemma FromQuiescing(c: Config, sh: Shared, r: TenantRoute)
    requires UnderWay(c, sh, r, Quiescing) && PlanesUpTo(c, sh, r.routeEpoch + 1)
    ensures Ends(c, sh, Phase(LocalsOf(r), r), CallsLeft(r), r.targetCell, r.routeEpoch + 2)
  {
    var next := r.(state := Draining);
    FromDraining(c, Store(sh, next), next);
    OneMore(c, sh, Phase(LocalsOf(r), r), CallsLeft(next), r.targetCell, r.routeEpoch + 2);
  }

  /** A Move of a resting tenant ends on its target, whatever the clock says. */
  lemma MoveCompletes(c: Config, sh: Shared, r: TenantRoute, plan: MovePlan, id: string, deadline: nat, late: bool)
    requires sh.table == Some(r) && r.tenantId != "" && r.state == Active && PlanesUpTo(c, sh, r.routeEpoch + 1)
    requires plan.fromCell != plan.toCell && r.activeCell != plan.toCell
    ensures Ends(c, sh, Started(c, sh, Move(plan, id, deadline), late), CallsLeft(r), plan.toCell, r.routeEpoch + 2)
  {
    var next := Begun(r, plan, id, deadline);
    FromQuiescing(c, Store(sh, next), next);
    OneMore(c, sh, Begin(r, plan, id, deadline), CallsLeft(next), plan.toCell, r.routeEpoch + 2);
  }

  /** A resumed move that is not overdue ends on its target; COMMITTING never counts as overdue. */
  lemma ResumeCompletes(c: Config, sh: Shared, r: TenantRoute, late: bool)
    requires r.state.IsMoving() && UnderWay(c, sh, r, r.state)
    requires r.state == Committing || r.deadline == 0 || !late
    requires PlanesUpTo(c, sh, if r.state.Rank() <= 2 then r.routeEpoch + 1 else r.routeEpoch + 2)
    ensures Ends(c, sh, Started(c, sh, Resume, late), CallsLeft(r), r.targetCell, r.routeEpoch + 2)
  {
    match r.state {
      case Quiescing => FromQuiescing(c, sh, r);
      case Draining => FromDraining(c, sh, r);
      case Copying => FromCopying(c, sh, r);
      case Committing => FromCommitting(c, sh, r);
    }
  }

  /** A rollback ends on the source after four calls. */
  lemma RollbackCompletes(c: Config, sh: Shared, r: TenantRoute)
    requires r.state.IsMoving() && UnderWay(c, sh, r, r.state) && PlanesUpTo(c, sh, r.routeEpoch + 2)
    ensures Ends(c, sh, RollbackRead, 4, if r.sourceCell == "" then r.activeCell else r.sourceCell, r.routeEpoch + 2)
  {
    var (cell, epoch) := (RollbackCell(r), r.routeEpoch + 2);
    var sh1 := Advance(c, sh, RollbackOwn(r)).0;
    var sh2 := Advance(c, sh1, RollbackEvents(r)).0;
    LastCall(c, sh2, RollbackCas(r), cell, epoch);
    OneMore(c, sh1, RollbackEvents(r), 1, cell, epoch);
    OneMore(c, sh, RollbackOwn(r), 2, cell, epoch);
    OneMore(c, sh, RollbackRead, 3, cell, epoch);
  }

  /** An overdue move is rolled back, by Resume and by a Move that finds it. */
  lemma LateRollsBack(c: Config, sh: Shared, r: TenantRoute, op: Op)
    requires r.state.IsMoving() && r.state != Committing && r.deadline != 0
    requires UnderWay(c, sh, r, r.state) && PlanesUpTo(c, sh, r.routeEpoch + 2)
    requires op.Resume? || (op.Move? && op.plan.fromCell != op.plan.toCell)
    ensures Ends(c, sh, Started(c, sh, op, true), 4, if r.sourceCell == "" then r.activeCell else r.sourceCell, r.routeEpoch + 2)
  {
    RollbackCompletes(c, sh, r);
  }

  /** A driver inside a move. */
  predicate Moving(pc: Pc) {
    || pc.Begin? || pc.BeginReread? || pc.Phase? || pc.Sealed? || pc.Paused? || pc.Owned? || pc.Resumed? || pc.Reread?
  }

  /** After any call of a move that fails, with or without its effect, the driver takes the tenant back. */
  lemma FailedCallRollsBack(c: Config, s: System, d: nat, weather: Weather, r: TenantRoute)
    requires Moving(PcOf(s, d)) && !weather.Fine?
    requires var sh := Apply(c, s, Step(d, weather)).shared;
             r.state.IsMoving() && UnderWay(c, sh, r, r.state) && PlanesUpTo(c, sh, r.routeEpoch + 2)
    ensures var s' := Apply(c, s, Step(d, weather));
            Ends(c, s'.shared, PcOf(s', d), 4, if r.sourceCell == "" then r.activeCell else r.sourceCell, r.routeEpoch + 2)
  {
    RollbackCompletes(c, Apply(c, s, Step(d, weather)).shared, r);
  }

  /** A driver that lost a compare-and-set adopts the stored record exactly when it is in the wanted state
      at no lower epoch, keeping the locals it came with; otherwise it rolls back. */
  lemma AdoptsExactly(c: Config, sh: Shared, loc: Locals, seen: TenantRoute, wanted: State)
    ensures Advance(c, sh, Reread(loc, seen, wanted)) ==
            (sh, if sh.table.Some? && sh.table.value.state == wanted && sh.table.value.routeEpoch >= seen.routeEpoch
                 then Phase(loc, sh.table.value) else RollbackRead)
    ensures Advance(c, sh, BeginReread(seen)) ==
            (sh, if sh.table.Some? && sh.table.value.state == Quiescing && sh.table.value.routeEpoch >= seen.routeEpoch
                 then Phase(LocalsOf(sh.table.value), sh.table.value) else RollbackRead)
  {}

  /** A first placement takes two calls. */
  lemma AssignCompletes(c: Config, sh: Shared, cell: string, operator: string, late: bool)
    requires sh.table.None? && c.tenant != "" && PlanesUpTo(c, sh, 1)
    ensures var (sh', pc') := Solo(c, sh, Started(c, sh, Assign(cell, operator), late), 2);
            && pc' == Idle && sh'.table.Some? && sh'.table.value.tenantId == c.tenant && sh'.table.value.state == Active
            && sh'.table.value.activeCell == cell && sh'.table.value.routeEpoch == 1
            && (c.fenced ==> sh'.fence == Some(Fence(cell, 1, false)))
  {
    var sh1 := Advance(c, sh, AssignOwn(cell, operator)).0;
    SoloAdds(c, sh, AssignOwn(cell, operator), 1, 1);
    assert Solo(c, sh, AssignOwn(cell, operator), 1) == Solo(c, sh1, AssignCas(cell, operator), 0);
    assert Solo(c, sh1, AssignCas(cell, operator), 1) == Solo(c, Advance(c, sh1, AssignCas(cell, operator)).0, Idle, 0);
  }

  /** A solo run is a run of the system in which only that driver steps. */
  lemma {:induction false} SoloIsRun(c: Config, s: System, d: nat, n: nat)
    ensures var steps := seq(n, _ => Step(d, Fine));
            var (sh, pc) := Solo(c, s.shared, PcOf(s, d), n);
            var s' := Run(c, s, steps);
            s'.shared == sh && PcOf(s', d) == pc && s'.tokens == s.tokens && s'.writes == s.writes
    decreases n
  {
    if n > 0 {
      var s1 := Apply(c, s, Step(d, Fine));
      assert seq(n, _ => Step(d, Fine))[1..] == seq(n - 1, _ => Step(d, Fine));
      SoloIsRun(c, s1, d, n - 1);
    }
  }
}
