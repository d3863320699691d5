/** One live driver with crashes (cells/move.go): the controller as an object over the three planes.
    With `live == false` a call may stop for good after any effect (`Crashed`); drain and event
    waits, preflight, budget and the clock answer as an argument says. */
module MoveControl {
  import opened Options
  import opened Routes
  import opened Planes

  datatype Outcome = Done | Failed | Crashed

  /** What the surroundings answer during one call: is a found move past its deadline, do preflight
      and budget agree, did the source drain and the publisher flush in time. */
  datatype World = World(late: bool, preflight: bool, budget: bool, drained: bool, flushed: bool)

  const ALL_WELL := World(false, true, true, true, true)

  // ----- the joint invariant of one tenant's entries

  /** The event state a resting route of this epoch leaves; a first placement sets none. */
  function RestingEvents(epoch: nat): Option<EventState> {
    if epoch == 1 then None else Some(EventState(Normal, epoch))
  }

  /** Fence states reachable in each phase: untouched, sealed, or already handed on at epoch + 2. */
  predicate FenceFits(route: Option<TenantRoute>, f: Option<Fence>) {
    match route
    case None => f.None? || (f.value.epoch == 1 && !f.value.sealed)
    case Some(r) =>
      if r.state == Active then f == Some(Fence(r.activeCell, r.routeEpoch, false))
      else
        || (r.state.Rank() <= 2 && f == Some(Fence(r.activeCell, r.routeEpoch, false)))
        || (r.state.Rank() >= 2 && f == Some(Fence(r.activeCell, r.routeEpoch + 1, true)))
        || f == Some(Fence(RollbackCell(r), r.routeEpoch + 2, false))
        || (r.state == Committing && f == Some(Fence(r.targetCell, r.routeEpoch + 2, false)))
  }

  predicate EventsFit(route: Option<TenantRoute>, e: Option<EventState>) {
    match route
    case None => e.None?
    case Some(r) =>
      if r.state == Active then e == RestingEvents(r.routeEpoch)
      else
        || (r.state.Rank() <= 2 && e == RestingEvents(r.routeEpoch))
        || (r.state.Rank() >= 2 && e == Some(EventState(Pause, r.routeEpoch + 1)))
        || e == Some(EventState(Normal, r.routeEpoch + 2))
  }

  predicate RouteFits(tenant: string, route: Option<TenantRoute>) {
    route.Some? ==>
      var r := route.value;
      && r.tenantId == tenant != ""
      && r.routeEpoch > 0
      && (r.state == Active || r.state.IsMoving())
      && (r.state.IsMoving() ==> r.barrierEpoch == r.routeEpoch + 1)
      && (r.state == Active ==>
            && r.sourceCell == "" && r.targetCell == "" && r.barrierId == "" && r.barrierEpoch == 0 && r.deadline == 0
            && r.eventPolicy == Normal && r.eventEpoch == r.routeEpoch)
      && (r.state.IsMoving() ==>
            if r.state.Rank() <= 2 then r.eventPolicy == Normal && r.eventEpoch == r.routeEpoch
            else r.eventPolicy == Pause && r.eventEpoch == r.barrierEpoch)
  }

  predicate Resting(route: Option<TenantRoute>, cell: string, epoch: nat) {
    route.Some? && route.value.state == Active && route.value.activeCell == cell && route.value.routeEpoch == epoch
  }

  /** The same barrier, at any phase. */
  predicate SameMove(r: TenantRoute, route: Option<TenantRoute>) {
    && route.Some? && route.value.state.IsMoving()
    && route.value.(state := r.state, eventPolicy := r.eventPolicy, eventEpoch := r.eventEpoch) == r
  }

  /** A move of `r` has been settled: the tenant rests at epoch + 2 on its source or its target. */
  predicate Settled(r: TenantRoute, route: Option<TenantRoute>) {
    Resting(route, RollbackCell(r), r.routeEpoch + 2) || Resting(route, r.targetCell, r.routeEpoch + 2)
  }

  /** A found move that the clock has overtaken is rolled back; a decided cut never is. */
  predicate Overdue(r: TenantRoute, late: bool) {
    r.state.IsMoving() && r.state != Committing && r.deadline != 0 && late
  }

  /** Where a successful Move leaves a tenant that it read as `r`. */
  function SuccessCell(r: TenantRoute, plan: MovePlan, late: bool): string {
    if !r.state.IsMoving() then plan.toCell else if Overdue(r, late) then RollbackCell(r) else r.targetCell
  }

  /** Success means the plan's target for every tenant read in state `st` exactly when that state is
      a resting one: a move found under way is settled in the plan's place. */
  lemma SuccessOnTargetExactly(st: State, plan: MovePlan)
    ensures (forall r: TenantRoute, late :: r.state == st ==> SuccessCell(r, plan, late) == plan.toCell) <==> !st.IsMoving()
  {
    if st.IsMoving() {
      var r := ZERO_ROUTE.(state := st, targetCell := plan.toCell + "'");
      assert SuccessCell(r, plan, false) != plan.toCell;
    }
  }

  /** A rollback brings the tenant back to the cell it was on exactly when the plan named that cell,
      or none, as its source. */
  lemma RollsBackHomeExactly(r: TenantRoute, plan: MovePlan, id: string, deadline: nat)
    ensures RollbackCell(Begun(r, plan, id, deadline)) == r.activeCell <==> plan.fromCell == "" || plan.fromCell == r.activeCell
  {}

  /** The first placement's compare-and-set is refused for the empty tenant id in every state of the
      table, with the error of a lost race, and on a free id for no other. */
  lemma EmptyIdConflicts(cell: string, operator: string, tenant: string)
    ensures (forall stored :: CasVerdict(stored, ZERO_ROUTE, Placed(tenant, cell, operator)) == CasConflict) <==> tenant == ""
  {
    assert tenant != "" ==> CasVerdict(None, ZERO_ROUTE, Placed(tenant, cell, operator)) == CasOk;
  }

  class MoveController {
    const table: MemTable
    const fencer: MemFencer?
    const events: MemEventBarrier?

    constructor (table: MemTable, fencer: MemFencer?, events: MemEventBarrier?)
      requires table.routes == map[] && (fencer != null ==> fencer.rows == map[]) && (events != null ==> events.rows == map[])
      ensures this.table == table && this.fencer == fencer && this.events == events && Valid()
    {
      this.table, this.fencer, this.events := table, fencer, events;
    }

    ghost function Route(t: string): Option<TenantRoute> reads table { Entry(table.routes, t) }

    /** Route, fence and event policy of a tenant agree. */
    ghost predicate Joint(t: string)
      reads table, fencer, events
    {
      && RouteFits(t, Route(t))
      && (fencer != null ==> FenceFits(Route(t), Entry(fencer.rows, t)))
      && (events != null ==> EventsFit(Route(t), Entry(events.rows, t)))
    }

    ghost predicate Valid() reads table, fencer, events { forall t :: Joint(t) }

    twostate predicate OnlyTenant(t: string)
      reads table, fencer, events
    {
      && table.routes - {t} == old(table.routes) - {t}
      && (fencer != null ==> fencer.rows - {t} == old(fencer.rows) - {t})
      && (events != null ==> events.rows - {t} == old(events.rows) - {t})
    }

    /** Frame: tenants other than `t` keep their joint invariant and their route. */
    twostate lemma OthersKept(t: string)
      requires OnlyTenant(t) && old(Valid()) && Joint(t)
      ensures Valid()
      ensures forall u :: u != t ==> Route(u) == old(Route(u))
    {
      forall u | u != t
        ensures Route(u) == old(Route(u)) && Joint(u)
      {
        assert old(Joint(u));
        assert Entry(table.routes - {t}, u) == Entry(old(table.routes) - {t}, u);
        if fencer != null { assert Entry(fencer.rows - {t}, u) == Entry(old(fencer.rows) - {t}, u); }
        if events != null { assert Entry(events.rows - {t}, u) == Entry(old(events.rows) - {t}, u); }
      }
    }

    // ----- effects

    method SetOwner(tenant: string, cell: string, epoch: nat) returns (ok: bool)
      modifies fencer
      ensures fencer != null ==> ok == OwnFence(old(Entry(fencer.rows, tenant)), cell, epoch).Some?
      ensures fencer != null && ok ==> fencer.rows == old(fencer.rows)[tenant := Fence(cell, epoch, false)]
      ensures fencer != null && !ok ==> fencer.rows == old(fencer.rows)
      ensures fencer == null ==> ok
    {
      if fencer == null { return true; }
      ok := fencer.SetOwner(tenant, cell, epoch);
    }

    method SetPolicy(tenant: string, policy: EventPolicy, epoch: nat) returns (ok: bool)
      modifies events
      ensures events != null ==> ok == SetEvents(old(Entry(events.rows, tenant)), policy, epoch).Some?
      ensures events != null && ok ==> events.rows == old(events.rows)[tenant := EventState(policy, epoch)]
      ensures events != null && !ok ==> events.rows == old(events.rows)
      ensures events == null ==> ok
    {
      if events == null { return true; }
      ok := events.SetPolicy(tenant, policy, epoch);
    }

    method Seal(tenant: string, epoch: nat) returns (ok: bool)
      modifies fencer
      ensures fencer != null ==> ok == SealFence(old(Entry(fencer.rows, tenant)), epoch).Some?
      ensures fencer != null && ok ==>
                fencer.rows == old(fencer.rows)[tenant := SealFence(old(Entry(fencer.rows, tenant)), epoch).value]
      ensures fencer != null && !ok ==> fencer.rows == old(fencer.rows)
      ensures fencer == null ==> ok
    {
      if fencer == null { return true; }
      ok := fencer.Seal(tenant, epoch);
    }

    /** A compare-and-set that, on a conflict, adopts a stored record already in the wanted state. */
    method Cas(seen: TenantRoute, next: TenantRoute) returns (r: TenantRoute, ok: bool)
      requires seen.tenantId == next.tenantId
      modifies table
      ensures CasVerdict(old(Route(seen.tenantId)), seen, next).CasOk? ==>
                ok && r == next && table.routes == old(table.routes)[next.tenantId := next]
      ensures !CasVerdict(old(Route(seen.tenantId)), seen, next).CasOk? ==>
                && table.routes == old(table.routes)
                && (ok ==> Route(seen.tenantId) == Some(r) && r.state == next.state && r.routeEpoch >= seen.routeEpoch)
      ensures CasVerdict(old(Route(seen.tenantId)), seen, next).CasConflict? ==>
                (ok <==> Route(seen.tenantId).Some? && Route(seen.tenantId).value.state == next.state
                         && Route(seen.tenantId).value.routeEpoch >= seen.routeEpoch)
      ensures CasVerdict(old(Route(seen.tenantId)), seen, next).CasRegression? ==> !ok
    {
      var outcome := table.CompareAndSet(seen, next);
      if outcome.CasOk? { return next, true; }
      if outcome.CasConflict? {
        var cur := table.Get(seen.tenantId);
        if cur.Some? && cur.value.state == next.state && cur.value.routeEpoch >= seen.routeEpoch { return cur.value, true; }
      }
      return seen, false;
    }

    // ----- phases 2 to 7

    /** A plane is already past the barrier of `r`: a rollback of it has begun. */
    ghost predicate PastBarrier(r: TenantRoute)
      reads fencer, events
    {
      || (fencer != null && FenceEpoch(Entry(fencer.rows, r.tenantId)) > r.barrierEpoch)
      || (events != null && Entry(events.rows, r.tenantId).Some? && Entry(events.rows, r.tenantId).value.epoch > r.barrierEpoch)
    }

    /** Why a move in the state of `r` cannot go on to its commit. */
    ghost predicate Stalls(r: TenantRoute, w: World)
      reads fencer, events
    {
      || (r.state == Quiescing && !w.drained)
      || (r.state.Rank() <= 2 && (PastBarrier(r) || (events != null && !w.flushed)))
    }

    /** Phases 2 to 7 of one barrier. It fails exactly when it stalls. */
    method ContinueMove(live: bool, r0: TenantRoute, w: World) returns (out: Outcome)
      requires Joint(r0.tenantId) && Route(r0.tenantId) == Some(r0) && r0.state.IsMoving()
      modifies table, fencer, events
      ensures Joint(r0.tenantId) && OnlyTenant(r0.tenantId)
      ensures live ==> !out.Crashed?
      ensures out.Done? ==> Resting(Route(r0.tenantId), r0.targetCell, r0.routeEpoch + 2) && Route(r0.tenantId).value.lastOperator == r0.lastOperator
      ensures out.Failed? ==> SameMove(r0, Route(r0.tenantId)) && old(Stalls(r0, w))
      ensures live && old(Stalls(r0, w)) ==> out.Failed?
      ensures out.Crashed? ==> SameMove(r0, Route(r0.tenantId)) || Resting(Route(r0.tenantId), r0.targetCell, r0.routeEpoch + 2)
    {
      var r := r0;
      if r.state == Quiescing {
        if !w.drained { return Failed; }
        out, r := Enter(live, r, Draining);
        if !out.Done? { return out; }
      }
      if r.state == Draining {
        out, r := FenceAndPause(live, r, w.flushed);
        if !out.Done? { return out; }
      }
      if r.state == Copying {
        out, r := Enter(live, r, Committing);
        if !out.Done? { return out; }
      }
      out := Commit(live, r); // the only moving state left
    }

    /** QUIESCING to DRAINING, and COPYING to COMMITTING. */
    method Enter(live: bool, r0: TenantRoute, next: State) returns (out: Outcome, r: TenantRoute)
      requires Joint(r0.tenantId) && Route(r0.tenantId) == Some(r0)
      requires (r0.state == Quiescing && next == Draining) || (r0.state == Copying && next == Committing)
      modifies table
      ensures Joint(r0.tenantId) && OnlyTenant(r0.tenantId)
      ensures live ==> !out.Crashed?
      ensures SameMove(r0, Route(r0.tenantId)) && !out.Failed?
      ensures out.Done? ==> Route(r0.tenantId) == Some(r) && r.state == next
    {
      var ok;
      r, ok := Cas(r0, r0.(state := next));
      if !ok { return Failed, r; }
      if !live { if * { return Crashed, r; } }
      return Done, r;
    }

    /** Phases 3 and 5: seal, pause, wait, then DRAINING to COPYING. */
    method FenceAndPause(live: bool, r0: TenantRoute, flushed: bool) returns (out: Outcome, r: TenantRoute)
      requires Joint(r0.tenantId) && Route(r0.tenantId) == Some(r0) && r0.state == Draining
      modifies table, fencer, events
      ensures Joint(r0.tenantId) && OnlyTenant(r0.tenantId)
      ensures live ==> !out.Crashed?
      ensures SameMove(r0, Route(r0.tenantId))
      ensures out.Done? ==> Route(r0.tenantId) == Some(r) && r.state == Copying
      ensures out.Failed? ==> old(PastBarrier(r0)) || (events != null && !flushed)
      ensures live && (old(PastBarrier(r0)) || (events != null && !flushed)) ==> out.Failed?
    {
      r := r0;
      var ok := Seal(r.tenantId, r.barrierEpoch);
      if !ok { return Failed, r; }
      if !live { if * { return Crashed, r; } }
      ok := SetPolicy(r.tenantId, Pause, r.barrierEpoch);
      if !ok { return Failed, r; }
      if !live { if * { return Crashed, r; } }
      if events != null && !flushed { return Failed, r; }
      r, ok := Cas(r, Caught(r, r.barrierEpoch));
      if !ok { return Failed, r; }
      if !live { if * { return Crashed, r; } }
      return Done, r;
    }

    /** Phase 7: hand over, resume events, rest on the target. Nothing in it can fail. */
    method Commit(live: bool, r: TenantRoute) returns (out: Outcome)
      requires Joint(r.tenantId) && Route(r.tenantId) == Some(r) && r.state == Committing
      modifies table, fencer, events
      ensures Joint(r.tenantId) && OnlyTenant(r.tenantId)
      ensures !out.Failed? && (live ==> out.Done?)
      ensures out.Done? ==> Resting(Route(r.tenantId), r.targetCell, r.routeEpoch + 2) && Route(r.tenantId).value.lastOperator == r.lastOperator
      ensures !out.Done? ==> Route(r.tenantId) == Some(r) || (out.Crashed? && Resting(Route(r.tenantId), r.targetCell, r.routeEpoch + 2))
    {
      var commitEpoch := r.barrierEpoch + 1;
      var ok := SetOwner(r.tenantId, r.targetCell, commitEpoch);
      if !ok { return Failed; }
      if !live { if * { return Crashed; } }
      ok := SetPolicy(r.tenantId, Normal, commitEpoch);
      if !ok { return Failed; }
      if !live { if * { return Crashed; } }
      var next;
      next, ok := Cas(r, Rested(r, r.targetCell, commitEpoch));
      if !ok { return Failed; }
      if !live { if * { return Crashed; } }
      return Done;
    }

    /** A rollback never fails: no plane is ever past the epoch it installs. */
    method Rollback(live: bool, tenant: string) returns (out: Outcome)
      requires Joint(tenant)
      modifies table, fencer, events
      ensures Joint(tenant) && OnlyTenant(tenant)
      ensures !out.Failed? && (live ==> out.Done?)
      ensures old(Route(tenant)).None? || old(Route(tenant)).value.state == Active ==> Route(tenant) == old(Route(tenant))
      ensures old(Route(tenant)).Some? && old(Route(tenant)).value.state.IsMoving() ==>
                var r := old(Route(tenant)).value;
                Resting(Route(tenant), RollbackCell(r), r.routeEpoch + 2) || (out.Crashed? && Route(tenant) == Some(r))
    {
      var read := table.Get(tenant);
      if read.None? || read.value.state.AdmitsNew() { return Done; }
      out := TakeBack(live, read.value);
    }

    /** Hand the source its tenant back: fence, events, then the resting record. */
    method TakeBack(live: bool, cur: TenantRoute) returns (out: Outcome)
      requires Joint(cur.tenantId) && Route(cur.tenantId) == Some(cur) && cur.state.IsMoving()
      modifies table, fencer, events
      ensures Joint(cur.tenantId) && OnlyTenant(cur.tenantId)
      ensures !out.Failed? && (live ==> out.Done?)
      ensures Resting(Route(cur.tenantId), RollbackCell(cur), cur.routeEpoch + 2) || (out.Crashed? && Route(cur.tenantId) == Some(cur))
    {
      var source, newEpoch := RollbackCell(cur), RollbackEpoch(cur);
      var ok := SetOwner(cur.tenantId, source, newEpoch);
      if !ok { return Failed; }
      if !live { if * { return Crashed; } }
      ok := SetPolicy(cur.tenantId, Normal, newEpoch);
      if !ok { return Failed; }
      if !live { if * { return Crashed; } }
      var outcome := table.CompareAndSet(cur, Rested(cur, source, newEpoch));
      assert outcome.CasOk?; // so the retry on a conflict is never taken
      if !live { if * { return Crashed; } }
      return Done;
    }

    /** Continue a move, or roll it back when late or on an error. A late rollback is a success; a
        move found COMMITTING always finishes forward. */
    method ResumeFrom(live: bool, cur: TenantRoute, w: World) returns (out: Outcome)
      requires Joint(cur.tenantId) && Route(cur.tenantId) == Some(cur)
      modifies table, fencer, events
      ensures Joint(cur.tenantId) && OnlyTenant(cur.tenantId)
      ensures live ==> !out.Crashed?
      ensures cur.state == Active ==> Route(cur.tenantId) == Some(cur) && out.Done?
      ensures cur.state.IsMoving() ==> Found(cur, w.late, out)
      ensures cur.state.IsMoving() && live ==> (out.Failed? <==> !Overdue(cur, w.late) && old(Stalls(cur, w)))
      ensures cur.state.Rank() in {1, 2, 3} && cur.deadline != 0 && w.late && live ==>
                out.Done? && Resting(Route(cur.tenantId), if cur.sourceCell == "" then cur.activeCell else cur.sourceCell, cur.routeEpoch + 2)
      ensures cur.state.IsMoving() && (cur.state == Committing || cur.deadline == 0 || !w.late) && out.Done? ==>
                Resting(Route(cur.tenantId), cur.targetCell, cur.routeEpoch + 2)
    {
      if cur.state.AdmitsNew() { return Done; }
      if cur.state != Committing && cur.deadline != 0 && w.late {
        out := Rollback(live, cur.tenantId);
        return;
      }
      out := ContinueMove(live, cur, w);
      if out.Failed? {
        var back := Rollback(live, cur.tenantId);
        if back.Crashed? { out := Crashed; }
      }
    }

    /** How a move found under way ends: overdue, it succeeds on its source; otherwise it succeeds on
        its own target or fails on its source, and never fails once COMMITTING. */
    ghost predicate Found(r: TenantRoute, late: bool, out: Outcome)
      reads table
    {
      && (out.Done? ==> Resting(Route(r.tenantId), if Overdue(r, late) then RollbackCell(r) else r.targetCell, r.routeEpoch + 2))
      && (out.Failed? ==> Resting(Route(r.tenantId), RollbackCell(r), r.routeEpoch + 2) && r.state != Committing && !Overdue(r, late))
      && (out.Crashed? ==> SameMove(r, Route(r.tenantId)) || Settled(r, Route(r.tenantId)))
    }

    /** Crash recovery. Run to its end it leaves the tenant resting at epoch + 2, on source or target,
        with the fence unsealed on exactly that cell and epoch and events normal at that epoch. */
    method Resume(live: bool, tenant: string, w: World) returns (out: Outcome)
      requires Valid()
      modifies table, fencer, events
      ensures Valid()
      ensures live ==> !out.Crashed?
      ensures EpochsKept()
      ensures old(Route(tenant)).Some? && old(Route(tenant)).value.state.IsMoving() ==> Found(old(Route(tenant)).value, w.late, out)
      ensures old(Route(tenant)).Some? && old(Route(tenant)).value.state.IsMoving() && live ==>
                (out.Failed? <==> !Overdue(old(Route(tenant)).value, w.late) && old(Stalls(Route(tenant).value, w)))
      ensures old(Route(tenant)).Some? && old(Route(tenant)).value.state.IsMoving() && !out.Crashed? ==>
                Settled(old(Route(tenant)).value, Route(tenant))
      ensures old(Route(tenant)).Some? && old(Route(tenant)).value.state == Committing && !out.Crashed? ==>
                out.Done? && RestsOn(tenant, old(Route(tenant)).value.targetCell)
      ensures !(old(Route(tenant)).Some? && old(Route(tenant)).value.state.IsMoving()) ==> Route(tenant) == old(Route(tenant)) && out.Done?
      ensures !out.Crashed? && Route(tenant).Some? ==>
                var r := Route(tenant).value;
                && r.state == Active
                && (fencer != null ==> Entry(fencer.rows, tenant) == Some(Fence(r.activeCell, r.routeEpoch, false)))
                && (events != null ==> Entry(events.rows, tenant) == RestingEvents(r.routeEpoch))
      ensures forall u :: u != tenant ==> Route(u) == old(Route(u))
    {
      assert Joint(tenant);
      var read := table.Get(tenant);
      if read.None? { return Done; }
      out := ResumeFrom(live, read.value, w);
      OthersKept(tenant);
      assert Joint(tenant);
    }

    method Drive(live: bool, plan: MovePlan, cur: TenantRoute, id: string, deadline: nat, w: World) returns (out: Outcome)
      requires Joint(plan.tenantId) && Route(plan.tenantId) == Some(cur)
      modifies table, fencer, events
      ensures Joint(plan.tenantId) && OnlyTenant(plan.tenantId)
      ensures live ==> !out.Crashed?
      ensures cur.state == Active && out.Done? ==> Resting(Route(plan.tenantId), plan.toCell, cur.routeEpoch + 2)
      ensures cur.state == Active && out.Done? ==> Route(plan.tenantId).value.lastOperator == plan.operator
      ensures cur.state == Active && out.Failed? ==> SameMove(Begun(cur, plan, id, deadline), Route(plan.tenantId))
      ensures cur.state == Active && out.Failed? ==>
                var r := Route(plan.tenantId).value;
                && r.sourceCell == plan.fromCell && r.targetCell == plan.toCell && r.activeCell == cur.activeCell
                && r.routeEpoch == cur.routeEpoch && r.barrierEpoch == cur.routeEpoch + 1
                && r.barrierId == id && r.deadline == deadline && r.lastOperator == plan.operator
      ensures cur.state == Active && out.Crashed? ==>
                || Route(plan.tenantId) == Some(cur) || SameMove(Begun(cur, plan, id, deadline), Route(plan.tenantId))
                || Resting(Route(plan.tenantId), plan.toCell, cur.routeEpoch + 2)
      ensures cur.state == Active && live ==> (out.Done? <==> w.drained && (events != null ==> w.flushed))
      ensures cur.state.IsMoving() ==> Found(cur, w.late, out)
      ensures cur.state.IsMoving() && live ==> (out.Failed? <==> !Overdue(cur, w.late) && old(Stalls(cur, w)))
    {
      if !cur.state.AdmitsNew() {
        out := ResumeFrom(live, cur, w);
        return;
      }
      var begun, ok := Cas(cur, Begun(cur, plan, id, deadline));
      if !ok { return Failed; }
      if !live { if * { return Crashed; } }
      out := ContinueMove(live, begun, w);
    }

    /** Drive the record read; on an error roll back. */
    method DriveOrRollBack(live: bool, plan: MovePlan, cur: TenantRoute, id: string, deadline: nat, w: World) returns (out: Outcome)
      requires Joint(plan.tenantId) && Route(plan.tenantId) == Some(cur)
      modifies table, fencer, events
      ensures Joint(plan.tenantId) && OnlyTenant(plan.tenantId)
      ensures live ==> !out.Crashed?
      ensures Route(plan.tenantId).Some? && cur.routeEpoch <= Route(plan.tenantId).value.routeEpoch
      ensures cur.state == Active && out.Done? ==>
                Resting(Route(plan.tenantId), plan.toCell, cur.routeEpoch + 2) && Route(plan.tenantId).value.lastOperator == plan.operator
      ensures cur.state == Active && out.Failed? ==>
                Resting(Route(plan.tenantId), if plan.fromCell == "" then cur.activeCell else plan.fromCell, cur.routeEpoch + 2)
      ensures cur.state == Active && live ==> (out.Done? <==> w.drained && (events != null ==> w.flushed))
      ensures cur.state.IsMoving() ==> Found(cur, w.late, out)
      ensures cur.state.IsMoving() && live ==> (out.Failed? <==> !Overdue(cur, w.late) && old(Stalls(cur, w)))
    {
      out := Drive(live, plan, cur, id, deadline, w);
      if out.Failed? {
        var back := Rollback(live, plan.tenantId);
        if back.Crashed? { out := Crashed; }
      }
    }

    /** A resting tenant ends on the target (`Done`), which without a crash it does exactly when the
        move is allowed and both waits succeed, or, at an epoch no lower, on the source (`Failed`); a
        tenant found mid-move has that move settled instead, and the outcome speaks of that move. */
    method Move(live: bool, plan: MovePlan, id: string, deadline: nat, w: World) returns (out: Outcome)
      requires Valid()
      modifies table, fencer, events
      ensures Valid() && EpochsKept()
      ensures live ==> !out.Crashed?
      ensures forall u :: u != plan.tenantId ==> Route(u) == old(Route(u))
      ensures old(Route(plan.tenantId)).None? || plan.fromCell == plan.toCell || !(w.preflight && (plan.force || w.budget)) ==>
                Route(plan.tenantId) == old(Route(plan.tenantId)) && out.Failed?
      ensures old(Route(plan.tenantId)).Some? && old(Route(plan.tenantId)).value.state == Active && !out.Crashed? ==>
                var r := old(Route(plan.tenantId)).value;
                if out.Done?
                then && Resting(Route(plan.tenantId), plan.toCell, if r.activeCell == plan.toCell then r.routeEpoch else r.routeEpoch + 2)
                     && Route(plan.tenantId).value.lastOperator == (if r.activeCell == plan.toCell then r.lastOperator else plan.operator)
                else Route(plan.tenantId) == Some(r) ||
                     Resting(Route(plan.tenantId), if plan.fromCell == "" then r.activeCell else plan.fromCell, r.routeEpoch + 2)
      ensures old(Route(plan.tenantId)).Some? && old(Route(plan.tenantId)).value.state == Active && live ==>
                (out.Done? <==> && plan.fromCell != plan.toCell && w.preflight && (plan.force || w.budget)
                                && (old(Route(plan.tenantId)).value.activeCell == plan.toCell || (w.drained && (events != null ==> w.flushed))))
      ensures old(Route(plan.tenantId)).Some? && old(Route(plan.tenantId)).value.state.IsMoving() && plan.fromCell != plan.toCell && w.preflight && (plan.force || w.budget) ==>
                Found(old(Route(plan.tenantId)).value, w.late, out)
      ensures old(Route(plan.tenantId)).Some? && old(Route(plan.tenantId)).value.state.IsMoving() && live ==>
                (out.Done? <==> && plan.fromCell != plan.toCell && w.preflight && (plan.force || w.budget)
                                && (Overdue(old(Route(plan.tenantId)).value, w.late) || !old(Stalls(Route(plan.tenantId).value, w))))
      ensures out.Done? ==>
                old(Route(plan.tenantId)).Some? && RestsOn(plan.tenantId, SuccessCell(old(Route(plan.tenantId)).value, plan, w.late))
    {
      assert Joint(plan.tenantId);
      if plan.fromCell == plan.toCell { return Failed; }
      if !w.preflight { return Failed; }
      if !plan.force && !w.budget { return Failed; }
      var read := table.Get(plan.tenantId);
      if read.None? { return Failed; }
      var cur := read.value;
      if cur.state.AdmitsNew() && cur.activeCell == plan.toCell { return Done; }
      out := DriveOrRollBack(live, plan, cur, id, deadline, w);
      OthersKept(plan.tenantId);
    }

    /** First placement, or a move of a placed tenant. `None` stands for never returning: on the empty
        id every retry is refused again. */
    method Assign(live: bool, tenant: string, cell: string, operator: string, id: string, deadline: nat, w: World)
      returns (out: Option<Outcome>)
      requires Valid()
      modifies table, fencer, events
      ensures Valid()
      ensures EpochsKept()
      ensures out.None? ==> tenant == ""
      ensures tenant == "" ==> (out.None? || (!live && out == Some(Crashed))) && table.routes == old(table.routes)
      ensures live && out.Some? ==> out != Some(Crashed)
      ensures forall u :: u != tenant ==> Route(u) == old(Route(u))
      ensures tenant != "" && old(Route(tenant)).None? ==>
                out != Some(Failed) && (Resting(Route(tenant), cell, 1) || (out == Some(Crashed) && Route(tenant).None?))
      ensures out == Some(Done) ==>
                RestsOn(tenant, if old(Route(tenant)).None? then cell
                                else SuccessCell(old(Route(tenant)).value, MovePlan(tenant, "", cell, operator, false), w.late))
    {
      assert Joint(tenant);
      var read := table.Get(tenant);
      if read.None? {
        var ok := SetOwner(tenant, cell, 1);
        if !ok { return Some(Failed); }
        OthersKept(tenant);
        if !live { if * { return Some(Crashed); } }
        var outcome := table.CompareAndSet(ZERO_ROUTE, Placed(tenant, cell, operator));
        if outcome.CasConflict? { return None; } // the retry starts from the state this one started from
        OthersKept(tenant);
        if !live { if * { return Some(Crashed); } }
        return Some(Done);
      }
      if read.value.state.AdmitsNew() && read.value.activeCell == cell { return Some(Done); }
      var moved := Move(live, MovePlan(tenant, read.value.activeCell, cell, operator, false), id, deadline, w);
      return Some(moved);
    }

    ghost predicate RestsOn(t: string, cell: string)
      reads table
    {
      Route(t).Some? && Route(t).value.state == Active && Route(t).value.activeCell == cell
    }

    twostate predicate EpochsKept()
      reads table
    {
      forall t :: old(Route(t)).Some? ==> Route(t).Some? && old(Route(t)).value.routeEpoch <= Route(t).value.routeEpoch
    }

    predicate DistinctTenants(members: seq<MovePlan>) {
      forall i, j :: 0 <= i < j < |members| ==> members[i].tenantId != members[j].tenantId
    }

    /** Distinct tenants, each resting on its plan's source. */
    ghost predicate CohortReady(members: seq<MovePlan>)
      reads table
    {
      && DistinctTenants(members)
      && (forall i :: 0 <= i < |members| ==> RestsOn(members[i].tenantId, members[i].fromCell))
    }

    /** Members below `n` on their targets, the others on their sources, but those below `k` back on
        their source unless reported. */
    ghost predicate Spread(members: seq<MovePlan>, n: nat, k: nat, errors: set<string>)
      reads table
    {
      forall i :: 0 <= i < |members| ==>
        if k <= i < n || (i < k && members[i].tenantId in errors)
        then RestsOn(members[i].tenantId, members[i].toCell)
        else RestsOn(members[i].tenantId, members[i].fromCell)
    }

    /** The surroundings let a move of a tenant resting on the plan's source through. */
    predicate LetsThrough(plan: MovePlan, w: World) {
      && plan.fromCell != plan.toCell && w.preflight && (plan.force || w.budget)
      && w.drained && (events != null ==> w.flushed)
    }

    /** They let the way back through: the budget is not asked. */
    predicate LetsBack(plan: MovePlan, w: World) {
      plan.fromCell != plan.toCell && w.preflight && w.drained && (events != null ==> w.flushed)
    }

    /** One member's move: from its source it succeeds exactly when the surroundings let it through. */
    method MoveMember(plan: MovePlan, id: string, deadline: nat, w: World) returns (out: Outcome)
      requires Valid()
      modifies table, fencer, events
      ensures Valid() && EpochsKept() && !out.Crashed?
      ensures forall u :: u != plan.tenantId ==> Route(u) == old(Route(u))
      ensures old(RestsOn(plan.tenantId, plan.fromCell)) ==>
                (out.Done? <==> LetsThrough(plan, w)) && RestsOn(plan.tenantId, if out.Done? then plan.toCell else plan.fromCell)
    {
      out := Move(true, plan, id, deadline, w);
    }

    /** All or nothing over distinct tenants resting on their sources. `worlds` and `back` are the
        surroundings of each member's move and of its way back. It fails at the first member whose
        surroundings refuse, and nowhere else. Without a failure every member is on its target; after
        one, the members from the failing one on are on their sources, and so is every earlier member
        but those whose surroundings refuse the way back, which are reported in `errors`. For any
        members at all, epochs never fall and the joint invariant holds. */
    method MoveCohort(members: seq<MovePlan>, id: string, deadline: nat, worlds: seq<World>, back: seq<World>)
      returns (failedAt: Option<nat>, rolledBack: seq<string>, errors: set<string>)
      requires Valid() && |worlds| == |back| == |members|
      modifies table, fencer, events
      ensures Valid() && EpochsKept()
      ensures failedAt.Some? ==> failedAt.value < |members|
      ensures old(CohortReady(members)) ==>
                (failedAt.None? <==> forall i :: 0 <= i < |members| ==> LetsThrough(members[i], worlds[i]))
      ensures old(CohortReady(members)) && failedAt.Some? ==>
                && !LetsThrough(members[failedAt.value], worlds[failedAt.value])
                && forall i :: 0 <= i < failedAt.value ==> LetsThrough(members[i], worlds[i])
      ensures old(CohortReady(members)) ==>
                Spread(members, if failedAt.Some? then failedAt.value else |members|, if failedAt.Some? then failedAt.value else 0, errors)
      ensures old(CohortReady(members)) && failedAt.Some? ==> Reversed(members, failedAt.value, back, rolledBack, errors)
    {
      failedAt, rolledBack, errors := None, [], {};
      for i := 0 to |members|
        invariant Valid() && EpochsKept()
        invariant old(CohortReady(members)) ==> Spread(members, i, 0, {}) && forall k :: 0 <= k < i ==> LetsThrough(members[k], worlds[k])
      {
        var out := MoveMember(members[i], id, deadline, worlds[i]);
        if out.Failed? {
          rolledBack, errors := Reverse(members, i, id, deadline, back);
          return Some(i), rolledBack, errors;
        }
      }
    }

    /** Of the first `n` members exactly those whose way back was refused are reported, the others are
        listed as rolled back. */
    ghost predicate Reversed(members: seq<MovePlan>, n: nat, back: seq<World>, rolledBack: seq<string>, errors: set<string>)
      requires n <= |members| == |back|
    {
      forall i :: 0 <= i < n ==>
        && (members[i].tenantId in errors <==> !LetsBack(members[i], back[i]))
        && (members[i].tenantId in rolledBack <==> LetsBack(members[i], back[i]))
    }

    /** Move the first `n` members back, best effort and past the budget gate. */
    method Reverse(members: seq<MovePlan>, n: nat, id: string, deadline: nat, back: seq<World>)
      returns (rolledBack: seq<string>, errors: set<string>)
      requires Valid() && n < |members| == |back|
      modifies table, fencer, events
      ensures Valid() && EpochsKept()
      ensures DistinctTenants(members) && old(Spread(members, n, 0, {})) ==>
                Spread(members, n, n, errors) && Reversed(members, n, back, rolledBack, errors)
    {
      rolledBack, errors := [], {};
      for k := 0 to n
        invariant Valid() && EpochsKept()
        invariant DistinctTenants(members) && old(Spread(members, n, 0, {})) ==>
                    && Spread(members, n, k, errors) && Reversed(members, k, back, rolledBack, errors)
                    && (forall i :: k <= i < |members| ==> members[i].tenantId !in rolledBack && members[i].tenantId !in errors)
      {
        var m := members[k];
        var out := MoveMember(MovePlan(m.tenantId, m.toCell, m.fromCell, m.operator, true), id, deadline, back[k]);
        if out.Failed? {
          errors := errors + {m.tenantId};
        } else {
          rolledBack := rolledBack + [m.tenantId];
        }
      }
    }
  }

  /** A run in which Move succeeds on another cell than its target: a driver opens a barrier from `a`
      to `b` and stops; much later Move to `c` finds that move overdue and reports success on `a`. */
  method SucceedsElsewhere(tenant: string, a: string, b: string, c: string) returns (ctl: MoveController, out: Outcome)
    requires tenant != "" && a != "" && a != c
    ensures fresh(ctl) && ctl.Valid() && out.Done? && ctl.RestsOn(tenant, a) && !ctl.RestsOn(tenant, c)
  {
    var table := new MemTable();
    var fencer := new MemFencer();
    var events := new MemEventBarrier();
    ctl := new MoveController(table, fencer, events);
    var placed := ctl.Assign(true, tenant, a, "", "", 0, ALL_WELL);
    var cur := table.Get(tenant);
    assert ctl.Joint(tenant);
    label Placed:
    var begun, ok := ctl.Cas(cur.value, Begun(cur.value, MovePlan(tenant, a, b, "", false), "", 1));
    ctl.OthersKept@Placed(tenant);
    out := ctl.Move(true, MovePlan(tenant, a, c, "", false), "", 1, ALL_WELL.(late := true));
  }

  /** A run in which recovery moves the tenant to a cell it was never on: the plan of the driver that
      stopped named `x` as the source of a tenant on `a`. */
  method RollsBackElsewhere(tenant: string, a: string, x: string, b: string) returns (ctl: MoveController, out: Outcome)
    requires tenant != "" && x != "" && x != a
    ensures fresh(ctl) && ctl.Valid() && out.Done? && ctl.RestsOn(tenant, x) && !ctl.RestsOn(tenant, a)
  {
    var table := new MemTable();
    var fencer := new MemFencer();
    ctl := new MoveController(table, fencer, null);
    var placed := ctl.Assign(true, tenant, a, "", "", 0, ALL_WELL);
    var cur := table.Get(tenant);
    assert ctl.Joint(tenant);
    label Placed:
    var begun, ok := ctl.Cas(cur.value, Begun(cur.value, MovePlan(tenant, x, b, "", false), "", 1));
    ctl.OthersKept@Placed(tenant);
    out := ctl.Resume(true, tenant, ALL_WELL.(late := true));
  }
}
