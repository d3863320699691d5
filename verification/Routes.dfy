/** A value that may be missing. */
module Options {
  datatype Option<+T> = None | Some(value: T)
}

/** The tenant route record and its lifecycle (cells/route.go). Epochs are unbounded. */
module Routes {
  datatype State =
    | Unknown | Active | Quiescing | Draining | Copying | Committing | ActiveNew | Aborted
  {
    predicate AdmitsNew() { Active? || ActiveNew? || Aborted? || Unknown? }

    predicate IsMoving() { Quiescing? || Draining? || Copying? || Committing? }

    /** Position of the state in one move; every resting state comes first. */
    function Rank(): nat {
      match this
      case Quiescing => 1
      case Draining => 2
      case Copying => 3
      case Committing => 4
      case _ => 0
    }
  }

  /** Every state either admits new work or is part of a move. */
  lemma StatesSplit(s: State)
    ensures s.AdmitsNew() <==> !s.IsMoving()
    ensures s.IsMoving() <==> 1 <= s.Rank() <= 4
  {}

  datatype EventPolicy = Normal | Pause | DrainQueue

  /** `deadline == 0` is the zero time. */
  datatype TenantRoute = TenantRoute(
    tenantId: string, routeEpoch: nat, activeCell: string, sourceCell: string, targetCell: string,
    state: State, barrierId: string, barrierEpoch: nat,
    eventPolicy: EventPolicy, eventEpoch: nat, deadline: nat, lastOperator: string)
  {
    predicate IsZero() { tenantId == "" && routeEpoch == 0 && state == Unknown }
  }

  const ZERO_ROUTE := TenantRoute("", 0, "", "", "", Unknown, "", 0, Normal, 0, 0, "")

  /** `force` skips the budget gate. */
  datatype MovePlan = MovePlan(tenantId: string, fromCell: string, toCell: string, operator: string, force: bool)

  // ----- the record mutations of cells/move.go, one per phase

  function Placed(tenant: string, cell: string, operator: string): TenantRoute {
    ZERO_ROUTE.(tenantId := tenant, routeEpoch := 1, activeCell := cell, state := Active,
                eventEpoch := 1, lastOperator := operator)
  }

  function Begun(r: TenantRoute, plan: MovePlan, id: string, deadline: nat): TenantRoute {
    r.(sourceCell := plan.fromCell, targetCell := plan.toCell, state := Quiescing,
       barrierEpoch := r.routeEpoch + 1, barrierId := id, deadline := deadline,
       lastOperator := plan.operator)
  }

  function Caught(r: TenantRoute, barrierEpoch: nat): TenantRoute {
    r.(state := Copying, eventPolicy := Pause, eventEpoch := barrierEpoch)
  }

  /** The resting record a commit or a rollback stores. */
  function Rested(r: TenantRoute, cell: string, epoch: nat): TenantRoute {
    r.(activeCell := cell, sourceCell := "", targetCell := "", state := Active, routeEpoch := epoch,
       barrierEpoch := 0, barrierId := "", eventPolicy := Normal, eventEpoch := epoch, deadline := 0)
  }

  /** Where a rollback of `r` returns the tenant, and at which epoch. */
  function RollbackCell(r: TenantRoute): string {
    if r.sourceCell == "" then r.activeCell else r.sourceCell
  }

  function RollbackEpoch(r: TenantRoute): nat {
    if r.barrierEpoch + 1 <= r.routeEpoch then r.routeEpoch + 1 else r.barrierEpoch + 1
  }
}
