/** Where fencing tokens are born: the caching router and the interceptor's decide-and-admit path
    (cells/router.go, cells/middleware.go). `stored` is the set of records ever put in the table. */
module Admission {
  import opened Options
  import opened Routes
  import Planes
  import Gates

  datatype Decision = Decision(tenantId: string, cell: string, routeEpoch: nat, state: State, admitNew: bool,
                               isDefault: bool, known: bool, stale: bool)

  /** `Passthrough` has no tenant; `Untracked` is admitted by an instance without gates. */
  datatype Verdict = Admitted(token: Gates.Token) | Passthrough | Untracked | Moving | WrongCell | UncertainWrite | GateRefused

  class Router {
    const table: Planes.MemTable
    const defaultCell: string
    /** `None` is a negative entry. */
    var cache: map<string, Option<TenantRoute>>

    constructor (table: Planes.MemTable, defaultCell: string)
      ensures this.table == table && this.defaultCell == (if defaultCell == "" then "default" else defaultCell) && cache == map[]
    {
      this.table := table;
      this.defaultCell := if defaultCell == "" then "default" else defaultCell;
      cache := map[];
    }

    /** Nothing but stored records, under their own tenant. */
    ghost predicate Backed(stored: set<TenantRoute>)
      reads this, table
    {
      && (forall t :: t in cache && cache[t].Some? ==> cache[t].value in stored && cache[t].value.tenantId == t)
      && (forall t :: t in table.routes ==> table.routes[t] in stored && table.routes[t].tenantId == t)
    }

    /** A watch event: a stored record, or a removal. */
    method Apply(tenant: string, route: Option<TenantRoute>, ghost stored: set<TenantRoute>)
      requires Backed(stored) && (route.Some? ==> route.value in stored && route.value.tenantId == tenant)
      modifies this
      ensures Backed(stored) && cache == old(cache)[tenant := route]
    {
      cache := cache[tenant := route];
    }

    function FromRoute(r: TenantRoute, stale: bool): Decision {
      Decision(r.tenantId, if r.activeCell == "" then defaultCell else r.activeCell, r.routeEpoch, r.state,
               r.state.AdmitsNew(), false, true, stale)
    }

    function Default(tenant: string, stale: bool): Decision {
      Decision(tenant, defaultCell, 0, Active, true, true, false, stale)
    }

    /** The record a decision about `tenant` rests on: the cached one, or on a miss the stored one. */
    ghost function Used(tenant: string, reachable: bool): Option<TenantRoute>
      reads this, table
    {
      if tenant == "" then None
      else if tenant in cache then cache[tenant]
      else if reachable then Planes.Entry(table.routes, tenant) else None
    }

    /** A decision is uncertain on an aged record and on a miss with the table out of reach. */
    ghost predicate Uncertain(tenant: string, reachable: bool, aged: bool)
      reads this
    {
      tenant != "" && if tenant in cache then cache[tenant].Some? && aged else !reachable
    }

    ghost function Decide(tenant: string, reachable: bool, aged: bool): Decision
      reads this, table
    {
      var (used, stale) := (Used(tenant, reachable), Uncertain(tenant, reachable, aged));
      if used.Some? then FromRoute(used.value, stale) else Default(tenant, stale)
    }

    /** `reachable` answers the table read of a cache miss, `aged` the freshness check of a hit. */
    method Resolve(tenant: string, reachable: bool, aged: bool, ghost stored: set<TenantRoute>) returns (d: Decision)
      requires Backed(stored)
      modifies this
      ensures Backed(stored) && d == old(Decide(tenant, reachable, aged))
      ensures d.known <==> old(Used(tenant, reachable)).Some?
      ensures d.known ==>
                var r := old(Used(tenant, reachable)).value;
                && r in stored && r.tenantId == tenant && d.cell == (if r.activeCell == "" then defaultCell else r.activeCell)
                && d.routeEpoch == r.routeEpoch && d.admitNew == r.state.AdmitsNew() && !d.isDefault
      ensures !d.known ==> d.cell == defaultCell && d.routeEpoch == 0 && d.admitNew && d.isDefault
      ensures d.stale <==> && tenant != ""
                           && (if tenant in old(cache) then old(cache)[tenant].Some? && aged else !reachable)
      ensures d.known ==> exists r :: r in stored && r.tenantId == tenant && d == FromRoute(r, d.stale)
      ensures cache == if tenant == "" || tenant in old(cache) || !reachable then old(cache)
                       else old(cache)[tenant := Planes.Entry(table.routes, tenant)]
    {
      if tenant == "" { return Default("", false); }
      if tenant in cache {
        if cache[tenant].None? { return Default(tenant, false); }
        return FromRoute(cache[tenant].value, aged);
      }
      if !reachable { return Default(tenant, true); }
      var read := table.Get(tenant);
      cache := cache[tenant := read];
      if read.None? { return Default(tenant, false); }
      return FromRoute(read.value, false);
    }

    /** Every token carries its instance's cell and either a stored, admitting record's cell and epoch,
        or the default cell at epoch 0. A moving tenant, another cell's tenant and an uncertain
        mutation are turned away, in that order, exactly when they are that. */
    method Admit(gates: Gates.GateRegistry?, tenant: string, mutating: bool, reachable: bool, aged: bool,
                 ghost stored: set<TenantRoute>) returns (v: Verdict)
      requires Backed(stored) && (gates != null ==> gates.Valid())
      modifies this, gates
      ensures Backed(stored) && (gates != null ==> gates.Valid())
      ensures v.Passthrough? <==> tenant == ""
      ensures v.Moving? <==> old(Used(tenant, reachable)).Some? && !old(Used(tenant, reachable)).value.state.AdmitsNew()
      ensures v.WrongCell? <==> tenant != "" && !v.Moving? && gates != null && old(Decide(tenant, reachable, aged)).cell != gates.cellId
      ensures v.UncertainWrite? <==> mutating && old(Uncertain(tenant, reachable, aged)) && !v.Moving? && !v.WrongCell?
      ensures v.Untracked? ==> gates == null
      ensures v.GateRefused? ==>
                && gates != null && tenant in old(gates.gates)
                && var (g, d) := (old(gates.gates)[tenant], old(Decide(tenant, reachable, aged)));
                   g.state != Gates.GateOpen || !g.accepting || g.routeEpoch != d.routeEpoch
      ensures v.Admitted? && gates != null ==>
                && (tenant in old(gates.gates) ==>
                      var g := old(gates.gates)[tenant]; g.state == Gates.GateOpen && g.accepting && g.routeEpoch == v.token.routeEpoch)
                && v.token.routeEpoch == old(Decide(tenant, reachable, aged)).routeEpoch
      ensures v.Admitted? ==>
                && gates != null && v.token.cellId == gates.cellId && v.token.tenantId == tenant
                && (|| (v.token.routeEpoch == 0 && v.token.cellId == defaultCell)
                    || exists r :: r in stored && r.tenantId == tenant && r.state.AdmitsNew() && r.routeEpoch == v.token.routeEpoch
                                   && v.token.cellId == (if r.activeCell == "" then defaultCell else r.activeCell))
      ensures mutating && old(Uncertain(tenant, reachable, aged)) ==> !v.Admitted? && !v.Untracked?
      ensures gates != null && !v.Admitted? && !v.GateRefused? ==> gates.gates == old(gates.gates)
    {
      if tenant == "" { return Passthrough; }
      var d := Resolve(tenant, reachable, aged, stored);
      if !d.admitNew { return Moving; }
      if gates != null && d.cell != gates.cellId { return WrongCell; }
      if d.stale && mutating { return UncertainWrite; }
      if gates == null { return Untracked; }
      var token, why := gates.TryEnter(tenant, d.routeEpoch);
      if token.None? { return GateRefused; }
      return Admitted(token.value);
    }
  }
}
