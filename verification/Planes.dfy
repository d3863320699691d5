/** Routing table, storage fence and event barrier (cells/memtable.go, cells/plane.go): each
    operation as a function of one tenant's entry, and the mutable objects that run it. */
module Planes {
  import opened Options
  import opened Routes

  datatype CasOutcome = CasOk | CasConflict | CasRegression

  /** The verdict of a compare-and-set against the stored entry of `next`'s tenant. */
  function CasVerdict(stored: Option<TenantRoute>, seen: TenantRoute, next: TenantRoute): CasOutcome {
    if next.tenantId == "" then CasConflict
    else match stored
      case None => if seen.IsZero() then CasOk else CasConflict
      case Some(cur) =>
        if cur.routeEpoch != seen.routeEpoch || cur.state != seen.state then CasConflict
        else if next.routeEpoch < cur.routeEpoch then CasRegression
        else CasOk
  }

  datatype Fence = Fence(owner: string, epoch: nat, sealed: bool)

  function FenceEpoch(f: Option<Fence>): nat { if f.Some? then f.value.epoch else 0 }

  /** `None` is the refusal ErrFenceRegression. */
  function SealFence(f: Option<Fence>, barrierEpoch: nat): Option<Fence> {
    if barrierEpoch < FenceEpoch(f) then None
    else Some(Fence(if f.Some? then f.value.owner else "", barrierEpoch, true))
  }

  function OwnFence(f: Option<Fence>, owner: string, routeEpoch: nat): Option<Fence> {
    if routeEpoch < FenceEpoch(f) then None else Some(Fence(owner, routeEpoch, false))
  }

  /** The write guard: a tenant that was never fenced is open. */
  predicate FenceAllows(f: Option<Fence>, cell: string, epoch: nat) {
    f.None? || (!f.value.sealed && cell == f.value.owner && epoch == f.value.epoch)
  }

  datatype EventState = EventState(policy: EventPolicy, epoch: nat)

  function SetEvents(e: Option<EventState>, policy: EventPolicy, epoch: nat): Option<EventState> {
    if e.Some? && epoch < e.value.epoch then None else Some(EventState(policy, epoch))
  }

  function Entry<V>(m: map<string, V>, key: string): Option<V> {
    if key in m then Some(m[key]) else None
  }

  class MemTable {
    var routes: map<string, TenantRoute>
    var revision: nat

    constructor ()
      ensures routes == map[] && revision == 0
    {
      routes, revision := map[], 0;
    }

    method Get(tenant: string) returns (r: Option<TenantRoute>)
      ensures r == Entry(routes, tenant)
    {
      if tenant in routes { return Some(routes[tenant]); }
      return None;
    }

    method CompareAndSet(seen: TenantRoute, next: TenantRoute) returns (outcome: CasOutcome)
      modifies this
      ensures outcome == CasVerdict(old(Entry(routes, next.tenantId)), seen, next)
      ensures outcome.CasOk? <==>
                && next.tenantId != ""
                && if next.tenantId !in old(routes) then seen.tenantId == "" && seen.routeEpoch == 0 && seen.state == Unknown
                   else var cur := old(routes)[next.tenantId];
                        cur.routeEpoch == seen.routeEpoch && cur.state == seen.state && cur.routeEpoch <= next.routeEpoch
      ensures outcome.CasRegression? <==>
                && next.tenantId != "" && next.tenantId in old(routes)
                && var cur := old(routes)[next.tenantId];
                   cur.routeEpoch == seen.routeEpoch && cur.state == seen.state && next.routeEpoch < cur.routeEpoch
      ensures outcome.CasOk? ==> routes == old(routes)[next.tenantId := next] && revision == old(revision) + 1
      ensures !outcome.CasOk? ==> unchanged(this)
    {
      if next.tenantId == "" { return CasConflict; }
      if next.tenantId !in routes {
        if !seen.IsZero() { return CasConflict; }
      } else {
        var cur := routes[next.tenantId];
        if cur.routeEpoch != seen.routeEpoch || cur.state != seen.state { return CasConflict; }
        if next.routeEpoch < cur.routeEpoch { return CasRegression; }
      }
      routes := routes[next.tenantId := next];
      revision := revision + 1;
      return CasOk;
    }
  }

  class MemFencer {
    var rows: map<string, Fence>

    constructor ()
      ensures rows == map[]
    {
      rows := map[];
    }

    method Seal(tenant: string, barrierEpoch: nat) returns (ok: bool)
      modifies this
      ensures ok == SealFence(old(Entry(rows, tenant)), barrierEpoch).Some?
      ensures ok <==> tenant !in old(rows) || old(rows)[tenant].epoch <= barrierEpoch
      ensures ok ==> tenant in rows && rows[tenant] == Fence(if tenant in old(rows) then old(rows)[tenant].owner else "", barrierEpoch, true)
      ensures ok ==> rows == old(rows)[tenant := SealFence(old(Entry(rows, tenant)), barrierEpoch).value]
      ensures !ok ==> unchanged(this)
    {
      var cur := if tenant in rows then rows[tenant] else Fence("", 0, false);
      if barrierEpoch < cur.epoch { return false; }
      rows := rows[tenant := Fence(cur.owner, barrierEpoch, true)];
      return true;
    }

    method SetOwner(tenant: string, owner: string, routeEpoch: nat) returns (ok: bool)
      modifies this
      ensures ok == OwnFence(old(Entry(rows, tenant)), owner, routeEpoch).Some?
      ensures ok <==> tenant !in old(rows) || old(rows)[tenant].epoch <= routeEpoch
      ensures ok ==> rows == old(rows)[tenant := Fence(owner, routeEpoch, false)]
      ensures !ok ==> unchanged(this)
    {
      var cur := if tenant in rows then rows[tenant] else Fence("", 0, false);
      if routeEpoch < cur.epoch { return false; }
      rows := rows[tenant := Fence(owner, routeEpoch, false)];
      return true;
    }

    method Allow(tenant: string, cell: string, routeEpoch: nat) returns (ok: bool)
      ensures ok == FenceAllows(Entry(rows, tenant), cell, routeEpoch)
      ensures ok <==> tenant !in rows || rows[tenant] == Fence(cell, routeEpoch, false)
    {
      if tenant !in rows { return true; }
      var cur := rows[tenant];
      if cur.sealed { return false; }
      return cell == cur.owner && routeEpoch == cur.epoch;
    }
  }

  class MemEventBarrier {
    var rows: map<string, EventState>

    constructor ()
      ensures rows == map[]
    {
      rows := map[];
    }

    method SetPolicy(tenant: string, policy: EventPolicy, epoch: nat) returns (ok: bool)
      modifies this
      ensures ok == SetEvents(old(Entry(rows, tenant)), policy, epoch).Some?
      ensures ok <==> tenant !in old(rows) || old(rows)[tenant].epoch <= epoch
      ensures ok ==> rows == old(rows)[tenant := EventState(policy, epoch)]
      ensures !ok ==> unchanged(this)
    {
      if tenant in rows && epoch < rows[tenant].epoch { return false; }
      rows := rows[tenant := EventState(policy, epoch)];
      return true;
    }
  }
}
