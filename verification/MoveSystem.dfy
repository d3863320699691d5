/** Any number of drivers moving one tenant at the same time (cells/move.go:185-545), as a step
    system. Every step is one atomic call on the table, the fence or the event barrier; a driver
    may stop for good before any step, and a call may fail before or after its effect. */
module MoveSystem {
  import opened Options
  import opened Runs
  import opened Routes
  import opened Planes

  /** `fenced`/`evented` say whether the controllers were given a Fencer and an EventBarrier. */
  datatype Config = Config(fenced: bool, evented: bool, tenant: string, defaultCell: string)

  /** What continueMove fixes on entry; the commit epoch is one above the barrier. */
  datatype Locals = Locals(barrierEpoch: nat, target: string)

  /** A driver between two atomic calls; `seen` is the record its next compare-and-set expects. */
  datatype Pc =
    | Idle
    | Begin(seen: TenantRoute, plan: MovePlan, id: string, deadline: nat)
    | BeginReread(seen: TenantRoute)
    | Phase(loc: Locals, seen: TenantRoute)
    | Sealed(loc: Locals, seen: TenantRoute)
    | Paused(loc: Locals, seen: TenantRoute)
    | Owned(loc: Locals, seen: TenantRoute)
    | Resumed(loc: Locals, seen: TenantRoute)
    | Reread(loc: Locals, seen: TenantRoute, wanted: State)
    | RollbackRead
    | RollbackOwn(seen: TenantRoute)
    | RollbackEvents(seen: TenantRoute)
    | RollbackCas(seen: TenantRoute)
    | AssignOwn(cell: string, operator: string)
    | AssignCas(cell: string, operator: string)

  /** `history` lists every record ever stored, oldest first. */
  datatype Shared = Shared(table: Option<TenantRoute>, fence: Option<Fence>, events: Option<EventState>,
                           history: seq<TenantRoute>)

  /** The fencing identity of an admitted call. */
  datatype Token = Token(cell: string, epoch: nat)

  /** `tokens` were issued by routers, `writes` passed the fence, both in order. */
  datatype System = System(shared: Shared, drivers: map<nat, Pc>, tokens: seq<Token>, writes: seq<Token>)

  datatype Op = Move(plan: MovePlan, id: string, deadline: nat) | Resume | Rollback | Assign(cell: string, operator: string)

  /** How a call ends for its driver: normally, refused without effect, or done but unacknowledged. */
  datatype Weather = Fine | Refused | Unacked

  datatype Event =
    | Start(driver: nat, op: Op, late: bool)
    | Step(driver: nat, weather: Weather)
    | Stop(driver: nat)
    | Admit(record: nat)
    | AdmitDefault
    | Write(token: nat)

  // ----- one driver

  function Store(sh: Shared, r: TenantRoute): Shared {
    sh.(table := Some(r), history := sh.history + [r])
  }

  /** The first read of an operation. `late` answers "is the move past its deadline". */
  function Started(c: Config, sh: Shared, op: Op, late: bool): Pc {
    match op
    case Rollback => RollbackRead
    case Resume => if sh.table.None? then Idle else ResumeFrom(sh.table.value, late)
    case Assign(cell, operator) =>
      if sh.table.None? then AssignOwn(cell, operator) else Idle // an existing route is a Move
    case Move(plan, id, deadline) =>
      if plan.fromCell == plan.toCell || sh.table.None? then Idle
      else
        var cur := sh.table.value;
        if !cur.state.AdmitsNew() then ResumeFrom(cur, late)
        else if cur.activeCell == plan.toCell then Idle
        else Begin(cur, plan, id, deadline)
  }

  function ResumeFrom(cur: TenantRoute, late: bool): Pc {
    if cur.state.AdmitsNew() then Idle
    else if cur.state != Committing && cur.deadline != 0 && late then RollbackRead
    else Phase(Locals(cur.barrierEpoch, cur.targetCell), cur)
  }

  /** A phase's compare-and-set inside continueMove. */
  function CasPhase(sh: Shared, loc: Locals, seen: TenantRoute, next: TenantRoute): (Shared, Pc) {
    match CasVerdict(sh.table, seen, next)
    case CasOk => (Store(sh, next), if next.state == Active then Idle else Phase(loc, next))
    case CasConflict => (sh, Reread(loc, seen, next.state))
    case CasRegression => (sh, RollbackRead)
  }

  function FencePhase(c: Config, sh: Shared, to: Option<Fence>, done: Pc, failed: Pc): (Shared, Pc) {
    if !c.fenced then (sh, done)
    else if to.None? then (sh, failed)
    else (sh.(fence := to), done)
  }

  function EventPhase(c: Config, sh: Shared, policy: EventPolicy, epoch: nat, done: Pc, failed: Pc): (Shared, Pc) {
    if !c.evented then (sh, done)
    else
      var to := SetEvents(sh.events, policy, epoch);
      if to.None? then (sh, failed) else (sh.(events := to), done)
  }

  /** One atomic call of a driver. */
  function Advance(c: Config, sh: Shared, pc: Pc): (Shared, Pc) {
    match pc
    case Idle => (sh, Idle)
    case Begin(seen, plan, id, deadline) =>
      var next := Begun(seen, plan, id, deadline);
      (match CasVerdict(sh.table, seen, next)
       case CasOk => (Store(sh, next), Phase(Locals(next.barrierEpoch, next.targetCell), next))
       case CasConflict => (sh, BeginReread(seen))
       case CasRegression => (sh, RollbackRead))
    case BeginReread(seen) =>
      if sh.table.Some? && sh.table.value.state == Quiescing && sh.table.value.routeEpoch >= seen.routeEpoch
      then (sh, Phase(Locals(sh.table.value.barrierEpoch, sh.table.value.targetCell), sh.table.value))
      else (sh, RollbackRead)
    case Phase(loc, seen) =>
      (match seen.state
       case Quiescing => CasPhase(sh, loc, seen, seen.(state := Draining))
       case Draining =>
         FencePhase(c, sh, SealFence(sh.fence, loc.barrierEpoch), Sealed(loc, seen), RollbackRead)
       case Copying => CasPhase(sh, loc, seen, seen.(state := Committing))
       case Committing =>
         FencePhase(c, sh, OwnFence(sh.fence, loc.target, loc.barrierEpoch + 1), Owned(loc, seen), RollbackRead)
       case _ => (sh, Idle))
    case Sealed(loc, seen) => EventPhase(c, sh, Pause, loc.barrierEpoch, Paused(loc, seen), RollbackRead)
    case Paused(loc, seen) => CasPhase(sh, loc, seen, Caught(seen, loc.barrierEpoch))
    case Owned(loc, seen) => EventPhase(c, sh, Normal, loc.barrierEpoch + 1, Resumed(loc, seen), RollbackRead)
    case Resumed(loc, seen) => CasPhase(sh, loc, seen, Rested(seen, loc.target, loc.barrierEpoch + 1))
    case Reread(loc, seen, wanted) =>
      if sh.table.Some? && sh.table.value.state == wanted && sh.table.value.routeEpoch >= seen.routeEpoch
      then (sh, Phase(loc, sh.table.value)) // adopts the stored record, keeps its own locals
      else (sh, RollbackRead)
    case RollbackRead =>
      if sh.table.None? || sh.table.value.state.AdmitsNew() then (sh, Idle) else (sh, RollbackOwn(sh.table.value))
    case RollbackOwn(seen) =>
      FencePhase(c, sh, OwnFence(sh.fence, RollbackCell(seen), RollbackEpoch(seen)), RollbackEvents(seen), Idle)
    case RollbackEvents(seen) => EventPhase(c, sh, Normal, RollbackEpoch(seen), RollbackCas(seen), Idle)
    case RollbackCas(seen) =>
      var next := Rested(seen, RollbackCell(seen), RollbackEpoch(seen));
      (match CasVerdict(sh.table, seen, next)
       case CasOk => (Store(sh, next), Idle)
       case CasConflict => (sh, RollbackRead)
       case CasRegression => (sh, Idle))
    case AssignOwn(cell, operator) =>
      FencePhase(c, sh, OwnFence(sh.fence, cell, 1), AssignCas(cell, operator), Idle)
    case AssignCas(cell, operator) =>
      var next := Placed(c.tenant, cell, operator);
      if CasVerdict(sh.table, ZERO_ROUTE, next).CasOk? then (Store(sh, next), Idle) else (sh, Idle)
  }

  /** A failed call inside Move or Resume is followed by a rollback. */
  function OnError(pc: Pc): Pc {
    match pc
    case Idle | RollbackRead | RollbackOwn(_) | RollbackEvents(_) | RollbackCas(_) | AssignOwn(_, _) | AssignCas(_, _) => Idle
    case _ => RollbackRead
  }

  // ----- the system

  function PcOf(s: System, d: nat): Pc { if d in s.drivers then s.drivers[d] else Idle }

  /** The token of a call routed by the stored record `r` (cells/router.go:172-187). */
  function TokenOf(c: Config, r: TenantRoute): Token {
    Token(if r.activeCell == "" then c.defaultCell else r.activeCell, r.routeEpoch)
  }

  function Apply(c: Config, s: System, e: Event): System {
    match e
    case Start(d, op, late) =>
      if PcOf(s, d).Idle? then s.(drivers := s.drivers[d := Started(c, s.shared, op, late)]) else s
    case Step(d, weather) =>
      var pc := PcOf(s, d);
      var (sh, to) := Advance(c, s.shared, pc);
      s.(shared := if weather.Refused? then s.shared else sh,
         drivers := s.drivers[d := if weather.Fine? then to else OnError(pc)])
    case Stop(d) => s.(drivers := s.drivers[d := Idle])
    case Admit(i) =>
      if i < |s.shared.history| && s.shared.history[i].state.AdmitsNew()
      then s.(tokens := s.tokens + [TokenOf(c, s.shared.history[i])]) else s
    case AdmitDefault => s.(tokens := s.tokens + [Token(c.defaultCell, 0)])
    case Write(k) =>
      if k < |s.tokens| && FenceAllows(s.shared.fence, s.tokens[k].cell, s.tokens[k].epoch)
      then s.(writes := s.writes + [s.tokens[k]]) else s
  }

  function Stepper(c: Config): (System, Event) -> System { (s: System, e: Event) => Apply(c, s, e) }

  function Run(c: Config, s: System, es: seq<Event>): System { Fold(Stepper(c), s, es) }

  const INIT := System(Shared(None, None, None, []), map[], [], [])

  // ----- what is promised

  /** Strictly later in (route epoch, phase rank). */
  predicate Below(a: TenantRoute, b: TenantRoute) {
    a.routeEpoch < b.routeEpoch || (a.routeEpoch == b.routeEpoch && a.state.Rank() < b.state.Rank())
  }

  /** No (epoch, rank) pair is stored twice and pairs only rise. */
  ghost predicate Rising(h: seq<TenantRoute>) {
    forall i, j :: 0 <= i < j < |h| ==> Below(h[i], h[j])
  }

  ghost predicate SingleWriter(ws: seq<Token>) {
    forall i, j :: 0 <= i < j < |ws| ==>
      ws[i].epoch <= ws[j].epoch && (ws[i].epoch == ws[j].epoch ==> ws[i].cell == ws[j].cell)
  }

  // ----- the invariant

  predicate Guarded(c: Config) { c.fenced || c.evented }

  /** The epoch of the forward-only plane that stops stale drivers: the fence, else the events. */
  function Guard(c: Config, sh: Shared): nat {
    if c.fenced then FenceEpoch(sh.fence) else if sh.events.Some? then sh.events.value.epoch else 1
  }

  /** Resting epochs are odd and barriers even, so no two calls of different kinds share one. */
  predicate Proper(r: TenantRoute) {
    && (r.state == Active || r.state.IsMoving())
    && r.routeEpoch % 2 == 1
    && (r.state.IsMoving() ==> r.barrierEpoch == r.routeEpoch + 1)
  }

  predicate Behind(guard: nat, r: TenantRoute) {
    r.routeEpoch <= guard && (r.state.Rank() >= 3 ==> r.routeEpoch < guard)
  }

  ghost predicate SharedInv(c: Config, sh: Shared) {
    && Rising(sh.history)
    && sh.table == (if sh.history == [] then None else Some(sh.history[|sh.history| - 1]))
    && (forall i :: 0 <= i < |sh.history| ==> Proper(sh.history[i]) && Behind(Guard(c, sh), sh.history[i]))
    && (forall i, j :: 0 <= i < j < |sh.history| && sh.history[i].routeEpoch == sh.history[j].routeEpoch ==>
          sh.history[i].activeCell == sh.history[j].activeCell)
    && (sh.fence.Some? ==> sh.fence.value.epoch > 0)
    && (sh.events.Some? ==> sh.events.value.epoch > 0)
  }

  /** Locals may be older than the adopted record, never newer. */
  ghost predicate Holds(sh: Shared, loc: Locals, r: TenantRoute) {
    r in sh.history && loc.barrierEpoch % 2 == 0 && 0 < loc.barrierEpoch <= r.routeEpoch + 1
  }

  /** Past the guarding call the locals do match the record. */
  ghost predicate Matches(c: Config, sh: Shared, loc: Locals, r: TenantRoute, epoch: nat) {
    Holds(sh, loc, r) && loc.barrierEpoch == r.routeEpoch + 1 && epoch <= Guard(c, sh)
  }

  ghost predicate PcInv(c: Config, sh: Shared, pc: Pc) {
    match pc
    case Begin(r, _, _, _) => r in sh.history && r.state == Active
    case BeginReread(r) => r in sh.history
    case Phase(loc, r) => Holds(sh, loc, r)
    case Reread(loc, r, _) => Holds(sh, loc, r)
    case Sealed(loc, r) => r.state == Draining && Holds(sh, loc, r) && (c.fenced ==> Matches(c, sh, loc, r, loc.barrierEpoch))
    case Paused(loc, r) => r.state == Draining && Matches(c, sh, loc, r, loc.barrierEpoch)
    case Owned(loc, r) => r.state == Committing && Holds(sh, loc, r) && (c.fenced ==> Matches(c, sh, loc, r, loc.barrierEpoch + 1))
    case Resumed(loc, r) => r.state == Committing && Matches(c, sh, loc, r, loc.barrierEpoch + 1)
    case RollbackOwn(r) => r in sh.history && r.state.IsMoving()
    case RollbackEvents(r) => r in sh.history && r.state.IsMoving() && (c.fenced ==> RollbackEpoch(r) <= Guard(c, sh))
    case RollbackCas(r) => r in sh.history && r.state.IsMoving() && RollbackEpoch(r) <= Guard(c, sh)
    case AssignCas(_, _) => 1 <= Guard(c, sh)
    case _ => true
  }

  /** Everything the invariant says about a driver in `sh` survives in `sh'`. */
  ghost predicate Later(c: Config, sh: Shared, sh': Shared) {
    sh.history <= sh'.history && Guard(c, sh) <= Guard(c, sh')
  }

  ghost predicate Kept(c: Config, sh: Shared, pc: Pc) {
    var (sh', pc') := Advance(c, sh, pc);
    SharedInv(c, sh') && Later(c, sh, sh') && PcInv(c, sh', pc')
  }

  /** The two-field precondition succeeds only against exactly the record the driver holds. */
  lemma CasHitsExactRecord(c: Config, sh: Shared, seen: TenantRoute, next: TenantRoute)
    requires SharedInv(c, sh) && seen in sh.history && CasVerdict(sh.table, seen, next).CasOk?
    ensures sh.table == Some(seen)
  {
    var i :| 0 <= i < |sh.history| && sh.history[i] == seen;
    var last := |sh.history| - 1;
    assert !Below(seen, sh.history[last]);
    assert i == last;
  }

  lemma ProperOf(c: Config, sh: Shared, r: TenantRoute)
    requires SharedInv(c, sh) && r in sh.history
    ensures Proper(r) && Behind(Guard(c, sh), r)
  {}

  /** Storing a record above the current one, no higher than the guard, keeps the invariant. */
  lemma StoreKeeps(c: Config, sh: Shared, next: TenantRoute)
    requires SharedInv(c, sh) && Proper(next) && Behind(Guard(c, sh), next)
    requires sh.table.Some? ==> Below(sh.table.value, next)
    requires sh.table.Some? && sh.table.value.routeEpoch == next.routeEpoch ==> sh.table.value.activeCell == next.activeCell
    ensures SharedInv(c, Store(sh, next)) && Later(c, sh, Store(sh, next)) && next in Store(sh, next).history
  {
    var h, h' := sh.history, Store(sh, next).history;
    forall i | 0 <= i < |h|
      ensures Below(h[i], next)
      ensures h[i].routeEpoch == next.routeEpoch ==> h[i].activeCell == next.activeCell
    {
      var last := h[|h| - 1];
      if i < |h| - 1 { assert Below(h[i], last); }
    }
    assert h'[|h|] == next;
    assert forall i :: 0 <= i < |h| ==> h'[i] == h[i];
  }

  /** Moving the planes forward keeps the invariant of the shared state. */
  lemma PlanesKeep(c: Config, sh: Shared, sh': Shared)
    requires SharedInv(c, sh) && sh'.table == sh.table && sh'.history == sh.history && Guard(c, sh) <= Guard(c, sh')
    requires (sh'.fence.Some? ==> sh'.fence.value.epoch > 0) && (sh'.events.Some? ==> sh'.events.value.epoch > 0)
    ensures SharedInv(c, sh') && Later(c, sh, sh')
  {
    assert forall i :: 0 <= i < |sh.history| ==> Behind(Guard(c, sh), sh.history[i]);
  }

  /** A phase's compare-and-set: it stores only above `seen`, or leaves everything as it was. */
  lemma CasPhaseKeeps(c: Config, sh: Shared, loc: Locals, seen: TenantRoute, next: TenantRoute)
    requires SharedInv(c, sh) && Holds(sh, loc, seen) && Proper(next) && Below(seen, next)
    requires next.routeEpoch == seen.routeEpoch ==> next.activeCell == seen.activeCell
    requires Behind(Guard(c, sh), seen) ==> Behind(Guard(c, sh), next)
    ensures var (sh', pc') := CasPhase(sh, loc, seen, next); SharedInv(c, sh') && Later(c, sh, sh') && PcInv(c, sh', pc')
  {
    ProperOf(c, sh, seen);
    if CasVerdict(sh.table, seen, next).CasOk? {
      CasHitsExactRecord(c, sh, seen, next);
      StoreKeeps(c, sh, next);
    }
  }

  /** The stale-locals cases: a fence call that succeeds proves the locals are current. */
  lemma FenceKeeps(c: Config, sh: Shared, loc: Locals, r: TenantRoute)
    requires SharedInv(c, sh) && Holds(sh, loc, r) && (r.state == Draining || r.state == Committing)
    ensures Kept(c, sh, Phase(loc, r))
  {
    ProperOf(c, sh, r);
    PlanesKeep(c, sh, Advance(c, sh, Phase(loc, r)).0);
  }

  lemma PhaseKeeps(c: Config, sh: Shared, loc: Locals, r: TenantRoute)
    requires SharedInv(c, sh) && Holds(sh, loc, r)
    ensures Kept(c, sh, Phase(loc, r))
  {
    ProperOf(c, sh, r);
    match r.state {
      case Quiescing => CasPhaseKeeps(c, sh, loc, r, r.(state := Draining));
      case Copying => CasPhaseKeeps(c, sh, loc, r, r.(state := Committing));
      case Draining => FenceKeeps(c, sh, loc, r);
      case Committing => FenceKeeps(c, sh, loc, r);
      case _ =>
    }
  }

  /** Without a fence the event barrier's own forward-only epoch stops the stale driver: at the
      pause, at the resume and in a rollback. */
  lemma EventPauseKeeps(c: Config, sh: Shared, loc: Locals, r: TenantRoute)
    requires Guarded(c) && SharedInv(c, sh) && PcInv(c, sh, Sealed(loc, r))
    ensures Kept(c, sh, Sealed(loc, r))
  {
    ProperOf(c, sh, r);
    PlanesKeep(c, sh, Advance(c, sh, Sealed(loc, r)).0);
  }

  lemma EventResumeKeeps(c: Config, sh: Shared, loc: Locals, r: TenantRoute)
    requires Guarded(c) && SharedInv(c, sh) && PcInv(c, sh, Owned(loc, r))
    ensures Kept(c, sh, Owned(loc, r))
  {
    ProperOf(c, sh, r);
    PlanesKeep(c, sh, Advance(c, sh, Owned(loc, r)).0);
  }

  lemma EventRollbackKeeps(c: Config, sh: Shared, r: TenantRoute)
    requires Guarded(c) && SharedInv(c, sh) && PcInv(c, sh, RollbackEvents(r))
    ensures Kept(c, sh, RollbackEvents(r))
  {
    ProperOf(c, sh, r);
    PlanesKeep(c, sh, Advance(c, sh, RollbackEvents(r)).0);
  }

  lemma EventsKeep(c: Config, sh: Shared, pc: Pc)
    requires Guarded(c) && SharedInv(c, sh) && PcInv(c, sh, pc) && (pc.Sealed? || pc.Owned? || pc.RollbackEvents?)
    ensures Kept(c, sh, pc)
  {
    match pc {
      case Sealed(loc, r) => EventPauseKeeps(c, sh, loc, r);
      case Owned(loc, r) => EventResumeKeeps(c, sh, loc, r);
      case RollbackEvents(r) => EventRollbackKeeps(c, sh, r);
    }
  }

  lemma PauseKeeps(c: Config, sh: Shared, loc: Locals, r: TenantRoute)
    requires SharedInv(c, sh) && PcInv(c, sh, Paused(loc, r))
    ensures Kept(c, sh, Paused(loc, r))
  {
    ProperOf(c, sh, r);
    CasPhaseKeeps(c, sh, loc, r, Caught(r, loc.barrierEpoch));
  }

  lemma CommitKeeps(c: Config, sh: Shared, loc: Locals, r: TenantRoute)
    requires SharedInv(c, sh) && PcInv(c, sh, Resumed(loc, r))
    ensures Kept(c, sh, Resumed(loc, r))
  {
    ProperOf(c, sh, r);
    CasPhaseKeeps(c, sh, loc, r, Rested(r, loc.target, loc.barrierEpoch + 1));
  }

  lemma BeginKeeps(c: Config, sh: Shared, pc: Pc)
    requires SharedInv(c, sh) && PcInv(c, sh, pc) && pc.Begin?
    ensures Kept(c, sh, pc)
  {
    var next := Begun(pc.seen, pc.plan, pc.id, pc.deadline);
    ProperOf(c, sh, pc.seen);
    if CasVerdict(sh.table, pc.seen, next).CasOk? {
      CasHitsExactRecord(c, sh, pc.seen, next);
      StoreKeeps(c, sh, next);
    }
  }

  lemma RollbackKeeps(c: Config, sh: Shared, pc: Pc)
    requires SharedInv(c, sh) && PcInv(c, sh, pc) && (pc.RollbackOwn? || pc.RollbackCas?)
    ensures Kept(c, sh, pc)
  {
    var r := pc.seen;
    ProperOf(c, sh, r);
    if pc.RollbackOwn? {
      PlanesKeep(c, sh, Advance(c, sh, pc).0);
    } else {
      var next := Rested(r, RollbackCell(r), RollbackEpoch(r));
      if CasVerdict(sh.table, r, next).CasOk? {
        CasHitsExactRecord(c, sh, r, next);
        StoreKeeps(c, sh, next);
      }
    }
  }

  lemma AssignKeeps(c: Config, sh: Shared, pc: Pc)
    requires SharedInv(c, sh) && PcInv(c, sh, pc) && (pc.AssignOwn? || pc.AssignCas?)
    ensures Kept(c, sh, pc)
  {
    if pc.AssignOwn? {
      PlanesKeep(c, sh, Advance(c, sh, pc).0);
    } else {
      var next := Placed(c.tenant, pc.cell, pc.operator);
      if CasVerdict(sh.table, ZERO_ROUTE, next).CasOk? { StoreKeeps(c, sh, next); }
    }
  }

  lemma ReadsKeep(c: Config, sh: Shared, pc: Pc)
    requires SharedInv(c, sh) && PcInv(c, sh, pc)
    requires pc.Idle? || pc.BeginReread? || pc.Reread? || pc.RollbackRead?
    ensures Kept(c, sh, pc)
  {
    if sh.table.Some? { ProperOf(c, sh, sh.table.value); }
  }

  /** Every atomic call of every driver keeps the invariant. */
  lemma AdvanceKeeps(c: Config, sh: Shared, pc: Pc)
    requires Guarded(c) && SharedInv(c, sh) && PcInv(c, sh, pc)
    ensures Kept(c, sh, pc)
  {
    match pc {
      case Begin(_, _, _, _) => BeginKeeps(c, sh, pc);
      case Phase(loc, r) => PhaseKeeps(c, sh, loc, r);
      case Paused(loc, r) => PauseKeeps(c, sh, loc, r);
      case Resumed(loc, r) => CommitKeeps(c, sh, loc, r);
      case Sealed(_, _) => EventsKeep(c, sh, pc);
      case Owned(_, _) => EventsKeep(c, sh, pc);
      case RollbackEvents(_) => EventsKeep(c, sh, pc);
      case RollbackOwn(_) => RollbackKeeps(c, sh, pc);
      case RollbackCas(_) => RollbackKeeps(c, sh, pc);
      case AssignOwn(_, _) => AssignKeeps(c, sh, pc);
      case AssignCas(_, _) => AssignKeeps(c, sh, pc);
      case _ => ReadsKeep(c, sh, pc);
    }
  }

  // ----- tokens and writes

  ghost predicate TokenInv(c: Config, sh: Shared, t: Token) {
    if t.epoch == 0 then t.cell == c.defaultCell
    else exists i :: 0 <= i < |sh.history| && t == TokenOf(c, sh.history[i])
  }

  ghost predicate Inv(c: Config, s: System) {
    && SharedInv(c, s.shared)
    && (forall d :: d in s.drivers ==> PcInv(c, s.shared, s.drivers[d]))
    && (forall k :: 0 <= k < |s.tokens| ==> TokenInv(c, s.shared, s.tokens[k]))
    && (forall k :: 0 <= k < |s.writes| ==> TokenInv(c, s.shared, s.writes[k]))
    && (c.fenced ==> SingleWriter(s.writes))
    && (c.fenced ==> forall k :: 0 <= k < |s.writes| ==> s.writes[k].epoch <= FenceEpoch(s.shared.fence))
  }

  lemma PcStable(c: Config, sh: Shared, sh': Shared, pc: Pc)
    requires Later(c, sh, sh') && PcInv(c, sh, pc)
    ensures PcInv(c, sh', pc)
  {}

  lemma TokenStable(c: Config, sh: Shared, sh': Shared, t: Token)
    requires Later(c, sh, sh') && TokenInv(c, sh, t)
    ensures TokenInv(c, sh', t)
  {
    if t.epoch != 0 {
      var i :| 0 <= i < |sh.history| && t == TokenOf(c, sh.history[i]);
      assert sh'.history[i] == sh.history[i];
    }
  }

  lemma SameEpochSameCell(c: Config, sh: Shared, a: Token, b: Token)
    requires SharedInv(c, sh) && TokenInv(c, sh, a) && TokenInv(c, sh, b) && a.epoch == b.epoch
    ensures a.cell == b.cell
  {
    if a.epoch != 0 {
      var i :| 0 <= i < |sh.history| && a == TokenOf(c, sh.history[i]);
      var j :| 0 <= j < |sh.history| && b == TokenOf(c, sh.history[j]);
    }
  }

  lemma WriteKeeps(c: Config, s: System, k: nat)
    requires Inv(c, s)
    ensures Inv(c, Apply(c, s, Write(k)))
  {
    if k < |s.tokens| && FenceAllows(s.shared.fence, s.tokens[k].cell, s.tokens[k].epoch) {
      var t := s.tokens[k];
      forall i | 0 <= i < |s.writes| && s.writes[i].epoch == t.epoch ensures s.writes[i].cell == t.cell {
        SameEpochSameCell(c, s.shared, s.writes[i], t);
      }
      if s.shared.fence.None? && c.fenced {
        assert s.shared.history != [] ==> Behind(Guard(c, s.shared), s.shared.history[0]);
        assert t.epoch == 0;
      }
    }
  }

  /** A write lands exactly when its tenant was never fenced, or the fence is unsealed and held by the
      writing cell at the epoch of its token: nobody but the fence's owner writes past it. */
  lemma LandsExactly(c: Config, s: System, k: nat)
    requires k < |s.tokens|
    ensures Apply(c, s, Write(k)).writes == s.writes + (if s.shared.fence.None? || s.shared.fence.value == Fence(s.tokens[k].cell, s.tokens[k].epoch, false) then [s.tokens[k]] else [])
  {}

  lemma StepKeeps(c: Config, s: System, d: nat, weather: Weather)
    requires Guarded(c) && Inv(c, s)
    ensures Inv(c, Apply(c, s, Step(d, weather)))
  {
    var s' := Apply(c, s, Step(d, weather));
    AdvanceKeeps(c, s.shared, PcOf(s, d));
    forall k | k in s'.drivers ensures PcInv(c, s'.shared, s'.drivers[k]) {
      if k != d { PcStable(c, s.shared, s'.shared, s.drivers[k]); }
    }
    forall k | 0 <= k < |s.tokens| ensures TokenInv(c, s'.shared, s.tokens[k]) {
      TokenStable(c, s.shared, s'.shared, s.tokens[k]);
    }
    forall k | 0 <= k < |s.writes| ensures TokenInv(c, s'.shared, s.writes[k]) {
      TokenStable(c, s.shared, s'.shared, s.writes[k]);
    }
  }

  lemma StartKeeps(c: Config, s: System, d: nat, op: Op, late: bool)
    requires Inv(c, s)
    ensures Inv(c, Apply(c, s, Start(d, op, late)))
  {
    if s.shared.table.Some? { ProperOf(c, s.shared, s.shared.table.value); }
    assert PcInv(c, s.shared, Started(c, s.shared, op, late));
  }

  lemma AdmitKeeps(c: Config, s: System, i: nat)
    requires Inv(c, s)
    ensures Inv(c, Apply(c, s, Admit(i)))
  {
    if i < |s.shared.history| { assert TokenInv(c, s.shared, TokenOf(c, s.shared.history[i])); }
  }

  lemma {:induction false} RunKeeps(c: Config, s: System, es: seq<Event>)
    requires Guarded(c) && Inv(c, s)
    ensures Inv(c, Run(c, s, es))
    decreases |es|
  {
    if es != [] {
      match es[0] {
        case Start(d, op, late) => StartKeeps(c, s, d, op, late);
        case Step(d, weather) => StepKeeps(c, s, d, weather);
        case Admit(i) => AdmitKeeps(c, s, i);
        case Write(k) => WriteKeeps(c, s, k);
        case _ =>
      }
      RunKeeps(c, Apply(c, s, es[0]), es[1..]);
    }
  }

  // ----- the theorems

  /** In every interleaving of any number of drivers, with a fence or an event barrier, stored
      records rise strictly; with a fence, two landed writes of one epoch come from one cell and
      landed epochs never go down. Every routed write comes from the record of its epoch. */
  lemma ConcurrentSafety(c: Config, es: seq<Event>)
    ensures Guarded(c) ==> Rising(Run(c, INIT, es).shared.history)
    ensures c.fenced ==> SingleWriter(Run(c, INIT, es).writes)
    ensures Guarded(c) ==> forall w :: w in Run(c, INIT, es).writes ==>
              w == Token(c.defaultCell, 0) || exists r :: r in Run(c, INIT, es).shared.history && w == TokenOf(c, r)
  {
    if Guarded(c) {
      RunKeeps(c, INIT, es);
      var s := Run(c, INIT, es);
      forall w | w in s.writes && w != Token(c.defaultCell, 0)
        ensures exists r :: r in s.shared.history && w == TokenOf(c, r)
      {
        var k :| 0 <= k < |s.writes| && s.writes[k] == w;
        assert TokenInv(c, s.shared, w);
        var i :| 0 <= i < |s.shared.history| && w == TokenOf(c, s.shared.history[i]);
        assert s.shared.history[i] in s.shared.history;
      }
    }
  }
}
