/** Per-tenant admission gates of one instance (cells/gate.go). A gate is a value in the registry's
    map; waiting on the condition variable is a run of other callers' operations. */
module Gates {
  import opened Options
  import opened Runs
  import opened Routes

  datatype GateState = GateOpen | GateDraining | GateClosed

  datatype Gate = Gate(routeEpoch: nat, state: GateState, accepting: bool, nextSeq: nat, cutoffSeq: nat,
                       barrierEpoch: nat, inflight: set<nat>)

  datatype GateOp = TryEnter(epoch: nat) | Leave(seqNo: nat) | Open(epoch: nat) | Drain(barrierEpoch: nat) | Close

  datatype Admission = Admitted(seqNo: nat) | TenantDraining | StaleEpoch

  datatype Token = Token(tenantId: string, cellId: string, instanceId: string, routeEpoch: nat, seqNo: nat)

  datatype Cutoff = Cutoff(tenantId: string, instanceId: string, barrierEpoch: nat, maxSeq: nat, drained: bool, forced: bool)

  // ----- one gate

  function GetOrCreate(g: Option<Gate>, epoch: nat): Gate {
    if g.Some? then g.value else Gate(epoch, GateOpen, true, 0, 0, 0, {})
  }

  function Verdict(g: Gate, epoch: nat): Admission {
    if g.state != GateOpen || !g.accepting then TenantDraining
    else if epoch != g.routeEpoch then StaleEpoch
    else Admitted(g.nextSeq + 1)
  }

  /** The gate after one operation. Only `Leave` does not create a missing gate. */
  function After(g: Option<Gate>, op: GateOp): Option<Gate> {
    match op
    case TryEnter(epoch) =>
      var x := GetOrCreate(g, epoch);
      if Verdict(x, epoch).Admitted? then Some(x.(nextSeq := x.nextSeq + 1, inflight := x.inflight + {x.nextSeq + 1})) else Some(x)
    case Leave(n) => if g.None? then None else Some(g.value.(inflight := g.value.inflight - {n}))
    case Open(epoch) =>
      var x := GetOrCreate(g, epoch);
      if epoch >= x.routeEpoch then Some(x.(routeEpoch := epoch, state := GateOpen, accepting := true)) else Some(x)
    case Drain(b) =>
      var x := GetOrCreate(g, 0);
      if x.state != GateClosed
      then Some(x.(state := GateDraining, accepting := false, barrierEpoch := b, cutoffSeq := x.nextSeq)) else Some(x)
    case Close => Some(GetOrCreate(g, 0).(state := GateClosed, accepting := false))
  }

  function AfterAll(g: Option<Gate>, ops: seq<GateOp>): Option<Gate> { Fold(After, g, ops) }

  /** An issued admission: its number and the epoch of the route the caller came by. */
  datatype Pass = Pass(seqNo: nat, epoch: nat)

  /** The admissions issued along a run. */
  function Issued(g: Option<Gate>, ops: seq<GateOp>): seq<Pass>
    decreases |ops|
  {
    if ops == [] then []
    else
      (if ops[0].TryEnter? && Verdict(GetOrCreate(g, ops[0].epoch), ops[0].epoch).Admitted?
       then [Pass(Verdict(GetOrCreate(g, ops[0].epoch), ops[0].epoch).seqNo, ops[0].epoch)] else [])
      + Issued(After(g, ops[0]), ops[1..])
  }

  ghost predicate GateInv(g: Option<Gate>) {
    g.Some? ==>
      && (g.value.accepting <==> g.value.state == GateOpen)
      && g.value.cutoffSeq <= g.value.nextSeq
      && forall n :: n in g.value.inflight ==> 0 < n <= g.value.nextSeq
  }

  function LastSeq(g: Option<Gate>): nat { if g.Some? then g.value.nextSeq else 0 }
  function LastEpoch(g: Option<Gate>): nat { if g.Some? then g.value.routeEpoch else 0 }

  lemma AfterKeeps(g: Option<Gate>, op: GateOp)
    requires GateInv(g)
    ensures GateInv(After(g, op)) && LastSeq(g) <= LastSeq(After(g, op)) && LastEpoch(g) <= LastEpoch(After(g, op))
  {}

  /** Over every run the epoch never falls, numbers come out strictly increasing, every number in
      flight was issued, and every admission is of an epoch between the gate's first and last. */
  lemma {:induction false} RunKeeps(g: Option<Gate>, ops: seq<GateOp>)
    requires GateInv(g)
    ensures GateInv(AfterAll(g, ops)) && LastEpoch(g) <= LastEpoch(AfterAll(g, ops))
    ensures forall i :: 0 <= i < |Issued(g, ops)| ==> LastSeq(g) < Issued(g, ops)[i].seqNo <= LastSeq(AfterAll(g, ops))
    ensures forall i, j :: 0 <= i < j < |Issued(g, ops)| ==> Issued(g, ops)[i].seqNo < Issued(g, ops)[j].seqNo
    ensures LastSeq(g) <= LastSeq(AfterAll(g, ops))
    ensures forall i :: 0 <= i < |Issued(g, ops)| ==> LastEpoch(g) <= Issued(g, ops)[i].epoch <= LastEpoch(AfterAll(g, ops))
    ensures forall i, j :: 0 <= i < j < |Issued(g, ops)| ==> Issued(g, ops)[i].epoch <= Issued(g, ops)[j].epoch
    decreases |ops|
  {
    if ops != [] {
      AfterKeeps(g, ops[0]);
      RunKeeps(After(g, ops[0]), ops[1..]);
    }
  }

  /** After any run a call is admitted, under the next number, exactly when there is no gate yet or the
      gate is open, accepting and of the call's epoch. */
  lemma {:induction false} AdmittedExactly(g: Option<Gate>, ops: seq<GateOp>, epoch: nat)
    ensures var x := AfterAll(g, ops);
            Issued(g, ops + [TryEnter(epoch)]) == Issued(g, ops) +
              if x.None? then [Pass(1, epoch)]
              else if x.value.state == GateOpen && x.value.accepting && x.value.routeEpoch == epoch then [Pass(x.value.nextSeq + 1, epoch)]
              else []
    decreases |ops|
  {
    if ops == [] {
      assert Issued(After(g, TryEnter(epoch)), [TryEnter(epoch)][1..]) == [];
      assert ops + [TryEnter(epoch)] == [TryEnter(epoch)];
    } else {
      assert (ops + [TryEnter(epoch)])[1..] == ops[1..] + [TryEnter(epoch)];
      AdmittedExactly(After(g, ops[0]), ops[1..], epoch);
    }
  }

  /** Once a gate was opened at an epoch, nobody is ever admitted below it. */
  lemma NoneBelowOpen(g: Option<Gate>, epoch: nat, ops: seq<GateOp>)
    requires GateInv(g)
    ensures forall i :: 0 <= i < |Issued(After(g, Open(epoch)), ops)| ==> epoch <= Issued(After(g, Open(epoch)), ops)[i].epoch
  {
    AfterKeeps(g, Open(epoch));
    RunKeeps(After(g, Open(epoch)), ops);
  }

  /** Barred: nothing was admitted since the cutoff was taken. */
  ghost predicate Barred(g: Option<Gate>, cutoff: nat) {
    && g.Some? && g.value.state != GateOpen && !g.value.accepting
    && g.value.nextSeq == cutoff
    && forall n :: n in g.value.inflight ==> n <= cutoff
  }

  lemma {:induction false} BarredUntilOpen(g: Option<Gate>, cutoff: nat, ops: seq<GateOp>)
    requires Barred(g, cutoff) && forall k :: 0 <= k < |ops| ==> !ops[k].Open?
    ensures Barred(AfterAll(g, ops), cutoff)
    ensures Issued(g, ops) == []
    ensures AfterAll(g, ops).value.inflight <= g.value.inflight
    decreases |ops|
  {
    if ops != [] { BarredUntilOpen(After(g, ops[0]), cutoff, ops[1..]); }
  }

  /** From the barrier flip of a gate that is not closed until the next Open: no admission, every
      number in flight is at most the cutoff, and a drained gate stays drained. */
  lemma BarrierHolds(g: Option<Gate>, b: nat, before: seq<GateOp>, after: seq<GateOp>)
    requires GateInv(g) && GetOrCreate(g, 0).state != GateClosed
    requires forall k :: 0 <= k < |before| ==> !before[k].Open?
    requires forall k :: 0 <= k < |after| ==> !after[k].Open?
    ensures var flipped := After(g, Drain(b));
            var mid := AfterAll(flipped, before);
            && Issued(flipped, before) == [] && Issued(mid, after) == []
            && Barred(mid, flipped.value.cutoffSeq) && Barred(AfterAll(mid, after), flipped.value.cutoffSeq)
            && (mid.value.inflight == {} ==> AfterAll(mid, after).value.inflight == {})
  {
    var flipped := After(g, Drain(b));
    BarredUntilOpen(flipped, flipped.value.cutoffSeq, before);
    BarredUntilOpen(AfterAll(flipped, before), flipped.value.cutoffSeq, after);
  }

  /** On a closed gate the flip keeps an old cutoff, so a number in flight may exceed it. */
  lemma ClosedGateCutoff()
    ensures var g := AfterAll(None, [TryEnter(7), Close]);
            && GateInv(g) && g.value.state == GateClosed
            && 1 in After(g, Drain(8)).value.inflight && After(g, Drain(8)).value.cutoffSeq == 0
  {
    var entered := After(None, TryEnter(7));
    assert [TryEnter(7), Close][1..] == [Close];
    assert AfterAll(entered, [Close]) == AfterAll(After(entered, Close), []);
  }

  ghost predicate CutsOff(g: Option<Gate>) {
    g.Some? && forall n :: n in g.value.inflight ==> n <= g.value.cutoffSeq
  }

  /** The flip leaves every number in flight at or below the cutoff for all gates in a state,
      exactly when that state is not CLOSED. */
  lemma FlipCutsOffUnlessClosed(st: GateState)
    ensures (forall g: Gate, b :: GateInv(Some(g)) && g.state == st ==> CutsOff(After(Some(g), Drain(b)))) <==> st != GateClosed
  {
    if st == GateClosed {
      var g := Gate(7, GateClosed, false, 1, 0, 0, {1});
      assert GateInv(Some(g)) && After(Some(g), Drain(8)) == Some(g) && 1 in g.inflight;
      assert !CutsOff(After(Some(g), Drain(8)));
    }
  }

  // ----- the registry

  class GateRegistry {
    const cellId: string
    const instanceId: string
    var gates: map<string, Gate>

    constructor (cellId: string, instanceId: string)
      ensures gates == map[] && this.cellId == (if cellId == "" then "default" else cellId) && this.instanceId == instanceId
    {
      this.cellId := if cellId == "" then "default" else cellId;
      this.instanceId := instanceId;
      gates := map[];
    }

    ghost function At(t: string): Option<Gate> reads this { if t in gates then Some(gates[t]) else None }

    ghost predicate Valid() reads this { forall t :: t in gates ==> GateInv(Some(gates[t])) }

    /** The map with `t`'s gate replaced by `to`. */
    ghost function With(m: map<string, Gate>, t: string, to: Option<Gate>): map<string, Gate> {
      if to.Some? then m[t := to.value] else m - {t}
    }

    method TryEnter(t: string, routeEpoch: nat) returns (token: Option<Token>, why: Admission)
      requires Valid()
      modifies this
      ensures Valid() && gates == With(old(gates), t, After(old(At(t)), GateOp.TryEnter(routeEpoch)))
      ensures why == Verdict(GetOrCreate(old(At(t)), routeEpoch), routeEpoch)
      ensures token.Some? <==> t !in old(gates) || (old(gates)[t].state == GateOpen && old(gates)[t].accepting && old(gates)[t].routeEpoch == routeEpoch)
      ensures why.StaleEpoch? <==> t in old(gates) && old(gates)[t].state == GateOpen && old(gates)[t].accepting && old(gates)[t].routeEpoch != routeEpoch
      ensures t in gates && (token.Some? ==> token.value.seqNo == (if t in old(gates) then old(gates)[t].nextSeq + 1 else 1))
      ensures token.Some? ==> token.value.seqNo == gates[t].nextSeq && token.value.seqNo in gates[t].inflight
      ensures token == (if why.Admitted? then Some(Token(t, cellId, instanceId, routeEpoch, why.seqNo)) else None)
    {
      if t !in gates { gates := gates[t := Gate(routeEpoch, GateOpen, true, 0, 0, 0, {})]; }
      var g := gates[t];
      if g.state != GateOpen || !g.accepting { return None, TenantDraining; }
      if routeEpoch != g.routeEpoch { return None, StaleEpoch; }
      var n := g.nextSeq + 1;
      gates := gates[t := g.(nextSeq := n, inflight := g.inflight + {n})];
      return Some(Token(t, cellId, instanceId, routeEpoch, n)), Admitted(n);
    }

    method Leave(t: string, n: nat)
      requires Valid()
      modifies this
      ensures Valid() && gates == With(old(gates), t, After(old(At(t)), GateOp.Leave(n)))
      ensures gates == if t in old(gates) then old(gates)[t := old(gates)[t].(inflight := old(gates)[t].inflight - {n})] else old(gates)
    {
      if t !in gates { return; }
      gates := gates[t := gates[t].(inflight := gates[t].inflight - {n})];
    }

    method Open(t: string, routeEpoch: nat)
      requires Valid()
      modifies this
      ensures Valid() && gates == With(old(gates), t, After(old(At(t)), GateOp.Open(routeEpoch)))
      ensures t in old(gates) && routeEpoch < old(gates)[t].routeEpoch ==> gates == old(gates)
      ensures t in old(gates) && routeEpoch >= old(gates)[t].routeEpoch ==>
                gates == old(gates)[t := old(gates)[t].(routeEpoch := routeEpoch, state := GateOpen, accepting := true)]
      ensures t !in old(gates) ==> gates == old(gates)[t := Gate(routeEpoch, GateOpen, true, 0, 0, 0, {})]
    {
      if t !in gates { gates := gates[t := Gate(routeEpoch, GateOpen, true, 0, 0, 0, {})]; }
      if routeEpoch >= gates[t].routeEpoch {
        gates := gates[t := gates[t].(routeEpoch := routeEpoch, state := GateOpen, accepting := true)];
      }
    }

    method BeginDrain(t: string, barrierEpoch: nat)
      requires Valid()
      modifies this
      ensures Valid() && gates == With(old(gates), t, After(old(At(t)), Drain(barrierEpoch)))
      ensures t in old(gates) && old(gates)[t].state == GateClosed ==> gates == old(gates)
      ensures t in old(gates) && old(gates)[t].state != GateClosed ==>
                gates == old(gates)[t := old(gates)[t].(state := GateDraining, accepting := false, barrierEpoch := barrierEpoch, cutoffSeq := old(gates)[t].nextSeq)]
      ensures t !in old(gates) ==> gates == old(gates)[t := Gate(0, GateDraining, false, 0, 0, barrierEpoch, {})]
    {
      if t !in gates { gates := gates[t := Gate(0, GateOpen, true, 0, 0, 0, {})]; }
      var g := gates[t];
      if g.state != GateClosed {
        gates := gates[t := g.(state := GateDraining, accepting := false, barrierEpoch := barrierEpoch, cutoffSeq := g.nextSeq)];
      }
    }

    method CloseGate(t: string)
      requires Valid()
      modifies this
      ensures Valid() && gates == With(old(gates), t, After(old(At(t)), Close))
      ensures gates == old(gates)[t := if t in old(gates) then old(gates)[t].(state := GateClosed, accepting := false)
                                       else Gate(0, GateClosed, false, 0, 0, 0, {})]
    {
      if t !in gates { gates := gates[t := Gate(0, GateOpen, true, 0, 0, 0, {})]; }
      gates := gates[t := gates[t].(state := GateClosed, accepting := false)];
    }

    /** One operation of another caller while this one waits. */
    method Other(t: string, op: GateOp)
      requires Valid()
      modifies this
      ensures Valid() && gates == With(old(gates), t, After(old(At(t)), op))
    {
      match op {
        case TryEnter(epoch) => var token, why := TryEnter(t, epoch);
        case Leave(n) => Leave(t, n);
        case Open(epoch) => Open(t, epoch);
        case Drain(b) => BeginDrain(t, b);
        case Close => CloseGate(t);
      }
    }

    /** Flip, then wait while others run; the deadline fires when `others` is used up. The flip and
        a prefix of `others` are all that happened to the gate, so on a gate that was not closed and
        with no Open among them the returned MaxSeq bounds everything still in flight. */
    method CloseForBarrier(t: string, barrierEpoch: nat, others: seq<GateOp>) returns (cut: Cutoff, waited: nat)
      requires Valid()
      modifies this
      ensures Valid() && waited <= |others|
      ensures var flipped := After(old(At(t)), Drain(barrierEpoch));
              && At(t) == AfterAll(flipped, others[..waited])
              && cut == Cutoff(t, instanceId, barrierEpoch, flipped.value.cutoffSeq, cut.drained, !cut.drained)
      ensures cut.drained <==> At(t).Some? && At(t).value.inflight == {}
      ensures cut.forced ==> waited == |others|
      ensures forall u :: u != t ==> At(u) == old(At(u))
      ensures GetOrCreate(old(At(t)), 0).state != GateClosed && (forall k :: 0 <= k < |others| ==> !others[k].Open?) ==>
                Barred(At(t), cut.maxSeq)
    {
      BeginDrain(t, barrierEpoch);
      ghost var flipped := At(t);
      var maxSeq := gates[t].cutoffSeq;
      waited := 0;
      assert others[..0] == [];
      while gates[t].inflight != {} && waited < |others|
        invariant Valid() && waited <= |others| && t in gates
        invariant At(t) == AfterAll(flipped, others[..waited])
        invariant forall u :: u != t ==> At(u) == old(At(u))
        decreases |others| - waited
      {
        Other(t, others[waited]);
        FoldSnoc(After, flipped, others[..waited], others[waited]);
        assert others[..waited + 1] == others[..waited] + [others[waited]];
        waited := waited + 1;
      }
      var drained := gates[t].inflight == {};
      cut := Cutoff(t, instanceId, barrierEpoch, maxSeq, drained, !drained);
      if GetOrCreate(old(At(t)), 0).state != GateClosed && forall k :: 0 <= k < |others| ==> !others[k].Open? {
        BarredUntilOpen(flipped, maxSeq, others[..waited]);
      }
    }

    /** Align the gate with the authoritative route. */
    method Reconcile(r: TenantRoute)
      requires Valid()
      modifies this
      ensures Valid()
      ensures r.state.IsMoving() && r.sourceCell == cellId ==>
                gates == With(old(gates), r.tenantId, After(old(At(r.tenantId)), Drain(r.barrierEpoch)))
      ensures r.activeCell == cellId && r.state.AdmitsNew() ==>
                gates == With(old(gates), r.tenantId, After(old(At(r.tenantId)), GateOp.Open(r.routeEpoch)))
      ensures r.activeCell != cellId && r.activeCell != "" && !(r.state.IsMoving() && r.sourceCell == cellId) ==>
                gates == With(old(gates), r.tenantId, After(old(At(r.tenantId)), Close))
      ensures (r.state.IsMoving() ==> r.sourceCell != cellId) && (r.activeCell == "" || r.activeCell == cellId) &&
              (r.state.AdmitsNew() ==> r.activeCell != cellId)
              ==> gates == old(gates)
    {
      if r.state.IsMoving() && r.sourceCell == cellId {
        BeginDrain(r.tenantId, r.barrierEpoch);
      } else if r.activeCell == cellId && r.state.AdmitsNew() {
        Open(r.tenantId, r.routeEpoch);
      } else if r.activeCell != cellId && r.activeCell != "" {
        CloseGate(r.tenantId);
      }
    }
  }
}
