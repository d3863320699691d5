/** Who can enlist in an in-memory transaction and in which order locks are taken
    (persistence/memory_tx.go:251-285, persistence/memory.go:14-18, persistence/memory_outbox.go:11-17). */
module TxParticipants {
  import opened Sorting

  /** Repositories and outbox stores are numbered from 1 by two separate counters. */
  datatype Participant = Repository(n: nat) | OutboxStore(n: nat)

  const OUTBOX_ORDER_BASE: nat := 0x1_0000_0000

  function LockOrder(p: Participant): nat {
    match p
    case Repository(n) => n
    case OutboxStore(n) => OUTBOX_ORDER_BASE + n
  }

  /** What a process holds after constructing `repos` repositories and `stores` outbox stores. */
  predicate Constructed(p: Participant, repos: nat, stores: nat) {
    match p
    case Repository(n) => 1 <= n <= repos
    case OutboxStore(n) => 1 <= n <= stores
  }

  /** Lock keys identify participants exactly while the repository counter has not run into the
      outbox range, or no outbox store exists. */
  lemma LockOrderIdentifies(repos: nat, stores: nat)
    ensures (forall p, q :: Constructed(p, repos, stores) && Constructed(q, repos, stores) && LockOrder(p) == LockOrder(q) ==> p == q)
            <==> repos <= OUTBOX_ORDER_BASE || stores == 0
  {
    if repos > OUTBOX_ORDER_BASE && stores > 0 {
      var p, q := Repository(OUTBOX_ORDER_BASE + 1), OutboxStore(1);
      assert Constructed(p, repos, stores) && Constructed(q, repos, stores) && LockOrder(p) == LockOrder(q) && p != q;
    }
  }

  ghost predicate Identified(ps: set<Participant>) {
    forall p, q :: p in ps && q in ps && LockOrder(p) == LockOrder(q) ==> p == q
  }

  ghost predicate Ascending(ps: seq<Participant>) {
    forall i, j :: 0 <= i < j < |ps| ==> LockOrder(ps[i]) < LockOrder(ps[j])
  }

  ghost predicate NonDescending(ps: seq<Participant>) {
    forall i, j :: 0 <= i < j < |ps| ==> LockOrder(ps[i]) <= LockOrder(ps[j])
  }

  ghost predicate Distinct(ps: seq<Participant>) {
    forall i, j :: 0 <= i < j < |ps| ==> ps[i] != ps[j]
  }

  function Members(ps: seq<Participant>): set<Participant> { set p | p in ps }

  predicate Earlier(p: Participant, q: Participant) { LockOrder(p) < LockOrder(q) }

  /** Sorting distinct participants keeps each of them once. */
  lemma SortByOrder(ps: seq<Participant>)
    requires Distinct(ps)
    ensures NonDescending(Sort(Earlier, ps)) && Distinct(Sort(Earlier, ps)) && Members(Sort(Earlier, ps)) == Members(ps)
  {
    SortSorts(Earlier, ps);
    var r := Sort(Earlier, ps);
    forall i, j | 0 <= i < j < |r| ensures LockOrder(r[i]) <= LockOrder(r[j]) { assert !Earlier(r[j], r[i]); }
    assert forall p :: p in r <==> p in multiset(r);
    assert forall p :: p in ps <==> p in multiset(ps);
    OnceInPermutation(ps, r);
  }

  lemma OnceInPermutation(ps: seq<Participant>, r: seq<Participant>)
    requires Distinct(ps) && multiset(r) == multiset(ps)
    ensures Distinct(r)
  {
    forall i, j | 0 <= i < j < |r| ensures r[i] != r[j] {
      if r[i] == r[j] {
        assert r == r[..j] + [r[j]] + r[j + 1..] && r[i] in r[..j];
        assert multiset(r)[r[j]] >= 2;
        OnceCounts(ps, r[j]);
      }
    }
  }

  lemma {:induction false} OnceCounts(ps: seq<Participant>, p: Participant)
    requires Distinct(ps)
    ensures multiset(ps)[p] <= 1
    decreases |ps|
  {
    if ps != [] {
      var (init, last) := (ps[..|ps| - 1], ps[|ps| - 1]);
      assert ps == init + [last];
      OnceCounts(init, p);
      assert last !in init;
    }
  }

  /** Once lock keys identify participants, the lock list of a set is unique: two runners over the
      same repositories take their locks in the same order, however they were built. */
  lemma {:induction false} LockListUnique(a: seq<Participant>, b: seq<Participant>)
    requires Ascending(a) && Ascending(b) && Members(a) == Members(b)
    ensures a == b
    decreases |a|
  {
    if a == [] {
      assert forall i :: 0 <= i < |b| ==> b[i] in Members(b);
    } else {
      assert a[0] in Members(a);
      var (x, y) := (a[|a| - 1], b[|b| - 1]);
      assert x in Members(b) && y in Members(a);
      assert LockOrder(x) <= LockOrder(y) && LockOrder(y) <= LockOrder(x);
      assert x == y by {
        var i :| 0 <= i < |a| && a[i] == y;
        if i < |a| - 1 { assert LockOrder(a[i]) < LockOrder(x); }
      }
      InitMembers(a);
      InitMembers(b);
      LockListUnique(a[..|a| - 1], b[..|b| - 1]);
      assert a == a[..|a| - 1] + [x] && b == b[..|b| - 1] + [y];
    }
  }

  lemma InitMembers(a: seq<Participant>)
    requires a != [] && Ascending(a)
    ensures Members(a[..|a| - 1]) == Members(a) - {a[|a| - 1]}
  {
    assert a == a[..|a| - 1] + [a[|a| - 1]];
  }

  /** Each participant is kept once, in the one lock order. */
  method NewMemoryTxRunner(repos: seq<Participant>) returns (participants: seq<Participant>)
    ensures Members(participants) == Members(repos) && Distinct(participants) && NonDescending(participants)
    ensures Identified(Members(repos)) ==> Ascending(participants)
  {
    var seen: set<Participant> := {};
    var ps: seq<Participant> := [];
    for i := 0 to |repos|
      invariant seen == Members(ps) == Members(repos[..i]) && Distinct(ps)
    {
      assert repos[..i + 1] == repos[..i] + [repos[i]];
      if repos[i] !in seen {
        seen := seen + {repos[i]};
        ps := ps + [repos[i]];
      }
    }
    assert repos[..|repos|] == repos;
    participants := Sort(Earlier, ps);
    SortByOrder(ps);
    assert forall i :: 0 <= i < |participants| ==> participants[i] in Members(participants);
  }

  method WithParticipants(participants: seq<Participant>, extra: seq<Participant>) returns (combined: seq<Participant>)
    ensures Members(combined) == Members(participants) + Members(extra) && Distinct(combined) && NonDescending(combined)
    ensures Identified(Members(participants) + Members(extra)) ==> Ascending(combined)
  {
    combined := NewMemoryTxRunner(participants + extra);
    assert Members(participants + extra) == Members(participants) + Members(extra);
  }
}

/** The participants' contents and what one write does to them. */
module TxStores {
  import opened MemoryRepo
  import opened TxParticipants
  import Outbox

  datatype Store = Items(repo: Repo) | Rows(rows: seq<Outbox.Row>)

  datatype StoreOp = OnRepo(op: RepoOp) | AppendRow(row: Outbox.Row)

  type Db = map<Participant, Store>

  datatype Write = Write(p: Participant, op: StoreOp)

  function Effect(st: Store, op: StoreOp): Store {
    match (st, op)
    case (Items(repo), OnRepo(o)) => Items(After(repo, o))
    case (Rows(rows), AppendRow(row)) => Rows(rows + [row])
    case _ => st
  }

  function Put(db: Db, w: Write): (r: Db)
    ensures r.Keys == db.Keys
  {
    if w.p in db then db[w.p := Effect(db[w.p], w.op)] else db
  }

  /** All the writes in order, with no transaction around them. */
  function Applied(db: Db, ws: seq<Write>): (r: Db)
    ensures r.Keys == db.Keys
  {
    if ws == [] then db else Put(Applied(db, ws[..|ws| - 1]), ws[|ws| - 1])
  }

  /** A committed append is the last row of its store, behind everything that was there. */
  lemma AppendIsLast(db: Db, ws: seq<Write>, p: Participant, row: Outbox.Row)
    requires p in db && Applied(db, ws)[p].Rows?
    ensures Applied(db, ws + [Write(p, AppendRow(row))])[p] == Rows(Applied(db, ws)[p].rows + [row])
  {
    var w := Write(p, AppendRow(row));
    assert (ws + [w])[..|ws + [w]| - 1] == ws;
  }

  /** A committed repository write is what the repository alone would make of it. */
  lemma WriteIsRepoWrite(db: Db, ws: seq<Write>, p: Participant, op: RepoOp)
    requires p in db && Applied(db, ws)[p].Items?
    ensures Applied(db, ws + [Write(p, OnRepo(op))])[p] == Items(After(Applied(db, ws)[p].repo, op))
  {
    var w := Write(p, OnRepo(op));
    assert (ws + [w])[..|ws + [w]| - 1] == ws;
  }

  predicate Touches(ws: seq<Write>, ps: set<Participant>) {
    forall i :: 0 <= i < |ws| ==> ws[i].p in ps
  }

  lemma {:induction false} AppliedConcat(db: Db, a: seq<Write>, b: seq<Write>)
    ensures Applied(Applied(db, a), b) == Applied(db, a + b)
    decreases |b|
  {
    if b == [] {
      assert a + b == a;
    } else {
      assert (a + b)[..|a + b| - 1] == a + b[..|b| - 1];
      AppliedConcat(db, a, b[..|b| - 1]);
    }
  }

  /** What a participant ends up with depends on its own contents only, and is unchanged when no
      write names it. */
  lemma {:induction false} AppliedLocally(d1: Db, d2: Db, ws: seq<Write>, p: Participant)
    requires p in d1 && p in d2 && d1[p] == d2[p]
    ensures Applied(d1, ws)[p] == Applied(d2, ws)[p]
    ensures (forall i :: 0 <= i < |ws| ==> ws[i].p != p) ==> Applied(d1, ws)[p] == d1[p]
    decreases |ws|
  {
    if ws != [] { AppliedLocally(d1, d2, ws[..|ws| - 1], p); }
  }

  lemma AppliedElsewhere(db: Db, ws: seq<Write>, ps: set<Participant>)
    requires Touches(ws, ps)
    ensures forall p :: p in db && p !in ps ==> Applied(db, ws)[p] == db[p]
  {
    forall p | p in db && p !in ps ensures Applied(db, ws)[p] == db[p] { AppliedLocally(db, db, ws, p); }
  }
}

/** One call tree of Atomically, nested calls included (persistence/memory_tx.go:204-212, 288-325). */
module NestedTx {
  import opened Options
  import MemoryRepo
  import opened TxParticipants
  import opened TxStores

  /** What a body did: its operations and nested calls in order; a read locks like a write that
      fails. `fails` is the error its function returned; whether the caller passes that error on
      shows in the caller's own `fails`. */
  datatype Trace =
    | Done
    | Do(w: Write, rest: Trace)
    | Call(participants: seq<Participant>, body: Trace, fails: bool, rest: Trace)

  datatype Outcome = Deadlock | Ends(db: Db)

  /** The participant set on ctx, if any. */
  type Ctx = Option<set<Participant>>

  predicate Enrolled(ctx: Ctx, p: Participant) { ctx.Some? && p in ctx.value }

  predicate Joins(ctx: Ctx, ps: seq<Participant>) { exists p :: p in ps && Enrolled(ctx, p) }

  predicate Lockable(held: set<Participant>, ps: seq<Participant>) {
    && (forall i :: 0 <= i < |ps| ==> ps[i] !in held)
    && (forall i, j :: 0 <= i < j < |ps| ==> ps[i] != ps[j])
  }

  /** Every participant of `ps` back to its contents in `snap`. */
  function Restored(db: Db, snap: Db, ps: set<Participant>): (r: Db)
    ensures r.Keys == db.Keys
  {
    map p | p in db :: if p in ps && p in snap then snap[p] else db[p]
  }

  lemma RestoredStep(db: Db, snap: Db, ps: set<Participant>, p: Participant)
    requires db.Keys == snap.Keys
    ensures Restored(db, snap, ps + {p}) == if p in snap then Restored(db, snap, ps)[p := snap[p]] else Restored(db, snap, ps)
  {}

  lemma RestoredIdle(db: Db, snap: Db, ps: set<Participant>)
    requires db.Keys == snap.Keys && forall p :: p in db && p in ps ==> db[p] == snap[p]
    ensures Restored(db, snap, ps) == db
  {}

  /** An outbox append outside the store's transaction is an error: it neither writes nor locks. */
  predicate Refused(ctx: Ctx, w: Write) { w.op.AppendRow? && !Enrolled(ctx, w.p) }

  /** One goroutine's run. A repository whose lock it holds but which ctx does not enrol is locked
      a second time, which never returns. */
  function Exec(ctx: Ctx, held: set<Participant>, db: Db, tr: Trace): (r: Outcome)
    ensures r.Ends? ==> r.db.Keys == db.Keys
    decreases tr, 0
  {
    match tr
    case Done => Ends(db)
    case Do(w, rest) =>
      if Refused(ctx, w) then Exec(ctx, held, db, rest)
      else if !Enrolled(ctx, w.p) && w.p in held then Deadlock
      else Exec(ctx, held, Put(db, w), rest)
    case Call(ps, body, fails, rest) =>
      var inner := ExecCall(ctx, held, db, ps, body, fails);
      if inner.Deadlock? then Deadlock else Exec(ctx, held, inner.db, rest)
  }

  function ExecCall(ctx: Ctx, held: set<Participant>, db: Db, ps: seq<Participant>, body: Trace, fails: bool): (r: Outcome)
    ensures r.Ends? ==> r.db.Keys == db.Keys
    decreases body, 1
  {
    if Joins(ctx, ps) then Exec(ctx, held, db, body)
    else if !Lockable(held, ps) then Deadlock
    else
      var ran := Exec(Some(Members(ps)), held + Members(ps), db, body);
      if ran.Deadlock? || !fails then ran else Ends(Restored(ran.db, db, Members(ps)))
  }

  /** The writes of a whole tree inside the transaction of `ps`, in order: nesting and errors
      forgotten, refused appends left out. */
  function Flatten(tr: Trace, ps: set<Participant>): seq<Write> {
    match tr
    case Done => []
    case Do(w, rest) => (if Refused(Some(ps), w) then [] else [w]) + Flatten(rest, ps)
    case Call(_, body, _, rest) => Flatten(body, ps) + Flatten(rest, ps)
  }

  /** Every nested call names somebody of `ps`. */
  predicate Joined(tr: Trace, ps: set<Participant>) {
    match tr
    case Done => true
    case Do(_, rest) => Joined(rest, ps)
    case Call(qs, body, _, rest) => (exists q :: q in qs && q in ps) && Joined(body, ps) && Joined(rest, ps)
  }

  /** No write needs a lock that is held for somebody outside `ps`. */
  predicate Clear(ws: seq<Write>, ps: set<Participant>, held: set<Participant>) {
    forall i :: 0 <= i < |ws| ==> ws[i].p in ps || ws[i].p !in held
  }

  /** Inside a transaction every nested call that joins, failed or not, is just its writes. */
  lemma {:induction false} JoinedIsPlain(ps: set<Participant>, held: set<Participant>, db: Db, tr: Trace)
    requires Joined(tr, ps) && Clear(Flatten(tr, ps), ps, held)
    ensures Exec(Some(ps), held, db, tr) == Ends(Applied(db, Flatten(tr, ps)))
  {
    match tr
    case Done =>
    case Do(w, rest) =>
      var r := Flatten(rest, ps);
      if Refused(Some(ps), w) {
        assert [] + r == r;
        JoinedIsPlain(ps, held, db, rest);
      } else {
        ClearParts([w], r, ps, held);
        assert [w][0] == w;
        JoinedIsPlain(ps, held, Put(db, w), rest);
        AppliedConcat(db, [w], r);
        assert Applied(db, [w]) == Put(Applied(db, [w][..0]), w);
      }
    case Call(qs, body, fails, rest) =>
      assert Joins(Some(ps), qs) by { var q :| q in qs && q in ps; assert Enrolled(Some(ps), q); }
      var (b, r) := (Flatten(body, ps), Flatten(rest, ps));
      ClearParts(b, r, ps, held);
      JoinedIsPlain(ps, held, db, body);
      JoinedIsPlain(ps, held, Applied(db, b), rest);
      AppliedConcat(db, b, r);
  }

  lemma ClearParts(a: seq<Write>, b: seq<Write>, ps: set<Participant>, held: set<Participant>)
    requires Clear(a + b, ps, held)
    ensures Clear(a, ps, held) && Clear(b, ps, held)
  {
    forall i | 0 <= i < |a| ensures a[i].p in ps || a[i].p !in held { assert (a + b)[i] == a[i]; }
    forall i | 0 <= i < |b| ensures b[i].p in ps || b[i].p !in held { assert (a + b)[|a| + i] == b[i]; }
  }

  /** A call that opens a transaction: its own result alone decides. Success keeps every write of
      the tree, those of failed inner calls included; failure restores each participant. */
  lemma OpenedDecides(ctx: Ctx, held: set<Participant>, db: Db, ps: seq<Participant>, body: Trace, fails: bool)
    requires !Joins(ctx, ps) && Lockable(held, ps) && Joined(body, Members(ps)) && Clear(Flatten(body, Members(ps)), Members(ps), held)
    ensures var ran := Applied(db, Flatten(body, Members(ps)));
            ExecCall(ctx, held, db, ps, body, fails) == Ends(if fails then Restored(ran, db, Members(ps)) else ran)
  {
    var P := Members(ps);
    assert Clear(Flatten(body, Members(ps)), P, held + P);
    JoinedIsPlain(P, held + P, db, body);
  }

  /** The outermost call over a tree of joining calls never blocks, and its result alone decides. On
      failure the whole database is exactly as before if and only if the tree left every
      participant outside the call as it was; writing only to enrolled ones is enough. */
  lemma OutermostDecides(db: Db, ps: seq<Participant>, body: Trace, fails: bool)
    requires Distinct(ps) && Joined(body, Members(ps))
    ensures var (ran, r) := (Applied(db, Flatten(body, Members(ps))), ExecCall(None, {}, db, ps, body, fails));
            && r.Ends?
            && (!fails ==> r.db == ran)
            && (fails ==> forall p :: p in db ==> p in r.db && r.db[p] == if p in ps then db[p] else ran[p])
            && (fails ==> (r.db == db <==> forall p :: p in db && p !in ps ==> ran[p] == db[p]))
            && (fails && Touches(Flatten(body, Members(ps)), Members(ps)) ==> r.db == db)
  {
    OpenedDecides(None, {}, db, ps, body, fails);
    var ran := Applied(db, Flatten(body, Members(ps)));
    if fails {
      RestoredWhole(ran, db, Members(ps));
      if Touches(Flatten(body, Members(ps)), Members(ps)) { AppliedElsewhere(db, Flatten(body, Members(ps)), Members(ps)); }
    }
  }

  lemma RestoredWhole(db: Db, snap: Db, ps: set<Participant>)
    requires db.Keys == snap.Keys
    ensures Restored(db, snap, ps) == snap <==> forall p :: p in db && p !in ps ==> db[p] == snap[p]
  {
    if Restored(db, snap, ps) == snap {
      forall p | p in db && p !in ps ensures db[p] == snap[p] { assert Restored(db, snap, ps)[p] == db[p]; }
    }
  }

  /** A nested call over entirely other participants is a transaction of its own: it commits for
      good even when the outer call then fails. */
  lemma DisjointInnerSurvives(db: Db, ps: seq<Participant>, qs: seq<Participant>, inner: Trace, fails: bool)
    requires Distinct(ps) && Distinct(qs) && Members(ps) !! Members(qs)
    requires Joined(inner, Members(qs)) && Touches(Flatten(inner, Members(qs)), Members(qs))
    ensures ExecCall(None, {}, db, ps, Call(qs, inner, fails, Done), true) ==
            Ends(if fails then db else Applied(db, Flatten(inner, Members(qs))))
  {
    var (P, Q) := (Members(ps), Members(qs));
    assert {} + P == P && forall i :: 0 <= i < |qs| ==> qs[i] in Q;
    OpenedDecides(Some(P), P, db, qs, inner, fails);
    AppliedElsewhere(db, Flatten(inner, Members(qs)), Q);
    RestoredWhole(Applied(db, Flatten(inner, Members(qs))), db, Q);
    var ran := if fails then db else Applied(db, Flatten(inner, Members(qs)));
    RestoredIdle(ran, db, P);
    assert Exec(Some(P), P, db, Call(qs, inner, fails, Done)) == Ends(ran);
  }

  /** A nested call that only partly overlaps joins, and what it writes to a repository outside the
      outer set is not rolled back with the rest. */
  lemma UnenrolledWriteSurvives(db: Db, ps: seq<Participant>, qs: seq<Participant>, w: Write)
    requires Distinct(ps) && (exists q :: q in qs && q in ps) && w.p !in ps && w.op.OnRepo?
    ensures ExecCall(None, {}, db, ps, Call(qs, Do(w, Done), true, Done), true) == Ends(Put(db, w))
  {
    var (body, P) := (Call(qs, Do(w, Done), true, Done), Members(ps));
    assert Joined(body, P) by { var q :| q in qs && q in ps; assert q in P; }
    assert Flatten(Do(w, Done), P) == [w] + Flatten(Done, P) == [w];
    assert Flatten(body, P) == Flatten(Do(w, Done), P) + Flatten(Done, P) == [w];
    assert [w][..|[w]| - 1] == [];
    assert Applied(db, [w]) == Put(Applied(db, []), w);
    OpenedDecides(None, {}, db, ps, body, true);
    assert Restored(Put(db, w), db, P) == Put(db, w);
  }

  /** A write in a joining nested call is undone by the outer failure, on every database, exactly when
      it goes to the outer set or is an append, which outside that set is refused. */
  lemma UndoneExactly(ps: seq<Participant>, qs: seq<Participant>, w: Write)
    requires Distinct(ps) && exists q :: q in qs && q in ps
    ensures (forall db :: ExecCall(None, {}, db, ps, Call(qs, Do(w, Done), true, Done), true) == Ends(db))
            <==> w.p in ps || w.op.AppendRow?
  {
    if w.p !in ps && w.op.OnRepo? {
      var r := MemoryRepo.Changeable(w.op.op);
      var db: Db := map[w.p := Items(r)];
      UnenrolledWriteSurvives(db, ps, qs, w);
      assert Put(db, w)[w.p] != db[w.p];
    } else {
      var (body, P) := (Call(qs, Do(w, Done), true, Done), Members(ps));
      assert Joined(Done, P) && Joined(body, P) by { var q :| q in qs && q in ps; assert q in P; }
      assert Flatten(Do(w, Done), P) == (if Refused(Some(P), w) then [] else [w]) + Flatten(Done, P);
      assert Flatten(body, P) == Flatten(Do(w, Done), P) + Flatten(Done, P);
      assert Touches(Flatten(body, P), P);
      forall db ensures ExecCall(None, {}, db, ps, body, true) == Ends(db) { OutermostDecides(db, ps, body, true); }
    }
  }

  // ----- when a tree hangs

  /** Every nested call either shares a participant with the innermost open transaction or takes
      locks that are all free, and no repository write goes to an outer transaction's participant
      that the innermost one does not enrol. No data is looked at. */
  predicate HangFree(ctx: Ctx, held: set<Participant>, tr: Trace)
    decreases tr
  {
    match tr
    case Done => true
    case Do(w, rest) => (w.op.OnRepo? && w.p in held ==> Enrolled(ctx, w.p)) && HangFree(ctx, held, rest)
    case Call(ps, body, _, rest) =>
      && (if Joins(ctx, ps) then HangFree(ctx, held, body)
          else Lockable(held, ps) && HangFree(Some(Members(ps)), held + Members(ps), body))
      && HangFree(ctx, held, rest)
  }

  /** Any tree of calls, in any context, hangs exactly when it is not free of that. */
  lemma {:induction false} HangsExactly(ctx: Ctx, held: set<Participant>, db: Db, tr: Trace)
    ensures Exec(ctx, held, db, tr) == Deadlock <==> !HangFree(ctx, held, tr)
    decreases tr
  {
    match tr
    case Done =>
    case Do(w, rest) => HangsExactly(ctx, held, if Refused(ctx, w) then db else Put(db, w), rest);
    case Call(ps, body, fails, rest) =>
      if Joins(ctx, ps) {
        HangsExactly(ctx, held, db, body);
      } else {
        HangsExactly(Some(Members(ps)), held + Members(ps), db, body);
      }
      var inner := ExecCall(ctx, held, db, ps, body, fails);
      if inner.Ends? { HangsExactly(ctx, held, inner.db, rest); }
  }

  /** Where every call joins, only the writes matter. */
  lemma {:induction false} JoinedHangFree(ps: set<Participant>, held: set<Participant>, tr: Trace)
    requires Joined(tr, ps)
    ensures HangFree(Some(ps), held, tr) <==> Clear(Flatten(tr, ps), ps, held)
  {
    match tr
    case Done =>
    case Do(w, rest) =>
      JoinedHangFree(ps, held, rest);
      ClearConcat(if Refused(Some(ps), w) then [] else [w], Flatten(rest, ps), ps, held);
      assert !Refused(Some(ps), w) ==> [w][0] == w;
    case Call(qs, body, _, rest) =>
      assert Joins(Some(ps), qs) by { var q :| q in qs && q in ps; assert Enrolled(Some(ps), q); }
      JoinedHangFree(ps, held, body);
      JoinedHangFree(ps, held, rest);
      ClearConcat(Flatten(body, ps), Flatten(rest, ps), ps, held);
  }

  lemma ClearConcat(a: seq<Write>, b: seq<Write>, ps: set<Participant>, held: set<Participant>)
    ensures Clear(a + b, ps, held) <==> Clear(a, ps, held) && Clear(b, ps, held)
  {
    if Clear(a + b, ps, held) { ClearParts(a, b, ps, held); }
  }

  predicate Shares(ps: seq<Participant>, qs: seq<Participant>) { exists q :: q in qs && q in ps }

  /** What a nested call does to a database, alone: its writes, undone on failure. */
  function OwnResult(db: Db, qs: seq<Participant>, inner: Trace, fails: bool): Db {
    var ran := Applied(db, Flatten(inner, Members(qs)));
    if fails then Restored(ran, db, Members(qs)) else ran
  }

  /** A nested call in three cases. It joins when its runner shares a participant with the outer one,
      and the outer result decides. Otherwise it hangs exactly when it makes a repository write to the
      outer set, and else it is a transaction of its own that the outer result does not touch. */
  lemma NestedCall(db: Db, ps: seq<Participant>, qs: seq<Participant>, inner: Trace, innerFails: bool, fails: bool)
    requires Distinct(ps) && Distinct(qs) && Joined(inner, Members(if Shares(ps, qs) then ps else qs))
    ensures ExecCall(None, {}, db, ps, Call(qs, inner, innerFails, Done), fails) ==
            if Shares(ps, qs) then Ends(OwnResult(db, ps, inner, fails))
            else if !Clear(Flatten(inner, Members(qs)), Members(qs), Members(ps)) then Deadlock
            else Ends(OwnResult(db, qs, inner, innerFails))
  {
    var (P, Q, body) := (Members(ps), Members(qs), Call(qs, inner, innerFails, Done));
    assert {} + P == P;
    if Shares(ps, qs) {
      assert Joined(body, P) by { var q :| q in qs && q in ps; assert q in P; }
      assert Flatten(body, P) == Flatten(inner, P) + Flatten(Done, P) == Flatten(inner, P);
      OpenedDecides(None, {}, db, ps, body, fails);
    } else {
      ApartCall(db, ps, qs, inner, innerFails, fails);
    }
  }

  lemma ApartCall(db: Db, ps: seq<Participant>, qs: seq<Participant>, inner: Trace, innerFails: bool, fails: bool)
    requires Distinct(ps) && Distinct(qs) && !Shares(ps, qs) && Joined(inner, Members(qs))
    ensures ExecCall(None, {}, db, ps, Call(qs, inner, innerFails, Done), fails) ==
            if Clear(Flatten(inner, Members(qs)), Members(qs), Members(ps)) then Ends(OwnResult(db, qs, inner, innerFails)) else Deadlock
  {
    var (P, Q, ws, body) := (Members(ps), Members(qs), Flatten(inner, Members(qs)), Call(qs, inner, innerFails, Done));
    assert {} + P == P && P !! Q && !Joins(Some(P), qs);
    assert Lockable(P, qs) by { assert forall i :: 0 <= i < |qs| ==> qs[i] in Q; }
    assert Clear(ws, Q, P + Q) <==> Clear(ws, Q, P);
    if Clear(ws, Q, P) {
      OpenedDecides(Some(P), P, db, qs, inner, innerFails);
      var ran := OwnResult(db, qs, inner, innerFails);
      ClearUntouched(db, ws, Q, P);
      RestoredIdle(ran, db, P);
      assert Exec(Some(P), P, db, body) == Ends(ran);
    } else {
      JoinedHangFree(Q, P + Q, inner);
      HangsExactly(Some(P), P, db, body);
    }
  }

  /** Writes clear of `ps` leave it alone. */
  lemma ClearUntouched(db: Db, ws: seq<Write>, qs: set<Participant>, ps: set<Participant>)
    requires Clear(ws, qs, ps) && ps !! qs
    ensures forall p :: p in db && p in ps ==> Applied(db, ws)[p] == db[p]
  {
    forall p | p in db && p in ps ensures Applied(db, ws)[p] == db[p] { AppliedLocally(db, db, ws, p); }
  }

  /** One write in a nested call hangs exactly when it is a repository write to the outer set and the
      two runners share nobody. */
  lemma NestedWriteHangsExactly(db: Db, ps: seq<Participant>, qs: seq<Participant>, w: Write, innerFails: bool, fails: bool)
    requires Distinct(ps) && Distinct(qs)
    ensures ExecCall(None, {}, db, ps, Call(qs, Do(w, Done), innerFails, Done), fails) == Deadlock
            <==> w.op.OnRepo? && w.p in ps && !Shares(ps, qs)
  {
    assert Joined(Done, Members(if Shares(ps, qs) then ps else qs));
    NestedCall(db, ps, qs, Do(w, Done), innerFails, fails);
    if !Shares(ps, qs) {
      var ws := Flatten(Do(w, Done), Members(qs));
      assert ws == (if Refused(Some(Members(qs)), w) then [] else [w]) + Flatten(Done, Members(qs));
      assert !Refused(Some(Members(qs)), w) ==> ws[0] == w;
      assert w.p in ps && w.p in qs ==> Shares(ps, qs);
    }
  }

  /** In particular a nested runner without participants hangs on every repository write to the
      outer set. */
  lemma EmptyInnerHangs(db: Db, ps: seq<Participant>, w: Write, innerFails: bool, fails: bool)
    requires Distinct(ps) && w.p in ps && w.op.OnRepo?
    ensures ExecCall(None, {}, db, ps, Call([], Do(w, Done), innerFails, Done), fails) == Deadlock
  {
    NestedWriteHangsExactly(db, ps, [], w, innerFails, fails);
  }

  /** Some call of the tree enrols `p`. */
  predicate Enrols(tr: Trace, p: Participant) {
    match tr
    case Done => false
    case Do(_, rest) => Enrols(rest, p)
    case Call(ps, body, _, rest) => p in ps || Enrols(body, p) || Enrols(rest, p)
  }

  /** The dual-write guard over any tree, joining or not, failing or not: an outbox store that no
      call enrols ends with exactly the rows it had, whatever was appended to it. */
  lemma {:induction false} RowsNeedEnrolment(ctx: Ctx, held: set<Participant>, db: Db, tr: Trace, p: Participant)
    requires p in db && db[p].Rows? && !Enrolled(ctx, p) && !Enrols(tr, p)
    ensures Exec(ctx, held, db, tr).Ends? ==> Exec(ctx, held, db, tr).db[p] == db[p]
    decreases tr
  {
    match tr
    case Done =>
    case Do(w, rest) => RowsNeedEnrolment(ctx, held, if Refused(ctx, w) then db else Put(db, w), rest, p);
    case Call(ps, body, fails, rest) =>
      if Joins(ctx, ps) {
        RowsNeedEnrolment(ctx, held, db, body, p);
      } else {
        RowsNeedEnrolment(Some(Members(ps)), held + Members(ps), db, body, p);
      }
      var inner := ExecCall(ctx, held, db, ps, body, fails);
      if inner.Ends? { RowsNeedEnrolment(ctx, held, inner.db, rest, p); }
  }

  /** The participants, their locks, and the one goroutine that runs a tree. */
  class Memory {
    var db: Db
    var held: set<Participant>

    constructor (db: Db)
      ensures this.db == db && held == {}
    {
      this.db := db;
      held := {};
    }

    /** `ok == false` stands for blocking forever. */
    method Execute(ctx: Ctx, tr: Trace) returns (ok: bool)
      modifies this
      ensures Exec(ctx, old(held), old(db), tr) == if ok then Ends(db) else Deadlock
      ensures ok ==> held == old(held)
      decreases tr, 0
    {
      match tr {
        case Done => return true;
        case Do(w, rest) =>
          if !Refused(ctx, w) {
            if !Enrolled(ctx, w.p) && w.p in held { return false; }
            db := Put(db, w);
          }
          ok := Execute(ctx, rest);
        case Call(ps, body, fails, rest) =>
          ok := Atomically(ctx, ps, body, fails);
          if !ok { return false; }
          ok := Execute(ctx, rest);
      }
    }

    method Atomically(ctx: Ctx, ps: seq<Participant>, body: Trace, fails: bool) returns (ok: bool)
      modifies this
      ensures ExecCall(ctx, old(held), old(db), ps, body, fails) == if ok then Ends(db) else Deadlock
      ensures ok ==> held == old(held)
      decreases body, 1
    {
      if exists p :: p in ps && Enrolled(ctx, p) {
        ok := Execute(ctx, body);
        return;
      }
      ok := Lock(ps);
      if !ok { return; }
      var snaps := Snapshot(ps);
      ghost var before := db;
      ok := Execute(Some(Members(ps)), body);
      if !ok { return; }
      if fails { Restore(ps, snaps, before); }
      Unlock(ps);
      assert old(held) + Members(ps) - Members(ps) == old(held);
    }

    method Lock(ps: seq<Participant>) returns (ok: bool)
      modifies this`held
      ensures ok == Lockable(old(held), ps)
      ensures ok ==> held == old(held) + Members(ps)
    {
      for i := 0 to |ps|
        invariant held == old(held) + Members(ps[..i]) && Lockable(old(held), ps[..i])
      {
        if ps[i] in held { return false; }
        assert ps[..i + 1] == ps[..i] + [ps[i]];
        held := held + {ps[i]};
      }
      assert ps[..|ps|] == ps;
      return true;
    }

    method Snapshot(ps: seq<Participant>) returns (snaps: seq<Option<Store>>)
      ensures |snaps| == |ps|
      ensures forall i :: 0 <= i < |ps| ==> snaps[i] == if ps[i] in db then Some(db[ps[i]]) else None
    {
      snaps := [];
      for i := 0 to |ps|
        invariant |snaps| == i
        invariant forall j :: 0 <= j < i ==> snaps[j] == if ps[j] in db then Some(db[ps[j]]) else None
      {
        snaps := snaps + [if ps[i] in db then Some(db[ps[i]]) else None];
      }
    }

    method Restore(ps: seq<Participant>, snaps: seq<Option<Store>>, ghost before: Db)
      requires |snaps| == |ps| && db.Keys == before.Keys
      requires forall i :: 0 <= i < |ps| ==> snaps[i] == if ps[i] in before then Some(before[ps[i]]) else None
      modifies this`db
      ensures db == Restored(old(db), before, Members(ps))
    {
      for i := 0 to |ps|
        invariant db == Restored(old(db), before, Members(ps[..i]))
      {
        assert Members(ps[..i + 1]) == Members(ps[..i]) + {ps[i]};
        RestoredStep(old(db), before, Members(ps[..i]), ps[i]);
        if snaps[i].Some? { db := db[ps[i] := snaps[i].value]; }
      }
      assert ps[..|ps|] == ps;
    }

    method Unlock(ps: seq<Participant>)
      modifies this`held
      ensures held == old(held) - Members(ps)
    {
      var i := |ps|;
      assert ps[|ps|..] == [];
      while i > 0
        invariant 0 <= i <= |ps| && held == old(held) - Members(ps[i..])
      {
        i := i - 1;
        assert ps[i..] == [ps[i]] + ps[i + 1..];
        held := held - {ps[i]};
      }
      assert ps[0..] == ps;
    }
  }
}
