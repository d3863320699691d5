/** The durable idempotency record store (servicekit/idempotency.go:283-414) as functions of its map. */
module IdempotencyStore {
  import opened Options

  datatype Key = Key(tenant: string, method_: string, requestId: string)

  const NUL := '\0'

  function MemKey(k: Key): string { k.tenant + [NUL] + k.method_ + [NUL] + k.requestId }

  /** What a store key begins with, up to the request id. */
  function Scope(tenant: string, method_: string): string { tenant + [NUL] + method_ + [NUL] }

  /** Two callers can meet on one store key, by some choice of request ids, exactly when one
      caller's scope begins with the other's. */
  lemma ScopesMeetExactly(t: string, m: string, t': string, m': string)
    ensures (exists r, r' :: MemKey(Key(t, m, r)) == MemKey(Key(t', m', r'))) <==>
            Scope(t, m) <= Scope(t', m') || Scope(t', m') <= Scope(t, m)
  {
    var a, b := Scope(t, m), Scope(t', m');
    if a <= b { assert MemKey(Key(t, m, b[|a|..])) == MemKey(Key(t', m', "")); }
    if b <= a { assert MemKey(Key(t', m', a[|b|..])) == MemKey(Key(t, m, "")); }
    forall r, r' | MemKey(Key(t, m, r)) == MemKey(Key(t', m', r')) ensures a <= b || b <= a {
      assert a + r == b + r';
      assert a == (a + r)[..|a|] && b == (b + r')[..|b|];
    }
  }

  lemma SplitAtNul(a: string, x: string, b: string, y: string)
    requires NUL !in a && NUL !in b && a + [NUL] + x == b + [NUL] + y
    ensures a == b && x == y
  {
    var s, t := a + [NUL] + x, b + [NUL] + y;
    assert s[|a|] == NUL && t[|b|] == NUL;
    assert |a| == |b|;
    assert a == s[..|a|] && x == s[|a| + 1..] && b == t[..|b|] && y == t[|b| + 1..];
  }

  /** Store keys never collide when tenants and methods carry no NUL, whatever the request ids. */
  lemma MemKeyInjective(k: Key, k': Key)
    requires NUL !in k.tenant && NUL !in k'.tenant && NUL !in k.method_ && NUL !in k'.method_
    ensures MemKey(k) == MemKey(k') <==> k == k'
  {
    if MemKey(k) == MemKey(k') {
      assert MemKey(k) == k.tenant + [NUL] + (k.method_ + [NUL] + k.requestId);
      assert MemKey(k') == k'.tenant + [NUL] + (k'.method_ + [NUL] + k'.requestId);
      SplitAtNul(k.tenant, k.method_ + [NUL] + k.requestId, k'.tenant, k'.method_ + [NUL] + k'.requestId);
      SplitAtNul(k.method_, k.requestId, k'.method_, k'.requestId);
    }
  }

  /** Two different tenants with one scope: a NUL inside a tenant or a method is enough. */
  lemma NulSharesScope(a: string, b: string, c: string)
    ensures Scope(a + [NUL] + b, c) == Scope(a, b + [NUL] + c)
  {}

  datatype Status = InProgress | Completed

  /** `response` stands for the marshalled response and its type name, which round-trip. */
  datatype Record = Record(status: Status, fingerprint: string, response: string)

  datatype Entry = Entry(rec: Record, expiresAt: int)

  type Store = map<string, Entry>

  predicate Live(m: Store, k: string, now: int) { k in m && m[k].expiresAt > now }

  function Lookup(m: Store, k: string, now: int): Option<Record> {
    if Live(m, k, now) then Some(m[k].rec) else None
  }

  /** The store after a claim; it claims exactly when `Lookup` finds nothing live. */
  function Claimed(m: Store, k: string, fp: string, ttl: int, now: int): Store {
    if Live(m, k, now) then m else m[k := Entry(Record(InProgress, fp, ""), now + ttl)]
  }

  function Complete(m: Store, k: string, response: string): Option<Store> {
    if k !in m then None
    else Some(m[k := m[k].(rec := m[k].rec.(status := Completed, response := response))])
  }

  function Abandoned(m: Store, k: string): Store {
    if k in m && m[k].rec.status.InProgress? then m - {k} else m
  }

  function Collected(m: Store, upTo: int): Store { map k | k in m && m[k].expiresAt > upTo :: m[k] }

  /** A stored response replays only for a request that does not contradict its fingerprint. */
  predicate FingerprintAgrees(fp: string, stored: string) { fp == "" || stored == "" || fp == stored }

  /** Collecting up to a time is invisible to every lookup and claim at `now` exactly when that
      time is not in the future. */
  lemma CollectInvisible(upTo: int, now: int)
    ensures (forall m: Store, k: string :: Lookup(Collected(m, upTo), k, now) == Lookup(m, k, now)) <==> upTo <= now
    ensures upTo <= now ==> forall m: Store, k, fp, ttl: int, k' ::
              Lookup(Claimed(Collected(m, upTo), k, fp, ttl, now), k', now) == Lookup(Claimed(m, k, fp, ttl, now), k', now)
  {
    if upTo > now {
      var m: Store := map["k" := Entry(Record(Completed, "", "r"), upTo)];
      assert Lookup(m, "k", now).Some? && Lookup(Collected(m, upTo), "k", now).None?;
    }
  }
}

/** Claim, handler and completion in one transaction (middleware/idempotency.go:194-279, 395-480). */
module TransactionalDedup {
  import opened Options
  import opened IdempotencyStore

  datatype Reply = Success(response: string) | Conflict | Mismatch | Error

  /** One committed handler run: its key is taken from `at` until `until`. */
  datatype Execution = Execution(key: string, fingerprint: string, response: string, at: int, until: int)

  const MAX_REQUEST_ID := 255

  datatype Request = Request(tenant: string, requestId: Option<string>, validateOnly: bool, fingerprint: string)

  datatype Gate = Passthrough | TooLong | Keyed(key: Key, fingerprint: string)

  function IdemGate(r: Request, fullMethod: string, disableFingerprint: bool): Gate {
    if r.requestId.None? || r.requestId.value == "" || r.validateOnly then Passthrough
    else if |r.requestId.value| > MAX_REQUEST_ID then TooLong
    else Keyed(Key(r.tenant, fullMethod, r.requestId.value), if disableFingerprint then "" else r.fingerprint)
  }

  /** Two keyed requests meet on one record exactly when tenant, method and request id agree: requests
      of different tenants never do. NUL-free tenants and methods are what MemKey needs. */
  lemma GateKeysApart(a: Request, b: Request, ma: string, mb: string, disableA: bool, disableB: bool)
    requires IdemGate(a, ma, disableA).Keyed? && IdemGate(b, mb, disableB).Keyed?
    requires NUL !in a.tenant && NUL !in b.tenant && NUL !in ma && NUL !in mb
    ensures a.requestId.Some? && b.requestId.Some?
    ensures MemKey(IdemGate(a, ma, disableA).key) == MemKey(IdemGate(b, mb, disableB).key)
            <==> a.tenant == b.tenant && ma == mb && a.requestId.value == b.requestId.value
  {
    MemKeyInjective(IdemGate(a, ma, disableA).key, IdemGate(b, mb, disableB).key);
  }

  ghost function EntryOf(e: Execution): Entry { Entry(Record(Completed, e.fingerprint, e.response), e.until) }

  ghost predicate Disjoint(es: seq<Execution>) {
    forall i, j :: 0 <= i < j < |es| && es[i].key == es[j].key ==> es[i].until <= es[j].at
  }

  ghost predicate Recorded(m: Store, e: Execution, now: int) {
    e.at <= now && (e.until > now ==> e.key in m && m[e.key] == EntryOf(e))
  }

  /** Between transactions nothing is in progress; every record is some execution's, every execution
      whose window is open has its record, and windows of one key do not overlap. */
  ghost predicate Consistent(m: Store, es: seq<Execution>, now: int) {
    && (forall k :: k in m ==> m[k].rec.status.Completed? && exists e :: e in es && e.key == k && m[k] == EntryOf(e))
    && (forall i :: 0 <= i < |es| ==> Recorded(m, es[i], now))
    && Disjoint(es)
  }

  /** Committing a run claimed at `at`, when its key was not live, keeps the state consistent. */
  lemma CommitKeeps(m: Store, es: seq<Execution>, run: Execution, now: int)
    requires Consistent(m, es, run.at) && !Live(m, run.key, run.at) && run.at <= now
    ensures Consistent(m[run.key := EntryOf(run)], es + [run], now)
  {
    var m', es' := m[run.key := EntryOf(run)], es + [run];
    forall i | 0 <= i < |es'| ensures Recorded(m', es'[i], now) && (i < |es| && es[i].key == run.key ==> es[i].until <= run.at) {
      if i < |es| { assert Recorded(m, es[i], run.at); }
    }
    forall k | k in m' ensures m'[k].rec.status.Completed? && exists e :: e in es' && e.key == k && m'[k] == EntryOf(e) {
      if k == run.key {
        assert es'[|es|] == run;
      } else {
        var e :| e in es && e.key == k && m[k] == EntryOf(e);
        assert e in es';
      }
    }
  }

  lemma CollectKeeps(m: Store, es: seq<Execution>, upTo: int, now: int)
    requires Consistent(m, es, now) && upTo <= now
    ensures Consistent(Collected(m, upTo), es, now)
  {
    forall i | 0 <= i < |es| ensures Recorded(Collected(m, upTo), es[i], now) { assert Recorded(m, es[i], now); }
  }

  lemma TimePasses(m: Store, es: seq<Execution>, now: int, later: int)
    requires Consistent(m, es, now) && now <= later
    ensures Consistent(m, es, later)
  {
    forall i | 0 <= i < |es| ensures Recorded(m, es[i], later) { assert Recorded(m, es[i], now); }
  }

  class DedupServer {
    var m: Store
    /** The handlers' committed writes, held in the same transaction state. */
    var executions: seq<Execution>
    var now: int
    const ttl: int

    constructor (ttl: int, now: int)
      ensures Valid() && executions == [] && this.now == now && this.ttl == if ttl <= 0 then 86400 else ttl
    {
      m, executions, this.now := map[], [], now;
      this.ttl := if ttl <= 0 then 86400 else ttl;
    }

    ghost predicate Valid() reads this { ttl > 0 && Consistent(m, executions, now) }

    /** A live key has exactly one open execution, and it is the one its record replays. */
    lemma LiveKeyRanOnce(k: string) returns (e: Execution)
      requires Valid() && Live(m, k, now)
      ensures e in executions && e.key == k && e.until > now && m[k] == EntryOf(e)
      ensures forall e' :: e' in executions && e'.key == k && e'.until > now ==> e' == e
      ensures forall i, j :: 0 <= i < j < |executions| && executions[i] == e ==> executions[j] != e
    {
      e :| e in executions && e.key == k && m[k] == EntryOf(e);
      forall e' | e' in executions && e'.key == k && e'.until > now ensures e' == e {
        var i :| 0 <= i < |executions| && executions[i] == e;
        var j :| 0 <= j < |executions| && executions[j] == e';
      }
    }

    method Tick(t: int)
      requires Valid()
      modifies this`now
      ensures Valid() && now == if t > old(now) then t else old(now)
    {
      if t > now { now := t; }
    }

    /** Up to the current time collection changes no answer; `CollectInvisible` has the converse. */
    method GC(upTo: int)
      requires Valid()
      modifies this`m
      ensures m == Collected(old(m), upTo)
      ensures upTo <= now ==> Valid() && forall k :: Lookup(m, k, now) == Lookup(old(m), k, now)
    {
      if upTo <= now { CollectKeeps(m, executions, upTo, now); }
      m := map k | k in m && m[k].expiresAt > upTo :: m[k];
    }

    /** What a live record answers: its own response, or a mismatch when both fingerprints are there
        and differ. */
    function Replayed(rec: Record, fp: string): (r: Reply)
      ensures fp != "" && rec.fingerprint != "" && fp != rec.fingerprint ==> r == Mismatch
      ensures fp == "" || rec.fingerprint == "" || fp == rec.fingerprint ==> r == Success(rec.response)
    {
      if FingerprintAgrees(fp, rec.fingerprint) then Success(rec.response) else Mismatch
    }

    /** An execution of the key whose window was still open at `since`. */
    ghost predicate OpenRun(e: Execution, k: string, since: int)
      reads this
    {
      e in executions && e.key == k && e.until > since
    }

    /** A success carries the response of a committed execution of the same key, open since `since`,
        whose fingerprint does not contradict the request; a mismatch is reported only against such
        an execution with another fingerprint; a conflict is never reported. */
    ghost predicate Answers(r: Reply, k: string, fp: string, since: int)
      reads this
    {
      && !r.Conflict?
      && (r.Success? ==>
            exists e :: OpenRun(e, k, since) && e.response == r.response && (fp == "" || e.fingerprint == "" || fp == e.fingerprint))
      && (r.Mismatch? ==> exists e :: OpenRun(e, k, since) && fp != "" && e.fingerprint != "" && fp != e.fingerprint)
    }

    /** Answering from a live record; nothing is in progress outside a transaction. */
    method ReplayLive(k: string, fp: string) returns (r: Reply)
      requires Valid() && Live(m, k, now)
      ensures r == Replayed(m[k].rec, fp) && Answers(r, k, fp, now)
      ensures r == if fp != "" && m[k].rec.fingerprint != "" && fp != m[k].rec.fingerprint then Mismatch else Success(m[k].rec.response)
    {
      var e := LiveKeyRanOnce(k);
      assert OpenRun(e, k, now);
      var rec := m[k].rec;
      if rec.status.InProgress? { return Conflict; }
      if !FingerprintAgrees(fp, rec.fingerprint) { return Mismatch; }
      return Success(rec.response);
    }

    /** The non-transactional fast path; `None` falls through, which it does exactly on a failed lookup
        and on a key that is not live. */
    method FastReplay(k: string, fp: string, lookupFails: bool) returns (r: Option<Reply>)
      requires Valid()
      ensures r.Some? <==> !lookupFails && k in m && now < m[k].expiresAt
      ensures r.Some? ==> Live(m, k, now) && r.value == Replayed(m[k].rec, fp) && Answers(r.value, k, fp, now)
    {
      if lookupFails { return None; }
      if Lookup(m, k, now).None? { return None; }
      var reply := ReplayLive(k, fp);
      return Some(reply);
    }

    /** One transaction: claim, run, complete; any failure restores records and effects. `fails` says
        whether the handler or the marshalling of its response fails, should it run. */
    method SlowPath(k: string, fp: string, fails: bool) returns (r: Reply)
      requires Valid()
      modifies this
      ensures Valid() && Answers(r, k, fp, old(now)) && now >= old(now) && old(executions) <= executions
      ensures !r.Success? ==> m == old(m) && executions == old(executions)
      ensures Live(old(m), k, old(now)) ==>
                r == Replayed(old(m)[k].rec, fp) && m == old(m) && executions == old(executions) && now == old(now)
      ensures k in old(m) && old(now) < old(m)[k].expiresAt ==>
                var rec := old(m)[k].rec;
                r == if fp != "" && rec.fingerprint != "" && fp != rec.fingerprint then Mismatch else Success(rec.response)
      ensures !Live(old(m), k, old(now)) ==> (r.Success? <==> !fails) && (r.Error? <==> fails)
      ensures !Live(old(m), k, old(now)) && r.Success? ==>
                && executions == old(executions) + [Execution(k, fp, r.response, old(now), old(now) + ttl)]
                && m == old(m)[k := Entry(Record(Completed, fp, r.response), old(now) + ttl)]
    {
      if Lookup(m, k, now).Some? {
        r := ReplayLive(k, fp);
      } else {
        r := RunClaimed(k, fp, fails);
      }
    }

    /** A fresh claim: the handler runs inside the transaction and its effect commits with the record. */
    method RunClaimed(k: string, fp: string, fails: bool) returns (r: Reply)
      requires Valid() && !Live(m, k, now)
      modifies this
      ensures Valid() && now >= old(now) && (r.Success? <==> !fails) && (r.Error? <==> fails)
      ensures r.Error? ==> m == old(m) && executions == old(executions)
      ensures r.Success? ==>
                && executions == old(executions) + [Execution(k, fp, r.response, old(now), old(now) + ttl)]
                && m == old(m)[k := Entry(Record(Completed, fp, r.response), old(now) + ttl)]
                && Answers(r, k, fp, old(now))
    {
      var snapM, snapE := m, executions;
      var claimedAt := now;
      m := Claimed(m, k, fp, ttl, now);
      // the clock does not stop for the handler
      var response: string, elapsed: int := *, *;
      var run := Execution(k, fp, response, claimedAt, claimedAt + ttl);
      executions := executions + [run];
      if elapsed > 0 { now := now + elapsed; }
      var completed := Complete(m, k, response);
      if fails || completed.None? { // the claimed record is there, so completing does not fail
        m, executions := snapM, snapE;
        TimePasses(m, executions, claimedAt, now);
        return Error;
      }
      m := completed.value;
      CommitKeeps(snapM, snapE, run, now);
      assert m == snapM[k := EntryOf(run)] && executions[|snapE|] == run;
      assert OpenRun(run, k, old(now));
      return Success(response);
    }

    /** Other requests, the clock and the collector between two steps of a request. */
    method Interfere()
      requires Valid()
      modifies this
      ensures Valid() && now >= old(now) && old(executions) <= executions
    {
      var n: int := *;
      while n > 0
        invariant Valid() && now >= old(now) && old(executions) <= executions
      {
        n := n - 1;
        var t: int, k: string, fp: string, fails: bool := *, *, *, *;
        if * { Tick(t); }
        if * { GC(now); }
        if * { var r := SlowPath(k, fp, fails); }
      }
    }

    /** A live record is the same record for as long as it is live, whatever ran in between. */
    twostate lemma LiveStays(k: string)
      requires old(Valid()) && Valid() && old(now) <= now && old(executions) <= executions && Live(old(m), k, old(now))
      ensures now < old(m)[k].expiresAt ==> k in m && m[k] == old(m)[k]
    {
      if now < old(m)[k].expiresAt {
        var e :| e in old(executions) && e.key == k && old(m)[k] == EntryOf(e);
        var i :| 0 <= i < |old(executions)| && old(executions)[i] == e;
        assert executions[i] == e && Recorded(m, executions[i], now);
      }
    }

    /** The interceptor on a keyed request, others running between its two paths. A key that was
        live at the start and still is at the end is answered from that one record. */
    method Call(k: string, fp: string, fails: bool) returns (r: Reply)
      requires Valid()
      modifies this
      ensures Valid() && old(now) <= now && old(executions) <= executions && Answers(r, k, fp, old(now)) && (r.Error? ==> fails)
      ensures Live(old(m), k, old(now)) && now < old(m)[k].expiresAt ==>
                r == Replayed(old(m)[k].rec, fp) && k in m && m[k] == old(m)[k]
      ensures k in old(m) && old(now) <= now < old(m)[k].expiresAt ==>
                var rec := old(m)[k].rec;
                r == if fp != "" && rec.fingerprint != "" && fp != rec.fingerprint then Mismatch else Success(rec.response)
    {
      var lookupFails: bool := *;
      var fast := FastReplay(k, fp, lookupFails);
      if fast.Some? { return fast.value; }
      Interfere();
      if Live(old(m), k, old(now)) { LiveStays(k); }
      ghost var mid := now;
      r := SlowPath(k, fp, fails);
      assert forall e :: OpenRun(e, k, mid) ==> OpenRun(e, k, old(now));
    }

    /** The front gate: requests without an id (or only validating) run outside the protocol and
        over-long ids are refused; neither touches a record. */
    method Unary(req: Request, fullMethod: string, disableFingerprint: bool, fails: bool) returns (r: Option<Reply>)
      requires Valid()
      modifies this
      ensures Valid() && old(executions) <= executions
      ensures r.None? <==> req.requestId.None? || req.requestId.value == "" || req.validateOnly
      ensures req.requestId.Some? && |req.requestId.value| > 255 && !req.validateOnly ==> r == Some(Error) && m == old(m)
      ensures match IdemGate(req, fullMethod, disableFingerprint)
              case Passthrough => r.None? && m == old(m) && executions == old(executions)
              case TooLong => r == Some(Error) && m == old(m) && executions == old(executions)
              case Keyed(key, fp) =>
                && key == Key(req.tenant, fullMethod, req.requestId.value) && fp == (if disableFingerprint then "" else req.fingerprint)
                && r.Some? && Answers(r.value, MemKey(key), fp, old(now)) && (r.value.Error? ==> fails)
                && (Live(old(m), MemKey(key), old(now)) && now < old(m)[MemKey(key)].expiresAt ==>
                      r.value == Replayed(old(m)[MemKey(key)].rec, fp))
    {
      var gate := IdemGate(req, fullMethod, disableFingerprint);
      match gate {
        case Passthrough => return None;
        case TooLong => return Some(Error);
        case Keyed(key, fp) =>
          var reply := Call(MemKey(key), fp, fails);
          return Some(reply);
      }
    }
  }
}

/** Reserve, remote effect, complete: no transaction is held across the handler
    (middleware/idempotency.go:281-385, 465-470). A step system over any number of callers. */
module ReserveDedup {
  import opened Runs
  import opened Options
  import opened IdempotencyStore

  /** `timely` is the deployment rule that every handler settles before its claim expires. */
  datatype Config = Config(ttl: int, timely: bool)

  datatype Caller = Idle | Running(key: string, fingerprint: string, claimedAt: int)

  datatype System = System(m: Store, now: int, callers: map<nat, Caller>)

  datatype Event =
    | Claim(caller: nat, key: string, fingerprint: string)
    | Finish(caller: nat, response: string) // the response is completed
    | Release(caller: nat)                  // the handler failed; the reservation is abandoned
    | Lose(caller: nat)                     // completing or abandoning itself failed
    | Collect(upTo: int)
    | Tick(to: int)

  function CallerOf(s: System, c: nat): Caller { if c in s.callers then s.callers[c] else Idle }

  function Expiry(cfg: Config, c: Caller): int
    requires c.Running?
  {
    c.claimedAt + cfg.ttl
  }

  predicate InTime(cfg: Config, s: System, to: int) {
    forall c :: c in s.callers && s.callers[c].Running? ==> to < Expiry(cfg, s.callers[c])
  }

  function Apply(cfg: Config, s: System, e: Event): System {
    match e
    case Claim(c, k, fp) =>
      if CallerOf(s, c).Running? || Live(s.m, k, s.now) then s // replay or conflict, see Answer
      else s.(m := Claimed(s.m, k, fp, cfg.ttl, s.now), callers := s.callers[c := Running(k, fp, s.now)])
    case Finish(c, response) =>
      if !CallerOf(s, c).Running? then s
      else
        var done := Complete(s.m, CallerOf(s, c).key, response);
        s.(m := if done.Some? then done.value else s.m, callers := s.callers[c := Idle])
    case Release(c) =>
      if !CallerOf(s, c).Running? then s
      else s.(m := Abandoned(s.m, CallerOf(s, c).key), callers := s.callers[c := Idle])
    case Lose(c) => if !CallerOf(s, c).Running? then s else s.(callers := s.callers[c := Idle])
    case Collect(upTo) => if upTo <= s.now then s.(m := Collected(s.m, upTo)) else s
    case Tick(to) => if s.now <= to && (cfg.timely ==> InTime(cfg, s, to)) then s.(now := to) else s
  }

  function Stepper(cfg: Config): (System, Event) -> System { (s: System, e: Event) => Apply(cfg, s, e) }

  function Run(cfg: Config, s: System, es: seq<Event>): System { Fold(Stepper(cfg), s, es) }

  const INIT := System(map[], 0, map[])

  datatype Answer = Fresh | Replay(response: string) | Conflict | Mismatch

  /** What a caller presenting `k` gets, by the fast path and by the claim alike. */
  function AnswerTo(s: System, k: string, fp: string): Answer {
    match Lookup(s.m, k, s.now)
    case None => Fresh
    case Some(rec) =>
      if rec.status.InProgress? then Conflict
      else if FingerprintAgrees(fp, rec.fingerprint) then Replay(rec.response)
      else Mismatch
  }

  /** At most one handler per key runs at any time. */
  ghost predicate Exclusive(s: System) {
    forall a, b :: a in s.callers && b in s.callers && a != b && s.callers[a].Running? && s.callers[b].Running? ==>
      s.callers[a].key != s.callers[b].key
  }

  ghost predicate Reserved(cfg: Config, s: System, c: Caller) {
    c.Running? ==>
      && s.now < Expiry(cfg, c) && c.key in s.m
      && s.m[c.key] == Entry(Record(InProgress, c.fingerprint, ""), Expiry(cfg, c))
  }

  /** Every running handler still owns a live reservation of its key. */
  ghost predicate Inv(cfg: Config, s: System) {
    && Exclusive(s)
    && forall c :: c in s.callers ==> Reserved(cfg, s, s.callers[c])
  }

  lemma ApplyKeeps(cfg: Config, s: System, e: Event)
    requires cfg.timely && cfg.ttl > 0 && Inv(cfg, s)
    ensures Inv(cfg, Apply(cfg, s, e))
  {
    var s' := Apply(cfg, s, e);
    forall c | c in s'.callers ensures Reserved(cfg, s', s'.callers[c]) {
      if c in s.callers { assert Reserved(cfg, s, s.callers[c]); }
    }
    if e.Claim? && s' != s {
      forall a | a in s.callers && a != e.caller && s.callers[a].Running? ensures s.callers[a].key != e.key {
        assert Reserved(cfg, s, s.callers[a]);
      }
    }
  }

  /** A completed record is untouched by every step until it expires. */
  lemma CompletedStays(cfg: Config, s: System, e: Event, k: string)
    requires cfg.timely && cfg.ttl > 0 && Inv(cfg, s)
    requires k in s.m && s.m[k].rec.status.Completed? && s.now < s.m[k].expiresAt
    ensures Apply(cfg, s, e).now < s.m[k].expiresAt ==> k in Apply(cfg, s, e).m && Apply(cfg, s, e).m[k] == s.m[k]
  {
    if e.Finish? || e.Release? {
      var c := CallerOf(s, e.caller);
      if c.Running? { assert Reserved(cfg, s, c); }
    }
  }

  /** A released reservation can be claimed again at once, by anybody. */
  lemma ReleasedIsFree(cfg: Config, s: System, c: nat, k: string, fp: string)
    requires cfg.ttl > 0 && Inv(cfg, s) && CallerOf(s, c).Running? && CallerOf(s, c).key == k
    ensures AnswerTo(Apply(cfg, s, Release(c)), k, fp) == Fresh
    ensures forall d :: !CallerOf(Apply(cfg, s, Release(c)), d).Running? ==>
              CallerOf(Apply(cfg, Apply(cfg, s, Release(c)), Claim(d, k, fp)), d).Running?
  {
    assert Reserved(cfg, s, CallerOf(s, c));
  }

  /** A completed reservation replays to every later caller with no other fingerprint. */
  lemma FinishedReplays(cfg: Config, s: System, c: nat, response: string, fp: string)
    requires cfg.ttl > 0 && Inv(cfg, s) && CallerOf(s, c).Running?
    ensures var (x, s') := (CallerOf(s, c), Apply(cfg, s, Finish(c, response)));
            AnswerTo(s', x.key, fp) == if fp != "" && x.fingerprint != "" && fp != x.fingerprint then Mismatch else Replay(response)
  {
    assert Reserved(cfg, s, CallerOf(s, c));
  }

  /** While a handler runs, every other caller of its key gets a conflict. */
  lemma RunningConflicts(cfg: Config, s: System, c: nat, fp: string)
    requires Inv(cfg, s) && CallerOf(s, c).Running?
    ensures AnswerTo(s, CallerOf(s, c).key, fp) == Conflict
  {
    assert Reserved(cfg, s, CallerOf(s, c));
  }

  /** Collecting forgets exactly the records that have expired by then. */
  lemma CollectForgets(cfg: Config, s: System, upTo: int, k: string)
    requires upTo <= s.now
    ensures var m' := Apply(cfg, s, Collect(upTo)).m;
            (k in m' <==> k in s.m && s.m[k].expiresAt > upTo) && (k in m' ==> m'[k] == s.m[k])
  {}

  lemma NowRises(cfg: Config, s: System, es: seq<Event>)
    ensures s.now <= Run(cfg, s, es).now
    decreases |es|
  {
    if es != [] { NowRises(cfg, Apply(cfg, s, es[0]), es[1..]); }
  }

  lemma {:induction false} RunKeeps(cfg: Config, s: System, es: seq<Event>)
    requires cfg.timely && cfg.ttl > 0 && Inv(cfg, s)
    ensures Inv(cfg, Run(cfg, s, es))
    decreases |es|
  {
    if es != [] {
      ApplyKeeps(cfg, s, es[0]);
      RunKeeps(cfg, Apply(cfg, s, es[0]), es[1..]);
    }
  }

  /** Over every interleaving, a completed record survives unchanged until it expires, so every later
      caller with an agreeing fingerprint gets exactly its response. */
  lemma {:induction false} CompletedSurvives(cfg: Config, s: System, es: seq<Event>, k: string, fp: string)
    requires cfg.timely && cfg.ttl > 0 && Inv(cfg, s)
    requires k in s.m && s.m[k].rec.status.Completed? && Run(cfg, s, es).now < s.m[k].expiresAt
    ensures k in Run(cfg, s, es).m && Run(cfg, s, es).m[k] == s.m[k]
    ensures AnswerTo(Run(cfg, s, es), k, fp) ==
            if fp != "" && s.m[k].rec.fingerprint != "" && fp != s.m[k].rec.fingerprint then Mismatch else Replay(s.m[k].rec.response)
    decreases |es|
  {
    NowRises(cfg, s, es);
    if es != [] {
      NowRises(cfg, Apply(cfg, s, es[0]), es[1..]);
      CompletedStays(cfg, s, es[0], k);
      ApplyKeeps(cfg, s, es[0]);
      CompletedSurvives(cfg, Apply(cfg, s, es[0]), es[1..], k, fp);
    }
  }

  // ----- handlers that outlive their TTL

  /** Two handlers of one key overlap once a claim may outlive its TTL. */
  lemma LateHandlerOverlaps(cfg: Config) returns (es: seq<Event>)
    requires cfg.ttl > 0 && !cfg.timely
    ensures var s := Run(cfg, INIT, es);
            && s == System(map["k" := Entry(Record(InProgress, "", ""), 2 * cfg.ttl)], cfg.ttl,
                           map[1 := Running("k", "", 0), 2 := Running("k", "", cfg.ttl)])
            && !Exclusive(s)
  {
    var e1, e2, e3 := Claim(1, "k", ""), Tick(cfg.ttl), Claim(2, "k", "");
    FoldSnoc(Stepper(cfg), INIT, [], e1);
    FoldSnoc(Stepper(cfg), INIT, [] + [e1], e2);
    es := [] + [e1] + [e2] + [e3];
    FoldSnoc(Stepper(cfg), INIT, [] + [e1] + [e2], e3);
    var s1 := Apply(cfg, INIT, e1);
    assert s1 == System(map["k" := Entry(Record(InProgress, "", ""), cfg.ttl)], 0, map[1 := Running("k", "", 0)]);
    var s := Run(cfg, INIT, es);
    assert s.callers[1].Running? && s.callers[2].Running? && s.callers[1].key == s.callers[2].key;
  }

  /** Handlers of one key exclude each other in every run exactly when they all settle within the
      TTL of their claim. */
  lemma ExclusiveExactlyWhenTimely(cfg: Config)
    requires cfg.ttl > 0
    ensures (forall es :: Exclusive(Run(cfg, INIT, es))) <==> cfg.timely
  {
    if cfg.timely {
      forall es ensures Exclusive(Run(cfg, INIT, es)) { RunKeeps(cfg, INIT, es); }
    } else {
      var es := LateHandlerOverlaps(cfg);
    }
  }

  /** From `s` on, `es` leaves every completed record that has not expired by its end as it was. */
  ghost predicate Durable(cfg: Config, s: System, es: seq<Event>) {
    forall k :: k in s.m && s.m[k].rec.status.Completed? && Run(cfg, s, es).now < s.m[k].expiresAt ==>
      k in Run(cfg, s, es).m && Run(cfg, s, es).m[k] == s.m[k]
  }

  /** The late handler completes over the second handler's unexpired response. */
  lemma LateFinishOverwrites(cfg: Config) returns (before: seq<Event>, after: seq<Event>)
    requires cfg.ttl > 0 && !cfg.timely
    ensures !Durable(cfg, Run(cfg, INIT, before), after)
  {
    var es := LateHandlerOverlaps(cfg);
    before, after := es + [Finish(2, "b")], [] + [Finish(1, "a")];
    FoldSnoc(Stepper(cfg), INIT, es, Finish(2, "b"));
    var s := Run(cfg, INIT, before);
    assert s.m == map["k" := Entry(Record(Completed, "", "b"), 2 * cfg.ttl)] && s.now == cfg.ttl;
    FoldSnoc(Stepper(cfg), s, [], Finish(1, "a"));
    assert Run(cfg, s, after).m["k"].rec.response == "a" && s.m["k"].rec.response == "b";
  }

  /** Completed records survive unchanged to their expiry in every run exactly when all handlers
      settle within the TTL of their claim. */
  lemma DurableExactlyWhenTimely(cfg: Config)
    requires cfg.ttl > 0
    ensures (forall before, after :: Durable(cfg, Run(cfg, INIT, before), after)) <==> cfg.timely
  {
    if cfg.timely {
      forall before, after ensures Durable(cfg, Run(cfg, INIT, before), after) {
        RunKeeps(cfg, INIT, before);
        var s := Run(cfg, INIT, before);
        forall k | k in s.m && s.m[k].rec.status.Completed? && Run(cfg, s, after).now < s.m[k].expiresAt
          ensures k in Run(cfg, s, after).m && Run(cfg, s, after).m[k] == s.m[k]
        {
          CompletedSurvives(cfg, s, after, k, "");
        }
      }
    } else {
      var before, after := LateFinishOverwrites(cfg);
    }
  }
}
