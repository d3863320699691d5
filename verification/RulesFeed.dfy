/** List-then-watch replication of rulesets (rules/static.go, rules/cache.go): operations on values,
    the objects that run them, and a system in which updates interleave with watch, snapshot and
    delivery. */
module RulesFeed {
  import opened Options

  /** `None` is a deletion. */
  datatype Event<V> = Event(tenant: string, value: Option<V>, revision: nat)

  function ApplyChange<V>(m: map<string, V>, e: Event<V>): map<string, V> {
    if e.value.None? then m - {e.tenant} else m[e.tenant := e.value.value]
  }

  datatype CacheState<V> = CacheState(data: map<string, V>, ready: bool, rev: nat)

  /** One delivered event; events at or below the applied revision are skipped. */
  function Folded<V>(c: CacheState<V>, e: Event<V>): CacheState<V> {
    if e.revision != 0 && e.revision <= c.rev then c.(ready := true)
    else CacheState(ApplyChange(c.data, e), true, if e.revision > c.rev then e.revision else c.rev)
  }

  // ----- the objects

  const WATCH_BUFFER := 64

  function Room<V>(buffer: seq<Event<V>>): nat {
    if |buffer| < WATCH_BUFFER then WATCH_BUFFER - |buffer| else 0
  }

  /** A watcher's channel: everything sent so far, what waits in the buffer, and whether a full
      buffer ever lost an event. */
  datatype Channel<V> = Channel(sent: seq<Event<V>>, buffer: seq<Event<V>>, dropped: bool)

  /** The channel after `es`: the first ones that fit wait, in order, behind what was there. */
  function Sending<V>(ch: Channel<V>, es: seq<Event<V>>): Channel<V> {
    Channel(ch.sent + es, ch.buffer + if |es| <= Room(ch.buffer) then es else es[..Room(ch.buffer)],
            ch.dropped || |es| > Room(ch.buffer))
  }

  lemma SendingTwice<V>(ch: Channel<V>, es: seq<Event<V>>, more: seq<Event<V>>)
    ensures Sending(Sending(ch, es), more) == Sending(ch, es + more)
  {
    var once := Sending(ch, es);
    if |es| <= Room(ch.buffer) {
      assert Room(once.buffer) == Room(ch.buffer) - |es|;
    } else {
      assert Room(once.buffer) == 0 && (es + more)[..Room(ch.buffer)] == es[..Room(ch.buffer)];
    }
  }

  class StaticSource<V> {
    var rules: map<string, V>
    var revision: nat
    /** The watcher's channel buffer, and whether a full buffer ever lost an event. */
    var buffer: seq<Event<V>>
    var dropped: bool
    ghost var sent: seq<Event<V>>

    constructor ()
      ensures rules == map[] && revision == 0 && buffer == [] && !dropped && sent == []
    {
      rules, revision, buffer, dropped, sent := map[], 0, [], false, [];
    }

    method Broadcast(e: Event<V>)
      modifies this`buffer, this`dropped, this`sent
      ensures Watcher() == Sending(old(Watcher()), [e])
      ensures |old(buffer)| < 64 ==> buffer == old(buffer) + [e] && dropped == old(dropped)
      ensures |old(buffer)| >= 64 ==> buffer == old(buffer) && dropped
    {
      sent := sent + [e];
      if |buffer| < WATCH_BUFFER { buffer := buffer + [e]; } else { dropped := true; }
    }

    ghost function Watcher(): Channel<V> reads this { Channel(sent, buffer, dropped) }

    method Set(tenant: string, v: V)
      modifies this
      ensures Watcher() == Sending(old(Watcher()), [Event(tenant, Some(v), old(revision) + 1)])
      ensures rules == ApplyChange(old(rules), Event(tenant, Some(v), old(revision) + 1)) && revision == old(revision) + 1
      ensures rules == old(rules)[tenant := v]
    {
      rules := rules[tenant := v];
      revision := revision + 1;
      Broadcast(Event(tenant, Some(v), revision));
    }

    method Delete(tenant: string)
      modifies this
      ensures tenant !in old(rules) ==> unchanged(this)
      ensures tenant in old(rules) ==>
                && Watcher() == Sending(old(Watcher()), [Event(tenant, None, old(revision) + 1)])
                && rules == ApplyChange(old(rules), Event(tenant, None, old(revision) + 1)) && revision == old(revision) + 1
                && rules == old(rules) - {tenant}
    {
      if tenant !in rules { return; }
      rules := rules - {tenant};
      revision := revision + 1;
      Broadcast(Event(tenant, None, revision));
    }

    /** Reconciles to a whole document: `es` are the single changes it is made of. */
    method Replace(next: map<string, V>) returns (ghost es: seq<Event<V>>)
      modifies this
      ensures rules == next && Made(old(rules), old(revision), es) && Watcher() == Sending(old(Watcher()), es)
    {
      es := DeleteAll(rules.Keys - next.Keys);
      ghost var more := SetAll(next);
      MadeTrans(old(rules), old(revision), es, more);
      SendingTwice(old(Watcher()), es, more);
      es := es + more;
    }

    /** The source is what the changes `es` made of `m` at revision `r`. */
    ghost predicate Made(m: map<string, V>, r: nat, es: seq<Event<V>>)
      reads this
    {
      Numbered(r, es) && revision == r + |es| && rules == Fold(m, es)
    }

    lemma MadeTrans(m: map<string, V>, r: nat, es: seq<Event<V>>, more: seq<Event<V>>)
      requires Numbered(r, es) && Made(Fold(m, es), r + |es|, more)
      ensures Made(m, r, es + more)
    {
      FoldConcat(m, es, more);
    }

    method DeleteAll(tenants: set<string>) returns (ghost es: seq<Event<V>>)
      requires tenants <= rules.Keys
      modifies this
      ensures rules.Keys == old(rules).Keys - tenants && Made(old(rules), old(revision), es) && Watcher() == Sending(old(Watcher()), es)
    {
      es := [];
      var gone := tenants;
      while gone != {}
        invariant gone <= tenants && rules.Keys == old(rules).Keys - (tenants - gone)
        invariant Made(old(rules), old(revision), es) && Watcher() == Sending(old(Watcher()), es)
        decreases |gone|
      {
        var tenant :| tenant in gone;
        ghost var e := Event(tenant, None, revision + 1);
        FoldAppend(old(rules), es, e);
        SendingTwice(old(Watcher()), es, [e]);
        Delete(tenant);
        es := es + [e];
        gone := gone - {tenant};
      }
    }

    method SetAll(next: map<string, V>) returns (ghost es: seq<Event<V>>)
      requires rules.Keys <= next.Keys
      modifies this
      ensures rules == next && Made(old(rules), old(revision), es) && Watcher() == Sending(old(Watcher()), es)
    {
      es := [];
      var todo := next.Keys;
      while todo != {}
        invariant todo <= next.Keys && rules.Keys <= next.Keys
        invariant forall t :: t in next && t !in todo ==> t in rules && rules[t] == next[t]
        invariant Made(old(rules), old(revision), es) && Watcher() == Sending(old(Watcher()), es)
        decreases |todo|
      {
        var tenant :| tenant in todo;
        ghost var e := Event(tenant, Some(next[tenant]), revision + 1);
        FoldAppend(old(rules), es, e);
        SendingTwice(old(Watcher()), es, [e]);
        Set(tenant, next[tenant]);
        es := es + [e];
        todo := todo - {tenant};
      }
    }
  }

  class Cache<V> {
    var data: map<string, V>
    var ready: bool
    var rev: nat

    constructor ()
      ensures State() == CacheState(map[], false, 0)
    {
      data, ready, rev := map[], false, 0;
    }

    ghost function State(): CacheState<V> reads this { CacheState(data, ready, rev) }

    method LoadSnapshot(snapshot: map<string, V>, revision: nat)
      modifies this
      ensures State() == CacheState(snapshot, true, revision)
    {
      data, rev, ready := snapshot, revision, true;
    }

    method Apply(e: Event<V>)
      modifies this
      ensures State() == Folded(old(State()), e)
      ensures ready && rev == if e.revision > old(rev) then e.revision else old(rev)
      ensures data == if 0 < e.revision <= old(rev) then old(data)
                      else if e.value.None? then old(data) - {e.tenant} else old(data)[e.tenant := e.value.value]
    {
      ready := true;
      if e.revision != 0 && e.revision <= rev { return; }
      if e.revision > rev { rev := e.revision; }
      if e.value.None? { data := data - {e.tenant}; } else { data := data[e.tenant := e.value.value]; }
    }
  }

  // ----- change histories

  function Fold<V>(m: map<string, V>, h: seq<Event<V>>): map<string, V>
    decreases |h|
  {
    if h == [] then m else Fold(ApplyChange(m, h[0]), h[1..])
  }

  lemma {:induction false} FoldAppend<V>(m: map<string, V>, h: seq<Event<V>>, e: Event<V>)
    ensures Fold(m, h + [e]) == ApplyChange(Fold(m, h), e)
    decreases |h|
  {
    if h == [] {
      assert h + [e] == [e];
      assert Fold(ApplyChange(m, e), []) == ApplyChange(m, e);
    } else {
      assert (h + [e])[1..] == h[1..] + [e];
      FoldAppend(ApplyChange(m, h[0]), h[1..], e);
    }
  }

  lemma {:induction false} FoldConcat<V>(m: map<string, V>, h: seq<Event<V>>, h': seq<Event<V>>)
    ensures Fold(m, h + h') == Fold(Fold(m, h), h')
    decreases |h|
  {
    if h == [] {
      assert h + h' == h';
    } else {
      assert (h + h')[1..] == h[1..] + h';
      FoldConcat(ApplyChange(m, h[0]), h[1..], h');
    }
  }

  ghost predicate Numbered<V>(start: nat, h: seq<Event<V>>) {
    forall k :: 0 <= k < |h| ==> h[k].revision == start + k + 1
  }

  // ----- the system: one source, one watching cache

  /** `history` is every change so far; `queue` the events sent since the watch and not delivered;
      `lost` whether a full buffer ever dropped one. */
  datatype System<V> = System(rules: map<string, V>, history: seq<Event<V>>, watching: bool, queue: seq<Event<V>>,
                              lost: bool, loaded: bool, cache: CacheState<V>)

  /** A Replace is a run of Put and Remove with nothing in between. */
  datatype Action<V> = Put(tenant: string, value: V) | Remove(tenant: string) | Watch | Snapshot | Deliver

  function Emit<V>(s: System<V>, tenant: string, value: Option<V>): System<V> {
    var e := Event(tenant, value, |s.history| + 1);
    var room := |s.queue| < WATCH_BUFFER;
    s.(rules := ApplyChange(s.rules, e), history := s.history + [e],
       queue := if s.watching && room then s.queue + [e] else s.queue, lost := s.lost || (s.watching && !room))
  }

  /** Run opens the watch first, then takes the snapshot once. */
  function Act<V>(s: System<V>, a: Action<V>): System<V> {
    match a
    case Put(t, v) => Emit(s, t, Some(v))
    case Remove(t) => if t in s.rules then Emit(s, t, None) else s
    case Watch => s.(watching := true)
    case Snapshot => if s.watching && !s.loaded then s.(loaded := true, cache := CacheState(s.rules, true, |s.history|)) else s
    case Deliver =>
      if s.loaded && s.queue != [] then s.(queue := s.queue[1..], cache := Folded(s.cache, s.queue[0])) else s
  }

  function Run<V>(s: System<V>, acts: seq<Action<V>>): System<V>
    decreases |acts|
  {
    if acts == [] then s else Run(Act(s, acts[0]), acts[1..])
  }

  function Init<V>(): System<V> { System(map[], [], false, [], false, false, CacheState(map[], false, 0)) }

  ghost predicate Inv<V>(s: System<V>) {
    && Numbered(0, s.history) && s.rules == Fold(map[], s.history)
    && (s.watching || (s.queue == [] && !s.loaded))
    && (!s.lost ==> |s.queue| <= |s.history| && s.queue == s.history[|s.history| - |s.queue|..])
    && (s.loaded && !s.lost ==>
          && |s.history| - |s.queue| <= s.cache.rev <= |s.history|
          && s.cache.data == Fold(map[], s.history[..s.cache.rev]))
  }

  lemma EmitKeeps<V>(s: System<V>, tenant: string, value: Option<V>)
    requires Inv(s)
    ensures Inv(Emit(s, tenant, value))
  {
    var s' := Emit(s, tenant, value);
    FoldAppend(map[], s.history, s'.history[|s.history|]);
    if !s'.lost {
      var d := |s'.history| - |s'.queue|;
      assert s'.history[d..] == if s.watching then s.history[d..] + [s'.history[|s.history|]] else [];
    }
    if s.loaded && !s'.lost { assert s'.history[..s.cache.rev] == s.history[..s.cache.rev]; }
  }

  lemma DeliverKeeps<V>(s: System<V>)
    requires Inv(s) && s.loaded && s.queue != []
    ensures Inv(Act(s, Deliver))
  {
    if !s.lost {
      var d := |s.history| - |s.queue|;
      var e := s.queue[0];
      assert e == s.history[d] && e.revision == d + 1;
      if s.cache.rev == d {
        assert s.history[..d + 1] == s.history[..d] + [e];
        FoldAppend(map[], s.history[..d], e);
      }
    }
  }

  lemma {:induction false} RunKeeps<V>(s: System<V>, acts: seq<Action<V>>)
    requires Inv(s)
    ensures Inv(Run(s, acts))
    decreases |acts|
  {
    if acts != [] {
      match acts[0] {
        case Put(t, v) => EmitKeeps(s, t, Some(v));
        case Remove(t) => EmitKeeps(s, t, None);
        case Watch =>
        case Snapshot => assert s.history[..|s.history|] == s.history;
        case Deliver => if s.loaded && s.queue != [] { DeliverKeeps(s); }
      }
      RunKeeps(Act(s, acts[0]), acts[1..]);
    }
  }

  /** Whatever updates ran between watch and snapshot, while no event was dropped a loaded cache is at every step the fold of
      the source's history up to its revision, and once drained it equals the source. */
  lemma CacheFollowsSource<V>(acts: seq<Action<V>>)
    ensures var s := Run(Init<V>(), acts);
            s.loaded && !s.lost ==>
              && s.cache.rev <= |s.history| && s.cache.data == Fold(map[], s.history[..s.cache.rev])
              && (s.queue == [] ==> s.cache.data == s.rules)
  {
    RunKeeps(Init<V>(), acts);
    var s := Run(Init<V>(), acts);
    assert s.history[..|s.history|] == s.history;
  }

  function Deliveries<V>(n: nat): seq<Action<V>> { seq(n, _ => Deliver) }

  /** Delivering what waits in the buffer makes a loaded cache that lost nothing equal to the source. */
  lemma {:induction false} DrainCatchesUp<V>(s: System<V>)
    requires Inv(s) && s.loaded && !s.lost
    ensures var s' := Run(s, Deliveries(|s.queue|));
            s'.queue == [] && s'.rules == s.rules && s'.history == s.history && s'.cache.data == s.rules && s'.cache.rev == |s.history|
    decreases |s.queue|
  {
    if s.queue == [] {
      assert s.history[..|s.history|] == s.history;
    } else {
      DeliverKeeps(s);
      assert Deliveries<V>(|s.queue|)[1..] == Deliveries(|s.queue| - 1);
      DrainCatchesUp(Act(s, Deliver));
    }
  }
}
