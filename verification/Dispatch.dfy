/** Outbox to handlers: relay, synchronous bus and idempotent consumer (events/relay.go,
    events/consumer.go, events/dispatcher.go). Handlers and the bus fail arbitrarily; with
    `live == false` the process may stop after any commit (`Died`); another consumer sharing the
    marker store may commit any (event, handler) in between. */
module Dispatch {
  import opened Outbox

  // ----- idempotency keys

  const SEPARATOR := '\U{1F}'

  function IdempotencyKey(eventId: string, handler: string): string { eventId + [SEPARATOR] + handler }

  /** Keys tell the pairs of two event ids apart, whatever the handler names, exactly when neither
      id continues the other behind a separator. */
  lemma KeysApartExactly(id: string, id': string)
    requires id != id'
    ensures (forall h, h' :: IdempotencyKey(id, h) != IdempotencyKey(id', h')) <==>
            !(id + [SEPARATOR] <= id') && !(id' + [SEPARATOR] <= id)
  {
    if id + [SEPARATOR] <= id' { KeysMeet(id, id'); }
    if id' + [SEPARATOR] <= id { KeysMeet(id', id); }
    forall h, h' | IdempotencyKey(id, h) == IdempotencyKey(id', h')
      ensures id + [SEPARATOR] <= id' || id' + [SEPARATOR] <= id
    {
      KeySplit(id, h, id', h');
    }
  }

  lemma KeysMeet(id: string, id': string)
    requires id + [SEPARATOR] <= id'
    ensures IdempotencyKey(id, id'[|id| + 1..] + [SEPARATOR]) == IdempotencyKey(id', "")
  {
    assert id' == id + [SEPARATOR] + id'[|id| + 1..];
  }

  lemma KeySplit(id: string, h: string, id': string, h': string)
    requires IdempotencyKey(id, h) == IdempotencyKey(id', h')
    ensures (id == id' && h == h') || (id + [SEPARATOR] <= id' && SEPARATOR in id') || (id' + [SEPARATOR] <= id && SEPARATOR in id)
  {
    var k, k' := IdempotencyKey(id, h), IdempotencyKey(id', h');
    assert id == k[..|id|] && id' == k'[..|id'|] && k[|id|] == SEPARATOR && k'[|id'|] == SEPARATOR;
    assert h == k[|id| + 1..] && h' == k'[|id'| + 1..];
    if |id| < |id'| {
      assert id + [SEPARATOR] == k[..|id| + 1] == id'[..|id| + 1] && id'[|id|] == SEPARATOR;
    } else if |id'| < |id| {
      assert id' + [SEPARATOR] == k'[..|id'| + 1] == id[..|id'| + 1] && id[|id'|] == SEPARATOR;
    }
  }

  /** Keys of separator-free event ids never collide. */
  lemma KeyInjective(id: string, h: string, id': string, h': string)
    requires SEPARATOR !in id && SEPARATOR !in id'
    ensures IdempotencyKey(id, h) == IdempotencyKey(id', h') <==> id == id' && h == h'
  {
    if IdempotencyKey(id, h) == IdempotencyKey(id', h') {
      KeySplit(id, h, id', h');
    }
  }

  // ----- the consumer

  /** A committed effect of the `index`-th handler registered for the event's type. */
  datatype Effect = Effect(eventId: string, index: nat, name: string)

  datatype Applying = Applied | AlreadyApplied | HandlerFailed
  datatype Delivery = Ack | Nack | Died

  /** How handlers and bus behave during a call: nothing fails, the bus refuses everything, or anything
      may fail. */
  datatype Weather = Fair | BusDown | Mixed

  function KeyOf(e: Effect): string { IdempotencyKey(e.eventId, e.name) }

  ghost function Keys(es: seq<Effect>): set<string> { set e | e in es :: KeyOf(e) }

  /** No two effects share a key. */
  ghost predicate Once(es: seq<Effect>) {
    forall i, j :: 0 <= i < j < |es| ==> KeyOf(es[i]) != KeyOf(es[j])
  }

  ghost predicate Clean(es: seq<Effect>) { forall e :: e in es ==> SEPARATOR !in e.eventId }

  /** Some handler of that name has committed its effect for the event. */
  ghost predicate NameRan(es: seq<Effect>, id: string, name: string) {
    exists e :: e in es && e.eventId == id && e.name == name
  }

  lemma KeyMeansRan(es: seq<Effect>, id: string, name: string)
    requires Clean(es) && SEPARATOR !in id
    ensures IdempotencyKey(id, name) in Keys(es) <==> NameRan(es, id, name)
  {
    if IdempotencyKey(id, name) in Keys(es) {
      var e :| e in es && KeyOf(e) == IdempotencyKey(id, name);
      KeyInjective(id, name, e.eventId, e.name);
    }
  }

  lemma OnceAppend(es: seq<Effect>, e: Effect)
    requires Once(es) && KeyOf(e) !in Keys(es)
    ensures Once(es + [e]) && Keys(es + [e]) == Keys(es) + {KeyOf(e)}
  {
    forall i | 0 <= i < |es| ensures KeyOf(es[i]) != KeyOf(e) { assert es[i] in es; }
    assert forall x :: x in es + [e] <==> x in es || x == e;
  }

  class Consumer {
    /** Handler names per event type, in order of registration. */
    const handlers: map<string, seq<string>>
    /** An event id names one event, which has one type. */
    const typeOf: string -> string
    var markers: set<string>
    /** What the handlers' repositories hold, in commit order. */
    var effects: seq<Effect>

    constructor (handlers: map<string, seq<string>>, typeOf: string -> string)
      ensures Valid() && this.handlers == handlers && this.typeOf == typeOf && effects == []
    {
      this.handlers, this.typeOf, markers, effects := handlers, typeOf, {}, [];
    }

    function HandlersFor(eventType: string): seq<string> {
      if eventType in handlers then handlers[eventType] else []
    }

    /** Registered under that name at that place for the event's type. */
    predicate Genuine(e: Effect) {
      var hs := HandlersFor(typeOf(e.eventId));
      SEPARATOR !in e.eventId && e.index < |hs| && hs[e.index] == e.name
    }

    /** Markers are exactly the keys of the effects, and no two effects share one. */
    ghost predicate Valid()
      reads this
    {
      (forall e :: e in effects ==> Genuine(e)) && Once(effects) && markers == Keys(effects)
    }

    predicate IsEvent(r: Row) { SEPARATOR !in r.id && typeOf(r.id) == r.eventType }

    /** Every registered name has run. */
    ghost predicate NamesRan(r: Row)
      reads this
    {
      forall i :: 0 <= i < |HandlersFor(r.eventType)| ==> NameRan(effects, r.id, HandlersFor(r.eventType)[i])
    }

    /** Every registered handler has run. */
    ghost predicate AllRan(r: Row)
      reads this
    {
      forall i :: 0 <= i < |HandlersFor(r.eventType)| ==> Effect(r.id, i, HandlersFor(r.eventType)[i]) in effects
    }

    ghost predicate DistinctNames(eventType: string) {
      forall i, j :: 0 <= i < j < |HandlersFor(eventType)| ==> HandlersFor(eventType)[i] != HandlersFor(eventType)[j]
    }

    /** Two handlers of one event that both ran have different names. */
    lemma BothRan(x: Effect, y: Effect)
      requires Valid() && x in effects && y in effects && x != y && x.eventId == y.eventId
      ensures x.name != y.name
    {
      var i :| 0 <= i < |effects| && effects[i] == x;
      var j :| 0 <= j < |effects| && effects[j] == y;
      assert KeyOf(effects[i]) != KeyOf(effects[j]);
    }

    /** An acknowledged event ran all of its handlers exactly when their names are distinct: of two
        handlers under one name only one ever runs. */
    lemma AllRanExactlyWhenDistinct(r: Row)
      requires Valid() && IsEvent(r) && NamesRan(r)
      ensures AllRan(r) <==> DistinctNames(r.eventType)
    {
      var hs := HandlersFor(r.eventType);
      if DistinctNames(r.eventType) {
        forall i | 0 <= i < |hs| ensures Effect(r.id, i, hs[i]) in effects {
          assert NameRan(effects, r.id, hs[i]);
          var e :| e in effects && e.eventId == r.id && e.name == hs[i];
          assert e.index == i;
        }
      }
      if AllRan(r) {
        forall i, j | 0 <= i < j < |hs| ensures hs[i] != hs[j] {
          BothRan(Effect(r.id, i, hs[i]), Effect(r.id, j, hs[j]));
        }
      }
    }

    /** A marker exists exactly when a handler of that name committed its effect. */
    lemma MarkedIsApplied(id: string, name: string)
      requires Valid() && SEPARATOR !in id
      ensures IdempotencyKey(id, name) in markers <==> NameRan(effects, id, name)
    {
      KeyMeansRan(effects, id, name);
    }

    /** Handler and marker in one transaction: the effect commits with the first marker of its name. */
    method ApplyOnce(r: Row, i: nat, fails: bool) returns (a: Applying)
      requires Valid() && IsEvent(r) && i < |HandlersFor(r.eventType)|
      modifies this
      ensures Valid()
      ensures a.Applied? ==> effects == old(effects) + [Effect(r.id, i, HandlersFor(r.eventType)[i])]
      ensures a.Applied? ==> !NameRan(old(effects), r.id, HandlersFor(r.eventType)[i])
      ensures !a.Applied? ==> effects == old(effects) && markers == old(markers)
      ensures a.HandlerFailed? <==> fails
      ensures a.AlreadyApplied? <==> !fails && NameRan(old(effects), r.id, HandlersFor(r.eventType)[i])
      ensures !a.HandlerFailed? ==> NameRan(effects, r.id, HandlersFor(r.eventType)[i])
    {
      var name := HandlersFor(r.eventType)[i];
      MarkedIsApplied(r.id, name);
      var snapshot := effects;
      if fails { return HandlerFailed; }
      var e := Effect(r.id, i, name);
      effects := effects + [e];
      if KeyOf(e) in markers { // the unique marker refuses: the whole transaction rolls back
        effects := snapshot;
        return AlreadyApplied;
      }
      OnceAppend(snapshot, e);
      markers := markers + {KeyOf(e)};
      assert e in effects && forall x :: x in effects <==> x in snapshot || x == e;
      return Applied;
    }

    /** Acknowledged only once every handler name of the event has run. A `Seen` that misses markers,
        all of them even, changes nothing. */
    method Deliver(row: Row, live: bool, w: Weather) returns (d: Delivery)
      requires Valid() && IsEvent(row)
      modifies this
      ensures Valid() && old(effects) <= effects
      ensures d.Ack? ==> NamesRan(row) && (AllRan(row) <==> DistinctNames(row.eventType))
      ensures live ==> !d.Died?
      ensures live && w.Fair? ==> d.Ack?
    {
      var hs := HandlersFor(row.eventType);
      for i := 0 to |hs|
        invariant Valid() && old(effects) <= effects
        invariant forall j :: 0 <= j < i ==> NameRan(effects, row.id, hs[j])
      {
        var seen := false;
        if * { seen := IdempotencyKey(row.id, hs[i]) in markers; }
        MarkedIsApplied(row.id, hs[i]);
        if !seen {
          ghost var before := effects;
          Interfere();
          var fails: bool := *;
          var r := ApplyOnce(row, i, fails && !w.Fair?);
          RanStays(before, effects, row.id);
          if r.HandlerFailed? { return Nack; }
          if !live { if * { return Died; } }
        }
      }
      AllRanExactlyWhenDistinct(row);
      return Ack;
    }

    /** Any number of other deliveries, of anything, by consumers sharing the marker store. */
    method Interfere()
      requires Valid()
      modifies this
      ensures Valid() && old(effects) <= effects
    {
      var n: int := *;
      while n > 0
        invariant Valid() && old(effects) <= effects
      {
        n := n - 1;
        var r: Row, i: int, fails: bool := *, *, *;
        if IsEvent(r) && 0 <= i < |HandlersFor(r.eventType)| {
          var a := ApplyOnce(r, i, fails);
        }
      }
    }
  }

  lemma RanStays(es: seq<Effect>, es': seq<Effect>, id: string)
    requires es <= es'
    ensures forall name :: NameRan(es, id, name) ==> NameRan(es', id, name)
  {
    forall name | NameRan(es, id, name) ensures NameRan(es', id, name) {
      var e :| e in es && e.eventId == id && e.name == name;
      assert e in es';
    }
  }

  // ----- the relay

  datatype CursorState = CursorState(cursor: Cursor, headFailures: nat)

  class CursorStore {
    var cursors: map<string, CursorState>
    var dead: seq<(string, Row)>

    constructor ()
      ensures cursors == map[] && dead == []
    {
      cursors, dead := map[], [];
    }

    function At(name: string): CursorState reads this {
      if name in cursors then cursors[name] else CursorState(START, 0)
    }

    method SaveCursor(name: string, cursor: Cursor, headFailures: nat)
      modifies this`cursors
      ensures cursors == old(cursors)[name := CursorState(cursor, headFailures)]
    {
      cursors := cursors[name := CursorState(cursor, headFailures)];
    }

    method DeadLetter(name: string, r: Row)
      modifies this`dead
      ensures dead == old(dead) + [(name, r)]
    {
      dead := dead + [(name, r)];
    }
  }

  datatype Pump = Drained | Stopped | Crashed

  // ----- the books of a relay

  /** The stored rows in the order of the scan, how many of them lie at or before the saved cursor, the
      rows whose publish the bus accepted, in order, the rows that sorted at or before the cursor when
      they were appended, whether so far every row was appended behind all others, how often each
      row's publish was refused, and whether no row ever pushed in before a head with failures. */
  datatype Books = Books(line: seq<Row>, done: nat, accepted: seq<Row>, skipped: set<Row>, inTurn: bool,
                         refused: multiset<Row>, fair: bool)

  /** The failure count is the head row's own, and whoever is dead-lettered was refused often enough. */
  ghost predicate Judged(b: Books, dead: set<Row>, headFailures: nat, maxAttempts: nat) {
    && (b.done >= |b.line| ==> headFailures == 0)
    && (b.fair && b.done < |b.line| ==> headFailures <= b.refused[b.line[b.done]])
    && (b.fair ==> forall r :: r in dead ==> b.refused[r] >= maxAttempts)
  }

  ghost predicate OwnIds(line: seq<Row>) { forall i, j :: 0 <= i < j < |line| ==> line[i].id != line[j].id }

  ghost predicate NewId(line: seq<Row>, r: Row) { forall i :: 0 <= i < |line| ==> line[i].id != r.id }

  /** `r` sorts behind every row of `line`. */
  ghost predicate Last(line: seq<Row>, r: Row) { forall i :: 0 <= i < |line| ==> RowLess(line[i], r) }

  /** Published or dead-lettered by this relay. */
  ghost predicate Handled(b: Books, dead: set<Row>, r: Row) { r in b.accepted || r in dead }

  /** Skipped rows stay behind the cursor; the relay never publishes or dead-letters one. */
  ghost predicate SkippedForGood(b: Books, dead: set<Row>)
    requires b.done <= |b.line|
  {
    && (forall r :: r in b.skipped ==> r in b.line[..b.done] && !Handled(b, dead, r))
    && (forall r :: Handled(b, dead, r) ==> r in b.line)
  }

  /** Accepted publishes never go back, and at most the row after the cursor was published early. */
  ghost predicate NoneFarAhead(b: Books) {
    && (forall i, j :: 0 <= i < j < |b.accepted| ==> !RowLess(b.accepted[j], b.accepted[i]))
    && (forall i :: 0 <= i < |b.accepted| ==>
          b.accepted[i] in b.line && (b.done < |b.line| ==> !RowLess(b.line[b.done], b.accepted[i])))
  }

  ghost predicate InBooks(b: Books, dead: set<Row>) {
    && b.done <= |b.line| && InOrder(b.line) && OwnIds(b.line) && SkippedForGood(b, dead)
    && (b.inTurn ==> NoneFarAhead(b))
  }

  /** `r` would become the head in the place of a row whose failures were counted. */
  ghost predicate PushesIn(b: Books, r: Row, failures: nat) {
    failures > 0 && b.done < |b.line| && CursorBefore(CursorAt(b.line, b.done), r) && RowLess(r, b.line[b.done])
  }

  /** A row appended so that it takes place `p` in the line, with `failures` counted for the head. */
  ghost function Enlisted(b: Books, r: Row, p: nat, failures: nat): Books
    requires p <= |b.line|
  {
    Books(b.line[..p] + [r] + b.line[p..], if p < b.done then b.done + 1 else b.done, b.accepted,
          if p < b.done then b.skipped + {r} else b.skipped, b.inTurn && Last(b.line, r),
          b.refused, b.fair && !PushesIn(b, r, failures))
  }

  lemma OwnIdsInsert(line: seq<Row>, r: Row, p: nat)
    requires OwnIds(line) && NewId(line, r) && p <= |line|
    ensures OwnIds(line[..p] + [r] + line[p..]) && r !in line
  {
    var more := line[..p] + [r] + line[p..];
    forall i | 0 <= i < |more| ensures more[i] == if i < p then line[i] else if i == p then r else line[i - 1] {}
  }

  /** What an insertion does to the rows before a cursor. */
  lemma LineInsert(line: seq<Row>, r: Row, p: nat, n: nat)
    requires p <= |line| && n <= |line|
    ensures var (more, m) := (line[..p] + [r] + line[p..], if p < n then n + 1 else n);
            && CursorAt(more, m) == CursorAt(line, n)
            && (forall x :: x in more <==> x == r || x in line)
            && (forall x :: x in more[..m] <==> x in line[..n] || (x == r && p < n))
  {
    var more := line[..p] + [r] + line[p..];
    assert line == line[..p] + line[p..];
    if p < n {
      assert more[..n + 1] == line[..p] + [r] + line[p..n] && line[..n] == line[..p] + line[p..n];
    } else {
      assert more[..n] == line[..n];
    }
  }

  lemma AheadStays(b: Books, r: Row, p: nat, f: nat)
    requires p <= |b.line| && b.done <= |b.line| && InOrder(b.line) && NoneFarAhead(b) && Last(b.line, r)
    requires InOrder(Enlisted(b, r, p, f).line)
    ensures NoneFarAhead(Enlisted(b, r, p, f))
  {
    var (line, more) := (b.line, Enlisted(b, r, p, f).line);
    if p < |line| {
      assert more[p] == r && more[p + 1] == line[p];
      RowOrder(r, line[p], r);
    } else {
      assert more == line + [r];
      forall i | 0 <= i < |b.accepted| && b.done == |line| ensures !RowLess(r, b.accepted[i]) {
        var x :| 0 <= x < |line| && line[x] == b.accepted[i];
        RowOrder(r, b.accepted[i], r);
      }
    }
  }

  /** The books stay in order whatever is appended. */
  lemma EnlistKeeps(b: Books, dead: set<Row>, r: Row, p: nat, f: nat)
    requires InBooks(b, dead) && p <= |b.line| && NewId(b.line, r) && InOrder(Enlisted(b, r, p, f).line)
    ensures InBooks(Enlisted(b, r, p, f), dead)
    ensures CursorAt(Enlisted(b, r, p, f).line, Enlisted(b, r, p, f).done) == CursorAt(b.line, b.done)
    ensures forall x :: x in Enlisted(b, r, p, f).line ==> x == r || x in b.line
    ensures forall x :: x in Enlisted(b, r, p, f).line[..Enlisted(b, r, p, f).done] ==> x in b.line[..b.done] || x in Enlisted(b, r, p, f).skipped
  {
    var b' := Enlisted(b, r, p, f);
    LineInsert(b.line, r, p, b.done);
    OwnIdsInsert(b.line, r, p);
    forall x ensures Handled(b', dead, x) <==> Handled(b, dead, x) {}
    if b'.inTurn { AheadStays(b, r, p, f); }
  }

  lemma EnlistJudged(b: Books, dead: set<Row>, r: Row, p: nat, f: nat, maxAttempts: nat)
    requires InBooks(b, dead) && p <= |b.line| && Judged(b, dead, f, maxAttempts) && InOrder(Enlisted(b, r, p, f).line)
    requires CursorBefore(CursorAt(b.line, b.done), r) <==> b.done <= p
    ensures Judged(Enlisted(b, r, p, f), dead, f, maxAttempts)
  {
    var more := Enlisted(b, r, p, f).line;
    if p == b.done && b.done < |b.line| {
      assert more[p] == r && more[p + 1] == b.line[p];
      assert RowLess(more[p], more[p + 1]);
    } else if p > b.done {
      assert more[b.done] == b.line[b.done];
    } else if p < b.done < |b.line| {
      assert more[b.done + 1] == b.line[b.done];
    }
  }

  lemma NewHead(b: Books, r: Row, p: nat, f: nat)
    requires PushesIn(b, r, f) && b.done <= p <= |b.line| && InOrder(Enlisted(b, r, p, f).line)
    ensures p == b.done && Enlisted(b, r, p, f).line[b.done] == r
  {
    var more := Enlisted(b, r, p, f).line;
    if p > b.done {
      assert more[p] == r && more[b.done] == b.line[b.done];
      RowOrder(r, b.line[b.done], r);
    }
  }

  lemma Place(b: Books, rows: seq<Row>, r: Row, f: nat) returns (p: nat)
    requires InOrder(b.line) && b.done <= |b.line| && b.line == SortRows(rows) && NewId(b.line, r) && r.created > 0
    ensures p <= |b.line| && Enlisted(b, r, p, f).line == SortRows(rows + [r]) && InOrder(Enlisted(b, r, p, f).line)
    ensures CursorBefore(CursorAt(b.line, b.done), r) <==> b.done <= p
  {
    p := AppendSorted(rows, r, b.done);
  }

  /** The books after any append of an event under an id of its own. */
  lemma Append(b: Books, dead: set<Row>, rows: seq<Row>, r: Row, f: nat, maxAttempts: nat) returns (b': Books)
    requires InBooks(b, dead) && b.line == SortRows(rows) && NewId(b.line, r) && r.created > 0 && Judged(b, dead, f, maxAttempts)
    ensures InBooks(b', dead) && b'.line == SortRows(rows + [r]) && CursorAt(b'.line, b'.done) == CursorAt(b.line, b.done)
    ensures (forall x :: x in b'.line ==> x == r || x in b.line)
    ensures (forall x :: x in b'.line[..b'.done] && x !in b'.skipped ==> x in b.line[..b.done])
    ensures b'.skipped == b.skipped + (if CursorBefore(CursorAt(b.line, b.done), r) then {} else {r})
    ensures b'.accepted == b.accepted && b'.inTurn == (b.inTurn && Last(b.line, r))
    ensures b'.refused == b.refused && b'.fair == (b.fair && !PushesIn(b, r, f)) && Judged(b', dead, f, maxAttempts)
    ensures PushesIn(b, r, f) ==> b'.done == b.done && b'.done < |b'.line| && b'.line[b'.done] == r
    ensures b.line == [] ==> b'.line == [r] && b'.done == 0
  {
    var p := Place(b, rows, r, f);
    EnlistKeeps(b, dead, r, p, f);
    EnlistJudged(b, dead, r, p, f, maxAttempts);
    b' := Enlisted(b, r, p, f);
    if PushesIn(b, r, f) { NewHead(b, r, p, f); }
  }

  lemma RefuseKeeps(b: Books, dead: set<Row>, r: Row)
    requires InBooks(b, dead)
    ensures InBooks(b.(refused := b.refused + multiset{r}), dead)
  {
    var b' := b.(refused := b.refused + multiset{r});
    forall x ensures Handled(b', dead, x) <==> Handled(b, dead, x) {}
  }

  ghost function Accepting(b: Books): Books
    requires b.done < |b.line|
  {
    b.(accepted := b.accepted + [b.line[b.done]])
  }

  /** The head row is not a skipped one. */
  lemma HeadNotSkipped(b: Books, dead: set<Row>)
    requires InBooks(b, dead) && b.done < |b.line|
    ensures b.line[b.done] !in b.skipped
  {
    forall k | 0 <= k < b.done ensures b.line[k] != b.line[b.done] { assert b.line[k].id != b.line[b.done].id; }
  }

  lemma AcceptKeeps(b: Books, dead: set<Row>)
    requires InBooks(b, dead) && b.done < |b.line|
    ensures InBooks(Accepting(b), dead)
  {
    var (b', head) := (Accepting(b), b.line[b.done]);
    HeadNotSkipped(b, dead);
    forall x ensures Handled(b', dead, x) <==> Handled(b, dead, x) || x == head {}
    RowOrder(head, head, head);
  }

  lemma BuryKeeps(b: Books, dead: set<Row>)
    requires InBooks(b, dead) && b.done < |b.line|
    ensures InBooks(b, dead + {b.line[b.done]})
  {
    HeadNotSkipped(b, dead);
    forall x ensures Handled(b, dead + {b.line[b.done]}, x) <==> Handled(b, dead, x) || x == b.line[b.done] {}
  }

  lemma AdvanceKeeps(b: Books, dead: set<Row>)
    requires InBooks(b, dead) && b.done < |b.line|
    ensures InBooks(b.(done := b.done + 1), dead)
  {
    var b' := b.(done := b.done + 1);
    forall x ensures Handled(b', dead, x) <==> Handled(b, dead, x) {}
    assert b.line[..b.done + 1] == b.line[..b.done] + [b.line[b.done]];
    if b'.done < |b.line| {
      forall i | 0 <= i < |b.accepted| && b.inTurn ensures !RowLess(b.line[b'.done], b.accepted[i]) {
        RowOrder(b.line[b.done], b.line[b'.done], b.accepted[i]);
      }
    }
  }

  /** The row as it is stored: one without a time gets the current one. */
  function Stamped(r: Row, now: nat): Row { if r.created == 0 then r.(created := now) else r }

  /** A pump moves the cursor forward and adds accepted publishes; nothing else. */
  ghost predicate Pumped(b: Books, b': Books) {
    && b'.line == b.line && b'.skipped == b.skipped && b'.inTurn == b.inTurn && b'.fair == b.fair
    && b.done <= b'.done && b.accepted <= b'.accepted && b.refused <= b'.refused
  }

  /** At most one row was added to the dead letters. */
  ghost predicate OneBuried(dead: set<Row>, dead': set<Row>) { dead' == dead || exists r :: dead' == dead + {r} }

  lemma DeadMore(dead: seq<(string, Row)>, name: string, r: Row)
    ensures DeadRows(dead + [(name, r)], name) == DeadRows(dead, name) + {r}
  {
    var more := dead + [(name, r)];
    assert more[|dead|] == (name, r) && forall d :: d in more <==> d in dead || d == (name, r);
  }

  ghost function DeadRows(dead: seq<(string, Row)>, name: string): set<Row> { set d | d in dead && d.0 == name :: d.1 }

  class Dispatcher {
    const store: MemoryOutboxStore
    const sidecar: CursorStore
    const consumer: Consumer
    const name: string
    const maxAttempts: nat
    ghost var books: Books

    constructor (store: MemoryOutboxStore, sidecar: CursorStore, consumer: Consumer, name: string, maxAttempts: int)
      requires store.rows == [] && sidecar.cursors == map[] && sidecar.dead == [] && consumer.Valid()
      ensures Valid() && books == Books([], 0, [], {}, true, multiset{}, true)
      ensures this.store == store && this.sidecar == sidecar && this.consumer == consumer
      ensures this.maxAttempts == if maxAttempts <= 0 then 5 else maxAttempts
    {
      this.store, this.sidecar, this.consumer, this.name := store, sidecar, consumer, name;
      this.maxAttempts := if maxAttempts <= 0 then 5 else maxAttempts;
      books := Books([], 0, [], {}, true, multiset{}, true);
    }

    ghost function Dead(): set<Row> reads sidecar { DeadRows(sidecar.dead, name) }

    ghost predicate Resolved(r: Row)
      reads this, sidecar, consumer
    {
      r in books.skipped || r in Dead() || (r in books.accepted && consumer.NamesRan(r))
    }

    /** Every row at or before the cursor was skipped at its append, or is dead-lettered, or was
        published and has every handler name's effect exactly once. */
    ghost predicate Valid()
      reads this, store, sidecar, consumer
    {
      && consumer.Valid() && InBooks(books, Dead()) && books.line == SortRows(store.rows)
      && (forall r :: r in books.line ==> consumer.IsEvent(r))
      && sidecar.At(name).cursor == CursorAt(books.line, books.done) && sidecar.At(name).headFailures < maxAttempts
      && (forall r :: r in books.line[..books.done] ==> Resolved(r))
      && Judged(books, Dead(), sidecar.At(name).headFailures, maxAttempts)
    }

    /** A row is dead-lettered only after its own publish was refused `maxAttempts` times, as long as no
        row pushed in before a head with failures. */
    lemma DeadOnlyWhenRefused(r: Row)
      requires Valid() && books.fair && r in Dead()
      ensures books.refused[r] >= maxAttempts
    {}

    /** A row at or before the cursor that was neither skipped nor dead-lettered was published, and ran
        all of its handlers exactly when their names are distinct. */
    lemma ResolvedRanAll(r: Row)
      requires Valid() && r in books.line[..books.done] && r !in books.skipped && r !in Dead()
      ensures r in books.accepted
      ensures consumer.AllRan(r) <==> consumer.DistinctNames(r.eventType)
    {
      assert Resolved(r);
      assert r in books.line;
      consumer.AllRanExactlyWhenDistinct(r);
    }

    /** Once drained, a stored row was published or dead-lettered exactly when it was not skipped. */
    lemma DrainedExactly(r: Row)
      requires Valid() && books.done == |books.line| && r in store.rows
      ensures r in books.accepted || r in Dead() <==> r !in books.skipped
      ensures r !in books.skipped ==> r in Dead() || consumer.NamesRan(r)
    {
      SortRowsSorts(store.rows);
      assert r in multiset(store.rows);
      assert r in multiset(books.line);
      assert books.line[..books.done] == books.line;
      assert Resolved(r) && (Handled(books, Dead(), r) || !Handled(books, Dead(), r));
    }

    /** An event under an id of its own. */
    ghost predicate IsNew(r: Row)
      reads this
    {
      consumer.IsEvent(r) && r.created > 0 && NewId(books.line, r)
    }

    /** Rows may be appended in any order. One that sorts after the cursor will be resolved; any other
        is skipped for good. */
    method Publish(r: Row, now: nat, inThisTx: bool) returns (ok: bool)
      requires Valid()
      modifies store, this
      ensures ok == inThisTx
      ensures store.rows == if ok then old(store.rows) + [Stamped(r, now)] else old(store.rows)
      ensures !ok ==> Valid() && books == old(books)
      ensures ok && old(IsNew(Stamped(r, now))) ==>
                && Valid() && books.accepted == old(books).accepted
                && books.skipped == old(books).skipped + (if CursorBefore(sidecar.At(name).cursor, Stamped(r, now)) then {} else {Stamped(r, now)})
                && books.inTurn == (old(books).inTurn && Last(old(books).line, Stamped(r, now)))
                && books.refused == old(books).refused
                && books.fair == (old(books).fair && !PushesIn(old(books), Stamped(r, now), sidecar.At(name).headFailures))
                && (PushesIn(old(books), Stamped(r, now), sidecar.At(name).headFailures) ==>
                      books.done == old(books).done && books.done < |books.line| && books.line[books.done] == Stamped(r, now))
                && (old(books).line == [] ==> books.line == [Stamped(r, now)] && books.done == 0)
    {
      var row := Stamped(r, now);
      ok := store.Append(r, now, inThisTx);
      if ok {
        if old(IsNew(row)) { Enlist(old(store.rows), row); }
      }
    }

    /** The bookkeeping of an append. */
    ghost method Enlist(rows: seq<Row>, row: Row)
      requires consumer.Valid() && InBooks(books, Dead()) && books.line == SortRows(rows) && store.rows == rows + [row] && IsNew(row)
      requires forall r :: r in books.line ==> consumer.IsEvent(r)
      requires sidecar.At(name).cursor == CursorAt(books.line, books.done) && sidecar.At(name).headFailures < maxAttempts
      requires forall r :: r in books.line[..books.done] ==> Resolved(r)
      requires Judged(books, Dead(), sidecar.At(name).headFailures, maxAttempts)
      modifies this
      ensures Valid() && books.accepted == old(books).accepted && books.refused == old(books).refused
      ensures books.fair == (old(books).fair && !PushesIn(old(books), row, sidecar.At(name).headFailures))
      ensures PushesIn(old(books), row, sidecar.At(name).headFailures) ==>
                books.done == old(books).done && books.done < |books.line| && books.line[books.done] == row
      ensures old(books).line == [] ==> books.line == [row] && books.done == 0
      ensures books.skipped == old(books).skipped + (if CursorBefore(sidecar.At(name).cursor, row) then {} else {row})
      ensures books.inTurn == (old(books).inTurn && Last(old(books).line, row))
    {
      var was := books;
      books := Append(was, Dead(), rows, row, sidecar.At(name).headFailures, maxAttempts);
      forall r | r in books.line[..books.done] ensures Resolved(r) {
        if r !in books.skipped { assert old(Resolved(r)); }
      }
    }

    lemma NextRows(limit: nat)
      requires Valid()
      ensures TakeAfter(SortRows(store.rows), sidecar.At(name).cursor, limit) == books.line[books.done..if books.done + limit < |books.line| then books.done + limit else |books.line|]
    {
      TakeAfterFrom(books.line, books.done, 0, limit);
      assert books.line[0..] == books.line;
    }

    /** One pump. Uncrashed, it decreases (rows left, attempts left) lexicographically as long as
        rows are pending. It dead-letters at most one row, and none before the head's attempts are
        used up; with nothing failing it resolves the whole batch, and with the bus down it counts one
        refusal of the head, or dead-letters the head at the last attempt. */
    method PumpOnce(limit: int, live: bool, w: Weather) returns (published: nat, out: Pump)
      requires Valid()
      modifies this, sidecar, consumer
      ensures Valid()
      ensures Pumped(old(books), books) && old(consumer.effects) <= consumer.effects
      ensures live ==> !out.Crashed?
      ensures books.done == old(books).done + published
      ensures !out.Crashed? && old(books).done < |books.line| ==>
                books.done > old(books).done || sidecar.At(name).headFailures > old(sidecar.At(name).headFailures)
      ensures OneBuried(old(Dead()), Dead())
      ensures Dead() != old(Dead()) ==> maxAttempts <= 1 || old(sidecar.At(name).headFailures) + 1 >= maxAttempts
      ensures live && w.Fair? ==>
                && out.Drained? && Dead() == old(Dead()) && books.refused == old(books).refused
                && books.done == if old(books).done + Limit(limit) < |books.line| then old(books).done + Limit(limit) else |books.line|
      ensures live && w.BusDown? && old(books).done < |books.line| ==> Refusal(old(books), old(Dead()), old(sidecar.At(name).headFailures))
    {
      var loaded := sidecar.At(name);
      var batch := store.ReadAfter(loaded.cursor, limit);
      NextRows(Limit(limit));
      published, out := PumpBatch(batch, loaded.cursor, loaded.headFailures, live, w);
    }

    /** The head of `b` was refused once more: counted and kept for a retry while attempts are left,
        else dead-lettered. */
    ghost predicate Refusal(b: Books, dead: set<Row>, failures: nat)
      reads this, sidecar
      requires b.done < |b.line|
    {
      && books.refused == b.refused + multiset{b.line[b.done]}
      && if failures + 1 >= maxAttempts
         then Dead() == dead + {b.line[b.done]} && books.done == b.done + 1 && sidecar.At(name).headFailures == 0
         else Dead() == dead && books.done == b.done && sidecar.At(name).headFailures == failures + 1
    }

    /** The batch loop: it stops at the first row that is not published. */
    method PumpBatch(batch: seq<Row>, from: Cursor, failures: nat, live: bool, w: Weather) returns (published: nat, out: Pump)
      requires Valid() && batch <= books.line[books.done..] && sidecar.At(name) == CursorState(from, failures)
      modifies this, sidecar, consumer
      ensures Valid()
      ensures Pumped(old(books), books) && old(consumer.effects) <= consumer.effects
      ensures live ==> !out.Crashed?
      ensures books.done == old(books).done + published
      ensures !out.Crashed? && batch != [] ==> books.done > old(books).done || sidecar.At(name).headFailures > failures
      ensures OneBuried(old(Dead()), Dead())
      ensures Dead() != old(Dead()) ==> maxAttempts <= 1 || failures + 1 >= maxAttempts
      ensures live && w.Fair? ==> out.Drained? && published == |batch| && Dead() == old(Dead()) && books.refused == old(books).refused
      ensures live && w.BusDown? && batch != [] ==> Refusal(old(books), old(Dead()), failures)
    {
      var cursor, headFailures := from, failures;
      published := 0;
      for i := 0 to |batch|
        invariant Valid() && books.done == old(books).done + i && published == i
        invariant sidecar.At(name) == CursorState(cursor, headFailures) && headFailures == if i == 0 then failures else 0
        invariant Pumped(old(books), books) && old(consumer.effects) <= consumer.effects
        invariant Dead() == old(Dead()) && books.refused == old(books).refused
        invariant i > 0 ==> !(live && w.BusDown?)
      {
        assert batch[i] == books.line[books.done];
        var moved;
        out, headFailures, moved := PumpRow(batch[i], cursor, headFailures, live, w);
        published := published + moved;
        if !out.Drained? { return; }
        cursor := PositionOf(batch[i]);
      }
      out := Drained;
    }

    /** Publish the head row; on failure count it, and at the last attempt dead-letter it. */
    method PumpRow(rec: Row, cursor: Cursor, failures: nat, live: bool, w: Weather) returns (out: Pump, headFailures: nat, moved: nat)
      requires Valid() && books.done < |books.line| && rec == books.line[books.done] && sidecar.At(name) == CursorState(cursor, failures)
      modifies this, sidecar, consumer
      ensures Valid()
      ensures live ==> !out.Crashed?
      ensures books.done == old(books).done + moved && Pumped(old(books), books) && old(consumer.effects) <= consumer.effects
      ensures out.Drained? ==>
                && books.done == old(books).done + 1 && headFailures == 0 && sidecar.At(name) == CursorState(PositionOf(rec), 0)
                && rec in books.accepted && Dead() == old(Dead()) && books.refused == old(books).refused
      ensures out.Stopped? ==> Refusal(old(books), old(Dead()), failures)
      ensures out.Stopped? && failures + 1 < maxAttempts ==> sidecar.At(name) == CursorState(cursor, failures + 1)
      ensures Dead() == old(Dead()) || (failures + 1 >= maxAttempts && Dead() == old(Dead()) + {rec})
      ensures live && w.Fair? ==> out.Drained?
      ensures live && w.BusDown? ==> out.Stopped?
    {
      headFailures := failures;
      var d := DeliverHead(rec, live, w);
      if d.Died? { return Crashed, headFailures, 0; }
      var refused: bool := *; // the bus itself may refuse
      var accepts := d.Ack? && !w.BusDown? && !(w.Mixed? && refused);
      if accepts {
        out, headFailures, moved := RowAccepted(rec, failures, live);
      } else {
        out, headFailures, moved := RowRefused(rec, cursor, failures, live);
      }
    }

    method RowAccepted(rec: Row, failures: nat, live: bool) returns (out: Pump, headFailures: nat, moved: nat)
      requires Valid() && books.done < |books.line| && rec == books.line[books.done] && consumer.NamesRan(rec)
      modifies this, sidecar
      ensures Valid() && Dead() == old(Dead()) && Pumped(old(books), books) && books.refused == old(books).refused
      ensures books.done == old(books).done + moved && rec in books.accepted && !out.Stopped? && (live ==> out.Drained?)
      ensures out.Drained? ==> moved == 1 && headFailures == 0 && sidecar.At(name) == CursorState(PositionOf(rec), 0)
    {
      Accept();
      if !live { if * { return Crashed, failures, 0; } }
      Advance(rec);
      return Drained, 0, 1;
    }

    method RowRefused(rec: Row, cursor: Cursor, failures: nat, live: bool) returns (out: Pump, headFailures: nat, moved: nat)
      requires Valid() && books.done < |books.line| && rec == books.line[books.done] && sidecar.At(name) == CursorState(cursor, failures)
      modifies this, sidecar
      ensures Valid() && Pumped(old(books), books) && books.done == old(books).done + moved && !out.Drained? && (live ==> out.Stopped?)
      ensures out.Stopped? ==> Refusal(old(books), old(Dead()), failures)
      ensures out.Stopped? && failures + 1 < maxAttempts ==> sidecar.At(name) == CursorState(cursor, failures + 1)
      ensures Dead() == old(Dead()) || (failures + 1 >= maxAttempts && Dead() == old(Dead()) + {rec})
    {
      Refuse(rec);
      headFailures := failures + 1;
      if headFailures >= maxAttempts {
        Bury(rec);
        if !live { if * { return Crashed, headFailures, 0; } }
        Advance(rec);
        return Stopped, headFailures, 1;
      }
      CountFailure(cursor, headFailures);
      return Stopped, headFailures, 0;
    }

    /** Another refusal of the head row. */
    ghost method Refuse(rec: Row)
      requires Valid() && books.done < |books.line| && rec == books.line[books.done]
      modifies this
      ensures Valid() && books == old(books).(refused := old(books).refused + multiset{rec})
      ensures books.fair ==> books.refused[rec] > sidecar.At(name).headFailures
    {
      RefuseKeeps(books, Dead(), rec);
      books := books.(refused := books.refused + multiset{rec});
      forall r | r in books.line[..books.done] ensures Resolved(r) { assert old(Resolved(r)); }
    }

    /** The bus hands the head row to the consumer. */
    method DeliverHead(rec: Row, live: bool, w: Weather) returns (d: Delivery)
      requires Valid() && books.done < |books.line| && rec == books.line[books.done]
      modifies consumer
      ensures Valid() && old(consumer.effects) <= consumer.effects
      ensures d.Ack? ==> consumer.NamesRan(rec)
      ensures live ==> !d.Died?
      ensures live && w.Fair? ==> d.Ack?
    {
      d := consumer.Deliver(rec, live, w);
      forall r | r in books.line[..books.done] ensures Resolved(r) {
        assert old(Resolved(r));
        RanStays(old(consumer.effects), consumer.effects, r.id);
      }
    }

    ghost method Accept()
      requires Valid() && books.done < |books.line|
      modifies this
      ensures Valid() && books == Accepting(old(books)) && books.line[books.done] in books.accepted
    {
      AcceptKeeps(books, Dead());
      books := Accepting(books);
      assert books.accepted[|books.accepted| - 1] == books.line[books.done];
      forall r | r in books.line[..books.done] ensures Resolved(r) { assert old(Resolved(r)); }
    }

    method CountFailure(cursor: Cursor, headFailures: nat)
      requires Valid() && cursor == sidecar.At(name).cursor && headFailures < maxAttempts && books.done < |books.line|
      requires books.fair ==> headFailures <= books.refused[books.line[books.done]]
      modifies sidecar`cursors
      ensures Valid() && sidecar.At(name) == CursorState(cursor, headFailures)
    {
      sidecar.SaveCursor(name, cursor, headFailures);
      forall r | r in books.line[..books.done] ensures Resolved(r) { assert old(Resolved(r)); }
    }

    method Bury(rec: Row)
      requires Valid() && books.done < |books.line| && rec == books.line[books.done]
      requires books.fair ==> books.refused[rec] >= maxAttempts
      modifies sidecar`dead
      ensures Valid() && Dead() == old(Dead()) + {rec}
    {
      sidecar.DeadLetter(name, rec);
      BuryKeeps(books, old(Dead()));
      DeadMore(old(sidecar.dead), name, rec);
      forall r | r in books.line[..books.done] ensures Resolved(r) { assert old(Resolved(r)); }
    }

    /** Move the cursor past a resolved head row. */
    method Advance(rec: Row)
      requires Valid() && books.done < |books.line| && rec == books.line[books.done] && Resolved(rec)
      modifies this, sidecar`cursors
      ensures Valid() && books == old(books).(done := old(books).done + 1) && sidecar.At(name) == CursorState(PositionOf(rec), 0)
    {
      sidecar.SaveCursor(name, PositionOf(rec), 0);
      AdvanceKeeps(books, Dead());
      ghost var was := books;
      books := books.(done := books.done + 1);
      assert books.line[..books.done] == was.line[..was.done] + [rec];
      forall r | r in books.line[..books.done] ensures Resolved(r) { assert old(Resolved(r)); }
    }

    /** Uncrashed pumping gets through any backlog, whatever fails. */
    method Drain(limit: int)
      requires Valid()
      modifies this, sidecar, consumer
      ensures Valid() && books.done == |books.line| && Pumped(old(books), books)
    {
      var pending := Pending();
      while pending
        invariant Valid() && (pending <==> books.done < |books.line|) && Pumped(old(books), books)
        decreases |books.line| - books.done, maxAttempts - sidecar.At(name).headFailures
      {
        var published, out := PumpOnce(limit, true, Mixed);
        pending := Pending();
      }
    }

    method Pending() returns (b: bool)
      requires Valid()
      ensures b <==> books.done < |books.line|
    {
      NextRows(1);
      var next := store.ReadAfter(sidecar.At(name).cursor, 1);
      return next != [];
    }
  }

  /** A relay with two attempts whose only row was refused once. */
  method RefusedOnce(x: Row, y: Row) returns (d: Dispatcher)
    requires 0 < y.created < x.created && x.id != y.id && SEPARATOR !in x.id && SEPARATOR !in y.id
    ensures fresh(d) && fresh(d.store) && fresh(d.sidecar) && fresh(d.consumer)
    ensures d.Valid() && d.maxAttempts == 2 && d.books.line == [x] && d.books.done == 0 && d.Dead() == {}
    ensures d.sidecar.At(d.name) == CursorState(START, 1) && d.books.refused == multiset{x} && d.consumer.IsEvent(y)
  {
    var store := new MemoryOutboxStore();
    var sidecar := new CursorStore();
    var consumer := new Consumer(map[], id => if id == x.id then x.eventType else y.eventType);
    d := new Dispatcher(store, sidecar, consumer, "", 2);
    var ok := d.Publish(x, 1, true);
    var n, out := d.PumpOnce(1, true, BusDown);
  }

  /** A row that pushes in before a head with failures inherits them: with two attempts, `y` is
      dead-lettered after a single refusal of its own. */
  method BuriedEarly(x: Row, y: Row) returns (d: Dispatcher)
    requires 0 < y.created < x.created && x.id != y.id && SEPARATOR !in x.id && SEPARATOR !in y.id
    ensures fresh(d) && d.Valid() && d.maxAttempts == 2 && y in d.Dead() && d.books.refused[y] == 1
  {
    d := RefusedOnce(x, y);
    var ok := d.Publish(y, 1, true);
    var n, out := d.PumpOnce(1, true, BusDown);
  }
}
