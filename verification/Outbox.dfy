/** The write-only outbox and its forward scan (persistence/memory_outbox.go, persistence/outbox.go). */
module Outbox {
  import opened Sorting

  /** `created == 0` is the zero time. */
  datatype Row = Row(id: string, created: nat, eventType: string)

  datatype Cursor = Cursor(created: nat, id: string) {
    predicate IsZero() { created == 0 && id == "" }
  }

  const START := Cursor(0, "")

  /** Byte order of strings. */
  predicate StringLess(a: string, b: string) {
    if b == [] then false
    else if a == [] then true
    else a[0] < b[0] || (a[0] == b[0] && StringLess(a[1..], b[1..]))
  }

  lemma {:induction false} StringOrder(a: string, b: string, c: string)
    ensures !(StringLess(a, b) && StringLess(b, a))
    ensures StringLess(a, b) || StringLess(b, a) || a == b
    ensures StringLess(a, b) && StringLess(b, c) ==> StringLess(a, c)
  {
    if a != [] && b != [] {
      StringOrder(a[1..], b[1..], if c == [] then [] else c[1..]);
      if a[0] == b[0] && a[1..] == b[1..] { assert a == [a[0]] + a[1..] && b == [b[0]] + b[1..]; }
    }
  }

  /** The first difference decides; a proper beginning comes first. */
  lemma {:induction false} FirstDifference(a: string, b: string, k: nat)
    requires k <= |a| && k <= |b| && a[..k] == b[..k]
    ensures k == |a| && k < |b| ==> StringLess(a, b)
    ensures k < |a| && k < |b| && a[k] != b[k] ==> (StringLess(a, b) <==> a[k] < b[k])
    decreases k
  {
    if k > 0 {
      assert a[0] == a[..k][0] == b[..k][0] == b[0];
      assert a[1..][..k - 1] == a[..k][1..] == b[..k][1..] == b[1..][..k - 1];
      FirstDifference(a[1..], b[1..], k - 1);
    }
  }

  predicate RowLess(a: Row, b: Row) {
    if a.created == b.created then StringLess(a.id, b.id) else a.created < b.created
  }

  lemma RowOrder(a: Row, b: Row, c: Row)
    ensures !(RowLess(a, b) && RowLess(b, a))
    ensures RowLess(a, b) && RowLess(b, c) ==> RowLess(a, c)
    ensures RowLess(a, b) && !RowLess(c, b) ==> RowLess(a, c)
  {
    StringOrder(a.id, b.id, c.id);
    StringOrder(b.id, c.id, a.id);
  }

  predicate CursorBefore(c: Cursor, r: Row) {
    c.IsZero() || (if c.created == r.created then StringLess(c.id, r.id) else c.created < r.created)
  }

  function PositionOf(r: Row): Cursor { Cursor(r.created, r.id) }

  // ----- sorting a copy of the rows

  function SortRows(rows: seq<Row>): seq<Row> { Sort(RowLess, rows) }

  lemma RowsOrdered()
    ensures WeakOrder(RowLess)
  {
    forall a, b, c ensures !(RowLess(a, b) && RowLess(b, a)) && (RowLess(a, b) && !RowLess(c, b) ==> RowLess(a, c)) {
      RowOrder(a, b, c);
    }
  }

  /** The copy is a permutation in (created, id) order. */
  lemma SortRowsSorts(rows: seq<Row>)
    ensures multiset(SortRows(rows)) == multiset(rows)
    ensures forall i, j :: 0 <= i < j < |rows| ==> |SortRows(rows)| == |rows| && !RowLess(SortRows(rows)[j], SortRows(rows)[i])
  {
    RowsOrdered();
    SortSorts(RowLess, rows);
    assert |multiset(SortRows(rows))| == |rows|;
  }

  // ----- the scan

  /** The first `limit` rows after the cursor. */
  function TakeAfter(rows: seq<Row>, c: Cursor, limit: nat): seq<Row> {
    if rows == [] || limit == 0 then []
    else if CursorBefore(c, rows[0]) then [rows[0]] + TakeAfter(rows[1..], c, limit - 1)
    else TakeAfter(rows[1..], c, limit)
  }

  function Limit(limit: int): nat { if limit <= 0 then 100 else limit }

  /** `a` may come out before `b`: created earlier, or at the same time and not behind it by id. */
  predicate InScanOrder(a: Row, b: Row) { a.created < b.created || (a.created == b.created && !StringLess(b.id, a.id)) }

  /** Behind the cursor's time, or at that time and behind its id; the zero cursor is before everything. */
  predicate IsAfter(c: Cursor, r: Row) {
    (c.created == 0 && c.id == "") || c.created < r.created || (c.created == r.created && StringLess(c.id, r.id))
  }

  /** `out` are the first `limit` of `rows` after the cursor, earlier ones first. */
  ghost predicate FirstAfter(rows: seq<Row>, c: Cursor, limit: nat, out: seq<Row>) {
    && |out| <= limit
    && (forall r :: r in out ==> r in rows && IsAfter(c, r))
    && (forall i, j :: 0 <= i < j < |out| ==> InScanOrder(out[i], out[j]))
    && (forall r, q :: r in rows && IsAfter(c, r) && r !in out && q in out ==> InScanOrder(q, r))
    && (|out| < limit ==> forall r :: r in rows && IsAfter(c, r) ==> r in out)
  }

  lemma {:induction false} TakeAfterIsFirst(sorted: seq<Row>, c: Cursor, limit: nat)
    requires Sorted(RowLess, sorted)
    ensures FirstAfter(sorted, c, limit, TakeAfter(sorted, c, limit))
    decreases |sorted|
  {
    if sorted != [] && limit > 0 {
      var (head, rest) := (sorted[0], sorted[1..]);
      assert sorted == [head] + rest;
      var takes := CursorBefore(c, head);
      TakeAfterIsFirst(rest, c, if takes then limit - 1 else limit);
      var out := TakeAfter(rest, c, if takes then limit - 1 else limit);
      forall r | r in rest ensures InScanOrder(head, r) {
        var x :| 0 <= x < |rest| && rest[x] == r;
        assert !RowLess(sorted[x + 1], sorted[0]);
      }
      if takes { FirstAfterCons(rest, c, limit - 1, out, head); }
    }
  }

  lemma FirstAfterCons(rest: seq<Row>, c: Cursor, limit: nat, out: seq<Row>, head: Row)
    requires FirstAfter(rest, c, limit, out) && IsAfter(c, head) && forall r :: r in rest ==> InScanOrder(head, r)
    ensures FirstAfter([head] + rest, c, limit + 1, [head] + out)
  {
    var more := [head] + out;
    forall i, j | 0 <= i < j < |more| ensures InScanOrder(more[i], more[j]) {
      if i == 0 { assert more[j] == out[j - 1] && out[j - 1] in rest; } else { assert InScanOrder(out[i - 1], out[j - 1]); }
    }
  }

  class MemoryOutboxStore {
    var rows: seq<Row>

    constructor ()
      ensures rows == []
    {
      rows := [];
    }

    /** Refused outside the store's transaction; a row without a time is stamped with `now`. */
    method Append(r: Row, now: nat, inThisTx: bool) returns (ok: bool)
      modifies this
      ensures ok == inThisTx
      ensures rows == if ok then old(rows) + [if r.created == 0 then r.(created := now) else r] else old(rows)
    {
      if !inThisTx { return false; }
      rows := rows + [if r.created == 0 then r.(created := now) else r];
      return true;
    }

    method ReadAfter(cursor: Cursor, limit: int) returns (out: seq<Row>)
      ensures out == TakeAfter(SortRows(rows), cursor, Limit(limit))
      ensures FirstAfter(rows, cursor, if limit <= 0 then 100 else limit, out)
    {
      ScanIsFirst(rows, cursor, Limit(limit));
      out := Scan(SortRows(rows), cursor, Limit(limit));
    }
  }

  lemma ScanIsFirst(rows: seq<Row>, c: Cursor, limit: nat)
    ensures FirstAfter(rows, c, limit, TakeAfter(SortRows(rows), c, limit))
  {
    RowsOrdered();
    SortSorts(RowLess, rows);
    TakeAfterIsFirst(SortRows(rows), c, limit);
    assert forall r :: r in SortRows(rows) <==> r in multiset(rows);
  }

  method Scan(sorted: seq<Row>, cursor: Cursor, max: nat) returns (out: seq<Row>)
    ensures out == TakeAfter(sorted, cursor, max)
  {
    out := [];
    var i := 0;
    assert sorted[0..] == sorted;
    while i < |sorted| && |out| < max
      invariant 0 <= i <= |sorted| && |out| <= max
      invariant TakeAfter(sorted, cursor, max) == out + TakeAfter(sorted[i..], cursor, max - |out|)
    {
      ghost var rest, room := sorted[i..], max - |out|;
      assert rest[0] == sorted[i] && rest[1..] == sorted[i + 1..];
      if CursorBefore(cursor, sorted[i]) {
        assert TakeAfter(rest, cursor, room) == [sorted[i]] + TakeAfter(rest[1..], cursor, room - 1);
        out := out + [sorted[i]];
      }
      i := i + 1;
    }
    assert TakeAfter(sorted[i..], cursor, max - |out|) == [];
  }

  // ----- rows appended in order

  /** Every row sorts after all earlier ones. */
  ghost predicate InOrder(rows: seq<Row>) {
    && (forall i :: 0 <= i < |rows| ==> rows[i].created > 0)
    && (forall i, j :: 0 <= i < j < |rows| ==> RowLess(rows[i], rows[j]))
  }

  /** The cursor after the first `n` rows. */
  function CursorAt(rows: seq<Row>, n: nat): Cursor
    requires n <= |rows|
  {
    if n == 0 then START else PositionOf(rows[n - 1])
  }

  lemma CursorSplits(rows: seq<Row>, n: nat, i: nat)
    requires InOrder(rows) && n <= |rows| && i < |rows|
    ensures CursorBefore(CursorAt(rows, n), rows[i]) <==> n <= i
  {
    if n > 0 {
      if i < n - 1 { RowOrder(rows[i], rows[n - 1], rows[i]); }
      if i == n - 1 { RowOrder(rows[i], rows[i], rows[i]); }
    }
  }

  lemma {:induction false} TakeAfterFrom(rows: seq<Row>, n: nat, k: nat, limit: nat)
    requires InOrder(rows) && n <= |rows| && k <= |rows|
    ensures TakeAfter(rows[k..], CursorAt(rows, n), limit) ==
            var from := if k < n then n else k; rows[from..if from + limit < |rows| then from + limit else |rows|]
    decreases |rows| - k
  {
    if k < |rows| && limit > 0 {
      CursorSplits(rows, n, k);
      assert rows[k..][1..] == rows[k + 1..];
      TakeAfterFrom(rows, n, k + 1, if n <= k then limit - 1 else limit);
    }
  }

  /** The scan from the cursor after `n` rows returns exactly the next rows, in order. */
  lemma ScanIsNextRows(rows: seq<Row>, n: nat, limit: nat)
    requires InOrder(rows) && n <= |rows|
    ensures TakeAfter(SortRows(rows), CursorAt(rows, n), limit) == rows[n..if n + limit < |rows| then n + limit else |rows|]
  {
    forall i, j | 0 <= i < j < |rows| ensures !RowLess(rows[j], rows[i]) { RowOrder(rows[i], rows[j], rows[i]); }
    SortedStays(RowLess, rows);
    TakeAfterFrom(rows, n, 0, limit);
    assert rows[0..] == rows;
  }

  lemma {:induction false} TakeAllAfter(rows: seq<Row>, c: Cursor, limit: nat, r: Row)
    requires |rows| <= limit
    ensures r in TakeAfter(rows, c, limit) <==> r in rows && CursorBefore(c, r)
    decreases |rows|
  {
    if rows != [] {
      assert rows == [rows[0]] + rows[1..];
      TakeAllAfter(rows[1..], c, if CursorBefore(c, rows[0]) then limit - 1 else limit, r);
    }
  }

  /** Whatever order rows were appended in, a scan long enough returns a row exactly when it is
      there and sorts after the cursor. */
  lemma ScannedExactlyWhenAfter(rows: seq<Row>, c: Cursor, limit: nat, r: Row)
    requires |rows| <= limit
    ensures r in TakeAfter(SortRows(rows), c, limit) <==> r in rows && CursorBefore(c, r)
  {
    SortRowsSorts(rows);
    assert |SortRows(rows)| == |multiset(SortRows(rows))| == |rows|;
    assert r in SortRows(rows) <==> r in multiset(rows);
    TakeAllAfter(SortRows(rows), c, limit, r);
  }

  /** A row behind the cursor when it is appended is behind every later cursor too. */
  lemma BackdatedRowIsSkipped(rows: seq<Row>, n: nat, m: nat, late: Row)
    requires InOrder(rows) && 0 < n <= m <= |rows| && RowLess(late, rows[n - 1])
    ensures !CursorBefore(CursorAt(rows, m), late)
  {
    RowOrder(late, rows[n - 1], rows[m - 1]);
    RowOrder(late, rows[m - 1], late);
  }

  // ----- rows appended in any order

  /** One more row under an id of its own takes its place in the order, after the cursor exactly when
      it sorts after it. */
  lemma AppendSorted(rows: seq<Row>, r: Row, n: nat) returns (p: nat)
    requires InOrder(SortRows(rows)) && n <= |SortRows(rows)| && r.created > 0
    requires forall i :: 0 <= i < |SortRows(rows)| ==> SortRows(rows)[i].id != r.id
    ensures p <= |SortRows(rows)| && SortRows(rows + [r]) == SortRows(rows)[..p] + [r] + SortRows(rows)[p..]
    ensures InOrder(SortRows(rows + [r])) && (CursorBefore(CursorAt(SortRows(rows), n), r) <==> n <= p)
  {
    var line := SortRows(rows);
    assert (rows + [r])[..|rows + [r]| - 1] == rows;
    RowsOrdered();
    SortSorts(RowLess, rows);
    p := InsertedAt(RowLess, line, r);
    forall i | 0 <= i < |line| ensures if i < p then RowLess(line[i], r) else RowLess(r, line[i]) {
      StringOrder(line[i].id, r.id, r.id);
    }
    InOrderInsert(line, r, p);
    if n > 0 { RowOrder(r, line[n - 1], r); }
  }

  lemma InOrderInsert(line: seq<Row>, r: Row, p: nat)
    requires InOrder(line) && p <= |line| && r.created > 0
    requires forall i :: 0 <= i < |line| ==> if i < p then RowLess(line[i], r) else RowLess(r, line[i])
    ensures InOrder(line[..p] + [r] + line[p..])
  {
    var more := line[..p] + [r] + line[p..];
    forall i | 0 <= i < |more| ensures more[i] == if i < p then line[i] else if i == p then r else line[i - 1] {}
  }
}
