/** Parents-before-children import order (persistence/upsert.go:291-340): Kahn's algorithm with
    in-degree and child arrays and a FIFO queue. */
module TopoSorting {
  import opened Options

  /** An entity with its natural key and the natural keys it references. */
  datatype Item = Item(key: string, deps: seq<string>)

  // ----- the dependency graph on positions

  /** The last position among the first `n` holding `key`, as the key map ends up; -1 if none. */
  function LastIndex(items: seq<Item>, key: string, n: nat): (r: int)
    requires n <= |items|
    ensures -1 <= r < n
    ensures r >= 0 ==> items[r].key == key
    ensures forall i :: r < i < n ==> items[i].key != key
  {
    if n == 0 then -1 else if items[n - 1].key == key then n - 1 else LastIndex(items, key, n - 1)
  }

  predicate InSet(items: seq<Item>, c: nat, key: string)
  {
    LastIndex(items, key, |items|) >= 0 && LastIndex(items, key, |items|) != c
  }

  /** Positions the first `n` references of item `c` resolve to; outside and self references drop out. */
  function Parents(items: seq<Item>, c: nat, n: nat): (ps: seq<int>)
    requires c < |items| && n <= |items[c].deps|
    ensures forall k :: 0 <= k < |ps| ==> 0 <= ps[k] < |items| && ps[k] != c
  {
    if n == 0 then []
    else Parents(items, c, n - 1)
         + (if InSet(items, c, items[c].deps[n - 1]) then [LastIndex(items, items[c].deps[n - 1], |items|)] else [])
  }

  function AllParents(items: seq<Item>, c: nat): seq<int>
    requires c < |items|
  {
    Parents(items, c, |items[c].deps|)
  }

  /** With distinct keys this is reference by key. */
  lemma RefersByKey(items: seq<Item>, c: nat, p: nat)
    requires c < |items| && p < |items|
    requires forall i, j :: 0 <= i < j < |items| ==> items[i].key != items[j].key
    ensures (c, p) in Edges(References(items)) <==> p != c && items[p].key in items[c].deps
  {
    ParentsOfKeys(items, c, p, |items[c].deps|);
    assert items[c].deps[..|items[c].deps|] == items[c].deps;
  }

  lemma {:induction false} ParentsOfKeys(items: seq<Item>, c: nat, p: nat, n: nat)
    requires c < |items| && p < |items| && n <= |items[c].deps|
    requires forall i, j :: 0 <= i < j < |items| ==> items[i].key != items[j].key
    ensures p in Parents(items, c, n) <==> p != c && items[p].key in items[c].deps[..n]
  {
    if n > 0 {
      ParentsOfKeys(items, c, p, n - 1);
      assert items[c].deps[..n] == items[c].deps[..n - 1] + [items[c].deps[n - 1]];
    }
  }

  /** Every item's resolved references. */
  ghost function References(items: seq<Item>): seq<seq<int>> {
    seq(|items|, c requires 0 <= c < |items| => AllParents(items, c))
  }

  /** (c, p) when position c refers to position p. */
  ghost function Edges(refs: seq<seq<int>>): set<(int, int)> {
    set c, p | 0 <= c < |refs| && p in refs[c] :: (c, p)
  }

  /** A closed walk along edges. */
  ghost predicate IsCycle(edges: set<(int, int)>, w: seq<int>) {
    |w| >= 2 && w[0] == w[|w| - 1] && forall k :: 0 <= k < |w| - 1 ==> (w[k], w[k + 1]) in edges
  }

  ghost predicate HasCycle(items: seq<Item>) { exists w :: IsCycle(Edges(References(items)), w) }

  ghost predicate Distinct(s: seq<int>) { forall i, j :: 0 <= i < j < |s| ==> s[i] != s[j] }

  ghost predicate Within(s: seq<int>, n: nat) { forall i :: 0 <= i < |s| ==> 0 <= s[i] < n }

  /** Everything the `k`-th placed position refers to stands strictly before it. */
  ghost predicate ParentsBefore(edges: set<(int, int)>, order: seq<int>, k: nat)
    requires k < |order|
  {
    forall p :: (order[k], p) in edges ==> p in order[..k]
  }

  ghost predicate ParentsFirst(edges: set<(int, int)>, order: seq<int>) {
    forall k :: 0 <= k < |order| ==> ParentsBefore(edges, order, k)
  }

  /** Ascending positions below `n` without in-set references. */
  ghost function Roots(refs: seq<seq<int>>, n: nat): seq<int>
    requires n <= |refs|
  {
    if n == 0 then [] else Roots(refs, n - 1) + (if refs[n - 1] == [] then [n - 1] else [])
  }

  // ----- counting references not yet placed

  ghost function Pending(ps: seq<int>, done: set<int>): nat {
    if ps == [] then 0 else (if ps[0] in done then 0 else 1) + Pending(ps[1..], done)
  }

  lemma {:induction false} PendingZero(ps: seq<int>, done: set<int>)
    ensures Pending(ps, done) == 0 <==> forall k :: 0 <= k < |ps| ==> ps[k] in done
  {
    if ps != [] {
      PendingZero(ps[1..], done);
      assert forall k :: 0 <= k < |ps[1..]| ==> ps[1..][k] == ps[k + 1];
      if forall k :: 0 <= k < |ps[1..]| ==> ps[1..][k] in done {
        forall k | 1 <= k < |ps| ensures ps[k] in done { assert ps[k] == ps[1..][k - 1]; }
      }
    }
  }

  lemma {:induction false} PendingPlace(ps: seq<int>, done: set<int>, i: int)
    requires i !in done
    ensures Pending(ps, done) == Pending(ps, done + {i}) + multiset(ps)[i]
  {
    if ps != [] {
      PendingPlace(ps[1..], done, i);
      assert ps == [ps[0]] + ps[1..];
    }
  }

  lemma {:induction false} PendingNone(ps: seq<int>)
    ensures Pending(ps, {}) == |ps|
  {
    if ps != [] { PendingNone(ps[1..]); }
  }

  // ----- orders and cycles

  ghost function UpTo(n: nat): (s: set<int>)
    ensures |s| == n && forall x :: x in s <==> 0 <= x < n
  {
    if n == 0 then {} else UpTo(n - 1) + {n - 1}
  }

  lemma {:induction false} ElementCount(s: seq<int>)
    requires Distinct(s)
    ensures |set x | x in s| == |s|
  {
    if s != [] {
      var t := s[..|s| - 1];
      ElementCount(t);
      assert (set x | x in s) == (set x | x in t) + {s[|s| - 1]};
    }
  }

  lemma DistinctBound(s: seq<int>, n: nat)
    requires Distinct(s) && Within(s, n)
    ensures |s| <= n
    ensures |s| == n ==> forall x :: 0 <= x < n ==> x in s
  {
    var elems := set x | x in s;
    var all := UpTo(n);
    ElementCount(s);
    assert elems <= all;
    assert all == elems + (all - elems);
    forall x | 0 <= x < n && |s| == n ensures x in s {
      assert x in all;
      assert |all - elems| == 0;
      assert x in elems;
    }
  }

  /** A complete order refutes every cycle. */
  lemma OrderRefutesCycle(edges: set<(int, int)>, n: nat, order: seq<int>, w: seq<int>)
    requires Distinct(order) && Within(order, n) && |order| == n && ParentsFirst(edges, order)
    requires forall e :: e in edges ==> 0 <= e.0 < n
    ensures !IsCycle(edges, w)
  {
    DistinctBound(order, n);
    if IsCycle(edges, w) {
      var e := (w[0], w[1]);
      assert e in edges && 0 <= e.0 < n && w[0] in order;
      var start :| 0 <= start < |order| && order[start] == w[0];
      var at := start;
      for k := 0 to |w| - 1
        invariant 0 <= at < |order| && order[at] == w[k] && at <= start && (k > 0 ==> at < start)
      {
        assert ParentsBefore(edges, order, at);
        var p := w[k + 1];
        assert (w[k], p) in edges;
        assert (order[at], p) in edges;
        assert p in order[..at];
        var next :| 0 <= next < at && order[..at][next] == w[k + 1];
        at := next;
      }
      assert false;
    }
  }

  predicate Unplaced(c: int, n: nat, order: seq<int>) { 0 <= c < n && c !in order }

  /** Every unplaced position still waits for an unplaced one. */
  ghost predicate Stuck(edges: set<(int, int)>, n: nat, order: seq<int>) {
    forall c {:trigger Unplaced(c, n, order)} :: Unplaced(c, n, order) ==>
      exists p :: (c, p) in edges && 0 <= p < n && p !in order
  }

  ghost predicate IsWalk(edges: set<(int, int)>, w: seq<int>) {
    |w| > 0 && forall k :: 0 <= k < |w| - 1 ==> (w[k], w[k + 1]) in edges
  }

  /** Following the waits of a stuck order closes a cycle. */
  lemma StuckHasCycle(edges: set<(int, int)>, n: nat, order: seq<int>, walk: seq<int>) returns (w: seq<int>)
    requires Stuck(edges, n, order) && IsWalk(edges, walk) && Distinct(walk) && Within(walk, n)
    requires walk[|walk| - 1] !in order
    ensures IsCycle(edges, w)
    decreases n - |walk|
  {
    var last := walk[|walk| - 1];
    assert Unplaced(last, n, order);
    var p :| (last, p) in edges && 0 <= p < n && p !in order;
    if p in walk {
      var j :| 0 <= j < |walk| && walk[j] == p;
      w := walk[j..] + [p];
    } else {
      DistinctBound(walk + [p], n);
      w := StuckHasCycle(edges, n, order, walk + [p]);
    }
  }

  // ----- the algorithm

  ghost predicate Indexed(items: seq<Item>, idx: map<string, nat>) {
    forall key :: (if key in idx then idx[key] else -1) == LastIndex(items, key, |items|)
  }

  method IndexByKey(items: seq<Item>) returns (idx: map<string, nat>)
    ensures Indexed(items, idx)
  {
    idx := map[];
    for i := 0 to |items|
      invariant forall key :: (if key in idx then idx[key] else -1) == LastIndex(items, key, i)
    {
      idx := idx[items[i].key := i];
    }
  }

  /** In-degrees and child lists count each reference as often as it was written. */
  ghost predicate Counted(refs: seq<seq<int>>, indeg: seq<int>, children: seq<seq<int>>) {
    && |indeg| == |children| == |refs|
    && (forall c :: 0 <= c < |refs| ==> indeg[c] == |refs[c]|)
    && (forall p, c :: 0 <= p < |refs| && 0 <= c < |refs| ==> multiset(children[p])[c] == multiset(refs[c])[p])
    && (forall p :: 0 <= p < |refs| ==> Within(children[p], |refs|))
  }

  lemma Appended(s: seq<int>, x: int, y: int)
    ensures multiset(s + [x])[y] == multiset(s)[y] + if x == y then 1 else 0
  {}

  lemma CountOne(refs: seq<seq<int>>, indeg: seq<int>, children: seq<seq<int>>, child: nat, p: nat)
    requires Counted(refs, indeg, children) && child < |refs| && p < |refs|
    ensures Counted(refs[child := refs[child] + [p]], indeg[child := indeg[child] + 1], children[p := children[p] + [child]])
  {
    var refs', children' := refs[child := refs[child] + [p]], children[p := children[p] + [child]];
    forall q, c | 0 <= q < |refs| && 0 <= c < |refs|
      ensures multiset(children'[q])[c] == multiset(refs'[c])[q]
    {
      assert multiset(children[q])[c] == multiset(refs[c])[q];
      Appended(children[p], child, c);
      Appended(refs[child], p, q);
    }
  }

  predicate NotAfter(s: seq<int>, i: int, j: int) { 0 <= i < j < |s| ==> s[i] <= s[j] }

  ghost predicate NonDescending(s: seq<int>) { forall i, j :: NotAfter(s, i, j) }

  predicate AtMost(s: seq<int>, k: int, last: int) { 0 <= k < |s| ==> s[k] <= last }

  /** Child lists in input order, naming nobody beyond `last`. */
  ghost predicate Tidy(children: seq<seq<int>>, last: int) {
    forall p :: 0 <= p < |children| ==> NonDescending(children[p]) && forall k :: AtMost(children[p], k, last)
  }

  lemma TidyAdd(children: seq<seq<int>>, child: int, p: nat)
    requires Tidy(children, child) && p < |children|
    ensures Tidy(children[p := children[p] + [child]], child)
  {
    var more := children[p] + [child];
    forall i, j ensures NotAfter(more, i, j) { assert NotAfter(children[p], i, j) && AtMost(children[p], i, child); }
    forall k ensures AtMost(more, k, child) { assert AtMost(children[p], k, child); }
  }

  lemma TidyLater(children: seq<seq<int>>, last: int, later: int)
    requires Tidy(children, last) && last <= later
    ensures Tidy(children, later)
  {
    forall p, k | 0 <= p < |children| ensures AtMost(children[p], k, later) { assert AtMost(children[p], k, last); }
  }

  method AddEdge(indeg: array<int>, children: array<seq<int>>, child: nat, parent: nat, ghost refs: seq<seq<int>>)
    returns (ghost refs': seq<seq<int>>)
    requires Counted(refs, indeg[..], children[..]) && child < |refs| && parent < |refs| && Tidy(children[..], child)
    modifies indeg, children
    ensures Tidy(children[..], child)
    ensures refs' == refs[child := refs[child] + [parent]] && Counted(refs', indeg[..], children[..])
  {
    CountOne(refs, indeg[..], children[..], child, parent);
    TidyAdd(children[..], child, parent);
    refs' := refs[child := refs[child] + [parent]];
    children[parent] := children[parent] + [child];
    indeg[child] := indeg[child] + 1;
    assert indeg[..] == old(indeg[..])[child := old(indeg[child]) + 1];
    assert children[..] == old(children[..])[parent := old(children[parent]) + [child]];
  }

  /** The position a reference orders its item after, or -1. */
  method Resolve(items: seq<Item>, idx: map<string, nat>, child: nat, j: nat) returns (parent: int)
    requires Indexed(items, idx) && child < |items| && j < |items[child].deps|
    ensures -1 <= parent < |items|
    ensures Parents(items, child, j + 1) == Parents(items, child, j) + if parent >= 0 then [parent] else []
  {
    var dep := items[child].deps[j];
    if dep !in idx || idx[dep] == child { return -1; }
    return idx[dep];
  }

  /** Read the `j`-th reference of one item. */
  method ReadReference(items: seq<Item>, idx: map<string, nat>, indeg: array<int>, children: array<seq<int>>, child: nat, j: nat,
                       ghost refs: seq<seq<int>>) returns (ghost refs': seq<seq<int>>)
    requires Indexed(items, idx) && child < |items| == |refs| && j < |items[child].deps| && refs[child] == Parents(items, child, j)
    requires Counted(refs, indeg[..], children[..]) && Tidy(children[..], child)
    modifies indeg, children
    ensures refs' == refs[child := Parents(items, child, j + 1)] && Counted(refs', indeg[..], children[..]) && Tidy(children[..], child)
  {
    refs' := refs;
    var parent := Resolve(items, idx, child, j);
    if parent >= 0 {
      refs' := AddEdge(indeg, children, child, parent, refs);
    } else {
      assert Parents(items, child, j + 1) == refs[child] && refs[child := refs[child]] == refs;
    }
  }

  /** Read the references of one item. */
  method ReadItem(items: seq<Item>, idx: map<string, nat>, indeg: array<int>, children: array<seq<int>>, child: nat,
                  ghost refs0: seq<seq<int>>) returns (ghost refs: seq<seq<int>>)
    requires Indexed(items, idx)
    requires |refs0| == |items| && child < |items| && refs0[child] == [] && Counted(refs0, indeg[..], children[..])
    requires Tidy(children[..], child)
    modifies indeg, children
    ensures Tidy(children[..], child)
    ensures refs == refs0[child := AllParents(items, child)] && Counted(refs, indeg[..], children[..])
  {
    refs := refs0;
    for j := 0 to |items[child].deps|
      invariant refs == refs0[child := Parents(items, child, j)]
      invariant Counted(refs, indeg[..], children[..]) && Tidy(children[..], child)
    {
      refs := ReadReference(items, idx, indeg, children, child, j, refs);
    }
  }

  method BuildGraph(items: seq<Item>) returns (indeg: array<int>, children: array<seq<int>>)
    ensures fresh(indeg) && fresh(children) && Counted(References(items), indeg[..], children[..])
    ensures Tidy(children[..], |items|)
  {
    var idx := IndexByKey(items);
    var n := |items|;
    indeg := new int[n](_ => 0);
    children := new seq<int>[n](_ => []);
    ghost var refs := seq(n, _ => []);
    for child := 0 to n
      invariant fresh(indeg) && fresh(children) && |refs| == n
      invariant Counted(refs, indeg[..], children[..]) && Tidy(children[..], child)
      invariant forall c :: 0 <= c < n ==> refs[c] == if c < child then AllParents(items, c) else []
    {
      refs := ReadItem(items, idx, indeg, children, child, refs);
      TidyLater(children[..], child, child + 1);
    }
    assert refs == References(items);
  }

  ghost predicate QueuedAtZero(indeg: seq<int>, placed: seq<int>) {
    && Distinct(placed) && Within(placed, |indeg|)
    && forall c :: 0 <= c < |indeg| ==> (c in placed <==> indeg[c] == 0)
  }

  ghost function Elements(s: seq<int>): set<int> { set x | x in s }

  /** Between two dequeues an in-degree counts the references not yet placed. */
  ghost predicate Placing(refs: seq<seq<int>>, indeg: seq<int>, order: seq<int>, queue: seq<int>) {
    && |indeg| == |refs| && QueuedAtZero(indeg, order + queue)
    && (forall c :: 0 <= c < |refs| ==> indeg[c] == Pending(refs[c], Elements(order)))
    && ParentsFirst(Edges(refs), order)
  }

  /** While the children of the last placed position are visited, `left` of them are still counted. */
  ghost predicate Releasing(refs: seq<seq<int>>, indeg: seq<int>, order: seq<int>, queue: seq<int>, left: seq<int>) {
    && |indeg| == |refs| && QueuedAtZero(indeg, order + queue) && Within(left, |refs|)
    && (forall c :: 0 <= c < |refs| ==> indeg[c] == Pending(refs[c], Elements(order)) + multiset(left)[c])
  }

  lemma Dequeue(refs: seq<seq<int>>, indeg: seq<int>, children: seq<seq<int>>, order: seq<int>, queue: seq<int>)
    requires Placing(refs, indeg, order, queue) && queue != [] && |children| == |refs|
    requires forall p :: 0 <= p < |refs| ==> Within(children[p], |refs|)
    requires forall p, c :: 0 <= p < |refs| && 0 <= c < |refs| ==> multiset(children[p])[c] == multiset(refs[c])[p]
    ensures 0 <= queue[0] < |refs|
    ensures Releasing(refs, indeg, order + [queue[0]], queue[1..], children[queue[0]])
    ensures ParentsFirst(Edges(refs), order + [queue[0]])
  {
    var i := queue[0];
    assert (order + queue)[|order|] == i;
    forall k | 0 <= k < |order| ensures order[k] != i { assert (order + queue)[k] == order[k]; }
    assert order + [i] + queue[1..] == order + queue;
    assert Elements(order + [i]) == Elements(order) + {i};
    forall c | 0 <= c < |refs|
      ensures Pending(refs[c], Elements(order)) == Pending(refs[c], Elements(order + [i])) + multiset(children[i])[c]
    {
      PendingPlace(refs[c], Elements(order), i);
    }
    PendingZero(refs[i], Elements(order));
    forall k | 0 <= k <= |order| ensures ParentsBefore(Edges(refs), order + [i], k) {
      assert (order + [i])[..k] == order[..k];
      if k < |order| { assert ParentsBefore(Edges(refs), order, k); }
    }
  }

  lemma ReleaseOne(refs: seq<seq<int>>, indeg: seq<int>, order: seq<int>, queue: seq<int>, c: int, left: seq<int>)
    requires Releasing(refs, indeg, order, queue, [c] + left)
    ensures 0 <= c < |indeg|
    ensures Releasing(refs, indeg[c := indeg[c] - 1], order, if indeg[c] == 1 then queue + [c] else queue, left)
  {
    assert ([c] + left)[0] == c;
    var indeg' := indeg[c := indeg[c] - 1];
    assert indeg[c] > 0;
    forall k | 0 <= k < |left| ensures 0 <= left[k] < |refs| { assert left[k] == ([c] + left)[k + 1]; }
    var placed := order + queue;
    assert c !in placed;
    if indeg[c] == 1 {
      assert order + (queue + [c]) == placed + [c];
      assert QueuedAtZero(indeg', placed + [c]);
    } else {
      assert QueuedAtZero(indeg', placed);
    }
  }

  // ----- the order in which the queue hands items out

  ghost predicate Covers(order: seq<int>, ps: seq<int>) { forall k :: 0 <= k < |ps| ==> ps[k] in order }

  /** How many of the placed positions it takes until all of `ps` are among them. */
  ghost function Ready(ps: seq<int>, order: seq<int>): nat {
    if order == [] || ps == [] then 0
    else if Covers(order[..|order| - 1], ps) then Ready(ps, order[..|order| - 1])
    else |order|
  }

  /** Released earlier, or by the same placement and earlier in the input. */
  ghost predicate Sooner(refs: seq<seq<int>>, order: seq<int>, a: int, b: int)
    requires 0 <= a < |refs| && 0 <= b < |refs|
  {
    Ready(refs[a], order) < Ready(refs[b], order) || (Ready(refs[a], order) == Ready(refs[b], order) && a < b)
  }

  /** `handed` lists positions released by `order`, the sooner ones first. */
  ghost predicate InRelease(refs: seq<seq<int>>, order: seq<int>, handed: seq<int>) {
    && Within(handed, |refs|)
    && (forall i {:trigger Covers(order, refs[handed[i]])} :: 0 <= i < |handed| ==> Covers(order, refs[handed[i]]))
    && (forall i, j {:trigger Sooner(refs, order, handed[i], handed[j])} ::
          0 <= i < j < |handed| ==> Sooner(refs, order, handed[i], handed[j]))
  }

  lemma ReadyBound(ps: seq<int>, order: seq<int>)
    ensures Ready(ps, order) <= |order|
  {}

  /** Placing one more position keeps released ones where they are and puts the newly released ones
      behind them. */
  lemma ReadyGrows(ps: seq<int>, order: seq<int>, x: int)
    requires Covers(order + [x], ps)
    ensures Covers(order, ps) ==> Ready(ps, order + [x]) == Ready(ps, order)
    ensures !Covers(order, ps) ==> Ready(ps, order + [x]) == |order| + 1
  {
    assert (order + [x])[..|order|] == order;
  }

  /** The newly released positions are exactly those that waited for the last placement. */
  ghost predicate Released(refs: seq<seq<int>>, order: seq<int>, newly: seq<int>)
    requires order != []
  {
    && Within(newly, |refs|)
    && (forall i {:trigger Covers(order, refs[newly[i]])} ::
          0 <= i < |newly| ==> Covers(order, refs[newly[i]]) && order[|order| - 1] in refs[newly[i]])
    && (forall i, j :: 0 <= i < j < |newly| ==> newly[i] < newly[j])
  }

  lemma ReleaseKeeps(refs: seq<seq<int>>, order: seq<int>, x: int, handed: seq<int>, newly: seq<int>)
    requires InRelease(refs, order, handed) && x !in order && Released(refs, order + [x], newly)
    ensures InRelease(refs, order + [x], handed + newly)
  {
    var order', all := order + [x], handed + newly;
    forall i | 0 <= i < |all| ensures 0 <= all[i] < |refs| && Covers(order', refs[all[i]]) {
      if i < |handed| { assert Covers(order, refs[handed[i]]); } else { assert Covers(order', refs[newly[i - |handed|]]); }
    }
    forall i | 0 <= i < |all|
      ensures Ready(refs[all[i]], order') == if i < |handed| then Ready(refs[handed[i]], order) else |order'|
    {
      ReadyGrows(refs[all[i]], order, x);
      if i >= |handed| {
        assert order'[|order'| - 1] == x && x in refs[newly[i - |handed|]];
      }
    }
    forall i, j | 0 <= i < j < |all| ensures Sooner(refs, order', all[i], all[j]) {
      if j < |handed| {
        assert Sooner(refs, order, handed[i], handed[j]);
      } else if i < |handed| {
        ReadyBound(refs[handed[i]], order);
      }
    }
  }

  /** After `k` children: `newly` are queued behind `queue0`. */
  ghost predicate Visiting(refs: seq<seq<int>>, indeg: seq<int>, order: seq<int>, queue0: seq<int>, newly: seq<int>, kids: seq<int>, k: nat) {
    k <= |kids| && Releasing(refs, indeg, order, queue0 + newly, kids[k..]) && Picked(newly, kids[..k])
  }

  lemma VisitOne(refs: seq<seq<int>>, indeg: seq<int>, order: seq<int>, queue0: seq<int>, newly: seq<int>, kids: seq<int>, k: nat)
    requires Visiting(refs, indeg, order, queue0, newly, kids, k) && k < |kids| && NonDescending(kids)
    ensures 0 <= kids[k] < |indeg|
    ensures var c := kids[k];
            Visiting(refs, indeg[c := indeg[c] - 1], order, queue0, if indeg[c] == 1 then newly + [c] else newly, kids, k + 1)
  {
    var (c, queue) := (kids[k], queue0 + newly);
    assert kids[k..] == [c] + kids[k + 1..];
    ReleaseOne(refs, indeg, order, queue, c, kids[k + 1..]);
    assert queue + [c] == queue0 + (newly + [c]);
    if indeg[c] == 1 { NotQueued(indeg, order, queue0, newly, c); }
    PickedMore(newly, kids, k, c !in newly);
  }

  lemma VisitNone(refs: seq<seq<int>>, indeg: seq<int>, order: seq<int>, queue0: seq<int>, kids: seq<int>)
    requires Releasing(refs, indeg, order, queue0, kids)
    ensures Visiting(refs, indeg, order, queue0, [], kids, 0) && queue0 + [] == queue0
  {
    assert kids[0..] == kids && queue0 + [] == queue0;
  }

  lemma VisitedAll(refs: seq<seq<int>>, indeg: seq<int>, order: seq<int>, queue0: seq<int>, newly: seq<int>, kids: seq<int>)
    requires Visiting(refs, indeg, order, queue0, newly, kids, |kids|)
    ensures Releasing(refs, indeg, order, queue0 + newly, []) && Picked(newly, kids)
  {
    assert kids[|kids|..] == [] && kids[..|kids|] == kids;
  }

  lemma NotQueued(indeg: seq<int>, order: seq<int>, queue0: seq<int>, newly: seq<int>, c: int)
    requires QueuedAtZero(indeg, order + (queue0 + newly)) && 0 <= c < |indeg| && indeg[c] != 0
    ensures c !in newly
  {
    forall x | 0 <= x < |newly| ensures newly[x] != c {
      assert (order + (queue0 + newly))[|order| + |queue0| + x] == newly[x];
      assert newly[x] in order + (queue0 + newly);
    }
  }

  /** Visit the children of the position just placed, queueing those that reach zero. */
  method Release(indeg: array<int>, kids: seq<int>, queue0: seq<int>, ghost refs: seq<seq<int>>, ghost order: seq<int>)
    returns (queue: seq<int>, ghost newly: seq<int>)
    requires Releasing(refs, indeg[..], order, queue0, kids) && NonDescending(kids)
    modifies indeg
    ensures queue == queue0 + newly && Releasing(refs, indeg[..], order, queue, []) && Picked(newly, kids)
  {
    queue, newly := queue0, [];
    VisitNone(refs, indeg[..], order, queue0, kids);
    for k := 0 to |kids|
      invariant queue == queue0 + newly && Visiting(refs, indeg[..], order, queue0, newly, kids, k)
    {
      var c := kids[k];
      ghost var before := indeg[..];
      VisitOne(refs, before, order, queue0, newly, kids, k);
      indeg[c] := indeg[c] - 1;
      assert indeg[..] == before[c := before[c] - 1];
      if indeg[c] == 0 {
        queue := queue + [c];
        newly := newly + [c];
      }
    }
    VisitedAll(refs, indeg[..], order, queue0, newly, kids);
  }

  /** Strictly ascending members of a list. */
  ghost predicate Picked(newly: seq<int>, kids: seq<int>) {
    (forall i, j :: Rises(newly, i, j)) && (forall i :: Taken(newly, i, kids))
  }

  predicate Rises(s: seq<int>, i: int, j: int) { 0 <= i < j < |s| ==> s[i] < s[j] }

  predicate Taken(s: seq<int>, i: int, kids: seq<int>) { 0 <= i < |s| ==> s[i] in kids }

  lemma PickedMore(newly: seq<int>, kids: seq<int>, k: nat, isNew: bool)
    requires k < |kids| && NonDescending(kids) && Picked(newly, kids[..k]) && isNew == (kids[k] !in newly)
    ensures Picked(newly, kids[..k + 1]) && (isNew ==> Picked(newly + [kids[k]], kids[..k + 1]))
  {
    var upto := kids[..k + 1];
    assert upto == kids[..k] + [kids[k]];
    forall i ensures Taken(newly, i, upto) { assert Taken(newly, i, kids[..k]); }
    forall i | 0 <= i < |newly| ensures newly[i] <= kids[k] {
      assert Taken(newly, i, kids[..k]);
      var x :| 0 <= x < k && kids[..k][x] == newly[i];
      assert NotAfter(kids, x, k);
    }
    if isNew {
      var more := newly + [kids[k]];
      forall i, j ensures Rises(more, i, j) { assert Rises(newly, i, j); }
      forall i ensures Taken(more, i, upto) { assert Taken(newly, i, upto); }
    }
  }

  lemma AllReleased(refs: seq<seq<int>>, indeg: seq<int>, order: seq<int>, queue0: seq<int>, newly: seq<int>, kids: seq<int>)
    requires Releasing(refs, indeg, order, queue0 + newly, []) && order != [] && Picked(newly, kids)
    requires forall k :: 0 <= k < |kids| ==> 0 <= kids[k] < |refs| && order[|order| - 1] in refs[kids[k]]
    ensures Released(refs, order, newly)
  {
    forall i, j | 0 <= i < j < |newly| ensures newly[i] < newly[j] { assert Rises(newly, i, j); }
    forall i | 0 <= i < |newly|
      ensures 0 <= newly[i] < |refs| && Covers(order, refs[newly[i]]) && order[|order| - 1] in refs[newly[i]]
    {
      assert newly[i] in order + (queue0 + newly) by { assert (order + (queue0 + newly))[|order| + |queue0| + i] == newly[i]; }
      assert Taken(newly, i, kids);
      PendingZero(refs[newly[i]], Elements(order));
    }
  }

  /** Between two dequeues. */
  ghost predicate Round(refs: seq<seq<int>>, indeg: seq<int>, roots: seq<int>, order: seq<int>, queue: seq<int>) {
    Placing(refs, indeg, order, queue) && roots <= order + queue && InRelease(refs, order, order + queue)
  }

  /** What Release needs of the position taken from the queue. */
  lemma OpenRound(refs: seq<seq<int>>, indeg: seq<int>, children: seq<seq<int>>, roots: seq<int>, order: seq<int>, queue: seq<int>)
    requires Round(refs, indeg, roots, order, queue) && queue != [] && Tidy(children, |refs|) && |children| == |refs|
    requires forall p :: 0 <= p < |refs| ==> Within(children[p], |refs|)
    requires forall p, c :: 0 <= p < |refs| && 0 <= c < |refs| ==> multiset(children[p])[c] == multiset(refs[c])[p]
    ensures var i := queue[0];
            && 0 <= i < |refs| && i !in order && NonDescending(children[i])
            && Releasing(refs, indeg, order + [i], queue[1..], children[i]) && ParentsFirst(Edges(refs), order + [i])
            && (forall k :: 0 <= k < |children[i]| ==> 0 <= children[i][k] < |refs| && i in refs[children[i][k]])
  {
    Dequeue(refs, indeg, children, order, queue);
    HeadIsNew(order, queue);
    ChildrenRefer(refs, children, queue[0]);
  }

  lemma CloseRound(refs: seq<seq<int>>, indeg: seq<int>, roots: seq<int>, order: seq<int>, queue: seq<int>, newly: seq<int>)
    requires queue != [] && queue[0] !in order && roots <= order + queue && InRelease(refs, order, order + queue)
    requires ParentsFirst(Edges(refs), order + [queue[0]]) && Released(refs, order + [queue[0]], newly)
    requires Releasing(refs, indeg, order + [queue[0]], queue[1..] + newly, [])
    ensures Round(refs, indeg, roots, order + [queue[0]], queue[1..] + newly) && |order| < |refs|
  {
    var (order', queue') := (order + [queue[0]], queue[1..] + newly);
    assert order' + queue' == order + queue + newly;
    ReleaseKeeps(refs, order, queue[0], order + queue, newly);
    DistinctBound(order' + queue', |refs|);
  }

  /** The whole queue loop: items come out in release order. */
  method Kahn(indeg: array<int>, children: array<seq<int>>, roots: seq<int>, ghost refs: seq<seq<int>>) returns (order: seq<int>)
    requires Counted(refs, indeg[..], children[..]) && Tidy(children[..], |refs|) && Round(refs, indeg[..], roots, [], roots)
    modifies indeg
    ensures Placing(refs, indeg[..], order, []) && roots <= order && InRelease(refs, order, order)
  {
    order := [];
    var queue := roots;
    ghost var kids := children[..];
    while queue != []
      invariant children[..] == kids && Round(refs, indeg[..], roots, order, queue)
      decreases |refs| - |order|
    {
      OpenRound(refs, indeg[..], kids, roots, order, queue);
      var i := queue[0];
      assert children[i] == kids[i];
      var released;
      ghost var newly;
      released, newly := Release(indeg, children[i], queue[1..], refs, order + [i]);
      AllReleased(refs, indeg[..], order + [i], queue[1..], newly, kids[i]);
      CloseRound(refs, indeg[..], roots, order, queue, newly);
      order, queue := order + [i], released;
    }
    assert order + queue == order;
  }

  lemma HeadIsNew(order: seq<int>, queue: seq<int>)
    requires Distinct(order + queue) && queue != []
    ensures queue[0] !in order
  {
    assert (order + queue)[|order|] == queue[0];
    forall k | 0 <= k < |order| ensures order[k] != queue[0] { assert (order + queue)[k] == order[k]; }
  }

  lemma ChildrenRefer(refs: seq<seq<int>>, children: seq<seq<int>>, p: int)
    requires |children| == |refs| && 0 <= p < |refs| && Within(children[p], |refs|)
    requires forall c :: 0 <= c < |refs| ==> multiset(children[p])[c] == multiset(refs[c])[p]
    ensures forall k :: 0 <= k < |children[p]| ==> 0 <= children[p][k] < |refs| && p in refs[children[p][k]]
  {
    forall k | 0 <= k < |children[p]| ensures 0 <= children[p][k] < |refs| && p in refs[children[p][k]] {
      var c := children[p][k];
      assert c in multiset(children[p]) && multiset(refs[c])[p] > 0;
    }
  }

  /** The queue's first filling: the items without in-set references, in input order. */
  method FirstQueue(indeg: array<int>, ghost refs: seq<seq<int>>) returns (queue: seq<int>)
    requires indeg.Length == |refs| && forall c :: 0 <= c < |refs| ==> indeg[c] == |refs[c]|
    ensures queue == Roots(refs, |refs|)
  {
    queue := [];
    for i := 0 to indeg.Length
      invariant queue == Roots(refs, i)
    {
      if indeg[i] == 0 { queue := queue + [i]; }
    }
  }

  lemma {:induction false} RootsAscend(refs: seq<seq<int>>, n: nat)
    requires n <= |refs|
    ensures Within(Roots(refs, n), n)
    ensures forall i, j :: 0 <= i < j < |Roots(refs, n)| ==> Roots(refs, n)[i] < Roots(refs, n)[j]
    ensures forall c :: 0 <= c < n ==> (c in Roots(refs, n) <==> refs[c] == [])
  {
    if n > 0 { RootsAscend(refs, n - 1); }
  }

  lemma Started(refs: seq<seq<int>>, indeg: seq<int>, children: seq<seq<int>>)
    requires Counted(refs, indeg, children)
    ensures Placing(refs, indeg, [], Roots(refs, |refs|))
  {
    RootsAscend(refs, |refs|);
    assert [] + Roots(refs, |refs|) == Roots(refs, |refs|);
    assert Elements([]) == {};
    forall c | 0 <= c < |refs| ensures indeg[c] == Pending(refs[c], {}) { PendingNone(refs[c]); }
  }

  lemma RootsInRelease(refs: seq<seq<int>>)
    ensures InRelease(refs, [], Roots(refs, |refs|))
  {
    RootsAscend(refs, |refs|);
    var roots := Roots(refs, |refs|);
    forall i | 0 <= i < |roots| ensures refs[roots[i]] == [] { assert roots[i] in roots; }
  }

  /** `order` lists every position once, parents first, roots first and in input order. */
  ghost predicate Complete(items: seq<Item>, order: seq<int>) {
    && |order| == |items| && Distinct(order) && Within(order, |items|)
    && ParentsFirst(Edges(References(items)), order)
    && Roots(References(items), |items|) <= order
  }

  /** A complete order in which any two positions stand as they were released. */
  ghost predicate IsImportOrder(items: seq<Item>, order: seq<int>) {
    Complete(items, order) && InRelease(References(items), order, order)
  }

  /** How many items are placed when the last one that `c` refers to is; 0 without references. */
  ghost function ReleasedAt(items: seq<Item>, order: seq<int>, c: int): nat
    requires 0 <= c < |items|
  {
    Ready(References(items)[c], order)
  }

  /** Of any two items the one earlier in the input stays first exactly when it is released no later
      than the other. */
  lemma InputOrderKeptExactly(items: seq<Item>, order: seq<int>, i: nat, j: nat)
    requires IsImportOrder(items, order) && i < |order| && j < |order| && order[i] < order[j]
    ensures i < j <==> ReleasedAt(items, order, order[i]) <= ReleasedAt(items, order, order[j])
  {
    var refs := References(items);
    if i < j { assert Sooner(refs, order, order[i], order[j]); } else { assert Sooner(refs, order, order[j], order[i]); }
  }

  /** Release looks only at what is already placed. */
  lemma ReadyPrefix(ps: seq<int>, order: seq<int>, n: nat)
    requires n <= |order| && Covers(order[..n], ps)
    ensures Ready(ps, order) == Ready(ps, order[..n])
    decreases |order|
  {
    if n < |order| {
      var front := order[..|order| - 1];
      assert front[..n] == order[..n];
      forall k | 0 <= k < |ps| ensures ps[k] in front { assert ps[k] in front[..n]; }
      ReadyPrefix(ps, front, n);
    } else {
      assert order[..n] == order;
    }
  }

  lemma PlacedCovers(items: seq<Item>, order: seq<int>, k: nat)
    requires Complete(items, order) && k < |order|
    ensures Covers(order[..k], References(items)[order[k]])
  {
    var (refs, c) := (References(items), order[k]);
    assert ParentsBefore(Edges(refs), order, k);
    forall x | 0 <= x < |refs[c]| ensures refs[c][x] in order[..k] { assert (c, refs[c][x]) in Edges(refs); }
  }

  /** The order is the only one there is: every choice the algorithm makes is pinned down. */
  lemma {:induction false} ImportOrderUnique(items: seq<Item>, a: seq<int>, b: seq<int>, n: nat)
    requires IsImportOrder(items, a) && IsImportOrder(items, b) && n <= |items|
    ensures a[..n] == b[..n]
    decreases n
  {
    if n > 0 {
      ImportOrderUnique(items, a, b, n - 1);
      var k := n - 1;
      OvertakesNobody(items, a, b, k);
      assert a[..n] == a[..k] + [a[k]] && b[..n] == b[..k] + [b[k]];
    }
  }

  lemma OvertakesNobody(items: seq<Item>, a: seq<int>, b: seq<int>, k: nat)
    requires IsImportOrder(items, a) && IsImportOrder(items, b) && k < |items| && a[..k] == b[..k]
    ensures a[k] == b[k]
  {
    var refs := References(items);
    PlacedCovers(items, a, k);
    PlacedCovers(items, b, k);
    ReadyPrefix(refs[a[k]], a, k);
    ReadyPrefix(refs[a[k]], b, k);
    ReadyPrefix(refs[b[k]], a, k);
    ReadyPrefix(refs[b[k]], b, k);
    NotSooner(refs, a, b, k);
    NotSooner(refs, b, a, k);
  }

  lemma NotSooner(refs: seq<seq<int>>, a: seq<int>, b: seq<int>, k: nat)
    requires |a| == |b| == |refs| && Distinct(a) && Distinct(b) && InRelease(refs, a, a) && InRelease(refs, b, b)
    requires k < |a| && a[..k] == b[..k]
    ensures a[k] == b[k] || Sooner(refs, b, b[k], a[k])
  {
    var i := Behind(a, b, k);
    if k < i { assert Sooner(refs, b, b[k], b[i]); }
  }

  /** Where one order puts what the other puts at `k`: not before `k`. */
  lemma Behind(a: seq<int>, b: seq<int>, k: nat) returns (i: nat)
    requires |a| == |b| && Distinct(a) && Distinct(b) && Within(a, |a|) && Within(b, |a|) && k < |a| && a[..k] == b[..k]
    ensures k <= i < |b| && b[i] == a[k]
  {
    DistinctBound(b, |a|);
    assert a[k] in b;
    i :| 0 <= i < |b| && b[i] == a[k];
    forall x | 0 <= x < k ensures b[x] != a[k] { assert a[x] == a[..k][x] == b[..k][x] == b[x]; }
  }

  const UNSTABLE := [Item("x", ["z"]), Item("y", []), Item("z", [])]

  /** "x" and "y" are independent, and "y" overtakes "x" in the order the algorithm gives. */
  lemma NotStable(order: seq<int>, x: nat, y: nat)
    requires IsImportOrder(UNSTABLE, order) && x < |order| && y < |order| && order[x] == 0 && order[y] == 1
    ensures y < x
  {
    assert LastIndex(UNSTABLE, "z", 3) == 2;
    assert AllParents(UNSTABLE, 0) == Parents(UNSTABLE, 0, 1) == Parents(UNSTABLE, 0, 0) + [2];
    assert AllParents(UNSTABLE, 1) == [];
    var refs := References(UNSTABLE);
    assert refs[0] == [2] && refs[1] == [];
    NeedsOne(refs[0], order);
    InputOrderKeptExactly(UNSTABLE, order, x, y);
  }

  /** Whoever has a reference is not released before the first placement. */
  lemma NeedsOne(ps: seq<int>, order: seq<int>)
    requires ps != [] && order != []
    ensures Ready(ps, order) > 0
    decreases |order|
  {
    var front := order[..|order| - 1];
    if Covers(front, ps) {
      assert ps[0] in front;
      NeedsOne(ps, front);
    }
  }

  lemma Verdict(items: seq<Item>, indeg: seq<int>, order: seq<int>)
    requires Placing(References(items), indeg, order, []) && Roots(References(items), |items|) <= order
    ensures |order| == |items| ==> Complete(items, order) && !HasCycle(items)
    ensures |order| != |items| ==> HasCycle(items)
  {
    var refs, edges := References(items), Edges(References(items));
    assert order + [] == order;
    DistinctBound(order, |items|);
    if |order| == |items| {
      forall w ensures !IsCycle(edges, w) { OrderRefutesCycle(edges, |items|, order, w); }
    } else {
      assert Stuck(edges, |items|, order) by {
        forall c | Unplaced(c, |items|, order) ensures exists p :: (c, p) in edges && 0 <= p < |items| && p !in order {
          PendingZero(refs[c], Elements(order));
          var k :| 0 <= k < |refs[c]| && refs[c][k] !in Elements(order);
          assert (c, refs[c][k]) in edges;
        }
      }
      var first := Missing(order, |items|);
      var w := StuckHasCycle(edges, |items|, order, [first]);
    }
  }

  lemma Missing(order: seq<int>, n: nat) returns (first: int)
    requires Distinct(order) && Within(order, n) && |order| < n
    ensures Unplaced(first, n, order)
  {
    ElementCount(order);
    var all, placed := UpTo(n), Elements(order);
    assert placed <= all && all == placed + (all - placed);
    assert |all - placed| > 0;
    first :| first in all - placed;
  }

  /** On distinct keys, in keys: whoever references another item stands after it. */
  lemma ImportOrderByKey(items: seq<Item>, order: seq<int>, j: nat, k: nat)
    requires Complete(items, order) && j < |order| && k < |order| && j != k
    requires forall a, b :: 0 <= a < b < |items| ==> items[a].key != items[b].key
    requires items[order[j]].key in items[order[k]].deps
    ensures j < k
  {
    RefersByKey(items, order[k], order[j]);
    assert ParentsBefore(Edges(References(items)), order, k);
    var at :| 0 <= at < k && order[..k][at] == order[j];
  }

  /** The positions Kahn's algorithm places; all of them exactly when there is no cycle. */
  method Positions(items: seq<Item>) returns (placed: seq<int>)
    ensures |placed| == |items| ==> IsImportOrder(items, placed) && !HasCycle(items)
    ensures |placed| != |items| ==> HasCycle(items)
  {
    var indeg, children := BuildGraph(items);
    ghost var refs := References(items);
    var queue := FirstQueue(indeg, refs);
    Started(refs, indeg[..], children[..]);
    RootsInRelease(refs);
    assert [] + queue == queue;
    placed := Kahn(indeg, children, queue, refs);
    Verdict(items, indeg[..], placed);
  }

  /** Fails exactly when the in-set references have a cycle; otherwise the result is the input in its
      one import order: every item after all it refers to, and any two as they were released. */
  method TopoSort(items: seq<Item>) returns (out: Option<seq<Item>>, ghost order: seq<int>)
    ensures out.None? <==> HasCycle(items)
    ensures out.Some? ==> IsImportOrder(items, order) && |out.value| == |order|
    ensures out.Some? ==> forall k :: 0 <= k < |order| ==> out.value[k] == items[order[k]]
  {
    var placed := Positions(items);
    order := placed;
    if |placed| != |items| { return None, order; }
    var res: seq<Item> := [];
    for k := 0 to |placed|
      invariant |res| == k && forall i :: 0 <= i < k ==> res[i] == items[placed[i]]
    {
      res := res + [items[placed[k]]];
    }
    return Some(res), order;
  }
}
